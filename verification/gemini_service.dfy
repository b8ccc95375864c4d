/** The deterministic tail of `fetchMarketIntelligence` in services/geminiService.ts:
    defaulting the response text, stripping one layer of Markdown code fence,
    parsing, and attaching the grounding chunks as `sources`. The provider call
    and `JSON.parse` are parameters. */
module GeminiService {
  import opened Outcomes
  import opened Strings
  import opened Types

  /** The parts of a provider response the service reads. */
  datatype Candidate = Candidate(groundingMetadata: Option<GroundingMetadata>)
  datatype GroundingMetadata = GroundingMetadata(groundingChunks: Option<seq<GroundingChunk>>)
  datatype GenerateResponse = GenerateResponse(
    text: Option<string>,
    candidates: Option<seq<Candidate>>)

  /** A top-level field of the returned object: a field copied from the parsed
      data, or the `sources` list the service attaches. */
  datatype Field<V> = Parsed(value: V) | Sources(chunks: seq<GroundingChunk>)

  const OpeningFence: string := "```json"
  const ClosingFence: string := "```"
  const SourcesKey: string := "sources"

  /** `response.text || '{}'`: an absent or empty text becomes an empty object. */
  function ResponseText(response: GenerateResponse): (r: string)
    ensures |r| > 0
    ensures response.text.None? || response.text == Some("") ==> r == "{}"
    ensures response.text.Some? && response.text.value != "" ==> r == response.text.value
  {
    match response.text
    case None => "{}"
    case Some(t) => if t == "" then "{}" else t
  }

  /** `.replace(/^```json\n?/, '')`: without the `m` flag `^` anchors at the
      start of the string only, and the optional newline is taken greedily. */
  function StripOpeningFence(s: string): (r: string)
    ensures EndsWith(s, r) && |s| - |r| <= 8
    ensures !StartsWith(s, OpeningFence) ==> r == s
    ensures StartsWith(s, OpeningFence + "\n") ==> s == OpeningFence + "\n" + r
    ensures StartsWith(s, OpeningFence) && !StartsWith(s, OpeningFence + "\n") ==> s == OpeningFence + r
  {
    if StartsWith(s, OpeningFence) then
      var rest := s[|OpeningFence|..];
      assert s == OpeningFence + rest;
      if |rest| > 0 && rest[0] == '\n' then
        assert s == OpeningFence + "\n" + rest[1..];
        rest[1..]
      else
        assert (OpeningFence + "\n")[|OpeningFence|] == '\n';
        assert |s| == |OpeningFence| || s[|OpeningFence|] != '\n';
        rest
    else s
  }

  /** `.replace(/\n?```$/, '')`: without the `m` flag `$` anchors at the end of
      the string only; the leftmost match includes a preceding newline when
      there is one. */
  function StripClosingFence(s: string): (r: string)
    ensures StartsWith(s, r) && |s| - |r| <= 4
    ensures !EndsWith(s, ClosingFence) ==> r == s
    ensures EndsWith(s, "\n" + ClosingFence) ==> s == r + "\n" + ClosingFence
    ensures EndsWith(s, ClosingFence) && !EndsWith(s, "\n" + ClosingFence) ==> s == r + ClosingFence
  {
    if EndsWith(s, "\n" + ClosingFence) then
      var r := s[..|s| - 4];
      assert s == r + "\n" + ClosingFence;
      r
    else if EndsWith(s, ClosingFence) then
      var r := s[..|s| - 3];
      assert s == r + ClosingFence;
      r
    else s
  }

  /** `text.trim().replace(...).replace(...)`: the text handed to `JSON.parse`.
      It is a contiguous part of the trimmed text that drops at most eight
      characters (an opening fence and its newline) at the front and at most
      four (a closing fence and its newline) at the back. */
  function CleanJson(text: string): (r: string)
    ensures var t := Trim(text);
      exists i :: OccursAt(t, r, i) && i <= 8 && |t| - (i + |r|) <= 4
  {
    FenceStrippingBounds(Trim(text));
    StripClosingFence(StripOpeningFence(Trim(text)))
  }

  /** The two fence removals keep a contiguous part of their input. */
  lemma FenceStrippingBounds(t: string)
    ensures var r := StripClosingFence(StripOpeningFence(t));
      exists i :: OccursAt(t, r, i) && i <= 8 && |t| - (i + |r|) <= 4
  {
    var a := StripOpeningFence(t);
    var r := StripClosingFence(a);
    var i := |t| - |a|;
    assert t[i..] == a;
    assert a[..|r|] == r;
    assert t[i..i + |r|] == a[..|r|];
    assert OccursAt(t, r, i);
  }

  /** `s` wrapped in a lower-case `json` fence, one newline on each side. */
  function Fenced(s: string): string {
    OpeningFence + "\n" + s + "\n" + ClosingFence
  }

  /** Wrapping any text in a `json` fence and then cleaning it gives the text back. */
  lemma CleanJsonRoundTrip(s: string)
    ensures CleanJson(Fenced(s)) == s
  {
    var w := Fenced(s);
    assert w[0] == '`' && w[|w| - 1] == '`';
    TrimKeepsUnpadded(w);
    OpeningFenceRemoved(s);
    ClosingFenceRemoved(s);
  }

  lemma OpeningFenceRemoved(s: string)
    ensures StripOpeningFence(Fenced(s)) == s + "\n" + ClosingFence
  {
    var w := Fenced(s);
    assert w == (OpeningFence + "\n") + (s + "\n" + ClosingFence);
    assert w[..8] == OpeningFence + "\n";
  }

  lemma ClosingFenceRemoved(s: string)
    ensures StripClosingFence(s + "\n" + ClosingFence) == s
  {
    var a := s + "\n" + ClosingFence;
    assert a[|a| - 4..] == "\n" + ClosingFence;
  }

  /** Text that does not begin or end with whitespace is left alone by `trim`. */
  lemma TrimKeepsUnpadded(s: string)
    requires |s| > 0 && !IsWhitespace(s[0]) && !IsWhitespace(s[|s| - 1])
    ensures Trim(s) == s
  {
    assert TrimStart(s) == s;
    assert TrimEnd(s) == s;
  }

  /** Trimmed text with no opening `json` fence and no closing fence is parsed as it is. */
  lemma CleanJsonKeepsUnfenced(text: string)
    requires !StartsWith(Trim(text), OpeningFence)
    requires !EndsWith(Trim(text), ClosingFence)
    ensures CleanJson(text) == Trim(text)
  {
  }

  /** Only one fence layer is removed: cleaning a doubly fenced text leaves a
      fenced text, which a second cleaning changes again. */
  lemma CleanJsonNotIdempotent(s: string)
    ensures CleanJson(Fenced(Fenced(s))) == Fenced(s)
    ensures CleanJson(CleanJson(Fenced(Fenced(s)))) == s != Fenced(s)
  {
    CleanJsonRoundTrip(Fenced(s));
    CleanJsonRoundTrip(s);
  }

  /** The opening tag must be lower-case `json`: an upper-case `JSON` fence
      stays while the closing fence is still removed. */
  lemma CleanJsonKeepsOtherTags(s: string)
    ensures CleanJson("```JSON\n" + s + "\n" + ClosingFence) == "```JSON\n" + s
  {
    var w := "```JSON\n" + s + "\n" + ClosingFence;
    assert !IsWhitespace(w[0]) && !IsWhitespace(w[|w| - 1]);
    TrimKeepsUnpadded(w);
    assert !StartsWith(w, OpeningFence) by {
      assert w[3] == 'J' != OpeningFence[3];
    }
    assert w[|w| - 4..] == "\n" + ClosingFence;
    assert w == ("```JSON\n" + s) + "\n" + ClosingFence;
  }

  /** `response.candidates?.[0]?.groundingMetadata?.groundingChunks || []`:
      an array, even an empty one, is truthy, so only a missing link in the
      chain yields `[]`. */
  function GroundingChunks(response: GenerateResponse): (r: seq<GroundingChunk>)
    ensures (response.candidates.Some? && |response.candidates.value| > 0
             && response.candidates.value[0].groundingMetadata.Some?
             && response.candidates.value[0].groundingMetadata.value.groundingChunks.Some?)
            ==> r == response.candidates.value[0].groundingMetadata.value.groundingChunks.value
    ensures (response.candidates.None? || |response.candidates.value| == 0
             || response.candidates.value[0].groundingMetadata.None?
             || response.candidates.value[0].groundingMetadata.value.groundingChunks.None?)
            ==> r == []
  {
    match response.candidates
    case None => []
    case Some(cs) =>
      if |cs| == 0 then []
      else match cs[0].groundingMetadata
        case None => []
        case Some(m) => match m.groundingChunks
          case None => []
          case Some(chunks) => chunks
  }

  /** `{ ...data, sources }`: every parsed key keeps its value except `sources`,
      which is always present and holds the grounding chunks. */
  function WithSources<V>(data: map<string, V>, chunks: seq<GroundingChunk>): (r: map<string, Field<V>>)
    ensures r.Keys == data.Keys + {SourcesKey}
    ensures r[SourcesKey] == Sources(chunks)
    ensures forall k :: k in data && k != SourcesKey ==> r[k] == Parsed(data[k])
  {
    map k | k in data.Keys + {SourcesKey} :: if k == SourcesKey then Sources(chunks) else Parsed(data[k])
  }

  /** `fetchMarketIntelligence` after the provider call settled. A rejected call
      propagates its failure; a text `JSON.parse` rejects is reported once as
      malformed, never retried and never replaced by a default; otherwise the
      parsed object gains `sources`. */
  function FetchMarketIntelligence<V>(
    call: Result<GenerateResponse>,
    parse: string -> Option<map<string, V>>): (r: Result<map<string, Field<V>>>)
    ensures call.Err? ==> r == Err(call.error)
    ensures call.Ok? ==>
      var parsed := parse(CleanJson(ResponseText(call.value)));
      && (parsed.None? <==> r == Err(MalformedResponse))
      && (parsed.Some? ==>
            && r.Ok?
            && r.value.Keys == parsed.value.Keys + {SourcesKey}
            && r.value[SourcesKey] == Sources(GroundingChunks(call.value))
            && forall k :: k in parsed.value && k != SourcesKey ==> r.value[k] == Parsed(parsed.value[k]))
  {
    match call
    case Err(e) => Err(e)
    case Ok(response) =>
      match parse(CleanJson(ResponseText(response)))
      case None => Err(MalformedResponse)
      case Some(data) => Ok(WithSources(data, GroundingChunks(response)))
  }
}
