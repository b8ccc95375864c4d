/** The values App.tsx derives from the snapshot for display: the parity
    leakage count, the competitor rate chart, the strategy summary lines and
    the capped event and source lists. */
module DashboardViews {
  import opened Outcomes
  import opened Sequences
  import opened Strings
  import opened Types

  // ---------------------------------------------------------------------------
  // Parity leakage (Pricing tab)
  // ---------------------------------------------------------------------------

  /** `Math.abs` on a gap. */
  function Abs(x: real): real {
    if x < 0.0 then -x else x
  }

  /** A gap is a violation only when its magnitude exceeds this; exactly 2 is fair. */
  const ParityTolerance: real := 2.0

  /** `Math.abs(o.parityGap) > 2`. */
  function IsParityViolation(q: OtaQuote): (b: bool)
    ensures b <==> q.parityGap > 2.0 || q.parityGap < -2.0
  {
    Abs(q.parityGap) > ParityTolerance
  }

  /** `c.otaData?.some(...)`: a competitor without a quote list never leaks. */
  function IsLeaking(c: Hotel): (b: bool)
    ensures b <==> (c.otaData.Some? &&
      exists i :: 0 <= i < |c.otaData.value| && IsParityViolation(c.otaData.value[i]))
  {
    match c.otaData
    case None => false
    case Some(quotes) => Any(IsParityViolation, quotes)
  }

  /** The competitors the leakage filter keeps, in their original order. */
  function LeakingCompetitors(competitors: seq<Hotel>): (r: seq<Hotel>)
    ensures IsSubsequence(r, competitors)
    ensures forall i :: 0 <= i < |r| ==> IsLeaking(r[i])
    ensures forall i :: 0 <= i < |competitors| && IsLeaking(competitors[i]) ==> competitors[i] in r
  {
    Filter(IsLeaking, competitors)
  }

  /** The "Leakage Points" figure: how many competitors have at least one
      quote whose gap exceeds the tolerance. */
  function LeakageCount(competitors: seq<Hotel>): (n: nat)
    ensures n == |set i | 0 <= i < |competitors| && IsLeaking(competitors[i])|
    ensures n <= |competitors|
    ensures (forall i :: 0 <= i < |competitors| ==> competitors[i].otaData.None?) ==> n == 0
  {
    FilterLengthIsMatchCount(IsLeaking, competitors);
    assert MatchingIndices(IsLeaking, competitors) == set i | 0 <= i < |competitors| && IsLeaking(competitors[i]);
    |LeakingCompetitors(competitors)|
  }

  // ---------------------------------------------------------------------------
  // Competitive rate chart (Overview tab)
  // ---------------------------------------------------------------------------

  datatype ChartPoint = ChartPoint(name: string, rate: real)

  /** `name.split(' ').slice(0, 2).join(' ')`: the longest prefix of the name
      holding at most one space. */
  function ChartLabel(name: string): (shown: string)
    ensures StartsWith(name, shown)
    ensures Count(shown, ' ') <= 1
    ensures |shown| == |name| || (name[|shown|] == ' ' && Count(shown, ' ') == 1)
  {
    JoinTakeSplit(name, ' ', 2);
    Join(Take(Split(name, ' '), 2), ' ')
  }

  /** Joining the first `k` pieces of a split gives the prefix of the string
      that ends just before the `k`-th separator (or the whole string). */
  lemma {:induction false} JoinTakeSplit(s: string, sep: char, k: nat)
    requires k >= 1
    ensures var parts := Split(s, sep);
      var p := Join(Take(parts, k), sep);
      && StartsWith(s, p)
      && Count(p, sep) == |Take(parts, k)| - 1
      && (k < |parts| ==> |p| < |s| && s[|p|] == sep)
      && (k >= |parts| ==> p == s)
    decreases |s|
  {
    if |s| > 0 {
      if s[0] == sep {
        if k >= 2 {
          JoinTakeSplit(s[1..], sep, k - 1);
          JoinTakeSplitAfterSeparator(s, sep, k);
        }
      } else {
        JoinTakeSplit(s[1..], sep, k);
        JoinTakeSplitAfterChar(s, sep, k);
      }
    }
  }

  /** The inductive step of `JoinTakeSplit` when `s` starts with the separator. */
  lemma JoinTakeSplitAfterSeparator(s: string, sep: char, k: nat)
    requires |s| > 0 && s[0] == sep && k >= 2
    requires var parts := Split(s[1..], sep);
      var p := Join(Take(parts, k - 1), sep);
      && StartsWith(s[1..], p)
      && Count(p, sep) == |Take(parts, k - 1)| - 1
      && (k - 1 < |parts| ==> |p| < |s| - 1 && s[1..][|p|] == sep)
      && (k - 1 >= |parts| ==> p == s[1..])
    ensures var parts := Split(s, sep);
      var p := Join(Take(parts, k), sep);
      && StartsWith(s, p)
      && Count(p, sep) == |Take(parts, k)| - 1
      && (k < |parts| ==> |p| < |s| && s[|p|] == sep)
      && (k >= |parts| ==> p == s)
  {
    var t := Take(Split(s[1..], sep), k - 1);
    TakeSplitAfterSeparator(s, sep, k);
    JoinAfterEmptyPiece(t, sep);
    PrefixAfterSeparator(s, Join(t, sep), sep);
  }

  /** The first `k` pieces of a split of `s`, when `s` starts with the
      separator, are an empty piece and the first `k - 1` pieces of `s[1..]`. */
  lemma TakeSplitAfterSeparator(s: string, sep: char, k: nat)
    requires |s| > 0 && s[0] == sep && k >= 2
    ensures var t := Take(Split(s[1..], sep), k - 1);
      && |t| > 0
      && Take(Split(s, sep), k) == [""] + t
      && |Split(s, sep)| == |Split(s[1..], sep)| + 1
  {
    var rest := Split(s[1..], sep);
    assert Split(s, sep) == [""] + rest;
    if k - 1 <= |rest| {
      assert ([""] + rest)[..k] == [""] + rest[..k - 1];
    }
  }

  /** An empty first piece contributes only the separator to a join. */
  lemma JoinAfterEmptyPiece(t: seq<string>, sep: char)
    requires |t| > 0
    ensures Join([""] + t, sep) == [sep] + Join(t, sep)
  {
    assert ([""] + t)[1..] == t;
  }

  /** Prepending the separator to a prefix `q` of `s[1..]`, when `s` starts
      with it, gives a prefix of `s` with one more separator. */
  lemma PrefixAfterSeparator(s: string, q: string, sep: char)
    requires |s| > 0 && s[0] == sep && StartsWith(s[1..], q)
    ensures StartsWith(s, [sep] + q)
    ensures Count([sep] + q, sep) == Count(q, sep) + 1
    ensures |q| < |s| - 1 ==> s[|[sep] + q|] == s[1..][|q|]
    ensures q == s[1..] ==> [sep] + q == s
  {
    assert ([sep] + q)[1..] == q;
    assert s == [s[0]] + s[1..];
  }

  /** The inductive step of `JoinTakeSplit` when `s` starts with another character. */
  lemma JoinTakeSplitAfterChar(s: string, sep: char, k: nat)
    requires |s| > 0 && s[0] != sep && k >= 1
    requires var parts := Split(s[1..], sep);
      var p := Join(Take(parts, k), sep);
      && StartsWith(s[1..], p)
      && Count(p, sep) == |Take(parts, k)| - 1
      && (k < |parts| ==> |p| < |s| - 1 && s[1..][|p|] == sep)
      && (k >= |parts| ==> p == s[1..])
    ensures var parts := Split(s, sep);
      var p := Join(Take(parts, k), sep);
      && StartsWith(s, p)
      && Count(p, sep) == |Take(parts, k)| - 1
      && (k < |parts| ==> |p| < |s| && s[|p|] == sep)
      && (k >= |parts| ==> p == s)
  {
    var t := Take(Split(s[1..], sep), k);
    TakeSplitAfterChar(s, sep, k);
    JoinConsChar(s[0], t, sep);
    PrefixAfterChar(s, Join(t, sep), sep);
  }

  /** The first `k` pieces of a split of `s`, when `s` starts with another
      character, are those of `s[1..]` with that character prepended to the first. */
  lemma TakeSplitAfterChar(s: string, sep: char, k: nat)
    requires |s| > 0 && s[0] != sep && k >= 1
    ensures var t := Take(Split(s[1..], sep), k);
      && |t| > 0
      && Take(Split(s, sep), k) == [[s[0]] + t[0]] + t[1..]
      && |Split(s, sep)| == |Split(s[1..], sep)|
  {
    var rest := Split(s[1..], sep);
    var t := Take(rest, k);
    assert Split(s, sep) == [[s[0]] + rest[0]] + rest[1..];
    assert t[1..] == Take(rest[1..], k - 1);
  }

  /** Prepending the first character of `s` to a prefix `q` of `s[1..]` keeps
      it a prefix, adds no separator and keeps the character that follows. */
  lemma PrefixAfterChar(s: string, q: string, sep: char)
    requires |s| > 0 && s[0] != sep && StartsWith(s[1..], q)
    ensures StartsWith(s, [s[0]] + q)
    ensures Count([s[0]] + q, sep) == Count(q, sep)
    ensures |q| < |s| - 1 ==> s[|[s[0]] + q|] == s[1..][|q|]
    ensures q == s[1..] ==> [s[0]] + q == s
  {
    assert ([s[0]] + q)[1..] == q;
    assert s == [s[0]] + s[1..];
  }

  /** `chartData`: one point per competitor, in order, with its current rate. */
  function ChartData(competitors: seq<Hotel>): (r: seq<ChartPoint>)
    ensures |r| == |competitors|
    ensures forall i :: 0 <= i < |r| ==>
      && r[i].rate == competitors[i].currentRate
      && r[i].name == ChartLabel(competitors[i].name)
      && StartsWith(competitors[i].name, r[i].name)
      && Count(r[i].name, ' ') <= 1
  {
    seq(|competitors|, i requires 0 <= i < |competitors| =>
      ChartPoint(ChartLabel(competitors[i].name), competitors[i].currentRate))
  }

  // ---------------------------------------------------------------------------
  // AI strategic summary (Overview tab)
  // ---------------------------------------------------------------------------

  /** One numbered card of the summary. */
  datatype StrategyLine = StrategyLine(badge: nat, text: string)

  /** `line.trim().length > 0`. */
  function HasContent(line: string): (b: bool)
    ensures b <==> !IsBlank(line)
  {
    TrimEmptyIffBlank(line);
    |Trim(line)| > 0
  }

  /** `report.split('\n').filter(...)`: the segments between newlines that are
      not whitespace only, in their original order. */
  function ContentSegments(report: string): (r: seq<string>)
    ensures IsSubsequence(r, Split(report, '\n'))
    ensures |r| <= Count(report, '\n') + 1
    ensures forall i :: 0 <= i < |r| ==> !IsBlank(r[i]) && '\n' !in r[i]
    ensures var segments := Split(report, '\n');
      forall j :: 0 <= j < |segments| && !IsBlank(segments[j]) ==> segments[j] in r
    ensures var segments := Split(report, '\n');
      |r| == |set j | 0 <= j < |segments| && !IsBlank(segments[j])|
  {
    var segments := Split(report, '\n');
    var r := Filter(HasContent, segments);
    ContentSegmentsCount(segments);
    SubsequenceElements(r, segments);
    assert forall i :: 0 <= i < |r| ==> '\n' !in r[i] by {
      forall i | 0 <= i < |r| ensures '\n' !in r[i] {
        var j :| 0 <= j < |segments| && segments[j] == r[i];
      }
    }
    r
  }

  /** The number of segments kept is the number of non-blank segments. */
  lemma ContentSegmentsCount(segments: seq<string>)
    ensures |Filter(HasContent, segments)| == |set j | 0 <= j < |segments| && !IsBlank(segments[j])|
  {
    FilterLengthIsMatchCount(HasContent, segments);
    assert MatchingIndices(HasContent, segments) == set j | 0 <= j < |segments| && !IsBlank(segments[j]);
  }

  predicate IsBullet(c: char) {
    c == '*' || c == '-'
  }

  predicate IsDigit(c: char) {
    '0' <= c <= '9'
  }

  /** A removed bullet: nothing, or one `*`/`-` followed by whitespace only. */
  predicate IsBulletMarker(p: string) {
    |p| == 0 || (IsBullet(p[0]) && IsBlank(p[1..]))
  }

  /** A removed number: nothing, or one digit and a dot followed by whitespace only. */
  predicate IsOrdinalMarker(p: string) {
    |p| == 0 || (|p| >= 2 && IsDigit(p[0]) && p[1] == '.' && IsBlank(p[2..]))
  }

  /** `line` is `r` preceded by a bullet marker and then a number marker. */
  ghost predicate HasListMarker(line: string, r: string) {
    exists bullet, ordinal :: IsBulletMarker(bullet) && IsOrdinalMarker(ordinal) && line == bullet + ordinal + r
  }

  /** `.replace(/^[*-]\s*\/, '')`: one leading bullet and the whitespace after it. */
  function StripBullet(line: string): (r: string)
    ensures EndsWith(line, r)
    ensures IsBulletMarker(line[..|line| - |r|])
    ensures |line| > 0 && IsBullet(line[0]) ==> |r| < |line| && (|r| == 0 || !IsWhitespace(r[0]))
    ensures !(|line| > 0 && IsBullet(line[0])) ==> r == line
  {
    if |line| > 0 && IsBullet(line[0]) then
      BlankRunAfter(line, 1, TrimStart(line[1..]));
      TrimStart(line[1..])
    else line
  }

  /** `.replace(/^[0-9]\.\s*\/, '')`: one leading digit, its dot and the
      whitespace after them. */
  function StripOrdinal(line: string): (r: string)
    ensures EndsWith(line, r)
    ensures IsOrdinalMarker(line[..|line| - |r|])
    ensures |line| >= 2 && IsDigit(line[0]) && line[1] == '.' ==>
      |r| <= |line| - 2 && (|r| == 0 || !IsWhitespace(r[0]))
    ensures !(|line| >= 2 && IsDigit(line[0]) && line[1] == '.') ==> r == line
  {
    if |line| >= 2 && IsDigit(line[0]) && line[1] == '.' then
      BlankRunAfter(line, 2, TrimStart(line[2..]));
      TrimStart(line[2..])
    else line
  }

  /** The text shown on a summary card: a suffix of its segment, after at most
      one bullet and then at most one single-digit number have been removed. */
  function DisplayText(line: string): (r: string)
    ensures EndsWith(line, r)
    ensures HasListMarker(line, r)
    ensures (|line| > 0 && IsBullet(line[0])) || (|line| >= 2 && IsDigit(line[0]) && line[1] == '.')
            ==> |r| < |line| && (|r| == 0 || !IsWhitespace(r[0]))
    ensures !(|line| > 0 && IsBullet(line[0])) && !(|line| >= 2 && IsDigit(line[0]) && line[1] == '.')
            ==> r == line
  {
    MarkerRemoval(line);
    StripOrdinal(StripBullet(line))
  }

  /** Removing a bullet marker and then a number marker removes a list marker. */
  lemma MarkerRemoval(line: string)
    ensures HasListMarker(line, StripOrdinal(StripBullet(line)))
  {
    ListMarkerWitness(line, StripBullet(line), StripOrdinal(StripBullet(line)));
  }

  lemma ListMarkerWitness(line: string, unbulleted: string, r: string)
    requires EndsWith(line, unbulleted) && IsBulletMarker(line[..|line| - |unbulleted|])
    requires EndsWith(unbulleted, r) && IsOrdinalMarker(unbulleted[..|unbulleted| - |r|])
    ensures HasListMarker(line, r)
  {
    var bullet := line[..|line| - |unbulleted|];
    var ordinal := unbulleted[..|unbulleted| - |r|];
    SuffixSplit(unbulleted, r);
    SuffixSplit(line, unbulleted);
    AppendAssociative(bullet, ordinal, r);
    assert IsBulletMarker(bullet) && IsOrdinalMarker(ordinal) && line == bullet + ordinal + r;
  }

  /** A string is the part before a suffix followed by that suffix. */
  lemma SuffixSplit(s: string, suffix: string)
    requires EndsWith(s, suffix)
    ensures s == s[..|s| - |suffix|] + suffix
  {
  }

  lemma AppendAssociative(a: string, b: string, c: string)
    ensures a + (b + c) == a + b + c
  {
  }

  /** A bullet, whitespace, a one-digit number with its dot and more
      whitespace in front of text are all removed. */
  lemma DisplayTextRemovesBulletAndNumber(b: char, w1: string, d: char, w2: string, t: string)
    requires IsBullet(b) && IsBlank(w1) && IsDigit(d) && IsBlank(w2)
    requires |t| == 0 || !IsWhitespace(t[0])
    ensures DisplayText([b] + w1 + [d, '.'] + w2 + t) == t
  {
    var numbered := [d, '.'] + w2 + t;
    var line := [b] + w1 + numbered;
    assert [b] + w1 + [d, '.'] + w2 + t == line;
    assert line[1..] == w1 + numbered;
    TrimStartBlankPrefix(w1, numbered);
    assert StripBullet(line) == numbered;
    NumberRemoved(d, w2, t);
  }

  /** A one-digit number with its dot and whitespace in front of text is removed. */
  lemma DisplayTextRemovesNumber(d: char, w2: string, t: string)
    requires IsDigit(d) && IsBlank(w2)
    requires |t| == 0 || !IsWhitespace(t[0])
    ensures DisplayText([d, '.'] + w2 + t) == t
  {
    var line := [d, '.'] + w2 + t;
    assert !IsBullet(line[0]);
    assert StripBullet(line) == line;
    NumberRemoved(d, w2, t);
  }

  /** A bullet and whitespace in front of text that starts with no number
      marker and no whitespace are removed. */
  lemma DisplayTextRemovesBullet(b: char, w1: string, t: string)
    requires IsBullet(b) && IsBlank(w1)
    requires |t| == 0 || !IsWhitespace(t[0])
    requires !(|t| >= 2 && IsDigit(t[0]) && t[1] == '.')
    ensures DisplayText([b] + w1 + t) == t
  {
    var line := [b] + w1 + t;
    assert line[1..] == w1 + t;
    TrimStartBlankPrefix(w1, t);
    assert StripBullet(line) == t;
  }

  lemma NumberRemoved(d: char, w2: string, t: string)
    requires IsDigit(d) && IsBlank(w2)
    requires |t| == 0 || !IsWhitespace(t[0])
    ensures StripOrdinal([d, '.'] + w2 + t) == t
  {
    var line := [d, '.'] + w2 + t;
    assert line[2..] == w2 + t;
    TrimStartBlankPrefix(w2, t);
  }

  /** A two-digit number is not a list marker: `"10. x"` keeps its number. */
  lemma MultiDigitNumberKept(line: string)
    requires |line| >= 2 && IsDigit(line[0]) && IsDigit(line[1])
    ensures DisplayText(line) == line
  {
    assert !IsBullet(line[0]);
    assert StripBullet(line) == line;
    assert line[1] != '.';
  }

  /** Only one bullet is removed: `"** x"` is shown as `"* x"`. */
  lemma OnlyOneBulletRemoved(first: char, second: char, rest: string)
    requires IsBullet(first) && IsBullet(second)
    ensures DisplayText([first, second] + rest) == [second] + rest
  {
    var line := [first, second] + rest;
    var tail := [second] + rest;
    assert line[1..] == tail;
    assert !IsWhitespace(second) && !IsDigit(second);
    assert TrimStart(tail) == tail;
    assert StripBullet(line) == tail;
    assert StripOrdinal(tail) == tail;
  }

  /** The summary cards: `None` while there is no report text (the spinner is
      shown instead), else one card per content segment numbered 1..n in order. */
  function StrategyLines(report: Option<string>): (r: Option<seq<StrategyLine>>)
    ensures r.None? <==> report.None? || report.value == ""
    ensures r.Some? ==>
      var kept := ContentSegments(report.value);
      && |r.value| == |kept|
      && |r.value| <= Count(report.value, '\n') + 1
      && forall i :: 0 <= i < |r.value| ==>
           && r.value[i].badge == i + 1
           && EndsWith(kept[i], r.value[i].text)
           && r.value[i].text == DisplayText(kept[i])
  {
    match report
    case None => None
    case Some(text) =>
      if text == "" then None
      else
        var kept := ContentSegments(text);
        Some(seq(|kept|, i requires 0 <= i < |kept| => StrategyLine(i + 1, DisplayText(kept[i]))))
  }

  // ---------------------------------------------------------------------------
  // Capped lists (Overview tab)
  // ---------------------------------------------------------------------------

  const OverviewEventLimit: nat := 8
  const SourceLinkLimit: nat := 3

  /** `events.slice(0, 8)`: the first eight events, in order. */
  function OverviewEvents(events: seq<DemandEvent>): (r: seq<DemandEvent>)
    ensures |r| == if |events| <= OverviewEventLimit then |events| else OverviewEventLimit
    ensures r == events[..|r|]
    ensures |events| <= OverviewEventLimit ==> r == events
  {
    Take(events, OverviewEventLimit)
  }

  /** Events after the eighth never reach the overview. */
  lemma OverviewEventsIgnoresLater(events: seq<DemandEvent>, later: seq<DemandEvent>)
    requires |events| >= OverviewEventLimit
    ensures OverviewEvents(events + later) == OverviewEvents(events)
  {
    assert (events + later)[..OverviewEventLimit] == events[..OverviewEventLimit];
  }

  predicate HasWeb(c: GroundingChunk) {
    c.web.Some?
  }

  /** The link for each chunk that carries `web`; the others render nothing. */
  function WebLinks(chunks: seq<GroundingChunk>): (r: seq<WebSource>)
    ensures |r| <= |chunks|
    ensures |r| == |set i | 0 <= i < |chunks| && chunks[i].web.Some?|
    ensures var withWeb := Filter(HasWeb, chunks);
      |r| == |withWeb| && forall j :: 0 <= j < |r| ==> withWeb[j].web == Some(r[j])
    ensures forall j :: 0 <= j < |r| ==> exists i :: 0 <= i < |chunks| && chunks[i].web == Some(r[j])
    ensures forall i :: 0 <= i < |chunks| && chunks[i].web.Some? ==> chunks[i].web.value in r
  {
    var withWeb := Filter(HasWeb, chunks);
    FilterLengthIsMatchCount(HasWeb, chunks);
    assert MatchingIndices(HasWeb, chunks) == set i | 0 <= i < |chunks| && chunks[i].web.Some?;
    var r := Citations(withWeb);
    SubsequenceElements(withWeb, chunks);
    assert forall j :: 0 <= j < |r| ==> exists i :: 0 <= i < |chunks| && chunks[i].web == Some(r[j]) by {
      forall j | 0 <= j < |r| ensures exists i :: 0 <= i < |chunks| && chunks[i].web == Some(r[j]) {
        assert HasWeb(withWeb[j]);
        var i :| 0 <= i < |chunks| && chunks[i] == withWeb[j];
      }
    }
    assert forall i :: 0 <= i < |chunks| && chunks[i].web.Some? ==> chunks[i].web.value in r by {
      forall i | 0 <= i < |chunks| && chunks[i].web.Some? ensures chunks[i].web.value in r {
        assert HasWeb(chunks[i]);
        var j :| 0 <= j < |withWeb| && withWeb[j] == chunks[i];
        assert r[j] == chunks[i].web.value;
      }
    }
    r
  }

  /** The citation of each chunk of a list that all carry `web`. */
  function Citations(withWeb: seq<GroundingChunk>): (r: seq<WebSource>)
    requires forall j :: 0 <= j < |withWeb| ==> HasWeb(withWeb[j])
    ensures |r| == |withWeb|
    ensures forall j :: 0 <= j < |r| ==> withWeb[j].web == Some(r[j])
  {
    seq(|withWeb|, j requires 0 <= j < |withWeb| && HasWeb(withWeb[j]) => withWeb[j].web.value)
  }

  lemma CitationsAppend(a: seq<GroundingChunk>, b: seq<GroundingChunk>)
    requires forall j :: 0 <= j < |a| ==> HasWeb(a[j])
    requires forall j :: 0 <= j < |b| ==> HasWeb(b[j])
    ensures Citations(a + b) == Citations(a) + Citations(b)
  {
    var r, ra, rb := Citations(a + b), Citations(a), Citations(b);
    forall j | 0 <= j < |r| ensures r[j] == (ra + rb)[j] {
      if j < |a| {
        assert (a + b)[j] == a[j];
      } else {
        assert (a + b)[j] == b[j - |a|];
      }
    }
  }

  /** `sources?.slice(0, 3).map(chunk => chunk.web && link)`: links for the
      chunks among the first three that carry `web`. */
  function SourceLinks(sources: Option<seq<GroundingChunk>>): (r: seq<WebSource>)
    ensures |r| <= SourceLinkLimit
    ensures sources.None? ==> r == []
    ensures sources.Some? ==>
      var withWeb := Filter(HasWeb, Take(sources.value, SourceLinkLimit));
      |r| == |withWeb| && forall j :: 0 <= j < |r| ==> withWeb[j].web == Some(r[j])
    ensures sources.Some? ==>
      && (forall j :: 0 <= j < |r| ==>
            exists i :: 0 <= i < |sources.value| && i < SourceLinkLimit && sources.value[i].web == Some(r[j]))
      && (forall i :: 0 <= i < |sources.value| && i < SourceLinkLimit && sources.value[i].web.Some? ==>
            sources.value[i].web.value in r)
  {
    match sources
    case None => []
    case Some(chunks) =>
      LinksOfFirstChunks(chunks);
      WebLinks(Take(chunks, SourceLinkLimit))
  }

  /** The links of the first three chunks come from, and cover, the
      `web`-carrying chunks at positions below three. */
  lemma LinksOfFirstChunks(chunks: seq<GroundingChunk>)
    ensures var r := WebLinks(Take(chunks, SourceLinkLimit));
      && (forall j :: 0 <= j < |r| ==>
            exists i :: 0 <= i < |chunks| && i < SourceLinkLimit && chunks[i].web == Some(r[j]))
      && (forall i :: 0 <= i < |chunks| && i < SourceLinkLimit && chunks[i].web.Some? ==>
            chunks[i].web.value in r)
  {
    var firsts := Take(chunks, SourceLinkLimit);
    assert forall i :: 0 <= i < |firsts| ==> firsts[i] == chunks[i];
  }

  /** The links of two chunk lists, one after the other, are the links of
      the first followed by the links of the second. */
  lemma WebLinksAppend(a: seq<GroundingChunk>, b: seq<GroundingChunk>)
    ensures WebLinks(a + b) == WebLinks(a) + WebLinks(b)
  {
    FilterAppend(HasWeb, a, b);
    CitationsAppend(Filter(HasWeb, a), Filter(HasWeb, b));
  }

  /** When every chunk carries `web`, there is one link per chunk, in order. */
  lemma WebLinksAllWeb(chunks: seq<GroundingChunk>)
    requires forall i :: 0 <= i < |chunks| ==> chunks[i].web.Some?
    ensures |WebLinks(chunks)| == |chunks|
    ensures forall i :: 0 <= i < |chunks| ==> WebLinks(chunks)[i] == chunks[i].web.value
  {
    FilterAll(HasWeb, chunks);
  }

  /** Chunks after the third never produce a link. */
  lemma SourceLinksIgnoresLater(first: seq<GroundingChunk>, later: seq<GroundingChunk>)
    requires |first| >= SourceLinkLimit
    ensures SourceLinks(Some(first + later)) == SourceLinks(Some(first))
  {
    assert (first + later)[..SourceLinkLimit] == first[..SourceLinkLimit];
  }

  /** Three leading chunks that all carry `web` give exactly their three links. */
  lemma SourceLinksFirstThree(chunks: seq<GroundingChunk>)
    requires |chunks| >= SourceLinkLimit
    requires chunks[0].web.Some? && chunks[1].web.Some? && chunks[2].web.Some?
    ensures SourceLinks(Some(chunks)) == [chunks[0].web.value, chunks[1].web.value, chunks[2].web.value]
  {
    assert Take(chunks, SourceLinkLimit) == [chunks[0], chunks[1], chunks[2]];
    WebLinksOfThree(chunks[0], chunks[1], chunks[2]);
  }

  lemma WebLinksOfThree(a: GroundingChunk, b: GroundingChunk, c: GroundingChunk)
    requires a.web.Some? && b.web.Some? && c.web.Some?
    ensures WebLinks([a, b, c]) == [a.web.value, b.web.value, c.web.value]
  {
    FilterAll(HasWeb, [a, b, c]);
    assert Citations([a, b, c]) == [a.web.value, b.web.value, c.web.value];
  }
}
