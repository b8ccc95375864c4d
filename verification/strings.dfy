/** The JavaScript string operations the core relies on: `trim`, the `\s` class,
    `split` on a one-character separator and `join`. */
module Strings {

  /** ECMAScript WhiteSpace and LineTerminator code points: the set used by both
      `String.prototype.trim` and the regular-expression class `\s`. */
  predicate IsWhitespace(c: char) {
    || c == '\t' || c == '\n' || c == '\U{000B}' || c == '\U{000C}' || c == '\r'
    || c == ' ' || c == '\U{00A0}' || c == '\U{1680}'
    || ('\U{2000}' <= c <= '\U{200A}')
    || c == '\U{2028}' || c == '\U{2029}' || c == '\U{202F}' || c == '\U{205F}'
    || c == '\U{3000}' || c == '\U{FEFF}'
  }

  /** Every character is whitespace (the empty string included). */
  predicate IsBlank(s: string) {
    forall i :: 0 <= i < |s| ==> IsWhitespace(s[i])
  }

  predicate StartsWith(s: string, prefix: string) {
    |prefix| <= |s| && s[..|prefix|] == prefix
  }

  predicate EndsWith(s: string, suffix: string) {
    |suffix| <= |s| && s[|s| - |suffix|..] == suffix
  }

  /** `part` occurs in `s` starting at index `i`. */
  predicate OccursAt(s: string, part: string, i: int) {
    0 <= i && i + |part| <= |s| && s[i..i + |part|] == part
  }

  /** Number of occurrences of `c` in `s`. */
  function Count(s: string, c: char): nat {
    if |s| == 0 then 0 else (if s[0] == c then 1 else 0) + Count(s[1..], c)
  }

  /** Removes the maximal whitespace prefix (the `\s*` after an anchor, or the
      left half of `trim`). */
  function TrimStart(s: string): (r: string)
    ensures EndsWith(s, r)
    ensures IsBlank(s[..|s| - |r|])
    ensures |r| == 0 || !IsWhitespace(r[0])
  {
    if |s| > 0 && IsWhitespace(s[0]) then
      var r := TrimStart(s[1..]);
      assert s[|s| - |r|..] == s[1..][|s| - 1 - |r|..];
      var dropped, droppedTail := s[..|s| - |r|], s[1..][..|s| - 1 - |r|];
      assert forall i :: 1 <= i < |dropped| ==> dropped[i] == droppedTail[i - 1];
      r
    else s
  }

  /** A suffix of `line[n..]` reached by dropping a blank run is a suffix of
      `line` reached by dropping the first `n` characters and that run. */
  lemma BlankRunAfter(line: string, n: nat, r: string)
    requires n <= |line| && EndsWith(line[n..], r)
    requires IsBlank(line[n..][..|line| - n - |r|])
    ensures EndsWith(line, r) && |line| - |r| >= n
    ensures IsBlank(line[..|line| - |r|][n..])
  {
    assert line[|line| - |r|..] == line[n..][|line| - n - |r|..];
    assert line[..|line| - |r|][n..] == line[n..][..|line| - n - |r|];
  }

  /** Whitespace in front of text that does not start with whitespace is
      exactly what `TrimStart` removes. */
  lemma {:induction false} TrimStartBlankPrefix(w: string, t: string)
    requires IsBlank(w)
    requires |t| == 0 || !IsWhitespace(t[0])
    ensures TrimStart(w + t) == t
    decreases |w|
  {
    if |w| == 0 {
      assert w + t == t;
    } else {
      assert (w + t)[0] == w[0];
      assert (w + t)[1..] == w[1..] + t;
      TrimStartBlankPrefix(w[1..], t);
    }
  }

  /** Removes the maximal whitespace suffix. */
  function TrimEnd(s: string): (r: string)
    ensures StartsWith(s, r)
    ensures IsBlank(s[|r|..])
    ensures |r| == 0 || !IsWhitespace(r[|r| - 1])
  {
    if |s| > 0 && IsWhitespace(s[|s| - 1]) then
      var r := TrimEnd(s[..|s| - 1]);
      assert s[..|r|] == s[..|s| - 1][..|r|];
      assert forall i :: 0 <= i < |s| - 1 - |r| ==> s[|r|..][i] == s[..|s| - 1][|r|..][i];
      r
    else s
  }

  /** `s.trim()`: the contiguous part of `s` left after removing whitespace at
      both ends. */
  function Trim(s: string): (r: string)
    ensures exists i :: OccursAt(s, r, i) && IsBlank(s[..i]) && IsBlank(s[i + |r|..])
    ensures |r| == 0 || (!IsWhitespace(r[0]) && !IsWhitespace(r[|r| - 1]))
  {
    var t := TrimStart(s);
    var r := TrimEnd(t);
    BlankRunsAround(s, t, r);
    assert OccursAt(s, r, |s| - |t|);
    r
  }

  /** Dropping a blank run from the front of `s` (leaving `t`) and then one
      from the back of `t` (leaving `r`) leaves `r` in place between two
      blank runs of `s`. */
  lemma BlankRunsAround(s: string, t: string, r: string)
    requires EndsWith(s, t) && IsBlank(s[..|s| - |t|])
    requires StartsWith(t, r) && IsBlank(t[|r|..])
    ensures var i := |s| - |t|;
      OccursAt(s, r, i) && IsBlank(s[..i]) && IsBlank(s[i + |r|..])
    ensures |r| > 0 ==> r[0] == t[0]
  {
    var i := |s| - |t|;
    assert s[i..] == t;
    assert s[i..i + |r|] == t[..|r|];
    assert s[i + |r|..] == t[|r|..];
  }

  /** `s.trim().length > 0` holds exactly when `s` has a non-whitespace character. */
  lemma TrimEmptyIffBlank(s: string)
    ensures |Trim(s)| == 0 <==> IsBlank(s)
  {
    var t := TrimStart(s);
    var r := TrimEnd(t);
    assert Trim(s) == r;
    if |t| == 0 {
      assert s[..|s|] == s;
    } else {
      assert s[|s| - |t|] == t[0];
    }
  }

  /** `s.split(sep)` for a one-character separator: the pieces between
      separators, always at least one (`"".split(sep)` is `[""]`). */
  function Split(s: string, sep: char): (r: seq<string>)
    ensures |r| == Count(s, sep) + 1
    ensures forall i :: 0 <= i < |r| ==> sep !in r[i]
  {
    if |s| == 0 then [""]
    else
      var rest := Split(s[1..], sep);
      if s[0] == sep then [""] + rest
      else
        assert forall i :: 1 <= i < |rest| ==> rest[i] == rest[1..][i - 1];
        [[s[0]] + rest[0]] + rest[1..]
  }

  /** `parts.join(sep)`. */
  function Join(parts: seq<string>, sep: char): string {
    if |parts| == 0 then ""
    else if |parts| == 1 then parts[0]
    else parts[0] + [sep] + Join(parts[1..], sep)
  }

  /** Joining the pieces of a split with the same separator restores the string. */
  lemma {:induction false} JoinSplit(s: string, sep: char)
    ensures Join(Split(s, sep), sep) == s
    decreases |s|
  {
    if |s| > 0 {
      var rest := Split(s[1..], sep);
      JoinSplit(s[1..], sep);
      if s[0] == sep {
        assert Join([""] + rest, sep) == "" + [sep] + Join(rest, sep);
      } else {
        JoinConsChar(s[0], rest, sep);
      }
      assert [s[0]] + s[1..] == s;
    }
  }

  /** Prepending a character to the first piece prepends it to the join. */
  lemma JoinConsChar(c: char, parts: seq<string>, sep: char)
    requires |parts| > 0
    ensures Join([[c] + parts[0]] + parts[1..], sep) == [c] + Join(parts, sep)
  {
    var ps := [[c] + parts[0]] + parts[1..];
    assert ps[1..] == parts[1..];
  }

  /** Splitting a join of separator-free pieces gives the pieces back. */
  lemma {:induction false} SplitJoin(parts: seq<string>, sep: char)
    requires |parts| > 0
    requires forall i :: 0 <= i < |parts| ==> sep !in parts[i]
    ensures Split(Join(parts, sep), sep) == parts
    decreases |parts|
  {
    if |parts| == 1 {
      SplitNoSeparator(parts[0], sep);
    } else {
      SplitJoin(parts[1..], sep);
      SplitPiece(parts[0], sep, Join(parts[1..], sep));
      assert [parts[0]] + parts[1..] == parts;
    }
  }

  /** A string without the separator splits into itself. */
  lemma {:induction false} SplitNoSeparator(a: string, sep: char)
    requires sep !in a
    ensures Split(a, sep) == [a]
    decreases |a|
  {
    if |a| > 0 {
      assert a[0] in a;
      assert forall x :: x in a[1..] ==> x in a;
      SplitNoSeparator(a[1..], sep);
      assert [a[0]] + a[1..] == a;
    }
  }

  /** A separator-free piece followed by the separator splits off as one piece. */
  lemma {:induction false} SplitPiece(a: string, sep: char, t: string)
    requires sep !in a
    ensures Split(a + [sep] + t, sep) == [a] + Split(t, sep)
    decreases |a|
  {
    if |a| == 0 {
      assert a + [sep] + t == [sep] + t;
      assert ([sep] + t)[1..] == t;
    } else {
      var s := a + [sep] + t;
      assert s[0] == a[0];
      assert a[0] in a;
      assert forall x :: x in a[1..] ==> x in a;
      assert s[1..] == a[1..] + [sep] + t;
      SplitPiece(a[1..], sep, t);
      assert [a[0]] + a[1..] == a;
    }
  }
}
