/** Python's text operations that the Fast grammar uses: `strip`, `split`, `partition`, `join`. */
module Text {

  /** What `str.strip`, `str.split()` and the regex class `\s` treat as white space. */
  predicate IsSpace(c: char) {
    || '\U{0009}' <= c <= '\U{000D}'
    || '\U{001C}' <= c <= '\U{0020}'
    || c == '\U{0085}' || c == '\U{00A0}' || c == '\U{1680}'
    || '\U{2000}' <= c <= '\U{200A}'
    || c == '\U{2028}' || c == '\U{2029}' || c == '\U{202F}' || c == '\U{205F}' || c == '\U{3000}'
  }

  predicate AllSpace(s: string) {
    forall i | 0 <= i < |s| :: IsSpace(s[i])
  }

  predicate NoSpace(s: string) {
    forall i | 0 <= i < |s| :: !IsSpace(s[i])
  }

  predicate StartsWith(s: string, c: char) {
    s != "" && s[0] == c
  }

  /** No white space at either end. */
  predicate Trimmed(s: string) {
    s != "" ==> !IsSpace(s[0]) && !IsSpace(s[|s| - 1])
  }

  // ---------------------------------------------------------------- strip

  function LStrip(s: string): (r: string)
    ensures |r| <= |s| && r == s[|s| - |r|..]
    ensures forall i | 0 <= i < |s| - |r| :: IsSpace(s[i])
    ensures r != "" ==> !IsSpace(r[0])
  {
    hide IsSpace;
    if s != "" && IsSpace(s[0]) then LStrip(s[1..]) else s
  }

  function RStrip(s: string): (r: string)
    ensures |r| <= |s| && r == s[..|r|]
    ensures forall i | |r| <= i < |s| :: IsSpace(s[i])
    ensures r != "" ==> !IsSpace(r[|r| - 1])
  {
    hide IsSpace;
    if s != "" && IsSpace(s[|s| - 1]) then RStrip(s[..|s| - 1]) else s
  }

  function Strip(s: string): (r: string)
    ensures Trimmed(r)
  {
    RStrip(LStrip(s))
  }

  lemma StripTrimmed(s: string)
    requires Trimmed(s)
    ensures LStrip(s) == s && RStrip(s) == s && Strip(s) == s
  {}

  /** Stripping on the left commutes with reading more text. */
  lemma {:induction false} LStripPrefix(u: string, w: string)
    requires u <= w
    ensures LStrip(u) <= LStrip(w)
  {
    hide IsSpace;
    if u != "" && IsSpace(u[0]) {
      LStripPrefix(u[1..], w[1..]);
    }
  }

  /** White space in front of a text is invisible to `lstrip`. */
  lemma {:induction false} LStripSpaces(a: string, s: string)
    requires AllSpace(a)
    ensures LStrip(a + s) == LStrip(s)
  {
    hide IsSpace;
    if a == "" {
      assert a + s == s;
    } else {
      assert (a + s)[1..] == a[1..] + s;
      LStripSpaces(a[1..], s);
    }
  }

  /** `rstrip` of a prefix that is followed only by white space. */
  lemma {:induction false} RStripSpaces(s: string, a: string)
    requires AllSpace(a)
    ensures RStrip(s + a) == RStrip(s)
  {
    hide IsSpace;
    if a == "" {
      assert s + a == s;
    } else {
      assert (s + a)[..|s + a| - 1] == s + a[..|a| - 1];
      RStripSpaces(s, a[..|a| - 1]);
    }
  }

  // ---------------------------------------------------------------- split()

  /** The first white space at or after `i`, else the length. */
  function WordEnd(s: string, i: nat): (e: nat)
    requires i <= |s|
    ensures i <= e <= |s| && (e < |s| ==> IsSpace(s[e]))
    ensures forall j | i <= j < e :: !IsSpace(s[j])
    decreases |s| - i
  {
    if i < |s| && !IsSpace(s[i]) then WordEnd(s, i + 1) else i
  }

  /** `str.split()`: the maximal runs of non-space characters. */
  function Words(s: string): (ws: seq<string>)
    ensures LStrip(s) != "" ==> ws != []
    decreases |s|
  {
    hide IsSpace;
    var t := LStrip(s);
    if t == "" then []
    else
      var e := WordEnd(t, 0);
      assert e > 0;
      [t[..e]] + Words(t[e..])
  }

  /** The first word is peeled off; what follows it starts with white space. */
  lemma FirstWord(a: string, rest: string)
    requires a != "" && NoSpace(a) && (rest != "" ==> IsSpace(rest[0]))
    ensures Words(a + rest) == [a] + Words(rest)
  {
    hide IsSpace;
    var s := a + rest;
    assert s[0] == a[0];
    assert LStrip(s) == s;
    var e := WordEnd(s, 0);
    assert e == |a| by {
      assert forall j | 0 <= j < |a| :: s[j] == a[j];
      assert rest != "" ==> s[|a|] == rest[0];
    }
    assert s[..e] == a && s[e..] == rest;
  }

  lemma WordsSkipSpaces(a: string, s: string)
    requires AllSpace(a)
    ensures Words(a + s) == Words(s)
  {
    hide IsSpace;
    LStripSpaces(a, s);
  }

  lemma OneWord(a: string)
    requires a != "" && NoSpace(a)
    ensures Words(a) == [a]
  {
    hide IsSpace;
    FirstWord(a, "");
    assert a + "" == a;
  }

  lemma SpaceWord(b: string)
    requires b != "" && NoSpace(b)
    ensures Words([' '] + b) == [b]
  {
    assert AllSpace([' ']);
    hide IsSpace;
    WordsSkipSpaces([' '], b);
    OneWord(b);
  }

  lemma TwoWords(a: string, b: string)
    requires a != "" && NoSpace(a) && b != "" && NoSpace(b)
    ensures Words(a + ([' '] + b)) == [a, b]
  {
    assert IsSpace(' ');
    hide IsSpace;
    FirstWord(a, [' '] + b);
    SpaceWord(b);
  }

  // ---------------------------------------------------------------- partition and split(sep)

  /** The first `c` at or after `i`, else the length. */
  function Find(s: string, c: char, i: nat): (e: nat)
    requires i <= |s|
    ensures i <= e <= |s| && (e < |s| ==> s[e] == c)
    ensures forall j | i <= j < e :: s[j] != c
    decreases |s| - i
  {
    if i < |s| && s[i] != c then Find(s, c, i + 1) else i
  }

  /** `str.split(c)`: always at least one piece. */
  function SplitOn(s: string, c: char): (r: seq<string>)
    ensures r != []
    ensures forall k | 0 <= k < |r| :: c !in r[k]
    decreases |s|
  {
    var e := Find(s, c, 0);
    if e == |s| then [s] else [s[..e]] + SplitOn(s[e + 1..], c)
  }

  function Join(parts: seq<string>, sep: string): string
  {
    if |parts| == 0 then ""
    else if |parts| == 1 then parts[0]
    else parts[0] + sep + Join(parts[1..], sep)
  }

  /** A text is the join of its pieces. */
  lemma {:induction false} JoinSplit(s: string, c: char)
    ensures Join(SplitOn(s, c), [c]) == s
    decreases |s|
  {
    hide IsSpace;
    var e := Find(s, c, 0);
    if e < |s| {
      JoinSplit(s[e + 1..], c);
      var r := SplitOn(s[e + 1..], c);
      assert ([s[..e]] + r)[1..] == r;
      assert s == s[..e] + [c] + s[e + 1..];
    }
  }

  /** Splitting after a first piece without the separator. */
  lemma SplitFirst(a: string, c: char, rest: string)
    requires c !in a
    ensures SplitOn(a + [c] + rest, c) == [a] + SplitOn(rest, c)
  {
    hide IsSpace;
    var s := a + [c] + rest;
    assert Find(s, c, 0) == |a| by {
      assert s[|a|] == c;
      assert forall j | 0 <= j < |a| :: s[j] == a[j];
    }
    assert s[..|a|] == a && s[|a| + 1..] == rest;
  }

  lemma SplitNone(a: string, c: char)
    requires c !in a
    ensures SplitOn(a, c) == [a]
  {
    hide IsSpace;
    assert Find(a, c, 0) == |a|;
  }

  /** Pieces without the separator survive a join and a split. */
  lemma {:induction false} SplitJoin(parts: seq<string>, c: char)
    requires parts != [] && forall k | 0 <= k < |parts| :: c !in parts[k]
    ensures SplitOn(Join(parts, [c]), c) == parts
  {
    hide IsSpace;
    if |parts| == 1 {
      SplitNone(parts[0], c);
    } else {
      SplitJoin(parts[1..], c);
      SplitFirst(parts[0], c, Join(parts[1..], [c]));
    }
  }

  /** What holds no separator stays in the first piece. */
  lemma FirstPieceGrows(a: string, t: string, c: char)
    requires c !in a
    ensures a <= SplitOn(a + t, c)[0]
  {
    hide IsSpace;
    var e := Find(a + t, c, 0);
    assert forall j | 0 <= j < |a| :: (a + t)[j] == a[j];
    assert e >= |a|;
  }

  /** The first piece of a text that holds the separator. */
  lemma SplitPeel(s: string, c: char) returns (head: string, rest: string)
    requires |SplitOn(s, c)| > 1
    ensures s == head + [c] + rest && c !in head
    ensures SplitOn(s, c) == [head] + SplitOn(rest, c)
  {
    hide IsSpace;
    var e := Find(s, c, 0);
    head, rest := s[..e], s[e + 1..];
  }

  lemma SplitWhole(s: string, c: char)
    requires |SplitOn(s, c)| == 1
    ensures SplitOn(s, c) == [s]
  {
    hide IsSpace;
  }

  /** Text appended to a split text grows its last piece and may open new ones. */
  lemma {:induction false} SplitAppend(s: string, t: string, c: char, a: seq<string>, last: string)
    requires SplitOn(s, c) == a + [last]
    ensures SplitOn(s + t, c) == a + SplitOn(last + t, c)
    decreases |a|
  {
    hide IsSpace, SplitOn, Find;
    if a == [] {
      SplitWhole(s, c);
      assert SplitOn(s, c)[0] == last;
    } else {
      var head, rest := SplitPeel(s, c);
      assert SplitOn(s, c)[1..] == a[1..] + [last];
      SplitAppend(rest, t, c, a[1..], last);
      assert s + t == head + [c] + (rest + t);
      SplitFirst(head, c, rest + t);
      assert a[0] == head by {
        assert a[0] == SplitOn(s, c)[0];
      }
      assert a == [head] + a[1..];
    }
  }
}
