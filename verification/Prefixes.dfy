/**
 A line that is still growing: every sentence but the last of a cleaned prefix is a sentence of
 every line that prefix can grow into.

 Cleaning is not monotone: a growing line may turn out to end in `@slow:`, `@end_call` or `THEN:`,
 and what was the last sentence then shrinks or goes. None of those hold a sentence end, which is
 what `Keeps` records.
 */
module Prefixes {
  import opened Text
  import opened Protocol

  /** No sentence end from index `i` on. */
  predicate Quiet(s: string, i: nat) {
    forall k | i <= k < |s| :: !IsStop(s[k])
  }

  /** `y` extends `x`, or is `x` without a tail that holds no sentence end. */
  predicate Keeps(x: string, y: string) {
    x <= y || (y <= x && Quiet(x, |y|))
  }

  /** All sentences but the last, which may still grow. */
  function ButLast(ss: seq<string>): seq<string>
  {
    if ss == [] then [] else ss[..|ss| - 1]
  }

  predicate PlainChar(c: char) {
    'a' <= c <= 'z' || c == '@' || c == '_' || c == ':'
  }

  predicate Plain(p: string) {
    forall k | 0 <= k < |p| :: PlainChar(p[k])
  }

  lemma FoldPlain(c: char, l: char)
    requires Fold(c, l) && PlainChar(l)
    ensures !IsStop(c) && !IsSpace(c) && c != '=' && c != ';'
  {}

  /** Matched letters and symbols are neither sentence ends nor white space. */
  lemma FoldAtPlain(s: string, i: nat, p: string)
    requires FoldAt(s, i, p) && Plain(p)
    ensures forall k | i <= k < i + |p| :: !IsStop(s[k]) && !IsSpace(s[k]) && s[k] != '=' && s[k] != ';'
  {
    hide IsSpace, IsStop, Fold, PlainChar;
    forall k | i <= k < i + |p| ensures !IsStop(s[k]) && !IsSpace(s[k]) && s[k] != '=' && s[k] != ';' {
      assert s[i..i + |p|][k - i] == s[k];
      FoldPlain(s[k], p[k - i]);
    }
  }

  // ---------------------------------------------------------------- sentence splitting

  lemma QuietOneSentence(x: string)
    requires Quiet(x, 0)
    ensures BreakSplit(x) == [x]
  {
    hide IsSpace, IsStop;
  }

  lemma BreakAtIs(x: string, i: nat)
    requires 0 < i < |x| && IsStop(x[i - 1]) && IsSpace(x[i])
    requires forall j | 0 < j < i :: !(IsStop(x[j - 1]) && IsSpace(x[j]))
    ensures BreakAt(x, 1) == i
  {
    hide IsSpace, IsStop;
  }

  lemma BreakStep(x: string, i: nat, j: nat)
    requires i == BreakAt(x, 1) < |x| && j == SkipSpaces(x, i)
    ensures BreakSplit(x) == [x[..i]] + BreakSplit(x[j..])
  {
    hide IsSpace, IsStop;
  }

  /** The first break of a text that agrees with `x` past it. */
  lemma SameBreak(x: string, y: string, i: nat, j: nat)
    requires i == BreakAt(x, 1) < |x| && j == SkipSpaces(x, i) < |x|
    requires j < |y| && forall k | 0 <= k <= j :: x[k] == y[k]
    ensures i == BreakAt(y, 1) && j == SkipSpaces(y, i) && x[..i] == y[..i]
  {
    hide IsSpace, IsStop;
    BreakAtIs(y, i);
  }

  /** The closed sentences of `x` are the first sentences of every text that keeps it. */
  lemma {:induction false} ClosedAgree(x: string, y: string)
    requires Trimmed(x) && Trimmed(y) && Keeps(x, y)
    ensures ButLast(BreakSplit(x)) <= BreakSplit(y)
    decreases |x|
  {
    hide IsSpace, IsStop, BreakSplit, Keeps;
    var i := BreakAt(x, 1);
    if i == |x| {
      BreakWhole(x);
    } else {
      var j := SkipSpaces(x, i);
      BreakStep(x, i, j);
      KeepsAgree(x, y, i, j);
      if j < |y| {
        SameBreak(x, y, i, j);
        BreakStep(y, i, j);
        KeepsSuffix(x, y, j);
        ClosedAgree(x[j..], y[j..]);
      } else {
        QuietOneSentence(x[j..]);
        BreakWhole(y);
      }
    }
  }

  /** Two texts that keep each other agree up to the first break, and past it unless it is the last. */
  lemma KeepsAgree(x: string, y: string, i: nat, j: nat)
    requires Trimmed(x) && Trimmed(y) && Keeps(x, y)
    requires i == BreakAt(x, 1) < |x| && j == SkipSpaces(x, i)
    ensures i < j < |x|
    ensures j < |y| ==> forall k | 0 <= k <= j :: x[k] == y[k]
    ensures j >= |y| ==> y == x[..i] && BreakAt(y, 1) == |y| && Quiet(x[j..], 0)
  {
    hide IsSpace, IsStop;
  }

  lemma KeepsSuffix(x: string, y: string, j: nat)
    requires Keeps(x, y) && j < |x| && j < |y|
    ensures Keeps(x[j..], y[j..])
  {
    hide IsStop;
  }

  lemma BreakWhole(x: string)
    requires BreakAt(x, 1) == |x|
    ensures BreakSplit(x) == [x]
  {}

  // ---------------------------------------------------------------- cleaning

  /** A prefix that ends in no white space is still a prefix after `rstrip`. */
  lemma PrefixRStrip(x: string, y: string)
    requires x <= y && (x != "" ==> !IsSpace(x[|x| - 1]))
    ensures x <= RStrip(y)
  {
    hide IsSpace;
  }

  /** Stripping a prefix of a trimmed text only drops white space at its end. */
  lemma StripPrefix(a: string, k: nat)
    requires Trimmed(a) && k <= |a|
    ensures var r := Strip(a[..k]);
            r == RStrip(a[..k]) && r <= a && |r| <= k
            && forall i | |r| <= i < k :: IsSpace(a[i])
  {
    hide IsSpace;
    assert k > 0 ==> a[..k][0] == a[0];
    assert LStrip(a[..k]) == a[..k];
  }

  lemma SpaceQuiet(c: char)
    requires IsSpace(c)
    ensures !IsStop(c) && c != '@' && c != ':'
  {}

  /** Cutting a quiet tail off a trimmed text and stripping leaves a quiet tail. */
  lemma StrippedTail(a: string, k: nat)
    requires Trimmed(a) && k <= |a| && Quiet(a, k)
    ensures var r := Strip(a[..k]); r <= a && |r| <= k && Quiet(a, |r|)
  {
    hide IsSpace, IsStop, Strip, RStrip, LStrip;
    StripPrefix(a, k);
    var r := Strip(a[..k]);
    forall i | |r| <= i < |a| ensures !IsStop(a[i]) {
      if i < k {
        SpaceQuiet(a[i]);
      }
    }
  }

  lemma EndCallQuiet(a: string)
    requires Trimmed(a)
    ensures Quiet(a, EndCallAt(a))
  {
    hide IsSpace, IsStop, FoldAt;
    StripTrimmed(a);
    var k := EndCallAt(a);
    if k < |a| {
      FoldAtPlain(a, k, "@end_call");
    }
  }

  lemma ScaffoldQuiet(g: Grammar, c: string)
    requires Trimmed(c)
    ensures Quiet(c, ScaffoldAt(g, c))
  {
    hide IsSpace, FoldAt, LStrip, RStrip, Strip;
    StripTrimmed(c);
    var k := ScaffoldAt(g, c);
    if k < |c| {
      var d := c[..|c| - 1];
      var q := RStrip(d);
      if WordEnds(g, q, "first") {
        FoldAtPlain(q, k, "first");
      } else {
        FoldAtPlain(q, k, "then");
      }
      forall i | k <= i < |c| ensures !IsStop(c[i]) {
        if |q| <= i < |c| - 1 {
          assert IsSpace(d[i]);
          SpaceQuiet(d[i]);
        }
      }
    }
  }

  /** The line without its leading scaffold, before anything is cut at its end. */
  function Body(spoken: string): (a: string)
    ensures Trimmed(a)
  {
    hide IsSpace;
    var t := Strip(spoken);
    Strip(t[LeadEnd(t)..])
  }

  function CutEndCall(body: string): string
  {
    Strip(body[..EndCallAt(body)])
  }

  lemma CleanIs(g: Grammar, spoken: string)
    ensures var a := Body(spoken); var cut := CutEndCall(a);
            Clean(g, spoken) == (Strip(cut[..ScaffoldAt(g, cut)]), cut != a)
  {
    hide IsSpace, LeadEnd, EndCallAt, ScaffoldAt, Strip;
  }

  /** Cleaning cuts a tail without a sentence end off the body. */
  lemma CleanCuts(g: Grammar, spoken: string)
    ensures var x, a := Clean(g, spoken).0, Body(spoken);
            Trimmed(x) && x <= a && Quiet(a, |x|)
  {
    hide IsSpace, IsStop, Clean, Strip, Body, EndCallAt, ScaffoldAt;
    CleanIs(g, spoken);
    var a := Body(spoken);
    EndCallQuiet(a);
    StrippedTail(a, EndCallAt(a));
    var cut := CutEndCall(a);
    ScaffoldQuiet(g, cut);
    StrippedTail(cut, ScaffoldAt(g, cut));
    var x := Clean(g, spoken).0;
    forall i | |x| <= i < |a| ensures !IsStop(a[i]) {
      assert i < |cut| ==> a[i] == cut[i];
    }
  }

  // ---------------------------------------------------------------- the leading scaffold

  lemma LeadWord(x: string, s: nat, w: string)
    requires s < |x| && IsStop(x[s]) && Plain(w)
    ensures FoldAt(x, 0, w) ==> |w| <= s
  {
    hide IsStop;
    if FoldAt(x, 0, w) {
      FoldAtPlain(x, 0, w);
    }
  }

  lemma StopIsNoSpace(c: char)
    requires IsStop(c)
    ensures !IsSpace(c) && c != ':'
  {}

  lemma SameSkip(x: string, y: string, s: nat, i: nat)
    requires s < |x| && s < |y| && !IsSpace(x[s]) && i <= s
    requires forall k | 0 <= k <= s :: x[k] == y[k]
    ensures SkipSpaces(x, i) == SkipSpaces(y, i) <= s
  {
    hide IsSpace;
  }

  lemma SameFold(x: string, y: string, s: nat, w: string)
    requires s < |x| && s < |y| && forall k | 0 <= k <= s :: x[k] == y[k]
    requires IsStop(x[s]) && Plain(w)
    ensures FoldAt(x, 0, w) == FoldAt(y, 0, w)
    ensures FoldAt(x, 0, w) ==> |w| <= s
  {
    hide IsStop, Fold;
    LeadWord(x, s, w);
    LeadWord(y, s, w);
    if |w| <= s {
      assert x[0..|w|] == y[0..|w|];
    }
  }

  /** A leading scaffold is decided before the first sentence end. */
  lemma LeadLocal(x: string, y: string, s: nat)
    requires s < |x| && s < |y| && IsStop(x[s])
    requires forall k | 0 <= k <= s :: x[k] == y[k]
    ensures LeadEnd(x) == LeadEnd(y) <= s
  {
    hide IsSpace, IsStop, FoldAt;
    SameFold(x, y, s, "first");
    SameFold(x, y, s, "then");
    StopIsNoSpace(x[s]);
    var w := if FoldAt(x, 0, "first") then 5 else if FoldAt(x, 0, "then") then 4 else 0;
    if w > 0 {
      SameSkip(x, y, s, w);
      var c := SkipSpaces(x, w);
      if x[c] == ':' {
        SameSkip(x, y, s, c + 1);
      }
    }
  }

  /** A text after its leading scaffold starts with no white space. */
  lemma LeadEndTrimmed(t: string)
    requires Trimmed(t)
    ensures Strip(t) == t && Body(t) == t[LeadEnd(t)..]
  {
    hide IsSpace, FoldAt;
    StripTrimmed(t);
    assert Trimmed(t[LeadEnd(t)..]);
    StripTrimmed(t[LeadEnd(t)..]);
  }

  lemma BodyKeeps(p: string, q: string)
    requires Trimmed(p) && Trimmed(q) && Keeps(p, q) && !Quiet(p, 0)
    ensures Keeps(Body(p), Body(q))
  {
    hide IsSpace, LeadEnd, Body, IsStop, Keeps, Quiet, Strip, LStrip, RStrip, Trimmed;
    LeadEndTrimmed(p);
    LeadEndTrimmed(q);
    var s := SharedStop(p, q);
    LeadLocal(p, q, s);
    KeepsSuffix(p, q, LeadEnd(p));
  }

  lemma SharedStop(p: string, q: string) returns (s: nat)
    requires Keeps(p, q) && !Quiet(p, 0)
    ensures s < |p| && s < |q| && IsStop(p[s])
    ensures forall k | 0 <= k <= s :: p[k] == q[k]
  {
    hide IsStop;
    s :| s < |p| && IsStop(p[s]);
  }

  // ---------------------------------------------------------------- the part before the first @slow:

  /** What stands before the first `@slow:` of a line. */
  function Head(text: string): string
  {
    text[..FindSlow(text, 0)]
  }

  lemma HeadIsFirst(text: string)
    ensures SlowSplit(text)[0] == Head(text)
  {
    hide IsSpace, SlowAt;
  }

  lemma SlowAtPrefix(a: string, b: string, j: nat)
    requires a <= b && j + 6 <= |a|
    ensures SlowAt(a, j) == SlowAt(b, j)
  {
    hide Folds;
    assert a[j..j + 6] == b[j..j + 6];
  }

  /** A line and a longer one, stripped, keep each other's first part. */
  lemma HeadKeeps(a: string, b: string)
    requires Trimmed(a) && Trimmed(b) && a <= b
    ensures Keeps(Strip(Head(a)), Strip(Head(b)))
  {
    hide IsSpace, IsStop, Strip, LStrip, RStrip, SlowAt;
    var i, k := FindSlow(a, 0), FindSlow(b, 0);
    SlowLength(a, i);
    SlowLength(b, k);
    if i < |a| {
      forall j | 0 <= j <= i ensures SlowAt(a, j) == SlowAt(b, j) {
        SlowAtPrefix(a, b, j);
      }
      assert i == k && a[..i] == b[..i];
    } else {
      assert Head(a) == a;
      StripTrimmed(a);
      if |a| <= k {
        StripPrefix(b, k);
        PrefixRStrip(a, b[..k]);
      } else {
        if k + 6 <= |a| {
          SlowAtPrefix(a, b, k);
        }
        FoldAtPlain(b, k, "@slow:") by {
          assert SlowAt(b, k);
          SlowIsFold(b, k);
        }
        assert Quiet(a, k);
        assert b[..k] == a[..k];
        StrippedTail(a, k);
      }
    }
  }

  lemma SlowIsFold(s: string, i: nat)
    ensures SlowAt(s, i) == FoldAt(s, i, "@slow:")
    ensures Plain("@slow:")
  {}

  lemma SlowLength(s: string, i: nat)
    ensures SlowAt(s, i) ==> i + 6 <= |s|
  {
    hide Folds;
  }

  lemma KeepsPrefixes(x: string, a: string, y: string, b: string)
    requires x <= a && y <= b && Quiet(b, |y|) && Keeps(a, b)
    ensures Keeps(x, y)
  {
    hide IsStop;
    if !(x <= y) {
      assert y <= x;
      forall i | |y| <= i < |x| ensures !IsStop(x[i]) {
        assert x[i] == a[i];
        assert i < |b| ==> a[i] == b[i];
      }
    }
  }

  lemma StripGrows(u: string, w: string)
    requires u <= w
    ensures Strip(u) <= Strip(w)
  {
    hide IsSpace, LStrip, RStrip;
    LStripPrefix(u, w);
    PrefixRStrip(RStrip(LStrip(u)), LStrip(w));
  }

  lemma BodyStrip(s: string)
    ensures Trimmed(Strip(s)) && Body(Strip(s)) == Body(s)
  {
    hide IsSpace, LeadEnd;
    StripTrimmed(Strip(s));
  }

  lemma BodyQuiet(p: string)
    requires Trimmed(p) && Quiet(p, 0)
    ensures Quiet(Body(p), 0)
  {
    hide IsSpace, IsStop, LeadEnd, Body;
    LeadEndTrimmed(p);
  }

  /** Cleaned first parts keep each other, once there is a sentence end. */
  lemma CleanKeeps(g: Grammar, a: string, b: string)
    requires Trimmed(a) && Trimmed(b) && a <= b
    requires !Quiet(Clean(g, Head(a)).0, 0)
    ensures Keeps(Clean(g, Head(a)).0, Clean(g, Head(b)).0)
  {
    hide IsSpace, Clean, Head, Body, Strip, Keeps, IsStop;
    CleanCuts(g, Head(a));
    CleanCuts(g, Head(b));
    HeadKeeps(a, b);
    BodyStrip(Head(a));
    BodyStrip(Head(b));
    var p, q := Strip(Head(a)), Strip(Head(b));
    if Quiet(p, 0) {
      BodyQuiet(p);
    }
    BodyKeeps(p, q);
    KeepsPrefixes(Clean(g, Head(a)).0, Body(p), Clean(g, Head(b)).0, Body(q));
  }

  // ---------------------------------------------------------------- the growing line

  /** The sentences a line speaks in this turn, none for a directive or after a pause. */
  function Heard(g: Grammar, t: Turn, raw: string): seq<string>
  {
    var text := Strip(raw);
    if IsDirective(text) || Late(g, t, text) then [] else Spoken(g, text)
  }

  /** The sentences a line that may still grow can already return. */
  function Ready(g: Grammar, t: Turn, raw: string): seq<string>
  {
    ButLast(Heard(g, t, raw))
  }

  lemma SentencesWithStops(x: string)
    requires ButLast(Sentences(x)) != []
    ensures !Quiet(x, 0) && x != "" && x[0] != '@' && Sentences(x) == BreakSplit(x)
  {
    hide IsSpace, BreakSplit, IsStop;
    if Quiet(x, 0) {
      QuietOneSentence(x);
    }
  }

  /** A line that starts with `@` and is a relay has nothing before it. */
  lemma RelayLine(g: Grammar, text: string)
    requires text == "" || SlowAt(text, 0)
    ensures Clean(g, Head(text)) == ("", false)
  {
    hide IsSpace, SlowAt, LeadEnd, EndCallAt, ScaffoldAt, Strip;
    assert Head(text) == "";
    StripTrimmed("");
    CleanIs(g, "");
    assert ""[LeadEnd("")..] == "" && ""[..EndCallAt("")] == "" && ""[..ScaffoldAt(g, "")] == "";
  }

  lemma SpokenIs(g: Grammar, text: string)
    ensures Spoken(g, text) == Sentences(Clean(g, Head(text)).0)
  {
    hide IsSpace, Clean, Head, Sentences, SlowSplit;
    HeadIsFirst(text);
  }

  /** What a growing line has returned is never retracted. */
  lemma ReadyStable(g: Grammar, t: Turn, u: string, w: string)
    requires u <= w
    ensures Ready(g, t, u) <= Heard(g, t, w)
  {
    hide IsSpace, IsStop, Clean, Head, Spoken, Sentences, Strip, BreakSplit, SlowAt, Keeps;
    if Ready(g, t, u) != [] {
      var a, b := Strip(u), Strip(w);
      StripGrows(u, w);
      SpokenIs(g, a);
      SpokenIs(g, b);
      var x, y := Clean(g, Head(a)).0, Clean(g, Head(b)).0;
      SentencesWithStops(x);
      CleanCuts(g, Head(a));
      CleanCuts(g, Head(b));
      assert a != "" && a[0] != '@' by {
        if a == "" || a[0] == '@' {
          RelayLine(g, a);
        }
      }
      CleanKeeps(g, a, b);
      KeepsFirst(x, y);
      ClosedAgree(x, y);
    }
  }

  lemma KeepsFirst(x: string, y: string)
    requires Keeps(x, y) && !Quiet(x, 0) && x[0] != '@'
    ensures Sentences(y) == BreakSplit(y)
  {
    hide IsStop, BreakSplit;
  }

  lemma {:induction false} BreakSplitNonEmpty(x: string)
    requires Trimmed(x) && x != ""
    ensures forall s | s in BreakSplit(x) :: s != ""
    decreases |x|
  {
    hide IsSpace, IsStop, BreakSplit;
    var i := BreakAt(x, 1);
    if i < |x| {
      var j := SkipSpaces(x, i);
      BreakStep(x, i, j);
      BreakSplitNonEmpty(x[j..]);
    } else {
      BreakWhole(x);
    }
  }

  /** A line returns no empty sentence before its last one. */
  lemma ReadyNonEmpty(g: Grammar, t: Turn, raw: string)
    ensures forall s | s in Ready(g, t, raw) :: s != ""
  {
    hide IsSpace, IsStop, Clean, Head, Spoken, Sentences, Strip, BreakSplit;
    if Ready(g, t, raw) != [] {
      SpokenIs(g, Strip(raw));
      var x := Clean(g, Head(Strip(raw))).0;
      CleanCuts(g, Head(Strip(raw)));
      SentencesWithStops(x);
      BreakSplitNonEmpty(x);
      forall s | s in Ready(g, t, raw) ensures s != "" {
        assert s in BreakSplit(x);
      }
    }
  }
}
