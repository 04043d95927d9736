/**
 What the sentences of a line are, and what cleaning cuts off it, said by how the text is put together
 and not by how it is scanned.
 */
module Speaking {
  import opened Text
  import opened Protocol
  import opened Prefixes
  import opened RoundTrip
  import opened Printing

  // ---------------------------------------------------------------- characters

  /** The code points that Python counts as white space. */
  lemma SpacesAre(c: char)
    ensures IsSpace(c) <==>
      c as int in {0x9, 0xA, 0xB, 0xC, 0xD, 0x1C, 0x1D, 0x1E, 0x1F, 0x20, 0x85, 0xA0, 0x1680,
        0x2000, 0x2001, 0x2002, 0x2003, 0x2004, 0x2005, 0x2006, 0x2007, 0x2008, 0x2009, 0x200A,
        0x2028, 0x2029, 0x202F, 0x205F, 0x3000}
  {}

  /** A letter matches itself and its capital; `i` and `s` match three more letters, symbols only themselves. */
  lemma MatchesAre(c: char, k: nat)
    requires k < 26
    ensures var l := "abcdefghijklmnopqrstuvwxyz"[k];
      Fold(c, l) <==>
        || c == l || c == "ABCDEFGHIJKLMNOPQRSTUVWXYZ"[k]
        || (l == 'i' && c as int in {0x130, 0x131}) || (l == 's' && c as int == 0x17F)
    ensures forall l | l in "@:_" :: Fold(c, l) <==> c == l
  {
    assert "abcdefghijklmnopqrstuvwxyz"[k] as int == 'a' as int + k;
    assert "ABCDEFGHIJKLMNOPQRSTUVWXYZ"[k] as int == 'A' as int + k;
  }

  // ---------------------------------------------------------------- sentences

  /** At `i` white space follows one of the three characters that end a sentence. */
  predicate BreaksAt(x: string, i: int) {
    0 < i < |x| && x[i - 1] in ['.', '!', '?'] && IsSpace(x[i])
  }

  predicate Whole(x: string) {
    forall i | 0 < i < |x| :: !BreaksAt(x, i)
  }

  predicate Closed(s: string) {
    s != "" && s[|s| - 1] in ['.', '!', '?']
  }

  /** Sentences with the white space between them put back. */
  function Woven(ss: seq<string>, gaps: seq<string>): string
    requires |ss| == |gaps| + 1
  {
    if gaps == [] then ss[0] else ss[0] + gaps[0] + Woven(ss[1..], gaps[1..])
  }

  /**
   A text cut into sentences: each one but the last is closed, the white space that follows it is all
   there is, and none goes on after it could have ended.
   */
  ghost predicate Cut(x: string, ss: seq<string>, gaps: seq<string>) {
    && |ss| == |gaps| + 1 && x == Woven(ss, gaps)
    && (forall k | 0 <= k < |ss| :: Whole(ss[k]))
    && (forall k | 0 <= k < |gaps| :: Closed(ss[k]) && gaps[k] != "" && AllSpace(gaps[k]))
    && (forall k | 0 < k < |ss| :: ss[k] != "" ==> !IsSpace(ss[k][0]))
  }

  lemma {:induction false} CutStarts(x: string, ss: seq<string>, gaps: seq<string>)
    requires Cut(x, ss, gaps)
    ensures ss[0] <= x
  {
    if gaps != [] {
      assert x == ss[0] + (gaps[0] + Woven(ss[1..], gaps[1..]));
    }
  }

  lemma StopsAre(c: char)
    ensures IsStop(c) <==> c in ['.', '!', '?']
  {}

  /** A text cut at its first break. */
  lemma FirstCut(x: string, s: string, gap: string, rest: string)
    requires x == s + gap + rest && Whole(s) && Closed(s) && gap != "" && AllSpace(gap)
    requires rest != "" ==> !IsSpace(rest[0])
    ensures BreakSplit(x) == [s] + BreakSplit(rest)
  {
    hide IsSpace, IsStop, BreakSplit;
    var i := |s|;
    assert x[i - 1] == s[i - 1] && x[i] == gap[0];
    StopsAre(x[i - 1]);
    forall j | 0 < j < i ensures !(IsStop(x[j - 1]) && IsSpace(x[j])) {
      assert x[j] == s[j] && x[j - 1] == s[j - 1];
      assert !BreaksAt(s, j);
      StopsAre(x[j - 1]);
    }
    BreakAtIs(x, i);
    var j := SkipSpaces(x, i);
    assert forall k | i <= k < i + |gap| :: x[k] == gap[k - i];
    assert rest != "" ==> x[i + |gap|] == rest[0];
    assert j == i + |gap|;
    BreakStep(x, i, j);
    assert x[..i] == s && x[j..] == rest;
  }

  lemma WholeSplit(x: string)
    requires Whole(x)
    ensures BreakSplit(x) == [x]
  {
    hide IsSpace, IsStop, BreakSplit;
    var i := BreakAt(x, 1);
    if i < |x| {
      BreakFound(x, i);
    }
    BreakWhole(x);
  }

  lemma BreakFound(x: string, i: nat)
    requires i == BreakAt(x, 1) < |x|
    ensures !Whole(x)
  {
    hide IsSpace, IsStop;
    StopsAre(x[i - 1]);
    assert BreaksAt(x, i);
  }

  /** However a text is cut like that, its sentences are those of the splitter. */
  lemma {:induction false} CutUnique(x: string, ss: seq<string>, gaps: seq<string>)
    requires Cut(x, ss, gaps)
    ensures BreakSplit(x) == ss
    decreases |ss|
  {
    hide IsSpace, IsStop, BreakSplit, Whole, Closed, AllSpace;
    if gaps == [] {
      WholeSplit(x);
    } else {
      var rest := Woven(ss[1..], gaps[1..]);
      assert Cut(rest, ss[1..], gaps[1..]) by {
        assert forall k | 0 <= k < |ss[1..]| :: ss[1..][k] == ss[k + 1];
        assert forall k | 0 <= k < |gaps[1..]| :: gaps[1..][k] == gaps[k + 1];
      }
      CutUnique(rest, ss[1..], gaps[1..]);
      CutNext(ss[1..], gaps[1..]);
      FirstCut(x, ss[0], gaps[0], rest);
      assert ss == [ss[0]] + ss[1..];
    }
  }

  /** What follows a gap starts with no white space. */
  lemma CutNext(ss: seq<string>, gaps: seq<string>)
    requires |ss| == |gaps| + 1 && (ss[0] != "" ==> !IsSpace(ss[0][0]))
    requires forall k | 0 <= k < |gaps| :: Closed(ss[k])
    ensures var rest := Woven(ss, gaps); rest != "" ==> !IsSpace(rest[0])
  {
    hide IsSpace;
  }

  /** And every text is cut like that. */
  lemma {:induction false} SentencesAre(x: string) returns (gaps: seq<string>)
    ensures Cut(x, BreakSplit(x), gaps)
    decreases |x|
  {
    hide IsSpace, IsStop, BreakSplit;
    var i := BreakAt(x, 1);
    if i == |x| {
      BreakWhole(x);
      forall j | 0 < j < |x| ensures !BreaksAt(x, j) {
        StopsAre(x[j - 1]);
      }
      gaps := [];
    } else {
      var j := SkipSpaces(x, i);
      BreakStep(x, i, j);
      var more := SentencesAre(x[j..]);
      gaps := [x[i..j]] + more;
      var ss := BreakSplit(x);
      var tail := BreakSplit(x[j..]);
      CutMore(x, i, j, tail, more);
    }
  }

  lemma CutMore(x: string, i: nat, j: nat, tail: seq<string>, more: seq<string>)
    requires 0 < i == BreakAt(x, 1) < |x| && j == SkipSpaces(x, i) && Cut(x[j..], tail, more)
    ensures Cut(x, [x[..i]] + tail, [x[i..j]] + more)
  {
    hide IsSpace, IsStop, Whole, Closed, AllSpace, BreaksAt, Cut;
    var ss, gaps := [x[..i]] + tail, [x[i..j]] + more;
    HeadCut(x, i, j);
    assert ss[1..] == tail && gaps[1..] == more;
    assert x == x[..i] + x[i..j] + x[j..];
    CutParts(x[j..], tail, more);
    CutStarts(x[j..], tail, more);
    assert tail[0] != "" ==> tail[0][0] == x[j];
    assert Cut(x, ss, gaps) by { CutJoins(x, x[..i], x[i..j], tail, more); }
  }

  lemma HeadCut(x: string, i: nat, j: nat)
    requires 0 < i == BreakAt(x, 1) < |x| && j == SkipSpaces(x, i)
    ensures Whole(x[..i]) && Closed(x[..i]) && i < j && AllSpace(x[i..j])
  {
    hide IsSpace, IsStop;
    var s := x[..i];
    StopsAre(x[i - 1]);
    assert s[i - 1] == x[i - 1];
    forall k | 0 < k < |s| ensures !BreaksAt(s, k) {
      assert s[k] == x[k] && s[k - 1] == x[k - 1];
      StopsAre(x[k - 1]);
    }
    forall k | 0 <= k < |x[i..j]| ensures IsSpace(x[i..j][k]) {
      assert x[i..j][k] == x[i + k];
    }
  }

  lemma CutParts(x: string, ss: seq<string>, gaps: seq<string>)
    requires Cut(x, ss, gaps)
    ensures |ss| == |gaps| + 1 && x == Woven(ss, gaps)
  {
    hide Whole, Closed, AllSpace, IsSpace;
  }

  lemma CutJoins(x: string, s: string, gap: string, tail: seq<string>, more: seq<string>)
    requires |tail| == |more| + 1 && Cut(Woven(tail, more), tail, more) && x == s + gap + Woven(tail, more)
    requires Whole(s) && Closed(s) && gap != "" && AllSpace(gap) && (tail[0] != "" ==> !IsSpace(tail[0][0]))
    ensures Cut(x, [s] + tail, [gap] + more)
  {
    hide Whole, Closed, AllSpace, IsSpace;
    var ss, gaps := [s] + tail, [gap] + more;
    assert ss[1..] == tail && gaps[1..] == more;
    forall k | 0 < k < |ss| ensures ss[k] == tail[k - 1] {}
    forall k | 0 < k < |gaps| ensures gaps[k] == more[k - 1] {}
  }

  // ---------------------------------------------------------------- lines of speech

  /** Two sentences on a line: the first must have ended. */
  lemma TwoSentences(g: Grammar, t: Turn, a: string, b: string)
    requires Speakable(g, a) && Whole(a) && Closed(a) && Speakable(g, b) && Whole(b)
    requires !(t.paused && g.pauseEndsSpeech)
    ensures LineItems(g, t, a + " " + b, 0) == (SentenceItems(g, a) + SentenceItems(g, b), t)
    ensures Said(LineItems(g, t, a + " " + b, 0).0) == [Speech(a), Speech(b)]
  {
    hide Speakable, BreakSplit, LineItems, SpeechItems, SentenceItems, Whole, Trimmed;
    StopsAre(a[|a| - 1]);
    SpeakableParts(g, a);
    SpeakableParts(g, b);
    WholeSplit(a);
    WholeSplit(b);
    SpeechJoinsLine(g, t, a, b);
    SpeechOnLine(g, t, a);
    SpeechItemsOne(g, a);
    assert a + ([' '] + b) == a + " " + b;
    SaidAppend(SentenceItems(g, a), SentenceItems(g, b));
    SentenceSays(g, a);
    SentenceSays(g, b);
  }

  /** A line in which no sentence ends early is one sentence. */
  lemma SingleSentence(g: Grammar, t: Turn, a: string)
    requires Speakable(g, a) && Whole(a) && !(t.paused && g.pauseEndsSpeech)
    ensures LineItems(g, t, a, 0) == (SentenceItems(g, a), t)
    ensures Said(LineItems(g, t, a, 0).0) == [Speech(a)]
  {
    hide Speakable, BreakSplit, LineItems, SpeechItems, SentenceItems, Whole, Trimmed;
    SpeakableParts(g, a);
    WholeSplit(a);
    SpeechOnLine(g, t, a);
    SpeechItemsOne(g, a);
    SentenceSays(g, a);
  }

  lemma SentenceSays(g: Grammar, s: string)
    requires Speakable(g, s)
    ensures Said(SentenceItems(g, s)) == [Speech(s)]
  {
    hide Speakable, Inline;
    SaidTwo(Speech(s), Issue(InlineDirective, s));
  }

  // ---------------------------------------------------------------- what cleaning cuts off

  /** `FIRST` or `THEN`, in any case. */
  predicate Label(w: string) {
    Folds(w, "first") || Folds(w, "then")
  }

  /** The text opens with a label and a colon. */
  ghost predicate Opens(s: string, w: string, a: string, rest: string) {
    s == w + a + ":" + rest && Label(w) && AllSpace(a)
  }

  /** It ends in `@end_call`. */
  ghost predicate EndsCall(s: string, p: string, w: string, a: string) {
    s == p + w + a && Folds(w, "@end_call") && AllSpace(a)
  }

  /** It ends in a label and a colon, where a word begins. */
  ghost predicate Trails(g: Grammar, s: string, p: string, w: string, a: string, b: string) {
    && s == p + w + a + ":" + b && Label(w) && AllSpace(a) && AllSpace(b)
    && (p != "" ==> !g.word(p[|p| - 1]))
  }

  lemma LabelPlain(w: string)
    requires Label(w)
    ensures |w| == (if Folds(w, "first") then 5 else 4) && !(Folds(w, "first") && Folds(w, "then"))
    ensures !IsSpace(w[0]) && !IsSpace(w[|w| - 1]) && w[|w| - 1] != ':'
    ensures Folds(w, "then") ==> !Fold(w[0], 'f') && !Fold(w[|w| - 1], 't')
  {}

  lemma LeadIs(s: string, w: string, a: string, rest: string)
    requires Opens(s, w, a, rest)
    ensures LeadEnd(s) > 0 && s[LeadEnd(s)..] == LStrip(rest)
  {
    hide IsSpace, Folds, LStrip, LeadEnd;
    LabelPlain(w);
    assert s[..|w|] == w;
    FoldsFirst(s, w);
    var c := |w| + |a|;
    assert forall k | |w| <= k < c :: s[k] == a[k - |w|];
    assert s[c] == ':' && s[c + 1..] == rest;
    LeadColon(s, |w|, c);
    SkipLStrip(s, c + 1);
  }

  lemma LeadColon(s: string, n: nat, c: nat)
    requires n > 0 && n == if FoldAt(s, 0, "first") then 5 else if FoldAt(s, 0, "then") then 4 else 0
    requires n <= c < |s| && (forall k | n <= k < c :: IsSpace(s[k])) && s[c] == ':'
    ensures LeadEnd(s) == SkipSpaces(s, c + 1) > 0
  {
    hide IsSpace, FoldAt;
    ColonIs();
    assert SkipSpaces(s, n) == c;
  }

  lemma ColonIs()
    ensures !IsSpace(':')
  {}

  lemma SkipLStrip(s: string, i: nat)
    requires i <= |s|
    ensures s[SkipSpaces(s, i)..] == LStrip(s[i..])
  {
    hide IsSpace;
    var e := SkipSpaces(s, i);
    assert s[i..] == s[i..e] + s[e..];
    LStripSpaces(s[i..e], s[e..]);
  }

  lemma FoldsFirst(s: string, w: string)
    requires Label(w) && w <= s
    ensures if Folds(w, "first") then FoldAt(s, 0, "first") else FoldAt(s, 0, "then") && !FoldAt(s, 0, "first")
  {
    hide Fold;
    LabelPlain(w);
    assert s[0..0 + |w|] == w;
    if !Folds(w, "first") && |s| >= 5 {
      assert s[0..0 + 5][0] == w[0];
    }
  }

  lemma LeadFound(s: string) returns (w: string, a: string, rest: string)
    requires LeadEnd(s) > 0
    ensures Opens(s, w, a, rest)
  {
    hide IsSpace, Fold;
    var n := if FoldAt(s, 0, "first") then 5 else 4;
    var c := SkipSpaces(s, n);
    w, a, rest := s[..n], s[n..c], s[c + 1..];
    assert s[0..0 + n] == w;
    assert s == w + a + ":" + rest;
  }

  lemma EndCallIs(s: string, p: string, w: string, a: string)
    requires EndsCall(s, p, w, a)
    ensures EndCallAt(s) == |p|
  {
    hide IsSpace, Fold, RStrip;
    assert (p + w)[|p|..] == w && (p + w)[|p|..|p| + 9] == w;
    EndCallPlain(p + w, |p|);
    RStripSpaces(p + w, a);
    RStripEnd(p + w);
  }

  lemma EndCallPlain(x: string, i: nat)
    requires FoldAt(x, i, "@end_call") && |x| == i + 9
    ensures x != "" && !IsSpace(x[|x| - 1])
  {
    FoldAtPlain(x, i, "@end_call");
  }

  lemma RStripEnd(x: string)
    requires x != "" ==> !IsSpace(x[|x| - 1])
    ensures RStrip(x) == x
  {}

  lemma EndCallFound(s: string) returns (p: string, w: string, a: string)
    requires EndCallAt(s) < |s|
    ensures EndsCall(s, p, w, a)
  {
    hide IsSpace, Fold, RStrip;
    var e, r := EndCallAt(s), RStrip(s);
    p, w, a := s[..e], r[e..], s[|r|..];
    assert w == r[e..e + 9];
    assert s == r + a && r == p + w;
  }

  lemma TrailIs(g: Grammar, s: string, p: string, w: string, a: string, b: string)
    requires Trails(g, s, p, w, a, b)
    ensures ScaffoldAt(g, s) == |p|
  {
    hide IsSpace, Fold, RStrip, WordEnds;
    LabelPlain(w);
    ColonIs();
    var r, q := p + w + a + ":", p + w;
    RStripSpaces(r, b);
    RStripEnd(r);
    assert r[..|r| - 1] == q + a;
    RStripSpaces(q, a);
    assert q[|q| - 1] == w[|w| - 1];
    RStripEnd(q);
    WordEndsIs(g, p, w);
  }

  lemma WordEndsIs(g: Grammar, p: string, w: string)
    requires Label(w) && (p != "" ==> !g.word(p[|p| - 1]))
    ensures if Folds(w, "first") then WordEnds(g, p + w, "first")
            else WordEnds(g, p + w, "then") && !WordEnds(g, p + w, "first")
  {
    hide Fold;
    LabelPlain(w);
    var q := p + w;
    assert q[|p|..|p| + |w|] == w;
    assert p != "" ==> q[|p| - 1] == p[|p| - 1];
    if !Folds(w, "first") && |q| >= 5 {
      assert q[|q| - 5..|q| - 5 + 5][4] == w[|w| - 1];
    }
  }

  lemma TrailFound(g: Grammar, s: string) returns (p: string, w: string, a: string, b: string)
    requires ScaffoldAt(g, s) < |s|
    ensures Trails(g, s, p, w, a, b)
  {
    hide IsSpace, Folds, WordEnds, ScaffoldAt, RStrip, Label;
    ScaffoldShape(g, s);
    var r := RStrip(s);
    var body := r[..|r| - 1];
    var q := RStrip(body);
    RStripRest(s);
    RStripRest(body);
    var n := if WordEnds(g, q, "first") then 5 else 4;
    WordFound(g, q, n);
    p, w, a, b := q[..|q| - n], q[|q| - n..], body[|q|..], s[|r|..];
    TrailParts(s, r, body, q, p, w, a, b);
  }

  lemma ScaffoldShape(g: Grammar, s: string)
    requires ScaffoldAt(g, s) < |s|
    ensures var r := RStrip(s);
      && r != "" && r[|r| - 1] == ':'
      && var q := RStrip(r[..|r| - 1]); WordEnds(g, q, "first") || WordEnds(g, q, "then")
  {
    hide RStrip, WordEnds;
  }

  lemma RStripRest(s: string)
    ensures var r := RStrip(s); |r| <= |s| && s == r + s[|r|..] && AllSpace(s[|r|..])
  {
    hide RStrip, IsSpace;
  }

  lemma WordFound(g: Grammar, q: string, n: nat)
    requires if n == 5 then WordEnds(g, q, "first") else n == 4 && WordEnds(g, q, "then")
    ensures n <= |q| && Label(q[|q| - n..]) && (n < |q| ==> !g.word(q[|q| - n - 1]))
  {
    hide Folds;
    assert q[|q| - n..] == q[|q| - n..|q| - n + n];
  }

  lemma TrailParts(
      s: string, r: string, body: string, q: string, p: string, w: string, a: string, b: string)
    requires s == r + b && r == body + [':'] && body == q + a && q == p + w
    ensures s == p + w + a + ":" + b
  {}

  // ---------------------------------------------------------------- cleaning

  /** `s` without the label it opens with. */
  ghost predicate LeadCut(s: string, r: string) {
    && (forall w, a, rest | Opens(s, w, a, rest) :: r == Strip(rest))
    && ((forall w, a, rest :: !Opens(s, w, a, rest)) ==> r == s)
  }

  /** `s` without the `@end_call` it ends in. */
  ghost predicate CallCut(s: string, r: string) {
    && (forall p, w, a | EndsCall(s, p, w, a) :: r == Strip(p))
    && ((forall p, w, a :: !EndsCall(s, p, w, a)) ==> r == s)
  }

  /** `s` without the label it ends in. */
  ghost predicate TrailCut(g: Grammar, s: string, r: string) {
    && (forall p, w, a, b | Trails(g, s, p, w, a, b) :: r == Strip(p))
    && ((forall p, w, a, b :: !Trails(g, s, p, w, a, b)) ==> r == s)
  }

  lemma LeadCuts(s: string)
    requires Trimmed(s)
    ensures LeadCut(s, Strip(s[LeadEnd(s)..]))
  {
    hide LeadEnd, Opens, Strip;
    var r := Strip(s[LeadEnd(s)..]);
    forall w, a, rest | Opens(s, w, a, rest) ensures r == Strip(rest) {
      LeadIs(s, w, a, rest);
      StripLStrip(rest);
    }
    if LeadEnd(s) > 0 {
      var w, a, rest := LeadFound(s);
    } else {
      StripTrimmed(s);
      assert s[0..] == s;
    }
  }

  lemma StripLStrip(s: string)
    ensures Strip(LStrip(s)) == Strip(s)
  {
    hide IsSpace;
  }

  lemma CallCuts(s: string)
    requires Trimmed(s)
    ensures CallCut(s, Strip(s[..EndCallAt(s)]))
  {
    hide EndCallAt, EndsCall, Strip;
    var r := Strip(s[..EndCallAt(s)]);
    forall p, w, a | EndsCall(s, p, w, a) ensures r == Strip(p) {
      EndCallIs(s, p, w, a);
      EndsCallStart(s, p, w, a);
    }
    if EndCallAt(s) < |s| {
      var p, w, a := EndCallFound(s);
    } else {
      StripTrimmed(s);
      assert s[..|s|] == s;
    }
  }

  lemma EndsCallStart(s: string, p: string, w: string, a: string)
    requires EndsCall(s, p, w, a)
    ensures s[..|p|] == p
  {}

  lemma TrailCuts(g: Grammar, s: string)
    requires Trimmed(s)
    ensures TrailCut(g, s, Strip(s[..ScaffoldAt(g, s)]))
  {
    hide ScaffoldAt, Trails, Strip;
    var r := Strip(s[..ScaffoldAt(g, s)]);
    forall p, w, a, b | Trails(g, s, p, w, a, b) ensures r == Strip(p) {
      TrailIs(g, s, p, w, a, b);
      TrailsStart(g, s, p, w, a, b);
    }
    if ScaffoldAt(g, s) < |s| {
      var p, w, a, b := TrailFound(g, s);
    } else {
      StripTrimmed(s);
      assert s[..|s|] == s;
    }
  }

  lemma TrailsStart(g: Grammar, s: string, p: string, w: string, a: string, b: string)
    requires Trails(g, s, p, w, a, b)
    ensures s[..|p|] == p
  {}

  /** Cleaning: the leading label goes, then a trailing `@end_call`, which is told, then a trailing label. */
  lemma CleanSays(g: Grammar, spoken: string) returns (body: string, cut: string)
    ensures LeadCut(Strip(spoken), body) && CallCut(body, cut) && TrailCut(g, cut, Clean(g, spoken).0)
    ensures Clean(g, spoken).1 <==> cut != body
    ensures Clean(g, spoken).1 <==> exists p, w, a :: EndsCall(body, p, w, a)
  {
    hide LeadEnd, EndCallAt, ScaffoldAt, Strip, LeadCut, CallCut, TrailCut, EndsCall;
    CleanIs(g, spoken);
    LeadCuts(Strip(spoken));
    body := Body(spoken);
    CallCuts(body);
    cut := CutEndCall(body);
    TrailCuts(g, cut);
    CallTold(body, cut);
  }

  lemma CallTold(body: string, cut: string)
    requires CallCut(body, cut)
    ensures cut != body <==> exists p, w, a :: EndsCall(body, p, w, a)
  {
    hide IsSpace, Strip;
    if p, w, a :| EndsCall(body, p, w, a) {
      StripShort(p);
    }
  }

  lemma StripShort(s: string)
    ensures |Strip(s)| <= |s|
  {
    hide IsSpace;
  }

  // ---------------------------------------------------------------- sentences that may be spoken

  /** `@slow:` stands in the text. */
  ghost predicate Marked(s: string) {
    exists p, m, q :: s == p + m + q && Folds(m, "@slow:")
  }

  lemma MarkedIs(s: string)
    ensures Marked(s) <==> HasSlow(s)
  {
    hide Fold;
    if p, m, q :| s == p + m + q && Folds(m, "@slow:") {
      assert s[|p|..|p| + 6] == m;
      assert SlowAt(s, |p|);
    }
    if HasSlow(s) {
      var i :| 0 <= i < |s| && SlowAt(s, i);
      assert s == s[..i] + s[i..i + 6] + s[i + 6..];
    }
  }

  /** A sentence may be spoken exactly if nothing in it would be read as anything else. */
  lemma SpeakableExactly(g: Grammar, s: string)
    ensures Speakable(g, s) <==>
      && s != "" && s[0] != '@' && '\n' !in s && !IsSpace(s[0]) && !IsSpace(s[|s| - 1]) && !Marked(s)
      && (forall w, a, rest :: !Opens(s, w, a, rest))
      && (forall p, w, a :: !EndsCall(s, p, w, a))
      && (forall p, w, a, b :: !Trails(g, s, p, w, a, b))
  {
    hide IsSpace, Speakable, LeadEnd, EndCallAt, ScaffoldAt, HasSlow, Marked, Opens, EndsCall, Trails;
    SpeakableParts(g, s);
    MarkedIs(s);
    NoLead(s);
    NoCall(s);
    NoTrail(g, s);
  }

  lemma NoLead(s: string)
    ensures LeadEnd(s) == 0 <==> forall w, a, rest :: !Opens(s, w, a, rest)
  {
    hide LeadEnd, Opens;
    if w, a, rest :| Opens(s, w, a, rest) {
      LeadIs(s, w, a, rest);
    } else if LeadEnd(s) > 0 {
      var w, a, rest := LeadFound(s);
    }
  }

  lemma NoCall(s: string)
    ensures EndCallAt(s) == |s| <==> forall p, w, a :: !EndsCall(s, p, w, a)
  {
    hide EndCallAt, EndsCall;
    if p, w, a :| EndsCall(s, p, w, a) {
      EndCallIs(s, p, w, a);
      EndsCallShort(s, p, w, a);
    } else if EndCallAt(s) < |s| {
      var p, w, a := EndCallFound(s);
    }
  }

  lemma EndsCallShort(s: string, p: string, w: string, a: string)
    requires EndsCall(s, p, w, a)
    ensures |p| < |s|
  {}

  lemma NoTrail(g: Grammar, s: string)
    ensures ScaffoldAt(g, s) == |s| <==> forall p, w, a, b :: !Trails(g, s, p, w, a, b)
  {
    hide ScaffoldAt, Trails;
    if p, w, a, b :| Trails(g, s, p, w, a, b) {
      TrailIs(g, s, p, w, a, b);
      TrailsShort(g, s, p, w, a, b);
    } else if ScaffoldAt(g, s) < |s| {
      var p, w, a, b := TrailFound(g, s);
    }
  }

  lemma TrailsShort(g: Grammar, s: string, p: string, w: string, a: string, b: string)
    requires Trails(g, s, p, w, a, b)
    ensures |p| < |s|
  {}
}
