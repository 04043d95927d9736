/**
 What a line of text says, said by how the line is put together: its speech, its `@slow:` segments, its
 directives, and what the items of a text are, line by line.
 */
module Sayings {
  import opened Text
  import opened Protocol
  import opened Prefixes
  import opened RoundTrip
  import opened Printing
  import opened RoundTripLaws
  import opened Speaking

  // ---------------------------------------------------------------- spoken sentences

  /** A pause directive that ends a word, or `@end_call`, stands in the sentence. */
  ghost predicate Directs(g: Grammar, p: string, m: string, q: string) {
    (m in ["@hold", "@wait"] && (q == "" || !g.word(q[0]))) || Folds(m, "@end_call")
  }

  ghost predicate Directed(g: Grammar, s: string) {
    exists p, m, q :: s == p + m + q && Directs(g, p, m, q)
  }

  lemma DirectedIs(g: Grammar, s: string)
    ensures Directed(g, s) <==> Inline(g, s)
  {
    hide Folds, Directs, Inline;
    if p, m, q :| s == p + m + q && Directs(g, p, m, q) {
      InlineAt(g, s, p, m, q);
    }
    if Inline(g, s) {
      InlineFound(g, s);
    }
  }

  lemma InlineFound(g: Grammar, s: string)
    requires Inline(g, s)
    ensures Directed(g, s)
  {
    hide Folds, Directed;
    var i :| 0 <= i < |s| &&
      (((ExactAt(s, i, "@hold") || ExactAt(s, i, "@wait")) && (i + 5 == |s| || !g.word(s[i + 5])))
       || FoldAt(s, i, "@end_call"));
    DirectedAt(g, s, i, if FoldAt(s, i, "@end_call") then 9 else 5);
  }

  lemma InlineAt(g: Grammar, s: string, p: string, m: string, q: string)
    requires s == p + m + q && Directs(g, p, m, q)
    ensures Inline(g, s)
  {
    hide Fold;
    var i := |p|;
    assert s[i..i + |m|] == m;
    if !Folds(m, "@end_call") {
      assert m == "@hold" || m == "@wait";
      assert q != "" ==> s[i + 5] == q[0];
      assert ExactAt(s, i, "@hold") || ExactAt(s, i, "@wait");
    } else {
      assert FoldAt(s, i, "@end_call");
    }
  }

  lemma DirectedAt(g: Grammar, s: string, i: nat, n: nat)
    requires i + n <= |s| && Directs(g, s[..i], s[i..i + n], s[i + n..])
    ensures Directed(g, s)
  {
    assert s == s[..i] + s[i..i + n] + s[i + n..];
  }

  /** A sentence that may not be spoken is an issue; one with a directive inside is spoken and counted. */
  lemma SentenceSaid(g: Grammar, s: string)
    requires s != ""
    ensures SentenceItems(g, s) ==
      if !Speakable(g, s) then [Issue(if s[0] == '@' then StrayDirective else ScaffoldEcho, s)]
      else [Speech(s)] + if Directed(g, s) then [Issue(InlineDirective, s)] else []
  {
    hide Speakable, Inline, Directed;
    DirectedIs(g, s);
  }

  /** The sentences of a line say what each of them says, in order. */
  lemma SentencesSaid(g: Grammar, ss: seq<string>, s: string)
    ensures SpeechItems(g, []) == []
    ensures SpeechItems(g, ss + [s]) == SpeechItems(g, ss) + if s == "" then [] else SentenceItems(g, s)
  {
    hide SentenceItems;
    SpeechItemsAppend(g, ss, [s]);
    assert [s][1..] == [];
  }

  // ---------------------------------------------------------------- segments

  /** A line: what stands before the first mark, and after each mark its segment. */
  function Marking(head: string, marks: seq<string>, segments: seq<string>): string
    requires |marks| == |segments|
    decreases |marks|
  {
    if marks == [] then head else head + (marks[0] + Marking(segments[0], marks[1..], segments[1..]))
  }

  /** The marks are `@slow:` in any case, and there is no other. */
  ghost predicate Segmented(text: string, head: string, marks: seq<string>, segments: seq<string>) {
    && |marks| == |segments| && text == Marking(head, marks, segments) && !Marked(head)
    && (forall k | 0 <= k < |marks| :: Folds(marks[k], "@slow:"))
    && (forall k | 0 <= k < |segments| :: !Marked(segments[k]))
  }

  function Stripped(segments: seq<string>): (r: seq<string>)
    ensures |r| == |segments| && forall k | 0 <= k < |r| :: r[k] == LStrip(segments[k])
  {
    seq(|segments|, k requires 0 <= k < |segments| => LStrip(segments[k]))
  }

  /** The first mark of a line. */
  lemma FirstMark(head: string, mark: string, rest: string)
    requires !Marked(head) && Folds(mark, "@slow:")
    ensures FindSlow(head + (mark + rest), 0) == |head|
    ensures SlowSplit(head + (mark + rest)) == [head] + SlowSplit(LStrip(rest))
  {
    hide IsSpace, Fold, SlowAt, LStrip, Marked, HasSlow;
    var x := head + (mark + rest);
    MarkedIs(head);
    forall j | 0 <= j < |head| ensures !SlowAt(x, j) {
      if j + 6 <= |head| {
        SlowAtPrefix(head, x, j);
        NotMarked(head, j);
      } else {
        NoStraddle(x, j, |head|);
      }
    }
    assert x[|head|..|head| + 6] == mark;
    assert SlowAt(x, |head|) by { SlowIsFold(x, |head|); }
    assert x[..|head|] == head && x[|head| + 6..] == rest;
  }

  lemma NotMarked(s: string, j: nat)
    requires !HasSlow(s) && j < |s|
    ensures !SlowAt(s, j)
  {}

  /** Marks do not overlap: only the first character of one is `@`. */
  lemma NoStraddle(x: string, j: nat, i: nat)
    requires j < i < j + 6 && i < |x| && Fold(x[i], '@')
    ensures !SlowAt(x, j)
  {
    if j + 6 <= |x| {
      assert x[j..j + 6][i - j] == x[i];
    }
  }

  lemma LStripMarking(s: string, marks: seq<string>, segments: seq<string>)
    requires |marks| == |segments| && (marks != [] ==> Folds(marks[0], "@slow:"))
    ensures LStrip(Marking(s, marks, segments)) == Marking(LStrip(s), marks, segments)
  {
    hide IsSpace, Fold, LStrip;
    if marks != [] {
      var rest := marks[0] + Marking(segments[0], marks[1..], segments[1..]);
      MarkNoSpace(marks[0]);
      LStripJoin(s, rest);
    }
  }

  lemma MarkNoSpace(mark: string)
    requires Folds(mark, "@slow:")
    ensures !IsSpace(mark[0])
  {}

  lemma LStripJoin(s: string, rest: string)
    requires rest != "" && !IsSpace(rest[0])
    ensures LStrip(s + rest) == LStrip(s) + rest
  {
    hide IsSpace, AllSpace, LStrip;
    var a, t := LStripParts(s);
    StartsWell(t, rest);
    LStripSpaces(a, t + rest);
    LStripNone(t + rest);
    Regroup(s, a, t, rest);
  }

  lemma Regroup(s: string, a: string, t: string, rest: string)
    requires s == a + t
    ensures s + rest == a + (t + rest)
  {}

  lemma LStripParts(s: string) returns (a: string, t: string)
    ensures s == a + t && AllSpace(a) && t == LStrip(s) && (t != "" ==> !IsSpace(t[0]))
  {
    hide IsSpace, LStrip;
    t := LStrip(s);
    a := s[..|s| - |t|];
  }

  lemma StartsWell(t: string, rest: string)
    requires (t != "" ==> !IsSpace(t[0])) && rest != "" && !IsSpace(rest[0])
    ensures t + rest != "" && !IsSpace((t + rest)[0])
  {
    hide IsSpace;
  }

  lemma LStripNone(s: string)
    requires s != "" ==> !IsSpace(s[0])
    ensures LStrip(s) == s
  {}

  lemma MarkedMore(a: string, s: string)
    ensures Marked(s) ==> Marked(a + s)
  {
    hide Folds;
    if p, m, q :| s == p + m + q && Folds(m, "@slow:") {
      assert a + s == (a + p) + m + q;
    }
  }

  lemma LStripUnmarked(s: string)
    requires !Marked(s)
    ensures !Marked(LStrip(s))
  {
    hide Marked;
    var a := s[..|s| - |LStrip(s)|];
    assert s == a + LStrip(s);
    MarkedMore(a, LStrip(s));
  }

  lemma FirstSegment(head: string, mark: string, s: string, more: seq<string>, tail: seq<string>)
    requires !Marked(head) && Folds(mark, "@slow:") && |more| == |tail| && (more != [] ==> Folds(more[0], "@slow:"))
    ensures SlowSplit(head + (mark + Marking(s, more, tail))) == [head] + SlowSplit(Marking(LStrip(s), more, tail))
  {
    hide Folds, LStrip, SlowSplit, FindSlow, Marked, Marking;
    FirstMark(head, mark, Marking(s, more, tail));
    LStripMarking(s, more, tail);
  }

  lemma TailSegmented(head: string, marks: seq<string>, segments: seq<string>)
    requires marks != [] && |marks| == |segments| && Segmented(Marking(head, marks, segments), head, marks, segments)
    ensures var s := LStrip(segments[0]);
      Segmented(Marking(s, marks[1..], segments[1..]), s, marks[1..], segments[1..])
  {
    hide Folds, LStrip, Marked, Marking;
    LStripUnmarked(segments[0]);
    assert forall k | 0 <= k < |marks[1..]| :: marks[1..][k] == marks[k + 1];
    assert forall k | 0 <= k < |segments[1..]| :: segments[1..][k] == segments[k + 1];
  }

  lemma StrippedCons(segments: seq<string>)
    requires segments != []
    ensures Stripped(segments) == [LStrip(segments[0])] + Stripped(segments[1..])
  {
    hide LStrip;
  }

  lemma MarkingCons(head: string, marks: seq<string>, segments: seq<string>)
    requires |marks| == |segments|
    ensures Marking(head, marks, segments)
         == if marks == [] then head else head + (marks[0] + Marking(segments[0], marks[1..], segments[1..]))
  {}

  /** A line splits at its marks. */
  lemma {:induction false} SegmentsSplit(text: string, head: string, marks: seq<string>, segments: seq<string>)
    requires Segmented(text, head, marks, segments)
    ensures SlowSplit(text) == [head] + Stripped(segments)
    decreases |marks|
  {
    hide Folds, LStrip, SlowSplit, Marked, Stripped, HasSlow, Marking;
    MarkingCons(head, marks, segments);
    if marks == [] {
      MarkedIs(head);
      ClearSplit(head);
      assert [head] + Stripped([]) == [head] by { StrippedNone(); }
    } else {
      var s, more, tail := segments[0], marks[1..], segments[1..];
      FirstSegment(head, marks[0], s, more, tail);
      TailSegmented(head, marks, segments);
      SegmentsSplit(Marking(LStrip(s), more, tail), LStrip(s), more, tail);
      StrippedCons(segments);
    }
  }

  lemma StrippedNone()
    ensures Stripped([]) == []
  {}

  /** And every line is put together like that. */
  lemma {:induction false} SegmentsFound(text: string)
    returns (head: string, marks: seq<string>, segments: seq<string>)
    ensures Segmented(text, head, marks, segments)
    decreases |text|
  {
    hide IsSpace, Folds, SlowAt, Marked;
    var k := FindSlow(text, 0);
    head := text[..k];
    HeadUnmarked(text, k);
    if k == |text| {
      marks, segments := [], [];
    } else {
      SlowLength(text, k);
      assert Folds(text[k..k + 6], "@slow:") by { SlowIsFold(text, k); }
      var s, more, tail := SegmentsFound(text[k + 6..]);
      marks, segments := [text[k..k + 6]] + more, [s] + tail;
      assert marks[1..] == more && segments[1..] == tail;
      assert text == text[..k] + (text[k..k + 6] + text[k + 6..]);
    }
  }

  lemma HeadUnmarked(text: string, k: nat)
    requires k <= |text| && forall j | 0 <= j < k :: !SlowAt(text, j)
    ensures !Marked(text[..k])
  {
    hide SlowAt;
    MarkedIs(text[..k]);
    forall j | 0 <= j < k ensures !SlowAt(text[..k], j) {
      if j + 6 <= k {
        SlowAtPrefix(text[..k], text, j);
      } else {
        SlowLength(text[..k], j);
      }
    }
  }

  /** What segments say, one after the other. */
  function Relayed(g: Grammar, segments: seq<string>): seq<Item>
  {
    if segments == [] then []
    else
      var n := |segments| - 1;
      Relayed(g, segments[..n]) + RelayItems(g, Strip(segments[n]))
  }

  lemma {:induction false} RelayAllAppend(g: Grammar, a: seq<string>, b: seq<string>)
    ensures RelayAll(g, a + b) == RelayAll(g, a) + RelayAll(g, b)
  {
    hide RelayItems, Strip;
    if a == [] {
      assert a + b == b;
    } else {
      assert (a + b)[1..] == a[1..] + b;
      RelayAllAppend(g, a[1..], b);
    }
  }

  lemma {:induction false} RelayedAll(g: Grammar, segments: seq<string>)
    ensures RelayAll(g, Stripped(segments)) == Relayed(g, segments)
  {
    hide RelayItems, Strip, LStrip, Stripped;
    if segments != [] {
      var n := |segments| - 1;
      RelayedAll(g, segments[..n]);
      assert Stripped(segments) == Stripped(segments[..n]) + [LStrip(segments[n])];
      RelayAllAppend(g, Stripped(segments[..n]), [LStrip(segments[n])]);
      StripLStrip(segments[n]);
      assert [LStrip(segments[n])][1..] == [];
    }
  }

  // ---------------------------------------------------------------- lines

  /** What the cleaned speech of a line says, and what it lost. */
  function HeadSaid(g: Grammar, spoken: string, cut: bool): seq<Item>
  {
    if spoken != "" && spoken[0] == '@' then [Issue(StrayDirective, spoken)]
    else SpeechItems(g, BreakSplit(spoken)) + if cut then [Issue(InlineDirective, "@end_call")] else []
  }

  /** A line of speech and relays says its speech, and then every segment in order. */
  lemma LineSaid(
      g: Grammar, t: Turn, raw: string, head: string, marks: seq<string>, segments: seq<string>)
    requires Segmented(Strip(raw), head, marks, segments)
    requires Strip(raw) != "" && Strip(raw)[0] == '@' ==> head == "" && marks != []
    requires t.paused && g.pauseEndsSpeech ==> Strip(raw) != "" && Strip(raw)[0] == '@'
    ensures var (spoken, cut) := Clean(g, head);
      LineItems(g, t, raw, 0) == (HeadSaid(g, spoken, cut) + Relayed(g, segments), t)
  {
    hide Strip, Clean, SpeechLine, HeadSaid, Relayed, SlowAt, Marked, Folds, Marking;
    var text := Strip(raw);
    SpeechLineSaid(g, text, head, marks, segments);
    if head == "" && marks != [] {
      MarkFirst(text, marks, segments);
    }
  }

  lemma SpeechLineSaid(g: Grammar, text: string, head: string, marks: seq<string>, segments: seq<string>)
    requires Segmented(text, head, marks, segments)
    ensures var (spoken, cut) := Clean(g, head);
      SpeechLine(g, text, 0) == HeadSaid(g, spoken, cut) + Relayed(g, segments)
  {
    hide Clean, SpeechItems, BreakSplit, RelayAll, SlowSplit, Stripped, Relayed, Segmented, HeadSaid;
    SegmentsSplit(text, head, marks, segments);
    RelayedAll(g, segments);
    assert SlowSplit(text)[0] == head && SlowSplit(text)[1..] == Stripped(segments);
    var (spoken, cut) := Clean(g, head);
    HeadIs(g, spoken, cut);
  }

  lemma HeadIs(g: Grammar, spoken: string, cut: bool)
    ensures SpeechItems(g, From(Sentences(spoken), 0))
          + (if StartsWith(spoken, '@') then [Issue(StrayDirective, spoken)]
             else if cut then [Issue(InlineDirective, "@end_call")] else [])
         == HeadSaid(g, spoken, cut)
  {
    hide BreakSplit, SpeechItems;
    assert From(BreakSplit(spoken), 0) == BreakSplit(spoken);
    assert From([], 0) == [];
    SpeechNothing(g);
  }

  lemma SpeechNothing(g: Grammar)
    ensures SpeechItems(g, []) == []
  {}

  lemma MarkFirst(text: string, marks: seq<string>, segments: seq<string>)
    requires |marks| == |segments| > 0 && text == Marking("", marks, segments) && Folds(marks[0], "@slow:")
    ensures SlowAt(text, 0)
  {
    hide Fold;
    assert text[0..6] == marks[0];
  }

  /** After a pause, in a profile that ends speech there, a line of anything else is one issue. */
  lemma LateSaid(g: Grammar, t: Turn, raw: string)
    requires t.paused && g.pauseEndsSpeech && (Strip(raw) == "" || Strip(raw)[0] != '@')
    ensures LineItems(g, t, raw, 0) == (if Strip(raw) == "" then [] else [Issue(SpeechAfterPause, Strip(raw))], t)
  {
    hide Strip, SpeechLine, Directive;
  }

  // ---------------------------------------------------------------- directives

  /** `@end_call` opens the directive, in any case. */
  ghost predicate CallsEnd(d: string) {
    exists m, q :: d == m + q && Folds(m, "@end_call")
  }

  lemma CallsEndIs(d: string)
    ensures CallsEnd(d) <==> FoldAt(d, 0, "@end_call")
  {
    hide Fold;
    if m, q :| d == m + q && Folds(m, "@end_call") {
      assert d[0..9] == m;
    }
    if FoldAt(d, 0, "@end_call") {
      assert d == d[0..9] + d[9..];
    }
  }

  /** Its first word is `@hold`. */
  predicate Holds(d: string) {
    d == "@hold" || ("@hold" < d && IsSpace(d[5]))
  }

  /** It is `@hold` and one known reason. */
  ghost predicate HoldsFor(d: string, r: HoldReason) {
    exists a :: a != "" && AllSpace(a) && d == "@hold" + a + ReasonText(r)
  }

  lemma ReasonsAre()
    ensures ReasonText(Offer) == "offer" && ReasonText(Decision) == "decision"
    ensures ReasonText(FactRequest) == "fact_request" && ReasonText(Pressure) == "pressure"
    ensures ReasonText(Unclear) == "unclear"
  {}

  lemma FirstWordIs(d: string)
    requires d != "" && !IsSpace(d[0])
    ensures var e := WordEnd(d, 0); e > 0 && Words(d) == [d[..e]] + Words(d[e..])
  {
    hide IsSpace;
  }

  lemma HoldsIs(d: string)
    requires d != "" && !IsSpace(d[0])
    ensures Words(d) != []
    ensures Holds(d) <==> Words(d)[0] == "@hold"
    ensures Holds(d) ==> Words(d) == ["@hold"] + Words(d[5..]) && "@hold" <= d
  {
    hide Words, WordEnd, IsSpace, Holds;
    FirstWordIs(d);
    HoldsWord(d);
  }

  lemma HoldsWord(d: string)
    ensures Holds(d) <==> d[..WordEnd(d, 0)] == "@hold"
    ensures Holds(d) ==> WordEnd(d, 0) == 5 && "@hold" <= d
  {
    hide WordEnd, IsSpace;
    var e := WordEnd(d, 0);
    if "@hold" <= d {
      HoldNoSpace();
      forall k | 0 <= k < 5 ensures !IsSpace(d[k]) {
        assert d[k] == "@hold"[k];
      }
    }
    if d[..e] == "@hold" {
      assert "@hold" <= d;
    }
  }

  lemma HoldNoSpace()
    ensures NoSpace("@hold")
  {}

  lemma HoldsForIs(d: string, r: HoldReason)
    requires Trimmed(d) && Holds(d)
    ensures HoldsFor(d, r) <==> |Words(d)| == 2 && Words(d)[1] == ReasonText(r)
  {
    hide IsSpace, Words, ReasonText, WordEnd, HoldsFor;
    assert d[0] == '@';
    AtIsNoSpace();
    HoldsIs(d);
    if HoldsFor(d, r) {
      ReasonSecond(d, r);
    }
    if |Words(d)| == 2 && Words(d)[1] == ReasonText(r) {
      assert Words(d)[1..] == Words(d[5..]) == [ReasonText(r)];
      SecondWord(d, r);
    }
  }

  lemma ReasonSecond(d: string, r: HoldReason)
    requires HoldsFor(d, r) && Words(d) == ["@hold"] + Words(d[5..])
    ensures |Words(d)| == 2 && Words(d)[1] == ReasonText(r)
  {
    hide IsSpace, AllSpace, Words, ReasonText, NoSpace;
    var a :| a != "" && AllSpace(a) && d == "@hold" + a + ReasonText(r);
    DropHold(d, a, ReasonText(r));
    WordsSkipSpaces(a, ReasonText(r));
    OneWord(ReasonText(r));
  }

  lemma DropHold(d: string, a: string, w: string)
    requires d == "@hold" + a + w
    ensures |d| >= 5 && d[5..] == a + w
  {}

  lemma SecondWord(d: string, r: HoldReason)
    requires Trimmed(d) && Holds(d) && "@hold" <= d && Words(d[5..]) == [ReasonText(r)]
    ensures HoldsFor(d, r)
  {
    hide IsSpace, Words, ReasonText;
    var rest, w := d[5..], ReasonText(r);
    assert d == "@hold" + rest;
    assert rest != "" ==> rest[|rest| - 1] == d[|d| - 1];
    var a := OnlyWord(rest, w);
    RestSpace(d, rest, a, w);
    HoldJoin(d, a, w);
  }

  lemma HoldJoin(d: string, a: string, w: string)
    requires d == "@hold" + (a + w)
    ensures d == "@hold" + a + w
  {}

  lemma RestSpace(d: string, rest: string, a: string, w: string)
    requires Holds(d) && d == "@hold" + rest && rest == a + w && w != "" && !IsSpace(w[0])
    ensures a != ""
  {
    hide IsSpace;
    assert d[5] == rest[0];
  }

  /** A text whose only word is `w`. */
  lemma OnlyWord(s: string, w: string) returns (a: string)
    requires Words(s) == [w] && (s != "" ==> !IsSpace(s[|s| - 1]))
    ensures AllSpace(a) && s == a + w && w != "" && !IsSpace(w[0])
  {
    hide IsSpace, AllSpace, Words, WordEnd, LStrip;
    var t;
    a, t := LStripParts(s);
    WordsOf(s);
    var e := WordEnd(t, 0);
    OneOnly(t[..e], Words(t[e..]), w);
    LastOf(s, a, t, e);
    EmptyWords(t[e..]);
    assert t[..e] == t;
  }

  lemma OneOnly(x: string, more: seq<string>, w: string)
    requires [x] + more == [w]
    ensures x == w && more == []
  {
    assert ([x] + more)[0] == x && |[x] + more| == 1;
  }

  lemma LastOf(s: string, a: string, t: string, e: nat)
    requires s == a + t && t != "" && e <= |t|
    ensures t[e..] != "" ==> t[e..][|t[e..]| - 1] == s[|s| - 1]
  {}

  lemma WordsOf(s: string)
    ensures var t := LStrip(s);
      Words(s) == if t == "" then [] else [t[..WordEnd(t, 0)]] + Words(t[WordEnd(t, 0)..])
  {
    hide IsSpace, LStrip, WordEnd;
  }

  lemma EmptyWords(s: string)
    requires Words(s) == [] && (s != "" ==> !IsSpace(s[|s| - 1]))
    ensures s == ""
  {
    hide IsSpace;
    if s != "" {
      NotBlank(s);
    }
  }

  lemma NotBlank(s: string)
    requires s != "" && !IsSpace(s[|s| - 1])
    ensures LStrip(s) != ""
  {
    hide IsSpace;
  }

  /** What a pause says: the second one of a turn is an issue. */
  function Paused(t: Turn, item: Item, d: string): (seq<Item>, Turn)
  {
    if t.paused then ([Issue(DuplicatePause, d)], t) else ([item], Turn(true, t.ended))
  }

  /** What a directive says: an end, a hold, a wait, or an issue. */
  lemma DirectiveSaid(g: Grammar, t: Turn, raw: string)
    requires Strip(raw) != "" && Strip(raw)[0] == '@' && !(exists m, q :: Strip(raw) == m + q && Folds(m, "@slow:"))
    ensures var d := Strip(raw);
      var said := LineItems(g, t, raw, 0);
      if CallsEnd(d) then
        said == if t.ended then ([Issue(DuplicateEndCall, d)], t) else ([EndCall], Turn(t.paused, true))
      else if Holds(d) then
        if g.lane == User then said == ([Issue(WrongLane, d)], t)
        else
          && (forall r: HoldReason | HoldsFor(d, r) :: said == Paused(t, Hold(r), d))
          && ((forall r: HoldReason :: !HoldsFor(d, r)) ==> said == ([Issue(BadHoldReason, d)], t))
      else said == if d == "@wait" then Paused(t, Wait, d) else ([Issue(UnknownDirective, d)], t)
  {
    hide Strip, CallsEnd, Holds, HoldsFor, Words, ReasonText, FoldAt, ReasonOf;
    var d := Strip(raw);
    SlowOpens(d);
    AtIsNoSpace();
    CallsEndIs(d);
    HoldsIs(d);
    if Holds(d) {
      forall r: HoldReason ensures HoldsFor(d, r) <==> |Words(d)| == 2 && Words(d)[1] == ReasonText(r) {
        HoldsForIs(d, r);
      }
    }
  }

  lemma SlowOpens(d: string)
    ensures SlowAt(d, 0) ==> exists m, q :: d == m + q && Folds(m, "@slow:")
  {
    hide Fold;
    if SlowAt(d, 0) {
      assert d == d[0..6] + d[6..];
    }
  }

  // ---------------------------------------------------------------- texts

  /** One more line says what it says after the pauses and ends of the lines before. */
  lemma NextLineSaid(g: Grammar, lines: seq<string>, line: string)
    requires NoBreaks(lines) && '\n' !in line
    ensures ParseLines(g, []).items == []
    ensures var items := ParseLines(g, lines).items;
      ParseLines(g, lines + [line]).items == items + LineItems(g, TurnOf(Said(items)), line, 0).0
  {
    hide LineItems, TurnOf, Said;
    assert (lines + [line])[..|lines|] == lines;
    ParsedSound(g, lines);
    TurnIs(g, ParseLines(g, lines));
  }

  lemma TurnIs(g: Grammar, p: Parsed)
    requires Sound(g, p)
    ensures p.turn == TurnOf(Said(p.items))
  {}

  /** A text says what its lines say, and that it is empty if they say nothing. */
  lemma TextSaid(g: Grammar, lines: seq<string>)
    requires lines != [] && NoBreaks(lines)
    ensures var items := ParseLines(g, lines).items;
      Meaning(g, Join(lines, "\n")) == items + if Said(items) == [] then [Issue(EmptyTurn, "")] else []
  {
    hide LineItems, Said, ParseLines;
    assert "\n" == ['\n'];
    SplitJoin(lines, '\n');
    SaidNoIssue(ParseLines(g, lines).items);
  }
}
