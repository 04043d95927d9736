/** The lines the printer writes, and what each of them parses to. */
module Printing {
  import opened Text
  import opened Protocol
  import opened Prefixes
  import opened Streaming
  import opened RoundTrip

  // ---------------------------------------------------------------- speech lines

  /** A speakable line has nothing to clean. */
  lemma SpeakableClean(g: Grammar, l: string)
    requires Speakable(g, l)
    ensures l != "" && Strip(l) == l && Clean(g, Head(l)) == (l, false)
    ensures Head(l) == l && !StartsWith(l, '@') && SlowSplit(l) == [l]
  {
    hide IsSpace, LStrip, RStrip, LeadEnd, EndCallAt, ScaffoldAt, SlowAt;
    assert Head(l) == l;
    assert l[0..] == l && l[..|l|] == l;
    CleanIs(g, l);
  }

  lemma SpeakableLine(g: Grammar, l: string)
    requires Speakable(g, l)
    ensures SpeechLine(g, l, 0) == SpeechItems(g, BreakSplit(l))
  {
    hide Speakable, Strip, Clean, BreakSplit, SpeechItems, RelayAll, SlowSplit;
    SpeakableClean(g, l);
    HeadIsFirst(l);
    NoRelays(g);
    var parts := SlowSplit(l);
    assert parts[1..] == [];
    assert From(BreakSplit(l), 0) == BreakSplit(l);
  }

  lemma SpeechItemsOne(g: Grammar, s: string)
    requires s != ""
    ensures SpeechItems(g, [s]) == SentenceItems(g, s)
  {
    hide SentenceItems;
    assert [s][1..] == [];
  }

  /** The break after the last sentence of a line. */
  lemma LastBreak(l: string, s: string)
    requires l != "" && IsStop(l[|l| - 1]) && s != "" && Trimmed(s) && BreakAt(l, 1) == |l|
    ensures BreakSplit(l + ([' '] + s)) == [l] + BreakSplit(s)
  {
    hide IsSpace, IsStop, BreakSplit;
    var x := l + ([' '] + s);
    assert forall k | 0 <= k < |l| :: x[k] == l[k];
    assert x[|l|] == ' ' && x[|l| + 1] == s[0];
    SpaceIsSpace();
    BreakAtIs(x, |l|);
    var j := SkipSpaces(x, |l|);
    assert j == |l| + 1;
    BreakStep(x, |l|, j);
    assert x[..|l|] == l && x[j..] == s;
  }

  /** A line that ends a sentence, then a space and more text: the sentences of both. */
  lemma {:induction false} BreakJoin(l: string, s: string)
    requires l != "" && Trimmed(l) && IsStop(l[|l| - 1]) && s != "" && Trimmed(s)
    ensures BreakSplit(l + ([' '] + s)) == BreakSplit(l) + BreakSplit(s)
    decreases |l|
  {
    hide IsSpace, IsStop, BreakSplit;
    var i := BreakAt(l, 1);
    if i == |l| {
      BreakWhole(l);
      LastBreak(l, s);
    } else {
      var j := SkipSpaces(l, i);
      BreakStep(l, i, j);
      var x := l + ([' '] + s);
      assert forall k | 0 <= k < |l| :: x[k] == l[k];
      SameBreak(l, x, i, j);
      BreakStep(x, i, j);
      assert x[j..] == l[j..] + ([' '] + s);
      BreakJoin(l[j..], s);
      var a, b, c := [l[..i]], BreakSplit(l[j..]), BreakSplit(s);
      assert a + (b + c) == a + b + c;
    }
  }

  lemma SpaceIsSpace()
    ensures IsSpace(' ') && !IsStop(' ') && AllSpace([' '])
  {}

  /** A separator that matches nothing in `@slow:` keeps two clear texts clear. */
  lemma ClearJoin(a: string, c: char, b: string)
    requires Clear(a) && Clear(b) && (c == ' ' || c == '=' || c == ';')
    ensures Clear(a + ([c] + b)) && a + [c] + b == a + ([c] + b)
  {
    hide SlowAt;
    var x := a + ([c] + b);
    forall j | 0 <= j < |x| ensures !SlowAt(x, j) {
      if j + 6 <= |a| {
        SlowAtPrefix(a, x, j);
      } else if j > |a| {
        SlowAtSuffix(b, x, j, |a| + 1);
      } else if SlowAt(x, j) {
        SlowIsFold(x, j);
        FoldAtNot(x, j, |a|);
      }
    }
  }

  lemma SlowAtSuffix(b: string, x: string, j: nat, n: nat)
    requires n <= j && n <= |x| && x[n..] == b
    ensures SlowAt(x, j) == SlowAt(b, j - n)
  {
    hide Folds;
    if j + 6 <= |x| {
      var u, v := x[j..j + 6], b[j - n..j - n + 6];
      forall k | 0 <= k < 6 ensures u[k] == v[k] {
        assert x[n..][j - n + k] == x[j + k];
      }
      assert u == v;
    }
  }

  lemma FoldAtNot(x: string, j: nat, k: nat)
    requires FoldAt(x, j, "@slow:") && j <= k < j + 6
    ensures x[k] != ' ' && x[k] != '=' && x[k] != ';'
  {
    hide FoldAt;
    SlowIsFold(x, j);
    FoldAtPlain(x, j, "@slow:");
    SpaceIsSpace();
  }

  lemma TrimmedJoin(l: string, s: string)
    requires l != "" && Trimmed(l) && s != "" && Trimmed(s)
    ensures Trimmed(l + ([' '] + s))
  {
    hide IsSpace;
    var x := l + ([' '] + s);
    assert x[0] == l[0] && x[|x| - 1] == s[|s| - 1];
  }

  lemma LeadEndNone(l: string, s: string)
    requires l != "" && IsStop(l[|l| - 1]) && LeadEnd(l) == 0
    ensures LeadEnd(l + ([' '] + s)) == 0
  {
    hide LeadEnd;
    LeadLocal(l, l + ([' '] + s), |l| - 1);
  }

  /** A matched word of letters and symbols holds no white space. */
  lemma SpaceBreaksFold(x: string, i: nat, p: string, k: nat)
    requires Plain(p) && i <= k < i + |p| && k < |x| && IsSpace(x[k])
    ensures !FoldAt(x, i, p)
  {
    hide IsSpace, Folds;
    if FoldAt(x, i, p) {
      FoldAtPlain(x, i, p);
    }
  }

  lemma SuffixFold(x: string, s: string, n: nat, p: string)
    requires n + |s| == |x| && x[n..] == s && |p| <= |s|
    ensures FoldAt(x, |x| - |p|, p) == FoldAt(s, |s| - |p|, p)
  {
    hide Folds;
    assert x[|x| - |p|..|x| - |p| + |p|] == s[|s| - |p|..|s| - |p| + |p|];
  }

  /** A trailing `@end_call` would be one of the last sentence alone. */
  lemma EndCallJoin(l: string, s: string)
    requires Trimmed(s) && s != "" && EndCallAt(s) == |s|
    requires Trimmed(l + ([' '] + s))
    ensures EndCallAt(l + ([' '] + s)) == |l + ([' '] + s)|
  {
    hide IsSpace, FoldAt, RStrip, LStrip, Strip, IsStop, EndCallAt, Trimmed;
    if |s| >= 9 {
      EndCallLong(l, s);
    } else {
      EndCallShort(l, s);
    }
  }

  /** A stripped text ends in `@end_call` exactly if its last nine characters are it. */
  lemma EndCallLast(x: string)
    requires Trimmed(x)
    ensures EndCallAt(x) == |x| <==> |x| < 9 || !FoldAt(x, |x| - 9, "@end_call")
  {
    hide IsSpace, FoldAt, RStrip, LStrip, Strip, IsStop;
    StripTrimmed(x);
  }

  lemma EndCallLong(l: string, s: string)
    requires Trimmed(s) && |s| >= 9 && EndCallAt(s) == |s| && Trimmed(l + ([' '] + s))
    ensures EndCallAt(l + ([' '] + s)) == |l + ([' '] + s)|
  {
    hide FoldAt, EndCallAt, Trimmed;
    var x := l + ([' '] + s);
    EndCallLast(s);
    EndCallLast(x);
    assert x[|l| + 1..] == s;
    SuffixFold(x, s, |l| + 1, "@end_call");
  }

  lemma EndCallShort(l: string, s: string)
    requires |s| < 9 && Trimmed(l + ([' '] + s))
    ensures EndCallAt(l + ([' '] + s)) == |l + ([' '] + s)|
  {
    hide FoldAt, EndCallAt, Trimmed, IsSpace;
    var x := l + ([' '] + s);
    EndCallLast(x);
    SpaceIsSpace();
    if |x| >= 9 {
      SpaceBreaksFold(x, |x| - 9, "@end_call", |l|);
    }
  }

  /** So would a trailing scaffold, because it holds no sentence end. */
  lemma ScaffoldJoin(g: Grammar, l: string, s: string)
    requires l != "" && IsStop(l[|l| - 1]) && Trimmed(s) && s != "" && ScaffoldAt(g, s) == |s|
    requires Trimmed(l + ([' '] + s))
    ensures ScaffoldAt(g, l + ([' '] + s)) == |l + ([' '] + s)|
  {
    hide IsSpace, IsStop, ScaffoldAt, WordEnds, RStrip, Trimmed;
    var x := l + ([' '] + s);
    ScaffoldLast(g, x);
    ScaffoldLast(g, s);
    var e := s[..|s| - 1];
    assert x[..|x| - 1] == l + ([' '] + e);
    assert x[|x| - 1] == s[|s| - 1];
    if s[|s| - 1] == ':' {
      TailJoin(g, l, e);
    }
  }

  predicate ScaffoldEnds(g: Grammar, q: string) {
    WordEnds(g, q, "first") || WordEnds(g, q, "then")
  }

  /** A stripped text ends in a scaffold exactly if a colon ends it and a scaffold word stands before. */
  lemma ScaffoldLast(g: Grammar, x: string)
    requires Trimmed(x) && x != ""
    ensures ScaffoldAt(g, x) == |x| <==> x[|x| - 1] != ':' || !ScaffoldEnds(g, RStrip(x[..|x| - 1]))
  {
    hide IsSpace, RStrip, LStrip, Strip;
    StripTrimmed(x);
  }

  /** What stands before the colon holds no scaffold word that the last sentence does not hold. */
  lemma TailJoin(g: Grammar, l: string, e: string)
    requires l != "" && IsStop(l[|l| - 1]) && !ScaffoldEnds(g, RStrip(e))
    ensures !ScaffoldEnds(g, RStrip(l + ([' '] + e)))
  {
    hide IsSpace, IsStop, WordEnds, RStrip;
    var r := RStrip(e);
    if r == "" {
      BlankScaffold(g, l, e);
    } else {
      RStripPrefix(l + [' '], e);
      assert l + ([' '] + e) == l + [' '] + e;
      WordEndsSuffix(g, l, r, "first");
      WordEndsSuffix(g, l, r, "then");
    }
  }

  lemma BlankTail(e: string)
    requires RStrip(e) == ""
    ensures AllSpace([' '] + e)
  {
    SpaceIsSpace();
    hide IsSpace;
    forall i | 0 <= i < |[' '] + e| ensures IsSpace(([' '] + e)[i]) {
      if i > 0 {
        assert ([' '] + e)[i] == e[i - 1];
      }
    }
  }

  lemma BlankScaffold(g: Grammar, l: string, e: string)
    requires l != "" && IsStop(l[|l| - 1]) && RStrip(e) == ""
    ensures var q := RStrip(l + ([' '] + e)); !WordEnds(g, q, "first") && !WordEnds(g, q, "then")
  {
    hide IsSpace, IsStop, WordEnds, RStrip;
    BlankTail(e);
    StopEnd(l, [' '] + e);
    StopNoWord(g, l, "first");
    StopNoWord(g, l, "then");
  }

  lemma StopEnd(l: string, a: string)
    requires l != "" && IsStop(l[|l| - 1]) && AllSpace(a)
    ensures RStrip(l + a) == l
  {
    hide IsSpace;
    RStripSpaces(l, a);
    StopIsNoSpace(l[|l| - 1]);
    assert RStrip(l) == l;
  }

  lemma {:induction false} RStripPrefix(p: string, e: string)
    requires RStrip(e) != ""
    ensures RStrip(p + e) == p + RStrip(e)
    decreases |e|
  {
    hide IsSpace;
    assert (p + e)[|p + e| - 1] == e[|e| - 1];
    if IsSpace(e[|e| - 1]) {
      assert (p + e)[..|p + e| - 1] == p + e[..|e| - 1];
      RStripPrefix(p, e[..|e| - 1]);
    }
  }

  lemma StopNoWord(g: Grammar, l: string, w: string)
    requires l != "" && IsStop(l[|l| - 1]) && w != "" && Plain(w)
    ensures !WordEnds(g, l, w)
  {
    hide IsStop, Folds;
    if WordEnds(g, l, w) {
      FoldAtPlain(l, |l| - |w|, w);
    }
  }

  lemma WordEndsSuffix(g: Grammar, l: string, r: string, w: string)
    requires !WordEnds(g, r, w) && Plain(w) && r != "" && w != ""
    ensures !WordEnds(g, l + [' '] + r, w)
  {
    hide IsSpace, FoldAt;
    var q := l + [' '] + r;
    assert q[|l|] == ' ' && q[|l| + 1..] == r;
    SpaceIsSpace();
    if |r| >= |w| {
      SuffixFold(q, r, |l| + 1, w);
    } else if |q| >= |w| {
      SpaceBreaksFold(q, |q| - |w|, w, |l|);
    }
  }

  lemma SpeakableParts(g: Grammar, s: string)
    ensures Speakable(g, s) <==>
      && s != "" && s[0] != '@' && Trimmed(s) && Clear(s)
      && LeadEnd(s) == 0 && EndCallAt(s) == |s| && ScaffoldAt(g, s) == |s|
  {
    hide IsSpace, LeadEnd, EndCallAt, ScaffoldAt, HasSlow;
    if Trimmed(s) {
      StripTrimmed(s);
    }
  }

  /** Two canonical sentences on one line are a canonical line. */
  lemma SpeakableJoin(g: Grammar, l: string, s: string)
    requires Speakable(g, l) && IsStop(l[|l| - 1]) && Speakable(g, s)
    ensures Speakable(g, l + ([' '] + s))
  {
    hide Speakable, IsSpace, LeadEnd, EndCallAt, ScaffoldAt, HasSlow, Clear, IsStop, Trimmed;
    SpeakableParts(g, l);
    SpeakableParts(g, s);
    var x := l + ([' '] + s);
    SpeakableParts(g, x);
    assert x[0] == l[0];
    ClearJoin(l, ' ', s);
    TrimmedJoin(l, s);
    LeadEndNone(l, s);
    EndCallJoin(l, s);
    ScaffoldJoin(g, l, s);
  }

  // ---------------------------------------------------------------- directive lines

  /** A relay line is its segment. */
  lemma RelayLineItems(g: Grammar, t: Turn, x: string)
    requires x != "" && Trimmed(x) && !HasSlow(x)
    ensures LineItems(g, t, "@slow:" + ([' '] + x), 0) == (RelayItems(g, x), t)
  {
    hide IsSpace, Strip, RelayItems, SpeechLine, SlowAt;
    var text := "@slow:" + ([' '] + x);
    assert text[0] == '@' && text[|text| - 1] == x[|x| - 1];
    AtIsNoSpace();
    StripTrimmed(text);
    assert SlowAt(text, 0) by {
      SlowIsFold(text, 0);
      SelfFold("@slow:", [' '] + x);
    }
    RelaySpeechLine(g, x);
  }

  lemma AtIsNoSpace()
    ensures !IsSpace('@')
  {}

  lemma SelfFold(p: string, rest: string)
    ensures FoldAt(p + rest, 0, p)
  {
    assert (p + rest)[0..0 + |p|] == p;
  }

  lemma RelaySpeechLine(g: Grammar, x: string)
    requires x != "" && Trimmed(x) && !HasSlow(x)
    ensures SpeechLine(g, "@slow:" + ([' '] + x), 0) == RelayItems(g, x)
  {
    hide IsSpace, Strip, RelayItems, SlowAt, Clean, SpeechItems, RelayAll, BreakSplit, SlowSplit, FindSlow;
    var text := "@slow:" + ([' '] + x);
    RelayStart(x);
    RelayParts(text, x);
    HeadIsFirst(text);
    assert Head(text) == "";
    RelayLine(g, "");
    assert Head("") == "";
    var parts := SlowSplit(text);
    assert parts[0] == "" && parts[1..] == [x];
    EmptySpeech(g);
    assert From(Sentences(""), 0) == [""];
    RelayAllOne(g, x);
  }

  lemma RelayStart(x: string)
    ensures var text := "@slow:" + ([' '] + x); SlowAt(text, 0) && text[6..] == [' '] + x
    ensures FindSlow("@slow:" + ([' '] + x), 0) == 0
  {
    hide SlowAt;
    var text := "@slow:" + ([' '] + x);
    SlowIsFold(text, 0);
    SelfFold("@slow:", [' '] + x);
  }

  lemma SplitSlowAt0(text: string)
    requires SlowAt(text, 0) && FindSlow(text, 0) == 0 && |text| >= 6
    ensures SlowSplit(text) == [""] + SlowSplit(LStrip(text[6..]))
  {
    hide IsSpace, SlowAt;
    assert text[..0] == "";
  }

  lemma RelayParts(text: string, x: string)
    requires SlowAt(text, 0) && FindSlow(text, 0) == 0 && |text| >= 6 && text[6..] == [' '] + x
    requires Trimmed(x) && !HasSlow(x)
    ensures SlowSplit(text) == ["", x]
  {
    hide IsSpace, SlowAt, SlowSplit, LStrip, RStrip, Strip, HasSlow, FindSlow, Trimmed;
    SplitSlowAt0(text);
    SpaceIsSpace();
    LStripSpaces([' '], x);
    StripTrimmed(x);
    ClearSplit(x);
    assert [""] + [x] == ["", x];
  }

  lemma ClearSplit(x: string)
    requires !HasSlow(x)
    ensures SlowSplit(x) == [x]
  {
    hide SlowAt;
  }

  lemma RelayAllOne(g: Grammar, x: string)
    requires Trimmed(x)
    ensures RelayAll(g, [x]) == RelayItems(g, x)
  {
    hide IsSpace, RelayItems;
    StripTrimmed(x);
    NoRelays(g);
    assert [x][1..] == [];
  }

  lemma FoldMismatch(text: string, p: string, k: nat)
    requires k < |p| && k < |text| && !Fold(text[k], p[k])
    ensures !FoldAt(text, 0, p)
  {
    hide Fold;
    if |p| <= |text| {
      assert text[0..0 + |p|][k] == text[k];
    }
  }

  lemma NoEndCall(text: string)
    requires |text| >= 2 && (text[1] == 'h' || text[1] == 'w')
    ensures !FoldAt(text, 0, "@end_call") && !SlowAt(text, 0)
  {
    FoldMismatch(text, "@end_call", 1);
    FoldMismatch(text, "@slow:", 1);
  }

  lemma HoldLine(g: Grammar, t: Turn, reason: HoldReason)
    requires g.lane == Cp && !t.paused
    ensures LineItems(g, t, "@hold" + ([' '] + ReasonText(reason)), 0)
         == ([Hold(reason)], t.(paused := true))
  {
    hide IsSpace, Strip, SpeechLine, ReasonText, FoldAt, SlowAt, Words;
    var word := ReasonText(reason);
    var text := "@hold" + ([' '] + word);
    assert text[0] == '@' && text[1] == 'h' && text[|text| - 1] == word[|word| - 1];
    AtIsNoSpace();
    StripTrimmed(text);
    NoEndCall(text);
    HoldWords(word);
  }

  lemma HoldWords(word: string)
    requires word != "" && NoSpace(word)
    ensures Words("@hold" + ([' '] + word)) == ["@hold", word]
  {
    TwoWords("@hold", word);
  }

  lemma WaitLine(g: Grammar, t: Turn)
    requires !t.paused
    ensures LineItems(g, t, "@wait", 0) == ([Wait], t.(paused := true))
  {
    hide Strip, SpeechLine, FoldAt, SlowAt, Words;
    StripTrimmed("@wait");
    NoEndCall("@wait");
    OneWord("@wait");
  }

  lemma EndCallLine(g: Grammar, t: Turn)
    requires !t.ended
    ensures LineItems(g, t, "@end_call", 0) == ([EndCall], t.(ended := true))
  {
    hide Strip, SpeechLine, Words;
    StripTrimmed("@end_call");
    SelfFold("@end_call", "");
    assert "@end_call" + "" == "@end_call";
    FoldMismatch("@end_call", "@slow:", 1);
  }

  // ---------------------------------------------------------------- pages

  /** A canonical sentence on a line of its own. */
  lemma SpeechOnLine(g: Grammar, t: Turn, l: string)
    requires Speakable(g, l) && !(t.paused && g.pauseEndsSpeech)
    ensures LineItems(g, t, l, 0) == (SpeechItems(g, BreakSplit(l)), t)
  {
    hide Speakable, Strip, SpeechLine, SpeechItems, BreakSplit;
    SpeakableClean(g, l);
    SpeakableLine(g, l);
  }

  /** A canonical sentence at the end of a line that ends a sentence. */
  lemma SpeechJoinsLine(g: Grammar, t: Turn, l: string, s: string)
    requires Speakable(g, l) && IsStop(l[|l| - 1]) && GoodSpeech(g, s)
    requires !(t.paused && g.pauseEndsSpeech)
    ensures var x := l + ([' '] + s);
            && Speakable(g, x)
            && LineItems(g, t, x, 0) == (LineItems(g, t, l, 0).0 + SentenceItems(g, s), t)
  {
    hide Speakable, SpeechItems, BreakSplit, LineItems, IsStop, SentenceItems, Trimmed;
    SpeakableJoin(g, l, s);
    SpeechOnLine(g, t, l);
    SpeechOnLine(g, t, l + ([' '] + s));
    SpeakableParts(g, l);
    SpeakableParts(g, s);
    BreakJoin(l, s);
    SpeechItemsAppend(g, BreakSplit(l), [s]);
    SpeechItemsOne(g, s);
  }

  lemma DirectiveOnLine(g: Grammar, t: Turn, item: Item)
    requires Accepts(g, t, item) && !item.Speech?
    ensures LineItems(g, t, ItemLine(item), 0)
         == (Echo(g, item), Turn(t.paused || item.Hold? || item.Wait?, t.ended || item.EndCall?))
  {
    hide LineItems, RelayItems, HasSlow, Trimmed, RelayText;
    match item {
      case Relay(_, _, _) => RelayLineItems(g, t, RelayText(item));
      case Hold(reason) => HoldLine(g, t, reason);
      case Wait => WaitLine(g, t);
      case EndCall => EndCallLine(g, t);
    }
  }

  lemma ItemLineNoBreak(g: Grammar, t: Turn, item: Item)
    requires Accepts(g, t, item) && !item.Speech?
    ensures '\n' !in ItemLine(item)
  {
    hide RelayItems, HasSlow, RelayText;
  }

  ghost predicate NoBreaks(lines: seq<string>) {
    forall i | 0 <= i < |lines| :: '\n' !in lines[i]
  }

  /** The page of a canonical turn: it parses, line by line, to the echo of every item. */
  ghost predicate PageOf(g: Grammar, items: seq<Item>, p: Page) {
    && NoBreaks(p.lines)
    && (items != [] ==> p.lines != [])
    && ParseLines(g, p.lines) == Parsed(EchoAll(g, items), TurnOf(items))
    && (p.joinable ==> p.lines != [] && Speakable(g, p.lines[|p.lines| - 1]))
  }

  lemma AddSpeech(g: Grammar, items: seq<Item>, p: Page, s: string)
    requires PageOf(g, items, p) && Accepts(g, TurnOf(items), Speech(s))
    ensures AddItem(g, p, Speech(s)).Some?
    ensures PageOf(g, items + [Speech(s)], AddItem(g, p, Speech(s)).value)
  {
    hide Speakable, ParseLines, PageOf, TurnOf, BreakSplit, IsStop;
    if Joins(p) {
      SpeechJoins(g, items, p, s);
    } else {
      SpeechStands(g, items, p, s);
    }
  }

  /** A sentence on a line of its own. */
  lemma SpeechStands(g: Grammar, items: seq<Item>, p: Page, s: string)
    requires PageOf(g, items, p) && GoodSpeech(g, s) && !(TurnOf(items).paused && g.pauseEndsSpeech)
    ensures PageOf(g, items + [Speech(s)], Page(p.lines + [s], true))
  {
    hide Speakable, LineItems, ParseLines, SentenceItems, EchoAll, Pauses, Ends, BreakSplit, IsStop, Trimmed, HasSlow;
    EchoAllAdd(g, items, Speech(s));
    TurnOfAdd(items, Speech(s));
    ParseLinesAdd(g, p.lines, s);
    SpeechOnLine(g, TurnOf(items), s);
    SpeakableParts(g, s);
    SpeechItemsOne(g, s);
  }

  /** A sentence that joins the last line. */
  lemma SpeechJoins(g: Grammar, items: seq<Item>, p: Page, s: string)
    requires PageOf(g, items, p) && GoodSpeech(g, s) && !(TurnOf(items).paused && g.pauseEndsSpeech) && Joins(p)
    ensures var n := |p.lines| - 1;
      PageOf(g, items + [Speech(s)], Page(p.lines[..n] + [p.lines[n] + ([' '] + s)], true))
  {
    hide Speakable, LineItems, ParseLines, SentenceItems, EchoAll, Pauses, Ends, BreakSplit, IsStop, Trimmed, HasSlow;
    EchoAllAdd(g, items, Speech(s));
    TurnOfAdd(items, Speech(s));
    var n := |p.lines| - 1;
    var l, before := p.lines[n], p.lines[..n];
    var t := ParseLines(g, before).turn;
    assert p.lines == before + [l];
    ParseLinesAdd(g, before, l);
    SpeakableTurn(g, t, l, TurnOf(items));
    SpeechJoinsLine(g, t, l, s);
    ParseLinesAdd(g, before, l + ([' '] + s));
    SpeakableParts(g, l + ([' '] + s));
    assert ParseLines(g, before).items + LineItems(g, t, l, 0).0 + SentenceItems(g, s)
        == ParseLines(g, before).items + (LineItems(g, t, l, 0).0 + SentenceItems(g, s));
  }

  /** A speech line does not change the turn. */
  lemma SpeakableTurn(g: Grammar, t: Turn, l: string, after: Turn)
    requires Speakable(g, l) && LineItems(g, t, l, 0).1 == after
    ensures t == after
  {
    hide Speakable, Strip, SpeechLine;
    SpeakableClean(g, l);
  }

  lemma AddDirective(g: Grammar, items: seq<Item>, p: Page, item: Item)
    requires PageOf(g, items, p) && Accepts(g, TurnOf(items), item) && !item.Speech?
    ensures AddItem(g, p, item).Some? && PageOf(g, items + [item], AddItem(g, p, item).value)
  {
    hide LineItems, ParseLines, Echo, EchoAll, ItemLine;
    EchoAllAdd(g, items, item);
    TurnOfAdd(items, item);
    ParseLinesAdd(g, p.lines, ItemLine(item));
    DirectiveOnLine(g, TurnOf(items), item);
    ItemLineNoBreak(g, TurnOf(items), item);
  }

  /** Every canonical turn has a page. */
  lemma {:induction false} CanonicalPage(g: Grammar, items: seq<Item>)
    requires Canonical(g, items)
    ensures Layout(g, items).Some? && PageOf(g, items, Layout(g, items).value)
  {
    hide Accepts, PageOf, AddItem, TurnOf;
    if items == [] {
      EmptyPage(g);
    } else {
      var n := |items| - 1;
      CanonicalPage(g, items[..n]);
      var p := Layout(g, items[..n]).value;
      assert items == items[..n] + [items[n]];
      if items[n].Speech? {
        AddSpeech(g, items[..n], p, items[n].text);
      } else {
        AddDirective(g, items[..n], p, items[n]);
      }
    }
  }

  lemma EmptyPage(g: Grammar)
    ensures PageOf(g, [], Page([], false))
  {}
}
