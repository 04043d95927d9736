/**
 What a text says is canonical, so it can be printed, and its print says it again.
 */
module RoundTripLaws {
  import opened Text
  import opened Wrappers
  import opened Protocol
  import opened Prefixes
  import opened Streaming
  import opened RoundTrip
  import opened Printing

  // ---------------------------------------------------------------- parts of a clear text are clear

  lemma ClearSlice(s: string, i: nat, j: nat)
    requires Clear(s) && i <= j <= |s|
    ensures Clear(s[i..j])
  {
    hide SlowAt;
    var x := s[i..j];
    forall k | 0 <= k < |x| ensures !SlowAt(x, k) {
      SlowLength(x, k);
      if k + 6 <= |x| {
        SlowAtPrefix(x, s[i..], k);
        SlowAtSuffix(s[i..], s, k + i, i);
      }
    }
  }

  lemma ClearStrip(s: string)
    requires Clear(s)
    ensures Clear(Strip(s))
  {
    hide Clear, IsSpace;
    var l := LStrip(s);
    ClearSlice(s, |s| - |l|, |s|);
    assert s[|s| - |l|..|s|] == l;
    ClearSlice(l, 0, |RStrip(l)|);
    assert l[0..|RStrip(l)|] == RStrip(l);
  }

  lemma {:induction false} ClearPieces(s: string, c: char)
    requires Clear(s)
    ensures forall piece | piece in SplitOn(s, c) :: Clear(piece)
    decreases |s|
  {
    hide Clear;
    var e := Find(s, c, 0);
    if e < |s| {
      ClearSlice(s, 0, e);
      ClearSlice(s, e + 1, |s|);
      assert s[0..e] == s[..e] && s[e + 1..|s|] == s[e + 1..];
      ClearPieces(s[e + 1..], c);
    }
  }

  // ---------------------------------------------------------------- facts

  predicate GoodPair(p: (string, string)) {
    IsKey(p.0) && p.1 != "" && Trimmed(p.1) && ';' !in p.1 && Clear(p.1)
  }

  predicate GoodPairs(facts: seq<(string, string)>) {
    forall i | 0 <= i < |facts| :: GoodPair(facts[i])
  }

  lemma KeyPlain(key: string)
    requires IsKey(key)
    ensures key != "" && Trimmed(key) && Clear(key)
    ensures '=' !in key && ';' !in key && ' ' !in key
  {
    hide HasSlow, IsSpace;
    JoinSplit(key, '.');
    KeyChars(SplitOn(key, '.'));
    forall i | 0 <= i < |key| ensures IsKeyChar(key[i]) || key[i] == '.' {}
    NoAtNoSlow(key);
    KeyCharNoSpace(key[0]);
    KeyCharNoSpace(key[|key| - 1]);
  }

  lemma {:induction false} KeyChars(parts: seq<string>)
    requires forall part | part in parts :: IsKeyPart(part)
    ensures forall i | 0 <= i < |Join(parts, ['.'])| ::
      IsKeyChar(Join(parts, ['.'])[i]) || Join(parts, ['.'])[i] == '.'
  {
    hide IsKeyChar;
    if |parts| > 1 {
      KeyChars(parts[1..]);
      var a, b := parts[0], Join(parts[1..], ['.']);
      assert Join(parts, ['.']) == a + ['.'] + b;
      assert IsKeyPart(a);
      forall i | 0 <= i < |a + ['.'] + b| ensures IsKeyChar((a + ['.'] + b)[i]) || (a + ['.'] + b)[i] == '.' {
        if i < |a| {
          assert (a + ['.'] + b)[i] == a[i];
        } else if i > |a| {
          assert (a + ['.'] + b)[i] == b[i - |a| - 1];
        }
      }
    } else if |parts| == 1 {
      assert IsKeyPart(parts[0]);
    }
  }

  lemma KeyCharNoSpace(c: char)
    requires IsKeyChar(c) || c == '.'
    ensures !IsSpace(c)
  {}

  lemma NoAtNoSlow(s: string)
    requires '@' !in s
    ensures !HasSlow(s)
  {
    forall i | 0 <= i < |s| ensures !SlowAt(s, i) {
      if i + 6 <= |s| {
        assert s[i..i + 6][0] == s[i];
      }
    }
  }

  lemma PairFind(pre: string, key: string, value: string)
    requires '=' !in pre && '=' !in key
    ensures var piece, e := pre + (key + ['='] + value), |pre| + |key|;
            Find(piece, '=', 0) == e < |piece| && piece[..e] == pre + key && piece[e + 1..] == value
  {
    var piece, e := pre + (key + ['='] + value), |pre| + |key|;
    assert piece[e] == '=';
    assert forall j | 0 <= j < e :: piece[j] == (pre + key)[j];
    FindIs(piece, '=', e);
  }

  lemma PairIs(piece: string, e: nat, key: string, value: string)
    requires Find(piece, '=', 0) == e < |piece|
    requires Strip(piece[..e]) == key && Strip(piece[e + 1..]) == value && IsKey(key) && value != ""
    ensures PairOf(piece) == Some((key, value))
  {
    hide IsKey, Strip, Find;
  }

  lemma PairRound(pre: string, p: (string, string))
    requires AllSpace(pre) && '=' !in pre && GoodPair(p)
    ensures PairOf(pre + PairText(p)) == Some(p)
  {
    PairRoundParts(pre, p.0, p.1) by {
      KeyPlain(p.0);
    }
  }

  lemma PairRoundParts(pre: string, key: string, value: string)
    requires AllSpace(pre) && '=' !in pre && '=' !in key && Trimmed(key) && IsKey(key)
    requires value != "" && Trimmed(value)
    ensures PairOf(pre + (key + ['='] + value)) == Some((key, value))
  {
    hide IsSpace, IsKey, Strip, LStrip, RStrip, Find, Trimmed, AllSpace, PairOf;
    var piece, e := pre + (key + ['='] + value), |pre| + |key|;
    PairFind(pre, key, value);
    PairStrips(pre, key, value);
    PairIs(piece, e, key, value);
  }

  lemma PairStrips(pre: string, key: string, value: string)
    requires AllSpace(pre) && Trimmed(key) && Trimmed(value)
    ensures Strip(pre + key) == key && Strip(value) == value
  {
    hide IsSpace, Strip, LStrip, RStrip, Trimmed, AllSpace;
    StripSpaces(pre, key);
    StripTrimmed(key);
    StripTrimmed(value);
  }

  lemma StripSpaces(pre: string, s: string)
    requires AllSpace(pre)
    ensures Strip(pre + s) == Strip(s)
  {
    hide IsSpace, LStrip, RStrip, AllSpace;
    LStripSpaces(pre, s);
  }

  lemma FindIs(s: string, c: char, e: nat)
    requires e < |s| && s[e] == c && forall j | 0 <= j < e :: s[j] != c
    ensures Find(s, c, 0) == e
  {}

  lemma PairTextPlain(p: (string, string))
    requires GoodPair(p)
    ensures ';' !in PairText(p) && Clear(PairText(p)) && PairText(p) != "" && Trimmed(PairText(p))
  {
    hide IsSpace, IsKey, Clear;
    KeyPlain(p.0);
    ClearJoin(p.0, '=', p.1);
    var t := PairText(p);
    assert t[0] == p.0[0] && t[|t| - 1] == p.1[|p.1| - 1];
  }

  /** Printed facts parse to the facts. */
  lemma {:induction false} PairsRound(pre: string, facts: seq<(string, string)>)
    requires facts != [] && GoodPairs(facts) && (pre == "" || pre == " ")
    ensures Pairs(pre + PairsText(facts)) == Some(facts)
    decreases |facts|
  {
    hide GoodPair, PairText, PairOf, SplitOn, AllSpace;
    var p := facts[0];
    PreSpace(pre);
    PairRound(pre, p);
    PairTextPlain(p);
    if |facts| == 1 {
      assert pre + PairsText(facts) == pre + PairText(p);
      SplitNone(pre + PairText(p), ';');
      PairsOfOne(pre + PairText(p), p);
      assert facts == [p];
    } else {
      var rest := facts[1..];
      PairsRound(" ", rest);
      assert pre + PairsText(facts) == pre + PairText(p) + [';'] + (" " + PairsText(rest));
      SplitFirst(pre + PairText(p), ';', " " + PairsText(rest));
      PairsOfMore(pre + PairText(p), p, SplitOn(" " + PairsText(rest), ';'), rest);
      assert facts == [p] + rest;
    }
  }

  lemma PreSpace(pre: string)
    requires pre == "" || pre == " "
    ensures AllSpace(pre) && '=' !in pre && ';' !in pre
  {}

  lemma PairsOfOne(piece: string, p: (string, string))
    requires PairOf(piece) == Some(p)
    ensures PairsOf([piece]) == Some([p])
  {
    hide PairOf;
    assert [piece][1..] == [] && PairsOf([]) == Some([]) && [p] + [] == [p];
  }

  lemma PairsOfMore(piece: string, p: (string, string), pieces: seq<string>, rest: seq<(string, string)>)
    requires PairOf(piece) == Some(p) && PairsOf(pieces) == Some(rest)
    ensures PairsOf([piece] + pieces) == Some([p] + rest)
  {
    hide PairOf;
    assert ([piece] + pieces)[1..] == pieces;
  }

  lemma {:induction false} PairsTextPlain(facts: seq<(string, string)>)
    requires facts != [] && GoodPairs(facts)
    ensures PairsText(facts) != "" && Trimmed(PairsText(facts)) && Clear(PairsText(facts))
    decreases |facts|
  {
    hide GoodPair, PairText, Clear, IsSpace;
    var p := facts[0];
    PairTextPlain(p);
    if |facts| > 1 {
      var rest := PairsText(facts[1..]);
      PairsTextPlain(facts[1..]);
      EmptyClear();
      ClearJoin("", ' ', rest);
      assert "" + ([' '] + rest) == [' '] + rest;
      ClearJoin(PairText(p), ';', [' '] + rest);
      var t := PairText(p) + [';'] + ([' '] + rest);
      assert PairsText(facts) == t && t[0] == PairText(p)[0] && t[|t| - 1] == rest[|rest| - 1];
    }
  }

  lemma EmptyClear()
    ensures Clear("")
  {}

  lemma PairGood(piece: string)
    requires Clear(piece) && ';' !in piece && PairOf(piece).Some?
    ensures GoodPair(PairOf(piece).value)
  {
    hide Clear, IsSpace, IsKey, LStrip, RStrip, Trimmed, Strip;
    var e := Find(piece, '=', 0);
    ValueGood(piece, e + 1);
  }

  lemma ValueGood(piece: string, i: nat)
    requires Clear(piece) && ';' !in piece && i <= |piece|
    ensures Clear(Strip(piece[i..])) && ';' !in Strip(piece[i..]) && Trimmed(Strip(piece[i..]))
  {
    hide Clear, IsSpace, Strip;
    ClearSlice(piece, i, |piece|);
    assert piece[i..|piece|] == piece[i..];
    ClearStrip(piece[i..]);
    StripSubset(piece[i..], ';');
  }

  lemma StripSubset(s: string, c: char)
    requires c !in s
    ensures c !in Strip(s)
  {
    hide IsSpace;
  }

  /** Parsed facts are well formed. */
  lemma {:induction false} PairsOfGood(pieces: seq<string>)
    requires forall piece | piece in pieces :: Clear(piece) && ';' !in piece
    requires PairsOf(pieces).Some?
    ensures GoodPairs(PairsOf(pieces).value) && |PairsOf(pieces).value| == |pieces|
  {
    hide PairOf, GoodPair, Clear;
    if pieces != [] {
      PairGood(pieces[0]);
      PairsOfGood(pieces[1..]);
    }
  }

  lemma PairsGood(rest: string)
    requires Clear(rest) && Pairs(rest).Some?
    ensures Pairs(rest).value != [] && GoodPairs(Pairs(rest).value)
  {
    hide PairOf, GoodPair, Clear, SplitOn, PairsOf;
    ClearPieces(rest, ';');
    forall piece | piece in SplitOn(rest, ';') ensures Clear(piece) && ';' !in piece {
      var k :| 0 <= k < |SplitOn(rest, ';')| && SplitOn(rest, ';')[k] == piece;
    }
    PairsOfGood(SplitOn(rest, ';'));
  }

  // ---------------------------------------------------------------- relays

  /** A segment splits at its first space into a head and a stripped rest. */
  lemma HeadRest(head: string, rest: string)
    requires ' ' !in head && Trimmed(rest)
    ensures var segment := head + [' '] + rest;
            Find(segment, ' ', 0) == |head| && segment[..|head|] == head
            && Strip(segment[|head| + 1..]) == rest
  {
    hide IsSpace, Strip, LStrip, RStrip, Trimmed, Find;
    HeadSplits(head, rest);
    StripTrimmed(rest);
  }

  /** The first space is the one after the head. */
  lemma HeadSplits(head: string, rest: string)
    requires ' ' !in head
    ensures var segment := head + [' '] + rest;
            Find(segment, ' ', 0) == |head| && segment[..|head|] == head && segment[|head| + 1..] == rest
  {
    hide Find;
    var segment := head + [' '] + rest;
    assert segment[|head|] == ' ';
    assert forall j | 0 <= j < |head| :: segment[j] == head[j];
    FindIs(segment, ' ', |head|);
  }

  predicate RelayHead(head: string) {
    head == "fact" || head == "correction" || head == "request" || head == "revoke"
  }

  lemma RelayTextGood(head: string, rest: string)
    requires RelayHead(head) && rest != "" && Trimmed(rest) && Clear(rest)
    ensures var t := head + [' '] + rest; t != "" && Trimmed(t) && Clear(t)
  {
    hide IsSpace, HasSlow;
    NoAtNoSlow(head);
    ClearJoin(head, ' ', rest);
    var t := head + [' '] + rest;
    assert t[0] == head[0] && t[|t| - 1] == rest[|rest| - 1];
    assert IsKeyChar(t[0]);
    KeyCharNoSpace(t[0]);
  }

  lemma FactsParse(g: Grammar, head: string, rest: string, facts: seq<(string, string)>)
    requires Trimmed(rest) && Pairs(rest) == Some(facts)
    requires head == "fact" || (head == "correction" && g.lane == User && |facts| == 1)
    ensures RelayItems(g, head + [' '] + rest)
         == [Relay(if head == "fact" then Fact else Correction, "", facts)]
  {
    hide Trimmed, Pairs, LowerIs, Strip;
    HeadRest(head, rest);
  }

  lemma FactsGood(g: Grammar, head: string, facts: seq<(string, string)>)
    requires facts != [] && GoodPairs(facts)
    requires head == "fact" || (head == "correction" && g.lane == User && |facts| == 1)
    ensures GoodRelay(g, Relay(if head == "fact" then Fact else Correction, "", facts))
    ensures var r := Relay(if head == "fact" then Fact else Correction, "", facts);
            RelayItems(g, RelayText(r)) == [r]
  {
    hide GoodPairs, PairsText, Clear, Trimmed, Pairs, RelayItems, Said;
    var rest := PairsText(facts);
    PairsTextPlain(facts);
    PairsRound("", facts);
    assert "" + rest == rest;
    RelayTextGood(head, rest);
    FactsParse(g, head, rest, facts);
    SaidTwo(Relay(if head == "fact" then Fact else Correction, "", facts), Issue(MalformedRelay, ""));
  }

  lemma TextParse(g: Grammar, head: string, rest: string)
    requires (head == "request" || head == "revoke") && g.lane == User && rest != "" && Trimmed(rest)
    ensures RelayItems(g, head + [' '] + rest)
         == [Relay(if head == "request" then Request else Revoke, rest, [])]
  {
    hide Trimmed, Pairs, LowerIs, Strip;
    HeadRest(head, rest);
  }

  lemma TextGood(g: Grammar, head: string, rest: string)
    requires (head == "request" || head == "revoke") && g.lane == User
    requires rest != "" && Trimmed(rest) && Clear(rest)
    ensures var r := Relay(if head == "request" then Request else Revoke, rest, []);
            GoodRelay(g, r) && RelayItems(g, RelayText(r)) == [r]
  {
    hide Clear, Trimmed, RelayItems, Said;
    TextParse(g, head, rest);
    RelayTextGood(head, rest);
    SaidTwo(Relay(if head == "request" then Request else Revoke, rest, []), Issue(MalformedRelay, ""));
  }

  /** A typed relay of a segment is canonical and faithful. */
  lemma TypedGood(g: Grammar, segment: string)
    requires Trimmed(segment) && Clear(segment)
    requires RelayItems(g, segment)[0].Relay? && RelayItems(g, segment)[0].kind != Note
    ensures var r := RelayItems(g, segment)[0]; GoodRelay(g, r) && RelayItems(g, RelayText(r)) == [r]
  {
    hide Clear, Trimmed, Pairs, Strip, GoodRelay, RelayItems, RelayText;
    SegmentCases(g, segment);
    var item := RelayItems(g, segment)[0];
    var e := Find(segment, ' ', 0);
    ClearSlice(segment, e + 1, |segment|);
    assert segment[e + 1..|segment|] == segment[e + 1..];
    ClearStrip(segment[e + 1..]);
    if item.kind == Fact || item.kind == Correction {
      PairsGood(Strip(segment[e + 1..]));
      FactsGood(g, segment[..e], item.facts);
    } else {
      TextGood(g, segment[..e], item.note);
    }
  }

  /** A segment says at most one relay. */
  lemma SegmentSays(g: Grammar, segment: string)
    ensures var items := RelayItems(g, segment);
            items != [] && Said(items) == if items[0].Issue? then [] else [items[0]]
  {
    hide Pairs, Strip, RelayItems, Find;
    SegmentCases(g, segment);
    var items := RelayItems(g, segment);
    var item := items[0];
    SaidTwo(if item.Issue? then Wait else item, if item.Issue? then item else Issue(MalformedRelay, ""));
    if |items| == 2 {
      SaidTwo(item, items[1]);
      assert items == [item, items[1]];
    } else {
      assert items == [item];
    }
  }

  /** Every relay a segment says is canonical; if the segment is in order, so is its print. */
  lemma SegmentGood(g: Grammar, segment: string, r: Item)
    requires Trimmed(segment) && Clear(segment) && r in Said(RelayItems(g, segment))
    ensures GoodRelay(g, r)
    ensures NoIssue(RelayItems(g, segment)) ==> RelayItems(g, RelayText(r)) == [r]
  {
    hide Clear, Trimmed, Pairs, Strip, GoodRelay, RelayItems, RelayText, NoIssue;
    SegmentSays(g, segment);
    SegmentCases(g, segment);
    if r.kind == Note {
      NoteGood(g, segment, r);
    } else {
      TypedGood(g, segment);
    }
  }

  /** What a segment can say: one relay or one issue, or a note with an issue. */
  lemma SegmentCases(g: Grammar, segment: string)
    ensures var items := RelayItems(g, segment);
            var e := Find(segment, ' ', 0);
            var head, rest := segment[..e], if e < |segment| then Strip(segment[e + 1..]) else "";
            && 1 <= |items| <= 2
            && (items[0].Issue? || items[0].Relay?)
            && (|items| == 2 ==> items[0] == Relay(Note, segment, []) && items[1].Issue?)
            && (items[0].Relay? ==> segment != "")
            && (items[0].Relay? && items[0].kind == Note ==> items[0] == Relay(Note, segment, []))
            && (items[0].Relay? && items[0].kind != Note ==>
                  var k := items[0].kind;
                  && e < |segment|
                  && (k == Fact || k == Correction ==>
                        && head == (if k == Fact then "fact" else "correction")
                        && (k == Correction ==> g.lane == User && |items[0].facts| == 1)
                        && Pairs(rest) == Some(items[0].facts)
                        && items[0] == Relay(k, "", items[0].facts))
                  && (k == Request || k == Revoke ==>
                        && head == (if k == Request then "request" else "revoke") && g.lane == User
                        && rest != "" && items[0] == Relay(k, rest, [])))
  {
    hide Pairs, LowerIs, Strip;
    PairsEmpty();
  }

  lemma PairsEmpty()
    ensures Pairs("").None?
  {
    assert Find("", '=', 0) == 0 && SplitOn("", ';') == [""];
  }

  lemma NoteGood(g: Grammar, segment: string, r: Item)
    requires segment != "" && Trimmed(segment) && Clear(segment) && r in Said(RelayItems(g, segment))
    requires |Said(RelayItems(g, segment))| == 1
    ensures r == Relay(Note, segment, []) ==>
      GoodRelay(g, r) && (NoIssue(RelayItems(g, segment)) ==> RelayItems(g, RelayText(r)) == [r])
  {
    hide RelayItems, Clear, Trimmed;
    if NoIssue(RelayItems(g, segment)) {
      SaidAll(RelayItems(g, segment));
    }
    assert Said(RelayItems(g, segment)) == [r];
  }

  // ---------------------------------------------------------------- lines

  /** Items that a line adds without touching the turn. */
  predicate Adds(g: Grammar, t: Turn, items: seq<Item>) {
    forall i | 0 <= i < |items| :: (items[i].Speech? || items[i].Relay?) && Accepts(g, t, items[i])
  }

  lemma AddsAppend(g: Grammar, t: Turn, a: seq<Item>, b: seq<Item>)
    requires Adds(g, t, a) && Adds(g, t, b)
    ensures Adds(g, t, a + b)
  {
    hide Accepts;
  }

  lemma FaithfulAppend(g: Grammar, a: seq<Item>, b: seq<Item>)
    requires Faithful(g, a) && Faithful(g, b)
    ensures Faithful(g, a + b)
  {
    hide Echo;
  }

  lemma NoIssueAppend(a: seq<Item>, b: seq<Item>)
    ensures NoIssue(a + b) <==> NoIssue(a) && NoIssue(b)
  {
    assert forall i | 0 <= i < |a| :: (a + b)[i] == a[i];
    assert forall i | 0 <= i < |b| :: (a + b)[|a| + i] == b[i];
  }

  /** What some items of a line say: canonical items, and faithful ones if there is no issue. */
  predicate SaysWell(g: Grammar, t: Turn, items: seq<Item>) {
    Adds(g, t, Said(items)) && (NoIssue(items) ==> Faithful(g, Said(items)))
  }

  lemma SaysWellAppend(g: Grammar, t: Turn, a: seq<Item>, b: seq<Item>)
    requires SaysWell(g, t, a) && SaysWell(g, t, b)
    ensures SaysWell(g, t, a + b)
  {
    hide Adds, Faithful, NoIssue;
    SaidAppend(a, b);
    AddsAppend(g, t, Said(a), Said(b));
    NoIssueAppend(a, b);
    if NoIssue(a + b) {
      FaithfulAppend(g, Said(a), Said(b));
    }
  }

  lemma SentenceWell(g: Grammar, t: Turn, s: string)
    requires BreakSplit(s) == [s] && !(t.paused && g.pauseEndsSpeech)
    ensures SaysWell(g, t, SentenceItems(g, s))
  {
    hide Speakable, Inline, BreakSplit;
    SaidTwo(Speech(s), Issue(InlineDirective, s));
    SaidTwo(Speech(s), Issue(if StartsWith(s, '@') then StrayDirective else ScaffoldEcho, s));
    assert !NoIssue([Speech(s), Issue(InlineDirective, s)]) by {
      assert [Speech(s), Issue(InlineDirective, s)][1].Issue?;
    }
    assert Inline(g, s) || !Speakable(g, s) || Echo(g, Speech(s)) == [Speech(s)];
  }

  lemma NothingWell(g: Grammar, t: Turn)
    ensures SaysWell(g, t, [])
  {}

  lemma IssueWell(g: Grammar, t: Turn, issue: Item)
    requires issue.Issue?
    ensures SaysWell(g, t, [issue])
  {
    SaidTwo(Wait, issue);
    assert ![issue][0].Issue? || !NoIssue([issue]);
  }

  lemma {:induction false} SpeechItemsWell(g: Grammar, t: Turn, ss: seq<string>)
    requires !(t.paused && g.pauseEndsSpeech)
    requires forall s | s in ss :: BreakSplit(s) == [s]
    ensures SaysWell(g, t, SpeechItems(g, ss))
  {
    hide SentenceItems, SaysWell, BreakSplit;
    NothingWell(g, t);
    if ss != [] {
      SpeechItemsWell(g, t, ss[1..]);
      SentenceWell(g, t, ss[0]);
      var first := if ss[0] != "" then SentenceItems(g, ss[0]) else [];
      SaysWellAppend(g, t, first, SpeechItems(g, ss[1..]));
    }
  }

  /** A sentence of a split text is a sentence. */
  lemma {:induction false} PieceWhole(x: string)
    ensures forall s | s in BreakSplit(x) :: BreakSplit(s) == [s]
    decreases |x|
  {
    hide IsSpace, IsStop, BreakSplit;
    var i := BreakAt(x, 1);
    if i < |x| {
      var j := SkipSpaces(x, i);
      BreakStep(x, i, j);
      PieceWhole(x[j..]);
      assert BreakAt(x[..i], 1) == i;
      BreakWhole(x[..i]);
    } else {
      BreakWhole(x);
    }
  }

  lemma LStripSubset(s: string, c: char)
    requires c !in s
    ensures c !in LStrip(s)
  {
    hide IsSpace;
  }

  lemma HeadClear(s: string)
    requires '\n' !in s
    ensures Clear(Head(s))
  {
    hide IsSpace, SlowAt;
    var k := FindSlow(s, 0);
    var head := s[..k];
    forall j | 0 <= j < k ensures !SlowAt(head, j) {
      SlowLength(head, j);
      if j + 6 <= k {
        SlowAtPrefix(head, s, j);
      }
    }
  }

  lemma {:induction false} SlowPartsClear(s: string)
    requires '\n' !in s
    ensures forall part | part in SlowSplit(s) :: Clear(part)
    decreases |s|
  {
    hide IsSpace, SlowAt, Clear, FindSlow;
    HeadClear(s);
    var k := FindSlow(s, 0);
    assert k == |s| ==> Head(s) == s;
    if k < |s| {
      SlowLength(s, k);
      LStripSubset(s[k + 6..], '\n');
      SlowPartsClear(LStrip(s[k + 6..]));
    }
  }

  lemma {:induction false} RelayAllWell(g: Grammar, t: Turn, segments: seq<string>)
    requires forall part | part in segments :: Clear(part)
    ensures SaysWell(g, t, RelayAll(g, segments))
  {
    hide Clear, RelayItems, SaysWell, Strip;
    NothingWell(g, t);
    if segments != [] {
      RelayAllWell(g, t, segments[1..]);
      ClearStrip(segments[0]);
      RelayWell(g, t, Strip(segments[0]));
      SaysWellAppend(g, t, RelayItems(g, Strip(segments[0])), RelayAll(g, segments[1..]));
    }
  }

  lemma RelayWell(g: Grammar, t: Turn, segment: string)
    requires Trimmed(segment) && Clear(segment)
    ensures SaysWell(g, t, RelayItems(g, segment))
  {
    hide Clear, Trimmed, RelayItems, GoodRelay;
    forall r | r in Said(RelayItems(g, segment))
      ensures r.Relay? && GoodRelay(g, r)
      ensures NoIssue(RelayItems(g, segment)) ==> RelayItems(g, RelayText(r)) == [r]
    {
      SegmentGood(g, segment, r);
      GoodIsRelay(g, r);
    }
  }

  lemma GoodIsRelay(g: Grammar, r: Item)
    requires GoodRelay(g, r)
    ensures r.Relay?
  {
    hide RelayItems;
  }

  lemma SpeechLineWell(g: Grammar, t: Turn, text: string)
    requires '\n' !in text && !IsDirective(text) && !Late(g, t, text)
    ensures SaysWell(g, t, SpeechLine(g, text, 0))
  {
    hide SaysWell, Clean, SlowSplit, Sentences, RelayAll, SpeechItems, SlowAt, Clear;
    SlowPartsClear(text);
    var parts := SlowSplit(text);
    RelayAllWell(g, t, parts[1..]);
    var (spoken, cut) := Clean(g, parts[0]);
    SpokenWell(g, t, text);
    var stray :=
      if StartsWith(spoken, '@') then [Issue(StrayDirective, spoken)]
      else if cut then [Issue(InlineDirective, "@end_call")]
      else [];
    NothingWell(g, t);
    if stray != [] {
      IssueWell(g, t, stray[0]);
    }
    var speech := SpeechItems(g, From(Sentences(spoken), 0));
    SaysWellAppend(g, t, speech, stray);
    SaysWellAppend(g, t, speech + stray, RelayAll(g, parts[1..]));
  }

  lemma SpokenWell(g: Grammar, t: Turn, text: string)
    requires !IsDirective(text) && !Late(g, t, text)
    ensures SaysWell(g, t, SpeechItems(g, From(Sentences(Clean(g, SlowSplit(text)[0]).0), 0)))
  {
    hide SaysWell, Clean, SlowSplit, SpeechItems, SlowAt, BreakSplit, Head;
    var spoken := Clean(g, SlowSplit(text)[0]).0;
    assert From(Sentences(spoken), 0) == Sentences(spoken);
    if t.paused && g.pauseEndsSpeech {
      HeadIsFirst(text);
      RelayLine(g, text);
      EmptySpeech(g);
      NothingWell(g, t);
    } else {
      PieceWhole(spoken);
      SpeechItemsWell(g, t, Sentences(spoken));
    }
  }

  // ---------------------------------------------------------------- texts

  lemma TurnOfSame(items: seq<Item>, item: Item)
    requires item.Speech? || item.Relay?
    ensures TurnOf(items + [item]) == TurnOf(items)
  {
    hide Pauses, Ends;
    TurnOfAdd(items, item);
  }

  lemma {:induction false} CanonicalAppend(g: Grammar, a: seq<Item>, b: seq<Item>)
    requires Canonical(g, a) && Adds(g, TurnOf(a), b)
    ensures Canonical(g, a + b) && TurnOf(a + b) == TurnOf(a)
  {
    hide Accepts, TurnOf, Canonical;
    if b == [] {
      assert a + b == a;
    } else {
      var n := |b| - 1;
      CanonicalAppend(g, a, b[..n]);
      CanonicalAdd(g, a + b[..n], b[n]);
      TurnOfSame(a + b[..n], b[n]);
      assert a + b == a + b[..n] + [b[n]];
    }
  }

  /** A directive line says one item that the turn accepts, or an issue. */
  lemma DirectiveWell(g: Grammar, t: Turn, text: string)
    ensures var (items, turn) := Directive(g, t, text);
            && |items| == 1
            && (items[0].Issue? ==> turn == t)
            && (!items[0].Issue? ==>
                  && !items[0].Speech? && !items[0].Relay? && Accepts(g, t, items[0])
                  && turn == Turn(t.paused || items[0].Hold? || items[0].Wait?, t.ended || items[0].EndCall?))
  {
    hide FoldAt, Words, ReasonOf, GoodSpeech, GoodRelay;
  }

  /** What has been said so far is canonical, and faithful if there was no issue. */
  ghost predicate Sound(g: Grammar, p: Parsed) {
    && Canonical(g, Said(p.items))
    && p.turn == TurnOf(Said(p.items))
    && (NoIssue(p.items) ==> Faithful(g, Said(p.items)))
  }

  lemma SoundItems(g: Grammar, p: Parsed, more: seq<Item>)
    requires Sound(g, p) && SaysWell(g, p.turn, more)
    ensures Sound(g, Parsed(p.items + more, p.turn))
  {
    hide Canonical, TurnOf, NoIssue, Faithful, Adds;
    SaidAppend(p.items, more);
    CanonicalAppend(g, Said(p.items), Said(more));
    NoIssueAppend(p.items, more);
    if NoIssue(p.items + more) {
      FaithfulAppend(g, Said(p.items), Said(more));
    }
  }

  lemma SoundDirective(g: Grammar, p: Parsed, text: string)
    requires Sound(g, p)
    ensures var (items, turn) := Directive(g, p.turn, text); Sound(g, Parsed(p.items + items, turn))
  {
    hide Directive, SaysWell, Accepts, NoIssue, Pauses, Ends;
    DirectiveWell(g, p.turn, text);
    var (items, turn) := Directive(g, p.turn, text);
    var item := items[0];
    assert items == [item];
    if item.Issue? {
      IssueWell(g, p.turn, item);
      SoundItems(g, p, [item]);
    } else {
      SaidTwo(item, Issue(EmptyTurn, ""));
      SaidAppend(p.items, [item]);
      CanonicalAdd(g, Said(p.items), item);
      TurnOfAdd(Said(p.items), item);
      NoIssueAppend(p.items, [item]);
      assert Faithful(g, [item]);
      if NoIssue(p.items + [item]) {
        FaithfulAppend(g, Said(p.items), [item]);
      }
    }
  }

  lemma SoundLine(g: Grammar, p: Parsed, raw: string)
    requires Sound(g, p) && '\n' !in raw
    ensures var (items, turn) := LineItems(g, p.turn, raw, 0); Sound(g, Parsed(p.items + items, turn))
  {
    hide Sound, Directive, SpeechLine, Strip, IsDirective, Late, SaysWell;
    StripSubset(raw, '\n');
    var text := Strip(raw);
    if IsDirective(text) {
      SoundDirective(g, p, text);
    } else if Late(g, p.turn, text) {
      NothingWell(g, p.turn);
      IssueWell(g, p.turn, Issue(SpeechAfterPause, text));
      SoundItems(g, p, if text != "" then [Issue(SpeechAfterPause, text)] else []);
    } else {
      SpeechLineWell(g, p.turn, text);
      SoundItems(g, p, SpeechLine(g, text, 0));
    }
  }

  lemma {:induction false} ParsedSound(g: Grammar, lines: seq<string>)
    requires NoBreaks(lines)
    ensures Sound(g, ParseLines(g, lines))
  {
    hide Sound, LineItems;
    if lines == [] {
      NothingSound(g);
    } else {
      var n := |lines| - 1;
      ParsedSound(g, lines[..n]);
      SoundLine(g, ParseLines(g, lines[..n]), lines[n]);
    }
  }

  lemma NothingSound(g: Grammar)
    ensures Sound(g, Parsed([], START))
  {}

  // ---------------------------------------------------------------- the laws

  lemma ClosingQuiet(items: seq<Item>)
    requires NoIssue(Closing(items))
    ensures Closing(items) == []
  {
    hide AnyItem;
    assert [Issue(EmptyTurn, "")][0].Issue?;
  }

  /** Whatever a text says is canonical; without an issue, every item is what its own print says. */
  lemma MeaningCanonical(g: Grammar, text: string)
    ensures Canonical(g, Said(Meaning(g, text)))
    ensures NoIssue(Meaning(g, text)) ==> Faithful(g, Meaning(g, text)) && Meaning(g, text) != []
  {
    hide Canonical, SplitOn, ParseLines, Faithful;
    var lines := SplitOn(text, '\n');
    ParsedSound(g, lines);
    var items := ParseLines(g, lines).items;
    SaidAppend(items, Closing(items));
    SaidTwo(Wait, Issue(EmptyTurn, ""));
    assert Said(items) + [] == Said(items);
    if NoIssue(Meaning(g, text)) {
      NoIssueAppend(items, Closing(items));
      ClosingQuiet(items);
      SaidAll(items);
      assert items + [] == items;
    }
  }

  /** The canonical text of a canonical turn parses to the echo of its items. */
  lemma TextMeans(g: Grammar, items: seq<Item>)
    requires Canonical(g, items)
    ensures TurnText(g, items).Some?
    ensures Meaning(g, TurnText(g, items).value)
         == if items == [] then [Issue(EmptyTurn, "")] else EchoAll(g, items)
    ensures Said(Meaning(g, TurnText(g, items).value)) == items
  {
    hide Canonical, ParseLines, EchoAll, SplitOn, Join, AnyItem, Layout, TurnOf, Speakable;
    CanonicalPage(g, items);
    EchoAllSays(g, items);
    SaidNoIssue(EchoAll(g, items));
    SaidTwo(Wait, Issue(EmptyTurn, ""));
    var lines := Layout(g, items).value.lines;
    if items == [] {
      EmptyText(g);
    } else {
      SplitJoin(lines, '\n');
      assert EchoAll(g, items) + [] == EchoAll(g, items);
    }
  }

  lemma EmptyText(g: Grammar)
    ensures TurnText(g, []) == Some("") && Meaning(g, "") == [Issue(EmptyTurn, "")]
  {
    hide LineItems;
    SplitNone("", '\n');
    EmptyLine(g, START);
    assert [""][..0] == [];
    assert ParseLines(g, [""]).items == [];
  }

  /**
   On every text, what it says is a fixpoint: it prints, and the print says the same, issues aside.
   */
  lemma PrintParseFixpoint(g: Grammar, text: string)
    ensures var said := Said(Meaning(g, text));
            && TurnText(g, said).Some?
            && Said(Meaning(g, TurnText(g, said).value)) == said
  {
    hide Meaning, TurnText, Canonical;
    MeaningCanonical(g, text);
    TextMeans(g, Said(Meaning(g, text)));
  }

  /** A text without issues prints to a text that means exactly the same items. */
  lemma PrintParseIdentity(g: Grammar, text: string)
    requires NoIssue(Meaning(g, text))
    ensures TurnText(g, Meaning(g, text)).Some?
    ensures Meaning(g, TurnText(g, Meaning(g, text)).value) == Meaning(g, text)
  {
    hide Meaning, TurnText, Canonical, NoIssue;
    var items := Meaning(g, text);
    MeaningCanonical(g, text);
    SaidAll(items);
    TextMeans(g, items);
    FaithfulEcho(g, items);
  }
}
