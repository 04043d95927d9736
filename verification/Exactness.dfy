/**
 Which turns come back from their own print, item by item: what a caller can look at in an item
 before it prints a turn, without parsing the print.
 */
module Exactness {
  import opened Text
  import opened Protocol
  import opened Prefixes
  import opened RoundTrip
  import opened RoundTripLaws

  // ---------------------------------------------------------------- items

  /** No sentence ends inside: no stop is followed by white space. */
  predicate OneSentence(s: string) {
    forall i | 0 < i < |s| :: !(IsStop(s[i - 1]) && IsSpace(s[i]))
  }

  /** Text that a line can hold: stripped, on one line, without a relay in it. */
  predicate LineText(s: string) {
    s != "" && Trimmed(s) && Clear(s)
  }

  /** What stands before the first space of a segment, and what is left after it. */
  function HeadOf(segment: string): string
  {
    segment[..Find(segment, ' ', 0)]
  }

  function RestOf(segment: string): string
  {
    var e := Find(segment, ' ', 0);
    if e < |segment| then Strip(segment[e + 1..]) else ""
  }

  /** A note that begins like a typed relay is still a note if it is not one in this lane. */
  predicate NoteStands(g: Grammar, note: string) {
    var head, rest := HeadOf(note), RestOf(note);
    && (head in ["correction", "request", "revoke"] ==> g.lane == User)
    && (head == "fact" ==> Pairs(rest).None?)
    && (head == "correction" ==> Pairs(rest).None? || |Pairs(rest).value| != 1)
    && (head in ["request", "revoke"] ==> rest == "")
  }

  /** A note that begins with no word that looks like the type of a relay. */
  predicate NoteQuiet(g: Grammar, note: string) {
    var head := HeadOf(note);
    && !LowerIs(head, "fact") && !LowerIs(head, "correction") && !LowerIs(head, "request") && !LowerIs(head, "revoke")
    && !(g.lowerWord(head) && Pairs(RestOf(note)).Some?)
  }

  /** A relay of the fields its kind has, in a lane that has the kind. */
  predicate WellTyped(g: Grammar, r: Item)
    requires r.Relay?
  {
    match r.kind
    case Fact => r.note == "" && r.facts != [] && GoodPairs(r.facts)
    case Correction => r.note == "" && |r.facts| == 1 && GoodPairs(r.facts) && g.lane == User
    case Request => r.facts == [] && LineText(r.note) && g.lane == User
    case Revoke => r.facts == [] && LineText(r.note) && g.lane == User
    case Note => r.facts == [] && LineText(r.note) && NoteStands(g, r.note)
  }

  /** The item may be printed in a turn that is so far `t`. */
  predicate Writable(g: Grammar, t: Turn, item: Item) {
    match item
    case Speech(s) => Speakable(g, s) && OneSentence(s) && !(t.paused && g.pauseEndsSpeech)
    case Relay(_, _, _) => WellTyped(g, item)
    case Hold(_) => g.lane == Cp && !t.paused
    case Wait => !t.paused
    case EndCall => !t.ended
    case Issue(_, _) => false
  }

  /** Nothing in the item is counted as an issue when it is read. */
  predicate QuietItem(g: Grammar, item: Item) {
    match item
    case Speech(s) => !Inline(g, s)
    case Relay(kind, note, _) => kind == Note ==> NoteQuiet(g, note)
    case _ => true
  }

  predicate WritableTurn(g: Grammar, items: seq<Item>) {
    forall i | 0 <= i < |items| :: Writable(g, TurnOf(items[..i]), items[i])
  }

  predicate QuietTurn(g: Grammar, items: seq<Item>) {
    forall i | 0 <= i < |items| :: QuietItem(g, items[i])
  }

  // ---------------------------------------------------------------- speech

  lemma OneSentenceSplits(s: string)
    ensures OneSentence(s) <==> BreakSplit(s) == [s]
  {
    hide IsSpace, IsStop;
    var i := BreakAt(s, 1);
    if i == |s| {
      BreakWhole(s);
    } else {
      BreakStep(s, i, SkipSpaces(s, i));
      assert (BreakSplit(s))[0] == s[..i];
      assert |s[..i]| < |s|;
    }
  }

  // ---------------------------------------------------------------- notes

  /** A segment says a note of itself exactly when it stands as one. */
  lemma NoteSaid(g: Grammar, note: string)
    ensures var items := RelayItems(g, note);
      && (note != "" && NoteStands(g, note) <==> items != [] && items[0] == Relay(Note, note, []))
      && (note != "" && NoteStands(g, note) ==> (items == [Relay(Note, note, [])] <==> NoteQuiet(g, note)))
  {
    hide Pairs, Strip, Find;
    assert "fact" != "correction" && "request" != "revoke" && "fact" != "request";
    LowerSelf();
  }

  lemma LowerSelf()
    ensures LowerIs("fact", "fact") && LowerIs("correction", "correction")
    ensures LowerIs("request", "request") && LowerIs("revoke", "revoke")
  {}

  // ---------------------------------------------------------------- relays

  /** A well typed relay comes back from its print, and a quiet one without an issue. */
  lemma WellTypedReturns(g: Grammar, r: Item)
    requires r.Relay? && WellTyped(g, r)
    ensures GoodRelay(g, r)
    ensures QuietItem(g, r) <==> RelayItems(g, RelayText(r)) == [r]
  {
    hide GoodRelay, RelayItems, GoodPairs, NoteStands, NoteQuiet, Clear, Trimmed;
    match r.kind {
      case Fact => FactsGood(g, "fact", r.facts);
      case Correction => FactsGood(g, "correction", r.facts);
      case Request => TextGood(g, "request", r.note);
      case Revoke => TextGood(g, "revoke", r.note);
      case Note =>
        NoteSaid(g, r.note);
        NoteReturns(g, r);
    }
  }

  lemma NoteReturns(g: Grammar, r: Item)
    requires r.Relay? && r.kind == Note && LineText(r.note)
    requires RelayItems(g, r.note) != [] && RelayItems(g, r.note)[0] == r
    ensures GoodRelay(g, r)
  {
    hide RelayItems, Clear, Trimmed, Said;
    SegmentSays(g, r.note);
  }

  /** What comes back from its print was well typed. */
  lemma ReturnsWellTyped(g: Grammar, r: Item)
    requires GoodRelay(g, r)
    ensures WellTyped(g, r)
  {
    hide RelayItems, GoodPairs, NoteStands, Clear, Trimmed, Said, Pairs, Strip, RelayText, Find;
    var text := RelayText(r);
    SegmentSays(g, text);
    SegmentCases(g, text);
    assert RelayItems(g, text)[0] == r;
    if r.kind == Note {
      NoteSaid(g, text);
    } else {
      TypedReturns(g, r, text);
    }
  }

  lemma TypedReturns(g: Grammar, r: Item, text: string)
    requires r.Relay? && r.kind != Note && text == RelayText(r) && Trimmed(text) && Clear(text)
    requires RelayItems(g, text)[0] == r
    ensures WellTyped(g, r)
  {
    hide RelayItems, GoodPairs, NoteStands, Clear, Trimmed, Pairs, Strip, RelayText, Find;
    SegmentCases(g, text);
    var e := Find(text, ' ', 0);
    ClearSlice(text, e + 1, |text|);
    assert text[e + 1..|text|] == text[e + 1..];
    ClearStrip(text[e + 1..]);
    if r.kind == Fact || r.kind == Correction {
      PairsGood(Strip(text[e + 1..]));
    }
  }

  lemma WellTypedExactly(g: Grammar, r: Item)
    requires r.Relay?
    ensures WellTyped(g, r) <==> GoodRelay(g, r)
  {
    hide WellTyped, GoodRelay;
    if WellTyped(g, r) {
      WellTypedReturns(g, r);
    }
    if GoodRelay(g, r) {
      ReturnsWellTyped(g, r);
    }
  }

  // ---------------------------------------------------------------- turns

  lemma WritableAccepts(g: Grammar, t: Turn, item: Item)
    ensures Writable(g, t, item) <==> Accepts(g, t, item)
  {
    hide WellTyped, GoodRelay, Speakable, OneSentence, BreakSplit;
    match item {
      case Speech(s) => OneSentenceSplits(s);
      case Relay(_, _, _) => WellTypedExactly(g, item);
      case _ =>
    }
  }

  lemma QuietEchoes(g: Grammar, t: Turn, item: Item)
    requires Writable(g, t, item)
    ensures QuietItem(g, item) <==> Echo(g, item) == [item]
  {
    hide WellTyped, Speakable, OneSentence, Inline, RelayItems, NoteQuiet;
    match item {
      case Speech(s) => assert [Speech(s), Issue(InlineDirective, s)] != [Speech(s)];
      case Relay(_, _, _) => WellTypedReturns(g, item);
      case _ =>
    }
  }

  lemma {:induction false} WritableCanonical(g: Grammar, items: seq<Item>)
    ensures WritableTurn(g, items) <==> Canonical(g, items)
  {
    hide Writable, Accepts, TurnOf;
    if items != [] {
      var n := |items| - 1;
      WritableCanonical(g, items[..n]);
      WritableAccepts(g, TurnOf(items[..n]), items[n]);
      forall i | 0 <= i < n ensures items[..n][..i] == items[..i] && items[..n][i] == items[i] {}
      if WritableTurn(g, items) {
        assert Writable(g, TurnOf(items[..n]), items[n]);
        forall i | 0 <= i < n ensures Writable(g, TurnOf(items[..n][..i]), items[..n][i]) {
          assert Writable(g, TurnOf(items[..i]), items[i]);
        }
      }
      if WritableTurn(g, items[..n]) {
        forall i | 0 <= i < n ensures Writable(g, TurnOf(items[..i]), items[i]) {
          assert Writable(g, TurnOf(items[..n][..i]), items[..n][i]);
        }
      }
    }
  }

  lemma QuietFaithful(g: Grammar, items: seq<Item>)
    requires WritableTurn(g, items)
    ensures QuietTurn(g, items) <==> Faithful(g, items)
  {
    hide Writable, TurnOf, QuietItem, Echo;
    forall i | 0 <= i < |items| ensures QuietItem(g, items[i]) <==> Echo(g, items[i]) == [items[i]] {
      assert Writable(g, TurnOf(items[..i]), items[i]);
      QuietEchoes(g, TurnOf(items[..i]), items[i]);
    }
  }

  /** Issues do not print. */
  lemma PrintedNoIssue(g: Grammar, items: seq<Item>)
    requires TurnText(g, items).Some?
    ensures NoIssue(items)
  {
    hide Layout, Join, NoIssue;
    LaidOutNoIssue(g, items);
  }

  lemma {:induction false} LaidOutNoIssue(g: Grammar, items: seq<Item>)
    requires Layout(g, items).Some?
    ensures NoIssue(items)
  {
    hide ItemLine, Speakable;
    if items != [] {
      var n := |items| - 1;
      LaidOutNoIssue(g, items[..n]);
      forall i | 0 <= i < |items| ensures !items[i].Issue? {
        if i < n {
          assert !items[..n][i].Issue?;
        }
      }
    }
  }

  /** A turn comes back from its own print, issues aside, exactly if every item is writable where it stands. */
  lemma CanonicalExactly(g: Grammar, items: seq<Item>)
    ensures WritableTurn(g, items) <==>
      TurnText(g, items).Some? && Said(Meaning(g, TurnText(g, items).value)) == items
  {
    hide Meaning, TurnText, Canonical, WritableTurn;
    WritableCanonical(g, items);
    if Canonical(g, items) {
      TextMeans(g, items);
    }
    if TurnText(g, items).Some? {
      MeaningCanonical(g, TurnText(g, items).value);
    }
  }

  /** And it comes back as it is exactly if every item is also quiet, and there is one. */
  lemma FaithfulExactly(g: Grammar, items: seq<Item>)
    ensures items != [] && WritableTurn(g, items) && QuietTurn(g, items) <==>
      TurnText(g, items).Some? && Meaning(g, TurnText(g, items).value) == items
  {
    hide Meaning, TurnText, Canonical, NoIssue, Faithful, WritableTurn, QuietTurn;
    WritableCanonical(g, items);
    if WritableTurn(g, items) {
      QuietFaithful(g, items);
    }
    if items != [] && WritableTurn(g, items) && Faithful(g, items) {
      TextMeans(g, items);
      FaithfulEcho(g, items);
    }
    if TurnText(g, items).Some? && Meaning(g, TurnText(g, items).value) == items {
      PrintedNoIssue(g, items);
      MeaningCanonical(g, TurnText(g, items).value);
      SaidAll(items);
    }
  }

  lemma LayoutDirective(g: Grammar, items: seq<Item>, item: Item)
    requires (items == [] || Layout(g, items).Some?) && !item.Speech? && !item.Issue?
    ensures Layout(g, items + [item]).Some?
  {
    hide ItemLine;
    assert (items + [item])[..|items|] == items;
  }

  /** Not every turn that prints comes back: a second pause parses to an issue. */
  lemma TwoPauses(g: Grammar)
    ensures TurnText(g, [Wait, Wait]).Some?
    ensures Meaning(g, TurnText(g, [Wait, Wait]).value) != [Wait, Wait]
  {
    hide Meaning, Join;
    var items := [Wait, Wait];
    LayoutDirective(g, [], Wait);
    LayoutDirective(g, [Wait], Wait);
    assert [] + [Wait] == [Wait] && [Wait] + [Wait] == items;
    assert items[..1][0].Wait?;
    assert TurnOf(items[..1]).paused;
    assert !Writable(g, TurnOf(items[..1]), items[1]);
    FaithfulExactly(g, items);
  }
}
