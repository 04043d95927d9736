/**
 The printer of a turn, and the two laws of parsing what it prints: on every text the spoken items
 are a fixpoint of printing and parsing, and a text without issues comes back exactly.
 */
module RoundTrip {
  import opened Text
  import opened Wrappers
  import opened Protocol

  // ---------------------------------------------------------------- the printer

  function KindName(kind: RelayKind): string
  {
    match kind
    case Note => "note"
    case Fact => "fact"
    case Correction => "correction"
    case Request => "request"
    case Revoke => "revoke"
  }

  function PairText(pair: (string, string)): string
  {
    pair.0 + ['='] + pair.1
  }

  /** `key=value` pairs, joined by a semicolon and a space. */
  function PairsText(facts: seq<(string, string)>): string
  {
    if facts == [] then ""
    else if |facts| == 1 then PairText(facts[0])
    else PairText(facts[0]) + [';'] + ([' '] + PairsText(facts[1..]))
  }

  function RelayText(r: Item): string
    requires r.Relay?
  {
    match r.kind
    case Note => r.note
    case Fact => KindName(Fact) + [' '] + PairsText(r.facts)
    case Correction => KindName(Correction) + [' '] + PairsText(r.facts)
    case Request => KindName(Request) + [' '] + r.note
    case Revoke => KindName(Revoke) + [' '] + r.note
  }

  /** The line of an item that is no speech. */
  function ItemLine(item: Item): string
    requires !item.Speech? && !item.Issue?
  {
    match item
    case Relay(_, _, _) => "@slow:" + ([' '] + RelayText(item))
    case Hold(reason) => "@hold" + ([' '] + ReasonText(reason))
    case Wait => "@wait"
    case EndCall => "@end_call"
  }

  datatype Page = Page(lines: seq<string>, joinable: bool)

  /** The next sentence shares the last line. */
  predicate Joins(p: Page) {
    && p.joinable
    && p.lines != []
    && p.lines[|p.lines| - 1] != ""
    && IsStop(p.lines[|p.lines| - 1][|p.lines[|p.lines| - 1]| - 1])
  }

  /** One more item on the page; a sentence that is not canonical and an issue have no text. */
  function AddItem(g: Grammar, p: Page, item: Item): Option<Page>
  {
    if item.Speech? then
      if !Speakable(g, item.text) then None
      else if Joins(p) then
        var n := |p.lines| - 1;
        Some(Page(p.lines[..n] + [p.lines[n] + ([' '] + item.text)], true))
      else Some(Page(p.lines + [item.text], true))
    else if item.Issue? then None
    else Some(Page(p.lines + [ItemLine(item)], false))
  }

  function Layout(g: Grammar, items: seq<Item>): Option<Page>
  {
    if items == [] then Some(Page([], false))
    else
      match Layout(g, items[..|items| - 1])
      case None => None
      case Some(p) => AddItem(g, p, items[|items| - 1])
  }

  /** The canonical text of a turn, if it has one. */
  function TurnText(g: Grammar, items: seq<Item>): Option<string>
  {
    match Layout(g, items)
    case None => None
    case Some(p) => Some(Join(p.lines, ['\n']))
  }

  lemma {:induction false} LayoutFails(g: Grammar, items: seq<Item>, i: nat)
    requires i <= |items| && Layout(g, items[..i]).None?
    ensures Layout(g, items).None?
    decreases |items| - i
  {
    hide AddItem;
    if i < |items| {
      assert items[..i + 1][..i] == items[..i];
      LayoutFails(g, items, i + 1);
    } else {
      assert items[..i] == items;
    }
  }

  /** `format_turn`: one line per directive, consecutive sentences share a line after a stop. */
  method FormatTurn(g: Grammar, items: seq<Item>) returns (r: Option<string>)
    ensures r == TurnText(g, items)
  {
    hide Speakable;
    var lines: seq<string>, joinable := [], false;
    for i := 0 to |items|
      invariant Layout(g, items[..i]) == Some(Page(lines, joinable))
      invariant joinable ==> lines != [] && lines[|lines| - 1] != ""
    {
      assert items[..i + 1][..i] == items[..i];
      var item := items[i];
      if item.Speech? {
        if !Speakable(g, item.text) {
          LayoutFails(g, items, i + 1);
          return None;
        }
        SpeakableNonEmpty(g, item.text);
        if joinable && IsStop(lines[|lines| - 1][|lines[|lines| - 1]| - 1]) {
          var n := |lines| - 1;
          lines := lines[..n] + [lines[n] + ([' '] + item.text)];
        } else {
          lines := lines + [item.text];
        }
        joinable := true;
      } else if item.Issue? {
        LayoutFails(g, items, i + 1);
        return None;
      } else {
        joinable := false;
        lines := lines + [ItemLine(item)];
      }
    }
    assert items[..|items|] == items;
    r := Some(Join(lines, ['\n']));
  }

  lemma SpeakableNonEmpty(g: Grammar, s: string)
    requires Speakable(g, s)
    ensures s != ""
  {}

  // ---------------------------------------------------------------- what was said, and the turn

  /** The items that are no issue. */
  function Said(items: seq<Item>): seq<Item>
  {
    if items == [] then []
    else (if items[0].Issue? then [] else [items[0]]) + Said(items[1..])
  }

  lemma {:induction false} SaidAppend(a: seq<Item>, b: seq<Item>)
    ensures Said(a + b) == Said(a) + Said(b)
  {
    if a == [] {
      assert a + b == b;
    } else {
      assert (a + b)[1..] == a[1..] + b;
      SaidAppend(a[1..], b);
    }
  }

  predicate NoIssue(items: seq<Item>) {
    forall i | 0 <= i < |items| :: !items[i].Issue?
  }

  lemma {:induction false} SaidAll(items: seq<Item>)
    requires NoIssue(items)
    ensures Said(items) == items
  {
    if items != [] {
      SaidAll(items[1..]);
    }
  }

  lemma {:induction false} SaidNoIssue(items: seq<Item>)
    ensures NoIssue(Said(items))
    ensures AnyItem(items) <==> Said(items) != []
  {
    if items != [] {
      SaidNoIssue(items[1..]);
      if AnyItem(items[1..]) {
        var i :| 0 <= i < |items[1..]| && !items[1..][i].Issue?;
        assert !items[i + 1].Issue?;
      }
    }
  }

  predicate Pauses(items: seq<Item>) {
    exists i | 0 <= i < |items| :: items[i].Hold? || items[i].Wait?
  }

  predicate Ends(items: seq<Item>) {
    exists i | 0 <= i < |items| :: items[i].EndCall?
  }

  function TurnOf(items: seq<Item>): Turn
  {
    Turn(Pauses(items), Ends(items))
  }

  lemma TurnOfAdd(items: seq<Item>, item: Item)
    ensures TurnOf(items + [item])
         == Turn(Pauses(items) || item.Hold? || item.Wait?, Ends(items) || item.EndCall?)
  {
    var all := items + [item];
    assert all[|items|] == item;
    if Pauses(items) {
      var i :| 0 <= i < |items| && (items[i].Hold? || items[i].Wait?);
      assert all[i] == items[i];
    }
    if Ends(items) {
      var i :| 0 <= i < |items| && items[i].EndCall?;
      assert all[i] == items[i];
    }
  }

  // ---------------------------------------------------------------- canonical items

  predicate Clear(s: string) {
    '\n' !in s && !HasSlow(s)
  }

  predicate GoodSpeech(g: Grammar, s: string) {
    Speakable(g, s) && BreakSplit(s) == [s]
  }

  predicate GoodRelay(g: Grammar, r: Item) {
    && r.Relay?
    && RelayText(r) != "" && Trimmed(RelayText(r)) && Clear(RelayText(r))
    && Said(RelayItems(g, RelayText(r))) == [r]
  }

  /** The item may stand in a turn that is so far `t`. */
  predicate Accepts(g: Grammar, t: Turn, item: Item) {
    match item
    case Speech(s) => GoodSpeech(g, s) && !(t.paused && g.pauseEndsSpeech)
    case Relay(_, _, _) => GoodRelay(g, item)
    case Hold(_) => g.lane == Cp && !t.paused
    case Wait => !t.paused
    case EndCall => !t.ended
    case Issue(_, _) => false
  }

  /** Exactly the turns that a text can say. */
  predicate Canonical(g: Grammar, items: seq<Item>) {
    items == [] ||
    (Canonical(g, items[..|items| - 1]) && Accepts(g, TurnOf(items[..|items| - 1]), items[|items| - 1]))
  }

  /** What the canonical text of an item parses to: the item, and perhaps an issue about it. */
  function Echo(g: Grammar, item: Item): seq<Item>
  {
    match item
    case Speech(s) => SentenceItems(g, s)
    case Relay(_, _, _) => RelayItems(g, RelayText(item))
    case _ => [item]
  }

  function EchoAll(g: Grammar, items: seq<Item>): seq<Item>
  {
    if items == [] then []
    else EchoAll(g, items[..|items| - 1]) + Echo(g, items[|items| - 1])
  }

  lemma CanonicalAdd(g: Grammar, items: seq<Item>, item: Item)
    requires Canonical(g, items) && Accepts(g, TurnOf(items), item)
    ensures Canonical(g, items + [item])
  {
    hide Accepts;
    assert (items + [item])[..|items|] == items;
  }

  lemma EchoAllAdd(g: Grammar, items: seq<Item>, item: Item)
    ensures EchoAll(g, items + [item]) == EchoAll(g, items) + Echo(g, item)
  {
    hide Echo;
    assert (items + [item])[..|items|] == items;
  }

  lemma EchoSays(g: Grammar, t: Turn, item: Item)
    requires Accepts(g, t, item)
    ensures Said(Echo(g, item)) == [item]
  {
    hide Speakable, Inline, RelayItems, BreakSplit;
    if item.Speech? {
      SaidTwo(item, Issue(InlineDirective, item.text));
    } else if !item.Relay? {
      SaidAll([item]);
    }
  }

  lemma SaidTwo(item: Item, issue: Item)
    requires !item.Issue? && issue.Issue?
    ensures Said([item]) == [item] && Said([item, issue]) == [item] && Said([issue]) == []
  {
    assert [item][1..] == [] && [issue][1..] == [] && [item, issue][1..] == [issue];
  }

  lemma {:induction false} EchoAllSays(g: Grammar, items: seq<Item>)
    requires Canonical(g, items)
    ensures Said(EchoAll(g, items)) == items
  {
    hide Accepts, Echo;
    if items != [] {
      var n := |items| - 1;
      EchoAllSays(g, items[..n]);
      EchoSays(g, TurnOf(items[..n]), items[n]);
      SaidAppend(EchoAll(g, items[..n]), Echo(g, items[n]));
      assert items == items[..n] + [items[n]];
    }
  }

  /** Every item is what its own text parses to. */
  predicate Faithful(g: Grammar, items: seq<Item>) {
    forall i | 0 <= i < |items| :: Echo(g, items[i]) == [items[i]]
  }

  lemma {:induction false} FaithfulEcho(g: Grammar, items: seq<Item>)
    requires Faithful(g, items)
    ensures EchoAll(g, items) == items
  {
    hide Echo;
    if items != [] {
      var n := |items| - 1;
      FaithfulEcho(g, items[..n]);
      assert items == items[..n] + [items[n]];
    }
  }
}
