/**
 What the printer writes, one more item at a time, character by character.
 */
module Printed {
  import opened Text
  import opened Wrappers
  import opened Protocol
  import opened RoundTrip

  // ---------------------------------------------------------------- lines

  /** The facts of a relay: `key=value`, separated by a semicolon and a space. */
  lemma {:induction false} FactsWritten(facts: seq<(string, string)>, key: string, value: string)
    ensures PairsText([]) == ""
    ensures PairsText([(key, value)]) == key + "=" + value
    ensures facts != [] ==> PairsText(facts + [(key, value)]) == PairsText(facts) + "; " + (key + "=" + value)
  {
    hide PairText;
    var last := (key, value);
    FactWritten(last);
    if |facts| == 1 {
      assert (facts + [last])[1..] == [last];
      Separated(PairText(facts[0]), "", PairText(last));
    } else if facts != [] {
      FactsWritten(facts[1..], key, value);
      assert (facts + [last])[1..] == facts[1..] + [last];
      Separated(PairText(facts[0]), PairsText(facts[1..]), PairText(last));
    }
  }

  lemma FactWritten(fact: (string, string))
    ensures PairText(fact) == fact.0 + "=" + fact.1
  {}

  lemma Separated(a: string, b: string, c: string)
    ensures a + [';'] + ([' '] + c) == a + "; " + c
    ensures a + [';'] + ([' '] + (b + "; " + c)) == a + [';'] + ([' '] + b) + "; " + c
  {}

  /** The line a directive adds. */
  function Written(item: Item): string
    requires !item.Speech? && !item.Issue?
  {
    match item
    case Wait => "@wait"
    case EndCall => "@end_call"
    case Hold(Offer) => "@hold offer"
    case Hold(Decision) => "@hold decision"
    case Hold(FactRequest) => "@hold fact_request"
    case Hold(Pressure) => "@hold pressure"
    case Hold(Unclear) => "@hold unclear"
    case Relay(Note, note, _) => "@slow: " + note
    case Relay(Fact, _, facts) => "@slow: fact " + PairsText(facts)
    case Relay(Correction, _, facts) => "@slow: correction " + PairsText(facts)
    case Relay(Request, note, _) => "@slow: request " + note
    case Relay(Revoke, note, _) => "@slow: revoke " + note
  }

  lemma ItemWritten(item: Item)
    requires !item.Speech? && !item.Issue?
    ensures ItemLine(item) == Written(item)
  {
    hide PairsText, ReasonText, KindName;
    match item {
      case Relay(kind, note, facts) => RelayWritten(kind, note, facts);
      case Hold(reason) => HoldWritten(reason);
      case _ =>
    }
  }

  lemma HoldWritten(reason: HoldReason)
    ensures "@hold" + ([' '] + ReasonText(reason)) == Written(Hold(reason))
  {
    Prefixed("@hold ", "@hold", ReasonText(reason));
    match reason {
      case Offer => assert "@hold " + "offer" == "@hold offer";
      case Decision => assert "@hold " + "decision" == "@hold decision";
      case FactRequest => assert "@hold " + "fact_request" == "@hold fact_request";
      case Pressure => assert "@hold " + "pressure" == "@hold pressure";
      case Unclear => assert "@hold " + "unclear" == "@hold unclear";
    }
  }

  lemma RelayWritten(kind: RelayKind, note: string, facts: seq<(string, string)>)
    ensures "@slow:" + ([' '] + RelayText(Relay(kind, note, facts))) == Written(Relay(kind, note, facts))
  {
    hide PairsText;
    match kind {
      case Note => Prefixed("@slow: ", "@slow:", note);
      case Fact => Headed("fact", "@slow: fact ", PairsText(facts));
      case Correction => Headed("correction", "@slow: correction ", PairsText(facts));
      case Request => Headed("request", "@slow: request ", note);
      case Revoke => Headed("revoke", "@slow: revoke ", note);
    }
  }

  lemma Prefixed(all: string, mark: string, x: string)
    requires all == mark + [' ']
    ensures mark + ([' '] + x) == all + x
  {}

  lemma Headed(head: string, all: string, x: string)
    requires all == "@slow: " + head + " "
    ensures "@slow:" + ([' '] + (head + [' '] + x)) == all + x
  {}

  // ---------------------------------------------------------------- pages

  /** The last character of the page's last line is that of the last item, if that is speech. */
  ghost predicate EndsAs(items: seq<Item>, p: Page) {
    && (items == [] <==> p.lines == [])
    && (p.joinable <==> items != [] && items[|items| - 1].Speech?)
    && (p.joinable ==>
          var s, line := items[|items| - 1].text, p.lines[|p.lines| - 1];
          s != "" && line != "" && line[|line| - 1] == s[|s| - 1])
  }

  lemma {:induction false} PageEnds(g: Grammar, items: seq<Item>)
    requires Layout(g, items).Some?
    ensures EndsAs(items, Layout(g, items).value)
  {
    hide Speakable, ItemLine;
    if items != [] {
      var n := |items| - 1;
      PageEnds(g, items[..n]);
      if items[n].Speech? {
        SpeakableNonEmpty(g, items[n].text);
      }
    }
  }

  lemma LayoutNext(g: Grammar, items: seq<Item>, item: Item)
    ensures Layout(g, []) == Some(Page([], false))
    ensures Layout(g, items + [item])
         == match Layout(g, items) case None => None case Some(p) => AddItem(g, p, item)
  {
    hide AddItem;
    assert (items + [item])[..|items|] == items;
  }

  lemma {:induction false} JoinLast(lines: seq<string>, line: string, sep: string)
    ensures Join(lines + [line], sep) == if lines == [] then line else Join(lines, sep) + sep + line
  {
    if lines == [] {
      assert [] + [line] == [line];
    } else {
      assert (lines + [line])[1..] == lines[1..] + [line];
      JoinLast(lines[1..], line, sep);
      if |lines| > 1 {
        assert lines[0] + sep + (Join(lines[1..], sep) + sep + line)
            == (lines[0] + sep + Join(lines[1..], sep)) + sep + line;
      }
    }
  }

  lemma {:induction false} JoinGrown(lines: seq<string>, more: string, sep: string)
    requires lines != []
    ensures var n := |lines| - 1; Join(lines[..n] + [lines[n] + more], sep) == Join(lines, sep) + more
  {
    var n := |lines| - 1;
    JoinLast(lines[..n], lines[n] + more, sep);
    JoinLast(lines[..n], lines[n], sep);
    assert lines == lines[..n] + [lines[n]];
    if n > 0 {
      assert Join(lines[..n], sep) + sep + (lines[n] + more) == (Join(lines[..n], sep) + sep + lines[n]) + more;
    }
  }

  // ---------------------------------------------------------------- one more item

  /** What is printed before a line of its own. */
  function Before(items: seq<Item>, text: string): string
  {
    if items == [] then "" else text + "\n"
  }

  /** The last item is speech that ends in one of the three characters. */
  predicate Ended(items: seq<Item>) {
    items != [] && items[|items| - 1].Speech? &&
    var s := items[|items| - 1].text; s != "" && s[|s| - 1] in ['.', '!', '?']
  }

  lemma NothingWritten(g: Grammar)
    ensures TurnText(g, []) == Some("")
  {}

  /** A sentence shares the line of a sentence that has ended, and else has one of its own. */
  lemma SpeechWritten(g: Grammar, items: seq<Item>, s: string)
    ensures TurnText(g, items + [Speech(s)]) ==
      match TurnText(g, items)
      case None => None
      case Some(t) =>
        if !Speakable(g, s) then None
        else if Ended(items) then Some(t + " " + s)
        else Some(Before(items, t) + s)
  {
    hide Layout, Speakable, Join;
    LayoutNext(g, items, Speech(s));
    assert " " == [' '] && "\n" == ['\n'];
    if Layout(g, items).Some? {
      PageEnds(g, items);
      var p := Layout(g, items).value;
      if Ended(items) {
        JoinGrown(p.lines, [' '] + s, ['\n']);
        assert Join(p.lines, ['\n']) + ([' '] + s) == Join(p.lines, ['\n']) + " " + s;
      } else {
        JoinLast(p.lines, s, ['\n']);
        assert "" + s == s;
      }
    }
  }

  /** Everything else has a line of its own, and an issue has none. */
  lemma DirectiveWritten(g: Grammar, items: seq<Item>, item: Item)
    requires !item.Speech?
    ensures TurnText(g, items + [item]) ==
      match TurnText(g, items)
      case None => None
      case Some(t) => if item.Issue? then None else Some(Before(items, t) + Written(item))
  {
    hide Layout, ItemLine, Written, Join;
    LayoutNext(g, items, item);
    assert "\n" == ['\n'];
    if Layout(g, items).Some? && !item.Issue? {
      PageEnds(g, items);
      ItemWritten(item);
      JoinLast(Layout(g, items).value.lines, ItemLine(item), ['\n']);
      assert "" + ItemLine(item) == ItemLine(item);
    }
  }
}
