/**
 The incremental parser. Fed a text in any chunks, it returns what the whole text means, and
 nothing it has returned is ever taken back.
 */
module Streaming {
  import opened Text
  import opened Wrappers
  import opened Protocol
  import opened Prefixes

  function Concat(chunks: seq<string>): string
  {
    if chunks == [] then "" else Concat(chunks[..|chunks| - 1]) + chunks[|chunks| - 1]
  }

  // ---------------------------------------------------------------- lines and their early sentences

  lemma ReadyEmpty(g: Grammar, t: Turn)
    ensures Ready(g, t, "") == []
  {
    hide IsSpace, Clean, Head, Spoken, Strip;
    StripTrimmed("");
    if !Late(g, t, "") {
      SpokenIs(g, "");
      RelayLine(g, "");
    }
  }

  /** A finished line: the sentences already returned, then the rest. */
  lemma LineSkip(g: Grammar, t: Turn, mark: string, w: string)
    requires mark <= w
    ensures LineItems(g, t, w, 0).1 == LineItems(g, t, w, |Ready(g, t, mark)|).1
    ensures LineItems(g, t, w, 0).0
         == SpeechItems(g, Ready(g, t, mark)) + LineItems(g, t, w, |Ready(g, t, mark)|).0
    ensures IsDirective(Strip(w)) || Late(g, t, Strip(w)) ==> Ready(g, t, mark) == []
  {
    hide IsSpace, Strip, SpeechLine, Directive, Ready, IsDirective, Late, Spoken;
    ReadyStable(g, t, mark, w);
    var text := Strip(w);
    if !IsDirective(text) && !Late(g, t, text) {
      SpeechLineSkip(g, text, Ready(g, t, mark));
    }
  }

  lemma SpeechLineSkip(g: Grammar, text: string, r: seq<string>)
    requires r <= Spoken(g, text)
    ensures SpeechLine(g, text, 0) == SpeechItems(g, r) + SpeechLine(g, text, |r|)
  {
    hide SpeechLine, Spoken, SpeechItems, AfterSpeech;
    SpeechLineParts(g, text, 0);
    SpeechLineParts(g, text, |r|);
    SpeechFrom(g, Spoken(g, text), r);
  }

  /** What a line yields besides what it speaks. */
  function AfterSpeech(g: Grammar, text: string): seq<Item>
  {
    var parts := SlowSplit(text);
    var (spoken, cut) := Clean(g, parts[0]);
    var stray :=
      if StartsWith(spoken, '@') then [Issue(StrayDirective, spoken)]
      else if cut then [Issue(InlineDirective, "@end_call")]
      else [];
    stray + RelayAll(g, parts[1..])
  }

  lemma SpeechLineParts(g: Grammar, text: string, skip: nat)
    ensures SpeechLine(g, text, skip) == SpeechItems(g, From(Spoken(g, text), skip)) + AfterSpeech(g, text)
  {
    hide Clean, SlowSplit, Sentences, SpeechItems, RelayAll, From, StartsWith;
  }

  lemma SpeechFrom(g: Grammar, ss: seq<string>, r: seq<string>)
    requires r <= ss
    ensures SpeechItems(g, From(ss, 0)) == SpeechItems(g, r) + SpeechItems(g, From(ss, |r|))
  {
    hide SpeechItems;
    assert From(ss, 0) == ss == r + From(ss, |r|);
    SpeechItemsAppend(g, r, From(ss, |r|));
  }

  /** A growing line: what was returned, then what has closed since. */
  lemma LineGrows(g: Grammar, t: Turn, mark: string, u: string)
    requires mark <= u
    ensures var r, now := Ready(g, t, mark), Ready(g, t, u);
            SpeechItems(g, r) + SpeechItems(g, From(now, |r|))
            == SpeechItems(g, if |r| <= |now| then now else r)
  {
    hide SpeechItems, Ready, Heard;
    ReadyStable(g, t, mark, u);
    var r, now := Ready(g, t, mark), Ready(g, t, u);
    ReadyPrefix(g, t, u);
    SpeechItemsAppend(g, r, From(now, |r|));
    if |r| <= |now| {
      assert r + From(now, |r|) == now;
    } else {
      assert r + From(now, |r|) == r;
    }
  }

  lemma ReadyPrefix(g: Grammar, t: Turn, u: string)
    ensures Ready(g, t, u) <= Heard(g, t, u)
  {
    hide Heard;
  }

  lemma NoSpeech(g: Grammar)
    ensures SpeechItems(g, []) == []
  {}

  lemma EmptySpeechLine(g: Grammar)
    ensures SpeechLine(g, "", 0) == []
  {
    hide IsSpace, Clean, Strip, RelayAll, SlowAt, SpeechItems, BreakSplit;
    assert Head("") == "" && SlowSplit("") == [""];
    RelayLine(g, "");
    EmptySpeech(g);
    NoRelays(g);
    var parts := SlowSplit("");
    assert parts[1..] == [] && Clean(g, parts[0]) == ("", false);
    assert From(Sentences(""), 0) == [""];
  }

  lemma EmptyLine(g: Grammar, t: Turn)
    ensures LineItems(g, t, "", 0) == ([], t)
  {
    hide IsSpace, Strip, SpeechLine;
    StripTrimmed("");
    EmptySpeechLine(g);
  }

  lemma EmptySpeech(g: Grammar)
    ensures BreakSplit("") == [""] && SpeechItems(g, [""]) == []
  {
    NoSpeech(g);
    assert [""][1..] == [];
  }

  lemma NoRelays(g: Grammar)
    ensures RelayAll(g, []) == []
  {}

  /** Finished lines only add items. */
  lemma {:induction false} ParseLinesGrow(g: Grammar, a: seq<string>, b: seq<string>)
    ensures ParseLines(g, a).items <= ParseLines(g, a + b).items
  {
    hide LineItems;
    if b == [] {
      assert a + b == a;
    } else {
      assert (a + b)[..|a + b| - 1] == a + b[..|b| - 1];
      ParseLinesGrow(g, a, b[..|b| - 1]);
    }
  }

  lemma ParseLinesAdd(g: Grammar, a: seq<string>, line: string)
    ensures var p := ParseLines(g, a);
            ParseLines(g, a + [line])
            == Parsed(p.items + LineItems(g, p.turn, line, 0).0, LineItems(g, p.turn, line, 0).1)
  {
    hide LineItems;
    assert (a + [line])[..|a|] == a;
  }

  // ---------------------------------------------------------------- what a parser has shown

  /** After these finished lines, how many sentences of the growing line `mark` are out. */
  function Early(g: Grammar, lines: seq<string>, mark: string): nat
  {
    |Ready(g, ParseLines(g, lines).turn, mark)|
  }

  /** After these finished lines, what is out once `mark` of the growing line was read. */
  function Shown(g: Grammar, lines: seq<string>, mark: string): seq<Item>
  {
    var p := ParseLines(g, lines);
    p.items + SpeechItems(g, Ready(g, p.turn, mark))
  }

  lemma EarlyIs(g: Grammar, lines: seq<string>, mark: string)
    ensures Early(g, lines, mark) == |Ready(g, ParseLines(g, lines).turn, mark)|
  {}

  lemma ShownFresh(g: Grammar, lines: seq<string>)
    ensures Early(g, lines, "") == 0 && Shown(g, lines, "") == ParseLines(g, lines).items
  {
    hide Ready, ParseLines;
    ReadyEmpty(g, ParseLines(g, lines).turn);
    NoSpeech(g);
  }

  /** Finishing the growing line shows the rest of its items. */
  lemma ShownFinish(g: Grammar, lines: seq<string>, mark: string, w: string)
    requires mark <= w
    ensures var t := ParseLines(g, lines).turn;
            var (more, turn) := LineItems(g, t, w, Early(g, lines, mark));
            && Shown(g, lines, mark) + more == Shown(g, lines + [w], "") == ParseLines(g, lines + [w]).items
            && turn == ParseLines(g, lines + [w]).turn
            && (IsDirective(Strip(w)) || Late(g, t, Strip(w)) ==> Early(g, lines, mark) == 0)
  {
    hide Ready, LineItems, SpeechItems, IsDirective, Late, ParseLines, Strip;
    var p := ParseLines(g, lines);
    LineSkip(g, p.turn, mark, w);
    ParseLinesAdd(g, lines, w);
    ShownFresh(g, lines + [w]);
    var r := SpeechItems(g, Ready(g, p.turn, mark));
    var more := LineItems(g, p.turn, w, Early(g, lines, mark)).0;
    assert p.items + r + more == p.items + (r + more);
  }

  /** Reading on in the growing line shows the sentences that have closed since. */
  lemma ShownGrow(g: Grammar, lines: seq<string>, mark: string, u: string)
    requires mark <= u
    ensures var ready := Ready(g, ParseLines(g, lines).turn, u);
            var reached := if Early(g, lines, mark) <= Early(g, lines, u) then u else mark;
            && Shown(g, lines, mark) + SpeechItems(g, From(ready, Early(g, lines, mark)))
               == Shown(g, lines, reached)
  {
    hide Ready, SpeechItems, ParseLines, From;
    var p := ParseLines(g, lines);
    LineGrows(g, p.turn, mark, u);
    var r := SpeechItems(g, Ready(g, p.turn, mark));
    var more := SpeechItems(g, From(Ready(g, p.turn, u), Early(g, lines, mark)));
    assert p.items + r + more == p.items + (r + more);
  }

  /** What is out is the beginning of what every continuation means. */
  lemma ShownStays(g: Grammar, lines: seq<string>, mark: string, pieces: seq<string>)
    requires pieces != [] && mark <= pieces[0]
    ensures Shown(g, lines, mark) <= ParseLines(g, lines + pieces).items
  {
    hide LineItems, ParseLines, Shown, Early, IsDirective, Late, Strip;
    var head := lines + [pieces[0]];
    ShownFinish(g, lines, mark, pieces[0]);
    ParseLinesGrow(g, head, pieces[1..]);
    assert head + pieces[1..] == lines + pieces;
  }

  lemma AnyItemAppend(a: seq<Item>, b: seq<Item>)
    ensures AnyItem(a + b) == (AnyItem(a) || AnyItem(b))
  {
    if AnyItem(a) {
      var i :| 0 <= i < |a| && !a[i].Issue?;
      assert !(a + b)[i].Issue?;
    }
    if AnyItem(b) {
      var i :| 0 <= i < |b| && !b[i].Issue?;
      assert !(a + b)[|a| + i].Issue?;
    }
  }

  // ---------------------------------------------------------------- the parser

  class StreamParser {
    const g: Grammar
    var buf: string
    var emitted: nat // sentences of the current line already returned
    var paused: bool
    var ended: bool
    var any: bool
    var closed: bool

    ghost var fed: string // everything fed so far
    ghost var out: seq<Item> // everything returned so far
    ghost var mark: string // the part of the current line whose sentences were returned

    /** The finished lines of what was fed. */
    ghost function Done(): seq<string>
      reads this
    {
      var ls := SplitOn(fed, '\n');
      ls[..|ls| - 1]
    }

    ghost predicate Valid()
      reads this
    {
      && any == AnyItem(out)
      && (closed ==> buf == "" && emitted == 0)
      && (!closed ==>
            && SplitOn(fed, '\n') == Done() + [buf]
            && Turn(paused, ended) == ParseLines(g, Done()).turn
            && mark <= buf
            && emitted == Early(g, Done(), mark)
            && out == Shown(g, Done(), mark))
    }

    constructor (g: Grammar)
      ensures Valid() && !closed && this.g == g && fed == "" && out == []
    {
      hide Ready, Early, Shown;
      this.g := g;
      buf, emitted := "", 0;
      paused, ended, any, closed := false, false, false, false;
      fed, out, mark := "", [], "";
      ShownFresh(g, []);
      SplitNone("", '\n');
    }

    method Pause(item: Item, text: string) returns (items: seq<Item>)
      modifies this`paused
      ensures (items, Turn(paused, ended)) == Protocol.Pause(old(Turn(paused, ended)), item, text)
    {
      if paused {
        return [Issue(DuplicatePause, text)];
      }
      paused := true;
      return [item];
    }

    method DirectiveLine(text: string) returns (items: seq<Item>)
      modifies this`paused, this`ended
      ensures (items, Turn(paused, ended)) == Directive(g, old(Turn(paused, ended)), text)
    {
      if FoldAt(text, 0, "@end_call") {
        if ended {
          return [Issue(DuplicateEndCall, text)];
        }
        ended := true;
        return [EndCall];
      }
      var words := Words(text);
      if words != [] && words[0] == "@hold" {
        if g.lane != Cp {
          return [Issue(WrongLane, text)];
        }
        var reason := if |words| == 2 then ReasonOf(words[1]) else None;
        if reason.Some? {
          items := Pause(Hold(reason.value), text);
          return;
        }
        return [Issue(BadHoldReason, text)];
      }
      if text == "@wait" {
        items := Pause(Wait, text);
        return;
      }
      return [Issue(UnknownDirective, text)];
    }

    /** One line, finished or still growing. */
    method Line(raw: string, final: bool) returns (items: seq<Item>)
      modifies this`paused, this`ended, this`emitted
      ensures final ==>
        && (items, Turn(paused, ended)) == LineItems(g, old(Turn(paused, ended)), raw, old(emitted))
        && (emitted == 0
            || (emitted == old(emitted) && (IsDirective(Strip(raw)) || Late(g, old(Turn(paused, ended)), Strip(raw)))))
      ensures !final ==>
        var ready := Ready(g, Turn(paused, ended), raw);
        && paused == old(paused) && ended == old(ended)
        && items == SpeechItems(g, From(ready, old(emitted)))
        && emitted == if old(emitted) <= |ready| then |ready| else old(emitted)
    {
      hide IsSpace, Clean, SlowSplit, Sentences, Strip, RelayAll, Directive, SlowAt;
      var text := Strip(raw);
      if StartsWith(text, '@') && !SlowAt(text, 0) {
        if final {
          items := DirectiveLine(text);
        } else {
          items := [];
        }
        return;
      }
      if paused && g.pauseEndsSpeech && !StartsWith(text, '@') {
        return if final && text != "" then [Issue(SpeechAfterPause, text)] else [];
      }
      var parts := SlowSplit(text);
      var (spoken, cut) := Clean(g, parts[0]);
      var sentences := Sentences(spoken);
      if !final {
        var ready := From(ButLast(sentences), emitted);
        ReadyNonEmpty(g, Turn(paused, ended), raw);
        items := SpeechItems(g, ready);
        emitted := emitted + |ready|;
        return;
      }
      items := SpeechItems(g, From(sentences, emitted));
      assert items + [] == items;
      if StartsWith(spoken, '@') {
        items := items + [Issue(StrayDirective, spoken)];
      } else if cut {
        items := items + [Issue(InlineDirective, "@end_call")];
      }
      emitted := 0;
      items := items + RelayAll(g, parts[1..]);
    }

    /** The finished lines of a chunk, after the lines `a`; `pieces` starts with the current line. */
    method FinishLines(pieces: seq<string>, ghost a: seq<string>) returns (items: seq<Item>)
      requires pieces != [] && mark <= pieces[0]
      requires Turn(paused, ended) == ParseLines(g, a).turn && emitted == Early(g, a, mark)
      modifies this`paused, this`ended, this`emitted, this`mark
      ensures var b := a + pieces[..|pieces| - 1];
              && Turn(paused, ended) == ParseLines(g, b).turn && emitted == Early(g, b, mark)
              && mark <= pieces[|pieces| - 1]
              && Shown(g, a, old(mark)) + items == Shown(g, b, mark)
    {
      hide LineItems, IsDirective, Late, ParseLines, Strip, Early, Shown, Ready;
      ghost var shown := Shown(g, a, mark);
      items := [];
      var k := 0;
      assert a + pieces[..0] == a;
      while k < |pieces| - 1
        invariant 0 <= k <= |pieces| - 1
        invariant Turn(paused, ended) == ParseLines(g, a + pieces[..k]).turn
        invariant emitted == Early(g, a + pieces[..k], mark)
        invariant mark <= pieces[k]
        invariant shown + items == Shown(g, a + pieces[..k], mark)
      {
        var more := Line(pieces[k], true);
        ShownFinish(g, a + pieces[..k], mark, pieces[k]);
        assert a + pieces[..k + 1] == a + pieces[..k] + [pieces[k]];
        assert shown + (items + more) == shown + items + more;
        items := items + more;
        k := k + 1;
        mark := "";
        ShownFresh(g, a + pieces[..k]);
      }
    }

    method Feed(chunk: string) returns (r: Option<seq<Item>>)
      requires Valid()
      modifies this
      ensures Valid() && closed == old(closed)
      ensures r.None? <==> old(closed)
      ensures closed ==> out == old(out) && fed == old(fed)
      ensures r.Some? ==> out == old(out) + r.value && fed == old(fed) + chunk
    {
      hide LineItems, SpeechItems, From, ParseLines, SplitOn, AnyItem, Early, Shown, Ready, IsDirective, Late, Strip;
      if closed {
        return None;
      }
      var pieces := SplitOn(buf + chunk, '\n');
      ghost var a := Done();
      PiecesGrow(fed, chunk, a, buf);
      var items := FinishLines(pieces, a);
      ghost var b := a + pieces[..|pieces| - 1];
      buf := pieces[|pieces| - 1];
      ShownGrow(g, b, mark, buf);
      EarlyIs(g, b, buf);
      var more := Line(buf, false);
      assert out + (items + more) == out + items + more;
      items := items + more;
      if Early(g, b, mark) <= Early(g, b, buf) {
        mark := buf;
      }
      fed := fed + chunk;
      AnyItemAppend(out, items);
      out := out + items;
      any := any || AnyItem(items);
      assert SplitOn(fed, '\n') == b + [buf];
      assert Done() == b;
      r := Some(items);
    }

    method Close() returns (items: seq<Item>)
      requires Valid()
      modifies this
      ensures Valid() && closed && fed == old(fed) && out == old(out) + items
      ensures !old(closed) ==> out == Meaning(g, fed)
      ensures old(closed) ==> items == Closing(old(out))
    {
      hide LineItems, IsDirective, Late, SplitOn, ParseLines, Strip, Early, Shown, AnyItem, Ready;
      if closed {
        EmptyLine(g, Turn(paused, ended));
      } else {
        ShownFinish(g, Done(), mark, buf);
      }
      items := Line(buf, true);
      NoItem(items);
      AnyItemAppend(out, items);
      any := any || AnyItem(items);
      ghost var all := out + items;
      assert !old(closed) ==> all == ParseLines(g, SplitOn(fed, '\n')).items;
      buf, closed, emitted := "", true, 0;
      if !any {
        assert out + (items + [Issue(EmptyTurn, "")]) == all + [Issue(EmptyTurn, "")];
        items := items + [Issue(EmptyTurn, "")];
        AnyItemAppend(all, [Issue(EmptyTurn, "")]);
        OnlyIssue(EmptyTurn, "");
      }
      out := out + items;
    }

    /** Whatever is fed next, what was returned so far is how the whole text's items begin. */
    lemma NeverRetracted(more: string)
      requires Valid() && !closed
      ensures out <= Meaning(g, fed + more)
    {
      hide ParseLines, SplitOn, Early, Shown, Closing;
      SplitAppend(fed, more, '\n', Done(), buf);
      FirstPieceGrows(buf, more, '\n') by {
        assert buf == SplitOn(fed, '\n')[|Done()|];
      }
      ShownStays(g, Done(), mark, SplitOn(buf + more, '\n'));
    }
  }

  /** What a chunk makes of the growing line `last`. */
  lemma PiecesGrow(fed: string, chunk: string, a: seq<string>, last: string)
    requires SplitOn(fed, '\n') == a + [last]
    ensures SplitOn(fed + chunk, '\n') == a + SplitOn(last + chunk, '\n')
    ensures SplitOn(last + chunk, '\n') != [] && last <= SplitOn(last + chunk, '\n')[0]
  {
    hide SplitOn;
    SplitAppend(fed, chunk, '\n', a, last);
    FirstPieceGrows(last, chunk, '\n') by {
      assert last == SplitOn(fed, '\n')[|a|];
    }
  }

  lemma NoItem(items: seq<Item>)
    ensures items == [] ==> !AnyItem(items)
  {}

  lemma OnlyIssue(why: IssueReason, about: string)
    ensures !AnyItem([Issue(why, about)])
  {}

  /** The batch parser: everything in one chunk. */
  method ParseTurn(g: Grammar, text: string) returns (items: seq<Item>)
    ensures items == Meaning(g, text)
  {
    hide Meaning;
    var parser := new StreamParser(g);
    var fed := parser.Feed(text);
    var rest := parser.Close();
    assert "" + text == text && [] + fed.value == fed.value;
    items := fed.value + rest;
  }

  /** A stream of chunks: however the text is cut, it parses to what the whole text means. */
  method ParseStream(g: Grammar, chunks: seq<string>) returns (items: seq<Item>)
    ensures items == Meaning(g, Concat(chunks))
  {
    hide Meaning, ParseLines, SplitOn, Shown, Early, AnyItem, Closing;
    var parser := new StreamParser(g);
    items := [];
    for i := 0 to |chunks|
      invariant parser.Valid() && !parser.closed && parser.g == g && fresh(parser)
      invariant parser.fed == Concat(chunks[..i]) && parser.out == items
    {
      var fed := parser.Feed(chunks[i]);
      items := items + fed.value;
      assert chunks[..i + 1][..i] == chunks[..i];
    }
    assert chunks[..|chunks|] == chunks;
    var rest := parser.Close();
    items := items + rest;
  }
}
