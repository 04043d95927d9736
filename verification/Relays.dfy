/** What a relay segment says: keys, facts, and the items of every kind of segment. */
module Relays {
  import opened Text
  import opened Wrappers
  import opened Protocol
  import opened RoundTripLaws

  // ---------------------------------------------------------------- keys

  predicate Letter(c: char) {
    c in "abcdefghijklmnopqrstuvwxyz"
  }

  predicate KeyChar(c: char) {
    Letter(c) || c in "0123456789" || c == '_'
  }

  lemma LetterAt(k: nat)
    requires k < 26
    ensures "abcdefghijklmnopqrstuvwxyz"[k] as int == 'a' as int + k
  {}

  lemma CapitalAt(k: nat)
    requires k < 26
    ensures "ABCDEFGHIJKLMNOPQRSTUVWXYZ"[k] as int == 'A' as int + k
  {}

  lemma LetterIs(c: char)
    ensures Letter(c) <==> 'a' <= c <= 'z'
  {
    if 'a' <= c <= 'z' {
      LetterAt(c as int - 'a' as int);
    }
    if Letter(c) {
      var k :| 0 <= k < 26 && "abcdefghijklmnopqrstuvwxyz"[k] == c;
      LetterAt(k);
    }
  }

  lemma DigitIs(c: char)
    ensures c in "0123456789" <==> '0' <= c <= '9'
  {
    if '0' <= c <= '9' {
      assert "0123456789"[c as int - '0' as int] == c;
    }
  }

  lemma KeyCharIs(c: char)
    ensures IsKeyChar(c) <==> KeyChar(c)
  {
    hide Letter;
    LetterIs(c);
    DigitIs(c);
  }

  /** Lower-case letters, digits and underscores, in parts that a single dot separates; a letter comes first. */
  predicate Key(s: string) {
    && s != "" && Letter(s[0])
    && (forall i | 0 <= i < |s| :: KeyChar(s[i]) || s[i] == '.')
    && s[|s| - 1] != '.'
    && (forall i | 0 <= i < |s| - 1 :: !(s[i] == '.' && s[i + 1] == '.'))
  }

  /** All the characters of a key, and no empty part. */
  predicate Parted(s: string) {
    && s != "" && s[0] != '.' && s[|s| - 1] != '.'
    && (forall i | 0 <= i < |s| :: IsKeyChar(s[i]) || s[i] == '.')
    && (forall i | 0 <= i < |s| - 1 :: !(s[i] == '.' && s[i + 1] == '.'))
  }

  predicate AllParts(parts: seq<string>) {
    forall k | 0 <= k < |parts| :: IsKeyPart(parts[k])
  }

  lemma {:induction false} PartedIs(s: string)
    ensures AllParts(SplitOn(s, '.')) <==> Parted(s)
    decreases |s|
  {
    hide IsKeyChar;
    var e := Find(s, '.', 0);
    if e == |s| {
      assert SplitOn(s, '.') == [s];
      OnePart(s);
      DotIs();
    } else {
      var rest := s[e + 1..];
      PartedIs(rest);
      PartsCons(s[..e], SplitOn(rest, '.'));
      PartedCons(s, e);
    }
  }

  lemma OnePart(s: string)
    ensures AllParts([s]) <==> IsKeyPart(s)
  {
    hide IsKeyPart;
    assert [s][0] == s;
    if AllParts([s]) {
      assert IsKeyPart([s][0]);
    }
  }

  lemma DotIs()
    ensures !IsKeyChar('.')
  {}

  lemma PartsCons(part: string, parts: seq<string>)
    ensures AllParts([part] + parts) <==> IsKeyPart(part) && AllParts(parts)
  {
    hide IsKeyPart;
    var all := [part] + parts;
    assert all[0] == part;
    if AllParts(all) {
      forall k | 0 <= k < |parts| ensures IsKeyPart(parts[k]) {
        assert all[k + 1] == parts[k];
      }
    }
  }

  lemma PartedCons(s: string, e: nat)
    requires e < |s| && s[e] == '.' && forall j | 0 <= j < e :: s[j] != '.'
    ensures Parted(s) <==> IsKeyPart(s[..e]) && Parted(s[e + 1..])
  {
    hide IsKeyChar;
    DotIs();
    var rest := s[e + 1..];
    if Parted(s) {
      PartedSplits(s, e);
    }
    if IsKeyPart(s[..e]) && Parted(rest) {
      PartedJoins(s, e);
    }
  }

  lemma PartedSplits(s: string, e: nat)
    requires e < |s| && s[e] == '.' && (forall j | 0 <= j < e :: s[j] != '.') && Parted(s)
    ensures IsKeyPart(s[..e]) && Parted(s[e + 1..])
  {
    hide IsKeyChar;
    var rest := s[e + 1..];
    assert e > 0 && e < |s| - 1;
    assert rest[0] == s[e + 1] && rest[|rest| - 1] == s[|s| - 1];
    forall i | 0 <= i < |rest| ensures IsKeyChar(rest[i]) || rest[i] == '.' {
      assert rest[i] == s[e + 1 + i];
    }
    forall i | 0 <= i < |rest| - 1 ensures !(rest[i] == '.' && rest[i + 1] == '.') {
      assert rest[i] == s[e + 1 + i] && rest[i + 1] == s[e + 2 + i];
    }
  }

  lemma PartedJoins(s: string, e: nat)
    requires e < |s| && s[e] == '.' && (forall j | 0 <= j < e :: s[j] != '.')
    requires IsKeyPart(s[..e]) && Parted(s[e + 1..])
    ensures Parted(s)
  {
    hide IsKeyChar;
    var a, rest := s[..e], s[e + 1..];
    assert s[0] == a[0] && s[|s| - 1] == rest[|rest| - 1];
    forall i | 0 <= i < |s| ensures IsKeyChar(s[i]) || s[i] == '.' {
      if i < e {
        assert s[i] == a[i];
      } else if i > e {
        assert s[i] == rest[i - e - 1];
      }
    }
    forall i | 0 <= i < |s| - 1 ensures !(s[i] == '.' && s[i + 1] == '.') {
      if i == e {
        assert s[i + 1] == rest[0];
      } else if i > e {
        assert s[i] == rest[i - e - 1] && s[i + 1] == rest[i - e];
      }
    }
  }

  lemma KeyExactly(s: string)
    ensures IsKey(s) <==> Key(s)
  {
    hide IsKeyChar, KeyChar, IsKeyPart, SplitOn, Letter;
    PartedIs(s);
    AllPartsIs(SplitOn(s, '.'));
    DotIs();
    forall i | 0 <= i < |s| ensures IsKeyChar(s[i]) <==> KeyChar(s[i]) {
      KeyCharIs(s[i]);
    }
    if s != "" {
      LetterIs(s[0]);
    }
  }

  lemma AllPartsIs(parts: seq<string>)
    ensures AllParts(parts) <==> forall part | part in parts :: IsKeyPart(part)
  {
    hide IsKeyPart;
  }

  // ---------------------------------------------------------------- facts

  /** A piece that reads as this pair: what stands around its first equals sign, stripped. */
  ghost predicate Reads(piece: string, p: (string, string)) {
    exists a, b :: piece == a + "=" + b && '=' !in a && p == (Strip(a), Strip(b)) && Key(p.0) && p.1 != ""
  }

  lemma PairExactly(piece: string, p: (string, string))
    ensures PairOf(piece) == Some(p) <==> Reads(piece, p)
  {
    hide Strip, IsKey, Key;
    KeyExactly(p.0);
    var e := Find(piece, '=', 0);
    if e < |piece| {
      assert piece == piece[..e] + "=" + piece[e + 1..];
    }
    if a, b :| piece == a + "=" + b && '=' !in a && p == (Strip(a), Strip(b)) && Key(p.0) && p.1 != "" {
      assert piece[|a|] == '=' && forall j | 0 <= j < |a| :: piece[j] == a[j];
      assert e == |a|;
      assert piece[..e] == a && piece[e + 1..] == b;
    }
  }

  /** Facts are written between semicolons, and every piece must read as one. */
  ghost predicate FactsRead(pieces: seq<string>, facts: seq<(string, string)>) {
    |facts| == |pieces| && forall k | 0 <= k < |facts| :: Reads(pieces[k], facts[k])
  }

  lemma {:induction false} PiecesExactly(pieces: seq<string>, facts: seq<(string, string)>)
    ensures PairsOf(pieces) == Some(facts) <==> FactsRead(pieces, facts)
  {
    hide PairOf, Reads;
    if pieces != [] {
      if facts == [] {
        NoFacts(pieces);
      } else {
        PairExactly(pieces[0], facts[0]);
        PiecesExactly(pieces[1..], facts[1..]);
        FactsCons(pieces, facts);
        assert facts == [facts[0]] + facts[1..];
      }
    }
  }

  lemma NoFacts(pieces: seq<string>)
    requires pieces != []
    ensures PairsOf(pieces) != Some([])
  {
    hide PairOf;
  }

  lemma FactsCons(pieces: seq<string>, facts: seq<(string, string)>)
    requires pieces != [] && facts != []
    ensures FactsRead(pieces, facts) <==> Reads(pieces[0], facts[0]) && FactsRead(pieces[1..], facts[1..])
  {
    hide Reads;
    if Reads(pieces[0], facts[0]) && FactsRead(pieces[1..], facts[1..]) {
      forall k | 0 <= k < |facts| ensures Reads(pieces[k], facts[k]) {
        if k > 0 {
          assert pieces[k] == pieces[1..][k - 1] && facts[k] == facts[1..][k - 1];
        }
      }
    }
  }

  /** The facts of a text, if its pieces between semicolons all read as facts. */
  lemma FactsExactly(text: string, pieces: seq<string>, facts: seq<(string, string)>)
    requires pieces != [] && text == Join(pieces, ";") && forall k | 0 <= k < |pieces| :: ';' !in pieces[k]
    ensures Pairs(text) == Some(facts) <==> FactsRead(pieces, facts)
  {
    hide PairsOf, FactsRead, SplitOn;
    assert ";" == [';'];
    SplitJoin(pieces, ';');
    PiecesExactly(pieces, facts);
  }

  // ---------------------------------------------------------------- segments

  /** A word in lower or upper case, or both: the Kelvin sign counts as a `k`. */
  predicate Spelled(head: string, w: string) {
    |head| == |w| && forall i | 0 <= i < |w| :: LowerIs([head[i]], [w[i]])
  }

  predicate Lowers(c: char, l: char) {
    c == l || ('a' <= l <= 'z' && c as int + 32 == l as int) || (l == 'k' && c == '\U{212A}')
  }

  lemma OneLower(c: char, l: char)
    ensures LowerIs([c], [l]) <==> Lowers(c, l)
  {
    assert [c][0] == c && [l][0] == l;
  }

  lemma LettersLower(c: char, k: nat)
    requires k < 26
    ensures var l := "abcdefghijklmnopqrstuvwxyz"[k];
      LowerIs([c], [l]) <==> c == l || c == "ABCDEFGHIJKLMNOPQRSTUVWXYZ"[k] || (l == 'k' && c as int == 0x212A)
  {
    LetterAt(k);
    CapitalAt(k);
    OneLower(c, "abcdefghijklmnopqrstuvwxyz"[k]);
  }

  lemma SpelledIs(head: string, w: string)
    ensures Spelled(head, w) <==> LowerIs(head, w)
  {
    if |head| == |w| {
      forall i | 0 <= i < |w| ensures LowerIs([head[i]], [w[i]]) <==> Lowers(head[i], w[i]) {
        OneLower(head[i], w[i]);
      }
    }
  }

  /** A head that looks like the kind of a relay: one of the four words, or any lower-case word before facts. */
  predicate LooksTyped(g: Grammar, head: string, rest: string) {
    || Spelled(head, "fact") || Spelled(head, "correction") || Spelled(head, "request") || Spelled(head, "revoke")
    || (g.lowerWord(head) && Pairs(rest).Some?)
  }

  /** What a segment says whose first word is `head`. */
  function SegmentItems(g: Grammar, segment: string, head: string, rest: string): seq<Item>
  {
    var facts, note := Pairs(rest), Relay(Note, segment, []);
    match (head, g.lane)
    case ("fact", _) =>
      if facts.Some? then [Relay(Fact, "", facts.value)] else [note, Issue(MalformedFact, segment)]
    case ("correction", Cp) => [Issue(WrongLane, segment)]
    case ("request", Cp) => [Issue(WrongLane, segment)]
    case ("revoke", Cp) => [Issue(WrongLane, segment)]
    case ("correction", User) =>
      if facts.Some? && |facts.value| == 1 then [Relay(Correction, "", facts.value)]
      else [note, Issue(MalformedFact, segment)]
    case ("request", User) =>
      if rest != "" then [Relay(Request, rest, [])] else [note, Issue(MalformedRelay, segment)]
    case ("revoke", User) =>
      if rest != "" then [Relay(Revoke, rest, [])] else [note, Issue(MalformedRelay, segment)]
    case _ =>
      if LooksTyped(g, head, rest) then [note, Issue(MalformedRelay, segment)] else [note]
  }

  /** A segment splits at its first space. */
  lemma SegmentSaid(g: Grammar, segment: string, head: string, tail: string)
    requires ' ' !in head && ((segment == head && tail == "") || segment == head + " " + tail)
    ensures RelayItems(g, segment) ==
      if segment == "" then [Issue(MalformedRelay, "")] else SegmentItems(g, segment, head, Strip(tail))
  {
    hide Strip, Pairs, LowerIs, LooksTyped;
    LooksIs(g, head, Strip(tail));
    LowerSame();
    HeadIs(segment, head, tail);
    StripNothing();
  }

  lemma LooksIs(g: Grammar, head: string, rest: string)
    ensures LooksTyped(g, head, rest) <==>
      || LowerIs(head, "fact") || LowerIs(head, "correction") || LowerIs(head, "request") || LowerIs(head, "revoke")
      || (g.lowerWord(head) && Pairs(rest).Some?)
  {
    hide Pairs, LowerIs, Spelled;
    SpelledIs(head, "fact");
    SpelledIs(head, "correction");
    SpelledIs(head, "request");
    SpelledIs(head, "revoke");
  }

  lemma HeadIs(segment: string, head: string, tail: string)
    requires ' ' !in head && ((segment == head && tail == "") || segment == head + " " + tail)
    ensures var e := Find(segment, ' ', 0);
      segment[..e] == head && (if e < |segment| then segment[e + 1..] == tail else tail == "")
  {
    hide Find;
    forall j | 0 <= j < |head| ensures segment[j] != ' ' {
      assert segment[j] == head[j] && head[j] in head;
    }
    assert segment[..|head|] == head;
    if segment != head {
      SpaceAfter(segment, head, tail);
      FindIs(segment, ' ', |head|);
    }
  }

  lemma SpaceAfter(segment: string, head: string, tail: string)
    requires segment == head + " " + tail
    ensures segment[|head|] == ' ' && segment[|head| + 1..] == tail
  {}

  lemma StripNothing()
    ensures Strip("") == ""
  {}

  lemma LowerSame()
    ensures LowerIs("request", "request") && LowerIs("revoke", "revoke")
  {}
}
