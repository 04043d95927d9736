/**
 The Fast grammar: what a line of model text means, and what a whole text means line by line.
 Everything here is a pure function; `Streaming` parses the same grammar incrementally and
 `RoundTrip` prints it.
 */
module Protocol {
  import opened Text
  import opened Wrappers

  datatype Lane = User | Cp

  datatype HoldReason = Offer | Decision | FactRequest | Pressure | Unclear

  datatype RelayKind = Note | Fact | Correction | Request | Revoke

  datatype IssueReason =
    | WrongLane | UnknownDirective | BadHoldReason | DuplicatePause
    | MalformedFact | MalformedRelay | EmptyTurn | DuplicateEndCall
    | StrayDirective | InlineDirective | ScaffoldEcho | SpeechAfterPause

  datatype Item =
    | Speech(text: string)
    | Relay(kind: RelayKind, note: string, facts: seq<(string, string)>)
    | Hold(reason: HoldReason)
    | Wait
    | EndCall
    | Issue(why: IssueReason, about: string)

  /**
   The two profile fields the grammar reads, and the two Unicode tables it asks:
   the regex class `\w`, and `isalpha() and islower()` of a word.
   */
  datatype Grammar = Grammar(
    lane: Lane, pauseEndsSpeech: bool, word: char -> bool, lowerWord: string -> bool)

  /** A renderer profile, as far as the grammar reads it. */
  datatype Profile = Profile(lane: Lane, pauseEndsSpeech: bool)

  /** The grammar of a parser: a profile must be of its lane, and without one no flag is set. */
  function GrammarOf(
    lane: Lane, profile: Option<Profile>, word: char -> bool, lowerWord: string -> bool
  ): (g: Option<Grammar>)
    ensures g.None? <==> profile.Some? && profile.value.lane != lane
    ensures g.Some? ==> g.value.lane == lane
    ensures g.Some? ==> (g.value.pauseEndsSpeech <==> profile.Some? && profile.value.pauseEndsSpeech)
  {
    match profile
    case None => Some(Grammar(lane, false, word, lowerWord))
    case Some(p) => if p.lane != lane then None else Some(Grammar(lane, p.pauseEndsSpeech, word, lowerWord))
  }

  /** One `@hold`/`@wait` and one `@end_call` per turn. */
  datatype Turn = Turn(paused: bool, ended: bool)

  const START := Turn(false, false)

  // ---------------------------------------------------------------- matchers

  /**
   `re.IGNORECASE` of a lower-case ASCII letter (or of a symbol, which only matches itself),
   with the three letters outside ASCII that Python's case folding adds to `i` and `s`.
   */
  predicate Fold(c: char, l: char) {
    || c == l
    || ('a' <= l <= 'z' && c as int + 32 == l as int)
    || (l == 'i' && (c == '\U{0130}' || c == '\U{0131}'))
    || (l == 's' && c == '\U{017F}')
  }

  predicate Folds(s: string, p: string) {
    |s| == |p| && forall k | 0 <= k < |p| :: Fold(s[k], p[k])
  }

  predicate FoldAt(s: string, i: nat, p: string) {
    i + |p| <= |s| && Folds(s[i..i + |p|], p)
  }

  predicate SlowAt(s: string, i: nat) {
    FoldAt(s, i, "@slow:")
  }

  /** The first `@slow:` at or after `i`, else the length. */
  function FindSlow(s: string, i: nat): (r: nat)
    requires i <= |s|
    ensures i <= r <= |s|
    ensures forall j | i <= j < r :: !SlowAt(s, j)
    ensures r < |s| ==> SlowAt(s, r)
    decreases |s| - i
  {
    if i < |s| && !SlowAt(s, i) then FindSlow(s, i + 1) else i
  }

  predicate HasSlow(s: string) {
    exists i | 0 <= i < |s| :: SlowAt(s, i)
  }

  /** What stands before the first `@slow:`, and the segments after each one (regex split). */
  function SlowSplit(s: string): (parts: seq<string>)
    ensures parts != []
    decreases |s|
  {
    var k := FindSlow(s, 0);
    if k == |s| then [s] else [s[..k]] + SlowSplit(LStrip(s[k + 6..]))
  }

  function SkipSpaces(s: string, i: nat): (e: nat)
    requires i <= |s|
    ensures i <= e <= |s| && (e < |s| ==> !IsSpace(s[e]))
    ensures forall j | i <= j < e :: IsSpace(s[j])
    decreases |s| - i
  {
    hide IsSpace;
    if i < |s| && IsSpace(s[i]) then SkipSpaces(s, i + 1) else i
  }

  /** The length of a leading `FIRST:`/`THEN:` with the white space after it; 0 without one. */
  function LeadEnd(s: string): (e: nat)
    ensures e <= |s|
  {
    hide IsSpace;
    var w := if FoldAt(s, 0, "first") then 5 else if FoldAt(s, 0, "then") then 4 else 0;
    if w == 0 then 0
    else
      var c := SkipSpaces(s, w);
      if c < |s| && s[c] == ':' then SkipSpaces(s, c + 1) else 0
  }

  /** Where a trailing `@end_call` starts, else the length. */
  function EndCallAt(s: string): (e: nat)
    ensures e <= |s|
  {
    hide IsSpace;
    var r := RStrip(s);
    if |r| >= 9 && FoldAt(r, |r| - 9, "@end_call") then |r| - 9 else |s|
  }

  /** `word` ends `q`, and a word boundary stands before it. */
  predicate WordEnds(g: Grammar, q: string, w: string) {
    && |q| >= |w|
    && FoldAt(q, |q| - |w|, w)
    && (|q| == |w| || !g.word(q[|q| - |w| - 1]))
  }

  /** Where a trailing `THEN:`/`FIRST:` starts, else the length. */
  function ScaffoldAt(g: Grammar, s: string): (e: nat)
    ensures e <= |s|
  {
    hide IsSpace;
    var r := RStrip(s);
    if r == "" || r[|r| - 1] != ':' then |s|
    else
      var q := RStrip(r[..|r| - 1]);
      if WordEnds(g, q, "first") then |q| - 5
      else if WordEnds(g, q, "then") then |q| - 4
      else |s|
  }

  predicate ExactAt(s: string, i: nat, p: string) {
    i + |p| <= |s| && s[i..i + |p|] == p
  }

  /** A directive in the middle of speech: spoken, and counted. */
  predicate Inline(g: Grammar, s: string) {
    exists i | 0 <= i < |s| ::
      || ((ExactAt(s, i, "@hold") || ExactAt(s, i, "@wait")) && (i + 5 == |s| || !g.word(s[i + 5])))
      || FoldAt(s, i, "@end_call")
  }

  predicate IsStop(c: char) {
    c == '.' || c == '!' || c == '?'
  }

  /** The first white space at or after `i` that follows a sentence end, else the length. */
  function BreakAt(x: string, i: nat): (r: nat)
    requires 0 < i
    ensures r <= |x|
    ensures r < |x| ==> i <= r && IsStop(x[r - 1]) && IsSpace(x[r])
    ensures forall j | i <= j < r && j < |x| :: !(IsStop(x[j - 1]) && IsSpace(x[j]))
    decreases |x| - i
  {
    hide IsSpace;
    if i >= |x| then |x|
    else if IsStop(x[i - 1]) && IsSpace(x[i]) then i
    else BreakAt(x, i + 1)
  }

  /** The sentences of a text: split at white space after `.`, `!` or `?`. */
  function BreakSplit(x: string): (r: seq<string>)
    ensures r != []
    decreases |x|
  {
    hide IsSpace;
    var i := BreakAt(x, 1);
    if i == |x| then [x] else [x[..i]] + BreakSplit(x[SkipSpaces(x, i)..])
  }

  // ---------------------------------------------------------------- cleaning and speech

  /** The scaffold strips, and whether a trailing `@end_call` went. */
  function Clean(g: Grammar, spoken: string): (string, bool)
  {
    var t := Strip(spoken);
    var text := Strip(t[LeadEnd(t)..]);
    var cut := Strip(text[..EndCallAt(text)]);
    (Strip(cut[..ScaffoldAt(g, cut)]), cut != text)
  }

  /** A canonical sentence. */
  predicate Speakable(g: Grammar, s: string) {
    && s != ""
    && s[0] != '@'
    && '\n' !in s
    && s == Strip(s)
    && !HasSlow(s)
    && LeadEnd(s) == 0
    && EndCallAt(s) == |s|
    && ScaffoldAt(g, s) == |s|
  }

  function SentenceItems(g: Grammar, s: string): seq<Item>
  {
    if !Speakable(g, s) then
      [Issue(if StartsWith(s, '@') then StrayDirective else ScaffoldEcho, s)]
    else if Inline(g, s) then [Speech(s), Issue(InlineDirective, s)]
    else [Speech(s)]
  }

  function SpeechItems(g: Grammar, ss: seq<string>): seq<Item>
  {
    if ss == [] then []
    else (if ss[0] != "" then SentenceItems(g, ss[0]) else []) + SpeechItems(g, ss[1..])
  }

  // ---------------------------------------------------------------- relays

  predicate IsKeyChar(c: char) {
    'a' <= c <= 'z' || '0' <= c <= '9' || c == '_'
  }

  predicate IsKeyPart(s: string) {
    s != "" && forall i | 0 <= i < |s| :: IsKeyChar(s[i])
  }

  /** A fact key: dot-separated parts, the first one starting with a letter. */
  predicate IsKey(s: string) {
    && s != ""
    && 'a' <= s[0] <= 'z'
    && forall part | part in SplitOn(s, '.') :: IsKeyPart(part)
  }

  function PairOf(piece: string): Option<(string, string)>
  {
    var e := Find(piece, '=', 0);
    if e == |piece| then None
    else
      var key, value := Strip(piece[..e]), Strip(piece[e + 1..]);
      if !IsKey(key) || value == "" then None else Some((key, value))
  }

  function PairsOf(pieces: seq<string>): Option<seq<(string, string)>>
    decreases |pieces|
  {
    if pieces == [] then Some([])
    else
      match PairOf(pieces[0])
      case None => None
      case Some(p) =>
        match PairsOf(pieces[1..])
        case None => None
        case Some(rest) => Some([p] + rest)
  }

  /** `key = value` pairs separated by `;`, or nothing if one is malformed. */
  function Pairs(text: string): Option<seq<(string, string)>>
  {
    PairsOf(SplitOn(text, ';'))
  }

  /** `str.lower()` equals a lower-case ASCII word: the Kelvin sign lowers to `k`. */
  predicate LowerIs(s: string, w: string) {
    && |s| == |w|
    && forall i | 0 <= i < |w| ::
      || s[i] == w[i]
      || ('a' <= w[i] <= 'z' && s[i] as int + 32 == w[i] as int)
      || (w[i] == 'k' && s[i] == '\U{212A}')
  }

  /** One `@slow:` segment, already stripped. */
  function RelayItems(g: Grammar, segment: string): seq<Item>
  {
    if segment == "" then [Issue(MalformedRelay, "")]
    else
      var e := Find(segment, ' ', 0);
      var head, rest := segment[..e], if e < |segment| then Strip(segment[e + 1..]) else "";
      var note := Relay(Note, segment, []);
      if head in ["correction", "request", "revoke"] && g.lane != User then [Issue(WrongLane, segment)]
      else if head == "fact" || head == "correction" then
        match Pairs(rest)
        case Some(pairs) =>
          if head == "correction" && |pairs| != 1 then [note, Issue(MalformedFact, segment)]
          else [Relay(if head == "fact" then Fact else Correction, "", pairs)]
        case None => [note, Issue(MalformedFact, segment)]
      else if (head == "request" || head == "revoke") && rest != "" then
        [Relay(if head == "request" then Request else Revoke, rest, [])]
      else
        var wrongCase :=
          || LowerIs(head, "fact") || LowerIs(head, "correction")
          || LowerIs(head, "request") || LowerIs(head, "revoke");
        var unknownTyped := g.lowerWord(head) && Pairs(rest).Some?;
        if wrongCase || unknownTyped then [note, Issue(MalformedRelay, segment)] else [note]
  }

  function RelayAll(g: Grammar, segments: seq<string>): seq<Item>
  {
    if segments == [] then []
    else RelayItems(g, Strip(segments[0])) + RelayAll(g, segments[1..])
  }

  // ---------------------------------------------------------------- directives

  function ReasonText(r: HoldReason): (s: string)
    ensures s != "" && NoSpace(s) && '\n' !in s
  {
    match r
    case Offer => "offer"
    case Decision => "decision"
    case FactRequest => "fact_request"
    case Pressure => "pressure"
    case Unclear => "unclear"
  }

  function ReasonOf(s: string): (r: Option<HoldReason>)
    ensures r.Some? ==> ReasonText(r.value) == s
    ensures forall known: HoldReason :: s == ReasonText(known) ==> r == Some(known)
  {
    if s == "offer" then Some(Offer)
    else if s == "decision" then Some(Decision)
    else if s == "fact_request" then Some(FactRequest)
    else if s == "pressure" then Some(Pressure)
    else if s == "unclear" then Some(Unclear)
    else None
  }

  function Pause(t: Turn, item: Item, text: string): (seq<Item>, Turn)
  {
    if t.paused then ([Issue(DuplicatePause, text)], t) else ([item], t.(paused := true))
  }

  /** A line that starts with `@` and is no relay. */
  function Directive(g: Grammar, t: Turn, text: string): (seq<Item>, Turn)
  {
    if FoldAt(text, 0, "@end_call") then
      if t.ended then ([Issue(DuplicateEndCall, text)], t) else ([EndCall], t.(ended := true))
    else
      var words := Words(text);
      if words != [] && words[0] == "@hold" then
        if g.lane != Cp then ([Issue(WrongLane, text)], t)
        else
          var reason := if |words| == 2 then ReasonOf(words[1]) else None;
          if reason.Some? then Pause(t, Hold(reason.value), text)
          else ([Issue(BadHoldReason, text)], t)
      else if text == "@wait" then Pause(t, Wait, text)
      else ([Issue(UnknownDirective, text)], t)
  }

  // ---------------------------------------------------------------- lines and texts

  predicate IsDirective(text: string) {
    StartsWith(text, '@') && !SlowAt(text, 0)
  }

  /** Under a `pause_ends_speech` profile a paused turn has no more speech. */
  predicate Late(g: Grammar, t: Turn, text: string) {
    t.paused && g.pauseEndsSpeech && !StartsWith(text, '@')
  }

  /** The sentences of a cleaned line, none if it is neither speech nor a directive. */
  function Sentences(spoken: string): seq<string>
  {
    if StartsWith(spoken, '@') then [] else BreakSplit(spoken)
  }

  /** The sentences a (stripped) line speaks, as the splitter returns them. */
  function Spoken(g: Grammar, text: string): seq<string>
  {
    Sentences(Clean(g, SlowSplit(text)[0]).0)
  }

  function From(ss: seq<string>, k: nat): seq<string>
  {
    if k <= |ss| then ss[k..] else []
  }

  /** A finished line of speech and relays, after its first `skip` sentences. */
  function SpeechLine(g: Grammar, text: string, skip: nat): seq<Item>
  {
    var parts := SlowSplit(text);
    var (spoken, cut) := Clean(g, parts[0]);
    var stray :=
      if StartsWith(spoken, '@') then [Issue(StrayDirective, spoken)]
      else if cut then [Issue(InlineDirective, "@end_call")]
      else [];
    SpeechItems(g, From(Sentences(spoken), skip)) + stray + RelayAll(g, parts[1..])
  }

  /** What a finished line yields after its first `skip` sentences. */
  function LineItems(g: Grammar, t: Turn, raw: string, skip: nat): (seq<Item>, Turn)
  {
    var text := Strip(raw);
    if IsDirective(text) then Directive(g, t, text)
    else if Late(g, t, text) then (if text != "" then [Issue(SpeechAfterPause, text)] else [], t)
    else (SpeechLine(g, text, skip), t)
  }

  datatype Parsed = Parsed(items: seq<Item>, turn: Turn)

  /** Finished lines, one after the other. */
  function ParseLines(g: Grammar, lines: seq<string>): Parsed
  {
    if lines == [] then Parsed([], START)
    else
      var before := ParseLines(g, lines[..|lines| - 1]);
      var (items, turn) := LineItems(g, before.turn, lines[|lines| - 1], 0);
      Parsed(before.items + items, turn)
  }

  predicate AnyItem(items: seq<Item>) {
    exists i | 0 <= i < |items| :: !items[i].Issue?
  }

  /** The empty turn is an issue of its own. */
  function Closing(items: seq<Item>): seq<Item>
  {
    if AnyItem(items) then [] else [Issue(EmptyTurn, "")]
  }

  /** What a whole text means. */
  function Meaning(g: Grammar, text: string): seq<Item>
  {
    var items := ParseLines(g, SplitOn(text, '\n')).items;
    items + Closing(items)
  }

  lemma {:induction false} SpeechItemsAppend(g: Grammar, a: seq<string>, b: seq<string>)
    ensures SpeechItems(g, a + b) == SpeechItems(g, a) + SpeechItems(g, b)
  {
    if a == [] {
      assert a + b == b;
    } else {
      assert (a + b)[1..] == a[1..] + b;
      SpeechItemsAppend(g, a[1..], b);
    }
  }
}
