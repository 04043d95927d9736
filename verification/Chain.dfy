/**
 The provenance checker: every delivered line goes back through the log to one Speech item of the
 recorded model response, re-parsed, or to one released verbatim line.
 */
module Chain {
  import opened Wrappers
  import P = Protocol

  // ---------------------------------------------------------------- the log it reads

  datatype Call = Call(
    callId: string, failed: bool, role: string, model: string, promptSha: string,
    responseSha: Option<string>, realHttp: bool)

  datatype Payload =
    | FastRequest(lane: string, genId: string, model: string, promptSha: string, profile: string)
    | LlmCall(call: Call)
    | FastTurn(lane: string, genId: string, callId: string, items: Option<seq<P.Item>>)
    | FastSentence(uttId: string, lane: string, genId: string, text: string)
    | SpeakVerbatim(lane: string, kind: string, text: string, capId: Option<string>)
    | SpeakReleased(capId: Option<string>)
    | UttDelivered(uttId: string, lane: string, heard: Option<string>, said: string, interrupted: bool)
    | Other

  datatype Event = Event(id: nat, causes: seq<nat>, payload: Payload)

  /** The recorded texts by hash, the grammars the profiles name, and whether only real calls count. */
  datatype Bundle = Bundle(
    prompts: map<string, string>, profiles: map<string, P.Profile>, realOnly: bool,
    word: char -> bool, lowerWord: string -> bool)

  datatype Fault =
    | NotItsCall | WrongLane | WrongRole | NotItsRequest | OtherModelOrPrompt | NoResponse | WrongProfile
    | NotTheParse | CallUsed
    | NoTurn | ChainDiffers | MalformedItems | NotRealHttp | NotSpoken | OtherLane | NoChain
    | AlreadyDelivered | TextDiffers | HeardDiffers
    | NoAcceptLine | LineWithoutCap | OtherCap

  function ById(events: seq<Event>): (r: map<nat, Event>)
    ensures forall k | k in r :: r[k] in events && r[k].id == k
  {
    if events == [] then map[]
    else
      var n := |events| - 1;
      ById(events[..n])[events[n].id := events[n]]
  }

  /** An id stands for the last event that has it. */
  lemma {:induction false} ByIdLast(events: seq<Event>, i: nat)
    requires i < |events| && forall j | i < j < |events| :: events[j].id != events[i].id
    ensures events[i].id in ById(events) && ById(events)[events[i].id] == events[i]
    decreases |events|
  {
    var n := |events| - 1;
    if i < n {
      ByIdLast(events[..n], i);
    }
  }

  datatype Kind = OfRequest | OfCall | OfTurn | OfSentence | OfVerbatim | OfReleased

  predicate Is(p: Payload, kind: Kind) {
    match kind
    case OfRequest => p.FastRequest?
    case OfCall => p.LlmCall?
    case OfTurn => p.FastTurn?
    case OfSentence => p.FastSentence?
    case OfVerbatim => p.SpeakVerbatim?
    case OfReleased => p.SpeakReleased?
  }

  /** The cited events of one type, in the order they are cited. */
  function Cited(known: map<nat, Event>, causes: seq<nat>, kind: Kind): (r: seq<Event>)
    ensures forall e | e in r :: Is(e.payload, kind) && e in known.Values
  {
    if causes == [] then []
    else
      (if causes[0] in known && Is(known[causes[0]].payload, kind) then [known[causes[0]]] else [])
      + Cited(known, causes[1..], kind)
  }

  // ---------------------------------------------------------------- a turn

  function Attempts(calls: seq<Event>, callId: string): (r: seq<Call>)
    requires forall e | e in calls :: e.payload.LlmCall?
    ensures forall c | c in r :: c.callId == callId && !c.failed
  {
    if calls == [] then []
    else
      assert calls[0] in calls;
      var c := calls[0].payload.call;
      (if c.callId == callId && !c.failed then [c] else []) + Attempts(calls[1..], callId)
  }

  /** The one successful attempt of the call the turn names. */
  function CallOf(known: map<nat, Event>, turn: Event): Option<Call>
    requires turn.payload.FastTurn?
  {
    var ok := Attempts(Cited(known, turn.causes, OfCall), turn.payload.callId);
    if |ok| == 1 then Some(ok[0]) else None
  }

  function LaneOf(lane: string): Option<P.Lane>
  {
    if lane == "user" then Some(P.User) else if lane == "cp" then Some(P.Cp) else None
  }

  /** The re-parse of a recorded response under the grammar its request names. */
  function Reparsed(b: Bundle, lane: P.Lane, profile: string, sha: Option<string>): Option<seq<P.Item>>
  {
    if sha.None? || sha.value !in b.prompts || profile !in b.profiles then None
    else
      match P.GrammarOf(lane, Some(b.profiles[profile]), b.word, b.lowerWord)
      case None => None
      case Some(g) => Some(P.Meaning(g, b.prompts[sha.value]))
  }

  /** Why the turn does not follow from its request and its call. */
  function TurnFault(b: Bundle, known: map<nat, Event>, e: Event): Option<Fault>
    requires e.payload.FastTurn?
  {
    var call, requests := CallOf(known, e), Cited(known, e.causes, OfRequest);
    if call.None? || |requests| != 1 then Some(NotItsCall)
    else
      var request, lane := requests[0].payload, LaneOf(e.payload.lane);
      if lane.None? then Some(WrongLane)
      else if call.value.role != "fast_" + e.payload.lane then Some(WrongRole)
      else if request.lane != e.payload.lane || request.genId != e.payload.genId then Some(NotItsRequest)
      else if request.model != call.value.model || request.promptSha != call.value.promptSha then
        Some(OtherModelOrPrompt)
      else if call.value.responseSha.None? || call.value.responseSha.value !in b.prompts then Some(NoResponse)
      else if request.profile !in b.profiles || b.profiles[request.profile].lane != lane.value then Some(WrongProfile)
      else if e.payload.items != Reparsed(b, lane.value, request.profile, call.value.responseSha) then Some(NotTheParse)
      else None
  }

  // ---------------------------------------------------------------- a delivered line

  /** Where a line comes from: a text, the event it is from and, for a sentence, its turn. */
  datatype Link =
    | Broken(fault: Fault)
    | Sentence(text: string, source: nat, turn: Event)
    | Line(text: string, source: nat)

  function SentenceLink(b: Bundle, known: map<nat, Event>, e: Event, sentence: Event): (r: Link)
    requires e.payload.UttDelivered? && sentence.payload.FastSentence?
    ensures r.Sentence? ==> r.source == sentence.id && r.text == sentence.payload.text
    ensures r.Sentence? ==> r.turn in Cited(known, sentence.causes, OfTurn) && r.turn.payload.items.Some?
  {
    var turns := Cited(known, sentence.causes, OfTurn);
    if turns == [] then Broken(NoTurn)
    else
      var s, t, p := sentence.payload, turns[0].payload, e.payload;
      if s.uttId != p.uttId || s.lane != p.lane || s.lane != t.lane || s.genId != t.genId then Broken(ChainDiffers)
      else if t.items.None? then Broken(MalformedItems)
      else
        var call := CallOf(known, turns[0]);
        if b.realOnly && (call.None? || !call.value.realHttp) then Broken(NotRealHttp)
        else Sentence(s.text, sentence.id, turns[0])
  }

  /** The first verbatim line that one of the releases cites. */
  function FirstLine(known: map<nat, Event>, releases: seq<Event>): (r: Option<Event>)
    ensures r.Some? ==> r.value.payload.SpeakVerbatim? && r.value in known.Values
  {
    if releases == [] then None
    else
      var lines := Cited(known, releases[0].causes, OfVerbatim);
      if lines != [] then Some(lines[0]) else FirstLine(known, releases[1..])
  }

  /** The text the chain generated for a delivered line, and its source. */
  function LinkOf(b: Bundle, known: map<nat, Event>, e: Event): (r: Link)
    requires e.payload.UttDelivered?
    ensures r.Sentence? ==> r.turn.payload.FastTurn? && r.turn.payload.items.Some? && r.turn in known.Values
  {
    var sentences := Cited(known, e.causes, OfSentence);
    if sentences != [] then SentenceLink(b, known, e, sentences[0])
    else
      var line := FirstLine(known, Cited(known, e.causes, OfReleased));
      if line.None? then Broken(NoChain)
      else if line.value.payload.lane != e.payload.lane then Broken(OtherLane)
      else Line(line.value.payload.text, line.value.id)
  }

  /** Why the text said or heard is not the one generated. */
  function TextFault(e: Event, generated: string): Option<Fault>
    requires e.payload.UttDelivered?
  {
    var p := e.payload;
    if p.said != generated then Some(TextDiffers)
    else if p.heard != Some(p.said) && !(p.interrupted && p.heard.Some? && p.heard.value <= p.said) then
      Some(HeardDiffers)
    else None
  }

  function SourceOf(link: Link): Option<nat>
  {
    match link
    case Broken(_) => None
    case Sentence(_, source, _) => Some(source)
    case Line(_, source) => Some(source)
  }

  // ---------------------------------------------------------------- a release

  function AcceptLines(lines: seq<Event>): (r: seq<Event>)
    requires forall v | v in lines :: v.payload.SpeakVerbatim?
    ensures forall v | v in r :: v in lines && v.payload.kind == "accept"
  {
    if lines == [] then []
    else
      assert lines[0] in lines;
      (if lines[0].payload.kind == "accept" then [lines[0]] else []) + AcceptLines(lines[1..])
  }

  function FirstOther(accepts: seq<Event>, cap: Option<string>): Option<Fault>
    requires forall v | v in accepts :: v.payload.SpeakVerbatim?
  {
    if accepts == [] then None
    else
      assert accepts[0] in accepts;
      var held := accepts[0].payload.capId;
      if held.None? then Some(LineWithoutCap)
      else if cap != held then Some(OtherCap)
      else FirstOther(accepts[1..], cap)
  }

  /** Why an accept release does not carry its line's capability. */
  function ReleaseFault(known: map<nat, Event>, e: Event): Option<Fault>
    requires e.payload.SpeakReleased?
  {
    var accepts := AcceptLines(Cited(known, e.causes, OfVerbatim));
    if e.payload.capId.Some? && accepts == [] then Some(NoAcceptLine) else FirstOther(accepts, e.payload.capId)
  }

  // ---------------------------------------------------------------- what must hold of all lines together

  function SpeechTexts(items: seq<P.Item>): seq<string>
  {
    if items == [] then []
    else (if items[0].Speech? then [items[0].text] else []) + SpeechTexts(items[1..])
  }

  function TextOf(item: P.Item): seq<string>
  {
    if item.Speech? then [item.text] else []
  }

  /** The texts of the Speech items, in order. */
  lemma {:induction false} SpeechTextsNext(items: seq<P.Item>, item: P.Item)
    ensures SpeechTexts([]) == []
    ensures SpeechTexts(items + [item]) == SpeechTexts(items) + TextOf(item)
  {
    hide TextOf, SpeechTexts;
    var all := items + [item];
    if items == [] {
      assert all == [item];
      OneText(item);
    } else {
      assert all[1..] == items[1..] + [item];
      SpeechTextsNext(items[1..], item);
      TextsFirst(all);
      TextsFirst(items);
      Regroup(TextOf(items[0]), SpeechTexts(items[1..]), TextOf(item));
    }
  }

  lemma OneText(item: P.Item)
    ensures SpeechTexts([item]) == TextOf(item) && SpeechTexts([]) == []
  {
    assert [item][1..] == [];
  }

  lemma TextsFirst(items: seq<P.Item>)
    requires items != []
    ensures SpeechTexts(items) == TextOf(items[0]) + SpeechTexts(items[1..])
  {}

  lemma Regroup<T>(a: seq<T>, b: seq<T>, c: seq<T>)
    ensures a + (b + c) == (a + b) + c
  {}

  /** The calls the turns before event `i` name. */
  ghost function CallsNamed(events: seq<Event>, i: nat): set<string>
    requires i <= |events|
  {
    if i == 0 then {}
    else
      CallsNamed(events, i - 1)
      + if events[i - 1].payload.FastTurn? then {events[i - 1].payload.callId} else {}
  }

  /** The sources of the lines delivered before event `i`. */
  ghost function Sources(b: Bundle, known: map<nat, Event>, events: seq<Event>, i: nat): set<nat>
    requires i <= |events|
  {
    if i == 0 then {}
    else
      Sources(b, known, events, i - 1)
      + if events[i - 1].payload.UttDelivered? && !LinkOf(b, known, events[i - 1]).Broken?
        then {LinkOf(b, known, events[i - 1]).source} else {}
  }

  /** The texts delivered before event `i` from the sentences of one turn. */
  ghost function Spoken(b: Bundle, known: map<nat, Event>, events: seq<Event>, i: nat, turn: nat): multiset<string>
    requires i <= |events|
  {
    if i == 0 then multiset{}
    else
      Spoken(b, known, events, i - 1, turn)
      + if events[i - 1].payload.UttDelivered? && LinkOf(b, known, events[i - 1]).Sentence?
           && LinkOf(b, known, events[i - 1]).turn.id == turn
        then multiset{LinkOf(b, known, events[i - 1]).text} else multiset{}
  }

  /** Every Speech item is delivered at most once: what a turn's sentences spoke is within its items. */
  ghost predicate WithinTurns(b: Bundle, known: map<nat, Event>, events: seq<Event>, n: nat)
    requires n <= |events|
  {
    forall t | t in known.Values && t.payload.FastTurn? && t.payload.items.Some? ::
      Spoken(b, known, events, n, t.id) <= multiset(SpeechTexts(t.payload.items.value))
  }

  /** Nothing is found of the event on its own. */
  predicate Faultless(b: Bundle, known: map<nat, Event>, e: Event) {
    match e.payload
    case FastTurn(_, _, _, _) => TurnFault(b, known, e).None?
    case UttDelivered(_, _, _, _, _) =>
      !LinkOf(b, known, e).Broken? && TextFault(e, LinkOf(b, known, e).text).None?
    case SpeakReleased(_) => ReleaseFault(known, e).None?
    case _ => true
  }

  // ---------------------------------------------------------------- what that asks

  /** What a cause may be looked up for. */
  datatype Want = OfType(kind: Kind) | Attempt(callId: string)

  predicate Wanted(p: Payload, w: Want) {
    match w
    case OfType(kind) => Is(p, kind)
    case Attempt(callId) => p.LlmCall? && p.call.callId == callId && !p.call.failed
  }

  /** Cause number `i` is known and wanted, */
  predicate CauseAt(known: map<nat, Event>, causes: seq<nat>, w: Want, i: nat) {
    i < |causes| && causes[i] in known && Wanted(known[causes[i]].payload, w)
  }

  /** and is the only one, */
  ghost predicate OnlyCause(known: map<nat, Event>, causes: seq<nat>, w: Want, i: nat) {
    CauseAt(known, causes, w, i) && forall k | 0 <= k < |causes| && k != i :: !CauseAt(known, causes, w, k)
  }

  /** or the first one. */
  ghost predicate FirstCause(known: map<nat, Event>, causes: seq<nat>, w: Want, i: nat) {
    CauseAt(known, causes, w, i) && forall k | 0 <= k < i :: !CauseAt(known, causes, w, k)
  }

  /** The turn answers its request with what its call returned, parsed as the request's profile says. */
  predicate Answers(b: Bundle, turn: Payload, request: Payload, call: Call)
    requires turn.FastTurn? && request.FastRequest?
  {
    && turn.lane in ["user", "cp"]
    && call.role == (if turn.lane == "user" then "fast_user" else "fast_cp")
    && request.lane == turn.lane && request.genId == turn.genId
    && request.model == call.model && request.promptSha == call.promptSha
    && call.responseSha.Some? && call.responseSha.value in b.prompts
    && request.profile in b.profiles
    && var p := b.profiles[request.profile];
       && p.lane == (if turn.lane == "user" then P.User else P.Cp)
       && turn.items == Some(
            P.Meaning(P.Grammar(p.lane, p.pauseEndsSpeech, b.word, b.lowerWord), b.prompts[call.responseSha.value]))
  }

  /** A turn cites one request and one successful attempt of its call, and answers the one with the other. */
  ghost predicate Follows(b: Bundle, known: map<nat, Event>, e: Event)
    requires e.payload.FastTurn?
  {
    exists i: nat, j: nat ::
      && OnlyCause(known, e.causes, OfType(OfRequest), i)
      && OnlyCause(known, e.causes, Attempt(e.payload.callId), j)
      && Answers(b, e.payload, known[e.causes[i]].payload, known[e.causes[j]].payload.call)
  }

  /** The first sentence cited, and the first turn it cites: one utterance, lane and generation, of a real call. */
  ghost predicate FromTurn(b: Bundle, known: map<nat, Event>, e: Event, sentence: Event, turn: Event)
    requires e.payload.UttDelivered?
  {
    && (exists i: nat :: FirstCause(known, e.causes, OfType(OfSentence), i) && known[e.causes[i]] == sentence)
    && (exists i: nat :: FirstCause(known, sentence.causes, OfType(OfTurn), i) && known[sentence.causes[i]] == turn)
    && sentence.payload.FastSentence? && turn.payload.FastTurn?
    && sentence.payload.uttId == e.payload.uttId
    && sentence.payload.lane == e.payload.lane == turn.payload.lane
    && sentence.payload.genId == turn.payload.genId
    && turn.payload.items.Some?
    && (b.realOnly ==>
          exists i: nat :: OnlyCause(known, turn.causes, Attempt(turn.payload.callId), i)
                      && known[turn.causes[i]].payload.call.realHttp)
  }

  /** The first line of a release. */
  ghost predicate LineOf(known: map<nat, Event>, release: Event, line: Event) {
    exists j: nat :: FirstCause(known, release.causes, OfType(OfVerbatim), j) && known[release.causes[j]] == line
  }

  /** The first release among the causes that cites a line cites this one first. */
  ghost predicate LineThrough(known: map<nat, Event>, causes: seq<nat>, line: Event) {
    exists i: nat :: SpeaksThrough(known, causes, i, line) &&
      forall k | 0 <= k < i && CauseAt(known, causes, OfType(OfReleased), k) :: Lineless(known, known[causes[k]])
  }

  /** No sentence is cited; the first release that cites a line cites this one first, and it is of the lane. */
  ghost predicate FromLine(known: map<nat, Event>, e: Event, line: Event)
    requires e.payload.UttDelivered?
  {
    && (forall k | 0 <= k < |e.causes| :: !CauseAt(known, e.causes, OfType(OfSentence), k))
    && LineThrough(known, e.causes, line)
    && line.payload.SpeakVerbatim? && line.payload.lane == e.payload.lane
  }

  /** Cause `i` is a release whose first line is this. */
  ghost predicate SpeaksThrough(known: map<nat, Event>, causes: seq<nat>, i: nat, line: Event) {
    CauseAt(known, causes, OfType(OfReleased), i) && LineOf(known, known[causes[i]], line)
  }

  ghost predicate Lineless(known: map<nat, Event>, release: Event) {
    forall j | 0 <= j < |release.causes| :: !CauseAt(known, release.causes, OfType(OfVerbatim), j)
  }

  /** The delivery goes back to this link. */
  ghost predicate Traced(b: Bundle, known: map<nat, Event>, e: Event, link: Link)
    requires e.payload.UttDelivered?
  {
    match link
    case Broken(_) => false
    case Sentence(text, source, turn) =>
      exists sentence ::
        && FromTurn(b, known, e, sentence, turn)
        && text == sentence.payload.text && source == sentence.id
    case Line(text, source) =>
      exists line :: FromLine(known, e, line) && text == line.payload.text && source == line.id
  }

  /** What was said is the text, and what was heard is all of it or, interrupted, its beginning. */
  predicate SaidAs(p: Payload, text: string)
    requires p.UttDelivered?
  {
    && p.said == text
    && p.heard.Some? && (p.heard.value == text || (p.interrupted && p.heard.value <= text))
  }

  /** Cause `i` is an accept line. */
  predicate AcceptAt(known: map<nat, Event>, causes: seq<nat>, i: nat) {
    CauseAt(known, causes, OfType(OfVerbatim), i) && known[causes[i]].payload.kind == "accept"
  }

  /** What is asked of each event on its own. */
  ghost predicate Alone(b: Bundle, known: map<nat, Event>, e: Event) {
    match e.payload
    case FastTurn(_, _, _, _) => Follows(b, known, e)
    case UttDelivered(_, _, _, _, _) => exists link: Link :: Traced(b, known, e, link) && SaidAs(e.payload, link.text)
    case SpeakReleased(capId) =>
      && (capId.Some? ==> exists i: nat :: AcceptAt(known, e.causes, i))
      && (forall i: nat | AcceptAt(known, e.causes, i) ::
            capId.Some? && known[e.causes[i]].payload.capId == capId)
    case _ => true
  }

  // ---------------------------------------------------------------- the lookups find them

  /** The wanted causes, in order. */
  ghost function Hits(known: map<nat, Event>, causes: seq<nat>, w: Want): seq<Event>
  {
    if causes == [] then []
    else (if CauseAt(known, causes, w, 0) then [known[causes[0]]] else []) + Hits(known, causes[1..], w)
  }

  lemma {:induction false} CitedHits(known: map<nat, Event>, causes: seq<nat>, kind: Kind)
    ensures Cited(known, causes, kind) == Hits(known, causes, OfType(kind))
  {
    if causes != [] {
      CitedHits(known, causes[1..], kind);
    }
  }

  lemma {:induction false} AttemptHits(known: map<nat, Event>, causes: seq<nat>, callId: string)
    ensures SameCalls(Attempts(Cited(known, causes, OfCall), callId), Hits(known, causes, Attempt(callId)))
  {
    hide SameCalls;
    if causes == [] {
      NoCalls();
    } else {
      var rest, hits := Cited(known, causes[1..], OfCall), Hits(known, causes[1..], Attempt(callId));
      AttemptHits(known, causes[1..], callId);
      if causes[0] in known && Is(known[causes[0]].payload, OfCall) {
        AttemptNext(known[causes[0]], rest, callId, hits);
        assert Cited(known, causes, OfCall) == [known[causes[0]]] + rest;
      } else {
        assert Cited(known, causes, OfCall) == rest && Hits(known, causes, Attempt(callId)) == hits;
      }
    }
  }

  ghost predicate SameCalls(calls: seq<Call>, hits: seq<Event>) {
    |calls| == |hits| && forall k | 0 <= k < |hits| :: hits[k].payload.LlmCall? && hits[k].payload.call == calls[k]
  }

  lemma NoCalls()
    ensures SameCalls([], [])
  {}

  lemma AttemptNext(e: Event, rest: seq<Event>, callId: string, hits: seq<Event>)
    requires e.payload.LlmCall? && (forall x | x in rest :: x.payload.LlmCall?)
    requires SameCalls(Attempts(rest, callId), hits)
    ensures SameCalls(
      Attempts([e] + rest, callId), (if Wanted(e.payload, Attempt(callId)) then [e] else []) + hits)
  {
    assert ([e] + rest)[1..] == rest;
  }

  /** A cause of the rest is the next cause of all. */
  lemma CauseNext(known: map<nat, Event>, causes: seq<nat>, w: Want, i: nat)
    requires causes != []
    ensures CauseAt(known, causes[1..], w, i) <==> CauseAt(known, causes, w, i + 1)
  {}

  lemma {:induction false} FirstHit(known: map<nat, Event>, causes: seq<nat>, w: Want) returns (i: nat)
    ensures Hits(known, causes, w) != [] ==>
      FirstCause(known, causes, w, i) && Hits(known, causes, w)[0] == known[causes[i]]
    ensures Hits(known, causes, w) == [] <==> forall k | 0 <= k < |causes| :: !CauseAt(known, causes, w, k)
  {
    hide Wanted;
    i := 0;
    if causes != [] && !CauseAt(known, causes, w, 0) {
      var j := FirstHit(known, causes[1..], w);
      i := j + 1;
      forall k | 0 < k < |causes| ensures CauseAt(known, causes, w, k) <==> CauseAt(known, causes[1..], w, k - 1) {
        CauseNext(known, causes, w, k - 1);
      }
      if Hits(known, causes, w) == [] {
        forall k | 0 <= k < |causes| ensures !CauseAt(known, causes, w, k) {}
      } else {
        CauseNext(known, causes, w, j);
      }
      if forall k | 0 <= k < |causes| :: !CauseAt(known, causes, w, k) {
        forall k | 0 <= k < |causes[1..]| ensures !CauseAt(known, causes[1..], w, k) {
          CauseNext(known, causes, w, k);
        }
      }
    }
  }

  /** Two first causes are one. */
  lemma FirstSame(known: map<nat, Event>, causes: seq<nat>, w: Want, i: nat, j: nat)
    requires FirstCause(known, causes, w, i) && FirstCause(known, causes, w, j)
    ensures i == j
  {
    hide CauseAt;
  }

  lemma FirstExists(known: map<nat, Event>, causes: seq<nat>, w: Want, e: Event)
    ensures Hits(known, causes, w) != [] && Hits(known, causes, w)[0] == e <==>
      exists i: nat :: FirstCause(known, causes, w, i) && known[causes[i]] == e
    ensures Hits(known, causes, w) == [] <==> forall k | 0 <= k < |causes| :: !CauseAt(known, causes, w, k)
  {
    hide CauseAt, Hits, FirstCause;
    var i := FirstHit(known, causes, w);
    forall j: nat | FirstCause(known, causes, w, j) ensures Hits(known, causes, w) != [] && i == j {
      FirstIs(known, causes, w, j);
      if Hits(known, causes, w) != [] {
        FirstSame(known, causes, w, i, j);
      }
    }
  }

  lemma FirstIs(known: map<nat, Event>, causes: seq<nat>, w: Want, i: nat)
    requires FirstCause(known, causes, w, i)
    ensures CauseAt(known, causes, w, i) && i < |causes| && causes[i] in known
  {}

  lemma CauseIn(known: map<nat, Event>, causes: seq<nat>, w: Want, i: nat)
    ensures CauseAt(known, causes, w, i) ==> i < |causes| && causes[i] in known
  {}

  lemma {:induction false} OneHit(known: map<nat, Event>, causes: seq<nat>, w: Want) returns (i: nat)
    ensures |Hits(known, causes, w)| == 1 ==>
      OnlyCause(known, causes, w, i) && Hits(known, causes, w) == [known[causes[i]]]
  {
    hide Wanted;
    i := 0;
    if causes != [] {
      var j := FirstHit(known, causes[1..], w);
      if !CauseAt(known, causes, w, 0) {
        j := OneHit(known, causes[1..], w);
        i := j + 1;
        CauseNext(known, causes, w, j);
      }
      forall k | 0 < k < |causes| ensures CauseAt(known, causes, w, k) <==> CauseAt(known, causes[1..], w, k - 1) {
        CauseNext(known, causes, w, k - 1);
      }
    }
  }

  lemma {:induction false} OnlyHit(known: map<nat, Event>, causes: seq<nat>, w: Want, i: nat)
    requires OnlyCause(known, causes, w, i)
    ensures Hits(known, causes, w) == [known[causes[i]]]
  {
    hide Wanted;
    forall k | 0 <= k < |causes[1..]| ensures CauseAt(known, causes[1..], w, k) <==> CauseAt(known, causes, w, k + 1) {
      CauseNext(known, causes, w, k);
    }
    if i == 0 {
      var j := FirstHit(known, causes[1..], w);
    } else {
      OnlyHit(known, causes[1..], w, i - 1);
    }
  }

  // ---------------------------------------------------------------- and the checks are these

  lemma RolesAre()
    ensures "fast_" + "user" == "fast_user" && "fast_" + "cp" == "fast_cp"
  {}

  /** With its one request and its one attempt, a turn is faultless exactly if it answers. */
  lemma TurnCore(b: Bundle, known: map<nat, Event>, e: Event)
    requires e.payload.FastTurn? && CallOf(known, e).Some? && |Cited(known, e.causes, OfRequest)| == 1
    ensures TurnFault(b, known, e).None?
       <==> Answers(b, e.payload, Cited(known, e.causes, OfRequest)[0].payload, CallOf(known, e).value)
  {
    hide Cited, CallOf, P.Meaning;
    RolesAre();
  }

  lemma OneCall(known: map<nat, Event>, e: Event)
    requires e.payload.FastTurn?
    ensures var hits := Hits(known, e.causes, Attempt(e.payload.callId));
      && (CallOf(known, e).Some? <==> |hits| == 1)
      && (|hits| == 1 ==> hits[0].payload.LlmCall? && hits[0].payload.call == CallOf(known, e).value)
  {
    hide Cited, Attempts, Hits;
    AttemptHits(known, e.causes, e.payload.callId);
  }

  /** A turn is faultless exactly if it follows from its request and its call. */
  lemma TurnExactly(b: Bundle, known: map<nat, Event>, e: Event)
    requires e.payload.FastTurn?
    ensures TurnFault(b, known, e).None? <==> Follows(b, known, e)
  {
    hide Cited, CallOf, Answers, Hits, TurnFault;
    var requests, attempts := OfType(OfRequest), Attempt(e.payload.callId);
    CitedHits(known, e.causes, OfRequest);
    OneCall(known, e);
    if TurnFault(b, known, e).None? {
      TwoCited(b, known, e);
      TurnCore(b, known, e);
      var i := OneHit(known, e.causes, requests);
      var j := OneHit(known, e.causes, attempts);
      OnlyIs(known, e.causes, requests, i);
      OnlyIs(known, e.causes, attempts, j);
    }
    if Follows(b, known, e) {
      var i: nat, j: nat :| OnlyCause(known, e.causes, requests, i) && OnlyCause(known, e.causes, attempts, j)
        && Answers(b, e.payload, known[e.causes[i]].payload, known[e.causes[j]].payload.call);
      OnlyHit(known, e.causes, requests, i);
      OnlyHit(known, e.causes, attempts, j);
      TurnCore(b, known, e);
    }
  }

  /** The first thing wrong with a turn that cites one request and one successful attempt of its call. */
  function TurnReason(b: Bundle, turn: Payload, request: Payload, call: Call): Option<Fault>
    requires turn.FastTurn? && request.FastRequest?
  {
    if turn.lane !in ["user", "cp"] then Some(WrongLane)
    else if call.role != (if turn.lane == "user" then "fast_user" else "fast_cp") then Some(WrongRole)
    else if request.lane != turn.lane || request.genId != turn.genId then Some(NotItsRequest)
    else if request.model != call.model || request.promptSha != call.promptSha then Some(OtherModelOrPrompt)
    else if call.responseSha.None? || call.responseSha.value !in b.prompts then Some(NoResponse)
    else if request.profile !in b.profiles
            || b.profiles[request.profile].lane != (if turn.lane == "user" then P.User else P.Cp) then
      Some(WrongProfile)
    else if !Answers(b, turn, request, call) then Some(NotTheParse)
    else None
  }

  /** Why a turn is at fault: it does not cite the two, or what they say is not what it says. */
  lemma TurnReasons(b: Bundle, known: map<nat, Event>, e: Event)
    requires e.payload.FastTurn?
    ensures forall i: nat, j: nat ::
      OnlyCause(known, e.causes, OfType(OfRequest), i) && OnlyCause(known, e.causes, Attempt(e.payload.callId), j) ==>
        TurnFault(b, known, e)
          == TurnReason(b, e.payload, known[e.causes[i]].payload, known[e.causes[j]].payload.call)
    ensures TurnFault(b, known, e) != Some(NotItsCall) ==>
      exists i: nat, j: nat ::
        OnlyCause(known, e.causes, OfType(OfRequest), i) && OnlyCause(known, e.causes, Attempt(e.payload.callId), j)
  {
    hide Cited, CallOf, Answers, Hits, TurnFault, TurnReason, OnlyCause;
    var requests, attempts := OfType(OfRequest), Attempt(e.payload.callId);
    CitedHits(known, e.causes, OfRequest);
    OneCall(known, e);
    forall i: nat, j: nat | OnlyCause(known, e.causes, requests, i) && OnlyCause(known, e.causes, attempts, j)
      ensures i < |e.causes| && j < |e.causes| && e.causes[i] in known && e.causes[j] in known
      ensures known[e.causes[i]].payload.FastRequest? && known[e.causes[j]].payload.LlmCall?
      ensures TurnFault(b, known, e)
           == TurnReason(b, e.payload, known[e.causes[i]].payload, known[e.causes[j]].payload.call)
    {
      OnlyIs(known, e.causes, requests, i);
      OnlyIs(known, e.causes, attempts, j);
      OnlyHit(known, e.causes, requests, i);
      OnlyHit(known, e.causes, attempts, j);
      TurnWhy(b, known, e);
    }
    if TurnFault(b, known, e) != Some(NotItsCall) {
      OneEach(b, known, e);
      var i := OneHit(known, e.causes, requests);
      var j := OneHit(known, e.causes, attempts);
    }
  }

  lemma OneEach(b: Bundle, known: map<nat, Event>, e: Event)
    requires e.payload.FastTurn? && TurnFault(b, known, e) != Some(NotItsCall)
    ensures CallOf(known, e).Some? && |Cited(known, e.causes, OfRequest)| == 1
  {
    hide Cited, CallOf;
  }

  lemma TurnWhy(b: Bundle, known: map<nat, Event>, e: Event)
    requires e.payload.FastTurn? && CallOf(known, e).Some? && |Cited(known, e.causes, OfRequest)| == 1
    ensures TurnFault(b, known, e)
         == TurnReason(b, e.payload, Cited(known, e.causes, OfRequest)[0].payload, CallOf(known, e).value)
  {
    hide Cited, CallOf, P.Meaning;
    RolesAre();
  }

  lemma TwoCited(b: Bundle, known: map<nat, Event>, e: Event)
    requires e.payload.FastTurn? && TurnFault(b, known, e).None?
    ensures CallOf(known, e).Some? && |Cited(known, e.causes, OfRequest)| == 1
  {
    hide Cited, CallOf;
  }

  lemma OnlyIs(known: map<nat, Event>, causes: seq<nat>, w: Want, i: nat)
    requires OnlyCause(known, causes, w, i)
    ensures i < |causes| && causes[i] in known && Wanted(known[causes[i]].payload, w)
  {}

  // ---------------------------------------------------------------- links

  /** What is asked along a sentence's chain. */
  predicate Along(b: Bundle, known: map<nat, Event>, p: Payload, sentence: Payload, turn: Event)
    requires p.UttDelivered? && sentence.FastSentence? && turn.payload.FastTurn?
  {
    && sentence.uttId == p.uttId && sentence.lane == p.lane == turn.payload.lane
    && sentence.genId == turn.payload.genId && turn.payload.items.Some?
    && (b.realOnly ==> CallOf(known, turn).Some? && CallOf(known, turn).value.realHttp)
  }

  lemma SentenceCore(b: Bundle, known: map<nat, Event>, e: Event, sentence: Event, link: Link)
    requires e.payload.UttDelivered? && sentence.payload.FastSentence?
    ensures var turns := Cited(known, sentence.causes, OfTurn);
      SentenceLink(b, known, e, sentence) == link && !link.Broken? <==>
        && turns != [] && Along(b, known, e.payload, sentence.payload, turns[0])
        && link == Sentence(sentence.payload.text, sentence.id, turns[0])
  {
    hide Cited, CallOf;
  }

  lemma OneReal(known: map<nat, Event>, turn: Event)
    requires turn.payload.FastTurn?
    ensures CallOf(known, turn).Some? && CallOf(known, turn).value.realHttp <==>
      exists i: nat :: OnlyCause(known, turn.causes, Attempt(turn.payload.callId), i)
                       && known[turn.causes[i]].payload.call.realHttp
  {
    hide CallOf, Hits;
    var w := Attempt(turn.payload.callId);
    OneCall(known, turn);
    var i := OneHit(known, turn.causes, w);
    if j: nat :| OnlyCause(known, turn.causes, w, j) && known[turn.causes[j]].payload.call.realHttp {
      OnlyHit(known, turn.causes, w, j);
    }
  }

  lemma AlongIs(b: Bundle, known: map<nat, Event>, e: Event, sentence: Event, turn: Event)
    requires e.payload.UttDelivered?
    requires exists i: nat :: FirstCause(known, e.causes, OfType(OfSentence), i) && known[e.causes[i]] == sentence
    ensures FromTurn(b, known, e, sentence, turn) <==>
      && sentence.payload.FastSentence?
      && (exists i: nat :: FirstCause(known, sentence.causes, OfType(OfTurn), i) && known[sentence.causes[i]] == turn)
      && turn.payload.FastTurn? && Along(b, known, e.payload, sentence.payload, turn)
  {
    hide CallOf, FirstCause, CauseAt, OnlyCause;
    if turn.payload.FastTurn? {
      OneReal(known, turn);
    }
  }

  /** A delivery that cites a sentence has its link through the first one it cites. */
  lemma SentenceExactly(b: Bundle, known: map<nat, Event>, e: Event, link: Link)
    requires e.payload.UttDelivered? && Cited(known, e.causes, OfSentence) != []
    ensures LinkOf(b, known, e) == link && !link.Broken? <==>
      link.Sentence? && Traced(b, known, e, link)
  {
    hide Cited, CallOf, SentenceLink, FirstLine, FirstCause, CauseAt, FromTurn, Along, Hits;
    var sentence := Cited(known, e.causes, OfSentence)[0];
    CitedHits(known, e.causes, OfSentence);
    FirstExists(known, e.causes, OfType(OfSentence), sentence);
    SentenceCore(b, known, e, sentence, link);
    CitedHits(known, sentence.causes, OfTurn);
    if link.Sentence? {
      FirstExists(known, sentence.causes, OfType(OfTurn), link.turn);
      AlongIs(b, known, e, sentence, link.turn);
      forall other | FromTurn(b, known, e, other, link.turn) ensures other == sentence {
        SameSentence(b, known, e, other, link.turn);
        FirstExists(known, e.causes, OfType(OfSentence), other);
      }
    }
  }

  lemma SameSentence(b: Bundle, known: map<nat, Event>, e: Event, sentence: Event, turn: Event)
    requires e.payload.UttDelivered? && FromTurn(b, known, e, sentence, turn)
    ensures exists i: nat :: FirstCause(known, e.causes, OfType(OfSentence), i) && known[e.causes[i]] == sentence
  {
    hide FirstCause, OnlyCause;
  }

  /** The release that speaks for a delivery is the first that cites a line. */
  lemma {:induction false} FirstLineIs(known: map<nat, Event>, causes: seq<nat>, line: Event)
    ensures FirstLine(known, Cited(known, causes, OfReleased)) == Some(line) <==> LineThrough(known, causes, line)
  {
    hide SpeaksThrough, Lineless, FirstLine, LineThrough;
    if causes == [] {
      NoLine(known, line);
    } else {
      var rest := Cited(known, causes[1..], OfReleased);
      FirstLineIs(known, causes[1..], line);
      if CauseAt(known, causes, OfType(OfReleased), 0) {
        assert Cited(known, causes, OfReleased) == [known[causes[0]]] + rest;
        ReleaseFirst(known, known[causes[0]], rest, line);
        ThroughFirst(known, causes, line);
      } else {
        assert Cited(known, causes, OfReleased) == rest;
        ThroughRest(known, causes, line);
      }
    }
  }

  lemma NoLine(known: map<nat, Event>, line: Event)
    ensures FirstLine(known, Cited(known, [], OfReleased)) == None && !LineThrough(known, [], line)
  {}

  lemma ReleaseFirst(known: map<nat, Event>, release: Event, rest: seq<Event>, line: Event)
    ensures FirstLine(known, [release] + rest) == Some(line) <==>
      LineOf(known, release, line) || (Lineless(known, release) && FirstLine(known, rest) == Some(line))
  {
    hide Hits, FirstCause, CauseAt;
    assert ([release] + rest)[1..] == rest;
    CitedHits(known, release.causes, OfVerbatim);
    FirstExists(known, release.causes, OfType(OfVerbatim), line);
    var lines := Cited(known, release.causes, OfVerbatim);
    if lines != [] {
      FirstExists(known, release.causes, OfType(OfVerbatim), lines[0]);
    }
  }

  lemma ThroughFirst(known: map<nat, Event>, causes: seq<nat>, line: Event)
    requires causes != [] && CauseAt(known, causes, OfType(OfReleased), 0)
    ensures LineThrough(known, causes, line) <==>
      || LineOf(known, known[causes[0]], line)
      || (Lineless(known, known[causes[0]]) && LineThrough(known, causes[1..], line))
  {
    hide Wanted, FirstCause, Lineless;
    var release := known[causes[0]];
    if LineOf(known, release, line) {
      assert SpeaksThrough(known, causes, 0, line);
    }
    if Lineless(known, release) && LineThrough(known, causes[1..], line) {
      var i: nat :| SpeaksThrough(known, causes[1..], i, line) &&
        forall k | 0 <= k < i && CauseAt(known, causes[1..], OfType(OfReleased), k) ::
          Lineless(known, known[causes[1..][k]]);
      ThroughNext(known, causes, i, line);
      forall k | 0 <= k < i + 1 && CauseAt(known, causes, OfType(OfReleased), k)
        ensures Lineless(known, known[causes[k]])
      {
        if k > 0 {
          CauseNext(known, causes, OfType(OfReleased), k - 1);
        }
      }
    }
    if LineThrough(known, causes, line) && !LineOf(known, release, line) {
      var i: nat :| SpeaksThrough(known, causes, i, line) &&
        forall k | 0 <= k < i && CauseAt(known, causes, OfType(OfReleased), k) :: Lineless(known, known[causes[k]]);
      ThroughLater(known, causes, i, line);
    }
  }

  lemma ThroughNext(known: map<nat, Event>, causes: seq<nat>, i: nat, line: Event)
    requires causes != []
    ensures SpeaksThrough(known, causes[1..], i, line) <==> SpeaksThrough(known, causes, i + 1, line)
  {
    hide Wanted, FirstCause;
    CauseNext(known, causes, OfType(OfReleased), i);
  }

  lemma ThroughLater(known: map<nat, Event>, causes: seq<nat>, i: nat, line: Event)
    requires causes != [] && SpeaksThrough(known, causes, i, line)
    requires i == 0 ==> !LineOf(known, known[causes[0]], line)
    requires forall k | 0 <= k < i && CauseAt(known, causes, OfType(OfReleased), k) :: Lineless(known, known[causes[k]])
    ensures i > 0 && LineThrough(known, causes[1..], line)
    ensures CauseAt(known, causes, OfType(OfReleased), 0) ==> Lineless(known, known[causes[0]])
  {
    hide Wanted, FirstCause, Lineless;
    assert i > 0;
    ThroughNext(known, causes, i - 1, line);
    forall k | 0 <= k < i - 1 && CauseAt(known, causes[1..], OfType(OfReleased), k)
      ensures Lineless(known, known[causes[1..][k]])
    {
      CauseNext(known, causes, OfType(OfReleased), k);
    }
  }

  lemma ThroughRest(known: map<nat, Event>, causes: seq<nat>, line: Event)
    requires causes != [] && !CauseAt(known, causes, OfType(OfReleased), 0)
    ensures LineThrough(known, causes, line) <==> LineThrough(known, causes[1..], line)
  {
    hide Wanted, FirstCause, Lineless;
    if LineThrough(known, causes[1..], line) {
      var i: nat :| SpeaksThrough(known, causes[1..], i, line) &&
        forall k | 0 <= k < i && CauseAt(known, causes[1..], OfType(OfReleased), k) ::
          Lineless(known, known[causes[1..][k]]);
      ThroughNext(known, causes, i, line);
      forall k | 0 <= k < i + 1 && CauseAt(known, causes, OfType(OfReleased), k)
        ensures Lineless(known, known[causes[k]])
      {
        if k > 0 {
          CauseNext(known, causes, OfType(OfReleased), k - 1);
        }
      }
    }
    if LineThrough(known, causes, line) {
      var i: nat :| SpeaksThrough(known, causes, i, line) &&
        forall k | 0 <= k < i && CauseAt(known, causes, OfType(OfReleased), k) :: Lineless(known, known[causes[k]]);
      ThroughLater(known, causes, i, line);
    }
  }

  /** A delivery that cites no sentence has its link through a release. */
  lemma LineExactly(b: Bundle, known: map<nat, Event>, e: Event, link: Link)
    requires e.payload.UttDelivered? && Cited(known, e.causes, OfSentence) == []
    ensures LinkOf(b, known, e) == link && !link.Broken? <==> link.Line? && Traced(b, known, e, link)
  {
    hide Cited, FirstLine, CauseAt, Hits, SpeaksThrough, Lineless;
    CitedHits(known, e.causes, OfSentence);
    var none := FirstHit(known, e.causes, OfType(OfSentence));
    var found := FirstLine(known, Cited(known, e.causes, OfReleased));
    if found.Some? {
      FirstLineIs(known, e.causes, found.value);
    }
    forall line | FromLine(known, e, line) ensures found == Some(line) {
      FirstLineIs(known, e.causes, line);
    }
  }

  /** The link of a delivery is what it goes back to. */
  lemma LinkExactly(b: Bundle, known: map<nat, Event>, e: Event, link: Link)
    requires e.payload.UttDelivered?
    ensures LinkOf(b, known, e) == link && !link.Broken? <==> Traced(b, known, e, link)
  {
    hide Cited, LinkOf, FromTurn, FromLine;
    if Cited(known, e.causes, OfSentence) != [] {
      SentenceExactly(b, known, e, link);
      if link.Line? {
        NotLine(b, known, e, link);
      }
    } else {
      LineExactly(b, known, e, link);
      if link.Sentence? {
        NotSentence(b, known, e, link);
      }
    }
  }

  lemma NotLine(b: Bundle, known: map<nat, Event>, e: Event, link: Link)
    requires e.payload.UttDelivered? && Cited(known, e.causes, OfSentence) != [] && link.Line?
    ensures !Traced(b, known, e, link)
  {
    hide Cited, Hits, CauseAt, SpeaksThrough;
    CitedHits(known, e.causes, OfSentence);
    FirstExists(known, e.causes, OfType(OfSentence), e);
  }

  lemma NotSentence(b: Bundle, known: map<nat, Event>, e: Event, link: Link)
    requires e.payload.UttDelivered? && Cited(known, e.causes, OfSentence) == [] && link.Sentence?
    ensures !Traced(b, known, e, link)
  {
    hide Cited, Hits, FirstCause, OnlyCause, CauseAt;
    CitedHits(known, e.causes, OfSentence);
    forall sentence | FromTurn(b, known, e, sentence, link.turn) ensures false {
      SameSentence(b, known, e, sentence, link.turn);
      FirstExists(known, e.causes, OfType(OfSentence), sentence);
    }
  }

  lemma SaidExactly(e: Event, text: string)
    requires e.payload.UttDelivered?
    ensures TextFault(e, text).None? <==> SaidAs(e.payload, text)
  {}

  /** What is found of an event on its own is what is asked of it. */
  lemma AloneIs(b: Bundle, known: map<nat, Event>, e: Event)
    ensures Alone(b, known, e) <==> Faultless(b, known, e)
  {
    hide TurnFault, LinkOf, TextFault, ReleaseFault, Follows, Traced, SaidAs, CauseAt;
    match e.payload {
      case FastTurn(_, _, _, _) => TurnExactly(b, known, e);
      case UttDelivered(_, _, _, _, _) =>
        var found := LinkOf(b, known, e);
        LinkExactly(b, known, e, found);
        if !found.Broken? {
          SaidExactly(e, found.text);
        }
        forall link | Traced(b, known, e, link) ensures link == found && !link.Broken? {
          LinkExactly(b, known, e, link);
        }
      case SpeakReleased(_) => ReleaseExactly(known, e);
      case _ =>
    }
  }

  lemma ReleaseExactly(known: map<nat, Event>, e: Event)
    requires e.payload.SpeakReleased?
    ensures ReleaseFault(known, e).None? <==>
      && (e.payload.capId.Some? ==> exists i: nat :: AcceptAt(known, e.causes, i))
      && (forall i: nat | AcceptAt(known, e.causes, i) ::
            e.payload.capId.Some? && known[e.causes[i]].payload.capId == e.payload.capId)
  {
    hide ReleaseFault, Cited;
    var lines, capId := Cited(known, e.causes, OfVerbatim), e.payload.capId;
    ReleaseCarries(known, e);
    CitedAre(known, e.causes);
    if v :| v in lines && IsAccept(v) {
      var i: nat :| CauseAt(known, e.causes, OfType(OfVerbatim), i) && known[e.causes[i]] == v;
      assert AcceptAt(known, e.causes, i);
    }
    if i: nat :| AcceptAt(known, e.causes, i) {
      assert known[e.causes[i]] in lines && IsAccept(known[e.causes[i]]);
    }
    if forall i: nat | AcceptAt(known, e.causes, i) :: capId.Some? && known[e.causes[i]].payload.capId == capId {
      forall v | v in lines && IsAccept(v) ensures v.payload.capId.Some? && v.payload.capId == capId {
        var i: nat :| CauseAt(known, e.causes, OfType(OfVerbatim), i) && known[e.causes[i]] == v;
        assert AcceptAt(known, e.causes, i);
      }
    }
    if forall v | v in lines && IsAccept(v) :: v.payload.capId.Some? && v.payload.capId == capId {
      forall i: nat | AcceptAt(known, e.causes, i)
        ensures capId.Some? && known[e.causes[i]].payload.capId == capId
      {
        assert known[e.causes[i]] in lines && IsAccept(known[e.causes[i]]);
      }
    }
  }

  /** The lines cited are those at some cause. */
  lemma {:induction false} CitedAre(known: map<nat, Event>, causes: seq<nat>)
    ensures forall v :: v in Cited(known, causes, OfVerbatim) <==>
      exists i: nat :: CauseAt(known, causes, OfType(OfVerbatim), i) && known[causes[i]] == v
  {
    if causes != [] {
      CitedAre(known, causes[1..]);
      forall v
        ensures v in Cited(known, causes, OfVerbatim) <==>
          exists i: nat :: CauseAt(known, causes, OfType(OfVerbatim), i) && known[causes[i]] == v
      {
        if i: nat :| CauseAt(known, causes, OfType(OfVerbatim), i) && known[causes[i]] == v {
          if i > 0 {
            CauseNext(known, causes, OfType(OfVerbatim), i - 1);
          }
        }
        if i: nat :| CauseAt(known, causes[1..], OfType(OfVerbatim), i) && known[causes[1..][i]] == v {
          CauseNext(known, causes, OfType(OfVerbatim), i);
        }
      }
    }
  }

  /** The first `n` events are backed by their chains, and no call, source or item backs two. */
  ghost predicate BackedTo(b: Bundle, known: map<nat, Event>, events: seq<Event>, n: nat)
    requires n <= |events|
  {
    && (forall i | 0 <= i < n :: Alone(b, known, events[i]))
    && (forall i, j | 0 <= i < j < n && events[i].payload.FastTurn? && events[j].payload.FastTurn? ::
          events[i].payload.callId != events[j].payload.callId)
    && (forall i, j | 0 <= i < j < n && events[i].payload.UttDelivered? && events[j].payload.UttDelivered? ::
          SourceOf(LinkOf(b, known, events[i])) != SourceOf(LinkOf(b, known, events[j])))
    && WithinTurns(b, known, events, n)
  }

  ghost predicate Backed(b: Bundle, events: seq<Event>) {
    BackedTo(b, ById(events), events, |events|)
  }

  /** The events before this one are backed, and with it they are not. */
  ghost predicate FailsFirst(b: Bundle, events: seq<Event>, i: nat) {
    i < |events| && BackedTo(b, ById(events), events, i) && !BackedTo(b, ById(events), events, i + 1)
  }

  /** What event `i` adds to that. */
  ghost predicate StepOk(b: Bundle, known: map<nat, Event>, events: seq<Event>, i: nat)
    requires i < |events|
  {
    var e := events[i];
    && Alone(b, known, e)
    && (e.payload.FastTurn? ==> e.payload.callId !in CallsNamed(events, i))
    && (e.payload.UttDelivered? ==>
          var link := LinkOf(b, known, e);
          && !link.Broken?
          && link.source !in Sources(b, known, events, i)
          && (link.Sentence? ==>
                Spoken(b, known, events, i, link.turn.id)[link.text]
                < multiset(SpeechTexts(link.turn.payload.items.value))[link.text]))
  }

  ghost predicate Keyed(known: map<nat, Event>) {
    forall k | k in known :: known[k].id == k
  }

  lemma {:induction false} CallNamed(events: seq<Event>, n: nat, id: string)
    requires n <= |events|
    ensures id in CallsNamed(events, n) <==>
      exists i | 0 <= i < n :: events[i].payload.FastTurn? && events[i].payload.callId == id
  {
    if n > 0 {
      CallNamed(events, n - 1, id);
    }
  }

  lemma {:induction false} SourceNamed(b: Bundle, known: map<nat, Event>, events: seq<Event>, n: nat, id: nat)
    requires n <= |events| && forall i | 0 <= i < n :: Alone(b, known, events[i])
    ensures id in Sources(b, known, events, n) <==>
      exists i | 0 <= i < n :: events[i].payload.UttDelivered? && SourceOf(LinkOf(b, known, events[i])) == Some(id)
  {
    hide LinkOf, TextFault, TurnFault, ReleaseFault, Alone;
    if n > 0 {
      SourceNamed(b, known, events, n - 1, id);
      assert Alone(b, known, events[n - 1]);
      AloneIs(b, known, events[n - 1]);
    }
  }

  /** One more delivered line stays within its turn exactly when its item is left. */
  lemma WithinNext(b: Bundle, known: map<nat, Event>, events: seq<Event>, n: nat)
    requires n < |events| && Keyed(known)
    ensures WithinTurns(b, known, events, n + 1) <==>
      && WithinTurns(b, known, events, n)
      && (events[n].payload.UttDelivered? && LinkOf(b, known, events[n]).Sentence? ==>
            var link := LinkOf(b, known, events[n]);
            Spoken(b, known, events, n, link.turn.id)[link.text]
            < multiset(SpeechTexts(link.turn.payload.items.value))[link.text])
  {
    hide LinkOf, SpeechTexts;
    if events[n].payload.UttDelivered? && LinkOf(b, known, events[n]).Sentence? {
      var link := LinkOf(b, known, events[n]);
      var turn := link.turn;
      var before, after := Spoken(b, known, events, n, turn.id), Spoken(b, known, events, n + 1, turn.id);
      assert after == before + multiset{link.text};
      OneMore(before, link.text, multiset(SpeechTexts(turn.payload.items.value)));
      forall t | t in known.Values && t.payload.FastTurn? && t.payload.items.Some?
        ensures Spoken(b, known, events, n, t.id) <= Spoken(b, known, events, n + 1, t.id)
        ensures t != turn ==> Spoken(b, known, events, n, t.id) == Spoken(b, known, events, n + 1, t.id)
      {
        assert t.id != turn.id || t == turn;
      }
    } else {
      assert forall t: nat :: Spoken(b, known, events, n, t) == Spoken(b, known, events, n + 1, t);
    }
  }

  lemma OneMore(m: multiset<string>, x: string, all: multiset<string>)
    ensures m + multiset{x} <= all <==> m <= all && m[x] < all[x]
  {
    if m + multiset{x} <= all {
      assert (m + multiset{x})[x] <= all[x];
      assert forall y :: m[y] <= (m + multiset{x})[y];
    }
  }

  lemma BackedNext(b: Bundle, known: map<nat, Event>, events: seq<Event>, n: nat)
    requires n < |events| && Keyed(known)
    ensures BackedTo(b, known, events, n + 1) <==> BackedTo(b, known, events, n) && StepOk(b, known, events, n)
  {
    hide LinkOf, SpeechTexts, WithinTurns, Spoken, TextFault, TurnFault, ReleaseFault, CallsNamed, Sources, Alone;
    WithinNext(b, known, events, n);
    AloneIs(b, known, events[n]);
    if events[n].payload.FastTurn? {
      CallNamed(events, n, events[n].payload.callId);
    }
    if events[n].payload.UttDelivered? {
      var source := SourceOf(LinkOf(b, known, events[n]));
      if source.Some? && forall i | 0 <= i < n :: Alone(b, known, events[i]) {
        SourceNamed(b, known, events, n, source.value);
      }
    }
  }

  lemma NothingBacked(b: Bundle, known: map<nat, Event>, events: seq<Event>)
    ensures BackedTo(b, known, events, 0)
  {}

  // ---------------------------------------------------------------- the checker

  /** The Speech items of a turn that are not delivered yet. */
  function Left(left: map<nat, multiset<string>>, turn: Event): multiset<string>
    requires turn.payload.FastTurn? && turn.payload.items.Some?
  {
    if turn.id in left then left[turn.id] else multiset(SpeechTexts(turn.payload.items.value))
  }

  /** The counters hold what the delivered lines left over. */
  ghost predicate Counts(
      b: Bundle, known: map<nat, Event>, events: seq<Event>, n: nat, left: map<nat, multiset<string>>)
    requires n <= |events|
  {
    forall t | t in known.Values && t.payload.FastTurn? && t.payload.items.Some? ::
      Left(left, t) + Spoken(b, known, events, n, t.id) == multiset(SpeechTexts(t.payload.items.value))
  }

  lemma CountsSame(
      b: Bundle, known: map<nat, Event>, events: seq<Event>, n: nat, left: map<nat, multiset<string>>)
    requires n < |events| && Counts(b, known, events, n, left)
    requires events[n].payload.UttDelivered? ==> !LinkOf(b, known, events[n]).Sentence?
    ensures Counts(b, known, events, n + 1, left)
  {
    hide LinkOf, SpeechTexts;
    assert forall t: nat :: Spoken(b, known, events, n + 1, t) == Spoken(b, known, events, n, t);
  }

  lemma CountsTake(
      b: Bundle, known: map<nat, Event>, events: seq<Event>, n: nat, left: map<nat, multiset<string>>,
      turn: Event, text: string)
    requires n < |events| && Counts(b, known, events, n, left) && Keyed(known)
    requires events[n].payload.UttDelivered? && LinkOf(b, known, events[n]).Sentence?
    requires turn == LinkOf(b, known, events[n]).turn && text == LinkOf(b, known, events[n]).text
    requires text in Left(left, turn)
    ensures Counts(b, known, events, n + 1, left[turn.id := Left(left, turn) - multiset{text}])
  {
    hide LinkOf, SpeechTexts, Left, Spoken;
    var next := left[turn.id := Left(left, turn) - multiset{text}];
    forall t | t in known.Values && t.payload.FastTurn? && t.payload.items.Some?
      ensures Left(next, t) + Spoken(b, known, events, n + 1, t.id) == multiset(SpeechTexts(t.payload.items.value))
    {
      SpokenNext(b, known, events, n, t.id);
      LeftNext(left, turn, t, Left(left, turn) - multiset{text});
      if t.id == turn.id {
        assert t == turn;
        Moved(Left(left, t), Spoken(b, known, events, n, t.id), text);
      }
    }
  }

  lemma SpokenNext(b: Bundle, known: map<nat, Event>, events: seq<Event>, n: nat, turn: nat)
    requires n < |events| && events[n].payload.UttDelivered? && LinkOf(b, known, events[n]).Sentence?
    ensures var link := LinkOf(b, known, events[n]);
      Spoken(b, known, events, n + 1, turn)
      == Spoken(b, known, events, n, turn) + if link.turn.id == turn then multiset{link.text} else multiset{}
  {
    hide LinkOf;
  }

  lemma LeftNext(left: map<nat, multiset<string>>, turn: Event, t: Event, rest: multiset<string>)
    requires t.payload.FastTurn? && t.payload.items.Some?
    ensures Left(left[turn.id := rest], t) == if t.id == turn.id then rest else Left(left, t)
  {
    hide SpeechTexts;
  }

  lemma Moved(left: multiset<string>, spoken: multiset<string>, text: string)
    requires text in left
    ensures (left - multiset{text}) + (spoken + multiset{text}) == left + spoken
  {}

  /** What is left of a text tells whether one more is spoken. */
  lemma LeftOver(left: multiset<string>, spoken: multiset<string>, all: multiset<string>, text: string)
    requires left + spoken == all
    ensures text in left <==> spoken[text] < all[text]
  {
    assert all[text] == left[text] + spoken[text];
  }

  /** `_delivered`: takes the line's item from its turn, marks its source, and compares the texts. */
  method Delivered(b: Bundle, known: map<nat, Event>, e: Event, used: set<nat>, left: map<nat, multiset<string>>)
    returns (fault: Option<Fault>, used': set<nat>, left': map<nat, multiset<string>>)
    requires e.payload.UttDelivered?
    ensures var link := LinkOf(b, known, e);
      && (fault.None? <==>
            && !link.Broken?
            && (link.Sentence? ==> link.text in Left(left, link.turn))
            && link.source !in used
            && TextFault(e, link.text).None?)
      && (fault == Some(NotSpoken) <== link.Sentence? && link.text !in Left(left, link.turn))
      && (link.Broken? ==> fault == Some(link.fault))
      && (fault.None? ==> used' == used + {link.source})
      && (link.Sentence? ==> left' == left[link.turn.id := Left(left, link.turn) - multiset{link.text}])
      && (!link.Sentence? ==> left' == left)
  {
    hide LinkOf, TextFault;
    used', left' := used, left;
    var link := LinkOf(b, known, e);
    if link.Broken? {
      return Some(link.fault), used', left';
    }
    if link.Sentence? {
      var count := Left(left, link.turn);
      left' := left[link.turn.id := count - multiset{link.text}];
      if link.text !in count {
        return Some(NotSpoken), used', left';
      }
    }
    if link.source in used {
      return Some(AlreadyDelivered), used', left';
    }
    used' := used + {link.source};
    fault := TextFault(e, link.text);
  }

  /** The checker's state is that of the events it has read. */
  ghost predicate Tracks(
      b: Bundle, known: map<nat, Event>, events: seq<Event>, n: nat,
      used: set<nat>, turned: set<string>, left: map<nat, multiset<string>>)
    requires n <= |events|
  {
    turned == CallsNamed(events, n) && used == Sources(b, known, events, n) && Counts(b, known, events, n, left)
  }

  lemma StartTracks(b: Bundle, known: map<nat, Event>, events: seq<Event>)
    ensures Tracks(b, known, events, 0, {}, {}, map[])
  {}

  lemma TurnTracks(
      b: Bundle, known: map<nat, Event>, events: seq<Event>, n: nat,
      used: set<nat>, turned: set<string>, left: map<nat, multiset<string>>)
    requires n < |events| && Tracks(b, known, events, n, used, turned, left) && events[n].payload.FastTurn?
    ensures Tracks(b, known, events, n + 1, used, turned + {events[n].payload.callId}, left)
    ensures StepOk(b, known, events, n) <==>
      TurnFault(b, known, events[n]).None? && events[n].payload.callId !in turned
  {
    hide LinkOf, TurnFault, Counts, Spoken, Alone;
    CountsSame(b, known, events, n, left);
    AloneIs(b, known, events[n]);
  }

  lemma OtherTracks(
      b: Bundle, known: map<nat, Event>, events: seq<Event>, n: nat,
      used: set<nat>, turned: set<string>, left: map<nat, multiset<string>>)
    requires n < |events| && Tracks(b, known, events, n, used, turned, left)
    requires !events[n].payload.FastTurn? && !events[n].payload.UttDelivered?
    ensures Tracks(b, known, events, n + 1, used, turned, left)
    ensures StepOk(b, known, events, n) <==> Faultless(b, known, events[n])
  {
    hide LinkOf, TurnFault, ReleaseFault, Counts, Spoken, Alone;
    CountsSame(b, known, events, n, left);
    AloneIs(b, known, events[n]);
  }

  lemma LineTracks(
      b: Bundle, known: map<nat, Event>, events: seq<Event>, n: nat,
      used: set<nat>, turned: set<string>, left: map<nat, multiset<string>>)
    requires n < |events| && Tracks(b, known, events, n, used, turned, left) && events[n].payload.UttDelivered?
    requires Keyed(known)
    ensures var link := LinkOf(b, known, events[n]);
      && (StepOk(b, known, events, n) <==>
            && !link.Broken?
            && (link.Sentence? ==> link.text in Left(left, link.turn))
            && link.source !in used
            && TextFault(events[n], link.text).None?)
      && (StepOk(b, known, events, n) ==>
            Tracks(b, known, events, n + 1, used + {link.source}, turned,
              if link.Sentence? then left[link.turn.id := Left(left, link.turn) - multiset{link.text}] else left))
  {
    hide LinkOf, TurnFault, ReleaseFault, TextFault, Spoken, SpeechTexts, Alone;
    var link := LinkOf(b, known, events[n]);
    AloneIs(b, known, events[n]);
    if link.Sentence? {
      var all := multiset(SpeechTexts(link.turn.payload.items.value));
      LeftOver(Left(left, link.turn), Spoken(b, known, events, n, link.turn.id), all, link.text);
      if link.text in Left(left, link.turn) {
        CountsTake(b, known, events, n, left, link.turn, link.text);
      }
    } else {
      CountsSame(b, known, events, n, left);
    }
  }

  lemma KnownKeyed(events: seq<Event>)
    ensures Keyed(ById(events))
  {}

  /** `chain_failures`: it finds nothing exactly when everything is backed, and first the first that is not. */
  method ChainFailures(b: Bundle, events: seq<Event>) returns (failures: seq<(nat, Fault)>)
    ensures failures == [] <==> Backed(b, events)
    ensures failures != [] ==> exists i: nat :: FailsFirst(b, events, i) && failures[0].0 == events[i].id
  {
    hide LinkOf, TextFault, TurnFault, ReleaseFault, BackedTo, Tracks, StepOk, ById, Left, Keyed;
    var known := ById(events);
    var used: set<nat>, turned: set<string>, left: map<nat, multiset<string>> := {}, {}, map[];
    failures := [];
    KnownKeyed(events);
    NothingBacked(b, known, events);
    StartTracks(b, known, events);
    for i := 0 to |events|
      invariant failures == [] <==> BackedTo(b, known, events, i)
      invariant failures != [] ==> exists k: nat :: FailsFirst(b, events, k) && failures[0].0 == events[k].id
      invariant failures == [] ==> Tracks(b, known, events, i, used, turned, left)
    {
      var e := events[i];
      var reason: Option<Fault> := None;
      BackedNext(b, known, events, i);
      match e.payload {
        case FastTurn(_, _, callId, _) =>
          if failures == [] {
            TurnTracks(b, known, events, i, used, turned, left);
          }
          reason := TurnFault(b, known, e);
          if reason.None? && callId in turned {
            reason := Some(CallUsed);
          }
          turned := turned + {callId};
        case UttDelivered(_, _, _, _, _) =>
          if failures == [] {
            LineTracks(b, known, events, i, used, turned, left);
          }
          reason, used, left := Delivered(b, known, e, used, left);
        case SpeakReleased(_) =>
          if failures == [] {
            OtherTracks(b, known, events, i, used, turned, left);
          }
          reason := ReleaseFault(known, e);
        case _ =>
          if failures == [] {
            OtherTracks(b, known, events, i, used, turned, left);
          }
      }
      if reason.Some? {
        if failures == [] {
          assert FailsFirst(b, events, i);
        }
        failures := failures + [(e.id, reason.value)];
      }
    }
  }

  // ---------------------------------------------------------------- what that means

  /** A spoken line of a backed log: its turn re-parses the response of its own call, and no other turn has it. */
  lemma SpokenIsGenerated(b: Bundle, events: seq<Event>, i: nat) returns (call: Call, g: P.Grammar)
    requires i < |events| && Backed(b, events) && events[i].payload.UttDelivered?
    requires LinkOf(b, ById(events), events[i]).Sentence?
    ensures var known, link, p := ById(events), LinkOf(b, ById(events), events[i]), events[i].payload;
      && link.turn in events && link.turn.payload.FastTurn? && CallOf(known, link.turn) == Some(call)
      && !call.failed && call.callId == link.turn.payload.callId
      && call.role == "fast_" + link.turn.payload.lane && (b.realOnly ==> call.realHttp)
      && call.responseSha.Some? && call.responseSha.value in b.prompts
      && LaneOf(link.turn.payload.lane) == Some(g.lane)
      && Spoken(b, known, events, |events|, link.turn.id)
         <= multiset(SpeechTexts(P.Meaning(g, b.prompts[call.responseSha.value])))
      && p.said == link.text
      && (p.heard == Some(p.said) || (p.interrupted && p.heard.Some? && p.heard.value <= p.said))
  {
    hide ById, Spoken, SpeechTexts, TurnFault, LinkOf, CallOf, ReleaseFault, LaneOf, Keyed, Alone, P.Meaning;
    var known := ById(events);
    assert Alone(b, known, events[i]);
    AloneIs(b, known, events[i]);
    var turn := LinkOf(b, known, events[i]).turn;
    var t := TurnAt(events, turn);
    assert Alone(b, known, events[t]);
    AloneIs(b, known, events[t]);
    call, g := TurnFollows(b, known, turn);
    if b.realOnly {
      RealSentence(b, known, events[i]);
    }
  }

  /** A turn without a fault: its one call, and the grammar whose parse of the response its items are. */
  lemma TurnFollows(b: Bundle, known: map<nat, Event>, turn: Event) returns (call: Call, g: P.Grammar)
    requires turn.payload.FastTurn? && TurnFault(b, known, turn).None?
    ensures CallOf(known, turn) == Some(call) && !call.failed && call.callId == turn.payload.callId
    ensures call.role == "fast_" + turn.payload.lane && LaneOf(turn.payload.lane) == Some(g.lane)
    ensures call.responseSha.Some? && call.responseSha.value in b.prompts
    ensures turn.payload.items == Some(P.Meaning(g, b.prompts[call.responseSha.value]))
  {
    hide Cited, Attempts, P.Meaning;
    call := CallOf(known, turn).value;
    AttemptOf(known, turn);
    g := P.GrammarOf(LaneOf(turn.payload.lane).value,
      Some(b.profiles[Cited(known, turn.causes, OfRequest)[0].payload.profile]), b.word, b.lowerWord).value;
  }

  /** When only real calls count, a spoken line is from one. */
  lemma RealSentence(b: Bundle, known: map<nat, Event>, e: Event)
    requires e.payload.UttDelivered? && LinkOf(b, known, e).Sentence? && b.realOnly
    ensures var call := CallOf(known, LinkOf(b, known, e).turn); call.Some? && call.value.realHttp
  {
    hide Cited, Attempts, FirstLine;
  }

  lemma TurnAt(events: seq<Event>, e: Event) returns (t: nat)
    requires e in ById(events).Values
    ensures t < |events| && events[t] == e
  {
    hide ById;
    var k :| k in ById(events) && ById(events)[k] == e;
    assert e in events;
    t :| t < |events| && events[t] == e;
  }

  lemma AttemptOf(known: map<nat, Event>, turn: Event)
    requires turn.payload.FastTurn? && CallOf(known, turn).Some?
    ensures var c := CallOf(known, turn).value; !c.failed && c.callId == turn.payload.callId
  {
    hide Cited, Attempts;
    assert Attempts(Cited(known, turn.causes, OfCall), turn.payload.callId)[0]
        in Attempts(Cited(known, turn.causes, OfCall), turn.payload.callId);
  }

  predicate IsAccept(v: Event) {
    v.payload.SpeakVerbatim? && v.payload.kind == "accept"
  }

  /** A release that names a capability cites an accept line, and it names that of each it cites. */
  lemma ReleaseCarries(known: map<nat, Event>, e: Event)
    requires e.payload.SpeakReleased?
    ensures var lines := Cited(known, e.causes, OfVerbatim);
      ReleaseFault(known, e).None? <==>
        && (e.payload.capId.Some? ==> exists v | v in lines :: IsAccept(v))
        && (forall v | v in lines && IsAccept(v) :: v.payload.capId.Some? && v.payload.capId == e.payload.capId)
  {
    hide Cited;
    var lines := Cited(known, e.causes, OfVerbatim);
    AcceptsAre(lines);
    OtherFound(AcceptLines(lines), e.payload.capId);
    if AcceptLines(lines) != [] {
      assert AcceptLines(lines)[0] in AcceptLines(lines);
    }
  }

  lemma {:induction false} AcceptsAre(lines: seq<Event>)
    requires forall v | v in lines :: v.payload.SpeakVerbatim?
    ensures forall v :: v in AcceptLines(lines) <==> v in lines && IsAccept(v)
  {
    if lines != [] {
      AcceptsAre(lines[1..]);
      assert lines == [lines[0]] + lines[1..];
    }
  }

  lemma {:induction false} OtherFound(accepts: seq<Event>, cap: Option<string>)
    requires forall v | v in accepts :: v.payload.SpeakVerbatim?
    ensures FirstOther(accepts, cap).None? <==>
      forall v | v in accepts :: v.payload.capId.Some? && v.payload.capId == cap
  {
    if accepts != [] {
      OtherFound(accepts[1..], cap);
      assert accepts == [accepts[0]] + accepts[1..];
    }
  }
}
