/**
 Concrete runs and what was said in them, as the provenance checker reads them: a yes on an approval,
 and accept lines that were spoken under capabilities that do not accept an offer.
 */
module Readings {
  import opened Wrappers
  import opened Contract
  import opened Fold
  import opened Guard
  import opened Authority
  import opened Causes
  import opened Capabilities
  import opened Runs
  import opened SpokenAccepts
  import C = Chain
  import W = Writing
  import X = Witness

  // ---------------------------------------------------------------- a reading of a log

  const BUNDLE := C.Bundle(map[], map[], true, x => true, x => true)

  const SAID := "We accept."

  /** Lines all say the same, and a record that joins and needs a cause is a delivery. */
  function Heard(b: Body): C.Payload
  {
    match b
    case Verbatim(kind, capId, _) =>
      C.SpeakVerbatim("cp", if kind == AcceptLine then "accept" else "other", SAID, capId)
    case Released(capId) => C.SpeakReleased(capId)
    case Record(true, true) => C.UttDelivered("u", "cp", Some(SAID), SAID, false)
    case _ => C.Other
  }

  function Reading(log: seq<Event>): (r: seq<C.Event>)
    ensures |r| == |log|
    ensures forall i | 0 <= i < |log| :: r[i] == C.Event(log[i].seqNo, log[i].causes, Heard(log[i].body))
  {
    seq(|log|, i requires 0 <= i < |log| => C.Event(log[i].seqNo, log[i].causes, Heard(log[i].body)))
  }

  lemma ReadingSame(log: seq<Event>)
    ensures SameLog(log, Reading(log))
  {
    hide Reading;
    var events := Reading(log);
    forall i | 0 <= i < |log| ensures SameEvent(log[i], events[i]) {
      assert events[i] == C.Event(log[i].seqNo, log[i].causes, Heard(log[i].body));
    }
  }

  /** Line `v` is an accept, the next event releases its capability, and the one after is its delivery. */
  predicate SaidAt(log: seq<Event>, v: nat) {
    && v + 2 < |log|
    && log[v].body.Verbatim? && log[v].body.kind == AcceptLine && log[v].body.capId.Some?
    && log[v + 1].body == Released(log[v].body.capId) && log[v + 1].causes == [v]
    && log[v + 2].body == Record(true, true) && log[v + 2].causes == [v + 1]
  }

  /** Nothing else is queued, released or delivered. */
  ghost predicate OnlySaid(log: seq<Event>, lines: set<nat>) {
    && (forall v | v in lines :: SaidAt(log, v))
    && (forall i | 0 <= i < |log| && Heard(log[i].body) != C.Other :: exists v :: v in lines && v <= i <= v + 2)
  }

  /** How a line, its release and its delivery read. */
  ghost predicate SaidReads(known: map<nat, C.Event>, v: nat) {
    && v in known && v + 1 in known && v + 2 in known
    && known[v].id == v && C.IsAccept(known[v]) && known[v].payload.lane == "cp" && known[v].payload.text == SAID
    && known[v].payload.capId.Some?
    && known[v + 1].causes == [v] && known[v + 1].payload == C.SpeakReleased(known[v].payload.capId)
    && known[v + 2].causes == [v + 1] && known[v + 2].payload == C.UttDelivered("u", "cp", Some(SAID), SAID, false)
  }

  lemma SaidLinks(known: map<nat, C.Event>, v: nat)
    requires SaidReads(known, v)
    ensures C.LinkOf(BUNDLE, known, known[v + 2]) == C.Line(SAID, v)
    ensures C.ReleaseFault(known, known[v + 1]).None?
  {
    assert C.Cited(known, [v + 1], C.OfSentence) == [];
    assert C.Cited(known, [v + 1], C.OfReleased) == [known[v + 1]];
    assert C.Cited(known, [v], C.OfVerbatim) == [known[v]];
    assert C.FirstLine(known, [known[v + 1]]) == Some(known[v]);
    C.ReleaseCarries(known, known[v + 1]);
  }

  lemma SaidAlone(known: map<nat, C.Event>, v: nat)
    requires SaidReads(known, v)
    ensures C.LinkOf(BUNDLE, known, known[v + 2]) == C.Line(SAID, v)
    ensures forall i | v <= i <= v + 2 :: i in known && C.Alone(BUNDLE, known, known[i])
    ensures forall i | v <= i <= v + 2 && known[i].payload.UttDelivered? :: i == v + 2
  {
    hide C.LinkOf, C.ReleaseFault, C.Alone;
    SaidLinks(known, v);
    forall i | v <= i <= v + 2 ensures i in known && C.Alone(BUNDLE, known, known[i]) {
      assert i == v || i == v + 1 || i == v + 2;
      C.AloneIs(BUNDLE, known, known[i]);
    }
  }

  lemma SaidRead(log: seq<Event>, v: nat)
    requires Dense(log) && SaidAt(log, v)
    ensures SaidReads(C.ById(Reading(log)), v)
    ensures forall i | v <= i <= v + 2 :: i in C.ById(Reading(log)) && C.ById(Reading(log))[i] == Reading(log)[i]
  {
    hide Reading, C.ById;
    forall i | v <= i <= v + 2 ensures i in C.ById(Reading(log)) && C.ById(Reading(log))[i] == Reading(log)[i] {
      KnownAt(Reading(log), i);
    }
  }

  /** What one event of such a log reads as, and where its line is. */
  lemma AloneAt(log: seq<Event>, lines: set<nat>, i: nat) returns (v: nat)
    requires Dense(log) && OnlySaid(log, lines) && i < |log|
    ensures C.Alone(BUNDLE, C.ById(Reading(log)), Reading(log)[i])
    ensures Reading(log)[i].payload.UttDelivered? ==>
      v + 2 == i && C.LinkOf(BUNDLE, C.ById(Reading(log)), Reading(log)[i]) == C.Line(SAID, v)
  {
    hide Reading, Heard, SaidAt, SaidReads, C.ById, C.LinkOf, C.Alone;
    v := 0;
    if Heard(log[i].body) != C.Other {
      v :| v in lines && v <= i <= v + 2;
      SaidRead(log, v);
      SaidAlone(C.ById(Reading(log)), v);
    } else {
      OtherAlone(C.ById(Reading(log)), Reading(log)[i]);
    }
  }

  lemma OtherAlone(known: map<nat, C.Event>, e: C.Event)
    requires e.payload == C.Other
    ensures C.Alone(BUNDLE, known, e)
  {}

  lemma NoTurns(events: seq<C.Event>)
    requires forall i | 0 <= i < |events| :: !events[i].payload.FastTurn?
    ensures C.WithinTurns(BUNDLE, C.ById(events), events, |events|)
  {
    hide C.ById, C.Spoken;
    forall t | t in C.ById(events).Values ensures !t.payload.FastTurn? {
      var n := C.TurnAt(events, t);
    }
  }

  lemma DeliveriesApart(log: seq<Event>, lines: set<nat>, i: nat, j: nat)
    requires Dense(log) && OnlySaid(log, lines) && i < j < |log|
    requires Reading(log)[i].payload.UttDelivered? && Reading(log)[j].payload.UttDelivered?
    ensures C.SourceOf(C.LinkOf(BUNDLE, C.ById(Reading(log)), Reading(log)[i]))
         != C.SourceOf(C.LinkOf(BUNDLE, C.ById(Reading(log)), Reading(log)[j]))
  {
    hide Reading, Heard, OnlySaid, C.ById, C.LinkOf, C.Alone;
    var v := AloneAt(log, lines, i);
    var w := AloneAt(log, lines, j);
  }

  /** The provenance checker backs it, */
  lemma ReadingBacked(log: seq<Event>, lines: set<nat>)
    requires Dense(log) && OnlySaid(log, lines)
    ensures C.Backed(BUNDLE, Reading(log))
  {
    hide Reading, Heard, OnlySaid, C.ById, C.LinkOf, C.Alone, C.WithinTurns, C.SourceOf;
    var events := Reading(log);
    NoneTurns(log);
    NoTurns(events);
    forall i | 0 <= i < |events| ensures C.Alone(BUNDLE, C.ById(events), events[i]) {
      var v := AloneAt(log, lines, i);
    }
    forall i, j | 0 <= i < j < |events| && events[i].payload.UttDelivered? && events[j].payload.UttDelivered?
      ensures C.SourceOf(C.LinkOf(BUNDLE, C.ById(events), events[i]))
           != C.SourceOf(C.LinkOf(BUNDLE, C.ById(events), events[j]))
    {
      DeliveriesApart(log, lines, i, j);
    }
  }

  lemma NoneTurns(log: seq<Event>)
    ensures forall i | 0 <= i < |log| :: !Reading(log)[i].payload.FastTurn?
  {}

  /** and its lines are spoken. */
  lemma ReadingSpeaks(log: seq<Event>, v: nat)
    requires Dense(log) && SaidAt(log, v)
    ensures SpeaksAccept(BUNDLE, Reading(log), v + 2, v)
  {
    hide Reading, C.ById, C.LinkOf;
    SaidRead(log, v);
    SaidLinks(C.ById(Reading(log)), v);
  }

  /** Of a run that says nothing else, both checkers are content with the reading, and it speaks the lines. */
  lemma RunReading(log: seq<Event>, lines: set<nat>)
    requires Run(X.RULES, X.CASE, log) && OnlySaid(log, lines)
    ensures SameLog(log, Reading(log)) && C.Backed(BUNDLE, Reading(log))
    ensures forall v | v in lines :: SpeaksAccept(BUNDLE, Reading(log), v + 2, v)
  {
    hide Run, SaidAt, Reading, Heard, SameLog, SpeaksAccept, C.Backed;
    RunFolds(X.RULES, X.CASE, log);
    ReadingSame(log);
    ReadingBacked(log, lines);
    forall v | v in lines ensures SpeaksAccept(BUNDLE, Reading(log), v + 2, v) {
      ReadingSpeaks(log, v);
    }
  }

  // ---------------------------------------------------------------- a yes on an approval

  const DELIVERY := Event(10, 5, FastActor, [9], 0, Record(true, true))

  lemma DeliveryStep()
    ensures Apply(X.Done(), DELIVERY) == Some(X.Done().(seqNo := 10, t := 5))
  {
    hide Digits;
  }

  /** The run that releases a yes, up to its delivery. */
  lemma DeliveredRun() returns (log: seq<Event>)
    ensures Run(X.RULES, X.CASE, log) && |log| == 11 && X.Silent(log[..8])
    ensures W.Board(log) == X.Done().(seqNo := 10, t := 5)
    ensures log[7] == X.YES && log[8] == X.LINE && log[9] == X.RELEASE && log[10] == DELIVERY
  {
    hide Run, State, Apply, Digits, X.Silent;
    var before := X.ReleasedRun();
    DeliveryStep();
    X.Extend(X.RULES, X.CASE, before, DELIVERY, X.Done().(seqNo := 10, t := 5));
    log := before + [DELIVERY];
    assert log[..8] == before[..8];
  }

  /** The run and its reading: the yes that was released is spoken, and both checkers are content. */
  lemma SpokenRun() returns (log: seq<Event>, events: seq<C.Event>)
    ensures Run(X.RULES, X.CASE, log) && SameLog(log, events) && C.Backed(BUNDLE, events)
    ensures SpeaksAccept(BUNDLE, events, 10, 8)
  {
    hide Run, State, Apply, Digits, CapId, C.Backed, SameLog, SpeaksAccept, Reading, OnlySaid, SaidAt;
    log := DeliveredRun();
    SpokenOnly(log);
    events := Reading(log);
    RunReading(log, {8});
    assert 8 in {8};
  }

  lemma SilentAt(log: seq<Event>, n: nat)
    requires n <= |log| && X.Silent(log[..n])
    ensures forall i | 0 <= i < n :: Heard(log[i].body) == C.Other
  {
    forall i | 0 <= i < n ensures Heard(log[i].body) == C.Other {
      assert log[i] == log[..n][i];
    }
  }

  lemma SpokenOnly(log: seq<Event>)
    requires |log| == 11 && X.Silent(log[..8])
    requires log[8] == X.LINE && log[9] == X.RELEASE && log[10] == DELIVERY
    ensures OnlySaid(log, {8}) && SaidAt(log, 8)
  {
    hide Digits, CapId, X.Silent;
    SilentAt(log, 8);
    assert 8 in {8};
  }

  // ---------------------------------------------------------------- accept lines of another capability

  /** The confirmed offer stands, nothing is fenced, and no capability `k` was ever authorized. */
  ghost predicate Fit(bb: Blackboard, k: string) {
    && bb.epoch == 0 && bb.fences == [] && bb.offers == [X.OfferWith(Confirmed, Some(X.HASH))]
    && k !in bb.capabilities && FindAuthorization(bb.authorizations, k).None?
  }

  /** A capability for a transaction, as the fold takes it from any writer: Guard is not asked for it. */
  function Transaction(k: string): Capability
  {
    Capability(k, "submit", SubmitTransaction, X.HASH, 0, 1000, false)
  }

  function Authorizing(n: nat, k: string, t: nat): Event
  {
    X.ByGuard(n, t, ActionAuthorized(SubmitTransaction, Transaction(k)))
  }

  function Queueing(n: nat, k: string, t: nat): Event
    requires n > 0
  {
    X.ByGuard(n, t, Verbatim(AcceptLine, Some(k), Some("offer"))).(causes := [n - 1])
  }

  function Releasing(n: nat, k: string, t: nat): Event
    requires n > 0
  {
    Event(n, t, KernelActor, [n - 1], 0, Released(Some(k)))
  }

  function Delivering(n: nat, t: nat): Event
    requires n > 0
  {
    Event(n, t, FastActor, [n - 1], 0, Record(true, true))
  }

  function Given(bb: Blackboard, n: nat, k: string, t: nat): Blackboard
  {
    bb.(seqNo := n, t := t, capabilities := bb.capabilities[k := Transaction(k)],
        authorizations := bb.authorizations + [Authorization(SubmitTransaction, Some("offer"), X.HASH, k, 0)])
  }

  function Spent(bb: Blackboard, n: nat, k: string, t: nat): Blackboard
  {
    Given(bb, n, k, t).(capabilities := bb.capabilities[k := Transaction(k).(consumed := true)])
  }

  lemma GiveStep(bb: Blackboard, n: nat, k: string, t: nat)
    requires Fit(bb, k) && t < 1000
    ensures Apply(bb, Authorizing(n, k, t)) == Some(Given(bb, n, k, t))
  {
    hide Digits, FindAuthorization;
    var o := X.OfferWith(Confirmed, Some(X.HASH));
    assert OfferWithTerms([o], X.HASH) == Some(o);
  }

  lemma QueueStep(bb: Blackboard, n: nat, k: string, t: nat)
    ensures Apply(Given(bb, n, k, t), Queueing(n + 1, k, t)) == Some(Given(bb, n + 1, k, t))
  {
    hide Digits;
  }

  lemma SpendStep(bb: Blackboard, n: nat, k: string, t: nat)
    requires Fit(bb, k) && t < 1000
    ensures Apply(Given(bb, n + 1, k, t), Releasing(n + 2, k, t)) == Some(Spent(bb, n + 2, k, t))
  {
    hide Digits, FindAuthorization;
    var o := X.OfferWith(Confirmed, Some(X.HASH));
    assert FindOffer([o], "offer") == Some(o);
    FindAuthorizationAdd(bb.authorizations, Authorization(SubmitTransaction, Some("offer"), X.HASH, k, 0), k);
    assert bb.capabilities[k := Transaction(k)][k := Transaction(k).(consumed := true)]
        == bb.capabilities[k := Transaction(k).(consumed := true)];
  }

  lemma SayStep(bb: Blackboard, n: nat, k: string, t: nat)
    ensures Apply(Spent(bb, n + 2, k, t), Delivering(n + 3, t)) == Some(Spent(bb, n + 3, k, t))
  {
    hide Digits;
  }

  lemma FitAfter(bb: Blackboard, n: nat, k: string, t: nat, l: string)
    requires Fit(bb, l) && l != k
    ensures Fit(Spent(bb, n, k, t), l)
  {
    FindAuthorizationAdd(bb.authorizations, Authorization(SubmitTransaction, Some("offer"), X.HASH, k, 0), l);
  }

  /** What comes next in a run: the authorization, the accept line, its release and its delivery. */
  ghost predicate Goes(log: seq<Event>, n: nat, k: string, t: nat) {
    && n + 4 <= |log|
    && log[n] == Authorizing(n, k, t) && log[n + 1] == Queueing(n + 1, k, t)
    && log[n + 2] == Releasing(n + 2, k, t) && log[n + 3] == Delivering(n + 3, t)
  }

  /** An event that Guard need not allow. */
  ghost predicate Plain(e: Event, n: nat, t: nat) {
    && e.seqNo == n && e.t == t && e.epoch == 0 && EnvelopeOk(e) && !IsDecision(e.body)
    && !e.body.ApprovalRequested? && (e.body.ActionAuthorized? ==> e.body.intent != AcceptOffer)
  }

  lemma ExtendPlain(log: seq<Event>, e: Event, t: nat, next: Blackboard)
    requires Run(X.RULES, X.CASE, log) && W.ClockOk(log, t) && Plain(e, |log|, t)
    requires W.Board(log).epoch == 0 && Apply(W.Board(log), e) == Some(next)
    ensures Run(X.RULES, X.CASE, log + [e]) && W.Board(log + [e]) == next && W.ClockOk(log + [e], t)
  {
    hide Run, State, Apply, Digits, EnvelopeOk;
    X.Extend(X.RULES, X.CASE, log, e, next);
  }

  lemma AllPlain(n: nat, k: string, t: nat)
    requires n > 0
    ensures Plain(Authorizing(n, k, t), n, t) && Plain(Queueing(n + 1, k, t), n + 1, t)
    ensures Plain(Releasing(n + 2, k, t), n + 2, t) && Plain(Delivering(n + 3, t), n + 3, t)
  {
    hide Digits;
  }

  lemma SpentEpoch(bb: Blackboard, n: nat, k: string, t: nat)
    requires Fit(bb, k)
    ensures bb.epoch == 0 && Given(bb, n, k, t).epoch == 0 && Spent(bb, n, k, t).epoch == 0
  {}

  /** Any run with that offer may go on like this. */
  lemma SpeakTransaction(log: seq<Event>, k: string, t: nat) returns (more: seq<Event>)
    requires Run(X.RULES, X.CASE, log) && log != [] && W.ClockOk(log, t) && t < 1000 && Fit(W.Board(log), k)
    ensures Run(X.RULES, X.CASE, more) && |more| == |log| + 4 && more[..|log|] == log && Goes(more, |log|, k, t)
    ensures W.Board(more) == Spent(W.Board(log), |log| + 3, k, t)
  {
    hide Run, Apply, Fit, Plain, W.Board, W.ClockOk, Authorizing, Queueing, Releasing, Delivering, Given, Spent;
    var n, bb := |log|, W.Board(log);
    AllPlain(n, k, t);
    GiveStep(bb, n, k, t);
    SpentEpoch(bb, n, k, t);
    ExtendPlain(log, Authorizing(n, k, t), t, Given(bb, n, k, t));
    more := log + [Authorizing(n, k, t)];
    QueueStep(bb, n, k, t);
    ExtendPlain(more, Queueing(n + 1, k, t), t, Given(bb, n + 1, k, t));
    more := more + [Queueing(n + 1, k, t)];
    SpendStep(bb, n, k, t);
    SpentEpoch(bb, n + 1, k, t);
    ExtendPlain(more, Releasing(n + 2, k, t), t, Spent(bb, n + 2, k, t));
    more := more + [Releasing(n + 2, k, t)];
    SayStep(bb, n, k, t);
    SpentEpoch(bb, n + 2, k, t);
    ExtendPlain(more, Delivering(n + 3, t), t, Spent(bb, n + 3, k, t));
    more := more + [Delivering(n + 3, t)];
  }

  /** Such a line is an accept that is spoken, and its capability does not accept an offer. */
  lemma GoesFor(log: seq<Event>, n: nat, k: string, t: nat)
    requires Goes(log, n, k, t)
    ensures SaidAt(log, n + 1) && Carried(log, n + 3, n + 1, n + 2, k)
    ensures LastAuth(log, n + 2, k) == n && Authorized(log, n + 2, k) == Transaction(k)
  {
    hide Digits;
    assert Authorizes(log[n].body, k) && !Authorizes(log[n + 1].body, k);
  }

  /**
   A run that both checkers are content with, without a card, an approval or a mandate, in which an accept
   is spoken: `SpokenYes` needs its condition.
   */
  lemma SpokenWithoutGrant() returns (log: seq<Event>, events: seq<C.Event>)
    ensures Run(X.RULES, X.CASE, log) && SameLog(log, events) && C.Backed(BUNDLE, events) && |log| == 8
    ensures SpeaksAccept(BUNDLE, events, 7, 5) && Carried(log, 7, 5, 6, "one") && !Backs(X.RULES, log, 6)
    ensures W.Board(log).approvals == [] && W.Board(log).mandate == None && W.Board(log).pending == None
  {
    hide Run, State, Apply, Digits, Fit, C.Backed, SameLog, SpeaksAccept, SoundYes, LastAuth, OnlySaid, Reading;
    var before := X.CalledRun();
    CalledFit("one");
    log := SpeakTransaction(before, "one", 0);
    GoesFor(log, 4, "one", 0);
    OneSaid(log, "one");
    RunFolds(X.RULES, X.CASE, log);
    ReleaseIntent(log, 6, "one");
    events := Reading(log);
    RunReading(log, {5});
    assert 5 in {5};
  }

  lemma CalledFit(k: string)
    ensures Fit(X.Called(), k)
  {
    hide Digits;
  }

  lemma OneSaid(log: seq<Event>, k: string)
    requires |log| == 8 && X.Silent(log[..4]) && Goes(log, 4, k, 0)
    ensures OnlySaid(log, {5})
  {
    hide Digits, X.Silent, Carried, LastAuth;
    SilentAt(log, 4);
    GoesFor(log, 4, k, 0);
    assert 5 in {5};
  }

  lemma GoesStill(log: seq<Event>, more: seq<Event>, n: nat, k: string, t: nat)
    requires Goes(log, n, k, t) && log <= more
    ensures Goes(more, n, k, t)
  {
    hide Authorizing, Queueing, Releasing, Delivering;
  }

  /** Two such accepts of the same terms: the condition on intents in `SpokenApart` is needed, */
  lemma SameTermsTwice() returns (log: seq<Event>, events: seq<C.Event>)
    ensures Run(X.RULES, X.CASE, log) && SameLog(log, events) && C.Backed(BUNDLE, events) && |log| == 12
    ensures SpeaksAccept(BUNDLE, events, 7, 5) && Carried(log, 7, 5, 6, "one")
    ensures SpeaksAccept(BUNDLE, events, 11, 9) && Carried(log, 11, 9, 10, "two")
    ensures LastAuth(log, 6, "one") >= 0 && LastAuth(log, 10, "two") >= 0
    ensures Authorized(log, 6, "one").intent == Authorized(log, 10, "two").intent == SubmitTransaction
    ensures Authorized(log, 6, "one").termsHash == Authorized(log, 10, "two").termsHash
  {
    hide Run, Digits, C.Backed, SameLog, SpeaksAccept, LastAuth, OnlySaid, SaidAt, Goes, Carried, Reading, X.Silent;
    log := TwiceRun();
    GoesFor(log, 4, "one", 0);
    GoesFor(log, 8, "two", 0);
    TwoSaid(log, 4, 8, "one", "two");
    events := Reading(log);
    RunReading(log, {5, 9});
    assert 5 in {5, 9} && 9 in {5, 9};
  }

  lemma TwiceRun() returns (log: seq<Event>)
    ensures Run(X.RULES, X.CASE, log) && |log| == 12 && X.Silent(log[..4])
    ensures Goes(log, 4, "one", 0) && Goes(log, 8, "two", 0)
  {
    hide Run, W.Board, Apply, Fit, Spent, Goes, W.ClockOk, X.Called, X.Silent;
    var called := X.CalledRun();
    CalledFit("one");
    CalledFit("two");
    CalledClock(called);
    var before := SpeakTransaction(called, "one", 0);
    FitAfter(X.Called(), 7, "one", 0, "two");
    GoesAt(before, 4, "one", 0);
    log := SpeakTransaction(before, "two", 0);
    assert before <= log && log[..4] == before[..4] == called == called[..4];
    GoesStill(before, log, 4, "one", 0);
  }

  lemma CalledClock(log: seq<Event>)
    requires |log| == 4 && log[3].t == 0
    ensures W.ClockOk(log, 0)
  {}

  lemma GoesAt(log: seq<Event>, n: nat, k: string, t: nat)
    requires Goes(log, n, k, t) && |log| == n + 4
    ensures W.ClockOk(log, t)
  {}

  lemma TwoSaid(log: seq<Event>, n: nat, m: nat, k: string, l: string)
    requires m == n + 4 && |log| == m + 4 && X.Silent(log[..n])
    requires Goes(log, n, k, 0) && Goes(log, m, l, 0)
    ensures OnlySaid(log, {n + 1, m + 1})
  {
    hide Digits, X.Silent, Carried, LastAuth;
    SilentAt(log, n);
    GoesFor(log, n, k, 0);
    GoesFor(log, m, l, 0);
    assert n + 1 in {n + 1, m + 1} && m + 1 in {n + 1, m + 1};
  }

  /** and needed of both: one of the two may be a yes of Guard. */
  lemma SameTermsMixed() returns (log: seq<Event>, events: seq<C.Event>)
    ensures Run(X.RULES, X.CASE, log) && SameLog(log, events) && C.Backed(BUNDLE, events) && |log| == 15
    ensures SpeaksAccept(BUNDLE, events, 10, 8) && Carried(log, 10, 8, 9, X.CAP.id)
    ensures SpeaksAccept(BUNDLE, events, 14, 12) && Carried(log, 14, 12, 13, "one")
    ensures LastAuth(log, 9, X.CAP.id) >= 0 && LastAuth(log, 13, "one") >= 0
    ensures Authorized(log, 9, X.CAP.id).intent == AcceptOffer && Authorized(log, 13, "one").intent == SubmitTransaction
    ensures Authorized(log, 9, X.CAP.id).termsHash == Authorized(log, 13, "one").termsHash
  {
    hide Run, Digits, C.Backed, SameLog, SpeaksAccept, LastAuth, OnlySaid, SaidAt, Goes, Carried, Reading, X.Silent;
    log := MixedRun();
    YesGoes(log);
    GoesFor(log, 11, "one", 5);
    MixedSaid(log);
    events := Reading(log);
    RunReading(log, {8, 12});
    assert 8 in {8, 12} && 12 in {8, 12};
  }

  lemma MixedRun() returns (log: seq<Event>)
    ensures Run(X.RULES, X.CASE, log) && |log| == 15 && X.Silent(log[..8]) && Goes(log, 11, "one", 5)
    ensures log[7] == X.YES && log[8] == X.LINE && log[9] == X.RELEASE && log[10] == DELIVERY
  {
    hide Run, W.Board, Apply, Fit, Spent, Goes, X.Done, X.Silent;
    var before := DeliveredRun();
    DoneFit("one");
    log := SpeakTransaction(before, "one", 5);
    assert before <= log && log[..8] == before[..8];
  }

  lemma DoneFit(k: string)
    requires k == "one"
    ensures Fit(X.Done().(seqNo := 10, t := 5), k)
  {
    hide Digits;
    assert X.CAP.id[0] == 'c' && k[0] == 'o';
  }

  lemma YesGoes(log: seq<Event>)
    requires |log| >= 11 && log[7] == X.YES && log[8] == X.LINE && log[9] == X.RELEASE && log[10] == DELIVERY
    ensures SaidAt(log, 8) && Carried(log, 10, 8, 9, X.CAP.id)
    ensures LastAuth(log, 9, X.CAP.id) == 7 && Authorized(log, 9, X.CAP.id) == X.CAP
  {
    hide Digits;
    assert Authorizes(log[7].body, X.CAP.id) && !Authorizes(log[8].body, X.CAP.id);
  }

  lemma MixedSaid(log: seq<Event>)
    requires |log| == 15 && X.Silent(log[..8]) && Goes(log, 11, "one", 5)
    requires log[7] == X.YES && log[8] == X.LINE && log[9] == X.RELEASE && log[10] == DELIVERY
    ensures OnlySaid(log, {8, 12})
  {
    hide Digits, X.Silent, Carried, LastAuth;
    SilentAt(log, 8);
    YesGoes(log);
    GoesFor(log, 11, "one", 5);
    assert 8 in {8, 12} && 12 in {8, 12};
  }
}
