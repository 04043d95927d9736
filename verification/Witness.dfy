/**
 A whole run, from an empty log to a released yes: what is proved of all runs is proved of something.
 */
module Witness {
  import opened Wrappers
  import opened Contract
  import opened Fold
  import opened Guard
  import opened Causes
  import opened Capabilities
  import opened Runs
  import opened Provenance
  import opened Journal
  import A = Agreement
  import T = BoundTerms
  import N = Identifiers
  import W = Writing

  /** Terms that name their offer and its revision, hashed to that name. */
  function Named(ref: string, revision: nat): Terms
  {
    Terms(10, 12, 0, {}, {}, ref + ['-'] + Digits(revision))
  }

  const TERMS := Named("offer", 1)
  const HASH := TERMS.rest
  const RULES := Rules((ref, revision: nat, slots) => Some(Named(ref, revision)), (t: Terms) => t.rest, o => false,
                       s => false, o => "", (c, i, ref, revision, hash, grant) => "act")
  const CASE := Case("case", "account", "principal")

  // ---------------------------------------------------------------- growing a run

  lemma RunAppend(r: Rules, c: Case, log: seq<Event>, e: Event)
    requires Run(r, c, log) && Written(log + [e]) && Effect(r, c, W.Board(log), e.body, e.t)
    ensures Run(r, c, log + [e])
  {
    hide Written, State, Effect;
    var more := log + [e];
    W.AppendStates(log, e);
    forall i | 0 <= i < |more| ensures FromGuard(r, c, more, i) {
      if i < |log| {
        assert FromGuard(r, c, log, i);
        assert more[i] == log[i] && State(more, i) == State(log, i);
      } else {
        assert more[i] == e && State(more, i) == W.Board(log);
      }
    }
  }

  lemma HashedAppend(r: Rules, log: seq<Event>, e: Event)
    requires T.ReadbacksHash(r, log) && T.ReadbackHashed(r, W.Board(log), e.body)
    ensures T.ReadbacksHash(r, log + [e])
  {
    hide State, T.ReadbackHashed;
    var more := log + [e];
    W.AppendStates(log, e);
    forall i | 0 <= i < |more| && more[i].body.ReadbackUpdated?
      ensures T.ReadbackHashed(r, State(more, i), more[i].body)
    {
      if i < |log| {
        assert more[i] == log[i] && State(more, i) == State(log, i);
      } else {
        assert more[i] == e && State(more, i) == W.Board(log);
      }
    }
  }

  /** One more event that is no decision. */
  lemma Extend(r: Rules, c: Case, log: seq<Event>, e: Event, next: Blackboard)
    requires Run(r, c, log) && Effect(r, c, W.Board(log), e.body, e.t) && !IsDecision(e.body)
    requires e.seqNo == |log| && EnvelopeOk(e) && e.epoch == W.Board(log).epoch && W.ClockOk(log, e.t)
    requires Apply(W.Board(log), e) == Some(next)
    ensures Run(r, c, log + [e]) && W.Board(log + [e]) == next
    ensures T.ReadbacksHash(r, log) && T.ReadbackHashed(r, W.Board(log), e.body) ==> T.ReadbacksHash(r, log + [e])
  {
    hide State, Apply, EnvelopeOk, CausesMet, GatherAll, Effect, Guarded, W.ClockOk, T.ReadbacksHash, T.ReadbackHashed;
    if T.ReadbacksHash(r, log) && T.ReadbackHashed(r, W.Board(log), e.body) {
      HashedAppend(r, log, e);
    }
    assert Written(log) by { RunFolds(r, c, log); }
    assert CausesMet(GatherAll(log, |log|), e) by { RunFolds(r, c, log); CausesKnown(log, e); }
    W.WrittenAppend(log, e);
    RunAppend(r, c, log, e);
  }

  /** A post and its decision. */
  lemma ExtendDecision(r: Rules, c: Case, log: seq<Event>, post: Post, who: Approver, causes: seq<nat>, t: nat)
    returns (more: seq<Event>)
    requires Run(r, c, log) && post.subject == OfApproval && W.ClockOk(log, t)
    requires forall cause | cause in causes :: cause < |log|
    requires A.Bound(W.Board(log), post) && A.Unexpired(W.Board(log), post, t) && W.Board(log).approvals == []
    ensures more == A.WithDecision(log, post, who, causes, t, t) && Run(r, c, more)
    ensures Apply(W.Board(log).(seqNo := |log|, t := t), A.DecisionEvent(log, post, who, t)) == Some(W.Board(more))
    ensures T.ReadbacksHash(r, log) ==> T.ReadbacksHash(r, more)
  {
    hide State, Apply, GatherAll, Written, Guarded, W.ClockOk, T.ReadbacksHash;
    var pe, de := A.PostEvent(log, post, who, causes, t), A.DecisionEvent(log, post, who, t);
    if WhatOf(post) in GatherAll(log, |log|).decided {
      DecidedApprovals(r, c, log, |log|, post.id, post.hash);
    }
    A.DecisionWritten(log, post, who, causes, t, t);
    A.PostWritten(log, post, who, causes, t);
    W.WrittenAppend(log + [pe], de);
    RunAppend(r, c, log, pe);
    RunAppend(r, c, log + [pe], de);
    more := log + [pe] + [de];
    if T.ReadbacksHash(r, log) {
      HashedAppend(r, log, pe);
      HashedAppend(r, log + [pe], de);
    }
  }

  // ---------------------------------------------------------------- the run

  function OfferWith(status: SlotStatus, hash: Option<string>): Offer
  {
    Offer("offer", 1, [Slot("price", "10", status)], Open, None, hash)
  }

  const CARD := Card(CardId("offer", 1, 0, 0), "offer", 1, HASH, "", 0, 120_001,
                     Binding("offer", 1, "account", "principal", "accept_offer", 0))
  const CAP := Capability(CapId(1), "act", AcceptOffer, HASH, 0, 60_003, false)

  /**
   The boards on the way: the offer, its read-back, the call, the card, the approval, the capability,
   its release. The clock moves between asking Guard and stamping what it allows: the card is asked
   for at 1 and stamped at 2, the capability at 3 and 4.
   */
  function Recorded(): Blackboard { BLANK.(seqNo := 1, offers := [OfferWith(Unheard, None)]) }

  function ReadBack(): Blackboard { BLANK.(seqNo := 2, offers := [OfferWith(Confirmed, Some(HASH))]) }

  function Called(): Blackboard { ReadBack().(seqNo := 3, status := InCall) }

  function Asked(): Blackboard { Called().(seqNo := 4, t := 2, pending := Some(CARD)) }

  function Approved(): Blackboard {
    Called().(seqNo := 6, t := 2, approvals := [ApprovalOf(CARD, CARD.id, Granted, Ui)])
  }

  function Authorized(): Blackboard {
    Approved().(seqNo := 7, t := 4, capabilities := map[CAP.id := CAP],
      authorizations := [Authorization(AcceptOffer, Some("offer"), HASH, CAP.id, 0)])
  }

  function ByGuard(n: nat, t: nat, body: Body): Event
  {
    Event(n, t, GuardActor, [0], 0, body)
  }

  function Confirming(): Body { ReadbackUpdated("offer", 1, map["price" := Confirmed], Some(HASH)) }

  lemma RecordStep()
    ensures Apply(BLANK, ByGuard(1, 0, OfferRecorded("offer", 1, [Slot("price", "10", Unheard)], None)))
         == Some(Recorded())
  {
    var slots := [Slot("price", "10", Unheard)];
    assert Unconfirmed(slots) == slots;
    assert PutOffer([], OfferWith(Unheard, None)) == [OfferWith(Unheard, None)];
  }

  lemma ReadbackStep()
    ensures Apply(Recorded(), ByGuard(2, 0, Confirming())) == Some(ReadBack())
  {
    var o := OfferWith(Unheard, None);
    assert FindOffer([o], "offer") == Some(o);
    assert o.slots[0] in o.slots;
    assert (set s | s in o.slots :: s.field) == {"price"};
    assert map["price" := Confirmed].Keys == {"price"};
    var e := ByGuard(2, 0, Confirming());
    var got := Readback(Recorded(), "offer", 1, map["price" := Confirmed], Some(HASH));
    assert got.Some?;
    assert got.value.offers == PutOffer([o], OfferWith(Confirmed, Some(HASH))) by {
      assert seq(1, i requires 0 <= i < 1 => o.slots[i].(status := Confirmed)) == [Slot("price", "10", Confirmed)];
      assert FindOffer(got.value.offers, "offer").value.slots == [Slot("price", "10", Confirmed)];
    }
    assert PutOffer([o], OfferWith(Confirmed, Some(HASH))) == [OfferWith(Confirmed, Some(HASH))];
  }

  lemma HashedBack()
    ensures T.ReadbackHashed(RULES, Recorded(), Confirming())
  {
    hide Digits;
    assert FindOffer([OfferWith(Unheard, None)], "offer") == Some(OfferWith(Unheard, None));
  }

  lemma CallStep()
    ensures Apply(ReadBack(), ByGuard(3, 0, StatusChanged(Intake, InCall))) == Some(Called())
  {}

  /** Guard's card for the offer, and the fold takes it. */
  lemma AskStep()
    ensures RequestApproval(RULES, AtTime(Called(), 1), "offer", CASE) == Allowed(CARD)
    ensures Apply(Called(), ByGuard(4, 2, ApprovalRequested(CARD))) == Some(Asked())
  {
    hide Digits;
    var o := OfferWith(Confirmed, Some(HASH));
    assert FindOffer([o], "offer") == Some(o);
  }

  lemma ApproveStep(e: Event)
    requires e == Event(6, 2, KernelActor, [5], 0, ApprovalDecided(CARD.id, Granted, Ui))
    ensures Apply(Asked().(seqNo := 5, t := 2), e) == Some(Approved())
  {
    hide Digits;
    var o := OfferWith(Confirmed, Some(HASH));
    assert FindOffer([o], "offer") == Some(o);
    assert PutApproval([], ApprovalOf(CARD, CARD.id, Granted, Ui)) == [ApprovalOf(CARD, CARD.id, Granted, Ui)];
  }

  /** Guard's capability on the approval, */
  lemma YesStep()
    ensures AcceptOfferRule(RULES, AtTime(Approved(), 3), "offer", CASE) == Allowed(CAP)
  {
    hide Digits;
    var o := OfferWith(Confirmed, Some(HASH));
    assert FindOffer([o], "offer") == Some(o);
    var a := ApprovalOf(CARD, CARD.id, Granted, Ui);
    assert FirstLive([a], HASH, 0, 3) == Some(a);
    var bb := Approved();
    assert bb.approvals == [a] && bb.capabilities == map[];
    assert OpenOfferOf(RULES, AtTime(bb, 3), "offer") == Allowed((o, TERMS));
    assert GrantFor(AtTime(bb, 3), HASH, TERMS) == Allowed(ByApproval(a));
  }

  const YES := ByGuard(7, 4, ActionAuthorized(AcceptOffer, CAP))

  /** and the fold takes it. */
  lemma AuthorizeStep()
    ensures Apply(Approved(), YES) == Some(Authorized())
  {
    hide Digits;
    var o, bb := OfferWith(Confirmed, Some(HASH)), Approved();
    assert OfferWithTerms([o], HASH) == Some(o);
    var auth := Authorization(AcceptOffer, Some("offer"), HASH, CAP.id, 0);
    assert !ReleasedTerms(bb.capabilities, HASH) && !AcceptInFlight(bb.capabilities);
    assert bb.authorizations + [auth] == [auth] && bb.capabilities[CAP.id := CAP] == map[CAP.id := CAP];
    assert Authorize(bb, AcceptOffer, CAP, 4)
        == Some(bb.(authorizations := [auth], capabilities := map[CAP.id := CAP]));
  }

  const LINE := ByGuard(8, 4, Verbatim(AcceptLine, Some(CAP.id), Some("offer"))).(causes := [7])
  const RELEASE := Event(9, 4, KernelActor, [8], 0, Released(Some(CAP.id)))

  function Queued(): Blackboard { Authorized().(seqNo := 8) }

  function Done(): Blackboard { Queued().(seqNo := 9, capabilities := map[CAP.id := CAP.(consumed := true)]) }

  lemma LineStep()
    ensures Apply(Authorized(), LINE) == Some(Queued())
  {
    hide Digits;
  }

  lemma ReleaseStep()
    ensures Apply(Queued(), RELEASE) == Some(Done())
  {
    hide Digits;
    var o := OfferWith(Confirmed, Some(HASH));
    assert FindOffer([o], "offer") == Some(o);
    var auth := Authorization(AcceptOffer, Some("offer"), HASH, CAP.id, 0);
    assert FindAuthorization([auth], CAP.id) == Some(auth);
    assert map[CAP.id := CAP][CAP.id := CAP.(consumed := true)] == map[CAP.id := CAP.(consumed := true)];
  }

  lemma OpeningStep()
    ensures Apply(BLANK, A.Opening(0)) == Some(BLANK)
  {}

  lemma EmptyRun()
    ensures Run(RULES, CASE, []) && W.Board([]) == BLANK && T.ReadbacksHash(RULES, [])
  {}

  /** No line is queued, released or delivered. */
  ghost predicate Silent(log: seq<Event>) {
    forall i | 0 <= i < |log| ::
      !log[i].body.Verbatim? && !log[i].body.Released? && log[i].body != Record(true, true)
  }

  /** The run up to the read-back. */
  lemma ReadBackRun() returns (log: seq<Event>)
    ensures Run(RULES, CASE, log) && W.Board(log) == ReadBack() && |log| == 3 && log[2].t == 0 && Silent(log)
    ensures T.ReadbacksHash(RULES, log)
  {
    hide Run, State, Apply, RequestApproval, Digits, T.ReadbacksHash;
    EmptyRun();
    OpeningStep();
    Extend(RULES, CASE, [], A.Opening(0), BLANK);
    var e1 := ByGuard(1, 0, OfferRecorded("offer", 1, [Slot("price", "10", Unheard)], None));
    RecordStep();
    Extend(RULES, CASE, [] + [A.Opening(0)], e1, Recorded());
    var e2 := ByGuard(2, 0, Confirming());
    ReadbackStep();
    assert T.ReadbackHashed(RULES, Recorded(), e2.body) by { HashedBack(); }
    Extend(RULES, CASE, [] + [A.Opening(0)] + [e1], e2, ReadBack());
    log := [] + [A.Opening(0)] + [e1] + [e2];
  }

  /** The run up to the call. */
  lemma CalledRun() returns (log: seq<Event>)
    ensures Run(RULES, CASE, log) && W.Board(log) == Called() && |log| == 4 && log[3].t == 0 && Silent(log)
    ensures T.ReadbacksHash(RULES, log)
  {
    hide Run, State, Apply, RequestApproval, Digits, T.ReadbacksHash;
    log := ReadBackRun();
    var e3 := ByGuard(3, 0, StatusChanged(Intake, InCall));
    CallStep();
    Extend(RULES, CASE, log, e3, Called());
    log := log + [e3];
  }

  /** The run up to the card. */
  lemma AskedRun() returns (log: seq<Event>)
    ensures Run(RULES, CASE, log) && W.Board(log) == Asked() && |log| == 5 && log[4].t == 2 && Silent(log)
    ensures T.ReadbacksHash(RULES, log)
  {
    hide Run, State, Apply, RequestApproval, Digits, T.ReadbacksHash;
    log := CalledRun();
    var e4 := ByGuard(4, 2, ApprovalRequested(CARD));
    AskStep();
    Extend(RULES, CASE, log, e4, Asked());
    log := log + [e4];
  }

  /** The run up to the capability. */
  lemma AuthorizedRun() returns (log: seq<Event>)
    ensures Run(RULES, CASE, log) && W.Board(log) == Authorized() && |log| == 8 && Silent(log) && log[7] == YES
    ensures T.ReadbacksHash(RULES, log)
  {
    hide Run, State, Apply, RequestApproval, AcceptOfferRule, Digits, T.ReadbacksHash;
    var asked := AskedRun();
    var post := Post(OfApproval, CARD.id, Granted, HASH, 0);
    assert A.Bound(Asked(), post) && A.Unexpired(Asked(), post, 2) by { CardOpen(post); }
    log := ExtendDecision(RULES, CASE, asked, post, Ui, [], 2);
    ApproveStep(A.DecisionEvent(asked, post, Ui, 2));
    YesStep();
    AuthorizeStep();
    Extend(RULES, CASE, log, YES, Authorized());
    log := log + [YES];
  }

  /** There is a run that releases a yes, on the approval of its only card. */
  lemma ReleasedRun() returns (log: seq<Event>)
    ensures Run(RULES, CASE, log) && |log| == 10 && AcceptRelease(log, 9) && ReleaseCount(log, 10) >= 1
    ensures W.Board(log) == Done() && Silent(log[..8])
    ensures log[7] == YES && log[8] == LINE && log[9] == RELEASE
    ensures T.ReadbacksHash(RULES, log)
  {
    hide Run, State, Apply, Digits, Silent, T.ReadbacksHash;
    var before := AuthorizedRun();
    LineStep();
    Extend(RULES, CASE, before, LINE, Queued());
    log := before + [LINE];
    ReleaseStep();
    Extend(RULES, CASE, log, RELEASE, Done());
    W.AppendStates(log, RELEASE);
    log := log + [RELEASE];
    assert log[..8] == before;
    assert AcceptRelease(log, 9);
  }

  lemma RulesBound()
    ensures T.TermsNameOffer(RULES) && T.HashInjective(RULES)
  {
    hide Digits;
    forall ref, revision: nat, slots, ref', revision': nat, slots' |
      RULES.offerTerms(ref, revision, slots) == RULES.offerTerms(ref', revision', slots')
      ensures ref == ref' && revision == revision'
    {
      assert Named(ref, revision).rest == Named(ref', revision').rest;
      N.Numbered(ref, revision, ref', revision', '-');
    }
  }

  /** Its rules and its read-backs bind offers to their terms, so the yes is for the revision it was minted for. */
  lemma BoundRun() returns (log: seq<Event>)
    ensures Run(RULES, CASE, log) && |log| == 10 && AcceptRelease(log, 9)
    ensures T.TermsNameOffer(RULES) && T.HashInjective(RULES) && T.ReadbacksHash(RULES, log)
  {
    hide Run, State, T.TermsNameOffer, T.HashInjective, T.ReadbacksHash, AcceptRelease;
    log := ReleasedRun();
    RulesBound();
  }

  lemma CardOpen(post: Post)
    requires post == Post(OfApproval, CARD.id, Granted, HASH, 0)
    ensures A.Bound(Asked(), post) && A.Unexpired(Asked(), post, 2)
  {
    hide Digits;
    var o := OfferWith(Confirmed, Some(HASH));
    assert FindOffer([o], "offer") == Some(o);
  }
}
