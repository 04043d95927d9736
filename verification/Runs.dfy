/**
 Runs: logs that the fold and the log rules take and in which cards, decisions and accept
 capabilities come only from Guard. What every run keeps about approvals.
 */
module Runs {
  import opened Wrappers
  import opened Contract
  import opened Fold
  import opened Guard
  import opened Causes
  import opened Capabilities

  // ---------------------------------------------------------------- runs

  /** Envelope rules, stamped epochs and a clock that never goes back. */
  ghost predicate Stamped(log: seq<Event>) {
    && (forall i | 0 <= i < |log| :: EnvelopeOk(log[i]))
    && (forall i | 0 <= i < |log| :: log[i].epoch == State(log, i).epoch)
    && (forall i | 0 < i < |log| :: log[i - 1].t <= log[i].t)
  }

  /** A log as the single writer writes it. */
  ghost predicate Written(log: seq<Event>) {
    Dense(log) && Folds(log) && CausesOk(log) && Stamped(log)
  }

  /** The board as a rule sees it: at the time the clock shows when the rule is asked. */
  function AtTime(bb: Blackboard, t: nat): Blackboard
  {
    bb.(t := t)
  }

  /** Guard answers with this effect, asked on this board at some time up to `t`. */
  ghost predicate Effect(r: Rules, c: Case, bb: Blackboard, b: Body, t: nat) {
    match b
    case ApprovalRequested(card) =>
      exists asked: nat :: asked <= t && RequestApproval(r, AtTime(bb, asked), card.ref, c) == Allowed(card)
    case ActionAuthorized(intent, cap) =>
      intent == AcceptOffer ==>
        exists asked: nat, ref :: asked <= t && AcceptOfferRule(r, AtTime(bb, asked), ref, c) == Allowed(cap)
    case _ => true
  }

  /** Cards and accept capabilities are Guard's effects, asked at or before the time they are stamped with. */
  ghost predicate FromGuard(r: Rules, c: Case, log: seq<Event>, i: nat)
    requires i < |log|
  {
    Effect(r, c, State(log, i), log[i].body, log[i].t)
  }

  ghost predicate Guarded(r: Rules, c: Case, log: seq<Event>) {
    forall i | 0 <= i < |log| :: FromGuard(r, c, log, i)
  }

  /** A run: written by the single writer, with cards and accept capabilities from Guard alone. */
  ghost predicate Run(r: Rules, c: Case, log: seq<Event>) {
    Written(log) && Guarded(r, c, log)
  }

  // ---------------------------------------------------------------- records in between

  /** The board without its place and its time. */
  function Timeless(bb: Blackboard): Blackboard
  {
    bb.(seqNo := 0, t := 0)
  }

  lemma {:induction false} RecordsKeep(log: seq<Event>, h: nat, i: nat)
    requires h <= i <= |log| && Folds(log) && forall k | h <= k < i :: log[k].body.Record?
    ensures Timeless(State(log, i)) == Timeless(State(log, h))
    decreases i - h
  {
    hide Apply, State, Folds;
    if h < i {
      RecordsKeep(log, h, i - 1);
      Step(log, i - 1);
      RecordStep(State(log, i - 1), log[i - 1]);
    }
  }

  lemma RecordStep(bb: Blackboard, e: Event)
    requires Apply(bb, e).Some? && e.body.Record?
    ensures Timeless(Apply(bb, e).value) == Timeless(bb)
  {}

  lemma RulesTimeless(r: Rules, c: Case, a: Blackboard, b: Blackboard, t: nat, ref: string)
    requires Timeless(a) == Timeless(b)
    ensures RequestApproval(r, AtTime(a, t), ref, c) == RequestApproval(r, AtTime(b, t), ref, c)
    ensures AcceptOfferRule(r, AtTime(a, t), ref, c) == AcceptOfferRule(r, AtTime(b, t), ref, c)
  {
    var x, y := AtTime(a, t), AtTime(b, t);
    assert x == y.(seqNo := x.seqNo);
    AcceptNoSeq(r, c, y, x.seqNo, ref);
  }

  lemma AcceptNoSeq(r: Rules, c: Case, bb: Blackboard, n: nat, ref: string)
    ensures RequestApproval(r, bb.(seqNo := n), ref, c) == RequestApproval(r, bb, ref, c)
    ensures AcceptOfferRule(r, bb.(seqNo := n), ref, c) == AcceptOfferRule(r, bb, ref, c)
  {
    hide Digits, OpenOfferOf, GrantFor, ReleasedTerms, AcceptInFlight;
    OfferNoSeq(r, bb, n, ref);
    match OpenOfferOf(r, bb, ref) {
      case Refused(_) =>
      case Allowed((offer, terms)) => GrantNoSeq(bb, n, r.termsHash(terms), terms);
    }
  }

  lemma OfferNoSeq(r: Rules, bb: Blackboard, n: nat, ref: string)
    ensures OpenOfferOf(r, bb.(seqNo := n), ref) == OpenOfferOf(r, bb, ref)
  {
    hide ReadbackConfirmed, HardViolation, FindOffer;
  }

  lemma GrantNoSeq(bb: Blackboard, n: nat, hash: string, terms: Terms)
    ensures GrantFor(bb.(seqNo := n), hash, terms) == GrantFor(bb, hash, terms)
  {}

  /** Guard may have been asked before events that are only recorded, such as the tool call of the asker. */
  lemma AskedBefore(r: Rules, c: Case, log: seq<Event>, h: nat, i: nat)
    requires h <= i < |log| && Folds(log) && forall k | h <= k < i :: log[k].body.Record?
    requires Effect(r, c, State(log, h), log[i].body, log[i].t)
    ensures FromGuard(r, c, log, i)
  {
    hide State, Folds, RequestApproval, AcceptOfferRule;
    RecordsKeep(log, h, i);
    var was, now := State(log, h), State(log, i);
    match log[i].body {
      case ApprovalRequested(card) =>
        var asked: nat :| asked <= log[i].t && RequestApproval(r, AtTime(was, asked), card.ref, c) == Allowed(card);
        RulesTimeless(r, c, was, now, asked, card.ref);
      case ActionAuthorized(intent, cap) =>
        if intent == AcceptOffer {
          var asked: nat, ref :| asked <= log[i].t && AcceptOfferRule(r, AtTime(was, asked), ref, c) == Allowed(cap);
          RulesTimeless(r, c, was, now, asked, ref);
        }
      case _ =>
    }
  }

  // ---------------------------------------------------------------- one step of a card

  lemma PendingStep(bb: Blackboard, e: Event)
    requires Apply(bb, e).Some?
    ensures Apply(bb, e).value.pending ==
      match e.body
      case ApprovalRequested(card) => Some(card)
      case ApprovalDecided(_, _, _) => None
      case _ => bb.pending
    ensures e.body.ApprovalDecided? ==>
      && bb.pending.Some?
      && var card := bb.pending.value;
         && card.id == e.body.approvalId && card.epoch == bb.epoch && card.expires > e.t
         && CardCurrent(bb, card)
         && Apply(bb, e).value.approvals
            == PutApproval(bb.approvals, ApprovalOf(card, card.id, e.body.decision, e.body.who))
    ensures !e.body.ApprovalDecided? ==> Apply(bb, e).value.approvals == bb.approvals
    ensures e.body.ApprovalRequested? ==> CardCurrent(bb, e.body.card) && e.body.card.epoch == bb.epoch
  {
    hide PutApproval, CardCurrent, FindOffer, PutOffer, Releasable, ReleasedTerms, AcceptInFlight, Edge, Without;
    Frame(bb, e);
  }

  lemma CardAt(log: seq<Event>, i: nat)
    requires i < |log| && Folds(log)
    ensures State(log, i + 1).pending ==
      match log[i].body
      case ApprovalRequested(card) => Some(card)
      case ApprovalDecided(_, _, _) => None
      case _ => State(log, i).pending
    ensures log[i].body.ApprovalDecided? ==>
      && State(log, i).pending.Some?
      && var card := State(log, i).pending.value;
         && card.id == log[i].body.approvalId && card.epoch == State(log, i).epoch && card.expires > log[i].t
         && State(log, i + 1).approvals
            == PutApproval(State(log, i).approvals, ApprovalOf(card, card.id, log[i].body.decision, log[i].body.who))
    ensures !log[i].body.ApprovalDecided? ==> State(log, i + 1).approvals == State(log, i).approvals
  {
    hide Apply, State, PutApproval, CardCurrent;
    Step(log, i);
    PendingStep(State(log, i), log[i]);
  }

  /** The last card requested before event `i`, or -1. */
  function LastRequest(log: seq<Event>, i: nat): (j: int)
    requires i <= |log|
    ensures -1 <= j < i
    ensures j >= 0 ==> log[j].body.ApprovalRequested?
  {
    if i == 0 then -1
    else if log[i - 1].body.ApprovalRequested? then i - 1
    else LastRequest(log, i - 1)
  }

  /** A pending card was requested, and is the last one that was. */
  lemma {:induction false} PendingRequested(log: seq<Event>, i: nat)
    requires i <= |log| && Folds(log) && State(log, i).pending.Some?
    ensures LastRequest(log, i) >= 0 && log[LastRequest(log, i)].body.card == State(log, i).pending.value
  {
    hide Apply, State, Folds, PutApproval;
    if i == 0 {
      NoCaps(log);
    } else {
      CardAt(log, i - 1);
      if !log[i - 1].body.ApprovalRequested? {
        PendingRequested(log, i - 1);
      }
    }
  }

  lemma RunFolds(r: Rules, c: Case, log: seq<Event>)
    requires Run(r, c, log)
    ensures Folds(log) && Dense(log) && CausesOk(log) && Stamped(log)
  {}
}
