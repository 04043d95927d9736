/**
 Where an approval comes from, and that Guard's `decide`, the fold and the log rules agree on what
 may be decided.
 */
module Provenance {
  import opened Wrappers
  import opened Contract
  import opened Fold
  import opened Guard
  import opened Causes
  import opened Capabilities
  import opened Runs
  import opened Cards

  // ---------------------------------------------------------------- what a decision cites

  /** The post a decision cites, as the log of earlier events knows it. */
  ghost predicate Cites(log: seq<Event>, i: nat, p: nat)
    requires i < |log|
  {
    PostsCited(GatherAll(log, i).seen, log[i].causes) == [p]
  }

  /** A decision of a written log cites one earlier post, which it records. */
  lemma DecisionCites(log: seq<Event>, d: nat) returns (p: nat)
    requires d < |log| && Dense(log) && CausesOk(log) && IsDecision(log[d].body)
    ensures p < d && Cites(log, d, p) && log[p].body.ApprovalPosted?
    ensures Decides(log[d], log[p]) && WhatOf(log[p].body.post) !in GatherAll(log, d).decided
  {
    hide PostsCited, GatherAll, Dense, Decides, WhatOf, IsDecision;
    assert CausesMet(GatherAll(log, d), log[d]);
    SeenDense(log, d);
    p := PostsCited(GatherAll(log, d).seen, log[d].causes)[0];
  }

  lemma PostTaken(bb: Blackboard, e: Event)
    requires Apply(bb, e).Some? && e.body.ApprovalPosted? && e.body.post.subject == OfApproval
    ensures bb.pending.Some?
    ensures var card, p := bb.pending.value, e.body.post;
      card.id == p.id && card.termsHash == p.hash && card.epoch == bb.epoch && p.epoch == bb.epoch
  {}

  /** The post `p` was for the last card requested before it. */
  lemma PostFor(log: seq<Event>, p: nat) returns (q: nat)
    requires p < |log| && Folds(log) && log[p].body.ApprovalPosted? && log[p].body.post.subject == OfApproval
    ensures q < p && log[q].body.ApprovalRequested?
    ensures var card, post := log[q].body.card, log[p].body.post;
      && card.id == post.id && card.termsHash == post.hash && card.epoch == State(log, p).epoch
      && post.epoch == card.epoch
  {
    hide Apply, State, Folds;
    Step(log, p);
    PostTaken(State(log, p), log[p]);
    PendingRequested(log, p);
    q := LastRequest(log, p);
  }

  /** A decision of a run: the card it was requested for, its post, and the terms they share. */
  lemma Decided(r: Rules, c: Case, log: seq<Event>, d: nat) returns (q: nat, p: nat)
    requires d < |log| && Run(r, c, log) && log[d].body.ApprovalDecided?
    ensures q < p < d && Cites(log, d, p) && State(log, d).pending.Some?
    ensures log[q].body.ApprovalRequested? && log[p].body.ApprovalPosted?
    ensures var card, post, b := State(log, d).pending.value, log[p].body.post, log[d].body;
      && log[q].body.card.id == card.id == b.approvalId
      && log[q].body.card.termsHash == card.termsHash
      && log[q].body.card.epoch == card.epoch == State(log, p).epoch == State(log, d).epoch
      && post == Post(OfApproval, b.approvalId, b.decision, card.termsHash, card.epoch)
      && log[p].actor == ActorOf(b.who)
      && card.expires > log[d].t
  {
    hide Apply, State, Run, GatherAll, PostsCited, CausesOk, Folds, Dense, Stamped, LastRequest, PutApproval, Cites,
      WhatOf;
    RunFolds(r, c, log);
    p := DecisionCites(log, d);
    assert log[p].body.post.subject == OfApproval && log[p].body.post.id == log[d].body.approvalId;
    q := PostFor(log, p);
    CardAt(log, d);
    PendingRequested(log, d);
    SameIdSameTerms(r, c, log, q, LastRequest(log, d)) by {
      RequestsInOrder(log, q, d);
    }
  }

  lemma {:induction false} RequestsInOrder(log: seq<Event>, q: nat, i: nat)
    requires q < i <= |log| && log[q].body.ApprovalRequested?
    ensures q <= LastRequest(log, i)
    decreases i
  {
    if q < i - 1 {
      RequestsInOrder(log, q, i - 1);
    }
  }

  // ---------------------------------------------------------------- the chain of an approval

  /** The event that decided this approval, or -1. */
  function DecidedAt(log: seq<Event>, i: nat, id: string): (d: int)
    requires i <= |log|
    ensures -1 <= d < i
    ensures d >= 0 ==> log[d].body.ApprovalDecided? && log[d].body.approvalId == id
  {
    if i == 0 then -1
    else if log[i - 1].body.ApprovalDecided? && log[i - 1].body.approvalId == id then i - 1
    else DecidedAt(log, i - 1, id)
  }

  /** An approval is the decision of the card that was pending when it was decided. */
  lemma {:induction false} ApprovalDecidedAt(r: Rules, c: Case, log: seq<Event>, i: nat, a: Approval)
    requires i <= |log| && Run(r, c, log) && a in State(log, i).approvals
    ensures var d := DecidedAt(log, i, a.id);
      && d >= 0
      && State(log, d).pending.Some?
      && a == ApprovalOf(State(log, d).pending.value, a.id, log[d].body.decision, log[d].body.who)
  {
    hide Apply, State, Run, PutApproval;
    if i == 0 {
      NoCaps(log);
    } else {
      ApprovalsStep(r, c, log, i - 1);
      if log[i - 1].body.ApprovalDecided? {
        DecisionAdds(r, c, log, i - 1);
        if a in State(log, i - 1).approvals {
          HasIt(State(log, i - 1).approvals, a);
        }
      }
      if a in State(log, i - 1).approvals {
        ApprovalDecidedAt(r, c, log, i - 1, a);
      } else {
        assert DecidedAt(log, i, a.id) == i - 1;
      }
    }
  }

  lemma HasIt(approvals: seq<Approval>, a: Approval)
    requires a in approvals
    ensures HasApproval(approvals, a.id)
  {}

  /**
   The chain of an approval: the card it was posted for, the post, and the decision that cites the
   post, in this order, all of one id, epoch and terms, by one approver, and decided in time.
   */
  ghost predicate Chain(log: seq<Event>, a: Approval, q: nat, p: nat, d: nat)
    requires d < |log|
  {
    && q < p < d
    && log[q].body.ApprovalRequested?
    && log[q].body.card.id == a.id && log[q].body.card.termsHash == a.termsHash && log[q].body.card.epoch == a.epoch
    && log[p].body.ApprovalPosted? && log[p].actor == ActorOf(a.who)
    && log[p].body.post == Post(OfApproval, a.id, a.decision, a.termsHash, a.epoch)
    && State(log, p).epoch == a.epoch
    && log[d].body == ApprovalDecided(a.id, a.decision, a.who) && Cites(log, d, p)
    && State(log, d).epoch == a.epoch
    && State(log, d).pending.Some?
    && a == ApprovalOf(State(log, d).pending.value, a.id, a.decision, a.who)
    && log[d].t < State(log, d).pending.value.expires
  }

  /** Every approval of a run has its chain. */
  lemma Provenance(r: Rules, c: Case, log: seq<Event>, i: nat, a: Approval) returns (q: nat, p: nat, d: nat)
    requires i <= |log| && Run(r, c, log) && a in State(log, i).approvals
    ensures d < i && Chain(log, a, q, p, d)
  {
    hide Apply, State, Run, Cites, DecidedAt;
    ApprovalDecidedAt(r, c, log, i, a);
    d := DecidedAt(log, i, a.id);
    q, p := Decided(r, c, log, d);
  }

  // ---------------------------------------------------------------- Guard decides what the log takes

  lemma CardDecided(bb: Blackboard, e: Event)
    requires Apply(bb, e).Some? && e.body.ApprovalDecided?
    ensures bb.pending.Some? && CardCurrent(bb, bb.pending.value)
    ensures bb.pending.value.id == e.body.approvalId && bb.pending.value.epoch == bb.epoch
    ensures bb.pending.value.expires > e.t
  {
    hide CardCurrent, PutApproval;
  }

  lemma CurrentAnyTime(bb: Blackboard, asked: nat, card: Card)
    ensures CardCurrent(AtTime(bb, asked), card) == CardCurrent(bb, card)
  {
    hide FindOffer;
  }

  /** Whatever is decided in a run, `decide` allows: asked there at any time up to its stamp, it answers with it. */
  lemma DecisionsAllowed(r: Rules, c: Case, log: seq<Event>, d: nat, asked: nat) returns (p: nat)
    requires d < |log| && Run(r, c, log) && log[d].body.ApprovalDecided? && asked <= log[d].t
    ensures p < d && Cites(log, d, p) && log[p].body.ApprovalPosted?
    ensures Decide(AtTime(State(log, d), asked), log[p].body.post, log[d].body.who) == Allowed(log[d].body)
  {
    hide Apply, State, Run, Folds, Stamped, CausesOk, Dense, Cites, CardCurrent, HasApproval;
    var q: nat;
    q, p := Decided(r, c, log, d);
    RunFolds(r, c, log);
    Step(log, d);
    CardDecided(State(log, d), log[d]);
    CurrentAnyTime(State(log, d), asked, State(log, d).pending.value);
    PendingUndecided(r, c, log, d);
  }

  /** What the log rules count as decided among approvals is in the blackboard. */
  lemma {:induction false} DecidedApprovals(r: Rules, c: Case, log: seq<Event>, i: nat, id: string, hash: string)
    requires i <= |log| && Run(r, c, log) && (OfApproval, id, hash) in GatherAll(log, i).decided
    ensures HasApproval(State(log, i).approvals, id)
  {
    hide Apply, State, Run, PostsCited, PutApproval, HasApproval, GatherAll;
    if i == 0 {
      GatherNothing(log);
    } else {
      ApprovalsStep(r, c, log, i - 1);
      var before, after := State(log, i - 1).approvals, State(log, i).approvals;
      if (OfApproval, id, hash) in GatherAll(log, i - 1).decided {
        DecidedApprovals(r, c, log, i - 1, id, hash);
        StillHas(before, after, id);
      } else {
        RunFolds(r, c, log);
        JustDecided(log, i - 1, (OfApproval, id, hash));
        DecisionAdds(r, c, log, i - 1);
        HasIt(after, after[|after| - 1]);
      }
    }
  }

  lemma StillHas(before: seq<Approval>, after: seq<Approval>, id: string)
    requires before <= after && HasApproval(before, id)
    ensures HasApproval(after, id)
  {
    var i :| 0 <= i < |before| && before[i].id == id;
    assert after[i].id == id;
  }

  /** What event `i` decided. */
  lemma JustDecided(log: seq<Event>, i: nat, what: What)
    requires i < |log| && Dense(log) && CausesOk(log)
    requires what in GatherAll(log, i + 1).decided && what !in GatherAll(log, i).decided
    ensures IsDecision(log[i].body)
    ensures what.0 == OfApproval ==> log[i].body.ApprovalDecided? && log[i].body.approvalId == what.1
  {
    hide PostsCited;
    GatherNext(log, i);
    assert CausesMet(GatherAll(log, i), log[i]);
    var p := DecisionCites(log, i);
    assert GatherAll(log, i).seen[p] == log[p] by { SeenDense(log, i); }
  }
}
