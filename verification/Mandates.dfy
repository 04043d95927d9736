/**
 The mandate on the board: the last proposal, as the last decision made it, and the epoch it stands in.
 */
module Mandates {
  import opened Wrappers
  import opened Contract
  import opened Fold
  import opened Capabilities
  import opened Runs

  /** What each event makes of the mandate: a bump for another reason leaves it behind. */
  lemma MandateStep(bb: Blackboard, e: Event)
    requires Apply(bb, e).Some? && PayloadOk(e.body)
    ensures var next := Apply(bb, e).value;
      match e.body
      case MandateProposed(m) => next.mandate == Some(m) && m.status == Proposed && m.epoch == bb.epoch == next.epoch
      case MandateDecided(id, hash, decision, who) =>
        && bb.mandate.Some? && bb.mandate.value.status == Proposed && bb.mandate.value.epoch == bb.epoch == next.epoch
        && bb.mandate.value.id == id && bb.mandate.value.hash == hash
        && next.mandate == Some(bb.mandate.value.(
             status := if decision == Granted then MandateGranted else MandateDenied, decidedBy := Some(who)))
      case EpochBumped(epochNew, reason) =>
        && next.epoch == epochNew > bb.epoch
        && next.mandate == if reason == MandateWasDecided && bb.mandate.Some?
                              && bb.mandate.value.status != Proposed && bb.mandate.value.epoch == bb.epoch
                           then Some(bb.mandate.value.(epoch := epochNew)) else bb.mandate
      case _ => next.mandate == bb.mandate && next.epoch == bb.epoch
    ensures e.body.ApprovalPosted? && e.body.post.subject == OfMandate ==>
      bb.mandate.Some? && bb.mandate.value.status == Proposed
      && bb.mandate.value.id == e.body.post.id && bb.mandate.value.hash == e.body.post.hash
  {
    hide FindOffer, PutOffer, FindAuthorization, ReleasedTerms, AcceptInFlight, CardCurrent, Edge,
      Unconfirmed, IsOfferRef, PutApproval, AuthorizedOffer, OfferWithTerms, Without;
  }

  lemma StampedPayload(log: seq<Event>, i: nat)
    requires i < |log| && Stamped(log)
    ensures PayloadOk(log[i].body)
  {
    hide State, MayEmit, CauseRequired;
    assert EnvelopeOk(log[i]);
  }

  /** `m` is the proposal `l` as event `d` decided it; its epoch may have been carried forward since. */
  ghost predicate DecidedAs(log: seq<Event>, m: Mandate, l: nat, d: nat)
    requires l < |log| && d < |log|
  {
    && log[l].body.MandateProposed? && log[d].body.MandateDecided?
    && log[d].body.mandateId == m.id && log[d].body.mandateHash == m.hash
    && m == log[l].body.mandate.(
         status := if log[d].body.decision == Granted then MandateGranted else MandateDenied,
         decidedBy := Some(log[d].body.who), epoch := m.epoch)
  }

  /** Since event `d` there was no proposal and no decision of a mandate. */
  ghost predicate LastSince(log: seq<Event>, d: nat, i: nat)
    requires i <= |log|
  {
    forall k | d < k < i :: !log[k].body.MandateProposed? && !log[k].body.MandateDecided?
  }

  /** Since event `d` the epoch moved for nothing but decisions of mandates. */
  ghost predicate OnlyDecisions(log: seq<Event>, d: nat, i: nat)
    requires i <= |log|
  {
    forall k | d < k < i && log[k].body.EpochBumped? :: log[k].body.reason == MandateWasDecided
  }

  /**
   The mandate is its last proposal, as it was decided if it was. It is of the board's epoch exactly if
   since its decision the epoch moved for nothing but decisions of mandates, and else it stays behind.
   */
  lemma {:induction false} MandateAt(log: seq<Event>, i: nat, m: Mandate) returns (l: nat, d: int)
    requires i <= |log| && Folds(log) && Stamped(log) && State(log, i).mandate == Some(m)
    ensures l < i && log[l].body.MandateProposed?
    ensures m.status == Proposed ==> m == log[l].body.mandate
    ensures m.status != Proposed ==>
      && l < d < i && DecidedAs(log, m, l, d) && LastSince(log, d, i)
      && (m.epoch == State(log, i).epoch <==> OnlyDecisions(log, d, i))
    ensures m.epoch <= State(log, i).epoch
  {
    hide Apply, State, Folds, EnvelopeOk;
    if i == 0 {
      NoCaps(log);
    } else {
      Step(log, i - 1);
      StampedPayload(log, i - 1);
      MandateStep(State(log, i - 1), log[i - 1]);
      if log[i - 1].body.MandateProposed? {
        l, d := i - 1, -1;
      } else {
        l, d := MandateAt(log, i - 1, State(log, i - 1).mandate.value);
        if log[i - 1].body.MandateDecided? {
          d := i - 1;
        }
      }
    }
  }
}
