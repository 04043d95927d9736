/** Who may write what, and what is left to the models: to take back, never to grant. */
module Emitters {
  import opened Contract
  import opened Fold
  import opened Capabilities
  import opened Wrappers

  /** What needs no authority: a revocation, and what is recorded only. */
  predicate Harmless(b: Body) {
    b.Revoked? || b.SessionStarted? || b.SessionEnded? || b.Record?
  }

  /** The events an actor may write. */
  predicate MayWrite(a: Actor, b: Body) {
    match a
    case GuardActor => !b.ApprovalPosted? && !b.ApprovalDecided? && !b.MandateDecided? && !b.Released?
    case KernelActor =>
      b.ApprovalDecided? || b.MandateDecided? || b.Released? || b.FenceChanged? || b.EpochBumped? || Harmless(b)
    case UiActor => b.ApprovalPosted? || Harmless(b)
    case SimActor => b.ApprovalPosted? || Harmless(b)
    case FastActor => Harmless(b)
    case SlowActor => Harmless(b)
    case WorldActor => b.Record?
  }

  /** What the payloads that are checked must hold. */
  predicate Filled(b: Body) {
    && (b.EpochBumped? ==> b.epochNew >= 1)
    && (b.MandateProposed? ==> b.mandate.status == Proposed && b.mandate.decidedBy == None)
    && (b.ApprovalRequested? ==>
          && b.card.binding.ref == b.card.ref && b.card.binding.revision == b.card.revision
          && b.card.binding.epoch == b.card.epoch)
  }

  /** An event is valid on its own exactly if its causes are earlier, its actor may write it and it is filled in. */
  lemma EnvelopeExactly(e: Event)
    ensures EnvelopeOk(e) <==>
      && (forall k | 0 <= k < |e.causes| :: e.causes[k] < e.seqNo)
      && (e.causes == [] ==>
            e.body.ApprovalPosted? || e.body.SessionStarted? || e.body.SessionEnded?
            || (e.body.Record? && !e.body.derived))
      && MayWrite(e.actor, e.body) && Filled(e.body)
  {
    CausesEarlier(e.causes, e.seqNo);
  }

  lemma CausesEarlier(causes: seq<nat>, n: nat)
    ensures (forall c | c in causes :: c < n) <==> forall k | 0 <= k < |causes| :: causes[k] < n
  {
    if forall c | c in causes :: c < n {
      forall k | 0 <= k < |causes| ensures causes[k] < n {
        assert causes[k] in causes;
      }
    }
  }

  /** The board as a model leaves it: at most one capability less, and that one was not used. */
  ghost predicate OnlyRestricts(bb: Blackboard, next: Blackboard) {
    && next == bb.(seqNo := next.seqNo, t := next.t, capabilities := next.capabilities)
    && (next.capabilities == bb.capabilities
        || exists k :: LiveCap(bb, k) && next.capabilities == bb.capabilities - {k})
  }

  /** Whatever a model or the world writes, in any log of valid events, grants nothing. */
  lemma ModelsOnlyRestrict(log: seq<Event>, i: nat)
    requires i < |log| && Folds(log) && EnvelopeOk(log[i]) && log[i].actor in {FastActor, SlowActor, WorldActor}
    ensures OnlyRestricts(State(log, i), State(log, i + 1))
    ensures log[i].actor == WorldActor ==> State(log, i + 1).capabilities == State(log, i).capabilities
    ensures forall k | k in State(log, i + 1).capabilities ::
      k in State(log, i).capabilities && State(log, i + 1).capabilities[k] == State(log, i).capabilities[k]
  {
    hide State, Folds;
    Step(log, i);
  }
}
