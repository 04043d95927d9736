/** The event log: dense and append-only. */
module Journal {
  import opened Contract
  import opened Fold
  import opened Causes
  import opened Runs
  import opened Writing

  /** What `append` asks of the next event. */
  ghost predicate Appendable(events: seq<Event>, e: Event) {
    && e.seqNo == |events|
    && ClockOk(events, e.t)
    && (IsDecision(e.body) ==> CausesOk(events + [e]))
  }

  class EventLog {
    const runId: string
    var events: seq<Event>

    constructor (runId: string)
      ensures this.runId == runId && events == []
    {
      this.runId, events := runId, [];
    }

    method Append(e: Event) returns (ok: bool)
      modifies this
      ensures ok <==> Appendable(old(events), e)
      ensures events == if ok then old(events) + [e] else old(events)
    {
      hide CausesOk;
      if e.seqNo != |events| || (events != [] && e.t < events[|events| - 1].t) {
        return false;
      }
      if IsDecision(e.body) {
        ok := CheckCauses(events + [e]);
        if !ok {
          return false;
        }
      }
      events := events + [e];
      ok := true;
    }
  }

  /** Causes that are earlier events of a dense log exist in it. */
  lemma CausesKnown(log: seq<Event>, e: Event)
    requires Dense(log) && e.seqNo == |log| && EnvelopeOk(e) && !IsDecision(e.body)
    ensures CausesMet(GatherAll(log, |log|), e)
  {
    hide GatherAll, PostsCited, MayEmit, PayloadOk;
    SeenDense(log, |log|);
  }

  /** For an event that the envelope and the fold take, `append` asks what a written log needs. */
  lemma AppendableJoins(log: seq<Event>, e: Event)
    requires Written(log)
    requires EnvelopeOk(e) && e.epoch == Board(log).epoch && Apply(Board(log), e).Some?
    ensures Appendable(log, e) <==> Joins(log, e)
  {
    hide State, Apply, EnvelopeOk, CausesMet, CausesOk, Folds, Stamped, ClockOk, GatherAll;
    CausesAppend(log, e);
    if e.seqNo == |log| && !IsDecision(e.body) {
      CausesKnown(log, e);
    }
  }
}
