/** When one more event keeps a written log written. */
module Writing {
  import opened Wrappers
  import opened Contract
  import opened Fold
  import opened Causes
  import opened Capabilities
  import opened Runs

  /** The blackboard of the whole log. */
  function Board(log: seq<Event>): Blackboard
  {
    State(log, |log|)
  }

  ghost predicate ClockOk(log: seq<Event>, t: nat) {
    log != [] ==> log[|log| - 1].t <= t
  }

  /** Everything the single writer demands of the next event. */
  ghost predicate Joins(log: seq<Event>, e: Event) {
    && e.seqNo == |log| && EnvelopeOk(e) && e.epoch == Board(log).epoch && ClockOk(log, e.t)
    && Apply(Board(log), e).Some?
    && CausesMet(GatherAll(log, |log|), e)
  }

  lemma {:induction false} StatePrefix(a: seq<Event>, b: seq<Event>, i: nat)
    requires a <= b && i <= |a|
    ensures State(a, i) == State(b, i)
  {
    hide Apply;
    if i > 0 {
      StatePrefix(a, b, i - 1);
    }
  }

  lemma AppendStates(log: seq<Event>, e: Event)
    ensures forall i | 0 <= i <= |log| ::
      State(log + [e], i) == State(log, i) && GatherAll(log + [e], i) == GatherAll(log, i)
  {
    hide Apply, State, GatherAll;
    forall i | 0 <= i <= |log|
      ensures State(log + [e], i) == State(log, i) && GatherAll(log + [e], i) == GatherAll(log, i)
    {
      StatePrefix(log, log + [e], i);
      GatherPrefix(log, log + [e], i);
    }
  }

  lemma FoldsAppend(log: seq<Event>, e: Event)
    requires Folds(log)
    ensures Folds(log + [e]) <==> Apply(Board(log), e).Some?
  {
    hide Apply, State;
    AppendStates(log, e);
    var more := log + [e];
    assert more[|log|] == e;
    assert forall i | 0 <= i < |log| :: more[i] == log[i];
  }

  lemma CausesAppend(log: seq<Event>, e: Event)
    requires CausesOk(log)
    ensures CausesOk(log + [e]) <==> CausesMet(GatherAll(log, |log|), e)
  {
    hide CausesMet, GatherAll, State;
    AppendStates(log, e);
    var more := log + [e];
    assert more[|log|] == e;
    assert forall i | 0 <= i < |log| :: more[i] == log[i];
  }

  lemma StampedAppend(log: seq<Event>, e: Event)
    requires Stamped(log)
    ensures Stamped(log + [e]) <==> EnvelopeOk(e) && e.epoch == Board(log).epoch && ClockOk(log, e.t)
  {
    hide EnvelopeOk, State, GatherAll;
    AppendStates(log, e);
    var more := log + [e];
    assert more[|log|] == e;
    assert forall i | 0 <= i < |log| :: more[i] == log[i];
  }

  lemma DenseAppend(log: seq<Event>, e: Event)
    requires Dense(log)
    ensures Dense(log + [e]) <==> e.seqNo == |log|
  {
    var more := log + [e];
    assert more[|log|] == e;
    assert forall i | 0 <= i < |log| :: more[i] == log[i];
  }

  /** One more event keeps the log written exactly when it joins. */
  lemma WrittenAppend(log: seq<Event>, e: Event)
    requires Written(log)
    ensures Written(log + [e]) <==> Joins(log, e)
    ensures Joins(log, e) ==> Apply(Board(log), e) == Some(Board(log + [e]))
  {
    hide Dense, Folds, CausesOk, Stamped, Apply, State, GatherAll, EnvelopeOk, CausesMet, ClockOk;
    DenseAppend(log, e);
    FoldsAppend(log, e);
    CausesAppend(log, e);
    StampedAppend(log, e);
    AppendStates(log, e);
    if Joins(log, e) {
      Step(log + [e], |log|);
    }
  }

  /** What a written log stays written without: its last event. */
  lemma {:induction false} WrittenPrefix(log: seq<Event>, e: Event)
    requires Written(log + [e])
    ensures Written(log)
  {
    hide Apply, State, GatherAll, EnvelopeOk, CausesMet;
    AppendStates(log, e);
    var more := log + [e];
    assert forall i | 0 <= i < |log| :: more[i] == log[i];
  }
}
