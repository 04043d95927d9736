/**
 The bus: the session's single writer. It stamps, folds and appends one event at a time, and
 delivers in log order, also what subscribers emit while they are called.
 */
module Bus {
  import opened Wrappers
  import opened Contract
  import opened Fold
  import opened Causes
  import opened Runs
  import opened Writing
  import opened Journal

  // ---------------------------------------------------------------- requests and subscribers

  /** What a caller of `emit` gives, and the time its clock shows. */
  datatype Request = Request(t: nat, actor: Actor, causes: seq<nat>, body: Body)

  datatype Failure = Refusal | Unavailable | Broken

  datatype Ending = Returns | Raises(failure: Failure)

  /**
   What a subscriber does when it is called: the events it tries to emit, the subscribers it adds
   (isolated or not), and how it ends.
   */
  datatype Response = Response(requests: seq<Request>, adds: seq<bool>, ending: Ending)

  const IDLE := Response([], [], Returns)

  /** What a script says of call `k`; once it is used up, subscribers do nothing. */
  function Nth(plan: seq<Response>, k: nat): Response
  {
    if k < |plan| then plan[k] else IDLE
  }

  function From(plan: seq<Response>, k: nat): seq<Response>
  {
    if k < |plan| then plan[k..] else []
  }

  /** The failure that a call which fails raises: the subscriber's own, or the refusal it swallowed. */
  function FailureOf(ending: Ending): Failure
  {
    match ending
    case Returns => Refusal
    case Raises(failure) => failure
  }

  function Stamp(log: seq<Event>, q: Request): Event
  {
    Event(|log|, q.t, q.actor, q.causes, Board(log).epoch, q.body)
  }

  predicate Ended(log: seq<Event>) {
    log != [] && log[|log| - 1].body.SessionEnded?
  }

  /** Nothing follows the end of the session. */
  ghost predicate EndsLast(log: seq<Event>) {
    forall i | 0 <= i < |log| - 1 :: !log[i].body.SessionEnded?
  }

  /** The cached state is that of the log, and the log is as a single writer writes it. */
  ghost predicate Sound(log: seq<Event>, bb: Blackboard, ended: bool) {
    Written(log) && bb == Board(log) && ended == Ended(log) && EndsLast(log)
  }

  /** The next event this request makes of the log. */
  ghost predicate Admits(log: seq<Event>, q: Request) {
    !Ended(log) && Joins(log, Stamp(log, q))
  }

  ghost function After(log: seq<Event>, q: Request): seq<Event>
  {
    if Admits(log, q) then log + [Stamp(log, q)] else log
  }

  /** The log after a subscriber's requests, each admitted or refused in turn. */
  ghost function AfterAll(log: seq<Event>, requests: seq<Request>): seq<Event>
  {
    if requests == [] then log
    else
      var n := |requests| - 1;
      After(AfterAll(log, requests[..n]), requests[n])
  }

  ghost predicate AnyRefused(log: seq<Event>, requests: seq<Request>)
  {
    requests != [] &&
    var n := |requests| - 1;
    AnyRefused(log, requests[..n]) || !Admits(AfterAll(log, requests[..n]), requests[n])
  }

  lemma AfterNext(log: seq<Event>, requests: seq<Request>, n: nat)
    requires n < |requests|
    ensures AfterAll(log, requests[..n + 1]) == After(AfterAll(log, requests[..n]), requests[n])
    ensures AnyRefused(log, requests[..n + 1])
       <==> AnyRefused(log, requests[..n]) || !Admits(AfterAll(log, requests[..n]), requests[n])
  {
    hide After, Admits;
    assert requests[..n + 1][..n] == requests[..n];
  }

  /** Of the calls from `first` on, the last one raised `err`, and none before it raised anything. */
  ghost predicate RaisedLast(raised: seq<Option<Failure>>, first: nat, err: Option<Failure>) {
    && first <= |raised| && (err.Some? ==> first < |raised|)
    && forall k | first <= k < |raised| :: raised[k] == if k == |raised| - 1 then err else None
  }

  lemma RaisedNext(raised: seq<Option<Failure>>, first: nat, err: Option<Failure>)
    requires RaisedLast(raised, first, None)
    ensures RaisedLast(raised + [err], first, err)
  {}

  lemma RaisedNone(raised: seq<Option<Failure>>)
    ensures RaisedLast(raised, |raised|, None)
  {}

  function Requests(script: seq<Response>): nat
  {
    if script == [] then 0 else |script[0].requests| + Requests(script[1..])
  }

  // ---------------------------------------------------------------- who heard what

  function Part(log: seq<Event>, a: nat, b: nat): seq<Event>
  {
    if a <= b <= |log| then log[a..b] else []
  }

  function Copies<T>(x: T, n: nat): (r: seq<T>)
    ensures |r| == n && forall i | 0 <= i < n :: r[i] == x
  {
    seq(n, i => x)
  }

  /** How many calls it took that they heard all this. */
  function Total(heard: seq<seq<Event>>): nat
  {
    if heard == [] then 0 else Total(heard[..|heard| - 1]) + |heard[|heard| - 1]|
  }

  lemma {:induction false} TotalUpdate(heard: seq<seq<Event>>, s: nat, e: Event)
    requires s < |heard|
    ensures Total(heard[s := heard[s] + [e]]) == Total(heard) + 1
  {
    var n := |heard| - 1;
    var next := heard[s := heard[s] + [e]];
    if s == n {
      assert next[..n] == heard[..n];
    } else {
      TotalUpdate(heard[..n], s, e);
      assert next[..n] == heard[..n][s := heard[s] + [e]];
    }
  }

  lemma {:induction false} TotalNew(heard: seq<seq<Event>>, n: nat)
    ensures Total(heard + Copies([], n)) == Total(heard)
  {
    if n == 0 {
      assert heard + Copies([], 0) == heard;
    } else {
      TotalNew(heard, n - 1);
      var next := heard + Copies([], n);
      assert next[..|next| - 1] == heard + Copies([], n - 1);
    }
  }

  /**
   Subscriber `x` heard what came from event `start` on and before event `m`; one that was added since
   heard what came after the event that was being delivered then.
   */
  ghost predicate HeardTo(
      log: seq<Event>, start: nat, before: seq<seq<Event>>, joined: nat, heard: seq<Event>, x: nat, m: nat)
  {
    if x < |before| then start <= m <= |log| && heard == before[x] + log[start..m]
    else start < joined && heard == Part(log, joined, m)
  }

  /** From event `start` on, everyone heard up to event `n`, and the first `s` subscribers also heard `n`. */
  ghost predicate Reached(
      log: seq<Event>, start: nat, before: seq<seq<Event>>, joined: seq<nat>, heard: seq<seq<Event>>, n: nat, s: nat)
  {
    && start <= n <= |log| && (s > 0 ==> n < |log|)
    && |before| <= |heard| == |joined|
    && (forall x | |before| <= x < |heard| :: joined[x] <= if s == 0 then n else n + 1)
    && forall x | 0 <= x < |heard| :: HeardTo(log, start, before, joined[x], heard[x], x, if x < s then n + 1 else n)
  }

  /** Those after the first `count` subscribers were added while event `n` was delivered. */
  ghost predicate AddedAt(joined: seq<nat>, count: nat, n: nat) {
    count <= |joined| && forall x | count <= x < |joined| :: joined[x] == n + 1
  }

  /** Events of the log in their order, each at most once. */
  ghost predicate InOrder(log: seq<Event>, heard: seq<Event>) {
    && (forall k | 0 <= k < |heard| :: heard[k].seqNo < |log| && heard[k] == log[heard[k].seqNo])
    && (forall k, l | 0 <= k < l < |heard| :: heard[k].seqNo < heard[l].seqNo)
  }

  /** What a subscriber that joined at event `joined` heard of the log. */
  ghost predicate HeardWell(log: seq<Event>, heard: seq<Event>, joined: nat, dropped: seq<Event>, failed: bool) {
    && InOrder(log, heard)
    && (forall k | 0 <= k < |heard| :: heard[k] !in dropped)
    && joined <= |log|
    && (!failed ==> heard == log[joined..])
  }

  /** So did they all. */
  ghost predicate AllWell(
      log: seq<Event>, heard: seq<seq<Event>>, joined: seq<nat>, dropped: seq<Event>, failed: bool)
  {
    && |heard| == |joined|
    && (forall d | d in dropped :: d.seqNo < |log|)
    && forall x | 0 <= x < |heard| :: HeardWell(log, heard[x], joined[x], dropped, failed)
  }

  /** A delivery that reaches everything keeps it. */
  lemma HeardAll(log: seq<Event>, start: nat, before: seq<Event>, joined: nat, dropped: seq<Event>, failed: bool)
    requires start <= |log| && Dense(log) && HeardWell(log[..start], before, joined, dropped, failed)
    requires forall d | d in dropped :: d.seqNo < start
    ensures HeardWell(log, before + log[start..], joined, dropped, failed)
  {
    hide InOrder;
    OrderedMore(log, start, before, |log|);
    assert log[start..|log|] == log[start..];
    if !failed {
      assert before + log[start..] == log[joined..];
    }
  }

  /** A delivery that fails at event `n` keeps it, with all that was queued dropped. */
  lemma HeardPart(
      log: seq<Event>, start: nat, before: seq<Event>, joined: nat, dropped: seq<Event>, failed: bool, n: nat, m: nat)
    requires start <= m <= n + 1 <= |log| && Dense(log) && HeardWell(log[..start], before, joined, dropped, failed)
    requires forall d | d in dropped :: d.seqNo < start
    ensures HeardWell(log, before + log[start..m], joined, dropped + log[n + 1..], true)
  {
    hide InOrder;
    OrderedMore(log, start, before, m);
    var heard := before + log[start..m];
    forall k | 0 <= k < |heard|
      ensures heard[k] !in dropped && heard[k].seqNo <= n
    {
      if k < |before| {
        BeforeStart(log[..start], before, k);
      } else {
        assert heard[k] == log[start + (k - |before|)];
      }
    }
  }

  lemma BeforeStart(log: seq<Event>, heard: seq<Event>, k: nat)
    requires InOrder(log, heard) && k < |heard|
    ensures heard[k].seqNo < |log|
  {}

  lemma ReachedGrows(
      log: seq<Event>, more: seq<Event>, start: nat, before: seq<seq<Event>>, joined: seq<nat>,
      heard: seq<seq<Event>>, n: nat, s: nat)
    requires log <= more && Reached(log, start, before, joined, heard, n, s)
    ensures Reached(more, start, before, joined, heard, n, s)
  {
    assert log == more[..|log|];
    forall x | 0 <= x < |heard|
      ensures HeardTo(more, start, before, joined[x], heard[x], x, if x < s then n + 1 else n)
    {
      var m := if x < s then n + 1 else n;
      assert HeardTo(log, start, before, joined[x], heard[x], x, m);
      if x < |before| {
        assert log[start..m] == more[start..m];
      } else if joined[x] <= m {
        assert log[joined[x]..m] == more[joined[x]..m];
      }
    }
  }

  /** One more subscriber hears event `n`. */
  lemma ReachedNext(
      log: seq<Event>, start: nat, before: seq<seq<Event>>, joined: seq<nat>, heard: seq<seq<Event>>, n: nat, s: nat)
    requires Reached(log, start, before, joined, heard, n, s) && n < |log| && s < |heard|
    requires s >= |before| ==> joined[s] <= n
    ensures Reached(log, start, before, joined, heard[s := heard[s] + [log[n]]], n, s + 1)
  {
    var next := heard[s := heard[s] + [log[n]]];
    forall x | 0 <= x < |next|
      ensures HeardTo(log, start, before, joined[x], next[x], x, if x < s + 1 then n + 1 else n)
    {
      assert HeardTo(log, start, before, joined[x], heard[x], x, if x < s then n + 1 else n);
      if x == s {
        if x < |before| {
          assert log[start..n + 1] == log[start..n] + [log[n]];
        } else {
          assert log[joined[x]..n + 1] == log[joined[x]..n] + [log[n]];
        }
      }
    }
  }

  /** Subscribers added while event `n` is delivered heard nothing yet. */
  lemma ReachedAdds(
      log: seq<Event>, start: nat, before: seq<seq<Event>>, joined: seq<nat>, heard: seq<seq<Event>>, n: nat, s: nat,
      adds: nat)
    requires Reached(log, start, before, joined, heard, n, s) && 1 <= s <= |heard|
    ensures Reached(log, start, before, joined + Copies(n + 1, adds), heard + Copies([], adds), n, s)
  {
    var joined', heard' := joined + Copies(n + 1, adds), heard + Copies([], adds);
    forall x | 0 <= x < |heard'|
      ensures HeardTo(log, start, before, joined'[x], heard'[x], x, if x < s then n + 1 else n)
      ensures x >= |before| ==> joined'[x] <= n + 1
    {
      if x < |heard| {
        assert HeardTo(log, start, before, joined[x], heard[x], x, if x < s then n + 1 else n);
      }
    }
  }

  /** Event `n` was delivered to everyone who was there before it. */
  lemma ReachedAll(
      log: seq<Event>, start: nat, before: seq<seq<Event>>, joined: seq<nat>, heard: seq<seq<Event>>, n: nat, s: nat)
    requires Reached(log, start, before, joined, heard, n, s) && n < |log|
    requires |before| <= s && AddedAt(joined, s, n)
    ensures Reached(log, start, before, joined, heard, n + 1, 0)
  {
    forall x | 0 <= x < |heard| ensures HeardTo(log, start, before, joined[x], heard[x], x, n + 1) {
      assert HeardTo(log, start, before, joined[x], heard[x], x, if x < s then n + 1 else n);
    }
  }

  lemma OrderedMore(log: seq<Event>, start: nat, before: seq<Event>, m: nat)
    requires start <= m <= |log| && Dense(log) && InOrder(log[..start], before)
    ensures InOrder(log, before + log[start..m])
  {
    var heard := before + log[start..m];
    forall k | 0 <= k < |heard| ensures heard[k].seqNo < |log| && heard[k] == log[heard[k].seqNo] {
      if k < |before| {
        assert before[k] == log[..start][before[k].seqNo];
      } else {
        assert heard[k] == log[start + (k - |before|)];
      }
    }
    forall k, l | 0 <= k < l < |heard| ensures heard[k].seqNo < heard[l].seqNo {
      if l >= |before| {
        assert heard[l] == log[start + (l - |before|)];
        if k >= |before| {
          assert heard[k] == log[start + (k - |before|)];
        }
      }
    }
  }

  // ---------------------------------------------------------------- the bus

  class Bus {
    const journal: EventLog
    var bb: Blackboard
    var ended: bool
    var subscriberErrors: nat
    var isolated: seq<bool>
    var undelivered: seq<Event>
    var delivering: bool
    var rejected: Option<Failure>
    /** What the subscribers will do, call by call. */
    var script: seq<Response>

    ghost const plan: seq<Response>
    ghost var calls: nat
    /** What each call that is over raised. */
    ghost var raised: seq<Option<Failure>>
    ghost var heard: seq<seq<Event>>
    ghost var joined: seq<nat>
    ghost var dropped: seq<Event>
    ghost var failed: bool

    /** The cached blackboard is the fold of the log, and the queue is its end. */
    ghost predicate Valid()
      reads this, journal
    {
      && Sound(journal.events, bb, ended)
      && |heard| == |isolated| == |joined|
      && script == From(plan, calls) && calls == Total(heard)
      && |undelivered| <= |journal.events|
      && undelivered == journal.events[|journal.events| - |undelivered|..]
    }

    /** Between two deliveries: nobody heard out of order, or what a failure dropped. */
    ghost predicate Idle()
      reads this, journal
    {
      && Valid() && !delivering && undelivered == [] && rejected == None
      && AllWell(journal.events, heard, joined, dropped, failed)
    }

    constructor (runId: string, script: seq<Response>)
      ensures Idle() && fresh(journal) && journal.runId == runId && journal.events == []
      ensures isolated == [] && plan == script && !failed
    {
      hide Sound, AllWell;
      journal := new EventLog(runId);
      bb, ended, subscriberErrors := BLANK, false, 0;
      isolated, undelivered, delivering, rejected := [], [], false, None;
      this.script, plan := script, script;
      calls, raised, heard, joined, dropped, failed := 0, [], [], [], [], false;
      new;
      EmptyWritten();
      assert Valid();
    }

    /** A subscriber hears what comes next: after the queue's next event is begun, what is queued behind it. */
    method Subscribe(isolate: bool)
      requires Valid()
      modifies this`isolated, this`heard, this`joined
      ensures Valid() && (old(Idle()) ==> Idle())
      ensures isolated == old(isolated) + [isolate]
      ensures heard == old(heard) + Copies([], 1)
      ensures joined == old(joined) + Copies(|journal.events| - |undelivered|, 1)
    {
      hide Sound, HeardWell, Total;
      NoneHeard(journal.events, dropped, failed);
      TotalNew(heard, 1);
      isolated := isolated + [isolate];
      heard, joined := heard + Copies([], 1), joined + Copies(|journal.events| - |undelivered|, 1);
    }

    /** The part of `emit` that writes: it admits and queues the event, or changes nothing. */
    method Write(q: Request) returns (r: Result<Event, Failure>)
      requires Valid()
      modifies this`bb, this`ended, this`undelivered, this`rejected, journal
      ensures Valid()
      ensures journal.events == After(old(journal.events), q)
      ensures undelivered == old(undelivered) + journal.events[|old(journal.events)|..]
      ensures r == if Admits(old(journal.events), q) then Allowed(Stamp(old(journal.events), q)) else Refused(Refusal)
      ensures rejected == if r.Refused? && delivering then Some(Refusal) else old(rejected)
      ensures r.Refused? ==> bb == old(bb)
    {
      hide Apply, Board, EnvelopeOk, Written, Joins, Appendable, Ended, EndsLast, From, Total;
      ghost var log := journal.events;
      var e := Event(|journal.events|, q.t, q.actor, q.causes, bb.epoch, q.body);
      var next := if !ended && EnvelopeOk(e) then Apply(bb, e) else None;
      var ok := next.Some?;
      NotJoined(log, e);
      if ok {
        AppendableJoins(log, e);
        ok := journal.Append(e);
      }
      if !ok {
        if delivering {
          rejected := Some(Refusal);
        }
        return Refused(Refusal);
      }
      WrittenAppend(log, e);
      EndsAppend(log, e);
      assert (log + [e])[|log|..] == [e];
      bb, ended := next.value, e.body.SessionEnded?;
      undelivered := undelivered + [e];
      r := Allowed(e);
    }

    /** Everything but the log, the blackboard and the queue. */
    twostate predicate OnlyWrote()
      reads this
    {
      && subscriberErrors == old(subscriberErrors) && isolated == old(isolated)
      && delivering == old(delivering) && script == old(script) && calls == old(calls)
      && heard == old(heard) && joined == old(joined) && dropped == old(dropped) && failed == old(failed)
      && raised == old(raised)
    }

    /**
     `emit`. Nested in a delivery it only queues. Otherwise the event and all that it leads to is
     delivered: everyone hears all of it in order, or up to the call that failed, which is the last one
     made and whose failure is raised.
     */
    method Emit(q: Request) returns (r: Result<Event, Failure>)
      requires if delivering then Valid() else Idle()
      modifies this, journal
      decreases if delivering then 0 else 6, 0
      ensures old(delivering) ==>
        && Valid() && OnlyWrote()
        && journal.events == After(old(journal.events), q)
        && undelivered == old(undelivered) + journal.events[|old(journal.events)|..]
        && r == (if Admits(old(journal.events), q) then Allowed(Stamp(old(journal.events), q)) else Refused(Refusal))
        && rejected == if r.Refused? then Some(Refusal) else old(rejected)
      ensures !old(delivering) ==> Idle() && old(isolated) <= isolated && old(joined) <= joined
      ensures !old(delivering) && !Admits(old(journal.events), q) ==>
        && r == Refused(Refusal) && OnlyWrote() && bb == old(bb) && journal.events == old(journal.events)
      ensures !old(delivering) && Admits(old(journal.events), q) ==>
        && old(journal.events) + [Stamp(old(journal.events), q)] <= journal.events
        && exists n: nat, s: nat ::
             && Reached(journal.events, |old(journal.events)|, old(heard), joined, heard, n, s)
             && RaisedLast(raised, |old(raised)|, if r.Refused? then Some(r.reason) else None)
             && (r.Allowed? ==>
                   && r.value == Stamp(old(journal.events), q)
                   && n == |journal.events| && failed == old(failed) && dropped == old(dropped))
             && (r.Refused? ==>
                   && n < |journal.events| && 1 <= s <= |isolated| && old(calls) < calls
                   && r.reason == FailureOf(Nth(plan, calls - 1).ending)
                   && failed && dropped == old(dropped) + journal.events[n + 1..])
    {
      hide Reached, Admits, AllWell, Sound, Stamp, Total, From, Nth, RaisedLast;
      ghost var log := journal.events;
      r := Write(q);
      if r.Allowed? && !delivering {
        assert journal.events[..|log|] == log;
        var err := Deliver(|log|);
        if err.Some? {
          r := Refused(err.value);
        }
      }
    }

    /** `_deliver`: the queue, in log order, to every subscriber, until one call raises. */
    method Deliver(ghost start: nat) returns (err: Option<Failure>)
      requires Valid() && !delivering && rejected == None
      requires start < |journal.events| && undelivered == journal.events[start..]
      requires AllWell(journal.events[..start], heard, joined, dropped, failed)
      modifies this, journal
      decreases 5
      ensures Idle() && old(isolated) <= isolated && old(joined) <= joined && old(journal.events) <= journal.events
      ensures exists n: nat, s: nat ::
        && Reached(journal.events, start, old(heard), joined, heard, n, s)
        && RaisedLast(raised, |old(raised)|, err)
        && (err.None? ==> n == |journal.events| && failed == old(failed) && dropped == old(dropped))
        && (err.Some? ==>
              && n < |journal.events| && 1 <= s <= |isolated| && old(calls) < calls
              && err.value == FailureOf(Nth(plan, calls - 1).ending)
              && failed && dropped == old(dropped) + journal.events[n + 1..])
    {
      hide Reached, Admits, AllWell, Sound, Stamp, AfterAll, AnyRefused, Requests, Total, From, Nth, RaisedLast;
      ghost var before, log0, joined0 := heard, journal.events, joined;
      delivering := true;
      StartReached(journal.events, start, joined, heard);
      ghost var n: nat, s: nat;
      err, n, s := Drain(start, before);
      SoundDense(journal.events, bb, ended);
      assert journal.events[..start] == log0[..start];
      assert joined[..|joined0|] == joined0;
      EveryoneHeard(journal.events, start, before, heard, joined, dropped, failed, n, s, err == None);
      if err != None {
        dropped, failed := dropped + journal.events[n + 1..], true;
        undelivered := [];
      }
      delivering := false;
    }

    /** Event by event until the queue is empty or a call raises. */
    method Drain(ghost start: nat, ghost before: seq<seq<Event>>)
      returns (err: Option<Failure>, ghost n: nat, ghost s: nat)
      requires Valid() && delivering && rejected == None
      requires start + |undelivered| == |journal.events|
      requires Reached(journal.events, start, before, joined, heard, start, 0)
      modifies this, journal
      decreases 4
      ensures Valid() && delivering && rejected == None && old(journal.events) <= journal.events
      ensures old(isolated) <= isolated && old(joined) <= joined && dropped == old(dropped) && failed == old(failed)
      ensures Reached(journal.events, start, before, joined, heard, n, s)
      ensures if err == None then n == |journal.events| && undelivered == []
              else n < |journal.events| && 1 <= s <= |isolated|
      ensures RaisedLast(raised, |old(raised)|, err)
      ensures err.Some? ==> old(calls) < calls && err.value == FailureOf(Nth(plan, calls - 1).ending)
      ensures old(calls) <= calls
    {
      hide Reached, Admits, AllWell, Sound, Stamp, AfterAll, AnyRefused, Total, From, Nth, RaisedLast,
        Requests, FailureOf, AddedAt;
      err, n, s := None, start, 0;
      ghost var first := |raised|;
      RaisedNone(raised);
      while undelivered != [] && err == None
        invariant Valid() && delivering && rejected == None && old(journal.events) <= journal.events
        invariant old(isolated) <= isolated && old(joined) <= joined && dropped == old(dropped) && failed == old(failed)
        invariant Reached(journal.events, start, before, joined, heard, n, s)
        invariant err == None ==> n + |undelivered| == |journal.events| && s == 0
        invariant err != None ==> n < |journal.events| && 1 <= s <= |isolated|
        invariant RaisedLast(raised, first, err)
        invariant err.Some? ==> old(calls) < calls && err.value == FailureOf(Nth(plan, calls - 1).ending)
        invariant old(calls) <= calls
        decreases Requests(script) + |undelivered|, err == None
      {
        Popped(journal.events, undelivered);
        var e := undelivered[0];
        undelivered := undelivered[1..];
        err, s := Broadcast(e, start, before, n, first);
        if err == None {
          ReachedAll(journal.events, start, before, joined, heard, n, s);
          n, s := n + 1, 0;
        }
      }
    }

    /** One event, to the subscribers that are there when its turn comes, in their order, until one call raises. */
    method Broadcast(e: Event, ghost start: nat, ghost before: seq<seq<Event>>, ghost n: nat, ghost first: nat)
      returns (err: Option<Failure>, ghost s: nat)
      requires Valid() && delivering && rejected == None
      requires n + |undelivered| + 1 == |journal.events| && e == journal.events[n]
      requires Reached(journal.events, start, before, joined, heard, n, 0) && RaisedLast(raised, first, None)
      modifies this, journal
      decreases 3
      ensures Valid() && delivering && rejected == None && old(journal.events) <= journal.events
      ensures old(isolated) <= isolated && old(joined) <= joined && dropped == old(dropped) && failed == old(failed)
      ensures n + |undelivered| + 1 == |journal.events|
      ensures Reached(journal.events, start, before, joined, heard, n, s)
      ensures if err == None then s == |old(isolated)| && |before| <= s && AddedAt(joined, s, n)
              else 1 <= s <= |old(isolated)|
      ensures RaisedLast(raised, first, err)
      ensures Requests(script) + |undelivered| <= old(Requests(script) + |undelivered|)
      ensures err.Some? ==> old(calls) < calls && err.value == FailureOf(Nth(plan, calls - 1).ending)
      ensures old(calls) <= calls
    {
      hide Admits, AllWell, Sound, Stamp, AfterAll, AnyRefused, Total, From, Nth, HeardTo, Requests,
        RaisedLast;
      var count, k := |isolated|, 0;
      err, s := None, 0;
      while k < count && err == None
        invariant Valid() && delivering && rejected == None && old(journal.events) <= journal.events
        invariant old(isolated) <= isolated && old(joined) <= joined && dropped == old(dropped) && failed == old(failed)
        invariant 0 <= k <= count && s == k && (err != None ==> 1 <= s)
        invariant n + |undelivered| + 1 == |journal.events| && e == journal.events[n]
        invariant Reached(journal.events, start, before, joined, heard, n, s) && AddedAt(joined, count, n)
        invariant RaisedLast(raised, first, err)
        invariant Requests(script) + |undelivered| <= old(Requests(script) + |undelivered|)
        invariant err.Some? ==> old(calls) < calls && err.value == FailureOf(Nth(plan, calls - 1).ending)
        invariant old(calls) <= calls
        decreases count - k
      {
        ghost var log, was, had := journal.events, heard, joined;
        ghost var told := raised;
        err := Call(k, e);
        RaisedNext(told, first, err);
        ReachedGrows(log, journal.events, start, before, had, was, n, s);
        ReachedNext(journal.events, start, before, had, was, n, s);
        ReachedAdds(journal.events, start, before, had, was[s := was[s] + [e]], n, s + 1, |isolated| - |was|);
        k, s := k + 1, s + 1;
      }
    }

    /** The subscriber itself: it hears the event, emits, adds subscribers, and ends as the script says. */
    method Subscriber(s: nat, e: Event) returns (ending: Ending)
      requires Valid() && delivering && rejected == None && s < |isolated|
      modifies this, journal
      decreases 1
      ensures Valid() && delivering && subscriberErrors == old(subscriberErrors)
      ensures dropped == old(dropped) && failed == old(failed) && calls == old(calls) + 1 && raised == old(raised)
      ensures old(journal.events) <= journal.events
      ensures undelivered == old(undelivered) + journal.events[|old(journal.events)|..]
      ensures Requests(script) + |undelivered| <= old(Requests(script) + |undelivered|)
      ensures var response := Nth(plan, old(calls));
        && journal.events == AfterAll(old(journal.events), response.requests)
        && isolated == old(isolated) + response.adds
        && heard == old(heard)[s := old(heard)[s] + [e]] + Copies([], |response.adds|)
        && joined == old(joined) + Copies(old(|journal.events| - |undelivered|), |response.adds|)
        && ending == response.ending
        && rejected == if AnyRefused(old(journal.events), response.requests) then Some(Refusal) else None
    {
      hide Admits, Sound, Stamp, AfterAll, AnyRefused, After, Total;
      ghost var log, waiting := journal.events, undelivered;
      var response := if script == [] then IDLE else script[0];
      ScriptNext(plan, calls);
      TotalUpdate(heard, s, e);
      script := if script == [] then [] else script[1..];
      heard, calls := heard[s := heard[s] + [e]], calls + 1;
      Answer(response);
      Add(response.adds);
      ending := response.ending;
    }

    /** The events a subscriber tries to emit, one by one. */
    method Answer(response: Response)
      requires Valid() && delivering && rejected == None
      modifies this, journal
      decreases 0, 1
      ensures Valid() && OnlyWrote()
      ensures old(journal.events) <= journal.events && |journal.events| <= |old(journal.events)| + |response.requests|
      ensures journal.events == AfterAll(old(journal.events), response.requests)
      ensures undelivered == old(undelivered) + journal.events[|old(journal.events)|..]
      ensures rejected == if AnyRefused(old(journal.events), response.requests) then Some(Refusal) else None
    {
      hide Admits, Sound, Stamp, AfterAll, AnyRefused, After, Total, From;
      ghost var log := journal.events;
      AfterNone(log);
      for i := 0 to |response.requests|
        invariant Valid() && delivering && OnlyWrote()
        invariant log <= journal.events == AfterAll(log, response.requests[..i])
        invariant undelivered == old(undelivered) + journal.events[|log|..]
        invariant |journal.events| <= |log| + i
        invariant rejected == if AnyRefused(log, response.requests[..i]) then Some(Refusal) else None
      {
        ghost var sofar := journal.events;
        AfterNext(log, response.requests, i);
        AfterGrows(sofar, response.requests[i]);
        var r := Emit(response.requests[i]);
        assert journal.events[|log|..] == sofar[|log|..] + journal.events[|sofar|..];
      }
      assert response.requests[..|response.requests|] == response.requests;
    }

    /** The subscribers a subscriber adds. */
    method Add(adds: seq<bool>)
      requires Valid()
      modifies this`isolated, this`heard, this`joined
      ensures Valid()
      ensures isolated == old(isolated) + adds
      ensures heard == old(heard) + Copies([], |adds|)
      ensures joined == old(joined) + Copies(|journal.events| - |undelivered|, |adds|)
    {
      hide Sound, Total, From;
      assert heard + Copies([], 0) == heard && joined + Copies(|journal.events| - |undelivered|, 0) == joined;
      for i := 0 to |adds|
        invariant Valid() && isolated == old(isolated) + adds[..i]
        invariant heard == old(heard) + Copies([], i)
        invariant joined == old(joined) + Copies(|journal.events| - |undelivered|, i)
      {
        Subscribe(adds[i]);
        OneMoreCopy<seq<Event>>([], i);
        OneMoreCopy(|journal.events| - |undelivered|, i);
        assert adds[..i + 1] == adds[..i] + [adds[i]];
      }
      assert adds[..|adds|] == adds;
    }

    /** `_call`: what it raises is let through, counted if isolated, or the refusal the subscriber swallowed. */
    method Call(s: nat, e: Event) returns (err: Option<Failure>)
      requires Valid() && delivering && rejected == None && s < |isolated|
      modifies this, journal
      decreases 2
      ensures Valid() && delivering && rejected == None
      ensures dropped == old(dropped) && failed == old(failed) && calls == old(calls) + 1
      ensures raised == old(raised) + [err]
      ensures old(journal.events) <= journal.events
      ensures undelivered == old(undelivered) + journal.events[|old(journal.events)|..]
      ensures Requests(script) + |undelivered| <= old(Requests(script) + |undelivered|)
      ensures err.Some? ==> err.value == FailureOf(Nth(plan, old(calls)).ending)
      ensures var response := Nth(plan, old(calls));
        var refused := AnyRefused(old(journal.events), response.requests);
        && journal.events == AfterAll(old(journal.events), response.requests)
        && isolated == old(isolated) + response.adds
        && heard == old(heard)[s := old(heard)[s] + [e]] + Copies([], |response.adds|)
        && joined == old(joined) + Copies(old(|journal.events| - |undelivered|), |response.adds|)
        && (err.Some? <==>
              || refused
              || (response.ending.Raises? && (!old(isolated)[s] || response.ending.failure == Unavailable)))
        && (err.Some? ==> err.value == if response.ending.Raises? then response.ending.failure else Refusal)
        && subscriberErrors == old(subscriberErrors) + if response.ending.Raises? && err == None then 1 else 0
    {
      hide Sound, AfterAll, AnyRefused, Requests, Total, From, Nth;
      var mine := isolated[s];
      var ending := Subscriber(s, e);
      if ending.Raises? {
        var fatal := ending.failure == Unavailable || rejected != None;
        if !mine || fatal {
          rejected, raised := None, raised + [Some(ending.failure)];
          return Some(ending.failure);
        }
        subscriberErrors := subscriberErrors + 1;
      }
      err := rejected;
      rejected, raised := None, raised + [err];
    }
  }

  /** A call uses up one response. */
  lemma ScriptNext(plan: seq<Response>, k: nat)
    ensures var script := From(plan, k);
      && (if script == [] then IDLE else script[0]) == Nth(plan, k)
      && From(plan, k + 1) == if script == [] then [] else script[1..]
  {}

  lemma OneMoreCopy<T>(x: T, n: nat)
    ensures Copies(x, n) + Copies(x, 1) == Copies(x, n + 1)
  {}

  lemma Popped(log: seq<Event>, queue: seq<Event>)
    requires 0 < |queue| <= |log| && queue == log[|log| - |queue|..]
    ensures queue[0] == log[|log| - |queue|] && queue[1..] == log[|log| - |queue[1..]|..]
  {}

  lemma SoundDense(log: seq<Event>, bb: Blackboard, ended: bool)
    requires Sound(log, bb, ended)
    ensures Dense(log)
  {}

  lemma AfterNone(log: seq<Event>)
    ensures AfterAll(log, []) == log && !AnyRefused(log, [])
  {}

  lemma AfterGrows(log: seq<Event>, q: Request)
    ensures log <= After(log, q) && |After(log, q)| <= |log| + 1
    ensures After(log, q) == if Admits(log, q) then log + [Stamp(log, q)] else log
  {}

  /** What everyone heard once a delivery is over. */
  lemma EveryoneHeard(
      log: seq<Event>, start: nat, before: seq<seq<Event>>, heard: seq<seq<Event>>, joined: seq<nat>,
      dropped: seq<Event>, failed: bool, n: nat, s: nat, ok: bool)
    requires start <= |log| && Dense(log) && Reached(log, start, before, joined, heard, n, s)
    requires AllWell(log[..start], before, joined[..|before|], dropped, failed)
    requires if ok then n == |log| else n < |log| && 1 <= s
    ensures ok ==> AllWell(log, heard, joined, dropped, failed)
    ensures !ok ==> AllWell(log, heard, joined, dropped + log[n + 1..], true)
  {
    hide HeardWell;
    forall x | 0 <= x < |heard|
      ensures if ok then HeardWell(log, heard[x], joined[x], dropped, failed)
        else HeardWell(log, heard[x], joined[x], dropped + log[n + 1..], true)
    {
      var m := if x < s then n + 1 else n;
      assert HeardTo(log, start, before, joined[x], heard[x], x, m);
      if x < |before| {
        assert joined[..|before|][x] == joined[x];
        if ok {
          HeardAll(log, start, before[x], joined[x], dropped, failed);
          assert log[start..n] == log[start..];
        } else {
          HeardPart(log, start, before[x], joined[x], dropped, failed, n, m);
        }
      } else {
        NewcomerHeard(log, heard[x], joined[x], dropped, failed, n, m, ok);
      }
    }
  }

  /** Who was added during a delivery heard what came after. */
  lemma NewcomerHeard(
      log: seq<Event>, heard: seq<Event>, joined: nat, dropped: seq<Event>, failed: bool, n: nat, m: nat, ok: bool)
    requires Dense(log) && heard == Part(log, joined, m) && joined <= |log| && m <= n + 1
    requires forall d | d in dropped :: d.seqNo < joined
    requires if ok then m == n == |log| else n < |log|
    ensures ok ==> HeardWell(log, heard, joined, dropped, failed)
    ensures !ok ==> HeardWell(log, heard, joined, dropped + log[n + 1..], true)
  {
    hide HeardWell;
    NoneHeard(log[..joined], dropped, failed);
    assert |log[..joined]| == joined;
    if ok {
      HeardAll(log, joined, [], joined, dropped, failed);
      assert [] + log[joined..] == log[joined..] == log[joined..m];
    } else if joined <= m {
      HeardPart(log, joined, [], joined, dropped, failed, n, m);
      assert [] + log[joined..m] == log[joined..m];
    } else {
      NothingHeard(log, joined, dropped + log[n + 1..]);
    }
  }

  lemma NothingHeard(log: seq<Event>, joined: nat, dropped: seq<Event>)
    requires joined <= |log|
    ensures HeardWell(log, [], joined, dropped, true)
  {}

  lemma StartReached(log: seq<Event>, start: nat, joined: seq<nat>, heard: seq<seq<Event>>)
    requires start <= |log| && |joined| == |heard|
    ensures Reached(log, start, heard, joined, heard, start, 0)
  {}

  lemma EndsAppend(log: seq<Event>, e: Event)
    requires EndsLast(log) && !Ended(log)
    ensures EndsLast(log + [e]) && Ended(log + [e]) == e.body.SessionEnded?
  {}

  lemma NoneHeard(log: seq<Event>, dropped: seq<Event>, failed: bool)
    ensures HeardWell(log, [], |log|, dropped, failed)
  {}

  lemma EmptyWritten()
    ensures Sound([], BLANK, false) && AllWell([], [], [], [], false)
  {}

  lemma NotJoined(log: seq<Event>, e: Event)
    ensures Joins(log, e) ==> EnvelopeOk(e) && e.epoch == Board(log).epoch && Apply(Board(log), e).Some?
  {
    hide State, Apply, EnvelopeOk, CausesMet, GatherAll;
  }
}
