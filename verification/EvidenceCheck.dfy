/**
 The replay checker reads a log it did not write. It finds nothing wrong with its order, clock,
 causes, fold and epochs exactly when a single writer could have written it.
 */
module EvidenceCheck {
  import opened Contract
  import opened Fold
  import opened Causes
  import opened Capabilities
  import opened Runs
  import B = Bus

  /** What the check reads of the bundle's manifest, and a line of its log. */
  datatype Manifest = Manifest(runId: string, heading: Heading)

  datatype Line = Line(runId: string, event: Event)

  datatype Key = CfgHash | Split | ContractVersion

  datatype Finding =
    | NoOpening | NotTheManifests(key: Key) | NoSingleEnd | ForeignRuns(runs: set<string>)
    | SeqNotDense | ClockBack | BadCauses | WrongEpoch(at: nat) | FoldRejects(at: nat)

  predicate NotBack(log: seq<Event>, i: nat)
    requires i < |log|
  {
    i > 0 ==> log[i - 1].t <= log[i].t
  }

  ghost predicate Clocked(log: seq<Event>) {
    forall i | 0 <= i < |log| :: NotBack(log, i)
  }

  /** The last event is the only one that ends the session. */
  ghost predicate EndsOnce(log: seq<Event>) {
    B.Ended(log) && B.EndsLast(log)
  }

  /** Event `i` carries the epoch of the fold before it, and joins. */
  ghost predicate Replays(log: seq<Event>, i: nat)
    requires i < |log|
  {
    log[i].epoch == State(log, i).epoch && Apply(State(log, i), log[i]).Some?
  }

  /** A finding of the replay. */
  predicate OfReplay(f: Finding) {
    f.WrongEpoch? || f.FoldRejects?
  }

  /** What the replay reports: the first event that does not replay. */
  ghost predicate FirstBad(log: seq<Event>, f: Finding) {
    match f
    case WrongEpoch(at) =>
      at < |log| && log[at].epoch != State(log, at).epoch && forall i | 0 <= i < at :: Replays(log, i)
    case FoldRejects(at) =>
      && at < |log| && log[at].epoch == State(log, at).epoch && Apply(State(log, at), log[at]).None?
      && forall i | 0 <= i < at :: Replays(log, i)
    case _ => false
  }

  /** `_fold_failures`: replay, and stop at the first event with another epoch or that is rejected. */
  method FoldFailures(log: seq<Event>) returns (found: seq<Finding>)
    ensures found == [] <==> forall i | 0 <= i < |log| :: Replays(log, i)
    ensures found != [] ==> |found| == 1 && OfReplay(found[0]) && FirstBad(log, found[0])
  {
    hide Apply, State;
    var bb := BLANK;
    NoCaps(log);
    for i := 0 to |log|
      invariant bb == State(log, i)
      invariant forall k | 0 <= k < i :: Replays(log, k)
    {
      var e := log[i];
      if e.epoch != bb.epoch {
        assert !Replays(log, i);
        return [WrongEpoch(i)];
      }
      var next := Apply(bb, e);
      if next.None? {
        assert !Replays(log, i);
        return [FoldRejects(i)];
      }
      StateNext(log, i);
      bb := next.value;
    }
    found := [];
  }

  lemma StateNext(log: seq<Event>, i: nat)
    requires i < |log| && Apply(State(log, i), log[i]).Some?
    ensures State(log, i + 1) == Apply(State(log, i), log[i]).value
  {
    hide Apply;
  }

  function EventsOf(lines: seq<Line>): (r: seq<Event>)
    ensures |r| == |lines| && forall i | 0 <= i < |lines| :: r[i] == lines[i].event
  {
    seq(|lines|, i requires 0 <= i < |lines| => lines[i].event)
  }

  /** The runs the lines name, other than the manifest's. */
  function Foreign(lines: seq<Line>, runId: string): set<string>
  {
    (set i | 0 <= i < |lines| :: lines[i].runId) - {runId}
  }

  predicate Opens(log: seq<Event>) {
    log != [] && log[0].body.SessionStarted?
  }

  function Named(h: Heading, key: Key): string
  {
    match key
    case CfgHash => h.cfgHash
    case Split => h.split
    case ContractVersion => h.contractVersion
  }

  /** The log of one run, opened as its manifest says and ended once. */
  ghost predicate Framed(m: Manifest, lines: seq<Line>) {
    var log := EventsOf(lines);
    && log != [] && log[0].body.SessionStarted? && log[0].body.heading == m.heading && EndsOnce(log)
    && forall x | x in lines :: x.runId == m.runId
  }

  /** Dense and monotone, with the causes and decisions it needs, and accepted by the fold at its epochs. */
  ghost predicate Consistent(log: seq<Event>) {
    Dense(log) && Clocked(log) && CausesOk(log) && forall i | 0 <= i < |log| :: Replays(log, i)
  }

  predicate OfFrame(f: Finding) {
    f.NoOpening? || f.NotTheManifests? || f.NoSingleEnd? || f.ForeignRuns?
  }

  /** What there is to find about the opening, the end and the runs. */
  ghost predicate FrameFound(m: Manifest, lines: seq<Line>, found: seq<Finding>) {
    var log := EventsOf(lines);
    && (NoOpening in found <==> !Opens(log))
    && (forall key ::
          NotTheManifests(key) in found <==> Opens(log) && Named(log[0].body.heading, key) != Named(m.heading, key))
    && (NoSingleEnd in found <==> !EndsOnce(log))
    && (forall runs :: ForeignRuns(runs) in found <==> runs != {} && runs == Foreign(lines, m.runId))
  }

  /** And about the order of the events and their replay. */
  ghost predicate OrderFound(log: seq<Event>, found: seq<Finding>) {
    && (SeqNotDense in found <==> !Dense(log))
    && (ClockBack in found <==> !Clocked(log))
    && (BadCauses in found <==> !CausesOk(log))
    && (forall f | f in found && OfReplay(f) :: FirstBad(log, f))
    && ((forall f | f in found :: !OfReplay(f)) <==> forall i | 0 <= i < |log| :: Replays(log, i))
  }

  /** `_log_failures`: a finding for each rule that is broken, and none for a rule that holds. */
  method LogFailures(m: Manifest, lines: seq<Line>) returns (found: seq<Finding>)
    ensures FrameFound(m, lines, found) && OrderFound(EventsOf(lines), found)
    ensures found == [] <==> Framed(m, lines) && Consistent(EventsOf(lines))
  {
    hide Framed, Consistent, Replays, EndsOnce, Dense, Clocked, FirstBad, Foreign, Both, Named, Opens, CausesOk;
    var frame := FrameFailures(m, lines);
    var order := OrderFailures(EventsOf(lines));
    found := Both(frame, order);
  }

  method FrameFailures(m: Manifest, lines: seq<Line>) returns (found: seq<Finding>)
    ensures FrameFound(m, lines, found) && forall f | f in found :: OfFrame(f)
    ensures found == [] <==> Framed(m, lines)
  {
    hide EndsOnce, Foreign, Opening, Bounds, Both, Named;
    var log := EventsOf(lines);
    var opening := Opening(m.heading, log);
    var ends := Ends(log);
    EndsAre(log, ends);
    OneRun(lines, m.runId);
    var bounds := Bounds(|log| == 0 || ends != [|log| - 1], Foreign(lines, m.runId));
    found := Both(opening, bounds);
  }

  method OrderFailures(log: seq<Event>) returns (found: seq<Finding>)
    ensures OrderFound(log, found) && forall f | f in found :: !OfFrame(f)
    ensures found == [] <==> Consistent(log)
  {
    hide CausesOk, Replays, Dense, Clocked, State, Apply, FirstBad, Order, Both;
    var dense, clocked := InOrder(log);
    var causes := CheckCauses(log);
    var replay := FoldFailures(log);
    found := Both(Order(!dense, !clocked, !causes), replay);
    if replay != [] {
      assert replay[0] in found;
    }
  }

  /** The opening event, against what the manifest says. */
  function Opening(h: Heading, log: seq<Event>): (r: seq<Finding>)
    ensures forall f | f in r :: f == NoOpening || f.NotTheManifests?
    ensures NoOpening in r <==> !Opens(log)
    ensures forall key ::
      NotTheManifests(key) in r <==> Opens(log) && Named(log[0].body.heading, key) != Named(h, key)
    ensures r == [] <==> Opens(log) && log[0].body.heading == h
  {
    if !Opens(log) then [NoOpening]
    else
      var started := log[0].body.heading;
      Both(One(NotTheManifests(CfgHash), started.cfgHash != h.cfgHash),
           Both(One(NotTheManifests(Split), started.split != h.split),
                One(NotTheManifests(ContractVersion), started.contractVersion != h.contractVersion)))
  }

  function One(f: Finding, broken: bool): (r: seq<Finding>)
    ensures forall x :: x in r <==> broken && x == f
    ensures r == [] <==> !broken
  {
    if broken then [f] else []
  }

  function Both(a: seq<Finding>, b: seq<Finding>): (r: seq<Finding>)
    ensures forall x :: x in r <==> x in a || x in b
    ensures r == [] <==> a == [] && b == []
  {
    a + b
  }

  /** Two findings about the session's bounds. */
  function Bounds(end: bool, foreign: set<string>): (r: seq<Finding>)
    ensures NoSingleEnd in r <==> end
    ensures forall runs :: ForeignRuns(runs) in r <==> runs != {} && runs == foreign
    ensures forall f | f in r :: f == NoSingleEnd || f.ForeignRuns?
    ensures r == [] <==> !end && foreign == {}
  {
    hide One, Both;
    Both(One(NoSingleEnd, end), One(ForeignRuns(foreign), foreign != {}))
  }

  /** Three about the order of its events. */
  function Order(dense: bool, clock: bool, causes: bool): (r: seq<Finding>)
    ensures SeqNotDense in r <==> dense
    ensures ClockBack in r <==> clock
    ensures BadCauses in r <==> causes
    ensures forall f | f in r :: f == SeqNotDense || f == ClockBack || f == BadCauses
    ensures r == [] <==> !dense && !clock && !causes
  {
    hide One, Both;
    Both(One(SeqNotDense, dense), Both(One(ClockBack, clock), One(BadCauses, causes)))
  }

  lemma OneRun(lines: seq<Line>, runId: string)
    ensures Foreign(lines, runId) == {} <==> forall x | x in lines :: x.runId == runId
  {
    forall x | x in lines ensures x.runId in Foreign(lines, runId) <==> x.runId != runId {
      var i :| 0 <= i < |lines| && lines[i] == x;
      assert lines[i].runId == x.runId;
    }
  }

  method Ends(log: seq<Event>) returns (ends: seq<nat>)
    ensures forall k: nat :: k in ends <==> k < |log| && log[k].body.SessionEnded?
    ensures forall a, b | 0 <= a < b < |ends| :: ends[a] < ends[b]
  {
    ends := [];
    for i := 0 to |log|
      invariant forall k: nat :: k in ends <==> k < i && log[k].body.SessionEnded?
      invariant forall a | 0 <= a < |ends| :: ends[a] < i
      invariant forall a, b | 0 <= a < b < |ends| :: ends[a] < ends[b]
    {
      if log[i].body.SessionEnded? {
        ends := ends + [i];
      }
    }
  }

  method InOrder(log: seq<Event>) returns (dense: bool, clocked: bool)
    ensures dense <==> Dense(log)
    ensures clocked <==> Clocked(log)
  {
    hide NotBack;
    dense, clocked := true, true;
    for i := 0 to |log|
      invariant dense <==> forall k | 0 <= k < i :: log[k].seqNo == k
      invariant clocked <==> forall k | 0 <= k < i :: NotBack(log, k)
    {
      dense := dense && log[i].seqNo == i;
      clocked := clocked && NotBack(log, i);
    }
  }

  lemma EndsAre(log: seq<Event>, ends: seq<nat>)
    requires forall k: nat :: k in ends <==> k < |log| && log[k].body.SessionEnded?
    requires forall a, b | 0 <= a < b < |ends| :: ends[a] < ends[b]
    ensures EndsOnce(log) <==> |log| > 0 && ends == [|log| - 1]
  {
    if EndsOnce(log) {
      var last: nat := |log| - 1;
      assert last in ends;
      forall a | 0 <= a < |ends| ensures ends[a] == last {
        assert ends[a] in ends;
      }
      assert ends[0] == ends[|ends| - 1];
    }
  }

  /** Events that are well formed are found clean exactly when a single writer could have written them. */
  lemma CleanIsWritten(log: seq<Event>)
    requires forall i | 0 <= i < |log| :: EnvelopeOk(log[i])
    ensures Written(log) <==> Consistent(log)
  {
    hide Apply, State, EnvelopeOk, CausesOk;
    ClockedStamped(log);
    if forall i | 0 <= i < |log| :: Replays(log, i) {
      forall i | 0 <= i < |log| ensures Apply(State(log, i), log[i]).Some? && log[i].epoch == State(log, i).epoch {
        assert Replays(log, i);
      }
    }
  }

  lemma ClockedStamped(log: seq<Event>)
    ensures Clocked(log) <==> forall i | 0 < i < |log| :: log[i - 1].t <= log[i].t
  {
    if Clocked(log) {
      forall i | 0 < i < |log| ensures log[i - 1].t <= log[i].t {
        assert NotBack(log, i);
      }
    }
  }

  /** The lines of the bus's log. */
  function Lines(runId: string, log: seq<Event>): (r: seq<Line>)
    ensures |r| == |log| && forall i | 0 <= i < |log| :: r[i] == Line(runId, log[i])
  {
    seq(|log|, i requires 0 <= i < |log| => Line(runId, log[i]))
  }

  /**
   What the bus wrote, whatever the subscribers did, is found clean exactly when the session began as
   the manifest says, is of its run, and ended; nothing else is ever found.
   */
  method CheckSession(bus: B.Bus, m: Manifest) returns (found: seq<Finding>)
    requires bus.Idle()
    ensures var log := bus.journal.events;
      && (found == [] <==>
            bus.ended && Opens(log) && log[0].body.heading == m.heading && bus.journal.runId == m.runId)
      && (NoSingleEnd in found <==> !bus.ended)
    ensures forall f | f in found :: OfFrame(f)
  {
    hide Consistent, Framed, FrameFound, OrderFound, EndsOnce, Opens, OfFrame, Lines, B.AllWell, B.Sound,
      B.Total, B.From;
    var log := bus.journal.events;
    var lines := Lines(bus.journal.runId, log);
    found := LogFailures(m, lines);
    SoundClean(log, bus.bb, bus.ended);
    SessionFramed(m, bus.journal.runId, log, found);
    OnlyFrame(log, found);
  }

  lemma SessionFramed(m: Manifest, runId: string, log: seq<Event>, found: seq<Finding>)
    requires FrameFound(m, Lines(runId, log), found)
    ensures EventsOf(Lines(runId, log)) == log
    ensures NoSingleEnd in found <==> !EndsOnce(log)
    ensures Framed(m, Lines(runId, log)) <==>
      Opens(log) && log[0].body.heading == m.heading && EndsOnce(log) && runId == m.runId
  {
    hide EndsOnce, Foreign, Named;
    var lines := Lines(runId, log);
    assert EventsOf(lines) == log;
    if log != [] {
      assert lines[0].runId == runId;
    }
  }

  lemma OnlyFrame(log: seq<Event>, found: seq<Finding>)
    requires OrderFound(log, found) && Consistent(log)
    ensures forall f | f in found :: OfFrame(f)
  {
    hide Dense, Clocked, CausesOk, Replays, FirstBad;
  }

  lemma SoundClean(log: seq<Event>, bb: Blackboard, ended: bool)
    requires B.Sound(log, bb, ended)
    ensures Consistent(log)
    ensures ended <==> EndsOnce(log)
  {
    hide Apply, State, EnvelopeOk, CausesOk;
    ClockedStamped(log);
  }
}
