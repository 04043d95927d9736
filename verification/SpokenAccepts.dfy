/**
 One log under both checkers. The writer's rules speak of authority, the provenance checker of what was
 said: together, an accept that a counterpart heard has its own capability, minted before, released once.
 */
module SpokenAccepts {
  import opened Wrappers
  import opened Authority
  import opened Capabilities
  import opened Causes
  import opened Contract
  import opened Fold
  import opened Guard
  import opened Runs
  import C = Chain

  // ---------------------------------------------------------------- two readings of an event

  /** What the provenance checker reads of an event, and what the fold does. */
  predicate Tells(payload: C.Payload, b: Body) {
    match payload
    case SpeakVerbatim(_, kind, _, capId) =>
      b.Verbatim? && b.capId == capId && (b.kind == AcceptLine <==> kind == "accept")
    case SpeakReleased(capId) => b == Released(capId)
    case _ => !b.Verbatim? && !b.Released?
  }

  ghost predicate SameEvent(e: Event, x: C.Event) {
    x.id == e.seqNo && x.causes == e.causes && Tells(x.payload, e.body)
  }

  ghost predicate SameLog(log: seq<Event>, events: seq<C.Event>) {
    |log| == |events| && forall i | 0 <= i < |log| :: SameEvent(log[i], events[i])
  }

  // ---------------------------------------------------------------- a spoken accept

  /** Delivery `i` spoke line `v`, an accept. */
  ghost predicate SpeaksAccept(b: C.Bundle, events: seq<C.Event>, i: nat, v: nat) {
    && i < |events| && v < |events| && events[i].payload.UttDelivered? && C.IsAccept(events[v])
    && C.LinkOf(b, C.ById(events), events[i]) == C.Line(events[v].payload.text, v)
  }

  /** The delivery cites `release`, which cites the line and releases the line's capability `k`. */
  ghost predicate Carried(log: seq<Event>, i: nat, v: nat, release: nat, k: string) {
    && v < release < i < |log| && release in log[i].causes && v in log[release].causes
    && log[v].body.Verbatim? && log[v].body.kind == AcceptLine && log[v].body.capId == Some(k)
    && log[release].body == Released(Some(k))
  }

  /** The release speaks for the first line it cites. */
  ghost predicate SpeaksFor(events: seq<C.Event>, release: nat, v: nat)
    requires release < |events|
  {
    var lines := C.Cited(C.ById(events), events[release].causes, C.OfVerbatim);
    lines != [] && lines[0].id == v
  }

  lemma {:induction false} CitedBy(known: map<nat, C.Event>, causes: seq<nat>, kind: C.Kind, e: C.Event)
    requires C.Keyed(known) && e in C.Cited(known, causes, kind)
    ensures e.id in causes && e.id in known && known[e.id] == e
  {
    if causes[0] !in known || !C.Is(known[causes[0]].payload, kind) || e != known[causes[0]] {
      CitedBy(known, causes[1..], kind, e);
    }
  }

  lemma {:induction false} FirstLineOf(known: map<nat, C.Event>, releases: seq<C.Event>) returns (x: C.Event)
    requires C.FirstLine(known, releases).Some?
    ensures x in releases
    ensures var lines := C.Cited(known, x.causes, C.OfVerbatim);
      lines != [] && C.FirstLine(known, releases) == Some(lines[0])
  {
    hide C.Cited;
    if C.Cited(known, releases[0].causes, C.OfVerbatim) != [] {
      x := releases[0];
    } else {
      x := FirstLineOf(known, releases[1..]);
    }
  }

  lemma {:induction false} KnownAt(events: seq<C.Event>, n: nat)
    requires n < |events| && forall i | 0 <= i < |events| :: events[i].id == i
    ensures n in C.ById(events) && C.ById(events)[n] == events[n]
  {
    var m := |events| - 1;
    if n < m {
      KnownAt(events[..m], n);
    }
  }

  lemma KnownIn(events: seq<C.Event>, e: C.Event)
    requires e in C.ById(events).Values && forall i | 0 <= i < |events| :: events[i].id == i
    ensures e.id < |events| && events[e.id] == e
  {
    var t := C.TurnAt(events, e);
  }

  lemma SameIds(log: seq<Event>, events: seq<C.Event>)
    requires Dense(log) && SameLog(log, events)
    ensures forall i | 0 <= i < |events| :: events[i].id == i
  {
    forall i | 0 <= i < |events| ensures events[i].id == i {
      assert SameEvent(log[i], events[i]);
    }
  }

  lemma LineLink(b: C.Bundle, known: map<nat, C.Event>, e: C.Event)
    requires e.payload.UttDelivered? && C.LinkOf(b, known, e).Line?
    ensures var line := C.FirstLine(known, C.Cited(known, e.causes, C.OfReleased));
      line.Some? && C.LinkOf(b, known, e) == C.Line(line.value.payload.text, line.value.id)
  {
    hide C.Cited, C.FirstLine, C.CallOf;
  }

  /** The release behind a delivered verbatim line. */
  lemma LineRelease(b: C.Bundle, events: seq<C.Event>, i: nat, v: nat) returns (release: nat)
    requires SpeaksAccept(b, events, i, v) && forall n | 0 <= n < |events| :: events[n].id == n
    ensures release < |events| && events[release].payload.SpeakReleased? && SpeaksFor(events, release, v)
    ensures release in events[i].causes && v in events[release].causes
    ensures events[v] in C.Cited(C.ById(events), events[release].causes, C.OfVerbatim)
  {
    hide C.ById, C.Cited, C.FirstLine, C.LinkOf;
    var known := C.ById(events);
    C.KnownKeyed(events);
    LineLink(b, known, events[i]);
    var releases := C.Cited(known, events[i].causes, C.OfReleased);
    var x := FirstLineOf(known, releases);
    KnownIn(events, x);
    CitedBy(known, events[i].causes, C.OfReleased, x);
    release := x.id;
    var lines := C.Cited(known, x.causes, C.OfVerbatim);
    CitedBy(known, x.causes, C.OfVerbatim, lines[0]);
    KnownAt(events, v);
  }

  lemma ReleaseBacked(b: C.Bundle, events: seq<C.Event>, release: nat)
    requires C.Backed(b, events) && release < |events| && events[release].payload.SpeakReleased?
    ensures C.ReleaseFault(C.ById(events), events[release]).None?
  {
    hide C.ById, C.ReleaseFault, C.Alone;
    assert C.Alone(b, C.ById(events), events[release]);
    C.AloneIs(b, C.ById(events), events[release]);
  }

  lemma CausesBefore(log: seq<Event>, i: nat, n: nat)
    requires Written(log) && i < |log| && n in log[i].causes
    ensures n < i
  {
    hide State, Apply, CausesOk;
    assert Apply(State(log, i), log[i]).Some?;
    assert EnvelopeOk(log[i]);
  }

  lemma LiveLine(log: seq<Event>, v: nat, k: string)
    requires Folds(log) && v < |log| && log[v].body.Verbatim? && log[v].body.kind == AcceptLine
    requires log[v].body.capId == Some(k)
    ensures LiveCap(State(log, v), k)
  {
    hide State;
    assert Apply(State(log, v), log[v]).Some?;
  }

  /** What the two readings of a released accept line say together. */
  lemma SameCapability(log: seq<Event>, events: seq<C.Event>, v: nat, release: nat)
    requires SameLog(log, events) && v < |log| && release < |log|
    requires C.IsAccept(events[v]) && events[release].payload.SpeakReleased?
    requires events[v].payload.capId.Some? && events[v].payload.capId == events[release].payload.capId
    ensures log[v].body.Verbatim? && log[v].body.kind == AcceptLine && log[v].body.capId == events[v].payload.capId
    ensures log[release].body == Released(events[v].payload.capId)
    ensures log[release].causes == events[release].causes
  {
    assert SameEvent(log[v], events[v]) && SameEvent(log[release], events[release]);
  }

  lemma SaidAsGenerated(b: C.Bundle, events: seq<C.Event>, i: nat, v: nat)
    requires C.Backed(b, events) && SpeaksAccept(b, events, i, v)
    ensures events[i].payload.said == events[v].payload.text
  {
    hide C.ById, C.LinkOf, C.WithinTurns, C.Alone;
    assert C.Alone(b, C.ById(events), events[i]);
    C.AloneIs(b, C.ById(events), events[i]);
  }

  /** A spoken accept is a line that was queued under a live capability and released by naming it. */
  lemma AcceptCarried(b: C.Bundle, log: seq<Event>, events: seq<C.Event>, i: nat, v: nat)
    returns (release: nat, k: string)
    requires Written(log) && SameLog(log, events) && C.Backed(b, events) && SpeaksAccept(b, events, i, v)
    ensures Carried(log, i, v, release, k) && SpeaksFor(events, release, v)
    ensures LiveCap(State(log, v), k) && LiveCap(State(log, release), k)
    ensures events[i].payload.said == events[v].payload.text
  {
    hide State, C.ById, C.Cited, C.ReleaseFault, C.LinkOf, C.Backed, Folds, Apply, LiveCap, SpeaksFor, CausesOk,
      Stamped, Releasable, NextCaps;
    SameIds(log, events);
    release := LineRelease(b, events, i, v);
    ReleaseBacked(b, events, release);
    C.ReleaseCarries(C.ById(events), events[release]);
    SaidAsGenerated(b, events, i, v);
    k := events[v].payload.capId.value;
    SameCapability(log, events, v, release);
    assert SameEvent(log[i], events[i]);
    CausesBefore(log, i, release);
    CausesBefore(log, release, v);
    LiveLine(log, v, k);
    CapsAt(log, release);
  }

  // ---------------------------------------------------------------- what its capability was authorized for

  /** The latest authorization of capability `k` before event `n`: the capability as it was minted. */
  ghost function Authorized(log: seq<Event>, n: nat, k: string): (cap: Capability)
    requires n <= |log| && LastAuth(log, n, k) >= 0
    ensures cap.id == k
  {
    log[LastAuth(log, n, k)].body.cap
  }

  /** A release finds the capability its latest authorization minted, and is an accept's exactly if that was. */
  lemma ReleaseIntent(log: seq<Event>, n: nat, k: string)
    requires n < |log| && Folds(log) && log[n].body == Released(Some(k))
    ensures LastAuth(log, n, k) >= 0 && LiveCap(State(log, n), k)
    ensures State(log, n).capabilities[k] == Authorized(log, n, k)
    ensures log[LastAuth(log, n, k)].body.intent == Authorized(log, n, k).intent
    ensures AcceptRelease(log, n) <==> Authorized(log, n, k).intent == AcceptOffer
  {
    hide State, Folds, LastAuth, Untouched, NoBump, Releasable, NextCaps, ReleasedTerms, AcceptInFlight;
    ReleaseFollowsMint(log, n, k);
    CapsAt(log, LastAuth(log, n, k));
  }

  /** Two spoken accepts have different lines, releases and capabilities; accepts of offers, different terms. */
  lemma SpokenApart(
      b: C.Bundle, log: seq<Event>, events: seq<C.Event>, i: nat, j: nat, v: nat, w: nat, m: nat, n: nat, k: string,
      l: string)
    requires Written(log) && SameLog(log, events) && C.Backed(b, events) && i != j
    requires SpeaksAccept(b, events, i, v) && Carried(log, i, v, m, k) && SpeaksFor(events, m, v)
    requires SpeaksAccept(b, events, j, w) && Carried(log, j, w, n, l) && SpeaksFor(events, n, w)
    ensures v != w && m != n && k != l
    ensures LastAuth(log, m, k) >= 0 && LastAuth(log, n, l) >= 0
    ensures Authorized(log, m, k).intent == AcceptOffer && Authorized(log, n, l).intent == AcceptOffer ==>
      Authorized(log, m, k).termsHash != Authorized(log, n, l).termsHash
  {
    hide State, Folds, LastAuth, C.ById, C.Cited, C.LinkOf, AcceptRelease;
    SourcesApart(b, events, i, j);
    if m < n {
      OneUse(log, m, n, k);
    } else {
      OneUse(log, n, m, l);
    }
    TermsApart(log, m, n, k, l);
  }

  lemma TermsApart(log: seq<Event>, m: nat, n: nat, k: string, l: string)
    requires m < |log| && n < |log| && m != n && Folds(log)
    requires log[m].body == Released(Some(k)) && log[n].body == Released(Some(l))
    ensures LastAuth(log, m, k) >= 0 && LastAuth(log, n, l) >= 0
    ensures Authorized(log, m, k).intent == AcceptOffer && Authorized(log, n, l).intent == AcceptOffer ==>
      Authorized(log, m, k).termsHash != Authorized(log, n, l).termsHash
  {
    hide State, Folds, LastAuth;
    ReleaseIntent(log, m, k);
    ReleaseIntent(log, n, l);
    if AcceptRelease(log, m) && AcceptRelease(log, n) {
      ReleasesApart(log, if m < n then m else n, if m < n then n else m);
    }
  }

  lemma SourcesApart(b: C.Bundle, events: seq<C.Event>, i: nat, j: nat)
    requires C.Backed(b, events) && i < |events| && j < |events| && i != j
    requires events[i].payload.UttDelivered? && events[j].payload.UttDelivered?
    ensures C.SourceOf(C.LinkOf(b, C.ById(events), events[i])) != C.SourceOf(C.LinkOf(b, C.ById(events), events[j]))
  {
    hide C.ById, C.LinkOf, C.SourceOf, C.WithinTurns, C.Alone;
  }

  // ---------------------------------------------------------------- what stands behind it

  /** Everything that stands behind the release of an accept. */
  ghost predicate Backs(r: Rules, log: seq<Event>, release: nat)
    requires release < |log|
  {
    AcceptRelease(log, release) && exists offer, terms, g :: SoundYes(r, log, release, offer, terms, g)
  }

  /**
   A spoken accept has behind it all that stands behind a released yes exactly if its capability was
   authorized to accept an offer: neither the fold nor the provenance checker asks what it is for.
   */
  lemma SpokenYes(r: Rules, c: Case, b: C.Bundle, log: seq<Event>, events: seq<C.Event>, i: nat, v: nat)
    returns (release: nat, k: string)
    requires Run(r, c, log) && SameLog(log, events) && C.Backed(b, events) && SpeaksAccept(b, events, i, v)
    ensures Carried(log, i, v, release, k) && events[i].payload.said == events[v].payload.text
    ensures LastAuth(log, release, k) >= 0
    ensures Authorized(log, release, k).intent == AcceptOffer <==> Backs(r, log, release)
  {
    hide State, Guarded, Written, SoundYes, SameLog, SpeaksAccept, C.Backed, AcceptRelease, LastAuth;
    release, k := AcceptCarried(b, log, events, i, v);
    assert Folds(log) by { RunFolds(r, c, log); }
    ReleaseIntent(log, release, k);
    if AcceptRelease(log, release) {
      var offer, terms, g := EndToEnd(r, c, log, release);
    }
  }

  /** Capabilities are authorized for nothing but accepting offers. */
  ghost predicate OnlyAccepts(log: seq<Event>) {
    forall j | 0 <= j < |log| && log[j].body.ActionAuthorized? :: log[j].body.intent == AcceptOffer
  }

  /** In such a run it stands behind every spoken accept. */
  lemma EverySpokenYes(r: Rules, c: Case, b: C.Bundle, log: seq<Event>, events: seq<C.Event>, i: nat, v: nat)
    returns (release: nat, k: string)
    requires Run(r, c, log) && SameLog(log, events) && C.Backed(b, events) && SpeaksAccept(b, events, i, v)
    requires OnlyAccepts(log)
    ensures Carried(log, i, v, release, k) && events[i].payload.said == events[v].payload.text
    ensures Backs(r, log, release)
  {
    hide State, Guarded, Written, Backs, SameLog, SpeaksAccept, C.Backed, AcceptRelease, LastAuth;
    release, k := SpokenYes(r, c, b, log, events, i, v);
    assert Folds(log) by { RunFolds(r, c, log); }
    ReleaseIntent(log, release, k);
    assert log[LastAuth(log, release, k)].body.ActionAuthorized?;
  }
}
