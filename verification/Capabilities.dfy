/**
 Capabilities over whole logs that the fold takes, whoever wrote them: each is released at most
 once, in the epoch it was minted in, and the released accepts are exactly the release events.
 */
module Capabilities {
  import opened Wrappers
  import opened Contract
  import opened Fold

  // ---------------------------------------------------------------- one step

  lemma Step(log: seq<Event>, i: nat)
    requires i < |log| && Folds(log)
    ensures Apply(State(log, i), log[i]) == Some(State(log, i + 1))
  {
    hide Apply;
  }

  /** The capabilities after an event. */
  function NextCaps(caps: map<string, Capability>, b: Body): map<string, Capability>
  {
    match b
    case ActionAuthorized(_, cap) => caps[cap.id := cap]
    case Released(Some(k)) => if k in caps then caps[k := caps[k].(consumed := true)] else caps
    case Revoked(Some(k)) => caps - {k}
    case _ => caps
  }

  predicate Authorizes(b: Body, k: string) {
    b.ActionAuthorized? && b.cap.id == k
  }

  lemma CapsStep(bb: Blackboard, e: Event)
    requires Apply(bb, e).Some?
    ensures Apply(bb, e).value.capabilities == NextCaps(bb.capabilities, e.body)
    ensures e.body.ActionAuthorized? ==>
      var cap := e.body.cap;
      && cap.intent == e.body.intent && cap.epoch == bb.epoch && !cap.consumed
      && cap.id !in bb.capabilities && cap.expires > e.t
      && (cap.intent == AcceptOffer ==>
            !ReleasedTerms(bb.capabilities, cap.termsHash) && !AcceptInFlight(bb.capabilities))
    ensures e.body.Released? && e.body.capId.Some? ==> Releasable(bb, e.body.capId.value, e.t)
    ensures e.body.Revoked? && e.body.capId.Some? ==> LiveCap(bb, e.body.capId.value)
  {
    hide FindOffer, PutOffer, FindAuthorization, CardCurrent, Edge, Unconfirmed, IsOfferRef,
      PutApproval, OfferWithTerms, Without, ReleasedTerms, AcceptInFlight, Releasable;
    if e.body.Released? && e.body.capId.Some? {
      ReleasableLive(bb, e.body.capId.value, e.t);
    }
  }

  lemma ReleasableLive(bb: Blackboard, k: string, t: nat)
    requires Releasable(bb, k, t)
    ensures LiveCap(bb, k) && bb.capabilities[k].epoch == bb.epoch && bb.fences == []
    ensures bb.capabilities[k].expires > t
    ensures bb.capabilities[k].intent == AcceptOffer ==>
      !ReleasedTerms(bb.capabilities, bb.capabilities[k].termsHash)
  {
    hide FindAuthorization, AuthorizedOffer, ReleasedTerms;
  }

  /** Capabilities before and after event `i`. */
  lemma CapsAt(log: seq<Event>, i: nat)
    requires i < |log| && Folds(log)
    ensures State(log, i + 1).capabilities == NextCaps(State(log, i).capabilities, log[i].body)
    ensures log[i].body.ActionAuthorized? ==>
      var cap, bb := log[i].body.cap, State(log, i);
      && cap.intent == log[i].body.intent && cap.epoch == bb.epoch && !cap.consumed
      && cap.id !in bb.capabilities && cap.expires > log[i].t
      && (cap.intent == AcceptOffer ==>
            !ReleasedTerms(bb.capabilities, cap.termsHash) && !AcceptInFlight(bb.capabilities))
    ensures log[i].body.Released? && log[i].body.capId.Some? ==>
      Releasable(State(log, i), log[i].body.capId.value, log[i].t) && LiveCap(State(log, i), log[i].body.capId.value)
    ensures log[i].body.Revoked? && log[i].body.capId.Some? ==> LiveCap(State(log, i), log[i].body.capId.value)
  {
    hide Apply, State, NextCaps, Releasable;
    Step(log, i);
    CapsStep(State(log, i), log[i]);
    if log[i].body.Released? && log[i].body.capId.Some? {
      ReleasableLive(State(log, i), log[i].body.capId.value, log[i].t);
    }
  }

  // ---------------------------------------------------------------- epochs

  lemma {:induction false} EpochMonotone(log: seq<Event>, i: nat, j: nat)
    requires i <= j <= |log| && Folds(log)
    ensures State(log, i).epoch <= State(log, j).epoch
    ensures State(log, i).epoch == State(log, j).epoch ==>
      forall m | i <= m < j :: !log[m].body.EpochBumped?
    decreases j - i
  {
    hide Apply, State, Folds;
    if i < j {
      EpochMonotone(log, i, j - 1);
      EpochStep(log, j - 1);
    }
  }

  /** An epoch event moves the epoch forward, and nothing else moves it. */
  lemma EpochStep(log: seq<Event>, i: nat)
    requires i < |log| && Folds(log)
    ensures State(log, i).epoch <= State(log, i + 1).epoch
    ensures log[i].body.EpochBumped? <==> State(log, i).epoch < State(log, i + 1).epoch
  {
    hide Apply, State;
    Step(log, i);
    Frame(State(log, i), log[i]);
    if log[i].body.EpochBumped? {
      BumpMoves(State(log, i), log[i]);
    }
  }

  lemma BumpMoves(bb: Blackboard, e: Event)
    requires Apply(bb, e).Some? && e.body.EpochBumped?
    ensures Apply(bb, e).value.epoch > bb.epoch
  {}

  // ---------------------------------------------------------------- where a capability comes from

  /** The last event before `i` that authorized `k`, or -1. */
  function LastAuth(log: seq<Event>, i: nat, k: string): (j: int)
    requires i <= |log|
    ensures -1 <= j < i
    ensures j >= 0 ==> Authorizes(log[j].body, k)
    ensures forall m | j < m < i :: !Authorizes(log[m].body, k)
  {
    if i == 0 then -1
    else if Authorizes(log[i - 1].body, k) then i - 1
    else LastAuth(log, i - 1, k)
  }

  /** The capability `k` is the one its last authorization minted, and no revocation came since. */
  ghost predicate Minted(log: seq<Event>, i: nat, k: string)
    requires i <= |log|
  {
    var caps, j := State(log, i).capabilities, LastAuth(log, i, k);
    k in caps ==>
      && j >= 0
      && caps[k].id == k
      && log[j].body.cap == caps[k].(consumed := false)
      && log[j].body.intent == caps[k].intent
      && State(log, j).epoch == caps[k].epoch
      && (forall m | j < m < i :: log[m].body != Revoked(Some(k)))
      && (!caps[k].consumed ==> forall m | j < m < i :: log[m].body != Released(Some(k)))
  }

  lemma {:induction false} CapMinted(log: seq<Event>, i: nat, k: string)
    requires i <= |log| && Folds(log)
    ensures Minted(log, i, k)
  {
    hide Apply, State, Folds, Releasable;
    if i == 0 {
      NoCaps(log);
    } else {
      CapMinted(log, i - 1, k);
      CapsAt(log, i - 1);
      MintedNext(log, i - 1, k);
    }
  }

  lemma MintedNext(log: seq<Event>, n: nat, k: string)
    requires n < |log| && Minted(log, n, k)
    requires State(log, n + 1).capabilities == NextCaps(State(log, n).capabilities, log[n].body)
    requires log[n].body.ActionAuthorized? ==>
      var cap := log[n].body.cap;
      cap.intent == log[n].body.intent && cap.epoch == State(log, n).epoch && !cap.consumed
    requires log[n].body.Revoked? && log[n].body.capId.Some? ==> LiveCap(State(log, n), log[n].body.capId.value)
    ensures Minted(log, n + 1, k)
  {
    hide State;
  }

  lemma NoCaps(log: seq<Event>)
    ensures State(log, 0) == BLANK
  {}

  // ---------------------------------------------------------------- one use

  /** A released capability stays released. */
  lemma {:induction false} ConsumedForever(log: seq<Event>, i: nat, j: nat, k: string)
    requires i <= j <= |log| && Folds(log)
    requires k in State(log, i).capabilities && State(log, i).capabilities[k].consumed
    ensures k in State(log, j).capabilities && State(log, j).capabilities[k] == State(log, i).capabilities[k]
    decreases j - i
  {
    hide Apply, State, Folds, Releasable;
    if i < j {
      ConsumedForever(log, i, j - 1, k);
      CapsAt(log, j - 1);
    }
  }

  /** No capability is released twice. */
  lemma OneUse(log: seq<Event>, i: nat, j: nat, k: string)
    requires i < j < |log| && Folds(log) && log[i].body == Released(Some(k))
    ensures log[j].body != Released(Some(k))
  {
    hide Apply, State, Folds, Releasable;
    CapsAt(log, i);
    ConsumedForever(log, i + 1, j, k);
    CapsAt(log, j);
  }

  /** No event from `j` up to `i` revokes or releases `k`. */
  ghost predicate Untouched(log: seq<Event>, j: int, i: nat, k: string)
    requires -1 <= j && i <= |log|
  {
    forall m | j < m < i :: log[m].body != Revoked(Some(k)) && log[m].body != Released(Some(k))
  }

  ghost predicate NoBump(log: seq<Event>, j: int, i: nat)
    requires -1 <= j && i <= |log|
  {
    forall m | j < m < i :: !log[m].body.EpochBumped?
  }

  lemma LiveMinted(log: seq<Event>, i: nat, k: string)
    requires i <= |log| && Folds(log) && LiveCap(State(log, i), k)
    ensures var j := LastAuth(log, i, k);
      && j >= 0
      && log[j].body.cap == State(log, i).capabilities[k]
      && log[j].body.intent == State(log, i).capabilities[k].intent
      && State(log, j).epoch == State(log, i).capabilities[k].epoch
      && Untouched(log, j, i, k)
  {
    hide State, Folds, LastAuth;
    CapMinted(log, i, k);
  }

  lemma SameEpochNoBump(log: seq<Event>, j: nat, i: nat)
    requires j <= i <= |log| && Folds(log) && State(log, j).epoch == State(log, i).epoch
    ensures NoBump(log, j, i)
  {
    hide State, Folds;
    EpochMonotone(log, j, i);
  }

  /**
   A release follows an authorization of its capability, in the same epoch, with no epoch event,
   no revocation and no other release of it in between.
   */
  lemma ReleaseFollowsMint(log: seq<Event>, i: nat, k: string)
    requires i < |log| && Folds(log) && log[i].body == Released(Some(k))
    ensures var j := LastAuth(log, i, k);
      && j >= 0
      && LiveCap(State(log, i), k) && log[j].body.cap == State(log, i).capabilities[k]
      && State(log, j).epoch == State(log, i).epoch
      && NoBump(log, j, i) && Untouched(log, j, i, k)
  {
    hide State, Folds, LastAuth, Releasable, NextCaps, ReleasedTerms, AcceptInFlight, NoBump, Untouched, LiveCap;
    CapsAt(log, i);
    ReleasableLive(State(log, i), k, log[i].t);
    LiveMinted(log, i, k);
    SameEpochNoBump(log, LastAuth(log, i, k), i);
  }

  // ---------------------------------------------------------------- the authorization lookup

  lemma {:induction false} FindAuthorizationAdd(auths: seq<Authorization>, a: Authorization, k: string)
    ensures FindAuthorization(auths + [a], k)
         == if FindAuthorization(auths, k).Some? then FindAuthorization(auths, k)
            else if a.capId == k then Some(a) else None
  {
    if auths == [] {
      assert auths + [a] == [a] && [a][1..] == [];
    } else {
      assert (auths + [a])[1..] == auths[1..] + [a];
      FindAuthorizationAdd(auths[1..], a, k);
    }
  }

  /** An authorization event records the capability it mints. */
  lemma AuthorizationsStep(bb: Blackboard, e: Event)
    requires Apply(bb, e).Some?
    ensures e.body.ActionAuthorized? ==>
      exists a: Authorization ::
        a.capId == e.body.cap.id && Apply(bb, e).value.authorizations == bb.authorizations + [a]
    ensures !e.body.ActionAuthorized? ==> Apply(bb, e).value.authorizations == bb.authorizations
  {
    hide PutOffer, FindOffer, ReleasedTerms, AcceptInFlight, OfferWithTerms;
    Frame(bb, e);
    if e.body.ActionAuthorized? {
      var offer := OfferWithTerms(bb.offers, e.body.cap.termsHash);
      var a := Authorization(
        e.body.intent, if offer.Some? then Some(offer.value.ref) else None,
        e.body.cap.termsHash, e.body.cap.id, e.body.cap.epoch);
      assert Apply(bb, e).value.authorizations == bb.authorizations + [a];
    }
  }

  /** The lookup at release always finds an authorization. */
  lemma {:induction false} LookupSucceeds(log: seq<Event>, i: nat, k: string)
    requires i <= |log| && Folds(log) && k in State(log, i).capabilities
    ensures FindAuthorization(State(log, i).authorizations, k).Some?
  {
    hide Apply, State, Folds, Releasable, FindAuthorization;
    if i == 0 {
      NoCaps(log);
    } else {
      var bb, e := State(log, i - 1), log[i - 1];
      CapsAt(log, i - 1);
      Step(log, i - 1);
      AuthorizationsStep(bb, e);
      if k in bb.capabilities {
        LookupSucceeds(log, i - 1, k);
      }
      if e.body.ActionAuthorized? {
        var a: Authorization :| a.capId == e.body.cap.id && State(log, i).authorizations == bb.authorizations + [a];
        FindAuthorizationAdd(bb.authorizations, a, k);
      }
    }
  }

  // ---------------------------------------------------------------- accepts

  /** At most one accept is in flight. */
  ghost predicate OneInFlight(caps: map<string, Capability>) {
    forall j, k | j in caps && k in caps && caps[j].intent == AcceptOffer && caps[k].intent == AcceptOffer
      && !caps[j].consumed && !caps[k].consumed :: j == k
  }

  /** Released accepts have distinct terms. */
  ghost predicate DistinctTerms(caps: map<string, Capability>) {
    forall j, k | j in caps && k in caps && caps[j].intent == AcceptOffer && caps[k].intent == AcceptOffer
      && caps[j].consumed && caps[k].consumed && caps[j].termsHash == caps[k].termsHash :: j == k
  }

  lemma {:induction false} AcceptsApart(log: seq<Event>, i: nat)
    requires i <= |log| && Folds(log)
    ensures OneInFlight(State(log, i).capabilities) && DistinctTerms(State(log, i).capabilities)
  {
    hide Apply, State, Folds, Releasable;
    if i == 0 {
      NoCaps(log);
    } else {
      AcceptsApart(log, i - 1);
      CapsAt(log, i - 1);
      var b := log[i - 1].body;
      if b.Released? && b.capId.Some? {
        ReleasableLive(State(log, i - 1), b.capId.value, log[i - 1].t);
      }
    }
  }

  /** The event releases an accept. */
  ghost predicate AcceptRelease(log: seq<Event>, i: nat)
    requires i < |log|
  {
    var b := log[i].body;
    && b.Released? && b.capId.Some?
    && b.capId.value in State(log, i).capabilities
    && State(log, i).capabilities[b.capId.value].intent == AcceptOffer
  }

  /** The capability an accept release consumes. */
  ghost function ReleasedCap(log: seq<Event>, i: nat): Capability
    requires i < |log| && AcceptRelease(log, i)
  {
    State(log, i).capabilities[log[i].body.capId.value]
  }

  /** Two accept releases are of different terms. */
  lemma ReleasesApart(log: seq<Event>, i: nat, j: nat)
    requires i < j < |log| && Folds(log) && AcceptRelease(log, i) && AcceptRelease(log, j)
    ensures ReleasedCap(log, i).termsHash != ReleasedCap(log, j).termsHash
  {
    hide Apply, State, Folds, Releasable;
    var k, l := log[i].body.capId.value, log[j].body.capId.value;
    CapsAt(log, i);
    ConsumedForever(log, i + 1, j, k);
    CapsAt(log, j);
    ReleasableLive(State(log, j), l, log[j].t);
  }

  /** How many of the first `i` events release an accept. */
  ghost function ReleaseCount(log: seq<Event>, i: nat): nat
    requires i <= |log|
  {
    if i == 0 then 0 else ReleaseCount(log, i - 1) + if AcceptRelease(log, i - 1) then 1 else 0
  }

  lemma AcceptsStep(caps: map<string, Capability>, b: Body)
    requires b.ActionAuthorized? ==> b.cap.id !in caps && !b.cap.consumed
    requires (b.Released? || b.Revoked?) && b.capId.Some? ==>
      b.capId.value in caps && !caps[b.capId.value].consumed
    ensures var before, after := ReleasedAccepts(caps), ReleasedAccepts(NextCaps(caps, b));
      if b.Released? && b.capId.Some? && caps[b.capId.value].intent == AcceptOffer
      then b.capId.value !in before && after == before + {b.capId.value}
      else after == before
  {}

  /** The consumed accept capabilities are exactly the accept releases in the log. */
  lemma {:induction false} VerifiedMeansCounted(log: seq<Event>, i: nat)
    requires i <= |log| && Folds(log)
    ensures |ReleasedAccepts(State(log, i).capabilities)| == ReleaseCount(log, i)
  {
    hide Apply, State, Folds, Releasable, ReleasedAccepts, NextCaps, ReleasedTerms, AcceptInFlight;
    if i == 0 {
      NoCaps(log);
      NoAccepts();
    } else {
      VerifiedMeansCounted(log, i - 1);
      CapsAt(log, i - 1);
      AcceptsStep(State(log, i - 1).capabilities, log[i - 1].body);
    }
  }

  lemma NoAccepts()
    ensures |ReleasedAccepts(map[])| == 0
  {
    assert ReleasedAccepts(map[]) == {};
  }

  lemma StatusStep(bb: Blackboard, e: Event)
    requires Apply(bb, e).Some? && e.body.StatusChanged?
    ensures e.body.next == VerifiedComplete ==>
      bb.completion == Some(true) && |ReleasedAccepts(bb.capabilities)| == 1
    ensures e.body.next == VerifiedNoDeal ==>
      bb.completion == Some(true) && |ReleasedAccepts(bb.capabilities)| == 0
  {
    hide Edge, ReleasedAccepts;
  }

  /** A case verifies complete with exactly one accept release in the log, and no deal with none. */
  lemma VerifiedStatus(log: seq<Event>, i: nat)
    requires i < |log| && Folds(log) && log[i].body.StatusChanged?
    ensures log[i].body.next == VerifiedComplete ==> ReleaseCount(log, i) == 1
    ensures log[i].body.next == VerifiedNoDeal ==> ReleaseCount(log, i) == 0
  {
    hide Apply, State, Folds, ReleasedAccepts, ReleaseCount;
    Step(log, i);
    StatusStep(State(log, i), log[i]);
    VerifiedMeansCounted(log, i);
  }
}
