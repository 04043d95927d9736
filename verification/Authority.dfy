/**
 From a grant to a released yes: what stands behind every accept release of a run, and how many
 there can be.
 */
module Authority {
  import opened Wrappers
  import opened Contract
  import opened Fold
  import opened Guard
  import opened Mandates
  import opened Capabilities
  import opened Runs
  import opened Cards

  // ---------------------------------------------------------------- what the rules allowed

  /** Price, term and fees are within what a mandate allows. */
  predicate Within(bounds: Bounds, terms: Terms) {
    && (bounds.maxPrice.Some? ==> terms.price <= bounds.maxPrice.value)
    && (bounds.maxTerm.Some? ==> terms.term <= bounds.maxTerm.value)
    && (bounds.maxFees.Some? ==> terms.feeTotal <= bounds.maxFees.value)
  }

  /** Every slot was read back and confirmed, none is missing, and the mandate's features and changes are met. */
  predicate Acceptable(r: Rules, offer: Offer, terms: Terms, m: Option<Mandate>) {
    && (forall s | s in offer.slots :: s.status == Confirmed)
    && (forall i, j | 0 <= i < |offer.slots| && 0 <= j < |offer.slots| && i != j ::
          offer.slots[i].field != offer.slots[j].field)
    && !r.missingField(offer)
    && (m.Some? ==>
          && (forall f | f in m.value.bounds.required :: f in terms.features)
          && (forall f | f in terms.changes :: f !in m.value.bounds.forbidden))
    && !r.unsupported(terms.changes)
  }

  lemma AcceptableIs(r: Rules, offer: Offer, terms: Terms, m: Option<Mandate>)
    ensures Acceptable(r, offer, terms, m) <==> ReadbackConfirmed(r, offer) && !HardViolation(r, terms, m)
  {
    if Acceptable(r, offer, terms, m) && m.Some? {
      assert m.value.bounds.forbidden * terms.changes == {};
    }
    if ReadbackConfirmed(r, offer) && !HardViolation(r, terms, m) && m.Some? {
      forall f | f in terms.changes ensures f !in m.value.bounds.forbidden {
        assert f !in m.value.bounds.forbidden * terms.changes;
      }
    }
  }

  /** The grant covers the terms on this blackboard, at any time before it expires. */
  predicate Covers(bb: Blackboard, hash: string, terms: Terms, g: Grant) {
    match g
    case ByMandate(m) =>
      && bb.mandate == Some(m) && m.status == MandateGranted && m.epoch == bb.epoch && Within(m.bounds, terms)
      && forall k | k in bb.capabilities && bb.capabilities[k].intent == AcceptOffer :: !bb.capabilities[k].consumed
    case ByApproval(a) =>
      && a in bb.approvals && a.decision == Granted && a.termsHash == hash && a.epoch == bb.epoch
      && a.expires.Some?
  }

  /** When a grant ends. */
  function ExpiryOf(g: Grant): Option<int>
  {
    match g
    case ByMandate(m) => m.expires
    case ByApproval(a) => a.expires
  }

  lemma GrantCovers(bb: Blackboard, hash: string, terms: Terms, g: Grant)
    requires GrantFor(bb, hash, terms) == Allowed(g)
    ensures Covers(bb, hash, terms, g)
    ensures forall a | a in bb.approvals && a.termsHash == hash && a.epoch == bb.epoch :: a.decision == Granted
    ensures ExpiryOf(g).Some? ==> bb.t < ExpiryOf(g).value
    ensures ExpiryOf(g) == GrantExpires(g)
  {
    hide FirstLive;
    assert forall a | a in bb.approvals && a.termsHash == hash && a.epoch == bb.epoch :: Guard.Now(a, hash, bb.epoch);
  }

  /** What one capability to say yes was minted on, when Guard was asked at time `asked`. */
  ghost predicate MintedOn(
      r: Rules, bb: Blackboard, asked: nat, cap: Capability, offer: Offer, terms: Terms, g: Grant)
  {
    && bb.status == InCall && bb.fences == []
    && FindOffer(bb.offers, offer.ref) == Some(offer) && offer.status == Open
    && TermsOf(r, offer) == Some(terms) && Acceptable(r, offer, terms, bb.mandate)
    && offer.termsHash == Some(cap.termsHash) && cap.termsHash == r.termsHash(terms)
    && Covers(bb, cap.termsHash, terms, g)
    && (forall a | a in bb.approvals && a.termsHash == cap.termsHash && a.epoch == bb.epoch :: a.decision == Granted)
    && cap.expires <= asked + 60_000
    && (ExpiryOf(g).Some? ==> cap.expires <= ExpiryOf(g).value)
    && (offer.expires.Some? ==> cap.expires <= offer.expires.value)
  }

  lemma MintAllowed(r: Rules, bb: Blackboard, asked: nat, ref: string, c: Case, cap: Capability)
    returns (offer: Offer, terms: Terms, g: Grant)
    requires AcceptOfferRule(r, AtTime(bb, asked), ref, c) == Allowed(cap)
    ensures MintedOn(r, bb, asked, cap, offer, terms, g)
    ensures ExpiryOf(g).Some? ==> asked < ExpiryOf(g).value
  {
    hide ReadbackConfirmed, HardViolation, GrantFor, Covers, TermsOf, ReleasedTerms, AcceptInFlight, Digits, Terminal,
      FindOffer, Acceptable;
    var seen := AtTime(bb, asked);
    offer := OpenOfferOf(r, seen, ref).value.0;
    terms := OpenOfferOf(r, seen, ref).value.1;
    g := GrantFor(seen, r.termsHash(terms), terms).value;
    GrantCovers(seen, r.termsHash(terms), terms, g);
    CoversAnyTime(bb, asked, r.termsHash(terms), terms, g);
    AcceptableIs(r, offer, terms, bb.mandate);
  }

  /** Whether a grant covers terms does not depend on the time; its expiry is asked apart. */
  lemma CoversAnyTime(bb: Blackboard, asked: nat, hash: string, terms: Terms, g: Grant)
    ensures Covers(AtTime(bb, asked), hash, terms, g) == Covers(bb, hash, terms, g)
  {}

  // ---------------------------------------------------------------- denials

  /** Event `d` denies these terms in this epoch. */
  ghost predicate Denies(log: seq<Event>, d: nat, hash: string, epoch: nat)
    requires d < |log|
  {
    && log[d].body.ApprovalDecided? && log[d].body.decision == Denied
    && State(log, d).pending.Some? && State(log, d).pending.value.termsHash == hash
    && State(log, d).epoch == epoch
  }

  ghost predicate NoDenial(log: seq<Event>, j: nat, hash: string, epoch: nat)
    requires j <= |log|
  {
    forall d | 0 <= d < j :: !Denies(log, d, hash, epoch)
  }

  /** A denial stays in the blackboard. */
  lemma DenialStays(r: Rules, c: Case, log: seq<Event>, d: nat, j: nat, hash: string, epoch: nat)
    requires d < j <= |log| && Run(r, c, log) && Denies(log, d, hash, epoch)
    ensures exists a: Approval ::
      a in State(log, j).approvals && a.termsHash == hash && a.epoch == epoch && a.decision == Denied
  {
    hide State, Run, HasApproval;
    DecisionAdds(r, c, log, d);
    ApprovalsGrow(r, c, log, d + 1, j);
    var card := State(log, d).pending.value;
    var a := ApprovalOf(card, card.id, Denied, log[d].body.who);
    var before, after := State(log, d + 1).approvals, State(log, j).approvals;
    assert before[|before| - 1] == a;
    assert after[|before| - 1] == a;
  }

  lemma NoDenialBefore(r: Rules, c: Case, log: seq<Event>, j: nat, hash: string)
    requires j <= |log| && Run(r, c, log)
    requires forall a | a in State(log, j).approvals && a.termsHash == hash && a.epoch == State(log, j).epoch ::
      a.decision == Granted
    ensures NoDenial(log, j, hash, State(log, j).epoch)
  {
    hide State, Run, Denies;
    forall d | 0 <= d < j
      ensures !Denies(log, d, hash, State(log, j).epoch)
    {
      if Denies(log, d, hash, State(log, j).epoch) {
        DenialStays(r, c, log, d, j, hash, State(log, j).epoch);
        assert false;
      }
    }
  }

  // ---------------------------------------------------------------- a released yes

  /** The event `j` that minted the capability which event `i` releases. */
  ghost function MintOf(log: seq<Event>, i: nat): int
    requires i < |log| && AcceptRelease(log, i)
  {
    LastAuth(log, i, log[i].body.capId.value)
  }

  /**
   The grant of a release covered it when it was minted. At the release its epoch still is the epoch
   and it has not expired, and an approval is still on the board.
   */
  ghost predicate LiveGrant(mint: Blackboard, now: Blackboard, t: nat, cap: Capability, terms: Terms, g: Grant) {
    && mint.epoch == now.epoch == cap.epoch
    && Covers(mint, cap.termsHash, terms, g)
    && (ExpiryOf(g).Some? ==> t < ExpiryOf(g).value)
    && (g.ByApproval? ==> g.approval in now.approvals)
  }

  /** Everything that stands behind the accept that event `i` releases. */
  ghost predicate SoundYes(r: Rules, log: seq<Event>, i: nat, offer: Offer, terms: Terms, g: Grant)
    requires i < |log| && AcceptRelease(log, i)
  {
    var cap, j, k := ReleasedCap(log, i), MintOf(log, i), log[i].body.capId.value;
    && 0 <= j < i && log[j].body == ActionAuthorized(AcceptOffer, cap)
    && NoBump(log, j, i) && Untouched(log, j, i, k)
    && var mint, now, t := State(log, j), State(log, i), log[i].t;
       && LiveGrant(mint, now, t, cap, terms, g)
       && NoDenial(log, j, cap.termsHash, now.epoch)
       && mint.status == InCall && mint.fences == [] && now.fences == []
       && FindOffer(mint.offers, offer.ref) == Some(offer) && offer.status == Open
       && offer.termsHash == Some(cap.termsHash) && cap.termsHash == r.termsHash(terms)
       && TermsOf(r, offer) == Some(terms) && Acceptable(r, offer, terms, mint.mandate)
       && (offer.expires.Some? ==> t < offer.expires.value) && t < log[j].t + 60_000
       && (g.ByMandate? ==> StandsSince(log, j, i, g.mandate))
       && AuthorizedOffer(now, k).Some? && AuthorizedOffer(now, k).value.status == Open
       && AuthorizedOffer(now, k).value.termsHash == Some(cap.termsHash)
  }

  /**
   The mandate a yes was minted on was decided before, is the last one decided, and until the release no
   epoch event but that of a decision came after it.
   */
  ghost predicate StandsSince(log: seq<Event>, j: nat, i: nat, m: Mandate)
    requires j <= i <= |log|
  {
    exists l: nat, d: nat ::
      l < d < j && DecidedAs(log, m, l, d) && LastSince(log, d, j) && OnlyDecisions(log, d, i)
  }

  lemma MandateStands(log: seq<Event>, j: nat, i: nat, m: Mandate)
    requires j <= i <= |log| && Folds(log) && Stamped(log)
    requires State(log, j).mandate == Some(m) && m.status == MandateGranted && m.epoch == State(log, j).epoch
    requires !(j < i && log[j].body.EpochBumped?) && NoBump(log, j, i)
    ensures StandsSince(log, j, i, m)
  {
    hide State, Folds, Stamped, DecidedAs, LastSince;
    var l, d := MandateAt(log, j, m);
    var decided: nat := d;
    assert OnlyDecisions(log, decided, i);
  }

  lemma ReleasableNow(bb: Blackboard, k: string, t: nat)
    requires Releasable(bb, k, t)
    ensures LiveCap(bb, k) && bb.fences == []
    ensures bb.capabilities[k].epoch == bb.epoch && bb.capabilities[k].expires > t
    ensures AuthorizedOffer(bb, k).Some? && AuthorizedOffer(bb, k).value.status == Open
    ensures AuthorizedOffer(bb, k).value.termsHash == Some(bb.capabilities[k].termsHash)
  {
    hide FindAuthorization, AuthorizedOffer, ReleasedTerms;
  }

  /** Guard was asked no later than the mint is stamped. */
  lemma MintAt(r: Rules, c: Case, log: seq<Event>, j: nat)
    returns (asked: nat, offer: Offer, terms: Terms, g: Grant)
    requires j < |log| && Run(r, c, log) && log[j].body.ActionAuthorized? && log[j].body.intent == AcceptOffer
    ensures asked <= log[j].t && MintedOn(r, State(log, j), asked, log[j].body.cap, offer, terms, g)
  {
    hide Written, State, MintedOn, AcceptOfferRule;
    assert FromGuard(r, c, log, j);
    var ref;
    asked, ref :|
      asked <= log[j].t && AcceptOfferRule(r, AtTime(State(log, j), asked), ref, c) == Allowed(log[j].body.cap);
    offer, terms, g := MintAllowed(r, State(log, j), asked, ref, c, log[j].body.cap);
  }

  /** End to end: every released yes of a run is sound. */
  lemma EndToEnd(r: Rules, c: Case, log: seq<Event>, i: nat) returns (offer: Offer, terms: Terms, g: Grant)
    requires i < |log| && Run(r, c, log) && AcceptRelease(log, i)
    ensures SoundYes(r, log, i, offer, terms, g)
  {
    hide Run, State, LastAuth, Covers, Untouched, NoBump, NoDenial, Releasable, AuthorizedOffer, FindOffer,
      ReadbackConfirmed, HardViolation, TermsOf, ReleasedTerms, AcceptInFlight, NextCaps, LiveGrant, LiveCap,
      Acceptable, StandsSince, Folds, Stamped;
    RunFolds(r, c, log);
    var k := log[i].body.capId.value;
    ReleaseFollowsMint(log, i, k);
    CapsAt(log, i);
    ReleasableNow(State(log, i), k, log[i].t);
    var j: nat := MintOf(log, i);
    CapsAt(log, j);
    var asked: nat;
    asked, offer, terms, g := MintAt(r, c, log, j);
    NoDenialBefore(r, c, log, j, log[j].body.cap.termsHash);
    ApprovalsGrow(r, c, log, j, i);
    StillLive(State(log, j), State(log, i), log[i].t, ReleasedCap(log, i), terms, g);
    if g.ByMandate? {
      CoversMandate(State(log, j), log[j].body.cap.termsHash, terms, g);
      MandateStands(log, j, i, g.mandate);
    }
  }

  lemma CoversMandate(bb: Blackboard, hash: string, terms: Terms, g: Grant)
    requires g.ByMandate? && Covers(bb, hash, terms, g)
    ensures bb.mandate == Some(g.mandate) && g.mandate.status == MandateGranted && g.mandate.epoch == bb.epoch
  {}

  lemma StillLive(mint: Blackboard, now: Blackboard, t: nat, cap: Capability, terms: Terms, g: Grant)
    requires mint.epoch == now.epoch == cap.epoch && Covers(mint, cap.termsHash, terms, g)
    requires mint.approvals <= now.approvals && t < cap.expires
    requires ExpiryOf(g).Some? ==> cap.expires <= ExpiryOf(g).value
    ensures LiveGrant(mint, now, t, cap, terms, g)
  {}
}
