/**
 What Guard allows, the fold takes: the effects of its rules join the blackboard they were asked on,
 and the Speaker's revalidation is the fold's own check of a release, and the offer's expiry.
 */
module Effects {
  import opened Wrappers
  import opened Contract
  import opened Fold
  import opened Guard
  import opened Identifiers
  import opened Capabilities
  import opened Runs
  import R = Reductions
  import U = Rulings

  /** A card that `request_approval` allows, whenever it was asked, always joins. */
  lemma CardJoins(r: Rules, bb: Blackboard, asked: nat, ref: string, c: Case, card: Card, e: Event)
    requires RequestApproval(r, AtTime(bb, asked), ref, c) == Allowed(card) && e.body == ApprovalRequested(card)
    ensures card.ref == ref && PayloadOk(e.body)
    ensures Apply(bb, e) == Some(bb.(seqNo := e.seqNo, t := e.t, pending := Some(card)))
  {
    hide Stem, Digits, CountStem, HardViolation, ReadbackConfirmed;
  }

  // ---------------------------------------------------------------- minted ids

  /** Every authorization names its capability by its own number, as `mint` does. */
  ghost predicate MintIds(log: seq<Event>) {
    forall i | 0 <= i < |log| && log[i].body.ActionAuthorized? ::
      log[i].body.cap.id == CapId(|State(log, i).authorizations| + 1)
  }

  ghost predicate Numbered(caps: map<string, Capability>, n: nat) {
    forall k | k in caps :: exists m: nat :: m <= n && k == CapId(m)
  }

  lemma CapIdInjective(m: nat, n: nat)
    requires CapId(m) == CapId(n)
    ensures m == n
  {
    hide Digits;
    SamePrefix(Digits(m), Digits(n), "cap-");
    DigitsInjective(m, n);
  }

  lemma {:induction false} CapsNumbered(log: seq<Event>, i: nat)
    requires i <= |log| && Folds(log) && MintIds(log)
    ensures Numbered(State(log, i).capabilities, |State(log, i).authorizations|)
  {
    hide Apply, State, Folds, CapId, Releasable, ReleasedTerms, AcceptInFlight;
    if i == 0 {
      NoCaps(log);
    } else {
      CapsNumbered(log, i - 1);
      CapsAt(log, i - 1);
      Step(log, i - 1);
      AuthorizationsStep(State(log, i - 1), log[i - 1]);
    }
  }

  /** `mint` gives an id that no capability has, or ever had. */
  lemma MintFresh(log: seq<Event>, i: nat)
    requires i <= |log| && Folds(log) && MintIds(log)
    ensures CapId(|State(log, i).authorizations| + 1) !in State(log, i).capabilities
  {
    hide State, Folds, CapId, MintIds;
    CapsNumbered(log, i);
    var bb := State(log, i);
    var k := CapId(|bb.authorizations| + 1);
    if k in bb.capabilities {
      var m: nat :| m <= |bb.authorizations| && k == CapId(m);
      CapIdInjective(m, |bb.authorizations| + 1);
    }
  }

  lemma {:induction false} TermsFound(offers: seq<Offer>, o: Offer, hash: string)
    requires o in offers && o.termsHash == Some(hash)
    ensures OfferWithTerms(offers, hash).Some?
  {
    if offers[0].termsHash != Some(hash) {
      TermsFound(offers[1..], o, hash);
    }
  }

  lemma AcceptFacts(r: Rules, bb: Blackboard, ref: string, c: Case, cap: Capability)
    requires AcceptOfferRule(r, bb, ref, c) == Allowed(cap)
    ensures cap.intent == AcceptOffer && cap.epoch == bb.epoch && !cap.consumed && cap.expires > bb.t
    ensures cap.id == CapId(|bb.authorizations| + 1)
    ensures !ReleasedTerms(bb.capabilities, cap.termsHash) && !AcceptInFlight(bb.capabilities)
    ensures FindOffer(bb.offers, ref).Some? && FindOffer(bb.offers, ref).value.termsHash == Some(cap.termsHash)
  {
    hide ReadbackConfirmed, HardViolation, TermsOf, ReleasedTerms, AcceptInFlight, Digits, Terminal, ReleasedAccept,
      Over;
  }

  lemma Authorizable(bb: Blackboard, cap: Capability, e: Event)
    requires e.body == ActionAuthorized(AcceptOffer, cap)
    requires cap.intent == AcceptOffer && cap.epoch == bb.epoch && !cap.consumed && cap.id !in bb.capabilities
    requires !ReleasedTerms(bb.capabilities, cap.termsHash) && !AcceptInFlight(bb.capabilities)
    requires OfferWithTerms(bb.offers, cap.termsHash).Some?
    ensures Apply(bb, e).Some? <==> e.t < cap.expires
    ensures Apply(bb, e).Some? ==> LiveCap(Apply(bb, e).value, cap.id)
  {
    hide OfferWithTerms, ReleasedTerms, AcceptInFlight;
  }

  lemma LineQueued(bb: Blackboard, e: Event, k: string)
    requires LiveCap(bb, k) && e.body == Verbatim(AcceptLine, Some(k), None)
    ensures Apply(bb, e).Some?
  {}

  /**
   A capability that `accept_offer` allows joins exactly until it expires, which is after the time it
   was asked at; and its accept line joins after it.
   */
  lemma YesJoins(r: Rules, log: seq<Event>, asked: nat, ref: string, c: Case, cap: Capability, e: Event, line: Event)
    requires Folds(log) && MintIds(log)
    requires AcceptOfferRule(r, AtTime(State(log, |log|), asked), ref, c) == Allowed(cap)
    requires e.body == ActionAuthorized(AcceptOffer, cap) && line.body == Verbatim(AcceptLine, Some(cap.id), None)
    ensures asked < cap.expires
    ensures Apply(State(log, |log|), e).Some? <==> e.t < cap.expires
    ensures e.t < cap.expires ==> Apply(Apply(State(log, |log|), e).value, line).Some?
  {
    hide State, Folds, MintIds, CapId, AcceptOfferRule, Apply, ReleasedTerms, AcceptInFlight, OfferWithTerms, FindOffer,
      LiveCap;
    var bb := State(log, |log|);
    AcceptFacts(r, AtTime(bb, asked), ref, c, cap);
    MintFresh(log, |log|);
    TermsFound(bb.offers, FindOffer(bb.offers, ref).value, cap.termsHash);
    Authorizable(bb, cap, e);
    if e.t < cap.expires {
      LineQueued(Apply(bb, e).value, line, cap.id);
    }
  }

  // ---------------------------------------------------------------- revalidation

  datatype Stale =
    | UnknownCapability | Consumed | StaleEpoch | Fenced | OfferClosed | TermsChanged | Expired

  /** `revalidate`: why the line may not be released now, if so. */
  function Revalidate(bb: Blackboard, k: string, t: nat): Option<Stale>
  {
    if k !in bb.capabilities then Some(UnknownCapability)
    else
      var cap := bb.capabilities[k];
      if cap.consumed then Some(Consumed)
      else if cap.epoch != bb.epoch then Some(Stale.StaleEpoch)
      else if bb.fences != [] then Some(Fenced)
      else
        var offer := AuthorizedOffer(bb, k);
        if offer.None? || offer.value.status != Open then Some(OfferClosed)
        else if offer.value.termsHash != Some(cap.termsHash) then Some(TermsChanged)
        else if Earliest(offer.value.expires, cap.expires) <= t then Some(Stale.Expired)
        else None
  }

  /** The offer the capability was first authorized for. */
  ghost predicate ItsOffer(bb: Blackboard, k: string, o: Offer) {
    exists i: nat ::
      R.AuthorizedAt(bb.authorizations, k, i) && U.Named(bb.offers, R.OfferNamed(bb.authorizations[i]), o)
  }

  lemma ItsOfferIs(bb: Blackboard, k: string, o: Offer)
    ensures ItsOffer(bb, k, o) <==> FindAuthorization(bb.authorizations, k).Some? && AuthorizedOffer(bb, k) == Some(o)
  {
    hide FindAuthorization, AuthorizedOffer;
    if FindAuthorization(bb.authorizations, k).Some? {
      var i := R.AuthorizedFound(bb.authorizations, k);
      R.AuthorizedOfferIs(bb, k, i, o);
    }
    if i: nat :|
      R.AuthorizedAt(bb.authorizations, k, i) && U.Named(bb.offers, R.OfferNamed(bb.authorizations[i]), o)
    {
      R.AuthorizedOfferIs(bb, k, i, o);
    }
  }

  /** Why a line may not be released: the first of these that is so. */
  lemma RevalidateRuling(bb: Blackboard, k: string, t: nat)
    ensures var why := Revalidate(bb, k, t);
      if k !in bb.capabilities then why == Some(UnknownCapability)
      else
        var cap := bb.capabilities[k];
        if cap.consumed then why == Some(Consumed)
        else if cap.epoch != bb.epoch then why == Some(Stale.StaleEpoch)
        else if bb.fences != [] then why == Some(Fenced)
        else
          && ((forall o | ItsOffer(bb, k, o) :: o.status != Open) ==> why == Some(OfferClosed))
          && forall o | ItsOffer(bb, k, o) && o.status == Open ::
            if o.termsHash != Some(cap.termsHash) then why == Some(TermsChanged)
            else if cap.expires <= t || (o.expires.Some? && o.expires.value <= t) then why == Some(Stale.Expired)
            else why == None
  {
    hide FindAuthorization, AuthorizedOffer, ItsOffer;
    forall o ensures ItsOffer(bb, k, o)
      <==> FindAuthorization(bb.authorizations, k).Some? && AuthorizedOffer(bb, k) == Some(o)
    {
      ItsOfferIs(bb, k, o);
    }
    NoAuthorization(bb, k);
  }

  lemma NoAuthorization(bb: Blackboard, k: string)
    ensures FindAuthorization(bb.authorizations, k).None? ==> AuthorizedOffer(bb, k).None?
  {
    hide FindAuthorization;
  }

  /** While an accept is in flight, no accept of its terms was released. */
  lemma {:induction false} InFlightUnreleased(log: seq<Event>, i: nat, k: string)
    requires i <= |log| && Folds(log)
    requires LiveCap(State(log, i), k) && State(log, i).capabilities[k].intent == AcceptOffer
    ensures !ReleasedTerms(State(log, i).capabilities, State(log, i).capabilities[k].termsHash)
  {
    hide Apply, State, Folds, Releasable, AcceptInFlight;
    if i == 0 {
      NoCaps(log);
    } else {
      CapsAt(log, i - 1);
      AcceptsApart(log, i - 1);
      if LiveCap(State(log, i - 1), k) {
        InFlightUnreleased(log, i - 1, k);
      }
    }
  }

  /**
   The Speaker may release a line exactly when the fold will take its release and the offer has not
   expired: what else the fold asks, that no accept of these terms was released, always holds.
   */
  lemma RevalidateIsRelease(log: seq<Event>, i: nat, k: string, t: nat)
    requires i <= |log| && Folds(log)
    ensures var bb := State(log, i);
      Revalidate(bb, k, t).None? <==>
        Releasable(bb, k, t)
        && (AuthorizedOffer(bb, k).Some? && AuthorizedOffer(bb, k).value.expires.Some? ==>
              AuthorizedOffer(bb, k).value.expires.value > t)
  {
    hide State, Folds, AuthorizedOffer, ReleasedTerms;
    var bb := State(log, i);
    if k in bb.capabilities {
      LookupSucceeds(log, i, k);
      if LiveCap(bb, k) && bb.capabilities[k].intent == AcceptOffer {
        InFlightUnreleased(log, i, k);
      }
    }
  }
}
