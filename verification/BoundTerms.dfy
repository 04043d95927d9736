/**
 When terms name their offer, hashes tell terms apart and read-backs carry the hash of the terms read
 back, the offer a yes is released for is the revision it was minted for.
 */
module BoundTerms {
  import opened Wrappers
  import opened Contract
  import opened Fold
  import opened Guard
  import opened Capabilities
  import opened Runs
  import opened Cards
  import opened Authority

  /** The terms of an offer hold its name and revision. */
  ghost predicate TermsNameOffer(r: Rules) {
    forall ref, revision: nat, slots, ref', revision': nat, slots' ::
      && r.offerTerms(ref, revision, slots).Some?
      && r.offerTerms(ref, revision, slots) == r.offerTerms(ref', revision', slots')
      ==> ref == ref' && revision == revision'
  }

  /** The hash tells the terms of offers apart. */
  ghost predicate HashInjective(r: Rules) {
    forall ref, revision: nat, slots, ref', revision': nat, slots' ::
      var t, t' := r.offerTerms(ref, revision, slots), r.offerTerms(ref', revision', slots');
      t.Some? && t'.Some? && r.termsHash(t.value) == r.termsHash(t'.value) ==> t == t'
  }

  /** The hash of an offer's terms, if it has terms. */
  function OfferHash(r: Rules, o: Offer): Option<string>
  {
    match TermsOf(r, o)
    case None => None
    case Some(terms) => Some(r.termsHash(terms))
  }

  /** Read-backs carry the hash of the terms of the offer they read back. */
  ghost predicate ReadbacksHash(r: Rules, log: seq<Event>) {
    forall i | 0 <= i < |log| && log[i].body.ReadbackUpdated? :: ReadbackHashed(r, State(log, i), log[i].body)
  }

  predicate ReadbackHashed(r: Rules, bb: Blackboard, b: Body) {
    b.ReadbackUpdated? && FindOffer(bb.offers, b.ref).Some? ==>
      b.hash == OfferHash(r, FindOffer(bb.offers, b.ref).value)
  }

  /** An offer is bound to its own terms, or to none yet. */
  predicate SelfBound(r: Rules, o: Offer) {
    o.termsHash.Some? ==> o.termsHash == OfferHash(r, o)
  }

  /** What an event makes of the terms hash of an offer that follows one on the board. */
  lemma HashStep(bb: Blackboard, e: Event, ref: string)
    requires Apply(bb, e).Some? && FindOffer(Apply(bb, e).value.offers, ref).Some?
    ensures var o := FindOffer(Apply(bb, e).value.offers, ref).value;
      match e.body
      case OfferRecorded(at, _, _, _) => at == ref ==> o.termsHash.None?
      case ReadbackUpdated(at, _, _, hash) =>
        at == ref ==>
          && o.termsHash == hash && FindOffer(bb.offers, ref).Some?
          && o.revision == FindOffer(bb.offers, ref).value.revision
      case _ => true
    ensures var o := FindOffer(Apply(bb, e).value.offers, ref).value;
      ((e.body.OfferRecorded? || e.body.ReadbackUpdated?) && e.body.ref == ref)
      || (FindOffer(bb.offers, ref).Some? && o.termsHash == FindOffer(bb.offers, ref).value.termsHash
          && o.revision == FindOffer(bb.offers, ref).value.revision)
  {
    hide FindOffer, PutOffer, FindAuthorization, CardCurrent, Edge, IsOfferRef, PutApproval, OfferWithTerms,
      Without, ReleasedTerms, AcceptInFlight, Releasable;
  }

  lemma BoundStep(r: Rules, bb: Blackboard, e: Event, ref: string)
    requires Apply(bb, e).Some? && ReadbackHashed(r, bb, e.body)
    requires FindOffer(bb.offers, ref).Some? ==> SelfBound(r, FindOffer(bb.offers, ref).value)
    ensures var next := FindOffer(Apply(bb, e).value.offers, ref); next.Some? ==> SelfBound(r, next.value)
  {
    hide FindOffer, Apply, Contents;
    if FindOffer(Apply(bb, e).value.offers, ref).Some? {
      HashStep(bb, e, ref);
      if FindOffer(bb.offers, ref).Some? {
        OfferStep(bb, e, ref);
      }
    }
  }

  /** Every offer on the board of such a log is bound to its own terms. */
  lemma {:induction false} OffersBound(r: Rules, log: seq<Event>, i: nat, ref: string)
    requires i <= |log| && Folds(log) && ReadbacksHash(r, log) && FindOffer(State(log, i).offers, ref).Some?
    ensures SelfBound(r, FindOffer(State(log, i).offers, ref).value)
  {
    hide Apply, State, Folds, FindOffer, SelfBound, ReadbackHashed;
    if i == 0 {
      NoCaps(log);
      NoOffer(ref);
    } else {
      if FindOffer(State(log, i - 1).offers, ref).Some? {
        OffersBound(r, log, i - 1, ref);
      }
      Step(log, i - 1);
      if !log[i - 1].body.ReadbackUpdated? {
        assert ReadbackHashed(r, State(log, i - 1), log[i - 1].body) by {
          OtherHashed(r, State(log, i - 1), log[i - 1].body);
        }
      }
      BoundStep(r, State(log, i - 1), log[i - 1], ref);
    }
  }

  lemma NoOffer(ref: string)
    ensures FindOffer([], ref).None?
  {}

  lemma OtherHashed(r: Rules, bb: Blackboard, b: Body)
    requires !b.ReadbackUpdated?
    ensures ReadbackHashed(r, bb, b)
  {}

  /** Two offers bound to one hash are one revision of one offer. */
  lemma SameTermsSameOffer(r: Rules, a: Offer, b: Offer, hash: string)
    requires TermsNameOffer(r) && HashInjective(r)
    requires OfferHash(r, a) == Some(hash) && OfferHash(r, b) == Some(hash)
    ensures a.ref == b.ref && a.revision == b.revision
  {
    assert r.offerTerms(a.ref, a.revision, Contents(a.slots)) == r.offerTerms(b.ref, b.revision, Contents(b.slots));
  }

  /** The offer a yes is released for is the very revision it was minted for, and has not expired. */
  lemma SameOffer(r: Rules, c: Case, log: seq<Event>, i: nat, offer: Offer, terms: Terms, g: Grant)
    requires i < |log| && Run(r, c, log) && AcceptRelease(log, i) && SoundYes(r, log, i, offer, terms, g)
    requires TermsNameOffer(r) && HashInjective(r) && ReadbacksHash(r, log)
    ensures var now := AuthorizedOffer(State(log, i), log[i].body.capId.value);
      && now.Some? && now.value.ref == offer.ref && now.value.revision == offer.revision
      && Contents(now.value.slots) == Contents(offer.slots)
      && now.value.expires == offer.expires && (offer.expires.Some? ==> log[i].t < offer.expires.value)
  {
    hide Run, State, FindOffer, Untouched, NoBump, NoDenial, ReadbackConfirmed, HardViolation, Over, LastAuth,
      TermsNameOffer, HashInjective, ReadbacksHash, Contents, TermsOf, AcceptRelease;
    RunFolds(r, c, log);
    var k := ReleasedName(log, i);
    var now := AuthorizedOffer(State(log, i), k).value;
    var j: nat := MintOf(log, i);
    assert FindOffer(State(log, i).offers, now.ref) == Some(now) by { Authorized(State(log, i), k); }
    OffersBound(r, log, i, now.ref);
    SameTermsSameOffer(r, offer, now, ReleasedCap(log, i).termsHash);
    OffersFollow(log, j, i, offer.ref);
  }

  ghost function ReleasedName(log: seq<Event>, i: nat): (k: string)
    requires i < |log| && AcceptRelease(log, i)
    ensures log[i].body.Released? && log[i].body.capId == Some(k)
  {
    log[i].body.capId.value
  }

  lemma Authorized(bb: Blackboard, k: string)
    requires AuthorizedOffer(bb, k).Some?
    ensures FindOffer(bb.offers, AuthorizedOffer(bb, k).value.ref) == AuthorizedOffer(bb, k)
  {
    hide FindOffer, FindAuthorization;
  }
}
