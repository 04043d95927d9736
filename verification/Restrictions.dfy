/**
 What holds a release back over whole logs that the fold takes: a fence until it is cleared, a
 declined offer until it is recorded anew, a closed case for good.
 */
module Restrictions {
  import opened Wrappers
  import opened Contract
  import opened Fold
  import opened Capabilities

  /** The parts of the board the other lemmas do not follow. */
  lemma RestrictionStep(bb: Blackboard, e: Event)
    requires Apply(bb, e).Some?
    ensures var next := Apply(bb, e).value;
      && (next.status != bb.status ==> e.body.StatusChanged? && !Terminal(bb.status))
      && next.fences == (match e.body
           case FenceChanged(Raised, f, utt) => bb.fences + [Fence(f, utt, e.seqNo)]
           case FenceChanged(Cleared, f, _) => Without(bb.fences, f)
           case _ => bb.fences)
    ensures var next := Apply(bb, e).value;
      match e.body
      case OfferRecorded(ref, revision, slots, expires) =>
        && revision >= 1 && IsOfferRef(ref) && |slots| <= MAX_SLOTS && |next.offers| <= MAX_OFFERS
        && next.offers == PutOffer(bb.offers, Offer(ref, revision, Unconfirmed(slots), Open, expires, None))
      case ReadbackUpdated(ref, _, _, _) =>
        exists o: Offer, slots, hash :: FindOffer(bb.offers, ref) == Some(o) && |slots| == |o.slots|
          && next.offers == PutOffer(bb.offers, o.(slots := slots, termsHash := hash))
      case Verbatim(DeclineLine, _, offerRef) =>
        exists o: Offer :: FindOffer(bb.offers, Name(offerRef)) == Some(o)
          && next.offers == PutOffer(bb.offers, o.(status := Declined))
      case _ => next.offers == bb.offers
  {
    hide FindOffer, PutOffer, FindAuthorization, CardCurrent, IsOfferRef, PutApproval, OfferWithTerms,
      Without, ReleasedTerms, AcceptInFlight, Releasable, Unconfirmed;
  }

  // ---------------------------------------------------------------- fences

  predicate HasFence(fences: seq<Fence>, id: string) {
    exists i | 0 <= i < |fences| :: fences[i].id == id
  }

  lemma {:induction false} WithoutOther(fences: seq<Fence>, id: string, other: string)
    requires id != other && HasFence(fences, id)
    ensures HasFence(Without(fences, other), id)
  {
    if fences[0].id == id {
      assert Without(fences, other)[0].id == id;
    } else {
      var i :| 0 <= i < |fences| && fences[i].id == id;
      assert fences[1..][i - 1].id == id;
      WithoutOther(fences[1..], id, other);
      var rest := Without(fences[1..], other);
      var k :| 0 <= k < |rest| && rest[k].id == id;
      var all := Without(fences, other);
      assert all[k + |all| - |rest|].id == id;
    }
  }

  /** A raised fence stands until it is cleared. */
  lemma {:induction false} FenceStands(log: seq<Event>, m: nat, i: nat, fence: string)
    requires m < i <= |log| && Folds(log)
    requires log[m].body.FenceChanged? && log[m].body.op == Raised && log[m].body.fence == fence
    requires forall k | m < k < i ::
      !(log[k].body.FenceChanged? && log[k].body.op == Cleared && log[k].body.fence == fence)
    ensures HasFence(State(log, i).fences, fence)
    decreases i
  {
    hide Apply, State, Folds, Without, HasFence, FindOffer, PutOffer;
    Step(log, i - 1);
    RestrictionStep(State(log, i - 1), log[i - 1]);
    var before, after, b := State(log, i - 1).fences, State(log, i).fences, log[i - 1].body;
    if i - 1 == m {
      FenceAdded(before, Fence(fence, b.utt, log[m].seqNo), fence);
    } else {
      FenceStands(log, m, i - 1, fence);
      if b.FenceChanged? && b.op == Raised {
        FenceAdded(before, Fence(b.fence, b.utt, log[i - 1].seqNo), fence);
      } else if b.FenceChanged? && b.op == Cleared {
        WithoutOther(before, fence, b.fence);
      }
    }
  }

  lemma FenceAdded(fences: seq<Fence>, f: Fence, id: string)
    requires f.id == id || HasFence(fences, id)
    ensures HasFence(fences + [f], id)
  {
    if f.id == id {
      assert (fences + [f])[|fences|].id == id;
    } else {
      var i :| 0 <= i < |fences| && fences[i].id == id;
      assert (fences + [f])[i].id == id;
    }
  }

  /** Whatever needs authority is released only once every fence raised before was cleared. */
  lemma ReleaseAfterFences(log: seq<Event>, m: nat, i: nat) returns (k: nat)
    requires m < i < |log| && Folds(log) && log[m].body.FenceChanged? && log[m].body.op == Raised
    requires log[i].body.Released? && log[i].body.capId.Some?
    ensures m < k < i && log[k].body.FenceChanged? && log[k].body.op == Cleared
    ensures log[k].body.fence == log[m].body.fence
  {
    hide Apply, State, Folds, Releasable, NextCaps, ReleasedTerms, AcceptInFlight;
    CapsAt(log, i);
    ReleasableLive(State(log, i), log[i].body.capId.value, log[i].t);
    var fence := log[m].body.fence;
    if forall k | m < k < i :: !(log[k].body.FenceChanged? && log[k].body.op == Cleared && log[k].body.fence == fence) {
      FenceStands(log, m, i, fence);
    }
    k :| m < k < i && log[k].body.FenceChanged? && log[k].body.op == Cleared && log[k].body.fence == fence;
  }

  // ---------------------------------------------------------------- declined offers

  predicate Declines(b: Body, ref: string) {
    b.Verbatim? && b.kind == DeclineLine && Name(b.offerRef) == ref
  }

  predicate Records(b: Body, ref: string) {
    b.OfferRecorded? && b.ref == ref
  }

  predicate IsDeclined(bb: Blackboard, ref: string) {
    FindOffer(bb.offers, ref).Some? && FindOffer(bb.offers, ref).value.status == Declined
  }

  lemma DeclineStep(bb: Blackboard, e: Event, ref: string)
    requires Apply(bb, e).Some? && (Declines(e.body, ref) || (IsDeclined(bb, ref) && !Records(e.body, ref)))
    ensures IsDeclined(Apply(bb, e).value, ref)
  {
    hide FindOffer, PutOffer, FindAuthorization, CardCurrent, IsOfferRef, PutApproval, OfferWithTerms,
      Without, ReleasedTerms, AcceptInFlight, Releasable, Unconfirmed;
  }

  /** A declined offer stays declined until it is recorded again. */
  lemma {:induction false} DeclinedStays(log: seq<Event>, m: nat, i: nat, ref: string)
    requires m < i <= |log| && Folds(log) && Declines(log[m].body, ref)
    requires forall k | m < k < i :: !Records(log[k].body, ref)
    ensures IsDeclined(State(log, i), ref)
    decreases i
  {
    hide Apply, State, Folds, IsDeclined, Declines, Records;
    Step(log, i - 1);
    if m < i - 1 {
      DeclinedStays(log, m, i - 1, ref);
    }
    DeclineStep(State(log, i - 1), log[i - 1], ref);
  }

  /** And nothing authorized for it is released. */
  lemma DeclinedNotReleased(log: seq<Event>, m: nat, i: nat, ref: string, k: string)
    requires m < i < |log| && Folds(log) && Declines(log[m].body, ref)
    requires forall n | m < n < i :: !Records(log[n].body, ref)
    requires FindAuthorization(State(log, i).authorizations, k).Some?
    requires FindAuthorization(State(log, i).authorizations, k).value.ref == Some(ref)
    ensures log[i].body != Released(Some(k))
  {
    hide Apply, State, Folds, Releasable, FindOffer, FindAuthorization, NextCaps, ReleasedTerms, AcceptInFlight,
      Records,
      Declines;
    DeclinedStays(log, m, i, ref);
    CapsAt(log, i);
    if log[i].body == Released(Some(k)) {
      OpenAtRelease(State(log, i), k, log[i].t);
    }
  }

  lemma OpenAtRelease(bb: Blackboard, k: string, t: nat)
    requires Releasable(bb, k, t)
    ensures AuthorizedOffer(bb, k).Some? && AuthorizedOffer(bb, k).value.status == Open
  {
    hide FindAuthorization, AuthorizedOffer, ReleasedTerms;
  }

  // ---------------------------------------------------------------- closed cases

  /** A closed case stays as it was closed. */
  lemma {:induction false} TerminalStays(log: seq<Event>, i: nat, j: nat)
    requires i <= j <= |log| && Folds(log) && Terminal(State(log, i).status)
    ensures State(log, j).status == State(log, i).status
    decreases j - i
  {
    hide Apply, State, Folds, FindOffer, PutOffer, Without, Terminal;
    if i < j {
      TerminalStays(log, i, j - 1);
      Step(log, j - 1);
      RestrictionStep(State(log, j - 1), log[j - 1]);
    }
  }

  // ---------------------------------------------------------------- the offers on the board

  /** At most six offers, each with its own valid name, a revision and at most eight slots. */
  ghost predicate OffersOk(offers: seq<Offer>) {
    && |offers| <= MAX_OFFERS
    && (forall i | 0 <= i < |offers| ::
          IsOfferRef(offers[i].ref) && offers[i].revision >= 1 && |offers[i].slots| <= MAX_SLOTS)
    && (forall i, j | 0 <= i < j < |offers| :: offers[i].ref != offers[j].ref)
  }

  /** The first offer of this name, or the length. */
  function KeyAt(offers: seq<Offer>, ref: string): (k: nat)
    ensures k <= |offers| && (k < |offers| ==> offers[k].ref == ref)
    ensures forall i | 0 <= i < k :: offers[i].ref != ref
  {
    if offers == [] || offers[0].ref == ref then 0
    else
      var k := KeyAt(offers[1..], ref);
      assert forall i | 0 < i < k + 1 :: offers[i] == offers[1..][i - 1];
      k + 1
  }

  /** A known key keeps its place, and a new one goes to the end. */
  lemma {:induction false} PutAt(offers: seq<Offer>, o: Offer)
    ensures var k := KeyAt(offers, o.ref);
      PutOffer(offers, o) == if k < |offers| then offers[k := o] else offers + [o]
  {
    hide FindOffer;
    if offers != [] && offers[0].ref != o.ref {
      PutAt(offers[1..], o);
      var k := KeyAt(offers[1..], o.ref);
      PutStep(offers, o);
      if k < |offers[1..]| {
        assert offers[k + 1 := o] == [offers[0]] + offers[1..][k := o];
      } else {
        assert offers + [o] == [offers[0]] + (offers[1..] + [o]);
      }
    }
  }

  lemma PutStep(offers: seq<Offer>, o: Offer)
    requires offers != [] && offers[0].ref != o.ref
    ensures PutOffer(offers, o) == [offers[0]] + PutOffer(offers[1..], o)
    ensures KeyAt(offers, o.ref) == KeyAt(offers[1..], o.ref) + 1
  {
    hide FindOffer;
  }

  lemma KeyFound(offers: seq<Offer>, ref: string)
    requires FindOffer(offers, ref).Some?
    ensures KeyAt(offers, ref) < |offers|
  {
    hide KeyAt, FindOffer;
    assert FindOffer(offers, ref).value in offers;
  }

  lemma PutOfferOk(offers: seq<Offer>, o: Offer)
    requires OffersOk(offers) && IsOfferRef(o.ref) && o.revision >= 1 && |o.slots| <= MAX_SLOTS
    requires |PutOffer(offers, o)| <= MAX_OFFERS
    ensures OffersOk(PutOffer(offers, o))
  {
    hide IsOfferRef, FindOffer, PutOffer, KeyAt;
    PutAt(offers, o);
  }

  lemma FoundIn(offers: seq<Offer>, ref: string, o: Offer)
    requires OffersOk(offers) && FindOffer(offers, ref) == Some(o)
    ensures o.ref == ref && IsOfferRef(o.ref) && o.revision >= 1 && |o.slots| <= MAX_SLOTS
  {
    hide FindOffer, IsOfferRef;
  }

  /** In every log the fold takes, the board's offers are as the state's schema says. */
  lemma {:induction false} OffersBounded(log: seq<Event>, i: nat)
    requires i <= |log| && Folds(log)
    ensures OffersOk(State(log, i).offers)
  {
    hide Apply, State, Folds, OffersOk, FindOffer, PutOffer, IsOfferRef, Without;
    if i == 0 {
      NoCaps(log);
      NoOffers();
    } else {
      OffersBounded(log, i - 1);
      Step(log, i - 1);
      OffersStep(State(log, i - 1), log[i - 1]);
    }
  }

  lemma NoOffers()
    ensures OffersOk([])
  {}

  lemma OffersStep(bb: Blackboard, e: Event)
    requires Apply(bb, e).Some? && OffersOk(bb.offers)
    ensures OffersOk(Apply(bb, e).value.offers)
  {
    hide Apply, OffersOk, FindOffer, PutOffer, IsOfferRef, Without;
    RestrictionStep(bb, e);
    var next := Apply(bb, e).value;
    match e.body {
      case OfferRecorded(ref, revision, slots, expires) =>
        PutOfferOk(bb.offers, Offer(ref, revision, Unconfirmed(slots), Open, expires, None));
      case ReadbackUpdated(ref, _, _, _) =>
        var o: Offer, slots, hash :| FindOffer(bb.offers, ref) == Some(o) && |slots| == |o.slots|
          && next.offers == PutOffer(bb.offers, o.(slots := slots, termsHash := hash));
        PutKnown(bb.offers, ref, o, o.(slots := slots, termsHash := hash));
      case Verbatim(DeclineLine, _, offerRef) =>
        var o: Offer :| FindOffer(bb.offers, Name(offerRef)) == Some(o)
          && next.offers == PutOffer(bb.offers, o.(status := Declined));
        PutKnown(bb.offers, Name(offerRef), o, o.(status := Declined));
      case _ =>
    }
  }

  lemma PutKnown(offers: seq<Offer>, ref: string, o: Offer, o': Offer)
    requires OffersOk(offers) && FindOffer(offers, ref) == Some(o)
    requires o'.ref == o.ref && o'.revision == o.revision && |o'.slots| == |o.slots|
    ensures OffersOk(PutOffer(offers, o'))
  {
    hide FindOffer, PutOffer, IsOfferRef, KeyAt;
    FoundIn(offers, ref, o);
    KeyFound(offers, o'.ref);
    PutAt(offers, o');
    PutOfferOk(offers, o');
  }
}
