/**
 What the fold makes of each event: when it takes it, and what the board is after it, field by field.
 */
module Reductions {
  import opened Wrappers
  import opened Contract
  import opened Fold
  import opened Rulings
  import R = Relays

  /** The board after the event, with everything but its place and time as given. */
  ghost predicate Next(bb: Blackboard, e: Event, next: Blackboard) {
    Apply(bb, e) == Some(next.(seqNo := e.seqNo, t := e.t))
  }

  // ---------------------------------------------------------------- offers

  /** The offer stands where the first of its name stood, or last. */
  ghost predicate Placed(before: seq<Offer>, after: seq<Offer>, o: Offer) {
    || (exists k: nat :: k < |before| && NamedAt(before, o.ref, before[k], k) && after == before[k := o])
    || ((forall k | 0 <= k < |before| :: before[k].ref != o.ref) && after == before + [o])
  }

  lemma {:induction false} PutPlaces(offers: seq<Offer>, o: Offer)
    ensures Placed(offers, PutOffer(offers, o), o)
    ensures |PutOffer(offers, o)| == |offers| + if exists k :: 0 <= k < |offers| && offers[k].ref == o.ref then 0 else 1
  {
    if offers == [] {
    } else if offers[0].ref == o.ref {
      assert NamedAt(offers, o.ref, offers[0], 0);
      assert offers[0 := o] == [o] + offers[1..];
    } else {
      PutPlaces(offers[1..], o);
      PlacedNext(offers, PutOffer(offers[1..], o), o);
      if k :| 0 <= k < |offers| && offers[k].ref == o.ref {
        assert offers[1..][k - 1].ref == o.ref;
      }
      if k :| 0 <= k < |offers[1..]| && offers[1..][k].ref == o.ref {
        assert offers[k + 1].ref == o.ref;
      }
    }
  }

  lemma PlacedNext(offers: seq<Offer>, rest: seq<Offer>, o: Offer)
    requires offers != [] && offers[0].ref != o.ref && Placed(offers[1..], rest, o)
    ensures Placed(offers, [offers[0]] + rest, o)
  {
    if k: nat :| k < |offers[1..]| && NamedAt(offers[1..], o.ref, offers[1..][k], k) && rest == offers[1..][k := o] {
      NamedNext(offers, o.ref, offers[k + 1], k);
      assert [offers[0]] + rest == offers[k + 1 := o];
    } else {
      assert [offers[0]] + rest == offers + [o];
      assert forall k | 0 < k < |offers| :: offers[k] == offers[1..][k - 1];
    }
  }

  lemma {:induction false} NotNamed(offers: seq<Offer>, ref: string)
    ensures FindOffer(offers, ref).None? <==> forall k | 0 <= k < |offers| :: offers[k].ref != ref
  {
    if offers != [] && offers[0].ref != ref {
      NotNamed(offers[1..], ref);
      if forall k | 0 <= k < |offers[1..]| :: offers[1..][k].ref != ref {
        forall k | 0 <= k < |offers| ensures offers[k].ref != ref {
          assert k > 0 ==> offers[k] == offers[1..][k - 1];
        }
      }
    }
  }

  /** An offer's name: up to 24 letters, digits, underscores and hyphens. */
  predicate OfferName(ref: string) {
    1 <= |ref| <= 24 && forall i | 0 <= i < |ref| :: R.Letter(ref[i]) || Capital(ref[i]) || ref[i] in "0123456789_-"
  }

  predicate Capital(c: char) {
    c in "ABCDEFGHIJKLMNOPQRSTUVWXYZ"
  }

  lemma NameChars(c: char)
    ensures R.Letter(c) || Capital(c) || c in "0123456789_-" <==>
      'a' <= c <= 'z' || 'A' <= c <= 'Z' || '0' <= c <= '9' || c == '_' || c == '-'
  {
    R.LetterIs(c);
    CapitalIs(c);
    R.DigitIs(c);
    assert c in "0123456789_-" <==> c in "0123456789" || c == '_' || c == '-' by { Joined(c); }
  }

  lemma Joined(c: char)
    ensures c in "0123456789_-" <==> c in "0123456789" || c == '_' || c == '-'
  {
    assert "0123456789_-" == "0123456789" + ['_', '-'];
  }

  lemma CapitalIs(c: char)
    ensures Capital(c) <==> 'A' <= c <= 'Z'
  {
    if 'A' <= c <= 'Z' {
      R.CapitalAt(c as int - 'A' as int);
    }
    if Capital(c) {
      var k :| 0 <= k < 26 && "ABCDEFGHIJKLMNOPQRSTUVWXYZ"[k] == c;
      R.CapitalAt(k);
    }
  }

  lemma OfferNameIs(ref: string)
    ensures OfferName(ref) <==> IsOfferRef(ref)
  {
    hide R.Letter, Capital;
    forall i | 0 <= i < |ref|
      ensures R.Letter(ref[i]) || Capital(ref[i]) || ref[i] in "0123456789_-" <==>
        'a' <= ref[i] <= 'z' || 'A' <= ref[i] <= 'Z' || '0' <= ref[i] <= '9' || ref[i] == '_' || ref[i] == '-'
    {
      NameChars(ref[i]);
    }
  }

  /** The offer as recorded: open, unbound, nothing heard yet. */
  ghost predicate Fresh(o: Offer, ref: string, revision: int, slots: seq<Slot>, expires: Option<int>) {
    && o.ref == ref && o.revision == revision && o.status == Open && o.expires == expires && o.termsHash == None
    && |o.slots| == |slots|
    && forall i | 0 <= i < |slots| :: o.slots[i] == Slot(slots[i].field, slots[i].value, Unheard)
  }

  /** An offer is recorded if it is valid, newer than the one it replaces, and there is room. */
  lemma OfferRecording(bb: Blackboard, e: Event)
    requires e.body.OfferRecorded?
    ensures var b := e.body;
      Apply(bb, e).Some? <==>
        && OfferName(b.ref) && b.revision >= 1 && |b.slots| <= 8
        && (forall o | Named(bb.offers, b.ref, o) :: o.revision < b.revision)
        && (|bb.offers| < 6 || (|bb.offers| == 6 && exists k :: 0 <= k < |bb.offers| && bb.offers[k].ref == b.ref))
    ensures Apply(bb, e).Some? ==>
      var b := e.body;
      exists o, offers ::
        Fresh(o, b.ref, b.revision, b.slots, b.expires) && Placed(bb.offers, offers, o)
        && Next(bb, e, bb.(offers := offers))
  {
    hide FindOffer, PutOffer, IsOfferRef, Placed, OfferName, Named;
    var b := e.body;
    OfferNameIs(b.ref);
    var found := FindOffer(bb.offers, b.ref);
    NotNamed(bb.offers, b.ref);
    forall o ensures Named(bb.offers, b.ref, o) <==> found == Some(o) {
      NamedIs(bb.offers, b.ref, o);
    }
    if b.revision >= 1 {
      var o := Offer(b.ref, b.revision, Unconfirmed(b.slots), Open, b.expires, None);
      PutPlaces(bb.offers, o);
      assert Fresh(o, b.ref, b.revision, b.slots, b.expires);
    }
  }

  /** The offer as read back: each slot has the status given for its field, and the offer the terms given. */
  ghost predicate ReadBack(before: Offer, after: Offer, statuses: map<string, SlotStatus>, hash: Option<string>) {
    && after.ref == before.ref && after.revision == before.revision && after.status == before.status
    && after.expires == before.expires && after.termsHash == hash
    && |after.slots| == |before.slots|
    && forall i | 0 <= i < |before.slots| ::
      && before.slots[i].field in statuses
      && after.slots[i] == Slot(before.slots[i].field, before.slots[i].value, statuses[before.slots[i].field])
  }

  /** The statuses are those of the offer's fields, no more and no fewer. */
  ghost predicate Covers(o: Offer, statuses: map<string, SlotStatus>) {
    && (forall s | s in o.slots :: s.field in statuses)
    && (forall f | f in statuses :: exists s :: s in o.slots && s.field == f)
  }

  lemma CoversIs(o: Offer, statuses: map<string, SlotStatus>)
    ensures Covers(o, statuses) <==> (set s | s in o.slots :: s.field) == statuses.Keys
  {
    var fields := set s | s in o.slots :: s.field;
    if Covers(o, statuses) {
      assert fields == statuses.Keys;
    }
    if fields == statuses.Keys {
      forall s | s in o.slots ensures s.field in statuses {
        assert s.field in fields;
      }
      forall f | f in statuses ensures exists s :: s in o.slots && s.field == f {
        assert f in fields;
      }
    }
  }

  /** A read-back is of the recorded revision and of exactly its fields. */
  lemma ReadingBack(bb: Blackboard, e: Event)
    requires e.body.ReadbackUpdated?
    ensures var b := e.body;
      Apply(bb, e).Some? <==>
        exists o :: Named(bb.offers, b.ref, o) && o.revision == b.revision && Covers(o, b.statuses)
    ensures Apply(bb, e).Some? ==>
      var b := e.body;
      exists o, o', offers ::
        Named(bb.offers, b.ref, o) && ReadBack(o, o', b.statuses, b.hash) && Placed(bb.offers, offers, o')
        && Next(bb, e, bb.(offers := offers))
  {
    hide FindOffer, PutOffer, Placed, Named, Covers;
    var b := e.body;
    var found := FindOffer(bb.offers, b.ref);
    forall o ensures Named(bb.offers, b.ref, o) <==> found == Some(o) {
      NamedIs(bb.offers, b.ref, o);
    }
    if found.Some? {
      CoversIs(found.value, b.statuses);
      if Apply(bb, e).Some? {
        ReadingMakes(bb, e, found.value);
      }
    }
  }

  lemma ReadingMakes(bb: Blackboard, e: Event, o: Offer)
    requires e.body.ReadbackUpdated? && Apply(bb, e).Some? && FindOffer(bb.offers, e.body.ref) == Some(o)
    requires Covers(o, e.body.statuses)
    ensures var b := e.body;
      exists o', offers ::
        ReadBack(o, o', b.statuses, b.hash) && Placed(bb.offers, offers, o') && Next(bb, e, bb.(offers := offers))
  {
    hide FindOffer, PutOffer, Placed;
    var b := e.body;
    var slots := seq(|o.slots|, i requires 0 <= i < |o.slots| =>
      o.slots[i].(status := if o.slots[i].field in b.statuses then b.statuses[o.slots[i].field] else Unheard));
    var o' := o.(slots := slots, termsHash := b.hash);
    PutPlaces(bb.offers, o');
    forall i | 0 <= i < |o.slots| ensures o.slots[i].field in b.statuses {
      assert o.slots[i] in o.slots;
    }
    assert ReadBack(o, o', b.statuses, b.hash);
    assert Next(bb, e, bb.(offers := PutOffer(bb.offers, o')));
  }

  // ---------------------------------------------------------------- fences

  /** The fences that are not this one, in their order. */
  lemma {:induction false} FencesLeft(fences: seq<Fence>, f: Fence, id: string)
    ensures Without([], id) == []
    ensures Without(fences + [f], id) == Without(fences, id) + if f.id == id then [] else [f]
  {
    if fences == [] {
      assert [] + [f] == [f] && [f][1..] == [];
    } else {
      assert (fences + [f])[1..] == fences[1..] + [f];
      FencesLeft(fences[1..], f, id);
    }
  }

  /** A fence is added, or all of its name are taken down. */
  lemma Fencing(bb: Blackboard, e: Event)
    requires e.body.FenceChanged?
    ensures Apply(bb, e).Some? <==> e.body.op == Raised || e.body.op == Cleared
    ensures e.body.op == Raised ==>
      Next(bb, e, bb.(fences := bb.fences + [Fence(e.body.fence, e.body.utt, e.seqNo)]))
    ensures e.body.op == Cleared ==> Next(bb, e, bb.(fences := Without(bb.fences, e.body.fence)))
  {
    hide Without;
  }

  // ---------------------------------------------------------------- epochs and mandates

  /** An epoch moves forward; a decision's own epoch takes the mandate decided in the last one along. */
  lemma Bumping(bb: Blackboard, e: Event)
    requires e.body.EpochBumped?
    ensures Apply(bb, e).Some? <==> e.body.epochNew > bb.epoch
    ensures Apply(bb, e).Some? ==>
      var m, moved := bb.mandate, e.body.reason == MandateWasDecided && bb.mandate.Some?
        && bb.mandate.value.status in [MandateGranted, MandateDenied, MandateRevoked]
        && bb.mandate.value.epoch == bb.epoch;
      Next(bb, e, bb.(epoch := e.body.epochNew,
                      mandate := if moved then Some(m.value.(epoch := e.body.epochNew)) else m))
  {}

  lemma Proposing(bb: Blackboard, e: Event)
    requires e.body.MandateProposed?
    ensures Apply(bb, e).Some? <==> e.body.mandate.epoch == bb.epoch
    ensures Apply(bb, e).Some? ==> Next(bb, e, bb.(mandate := Some(e.body.mandate)))
  {}

  /** The proposed mandate of this epoch is decided, by its id and hash. */
  lemma DecidingMandate(bb: Blackboard, e: Event)
    requires e.body.MandateDecided?
    ensures Apply(bb, e).Some? <==>
      && bb.mandate.Some? && bb.mandate.value.id == e.body.mandateId && bb.mandate.value.hash == e.body.mandateHash
      && bb.mandate.value.status == Proposed && bb.mandate.value.epoch == bb.epoch
    ensures Apply(bb, e).Some? ==>
      exists m: Mandate ::
        && m.status == (match e.body.decision case Granted => MandateGranted case Denied => MandateDenied)
        && m.decidedBy == Some(e.body.who)
        && m == bb.mandate.value.(status := m.status, decidedBy := m.decidedBy)
        && Next(bb, e, bb.(mandate := Some(m)))
  {
    if Apply(bb, e).Some? {
      var m := bb.mandate.value.(
        status := if e.body.decision == Granted then MandateGranted else MandateDenied, decidedBy := Some(e.body.who));
      assert Next(bb, e, bb.(mandate := Some(m)));
    }
  }

  /** A post is for the card that is pending or the mandate that is proposed, in this epoch. */
  lemma Posting(bb: Blackboard, e: Event)
    requires e.body.ApprovalPosted?
    ensures var p := e.body.post;
      Apply(bb, e).Some? <==>
        match p.subject
        case OfApproval =>
          && bb.pending.Some? && bb.pending.value.id == p.id && bb.pending.value.termsHash == p.hash
          && bb.pending.value.epoch == bb.epoch && p.epoch == bb.epoch
        case OfMandate =>
          && bb.mandate.Some? && bb.mandate.value.status == Proposed
          && bb.mandate.value.id == p.id && bb.mandate.value.hash == p.hash
          && bb.mandate.value.epoch == bb.epoch && p.epoch == bb.epoch
    ensures Apply(bb, e).Some? ==> Next(bb, e, bb)
  {}

  // ---------------------------------------------------------------- cards

  lemma Requesting(bb: Blackboard, e: Event)
    requires e.body.ApprovalRequested?
    ensures Apply(bb, e).Some? <==> Offered(bb, e.body.card) && e.body.card.epoch == bb.epoch
    ensures Apply(bb, e).Some? ==> Next(bb, e, bb.(pending := Some(e.body.card)))
  {
    hide CardCurrent, Offered;
    CurrentCard(bb, e.body.card);
  }

  /** The first approval with this id. */
  ghost predicate KeptAt(approvals: seq<Approval>, id: string, k: nat) {
    k < |approvals| && approvals[k].id == id && forall j | 0 <= j < k :: approvals[j].id != id
  }

  /** The approval takes the place of one with its id, or comes last. */
  ghost predicate Kept(before: seq<Approval>, after: seq<Approval>, a: Approval) {
    || (exists k: nat :: KeptAt(before, a.id, k) && after == before[k := a])
    || ((forall k | 0 <= k < |before| :: before[k].id != a.id) && after == before + [a])
  }

  lemma {:induction false} PutKeeps(approvals: seq<Approval>, a: Approval)
    ensures Kept(approvals, PutApproval(approvals, a), a)
  {
    if approvals == [] {
    } else if approvals[0].id == a.id {
      assert KeptAt(approvals, a.id, 0);
      assert approvals[0 := a] == [a] + approvals[1..];
    } else {
      PutKeeps(approvals[1..], a);
      KeptNext(approvals, PutApproval(approvals[1..], a), a);
    }
  }

  lemma KeptNext(approvals: seq<Approval>, rest: seq<Approval>, a: Approval)
    requires approvals != [] && approvals[0].id != a.id && Kept(approvals[1..], rest, a)
    ensures Kept(approvals, [approvals[0]] + rest, a)
  {
    assert forall j | 0 < j < |approvals| :: approvals[j] == approvals[1..][j - 1];
    if k: nat :| KeptAt(approvals[1..], a.id, k) && rest == approvals[1..][k := a] {
      assert KeptAt(approvals, a.id, k + 1);
      assert [approvals[0]] + rest == approvals[k + 1 := a];
    } else {
      assert [approvals[0]] + rest == approvals + [a];
    }
  }

  /** The pending card is decided while it stands: an approval or denial of its terms until it expires. */
  lemma DecidingCard(bb: Blackboard, e: Event)
    requires e.body.ApprovalDecided?
    ensures Apply(bb, e).Some? <==>
      && bb.pending.Some? && bb.pending.value.id == e.body.approvalId && bb.pending.value.epoch == bb.epoch
      && e.t < bb.pending.value.expires && Offered(bb, bb.pending.value)
    ensures Apply(bb, e).Some? ==>
      var card := bb.pending.value;
      exists a: Approval, approvals ::
        && a.id == card.id && a.decision == e.body.decision && a.who == e.body.who && a.termsHash == card.termsHash
        && a.epoch == card.epoch && a.expires == Some(card.expires)
        && Kept(bb.approvals, approvals, a)
        && Next(bb, e, bb.(pending := None, approvals := approvals))
  {
    hide CardCurrent, Offered, PutApproval, Kept;
    if bb.pending.Some? {
      CurrentCard(bb, bb.pending.value);
      var a := ApprovalOf(bb.pending.value, e.body.approvalId, e.body.decision, e.body.who);
      PutKeeps(bb.approvals, a);
      if Apply(bb, e).Some? {
        assert Next(bb, e, bb.(pending := None, approvals := PutApproval(bb.approvals, a)));
      }
    }
  }

  // ---------------------------------------------------------------- capabilities

  /** The first offer bound to these terms. */
  ghost predicate BoundAt(offers: seq<Offer>, hash: string, k: nat) {
    && k < |offers| && offers[k].termsHash == Some(hash)
    && forall j | 0 <= j < k :: offers[j].termsHash != Some(hash)
  }

  lemma {:induction false} BoundIs(offers: seq<Offer>, hash: string)
    ensures OfferWithTerms(offers, hash).None? <==> forall k | 0 <= k < |offers| :: offers[k].termsHash != Some(hash)
    ensures forall k: nat :: BoundAt(offers, hash, k) ==> OfferWithTerms(offers, hash) == Some(offers[k])
    ensures OfferWithTerms(offers, hash).Some? ==>
      exists k: nat :: BoundAt(offers, hash, k) && OfferWithTerms(offers, hash).value == offers[k]
  {
    if offers == [] {
    } else if offers[0].termsHash == Some(hash) {
      assert BoundAt(offers, hash, 0);
    } else {
      BoundIs(offers[1..], hash);
      forall k: nat ensures BoundAt(offers, hash, k + 1) <==> BoundAt(offers[1..], hash, k) {
        BoundNext(offers, hash, k);
      }
      forall k: nat | BoundAt(offers, hash, k) ensures OfferWithTerms(offers, hash) == Some(offers[k]) {
        assert k > 0 && BoundAt(offers[1..], hash, k - 1);
      }
      if OfferWithTerms(offers, hash).Some? {
        var k: nat :| BoundAt(offers[1..], hash, k) && OfferWithTerms(offers[1..], hash).value == offers[1..][k];
        assert BoundAt(offers, hash, k + 1);
      } else {
        assert forall k | 0 < k < |offers| :: offers[k] == offers[1..][k - 1];
      }
    }
  }

  lemma BoundNext(offers: seq<Offer>, hash: string, k: nat)
    requires offers != [] && offers[0].termsHash != Some(hash)
    ensures BoundAt(offers, hash, k + 1) <==> BoundAt(offers[1..], hash, k)
  {
    assert forall j | 0 < j < |offers| :: offers[j] == offers[1..][j - 1];
    if BoundAt(offers, hash, k + 1) {
      forall j | 0 <= j < k ensures offers[1..][j].termsHash != Some(hash) {
        assert offers[j + 1].termsHash != Some(hash);
      }
    }
  }

  /** The name of the first offer bound to the terms, if there is one. */
  ghost predicate BoundName(offers: seq<Offer>, hash: string, ref: Option<string>) {
    match ref
    case None => forall k | 0 <= k < |offers| :: offers[k].termsHash != Some(hash)
    case Some(name) => exists k: nat :: BoundAt(offers, hash, k) && offers[k].ref == name
  }

  /**
   A capability is authorized if it is new, of this epoch and unexpired; for an accept, the terms are bound
   and not accepted yet, and no other accept is in flight.
   */
  lemma Authorizing(bb: Blackboard, e: Event)
    requires e.body.ActionAuthorized?
    ensures var cap := e.body.cap;
      Apply(bb, e).Some? <==>
        && cap.intent == e.body.intent && cap.epoch == bb.epoch && !cap.consumed && cap.id !in bb.capabilities
        && e.t < cap.expires
        && (cap.intent == AcceptOffer ==>
              && Unaccepted(bb, cap.termsHash) && NoneInFlight(bb)
              && exists k :: 0 <= k < |bb.offers| && bb.offers[k].termsHash == Some(cap.termsHash))
    ensures Apply(bb, e).Some? ==>
      var cap := e.body.cap;
      exists ref ::
        && BoundName(bb.offers, cap.termsHash, ref)
        && Next(bb, e, bb.(
             authorizations := bb.authorizations + [Authorization(cap.intent, ref, cap.termsHash, cap.id, cap.epoch)],
             capabilities := bb.capabilities[cap.id := cap]))
  {
    hide OfferWithTerms, ReleasedTerms, AcceptInFlight, Unaccepted, NoneInFlight;
    var cap := e.body.cap;
    CapsAre(bb, cap.termsHash);
    BoundIs(bb.offers, cap.termsHash);
    if Apply(bb, e).Some? {
      var offer := OfferWithTerms(bb.offers, cap.termsHash);
      var ref := if offer.Some? then Some(offer.value.ref) else None;
      assert BoundName(bb.offers, cap.termsHash, ref);
      assert Next(bb, e, bb.(
        authorizations := bb.authorizations + [Authorization(cap.intent, ref, cap.termsHash, cap.id, cap.epoch)],
        capabilities := bb.capabilities[cap.id := cap]));
    }
  }

  /** Neither released nor revoked. */
  predicate Live(bb: Blackboard, k: string) {
    k in bb.capabilities && !bb.capabilities[k].consumed
  }

  /** A missing payload value is looked up by the name Python gives it. */
  function KeyOf(o: Option<string>): string
  {
    if o.Some? then o.value else "None"
  }

  /** An accept line names a live capability; a decline closes the offer it names. */
  lemma Queueing(bb: Blackboard, e: Event)
    requires e.body.Verbatim?
    ensures var b := e.body;
      Apply(bb, e).Some? <==>
        match b.kind
        case AcceptLine => Live(bb, KeyOf(b.capId))
        case DeclineLine => exists o :: Named(bb.offers, KeyOf(b.offerRef), o)
        case OtherLine => true
    ensures Apply(bb, e).Some? && e.body.kind != DeclineLine ==> Next(bb, e, bb)
    ensures Apply(bb, e).Some? && e.body.kind == DeclineLine ==>
      exists o: Offer, o': Offer, offers ::
        && Named(bb.offers, KeyOf(e.body.offerRef), o) && o'.status == Declined && o' == o.(status := o'.status)
        && Placed(bb.offers, offers, o') && Next(bb, e, bb.(offers := offers))
  {
    hide FindOffer, PutOffer, Placed, Named;
    var ref := KeyOf(e.body.offerRef);
    var found := FindOffer(bb.offers, ref);
    forall o ensures Named(bb.offers, ref, o) <==> found == Some(o) {
      NamedIs(bb.offers, ref, o);
    }
    if found.Some? && e.body.kind == DeclineLine {
      var o' := found.value.(status := Declined);
      PutPlaces(bb.offers, o');
      assert Next(bb, e, bb.(offers := PutOffer(bb.offers, o')));
    }
  }

  /** The first authorization of a capability. */
  ghost predicate AuthorizedAt(auths: seq<Authorization>, k: string, i: nat) {
    i < |auths| && auths[i].capId == k && forall j | 0 <= j < i :: auths[j].capId != k
  }

  lemma {:induction false} AuthorizedIs(auths: seq<Authorization>, k: string, i: nat)
    ensures AuthorizedAt(auths, k, i) ==> FindAuthorization(auths, k) == Some(auths[i])
  {
    if auths != [] && auths[0].capId != k && AuthorizedAt(auths, k, i) {
      forall j | 0 <= j < i - 1 ensures auths[1..][j].capId != k {
        assert auths[j + 1].capId != k;
      }
      AuthorizedIs(auths[1..], k, i - 1);
    }
  }

  lemma {:induction false} AuthorizedFound(auths: seq<Authorization>, k: string) returns (i: nat)
    requires FindAuthorization(auths, k).Some?
    ensures AuthorizedAt(auths, k, i) && auths[i] == FindAuthorization(auths, k).value
  {
    if auths[0].capId == k {
      i := 0;
    } else {
      i := AuthorizedFound(auths[1..], k);
      i := i + 1;
      assert forall j | 0 < j < |auths| :: auths[j] == auths[1..][j - 1];
    }
  }

  /** The name of the offer a capability was authorized for. */
  function OfferNamed(auth: Authorization): string
  {
    match auth.ref
    case None => ""
    case Some(ref) => ref
  }

  /** The offer the capability was authorized for is open and still has its terms. */
  ghost predicate StillOpen(bb: Blackboard, k: string, hash: string) {
    exists i: nat, o ::
      && AuthorizedAt(bb.authorizations, k, i) && Named(bb.offers, OfferNamed(bb.authorizations[i]), o)
      && o.status == Open && o.termsHash == Some(hash)
  }

  lemma AuthorizedOfferIs(bb: Blackboard, k: string, i: nat, o: Offer)
    requires AuthorizedAt(bb.authorizations, k, i)
    ensures FindAuthorization(bb.authorizations, k).Some?
    ensures AuthorizedOffer(bb, k) == Some(o) <==> Named(bb.offers, OfferNamed(bb.authorizations[i]), o)
  {
    hide FindOffer, FindAuthorization, Named;
    AuthorizedIs(bb.authorizations, k, i);
    NamedIs(bb.offers, OfferNamed(bb.authorizations[i]), o);
  }

  lemma StillOpenIs(bb: Blackboard, k: string, hash: string)
    ensures StillOpen(bb, k, hash) <==>
      && FindAuthorization(bb.authorizations, k).Some?
      && AuthorizedOffer(bb, k).Some? && AuthorizedOffer(bb, k).value.status == Open
      && AuthorizedOffer(bb, k).value.termsHash == Some(hash)
  {
    hide FindAuthorization, Named, AuthorizedOffer;
    if FindAuthorization(bb.authorizations, k).Some? && AuthorizedOffer(bb, k).Some? {
      var i := AuthorizedFound(bb.authorizations, k);
      AuthorizedOfferIs(bb, k, i, AuthorizedOffer(bb, k).value);
    }
    if StillOpen(bb, k, hash) {
      var i: nat, o :|
        && AuthorizedAt(bb.authorizations, k, i) && Named(bb.offers, OfferNamed(bb.authorizations[i]), o)
        && o.status == Open && o.termsHash == Some(hash);
      AuthorizedOfferIs(bb, k, i, o);
    }
  }

  /**
   A capability is released while it is live, of this epoch and unexpired, without a fence, for an open offer
   with its terms, and an accept only if its terms were not accepted yet. A release may also name none.
   */
  lemma Releasing(bb: Blackboard, e: Event)
    requires e.body.Released?
    ensures e.body.capId == None ==> Next(bb, e, bb)
    ensures e.body.capId.Some? ==>
      var k := e.body.capId.value;
      && (Apply(bb, e).Some? <==>
            && Live(bb, k) && bb.fences == []
            && var cap := bb.capabilities[k];
               && cap.epoch == bb.epoch && e.t < cap.expires && StillOpen(bb, k, cap.termsHash)
               && (cap.intent == AcceptOffer ==> Unaccepted(bb, cap.termsHash)))
      && (Apply(bb, e).Some? ==>
            && k in bb.capabilities
            && Next(bb, e, bb.(capabilities := bb.capabilities[k := bb.capabilities[k].(consumed := true)])))
  {
    hide FindOffer, FindAuthorization, AuthorizedOffer, ReleasedTerms, Unaccepted, StillOpen;
    if e.body.capId.Some? && e.body.capId.value in bb.capabilities {
      var hash := bb.capabilities[e.body.capId.value].termsHash;
      StillOpenIs(bb, e.body.capId.value, hash);
      CapsAre(bb, hash);
    }
  }

  /** A live capability is taken off the board. */
  lemma Revoking(bb: Blackboard, e: Event)
    requires e.body.Revoked?
    ensures e.body.capId == None ==> Next(bb, e, bb)
    ensures e.body.capId.Some? ==>
      && (Apply(bb, e).Some? <==> Live(bb, e.body.capId.value))
      && (Apply(bb, e).Some? ==>
            exists caps ::
              && (forall k :: k in caps <==> k in bb.capabilities && k != e.body.capId.value)
              && (forall k | k in caps :: caps[k] == bb.capabilities[k])
              && Next(bb, e, bb.(capabilities := caps)))
  {
    if e.body.capId.Some? && Apply(bb, e).Some? {
      var caps := bb.capabilities - {e.body.capId.value};
      assert Next(bb, e, bb.(capabilities := caps));
    }
  }

  // ---------------------------------------------------------------- the case

  /** The steps of a case, but for its being abandoned. */
  function Steps(was: CaseStatus): set<CaseStatus>
  {
    match was
    case Intake => {Mandated, InCall}
    case Mandated => {InCall}
    case InCall => {AwaitingApproval, CommitAuthorized, VerifiedNoDeal, ClosedNoAction}
    case AwaitingApproval => {InCall, NeedsReplan}
    case CommitAuthorized => {Committed, NeedsReplan}
    case Committed => {EvidencePending, Escalated}
    case EvidencePending => {VerifiedComplete, NeedsReplan}
    case NeedsReplan => {InCall, Escalated}
    case VerifiedComplete => {}
    case VerifiedNoDeal => {}
    case Escalated => {}
    case Abandoned => {}
    case ClosedNoAction => {}
  }

  lemma StepsAre(was: CaseStatus, to: CaseStatus)
    ensures to in Steps(was) <==> Edge(was, to)
  {}

  /**
   A case takes a step, or is abandoned before its end. It ends with a deal only if it was found complete
   and one accept was released, and without a deal only if none was.
   */
  lemma Stepping(bb: Blackboard, e: Event)
    requires e.body.StatusChanged?
    ensures var was, to := e.body.previous, e.body.next;
      Apply(bb, e).Some? <==>
        && was == bb.status
        && (to in Steps(was)
            || (to == Abandoned && was !in [VerifiedComplete, VerifiedNoDeal, Escalated, Abandoned, ClosedNoAction]))
        && (to == VerifiedComplete ==> bb.completion == Some(true) && OneAccepted(bb))
        && (to == VerifiedNoDeal ==> bb.completion == Some(true) && NoAcceptYet(bb))
    ensures Apply(bb, e).Some? ==> Next(bb, e, bb.(status := e.body.next))
  {
    hide Edge, Steps, OneAccepted, NoAcceptYet, ReleasedAccepts;
    StepsAre(e.body.previous, e.body.next);
    AcceptedAre(bb);
  }

  ghost predicate Accepted(bb: Blackboard, k: string) {
    k in bb.capabilities && bb.capabilities[k].intent == AcceptOffer && bb.capabilities[k].consumed
  }

  /** One accept was released, and no other. */
  ghost predicate OneAccepted(bb: Blackboard) {
    exists k :: Accepted(bb, k) && forall l | Accepted(bb, l) :: l == k
  }

  lemma AcceptedAre(bb: Blackboard)
    ensures |ReleasedAccepts(bb.capabilities)| == 1 <==> OneAccepted(bb)
    ensures |ReleasedAccepts(bb.capabilities)| == 0 <==> NoAcceptYet(bb)
  {
    var accepts := ReleasedAccepts(bb.capabilities);
    assert forall k :: k in accepts <==> Accepted(bb, k);
    if k :| Accepted(bb, k) && forall l | Accepted(bb, l) :: l == k {
      assert accepts == {k};
    }
    if |accepts| == 1 {
      var k :| k in accepts;
      OnlyMember(accepts, k);
    }
    if NoAcceptYet(bb) {
      assert accepts == {};
    }
    if |accepts| == 0 {
      assert accepts == {};
      forall k | k in bb.capabilities && bb.capabilities[k].intent == AcceptOffer
        ensures !bb.capabilities[k].consumed
      {
        assert k !in accepts;
      }
    }
  }

  lemma OnlyMember<T>(s: set<T>, x: T)
    requires x in s && |s| == 1
    ensures forall y | y in s :: y == x
  {
    assert |s - {x}| == 0;
  }

  /** The rest changes nothing but the completion. */
  lemma Recording(bb: Blackboard, e: Event)
    ensures e.body.CompletionDecided? ==> Next(bb, e, bb.(completion := Some(e.body.ok)))
    ensures e.body.SessionStarted? || e.body.SessionEnded? ==> Next(bb, e, bb)
    ensures e.body.Record? ==> (Apply(bb, e).Some? <==> e.body.joins)
    ensures e.body == Record(e.body.Record? && e.body.derived, true) ==> Next(bb, e, bb)
  {}
}
