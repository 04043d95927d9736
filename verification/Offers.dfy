/**
 What stands on the board about an offer, in every log that the fold takes: its last recording, as the
 last read-back of it and the declines since have left it.
 */
module Offers {
  import opened Wrappers
  import opened Contract
  import opened Fold
  import opened Capabilities
  import opened Reductions
  import opened Restrictions
  import opened Rulings

  predicate ReadsBack(b: Body, ref: string) {
    b.ReadbackUpdated? && b.ref == ref
  }

  /** What an event makes of the offer of a name. */
  lemma OfferStep(bb: Blackboard, e: Event, ref: string, after: Offer)
    requires Apply(bb, e).Some? && FindOffer(Apply(bb, e).value.offers, ref) == Some(after)
    ensures Records(e.body, ref) ==> Fresh(after, ref, e.body.revision, e.body.slots, e.body.expires)
    ensures !Records(e.body, ref) ==>
      exists o :: FindOffer(bb.offers, ref) == Some(o) && after.ref == ref && after == (
        if ReadsBack(e.body, ref) then o.(slots := after.slots, termsHash := e.body.hash)
        else if Declines(e.body, ref) then o.(status := Declined)
        else o)
    ensures ReadsBack(e.body, ref) ==>
      exists o :: FindOffer(bb.offers, ref) == Some(o) && ReadBack(o, after, e.body.statuses, e.body.hash)
  {
    hide FindOffer, PutOffer, FindAuthorization, CardCurrent, IsOfferRef, PutApproval, OfferWithTerms,
      Without, ReleasedTerms, AcceptInFlight, Releasable, Edge, ReleasedAccepts;
    if ReadsBack(e.body, ref) {
      var o := FindOffer(bb.offers, ref).value;
      forall i | 0 <= i < |o.slots| ensures o.slots[i].field in e.body.statuses {
        assert o.slots[i].field in (set s | s in o.slots :: s.field);
      }
      assert ReadBack(o, after, e.body.statuses, e.body.hash);
    }
  }

  /** The offer as event `m` recorded it. */
  ghost predicate RecordedAs(b: Body, o: Offer) {
    && b.OfferRecorded? && o.ref == b.ref && o.revision == b.revision && o.expires == b.expires
    && |o.slots| == |b.slots|
    && forall n | 0 <= n < |o.slots| :: o.slots[n].field == b.slots[n].field && o.slots[n].value == b.slots[n].value
  }

  /** Each slot has the status given for its field, and the offer the terms given. */
  ghost predicate HeardAs(b: Body, o: Offer) {
    && b.ReadbackUpdated? && o.termsHash == b.hash
    && forall n | 0 <= n < |o.slots| ::
      o.slots[n].field in b.statuses && o.slots[n].status == b.statuses[o.slots[n].field]
  }

  ghost predicate NothingHeard(o: Offer) {
    o.termsHash == None && forall n | 0 <= n < |o.slots| :: o.slots[n].status == Unheard
  }

  /** After `m` no event did this to the offer. */
  ghost predicate NoneRecords(log: seq<Event>, m: nat, i: nat, ref: string)
    requires i <= |log|
  {
    forall k | m < k < i :: !Records(log[k].body, ref)
  }

  ghost predicate NoneReadsBack(log: seq<Event>, m: nat, i: nat, ref: string)
    requires i <= |log|
  {
    forall k | m < k < i :: !ReadsBack(log[k].body, ref)
  }

  ghost predicate SomeDeclines(log: seq<Event>, m: nat, i: nat, ref: string)
    requires i <= |log|
  {
    exists k :: m < k < i && Declines(log[k].body, ref)
  }

  lemma NoneAtFirst(log: seq<Event>, ref: string)
    ensures FindOffer(State(log, 0).offers, ref).None?
  {}

  /**
   An offer on the board is what its last recording said. Nothing of it is heard until a read-back says
   so, and then its slots and its terms are as the last read-back has them. It is open until a decline,
   and declined from then on.
   */
  lemma {:induction false} OfferStands(log: seq<Event>, i: nat, ref: string, o: Offer) returns (m: nat, r: nat)
    requires i <= |log| && Folds(log) && Named(State(log, i).offers, ref, o)
    ensures m <= r < i && RecordedAs(log[m].body, o) && o.ref == ref
    ensures NoneRecords(log, m, i, ref) && NoneReadsBack(log, r, i, ref)
    ensures if m == r then NothingHeard(o) else ReadsBack(log[r].body, ref) && HeardAs(log[r].body, o)
    ensures o.status == if SomeDeclines(log, m, i, ref) then Declined else Open
  {
    hide Apply, State, Folds, FindOffer, Named;
    NamedIs(State(log, i).offers, ref, o);
    if i == 0 {
      NoneAtFirst(log, ref);
    } else {
      Step(log, i - 1);
      var b := log[i - 1].body;
      OfferStep(State(log, i - 1), log[i - 1], ref, o);
      if Records(b, ref) {
        m, r := i - 1, i - 1;
      } else {
        var before :| FindOffer(State(log, i - 1).offers, ref) == Some(before);
        NamedIs(State(log, i - 1).offers, ref, before);
        m, r := OfferStands(log, i - 1, ref, before);
        if ReadsBack(b, ref) {
          r := i - 1;
        }
        if SomeDeclines(log, m, i - 1, ref) {
          var k :| m < k < i - 1 && Declines(log[k].body, ref);
          assert SomeDeclines(log, m, i, ref);
        }
      }
    }
  }
}
