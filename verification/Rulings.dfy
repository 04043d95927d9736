/**
 When the rules allow, when they refuse, and why: for each rule the checks it makes, in order, written
 out. The first check that fails is the reason of the refusal.
 */
module Rulings {
  import opened Wrappers
  import opened Contract
  import opened Fold
  import opened Guard
  import opened Authority

  /** A condition, and the reason given when it fails. */
  datatype Check = Check(holds: bool, why: Denial)

  ghost predicate AllHold(checks: seq<Check>) {
    forall k | 0 <= k < |checks| :: checks[k].holds
  }

  /** The first check that fails is this one. */
  ghost predicate Fails(checks: seq<Check>, why: Denial) {
    exists k: nat :: k < |checks| && FailsAt(checks, k) && checks[k].why == why
  }

  ghost predicate FailsAt(checks: seq<Check>, k: nat)
    requires k < |checks|
  {
    !checks[k].holds && forall j | 0 <= j < k :: checks[j].holds
  }

  /** The first check comes before the rest. */
  lemma FirstFails(check: Check, rest: seq<Check>, why: Denial)
    ensures AllHold([check] + rest) <==> check.holds && AllHold(rest)
    ensures Fails([check] + rest, why) <==> if check.holds then Fails(rest, why) else check.why == why
  {
    hide Fails;
    var all := [check] + rest;
    assert all[0] == check && forall k | 0 <= k < |rest| :: rest[k] == all[k + 1];
    if !check.holds {
      FailsFirst(all, why);
    } else {
      FailsLater(check, rest, why);
    }
  }

  lemma FailsFirst(all: seq<Check>, why: Denial)
    requires all != [] && !all[0].holds
    ensures Fails(all, why) <==> all[0].why == why
  {
    assert FailsAt(all, 0);
  }

  lemma FailsLater(check: Check, rest: seq<Check>, why: Denial)
    requires check.holds
    ensures Fails([check] + rest, why) <==> Fails(rest, why)
  {
    hide FailsAt;
    var all := [check] + rest;
    forall k: nat | k < |rest| ensures FailsAt(rest, k) <==> FailsAt(all, k + 1) {
      FailsNext(check, rest, k);
    }
    if k: nat :| k < |all| && FailsAt(all, k) && all[k].why == why {
      NotFirst(check, rest, k);
      assert FailsAt(rest, k - 1);
    }
    if k: nat :| k < |rest| && FailsAt(rest, k) && rest[k].why == why {
      assert FailsAt(all, k + 1);
    }
  }

  lemma FailsNext(check: Check, rest: seq<Check>, k: nat)
    requires k < |rest| && check.holds
    ensures FailsAt(rest, k) <==> FailsAt([check] + rest, k + 1)
  {
    var all := [check] + rest;
    assert forall j | 0 <= j < |rest| :: all[j + 1] == rest[j];
    if FailsAt(all, k + 1) {
      forall j | 0 <= j < k ensures rest[j].holds {
        assert all[j + 1].holds;
      }
    }
  }

  lemma NotFirst(check: Check, rest: seq<Check>, k: nat)
    requires k < |[check] + rest| && check.holds && FailsAt([check] + rest, k)
    ensures k > 0
  {}

  lemma NoneFails(why: Denial)
    ensures AllHold([]) && !Fails([], why)
  {}

  /** The checks of `a`, and then those of `b`. */
  lemma {:induction false} BothFail(a: seq<Check>, b: seq<Check>, why: Denial)
    ensures AllHold(a + b) <==> AllHold(a) && AllHold(b)
    ensures Fails(a + b, why) <==> Fails(a, why) || (AllHold(a) && Fails(b, why))
  {
    hide AllHold, Fails;
    NoneFails(why);
    if a == [] {
      assert a + b == b;
    } else {
      BothFail(a[1..], b, why);
      FirstFails(a[0], a[1..] + b, why);
      FirstFails(a[0], a[1..], why);
      assert a + b == [a[0]] + (a[1..] + b) && a == [a[0]] + a[1..];
    }
  }

  // ---------------------------------------------------------------- the offer

  /** The first offer of this name. */
  ghost predicate Named(offers: seq<Offer>, ref: string, o: Offer) {
    exists k: nat :: NamedAt(offers, ref, o, k)
  }

  ghost predicate NamedAt(offers: seq<Offer>, ref: string, o: Offer, k: nat) {
    k < |offers| && offers[k] == o && o.ref == ref && forall j | 0 <= j < k :: offers[j].ref != ref
  }

  lemma NamedNext(offers: seq<Offer>, ref: string, o: Offer, k: nat)
    requires offers != [] && offers[0].ref != ref
    ensures NamedAt(offers[1..], ref, o, k) <==> NamedAt(offers, ref, o, k + 1)
  {
    assert forall j | 0 < j < |offers| :: offers[j] == offers[1..][j - 1];
    if NamedAt(offers, ref, o, k + 1) {
      forall j | 0 <= j < k ensures offers[1..][j].ref != ref {
        assert offers[j + 1].ref != ref;
      }
    }
  }

  lemma {:induction false} NamedIs(offers: seq<Offer>, ref: string, o: Offer)
    ensures Named(offers, ref, o) <==> FindOffer(offers, ref) == Some(o)
  {
    if offers != [] {
      if offers[0].ref == ref {
        if offers[0] == o {
          assert NamedAt(offers, ref, o, 0);
        }
      } else {
        NamedIs(offers[1..], ref, o);
        if k: nat :| NamedAt(offers[1..], ref, o, k) {
          NamedNext(offers, ref, o, k);
        }
        if k: nat :| NamedAt(offers, ref, o, k) {
          NamedNext(offers, ref, o, k - 1);
        }
      }
    }
  }

  /** What is asked of an offer: it is there, open, unexpired, its terms are those read back, and within policy. */
  ghost function OfferChecks(r: Rules, offer: Option<Offer>, m: Option<Mandate>, t: nat, fenced: bool): seq<Check>
  {
    var terms := if offer.Some? then TermsOf(r, offer.value) else None;
    [ Check(!fenced, FenceRaised),
      Check(offer.Some?, NoSuchOffer),
      Check(offer.Some? && offer.value.status == Open, OfferNotOpen),
      Check(offer.Some? && (offer.value.expires.Some? ==> t < offer.value.expires.value), OfferExpired),
      Check(offer.Some? && terms.Some? && offer.value.termsHash == Some(r.termsHash(terms.value))
            && Slotted(r, offer.value), ReadbackNotConfirmed),
      Check(offer.Some? && terms.Some? && Acceptable(r, offer.value, terms.value, m), PolicyViolation) ]
  }

  /** Every field has one slot, read back and confirmed. */
  ghost predicate Slotted(r: Rules, offer: Offer) {
    && (forall s | s in offer.slots :: s.status == Confirmed)
    && (forall i, j | 0 <= i < |offer.slots| && 0 <= j < |offer.slots| && i != j ::
          offer.slots[i].field != offer.slots[j].field)
    && !r.missingField(offer)
  }

  lemma SlottedIs(r: Rules, offer: Offer)
    ensures Slotted(r, offer) <==> ReadbackConfirmed(r, offer)
  {}

  lemma OfferRuling(r: Rules, offer: Option<Offer>, m: Option<Mandate>, t: nat, fenced: bool, why: Denial)
    ensures var checks := OfferChecks(r, offer, m, t, fenced);
      && (OpenOffer(r, offer, m, t, fenced) == Refused(why) <==> Fails(checks, why))
      && (OpenOffer(r, offer, m, t, fenced).Allowed? <==> AllHold(checks))
    ensures OpenOffer(r, offer, m, t, fenced).Allowed? ==>
      offer.Some? && OpenOffer(r, offer, m, t, fenced).value == (offer.value, TermsOf(r, offer.value).value)
  {
    hide AllHold, Fails, Slotted, ReadbackConfirmed, HardViolation, Acceptable, TermsOf;
    var checks := OfferChecks(r, offer, m, t, fenced);
    SixFail(checks, why);
    if offer.Some? {
      SlottedIs(r, offer.value);
      var terms := TermsOf(r, offer.value);
      if terms.Some? {
        AcceptableIs(r, offer.value, terms.value, m);
      }
    }
  }

  /** Six checks, one after the other. */
  lemma SixFail(checks: seq<Check>, why: Denial)
    requires |checks| == 6
    ensures AllHold(checks) <==>
      checks[0].holds && checks[1].holds && checks[2].holds && checks[3].holds && checks[4].holds && checks[5].holds
    ensures Fails(checks, why) <==>
      if !checks[0].holds then checks[0].why == why
      else if !checks[1].holds then checks[1].why == why
      else if !checks[2].holds then checks[2].why == why
      else if !checks[3].holds then checks[3].why == why
      else if !checks[4].holds then checks[4].why == why
      else !checks[5].holds && checks[5].why == why
  {
    hide AllHold, Fails;
    NoneFails(why);
    Tails(checks, 5, why);
    Tails(checks, 4, why);
    Tails(checks, 3, why);
    Tails(checks, 2, why);
    Tails(checks, 1, why);
    Tails(checks, 0, why);
    assert checks[0..] == checks && checks[6..] == [];
  }

  lemma Tails(checks: seq<Check>, k: nat, why: Denial)
    requires k < |checks|
    ensures AllHold(checks[k..]) <==> checks[k].holds && AllHold(checks[k + 1..])
    ensures Fails(checks[k..], why) <==> if checks[k].holds then Fails(checks[k + 1..], why) else checks[k].why == why
  {
    hide AllHold, Fails;
    FirstFails(checks[k], checks[k + 1..], why);
    assert checks[k..] == [checks[k]] + checks[k + 1..];
  }

  // ---------------------------------------------------------------- the grant

  /** An approval of these terms in this epoch. */
  ghost predicate Current(bb: Blackboard, hash: string, a: Approval) {
    a in bb.approvals && a.termsHash == hash && a.epoch == bb.epoch
  }

  ghost predicate Undenied(bb: Blackboard, hash: string) {
    forall a | Current(bb, hash, a) :: a.decision == Granted
  }

  /** The granted mandate of this epoch, unexpired, with the terms within its bounds. */
  predicate Mandated(bb: Blackboard, terms: Terms) {
    && bb.mandate.Some?
    && var m := bb.mandate.value;
       && m.status == MandateGranted && m.epoch == bb.epoch && (m.expires.Some? ==> bb.t < m.expires.value)
       && Within(m.bounds, terms)
  }

  ghost predicate NoAcceptYet(bb: Blackboard) {
    forall k | k in bb.capabilities && bb.capabilities[k].intent == AcceptOffer :: !bb.capabilities[k].consumed
  }

  /** An approval of these terms, of this epoch, that has not expired. */
  ghost predicate LiveApproval(bb: Blackboard, hash: string, a: Approval) {
    Current(bb, hash, a) && a.expires.Some? && bb.t < a.expires.value
  }

  /** The first live approval on the board. */
  ghost predicate FirstApproval(bb: Blackboard, hash: string, a: Approval) {
    exists k: nat ::
      && k < |bb.approvals| && bb.approvals[k] == a && LiveApproval(bb, hash, a)
      && forall j | 0 <= j < k :: !LiveApproval(bb, hash, bb.approvals[j])
  }

  ghost predicate Granting(bb: Blackboard, hash: string, terms: Terms) {
    (Mandated(bb, terms) && NoAcceptYet(bb)) || exists a :: LiveApproval(bb, hash, a)
  }

  /** A denial, and else why there is neither a covering mandate nor a live approval. */
  ghost function GrantChecks(bb: Blackboard, hash: string, terms: Terms): seq<Check>
  {
    var granted, m := Granting(bb, hash, terms), bb.mandate;
    [ Check(Undenied(bb, hash), ApprovalDenied),
      Check(granted || forall a :: !Current(bb, hash, a), ApprovalExpired),
      Check(granted || forall a | a in bb.approvals :: a.termsHash != hash, ApprovalStaleEpoch),
      Check(granted || (m.Some? && m.value.status == MandateGranted && !Mandated(bb, terms)), NotAuthorized),
      Check(granted || (m.Some? && m.value.epoch == bb.epoch), MandateStaleEpoch),
      Check(granted || (m.Some? && (m.value.expires.Some? ==> bb.t < m.value.expires.value)), MandateExpired),
      Check(granted, OutsideMandate) ]
  }

  /** The mandate if it may be used, else the first live approval. */
  ghost predicate GrantIs(bb: Blackboard, hash: string, terms: Terms, g: Grant) {
    match g
    case ByMandate(m) => bb.mandate == Some(m) && Mandated(bb, terms) && NoAcceptYet(bb)
    case ByApproval(a) => !(Mandated(bb, terms) && NoAcceptYet(bb)) && FirstApproval(bb, hash, a)
  }

  lemma GapIs(bb: Blackboard, terms: Terms)
    ensures MandateGap(bb, terms).None? <==> Mandated(bb, terms)
    ensures MandateGap(bb, terms) ==
      if !(bb.mandate.Some? && bb.mandate.value.status == MandateGranted) then Some(NotAuthorized)
      else if bb.mandate.value.epoch != bb.epoch then Some(MandateStaleEpoch)
      else if !(bb.mandate.value.expires.Some? ==> bb.t < bb.mandate.value.expires.value) then Some(MandateExpired)
      else if !Within(bb.mandate.value.bounds, terms) then Some(OutsideMandate)
      else None
  {}

  lemma {:induction false} FirstLiveIs(bb: Blackboard, hash: string, approvals: seq<Approval>)
    requires forall a | a in approvals :: a in bb.approvals
    ensures match FirstLive(approvals, hash, bb.epoch, bb.t)
      case None => forall a | a in approvals :: !LiveApproval(bb, hash, a)
      case Some(a) => exists k: nat :: k < |approvals| && approvals[k] == a && LiveApproval(bb, hash, a)
                        && forall j | 0 <= j < k :: !LiveApproval(bb, hash, approvals[j])
  {
    if approvals != [] && !LiveApproval(bb, hash, approvals[0]) {
      FirstLiveIs(bb, hash, approvals[1..]);
      var found := FirstLive(approvals[1..], hash, bb.epoch, bb.t);
      if found.Some? {
        var k: nat :| k < |approvals[1..]| && approvals[1..][k] == found.value
          && forall j | 0 <= j < k :: !LiveApproval(bb, hash, approvals[1..][j]);
        assert approvals[k + 1] == found.value;
        forall j | 0 <= j < k + 1 ensures !LiveApproval(bb, hash, approvals[j]) {
          assert j > 0 ==> approvals[j] == approvals[1..][j - 1];
        }
      }
    }
  }

  /** Two first live approvals are one. */
  lemma OneFirst(bb: Blackboard, hash: string, a: Approval, b: Approval)
    requires FirstApproval(bb, hash, a) && FirstApproval(bb, hash, b)
    ensures a == b
  {
    hide LiveApproval;
    var k: nat :| k < |bb.approvals| && bb.approvals[k] == a && LiveApproval(bb, hash, a)
      && forall j | 0 <= j < k :: !LiveApproval(bb, hash, bb.approvals[j]);
    var l: nat :| l < |bb.approvals| && bb.approvals[l] == b && LiveApproval(bb, hash, b)
      && forall j | 0 <= j < l :: !LiveApproval(bb, hash, bb.approvals[j]);
    assert k == l;
  }

  lemma ReleasedIs(bb: Blackboard)
    ensures ReleasedAccept(bb.capabilities) <==> !NoAcceptYet(bb)
  {}

  lemma GrantRuling(bb: Blackboard, hash: string, terms: Terms, why: Denial, g: Grant)
    ensures GrantFor(bb, hash, terms) == Refused(why) <==> Fails(GrantChecks(bb, hash, terms), why)
    ensures GrantFor(bb, hash, terms).Allowed? <==> AllHold(GrantChecks(bb, hash, terms))
    ensures GrantFor(bb, hash, terms) == Allowed(g) <==> Undenied(bb, hash) && GrantIs(bb, hash, terms, g)
  {
    hide AllHold, Fails, Mandated, MandateGap, Within, FirstLive, ReleasedAccept, NoAcceptYet;
    SevenFail(GrantChecks(bb, hash, terms), why);
    GapIs(bb, terms);
    ReleasedIs(bb);
    FirstLiveIs(bb, hash, bb.approvals);
    GrantChoice(bb, hash, terms, g);
    GrantReason(bb, hash, terms);
  }

  lemma GrantReason(bb: Blackboard, hash: string, terms: Terms)
    ensures GrantFor(bb, hash, terms).Allowed? <==> Undenied(bb, hash) && Granting(bb, hash, terms)
    ensures GrantFor(bb, hash, terms).Refused? ==>
      GrantFor(bb, hash, terms).reason ==
        if !Undenied(bb, hash) then ApprovalDenied
        else if exists a :: Current(bb, hash, a) then ApprovalExpired
        else if exists a :: a in bb.approvals && a.termsHash == hash then ApprovalStaleEpoch
        else if Mandated(bb, terms) then NotAuthorized else MandateGap(bb, terms).value
  {
    hide Mandated, MandateGap, ReleasedAccept, NoAcceptYet;
    GapIs(bb, terms);
    ReleasedIs(bb);
    FirstLiveIs(bb, hash, bb.approvals);
    DeniedIs(bb, hash);
    CurrentIs(bb, hash);
  }

  lemma CurrentIs(bb: Blackboard, hash: string)
    ensures (exists a | a in bb.approvals :: Now(a, hash, bb.epoch)) <==> exists a :: Current(bb, hash, a)
    ensures (exists a | a in bb.approvals :: Mine(a, hash)) <==> exists a :: a in bb.approvals && a.termsHash == hash
  {
    if a :| a in bb.approvals && Now(a, hash, bb.epoch) {
      assert Current(bb, hash, a);
    }
    if a :| Current(bb, hash, a) {
      assert Now(a, hash, bb.epoch);
    }
    if a :| a in bb.approvals && a.termsHash == hash {
      assert Mine(a, hash);
    }
  }

  lemma DeniedIs(bb: Blackboard, hash: string)
    ensures (exists a | a in bb.approvals :: Now(a, hash, bb.epoch) && a.decision == Denied) <==> !Undenied(bb, hash)
  {
    if a :| a in bb.approvals && Now(a, hash, bb.epoch) && a.decision == Denied {
      assert Current(bb, hash, a);
    }
    if !Undenied(bb, hash) {
      var a :| Current(bb, hash, a) && a.decision != Granted;
      assert Now(a, hash, bb.epoch) && a.decision == Denied;
    }
  }

  lemma GrantChoice(bb: Blackboard, hash: string, terms: Terms, g: Grant)
    ensures GrantFor(bb, hash, terms) == Allowed(g) <==> Undenied(bb, hash) && GrantIs(bb, hash, terms, g)
  {
    hide Mandated, MandateGap, ReleasedAccept, NoAcceptYet, LiveApproval;
    GapIs(bb, terms);
    ReleasedIs(bb);
    FirstLiveIs(bb, hash, bb.approvals);
    DeniedIs(bb, hash);
    MandatedSome(bb, terms);
    var found := FirstLive(bb.approvals, hash, bb.epoch, bb.t);
    if found.Some? {
      assert FirstApproval(bb, hash, found.value);
      if g.ByApproval? && FirstApproval(bb, hash, g.approval) {
        OneFirst(bb, hash, found.value, g.approval);
      }
    } else if g.ByApproval? {
      NoneFirst(bb, hash, g.approval);
    }
  }

  lemma MandatedSome(bb: Blackboard, terms: Terms)
    ensures Mandated(bb, terms) ==> bb.mandate.Some?
  {}

  lemma NoneFirst(bb: Blackboard, hash: string, a: Approval)
    requires forall x | x in bb.approvals :: !LiveApproval(bb, hash, x)
    ensures !FirstApproval(bb, hash, a)
  {
    hide LiveApproval;
  }

  lemma SevenFail(checks: seq<Check>, why: Denial)
    requires |checks| == 7
    ensures AllHold(checks) <==>
      checks[0].holds && checks[1].holds && checks[2].holds && checks[3].holds && checks[4].holds && checks[5].holds
      && checks[6].holds
    ensures Fails(checks, why) <==>
      if !checks[0].holds then checks[0].why == why
      else if !checks[1].holds then checks[1].why == why
      else if !checks[2].holds then checks[2].why == why
      else if !checks[3].holds then checks[3].why == why
      else if !checks[4].holds then checks[4].why == why
      else if !checks[5].holds then checks[5].why == why
      else !checks[6].holds && checks[6].why == why
  {
    hide AllHold, Fails;
    SixFail(checks[1..], why);
    Tails(checks, 0, why);
    assert checks[0..] == checks;
  }

  // ---------------------------------------------------------------- the yes

  /** The terms of the offer of this name, if it has any. */
  ghost function TermsFor(r: Rules, bb: Blackboard, ref: string): Option<Terms>
  {
    var offer := FindOffer(bb.offers, ref);
    if offer.Some? then TermsOf(r, offer.value) else None
  }

  /** The terms are read from the offer's name and revision, and the fields and values of its slots in order. */
  lemma TermsRead(r: Rules, o: Offer, slots: seq<(string, string)>)
    requires |slots| == |o.slots|
    requires forall i | 0 <= i < |slots| :: slots[i].0 == o.slots[i].field && slots[i].1 == o.slots[i].value
    ensures TermsOf(r, o) == r.offerTerms(o.ref, o.revision, slots)
  {
    assert Contents(o.slots) == slots;
  }

  ghost function StatusChecks(bb: Blackboard): seq<Check>
  {
    [ Check(bb.status !in [Committed, EvidencePending], AlreadyCommitted),
      Check(bb.status !in [VerifiedComplete, VerifiedNoDeal, Escalated, Abandoned, ClosedNoAction], CaseClosed),
      Check(bb.status == InCall, NotInCall) ]
  }

  /** No accept of these terms was released. */
  ghost predicate Unaccepted(bb: Blackboard, hash: string) {
    forall k | k in bb.capabilities && bb.capabilities[k].intent == AcceptOffer && bb.capabilities[k].consumed ::
      bb.capabilities[k].termsHash != hash
  }

  /** No accept is in flight. */
  ghost predicate NoneInFlight(bb: Blackboard) {
    forall k | k in bb.capabilities && bb.capabilities[k].intent == AcceptOffer :: bb.capabilities[k].consumed
  }

  /** The action a grant would authorize has no capability yet. */
  ghost predicate NewAction(r: Rules, bb: Blackboard, c: Case, o: Offer, hash: string, grantId: string) {
    forall k | k in bb.capabilities ::
      bb.capabilities[k].actionId != r.actionId(c.id, "accept_offer", o.ref, o.revision, hash, grantId)
  }

  /** What names a grant: a mandate's hash, an approval's id. */
  ghost function NameOf(g: Grant): string
  {
    match g
    case ByMandate(m) => m.hash
    case ByApproval(a) => a.id
  }

  ghost predicate Unused(r: Rules, bb: Blackboard, c: Case, o: Offer, terms: Terms) {
    forall g | GrantIs(bb, r.termsHash(terms), terms, g) :: NewAction(r, bb, c, o, r.termsHash(terms), NameOf(g))
  }

  /** The checks of `accept_offer` that come after the offer's. */
  ghost function YesChecks(r: Rules, bb: Blackboard, c: Case, o: Offer, terms: Terms): seq<Check>
  {
    var hash := r.termsHash(terms);
    [Check(Unaccepted(bb, hash), AlreadyAccepted)]
    + GrantChecks(bb, hash, terms)
    + [Check(Unused(r, bb, c, o, terms), AlreadyAuthorized),
       Check(NoneInFlight(bb), AnotherAcceptInFlight)]
  }

  ghost function AcceptChecks(r: Rules, bb: Blackboard, ref: string, c: Case): seq<Check>
  {
    var offer, terms := FindOffer(bb.offers, ref), TermsFor(r, bb, ref);
    StatusChecks(bb) + OfferChecks(r, offer, bb.mandate, bb.t, bb.fences != [])
    + if offer.Some? && terms.Some? then YesChecks(r, bb, c, offer.value, terms.value) else []
  }

  /** The capability: of these terms and this epoch, for this action, until the first of what bounds it ends. */
  ghost predicate YesOf(r: Rules, bb: Blackboard, c: Case, o: Offer, terms: Terms, g: Grant, cap: Capability) {
    && cap.id == "cap-" + Digits(|bb.authorizations| + 1)
    && cap.actionId == r.actionId(c.id, "accept_offer", o.ref, o.revision, r.termsHash(terms), NameOf(g))
    && cap.intent == AcceptOffer && cap.termsHash == r.termsHash(terms) && cap.epoch == bb.epoch && !cap.consumed
    && cap.expires <= bb.t + 60_000
    && (o.expires.Some? ==> cap.expires <= o.expires.value)
    && (ExpiryOf(g).Some? ==> cap.expires <= ExpiryOf(g).value)
    && (cap.expires == bb.t + 60_000 || o.expires == Some(cap.expires) || ExpiryOf(g) == Some(cap.expires))
  }

  /** `accept_offer` allows exactly if every check holds, and else refuses for the first that fails. */
  lemma AcceptRuling(r: Rules, bb: Blackboard, ref: string, c: Case, why: Denial)
    ensures var checks, ruling := AcceptChecks(r, bb, ref, c), AcceptOfferRule(r, bb, ref, c);
      && (ruling == Refused(why) <==> Fails(checks, why))
      && (ruling.Allowed? <==> AllHold(checks))
      && (ruling.Allowed? ==>
            && FindOffer(bb.offers, ref).Some? && TermsFor(r, bb, ref).Some?
            && var o, terms := FindOffer(bb.offers, ref).value, TermsFor(r, bb, ref).value;
               exists g :: GrantIs(bb, r.termsHash(terms), terms, g) && YesOf(r, bb, c, o, terms, g, ruling.value))
  {
    hide AllHold, Fails, OfferChecks, YesChecks, StatusChecks, OpenOffer, AcceptOfferRule, YesOf, GrantIs, FindOffer,
      TermsFor;
    var offer, terms := FindOffer(bb.offers, ref), TermsFor(r, bb, ref);
    var open := OfferChecks(r, offer, bb.mandate, bb.t, bb.fences != []);
    var rest := if offer.Some? && terms.Some? then YesChecks(r, bb, c, offer.value, terms.value) else [];
    BothFail(StatusChecks(bb) + open, rest, why);
    BothFail(StatusChecks(bb), open, why);
    StatusRuling(bb, why);
    OfferRuling(r, offer, bb.mandate, bb.t, bb.fences != [], why);
    if bb.status == InCall && OpenOfferOf(r, bb, ref).Allowed? {
      TermsThere(r, bb, ref);
      YesRuling(r, bb, ref, c, offer.value, terms.value, why);
    } else {
      AcceptEarly(r, bb, ref, c);
    }
  }

  /** Outside a call, and for an offer that is not open, the rule ends there. */
  lemma AcceptEarly(r: Rules, bb: Blackboard, ref: string, c: Case)
    requires bb.status != InCall || OpenOfferOf(r, bb, ref).Refused?
    ensures AcceptOfferRule(r, bb, ref, c) == Refused(
      if bb.status == Committed || bb.status == EvidencePending then AlreadyCommitted
      else if Terminal(bb.status) then CaseClosed
      else if bb.status != InCall then NotInCall
      else OpenOfferOf(r, bb, ref).reason)
  {
    hide OpenOffer, FindOffer;
  }

  lemma TermsThere(r: Rules, bb: Blackboard, ref: string)
    requires OpenOfferOf(r, bb, ref).Allowed?
    ensures FindOffer(bb.offers, ref).Some? && TermsFor(r, bb, ref).Some? && FindOffer(bb.offers, ref).value.ref == ref
    ensures OpenOfferOf(r, bb, ref).value == (FindOffer(bb.offers, ref).value, TermsFor(r, bb, ref).value)
  {
    hide FindOffer, HardViolation, ReadbackConfirmed;
  }

  lemma StatusRuling(bb: Blackboard, why: Denial)
    ensures AllHold(StatusChecks(bb)) <==> bb.status == InCall
    ensures Fails(StatusChecks(bb), why) <==>
      if bb.status == Committed || bb.status == EvidencePending then why == AlreadyCommitted
      else if Terminal(bb.status) then why == CaseClosed
      else bb.status != InCall && why == NotInCall
  {
    hide AllHold, Fails;
    var checks := StatusChecks(bb);
    NoneFails(why);
    Tails(checks, 2, why);
    Tails(checks, 1, why);
    Tails(checks, 0, why);
    assert checks[0..] == checks && checks[3..] == [];
  }

  lemma YesRuling(r: Rules, bb: Blackboard, ref: string, c: Case, o: Offer, terms: Terms, why: Denial)
    requires bb.status == InCall && OpenOfferOf(r, bb, ref) == Allowed((o, terms)) && o.ref == ref
    ensures var checks, ruling := YesChecks(r, bb, c, o, terms), AcceptOfferRule(r, bb, ref, c);
      && (ruling == Refused(why) <==> Fails(checks, why))
      && (ruling.Allowed? <==> AllHold(checks))
      && (ruling.Allowed? ==> exists g ::
            GrantIs(bb, r.termsHash(terms), terms, g) && YesOf(r, bb, c, o, terms, g, ruling.value))
  {
    hide AllHold, Fails, YesChecks, GrantChecks, GrantFor, GrantIs, OpenOfferOf, AcceptOfferRule, YesOf, Unaccepted,
      NoneInFlight, NewAction, Unused, Undenied;
    var hash := r.termsHash(terms);
    YesFails(r, bb, c, o, terms, why);
    YesSteps(r, bb, ref, c, o, terms);
    GrantRuling(bb, hash, terms, why, ByMandate(NoMandate()));
    if GrantFor(bb, hash, terms).Allowed? {
      var g := GrantFor(bb, hash, terms).value;
      GrantRuling(bb, hash, terms, why, g);
      UnusedIs(r, bb, c, o, terms, g);
      if AcceptOfferRule(r, bb, ref, c).Allowed? {
        YesIs(r, bb, ref, c, o, terms, g);
      }
    }
  }

  lemma UnusedIs(r: Rules, bb: Blackboard, c: Case, o: Offer, terms: Terms, g: Grant)
    requires GrantFor(bb, r.termsHash(terms), terms) == Allowed(g)
    ensures Unused(r, bb, c, o, terms) <==> NewAction(r, bb, c, o, r.termsHash(terms), NameOf(g))
  {
    hide GrantFor, GrantIs, NewAction, Undenied;
    var hash := r.termsHash(terms);
    GrantRuling(bb, hash, terms, NotAuthorized, g);
    forall h ensures GrantIs(bb, hash, terms, h) ==> h == g {
      GrantRuling(bb, hash, terms, NotAuthorized, h);
    }
  }

  lemma YesFails(r: Rules, bb: Blackboard, c: Case, o: Offer, terms: Terms, why: Denial)
    ensures var hash := r.termsHash(terms);
      var checks, granting := YesChecks(r, bb, c, o, terms), GrantChecks(bb, hash, terms);
      && (AllHold(checks) <==>
            Unaccepted(bb, hash) && AllHold(granting) && Unused(r, bb, c, o, terms) && NoneInFlight(bb))
      && (Fails(checks, why) <==>
            if !Unaccepted(bb, hash) then why == AlreadyAccepted
            else
              || Fails(granting, why)
              || (AllHold(granting) &&
                    if !Unused(r, bb, c, o, terms) then why == AlreadyAuthorized
                    else !NoneInFlight(bb) && why == AnotherAcceptInFlight))
  {
    hide AllHold, Fails, GrantChecks, Unaccepted, NoneInFlight, Unused;
    var hash := r.termsHash(terms);
    var first, granting := [Check(Unaccepted(bb, hash), AlreadyAccepted)], GrantChecks(bb, hash, terms);
    var last := [Check(Unused(r, bb, c, o, terms), AlreadyAuthorized), Check(NoneInFlight(bb), AnotherAcceptInFlight)];
    BothFail(first + granting, last, why);
    BothFail(first, granting, why);
    NoneFails(why);
    Tails(first, 0, why);
    Tails(last, 1, why);
    Tails(last, 0, why);
    assert first[0..] == first && first[1..] == [] && last[0..] == last && last[2..] == [];
  }

  lemma YesSteps(r: Rules, bb: Blackboard, ref: string, c: Case, o: Offer, terms: Terms)
    requires bb.status == InCall && OpenOfferOf(r, bb, ref) == Allowed((o, terms)) && o.ref == ref
    ensures var hash, ruling := r.termsHash(terms), AcceptOfferRule(r, bb, ref, c);
      if !Unaccepted(bb, hash) then ruling == Refused(AlreadyAccepted)
      else
        match GrantFor(bb, hash, terms)
        case Refused(why) => ruling == Refused(why)
        case Allowed(g) =>
          if !NewAction(r, bb, c, o, hash, NameOf(g)) then ruling == Refused(AlreadyAuthorized)
          else if !NoneInFlight(bb) then ruling == Refused(AnotherAcceptInFlight)
          else ruling.Allowed?
  {
    hide GrantFor, OpenOfferOf, Unaccepted, NoneInFlight, NewAction, ReleasedTerms, AcceptInFlight, Digits;
    var hash := r.termsHash(terms);
    CapsAre(bb, hash);
    if GrantFor(bb, hash, terms).Allowed? {
      ActionNew(r, bb, c, o, hash, GrantFor(bb, hash, terms).value);
    }
  }

  function NoMandate(): Mandate
  {
    Mandate("", "", Proposed, 0, Bounds(None, None, None, {}, {}), None, None)
  }

  lemma CapsAre(bb: Blackboard, hash: string)
    ensures ReleasedTerms(bb.capabilities, hash) <==> !Unaccepted(bb, hash)
    ensures AcceptInFlight(bb.capabilities) <==> !NoneInFlight(bb)
  {}

  lemma ActionNew(r: Rules, bb: Blackboard, c: Case, o: Offer, hash: string, g: Grant)
    ensures var bid := r.actionId(c.id, "accept_offer", o.ref, o.revision, hash, GrantId(g));
      (exists k | k in bb.capabilities :: bb.capabilities[k].actionId == bid)
      <==> !NewAction(r, bb, c, o, hash, NameOf(g))
    ensures NameOf(g) == GrantId(g)
  {}

  lemma YesIs(r: Rules, bb: Blackboard, ref: string, c: Case, o: Offer, terms: Terms, g: Grant)
    requires OpenOfferOf(r, bb, ref) == Allowed((o, terms)) && o.ref == ref
    requires GrantFor(bb, r.termsHash(terms), terms) == Allowed(g)
    requires AcceptOfferRule(r, bb, ref, c).Allowed?
    ensures YesOf(r, bb, c, o, terms, g, AcceptOfferRule(r, bb, ref, c).value)
  {
    hide GrantFor, Digits, OpenOffer, FindOffer, ReleasedTerms, AcceptInFlight;
  }

  // ---------------------------------------------------------------- the card

  /** The offer the card is for still has its revision and terms. */
  ghost predicate Offered(bb: Blackboard, card: Card) {
    exists o :: Named(bb.offers, card.ref, o) && o.revision == card.revision && o.termsHash == Some(card.termsHash)
  }

  /** The pending card still stands: of this epoch, unexpired, and of the terms its offer has now. */
  ghost predicate Stands(bb: Blackboard) {
    && bb.pending.Some?
    && var card := bb.pending.value;
       card.epoch == bb.epoch && bb.t < card.expires && Offered(bb, card)
  }

  lemma StandsIs(bb: Blackboard)
    ensures CardBlocks(bb) <==> Stands(bb)
  {
    hide Named, FindOffer;
    if bb.pending.Some? {
      CurrentCard(bb, bb.pending.value);
    }
  }

  lemma CurrentCard(bb: Blackboard, card: Card)
    ensures CardCurrent(bb, card) <==> Offered(bb, card)
  {
    hide Named, FindOffer;
    var found := FindOffer(bb.offers, card.ref);
    if found.Some? {
      NamedIs(bb.offers, card.ref, found.value);
    }
    forall o | Named(bb.offers, card.ref, o) ensures found == Some(o) {
      NamedIs(bb.offers, card.ref, o);
    }
  }

  ghost function CardChecks(r: Rules, bb: Blackboard, ref: string): seq<Check>
  {
    OfferChecks(r, FindOffer(bb.offers, ref), bb.mandate, bb.t, bb.fences != [])
    + [Check(!Stands(bb), ApprovalPending)]
  }

  /** The card: the offer's name, revision and terms, this epoch, until the offer or two minutes end. */
  ghost predicate CardOf(r: Rules, bb: Blackboard, c: Case, o: Offer, terms: Terms, card: Card) {
    && card.ref == o.ref && card.revision == o.revision && card.termsHash == r.termsHash(terms)
    && card.readback == r.readback(o) && card.epoch == bb.epoch
    && card.id == "apr-" + o.ref + "-r" + Digits(o.revision) + "-e" + Digits(bb.epoch) + "-"
         + Digits(CountStem(bb.approvals, Stem(o.ref, o.revision, bb.epoch)))
    && card.binding == Binding(o.ref, o.revision, c.account, c.principal, "accept_offer", bb.epoch)
    && card.expires <= bb.t + 120_000 && (o.expires.Some? ==> card.expires <= o.expires.value)
    && (card.expires == bb.t + 120_000 || o.expires == Some(card.expires))
  }

  /** `request_approval` allows exactly if every check holds, and else refuses for the first that fails. */
  lemma CardRuling(r: Rules, bb: Blackboard, ref: string, c: Case, why: Denial)
    ensures var checks, ruling := CardChecks(r, bb, ref), RequestApproval(r, bb, ref, c);
      && (ruling == Refused(why) <==> Fails(checks, why))
      && (ruling.Allowed? <==> AllHold(checks))
      && (ruling.Allowed? ==>
            && FindOffer(bb.offers, ref).Some? && TermsFor(r, bb, ref).Some?
            && CardOf(r, bb, c, FindOffer(bb.offers, ref).value, TermsFor(r, bb, ref).value, ruling.value))
  {
    hide AllHold, Fails, OfferChecks, OpenOffer, Digits, Stem, CountStem, FindOffer, Stands, CardOf, CardBlocks,
      TermsFor;
    var offer := FindOffer(bb.offers, ref);
    var open, last := OfferChecks(r, offer, bb.mandate, bb.t, bb.fences != []), [Check(!Stands(bb), ApprovalPending)];
    BothFail(open, last, why);
    NoneFails(why);
    Tails(last, 0, why);
    assert last[0..] == last && last[1..] == [];
    OfferRuling(r, offer, bb.mandate, bb.t, bb.fences != [], why);
    StandsIs(bb);
    if RequestApproval(r, bb, ref, c).Allowed? {
      TermsThere(r, bb, ref);
      CardIs(r, bb, ref, c, offer.value, TermsFor(r, bb, ref).value);
    }
  }

  lemma CardIs(r: Rules, bb: Blackboard, ref: string, c: Case, o: Offer, terms: Terms)
    requires OpenOfferOf(r, bb, ref) == Allowed((o, terms)) && RequestApproval(r, bb, ref, c).Allowed?
    ensures CardOf(r, bb, c, o, terms, RequestApproval(r, bb, ref, c).value)
  {
    hide OpenOffer, Digits, CountStem, FindOffer, CardBlocks, Stem;
    StemIs(o.ref, o.revision, bb.epoch, Digits(CountStem(bb.approvals, Stem(o.ref, o.revision, bb.epoch))));
  }

  lemma StemIs(ref: string, revision: nat, epoch: nat, n: string)
    ensures Stem(ref, revision, epoch) + n
         == "apr-" + ref + "-r" + Digits(revision) + "-e" + Digits(epoch) + "-" + n
  {
    hide Digits;
    assert "-r" == "-" + ['r'] && "-e" == "-" + ['e'];
  }

  // ---------------------------------------------------------------- decisions

  ghost function MandatePostChecks(bb: Blackboard, post: Post): seq<Check>
  {
    var m := bb.mandate;
    var named := m.Some? && m.value.id == post.id;
    [ Check(!named || m.value.status == Proposed, AlreadyDecided),
      Check(named, NoProposal),
      Check(named && m.value.hash == post.hash, SubjectHashMismatch),
      Check(named && post.epoch == m.value.epoch && post.epoch == bb.epoch, StaleEpoch) ]
  }

  ghost function CardPostChecks(bb: Blackboard, post: Post): seq<Check>
  {
    var named := bb.pending.Some? && bb.pending.value.id == post.id;
    var card := bb.pending;
    [ Check(forall a | a in bb.approvals :: a.id != post.id, AlreadyDecided),
      Check(named, NoPendingCard),
      Check(named && Offered(bb, card.value), CardSuperseded),
      Check(named && card.value.termsHash == post.hash, SubjectHashMismatch),
      Check(named && post.epoch == card.value.epoch && post.epoch == bb.epoch, StaleEpoch),
      Check(named && bb.t < card.value.expires, CardExpired) ]
  }

  ghost function PostChecks(bb: Blackboard, post: Post): seq<Check>
  {
    if post.subject == OfMandate then MandatePostChecks(bb, post) else CardPostChecks(bb, post)
  }

  /** What a post decides, if it may. */
  function Decided(post: Post, who: Approver): Body
  {
    match post.subject
    case OfMandate => MandateDecided(post.id, post.hash, post.decision, who)
    case OfApproval => ApprovalDecided(post.id, post.decision, who)
  }

  /** `decide` allows exactly if every check holds, with the post's decision, and else refuses for the first. */
  lemma DecideRuling(bb: Blackboard, post: Post, who: Approver, why: Denial)
    ensures var checks, ruling := PostChecks(bb, post), Decide(bb, post, who);
      && (ruling == Refused(why) <==> Fails(checks, why))
      && (ruling.Allowed? <==> AllHold(checks))
      && (ruling.Allowed? ==> ruling.value == Decided(post, who))
  {
    hide AllHold, Fails, CardPostChecks, MandatePostChecks, Decide;
    if post.subject == OfMandate {
      MandateRuling(bb, post, who, why);
    } else {
      CardPostRuling(bb, post, who, why);
    }
  }

  lemma MandateRuling(bb: Blackboard, post: Post, who: Approver, why: Denial)
    requires post.subject == OfMandate
    ensures var checks, ruling := MandatePostChecks(bb, post), Decide(bb, post, who);
      && (ruling == Refused(why) <==> Fails(checks, why))
      && (ruling.Allowed? <==> AllHold(checks))
      && (ruling.Allowed? ==> ruling.value == Decided(post, who))
  {
    hide AllHold, Fails;
    FourFail(MandatePostChecks(bb, post), why);
  }

  lemma FourFail(checks: seq<Check>, why: Denial)
    requires |checks| == 4
    ensures AllHold(checks) <==> checks[0].holds && checks[1].holds && checks[2].holds && checks[3].holds
    ensures Fails(checks, why) <==>
      if !checks[0].holds then checks[0].why == why
      else if !checks[1].holds then checks[1].why == why
      else if !checks[2].holds then checks[2].why == why
      else !checks[3].holds && checks[3].why == why
  {
    hide AllHold, Fails;
    NoneFails(why);
    Tails(checks, 3, why);
    Tails(checks, 2, why);
    Tails(checks, 1, why);
    Tails(checks, 0, why);
    assert checks[0..] == checks && checks[4..] == [];
  }

  lemma CardPostRuling(bb: Blackboard, post: Post, who: Approver, why: Denial)
    requires post.subject == OfApproval
    ensures var checks, ruling := CardPostChecks(bb, post), Decide(bb, post, who);
      && (ruling == Refused(why) <==> Fails(checks, why))
      && (ruling.Allowed? <==> AllHold(checks))
      && (ruling.Allowed? ==> ruling.value == Decided(post, who))
  {
    hide AllHold, Fails, CardPostChecks, Decide;
    var checks := CardPostChecks(bb, post);
    CardPostSteps(bb, post, who);
    SixFail(checks, why);
  }

  lemma CardPostSteps(bb: Blackboard, post: Post, who: Approver)
    requires post.subject == OfApproval
    ensures var checks, ruling := CardPostChecks(bb, post), Decide(bb, post, who);
      && |checks| == 6
      && ruling ==
           if !checks[0].holds then Refused(checks[0].why)
           else if !checks[1].holds then Refused(checks[1].why)
           else if !checks[2].holds then Refused(checks[2].why)
           else if !checks[3].holds then Refused(checks[3].why)
           else if !checks[4].holds then Refused(checks[4].why)
           else if !checks[5].holds then Refused(checks[5].why)
           else Allowed(Decided(post, who))
  {
    hide CardCurrent, Offered, HasApproval;
    HasIs(bb.approvals, post.id);
    if bb.pending.Some? {
      CurrentCard(bb, bb.pending.value);
    }
  }

  lemma HasIs(approvals: seq<Approval>, id: string)
    ensures HasApproval(approvals, id) <==> !(forall a | a in approvals :: a.id != id)
  {}
}
