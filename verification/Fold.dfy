/** The authority reducers: the blackboard is a pure fold of the log, and an event that does not join is rejected. */
module Fold {
  import opened Wrappers
  import opened Contract

  const MAX_OFFERS := 6
  const MAX_SLOTS := 8

  /** The text of a payload key that may be missing: Python's `str(None)`. */
  function Name(o: Option<string>): string
  {
    match o
    case None => "None"
    case Some(s) => s
  }

  predicate IsOfferRef(ref: string) {
    && 1 <= |ref| <= 24
    && forall i | 0 <= i < |ref| ::
      'a' <= ref[i] <= 'z' || 'A' <= ref[i] <= 'Z' || '0' <= ref[i] <= '9' || ref[i] == '_' || ref[i] == '-'
  }

  function Unconfirmed(slots: seq<Slot>): seq<Slot>
  {
    seq(|slots|, i requires 0 <= i < |slots| => slots[i].(status := Unheard))
  }

  /** A new revision: its slots start unheard and its terms unbound. */
  function RecordOffer(bb: Blackboard, ref: string, revision: int, slots: seq<Slot>, expires: Option<int>)
    : Option<Blackboard>
  {
    var prev := FindOffer(bb.offers, ref);
    if prev.Some? && revision <= prev.value.revision then None
    else if !IsOfferRef(ref) || revision < 1 || |slots| > MAX_SLOTS then None
    else
      var offers := PutOffer(bb.offers, Offer(ref, revision, Unconfirmed(slots), Open, expires, None));
      if |offers| > MAX_OFFERS then None else Some(bb.(offers := offers))
  }

  /** Guard sets the slot statuses and the terms hash of the recorded revision. */
  function Readback(bb: Blackboard, ref: string, revision: int, statuses: map<string, SlotStatus>, hash: Option<string>)
    : Option<Blackboard>
  {
    match FindOffer(bb.offers, ref)
    case None => None
    case Some(offer) =>
      if offer.revision != revision || (set s | s in offer.slots :: s.field) != statuses.Keys then None
      else
        var slots := seq(|offer.slots|, i requires 0 <= i < |offer.slots| =>
          offer.slots[i].(status :=
            if offer.slots[i].field in statuses then statuses[offer.slots[i].field] else Unheard));
        Some(bb.(offers := PutOffer(bb.offers, offer.(slots := slots, termsHash := hash))))
  }

  function Without(fences: seq<Fence>, id: string): seq<Fence>
  {
    if fences == [] then []
    else (if fences[0].id == id then [] else [fences[0]]) + Without(fences[1..], id)
  }

  function ChangeFence(bb: Blackboard, op: FenceOp, fence: string, utt: string, seqNo: nat): Option<Blackboard>
  {
    match op
    case Raised => Some(bb.(fences := bb.fences + [Fence(fence, utt, seqNo)]))
    case Cleared => Some(bb.(fences := Without(bb.fences, fence)))
    case OtherOp => None
  }

  /** Epochs only move forward; the mandate decided in this epoch carries the new one. */
  function Bump(bb: Blackboard, epochNew: int, reason: BumpReason): Option<Blackboard>
  {
    if epochNew <= bb.epoch then None
    else
      var carried := bb.mandate.Some? && bb.mandate.value.status != Proposed && bb.mandate.value.epoch == bb.epoch;
      Some(bb.(
        epoch := epochNew,
        mandate := if reason == MandateWasDecided && carried
                   then Some(bb.mandate.value.(epoch := epochNew)) else bb.mandate))
  }

  function Propose(bb: Blackboard, m: Mandate): Option<Blackboard>
  {
    if m.epoch != bb.epoch then None else Some(bb.(mandate := Some(m)))
  }

  function DecideMandate(bb: Blackboard, id: string, hash: string, decision: Decision, who: Approver)
    : Option<Blackboard>
  {
    if bb.mandate.None? then None
    else
      var m := bb.mandate.value;
      if m.id != id || m.hash != hash || m.status != Proposed || m.epoch != bb.epoch then None
      else
        var status := if decision == Granted then MandateGranted else MandateDenied;
        Some(bb.(mandate := Some(m.(status := status, decidedBy := Some(who)))))
  }

  /** A post binds to the pending card or the proposed mandate: id, hash and epoch. */
  function TakePost(bb: Blackboard, p: Post): Option<Blackboard>
  {
    var subject: Option<(string, string, int)> :=
      if p.subject == OfApproval && bb.pending.Some? then
        Some((bb.pending.value.id, bb.pending.value.termsHash, bb.pending.value.epoch))
      else if p.subject == OfMandate && bb.mandate.Some? && bb.mandate.value.status == Proposed then
        Some((bb.mandate.value.id, bb.mandate.value.hash, bb.mandate.value.epoch))
      else None;
    if subject != Some((p.id, p.hash, bb.epoch as int)) || p.epoch != bb.epoch then None else Some(bb)
  }

  /** The recorded offer still has the card's revision and terms. */
  predicate CardCurrent(bb: Blackboard, card: Card) {
    var offer := FindOffer(bb.offers, card.ref);
    offer.Some? && offer.value.revision == card.revision && offer.value.termsHash == Some(card.termsHash)
  }

  function RequestCard(bb: Blackboard, card: Card): Option<Blackboard>
  {
    if !CardCurrent(bb, card) || card.epoch != bb.epoch then None else Some(bb.(pending := Some(card)))
  }

  function ApprovalOf(card: Card, id: string, decision: Decision, who: Approver): Approval
  {
    Approval(id, decision, who, card.termsHash, card.epoch, Some(card.expires))
  }

  function DecideCard(bb: Blackboard, id: string, decision: Decision, who: Approver, t: nat): Option<Blackboard>
  {
    if bb.pending.None? then None
    else
      var card := bb.pending.value;
      if card.id != id || !CardCurrent(bb, card) || card.epoch != bb.epoch || card.expires <= t then None
      else
        var a := ApprovalOf(card, id, decision, who);
        Some(bb.(pending := None, approvals := PutApproval(bb.approvals, a)))
  }

  function Authorize(bb: Blackboard, intent: Intent, cap: Capability, t: nat): Option<Blackboard>
  {
    if cap.intent != intent || cap.epoch != bb.epoch || cap.consumed || cap.id in bb.capabilities then None
    else if cap.expires <= t then None
    else if intent == AcceptOffer && ReleasedTerms(bb.capabilities, cap.termsHash) then None
    else if intent == AcceptOffer && AcceptInFlight(bb.capabilities) then None
    else
      var offer := OfferWithTerms(bb.offers, cap.termsHash);
      if offer.None? && intent == AcceptOffer then None
      else
        var ref := if offer.Some? then Some(offer.value.ref) else None;
        var auth := Authorization(intent, ref, cap.termsHash, cap.id, cap.epoch);
        Some(bb.(authorizations := bb.authorizations + [auth],
                 capabilities := bb.capabilities[cap.id := cap]))
  }

  /** A capability that is neither released nor revoked. */
  predicate LiveCap(bb: Blackboard, k: string) {
    k in bb.capabilities && !bb.capabilities[k].consumed
  }

  function QueueLine(bb: Blackboard, kind: LineKind, capId: Option<string>, offerRef: Option<string>)
    : Option<Blackboard>
  {
    if kind == AcceptLine && !LiveCap(bb, Name(capId)) then None
    else if kind != DeclineLine then Some(bb)
    else
      match FindOffer(bb.offers, Name(offerRef))
      case None => None
      case Some(offer) => Some(bb.(offers := PutOffer(bb.offers, offer.(status := Declined))))
  }

  /** The offer an authorization was for. */
  function AuthorizedOffer(bb: Blackboard, k: string): Option<Offer>
  {
    match FindAuthorization(bb.authorizations, k)
    case None => None
    case Some(auth) => FindOffer(bb.offers, if auth.ref.Some? then auth.ref.value else "")
  }

  /** The time-free revalidation, and the capability's own expiry. */
  predicate Releasable(bb: Blackboard, k: string, t: nat) {
    && LiveCap(bb, k)
    && FindAuthorization(bb.authorizations, k).Some?
    && var cap := bb.capabilities[k];
       var offer := AuthorizedOffer(bb, k);
       && cap.epoch == bb.epoch && bb.fences == []
       && offer.Some? && offer.value.status == Open
       && offer.value.termsHash == Some(cap.termsHash)
       && cap.expires > t
       && !(cap.intent == AcceptOffer && ReleasedTerms(bb.capabilities, cap.termsHash))
  }

  function Release(bb: Blackboard, capId: Option<string>, t: nat): Option<Blackboard>
  {
    match capId
    case None => Some(bb)
    case Some(k) =>
      if !Releasable(bb, k, t) then None
      else Some(bb.(capabilities := bb.capabilities[k := bb.capabilities[k].(consumed := true)]))
  }

  function Revoke(bb: Blackboard, capId: Option<string>): Option<Blackboard>
  {
    match capId
    case None => Some(bb)
    case Some(k) =>
      if !LiveCap(bb, k) then None else Some(bb.(capabilities := bb.capabilities - {k}))
  }

  // ---------------------------------------------------------------- the status machine

  predicate Terminal(s: CaseStatus) {
    s == VerifiedComplete || s == VerifiedNoDeal || s == Escalated || s == Abandoned || s == ClosedNoAction
  }

  predicate Edge(was: CaseStatus, to: CaseStatus) {
    match was
    case Intake => to == Mandated || to == InCall
    case Mandated => to == InCall
    case InCall =>
      to == AwaitingApproval || to == CommitAuthorized || to == VerifiedNoDeal || to == ClosedNoAction
    case AwaitingApproval => to == InCall || to == NeedsReplan
    case CommitAuthorized => to == Committed || to == NeedsReplan
    case Committed => to == EvidencePending || to == Escalated
    case EvidencePending => to == VerifiedComplete || to == NeedsReplan
    case NeedsReplan => to == InCall || to == Escalated
    case _ => false
  }

  function ChangeStatus(bb: Blackboard, previous: CaseStatus, next: CaseStatus): Option<Blackboard>
  {
    if previous != bb.status then None
    else if !Edge(previous, next) && !(next == Abandoned && !Terminal(previous)) then None
    else
      var released := |ReleasedAccepts(bb.capabilities)|;
      if next == VerifiedComplete && (bb.completion != Some(true) || released != 1) then None
      else if next == VerifiedNoDeal && (bb.completion != Some(true) || released != 0) then None
      else Some(bb.(status := next))
  }

  // ---------------------------------------------------------------- apply and fold

  function Reduce(bb: Blackboard, e: Event): Option<Blackboard>
  {
    match e.body
    case OfferRecorded(ref, revision, slots, expires) => RecordOffer(bb, ref, revision, slots, expires)
    case ReadbackUpdated(ref, revision, statuses, hash) => Readback(bb, ref, revision, statuses, hash)
    case FenceChanged(op, fence, utt) => ChangeFence(bb, op, fence, utt, e.seqNo)
    case EpochBumped(epochNew, reason) => Bump(bb, epochNew, reason)
    case MandateProposed(m) => Propose(bb, m)
    case MandateDecided(id, hash, decision, who) => DecideMandate(bb, id, hash, decision, who)
    case ApprovalPosted(post) => TakePost(bb, post)
    case ApprovalRequested(card) => RequestCard(bb, card)
    case ApprovalDecided(id, decision, who) => DecideCard(bb, id, decision, who, e.t)
    case ActionAuthorized(intent, cap) => Authorize(bb, intent, cap, e.t)
    case Verbatim(kind, capId, offerRef) => QueueLine(bb, kind, capId, offerRef)
    case Released(capId) => Release(bb, capId, e.t)
    case Revoked(capId) => Revoke(bb, capId)
    case StatusChanged(previous, next) => ChangeStatus(bb, previous, next)
    case CompletionDecided(ok) => Some(bb.(completion := Some(ok)))
    case SessionStarted(_) => Some(bb)
    case SessionEnded => Some(bb)
    case Record(_, joins) => if joins then Some(bb) else None
  }

  /** One event: `None` is the rejection the reducer raises. */
  function Apply(bb: Blackboard, e: Event): Option<Blackboard>
  {
    match Reduce(bb, e)
    case None => None
    case Some(next) => Some(next.(seqNo := e.seqNo, t := e.t))
  }

  /** The blackboard after the first `i` events, where a rejected event changes nothing. */
  function State(log: seq<Event>, i: nat): Blackboard
    requires i <= |log|
  {
    if i == 0 then BLANK
    else
      match Apply(State(log, i - 1), log[i - 1])
      case None => State(log, i - 1)
      case Some(bb) => bb
  }

  /** The fold takes the log. */
  ghost predicate Folds(log: seq<Event>) {
    forall i | 0 <= i < |log| :: Apply(State(log, i), log[i]).Some?
  }

  // ---------------------------------------------------------------- what each event may change

  /** Everything a reducer leaves alone. */
  lemma Frame(bb: Blackboard, e: Event)
    requires Apply(bb, e).Some?
    ensures var next := Apply(bb, e).value;
      && next.seqNo == e.seqNo && next.t == e.t
      && (next.epoch != bb.epoch ==> e.body.EpochBumped? && next.epoch > bb.epoch)
      && (next.pending != bb.pending ==> e.body.ApprovalRequested? || e.body.ApprovalDecided?)
      && (next.approvals != bb.approvals ==> e.body.ApprovalDecided?)
      && (next.authorizations != bb.authorizations ==> e.body.ActionAuthorized?)
      && (next.capabilities != bb.capabilities ==>
            e.body.ActionAuthorized? || e.body.Released? || e.body.Revoked?)
      && (next.mandate != bb.mandate ==>
            e.body.MandateProposed? || e.body.MandateDecided? || e.body.EpochBumped?)
  {
    hide FindOffer, PutOffer, FindAuthorization, ReleasedTerms, AcceptInFlight, CardCurrent, Edge,
      Unconfirmed, IsOfferRef, PutApproval, AuthorizedOffer, OfferWithTerms, Without;
  }
}
