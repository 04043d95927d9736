/**
 The blackboard and the event envelope, as far as authority is concerned: offers, cards and their
 approvals, the mandate, capabilities, fences, epochs and the case status.
 */
module Contract {
  import opened Wrappers

  // ---------------------------------------------------------------- state

  datatype Decision = Granted | Denied
  datatype Approver = Ui | SimApprover
  datatype SlotStatus = Unheard | Heard | Confirmed
  datatype OfferStatus = Open | Withdrawn | Expired | Declined | Accepted
  datatype MandateStatus = Proposed | MandateGranted | MandateDenied | MandateRevoked
  datatype Intent = AcceptOffer | SubmitTransaction

  datatype CaseStatus =
    | Intake | Mandated | InCall | AwaitingApproval | CommitAuthorized | Committed
    | EvidencePending | NeedsReplan | VerifiedComplete | VerifiedNoDeal
    | Escalated | Abandoned | ClosedNoAction

  datatype Slot = Slot(field: string, value: string, status: SlotStatus)

  datatype Offer = Offer(
    ref: string, revision: nat, slots: seq<Slot>, status: OfferStatus,
    expires: Option<int>, termsHash: Option<string>)

  datatype Bounds = Bounds(
    maxPrice: Option<int>, maxTerm: Option<int>, maxFees: Option<int>,
    required: set<string>, forbidden: set<string>)

  datatype Mandate = Mandate(
    id: string, hash: string, status: MandateStatus, epoch: int,
    bounds: Bounds, expires: Option<int>, decidedBy: Option<Approver>)

  datatype Binding = Binding(
    ref: string, revision: nat, account: string, principal: string, purpose: string, epoch: nat)

  datatype Card = Card(
    id: string, ref: string, revision: nat, termsHash: string, readback: string,
    epoch: nat, expires: int, binding: Binding)

  datatype Approval = Approval(
    id: string, decision: Decision, who: Approver, termsHash: string, epoch: nat,
    expires: Option<int>)

  datatype Capability = Capability(
    id: string, actionId: string, intent: Intent, termsHash: string, epoch: int,
    expires: int, consumed: bool)

  datatype Authorization = Authorization(
    intent: Intent, ref: Option<string>, termsHash: string, capId: string, epoch: int)

  datatype Fence = Fence(id: string, utt: string, raisedSeq: nat)

  /** `offers` and `approvals` keep the order in which their keys came, as Python's dicts do. */
  datatype Blackboard = Blackboard(
    seqNo: nat, t: nat, epoch: nat, fences: seq<Fence>, offers: seq<Offer>, status: CaseStatus,
    mandate: Option<Mandate>, pending: Option<Card>, approvals: seq<Approval>,
    authorizations: seq<Authorization>, capabilities: map<string, Capability>,
    completion: Option<bool>)

  const BLANK := Blackboard(0, 0, 0, [], [], Intake, None, None, [], [], map[], None)

  // ---------------------------------------------------------------- events

  datatype Actor = FastActor | SlowActor | GuardActor | KernelActor | UiActor | SimActor | WorldActor

  datatype Subject = OfApproval | OfMandate

  datatype Post = Post(
    subject: Subject, id: string, decision: Decision, hash: string, epoch: int)

  datatype FenceOp = Raised | Cleared | OtherOp
  datatype LineKind = AcceptLine | DeclineLine | OtherLine
  datatype BumpReason = MandateWasDecided | SlowRevoke | TightenMandate | F2sRevoke

  /** What the opening event says of its session, and the manifest of its bundle repeats. */
  datatype Heading = Heading(cfgHash: string, split: string, contractVersion: string)

  /**
   The event types that touch authority. `Record` stands for every other registered type:
   `joins` says whether its own reducer takes it, and `derived` whether it needs causes.
   */
  datatype Body =
    | OfferRecorded(ref: string, revision: int, slots: seq<Slot>, expires: Option<int>)
    | ReadbackUpdated(ref: string, revision: int, statuses: map<string, SlotStatus>, hash: Option<string>)
    | FenceChanged(op: FenceOp, fence: string, utt: string)
    | EpochBumped(epochNew: int, reason: BumpReason)
    | MandateProposed(mandate: Mandate)
    | MandateDecided(mandateId: string, mandateHash: string, decision: Decision, who: Approver)
    | ApprovalPosted(post: Post)
    | ApprovalRequested(card: Card)
    | ApprovalDecided(approvalId: string, decision: Decision, who: Approver)
    | ActionAuthorized(intent: Intent, cap: Capability)
    | Verbatim(kind: LineKind, capId: Option<string>, offerRef: Option<string>)
    | Released(capId: Option<string>)
    | Revoked(capId: Option<string>)
    | StatusChanged(previous: CaseStatus, next: CaseStatus)
    | CompletionDecided(ok: bool)
    | SessionStarted(heading: Heading)
    | SessionEnded
    | Record(derived: bool, joins: bool)

  datatype Event = Event(
    seqNo: nat, t: nat, actor: Actor, causes: seq<nat>, epoch: nat, body: Body)

  function ActorOf(who: Approver): Actor
  {
    match who
    case Ui => UiActor
    case SimApprover => SimActor
  }

  // ---------------------------------------------------------------- the envelope

  predicate CauseRequired(b: Body) {
    match b
    case ApprovalPosted(_) => false
    case SessionStarted(_) => false
    case SessionEnded => false
    case Record(derived, _) => derived
    case _ => true
  }

  predicate MayEmit(a: Actor, b: Body) {
    match b
    case ApprovalPosted(_) => a == UiActor || a == SimActor
    case ApprovalDecided(_, _, _) => a == KernelActor
    case MandateDecided(_, _, _, _) => a == KernelActor
    case Released(_) => a == KernelActor
    case FenceChanged(_, _, _) => a == KernelActor || a == GuardActor
    case EpochBumped(_, _) => a == KernelActor || a == GuardActor
    case Revoked(_) => a != WorldActor
    case SessionStarted(_) => a != WorldActor
    case SessionEnded => a != WorldActor
    case Record(_, _) => true
    case _ => a == GuardActor
  }

  predicate MandateOk(m: Mandate) {
    m.status == MandateGranted || m.status == MandateDenied ==> m.decidedBy.Some?
  }

  /** The validators of the typed payloads. */
  predicate PayloadOk(b: Body) {
    match b
    case EpochBumped(epochNew, _) => epochNew >= 1
    case MandateProposed(m) => MandateOk(m) && m.status == Proposed && m.decidedBy.None?
    case ApprovalRequested(card) =>
      card.binding.ref == card.ref && card.binding.revision == card.revision
      && card.binding.epoch == card.epoch
    case _ => true
  }

  /** The rules every event meets on its own. */
  predicate EnvelopeOk(e: Event) {
    && (CauseRequired(e.body) ==> e.causes != [])
    && (forall c | c in e.causes :: c < e.seqNo)
    && MayEmit(e.actor, e.body)
    && PayloadOk(e.body)
  }

  // ---------------------------------------------------------------- lookups

  function FindOffer(offers: seq<Offer>, ref: string): (r: Option<Offer>)
    ensures r.Some? ==> r.value in offers && r.value.ref == ref
    ensures r.None? ==> forall o | o in offers :: o.ref != ref
  {
    if offers == [] then None
    else if offers[0].ref == ref then Some(offers[0])
    else FindOffer(offers[1..], ref)
  }

  /** A dict assignment: an existing key keeps its place. */
  function PutOffer(offers: seq<Offer>, offer: Offer): (r: seq<Offer>)
    ensures FindOffer(r, offer.ref) == Some(offer)
    ensures forall ref | ref != offer.ref :: FindOffer(r, ref) == FindOffer(offers, ref)
  {
    if offers == [] then [offer]
    else if offers[0].ref == offer.ref then [offer] + offers[1..]
    else [offers[0]] + PutOffer(offers[1..], offer)
  }

  predicate HasApproval(approvals: seq<Approval>, id: string) {
    exists i | 0 <= i < |approvals| :: approvals[i].id == id
  }

  function PutApproval(approvals: seq<Approval>, a: Approval): seq<Approval>
  {
    if approvals == [] then [a]
    else if approvals[0].id == a.id then [a] + approvals[1..]
    else [approvals[0]] + PutApproval(approvals[1..], a)
  }

  /** The first offer bound to these terms. */
  function OfferWithTerms(offers: seq<Offer>, hash: string): (r: Option<Offer>)
    ensures r.Some? ==> r.value in offers && r.value.termsHash == Some(hash)
  {
    if offers == [] then None
    else if offers[0].termsHash == Some(hash) then Some(offers[0])
    else OfferWithTerms(offers[1..], hash)
  }

  /** The first authorization of a capability. */
  function FindAuthorization(auths: seq<Authorization>, capId: string): (r: Option<Authorization>)
    ensures r.Some? ==> r.value in auths && r.value.capId == capId
    ensures r.None? ==> forall a | a in auths :: a.capId != capId
  {
    if auths == [] then None
    else if auths[0].capId == capId then Some(auths[0])
    else FindAuthorization(auths[1..], capId)
  }

  // ---------------------------------------------------------------- capabilities

  predicate ReleasedAccept(caps: map<string, Capability>) {
    exists k | k in caps :: caps[k].intent == AcceptOffer && caps[k].consumed
  }

  predicate ReleasedTerms(caps: map<string, Capability>, hash: string) {
    exists k | k in caps ::
      caps[k].intent == AcceptOffer && caps[k].consumed && caps[k].termsHash == hash
  }

  /** An accept capability neither released nor revoked: one per case. */
  predicate AcceptInFlight(caps: map<string, Capability>) {
    exists k | k in caps :: caps[k].intent == AcceptOffer && !caps[k].consumed
  }

  /** The capabilities of released accepts. */
  function ReleasedAccepts(caps: map<string, Capability>): set<string>
  {
    set k | k in caps && caps[k].intent == AcceptOffer && caps[k].consumed
  }
}
