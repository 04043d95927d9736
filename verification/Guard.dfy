/**
 The authorization rules: pure checks over the blackboard that return the effect Guard may emit,
 or the reason it may not.
 */
module Guard {
  import opened Wrappers
  import opened Contract
  import opened Fold

  const CARD_TTL := 120_000
  const CAP_TTL := 60_000

  datatype Terms = Terms(
    price: int, term: int, feeTotal: int, features: set<string>, changes: set<string>, rest: string)

  /** Task data a rule binds to. */
  datatype Case = Case(id: string, account: string, principal: string)

  /** What the rules ask of modules that are not modelled: any functions of these types. */
  datatype Rules = Rules(
    offerTerms: (string, nat, seq<(string, string)>) -> Option<Terms>,
    termsHash: Terms -> string,
    missingField: Offer -> bool,
    unsupported: set<string> -> bool,
    readback: Offer -> string,
    actionId: (string, string, string, nat, string, string) -> string)

  datatype Denial =
    | FenceRaised | NoSuchOffer | OfferNotOpen | OfferExpired | ReadbackNotConfirmed | PolicyViolation
    | ApprovalPending
    | AlreadyCommitted | CaseClosed | NotInCall | AlreadyAccepted | ApprovalDenied | ApprovalStaleEpoch
    | MandateStaleEpoch | MandateExpired | ApprovalExpired | OutsideMandate | NotAuthorized
    | AlreadyAuthorized | AnotherAcceptInFlight
    | AlreadyDecided | NoPendingCard | SubjectHashMismatch | StaleEpoch | CardExpired | CardSuperseded
    | NoProposal

  // ---------------------------------------------------------------- identifiers

  function Digit(d: nat): char
    requires d < 10
  {
    ['0', '1', '2', '3', '4', '5', '6', '7', '8', '9'][d]
  }

  /** `str(n)`. */
  function Digits(n: nat): string
  {
    if n < 10 then [Digit(n)] else Digits(n / 10) + [Digit(n % 10)]
  }

  /** What the ids of all cards of this offer revision in this epoch start with. */
  function Stem(ref: string, revision: nat, epoch: nat): string
  {
    ("apr-" + ref + "-" + ['r'] + Digits(revision) + "-") + ['e'] + Digits(epoch) + ['-']
  }

  /** How many decided approvals have an id that starts with the stem. */
  function CountStem(approvals: seq<Approval>, stem: string): nat
  {
    if approvals == [] then 0
    else (if stem <= approvals[0].id then 1 else 0) + CountStem(approvals[1..], stem)
  }

  function CardId(ref: string, revision: nat, epoch: nat, n: nat): string
  {
    Stem(ref, revision, epoch) + Digits(n)
  }

  function CapId(n: nat): string
  {
    "cap-" + Digits(n)
  }

  // ---------------------------------------------------------------- the open offer

  /** What the terms are read from: the fields and values of the slots, not their statuses. */
  function Contents(slots: seq<Slot>): seq<(string, string)>
  {
    seq(|slots|, i requires 0 <= i < |slots| => (slots[i].field, slots[i].value))
  }

  function TermsOf(r: Rules, o: Offer): Option<Terms>
  {
    r.offerTerms(o.ref, o.revision, Contents(o.slots))
  }

  predicate HardViolation(r: Rules, terms: Terms, m: Option<Mandate>) {
    || (m.Some? && !(m.value.bounds.required <= terms.features))
    || (m.Some? && m.value.bounds.forbidden * terms.changes != {})
    || r.unsupported(terms.changes)
  }

  predicate ReadbackConfirmed(r: Rules, offer: Offer) {
    && (forall i | 0 <= i < |offer.slots| :: offer.slots[i].status == Confirmed)
    && (forall i, j | 0 <= i < j < |offer.slots| :: offer.slots[i].field != offer.slots[j].field)
    && !r.missingField(offer)
  }

  /** An open, unexpired, confirmed offer without hard violations. */
  function OpenOffer(r: Rules, offer: Option<Offer>, m: Option<Mandate>, t: nat, fenced: bool)
    : Result<(Offer, Terms), Denial>
  {
    if fenced then Refused(FenceRaised)
    else if offer.None? then Refused(NoSuchOffer)
    else
      var o := offer.value;
      if o.status != Open then Refused(OfferNotOpen)
      else if o.expires.Some? && o.expires.value <= t then Refused(OfferExpired)
      else
        var terms := TermsOf(r, o);
        if terms.None? || o.termsHash != Some(r.termsHash(terms.value)) || !ReadbackConfirmed(r, o) then
          Refused(ReadbackNotConfirmed)
        else if HardViolation(r, terms.value, m) then Refused(PolicyViolation)
        else Allowed((o, terms.value))
  }

  function OpenOfferOf(r: Rules, bb: Blackboard, ref: string): Result<(Offer, Terms), Denial>
  {
    OpenOffer(r, FindOffer(bb.offers, ref), bb.mandate, bb.t, bb.fences != [])
  }

  // ---------------------------------------------------------------- cards

  function Earliest(a: Option<int>, b: int): int
  {
    if a.Some? && a.value < b then a.value else b
  }

  /** The pending card blocks a new one: it is current, of this epoch and unexpired. */
  predicate CardBlocks(bb: Blackboard) {
    && bb.pending.Some?
    && CardCurrent(bb, bb.pending.value)
    && bb.pending.value.epoch == bb.epoch
    && bb.pending.value.expires > bb.t
  }

  function RequestApproval(r: Rules, bb: Blackboard, ref: string, c: Case): Result<Card, Denial>
  {
    match OpenOfferOf(r, bb, ref)
    case Refused(why) => Refused(why)
    case Allowed((offer, terms)) =>
      if CardBlocks(bb) then Refused(ApprovalPending)
      else
        var stem := Stem(offer.ref, offer.revision, bb.epoch);
        var n := CountStem(bb.approvals, stem);
        Allowed(Card(
          stem + Digits(n), offer.ref, offer.revision, r.termsHash(terms), r.readback(offer), bb.epoch,
          Earliest(offer.expires, bb.t + CARD_TTL),
          Binding(offer.ref, offer.revision, c.account, c.principal, "accept_offer", bb.epoch)))
  }

  // ---------------------------------------------------------------- grants

  datatype Grant = ByMandate(mandate: Mandate) | ByApproval(approval: Approval)

  predicate Over(bound: Option<int>, value: int) {
    bound.Some? && value > bound.value
  }

  /** Why the mandate does not cover the terms now, if it does not. */
  function MandateGap(bb: Blackboard, terms: Terms): Option<Denial>
  {
    if bb.mandate.None? || bb.mandate.value.status != MandateGranted then Some(NotAuthorized)
    else
      var m := bb.mandate.value;
      if m.epoch != bb.epoch then Some(MandateStaleEpoch)
      else if m.expires.Some? && m.expires.value <= bb.t then Some(MandateExpired)
      else if Over(m.bounds.maxPrice, terms.price) || Over(m.bounds.maxTerm, terms.term)
              || Over(m.bounds.maxFees, terms.feeTotal) then Some(OutsideMandate)
      else None
  }

  predicate Mine(a: Approval, hash: string) {
    a.termsHash == hash
  }

  predicate Now(a: Approval, hash: string, epoch: nat) {
    a.termsHash == hash && a.epoch == epoch
  }

  predicate Live(a: Approval, hash: string, epoch: nat, t: nat) {
    Now(a, hash, epoch) && a.expires.Some? && a.expires.value > t
  }

  function FirstLive(approvals: seq<Approval>, hash: string, epoch: nat, t: nat): (r: Option<Approval>)
    ensures r.Some? ==> r.value in approvals && Live(r.value, hash, epoch, t)
    ensures r.None? ==> forall a | a in approvals :: !Live(a, hash, epoch, t)
  {
    if approvals == [] then None
    else if Live(approvals[0], hash, epoch, t) then Some(approvals[0])
    else FirstLive(approvals[1..], hash, epoch, t)
  }

  /** The covering mandate or a live approval, else why neither. A denial wins over both. */
  function GrantFor(bb: Blackboard, hash: string, terms: Terms): Result<Grant, Denial>
  {
    if exists a | a in bb.approvals :: Now(a, hash, bb.epoch) && a.decision == Denied then Refused(ApprovalDenied)
    else
      var gap := MandateGap(bb, terms);
      if bb.mandate.Some? && gap.None? && !ReleasedAccept(bb.capabilities) then
        Allowed(ByMandate(bb.mandate.value))
      else
        var live := FirstLive(bb.approvals, hash, bb.epoch, bb.t);
        if live.Some? then Allowed(ByApproval(live.value))
        else if exists a | a in bb.approvals :: Now(a, hash, bb.epoch) then Refused(ApprovalExpired)
        else if exists a | a in bb.approvals :: Mine(a, hash) then Refused(ApprovalStaleEpoch)
        else Refused(if gap.Some? then gap.value else NotAuthorized)
  }

  function GrantId(g: Grant): string
  {
    match g
    case ByMandate(m) => m.hash
    case ByApproval(a) => a.id
  }

  function GrantExpires(g: Grant): Option<int>
  {
    match g
    case ByMandate(m) => m.expires
    case ByApproval(a) => a.expires
  }

  /** The capability to say yes, or why there is none. */
  function AcceptOfferRule(r: Rules, bb: Blackboard, ref: string, c: Case): Result<Capability, Denial>
  {
    if bb.status == Committed || bb.status == EvidencePending then Refused(AlreadyCommitted)
    else if Terminal(bb.status) then Refused(CaseClosed)
    else if bb.status != InCall then Refused(NotInCall)
    else
      match OpenOfferOf(r, bb, ref)
      case Refused(why) => Refused(why)
      case Allowed((offer, terms)) =>
        var hash := r.termsHash(terms);
        if ReleasedTerms(bb.capabilities, hash) then Refused(AlreadyAccepted)
        else
          match GrantFor(bb, hash, terms)
          case Refused(why) => Refused(why)
          case Allowed(grant) =>
            var bid := r.actionId(c.id, "accept_offer", ref, offer.revision, hash, GrantId(grant));
            if exists k | k in bb.capabilities :: bb.capabilities[k].actionId == bid then
              Refused(AlreadyAuthorized)
            else if AcceptInFlight(bb.capabilities) then Refused(AnotherAcceptInFlight)
            else
              var until := Earliest(GrantExpires(grant), Earliest(offer.expires, bb.t + CAP_TTL));
              Allowed(Capability(
                CapId(|bb.authorizations| + 1), bid, AcceptOffer, hash, bb.epoch, until, false))
  }

  // ---------------------------------------------------------------- decisions

  /** The decision a post may become, or why it is refused. */
  function Decide(bb: Blackboard, post: Post, who: Approver): Result<Body, Denial>
  {
    if post.subject == OfMandate then
      if bb.mandate.Some? && bb.mandate.value.id == post.id && bb.mandate.value.status != Proposed then
        Refused(AlreadyDecided)
      else if bb.mandate.None? || bb.mandate.value.id != post.id then Refused(NoProposal)
      else
        var m := bb.mandate.value;
        if post.hash != m.hash then Refused(SubjectHashMismatch)
        else if !(post.epoch == m.epoch == bb.epoch) then Refused(StaleEpoch)
        else Allowed(MandateDecided(m.id, m.hash, post.decision, who))
    else if HasApproval(bb.approvals, post.id) then Refused(AlreadyDecided)
    else if bb.pending.None? || bb.pending.value.id != post.id then Refused(NoPendingCard)
    else
      var card := bb.pending.value;
      if !CardCurrent(bb, card) then Refused(CardSuperseded)
      else if post.hash != card.termsHash then Refused(SubjectHashMismatch)
      else if !(post.epoch == card.epoch == bb.epoch) then Refused(StaleEpoch)
      else if card.expires <= bb.t then Refused(CardExpired)
      else Allowed(ApprovalDecided(card.id, post.decision, who))
  }
}
