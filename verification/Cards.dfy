/**
 Cards of a run: an offer revision never changes its contents, a card id determines the terms it
 was minted for, and the id of a pending card is never one that was already decided.
 */
module Cards {
  import opened Wrappers
  import opened Contract
  import opened Fold
  import opened Guard
  import opened Identifiers
  import opened Capabilities
  import opened Runs

  // ---------------------------------------------------------------- revisions are immutable

  /** `later` is `now` or replaces it: a new revision, or the same one with the same contents. */
  predicate Follows(now: Offer, later: Offer) {
    && later.ref == now.ref
    && later.revision >= now.revision
    && (later.revision == now.revision ==> Contents(later.slots) == Contents(now.slots) && later.expires == now.expires)
  }

  lemma OfferStep(bb: Blackboard, e: Event, ref: string)
    requires Apply(bb, e).Some? && FindOffer(bb.offers, ref).Some?
    ensures FindOffer(Apply(bb, e).value.offers, ref).Some?
    ensures Follows(FindOffer(bb.offers, ref).value, FindOffer(Apply(bb, e).value.offers, ref).value)
  {
    hide FindOffer, PutOffer, FindAuthorization, CardCurrent, Edge, IsOfferRef, PutApproval, OfferWithTerms,
      Without, ReleasedTerms, AcceptInFlight, Releasable;
  }

  /** An offer is only ever replaced by what follows it. */
  lemma {:induction false} OffersFollow(log: seq<Event>, i: nat, j: nat, ref: string)
    requires i <= j <= |log| && Folds(log) && FindOffer(State(log, i).offers, ref).Some?
    ensures FindOffer(State(log, j).offers, ref).Some?
    ensures Follows(FindOffer(State(log, i).offers, ref).value, FindOffer(State(log, j).offers, ref).value)
    decreases j - i
  {
    hide Apply, State, Folds, FindOffer, Contents;
    if i < j {
      OffersFollow(log, i, j - 1, ref);
      Step(log, j - 1);
      OfferStep(State(log, j - 1), log[j - 1], ref);
    }
  }

  // ---------------------------------------------------------------- what Guard puts on a card

  /** The card is for this offer as it stands. */
  predicate CardFor(r: Rules, bb: Blackboard, card: Card) {
    && FindOffer(bb.offers, card.ref).Some?
    && var o := FindOffer(bb.offers, card.ref).value;
       && o.revision == card.revision
       && TermsOf(r, o).Some? && card.termsHash == r.termsHash(TermsOf(r, o).value)
       && card.epoch == bb.epoch
       && card.id == CardId(card.ref, card.revision, card.epoch,
                            CountStem(bb.approvals, Stem(card.ref, card.revision, card.epoch)))
  }

  lemma RequestedCard(r: Rules, bb: Blackboard, c: Case, card: Card)
    requires RequestApproval(r, bb, card.ref, c) == Allowed(card)
    ensures CardFor(r, bb, card)
  {
    hide Stem, Digits, CountStem, CardCurrent, HardViolation, ReadbackConfirmed;
  }

  lemma RequestAt(r: Rules, c: Case, log: seq<Event>, q: nat)
    requires q < |log| && Run(r, c, log) && log[q].body.ApprovalRequested?
    ensures CardFor(r, State(log, q), log[q].body.card)
  {
    hide Written, State, CardFor, RequestApproval;
    assert FromGuard(r, c, log, q);
    var bb, card := State(log, q), log[q].body.card;
    var asked: nat :| asked <= log[q].t && RequestApproval(r, AtTime(bb, asked), card.ref, c) == Allowed(card);
    RequestedCard(r, AtTime(bb, asked), c, card);
    CardForAnyTime(r, bb, asked, card);
  }

  /** What a card is for does not depend on when Guard was asked. */
  lemma CardForAnyTime(r: Rules, bb: Blackboard, asked: nat, card: Card)
    ensures CardFor(r, AtTime(bb, asked), card) == CardFor(r, bb, card)
  {
    hide FindOffer, TermsOf, CardId, Stem, CountStem;
  }

  /** Two cards with one id are for the same terms of the same epoch. */
  lemma SameIdSameTerms(r: Rules, c: Case, log: seq<Event>, p: nat, q: nat)
    requires p <= q < |log| && Run(r, c, log)
    requires log[p].body.ApprovalRequested? && log[q].body.ApprovalRequested?
    requires log[p].body.card.id == log[q].body.card.id
    ensures log[p].body.card.termsHash == log[q].body.card.termsHash
    ensures log[p].body.card.epoch == log[q].body.card.epoch
  {
    hide Run, State, CardId, Stem, CountStem, FindOffer, Contents;
    RequestAt(r, c, log, p);
    RequestAt(r, c, log, q);
    var a, b := log[p].body.card, log[q].body.card;
    CardIdInjective(
      a.ref, a.revision, a.epoch, CountStem(State(log, p).approvals, Stem(a.ref, a.revision, a.epoch)),
      b.ref, b.revision, b.epoch, CountStem(State(log, q).approvals, Stem(b.ref, b.revision, b.epoch)));
    RunFolds(r, c, log);
    OffersFollow(log, p, q, a.ref);
  }

  // ---------------------------------------------------------------- ids are never reissued

  /** Every decided id counts, and the pending card has the next number of its stem. */
  ghost predicate Numbering(approvals: seq<Approval>, pending: Option<Card>) {
    && (forall i | 0 <= i < |approvals| :: Counted(approvals, approvals[i].id))
    && (pending.Some? ==> NextId(approvals, pending.value))
  }

  ghost predicate Counted(approvals: seq<Approval>, id: string) {
    exists ref, revision: nat, epoch: nat, n: nat ::
      id == CardId(ref, revision, epoch, n) && n < CountStem(approvals, Stem(ref, revision, epoch))
  }

  predicate NextId(approvals: seq<Approval>, card: Card) {
    card.id == CardId(card.ref, card.revision, card.epoch,
                      CountStem(approvals, Stem(card.ref, card.revision, card.epoch)))
  }

  lemma NextIdFresh(approvals: seq<Approval>, card: Card)
    requires Numbering(approvals, Some(card))
    ensures !HasApproval(approvals, card.id)
  {
    hide CardId, Stem, CountStem;
    if HasApproval(approvals, card.id) {
      var i :| 0 <= i < |approvals| && approvals[i].id == card.id;
      assert Counted(approvals, card.id);
      var ref, revision: nat, epoch: nat, n: nat :|
        card.id == CardId(ref, revision, epoch, n) && n < CountStem(approvals, Stem(ref, revision, epoch));
      CardIdInjective(ref, revision, epoch, n, card.ref, card.revision, card.epoch,
        CountStem(approvals, Stem(card.ref, card.revision, card.epoch)));
      assert false;
    }
  }

  lemma StillCounted(approvals: seq<Approval>, a: Approval, id: string)
    requires Counted(approvals, id)
    ensures Counted(approvals + [a], id)
  {
    hide CardId, Stem, CountStem;
    var ref, revision: nat, epoch: nat, n: nat :|
      id == CardId(ref, revision, epoch, n) && n < CountStem(approvals, Stem(ref, revision, epoch));
    CountStemAdd(approvals, a, Stem(ref, revision, epoch));
  }

  /** Deciding the pending card keeps the numbering. */
  lemma NumberingAdds(approvals: seq<Approval>, card: Card, a: Approval)
    requires Numbering(approvals, Some(card)) && a.id == card.id
    ensures Numbering(approvals + [a], None)
  {
    hide CardId, Stem, CountStem, Counted;
    var stem := Stem(card.ref, card.revision, card.epoch);
    var n := CountStem(approvals, stem);
    CountStemAdd(approvals, a, stem);
    StemOfCardId(card.ref, card.revision, card.epoch, n);
    assert Counted(approvals + [a], a.id) by {
      CountedHere(approvals + [a], card.ref, card.revision, card.epoch, n, a.id);
    }
    forall i | 0 <= i < |approvals| ensures Counted(approvals + [a], approvals[i].id) {
      StillCounted(approvals, a, approvals[i].id);
    }
  }

  lemma CountedHere(approvals: seq<Approval>, ref: string, revision: nat, epoch: nat, n: nat, id: string)
    requires id == CardId(ref, revision, epoch, n) && n < CountStem(approvals, Stem(ref, revision, epoch))
    ensures Counted(approvals, id)
  {}

  lemma {:induction false} RunNumbering(r: Rules, c: Case, log: seq<Event>, i: nat)
    requires i <= |log| && Run(r, c, log)
    ensures Numbering(State(log, i).approvals, State(log, i).pending)
  {
    hide Apply, State, Run, Numbering, PutApproval, CardFor, CardId, CountStem;
    if i == 0 {
      NoCaps(log);
      NoNumbering();
    } else {
      RunNumbering(r, c, log, i - 1);
      NumberingStep(r, c, log, i - 1);
    }
  }

  lemma NoNumbering()
    ensures Numbering([], None)
  {}

  lemma NumberingStep(r: Rules, c: Case, log: seq<Event>, i: nat)
    requires i < |log| && Run(r, c, log) && Numbering(State(log, i).approvals, State(log, i).pending)
    ensures Numbering(State(log, i + 1).approvals, State(log, i + 1).pending)
  {
    hide Apply, State, Run, Numbering, PutApproval, CardFor, CardId, CountStem, HasApproval;
    RunFolds(r, c, log);
    CardAt(log, i);
    var e, bb := log[i], State(log, i);
    if e.body.ApprovalRequested? {
      RequestAt(r, c, log, i);
      NumberedCard(r, bb, e.body.card);
    } else if e.body.ApprovalDecided? {
      var card := bb.pending.value;
      var a := ApprovalOf(card, card.id, e.body.decision, e.body.who);
      NextIdFresh(bb.approvals, card);
      PutFreshApproval(bb.approvals, a);
      NumberingAdds(bb.approvals, card, a);
    }
  }

  lemma NumberedCard(r: Rules, bb: Blackboard, card: Card)
    requires CardFor(r, bb, card) && Numbering(bb.approvals, bb.pending)
    ensures Numbering(bb.approvals, Some(card))
  {
    hide CardId, Stem, CountStem, Counted, FindOffer, TermsOf;
  }

  /** `request_approval` never reissues an id that was decided. */
  lemma PendingUndecided(r: Rules, c: Case, log: seq<Event>, i: nat)
    requires i <= |log| && Run(r, c, log) && State(log, i).pending.Some?
    ensures !HasApproval(State(log, i).approvals, State(log, i).pending.value.id)
  {
    hide State, Run, Numbering, HasApproval;
    RunNumbering(r, c, log, i);
    NextIdFresh(State(log, i).approvals, State(log, i).pending.value);
  }

  // ---------------------------------------------------------------- approvals only grow

  /** A decision in a run adds one approval with a new id. */
  lemma DecisionAdds(r: Rules, c: Case, log: seq<Event>, i: nat)
    requires i < |log| && Run(r, c, log) && log[i].body.ApprovalDecided?
    ensures State(log, i).pending.Some? && !HasApproval(State(log, i).approvals, log[i].body.approvalId)
    ensures var card := State(log, i).pending.value;
      && card.id == log[i].body.approvalId && card.expires > log[i].t && card.epoch == State(log, i).epoch
      && State(log, i + 1).approvals
         == State(log, i).approvals + [ApprovalOf(card, card.id, log[i].body.decision, log[i].body.who)]
  {
    hide Apply, State, Run, PutApproval, HasApproval;
    RunFolds(r, c, log);
    CardAt(log, i);
    PendingUndecided(r, c, log, i);
    var card := State(log, i).pending.value;
    PutFreshApproval(State(log, i).approvals, ApprovalOf(card, card.id, log[i].body.decision, log[i].body.who));
  }

  /** One event adds an approval with a new id, or none. */
  lemma ApprovalsStep(r: Rules, c: Case, log: seq<Event>, i: nat)
    requires i < |log| && Run(r, c, log)
    ensures State(log, i).approvals <= State(log, i + 1).approvals
    ensures State(log, i + 1).approvals == State(log, i).approvals || log[i].body.ApprovalDecided?
  {
    hide Apply, State, Run, PutApproval;
    if log[i].body.ApprovalDecided? {
      DecisionAdds(r, c, log, i);
    } else {
      RunFolds(r, c, log);
      CardAt(log, i);
    }
  }

  lemma {:induction false} ApprovalsGrow(r: Rules, c: Case, log: seq<Event>, i: nat, j: nat)
    requires i <= j <= |log| && Run(r, c, log)
    ensures State(log, i).approvals <= State(log, j).approvals
    decreases j - i
  {
    hide Apply, State, Run, PutApproval;
    if i < j {
      ApprovalsGrow(r, c, log, i, j - 1);
      ApprovalsStep(r, c, log, j - 1);
    }
  }

  ghost predicate UniqueIds(approvals: seq<Approval>) {
    forall i, j | 0 <= i < j < |approvals| :: approvals[i].id != approvals[j].id
  }

  lemma {:induction false} ApprovalsUnique(r: Rules, c: Case, log: seq<Event>, i: nat)
    requires i <= |log| && Run(r, c, log)
    ensures UniqueIds(State(log, i).approvals)
  {
    hide Apply, State, Run, PutApproval;
    if i == 0 {
      NoCaps(log);
    } else {
      ApprovalsUnique(r, c, log, i - 1);
      ApprovalsStep(r, c, log, i - 1);
      if log[i - 1].body.ApprovalDecided? {
        DecisionAdds(r, c, log, i - 1);
      }
    }
  }
}
