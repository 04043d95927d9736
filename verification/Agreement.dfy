/**
 Guard's `decide` is asked before the post and its decision are written. It says yes exactly when
 the log will take both.
 */
module Agreement {
  import opened Wrappers
  import opened Contract
  import opened Fold
  import opened Guard
  import opened Causes
  import opened Capabilities
  import opened Runs
  import opened Cards
  import opened Provenance
  import opened Writing

  /** The decision a post asks for. */
  function Verdict(post: Post, who: Approver): Body
  {
    match post.subject
    case OfApproval => ApprovalDecided(post.id, post.decision, who)
    case OfMandate => MandateDecided(post.id, post.hash, post.decision, who)
  }

  function PostEvent(log: seq<Event>, post: Post, who: Approver, causes: seq<nat>, t: nat): Event
  {
    Event(|log|, t, ActorOf(who), causes, Board(log).epoch, ApprovalPosted(post))
  }

  function DecisionEvent(log: seq<Event>, post: Post, who: Approver, t: nat): Event
  {
    Event(|log| + 1, t, KernelActor, [|log|], Board(log).epoch, Verdict(post, who))
  }

  /** The log with the post at `t1` and the decision that cites it at `t2`. */
  function WithDecision(log: seq<Event>, post: Post, who: Approver, causes: seq<nat>, t1: nat, t2: nat): seq<Event>
  {
    log + [PostEvent(log, post, who, causes, t1)] + [DecisionEvent(log, post, who, t2)]
  }

  // ---------------------------------------------------------------- what the fold asks

  /** What a post and its decision are about is as the post says. */
  predicate Bound(bb: Blackboard, post: Post) {
    match post.subject
    case OfApproval =>
      && bb.pending.Some?
      && bb.pending.value.id == post.id && bb.pending.value.termsHash == post.hash
      && post.epoch == bb.pending.value.epoch == bb.epoch
    case OfMandate =>
      && bb.mandate.Some? && bb.mandate.value.status == Proposed
      && bb.mandate.value.id == post.id && bb.mandate.value.hash == post.hash
      && post.epoch == bb.mandate.value.epoch == bb.epoch
  }

  /** A card must also be current and unexpired. */
  predicate Unexpired(bb: Blackboard, post: Post, t: nat) {
    post.subject == OfApproval ==>
      bb.pending.Some? && CardCurrent(bb, bb.pending.value) && bb.pending.value.expires > t
  }

  lemma PostJoins(bb: Blackboard, e: Event)
    requires e.body.ApprovalPosted?
    ensures Apply(bb, e) == if Bound(bb, e.body.post) then Some(bb.(seqNo := e.seqNo, t := e.t)) else None
  {}

  lemma DecisionJoins(bb: Blackboard, e: Event, post: Post, who: Approver)
    requires e.body == Verdict(post, who) && Bound(bb, post)
    ensures Apply(bb, e).Some? <==> Unexpired(bb, post, e.t)
  {
    hide CardCurrent, PutApproval;
  }

  lemma DecideExactly(bb: Blackboard, post: Post, who: Approver)
    ensures Decide(bb, post, who) == Allowed(Verdict(post, who))
       <==> Bound(bb, post) && Unexpired(bb, post, bb.t)
            && (post.subject == OfApproval ==> !HasApproval(bb.approvals, post.id))
  {
    hide CardCurrent, HasApproval;
  }

  lemma OpenTime(bb: Blackboard, post: Post, seqNo: nat, t1: nat, t2: nat)
    ensures Unexpired(bb.(seqNo := seqNo, t := t1), post, t2) == Unexpired(bb, post, t2)
    ensures Bound(bb.(seqNo := seqNo, t := t1), post) == Bound(bb, post)
  {
    hide FindOffer;
  }

  // ---------------------------------------------------------------- what the log rules ask

  lemma PostCausesMet(log: seq<Event>, e: Event)
    requires Dense(log) && e.body.ApprovalPosted? && forall c | c in e.causes :: c < |log|
    ensures CausesMet(GatherAll(log, |log|), e)
    ensures Gather(GatherAll(log, |log|), e).decided == GatherAll(log, |log|).decided
  {
    hide GatherAll, PostsCited;
    SeenDense(log, |log|);
  }

  lemma CiteOne(seen: map<nat, Event>, p: nat)
    requires p in seen && seen[p].body.ApprovalPosted?
    ensures PostsCited(seen, [p]) == [p]
  {
    assert PostsCited(seen, [p]) == [p] + PostsCited(seen, []);
  }

  lemma DecisionCausesMet(log: seq<Event>, pe: Event, de: Event, who: Approver)
    requires Dense(log) && pe.seqNo == |log| && pe.body.ApprovalPosted? && pe.actor == ActorOf(who)
    requires forall c | c in pe.causes :: c < |log|
    requires de.body == Verdict(pe.body.post, who) && de.causes == [|log|]
    ensures CausesMet(GatherAll(log + [pe], |log| + 1), de)
       <==> WhatOf(pe.body.post) !in GatherAll(log, |log|).decided
  {
    hide GatherAll, PostsCited, WhatOf, Gather, CausesMet, Decides, Verdict, State;
    AppendStates(log, pe);
    GatherNext(log + [pe], |log|);
    PostCausesMet(log, pe);
    DenseAppend(log, pe);
    SeenDense(log + [pe], |log| + 1);
    CitingMet(GatherAll(log + [pe], |log| + 1), |log|, pe, de, who);
  }

  lemma CitingMet(g: Gathered, p: nat, pe: Event, de: Event, who: Approver)
    requires p in g.seen && g.seen[p] == pe && pe.body.ApprovalPosted? && pe.actor == ActorOf(who)
    requires de.body == Verdict(pe.body.post, who) && de.causes == [p]
    ensures CausesMet(g, de) <==> WhatOf(pe.body.post) !in g.decided
  {
    hide PostsCited, WhatOf;
    CiteOne(g.seen, p);
  }

  // ---------------------------------------------------------------- agreement

  /** The log takes the post exactly when it is bound. */
  lemma PostWritten(log: seq<Event>, post: Post, who: Approver, causes: seq<nat>, t: nat)
    requires Written(log) && ClockOk(log, t) && forall c | c in causes :: c < |log|
    ensures var e := PostEvent(log, post, who, causes, t);
      && (Written(log + [e]) <==> Bound(Board(log), post))
      && (Bound(Board(log), post) ==> Board(log + [e]) == Board(log).(seqNo := |log|, t := t))
  {
    hide Apply, State, GatherAll, CausesMet, Folds, CausesOk, Stamped, Bound, Dense, ClockOk;
    var e := PostEvent(log, post, who, causes, t);
    WrittenAppend(log, e);
    PostJoins(Board(log), e);
    PostCausesMet(log, e);
  }

  /** What the log as a whole asks of a decision. */
  ghost predicate Decidable(log: seq<Event>, post: Post, t: nat) {
    Bound(Board(log), post) && Unexpired(Board(log), post, t) && WhatOf(post) !in GatherAll(log, |log|).decided
  }

  lemma DecisionWritten(log: seq<Event>, post: Post, who: Approver, causes: seq<nat>, t1: nat, t2: nat)
    requires Written(log) && ClockOk(log, t1) && t1 <= t2 && forall c | c in causes :: c < |log|
    ensures Written(WithDecision(log, post, who, causes, t1, t2)) <==> Decidable(log, post, t2)
  {
    hide Apply, State, GatherAll, CausesMet, Written, Bound, Unexpired, Decides, WhatOf;
    var pe, de := PostEvent(log, post, who, causes, t1), DecisionEvent(log, post, who, t2);
    PostWritten(log, post, who, causes, t1);
    if Written(log + [pe]) {
      WrittenAppend(log + [pe], de);
      OpenTime(Board(log), post, |log|, t1, t2);
      DecisionJoins(Board(log + [pe]), de, post, who);
      assert Dense(log) by { WrittenDense(log); }
      DecisionCausesMet(log, pe, de, who);
      assert EnvelopeOk(de);
    } else if Written(log + [pe] + [de]) {
      WrittenPrefix(log + [pe], de);
    }
  }

  lemma WrittenDense(log: seq<Event>)
    requires Written(log)
    ensures Dense(log) && Folds(log) && Stamped(log)
  {}

  /** A subject is bound, and its id undecided, at whatever time `decide` is asked. */
  lemma DecideAt(bb: Blackboard, post: Post, who: Approver, asked: nat)
    ensures Decide(AtTime(bb, asked), post, who) == Allowed(Verdict(post, who))
       <==> Bound(bb, post) && Unexpired(bb, post, asked)
            && (post.subject == OfApproval ==> !HasApproval(bb.approvals, post.id))
  {
    hide Decide, Bound, Unexpired, HasApproval;
    DecideExactly(AtTime(bb, asked), post, who);
    OpenTime(bb, post, bb.seqNo, asked, asked);
  }

  /**
   For the cards of a run: `decide`, asked when the clock shows `asked`, allows a decision and the
   card has not expired at `t2` exactly when the log takes the post at `t1` and the decision at `t2`.
   */
  lemma DecideAgrees(
      r: Rules, c: Case, log: seq<Event>, post: Post, who: Approver, causes: seq<nat>, asked: nat, t1: nat, t2: nat)
    requires Run(r, c, log) && post.subject == OfApproval
    requires ClockOk(log, t1) && asked <= t2 && t1 <= t2 && forall c | c in causes :: c < |log|
    ensures Written(WithDecision(log, post, who, causes, t1, t2))
       <==> Decide(AtTime(Board(log), asked), post, who) == Allowed(Verdict(post, who))
            && Board(log).pending.Some? && t2 < Board(log).pending.value.expires
  {
    hide Apply, State, GatherAll, Written, WithDecision, HasApproval, CardCurrent, Decide, ClockOk;
    DecisionWritten(log, post, who, causes, t1, t2);
    DecideAt(Board(log), post, who, asked);
    if Bound(Board(log), post) {
      PendingUndecided(r, c, log, |log|);
      if WhatOf(post) in GatherAll(log, |log|).decided {
        DecidedApprovals(r, c, log, |log|, post.id, post.hash);
      }
    }
  }

  /** For mandates they agree exactly when this id and hash was not decided before. */
  lemma DecideMandateAgrees(
      log: seq<Event>, post: Post, who: Approver, causes: seq<nat>, asked: nat, t1: nat, t2: nat)
    requires Written(log) && post.subject == OfMandate
    requires ClockOk(log, t1) && t1 <= t2 && forall c | c in causes :: c < |log|
    ensures Written(WithDecision(log, post, who, causes, t1, t2))
       <==> Decide(AtTime(Board(log), asked), post, who) == Allowed(Verdict(post, who))
            && WhatOf(post) !in GatherAll(log, |log|).decided
  {
    hide Apply, State, GatherAll, Written, WithDecision, HasApproval, CardCurrent, Decide, WhatOf;
    DecisionWritten(log, post, who, causes, t1, t2);
    DecideAt(Board(log), post, who, asked);
  }

  // ---------------------------------------------------------------- a mandate proposed twice

  const BOUNDS := Bounds(None, None, None, {}, {})
  const PROPOSED := Mandate("m", "h", Proposed, 0, BOUNDS, None, None)
  const DENIAL := Post(OfMandate, "m", Denied, "h", 0)

  function Opening(n: nat): Event
  {
    Event(n, 0, SimActor, [], 0, Record(false, true))
  }

  function Proposal(n: nat): Event
  {
    Event(n, 0, GuardActor, [0], 0, MandateProposed(PROPOSED))
  }

  /** A log that opens, and proposes the mandate. */
  function Once(): seq<Event>
  {
    [] + [Opening(0)] + [Proposal(1)]
  }

  /** The same mandate proposed again after its denial, in the same epoch. */
  function Twice(): seq<Event>
  {
    WithDecision(Once(), DENIAL, Ui, [], 0, 0) + [Proposal(4)]
  }

  lemma ProposalJoins(log: seq<Event>)
    requires Written(log) && log != [] && log[|log| - 1].t == 0 && Board(log).epoch == 0
    ensures Written(log + [Proposal(|log|)])
    ensures Board(log + [Proposal(|log|)]).mandate == Some(PROPOSED) && Board(log + [Proposal(|log|)]).epoch == 0
  {
    hide State, GatherAll, Folds, Stamped, CausesOk, PostsCited;
    SeenDense(log, |log|);
    WrittenAppend(log, Proposal(|log|));
  }

  lemma OnceWritten()
    ensures Written(Once()) && Board(Once()).mandate == Some(PROPOSED) && Board(Once()).epoch == 0
  {
    hide State, GatherAll, PostsCited, Apply;
    assert State([], 0) == BLANK by { NoCaps([]); }
    assert Apply(BLANK, Opening(0)) == Some(BLANK) by { OpeningJoins(); }
    GatherNothing([]);
    WrittenAppend([], Opening(0));
    ProposalJoins([] + [Opening(0)]);
  }

  lemma OpeningJoins()
    ensures Apply(BLANK, Opening(0)) == Some(BLANK)
  {}

  lemma DecisionBoard(log: seq<Event>, post: Post, who: Approver, t: nat)
    requires Written(log) && ClockOk(log, t) && Written(WithDecision(log, post, who, [], t, t))
    ensures Board(WithDecision(log, post, who, [], t, t)).epoch == Board(log).epoch
    ensures WhatOf(post) in GatherAll(WithDecision(log, post, who, [], t, t), |log| + 2).decided
  {
    hide Apply, State, GatherAll, Written, PostsCited, WhatOf;
    var pe, de := PostEvent(log, post, who, [], t), DecisionEvent(log, post, who, t);
    WrittenPrefix(log + [pe], de);
    PostWritten(log, post, who, [], t);
    WrittenAppend(log + [pe], de);
    Frame(Board(log + [pe]), de);
    AppendStates(log + [pe], de);
    GatherNext(log + [pe] + [de], |log| + 1);
    WrittenDense(log + [pe]);
    SeenDense(log + [pe], |log| + 1);
    CiteOne(GatherAll(log + [pe], |log| + 1).seen, |log|);
  }

  lemma ProposalDecidesNothing(log: seq<Event>, n: nat)
    ensures GatherAll(log + [Proposal(n)], |log| + 1).decided == GatherAll(log, |log|).decided
  {
    hide GatherAll, State, PostsCited;
    AppendStates(log, Proposal(n));
    GatherNext(log + [Proposal(n)], |log|);
  }

  /** `decide` would decide the same mandate again, and the log refuses: it was decided before. */
  lemma MandateProposedTwice()
    ensures Written(Twice())
    ensures Decide(Board(Twice()), DENIAL, Ui) == Allowed(Verdict(DENIAL, Ui))
    ensures !Written(WithDecision(Twice(), DENIAL, Ui, [], 0, 0))
  {
    hide State, GatherAll, Written, Apply, Verdict, Decide;
    var log := Once();
    OnceWritten();
    var again := WithDecision(log, DENIAL, Ui, [], 0, 0);
    OnceUndecided(log);
    DecisionWritten(log, DENIAL, Ui, [], 0, 0);
    DecisionBoard(log, DENIAL, Ui, 0);
    ProposalJoins(again);
    ProposalDecidesNothing(again, 4);
    DecideExactly(Board(Twice()), DENIAL, Ui);
    DecisionWritten(Twice(), DENIAL, Ui, [], 0, 0);
  }

  lemma OnceUndecided(log: seq<Event>)
    requires log == Once()
    ensures WhatOf(DENIAL) !in GatherAll(log, |log|).decided
  {
    hide GatherAll, State, PostsCited;
    ProposalDecidesNothing([Opening(0)], 1);
    assert [] + [Opening(0)] == [Opening(0)];
    GatherNext([Opening(0)], 0);
    GatherNothing([Opening(0)]);
  }
}
