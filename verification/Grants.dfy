/**
 How many yeses the grants of a run buy: a mandate backs one, each granted approval one, and every
 granted mandate was posted for by the approver it names.
 */
module Grants {
  import opened Wrappers
  import opened Contract
  import opened Fold
  import opened Guard
  import opened Mandates
  import opened Causes
  import opened Capabilities
  import opened Runs
  import opened Cards
  import opened Provenance
  import opened Authority

  // ---------------------------------------------------------------- a mandate comes first

  /** A minted capability that nothing touches stays live. */
  lemma {:induction false} StaysLive(log: seq<Event>, j: nat, m: nat, k: string)
    requires j < m <= |log| && Folds(log) && Authorizes(log[j].body, k) && Untouched(log, j, m, k)
    ensures k in State(log, m).capabilities && State(log, m).capabilities[k] == log[j].body.cap
    ensures !log[j].body.cap.consumed && log[j].body.cap.intent == log[j].body.intent
    decreases m
  {
    hide Apply, State, Folds, Releasable, ReleasedTerms, AcceptInFlight;
    CapsAt(log, m - 1);
    if j < m - 1 {
      StaysLive(log, j, m - 1, k);
    }
  }

  lemma ReleasedBefore(log: seq<Event>, h: nat, j: nat)
    requires h < j <= |log| && Folds(log) && h < |log| && AcceptRelease(log, h)
    ensures ReleasedAccept(State(log, j).capabilities)
  {
    hide Apply, State, Folds, Releasable;
    var k := log[h].body.capId.value;
    CapsAt(log, h);
    ConsumedForever(log, h + 1, j, k);
    assert k in State(log, j).capabilities;
  }

  /** No other accept is released between the mint of one and its release. */
  lemma ReleasedFirst(log: seq<Event>, h: nat, j: nat, i: nat, k: string)
    requires h < i <= |log| && j < i && Folds(log) && AcceptRelease(log, h)
    requires Authorizes(log[j].body, k) && log[j].body.intent == AcceptOffer && Untouched(log, j, i, k)
    ensures h < j
  {
    hide Apply, State, Folds, Releasable, ReleasedTerms, AcceptInFlight, NextCaps;
    if j < h {
      StaysLive(log, j, h, k);
      AcceptsApart(log, h);
      CapsAt(log, h);
    }
  }

  /** The mint behind a sound yes, and what its grant is on the board it was minted on. */
  lemma SoundMint(r: Rules, log: seq<Event>, i: nat, offer: Offer, terms: Terms, g: Grant) returns (j: nat, k: string)
    requires i < |log| && AcceptRelease(log, i) && SoundYes(r, log, i, offer, terms, g)
    ensures j == MintOf(log, i) && j < i && Authorizes(log[j].body, k) && log[j].body.intent == AcceptOffer
    ensures log[i].body.capId == Some(k) && Untouched(log, j, i, k) && NoBump(log, j, i)
    ensures GrantAt(State(log, j), g) && (g.ByMandate? ==> !ReleasedAccept(State(log, j).capabilities))
  {
    hide State, Untouched, NoBump, NoDenial, AuthorizedOffer, FindOffer, TermsOf, Acceptable, StandsSince;
    j, k := MintOf(log, i), log[i].body.capId.value;
  }

  ghost predicate GrantAt(bb: Blackboard, g: Grant) {
    match g
    case ByMandate(m) => bb.mandate == Some(m) && m.status == MandateGranted && m.epoch == bb.epoch
    case ByApproval(a) => a in bb.approvals && a.decision == Granted
  }

  /** A release that comes after another rests on an approval: a mandate buys the first yes only. */
  lemma MandateFirst(
      r: Rules, c: Case, log: seq<Event>, h: nat, i: nat, offer: Offer, terms: Terms, g: Grant)
    requires h < i < |log| && Run(r, c, log) && AcceptRelease(log, h) && AcceptRelease(log, i)
    requires SoundYes(r, log, i, offer, terms, g)
    ensures g.ByApproval?
  {
    hide Run, State, Untouched, NoBump, SoundYes, AcceptRelease, MintOf, GrantAt;
    RunFolds(r, c, log);
    var j, k := SoundMint(r, log, i, offer, terms, g);
    ReleasedFirst(log, h, j, i, k);
    ReleasedBefore(log, h, j);
  }

  /** Two releases that rest on approvals rest on two of them. */
  lemma ApprovalOnce(
      r: Rules, c: Case, log: seq<Event>, h: nat, i: nat,
      offer: Offer, terms: Terms, a: Approval, offer': Offer, terms': Terms, a': Approval)
    requires h < i < |log| && Run(r, c, log) && AcceptRelease(log, h) && AcceptRelease(log, i)
    requires SoundYes(r, log, h, offer, terms, ByApproval(a)) && SoundYes(r, log, i, offer', terms', ByApproval(a'))
    ensures a.id != a'.id
  {
    hide Run, State, Untouched, NoBump, NoDenial, AuthorizedOffer, FindOffer, TermsOf, LastAuth, AcceptRelease,
      Acceptable, StandsSince;
    RunFolds(r, c, log);
    ReleasesApart(log, h, i);
    ApprovalsGrow(r, c, log, MintOf(log, h), i);
    ApprovalsGrow(r, c, log, MintOf(log, i), i);
    ApprovalsUnique(r, c, log, i);
    BothIn(State(log, MintOf(log, h)).approvals, State(log, i).approvals, a);
    BothIn(State(log, MintOf(log, i)).approvals, State(log, i).approvals, a');
  }

  lemma BothIn(before: seq<Approval>, after: seq<Approval>, a: Approval)
    requires before <= after && a in before
    ensures a in after
  {}

  // ---------------------------------------------------------------- counting

  /** The terms of the accepts released so far. */
  ghost function ReleasedHashes(log: seq<Event>, n: nat): set<string>
    requires n <= |log|
  {
    if n == 0 then {}
    else ReleasedHashes(log, n - 1) + if AcceptRelease(log, n - 1) then {ReleasedCap(log, n - 1).termsHash} else {}
  }

  lemma {:induction false} HashReleased(log: seq<Event>, n: nat, hash: string) returns (i: nat)
    requires n <= |log| && hash in ReleasedHashes(log, n)
    ensures i < n && AcceptRelease(log, i) && ReleasedCap(log, i).termsHash == hash
  {
    hide State, AcceptRelease, ReleasedCap;
    if AcceptRelease(log, n - 1) && ReleasedCap(log, n - 1).termsHash == hash {
      i := n - 1;
    } else {
      i := HashReleased(log, n - 1, hash);
    }
  }

  /** A release is of terms that were not released before. */
  lemma NewHash(log: seq<Event>, n: nat)
    requires n < |log| && Folds(log) && AcceptRelease(log, n)
    ensures ReleasedCap(log, n).termsHash !in ReleasedHashes(log, n)
  {
    hide State, AcceptRelease, ReleasedCap, Folds, ReleasedHashes;
    var hash := ReleasedCap(log, n).termsHash;
    if hash in ReleasedHashes(log, n) {
      var i := HashReleased(log, n, hash);
      ReleasesApart(log, i, n);
    }
  }

  /** Each release adds its own terms. */
  lemma {:induction false} HashesCount(log: seq<Event>, n: nat)
    requires n <= |log| && Folds(log)
    ensures |ReleasedHashes(log, n)| == ReleaseCount(log, n)
  {
    hide State, AcceptRelease, ReleasedCap, Folds;
    if n > 0 {
      HashesCount(log, n - 1);
      if AcceptRelease(log, n - 1) {
        NewHash(log, n - 1);
      }
    }
  }

  function GrantedCount(approvals: seq<Approval>): nat
  {
    if approvals == [] then 0
    else (if approvals[0].decision == Granted then 1 else 0) + GrantedCount(approvals[1..])
  }

  function GrantedHashes(approvals: seq<Approval>): (r: set<string>)
    ensures forall a | a in approvals && a.decision == Granted :: a.termsHash in r
    ensures |r| <= GrantedCount(approvals)
  {
    if approvals == [] then {}
    else
      var rest := GrantedHashes(approvals[1..]);
      if approvals[0].decision == Granted then
        assert |rest + {approvals[0].termsHash}| <= |rest| + 1;
        rest + {approvals[0].termsHash}
      else rest
  }

  /** A release after another is of terms that some approval grants. */
  lemma LaterGranted(r: Rules, c: Case, log: seq<Event>, h: nat, i: nat, n: nat)
    requires h < i < n <= |log| && Run(r, c, log) && AcceptRelease(log, h) && AcceptRelease(log, i)
    ensures ReleasedCap(log, i).termsHash in GrantedHashes(State(log, n).approvals)
  {
    hide Run, State, Untouched, NoBump, NoDenial, AuthorizedOffer, FindOffer, ReadbackConfirmed,
      HardViolation, TermsOf, ReleasedAccept, LastAuth, AcceptRelease, GrantedHashes, ReleasedCap;
    var offer, terms, g := EndToEnd(r, c, log, i);
    MandateFirst(r, c, log, h, i, offer, terms, g);
    ApprovalsGrow(r, c, log, MintOf(log, i), n);
    BothIn(State(log, MintOf(log, i)).approvals, State(log, n).approvals, g.approval);
  }

  lemma AtMostOne(s: set<string>)
    requires forall x, y | x in s && y in s :: x == y
    ensures |s| <= 1
  {
    if s != {} {
      var x :| x in s;
      assert s == {x};
    }
  }

  /** Released accepts never outnumber the granted approvals by more than the one a mandate buys. */
  lemma YesesBounded(r: Rules, c: Case, log: seq<Event>, n: nat)
    requires n <= |log| && Run(r, c, log)
    ensures ReleaseCount(log, n) <= 1 + GrantedCount(State(log, n).approvals)
  {
    hide Run, State, AcceptRelease, ReleasedCap, GrantedCount, ReleasedHashes, GrantedHashes, ReleaseCount;
    RunFolds(r, c, log);
    HashesCount(log, n);
    var released, granted := ReleasedHashes(log, n), GrantedHashes(State(log, n).approvals);
    var ungranted := released - granted;
    forall x, y | x in ungranted && y in ungranted
      ensures x == y
    {
      var i := HashReleased(log, n, x);
      var j := HashReleased(log, n, y);
      if i < j {
        LaterGranted(r, c, log, i, j, n);
      } else if j < i {
        LaterGranted(r, c, log, j, i, n);
      }
    }
    AtMostOne(ungranted);
    assert released <= ungranted + granted;
    SubsetSize(released, ungranted + granted);
  }

  // ---------------------------------------------------------------- where a granted mandate comes from

  /**
   The chain of a decided mandate: the proposal `q` the approver posted for, the post, the decision
   that cites it, and the proposal `l` that was decided, of the same id and hash.
   */
  ghost predicate MandateChain(log: seq<Event>, m: Mandate, q: nat, p: nat, l: nat, d: nat)
    requires d < |log|
  {
    && q < p < d && l < d
    && log[q].body.MandateProposed? && log[q].body.mandate.id == m.id && log[q].body.mandate.hash == m.hash
    && log[p].body.ApprovalPosted? && Cites(log, d, p)
    && log[p].body.post.subject == OfMandate && log[p].body.post.id == m.id && log[p].body.post.hash == m.hash
    && log[d].body.MandateDecided?
    && log[p].body.post.decision == log[d].body.decision && log[p].actor == ActorOf(log[d].body.who)
    && DecidedAs(log, m, l, d)
  }

  /**
   A decided mandate was posted for, by the approver it names. It is of the board's epoch exactly if since
   then the epoch moved for nothing but decisions of mandates.
   */
  lemma MandateProvenance(log: seq<Event>, i: nat, m: Mandate) returns (q: nat, p: nat, l: nat, d: nat)
    requires i <= |log| && Written(log) && State(log, i).mandate == Some(m) && m.status != Proposed
    ensures d < i && MandateChain(log, m, q, p, l, d) && LastSince(log, d, i)
    ensures m.epoch == State(log, i).epoch <==> OnlyDecisions(log, d, i)
  {
    hide Apply, State, Folds, Stamped, Dense, CausesOk, GatherAll, WhatOf, Cites, LastSince, OnlyDecisions;
    l, d := MandateAt(log, i, m);
    p := DecisionCites(log, d);
    Step(log, p);
    StampedPayload(log, p);
    MandateStep(State(log, p), log[p]);
    var none: int;
    q, none := MandateAt(log, p, State(log, p).mandate.value);
  }

  // ---------------------------------------------------------------- the whole chain of a yes

  /** What stands behind the grant of a yes minted by event `j` and released at time `t`. */
  ghost predicate GrantChain(log: seq<Event>, j: nat, t: nat, g: Grant, q: nat, p: nat, l: nat, d: nat)
  {
    && d < j <= |log|
    && match g
       case ByApproval(a) => Chain(log, a, q, p, d) && t < State(log, d).pending.value.expires
       case ByMandate(m) => MandateChain(log, m, q, p, l, d) && log[d].body.decision == Granted && LastSince(log, d, j)
  }

  /**
   From the approver to the yes: the request or proposal, the approver's post, the decision that cites
   it, the mint and the release, in this order, and all in time.
   */
  lemma WholeChain(r: Rules, c: Case, log: seq<Event>, i: nat)
    returns (offer: Offer, terms: Terms, g: Grant, q: nat, p: nat, l: nat, d: nat)
    requires i < |log| && Run(r, c, log) && AcceptRelease(log, i)
    ensures SoundYes(r, log, i, offer, terms, g)
    ensures q < p < d < MintOf(log, i) < i && GrantChain(log, MintOf(log, i), log[i].t, g, q, p, l, d)
    ensures g.ByMandate? ==> OnlyDecisions(log, d, i)
  {
    hide Run, State, AcceptRelease, SoundYes, MintOf, Untouched, NoBump, Cites, LastSince, MandateChain, Chain, Written;
    offer, terms, g := EndToEnd(r, c, log, i);
    var j, k := SoundMint(r, log, i, offer, terms, g);
    match g {
      case ByApproval(a) =>
        q, p, d := Provenance.Provenance(r, c, log, j, a);
        l := q;
        ApprovedInTime(r, log, i, offer, terms, a, j, q, p, d);
      case ByMandate(m) =>
        RunWritten(r, c, log);
        q, p, l, d := MandateProvenance(log, j, m);
        GrantedChain(log, m, q, p, l, d);
        UnbumpedSince(log, d, j, i, k);
    }
  }

  lemma ApprovedInTime(
      r: Rules, log: seq<Event>, i: nat, offer: Offer, terms: Terms, a: Approval, j: nat, q: nat, p: nat, d: nat)
    requires i < |log| && AcceptRelease(log, i) && SoundYes(r, log, i, offer, terms, ByApproval(a))
    requires j == MintOf(log, i) && d < j && Chain(log, a, q, p, d)
    ensures GrantChain(log, j, log[i].t, ByApproval(a), q, p, q, d) && q < p < d
  {
    hide State, Untouched, NoBump, NoDenial, AuthorizedOffer, FindOffer, TermsOf, LastAuth, AcceptRelease, Acceptable,
      StandsSince, Cites, MintOf;
  }

  lemma GrantedChain(log: seq<Event>, m: Mandate, q: nat, p: nat, l: nat, d: nat)
    requires d < |log| && MandateChain(log, m, q, p, l, d) && m.status == MandateGranted
    ensures log[d].body.MandateDecided? && log[d].body.decision == Granted && q < p < d
  {
    hide Cites;
  }

  lemma UnbumpedSince(log: seq<Event>, d: nat, j: nat, i: nat, k: string)
    requires d < j < i <= |log| && OnlyDecisions(log, d, j) && NoBump(log, j, i) && Authorizes(log[j].body, k)
    ensures OnlyDecisions(log, d, i)
  {}

  lemma RunWritten(r: Rules, c: Case, log: seq<Event>)
    requires Run(r, c, log)
    ensures Written(log)
  {}
}
