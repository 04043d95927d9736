/** The decision rules on a whole log, without the checker that gathers as it goes. */
module Decisions {
  import opened Contract
  import opened Causes

  /** Cause `k` of event `i` is a post before it. */
  predicate PostAt(log: seq<Event>, i: nat, k: nat)
    requires i < |log|
  {
    k < |log[i].causes| && log[i].causes[k] < i && log[log[i].causes[k]].body.ApprovalPosted?
  }

  /** And no other cause is one. */
  ghost predicate OnlyPost(log: seq<Event>, i: nat, k: nat)
    requires i < |log|
  {
    PostAt(log, i, k) && forall l: nat | PostAt(log, i, l) :: l == k
  }

  /** The decision records the post, and who posted it. */
  predicate Records(decision: Body, post: Post, poster: Actor) {
    match decision
    case ApprovalDecided(id, d, who) =>
      && post.subject == OfApproval && post.id == id && post.decision == d
      && poster == (if who == Ui then UiActor else SimActor)
    case MandateDecided(id, hash, d, who) =>
      && post.subject == OfMandate && post.id == id && post.hash == hash && post.decision == d
      && poster == (if who == Ui then UiActor else SimActor)
    case _ => false
  }

  predicate SameSubject(p: Post, q: Post) {
    p.subject == q.subject && p.id == q.id && p.hash == q.hash
  }

  /** Event `j` decided this subject. */
  ghost predicate DecidedBy(log: seq<Event>, j: nat, p: Post)
    requires j < |log|
  {
    && (log[j].body.ApprovalDecided? || log[j].body.MandateDecided?)
    && exists l: nat :: OnlyPost(log, j, l) && SameSubject(log[log[j].causes[l]].body.post, p)
  }

  /** The decision cites one post, records it, and is the first of its subject. */
  ghost predicate DecidesWell(log: seq<Event>, i: nat)
    requires i < |log|
  {
    exists k: nat ::
      && OnlyPost(log, i, k)
      && var post := log[log[i].causes[k]];
         && Records(log[i].body, post.body.post, post.actor)
         && forall j | 0 <= j < i :: !DecidedBy(log, j, post.body.post)
  }

  ghost predicate EventMet(log: seq<Event>, i: nat)
    requires i < |log|
  {
    && (forall k | 0 <= k < |log[i].causes| :: log[i].causes[k] < i)
    && (log[i].body.ApprovalDecided? || log[i].body.MandateDecided? ==> DecidesWell(log, i))
  }

  // ---------------------------------------------------------------- the posts cited

  predicate CitedAt(seen: map<nat, Event>, causes: seq<nat>, k: nat) {
    k < |causes| && causes[k] in seen && seen[causes[k]].body.ApprovalPosted?
  }

  ghost predicate OnlyAt(seen: map<nat, Event>, causes: seq<nat>, k: nat) {
    CitedAt(seen, causes, k) && forall l: nat | CitedAt(seen, causes, l) :: l == k
  }

  lemma CitedNext(seen: map<nat, Event>, causes: seq<nat>, k: nat)
    requires causes != []
    ensures CitedAt(seen, causes[1..], k) <==> CitedAt(seen, causes, k + 1)
  {}

  lemma {:induction false} NonePosted(seen: map<nat, Event>, causes: seq<nat>)
    ensures PostsCited(seen, causes) == [] <==> forall k: nat :: !CitedAt(seen, causes, k)
  {
    if causes != [] {
      NonePosted(seen, causes[1..]);
      forall k: nat ensures CitedAt(seen, causes[1..], k) <==> CitedAt(seen, causes, k + 1) {
        CitedNext(seen, causes, k);
      }
      if forall k: nat :: !CitedAt(seen, causes, k) {
        forall k: nat ensures !CitedAt(seen, causes[1..], k) {
          assert !CitedAt(seen, causes, k + 1);
        }
        assert !CitedAt(seen, causes, 0);
      }
      if PostsCited(seen, causes) == [] {
        forall k: nat ensures !CitedAt(seen, causes, k) {
          assert k > 0 ==> !CitedAt(seen, causes[1..], k - 1);
        }
      }
    }
  }

  lemma PostsFirst(seen: map<nat, Event>, causes: seq<nat>)
    requires causes != []
    ensures PostsCited(seen, causes)
         == (if CitedAt(seen, causes, 0) then [causes[0]] else []) + PostsCited(seen, causes[1..])
  {}

  /** The only one of the rest is the only one. */
  lemma OnlyNext(seen: map<nat, Event>, causes: seq<nat>, j: nat)
    requires causes != [] && !CitedAt(seen, causes, 0) && OnlyAt(seen, causes[1..], j)
    ensures OnlyAt(seen, causes, j + 1)
  {
    hide CitedAt;
    CitedNext(seen, causes, j);
    forall l: nat | CitedAt(seen, causes, l) ensures l == j + 1 {
      CitedNext(seen, causes, l - 1);
    }
  }

  lemma OnlyFirst(seen: map<nat, Event>, causes: seq<nat>)
    requires causes != [] && CitedAt(seen, causes, 0) && PostsCited(seen, causes[1..]) == []
    ensures OnlyAt(seen, causes, 0)
  {
    hide CitedAt, PostsCited;
    NonePosted(seen, causes[1..]);
    forall l: nat | CitedAt(seen, causes, l) ensures l == 0 {
      if l > 0 {
        CitedNext(seen, causes, l - 1);
      }
    }
  }

  lemma {:induction false} OnePosted(seen: map<nat, Event>, causes: seq<nat>) returns (k: nat)
    requires |PostsCited(seen, causes)| == 1
    ensures k < |causes| && OnlyAt(seen, causes, k) && PostsCited(seen, causes) == [causes[k]]
  {
    hide CitedAt, OnlyAt, PostsCited;
    NoneCited(seen);
    PostsFirst(seen, causes);
    if CitedAt(seen, causes, 0) {
      k := 0;
      OnlyFirst(seen, causes);
    } else {
      var j := OnePosted(seen, causes[1..]);
      k := j + 1;
      OnlyNext(seen, causes, j);
    }
  }

  lemma NoneCited(seen: map<nat, Event>)
    ensures PostsCited(seen, []) == []
  {}

  lemma {:induction false} OnlyPosted(seen: map<nat, Event>, causes: seq<nat>, k: nat)
    requires OnlyAt(seen, causes, k)
    ensures PostsCited(seen, causes) == [causes[k]]
  {
    if k == 0 {
      NonePosted(seen, causes[1..]);
      forall l: nat ensures !CitedAt(seen, causes[1..], l) {
        CitedNext(seen, causes, l);
      }
    } else {
      CitedNext(seen, causes, k - 1);
      forall l: nat | CitedAt(seen, causes[1..], l) ensures l == k - 1 {
        CitedNext(seen, causes, l);
      }
      OnlyPosted(seen, causes[1..], k - 1);
      assert !CitedAt(seen, causes, 0);
    }
  }

  // ---------------------------------------------------------------- what was gathered

  /** In a dense log the posts gathered are the posts before. */
  lemma OnlySeen(log: seq<Event>, i: nat, k: nat)
    requires i < |log| && Dense(log)
    ensures OnlyAt(GatherAll(log, i).seen, log[i].causes, k) <==> OnlyPost(log, i, k)
    ensures OnlyPost(log, i, k) ==>
      PostAt(log, i, k) && log[i].causes[k] in GatherAll(log, i).seen
      && GatherAll(log, i).seen[log[i].causes[k]] == log[log[i].causes[k]]
  {
    hide GatherAll;
    SeenDense(log, i);
    var seen, causes := GatherAll(log, i).seen, log[i].causes;
    assert forall l: nat :: CitedAt(seen, causes, l) <==> PostAt(log, i, l);
  }

  ghost predicate SomeDecided(log: seq<Event>, i: nat, what: What)
    requires i <= |log|
  {
    exists j, p: Post | 0 <= j < i :: DecidedBy(log, j, p) && WhatOf(p) == what
  }

  lemma {:induction false} DecidedAre(log: seq<Event>, i: nat, what: What)
    requires i <= |log| && Dense(log)
    ensures what in GatherAll(log, i).decided <==> SomeDecided(log, i, what)
  {
    hide OnlyPost, OnlyAt, PostsCited, SameSubject, CitedAt;
    if i > 0 {
      DecidedAre(log, i - 1, what);
      GatherNext(log, i - 1);
      DecidedNext(log, i - 1, what);
      if SomeDecided(log, i - 1, what) {
        var j, p: Post :| 0 <= j < i - 1 && DecidedBy(log, j, p) && WhatOf(p) == what;
        assert DecidedBy(log, j, p);
      }
    }
  }

  /** Event `i` decides one subject, or none. */
  lemma DecidedNext(log: seq<Event>, i: nat, what: What)
    requires i < |log| && Dense(log)
    ensures var g := GatherAll(log, i);
      what in Gather(g, log[i]).decided <==>
        what in g.decided || exists p: Post :: DecidedBy(log, i, p) && WhatOf(p) == what
  {
    hide GatherAll, OnlyPost, OnlyAt, PostsCited, CitedAt;
    var g, causes := GatherAll(log, i), log[i].causes;
    if |PostsCited(g.seen, causes)| == 1 {
      var k := OnePosted(g.seen, causes);
      OnlySeen(log, i, k);
      forall l: nat | OnlyPost(log, i, l) ensures l == k {
        OnlyTwo(log, i, k, l);
      }
      var p := log[causes[k]].body.post;
      if IsDecision(log[i].body) {
        assert OnlyPost(log, i, k) && SameSubject(p, p);
        assert DecidedBy(log, i, p);
      }
    } else {
      forall l: nat ensures !OnlyPost(log, i, l) {
        OnlySeen(log, i, l);
        if OnlyPost(log, i, l) {
          OnlyPosted(g.seen, causes, l);
        }
      }
    }
  }

  lemma OnlyTwo(log: seq<Event>, i: nat, k: nat, l: nat)
    requires i < |log| && OnlyPost(log, i, k) && OnlyPost(log, i, l)
    ensures k == l
  {}

  /** The rules for one event. */
  lemma MetExactly(log: seq<Event>, i: nat)
    requires i < |log| && Dense(log)
    ensures CausesMet(GatherAll(log, i), log[i]) <==> EventMet(log, i)
  {
    hide GatherAll, OnlyPost, OnlyAt, PostsCited, CitedAt, DecidedBy, Decides, Records;
    var g, causes := GatherAll(log, i), log[i].causes;
    SeenDense(log, i);
    KnownIs(g.seen, causes, i);
    if IsDecision(log[i].body) {
      if |PostsCited(g.seen, causes)| == 1 {
        var k := OnePosted(g.seen, causes);
        OnlySeen(log, i, k);
        forall l: nat | OnlyPost(log, i, l) ensures l == k {
          OnlyTwo(log, i, k, l);
        }
        var post := log[causes[k]];
        RecordsIs(log[i], post);
        DecidedAre(log, i, WhatOf(post.body.post));
        FirstOf(log, i, post.body.post);
      } else {
        forall l: nat ensures !OnlyPost(log, i, l) {
          OnlySeen(log, i, l);
          if OnlyPost(log, i, l) {
            OnlyPosted(g.seen, causes, l);
          }
        }
      }
    }
  }

  lemma KnownIs(seen: map<nat, Event>, causes: seq<nat>, i: nat)
    requires forall c: nat :: c in seen <==> c < i
    ensures KnownCauses(seen, causes) <==> forall k | 0 <= k < |causes| :: causes[k] < i
  {
    if KnownCauses(seen, causes) {
      forall k | 0 <= k < |causes| ensures causes[k] < i {
        assert causes[k] in causes;
      }
    }
  }

  lemma RecordsIs(decision: Event, post: Event)
    requires IsDecision(decision.body) && post.body.ApprovalPosted?
    ensures Decides(decision, post) <==> Records(decision.body, post.body.post, post.actor)
  {}

  lemma FirstOf(log: seq<Event>, i: nat, p: Post)
    requires i <= |log|
    ensures SomeDecided(log, i, WhatOf(p)) <==> exists j | 0 <= j < i :: DecidedBy(log, j, p)
  {
    hide OnlyPost;
    if SomeDecided(log, i, WhatOf(p)) {
      var j, q: Post :| 0 <= j < i && DecidedBy(log, j, q) && WhatOf(q) == WhatOf(p);
      assert DecidedBy(log, j, p);
    }
  }

  /**
   A dense log keeps the rules exactly if all causes are earlier events, and every decision cites one
   post, records what it says and who posted it, and is the first about its subject, id and hash.
   */
  lemma CausesExactly(log: seq<Event>)
    requires Dense(log)
    ensures CausesOk(log) <==> forall i | 0 <= i < |log| :: EventMet(log, i)
  {
    hide GatherAll, CausesMet, EventMet, Dense;
    forall i | 0 <= i < |log| ensures CausesMet(GatherAll(log, i), log[i]) <==> EventMet(log, i) {
      MetExactly(log, i);
    }
    if CausesOk(log) {
      assert forall i | 0 <= i < |log| :: CausesMet(GatherAll(log, i), log[i]);
    }
  }
}
