/** The decision rules of a log: every cause is earlier, a decision cites the one post it decides, once. */
module Causes {
  import opened Contract

  predicate IsDecision(b: Body) {
    b.ApprovalDecided? || b.MandateDecided?
  }

  /** `decision` records exactly what `post` decided. */
  predicate Decides(decision: Event, post: Event)
    requires IsDecision(decision.body) && post.body.ApprovalPosted?
  {
    var p := post.body.post;
    match decision.body
    case ApprovalDecided(id, d, who) =>
      p.subject == OfApproval && p.id == id && p.decision == d && post.actor == ActorOf(who)
    case MandateDecided(id, hash, d, who) =>
      p.subject == OfMandate && p.id == id && p.decision == d && post.actor == ActorOf(who) && p.hash == hash
  }

  /** The posts among the causes, by event id, as the log of earlier events knows them. */
  function PostsCited(seen: map<nat, Event>, causes: seq<nat>): (r: seq<nat>)
    ensures forall c | c in r :: c in seen && seen[c].body.ApprovalPosted? && c in causes
  {
    if causes == [] then []
    else
      (if causes[0] in seen && seen[causes[0]].body.ApprovalPosted? then [causes[0]] else [])
      + PostsCited(seen, causes[1..])
  }

  type What = (Subject, string, string)

  function WhatOf(p: Post): What
  {
    (p.subject, p.id, p.hash)
  }

  /** What the checker has gathered: the events by id, and what is decided. */
  datatype Gathered = Gathered(seen: map<nat, Event>, decided: set<What>)

  predicate KnownCauses(seen: map<nat, Event>, causes: seq<nat>) {
    forall c | c in causes :: c in seen
  }

  /** The event meets the rules after what was gathered. */
  predicate CausesMet(g: Gathered, e: Event) {
    && KnownCauses(g.seen, e.causes)
    && (IsDecision(e.body) ==>
          var posts := PostsCited(g.seen, e.causes);
          && |posts| == 1
          && Decides(e, g.seen[posts[0]])
          && WhatOf(g.seen[posts[0]].body.post) !in g.decided)
  }

  function Gather(g: Gathered, e: Event): Gathered
  {
    var posts := PostsCited(g.seen, e.causes);
    Gathered(
      g.seen[e.seqNo := e],
      if IsDecision(e.body) && |posts| == 1 then g.decided + {WhatOf(g.seen[posts[0]].body.post)} else g.decided)
  }

  function GatherAll(log: seq<Event>, i: nat): Gathered
    requires i <= |log|
  {
    if i == 0 then Gathered(map[], {}) else Gather(GatherAll(log, i - 1), log[i - 1])
  }

  /** The log rules hold of the whole log. */
  ghost predicate CausesOk(log: seq<Event>) {
    forall i | 0 <= i < |log| :: CausesMet(GatherAll(log, i), log[i])
  }

  lemma GatherNext(log: seq<Event>, i: nat)
    requires i < |log|
    ensures GatherAll(log, i + 1) == Gather(GatherAll(log, i), log[i])
  {
    hide Gather;
  }

  lemma NotMet(log: seq<Event>, i: nat)
    requires i < |log| && !CausesMet(GatherAll(log, i), log[i])
    ensures !CausesOk(log)
  {
    hide CausesMet, GatherAll;
  }

  /** `check_causes`: one pass with the events seen and the subjects decided so far. */
  method CheckCauses(log: seq<Event>) returns (ok: bool)
    ensures ok <==> CausesOk(log)
  {
    hide GatherAll, PostsCited, Decides, WhatOf, IsDecision, CausesOk;
    var seen: map<nat, Event>, decided: set<What> := map[], {};
    GatherNothing(log);
    for i := 0 to |log|
      invariant Gathered(seen, decided) == GatherAll(log, i)
      invariant MetBefore(log, i)
    {
      var e := log[i];
      GatherNext(log, i);
      if !KnownCauses(seen, e.causes) {
        NotMet(log, i);
        return false;
      }
      if IsDecision(e.body) {
        var posts := PostsCited(seen, e.causes);
        if |posts| != 1 || !Decides(e, seen[posts[0]]) {
          NotMet(log, i);
          return false;
        }
        var what := WhatOf(seen[posts[0]].body.post);
        if what in decided {
          NotMet(log, i);
          return false;
        }
        decided := decided + {what};
      }
      seen := seen[e.seqNo := e];
      MetNext(log, i);
    }
    AllMet(log);
    return true;
  }

  ghost predicate MetBefore(log: seq<Event>, n: nat)
    requires n <= |log|
  {
    forall i | 0 <= i < n :: CausesMet(GatherAll(log, i), log[i])
  }

  lemma MetNext(log: seq<Event>, n: nat)
    requires n < |log| && MetBefore(log, n) && CausesMet(GatherAll(log, n), log[n])
    ensures MetBefore(log, n + 1)
  {
    hide CausesMet, GatherAll;
  }

  lemma AllMet(log: seq<Event>)
    requires MetBefore(log, |log|)
    ensures CausesOk(log)
  {
    hide CausesMet, GatherAll;
  }

  lemma GatherNothing(log: seq<Event>)
    ensures GatherAll(log, 0) == Gathered(map[], {})
    ensures MetBefore(log, 0)
  {}

  // ---------------------------------------------------------------- dense logs

  ghost predicate Dense(log: seq<Event>) {
    forall i | 0 <= i < |log| :: log[i].seqNo == i
  }

  /** In a dense log an id is a position. */
  lemma {:induction false} SeenDense(log: seq<Event>, i: nat)
    requires i <= |log| && Dense(log)
    ensures forall c: nat :: c in GatherAll(log, i).seen <==> c < i
    ensures forall c: nat | c < i :: GatherAll(log, i).seen[c] == log[c]
  {
    if i > 0 {
      SeenDense(log, i - 1);
    }
  }

  /** A longer log gathers the same from its beginning. */
  lemma {:induction false} GatherPrefix(a: seq<Event>, b: seq<Event>, i: nat)
    requires a <= b && i <= |a|
    ensures GatherAll(a, i) == GatherAll(b, i)
  {
    if i > 0 {
      GatherPrefix(a, b, i - 1);
    }
  }
}
