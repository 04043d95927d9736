/** The live views: a resumable stream of frames, and the sent messages that no event has echoed yet. */
module LiveStream {
  import opened Wrappers

  // ---------------------------------------------------------------- the stream

  datatype Frame = Frame(seqNo: nat, run: string, payload: string) | Bad(message: string)

  datatype Phase = Connecting | Opened | Ended | Closed | Error

  datatype Trouble = BadFrame | ForeignRun | Gap

  datatype Stream = Stream(events: seq<Frame>, next: nat, phase: Phase, trouble: Option<Trouble>)

  /** One frame: dropped, accepted, or the end of the stream. */
  function AcceptOne(s: Stream, f: Frame, run: Option<string>): Stream
  {
    if s.phase == Error then s
    else if f.Bad? then s.(phase := Error, trouble := Some(BadFrame))
    else if run.Some? && f.run != run.value then s.(phase := Error, trouble := Some(ForeignRun))
    else if f.seqNo < s.next then s
    else if f.seqNo > s.next then s.(phase := Error, trouble := Some(Gap))
    else s.(events := s.events + [f], next := f.seqNo + 1)
  }

  function AcceptAll(s: Stream, frames: seq<Frame>, run: Option<string>): Stream
    decreases frames
  {
    if frames == [] then s else AcceptAll(AcceptOne(s, frames[0], run), frames[1..], run)
  }

  /** Frames come one by one or in batches: the stream is the same. */
  lemma {:induction false} BatchesCompose(s: Stream, a: seq<Frame>, b: seq<Frame>, run: Option<string>)
    ensures AcceptAll(s, a + b, run) == AcceptAll(AcceptAll(s, a, run), b, run)
    decreases a
  {
    if a == [] {
      assert a + b == b;
    } else {
      assert (a + b)[1..] == a[1..] + b;
      BatchesCompose(AcceptOne(s, a[0], run), a[1..], b, run);
    }
  }

  /** Every event so far, each once and in order. */
  ghost predicate Whole(s: Stream) {
    s.next == |s.events| && forall i | 0 <= i < |s.events| :: s.events[i].Frame? && s.events[i].seqNo == i
  }

  /** What the stream was, it keeps, and it stays whole. */
  lemma {:induction false} AcceptKeeps(s: Stream, frames: seq<Frame>, run: Option<string>)
    requires Whole(s)
    ensures Whole(AcceptAll(s, frames, run)) && s.events <= AcceptAll(s, frames, run).events
    ensures AcceptAll(s, frames, run).phase != s.phase ==> AcceptAll(s, frames, run).phase == Error
    decreases frames
  {
    if frames != [] {
      AcceptKeeps(AcceptOne(s, frames[0], run), frames[1..], run);
    }
  }

  /** A frame that stops the stream stops it for good. */
  lemma {:induction false} StoppedStays(s: Stream, frames: seq<Frame>, run: Option<string>)
    requires s.phase == Error
    ensures AcceptAll(s, frames, run) == s
    decreases frames
  {
    if frames != [] {
      StoppedStays(s, frames[1..], run);
    }
  }

  /** The first frame with this number. */
  ghost predicate FirstWith(frames: seq<Frame>, n: nat, i: nat) {
    && i < |frames| && frames[i].Frame? && frames[i].seqNo == n
    && forall j | 0 <= j < i && frames[j].Frame? :: frames[j].seqNo != n
  }

  /** Event `n` is the first of the first `k` frames that has its number. */
  ghost predicate TakenFrom(r: Stream, frames: seq<Frame>, n: nat, k: nat)
    requires n < |r.events|
  {
    exists i: nat :: i < k && FirstWith(frames, n, i) && r.events[n] == frames[i]
  }

  /** The first `k` frames are of the run, and all their events are there. */
  ghost predicate InPlace(frames: seq<Frame>, run: Option<string>, next: nat, k: nat)
    requires k <= |frames|
  {
    forall i | 0 <= i < k ::
      frames[i].Frame? && (run.Some? ==> frames[i].run == run.value) && frames[i].seqNo < next
  }

  /** Why a frame stops the stream. */
  ghost predicate Stops(f: Frame, run: Option<string>, next: nat, trouble: Option<Trouble>) {
    if f.Bad? then trouble == Some(BadFrame)
    else if run.Some? && f.run != run.value then trouble == Some(ForeignRun)
    else f.seqNo > next && trouble == Some(Gap)
  }

  /** What the stream takes of the first `k` frames: of each next number the first frame that has it. */
  ghost predicate Takes(s: Stream, r: Stream, frames: seq<Frame>, run: Option<string>, k: nat) {
    && k <= |frames| && s.events <= r.events && r.next == |r.events| && InPlace(frames, run, r.next, k)
    && forall n | |s.events| <= n < |r.events| :: TakenFrom(r, frames, n, k)
  }

  /** The frames up to the first one that stops the stream are taken, and nothing after it. */
  lemma {:induction false} FramesTaken(s: Stream, frames: seq<Frame>, run: Option<string>) returns (k: nat)
    requires Whole(s) && s.phase != Error
    ensures var r := AcceptAll(s, frames, run);
      && Takes(s, r, frames, run, k)
      && if k == |frames| then r.phase == s.phase && r.trouble == s.trouble
         else r.phase == Error && Stops(frames[k], run, r.next, r.trouble)
    decreases frames
  {
    k := 0;
    if frames != [] {
      var t := AcceptOne(s, frames[0], run);
      if t.phase == Error {
        StoppedStays(t, frames[1..], run);
      } else {
        var j := FramesTaken(t, frames[1..], run);
        k := j + 1;
        TakesNext(s, t, AcceptAll(t, frames[1..], run), frames, run, j);
      }
    }
  }

  lemma TakesNext(s: Stream, t: Stream, r: Stream, frames: seq<Frame>, run: Option<string>, j: nat)
    requires Whole(s) && frames != [] && t == AcceptOne(s, frames[0], run) && s.phase != Error && t.phase != Error
    requires Takes(t, r, frames[1..], run, j)
    ensures Takes(s, r, frames, run, j + 1)
  {
    var rest, k := frames[1..], j + 1;
    assert forall i | 0 < i <= j :: frames[i] == rest[i - 1];
    forall i | 0 <= i < k
      ensures frames[i].Frame? && (run.Some? ==> frames[i].run == run.value) && frames[i].seqNo < r.next
    {
      assert i > 0 ==> frames[i] == rest[i - 1];
    }
    forall n | |s.events| <= n < |r.events| ensures TakenFrom(r, frames, n, k) {
      if n < |t.events| {
        assert FirstWith(frames, n, 0) && r.events[n] == t.events[n];
      } else {
        assert TakenFrom(r, rest, n, j);
        var i: nat :| i < j && FirstWith(rest, n, i) && r.events[n] == rest[i];
        assert forall l | 0 < l <= i :: frames[l] == rest[l - 1];
        assert FirstWith(frames, n, i + 1);
      }
    }
  }

  lemma AcceptNext(s: Stream, frames: seq<Frame>, run: Option<string>, i: nat)
    requires i < |frames|
    ensures AcceptAll(s, frames[..i + 1], run) == AcceptOne(AcceptAll(s, frames[..i], run), frames[i], run)
  {
    assert frames[..i + 1] == frames[..i] + [frames[i]];
    BatchesCompose(s, frames[..i], [frames[i]], run);
    assert AcceptAll(AcceptAll(s, frames[..i], run), [frames[i]], run)
        == AcceptAll(AcceptOne(AcceptAll(s, frames[..i], run), frames[i], run), [], run);
  }

  /** `acceptFrames`: a batch, its events copied once. */
  method AcceptFrames(s: Stream, frames: seq<Frame>, run: Option<string>) returns (r: Stream)
    ensures r == AcceptAll(s, frames, run)
  {
    if s.phase == Error {
      StoppedStays(s, frames, run);
      return s;
    }
    var events, next: nat := s.events, s.next;
    for i := 0 to |frames|
      invariant AcceptAll(s, frames[..i], run) == s.(events := events, next := next)
    {
      var f := frames[i];
      var trouble :=
        if f.Bad? then Some(BadFrame)
        else if run.Some? && f.run != run.value then Some(ForeignRun)
        else if f.seqNo > next then Some(Gap)
        else None;
      AcceptNext(s, frames, run, i);
      if trouble.Some? {
        r := s.(events := events, next := next, phase := Error, trouble := trouble);
        assert frames == frames[..i + 1] + frames[i + 1..];
        BatchesCompose(s, frames[..i + 1], frames[i + 1..], run);
        StoppedStays(r, frames[i + 1..], run);
        return r;
      }
      if f.seqNo == next {
        events, next := events + [f], f.seqNo + 1;
      }
    }
    assert frames[..|frames|] == frames;
    r := s.(events := events, next := next);
  }

  // ---------------------------------------------------------------- echoes

  datatype Sent = Sent(text: string, after: nat)

  datatype Echo = Echo(seqNo: nat, text: string)

  /** Each echo has its own seq. */
  ghost predicate Distinct(echoes: seq<Echo>) {
    forall i, j | 0 <= i < j < |echoes| :: echoes[i].seqNo != echoes[j].seqNo
  }

  /** Echoes of one text come in the order of their seqs. */
  ghost predicate TextsAscend(echoes: seq<Echo>) {
    forall i, j | 0 <= i < j < |echoes| && echoes[i].text == echoes[j].text :: echoes[i].seqNo < echoes[j].seqNo
  }

  predicate Answers(e: Echo, s: Sent) {
    e.seqNo >= s.after && e.text == s.text
  }

  /** Each send has at most one echo that answers it, and no two sends share a seq. */
  ghost predicate Matching(sent: seq<Sent>, echoes: seq<Echo>, m: seq<Option<nat>>): (r: bool)
    ensures r ==> |m| == |sent|
  {
    && |m| == |sent|
    && (forall i | 0 <= i < |m| && m[i].Some? :: m[i].value < |echoes| && Answers(echoes[m[i].value], sent[i]))
    && (forall i, j | 0 <= i < j < |m| && m[i].Some? && m[j].Some? ::
          echoes[m[i].value].seqNo != echoes[m[j].value].seqNo)
  }

  /** The sends a matching leaves without an echo, in their order. */
  function Unmatched(sent: seq<Sent>, m: seq<Option<nat>>): seq<Sent>
    requires |m| == |sent|
  {
    if sent == [] then []
    else
      var n := |sent| - 1;
      Unmatched(sent[..n], m[..n]) + if m[n].None? then [sent[n]] else []
  }

  /** A send has the echo with this seq. */
  predicate Taken(echoes: seq<Echo>, m: seq<Option<nat>>, q: nat) {
    exists i | 0 <= i < |m| :: m[i].Some? && m[i].value < |echoes| && echoes[m[i].value].seqNo == q
  }

  predicate Free(echoes: seq<Echo>, m: seq<Option<nat>>, s: Sent, e: nat)
    requires e < |echoes|
  {
    Answers(echoes[e], s) && !Taken(echoes, m, echoes[e].seqNo)
  }

  /** The first echo from `e` on that answers the send and is not taken. */
  function FirstFree(echoes: seq<Echo>, m: seq<Option<nat>>, s: Sent, e: nat): (r: Option<nat>)
    requires e <= |echoes|
    ensures r.Some? ==> e <= r.value < |echoes| && Free(echoes, m, s, r.value)
    ensures forall d | e <= d < |echoes| && (r.Some? ==> d < r.value) :: !Free(echoes, m, s, d)
    decreases |echoes| - e
  {
    if e == |echoes| then None else if Free(echoes, m, s, e) then Some(e) else FirstFree(echoes, m, s, e + 1)
  }

  /** First fit: each send in its turn takes the first echo that is free for it. */
  function FirstFit(sent: seq<Sent>, echoes: seq<Echo>): (m: seq<Option<nat>>)
    ensures |m| == |sent|
  {
    if sent == [] then []
    else
      var n := |sent| - 1;
      var m := FirstFit(sent[..n], echoes);
      m + [FirstFree(echoes, m, sent[n], 0)]
  }

  /** `unechoed`: what first fit leaves, in the order of the sends. */
  method Unechoed(sent: seq<Sent>, echoes: seq<Echo>) returns (pending: seq<Sent>)
    ensures pending == Unmatched(sent, FirstFit(sent, echoes))
    ensures Distinct(echoes) && TextsAscend(echoes) ==>
      forall m | Matching(sent, echoes, m) :: |pending| <= |Unmatched(sent, m)|
  {
    hide FirstFree, Taken, Answers, Unmatched, FirstFit, Matching, Distinct, TextsAscend;
    var used: set<nat> := {};
    pending := [];
    ghost var m: seq<Option<nat>> := [];
    NothingSent(echoes);
    for i := 0 to |sent|
      invariant m == FirstFit(sent[..i], echoes) && pending == Unmatched(sent[..i], m)
      invariant forall e | 0 <= e < |echoes| :: echoes[e].seqNo in used <==> Taken(echoes, m, echoes[e].seqNo)
    {
      var s := sent[i];
      var e := 0;
      while e < |echoes| && !(echoes[e].seqNo !in used && Answers(echoes[e], s))
        invariant 0 <= e <= |echoes|
        invariant forall d | 0 <= d < e :: !Free(echoes, m, s, d)
      {
        e := e + 1;
      }
      ghost var hit: Option<nat> := if e < |echoes| then Some(e) else None;
      FirstIs(echoes, m, s, hit);
      FitNext(sent, echoes, i);
      TakenNext(echoes, m, hit);
      m := m + [hit];
      if e < |echoes| {
        used := used + {echoes[e].seqNo};
      } else {
        pending := pending + [s];
      }
    }
    assert sent[..|sent|] == sent;
    if Distinct(echoes) && TextsAscend(echoes) {
      forall other | Matching(sent, echoes, other) ensures |pending| <= |Unmatched(sent, other)| {
        FirstFitOptimal(sent, echoes, other);
      }
    }
  }

  lemma NothingSent(echoes: seq<Echo>)
    ensures FirstFit([], echoes) == [] && Unmatched([], []) == [] && Matching([], echoes, [])
    ensures forall q: nat :: !Taken(echoes, [], q)
  {}

  lemma FirstIs(echoes: seq<Echo>, m: seq<Option<nat>>, s: Sent, hit: Option<nat>)
    requires hit.Some? ==> hit.value < |echoes| && Free(echoes, m, s, hit.value)
    requires forall d | 0 <= d < |echoes| && (hit.Some? ==> d < hit.value) :: !Free(echoes, m, s, d)
    ensures FirstFree(echoes, m, s, 0) == hit
  {
    hide Free, FirstFree;
  }

  lemma FitNext(sent: seq<Sent>, echoes: seq<Echo>, i: nat)
    requires i < |sent|
    ensures var m := FirstFit(sent[..i], echoes);
      var hit := FirstFree(echoes, m, sent[i], 0);
      && FirstFit(sent[..i + 1], echoes) == m + [hit]
      && Unmatched(sent[..i + 1], m + [hit]) == Unmatched(sent[..i], m) + if hit.None? then [sent[i]] else []
  {
    hide FirstFree;
    var m := FirstFit(sent[..i], echoes);
    assert sent[..i + 1][..i] == sent[..i];
    assert (m + [FirstFree(echoes, m, sent[i], 0)])[..i] == m;
  }

  lemma TakenNext(echoes: seq<Echo>, m: seq<Option<nat>>, hit: Option<nat>)
    requires hit.Some? ==> hit.value < |echoes|
    ensures forall q ::
      Taken(echoes, m + [hit], q) <==> Taken(echoes, m, q) || (hit.Some? && echoes[hit.value].seqNo == q)
  {
    var next := m + [hit];
    forall q ensures Taken(echoes, next, q) <==> Taken(echoes, m, q) || (hit.Some? && echoes[hit.value].seqNo == q) {
      if Taken(echoes, m, q) {
        var i :| 0 <= i < |m| && m[i].Some? && m[i].value < |echoes| && echoes[m[i].value].seqNo == q;
        assert next[i] == m[i];
      }
      if hit.Some? {
        assert next[|m|] == hit;
      }
    }
  }

  // ---------------------------------------------------------------- what first fit keeps

  /** An echo a send could have had instead of its own, or of none, is taken. */
  ghost predicate Greedy(sent: seq<Sent>, echoes: seq<Echo>, m: seq<Option<nat>>)
    requires |m| <= |sent|
  {
    forall i, e | 0 <= i < |m| && 0 <= e < |echoes| && Answers(echoes[e], sent[i])
      && (m[i].Some? ==> e < m[i].value) :: Taken(echoes, m, echoes[e].seqNo)
  }

  lemma MatchingNext(sent: seq<Sent>, echoes: seq<Echo>, m: seq<Option<nat>>, i: nat, hit: Option<nat>)
    requires i == |m| < |sent| && Matching(sent[..i], echoes, m)
    requires hit.Some? ==> hit.value < |echoes| && Free(echoes, m, sent[i], hit.value)
    ensures Matching(sent[..i + 1], echoes, m + [hit])
  {
    hide Answers;
    var next, all := m + [hit], sent[..i + 1];
    forall j | 0 <= j < |next| && next[j].Some?
      ensures next[j].value < |echoes| && Answers(echoes[next[j].value], all[j])
    {
      assert all[j] == sent[j];
      if j < i {
        assert next[j] == m[j] && sent[..i][j] == sent[j];
      }
    }
    forall j, k | 0 <= j < k < |next| && next[j].Some? && next[k].Some?
      ensures echoes[next[j].value].seqNo != echoes[next[k].value].seqNo
    {
      assert next[j] == m[j];
      if k < i {
        assert next[k] == m[k];
      } else {
        assert next[k] == hit && !Taken(echoes, m, echoes[hit.value].seqNo);
      }
    }
  }

  lemma GreedyNext(sent: seq<Sent>, echoes: seq<Echo>, m: seq<Option<nat>>, i: nat, hit: Option<nat>)
    requires i == |m| < |sent| && Greedy(sent[..i], echoes, m) && (hit.Some? ==> hit.value < |echoes|)
    requires forall d | 0 <= d < |echoes| && (hit.Some? ==> d < hit.value) :: !Free(echoes, m, sent[i], d)
    ensures Greedy(sent[..i + 1], echoes, m + [hit])
  {
    hide Answers, Taken;
    TakenNext(echoes, m, hit);
    var next, all := m + [hit], sent[..i + 1];
    forall j, e | 0 <= j < |next| && 0 <= e < |echoes| && Answers(echoes[e], all[j])
      && (next[j].Some? ==> e < next[j].value)
      ensures Taken(echoes, next, echoes[e].seqNo)
    {
      assert all[j] == sent[j];
      if j < i {
        assert m[j] == next[j] && sent[..i][j] == sent[j];
        assert Taken(echoes, m, echoes[e].seqNo);
      } else {
        assert !Free(echoes, m, sent[i], e);
      }
    }
  }

  lemma {:induction false} FirstFitMatches(sent: seq<Sent>, echoes: seq<Echo>)
    ensures Matching(sent, echoes, FirstFit(sent, echoes)) && Greedy(sent, echoes, FirstFit(sent, echoes))
  {
    hide Matching, Greedy, FirstFree, Free;
    if sent == [] {
      NothingSent(echoes);
      assert Greedy([], echoes, []) by { NothingGreedy(echoes); }
    } else {
      var n := |sent| - 1;
      FirstFitMatches(sent[..n], echoes);
      var m := FirstFit(sent[..n], echoes);
      MatchingNext(sent, echoes, m, n, FirstFree(echoes, m, sent[n], 0));
      GreedyNext(sent, echoes, m, n, FirstFree(echoes, m, sent[n], 0));
      assert sent[..n + 1] == sent;
    }
  }

  lemma NothingGreedy(echoes: seq<Echo>)
    ensures Greedy([], echoes, [])
  {}

  // ---------------------------------------------------------------- first fit is optimal

  ghost function Matched(m: seq<Option<nat>>): set<nat>
  {
    set i: nat | i < |m| && m[i].Some?
  }

  /** Some echo that would answer the send is left over. */
  ghost predicate Low(sent: seq<Sent>, echoes: seq<Echo>, m: seq<Option<nat>>, i: nat)
    requires i < |sent|
  {
    exists e | 0 <= e < |echoes| :: Free(echoes, m, sent[i], e)
  }

  ghost function Owner(echoes: seq<Echo>, m: seq<Option<nat>>, q: nat): (i: nat)
    requires Taken(echoes, m, q)
    ensures i < |m| && m[i].Some? && m[i].value < |echoes| && echoes[m[i].value].seqNo == q
  {
    var i :| 0 <= i < |m| && m[i].Some? && m[i].value < |echoes| && echoes[m[i].value].seqNo == q;
    i
  }

  /** A send that first fit matched, for each one that another matching matches. */
  ghost function Stand(sent: seq<Sent>, echoes: seq<Echo>, m: seq<Option<nat>>, other: seq<Option<nat>>, i: nat): nat
    requires i < |sent| == |m| == |other|
  {
    if Low(sent, echoes, m, i) then i
    else if other[i].Some? && other[i].value < |echoes| && Taken(echoes, m, echoes[other[i].value].seqNo) then
      Owner(echoes, m, echoes[other[i].value].seqNo)
    else 0
  }

  /** The stand-in is matched, and has echoes left over exactly when the send itself has. */
  lemma StandIn(sent: seq<Sent>, echoes: seq<Echo>, m: seq<Option<nat>>, other: seq<Option<nat>>, i: nat)
    requires Distinct(echoes) && TextsAscend(echoes)
    requires Matching(sent, echoes, m) && Greedy(sent, echoes, m) && Matching(sent, echoes, other)
    requires i in Matched(other)
    ensures var j := Stand(sent, echoes, m, other, i);
      && j in Matched(m)
      && Low(sent, echoes, m, j) == Low(sent, echoes, m, i)
      && (!Low(sent, echoes, m, i) ==> m[j] == other[i])
  {
    hide Taken;
    if !Low(sent, echoes, m, i) {
      var e := other[i].value;
      assert !Free(echoes, m, sent[i], e);
      var j := Owner(echoes, m, echoes[e].seqNo);
      assert m[j] == Some(e);
      forall d | 0 <= d < |echoes|
        ensures !Free(echoes, m, sent[j], d)
      {
        if Answers(echoes[d], sent[j]) {
          if d > e {
            assert Answers(echoes[d], sent[i]);
            assert !Free(echoes, m, sent[i], d);
          }
        }
      }
    }
  }

  lemma {:induction false} InjectionSize(a: set<nat>, b: set<nat>, f: map<nat, nat>)
    requires forall x | x in a :: x in f && f[x] in b
    requires forall x, y | x in a && y in a && f[x] == f[y] :: x == y
    ensures |a| <= |b|
  {
    if a != {} {
      var x :| x in a;
      InjectionSize(a - {x}, b - {f[x]}, f);
    }
  }

  lemma {:induction false} UnmatchedSize(sent: seq<Sent>, m: seq<Option<nat>>)
    requires |m| == |sent|
    ensures |Unmatched(sent, m)| + |Matched(m)| == |sent|
  {
    hide Matched;
    if sent == [] {
      assert Matched(m) == {} by { NoneMatched(m); }
    } else {
      var n := |sent| - 1;
      UnmatchedSize(sent[..n], m[..n]);
      MatchedLast(m);
    }
  }

  lemma NoneMatched(m: seq<Option<nat>>)
    requires m == []
    ensures Matched(m) == {}
  {}

  lemma MatchedLast(m: seq<Option<nat>>)
    requires m != []
    ensures var n := |m| - 1; |Matched(m)| == |Matched(m[..n])| + if m[n].Some? then 1 else 0
  {
    var n := |m| - 1;
    assert Matched(m) == Matched(m[..n]) + if m[n].Some? then {n} else {};
  }

  /** No way to pair sends with echoes leaves fewer sends waiting than first fit does, whatever their order. */
  lemma FirstFitOptimal(sent: seq<Sent>, echoes: seq<Echo>, other: seq<Option<nat>>)
    requires Distinct(echoes) && TextsAscend(echoes) && Matching(sent, echoes, other)
    ensures |Unmatched(sent, FirstFit(sent, echoes))| <= |Unmatched(sent, other)|
  {
    hide Matching, Greedy, Stand, Low, Distinct, TextsAscend, Unmatched, FirstFit;
    var m := FirstFit(sent, echoes);
    FirstFitMatches(sent, echoes);
    var f := map i: nat | i in Matched(other) :: Stand(sent, echoes, m, other, i);
    forall i | i in Matched(other) ensures f[i] in Matched(m) {
      StandIn(sent, echoes, m, other, i);
    }
    forall i, j | i in Matched(other) && j in Matched(other) && f[i] == f[j] ensures i == j {
      StandIn(sent, echoes, m, other, i);
      StandIn(sent, echoes, m, other, j);
      StandApart(sent, echoes, m, other, i, j);
    }
    InjectionSize(Matched(other), Matched(m), f);
    UnmatchedSize(sent, m);
    UnmatchedSize(sent, other);
  }

  lemma StandApart(
      sent: seq<Sent>, echoes: seq<Echo>, m: seq<Option<nat>>, other: seq<Option<nat>>, i: nat, j: nat)
    requires Matching(sent, echoes, m) && Matching(sent, echoes, other) && i in Matched(other) && j in Matched(other)
    requires Stand(sent, echoes, m, other, i) == Stand(sent, echoes, m, other, j)
    requires Low(sent, echoes, m, i) == Low(sent, echoes, m, j)
    requires !Low(sent, echoes, m, i) ==> other[i] == other[j]
    ensures i == j
  {
    hide Low, Answers;
  }

  // ---------------------------------------------------------------- and only then

  /** Whatever is sent, no matching leaves fewer sends waiting. */
  ghost predicate Optimal(echoes: seq<Echo>) {
    forall sent, m | Matching(sent, echoes, m) :: |Unmatched(sent, FirstFit(sent, echoes))| <= |Unmatched(sent, m)|
  }

  /** The positions before `n` of the echoes of a text from a seq on. */
  function Picks(echoes: seq<Echo>, text: string, from: nat, n: nat): (r: seq<nat>)
    requires n <= |echoes|
    ensures forall e: nat :: e in r <==> e < n && echoes[e].text == text && echoes[e].seqNo >= from
    ensures forall a, b | 0 <= a < b < |r| :: r[a] < r[b]
  {
    if n == 0 then []
    else
      var r := Picks(echoes, text, from, n - 1);
      assert forall a | 0 <= a < |r| :: r[a] in r;
      r + if echoes[n - 1].text == text && echoes[n - 1].seqNo >= from then [n - 1] else []
  }

  /** One send that two echoes could answer, then as many as only the later seqs can answer. */
  function Crowd(text: string, low: nat, high: nat, n: nat): seq<Sent>
  {
    [Sent(text, low)] + seq(n, k => Sent(text, high))
  }

  /** The way to serve them all: the low echo for the first. */
  lemma CrowdServed(echoes: seq<Echo>, j: nat, high: nat) returns (m: seq<Option<nat>>)
    requires j < |echoes| && Distinct(echoes) && echoes[j].seqNo < high
    ensures var text, low := echoes[j].text, echoes[j].seqNo;
      var picks := Picks(echoes, text, high, |echoes|);
      Matching(Crowd(text, low, high, |picks|), echoes, m) && Unmatched(Crowd(text, low, high, |picks|), m) == []
  {
    hide Unmatched;
    var text, low := echoes[j].text, echoes[j].seqNo;
    var picks := Picks(echoes, text, high, |echoes|);
    var sent := Crowd(text, low, high, |picks|);
    m := [Some(j)] + seq(|picks|, k requires 0 <= k < |picks| => Some(picks[k]));
    forall i | 0 <= i < |m| ensures m[i].Some? && m[i].value < |echoes| && Answers(echoes[m[i].value], sent[i]) {
      if i > 0 {
        assert picks[i - 1] in picks;
      }
    }
    forall a, b | 0 <= a < b < |m| ensures echoes[m[a].value].seqNo != echoes[m[b].value].seqNo {
      assert picks[b - 1] in picks;
      if a > 0 {
        assert picks[a - 1] < picks[b - 1];
      }
    }
    NoneUnmatched(sent, m);
    assert Matching(sent, echoes, m);
  }

  lemma {:induction false} NoneUnmatched(sent: seq<Sent>, m: seq<Option<nat>>)
    requires |m| == |sent| && forall i | 0 <= i < |m| :: m[i].Some?
    ensures Unmatched(sent, m) == []
  {
    if sent != [] {
      NoneUnmatched(sent[..|sent| - 1], m[..|sent| - 1]);
    }
  }

  /** First fit gives the first send its first echo. */
  lemma {:induction false} FirstHit(sent: seq<Sent>, echoes: seq<Echo>)
    requires sent != []
    ensures FirstFit(sent, echoes)[0] == FirstFree(echoes, [], sent[0], 0)
  {
    hide FirstFree;
    if |sent| > 1 {
      FirstHit(sent[..|sent| - 1], echoes);
    } else {
      assert sent[..0] == [];
    }
  }

  /** Different things that all come from a list are no more than the list is long. */
  lemma Pigeonhole(xs: seq<nat>, ys: seq<nat>)
    requires forall i | 0 <= i < |xs| :: xs[i] in ys
    requires forall i, j | 0 <= i < j < |xs| :: xs[i] != xs[j]
    ensures |xs| <= |ys|
  {
    ElementsSize(xs);
    ElementsSize(ys);
    SubsetSize(Elements(xs), Elements(ys));
  }

  /** If the first send is given one of the echoes the others need, one of them waits. */
  lemma CrowdWaits(echoes: seq<Echo>, text: string, low: nat, p: nat)
    requires p < |echoes| && Distinct(echoes) && echoes[p].text == text
    requires FirstFree(echoes, [], Sent(text, low), 0) == Some(p)
    ensures var high := echoes[p].seqNo;
      var sent := Crowd(text, low, high, |Picks(echoes, text, high, |echoes|)|);
      Unmatched(sent, FirstFit(sent, echoes)) != []
  {
    hide Unmatched, FirstFit, FirstFree, Greedy;
    var high := echoes[p].seqNo;
    var picks := Picks(echoes, text, high, |echoes|);
    var sent := Crowd(text, low, high, |picks|);
    var m := FirstFit(sent, echoes);
    FirstFitMatches(sent, echoes);
    FirstHit(sent, echoes);
    TooMany(echoes, text, high, p, m, picks, sent);
    var i :| 0 <= i < |m| && m[i].None?;
    SomeUnmatched(sent, m, i);
  }

  lemma {:induction false} SomeUnmatched(sent: seq<Sent>, m: seq<Option<nat>>, i: nat)
    requires |m| == |sent| && i < |m| && m[i].None?
    ensures Unmatched(sent, m) != []
  {
    var n := |sent| - 1;
    if i < n {
      SomeUnmatched(sent[..n], m[..n], i);
    }
  }

  /** More sends than echoes cannot all be matched. */
  lemma TooMany(
      echoes: seq<Echo>, text: string, high: nat, p: nat, m: seq<Option<nat>>, picks: seq<nat>, sent: seq<Sent>)
    requires p < |echoes| && echoes[p].text == text && echoes[p].seqNo == high
    requires picks == Picks(echoes, text, high, |echoes|) && |sent| == |picks| + 1
    requires forall i | 0 < i < |sent| :: sent[i] == Sent(text, high)
    requires Matching(sent, echoes, m) && m[0] == Some(p)
    ensures exists i | 0 <= i < |m| :: m[i].None?
  {
    if forall i | 0 <= i < |m| :: m[i].Some? {
      var given := seq(|m|, i requires 0 <= i < |m| => m[i].value);
      forall i | 0 <= i < |given| ensures given[i] in picks {
        assert i > 0 ==> Answers(echoes[m[i].value], sent[i]);
      }
      forall i, j | 0 <= i < j < |given| ensures given[i] != given[j] {
        assert echoes[m[i].value].seqNo != echoes[m[j].value].seqNo;
      }
      Pigeonhole(given, picks);
    }
  }

  /** Two echoes of one text in the wrong order: some sends are served worse than they could be. */
  lemma InversionFails(echoes: seq<Echo>, i: nat, j: nat)
    requires i < j < |echoes| && Distinct(echoes)
    requires echoes[i].text == echoes[j].text && echoes[i].seqNo > echoes[j].seqNo
    ensures !Optimal(echoes)
  {
    hide Matching, Unmatched, FirstFit, Crowd, Picks;
    var text, low := echoes[j].text, echoes[j].seqNo;
    assert Free(echoes, [], Sent(text, low), i) && Free(echoes, [], Sent(text, low), j);
    var p := FirstFree(echoes, [], Sent(text, low), 0).value;
    assert p <= i && Free(echoes, [], Sent(text, low), p);
    assert echoes[p].seqNo != echoes[j].seqNo;
    var high := echoes[p].seqNo;
    var m := CrowdServed(echoes, j, high);
    CrowdWaits(echoes, text, low, p);
    var sent := Crowd(text, low, high, |Picks(echoes, text, high, |echoes|)|);
    assert |Unmatched(sent, FirstFit(sent, echoes))| > |Unmatched(sent, m)|;
  }

  /** First fit is optimal for everything that can be sent exactly if the echoes of each text ascend. */
  lemma OptimalExactly(echoes: seq<Echo>)
    requires Distinct(echoes)
    ensures TextsAscend(echoes) <==> Optimal(echoes)
  {
    hide Matching, Unmatched, FirstFit;
    if TextsAscend(echoes) {
      forall sent, m | Matching(sent, echoes, m)
        ensures |Unmatched(sent, FirstFit(sent, echoes))| <= |Unmatched(sent, m)|
      {
        FirstFitOptimal(sent, echoes, m);
      }
    } else {
      var i, j :| 0 <= i < j < |echoes| && echoes[i].text == echoes[j].text && echoes[i].seqNo >= echoes[j].seqNo;
      InversionFails(echoes, i, j);
    }
  }
}
