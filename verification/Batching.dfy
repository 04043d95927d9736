/** Blind judge batches: first fit under a size, with no two views of one run and no leak either way. */
module Batching {

  /** A view: its run, its reference sentences (`said`) and its rendered prompts. */
  datatype View = View(run: string, said: set<string>, prompts: seq<string>)

  predicate OccursAt(x: string, p: string, i: nat) {
    i + |x| <= |p| && p[i..i + |x|] == x
  }

  predicate Occurs(x: string, p: string) {
    exists i | 0 <= i <= |p| :: OccursAt(x, p, i)
  }

  /** A text occurs in another, also the empty one, wherever something comes before and after it. */
  lemma OccursIs(x: string, p: string)
    ensures Occurs(x, p) <==> exists a, b :: p == a + x + b
  {
    if Occurs(x, p) {
      var i :| 0 <= i <= |p| && OccursAt(x, p, i);
      assert p == p[..i] + x + p[i + |x|..];
    }
    if a, b :| p == a + x + b {
      assert OccursAt(x, p, |a|);
    }
  }

  /** Reference speech of `v` is visible in a prompt of `w`. */
  predicate Leak(v: View, w: View) {
    exists x | x in v.said :: exists i | 0 <= i < |w.prompts| :: Occurs(x, w.prompts[i])
  }

  predicate Clash(v: View, w: View) {
    v.run == w.run || Leak(v, w) || Leak(w, v)
  }

  predicate Fits(b: seq<View>, v: View, perBatch: int) {
    |b| < perBatch && forall i | 0 <= i < |b| :: !Clash(b[i], v)
  }

  ghost predicate Apart(b: seq<View>) {
    forall i, j | 0 <= i < j < |b| :: !Clash(b[i], b[j])
  }

  function Flat(batches: seq<seq<View>>): seq<View>
  {
    if batches == [] then [] else Flat(batches[..|batches| - 1]) + batches[|batches| - 1]
  }

  /** Nothing in batch `c` would have fitted the earlier batch `a`. */
  ghost predicate Tight(a: seq<View>, c: seq<View>, perBatch: int) {
    forall i | 0 <= i < |c| :: !Fits(a, c[i], perBatch)
  }

  ghost predicate Blind(out: seq<seq<View>>, perBatch: int) {
    && (forall k | 0 <= k < |out| :: 1 <= |out[k]| && (|out[k]| <= perBatch || |out[k]| == 1) && Apart(out[k]))
    && (forall a, c | 0 <= a < c < |out| :: Tight(out[a], out[c], perBatch))
  }

  lemma FlatLast(out: seq<seq<View>>)
    requires out != []
    ensures multiset(Flat(out)) == multiset(Flat(out[..|out| - 1])) + multiset(out[|out| - 1])
  {}

  lemma {:induction false} FlatUpdate(out: seq<seq<View>>, k: nat, v: View)
    requires k < |out|
    ensures multiset(Flat(out[k := out[k] + [v]])) == multiset(Flat(out)) + multiset{v}
  {
    hide Flat;
    var n := |out| - 1;
    var next := out[k := out[k] + [v]];
    FlatLast(out);
    FlatLast(next);
    if k == n {
      assert next[..n] == out[..n] && next[n] == out[n] + [v];
    } else {
      FlatUpdate(out[..n], k, v);
      assert next[..n] == out[..n][k := out[k] + [v]] && next[n] == out[n];
    }
  }

  lemma FlatAppend(out: seq<seq<View>>, v: View)
    ensures multiset(Flat(out + [[v]])) == multiset(Flat(out)) + multiset{v}
  {
    assert (out + [[v]])[..|out|] == out;
  }

  /** A batch that grows fits no more than before. */
  lemma FitsLess(b: seq<View>, v: View, w: View, perBatch: int)
    requires !Fits(b, w, perBatch)
    ensures !Fits(b + [v], w, perBatch)
  {
    if |b| < perBatch {
      var i :| 0 <= i < |b| && Clash(b[i], w);
      assert (b + [v])[i] == b[i];
    }
  }

  lemma BlindJoin(out: seq<seq<View>>, k: nat, v: View, perBatch: int)
    requires k < |out| && Blind(out, perBatch) && Fits(out[k], v, perBatch)
    requires forall a | 0 <= a < k :: !Fits(out[a], v, perBatch)
    ensures Blind(out[k := out[k] + [v]], perBatch)
  {
    hide Clash;
    var next := out[k := out[k] + [v]];
    assert Apart(next[k]) by {
      assert Apart(out[k]);
    }
    forall a, c | 0 <= a < c < |next| ensures Tight(next[a], next[c], perBatch) {
      assert Tight(out[a], out[c], perBatch);
      if a == k {
        forall i | 0 <= i < |out[c]| ensures !Fits(next[a], out[c][i], perBatch) {
          FitsLess(out[a], v, out[c][i], perBatch);
        }
      }
    }
  }

  lemma BlindNew(out: seq<seq<View>>, v: View, perBatch: int)
    requires Blind(out, perBatch) && forall a | 0 <= a < |out| :: !Fits(out[a], v, perBatch)
    ensures Blind(out + [[v]], perBatch)
  {
    hide Clash, Fits;
  }

  /** `batches`, on the views in their seeded order. */
  method Batches(order: seq<View>, perBatch: int) returns (out: seq<seq<View>>)
    ensures multiset(Flat(out)) == multiset(order)
    ensures Blind(out, perBatch)
  {
    hide Clash, Blind, Flat;
    out := [];
    NoBatches(perBatch);
    for n := 0 to |order|
      invariant multiset(Flat(out)) == multiset(order[..n])
      invariant Blind(out, perBatch)
    {
      var v := order[n];
      var k := 0;
      while k < |out| && !Fits(out[k], v, perBatch)
        invariant 0 <= k <= |out|
        invariant forall a | 0 <= a < k :: !Fits(out[a], v, perBatch)
      {
        k := k + 1;
      }
      assert order[..n + 1] == order[..n] + [v];
      if k < |out| {
        FlatUpdate(out, k, v);
        BlindJoin(out, k, v, perBatch);
        out := out[k := out[k] + [v]];
      } else {
        FlatAppend(out, v);
        BlindNew(out, v, perBatch);
        out := out + [[v]];
      }
    }
    assert order[..|order|] == order;
  }

  lemma NoBatches(perBatch: int)
    ensures Blind([], perBatch) && Flat([]) == []
  {}

  // ---------------------------------------------------------------- the export's check

  predicate Shows(b: seq<View>, i: nat)
    requires i < |b|
  {
    exists j | 0 <= j < |b| && j != i :: Leak(b[i], b[j])
  }

  function CountShown(b: seq<View>, n: nat): nat
    requires n <= |b|
  {
    if n == 0 then 0 else CountShown(b, n - 1) + if Shows(b, n - 1) then 1 else 0
  }

  /** `visible`: the views of a batch whose reference speech is in another's prompt. */
  function Visible(b: seq<View>): nat
  {
    CountShown(b, |b|)
  }

  /** The positions whose speech some other view of the batch shows. */
  ghost function Leaking(b: seq<View>, n: nat): set<nat>
    requires n <= |b|
  {
    set i: nat | i < n && LeaksToOther(b, i)
  }

  ghost predicate LeaksToOther(b: seq<View>, i: nat)
    requires i < |b|
  {
    exists j: nat :: j < |b| && i != j && Leak(b[i], b[j])
  }

  /** As many are visible as there are such positions. */
  lemma {:induction false} VisibleAre(b: seq<View>, n: nat)
    requires n <= |b|
    ensures CountShown(b, n) == |Leaking(b, n)|
    ensures n == |b| ==> Visible(b) == |Leaking(b, n)|
  {
    hide Leak;
    if n == 0 {
      assert Leaking(b, 0) == {};
    } else {
      var m: nat := n - 1;
      VisibleAre(b, m);
      if LeaksToOther(b, m) {
        assert Leaking(b, n) == Leaking(b, m) + {m};
      } else {
        assert Leaking(b, n) == Leaking(b, m);
      }
    }
  }

  function SumVisible(batches: seq<seq<View>>): nat
  {
    if batches == [] then 0 else SumVisible(batches[..|batches| - 1]) + Visible(batches[|batches| - 1])
  }

  lemma {:induction false} ApartShowsNone(b: seq<View>, n: nat)
    requires n <= |b| && Apart(b)
    ensures CountShown(b, n) == 0
  {
    if n > 0 {
      ApartShowsNone(b, n - 1);
      forall j | 0 <= j < |b| && j != n - 1 ensures !Leak(b[n - 1], b[j]) {
        assert if j < n - 1 then !Clash(b[j], b[n - 1]) else !Clash(b[n - 1], b[j]);
      }
    }
  }

  /** What `batches` makes shows nothing, so the export never refuses it. */
  lemma {:induction false} NothingVisible(out: seq<seq<View>>, perBatch: int)
    requires Blind(out, perBatch)
    ensures SumVisible(out) == 0
  {
    hide Clash, Fits;
    if out != [] {
      NothingVisible(out[..|out| - 1], perBatch);
      ApartShowsNone(out[|out| - 1], |out[|out| - 1]|);
    }
  }

  /** `run_export` up to its refusal: the batches, and whether it stops. */
  method Export(order: seq<View>, perBatch: int) returns (out: seq<seq<View>>, refused: bool)
    ensures multiset(Flat(out)) == multiset(order) && Blind(out, perBatch)
    ensures !refused
  {
    hide Blind, Flat, SumVisible;
    out := Batches(order, perBatch);
    NothingVisible(out, perBatch);
    refused := SumVisible(out) > 0;
  }
}
