/** Stratified sampling: how many views each stratum gives, by the largest remainder. */
module Allotment {
  import opened Wrappers

  function Sum(xs: seq<nat>): nat
  {
    if xs == [] then 0 else Sum(xs[..|xs| - 1]) + xs[|xs| - 1]
  }

  lemma {:induction false} SumUpdate(xs: seq<nat>, k: nat, x: nat)
    requires k < |xs|
    ensures Sum(xs[k := x]) == Sum(xs) - xs[k] + x
  {
    var n := |xs| - 1;
    if k == n {
      assert xs[k := x][..n] == xs[..n];
    } else {
      SumUpdate(xs[..n], k, x);
      assert xs[k := x][..n] == xs[..n][k := x];
    }
  }

  /** A quotient and a remainder: the exact share `num / room`. */
  datatype Share = Share(floor: nat, rem: nat)

  /** `left * (size - base) / room`, exactly. */
  function ShareOf(left: nat, size: nat, base: nat, room: nat): (s: Share)
    requires base <= size
    ensures room > 0 ==> s.floor * room + s.rem == left * (size - base) && s.rem < room
    ensures room == 0 ==> s == Share(0, 0)
  {
    if room == 0 then Share(0, 0) else Divide(left * (size - base), room)
  }

  function Divide(num: nat, room: nat): (s: Share)
    requires room > 0
    ensures s.floor * room + s.rem == num && s.rem < room
  {
    Share(num / room, num % room)
  }

  /** The exact share, rounded up. */
  function Ceiling(s: Share): nat
  {
    if s.rem > 0 then s.floor + 1 else s.floor
  }

  function Shares(sizes: seq<nat>, left: nat, base: nat, room: nat): (r: seq<Share>)
    requires forall k | 0 <= k < |sizes| :: base <= sizes[k]
    ensures |r| == |sizes| && forall k | 0 <= k < |r| :: r[k] == ShareOf(left, sizes[k], base, room)
  {
    if sizes == [] then []
    else
      var n := |sizes| - 1;
      Shares(sizes[..n], left, base, room) + [ShareOf(left, sizes[n], base, room)]
  }

  function Floors(shares: seq<Share>): seq<nat>
  {
    seq(|shares|, k requires 0 <= k < |shares| => shares[k].floor)
  }

  function Rems(shares: seq<Share>): seq<nat>
  {
    seq(|shares|, k requires 0 <= k < |shares| => shares[k].rem)
  }

  /** What the strata have above `base`. */
  function Excess(sizes: seq<nat>, base: nat): (r: int)
    requires base <= 1
    ensures r == Sum(sizes) - if base == 1 then |sizes| else 0
  {
    if sizes == [] then 0 else Excess(sizes[..|sizes| - 1], base) + (sizes[|sizes| - 1] - base)
  }

  /** The last share apart. */
  lemma SharesLast(sizes: seq<nat>, left: nat, base: nat, room: nat)
    requires sizes != [] && forall k | 0 <= k < |sizes| :: base <= sizes[k]
    ensures var n := |sizes| - 1;
      var s, t := Shares(sizes, left, base, room), Shares(sizes[..n], left, base, room);
      && s[n] == ShareOf(left, sizes[n], base, room)
      && Sum(Floors(s)) == Sum(Floors(t)) + s[n].floor && Sum(Rems(s)) == Sum(Rems(t)) + s[n].rem
  {
    hide ShareOf;
    var n := |sizes| - 1;
    var s, t := Shares(sizes, left, base, room), Shares(sizes[..n], left, base, room);
    assert Floors(s)[..n] == Floors(t);
    assert Rems(s)[..n] == Rems(t);
  }

  /** Floors and remainders make up this multiple of what is left. */
  predicate Balance(floors: nat, rems: nat, excess: int, left: nat, room: nat) {
    floors * room + rems == left * excess
  }

  lemma ShareBalance(left: nat, size: nat, base: nat, room: nat)
    requires base <= size && room > 0
    ensures var s := ShareOf(left, size, base, room); Balance(s.floor, s.rem, size - base, left, room)
  {
    hide ShareOf;
  }

  lemma AddBalance(floors: nat, rems: nat, excess: int, floor: nat, rem: nat, more: int, left: nat, room: nat)
    requires Balance(floors, rems, excess, left, room) && Balance(floor, rem, more, left, room)
    ensures Balance(floors + floor, rems + rem, excess + more, left, room)
  {
    Distribute(floors, floor, room);
    DistributeInt(left, excess, more);
  }

  /** The shares add up to what is left to give of all the excess. */
  lemma {:induction false} SharesAddUp(sizes: seq<nat>, left: nat, base: nat, room: nat)
    requires room > 0 && base <= 1 && forall k | 0 <= k < |sizes| :: base <= sizes[k]
    ensures var s := Shares(sizes, left, base, room);
      Balance(Sum(Floors(s)), Sum(Rems(s)), Excess(sizes, base), left, room)
  {
    if sizes == [] {
      assert Excess(sizes, base) == 0;
    } else {
      hide ShareOf, Shares, Sum, Balance;
      var n := |sizes| - 1;
      SharesAddUp(sizes[..n], left, base, room);
      SharesLast(sizes, left, base, room);
      ShareBalance(left, sizes[n], base, room);
      var t, s := Shares(sizes[..n], left, base, room), ShareOf(left, sizes[n], base, room);
      AddBalance(Sum(Floors(t)), Sum(Rems(t)), Excess(sizes[..n], base), s.floor, s.rem, sizes[n] - base, left, room);
    }
  }

  lemma Distribute(a: nat, b: nat, c: nat)
    ensures (a + b) * c == a * c + b * c
  {}

  lemma DistributeInt(a: int, b: int, c: int)
    ensures a * (b + c) == a * b + a * c
  {}

  // ---------------------------------------------------------------- the order of the remainders

  /** Larger remainders first, and among equal ones the earlier key. */
  predicate Before(rems: seq<nat>, i: nat, j: nat)
    requires i < |rems| && j < |rems|
  {
    rems[i] > rems[j] || (rems[i] == rems[j] && i < j)
  }

  /** All positions, each once, larger remainders first. */
  ghost predicate Ordered(rems: seq<nat>, n: nat, order: seq<nat>)
    requires n <= |rems|
  {
    && (forall k | 0 <= k < |order| :: order[k] < n)
    && (forall a, b | 0 <= a < b < |order| :: Before(rems, order[a], order[b]))
    && (forall i: nat | i < n :: i in order)
  }

  /** `sorted` by remainder: insertion of one key after another. */
  method SortByRemainder(rems: seq<nat>) returns (order: seq<nat>)
    ensures Ordered(rems, |rems|, order)
  {
    order := [];
    for i := 0 to |rems|
      invariant Ordered(rems, i, order)
    {
      var p := |order|;
      while p > 0 && rems[order[p - 1]] < rems[i]
        invariant 0 <= p <= |order|
        invariant forall a | p <= a < |order| :: Before(rems, i, order[a])
      {
        p := p - 1;
      }
      assert p > 0 ==> Before(rems, order[p - 1], i);
      assert forall a | 0 <= a < p :: Before(rems, order[a], i);
      ghost var was := order;
      order := order[..p] + [i] + order[p..];
      Inserted(rems, i, was, p);
    }
  }

  lemma Inserted(rems: seq<nat>, i: nat, order: seq<nat>, p: nat)
    requires i < |rems| && p <= |order| && Ordered(rems, i, order)
    requires forall a | 0 <= a < p :: Before(rems, order[a], i)
    requires forall a | p <= a < |order| :: Before(rems, i, order[a])
    ensures Ordered(rems, i + 1, order[..p] + [i] + order[p..])
  {
    var next := order[..p] + [i] + order[p..];
    forall k: nat | k < i + 1 ensures k in next {
      if k == i {
        assert next[p] == i;
      } else {
        assert k in order;
        var a :| 0 <= a < |order| && order[a] == k;
        assert next[if a < p then a else a + 1] == k;
      }
    }
    forall a, b | 0 <= a < b < |next| ensures Before(rems, next[a], next[b]) {
      assert a < p ==> next[a] == order[a];
      assert a > p ==> next[a] == order[a - 1];
      assert b < p ==> next[b] == order[b];
      assert b > p ==> next[b] == order[b - 1];
    }
  }

  // ---------------------------------------------------------------- one pass suffices

  function Positive(rems: seq<nat>): set<nat>
  {
    set k: nat | k < |rems| && rems[k] > 0
  }

  /** Remainders below `room` add up to at most `room` for each positive one. */
  lemma {:induction false} RemsBound(rems: seq<nat>, room: nat)
    requires forall k | 0 <= k < |rems| :: rems[k] <= room
    ensures Sum(rems) <= room * |Positive(rems)|
  {
    if rems == [] {
      assert Positive(rems) == {};
    } else {
      var n := |rems| - 1;
      RemsBound(rems[..n], room);
      if rems[n] > 0 {
        assert Positive(rems) == Positive(rems[..n]) + {n};
        DistributeInt(room, |Positive(rems[..n])|, 1);
      } else {
        assert Positive(rems) == Positive(rems[..n]);
      }
    }
  }

  /** What is missing after rounding down is given to positions with a positive remainder only. */
  lemma GivenPositive(rems: seq<nat>, order: seq<nat>, room: nat, missing: nat, p: nat)
    requires Ordered(rems, |rems|, order) && p <= |order| && room > 0
    requires forall k | 0 <= k < |rems| :: rems[k] <= room
    requires Sum(rems) == missing * room
    requires p < |order| ==> rems[order[p]] == 0
    ensures missing <= p
  {
    RemsBound(rems, room);
    forall a | p <= a < |order| ensures rems[order[a]] == 0 {
      if a > p {
        assert Before(rems, order[p], order[a]);
      }
    }
    forall k | k in Positive(rems) ensures k in Elements(order[..p]) {
      assert k in order;
      var a :| 0 <= a < |order| && order[a] == k;
      assert order[..p][a] == k;
    }
    ElementsSize(order[..p]);
    SubsetSize(Positive(rems), Elements(order[..p]));
    Cancel(missing, |Positive(rems)|, room);
  }

  lemma Cancel(a: nat, b: nat, c: nat)
    requires c > 0 && a * c <= c * b
    ensures a <= b
  {
    if b < a {
      LessTimes(b, a, c);
    }
  }

  lemma LessTimes(b: nat, a: nat, c: nat)
    requires b < a && c > 0
    ensures c * b < a * c
  {
    DistributeInt(c, b, a - b);
    Times(c, a - b);
  }

  lemma Times(c: nat, k: nat)
    requires k >= 1
    ensures c * k >= c
  {}

  // ---------------------------------------------------------------- the allotment

  /** What the rule starts from: the views to give, one each if that is possible, and what is left then. */
  datatype Plan = Plan(n: nat, base: nat, left: nat, room: nat)

  function PlanFor(sizes: seq<nat>, n: nat): (p: Plan)
    requires forall k | 0 <= k < |sizes| :: sizes[k] > 0
    ensures p.base <= 1 && p.left <= p.room
    ensures p.n == if n < Sum(sizes) then n else Sum(sizes)
    ensures p.base == 1 <==> n >= |sizes|
    ensures p.left == p.n - (if p.base == 1 then |sizes| else 0)
    ensures p.room == Excess(sizes, p.base)
  {
    SumBound(sizes);
    var total := Sum(sizes);
    var n' := if n < total then n else total;
    var base := if n' >= |sizes| then 1 else 0;
    Plan(n', base, n' - base * |sizes|, total - base * |sizes|)
  }

  lemma {:induction false} SumBound(sizes: seq<nat>)
    requires forall k | 0 <= k < |sizes| :: sizes[k] > 0
    ensures Sum(sizes) >= |sizes|
  {
    if sizes != [] {
      SumBound(sizes[..|sizes| - 1]);
    }
  }

  function SharesFor(sizes: seq<nat>, p: Plan): seq<Share>
    requires p.base <= 1 && forall k | 0 <= k < |sizes| :: sizes[k] > 0
  {
    Shares(sizes, p.left, p.base, p.room)
  }

  /**
   What each stratum gets: in all what was asked for, as far as there is that much; of none more than
   it has; and its exact share rounded down or up, up where the remainders are largest.
   */
  ghost predicate Allotted(sizes: seq<nat>, n: nat, got: seq<nat>)
    requires forall k | 0 <= k < |sizes| :: sizes[k] > 0
  {
    var p := PlanFor(sizes, n);
    var s := SharesFor(sizes, p);
    && |got| == |sizes| && Sum(got) == p.n
    && (forall k | 0 <= k < |sizes| :: got[k] <= sizes[k])
    && (n >= |sizes| ==> forall k | 0 <= k < |sizes| :: got[k] >= 1)
    && (forall k | 0 <= k < |sizes| :: p.base + s[k].floor <= got[k] <= p.base + Ceiling(s[k]))
    && (forall j, k | 0 <= j < |sizes| && 0 <= k < |sizes| ::
          got[j] > p.base + s[j].floor && got[k] == p.base + s[k].floor ==> Before(Rems(s), j, k))
  }

  /** A share rounded up is no more than what the stratum has left. */
  lemma CeilingFits(left: nat, size: nat, base: nat, room: nat)
    requires base <= size && left <= room
    ensures base + Ceiling(ShareOf(left, size, base, room)) <= size
  {
    var s := ShareOf(left, size, base, room);
    if room > 0 {
      AtMost(left, room, size - base);
      if s.rem > 0 {
        FloorBelow(s.floor, s.rem, size - base, room);
      } else {
        Cancel(s.floor, size - base, room);
      }
    }
  }

  lemma AtMost(a: nat, b: nat, c: nat)
    requires a <= b
    ensures a * c <= b * c
  {}

  lemma FloorBelow(floor: nat, rem: nat, most: nat, room: nat)
    requires floor * room + rem <= room * most && rem > 0
    ensures floor + 1 <= most
  {
    if most <= floor {
      AtMost(most, floor, room);
    }
  }

  /** The counts after rounding down, with one more for each position in the first part of the order. */
  ghost predicate GivenTo(floors: seq<nat>, base: nat, order: seq<nat>, p: nat, got: seq<nat>)
    requires p <= |order|
  {
    && |got| == |floors|
    && forall k: nat | k < |got| :: got[k] == base + floors[k] + if k in order[..p] then 1 else 0
  }

  lemma {:induction false} SumBase(floors: seq<nat>, base: nat, got: seq<nat>)
    requires |got| == |floors| && base <= 1 && forall k | 0 <= k < |got| :: got[k] == base + floors[k]
    ensures Sum(got) == Sum(floors) + if base == 1 then |floors| else 0
  {
    if got != [] {
      var n := |got| - 1;
      SumBase(floors[..n], base, got[..n]);
    }
  }

  lemma GiveNext(rems: seq<nat>, floors: seq<nat>, base: nat, order: seq<nat>, p: nat, got: seq<nat>)
    requires |floors| == |rems| && Ordered(rems, |rems|, order) && p < |order| && GivenTo(floors, base, order, p, got)
    ensures GivenTo(floors, base, order, p + 1, got[order[p] := got[order[p]] + 1])
  {
    assert order[..p + 1] == order[..p] + [order[p]];
    forall a | 0 <= a < p ensures order[a] != order[p] {
      assert Before(rems, order[a], order[p]);
    }
    assert order[p] !in order[..p];
  }

  /** Rounding down leaves as many to give as the remainders make up. */
  lemma Missing(sizes: seq<nat>, p: Plan) returns (missing: nat)
    requires p.base <= 1 && p.left <= p.room == Excess(sizes, p.base) && forall k | 0 <= k < |sizes| :: sizes[k] > 0
    ensures Sum(Floors(SharesFor(sizes, p))) + missing == p.left
    ensures p.room > 0 ==> Sum(Rems(SharesFor(sizes, p))) == missing * p.room
    ensures p.room == 0 ==> missing == 0
  {
    hide ShareOf;
    var s := SharesFor(sizes, p);
    if p.room == 0 {
      SumZero(Floors(s));
      missing := 0;
    } else {
      SharesAddUp(sizes, p.left, p.base, p.room);
      Cancel(Sum(Floors(s)), p.left, p.room);
      missing := p.left - Sum(Floors(s));
      Distribute(Sum(Floors(s)), missing, p.room);
    }
  }

  lemma {:induction false} SumZero(xs: seq<nat>)
    requires forall k | 0 <= k < |xs| :: xs[k] == 0
    ensures Sum(xs) == 0
  {
    if xs != [] {
      SumZero(xs[..|xs| - 1]);
    }
  }

  /** `allot`, on the sizes of the strata that are not empty, in key order. */
  method Allot(sizes: seq<nat>, n: nat) returns (got: seq<nat>)
    requires forall k | 0 <= k < |sizes| :: sizes[k] > 0
    ensures Allotted(sizes, n, got)
  {
    hide ShareOf, Shares, Sum, Excess, Ordered, GivenTo, PlanFor;
    var p := PlanFor(sizes, n);
    var shares := SharesFor(sizes, p);
    ghost var floors, rems := Floors(shares), Rems(shares);
    got := seq(|sizes|, k requires 0 <= k < |sizes| => p.base + shares[k].floor);
    var order := SortByRemainder(Rems(shares));
    ghost var missing := Missing(sizes, p);
    SumBase(floors, p.base, got);
    ghost var given: nat := 0;
    NoneGiven(floors, p.base, order, got);
    for q := 0 to |order|
      invariant |got| == |sizes| && given == (if q < missing then q else missing)
      invariant GivenTo(floors, p.base, order, given, got) && Sum(got) + missing == p.n + given
    {
      if Sum(got) < p.n {
        OrderedAt(rems, order, q);
        SumUpdate(got, order[q], got[order[q]] + 1);
        GiveNext(rems, floors, p.base, order, q, got);
        got := got[order[q] := got[order[q]] + 1];
        given := given + 1;
      }
    }
    AllGiven(sizes, n, p, order, missing, given, got);
  }

  lemma NoneGiven(floors: seq<nat>, base: nat, order: seq<nat>, got: seq<nat>)
    requires |got| == |floors| && forall k | 0 <= k < |got| :: got[k] == base + floors[k]
    ensures GivenTo(floors, base, order, 0, got)
  {}

  lemma OrderedAt(rems: seq<nat>, order: seq<nat>, q: nat)
    requires Ordered(rems, |rems|, order) && q < |order|
    ensures order[q] < |rems|
  {}

  lemma AllGiven(sizes: seq<nat>, n: nat, p: Plan, order: seq<nat>, missing: nat, given: nat, got: seq<nat>)
    requires (forall k | 0 <= k < |sizes| :: sizes[k] > 0) && p == PlanFor(sizes, n)
    requires Ordered(Rems(SharesFor(sizes, p)), |sizes|, order)
    requires given == if |order| < missing then |order| else missing
    requires GivenTo(Floors(SharesFor(sizes, p)), p.base, order, given, got) && Sum(got) + missing == p.n + given
    requires p.room > 0 ==> Sum(Rems(SharesFor(sizes, p))) == missing * p.room
    requires p.room == 0 ==> missing == 0
    ensures Allotted(sizes, n, got)
  {
    hide ShareOf, Shares, Sum, Excess, PlanFor, Ordered;
    var s := SharesFor(sizes, p);
    var rems := Rems(s);
    assert given == missing && forall q | 0 <= q < given :: order[q] < |s| && s[order[q]].rem > 0 by {
      AllPositive(rems, order, p.room, missing);
    }
    forall k | 0 <= k < |sizes|
      ensures p.base + s[k].floor <= got[k] <= p.base + Ceiling(s[k]) <= sizes[k]
    {
      CeilingFits(p.left, sizes[k], p.base, p.room);
      if k in order[..given] {
        var q :| 0 <= q < given && order[..given][q] == k;
        assert s[order[q]].rem > 0;
      }
    }
    forall j, k | 0 <= j < |sizes| && 0 <= k < |sizes| && got[j] > p.base + s[j].floor && got[k] == p.base + s[k].floor
      ensures Before(rems, j, k)
    {
      assert j in order[..given] && k !in order[..given];
      GivenFirst(rems, order, given, j, k);
    }
  }

  /** Every position that is given one more has a positive remainder, and there are enough of them. */
  lemma AllPositive(rems: seq<nat>, order: seq<nat>, room: nat, missing: nat)
    requires Ordered(rems, |rems|, order) && forall k | 0 <= k < |rems| :: rems[k] <= room
    requires room > 0 ==> Sum(rems) == missing * room
    requires room == 0 ==> missing == 0
    ensures missing <= |order| && forall q | 0 <= q < missing :: order[q] < |rems| && rems[order[q]] > 0
  {
    hide Sum;
    if room > 0 {
      GivenPositive(rems, order, room, missing, |order|);
      forall q | 0 <= q < missing ensures rems[order[q]] > 0 {
        if rems[order[q]] == 0 {
          GivenPositive(rems, order, room, missing, q);
        }
      }
    }
  }

  /** What is given one more stands before what is not. */
  lemma GivenFirst(rems: seq<nat>, order: seq<nat>, given: nat, j: nat, k: nat)
    requires Ordered(rems, |rems|, order) && given <= |order|
    requires j in order[..given] && k !in order[..given] && k < |rems|
    ensures j < |rems| && Before(rems, j, k)
  {
    var a :| 0 <= a < given && order[..given][a] == j;
    assert forall q | 0 <= q < given :: order[..given][q] == order[q] && order[q] in order[..given];
    assert k in order;
    var b :| 0 <= b < |order| && order[b] == k;
    assert order[a] == j && a < b;
  }
}
