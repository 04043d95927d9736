/**
 The Wilson score interval over the reals. `root` stands for the square root, any non-negative
 number with the right square.
 */
module Wilson {

  ghost predicate IsRoot(root: real, x: real) {
    root >= 0.0 && root * root == x
  }

  /** What is under the square root. */
  function Radicand(p: real, n: real, z: real): real
    requires n > 0.0
  {
    p * (1.0 - p) / n + z * z / (4.0 * n * n)
  }

  function Max(a: real, b: real): real { if a < b then b else a }

  function Min(a: real, b: real): real { if a < b then a else b }

  function Centre(p: real, n: real, z: real): real
    requires n > 0.0
  {
    var z2 := z * z;
    Denominator(n, z);
    (p + z2 / (2.0 * n)) / (1.0 + z2 / n)
  }

  function Half(n: real, z: real, root: real): real
    requires n > 0.0
  {
    var z2 := z * z;
    Denominator(n, z);
    z / (1.0 + z2 / n) * root
  }

  /** The interval `wilson` computes before its clamps. */
  function Lo(p: real, n: real, z: real, root: real): real
    requires n > 0.0
  {
    Centre(p, n, z) - Half(n, z, root)
  }

  function Hi(p: real, n: real, z: real, root: real): real
    requires n > 0.0
  {
    Centre(p, n, z) + Half(n, z, root)
  }

  datatype Interval = Refused | Interval(lo: real, hi: real)

  function WilsonInterval(k: int, n: int, z: real, root: real): Interval
  {
    if n <= 0 || !(0 <= k <= n) then Refused
    else
      var p, n' := k as real / n as real, n as real;
      Interval(Max(0.0, Lo(p, n', z, root)), Min(1.0, Hi(p, n', z, root)))
  }

  /** The ends `rate` computes before it rounds: the other way to write them. */
  function RateEnd(p: real, n: real, z: real, half: real): real
    requires n > 0.0
  {
    Denominator(n, z);
    (p + z * z / (2.0 * n) + half) / (1.0 + z * z / n)
  }

  function RateInterval(k: nat, n: nat, z: real, root: real): Interval
  {
    if n == 0 then Refused
    else
      var p, n', half := k as real / n as real, n as real, z * root;
      Interval(Max(RateEnd(p, n', z, -half), 0.0), Min(RateEnd(p, n', z, half), 1.0))
  }

  // ---------------------------------------------------------------- the quadratic

  /** How far `q` is outside the score interval: negative inside, zero at its ends. */
  function Score(p: real, n: real, z: real, q: real): real
    requires n > 0.0
  {
    (p - q) * (p - q) - z * z * (q * (1.0 - q)) / n
  }

  /** With `w = z^2 / n`, the sum and the product of the ends. */
  lemma EndsOf(p: real, w: real, h: real, lo: real, hi: real)
    requires w >= 0.0 && lo * (1.0 + w) == p + w / 2.0 - h && hi * (1.0 + w) == p + w / 2.0 + h
    requires h * h == w * (p * (1.0 - p)) + w * w / 4.0
    ensures (lo + hi) * (1.0 + w) == 2.0 * p + w
    ensures (lo * hi) * (1.0 + w) == p * p
  {
    var d, c := 1.0 + w, p + w / 2.0;
    assert (lo * d) * (hi * d) == c * c - h * h;
    assert c * c - h * h == p * p * d;
    Regroup(lo, hi, d);
    CancelReal((lo * hi) * d, p * p, d);
  }

  lemma Regroup(a: real, b: real, d: real)
    ensures (a * d) * (b * d) == ((a * b) * d) * d
  {}

  lemma CancelReal(a: real, b: real, d: real)
    requires d > 0.0 && a * d == b * d
    ensures a == b
  {
    assert (a - b) * d == 0.0;
  }

  /** The score factors over the ends. */
  lemma Factors(p: real, w: real, lo: real, hi: real, q: real, x: real, y: real)
    requires (lo + hi) * (1.0 + w) == 2.0 * p + w
    requires (lo * hi) * (1.0 + w) == p * p
    requires x == (q - lo) * (q - hi) && y == (p - q) * (p - q) - w * (q * (1.0 - q))
    ensures y == (1.0 + w) * x
  {
    var d := 1.0 + w;
    assert (q - lo) * (q - hi) == q * q - (lo + hi) * q + lo * hi;
    Expand(d, q * q, (lo + hi) * q, lo * hi);
    Shift(d, lo + hi, q);
  }

  lemma Expand(d: real, a: real, b: real, c: real)
    ensures d * (a - b + c) == d * a - d * b + d * c
  {}

  lemma Shift(d: real, s: real, q: real)
    ensures d * (s * q) == (s * d) * q
  {}

  // ---------------------------------------------------------------- the interval

  /** `q` is `a / b`, said without dividing. */
  predicate Over(q: real, a: real, b: real) {
    b > 0.0 && q * b == a
  }

  lemma OverIs(a: real, b: real)
    requires b > 0.0
    ensures Over(a / b, a, b)
  {}

  lemma OverUnique(x: real, y: real, a: real, b: real)
    requires Over(x, a, b) && Over(y, a, b)
    ensures x == y
  {
    CancelReal(x, y, b);
  }

  lemma OverNotNegative(q: real, a: real, b: real)
    requires Over(q, a, b) && a >= 0.0
    ensures q >= 0.0
  {
    SameSign(q, b);
  }

  lemma FourSquares(n: real, m: real)
    requires n > 0.0 && m == 4.0 * n * n
    ensures m > 0.0
  {
    Positive(4.0 * n, n, m);
  }

  /** Half of `a / n` is `a / 2n`. */
  lemma HalfOver(w: real, x: real, a: real, n: real)
    requires Over(w, a, n) && Over(x, a, 2.0 * n)
    ensures x == w / 2.0
  {
    CancelReal(x, w / 2.0, 2.0 * n);
  }

  /** A quarter of the square of `a / n` is `a^2 / 4n^2`. */
  lemma QuarterOver(w: real, x: real, a: real, n: real)
    requires n > 0.0 && w * n == a && x * (4.0 * n * n) == a
    ensures a * x == w * w / 4.0
  {
    var m := 4.0 * n * n;
    FourSquares(n, m);
    assert (w * w / 4.0) * m == (w * n) * (w * n);
    assert (a * x) * m == a * a;
    CancelReal(a * x, w * w / 4.0, m);
  }

  lemma ProductOver(w: real, x: real, a: real, v: real, n: real)
    requires Over(w, a, n) && Over(x, v, n)
    ensures a * x == w * v
  {
    assert (a * x) * n == a * v;
    assert (w * v) * n == a * v;
    CancelReal(a * x, w * v, n);
  }

  lemma RootOver(p: real, n: real, z: real, root: real, w: real, x: real, y: real)
    requires Over(w, z * z, n) && Over(x, p * (1.0 - p), n) && n > 0.0 && y * (4.0 * n * n) == z * z
    requires root * root == x + y
    ensures (z * root) * (z * root) == w * (p * (1.0 - p)) + w * w / 4.0
  {
    var a := z * z;
    ProductOver(w, x, a, p * (1.0 - p), n);
    QuarterOver(w, y, a, n);
    assert (z * root) * (z * root) == a * (root * root);
    assert a * (x + y) == a * x + a * y;
  }

  lemma Quotients(p: real, n: real, z: real, root: real)
    requires n > 0.0 && IsRoot(root, Radicand(p, n, z))
    ensures var w, h := z * z / n, z * root;
      && w >= 0.0 && z * z / (2.0 * n) == w / 2.0
      && h * h == w * (p * (1.0 - p)) + w * w / 4.0
  {
    OverIs(z * z, n);
    OverIs(z * z, 2.0 * n);
    OverIs(p * (1.0 - p), n);
    Square(z, z * z);
    OverNotNegative(z * z / n, z * z, n);
    HalfOver(z * z / n, z * z / (2.0 * n), z * z, n);
    FourSquares(n, 4.0 * n * n);
    OverIs(z * z, 4.0 * n * n);
    RootOver(p, n, z, root, z * z / n, p * (1.0 - p) / n, z * z / (4.0 * n * n));
  }

  lemma Denominator(n: real, z: real)
    requires n > 0.0
    ensures 1.0 + z * z / n >= 1.0
  {
    Square(z, z * z);
    OverIs(z * z, n);
    OverNotNegative(z * z / n, z * z, n);
  }

  /** The ends, cleared of their denominator. */
  lemma RawEnds(p: real, n: real, z: real, root: real, w: real, h: real)
    requires n > 0.0 && IsRoot(root, Radicand(p, n, z)) && w == z * z / n && h == z * root
    ensures w >= 0.0 && h * h == w * (p * (1.0 - p)) + w * w / 4.0
    ensures Lo(p, n, z, root) * (1.0 + w) == p + w / 2.0 - h
    ensures Hi(p, n, z, root) * (1.0 + w) == p + w / 2.0 + h
  {
    hide Lo, Hi, Radicand;
    Quotients(p, n, z, root);
    LoHiCleared(p, n, z, root);
  }

  lemma LoHiCleared(p: real, n: real, z: real, root: real)
    requires n > 0.0
    ensures Lo(p, n, z, root) * (1.0 + z * z / n) == p + z * z / (2.0 * n) - z * root
    ensures Hi(p, n, z, root) * (1.0 + z * z / n) == p + z * z / (2.0 * n) + z * root
  {
    Denominator(n, z);
    Cleared(p + z * z / (2.0 * n), z, root, 1.0 + z * z / n);
  }

  lemma Cleared(c: real, z: real, root: real, d: real)
    requires d > 0.0
    ensures (c / d - z / d * root) * d == c - z * root
    ensures (c / d + z / d * root) * d == c + z * root
  {
    OverIs(c, d);
    OverIs(z, d);
    ClearedOver(c / d, z / d, c, z, root, d);
  }

  lemma ClearedOver(a: real, b: real, c: real, z: real, root: real, d: real)
    requires Over(a, c, d) && Over(b, z, d)
    ensures (a - b * root) * d == c - z * root
    ensures (a + b * root) * d == c + z * root
  {
    assert (b * root) * d == (b * d) * root;
    SplitTimes(a, b * root, d);
  }

  lemma SplitTimes(a: real, b: real, d: real)
    ensures (a - b) * d == a * d - b * d && (a + b) * d == a * d + b * d
  {}

  lemma Fraction(p: real, k: nat, n: nat)
    requires n > 0 && k <= n && p == k as real / n as real
    ensures 0.0 <= p <= 1.0
  {
    var x, y := k as real, n as real;
    assert p * y == x;
    SameSign(p, y);
    SameSign(1.0 - p, y);
  }

  lemma SameSign(a: real, y: real)
    requires y > 0.0 && a * y >= 0.0
    ensures a >= 0.0
  {
    if a < 0.0 {
      Positive(-a, y, -(a * y));
    }
  }

  // ---------------------------------------------------------------- what the interval is

  lemma SignOfProduct(lo: real, hi: real, q: real, x: real)
    requires lo <= hi && x == (q - lo) * (q - hi)
    ensures x <= 0.0 <==> lo <= q <= hi
  {
    if q < lo {
      Positive(lo - q, hi - q, x);
    } else if hi < q {
      Positive(q - lo, q - hi, x);
    } else {
      NotNegative(q - lo, hi - q, -x);
    }
  }

  lemma Positive(a: real, b: real, c: real)
    requires a > 0.0 && b > 0.0 && c == a * b
    ensures c > 0.0
  {}

  lemma NotNegative(a: real, b: real, c: real)
    requires a >= 0.0 && b >= 0.0 && c == a * b
    ensures c >= 0.0
  {}

  lemma Square(a: real, c: real)
    requires c == a * a
    ensures c >= 0.0
  {
    if a >= 0.0 {
      NotNegative(a, a, c);
    } else {
      NotNegative(-a, -a, c);
    }
  }

  lemma Scaled(d: real, x: real, y: real)
    requires d > 0.0 && y == d * x
    ensures y <= 0.0 <==> x <= 0.0
  {
    if x > 0.0 {
      Positive(d, x, y);
    } else {
      NotNegative(d, -x, -y);
    }
  }

  lemma Ordered(lo: real, hi: real, d: real, h: real)
    requires d > 0.0 && h >= 0.0 && (hi - lo) * d == 2.0 * h
    ensures lo <= hi
  {
    SameSign(hi - lo, d);
  }

  /** It is the score interval: exactly the rates `q` that `p` is at most `z` standard errors from. */
  lemma WilsonIsScore(p: real, n: real, z: real, root: real, q: real)
    requires n > 0.0 && z >= 0.0 && IsRoot(root, Radicand(p, n, z))
    ensures Lo(p, n, z, root) <= q <= Hi(p, n, z, root) <==> Score(p, n, z, q) <= 0.0
  {
    hide Lo, Hi, Score, Radicand, Ends, ScoreOver, IsRoot;
    EndsAre(p, n, z, root);
    ScoreIs(p, n, z, q);
    SignOfScore(p, z * z / n, z * root, Lo(p, n, z, root), Hi(p, n, z, root), q, Score(p, n, z, q));
  }

  /** The ends, cleared of `1 + w`, and the score, with `w` for `z * z / n` and `h` for the root's part. */
  ghost predicate Ends(p: real, w: real, h: real, lo: real, hi: real) {
    && w >= 0.0 && h >= 0.0 && h * h == w * (p * (1.0 - p)) + w * w / 4.0
    && lo * (1.0 + w) == p + w / 2.0 - h && hi * (1.0 + w) == p + w / 2.0 + h
  }

  ghost predicate ScoreOver(p: real, w: real, q: real, y: real) {
    y == (p - q) * (p - q) - w * (q * (1.0 - q))
  }

  lemma EndsAre(p: real, n: real, z: real, root: real)
    requires n > 0.0 && z >= 0.0 && IsRoot(root, Radicand(p, n, z))
    ensures Ends(p, z * z / n, z * root, Lo(p, n, z, root), Hi(p, n, z, root))
  {
    hide Lo, Hi, Radicand;
    RawEnds(p, n, z, root, z * z / n, z * root);
    NotNegative(z, root, z * root);
  }

  lemma SignOfScore(p: real, w: real, h: real, lo: real, hi: real, q: real, y: real)
    requires Ends(p, w, h, lo, hi) && ScoreOver(p, w, q, y)
    ensures lo <= q <= hi <==> y <= 0.0
  {
    EndsOf(p, w, h, lo, hi);
    var x := (q - lo) * (q - hi);
    Factors(p, w, lo, hi, q, x, y);
    SplitTimes(hi, lo, 1.0 + w);
    Ordered(lo, hi, 1.0 + w, h);
    SignOfProduct(lo, hi, q, x);
    Scaled(1.0 + w, x, y);
  }

  lemma ScoreIs(p: real, n: real, z: real, q: real)
    requires n > 0.0
    ensures ScoreOver(p, z * z / n, q, Score(p, n, z, q))
  {
    OverIs(z * z, n);
    OverIs(z * z * (q * (1.0 - q)), n);
    TimesOver(z * z / n, z * z * (q * (1.0 - q)) / n, z * z, q * (1.0 - q), n);
  }

  lemma TimesOver(w: real, x: real, a: real, v: real, n: real)
    requires Over(w, a, n) && Over(x, a * v, n)
    ensures x == w * v
  {
    assert (w * v) * n == a * v;
    CancelReal(x, w * v, n);
  }

  lemma NotBelow(x: real, h: real, rest: real)
    requires x >= 0.0 && rest >= 0.0 && x * x - h * h == rest && h >= 0.0
    ensures h <= x
  {
    assert (x - h) * (x + h) == x * x - h * h;
    if x + h > 0.0 {
      SameSign(x - h, x + h);
    }
  }

  /** Unclamped, it holds the observed rate and stays between 0 and 1. */
  lemma WilsonBounds(p: real, n: real, z: real, root: real)
    requires n > 0.0 && 0.0 <= p <= 1.0 && z >= 0.0 && IsRoot(root, Radicand(p, n, z))
    ensures 0.0 <= Lo(p, n, z, root) <= p <= Hi(p, n, z, root) <= 1.0
  {
    hide Lo, Hi, Score, Radicand;
    var lo, hi, w, h := Lo(p, n, z, root), Hi(p, n, z, root), z * z / n, z * root;
    RawEnds(p, n, z, root, w, h);
    WilsonIsScore(p, n, z, root, p);
    ScoreAtRate(p, n, z);
    NotNegative(z, root, h);
    EndInside(p, w, h, lo);
    UpperInside(p, w, h, hi);
  }

  lemma UpperInside(p: real, w: real, h: real, hi: real)
    requires 0.0 <= p <= 1.0 && w >= 0.0 && h >= 0.0
    requires h * h == w * (p * (1.0 - p)) + w * w / 4.0 && hi * (1.0 + w) == p + w / 2.0 + h
    ensures hi <= 1.0
  {
    SplitTimes(1.0, hi, 1.0 + w);
    EndInside(1.0 - p, w, h, 1.0 - hi);
  }

  /** The lower end is not negative; by symmetry the upper one is at most 1. */
  lemma EndInside(p: real, w: real, h: real, lo: real)
    requires 0.0 <= p <= 1.0 && w >= 0.0 && h >= 0.0
    requires h * h == w * (p * (1.0 - p)) + w * w / 4.0 && lo * (1.0 + w) == p + w / 2.0 - h
    ensures lo >= 0.0
  {
    var x := p + w / 2.0;
    assert x * x - h * h == (p * p) * (1.0 + w);
    Square(p, p * p);
    NotNegative(p * p, 1.0 + w, (p * p) * (1.0 + w));
    NotBelow(x, h, (p * p) * (1.0 + w));
    SameSign(lo, 1.0 + w);
  }

  lemma ScoreAtRate(p: real, n: real, z: real)
    requires n > 0.0 && 0.0 <= p <= 1.0
    ensures Score(p, n, z, p) <= 0.0
  {
    var w, v := z * z / n, p * (1.0 - p);
    ScoreIs(p, n, z, p);
    NotNegative(p, 1.0 - p, v);
    Square(z, z * z);
    OverIs(z * z, n);
    OverNotNegative(w, z * z, n);
    NotNegative(w, v, w * v);
  }

  /** So the clamps never bite, and the two ways to write it agree. */
  lemma RateIsWilson(k: nat, n: nat, z: real, root: real)
    requires k <= n && z >= 0.0
    requires n > 0 ==> IsRoot(root, Radicand(k as real / n as real, n as real, z))
    ensures RateInterval(k, n, z, root) == WilsonInterval(k, n, z, root)
    ensures n > 0 ==> var p := k as real / n as real;
      WilsonInterval(k, n, z, root) == Interval(Lo(p, n as real, z, root), Hi(p, n as real, z, root))
  {
    hide Lo, Hi, RateEnd, Radicand;
    if n > 0 {
      var p := k as real / n as real;
      Fraction(p, k, n);
      WilsonBounds(p, n as real, z, root);
      RateEnds(p, n as real, z, root);
    }
  }

  lemma RateEnds(p: real, n: real, z: real, root: real)
    requires n > 0.0
    ensures RateEnd(p, n, z, -(z * root)) == Lo(p, n, z, root)
    ensures RateEnd(p, n, z, z * root) == Hi(p, n, z, root)
  {
    var c, d := p + z * z / (2.0 * n), 1.0 + z * z / n;
    Denominator(n, z);
    SplitOver(c, z, root, d);
  }

  lemma SplitOver(c: real, z: real, root: real, d: real)
    requires d > 0.0
    ensures (c - z * root) / d == c / d - z / d * root
    ensures (c + z * root) / d == c / d + z / d * root
  {
    Cleared(c, z, root, d);
    OverIs(c - z * root, d);
    OverIs(c + z * root, d);
    OverUnique((c - z * root) / d, c / d - z / d * root, c - z * root, d);
    OverUnique((c + z * root) / d, c / d + z / d * root, c + z * root, d);
  }
}
