/**
 The Wilson score interval (bench/gate1_holdout.py, scripts/evaluate_gate1.py,
 scripts/run_r2_r3_acceptance.py), over the reals. `root` stands for math.sqrt.
 */
module Wilson {

  const Z: real := 1.959963984540054

  ghost predicate IsRoot(root: real -> real) {
    forall x: real :: x >= 0.0 ==> root(x) >= 0.0 && root(x) * root(x) == x
  }

  function Rate(k: nat, n: nat): real
    requires n > 0
  {
    k as real / n as real
  }

  function Radicand(k: nat, n: nat, z: real): real
    requires n > 0
  {
    Rate(k, n) * (1.0 - Rate(k, n)) / n as real + z * z / (4.0 * n as real * n as real)
  }

  function Lower(k: nat, n: nat, z: real, root: real -> real): real
    requires n > 0
  {
    (Rate(k, n) + z * z / (2.0 * n as real) - z * root(Radicand(k, n, z))) / (1.0 + z * z / n as real)
  }

  function Upper(k: nat, n: nat, z: real, root: real -> real): real
    requires n > 0
  {
    (Rate(k, n) + z * z / (2.0 * n as real) + z * root(Radicand(k, n, z))) / (1.0 + z * z / n as real)
  }

  // ---------------------------------------------------------------- the score equation

  /** The score test's statistic: zero exactly where (q - p)^2 = w p (1 - p). */
  function Score(q: real, w: real, p: real): real {
    (p - q) * (p - q) - w * (p * (1.0 - p))
  }

  /** Completing the square: `s` is half the distance of the two roots, scaled by 1 + w. */
  lemma SquareCompleted(q: real, w: real, s: real, p: real)
    requires s * s == w * (q * (1.0 - q)) + w * w / 4.0
    ensures (1.0 + w) * Score(q, w, p) == ((1.0 + w) * p - (q + w / 2.0)) * ((1.0 + w) * p - (q + w / 2.0)) - s * s
  {
    var d, c := 1.0 + w, q + w / 2.0;
    assert Score(q, w, p) == d * (p * p) - 2.0 * (c * p) + q * q;
    assert (d * p - c) * (d * p - c) == d * (d * (p * p)) - 2.0 * (d * (c * p)) + c * c;
    assert c * c - s * s == d * (q * q);
  }

  /** The interval in score form: `q` the observed rate, `w` = z^2 / n, `s` the scaled half width. */
  ghost predicate Interval(q: real, w: real, s: real, l: real, u: real) {
    && 0.0 <= q <= 1.0 && w > 0.0 && s >= 0.0
    && s * s == w * (q * (1.0 - q)) + w * w / 4.0
    && (1.0 + w) * u == q + w / 2.0 + s
    && (1.0 + w) * l == q + w / 2.0 - s
  }

  lemma Product(a: real, b: real)
    requires a >= 0.0 && b >= 0.0
    ensures a * b >= 0.0
    ensures a > 0.0 && b > 0.0 ==> a * b > 0.0
  {
  }

  lemma SquareOrder(a: real, b: real)
    requires a >= 0.0 && b >= 0.0
    ensures a <= b <==> a * a <= b * b
  {
    var sum := a + b;
    var diff := b - a;
    assert diff * sum == b * b - a * a;
    if diff >= 0.0 {
      Product(diff, sum);
    } else {
      var minus := 0.0 - diff;
      Product(minus, sum);
      assert minus * sum == 0.0 - diff * sum;
      assert minus * sum > 0.0;
    }
  }

  lemma ScaledOrder(d: real, a: real, b: real)
    requires d > 0.0
    ensures d * a <= d * b <==> a <= b
  {
    var diff := b - a;
    assert d * diff == d * b - d * a;
    if diff >= 0.0 {
      Product(d, diff);
    } else {
      var minus := 0.0 - diff;
      Product(d, minus);
      assert d * minus == 0.0 - d * diff;
      assert d * minus > 0.0;
    }
  }

  lemma SquareOfSum(a: real, b: real)
    ensures (a + b) * (a + b) == a * a + 2.0 * (a * b) + b * b
  {
  }

  /** One side of the half width: with a + b == 1 the scaled half width is at most a + w / 2. */
  lemma HalfWidthSide(a: real, b: real, w: real, s: real)
    requires a >= 0.0 && b >= 0.0 && a + b == 1.0 && w > 0.0 && s >= 0.0
    requires s * s == w * (a * b) + w * w / 4.0
    ensures w / 2.0 <= s <= a + w / 2.0
  {
    var h, v := w / 2.0, a * b;
    Product(a, b);
    Product(a, a);
    assert a - v == a * a;
    ScaledOrder(w, 0.0, v);
    ScaledOrder(w, v, a);
    var wv, wa, hh, aa := w * v, w * a, h * h, a * a;
    assert s * s == wv + hh && 0.0 <= wv <= wa;
    SquareOrder(h, s);
    SquareOfSum(a, h);
    assert 2.0 * (a * h) == wa;
    var sum := a + h;
    assert sum * sum == aa + wa + hh;
    SquareOrder(s, sum);
  }

  lemma HalfWidth(q: real, w: real, s: real)
    requires 0.0 <= q <= 1.0 && w > 0.0 && s >= 0.0
    requires s * s == w * (q * (1.0 - q)) + w * w / 4.0
    ensures w / 2.0 <= s <= q + w / 2.0 && s <= 1.0 - q + w / 2.0
  {
    var r := 1.0 - q;
    assert q * r == r * q;
    HalfWidthSide(q, r, w, s);
    HalfWidthSide(r, q, w, s);
  }

  /** The observed rate lies inside the interval, and the interval inside [0, 1]. */
  lemma BracketScaled(q: real, w: real, s: real, l: real, u: real)
    requires Interval(q, w, s, l, u)
    ensures 0.0 <= l <= q <= u <= 1.0
  {
    HalfWidth(q, w, s);
    ScaledOrder(w, 0.0, q);
    ScaledOrder(w, q, 1.0);
    assert (1.0 + w) * q == q + w * q;
    assert 0.0 <= w * q <= w;
    Order5(1.0 + w, l, q, u, q + w / 2.0 - s, q + w * q, q + w / 2.0 + s);
  }

  lemma Order5(d: real, l: real, q: real, u: real, dl: real, dq: real, du: real)
    requires d > 0.0 && d * l == dl && d * q == dq && d * u == du && 0.0 <= dl <= dq <= du <= d
    ensures 0.0 <= l <= q <= u <= 1.0
  {
    ScaledOrder(d, 0.0, l);
    ScaledOrder(d, l, q);
    ScaledOrder(d, q, u);
    ScaledOrder(d, u, 1.0);
  }

  lemma ZeroProduct(d: real, x: real)
    requires d > 0.0 && d * x == 0.0
    ensures x == 0.0
  {
    ScaledOrder(d, x, 0.0);
    ScaledOrder(d, 0.0, x);
  }

  lemma EndSolves(q: real, w: real, s: real, p: real, x: real)
    requires w > 0.0 && s * s == w * (q * (1.0 - q)) + w * w / 4.0
    requires x == (1.0 + w) * p - (q + w / 2.0) && (x == s || x == 0.0 - s)
    ensures Score(q, w, p) == 0.0
  {
    SquareCompleted(q, w, s, p);
    assert x * x == s * s;
    ZeroProduct(1.0 + w, Score(q, w, p));
  }

  /** Both ends of the interval solve the score equation. */
  lemma EndsSolveScore(q: real, w: real, s: real, l: real, u: real)
    requires Interval(q, w, s, l, u)
    ensures Score(q, w, l) == 0.0 && Score(q, w, u) == 0.0
  {
    EndSolves(q, w, s, l, 0.0 - s);
    EndSolves(q, w, s, u, s);
  }

  /** Above rate 0 the lower end stays strictly below the rate. */
  lemma LowerBelowRate(q: real, w: real, s: real, l: real, u: real)
    requires Interval(q, w, s, l, u) && q > 0.0
    ensures l < q
  {
    HalfWidth(q, w, s);
    Product(w, q);
    var dq, dl := (1.0 + w) * q, (1.0 + w) * l;
    assert dq == q + w * q;
    assert dl < dq;
    ScaledOrder(1.0 + w, q, l);
  }

  /** With x the scaled distance from the centre, the score is non-negative exactly outside the ends. */
  lemma ScoreSign(q: real, w: real, s: real, m: real, x: real)
    requires w > 0.0 && s >= 0.0 && s * s == w * (q * (1.0 - q)) + w * w / 4.0
    requires x == (1.0 + w) * m - (q + w / 2.0)
    ensures Score(q, w, m) >= 0.0 <==> x >= s || x <= 0.0 - s
  {
    SquareCompleted(q, w, s, m);
    var e := Score(q, w, m);
    assert (1.0 + w) * e == x * x - s * s;
    ScaledOrder(1.0 + w, 0.0, e);
    if x >= 0.0 {
      SquareOrder(s, x);
    } else {
      assert (0.0 - x) * (0.0 - x) == x * x;
      SquareOrder(s, 0.0 - x);
    }
  }

  /** The score is non-negative exactly outside the interval. */
  lemma OutsideEnds(q: real, w: real, s: real, l: real, u: real, m: real)
    requires Interval(q, w, s, l, u)
    ensures Score(q, w, m) >= 0.0 <==> u <= m || m <= l
  {
    var d := 1.0 + w;
    ScoreSign(q, w, s, m, d * m - (q + w / 2.0));
    ScaledOrder(d, u, m);
    ScaledOrder(d, m, l);
  }

  /** Deciding `u <= m` needs no square root. */
  lemma UpperDecision(q: real, w: real, s: real, l: real, u: real, m: real)
    requires Interval(q, w, s, l, u) && 0.0 < m <= 1.0
    ensures u <= m <==> q <= m && Score(q, w, m) >= 0.0
  {
    BracketScaled(q, w, s, l, u);
    OutsideEnds(q, w, s, l, u, m);
    if q > 0.0 { LowerBelowRate(q, w, s, l, u); }
  }

  lemma UpperPositive(q: real, w: real, s: real, l: real, u: real)
    requires Interval(q, w, s, l, u)
    ensures u > 0.0
  {
    HalfWidth(q, w, s);
    ScaledOrder(1.0 + w, u, 0.0);
  }

  lemma ScoreOrder(q: real, q': real, w: real, p: real)
    requires q <= q' <= p
    ensures Score(q', w, p) <= Score(q, w, p)
  {
    SquareOrder(p - q', p - q);
  }

  /** A higher rate has a higher upper end. */
  lemma UpperMonotoneScaled(q: real, q': real, w: real, s: real, s': real, l: real, l': real, u: real, u': real)
    requires Interval(q, w, s, l, u) && Interval(q', w, s', l', u') && q <= q'
    ensures u <= u'
  {
    BracketScaled(q', w, s', l', u');
    EndsSolveScore(q', w, s', l', u');
    UpperPositive(q', w, s', l', u');
    ScoreOrder(q, q', w, u');
    UpperDecision(q, w, s, l, u, u');
  }

  // ---------------------------------------------------------------- the interval as computed

  lemma QuotientIs(a: real, b: real, x: real)
    requires b > 0.0 && x * b == a
    ensures a / b == x
  {
    var y := a / b;
    assert y * b == a;
    assert (y - x) * b == 0.0;
    ZeroProduct(b, y - x);
  }

  lemma ScaledSquare(m: real)
    requires m > 0.0
    ensures 4.0 * m * m > 0.0
  {
    Product(m, m);
  }

  lemma Reassociate(a: real, b: real, c: real)
    ensures a * (b * c) == (b * a) * c
  {
  }

  lemma DivideBack(x: real, d: real)
    requires d > 0.0
    ensures d * (x / d) == x
  {
  }

  lemma QuotientOfProduct(a: real, w: real, v: real, c: real, m: real, d: real)
    requires d > 0.0 && d == c * m && c * v == w && w * m == a
    ensures a / d == v
  {
    Reassociate(v, c, m);
    QuotientIs(a, d, v);
  }

  lemma WeightQuarter(m: real, a: real, w: real)
    requires m > 0.0 && 4.0 * m * m > 0.0 && w * m == a
    ensures a / (4.0 * m * m) == w / (4.0 * m)
  {
    DivideBack(w, 4.0 * m);
    QuotientOfProduct(a, w, w / (4.0 * m), 4.0 * m, m, 4.0 * m * m);
  }

  lemma Weights(m: real, z: real, w: real)
    requires m > 0.0 && w * m == z * z
    ensures z * z / (2.0 * m) == w / 2.0
    ensures 4.0 * m * m > 0.0 && z * z / (4.0 * m * m) == w / (4.0 * m)
  {
    ScaledSquare(m);
    assert (w / 2.0) * (2.0 * m) == z * z;
    QuotientIs(z * z, 2.0 * m, w / 2.0);
    WeightQuarter(m, z * z, w);
  }

  lemma RateBounds(k: nat, n: nat)
    requires k <= n && n > 0
    ensures 0.0 <= Rate(k, n) <= 1.0
  {
    var q, m := Rate(k, n), n as real;
    assert m * q == k as real;
    ScaledOrder(m, 0.0, q);
    assert m * 1.0 == m && k as real <= m;
    ScaledOrder(m, q, 1.0);
  }

  lemma SquaredWidth(v: real, w: real, m: real, z: real, r: real, x: real)
    requires m > 0.0 && w * m == z * z && x == v / m + w / (4.0 * m) && r * r == x
    ensures (z * r) * (z * r) == w * v + w * w / 4.0
  {
    var a, b := v / m, w / (4.0 * m);
    assert a * m == v && b * (4.0 * m) == w;
    assert (z * r) * (z * r) == (z * z) * x;
    assert (w * m) * a == w * (a * m);
    assert (w * m) * b == w * (b * m);
    assert b * m == w / 4.0;
    assert w * (w / 4.0) == w * w / 4.0;
    assert (w * m) * (a + b) == (w * m) * a + (w * m) * b;
  }

  lemma NonNegativeQuotient(a: real, b: real)
    requires a >= 0.0 && b > 0.0
    ensures a / b >= 0.0 && (a > 0.0 ==> a / b > 0.0)
  {
    var x := a / b;
    assert b * x == a;
    ScaledOrder(b, 0.0, x);
    ScaledOrder(b, x, 0.0);
  }

  lemma PositiveProduct(a: real, b: real, c: real)
    requires a > 0.0 && b > 0.0 && c == a * b
    ensures c > 0.0
  {
  }

  lemma WeightPositive(m: real, z: real)
    requires m > 0.0 && z > 0.0
    ensures z * z / m > 0.0
  {
    var a := z * z;
    PositiveProduct(z, z, a);
    NonNegativeQuotient(a, m);
  }

  lemma HalfWidthReal(q: real, m: real, z: real, w: real, x: real, r: real)
    requires 0.0 <= q <= 1.0 && m > 0.0 && z > 0.0 && w > 0.0 && w * m == z * z
    requires 4.0 * m * m != 0.0 && x == q * (1.0 - q) / m + z * z / (4.0 * m * m)
    requires x >= 0.0 ==> r >= 0.0 && r * r == x
    ensures z * r >= 0.0 && (z * r) * (z * r) == w * (q * (1.0 - q)) + w * w / 4.0
  {
    var v := q * (1.0 - q);
    Weights(m, z, w);
    Product(q, 1.0 - q);
    NonNegativeQuotient(v, m);
    NonNegativeQuotient(w, 4.0 * m);
    Product(z, r);
    SquaredWidth(v, w, m, z, r, x);
  }

  lemma Assembled(q: real, w: real, s: real, l: real, u: real, c: real, d: real)
    requires 0.0 <= q <= 1.0 && w > 0.0 && s >= 0.0 && s * s == w * (q * (1.0 - q)) + w * w / 4.0
    requires d == 1.0 + w && c == q + w / 2.0 && u == (c + s) / d && l == (c - s) / d
    ensures Interval(q, w, s, l, u)
  {
    DivideBack(c + s, d);
    DivideBack(c - s, d);
  }

  lemma RadicandIs(q: real, m: real, z: real, x: real, k: nat, n: nat)
    requires n > 0 && q == Rate(k, n) && m == n as real && x == Radicand(k, n, z) && 4.0 * m * m != 0.0
    ensures x == q * (1.0 - q) / m + z * z / (4.0 * m * m)
  {
  }

  lemma HalfWidthAt(k: nat, n: nat, z: real, root: real -> real, w: real, s: real)
    requires k <= n && n > 0 && z > 0.0 && IsRoot(root)
    requires w == z * z / n as real && s == z * root(Radicand(k, n, z))
    ensures 0.0 <= Rate(k, n) <= 1.0 && w > 0.0 && s >= 0.0
    ensures s * s == w * (Rate(k, n) * (1.0 - Rate(k, n))) + w * w / 4.0
  {
    var q, m, x := Rate(k, n), n as real, Radicand(k, n, z);
    ScaledSquare(m);
    RadicandIs(q, m, z, x, k, n);
    RateBounds(k, n);
    WeightPositive(m, z);
    DivideBack(z * z, m);
    HalfWidthReal(q, m, z, w, x, root(x));
  }

  /** The computed bounds are the interval of the score equation. */
  lemma Computed(k: nat, n: nat, z: real, root: real -> real)
    requires k <= n && n > 0 && z > 0.0 && IsRoot(root)
    ensures Interval(Rate(k, n), z * z / n as real, z * root(Radicand(k, n, z)), Lower(k, n, z, root),
                     Upper(k, n, z, root))
  {
    var q, w, m, s := Rate(k, n), z * z / n as real, n as real, z * root(Radicand(k, n, z));
    HalfWidthAt(k, n, z, root, w, s);
    var c := q + z * z / (2.0 * m);
    assert c == q + w / 2.0 by {
      DivideBack(z * z, m);
      Weights(m, z, w);
    }
    Assembled(q, w, s, Lower(k, n, z, root), Upper(k, n, z, root), c, 1.0 + w);
  }

  /** The observed rate lies between the bounds and both lie in [0, 1]. */
  lemma Bracket(k: nat, n: nat, z: real, root: real -> real)
    requires k <= n && n > 0 && z > 0.0 && IsRoot(root)
    ensures 0.0 <= Lower(k, n, z, root) <= Rate(k, n) <= Upper(k, n, z, root) <= 1.0
  {
    Computed(k, n, z, root);
    BracketScaled(Rate(k, n), z * z / n as real, z * root(Radicand(k, n, z)), Lower(k, n, z, root),
                  Upper(k, n, z, root));
  }

  /** Both bounds are solutions p of (k/n - p)^2 = z^2 p (1 - p) / n. */
  lemma BoundsSolveScore(k: nat, n: nat, z: real, root: real -> real)
    requires k <= n && n > 0 && z > 0.0 && IsRoot(root)
    ensures Score(Rate(k, n), z * z / n as real, Lower(k, n, z, root)) == 0.0
    ensures Score(Rate(k, n), z * z / n as real, Upper(k, n, z, root)) == 0.0
  {
    Computed(k, n, z, root);
    EndsSolveScore(Rate(k, n), z * z / n as real, z * root(Radicand(k, n, z)), Lower(k, n, z, root),
                   Upper(k, n, z, root));
  }

  /**
   The confidence test `upper <= m` is decided without a square root: it holds exactly when the
   observed rate is at most m and the score statistic at m is not negative.
   */
  lemma UpperWithin(k: nat, n: nat, z: real, root: real -> real, m: real)
    requires k <= n && n > 0 && z > 0.0 && IsRoot(root) && 0.0 < m <= 1.0
    ensures Upper(k, n, z, root) <= m <==> Rate(k, n) <= m && Score(Rate(k, n), z * z / n as real, m) >= 0.0
  {
    Computed(k, n, z, root);
    UpperDecision(Rate(k, n), z * z / n as real, z * root(Radicand(k, n, z)), Lower(k, n, z, root),
                  Upper(k, n, z, root), m);
  }

  lemma RateMonotone(j: nat, k: nat, n: nat)
    requires j <= k && n > 0
    ensures Rate(j, n) <= Rate(k, n)
  {
    assert Rate(j, n) * n as real == j as real && Rate(k, n) * n as real == k as real;
    ScaledOrder(n as real, Rate(j, n), Rate(k, n));
  }

  /** More false positives never lower the upper bound. */
  lemma UpperMonotone(j: nat, k: nat, n: nat, z: real, root: real -> real)
    requires j <= k <= n && n > 0 && z > 0.0 && IsRoot(root)
    ensures Upper(j, n, z, root) <= Upper(k, n, z, root)
  {
    Computed(j, n, z, root);
    Computed(k, n, z, root);
    RateMonotone(j, k, n);
    UpperMonotoneScaled(Rate(j, n), Rate(k, n), z * z / n as real,
                        z * root(Radicand(j, n, z)), z * root(Radicand(k, n, z)),
                        Lower(j, n, z, root), Lower(k, n, z, root), Upper(j, n, z, root), Upper(k, n, z, root));
  }

  /** Without any false positive the upper bound is z^2 / (n + z^2). */
  lemma UpperAtZero(n: nat, z: real, root: real -> real)
    requires n > 0 && z > 0.0 && IsRoot(root)
    ensures Upper(0, n, z, root) * (n as real + z * z) == z * z
  {
    Computed(0, n, z, root);
    var w, s, u, m := z * z / n as real, z * root(Radicand(0, n, z)), Upper(0, n, z, root), n as real;
    assert Rate(0, n) == 0.0;
    assert w * m == z * z;
    HalfWidth(0.0, w, s);
    assert (1.0 + w) * u == w;
    assert u * (m + w * m) == ((1.0 + w) * u) * m;
  }

  function Max(a: real, b: real): real { if a >= b then a else b }

  function Min(a: real, b: real): real { if a <= b then a else b }

  lemma DivideSum(c: real, s: real, d: real)
    requires d > 0.0
    ensures c / d + s / d == (c + s) / d && c / d - s / d == (c - s) / d
  {
    DivideBack(c, d);
    DivideBack(s, d);
    QuotientIs(c + s, d, c / d + s / d);
    QuotientIs(c - s, d, c / d - s / d);
  }

  /**
   The acceptance driver divides centre and margin separately and clamps the ends to [0, 1]: these are
   the same bounds, and the clamps never act.
   */
  lemma ClampedIsSame(k: nat, n: nat, z: real, root: real -> real)
    requires k <= n && n > 0 && z > 0.0 && IsRoot(root)
    ensures var c, s, d := Rate(k, n) + z * z / (2.0 * n as real), z * root(Radicand(k, n, z)), 1.0 + z * z / n as real;
            d > 0.0 && Max(0.0, c / d - s / d) == Lower(k, n, z, root) && Min(1.0, c / d + s / d)
                == Upper(k, n, z, root)
  {
    WeightPositive(n as real, z);
    DivideSum(Rate(k, n) + z * z / (2.0 * n as real), z * root(Radicand(k, n, z)), 1.0 + z * z / n as real);
    Bracket(k, n, z, root);
  }
}
