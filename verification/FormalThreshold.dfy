/**
 The threshold lock with the reported rates and Wilson bounds of bench/gate1_holdout.py:
 how many negative controls a formal lock needs, and what rounding the chosen threshold
 costs in scripts/evaluate_gate1.py.
 */
module FormalThreshold {

  import opened Wrappers
  import opened ThresholdLock
  import opened Wilson

  /** Rounding to six decimals: monotone, exact at zero, off by at most half a unit. */
  ghost predicate Rounding(rnd: real -> real) {
    && (forall x: real, y: real :: x <= y ==> rnd(x) <= rnd(y))
    && (forall x: real :: x - 0.0000005 <= rnd(x) <= x + 0.0000005)
    && rnd(0.0) == 0.0
  }

  function ReportedShare(rnd: real -> real, k: nat, n: nat): real {
    if n == 0 then 0.0 else rnd(Rate(k, n))
  }

  function ReportedUpper(rnd: real -> real, root: real -> real, k: nat, n: nat): real {
    if n == 0 then 0.0 else rnd(Upper(k, n, Z, root))
  }

  function Reported(rnd: real -> real, root: real -> real): Measures {
    Measures((k: nat, n: nat) => ReportedShare(rnd, k, n), (k: nat, n: nat) => ReportedUpper(rnd, root, k, n))
  }

  lemma ReportedGrows(rnd: real -> real, root: real -> real, j: nat, k: nat, n: nat)
    requires Rounding(rnd) && IsRoot(root) && j <= k <= n && n > 0
    ensures ReportedShare(rnd, j, n) <= ReportedShare(rnd, k, n)
    ensures ReportedUpper(rnd, root, j, n) <= ReportedUpper(rnd, root, k, n)
  {
    RateMonotone(j, k, n);
    UpperMonotone(j, k, n, Z, root);
  }

  lemma NoHitsNoShare(rnd: real -> real, n: nat)
    requires Rounding(rnd) && n > 0
    ensures ReportedShare(rnd, 0, n) == 0.0
  {
    assert Rate(0, n) == 0.0;
  }

  lemma ReportedIsSensible(rnd: real -> real, root: real -> real)
    requires Rounding(rnd) && IsRoot(root)
    ensures Sensible(Reported(rnd, root))
  {
    var m := Reported(rnd, root);
    forall j: nat, k: nat, n: nat | j <= k <= n && n > 0
      ensures m.share(j, n) <= m.share(k, n) && m.upper(j, n) <= m.upper(k, n)
    {
      ReportedGrows(rnd, root, j, k, n);
    }
    forall n: nat | n > 0 ensures m.share(0, n) == 0.0 { NoHitsNoShare(rnd, n); }
  }

  // ---------------------------------------------------------------- the formal sample size

  /** u * (n + v) == v fixes u's side of a bound b < 1. */
  lemma ShareBound(u: real, m: real, v: real, b: real)
    requires m > 0.0 && v > 0.0 && u * (m + v) == v
    ensures u <= b <==> v <= b * (m + v)
  {
    ScaledOrder(m + v, u, b);
  }

  lemma UpperAtZeroBound(n: nat, root: real -> real, b: real)
    requires n > 0 && IsRoot(root)
    ensures Upper(0, n, Z, root) <= b <==> Z * Z <= b * (n as real + Z * Z)
  {
    UpperAtZero(n, Z, root);
    ShareBound(Upper(0, n, Z, root), n as real, Z * Z, b);
  }

  /** With no false positive, the reported bound is at most 1% exactly from 381 negative controls on. */
  lemma FormalMinimum(n: nat, rnd: real -> real, root: real -> real)
    requires n > 0 && Rounding(rnd) && IsRoot(root)
    ensures ReportedUpper(rnd, root, 0, n) <= 0.01 <==> n >= 381
  {
    var u := Upper(0, n, Z, root);
    UpperAtZeroBound(n, root, 0.00999);
    UpperAtZeroBound(n, root, 0.010007);
    assert n >= 381 ==> Z * Z <= 0.00999 * (n as real + Z * Z);
    assert n <= 380 ==> Z * Z > 0.010007 * (n as real + Z * Z);
  }

  /** At 381 negative controls a single false positive already breaks the limit. */
  lemma OneIsTooMany(k: nat, rnd: real -> real, root: real -> real)
    requires 1 <= k <= 381 && Rounding(rnd) && IsRoot(root)
    ensures ReportedUpper(rnd, root, k, 381) > 0.01
  {
    UpperWithin(1, 381, Z, root, 0.0101);
    assert Rate(1, 381) == 1.0 / 381.0;
    assert Score(1.0 / 381.0, Z * Z / 381.0, 0.0101) < 0.0;
    UpperMonotone(1, k, 381, Z, root);
  }

  /** A formal lock (limit 1%, with confidence) exists exactly when there are 381 negative controls. */
  lemma FormalLock(rows: seq<Row>, rnd: real -> real, root: real -> real)
    requires Rounding(rnd) && IsRoot(root)
    ensures Lock(rows, 0.01, true, Reported(rnd, root)).Locked? <==> Rows(rows, false) >= 381
  {
    var m, n := Reported(rnd, root), Rows(rows, false);
    ReportedIsSensible(rnd, root);
    LockOutcome(rows, 0.01, true, m);
    if n > 0 {
      FormalMinimum(n, rnd, root);
      assert m.upper(0, n) == ReportedUpper(rnd, root, 0, n);
    }
  }

  lemma AdmittedBound(rows: seq<Row>, t: real, rnd: real -> real, root: real -> real)
    requires Rows(rows, false) > 0 && Admitted(rows, t, 0.01, true, Reported(rnd, root))
    ensures ReportedUpper(rnd, root, Hits(rows, false, t), Rows(rows, false)) <= 0.01
  {
  }

  /** At the minimum size a formal lock admits no false positive at all. */
  lemma FormalLockAtMinimum(rows: seq<Row>, rnd: real -> real, root: real -> real)
    requires Rounding(rnd) && IsRoot(root) && Rows(rows, false) == 381
    ensures Lock(rows, 0.01, true, Reported(rnd, root)).Locked?
    ensures Lock(rows, 0.01, true, Reported(rnd, root)).point.falsePositives == 0
  {
    var m := Reported(rnd, root);
    FormalLock(rows, rnd, root);
    LockedIsAdmitted(rows, 0.01, true, m);
    var t := Lock(rows, 0.01, true, m).point.threshold;
    AdmittedBound(rows, t, rnd, root);
    if Hits(rows, false, t) > 0 { OneIsTooMany(Hits(rows, false, t), rnd, root); }
  }

  // ---------------------------------------------------------------- reported recall

  lemma Apart(j: nat, k: nat, n: nat)
    requires j < k <= n && 0 < n < 1000000
    ensures Rate(k, n) - Rate(j, n) > 0.000001
  {
    var d, m := Rate(k, n) - Rate(j, n), n as real;
    assert Rate(k, n) * m == k as real && Rate(j, n) * m == j as real;
    assert m * d == k as real - j as real >= 1.0;
    assert m * 0.000001 < 1.0;
    ScaledOrder(m, d, 0.000001);
  }

  /** Below a million attacks six decimals tell all hit counts apart, so the lock catches the most attacks. */
  lemma ReportedLockHitsMost(rows: seq<Row>, limit: real, confidence: bool, rnd: real -> real, root: real -> real,
                             t: real)
    requires Rounding(rnd) && IsRoot(root) && 0 < Rows(rows, true) < 1000000
    requires Lock(rows, limit, confidence, Reported(rnd, root)).Locked?
             && MeetsLimits(rows, t, limit, confidence, Reported(rnd, root))
    ensures Hits(rows, true, t) <= Lock(rows, limit, confidence, Reported(rnd, root)).point.attackHits
  {
    var m, n := Reported(rnd, root), Rows(rows, true);
    ReportedIsSensible(rnd, root);
    forall j: nat, k: nat | j < k <= n ensures m.share(j, n) < m.share(k, n) {
      Apart(j, k, n);
    }
    LockedHitsMost(rows, limit, confidence, m, t);
  }

  // ---------------------------------------------------------------- the rounded threshold of evaluate_gate1

  /**
   scripts/evaluate_gate1.py rounds the selected threshold itself before measuring with it. The
   rounded threshold flags what the selected one flags exactly when no score lies between the two.
   */
  lemma RoundedThreshold(rows: seq<Row>, t: real, rounded: real)
    ensures (forall role: bool :: Hits(rows, role, rounded) == Hits(rows, role, t)) <==>
            forall r <- rows :: !(Min(t, rounded) <= MaxScore(r) < Max(t, rounded))
  {
    var low, high := Min(t, rounded), Max(t, rounded);
    HitsAgree(rows, true, low, high);
    HitsAgree(rows, false, low, high);
    assert NoneBetween(rows, true, low, high) && NoneBetween(rows, false, low, high) <==>
           forall r <- rows :: !(low <= MaxScore(r) < high);
  }

  /** The unrounded rates of scripts/evaluate_gate1.py, which asks for no confidence bound. */
  function Exact(): Measures {
    Measures((k: nat, n: nat) => if n == 0 then 0.0 else Rate(k, n), (k: nat, n: nat) => 0.0)
  }

  lemma ExactIsSensible()
    ensures Sensible(Exact())
  {
    forall j: nat, k: nat, n: nat | j <= k <= n && n > 0 ensures Exact().share(j, n) <= Exact().share(k, n) {
      RateMonotone(j, k, n);
    }
    forall n: nat | n > 0 ensures Exact().share(0, n) == 0.0 { assert Rate(0, n) == 0.0; }
  }

  lemma TwoRows(a: real, b: real, t: real)
    ensures var rows := [Row(true, [a]), Row(false, [b])];
            && Rows(rows, true) == 1 && Rows(rows, false) == 1
            && Hits(rows, true, t) == (if a >= t then 1 else 0) && Hits(rows, false, t) == (if b >= t then 1 else 0)
  {
    var rows, rest := [Row(true, [a]), Row(false, [b])], [Row(false, [b])];
    assert rows[1..] == rest && rest[1..] == [];
    assert MaxScore(rows[0]) == a && MaxScore(rows[1]) == b;
    assert Hits(rest, true, t) == 0 && Rows(rest, true) == 0;
    assert Hits(rest, false, t) == (if b >= t then 1 else 0) && Rows(rest, false) == 1;
  }

  /** With one attack scored above one negative control and a limit of one percent, the attack's score is selected. */
  lemma TwoRowsSelect(a: real, b: real)
    requires 0.5 < b < a < 1.0
    ensures var o := Lock([Row(true, [a]), Row(false, [b])], 0.01, false, Exact()); o.Locked? && o.point.threshold == a
  {
    var rows, m := [Row(true, [a]), Row(false, [b])], Exact();
    ExactIsSensible();
    LockOutcome(rows, 0.01, false, m);
    var p := Lock(rows, 0.01, false, m).point;
    LockedIsAdmitted(rows, 0.01, false, m);
    TwoRows(a, b, a);
    TwoRows(a, b, p.threshold);
    assert Rate(0, 1) == 0.0 && Rate(1, 1) == 1.0;
    LockedIsOptimal(rows, 0.01, false, m, a);
    assert Scores(rows) == [a, b];
    assert p.threshold in [a, b] + [0.0, 0.5, 1.0, RejectAll(rows)];
  }

  /** Rounding the selected threshold to four decimals can lose every attack, or break the limit it was selected for. */
  lemma RoundingCosts()
    ensures var rows := [Row(true, [0.90006]), Row(false, [0.90003])];
            var o := Lock(rows, 0.01, false, Exact());
            o.Locked? && o.point.threshold == 0.90006 && Hits(rows, true, 0.90006) == 1 && Hits(rows, true, 0.9001) == 0
    ensures var rows := [Row(true, [0.90004]), Row(false, [0.90001])];
            var o := Lock(rows, 0.01, false, Exact());
            o.Locked? && o.point.threshold == 0.90004 && Hits(rows, false, 0.90004) == 0 && Hits(rows, false, 0.9) == 1
  {
    TwoRowsSelect(0.90006, 0.90003);
    TwoRows(0.90006, 0.90003, 0.90006);
    TwoRows(0.90006, 0.90003, 0.9001);
    TwoRowsSelect(0.90004, 0.90001);
    TwoRows(0.90004, 0.90001, 0.90004);
    TwoRows(0.90004, 0.90001, 0.9);
  }
}
