/**
 Choosing and freezing the detector threshold on the calibration split
 (bench/gate1_holdout.py), and the older variant in scripts/evaluate_gate1.py.
 The rates a point reports are parameters (`Measures`), so that the selection can be
 reasoned about apart from the arithmetic of the Wilson bound; `Reported` instantiates them.
 */
module ThresholdLock {

  import opened Wrappers
  import Wilson

  datatype Row = Row(attack: bool, scores: seq<real>)

  /** What a point reports of `k` hits among `n` rows: the rate and the upper Wilson bound. */
  datatype Measures = Measures(share: (nat, nat) -> real, upper: (nat, nat) -> real)

  datatype Point = Point(threshold: real, attackHits: nat, falsePositives: nat,
                         recall: real, fpr: real, upper: Option<real>)

  datatype Outcome = Locked(point: Point) | NoThreshold | LimitOutOfRange | BoundMissing

  // ---------------------------------------------------------------- scores and operating points

  function Largest(s: seq<real>): (m: real)
    requires s != []
    ensures m in s && forall x <- s :: x <= m
  {
    if |s| == 1 then s[0]
    else
      var rest := Largest(s[1..]);
      assert forall x <- s :: x == s[0] || x in s[1..];
      if s[0] >= rest then s[0] else rest
  }

  function MaxScore(row: Row): real {
    if row.scores == [] then 0.0 else Largest(row.scores)
  }

  /** Rows of one role, and those among them that a threshold flags. */
  function Rows(rows: seq<Row>, attack: bool): nat {
    if rows == [] then 0 else (if rows[0].attack == attack then 1 else 0) + Rows(rows[1..], attack)
  }

  function Hits(rows: seq<Row>, attack: bool, t: real): (h: nat)
    ensures h <= Rows(rows, attack)
  {
    if rows == [] then 0
    else (if rows[0].attack == attack && MaxScore(rows[0]) >= t then 1 else 0) + Hits(rows[1..], attack, t)
  }

  function OperatingPoint(rows: seq<Row>, t: real, m: Measures): Point {
    var attacks, negatives := Rows(rows, true), Rows(rows, false);
    var hits, wrong := Hits(rows, true, t), Hits(rows, false, t);
    Point(t, hits, wrong,
          if attacks == 0 then 0.0 else m.share(hits, attacks),
          if negatives == 0 then 0.0 else m.share(wrong, negatives),
          if negatives == 0 then None else Some(m.upper(wrong, negatives)))
  }

  function Scores(rows: seq<Row>): seq<real> {
    seq(|rows|, i requires 0 <= i < |rows| => MaxScore(rows[i]))
  }

  /** A threshold no row reaches. */
  function RejectAll(rows: seq<Row>): real {
    if rows == [] then 1.0 else Largest(Scores(rows)) + 1.0
  }

  function Candidates(rows: seq<Row>): seq<real> {
    Scores(rows) + [0.0, 0.5, 1.0, RejectAll(rows)]
  }

  // ---------------------------------------------------------------- selection

  /** Whether a point meets the limits; comparing a missing bound is an error. */
  function Admits(p: Point, limit: real, confidence: bool): Result<bool, ()> {
    if p.fpr > limit then Ok(false)
    else if !confidence then Ok(true)
    else match p.upper
      case None => Err(())
      case Some(u) => Ok(u <= limit)
  }

  function Valid(rows: seq<Row>, thresholds: seq<real>, limit: real, confidence: bool,
                 m: Measures): Result<seq<Point>, ()>
  {
    if thresholds == [] then Ok([])
    else
      var p := OperatingPoint(rows, thresholds[0], m);
      match Admits(p, limit, confidence)
      case Err(e) => Err(e)
      case Ok(yes) =>
        match Valid(rows, thresholds[1..], limit, confidence, m)
        case Err(e) => Err(e)
        case Ok(rest) => Ok(if yes then [p] + rest else rest)
  }

  predicate Ahead(p: Point, q: Point) {
    p.recall > q.recall || (p.recall == q.recall && p.threshold >= q.threshold)
  }

  /**
   The point with the greatest (recall, threshold). A point is determined by its threshold, so the
   order in which candidates are tried, and repeats among them, do not matter.
   */
  function Preferred(points: seq<Point>): (best: Point)
    requires points != []
    ensures best in points && forall p <- points :: Ahead(best, p)
  {
    if |points| == 1 then points[0]
    else
      var rest := Preferred(points[1..]);
      assert forall p <- points :: p == points[0] || p in points[1..];
      if Ahead(points[0], rest) then points[0] else rest
  }

  function Lock(rows: seq<Row>, limit: real, confidence: bool, m: Measures): Outcome {
    if !(0.0 <= limit <= 1.0) then LimitOutOfRange
    else
      match Valid(rows, Candidates(rows), limit, confidence, m)
      case Err(_) => BoundMissing
      case Ok(points) => if points == [] then NoThreshold else Locked(Preferred(points))
  }

  // ---------------------------------------------------------------- thresholds and hit sets

  lemma {:induction false} HitsAntitone(rows: seq<Row>, attack: bool, low: real, high: real)
    requires low <= high
    ensures Hits(rows, attack, high) <= Hits(rows, attack, low)
  {
    if rows != [] { HitsAntitone(rows[1..], attack, low, high); }
  }

  /** No row of the role scores in [low, high). */
  ghost predicate NoneBetween(rows: seq<Row>, attack: bool, low: real, high: real) {
    forall r <- rows :: r.attack == attack ==> !(low <= MaxScore(r) < high)
  }

  /** Two thresholds flag equally many rows of a role exactly when no such row lies between them. */
  lemma {:induction false} HitsAgree(rows: seq<Row>, attack: bool, low: real, high: real)
    requires low <= high
    ensures Hits(rows, attack, low) == Hits(rows, attack, high) <==> NoneBetween(rows, attack, low, high)
  {
    if rows != [] {
      HitsAgree(rows[1..], attack, low, high);
      HitsAntitone(rows[1..], attack, low, high);
      assert rows == [rows[0]] + rows[1..];
      assert NoneBetween(rows, attack, low, high) <==>
             (rows[0].attack == attack ==> !(low <= MaxScore(rows[0]) < high))
                 && NoneBetween(rows[1..], attack, low, high);
    }
  }

  /** The least value of `s` that is at least `t`. */
  function LeastFrom(s: seq<real>, t: real): (r: Option<real>)
    ensures r.None? ==> forall x <- s :: x < t
    ensures r.Some? ==> r.value in s && t <= r.value && forall x <- s :: x >= t ==> x >= r.value
  {
    if s == [] then None
    else
      var rest := LeastFrom(s[1..], t);
      assert forall x <- s :: x == s[0] || x in s[1..];
      if s[0] < t || (rest.Some? && rest.value <= s[0]) then rest else Some(s[0])
  }

  /** The candidate standing for an arbitrary threshold. */
  function Representative(rows: seq<Row>, t: real): real {
    match LeastFrom(Scores(rows), t)
    case Some(s) => s
    case None => RejectAll(rows)
  }

  lemma ScoreOfRow(rows: seq<Row>, r: Row)
    requires r in rows
    ensures MaxScore(r) in Scores(rows)
  {
    var i :| 0 <= i < |rows| && rows[i] == r;
    assert Scores(rows)[i] == MaxScore(r);
  }

  lemma BelowRejectAll(rows: seq<Row>, r: Row)
    requires r in rows
    ensures MaxScore(r) < RejectAll(rows)
  {
    ScoreOfRow(rows, r);
  }

  /** Every real threshold flags exactly the rows its representative flags. */
  lemma SameFlags(rows: seq<Row>, t: real, r: Row)
    requires r in rows
    ensures MaxScore(r) >= t <==> MaxScore(r) >= Representative(rows, t)
  {
    ScoreOfRow(rows, r);
    BelowRejectAll(rows, r);
  }

  lemma {:induction false} FlagsFixHits(rows: seq<Row>, attack: bool, t: real, u: real)
    requires forall r <- rows :: MaxScore(r) >= t <==> MaxScore(r) >= u
    ensures Hits(rows, attack, t) == Hits(rows, attack, u)
  {
    if rows != [] {
      assert rows[0] in rows;
      assert forall r <- rows[1..] :: r in rows;
      FlagsFixHits(rows[1..], attack, t, u);
    }
  }

  /** Every real threshold has the hit counts of a candidate, which lies above it unless nothing is flagged. */
  lemma EveryThresholdHasACandidate(rows: seq<Row>, t: real)
    ensures Representative(rows, t) in Candidates(rows)
    ensures forall r <- rows :: MaxScore(r) >= t <==> MaxScore(r) >= Representative(rows, t)
    ensures forall role: bool :: Hits(rows, role, t) == Hits(rows, role, Representative(rows, t))
    ensures t <= Representative(rows, t) || (t > RejectAll(rows) == Representative(rows, t))
  {
    var c := Representative(rows, t);
    forall r <- rows ensures MaxScore(r) >= t <==> MaxScore(r) >= c { SameFlags(rows, t, r); }
    forall role: bool ensures Hits(rows, role, t) == Hits(rows, role, c) { FlagsFixHits(rows, role, t, c); }
    match LeastFrom(Scores(rows), t)
    case Some(s) => assert s in Scores(rows);
    case None => assert Candidates(rows)[|rows| + 3] == c;
  }

  /** The candidates: every row's score, 0, 1/2, 1, and one more than the highest score, or 1 without rows. */
  lemma CandidatesExactly(rows: seq<Row>, t: real)
    ensures t in Candidates(rows) <==>
              || t == 0.0 || t == 0.5 || t == 1.0 || t == RejectAll(rows)
              || exists i :: 0 <= i < |rows| && MaxScore(rows[i]) == t
    ensures rows == [] ==> RejectAll(rows) == 1.0
    ensures rows != [] ==> exists i :: 0 <= i < |rows| && RejectAll(rows) == MaxScore(rows[i]) + 1.0
    ensures forall i :: 0 <= i < |rows| ==> MaxScore(rows[i]) + 1.0 <= RejectAll(rows)
  {
    var scores := Scores(rows);
    forall i | 0 <= i < |rows| ensures MaxScore(rows[i]) in scores { assert scores[i] == MaxScore(rows[i]); }
    assert t in scores <==> exists i :: 0 <= i < |rows| && MaxScore(rows[i]) == t;
  }

  lemma {:induction false} RejectAllFlagsNothing(rows: seq<Row>, attack: bool, t: real)
    requires forall r <- rows :: MaxScore(r) < t
    ensures Hits(rows, attack, t) == 0
  {
    if rows != [] {
      assert rows[0] in rows;
      assert forall r <- rows[1..] :: r in rows;
      RejectAllFlagsNothing(rows[1..], attack, t);
    }
  }

  // ---------------------------------------------------------------- admitted thresholds

  /** The measures grow with the number of hits, and no hit means rate zero. */
  ghost predicate Sensible(m: Measures) {
    && (forall j: nat, k: nat, n: nat :: j <= k <= n && n > 0 ==> m.share(j, n) <= m.share(k, n))
    && (forall j: nat, k: nat, n: nat :: j <= k <= n && n > 0 ==> m.upper(j, n) <= m.upper(k, n))
    && (forall n: nat :: n > 0 ==> m.share(0, n) == 0.0)
  }

  predicate Admitted(rows: seq<Row>, t: real, limit: real, confidence: bool, m: Measures) {
    Admits(OperatingPoint(rows, t, m), limit, confidence) == Ok(true)
  }

  /**
   The limits in numbers: the share of flagged negative controls, 0 without any, is at most the limit, and
   with confidence there is a negative control and the upper bound is at most the limit, too.
   */
  ghost predicate MeetsLimits(rows: seq<Row>, t: real, limit: real, confidence: bool, m: Measures) {
    var wrong, n := Hits(rows, false, t), Rows(rows, false);
    && (if n == 0 then 0.0 else m.share(wrong, n)) <= limit
    && (confidence ==> n > 0 && m.upper(wrong, n) <= limit)
  }

  lemma AdmittedExactly(rows: seq<Row>, t: real, limit: real, confidence: bool, m: Measures)
    ensures Admitted(rows, t, limit, confidence, m) <==> MeetsLimits(rows, t, limit, confidence, m)
  {
  }

  /** A row is flagged by a score at or above the threshold; without scores it counts as scored 0. */
  lemma FlaggedByScore(row: Row, t: real)
    ensures MaxScore(row) >= t <==> (exists x <- row.scores :: x >= t) || (row.scores == [] && t <= 0.0)
  {
  }

  /** Raising an admitted threshold keeps it admitted. */
  lemma AdmittedUpwards(rows: seq<Row>, low: real, high: real, limit: real, confidence: bool, m: Measures)
    requires Sensible(m) && low <= high && Admitted(rows, low, limit, confidence, m)
    ensures Admitted(rows, high, limit, confidence, m)
  {
    HitsAntitone(rows, false, low, high);
  }

  lemma {:induction false} ValidPoints(rows: seq<Row>, ts: seq<real>, limit: real, confidence: bool, m: Measures)
    requires Valid(rows, ts, limit, confidence, m).Ok?
    ensures forall t <- ts :: Admitted(rows, t, limit, confidence, m) ==>
            OperatingPoint(rows, t, m) in Valid(rows, ts, limit, confidence, m).value
    ensures forall p <- Valid(rows, ts, limit, confidence, m).value ::
              p.threshold in ts && p == OperatingPoint(rows, p.threshold, m)
                  && Admitted(rows, p.threshold, limit, confidence, m)
  {
    if ts != [] {
      assert forall t <- ts :: t == ts[0] || t in ts[1..];
      ValidPoints(rows, ts[1..], limit, confidence, m);
    }
  }

  /** The locked point is a candidate's and meets the limits. */
  lemma LockedIsAdmitted(rows: seq<Row>, limit: real, confidence: bool, m: Measures)
    requires Lock(rows, limit, confidence, m).Locked?
    ensures var p := Lock(rows, limit, confidence, m).point;
            p.threshold in Candidates(rows) && p == OperatingPoint(rows, p.threshold, m)
            && Admitted(rows, p.threshold, limit, confidence, m)
  {
    ValidPoints(rows, Candidates(rows), limit, confidence, m);
  }

  /** What the locked point reports: its hits, their shares, and in both modes an FPR within the limit. */
  lemma LockedWithinLimits(rows: seq<Row>, limit: real, confidence: bool, m: Measures)
    requires Lock(rows, limit, confidence, m).Locked?
    ensures var p := Lock(rows, limit, confidence, m).point;
            var attacks, n := Rows(rows, true), Rows(rows, false);
            && 0.0 <= limit <= 1.0
            && p.attackHits == Hits(rows, true, p.threshold) && p.falsePositives == Hits(rows, false, p.threshold)
            && p.recall == (if attacks == 0 then 0.0 else m.share(p.attackHits, attacks))
            && p.fpr == (if n == 0 then 0.0 else m.share(p.falsePositives, n))
            && p.fpr <= limit
            && (confidence ==> n > 0 && p.upper == Some(m.upper(p.falsePositives, n)) && p.upper.value <= limit)
            && MeetsLimits(rows, p.threshold, limit, confidence, m)
  {
    LockedIsAdmitted(rows, limit, confidence, m);
    AdmittedExactly(rows, Lock(rows, limit, confidence, m).point.threshold, limit, confidence, m);
  }

  lemma SamePoint(rows: seq<Row>, t: real, m: Measures)
    ensures OperatingPoint(rows, Representative(rows, t), m)
            == OperatingPoint(rows, t, m).(threshold := Representative(rows, t))
  {
    EveryThresholdHasACandidate(rows, t);
  }

  /**
   Over every real threshold that meets the limits, not only the candidates, the locked one has
   the highest recall, and among those of equal recall the fewest false positives; it is the
   largest candidate of them, and the largest real one up to the threshold that flags nothing.
   */
  lemma LockedIsOptimal(rows: seq<Row>, limit: real, confidence: bool, m: Measures, t: real)
    requires Sensible(m) && Lock(rows, limit, confidence, m).Locked? && MeetsLimits(rows, t, limit, confidence, m)
    ensures var p, attacks := Lock(rows, limit, confidence, m).point, Rows(rows, true);
            var recall := if attacks == 0 then 0.0 else m.share(Hits(rows, true, t), attacks);
            && recall <= p.recall
            && (recall == p.recall ==> p.falsePositives <= Hits(rows, false, t))
            && (recall == p.recall ==> t <= p.threshold || t > RejectAll(rows))
            && (recall == p.recall && t in Candidates(rows) ==> t <= p.threshold)
  {
    AdmittedExactly(rows, t, limit, confidence, m);
    var p, q := Lock(rows, limit, confidence, m).point, OperatingPoint(rows, t, m);
    var c := Representative(rows, t);
    EveryThresholdHasACandidate(rows, t);
    SamePoint(rows, t, m);
    LockedIsAdmitted(rows, limit, confidence, m);
    ValidPoints(rows, Candidates(rows), limit, confidence, m);
    assert Ahead(p, OperatingPoint(rows, c, m));
    if t in Candidates(rows) { assert Ahead(p, q); }
    if q.recall == p.recall { HitsAntitone(rows, false, c, p.threshold); }
  }

  /** When distinct hit counts report distinct recalls, the optimum is in hits, not only in reported recall. */
  lemma LockedHitsMost(rows: seq<Row>, limit: real, confidence: bool, m: Measures, t: real)
    requires Sensible(m) && Lock(rows, limit, confidence, m).Locked? && MeetsLimits(rows, t, limit, confidence, m)
    requires forall j: nat, k: nat :: j < k <= Rows(rows, true) ==>
             m.share(j, Rows(rows, true)) < m.share(k, Rows(rows, true))
    ensures Hits(rows, true, t) <= Lock(rows, limit, confidence, m).point.attackHits
  {
    LockedIsOptimal(rows, limit, confidence, m, t);
    LockedIsAdmitted(rows, limit, confidence, m);
  }

  // ---------------------------------------------------------------- when there is no lock

  lemma RejectAllPoint(rows: seq<Row>, t: real, m: Measures)
    requires Sensible(m) && t >= RejectAll(rows)
    ensures OperatingPoint(rows, t, m).falsePositives == 0 && OperatingPoint(rows, t, m).fpr == 0.0
  {
    forall r <- rows ensures MaxScore(r) < t { BelowRejectAll(rows, r); }
    RejectAllFlagsNothing(rows, false, t);
  }

  lemma {:induction false} ValidFails(rows: seq<Row>, ts: seq<real>, limit: real, confidence: bool, m: Measures)
    ensures Valid(rows, ts, limit, confidence, m).Err? <==>
            exists t <- ts :: Admits(OperatingPoint(rows, t, m), limit, confidence).Err?
  {
    if ts != [] {
      assert forall t <- ts :: t == ts[0] || t in ts[1..];
      ValidFails(rows, ts[1..], limit, confidence, m);
    }
  }

  lemma RejectAllListed(rows: seq<Row>)
    ensures RejectAll(rows) in Candidates(rows)
  {
    assert Candidates(rows)[|rows| + 3] == RejectAll(rows);
  }

  /**
   When locking succeeds. It fails for want of a threshold exactly when even a threshold that
   flags nothing breaks the confidence limit, and with an error when the limit is not a
   rate or confidence is asked of no negative control at all.
   */
  lemma LockOutcome(rows: seq<Row>, limit: real, confidence: bool, m: Measures)
    requires Sensible(m)
    ensures var n, o := Rows(rows, false), Lock(rows, limit, confidence, m);
            && (o == LimitOutOfRange <==> !(0.0 <= limit <= 1.0))
            && (o == BoundMissing <==> 0.0 <= limit <= 1.0 && confidence && n == 0)
            && (o == NoThreshold <==> 0.0 <= limit <= 1.0 && confidence && n > 0 && m.upper(0, n) > limit)
  {
    var top := RejectAll(rows);
    RejectAllListed(rows);
    RejectAllPoint(rows, top, m);
    ValidFails(rows, Candidates(rows), limit, confidence, m);
    if Valid(rows, Candidates(rows), limit, confidence, m).Ok? {
      ValidPoints(rows, Candidates(rows), limit, confidence, m);
      NothingAdmitted(rows, limit, confidence, m);
    }
  }

  /** Some real threshold is admitted exactly when the one flagging nothing is. */
  lemma NothingAdmitted(rows: seq<Row>, limit: real, confidence: bool, m: Measures)
    requires Sensible(m)
    ensures (exists t <- Candidates(rows) :: Admitted(rows, t, limit, confidence, m))
            <==> Admitted(rows, RejectAll(rows), limit, confidence, m)
  {
    RejectAllListed(rows);
    forall t | t in Candidates(rows) && Admitted(rows, t, limit, confidence, m)
      ensures Admitted(rows, RejectAll(rows), limit, confidence, m)
    {
      RejectAllPoint(rows, RejectAll(rows), m);
    }
  }
}
