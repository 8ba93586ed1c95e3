/**
 The diagnostic split by payload hash (scripts/evaluate_gate1.py): rows whose fingerprint falls
 below a cutoff calibrate, the rows that are not among them are held out. `bucket` stands for
 reading the fingerprint's first eight hexadecimal digits as a number.
 */
module BucketSplit {

  datatype Row = Row(fingerprint: string, rest: string)

  function Calibration(rows: seq<Row>, bucket: string -> nat, cutoff: nat): seq<Row> {
    if rows == [] then []
    else (if bucket(rows[0].fingerprint) < cutoff then [rows[0]] else []) + Calibration(rows[1..], bucket, cutoff)
  }

  /** `[row for row in rows if row not in calibration]`. */
  function HeldOut(rows: seq<Row>, calibration: seq<Row>): seq<Row> {
    if rows == [] then [] else (if rows[0] in calibration then [] else [rows[0]]) + HeldOut(rows[1..], calibration)
  }

  lemma {:induction false} CalibrationMembers(rows: seq<Row>, bucket: string -> nat, cutoff: nat)
    ensures forall r :: r in Calibration(rows, bucket, cutoff) <==> r in rows && bucket(r.fingerprint) < cutoff
  {
    if rows != [] {
      CalibrationMembers(rows[1..], bucket, cutoff);
      assert rows == [rows[0]] + rows[1..];
    }
  }

  lemma {:induction false} HeldOutMembers(rows: seq<Row>, calibration: seq<Row>)
    ensures forall r :: r in HeldOut(rows, calibration) <==> r in rows && r !in calibration
  {
    if rows != [] {
      HeldOutMembers(rows[1..], calibration);
      assert rows == [rows[0]] + rows[1..];
    }
  }

  lemma {:induction false} SizesAdd(rows: seq<Row>, calibration: seq<Row>, bucket: string -> nat, cutoff: nat)
    requires forall r <- rows :: r in calibration <==> bucket(r.fingerprint) < cutoff
    ensures |Calibration(rows, bucket, cutoff)| + |HeldOut(rows, calibration)| == |rows|
  {
    if rows != [] {
      assert rows[0] in rows && forall r <- rows[1..] :: r in rows;
      SizesAdd(rows[1..], calibration, bucket, cutoff);
    }
  }

  /** Every row goes to exactly one side, and no fingerprint to both: rows of one fingerprint stay together. */
  lemma PartitionWithoutOverlap(rows: seq<Row>, bucket: string -> nat, cutoff: nat)
    ensures var c := Calibration(rows, bucket, cutoff);
            var h := HeldOut(rows, c);
            && |c| + |h| == |rows|
            && (forall r :: r in rows <==> r in c || r in h)
            && (forall r, s :: r in c && s in h ==> r.fingerprint != s.fingerprint)
  {
    var c := Calibration(rows, bucket, cutoff);
    CalibrationMembers(rows, bucket, cutoff);
    HeldOutMembers(rows, c);
    SizesAdd(rows, c, bucket, cutoff);
  }

  /** A larger cutoff only moves rows from the held-out side to the calibration side. */
  lemma CutoffMonotone(rows: seq<Row>, bucket: string -> nat, low: nat, high: nat, r: Row)
    requires low <= high
    ensures r in Calibration(rows, bucket, low) ==> r in Calibration(rows, bucket, high)
    ensures r in HeldOut(rows, Calibration(rows, bucket, high)) ==> r in HeldOut(rows, Calibration(rows, bucket, low))
  {
    CalibrationMembers(rows, bucket, low);
    CalibrationMembers(rows, bucket, high);
    HeldOutMembers(rows, Calibration(rows, bucket, low));
    HeldOutMembers(rows, Calibration(rows, bucket, high));
  }
}
