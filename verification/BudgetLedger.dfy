/**
 The prepaid budget ledger (bench/external/budget.py): calls reserve money before they are
 made and settle afterwards, each operation atomic under the ledger's file lock.
 */
module BudgetLedger {
  import opened Wrappers

  const EPS: real := 0.000000000001

  datatype Status = Reserved | Settled | CostUnknown
  datatype Entry = Entry(id: string, jobId: string, bucket: string, reserved: real, charged: real, status: Status)

  datatype LedgerError =
    | NonPositiveReservation
    | LedgerHalted
    | UnknownBucket
    | TotalWouldBeExceeded
    | BucketWouldBeExceeded
    | UnknownReservation
    | AlreadySettled
    | NegativeCost

  datatype State = State(totalCap: real, caps: map<string, real>, halted: bool, entries: seq<Entry>)

  datatype Op =
    | Reserve(id: string, jobId: string, bucket: string, amount: real)
    | Settle(id: string, actual: Option<real>)

  /** What an entry counts for: its reservation until it is settled. */
  function Charged(e: Entry): real {
    if e.status.Reserved? then e.reserved else e.charged
  }

  function Total(entries: seq<Entry>): real {
    if entries == [] then 0.0 else Total(entries[..|entries| - 1]) + Charged(entries[|entries| - 1])
  }

  /** The part of the total that falls into the given buckets. */
  function TotalIn(entries: seq<Entry>, buckets: set<string>): real {
    if entries == [] then 0.0 else
      TotalIn(entries[..|entries| - 1], buckets) +
      (if entries[|entries| - 1].bucket in buckets then Charged(entries[|entries| - 1]) else 0.0)
  }

  function BucketTotal(entries: seq<Entry>, bucket: string): real {
    TotalIn(entries, {bucket})
  }

  /** What providers charged beyond the reservations made for them. */
  function Overrun(entries: seq<Entry>): real {
    if entries == [] then 0.0 else Overrun(entries[..|entries| - 1]) + EntryOverrun(entries[|entries| - 1])
  }

  function EntryOverrun(e: Entry): real {
    if e.status.Settled? && e.charged > e.reserved then e.charged - e.reserved else 0.0
  }

  lemma {:induction false} TotalInUnion(entries: seq<Entry>, done: set<string>, bucket: string)
    requires bucket !in done
    ensures TotalIn(entries, done + {bucket}) == TotalIn(entries, done) + BucketTotal(entries, bucket)
  {
    if entries != [] { TotalInUnion(entries[..|entries| - 1], done, bucket); }
  }

  lemma {:induction false} TotalInAll(entries: seq<Entry>, buckets: set<string>)
    requires forall i :: 0 <= i < |entries| ==> entries[i].bucket in buckets
    ensures TotalIn(entries, buckets) == Total(entries)
  {
    if entries != [] { TotalInAll(entries[..|entries| - 1], buckets); }
  }

  lemma {:induction false} ReplaceOne(entries: seq<Entry>, i: nat, e: Entry, buckets: set<string>)
    requires i < |entries| && e.bucket == entries[i].bucket
    ensures Total(entries[i := e]) == Total(entries) - Charged(entries[i]) + Charged(e)
    ensures Overrun(entries[i := e]) == Overrun(entries) - EntryOverrun(entries[i]) + EntryOverrun(e)
    ensures TotalIn(entries[i := e], buckets)
         == TotalIn(entries, buckets) + if e.bucket in buckets then Charged(e) - Charged(entries[i]) else 0.0
  {
    var n := |entries| - 1;
    if i < n {
      assert entries[i := e][..n] == entries[..n][i := e];
      ReplaceOne(entries[..n], i, e, buckets);
    } else {
      assert entries[i := e][..n] == entries[..n];
    }
  }

  ghost predicate OnlyMatch(entries: seq<Entry>, id: string, i: nat) {
    && i < |entries|
    && entries[i].id == id
    && forall j :: 0 <= j < |entries| && j != i ==> entries[j].id != id
  }

  predicate Exceeds(s: State, bucket: string)
    requires bucket in s.caps
  {
    Total(s.entries) > s.totalCap + EPS || BucketTotal(s.entries, bucket) > s.caps[bucket] + EPS
  }

  function TryReserve(s: State, id: string, jobId: string, bucket: string, amount: real): Result<State, LedgerError> {
    if amount <= 0.0 then Err(NonPositiveReservation)
    else if s.halted then Err(LedgerHalted)
    else if bucket !in s.caps then Err(UnknownBucket)
    else if Total(s.entries) + amount > s.totalCap + EPS then Err(TotalWouldBeExceeded)
    else if BucketTotal(s.entries, bucket) + amount > s.caps[bucket] + EPS then Err(BucketWouldBeExceeded)
    else Ok(s.(entries := s.entries + [Entry(id, jobId, bucket, amount, 0.0, Reserved)]))
  }

  function Closed(e: Entry, actual: Option<real>): Entry {
    if actual.None? then e.(charged := e.reserved, status := CostUnknown)
    else e.(charged := actual.value, status := Settled)
  }

  ghost function TrySettle(s: State, id: string, actual: Option<real>): Result<State, LedgerError>
    requires forall i :: 0 <= i < |s.entries| ==> s.entries[i].bucket in s.caps
  {
    if !exists i: nat :: OnlyMatch(s.entries, id, i) then Err(UnknownReservation) else
      var i: nat :| OnlyMatch(s.entries, id, i);
      var e := s.entries[i];
      if !e.status.Reserved? then Err(AlreadySettled)
      else if actual.Some? && actual.value < 0.0 then Err(NegativeCost)
      else
        var closed := s.(entries := s.entries[i := Closed(e, actual)]);
        Ok(closed.(halted := s.halted || actual.None? || Exceeds(closed, e.bucket)))
  }

  /** `_can_reserve`, the driver's look-ahead before it launches a job. */
  function CanReserve(s: State, bucket: string, amount: real): Result<bool, LedgerError> {
    if s.halted then Ok(false)
    else if Total(s.entries) + amount > s.totalCap + EPS then Ok(false)
    else if bucket !in s.caps then Err(UnknownBucket)
    else Ok(!(BucketTotal(s.entries, bucket) + amount > s.caps[bucket] + EPS))
  }

  /**
   A reservation goes through precisely when it is positive and the look-ahead says yes. An amount that
   is not positive, which the look-ahead does not refuse, is the only way they differ; for an unknown
   bucket the look-ahead fails where it does not say no.
   */
  lemma LookAheadIsExact(s: State, id: string, jobId: string, bucket: string, amount: real)
    ensures TryReserve(s, id, jobId, bucket, amount).Ok? <==> amount > 0.0 && CanReserve(s, bucket, amount) == Ok(true)
    ensures CanReserve(s, bucket, amount).Err? ==> bucket !in s.caps
    ensures bucket !in s.caps ==> CanReserve(s, bucket, amount) != Ok(true)
  {
  }

  // ---------------------------------------------------------------- whole runs

  ghost predicate WellFormed(s: State) {
    forall i :: 0 <= i < |s.entries| ==> s.entries[i].bucket in s.caps
  }

  /** What every reachable ledger satisfies. */
  ghost predicate Sound(s: State) {
    && WellFormed(s)
    && Total(s.entries) <= s.totalCap + EPS + Overrun(s.entries)
    && (forall b :: b in s.caps ==> BucketTotal(s.entries, b) <= s.caps[b] + EPS + Overrun(s.entries))
    && (!s.halted ==>
          && Total(s.entries) <= s.totalCap + EPS
          && forall b :: b in s.caps ==> BucketTotal(s.entries, b) <= s.caps[b] + EPS)
    && Overrun(s.entries) >= 0.0
    && (s.halted ==> Overrun(s.entries) > 0.0 || exists i :: 0 <= i < |s.entries| && s.entries[i].status.CostUnknown?)
  }

  ghost function Step(s: State, op: Op): State
    requires WellFormed(s)
  {
    match op
    case Reserve(id, jobId, bucket, amount) =>
      var r := TryReserve(s, id, jobId, bucket, amount); if r.Ok? then r.value else s
    case Settle(id, actual) =>
      var r := TrySettle(s, id, actual); if r.Ok? then r.value else s
  }

  /** A run is of calls: an accepted one takes the ledger where the operation does, a refused one leaves it. */
  lemma StepIsCall(s: State, id: string, jobId: string, bucket: string, amount: real, actual: Option<real>)
    requires WellFormed(s)
    ensures TryReserve(s, id, jobId, bucket, amount).Ok? ==>
              Step(s, Reserve(id, jobId, bucket, amount)) == TryReserve(s, id, jobId, bucket, amount).value
    ensures TryReserve(s, id, jobId, bucket, amount).Err? ==> Step(s, Reserve(id, jobId, bucket, amount)) == s
    ensures TrySettle(s, id, actual).Ok? ==> Step(s, Settle(id, actual)) == TrySettle(s, id, actual).value
    ensures TrySettle(s, id, actual).Err? ==> Step(s, Settle(id, actual)) == s
  {
  }

  lemma ReserveSound(s: State, id: string, jobId: string, bucket: string, amount: real)
    requires Sound(s) && TryReserve(s, id, jobId, bucket, amount).Ok?
    ensures Sound(TryReserve(s, id, jobId, bucket, amount).value)
  {
    var t := TryReserve(s, id, jobId, bucket, amount).value;
    assert t.entries[..|t.entries| - 1] == s.entries;
    assert BucketTotal(t.entries, bucket) == BucketTotal(s.entries, bucket) + amount;
    assert forall b :: b in s.caps && b != bucket ==> BucketTotal(t.entries, b) == BucketTotal(s.entries, b);
    assert t.caps == s.caps && t.totalCap == s.totalCap && !t.halted;
  }

  /** Closing an entry moves every total by what it is charged beyond its reservation, at most its overrun. */
  lemma CloseTotals(entries: seq<Entry>, i: nat, actual: Option<real>)
    requires i < |entries| && entries[i].status.Reserved?
    ensures var e, c := entries[i], Closed(entries[i], actual);
            var after := entries[i := c];
            && Total(after) == Total(entries) + (Charged(c) - Charged(e))
            && Overrun(after) == Overrun(entries) + EntryOverrun(c) && EntryOverrun(c) >= 0.0
            && Charged(c) - Charged(e) <= EntryOverrun(c)
            && (actual.None? ==> EntryOverrun(c) == 0.0 && Charged(c) == Charged(e))
            && forall b :: BucketTotal(after, b) == BucketTotal(entries, b)
                 + if e.bucket == b then Charged(c) - Charged(e) else 0.0
  {
    var c := Closed(entries[i], actual);
    ReplaceOne(entries, i, c, {});
    forall b { ReplaceOne(entries, i, c, {b}); }
  }

  /** Whoever halted an open ledger, an entry of unknown cost or an overrun says so. */
  lemma HaltExplained(s: State, t: State, i: nat, actual: Option<real>)
    requires i < |s.entries| && s.entries[i].status.Reserved?
    requires t.entries == s.entries[i := Closed(s.entries[i], actual)]
    requires exists j :: 0 <= j < |s.entries| && s.entries[j].status.CostUnknown?
    ensures exists j :: 0 <= j < |t.entries| && t.entries[j].status.CostUnknown?
  {
    var j :| 0 <= j < |s.entries| && s.entries[j].status.CostUnknown?;
    assert t.entries[j].status.CostUnknown?;
  }

  lemma SettleSound(s: State, id: string, actual: Option<real>)
    requires Sound(s) && TrySettle(s, id, actual).Ok?
    ensures Sound(TrySettle(s, id, actual).value)
  {
    var t := TrySettle(s, id, actual).value;
    var i: nat :| OnlyMatch(s.entries, id, i) && t.entries == s.entries[i := Closed(s.entries[i], actual)];
    CloseTotals(s.entries, i, actual);
    if actual.None? { assert t.entries[i].status.CostUnknown?; }
    if s.halted && Overrun(s.entries) == 0.0 { HaltExplained(s, t, i, actual); }
  }

  lemma StepSound(s: State, op: Op)
    requires Sound(s)
    ensures Sound(Step(s, op))
    ensures Step(s, op).caps == s.caps && Step(s, op).totalCap == s.totalCap
    ensures s.halted ==> Step(s, op).halted && |Step(s, op).entries| == |s.entries|
  {
    match op
    case Reserve(id, jobId, bucket, amount) =>
      if TryReserve(s, id, jobId, bucket, amount).Ok? { ReserveSound(s, id, jobId, bucket, amount); }
    case Settle(id, actual) =>
      if TrySettle(s, id, actual).Ok? { SettleSound(s, id, actual); }
  }

  ghost predicate Reaches(s: State, ops: seq<Op>, t: State)
    requires WellFormed(s)
    decreases |ops|
  {
    if ops == [] then s == t else
      WellFormed(Step(s, ops[0])) && Reaches(Step(s, ops[0]), ops[1..], t)
  }

  /**
   Whatever calls are interleaved, money committed never passes a cap by more than what
   providers charged above their own reservations; a ledger that is still open is within
   every cap; a halt is final, admits no further reservation, and only ever comes from a
   missing provider cost or an overcharge.
   */
  lemma {:induction false} BudgetSafety(s: State, ops: seq<Op>, t: State)
    requires Sound(s) && Reaches(s, ops, t)
    ensures Sound(t) && t.caps == s.caps && t.totalCap == s.totalCap
    ensures s.halted ==> t.halted && |t.entries| == |s.entries|
    decreases |ops|
  {
    if ops != [] {
      StepSound(s, ops[0]);
      BudgetSafety(Step(s, ops[0]), ops[1..], t);
    }
  }

  /** Where no provider charged above its reservation there is no overrun, and an overrun has such an entry. */
  lemma {:induction false} NoOverrun(entries: seq<Entry>)
    requires forall i :: 0 <= i < |entries| && entries[i].status.Settled? ==> entries[i].charged <= entries[i].reserved
    ensures Overrun(entries) == 0.0
  {
    if entries != [] { NoOverrun(entries[..|entries| - 1]); }
  }

  lemma OverrunHasEntry(entries: seq<Entry>)
    requires Overrun(entries) != 0.0
    ensures exists i :: 0 <= i < |entries| && entries[i].status.Settled? && entries[i].charged > entries[i].reserved
  {
    if forall i :: 0 <= i < |entries| && entries[i].status.Settled? ==> entries[i].charged <= entries[i].reserved {
      NoOverrun(entries);
    }
  }

  /**
   What a ledger opened with these caps has come to after any calls: while it is open, and as long as no
   provider charges above its reservation, the total and every bucket are within their caps; and it is only
   ever halted over a missing cost or a charge above a reservation.
   */
  lemma LedgerRun(totalCap: real, caps: map<string, real>, ops: seq<Op>, t: State)
    requires totalCap >= 0.0 && (forall b :: b in caps ==> caps[b] >= 0.0)
    requires Reaches(State(totalCap, caps, false, []), ops, t)
    ensures !t.halted || (forall i :: 0 <= i < |t.entries| && t.entries[i].status.Settled? ==>
                            t.entries[i].charged <= t.entries[i].reserved) ==>
              && Total(t.entries) <= totalCap + EPS
              && forall b :: b in caps ==> BucketTotal(t.entries, b) <= caps[b] + EPS
    ensures t.halted ==>
              || (exists i :: 0 <= i < |t.entries| && t.entries[i].status.CostUnknown?)
              || exists i :: 0 <= i < |t.entries| && t.entries[i].status.Settled?
                             && t.entries[i].charged > t.entries[i].reserved
  {
    BudgetSafety(State(totalCap, caps, false, []), ops, t);
    if forall i :: 0 <= i < |t.entries| && t.entries[i].status.Settled? ==>
         t.entries[i].charged <= t.entries[i].reserved { NoOverrun(t.entries); }
    if Overrun(t.entries) > 0.0 { OverrunHasEntry(t.entries); }
  }

  // ---------------------------------------------------------------- what one operation books

  /**
   A reservation is taken exactly when it is positive, the ledger is open and knows the bucket, and both
   caps hold with it; then one entry of that amount is added and nothing else changes.
   */
  lemma ReservedExactly(s: State, id: string, jobId: string, bucket: string, amount: real)
    ensures TryReserve(s, id, jobId, bucket, amount).Ok? <==>
              && amount > 0.0 && !s.halted && bucket in s.caps
              && Total(s.entries) + amount <= s.totalCap + EPS
              && BucketTotal(s.entries, bucket) + amount <= s.caps[bucket] + EPS
    ensures TryReserve(s, id, jobId, bucket, amount).Ok? ==>
              var t, n := TryReserve(s, id, jobId, bucket, amount).value, |s.entries|;
              && |t.entries| == n + 1 && t.entries[..n] == s.entries
              && t.entries[n].id == id && t.entries[n].jobId == jobId && t.entries[n].bucket == bucket
              && t.entries[n].reserved == amount && t.entries[n].status.Reserved?
              && t.halted == s.halted && t.caps == s.caps && t.totalCap == s.totalCap
              && Total(t.entries) == Total(s.entries) + amount
              && forall b ::
                   BucketTotal(t.entries, b) == BucketTotal(s.entries, b) + if b == bucket then amount else 0.0
  {
    var r := TryReserve(s, id, jobId, bucket, amount);
    if r.Ok? {
      var t, n := r.value, |s.entries|;
      assert t.entries[..n] == s.entries;
      forall b
        ensures BucketTotal(t.entries, b) == BucketTotal(s.entries, b) + if b == bucket then amount else 0.0
      {
        assert t.entries[n].bucket in {b} <==> b == bucket;
      }
    }
  }

  /** What closing one open entry does to the sums, whatever it is replaced by. */
  lemma ReplacedSums(entries: seq<Entry>, i: nat, e: Entry, b: string)
    requires i < |entries| && e.bucket == entries[i].bucket && entries[i].status.Reserved? && !e.status.Reserved?
    ensures Total(entries[i := e]) == Total(entries) - entries[i].reserved + e.charged
    ensures BucketTotal(entries[i := e], b) == BucketTotal(entries, b)
            + if b == entries[i].bucket then e.charged - entries[i].reserved else 0.0
  {
    ReplaceOne(entries, i, e, {b});
  }

  lemma OnlyOne(entries: seq<Entry>, id: string, i: nat, j: nat)
    requires OnlyMatch(entries, id, i) && OnlyMatch(entries, id, j)
    ensures i == j
  {
  }

  /**
   An accepted settlement books the actual cost in the place of the reservation: the total and the entry's
   bucket move by exactly the difference, everything else stays. A missing cost keeps the reservation as the
   charge. The ledger halts exactly on a missing cost or where a cap is now passed.
   */
  lemma SettledExactly(s: State, id: string, actual: Option<real>, i: nat)
    requires WellFormed(s) && OnlyMatch(s.entries, id, i) && TrySettle(s, id, actual).Ok?
    ensures var t, e := TrySettle(s, id, actual).value, s.entries[i];
            var cost := if actual.Some? then actual.value else e.reserved;
            && |t.entries| == |s.entries|
            && (forall j :: 0 <= j < |s.entries| && j != i ==> t.entries[j] == s.entries[j])
            && t.entries[i].id == id && t.entries[i].jobId == e.jobId && t.entries[i].bucket == e.bucket
            && t.entries[i].reserved == e.reserved && t.entries[i].charged == cost
            && (if actual.Some? then t.entries[i].status.Settled? else t.entries[i].status.CostUnknown?)
            && Total(t.entries) == Total(s.entries) - e.reserved + cost
            && (forall b :: BucketTotal(t.entries, b) == BucketTotal(s.entries, b)
                  + if b == e.bucket then cost - e.reserved else 0.0)
            && (t.halted <==>
                  || s.halted || actual.None? || Total(t.entries) > s.totalCap + EPS
                  || BucketTotal(t.entries, e.bucket) > s.caps[e.bucket] + EPS)
            && t.caps == s.caps && t.totalCap == s.totalCap
  {
    var t, e := TrySettle(s, id, actual).value, s.entries[i];
    var k: nat :| OnlyMatch(s.entries, id, k) && t.entries == s.entries[k := Closed(s.entries[k], actual)];
    OnlyOne(s.entries, id, i, k);
    forall b { ReplacedSums(s.entries, i, t.entries[i], b); }
    ReplacedSums(s.entries, i, t.entries[i], e.bucket);
  }

  /** A settlement is refused exactly for want of the one open entry of that id, or for a negative cost. */
  lemma SettleRefused(s: State, id: string, actual: Option<real>)
    requires WellFormed(s)
    ensures TrySettle(s, id, actual) == Err(UnknownReservation) <==>
              !exists i :: 0 <= i < |s.entries| && s.entries[i].id == id
                 && forall j :: 0 <= j < |s.entries| && j != i ==> s.entries[j].id != id
    ensures TrySettle(s, id, actual) == Err(AlreadySettled) <==>
              exists i: nat :: OnlyMatch(s.entries, id, i) && !s.entries[i].status.Reserved?
    ensures TrySettle(s, id, actual) == Err(NegativeCost) <==>
              && (exists i: nat :: OnlyMatch(s.entries, id, i) && s.entries[i].status.Reserved?)
              && actual.Some? && actual.value < 0.0
    ensures TrySettle(s, id, actual).Ok? <==>
              && (exists i: nat :: OnlyMatch(s.entries, id, i) && s.entries[i].status.Reserved?)
              && (actual.Some? ==> actual.value >= 0.0)
  {
    forall i: nat
      ensures OnlyMatch(s.entries, id, i) <==>
                && i < |s.entries| && s.entries[i].id == id
                && forall j :: 0 <= j < |s.entries| && j != i ==> s.entries[j].id != id
    {
    }
    if i: nat :| OnlyMatch(s.entries, id, i) {
      forall j: nat | OnlyMatch(s.entries, id, j) ensures j == i { OnlyOne(s.entries, id, i, j); }
    }
  }

  // ---------------------------------------------------------------- the operations themselves

  /** Every bucket some entry names. */
  function BucketsOf(entries: seq<Entry>): (r: set<string>)
    ensures forall i :: 0 <= i < |entries| ==> entries[i].bucket in r
  {
    if entries == [] then {} else BucketsOf(entries[..|entries| - 1]) + {entries[|entries| - 1].bucket}
  }

  lemma {:induction false} AbsentBucket(entries: seq<Entry>, bucket: string)
    requires bucket !in BucketsOf(entries)
    ensures BucketTotal(entries, bucket) == 0.0
  {
    if entries != [] { AbsentBucket(entries[..|entries| - 1], bucket); }
  }

  method BucketSums(s: State) returns (buckets: map<string, real>)
    ensures buckets.Keys == s.caps.Keys + BucketsOf(s.entries)
    ensures forall b :: b in buckets ==> buckets[b] == BucketTotal(s.entries, b)
  {
    buckets := map b | b in s.caps :: 0.0;
    for i := 0 to |s.entries|
      invariant buckets.Keys == s.caps.Keys + BucketsOf(s.entries[..i])
      invariant forall b :: b in buckets ==> buckets[b] == BucketTotal(s.entries[..i], b)
    {
      var e := s.entries[i];
      assert s.entries[..i + 1][..i] == s.entries[..i];
      if e.bucket !in buckets { AbsentBucket(s.entries[..i], e.bucket); }
      var before := if e.bucket in buckets then buckets[e.bucket] else 0.0;
      buckets := buckets[e.bucket := before + Charged(e)];
    }
    assert s.entries[..|s.entries|] == s.entries;
  }

  method Totals(s: State) returns (total: real, buckets: map<string, real>)
    ensures total == Total(s.entries)
    ensures buckets.Keys == s.caps.Keys + BucketsOf(s.entries)
    ensures forall b :: b in buckets ==> buckets[b] == BucketTotal(s.entries, b)
  {
    buckets := BucketSums(s);
    total := 0.0;
    var left := buckets.Keys;
    Empty(s.entries);
    while left != {}
      invariant left <= buckets.Keys
      invariant total == TotalIn(s.entries, buckets.Keys - left)
      decreases |left|
    {
      var b :| b in left;
      TotalInUnion(s.entries, buckets.Keys - left, b);
      assert buckets.Keys - (left - {b}) == buckets.Keys - left + {b};
      total := total + buckets[b];
      left := left - {b};
    }
    assert buckets.Keys - left == buckets.Keys;
    TotalInAll(s.entries, buckets.Keys);
  }

  lemma {:induction false} Empty(entries: seq<Entry>)
    ensures TotalIn(entries, {}) == 0.0
  {
    if entries != [] { Empty(entries[..|entries| - 1]); }
  }

  class Ledger {
    const totalCap: real
    const caps: map<string, real>
    var halted: bool
    var entries: seq<Entry>

    function View(): State
      reads this
    {
      State(totalCap, caps, halted, entries)
    }

    constructor (totalCap: real, caps: map<string, real>)
      requires totalCap >= 0.0 && forall b :: b in caps ==> caps[b] >= 0.0
      ensures View() == State(totalCap, caps, false, []) && Sound(View())
    {
      this.totalCap := totalCap;
      this.caps := caps;
      halted := false;
      entries := [];
    }

    method ReserveCost(id: string, jobId: string, bucket: string, amount: real) returns (error: Option<LedgerError>)
      modifies this
      ensures var r := TryReserve(old(View()), id, jobId, bucket, amount);
              if r.Ok? then error == None && View() == r.value else error == Some(r.error) && View() == old(View())
    {
      if amount <= 0.0 { return Some(NonPositiveReservation); }
      if halted { return Some(LedgerHalted); }
      if bucket !in caps { return Some(UnknownBucket); }
      var total, buckets := Totals(View());
      if total + amount > totalCap + EPS { return Some(TotalWouldBeExceeded); }
      if buckets[bucket] + amount > caps[bucket] + EPS { return Some(BucketWouldBeExceeded); }
      entries := entries + [Entry(id, jobId, bucket, amount, 0.0, Reserved)];
      return None;
    }

    method SettleCost(id: string, actual: Option<real>) returns (error: Option<LedgerError>)
      requires WellFormed(View())
      modifies this
      ensures WellFormed(View())
      ensures var r := TrySettle(old(View()), id, actual);
              if r.Ok? then error == None && View() == r.value else error == Some(r.error) && View() == old(View())
    {
      var matches, at := 0, 0;
      for i := 0 to |entries|
        invariant matches == 0 ==> forall j :: 0 <= j < i ==> entries[j].id != id
        invariant matches >= 1 ==> 0 <= at < i && entries[at].id == id
        invariant matches == 1 ==> forall j :: 0 <= j < i && j != at ==> entries[j].id != id
        invariant matches >= 2 ==> exists j, k :: 0 <= j < k < i && entries[j].id == entries[k].id == id
        invariant matches >= 0
      {
        if entries[i].id == id {
          assert matches >= 1 ==> entries[at].id == entries[i].id == id;
          matches, at := matches + 1, i;
        }
      }
      if matches != 1 { return Some(UnknownReservation); }
      assert OnlyMatch(entries, id, at);
      var e := entries[at];
      if !e.status.Reserved? { return Some(AlreadySettled); }
      if actual.Some? && actual.value < 0.0 { return Some(NegativeCost); }
      entries := entries[at := Closed(e, actual)];
      if actual.None? { halted := true; }
      var total, buckets := Totals(View());
      if total > totalCap + EPS || buckets[e.bucket] > caps[e.bucket] + EPS { halted := true; }
      return None;
    }
  }
}
