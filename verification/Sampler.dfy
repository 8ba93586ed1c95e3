/**
 Freezing the main sample (scripts/run_r2_r3_acceptance.py): calibration costs, the floor of
 every suite, the greedy proportional allocation under the R2 cap, and the R3 prefix.
 */
module Sampler {
  import opened Wrappers
  import opened PyLists
  import BudgetLedger
  import G = GreedyAllocation

  const EPS := BudgetLedger.EPS

  datatype Stratum = AgentDojo(suite: string) | InjecAgent

  /** A universe item, with the ids of its baseline and defended jobs. */
  datatype Case = Case(stratum: Stratum, key: string, baseline: string, defended: string)

  datatype Settings = Settings(multiplier: real, floor: nat, r2Cap: real, r3Cap: real)

  datatype FreezeError = FloorUnavailable(suite: string) | FloorExceedsCap | R3CostUnavailable

  datatype Manifest = Manifest(errors: seq<FreezeError>, selected: seq<Case>, jobs: seq<string>)

  // ---------------------------------------------------------------- calibration costs

  predicate Counts(e: BudgetLedger.Entry) {
    e.bucket == "calibration" && e.status.Settled?
  }

  predicate HasCost(entries: seq<BudgetLedger.Entry>, job: string) {
    exists i :: 0 <= i < |entries| && Counts(entries[i]) && entries[i].jobId == job
  }

  function JobCost(entries: seq<BudgetLedger.Entry>, job: string): real {
    if entries == [] then 0.0 else
      var e := entries[|entries| - 1];
      JobCost(entries[..|entries| - 1], job) + if Counts(e) && e.jobId == job then e.charged else 0.0
  }

  function PairCost(entries: seq<BudgetLedger.Entry>, c: Case): real {
    JobCost(entries, c.baseline) + JobCost(entries, c.defended)
  }

  lemma {:induction false} NoCost(entries: seq<BudgetLedger.Entry>, job: string)
    requires !HasCost(entries, job)
    ensures JobCost(entries, job) == 0.0
  {
    if entries != [] {
      var n := |entries| - 1;
      assert forall i :: 0 <= i < n ==> entries[..n][i] == entries[i];
      NoCost(entries[..n], job);
      assert !(Counts(entries[n]) && entries[n].jobId == job);
    }
  }

  method JobCosts(entries: seq<BudgetLedger.Entry>) returns (costs: map<string, real>)
    ensures forall job :: job in costs <==> HasCost(entries, job)
    ensures forall job :: job in costs ==> costs[job] == JobCost(entries, job)
  {
    costs := map[];
    for i := 0 to |entries|
      invariant forall job :: job in costs <==> HasCost(entries[..i], job)
      invariant forall job :: job in costs ==> costs[job] == JobCost(entries[..i], job)
    {
      var e := entries[i];
      assert entries[..i + 1][..i] == entries[..i];
      forall job
        ensures HasCost(entries[..i + 1], job) <==> HasCost(entries[..i], job) || (Counts(e) && e.jobId == job)
      {
        assert entries[..i + 1][i] == e;
        assert forall j :: 0 <= j < i ==> entries[..i + 1][j] == entries[..i][j];
      }
      if Counts(e) {
        if e.jobId !in costs { NoCost(entries[..i], e.jobId); }
        var before := if e.jobId in costs then costs[e.jobId] else 0.0;
        costs := costs[e.jobId := before + e.charged];
      }
    }
    assert entries[..|entries|] == entries;
  }

  /** A reservation prices nothing. */
  lemma ReservedPricesNothing(s: BudgetLedger.State, id: string, jobId: string, bucket: string, amount: real,
                              job: string)
    requires BudgetLedger.TryReserve(s, id, jobId, bucket, amount).Ok?
    ensures var t := BudgetLedger.TryReserve(s, id, jobId, bucket, amount).value;
            JobCost(t.entries, job) == JobCost(s.entries, job) && (HasCost(t.entries, job) <==> HasCost(s.entries, job))
  {
    var t := BudgetLedger.TryReserve(s, id, jobId, bucket, amount).value;
    assert t.entries[..|s.entries|] == s.entries;
    assert forall i :: 0 <= i < |s.entries| ==> t.entries[i] == s.entries[i];
  }

  lemma {:induction false} ReplacedCost(entries: seq<BudgetLedger.Entry>, i: nat, e: BudgetLedger.Entry, job: string)
    requires i < |entries| && entries[i].status.Reserved?
    ensures JobCost(entries[i := e], job) ==
              JobCost(entries, job)
              + if e.bucket == "calibration" && e.status.Settled? && e.jobId == job then e.charged else 0.0
    ensures HasCost(entries[i := e], job) <==>
              HasCost(entries, job) || (e.bucket == "calibration" && e.status.Settled? && e.jobId == job)
  {
    var n, after := |entries| - 1, entries[i := e];
    if i < n {
      assert after[..n] == entries[..n][i := e];
      ReplacedCost(entries[..n], i, e, job);
    } else {
      assert after[..n] == entries[..n];
    }
    assert forall k :: 0 <= k < |entries| && k != i ==> after[k] == entries[k];
    assert after[i] == e;
    if HasCost(entries, job) {
      var k :| 0 <= k < |entries| && Counts(entries[k]) && entries[k].jobId == job;
      assert k != i && after[k] == entries[k];
    }
  }

  /** An accepted settlement prices its job, by the actual cost, exactly if it is known and of a calibration call. */
  lemma SettledPrices(s: BudgetLedger.State, id: string, actual: Option<real>, i: nat, job: string)
    requires BudgetLedger.WellFormed(s) && BudgetLedger.OnlyMatch(s.entries, id, i)
    requires BudgetLedger.TrySettle(s, id, actual).Ok?
    ensures var t, e := BudgetLedger.TrySettle(s, id, actual).value, s.entries[i];
            var counts := e.bucket == "calibration" && e.jobId == job && actual.Some?;
            && JobCost(t.entries, job) == JobCost(s.entries, job) + (if counts then actual.value else 0.0)
            && (HasCost(t.entries, job) <==> HasCost(s.entries, job) || counts)
  {
    var t := BudgetLedger.TrySettle(s, id, actual).value;
    BudgetLedger.SettledExactly(s, id, actual, i);
    assert t.entries == s.entries[i := t.entries[i]];
    ReplacedCost(s.entries, i, t.entries[i], job);
  }

  /** So a settled call of either of a case's jobs raises what its pair cost. */
  lemma SettledPairPrices(s: BudgetLedger.State, id: string, actual: real, i: nat, c: Case)
    requires BudgetLedger.WellFormed(s) && BudgetLedger.OnlyMatch(s.entries, id, i)
    requires BudgetLedger.TrySettle(s, id, Some(actual)).Ok? && s.entries[i].bucket == "calibration"
    ensures var t, job := BudgetLedger.TrySettle(s, id, Some(actual)).value, s.entries[i].jobId;
            PairCost(t.entries, c) ==
              PairCost(s.entries, c) + (if job == c.baseline then actual else 0.0)
              + if job == c.defended then actual else 0.0
  {
    SettledPrices(s, id, Some(actual), i, c.baseline);
    SettledPrices(s, id, Some(actual), i, c.defended);
  }

  predicate Calibrated(calibration: set<string>, c: Case, st: Stratum) {
    c.key in calibration && c.stratum == st
  }

  predicate Priced(entries: seq<BudgetLedger.Entry>, c: Case) {
    HasCost(entries, c.baseline) && HasCost(entries, c.defended)
  }

  /** The dearest calibrated pair of a stratum, never below zero; None when none was calibrated. */
  function Dearest(universe: seq<Case>, calibration: set<string>, entries: seq<BudgetLedger.Entry>,
                   st: Stratum): Option<real>
  {
    if universe == [] then None else
      var c, earlier := universe[|universe| - 1], Dearest(universe[..|universe| - 1], calibration, entries, st);
      if !Calibrated(calibration, c, st) then earlier
      else if PairCost(entries, c) > earlier.GetOr(0.0) then Some(PairCost(entries, c))
      else Some(earlier.GetOr(0.0))
  }

  /** `Dearest` is the least bound above zero and every calibrated pair of the stratum. */
  lemma {:induction false} DearestIsLeastBound(universe: seq<Case>, calibration: set<string>,
                                               entries: seq<BudgetLedger.Entry>, st: Stratum)
    ensures var d := Dearest(universe, calibration, entries, st);
            && (d.Some? <==> exists i :: 0 <= i < |universe| && Calibrated(calibration, universe[i], st))
            && (d.Some? ==> d.value >= 0.0)
            && (forall i :: 0 <= i < |universe| && Calibrated(calibration, universe[i], st) ==>
                PairCost(entries, universe[i]) <= d.value)
            && (d.Some? && d.value > 0.0 ==>
                  exists i :: 0 <= i < |universe| && Calibrated(calibration, universe[i], st)
                      && PairCost(entries, universe[i]) == d.value)
  {
    if universe != [] {
      var m := |universe| - 1;
      DearestIsLeastBound(universe[..m], calibration, entries, st);
      assert universe == universe[..m] + [universe[m]];
    }
  }

  /** The recorded price of every stratum is its dearest calibrated pair. */
  ghost predicate PricesOf(prices: map<Stratum, real>, universe: seq<Case>, calibration: set<string>,
                           entries: seq<BudgetLedger.Entry>)
  {
    forall st :: Dearest(universe, calibration, entries, st) == if st in prices then Some(prices[st]) else None
  }

  method CalibrationPairCosts(universe: seq<Case>, calibration: set<string>, entries: seq<BudgetLedger.Entry>)
    returns (r: Result<map<Stratum, real>, string>)
    ensures r.Ok? ==> PricesOf(r.value, universe, calibration, entries)
    ensures r.Err? <==>
              exists i :: 0 <= i < |universe| && universe[i].key in calibration
                          && !(HasCost(entries, universe[i].baseline) && HasCost(entries, universe[i].defended))
    ensures r.Err? ==>
              && r.error in calibration
              && exists i :: 0 <= i < |universe| && universe[i].key == r.error && !Priced(entries, universe[i])
  {
    var costs := JobCosts(entries);
    var prices: map<Stratum, real> := map[];
    for i := 0 to |universe|
      invariant PricesOf(prices, universe[..i], calibration, entries)
      invariant forall j :: 0 <= j < i && universe[j].key in calibration ==> Priced(entries, universe[j])
    {
      var c := universe[i];
      assert universe[..i + 1][..i] == universe[..i];
      if c.key in calibration {
        if c.baseline !in costs || c.defended !in costs { return Err(c.key); }
        var known := if c.stratum in prices then prices[c.stratum] else 0.0;
        var cost := costs[c.baseline] + costs[c.defended];
        prices := prices[c.stratum := if cost > known then cost else known];
      }
    }
    assert universe[..|universe|] == universe;
    return Ok(prices);
  }

  // ---------------------------------------------------------------- the frozen sample

  /** The cases of a stratum that are not excluded, in rank order. */
  function Select(universe: seq<Case>, excluded: set<string>, st: Stratum): seq<Case> {
    if universe == [] then [] else
      var rest, c := Select(universe[..|universe| - 1], excluded, st), universe[|universe| - 1];
      if c.stratum == st && c.key !in excluded then rest + [c] else rest
  }

  /**
   Everything the selection works from once pair prices are known: per suite the candidates in
   rank order and the number of all its cases, the R3 candidates, the conservative pair costs, and
   how many R3 pairs the R3 cap is divided into.
   */
  datatype Freeze = Freeze(
    suites: seq<string>, pool: map<string, seq<Case>>, size: map<string, nat>, r3: seq<Case>,
    estimates: map<Stratum, real>, r3Pairs: int, settings: Settings)

  /** The dearest calibrated pair of each stratum, scaled by the safety multiplier. */
  function Estimates(suites: seq<string>, prices: map<Stratum, real>, multiplier: real): map<Stratum, real> {
    map st | st in {InjecAgent} + (set s | s in suites :: AgentDojo(s)) ::
        (if st in prices then prices[st] else 0.0) * multiplier
  }

  function FreezeOf(universe: seq<Case>, calibration: set<string>, suites: seq<string>, prices: map<Stratum, real>,
                    settings: Settings): Freeze
  {
    var estimates := Estimates(suites, prices, settings.multiplier);
    Freeze(
      suites,
      map s | s in suites :: Select(universe, calibration, AgentDojo(s)),
      map s | s in suites :: |Select(universe, {}, AgentDojo(s))|,
      Select(universe, calibration, InjecAgent),
      estimates,
      if estimates[InjecAgent] > 0.0 then (settings.r3Cap / estimates[InjecAgent]).Floor else 0,
      settings)
  }

  /** Candidates sit in their own stratum, and a suite has no more candidates than cases. */
  ghost predicate Shaped(f: Freeze) {
    && (forall s :: s in f.suites ==> s in f.pool && s in f.size && |f.pool[s]| <= f.size[s])
    && (forall s, i :: s in f.pool && 0 <= i < |f.pool[s]| ==> f.pool[s][i].stratum == AgentDojo(s))
    && (forall i :: 0 <= i < |f.r3| ==> f.r3[i].stratum == InjecAgent)
  }

  lemma FreezeShaped(universe: seq<Case>, calibration: set<string>, suites: seq<string>, prices: map<Stratum, real>,
                     settings: Settings)
    ensures Shaped(FreezeOf(universe, calibration, suites, prices, settings))
  {
    var f := FreezeOf(universe, calibration, suites, prices, settings);
    forall s | s in suites
      ensures |f.pool[s]| <= f.size[s] && forall i :: 0 <= i < |f.pool[s]| ==> f.pool[s][i].stratum == AgentDojo(s)
    {
      CandidatesAmongAll(universe, calibration, AgentDojo(s));
    }
    CandidatesAmongAll(universe, calibration, InjecAgent);
  }

  function Estimate(f: Freeze, st: Stratum): real {
    if st in f.estimates then f.estimates[st] else 0.0
  }

  function SuiteEstimate(f: Freeze, suite: string): real {
    Estimate(f, AgentDojo(suite))
  }

  function Candidates(f: Freeze, suite: string): seq<Case> {
    if suite in f.pool then f.pool[suite] else []
  }

  function R3Cost(f: Freeze): real {
    Estimate(f, InjecAgent)
  }

  predicate FloorAvailable(f: Freeze, suite: string) {
    SuiteEstimate(f, suite) > 0.0 && |Candidates(f, suite)| >= f.settings.floor
  }

  /** The floor of a suite: its first candidates. */
  function FloorOf(f: Freeze, suite: string): seq<Case> {
    Take(Candidates(f, suite), f.settings.floor)
  }

  function FloorErrors(f: Freeze, suites: seq<string>): seq<FreezeError> {
    if suites == [] then [] else
      var s := suites[|suites| - 1];
      FloorErrors(f, suites[..|suites| - 1]) + if FloorAvailable(f, s) then [] else [FloorUnavailable(s)]
  }

  /** `n * x` by repeated addition. */
  function Times(n: nat, x: real): real {
    if n == 0 then 0.0 else Times(n - 1, x) + x
  }

  lemma {:induction false} TimesIsProduct(n: nat, x: real)
    ensures Times(n, x) == n as real * x
  {
    if n > 0 {
      TimesIsProduct(n - 1, x);
      assert (n - 1) as real * x + x == n as real * x;
    }
  }

  function FloorCost(f: Freeze, suites: seq<string>): real {
    if suites == [] then 0.0 else
      var s := suites[|suites| - 1];
      FloorCost(f, suites[..|suites| - 1]) + if FloorAvailable(f, s) then Times(f.settings.floor, SuiteEstimate(f, s))
        else 0.0
  }

  function FloorPart(f: Freeze, suites: seq<string>): seq<Case> {
    if suites == [] then [] else
      var s := suites[|suites| - 1];
      FloorPart(f, suites[..|suites| - 1]) + if FloorAvailable(f, s) then FloorOf(f, s) else []
  }

  function Errors(f: Freeze): seq<FreezeError> {
    FloorErrors(f, f.suites)
    + (if FloorCost(f, f.suites) > f.settings.r2Cap + EPS then [FloorExceedsCap] else [])
    + (if R3Cost(f) <= 0.0 then [R3CostUnavailable] else [])
  }

  /** The allocation problem the floors leave behind. */
  function Problem(f: Freeze): G.Problem {
    G.Problem(
      f.suites, f.settings.floor,
      map s | s in f.suites :: SuiteEstimate(f, s),
      map s | s in f.suites :: |Candidates(f, s)|,
      f.size,
      FloorCost(f, f.suites), f.settings.r2Cap)
  }

  /** The cases drawn by a sequence of picks: each takes the next candidate of its suite. */
  function Drawn(f: Freeze, picks: seq<string>): seq<Case> {
    if picks == [] then [] else
      var m := |picks| - 1;
      var at := f.settings.floor + Count(picks[..m], picks[m]);
      Drawn(f, picks[..m]) + if at < |Candidates(f, picks[m])| then [Candidates(f, picks[m])[at]] else []
  }

  function R3Part(f: Freeze): seq<Case> {
    Take(f.r3, f.r3Pairs)
  }

  function Jobs(selected: seq<Case>): seq<string> {
    if selected == [] then [] else
      var c := selected[|selected| - 1];
      Jobs(selected[..|selected| - 1]) + [c.baseline, c.defended]
  }

  /** Every selected case runs twice, undefended and defended. */
  lemma {:induction false} JobsOfCases(selected: seq<Case>, i: nat)
    requires i < |selected|
    ensures |Jobs(selected)| == 2 * |selected|
    ensures Jobs(selected)[2 * i] == selected[i].baseline && Jobs(selected)[2 * i + 1] == selected[i].defended
    decreases |selected|
  {
    var n := |selected| - 1;
    if n > 0 { JobsOfCases(selected[..n], if i < n then i else 0); }
  }

  /** A frozen manifest, together with the history of the allocation loop behind it. */
  ghost predicate FrozenBy(f: Freeze, picks: seq<string>, selected: seq<Case>) {
    && Shaped(f)
    && Errors(f) == []
    && R3Cost(f) > 0.0
    && G.Trace(Problem(f), picks)
    && G.Exhausted(Problem(f), picks)
    && selected == FloorPart(f, f.suites) + Drawn(f, picks) + R3Part(f)
  }

  lemma {:induction false} FloorErrorsNone(f: Freeze, suites: seq<string>)
    ensures FloorErrors(f, suites) == [] <==> forall s :: s in suites ==> FloorAvailable(f, s)
  {
    if suites != [] {
      FloorErrorsNone(f, suites[..|suites| - 1]);
      assert suites == suites[..|suites| - 1] + [suites[|suites| - 1]];
    }
  }

  lemma {:induction false} CandidatesAmongAll(universe: seq<Case>, excluded: set<string>, st: Stratum)
    ensures |Select(universe, excluded, st)| <= |Select(universe, {}, st)|
    ensures forall i :: 0 <= i < |Select(universe, excluded, st)| ==>
              var c := Select(universe, excluded, st)[i]; c.stratum == st && c.key !in excluded && c in universe
  {
    if universe != [] {
      CandidatesAmongAll(universe[..|universe| - 1], excluded, st);
      assert universe == universe[..|universe| - 1] + [universe[|universe| - 1]];
    }
  }

  lemma ProblemValid(f: Freeze)
    requires Shaped(f) && forall s :: s in f.suites ==> FloorAvailable(f, s)
    ensures G.Valid(Problem(f))
  {
  }

  /** A suite has a candidate left after the given picks. */
  ghost predicate NextFits(f: Freeze, picks: seq<string>, s: string) {
    s in f.suites && s in f.pool && f.settings.floor + Count(picks, s) < |f.pool[s]|
  }

  function NextDrawn(f: Freeze, picks: seq<string>, s: string): Case
    requires NextFits(f, picks, s)
  {
    f.pool[s][f.settings.floor + Count(picks, s)]
  }

  lemma DrawnUnfold(f: Freeze, picks: seq<string>, s: string)
    requires NextFits(f, picks, s)
    ensures Drawn(f, picks + [s]) == Drawn(f, picks) + [NextDrawn(f, picks, s)]
  {
    var all := picks + [s];
    var m := |all| - 1;
    assert all[..m] == picks && all[m] == s;
  }

  /** What the floors leave in each suite's queue. */
  ghost predicate Queued(f: Freeze, remaining: map<string, seq<Case>>) {
    forall s :: s in remaining ==>
      f.settings.floor <= |Candidates(f, s)| && remaining[s] == Candidates(f, s)[f.settings.floor..]
  }

  lemma LastDraw<T>(picks: seq<string>, all: map<string, seq<T>>, selected: seq<T>)
    requires G.Draws(picks, all, selected) && picks != []
    ensures var m := |picks| - 1;
            && |selected| == |picks| && picks[m] in all && Count(picks[..m], picks[m]) < |all[picks[m]]|
            && selected == selected[..m] + [all[picks[m]][Count(picks[..m], picks[m])]]
            && G.Draws(picks[..m], all, selected[..m])
  {
    G.DrawsPrefix(picks, all, selected, |picks| - 1);
  }

  lemma DrawnLast(f: Freeze, all: map<string, seq<Case>>, picks: seq<string>, last: string, k: nat)
    requires picks != [] && last == picks[|picks| - 1] && k == Count(picks[..|picks| - 1], last)
    requires Queued(f, all) && last in all && k < |all[last]|
    ensures Drawn(f, picks) == Drawn(f, picks[..|picks| - 1]) + [all[last][k]]
  {
  }

  lemma {:induction false} DrawsAreDrawn(f: Freeze, picks: seq<string>, all: map<string, seq<Case>>,
                                         selected: seq<Case>)
    requires Queued(f, all) && G.Draws(picks, all, selected)
    ensures selected == Drawn(f, picks)
  {
    if picks != [] {
      var m := |picks| - 1;
      LastDraw(picks, all, selected);
      DrawsAreDrawn(f, picks[..m], all, selected[..m]);
      DrawnLast(f, all, picks, picks[m], Count(picks[..m], picks[m]));
    }
  }

  method FloorPrice(n: nat, x: real) returns (r: real)
    ensures r == Times(n, x)
  {
    TimesIsProduct(n, x);
    r := n as real * x;
  }

  lemma FloorStep(f: Freeze, suites: seq<string>, i: nat)
    requires i < |suites|
    ensures var s := suites[i];
            if FloorAvailable(f, s) then
              && FloorPart(f, suites[..i + 1]) == FloorPart(f, suites[..i]) + FloorOf(f, s)
              && FloorErrors(f, suites[..i + 1]) == FloorErrors(f, suites[..i])
              && FloorCost(f, suites[..i + 1]) == FloorCost(f, suites[..i])
                 + Times(f.settings.floor, SuiteEstimate(f, s))
            else
              && FloorPart(f, suites[..i + 1]) == FloorPart(f, suites[..i])
              && FloorErrors(f, suites[..i + 1]) == FloorErrors(f, suites[..i]) + [FloorUnavailable(s)]
              && FloorCost(f, suites[..i + 1]) == FloorCost(f, suites[..i])
  {
    assert suites[..i + 1][..i] == suites[..i];
  }

  method TakeFloors(f: Freeze)
    returns (selected: seq<Case>, infeasible: seq<FreezeError>, remaining: map<string, seq<Case>>, cost: real)
    ensures selected == FloorPart(f, f.suites) && infeasible == FloorErrors(f, f.suites)
            && cost == FloorCost(f, f.suites)
    ensures forall s :: s in f.suites && FloorAvailable(f, s) ==> s in remaining
    ensures Queued(f, remaining) && forall s :: s in remaining ==> s in f.suites
  {
    selected, infeasible, remaining, cost := [], [], map[], 0.0;
    for i := 0 to |f.suites|
      invariant selected == FloorPart(f, f.suites[..i]) && infeasible == FloorErrors(f, f.suites[..i])
      invariant cost == FloorCost(f, f.suites[..i])
      invariant forall s :: s in f.suites[..i] && FloorAvailable(f, s) ==> s in remaining
      invariant Queued(f, remaining) && forall s :: s in remaining ==> s in f.suites
    {
      var s := f.suites[i];
      FloorStep(f, f.suites, i);
      var candidates := Candidates(f, s);
      var conservative := SuiteEstimate(f, s);
      if conservative <= 0.0 || |candidates| < f.settings.floor {
        infeasible := infeasible + [FloorUnavailable(s)];
      } else {
        selected := selected + Take(candidates, f.settings.floor);
        remaining := remaining[s := candidates[f.settings.floor..]];
        var price := FloorPrice(f.settings.floor, conservative);
        cost := cost + price;
      }
    }
    assert f.suites[..|f.suites|] == f.suites;
  }

  lemma QueuesReady(f: Freeze, remaining: map<string, seq<Case>>)
    requires Queued(f, remaining) && forall s :: s in f.suites ==> FloorAvailable(f, s) && s in remaining
    ensures G.Queues(Problem(f), [], remaining, remaining)
  {
  }

  method FreezeSampleManifest(universe: seq<Case>, calibration: set<string>, suites: seq<string>,
                              entries: seq<BudgetLedger.Entry>, settings: Settings)
    returns (r: Result<Manifest, string>, ghost prices: map<Stratum, real>, ghost picks: seq<string>)
    ensures r.Err? <==>
              exists i :: 0 <= i < |universe| && universe[i].key in calibration
                          && !(HasCost(entries, universe[i].baseline) && HasCost(entries, universe[i].defended))
    ensures r.Ok? ==> PricesOf(prices, universe, calibration, entries)
    ensures r.Ok? ==> var f := FreezeOf(universe, calibration, suites, prices, settings);
                      && r.value.errors == Errors(f)
                      && r.value.jobs == Jobs(r.value.selected)
                      && if r.value.errors == [] then FrozenBy(f, picks, r.value.selected) else r.value.selected == []
  {
    picks, prices := [], map[];
    var costs := CalibrationPairCosts(universe, calibration, entries);
    if costs.Err? { return Err(costs.error), prices, picks; }
    prices := costs.value;
    var f := FreezeOf(universe, calibration, suites, costs.value, settings);
    FreezeShaped(universe, calibration, suites, costs.value, settings);
    var selected, infeasible, remaining, floorCost := TakeFloors(f);
    if floorCost > settings.r2Cap + EPS { infeasible := infeasible + [FloorExceedsCap]; }
    if infeasible == [] {
      FloorErrorsNone(f, suites);
      ProblemValid(f);
      QueuesReady(f, remaining);
      var extra;
      extra, picks := G.Allocate(Problem(f), remaining);
      DrawsAreDrawn(f, picks, remaining, extra);
      selected := selected + extra;
    }
    if R3Cost(f) <= 0.0 {
      infeasible := infeasible + [R3CostUnavailable];
    } else {
      selected := selected + R3Part(f);
    }
    if infeasible != [] { selected := []; }
    return Ok(Manifest(infeasible, selected, Jobs(selected))), prices, picks;
  }
}
