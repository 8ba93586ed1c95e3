/** What a frozen sample costs at the prices that were calibrated, and when a sample is frozen at all. */
module SampleCosts {
  import opened PyLists
  import opened Sampler
  import opened SampleProperties
  import opened Wrappers
  import BudgetLedger
  import G = GreedyAllocation

  /** The least upper bound of zero and the costs of a stratum's calibrated pairs. */
  ghost predicate IsDearest(bound: real, universe: seq<Case>, calibration: set<string>,
                            entries: seq<BudgetLedger.Entry>, st: Stratum)
  {
    && bound >= 0.0
    && (forall i :: 0 <= i < |universe| && Calibrated(calibration, universe[i], st) ==>
          PairCost(entries, universe[i]) <= bound)
    && (bound == 0.0 || exists i :: 0 <= i < |universe| && Calibrated(calibration, universe[i], st)
                                    && PairCost(entries, universe[i]) == bound)
  }

  /** What a sampled pair is taken to cost: the safety multiplier times the dearest calibrated pair of its stratum. */
  lemma ConservativePrice(universe: seq<Case>, calibration: set<string>, entries: seq<BudgetLedger.Entry>,
                          suites: seq<string>, prices: map<Stratum, real>, settings: Settings, st: Stratum)
    returns (bound: real)
    requires PricesOf(prices, universe, calibration, entries) && (st.AgentDojo? ==> st.suite in suites)
    ensures IsDearest(bound, universe, calibration, entries, st)
    ensures Estimate(FreezeOf(universe, calibration, suites, prices, settings), st) == bound * settings.multiplier
  {
    DearestIsLeastBound(universe, calibration, entries, st);
    bound := Dearest(universe, calibration, entries, st).GetOr(0.0);
    EstimateReads(universe, calibration, suites, prices, settings, st);
  }

  lemma EstimateReads(universe: seq<Case>, calibration: set<string>, suites: seq<string>, prices: map<Stratum, real>,
                      settings: Settings, st: Stratum)
    requires st.AgentDojo? ==> st.suite in suites
    ensures Estimate(FreezeOf(universe, calibration, suites, prices, settings), st)
         == (if st in prices then prices[st] else 0.0) * settings.multiplier
  {
  }

  lemma ScaledBound(a: real, b: real, m: real, am: real, bm: real)
    requires a <= b && m >= 0.0 && am == a * m && bm == b * m
    ensures am <= bm
  {
    assert (b - a) * m >= 0.0;
    assert (b - a) * m == b * m - a * m;
  }

  lemma NonPositiveProduct(b: real, m: real)
    requires b >= 0.0
    ensures m <= 0.0 ==> b * m <= 0.0
  {
    if m <= 0.0 { assert b * (0.0 - m) >= 0.0; }
  }

  /** Any calibrated pair of the stratum, scaled, costs at most that much. */
  lemma CalibratedCostsLess(universe: seq<Case>, calibration: set<string>, entries: seq<BudgetLedger.Entry>,
                            suites: seq<string>, prices: map<Stratum, real>, settings: Settings, st: Stratum, i: nat,
                            scaled: real)
    requires PricesOf(prices, universe, calibration, entries) && (st.AgentDojo? ==> st.suite in suites)
    requires i < |universe| && Calibrated(calibration, universe[i], st) && settings.multiplier >= 0.0
    requires scaled == PairCost(entries, universe[i]) * settings.multiplier
    ensures scaled <= Estimate(FreezeOf(universe, calibration, suites, prices, settings), st)
  {
    var bound := ConservativePrice(universe, calibration, entries, suites, prices, settings, st);
    ScaledBound(PairCost(entries, universe[i]), bound, settings.multiplier, scaled,
                Estimate(FreezeOf(universe, calibration, suites, prices, settings), st));
  }

  lemma MultiplierPositive(universe: seq<Case>, calibration: set<string>, entries: seq<BudgetLedger.Entry>,
                           suites: seq<string>, prices: map<Stratum, real>, settings: Settings)
    requires PricesOf(prices, universe, calibration, entries)
    requires R3Cost(FreezeOf(universe, calibration, suites, prices, settings)) > 0.0
    ensures settings.multiplier > 0.0
  {
    var bound := ConservativePrice(universe, calibration, entries, suites, prices, settings, InjecAgent);
    NonPositiveProduct(bound, settings.multiplier);
  }

  // ---------------------------------------------------------------- the whole sample

  /** What the sampled cases of one benchmark cost at given prices. */
  function Charge(selected: seq<Case>, price: Stratum -> real, r2: bool): real {
    if selected == [] then 0.0 else
      var c := selected[|selected| - 1];
      Charge(selected[..|selected| - 1], price, r2) + if c.stratum.AgentDojo? == r2 then price(c.stratum) else 0.0
  }

  lemma {:induction false} ChargeWithinEstimate(f: Freeze, selected: seq<Case>, price: Stratum -> real, r2: bool)
    requires forall c <- selected :: price(c.stratum) <= Estimate(f, c.stratum)
    ensures Charge(selected, price, r2) <= EstimateOf(f, selected, r2)
  {
    if selected != [] {
      assert forall c <- selected[..|selected| - 1] :: c in selected;
      ChargeWithinEstimate(f, selected[..|selected| - 1], price, r2);
    }
  }

  /** Only strata of the plan are sampled. */
  lemma SampledStratum(f: Freeze, picks: seq<string>, selected: seq<Case>, c: Case)
    requires FrozenBy(f, picks, selected) && c in selected
    ensures c.stratum.AgentDojo? ==> c.stratum.suite in f.suites
  {
    FrozenIsSampled(f, picks, selected);
    CountPositive(selected, c);
    CountSelect(selected, c);
    CountPositive(Select(selected, {}, c.stratum), c);
    if c.stratum.AgentDojo? && c.stratum.suite !in f.suites { OffListEmpty(f, picks, selected, c.stratum.suite); }
  }

  /** A price that the multiplier makes of the cost of some calibrated pair of the stratum. */
  ghost predicate Calibrates(price: real, universe: seq<Case>, calibration: set<string>,
                             entries: seq<BudgetLedger.Entry>, multiplier: real, st: Stratum)
  {
    exists i :: 0 <= i < |universe| && Calibrated(calibration, universe[i], st)
                && price == PairCost(entries, universe[i]) * multiplier
  }

  lemma PriceWithinEstimate(universe: seq<Case>, calibration: set<string>, entries: seq<BudgetLedger.Entry>,
                            suites: seq<string>, prices: map<Stratum, real>, settings: Settings, price: real,
                            st: Stratum)
    requires PricesOf(prices, universe, calibration, entries) && (st.AgentDojo? ==> st.suite in suites)
    requires Calibrates(price, universe, calibration, entries, settings.multiplier, st) && settings.multiplier >= 0.0
    ensures price <= Estimate(FreezeOf(universe, calibration, suites, prices, settings), st)
  {
    var i :| 0 <= i < |universe| && Calibrated(calibration, universe[i], st)
             && price == PairCost(entries, universe[i]) * settings.multiplier;
    CalibratedCostsLess(universe, calibration, entries, suites, prices, settings, st, i, price);
  }

  /**
   If every sampled pair costs what any calibrated pair of its stratum did, the whole sample times the safety
   multiplier stays within the R2 cap, and within the R3 cap where that is not negative.
   */
  lemma SampleAffordable(universe: seq<Case>, calibration: set<string>, entries: seq<BudgetLedger.Entry>,
                         suites: seq<string>, prices: map<Stratum, real>, settings: Settings, picks: seq<string>,
                         selected: seq<Case>, price: Stratum -> real)
    requires PricesOf(prices, universe, calibration, entries)
    requires FrozenBy(FreezeOf(universe, calibration, suites, prices, settings), picks, selected)
    requires forall c <- selected ::
               Calibrates(price(c.stratum), universe, calibration, entries, settings.multiplier, c.stratum)
    ensures Charge(selected, price, true) <= settings.r2Cap + EPS
    ensures settings.r3Cap >= 0.0 ==> Charge(selected, price, false) <= settings.r3Cap
  {
    var f := FreezeOf(universe, calibration, suites, prices, settings);
    MultiplierPositive(universe, calibration, entries, suites, prices, settings);
    forall c <- selected ensures price(c.stratum) <= Estimate(f, c.stratum) {
      SampledStratum(f, picks, selected, c);
      PriceWithinEstimate(universe, calibration, entries, suites, prices, settings, price(c.stratum), c.stratum);
    }
    ChargeWithinEstimate(f, selected, price, true);
    ChargeWithinEstimate(f, selected, price, false);
    R2WithinCapAndMaximal(f, picks, selected);
    FreezeOfDivided(universe, calibration, suites, prices, settings);
    R3WithinCap(f, picks, selected);
  }

  // ---------------------------------------------------------------- one stratum

  lemma {:induction false} TimesMonotone(n: nat, x: real, y: real)
    requires x <= y
    ensures Times(n, x) <= Times(n, y)
  {
    if n > 0 { TimesMonotone(n - 1, x, y); }
  }

  lemma {:induction false} StratumWithinEstimate(f: Freeze, selected: seq<Case>, st: Stratum)
    requires forall c <- selected :: Estimate(f, c.stratum) >= 0.0
    ensures Times(|Select(selected, {}, st)|, Estimate(f, st)) <= EstimateOf(f, selected, st.AgentDojo?)
  {
    if selected != [] {
      assert forall c <- selected[..|selected| - 1] :: c in selected;
      assert selected[|selected| - 1] in selected;
      StratumWithinEstimate(f, selected[..|selected| - 1], st);
    }
  }

  lemma StrataPriced(f: Freeze, st: Stratum)
    requires Errors(f) == [] && (st.AgentDojo? ==> st.suite in f.suites)
    ensures Estimate(f, st) > 0.0
  {
    FloorErrorsNone(f, f.suites);
    assert st.AgentDojo? ==> FloorAvailable(f, st.suite);
  }

  /** The number sampled of a stratum, at its conservative price, is within the cap of its benchmark. */
  lemma StratumWithinCap(f: Freeze, picks: seq<string>, selected: seq<Case>, st: Stratum)
    requires FrozenBy(f, picks, selected) && R3Divided(f) && (st.InjecAgent? ==> f.settings.r3Cap >= 0.0)
    ensures Times(|Select(selected, {}, st)|, Estimate(f, st))
         <= if st.AgentDojo? then f.settings.r2Cap + EPS else f.settings.r3Cap
  {
    forall c <- selected ensures Estimate(f, c.stratum) >= 0.0 {
      SampledStratum(f, picks, selected, c);
      StrataPriced(f, c.stratum);
    }
    StratumWithinEstimate(f, selected, st);
    R2WithinCapAndMaximal(f, picks, selected);
    R3WithinCap(f, picks, selected);
  }

  lemma CountTimesPrice(n: nat, scaled: real, estimate: real, cap: real)
    requires scaled <= estimate && Times(n, estimate) <= cap
    ensures n as real * scaled <= cap
  {
    TimesIsProduct(n, scaled);
    TimesMonotone(n, scaled, estimate);
  }

  /**
   The number sampled of a stratum, times the safety multiplier and what any calibrated pair of the stratum
   cost, is within the cap of its benchmark.
   */
  lemma StratumAffordable(universe: seq<Case>, calibration: set<string>, entries: seq<BudgetLedger.Entry>,
                          suites: seq<string>, prices: map<Stratum, real>, settings: Settings, picks: seq<string>,
                          selected: seq<Case>, st: Stratum, i: nat, scaled: real, n: nat)
    requires PricesOf(prices, universe, calibration, entries) && (st.AgentDojo? ==> st.suite in suites)
    requires FrozenBy(FreezeOf(universe, calibration, suites, prices, settings), picks, selected)
    requires i < |universe| && Calibrated(calibration, universe[i], st)
    requires scaled == PairCost(entries, universe[i]) * settings.multiplier && n == |Select(selected, {}, st)|
    requires st.InjecAgent? ==> settings.r3Cap >= 0.0
    ensures n as real * scaled <= if st.AgentDojo? then settings.r2Cap + EPS else settings.r3Cap
  {
    var f := FreezeOf(universe, calibration, suites, prices, settings);
    MultiplierPositive(universe, calibration, entries, suites, prices, settings);
    CalibratedCostsLess(universe, calibration, entries, suites, prices, settings, st, i, scaled);
    FreezeOfDivided(universe, calibration, suites, prices, settings);
    StratumWithinCap(f, picks, selected, st);
    CountTimesPrice(n, scaled, Estimate(f, st), if st.AgentDojo? then settings.r2Cap + EPS else settings.r3Cap);
  }

  // ---------------------------------------------------------------- when a sample is frozen

  lemma InBoth<T>(x: T, a: seq<T>, b: seq<T>)
    ensures x in a + b <==> x in a || x in b
  {
  }

  lemma {:induction false} FloorsReported(f: Freeze, suites: seq<string>, e: FreezeError)
    ensures e in FloorErrors(f, suites) <==>
              && e.FloorUnavailable? && e.suite in suites
              && (SuiteEstimate(f, e.suite) <= 0.0 || |Candidates(f, e.suite)| < f.settings.floor)
  {
    if suites != [] {
      var init, last := suites[..|suites| - 1], suites[|suites| - 1];
      FloorsReported(f, init, e);
      assert suites == init + [last];
      var found := if FloorAvailable(f, last) then [] else [FloorUnavailable(last)];
      assert FloorErrors(f, suites) == FloorErrors(f, init) + found;
      InBoth(e, FloorErrors(f, init), found);
    }
  }

  /** The cost of all floors that can be taken, once per listing. */
  lemma {:induction false} FloorsCost(f: Freeze, suites: seq<string>)
    requires Shaped(f)
    ensures FloorCost(f, suites) == EstimateOf(f, FloorPart(f, suites), true)
  {
    if suites != [] {
      var init, last := suites[..|suites| - 1], suites[|suites| - 1];
      FloorsCost(f, init);
      if FloorAvailable(f, last) {
        FloorPartStep(f, suites);
        FloorCostStep(f, suites);
        EstimateConcat(f, FloorPart(f, init), FloorOf(f, last), true);
      } else {
        assert FloorPart(f, suites) == FloorPart(f, init);
      }
    }
  }

  /**
   What stands in the way of a sample, exactly: a suite without a price or without enough candidates, floors
   that cost more than the R2 cap, or R3 pairs without a price.
   */
  lemma ErrorsExactly(f: Freeze, e: FreezeError)
    requires Shaped(f)
    ensures e in Errors(f) <==>
              match e
              case FloorUnavailable(s) =>
                s in f.suites && (SuiteEstimate(f, s) <= 0.0 || |Candidates(f, s)| < f.settings.floor)
              case FloorExceedsCap => EstimateOf(f, FloorPart(f, f.suites), true) > f.settings.r2Cap + EPS
              case R3CostUnavailable => Estimate(f, InjecAgent) <= 0.0
  {
    FloorsReported(f, f.suites, e);
    FloorsCost(f, f.suites);
  }
}
