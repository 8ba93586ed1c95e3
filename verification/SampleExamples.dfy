/** Frozen samples that overspend or repeat a case. */
module SampleExamples {
  import opened PyLists
  import opened Sampler
  import opened SampleProperties
  import opened Wrappers
  import BudgetLedger
  import G = GreedyAllocation

  /** The calibrated cases, whose settled calls give the prices. */
  const CAL3 := Case(InjecAgent, "z", "z0", "z1")
  const CAL2 := Case(AgentDojo("s"), "y", "y0", "y1")

  const R3A := Case(InjecAgent, "a", "a0", "a1")
  const R3B := Case(InjecAgent, "b", "b0", "b1")
  const ONLY := Case(AgentDojo("s"), "c", "c0", "c1")

  /** A settled calibration call of half a dollar. */
  function Paid(job: string): BudgetLedger.Entry {
    BudgetLedger.Entry(job, job, "calibration", 0.5, 0.5, BudgetLedger.Settled)
  }

  lemma PaidNext(entries: seq<BudgetLedger.Entry>, job: string, j: string)
    ensures JobCost(entries + [Paid(job)], j) == JobCost(entries, j) + if j == job then 0.5 else 0.0
    ensures HasCost(entries + [Paid(job)], j) <==> HasCost(entries, j) || j == job
  {
    var all := entries + [Paid(job)];
    assert all[..|entries|] == entries && all[|entries|] == Paid(job);
    if HasCost(entries, j) {
      var i :| 0 <= i < |entries| && Counts(entries[i]) && entries[i].jobId == j;
      assert Counts(all[i]) && all[i].jobId == j;
    }
    if j == job { assert Counts(all[|entries|]) && all[|entries|].jobId == j; }
  }

  /** Both jobs of each case, paid for. */
  function PaidPairs(cases: seq<Case>): seq<BudgetLedger.Entry> {
    if cases == [] then [] else
      var c := cases[|cases| - 1];
      PaidPairs(cases[..|cases| - 1]) + [Paid(c.baseline)] + [Paid(c.defended)]
  }

  lemma PairNext(cases: seq<Case>, c: Case, j: string)
    ensures JobCost(PaidPairs(cases + [c]), j)
         == JobCost(PaidPairs(cases), j) + (if j == c.baseline then 0.5 else 0.0) + if j == c.defended then 0.5 else 0.0
    ensures HasCost(PaidPairs(cases + [c]), j) <==> HasCost(PaidPairs(cases), j) || j in {c.baseline, c.defended}
  {
    assert (cases + [c])[..|cases|] == cases;
    PaidNext(PaidPairs(cases), c.baseline, j);
    PaidNext(PaidPairs(cases) + [Paid(c.baseline)], c.defended, j);
  }

  lemma NoPairs(j: string)
    ensures JobCost(PaidPairs([]), j) == 0.0
  {
  }

  predicate Apart(c: Case, d: Case) {
    c.baseline !in {d.baseline, d.defended} && c.defended !in {d.baseline, d.defended} && c.baseline != c.defended
  }

  /** A pair that shares no job with the pairs before it costs one dollar. */
  lemma LastPairCost(cases: seq<Case>, c: Case)
    requires c.baseline != c.defended
    requires JobCost(PaidPairs(cases), c.baseline) == JobCost(PaidPairs(cases), c.defended) == 0.0
    ensures PairCost(PaidPairs(cases + [c]), c) == 1.0 && Priced(PaidPairs(cases + [c]), c)
  {
    PairNext(cases, c, c.baseline);
    PairNext(cases, c, c.defended);
  }

  lemma OnePairCost(c: Case, d: Case)
    requires Apart(c, d)
    ensures PairCost(PaidPairs([c]), c) == 1.0 && Priced(PaidPairs([c]), c)
    ensures JobCost(PaidPairs([c]), d.baseline) == JobCost(PaidPairs([c]), d.defended) == 0.0
  {
    assert [] + [c] == [c];
    NoPairs(c.baseline);
    NoPairs(c.defended);
    LastPairCost([], c);
    NoPairs(d.baseline);
    NoPairs(d.defended);
    PairNext([], c, d.baseline);
    PairNext([], c, d.defended);
  }

  lemma TwoPairCosts(c: Case, d: Case)
    requires Apart(c, d) && Apart(d, c)
    ensures PairCost(PaidPairs([c, d]), c) == 1.0 && Priced(PaidPairs([c, d]), c)
    ensures PairCost(PaidPairs([c, d]), d) == 1.0 && Priced(PaidPairs([c, d]), d)
  {
    assert [c] + [d] == [c, d];
    OnePairCost(c, d);
    LastPairCost([c], d);
    PairNext([c], d, c.baseline);
    PairNext([c], d, c.defended);
  }

  lemma CalibratedApart()
    ensures Apart(CAL2, CAL3) && Apart(CAL3, CAL2)
  {
    assert "y0"[0] == "y1"[0] == 'y' && "z0"[0] == "z1"[0] == 'z' && "y0"[1] == "z0"[1] == '0';
    assert "y1"[1] == "z1"[1] == '1';
  }

  lemma DearestNext(universe: seq<Case>, calibration: set<string>, entries: seq<BudgetLedger.Entry>, st: Stratum,
                    c: Case)
    ensures var d := Dearest(universe, calibration, entries, st);
            Dearest(universe + [c], calibration, entries, st) ==
              if !Calibrated(calibration, c, st) then d
              else if PairCost(entries, c) > d.GetOr(0.0) then Some(PairCost(entries, c)) else Some(d.GetOr(0.0))
  {
    assert (universe + [c])[..|universe|] == universe;
  }

  lemma SelectNext(universe: seq<Case>, excluded: set<string>, st: Stratum, c: Case)
    ensures Select(universe + [c], excluded, st)
         == Select(universe, excluded, st) + if c.stratum == st && c.key !in excluded then [c] else []
  {
    assert (universe + [c])[..|universe|] == universe;
  }

  lemma NothingDrawn(f: Freeze)
    requires forall s <- f.suites :: |Candidates(f, s)| <= f.settings.floor
    ensures G.Trace(Problem(f), []) && G.Exhausted(Problem(f), [])
  {
  }

  // ---------------------------------------------------------------- a negative R3 cap

  /** A calibrated R3 pair and two candidates. */
  const R3_UNIVERSE := [CAL3, R3A, R3B]
  const R3_PRICES: map<Stratum, real> := map[InjecAgent := 1.0]
  const NEGATIVE := FreezeOf(R3_UNIVERSE, {"z"}, [], R3_PRICES, Settings(1.0, 0, 0.0, -1.0))

  lemma R3Prices()
    ensures PricesOf(R3_PRICES, R3_UNIVERSE, {"z"}, PaidPairs([CAL3])) && Priced(PaidPairs([CAL3]), CAL3)
  {
    CalibratedApart();
    OnePairCost(CAL3, CAL2);
    var entries := PaidPairs([CAL3]);
    assert R3_UNIVERSE == [] + [CAL3] + [R3A] + [R3B];
    assert "a"[0] == 'a' && "b"[0] == 'b' && "z"[0] == 'z';
    forall st ensures Dearest(R3_UNIVERSE, {"z"}, entries, st) == if st in R3_PRICES then Some(R3_PRICES[st]) else None
    {
      DearestNext([], {"z"}, entries, st, CAL3);
      DearestNext([] + [CAL3], {"z"}, entries, st, R3A);
      DearestNext([] + [CAL3] + [R3A], {"z"}, entries, st, R3B);
    }
  }

  lemma R3Candidates()
    ensures NEGATIVE.r3 == [R3A, R3B]
  {
    assert R3_UNIVERSE == [] + [CAL3] + [R3A] + [R3B];
    assert "a"[0] == 'a' && "b"[0] == 'b' && "z"[0] == 'z';
    SelectNext([], {"z"}, InjecAgent, CAL3);
    SelectNext([] + [CAL3], {"z"}, InjecAgent, R3A);
    SelectNext([] + [CAL3] + [R3A], {"z"}, InjecAgent, R3B);
  }

  lemma R3Divisor()
    ensures R3Cost(NEGATIVE) == 1.0 && NEGATIVE.r3Pairs == -1
  {
    assert R3Cost(NEGATIVE) == 1.0;
    assert (-1.0 / 1.0).Floor == -1;
  }

  /**
   Two R3 candidates of price 1 and an R3 cap of -1: the quotient -1 cuts the list one from its end, so
   a manifest is frozen that spends 1.
   */
  lemma NegativeCapOverspends()
    ensures PricesOf(R3_PRICES, R3_UNIVERSE, {"z"}, PaidPairs([CAL3])) && Priced(PaidPairs([CAL3]), CAL3)
    ensures FrozenBy(NEGATIVE, [], [R3A]) && From(NEGATIVE, R3_UNIVERSE, {"z"}) && R3Divided(NEGATIVE)
    ensures EstimateOf(NEGATIVE, [R3A], false) == 1.0 > NEGATIVE.settings.r3Cap
  {
    R3Prices();
    R3Candidates();
    R3Divisor();
    FreezeShaped(R3_UNIVERSE, {"z"}, [], R3_PRICES, NEGATIVE.settings);
    FreezeOfIsFrom(R3_UNIVERSE, {"z"}, [], R3_PRICES, NEGATIVE.settings);
    FreezeOfDivided(R3_UNIVERSE, {"z"}, [], R3_PRICES, NEGATIVE.settings);
    NothingDrawn(NEGATIVE);
    assert R3Part(NEGATIVE) == [R3A];
    OneEstimate(NEGATIVE, R3A, false);
  }

  // ---------------------------------------------------------------- a suite listed twice

  /** A calibrated pair of each benchmark and one further case of the suite. */
  const R2_UNIVERSE := [CAL2, CAL3, ONLY]
  const R2_PRICES: map<Stratum, real> := map[AgentDojo("s") := 1.0, InjecAgent := 1.0]
  const TWICE := FreezeOf(R2_UNIVERSE, {"y", "z"}, ["s", "s"], R2_PRICES, Settings(1.0, 1, 2.0, 0.0))

  lemma R2Prices()
    ensures PricesOf(R2_PRICES, R2_UNIVERSE, {"y", "z"}, PaidPairs([CAL2, CAL3]))
    ensures Priced(PaidPairs([CAL2, CAL3]), CAL2) && Priced(PaidPairs([CAL2, CAL3]), CAL3)
  {
    CalibratedApart();
    TwoPairCosts(CAL2, CAL3);
    var entries := PaidPairs([CAL2, CAL3]);
    assert R2_UNIVERSE == [] + [CAL2] + [CAL3] + [ONLY];
    assert "c"[0] == 'c' && "y"[0] == 'y' && "z"[0] == 'z';
    forall st
      ensures Dearest(R2_UNIVERSE, {"y", "z"}, entries, st) == if st in R2_PRICES then Some(R2_PRICES[st]) else None
    {
      DearestNext([], {"y", "z"}, entries, st, CAL2);
      DearestNext([] + [CAL2], {"y", "z"}, entries, st, CAL3);
      DearestNext([] + [CAL2] + [CAL3], {"y", "z"}, entries, st, ONLY);
    }
  }

  lemma OnlySelected()
    ensures Select(R2_UNIVERSE, {"y", "z"}, AgentDojo("s")) == [ONLY]
    ensures Select(R2_UNIVERSE, {"y", "z"}, InjecAgent) == []
  {
    assert R2_UNIVERSE == [] + [CAL2] + [CAL3] + [ONLY];
    assert "c"[0] == 'c' && "y"[0] == 'y' && "z"[0] == 'z';
    forall st ensures Select(R2_UNIVERSE, {"y", "z"}, st) == if st == AgentDojo("s") then [ONLY] else [] {
      SelectNext([], {"y", "z"}, st, CAL2);
      SelectNext([] + [CAL2], {"y", "z"}, st, CAL3);
      SelectNext([] + [CAL2] + [CAL3], {"y", "z"}, st, ONLY);
    }
  }

  lemma OnlyPrices(estimates: map<Stratum, real>)
    requires estimates == Estimates(["s", "s"], R2_PRICES, 1.0)
    ensures AgentDojo("s") in estimates && estimates[AgentDojo("s")] == 1.0
    ensures InjecAgent in estimates && estimates[InjecAgent] == 1.0
  {
    assert "s" in ["s", "s"];
  }

  lemma OnlyCandidate()
    ensures Candidates(TWICE, "s") == [ONLY] && FloorOf(TWICE, "s") == [ONLY] && TWICE.r3 == []
    ensures SuiteEstimate(TWICE, "s") == 1.0 && R3Cost(TWICE) == 1.0
  {
    OnlySelected();
    OnlyPrices(TWICE.estimates);
    FreezeOfIsFrom(R2_UNIVERSE, {"y", "z"}, ["s", "s"], R2_PRICES, TWICE.settings);
    assert "s" in TWICE.suites;
  }

  lemma FloorsTwice()
    ensures FloorPart(TWICE, TWICE.suites) == [ONLY, ONLY] && FloorCost(TWICE, TWICE.suites) == 2.0
    ensures FloorErrors(TWICE, TWICE.suites) == []
  {
    OnlyCandidate();
    assert ["s", "s"][..1] == ["s"] && ["s"][..0] == [];
    assert FloorPart(TWICE, ["s"]) == [ONLY] && FloorErrors(TWICE, ["s"]) == [];
    assert Times(1, 1.0) == Times(0, 1.0) + 1.0 == 1.0;
    assert FloorCost(TWICE, ["s"]) == 1.0;
  }

  lemma TwiceFrozen()
    ensures FrozenBy(TWICE, [], [ONLY, ONLY])
  {
    FreezeShaped(R2_UNIVERSE, {"y", "z"}, ["s", "s"], R2_PRICES, TWICE.settings);
    OnlyCandidate();
    FloorsTwice();
    NothingDrawn(TWICE);
    assert R3Part(TWICE) == [] && Drawn(TWICE, []) == [];
    assert [ONLY, ONLY] == [ONLY, ONLY] + [] + [];
  }

  lemma TwiceCharged()
    ensures EstimateOf(TWICE, [ONLY, ONLY], true) == 2.0
  {
    OnlyCandidate();
    OneEstimate(TWICE, ONLY, true);
    assert [ONLY, ONLY] == [ONLY] + [ONLY];
    EstimateConcat(TWICE, [ONLY], [ONLY], true);
  }

  lemma AllDistinct()
    ensures NoDuplicates(R2_UNIVERSE)
  {
    assert "c"[0] == 'c' && "y"[0] == 'y' && "z"[0] == 'z';
  }

  /** The only case that is not calibrated is selected, and charged, twice. */
  lemma RepeatedSuiteTwice()
    ensures PricesOf(R2_PRICES, R2_UNIVERSE, {"y", "z"}, PaidPairs([CAL2, CAL3]))
    ensures Priced(PaidPairs([CAL2, CAL3]), CAL2) && Priced(PaidPairs([CAL2, CAL3]), CAL3)
    ensures FrozenBy(TWICE, [], [ONLY, ONLY]) && From(TWICE, R2_UNIVERSE, {"y", "z"}) && NoDuplicates(R2_UNIVERSE)
    ensures EstimateOf(TWICE, [ONLY, ONLY], true) == 2.0
  {
    R2Prices();
    TwiceFrozen();
    TwiceCharged();
    FreezeOfIsFrom(R2_UNIVERSE, {"y", "z"}, ["s", "s"], R2_PRICES, TWICE.settings);
    AllDistinct();
  }
}
