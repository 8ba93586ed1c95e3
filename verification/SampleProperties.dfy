/** What every frozen sample manifest guarantees. */
module SampleProperties {
  import opened PyLists
  import opened Sampler
  import G = GreedyAllocation

  // ---------------------------------------------------------------- strata of a selection

  lemma {:induction false} SelectConcat(a: seq<Case>, b: seq<Case>, excluded: set<string>, st: Stratum)
    ensures Select(a + b, excluded, st) == Select(a, excluded, st) + Select(b, excluded, st)
  {
    if b == [] {
      assert a + b == a;
    } else {
      assert (a + b)[..|a + b| - 1] == a + b[..|b| - 1];
      SelectConcat(a, b[..|b| - 1], excluded, st);
    }
  }

  /** The selection of a one-stratum list is all of it or nothing. */
  lemma {:induction false} SelectUniform(s: seq<Case>, own: Stratum, st: Stratum)
    requires forall i :: 0 <= i < |s| ==> s[i].stratum == own
    ensures Select(s, {}, st) == if own == st then s else []
  {
    if s != [] {
      SelectUniform(s[..|s| - 1], own, st);
      assert s == s[..|s| - 1] + [s[|s| - 1]];
    }
  }

  function Repeat<T>(s: seq<T>, n: nat): seq<T> {
    if n == 0 then [] else Repeat(s, n - 1) + s
  }

  lemma FloorPartStep(f: Freeze, suites: seq<string>)
    requires suites != [] && FloorAvailable(f, suites[|suites| - 1])
    ensures FloorPart(f, suites) == FloorPart(f, suites[..|suites| - 1]) + FloorOf(f, suites[|suites| - 1])
  {
  }

  lemma FloorUniform(f: Freeze, s: string, st: Stratum)
    requires Shaped(f)
    ensures Select(FloorOf(f, s), {}, st) == if st == AgentDojo(s) then FloorOf(f, s) else []
  {
    SelectUniform(FloorOf(f, s), AgentDojo(s), st);
  }

  lemma {:induction false} FloorStrata(f: Freeze, suites: seq<string>, st: Stratum)
    requires Shaped(f) && forall s :: s in suites ==> FloorAvailable(f, s)
    ensures Select(FloorPart(f, suites), {}, st)
         == if st.AgentDojo? then Repeat(FloorOf(f, st.suite), Count(suites, st.suite)) else []
  {
    if suites != [] {
      var m := |suites| - 1;
      assert suites[m] in suites;
      FloorStrata(f, suites[..m], st);
      FloorPartStep(f, suites);
      FloorUniform(f, suites[m], st);
      SelectConcat(FloorPart(f, suites[..m]), FloorOf(f, suites[m]), {}, st);
    }
  }

  /** Every pick found a candidate of its suite still unused. */
  ghost predicate Fits(f: Freeze, picks: seq<string>) {
    picks == [] || (Fits(f, picks[..|picks| - 1]) && NextFits(f, picks[..|picks| - 1], picks[|picks| - 1]))
  }

  lemma NextDrawnStratum(f: Freeze, picks: seq<string>, s: string)
    requires Shaped(f) && NextFits(f, picks, s)
    ensures NextDrawn(f, picks, s).stratum == AgentDojo(s)
  {
  }

  lemma DrawnStep(f: Freeze, picks: seq<string>, s: string, st: Stratum)
    requires Shaped(f) && NextFits(f, picks, s)
    ensures Select(Drawn(f, picks + [s]), {}, st)
         == Select(Drawn(f, picks), {}, st) + if st == AgentDojo(s) then [NextDrawn(f, picks, s)] else []
  {
    var next := NextDrawn(f, picks, s);
    NextDrawnStratum(f, picks, s);
    DrawnUnfold(f, picks, s);
    SelectUniform([next], AgentDojo(s), st);
    SelectConcat(Drawn(f, picks), [next], {}, st);
  }

  lemma {:induction false} DrawnElsewhere(f: Freeze, picks: seq<string>, st: Stratum)
    requires Shaped(f) && Fits(f, picks)
    requires st.AgentDojo? ==> Count(picks, st.suite) == 0
    ensures Select(Drawn(f, picks), {}, st) == []
  {
    if picks != [] {
      var m := |picks| - 1;
      assert picks[..m] + [picks[m]] == picks;
      DrawnElsewhere(f, picks[..m], st);
      DrawnStep(f, picks[..m], picks[m], st);
    }
  }

  lemma DrawnStrataStep(f: Freeze, picks: seq<string>, last: string, s: string, drawn: seq<Case>)
    requires Shaped(f) && NextFits(f, picks, last) && s in f.pool
    requires f.settings.floor + Count(picks, s) <= |f.pool[s]|
    requires drawn == f.pool[s][f.settings.floor..f.settings.floor + Count(picks, s)]
    ensures Count(picks + [last], s) == Count(picks, s) + if last == s then 1 else 0
    ensures f.settings.floor + Count(picks + [last], s) <= |f.pool[s]|
    ensures drawn + (if AgentDojo(s) == AgentDojo(last) then [NextDrawn(f, picks, last)] else [])
         == f.pool[s][f.settings.floor..f.settings.floor + Count(picks + [last], s)]
  {
    assert (picks + [last])[..|picks|] == picks;
    if last == s { SliceExtend(f.pool[s], f.settings.floor, f.settings.floor + Count(picks, s)); }
  }

  /** What the suite's draws are: the slice that follows its floor. */
  ghost predicate DrawnSlice(f: Freeze, picks: seq<string>, s: string)
    requires s in f.pool
  {
    && f.settings.floor + Count(picks, s) <= |f.pool[s]|
    && Select(Drawn(f, picks), {}, AgentDojo(s)) == f.pool[s][f.settings.floor..f.settings.floor + Count(picks, s)]
  }

  lemma DrawnStrataNext(f: Freeze, picks: seq<string>, last: string, s: string)
    requires Shaped(f) && NextFits(f, picks, last) && s in f.pool && DrawnSlice(f, picks, s)
    ensures DrawnSlice(f, picks + [last], s)
  {
    DrawnStep(f, picks, last, AgentDojo(s));
    DrawnStrataStep(f, picks, last, s, Select(Drawn(f, picks), {}, AgentDojo(s)));
  }

  lemma NothingDrawnYet(f: Freeze, s: string)
    requires s in f.pool && f.settings.floor <= |f.pool[s]|
    ensures DrawnSlice(f, [], s)
  {
  }

  lemma {:induction false} DrawnStrata(f: Freeze, picks: seq<string>, s: string, n: nat)
    requires Shaped(f) && Fits(f, picks) && s in f.pool && f.settings.floor <= |f.pool[s]| && n <= |picks|
    ensures DrawnSlice(f, picks[..n], s)
  {
    if n == 0 {
      NothingDrawnYet(f, s);
    } else {
      DrawnStrata(f, picks, s, n - 1);
      FitsAt(f, picks, n - 1);
      DrawnStrataNext(f, picks[..n - 1], picks[n - 1], s);
      assert picks[..n - 1] + [picks[n - 1]] == picks[..n];
    }
  }

  lemma {:induction false} FitsAt(f: Freeze, picks: seq<string>, n: nat)
    requires Fits(f, picks) && n < |picks|
    ensures NextFits(f, picks[..n], picks[n])
  {
    var m := |picks| - 1;
    if n < m {
      assert picks[..m][..n] == picks[..n];
      FitsAt(f, picks[..m], n);
    }
  }

  lemma SliceExtend<T>(s: seq<T>, i: nat, j: nat)
    requires i <= j < |s|
    ensures s[i..j + 1] == s[i..j] + [s[j]]
  {
  }

  /** The selection behind a frozen manifest, without the history of how it was allocated. */
  ghost predicate Sampled(f: Freeze, picks: seq<string>, selected: seq<Case>) {
    && Shaped(f)
    && selected == FloorPart(f, f.suites) + Drawn(f, picks) + R3Part(f)
    && (forall s :: s in f.suites ==> FloorAvailable(f, s))
    && Fits(f, picks)
  }

  /** The allocation problem of a frozen manifest is well formed and its floors fit the cap. */
  lemma {:induction false} TraceFits(f: Freeze, picks: seq<string>)
    requires Shaped(f) && G.Trace(Problem(f), picks)
    ensures Fits(f, picks)
  {
    if picks != [] {
      TraceFits(f, picks[..|picks| - 1]);
      assert G.HasLeft(Problem(f), picks[..|picks| - 1], picks[|picks| - 1]);
    }
  }

  lemma FrozenIsSampled(f: Freeze, picks: seq<string>, selected: seq<Case>)
    requires FrozenBy(f, picks, selected)
    ensures Sampled(f, picks, selected)
    ensures G.Valid(Problem(f)) && Problem(f).base <= Problem(f).cap + EPS
  {
    FloorErrorsNone(f, f.suites);
    ProblemValid(f);
    TraceFits(f, picks);
  }

  lemma R3Strata(f: Freeze, st: Stratum)
    requires Shaped(f)
    ensures Select(R3Part(f), {}, st) == if st.InjecAgent? then R3Part(f) else []
  {
    SelectUniform(R3Part(f), InjecAgent, st);
  }

  lemma SelectedStrata(f: Freeze, picks: seq<string>, selected: seq<Case>, st: Stratum)
    requires Sampled(f, picks, selected)
    ensures Select(selected, {}, st) == Select(FloorPart(f, f.suites), {}, st) + Select(Drawn(f, picks), {}, st)
            + Select(R3Part(f), {}, st)
  {
    SelectConcat(FloorPart(f, f.suites) + Drawn(f, picks), R3Part(f), {}, st);
    SelectConcat(FloorPart(f, f.suites), Drawn(f, picks), {}, st);
  }

  lemma AllDrawn(f: Freeze, picks: seq<string>, s: string)
    requires Shaped(f) && Fits(f, picks) && s in f.pool && f.settings.floor <= |f.pool[s]|
    ensures DrawnSlice(f, picks, s)
  {
    DrawnStrata(f, picks, s, |picks|);
    assert picks[..|picks|] == picks;
  }

  lemma SuiteParts(f: Freeze, picks: seq<string>, selected: seq<Case>, suite: string)
    requires Sampled(f, picks, selected) && suite in f.suites
    ensures suite in f.pool && DrawnSlice(f, picks, suite)
    ensures Select(FloorPart(f, f.suites), {}, AgentDojo(suite)) == Repeat(FloorOf(f, suite), Count(f.suites, suite))
    ensures Select(R3Part(f), {}, AgentDojo(suite)) == []
  {
    FloorStrata(f, f.suites, AgentDojo(suite));
    AllDrawn(f, picks, suite);
    R3Strata(f, AgentDojo(suite));
  }

  /** A suite's share of the selection: its floor, once per listing, then the picks that follow. */
  lemma SuitePicks(f: Freeze, picks: seq<string>, selected: seq<Case>, suite: string)
    requires Sampled(f, picks, selected) && suite in f.suites
    ensures f.settings.floor + Count(picks, suite) <= |Candidates(f, suite)|
    ensures Select(selected, {}, AgentDojo(suite))
         == Repeat(FloorOf(f, suite), Count(f.suites, suite))
            + Candidates(f, suite)[f.settings.floor..f.settings.floor + Count(picks, suite)]
  {
    SuiteParts(f, picks, selected, suite);
    SelectedStrata(f, picks, selected, AgentDojo(suite));
    NothingElse(Select(FloorPart(f, f.suites), {}, AgentDojo(suite)) + Select(Drawn(f, picks), {}, AgentDojo(suite)),
                Select(R3Part(f), {}, AgentDojo(suite)));
  }

  lemma NothingElse<T>(s: seq<T>, rest: seq<T>)
    requires rest == []
    ensures s + rest == s
  {
  }

  lemma R3Picks(f: Freeze, picks: seq<string>, selected: seq<Case>)
    requires Sampled(f, picks, selected)
    ensures Select(selected, {}, InjecAgent) == R3Part(f)
  {
    FloorStrata(f, f.suites, InjecAgent);
    DrawnElsewhere(f, picks, InjecAgent);
    R3Strata(f, InjecAgent);
    SelectedStrata(f, picks, selected, InjecAgent);
  }

  lemma PrefixOnce<T>(s: seq<T>, a: nat, n: nat, times: nat)
    requires a <= n <= |s| && times == 1
    ensures Repeat(Take(s, a), times) + s[a..n] == s[..n]
  {
    assert Repeat(Take(s, a), 1) == Repeat(Take(s, a), 0) + Take(s, a) == s[..a];
  }

  /** How many floors and how many picks a suite contributes, apart from how the sample came about. */
  lemma FloorsAndPicks(f: Freeze, picks: seq<string>, selected: seq<Case>, suite: string) returns (n: nat, k: nat)
    requires Sampled(f, picks, selected) && suite in f.suites
    ensures n == Count(f.suites, suite) && k == f.settings.floor + Count(picks, suite) <= |Candidates(f, suite)|
    ensures Select(selected, {}, AgentDojo(suite))
         == Repeat(Take(Candidates(f, suite), f.settings.floor), n) + Candidates(f, suite)[f.settings.floor..k]
  {
    n, k := Count(f.suites, suite), f.settings.floor + Count(picks, suite);
    SuitePicks(f, picks, selected, suite);
  }

  lemma OnceListed(f: Freeze, picks: seq<string>, selected: seq<Case>, suite: string)
    requires Sampled(f, picks, selected) && suite in f.suites && Count(f.suites, suite) == 1
    ensures f.settings.floor + Count(picks, suite) <= |Candidates(f, suite)|
    ensures Select(selected, {}, AgentDojo(suite)) == Candidates(f, suite)[..f.settings.floor + Count(picks, suite)]
  {
    var n, k := FloorsAndPicks(f, picks, selected, suite);
    PrefixOnce(Candidates(f, suite), f.settings.floor, k, n);
  }

  /**
   When suites are listed once, each suite's picks are exactly a prefix of its rank order, at
   least the floor long and never past its candidates.
   */
  lemma PicksArePrefix(f: Freeze, picks: seq<string>, selected: seq<Case>, suite: string)
    requires FrozenBy(f, picks, selected) && NoDuplicates(f.suites) && suite in f.suites
    ensures var n := f.settings.floor + Count(picks, suite);
            && f.settings.floor <= n <= |Candidates(f, suite)|
            && Select(selected, {}, AgentDojo(suite)) == Candidates(f, suite)[..n]
  {
    FrozenIsSampled(f, picks, selected);
    CountOnce(f.suites, suite);
    OnceListed(f, picks, selected, suite);
  }

  // ---------------------------------------------------------------- no repeats, no calibration cases

  lemma {:induction false} CountSelect(s: seq<Case>, c: Case)
    ensures Count(Select(s, {}, c.stratum), c) == Count(s, c)
  {
    if s != [] {
      var last := s[|s| - 1];
      CountSelect(s[..|s| - 1], c);
      if last.stratum == c.stratum {
        var rest := Select(s[..|s| - 1], {}, c.stratum);
        assert (rest + [last])[..|rest|] == rest;
      }
    }
  }

  lemma {:induction false} CountSelectAtMost(s: seq<Case>, excluded: set<string>, st: Stratum, c: Case)
    ensures Count(Select(s, excluded, st), c) <= Count(s, c)
  {
    if s != [] {
      var rest := Select(s[..|s| - 1], excluded, st);
      CountSelectAtMost(s[..|s| - 1], excluded, st, c);
      assert (rest + [s[|s| - 1]])[..|rest|] == rest;
    }
  }

  lemma CountSlice<T>(s: seq<T>, i: nat, j: nat, x: T)
    requires i <= j <= |s|
    ensures Count(s[..i], x) + Count(s[i..j], x) <= Count(s, x)
  {
    assert s[..i] + s[i..j] == s[..j];
    CountConcat(s[..i], s[i..j], x);
    CountPrefix(s, j, x);
  }

  lemma {:induction false} RepeatEmpty<T>(s: seq<T>, n: nat)
    requires s == []
    ensures Repeat(s, n) == []
  {
    if n > 0 { RepeatEmpty(s, n - 1); }
  }

  lemma {:induction false} CountRepeat<T>(s: seq<T>, n: nat, x: T)
    requires x in s
    ensures Count(Repeat(s, n), x) >= n
  {
    if n > 0 {
      CountRepeat(s, n - 1, x);
      CountConcat(Repeat(s, n - 1), s, x);
      CountPositive(s, x);
    }
  }

  lemma {:induction false} OffListUnpicked(f: Freeze, picks: seq<string>, suite: string)
    requires Fits(f, picks) && suite !in f.suites
    ensures Count(picks, suite) == 0
  {
    if picks != [] { OffListUnpicked(f, picks[..|picks| - 1], suite); }
  }

  lemma OffListEmpty(f: Freeze, picks: seq<string>, selected: seq<Case>, suite: string)
    requires Sampled(f, picks, selected) && suite !in f.suites
    ensures Select(selected, {}, AgentDojo(suite)) == []
  {
    CountPositive(f.suites, suite);
    FloorStrata(f, f.suites, AgentDojo(suite));
    OffListUnpicked(f, picks, suite);
    DrawnElsewhere(f, picks, AgentDojo(suite));
    R3Strata(f, AgentDojo(suite));
    SelectedStrata(f, picks, selected, AgentDojo(suite));
  }

  /** The frozen problem was built from this universe and these excluded case keys. */
  ghost predicate From(f: Freeze, universe: seq<Case>, excluded: set<string>) {
    && (forall s :: s in f.suites ==> s in f.pool)
    && (forall s :: s in f.pool ==> f.pool[s] == Select(universe, excluded, AgentDojo(s)))
    && (forall s :: s in f.suites ==> s in f.size && f.size[s] == |Select(universe, {}, AgentDojo(s))|)
    && f.r3 == Select(universe, excluded, InjecAgent)
  }

  lemma FreezeOfIsFrom(universe: seq<Case>, calibration: set<string>, suites: seq<string>, prices: map<Stratum, real>,
                       settings: Settings)
    ensures From(FreezeOf(universe, calibration, suites, prices, settings), universe, calibration)
  {
  }

  lemma CandidateAtMostOnce(universe: seq<Case>, excluded: set<string>, st: Stratum, c: Case)
    requires NoDuplicates(universe)
    ensures Count(Select(universe, excluded, st), c) <= 1
  {
    OnceEach(universe);
    CountSelectAtMost(universe, excluded, st, c);
  }

  lemma SliceAtMostOnce(own: seq<Case>, i: nat, j: nat, c: Case)
    requires i <= j <= |own| && Count(own, c) <= 1
    ensures Count(own[..j], c) <= 1 && Count(own[i..j], c) <= 1
  {
    CountPrefix(own, j, c);
    CountSlice(own, i, j, c);
  }

  lemma OneFloorOrNone(s: seq<Case>, i: nat, j: nat, n: nat, c: Case)
    requires i <= j <= |s| && (n == 1 || i == 0) && Count(s, c) <= 1
    ensures Count(Repeat(Take(s, i), n) + s[i..j], c) <= 1
  {
    SliceAtMostOnce(s, i, j, c);
    if i == 0 {
      RepeatEmpty(Take(s, i), n);
      assert [] + s[i..j] == s[i..j];
    } else {
      PrefixOnce(s, i, j, n);
    }
  }

  lemma SuiteAtMostOnce(f: Freeze, picks: seq<string>, selected: seq<Case>, suite: string, c: Case)
    requires Sampled(f, picks, selected) && suite in f.suites && Count(Candidates(f, suite), c) <= 1
    requires Count(f.suites, suite) == 1 || f.settings.floor == 0
    ensures Count(Select(selected, {}, AgentDojo(suite)), c) <= 1
  {
    var n, k := FloorsAndPicks(f, picks, selected, suite);
    OneFloorOrNone(Candidates(f, suite), f.settings.floor, k, n, c);
  }

  lemma R3AtMostOnce(f: Freeze, picks: seq<string>, selected: seq<Case>, c: Case)
    requires Sampled(f, picks, selected) && Count(f.r3, c) <= 1
    ensures Count(Select(selected, {}, InjecAgent), c) <= 1
  {
    R3Picks(f, picks, selected);
    CountPrefix(f.r3, |R3Part(f)|, c);
  }

  lemma ListedOnce(f: Freeze, suite: string)
    requires suite in f.suites && (NoDuplicates(f.suites) || f.settings.floor == 0)
    ensures Count(f.suites, suite) == 1 || f.settings.floor == 0
  {
    if NoDuplicates(f.suites) { CountOnce(f.suites, suite); }
  }

  lemma FromCandidates(f: Freeze, universe: seq<Case>, excluded: set<string>, suite: string)
    requires From(f, universe, excluded) && suite in f.suites
    ensures Candidates(f, suite) == Select(universe, excluded, AgentDojo(suite))
  {
  }

  lemma AtMostOnce(f: Freeze, universe: seq<Case>, excluded: set<string>, picks: seq<string>, selected: seq<Case>,
                   c: Case)
    requires Sampled(f, picks, selected) && From(f, universe, excluded) && NoDuplicates(universe)
    requires NoDuplicates(f.suites) || f.settings.floor == 0
    ensures Count(selected, c) <= 1
  {
    CountSelect(selected, c);
    CandidateAtMostOnce(universe, excluded, c.stratum, c);
    if c.stratum.InjecAgent? {
      R3AtMostOnce(f, picks, selected, c);
    } else if c.stratum.suite in f.suites {
      ListedOnce(f, c.stratum.suite);
      FromCandidates(f, universe, excluded, c.stratum.suite);
      SuiteAtMostOnce(f, picks, selected, c.stratum.suite, c);
    } else {
      OffListEmpty(f, picks, selected, c.stratum.suite);
    }
  }

  lemma RepeatedFloorRepeats(own: seq<Case>, floor: nat, n: nat, rest: seq<Case>)
    requires 0 < floor <= |own|
    ensures Count(Repeat(Take(own, floor), n) + rest, own[0]) >= n
  {
    assert Take(own, floor)[0] == own[0];
    CountRepeat(Take(own, floor), n, own[0]);
    CountConcat(Repeat(Take(own, floor), n), rest, own[0]);
  }

  lemma FirstCandidate(f: Freeze, suite: string)
    requires Shaped(f) && suite in f.suites && Candidates(f, suite) != []
    ensures Candidates(f, suite)[0].stratum == AgentDojo(suite)
  {
  }

  lemma RepeatedSuiteRepeats(f: Freeze, picks: seq<string>, selected: seq<Case>, suite: string)
    requires Sampled(f, picks, selected) && f.settings.floor > 0 && Count(f.suites, suite) > 1
    ensures exists c :: Count(selected, c) > 1
  {
    CountPositive(f.suites, suite);
    var own := Candidates(f, suite);
    var n, k := FloorsAndPicks(f, picks, selected, suite);
    RepeatedFloorRepeats(own, f.settings.floor, n, own[f.settings.floor..k]);
    FirstCandidate(f, suite);
    CountSelect(selected, own[0]);
  }

  /**
   The sample repeats no case exactly when the configuration lists no suite twice (or asks for
   no floor): the code charges and selects the floor once per listing.
   */
  lemma NoRepeatedCase(f: Freeze, universe: seq<Case>, excluded: set<string>, picks: seq<string>, selected: seq<Case>)
    requires FrozenBy(f, picks, selected) && From(f, universe, excluded) && NoDuplicates(universe)
    ensures NoDuplicates(selected) <==> NoDuplicates(f.suites) || f.settings.floor == 0
  {
    FrozenIsSampled(f, picks, selected);
    OnceEach(selected);
    if NoDuplicates(f.suites) || f.settings.floor == 0 {
      forall c ensures Count(selected, c) <= 1 { AtMostOnce(f, universe, excluded, picks, selected, c); }
    } else {
      OnceEach(f.suites);
      var suite :| Count(f.suites, suite) > 1;
      RepeatedSuiteRepeats(f, picks, selected, suite);
    }
  }

  /** No calibration case is ever sampled, and every sampled case comes from the universe. */
  lemma CalibrationExcluded(f: Freeze, universe: seq<Case>, excluded: set<string>, picks: seq<string>,
                            selected: seq<Case>, c: Case)
    requires FrozenBy(f, picks, selected) && From(f, universe, excluded) && c in selected
    ensures c.key !in excluded && c in universe
  {
    FrozenIsSampled(f, picks, selected);
    CandidatesAmongAll(universe, excluded, c.stratum);
    CountPositive(selected, c);
    CountSelect(selected, c);
    CountPositive(Select(selected, {}, c.stratum), c);
    if c.stratum.InjecAgent? {
      R3Picks(f, picks, selected);
    } else if c.stratum.suite in f.suites {
      SuitePicks(f, picks, selected, c.stratum.suite);
      RepeatMembers(FloorOf(f, c.stratum.suite), Count(f.suites, c.stratum.suite), c);
    } else {
      OffListEmpty(f, picks, selected, c.stratum.suite);
    }
  }

  lemma {:induction false} RepeatMembers<T>(s: seq<T>, n: nat, x: T)
    ensures x in Repeat(s, n) ==> x in s
  {
    if n > 0 { RepeatMembers(s, n - 1, x); }
  }

  // ---------------------------------------------------------------- money

  /** The conservative cost of the selected cases of one benchmark. */
  function EstimateOf(f: Freeze, selected: seq<Case>, r2: bool): real {
    if selected == [] then 0.0 else
      var c := selected[|selected| - 1];
      EstimateOf(f, selected[..|selected| - 1], r2)
      + if c.stratum.AgentDojo? == r2 then Estimate(f, c.stratum) else 0.0
  }

  lemma {:induction false} EstimateConcat(f: Freeze, a: seq<Case>, b: seq<Case>, r2: bool)
    ensures EstimateOf(f, a + b, r2) == EstimateOf(f, a, r2) + EstimateOf(f, b, r2)
  {
    if b == [] {
      assert a + b == a;
    } else {
      assert (a + b)[..|a + b| - 1] == a + b[..|b| - 1];
      EstimateConcat(f, a, b[..|b| - 1], r2);
    }
  }

  lemma {:induction false} EstimateUniform(f: Freeze, s: seq<Case>, own: Stratum, r2: bool)
    requires forall i :: 0 <= i < |s| ==> s[i].stratum == own
    ensures EstimateOf(f, s, r2) == if own.AgentDojo? == r2 then Times(|s|, Estimate(f, own)) else 0.0
  {
    if s != [] { EstimateUniform(f, s[..|s| - 1], own, r2); }
  }

  lemma FloorOfEstimate(f: Freeze, s: string)
    requires Shaped(f) && FloorAvailable(f, s)
    ensures EstimateOf(f, FloorOf(f, s), true) == Times(f.settings.floor, SuiteEstimate(f, s))
    ensures EstimateOf(f, FloorOf(f, s), false) == 0.0
  {
    EstimateUniform(f, FloorOf(f, s), AgentDojo(s), true);
    EstimateUniform(f, FloorOf(f, s), AgentDojo(s), false);
  }

  lemma FloorCostStep(f: Freeze, suites: seq<string>)
    requires Shaped(f) && suites != [] && FloorAvailable(f, suites[|suites| - 1])
    ensures FloorCost(f, suites) == FloorCost(f, suites[..|suites| - 1])
            + EstimateOf(f, FloorOf(f, suites[|suites| - 1]), true)
  {
    FloorOfEstimate(f, suites[|suites| - 1]);
  }

  lemma {:induction false} FloorEstimate(f: Freeze, suites: seq<string>)
    requires Shaped(f) && forall s :: s in suites ==> FloorAvailable(f, s)
    ensures EstimateOf(f, FloorPart(f, suites), true) == FloorCost(f, suites)
    ensures EstimateOf(f, FloorPart(f, suites), false) == 0.0
  {
    if suites != [] {
      var m := |suites| - 1;
      assert suites[m] in suites;
      FloorEstimate(f, suites[..m]);
      FloorPartStep(f, suites);
      FloorCostStep(f, suites);
      FloorOfEstimate(f, suites[m]);
      EstimateConcat(f, FloorPart(f, suites[..m]), FloorOf(f, suites[m]), true);
      EstimateConcat(f, FloorPart(f, suites[..m]), FloorOf(f, suites[m]), false);
    }
  }

  lemma OneEstimate(f: Freeze, c: Case, r2: bool)
    ensures EstimateOf(f, [c], r2) == if c.stratum.AgentDojo? == r2 then Estimate(f, c.stratum) else 0.0
  {
    assert [c][..0] == [];
  }

  lemma DrawnEstimateStep(f: Freeze, picks: seq<string>, s: string, r2: bool)
    requires Shaped(f) && NextFits(f, picks, s)
    ensures EstimateOf(f, Drawn(f, picks + [s]), r2)
            == EstimateOf(f, Drawn(f, picks), r2) + if r2 then SuiteEstimate(f, s) else 0.0
  {
    NextDrawnStratum(f, picks, s);
    DrawnUnfold(f, picks, s);
    OneEstimate(f, NextDrawn(f, picks, s), r2);
    EstimateConcat(f, Drawn(f, picks), [NextDrawn(f, picks, s)], r2);
  }

  lemma {:induction false} DrawnEstimate(f: Freeze, picks: seq<string>)
    requires Shaped(f) && Fits(f, picks)
    ensures EstimateOf(f, Drawn(f, picks), true) == G.Spent(Problem(f), picks) - Problem(f).base
    ensures EstimateOf(f, Drawn(f, picks), false) == 0.0
  {
    if picks != [] {
      var m := |picks| - 1;
      assert picks[..m] + [picks[m]] == picks;
      DrawnEstimate(f, picks[..m]);
      DrawnEstimateStep(f, picks[..m], picks[m], true);
      DrawnEstimateStep(f, picks[..m], picks[m], false);
      assert G.CostOf(Problem(f), picks[m]) == SuiteEstimate(f, picks[m]);
    }
  }

  lemma R3Estimate(f: Freeze)
    requires Shaped(f)
    ensures EstimateOf(f, R3Part(f), false) == Times(|R3Part(f)|, R3Cost(f))
    ensures EstimateOf(f, R3Part(f), true) == 0.0
  {
    EstimateUniform(f, R3Part(f), InjecAgent, true);
    EstimateUniform(f, R3Part(f), InjecAgent, false);
  }

  /** The conservative cost of a frozen manifest, benchmark by benchmark. */
  lemma SelectedEstimate(f: Freeze, picks: seq<string>, selected: seq<Case>)
    requires FrozenBy(f, picks, selected)
    ensures EstimateOf(f, selected, true) == G.Spent(Problem(f), picks)
    ensures EstimateOf(f, selected, false) == Times(|R3Part(f)|, R3Cost(f))
  {
    FrozenIsSampled(f, picks, selected);
    FloorEstimate(f, f.suites);
    DrawnEstimate(f, picks);
    R3Estimate(f);
    var a, b, c := FloorPart(f, f.suites), Drawn(f, picks), R3Part(f);
    EstimateConcat(f, a + b, c, true);
    EstimateConcat(f, a + b, c, false);
    EstimateConcat(f, a, b, true);
    EstimateConcat(f, a, b, false);
  }

  /**
   The R2 sample stays within its cap (up to the code's tolerance), and it is maximal: no suite
   with a candidate left could afford one more pair.
   */
  lemma R2WithinCapAndMaximal(f: Freeze, picks: seq<string>, selected: seq<Case>)
    requires FrozenBy(f, picks, selected)
    ensures EstimateOf(f, selected, true) <= f.settings.r2Cap + EPS
    ensures forall s :: s in f.suites && f.settings.floor + Count(picks, s) < |Candidates(f, s)| ==>
              EstimateOf(f, selected, true) + SuiteEstimate(f, s) > f.settings.r2Cap + EPS
  {
    FrozenIsSampled(f, picks, selected);
    SelectedEstimate(f, picks, selected);
    G.WithinLimits(Problem(f), picks);
    forall s | s in f.suites && f.settings.floor + Count(picks, s) < |Candidates(f, s)|
      ensures G.Spent(Problem(f), picks) + SuiteEstimate(f, s) > f.settings.r2Cap + EPS
    {
      assert !G.Eligible(Problem(f), picks, s);
    }
  }

  lemma Quotient(cap: real, cost: real, n: int)
    requires cost > 0.0
    ensures n <= (cap / cost).Floor <==> n as real * cost <= cap
  {
    var q := cap / cost;
    assert q * cost == cap;
    if n <= q.Floor {
      assert n as real <= q;
      assert (q - n as real) * cost >= 0.0;
    } else {
      assert n as real > q;
      assert (n as real - q) * cost > 0.0;
    }
  }

  /** The number of R3 pairs is the floor of cap over cost, as Python's `//` computes it. */
  ghost predicate R3Divided(f: Freeze) {
    R3Cost(f) > 0.0 ==> f.r3Pairs == (f.settings.r3Cap / R3Cost(f)).Floor
  }

  lemma FreezeOfDivided(universe: seq<Case>, calibration: set<string>, suites: seq<string>,
                        prices: map<Stratum, real>, settings: Settings)
    ensures R3Divided(FreezeOf(universe, calibration, suites, prices, settings))
  {
  }

  lemma LongestPrefix(f: Freeze, n: nat)
    requires R3Cost(f) > 0.0 && R3Divided(f) && n <= |f.r3|
    ensures Times(|R3Part(f)|, R3Cost(f)) <= f.settings.r3Cap <==> f.settings.r3Cap >= 0.0
    ensures f.settings.r3Cap >= 0.0 ==> (n <= |R3Part(f)| <==> Times(n, R3Cost(f)) <= f.settings.r3Cap)
  {
    var k, cap, cost := |R3Part(f)|, f.settings.r3Cap, R3Cost(f);
    Quotient(cap, cost, 0);
    Quotient(cap, cost, k);
    Quotient(cap, cost, n);
    TimesIsProduct(k, cost);
    TimesIsProduct(n, cost);
    assert k as real * cost >= 0.0;
  }

  /**
   The R3 estimate stays within its cap. A negative cap breaks this: Python's slice then counts
   from the end, so the cap is met exactly when it is not negative.
   */
  lemma R3WithinCap(f: Freeze, picks: seq<string>, selected: seq<Case>)
    requires FrozenBy(f, picks, selected) && R3Divided(f)
    ensures EstimateOf(f, selected, false) <= f.settings.r3Cap <==> f.settings.r3Cap >= 0.0
  {
    SelectedEstimate(f, picks, selected);
    LongestPrefix(f, 0);
  }

  /** The R3 sample is the longest prefix of the rank order that its cap pays for. */
  lemma R3LongestPrefix(f: Freeze, picks: seq<string>, selected: seq<Case>, n: nat)
    requires FrozenBy(f, picks, selected) && R3Divided(f) && n <= |f.r3| && f.settings.r3Cap >= 0.0
    ensures Select(selected, {}, InjecAgent) <= f.r3
    ensures n <= |Select(selected, {}, InjecAgent)| <==> Times(n, R3Cost(f)) <= f.settings.r3Cap
  {
    FrozenIsSampled(f, picks, selected);
    R3Picks(f, picks, selected);
    LongestPrefix(f, n);
  }

  lemma ProblemReads(f: Freeze, picks: seq<string>, s: string)
    requires Shaped(f) && s in f.suites
    ensures s in Problem(f).size && Problem(f).size[s] == f.size[s]
    ensures G.Taken(Problem(f), picks, s) == f.settings.floor + Count(picks, s)
    ensures G.CostOf(Problem(f), s) == SuiteEstimate(f, s)
    ensures f.settings.floor + Count(picks, s) < |Candidates(f, s)| ==> G.HasLeft(Problem(f), picks, s)
  {
  }

  lemma PickedFair(f: Freeze, picks: seq<string>, selected: seq<Case>, s: string, t: string, a: int, m: int, b: int,
                   n: int)
    requires FrozenBy(f, picks, selected) && s in f.suites && t in f.suites && Count(picks, s) > 0
    requires f.settings.floor + Count(picks, t) < |Candidates(f, t)| && SuiteEstimate(f, t) <= SuiteEstimate(f, s)
    requires a == f.settings.floor + Count(picks, s) && b == f.settings.floor + Count(picks, t)
    requires m == f.size[s] && n == f.size[t]
    ensures (a - 1) * n <= b * m
  {
    FrozenIsSampled(f, picks, selected);
    ProblemReads(f, picks, s);
    ProblemReads(f, picks, t);
    CountPositive(picks, s);
    G.FinalProportion(Problem(f), picks, s, t, a, m, b, n);
  }

  lemma PickedLength(f: Freeze, picks: seq<string>, selected: seq<Case>, suite: string)
    requires FrozenBy(f, picks, selected) && NoDuplicates(f.suites) && suite in f.suites
    ensures Shaped(f) && |Select(selected, {}, AgentDojo(suite))| == f.settings.floor + Count(picks, suite)
  {
    PicksArePrefix(f, picks, selected, suite);
  }

  /**
   The final sample is proportional: with N the size of a suite, a suite taken above its floor has
   (picked - 1) / N at most picked' / N' of any suite that costs no more and has candidates left.
   Here a and b are the numbers picked of s and t.
   */
  lemma SampleIsFair(f: Freeze, picks: seq<string>, selected: seq<Case>, s: string, t: string, a: nat, b: nat)
    requires FrozenBy(f, picks, selected) && NoDuplicates(f.suites) && s in f.suites && t in f.suites
    requires a == |Select(selected, {}, AgentDojo(s))| && b == |Select(selected, {}, AgentDojo(t))|
    requires a > f.settings.floor && b < |Candidates(f, t)| && SuiteEstimate(f, t) <= SuiteEstimate(f, s)
    ensures (a - 1) * f.size[t] <= b * f.size[s]
  {
    PickedLength(f, picks, selected, s);
    PickedLength(f, picks, selected, t);
    PickedFair(f, picks, selected, s, t, a, f.size[s], b, f.size[t]);
  }
}
