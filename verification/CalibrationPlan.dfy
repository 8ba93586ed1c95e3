/**
 Building the budget plan (scripts/run_r2_r3_acceptance.py): the universe of distinct cases in
 rank order, the calibration cases taken from the front of every stratum, and how the main
 sample continues where calibration stopped.
 */
module CalibrationPlan {

  import opened PyLists
  import opened Sampler
  import opened SampleProperties
  import Sorting
  import opened Wrappers

  // ---------------------------------------------------------------- distinct cases

  function Keys(cases: seq<Case>): set<string> {
    if cases == [] then {} else Keys(cases[..|cases| - 1]) + {cases[|cases| - 1].key}
  }

  ghost predicate DistinctKeys(cases: seq<Case>) {
    forall i, j :: 0 <= i < j < |cases| ==> cases[i].key != cases[j].key
  }

  /** The first case of every key, in order. */
  function FirstByKey(items: seq<Case>): seq<Case> {
    if items == [] then []
    else
      var before, last := FirstByKey(items[..|items| - 1]), items[|items| - 1];
      if last.key in Keys(before) then before else before + [last]
  }

  lemma {:induction false} KeysMembers(cases: seq<Case>, k: string)
    ensures k in Keys(cases) <==> exists i :: 0 <= i < |cases| && cases[i].key == k
  {
    if cases != [] {
      var init := cases[..|cases| - 1];
      KeysMembers(init, k);
      if k in Keys(init) {
        var i :| 0 <= i < |init| && init[i].key == k;
        assert cases[i].key == k;
      }
      if exists i :: 0 <= i < |cases| && cases[i].key == k {
        var i :| 0 <= i < |cases| && cases[i].key == k;
        assert i < |init| ==> init[i].key == k;
      }
    }
  }

  lemma KeysAppend(cases: seq<Case>, c: Case)
    ensures Keys(cases + [c]) == Keys(cases) + {c.key}
  {
    assert (cases + [c])[..|cases|] == cases;
  }

  lemma DistinctAppend(cases: seq<Case>, c: Case)
    requires DistinctKeys(cases) && c.key !in Keys(cases)
    ensures DistinctKeys(cases + [c])
  {
    forall i | 0 <= i < |cases| ensures cases[i].key != c.key { KeysMembers(cases, cases[i].key); }
  }

  /** Every key is kept, each once. */
  lemma {:induction false} FirstByKeyIsUnique(items: seq<Case>)
    ensures DistinctKeys(FirstByKey(items)) && Keys(FirstByKey(items)) == Keys(items)
  {
    if items != [] {
      var init, last := items[..|items| - 1], items[|items| - 1];
      FirstByKeyIsUnique(init);
      if last.key !in Keys(FirstByKey(init)) {
        DistinctAppend(FirstByKey(init), last);
        KeysAppend(FirstByKey(init), last);
      }
    }
  }

  method UniqueCases(items: seq<Case>) returns (cases: seq<Case>)
    ensures cases == FirstByKey(items)
  {
    var seen: set<string> := {};
    cases := [];
    for i := 0 to |items|
      invariant cases == FirstByKey(items[..i]) && seen == Keys(cases)
    {
      assert items[..i + 1][..i] == items[..i];
      if items[i].key !in seen {
        KeysAppend(cases, items[i]);
        seen := seen + {items[i].key};
        cases := cases + [items[i]];
      }
    }
    assert items[..|items|] == items;
  }

  // ---------------------------------------------------------------- rank order

  /** (rank_sha256, case_key), compared as Python compares tuples of strings. */
  predicate RankLeq(rank: Case -> string, a: Case, b: Case) {
    if rank(a) == rank(b) then StrLeq(a.key, b.key) else StrLeq(rank(a), rank(b))
  }

  function RankOrder(rank: Case -> string): (Case, Case) -> bool {
    (a, b) => RankLeq(rank, a, b)
  }

  lemma RankTotal(rank: Case -> string, a: Case, b: Case)
    ensures RankLeq(rank, a, b) || RankLeq(rank, b, a)
  {
    StrLeqTotal(a.key, b.key);
    StrLeqTotal(rank(a), rank(b));
  }

  lemma RankTransitive(rank: Case -> string, a: Case, b: Case, c: Case)
    requires RankLeq(rank, a, b) && RankLeq(rank, b, c)
    ensures RankLeq(rank, a, c)
  {
    if rank(a) == rank(b) == rank(c) {
      StrLeqTransitive(a.key, b.key, c.key);
    } else if rank(a) != rank(b) && rank(b) != rank(c) {
      StrLeqTransitive(rank(a), rank(b), rank(c));
      if rank(a) == rank(c) { StrLeqAntisymmetric(rank(a), rank(b)); }
    }
  }

  lemma RankIsOrder(rank: Case -> string)
    ensures Sorting.TotalPreorder(RankOrder(rank))
  {
    forall a, b ensures RankLeq(rank, a, b) || RankLeq(rank, b, a) { RankTotal(rank, a, b); }
    forall a, b, c | RankLeq(rank, a, b) && RankLeq(rank, b, c) ensures RankLeq(rank, a, c) {
      RankTransitive(rank, a, b, c);
    }
  }

  function SortByRank(rank: Case -> string, cases: seq<Case>): seq<Case> {
    Sorting.Sort(RankOrder(rank), cases)
  }

  lemma DistinctAreOnce(cases: seq<Case>)
    requires DistinctKeys(cases)
    ensures NoDuplicates(cases)
  {
  }

  /** A permutation of distinct cases is one of distinct keys. */
  lemma PermutedKeys(u: seq<Case>, cases: seq<Case>)
    requires multiset(u) == multiset(cases) && DistinctKeys(cases)
    ensures DistinctKeys(u)
  {
    DistinctAreOnce(cases);
    forall c ensures Count(u, c) <= 1 {
      CountIsMultiplicity(u, c);
      CountIsMultiplicity(cases, c);
      CountOnce(cases, c);
    }
    OnceEach(u);
    forall i, j | 0 <= i < j < |u| ensures u[i].key != u[j].key {
      assert u[i] in multiset(u) && u[j] in multiset(u);
      SameKeySameCase(cases, u[i], u[j]);
    }
  }

  lemma PermutedKeySet(u: seq<Case>, cases: seq<Case>)
    requires multiset(u) == multiset(cases)
    ensures Keys(u) <= Keys(cases)
  {
    forall k | k in Keys(u) ensures k in Keys(cases) {
      KeysMembers(u, k);
      KeysMembers(cases, k);
      var i :| 0 <= i < |u| && u[i].key == k;
      assert u[i] in multiset(cases);
      var j :| 0 <= j < |cases| && cases[j] == u[i];
    }
  }

  /** The universe is the distinct cases themselves, in rank order. */
  lemma UniverseIsRanked(rank: Case -> string, items: seq<Case>)
    ensures var cases := FirstByKey(items); var u := SortByRank(rank, cases);
            && multiset(u) == multiset(cases) && DistinctKeys(u)
            && Sorting.InOrder(RankOrder(rank), u) && Keys(u) == Keys(items)
  {
    FirstByKeyIsUnique(items);
    SortedUniverse(rank, FirstByKey(items));
    Sorting.SortMembers(RankOrder(rank), FirstByKey(items));
  }

  /** Sorting distinct cases keeps them distinct and puts them in rank order. */
  lemma SortedUniverse(rank: Case -> string, cases: seq<Case>)
    requires DistinctKeys(cases)
    ensures var u := SortByRank(rank, cases);
            DistinctKeys(u) && Sorting.InOrder(RankOrder(rank), u) && Keys(u) == Keys(cases)
  {
    var u := SortByRank(rank, cases);
    RankIsOrder(rank);
    Sorting.SortOrder(RankOrder(rank), cases);
    Sorting.SortMembers(RankOrder(rank), cases);
    PermutedKeys(u, cases);
    PermutedKeySet(u, cases);
    PermutedKeySet(cases, u);
  }

  // ---------------------------------------------------------------- calibration

  function Own(universe: seq<Case>, st: Stratum): seq<Case> {
    Select(universe, {}, st)
  }

  datatype Shortage = Shortage(st: Stratum)

  /** The first n cases of every listed suite. */
  function SuiteFronts(universe: seq<Case>, suites: seq<string>, n: nat): seq<Case> {
    if suites == [] then []
    else SuiteFronts(universe, suites[..|suites| - 1], n) + Take(Own(universe, AgentDojo(suites[|suites| - 1])), n)
  }

  function Calibration(universe: seq<Case>, suites: seq<string>, n: nat, m: nat): seq<Case> {
    SuiteFronts(universe, suites, n) + Take(Own(universe, InjecAgent), m)
  }

  predicate EnoughCases(universe: seq<Case>, suites: seq<string>, n: nat, m: nat) {
    (forall s <- suites :: |Own(universe, AgentDojo(s))| >= n) && |Own(universe, InjecAgent)| >= m
  }

  method SelectCalibration(universe: seq<Case>, suites: seq<string>, n: nat, m: nat)
    returns (r: Result<seq<Case>, Shortage>)
    ensures r.Err? <==> (exists s <- suites :: |Own(universe, AgentDojo(s))| < n) || |Own(universe, InjecAgent)| < m
    ensures r.Err? ==> |Own(universe, r.error.st)| < if r.error.st.AgentDojo? then n else m
    ensures r.Ok? ==> r.value == Calibration(universe, suites, n, m)
  {
    var selected: seq<Case> := [];
    for i := 0 to |suites|
      invariant selected == SuiteFronts(universe, suites[..i], n)
      invariant forall j :: 0 <= j < i ==> |Own(universe, AgentDojo(suites[j]))| >= n
    {
      assert suites[..i + 1][..i] == suites[..i];
      var stratum := Own(universe, AgentDojo(suites[i]));
      if |stratum| < n { return Err(Shortage(AgentDojo(suites[i]))); }
      selected := selected + Take(stratum, n);
    }
    assert suites[..|suites|] == suites;
    var r3 := Own(universe, InjecAgent);
    if |r3| < m { return Err(Shortage(InjecAgent)); }
    return Ok(selected + Take(r3, m));
  }

  // ---------------------------------------------------------------- the main sample goes on from there

  lemma {:induction false} OwnMembers(universe: seq<Case>, st: Stratum)
    ensures forall c <- Own(universe, st) :: c in universe && c.stratum == st
    ensures DistinctKeys(universe) ==> DistinctKeys(Own(universe, st))
  {
    if universe != [] {
      var init, last := universe[..|universe| - 1], universe[|universe| - 1];
      OwnMembers(init, st);
      var own := Own(init, st);
      if DistinctKeys(universe) && last.stratum == st {
        forall i | 0 <= i < |own| ensures own[i].key != last.key {
          assert own[i] in init;
          var j :| 0 <= j < |init| && init[j] == own[i];
          assert universe[j] == init[j];
        }
      }
    }
  }

  /** Excluding exactly the first n cases of a stratum leaves the rest of its order. */
  lemma {:induction false} SelectRest(universe: seq<Case>, excluded: set<string>, st: Stratum, n: nat)
    requires n <= |Own(universe, st)|
    requires forall i :: 0 <= i < |Own(universe, st)| ==> (Own(universe, st)[i].key in excluded <==> i < n)
    ensures Select(universe, excluded, st) == Own(universe, st)[n..]
  {
    if universe != [] {
      var init, last := universe[..|universe| - 1], universe[|universe| - 1];
      var before := Own(init, st);
      if last.stratum == st {
        assert Own(universe, st) == before + [last];
        assert forall i :: 0 <= i < |before| ==> Own(universe, st)[i] == before[i];
        SelectRest(init, excluded, st, if n <= |before| then n else |before|);
        assert Own(universe, st)[|before|] == last;
      } else {
        SelectRest(init, excluded, st, n);
      }
    }
  }

  lemma {:induction false} FrontMembers(universe: seq<Case>, suites: seq<string>, n: nat, c: Case)
    ensures c in SuiteFronts(universe, suites, n) <==> exists s <- suites :: c in Take(Own(universe, AgentDojo(s)), n)
  {
    if suites != [] {
      var init, last := suites[..|suites| - 1], suites[|suites| - 1];
      FrontMembers(universe, init, n, c);
      assert suites == init + [last];
    }
  }

  /** A stratum's part of the calibration: as many of its first cases as were asked for. */
  lemma CalibratedIsFront(universe: seq<Case>, suites: seq<string>, n: nat, m: nat, st: Stratum, c: Case)
    requires st.AgentDojo? ==> st.suite in suites
    requires c in Own(universe, st)
    ensures c in Calibration(universe, suites, n, m) <==> c in Take(Own(universe, st), if st.AgentDojo? then n else m)
  {
    FrontMembers(universe, suites, n, c);
    OwnMembers(universe, st);
    OwnMembers(universe, InjecAgent);
    forall s <- suites | c in Take(Own(universe, AgentDojo(s)), n) ensures AgentDojo(s) == st {
      OwnMembers(universe, AgentDojo(s));
      assert c in Own(universe, AgentDojo(s));
    }
    if c in Take(Own(universe, InjecAgent), m) { assert c in Own(universe, InjecAgent); }
  }

  lemma SameKeySameCase(universe: seq<Case>, a: Case, b: Case)
    requires DistinctKeys(universe) && a in universe && b in universe
    ensures a.key == b.key ==> a == b
  {
    var i :| 0 <= i < |universe| && universe[i] == a;
    var j :| 0 <= j < |universe| && universe[j] == b;
    assert i < j || j < i || i == j;
  }

  lemma {:induction false} CalibrationFromUniverse(universe: seq<Case>, suites: seq<string>, n: nat, c: Case)
    requires c in SuiteFronts(universe, suites, n)
    ensures c in universe
  {
    var init, last := suites[..|suites| - 1], suites[|suites| - 1];
    if c in SuiteFronts(universe, init, n) {
      CalibrationFromUniverse(universe, init, n, c);
    } else {
      OwnMembers(universe, AgentDojo(last));
      assert c in Own(universe, AgentDojo(last));
    }
  }

  lemma KeyExcluded(universe: seq<Case>, suites: seq<string>, n: nat, m: nat, c: Case)
    requires DistinctKeys(universe) && c in universe
    ensures c.key in Keys(Calibration(universe, suites, n, m)) <==> c in Calibration(universe, suites, n, m)
  {
    var calibration := Calibration(universe, suites, n, m);
    KeysMembers(calibration, c.key);
    if c.key in Keys(calibration) {
      var i :| 0 <= i < |calibration| && calibration[i].key == c.key;
      var x := calibration[i];
      if x in SuiteFronts(universe, suites, n) {
        CalibrationFromUniverse(universe, suites, n, x);
      } else {
        OwnMembers(universe, InjecAgent);
        assert x in Take(Own(universe, InjecAgent), m);
        assert x in Own(universe, InjecAgent);
      }
      SameKeySameCase(universe, x, c);
    }
  }

  lemma FrontIndex(own: seq<Case>, n: nat, i: nat)
    requires DistinctKeys(own) && i < |own|
    ensures own[i] in Take(own, n) <==> i < n
  {
    if own[i] in Take(own, n) {
      var j :| 0 <= j < |Take(own, n)| && Take(own, n)[j] == own[i];
      assert own[j] == own[i];
    }
    if i < n { assert Take(own, n)[i] == own[i]; }
  }

  /** The candidates for the main sample are each stratum's rank order after its calibration cases. */
  lemma CandidatesFollowCalibration(universe: seq<Case>, suites: seq<string>, n: nat, m: nat, st: Stratum)
    requires DistinctKeys(universe) && EnoughCases(universe, suites, n, m)
    requires st.AgentDojo? ==> st.suite in suites
    ensures Select(universe, Keys(Calibration(universe, suites, n, m)), st)
            == Own(universe, st)[if st.AgentDojo? then n else m..]
  {
    var own, k := Own(universe, st), if st.AgentDojo? then n else m;
    var excluded := Keys(Calibration(universe, suites, n, m));
    OwnMembers(universe, st);
    forall i | 0 <= i < |own| ensures own[i].key in excluded <==> i < k {
      assert own[i] in own;
      KeyExcluded(universe, suites, n, m, own[i]);
      CalibratedIsFront(universe, suites, n, m, st, own[i]);
      FrontIndex(own, k, i);
    }
    SelectRest(universe, excluded, st, k);
  }

  lemma CandidatesOf(f: Freeze, universe: seq<Case>, excluded: set<string>, suite: string)
    requires From(f, universe, excluded) && suite in f.suites
    ensures Candidates(f, suite) == Select(universe, excluded, AgentDojo(suite))
  {
  }

  lemma Block<T>(own: seq<T>, n: nat, rest: seq<T>, k: nat, block: seq<T>)
    requires n <= |own| && rest == own[n..] && k <= |rest| && block == rest[..k]
    ensures n + k <= |own| && block == own[n..n + k]
  {
  }

  lemma PickedBlock(f: Freeze, picks: seq<string>, selected: seq<Case>, suite: string)
    returns (rest: seq<Case>, k: nat, block: seq<Case>)
    requires FrozenBy(f, picks, selected) && NoDuplicates(f.suites) && suite in f.suites
    ensures rest == Candidates(f, suite) && k == f.settings.floor + Count(picks, suite) <= |rest|
    ensures block == Select(selected, {}, AgentDojo(suite)) == rest[..k]
  {
    PicksArePrefix(f, picks, selected, suite);
    rest, k := Candidates(f, suite), f.settings.floor + Count(picks, suite);
    block := Select(selected, {}, AgentDojo(suite));
  }

  lemma PicksAfter(own: seq<Case>, n: nat, f: Freeze, picks: seq<string>, selected: seq<Case>, suite: string)
    requires FrozenBy(f, picks, selected) && NoDuplicates(f.suites) && suite in f.suites
    requires n <= |own| && Candidates(f, suite) == own[n..]
    ensures var k := f.settings.floor + Count(picks, suite);
            n + k <= |own| && Select(selected, {}, AgentDojo(suite)) == own[n..n + k]
  {
    var rest, k, block := PickedBlock(f, picks, selected, suite);
    Block(own, n, rest, k, block);
  }

  /**
   Calibration and main sample are consecutive blocks of every suite's rank order: the first n
   cases calibrate, the next ones, at least the floor, are sampled, and none is skipped.
   */
  lemma SampleFollowsCalibration(universe: seq<Case>, n: nat, m: nat, f: Freeze, picks: seq<string>,
                                 selected: seq<Case>, suite: string)
    requires DistinctKeys(universe) && EnoughCases(universe, f.suites, n, m)
    requires From(f, universe, Keys(Calibration(universe, f.suites, n, m))) && FrozenBy(f, picks, selected)
    requires NoDuplicates(f.suites) && suite in f.suites
    ensures var own, k := Own(universe, AgentDojo(suite)), f.settings.floor + Count(picks, suite);
            n + k <= |own| && Select(selected, {}, AgentDojo(suite)) == own[n..n + k]
  {
    CandidatesFollowCalibration(universe, f.suites, n, m, AgentDojo(suite));
    CandidatesOf(f, universe, Keys(Calibration(universe, f.suites, n, m)), suite);
    PicksAfter(Own(universe, AgentDojo(suite)), n, f, picks, selected, suite);
  }
}
