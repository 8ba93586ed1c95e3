/**
 The allocation loop of `freeze_sample_manifest`: while some suite has candidates left and
 still fits the budget, the one with the smallest sampled share (ties by name) gets one more pair.
 */
module GreedyAllocation {
  import opened PyLists
  import opened Wrappers
  import BudgetLedger
  import Sorting

  const EPS := BudgetLedger.EPS

  /** `pool` counts a suite's candidates, `size` all its cases; `base` is what the floors cost. */
  datatype Problem = Problem(
    suites: seq<string>, floor: nat, cost: map<string, real>, pool: map<string, nat>, size: map<string, nat>,
    base: real, cap: real)

  ghost predicate Valid(p: Problem) {
    forall s :: s in p.suites ==>
      && s in p.cost && s in p.pool && s in p.size
      && p.cost[s] > 0.0
      && p.floor <= p.pool[s] <= p.size[s]
  }

  function Taken(p: Problem, picks: seq<string>, s: string): nat {
    p.floor + Count(picks, s)
  }

  function CostOf(p: Problem, s: string): real {
    if s in p.cost then p.cost[s] else 0.0
  }

  function Spent(p: Problem, picks: seq<string>): real {
    if picks == [] then p.base else Spent(p, picks[..|picks| - 1]) + CostOf(p, picks[|picks| - 1])
  }

  function Share(taken: int, size: nat): real
    requires size > 0
  {
    taken as real / size as real
  }

  lemma ShareMonotone(a: int, b: int, size: nat)
    requires a <= b && size > 0
    ensures Share(a, size) <= Share(b, size)
  {
    assert (b as real - a as real) / size as real >= 0.0;
  }

  predicate HasLeft(p: Problem, picks: seq<string>, s: string) {
    s in p.suites && s in p.pool && s in p.size && Taken(p, picks, s) < p.pool[s] <= p.size[s]
  }

  predicate Eligible(p: Problem, picks: seq<string>, s: string) {
    HasLeft(p, picks, s) && Spent(p, picks) + CostOf(p, s) <= p.cap + EPS
  }

  /** The loop's sort key: sampled share first, then the suite's name. */
  predicate Before(p: Problem, picks: seq<string>, s: string, t: string)
    requires HasLeft(p, picks, s) && HasLeft(p, picks, t)
  {
    var x, y := Share(Taken(p, picks, s), p.size[s]), Share(Taken(p, picks, t), p.size[t]);
    x < y || (x == y && StrLeq(s, t))
  }

  ghost predicate Chosen(p: Problem, picks: seq<string>, s: string) {
    Eligible(p, picks, s) && forall t :: Eligible(p, picks, t) ==> Before(p, picks, s, t)
  }

  /** A complete history of the loop's choices so far. */
  ghost predicate Trace(p: Problem, picks: seq<string>) {
    picks == [] || (Trace(p, picks[..|picks| - 1]) && Chosen(p, picks[..|picks| - 1], picks[|picks| - 1]))
  }

  ghost predicate Exhausted(p: Problem, picks: seq<string>) {
    forall t :: !Eligible(p, picks, t)
  }

  lemma {:induction false} TracePrefix(p: Problem, picks: seq<string>, n: nat)
    requires Trace(p, picks) && n <= |picks|
    ensures Trace(p, picks[..n])
    ensures n < |picks| ==> Chosen(p, picks[..n], picks[n])
  {
    var m := |picks| - 1;
    if n < m {
      assert picks[..m][..n] == picks[..n];
      TracePrefix(p, picks[..m], n);
    } else if n == |picks| {
      assert picks[..n] == picks;
    }
  }

  lemma TraceExtend(p: Problem, picks: seq<string>, s: string)
    requires Trace(p, picks) && Chosen(p, picks, s)
    ensures Trace(p, picks + [s])
  {
    assert (picks + [s])[..|picks|] == picks;
  }

  /** Spending only grows, so eligibility is only ever lost. */
  lemma {:induction false} SpentMonotone(p: Problem, picks: seq<string>, n: nat)
    requires Valid(p) && Trace(p, picks) && n <= |picks|
    ensures Spent(p, picks[..n]) <= Spent(p, picks)
    decreases |picks|
  {
    var m := |picks| - 1;
    if n <= m {
      TracePrefix(p, picks, m);
      assert picks[..m][..n] == picks[..n];
      SpentMonotone(p, picks[..m], n);
      assert Chosen(p, picks[..m], picks[m]);
    } else {
      assert picks[..n] == picks;
    }
  }

  lemma TakenStep(p: Problem, picks: seq<string>, s: string)
    requires picks != []
    ensures Taken(p, picks, s) == Taken(p, picks[..|picks| - 1], s) + if picks[|picks| - 1] == s then 1 else 0
  {
  }

  /** What fairness claims: without its last pair, `s` was no better sampled than `t` is. */
  predicate NotAhead(p: Problem, picks: seq<string>, s: string, t: string) {
    && s in p.size && t in p.size && p.size[s] > 0 && p.size[t] > 0
    && Share(Taken(p, picks, s) - 1, p.size[s]) <= Share(Taken(p, picks, t), p.size[t])
  }

  /** The last pick was no better sampled than any suite that could have been picked instead. */
  lemma LastPick(p: Problem, picks: seq<string>, t: string)
    requires Valid(p) && picks != [] && HasLeft(p, picks, t)
    requires var earlier, last := picks[..|picks| - 1], picks[|picks| - 1];
             Chosen(p, earlier, last) && (t == last || Eligible(p, earlier, t))
    ensures NotAhead(p, picks, picks[|picks| - 1], t)
  {
    var earlier, last := picks[..|picks| - 1], picks[|picks| - 1];
    TakenStep(p, picks, t);
    TakenStep(p, picks, last);
    assert Before(p, earlier, last, t);
    ShareMonotone(Taken(p, earlier, t), Taken(p, picks, t), p.size[t]);
  }

  lemma CarryOver(p: Problem, picks: seq<string>, s: string, t: string)
    requires picks != [] && picks[|picks| - 1] != s
    requires NotAhead(p, picks[..|picks| - 1], s, t)
    ensures NotAhead(p, picks, s, t)
  {
    TakenStep(p, picks, s);
    TakenStep(p, picks, t);
    ShareMonotone(Taken(p, picks[..|picks| - 1], t), Taken(p, picks, t), p.size[t]);
  }

  /**
   Proportional fairness at every iteration: a suite that was taken above its floor was, before
   its last pair, no better sampled than any suite that could still be served now.
   */
  lemma {:induction false} Fairness(p: Problem, picks: seq<string>, s: string, t: string)
    requires Valid(p) && Trace(p, picks)
    requires s in picks && Eligible(p, picks, t)
    ensures NotAhead(p, picks, s, t)
    decreases |picks|
  {
    var m := |picks| - 1;
    TracePrefix(p, picks, m);
    assert Chosen(p, picks[..m], picks[m]);
    assert Eligible(p, picks[..m], t) by { SpentMonotone(p, picks, m); TakenStep(p, picks, t); }
    if picks[m] == s {
      LastPick(p, picks, t);
    } else {
      assert s in picks[..m] by { assert picks == picks[..m] + [picks[m]]; }
      Fairness(p, picks[..m], s, t);
      CarryOver(p, picks, s, t);
    }
  }

  /**
   Fairness read off the final allocation: no suite ends up more than one pair ahead of a suite
   that costs no more and was not used up.
   */
  lemma {:induction false} FinalFairness(p: Problem, picks: seq<string>, s: string, t: string)
    requires Valid(p) && Trace(p, picks)
    requires s in picks && HasLeft(p, picks, t) && CostOf(p, t) <= CostOf(p, s)
    ensures NotAhead(p, picks, s, t)
    decreases |picks|
  {
    var m := |picks| - 1;
    TracePrefix(p, picks, m);
    assert Chosen(p, picks[..m], picks[m]);
    assert HasLeft(p, picks[..m], t) by { TakenStep(p, picks, t); }
    if picks[m] == s {
      LastPick(p, picks, t);
    } else {
      assert s in picks[..m] by { assert picks == picks[..m] + [picks[m]]; }
      FinalFairness(p, picks[..m], s, t);
      CarryOver(p, picks, s, t);
    }
  }

  lemma CrossMultiply(a: int, m: nat, b: int, n: nat)
    requires m > 0 && n > 0 && Share(a, m) <= Share(b, n)
    ensures a * n <= b * m
  {
    var x, y := Share(a, m), Share(b, n);
    assert x * m as real == a as real && y * n as real == b as real;
    assert (y - x) * (m as real * n as real) >= 0.0;
    assert y * (m as real * n as real) == b as real * m as real;
    assert x * (m as real * n as real) == a as real * n as real;
    assert (a * n) as real == a as real * n as real && (b * m) as real == b as real * m as real;
  }

  /** The same in whole numbers: with m and n the sizes of the suites, (a - 1) / m is at most b / n. */
  lemma FinalProportion(p: Problem, picks: seq<string>, s: string, t: string, a: int, m: int, b: int, n: int)
    requires Valid(p) && Trace(p, picks)
    requires s in picks && HasLeft(p, picks, t) && CostOf(p, t) <= CostOf(p, s) && s in p.size
    requires a == Taken(p, picks, s) && b == Taken(p, picks, t) && m == p.size[s] && n == p.size[t]
    ensures (a - 1) * n <= b * m
  {
    FinalFairness(p, picks, s, t);
    CrossMultiply(a - 1, m, b, n);
  }

  /** The cap holds at every point of the loop, and no suite is taken beyond its candidates. */
  lemma {:induction false} WithinLimits(p: Problem, picks: seq<string>)
    requires Valid(p) && Trace(p, picks) && p.base <= p.cap + EPS
    ensures Spent(p, picks) <= p.cap + EPS
    ensures forall s :: s in p.suites ==> p.floor <= Taken(p, picks, s) <= p.pool[s]
    ensures forall s :: s in picks ==> s in p.suites
  {
    var m := |picks| - 1;
    if picks != [] {
      TracePrefix(p, picks, m);
      WithinLimits(p, picks[..m]);
      assert Chosen(p, picks[..m], picks[m]);
      assert picks == picks[..m] + [picks[m]];
    }
  }

  /** The loop's outcome is determined by its inputs. */
  lemma {:induction false} Deterministic(p: Problem, a: seq<string>, b: seq<string>)
    requires Trace(p, a) && Exhausted(p, a) && Trace(p, b) && Exhausted(p, b)
    ensures a == b
  {
    if |a| <= |b| { Agree(p, a, b, |a|); } else { Agree(p, b, a, |b|); }
  }

  lemma {:induction false} Agree(p: Problem, a: seq<string>, b: seq<string>, n: nat)
    requires Trace(p, a) && Exhausted(p, a) && Trace(p, b)
    requires n == |a| <= |b|
    ensures a == b
  {
    var k := 0;
    while k < n
      invariant 0 <= k <= n && a[..k] == b[..k]
    {
      TracePrefix(p, a, k);
      TracePrefix(p, b, k);
      assert Before(p, a[..k], a[k], b[k]) && Before(p, a[..k], b[k], a[k]);
      StrLeqAntisymmetric(a[k], b[k]);
      assert a[..k + 1] == a[..k] + [a[k]] && b[..k + 1] == b[..k] + [b[k]];
      k := k + 1;
    }
    assert a[..n] == a && b[..n] == a;
    TracePrefix(p, b, n);
  }

  // ---------------------------------------------------------------- the loop

  /** `key=lambda suite: (counts[suite] / universe_sizes[suite], suite)`, compared as Python compares tuples. */
  predicate KeyedLeq(a: (real, string), b: (real, string)) {
    a.0 < b.0 || (a.0 == b.0 && StrLeq(a.1, b.1))
  }

  lemma KeyedIsOrder()
    ensures Sorting.TotalPreorder(KeyedLeq)
  {
    forall a, b ensures KeyedLeq(a, b) || KeyedLeq(b, a) { StrLeqTotal(a.1, b.1); }
    forall a, b, c | KeyedLeq(a, b) && KeyedLeq(b, c) ensures KeyedLeq(a, c) {
      if a.0 == b.0 == c.0 { StrLeqTransitive(a.1, b.1, c.1); }
    }
  }

  /** The loop's running counters agree with its history. */
  ghost predicate Tally(p: Problem, picks: seq<string>, counts: map<string, nat>) {
    forall s :: s in p.suites ==> s in counts && counts[s] == Taken(p, picks, s)
  }

  /** A suite with its sort key. */
  function KeyOf(p: Problem, picks: seq<string>, s: string): (real, string)
    requires HasLeft(p, picks, s)
  {
    (Share(Taken(p, picks, s), p.size[s]), s)
  }

  /** The suites that still have candidates, each with its key. */
  ghost predicate Options(p: Problem, picks: seq<string>, options: seq<(real, string)>, suites: seq<string>) {
    && (forall e <- options :: HasLeft(p, picks, e.1) && e == KeyOf(p, picks, e.1))
    && (forall s <- suites :: HasLeft(p, picks, s) ==> KeyOf(p, picks, s) in options)
  }

  /** What is left of every suite's candidates after the picks so far. */
  ghost predicate Queues<T>(p: Problem, picks: seq<string>, all: map<string, seq<T>>, remaining: map<string, seq<T>>) {
    forall s :: s in p.suites ==>
      && s in all && s in remaining && s in p.pool
      && |all[s]| == p.pool[s] - p.floor
      && Count(picks, s) <= |all[s]|
      && remaining[s] == all[s][Count(picks, s)..]
  }

  /** Python's list comprehension over the suites, sorted. */
  method SortedKeys<T>(p: Problem, ghost picks: seq<string>, counts: map<string, nat>, remaining: map<string, seq<T>>,
                       ghost all: map<string, seq<T>>)
    returns (sorted: seq<(real, string)>)
    requires Valid(p) && Tally(p, picks, counts) && Queues(p, picks, all, remaining)
    ensures Options(p, picks, sorted, p.suites) && Sorting.InOrder(KeyedLeq, sorted)
  {
    var options: seq<(real, string)> := [];
    for i := 0 to |p.suites|
      invariant Options(p, picks, options, p.suites[..i])
    {
      var s := p.suites[i];
      if remaining[s] != [] { options := options + [(Share(counts[s], p.size[s]), s)]; }
    }
    assert p.suites[..|p.suites|] == p.suites;
    sorted := Sorting.Sort(KeyedLeq, options);
    SortedOptions(p, picks, options, sorted);
  }

  lemma SortedOptions(p: Problem, picks: seq<string>, options: seq<(real, string)>, sorted: seq<(real, string)>)
    requires Options(p, picks, options, p.suites) && sorted == Sorting.Sort(KeyedLeq, options)
    ensures Options(p, picks, sorted, p.suites) && Sorting.InOrder(KeyedLeq, sorted)
  {
    KeyedIsOrder();
    Sorting.SortOrder(KeyedLeq, options);
    forall e: (real, string) ensures e in sorted <==> e in options { Sorting.SameMembers(KeyedLeq, options, e); }
  }

  /** No option up to here is affordable. */
  ghost predicate NoneBefore(p: Problem, picks: seq<string>, sorted: seq<(real, string)>, n: nat) {
    forall j :: 0 <= j < n <= |sorted| ==> !Eligible(p, picks, sorted[j].1)
  }

  lemma PositionOf(p: Problem, picks: seq<string>, sorted: seq<(real, string)>, t: string) returns (j: nat)
    requires Options(p, picks, sorted, p.suites) && HasLeft(p, picks, t)
    ensures j < |sorted| && sorted[j] == KeyOf(p, picks, t)
  {
    assert KeyOf(p, picks, t) in sorted;
    j :| 0 <= j < |sorted| && sorted[j] == KeyOf(p, picks, t);
  }

  lemma FirstIsChosen(p: Problem, picks: seq<string>, sorted: seq<(real, string)>, i: nat)
    requires Options(p, picks, sorted, p.suites) && Sorting.InOrder(KeyedLeq, sorted)
    requires i < |sorted| && NoneBefore(p, picks, sorted, i) && Eligible(p, picks, sorted[i].1)
    ensures Chosen(p, picks, sorted[i].1)
  {
    var s := sorted[i].1;
    assert sorted[i] in sorted && sorted[i] == KeyOf(p, picks, s);
    KeyedIsOrder();
    forall t | Eligible(p, picks, t) ensures Before(p, picks, s, t) {
      var j := PositionOf(p, picks, sorted, t);
      assert KeyedLeq(sorted[i], sorted[j]);
    }
  }

  lemma NoneIsExhausted(p: Problem, picks: seq<string>, sorted: seq<(real, string)>)
    requires Options(p, picks, sorted, p.suites) && NoneBefore(p, picks, sorted, |sorted|)
    ensures Exhausted(p, picks)
  {
    forall t | HasLeft(p, picks, t) ensures !Eligible(p, picks, t) {
      var j := PositionOf(p, picks, sorted, t);
      assert sorted[j].1 == t;
    }
  }

  method NextSuite<T>(p: Problem, ghost picks: seq<string>, counts: map<string, nat>, spent: real,
                      remaining: map<string, seq<T>>, ghost all: map<string, seq<T>>)
    returns (chosen: Option<string>)
    requires Valid(p) && Tally(p, picks, counts) && spent == Spent(p, picks) && Queues(p, picks, all, remaining)
    ensures chosen.None? ==> Exhausted(p, picks)
    ensures chosen.Some? ==> Chosen(p, picks, chosen.value)
  {
    var sorted := SortedKeys(p, picks, counts, remaining, all);
    for i := 0 to |sorted|
      invariant NoneBefore(p, picks, sorted, i)
    {
      var s := sorted[i].1;
      assert sorted[i] in sorted && HasLeft(p, picks, s);
      if spent + p.cost[s] <= p.cap + EPS {
        FirstIsChosen(p, picks, sorted, i);
        return Some(s);
      }
    }
    NoneIsExhausted(p, picks, sorted);
    return None;
  }

  /** How many pairs are still unpicked: the loop's termination measure. */
  function Left(p: Problem, picks: seq<string>, suites: seq<string>): nat
    requires forall s :: s in suites ==> s in p.pool
  {
    if suites == [] then 0 else
      var s := suites[0];
      (if Taken(p, picks, s) < p.pool[s] then p.pool[s] - Taken(p, picks, s) else 0) + Left(p, picks, suites[1..])
  }

  lemma {:induction false} LeftShrinks(p: Problem, picks: seq<string>, s: string, suites: seq<string>)
    requires forall u :: u in suites ==> u in p.pool
    requires HasLeft(p, picks, s)
    ensures Left(p, picks + [s], suites) <= Left(p, picks, suites)
    ensures s in suites ==> Left(p, picks + [s], suites) < Left(p, picks, suites)
  {
    if suites != [] {
      assert (picks + [s])[..|picks|] == picks;
      TakenStep(p, picks + [s], suites[0]);
      LeftShrinks(p, picks, s, suites[1..]);
    }
  }

  /** The k-th pick takes the next unused candidate of its suite. */
  ghost predicate Draws<T>(picks: seq<string>, all: map<string, seq<T>>, selected: seq<T>) {
    && |selected| == |picks|
    && forall k :: 0 <= k < |picks| ==>
         && picks[k] in all
         && Count(picks[..k], picks[k]) < |all[picks[k]]|
         && selected[k] == all[picks[k]][Count(picks[..k], picks[k])]
  }

  lemma DrawsPrefix<T>(picks: seq<string>, all: map<string, seq<T>>, selected: seq<T>, n: nat)
    requires Draws(picks, all, selected) && n <= |picks|
    ensures Draws(picks[..n], all, selected[..n])
  {
    forall k | 0 <= k < n ensures picks[..n][..k] == picks[..k] {}
  }

  lemma DrawStep<T>(picks: seq<string>, all: map<string, seq<T>>, selected: seq<T>, s: string)
    requires Draws(picks, all, selected)
    requires s in all && Count(picks, s) < |all[s]|
    ensures Draws(picks + [s], all, selected + [all[s][Count(picks, s)]])
  {
    var after := picks + [s];
    forall k | 0 <= k < |after| ensures after[..k] == if k < |picks| then picks[..k] else picks {}
  }

  lemma QueueStep<T>(p: Problem, picks: seq<string>, counts: map<string, nat>, all: map<string, seq<T>>,
                     remaining: map<string, seq<T>>, s: string)
    requires Tally(p, picks, counts) && Queues(p, picks, all, remaining) && HasLeft(p, picks, s)
    ensures Tally(p, picks + [s], counts[s := counts[s] + 1])
    ensures remaining[s] != [] && remaining[s][0] == all[s][Count(picks, s)]
    ensures Queues(p, picks + [s], all, remaining[s := remaining[s][1..]])
  {
    var after := picks + [s];
    assert after[..|picks|] == picks;
    forall u ensures Count(after, u) == Count(picks, u) + if u == s then 1 else 0 {}
  }

  /** What one turn of the loop keeps. */
  ghost predicate Allocating<T>(p: Problem, all: map<string, seq<T>>, picks: seq<string>, selected: seq<T>, spent: real,
                                counts: map<string, nat>, remaining: map<string, seq<T>>) {
    && Trace(p, picks) && Draws(picks, all, selected)
    && spent == Spent(p, picks) && Tally(p, picks, counts) && Queues(p, picks, all, remaining)
  }

  lemma Turn<T>(p: Problem, all: map<string, seq<T>>, picks: seq<string>, selected: seq<T>, spent: real,
                counts: map<string, nat>, remaining: map<string, seq<T>>, s: string)
    requires Valid(p) && Allocating(p, all, picks, selected, spent, counts, remaining) && Chosen(p, picks, s)
    ensures s in p.suites && s in p.cost && s in counts && s in remaining && remaining[s] != []
    ensures Allocating(p, all, picks + [s], selected + [remaining[s][0]], spent + p.cost[s],
                       counts[s := counts[s] + 1], remaining[s := remaining[s][1..]])
    ensures Left(p, picks + [s], p.suites) < Left(p, picks, p.suites)
  {
    TraceExtend(p, picks, s);
    LeftShrinks(p, picks, s, p.suites);
    QueueStep(p, picks, counts, all, remaining, s);
    DrawStep(picks, all, selected, s);
    assert (picks + [s])[..|picks|] == picks;
  }

  method Allocate<T>(p: Problem, all: map<string, seq<T>>) returns (selected: seq<T>, ghost picks: seq<string>)
    requires Valid(p) && Queues(p, [], all, all)
    ensures Trace(p, picks) && Exhausted(p, picks)
    ensures Draws(picks, all, selected)
  {
    picks, selected := [], [];
    var spent, remaining := p.base, all;
    var counts := map s | s in p.suites :: p.floor;
    while true
      invariant Allocating(p, all, picks, selected, spent, counts, remaining)
      decreases Left(p, picks, p.suites)
    {
      var chosen := NextSuite(p, picks, counts, spent, remaining, all);
      if chosen.None? { return; }
      var s := chosen.value;
      Turn(p, all, picks, selected, spent, counts, remaining, s);
      selected := selected + [remaining[s][0]];
      remaining := remaining[s := remaining[s][1..]];
      counts := counts[s := counts[s] + 1];
      spent := spent + p.cost[s];
      picks := picks + [s];
    }
  }
}
