/** Python's `sorted` over a total preorder, and what it keeps. */
module Sorting {

  ghost predicate TotalPreorder<T(!new)>(leq: (T, T) -> bool) {
    && (forall a, b :: leq(a, b) || leq(b, a))
    && (forall a, b, c :: leq(a, b) && leq(b, c) ==> leq(a, c))
  }

  ghost predicate InOrder<T>(leq: (T, T) -> bool, s: seq<T>) {
    forall i, j :: 0 <= i < j < |s| ==> leq(s[i], s[j])
  }

  /** Behind every entry that is not greater: equal entries keep their order. */
  function Insert<T>(leq: (T, T) -> bool, s: seq<T>, x: T): seq<T> {
    if s == [] || leq(s[|s| - 1], x) then s + [x] else Insert(leq, s[..|s| - 1], x) + [s[|s| - 1]]
  }

  function Sort<T>(leq: (T, T) -> bool, s: seq<T>): seq<T> {
    if s == [] then [] else Insert(leq, Sort(leq, s[..|s| - 1]), s[|s| - 1])
  }

  lemma {:induction false} InsertMembers<T>(leq: (T, T) -> bool, s: seq<T>, x: T)
    ensures multiset(Insert(leq, s, x)) == multiset(s) + multiset{x}
  {
    if s != [] {
      InsertMembers(leq, s[..|s| - 1], x);
      assert s == s[..|s| - 1] + [s[|s| - 1]];
    }
  }

  /** Nothing is lost and nothing added. */
  lemma {:induction false} SortMembers<T>(leq: (T, T) -> bool, s: seq<T>)
    ensures multiset(Sort(leq, s)) == multiset(s)
  {
    if s != [] {
      SortMembers(leq, s[..|s| - 1]);
      InsertMembers(leq, Sort(leq, s[..|s| - 1]), s[|s| - 1]);
      assert s == s[..|s| - 1] + [s[|s| - 1]];
    }
  }

  lemma InsertMember<T>(leq: (T, T) -> bool, s: seq<T>, x: T, i: nat)
    requires i < |Insert(leq, s, x)|
    ensures Insert(leq, s, x)[i] == x || Insert(leq, s, x)[i] in s
  {
    InsertMembers(leq, s, x);
    assert Insert(leq, s, x)[i] in multiset(Insert(leq, s, x));
  }

  lemma {:induction false} InsertOrder<T(!new)>(leq: (T, T) -> bool, s: seq<T>, x: T)
    requires TotalPreorder(leq) && InOrder(leq, s)
    ensures InOrder(leq, Insert(leq, s, x))
  {
    if s != [] {
      var init, last := s[..|s| - 1], s[|s| - 1];
      if leq(last, x) {
        forall i | 0 <= i < |s| ensures leq(s[i], x) { assert i < |s| - 1 ==> leq(s[i], last); }
      } else {
        InsertOrder(leq, init, x);
        var rest := Insert(leq, init, x);
        forall i | 0 <= i < |rest| ensures leq(rest[i], last) { InsertMember(leq, init, x, i); }
      }
    }
  }

  /** The result is in order. */
  lemma {:induction false} SortOrder<T(!new)>(leq: (T, T) -> bool, s: seq<T>)
    requires TotalPreorder(leq)
    ensures InOrder(leq, Sort(leq, s))
  {
    if s != [] {
      SortOrder(leq, s[..|s| - 1]);
      InsertOrder(leq, Sort(leq, s[..|s| - 1]), s[|s| - 1]);
    }
  }

  lemma SameMembers<T>(leq: (T, T) -> bool, s: seq<T>, x: T)
    ensures x in Sort(leq, s) <==> x in s
  {
    SortMembers(leq, s);
    assert x in multiset(Sort(leq, s)) <==> x in multiset(s);
  }

  lemma SameLength<T>(leq: (T, T) -> bool, s: seq<T>)
    ensures |Sort(leq, s)| == |s|
  {
    SortMembers(leq, s);
    assert |multiset(Sort(leq, s))| == |multiset(s)|;
  }

  lemma SortOne<T>(leq: (T, T) -> bool, x: T)
    ensures Sort(leq, [x]) == [x]
  {
    assert [x][..0] == [];
  }

  /** How many entries satisfy a condition. */
  function Matching<T>(p: T -> bool, s: seq<T>): nat {
    if s == [] then 0 else Matching(p, s[..|s| - 1]) + if p(s[|s| - 1]) then 1 else 0
  }

  lemma MatchingAppend<T>(p: T -> bool, s: seq<T>, x: T)
    ensures Matching(p, s + [x]) == Matching(p, s) + if p(x) then 1 else 0
  {
    assert (s + [x])[..|s|] == s;
  }

  lemma {:induction false} InsertMatching<T>(leq: (T, T) -> bool, p: T -> bool, s: seq<T>, x: T)
    ensures Matching(p, Insert(leq, s, x)) == Matching(p, s) + if p(x) then 1 else 0
  {
    if s == [] || leq(s[|s| - 1], x) {
      MatchingAppend(p, s, x);
    } else {
      InsertMatching(leq, p, s[..|s| - 1], x);
      MatchingAppend(p, Insert(leq, s[..|s| - 1], x), s[|s| - 1]);
    }
  }

  /** Sorting does not change how many entries satisfy a condition. */
  lemma {:induction false} SortMatching<T>(leq: (T, T) -> bool, p: T -> bool, s: seq<T>)
    ensures Matching(p, Sort(leq, s)) == Matching(p, s)
  {
    if s != [] {
      SortMatching(leq, p, s[..|s| - 1]);
      InsertMatching(leq, p, Sort(leq, s[..|s| - 1]), s[|s| - 1]);
    }
  }
}
