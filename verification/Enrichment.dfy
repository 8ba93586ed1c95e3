/**
 Enriching the benchmark suite (scripts/enrich_csab_gov_mini.py): cases get notes and a
 fingerprint, and cases sharing a fingerprint are told apart by a `variant_index` among the
 arguments of their payload.
 */
module Enrichment {

  import opened Json
  import opened PyLists
  import opened Wrappers

  /**
   `body` stands for the fingerprinted fields other than the arguments, `rest` for what is not
   fingerprinted, `notes` for the derived case kind and citations. Absent arguments are Obj(map[]).
   */
  datatype Case = Case(body: string, arguments: Json, rest: string, notes: string, fingerprint: string)

  datatype Deriver = Deriver(fingerprint: (string, Json) -> string, notes: (string, string) -> string)

  const VARIANT := "variant_index"

  // ---------------------------------------------------------------- tagging

  /** `dict(arguments or {})` raises on a non-empty value that is no mapping. */
  predicate Taggable(arguments: Json) {
    arguments.Obj? || !Truthy(arguments)
  }

  function Base(arguments: Json): map<string, Json> {
    if arguments.Obj? then arguments.fields - {VARIANT} else map[]
  }

  function WithVariant(base: map<string, Json>, k: nat): Json {
    Obj(base[VARIANT := Num(k)])
  }

  function Tag(c: Case, k: nat, d: Deriver): Case {
    var arguments := Obj((if c.arguments.Obj? then c.arguments.fields else map[])[VARIANT := Num(k)]);
    c.(arguments := arguments, fingerprint := d.fingerprint(c.body, arguments))
  }

  function Fingerprints(cases: seq<Case>): (fps: seq<string>)
    ensures |fps| == |cases| && forall i :: 0 <= i < |fps| ==> fps[i] == cases[i].fingerprint
  {
    seq(|cases|, i requires 0 <= i < |cases| => cases[i].fingerprint)
  }

  /** The position, from 1, of entry `i` among the equal ones. */
  function Rank(fps: seq<string>, i: nat): nat
    requires i < |fps|
  {
    Count(fps[..i], fps[i]) + 1
  }

  predicate Repeated(fps: seq<string>, i: nat)
    requires i < |fps|
  {
    Count(fps, fps[i]) > 1
  }

  function DecollidedAt(cases: seq<Case>, i: nat, d: Deriver): Case
    requires i < |cases|
  {
    if Repeated(Fingerprints(cases), i) then Tag(cases[i], Rank(Fingerprints(cases), i), d) else cases[i]
  }

  function Decollided(cases: seq<Case>, d: Deriver): (r: seq<Case>)
    ensures |r| == |cases| && forall i :: 0 <= i < |r| ==> r[i] == DecollidedAt(cases, i, d)
  {
    seq(|cases|, i requires 0 <= i < |cases| => DecollidedAt(cases, i, d))
  }

  predicate AllTaggable(cases: seq<Case>) {
    forall i :: 0 <= i < |cases| && Repeated(Fingerprints(cases), i) ==> Taggable(cases[i].arguments)
  }

  function Annotated(cases: seq<Case>, d: Deriver): (r: seq<Case>)
    ensures |r| == |cases|
    ensures forall i :: 0 <= i < |r| ==> r[i] == cases[i].(notes := d.notes(cases[i].body, cases[i].rest),
                                                           fingerprint := d.fingerprint(cases[i].body,
                                                               cases[i].arguments))
  {
    seq(|cases|, i requires 0 <= i < |cases| =>
      cases[i].(notes := d.notes(cases[i].body, cases[i].rest),
                fingerprint := d.fingerprint(cases[i].body, cases[i].arguments)))
  }

  /** The enriched suite, or None where tagging raises. */
  function Enriched(cases: seq<Case>, d: Deriver): Option<seq<Case>> {
    var annotated := Annotated(cases, d);
    if AllTaggable(annotated) then Some(Decollided(annotated, d)) else None
  }

  // ---------------------------------------------------------------- ranks

  lemma RankBounds(fps: seq<string>, i: nat)
    requires i < |fps|
    ensures 1 <= Rank(fps, i) <= Count(fps, fps[i])
  {
    CountPrefix(fps, i + 1, fps[i]);
    assert fps[..i + 1][..i] == fps[..i];
  }

  lemma RankOrder(fps: seq<string>, i: nat, j: nat)
    requires i < j < |fps| && fps[i] == fps[j]
    ensures Rank(fps, i) < Rank(fps, j)
  {
    assert fps[..j][..i + 1] == fps[..i + 1] && fps[..i + 1][..i] == fps[..i];
    CountPrefix(fps[..j], i + 1, fps[i]);
  }

  /** Two entries that are equal are repeated. */
  lemma PairRepeats(fps: seq<string>, i: nat, j: nat)
    requires i < |fps| && j < |fps| && i != j && fps[i] == fps[j]
    ensures Repeated(fps, i)
  {
    var low, high := if i < j then i else j, if i < j then j else i;
    RankOrder(fps, low, high);
    RankBounds(fps, low);
    RankBounds(fps, high);
  }

  /** Every rank up to the number of equal entries is some entry's. */
  lemma {:induction false} RankReached(fps: seq<string>, f: string, v: nat) returns (i: nat)
    requires 1 <= v <= Count(fps, f)
    ensures i < |fps| && fps[i] == f && Rank(fps, i) == v
    decreases |fps|
  {
    var init := fps[..|fps| - 1];
    if v <= Count(init, f) {
      i := RankReached(init, f, v);
      assert init[..i] == fps[..i];
    } else {
      i := |fps| - 1;
    }
  }

  // ---------------------------------------------------------------- keys

  ghost predicate Injective(d: Deriver) {
    forall b: string, a: Json, b': string, a': Json ::
      d.fingerprint(b, a) == d.fingerprint(b', a') ==> b == b' && a == a'
  }

  ghost predicate UpToDate(cases: seq<Case>, d: Deriver) {
    forall i :: 0 <= i < |cases| ==> cases[i].fingerprint == d.fingerprint(cases[i].body, cases[i].arguments)
  }

  lemma TagKey(c: Case, k: nat, d: Deriver)
    ensures Tag(c, k, d).arguments == WithVariant(Base(c.arguments), k)
    ensures Base(Tag(c, k, d).arguments) == Base(c.arguments)
  {
    var fields := if c.arguments.Obj? then c.arguments.fields else map[];
    assert fields[VARIANT := Num(k)] == Base(c.arguments)[VARIANT := Num(k)];
    assert fields[VARIANT := Num(k)] - {VARIANT} == Base(c.arguments);
  }

  lemma VariantsDiffer(base: map<string, Json>, j: nat, k: nat)
    requires j != k
    ensures WithVariant(base, j) != WithVariant(base, k)
  {
    assert base[VARIANT := Num(j)][VARIANT] == Num(j) && base[VARIANT := Num(k)][VARIANT] == Num(k);
  }

  /** The same but for a variant index. */
  predicate SameFamily(c: Case, e: Case) {
    c.body == e.body && Base(c.arguments) == Base(e.arguments)
  }

  predicate HasVariantUpTo(arguments: Json, n: nat) {
    arguments.Obj? && VARIANT in arguments.fields && arguments.fields[VARIANT].Num?
        && 1 <= arguments.fields[VARIANT].n <= n
  }

  /** Numbering i's duplicates will meet j: j is numbered too, or carries one of the numbers already. */
  predicate Clash(cases: seq<Case>, i: nat, j: nat)
    requires i < |cases| && j < |cases|
  {
    var fps := Fingerprints(cases);
    && SameFamily(cases[i], cases[j]) && fps[i] != fps[j]
    && Repeated(fps, i) && (Repeated(fps, j) || HasVariantUpTo(cases[j].arguments, Count(fps, fps[i])))
  }

  predicate Safe(cases: seq<Case>) {
    forall i, j :: 0 <= i < |cases| && 0 <= j < |cases| ==> !Clash(cases, i, j)
  }

  ghost predicate Collide(cases: seq<Case>, d: Deriver, i: nat, j: nat)
    requires i < |cases| && j < |cases|
  {
    DecollidedAt(cases, i, d).fingerprint == DecollidedAt(cases, j, d).fingerprint
  }

  lemma AfterKey(cases: seq<Case>, d: Deriver, i: nat)
    requires i < |cases| && UpToDate(cases, d)
    ensures var c := DecollidedAt(cases, i, d);
            && c.fingerprint == d.fingerprint(c.body, c.arguments)
            && c.body == cases[i].body && Base(c.arguments) == Base(cases[i].arguments)
            && c.arguments == (if Repeated(Fingerprints(cases), i)
                               then WithVariant(Base(cases[i].arguments), Rank(Fingerprints(cases), i))
                                 else cases[i].arguments)
  {
    TagKey(cases[i], Rank(Fingerprints(cases), i), d);
  }

  /** A repeated case collides with a single one only when that one carries the number given. */
  lemma SingleCarriesNumber(arguments: Json, base: map<string, Json>, k: nat)
    requires Base(arguments) == base
    ensures arguments == WithVariant(base, k) <==>
            arguments.Obj? && VARIANT in arguments.fields && arguments.fields[VARIANT] == Num(k)
  {
    if arguments.Obj? && VARIANT in arguments.fields && arguments.fields[VARIANT] == Num(k) {
      assert arguments.fields == base[VARIANT := Num(k)];
    }
  }

  /** Cases of one group get different numbers and so different fingerprints. */
  lemma GroupIsToldApart(cases: seq<Case>, d: Deriver, i: nat, j: nat)
    requires i < j < |cases| && Injective(d) && UpToDate(cases, d)
    requires Fingerprints(cases)[i] == Fingerprints(cases)[j]
    ensures !Collide(cases, d, i, j)
  {
    var fps := Fingerprints(cases);
    PairRepeats(fps, i, j);
    RankOrder(fps, i, j);
    AfterKey(cases, d, i);
    AfterKey(cases, d, j);
    VariantsDiffer(Base(cases[i].arguments), Rank(fps, i), Rank(fps, j));
  }

  /** Two cases that collide after tagging clashed before. */
  lemma CollisionIsClash(cases: seq<Case>, d: Deriver, i: nat, j: nat)
    requires i < j < |cases| && Injective(d) && UpToDate(cases, d)
    requires Collide(cases, d, i, j)
    ensures Clash(cases, i, j) || Clash(cases, j, i)
  {
    var fps := Fingerprints(cases);
    AfterKey(cases, d, i);
    AfterKey(cases, d, j);
    RankBounds(fps, i);
    RankBounds(fps, j);
    if fps[i] == fps[j] {
      GroupIsToldApart(cases, d, i, j);
    } else {
      SingleCarriesNumber(cases[j].arguments, Base(cases[i].arguments), Rank(fps, i));
      SingleCarriesNumber(cases[i].arguments, Base(cases[i].arguments), Rank(fps, j));
    }
  }

  /** A clash makes two cases collide. */
  lemma ClashIsCollision(cases: seq<Case>, d: Deriver, i: nat, j: nat)
    requires i < |cases| && j < |cases| && UpToDate(cases, d) && Injective(d) && Clash(cases, i, j)
    ensures exists x, y :: 0 <= x < |cases| && 0 <= y < |cases| && x != y && Collide(cases, d, x, y)
  {
    var fps := Fingerprints(cases);
    var v := if Repeated(fps, j) then 1 else cases[j].arguments.fields[VARIANT].n;
    var x := RankReached(fps, fps[i], v);
    var y := j;
    if Repeated(fps, j) { y := RankReached(fps, fps[j], 1); }
    assert cases[x].body == cases[i].body && cases[x].arguments == cases[i].arguments;
    assert cases[y].body == cases[j].body && cases[y].arguments == cases[j].arguments;
    AfterKey(cases, d, x);
    AfterKey(cases, d, y);
    SingleCarriesNumber(cases[j].arguments, Base(cases[j].arguments), v);
    assert Collide(cases, d, x, y);
  }

  /** One pass leaves all fingerprints distinct exactly on safe suites. */
  lemma DistinctWhenSafe(cases: seq<Case>, d: Deriver)
    requires UpToDate(cases, d) && Injective(d)
    ensures NoDuplicates(Fingerprints(Decollided(cases, d))) <==> Safe(cases)
  {
    var after := Fingerprints(Decollided(cases, d));
    if Safe(cases) {
      forall i, j | 0 <= i < j < |after| ensures after[i] != after[j] {
        if after[i] == after[j] { CollisionIsClash(cases, d, i, j); }
      }
    } else {
      var i, j :| 0 <= i < |cases| && 0 <= j < |cases| && Clash(cases, i, j);
      ClashIsCollision(cases, d, i, j);
      var x, y :| 0 <= x < |cases| && 0 <= y < |cases| && x != y && Collide(cases, d, x, y);
      assert after[x] == after[y];
    }
  }

  // ---------------------------------------------------------------- running it again

  lemma UniqueIsUntouched(cases: seq<Case>, d: Deriver)
    requires NoDuplicates(Fingerprints(cases))
    ensures AllTaggable(cases) && Decollided(cases, d) == cases
  {
    var fps := Fingerprints(cases);
    forall i | 0 <= i < |cases| ensures !Repeated(fps, i) { CountOnce(fps, fps[i]); }
  }

  /** On up-to-date cases tagging changes nothing exactly when no fingerprint repeats. */
  lemma FixedWhenUnique(cases: seq<Case>, d: Deriver)
    requires UpToDate(cases, d) && Injective(d)
    ensures Decollided(cases, d) == cases <==> NoDuplicates(Fingerprints(cases))
  {
    var fps := Fingerprints(cases);
    if NoDuplicates(fps) {
      UniqueIsUntouched(cases, d);
    } else {
      var i, j :| 0 <= i < j < |fps| && fps[i] == fps[j];
      GroupIsToldApart(cases, d, i, j);
      assert DecollidedAt(cases, i, d) != cases[i] || DecollidedAt(cases, j, d) != cases[j];
    }
  }

  lemma AnnotatedIsUpToDate(cases: seq<Case>, d: Deriver)
    ensures UpToDate(Annotated(cases, d), d)
    ensures UpToDate(Decollided(Annotated(cases, d), d), d)
    ensures Annotated(Decollided(Annotated(cases, d), d), d) == Decollided(Annotated(cases, d), d)
  {
    var a := Annotated(cases, d);
    forall i | 0 <= i < |cases| ensures
        var c := DecollidedAt(a, i, d);
        c.fingerprint == d.fingerprint(c.body, c.arguments) && c.notes == d.notes(c.body, c.rest)
    {
      AfterKey(a, d, i);
    }
  }

  /** Enriching twice is enriching once exactly when the annotated suite is safe. */
  lemma EnrichTwice(cases: seq<Case>, d: Deriver)
    requires Injective(d) && Enriched(cases, d).Some?
    ensures Enriched(Enriched(cases, d).value, d) == Enriched(cases, d) <==> Safe(Annotated(cases, d))
    ensures NoDuplicates(Fingerprints(Enriched(cases, d).value)) <==> Safe(Annotated(cases, d))
  {
    var a := Annotated(cases, d);
    var once := Decollided(a, d);
    AnnotatedIsUpToDate(cases, d);
    DistinctWhenSafe(a, d);
    FixedWhenUnique(once, d);
    if Safe(a) { UniqueIsUntouched(once, d); }
  }

  /** Suites of mapping arguments without any variant index are safe, so enriching them is idempotent. */
  lemma FreshSuiteIsIdempotent(cases: seq<Case>, d: Deriver)
    requires Injective(d)
    requires forall i :: 0 <= i < |cases| ==> cases[i].arguments.Obj? && VARIANT !in cases[i].arguments.fields
    ensures Enriched(cases, d).Some? && Enriched(Enriched(cases, d).value, d) == Enriched(cases, d)
    ensures NoDuplicates(Fingerprints(Enriched(cases, d).value))
  {
    var a := Annotated(cases, d);
    forall i, j | 0 <= i < |a| && 0 <= j < |a| && SameFamily(a[i], a[j]) ensures a[i].fingerprint == a[j].fingerprint {
      assert Base(a[i].arguments) == a[i].arguments.fields && Base(a[j].arguments) == a[j].arguments.fields;
    }
    assert Safe(a);
    EnrichTwice(cases, d);
  }

  /**
   A suite without any variant index that is not idempotent: two cases with `arguments: null` and
   two with `arguments: {}` are two groups, but tagging makes them the same.
   */
  lemma BlankArgumentsBreakIt(d: Deriver)
    requires Injective(d)
    ensures var blank, empty := Case("b", Null, "", "", ""), Case("b", Obj(map[]), "", "", "");
            var suite := [blank, blank, empty, empty];
            Enriched(suite, d).Some? && Enriched(Enriched(suite, d).value, d) != Enriched(suite, d)
  {
    var blank, empty := Case("b", Null, "", "", ""), Case("b", Obj(map[]), "", "", "");
    var suite := [blank, blank, empty, empty];
    var a := Annotated(suite, d);
    var fps := Fingerprints(a);
    PairRepeats(fps, 0, 1);
    PairRepeats(fps, 2, 3);
    assert Base(a[0].arguments) == Base(a[2].arguments);
    assert Clash(a, 0, 2);
    forall i | 0 <= i < |a| ensures Taggable(a[i].arguments) { assert i == 0 || i == 1 || i == 2 || i == 3; }
    EnrichTwice(suite, d);
  }

  // ---------------------------------------------------------------- the loops

  /** The positions of `f`, in order. */
  function Positions(fps: seq<string>, f: string): (r: seq<nat>)
    ensures forall i <- r :: i < |fps| && fps[i] == f
  {
    if fps == [] then []
    else Positions(fps[..|fps| - 1], f) + (if fps[|fps| - 1] == f then [|fps| - 1] else [])
  }

  lemma {:induction false} PositionsRank(fps: seq<string>, f: string)
    ensures |Positions(fps, f)| == Count(fps, f)
    ensures forall k :: 0 <= k < |Positions(fps, f)| ==>
              Positions(fps, f)[k] < |fps| && Rank(fps, Positions(fps, f)[k]) == k + 1
    ensures forall i :: 0 <= i < |fps| && fps[i] == f ==> i in Positions(fps, f)
  {
    if fps != [] {
      var init := fps[..|fps| - 1];
      PositionsRank(init, f);
      forall i | 0 <= i < |init| ensures init[..i] == fps[..i] {}
    }
  }

  /** The distinct entries, by first occurrence. */
  function FirstSeen(fps: seq<string>): (r: seq<string>)
    ensures forall f :: f in r <==> f in fps
    ensures NoDuplicates(r)
  {
    if fps == [] then []
    else
      var init, f := FirstSeen(fps[..|fps| - 1]), fps[|fps| - 1];
      assert fps == fps[..|fps| - 1] + [f];
      if f in init then init else init + [f]
  }

  lemma PositionsStep(fps: seq<string>, i: nat, f: string)
    requires i < |fps|
    ensures Positions(fps[..i + 1], f) == Positions(fps[..i], f) + (if fps[i] == f then [i] else [])
  {
    assert fps[..i + 1][..i] == fps[..i];
  }

  lemma FirstSeenStep(fps: seq<string>, i: nat)
    requires i < |fps|
    ensures FirstSeen(fps[..i + 1]) == FirstSeen(fps[..i]) + (if fps[i] in FirstSeen(fps[..i]) then [] else [fps[i]])
  {
    assert fps[..i + 1][..i] == fps[..i];
  }

  lemma {:induction false} NoPositions(fps: seq<string>, f: string)
    requires f !in fps
    ensures Positions(fps, f) == []
  {
    if fps != [] { NoPositions(fps[..|fps| - 1], f); }
  }

  method GroupByFingerprint(cases: array<Case>) returns (groups: map<string, seq<nat>>, order: seq<string>)
    ensures order == FirstSeen(Fingerprints(cases[..]))
    ensures forall f :: f in groups <==> f in order
    ensures forall f <- order :: groups[f] == Positions(Fingerprints(cases[..]), f)
  {
    groups, order := map[], [];
    ghost var fps := Fingerprints(cases[..]);
    for i := 0 to cases.Length
      invariant order == FirstSeen(fps[..i])
      invariant forall f :: f in groups <==> f in order
      invariant forall f <- order :: groups[f] == Positions(fps[..i], f)
    {
      var f := cases[i].fingerprint;
      FirstSeenStep(fps, i);
      if f !in groups {
        NoPositions(fps[..i], f);
        order := order + [f];
        groups := groups[f := []];
      }
      forall g <- order ensures Positions(fps[..i + 1], g) == Positions(fps[..i], g) + (if f == g then [i] else []) {
        PositionsStep(fps, i, g);
      }
      groups := groups[f := groups[f] + [i]];
    }
    assert fps[..cases.Length] == fps;
  }

  /** Numbers one group in place, in the order of its positions. */
  method TagGroup(cases: array<Case>, group: seq<nat>, d: Deriver, ghost was: seq<Case>, ghost f: string)
    returns (ok: bool)
    requires |was| == cases.Length && group == Positions(Fingerprints(was), f) && |group| > 1
    requires forall i :: 0 <= i < |was| && was[i].fingerprint == f ==> cases[i] == was[i]
    modifies cases
    ensures ok <==> forall i :: 0 <= i < |was| && was[i].fingerprint == f ==> Taggable(was[i].arguments)
    ensures ok ==> forall i :: 0 <= i < |was| ==>
                     cases[i] == if was[i].fingerprint == f then DecollidedAt(was, i, d) else old(cases[i])
  {
    ghost var fps := Fingerprints(was);
    PositionsRank(fps, f);
    for v := 0 to |group|
      invariant forall k :: 0 <= k < v ==> Taggable(was[group[k]].arguments)
      invariant forall i :: 0 <= i < |was| ==>
                  cases[i] == if was[i].fingerprint == f && Rank(fps, i) <= v then DecollidedAt(was, i, d)
                    else old(cases[i])
    {
      var i := group[v];
      assert fps[i] == f && Rank(fps, i) == v + 1 && cases[i] == was[i];
      if !Taggable(cases[i].arguments) { return false; }
      cases[i] := Tag(cases[i], v + 1, d);
      assert cases[i] == DecollidedAt(was, i, d);
      forall j | 0 <= j < |was| && j != i && fps[j] == f ensures Rank(fps, j) != v + 1 {
        if j < i { RankOrder(fps, j, i); } else { RankOrder(fps, i, j); }
      }
    }
    forall i | 0 <= i < |was| && was[i].fingerprint == f ensures Taggable(was[i].arguments) && Rank(fps, i) <= |group| {
      var k :| 0 <= k < |group| && group[k] == i;
    }
    return true;
  }

  /** The groups of `done` have been numbered, or needed no number, and the rest is as it was. */
  ghost predicate Handled(now: seq<Case>, was: seq<Case>, done: set<string>, d: Deriver) {
    && |now| == |was|
    && (forall i :: 0 <= i < |was| ==> now[i] == if was[i].fingerprint in done then DecollidedAt(was, i, d) else was[i])
    && (forall i :: 0 <= i < |was| && was[i].fingerprint in done && Repeated(Fingerprints(was), i) ==>
        Taggable(was[i].arguments))
  }

  lemma AllHandled(now: seq<Case>, was: seq<Case>, done: set<string>, d: Deriver)
    requires Handled(now, was, done, d) && forall f <- Fingerprints(was) :: f in done
    ensures AllTaggable(was) && now == Decollided(was, d)
  {
    var fps := Fingerprints(was);
    forall i | 0 <= i < |was| ensures was[i].fingerprint in done { assert fps[i] in fps; }
  }

  /** How many cases of group `f` need a number. */
  function ToTag(fps: seq<string>, f: string): nat {
    if Count(fps, f) > 1 then Count(fps, f) else 0
  }

  /** How many cases of the groups `fs` need a number. */
  function CasesTagged(fs: seq<string>, fps: seq<string>): nat {
    if fs == [] then 0 else CasesTagged(fs[..|fs| - 1], fps) + ToTag(fps, fs[|fs| - 1])
  }

  /** How many of the first n positions hold a repeated entry. */
  function RepeatedUpTo(fps: seq<string>, n: nat): nat
    requires n <= |fps|
  {
    if n == 0 then 0 else RepeatedUpTo(fps, n - 1) + if Repeated(fps, n - 1) then 1 else 0
  }

  /** How many of the first n positions are of the groups `fs` and hold a repeated entry. */
  function TaggedUpTo(fs: seq<string>, fps: seq<string>, n: nat): nat
    requires n <= |fps|
  {
    if fs == [] then 0 else
      var f := fs[|fs| - 1];
      TaggedUpTo(fs[..|fs| - 1], fps, n) + if Count(fps, f) > 1 then Count(fps[..n], f) else 0
  }

  lemma {:induction false} TaggedNext(fs: seq<string>, fps: seq<string>, n: nat)
    requires n < |fps| && NoDuplicates(fs)
    ensures TaggedUpTo(fs, fps, n + 1) ==
              TaggedUpTo(fs, fps, n) + if fps[n] in fs && Count(fps, fps[n]) > 1 then 1 else 0
  {
    if fs != [] {
      var init, f := fs[..|fs| - 1], fs[|fs| - 1];
      TaggedNext(init, fps, n);
      assert fps[..n + 1][..n] == fps[..n];
      assert fs == init + [f];
      assert Count(fps[..n + 1], f) == Count(fps[..n], f) + if fps[n] == f then 1 else 0;
    }
  }

  lemma {:induction false} TaggedNone(fs: seq<string>, fps: seq<string>)
    ensures TaggedUpTo(fs, fps, 0) == 0
  {
    if fs != [] { TaggedNone(fs[..|fs| - 1], fps); }
  }

  lemma {:induction false} TaggedIsRepeated(fs: seq<string>, fps: seq<string>, n: nat)
    requires n <= |fps| && NoDuplicates(fs) && forall f <- fps :: f in fs
    ensures TaggedUpTo(fs, fps, n) == RepeatedUpTo(fps, n)
  {
    if n == 0 {
      TaggedNone(fs, fps);
    } else {
      TaggedIsRepeated(fs, fps, n - 1);
      TaggedNext(fs, fps, n - 1);
      assert fps[n - 1] in fps;
    }
  }

  lemma {:induction false} TaggedAll(fs: seq<string>, fps: seq<string>)
    ensures CasesTagged(fs, fps) == TaggedUpTo(fs, fps, |fps|)
  {
    assert fps[..|fps|] == fps;
    if fs != [] { TaggedAll(fs[..|fs| - 1], fps); }
  }

  /** The number reported as tagged is that of the cases whose fingerprint repeats. */
  lemma TaggedExactly(fps: seq<string>)
    ensures CasesTagged(FirstSeen(fps), fps) == RepeatedUpTo(fps, |fps|)
  {
    TaggedAll(FirstSeen(fps), fps);
    TaggedIsRepeated(FirstSeen(fps), fps, |fps|);
  }

  lemma TotalStep(order: seq<string>, g: nat, fps: seq<string>)
    requires g < |order|
    ensures CasesTagged(order[..g + 1], fps) == CasesTagged(order[..g], fps) + ToTag(fps, order[g])
  {
    assert order[..g + 1][..g] == order[..g];
  }

  method DecollideGroup(cases: array<Case>, group: seq<nat>, d: Deriver,
                        ghost was: seq<Case>, ghost done: set<string>, ghost f: string)
    returns (r: Option<nat>)
    requires Handled(cases[..], was, done, d) && f !in done && group == Positions(Fingerprints(was), f)
    modifies cases
    ensures r.Some? ==> Handled(cases[..], was, done + {f}, d) && r.value == ToTag(Fingerprints(was), f)
    ensures r.None? ==> !AllTaggable(was)
  {
    PositionsRank(Fingerprints(was), f);
    if |group| <= 1 { return Some(0); }
    var ok := TagGroup(cases, group, d, was, f);
    return if ok then Some(|group|) else None;
  }

  /** Tells the cases apart in place; raises where a repeated case cannot be tagged. */
  method Decollide(cases: array<Case>, d: Deriver) returns (r: Option<nat>)
    modifies cases
    ensures r.Some? <==> AllTaggable(old(cases[..]))
    ensures r.Some? ==> cases[..] == Decollided(old(cases[..]), d)
    ensures r.Some? ==> r.value == CasesTagged(FirstSeen(Fingerprints(old(cases[..]))), Fingerprints(old(cases[..])))
  {
    var groups, order := GroupByFingerprint(cases);
    ghost var was, fps := cases[..], Fingerprints(cases[..]);
    ghost var done: set<string> := {};
    var tagged := 0;
    for g := 0 to |order|
      invariant forall k :: 0 <= k < |order| ==> (order[k] in done <==> k < g)
      invariant Handled(cases[..], was, done, d)
      invariant tagged == CasesTagged(order[..g], fps)
    {
      var f := order[g];
      var n := DecollideGroup(cases, groups[f], d, was, done, f);
      if n.None? { return None; }
      TotalStep(order, g, fps);
      tagged := tagged + n.value;
      done := done + {f};
    }
    assert order[..|order|] == order;
    AllHandled(cases[..], was, done, d);
    return Some(tagged);
  }

  /** Annotates a copy of every case, then tells the copies apart. */
  method Enrich(suite: seq<Case>, d: Deriver) returns (r: Option<seq<Case>>)
    ensures r == Enriched(suite, d)
  {
    var cases := new Case[|suite|];
    for i := 0 to |suite|
      invariant cases[..i] == Annotated(suite, d)[..i]
    {
      var c := suite[i];
      cases[i] := c.(notes := d.notes(c.body, c.rest), fingerprint := d.fingerprint(c.body, c.arguments));
    }
    assert cases[..] == Annotated(suite, d);
    var tagged := Decollide(cases, d);
    if tagged.None? { return None; }
    return Some(cases[..]);
  }
}
