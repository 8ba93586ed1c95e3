/**
 The row checks of the benchmark corpus (bench/corpus.py): payload duplicates are found by
 listing the cases of every payload hash, split leaks by collecting the splits of every
 semantic group. `hash` stands for the digest of the normalized payload.
 */
module Corpus {

  import opened Wrappers

  /** `payload` is None where it is no object or an empty one; "" stands for a missing text. */
  datatype Row = Row(caseId: string, cohort: string, split: string, group: string, payload: Option<string>,
                     declaredHash: string, declaredCohort: string, declaredSplit: string,
                     expectedRefusal: Option<bool>, refs: seq<string>, category: string)

  datatype Fault = BadRow(id: string) | DuplicateId(id: string) | RepeatedPayloads | CrossingGroups

  predicate IsSplit(s: string) { s == "development" || s == "calibration" || s == "holdout" }

  predicate RowOk(r: Row, hash: string -> string, sources: set<string>, categories: set<string>) {
    && r.caseId != "" && r.group != ""
    && (r.cohort == "refusal" || r.cohort == "non_refusal") && IsSplit(r.split)
    && r.cohort == r.declaredCohort && r.split == r.declaredSplit
    && r.expectedRefusal == Some(r.cohort == "refusal")
    && r.payload.Some? && r.declaredHash == hash(r.payload.value)
    && r.refs != [] && (forall ref <- r.refs :: ref in sources)
    && (r.cohort == "refusal" ==> r.category in categories)
  }

  function HashOf(r: Row, hash: string -> string): Option<string> {
    match r.payload case None => None case Some(p) => Some(hash(p))
  }

  predicate Grouped(r: Row) { r.group != "" && IsSplit(r.split) }

  // ---------------------------------------------------------------- what the loop remembers

  /** The cases of every payload hash. */
  function Listed(rows: seq<Row>, k: nat, hash: string -> string): map<string, seq<string>>
    requires k <= |rows|
  {
    if k == 0 then map[] else List(Listed(rows, k - 1, hash), rows[k - 1], hash)
  }

  function List(m: map<string, seq<string>>, r: Row, hash: string -> string): map<string, seq<string>> {
    match HashOf(r, hash)
    case None => m
    case Some(d) => m[d := (if d in m then m[d] else []) + [r.caseId]]
  }

  /** The splits of every semantic group. */
  function Collected(rows: seq<Row>, k: nat): map<string, set<string>>
    requires k <= |rows|
  {
    if k == 0 then map[] else Collect(Collected(rows, k - 1), rows[k - 1])
  }

  function Collect(m: map<string, set<string>>, r: Row): map<string, set<string>> {
    if Grouped(r) then m[r.group := (if r.group in m then m[r.group] else {}) + {r.split}] else m
  }

  ghost predicate PayloadsDiffer(rows: seq<Row>, k: nat, hash: string -> string)
    requires k <= |rows|
  {
    forall i, j :: 0 <= i < j < k && rows[i].payload.Some? ==> HashOf(rows[i], hash) != HashOf(rows[j], hash)
  }

  ghost predicate GroupsStay(rows: seq<Row>, k: nat)
    requires k <= |rows|
  {
    forall i, j :: 0 <= i < j < k && Grouped(rows[i]) && Grouped(rows[j]) && rows[i].group == rows[j].group ==>
                   rows[i].split == rows[j].split
  }

  lemma {:induction false} ListedKeys(rows: seq<Row>, k: nat, hash: string -> string)
    requires k <= |rows|
    ensures forall d :: d in Listed(rows, k, hash) <==> exists i :: 0 <= i < k && HashOf(rows[i], hash) == Some(d)
    ensures forall d <- Listed(rows, k, hash) :: Listed(rows, k, hash)[d] != []
  {
    if k > 0 {
      ListedKeys(rows, k - 1, hash);
      var m := Listed(rows, k - 1, hash);
      forall d | d in Listed(rows, k, hash) ensures exists i :: 0 <= i < k && HashOf(rows[i], hash) == Some(d) {
        if d in m { var i :| 0 <= i < k - 1 && HashOf(rows[i], hash) == Some(d); }
        else { assert HashOf(rows[k - 1], hash) == Some(d); }
      }
    }
  }

  predicate Single(m: map<string, seq<string>>) {
    forall d <- m :: |m[d]| <= 1
  }

  lemma SingleStep(m: map<string, seq<string>>, r: Row, hash: string -> string)
    requires forall d <- m :: m[d] != []
    ensures Single(List(m, r, hash)) <==> Single(m) && (r.payload.Some? ==> hash(r.payload.value) !in m)
  {
    if r.payload.Some? {
      var d := hash(r.payload.value);
      var next := List(m, r, hash);
      if d !in m {
        assert Single(next) ==> Single(m) by {
          if Single(next) { forall e <- m ensures |m[e]| <= 1 { assert next[e] == m[e]; } }
        }
      } else {
        assert |next[d]| > 1;
      }
    }
  }

  lemma DifferStep(rows: seq<Row>, k: nat, hash: string -> string)
    requires k < |rows|
    ensures PayloadsDiffer(rows, k + 1, hash) <==>
            && PayloadsDiffer(rows, k, hash)
            && (rows[k].payload.Some? ==> forall i :: 0 <= i < k ==> HashOf(rows[i], hash) != HashOf(rows[k], hash))
  {
  }

  lemma NewPayload(rows: seq<Row>, k: nat, hash: string -> string)
    requires k < |rows|
    ensures forall d <- Listed(rows, k, hash) :: Listed(rows, k, hash)[d] != []
    ensures rows[k].payload.Some? ==>
              (hash(rows[k].payload.value) !in Listed(rows, k, hash) <==>
                forall i :: 0 <= i < k ==> HashOf(rows[i], hash) != HashOf(rows[k], hash))
  {
    ListedKeys(rows, k, hash);
  }

  /** No list is longer than one exactly when no two rows have the same normalized payload. */
  lemma {:induction false} ListsFindDuplicates(rows: seq<Row>, k: nat, hash: string -> string)
    requires k <= |rows|
    ensures Single(Listed(rows, k, hash)) <==> PayloadsDiffer(rows, k, hash)
  {
    if k > 0 {
      ListsFindDuplicates(rows, k - 1, hash);
      NewPayload(rows, k - 1, hash);
      DifferStep(rows, k - 1, hash);
      SingleStep(Listed(rows, k - 1, hash), rows[k - 1], hash);
    }
  }

  lemma {:induction false} CollectedSplits(rows: seq<Row>, k: nat)
    requires k <= |rows|
    ensures forall g <- Collected(rows, k) :: forall s <- Collected(rows, k)[g] ::
              exists i :: 0 <= i < k && Grouped(rows[i]) && rows[i].group == g && rows[i].split == s
    ensures forall i :: 0 <= i < k && Grouped(rows[i]) ==>
              rows[i].group in Collected(rows, k) && rows[i].split in Collected(rows, k)[rows[i].group]
  {
    if k > 0 {
      CollectedSplits(rows, k - 1);
      var m, r := Collected(rows, k - 1), rows[k - 1];
      forall g, s | g in Collected(rows, k) && s in Collected(rows, k)[g]
        ensures exists i :: 0 <= i < k && Grouped(rows[i]) && rows[i].group == g && rows[i].split == s
      {
        if g in m && s in m[g] {
          var i :| 0 <= i < k - 1 && Grouped(rows[i]) && rows[i].group == g && rows[i].split == s;
        } else {
          assert Grouped(r) && r.group == g && r.split == s;
        }
      }
    }
  }

  lemma AtMostOne(s: set<string>)
    ensures |s| <= 1 <==> forall x, y :: x in s && y in s ==> x == y
  {
    if x :| x in s {
      assert s == {x} + (s - {x});
      if |s| > 1 { var y :| y in s - {x}; }
    }
  }

  predicate OneEach(m: map<string, set<string>>) {
    forall g <- m :: |m[g]| <= 1
  }

  /** No group collects two splits exactly when no two rows of a group differ in their split. */
  lemma SetsFindCrossings(rows: seq<Row>, k: nat)
    requires k <= |rows|
    ensures OneEach(Collected(rows, k)) <==> GroupsStay(rows, k)
  {
    var m := Collected(rows, k);
    CollectedSplits(rows, k);
    if OneEach(m) {
      forall i, j | 0 <= i < j < k && Grouped(rows[i]) && Grouped(rows[j]) && rows[i].group == rows[j].group
        ensures rows[i].split == rows[j].split
      {
        AtMostOne(m[rows[i].group]);
      }
    }
    if GroupsStay(rows, k) {
      forall g <- m ensures |m[g]| <= 1 {
        forall x, y | x in m[g] && y in m[g] ensures x == y {
          var i :| 0 <= i < k && Grouped(rows[i]) && rows[i].group == g && rows[i].split == x;
          var j :| 0 <= j < k && Grouped(rows[j]) && rows[j].group == g && rows[j].split == y;
          assert i < j || j < i || i == j;
        }
        AtMostOne(m[g]);
      }
    }
  }

  // ---------------------------------------------------------------- the loop

  ghost predicate RowsOk(rows: seq<Row>, k: nat, hash: string -> string, sources: set<string>, categories: set<string>)
    requires k <= |rows|
  {
    forall i :: 0 <= i < k ==> RowOk(rows[i], hash, sources, categories)
  }

  /** What makes a row well formed. */
  predicate WellFormed(r: Row, hash: string -> string, sources: set<string>, categories: set<string>) {
    && r.caseId != "" && r.group != ""
    && r.cohort in {"refusal", "non_refusal"} && r.split in {"development", "calibration", "holdout"}
    && r.declaredCohort == r.cohort && r.declaredSplit == r.split
    && r.expectedRefusal == Some(r.cohort == "refusal")
    && r.payload.Some? && hash(r.payload.value) == r.declaredHash
    && |r.refs| > 0 && (forall ref <- r.refs :: ref in sources)
    && (r.cohort == "refusal" ==> r.category in categories)
  }

  ghost predicate DistinctIds(rows: seq<Row>, k: nat)
    requires k <= |rows|
  {
    forall i, j :: 0 <= i < j < k ==> rows[i].caseId != rows[j].caseId
  }

  function Ids(rows: seq<Row>, k: nat): set<string>
    requires k <= |rows|
  {
    if k == 0 then {} else Ids(rows, k - 1) + {rows[k - 1].caseId}
  }

  predicate CleanRows(rows: seq<Row>, k: nat, hash: string -> string, sources: set<string>, categories: set<string>)
    requires k <= |rows|
  {
    k == 0 ||
    (&& CleanRows(rows, k - 1, hash, sources, categories)
     && RowOk(rows[k - 1], hash, sources, categories) && rows[k - 1].caseId !in Ids(rows, k - 1))
  }

  lemma {:induction false} IdsMembers(rows: seq<Row>, k: nat, id: string)
    requires k <= |rows|
    ensures id in Ids(rows, k) <==> exists i :: 0 <= i < k && rows[i].caseId == id
  {
    if k > 0 { IdsMembers(rows, k - 1, id); }
  }

  lemma {:induction false} CleanMeans(rows: seq<Row>, k: nat, hash: string -> string, sources: set<string>,
                                      categories: set<string>)
    requires k <= |rows|
    ensures CleanRows(rows, k, hash, sources, categories) <==>
            RowsOk(rows, k, hash, sources, categories) && DistinctIds(rows, k)
  {
    if k > 0 {
      CleanMeans(rows, k - 1, hash, sources, categories);
      IdsMembers(rows, k - 1, rows[k - 1].caseId);
    }
  }

  /** A clean corpus, said of its rows and pairs of rows. */
  lemma CleanExactly(rows: seq<Row>, hash: string -> string, sources: set<string>, categories: set<string>)
    ensures RowsOk(rows, |rows|, hash, sources, categories) && DistinctIds(rows, |rows|)
            && PayloadsDiffer(rows, |rows|, hash) && GroupsStay(rows, |rows|)
       <==> && (forall i :: 0 <= i < |rows| ==> WellFormed(rows[i], hash, sources, categories))
            && (forall i, j :: 0 <= i < j < |rows| ==>
                  && rows[i].caseId != rows[j].caseId
                  && (rows[i].payload.Some? && rows[j].payload.Some? ==>
                        hash(rows[i].payload.value) != hash(rows[j].payload.value))
                  && (rows[i].group == rows[j].group ==> rows[i].split == rows[j].split))
  {
    assert RowsOk(rows, |rows|, hash, sources, categories) <==>
             forall i :: 0 <= i < |rows| ==> WellFormed(rows[i], hash, sources, categories);
    if RowsOk(rows, |rows|, hash, sources, categories) {
      assert forall i :: 0 <= i < |rows| ==>
               Grouped(rows[i]) && HashOf(rows[i], hash) == Some(hash(rows[i].payload.value));
    }
  }

  /**
   The rows are reported clean exactly when each is well formed, no case id and no normalized
   payload occurs twice, and no semantic group crosses splits.
   */
  method ValidateRows(rows: seq<Row>, hash: string -> string, sources: set<string>, categories: set<string>)
    returns (faults: seq<Fault>)
    ensures faults == [] <==>
            && RowsOk(rows, |rows|, hash, sources, categories) && DistinctIds(rows, |rows|)
            && PayloadsDiffer(rows, |rows|, hash) && GroupsStay(rows, |rows|)
  {
    var ids: set<string> := {};
    var hashes: map<string, seq<string>>, groups: map<string, set<string>> := map[], map[];
    faults := [];
    for k := 0 to |rows|
      invariant ids == Ids(rows, k)
      invariant hashes == Listed(rows, k, hash) && groups == Collected(rows, k)
      invariant faults == [] <==> CleanRows(rows, k, hash, sources, categories)
    {
      var r := rows[k];
      if !RowOk(r, hash, sources, categories) { faults := faults + [BadRow(r.caseId)]; }
      if r.caseId in ids { faults := faults + [DuplicateId(r.caseId)]; }
      ids := ids + {r.caseId};
      hashes := List(hashes, r, hash);
      groups := Collect(groups, r);
    }
    CleanMeans(rows, |rows|, hash, sources, categories);
    ListsFindDuplicates(rows, |rows|, hash);
    SetsFindCrossings(rows, |rows|);
    if !Single(hashes) { faults := faults + [RepeatedPayloads]; }
    if !OneEach(groups) { faults := faults + [CrossingGroups]; }
  }
}
