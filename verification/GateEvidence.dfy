/**
 The Gate6 evidence chain: the collector verifies the durable source chain, redacts each record and
 re-chains the result (scripts/collect_identity_undo_evidence.py); the verifier of
 scripts/verify_identity_undo_evidence.py later judges the published chain on its own.
 */
module GateEvidence {
  import opened Wrappers
  import opened Json
  import opened PublicProjection
  import HashChain

  const HASH_PREV := "gen_ai.evidence.hash_prev"
  const RECORD_HASH := "record_hash"
  const TRACE_ID := "trace_id"

  type Record = map<string, Json>

  /** The digest of a canonical JSON value, and Python's rendering of non-string values. */
  datatype Hashing = Hashing(hash: Json -> string, repr: Json -> string)

  /** The part of a record its hash covers. */
  function Unsigned(r: Record): Json {
    Obj(map k | k in r && k !in {RECORD_HASH, "signature"} :: r[k])
  }

  function Bodies(records: seq<Record>): seq<Json> {
    if records == [] then [] else Bodies(records[..|records| - 1]) + [Unsigned(records[|records| - 1])]
  }

  // ---------------------------------------------------------------- the independent verifier

  datatype ChainError = EmptyChain | PredecessorMismatch(at: nat) | HashMismatch(at: nat)

  function Head(hs: Hashing, records: seq<Record>): string {
    if records == [] then "" else hs.hash(Unsigned(records[|records| - 1]))
  }

  predicate LinksTo(r: Record, previous: string) {
    Get(r, HASH_PREV) == Str(previous)
  }

  predicate CarriesHash(hs: Hashing, r: Record) {
    Get(r, RECORD_HASH) == Str(hs.hash(Unsigned(r)))
  }

  predicate Verified(hs: Hashing, records: seq<Record>) {
    records == [] ||
    var n := |records| - 1;
    Verified(hs, records[..n]) && LinksTo(records[n], Head(hs, records[..n])) && CarriesHash(hs, records[n])
  }

  lemma {:induction false} VerifiedPrefix(hs: Hashing, records: seq<Record>, n: nat)
    requires Verified(hs, records) && n <= |records|
    ensures Verified(hs, records[..n])
    ensures n < |records| ==> LinksTo(records[n], Head(hs, records[..n])) && CarriesHash(hs, records[n])
    decreases |records|
  {
    var m := |records| - 1;
    if n < m {
      assert records[..m][..n] == records[..n];
      VerifiedPrefix(hs, records[..m], n);
    } else if n == |records| {
      assert records[..n] == records;
    }
  }

  /** The hash covers every field but the hash itself and the signature. */
  lemma UnsignedExactly(a: Record, b: Record)
    ensures Unsigned(a) == Unsigned(b) <==>
              forall k :: k !in {"record_hash", "signature"} ==> (k in a <==> k in b) && (k in a ==> a[k] == b[k])
  {
    var x, y := Unsigned(a).fields, Unsigned(b).fields;
    forall k: string
      ensures (k in x <==> k in a && k !in {"record_hash", "signature"}) && (k in x ==> x[k] == a[k])
      ensures (k in y <==> k in b && k !in {"record_hash", "signature"}) && (k in y ==> y[k] == b[k])
    {
      UnsignedReads(a, k);
      UnsignedReads(b, k);
    }
    if x == y {
      forall k | k !in {"record_hash", "signature"} ensures (k in a <==> k in b) && (k in a ==> a[k] == b[k]) {
        assert k in x <==> k in y;
      }
    }
  }

  lemma UnsignedReads(r: Record, k: string)
    ensures k in Unsigned(r).fields <==> k in r && k != "record_hash" && k != "signature"
    ensures k in Unsigned(r).fields ==> Unsigned(r).fields[k] == r[k]
  {
  }

  /** Record by record: each names the hash of the one before, the first none, and carries its own. */
  ghost predicate WellChained(hs: Hashing, records: seq<Record>, i: nat)
    requires i < |records|
  {
    && Get(records[i], "gen_ai.evidence.hash_prev") == Str(if i == 0 then "" else hs.hash(Unsigned(records[i - 1])))
    && Get(records[i], "record_hash") == Str(hs.hash(Unsigned(records[i])))
  }

  lemma InitWellChained(hs: Hashing, records: seq<Record>, n: nat, i: nat)
    requires i < n <= |records|
    ensures WellChained(hs, records[..n], i) <==> WellChained(hs, records, i)
  {
  }

  lemma {:induction false} VerifiedExactly(hs: Hashing, records: seq<Record>)
    ensures Verified(hs, records) <==> forall i :: 0 <= i < |records| ==> WellChained(hs, records, i)
  {
    if records != [] {
      var n := |records| - 1;
      VerifiedExactly(hs, records[..n]);
      forall i | 0 <= i < n ensures WellChained(hs, records[..n], i) <==> WellChained(hs, records, i) {
        InitWellChained(hs, records, n, i);
      }
      assert LinksTo(records[n], Head(hs, records[..n])) && CarriesHash(hs, records[n]) <==>
               WellChained(hs, records, n);
    }
  }

  /** `verify_gate6_chain`: accepts exactly the non-empty well-linked chains, and names the first bad record. */
  method VerifyGateChain(hs: Hashing, records: seq<Record>) returns (error: Option<ChainError>)
    ensures error.None? <==> records != [] && Verified(hs, records)
    ensures error == Some(EmptyChain) <==> records == []
    ensures error.Some? && error.value.PredecessorMismatch? ==>
              var i := error.value.at;
              i < |records| && Verified(hs, records[..i]) && !LinksTo(records[i], Head(hs, records[..i]))
    ensures error.Some? && error.value.HashMismatch? ==>
              var i := error.value.at;
              i < |records| && Verified(hs, records[..i]) && LinksTo(records[i], Head(hs, records[..i]))
                  && !CarriesHash(hs, records[i])
  {
    if records == [] { return Some(EmptyChain); }
    var previous := "";
    for i := 0 to |records|
      invariant Verified(hs, records[..i]) && previous == Head(hs, records[..i])
    {
      assert records[..i + 1][..i] == records[..i];
      if Get(records[i], HASH_PREV) != Str(previous) {
        if Verified(hs, records) { VerifiedPrefix(hs, records, i); }
        return Some(PredecessorMismatch(i));
      }
      var expected := hs.hash(Unsigned(records[i]));
      if Get(records[i], RECORD_HASH) != Str(expected) {
        if Verified(hs, records) { VerifiedPrefix(hs, records, i); }
        return Some(HashMismatch(i));
      }
      previous := expected;
    }
    assert records[..|records|] == records;
    return None;
  }

  /** How the verifier reads a body's link. */
  function EmbeddedLink(body: Json): Json {
    if body.Obj? then Get(body.fields, HASH_PREV) else Null
  }

  lemma {:induction false} VerifiedIsLinked(hs: Hashing, records: seq<Record>)
    requires Verified(hs, records)
    ensures HashChain.Linked(hs.hash, EmbeddedLink, Str(""), Bodies(records))
    ensures HashChain.LinkTo(hs.hash, Str(""), Bodies(records)) == Str(Head(hs, records))
    ensures |Bodies(records)| == |records|
  {
    if records != [] {
      var n := |records| - 1;
      VerifiedIsLinked(hs, records[..n]);
      HashChain.LinkedAppend(hs.hash, EmbeddedLink, Str(""), Bodies(records[..n]), Unsigned(records[n]));
    }
  }

  /**
   The last record hash of an accepted chain commits to all of it: two accepted chains that end in
   the same hash have the same length and agree on every hashed field of every record, unless
   they exhibit a hash collision. The hash is only assumed never to be the empty string.
   */
  lemma GateHeadCommits(hs: Hashing, a: seq<Record>, b: seq<Record>)
    requires Verified(hs, a) && Verified(hs, b) && (forall x :: hs.hash(x) != "")
    requires Head(hs, a) == Head(hs, b)
    ensures Bodies(a) == Bodies(b) || HashChain.Collision(hs.hash, Bodies(a), Bodies(b))
    ensures Bodies(a) == Bodies(b) ==> |a| == |b|
  {
    VerifiedIsLinked(hs, a);
    VerifiedIsLinked(hs, b);
    HashChain.HeadCommits(hs.hash, EmbeddedLink, Str(""), Bodies(a), Bodies(b));
  }

  // ---------------------------------------------------------------- the collector

  datatype SourceRow = SourceRow(seq_: int, record: Json, prevHash: string, recordHash: string)

  datatype SourceFault = NoRecord | RowPredecessor | SourceHash | EmbeddedHash | EmbeddedPredecessor

  datatype CollectionError = BadRow(at: nat, fault: SourceFault) | TraceMissing

  /** One line of the provenance file. */
  datatype Mapping = Mapping(projectedHash: string, seq_: int, sourceHash: string, traceId: string)

  function SourceHead(rows: seq<SourceRow>): string {
    if rows == [] then "" else rows[|rows| - 1].recordHash
  }

  /** The first check of the collector that a source row fails. */
  function Fault(hs: Hashing, row: SourceRow, previous: string): Option<SourceFault> {
    if !row.record.Obj? then Some(NoRecord)
    else if row.prevHash != previous then Some(RowPredecessor)
    else if hs.hash(Unsigned(row.record.fields)) != row.recordHash then Some(SourceHash)
    else if TextOrEmpty(hs.repr, Get(row.record.fields, RECORD_HASH)) != row.recordHash then Some(EmbeddedHash)
    else if TextOrEmpty(hs.repr, Get(row.record.fields, HASH_PREV)) != previous then Some(EmbeddedPredecessor)
    else None
  }

  predicate SourceOk(hs: Hashing, rows: seq<SourceRow>) {
    rows == [] ||
    var n := |rows| - 1;
    SourceOk(hs, rows[..n]) && Fault(hs, rows[n], SourceHead(rows[..n])).None?
  }

  lemma {:induction false} SourceOkPrefix(hs: Hashing, rows: seq<SourceRow>, n: nat)
    requires SourceOk(hs, rows) && n <= |rows|
    ensures SourceOk(hs, rows[..n])
    ensures n < |rows| ==> Fault(hs, rows[n], SourceHead(rows[..n])).None?
    decreases |rows|
  {
    var m := |rows| - 1;
    if n < m {
      assert rows[..m][..n] == rows[..n];
      SourceOkPrefix(hs, rows[..m], n);
    } else if n == |rows| {
      assert rows[..n] == rows;
    }
  }

  /** Row by row: the row and its record name the row before and carry the hash of the record. */
  ghost predicate WellStored(hs: Hashing, rows: seq<SourceRow>, i: nat)
    requires i < |rows|
  {
    var row, previous := rows[i], if i == 0 then "" else rows[i - 1].recordHash;
    && row.record.Obj?
    && row.prevHash == previous
    && TextOrEmpty(hs.repr, Get(row.record.fields, "gen_ai.evidence.hash_prev")) == previous
    && row.recordHash == hs.hash(Unsigned(row.record.fields))
    && TextOrEmpty(hs.repr, Get(row.record.fields, "record_hash")) == row.recordHash
  }

  lemma {:induction false} SourceOkExactly(hs: Hashing, rows: seq<SourceRow>)
    ensures SourceOk(hs, rows) <==> forall i :: 0 <= i < |rows| ==> WellStored(hs, rows, i)
  {
    if rows != [] {
      var n := |rows| - 1;
      SourceOkExactly(hs, rows[..n]);
      assert forall i :: 0 <= i < n ==> (WellStored(hs, rows[..n], i) <==> WellStored(hs, rows, i));
      assert Fault(hs, rows[n], SourceHead(rows[..n])).None? <==> WellStored(hs, rows, n);
    }
  }

  function FieldsOf(row: SourceRow): Record {
    if row.record.Obj? then row.record.fields else map[]
  }

  function TraceOf(hs: Hashing, row: SourceRow): string {
    TextOrEmpty(hs.repr, Get(FieldsOf(row), TRACE_ID))
  }

  /** A redacted record, linked to the previous public record but not yet carrying its hash. */
  function Relinked(sc: Scanners, record: Record, previous: string): Record {
    Project(sc, Obj(record)).fields[HASH_PREV := Str(previous)]
  }

  /** The record that is published: redacted, re-linked and carrying its own hash. */
  function Sealed(sc: Scanners, hs: Hashing, record: Record, previous: string): Record {
    var r := Relinked(sc, record, previous);
    r[RECORD_HASH := Str(hs.hash(Obj(r)))]
  }

  /** The published chain of a source chain. */
  function Public(sc: Scanners, hs: Hashing, rows: seq<SourceRow>): seq<Record> {
    if rows == [] then [] else
      var n := |rows| - 1;
      var earlier := Public(sc, hs, rows[..n]);
      earlier + [Sealed(sc, hs, FieldsOf(rows[n]), Head(hs, earlier))]
  }

  function Provenance(sc: Scanners, hs: Hashing, rows: seq<SourceRow>): seq<Mapping> {
    if rows == [] then [] else
      var n := |rows| - 1;
      Provenance(sc, hs, rows[..n])
      + [Mapping(Head(hs, Public(sc, hs, rows)), rows[n].seq_, rows[n].recordHash, TraceOf(hs, rows[n]))]
  }

  predicate SeesTrace(hs: Hashing, rows: seq<SourceRow>, trace: string) {
    exists i :: 0 <= i < |rows| && TraceOf(hs, rows[i]) == trace
  }

  /** Adding the hash field to a redacted record does not change what the hash covers. */
  lemma SealedIsAccepted(sc: Scanners, hs: Hashing, record: Record, previous: string)
    ensures var s := Sealed(sc, hs, record, previous);
            && Unsigned(s) == Obj(Relinked(sc, record, previous))
            && LinksTo(s, previous) && CarriesHash(hs, s)
  {
    var r := Relinked(sc, record, previous);
    assert RECORD_HASH !in r && "signature" !in r;
    assert Unsigned(Sealed(sc, hs, record, previous)).fields == r;
  }

  /** The state of the collector's loop after `i` rows. */
  ghost predicate Projected(sc: Scanners, hs: Hashing, rows: seq<SourceRow>, i: nat, source: string, public: string,
                            records: seq<Record>, mapping: seq<Mapping>)
  {
    && i <= |rows| && SourceOk(hs, rows[..i]) && source == SourceHead(rows[..i])
    && records == Public(sc, hs, rows[..i]) && public == Head(hs, records) && mapping == Provenance(sc, hs, rows[..i])
  }

  ghost predicate SeenOf(hs: Hashing, rows: seq<SourceRow>, i: nat, traces: set<string>, seen: set<string>) {
    i <= |rows| && forall t :: t in seen <==> t in traces && SeesTrace(hs, rows[..i], t)
  }

  lemma ProjectedNext(sc: Scanners, hs: Hashing, rows: seq<SourceRow>, i: nat, source: string, public: string,
                      records: seq<Record>, mapping: seq<Mapping>)
    requires i < |rows| && Projected(sc, hs, rows, i, source, public, records, mapping)
    ensures Fault(hs, rows[i], source).Some? ==> !SourceOk(hs, rows)
    ensures Fault(hs, rows[i], source).None? ==>
              var r := Relinked(sc, FieldsOf(rows[i]), public);
              var h := hs.hash(Obj(r));
              Projected(sc, hs, rows, i + 1, rows[i].recordHash, h, records + [r[RECORD_HASH := Str(h)]],
                        mapping + [Mapping(h, rows[i].seq_, rows[i].recordHash, TraceOf(hs, rows[i]))])
  {
    GateStep(sc, hs, rows, i);
    if SourceOk(hs, rows) { SourceOkPrefix(hs, rows, i); }
  }

  lemma SeenNext(hs: Hashing, rows: seq<SourceRow>, i: nat, traces: set<string>, seen: set<string>)
    requires i < |rows| && SeenOf(hs, rows, i, traces, seen)
    ensures var trace := TraceOf(hs, rows[i]);
            SeenOf(hs, rows, i + 1, traces, if trace in traces then seen + {trace} else seen)
  {
    SeesNext(hs, rows, i);
  }

  /** `_gate6_projection`. */
  method ProjectGate(sc: Scanners, hs: Hashing, rows: seq<SourceRow>, original: string, compensation: string)
    returns (r: Result<(seq<Record>, seq<Mapping>), CollectionError>)
    ensures r.Ok? <==> SourceOk(hs, rows) && SeesTrace(hs, rows, original) && SeesTrace(hs, rows, compensation)
    ensures r.Ok? ==> r.value == (Public(sc, hs, rows), Provenance(sc, hs, rows))
    ensures r.Err? && r.error.BadRow? ==>
              r.error.at < |rows| && SourceOk(hs, rows[..r.error.at])
              && Fault(hs, rows[r.error.at], SourceHead(rows[..r.error.at])) == Some(r.error.fault)
  {
    var previousSource, previousPublic := "", "";
    var records: seq<Record>, mapping: seq<Mapping> := [], [];
    var seen: set<string> := {};
    for i := 0 to |rows|
      invariant Projected(sc, hs, rows, i, previousSource, previousPublic, records, mapping)
      invariant SeenOf(hs, rows, i, {original, compensation}, seen)
    {
      var row := rows[i];
      ProjectedNext(sc, hs, rows, i, previousSource, previousPublic, records, mapping);
      SeenNext(hs, rows, i, {original, compensation}, seen);
      var fault := Fault(hs, row, previousSource);
      if fault.Some? { return Err(BadRow(i, fault.value)); }
      var projected := Project(sc, row.record).fields[HASH_PREV := Str(previousPublic)];
      var projectedHash := hs.hash(Obj(projected));
      records := records + [projected[RECORD_HASH := Str(projectedHash)]];
      var trace := TraceOf(hs, row);
      if trace in {original, compensation} { seen := seen + {trace}; }
      mapping := mapping + [Mapping(projectedHash, row.seq_, row.recordHash, trace)];
      previousSource, previousPublic := row.recordHash, projectedHash;
    }
    assert rows[..|rows|] == rows;
    if seen != {original, compensation} { return Err(TraceMissing); }
    return Ok((records, mapping));
  }

  lemma GateStep(sc: Scanners, hs: Hashing, rows: seq<SourceRow>, i: nat)
    requires i < |rows|
    ensures SourceOk(hs, rows[..i + 1]) <==> SourceOk(hs, rows[..i]) && Fault(hs, rows[i], SourceHead(rows[..i])).None?
    ensures SourceHead(rows[..i + 1]) == rows[i].recordHash
    ensures var earlier := Public(sc, hs, rows[..i]);
            var sealed := Sealed(sc, hs, FieldsOf(rows[i]), Head(hs, earlier));
            var hash := hs.hash(Obj(Relinked(sc, FieldsOf(rows[i]), Head(hs, earlier))));
            && Public(sc, hs, rows[..i + 1]) == earlier + [sealed]
            && Head(hs, earlier + [sealed]) == hash
            && Provenance(sc, hs, rows[..i + 1]) == Provenance(sc, hs, rows[..i])
                 + [Mapping(hash, rows[i].seq_, rows[i].recordHash, TraceOf(hs, rows[i]))]
  {
    assert rows[..i + 1][..i] == rows[..i];
    SealedIsAccepted(sc, hs, FieldsOf(rows[i]), Head(hs, Public(sc, hs, rows[..i])));
  }

  lemma SeesNext(hs: Hashing, rows: seq<SourceRow>, i: nat)
    requires i < |rows|
    ensures forall t :: SeesTrace(hs, rows[..i + 1], t) <==> SeesTrace(hs, rows[..i], t) || TraceOf(hs, rows[i]) == t
  {
    forall t ensures SeesTrace(hs, rows[..i + 1], t) <==> SeesTrace(hs, rows[..i], t) || TraceOf(hs, rows[i]) == t {
      if SeesTrace(hs, rows[..i], t) {
        var k :| 0 <= k < i && TraceOf(hs, rows[..i][k]) == t;
        assert rows[..i + 1][k] == rows[..i][k];
      }
      assert rows[..i + 1][i] == rows[i];
      assert forall k :: 0 <= k < i ==> rows[..i + 1][k] == rows[..i][k];
    }
  }

  // ---------------------------------------------------------------- collector against verifier

  /**
   Re-chaining refines: whatever source rows come in, the published chain has one record per row
   and is accepted by the separately written verifier. This holds for every hash function.
   */
  lemma {:induction false} RechainingIsVerified(sc: Scanners, hs: Hashing, rows: seq<SourceRow>)
    ensures Verified(hs, Public(sc, hs, rows)) && |Public(sc, hs, rows)| == |rows|
  {
    if rows != [] {
      var n := |rows| - 1;
      var earlier := Public(sc, hs, rows[..n]);
      RechainingIsVerified(sc, hs, rows[..n]);
      SealedIsAccepted(sc, hs, FieldsOf(rows[n]), Head(hs, earlier));
      assert Public(sc, hs, rows)[..n] == earlier;
    }
  }

  lemma {:induction false} PublicLengths(sc: Scanners, hs: Hashing, rows: seq<SourceRow>)
    ensures |Public(sc, hs, rows)| == |Provenance(sc, hs, rows)| == |rows|
  {
    if rows != [] { PublicLengths(sc, hs, rows[..|rows| - 1]); }
  }

  /** A row, the record published for it behind a head, and its line of the mapping. */
  ghost predicate RowMapped(sc: Scanners, hs: Hashing, row: SourceRow, head: string, r: Record, m: Mapping) {
    && r == Sealed(sc, hs, FieldsOf(row), head)
    && m == Mapping(hs.hash(Unsigned(r)), row.seq_, row.recordHash, TraceOf(hs, row))
  }

  lemma LastRow(sc: Scanners, hs: Hashing, rows: seq<SourceRow>) returns (r: Record, m: Mapping)
    requires rows != []
    ensures Public(sc, hs, rows) == Public(sc, hs, rows[..|rows| - 1]) + [r]
    ensures Provenance(sc, hs, rows) == Provenance(sc, hs, rows[..|rows| - 1]) + [m]
    ensures RowMapped(sc, hs, rows[|rows| - 1], Head(hs, Public(sc, hs, rows[..|rows| - 1])), r, m)
  {
    var n := |rows| - 1;
    r := Sealed(sc, hs, FieldsOf(rows[n]), Head(hs, Public(sc, hs, rows[..n])));
    m := Mapping(hs.hash(Unsigned(r)), rows[n].seq_, rows[n].recordHash, TraceOf(hs, rows[n]));
  }

  lemma {:induction false} RowMappedAt(sc: Scanners, hs: Hashing, rows: seq<SourceRow>, i: nat)
    requires i < |rows|
    ensures |Public(sc, hs, rows)| == |Provenance(sc, hs, rows)| == |rows|
    ensures RowMapped(sc, hs, rows[i], Head(hs, Public(sc, hs, rows[..i])), Public(sc, hs, rows)[i],
                      Provenance(sc, hs, rows)[i])
    decreases |rows|
  {
    var n := |rows| - 1;
    PublicLengths(sc, hs, rows[..n]);
    var r, m := LastRow(sc, hs, rows);
    if i < n {
      RowMappedAt(sc, hs, rows[..n], i);
      assert rows[..n][..i] == rows[..i];
    }
  }

  /** The i-th public record is the sealed redaction of the i-th source record, and is mapped to its hash. */
  lemma RecordAndMapping(sc: Scanners, hs: Hashing, rows: seq<SourceRow>, i: nat)
    requires i < |rows|
    ensures |Public(sc, hs, rows)| == |Provenance(sc, hs, rows)| == |rows|
    ensures Public(sc, hs, rows)[i] == Sealed(sc, hs, FieldsOf(rows[i]), Head(hs, Public(sc, hs, rows[..i])))
    ensures Provenance(sc, hs, rows)[i]
         == Mapping(hs.hash(Unsigned(Public(sc, hs, rows)[i])), rows[i].seq_, rows[i].recordHash, TraceOf(hs, rows[i]))
  {
    RowMappedAt(sc, hs, rows, i);
  }

  /** A published record shows nothing that must not be published, beside its two chain fields. */
  lemma PublicIsClean(sc: Scanners, hs: Hashing, rows: seq<SourceRow>, i: nat, key: string)
    requires i < |rows| == |Public(sc, hs, rows)|
    requires key in Public(sc, hs, rows)[i] && key !in {RECORD_HASH, HASH_PREV}
    ensures !Dropped(sc, key) && Clean(sc, Public(sc, hs, rows)[i][key])
  {
    RecordAndMapping(sc, hs, rows, i);
    ProjectionIsClean(sc, Obj(FieldsOf(rows[i])));
    assert Public(sc, hs, rows)[i][key] == Project(sc, Obj(FieldsOf(rows[i]))).fields[key];
  }

  // ---------------------------------------------------------------- what the provenance pins down

  function SourceBodies(rows: seq<SourceRow>): seq<Json> {
    if rows == [] then [] else SourceBodies(rows[..|rows| - 1]) + [Unsigned(FieldsOf(rows[|rows| - 1]))]
  }

  /** How the collector reads a source body's link. */
  function SourceLink(hs: Hashing): Json -> Json {
    (body: Json) => Str(if body.Obj? then TextOrEmpty(hs.repr, Get(body.fields, HASH_PREV)) else "")
  }

  lemma {:induction false} SourceIsLinked(hs: Hashing, rows: seq<SourceRow>)
    requires SourceOk(hs, rows)
    ensures HashChain.Linked(hs.hash, SourceLink(hs), Str(""), SourceBodies(rows))
    ensures HashChain.LinkTo(hs.hash, Str(""), SourceBodies(rows)) == Str(SourceHead(rows))
    ensures |SourceBodies(rows)| == |rows|
  {
    if rows != [] {
      var n := |rows| - 1;
      SourceIsLinked(hs, rows[..n]);
      HashChain.LinkedAppend(hs.hash, SourceLink(hs), Str(""), SourceBodies(rows[..n]), Unsigned(FieldsOf(rows[n])));
    }
  }

  /** The redaction never looks at the hash or the signature of the source record. */
  lemma RedactionIgnoresSignature(sc: Scanners, a: Record, b: Record)
    requires Unsigned(a) == Unsigned(b)
    ensures Project(sc, Obj(a)) == Project(sc, Obj(b))
  {
    forall k | !Dropped(sc, k) ensures (k in a <==> k in b) && (k in a ==> a[k] == b[k]) {
      assert k in Unsigned(a).fields <==> k in a;
      assert k in Unsigned(b).fields <==> k in b;
    }
    assert Project(sc, Obj(a)).fields == Project(sc, Obj(b)).fields;
  }

  lemma {:induction false} BodiesFixPublic(sc: Scanners, hs: Hashing, a: seq<SourceRow>, b: seq<SourceRow>)
    requires SourceBodies(a) == SourceBodies(b) && |a| == |b|
    ensures Public(sc, hs, a) == Public(sc, hs, b)
  {
    if a != [] {
      var n := |a| - 1;
      var x, y := SourceBodies(a[..n]), SourceBodies(b[..n]);
      assert |SourceBodies(a)| == |x| + 1 && |SourceBodies(b)| == |y| + 1;
      assert x == SourceBodies(a)[..|x|] == SourceBodies(b)[..|y|] == y;
      assert SourceBodies(a)[|x|] == SourceBodies(b)[|y|];
      BodiesFixPublic(sc, hs, a[..n], b[..n]);
      RedactionIgnoresSignature(sc, FieldsOf(a[n]), FieldsOf(b[n]));
    }
  }

  /**
   The last source hash of a provenance file pins down the whole published chain: two collections
   that verified their source chains and end in the same source hash publish the same records,
   unless the source chains exhibit a hash collision.
   */
  lemma SourceHeadFixesPublicChain(sc: Scanners, hs: Hashing, a: seq<SourceRow>, b: seq<SourceRow>)
    requires SourceOk(hs, a) && SourceOk(hs, b) && (forall x :: hs.hash(x) != "")
    requires SourceHead(a) == SourceHead(b)
    ensures Public(sc, hs, a) == Public(sc, hs, b) || HashChain.Collision(hs.hash, SourceBodies(a), SourceBodies(b))
  {
    SourceIsLinked(hs, a);
    SourceIsLinked(hs, b);
    HashChain.HeadCommits(hs.hash, SourceLink(hs), Str(""), SourceBodies(a), SourceBodies(b));
    if SourceBodies(a) == SourceBodies(b) { BodiesFixPublic(sc, hs, a, b); }
  }
}
