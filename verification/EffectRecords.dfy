/**
 The effect chain verifier on the records it reads (scripts/verify_identity_undo_evidence.py), shape
 included; `EffectChain` speaks of records that have the shape.
 */
module EffectRecords {
  import opened EffectChain
  import opened Json
  import opened Wrappers

  datatype RecordError = ShapeInvalid(at: nat) | Faulty(error: ChainError)

  const REQUIRED := {"seq", "tenant_id", "effect_id", "event_type", "actor_sub", "payload", "prev_hash", "record_hash"}

  /** Exactly the required keys, and perhaps a time. */
  predicate Shaped(r: map<string, Json>) {
    REQUIRED <= r.Keys <= REQUIRED + {"occurred_at"}
  }

  /** A number; Python counts the truth values among the integers. */
  function SeqOf(j: Json): Option<int> {
    match j
    case Num(n) => Some(n)
    case Bool(b) => Some(if b then 1 else 0)
    case _ => None
  }

  function RecordHashed(r: map<string, Json>): Json
    requires Shaped(r)
  {
    Obj(map["tenant_id" := r["tenant_id"], "effect_id" := r["effect_id"], "event_type" := r["event_type"],
            "actor_sub" := r["actor_sub"], "payload" := r["payload"], "prev_hash" := r["prev_hash"]])
  }

  /** The first check a record fails. */
  function RecordFlaw(hash: Json -> string, r: map<string, Json>, previous: string, previousSeq: int, at: nat)
    : Option<RecordError>
  {
    if !Shaped(r) then Some(ShapeInvalid(at))
    else if SeqOf(r["seq"]).None? || SeqOf(r["seq"]).value <= previousSeq then Some(Faulty(NotIncreasing(at)))
    else if r["prev_hash"] != Str(previous) then Some(Faulty(PredecessorMismatch(at)))
    else if r["record_hash"] != Str(hash(RecordHashed(r))) then Some(Faulty(HashMismatch(at)))
    else None
  }

  function RecordHead(hash: Json -> string, records: seq<map<string, Json>>): string {
    if records != [] && Shaped(records[|records| - 1]) then hash(RecordHashed(records[|records| - 1])) else ""
  }

  function RecordLast(records: seq<map<string, Json>>): int {
    if records != [] && "seq" in records[|records| - 1] then SeqOf(records[|records| - 1]["seq"]).GetOr(-1) else -1
  }

  predicate RecordsVerified(hash: Json -> string, records: seq<map<string, Json>>) {
    records == [] ||
    var n := |records| - 1;
    && RecordsVerified(hash, records[..n])
    && RecordFlaw(hash, records[n], RecordHead(hash, records[..n]), RecordLast(records[..n]), n).None?
  }

  lemma {:induction false} RecordsPrefix(hash: Json -> string, records: seq<map<string, Json>>, n: nat)
    requires RecordsVerified(hash, records) && n <= |records|
    ensures RecordsVerified(hash, records[..n])
    ensures n < |records| ==>
              RecordFlaw(hash, records[n], RecordHead(hash, records[..n]), RecordLast(records[..n]), n).None?
    decreases |records|
  {
    var m := |records| - 1;
    if n < m {
      assert records[..m][..n] == records[..n];
      RecordsPrefix(hash, records[..m], n);
    } else if n == |records| {
      assert records[..n] == records;
    }
  }

  lemma RecordStep(hash: Json -> string, records: seq<map<string, Json>>, i: nat)
    requires i < |records| && RecordsVerified(hash, records[..i])
    requires RecordFlaw(hash, records[i], RecordHead(hash, records[..i]), RecordLast(records[..i]), i).None?
    ensures RecordsVerified(hash, records[..i + 1])
    ensures RecordHead(hash, records[..i + 1]) == hash(RecordHashed(records[i]))
    ensures RecordLast(records[..i + 1]) == SeqOf(records[i]["seq"]).value
  {
    assert records[..i + 1][..i] == records[..i];
  }

  /** The eight keys and at most a time beside them, and a number where Python takes one: truth values count. */
  ghost predicate HasShape(r: map<string, Json>) {
    && "seq" in r && "tenant_id" in r && "effect_id" in r && "event_type" in r && "actor_sub" in r && "payload" in r
    && "prev_hash" in r && "record_hash" in r
    && (forall k <- r :: k in {"seq", "tenant_id", "effect_id", "event_type", "actor_sub", "payload", "prev_hash",
                               "record_hash", "occurred_at"})
    && (r["seq"].Num? || r["seq"].Bool?)
  }

  function NumberOf(r: map<string, Json>): int
    requires HasShape(r)
  {
    match r["seq"]
    case Num(n) => n
    case Bool(b) => if b then 1 else 0
  }

  /** The digest of the six hashed fields. */
  function DigestOf(hash: Json -> string, r: map<string, Json>): string
    requires HasShape(r)
  {
    hash(Obj(map["prev_hash" := r["prev_hash"], "payload" := r["payload"], "actor_sub" := r["actor_sub"],
                 "event_type" := r["event_type"], "effect_id" := r["effect_id"], "tenant_id" := r["tenant_id"]]))
  }

  /** Record by record, as `EffectChain.WellChained`. */
  ghost predicate WellRecorded(hash: Json -> string, records: seq<map<string, Json>>, i: nat) {
    && i < |records| && HasShape(records[i]) && (i > 0 ==> HasShape(records[i - 1]))
    && NumberOf(records[i]) > (if i == 0 then -1 else NumberOf(records[i - 1]))
    && records[i]["prev_hash"] == Str(if i == 0 then "" else DigestOf(hash, records[i - 1]))
    && records[i]["record_hash"] == Str(DigestOf(hash, records[i]))
  }

  lemma ShapeReads(hash: Json -> string, r: map<string, Json>)
    ensures HasShape(r) <==> Shaped(r) && SeqOf(r["seq"]).Some?
    ensures HasShape(r) ==> SeqOf(r["seq"]) == Some(NumberOf(r)) && hash(RecordHashed(r)) == DigestOf(hash, r)
  {
    if HasShape(r) {
      assert r.Keys <= REQUIRED + {"occurred_at"};
      assert REQUIRED <= r.Keys;
      assert RecordHashed(r).fields == map["prev_hash" := r["prev_hash"], "payload" := r["payload"],
        "actor_sub" := r["actor_sub"], "event_type" := r["event_type"], "effect_id" := r["effect_id"],
        "tenant_id" := r["tenant_id"]];
    }
  }

  lemma {:induction false} RecordsExactly(hash: Json -> string, records: seq<map<string, Json>>)
    ensures RecordsVerified(hash, records) <==> AllRecorded(hash, records, |records|)
  {
    if records != [] {
      var n := |records| - 1;
      RecordsExactly(hash, records[..n]);
      InitRecorded(hash, records, n);
      RecordedStep(hash, records, n);
      if AllRecorded(hash, records, n) { LastRecorded(hash, records); }
    }
  }

  ghost predicate AllRecorded(hash: Json -> string, records: seq<map<string, Json>>, n: nat) {
    forall i :: 0 <= i < n ==> WellRecorded(hash, records, i)
  }

  lemma InitRecorded(hash: Json -> string, records: seq<map<string, Json>>, n: nat)
    requires n <= |records|
    ensures AllRecorded(hash, records[..n], n) <==> AllRecorded(hash, records, n)
  {
    forall i | 0 <= i < n ensures WellRecorded(hash, records[..n], i) <==> WellRecorded(hash, records, i) {
      WellRecordedInit(hash, records, n, i);
    }
  }

  lemma RecordedStep(hash: Json -> string, records: seq<map<string, Json>>, n: nat)
    ensures AllRecorded(hash, records, n + 1) <==> AllRecorded(hash, records, n) && WellRecorded(hash, records, n)
    ensures AllRecorded(hash, records, n) && 0 < n <= |records| ==> HasShape(records[n - 1])
  {
    if AllRecorded(hash, records, n) && 0 < n <= |records| { assert WellRecorded(hash, records, n - 1); }
  }

  lemma WellRecordedInit(hash: Json -> string, records: seq<map<string, Json>>, n: nat, i: nat)
    requires i < n <= |records|
    ensures WellRecorded(hash, records[..n], i) <==> WellRecorded(hash, records, i)
  {
  }

  lemma LastRecorded(hash: Json -> string, records: seq<map<string, Json>>)
    requires records != [] && (|records| > 1 ==> HasShape(records[|records| - 2]))
    ensures var n := |records| - 1;
            RecordFlaw(hash, records[n], RecordHead(hash, records[..n]), RecordLast(records[..n]), n).None?
            <==> WellRecorded(hash, records, n)
  {
    var n := |records| - 1;
    ShapeReads(hash, records[n]);
    if n > 0 { ShapeReads(hash, records[n - 1]); }
  }

  /** The verifier on the records themselves, shape included: the first faulty one and its fault, or none. */
  method VerifyEffectRecords(hash: Json -> string, records: seq<map<string, Json>>) returns (error: Option<RecordError>)
    ensures error.None? <==> records != [] && RecordsVerified(hash, records)
    ensures error == Some(Faulty(EmptyChain)) <==> records == []
    ensures error.Some? && records != [] ==>
              exists i :: 0 <= i < |records| && RecordsVerified(hash, records[..i])
                          && error == RecordFlaw(hash, records[i], RecordHead(hash, records[..i]),
                                                 RecordLast(records[..i]), i)
  {
    if records == [] { return Some(Faulty(EmptyChain)); }
    var previous, previousSeq := "", -1;
    for i := 0 to |records|
      invariant RecordsVerified(hash, records[..i])
      invariant previous == RecordHead(hash, records[..i]) && previousSeq == RecordLast(records[..i])
    {
      var flaw := RecordFlaw(hash, records[i], previous, previousSeq, i);
      if flaw.Some? {
        if RecordsVerified(hash, records) { RecordsPrefix(hash, records, i); }
        return flaw;
      }
      RecordStep(hash, records, i);
      previous, previousSeq := hash(RecordHashed(records[i])), SeqOf(records[i]["seq"]).value;
    }
    assert records[..|records|] == records;
    return None;
  }

  /** An event as a record. */
  function RecordOf(e: Event): map<string, Json> {
    map["seq" := Num(e.seqNo), "tenant_id" := Str(e.tenant), "effect_id" := Str(e.effect), "event_type" := Str(e.kind),
        "actor_sub" := Str(e.actor), "payload" := e.payload, "prev_hash" := Str(e.prevHash),
        "record_hash" := Str(e.recordHash), "occurred_at" := Str(e.occurredAt)]
  }

  function RecordsOf(events: seq<Event>): seq<map<string, Json>> {
    if events == [] then [] else RecordsOf(events[..|events| - 1]) + [RecordOf(events[|events| - 1])]
  }

  lemma RecordOfReads(e: Event)
    ensures Shaped(RecordOf(e)) && RecordHashed(RecordOf(e)) == Hashed(e) && SeqOf(RecordOf(e)["seq"]) == Some(e.seqNo)
    ensures RecordOf(e)["prev_hash"] == Str(e.prevHash) && RecordOf(e)["record_hash"] == Str(e.recordHash)
    ensures "occurred_at" in RecordOf(e) && RecordOf(e)["occurred_at"] == Str(e.occurredAt)
  {
  }

  lemma FlawsAgree(hash: Json -> string, e: Event, previous: string, previousSeq: int, at: nat)
    ensures RecordFlaw(hash, RecordOf(e), previous, previousSeq, at).None?
            <==> Flaw(hash, e, previous, previousSeq, at).None?
  {
    RecordOfReads(e);
  }

  /** On the records of events the two forms of the verifier agree. */
  lemma {:induction false} RecordsOfEvents(hash: Json -> string, events: seq<Event>)
    ensures |RecordsOf(events)| == |events|
    ensures RecordsVerified(hash, RecordsOf(events)) <==> Verified(hash, events)
    ensures RecordHead(hash, RecordsOf(events)) == Head(hash, events)
    ensures RecordLast(RecordsOf(events)) == LastSeq(events)
  {
    if events != [] {
      var init, last := events[..|events| - 1], events[|events| - 1];
      RecordsOfEvents(hash, init);
      FlawsAgree(hash, last, Head(hash, init), LastSeq(init), |init|);
      RecordOfReads(last);
      assert RecordsOf(events)[..|init|] == RecordsOf(init);
    }
  }
}
