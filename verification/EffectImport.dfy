/**
 Importing a legacy effect store into the control plane (scripts/import_sqlite_effects.py): effects
 are inserted unless their id is taken, and the events of accepted effects are appended to their
 tenant's hash chain unless they were imported before.
 */
module EffectImport {
  import opened Wrappers
  import opened PyLists
  import opened Json
  import opened EffectChain
  import HashChain
  import Sorting

  const LEGACY_CONTRACT_VERSION := "legacy-sqlite/v1"
  const IMPORTED_EVENT_TYPE := "legacy_effect_event_imported"

  /** `content` stands for the remaining public columns. */
  datatype LegacyEffect = LegacyEffect(id: string, tenant: string, content: string)

  datatype LegacyEvent = LegacyEvent(
    seqNo: int, effect: string, kind: string, actor: string, publicPayload: Json, prevHash: string, recordHash: string)

  datatype EffectRow = EffectRow(tenant: string, contractVersion: string, content: string)

  /** The hash of a canonical value, and the text of a JSON value that is not a string. */
  datatype Env = Env(hash: Json -> string, repr: Json -> string)

  datatype Stats = Stats(
    effectsInserted: nat, effectsExisting: nat, effectsConflicted: nat,
    eventsInserted: nat, eventsExisting: nat, eventsSkipped: nat)

  // ---------------------------------------------------------------- effects

  predicate Compatible(effects: map<string, EffectRow>, e: LegacyEffect) {
    e.id in effects && effects[e.id].tenant == e.tenant && effects[e.id].contractVersion == LEGACY_CONTRACT_VERSION
  }

  function InsertEffect(effects: map<string, EffectRow>, e: LegacyEffect): map<string, EffectRow> {
    if e.id in effects then effects else effects[e.id := EffectRow(e.tenant, LEGACY_CONTRACT_VERSION, e.content)]
  }

  /** The effect table after the effects of a snapshot were offered in order. */
  function InsertEffects(effects: map<string, EffectRow>, legacy: seq<LegacyEffect>): map<string, EffectRow> {
    if legacy == [] then effects
    else InsertEffect(InsertEffects(effects, legacy[..|legacy| - 1]), legacy[|legacy| - 1])
  }

  /** Rows are only ever added, and never changed. */
  lemma {:induction false} EffectsOnlyAdded(effects: map<string, EffectRow>, legacy: seq<LegacyEffect>, id: string)
    ensures id in effects ==> id in InsertEffects(effects, legacy) && InsertEffects(effects, legacy)[id] == effects[id]
    ensures id in InsertEffects(effects, legacy) <==>
              id in effects || exists i :: 0 <= i < |legacy| && legacy[i].id == id
  {
    if legacy != [] {
      EffectsOnlyAdded(effects, legacy[..|legacy| - 1], id);
      assert legacy == legacy[..|legacy| - 1] + [legacy[|legacy| - 1]];
    }
  }

  /** An id that is new is stored as it is first offered, under the legacy contract. */
  lemma {:induction false} EffectsStored(effects: map<string, EffectRow>, legacy: seq<LegacyEffect>, id: string)
    requires id !in effects && id in InsertEffects(effects, legacy)
    ensures exists i :: 0 <= i < |legacy| && legacy[i].id == id
                && (forall j :: 0 <= j < i ==> legacy[j].id != id)
                && InsertEffects(effects, legacy)[id].tenant == legacy[i].tenant
                && InsertEffects(effects, legacy)[id].content == legacy[i].content
                && InsertEffects(effects, legacy)[id].contractVersion == "legacy-sqlite/v1"
  {
    var init, n := legacy[..|legacy| - 1], |legacy| - 1;
    EffectsOnlyAdded(effects, init, id);
    if id in InsertEffects(effects, init) {
      EffectsStored(effects, init, id);
      var i :| 0 <= i < |init| && init[i].id == id && (forall j :: 0 <= j < i ==> init[j].id != id)
          && InsertEffects(effects, init)[id].tenant == init[i].tenant
          && InsertEffects(effects, init)[id].content == init[i].content;
      assert legacy[i] == init[i] && forall j :: 0 <= j < i ==> legacy[j] == init[j];
    } else {
      assert legacy[n].id == id;
      forall j | 0 <= j < n ensures legacy[j].id != id { assert init[j] == legacy[j]; }
    }
  }

  /** The effects whose events are imported: those the table now holds under the snapshot's tenant. */
  predicate Eligible(effects: map<string, EffectRow>, legacy: seq<LegacyEffect>, id: string) {
    exists i :: 0 <= i < |legacy| && legacy[i].id == id && Compatible(effects, legacy[i])
  }

  /** `{effect.effect_id: effect for effect in effects}`: a later duplicate wins. */
  function ById(legacy: seq<LegacyEffect>): map<string, LegacyEffect> {
    if legacy == [] then map[] else ById(legacy[..|legacy| - 1])[legacy[|legacy| - 1].id := legacy[|legacy| - 1]]
  }

  /** An id is looked up as it is last listed. */
  lemma {:induction false} ByIdIsLast(legacy: seq<LegacyEffect>, i: nat)
    requires i < |legacy| && forall j :: i < j < |legacy| ==> legacy[j].id != legacy[i].id
    ensures legacy[i].id in ById(legacy) && ById(legacy)[legacy[i].id] == legacy[i]
  {
    if i < |legacy| - 1 { ByIdIsLast(legacy[..|legacy| - 1], i); }
  }

  // ---------------------------------------------------------------- events

  /** PostgreSQL's `payload ->> key`. */
  function FieldText(env: Env, payload: Json, key: string): Option<string> {
    if payload.Obj? && key in payload.fields && payload.fields[key] != Null
    then Some(Text(env.repr, payload.fields[key])) else None
  }

  predicate IsImportOf(env: Env, row: Event, tenant: string, ev: LegacyEvent) {
    && row.tenant == tenant && row.effect == ev.effect && row.kind == IMPORTED_EVENT_TYPE
    && FieldText(env, row.payload, "legacy_seq") == Some(env.repr(Num(ev.seqNo)))
    && FieldText(env, row.payload, "legacy_record_hash") == Some(ev.recordHash)
  }

  predicate AlreadyPresent(env: Env, events: seq<Event>, tenant: string, ev: LegacyEvent) {
    exists i :: 0 <= i < |events| && IsImportOf(env, events[i], tenant, ev)
  }

  /** A tenant's chain: its rows of the shared event table. */
  function OfTenant(events: seq<Event>, tenant: string): seq<Event> {
    if events == [] then [] else
      var e := events[|events| - 1];
      OfTenant(events[..|events| - 1], tenant) + if e.tenant == tenant then [e] else []
  }

  /** The last record hash of the tenant, or the empty string. */
  function TailHash(events: seq<Event>, tenant: string): string {
    if events == [] then ""
    else if events[|events| - 1].tenant == tenant then events[|events| - 1].recordHash
    else TailHash(events[..|events| - 1], tenant)
  }

  function Payload(ev: LegacyEvent): Json {
    Obj(map["legacy_seq" := Num(ev.seqNo), "legacy_event_type" := Str(ev.kind), "legacy_prev_hash" := Str(ev.prevHash),
            "legacy_record_hash" := Str(ev.recordHash), "legacy_public_payload" := ev.publicPayload])
  }

  /** The event table with its serial column. */
  datatype Table = Table(events: seq<Event>, nextSeq: int)

  function NewEvent(env: Env, t: Table, tenant: string, ev: LegacyEvent, now: string): Event {
    var e := Event(t.nextSeq, tenant, ev.effect, IMPORTED_EVENT_TYPE, ev.actor, Payload(ev),
                   TailHash(t.events, tenant), "", now);
    e.(recordHash := env.hash(Hashed(e)))
  }

  function InsertEvent(env: Env, t: Table, tenant: string, ev: LegacyEvent, now: string): Table {
    if AlreadyPresent(env, t.events, tenant, ev) then t
    else Table(t.events + [NewEvent(env, t, tenant, ev, now)], t.nextSeq + 1)
  }

  /** The event table after the given events were offered in order. */
  function InsertEvents(env: Env, t: Table, byId: map<string, LegacyEffect>, eligible: set<string>,
                        events: seq<LegacyEvent>, now: string): Table
  {
    if events == [] then t else
      var ev, earlier := events[|events| - 1], InsertEvents(env, t, byId, eligible, events[..|events| - 1], now);
      if ev.effect in byId && ev.effect in eligible then InsertEvent(env, earlier, byId[ev.effect].tenant, ev, now)
        else earlier
  }

  // ---------------------------------------------------------------- the import order

  function TenantKey(byId: map<string, LegacyEffect>, ev: LegacyEvent): string {
    if ev.effect in byId then byId[ev.effect].tenant else ""
  }

  /** The sort key: tenant first, then the legacy sequence number. */
  predicate KeyLeq(byId: map<string, LegacyEffect>, a: LegacyEvent, b: LegacyEvent) {
    var s, t := TenantKey(byId, a), TenantKey(byId, b);
    if s == t then a.seqNo <= b.seqNo else StrLeq(s, t)
  }

  function KeyOrder(byId: map<string, LegacyEffect>): (LegacyEvent, LegacyEvent) -> bool {
    (a, b) => KeyLeq(byId, a, b)
  }

  lemma KeyTransitive(byId: map<string, LegacyEffect>, a: LegacyEvent, b: LegacyEvent, c: LegacyEvent)
    requires KeyLeq(byId, a, b) && KeyLeq(byId, b, c)
    ensures KeyLeq(byId, a, c)
  {
    var s, t, u := TenantKey(byId, a), TenantKey(byId, b), TenantKey(byId, c);
    if s != t && t != u {
      StrLeqTransitive(s, t, u);
      if s == u { StrLeqAntisymmetric(s, t); }
    }
  }

  lemma KeyIsOrder(byId: map<string, LegacyEffect>)
    ensures Sorting.TotalPreorder(KeyOrder(byId))
  {
    forall a, b ensures KeyLeq(byId, a, b) || KeyLeq(byId, b, a) {
      StrLeqTotal(TenantKey(byId, a), TenantKey(byId, b));
    }
    forall a, b, c | KeyLeq(byId, a, b) && KeyLeq(byId, b, c) ensures KeyLeq(byId, a, c) {
      KeyTransitive(byId, a, b, c);
    }
  }

  /** Python's `sorted` with the key (tenant, legacy number). */
  function SortEvents(byId: map<string, LegacyEffect>, events: seq<LegacyEvent>): seq<LegacyEvent> {
    Sorting.Sort(KeyOrder(byId), events)
  }

  /** The import order: tenant by tenant, and each tenant's events in legacy order. */
  lemma ImportOrder(byId: map<string, LegacyEffect>, events: seq<LegacyEvent>, i: nat, j: nat)
    requires i < j < |SortEvents(byId, events)|
    ensures var a, b := SortEvents(byId, events)[i], SortEvents(byId, events)[j];
            var s := if a.effect in byId then byId[a.effect].tenant else "";
            var t := if b.effect in byId then byId[b.effect].tenant else "";
            StrLeq(s, t) && (s == t ==> a.seqNo <= b.seqNo)
  {
    var sorted := SortEvents(byId, events);
    KeyIsOrder(byId);
    Sorting.SortOrder(KeyOrder(byId), events);
    assert KeyOrder(byId)(sorted[i], sorted[j]);
    StrLeqTotal(TenantKey(byId, sorted[i]), TenantKey(byId, sorted[j]));
  }

  /** Sorting offers exactly the events of the snapshot. */
  lemma ImportMembers(byId: map<string, LegacyEffect>, events: seq<LegacyEvent>)
    ensures multiset(SortEvents(byId, events)) == multiset(events)
  {
    Sorting.SortMembers(KeyOrder(byId), events);
  }

  // ---------------------------------------------------------------- the import

  /** Offering the next effect changes eligibility only for its own id. */
  lemma EligibleNext(effects: map<string, EffectRow>, legacy: seq<LegacyEffect>, i: nat, id: string)
    requires i < |legacy| && forall k :: 0 <= k < i ==> legacy[k].id in effects
    ensures var after := InsertEffect(effects, legacy[i]);
            Eligible(after, legacy[..i + 1], id) <==>
              Eligible(effects, legacy[..i], id) || (id == legacy[i].id && Compatible(after, legacy[i]))
  {
    var after := InsertEffect(effects, legacy[i]);
    var now, next := legacy[..i], legacy[..i + 1];
    assert forall k :: 0 <= k < i ==> now[k] == next[k] && Compatible(effects, now[k]) == Compatible(after, next[k]);
    if Eligible(effects, now, id) {
      var k :| 0 <= k < |now| && now[k].id == id && Compatible(effects, now[k]);
      assert next[k].id == id && Compatible(after, next[k]);
    }
    if id == legacy[i].id && Compatible(after, legacy[i]) { assert next[i].id == id && Compatible(after, next[i]); }
    if Eligible(after, next, id) {
      var k :| 0 <= k < |next| && next[k].id == id && Compatible(after, next[k]);
      if k < i { assert now[k].id == id && Compatible(effects, now[k]); }
    }
  }

  // What the counters count.

  /** Offers of an id the table does not hold yet. */
  function NewEffects(effects: map<string, EffectRow>, legacy: seq<LegacyEffect>): nat {
    if legacy == [] then 0 else
      var init, e := legacy[..|legacy| - 1], legacy[|legacy| - 1];
      NewEffects(effects, init) + if e.id !in InsertEffects(effects, init) then 1 else 0
  }

  /** Offers of an id held under another tenant or another contract. */
  function ConflictingEffects(effects: map<string, EffectRow>, legacy: seq<LegacyEffect>): nat {
    if legacy == [] then 0 else
      var init, e := legacy[..|legacy| - 1], legacy[|legacy| - 1];
      var before := InsertEffects(effects, init);
      ConflictingEffects(effects, init) + if e.id in before && !Compatible(before, e) then 1 else 0
  }

  /** The table grows by one for every insertion counted. */
  lemma {:induction false} InsertsExactly(effects: map<string, EffectRow>, legacy: seq<LegacyEffect>)
    ensures |InsertEffects(effects, legacy)| == |effects| + NewEffects(effects, legacy)
  {
    if legacy != [] {
      InsertsExactly(effects, legacy[..|legacy| - 1]);
      InsertOne(InsertEffects(effects, legacy[..|legacy| - 1]), legacy[|legacy| - 1]);
    }
  }

  lemma InsertOne(effects: map<string, EffectRow>, e: LegacyEffect)
    ensures |InsertEffect(effects, e)| == |effects| + if e.id in effects then 0 else 1
  {
    assert InsertEffect(effects, e).Keys == effects.Keys + {e.id};
    assert |InsertEffect(effects, e).Keys| == |effects.Keys| + if e.id in effects then 0 else 1;
  }

  /** The offer's id is stored under another tenant, or another contract than the legacy one. */
  predicate StoredOtherwise(effects: map<string, EffectRow>, e: LegacyEffect) {
    !(e.id in effects && effects[e.id].tenant == e.tenant && effects[e.id].contractVersion == "legacy-sqlite/v1")
  }

  function Otherwise(effects: map<string, EffectRow>): LegacyEffect -> bool {
    e => StoredOtherwise(effects, e)
  }

  lemma {:induction false} MatchingSame(p: LegacyEffect -> bool, q: LegacyEffect -> bool, s: seq<LegacyEffect>)
    requires forall e <- s :: p(e) == q(e)
    ensures Sorting.Matching(p, s) == Sorting.Matching(q, s)
  {
    if s != [] {
      assert forall e <- s[..|s| - 1] :: e in s;
      MatchingSame(p, q, s[..|s| - 1]);
      assert s[|s| - 1] in s;
    }
  }

  /** The conflicts counted are the offers that the table in the end holds otherwise. */
  lemma {:induction false} ConflictsExactly(effects: map<string, EffectRow>, legacy: seq<LegacyEffect>)
    ensures ConflictingEffects(effects, legacy)
         == Sorting.Matching(Otherwise(InsertEffects(effects, legacy)), legacy)
  {
    if legacy != [] {
      var init, e := legacy[..|legacy| - 1], legacy[|legacy| - 1];
      var before, after := InsertEffects(effects, init), InsertEffects(effects, legacy);
      ConflictsExactly(effects, init);
      forall x <- init ensures Otherwise(before)(x) == Otherwise(after)(x) { EffectsOnlyAdded(effects, init, x.id); }
      MatchingSame(Otherwise(before), Otherwise(after), init);
    }
  }

  /** The effects whose events are taken: those the table holds as some listing has them. */
  lemma EligibleExactly(effects: map<string, EffectRow>, legacy: seq<LegacyEffect>, id: string)
    ensures id in EligibleIds(effects, legacy) <==>
              exists i :: 0 <= i < |legacy| && legacy[i].id == id && !StoredOtherwise(effects, legacy[i])
  {
    if i :| 0 <= i < |legacy| && legacy[i].id == id && !StoredOtherwise(effects, legacy[i]) {
      assert Compatible(effects, legacy[i]);
    }
    if id in EligibleIds(effects, legacy) {
      var i :| 0 <= i < |legacy| && Compatible(effects, legacy[i]) && legacy[i].id == id;
      assert !StoredOtherwise(effects, legacy[i]);
    }
  }

  predicate Imports(byId: map<string, LegacyEffect>, eligible: set<string>, ev: LegacyEvent) {
    ev.effect in byId && ev.effect in eligible
  }

  function NotImported(byId: map<string, LegacyEffect>, eligible: set<string>): LegacyEvent -> bool {
    ev => !Imports(byId, eligible, ev)
  }

  /** Events whose effect is unknown or was not accepted. */
  function SkippedEvents(byId: map<string, LegacyEffect>, eligible: set<string>, events: seq<LegacyEvent>): nat {
    Sorting.Matching(NotImported(byId, eligible), events)
  }

  /** The state of the effect loop after `i` offers. */
  ghost predicate Offered(before: map<string, EffectRow>, effects: map<string, EffectRow>, legacy: seq<LegacyEffect>,
                          i: nat, eligible: set<string>, inserted: nat, conflicted: nat)
  {
    && i <= |legacy| && effects == InsertEffects(before, legacy[..i])
    && (forall k :: 0 <= k < i ==> legacy[k].id in effects)
    && (forall id :: id in eligible <==> Eligible(effects, legacy[..i], id))
    && inserted == NewEffects(before, legacy[..i]) && conflicted == ConflictingEffects(before, legacy[..i])
    && |effects| == |before| + inserted && (inserted == 0 ==> effects == before)
  }

  lemma OfferNext(before: map<string, EffectRow>, effects: map<string, EffectRow>, legacy: seq<LegacyEffect>, i: nat,
                  eligible: set<string>, inserted: nat, conflicted: nat)
    requires i < |legacy| && Offered(before, effects, legacy, i, eligible, inserted, conflicted)
    ensures var e := legacy[i];
            var row := EffectRow(e.tenant, LEGACY_CONTRACT_VERSION, e.content);
            if e.id !in effects then
              Offered(before, effects[e.id := row], legacy, i + 1, eligible + {e.id}, inserted + 1, conflicted)
            else if Compatible(effects, e) then
              Offered(before, effects, legacy, i + 1, eligible + {e.id}, inserted, conflicted)
            else
              Offered(before, effects, legacy, i + 1, eligible, inserted, conflicted + 1)
  {
    assert legacy[..i + 1][..i] == legacy[..i];
    forall id { EligibleNext(effects, legacy, i, id); }
  }

  class ControlPlane {
    var effects: map<string, EffectRow>
    var table: Table

    method OfferEffects(legacy: seq<LegacyEffect>)
      returns (eligible: set<string>, inserted: nat, existing: nat, conflicted: nat)
      modifies this`effects
      ensures effects == InsertEffects(old(effects), legacy)
      ensures forall id :: id in eligible <==> Eligible(effects, legacy, id)
      ensures |legacy| == inserted + existing + conflicted
      ensures inserted == NewEffects(old(effects), legacy) && conflicted == ConflictingEffects(old(effects), legacy)
      ensures inserted == 0 <==> effects == old(effects)
    {
      eligible, inserted, existing, conflicted := {}, 0, 0, 0;
      for i := 0 to |legacy|
        invariant Offered(old(effects), effects, legacy, i, eligible, inserted, conflicted)
        invariant i == inserted + existing + conflicted
      {
        var e := legacy[i];
        OfferNext(old(effects), effects, legacy, i, eligible, inserted, conflicted);
        if e.id !in effects {
          effects := effects[e.id := EffectRow(e.tenant, LEGACY_CONTRACT_VERSION, e.content)];
          inserted := inserted + 1;
          eligible := eligible + {e.id};
        } else if Compatible(effects, e) {
          existing := existing + 1;
          eligible := eligible + {e.id};
        } else {
          conflicted := conflicted + 1;
        }
      }
      assert legacy[..|legacy|] == legacy;
    }

    method OfferEvents(env: Env, byId: map<string, LegacyEffect>, eligible: set<string>, ordered: seq<LegacyEvent>,
                       now: string)
      returns (inserted: nat, existing: nat, skipped: nat)
      modifies this`table
      ensures table == InsertEvents(env, old(table), byId, eligible, ordered, now)
      ensures |ordered| == inserted + existing + skipped && skipped == SkippedEvents(byId, eligible, ordered)
      ensures |table.events| == |old(table).events| + inserted
    {
      inserted, existing, skipped := 0, 0, 0;
      for i := 0 to |ordered|
        invariant table == InsertEvents(env, old(table), byId, eligible, ordered[..i], now)
        invariant i == inserted + existing + skipped && skipped == SkippedEvents(byId, eligible, ordered[..i])
        invariant |table.events| == |old(table).events| + inserted
      {
        var ev := ordered[i];
        assert ordered[..i + 1][..i] == ordered[..i];
        if ev.effect !in byId || ev.effect !in eligible {
          skipped := skipped + 1;
        } else if AlreadyPresent(env, table.events, byId[ev.effect].tenant, ev) {
          existing := existing + 1;
        } else {
          table := Table(table.events + [NewEvent(env, table, byId[ev.effect].tenant, ev, now)], table.nextSeq + 1);
          inserted := inserted + 1;
        }
      }
      assert ordered[..|ordered|] == ordered;
    }

    method ImportSnapshot(env: Env, legacy: seq<LegacyEffect>, events: seq<LegacyEvent>, now: string) returns (s: Stats)
      modifies this
      ensures effects == InsertEffects(old(effects), legacy)
      ensures table == ImportedTable(env, old(table), effects, legacy, events, now)
      ensures |legacy| == s.effectsInserted + s.effectsExisting + s.effectsConflicted
      ensures |events| == s.eventsInserted + s.eventsExisting + s.eventsSkipped
      ensures s.effectsInserted == NewEffects(old(effects), legacy)
      ensures s.effectsConflicted == ConflictingEffects(old(effects), legacy)
      ensures s.eventsSkipped == SkippedEvents(ById(legacy), EligibleIds(effects, legacy), events)
      ensures s.effectsInserted == 0 <==> effects == old(effects)
      ensures |table.events| == |old(table).events| + s.eventsInserted
    {
      var eligible, a, b, c := OfferEffects(legacy);
      var ordered := SortEvents(ById(legacy), events);
      ImportMembers(ById(legacy), events);
      assert |multiset(ordered)| == |multiset(events)|;
      var x, y, z := OfferEvents(env, ById(legacy), eligible, ordered, now);
      assert eligible == EligibleIds(effects, legacy);
      Sorting.SortMatching(KeyOrder(ById(legacy)), NotImported(ById(legacy), eligible), events);
      return Stats(a, b, c, x, y, z);
    }
  }

  function EligibleIds(effects: map<string, EffectRow>, legacy: seq<LegacyEffect>): set<string> {
    set i | 0 <= i < |legacy| && Compatible(effects, legacy[i]) :: legacy[i].id
  }

  /** The event table after an import that left the effect table as `effects`. */
  function ImportedTable(env: Env, t: Table, effects: map<string, EffectRow>, legacy: seq<LegacyEffect>,
                         events: seq<LegacyEvent>, now: string): Table {
    InsertEvents(env, t, ById(legacy), EligibleIds(effects, legacy), SortEvents(ById(legacy), events), now)
  }

  // ---------------------------------------------------------------- every tenant's chain survives

  /** The serial column: numbers grow along the table and the next one is larger still. */
  ghost predicate Serial(t: Table) {
    t.nextSeq > LastSeq(t.events) && t.nextSeq >= 0 && Increasing(t.events)
  }

  ghost predicate Increasing(events: seq<Event>) {
    events == [] || (Increasing(events[..|events| - 1]) && events[|events| - 1].seqNo > LastSeq(events[..|events| - 1]))
  }

  lemma {:induction false} TenantLast(hash: Json -> string, events: seq<Event>, tenant: string)
    requires Increasing(events) && Verified(hash, OfTenant(events, tenant))
    ensures TailHash(events, tenant) == Head(hash, OfTenant(events, tenant))
    ensures LastSeq(OfTenant(events, tenant)) <= LastSeq(events) || events == []
    decreases |events|
  {
    if events != [] {
      var n := |events| - 1;
      var rest := OfTenant(events[..n], tenant);
      if events[n].tenant == tenant {
        assert (rest + [events[n]])[..|rest|] == rest;
      } else {
        assert rest + [] == rest;
      }
      TenantLast(hash, events[..n], tenant);
    }
  }

  lemma OwnChain(hash: Json -> string, events: seq<Event>, e: Event)
    requires Increasing(events) && Verified(hash, OfTenant(events, e.tenant)) && e.seqNo > LastSeq(events)
    requires e.seqNo >= 0 && e.prevHash == TailHash(events, e.tenant) && e.recordHash == hash(Hashed(e))
    ensures Verified(hash, OfTenant(events + [e], e.tenant))
  {
    assert (events + [e])[..|events|] == events;
    TenantLast(hash, events, e.tenant);
    VerifiedAppend(hash, OfTenant(events, e.tenant), e);
  }

  lemma OtherChain(events: seq<Event>, e: Event, any: string)
    requires e.tenant != any
    ensures OfTenant(events + [e], any) == OfTenant(events, any)
  {
    assert (events + [e])[..|events|] == events;
  }

  lemma StaysSerial(t: Table, e: Event)
    requires Serial(t) && e.seqNo == t.nextSeq
    ensures Serial(Table(t.events + [e], t.nextSeq + 1))
  {
    assert (t.events + [e])[..|t.events|] == t.events;
  }

  lemma InsertKeepsChain(env: Env, t: Table, tenant: string, ev: LegacyEvent, now: string, any: string)
    requires Serial(t) && Verified(env.hash, OfTenant(t.events, any))
    ensures var u := InsertEvent(env, t, tenant, ev, now);
            Serial(u) && Verified(env.hash, OfTenant(u.events, any)) && t.events <= u.events
  {
    var e := NewEvent(env, t, tenant, ev, now);
    StaysSerial(t, e);
    if any == tenant {
      HashedFields(e, e.(recordHash := ""));
      OwnChain(env.hash, t.events, e);
    } else {
      OtherChain(t.events, e, any);
    }
  }

  /**
   If a tenant's chain verifies before an import it verifies after, under the verifier's own rules;
   no existing event is altered, and the serial numbers stay increasing.
   */
  lemma {:induction false} ImportKeepsChains(env: Env, t: Table, byId: map<string, LegacyEffect>, eligible: set<string>,
                                             events: seq<LegacyEvent>, now: string, tenant: string)
    requires Serial(t) && Verified(env.hash, OfTenant(t.events, tenant))
    ensures var u := InsertEvents(env, t, byId, eligible, events, now);
            Serial(u) && Verified(env.hash, OfTenant(u.events, tenant)) && t.events <= u.events
  {
    if events != [] {
      var ev := events[|events| - 1];
      ImportKeepsChains(env, t, byId, eligible, events[..|events| - 1], now, tenant);
      if ev.effect in byId && ev.effect in eligible {
        InsertKeepsChain(env, InsertEvents(env, t, byId, eligible, events[..|events| - 1], now),
                         byId[ev.effect].tenant, ev, now, tenant);
      }
    }
  }

  // ---------------------------------------------------------------- what is appended

  /** Two offers that the importer cannot tell apart: same effect, same number as text, same hash. */
  predicate SameOffer(env: Env, a: LegacyEvent, b: LegacyEvent) {
    a.effect == b.effect && env.repr(Num(a.seqNo)) == env.repr(Num(b.seqNo)) && a.recordHash == b.recordHash
  }

  /** The i-th offer is of an accepted effect, not in the table, and not a repetition of an earlier one. */
  ghost predicate Lands(env: Env, t: Table, byId: map<string, LegacyEffect>, eligible: set<string>,
                        events: seq<LegacyEvent>, i: nat)
  {
    && i < |events| && Imports(byId, eligible, events[i])
    && !AlreadyPresent(env, t.events, byId[events[i].effect].tenant, events[i])
    && forall j :: 0 <= j < i ==> !SameOffer(env, events[j], events[i])
  }

  /** The positions of the offers that land, in order. */
  ghost function Landing(env: Env, t: Table, byId: map<string, LegacyEffect>, eligible: set<string>,
                         events: seq<LegacyEvent>): (at: seq<nat>)
    ensures forall k :: 0 <= k < |at| ==> Lands(env, t, byId, eligible, events, at[k])
    ensures forall i: nat :: Lands(env, t, byId, eligible, events, i) ==> i in at
    ensures forall k, l :: 0 <= k < l < |at| ==> at[k] < at[l]
  {
    LandingTo(env, t, byId, eligible, events, |events|)
  }

  ghost function LandingTo(env: Env, t: Table, byId: map<string, LegacyEffect>, eligible: set<string>,
                           events: seq<LegacyEvent>, n: nat): (at: seq<nat>)
    requires n <= |events|
    ensures forall k :: 0 <= k < |at| ==> at[k] < n && Lands(env, t, byId, eligible, events, at[k])
    ensures forall i: nat :: i < n && Lands(env, t, byId, eligible, events, i) ==> i in at
    ensures forall k, l :: 0 <= k < l < |at| ==> at[k] < at[l]
  {
    if n == 0 then [] else
      LandingTo(env, t, byId, eligible, events, n - 1)
      + if Lands(env, t, byId, eligible, events, n - 1) then [n - 1] else []
  }

  /** A row that holds the event's values and nothing else, field by field. */
  ghost predicate Carries(env: Env, row: Event, tenant: string, ev: LegacyEvent, seqNo: int, now: string) {
    && row.seqNo == seqNo && row.tenant == tenant && row.effect == ev.effect && row.actor == ev.actor
    && row.kind == "legacy_effect_event_imported" && row.occurredAt == now && row.recordHash == env.hash(Hashed(row))
    && row.payload.Obj?
    && row.payload.fields.Keys == {"legacy_seq", "legacy_event_type", "legacy_prev_hash", "legacy_record_hash",
                                   "legacy_public_payload"}
    && row.payload.fields["legacy_seq"] == Num(ev.seqNo)
    && row.payload.fields["legacy_event_type"] == Str(ev.kind)
    && row.payload.fields["legacy_prev_hash"] == Str(ev.prevHash)
    && row.payload.fields["legacy_record_hash"] == Str(ev.recordHash)
    && row.payload.fields["legacy_public_payload"] == ev.publicPayload
  }

  lemma NewEventCarries(env: Env, t: Table, tenant: string, ev: LegacyEvent, now: string)
    ensures Carries(env, NewEvent(env, t, tenant, ev, now), tenant, ev, t.nextSeq, now)
    ensures NewEvent(env, t, tenant, ev, now).prevHash == TailHash(t.events, tenant)
  {
    var e := NewEvent(env, t, tenant, ev, now);
    HashedFields(e, e.(recordHash := ""));
  }

  /** A new row is the import of exactly the offers like its own. */
  lemma NewRowMatches(env: Env, t: Table, tenant: string, ev: LegacyEvent, now: string, other: LegacyEvent)
    requires ev.effect == other.effect
    ensures IsImportOf(env, NewEvent(env, t, tenant, ev, now), tenant, other) <==> SameOffer(env, ev, other)
  {
  }

  lemma SameOfferSamePresent(env: Env, events: seq<Event>, tenant: string, a: LegacyEvent, b: LegacyEvent)
    requires SameOffer(env, a, b)
    ensures AlreadyPresent(env, events, tenant, a) <==> AlreadyPresent(env, events, tenant, b)
  {
    if AlreadyPresent(env, events, tenant, a) {
      var i :| 0 <= i < |events| && IsImportOf(env, events[i], tenant, a);
      assert IsImportOf(env, events[i], tenant, b);
    }
    if AlreadyPresent(env, events, tenant, b) {
      var i :| 0 <= i < |events| && IsImportOf(env, events[i], tenant, b);
      assert IsImportOf(env, events[i], tenant, a);
    }
  }

  /** One offer makes an event present exactly when it is like it. */
  lemma PresentAfterInsert(env: Env, t: Table, owner: string, offer: LegacyEvent, now: string, tenant: string,
                           ev: LegacyEvent)
    requires offer.effect == ev.effect ==> owner == tenant
    ensures AlreadyPresent(env, InsertEvent(env, t, owner, offer, now).events, tenant, ev) <==>
              AlreadyPresent(env, t.events, tenant, ev) || SameOffer(env, offer, ev)
  {
    if SameOffer(env, offer, ev) { SameOfferSamePresent(env, t.events, tenant, offer, ev); }
    if !AlreadyPresent(env, t.events, owner, offer) {
      PresentAppend(env, t.events, NewEvent(env, t, owner, offer, now), tenant, ev);
      if offer.effect == ev.effect { NewRowMatches(env, t, owner, offer, now, ev); }
    }
  }

  /** An event is present after some offers exactly when it was before or one of them is like it. */
  lemma {:induction false} PresentAfter(env: Env, t: Table, byId: map<string, LegacyEffect>, eligible: set<string>,
                                        events: seq<LegacyEvent>, now: string, ev: LegacyEvent)
    requires Imports(byId, eligible, ev)
    ensures AlreadyPresent(env, InsertEvents(env, t, byId, eligible, events, now).events, byId[ev.effect].tenant, ev)
            <==> || AlreadyPresent(env, t.events, byId[ev.effect].tenant, ev)
                 || exists j :: 0 <= j < |events| && SameOffer(env, events[j], ev)
  {
    if events != [] {
      var init, last := events[..|events| - 1], events[|events| - 1];
      PresentAfter(env, t, byId, eligible, init, now, ev);
      assert events == init + [last];
      if Imports(byId, eligible, last) {
        PresentAfterInsert(env, InsertEvents(env, t, byId, eligible, init, now), byId[last.effect].tenant, last, now,
                           byId[ev.effect].tenant, ev);
      }
      assert (exists j :: 0 <= j < |events| && SameOffer(env, events[j], ev)) <==>
               (exists j :: 0 <= j < |init| && SameOffer(env, init[j], ev)) || SameOffer(env, last, ev) by {
        OfferedInit(env, init, last, ev);
      }
    }
  }

  lemma OfferedInit(env: Env, init: seq<LegacyEvent>, last: LegacyEvent, ev: LegacyEvent)
    ensures (exists j :: 0 <= j < |init + [last]| && SameOffer(env, (init + [last])[j], ev)) <==>
              (exists j :: 0 <= j < |init| && SameOffer(env, init[j], ev)) || SameOffer(env, last, ev)
  {
    var all := init + [last];
    if j :| 0 <= j < |init| && SameOffer(env, init[j], ev) { assert SameOffer(env, all[j], ev); }
    if SameOffer(env, last, ev) { assert SameOffer(env, all[|init|], ev); }
    if j :| 0 <= j < |all| && SameOffer(env, all[j], ev) {
      assert j < |init| ==> all[j] == init[j];
    }
  }

  /** The rows after the old ones: one for every offer that lands, in order, linked to its tenant's tail. */
  ghost predicate RowsOf(env: Env, t: Table, u: Table, byId: map<string, LegacyEffect>, events: seq<LegacyEvent>,
                         at: seq<nat>, now: string)
  {
    && |u.events| == |t.events| + |at| && u.events[..|t.events|] == t.events && u.nextSeq == t.nextSeq + |at|
    && forall k :: 0 <= k < |at| ==> RowFor(env, t, u.events, byId, events, at[k], k, now)
  }

  /** The k-th row after the old ones is the i-th offer's. */
  ghost predicate RowFor(env: Env, t: Table, rows: seq<Event>, byId: map<string, LegacyEffect>,
                         events: seq<LegacyEvent>, i: nat, k: nat, now: string)
  {
    && i < |events| && events[i].effect in byId
    && RowOf(env, rows, |t.events| + k, byId[events[i].effect].tenant, events[i], t.nextSeq + k, now)
  }

  ghost predicate RowOf(env: Env, rows: seq<Event>, n: nat, tenant: string, ev: LegacyEvent, seqNo: int, now: string) {
    n < |rows| && Carries(env, rows[n], tenant, ev, seqNo, now) && rows[n].prevHash == TailHash(rows[..n], tenant)
  }

  lemma RowStays(env: Env, rows: seq<Event>, e: Event, n: nat, tenant: string, ev: LegacyEvent, seqNo: int,
                 now: string)
    requires RowOf(env, rows, n, tenant, ev, seqNo, now)
    ensures RowOf(env, rows + [e], n, tenant, ev, seqNo, now)
  {
    assert (rows + [e])[..n] == rows[..n];
  }

  lemma RowForStays(env: Env, t: Table, rows: seq<Event>, e: Event, byId: map<string, LegacyEffect>,
                    events: seq<LegacyEvent>, i: nat, k: nat, now: string)
    requires RowFor(env, t, rows, byId, events, i, k, now)
    ensures RowFor(env, t, rows + [e], byId, events, i, k, now)
  {
    RowStays(env, rows, e, |t.events| + k, byId[events[i].effect].tenant, events[i], t.nextSeq + k, now);
  }

  lemma NewRow(env: Env, u: Table, tenant: string, ev: LegacyEvent, now: string)
    ensures RowOf(env, u.events + [NewEvent(env, u, tenant, ev, now)], |u.events|, tenant, ev, u.nextSeq, now)
  {
    var e := NewEvent(env, u, tenant, ev, now);
    NewEventCarries(env, u, tenant, ev, now);
    assert (u.events + [e])[..|u.events|] == u.events;
  }

  lemma RowAdded(env: Env, t: Table, u: Table, byId: map<string, LegacyEffect>, events: seq<LegacyEvent>,
                 at: seq<nat>, now: string, i: nat)
    requires RowsOf(env, t, u, byId, events, at, now) && i < |events| && events[i].effect in byId
    ensures var e := NewEvent(env, u, byId[events[i].effect].tenant, events[i], now);
            RowsOf(env, t, Table(u.events + [e], u.nextSeq + 1), byId, events, at + [i], now)
  {
    var e, n := NewEvent(env, u, byId[events[i].effect].tenant, events[i], now), |at|;
    NewRow(env, u, byId[events[i].effect].tenant, events[i], now);
    forall k | 0 <= k < n + 1 ensures RowFor(env, t, u.events + [e], byId, events, (at + [i])[k], k, now) {
      if k < n { RowForStays(env, t, u.events, e, byId, events, at[k], k, now); }
    }
    OldRowsStay(t.events, u.events, e);
  }

  lemma OldRowsStay(before: seq<Event>, rows: seq<Event>, e: Event)
    requires |before| <= |rows| && rows[..|before|] == before
    ensures (rows + [e])[..|before|] == before
  {
  }

  /** The next offer is taken exactly when it lands. */
  lemma TakenWhenLands(env: Env, t: Table, byId: map<string, LegacyEffect>, eligible: set<string>,
                       events: seq<LegacyEvent>, now: string, i: nat)
    requires i < |events|
    ensures var before := InsertEvents(env, t, byId, eligible, events[..i], now);
            Lands(env, t, byId, eligible, events, i) <==>
              && Imports(byId, eligible, events[i])
              && !AlreadyPresent(env, before.events, byId[events[i].effect].tenant, events[i])
  {
    if Imports(byId, eligible, events[i]) {
      PresentAfter(env, t, byId, eligible, events[..i], now, events[i]);
      assert forall j :: 0 <= j < i ==> events[..i][j] == events[j];
    }
  }

  lemma InsertNext(env: Env, t: Table, byId: map<string, LegacyEffect>, eligible: set<string>,
                   events: seq<LegacyEvent>, now: string, i: nat, before: Table)
    requires i < |events| && before == InsertEvents(env, t, byId, eligible, events[..i], now)
    ensures var ev := events[i];
            InsertEvents(env, t, byId, eligible, events[..i + 1], now) ==
              if Lands(env, t, byId, eligible, events, i) then
                Table(before.events + [NewEvent(env, before, byId[ev.effect].tenant, ev, now)], before.nextSeq + 1)
              else before
  {
    TakenWhenLands(env, t, byId, eligible, events, now, i);
    assert events[..i + 1][..i] == events[..i];
  }

  lemma {:induction false} ImportedRowsTo(env: Env, t: Table, byId: map<string, LegacyEffect>, eligible: set<string>,
                                          events: seq<LegacyEvent>, now: string, n: nat)
    requires n <= |events|
    ensures RowsOf(env, t, InsertEvents(env, t, byId, eligible, events[..n], now), byId, events,
                   LandingTo(env, t, byId, eligible, events, n), now)
  {
    if n == 0 {
      assert t.events[..|t.events|] == t.events;
    } else {
      var earlier := InsertEvents(env, t, byId, eligible, events[..n - 1], now);
      ImportedRowsTo(env, t, byId, eligible, events, now, n - 1);
      InsertNext(env, t, byId, eligible, events, now, n - 1, earlier);
      if Lands(env, t, byId, eligible, events, n - 1) {
        RowAdded(env, t, earlier, byId, events, LandingTo(env, t, byId, eligible, events, n - 1), now, n - 1);
      }
    }
  }

  /**
   What an import appends: in the order of the offers, one row for each that is of an accepted effect, is
   not in the table and repeats no earlier one; each carries its event's values and its effect's tenant.
   */
  lemma ImportedRows(env: Env, t: Table, byId: map<string, LegacyEffect>, eligible: set<string>,
                     events: seq<LegacyEvent>, now: string)
    ensures RowsOf(env, t, InsertEvents(env, t, byId, eligible, events, now), byId, events,
                   Landing(env, t, byId, eligible, events), now)
  {
    ImportedRowsTo(env, t, byId, eligible, events, now, |events|);
    assert events[..|events|] == events;
  }

  // ---------------------------------------------------------------- importing twice

  lemma {:induction false} EffectsTwice(effects: map<string, EffectRow>, legacy: seq<LegacyEffect>)
    requires forall i :: 0 <= i < |legacy| ==> legacy[i].id in effects
    ensures InsertEffects(effects, legacy) == effects
  {
    if legacy != [] { EffectsTwice(effects, legacy[..|legacy| - 1]); }
  }

  lemma NowPresent(env: Env, t: Table, tenant: string, ev: LegacyEvent, now: string)
    ensures AlreadyPresent(env, InsertEvent(env, t, tenant, ev, now).events, tenant, ev)
  {
    if !AlreadyPresent(env, t.events, tenant, ev) {
      var e := NewEvent(env, t, tenant, ev, now);
      assert (t.events + [e])[|t.events|] == e;
      assert IsImportOf(env, e, tenant, ev);
    }
  }

  lemma PresentGrows(env: Env, a: seq<Event>, b: seq<Event>, tenant: string, ev: LegacyEvent)
    requires a <= b && AlreadyPresent(env, a, tenant, ev)
    ensures AlreadyPresent(env, b, tenant, ev)
  {
    var i :| 0 <= i < |a| && IsImportOf(env, a[i], tenant, ev);
    assert b[i] == a[i];
  }

  /** After an import every event of an eligible effect is present. */
  lemma {:induction false} AllPresent(env: Env, t: Table, byId: map<string, LegacyEffect>, eligible: set<string>,
                                      events: seq<LegacyEvent>, now: string, ev: LegacyEvent)
    requires ev in events && Imports(byId, eligible, ev)
    ensures AlreadyPresent(env, InsertEvents(env, t, byId, eligible, events, now).events, byId[ev.effect].tenant, ev)
  {
    var n := |events| - 1;
    var earlier := InsertEvents(env, t, byId, eligible, events[..n], now);
    if events[n] == ev {
      NowPresent(env, earlier, byId[ev.effect].tenant, ev, now);
    } else {
      assert events == events[..n] + [events[n]];
      AllPresent(env, t, byId, eligible, events[..n], now, ev);
      PresentGrows(env, earlier.events, InsertEvents(env, t, byId, eligible, events, now).events,
                   byId[ev.effect].tenant, ev);
    }
  }

  lemma {:induction false} NothingToInsert(env: Env, t: Table, byId: map<string, LegacyEffect>, eligible: set<string>,
                                           events: seq<LegacyEvent>, now: string)
    requires forall ev :: ev in events && Imports(byId, eligible, ev) ==>
             AlreadyPresent(env, t.events, byId[ev.effect].tenant, ev)
    ensures InsertEvents(env, t, byId, eligible, events, now) == t
  {
    if events != [] {
      assert events == events[..|events| - 1] + [events[|events| - 1]];
      assert events[|events| - 1] in events;
      NothingToInsert(env, t, byId, eligible, events[..|events| - 1], now);
    }
  }

  /**
   Importing the same snapshot again, at any later time, changes neither table, for every snapshot,
   with duplicate effect ids or without. With `ImportSnapshot` this means zero reported inserts.
   */
  lemma ImportIsIdempotent(env: Env, effects: map<string, EffectRow>, t: Table, legacy: seq<LegacyEffect>,
                           events: seq<LegacyEvent>, now: string, later: string)
    ensures var effects' := InsertEffects(effects, legacy);
            var t' := ImportedTable(env, t, effects', legacy, events, now);
            && InsertEffects(effects', legacy) == effects'
            && ImportedTable(env, t', effects', legacy, events, later) == t'
  {
    var effects' := InsertEffects(effects, legacy);
    forall i | 0 <= i < |legacy| ensures legacy[i].id in effects' { EffectsOnlyAdded(effects, legacy, legacy[i].id); }
    EffectsTwice(effects', legacy);
    var byId, eligible, ordered := ById(legacy), EligibleIds(effects', legacy), SortEvents(ById(legacy), events);
    var t' := InsertEvents(env, t, byId, eligible, ordered, now);
    forall ev | ev in ordered && Imports(byId, eligible, ev)
      ensures AlreadyPresent(env, t'.events, byId[ev.effect].tenant, ev)
    {
      AllPresent(env, t, byId, eligible, ordered, now, ev);
    }
    NothingToInsert(env, t', byId, eligible, ordered, later);
  }

  // ---------------------------------------------------------------- the control plane's cached chain tails

  /**
   The control plane itself appends events behind the tail hash it caches per tenant
   (table xa_chain_tails); a missing row reads as the empty string.
   */
  function NativeEvent(env: Env, t: Table, tails: map<string, string>, tenant: string, effect: string, kind: string,
                       actor: string, payload: Json, now: string): Event {
    var e := Event(t.nextSeq, tenant, effect, kind, actor, payload, if tenant in tails then tails[tenant] else "", "",
                   now);
    e.(recordHash := env.hash(Hashed(e)))
  }

  /** A native append keeps the tenant's chain exactly when the cached tail is the chain's head. */
  lemma NativeAppend(env: Env, t: Table, tails: map<string, string>, e: Event)
    requires Serial(t) && Verified(env.hash, OfTenant(t.events, e.tenant))
    requires e == NativeEvent(env, t, tails, e.tenant, e.effect, e.kind, e.actor, e.payload, e.occurredAt)
    ensures Verified(env.hash, OfTenant(t.events + [e], e.tenant)) <==>
              (if e.tenant in tails then tails[e.tenant] else "") == Head(env.hash, OfTenant(t.events, e.tenant))
  {
    assert (t.events + [e])[..|t.events|] == t.events;
    TenantLast(env.hash, t.events, e.tenant);
    HashedFields(e, e.(recordHash := ""));
    VerifiedAppend(env.hash, OfTenant(t.events, e.tenant), e);
  }

  /** Whether a row is the tenant's own can be told from the tenant's chain. */
  lemma {:induction false} PresentInChain(env: Env, events: seq<Event>, tenant: string, ev: LegacyEvent)
    ensures AlreadyPresent(env, events, tenant, ev) <==> AlreadyPresent(env, OfTenant(events, tenant), tenant, ev)
  {
    if events != [] {
      var init, last := events[..|events| - 1], events[|events| - 1];
      PresentInChain(env, init, tenant, ev);
      PresentAppend(env, init, last, tenant, ev);
      assert events == init + [last];
      if last.tenant == tenant {
        PresentAppend(env, OfTenant(init, tenant), last, tenant, ev);
      } else {
        assert OfTenant(events, tenant) == OfTenant(init, tenant);
      }
    }
  }

  lemma PresentAppend(env: Env, events: seq<Event>, e: Event, tenant: string, ev: LegacyEvent)
    ensures AlreadyPresent(env, events + [e], tenant, ev) <==>
            AlreadyPresent(env, events, tenant, ev) || IsImportOf(env, e, tenant, ev)
  {
    var all := events + [e];
    if AlreadyPresent(env, events, tenant, ev) { PresentGrows(env, events, all, tenant, ev); }
    if IsImportOf(env, e, tenant, ev) { assert all[|events|] == e; }
    if AlreadyPresent(env, all, tenant, ev) {
      var i :| 0 <= i < |all| && IsImportOf(env, all[i], tenant, ev);
      assert i < |events| ==> all[i] == events[i];
    }
  }

  /** An event the import will append to the tenant's chain. */
  predicate IsNewFor(env: Env, t: Table, byId: map<string, LegacyEffect>, eligible: set<string>, ev: LegacyEvent,
                     tenant: string)
  {
    Imports(byId, eligible, ev) && byId[ev.effect].tenant == tenant && !AlreadyPresent(env, t.events, tenant, ev)
  }

  /** Some event offered is new for the tenant. */
  predicate AddsFor(env: Env, t: Table, byId: map<string, LegacyEffect>, eligible: set<string>,
                    events: seq<LegacyEvent>, tenant: string)
  {
    exists i :: 0 <= i < |events| && IsNewFor(env, t, byId, eligible, events[i], tenant)
  }

  lemma AddsForLast(env: Env, t: Table, byId: map<string, LegacyEffect>, eligible: set<string>,
                    events: seq<LegacyEvent>, tenant: string)
    requires events != []
    ensures AddsFor(env, t, byId, eligible, events, tenant) <==>
            || AddsFor(env, t, byId, eligible, events[..|events| - 1], tenant)
            || IsNewFor(env, t, byId, eligible, events[|events| - 1], tenant)
  {
    var init := events[..|events| - 1];
    if AddsFor(env, t, byId, eligible, init, tenant) {
      var i :| 0 <= i < |init| && IsNewFor(env, t, byId, eligible, init[i], tenant);
      assert events[i] == init[i];
    }
    if AddsFor(env, t, byId, eligible, events, tenant) {
      var i :| 0 <= i < |events| && IsNewFor(env, t, byId, eligible, events[i], tenant);
      assert i < |init| ==> init[i] == events[i];
    }
  }

  /** One insertion changes the tenant's chain exactly when it is the tenant's and not present. */
  lemma InsertChanges(env: Env, t: Table, owner: string, ev: LegacyEvent, now: string, tenant: string)
    ensures var u := InsertEvent(env, t, owner, ev, now);
            && OfTenant(t.events, tenant) <= OfTenant(u.events, tenant)
            && (OfTenant(u.events, tenant) == OfTenant(t.events, tenant)
                <==> owner != tenant || AlreadyPresent(env, t.events, tenant, ev))
  {
    if !AlreadyPresent(env, t.events, owner, ev) {
      var e := NewEvent(env, t, owner, ev, now);
      assert (t.events + [e])[..|t.events|] == t.events;
    }
  }

  /** While the tenant's chain is unchanged, the same events are present in it. */
  lemma SameChainSamePresent(env: Env, a: seq<Event>, b: seq<Event>, tenant: string, ev: LegacyEvent)
    requires OfTenant(a, tenant) == OfTenant(b, tenant)
    ensures AlreadyPresent(env, a, tenant, ev) <==> AlreadyPresent(env, b, tenant, ev)
  {
    PresentInChain(env, a, tenant, ev);
    PresentInChain(env, b, tenant, ev);
  }

  /** The import changes a tenant's chain exactly when some event offered is new for the tenant. */
  lemma {:induction false} ImportAddsExactly(env: Env, t: Table, byId: map<string, LegacyEffect>, eligible: set<string>,
                                             events: seq<LegacyEvent>, now: string, tenant: string)
    ensures var u := InsertEvents(env, t, byId, eligible, events, now);
            && OfTenant(t.events, tenant) <= OfTenant(u.events, tenant)
            && (OfTenant(u.events, tenant) == OfTenant(t.events, tenant)
                <==> !AddsFor(env, t, byId, eligible, events, tenant))
  {
    if events != [] {
      var init, ev := events[..|events| - 1], events[|events| - 1];
      var earlier := InsertEvents(env, t, byId, eligible, init, now);
      ImportAddsExactly(env, t, byId, eligible, init, now, tenant);
      AddsForLast(env, t, byId, eligible, events, tenant);
      if Imports(byId, eligible, ev) {
        InsertChanges(env, earlier, byId[ev.effect].tenant, ev, now, tenant);
        if !AddsFor(env, t, byId, eligible, init, tenant) {
          SameChainSamePresent(env, earlier.events, t.events, tenant, ev);
        }
      }
    }
  }

  /**
   The import does not touch the cached tails. So the first native append after it keeps a tenant's
   chain verifiable exactly when no event offered was new for that tenant, unless the chain exhibits
   a hash collision.
   */
  lemma AppendAfterImport(env: Env, t: Table, tails: map<string, string>, byId: map<string, LegacyEffect>,
                          eligible: set<string>,
                          events: seq<LegacyEvent>, now: string, e: Event)
    requires Serial(t) && Verified(env.hash, OfTenant(t.events, e.tenant)) && (forall x :: env.hash(x) != "")
    requires (if e.tenant in tails then tails[e.tenant] else "") == Head(env.hash, OfTenant(t.events, e.tenant))
    requires e == NativeEvent(env, InsertEvents(env, t, byId, eligible, events, now), tails, e.tenant, e.effect, e.kind,
                              e.actor, e.payload, e.occurredAt)
    ensures var u := InsertEvents(env, t, byId, eligible, events, now);
            var chain := OfTenant(u.events, e.tenant);
            || HashChain.Collision(env.hash, Bodies(chain), Bodies(chain))
            || (Verified(env.hash, OfTenant(u.events + [e], e.tenant))
                <==> !AddsFor(env, t, byId, eligible, events, e.tenant))
  {
    var u := InsertEvents(env, t, byId, eligible, events, now);
    ImportKeepsChains(env, t, byId, eligible, events, now, e.tenant);
    NativeAppend(env, u, tails, e);
    ImportAddsExactly(env, t, byId, eligible, events, now, e.tenant);
    HeadsDiffer(env.hash, OfTenant(t.events, e.tenant), OfTenant(u.events, e.tenant));
  }

  /**
   A snapshot of one effect with one event imported into an empty control plane, and the tenant's next
   native event, the preparation of a new effect: it breaks the chain.
   */
  lemma ImportBreaksAppend(env: Env, now: string, payload: Json)
    requires forall x :: env.hash(x) != ""
    ensures var legacy := [LegacyEffect("e", "tenant", "")];
            var effects := InsertEffects(map[], legacy);
            var ev := LegacyEvent(1, "e", "prepared", "actor", Null, "", "legacy");
            var u := ImportedTable(env, Table([], 0), effects, legacy, [ev], now);
            var e := NativeEvent(env, u, map[], "tenant", "f", "effect_prepared", "actor", payload, now);
            && "f" !in effects
            && Verified(env.hash, OfTenant(u.events, "tenant"))
            && !Verified(env.hash, OfTenant(u.events + [e], "tenant"))
  {
    var legacy := [LegacyEffect("e", "tenant", "")];
    var effects := InsertEffects(map[], legacy);
    OneEffect(legacy[0]);
    var t, byId := Table([], 0), map["e" := legacy[0]];
    var ev := LegacyEvent(1, "e", "prepared", "actor", Null, "", "legacy");
    Sorting.SortOne(KeyOrder(byId), ev);
    var u := InsertEvents(env, t, byId, {"e"}, [ev], now);
    assert OfTenant(t.events, "tenant") == [];
    assert IsNewFor(env, t, byId, {"e"}, [ev][0], "tenant");
    ImportAddsExactly(env, t, byId, {"e"}, [ev], now, "tenant");
    ImportKeepsChains(env, t, byId, {"e"}, [ev], now, "tenant");
    NativeAppend(env, u, map[], NativeEvent(env, u, map[], "tenant", "f", "effect_prepared", "actor", payload, now));
    assert "e"[0] == 'e' && "f"[0] == 'f';
  }

  lemma OneEffect(e: LegacyEffect)
    ensures ById([e]) == map[e.id := e] && EligibleIds(InsertEffects(map[], [e]), [e]) == {e.id}
    ensures InsertEffects(map[], [e]).Keys == {e.id}
  {
    assert [e][..0] == [];
    assert Compatible(InsertEffects(map[], [e]), [e][0]);
  }

  /** A verified chain and a longer one that extends it have different heads, or collide. */
  lemma HeadsDiffer(hash: Json -> string, a: seq<Event>, b: seq<Event>)
    requires Verified(hash, a) && Verified(hash, b) && a <= b && (forall x :: hash(x) != "")
    ensures a == b || Head(hash, a) != Head(hash, b) || HashChain.Collision(hash, Bodies(b), Bodies(b))
  {
    if a != b && Head(hash, a) == Head(hash, b) {
      VerifiedIsLinked(hash, a);
      VerifiedIsLinked(hash, b);
      HashChain.HeadCommits(hash, Link, Str(""), Bodies(a), Bodies(b));
      BodiesPrefix(a, b);
      assert Bodies(b)[..|a|] == Bodies(a) && Bodies(b)[..|b|] == Bodies(b);
      HashChain.CollisionGrows(hash, Bodies(b), Bodies(b), |a|, |b|);
    }
  }

  lemma {:induction false} BodiesPrefix(a: seq<Event>, b: seq<Event>)
    requires a <= b
    ensures Bodies(a) <= Bodies(b) && |Bodies(a)| == |a| && |Bodies(b)| == |b|
    decreases |b|
  {
    if b != [] {
      if a == b {
        BodiesPrefix(a[..|a| - 1], b[..|b| - 1]);
      } else {
        assert a <= b[..|b| - 1];
        BodiesPrefix(a, b[..|b| - 1]);
      }
    }
  }
}
