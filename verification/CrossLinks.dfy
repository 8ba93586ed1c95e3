/**
 The cross-system links of an evidence bundle: what the collector checks before it writes them
 (scripts/collect_identity_undo_evidence.py) against what the verifier checks when it reads them
 (scripts/verify_identity_undo_evidence.py).
 */
module CrossLinks {
  import opened Wrappers
  import opened Json
  import opened PyLists
  import Sorting
  import opened EffectChain
  import opened GateEvidence

  const HUMAN := "gen_ai.governance.human_principal"
  const AGENT := "gen_ai.governance.agent_id"
  const TENANT := "gen_ai.governance.tenant_id"
  const EFFECT := "gen_ai.resilience.effect_id"
  const COMPENSATES := "gen_ai.resilience.compensates_effect_id"

  datatype EffectRow = EffectRow(
    id: string, tenant: string, trace: string, compensationTrace: string, principal: string, agent: string,
    tool: string, domain: string, status: string, snapshot: Json)

  datatype UndoRow = UndoRow(
    request: string, effect: string, tenant: string, requester: string, approver: Option<string>, status: string)

  datatype BusinessRow = BusinessRow(
    ticket: string, tenant: string, state: string, createEffect: string, createdAt: string, cancelledAt: Option<string>)

  /** `hash` digests an artifact, `repr` and `toInt` are Python's `str` and `int` on JSON values. */
  datatype Env = Env(hash: Json -> string, repr: Json -> string, toInt: Json -> Option<int>)

  /** A row's JSON payload, read with `.get`. */
  function Field(payload: Json, key: string): Json {
    if payload.Obj? then Get(payload.fields, key) else Null
  }

  function Matches(events: seq<Event>, kind: string, effect: string): seq<Event> {
    if events == [] then [] else
      var e := events[|events| - 1];
      Matches(events[..|events| - 1], kind, effect) + if e.kind == kind && e.effect == effect then [e] else []
  }

  /** The only event of a kind for an effect, if there is exactly one. */
  function Single(events: seq<Event>, kind: string, effect: string): Option<Event> {
    var m := Matches(events, kind, effect);
    if |m| == 1 then Some(m[0]) else None
  }

  /** The four events of a completed undo workflow. */
  datatype Workflow = Workflow(prepared: Event, requested: Event, approved: Event, compensated: Event)

  function WorkflowOf(events: seq<Event>, effect: string): Option<Workflow> {
    var a, b := Single(events, "effect_prepared", effect), Single(events, "undo_requested", effect);
    var c, d := Single(events, "undo_approved", effect), Single(events, "compensated", effect);
    if a.Some? && b.Some? && c.Some? && d.Some? then Some(Workflow(a.value, b.value, c.value, d.value)) else None
  }

  // ---------------------------------------------------------------- the collector

  datatype CollectFault =
    | NotComplete | UndoNotLinked | BusinessNotLinked | BusinessNotCompensated | IdentitiesIncomplete
    | DutyNotSeparated | EventsMissing | TracesNotDistinct | EventsDoNotMatch | RequestIdsDiffer
    | OriginalTraceUnlinked | CompensationTraceUnlinked

  predicate OriginalLink(r: Record, e: EffectRow) {
    && Get(r, TRACE_ID) == Str(e.trace) && Get(r, EFFECT) == Str(e.id) && Get(r, HUMAN) == Str(e.principal)
    && Get(r, AGENT) == Str(e.agent) && Get(r, TENANT) == Str(e.tenant)
  }

  predicate CompensationLink(r: Record, e: EffectRow, approver: string) {
    && Get(r, TRACE_ID) == Str(e.compensationTrace) && Get(r, COMPENSATES) == Str(e.id)
    && Get(r, HUMAN) == Str(approver) && Get(r, TENANT) == Str(e.tenant)
  }

  /** `_validate_cross_system`: the first check that fails. */
  function ValidateCrossSystem(env: Env, e: EffectRow, u: UndoRow, b: BusinessRow, events: seq<Event>,
                               gate6: seq<Record>): Option<CollectFault>
  {
    if e.status != "compensated" || u.status != "completed" then Some(NotComplete)
    else if u.effect != e.id || u.tenant != e.tenant then Some(UndoNotLinked)
    else if b.createEffect != e.id || b.tenant != e.tenant then Some(BusinessNotLinked)
    else if b.state != "cancelled" || b.cancelledAt.GetOr("") == "" then Some(BusinessNotCompensated)
    else if u.requester != e.principal || u.approver.GetOr("") == "" then Some(IdentitiesIncomplete)
    else if u.approver.value == e.principal then Some(DutyNotSeparated)
    else
      var w := WorkflowOf(events, e.id);
      if w.None? then Some(EventsMissing)
      else if e.trace == e.compensationTrace then Some(TracesNotDistinct)
      else if w.value.prepared.actor != e.principal
           || Field(w.value.prepared.payload, TRACE_ID) != Str(e.trace)
           || w.value.requested.actor != e.principal
           || w.value.approved.actor != u.approver.value
           || Field(w.value.compensated.payload, TRACE_ID) != Str(e.compensationTrace) then Some(EventsDoNotMatch)
      else if RequestId(env, w.value.requested) != u.request || RequestId(env, w.value.approved) != u.request
           || RequestId(env, w.value.compensated) != u.request then Some(RequestIdsDiffer)
      else if !exists i :: 0 <= i < |gate6| && OriginalLink(gate6[i], e) then Some(OriginalTraceUnlinked)
      else if !exists i :: 0 <= i < |gate6| && CompensationLink(gate6[i], e, u.approver.value)
        then Some(CompensationTraceUnlinked)
      else None
  }

  /** Exactly one event is of the kind and the effect, and it is this one. */
  ghost predicate IsOnly(events: seq<Event>, kind: string, effect: string, e: Event) {
    exists i :: 0 <= i < |events| && events[i] == e && e.kind == kind && e.effect == effect
                && forall j :: 0 <= j < |events| && j != i ==> events[j].kind != kind || events[j].effect != effect
  }

  lemma {:induction false} NoMatches(events: seq<Event>, kind: string, effect: string)
    ensures Matches(events, kind, effect) == [] <==>
              forall j :: 0 <= j < |events| ==> events[j].kind != kind || events[j].effect != effect
  {
    if events != [] {
      var init, last := events[..|events| - 1], events[|events| - 1];
      NoMatches(init, kind, effect);
      NoneInit(events, kind, effect);
      assert last.kind == kind && last.effect == effect ==> last in Matches(events, kind, effect);
    }
  }

  lemma NoneInit(events: seq<Event>, kind: string, effect: string)
    requires events != []
    ensures var init, last := events[..|events| - 1], events[|events| - 1];
            (forall j :: 0 <= j < |events| ==> events[j].kind != kind || events[j].effect != effect) <==>
              && (last.kind != kind || last.effect != effect)
              && forall j :: 0 <= j < |init| ==> init[j].kind != kind || init[j].effect != effect
  {
    var init := events[..|events| - 1];
    assert forall j :: 0 <= j < |init| ==> init[j] == events[j];
  }

  lemma {:induction false} SingleExactly(events: seq<Event>, kind: string, effect: string, e: Event)
    ensures Single(events, kind, effect) == Some(e) <==> IsOnly(events, kind, effect, e)
  {
    if events != [] {
      var init, last := events[..|events| - 1], events[|events| - 1];
      SingleExactly(init, kind, effect, e);
      NoMatches(init, kind, effect);
      OnlyLast(events, kind, effect, e);
      var m := Matches(init, kind, effect);
      if last.kind == kind && last.effect == effect {
        assert Matches(events, kind, effect) == m + [last];
        assert |m| == 0 ==> Single(events, kind, effect) == Some(last);
      } else {
        assert Matches(events, kind, effect) == m;
      }
    }
  }

  lemma OnlyLast(events: seq<Event>, kind: string, effect: string, e: Event)
    requires events != []
    ensures var init, last := events[..|events| - 1], events[|events| - 1];
            IsOnly(events, kind, effect, e) <==>
              if last.kind == kind && last.effect == effect then
                && e == last
                && forall j :: 0 <= j < |init| ==> init[j].kind != kind || init[j].effect != effect
              else IsOnly(init, kind, effect, e)
  {
    var init, last := events[..|events| - 1], events[|events| - 1];
    if last.kind == kind && last.effect == effect {
      OnlyIfLast(events, kind, effect, e);
    } else {
      OnlyIfEarlier(events, kind, effect, e);
    }
  }

  lemma OnlyIfLast(events: seq<Event>, kind: string, effect: string, e: Event)
    requires events != [] && events[|events| - 1].kind == kind && events[|events| - 1].effect == effect
    ensures IsOnly(events, kind, effect, e) <==>
              && e == events[|events| - 1]
              && forall j :: 0 <= j < |events| - 1 ==> events[j].kind != kind || events[j].effect != effect
  {
    var n := |events| - 1;
    if IsOnly(events, kind, effect, e) {
      var i :| 0 <= i < |events| && events[i] == e && e.kind == kind && e.effect == effect
               && forall j :: 0 <= j < |events| && j != i ==> events[j].kind != kind || events[j].effect != effect;
      assert i == n;
    }
  }

  lemma OnlyIfEarlier(events: seq<Event>, kind: string, effect: string, e: Event)
    requires events != [] && (events[|events| - 1].kind != kind || events[|events| - 1].effect != effect)
    ensures IsOnly(events, kind, effect, e) <==> IsOnly(events[..|events| - 1], kind, effect, e)
  {
    var init := events[..|events| - 1];
    if IsOnly(init, kind, effect, e) {
      var i :| 0 <= i < |init| && init[i] == e && e.kind == kind && e.effect == effect
               && forall j :: 0 <= j < |init| && j != i ==> init[j].kind != kind || init[j].effect != effect;
      assert events[i] == e;
    }
    if IsOnly(events, kind, effect, e) {
      var i :| 0 <= i < |events| && events[i] == e && e.kind == kind && e.effect == effect
               && forall j :: 0 <= j < |events| && j != i ==> events[j].kind != kind || events[j].effect != effect;
      assert i < |init| && init[i] == e;
    }
  }

  /** The workflow is read exactly where each of its four events is the only one of its kind. */
  lemma WorkflowExactly(events: seq<Event>, effect: string, w: Workflow)
    ensures WorkflowOf(events, effect) == Some(w) <==>
              && IsOnly(events, "effect_prepared", effect, w.prepared)
              && IsOnly(events, "undo_requested", effect, w.requested)
              && IsOnly(events, "undo_approved", effect, w.approved)
              && IsOnly(events, "compensated", effect, w.compensated)
  {
    SingleExactly(events, "effect_prepared", effect, w.prepared);
    SingleExactly(events, "undo_requested", effect, w.requested);
    SingleExactly(events, "undo_approved", effect, w.approved);
    SingleExactly(events, "compensated", effect, w.compensated);
  }

  /** A completed undo: both rows closed, linked to the effect, and requested and approved by two people. */
  predicate RowsBelong(e: EffectRow, u: UndoRow, b: BusinessRow) {
    && e.status == "compensated" && u.status == "completed"
    && u.effect == e.id && u.tenant == e.tenant && b.createEffect == e.id && b.tenant == e.tenant
    && b.state == "cancelled" && b.cancelledAt.Some? && b.cancelledAt.value != ""
    && u.requester == e.principal && u.approver.Some? && u.approver.value != "" && u.approver.value != e.principal
    && e.trace != e.compensationTrace
  }

  /** A record's field is this text. */
  predicate Says(r: Record, key: string, text: string) {
    key in r && r[key] == Str(text)
  }

  /**
   The collector accepts exactly rows that belong together, with one event of each of the four kinds by the
   right person on the right trace, one request id throughout, and a record of each trace that says all of it.
   */
  lemma ValidateExactly(env: Env, e: EffectRow, u: UndoRow, b: BusinessRow, events: seq<Event>, gate6: seq<Record>)
    ensures ValidateCrossSystem(env, e, u, b, events, gate6).None? <==>
              && RowsBelong(e, u, b)
              && WorkflowOf(events, e.id).Some? && EventsAccepted(env, e, u, u.approver.value, events)
              && (exists i :: 0 <= i < |gate6| && OriginalSaid(gate6[i], e))
              && (exists i :: 0 <= i < |gate6| && CompensationSaid(gate6[i], e, u.approver.value))
  {
    forall i | 0 <= i < |gate6| ensures OriginalLink(gate6[i], e) <==> OriginalSaid(gate6[i], e) {}
    if RowsBelong(e, u, b) {
      forall i | 0 <= i < |gate6|
        ensures CompensationLink(gate6[i], e, u.approver.value) <==> CompensationSaid(gate6[i], e, u.approver.value)
      {
      }
    }
  }

  predicate OriginalSaid(r: Record, e: EffectRow) {
    && Says(r, "trace_id", e.trace) && Says(r, "gen_ai.resilience.effect_id", e.id)
    && Says(r, "gen_ai.governance.human_principal", e.principal) && Says(r, "gen_ai.governance.agent_id", e.agent)
    && Says(r, "gen_ai.governance.tenant_id", e.tenant)
  }

  predicate CompensationSaid(r: Record, e: EffectRow, approver: string) {
    && Says(r, "trace_id", e.compensationTrace) && Says(r, "gen_ai.resilience.compensates_effect_id", e.id)
    && Says(r, "gen_ai.governance.human_principal", approver) && Says(r, "gen_ai.governance.tenant_id", e.tenant)
  }

  /** The collector reads a missing, null or empty request id as the empty string. */
  function RequestId(env: Env, e: Event): string {
    TextOrEmpty(env.repr, Field(e.payload, "request_id"))
  }

  function Texts(env: Env, j: Json): seq<string> {
    if j.Arr? then seq(|j.items|, i requires 0 <= i < |j.items| => Text(env.repr, j.items[i])) else []
  }

  /** `sorted` on strings. */
  function Sorted(texts: seq<string>): seq<string> {
    Sorting.Sort(StrLeq, texts)
  }

  function Strings(texts: seq<string>): Json {
    Arr(seq(|texts|, i requires 0 <= i < |texts| => Str(texts[i])))
  }

  /** `_assignment`: the published authorization assignment, or None where the collector refuses. */
  function Assignment(env: Env, e: EffectRow): Option<Json> {
    if !e.snapshot.Obj? then None else
      var s := e.snapshot.fields;
      var id, version := TextOrEmpty(env.repr, Get(s, "assignment_id")), env.toInt(Get(s, "version"));
      var kind, subject := TextOrEmpty(env.repr, Get(s, "subject_type")), TextOrEmpty(env.repr, Get(s, "subject_id"));
      var agent := TextOrEmpty(env.repr, Get(s, "agent_id"));
      var tools, domains := Sorted(Texts(env, Get(s, "tools"))), Sorted(Texts(env, Get(s, "data_domains")));
      if version.None? || id == "" || version.value <= 0 then None
      else if kind !in {"human", "group"} || subject == "" then None
      else if agent != e.agent then None
      else if e.tool !in tools || e.domain !in domains then None
      else Some(Obj(map[
        "agent_id" := Str(e.agent),
        "assignment" := Obj(map[
          "agent_id" := Str(agent), "assignment_id" := Str(id), "data_domains" := Strings(domains),
          "subject_id" := Str(subject), "subject_type" := Str(kind), "tools" := Strings(tools),
          "version" := Num(version.value)]),
        "principal_sub" := Str(e.principal),
        "tenant_id" := Str(e.tenant)]))
  }

  /** The published business timeline. */
  function BusinessTimeline(b: BusinessRow): Json {
    Obj(map[
      "after" := Obj(map["observed_at" := Str(b.cancelledAt.GetOr("")), "state" := Str("cancelled")]),
      "before" := Obj(map["basis" := Str("reference create transition invariant and persisted created_at"),
                          "observed_at" := Str(b.createdAt), "state" := Str("open")]),
      "current" := Obj(map["observed_from" := Str("xa_reference_tickets"), "state" := Str(b.state)]),
      "effect_id" := Str(b.createEffect),
      "tenant_id" := Str(b.tenant),
      "ticket_id" := Str(b.ticket),
      "transition" := Str("open_to_cancelled")])
  }

  /** The part of a document under a path of keys. */
  function At(j: Json, path: seq<string>): Json {
    if path == [] then j else Field(At(j, path[..|path| - 1]), path[|path| - 1])
  }

  lemma AtOne(j: Json, a: string)
    ensures At(j, [a]) == Field(j, a)
  {
    assert [a][..0] == [];
  }

  lemma AtTwo(j: Json, a: string, b: string)
    ensures At(j, [a, b]) == Field(Field(j, a), b)
  {
    assert [a, b][..1] == [a];
    AtOne(j, a);
  }

  /** What the published timeline says: open when created, cancelled when cancelled, and whose ticket it is. */
  lemma TimelineReads(b: BusinessRow)
    ensures var t := BusinessTimeline(b);
            && At(t, ["before", "state"]) == Str("open") && At(t, ["before", "observed_at"]) == Str(b.createdAt)
            && At(t, ["after", "state"]) == Str("cancelled")
            && (b.cancelledAt.Some? ==> At(t, ["after", "observed_at"]) == Str(b.cancelledAt.value))
            && At(t, ["current", "state"]) == Str(b.state)
            && At(t, ["effect_id"]) == Str(b.createEffect) && At(t, ["tenant_id"]) == Str(b.tenant)
            && At(t, ["ticket_id"]) == Str(b.ticket) && At(t, ["transition"]) == Str("open_to_cancelled")
  {
    var t := BusinessTimeline(b);
    AtTwo(t, "before", "state");
    AtTwo(t, "before", "observed_at");
    AtTwo(t, "after", "state");
    AtTwo(t, "after", "observed_at");
    AtTwo(t, "current", "state");
    AtOne(t, "effect_id");
    AtOne(t, "tenant_id");
    AtOne(t, "ticket_id");
    AtOne(t, "transition");
  }

  /** The texts of a list, as Python's `str` gives them. */
  predicate ListsText(env: Env, j: Json, text: string) {
    j.Arr? && exists i :: 0 <= i < |j.items| && text == if j.items[i].Str? then j.items[i].s else env.repr(j.items[i])
  }

  lemma TextsListed(env: Env, j: Json, text: string)
    ensures text in Sorted(Texts(env, j)) <==> ListsText(env, j, text)
  {
    Sorting.SameMembers(StrLeq, Texts(env, j), text);
    if ListsText(env, j, text) {
      var i :| 0 <= i < |j.items| && text == if j.items[i].Str? then j.items[i].s else env.repr(j.items[i]);
      assert Texts(env, j)[i] == text;
    }
  }

  /** A snapshot is taken exactly if it names an assignment, its subject and the effect's agent, and covers the call. */
  lemma AssignmentExactly(env: Env, e: EffectRow)
    ensures Assignment(env, e).Some? <==>
              && e.snapshot.Obj?
              && var s := e.snapshot.fields;
              && TextOrEmpty(env.repr, Get(s, "assignment_id")) != ""
              && env.toInt(Get(s, "version")).Some? && env.toInt(Get(s, "version")).value >= 1
              && TextOrEmpty(env.repr, Get(s, "subject_type")) in {"human", "group"}
              && TextOrEmpty(env.repr, Get(s, "subject_id")) != ""
              && TextOrEmpty(env.repr, Get(s, "agent_id")) == e.agent
              && ListsText(env, Get(s, "tools"), e.tool) && ListsText(env, Get(s, "data_domains"), e.domain)
  {
    if e.snapshot.Obj? {
      TextsListed(env, Get(e.snapshot.fields, "tools"), e.tool);
      TextsListed(env, Get(e.snapshot.fields, "data_domains"), e.domain);
    }
  }

  /** What is published of it. */
  lemma AssignmentReads(env: Env, e: EffectRow)
    requires Assignment(env, e).Some?
    ensures e.snapshot.Obj?
    ensures var a, s := Assignment(env, e).value, e.snapshot.fields;
            && At(a, ["agent_id"]) == Str(e.agent) && At(a, ["principal_sub"]) == Str(e.principal)
            && At(a, ["tenant_id"]) == Str(e.tenant)
            && At(a, ["assignment", "agent_id"]) == Str(e.agent)
            && At(a, ["assignment", "assignment_id"]) == Str(TextOrEmpty(env.repr, Get(s, "assignment_id")))
            && At(a, ["assignment", "subject_type"]) == Str(TextOrEmpty(env.repr, Get(s, "subject_type")))
            && At(a, ["assignment", "subject_id"]) == Str(TextOrEmpty(env.repr, Get(s, "subject_id")))
            && Some(At(a, ["assignment", "version"])) == Some(Num(env.toInt(Get(s, "version")).GetOr(0)))
            && At(a, ["assignment", "tools"]) == Strings(Sorted(Texts(env, Get(s, "tools"))))
            && At(a, ["assignment", "data_domains"]) == Strings(Sorted(Texts(env, Get(s, "data_domains"))))
  {
    var a := Assignment(env, e).value;
    AtOne(a, "agent_id");
    AtOne(a, "principal_sub");
    AtOne(a, "tenant_id");
    AtTwo(a, "assignment", "agent_id");
    AtTwo(a, "assignment", "assignment_id");
    AtTwo(a, "assignment", "subject_type");
    AtTwo(a, "assignment", "subject_id");
    AtTwo(a, "assignment", "version");
    AtTwo(a, "assignment", "tools");
    AtTwo(a, "assignment", "data_domains");
  }

  datatype Links = Links(
    effect: string, originalTrace: string, compensationTrace: string, requester: string, approver: string,
        tenant: string,
    agent: string, assignmentId: Json, assignmentVersion: Json, assignmentHash: string, businessEffect: string)

  /** The `cross_links` block of the sealing metadata. */
  function BuildLinks(env: Env, e: EffectRow, approver: string, assignment: Json): Links {
    var a := Field(assignment, "assignment");
    Links(e.id, e.trace, e.compensationTrace, e.principal, approver, e.tenant, e.agent,
          Field(a, "assignment_id"), Field(a, "version"), env.hash(assignment), e.id)
  }

  // ---------------------------------------------------------------- the verifier

  /** `str(record.get(key, ""))`: here a null reads as its rendering, not as the empty string. */
  function Read(env: Env, fields: map<string, Json>, key: string): string {
    if key in fields then Text(env.repr, fields[key]) else ""
  }

  function ReadPayload(env: Env, e: Event, key: string): string {
    if e.payload.Obj? then Read(env, e.payload.fields, key) else ""
  }

  predicate OnTrace(env: Env, r: Record, trace: string) {
    Read(env, r, TRACE_ID) == trace
  }

  predicate AnyOnTrace(env: Env, gate6: seq<Record>, trace: string, key: string, value: string) {
    exists i :: 0 <= i < |gate6| && OnTrace(env, gate6[i], trace) && Read(env, gate6[i], key) == value
  }

  /** Every record of either trace names the tenant. */
  predicate TenantThroughout(env: Env, gate6: seq<Record>, original: string, compensation: string, tenant: string) {
    forall i :: 0 <= i < |gate6| && (OnTrace(env, gate6[i], original) || OnTrace(env, gate6[i], compensation)) ==>
      Read(env, gate6[i], TENANT) == tenant
  }

  predicate DeepContains(env: Env, j: Json, key: string, expected: string) {
    match j
    case Obj(fields) =>
      Read(env, fields, key) == expected || exists k :: k in fields && DeepContains(env, fields[k], key, expected)
    case Arr(items) => exists i :: 0 <= i < |items| && DeepContains(env, items[i], key, expected)
    case _ => false
  }

  /** The three request ids, as the verifier reads them, are one non-empty text. */
  predicate RequestIdsAgree(env: Env, w: Workflow) {
    var id := ReadPayload(env, w.requested, "request_id");
    id != "" && ReadPayload(env, w.approved, "request_id") == id && ReadPayload(env, w.compensated, "request_id") == id
  }

  predicate GateLinksHold(env: Env, l: Links, gate6: seq<Record>) {
    && AnyOnTrace(env, gate6, l.originalTrace, EFFECT, l.effect)
    && AnyOnTrace(env, gate6, l.compensationTrace, COMPENSATES, l.effect)
    && AnyOnTrace(env, gate6, l.originalTrace, HUMAN, l.requester)
    && AnyOnTrace(env, gate6, l.originalTrace, AGENT, l.agent)
    && AnyOnTrace(env, gate6, l.compensationTrace, HUMAN, l.approver)
    && TenantThroughout(env, gate6, l.originalTrace, l.compensationTrace, l.tenant)
  }

  predicate EventLinksHold(env: Env, l: Links, events: seq<Event>) {
    var w := WorkflowOf(events, l.effect);
    && w.Some?
    && Field(w.value.prepared.payload, TRACE_ID) == Str(l.originalTrace)
    && w.value.prepared.actor == l.requester
    && w.value.requested.actor == l.requester
    && w.value.approved.actor == l.approver
    && Field(w.value.compensated.payload, TRACE_ID) == Str(l.compensationTrace)
    && RequestIdsAgree(env, w.value)
    && forall i :: 0 <= i < |events| ==> events[i].tenant == l.tenant
  }

  predicate ArtifactLinksHold(env: Env, l: Links, business: Json, assignment: Json) {
    && l.businessEffect == l.effect && DeepContains(env, business, "effect_id", l.effect)
    && env.hash(assignment) == l.assignmentHash
    && assignment.Obj?
    && Read(env, assignment.fields, "tenant_id") == l.tenant
    && Read(env, assignment.fields, "principal_sub") == l.requester
    && Read(env, assignment.fields, "agent_id") == l.agent
    && var a := Field(assignment, "assignment");
       && a.Obj? && Str(Read(env, a.fields, "assignment_id")) == l.assignmentId
       && Get(a.fields, "version") == l.assignmentVersion
  }

  /** `verify_cross_links` accepts. */
  predicate VerifierAccepts(env: Env, l: Links, gate6: seq<Record>, events: seq<Event>, business: Json,
                            assignment: Json)
  {
    && l.originalTrace != l.compensationTrace && l.requester != l.approver
    && GateLinksHold(env, l, gate6)
    && EventLinksHold(env, l, events)
    && ArtifactLinksHold(env, l, business, assignment)
  }

  /** A document and everything in it. */
  ghost predicate Within(part: Json, whole: Json)
    decreases whole
  {
    part == whole ||
    match whole
    case Obj(fields) => exists k :: k in fields && Within(part, fields[k])
    case Arr(items) => exists i :: 0 <= i < |items| && Within(part, items[i])
    case _ => false
  }

  /** The search finds a key at any depth. */
  lemma {:induction false} DeepContainsExactly(env: Env, j: Json, key: string, expected: string)
    ensures DeepContains(env, j, key, expected) <==>
              exists part: Json :: Within(part, j) && part.Obj? && Read(env, part.fields, key) == expected
    decreases j
  {
    match j
    case Obj(fields) =>
      forall k | k in fields
        ensures DeepContains(env, fields[k], key, expected) <==>
                  exists part: Json :: Within(part, fields[k]) && part.Obj? && Read(env, part.fields, key) == expected
      {
        DeepContainsExactly(env, fields[k], key, expected);
      }
      if Read(env, fields, key) == expected { assert Within(j, j); }
      if k :| k in fields && DeepContains(env, fields[k], key, expected) {
        var part: Json :| Within(part, fields[k]) && part.Obj? && Read(env, part.fields, key) == expected;
        assert Within(part, j);
      }
    case Arr(items) =>
      forall i | 0 <= i < |items|
        ensures DeepContains(env, items[i], key, expected) <==>
                  exists part: Json :: Within(part, items[i]) && part.Obj? && Read(env, part.fields, key) == expected
      {
        DeepContainsExactly(env, items[i], key, expected);
      }
      if i :| 0 <= i < |items| && DeepContains(env, items[i], key, expected) {
        var part: Json :| Within(part, items[i]) && part.Obj? && Read(env, part.fields, key) == expected;
        assert Within(part, j);
      }
    case _ =>
  }

  /** A record on the trace reads the text under the key. */
  ghost predicate Told(env: Env, gate6: seq<Record>, trace: string, key: string, text: string) {
    exists i :: 0 <= i < |gate6| && Read(env, gate6[i], "trace_id") == trace && Read(env, gate6[i], key) == text
  }

  /** What the verifier asks of the Gate6 records, check by check. */
  lemma GateLinksExactly(env: Env, l: Links, gate6: seq<Record>)
    ensures GateLinksHold(env, l, gate6) <==>
              && Told(env, gate6, l.originalTrace, "gen_ai.resilience.effect_id", l.effect)
              && Told(env, gate6, l.originalTrace, "gen_ai.governance.human_principal", l.requester)
              && Told(env, gate6, l.originalTrace, "gen_ai.governance.agent_id", l.agent)
              && Told(env, gate6, l.compensationTrace, "gen_ai.resilience.compensates_effect_id", l.effect)
              && Told(env, gate6, l.compensationTrace, "gen_ai.governance.human_principal", l.approver)
              && forall r <- gate6 ::
                   Read(env, r, "trace_id") == l.originalTrace || Read(env, r, "trace_id") == l.compensationTrace ==>
                     Read(env, r, "gen_ai.governance.tenant_id") == l.tenant
  {
    ToldIsOnTrace(env, gate6, l.originalTrace, EFFECT, l.effect);
    ToldIsOnTrace(env, gate6, l.originalTrace, HUMAN, l.requester);
    ToldIsOnTrace(env, gate6, l.originalTrace, AGENT, l.agent);
    ToldIsOnTrace(env, gate6, l.compensationTrace, COMPENSATES, l.effect);
    ToldIsOnTrace(env, gate6, l.compensationTrace, HUMAN, l.approver);
  }

  /** The verifier accepts two people on two traces whose records, events and artifacts are all linked. */
  lemma VerifierExactly(env: Env, l: Links, gate6: seq<Record>, events: seq<Event>, business: Json, assignment: Json)
    ensures VerifierAccepts(env, l, gate6, events, business, assignment) <==>
              && l.requester != l.approver && l.originalTrace != l.compensationTrace
              && GateLinksHold(env, l, gate6) && EventLinksHold(env, l, events)
              && ArtifactLinksHold(env, l, business, assignment)
  {
  }

  lemma ToldIsOnTrace(env: Env, gate6: seq<Record>, trace: string, key: string, text: string)
    ensures AnyOnTrace(env, gate6, trace, key, text) <==> Told(env, gate6, trace, key, text)
  {
    if Told(env, gate6, trace, key, text) {
      var i :| 0 <= i < |gate6| && Read(env, gate6[i], "trace_id") == trace && Read(env, gate6[i], key) == text;
      assert OnTrace(env, gate6[i], trace) && Read(env, gate6[i], key) == text;
    }
    if AnyOnTrace(env, gate6, trace, key, text) {
      var i :| 0 <= i < |gate6| && OnTrace(env, gate6[i], trace) && Read(env, gate6[i], key) == text;
      assert Read(env, gate6[i], "trace_id") == trace;
    }
  }

  /** What it asks of the events. */
  lemma EventLinksExactly(env: Env, l: Links, events: seq<Event>)
    ensures EventLinksHold(env, l, events) <==>
              && (forall i :: 0 <= i < |events| ==> events[i].tenant == l.tenant)
              && WorkflowOf(events, l.effect).Some?
              && var w := WorkflowOf(events, l.effect).value;
              && w.prepared.actor == l.requester && w.requested.actor == l.requester && w.approved.actor == l.approver
              && Field(w.prepared.payload, "trace_id") == Str(l.originalTrace)
              && Field(w.compensated.payload, "trace_id") == Str(l.compensationTrace)
              && ReadPayload(env, w.requested, "request_id") == ReadPayload(env, w.approved, "request_id")
              && ReadPayload(env, w.approved, "request_id") == ReadPayload(env, w.compensated, "request_id")
              && ReadPayload(env, w.compensated, "request_id") != ""
  {
  }

  /** What it asks of the two artifacts. */
  lemma ArtifactLinksExactly(env: Env, l: Links, business: Json, assignment: Json)
    ensures ArtifactLinksHold(env, l, business, assignment) <==>
              && l.businessEffect == l.effect
              && (exists part: Json ::
                    Within(part, business) && part.Obj? && Read(env, part.fields, "effect_id") == l.effect)
              && env.hash(assignment) == l.assignmentHash
              && assignment.Obj? && Read(env, assignment.fields, "tenant_id") == l.tenant
              && Read(env, assignment.fields, "principal_sub") == l.requester
              && Read(env, assignment.fields, "agent_id") == l.agent
              && "assignment" in assignment.fields && assignment.fields["assignment"].Obj?
              && var a := assignment.fields["assignment"].fields;
              && Str(Read(env, a, "assignment_id")) == l.assignmentId
              && (if "version" in a then a["version"] else Null) == l.assignmentVersion
  {
    DeepContainsExactly(env, business, "effect_id", l.effect);
  }

  // ---------------------------------------------------------------- the collector's bundle against the verifier

  lemma ReadOf(env: Env, fields: map<string, Json>, key: string, s: string)
    requires Get(fields, key) == Str(s)
    ensures Read(env, fields, key) == s
  {
  }

  lemma GateWitness(env: Env, gate6: seq<Record>, trace: string, key: string, value: string, i: nat)
    requires i < |gate6| && Get(gate6[i], TRACE_ID) == Str(trace) && Get(gate6[i], key) == Str(value)
    ensures AnyOnTrace(env, gate6, trace, key, value)
  {
    ReadOf(env, gate6[i], TRACE_ID, trace);
    ReadOf(env, gate6[i], key, value);
    assert OnTrace(env, gate6[i], trace) && Read(env, gate6[i], key) == value;
  }

  lemma GateLinksFollow(env: Env, e: EffectRow, approver: string, assignment: Json, gate6: seq<Record>)
    requires exists i :: 0 <= i < |gate6| && OriginalLink(gate6[i], e)
    requires exists i :: 0 <= i < |gate6| && CompensationLink(gate6[i], e, approver)
    ensures GateLinksHold(env, BuildLinks(env, e, approver, assignment), gate6)
         <==> TenantThroughout(env, gate6, e.trace, e.compensationTrace, e.tenant)
  {
    var i :| 0 <= i < |gate6| && OriginalLink(gate6[i], e);
    var j :| 0 <= j < |gate6| && CompensationLink(gate6[j], e, approver);
    GateWitness(env, gate6, e.trace, EFFECT, e.id, i);
    GateWitness(env, gate6, e.trace, HUMAN, e.principal, i);
    GateWitness(env, gate6, e.trace, AGENT, e.agent, i);
    GateWitness(env, gate6, e.compensationTrace, COMPENSATES, e.id, j);
    GateWitness(env, gate6, e.compensationTrace, HUMAN, approver, j);
  }

  /** A non-empty request id reads the same to the collector and the verifier. */
  lemma RequestIdReads(env: Env, e: Event)
    requires RequestId(env, e) != ""
    ensures ReadPayload(env, e, "request_id") == RequestId(env, e)
  {
  }

  lemma ArtifactLinksFollow(env: Env, e: EffectRow, approver: string, b: BusinessRow)
    requires Assignment(env, e).Some? && b.createEffect == e.id
    ensures var a := Assignment(env, e).value;
            ArtifactLinksHold(env, BuildLinks(env, e, approver, a), BusinessTimeline(b), a)
  {
    var a := Assignment(env, e).value;
    ReadOf(env, a.fields, "tenant_id", e.tenant);
    ReadOf(env, a.fields, "principal_sub", e.principal);
    ReadOf(env, a.fields, "agent_id", e.agent);
    ReadOf(env, BusinessTimeline(b).fields, "effect_id", e.id);
  }

  /** What acceptance says of the events. */
  predicate EventsAccepted(env: Env, e: EffectRow, u: UndoRow, approver: string, events: seq<Event>) {
    var w := WorkflowOf(events, e.id);
    && w.Some?
    && w.value.prepared.actor == e.principal && Field(w.value.prepared.payload, TRACE_ID) == Str(e.trace)
    && w.value.requested.actor == e.principal && w.value.approved.actor == approver
    && Field(w.value.compensated.payload, TRACE_ID) == Str(e.compensationTrace)
    && RequestId(env, w.value.requested) == u.request && RequestId(env, w.value.approved) == u.request
    && RequestId(env, w.value.compensated) == u.request
  }

  lemma AcceptedMeans(env: Env, e: EffectRow, u: UndoRow, b: BusinessRow, events: seq<Event>, gate6: seq<Record>)
    requires ValidateCrossSystem(env, e, u, b, events, gate6).None?
    ensures u.approver.Some? && u.approver.value != e.principal && e.trace != e.compensationTrace
    ensures b.createEffect == e.id && EventsAccepted(env, e, u, u.approver.value, events)
    ensures exists i :: 0 <= i < |gate6| && OriginalLink(gate6[i], e)
    ensures exists i :: 0 <= i < |gate6| && CompensationLink(gate6[i], e, u.approver.value)
  {
  }

  lemma EventLinksFollow(env: Env, e: EffectRow, u: UndoRow, approver: string, events: seq<Event>, assignment: Json)
    requires EventsAccepted(env, e, u, approver, events)
    requires forall i :: 0 <= i < |events| ==> events[i].tenant == e.tenant
    ensures EventLinksHold(env, BuildLinks(env, e, approver, assignment), events)
         <==> u.request != "" || RequestIdsAgree(env, WorkflowOf(events, e.id).value)
  {
    var w := WorkflowOf(events, e.id).value;
    if u.request != "" {
      RequestIdReads(env, w.requested);
      RequestIdReads(env, w.approved);
      RequestIdReads(env, w.compensated);
    }
  }

  /**
   Collector implies verifier, with the exact gap. Whatever the collector accepts, the verifier
   accepts the links and artifacts built from it if and only if all Gate6 records of the two
   traces carry the tenant (the collector only looks for one that does) and the request ids read
   as one non-empty text, which a non-empty request id guarantees.
   */
  lemma CollectorImpliesVerifier(env: Env, e: EffectRow, u: UndoRow, b: BusinessRow, events: seq<Event>,
                                 gate6: seq<Record>)
    requires ValidateCrossSystem(env, e, u, b, events, gate6).None? && Assignment(env, e).Some?
    requires forall i :: 0 <= i < |events| ==> events[i].tenant == e.tenant
    ensures WorkflowOf(events, e.id).Some? && u.approver.Some?
    ensures var a := Assignment(env, e).value;
            VerifierAccepts(env, BuildLinks(env, e, u.approver.value, a), gate6, events, BusinessTimeline(b), a)
            <==> TenantThroughout(env, gate6, e.trace, e.compensationTrace, e.tenant)
                 && (u.request != "" || RequestIdsAgree(env, WorkflowOf(events, e.id).value))
  {
    var a := Assignment(env, e).value;
    AcceptedMeans(env, e, u, b, events, gate6);
    ArtifactLinksFollow(env, e, u.approver.value, b);
    EventLinksFollow(env, e, u, u.approver.value, events, a);
    GateLinksFollow(env, e, u.approver.value, a, gate6);
  }

  // ---------------------------------------------------------------- the selected event prefix

  /** `WHERE seq <= bound` on a tenant's chain. */
  function UpTo(chain: seq<Event>, bound: int): seq<Event> {
    if chain == [] then [] else
      var e := chain[|chain| - 1];
      UpTo(chain[..|chain| - 1], bound) + if e.seqNo <= bound then [e] else []
  }

  lemma LastIsHighest(hash: Json -> string, chain: seq<Event>)
    requires EffectChain.Verified(hash, chain) && chain != []
    ensures EffectChain.Verified(hash, chain[..|chain| - 1])
    ensures LastSeq(chain[..|chain| - 1]) < LastSeq(chain) == chain[|chain| - 1].seqNo
  {
  }

  lemma {:induction false} UpToAll(hash: Json -> string, chain: seq<Event>, bound: int)
    requires EffectChain.Verified(hash, chain) && LastSeq(chain) <= bound
    ensures UpTo(chain, bound) == chain
  {
    if chain != [] {
      LastIsHighest(hash, chain);
      UpToAll(hash, chain[..|chain| - 1], bound);
      assert chain == chain[..|chain| - 1] + [chain[|chain| - 1]];
    }
  }

  /** Either the whole chain is selected, or its last event is not. */
  lemma UpToLast(hash: Json -> string, chain: seq<Event>, bound: int)
    requires EffectChain.Verified(hash, chain) && chain != []
    ensures UpTo(chain, bound) == chain || UpTo(chain, bound) == UpTo(chain[..|chain| - 1], bound)
  {
    if chain[|chain| - 1].seqNo <= bound {
      LastIsHighest(hash, chain);
      UpToAll(hash, chain, bound);
    }
  }

  /** The events the collector selects are a prefix of the tenant's chain, and verify on their own. */
  lemma {:induction false} SelectionVerifies(hash: Json -> string, chain: seq<Event>, bound: int)
    requires EffectChain.Verified(hash, chain)
    ensures UpTo(chain, bound) <= chain && EffectChain.Verified(hash, UpTo(chain, bound))
  {
    if chain != [] {
      LastIsHighest(hash, chain);
      UpToLast(hash, chain, bound);
      SelectionVerifies(hash, chain[..|chain| - 1], bound);
    }
  }
}
