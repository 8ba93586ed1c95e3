/** Sound databases whose bundles the collector writes and the verifier refuses. */
module CrossLinkExamples {
  import opened CrossLinks
  import opened EffectChain
  import opened EvidenceBundle
  import opened GateEvidence
  import opened Json
  import opened PublicProjection
  import opened PyLists
  import Sorting
  import opened Wrappers

  const T1 := "trace-1"
  const T2 := "trace-2"

  function Snapshot(): Json {
    Obj(map["assignment_id" := Str("as"), "version" := Num(1), "subject_type" := Str("human"),
            "subject_id" := Str("alice"),
            "agent_id" := Str("agent"), "tools" := Arr([Str("tool")]), "data_domains" := Arr([Str("domain")])])
  }

  function Effect(): EffectRow {
    EffectRow("e", "t", T1, T2, "alice", "agent", "tool", "domain", "compensated", Snapshot())
  }

  function Undo(request: string): UndoRow {
    UndoRow(request, "e", "t", "alice", Some("bob"), "completed")
  }

  function Business(): BusinessRow {
    BusinessRow("ticket", "t", "cancelled", "e", "before", Some("after"))
  }

  // ---------------------------------------------------------------- the tenant's event chain

  /** The chain with one more event: the next number, linked to the head, under its own hash. */
  function Then(digest: Json -> string, events: seq<Event>, kind: string, actor: string, payload: map<string, Json>):
    seq<Event>
  {
    var e := Event(|events|, "t", "e", kind, actor, Obj(payload), EffectChain.Head(digest, events), "", "");
    events + [e.(recordHash := digest(Hashed(e)))]
  }

  predicate Numbered(digest: Json -> string, events: seq<Event>) {
    EffectChain.Verified(digest, events) && LastSeq(events) == |events| - 1
  }

  lemma ThenNumbered(digest: Json -> string, events: seq<Event>, kind: string, actor: string,
                     payload: map<string, Json>)
    requires Numbered(digest, events)
    ensures Numbered(digest, Then(digest, events, kind, actor, payload))
  {
    var e := Event(|events|, "t", "e", kind, actor, Obj(payload), EffectChain.Head(digest, events), "", "");
    var sealed := e.(recordHash := digest(Hashed(e)));
    HashedFields(e, sealed);
    EffectChain.VerifiedAppend(digest, events, sealed);
  }

  function WithId(id: string): map<string, Json> {
    if id == "" then map[] else map["request_id" := Str(id)]
  }

  function Asked(digest: Json -> string, id: string): seq<Event> {
    var prepared := Then(digest, [], "effect_prepared", "alice", map[TRACE_ID := Str(T1)]);
    Then(digest, prepared, "undo_requested", "alice", WithId(id))
  }

  /** The four events of a completed undo; an absent request id reads as the empty text. */
  function Undone(digest: Json -> string, id: string): seq<Event> {
    var approved := Then(digest, Asked(digest, id), "undo_approved", "bob", WithId(id));
    Then(digest, approved, "compensated", "bob", WithId(id)[TRACE_ID := Str(T2)])
  }

  lemma UndoneVerifies(digest: Json -> string, id: string)
    ensures Numbered(digest, Undone(digest, id))
  {
    var one := Then(digest, [], "effect_prepared", "alice", map[TRACE_ID := Str(T1)]);
    ThenNumbered(digest, [], "effect_prepared", "alice", map[TRACE_ID := Str(T1)]);
    ThenNumbered(digest, one, "undo_requested", "alice", WithId(id));
    var two := Asked(digest, id);
    ThenNumbered(digest, two, "undo_approved", "bob", WithId(id));
    var three := Then(digest, two, "undo_approved", "bob", WithId(id));
    ThenNumbered(digest, three, "compensated", "bob", WithId(id)[TRACE_ID := Str(T2)]);
  }

  predicate Is(e: Event, kind: string, actor: string, payload: map<string, Json>) {
    && e.tenant == "t" && e.effect == "e" && e.kind == kind && e.actor == actor && e.payload == Obj(payload)
  }

  lemma UndoneEvents(digest: Json -> string, id: string)
    ensures var w := Undone(digest, id);
            && |w| == 4
            && Is(w[0], "effect_prepared", "alice", map[TRACE_ID := Str(T1)])
            && Is(w[1], "undo_requested", "alice", WithId(id))
            && Is(w[2], "undo_approved", "bob", WithId(id))
            && Is(w[3], "compensated", "bob", WithId(id)[TRACE_ID := Str(T2)])
  {
  }

  lemma SingleOf(events: seq<Event>, kind: string, effect: string, i: nat)
    requires i < |events| && events[i].kind == kind && events[i].effect == effect
    requires forall j :: 0 <= j < |events| && j != i ==> events[j].kind != kind
    ensures Single(events, kind, effect) == Some(events[i])
  {
    MatchesOf(events, kind, effect, i);
  }

  lemma {:induction false} MatchesOf(events: seq<Event>, kind: string, effect: string, i: nat)
    requires forall j :: 0 <= j < |events| && j != i ==> events[j].kind != kind
    requires i < |events| ==> events[i].kind == kind && events[i].effect == effect
    ensures Matches(events, kind, effect) == if i < |events| then [events[i]] else []
  {
    if events != [] { MatchesOf(events[..|events| - 1], kind, effect, i); }
  }

  lemma WorkflowFound(digest: Json -> string, id: string)
    ensures |Undone(digest, id)| == 4
    ensures var w := Undone(digest, id); WorkflowOf(w, "e") == Some(CrossLinks.Workflow(w[0], w[1], w[2], w[3]))
  {
    var w := Undone(digest, id);
    UndoneEvents(digest, id);
    SingleOf(w, "effect_prepared", "e", 0);
    SingleOf(w, "undo_requested", "e", 1);
    SingleOf(w, "undo_approved", "e", 2);
    SingleOf(w, "compensated", "e", 3);
  }

  lemma RequestIds(t: Tools, id: string, e: Event, kind: string, actor: string, payload: map<string, Json>)
    requires Is(e, kind, actor, payload) && payload in {WithId(id), WithId(id)[TRACE_ID := Str(T2)]}
    ensures RequestId(t.Env(), e) == id
  {
    assert TRACE_ID != "request_id";
    assert Field(e.payload, "request_id") == if id == "" then Null else Str(id);
  }

  // ---------------------------------------------------------------- the tenant's Gate6 chain

  function Original(): Record {
    map[TRACE_ID := Str(T1), EFFECT := Str("e"), HUMAN := Str("alice"), AGENT := Str("agent"), TENANT := Str("t")]
  }

  function Compensation(): Record {
    map[TRACE_ID := Str(T2), COMPENSATES := Str("e"), HUMAN := Str("bob"), TENANT := Str("t")]
  }

  /** A record of the original trace that does not name its tenant. */
  function Nameless(): Record {
    map[TRACE_ID := Str(T1)]
  }

  /** The durable chain of these records: each linked to the one before and stored with its hash. */
  function Stored(hs: Hashing, records: seq<Record>): seq<SourceRow> {
    if records == [] then [] else
      var n := |records| - 1;
      var earlier := Stored(hs, records[..n]);
      var r := records[n][HASH_PREV := Str(SourceHead(earlier))];
      var h := hs.hash(Obj(r));
      earlier + [SourceRow(n, Obj(r[RECORD_HASH := Str(h)]), SourceHead(earlier), h)]
  }

  /** A record without chain fields and signature of its own. */
  predicate Plain(r: Record) {
    r.Keys !! {RECORD_HASH, "signature", HASH_PREV}
  }

  lemma StoredFaultless(hs: Hashing, r: Record, previous: string, seq_: int)
    requires Plain(r)
    ensures var linked := r[HASH_PREV := Str(previous)];
            var h := hs.hash(Obj(linked));
            Fault(hs, SourceRow(seq_, Obj(linked[RECORD_HASH := Str(h)]), previous, h), previous).None?
  {
    var linked := r[HASH_PREV := Str(previous)];
    var h := hs.hash(Obj(linked));
    assert RECORD_HASH !in linked && "signature" !in linked && HASH_PREV != RECORD_HASH;
    assert Unsigned(linked[RECORD_HASH := Str(h)]).fields == linked;
  }

  lemma {:induction false} StoredIsSound(hs: Hashing, records: seq<Record>)
    requires forall i :: 0 <= i < |records| ==> Plain(records[i])
    ensures SourceOk(hs, Stored(hs, records)) && |Stored(hs, records)| == |records|
  {
    if records != [] {
      var n := |records| - 1;
      StoredIsSound(hs, records[..n]);
      StoredFaultless(hs, records[n], SourceHead(Stored(hs, records[..n])), n);
      assert Stored(hs, records)[..n] == Stored(hs, records[..n]);
    }
  }

  lemma {:induction false} StoredFields(hs: Hashing, records: seq<Record>, i: nat, key: string)
    requires i < |records| && key !in {RECORD_HASH, HASH_PREV}
    ensures |Stored(hs, records)| == |records|
    ensures var f := FieldsOf(Stored(hs, records)[i]);
            (key in f <==> key in records[i]) && (key in f ==> f[key] == records[i][key])
    decreases |records|
  {
    var n := |records| - 1;
    if n > 0 { StoredFields(hs, records[..n], if i < n then i else 0, key); }
  }

  /** A record that is published as it is, but for the chain fields. */
  predicate Ordinary(t: Tools, r: Record) {
    Plain(r) && forall key :: key in r ==> !Dropped(t.sc, key) && r[key].Str? && !t.sc.secret(r[key].s)
  }

  /** The scanners see no secret in the records used here, and `int` reads a number. */
  predicate Workable(t: Tools) {
    t.toInt(Num(1)) == Some(1) && Ordinary(t, Original()) && Ordinary(t, Compensation())
  }

  function Database(t: Tools, id: string, records: seq<Record>): Source {
    Source(Effect(), Undo(id), Business(), Undone(t.digest, id), Stored(t.Hashing(), records))
  }

  lemma PublishedGet(t: Tools, id: string, records: seq<Record>, i: nat, key: string)
    requires i < |records| && key !in {HASH_PREV, RECORD_HASH} && Ordinary(t, records[i])
    ensures |Published(t, Database(t, id, records))| == |records| == |Stored(t.Hashing(), records)|
    ensures Get(Published(t, Database(t, id, records))[i], key) == Get(records[i], key)
    ensures Shown(t, Stored(t.Hashing(), records)[i], key) == Text(t.repr, Get(records[i], key)) || key !in records[i]
    ensures key !in records[i] ==> Shown(t, Stored(t.Hashing(), records)[i], key) == ""
  {
    StoredFields(t.Hashing(), records, i, key);
    PublishedField(t, Database(t, id, records), i, key);
  }

  lemma LinkKeys()
    ensures {TRACE_ID, EFFECT, COMPENSATES, HUMAN, AGENT, TENANT} !! {HASH_PREV, RECORD_HASH}
  {
  }

  lemma RecordsLink()
    ensures OriginalLink(Original(), Effect()) && CompensationLink(Compensation(), Effect(), "bob")
  {
  }

  lemma OriginalLinked(t: Tools, id: string, records: seq<Record>)
    requires |records| >= 2 && OriginalLink(records[0], Effect()) && Ordinary(t, records[0])
    ensures |Published(t, Database(t, id, records))| == |records|
    ensures OriginalLink(Published(t, Database(t, id, records))[0], Effect())
  {
    LinkKeys();
    PublishedGet(t, id, records, 0, TRACE_ID);
    PublishedGet(t, id, records, 0, EFFECT);
    PublishedGet(t, id, records, 0, HUMAN);
    PublishedGet(t, id, records, 0, AGENT);
    PublishedGet(t, id, records, 0, TENANT);
  }

  lemma CompensationLinked(t: Tools, id: string, records: seq<Record>)
    requires |records| >= 2 && CompensationLink(records[1], Effect(), "bob") && Ordinary(t, records[1])
    ensures |Published(t, Database(t, id, records))| == |records|
    ensures CompensationLink(Published(t, Database(t, id, records))[1], Effect(), "bob")
  {
    LinkKeys();
    PublishedGet(t, id, records, 1, TRACE_ID);
    PublishedGet(t, id, records, 1, COMPENSATES);
    PublishedGet(t, id, records, 1, HUMAN);
    PublishedGet(t, id, records, 1, TENANT);
  }

  // ---------------------------------------------------------------- both sides

  /** The two linked records and, after them, any others. */
  predicate Linking(t: Tools, records: seq<Record>) {
    && |records| >= 2 && records[0] == Original() && records[1] == Compensation()
    && forall i :: 0 <= i < |records| ==> Plain(records[i])
  }

  lemma SelectsAll(t: Tools, id: string, records: seq<Record>)
    ensures Selected(Database(t, id, records)) == Undone(t.digest, id)
  {
    var w := Undone(t.digest, id);
    UndoneVerifies(t.digest, id);
    UndoneEvents(t.digest, id);
    assert w[..4] == w;
    assert LastCompensated(w, "e") == Some(w[3].seqNo) by { NotYetCompensated(w, 3); }
    UpToAll(t.digest, w, w[3].seqNo);
  }

  lemma {:induction false} NotYetCompensated(events: seq<Event>, n: nat)
    requires n <= |events| && forall i :: 0 <= i < n ==> events[i].kind != "compensated"
    ensures LastCompensated(events[..n], "e") == None
  {
    if n > 0 {
      NotYetCompensated(events, n - 1);
      assert events[..n][..n - 1] == events[..n - 1];
    }
  }

  lemma TraceSeen(hs: Hashing, records: seq<Record>, i: nat, trace: string)
    requires i < |records| && Get(records[i], TRACE_ID) == Str(trace) && trace != ""
    ensures SeesTrace(hs, Stored(hs, records), trace)
  {
    LinkKeys();
    StoredFields(hs, records, i, TRACE_ID);
    assert TraceOf(hs, Stored(hs, records)[i]) == trace;
  }

  lemma TracesSeen(t: Tools, id: string, records: seq<Record>)
    requires Linking(t, records)
    ensures GateAccepted(t, Database(t, id, records))
  {
    StoredIsSound(t.Hashing(), records);
    RecordsLink();
    TraceSeen(t.Hashing(), records, 0, T1);
    TraceSeen(t.Hashing(), records, 1, T2);
  }

  lemma AssignmentGiven(env: Env)
    requires env.toInt(Num(1)) == Some(1)
    ensures Assignment(env, Effect()).Some?
  {
    var s := Snapshot().fields;
    assert Texts(env, Get(s, "tools")) == ["tool"] && Texts(env, Get(s, "data_domains")) == ["domain"];
    Sorting.SameMembers(StrLeq, ["tool"], "tool");
    Sorting.SameMembers(StrLeq, ["domain"], "domain");
  }

  lemma RowsMatch(t: Tools, id: string, gate6: seq<Record>)
    requires |gate6| >= 2 && OriginalLink(gate6[0], Effect()) && CompensationLink(gate6[1], Effect(), "bob")
    ensures ValidateCrossSystem(t.Env(), Effect(), Undo(id), Business(), Undone(t.digest, id), gate6).None?
  {
    var w := Undone(t.digest, id);
    WorkflowFound(t.digest, id);
    UndoneEvents(t.digest, id);
    RequestIds(t, id, w[1], "undo_requested", "alice", WithId(id));
    RequestIds(t, id, w[2], "undo_approved", "bob", WithId(id));
    RequestIds(t, id, w[3], "compensated", "bob", WithId(id)[TRACE_ID := Str(T2)]);
    assert T1 != T2 by { assert T1[6] == '1' && T2[6] == '2'; }
  }

  /** The database is sound, and the collector takes it, whatever records stand beside the two linked ones. */
  lemma CollectorAccepts(t: Tools, id: string, records: seq<Record>)
    requires Workable(t) && Linking(t, records)
    ensures Collect(t, Database(t, id, records)).Ok?
    ensures SourceOk(t.Hashing(), Stored(t.Hashing(), records)) && EffectChain.Verified(t.digest, Undone(t.digest, id))
  {
    var s := Database(t, id, records);
    StoredIsSound(t.Hashing(), records);
    UndoneVerifies(t.digest, id);
    UndoneEvents(t.digest, id);
    SelectsAll(t, id, records);
    TracesSeen(t, id, records);
    AssignmentGiven(t.Env());
    RecordsLink();
    OriginalLinked(t, id, records);
    CompensationLinked(t, id, records);
    RowsMatch(t, id, Published(t, s));
    CheckedMeans(t, s);
    ClosingChecks(t, s);
    CollectMeans(t, s);
  }

  lemma TenantsOfChain(t: Tools, id: string, records: seq<Record>)
    ensures var s := Database(t, id, records); forall i :: 0 <= i < |s.chain| ==> s.chain[i].tenant == s.effect.tenant
  {
    UndoneEvents(t.digest, id);
  }

  lemma VerifiesExactly(t: Tools, id: string, records: seq<Record>, s: Source)
    requires Workable(t) && Linking(t, records) && s == Database(t, id, records)
    ensures Collect(t, s).Ok? && WorkflowOf(Selected(s), s.effect.id).Some?
    ensures Verifies(t, Collect(t, s).value) <==>
              TenantShown(t, s)
              && (s.undo.request != "" || RequestIdsAgree(t.Env(), WorkflowOf(Selected(s), s.effect.id).value))
  {
    CollectorAccepts(t, id, records);
    TenantsOfChain(t, id, records);
    CollectedBundleVerifies(t, s);
  }

  lemma TenantAt(t: Tools, id: string, records: seq<Record>, i: nat)
    requires i < |records| && Ordinary(t, records[i]) && Get(records[i], TENANT) == Str("t")
    ensures |Stored(t.Hashing(), records)| == |records| && Shown(t, Stored(t.Hashing(), records)[i], TENANT) == "t"
  {
    LinkKeys();
    PublishedGet(t, id, records, i, TENANT);
  }

  lemma TenantOnAll(t: Tools, id: string, records: seq<Record>)
    requires records != [] && forall r <- records :: Ordinary(t, r) && Get(r, TENANT) == Str("t")
    ensures TenantShown(t, Database(t, id, records))
  {
    TenantAt(t, id, records, 0);
    forall i | 0 <= i < |records| ensures Shown(t, Stored(t.Hashing(), records)[i], TENANT) == "t" {
      TenantAt(t, id, records, i);
    }
  }

  lemma TenantOnTwo(t: Tools, id: string)
    requires Workable(t)
    ensures TenantShown(t, Database(t, id, [Original(), Compensation()]))
  {
    RecordsLink();
    TenantOnAll(t, id, [Original(), Compensation()]);
  }

  lemma TenantNotOnThird(t: Tools, id: string)
    requires Workable(t)
    ensures !TenantShown(t, Database(t, id, [Original(), Compensation(), Nameless()]))
  {
    var records := [Original(), Compensation(), Nameless()];
    LinkKeys();
    assert TRACE_ID in Original() && TRACE_ID != TENANT;
    assert Ordinary(t, Nameless());
    PublishedGet(t, id, records, 2, TRACE_ID);
    PublishedGet(t, id, records, 2, TENANT);
  }

  lemma RecordsArePlain()
    ensures Plain(Original()) && Plain(Compensation()) && Plain(Nameless())
  {
  }

  lemma WithoutIds(t: Tools, s: Source)
    requires s == Database(t, "", [Original(), Compensation()])
    ensures s.undo.request == "" && WorkflowOf(Selected(s), s.effect.id).Some?
    ensures !RequestIdsAgree(t.Env(), WorkflowOf(Selected(s), s.effect.id).value)
  {
    SelectsAll(t, "", [Original(), Compensation()]);
    WorkflowFound(t.digest, "");
    UndoneEvents(t.digest, "");
  }

  lemma TwoVerify(t: Tools, s: Source)
    requires Workable(t) && s == Database(t, "undo", [Original(), Compensation()])
    ensures Collect(t, s).Ok? && Verifies(t, Collect(t, s).value)
  {
    RecordsArePlain();
    VerifiesExactly(t, "undo", [Original(), Compensation()], s);
    TenantOnTwo(t, "undo");
  }

  lemma ThreeDoNot(t: Tools, s: Source)
    requires Workable(t) && s == Database(t, "undo", [Original(), Compensation(), Nameless()])
    ensures Collect(t, s).Ok? && !Verifies(t, Collect(t, s).value)
  {
    RecordsArePlain();
    VerifiesExactly(t, "undo", [Original(), Compensation(), Nameless()], s);
    TenantNotOnThird(t, "undo");
  }

  /**
   A third Gate6 record on the original trace that does not name the tenant: the collector writes its
   bundle all the same and the verifier refuses it; without that record the verifier accepts.
   */
  lemma MissingTenant(t: Tools, two: Source, three: Source)
    requires Workable(t) && two == Database(t, "undo", [Original(), Compensation()])
    requires three == Database(t, "undo", [Original(), Compensation(), Nameless()])
    ensures SourceOk(t.Hashing(), three.rows) && EffectChain.Verified(t.digest, three.chain)
    ensures Collect(t, two).Ok? && Verifies(t, Collect(t, two).value)
    ensures Collect(t, three).Ok? && !Verifies(t, Collect(t, three).value)
  {
    RecordsArePlain();
    CollectorAccepts(t, "undo", [Original(), Compensation(), Nameless()]);
    TwoVerify(t, two);
    ThreeDoNot(t, three);
  }

  /**
   An undo request without an id, absent from its events as well: the collector writes the bundle and the
   verifier refuses it.
   */
  lemma MissingRequestIds(t: Tools, s: Source)
    requires Workable(t) && s == Database(t, "", [Original(), Compensation()])
    ensures SourceOk(t.Hashing(), s.rows) && EffectChain.Verified(t.digest, s.chain)
    ensures Collect(t, s).Ok? && !Verifies(t, Collect(t, s).value)
  {
    RecordsArePlain();
    CollectorAccepts(t, "", [Original(), Compensation()]);
    VerifiesExactly(t, "", [Original(), Compensation()], s);
    WithoutIds(t, s);
  }
}
