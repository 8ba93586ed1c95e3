/**
 A whole evidence bundle: what `collect_bundle` (scripts/collect_identity_undo_evidence.py) refuses and
 writes, and what `verify_chains_and_links` (scripts/verify_identity_undo_evidence.py) makes of it.
 */
module EvidenceBundle {
  import opened Wrappers
  import opened Json
  import opened CrossLinks
  import opened GateEvidence
  import opened PublicProjection
  import EffectChain
  import HashChain

  /** `digest` hashes canonical JSON and `fileDigest` a written artifact; the others are Python's `str` and `int`. */
  datatype Tools = Tools(
    digest: Json -> string, fileDigest: Json -> string, repr: Json -> string, toInt: Json -> Option<int>, sc: Scanners)
  {
    function Env(): Env { CrossLinks.Env(fileDigest, repr, toInt) }

    function Hashing(): Hashing { GateEvidence.Hashing(digest, repr) }
  }

  /** The rows behind one effect: `chain` are all events of its tenant, `rows` the selected Gate6 rows. */
  datatype Source = Source(
    effect: EffectRow, undo: UndoRow, business: BusinessRow, chain: seq<EffectChain.Event>, rows: seq<SourceRow>)

  datatype Bundle = Bundle(
    links: Links, gate6: seq<Record>, events: seq<EffectChain.Event>, business: Json, assignment: Json)

  datatype Refusal =
    | EventsAbsent
    | GateSourceUnsound
    | Mismatch(fault: CollectFault)
    | AssignmentUnsound
    | StagingFailed

  /** `max(seq)` of the effect's compensated events. */
  function LastCompensated(chain: seq<EffectChain.Event>, effect: string): Option<int> {
    if chain == [] then None else
      var e, earlier := chain[|chain| - 1], LastCompensated(chain[..|chain| - 1], effect);
      if e.effect == effect && e.kind == "compensated" && (earlier.None? || e.seqNo > earlier.value) then Some(e.seqNo)
      else earlier
  }

  /** `_select_effect_events`: the tenant's chain up to the compensation. */
  function Selected(s: Source): seq<EffectChain.Event> {
    var bound := LastCompensated(s.chain, s.effect.id);
    if bound.None? then [] else UpTo(s.chain, bound.value)
  }

  predicate GateAccepted(t: Tools, s: Source) {
    && SourceOk(t.Hashing(), s.rows)
    && SeesTrace(t.Hashing(), s.rows, s.effect.trace) && SeesTrace(t.Hashing(), s.rows, s.effect.compensationTrace)
  }

  function Published(t: Tools, s: Source): seq<Record> {
    Public(t.sc, t.Hashing(), s.rows)
  }

  /** Both chain verifiers accept. */
  predicate ChainsVerify(t: Tools, events: seq<EffectChain.Event>, gate6: seq<Record>) {
    && events != [] && EffectChain.Verified(t.digest, events)
    && gate6 != [] && GateEvidence.Verified(t.Hashing(), gate6)
  }

  /** Everything before the artifacts are written. */
  function Checked(t: Tools, s: Source): Option<Refusal> {
    if Selected(s) == [] then Some(EventsAbsent)
    else if !GateAccepted(t, s) then Some(GateSourceUnsound)
    else
      var fault := ValidateCrossSystem(t.Env(), s.effect, s.undo, s.business, Selected(s), Published(t, s));
      if fault.Some? then Some(Mismatch(fault.value))
      else if Assignment(t.Env(), s.effect).None? then Some(AssignmentUnsound)
      else None
  }

  /** The artifacts of rows that pass. */
  function Written(t: Tools, s: Source): Bundle {
    var a := Assignment(t.Env(), s.effect).GetOr(Null);
    Bundle(BuildLinks(t.Env(), s.effect, s.undo.approver.GetOr(""), a), Published(t, s), Selected(s),
           BusinessTimeline(s.business), a)
  }

  /** `collect_bundle`, ending with its own run of the two chain verifiers. */
  function Collect(t: Tools, s: Source): Result<Bundle, Refusal> {
    var refusal := Checked(t, s);
    if refusal.Some? then Err(refusal.value)
    else if !ChainsVerify(t, Selected(s), Published(t, s)) then Err(StagingFailed)
    else Ok(Written(t, s))
  }

  /** `verify_chains_and_links` accepts. */
  predicate Verifies(t: Tools, b: Bundle) {
    && ChainsVerify(t, b.events, b.gate6)
    && VerifierAccepts(t.Env(), b.links, b.gate6, b.events, b.business, b.assignment)
  }

  // ---------------------------------------------------------------- the closing checks

  lemma SelectedVerifies(t: Tools, s: Source)
    requires EffectChain.Verified(t.digest, s.chain)
    ensures EffectChain.Verified(t.digest, Selected(s)) && Selected(s) <= s.chain
  {
    var bound := LastCompensated(s.chain, s.effect.id);
    if bound.Some? { SelectionVerifies(t.digest, s.chain, bound.value); }
  }

  lemma CheckedMeans(t: Tools, s: Source)
    ensures Checked(t, s).None? <==>
              && Selected(s) != [] && GateAccepted(t, s) && Assignment(t.Env(), s.effect).Some?
              && ValidateCrossSystem(t.Env(), s.effect, s.undo, s.business, Selected(s), Published(t, s)).None?
    ensures Checked(t, s) != Some(StagingFailed)
  {
  }

  lemma PublishedVerifies(t: Tools, s: Source)
    requires Selected(s) != [] && GateAccepted(t, s)
    ensures ChainsVerify(t, Selected(s), Published(t, s)) <==> EffectChain.Verified(t.digest, Selected(s))
  {
    RechainingIsVerified(t.sc, t.Hashing(), s.rows);
    assert s.rows != [];
  }

  lemma CollectMeans(t: Tools, s: Source)
    ensures Collect(t, s).Ok? <==> Checked(t, s).None? && ChainsVerify(t, Selected(s), Published(t, s))
    ensures Checked(t, s).Some? ==> Collect(t, s) == Err(Checked(t, s).value)
    ensures Checked(t, s).None? && !Collect(t, s).Ok? ==> Collect(t, s) == Err(StagingFailed)
    ensures Collect(t, s).Ok? ==> Collect(t, s).value == Written(t, s)
  {
  }

  /**
   Of the two closing chain checks only the one on the effect events can fail: it does exactly when the
   selected events are no verified chain, which cannot be where the tenant's whole chain is one.
   */
  lemma ClosingChecks(t: Tools, s: Source)
    ensures Collect(t, s) == Err(StagingFailed) <==>
              Checked(t, s).None? && !EffectChain.Verified(t.digest, Selected(s))
    ensures EffectChain.Verified(t.digest, s.chain) ==> Collect(t, s) != Err(StagingFailed)
  {
    CheckedMeans(t, s);
    CollectMeans(t, s);
    if Checked(t, s).None? { PublishedVerifies(t, s); }
    if EffectChain.Verified(t.digest, s.chain) { SelectedVerifies(t, s); }
  }

  // ---------------------------------------------------------------- reading the published records

  /** A key of a source record as the verifier reads it from the published one. */
  function Shown(t: Tools, row: SourceRow, key: string): string {
    if key in FieldsOf(row) && !Dropped(t.sc, key) then Text(t.repr, Project(t.sc, FieldsOf(row)[key])) else ""
  }

  lemma PublishedField(t: Tools, s: Source, i: nat, key: string)
    requires i < |s.rows| && key !in {HASH_PREV, RECORD_HASH}
    ensures |Published(t, s)| == |s.rows|
    ensures key in Published(t, s)[i] <==> key in FieldsOf(s.rows[i]) && !Dropped(t.sc, key)
    ensures key in Published(t, s)[i] ==> Published(t, s)[i][key] == Project(t.sc, FieldsOf(s.rows[i])[key])
  {
    RecordAndMapping(t.sc, t.Hashing(), s.rows, i);
  }

  lemma PublishedRead(t: Tools, s: Source, i: nat, key: string)
    requires i < |s.rows| && key !in {HASH_PREV, RECORD_HASH}
    ensures |Published(t, s)| == |s.rows|
    ensures Read(t.Env(), Published(t, s)[i], key) == Shown(t, s.rows[i], key)
  {
    PublishedField(t, s, i, key);
  }

  /** Every source record of either trace shows the tenant. */
  predicate TenantShown(t: Tools, s: Source) {
    forall i :: 0 <= i < |s.rows| && Shown(t, s.rows[i], TRACE_ID) in {s.effect.trace, s.effect.compensationTrace} ==>
      Shown(t, s.rows[i], TENANT) == s.effect.tenant
  }

  lemma TenantOfSource(t: Tools, s: Source)
    ensures TenantThroughout(t.Env(), Published(t, s), s.effect.trace, s.effect.compensationTrace, s.effect.tenant)
       <==> TenantShown(t, s)
  {
    RechainingIsVerified(t.sc, t.Hashing(), s.rows);
    assert TENANT !in {HASH_PREV, RECORD_HASH} && TRACE_ID !in {HASH_PREV, RECORD_HASH};
    forall i | 0 <= i < |s.rows|
      ensures Read(t.Env(), Published(t, s)[i], TRACE_ID) == Shown(t, s.rows[i], TRACE_ID)
      ensures Read(t.Env(), Published(t, s)[i], TENANT) == Shown(t, s.rows[i], TENANT)
    {
      PublishedRead(t, s, i, TRACE_ID);
      PublishedRead(t, s, i, TENANT);
    }
  }

  // ---------------------------------------------------------------- the bundle against the verifier

  lemma {:induction false} SelectedTenants(chain: seq<EffectChain.Event>, bound: int, tenant: string)
    requires forall i :: 0 <= i < |chain| ==> chain[i].tenant == tenant
    ensures forall i :: 0 <= i < |UpTo(chain, bound)| ==> UpTo(chain, bound)[i].tenant == tenant
  {
    if chain != [] { SelectedTenants(chain[..|chain| - 1], bound, tenant); }
  }

  /**
   What the collector writes, the verifier accepts as a whole, chains and links, if and only if every
   source record of the two traces shows the tenant and the request ids read as one non-empty text.
   */
  lemma CollectedBundleVerifies(t: Tools, s: Source)
    requires Collect(t, s).Ok? && forall i :: 0 <= i < |s.chain| ==> s.chain[i].tenant == s.effect.tenant
    ensures WorkflowOf(Selected(s), s.effect.id).Some?
    ensures Verifies(t, Collect(t, s).value) <==>
              TenantShown(t, s)
              && (s.undo.request != "" || RequestIdsAgree(t.Env(), WorkflowOf(Selected(s), s.effect.id).value))
  {
    SelectedTenants(s.chain, LastCompensated(s.chain, s.effect.id).value, s.effect.tenant);
    TenantOfSource(t, s);
    CheckedMeans(t, s);
    CollectMeans(t, s);
    CollectorImpliesVerifier(t.Env(), s.effect, s.undo, s.business, Selected(s), Published(t, s));
  }

  // ---------------------------------------------------------------- exactly when there is a bundle

  /**
   A bundle is written exactly from events that end in a compensation and verify, sound Gate6 rows that show
   both traces, rows that belong together, and an assignment.
   */
  lemma CollectExactly(t: Tools, s: Source)
    ensures Collect(t, s).Ok? <==>
              && Selected(s) != []
              && (forall i :: 0 <= i < |Selected(s)| ==> EffectChain.WellChained(t.digest, Selected(s), i))
              && (forall i :: 0 <= i < |s.rows| ==> WellStored(t.Hashing(), s.rows, i))
              && (exists i :: 0 <= i < |s.rows| && TraceOf(t.Hashing(), s.rows[i]) == s.effect.trace)
              && (exists i :: 0 <= i < |s.rows| && TraceOf(t.Hashing(), s.rows[i]) == s.effect.compensationTrace)
              && ValidateCrossSystem(t.Env(), s.effect, s.undo, s.business, Selected(s), Published(t, s)).None?
              && Assignment(t.Env(), s.effect).Some?
  {
    CheckedMeans(t, s);
    CollectMeans(t, s);
    if Selected(s) != [] && GateAccepted(t, s) { PublishedVerifies(t, s); }
    EffectChain.VerifiedExactly(t.digest, Selected(s));
    SourceOkExactly(t.Hashing(), s.rows);
  }

  /** The events selected for an effect: all of the tenant's up to its last compensation. */
  lemma {:induction false} LastCompensatedIsMax(chain: seq<EffectChain.Event>, effect: string)
    ensures var last := LastCompensated(chain, effect);
            && (last.None? <==>
                  forall i :: 0 <= i < |chain| ==> chain[i].effect != effect || chain[i].kind != "compensated")
            && (last.Some? ==>
                  && (exists i :: 0 <= i < |chain| && chain[i].effect == effect && chain[i].kind == "compensated"
                                  && chain[i].seqNo == last.value)
                  && forall i :: 0 <= i < |chain| && chain[i].effect == effect && chain[i].kind == "compensated" ==>
                       chain[i].seqNo <= last.value)
  {
    if chain != [] {
      var n := |chain| - 1;
      LastCompensatedIsMax(chain[..n], effect);
      assert chain == chain[..n] + [chain[n]];
    }
  }

  /**
   Nothing that a chain hashes can be changed in a verified bundle without its head showing it: two bundles that
   verify and whose chains end in the same hashes agree in every hashed field, or exhibit a collision.
   */
  lemma HeadsFixBundle(t: Tools, a: Bundle, b: Bundle, i: nat)
    requires Verifies(t, a) && Verifies(t, b) && (forall x :: t.digest(x) != "")
    requires EffectChain.Head(t.digest, a.events) == EffectChain.Head(t.digest, b.events)
    requires GateEvidence.Head(t.Hashing(), a.gate6) == GateEvidence.Head(t.Hashing(), b.gate6)
    requires i < |a.events|
    ensures a.events != [] && a.gate6 != []
    ensures || HashChain.Collision(t.digest, EffectChain.Bodies(a.events), EffectChain.Bodies(b.events))
            || (|a.events| == |b.events|
                && EffectChain.Hashed(a.events[i]) == EffectChain.Hashed(b.events[i]))
    ensures || HashChain.Collision(t.digest, GateEvidence.Bodies(a.gate6), GateEvidence.Bodies(b.gate6))
            || (|a.gate6| == |b.gate6| && GateEvidence.Bodies(a.gate6) == GateEvidence.Bodies(b.gate6))
  {
    EffectChain.EffectHeadCommits(t.digest, a.events, b.events, i);
    GateHeadCommits(t.Hashing(), a.gate6, b.gate6);
    if |a.events| == |b.events| { EffectChain.HashedFields(a.events[i], b.events[i]); }
  }
}
