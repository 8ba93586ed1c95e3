/**
 The event log of one workbench run (workbench/store.py): how an appended event is numbered,
 what pollers are handed, and what any interleaving of builders and pollers leads to.
 `valid` stands for the event schema.
 */
module EventLog {

  import opened Wrappers

  /** `intent` and `decision` are "" when the event carries none. */
  datatype Event = Event(sequence: int, eventType: string, state: Option<string>, branch: string,
                         intent: string, decision: string, body: string)

  /** The highest number so far, 0 for an empty log. */
  function LastSequence(events: seq<Event>): int {
    if events == [] then 0 else HighestOf(events)
  }

  function HighestOf(events: seq<Event>): int
    requires events != []
  {
    var last := events[|events| - 1].sequence;
    if |events| == 1 then last
    else
      var m := HighestOf(events[..|events| - 1]);
      if last > m then last else m
  }

  /** Appending: an event with another number is renumbered and must pass the schema again. */
  function TryAppend(events: seq<Event>, e: Event, valid: Event -> bool): Option<seq<Event>> {
    var next := LastSequence(events) + 1;
    if e.sequence == next then Some(events + [e])
    else if valid(e.(sequence := next)) then Some(events + [e.(sequence := next)])
    else None
  }

  /** What a poller with cursor `after` is handed. */
  function After(events: seq<Event>, after: int): seq<Event> {
    if events == [] then []
    else
      var last := events[|events| - 1];
      After(events[..|events| - 1], after) + (if last.sequence > after then [last] else [])
  }

  // ---------------------------------------------------------------- numbering

  ghost predicate Numbered(events: seq<Event>) {
    forall i :: 0 <= i < |events| ==> events[i].sequence == i + 1
  }

  lemma {:induction false} LastOfNumbered(events: seq<Event>)
    requires Numbered(events)
    ensures LastSequence(events) == |events|
  {
    if |events| > 1 { LastOfNumbered(events[..|events| - 1]); }
  }

  /** Whatever number an event arrives with, an accepted one is stored as the next. */
  lemma AppendNumbers(events: seq<Event>, e: Event, valid: Event -> bool)
    requires Numbered(events)
    ensures TryAppend(events, e, valid).Some? <==> e.sequence == |events| + 1 || valid(e.(sequence := |events| + 1))
    ensures TryAppend(events, e, valid).Some? ==>
              TryAppend(events, e, valid).value == events + [e.(sequence := |events| + 1)]
                  && Numbered(TryAppend(events, e, valid).value)
  {
    LastOfNumbered(events);
  }

  /** What follows position k of a list; all of it where k is negative. */
  function Rest<T>(s: seq<T>, k: int): seq<T> {
    if k < 0 then s else if k < |s| then s[k..] else []
  }

  lemma RestLast<T>(s: seq<T>, k: int)
    requires s != []
    ensures Rest(s, k) == Rest(s[..|s| - 1], k) + if k < |s| then [s[|s| - 1]] else []
  {
    var init, last := s[..|s| - 1], s[|s| - 1];
    assert s == init + [last];
    if 0 <= k < |s| { assert s[k..] == init[k..] + [last]; }
  }

  /** On a numbered log a poller is handed exactly the events from its cursor on. */
  lemma {:induction false} AfterOfNumbered(events: seq<Event>, after: int)
    requires Numbered(events)
    ensures After(events, after) == Rest(events, after)
  {
    if events != [] {
      AfterOfNumbered(events[..|events| - 1], after);
      RestLast(events, after);
    }
  }

  // ---------------------------------------------------------------- interleavings

  /** One locked step: a thread appends an event, or a poller asks for what follows its cursor. */
  datatype Op = Append(event: Event) | Poll(poller: nat)

  datatype System = System(log: seq<Event>, cursors: map<nat, int>, received: map<nat, seq<Event>>) {
    function Cursor(p: nat): int { if p in cursors then cursors[p] else 0 }

    function Received(p: nat): seq<Event> { if p in received then received[p] else [] }
  }

  function Step(s: System, op: Op, valid: Event -> bool): System {
    match op
    case Append(e) =>
      (match TryAppend(s.log, e, valid)
       case Some(log) => s.(log := log)
       case None => s)
    case Poll(p) =>
      s.(cursors := s.cursors[p := LastSequence(s.log)],
         received := s.received[p := s.Received(p) + After(s.log, s.Cursor(p))])
  }

  function Run(ops: seq<Op>, valid: Event -> bool): System {
    if ops == [] then System([], map[], map[]) else Step(Run(ops[..|ops| - 1], valid), ops[|ops| - 1], valid)
  }

  /** The events a run accepts, as they arrived. */
  function Accepted(ops: seq<Op>, valid: Event -> bool): seq<Event> {
    if ops == [] then []
    else
      var before := Accepted(ops[..|ops| - 1], valid);
      match ops[|ops| - 1]
      case Poll(_) => before
      case Append(e) =>
        if e.sequence == |before| + 1 || valid(e.(sequence := |before| + 1)) then before + [e] else before
  }

  function Appended(ops: seq<Op>): seq<Event> {
    if ops == [] then []
    else Appended(ops[..|ops| - 1]) + (match ops[|ops| - 1] case Append(e) => [e] case Poll(_) => [])
  }

  function Renumbered(events: seq<Event>): (r: seq<Event>)
    ensures |r| == |events| && forall i :: 0 <= i < |r| ==> r[i] == events[i].(sequence := i + 1)
  {
    seq(|events|, i requires 0 <= i < |events| => events[i].(sequence := i + 1))
  }

  /**
   Under every interleaving the log is the accepted events in the order of arrival, numbered
   1, 2, ... whatever numbers they arrived with.
   */
  lemma {:induction false} LogIsAccepted(ops: seq<Op>, valid: Event -> bool)
    ensures Run(ops, valid).log == Renumbered(Accepted(ops, valid))
    ensures Numbered(Run(ops, valid).log)
  {
    if ops != [] {
      var init, op := ops[..|ops| - 1], ops[|ops| - 1];
      LogIsAccepted(init, valid);
      if op.Append? {
        var s := Run(init, valid);
        AppendNumbers(s.log, op.event, valid);
        var before := Accepted(init, valid);
        assert Renumbered(before + [op.event]) == Renumbered(before) + [op.event.(sequence := |before| + 1)];
      }
    }
  }

  ghost predicate SeenOnce(s: System, p: nat) {
    0 <= s.Cursor(p) <= |s.log| && s.Received(p) == s.log[..s.Cursor(p)]
  }

  lemma PrefixStays(log: seq<Event>, e: Event, c: int)
    requires 0 <= c <= |log|
    ensures (log + [e])[..c] == log[..c]
  {
  }

  lemma SeenOnceAppend(s: System, e: Event, valid: Event -> bool, p: nat)
    requires Numbered(s.log) && SeenOnce(s, p)
    ensures SeenOnce(Step(s, Append(e), valid), p)
  {
    AppendNumbers(s.log, e, valid);
    PrefixStays(s.log, e.(sequence := |s.log| + 1), s.Cursor(p));
  }

  lemma CatchUp(log: seq<Event>, c: int)
    requires Numbered(log) && 0 <= c <= |log|
    ensures log[..c] + After(log, c) == log
  {
    AfterOfNumbered(log, c);
  }

  /** A poll gives the poller the batch and moves its cursor, and leaves everyone else alone. */
  lemma PollEffect(s: System, q: nat, valid: Event -> bool, p: nat)
    ensures var t := Step(s, Poll(q), valid);
            && t.log == s.log
            && t.Cursor(p) == (if q == p then LastSequence(s.log) else s.Cursor(p))
            && t.Received(p) == (if q == p then s.Received(p) + After(s.log, s.Cursor(p)) else s.Received(p))
  {
  }

  lemma SeenOncePoll(s: System, q: nat, valid: Event -> bool, p: nat)
    requires Numbered(s.log) && SeenOnce(s, p)
    ensures SeenOnce(Step(s, Poll(q), valid), p)
    ensures q == p ==> Step(s, Poll(q), valid).Received(p) == s.log
  {
    PollEffect(s, q, valid, p);
    if q == p {
      LastOfNumbered(s.log);
      CatchUp(s.log, s.Cursor(p));
      WholePrefix(s.log);
    }
  }

  lemma WholePrefix(log: seq<Event>)
    ensures log[..|log|] == log
  {
  }

  lemma SeenOnceStep(s: System, op: Op, valid: Event -> bool, p: nat)
    requires Numbered(s.log) && SeenOnce(s, p)
    ensures SeenOnce(Step(s, op, valid), p)
  {
    match op
    case Append(e) => SeenOnceAppend(s, e, valid, p);
    case Poll(q) => SeenOncePoll(s, q, valid, p);
  }

  /** A poller's batches, put together, are a prefix of the log: every event once, none out of order. */
  lemma {:induction false} PollersSeeEachEventOnce(ops: seq<Op>, valid: Event -> bool, p: nat)
    ensures SeenOnce(Run(ops, valid), p)
  {
    if ops != [] {
      var init := ops[..|ops| - 1];
      PollersSeeEachEventOnce(init, valid, p);
      LogIsAccepted(init, valid);
      SeenOnceStep(Run(init, valid), ops[|ops| - 1], valid, p);
    }
  }

  /** A poll catches up with everything appended before it. */
  lemma PollCatchesUp(ops: seq<Op>, valid: Event -> bool, p: nat)
    ensures Run(ops + [Poll(p)], valid).Received(p) == Run(ops, valid).log
  {
    PollersSeeEachEventOnce(ops, valid, p);
    LogIsAccepted(ops, valid);
    SeenOncePoll(Run(ops, valid), p, valid, p);
    assert (ops + [Poll(p)])[..|ops|] == ops;
  }

  // ---------------------------------------------------------------- losses

  /** The schema asks of the number only that it is positive. */
  ghost predicate NumberBlind(valid: Event -> bool) {
    forall e: Event, n: int :: valid(e) && n >= 1 ==> valid(e.(sequence := n))
  }

  lemma {:induction false} ValidAreAccepted(ops: seq<Op>, valid: Event -> bool)
    requires NumberBlind(valid) && forall e <- Appended(ops) :: valid(e)
    ensures Accepted(ops, valid) == Appended(ops)
  {
    if ops != [] {
      var init := ops[..|ops| - 1];
      assert forall e <- Appended(init) :: e in Appended(ops);
      ValidAreAccepted(init, valid);
      if ops[|ops| - 1].Append? { assert ops[|ops| - 1].event in Appended(ops); }
    }
  }

  /**
   When all threads append events that pass the schema, as builders do, none is lost: the log
   holds every one of them, in order of arrival, and each still passes.
   */
  lemma NothingLost(ops: seq<Op>, valid: Event -> bool)
    requires NumberBlind(valid) && forall e <- Appended(ops) :: valid(e)
    ensures Run(ops, valid).log == Renumbered(Appended(ops))
    ensures forall e <- Run(ops, valid).log :: valid(e)
  {
    ValidAreAccepted(ops, valid);
    LogIsAccepted(ops, valid);
    var log := Run(ops, valid).log;
    forall e <- log ensures valid(e) {
      var i :| 0 <= i < |log| && log[i] == e;
      assert Appended(ops)[i] in Appended(ops);
    }
  }

  lemma {:induction false} AcceptedPasses(ops: seq<Op>, valid: Event -> bool, i: nat)
    requires i < |Accepted(ops, valid)| && Accepted(ops, valid)[i].sequence != i + 1
    ensures valid(Accepted(ops, valid)[i].(sequence := i + 1))
  {
    var init := ops[..|ops| - 1];
    if i < |Accepted(init, valid)| { AcceptedPasses(init, valid, i); }
  }

  /** The events that arrived with the number they were given pass the schema: only these are not checked on arrival. */
  ghost predicate UncheckedPass(ops: seq<Op>, valid: Event -> bool) {
    forall i :: 0 <= i < |Accepted(ops, valid)| && Accepted(ops, valid)[i].sequence == i + 1 ==>
        valid(Accepted(ops, valid)[i])
  }

  /**
   Every stored event passes the schema exactly when those do that arrive with the expected number:
   the store checks an event only when it renumbers it.
   */
  lemma StoredPassExactly(ops: seq<Op>, valid: Event -> bool)
    ensures (forall e <- Run(ops, valid).log :: valid(e)) <==> UncheckedPass(ops, valid)
  {
    var log, accepted := Run(ops, valid).log, Accepted(ops, valid);
    LogIsAccepted(ops, valid);
    forall i | 0 <= i < |accepted| ensures log[i] in log && (accepted[i].sequence == i + 1 ==> log[i] == accepted[i]) {}
    if UncheckedPass(ops, valid) {
      forall e <- log ensures valid(e) {
        var i :| 0 <= i < |log| && log[i] == e;
        if accepted[i].sequence != i + 1 { AcceptedPasses(ops, valid, i); }
      }
    }
  }

  lemma {:induction false} AcceptedAreAppended(ops: seq<Op>, valid: Event -> bool)
    ensures forall e <- Accepted(ops, valid) :: e in Appended(ops)
  {
    if ops != [] { AcceptedAreAppended(ops[..|ops| - 1], valid); }
  }

  /** It is the builder's own check of every event it emits that keeps the condition true. */
  lemma EmittedPass(ops: seq<Op>, valid: Event -> bool)
    requires forall e <- Appended(ops) :: valid(e)
    ensures forall e <- Run(ops, valid).log :: valid(e)
  {
    AcceptedAreAppended(ops, valid);
    StoredPassExactly(ops, valid);
  }

  // The names the event schema allows (docs/demo-handoff/schemas/live-workbench-event.schema.json).

  const EVENT_TYPES := {
    "PREFLIGHT_STARTED", "PREFLIGHT_READY", "PREFLIGHT_FAILED", "MODEL_REQUESTED", "MODEL_RESPONDED", "INTENT_FROZEN",
    "MODEL_SELF_DEFENSE", "NULL_STARTED", "NULL_COMPLETED", "GUARD_STARTED", "GUARD_GATE_RESULT",
    "GUARD_PENDING_APPROVAL", "OPERATOR_APPROVED", "OPERATOR_REJECTED", "GUARD_COMPLETED", "VERIFY_STARTED",
    "VERIFY_COMPLETED", "RUN_COMPLETED", "RUN_FAILED"
  }

  /** The schema's demands on the number and the event type. */
  predicate MeetsSchema(e: Event) {
    e.sequence >= 1 && e.eventType in EVENT_TYPES
  }

  /** An event type the schema does not know is stored under number 1 and refused under number 2. */
  lemma UnknownTypeIsStored(e: Event)
    requires e.eventType == "" && e.sequence in {1, 2}
    ensures !MeetsSchema(e)
    ensures Run([Append(e)], MeetsSchema).log == if e.sequence == 1 then [e] else []
  {
    var ops := [Append(e)];
    assert ops[..0] == [];
    assert Run(ops[..0], MeetsSchema).log == [];
    EmptyIsNoType();
  }

  lemma EmptyIsNoType()
    ensures "" !in EVENT_TYPES
  {
  }

  // ---------------------------------------------------------------- derived fields

  datatype View = View(state: string, intent: string, decision: string)

  function Update(v: View, e: Event): View {
    View(e.state.GetOr(v.state),
         if e.intent != "" then e.intent else v.intent,
         if e.branch == "GUARD" && e.decision != "" then e.decision else v.decision)
  }

  function Fold(events: seq<Event>): View {
    if events == [] then View("IDLE", "", "unknown")
    else Update(Fold(events[..|events| - 1]), events[|events| - 1])
  }

  lemma FoldAppend(events: seq<Event>, e: Event)
    ensures Fold(events + [e]) == Update(Fold(events), e)
  {
    assert (events + [e])[..|events|] == events;
  }

  /** The decision shown is that of the last guard event carrying one, unknown before any. */
  lemma {:induction false} DecisionIsLastGuard(events: seq<Event>, i: nat)
    requires i < |events| && events[i].branch == "GUARD" && events[i].decision != ""
    requires forall j :: i < j < |events| ==> events[j].branch != "GUARD" || events[j].decision == ""
    ensures Fold(events).decision == events[i].decision
  {
    if i < |events| - 1 { DecisionIsLastGuard(events[..|events| - 1], i); }
  }

  /** The state shown is that of the last event naming one. */
  lemma {:induction false} StateIsLast(events: seq<Event>, i: nat)
    requires i < |events| && events[i].state.Some?
    requires forall j :: i < j < |events| ==> events[j].state.None?
    ensures Fold(events).state == events[i].state.value
  {
    if i < |events| - 1 { StateIsLast(events[..|events| - 1], i); }
  }

  /** The intent shown is that of the last event carrying one. */
  lemma {:induction false} IntentIsLast(events: seq<Event>, i: nat)
    requires i < |events| && events[i].intent != ""
    requires forall j :: i < j < |events| ==> events[j].intent == ""
    ensures Fold(events).intent == events[i].intent
  {
    if i < |events| - 1 { IntentIsLast(events[..|events| - 1], i); }
  }

  /** What is shown before any event says otherwise. */
  lemma {:induction false} ShownAtFirst(events: seq<Event>)
    ensures (forall e <- events :: e.state.None?) ==> Fold(events).state == "IDLE"
    ensures (forall e <- events :: e.intent == "") ==> Fold(events).intent == ""
    ensures (forall e <- events :: e.branch != "GUARD" || e.decision == "") ==> Fold(events).decision == "unknown"
  {
    if events != [] {
      assert forall e <- events[..|events| - 1] :: e in events;
      assert events[|events| - 1] in events;
      ShownAtFirst(events[..|events| - 1]);
    }
  }
}
