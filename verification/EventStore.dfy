/**
 The workbench's event builder and run store (workbench/events.py, workbench/store.py). A
 method called under the store's lock is one atomic step. `disk` is what the events.jsonl
 files hold, by run id.
 */
module EventStore {

  import opened Wrappers
  import opened EventLog

  datatype Error = InvalidRunMode | SchemaViolation

  predicate IsRunMode(mode: string) {
    mode == "LIVE_RUN" || mode == "SEALED_REPLAY" || mode == "EXAMPLE_SYNTHETIC"
  }

  /** Builds the events of one thread and numbers them for itself. */
  class EventBuilder {
    const runId: string
    const runMode: string
    var sequence: int

    constructor (runId: string, runMode: string)
      ensures this.runId == runId && this.runMode == runMode && sequence == 0
    {
      this.runId, this.runMode, sequence := runId, runMode, 0;
    }

    /** Refuses a run mode the schema does not know. */
    static method For(runId: string, runMode: string) returns (r: Result<EventBuilder, Error>)
      ensures r.Ok? <==> IsRunMode(runMode)
      ensures r.Ok? ==> fresh(r.value) && r.value.runId == runId && r.value.runMode == runMode && r.value.sequence == 0
    {
      if !IsRunMode(runMode) { return Err(InvalidRunMode); }
      var builder := new EventBuilder(runId, runMode);
      return Ok(builder);
    }

    /** A refused event uses up its number all the same. */
    method Emit(eventType: string, state: string, branch: string, intent: string, decision: string, body: string,
                valid: Event -> bool)
      returns (r: Result<Event, Error>)
      modifies this
      ensures sequence == old(sequence) + 1
      ensures var e := Event(old(sequence) + 1, eventType, Some(state), branch, intent, decision, body);
              r == if valid(e) then Ok(e) else Err(SchemaViolation)
    {
      sequence := sequence + 1;
      var e := Event(sequence, eventType, Some(state), branch, intent, decision, body);
      if !valid(e) { return Err(SchemaViolation); }
      return Ok(e);
    }
  }

  class RunRecord {
    const runId: string
    const runMode: string
    const scenarioId: string
    var state: string
    var events: seq<Event>
    var intentSha256: string
    var guardDecision: string

    constructor (runId: string, runMode: string, scenarioId: string)
      ensures this.runId == runId && this.runMode == runMode && this.scenarioId == scenarioId
      ensures events == [] && Shown() == Fold([])
    {
      this.runId, this.runMode, this.scenarioId := runId, runMode, scenarioId;
      state, events, intentSha256, guardDecision := "IDLE", [], "", "unknown";
    }

    function Shown(): View
      reads this
    {
      View(state, intentSha256, guardDecision)
    }

    /** Keeps an event and updates what the run shows. */
    method Record(event: Event)
      modifies this
      ensures events == old(events) + [event] && Shown() == Update(old(Shown()), event)
    {
      events := events + [event];
      if event.state.Some? { state := event.state.value; }
      if event.intent != "" { intentSha256 := event.intent; }
      if event.branch == "GUARD" && event.decision != "" { guardDecision := event.decision; }
    }
  }

  // ---------------------------------------------------------------- run ids

  predicate IsIdChar(c: char) {
    'A' <= c <= 'Z' || 'a' <= c <= 'z' || '0' <= c <= '9' || c == '_' || c == '-'
  }

  predicate IsRunId(id: string) {
    && |id| >= 4 && id[..4] == "run_"
    && 8 <= |id| - 4 <= 96
    && forall i :: 4 <= i < |id| ==> IsIdChar(id[i])
  }

  function Prefix(mode: string): string {
    if mode == "LIVE_RUN" then "live"
    else if mode == "SEALED_REPLAY" then "sealed"
    else if mode == "EXAMPLE_SYNTHETIC" then "synth"
    else "run"
  }

  function RunId(mode: string, token: string): string {
    "run_" + Prefix(mode) + "_" + token
  }

  predicate IsToken(token: string) {
    |token| == 8 && forall c <- token :: '0' <= c <= '9' || 'a' <= c <= 'f'
  }

  /** Ids the server makes can be looked up again, and tell their token and so the run apart. */
  lemma MadeIdsAreRunIds(mode: string, token: string)
    requires IsToken(token)
    ensures IsRunId(RunId(mode, token))
    ensures forall other: string :: RunId(mode, other) == RunId(mode, token) ==> other == token
  {
    var id, head := RunId(mode, token), "run_" + Prefix(mode) + "_";
    forall i | 4 <= i < |id| ensures IsIdChar(id[i]) {
      if i >= |head| {
        assert id[i] == token[i - |head|];
        assert token[i - |head|] in token;
      }
    }
    forall other: string | RunId(mode, other) == id ensures other == token {
      assert id[|head|..] == token && RunId(mode, other)[|head|..] == other;
    }
  }

  // ---------------------------------------------------------------- the store

  /** `handed` are all records ever handed out, also those no longer registered under their id. */
  class RunStore {
    var runs: map<string, RunRecord>
    var order: seq<string>
    var disk: map<string, seq<Event>>
    ghost var handed: set<RunRecord>

    function LogOnDisk(id: string): seq<Event>
      reads this
    {
      if id in disk then disk[id] else []
    }

    /** Numbered without gaps, equal on disk, and showing what the log says. */
    ghost predicate Consistent(record: RunRecord)
      reads this, record
    {
      && Numbered(record.events)
      && LogOnDisk(record.runId) == record.events
      && record.Shown() == Fold(record.events)
    }

    /** Every record handed out is consistent, and the only one of its id. */
    ghost predicate Valid()
      reads this, handed
    {
      && (forall id <- runs :: runs[id] in handed && runs[id].runId == id)
      && (forall r <- handed :: r.runId in runs && runs[r.runId] == r && Consistent(r))
      && (forall id <- order :: id in runs) && (forall id <- runs :: id in order)
    }

    /** A new store may find logs of an earlier process on disk. */
    constructor (found: map<string, seq<Event>>)
      ensures Valid() && runs == map[] && order == [] && disk == found && handed == {}
    {
      runs, order, disk, handed := map[], [], found, {};
    }

    /**
     Registers a run, displacing any of the same id. A valid store stays valid exactly when the drawn
     id is new: neither registered nor naming a log on disk. Nothing in the code enforces that.
     */
    method CreateRun(scenarioId: string, runMode: string, token: string) returns (record: RunRecord)
      modifies this
      ensures fresh(record) && record.runId == RunId(runMode, token)
      ensures record.runMode == runMode && record.scenarioId == scenarioId
      ensures record.events == [] && record.Shown() == Fold([])
      ensures runs == old(runs)[record.runId := record] && order == old(order) + [record.runId]
      ensures disk == old(disk) && handed == old(handed) + {record}
      ensures old(Valid()) ==>
                (Valid() <==> RunId(runMode, token) !in old(runs) && old(LogOnDisk(RunId(runMode, token))) == [])
    {
      ghost var known := Valid();
      var runId := RunId(runMode, token);
      record := new RunRecord(runId, runMode, scenarioId);
      runs := runs[runId := record];
      order := order + [runId];
      handed := handed + {record};
      assert runs[runId] == record;
      if known && runId in old(runs) {
        var displaced := old(runs)[runId];
        assert displaced in handed && displaced != record && runs[displaced.runId] == record;
      } else if known {
        forall r <- old(handed) ensures r.runId in runs && runs[r.runId] == r && Consistent(r) {
          assert r.runId != runId;
        }
      }
    }

    method Get(id: string) returns (r: RunRecord?)
      ensures r == if IsRunId(id) && id in runs then runs[id] else null
    {
      if !IsRunId(id) || id !in runs { return null; }
      return runs[id];
    }

    /** Keeps an event in memory and on disk. */
    method Write(record: RunRecord, event: Event)
      modifies this`disk, record
      ensures record.events == old(record.events) + [event] && record.Shown() == Update(old(record.Shown()), event)
      ensures disk == old(disk)[record.runId := old(LogOnDisk(record.runId)) + [event]]
      ensures old(Valid()) && record in handed && event.sequence == |old(record.events)| + 1 ==> Valid()
    {
      ghost var next := Valid() && record in handed && event.sequence == |record.events| + 1;
      ghost var folded := record.Shown() == Fold(record.events);
      assert next ==> Consistent(record) && folded;
      FoldAppend(record.events, event);
      record.Record(event);
      disk := disk[record.runId := LogOnDisk(record.runId) + [event]];
      assert folded ==> record.Shown() == Fold(record.events);
      if next {
        forall r <- handed ensures r.runId in runs && runs[r.runId] == r && Consistent(r) {
          assert r != record ==> r.runId != record.runId;
        }
      }
    }

    /**
     One locked step: number, record, show and write an event, or refuse it and change nothing. The
     record may be any, registered or displaced.
     */
    method AppendEvent(record: RunRecord, event: Event, valid: Event -> bool) returns (r: Result<(), Error>)
      modifies this`disk, record
      ensures r.Ok? <==> TryAppend(old(record.events), event, valid).Some?
      ensures r.Ok? ==> record.events == TryAppend(old(record.events), event, valid).value
      ensures r.Ok? ==> record.Shown() == Update(old(record.Shown()), record.events[|record.events| - 1])
      ensures r.Ok? ==>
                disk == old(disk)[record.runId := old(LogOnDisk(record.runId)) + [record.events[|record.events| - 1]]]
      ensures r.Err? ==>
                record.events == old(record.events) && record.Shown() == old(record.Shown()) && disk == old(disk)
      ensures old(Valid()) && record in handed ==> Valid()
    {
      if record in handed && Valid() { LastOfNumbered(record.events); }
      var stored := event;
      var expected := LastSequence(record.events) + 1;
      if event.sequence != expected {
        stored := event.(sequence := expected);
        if !valid(stored) { return Err(SchemaViolation); }
      }
      Write(record, stored);
      return Ok(());
    }

    /** What follows a cursor, and the cursor to come back with. */
    method EventsAfter(id: string, after: int) returns (r: Option<(seq<Event>, int)>)
      ensures r.None? <==> !(IsRunId(id) && id in runs)
      ensures r.Some? ==> r.value == (After(runs[id].events, after), LastSequence(runs[id].events))
      ensures r.Some? && Valid() ==>
                var log := LogOnDisk(id);
                r.value == (if after < 0 then log else if after < |log| then log[after..] else [], |log|)
    {
      var record := Get(id);
      if record == null { return None; }
      if Valid() {
        AfterOfNumbered(record.events, after);
        LastOfNumbered(record.events);
      }
      return Some((After(record.events, after), LastSequence(record.events)));
    }
  }

  /**
   An id drawn twice before its first event: one append to the displaced record writes the file both
   share, and the registered record no longer agrees with it.
   */
  method RepeatedToken(runMode: string, token: string, event: Event, valid: Event -> bool)
    returns (store: RunStore, first: RunRecord, second: RunRecord)
    requires event.sequence == 1 || valid(event.(sequence := 1))
    ensures first.runId == second.runId && first.runId in store.runs && store.runs[first.runId] == second
    ensures store.Consistent(first) && first.events == [event.(sequence := 1)]
    ensures second.events == [] && !store.Consistent(second)
  {
    store := new RunStore(map[]);
    first := store.CreateRun("", runMode, token);
    second := store.CreateRun("", runMode, token);
    AppendNumbers([], event, valid);
    FoldAppend([], event.(sequence := 1));
    var r := store.AppendEvent(first, event, valid);
  }

  /** A run whose id names a log left by an earlier process disagrees with its file from the start. */
  method LeftoverLog(runMode: string, token: string, left: Event) returns (store: RunStore, record: RunRecord)
    ensures record.runId == RunId(runMode, token) && record.events == [] && store.LogOnDisk(record.runId) == [left]
    ensures !store.Consistent(record)
  {
    store := new RunStore(map[RunId(runMode, token) := [left]]);
    record := store.CreateRun("", runMode, token);
  }
}
