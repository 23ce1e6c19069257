/**
 * The hook process: one per agent event, joining outbox, flusher and run state.
 *
 * A process may be killed between any two of its transactions, any call may throw,
 * and other processes may act in between.
 */
module HookCli {
  import opened Wrappers
  import opened Text
  import opened Evidence
  import opened SqliteStores
  import opened RunState
  import opened Transcripts
  import Flush

  datatype HookEvent = SessionStart | PostToolUse | Stop | SessionEnd

  predicate StartsRun(event: HookEvent) { event.SessionStart? }
  predicate Flushes(event: HookEvent) { event.Stop? || event.SessionEnd? }
  predicate FinishesRun(event: HookEvent) { event.SessionEnd? }

  /** Only the literal "true" attests reachability; absence and anything else do not. */
  function DecideReachability(declared: Option<JsString>): bool {
    declared == Some(Ascii("true"))
  }

  /** `runTelemetryState`. */
  function RunTelemetryState(reachableAtStart: bool, remaining: nat, everFailed: bool): (bool, bool) {
    var complete := remaining == 0 && !everFailed;
    (complete, complete && reachableAtStart)
  }

  datatype FlushSummary = NoFlush | FlushDrained | FlushNotDrained

  /** `marked`: the failure itself could be persisted. */
  datatype Ending = Returned | Died | Thrown(marked: bool)

  /** What one invocation that reached its run did to it. */
  datatype HookReport = HookReport(
    event: HookEvent, failedAtStart: bool, reachableAtStart: bool,
    flush: FlushSummary, ending: Ending, endedAt: JsString, writes: seq<RunWrite>)

  predicate Clean(r: HookReport) { r.flush.FlushDrained? && !r.failedAtStart }

  /** The writes of an invocation that gets to the end. */
  function FullWrites(r: HookReport): seq<RunWrite> {
    (if r.flush.FlushNotDrained? then [Failed] else [])
    + (if FinishesRun(r.event) && !r.flush.NoFlush?
       then [Finished(Clean(r), Clean(r) && r.reachableAtStart, !Clean(r), r.endedAt)] else [])
  }

  ghost predicate Lawful(r: HookReport) {
    && (Flushes(r.event) || r.flush.NoFlush?)
    && match r.ending
       case Returned => r.writes == FullWrites(r) && (Flushes(r.event) ==> !r.flush.NoFlush?)
       case Died => r.writes <= FullWrites(r)
       case Thrown(marked) =>
         exists k :: 0 <= k <= |FullWrites(r)| && r.writes == FullWrites(r)[..k] + if marked then [Failed] else []
  }

  /** The row an invocation starts from: its own, or a new one. */
  function StartingRow(t: Tables, runId: Id, sessionKey: Id, reachable: bool): RunRow {
    if runId in t.runs then t.runs[runId] else RunRow(Some(sessionKey), false, false, reachable, false, None)
  }

  lemma WritesAppend(row: RunRow, ws: seq<RunWrite>, w: RunWrite)
    ensures ApplyWrites(row, ws + [w]) == ApplyWrite(ApplyWrites(row, ws), w)
    ensures ApplyWrites(row, []) == row
  {
    assert (ws + [w])[..|ws|] == ws;
  }

  /** A row stays, and stays failed, whatever was committed since. */
  lemma RowStays(db: Database, earlier: seq<Act>, runId: Id)
    requires db.Valid() && earlier <= db.acts && RowAt(db.initial, earlier, runId).Some?
    ensures runId in db.tables.runs
    ensures RowAt(db.initial, earlier, runId).value.flushEverFailed ==> db.tables.runs[runId].flushEverFailed
  {
    assert db.acts[..|earlier|] == earlier;
    FailureSticks(db.initial, db.acts, |earlier|, runId);
  }

  function Stamp(e: Item, runId: Id): Item
    requires e.Event?
  {
    Event(e.id, runId, e.installation, e.emitter, e.sequence, e.body)
  }

  lemma StampNames(e: Item, runId: Id)
    requires e.Event?
    ensures var s := Stamp(e, runId);
            && s.Event? && s.runId == runId && s.id == e.id && s.installation == e.installation
            && s.emitter == e.emitter && s.sequence == e.sequence && s.body == e.body
  {
  }

  ghost predicate AllRecorded(t: Tables, events: seq<Item>) {
    forall i :: 0 <= i < |events| ==> events[i].id in t.history
  }

  lemma KeepsAppended(start: Tables, before: Tables, between: Tables, after: Tables, e: Item, appended: Outcome<bool>)
    requires Keeps(start, before) && Keeps(before, between)
    requires after == between || after == between.(history := between.history[e.id := Row(e, false)], outbox := between.outbox[e.id := e])
    requires after != between ==> e.id !in between.history
    requires appended.Done? && after == between ==> e.id in between.history
    ensures Keeps(start, after) && Keeps(before, after)
    ensures appended.Done? ==> e.id in after.history
  {
  }

  lemma AllRecordedStep(before: Tables, after: Tables, events: seq<Item>, i: nat)
    requires i < |events| && AllRecorded(before, events[..i]) && Keeps(before, after) && events[i].id in after.history
    ensures AllRecorded(after, events[..i + 1])
  {
    forall k | 0 <= k < i ensures events[k].id in after.history {
      assert events[..i][k].id in Recorded(before, Events);
    }
  }

  /** What an earlier moment had recorded. */
  ghost predicate RecordedAt(s: Site, acts: seq<Act>, events: seq<Item>) { AllRecorded(Run(s, acts).tables, events) }

  lemma RecordedNow(db: Database, events: seq<Item>)
    requires db.Valid()
    ensures RecordedAt(db.initial, db.acts, events) <==> AllRecorded(db.tables, events)
  {
    hide Run;
  }

  lemma RecordedStay(db: Database, earlier: seq<Act>, events: seq<Item>)
    requires db.Valid() && earlier <= db.acts && RecordedAt(db.initial, earlier, events)
    ensures AllRecorded(db.tables, events)
  {
    hide Run;
    assert db.acts[..|earlier|] == earlier;
    RunKeeps(db.initial, db.acts, |earlier|);
    forall i | 0 <= i < |events| ensures events[i].id in db.tables.history {
      assert events[i].id in Recorded(Run(db.initial, earlier).tables, Events);
    }
  }

  ghost predicate AppendedOne(acts: seq<Act>, from: nat, stamped: Item) {
    exists p :: from <= p < |acts| && acts[p] == Append(stamped)
  }

  /** Every emission was appended, stamped with the run, at or after a moment. */
  ghost predicate Appended(acts: seq<Act>, from: nat, runId: Id, events: seq<Item>) {
    forall i :: 0 <= i < |events| ==> events[i].Event? && AppendedOne(acts, from, Stamp(events[i], runId))
  }

  lemma AppendedOneStays(acts: seq<Act>, more: seq<Act>, from: nat, stamped: Item)
    requires acts <= more && AppendedOne(acts, from, stamped)
    ensures AppendedOne(more, from, stamped)
  {
    var p :| from <= p < |acts| && acts[p] == Append(stamped);
    assert more[p] == acts[p];
  }

  lemma AppendedStays(acts: seq<Act>, more: seq<Act>, from: nat, runId: Id, events: seq<Item>)
    requires acts <= more && Appended(acts, from, runId, events)
    ensures Appended(more, from, runId, events)
  {
    hide Stamp, AppendedOne;
    forall i | 0 <= i < |events| ensures AppendedOne(more, from, Stamp(events[i], runId)) {
      AppendedOneStays(acts, more, from, Stamp(events[i], runId));
    }
  }

  lemma AppendedStep(acts: seq<Act>, more: seq<Act>, from: nat, runId: Id, events: seq<Item>, i: nat)
    requires i < |events| && events[i].Event? && acts <= more && Appended(acts, from, runId, events[..i])
    requires from < |more| && more[|more| - 1] == Append(Stamp(events[i], runId))
    ensures Appended(more, from, runId, events[..i + 1])
  {
    hide Stamp;
    AppendedStays(acts, more, from, runId, events[..i]);
    var all := events[..i + 1];
    forall k | 0 <= k <= i ensures all[k].Event? && AppendedOne(more, from, Stamp(all[k], runId)) {
      if k < i { assert all[k] == events[..i][k]; }
    }
  }

  /** The queues after every emission was appended in turn. */
  ghost function AppendAll(t: Tables, runId: Id, events: seq<Item>): Tables
    requires forall i :: 0 <= i < |events| ==> events[i].Event?
  {
    if events == [] then t else AppendEvent(AppendAll(t, runId, events[..|events| - 1]), Stamp(events[|events| - 1], runId))
  }

  lemma {:induction false} AppendAllIgnoresRuns(t: Tables, runs: map<Id, RunRow>, runId: Id, events: seq<Item>)
    requires forall i :: 0 <= i < |events| ==> events[i].Event?
    ensures AppendAll(t.(runs := runs), runId, events) == AppendAll(t, runId, events).(runs := runs)
  {
    if events != [] { AppendAllIgnoresRuns(t, runs, runId, events[..|events| - 1]); }
  }

  /** What was recorded under the ids of the emissions was delivered. */
  ghost predicate EmissionsDelivered(t: Tables, log: seq<Exchange>, events: seq<Item>) {
    forall i :: 0 <= i < |events| ==> events[i].id in t.history && Delivered(log, Events, t.history[events[i].id].item)
  }

  /** A boundary that drains after the emissions were recorded delivers them. */
  lemma EmissionsAmongAll(before: Tables, now: Tables, log: seq<Exchange>, events: seq<Item>)
    requires AllRecorded(before, events) && Keeps(before, now) && EverythingDelivered(before, log)
    ensures EmissionsDelivered(now, log, events)
  {
    hide Delivered;
    assert AllDelivered(before, log, Events);
    forall i | 0 <= i < |events|
      ensures events[i].id in now.history && Delivered(log, Events, now.history[events[i].id].item)
    {
      assert events[i].id in Recorded(before, Events);
    }
  }

  lemma EmissionsStayDelivered(before: Tables, now: Tables, log: seq<Exchange>, more: seq<Exchange>, events: seq<Item>)
    requires Keeps(before, now) && log <= more && EmissionsDelivered(before, log, events)
    ensures EmissionsDelivered(now, more, events)
  {
    hide Delivered;
    forall i | 0 <= i < |events|
      ensures events[i].id in now.history && Delivered(more, Events, now.history[events[i].id].item)
    {
      assert events[i].id in Recorded(before, Events);
      DeliveredStays(log, more, Events, before.history[events[i].id].item);
    }
  }

  /** Appends every emission, stamped with the run. */
  method EmitAll(db: Database, runId: Id, emissions: seq<Item>) returns (ending: Ending)
    requires db.Valid() && forall i :: 0 <= i < |emissions| ==> emissions[i].Event?
    modifies db
    ensures db.Valid() && old(db.acts) <= db.acts && db.foreign <= old(db.foreign)
    ensures db.foreign == old(db.foreign) ==> db.tables.runs == old(db.tables.runs)
    ensures ending != Thrown(true)
    ensures Keeps(old(db.tables), db.tables)
    ensures ending.Returned? ==> AllRecorded(db.tables, emissions)
    ensures ending.Returned? ==> Appended(db.acts, |old(db.acts)|, runId, emissions)
    ensures old(db.log) <= db.log && (db.foreign == old(db.foreign) ==> db.log == old(db.log))
    ensures ending.Returned? && db.foreign == old(db.foreign) ==> db.tables == AppendAll(old(db.tables), runId, emissions)
  {
    hide Database.Valid, Stamp, Appended, AppendAll, AppendEvent;
    NothingToAppend(db.tables, runId);
    var outbox := new SqliteOutbox(db);
    NothingAppended(db.acts, |db.acts|, runId);
    for i := 0 to |emissions|
      invariant db.Valid() && old(db.acts) <= db.acts && db.foreign <= old(db.foreign)
      invariant db.foreign == old(db.foreign) ==> db.tables.runs == old(db.tables.runs)
      invariant Keeps(old(db.tables), db.tables) && AllRecorded(db.tables, emissions[..i])
      invariant Appended(db.acts, |old(db.acts)|, runId, emissions[..i])
      invariant old(db.log) <= db.log && (db.foreign == old(db.foreign) ==> db.log == old(db.log))
      invariant db.foreign == old(db.foreign) ==> db.tables == AppendAll(old(db.tables), runId, emissions[..i])
    {
      ghost var before, acts := db.tables, db.acts;
      db.Interleave();
      ghost var between := db.tables;
      StampNames(emissions[i], runId);
      var appended := outbox.Append(Stamp(emissions[i], runId));
      KeepsAppended(old(db.tables), before, between, db.tables, Stamp(emissions[i], runId), appended);
      if appended.Done? {
        AllRecordedStep(before, db.tables, emissions, i);
        AppendedStep(acts, db.acts, |old(db.acts)|, runId, emissions, i);
        AppendOneMore(old(db.tables), runId, emissions, i);
      }
      var dies: bool := *;
      if dies { return Died; }
      if appended.Threw? { return Thrown(false); }
    }
    assert emissions[..|emissions|] == emissions;
    ending := Returned;
  }

  lemma NothingToAppend(t: Tables, runId: Id)
    ensures AppendAll(t, runId, []) == t
  {
  }

  lemma AppendOneMore(t: Tables, runId: Id, events: seq<Item>, i: nat)
    requires i < |events| && forall k :: 0 <= k < |events| ==> events[k].Event?
    ensures AppendAll(t, runId, events[..i + 1]) == AppendEvent(AppendAll(t, runId, events[..i]), Stamp(events[i], runId))
  {
    assert events[..i + 1][..i] == events[..i];
  }

  lemma NothingAppended(acts: seq<Act>, from: nat, runId: Id)
    ensures Appended(acts, from, runId, [])
  {
  }

  // --- where a process's writes to its run stand among all acts ------------------------

  /** `writes` were committed, in this order, as the acts at the positions `own`, none before `from`. */
  ghost predicate Placed(runId: Id, acts: seq<Act>, from: nat, writes: seq<RunWrite>, own: seq<nat>) {
    && |own| == |writes|
    && (forall j :: 0 <= j < |own| ==> from <= own[j] < |acts| && WriteOf(runId, acts[own[j]]) == [writes[j]])
    && (forall j, k :: 0 <= j < k < |own| ==> own[j] < own[k])
  }

  lemma PlacedStays(runId: Id, acts: seq<Act>, more: seq<Act>, from: nat, since: nat, writes: seq<RunWrite>, own: seq<nat>)
    requires acts <= more && since <= from && Placed(runId, acts, from, writes, own)
    ensures Placed(runId, more, since, writes, own)
  {
    forall j | 0 <= j < |own| ensures since <= own[j] < |more| && WriteOf(runId, more[own[j]]) == [writes[j]] {
      assert more[own[j]] == acts[own[j]];
    }
  }

  lemma PlaceOne(runId: Id, acts: seq<Act>, from: nat, writes: seq<RunWrite>, own: seq<nat>, a: Act, w: RunWrite)
    requires from <= |acts| && Placed(runId, acts, from, writes, own) && WriteOf(runId, a) == [w]
    ensures Placed(runId, acts + [a], from, writes + [w], own + [|acts|])
  {
    PlacedStays(runId, acts, acts + [a], from, from, writes, own);
    assert (acts + [a])[|acts|] == a;
  }

  lemma PlaceNothing(runId: Id, acts: seq<Act>, from: nat)
    ensures Placed(runId, acts, from, [], [])
  {
  }

  /** A boundary that did not drain is marked before anything else is written. */
  method MarkBoundary(db: Database, runId: Id, start: HookReport) returns (end: HookReport, ghost own: seq<nat>)
    requires db.Valid() && runId in db.tables.runs
    requires start.flush.FlushNotDrained? && start.writes == []
    modifies db
    ensures db.Valid() && old(db.acts) <= db.acts && db.foreign <= old(db.foreign) && runId in db.tables.runs
    ensures end == start.(ending := end.ending, writes := end.writes) && end.ending != Thrown(true)
    ensures end.writes == [] || end.writes == [Failed]
    ensures Placed(runId, db.acts, |old(db.acts)|, end.writes, own)
    ensures end.ending.Returned? ==> end.writes == [Failed] && db.tables.runs[runId].flushEverFailed
    ensures db.foreign == old(db.foreign) ==> db.tables.runs[runId] == ApplyWrites(old(db.tables.runs[runId]), end.writes)
    ensures db.foreign == old(db.foreign) ==> SameQueues(old(db.tables), db.tables) && db.log == old(db.log)
  {
    hide Database.Valid, RowAt, ApplyWrites, Placed;
    RowNow(db, runId);
    ghost var began := db.acts;
    WritesAppend(db.tables.runs[runId], [], Failed);
    assert [] + [Failed] == [Failed];
    var runs := new SqliteRunStateStore(db);
    db.Interleave();
    RowStays(db, began, runId);
    own := [];
    PlaceNothing(runId, db.acts, |began|);
    PlaceOne(runId, db.acts, |began|, [], own, Act.MarkFlushFailed(runId), Failed);
    ghost var at := |db.acts|;
    var marked := runs.MarkFlushFailed(runId);
    if !marked { return start.(ending := Thrown(false)), own; }
    own := [] + [at];
    var dies: bool := *;
    end := start.(writes := [Failed], ending := if dies then Died else Returned);
  }

  /** The terminal write of a session end. */
  method FinishBoundary(db: Database, runId: Id, start: HookReport, remaining: nat, flusherFailed: bool, ghost from: nat, ghost placed: seq<nat>)
    returns (end: HookReport, ghost own: seq<nat>)
    requires db.Valid() && runId in db.tables.runs
    requires from <= |db.acts| && Placed(runId, db.acts, from, start.writes, placed)
    requires FinishesRun(start.event) && !start.flush.NoFlush?
    requires start.writes == (if start.flush.FlushNotDrained? then [Failed] else [])
    requires flusherFailed == start.flush.FlushNotDrained? && (start.flush.FlushDrained? ==> remaining == 0)
    modifies db
    ensures db.Valid() && old(db.acts) <= db.acts && db.foreign <= old(db.foreign) && runId in db.tables.runs
    ensures end == start.(ending := end.ending, writes := end.writes, endedAt := end.endedAt) && end.ending != Thrown(true)
    ensures start.writes <= end.writes <= FullWrites(end)
    ensures Placed(runId, db.acts, from, end.writes, own)
    ensures end.ending.Returned? ==> end.writes == FullWrites(end)
    ensures old(db.tables.runs[runId]).flushEverFailed ==> db.tables.runs[runId].flushEverFailed
    ensures forall row :: db.foreign == old(db.foreign) && old(db.tables.runs[runId]) == ApplyWrites(row, start.writes) ==>
              db.tables.runs[runId] == ApplyWrites(row, end.writes)
    ensures db.foreign == old(db.foreign) ==> SameQueues(old(db.tables), db.tables) && db.log == old(db.log)
  {
    hide Database.Valid, RowAt, Placed;
    RowNow(db, runId);
    ghost var began := db.acts;
    var runs := new SqliteRunStateStore(db);
    var everFailed := start.failedAtStart || flusherFailed;
    var state := RunTelemetryState(start.reachableAtStart, remaining, everFailed);
    var endedAt: JsString := *;
    end := start.(endedAt := endedAt);
    db.Interleave();
    RowStays(db, began, runId);
    own := placed;
    PlacedStays(runId, began, db.acts, from, from, start.writes, own);
    var w := Finished(state.0, state.1, everFailed, endedAt);
    PlaceOne(runId, db.acts, from, start.writes, own, Act.Finish(runId, state.0, state.1, everFailed, endedAt), w);
    ghost var at := |db.acts|;
    var finished := runs.FinishRun(runId, state.0, state.1, endedAt, everFailed);
    if !finished { return end.(ending := Thrown(false)), own; }
    own := own + [at];
    forall row ensures ApplyWrites(row, start.writes + [w]) == ApplyWrite(ApplyWrites(row, start.writes), w) {
      WritesAppend(row, start.writes, w);
    }
    var dies: bool := *;
    end := end.(writes := start.writes + [w], ending := if dies then Died else Returned);
  }

  /** Flushes every queue and records a boundary that did not drain. */
  method FlushBoundary(db: Database, runId: Id, start: HookReport, snapshots: bool, batchSize: int, maxAttempts: int)
    returns (end: HookReport, remaining: nat, ghost own: seq<nat>, ghost drains: Drains)
    requires db.Valid() && runId in db.tables.runs
    requires start.flush.NoFlush? && start.writes == [] && Flushes(start.event)
    modifies db
    ensures db.Valid() && old(db.acts) <= db.acts && db.foreign <= old(db.foreign) && runId in db.tables.runs
    ensures end == start.(flush := end.flush, ending := end.ending, writes := end.writes) && end.ending != Thrown(true)
    ensures end.writes == [] || (end.flush.FlushNotDrained? && end.writes == [Failed])
    ensures Placed(runId, db.acts, |old(db.acts)|, end.writes, own)
    ensures end.ending.Returned? ==> !end.flush.NoFlush? && (end.flush.FlushNotDrained? ==> end.writes == [Failed])
    ensures end.flush.FlushDrained? ==> remaining == 0
    ensures db.foreign == old(db.foreign) ==> db.tables.runs[runId] == ApplyWrites(old(db.tables.runs[runId]), end.writes)
    ensures end.ending.Returned? && end.flush.FlushNotDrained? ==> db.tables.runs[runId].flushEverFailed
    ensures end.flush.FlushDrained? ==> EverythingDelivered(old(db.tables), db.log)
    ensures db.foreign == old(db.foreign) && !end.flush.NoFlush? ==>
              && (end.flush.FlushDrained? <==> NothingPending(db.tables))
              && Boundary(old(db.tables), old(db.log), db.tables, db.log, drains, Settings(true, snapshots, batchSize, maxAttempts))
  {
    hide Database.Valid, RowAt, Placed, EverythingDelivered, NothingPending, IsFlush, AfterFlush, SentBy, StoodAt, Keeps;
    WritesAppend(db.tables.runs[runId], [], Failed);
    RowNow(db, runId);
    StandsNow(db);
    ghost var began, tables, log := db.acts, db.tables, db.log;
    remaining, own, drains := 0, [], Drains([], [], []);
    var outbox := new SqliteOutbox(db);
    var evidence := new SqliteEvidenceDocuments(db);
    var flusher := new Flush.Flusher(db, outbox, evidence, true, snapshots, batchSize, maxAttempts);
    var result;
    ghost var cause;
    result, cause, drains := flusher.Flush();
    RowStays(db, began, runId);
    PlaceNothing(runId, db.acts, |began|);
    if result.Threw? { return start.(ending := Thrown(false)), 0, own, drains; }
    remaining := result.value.remaining;
    var drained := result.value.outcome.Drained?;
    if drained { WithEvidence(flusher, tables, db.log); }
    if db.foreign == old(db.foreign) { EmptyTotal(flusher, db.tables); }
    end := start.(flush := if drained then FlushDrained else FlushNotDrained, ending := Returned);
    var dies: bool := *;
    if dies { return end.(ending := Died), remaining, own, drains; }
    if !drained {
      ghost var flushed, after := |db.acts|, db.tables;
      end, own := MarkBoundary(db, runId, end);
      if db.foreign == old(db.foreign) { StillNothingPending(after, db.tables); }
      PlacedStays(runId, db.acts, db.acts, flushed, |began|, end.writes, own);
    }
  }

  lemma WithEvidence(flusher: Flush.Flusher, t: Tables, log: seq<Exchange>)
    requires flusher.hasEvidence && flusher.AllFlushed(t, log)
    ensures EverythingDelivered(t, log)
  {
    hide AllDelivered;
  }

  lemma EmptyTotal(flusher: Flush.Flusher, t: Tables)
    requires flusher.hasEvidence
    ensures flusher.Total(t) == 0 <==> NothingPending(t)
  {
    hide Pending;
    EmptyMap(Pending(t, Events));
    EmptyMap(Pending(t, Observations));
    EmptyMap(Pending(t, Snapshots));
    if flusher.Total(t) == 0 {
      forall q: Queue ensures Pending(t, q) == map[] {
        match q
        case Events =>
        case Observations =>
        case Snapshots =>
      }
    }
  }

  lemma StillNothingPending(t: Tables, u: Tables)
    requires SameQueues(t, u)
    ensures NothingPending(t) <==> NothingPending(u)
  {
    hide Pending;
    SameQueuesPending(t, u);
  }

  lemma OwedBeforeFinish(r: HookReport)
    ensures var failed := if r.flush.FlushNotDrained? then [Failed] else [];
            failed <= FullWrites(r) && (!FinishesRun(r.event) ==> FullWrites(r) == failed)
  {
  }

  /** A boundary from its flush to its last write. */
  method CloseBoundary(db: Database, runId: Id, start: HookReport, snapshots: bool, batchSize: int, maxAttempts: int)
    returns (end: HookReport, ghost own: seq<nat>, ghost drains: Drains)
    requires db.Valid() && runId in db.tables.runs
    requires start.flush.NoFlush? && start.writes == [] && Flushes(start.event)
    modifies db
    ensures db.Valid() && old(db.acts) <= db.acts && db.foreign <= old(db.foreign) && runId in db.tables.runs
    ensures end.event == start.event && end.failedAtStart == start.failedAtStart && end.reachableAtStart == start.reachableAtStart
    ensures end.ending != Thrown(true) && end.writes <= FullWrites(end)
    ensures Placed(runId, db.acts, |old(db.acts)|, end.writes, own)
    ensures end.ending.Returned? ==> end.writes == FullWrites(end) && !end.flush.NoFlush?
    ensures db.foreign == old(db.foreign) ==> db.tables.runs[runId] == ApplyWrites(old(db.tables.runs[runId]), end.writes)
    ensures end.ending.Returned? && end.flush.FlushNotDrained? ==> db.tables.runs[runId].flushEverFailed
    ensures end.flush.FlushDrained? ==> EverythingDelivered(old(db.tables), db.log)
    ensures db.foreign == old(db.foreign) && !end.flush.NoFlush? ==>
              && (end.flush.FlushDrained? <==> NothingPending(db.tables))
              && Boundary(old(db.tables), old(db.log), db.tables, db.log, drains, Settings(true, snapshots, batchSize, maxAttempts))
  {
    hide Database.Valid, RowAt, Placed, Boundary, EverythingDelivered, NothingPending, StoodAt, Keeps, SameQueues, FullWrites, ApplyWrites;
    WritesAppend(db.tables.runs[runId], [], Failed);
    ghost var began, before, log := |db.acts|, db.tables, db.log;
    var remaining;
    end, remaining, own, drains := FlushBoundary(db, runId, start, snapshots, batchSize, maxAttempts);
    OwedBeforeFinish(end);
    if !end.ending.Returned? || !FinishesRun(start.event) { return; }
    StandsNow(db);
    ghost var flushed, after, heard := db.acts, db.tables, db.log;
    end, own := FinishBoundary(db, runId, end, remaining, end.flush.FlushNotDrained?, began, own);
    KeptSince(db, flushed, after, heard);
    if end.flush.FlushDrained? { EverythingDeliveredStays(before, heard, db.log); }
    if db.foreign == old(db.foreign) {
      StillNothingPending(after, db.tables);
      BoundaryStays(before, log, after, db.tables, db.log, drains, Settings(true, snapshots, batchSize, maxAttempts));
    }
  }

  /** The part inside the try block, once the run is known. */
  method Deliver(db: Database, runId: Id, start: HookReport, emissions: seq<Item>, snapshots: bool, batchSize: int, maxAttempts: int)
    returns (end: HookReport, ghost own: seq<nat>, ghost drains: Drains)
    requires db.Valid() && runId in db.tables.runs
    requires start.flush.NoFlush? && start.writes == [] && forall i :: 0 <= i < |emissions| ==> emissions[i].Event?
    modifies db
    ensures db.Valid() && old(db.acts) <= db.acts && db.foreign <= old(db.foreign) && runId in db.tables.runs
    ensures end.event == start.event && end.failedAtStart == start.failedAtStart && end.reachableAtStart == start.reachableAtStart
    ensures end.ending != Thrown(true) && (Flushes(end.event) || end.flush.NoFlush?)
    ensures end.writes <= FullWrites(end)
    ensures Placed(runId, db.acts, |old(db.acts)|, end.writes, own)
    ensures end.ending.Returned? ==> end.writes == FullWrites(end) && (Flushes(end.event) ==> !end.flush.NoFlush?)
    ensures db.foreign == old(db.foreign) ==> db.tables.runs[runId] == ApplyWrites(old(db.tables.runs[runId]), end.writes)
    ensures end.ending.Returned? && end.flush.FlushNotDrained? ==> db.tables.runs[runId].flushEverFailed
    ensures end.ending.Returned? ==> AllRecorded(db.tables, emissions) && Appended(db.acts, |old(db.acts)|, runId, emissions)
    ensures end.flush.FlushDrained? ==> EverythingDelivered(old(db.tables), db.log) && EmissionsDelivered(db.tables, db.log, emissions)
    ensures db.foreign == old(db.foreign) && !end.flush.NoFlush? ==>
              && (end.flush.FlushDrained? <==> NothingPending(db.tables))
              && Boundary(AppendAll(old(db.tables), runId, emissions), old(db.log), db.tables, db.log, drains, Settings(true, snapshots, batchSize, maxAttempts))
    ensures db.foreign == old(db.foreign) && end.flush.NoFlush? && end.ending.Returned? ==>
              SameQueues(AppendAll(old(db.tables), runId, emissions), db.tables) && db.log == old(db.log)
  {
    hide Database.Valid, RowAt, AllRecorded, RecordedAt, Placed, Appended, AppendAll, Boundary, EverythingDelivered,
      EmissionsDelivered, NothingPending, StoodAt, Keeps, FullWrites;
    NothingOwed(start);
    WritesAppend(db.tables.runs[runId], [], Failed);
    RowNow(db, runId);
    ghost var began, before := db.acts, db.tables;
    drains := Drains([], [], []);
    var emitted := EmitAll(db, runId, emissions);
    RowStays(db, began, runId);
    own := [];
    PlaceNothing(runId, db.acts, |began|);
    if !emitted.Returned? { NothingOwed(start.(ending := emitted)); return start.(ending := emitted), own, drains; }
    if !Flushes(start.event) { NothingOwed(start.(ending := Returned)); return start.(ending := Returned), own, drains; }
    RecordedNow(db, emissions);
    StandsNow(db);
    ghost var sent, tables, log := db.acts, db.tables, db.log;
    end, own, drains := CloseBoundary(db, runId, start, snapshots, batchSize, maxAttempts);
    PlacedStays(runId, db.acts, db.acts, |sent|, |began|, end.writes, own);
    KeptSince(db, sent, tables, log);
    if end.flush.FlushDrained? {
      EmissionsAmongAll(tables, db.tables, db.log, emissions);
      EverythingDeliveredSince(before, tables, db.log, db.log);
    }
    RecordedStay(db, sent, emissions);
    AppendedStays(sent, db.acts, |began|, runId, emissions);
  }

  lemma NothingOwed(r: HookReport)
    requires r.flush.NoFlush?
    ensures FullWrites(r) == []
  {
  }

  lemma EverythingDeliveredStays(t: Tables, log: seq<Exchange>, more: seq<Exchange>)
    requires log <= more && EverythingDelivered(t, log)
    ensures EverythingDelivered(t, more)
  {
    KeepsTransitive(t, t, t);
    EverythingDeliveredSince(t, t, log, more);
  }

  /** The try block and the catch block, for a run that was found. */
  method HandleEvent(db: Database, event: HookEvent, runId: Id, row: RunRow, emissions: seq<Item>, snapshots: bool, batchSize: int, maxAttempts: int)
    returns (report: HookReport, ghost own: seq<nat>, ghost drains: Drains)
    requires db.Valid() && runId in db.tables.runs && row == db.tables.runs[runId]
    requires forall i :: 0 <= i < |emissions| ==> emissions[i].Event?
    modifies db
    ensures db.Valid() && old(db.acts) <= db.acts && db.foreign <= old(db.foreign) && runId in db.tables.runs
    ensures Lawful(report) && report.event == event
    ensures report.failedAtStart == row.flushEverFailed && report.reachableAtStart == row.reachableAtStart
    ensures Placed(runId, db.acts, |old(db.acts)|, report.writes, own)
    ensures db.foreign == old(db.foreign) ==> db.tables.runs[runId] == ApplyWrites(row, report.writes)
    ensures report.ending == Thrown(true) || (report.ending.Returned? && report.flush.FlushNotDrained?) ==> db.tables.runs[runId].flushEverFailed
    ensures report.ending.Returned? ==> AllRecorded(db.tables, emissions) && Appended(db.acts, |old(db.acts)|, runId, emissions)
    ensures report.flush.FlushDrained? ==> EverythingDelivered(old(db.tables), db.log) && EmissionsDelivered(db.tables, db.log, emissions)
    ensures db.foreign == old(db.foreign) && !report.flush.NoFlush? ==>
              && (report.flush.FlushDrained? <==> NothingPending(db.tables))
              && Boundary(AppendAll(old(db.tables), runId, emissions), old(db.log), db.tables, db.log, drains, Settings(true, snapshots, batchSize, maxAttempts))
    ensures db.foreign == old(db.foreign) && report.flush.NoFlush? && report.ending.Returned? ==>
              SameQueues(AppendAll(old(db.tables), runId, emissions), db.tables) && db.log == old(db.log)
  {
    hide Database.Valid, RowAt, Lawful, AllRecorded, Placed, Appended, AppendAll, Boundary, EverythingDelivered,
      EmissionsDelivered, NothingPending, StoodAt, Keeps, SameQueues, FullWrites, ApplyWrites;
    ghost var began, start, log := db.acts, db.tables, db.log;
    RowNow(db, runId);
    report, own, drains := Deliver(db, runId, HookReport(event, row.flushEverFailed, row.reachableAtStart, NoFlush, Returned, [], []),
                                   emissions, snapshots, batchSize, maxAttempts);
    if report.ending.Thrown? {
      StandsNow(db);
      ghost var acts, after, heard := db.acts, db.tables, db.log;
      report, own := HandleError(db, runId, row, report, began, own);
      KeptSince(db, acts, after, heard);
      if report.flush.FlushDrained? {
        EmissionsStayDelivered(after, db.tables, heard, db.log, emissions);
        EverythingDeliveredStays(start, heard, db.log);
      }
      if db.foreign == old(db.foreign) {
        StillNothingPending(after, db.tables);
        BoundaryStays(AppendAll(start, runId, emissions), log, after, db.tables, db.log, drains, Settings(true, snapshots, batchSize, maxAttempts));
      }
    } else {
      QuietLawful(report);
    }
  }

  /**
   * One hook process from start to end. `None`: it never reached a run, and wrote to none.
   */
  method RunHook(db: Database, parsed: bool, event: HookEvent, sessionKey: Id, candidate: Id, declared: Option<JsString>,
                 emissions: seq<Item>, snapshots: bool, batchSize: int, maxAttempts: int)
    returns (exitCode: int, reached: Option<(Id, HookReport)>, ghost began: seq<Act>, ghost own: seq<nat>, ghost drains: Drains)
    requires db.Valid() && forall i :: 0 <= i < |emissions| ==> emissions[i].Event?
    modifies db
    ensures db.Valid() && old(db.acts) <= db.acts && db.foreign <= old(db.foreign)
    ensures reached.Some? ==> reached.value.0 in db.tables.runs && Lawful(reached.value.1) && reached.value.1.event == event
    ensures reached.Some? ==>
              && |old(db.acts)| <= |began| && began <= db.acts
              && Saw(db.initial, began, reached.value.0, sessionKey, reached.value.1)
              && Placed(reached.value.0, db.acts, |began|, reached.value.1.writes, own)
    ensures reached.Some? && db.foreign == old(db.foreign) ==>
              var row := StartingRow(old(db.tables), reached.value.0, sessionKey, declared == Some(Ascii("true")));
              && row.sessionKey == Some(sessionKey)
              && reached.value.1.failedAtStart == row.flushEverFailed
              && reached.value.1.reachableAtStart == row.reachableAtStart
              && db.tables.runs[reached.value.0] == ApplyWrites(row, reached.value.1.writes)
    ensures reached.Some? && (reached.value.1.ending == Thrown(true) || (reached.value.1.ending.Returned? && reached.value.1.flush.FlushNotDrained?)) ==>
              db.tables.runs[reached.value.0].flushEverFailed
    ensures reached.Some? && reached.value.1.ending.Returned? ==>
              AllRecorded(db.tables, emissions) && Appended(db.acts, |began|, reached.value.0, emissions)
    ensures reached.Some? ==>
              (exitCode == 0 <==>
                && reached.value.1.ending.Returned? && !reached.value.1.flush.FlushNotDrained?
                && (event.SessionEnd? ==> !reached.value.1.failedAtStart))
    ensures reached.Some? && exitCode == 0 && (event.Stop? || event.SessionEnd?) ==> reached.value.1.flush.FlushDrained?
    ensures exitCode == 0 && event.SessionStart? ==> reached.Some?
    ensures reached.Some? && reached.value.1.flush.FlushDrained? ==>
              EverythingDelivered(old(db.tables), db.log) && EmissionsDelivered(db.tables, db.log, emissions)
    ensures reached.Some? && db.foreign == old(db.foreign) && !reached.value.1.flush.NoFlush? ==>
              && (reached.value.1.flush.FlushDrained? <==> NothingPending(db.tables))
              && Boundary(AppendAll(old(db.tables), reached.value.0, emissions), old(db.log), db.tables, db.log, drains,
                          Settings(true, snapshots, batchSize, maxAttempts))
    ensures reached.Some? && db.foreign == old(db.foreign) && reached.value.1.flush.NoFlush? && reached.value.1.ending.Returned? ==>
              SameQueues(AppendAll(old(db.tables), reached.value.0, emissions), db.tables) && db.log == old(db.log)
    ensures reached.None? && db.foreign == old(db.foreign) ==>
              forall id :: id in old(db.tables.runs) ==> id in db.tables.runs && db.tables.runs[id] == old(db.tables.runs)[id]
  {
    hide Database.Valid, RowAt, StartingRow, Lawful, AllRecorded, Placed, Appended, AppendAll, Boundary, EverythingDelivered,
      EmissionsDelivered, NothingPending, StoodAt, Keeps, SameQueues, FullWrites, ApplyWrites;
    reached, began, own, drains := None, db.acts, [], Drains([], [], []);
    exitCode := 1;
    var fails: bool := *;
    if !parsed || fails { return; }
    StandsNow(db);
    ghost var start, log := db.tables, db.log;
    var session;
    session, exitCode := FindRun(db, event, sessionKey, candidate, declared);
    if session.None? { return; }
    var runId := session.value;
    var row := db.tables.runs[runId];
    RowNow(db, runId);
    KeptSince(db, began, start, log);
    began := db.acts;
    ghost var found := db.tables;
    var report;
    report, own, drains := HandleEvent(db, event, runId, row, emissions, snapshots, batchSize, maxAttempts);
    if report.flush.FlushDrained? { EverythingDeliveredSince(start, found, db.log, db.log); }
    if db.foreign == old(db.foreign) { FromTheStart(start, found, runId, emissions, log, db.tables, db.log, drains, Settings(true, snapshots, batchSize, maxAttempts)); }
    reached := Some((runId, report));
    exitCode := if !report.ending.Returned? || report.flush.FlushNotDrained? || (FinishesRun(event) && row.flushEverFailed) then 1 else 0;
    if exitCode == 0 { ReturnedFlushed(report); }
  }

  lemma ReturnedFlushed(r: HookReport)
    requires Lawful(r) && r.ending.Returned?
    ensures Flushes(r.event) ==> !r.flush.NoFlush?
  {
  }

  /** What happened to the runs before the emissions does not show in the queues. */
  lemma FromTheStart(start: Tables, found: Tables, runId: Id, emissions: seq<Item>, log: seq<Exchange>, u: Tables, more: seq<Exchange>, ds: Drains, o: Settings)
    requires SameQueues(start, found) && forall i :: 0 <= i < |emissions| ==> emissions[i].Event?
    ensures Boundary(AppendAll(found, runId, emissions), log, u, more, ds, o) ==> Boundary(AppendAll(start, runId, emissions), log, u, more, ds, o)
    ensures SameQueues(AppendAll(found, runId, emissions), u) ==> SameQueues(AppendAll(start, runId, emissions), u)
  {
    hide Boundary, AppendAll;
    AppendAllIgnoresRuns(start, found.runs, runId, emissions);
    if Boundary(AppendAll(found, runId, emissions), log, u, more, ds, o) {
      BoundaryIgnoresRuns(AppendAll(start, runId, emissions), AppendAll(found, runId, emissions), log, u, more, ds, o);
    }
  }

  lemma BoundaryStays(t: Tables, log: seq<Exchange>, u: Tables, v: Tables, more: seq<Exchange>, ds: Drains, o: Settings)
    requires SameQueues(u, v)
    ensures Boundary(t, log, u, more, ds, o) ==> Boundary(t, log, v, more, ds, o)
  {
    hide IsFlush, AfterFlush;
  }

  /** What each kind of event makes of an invocation. */
  lemma {:induction false} EventDecides(r: HookReport)
    requires Lawful(r)
    ensures r.event.SessionStart? || r.event.PostToolUse? ==> r.flush.NoFlush? && forall w :: w in r.writes ==> w == Failed
    ensures r.event.Stop? ==> forall w :: w in r.writes ==> w == Failed
    ensures (r.event.Stop? || r.event.SessionEnd?) && r.ending.Returned? ==> !r.flush.NoFlush?
    ensures r.event.SessionEnd? && r.ending.Returned? ==>
              var complete := r.flush.FlushDrained? && !r.failedAtStart;
              r.writes != [] && r.writes[|r.writes| - 1] == Finished(complete, complete && r.reachableAtStart, !complete, r.endedAt)
    ensures r.ending.Returned? && !r.event.SessionEnd? ==> r.writes == if r.flush.FlushNotDrained? then [Failed] else []
  {
    forall w | w in r.writes ensures w == Failed || r.event.SessionEnd? { LawfulWrite(r, w); }
  }

  /** The row of its session that an invocation read, from which its report starts. */
  ghost predicate Saw(s: Site, began: seq<Act>, runId: Id, sessionKey: Id, r: HookReport) {
    RowAt(s, began, runId).Some? && var row := RowAt(s, began, runId).value;
    row.sessionKey == Some(sessionKey) && row.flushEverFailed == r.failedAtStart && row.reachableAtStart == r.reachableAtStart
  }

  lemma QuietLawful(r: HookReport)
    requires !r.ending.Thrown? && r.writes <= FullWrites(r) && (Flushes(r.event) || r.flush.NoFlush?)
    requires r.ending.Returned? ==> r.writes == FullWrites(r) && (Flushes(r.event) ==> !r.flush.NoFlush?)
    ensures Lawful(r)
  {
  }

  /** Opens the database and finds the session's run, beginning one at a session start. */
  method FindRun(db: Database, event: HookEvent, sessionKey: Id, candidate: Id, declared: Option<JsString>)
    returns (session: Option<Id>, exitCode: int)
    requires db.Valid()
    modifies db
    ensures db.Valid() && old(db.acts) <= db.acts && db.foreign <= old(db.foreign)
    ensures session.Some? ==> session.value in db.tables.runs && db.tables.runs[session.value].sessionKey == Some(sessionKey)
    ensures session.Some? && db.foreign == old(db.foreign) ==>
              db.tables.runs[session.value] == StartingRow(old(db.tables), session.value, sessionKey, declared == Some(Ascii("true")))
    ensures session.None? && db.foreign == old(db.foreign) ==>
              && (forall id :: id in old(db.tables.runs) ==> id in db.tables.runs && db.tables.runs[id] == old(db.tables.runs)[id])
              && (forall id :: id in old(db.tables.runs) ==> old(db.tables.runs)[id].sessionKey != Some(sessionKey))
    ensures session.None? ==> (exitCode == 0 <==> !event.SessionStart?)
    ensures db.foreign == old(db.foreign) ==> SameQueues(old(db.tables), db.tables) && db.log == old(db.log)
  {
    hide Database.Valid, Upgrade;
    exitCode := 1;
    OpensUnchanged(db);
    db.Perform(Open);
    var runs := new SqliteRunStateStore(db);
    db.Interleave();
    session := runs.ForSession(sessionKey);
    if session.None? {
      if !StartsRun(event) { exitCode := 0; return; }
      var begun := runs.BeginRun(candidate, DecideReachability(declared), Some(sessionKey));
      if !begun { return; }
      session := runs.ForSession(sessionKey);
    }
  }

  /** The catch block: persist the failure if that is still possible. */
  method HandleError(db: Database, runId: Id, ghost row: RunRow, report: HookReport, ghost began: seq<Act>, ghost placed: seq<nat>)
    returns (end: HookReport, ghost own: seq<nat>)
    requires db.Valid() && began <= db.acts && RowAt(db.initial, began, runId).Some?
    requires report.ending == Thrown(false) && report.writes <= FullWrites(report) && (Flushes(report.event) || report.flush.NoFlush?)
    requires Placed(runId, db.acts, |began|, report.writes, placed)
    modifies db
    ensures db.Valid() && old(db.acts) <= db.acts && db.foreign <= old(db.foreign) && runId in db.tables.runs
    ensures end == report.(ending := end.ending, writes := end.writes) && end.ending.Thrown? && Lawful(end)
    ensures end.ending.marked ==> db.tables.runs[runId].flushEverFailed
    ensures Placed(runId, db.acts, |began|, end.writes, own)
    ensures db.foreign == old(db.foreign) && runId in old(db.tables.runs) && old(db.tables.runs[runId]) == ApplyWrites(row, report.writes) ==>
              db.tables.runs[runId] == ApplyWrites(row, end.writes)
    ensures db.foreign == old(db.foreign) ==> SameQueues(old(db.tables), db.tables) && db.log == old(db.log)
  {
    hide Database.Valid, RowAt, Lawful, FullWrites, Placed;
    var runs := new SqliteRunStateStore(db);
    ghost var acts := db.acts;
    db.Interleave();
    RowStays(db, began, runId);
    own := placed;
    PlacedStays(runId, acts, db.acts, |began|, |began|, report.writes, own);
    PlaceOne(runId, db.acts, |began|, report.writes, own, Act.MarkFlushFailed(runId), Failed);
    ghost var at := |db.acts|;
    var marked := runs.MarkFlushFailed(runId);
    WritesAppend(row, report.writes, Failed);
    ThrownLawful(report);
    if marked { own := own + [at]; }
    end := if marked then report.(ending := Thrown(true), writes := report.writes + [Failed]) else report;
  }

  lemma ThrownLawful(r: HookReport)
    requires r.ending == Thrown(false) && r.writes <= FullWrites(r) && (Flushes(r.event) || r.flush.NoFlush?)
    ensures Lawful(r) && Lawful(r.(ending := Thrown(true), writes := r.writes + [Failed]))
  {
    var k := |r.writes|;
    assert r.writes == FullWrites(r)[..k] && r.writes + [] == r.writes;
    var m := r.(ending := Thrown(true), writes := r.writes + [Failed]);
    assert m.writes == FullWrites(m)[..k] + [Failed];
  }

  // --- a run, as the sequence of invocations that reached it ----------------------------

  ghost predicate OfRun(row: RunRow, reports: seq<HookReport>) {
    forall i :: 0 <= i < |reports| ==> Lawful(reports[i]) && reports[i].reachableAtStart == row.reachableAtStart
  }

  /** One after another: each starts from the row the one before it left. */
  ghost predicate Chained(row: RunRow, reports: seq<HookReport>) {
    && OfRun(row, reports)
    && forall i :: 0 <= i < |reports| ==> reports[i].failedAtStart == RowAfter(row, reports[..i]).flushEverFailed
  }

  function AllWrites(reports: seq<HookReport>): seq<RunWrite> {
    if reports == [] then [] else AllWrites(reports[..|reports| - 1]) + reports[|reports| - 1].writes
  }

  function RowAfter(row: RunRow, reports: seq<HookReport>): RunRow {
    ApplyWrites(row, AllWrites(reports))
  }

  lemma {:induction false} WritesConcat(row: RunRow, a: seq<RunWrite>, b: seq<RunWrite>)
    ensures ApplyWrites(row, a + b) == ApplyWrites(ApplyWrites(row, a), b)
  {
    if b == [] {
      assert a + b == a;
    } else {
      WritesConcat(row, a, b[..|b| - 1]);
      assert (a + b)[..|a + b| - 1] == a + b[..|b| - 1];
    }
  }

  /** Some invocation wrote the terminal row. */
  ghost predicate SomeFinish(reports: seq<HookReport>) {
    exists i :: 0 <= i < |reports| && LastFinish(reports[i].writes).Some?
  }

  /** Some invocation managed to persist a failure. */
  ghost predicate SomePersistedFailure(reports: seq<HookReport>) {
    exists i :: 0 <= i < |reports| && AnyFailure(reports[i].writes)
  }

  /** A finish that a hook writes claims completeness exactly when it does not fail the run. */
  ghost predicate Honest(w: RunWrite, reachableAtStart: bool) {
    w.Finished? ==> w.complete == !w.failedNow && w.eligible == (w.complete && reachableAtStart)
  }

  lemma LawfulWrite(r: HookReport, w: RunWrite)
    requires Lawful(r) && w in r.writes
    ensures w == Failed ||
            (FinishesRun(r.event) && w == Finished(Clean(r), Clean(r) && r.reachableAtStart, !Clean(r), r.endedAt))
  {
    if w !in FullWrites(r) && r.ending.Thrown? {
      var k :| 0 <= k <= |FullWrites(r)| && r.writes == FullWrites(r)[..k] + if r.ending.marked then [Failed] else [];
      assert w !in FullWrites(r)[..k];
    }
  }

  lemma LawfulFinish(r: HookReport)
    requires Lawful(r)
    ensures forall w :: w in r.writes ==> Honest(w, r.reachableAtStart)
    ensures LastFinish(r.writes).Some? ==> r.event.SessionEnd?
  {
    hide Lawful;
    forall w | w in r.writes ensures Honest(w, r.reachableAtStart) && (w.Finished? ==> r.event.SessionEnd?) {
      LawfulWrite(r, w);
    }
  }

  lemma FailureConcat(a: seq<RunWrite>, b: seq<RunWrite>)
    ensures AnyFailure(a + b) <==> AnyFailure(a) || AnyFailure(b)
  {
    var c := a + b;
    if AnyFailure(a) {
      var i :| 0 <= i < |a| && FailsRun(a[i]);
      assert FailsRun(c[i]);
    }
    if AnyFailure(b) {
      var i :| 0 <= i < |b| && FailsRun(b[i]);
      assert FailsRun(c[|a| + i]);
    }
  }

  lemma {:induction false} FinishConcat(a: seq<RunWrite>, b: seq<RunWrite>)
    ensures LastFinish(a + b) == if LastFinish(b).Some? then LastFinish(b) else LastFinish(a)
  {
    if b == [] {
      assert a + b == a;
    } else {
      FinishConcat(a, b[..|b| - 1]);
      assert (a + b)[..|a + b| - 1] == a + b[..|b| - 1];
    }
  }

  lemma {:induction false} WritesOfRun(reports: seq<HookReport>, reachableAtStart: bool)
    requires forall i :: 0 <= i < |reports| ==> Lawful(reports[i]) && reports[i].reachableAtStart == reachableAtStart
    ensures AnyFailure(AllWrites(reports)) <==> SomePersistedFailure(reports)
    ensures LastFinish(AllWrites(reports)).Some? <==> SomeFinish(reports)
    ensures LastFinish(AllWrites(reports)).Some? ==> Honest(LastFinish(AllWrites(reports)).value, reachableAtStart)
  {
    if reports != [] {
      var front, last := reports[..|reports| - 1], reports[|reports| - 1];
      WritesOfRun(front, reachableAtStart);
      FailureConcat(AllWrites(front), last.writes);
      FinishConcat(AllWrites(front), last.writes);
      LawfulFinish(last);
      SplitLast(reports);
    }
  }

  lemma SplitLast(reports: seq<HookReport>)
    requires reports != []
    ensures var front, last := reports[..|reports| - 1], reports[|reports| - 1];
            && (SomePersistedFailure(reports) <==> SomePersistedFailure(front) || AnyFailure(last.writes))
            && (SomeFinish(reports) <==> SomeFinish(front) || LastFinish(last.writes).Some?)
  {
    var front := reports[..|reports| - 1];
    assert forall i :: 0 <= i < |front| ==> front[i] == reports[i];
    if SomePersistedFailure(front) {
      var i :| 0 <= i < |front| && AnyFailure(front[i].writes);
      assert AnyFailure(reports[i].writes);
    }
    if SomeFinish(front) {
      var i :| 0 <= i < |front| && LastFinish(front[i].writes).Some?;
      assert LastFinish(reports[i].writes).Some?;
    }
  }

  lemma HonestFinishFails(ws: seq<RunWrite>)
    requires LastFinish(ws).Some? && LastFinish(ws).value.failedNow
    ensures AnyFailure(ws)
  {
    var i :| 0 <= i < |ws| && ws[i] == LastFinish(ws).value;
    assert FailsRun(ws[i]);
  }

  /**
   * What a finished or unfinished run reads, for every sequence of invocations,
   * including ones that threw or were killed anywhere: complete exactly when some
   * session end got to its final write and nobody persisted a failure.
   */
  lemma {:induction false} HookHistoryReads(row: RunRow, reports: seq<HookReport>)
    requires Untouched(row) && OfRun(row, reports)
    ensures var s := ToState(RowAfter(row, reports));
            && (s.complete <==> SomeFinish(reports) && !SomePersistedFailure(reports))
            && (s.eligible <==> s.complete && row.reachableAtStart)
            && (s.flushEverFailed <==> SomePersistedFailure(reports))
  {
    hide Lawful, AnyFailure, LastFinish, SomeFinish, SomePersistedFailure, AllWrites;
    var ws := AllWrites(reports);
    RowReads(row, ws);
    WritesOfRun(reports, row.reachableAtStart);
    if LastFinish(ws).Some? && LastFinish(ws).value.failedNow {
      HonestFinishFails(ws);
    }
  }

  /**
   * The invocation threw, or its flush ended without draining. With `cutShort`, a
   * boundary that was killed before its flush ended counts as well.
   */
  predicate WentWrong(r: HookReport, cutShort: bool) {
    r.ending.Thrown? || r.flush.FlushNotDrained? || (cutShort && Flushes(r.event) && r.flush.NoFlush?)
  }

  ghost predicate SomeWentWrong(reports: seq<HookReport>, cutShort: bool) {
    exists i :: 0 <= i < |reports| && WentWrong(reports[i], cutShort)
  }

  /**
   * Exactly when "complete" means what it says, a session end was finished, every flush
   * drained and nothing threw: always, except in a run where something went wrong, a
   * session end was finished, and no invocation persisted a failure.
   */
  lemma {:induction false} CompleteExactly(row: RunRow, reports: seq<HookReport>, cutShort: bool)
    requires Untouched(row) && Chained(row, reports)
    ensures (ToState(RowAfter(row, reports)).complete <==> SomeFinish(reports) && !SomeWentWrong(reports, cutShort))
       <==> (SomeFinish(reports) && SomeWentWrong(reports, cutShort) ==> SomePersistedFailure(reports))
  {
    hide Lawful, AnyFailure, LastFinish, SomeFinish, SomePersistedFailure;
    HookHistoryReads(row, reports);
    if !SomeWentWrong(reports, cutShort) {
      NothingWrongNothingFailed(row, reports, |reports|);
      assert reports[..|reports|] == reports;
    }
  }

  /**
   * How a failure is lost: by a kill, or by an exception whose mark could not be written
   * either; and if the flush did not drain, before the mark for that.
   */
  lemma {:induction false} LostExactly(r: HookReport)
    requires Lawful(r) && WentWrong(r, false)
    ensures !AnyFailure(r.writes) <==>
              && (r.ending.Died? || r.ending == Thrown(false))
              && (r.flush.FlushNotDrained? ==> r.writes == [])
              && (r.writes != [] ==> !r.failedAtStart)
  {
    if r.ending == Thrown(true) { assert FailsRun(r.writes[|r.writes| - 1]); }
    if r.writes != [] && (r.flush.FlushNotDrained? || r.failedAtStart) { assert FailsRun(r.writes[0]); }
    if AnyFailure(r.writes) {
      var i :| 0 <= i < |r.writes| && FailsRun(r.writes[i]);
      LawfulWrite(r, r.writes[i]);
    }
  }

  /** Nothing stopped this invocation from writing what it owed. */
  predicate Persisted(r: HookReport) { r.ending.Returned? || r.ending == Thrown(true) }

  /** The boundary drained, if there was one, and nothing threw. */
  predicate WentWell(r: HookReport) { r.ending.Returned? && !r.flush.FlushNotDrained? }

  /**
   * When no invocation lost its failure, whatever was killed elsewhere, complete means
   * what it says. When none was cut off from writing what it owed, the session end
   * that was finished is one that returned.
   */
  lemma {:induction false} CompleteMeansClean(row: RunRow, reports: seq<HookReport>)
    requires Untouched(row) && Chained(row, reports)
    requires forall i :: 0 <= i < |reports| && WentWrong(reports[i], false) ==> AnyFailure(reports[i].writes)
    ensures ToState(RowAfter(row, reports)).complete <==> SomeFinish(reports) && !SomeWentWrong(reports, false)
    ensures (forall i :: 0 <= i < |reports| ==> Persisted(reports[i])) ==>
              (ToState(RowAfter(row, reports)).complete <==>
                && (exists i :: 0 <= i < |reports| && reports[i].event.SessionEnd? && reports[i].ending.Returned?)
                && (forall i :: 0 <= i < |reports| ==> WentWell(reports[i])))
  {
    hide Lawful, AnyFailure, LastFinish;
    CompleteExactly(row, reports, false);
    if SomeWentWrong(reports, false) {
      var i :| 0 <= i < |reports| && WentWrong(reports[i], false);
      assert AnyFailure(reports[i].writes);
    }
    if forall i :: 0 <= i < |reports| ==> Persisted(reports[i]) {
      forall i | 0 <= i < |reports|
        ensures LastFinish(reports[i].writes).Some? <==> reports[i].event.SessionEnd? && HasFlushed(reports[i])
      {
        PersistedWrites(reports[i]);
      }
      PersistedFinish(reports);
    }
  }

  lemma PersistedFinish(reports: seq<HookReport>)
    requires forall i :: 0 <= i < |reports| ==> Persisted(reports[i])
    requires forall i :: 0 <= i < |reports| ==>
               (LastFinish(reports[i].writes).Some? <==> reports[i].event.SessionEnd? && HasFlushed(reports[i]))
    ensures SomeFinish(reports) && !SomeWentWrong(reports, false) <==>
              && (exists i :: 0 <= i < |reports| && reports[i].event.SessionEnd? && reports[i].ending.Returned?)
              && (forall i :: 0 <= i < |reports| ==> WentWell(reports[i]))
  {
    hide LastFinish;
    if SomeFinish(reports) && !SomeWentWrong(reports, false) {
      var i :| 0 <= i < |reports| && LastFinish(reports[i].writes).Some?;
      assert !WentWrong(reports[i], false);
    }
    if (exists i :: 0 <= i < |reports| && reports[i].event.SessionEnd? && reports[i].ending.Returned?) {
      var i :| 0 <= i < |reports| && reports[i].event.SessionEnd? && reports[i].ending.Returned?;
      assert LastFinish(reports[i].writes).Some?;
    }
  }

  /** The terminal write happened. */
  ghost predicate HasFlushed(r: HookReport) {
    r.ending.Returned? || LastFinish(r.writes).Some?
  }

  lemma PersistedWrites(r: HookReport)
    requires Lawful(r) && Persisted(r)
    ensures WentWrong(r, false) ==> AnyFailure(r.writes)
    ensures LastFinish(r.writes).Some? <==> r.event.SessionEnd? && HasFlushed(r)
  {
    LawfulFinish(r);
    if r.ending.Returned? {
      if r.flush.FlushNotDrained? { assert FailsRun(r.writes[0]); }
      if r.event.SessionEnd? { assert r.writes[|r.writes| - 1].Finished?; }
    } else {
      assert FailsRun(r.writes[|r.writes| - 1]);
    }
  }

  lemma {:induction false} NothingWrongNothingFailed(row: RunRow, reports: seq<HookReport>, n: nat)
    requires Untouched(row) && Chained(row, reports) && n <= |reports|
    requires forall i :: 0 <= i < |reports| ==> !WentWrong(reports[i], false)
    ensures !RowAfter(row, reports[..n]).flushEverFailed
    ensures !SomePersistedFailure(reports[..n])
  {
    hide AnyFailure, SomePersistedFailure, Lawful, RowAfter;
    if n > 0 {
      NothingWrongNothingFailed(row, reports, n - 1);
      assert reports[..n][..n - 1] == reports[..n - 1];
      SplitLast(reports[..n]);
      CleanReport(reports[n - 1]);
      RowAfterOne(row, reports[..n]);
    } else {
      NoReports(row);
      assert reports[..0] == [];
    }
  }

  lemma NoReports(row: RunRow)
    ensures RowAfter(row, []) == row && !SomePersistedFailure([])
  {
  }

  /** An invocation in which nothing went wrong fails its run only for an earlier failure. */
  lemma CleanReport(r: HookReport)
    requires Lawful(r) && !WentWrong(r, false) && !r.failedAtStart
    ensures !AnyFailure(r.writes)
  {
    forall i | 0 <= i < |r.writes| ensures !FailsRun(r.writes[i]) { LawfulWrite(r, r.writes[i]); }
  }

  lemma RowAfterOne(row: RunRow, reports: seq<HookReport>)
    requires reports != [] && !AnyFailure(reports[|reports| - 1].writes)
    ensures RowAfter(row, reports).flushEverFailed == RowAfter(row, reports[..|reports| - 1]).flushEverFailed
  {
    var front, last := reports[..|reports| - 1], reports[|reports| - 1];
    WritesConcat(row, AllWrites(front), last.writes);
    CleanWrites(RowAfter(row, front), last.writes);
  }

  lemma {:induction false} CleanWrites(row: RunRow, ws: seq<RunWrite>)
    requires !AnyFailure(ws)
    ensures ApplyWrites(row, ws).flushEverFailed == row.flushEverFailed
  {
    if ws != [] {
      var front := ws[..|ws| - 1];
      assert forall i :: 0 <= i < |front| ==> front[i] == ws[i];
      assert !FailsRun(ws[|ws| - 1]);
      CleanWrites(row, front);
    }
  }

  /** A run that is killed before any session end is never complete. */
  lemma {:induction false} KilledEarlyIncomplete(row: RunRow, reports: seq<HookReport>)
    requires Untouched(row) && OfRun(row, reports)
    requires forall i :: 0 <= i < |reports| ==> !reports[i].event.SessionEnd?
    ensures !ToState(RowAfter(row, reports)).complete
  {
    HookHistoryReads(row, reports);
    forall i | 0 <= i < |reports| ensures LastFinish(reports[i].writes).None? { LawfulFinish(reports[i]); }
  }

  /**
   * The exception is real: a process killed between a boundary that did not drain and
   * the write that records it leaves no trace, and a later session end reads complete.
   */
  lemma {:induction false} KillLosesFailure()
    ensures var row := RunRow(None, false, false, true, false, None);
            var stop := HookReport(Stop, false, true, FlushNotDrained, Died, [], []);
            var end := HookReport(SessionEnd, false, true, FlushDrained, Returned, [], [Finished(true, true, false, [])]);
            && Untouched(row) && Chained(row, [stop, end])
            && SomeFinish([stop, end]) && SomeWentWrong([stop, end], false) && !SomePersistedFailure([stop, end])
            && ToState(RowAfter(row, [stop, end])).complete
  {
    hide LastFinish;
    var row := RunRow(None, false, false, true, false, None);
    var stop := HookReport(Stop, false, true, FlushNotDrained, Died, [], []);
    var end := HookReport(SessionEnd, false, true, FlushDrained, Returned, [], [Finished(true, true, false, [])]);
    var reports := [stop, end];
    assert reports[..0] == [] && reports[..1] == [stop];
    assert [stop][..0] == [];
    assert AllWrites([stop]) == [];
    assert WentWrong(reports[0], false);
    assert end.writes[0] in end.writes;
    assert LastFinish(reports[1].writes).Some?;
    HookHistoryReads(row, reports);
  }
}
