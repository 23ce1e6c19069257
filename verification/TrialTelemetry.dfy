/**
 * The final verdict on a trial's evidence, read out of the trial's database.
 */
module TrialTelemetry {
  import opened Wrappers
  import opened Text
  import opened Evidence
  import opened RunState
  import opened SqliteStores

  datatype Verdict = Verdict(
    reachableAtStart: bool, flushEverFailed: bool, eventsRemaining: nat, documentsRemaining: nat,
    complete: bool, eligible: bool, runId: Option<Id>, endedAt: Option<JsString>)

  const UNREADABLE: Verdict := Verdict(false, false, 0, 0, false, false, None, None)

  /**
   * `database` is the file's content, or `None` when there is no file or it cannot be
   * opened. Opening upgrades it first.
   */
  function ReadTrialTelemetry(database: Option<Tables>, runId: Id): Verdict {
    match database
    case None => UNREADABLE
    case Some(tables) =>
      var t := Upgrade(tables);
      if runId !in t.runs then UNREADABLE
      else
        var state := ToState(t.runs[runId]);
        var events := |Pending(t, Events)|;
        var documents := |Pending(t, Observations)| + |Pending(t, Snapshots)|;
        var allDrained := events == 0 && documents == 0;
        Verdict(state.reachableAtStart, state.flushEverFailed, events, documents, state.complete,
          state.eligible && state.complete && state.reachableAtStart && !state.flushEverFailed && allDrained,
          Some(runId), state.endedAt)
  }

  /**
   * Eligible means nothing was lost. For every interleaving of appends, stagings,
   * flushes, acknowledgements and run-state writes by any number of processes, with
   * any of them dying anywhere and the plane answering anything: if the verdict is
   * eligible, every event, observation and snapshot ever recorded, by any process,
   * was named in an accepted reply to a batch that contained it as recorded.
   */
  lemma {:induction false} EligibleMeansDelivered(s: Site, acts: seq<Act>, runId: Id, i: nat, q: Queue, item: Item)
    requires Initial(s) && Runnable(s, acts)
    requires ReadTrialTelemetry(Some(Run(s, acts).tables), runId).eligible
    requires i < |acts| && Records(acts[i], q, item) && item.id !in Recorded(Run(s, acts[..i]).tables, q)
    ensures Delivered(Run(s, acts).log, q, item)
  {
    hide Delivered, Run, Runnable, Initial;
    var now := Run(s, acts);
    EveryRunSafe(s, acts);
    OpenAgain(now.tables);
    RecordedForGood(s, acts, i, q, item);
    NothingPendingDelivered(now, q, item.id);
  }

  /** The same for what the database already held when the run of the system began. */
  lemma {:induction false} EligibleMeansQueueDelivered(s: Site, acts: seq<Act>, runId: Id, q: Queue, id: Id)
    requires Initial(s) && Runnable(s, acts)
    requires ReadTrialTelemetry(Some(Run(s, acts).tables), runId).eligible
    requires id in Recorded(s.tables, q)
    ensures Delivered(Run(s, acts).log, q, Recorded(s.tables, q)[id].item)
  {
    hide Delivered, Runnable, Initial;
    var now := Run(s, acts);
    EveryRunSafe(s, acts);
    OpenAgain(now.tables);
    RunKeeps(s, acts, 0);
    assert acts[..0] == [];
    NothingPendingDelivered(now, q, id);
  }

  /** Everything recorded for every queue has been acknowledged. */
  ghost predicate AllAcknowledged(t: Tables) {
    forall q: Queue, id :: id in Recorded(t, q) ==> Recorded(t, q)[id].acknowledged
  }

  lemma PendingIsUnacknowledged(t: Tables, q: Queue)
    requires Consistent(t)
    ensures Pending(t, q) == Unacknowledged(Recorded(t, q))
    ensures |Pending(t, q)| == 0 <==> forall id :: id in Recorded(t, q) ==> Recorded(t, q)[id].acknowledged
  {
    var rows := Recorded(t, q);
    assert Pending(t, q) == Unacknowledged(rows);
    assert forall id :: id in rows && !rows[id].acknowledged ==> id in Unacknowledged(rows).Keys;
    assert |Unacknowledged(rows)| == |Unacknowledged(rows).Keys|;
    if |Unacknowledged(rows)| != 0 {
      var id :| id in Unacknowledged(rows).Keys;
      assert id in rows;
    }
  }

  /** When a readable verdict is eligible, whatever led to the tables it was read from. */
  lemma EligibleReads(t: Tables, runId: Id)
    requires Consistent(t) && runId in t.runs
    ensures var st, v := ToState(t.runs[runId]), ReadTrialTelemetry(Some(t), runId);
            && (v.eligible <==> st.eligible && st.reachableAtStart && AllAcknowledged(t))
            && (v.complete <==> st.complete) && (v.flushEverFailed <==> st.flushEverFailed)
            && (v.reachableAtStart <==> st.reachableAtStart) && v.runId == Some(runId) && v.endedAt == st.endedAt
            && v.eventsRemaining == |Unacknowledged(t.history)|
            && v.documentsRemaining == |Unacknowledged(t.observations)| + |Unacknowledged(t.snapshots)|
  {
    hide Pending, Upgrade;
    OpenAgain(t);
    PendingIsUnacknowledged(t, Events);
    PendingIsUnacknowledged(t, Observations);
    PendingIsUnacknowledged(t, Snapshots);
    if |Pending(t, Events)| == 0 && |Pending(t, Observations)| == 0 && |Pending(t, Snapshots)| == 0 {
      forall q: Queue, id | id in Recorded(t, q) ensures Recorded(t, q)[id].acknowledged {
        match q
        case Events =>
        case Observations =>
        case Snapshots =>
      }
    }
  }

  /**
   * Exactly when the verdict is eligible, over the history of a run: it began with the
   * plane attested reachable, no write to it ever failed it, its last finish claimed
   * completeness and eligibility, and every row of every queue has been acknowledged.
   */
  lemma {:induction false} EligibleExactly(s: Site, acts: seq<Act>, i: nat, runId: Id)
    requires Initial(s) && Runnable(s, acts) && i <= |acts|
    requires runId in Run(s, acts[..i]).tables.runs && Untouched(Run(s, acts[..i]).tables.runs[runId])
    ensures var last := LastFinish(WritesTo(runId, acts[i..]));
            ReadTrialTelemetry(Some(Run(s, acts).tables), runId).eligible <==>
              && Run(s, acts[..i]).tables.runs[runId].reachableAtStart
              && !AnyFailure(WritesTo(runId, acts[i..]))
              && last.Some? && last.value.complete && last.value.eligible
              && AllAcknowledged(Run(s, acts).tables)
  {
    hide Runnable, Initial, AllAcknowledged, AnyFailure, LastFinish, WritesTo, ReadTrialTelemetry;
    EveryRunSafe(s, acts);
    RowIsItsWrites(s, acts, i, runId);
    RowReads(Run(s, acts[..i]).tables.runs[runId], WritesTo(runId, acts[i..]));
    EligibleReads(Run(s, acts).tables, runId);
  }

  /** The verdict on a live database: no queue row of any run is outstanding. */
  lemma {:induction false} EligibleDatabase(db: Database, runId: Id, q: Queue, id: Id)
    requires db.Valid() && ReadTrialTelemetry(Some(db.tables), runId).eligible
    requires id in Recorded(db.tables, q)
    ensures Delivered(db.log, q, Recorded(db.tables, q)[id].item)
  {
    StateConsistent(db);
    OpenAgain(db.tables);
    NothingPendingDelivered(Site(db.tables, db.log), q, id);
  }

  /** One count, with other processes free to act before it. Zero: what was recorded before has been delivered. */
  method Outstanding(db: Database, q: Queue) returns (n: nat)
    requires db.Valid()
    modifies db
    ensures db.Valid() && old(db.acts) <= db.acts && db.foreign <= old(db.foreign)
    ensures old(db.log) <= db.log && Keeps(old(db.tables), db.tables)
    ensures db.foreign == old(db.foreign) ==> db.tables == old(db.tables)
    ensures n == |Pending(db.tables, q)|
    ensures n == 0 ==> AllDelivered(old(db.tables), db.log, q)
  {
    hide Database.Valid, Keeps, AllDelivered, Pending;
    ghost var before := db.tables;
    db.Interleave();
    n := |Pending(db.tables, q)|;
    if n == 0 {
      EmptyMeansDelivered(db, q);
      DeliveredSince(before, db.tables, db.log, db.log, q);
    }
  }

  /**
   * The verdict as it is really read: run state, event queue and documents one after
   * the other, with other processes free to act in between. Eligible still means that
   * everything recorded before the first of the three reads was delivered.
   */
  method ReadLive(db: Database, runId: Id) returns (v: Verdict, ghost read: seq<Act>)
    requires db.Valid()
    modifies db
    ensures db.Valid() && old(db.acts) <= db.acts && db.foreign <= old(db.foreign)
    ensures db.foreign == old(db.foreign) ==> v == UNREADABLE || v == ReadTrialTelemetry(Some(old(db.tables)), runId)
    ensures v.eligible ==> forall q: Queue :: AllDelivered(old(db.tables), db.log, q)
    ensures v != UNREADABLE ==>
              && old(db.acts) <= read <= db.acts && RowAt(db.initial, read, runId).Some?
              && var st := ToState(RowAt(db.initial, read, runId).value);
              && v.reachableAtStart == st.reachableAtStart && v.flushEverFailed == st.flushEverFailed && v.complete == st.complete
              && (v.eligible <==> st.eligible && st.reachableAtStart && v.eventsRemaining == 0 && v.documentsRemaining == 0)
              && v.runId == Some(runId) && v.endedAt == st.endedAt
  {
    hide Database.Valid, Keeps, AllDelivered, Pending, Upgrade, RowAt;
    ghost var start := db.tables;
    KeepsTransitive(start, start, start);
    var openable: bool := *;
    read := db.acts;
    if !openable { return UNREADABLE, read; }
    OpensUnchanged(db);
    db.Perform(Open);
    db.Interleave();
    var readable: bool := *;
    if !readable || runId !in db.tables.runs { return UNREADABLE, read; }
    read := db.acts;
    RowNow(db, runId);
    var state := ToState(db.tables.runs[runId]);
    ghost var t1 := db.tables;
    var events := Outstanding(db, Events);
    ghost var log1, t2 := db.log, db.tables;
    var observations := Outstanding(db, Observations);
    ghost var log2, t3 := db.log, db.tables;
    var snapshots := Outstanding(db, Snapshots);
    var documents := observations + snapshots;
    var allDrained := events == 0 && documents == 0;
    v := Verdict(state.reachableAtStart, state.flushEverFailed, events, documents, state.complete,
                 state.eligible && state.complete && state.reachableAtStart && !state.flushEverFailed && allDrained, Some(runId),
                 state.endedAt);
    if v.eligible {
      KeepsChain(start, t1, t2, t3);
      NothingLost(start, t1, log1, t2, log2, t3, db.log);
    }
  }

  lemma NothingLost(start: Tables, t1: Tables, log1: seq<Exchange>, t2: Tables, log2: seq<Exchange>, t3: Tables, log: seq<Exchange>)
    requires Keeps(start, t1) && Keeps(start, t2) && Keeps(start, t3) && log1 <= log && log2 <= log
    requires AllDelivered(t1, log1, Events) && AllDelivered(t2, log2, Observations) && AllDelivered(t3, log, Snapshots)
    ensures forall q: Queue :: AllDelivered(start, log, q)
  {
    hide Keeps, AllDelivered;
    DeliveredSince(start, t1, log1, log, Events);
    DeliveredSince(start, t2, log2, log, Observations);
    DeliveredSince(start, t3, log, log, Snapshots);
    forall q: Queue ensures AllDelivered(start, log, q) {
      match q
      case Events =>
      case Observations =>
      case Snapshots =>
    }
  }

  lemma KeepsChain(a: Tables, b: Tables, c: Tables, d: Tables)
    requires Keeps(a, b) && Keeps(b, c) && Keeps(c, d)
    ensures Keeps(a, c) && Keeps(a, d)
  {
    hide Keeps;
    KeepsTransitive(a, b, c);
    KeepsTransitive(a, c, d);
  }
}
