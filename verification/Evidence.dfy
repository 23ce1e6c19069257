/**
 * The evidence tables, the transactions over them, and what any interleaving of
 * those transactions with an untrusted plane can lead to.
 *
 * Every SQL transaction is one act. A process that dies simply performs no further
 * act, so a run of the system is any sequence of enabled acts.
 */
module Evidence {
  import opened Wrappers
  import opened Text

  type Id = JsString

  /** What a decision was made from, as its context snapshot records it. */
  datatype SnapshotContent = SnapshotContent(
    repoSha: JsString, profileStatusDigest: JsString, changeScope: seq<JsString>, capabilitySnapshotHash: JsString,
    indexDigest: JsString, rankingMode: JsString, effectiveScoreViewId: JsString, eosRelease: JsString)

  /** What the three queues deliver. `body` is the payload nobody here looks into. */
  datatype Item =
    | Event(id: Id, runId: Id, installation: Id, emitter: Id, sequence: nat, body: JsString)
    | Observation(id: Id, runId: Id, queuedAt: JsString, body: JsString)
    | Snapshot(id: Id, runId: Id, content: SnapshotContent)

  datatype Queue = Events | Observations | Snapshots

  datatype Row = Row(item: Item, acknowledged: bool)

  datatype RunRow = RunRow(
    sessionKey: Option<Id>, complete: bool, eligible: bool, reachableAtStart: bool,
    flushEverFailed: bool, endedAt: Option<JsString>)

  /** One local database file. `outbox` holds only undelivered events, `history` all of them. */
  datatype Tables = Tables(
    outbox: map<Id, Item>, history: map<Id, Row>,
    observations: map<Id, Row>, snapshots: map<Id, Row>, runs: map<Id, RunRow>)

  predicate Belongs(q: Queue, item: Item) {
    match q
    case Events => item.Event?
    case Observations => item.Observation?
    case Snapshots => item.Snapshot?
  }

  /** Everything ever recorded for a queue, delivered or not. */
  function Recorded(t: Tables, q: Queue): map<Id, Row> {
    match q
    case Events => t.history
    case Observations => t.observations
    case Snapshots => t.snapshots
  }

  function Unacknowledged(rows: map<Id, Row>): map<Id, Item> {
    map id | id in rows && !rows[id].acknowledged :: rows[id].item
  }

  /** What a queue would still hand to a flush. */
  function Pending(t: Tables, q: Queue): map<Id, Item> {
    match q
    case Events => t.outbox
    case Observations => Unacknowledged(t.observations)
    case Snapshots => Unacknowledged(t.snapshots)
  }

  /** The outbox is exactly the unacknowledged part of history; rows sit under their own id. */
  ghost predicate Consistent(t: Tables) {
    t.outbox == Unacknowledged(t.history) && Keyed(t)
  }

  ghost predicate Keyed(t: Tables) {
    && KeyedRows(t.history, Events)
    && KeyedRows(t.observations, Observations)
    && KeyedRows(t.snapshots, Snapshots)
  }

  ghost predicate KeyedRows(rows: map<Id, Row>, q: Queue) {
    forall id :: id in rows ==> rows[id].item.id == id && Belongs(q, rows[id].item)
  }

  // --- transactions ---------------------------------------------------------------

  /** History decides whether an event is new; a queue row without history makes the insert fail. */
  function AppendEvent(t: Tables, e: Item): Tables {
    if e.id in t.history || e.id in t.outbox then t
    else t.(history := t.history[e.id := Row(e, false)], outbox := t.outbox[e.id := e])
  }

  function RecordOnce(rows: map<Id, Row>, item: Item): map<Id, Row> {
    if item.id in rows then rows else rows[item.id := Row(item, false)]
  }

  function Mark(rows: map<Id, Row>, ids: set<Id>): map<Id, Row> {
    map id | id in rows :: Row(rows[id].item, rows[id].acknowledged || id in ids)
  }

  function AcknowledgeAll(t: Tables, q: Queue, ids: set<Id>): Tables {
    match q
    case Events => t.(history := Mark(t.history, ids), outbox := t.outbox - ids)
    case Observations => t.(observations := Mark(t.observations, ids))
    case Snapshots => t.(snapshots := Mark(t.snapshots, ids))
  }

  /** `insert or ignore into event_history ... select ... from outbox`, on every open. */
  function Upgrade(t: Tables): Tables {
    t.(history := t.history + map id | id in t.outbox && id !in t.history :: Row(t.outbox[id], false))
  }

  function BeginRun(t: Tables, runId: Id, sessionKey: Option<Id>, reachable: bool): Tables {
    if runId in t.runs || (sessionKey.Some? && exists r :: r in t.runs && t.runs[r].sessionKey == sessionKey) then t
    else t.(runs := t.runs[runId := RunRow(sessionKey, false, false, reachable, false, None)])
  }

  function MarkRow(row: RunRow): RunRow {
    row.(flushEverFailed := true, complete := false, eligible := false)
  }

  function FinishRow(row: RunRow, complete: bool, eligible: bool, failedNow: bool, endedAt: JsString): RunRow {
    var failed := row.flushEverFailed || failedNow;
    row.(complete := !failed && complete, eligible := !failed && eligible,
         endedAt := Some(endedAt), flushEverFailed := failed)
  }

  function MarkFailed(t: Tables, runId: Id): Tables {
    if runId in t.runs then t.(runs := t.runs[runId := MarkRow(t.runs[runId])]) else t
  }

  function FinishRun(t: Tables, runId: Id, complete: bool, eligible: bool, failedNow: bool, endedAt: JsString): Tables {
    if runId in t.runs then
      t.(runs := t.runs[runId := FinishRow(t.runs[runId], complete, eligible, failedNow, endedAt)])
    else t
  }

  // --- the plane ---------------------------------------------------------------------

  datatype Reply = AcceptedIds(ids: seq<Id>) | RejectedReply | UnreachableReply

  /** One batch sent and whatever came back. The plane may answer anything at all. */
  datatype Exchange = Exchange(queue: Queue, items: seq<Item>, reply: Reply)

  datatype Site = Site(tables: Tables, log: seq<Exchange>)

  /** An accepted reply, to a batch containing this very item, named it. */
  predicate DeliveredBy(x: Exchange, q: Queue, item: Item) {
    x.queue == q && item in x.items && x.reply.AcceptedIds? && item.id in x.reply.ids
  }

  ghost predicate Delivered(log: seq<Exchange>, q: Queue, item: Item) {
    exists k :: 0 <= k < |log| && DeliveredBy(log[k], q, item)
  }

  datatype Act =
    | Append(event: Item)
    | Stage(document: Item)
    | Open
    | Send(exchange: Exchange)
    | Acknowledge(queue: Queue, ids: set<Id>)
    | Begin(runId: Id, sessionKey: Option<Id>, reachable: bool)
    | MarkFlushFailed(runId: Id)
    | Finish(runId: Id, complete: bool, eligible: bool, failedNow: bool, endedAt: JsString)

  /**
   * What a process may do next: send rows it read, and acknowledge ids that an
   * accepted reply named for a batch that contained them.
   */
  predicate Enabled(s: Site, a: Act) {
    match a
    case Append(e) => e.Event?
    case Stage(d) => !d.Event?
    case Send(x) =>
      forall i :: 0 <= i < |x.items| ==>
        x.items[i].id in Recorded(s.tables, x.queue) && Recorded(s.tables, x.queue)[x.items[i].id].item == x.items[i]
    case Acknowledge(q, ids) => forall id :: id in ids ==> Named(s.log, q, id)
    case _ => true
  }

  predicate Named(log: seq<Exchange>, q: Queue, id: Id) {
    exists k :: 0 <= k < |log| && exists i :: 0 <= i < |log[k].items| && log[k].items[i].id == id && DeliveredBy(log[k], q, log[k].items[i])
  }

  function Apply(s: Site, a: Act): Site {
    match a
    case Append(e) => s.(tables := AppendEvent(s.tables, e))
    case Stage(d) =>
      if d.Observation? then s.(tables := s.tables.(observations := RecordOnce(s.tables.observations, d)))
      else if d.Snapshot? then s.(tables := s.tables.(snapshots := RecordOnce(s.tables.snapshots, d)))
      else s
    case Open => s.(tables := Upgrade(s.tables))
    case Send(x) => s.(log := s.log + [x])
    case Acknowledge(q, ids) => s.(tables := AcknowledgeAll(s.tables, q, ids))
    case Begin(r, k, reachable) => s.(tables := BeginRun(s.tables, r, k, reachable))
    case MarkFlushFailed(r) => s.(tables := MarkFailed(s.tables, r))
    case Finish(r, c, e, f, at) => s.(tables := FinishRun(s.tables, r, c, e, f, at))
  }

  function Run(s: Site, acts: seq<Act>): Site {
    if acts == [] then s else Apply(Run(s, acts[..|acts| - 1]), acts[|acts| - 1])
  }

  predicate Runnable(s: Site, acts: seq<Act>) {
    acts == [] || (Runnable(s, acts[..|acts| - 1]) && Enabled(Run(s, acts[..|acts| - 1]), acts[|acts| - 1]))
  }

  /** A database before its first delivery, possibly one that predates the history table. */
  ghost predicate Initial(s: Site) {
    && s.log == []
    && Consistent(s.tables)
    && forall q: Queue, id :: id in Recorded(s.tables, q) ==> !Recorded(s.tables, q)[id].acknowledged
  }

  // --- opening ------------------------------------------------------------------------

  /**
   * Opening establishes consistency exactly when nothing acknowledged is queued,
   * nothing unacknowledged has left the queue, and the two tables agree on content.
   */
  lemma {:induction false} OpenExact(t: Tables)
    requires forall id :: id in t.outbox ==> t.outbox[id].id == id && t.outbox[id].Event?
    requires Keyed(t)
    ensures Consistent(Upgrade(t)) <==>
              && (forall id :: id in t.outbox && id in t.history ==> t.history[id] == Row(t.outbox[id], false))
              && (forall id :: id in t.history && !t.history[id].acknowledged ==> id in t.outbox)
  {
    var u := Upgrade(t);
    assert u.observations == t.observations && u.snapshots == t.snapshots;
    assert forall id :: id in u.history <==> id in t.history || id in t.outbox;
    assert forall id :: id in t.history ==> u.history[id] == t.history[id];
    assert forall id :: id in t.outbox && id !in t.history ==> u.history[id] == Row(t.outbox[id], false);
    if Consistent(u) {
      forall id | id in t.outbox && id in t.history ensures t.history[id] == Row(t.outbox[id], false) {
        assert id in Unacknowledged(u.history);
      }
      forall id | id in t.history && !t.history[id].acknowledged ensures id in t.outbox {
        assert id in Unacknowledged(u.history);
      }
    }
  }

  /** A database from before the history table: every queued event becomes history. */
  lemma OpenPreHistory(t: Tables)
    requires forall id :: id in t.outbox ==> t.outbox[id].id == id && t.outbox[id].Event?
    requires t.history == map[] && t.observations == map[] && t.snapshots == map[]
    ensures Initial(Site(Upgrade(t), []))
    ensures Upgrade(t).outbox == t.outbox && Upgrade(t).history.Keys == t.outbox.Keys
  {
    OpenExact(t);
  }

  // --- the invariant --------------------------------------------------------------------

  /** Every acknowledged row was delivered, and the log holds only rows as recorded. */
  ghost predicate Safe(s: Site) {
    Consistent(s.tables) && LogRecorded(s) && AcknowledgedDelivered(s)
  }

  predicate IsRecorded(t: Tables, q: Queue, item: Item) {
    item.id in Recorded(t, q) && Recorded(t, q)[item.id].item == item
  }

  /** Rows are never dropped or rewritten, and acknowledgement is never taken back. */
  ghost predicate Keeps(t: Tables, u: Tables) {
    forall q: Queue, id :: id in Recorded(t, q) ==>
      && id in Recorded(u, q) && Recorded(u, q)[id].item == Recorded(t, q)[id].item
      && (Recorded(t, q)[id].acknowledged ==> Recorded(u, q)[id].acknowledged)
  }

  lemma KeepsTransitive(a: Tables, b: Tables, c: Tables)
    ensures Keeps(a, a)
    ensures Keeps(a, b) && Keeps(b, c) ==> Keeps(a, c)
  {
    if Keeps(a, b) && Keeps(b, c) {
      forall q: Queue, id | id in Recorded(a, q)
        ensures id in Recorded(c, q) && Recorded(c, q)[id].item == Recorded(a, q)[id].item
        ensures Recorded(a, q)[id].acknowledged ==> Recorded(c, q)[id].acknowledged
      {
        assert id in Recorded(b, q);
      }
    }
  }

  lemma ActKeeps(s: Site, a: Act)
    ensures Keeps(s.tables, Apply(s, a).tables)
    ensures s.log <= Apply(s, a).log
  {
  }

  lemma AppendConsistent(t: Tables, e: Item)
    requires Consistent(t) && e.Event?
    ensures Consistent(AppendEvent(t, e))
  {
    var u := AppendEvent(t, e);
    if u != t { assert Unacknowledged(u.history) == t.outbox[e.id := e]; }
  }

  lemma AcknowledgeConsistent(t: Tables, q: Queue, ids: set<Id>)
    requires Consistent(t)
    ensures Consistent(AcknowledgeAll(t, q, ids))
  {
    if q.Events? { assert Unacknowledged(Mark(t.history, ids)) == t.outbox - ids; }
  }

  lemma UpgradeConsistent(t: Tables)
    requires Consistent(t)
    ensures Consistent(Upgrade(t))
  {
    assert t.outbox.Keys <= t.history.Keys;
    assert Upgrade(t).history == t.history;
  }

  lemma ActConsistent(s: Site, a: Act)
    requires Consistent(s.tables) && Enabled(s, a)
    ensures Consistent(Apply(s, a).tables)
  {
    hide AppendEvent, AcknowledgeAll, Upgrade, Unacknowledged;
    match a
    case Append(e) => AppendConsistent(s.tables, e);
    case Open => UpgradeConsistent(s.tables);
    case Acknowledge(q, ids) => AcknowledgeConsistent(s.tables, q, ids);
    case _ =>
  }

  lemma DeliveredStays(log: seq<Exchange>, more: seq<Exchange>, q: Queue, item: Item)
    requires log <= more && Delivered(log, q, item)
    ensures Delivered(more, q, item)
  {
    var k :| 0 <= k < |log| && DeliveredBy(log[k], q, item);
    assert more[k] == log[k];
  }

  lemma ActSafe(s: Site, a: Act)
    requires Safe(s) && Enabled(s, a)
    ensures Safe(Apply(s, a))
  {
    hide Apply, Enabled, Consistent;
    ActKeeps(s, a);
    ActConsistent(s, a);
    ActLogsRecorded(s, a);
    ActAcknowledgesDelivered(s, a);
  }

  ghost predicate LogRecorded(s: Site) {
    forall k, i :: 0 <= k < |s.log| && 0 <= i < |s.log[k].items| ==> IsRecorded(s.tables, s.log[k].queue, s.log[k].items[i])
  }

  ghost predicate AcknowledgedDelivered(s: Site) {
    forall q: Queue, id :: id in Recorded(s.tables, q) && Recorded(s.tables, q)[id].acknowledged ==>
      Delivered(s.log, q, Recorded(s.tables, q)[id].item)
  }

  lemma ActLogsRecorded(s: Site, a: Act)
    requires LogRecorded(s) && Enabled(s, a)
    ensures LogRecorded(Apply(s, a))
  {
    hide Apply;
    var w := Apply(s, a);
    ActKeeps(s, a);
    ActLog(s, a);
    forall k, i | 0 <= k < |w.log| && 0 <= i < |w.log[k].items|
      ensures IsRecorded(w.tables, w.log[k].queue, w.log[k].items[i])
    {
      assert IsRecorded(s.tables, w.log[k].queue, w.log[k].items[i]);
    }
  }

  lemma ActLog(s: Site, a: Act)
    ensures Apply(s, a).log == if a.Send? then s.log + [a.exchange] else s.log
  {
  }

  lemma ActAcknowledgesDelivered(s: Site, a: Act)
    requires Safe(s) && Enabled(s, a)
    ensures AcknowledgedDelivered(Apply(s, a))
  {
    var w := Apply(s, a);
    forall q: Queue, id | id in Recorded(w.tables, q) && Recorded(w.tables, q)[id].acknowledged
      ensures Delivered(w.log, q, Recorded(w.tables, q)[id].item)
    {
      NewlyAcknowledged(s, a, q, id);
      if id in Recorded(s.tables, q) && Recorded(s.tables, q)[id].acknowledged {
        DeliveredStays(s.log, w.log, q, Recorded(s.tables, q)[id].item);
      } else {
        NamedDelivered(s, q, id);
      }
    }
  }

  lemma NewlyAcknowledged(s: Site, a: Act, q: Queue, id: Id)
    requires Consistent(s.tables) && Enabled(s, a)
    requires id in Recorded(Apply(s, a).tables, q) && Recorded(Apply(s, a).tables, q)[id].acknowledged
    ensures s.log <= Apply(s, a).log
    ensures id in Recorded(s.tables, q) && Recorded(s.tables, q)[id].item == Recorded(Apply(s, a).tables, q)[id].item
    ensures Recorded(s.tables, q)[id].acknowledged || Named(s.log, q, id)
  {
  }

  lemma NamedDelivered(s: Site, q: Queue, id: Id)
    requires Safe(s) && Named(s.log, q, id)
    ensures id in Recorded(s.tables, q) && Delivered(s.log, q, Recorded(s.tables, q)[id].item)
  {
    var k :| 0 <= k < |s.log| && exists i :: 0 <= i < |s.log[k].items| && s.log[k].items[i].id == id && DeliveredBy(s.log[k], q, s.log[k].items[i]);
    var i :| 0 <= i < |s.log[k].items| && s.log[k].items[i].id == id && DeliveredBy(s.log[k], q, s.log[k].items[i]);
    assert IsRecorded(s.tables, s.log[k].queue, s.log[k].items[i]);
  }

  /** Whatever the interleaving and whatever the plane answers. */
  lemma {:induction false} EveryRunSafe(s: Site, acts: seq<Act>)
    requires Initial(s) && Runnable(s, acts)
    ensures Safe(Run(s, acts))
  {
    if acts != [] {
      EveryRunSafe(s, acts[..|acts| - 1]);
      ActSafe(Run(s, acts[..|acts| - 1]), acts[|acts| - 1]);
    }
  }

  lemma {:induction false} RunKeeps(s: Site, acts: seq<Act>, i: nat)
    requires i <= |acts|
    ensures Keeps(Run(s, acts[..i]).tables, Run(s, acts).tables)
    ensures Run(s, acts[..i]).log <= Run(s, acts).log
  {
    if i < |acts| {
      var front := acts[..|acts| - 1];
      assert front[..i] == acts[..i];
      RunKeeps(s, front, i);
      ActKeeps(Run(s, front), acts[|acts| - 1]);
    } else {
      assert acts[..i] == acts;
    }
  }

  /** An item is queued at most once in its life: once acknowledged it never comes back. */
  lemma {:induction false} NeverRequeued(s: Site, acts: seq<Act>, i: nat, q: Queue, id: Id)
    requires Initial(s) && Runnable(s, acts) && i <= |acts|
    requires id in Recorded(Run(s, acts[..i]).tables, q) && id !in Pending(Run(s, acts[..i]).tables, q)
    ensures id in Recorded(Run(s, acts).tables, q) && id !in Pending(Run(s, acts).tables, q)
  {
    RunKeeps(s, acts, i);
    RunnablePrefix(s, acts, i);
    EveryRunSafe(s, acts[..i]);
    EveryRunSafe(s, acts);
  }

  lemma {:induction false} RunnablePrefix(s: Site, acts: seq<Act>, i: nat)
    requires Runnable(s, acts) && i <= |acts|
    ensures Runnable(s, acts[..i])
  {
    if i < |acts| {
      assert acts[..|acts| - 1][..i] == acts[..i];
      RunnablePrefix(s, acts[..|acts| - 1], i);
    } else {
      assert acts[..i] == acts;
    }
  }

  /** What an act records, if it records anything. */
  predicate Records(a: Act, q: Queue, item: Item) {
    (a == Append(item) || a == Stage(item)) && Belongs(q, item)
  }

  /** A recorded item is kept for good, exactly as it was first recorded. */
  lemma {:induction false} RecordedForGood(s: Site, acts: seq<Act>, i: nat, q: Queue, item: Item)
    requires Initial(s) && Runnable(s, acts) && i < |acts| && Records(acts[i], q, item)
    requires item.id !in Recorded(Run(s, acts[..i]).tables, q)
    ensures IsRecorded(Run(s, acts).tables, q, item)
  {
    RunnablePrefix(s, acts, i);
    EveryRunSafe(s, acts[..i]);
    assert acts[..i + 1][..i] == acts[..i];
    RunnablePrefix(s, acts, i + 1);
    FreshRecorded(Run(s, acts[..i]), acts[i], q, item);
    RunKeeps(s, acts, i + 1);
  }

  lemma FreshRecorded(s: Site, a: Act, q: Queue, item: Item)
    requires Consistent(s.tables) && Enabled(s, a) && Records(a, q, item) && item.id !in Recorded(s.tables, q)
    ensures IsRecorded(Apply(s, a).tables, q, item)
  {
  }

  lemma NothingPendingDelivered(s: Site, q: Queue, id: Id)
    requires Safe(s) && |Pending(s.tables, q)| == 0 && id in Recorded(s.tables, q)
    ensures Delivered(s.log, q, Recorded(s.tables, q)[id].item)
  {
    var rows := Recorded(s.tables, q);
    assert Pending(s.tables, q) == Unacknowledged(rows);
    assert Unacknowledged(rows) == map[];
    assert id !in Unacknowledged(rows);
  }

  /** What was recorded for a queue at one moment had been delivered by a later one. */
  ghost predicate AllDelivered(t: Tables, log: seq<Exchange>, q: Queue) {
    forall id :: id in Recorded(t, q) ==> Delivered(log, q, Recorded(t, q)[id].item)
  }

  lemma DeliveredSince(start: Tables, now: Tables, log: seq<Exchange>, more: seq<Exchange>, q: Queue)
    requires Keeps(start, now) && log <= more && AllDelivered(now, log, q)
    ensures AllDelivered(start, more, q)
  {
    hide Delivered;
    forall id | id in Recorded(start, q) ensures Delivered(more, q, Recorded(start, q)[id].item) {
      DeliveredStays(log, more, q, Recorded(start, q)[id].item);
    }
  }

  ghost predicate EverythingDelivered(t: Tables, log: seq<Exchange>) {
    forall q: Queue :: AllDelivered(t, log, q)
  }

  lemma EverythingDeliveredSince(start: Tables, now: Tables, log: seq<Exchange>, more: seq<Exchange>)
    requires Keeps(start, now) && log <= more && EverythingDelivered(now, log)
    ensures EverythingDelivered(start, more)
  {
    hide Keeps, AllDelivered;
    forall q: Queue ensures AllDelivered(start, more, q) { DeliveredSince(start, now, log, more, q); }
  }

  ghost predicate NothingPending(t: Tables) {
    forall q: Queue :: Pending(t, q) == map[]
  }

  /** The same queues, whatever happened to the runs. */
  ghost predicate SameQueues(t: Tables, u: Tables) { u == t.(runs := u.runs) }

  lemma SameQueuesPending(t: Tables, u: Tables)
    requires SameQueues(t, u)
    ensures forall q: Queue :: Pending(t, q) == Pending(u, q)
  {
  }

  lemma OpenAgain(t: Tables)
    requires Consistent(t)
    ensures Upgrade(t) == t
  {
    assert t.outbox.Keys <= t.history.Keys;
    assert Upgrade(t).history == t.history;
  }
}
