/**
 * The stores over one shared database file, with every process that uses it.
 */
module SqliteStores {
  import opened Text
  import opened Evidence
  import opened Wrappers
  import opened ContextSnapshots
  import opened Sha256

  /** A call that either returns or throws. */
  datatype Outcome<+T> = Done(value: T) | Threw

  /**
   * The database file together with the plane's log of exchanges. `acts` is the whole
   * history of committed acts by all processes; `foreign` bounds how many more acts
   * other processes will commit.
   */
  class Database {
    var tables: Tables
    var log: seq<Exchange>
    var foreign: nat
    ghost var acts: seq<Act>
    ghost const initial: Site

    ghost predicate Valid()
      reads this
    {
      Initial(initial) && Runnable(initial, acts) && Site(tables, log) == Run(initial, acts)
    }

    constructor (start: Tables, others: nat)
      requires Initial(Site(start, []))
      ensures Valid() && tables == start && log == [] && foreign == others && acts == []
    {
      tables, log, foreign := start, [], others;
      acts, initial := [], Site(start, []);
    }

    /** Commits one act. */
    method Perform(a: Act)
      requires Valid() && Enabled(Site(tables, log), a)
      modifies this`tables, this`log, this`acts
      ensures Valid() && acts == old(acts) + [a]
      ensures Site(tables, log) == Apply(old(Site(tables, log)), a)
    {
      var s := Apply(Site(tables, log), a);
      tables, log, acts := s.tables, s.log, acts + [a];
      assert acts[..|acts| - 1] == old(acts);
    }

    /** Between two acts of one process, others may commit any acts they are able to. */
    method Interleave()
      requires Valid()
      modifies this
      ensures Valid() && old(acts) <= acts && foreign <= old(foreign)
      ensures old(log) <= log && Keeps(old(tables), tables)
      ensures foreign == old(foreign) ==> acts == old(acts) && tables == old(tables) && log == old(log)
    {
      var going: bool := *;
      while going && foreign > 0
        invariant Valid() && old(acts) <= acts && foreign <= old(foreign)
        invariant old(log) <= log && Keeps(old(tables), tables)
        invariant foreign == old(foreign) ==> acts == old(acts) && tables == old(tables) && log == old(log)
        decreases foreign
      {
        foreign := foreign - 1;
        var a: Act := *;
        if Enabled(Site(tables, log), a) {
          ActKeeps(Site(tables, log), a);
          Perform(a);
        }
        going := *;
      }
    }
  }

  // --- reading a queue in order -----------------------------------------------------

  /** The `order by` columns of each queue. */
  function OrderKey(item: Item): (k: seq<seq<int>>)
    ensures |k| == 3
  {
    match item
    case Event(_, _, installation, emitter, sequence, _) => [Encode(installation), Encode(emitter), [sequence]]
    case Observation(id, _, queuedAt, _) => [Encode(queuedAt), Encode(id), []]
    case Snapshot(id, _, _) => [Encode(id), [], []]
  }

  predicate Before(a: Item, b: Item) {
    LexTuple(OrderKey(a), OrderKey(b)) < 0
  }

  ghost predicate Distinct(items: seq<Item>) {
    forall i, j :: 0 <= i < j < |items| ==> items[i].id != items[j].id
  }

  function Ids(items: seq<Item>): set<Id> {
    set i | 0 <= i < |items| :: items[i].id
  }

  ghost predicate Stored(rows: map<Id, Item>, item: Item) {
    item.id in rows && rows[item.id] == item
  }

  /** `select ... order by ... limit ?`: rows that tie may come in either order. */
  ghost predicate Oldest(rows: map<Id, Item>, limit: int, items: seq<Item>) {
    && |items| == (if limit <= 0 then 0 else if limit < |rows| then limit else |rows|)
    && Distinct(items)
    && (forall i :: 0 <= i < |items| ==> Stored(rows, items[i]))
    && (forall i, j :: 0 <= i < j < |items| ==> !Before(items[j], items[i]))
    && (forall i, id :: 0 <= i < |items| && id in rows && id !in Ids(items) ==> !Before(rows[id], items[i]))
  }

  lemma BeforeOrder(x: Item, y: Item, z: Item)
    ensures !Before(x, x)
    ensures Before(x, y) ==> !Before(y, x)
    ensures !Before(x, y) && !Before(y, z) ==> !Before(x, z)
  {
    LexTupleLaws(OrderKey(x), OrderKey(x));
    LexTupleLaws(OrderKey(x), OrderKey(y));
    LexTupleLaws(OrderKey(y), OrderKey(z));
    LexTupleLaws(OrderKey(x), OrderKey(z));
    if !Before(x, y) && !Before(y, z) { LexTupleTransitive(OrderKey(z), OrderKey(y), OrderKey(x)); }
  }

  ghost predicate IsLeast(rows: map<Id, Item>, id: Id) {
    id in rows && forall o :: o in rows ==> !Before(rows[o], rows[id])
  }

  lemma LeastExists(rows: map<Id, Item>)
    requires rows != map[]
    ensures exists id :: IsLeast(rows, id)
    decreases |rows|
  {
    var id :| id in rows;
    var rest := rows - {id};
    assert rest.Keys == rows.Keys - {id};
    BeforeOrder(rows[id], rows[id], rows[id]);
    if rest == map[] {
      assert forall o :: o in rows ==> o == id by { assert forall o :: o in rows && o != id ==> o in rest; }
      assert IsLeast(rows, id);
    } else {
      LeastExists(rest);
      var least :| IsLeast(rest, least);
      var w := if Before(rows[id], rows[least]) then id else least;
      forall o | o in rows ensures !Before(rows[o], rows[w]) {
        BeforeOrder(rows[o], rows[least], rows[id]);
        BeforeOrder(rows[id], rows[least], rows[id]);
        if o != id { assert o in rest; }
      }
      assert IsLeast(rows, w);
    }
  }

  /** By code points of the text columns, and by sequence number within one emitter. */
  predicate Precedes(a: Item, b: Item) {
    match (a, b)
    case (Event(_, _, installation, emitter, sequence, _), Event(_, _, other, otherEmitter, later, _)) =>
      var c, d := Lex(Scalars(installation), Scalars(other)), Lex(Scalars(emitter), Scalars(otherEmitter));
      c < 0 || (c == 0 && (d < 0 || (d == 0 && sequence <= later)))
    case (Observation(id, _, queuedAt, _), Observation(other, _, later, _)) =>
      var c := Lex(Scalars(queuedAt), Scalars(later));
      c < 0 || (c == 0 && Lex(Scalars(id), Scalars(other)) <= 0)
    case (Snapshot(id, _, _), Snapshot(other, _, _)) => Lex(Scalars(id), Scalars(other)) <= 0
    case _ => true
  }

  lemma BeforeMeans(a: Item, b: Item)
    ensures !Before(b, a) ==> Precedes(a, b)
  {
    hide Lex, Encode;
    var x, y := OrderKey(b), OrderKey(a);
    TupleOfThree(x, y);
    LexLaws(x[0], y[0]);
    LexLaws(x[1], y[1]);
    LexLaws(x[2], y[2]);
    NothingAfter();
    match (a, b)
    case (Event(_, _, installation, emitter, sequence, _), Event(_, _, other, otherEmitter, later, _)) =>
      ByCodePoint(installation, other);
      ByCodePoint(emitter, otherEmitter);
      OneNumber(later, sequence);
    case (Observation(id, _, queuedAt, _), Observation(other, _, later, _)) =>
      ByCodePoint(queuedAt, later);
      ByCodePoint(id, other);
    case (Snapshot(id, _, _), Snapshot(other, _, _)) => ByCodePoint(id, other);
    case _ =>
  }

  lemma TupleOfThree(x: seq<seq<int>>, y: seq<seq<int>>)
    requires |x| == 3 == |y|
    ensures LexTuple(x, y) == if Lex(x[0], y[0]) != 0 then Lex(x[0], y[0]) else if Lex(x[1], y[1]) != 0 then Lex(x[1], y[1]) else Lex(x[2], y[2])
  {
    hide Lex;
    assert x[1..][1..] == x[2..] && y[1..][1..] == y[2..] && x[2..][1..] == [] && y[2..][1..] == [];
    assert LexTuple(x[2..], y[2..]) == Lex(x[2], y[2]);
    assert LexTuple(x[1..], y[1..]) == if Lex(x[1], y[1]) != 0 then Lex(x[1], y[1]) else LexTuple(x[2..], y[2..]);
  }

  lemma NothingAfter()
    ensures Lex([], []) == 0
  {
  }

  lemma ByCodePoint(a: JsString, b: JsString)
    ensures Lex(Encode(a), Encode(b)) == Lex(Scalars(a), Scalars(b))
    ensures Lex(Scalars(a), Scalars(b)) == -Lex(Scalars(b), Scalars(a))
  {
    Utf8Order(Scalars(a), Scalars(b));
    LexLaws(Scalars(a), Scalars(b));
  }

  lemma OneNumber(m: nat, n: nat)
    ensures Lex([m], [n]) < 0 <==> m < n
  {
    assert [m][1..] == [] && [n][1..] == [];
  }

  /** What a read returns is in order, and nothing it leaves behind belongs before it. */
  lemma {:induction false} ReadsInOrder(rows: map<Id, Item>, limit: int, items: seq<Item>)
    requires Oldest(rows, limit, items)
    ensures forall i, j :: 0 <= i < j < |items| ==> Precedes(items[i], items[j])
    ensures forall i, id :: 0 <= i < |items| && id in rows && id !in Ids(items) ==> Precedes(items[i], rows[id])
  {
    hide Before, Precedes, Ids;
    forall i, j | 0 <= i < j < |items| ensures Precedes(items[i], items[j]) { BeforeMeans(items[i], items[j]); }
    forall i, id | 0 <= i < |items| && id in rows && id !in Ids(items) ensures Precedes(items[i], rows[id]) {
      BeforeMeans(items[i], rows[id]);
    }
  }

  /** `items` were taken out of `rows`; `rest` is what is left. */
  ghost predicate Taken(rows: map<Id, Item>, rest: map<Id, Item>, items: seq<Item>) {
    && rest == rows - Ids(items) && |rest| + |items| == |rows|
    && Distinct(items)
    && forall i :: 0 <= i < |items| ==> Stored(rows, items[i])
  }

  /** They were taken in order, and nothing left over comes before them. */
  ghost predicate InOrder(rest: map<Id, Item>, items: seq<Item>) {
    && (forall i, j :: 0 <= i < j < |items| ==> !Before(items[j], items[i]))
    && (forall i, id :: 0 <= i < |items| && id in rest ==> !Before(rest[id], items[i]))
  }

  lemma TakeOne(rows: map<Id, Item>, rest: map<Id, Item>, items: seq<Item>, id: Id)
    requires Taken(rows, rest, items) && id in rest
    requires forall o :: o in rows ==> rows[o].id == o
    ensures Taken(rows, rest - {id}, items + [rest[id]])
  {
    hide Ids;
    var all, left := items + [rest[id]], rest - {id};
    IdsAppend(items, rest[id]);
    RemoveTwice(rows, Ids(items), {id});
    assert left.Keys == rest.Keys - {id};
    DistinctAppend(items, rest[id]);
    forall i | 0 <= i < |all| ensures Stored(rows, all[i]) {
      if i < |items| { assert all[i] == items[i]; }
    }
  }

  lemma RemoveTwice(rows: map<Id, Item>, a: set<Id>, b: set<Id>)
    ensures rows - a - b == rows - (a + b)
  {
  }

  lemma DistinctAppend(items: seq<Item>, item: Item)
    requires Distinct(items) && item.id !in Ids(items)
    ensures Distinct(items + [item])
  {
    forall i | 0 <= i < |items| ensures items[i].id != item.id { assert items[i].id in Ids(items); }
  }

  lemma TakeLeast(rest: map<Id, Item>, items: seq<Item>, id: Id)
    requires InOrder(rest, items) && IsLeast(rest, id)
    ensures InOrder(rest - {id}, items + [rest[id]])
  {
    hide Before;
  }

  method SelectOldest(rows: map<Id, Item>, limit: int) returns (items: seq<Item>)
    requires forall id :: id in rows ==> rows[id].id == id
    ensures Oldest(rows, limit, items)
  {
    hide Before, Taken, InOrder;
    items := [];
    var rest := rows;
    NothingTaken(rows);
    while |items| < limit && rest != map[]
      invariant |items| == 0 || |items| <= limit
      invariant Taken(rows, rest, items) && InOrder(rest, items)
      invariant forall o :: o in rest ==> o in rows && rest[o] == rows[o]
      decreases |rest|
    {
      LeastExists(rest);
      var id :| id in rest && forall o :: o in rest ==> !Before(rest[o], rest[id]);
      TakeOne(rows, rest, items, id);
      TakeLeast(rest, items, id);
      items := items + [rest[id]];
      rest := rest - {id};
    }
    TakenIsOldest(rows, rest, limit, items);
  }

  lemma NothingTaken(rows: map<Id, Item>)
    ensures Taken(rows, rows, []) && InOrder(rows, [])
  {
    assert Ids([]) == {} && rows - {} == rows;
  }

  lemma {:induction false} TakenIsOldest(rows: map<Id, Item>, rest: map<Id, Item>, limit: int, items: seq<Item>)
    requires Taken(rows, rest, items) && InOrder(rest, items)
    requires |items| == 0 || |items| <= limit
    requires |items| >= limit || rest == map[]
    ensures Oldest(rows, limit, items)
  {
    hide Before;
    assert rest == map[] ==> |rest| == 0;
    assert forall id :: id in rows && id !in Ids(items) ==> id in rest;
  }

  lemma IdsAppend(items: seq<Item>, item: Item)
    ensures Ids(items + [item]) == Ids(items) + {item.id}
  {
    var all := items + [item];
    assert all[|items|] == item;
    assert forall i :: 0 <= i < |items| ==> all[i] == items[i];
    forall x | x in Ids(items) + {item.id} ensures x in Ids(all) {
      if x in Ids(items) {
        var i :| 0 <= i < |items| && items[i].id == x;
        assert all[i].id == x;
      } else {
        assert all[|items|].id == x;
      }
    }
  }

  lemma IdsCount(items: seq<Item>)
    requires Distinct(items)
    ensures |Ids(items)| == |items|
  {
    if items != [] {
      var front, last := items[..|items| - 1], items[|items| - 1];
      assert items == front + [last];
      IdsCount(front);
      IdsAppend(front, last);
      assert last.id !in Ids(front);
    } else {
      assert Ids(items) == {};
    }
  }

  // --- one id at a time inside a transaction -------------------------------------------

  /** `update ... set acknowledged = 1 where id = ?`. */
  function MarkOne(rows: map<Id, Row>, id: Id): map<Id, Row> {
    if id in rows then rows[id := Row(rows[id].item, true)] else rows
  }

  function IdSet(ids: seq<Id>): set<Id> {
    set id | id in ids
  }

  lemma MarkStep(rows: map<Id, Row>, ids: seq<Id>, i: nat)
    requires i < |ids|
    ensures IdSet(ids[..i + 1]) == IdSet(ids[..i]) + {ids[i]}
    ensures MarkOne(Mark(rows, IdSet(ids[..i])), ids[i]) == Mark(rows, IdSet(ids[..i + 1]))
  {
    assert ids[..i + 1] == ids[..i] + [ids[i]];
  }

  lemma MarkNothing(rows: map<Id, Row>)
    ensures Mark(rows, {}) == rows
  {
  }

  lemma PendingKeyed(t: Tables, q: Queue)
    requires Consistent(t)
    ensures forall id :: id in Pending(t, q) ==> IsRecorded(t, q, Pending(t, q)[id]) && Pending(t, q)[id].id == id
  {
  }

  lemma StateConsistent(db: Database)
    requires db.Valid()
    ensures Safe(Site(db.tables, db.log))
  {
    EveryRunSafe(db.initial, db.acts);
  }

  lemma EmptyMeansDelivered(db: Database, q: Queue)
    requires db.Valid() && |Pending(db.tables, q)| == 0
    ensures AllDelivered(db.tables, db.log, q)
  {
    hide Delivered;
    StateConsistent(db);
    forall id | id in Recorded(db.tables, q) ensures Delivered(db.log, q, Recorded(db.tables, q)[id].item) {
      NothingPendingDelivered(Site(db.tables, db.log), q, id);
    }
  }

  /** Opening a database that is in use changes nothing. */
  lemma OpensUnchanged(db: Database)
    requires db.Valid()
    ensures Upgrade(db.tables) == db.tables
  {
    StateConsistent(db);
    OpenAgain(db.tables);
  }

  /** What the tables and the log were when `acts` had been committed. */
  ghost predicate StoodAt(s: Site, acts: seq<Act>, tables: Tables, log: seq<Exchange>) {
    Run(s, acts) == Site(tables, log)
  }

  lemma StandsNow(db: Database)
    requires db.Valid()
    ensures StoodAt(db.initial, db.acts, db.tables, db.log)
  {
  }

  /** Nothing that was recorded or logged at an earlier moment is lost. */
  lemma KeptSince(db: Database, acts: seq<Act>, tables: Tables, log: seq<Exchange>)
    requires db.Valid() && acts <= db.acts && StoodAt(db.initial, acts, tables, log)
    ensures Keeps(tables, db.tables) && log <= db.log
  {
    hide Run;
    assert db.acts[..|acts|] == acts;
    RunKeeps(db.initial, db.acts, |acts|);
  }

  class SqliteOutbox {
    const db: Database

    constructor (file: Database)
      ensures db == file
    {
      db := file;
    }

    /** History and queue row in one transaction; an id seen before is ignored. */
    method Append(event: Item) returns (r: Outcome<bool>)
      requires db.Valid() && event.Event?
      modifies db
      ensures db.Valid() && db.log == old(db.log) && db.foreign == old(db.foreign)
      ensures r.Threw? ==> db.tables == old(db.tables) && db.acts == old(db.acts)
      ensures r.Done? ==> db.acts == old(db.acts) + [Act.Append(event)]
      ensures r.Done? ==> db.tables == AppendEvent(old(db.tables), event)
      ensures r.Done? ==> r.value == (event.id !in old(db.tables.history))
      ensures r.Done? && r.value ==>
                db.tables == old(db.tables).(history := old(db.tables.history)[event.id := Row(event, false)],
                                             outbox := old(db.tables.outbox)[event.id := event])
      ensures r.Done? && !r.value ==> db.tables == old(db.tables)
    {
      StateConsistent(db);
      var throws: bool := *;
      if throws { return Threw; }
      var appended := event.id !in db.tables.history;
      assert event.id in db.tables.outbox ==> !appended;
      db.Perform(Act.Append(event));
      r := Done(appended);
    }

    /** The oldest undelivered events in (installation, emitter, sequence) order. */
    method ReadPending(limit: int) returns (r: Outcome<seq<Item>>)
      requires db.Valid()
      ensures r.Done? ==> Oldest(db.tables.outbox, limit, r.value)
    {
      StateConsistent(db);
      PendingKeyed(db.tables, Events);
      var throws: bool := *;
      if throws { return Threw; }
      var items := SelectOldest(db.tables.outbox, limit);
      r := Done(items);
    }

    /** Marks history and empties the queue together, or does neither. */
    method Acknowledge(ids: seq<Id>) returns (ok: bool)
      requires db.Valid() && forall id :: id in ids ==> Named(db.log, Events, id)
      modifies db
      ensures db.Valid() && db.log == old(db.log) && db.foreign == old(db.foreign)
      ensures !ok ==> db.tables == old(db.tables) && db.acts == old(db.acts)
      ensures ok ==> db.tables == AcknowledgeAll(old(db.tables), Events, IdSet(ids)) && old(db.acts) <= db.acts
    {
      if |ids| == 0 {
        MarkNothing(db.tables.history);
        assert db.tables.outbox - {} == db.tables.outbox;
        return true;
      }
      var history, outbox := db.tables.history, db.tables.outbox;
      MarkNothing(history);
      for i := 0 to |ids|
        invariant history == Mark(db.tables.history, IdSet(ids[..i]))
        invariant outbox == db.tables.outbox - IdSet(ids[..i])
        invariant db.Valid() && db.tables == old(db.tables) && db.log == old(db.log) && db.acts == old(db.acts) && db.foreign == old(db.foreign)
      {
        var throws: bool := *;
        if throws { return false; }
        MarkStep(db.tables.history, ids, i);
        history := MarkOne(history, ids[i]);
        outbox := outbox - {ids[i]};
      }
      assert ids[..|ids|] == ids;
      db.Perform(Act.Acknowledge(Events, IdSet(ids)));
      assert db.tables.history == history && db.tables.outbox == outbox;
      ok := true;
    }

    /** Every event of a run, delivered or not, in the order the timeline prints. */
    method HistoryForRun(runId: Id) returns (items: seq<Item>)
      requires db.Valid()
      ensures var rows := map id | id in db.tables.history && db.tables.history[id].item.runId == runId :: db.tables.history[id].item;
              Oldest(rows, |rows|, items)
    {
      StateConsistent(db);
      var rows := map id | id in db.tables.history && db.tables.history[id].item.runId == runId :: db.tables.history[id].item;
      items := SelectOldest(rows, |rows|);
    }
  }

  class SqliteEvidenceDocuments {
    const db: Database

    constructor (file: Database)
      ensures db == file
    {
      db := file;
    }

    method RecordObservation(observation: Item) returns (r: Outcome<bool>)
      requires db.Valid() && observation.Observation?
      modifies db
      ensures db.Valid() && db.log == old(db.log) && db.foreign == old(db.foreign)
      ensures r.Threw? ==> db.tables == old(db.tables)
      ensures r.Done? ==> r.value == (observation.id !in old(db.tables.observations))
      ensures r.Done? ==> db.tables == old(db.tables).(observations := RecordOnce(old(db.tables.observations), observation))
    {
      var throws: bool := *;
      if throws { return Threw; }
      var recorded := observation.id !in db.tables.observations;
      db.Perform(Stage(observation));
      r := Done(recorded);
    }

    /** A snapshot whose id is not the hash of its content, or that names no run, is refused. */
    method RecordContextSnapshot(sha: RawDigest, snapshot: Item) returns (r: Outcome<bool>)
      requires db.Valid() && snapshot.Snapshot?
      modifies db
      ensures db.Valid() && db.log == old(db.log) && db.foreign == old(db.foreign)
      ensures r.Threw? ==> db.tables == old(db.tables)
      ensures r.Done? ==> ContextSnapshotId(sha, snapshot.content) == Some(snapshot.id) && snapshot.runId != []
      ensures r.Done? ==> r.value == (snapshot.id !in old(db.tables.snapshots))
      ensures r.Done? ==> db.tables == old(db.tables).(snapshots := RecordOnce(old(db.tables.snapshots), snapshot))
    {
      var throws: bool := *;
      var expected := ContextSnapshotId(sha, snapshot.content);
      if throws || expected != Some(snapshot.id) || snapshot.runId == [] { return Threw; }
      var recorded := snapshot.id !in db.tables.snapshots;
      db.Perform(Stage(snapshot));
      r := Done(recorded);
    }

    method ReadPending(q: Queue, limit: int) returns (r: Outcome<seq<Item>>)
      requires db.Valid() && !q.Events?
      ensures r.Done? ==> Oldest(Pending(db.tables, q), limit, r.value)
    {
      StateConsistent(db);
      PendingKeyed(db.tables, q);
      var throws: bool := *;
      if throws { return Threw; }
      var items := SelectOldest(Pending(db.tables, q), limit);
      r := Done(items);
    }

    /** Flips one bit per id, all of them or none. */
    method Acknowledge(q: Queue, ids: seq<Id>) returns (ok: bool)
      requires db.Valid() && !q.Events? && forall id :: id in ids ==> Named(db.log, q, id)
      modifies db
      ensures db.Valid() && db.log == old(db.log) && db.foreign == old(db.foreign)
      ensures !ok ==> db.tables == old(db.tables) && db.acts == old(db.acts)
      ensures ok ==> db.tables == AcknowledgeAll(old(db.tables), q, IdSet(ids)) && old(db.acts) <= db.acts
    {
      MarkNothing(Recorded(db.tables, q));
      if |ids| == 0 { return true; }
      var rows := Recorded(db.tables, q);
      for i := 0 to |ids|
        invariant rows == Mark(Recorded(db.tables, q), IdSet(ids[..i]))
        invariant db.Valid() && db.tables == old(db.tables) && db.log == old(db.log) && db.acts == old(db.acts) && db.foreign == old(db.foreign)
      {
        var throws: bool := *;
        if throws { return false; }
        MarkStep(Recorded(db.tables, q), ids, i);
        rows := MarkOne(rows, ids[i]);
      }
      assert ids[..|ids|] == ids;
      db.Perform(Act.Acknowledge(q, IdSet(ids)));
      assert Recorded(db.tables, q) == rows;
      ok := true;
    }
  }
}
