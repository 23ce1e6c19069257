/**
 * The flusher: drains the three queues into a plane that may answer anything.
 */
module Flush {
  import opened Wrappers
  import opened Sorting
  import opened Evidence
  import opened SqliteStores
  import opened Transcripts

  datatype DrainResult = DrainResult(attempted: nat, acknowledged: nat, failed: Option<FlushOutcome>)

  datatype BatchResult = BatchResult(acknowledged: nat, failed: Option<FlushOutcome>)

  datatype FlushResult = FlushResult(attempted: nat, acknowledged: nat, remaining: nat, outcome: FlushOutcome)

  lemma UniqueIds(ids: seq<Id>)
    ensures IdSet(Unique(ids)) == IdSet(ids) && |Unique(ids)| == |IdSet(ids)|
  {
    var r := Unique(ids);
    assert forall id :: id in IdSet(r) <==> id in Elements(r);
    assert forall id :: id in IdSet(ids) <==> id in Elements(ids);
    DistinctCount(r);
  }

  lemma DistinctCount(ids: seq<Id>)
    requires NoDuplicates(ids)
    ensures |IdSet(ids)| == |ids|
  {
    if ids != [] {
      var front, last := ids[..|ids| - 1], ids[|ids| - 1];
      assert ids == front + [last];
      DistinctCount(front);
      assert last !in front;
      assert IdSet(ids) == IdSet(front) + {last};
    } else {
      assert IdSet(ids) == {};
    }
  }

  ghost predicate Unanswered(xs: seq<Exchange>, q: Queue, items: seq<Item>) {
    forall i :: 0 <= i < |xs| ==> xs[i] == Exchange(q, items, UnreachableReply)
  }

  lemma NothingSent(q: Queue, items: seq<Item>)
    ensures Unanswered([], q, items)
  {
  }

  lemma NoAttempts(log: seq<Exchange>, from: nat, q: Queue, items: seq<Item>, maxAttempts: int)
    ensures forall supported :: maxAttempts <= 0 ==> HeardIn(log, from, Cause(q, items, None), supported, maxAttempts)
  {
  }

  lemma RecordedKept(before: Tables, after: Tables, q: Queue, items: seq<Item>)
    requires Keeps(before, after) && forall i :: 0 <= i < |items| ==> IsRecorded(before, q, items[i])
    ensures forall i :: 0 <= i < |items| ==> IsRecorded(after, q, items[i])
  {
    forall i | 0 <= i < |items| ensures IsRecorded(after, q, items[i]) {
      assert IsRecorded(before, q, items[i]);
    }
  }

  lemma LogGrows(log: seq<Exchange>, sent: seq<Exchange>, x: Exchange)
    ensures (log + sent) + [x] == log + (sent + [x])
  {
  }

  lemma OneMoreSent(xs: seq<Exchange>, q: Queue, items: seq<Item>, answer: Reply, maxAttempts: int)
    requires Unanswered(xs, q, items) && |xs| < maxAttempts
    ensures answer.UnreachableReply? ==> Unanswered(xs + [Exchange(q, items, answer)], q, items)
    ensures !answer.UnreachableReply? ==> Attempts(xs + [Exchange(q, items, answer)], q, items, Some(answer), maxAttempts)
  {
  }

  lemma AllSent(xs: seq<Exchange>, q: Queue, items: seq<Item>, reply: Option<Reply>, maxAttempts: int)
    requires Unanswered(xs, q, items) && |xs| == (if maxAttempts > 0 then maxAttempts else 0)
    requires if maxAttempts > 0 then reply == Some(UnreachableReply) else reply.None?
    ensures Attempts(xs, q, items, reply, maxAttempts)
  {
  }

  /** Why a drain failed. */
  datatype Cause = Cause(queue: Queue, items: seq<Item>, reply: Option<Reply>)

  /** Since a moment the plane gave this reply to this batch; or nothing was sent, for want of attempts or support. */
  ghost predicate HeardIn(log: seq<Exchange>, from: nat, c: Cause, supported: bool, maxAttempts: int) {
    if c.reply.None? then maxAttempts <= 0
    else (!supported && c.reply.value.UnreachableReply?)
         || exists k :: from <= k < |log| && log[k] == Exchange(c.queue, c.items, c.reply.value)
  }

  lemma HeardStays(log: seq<Exchange>, more: seq<Exchange>, from: nat, since: nat, c: Cause, supported: bool, maxAttempts: int)
    requires log <= more && since <= from && HeardIn(log, from, c, supported, maxAttempts)
    ensures HeardIn(more, since, c, supported, maxAttempts)
  {
    if c.reply.Some? && !(!supported && c.reply.value.UnreachableReply?) {
      var k :| from <= k < |log| && log[k] == Exchange(c.queue, c.items, c.reply.value);
      assert more[k] == log[k];
    }
  }

  lemma SameCount<T>(a: set<T>, b: set<T>)
    requires a <= b
    ensures |a| == |b| <==> a == b
  {
    assert b == a + (b - a);
  }

  /** What acknowledging part of a pending batch does to the queues. */
  lemma BatchAccounts(t: Tables, q: Queue, accepted: set<Id>, requested: set<Id>)
    requires accepted <= requested <= Pending(t, q).Keys
    ensures OnlyDelivered(t, AcknowledgeAll(t, q, accepted), q, |accepted|)
    ensures AcknowledgeAll(t, q, accepted).runs == t.runs && |accepted| <= |requested|
    ensures if accepted == requested then |accepted| == |requested| else |Pending(AcknowledgeAll(t, q, accepted), q)| > 0
  {
    hide Pending;
    PendingAfterAcknowledge(t, q, accepted);
    SubsetCount(accepted, requested);
    SameCount(accepted, requested);
    if accepted != requested { PartlyPending(t, AcknowledgeAll(t, q, accepted), q, |accepted|, requested); }
  }

  lemma AcknowledgeNothing(t: Tables, q: Queue)
    ensures AcknowledgeAll(t, q, {}) == t
  {
    MarkNothing(Recorded(t, q));
    assert t.outbox - {} == t.outbox;
  }

  /** How much of one queue a quiet stretch delivered, and that it touched nothing else. */
  ghost predicate OnlyDelivered(before: Tables, after: Tables, q: Queue, count: nat) {
    && |Pending(before, q)| == count + |Pending(after, q)|
    && (forall other: Queue :: other != q ==> Pending(after, other) == Pending(before, other))
    && after.runs == before.runs
  }

  lemma UnacknowledgedAfterMark(rows: map<Id, Row>, ids: set<Id>)
    ensures Unacknowledged(Mark(rows, ids)) == Unacknowledged(rows) - ids
  {
  }

  lemma RemoveCount(rows: map<Id, Item>, ids: set<Id>)
    requires ids <= rows.Keys
    ensures |rows - ids| + |ids| == |rows|
  {
    assert (rows - ids).Keys == rows.Keys - ids;
  }

  lemma AcknowledgeShrinks(t: Tables, q: Queue, ids: set<Id>)
    ensures Pending(AcknowledgeAll(t, q, ids), q) == Pending(t, q) - ids
    ensures forall other: Queue :: other != q ==> Pending(AcknowledgeAll(t, q, ids), other) == Pending(t, other)
    ensures AcknowledgeAll(t, q, ids).runs == t.runs
  {
    hide Unacknowledged, Mark;
    UnacknowledgedAfterMark(t.observations, ids);
    UnacknowledgedAfterMark(t.snapshots, ids);
  }

  lemma {:induction false} PendingAfterAcknowledge(t: Tables, q: Queue, ids: set<Id>)
    requires ids <= Pending(t, q).Keys
    ensures OnlyDelivered(t, AcknowledgeAll(t, q, ids), q, |ids|)
  {
    hide Pending, AcknowledgeAll;
    AcknowledgeShrinks(t, q, ids);
    RemoveCount(Pending(t, q), ids);
  }

  lemma IdsOfRows(rows: map<Id, Item>, limit: int, items: seq<Item>)
    requires Oldest(rows, limit, items)
    ensures Ids(items) <= rows.Keys && |Ids(items)| == |items|
  {
    IdsCount(items);
  }

  class Flusher {
    const db: Database
    const outbox: SqliteOutbox
    const evidence: SqliteEvidenceDocuments
    const hasEvidence: bool
    const sendsSnapshots: bool
    const batchSize: int
    const maxAttempts: int
    var everFailed: bool

    ghost predicate Valid()
      reads this, db
    {
      outbox.db == db && evidence.db == db && db.Valid()
    }

    constructor (file: Database, events: SqliteOutbox, documents: SqliteEvidenceDocuments,
                 withEvidence: bool, withSnapshots: bool, batch: int, attempts: int)
      requires file.Valid() && events.db == file && documents.db == file
      ensures Valid() && db == file && hasEvidence == withEvidence && !everFailed
      ensures Options() == Settings(withEvidence, withSnapshots, batch, attempts)
    {
      db, outbox, evidence := file, events, documents;
      hasEvidence, sendsSnapshots, batchSize, maxAttempts, everFailed := withEvidence, withSnapshots, batch, attempts, false;
    }

    function Staged(t: Tables): nat { |Pending(t, Observations)| + |Pending(t, Snapshots)| }

    function Total(t: Tables): nat {
      |Pending(t, Events)| + if hasEvidence then Staged(t) else 0
    }

    /** Everything that had been recorded for the queues this flusher serves was delivered. */
    ghost predicate AllFlushed(t: Tables, log: seq<Exchange>) {
      forall q: Queue :: q.Events? || hasEvidence ==> AllDelivered(t, log, q)
    }

    method ReadPending(q: Queue) returns (r: Outcome<seq<Item>>)
      requires Valid()
      ensures r.Done? ==> Oldest(Pending(db.tables, q), batchSize, r.value)
    {
      if q.Events? {
        r := outbox.ReadPending(batchSize);
      } else {
        r := evidence.ReadPending(q, batchSize);
      }
    }

    method AcknowledgeIds(q: Queue, ids: seq<Id>) returns (ok: bool)
      requires Valid() && forall id :: id in ids ==> Named(db.log, q, id)
      modifies db
      ensures Valid() && db.log == old(db.log) && db.foreign == old(db.foreign) && old(db.acts) <= db.acts
      ensures !ok ==> db.tables == old(db.tables)
      ensures ok ==> db.tables == AcknowledgeAll(old(db.tables), q, IdSet(ids))
    {
      if q.Events? {
        ok := outbox.Acknowledge(ids);
      } else {
        ok := evidence.Acknowledge(q, ids);
      }
    }

    function Options(): Settings { Settings(hasEvidence, sendsSnapshots, batchSize, maxAttempts) }

    ghost predicate Supported(q: Queue) { Supports(Options(), q) }

    ghost predicate Heard(c: Cause, from: nat)
      reads db
    {
      HeardIn(db.log, from, c, Supported(c.queue), maxAttempts)
    }

    /** One attempt; an ingest that throws, or cannot take snapshots, is unreachable. */
    method SafeSend(q: Queue, items: seq<Item>) returns (reply: Reply)
      requires Valid()
      requires forall i :: 0 <= i < |items| ==> IsRecorded(db.tables, q, items[i])
      modifies db
      ensures Valid() && old(db.acts) <= db.acts && db.foreign <= old(db.foreign)
      ensures old(db.log) <= db.log && Keeps(old(db.tables), db.tables)
      ensures Heard(Cause(q, items, Some(reply)), |old(db.log)|)
      ensures !Supported(q) ==> reply.UnreachableReply?
      ensures db.foreign == old(db.foreign) ==>
                && db.tables == old(db.tables)
                && db.log == old(db.log) + if Supported(q) then [Exchange(q, items, reply)] else []
    {
      db.Interleave();
      if q.Snapshots? && !sendsSnapshots {
        return UnreachableReply;
      }
      reply := *;
      db.Perform(Act.Send(Exchange(q, items, reply)));
      assert db.log[|db.log| - 1] == Exchange(q, items, reply);
      ghost var tables, log := db.tables, db.log;
      db.Interleave();
      assert db.log[|log| - 1] == Exchange(q, items, reply);
    }

    /** Tries a batch until the plane answers one way or the other. */
    method SendBatch(q: Queue, items: seq<Item>) returns (reply: Option<Reply>, ghost sent: seq<Exchange>)
      requires Valid()
      requires forall i :: 0 <= i < |items| ==> IsRecorded(db.tables, q, items[i])
      modifies db
      ensures Valid() && old(db.acts) <= db.acts && db.foreign <= old(db.foreign)
      ensures old(db.log) <= db.log && Keeps(old(db.tables), db.tables)
      ensures Heard(Cause(q, items, reply), |old(db.log)|)
      ensures reply.None? <==> maxAttempts <= 0
      ensures AsSent(Batch(items, reply, sent), q, Options())
      ensures db.foreign == old(db.foreign) ==> db.tables == old(db.tables) && db.log == old(db.log) + sent
    {
      hide Database.Valid, Keeps, HeardIn, Attempts, Unanswered;
      reply, sent := None, [];
      var attempt := 1;
      NothingSent(q, items);
      KeepsTransitive(db.tables, db.tables, db.tables);
      while attempt <= maxAttempts
        invariant Valid() && old(db.acts) <= db.acts && db.foreign <= old(db.foreign)
        invariant old(db.log) <= db.log && Keeps(old(db.tables), db.tables)
        invariant db.foreign == old(db.foreign) ==> db.tables == old(db.tables) && db.log == old(db.log) + sent
        invariant if reply.None? then attempt == 1 else reply.value.UnreachableReply? && Heard(Cause(q, items, reply), |old(db.log)|)
        invariant 1 <= attempt && (attempt == 1 ==> reply.None?) && (attempt > 1 ==> attempt <= maxAttempts + 1)
        invariant |sent| == (if Supported(q) then attempt - 1 else 0) && Unanswered(sent, q, items)
        decreases maxAttempts - attempt
      {
        ghost var tables, before := db.tables, |db.log|;
        RecordedKept(old(db.tables), tables, q, items);
        var answer := SafeSend(q, items);
        KeepsTransitive(old(db.tables), tables, db.tables);
        reply := Some(answer);
        HeardStays(db.log, db.log, before, |old(db.log)|, Cause(q, items, reply), Supported(q), maxAttempts);
        if Supported(q) {
          OneMoreSent(sent, q, items, answer, maxAttempts);
          LogGrows(old(db.log), sent, Exchange(q, items, answer));
          sent := sent + [Exchange(q, items, answer)];
        }
        if !answer.UnreachableReply? { return; }
        if attempt < maxAttempts {
          ghost var log := db.log;
          tables := db.tables;
          db.Interleave();
          KeepsTransitive(old(db.tables), tables, db.tables);
          HeardStays(log, db.log, |old(db.log)|, |old(db.log)|, Cause(q, items, reply), Supported(q), maxAttempts);
        }
        attempt := attempt + 1;
      }
      if Supported(q) { AllSent(sent, q, items, reply, maxAttempts); }
      NoAttempts(db.log, |old(db.log)|, q, items, maxAttempts);
    }

    /** Acknowledges what the plane named of a batch. */
    method AcknowledgeBatch(q: Queue, requested: set<Id>, accepted: seq<Id>) returns (r: Outcome<BatchResult>)
      requires Valid() && |accepted| == |IdSet(accepted)| && IdSet(accepted) <= requested
      requires forall id :: id in accepted ==> Named(db.log, q, id)
      modifies db
      ensures Valid() && old(db.acts) <= db.acts && db.foreign <= old(db.foreign) && old(db.log) <= db.log
      ensures r.Done? ==> r.value == BatchResult(|IdSet(accepted)|, if IdSet(accepted) == requested then None else Some(Partial))
      ensures db.foreign == old(db.foreign) ==>
                && db.log == old(db.log)
                && db.tables == if r.Done? then AcknowledgeAll(old(db.tables), q, IdSet(accepted)) else old(db.tables)
    {
      hide AcknowledgeAll, Database.Valid;
      ghost var log := db.log;
      db.Interleave();
      NamedStays(log, db.log, q, IdSet(accepted));
      var ok := AcknowledgeIds(q, accepted);
      if !ok { return Threw; }
      SameCount(IdSet(accepted), requested);
      r := Done(BatchResult(|accepted|, if |accepted| != |requested| then Some(Partial) else None));
    }

    /** Sends one batch and acknowledges exactly the requested ids the plane named. */
    method DeliverBatch(q: Queue, items: seq<Item>) returns (r: Outcome<BatchResult>, ghost batch: Batch)
      requires Valid() && items != []
      requires Oldest(Pending(db.tables, q), batchSize, items)
      modifies db
      ensures Valid() && old(db.acts) <= db.acts && db.foreign <= old(db.foreign) && old(db.log) <= db.log
      ensures batch.items == items && AsSent(batch, q, Options())
      ensures Heard(Cause(q, items, batch.reply), |old(db.log)|)
      ensures r.Done? ==> r.value == BatchResult(|Accepted(batch)|, Failure(batch))
      ensures r.Done? ==> r.value.acknowledged <= |items|
      ensures r.Done? ==> if r.value.failed.None? then r.value.acknowledged == |items| else !r.value.failed.value.Drained?
      ensures r.Done? && db.foreign == old(db.foreign) ==>
                && db.tables == AcknowledgeAll(old(db.tables), q, Accepted(batch)) && db.log == old(db.log) + batch.sent
                && OnlyDelivered(old(db.tables), db.tables, q, r.value.acknowledged)
                && (r.value.failed.Some? ==> |Pending(db.tables, q)| > 0)
      ensures db.foreign == old(db.foreign) ==> db.tables.runs == old(db.tables.runs)
    {
      hide Oldest, OnlyDelivered, Total, Pending, AcknowledgeAll, HeardIn, AsSent, Database.Valid;
      ghost var before, since := db.tables, |db.log|;
      ReadRowsRecorded(db, q, items, batchSize);
      IdsOfRows(Pending(before, q), batchSize, items);
      NothingDelivered(before, q);
      AcknowledgeNothing(before, q);
      ghost var sent;
      var reply;
      reply, sent := SendBatch(q, items);
      batch := Batch(items, reply, sent);
      if reply.None? || !reply.value.AcceptedIds? {
        StillPending(before, q, Ids(items));
        return Done(BatchResult(0, Some(if reply.Some? && reply.value.RejectedReply? then Rejected else Unreachable))), batch;
      }
      var requested, accepted := Ids(items), Unique(reply.value.ids);
      UniqueIds(reply.value.ids);
      assert forall id :: id in IdSet(accepted) <==> id in reply.value.ids;
      if !(IdSet(accepted) <= requested) {
        StillPending(before, q, Ids(items));
        return Done(BatchResult(0, Some(Unreachable))), batch;
      }
      AcceptedNamed(db.log, since, q, items, reply.value, Supported(q), maxAttempts);
      ghost var log := db.log;
      r := AcknowledgeBatch(q, requested, accepted);
      HeardStays(log, db.log, since, since, Cause(q, items, reply), Supported(q), maxAttempts);
      BatchAccounts(before, q, IdSet(accepted), requested);
    }

    /**
     * Drains one queue. It ends although the loop has no bound of its own: either
     * another process acted, which happens finitely often, or a whole batch left the queue.
     */
    method Drain(q: Queue) returns (r: Outcome<DrainResult>, ghost cause: Cause, ghost batches: seq<Batch>)
      requires Valid()
      modifies db
      ensures Valid() && old(db.acts) <= db.acts && db.foreign <= old(db.foreign) && old(db.log) <= db.log
      ensures r.Done? && r.value.failed.Some? ==>
                cause.queue == q && Verdict(cause.items, cause.reply).1 == r.value.failed && Heard(cause, |old(db.log)|)
      ensures r.Done? ==>
                && r.value.acknowledged <= r.value.attempted
                && r.value.attempted - r.value.acknowledged <= (if batchSize > 0 then batchSize else 0)
                && (r.value.failed.None? ==> r.value.attempted == r.value.acknowledged)
                && (r.value.failed.Some? ==> !r.value.failed.value.Drained?)
      ensures r.Done? && db.foreign == old(db.foreign) ==>
                && OnlyDelivered(old(db.tables), db.tables, q, r.value.acknowledged)
                && (r.value.failed.Some? ==> |Pending(db.tables, q)| > 0)
                && (r.value.failed.None? && batchSize > 0 ==> |Pending(db.tables, q)| == 0)
      ensures r.Done? && db.foreign == old(db.foreign) ==>
                Ended(old(db.tables), old(db.log), db.tables, db.log, q, batches, Options(), r.value.attempted, r.value.acknowledged, r.value.failed)
      ensures db.foreign == old(db.foreign) ==> db.tables.runs == old(db.tables.runs)
    {
      hide Pending, Verdict, HeardIn, Database.Valid, AcknowledgeAll, Oldest, AsSent, SoFar, Ended, OnlyDelivered;
      cause, batches := Cause(q, [], None), [];
      var attempted: nat, acknowledged: nat := 0, 0;
      NothingDelivered(db.tables, q);
      Begins(db.tables, db.log, q, Options());
      while true
        invariant Valid() && old(db.acts) <= db.acts && db.foreign <= old(db.foreign) && old(db.log) <= db.log
        invariant attempted == acknowledged
        invariant db.foreign == old(db.foreign) ==> OnlyDelivered(old(db.tables), db.tables, q, acknowledged) && db.tables.runs == old(db.tables.runs)
        invariant db.foreign == old(db.foreign) ==>
                    SoFar(old(db.tables), old(db.log), db.tables, db.log, q, batches, Options(), attempted, acknowledged)
        decreases db.foreign, |Pending(db.tables, q)|
      {
        db.Interleave();
        var read := ReadPending(q);
        if read.Threw? { return Threw, cause, batches; }
        NothingRead(Pending(db.tables, q), batchSize, read.value);
        if |read.value| == 0 {
          if db.foreign == old(db.foreign) {
            Ends(old(db.tables), old(db.log), db.tables, db.log, q, batches, Options(), attempted, acknowledged);
          }
          return Done(DrainResult(attempted, acknowledged, None)), cause, batches;
        }
        ghost var tables, log := db.tables, db.log;
        var result;
        ghost var batch;
        result, batch := DeliverBatch(q, read.value);
        cause := Cause(q, read.value, batch.reply);
        HeardStays(db.log, db.log, |log|, |old(db.log)|, cause, Supported(q), maxAttempts);
        if result.Threw? { return Threw, cause, batches; }
        if db.foreign == old(db.foreign) {
          Continues(old(db.tables), old(db.log), tables, log, q, batches, Options(), attempted, acknowledged, batch);
        }
        DeliveredAgain(old(db.tables), tables, db.tables, q, acknowledged, result.value.acknowledged);
        batches := batches + [batch];
        attempted, acknowledged := attempted + |read.value|, acknowledged + result.value.acknowledged;
        if result.value.failed.Some? {
          return Done(DrainResult(attempted, acknowledged, result.value.failed)), cause, batches;
        }
      }
    }

    /** Both counts, with other processes free to act in between. */
    method Remaining() returns (r: Outcome<nat>)
      requires Valid()
      modifies db
      ensures Valid() && old(db.acts) <= db.acts && db.foreign <= old(db.foreign) && old(db.log) <= db.log
      ensures db.foreign == old(db.foreign) ==> db.tables == old(db.tables)
      ensures db.foreign == old(db.foreign) ==> db.log == old(db.log)
      ensures r.Done? && db.foreign == old(db.foreign) ==> r.value == Total(db.tables)
      ensures r == Done(0) ==> AllFlushed(old(db.tables), db.log)
    {
      hide Database.Valid, Pending, AllDelivered, Keeps;
      ghost var before, log := db.tables, db.log;
      KeepsTransitive(before, before, before);
      var throws: bool := *;
      if throws { return Threw; }
      var events := |Pending(db.tables, Events)|;
      if events == 0 { EmptyMeansDelivered(db, Events); }
      if !hasEvidence { return Done(events); }
      db.Interleave();
      throws := *;
      if throws { return Threw; }
      var documents := |Pending(db.tables, Observations)| + |Pending(db.tables, Snapshots)|;
      r := Done(events + documents);
      if events + documents == 0 {
        DeliveredSince(before, before, log, db.log, Events);
        EmptyMeansDelivered(db, Observations);
        EmptyMeansDelivered(db, Snapshots);
        DeliveredSince(before, db.tables, db.log, db.log, Observations);
        DeliveredSince(before, db.tables, db.log, db.log, Snapshots);
        EveryQueue(before, db.log);
      }
    }

    /** The failure is remembered before the remaining rows are counted. */
    method FailedResult(attempted: nat, acknowledged: nat, failed: FlushOutcome) returns (r: Outcome<FlushResult>)
      requires Valid()
      modifies this`everFailed, db
      ensures Valid() && everFailed && old(db.acts) <= db.acts && db.foreign <= old(db.foreign) && old(db.log) <= db.log
      ensures db.foreign == old(db.foreign) ==> db.tables == old(db.tables) && db.log == old(db.log)
      ensures r.Done? ==> r.value == FlushResult(attempted, acknowledged, r.value.remaining, failed)
      ensures r.Done? && db.foreign == old(db.foreign) ==> r.value.remaining == Total(db.tables)
    {
      everFailed := true;
      var remaining := Remaining();
      if remaining.Threw? { return Threw; }
      r := Done(FlushResult(attempted, acknowledged, remaining.value, failed));
    }

    /**
     * A boundary that did not drain has a cause: a reply of the plane that leads to this
     * outcome, or nothing could be sent, or rows came in behind it.
     */
    ghost predicate Explained(result: FlushResult, cause: Option<Cause>, since: nat, quiet: bool)
      reads db
    {
      result.outcome.Drained? ||
        if cause.Some? then Verdict(cause.value.items, cause.value.reply).1 == Some(result.outcome) && Heard(cause.value, since)
        else result.outcome.Partial? && result.remaining != 0 && (quiet ==> batchSize <= 0)
    }

    /** `FailedResult`, keeping the cause in view. */
    method FailAfter(attempted: nat, acknowledged: nat, failed: FlushOutcome, ghost cause: Cause, ghost since: nat) returns (r: Outcome<FlushResult>)
      requires Valid() && Heard(cause, since)
      modifies this`everFailed, db
      ensures Valid() && everFailed && old(db.acts) <= db.acts && db.foreign <= old(db.foreign) && Heard(cause, since)
      ensures db.foreign == old(db.foreign) ==> db.tables == old(db.tables) && db.log == old(db.log)
      ensures r.Done? ==> r.value == FlushResult(attempted, acknowledged, r.value.remaining, failed)
      ensures r.Done? && db.foreign == old(db.foreign) ==> r.value.remaining == Total(db.tables)
    {
      hide Pending;
      ghost var log := db.log;
      r := FailedResult(attempted, acknowledged, failed);
      HeardStays(log, db.log, since, since, cause, Supported(cause.queue), maxAttempts);
    }

    /** Observations and, unless that fails, context snapshots. */
    method DrainEvidence() returns (r: Outcome<DrainResult>, ghost cause: Cause, ghost observed: seq<Batch>, ghost snapped: seq<Batch>)
      requires Valid()
      modifies db
      ensures Valid() && old(db.acts) <= db.acts && db.foreign <= old(db.foreign) && old(db.log) <= db.log
      ensures r.Done? && r.value.failed.Some? ==>
                !cause.queue.Events? && Verdict(cause.items, cause.reply).1 == r.value.failed && Heard(cause, |old(db.log)|)
      ensures r.Done? ==>
                && r.value.acknowledged <= r.value.attempted
                && r.value.attempted - r.value.acknowledged <= (if batchSize > 0 then batchSize else 0)
                && (r.value.failed.None? ==> r.value.attempted == r.value.acknowledged)
                && (r.value.failed.Some? ==> !r.value.failed.value.Drained?)
      ensures r.Done? && db.foreign == old(db.foreign) ==>
                && Staged(old(db.tables)) == r.value.acknowledged + Staged(db.tables)
                && Pending(db.tables, Events) == Pending(old(db.tables), Events)
                && (r.value.failed.Some? ==> Staged(db.tables) > 0)
                && (r.value.failed.None? && batchSize > 0 ==> Staged(db.tables) == 0)
      ensures r.Done? && db.foreign == old(db.foreign) ==>
                && IsEvidenceDrain(old(db.tables), Drains([], observed, snapped), Options())
                && db.tables == After(After(old(db.tables), Observations, observed), Snapshots, snapped)
                && db.log == old(db.log) + Sent(observed) + Sent(snapped)
                && r.value.attempted == Asked(observed) + Asked(snapped)
                && r.value.acknowledged == Acknowledged(observed) + Acknowledged(snapped)
                && r.value.failed == (if FailureOf(observed).Some? then FailureOf(observed) else FailureOf(snapped))
                && (r.value.failed.Some? ==> cause.queue == if FailureOf(observed).Some? then Observations else Snapshots)
      ensures db.foreign == old(db.foreign) ==> db.tables.runs == old(db.tables.runs)
    {
      hide Pending, Verdict, HeardIn, Database.Valid, After, Sent, Asked, Acknowledged, FailureOf, IsDrain;
      observed, snapped := [], [];
      ghost var since := |db.log|;
      var observations;
      observations, cause, observed := Drain(Observations);
      NoBatches(db.tables, Snapshots, Options());
      Whole([]);
      if observations.Threw? || observations.value.failed.Some? { return observations, cause, observed, []; }
      var snapshots;
      ghost var log := |db.log|;
      snapshots, cause, snapped := Drain(Snapshots);
      if snapshots.Threw? { return snapshots, cause, observed, snapped; }
      if snapshots.value.failed.Some? { HeardStays(db.log, db.log, log, since, cause, Supported(Snapshots), maxAttempts); }
      r := Done(DrainResult(observations.value.attempted + snapshots.value.attempted,
                            observations.value.acknowledged + snapshots.value.acknowledged, snapshots.value.failed));
    }

    /** No queue failed: what came in meanwhile decides. */
    method CountRest(attempted: nat, acknowledged: nat) returns (r: Outcome<FlushResult>)
      requires Valid()
      modifies this`everFailed, db
      ensures Valid() && old(db.acts) <= db.acts && db.foreign <= old(db.foreign)
      ensures db.foreign == old(db.foreign) ==> db.tables == old(db.tables) && db.log == old(db.log)
      ensures r.Threw? ==> everFailed == old(everFailed)
      ensures r.Done? ==>
                && r.value == FlushResult(attempted, acknowledged, r.value.remaining, if r.value.remaining == 0 then FlushOutcome.Drained else Partial)
                && everFailed == (old(everFailed) || r.value.remaining != 0)
                && (r.value.remaining == 0 ==> AllFlushed(old(db.tables), db.log))
      ensures r.Done? && db.foreign == old(db.foreign) ==> r.value.remaining == Total(db.tables)
    {
      hide Pending, AllFlushed, Database.Valid;
      var remaining := Remaining();
      if remaining.Threw? { return Threw; }
      if remaining.value != 0 {
        everFailed := true;
        return Done(FlushResult(attempted, acknowledged, remaining.value, Partial));
      }
      r := Done(FlushResult(attempted, acknowledged, 0, FlushOutcome.Drained));
    }

    /** What a flush that nobody disturbed did to the queues, and how it describes that. */
    ghost predicate Accounted(before: Tables, after: Tables, result: FlushResult) {
      && Total(before) == result.acknowledged + result.remaining
      && result.remaining == Total(after)
      && (result.outcome.Drained? <==> result.remaining == 0)
      && after.runs == before.runs
    }

    ghost predicate AtMostOneBatchLost(result: FlushResult) {
      0 <= result.attempted - result.acknowledged <= if batchSize > 0 then batchSize else 0
    }

    /** What the result says of the batches: all their counts, and the first failure. */
    ghost predicate Tells(result: FlushResult, ds: Drains) {
      && result.attempted == AskedBy(ds) && result.acknowledged == AcknowledgedBy(ds)
      && result.outcome == FlushFailure(ds).GetOr(if result.remaining == 0 then FlushOutcome.Drained else Partial)
    }

    /** The three queues, stopping at the first that fails. */
    method DrainAll() returns (r: Outcome<DrainResult>, ghost cause: Option<Cause>, ghost drains: Drains)
      requires Valid()
      modifies db
      ensures Valid() && old(db.acts) <= db.acts && db.foreign <= old(db.foreign) && old(db.log) <= db.log
      ensures r.Done? ==> (cause.Some? <==> r.value.failed.Some?)
      ensures r.Done? && cause.Some? ==>
                Verdict(cause.value.items, cause.value.reply).1 == r.value.failed && Heard(cause.value, |old(db.log)|)
      ensures r.Done? ==>
                && 0 <= r.value.attempted - r.value.acknowledged <= (if batchSize > 0 then batchSize else 0)
                && (r.value.failed.Some? ==> !r.value.failed.value.Drained?)
      ensures r.Done? && db.foreign == old(db.foreign) ==>
                && Total(old(db.tables)) == r.value.acknowledged + Total(db.tables)
                && (r.value.failed.Some? ==> Total(db.tables) > 0)
                && (r.value.failed.None? && batchSize > 0 ==> Total(db.tables) == 0)
      ensures r.Done? && db.foreign == old(db.foreign) ==>
                && IsFlush(old(db.tables), drains, Options())
                && db.tables == AfterFlush(old(db.tables), drains) && db.log == old(db.log) + SentBy(drains)
                && r.value == DrainResult(AskedBy(drains), AcknowledgedBy(drains), FlushFailure(drains)) && CausedBy(cause, drains)
      ensures db.foreign == old(db.foreign) ==> db.tables.runs == old(db.tables.runs)
    {
      hide Pending, Verdict, HeardIn, Database.Valid, After, Sent, Asked, Acknowledged, FailureOf, IsDrain,
        IsEvidenceDrain, IsFlush, AfterFlush, SentBy, AskedBy, AcknowledgedBy;
      ghost var start, log := db.tables, |db.log|;
      var events;
      ghost var why, batches;
      events, why, batches := Drain(Events);
      cause, drains := if events.Done? && events.value.failed.Some? then Some(why) else None, Drains(batches, [], []);
      if events.Done? && db.foreign == old(db.foreign) && (events.value.failed.Some? || !hasEvidence) { EventsOnly(start, batches, Options()); }
      if events.Threw? || events.value.failed.Some? || !hasEvidence { return events, cause, drains; }
      var evidence;
      ghost var observed, snapped, since := [], [], |db.log|;
      evidence, why, observed, snapped := DrainEvidence();
      drains := drains.(observations := observed, snapshots := snapped);
      if evidence.Threw? { return Threw, None, drains; }
      if db.foreign == old(db.foreign) { ThenEvidence(start, batches, observed, snapped, Options()); }
      if evidence.value.failed.Some? {
        HeardStays(db.log, db.log, since, log, why, Supported(why.queue), maxAttempts);
        cause := Some(why);
      }
      r := Done(DrainResult(events.value.attempted + evidence.value.attempted, events.value.acknowledged + evidence.value.acknowledged,
                            evidence.value.failed));
    }

    method TryFlush() returns (r: Outcome<FlushResult>, ghost cause: Option<Cause>, ghost drains: Drains)
      requires Valid()
      modifies this`everFailed, db
      ensures Valid() && old(db.acts) <= db.acts && db.foreign <= old(db.foreign)
      ensures old(everFailed) ==> everFailed
      ensures r.Done? ==> AtMostOneBatchLost(r.value)
      ensures r.Done? ==> everFailed == (old(everFailed) || !r.value.outcome.Drained?)
      ensures r.Done? && r.value.outcome.Drained? ==> r.value.remaining == 0 && AllFlushed(old(db.tables), db.log)
      ensures r.Done? && db.foreign == old(db.foreign) ==> Accounted(old(db.tables), db.tables, r.value)
      ensures r.Done? ==> Explained(r.value, cause, |old(db.log)|, db.foreign == old(db.foreign))
      ensures r.Done? && db.foreign == old(db.foreign) ==>
                && IsFlush(old(db.tables), drains, Options())
                && db.tables == AfterFlush(old(db.tables), drains) && db.log == old(db.log) + SentBy(drains)
                && Tells(r.value, drains) && CausedBy(cause, drains)
      ensures db.foreign == old(db.foreign) ==> db.tables.runs == old(db.tables.runs)
    {
      hide Pending, Verdict, HeardIn, Database.Valid, StoodAt, AllFlushed, IsFlush, AfterFlush, SentBy, AskedBy, AcknowledgedBy, FlushFailure, FailedQueue, Keeps;
      ghost var acts, start, log := db.acts, db.tables, db.log;
      StandsNow(db);
      var drained;
      drained, cause, drains := DrainAll();
      if drained.Threw? { return Threw, cause, drains; }
      if drained.value.failed.Some? {
        r := FailAfter(drained.value.attempted, drained.value.acknowledged, drained.value.failed.value, cause.value, |log|);
        return;
      }
      KeptSince(db, acts, start, log);
      ghost var before := db.tables;
      r := CountRest(drained.value.attempted, drained.value.acknowledged);
      if r.Done? && r.value.remaining == 0 { FlushedSince(start, before, db.log); }
    }

    lemma FlushedSince(start: Tables, now: Tables, log: seq<Exchange>)
      requires Keeps(start, now) && AllFlushed(now, log)
      ensures AllFlushed(start, log)
    {
      hide Keeps, AllDelivered;
      forall q: Queue | q.Events? || hasEvidence ensures AllDelivered(start, log, q) {
        DeliveredSince(start, now, log, log, q);
      }
    }

    lemma EveryQueue(t: Tables, log: seq<Exchange>)
      requires AllDelivered(t, log, Events) && AllDelivered(t, log, Observations) && AllDelivered(t, log, Snapshots)
      ensures AllFlushed(t, log)
    {
      hide AllDelivered;
      forall q: Queue ensures AllDelivered(t, log, q) {
        match q
        case Events =>
        case Observations =>
        case Snapshots =>
      }
    }

    /**
     * One boundary. Undisturbed, every pending item is either acknowledged or still
     * counted, and the boundary is drained exactly when nothing remains, which is
     * exactly when it leaves no failure behind. A throw is a failure too. Events go
     * first and each queue is reached only over empty ones. However disturbed, a drained
     * boundary means that everything recorded before it was delivered.
     */
    method Flush() returns (r: Outcome<FlushResult>, ghost cause: Option<Cause>, ghost drains: Drains)
      requires Valid()
      modifies this`everFailed, db
      ensures Valid() && old(db.acts) <= db.acts && db.foreign <= old(db.foreign)
      ensures r.Threw? ==> everFailed
      ensures r.Done? ==> AtMostOneBatchLost(r.value)
      ensures r.Done? ==> everFailed == (old(everFailed) || !r.value.outcome.Drained?)
      ensures r.Done? && r.value.outcome.Drained? ==> r.value.remaining == 0 && AllFlushed(old(db.tables), db.log)
      ensures r.Done? && db.foreign == old(db.foreign) ==> Accounted(old(db.tables), db.tables, r.value)
      ensures r.Done? ==> Explained(r.value, cause, |old(db.log)|, db.foreign == old(db.foreign))
      ensures r.Done? && db.foreign == old(db.foreign) ==>
                && IsFlush(old(db.tables), drains, Options())
                && db.tables == AfterFlush(old(db.tables), drains) && db.log == old(db.log) + SentBy(drains)
                && Tells(r.value, drains)
      ensures db.foreign == old(db.foreign) ==> db.tables.runs == old(db.tables.runs)
      ensures r.Done? && db.foreign == old(db.foreign) && batchSize > 0 ==>
                && ReachedInOrder(db.log[|old(db.log)|..], db.tables)
                && StoppedInOrder(db.log[|old(db.log)|..], db.tables, cause)
    {
      hide HeardIn, Verdict, IsFlush, AfterFlush, SentBy, AllFlushed, ReachedInOrder, StoppedInOrder, CausedBy, Tells;
      ghost var start, log := db.tables, db.log;
      r, cause, drains := TryFlush();
      if r.Threw? { everFailed := true; }
      if r.Done? && db.foreign == old(db.foreign) && batchSize > 0 {
        FlushReachedInOrder(start, drains, Options());
        StopsInOrder(start, drains, cause, Options());
        assert db.log[|log|..] == SentBy(drains);
      }
    }
  }

  ghost function FailedQueue(ds: Drains): Queue {
    if FailureOf(ds.events).Some? then Events else if FailureOf(ds.observations).Some? then Observations else Snapshots
  }

  /** The cause of a flush is the failure of the first queue that failed. */
  ghost predicate CausedBy(cause: Option<Cause>, ds: Drains) {
    && (cause.None? <==> FlushFailure(ds).None?)
    && (cause.Some? ==> cause.value.queue == FailedQueue(ds))
  }

  /**
   * Events are all delivered unless an event batch is the cause, and then nothing else
   * was sent; snapshots are the cause only when the observations are all delivered.
   */
  ghost predicate StoppedInOrder(xs: seq<Exchange>, after: Tables, cause: Option<Cause>) {
    if cause.Some? && cause.value.queue.Events? then forall i :: 0 <= i < |xs| ==> xs[i].queue.Events?
    else
      && Pending(after, Events) == map[]
      && (cause.Some? && cause.value.queue.Snapshots? ==> Pending(after, Observations) == map[])
  }

  lemma StopsInOrder(t: Tables, ds: Drains, cause: Option<Cause>, o: Settings)
    requires IsFlush(t, ds, o) && o.batchSize > 0 && CausedBy(cause, ds)
    ensures StoppedInOrder(SentBy(ds), AfterFlush(t, ds), cause)
  {
    hide Batches, Pending, Verdict, After, Sent;
    FlushInOrder(t, ds, o);
    if FailureOf(ds.events).Some? {
      forall i | 0 <= i < |SentBy(ds)| ensures SentBy(ds)[i].queue == Events { SentForQueue(t, Events, ds.events, o, i); }
    } else if !o.hasEvidence {
      NoBatches(t, Events, o);
    }
  }

  lemma DeliveredAgain(a: Tables, b: Tables, c: Tables, q: Queue, m: nat, n: nat)
    ensures OnlyDelivered(a, b, q, m) && OnlyDelivered(b, c, q, n) ==> OnlyDelivered(a, c, q, m + n)
    ensures OnlyDelivered(b, c, q, n) ==> |Pending(b, q)| == n + |Pending(c, q)|
  {
    hide Pending;
  }

  lemma NothingRead(rows: map<Id, Item>, limit: int, items: seq<Item>)
    requires Oldest(rows, limit, items)
    ensures |items| == 0 && limit > 0 ==> |rows| == 0
  {
  }

  lemma NothingDelivered(t: Tables, q: Queue)
    ensures OnlyDelivered(t, t, q, 0)
  {
  }

  lemma StillPending(t: Tables, q: Queue, ids: set<Id>)
    requires ids <= Pending(t, q).Keys && |ids| > 0
    ensures |Pending(t, q)| > 0
  {
    hide Pending;
    SubsetCount(ids, Pending(t, q).Keys);
  }

  /** A partly accepted batch leaves something queued. */
  lemma PartlyPending(before: Tables, after: Tables, q: Queue, count: nat, requested: set<Id>)
    requires OnlyDelivered(before, after, q, count)
    requires requested <= Pending(before, q).Keys && count < |requested|
    ensures |Pending(after, q)| > 0
  {
    hide Pending;
    SubsetCount(requested, Pending(before, q).Keys);
  }

  lemma {:induction false} ReadRowsRecorded(db: Database, q: Queue, items: seq<Item>, limit: int)
    requires db.Valid() && Oldest(Pending(db.tables, q), limit, items)
    ensures forall i :: 0 <= i < |items| ==> IsRecorded(db.tables, q, items[i])
  {
    StateConsistent(db);
    PendingKeyed(db.tables, q);
    forall i | 0 <= i < |items| ensures IsRecorded(db.tables, q, items[i]) {
      assert Stored(Pending(db.tables, q), items[i]);
    }
  }

  /** Ids an accepted reply named, for a batch that asked about them. */
  lemma AcceptedNamed(log: seq<Exchange>, from: nat, q: Queue, items: seq<Item>, reply: Reply, supported: bool, attempts: int)
    requires reply.AcceptedIds? && HeardIn(log, from, Cause(q, items, Some(reply)), supported, attempts)
    ensures forall id :: id in reply.ids && id in Ids(items) ==> Named(log, q, id)
  {
    var k :| 0 <= k < |log| && log[k] == Exchange(q, items, reply);
    forall id | id in reply.ids && id in Ids(items) ensures Named(log, q, id) {
      var i :| 0 <= i < |items| && items[i].id == id;
      assert DeliveredBy(log[k], q, log[k].items[i]);
    }
  }

  lemma NamedStays(log: seq<Exchange>, more: seq<Exchange>, q: Queue, ids: set<Id>)
    requires log <= more && forall id :: id in ids ==> Named(log, q, id)
    ensures forall id :: id in ids ==> Named(more, q, id)
  {
    forall id | id in ids ensures Named(more, q, id) {
      var k :| 0 <= k < |log| && exists i :: 0 <= i < |log[k].items| && log[k].items[i].id == id && DeliveredBy(log[k], q, log[k].items[i]);
      assert more[k] == log[k];
    }
  }

  lemma SubsetCount<T>(a: set<T>, b: set<T>)
    requires a <= b
    ensures |a| <= |b|
  {
    assert b == a + (b - a);
  }
}
