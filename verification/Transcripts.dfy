/**
 * What a flush that nobody disturbs says to the plane and does to the queues, given
 * what the plane answers: batch by batch, queue after queue.
 */
module Transcripts {
  import opened Wrappers
  import opened Evidence
  import opened SqliteStores

  datatype FlushOutcome = Drained | Partial | Unreachable | Rejected

  /** What the last reply to a batch leads to: the ids to acknowledge, and how the drain failed. */
  ghost function Verdict(items: seq<Item>, reply: Option<Reply>): (set<Id>, Option<FlushOutcome>) {
    if reply.None? || reply.value.UnreachableReply? then ({}, Some(Unreachable))
    else if reply.value.RejectedReply? then ({}, Some(Rejected))
    else
      var named := IdSet(reply.value.ids);
      if !(named <= Ids(items)) then ({}, Some(Unreachable))
      else (named, if named == Ids(items) then None else Some(Partial))
  }

  /** The attempts at one batch: the same batch again until it is answered or attempts run out. */
  ghost predicate Attempts(xs: seq<Exchange>, q: Queue, items: seq<Item>, reply: Option<Reply>, maxAttempts: int) {
    && (forall i :: 0 <= i < |xs| ==> xs[i] == Exchange(q, items, if i < |xs| - 1 then UnreachableReply else reply.GetOr(UnreachableReply)))
    && |xs| <= (if maxAttempts > 0 then maxAttempts else 0)
    && (reply.None? <==> xs == [])
    && (reply.GetOr(UnreachableReply).UnreachableReply? ==> |xs| == if maxAttempts > 0 then maxAttempts else 0)
  }

  datatype Settings = Settings(hasEvidence: bool, sendsSnapshots: bool, batchSize: int, maxAttempts: int)

  predicate Supports(o: Settings, q: Queue) { q.Snapshots? ==> o.sendsSnapshots }

  // --- one queue -------------------------------------------------------------------------

  /** A batch as it was read, the last reply to it, and the exchanges it took. */
  datatype Batch = Batch(items: seq<Item>, reply: Option<Reply>, sent: seq<Exchange>)

  ghost function Accepted(b: Batch): set<Id> { Verdict(b.items, b.reply).0 }

  ghost function Failure(b: Batch): Option<FlushOutcome> { Verdict(b.items, b.reply).1 }

  /** A queue the plane does not take is not asked about, and reads as unreachable. */
  ghost predicate AsSent(b: Batch, q: Queue, o: Settings) {
    if Supports(o, q) then Attempts(b.sent, q, b.items, b.reply, o.maxAttempts)
    else b.sent == [] && b.reply == if o.maxAttempts > 0 then Some(UnreachableReply) else None
  }

  /** The queues after these batches. */
  ghost function After(t: Tables, q: Queue, bs: seq<Batch>): Tables {
    if bs == [] then t else AcknowledgeAll(After(t, q, bs[..|bs| - 1]), q, Accepted(bs[|bs| - 1]))
  }

  function Sent(bs: seq<Batch>): seq<Exchange> {
    if bs == [] then [] else Sent(bs[..|bs| - 1]) + bs[|bs| - 1].sent
  }

  function Asked(bs: seq<Batch>): nat {
    if bs == [] then 0 else Asked(bs[..|bs| - 1]) + |bs[|bs| - 1].items|
  }

  ghost function Acknowledged(bs: seq<Batch>): nat {
    if bs == [] then 0 else Acknowledged(bs[..|bs| - 1]) + |Accepted(bs[|bs| - 1])|
  }

  ghost predicate AllWhole(bs: seq<Batch>) { forall i :: 0 <= i < |bs| ==> Failure(bs[i]).None? }

  /** Every batch is the oldest rows still pending, and only the last one may have failed. */
  ghost predicate Batches(t: Tables, q: Queue, bs: seq<Batch>, o: Settings) {
    bs == [] ||
      var front, last := bs[..|bs| - 1], bs[|bs| - 1];
      && Batches(t, q, front, o) && AllWhole(front)
      && last.items != [] && Oldest(Pending(After(t, q, front), q), o.batchSize, last.items)
      && AsSent(last, q, o)
  }

  ghost function FailureOf(bs: seq<Batch>): Option<FlushOutcome> {
    if bs == [] then None else Failure(bs[|bs| - 1])
  }

  /** It stops at the first failure, or when there is nothing more to read. */
  ghost predicate IsDrain(t: Tables, q: Queue, bs: seq<Batch>, o: Settings) {
    Batches(t, q, bs, o) && (FailureOf(bs).None? ==> AllWhole(bs) && Oldest(Pending(After(t, q, bs), q), o.batchSize, []))
  }

  lemma NoBatches(t: Tables, q: Queue, o: Settings)
    ensures Batches(t, q, [], o) && AllWhole([]) && After(t, q, []) == t && Sent([]) == [] && Asked([]) == 0 == Acknowledged([])
  {
  }

  lemma NextBatch(t: Tables, q: Queue, bs: seq<Batch>, b: Batch, o: Settings)
    requires Batches(t, q, bs, o) && AllWhole(bs)
    requires b.items != [] && Oldest(Pending(After(t, q, bs), q), o.batchSize, b.items) && AsSent(b, q, o)
    ensures Batches(t, q, bs + [b], o) && FailureOf(bs + [b]) == Failure(b)
    ensures Failure(b).None? ==> AllWhole(bs + [b])
    ensures After(t, q, bs + [b]) == AcknowledgeAll(After(t, q, bs), q, Accepted(b))
    ensures Sent(bs + [b]) == Sent(bs) + b.sent
    ensures Asked(bs + [b]) == Asked(bs) + |b.items| && Acknowledged(bs + [b]) == Acknowledged(bs) + |Accepted(b)|
  {
    hide Oldest, AsSent, Pending, AcknowledgeAll, Verdict;
    var all := bs + [b];
    assert all[..|all| - 1] == bs;
  }

  /** A drain under way: nothing failed yet. */
  ghost predicate SoFar(t: Tables, log: seq<Exchange>, u: Tables, more: seq<Exchange>, q: Queue, bs: seq<Batch>, o: Settings, asked: nat, done: nat) {
    && Batches(t, q, bs, o) && AllWhole(bs)
    && u == After(t, q, bs) && more == log + Sent(bs) && asked == Asked(bs) && done == Acknowledged(bs)
  }

  /** A drain at its end. */
  ghost predicate Ended(t: Tables, log: seq<Exchange>, u: Tables, more: seq<Exchange>, q: Queue, bs: seq<Batch>, o: Settings, asked: nat, done: nat, failed: Option<FlushOutcome>) {
    && IsDrain(t, q, bs, o)
    && u == After(t, q, bs) && more == log + Sent(bs)
    && asked == Asked(bs) && done == Acknowledged(bs) && failed == FailureOf(bs)
  }

  lemma Begins(t: Tables, log: seq<Exchange>, q: Queue, o: Settings)
    ensures SoFar(t, log, t, log, q, [], o, 0, 0)
  {
    NoBatches(t, q, o);
  }

  lemma Continues(t: Tables, log: seq<Exchange>, u: Tables, more: seq<Exchange>, q: Queue, bs: seq<Batch>, o: Settings, asked: nat, done: nat, b: Batch)
    requires SoFar(t, log, u, more, q, bs, o, asked, done)
    requires b.items != [] && Oldest(Pending(u, q), o.batchSize, b.items) && AsSent(b, q, o)
    ensures var v := AcknowledgeAll(u, q, Accepted(b));
            if Failure(b).None? then SoFar(t, log, v, more + b.sent, q, bs + [b], o, asked + |b.items|, done + |Accepted(b)|)
            else Ended(t, log, v, more + b.sent, q, bs + [b], o, asked + |b.items|, done + |Accepted(b)|, Failure(b))
  {
    hide Oldest, AsSent, Pending, AcknowledgeAll, Verdict, Batches, After, Sent, Asked, Acknowledged, AllWhole, FailureOf;
    NextBatch(t, q, bs, b, o);
  }

  lemma Ends(t: Tables, log: seq<Exchange>, u: Tables, more: seq<Exchange>, q: Queue, bs: seq<Batch>, o: Settings, asked: nat, done: nat)
    requires SoFar(t, log, u, more, q, bs, o, asked, done) && Oldest(Pending(u, q), o.batchSize, [])
    ensures Ended(t, log, u, more, q, bs, o, asked, done, None)
  {
    hide Oldest, Pending, Batches, After, Sent, Asked, Acknowledged, AllWhole, FailureOf;
    Whole(bs);
  }

  lemma Whole(bs: seq<Batch>)
    requires AllWhole(bs)
    ensures FailureOf(bs).None?
  {
  }

  /** Every exchange of a drain is for its queue. */
  lemma {:induction false} SentForQueue(t: Tables, q: Queue, bs: seq<Batch>, o: Settings, i: nat)
    requires Batches(t, q, bs, o) && i < |Sent(bs)|
    ensures Sent(bs)[i].queue == q
  {
    hide Oldest, Pending, AcknowledgeAll, Verdict;
    var front := bs[..|bs| - 1];
    if i < |Sent(front)| { SentForQueue(t, q, front, o, i); }
  }

  /** And it leaves the other queues and the runs alone. */
  lemma {:induction false} OthersUntouched(t: Tables, q: Queue, bs: seq<Batch>)
    ensures forall other: Queue :: other != q ==> Pending(After(t, q, bs), other) == Pending(t, other)
    ensures After(t, q, bs).runs == t.runs
  {
    hide Verdict;
    if bs != [] { OthersUntouched(t, q, bs[..|bs| - 1]); }
  }

  // --- one boundary ----------------------------------------------------------------------------

  /** The batches of each queue. */
  datatype Drains = Drains(events: seq<Batch>, observations: seq<Batch>, snapshots: seq<Batch>)

  ghost function FlushFailure(ds: Drains): Option<FlushOutcome> {
    if FailureOf(ds.events).Some? then FailureOf(ds.events)
    else if FailureOf(ds.observations).Some? then FailureOf(ds.observations)
    else FailureOf(ds.snapshots)
  }

  ghost function AfterFlush(t: Tables, ds: Drains): Tables {
    After(After(After(t, Events, ds.events), Observations, ds.observations), Snapshots, ds.snapshots)
  }

  function SentBy(ds: Drains): seq<Exchange> { Sent(ds.events) + Sent(ds.observations) + Sent(ds.snapshots) }

  function AskedBy(ds: Drains): nat { Asked(ds.events) + Asked(ds.observations) + Asked(ds.snapshots) }

  ghost function AcknowledgedBy(ds: Drains): nat {
    Acknowledged(ds.events) + Acknowledged(ds.observations) + Acknowledged(ds.snapshots)
  }

  /** Observations, then snapshots unless the observations failed. */
  ghost predicate IsEvidenceDrain(t: Tables, ds: Drains, o: Settings) {
    && IsDrain(t, Observations, ds.observations, o)
    && if FailureOf(ds.observations).Some? then ds.snapshots == []
       else IsDrain(After(t, Observations, ds.observations), Snapshots, ds.snapshots, o)
  }

  /** Events first; documents only when there are any to send and no event failed. */
  ghost predicate IsFlush(t: Tables, ds: Drains, o: Settings) {
    && IsDrain(t, Events, ds.events, o)
    && if FailureOf(ds.events).Some? || !o.hasEvidence then ds.observations == [] && ds.snapshots == []
       else IsEvidenceDrain(After(t, Events, ds.events), ds, o)
  }

  lemma EventsOnly(t: Tables, es: seq<Batch>, o: Settings)
    requires IsDrain(t, Events, es, o) && (FailureOf(es).Some? || !o.hasEvidence)
    ensures var ds := Drains(es, [], []);
            && IsFlush(t, ds, o) && AfterFlush(t, ds) == After(t, Events, es) && SentBy(ds) == Sent(es)
            && AskedBy(ds) == Asked(es) && AcknowledgedBy(ds) == Acknowledged(es) && FlushFailure(ds) == FailureOf(es)
  {
    hide IsDrain;
    NoBatches(After(t, Events, es), Observations, o);
  }

  lemma ThenEvidence(t: Tables, es: seq<Batch>, os: seq<Batch>, ss: seq<Batch>, o: Settings)
    requires IsDrain(t, Events, es, o) && FailureOf(es).None? && o.hasEvidence
    requires IsEvidenceDrain(After(t, Events, es), Drains([], os, ss), o)
    ensures var ds := Drains(es, os, ss);
            && IsFlush(t, ds, o) && AfterFlush(t, ds) == After(After(After(t, Events, es), Observations, os), Snapshots, ss)
            && SentBy(ds) == Sent(es) + Sent(os) + Sent(ss)
            && AskedBy(ds) == Asked(es) + Asked(os) + Asked(ss)
            && AcknowledgedBy(ds) == Acknowledged(es) + Acknowledged(os) + Acknowledged(ss)
            && FlushFailure(ds) == if FailureOf(os).Some? then FailureOf(os) else FailureOf(ss)
  {
    hide IsDrain;
  }

  function Place(q: Queue): nat {
    match q
    case Events => 0
    case Observations => 1
    case Snapshots => 2
  }

  /** A queue is reached only after every queue before it was emptied. */
  ghost predicate ReachedInOrder(xs: seq<Exchange>, after: Tables) {
    && (forall i, j :: 0 <= i < j < |xs| ==> Place(xs[i].queue) <= Place(xs[j].queue))
    && forall i, q: Queue :: 0 <= i < |xs| && Place(q) < Place(xs[i].queue) ==> Pending(after, q) == map[]
  }

  /** A drain that did not fail emptied its queue, unless it may read nothing. */
  lemma EmptiedUnlessFailed(t: Tables, q: Queue, bs: seq<Batch>, o: Settings)
    requires IsDrain(t, q, bs, o) && FailureOf(bs).None? && o.batchSize > 0
    ensures Pending(After(t, q, bs), q) == map[]
  {
    hide Pending, Batches;
    EmptyMap(Pending(After(t, q, bs), q));
  }

  lemma EmptyMap(rows: map<Id, Item>)
    ensures |rows| == 0 ==> rows == map[]
  {
    if rows != map[] {
      var id :| id in rows;
      assert id in rows.Keys && |rows.Keys| == |rows|;
    }
  }

  /**
   * The order of the three queues: events are all delivered, or the only thing sent;
   * snapshots are reached only over delivered observations.
   */
  lemma {:induction false} FlushInOrder(t: Tables, ds: Drains, o: Settings)
    requires IsFlush(t, ds, o) && o.batchSize > 0
    ensures var u := AfterFlush(t, ds);
            && (FailureOf(ds.events).None? ==> Pending(u, Events) == map[])
            && (FailureOf(ds.events).None? && FailureOf(ds.observations).None? && o.hasEvidence ==> Pending(u, Observations) == map[])
            && (FlushFailure(ds).None? && o.hasEvidence ==> Pending(u, Snapshots) == map[])
            && (FailureOf(ds.events).Some? || !o.hasEvidence ==>
                  && SentBy(ds) == Sent(ds.events)
                  && Pending(u, Observations) == Pending(t, Observations) && Pending(u, Snapshots) == Pending(t, Snapshots))
            && (FailureOf(ds.observations).Some? ==>
                  SentBy(ds) == Sent(ds.events) + Sent(ds.observations) && Pending(u, Snapshots) == Pending(t, Snapshots))
  {
    hide Pending, Batches, Failure;
    var a := After(t, Events, ds.events);
    var b := After(a, Observations, ds.observations);
    OthersUntouched(t, Events, ds.events);
    OthersUntouched(a, Observations, ds.observations);
    OthersUntouched(b, Snapshots, ds.snapshots);
    if FailureOf(ds.events).None? {
      EmptiedUnlessFailed(t, Events, ds.events, o);
      if o.hasEvidence && FailureOf(ds.observations).None? {
        EmptiedUnlessFailed(a, Observations, ds.observations, o);
        if FailureOf(ds.snapshots).None? { EmptiedUnlessFailed(b, Snapshots, ds.snapshots, o); }
      }
    }
  }

  /** Which exchanges are for which queue. */
  lemma {:induction false} SentInParts(t: Tables, ds: Drains, o: Settings, i: nat)
    requires IsFlush(t, ds, o) && i < |SentBy(ds)|
    ensures SentBy(ds)[i].queue ==
            if i < |Sent(ds.events)| then Events
            else if i < |Sent(ds.events)| + |Sent(ds.observations)| then Observations else Snapshots
  {
    hide Batches, After, Sent, FailureOf, Pending;
    var a := After(t, Events, ds.events);
    var m := |Sent(ds.events)|;
    var n := m + |Sent(ds.observations)|;
    NothingSentOf();
    if i < m { SentForQueue(t, Events, ds.events, o, i); }
    else if i < n { SentForQueue(a, Observations, ds.observations, o, i - m); }
    else { SentForQueue(After(a, Observations, ds.observations), Snapshots, ds.snapshots, o, i - n); }
  }

  lemma NothingSentOf()
    ensures Sent([]) == [] && FailureOf([]).None?
  {
  }

  lemma {:induction false} FlushReachedInOrder(t: Tables, ds: Drains, o: Settings)
    requires IsFlush(t, ds, o) && o.batchSize > 0
    ensures ReachedInOrder(SentBy(ds), AfterFlush(t, ds))
  {
    hide Pending, IsFlush, AfterFlush, Sent, FailureOf;
    var xs := SentBy(ds);
    FlushInOrder(t, ds, o);
    NothingSentOf();
    forall i | 0 <= i < |xs|
      ensures xs[i].queue == if i < |Sent(ds.events)| then Events
                             else if i < |Sent(ds.events)| + |Sent(ds.observations)| then Observations else Snapshots
    {
      SentInParts(t, ds, o, i);
    }
    ReachedOnlyOver(t, ds, o);
  }

  /** What was reached at all shows which drains came to their end. */
  lemma ReachedOnlyOver(t: Tables, ds: Drains, o: Settings)
    requires IsFlush(t, ds, o) && o.batchSize > 0
    ensures forall i, q: Queue :: 0 <= i < |SentBy(ds)| && Place(q) < Place(SentBy(ds)[i].queue) ==> Pending(AfterFlush(t, ds), q) == map[]
  {
    hide Pending, AfterFlush, Batches, After, Sent, Failure;
    FlushInOrder(t, ds, o);
    NothingSentOf();
    forall i, q: Queue | 0 <= i < |SentBy(ds)| && Place(q) < Place(SentBy(ds)[i].queue) ensures Pending(AfterFlush(t, ds), q) == map[] {
      SentInParts(t, ds, o, i);
      match q
      case Events =>
      case Observations =>
      case Snapshots =>
    }
  }

  // --- one boundary of a process that also writes to the runs --------------------------------------

  ghost predicate Boundary(t: Tables, log: seq<Exchange>, u: Tables, more: seq<Exchange>, ds: Drains, o: Settings) {
    IsFlush(t, ds, o) && SameQueues(AfterFlush(t, ds), u) && more == log + SentBy(ds)
  }

  lemma AcknowledgeIgnoresRuns(t: Tables, runs: map<Id, RunRow>, q: Queue, ids: set<Id>)
    ensures AcknowledgeAll(t.(runs := runs), q, ids) == AcknowledgeAll(t, q, ids).(runs := runs)
    ensures Pending(t.(runs := runs), q) == Pending(t, q)
  {
  }

  lemma {:induction false} BatchesIgnoreRuns(t: Tables, runs: map<Id, RunRow>, q: Queue, bs: seq<Batch>, o: Settings)
    ensures After(t.(runs := runs), q, bs) == After(t, q, bs).(runs := runs)
    ensures Batches(t.(runs := runs), q, bs, o) == Batches(t, q, bs, o)
  {
    hide Pending, AcknowledgeAll, Oldest, Verdict, AsSent;
    if bs != [] {
      var front, last := bs[..|bs| - 1], bs[|bs| - 1];
      BatchesIgnoreRuns(t, runs, q, front, o);
      AcknowledgeIgnoresRuns(After(t, q, front), runs, q, Accepted(last));
    }
  }

  lemma {:induction false} DrainIgnoresRuns(t: Tables, runs: map<Id, RunRow>, q: Queue, bs: seq<Batch>, o: Settings)
    ensures IsDrain(t.(runs := runs), q, bs, o) == IsDrain(t, q, bs, o)
    ensures After(t.(runs := runs), q, bs) == After(t, q, bs).(runs := runs)
  {
    hide Pending, AcknowledgeAll, Oldest, Verdict, Batches;
    BatchesIgnoreRuns(t, runs, q, bs, o);
    AcknowledgeIgnoresRuns(After(t, q, bs), runs, q, {});
  }

  lemma {:induction false} BoundaryIgnoresRuns(t: Tables, v: Tables, log: seq<Exchange>, u: Tables, more: seq<Exchange>, ds: Drains, o: Settings)
    requires SameQueues(t, v) && Boundary(v, log, u, more, ds, o)
    ensures Boundary(t, log, u, more, ds, o)
  {
    hide IsDrain, After, FailureOf;
    DrainIgnoresRuns(t, v.runs, Events, ds.events, o);
    var a := After(t, Events, ds.events);
    DrainIgnoresRuns(a, v.runs, Observations, ds.observations, o);
    DrainIgnoresRuns(After(a, Observations, ds.observations), v.runs, Snapshots, ds.snapshots, o);
  }
}
