/**
 * What a run reads when its hook processes overlap each other and anything else that
 * uses the database: each invocation is known by its place among all committed acts.
 */
module HookRuns {
  import opened Wrappers
  import opened Evidence
  import opened RunState
  import opened HookCli
  import TrialTelemetry

  /** What `RunHook` reports: it read the run's row after `began` acts and wrote at `own`. */
  datatype Invocation = Invocation(report: HookReport, began: nat, own: seq<nat>)

  ghost predicate Joined(s: Site, acts: seq<Act>, from: nat, runId: Id, inv: Invocation) {
    && from <= inv.began <= |acts| && Lawful(inv.report)
    && RowAt(s, acts[..inv.began], runId).Some?
    && RowAt(s, acts[..inv.began], runId).value.flushEverFailed == inv.report.failedAtStart
    && RowAt(s, acts[..inv.began], runId).value.reachableAtStart == inv.report.reachableAtStart
    && Placed(runId, acts, inv.began, inv.report.writes, inv.own)
  }

  /** What `RunHook` promises makes its invocation one of the run's, whatever is committed later. */
  lemma ReportJoins(s: Site, began: seq<Act>, done: seq<Act>, acts: seq<Act>, from: nat, runId: Id, sessionKey: Id, report: HookReport, own: seq<nat>)
    requires began <= done <= acts && from <= |began| && Lawful(report)
    requires Saw(s, began, runId, sessionKey, report) && Placed(runId, done, |began|, report.writes, own)
    ensures Joined(s, acts, from, runId, Invocation(report, |began|, own))
  {
    hide Lawful, Run;
    PlacedStays(runId, done, acts, |began|, |began|, report.writes, own);
    assert acts[..|began|] == began;
  }

  /** Nobody but these invocations wrote to the run since `from`. */
  ghost predicate OnlyHooks(runId: Id, acts: seq<Act>, from: nat, invs: seq<Invocation>) {
    forall p :: from <= p < |acts| && WriteOf(runId, acts[p]) != [] ==> exists k :: 0 <= k < |invs| && p in invs[k].own
  }

  /** A run that nobody had reported on after `from` acts, and the hooks that reached it since. */
  ghost predicate HookRun(s: Site, acts: seq<Act>, from: nat, runId: Id, invs: seq<Invocation>) {
    && from <= |acts|
    && RowAt(s, acts[..from], runId).Some? && Untouched(RowAt(s, acts[..from], runId).value)
    && (forall k :: 0 <= k < |invs| ==> Joined(s, acts, from, runId, invs[k]))
    && OnlyHooks(runId, acts, from, invs)
  }

  function Reports(invs: seq<Invocation>): (rs: seq<HookReport>)
    ensures |rs| == |invs| && forall k :: 0 <= k < |invs| ==> rs[k] == invs[k].report
  {
    seq(|invs|, k requires 0 <= k < |invs| => invs[k].report)
  }

  // --- writes and the acts that made them ------------------------------------------------

  predicate Fails(runId: Id, a: Act) { WriteOf(runId, a) != [] && FailsRun(WriteOf(runId, a)[0]) }

  predicate Finishes(runId: Id, a: Act) { WriteOf(runId, a) != [] && WriteOf(runId, a)[0].Finished? }

  lemma {:induction false} FailureSomewhere(runId: Id, acts: seq<Act>)
    ensures AnyFailure(WritesTo(runId, acts)) <==> exists p :: 0 <= p < |acts| && Fails(runId, acts[p])
  {
    hide WriteOf, AnyFailure;
    if acts != [] {
      var front, last := acts[..|acts| - 1], acts[|acts| - 1];
      FailureSomewhere(runId, front);
      FailureConcat(WritesTo(runId, front), WriteOf(runId, last));
      OneWrite(runId, last);
      assert forall p :: 0 <= p < |front| ==> front[p] == acts[p];
    } else {
      NoFailure();
    }
  }

  lemma NoFailure()
    ensures !AnyFailure([])
  {
  }

  lemma OneWrite(runId: Id, a: Act)
    ensures |WriteOf(runId, a)| <= 1
    ensures AnyFailure(WriteOf(runId, a)) <==> Fails(runId, a)
    ensures LastFinish(WriteOf(runId, a)) == if Finishes(runId, a) then Some(WriteOf(runId, a)[0]) else None
  {
    var ws := WriteOf(runId, a);
    if ws != [] {
      assert ws == [ws[0]] && ws[..0] == [];
      if FailsRun(ws[0]) { assert AnyFailure(ws); }
    }
  }

  lemma {:induction false} FinishSomewhere(runId: Id, acts: seq<Act>)
    ensures LastFinish(WritesTo(runId, acts)).Some? <==> exists p :: 0 <= p < |acts| && Finishes(runId, acts[p])
    ensures LastFinish(WritesTo(runId, acts)).Some? ==>
              exists p :: 0 <= p < |acts| && Finishes(runId, acts[p]) && WriteOf(runId, acts[p])[0] == LastFinish(WritesTo(runId, acts)).value
  {
    hide WriteOf, LastFinish;
    if acts != [] {
      var front, last := acts[..|acts| - 1], acts[|acts| - 1];
      FinishSomewhere(runId, front);
      FinishConcat(WritesTo(runId, front), WriteOf(runId, last));
      OneWrite(runId, last);
      assert forall p :: 0 <= p < |front| ==> front[p] == acts[p];
      if Finishes(runId, last) { assert acts[|acts| - 1] == last; }
    } else {
      NoFinish();
    }
  }

  lemma NoFinish()
    ensures LastFinish([]).None?
  {
  }

  // --- from acts to invocations ------------------------------------------------------------

  /** The invocation behind a write. */
  lemma WriterOf(s: Site, acts: seq<Act>, from: nat, runId: Id, invs: seq<Invocation>, p: nat) returns (k: nat, j: nat)
    requires HookRun(s, acts, from, runId, invs) && from <= p < |acts| && WriteOf(runId, acts[p]) != []
    ensures k < |invs| && j < |invs[k].own| && invs[k].own[j] == p && invs[k].began <= p
    ensures |invs[k].own| == |invs[k].report.writes| && WriteOf(runId, acts[p]) == [invs[k].report.writes[j]]
  {
    k :| 0 <= k < |invs| && p in invs[k].own;
    assert Joined(s, acts, from, runId, invs[k]);
    j :| 0 <= j < |invs[k].own| && invs[k].own[j] == p;
  }

  /** And the other way: what an invocation wrote stands among the acts. */
  lemma PlaceOf(s: Site, acts: seq<Act>, from: nat, runId: Id, invs: seq<Invocation>, k: nat, w: RunWrite) returns (p: nat)
    requires HookRun(s, acts, from, runId, invs) && k < |invs| && w in invs[k].report.writes
    ensures from <= p < |acts| && WriteOf(runId, acts[p]) == [w]
  {
    assert Joined(s, acts, from, runId, invs[k]);
    var j :| 0 <= j < |invs[k].report.writes| && invs[k].report.writes[j] == w;
    p := invs[k].own[j];
  }

  lemma FailuresAgree(s: Site, acts: seq<Act>, from: nat, runId: Id, invs: seq<Invocation>)
    requires HookRun(s, acts, from, runId, invs)
    ensures AnyFailure(WritesTo(runId, acts[from..])) <==> SomePersistedFailure(Reports(invs))
  {
    hide HookRun, WriteOf, WritesTo, AnyFailure;
    StartsWithin(s, acts, from, runId, invs);
    var later := acts[from..];
    FailureSomewhere(runId, later);
    if exists p :: 0 <= p < |later| && Fails(runId, later[p]) {
      var p :| 0 <= p < |later| && Fails(runId, later[p]);
      assert later[p] == acts[from + p];
      var k, j := WriterOf(s, acts, from, runId, invs, from + p);
      FailureIn(invs[k].report.writes, j);
      assert AnyFailure(Reports(invs)[k].writes);
    }
    if SomePersistedFailure(Reports(invs)) {
      var k :| 0 <= k < |Reports(invs)| && AnyFailure(Reports(invs)[k].writes);
      var w := FailureOf(invs[k].report.writes);
      var p := PlaceOf(s, acts, from, runId, invs, k, w);
      assert later[p - from] == acts[p] && Fails(runId, later[p - from]);
    }
  }

  lemma StartsWithin(s: Site, acts: seq<Act>, from: nat, runId: Id, invs: seq<Invocation>)
    requires HookRun(s, acts, from, runId, invs)
    ensures from <= |acts|
  {
  }

  lemma FailureIn(ws: seq<RunWrite>, j: nat)
    requires j < |ws| && FailsRun(ws[j])
    ensures AnyFailure(ws)
  {
  }

  lemma FailureOf(ws: seq<RunWrite>) returns (w: RunWrite)
    requires AnyFailure(ws)
    ensures w in ws && FailsRun(w)
  {
    var i :| 0 <= i < |ws| && FailsRun(ws[i]);
    w := ws[i];
  }

  lemma FinishesAgree(s: Site, acts: seq<Act>, from: nat, runId: Id, invs: seq<Invocation>)
    requires HookRun(s, acts, from, runId, invs)
    ensures LastFinish(WritesTo(runId, acts[from..])).Some? <==> SomeFinish(Reports(invs))
    ensures LastFinish(WritesTo(runId, acts[from..])).Some? ==>
              exists k :: 0 <= k < |invs| && LastFinish(WritesTo(runId, acts[from..])).value in invs[k].report.writes
  {
    hide HookRun, WriteOf, WritesTo, LastFinish;
    StartsWithin(s, acts, from, runId, invs);
    var later := acts[from..];
    FinishSomewhere(runId, later);
    if LastFinish(WritesTo(runId, later)).Some? {
      var p :| 0 <= p < |later| && Finishes(runId, later[p]) && WriteOf(runId, later[p])[0] == LastFinish(WritesTo(runId, later)).value;
      assert later[p] == acts[from + p];
      var k, j := WriterOf(s, acts, from, runId, invs, from + p);
      FinishIn(invs[k].report.writes, j);
      assert LastFinish(Reports(invs)[k].writes).Some?;
    }
    if SomeFinish(Reports(invs)) {
      var k :| 0 <= k < |Reports(invs)| && LastFinish(Reports(invs)[k].writes).Some?;
      var w := LastFinish(invs[k].report.writes).value;
      var p := PlaceOf(s, acts, from, runId, invs, k, w);
      assert later[p - from] == acts[p] && Finishes(runId, later[p - from]);
    }
  }

  lemma FinishIn(ws: seq<RunWrite>, j: nat)
    requires j < |ws| && ws[j].Finished?
    ensures LastFinish(ws).Some?
  {
  }

  /** Reachability is decided when the run begins, so every invocation saw the same. */
  lemma SameReachability(s: Site, acts: seq<Act>, from: nat, runId: Id, invs: seq<Invocation>, k: nat)
    requires HookRun(s, acts, from, runId, invs) && k < |invs|
    ensures invs[k].report.reachableAtStart == RowAt(s, acts[..from], runId).value.reachableAtStart
    ensures Lawful(invs[k].report)
    ensures invs[k].report.failedAtStart <==> exists p :: from <= p < invs[k].began && Fails(runId, acts[p])
  {
    hide Run, WritesTo, WriteOf, Lawful;
    assert Joined(s, acts, from, runId, invs[k]);
    var n := invs[k].began;
    var early := acts[..n];
    assert early[..from] == acts[..from];
    RowIsItsWrites(s, early, from, runId);
    RowReads(RowAt(s, acts[..from], runId).value, WritesTo(runId, early[from..]));
    FailureSomewhere(runId, early[from..]);
    assert forall p :: from <= p < n ==> early[from..][p - from] == acts[p];
  }

  // --- what the run reads ---------------------------------------------------------------------

  /**
   * For every interleaving of a run's hook processes with each other and with anything
   * else: complete exactly when some session end got to its final write and no
   * invocation persisted a failure; eligible exactly when also reachable at the start.
   */
  lemma {:induction false} InterleavedReads(s: Site, acts: seq<Act>, from: nat, runId: Id, invs: seq<Invocation>)
    requires HookRun(s, acts, from, runId, invs)
    ensures runId in Run(s, acts).tables.runs
    ensures var st := ToState(Run(s, acts).tables.runs[runId]);
            && (st.complete <==> SomeFinish(Reports(invs)) && !SomePersistedFailure(Reports(invs)))
            && (st.eligible <==> st.complete && RowAt(s, acts[..from], runId).value.reachableAtStart)
            && (st.flushEverFailed <==> SomePersistedFailure(Reports(invs)))
  {
    hide Run, WritesTo, WriteOf, Lawful, SomeFinish, SomePersistedFailure, AnyFailure, LastFinish, Joined, OnlyHooks, Placed;
    var row, ws := RowAt(s, acts[..from], runId).value, WritesTo(runId, acts[from..]);
    RowIsItsWrites(s, acts, from, runId);
    RowReads(row, ws);
    FailuresAgree(s, acts, from, runId, invs);
    FinishesAgree(s, acts, from, runId, invs);
    if LastFinish(ws).Some? {
      var k :| 0 <= k < |invs| && LastFinish(ws).value in invs[k].report.writes;
      SameReachability(s, acts, from, runId, invs, k);
      LawfulFinish(invs[k].report);
      if LastFinish(ws).value.failedNow { HonestFinishFails(ws); }
    }
  }

  /** While nothing went wrong in any invocation, no write fails the run. */
  lemma {:induction false} NothingWrongNothingFails(s: Site, acts: seq<Act>, from: nat, runId: Id, invs: seq<Invocation>, n: nat)
    requires HookRun(s, acts, from, runId, invs) && n <= |acts|
    requires !SomeWentWrong(Reports(invs), false)
    ensures forall p :: from <= p < n ==> !Fails(runId, acts[p])
  {
    hide HookRun, WriteOf, Lawful;
    if n > from {
      NothingWrongNothingFails(s, acts, from, runId, invs, n - 1);
      if Fails(runId, acts[n - 1]) {
        var k, j := WriterOf(s, acts, from, runId, invs, n - 1);
        SameReachability(s, acts, from, runId, invs, k);
        assert !WentWrong(Reports(invs)[k], false);
        CleanReport(invs[k].report);
        FailureIn(invs[k].report.writes, j);
      }
    }
  }

  /**
   * The exact condition again, for every interleaving: "complete" means a finished
   * session end, every flush drained and nothing thrown, except in a run where something
   * went wrong, a session end was finished, and no invocation persisted a failure.
   */
  lemma {:induction false} InterleavedExactly(s: Site, acts: seq<Act>, from: nat, runId: Id, invs: seq<Invocation>, cutShort: bool)
    requires HookRun(s, acts, from, runId, invs)
    ensures runId in Run(s, acts).tables.runs
    ensures (ToState(Run(s, acts).tables.runs[runId]).complete <==> SomeFinish(Reports(invs)) && !SomeWentWrong(Reports(invs), cutShort))
       <==> (SomeFinish(Reports(invs)) && SomeWentWrong(Reports(invs), cutShort) ==> SomePersistedFailure(Reports(invs)))
  {
    hide HookRun, Run, SomeFinish, SomePersistedFailure, WritesTo, AnyFailure;
    InterleavedReads(s, acts, from, runId, invs);
    if !SomeWentWrong(Reports(invs), cutShort) {
      WithoutCuts(Reports(invs), cutShort);
      StartsWithin(s, acts, from, runId, invs);
      NothingWrongNothingFails(s, acts, from, runId, invs, |acts|);
      FailuresAgree(s, acts, from, runId, invs);
      FailureSomewhere(runId, acts[from..]);
    }
  }

  lemma WithoutCuts(reports: seq<HookReport>, cutShort: bool)
    requires !SomeWentWrong(reports, cutShort)
    ensures !SomeWentWrong(reports, false)
  {
    assert forall i :: 0 <= i < |reports| ==> !WentWrong(reports[i], cutShort);
  }

  /**
   * From the hooks to the final verdict, for every interleaving: eligible exactly when
   * some session end got to its final write, no invocation persisted a failure, the run
   * began reachable, and every row of every queue has been acknowledged.
   */
  lemma {:induction false} VerdictExactly(s: Site, acts: seq<Act>, from: nat, runId: Id, invs: seq<Invocation>)
    requires Initial(s) && Runnable(s, acts) && HookRun(s, acts, from, runId, invs)
    ensures TrialTelemetry.ReadTrialTelemetry(Some(Run(s, acts).tables), runId).eligible <==>
              && SomeFinish(Reports(invs)) && !SomePersistedFailure(Reports(invs))
              && RowAt(s, acts[..from], runId).value.reachableAtStart
              && TrialTelemetry.AllAcknowledged(Run(s, acts).tables)
  {
    hide Run, Runnable, Initial, SomeFinish, SomePersistedFailure, Joined, OnlyHooks, TrialTelemetry.AllAcknowledged, TrialTelemetry.ReadTrialTelemetry;
    InterleavedReads(s, acts, from, runId, invs);
    EveryRunSafe(s, acts);
    TrialTelemetry.EligibleReads(Run(s, acts).tables, runId);
    ReachableStays(s, acts, from, runId);
  }

  lemma ReachableStays(s: Site, acts: seq<Act>, from: nat, runId: Id)
    requires from <= |acts| && RowAt(s, acts[..from], runId).Some? && Untouched(RowAt(s, acts[..from], runId).value)
    ensures runId in Run(s, acts).tables.runs
    ensures ToState(Run(s, acts).tables.runs[runId]).reachableAtStart == RowAt(s, acts[..from], runId).value.reachableAtStart
  {
    hide Run, WritesTo;
    RowIsItsWrites(s, acts, from, runId);
    RowReads(RowAt(s, acts[..from], runId).value, WritesTo(runId, acts[from..]));
  }
}
