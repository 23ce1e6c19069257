/**
 * The run-state table: how a run's telemetry ended, remembered across processes.
 */
module RunState {
  import opened Wrappers
  import opened Text
  import opened Evidence
  import opened SqliteStores

  /** What a reader of the row sees (`toState`): eligibility never outranks completeness. */
  datatype LocalRunState = LocalRunState(
    complete: bool, eligible: bool, reachableAtStart: bool, flushEverFailed: bool, endedAt: Option<JsString>)

  function ToState(row: RunRow): LocalRunState {
    var complete := row.complete && !row.flushEverFailed;
    LocalRunState(complete, complete && row.eligible, row.reachableAtStart, row.flushEverFailed, row.endedAt)
  }

  class SqliteRunStateStore {
    const db: Database

    constructor (file: Database)
      ensures db == file
    {
      db := file;
    }

    /** An existing run, or an existing session, makes this a no-op. */
    method BeginRun(runId: Id, reachable: bool, sessionKey: Option<Id>) returns (ok: bool)
      requires db.Valid()
      modifies db
      ensures db.Valid() && db.log == old(db.log) && db.foreign == old(db.foreign)
      ensures db.tables == if ok then Evidence.BeginRun(old(db.tables), runId, sessionKey, reachable) else old(db.tables)
      ensures db.acts == if ok then old(db.acts) + [Act.Begin(runId, sessionKey, reachable)] else old(db.acts)
    {
      var throws: bool := *;
      if throws { return false; }
      db.Perform(Act.Begin(runId, sessionKey, reachable));
      ok := true;
    }

    method MarkFlushFailed(runId: Id) returns (ok: bool)
      requires db.Valid()
      modifies db
      ensures db.Valid() && db.log == old(db.log) && db.foreign == old(db.foreign)
      ensures db.tables == if ok then MarkFailed(old(db.tables), runId) else old(db.tables)
      ensures db.acts == if ok then old(db.acts) + [Act.MarkFlushFailed(runId)] else old(db.acts)
    {
      var throws: bool := *;
      if throws { return false; }
      db.Perform(Act.MarkFlushFailed(runId));
      ok := true;
    }

    method FinishRun(runId: Id, complete: bool, eligible: bool, endedAt: JsString, failedNow: bool) returns (ok: bool)
      requires db.Valid()
      modifies db
      ensures db.Valid() && db.log == old(db.log) && db.foreign == old(db.foreign)
      ensures db.tables == if ok then Evidence.FinishRun(old(db.tables), runId, complete, eligible, failedNow, endedAt)
                           else old(db.tables)
      ensures db.acts == if ok then old(db.acts) + [Act.Finish(runId, complete, eligible, failedNow, endedAt)] else old(db.acts)
    {
      var throws: bool := *;
      if throws { return false; }
      db.Perform(Act.Finish(runId, complete, eligible, failedNow, endedAt));
      ok := true;
    }

    method Get(runId: Id) returns (r: Option<LocalRunState>)
      ensures r == if runId in db.tables.runs then Some(ToState(db.tables.runs[runId])) else None
    {
      r := if runId in db.tables.runs then Some(ToState(db.tables.runs[runId])) else None;
    }

    /** The run a session belongs to. */
    method ForSession(sessionKey: Id) returns (r: Option<Id>)
      ensures r.Some? ==> r.value in db.tables.runs && db.tables.runs[r.value].sessionKey == Some(sessionKey)
      ensures r.None? ==> forall id :: id in db.tables.runs ==> db.tables.runs[id].sessionKey != Some(sessionKey)
    {
      if exists id :: id in db.tables.runs && db.tables.runs[id].sessionKey == Some(sessionKey) {
        var id :| id in db.tables.runs && db.tables.runs[id].sessionKey == Some(sessionKey);
        return Some(id);
      }
      r := None;
    }
  }

  // --- a run's row, as the history of the writes to it -------------------------------

  datatype RunWrite = Failed | Finished(complete: bool, eligible: bool, failedNow: bool, endedAt: JsString)

  function ApplyWrite(row: RunRow, w: RunWrite): RunRow {
    match w
    case Failed => MarkRow(row)
    case Finished(c, e, f, at) => FinishRow(row, c, e, f, at)
  }

  function ApplyWrites(row: RunRow, ws: seq<RunWrite>): RunRow {
    if ws == [] then row else ApplyWrite(ApplyWrites(row, ws[..|ws| - 1]), ws[|ws| - 1])
  }

  function WriteOf(runId: Id, a: Act): seq<RunWrite> {
    match a
    case MarkFlushFailed(r) => if r == runId then [Failed] else []
    case Finish(r, c, e, f, at) => if r == runId then [Finished(c, e, f, at)] else []
    case _ => []
  }

  /** The writes to one run among everything that was committed. */
  function WritesTo(runId: Id, acts: seq<Act>): seq<RunWrite> {
    if acts == [] then [] else WritesTo(runId, acts[..|acts| - 1]) + WriteOf(runId, acts[|acts| - 1])
  }

  predicate FailsRun(w: RunWrite) { w.Failed? || w.failedNow }

  ghost predicate AnyFailure(ws: seq<RunWrite>) {
    exists i :: 0 <= i < |ws| && FailsRun(ws[i])
  }

  /** The last finish, if there was one. */
  function LastFinish(ws: seq<RunWrite>): (r: Option<RunWrite>)
    ensures r.Some? ==> r.value.Finished? && r.value in ws
    ensures r.None? ==> forall i :: 0 <= i < |ws| ==> !ws[i].Finished?
  {
    if ws == [] then None
    else if ws[|ws| - 1].Finished? then Some(ws[|ws| - 1])
    else
      var r := LastFinish(ws[..|ws| - 1]);
      assert forall i :: 0 <= i < |ws| - 1 ==> ws[..|ws| - 1][i] == ws[i];
      r
  }

  /** A run nobody has reported on yet. */
  predicate Untouched(row: RunRow) {
    !row.complete && !row.eligible && !row.flushEverFailed
  }

  /**
   * What the row reads, for every order of writes by every caller. A failure
   * anywhere decides; otherwise the last finish does.
   */
  lemma {:induction false} RowReads(row: RunRow, ws: seq<RunWrite>)
    requires Untouched(row)
    ensures var s := ToState(ApplyWrites(row, ws));
            && (s.flushEverFailed <==> AnyFailure(ws))
            && (s.complete <==> !AnyFailure(ws) && LastFinish(ws).Some? && LastFinish(ws).value.complete)
            && (s.eligible <==> s.complete && LastFinish(ws).value.eligible)
            && s.reachableAtStart == row.reachableAtStart
  {
    if ws != [] {
      var front, last := ws[..|ws| - 1], ws[|ws| - 1];
      RowReads(row, front);
      FailureAppends(front, last);
      assert ws == front + [last];
      if !ApplyWrites(row, ws).flushEverFailed { CleanRow(row, ws); }
    }
  }

  lemma FailureAppends(ws: seq<RunWrite>, w: RunWrite)
    ensures AnyFailure(ws + [w]) <==> AnyFailure(ws) || FailsRun(w)
  {
    var all := ws + [w];
    if AnyFailure(ws) {
      var i :| 0 <= i < |ws| && FailsRun(ws[i]);
      assert FailsRun(all[i]);
    }
    if FailsRun(w) { assert FailsRun(all[|ws|]); }
  }

  /** While no failure is recorded, the stored flags are exactly the last finish's. */
  lemma {:induction false} CleanRow(row: RunRow, ws: seq<RunWrite>)
    requires Untouched(row) && !ApplyWrites(row, ws).flushEverFailed
    ensures ApplyWrites(row, ws).complete <==> LastFinish(ws).Some? && LastFinish(ws).value.complete
    ensures ApplyWrites(row, ws).eligible <==> LastFinish(ws).Some? && LastFinish(ws).value.eligible
  {
  }

  /** Neither a stale finish nor a repeated begin clears a failure. */
  lemma {:induction false} FailureSticks(s: Site, acts: seq<Act>, i: nat, runId: Id)
    requires i <= |acts| && runId in Run(s, acts[..i]).tables.runs
    ensures runId in Run(s, acts).tables.runs
    ensures Run(s, acts[..i]).tables.runs[runId].flushEverFailed ==>
              var now := ToState(Run(s, acts).tables.runs[runId]); now.flushEverFailed && !now.complete && !now.eligible
    decreases |acts|
  {
    RowIsItsWrites(s, acts, i, runId);
    if Run(s, acts[..i]).tables.runs[runId].flushEverFailed {
      FailedRowStays(Run(s, acts[..i]).tables.runs[runId], WritesTo(runId, acts[i..]));
    }
  }

  lemma {:induction false} FailedRowStays(row: RunRow, ws: seq<RunWrite>)
    requires row.flushEverFailed
    ensures ApplyWrites(row, ws).flushEverFailed
  {
    if ws != [] { FailedRowStays(row, ws[..|ws| - 1]); }
  }

  /** Whatever else happens in the database, a run's row is made by the writes to that run. */
  lemma {:induction false} RowIsItsWrites(s: Site, acts: seq<Act>, i: nat, runId: Id)
    requires i <= |acts| && runId in Run(s, acts[..i]).tables.runs
    ensures runId in Run(s, acts).tables.runs
    ensures Run(s, acts).tables.runs[runId] == ApplyWrites(Run(s, acts[..i]).tables.runs[runId], WritesTo(runId, acts[i..]))
    decreases |acts|
  {
    hide Apply, WriteOf, ApplyWrites;
    if i < |acts| {
      var front := acts[..|acts| - 1];
      assert front[..i] == acts[..i];
      RowIsItsWrites(s, front, i, runId);
      assert acts[i..][..|acts[i..]| - 1] == front[i..];
      OneAct(Run(s, front), acts[|acts| - 1], runId);
      ApplyMore(Run(s, acts[..i]).tables.runs[runId], WritesTo(runId, front[i..]), WriteOf(runId, acts[|acts| - 1]));
    } else {
      assert acts[..i] == acts && acts[i..] == [];
      NoWrites(Run(s, acts).tables.runs[runId], runId);
    }
  }

  lemma NoWrites(row: RunRow, runId: Id)
    ensures ApplyWrites(row, WritesTo(runId, [])) == row
  {
  }

  lemma ApplyMore(row: RunRow, ws: seq<RunWrite>, more: seq<RunWrite>)
    requires |more| <= 1
    ensures ApplyWrites(row, ws + more) == ApplyWrites(ApplyWrites(row, ws), more)
  {
    if more == [] {
      assert ws + more == ws;
    } else {
      assert (ws + more)[..|ws|] == ws && more[..0] == [];
    }
  }

  lemma OneAct(s: Site, a: Act, runId: Id)
    requires runId in s.tables.runs
    ensures |WriteOf(runId, a)| <= 1
    ensures runId in Apply(s, a).tables.runs
    ensures Apply(s, a).tables.runs[runId] == ApplyWrites(s.tables.runs[runId], WriteOf(runId, a))
  {
    var ws := WriteOf(runId, a);
    if ws != [] { assert ws[..0] == []; }
  }

  /** A run's row after a prefix of everything that was committed. */
  ghost function RowAt(s: Site, acts: seq<Act>, runId: Id): Option<RunRow> {
    if runId in Run(s, acts).tables.runs then Some(Run(s, acts).tables.runs[runId]) else None
  }

  lemma RowNow(db: Database, runId: Id)
    requires db.Valid() && runId in db.tables.runs
    ensures RowAt(db.initial, db.acts, runId) == Some(db.tables.runs[runId])
  {
  }

  // --- sessions ------------------------------------------------------------------------------

  /** A session belongs to one run. */
  ghost predicate OneRunPerSession(runs: map<Id, RunRow>) {
    forall r, o :: r in runs && o in runs && runs[r].sessionKey.Some? && runs[r].sessionKey == runs[o].sessionKey ==> r == o
  }

  lemma ActKeepsSessions(s: Site, a: Act)
    requires OneRunPerSession(s.tables.runs)
    ensures OneRunPerSession(Apply(s, a).tables.runs)
    ensures forall r :: r in s.tables.runs ==>
              r in Apply(s, a).tables.runs && Apply(s, a).tables.runs[r].sessionKey == s.tables.runs[r].sessionKey
  {
    hide OneRunPerSession, Evidence.BeginRun, Apply;
    if a.Begin? {
      BeginActs(s, a);
      BeginKeepsSessions(s.tables, a.runId, a.sessionKey, a.reachable);
    } else {
      OtherActs(s, a);
      SameSessions(s.tables.runs, Apply(s, a).tables.runs);
    }
  }

  lemma BeginActs(s: Site, a: Act)
    requires a.Begin?
    ensures Apply(s, a).tables == Evidence.BeginRun(s.tables, a.runId, a.sessionKey, a.reachable)
  {
    hide Evidence.BeginRun;
  }

  lemma OtherActs(s: Site, a: Act)
    requires !a.Begin?
    ensures Apply(s, a).tables.runs.Keys == s.tables.runs.Keys
    ensures forall r :: r in s.tables.runs ==> Apply(s, a).tables.runs[r].sessionKey == s.tables.runs[r].sessionKey
  {
  }

  lemma BeginKeepsSessions(t: Tables, runId: Id, sessionKey: Option<Id>, reachable: bool)
    requires OneRunPerSession(t.runs)
    ensures var u := Evidence.BeginRun(t, runId, sessionKey, reachable);
            OneRunPerSession(u.runs) && forall r :: r in t.runs ==> r in u.runs && u.runs[r].sessionKey == t.runs[r].sessionKey
  {
  }

  lemma SameSessions(runs: map<Id, RunRow>, after: map<Id, RunRow>)
    requires OneRunPerSession(runs) && after.Keys == runs.Keys && forall r :: r in runs ==> after[r].sessionKey == runs[r].sessionKey
    ensures OneRunPerSession(after)
  {
  }

  /** However processes race to begin a run, a session gets one, and keeps it. */
  lemma {:induction false} SessionsKeepTheirRun(s: Site, acts: seq<Act>, i: nat)
    requires OneRunPerSession(s.tables.runs) && i <= |acts|
    ensures OneRunPerSession(Run(s, acts).tables.runs)
    ensures forall r :: r in Run(s, acts[..i]).tables.runs ==>
              r in Run(s, acts).tables.runs && Run(s, acts).tables.runs[r].sessionKey == Run(s, acts[..i]).tables.runs[r].sessionKey
    decreases |acts|
  {
    hide Apply, OneRunPerSession;
    if acts != [] {
      var front := acts[..|acts| - 1];
      SessionsKeepTheirRun(s, front, if i < |acts| then i else 0);
      ActKeepsSessions(Run(s, front), acts[|acts| - 1]);
      if i < |acts| { assert front[..i] == acts[..i]; } else { assert acts[..i] == acts; }
    } else {
      assert acts[..i] == acts;
    }
  }

  /** The end of a run is the time of its last finish. */
  lemma {:induction false} EndReads(row: RunRow, ws: seq<RunWrite>)
    ensures ToState(ApplyWrites(row, ws)).endedAt ==
            if LastFinish(ws).Some? then Some(LastFinish(ws).value.endedAt) else row.endedAt
  {
    if ws != [] { EndReads(row, ws[..|ws| - 1]); }
  }

  /** What is stored never contradicts itself: a failed run claims nothing. */
  ghost predicate FailedClaimsNothing(runs: map<Id, RunRow>) {
    forall r :: r in runs && runs[r].flushEverFailed ==> !runs[r].complete && !runs[r].eligible
  }

  lemma ActKeepsClaims(s: Site, a: Act)
    requires FailedClaimsNothing(s.tables.runs)
    ensures FailedClaimsNothing(Apply(s, a).tables.runs)
  {
    hide AppendEvent, AcknowledgeAll, Upgrade, RecordOnce;
    OtherTables(s, a);
  }

  lemma OtherTables(s: Site, a: Act)
    ensures !a.Begin? && !a.MarkFlushFailed? && !a.Finish? ==> Apply(s, a).tables.runs == s.tables.runs
  {
  }

  lemma {:induction false} FailedRunsClaimNothing(s: Site, acts: seq<Act>)
    requires FailedClaimsNothing(s.tables.runs)
    ensures FailedClaimsNothing(Run(s, acts).tables.runs)
  {
    hide Apply, FailedClaimsNothing;
    if acts != [] {
      FailedRunsClaimNothing(s, acts[..|acts| - 1]);
      ActKeepsClaims(Run(s, acts[..|acts| - 1]), acts[|acts| - 1]);
    }
  }
}
