/**
 * The ingest function's fixed-window counter, per key.
 */
module RateLimit {

  type Key = string

  datatype Window = Window(count: int, resetAt: int)

  datatype Request = Request(key: Key, now: int)

  /** One decision: the windows afterwards, and whether the request is let through. */
  function Decide(windows: map<Key, Window>, limit: int, windowMs: int, r: Request): (map<Key, Window>, bool) {
    if r.key !in windows || r.now >= windows[r.key].resetAt then
      (windows[r.key := Window(1, r.now + windowMs)], true)
    else if windows[r.key].count >= limit then (windows, false)
    else (windows[r.key := Window(windows[r.key].count + 1, windows[r.key].resetAt)], true)
  }

  // --- whole traces ---------------------------------------------------------------

  function After(trace: seq<Request>, limit: int, windowMs: int): map<Key, Window> {
    if trace == [] then map[]
    else Decide(After(trace[..|trace| - 1], limit, windowMs), limit, windowMs, trace[|trace| - 1]).0
  }

  predicate Granted(trace: seq<Request>, i: nat, limit: int, windowMs: int)
    requires i < |trace|
  {
    Decide(After(trace[..i], limit, windowMs), limit, windowMs, trace[i]).1
  }

  class RateLimiter {
    var windows: map<Key, Window>
    const limit: int
    const windowMs: int
    /** Every request so far. */
    ghost var trace: seq<Request>

    ghost predicate Valid()
      reads this
    {
      windows == After(trace, limit, windowMs)
    }

    constructor (maximum: int, duration: int)
      ensures Valid() && trace == [] && limit == maximum && windowMs == duration
    {
      windows, limit, windowMs, trace := map[], maximum, duration, [];
    }

    method Allow(key: Key, nowMs: int) returns (allowed: bool)
      requires Valid()
      modifies this
      ensures Valid() && trace == old(trace) + [Request(key, nowMs)]
      ensures allowed == Granted(trace, |trace| - 1, limit, windowMs)
    {
      ghost var before := trace;
      trace := trace + [Request(key, nowMs)];
      assert trace[..|trace| - 1] == before;
      if key !in windows || nowMs >= windows[key].resetAt {
        windows := windows[key := Window(1, nowMs + windowMs)];
        return true;
      }
      if windows[key].count >= limit { return false; }
      windows := windows[key := Window(windows[key].count + 1, windows[key].resetAt)];
      allowed := true;
    }
  }

  /** Grants to `key` at times in [from, until). */
  function Grants(trace: seq<Request>, key: Key, from: int, until: int, limit: int, windowMs: int): nat {
    if trace == [] then 0
    else
      var last := trace[|trace| - 1];
      Grants(trace[..|trace| - 1], key, from, until, limit, windowMs)
      + if last.key == key && from <= last.now < until && Granted(trace, |trace| - 1, limit, windowMs) then 1 else 0
  }

  ghost predicate ClockRuns(trace: seq<Request>) {
    forall i, j :: 0 <= i < j < |trace| ==> trace[i].now <= trace[j].now
  }

  /** The first request of a window is always let through, so a limit below one acts as one. */
  function Effective(limit: int): nat { if limit < 1 then 1 else limit }

  /**
   * Where the grants of any stretch of one window length lie: in the current window,
   * or in the current window and the one before.
   */
  ghost predicate Accounted(trace: seq<Request>, key: Key, from: int, limit: int, windowMs: int) {
    var n := Grants(trace, key, from, from + windowMs, limit, windowMs);
    var ws := After(trace, limit, windowMs);
    if key !in ws then n == 0
    else
      var start := ws[key].resetAt - windowMs;
      && 1 <= ws[key].count <= Effective(limit)
      && (trace != [] ==> start <= trace[|trace| - 1].now)
      && n <= 2 * Effective(limit)
      && (start <= from ==> n <= ws[key].count)
      && (from < start < from + windowMs ==> n <= Effective(limit) + ws[key].count)
  }

  /** Every grant to a key lies before the end of its current window. */
  lemma {:induction false} GrantsBeforeReset(trace: seq<Request>, key: Key, from: int, until: int, limit: int, windowMs: int)
    requires windowMs > 0
    ensures key !in After(trace, limit, windowMs) ==> Grants(trace, key, from, until, limit, windowMs) == 0
    ensures key in After(trace, limit, windowMs) && After(trace, limit, windowMs)[key].resetAt <= from ==>
              Grants(trace, key, from, until, limit, windowMs) == 0
  {
    if trace != [] {
      GrantsBeforeReset(trace[..|trace| - 1], key, from, until, limit, windowMs);
    }
  }

  lemma {:induction false} TraceAccounted(trace: seq<Request>, key: Key, from: int, limit: int, windowMs: int)
    requires windowMs > 0 && ClockRuns(trace)
    ensures Accounted(trace, key, from, limit, windowMs)
  {
    if trace != [] {
      var front := trace[..|trace| - 1];
      TraceAccounted(front, key, from, limit, windowMs);
      GrantsBeforeReset(front, key, from, from + windowMs, limit, windowMs);
    }
  }

  /**
   * On a clock that never runs backwards, no stretch as long as one window, wherever
   * it begins, holds more than two windows' worth of grants to a key.
   */
  lemma {:induction false} AtMostTwiceTheLimit(trace: seq<Request>, key: Key, from: int, limit: int, windowMs: int)
    requires windowMs > 0 && ClockRuns(trace)
    ensures Grants(trace, key, from, from + windowMs, limit, windowMs) <= 2 * Effective(limit)
  {
    TraceAccounted(trace, key, from, limit, windowMs);
  }

  /** And no window of its own holds more than the limit: its counter is exact. */
  lemma {:induction false} WindowCount(trace: seq<Request>, key: Key, limit: int, windowMs: int)
    requires windowMs > 0 && ClockRuns(trace) && key in After(trace, limit, windowMs)
    ensures var w := After(trace, limit, windowMs)[key];
            && Grants(trace, key, w.resetAt - windowMs, w.resetAt, limit, windowMs) == w.count <= Effective(limit)
            && w.resetAt - windowMs <= trace[|trace| - 1].now
  {
    var front, last := trace[..|trace| - 1], trace[|trace| - 1];
    var w := After(trace, limit, windowMs)[key];
    if key in After(front, limit, windowMs) { WindowCount(front, key, limit, windowMs); }
    GrantsBeforeReset(front, key, w.resetAt - windowMs, w.resetAt, limit, windowMs);
  }

  /** A key is refused only when its window has granted all it may. */
  lemma {:induction false} DeniedMeansFull(trace: seq<Request>, key: Key, now: int, limit: int, windowMs: int)
    requires windowMs > 0 && ClockRuns(trace)
    requires !Decide(After(trace, limit, windowMs), limit, windowMs, Request(key, now)).1
    ensures key in After(trace, limit, windowMs)
    ensures var reset := After(trace, limit, windowMs)[key].resetAt;
            now < reset && Grants(trace, key, reset - windowMs, reset, limit, windowMs) == Effective(limit)
  {
    WindowCount(trace, key, limit, windowMs);
    TraceAccounted(trace, key, After(trace, limit, windowMs)[key].resetAt - windowMs, limit, windowMs);
  }

  /** A refused key is let through at its reset and at any later time. */
  lemma {:induction false} DeniedUntilReset(trace: seq<Request>, key: Key, now: int, later: int, limit: int, windowMs: int)
    requires limit >= 1 && !Decide(After(trace, limit, windowMs), limit, windowMs, Request(key, now)).1
    ensures key in After(trace, limit, windowMs)
    ensures Decide(After(trace, limit, windowMs), limit, windowMs, Request(key, later)).1 <==>
              later >= After(trace, limit, windowMs)[key].resetAt
  {
  }

  /** The requests of one key. */
  function Only(trace: seq<Request>, key: Key): seq<Request> {
    if trace == [] then []
    else
      var last := trace[|trace| - 1];
      Only(trace[..|trace| - 1], key) + if last.key == key then [last] else []
  }

  lemma OneMore(trace: seq<Request>, r: Request, key: Key, from: int, until: int, limit: int, windowMs: int)
    ensures var d := Decide(After(trace, limit, windowMs), limit, windowMs, r);
            && After(trace + [r], limit, windowMs) == d.0
            && Grants(trace + [r], key, from, until, limit, windowMs)
                 == Grants(trace, key, from, until, limit, windowMs) + if r.key == key && from <= r.now < until && d.1 then 1 else 0
  {
    assert (trace + [r])[..|trace|] == trace;
  }

  /** Keys do not affect each other: a key sees the trace of its own requests. */
  lemma {:induction false} KeysIndependent(trace: seq<Request>, key: Key, from: int, until: int, limit: int, windowMs: int)
    ensures var all, own := After(trace, limit, windowMs), After(Only(trace, key), limit, windowMs);
            (key in all <==> key in own) && (key in all ==> all[key] == own[key])
    ensures Grants(trace, key, from, until, limit, windowMs) == Grants(Only(trace, key), key, from, until, limit, windowMs)
  {
    hide After, Grants;
    if trace != [] {
      var front, last := trace[..|trace| - 1], trace[|trace| - 1];
      assert trace == front + [last];
      KeysIndependent(front, key, from, until, limit, windowMs);
      OneMore(front, last, key, from, until, limit, windowMs);
      OneMore(Only(front, key), last, key, from, until, limit, windowMs);
      assert Only(front, key) + [] == Only(front, key);
    }
  }
}
