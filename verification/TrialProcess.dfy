/**
 * Running one trial child under a deadline: timeout, SIGTERM, SIGKILL, settlement.
 *
 * The class holds what the callbacks of `runTrialProcess` share. `State` is the same
 * data as a value, so that whole histories of callbacks can be reasoned about.
 */
module TrialProcess {
  import opened Wrappers
  import opened Text

  datatype Options = Options(timeoutMs: nat, maxBufferBytes: nat, grace: nat)

  datatype Signal = SIGTERM | SIGKILL | Other(name: string)

  datatype Sent = Sent(signal: Signal, at: int)

  datatype Stream = Stdout | Stderr

  datatype TrialError = Overflow | SpawnError(message: string)

  datatype Outcome = Outcome(
    status: Option<int>, signal: Option<Signal>, stdout: seq<Byte>, stderr: seq<Byte>, timedOut: bool, error: Option<TrialError>)

  /** A timer that is armed holds the time it is due. */
  datatype State = State(
    now: int, stdout: seq<seq<Byte>>, stderr: seq<seq<Byte>>, bytes: nat, timedOut: bool, error: Option<TrialError>,
    timer: Option<int>, escalated: bool, escalation: Option<int>, settlement: Option<int>,
    kills: seq<Sent>, settled: Option<Outcome>, resolutions: nat)

  datatype Event =
    | Tick(to: int)
    | Data(stream: Stream, chunk: seq<Byte>)
    | SpawnFailed(message: string)
    | Closed(status: Option<int>, signal: Option<Signal>)
    | TimerFires
    | EscalationFires
    | SettlementFires

  function Concat(chunks: seq<seq<Byte>>): seq<Byte> {
    if chunks == [] then [] else Concat(chunks[..|chunks| - 1]) + chunks[|chunks| - 1]
  }

  // --- the callbacks as functions ------------------------------------------------------

  function Initial(o: Options): State {
    State(0, [], [], 0, false, None, Some(o.timeoutMs), false, None, None, [], None, 0)
  }

  function Terminate(o: Options, s: State): State {
    if s.escalated then s
    else s.(escalated := true, escalation := Some(s.now + o.grace), kills := s.kills + [Sent(SIGTERM, s.now)])
  }

  function Finish(s: State, status: Option<int>, signal: Option<Signal>): State {
    if s.settled.Some? then s
    else
      s.(settled := Some(Outcome(status, signal, Concat(s.stdout), Concat(s.stderr), s.timedOut, s.error)),
         resolutions := s.resolutions + 1, timer := None, escalation := None, settlement := None)
  }

  function Collect(o: Options, s: State, stream: Stream, chunk: seq<Byte>): State {
    var counted := s.(bytes := s.bytes + |chunk|);
    if counted.bytes > o.maxBufferBytes then
      Terminate(o, counted.(error := if s.error.None? then Some(Overflow) else s.error))
    else
      match stream
      case Stdout => counted.(stdout := s.stdout + [chunk])
      case Stderr => counted.(stderr := s.stderr + [chunk])
  }

  function Next(o: Options, s: State, e: Event): State {
    match e
    case Tick(to) => s.(now := to)
    case Data(stream, chunk) => Collect(o, s, stream, chunk)
    case SpawnFailed(message) => Finish(s.(error := Some(SpawnError(message))), None, None)
    case Closed(status, signal) => Finish(s, status, signal)
    case TimerFires => Terminate(o, s.(timer := None, timedOut := true))
    case EscalationFires =>
      s.(escalation := None, kills := s.kills + [Sent(SIGKILL, s.now)], settlement := Some(s.now + o.grace))
    case SettlementFires => Finish(s.(settlement := None), None, Some(SIGKILL))
  }

  predicate Due(timer: Option<int>, now: int) { timer.Some? && timer.value <= now }

  /** What the event loop may do next: timers fire no earlier than they are due. */
  predicate Enabled(s: State, e: Event) {
    match e
    case Tick(to) => s.now <= to
    case TimerFires => Due(s.timer, s.now)
    case EscalationFires => Due(s.escalation, s.now)
    case SettlementFires => Due(s.settlement, s.now)
    case _ => true
  }

  predicate NotPast(timer: Option<int>, to: int) { timer.Some? ==> to <= timer.value }

  /** Time does not pass an armed timer: timers fire on time. */
  predicate OnTime(s: State, e: Event) {
    e.Tick? ==> NotPast(s.timer, e.to) && NotPast(s.escalation, e.to) && NotPast(s.settlement, e.to)
  }

  function Run(o: Options, events: seq<Event>): State {
    if events == [] then Initial(o) else Next(o, Run(o, events[..|events| - 1]), events[|events| - 1])
  }

  ghost predicate Possible(o: Options, events: seq<Event>) {
    forall i :: 0 <= i < |events| ==> Enabled(Run(o, events[..i]), events[i])
  }

  ghost predicate Punctual(o: Options, events: seq<Event>) {
    forall i :: 0 <= i < |events| ==> OnTime(Run(o, events[..i]), events[i])
  }

  // --- the object ----------------------------------------------------------------------

  class Trial {
    const options: Options
    var now: int
    var stdout: seq<seq<Byte>>
    var stderr: seq<seq<Byte>>
    var bytes: nat
    var timedOut: bool
    var error: Option<TrialError>
    var timer: Option<int>
    var escalated: bool
    var escalation: Option<int>
    var settlement: Option<int>
    var kills: seq<Sent>
    var settled: Option<Outcome>
    var resolutions: nat

    ghost function Abstract(): State
      reads this
    {
      State(now, stdout, stderr, bytes, timedOut, error, timer, escalated, escalation, settlement, kills, settled, resolutions)
    }

    constructor (o: Options)
      ensures options == o && Abstract() == Initial(o)
    {
      options, now, stdout, stderr, bytes, timedOut, error := o, 0, [], [], 0, false, None;
      timer, escalated, escalation, settlement := Some(o.timeoutMs), false, None, None;
      kills, settled, resolutions := [], None, 0;
    }

    method Stop()
      modifies this
      ensures Abstract() == Terminate(options, old(Abstract()))
    {
      if escalated { return; }
      kills := kills + [Sent(SIGTERM, now)];
      escalated, escalation := true, Some(now + options.grace);
    }

    method Settle(status: Option<int>, signal: Option<Signal>)
      modifies this
      ensures Abstract() == Finish(old(Abstract()), status, signal)
    {
      if settled.Some? { return; }
      timer, escalation, settlement := None, None, None;
      settled := Some(Outcome(status, signal, Concat(stdout), Concat(stderr), timedOut, error));
      resolutions := resolutions + 1;
    }

    method OnData(stream: Stream, chunk: seq<Byte>)
      modifies this
      ensures Abstract() == Next(options, old(Abstract()), Data(stream, chunk))
    {
      bytes := bytes + |chunk|;
      if bytes > options.maxBufferBytes {
        if error.None? { error := Some(Overflow); }
        Stop();
        return;
      }
      match stream {
        case Stdout => stdout := stdout + [chunk];
        case Stderr => stderr := stderr + [chunk];
      }
    }

    method OnError(message: string)
      modifies this
      ensures Abstract() == Next(options, old(Abstract()), SpawnFailed(message))
    {
      error := Some(SpawnError(message));
      Settle(None, None);
    }

    method OnClose(status: Option<int>, signal: Option<Signal>)
      modifies this
      ensures Abstract() == Next(options, old(Abstract()), Closed(status, signal))
    {
      Settle(status, signal);
    }

    method OnTimeout()
      modifies this
      ensures Abstract() == Next(options, old(Abstract()), TimerFires)
    {
      timer, timedOut := None, true;
      Stop();
    }

    method OnEscalation()
      modifies this
      ensures Abstract() == Next(options, old(Abstract()), EscalationFires)
    {
      escalation := None;
      kills := kills + [Sent(SIGKILL, now)];
      settlement := Some(now + options.grace);
    }

    method OnSettlement()
      modifies this
      ensures Abstract() == Next(options, old(Abstract()), SettlementFires)
    {
      settlement := None;
      Settle(None, Some(SIGKILL));
    }
  }

  // --- the kill ladder, for every order of callbacks -----------------------------------------

  /** SIGTERM at most once and first; SIGKILL at most once, a grace or more later. */
  ghost predicate Ladder(o: Options, s: State) {
    && |s.kills| <= 2
    && (s.escalated <==> |s.kills| > 0)
    && (|s.kills| > 0 ==> s.kills[0].signal == SIGTERM && s.kills[0].at <= s.now)
    && (|s.kills| > 1 ==> s.kills[1].signal == SIGKILL && s.kills[0].at + o.grace <= s.kills[1].at <= s.now)
    && (s.escalation.Some? ==> |s.kills| == 1 && s.escalation.value == s.kills[0].at + o.grace)
    && (s.settlement.Some? ==> |s.kills| == 2 && s.settlement.value == s.kills[1].at + o.grace)
    && (s.settled.Some? <==> s.resolutions == 1) && s.resolutions <= 1
  }

  lemma LadderTerminates(o: Options, s: State)
    requires Ladder(o, s)
    ensures Ladder(o, Terminate(o, s)) && Terminate(o, s).settled == s.settled
  {
  }

  lemma LadderFinishes(o: Options, s: State, status: Option<int>, signal: Option<Signal>)
    requires Ladder(o, s)
    ensures Ladder(o, Finish(s, status, signal)) && (s.settled.Some? ==> Finish(s, status, signal).settled == s.settled)
  {
    hide Concat;
  }

  lemma LadderEscalates(o: Options, s: State)
    requires Ladder(o, s) && Due(s.escalation, s.now)
    ensures Ladder(o, Next(o, s, EscalationFires))
  {
  }

  /** The ladder does not look at the clock's hand, the output or the error. */
  lemma LadderElsewhere(o: Options, s: State, t: State)
    requires Ladder(o, s) && s.now <= t.now
    requires t.kills == s.kills && t.escalated == s.escalated && t.settled == s.settled && t.resolutions == s.resolutions
    requires (t.escalation == s.escalation || t.escalation == None) && (t.settlement == s.settlement || t.settlement == None)
    ensures Ladder(o, t)
  {
  }

  lemma LadderCollects(o: Options, s: State, stream: Stream, chunk: seq<Byte>)
    requires Ladder(o, s)
    ensures Ladder(o, Collect(o, s, stream, chunk)) && Collect(o, s, stream, chunk).settled == s.settled
  {
    hide Ladder, Terminate;
    var t := s.(bytes := s.bytes + |chunk|, error := if s.error.None? then Some(Overflow) else s.error);
    LadderElsewhere(o, s, t);
    LadderTerminates(o, t);
    LadderElsewhere(o, s, s.(bytes := s.bytes + |chunk|, stdout := s.stdout + [chunk]));
    LadderElsewhere(o, s, s.(bytes := s.bytes + |chunk|, stderr := s.stderr + [chunk]));
  }

  lemma LadderStep(o: Options, s: State, e: Event)
    requires Ladder(o, s) && Enabled(s, e)
    ensures Ladder(o, Next(o, s, e))
    ensures s.settled.Some? ==> Next(o, s, e).settled == s.settled
  {
    hide Ladder, Terminate, Finish, Collect;
    match e
    case Tick(to) => LadderElsewhere(o, s, s.(now := to));
    case Data(stream, chunk) => LadderCollects(o, s, stream, chunk);
    case SpawnFailed(message) =>
      LadderElsewhere(o, s, s.(error := Some(SpawnError(message))));
      LadderFinishes(o, s.(error := Some(SpawnError(message))), None, None);
    case Closed(status, signal) => LadderFinishes(o, s, status, signal);
    case TimerFires =>
      LadderElsewhere(o, s, s.(timer := None, timedOut := true));
      LadderTerminates(o, s.(timer := None, timedOut := true));
    case EscalationFires => LadderEscalates(o, s);
    case SettlementFires =>
      LadderElsewhere(o, s, s.(settlement := None));
      LadderFinishes(o, s.(settlement := None), None, Some(SIGKILL));
  }

  lemma {:induction false} Prefixes(o: Options, events: seq<Event>)
    requires events != []
    ensures Possible(o, events) ==> Possible(o, events[..|events| - 1]) && Enabled(Run(o, events[..|events| - 1]), events[|events| - 1])
    ensures Punctual(o, events) ==> Punctual(o, events[..|events| - 1]) && OnTime(Run(o, events[..|events| - 1]), events[|events| - 1])
  {
    var front := events[..|events| - 1];
    assert forall i :: 0 <= i < |front| ==> front[..i] == events[..i] && front[i] == events[i];
    assert events[..|events| - 1] == front;
  }

  /** Every run keeps the ladder, and resolves at most once. */
  lemma {:induction false} LadderAlways(o: Options, events: seq<Event>)
    requires Possible(o, events)
    ensures Ladder(o, Run(o, events))
  {
    if events != [] {
      Prefixes(o, events);
      LadderAlways(o, events[..|events| - 1]);
      LadderStep(o, Run(o, events[..|events| - 1]), events[|events| - 1]);
    }
  }

  /** What a trial resolved to never changes, whatever its callbacks do later. */
  lemma {:induction false} SettledForGood(o: Options, events: seq<Event>, n: nat)
    requires Possible(o, events) && n <= |events| && Run(o, events[..n]).settled.Some?
    ensures Run(o, events).settled == Run(o, events[..n]).settled && Run(o, events).resolutions == 1
    decreases |events| - n
  {
    if n == |events| {
      assert events[..n] == events;
      LadderAlways(o, events);
    } else {
      PossiblePrefix(o, events, n);
      LadderAlways(o, events[..n]);
      LadderStep(o, Run(o, events[..n]), events[n]);
      assert events[..n + 1][..n] == events[..n];
      SettledForGood(o, events, n + 1);
    }
  }

  lemma PossiblePrefix(o: Options, events: seq<Event>, n: nat)
    requires Possible(o, events) && n <= |events|
    ensures Possible(o, events[..n])
  {
    var front := events[..n];
    assert forall i :: 0 <= i < n ==> front[..i] == events[..i] && front[i] == events[i];
  }

  // --- the deadline -----------------------------------------------------------------------------

  function Bound(o: Options): int { o.timeoutMs + 2 * o.grace }

  /** Until it settles, the next rung is armed and due in time. */
  ghost predicate Bounded(o: Options, s: State) {
    s.settled.None? ==>
      if |s.kills| == 0 then s.timer == Some(o.timeoutMs) && s.now <= o.timeoutMs
      else
        && s.kills[0].at <= o.timeoutMs
        && (|s.kills| == 1 ==> s.escalation.Some? && s.now <= s.escalation.value)
        && (|s.kills| == 2 ==> s.kills[1].at == s.kills[0].at + o.grace && s.settlement.Some? && s.now <= s.settlement.value)
  }

  lemma BoundedStep(o: Options, s: State, e: Event)
    requires Ladder(o, s) && Bounded(o, s) && Enabled(s, e) && OnTime(s, e)
    ensures Bounded(o, Next(o, s, e))
    ensures s.settled.None? ==> s.now <= Bound(o)
  {
  }

  lemma {:induction false} BoundedAlways(o: Options, events: seq<Event>)
    requires Possible(o, events) && Punctual(o, events)
    ensures Bounded(o, Run(o, events))
  {
    if events != [] {
      Prefixes(o, events);
      LadderAlways(o, events[..|events| - 1]);
      BoundedAlways(o, events[..|events| - 1]);
      BoundedStep(o, Run(o, events[..|events| - 1]), events[|events| - 1]);
    }
  }

  /**
   * When timers fire on time, no moment after `timeoutMs + 2 * grace` finds the trial
   * unsettled, whatever the child and its descendants do; and before then the event
   * loop always has an armed timer to wait for.
   */
  lemma {:induction false} SettlesInTime(o: Options, events: seq<Event>)
    requires Possible(o, events) && Punctual(o, events)
    ensures Run(o, events).settled.None? ==>
              var s := Run(o, events);
              && s.now <= Bound(o)
              && exists due :: s.now <= due <= Bound(o) && (s.timer == Some(due) || s.escalation == Some(due) || s.settlement == Some(due))
  {
    BoundedAlways(o, events);
    LadderAlways(o, events);
    var s := Run(o, events);
    if s.settled.None? {
      if |s.kills| == 0 {
        assert s.now <= o.timeoutMs <= Bound(o) && s.timer == Some(o.timeoutMs);
      } else if |s.kills| == 1 {
        assert s.now <= s.escalation.value <= Bound(o) && s.escalation == Some(s.escalation.value);
      } else {
        assert s.now <= s.settlement.value <= Bound(o) && s.settlement == Some(s.settlement.value);
      }
    }
  }

  // --- the output ----------------------------------------------------------------------------------

  /** Everything the child wrote to one stream. */
  function Written(events: seq<Event>, stream: Stream): seq<Byte> {
    if events == [] then []
    else
      var e := events[|events| - 1];
      Written(events[..|events| - 1], stream) + if e.Data? && e.stream == stream then e.chunk else []
  }

  ghost predicate Captured(o: Options, s: State, out: seq<Byte>, err: seq<Byte>) {
    && s.bytes == |out| + |err|
    && Concat(s.stdout) <= out && Concat(s.stderr) <= err
    && (s.bytes <= o.maxBufferBytes ==> Concat(s.stdout) == out && Concat(s.stderr) == err)
    && (s.bytes > o.maxBufferBytes ==> s.error.Some?)
    && |Concat(s.stdout)| + |Concat(s.stderr)| <= o.maxBufferBytes
  }

  lemma ConcatAppend(chunks: seq<seq<Byte>>, chunk: seq<Byte>)
    ensures Concat(chunks + [chunk]) == Concat(chunks) + chunk
  {
    assert (chunks + [chunk])[..|chunks|] == chunks;
  }

  lemma CapturedStep(o: Options, s: State, e: Event, out: seq<Byte>, err: seq<Byte>)
    requires Captured(o, s, out, err)
    ensures Captured(o, Next(o, s, e), out + (if e.Data? && e.stream == Stdout then e.chunk else []),
                                       err + (if e.Data? && e.stream == Stderr then e.chunk else []))
  {
    hide Concat;
    assert out + [] == out && err + [] == err;
    if e.Data? {
      ConcatAppend(s.stdout, e.chunk);
      ConcatAppend(s.stderr, e.chunk);
    }
  }

  /**
   * In every run, what was captured is a prefix of each stream and fits the budget; it
   * is all of both streams unless the budget was exceeded, and then the error says so.
   */
  lemma {:induction false} OutputAlways(o: Options, events: seq<Event>)
    ensures Captured(o, Run(o, events), Written(events, Stdout), Written(events, Stderr))
  {
    if events != [] {
      OutputAlways(o, events[..|events| - 1]);
      CapturedStep(o, Run(o, events[..|events| - 1]), events[|events| - 1],
                   Written(events[..|events| - 1], Stdout), Written(events[..|events| - 1], Stderr));
    }
  }

  /** A result without an error holds everything written before it was settled. */
  lemma {:induction false} NoSilentTruncation(o: Options, events: seq<Event>, e: Event)
    requires Run(o, events).settled.None? && Run(o, events + [e]).settled.Some?
    ensures var r := Run(o, events + [e]).settled.value;
            && r.stdout <= Written(events, Stdout) && r.stderr <= Written(events, Stderr)
            && (r.error.None? ==> r.stdout == Written(events, Stdout) && r.stderr == Written(events, Stderr))
            && |r.stdout| + |r.stderr| <= o.maxBufferBytes
            && r.timedOut == Run(o, events).timedOut
  {
    hide Concat;
    OutputAlways(o, events);
    assert (events + [e])[..|events|] == events;
  }

  /** Which callback settles a trial, and what it reports of the child. */
  ghost predicate SettledBy(e: Event, r: Outcome) {
    match e
    case Closed(status, signal) => r.status == status && r.signal == signal
    case SpawnFailed(message) => r.status.None? && r.signal.None? && r.error == Some(SpawnError(message))
    case SettlementFires => r.status.None? && r.signal == Some(SIGKILL)
    case _ => false
  }

  lemma {:induction false} TimedOutExactly(o: Options, events: seq<Event>)
    ensures Run(o, events).timedOut <==> exists i :: 0 <= i < |events| && events[i].TimerFires?
  {
    hide Next;
    if events != [] {
      var front, last := events[..|events| - 1], events[|events| - 1];
      TimedOutExactly(o, front);
      TimedOutStep(o, Run(o, front), last);
      assert events == front + [last];
    }
  }

  lemma TimedOutStep(o: Options, s: State, e: Event)
    ensures Next(o, s, e).timedOut <==> s.timedOut || e.TimerFires?
  {
    hide Concat;
  }

  /** No error but an overflow or a failed spawn is ever recorded, and the last failed spawn wins. */
  lemma {:induction false} ErrorExactly(o: Options, events: seq<Event>)
    requires forall i :: 0 <= i < |events| ==> !events[i].SpawnFailed?
    ensures Run(o, events).error ==
            if |Written(events, Stdout)| + |Written(events, Stderr)| > o.maxBufferBytes then Some(Overflow) else None
  {
    hide Concat;
    if events != [] {
      var front := events[..|events| - 1];
      ErrorExactly(o, front);
      OutputAlways(o, front);
      OutputAlways(o, events);
    }
  }

  /** The result reports the callback that settled it, and a timeout exactly if the deadline fired before. */
  lemma {:induction false} OutcomeTells(o: Options, events: seq<Event>, e: Event)
    requires Run(o, events).settled.None? && Run(o, events + [e]).settled.Some?
    ensures var r := Run(o, events + [e]).settled.value;
            && SettledBy(e, r)
            && (r.timedOut <==> exists i :: 0 <= i < |events| && events[i].TimerFires?)
            && (!e.SpawnFailed? && (forall i :: 0 <= i < |events| ==> !events[i].SpawnFailed?) ==>
                  r.error == if |Written(events, Stdout)| + |Written(events, Stderr)| > o.maxBufferBytes then Some(Overflow) else None)
  {
    hide Concat;
    assert (events + [e])[..|events|] == events;
    TimedOutExactly(o, events);
    if forall i :: 0 <= i < |events| ==> !events[i].SpawnFailed? { ErrorExactly(o, events); }
  }
}
