/** BaseAgent itself: the object behind the protocol, with its fields updated in place. */
module Agent {
  import opened Wrappers
  import opened Lifecycle
  import opened AgentProtocol
  import opened SerialAgent

  /** A registered state change handler; all that matters of it here is on which transitions it panics. */
  datatype Handler = Handler(panics: Transition -> bool)

  /** The handlers below n that panic on t, in registration order. */
  function Panicking(handlers: seq<Handler>, n: nat, t: Transition): seq<Notification>
    requires n <= |handlers|
  {
    if n == 0 then []
    else Panicking(handlers, n - 1, t) + (if handlers[n - 1].panics(t) then [Notification(n - 1, t)] else [])
  }

  class BaseAgent {
    const handlers: seq<Handler>
    var state: State
    var startedAt: Option<int>
    // Histories: the committed transitions, the handler calls, and the panics recovered and logged.
    var log: seq<Transition>
    var notified: seq<Notification>
    var recovered: seq<Notification>

    function View(): Shared
      reads this
    {
      Shared(|handlers|, state, startedAt, log, notified)
    }

    constructor (handlers: seq<Handler>)
      ensures View() == Init(|handlers|).shared && recovered == []
    {
      this.handlers := handlers;
      state, startedAt := Unknown, None;
      log, notified, recovered := [], [], [];
    }

    /** A handler call inside its deferred recover: a panic is logged and goes no further. */
    method NotifyHandler(i: nat, t: Transition)
      requires i < |handlers|
      modifies this`notified, this`recovered
      ensures notified == old(notified) + [Notification(i, t)]
      ensures recovered == old(recovered) + if handlers[i].panics(t) then [Notification(i, t)] else []
    {
      notified := notified + [Notification(i, t)];
      if handlers[i].panics(t) {
        recovered := recovered + [Notification(i, t)];
      }
    }

    /** The caller holds the mutex. */
    method SetStateLocked(to: State) returns (ok: bool)
      modifies this
      ensures ok <==> ValidTransition(old(state), to)
      ensures View() == Commit(old(View()), to)
      ensures recovered == old(recovered) +
                if ok then Panicking(handlers, |handlers|, Transition(old(state), to)) else []
    {
      var from := state;
      if !ValidTransition(from, to) {
        return false;
      }
      var t := Transition(from, to);
      state, log := to, log + [t];
      var i := 0;
      while i < |handlers|
        invariant 0 <= i <= |handlers|
        invariant state == to && startedAt == old(startedAt) && log == old(log) + [t]
        invariant notified == old(notified) + Round(i, t)
        invariant recovered == old(recovered) + Panicking(handlers, i, t)
      {
        NotifyHandler(i, t);
        i := i + 1;
      }
      return true;
    }

    /** Start's closing critical section: Running and the start time under one lock. */
    method CommitStarted(now: int) returns (ok: bool)
      modifies this
      ensures ok <==> ValidTransition(old(state), Running)
      ensures View() == FinishShared(old(View()), Start, now)
    {
      ok := SetStateLocked(Running);
      if !ok {
        return;
      }
      startedAt := Some(now);
    }

    /** Stop's closing critical section: Stopped and no start time under one lock. */
    method CommitStopped(ghost now: int) returns (ok: bool)
      modifies this
      ensures ok <==> ValidTransition(old(state), Stopped)
      ensures View() == FinishShared(old(View()), Stop, now)
    {
      ok := SetStateLocked(Stopped);
      if !ok {
        return;
      }
      startedAt := None;
    }

    method RequireState(expected: State) returns (ok: bool)
      ensures ok <==> state == expected
    {
      ok := state == expected;
    }

    /** Info's start time and the uptime since then. */
    method Info(now: int) returns (started: Option<int>, uptime: int)
      ensures started == ReportedStart(View())
      ensures uptime == if started.Some? then now - started.value else 0
    {
      started, uptime := None, 0;
      if startedAt.Some? && state == Running {
        started, uptime := startedAt, now - startedAt.value;
      }
    }

    // The four operations as a single caller sees them: the hook outcome and the clock reading are inputs.

    method StartAgent(cancelled: bool, hook: HookOutcome, now: int) returns (r: Outcome)
      requires !state.Unrecognised?
      modifies this
      ensures View() == Serial(old(View()), Invoke(Start, cancelled, hook, now))
      ensures r == Answer(old(state), Start, cancelled, hook)
    {
      TransitionGraph(state, Starting);
      if state in CallableFrom(Start) {
        SerialOfAccepted(View(), Start, hook, now);
      }
      if cancelled {
        return Timeout;
      }
      var ok := SetStateLocked(Starting);
      if !ok {
        return Conflict;
      }
      if hook.HookPanic? {
        return Panicked;
      }
      if hook.HookError? {
        var _ := SetStateLocked(Failed);
        return HookFailed;
      }
      ok := CommitStarted(now);
      return if ok then Done else Conflict;
    }

    method StopAgent(cancelled: bool, hook: HookOutcome, ghost now: int) returns (r: Outcome)
      requires !state.Unrecognised?
      modifies this
      ensures View() == Serial(old(View()), Invoke(Stop, cancelled, hook, now))
      ensures r == Answer(old(state), Stop, cancelled, hook)
    {
      assert ValidTransition(state, Stopping) <==> state in CallableFrom(Stop);
      if state in CallableFrom(Stop) {
        SerialOfAccepted(View(), Stop, hook, now);
      }
      if IsTerminal(state) {
        return Done;
      }
      if cancelled {
        return Timeout;
      }
      var ok := SetStateLocked(Stopping);
      if !ok {
        return Conflict;
      }
      if hook.HookPanic? {
        return Panicked;
      }
      if hook.HookError? {
        var _ := SetStateLocked(Failed);
        return HookFailed;
      }
      ok := CommitStopped(now);
      return if ok then Done else Conflict;
    }

    method PauseAgent(cancelled: bool, hook: HookOutcome, ghost now: int) returns (r: Outcome)
      requires !state.Unrecognised?
      modifies this
      ensures View() == Serial(old(View()), Invoke(Pause, cancelled, hook, now))
      ensures r == Answer(old(state), Pause, cancelled, hook)
    {
      r := CheckThenMove(cancelled, hook, Running, Paused);
      if old(state) in CallableFrom(Pause) {
        SerialOfAccepted(old(View()), Pause, hook, now);
      }
    }

    method ResumeAgent(cancelled: bool, hook: HookOutcome, ghost now: int) returns (r: Outcome)
      requires !state.Unrecognised?
      modifies this
      ensures View() == Serial(old(View()), Invoke(Resume, cancelled, hook, now))
      ensures r == Answer(old(state), Resume, cancelled, hook)
    {
      r := CheckThenMove(cancelled, hook, Paused, Running);
      if old(state) in CallableFrom(Resume) {
        SerialOfAccepted(old(View()), Resume, hook, now);
      }
    }

    // The common shape of Pause and Resume: the hook runs before the only transition.
    method CheckThenMove(cancelled: bool, hook: HookOutcome, expected: State, to: State) returns (r: Outcome)
      requires ValidTransition(expected, to)
      modifies this
      ensures View() ==
              if cancelled || old(state) != expected || hook.HookPanic? then old(View())
              else Commit(old(View()), if hook.HookOk? then to else Failed)
      ensures r == if cancelled then Timeout else if old(state) != expected then Conflict
                   else match hook case HookOk => Done case HookError => HookFailed case HookPanic => Panicked
    {
      if cancelled {
        return Timeout;
      }
      var ok := RequireState(expected);
      if !ok {
        return Conflict;
      }
      if hook.HookPanic? {
        return Panicked;
      }
      if hook.HookError? {
        var _ := SetStateLocked(Failed);
        return HookFailed;
      }
      ok := SetStateLocked(to);
      return if ok then Done else Conflict;
    }
  }
}
