/** The lifecycle operations called one after another: what a single caller may rely on. */
module SerialAgent {
  import opened Wrappers
  import opened Lifecycle
  import opened AgentProtocol

  /** A whole call: an operation with its context and hook outcome and its clock reading, or the
      documented outside use of SetState. */
  datatype SerialCall =
    | Invoke(op: Operation, cancelled: bool, hook: HookOutcome, now: int)
    | ReportFailure

  /** The states from which an operation may be called, as the Agent interface documents them. */
  function CallableFrom(op: Operation): set<State> {
    match op
    case Start => {Unknown, Stopped, Failed}
    case Stop => {Starting, Running, Paused}
    case Pause => {Running}
    case Resume => {Paused}
  }

  /** The states a call takes the agent through, one after another. */
  function Visited(pre: State, call: SerialCall): seq<State> {
    match call
    case ReportFailure => if IsTerminal(pre) || pre.Unrecognised? then [] else [Failed]
    case Invoke(op, cancelled, hook, _) =>
      if pre !in CallableFrom(op) || cancelled then []
      else
        (match op case Start => [Starting] case Stop => [Stopping] case _ => []) +
        (match hook case HookOk => [Target(op)] case HookError => [Failed] case HookPanic => [])
  }

  function Answer(pre: State, op: Operation, cancelled: bool, hook: HookOutcome): Outcome {
    if op.Stop? && IsTerminal(pre) then Done
    else if cancelled then Timeout
    else if pre !in CallableFrom(op) then Conflict
    else match hook case HookOk => Done case HookError => HookFailed case HookPanic => Panicked
  }

  function Walk(s: Shared, states: seq<State>): Shared
    decreases |states|
  {
    if states == [] then s else Walk(Commit(s, states[0]), states[1..])
  }

  /** The effect of one call on the shared state. */
  function Serial(s: Shared, call: SerialCall): Shared {
    var visited := Visited(s.state, call);
    var s' := Walk(s, visited);
    if visited == [] || call.ReportFailure? || !call.hook.HookOk? then s'
    else match call.op
      case Start => s'.(startedAt := Some(call.now))
      case Stop => s'.(startedAt := None)
      case _ => s'
  }

  /** What Info reports as the start time. */
  function ReportedStart(s: Shared): Option<int> {
    if s.state == Running then s.startedAt else None
  }

  // ---------------------------------------------------------------------------------------------
  // The protocol, run by one thread at a time, computes Serial
  // ---------------------------------------------------------------------------------------------

  /** The actions of thread t that make up one call; those after an early return are not enabled. */
  function ActionsOf(t: nat, call: SerialCall): seq<Action> {
    match call
    case ReportFailure => [External(Failed)]
    case Invoke(op, cancelled, hook, now) =>
      [Call(t, op), Check(t, cancelled), Enter(t), HookReturns(t, hook)] +
      [LastAction(t, hook, now)]
  }

  /** A call that no other thread interrupts has exactly the tabulated effect, the tabulated answer,
      and leaves every other thread where it was. */
  lemma UninterruptedCall(c: Config, t: nat, call: SerialCall)
    requires PcOf(c, t).Idle? && !c.shared.state.Unrecognised?
    ensures var c' := Exec(c, ActionsOf(t, call));
            if call.Invoke? then RanAlone(c, c', t, call)
            else c' == c.(shared := Serial(c.shared, call))
  {
    match call
    case ReportFailure =>
      ExecSnoc(c, [], External(Failed));
      assert [] + [External(Failed)] == [External(Failed)];
      TransitionGraph(c.shared.state, Failed);
      SingleStep(c.shared, Failed);
    case Invoke(op, cancelled, hook, now) =>
      var opening := [Call(t, op), Check(t, cancelled), Enter(t), HookReturns(t, hook)];
      ExecFour(c, Call(t, op), Check(t, cancelled), Enter(t), HookReturns(t, hook));
      ExecSnoc(c, opening, LastAction(t, hook, now));
      UninterruptedOperation(c, t, op, cancelled, hook, now);
  }

  lemma SingleStep(s: Shared, to: State)
    ensures Walk(s, [to]) == Commit(s, to)
  {
    assert [to][1..] == [];
  }

  lemma TwoSteps(s: Shared, first: State, second: State)
    ensures Walk(s, [first] + [second]) == Commit(Commit(s, first), second)
  {
    assert ([first] + [second])[1..] == [second];
    SingleStep(Commit(s, first), second);
  }

  // What the five actions of a call leave behind.
  ghost predicate RanAlone(c: Config, c': Config, t: nat, call: SerialCall)
    requires call.Invoke?
  {
    && c'.shared == Serial(c.shared, call)
    && PcOf(c', t).Idle?
    && (forall u :: u != t ==> PcOf(c', u) == PcOf(c, u))
    && c'.replies == c.replies + [Reply(call.op, Answer(c.shared.state, call.op, call.cancelled, call.hook))]
  }

  function LastAction(t: nat, hook: HookOutcome, now: int): Action {
    if hook.HookError? then Fail(t) else Finish(t, now)
  }

  lemma UninterruptedOperation(c: Config, t: nat, op: Operation, cancelled: bool, hook: HookOutcome, now: int)
    requires PcOf(c, t).Idle? && !c.shared.state.Unrecognised?
    ensures var c1 := Step(Step(Step(Step(c, Call(t, op)), Check(t, cancelled)), Enter(t)), HookReturns(t, hook));
            RanAlone(c, Step(c1, LastAction(t, hook, now)), t, Invoke(op, cancelled, hook, now))
  {
    var s := c.shared;
    var checked := Step(Step(c, Call(t, op)), Check(t, cancelled));
    TransitionGraph(s.state, Starting);
    assert ValidTransition(s.state, Stopping) <==> s.state in CallableFrom(Stop);
    if s.state in CallableFrom(op) && !cancelled {
      AcceptedCall(c, checked, t, op, hook, now);
    } else {
      RefusedCall(c, t, op, cancelled, hook, now);
    }
  }

  // The check or the entry refuses, and the remaining actions are not enabled.
  lemma RefusedCall(c: Config, t: nat, op: Operation, cancelled: bool, hook: HookOutcome, now: int)
    requires PcOf(c, t).Idle? && (cancelled || c.shared.state !in CallableFrom(op)) && !c.shared.state.Unrecognised?
    ensures var c1 := Step(Step(Step(c, Call(t, op)), Check(t, cancelled)), Enter(t));
            && PcOf(c1, t).Idle? && c1.shared == c.shared
            && (forall u :: u != t ==> PcOf(c1, u) == PcOf(c, u))
            && c1.replies == c.replies + [Reply(op, Answer(c.shared.state, op, cancelled, hook))]
  {
  }

  /** The table and the code agree on an accepted call: entry, hook, closing section. */
  lemma SerialOfAccepted(s: Shared, op: Operation, hook: HookOutcome, now: int)
    requires s.state in CallableFrom(op)
    ensures var entered := Entered(s, op);
            Serial(s, Invoke(op, false, hook, now)) ==
            match hook
            case HookOk => FinishShared(entered, op, now)
            case HookError => Commit(entered, Failed)
            case HookPanic => entered
  {
    var next := if hook.HookError? then Failed else Target(op);
    if op.Start? || op.Stop? {
      SingleStep(s, Entry(op));
      TwoSteps(s, Entry(op), next);
      assert [Entry(op)] + [] == [Entry(op)];
    } else {
      SingleStep(s, next);
      assert [] + [next] == [next];
    }
  }

  function Entered(s: Shared, op: Operation): Shared {
    if op.Start? || op.Stop? then Commit(s, Entry(op)) else s
  }

  // The part after the context check, when the entry is accepted.
  lemma AcceptedCall(c: Config, checked: Config, t: nat, op: Operation, hook: HookOutcome, now: int)
    requires checked.shared == c.shared && checked.replies == c.replies && PcOf(checked, t) == Entering(op)
    requires forall u :: u != t ==> PcOf(checked, u) == PcOf(c, u)
    requires c.shared.state in CallableFrom(op)
    ensures RanAlone(c, Step(Step(Step(checked, Enter(t)), HookReturns(t, hook)), LastAction(t, hook, now)), t,
                     Invoke(op, false, hook, now))
  {
    var inHook := Step(checked, Enter(t));
    EnterAccepted(checked, t, op);
    FromHook(inHook, t, op, hook, now);
    SerialOfAccepted(c.shared, op, hook, now);
  }

  lemma EnterAccepted(c: Config, t: nat, op: Operation)
    requires PcOf(c, t) == Entering(op) && c.shared.state in CallableFrom(op)
    ensures var inHook := Step(c, Enter(t));
            && PcOf(inHook, t) == InHook(op)
            && (forall u :: u != t ==> PcOf(inHook, u) == PcOf(c, u))
            && inHook.replies == c.replies
            && inHook.shared == Entered(c.shared, op)
            && inHook.shared.state == Entry(op)
            && ValidTransition(inHook.shared.state, Target(op))
  {
  }

  lemma FromHook(inHook: Config, t: nat, op: Operation, hook: HookOutcome, now: int)
    requires PcOf(inHook, t) == InHook(op)
    ensures var c' := Step(Step(inHook, HookReturns(t, hook)), LastAction(t, hook, now));
            && c'.shared == (match hook
                             case HookOk => FinishShared(inHook.shared, op, now)
                             case HookError => Commit(inHook.shared, Failed)
                             case HookPanic => inHook.shared)
            && PcOf(c', t).Idle?
            && (forall u :: u != t ==> PcOf(c', u) == PcOf(inHook, u))
            && c'.replies == inHook.replies + [Reply(op, match hook
                 case HookOk => if ValidTransition(inHook.shared.state, Target(op)) then Done else Conflict
                 case HookError => HookFailed
                 case HookPanic => Panicked)]
  {
  }

  /** The table of Visited is honest: every step of it is a valid transition, so the call ends in the
      last state visited, having logged each. */
  lemma SerialEndsWhereVisited(s: Shared, call: SerialCall)
    ensures var v := Visited(s.state, call);
            Serial(s, call).state == if v == [] then s.state else v[|v| - 1]
    ensures |Serial(s, call).log| == |s.log| + |Visited(s.state, call)|
  {
    match call
    case ReportFailure =>
      TransitionGraph(s.state, Failed);
      SingleStep(s, Failed);
    case Invoke(op, cancelled, hook, now) =>
      if s.state in CallableFrom(op) && !cancelled {
        SerialOfAccepted(s, op, hook, now);
        EnteredState(s, op);
      }
  }

  /** What each answer means. Nil: the agent was taken to the operation's state, or a Stop found it at
      rest. A timeout or a conflict: nothing happened, because the context was cancelled or because the
      state was wrong. A hook failure: the agent failed. */
  lemma AnswersMeanExactly(s: Shared, op: Operation, cancelled: bool, hook: HookOutcome, now: int)
    requires !s.state.Unrecognised?
    ensures var r, s' := Answer(s.state, op, cancelled, hook), Serial(s, Invoke(op, cancelled, hook, now));
            var goal := match op case Start => Running case Stop => Stopped case Pause => Paused case Resume => Running;
            var stoppedAlready := op == Stop && s.state in {Stopped, Failed};
            var callable := match op
              case Start => s.state in {Unknown, Stopped, Failed}
              case Stop => s.state in {Starting, Running, Paused}
              case Pause => s.state == Running
              case Resume => s.state == Paused;
            && (r == Done <==> stoppedAlready || (s.state != goal && s'.state == goal))
            && (r == Timeout <==> cancelled && !stoppedAlready)
            && (r == Conflict <==> !cancelled && !stoppedAlready && !callable)
            && (r in {Timeout, Conflict} || stoppedAlready ==> s' == s)
            && (r == HookFailed ==> hook == HookError && s'.state == Failed && s'.startedAt == s.startedAt)
            && (r == Panicked ==> hook == HookPanic && s'.state in {Starting, Stopping, s.state})
            && (r == Done && !stoppedAlready ==>
                  s'.startedAt == match op case Start => Some(now) case Stop => None case _ => s.startedAt)
  {
    SerialEndsWhereVisited(s, Invoke(op, cancelled, hook, now));
    WalkKeepsStartTime(s, Visited(s.state, Invoke(op, cancelled, hook, now)));
  }

  lemma EnteredState(s: Shared, op: Operation)
    requires s.state in CallableFrom(op)
    ensures Entered(s, op).state == Entry(op)
    ensures ValidTransition(Entry(op), Target(op)) && ValidTransition(Entry(op), Failed)
    ensures |Entered(s, op).log| == |s.log| + if op.Start? || op.Stop? then 1 else 0
  {
  }

  // ---------------------------------------------------------------------------------------------
  // Serial runs
  // ---------------------------------------------------------------------------------------------

  function SerialRun(handlers: nat, calls: seq<SerialCall>): Shared {
    if calls == [] then Init(handlers).shared
    else Serial(SerialRun(handlers, calls[..|calls| - 1]), calls[|calls| - 1])
  }

  /** The actions of a whole serial run, each call on a thread of its own choice. */
  function ActionsOfRun(threads: seq<nat>, calls: seq<SerialCall>): seq<Action>
    requires |threads| == |calls|
  {
    if calls == [] then []
    else
      var n := |calls| - 1;
      ActionsOfRun(threads[..n], calls[..n]) + ActionsOf(threads[n], calls[n])
  }

  /** The answer of one call by the table; an outside SetState gives none. */
  function AnswersTo(pre: State, call: SerialCall): seq<Reply> {
    match call
    case ReportFailure => []
    case Invoke(op, cancelled, hook, _) => [Reply(op, Answer(pre, op, cancelled, hook))]
  }

  function Answers(handlers: nat, calls: seq<SerialCall>): seq<Reply> {
    if calls == [] then []
    else
      var front, last := calls[..|calls| - 1], calls[|calls| - 1];
      Answers(handlers, front) + AnswersTo(SerialRun(handlers, front).state, last)
  }

  ghost predicate AtRest(c: Config, s: Shared, replies: seq<Reply>) {
    c.shared == s && c.replies == replies && forall t :: PcOf(c, t).Idle?
  }

  lemma CallFromRest(c: Config, t: nat, call: SerialCall)
    requires AtRest(c, c.shared, c.replies) && !c.shared.state.Unrecognised?
    ensures AtRest(Exec(c, ActionsOf(t, call)), Serial(c.shared, call), c.replies + AnswersTo(c.shared.state, call))
  {
    UninterruptedCall(c, t, call);
    var c' := Exec(c, ActionsOf(t, call));
    forall u ensures PcOf(c', u).Idle? {
      if u != t {
        assert PcOf(c', u) == PcOf(c, u);
      }
    }
  }

  lemma RecognisedState(handlers: nat, run: seq<Action>)
    ensures !Exec(Init(handlers), run).shared.state.Unrecognised?
  {
    EveryRunIsRecorded(handlers, run);
    PathEndsInTable(Exec(Init(handlers), run).shared.log, Exec(Init(handlers), run).shared.state);
  }

  /** The protocol, run one whole call after another on any threads, computes the table: the same shared
      state, the same answers, and no thread is left inside a call. */
  lemma {:induction false} SerialRunIsARun(handlers: nat, threads: seq<nat>, calls: seq<SerialCall>)
    requires |threads| == |calls|
    ensures AtRest(Exec(Init(handlers), ActionsOfRun(threads, calls)),
                   SerialRun(handlers, calls), Answers(handlers, calls))
  {
    if calls != [] {
      var n := |calls| - 1;
      var earlier := ActionsOfRun(threads[..n], calls[..n]);
      var c := Exec(Init(handlers), earlier);
      SerialRunIsARun(handlers, threads[..n], calls[..n]);
      RecognisedState(handlers, earlier);
      CallFromRest(c, threads[n], calls[n]);
      ExecConcat(Init(handlers), earlier, ActionsOf(threads[n], calls[n]));
    }
  }

  predicate NoPanics(calls: seq<SerialCall>) {
    forall k :: 0 <= k < |calls| && calls[k].Invoke? ==> !calls[k].hook.HookPanic?
  }

  /** The clock reading of the latest Start of a run that returned nil. */
  function LatestStart(handlers: nat, calls: seq<SerialCall>): Option<int> {
    if calls == [] then None
    else
      var front, last := calls[..|calls| - 1], calls[|calls| - 1];
      if last.Invoke? && last.op.Start? &&
         Answer(SerialRun(handlers, front).state, Start, last.cancelled, last.hook) == Done
      then Some(last.now)
      else LatestStart(handlers, front)
  }

  /** In every serial run whose hooks do not panic the agent rests between calls in a settled state,
      and Info reports a start time exactly when the agent is running: the reading of the latest
      successful Start, however often it was paused and resumed since. */
  lemma {:induction false} SerialRunsSettle(handlers: nat, calls: seq<SerialCall>)
    requires NoPanics(calls)
    ensures var s := SerialRun(handlers, calls);
            && s.state in {Unknown, Running, Paused, Stopped, Failed}
            && (s.state in {Running, Paused} ==> s.startedAt.Some? && s.startedAt == LatestStart(handlers, calls))
            && (s.state == Stopped ==> s.startedAt.None?)
            && ReportedStart(s) == (if s.state == Running then LatestStart(handlers, calls) else None)
            && (ReportedStart(s).Some? <==> s.state == Running)
  {
    if calls != [] {
      var front, last := calls[..|calls| - 1], calls[|calls| - 1];
      SerialRunsSettle(handlers, front);
      var s := SerialRun(handlers, front);
      SerialEndsWhereVisited(s, last);
      WalkKeepsStartTime(s, Visited(s.state, last));
    }
  }

  lemma WalkKeepsStartTime(s: Shared, states: seq<State>)
    ensures Walk(s, states).startedAt == s.startedAt
    decreases |states|
  {
    if states != [] {
      WalkKeepsStartTime(Commit(s, states[0]), states[1..]);
    }
  }

  /** The hypothesis on panics is needed, and a panic is the only way to be left in between: after a
      settled run, a call leaves the agent in Starting or Stopping exactly when it is an accepted Start
      or Stop whose hook panics. */
  lemma LeftInBetweenExactly(handlers: nat, calls: seq<SerialCall>, call: SerialCall)
    requires NoPanics(calls)
    ensures var pre := SerialRun(handlers, calls);
            Serial(pre, call).state in {Starting, Stopping} <==>
              && call.Invoke? && call.op in {Start, Stop} && call.hook.HookPanic?
              && !call.cancelled && pre.state in CallableFrom(call.op)
  {
    SerialRunsSettle(handlers, calls);
    SerialEndsWhereVisited(SerialRun(handlers, calls), call);
  }
}
