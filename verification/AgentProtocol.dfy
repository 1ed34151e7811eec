/** BaseAgent's Start, Stop, Pause and Resume as an interleaved protocol. Each call is cut at the points
    where it takes or releases the mutex; a hook runs between two critical sections with the lock
    released. A run is any sequence of actions of any number of threads. */
module AgentProtocol {
  import opened Wrappers
  import opened Lifecycle

  /** One invocation of a registered state change handler, named by its registration index. */
  datatype Notification = Notification(handler: nat, transition: Transition)

  /** What the mutex protects, with the two histories the properties speak about. */
  datatype Shared = Shared(
    handlers: nat,
    state: State,
    startedAt: Option<int>,
    log: seq<Transition>,
    notified: seq<Notification>)

  /** All handlers told of one transition, in registration order. */
  function Round(handlers: nat, t: Transition): seq<Notification> {
    if handlers == 0 then [] else Round(handlers - 1, t) + [Notification(handlers - 1, t)]
  }

  /** setStateLocked: reject an invalid transition, else move and notify. */
  function Commit(s: Shared, to: State): Shared {
    if ValidTransition(s.state, to) then
      var t := Transition(s.state, to);
      s.(state := to, log := s.log + [t], notified := s.notified + Round(s.handlers, t))
    else s
  }

  datatype Operation = Start | Stop | Pause | Resume

  datatype HookOutcome = HookOk | HookError | HookPanic

  datatype Outcome = Done | Timeout | Conflict | HookFailed | Panicked

  datatype Reply = Reply(op: Operation, outcome: Outcome)

  /** Where a thread is inside a call. */
  datatype Pc =
    | Idle
    | Checking(op: Operation)   // before the context check
    | Entering(op: Operation)   // before the first critical section
    | InHook(op: Operation)     // the hook runs, the lock is free
    | Failing(op: Operation)    // the hook failed, SetState(Failed) is next
    | Finishing(op: Operation)  // before the closing critical section

  datatype Config = Config(shared: Shared, threads: map<nat, Pc>, replies: seq<Reply>)

  datatype Action =
    | Call(t: nat, op: Operation)
    | Check(t: nat, cancelled: bool)
    | Enter(t: nat)
    | HookReturns(t: nat, hook: HookOutcome)
    | Fail(t: nat)
    | Finish(t: nat, now: int)
    | External(to: State)       // SetState called from outside the four operations

  /** The state a thread asks for (Start, Stop) or insists on (Pause, Resume) when it enters. */
  function Entry(op: Operation): State {
    match op case Start => Starting case Stop => Stopping case Pause => Running case Resume => Paused
  }

  function Target(op: Operation): State {
    match op case Start => Running case Stop => Stopped case Pause => Paused case Resume => Running
  }

  /** The closing critical section, which also sets or clears the start time. */
  function FinishShared(s: Shared, op: Operation, now: int): Shared {
    var s' := Commit(s, Target(op));
    if !ValidTransition(s.state, Target(op)) then s'
    else match op
      case Start => s'.(startedAt := Some(now))
      case Stop => s'.(startedAt := None)
      case _ => s'
  }

  function PcOf(c: Config, t: nat): Pc {
    if t in c.threads then c.threads[t] else Idle
  }

  function Goto(c: Config, t: nat, pc: Pc): Config {
    c.(threads := c.threads[t := pc])
  }

  function Exit(c: Config, t: nat, op: Operation, outcome: Outcome): Config {
    Goto(c, t, Idle).(replies := c.replies + [Reply(op, outcome)])
  }

  predicate Enabled(c: Config, a: Action) {
    match a
    case Call(t, _) => PcOf(c, t).Idle?
    case Check(t, _) => PcOf(c, t).Checking?
    case Enter(t) => PcOf(c, t).Entering?
    case HookReturns(t, _) => PcOf(c, t).InHook?
    case Fail(t) => PcOf(c, t).Failing?
    case Finish(t, _) => PcOf(c, t).Finishing?
    case External(_) => true
  }

  /** One atomic step. An action whose thread is elsewhere changes nothing, so every sequence of
      actions is a run. */
  function Step(c: Config, a: Action): Config {
    if !Enabled(c, a) then c
    else match a
      case Call(t, op) => Goto(c, t, Checking(op))
      case Check(t, cancelled) =>
        var op := PcOf(c, t).op;
        if op.Stop? && IsTerminal(c.shared.state) then Exit(c, t, op, Done)
        else if cancelled then Exit(c, t, op, Timeout)
        else Goto(c, t, Entering(op))
      case Enter(t) => EnterStep(c, t, PcOf(c, t).op)
      case HookReturns(t, hook) =>
        var op := PcOf(c, t).op;
        (match hook
         case HookOk => Goto(c, t, Finishing(op))
         case HookError => Goto(c, t, Failing(op))
         case HookPanic => Exit(c, t, op, Panicked))
      case Fail(t) =>
        Exit(c.(shared := Commit(c.shared, Failed)), t, PcOf(c, t).op, HookFailed)
      case Finish(t, now) =>
        var op := PcOf(c, t).op;
        Exit(c.(shared := FinishShared(c.shared, op, now)), t, op,
             if ValidTransition(c.shared.state, Target(op)) then Done else Conflict)
      case External(to) => c.(shared := Commit(c.shared, to))
  }

  function EnterStep(c: Config, t: nat, op: Operation): Config {
    match op
    case Start | Stop =>
      if ValidTransition(c.shared.state, Entry(op))
      then Goto(c.(shared := Commit(c.shared, Entry(op))), t, InHook(op))
      else Exit(c, t, op, Conflict)
    case Pause | Resume =>
      if c.shared.state == Entry(op) then Goto(c, t, InHook(op)) else Exit(c, t, op, Conflict)
  }

  function Init(handlers: nat): Config {
    Config(Shared(handlers, Unknown, None, [], []), map[], [])
  }

  function Exec(c: Config, run: seq<Action>): Config {
    if run == [] then c else Step(Exec(c, run[..|run| - 1]), run[|run| - 1])
  }

  /** The configuration a fresh agent reaches after the first k actions of a run. */
  function At(handlers: nat, run: seq<Action>, k: nat): Config
    requires k <= |run|
  {
    Exec(Init(handlers), run[..k])
  }

  lemma AtNext(handlers: nat, run: seq<Action>, k: nat)
    requires k < |run|
    ensures At(handlers, run, k + 1) == Step(At(handlers, run, k), run[k])
  {
    assert run[..k + 1][..k] == run[..k];
  }

  lemma ExecSnoc(c: Config, run: seq<Action>, a: Action)
    ensures Exec(c, run + [a]) == Step(Exec(c, run), a)
  {
    assert (run + [a])[..|run|] == run;
  }

  // ---------------------------------------------------------------------------------------------
  // The log is a path, and the handlers have seen exactly the log
  // ---------------------------------------------------------------------------------------------

  /** What the handlers must have been told: every committed transition, one full round each. */
  function Rounds(handlers: nat, log: seq<Transition>): seq<Notification> {
    if log == [] then []
    else Rounds(handlers, log[..|log| - 1]) + Round(handlers, log[|log| - 1])
  }

  /** What one handler was told. */
  function SeenBy(h: nat, notified: seq<Notification>): seq<Transition> {
    if notified == [] then []
    else
      var last := notified[|notified| - 1];
      SeenBy(h, notified[..|notified| - 1]) + (if last.handler == h then [last.transition] else [])
  }

  ghost predicate Recorded(s: Shared) {
    PathTo(s.log, s.state) && s.notified == Rounds(s.handlers, s.log)
  }

  lemma CommitRecorded(s: Shared, to: State)
    requires Recorded(s)
    ensures Recorded(Commit(s, to)) && Commit(s, to).handlers == s.handlers
  {
    if ValidTransition(s.state, to) {
      var t := Transition(s.state, to);
      assert (s.log + [t])[..|s.log|] == s.log;
    }
  }

  lemma EnterRecorded(c: Config, t: nat, op: Operation)
    requires Recorded(c.shared)
    ensures Recorded(EnterStep(c, t, op).shared) && EnterStep(c, t, op).shared.handlers == c.shared.handlers
  {
    CommitRecorded(c.shared, Entry(op));
  }

  lemma FinishRecorded(s: Shared, op: Operation, now: int)
    requires Recorded(s)
    ensures Recorded(FinishShared(s, op, now)) && FinishShared(s, op, now).handlers == s.handlers
  {
    CommitRecorded(s, Target(op));
  }

  lemma StepRecorded(c: Config, a: Action)
    requires Recorded(c.shared)
    ensures Recorded(Step(c, a).shared) && Step(c, a).shared.handlers == c.shared.handlers
  {
    if Enabled(c, a) {
      match a
      case Enter(t) => EnterRecorded(c, t, PcOf(c, t).op);
      case Finish(t, now) => FinishRecorded(c.shared, PcOf(c, t).op, now);
      case Fail(_) => CommitRecorded(c.shared, Failed);
      case External(to) => CommitRecorded(c.shared, to);
      case _ => assert Step(c, a).shared == c.shared;
    }
  }

  /** In every interleaving, whatever states are asked for from outside, the committed transitions form
      a path from Unknown to the current state and the handlers were notified of exactly those. */
  lemma {:induction false} EveryRunIsRecorded(handlers: nat, run: seq<Action>)
    ensures Recorded(Exec(Init(handlers), run).shared)
    ensures Exec(Init(handlers), run).shared.handlers == handlers
  {
    if run != [] {
      EveryRunIsRecorded(handlers, run[..|run| - 1]);
      StepRecorded(Exec(Init(handlers), run[..|run| - 1]), run[|run| - 1]);
    }
  }

  lemma {:induction false} SeenByConcat(h: nat, a: seq<Notification>, b: seq<Notification>)
    ensures SeenBy(h, a + b) == SeenBy(h, a) + SeenBy(h, b)
  {
    if b == [] {
      assert a + b == a;
    } else {
      SeenByConcat(h, a, b[..|b| - 1]);
      assert (a + b)[..|a + b| - 1] == a + b[..|b| - 1];
    }
  }

  lemma {:induction false} SeenByRound(h: nat, handlers: nat, t: Transition)
    ensures SeenBy(h, Round(handlers, t)) == if h < handlers then [t] else []
  {
    if handlers > 0 {
      SeenByRound(h, handlers - 1, t);
      var front := Round(handlers - 1, t);
      assert (front + [Notification(handlers - 1, t)])[..|front|] == front;
    }
  }

  lemma {:induction false} SeenByRounds(h: nat, handlers: nat, log: seq<Transition>)
    requires h < handlers
    ensures SeenBy(h, Rounds(handlers, log)) == log
  {
    if log != [] {
      var front := log[..|log| - 1];
      SeenByRounds(h, handlers, front);
      SeenByConcat(h, Rounds(handlers, front), Round(handlers, log[|log| - 1]));
      SeenByRound(h, handlers, log[|log| - 1]);
      assert log == front + [log[|log| - 1]];
    }
  }

  lemma {:induction false} RoundAt(handlers: nat, t: Transition, j: nat)
    requires j < handlers
    ensures |Round(handlers, t)| == handlers && Round(handlers, t)[j] == Notification(j, t)
  {
    if handlers > 1 {
      RoundAt(handlers - 1, t, if j < handlers - 1 then j else 0);
    }
  }

  lemma {:induction false} RoundsAt(handlers: nat, log: seq<Transition>, i: nat, j: nat)
    requires i < |log| && j < handlers
    ensures i * handlers + j < |Rounds(handlers, log)| == |log| * handlers
    ensures Rounds(handlers, log)[i * handlers + j] == Notification(j, log[i])
  {
    var n := |log| - 1;
    RoundAt(handlers, log[n], j);
    assert |log| * handlers == n * handlers + handlers;
    if n > 0 {
      RoundsAt(handlers, log[..n], if i < n then i else 0, j);
    }
  }

  /** The order of all handler calls, in every interleaving: transition by transition, and for each
      transition the handlers by ascending registration index, each told of that transition. */
  lemma HandlersAreCalledInOrder(handlers: nat, run: seq<Action>, i: nat, j: nat)
    requires i < |Exec(Init(handlers), run).shared.log| && j < handlers
    ensures var s := Exec(Init(handlers), run).shared;
            && i * handlers + j < |s.notified| == |s.log| * handlers
            && s.notified[i * handlers + j] == Notification(j, s.log[i])
  {
    EveryRunIsRecorded(handlers, run);
    RoundsAt(handlers, Exec(Init(handlers), run).shared.log, i, j);
  }

  /** What SetState from outside does: an allowed transition is taken and every handler is told of it once; one
      that is not allowed changes nothing. The start time and the threads are left alone. */
  lemma SetStateExactly(c: Config, to: State)
    ensures var s, c' := c.shared, Step(c, External(to));
            && c'.threads == c.threads && c'.replies == c.replies
            && if ValidTransition(s.state, to)
               then && c'.shared.state == to && c'.shared.log == s.log + [Transition(s.state, to)]
                    && |c'.shared.notified| == |s.notified| + s.handlers
                    && c'.shared.startedAt == s.startedAt
               else c'.shared == s
  {
    if ValidTransition(c.shared.state, to) && c.shared.handlers > 0 {
      RoundAt(c.shared.handlers, Transition(c.shared.state, to), 0);
    }
  }

  /** In every interleaving, whatever states are asked for from outside, an agent is stopped only by way
      of Stopping, and paused only from Running. */
  lemma StoppedByWayOfStopping(handlers: nat, run: seq<Action>, k: nat)
    requires k < |Exec(Init(handlers), run).shared.log|
    ensures var log := Exec(Init(handlers), run).shared.log;
            && (log[k].to == Stopped ==> k > 0 && log[k - 1].to == Stopping)
            && (log[k].to == Paused ==> k > 0 && log[k - 1].to == Running)
  {
    var s := Exec(Init(handlers), run).shared;
    EveryRunIsRecorded(handlers, run);
    PathIsConnected(s.log, s.state, k);
    TransitionGraph(s.log[k].from, s.log[k].to);
  }

  /** Each registered handler has been called once per committed transition, in commit order. */
  lemma EachHandlerSeesTheLog(handlers: nat, run: seq<Action>, h: nat)
    requires h < handlers
    ensures var s := Exec(Init(handlers), run).shared; SeenBy(h, s.notified) == s.log
  {
    EveryRunIsRecorded(handlers, run);
    SeenByRounds(h, handlers, Exec(Init(handlers), run).shared.log);
  }

  // ---------------------------------------------------------------------------------------------
  // Successful starts are bounded by restarts
  // ---------------------------------------------------------------------------------------------

  function Successes(replies: seq<Reply>, op: Operation): nat {
    if replies == [] then 0
    else
      Successes(replies[..|replies| - 1], op) +
      (if replies[|replies| - 1] == Reply(op, Done) then 1 else 0)
  }

  predicate InsideStart(pc: Pc) {
    (pc.InHook? || pc.Failing? || pc.Finishing?) && pc.op.Start?
  }

  function StartsInFlight(c: Config): set<nat> {
    set t | t in c.threads && InsideStart(c.threads[t])
  }

  // Every Start past its entry holds a distinct entry into Starting.
  ghost predicate StartsPaid(c: Config) {
    Successes(c.replies, Start) + |StartsInFlight(c)| <= Entries(c.shared.log, {Starting})
  }

  lemma GotoMovesOneStart(c: Config, t: nat, pc: Pc)
    ensures t in StartsInFlight(c) <==> InsideStart(PcOf(c, t))
    ensures StartsInFlight(Goto(c, t, pc)) ==
            if InsideStart(pc) then StartsInFlight(c) + {t} else StartsInFlight(c) - {t}
  {
    var after := StartsInFlight(Goto(c, t, pc));
    forall u ensures u in after <==> if u == t then InsideStart(pc) else u in StartsInFlight(c) {
    }
  }

  lemma GotoInFlight(c: Config, t: nat, pc: Pc)
    ensures var before, after := StartsInFlight(c), StartsInFlight(Goto(c, t, pc));
            && (InsideStart(pc) && !InsideStart(PcOf(c, t)) ==> |after| == |before| + 1)
            && (!InsideStart(pc) && InsideStart(PcOf(c, t)) ==> |after| == |before| - 1)
            && (InsideStart(pc) == InsideStart(PcOf(c, t)) ==> |after| == |before|)
  {
    GotoMovesOneStart(c, t, pc);
    if t in StartsInFlight(c) {
      assert StartsInFlight(c) + {t} == StartsInFlight(c);
    } else {
      assert StartsInFlight(c) - {t} == StartsInFlight(c);
    }
  }

  lemma CommitEntries(s: Shared, to: State, targets: set<State>)
    ensures Entries(Commit(s, to).log, targets) ==
            Entries(s.log, targets) + (if ValidTransition(s.state, to) && to in targets then 1 else 0)
  {
    if ValidTransition(s.state, to) {
      assert (s.log + [Transition(s.state, to)])[..|s.log|] == s.log;
    }
  }

  lemma ReplyCounts(replies: seq<Reply>, r: Reply, op: Operation)
    ensures Successes(replies + [r], op) == Successes(replies, op) + (if r == Reply(op, Done) then 1 else 0)
  {
    assert (replies + [r])[..|replies|] == replies;
  }

  lemma ExitPaid(c: Config, t: nat, op: Operation, outcome: Outcome)
    requires StartsPaid(c)
    requires op == Start && outcome == Done ==> InsideStart(PcOf(c, t))
    ensures StartsPaid(Exit(c, t, op, outcome))
  {
    ReplyCounts(c.replies, Reply(op, outcome), Start);
    GotoInFlight(c, t, Idle);
    assert StartsInFlight(Exit(c, t, op, outcome)) == StartsInFlight(Goto(c, t, Idle));
  }

  lemma CommitPaid(c: Config, s: Shared, to: State)
    requires StartsPaid(c)
    requires s.log == Commit(c.shared, to).log
    ensures StartsPaid(c.(shared := s))
  {
    CommitEntries(c.shared, to, {Starting});
    assert StartsInFlight(c.(shared := s)) == StartsInFlight(c);
  }

  lemma EnterPaid(c: Config, t: nat, op: Operation)
    requires StartsPaid(c) && PcOf(c, t) == Entering(op)
    ensures StartsPaid(EnterStep(c, t, op))
  {
    ExitPaid(c, t, op, Conflict);
    GotoInFlight(c, t, InHook(op));
    var entered := c.(shared := Commit(c.shared, Entry(op)));
    CommitEntries(c.shared, Entry(op), {Starting});
    GotoInFlight(entered, t, InHook(op));
    assert StartsInFlight(entered) == StartsInFlight(c);
  }

  lemma StepPaid(c: Config, a: Action)
    requires StartsPaid(c)
    ensures StartsPaid(Step(c, a))
  {
    if Enabled(c, a) {
      match a
      case Call(t, op) => GotoInFlight(c, t, Checking(op));
      case Check(t, _) =>
        var op := PcOf(c, t).op;
        ExitPaid(c, t, op, Timeout);
        if op.Stop? { ExitPaid(c, t, op, Done); }
        GotoInFlight(c, t, Entering(op));
      case Enter(t) => EnterPaid(c, t, PcOf(c, t).op);
      case HookReturns(t, hook) =>
        var op := PcOf(c, t).op;
        ExitPaid(c, t, op, Panicked);
        GotoInFlight(c, t, Finishing(op));
        GotoInFlight(c, t, Failing(op));
      case Fail(t) =>
        CommitPaid(c, Commit(c.shared, Failed), Failed);
        ExitPaid(c.(shared := Commit(c.shared, Failed)), t, PcOf(c, t).op, HookFailed);
      case Finish(t, now) =>
        var op := PcOf(c, t).op;
        var s := FinishShared(c.shared, op, now);
        CommitPaid(c, s, Target(op));
        ExitPaid(c.(shared := s), t, op,
                 if ValidTransition(c.shared.state, Target(op)) then Done else Conflict);
      case External(to) => CommitPaid(c, Commit(c.shared, to), to);
    }
  }

  lemma {:induction false} EveryRunPays(handlers: nat, run: seq<Action>)
    ensures StartsPaid(Exec(Init(handlers), run))
  {
    if run == [] {
      assert StartsInFlight(Init(handlers)) == {};
    } else {
      EveryRunPays(handlers, run[..|run| - 1]);
      StepPaid(Exec(Init(handlers), run[..|run| - 1]), run[|run| - 1]);
    }
  }

  /** In every interleaving the Start calls that returned nil number at most one more than the entries
      into Stopped or Failed. */
  lemma SuccessfulStartsAreBounded(handlers: nat, run: seq<Action>)
    ensures var c := Exec(Init(handlers), run);
            Successes(c.replies, Start) <= 1 + Entries(c.shared.log, {Stopped, Failed})
  {
    var c := Exec(Init(handlers), run);
    EveryRunPays(handlers, run);
    EveryRunIsRecorded(handlers, run);
    RestartsArePaidFor(c.shared.log, c.shared.state);
  }

  /** In every interleaving the agent was at rest between two transitions from Starting to Running. */
  lemma RunningTwiceNeedsRest(handlers: nat, run: seq<Action>, i: nat, j: nat)
    requires i < j < |Exec(Init(handlers), run).shared.log|
    requires var log := Exec(Init(handlers), run).shared.log; log[i] == log[j] == Transition(Starting, Running)
    ensures exists k :: i < k < j && IsTerminal(Exec(Init(handlers), run).shared.log[k].to)
  {
    EveryRunIsRecorded(handlers, run);
    StartsAreSeparated(Exec(Init(handlers), run).shared.log, Exec(Init(handlers), run).shared.state, i, j);
  }

  // ---------------------------------------------------------------------------------------------
  // Every entry into Running, Paused and Stopped is answered
  // ---------------------------------------------------------------------------------------------

  // The entries into Running and Paused are the nil answers of the operations that lead there; a Stop may
  // also answer nil at rest.
  ghost predicate Answered(log: seq<Transition>, replies: seq<Reply>) {
    && Successes(replies, Start) + Successes(replies, Resume) == Entries(log, {Running})
    && Successes(replies, Pause) == Entries(log, {Paused})
    && Successes(replies, Stop) >= Entries(log, {Stopped})
  }

  lemma RefusalAnswered(log: seq<Transition>, replies: seq<Reply>, r: Reply)
    requires Answered(log, replies) && (r.outcome != Done || r.op.Stop?)
    ensures Answered(log, replies + [r])
  {
    forall op ensures Successes(replies + [r], op) ==
                      Successes(replies, op) + (if r == Reply(op, Done) then 1 else 0) {
      ReplyCounts(replies, r, op);
    }
  }

  lemma PassageAnswered(s: Shared, replies: seq<Reply>, to: State)
    requires Answered(s.log, replies) && to in {Starting, Stopping, Failed}
    ensures Answered(Commit(s, to).log, replies)
  {
    CommitEntries(s, to, {Running});
    CommitEntries(s, to, {Paused});
    CommitEntries(s, to, {Stopped});
  }

  lemma FinishAnswered(s: Shared, replies: seq<Reply>, op: Operation)
    requires Answered(s.log, replies)
    ensures Answered(Commit(s, Target(op)).log,
                     replies + [Reply(op, if ValidTransition(s.state, Target(op)) then Done else Conflict)])
  {
    var r := Reply(op, if ValidTransition(s.state, Target(op)) then Done else Conflict);
    forall o ensures Successes(replies + [r], o) ==
                     Successes(replies, o) + (if r == Reply(o, Done) then 1 else 0) {
      ReplyCounts(replies, r, o);
    }
    CommitEntries(s, Target(op), {Running});
    CommitEntries(s, Target(op), {Paused});
    CommitEntries(s, Target(op), {Stopped});
  }

  ghost predicate AnsweredIn(c: Config) {
    Answered(c.shared.log, c.replies)
  }

  lemma ExitAnswered(c: Config, t: nat, op: Operation, outcome: Outcome)
    requires AnsweredIn(c) && (outcome != Done || op.Stop?)
    ensures AnsweredIn(Exit(c, t, op, outcome))
  {
    RefusalAnswered(c.shared.log, c.replies, Reply(op, outcome));
  }

  lemma CheckAnswered(c: Config, t: nat, cancelled: bool)
    requires AnsweredIn(c) && PcOf(c, t).Checking?
    ensures AnsweredIn(Step(c, Check(t, cancelled)))
  {
    var op := PcOf(c, t).op;
    if op.Stop? && IsTerminal(c.shared.state) {
      ExitAnswered(c, t, op, Done);
    } else if cancelled {
      ExitAnswered(c, t, op, Timeout);
    }
  }

  lemma EnterAnswered(c: Config, t: nat, op: Operation)
    requires AnsweredIn(c)
    ensures AnsweredIn(EnterStep(c, t, op))
  {
    if (op.Start? || op.Stop?) && ValidTransition(c.shared.state, Entry(op)) {
      PassageAnswered(c.shared, c.replies, Entry(op));
    } else if !op.Start? && !op.Stop? && c.shared.state == Entry(op) {
      assert EnterStep(c, t, op) == Goto(c, t, InHook(op));
    } else {
      ExitAnswered(c, t, op, Conflict);
      assert EnterStep(c, t, op) == Exit(c, t, op, Conflict);
    }
  }

  lemma FailAnswered(c: Config, t: nat, op: Operation)
    requires AnsweredIn(c)
    ensures AnsweredIn(Exit(c.(shared := Commit(c.shared, Failed)), t, op, HookFailed))
  {
    PassageAnswered(c.shared, c.replies, Failed);
    ExitAnswered(c.(shared := Commit(c.shared, Failed)), t, op, HookFailed);
  }

  lemma HookAnswered(c: Config, t: nat, hook: HookOutcome)
    requires AnsweredIn(c)
    ensures AnsweredIn(Step(c, HookReturns(t, hook)))
  {
    if PcOf(c, t).InHook? && hook.HookPanic? {
      ExitAnswered(c, t, PcOf(c, t).op, Panicked);
    } else {
      assert Step(c, HookReturns(t, hook)).shared == c.shared && Step(c, HookReturns(t, hook)).replies == c.replies;
    }
  }

  lemma FinishAnsweredIn(c: Config, t: nat, now: int)
    requires AnsweredIn(c) && PcOf(c, t).Finishing?
    ensures AnsweredIn(Step(c, Finish(t, now)))
  {
    var op, c' := PcOf(c, t).op, Step(c, Finish(t, now));
    FinishAnswered(c.shared, c.replies, op);
    assert c'.shared.log == Commit(c.shared, Target(op)).log;
    assert c'.replies == c.replies +
           [Reply(op, if ValidTransition(c.shared.state, Target(op)) then Done else Conflict)];
  }

  lemma StepAnswered(c: Config, a: Action)
    requires AnsweredIn(c) && (a.External? ==> a.to == Failed)
    ensures AnsweredIn(Step(c, a))
  {
    if Enabled(c, a) {
      match a
      case Call(_, _) =>
      case Check(t, cancelled) => CheckAnswered(c, t, cancelled);
      case Enter(t) => EnterAnswered(c, t, PcOf(c, t).op);
      case HookReturns(t, hook) => HookAnswered(c, t, hook);
      case Fail(t) => FailAnswered(c, t, PcOf(c, t).op);
      case Finish(t, now) => FinishAnsweredIn(c, t, now);
      case External(_) => PassageAnswered(c.shared, c.replies, Failed);
    }
  }

  /** In every interleaving, the Starts and Resumes that returned nil number exactly the entries into
      Running, the Pauses that returned nil exactly the entries into Paused, and every entry into Stopped
      is a Stop that returned nil. */
  lemma {:induction false} EveryEntryIsAnswered(handlers: nat, run: seq<Action>)
    requires OnlyFailsExternally(run)
    ensures var c := Exec(Init(handlers), run);
            && Successes(c.replies, Start) + Successes(c.replies, Resume) == Entries(c.shared.log, {Running})
            && Successes(c.replies, Pause) == Entries(c.shared.log, {Paused})
            && Successes(c.replies, Stop) >= Entries(c.shared.log, {Stopped})
  {
    if run != [] {
      EveryEntryIsAnswered(handlers, run[..|run| - 1]);
      StepAnswered(Exec(Init(handlers), run[..|run| - 1]), run[|run| - 1]);
    }
  }

  // ---------------------------------------------------------------------------------------------
  // The start time
  // ---------------------------------------------------------------------------------------------

  /** The documented use of SetState from outside: reporting a failure. */
  ghost predicate OnlyFailsExternally(run: seq<Action>) {
    forall k :: 0 <= k < |run| && run[k].External? ==> run[k].to == Failed
  }

  /** A running or paused agent knows when it started. */
  predicate StartKnown(s: Shared) {
    s.state in {Running, Paused} ==> s.startedAt.Some?
  }

  /** A Resume whose hook outlived a Stop and commits Running in the middle of the next Start. */
  predicate StaleResume(c: Config, a: Action) {
    && a.Finish? && PcOf(c, a.t) == Finishing(Resume)
    && c.shared.state == Starting && c.shared.startedAt.None?
  }

  /** The one step that loses the start time, exactly. */
  lemma StepKeepsStartKnown(c: Config, a: Action)
    requires StartKnown(c.shared)
    requires a.External? ==> a.to == Failed
    ensures StartKnown(Step(c, a).shared) <==> !StaleResume(c, a)
  {
    TransitionGraph(c.shared.state, Starting);
    assert ValidTransition(c.shared.state, Running) <==> c.shared.state in {Starting, Paused};
    assert ValidTransition(c.shared.state, Paused) <==> c.shared.state == Running;
  }

  /** A run keeps the start time throughout if and only if no stale Resume commits in it. */
  lemma {:induction false} StartKnownExactly(handlers: nat, run: seq<Action>)
    requires OnlyFailsExternally(run)
    ensures (forall k :: 0 <= k <= |run| ==> StartKnown(At(handlers, run, k).shared)) <==>
            (forall k :: 0 <= k < |run| ==> !StaleResume(At(handlers, run, k), run[k]))
  {
    if forall k :: 0 <= k <= |run| ==> StartKnown(At(handlers, run, k).shared) {
      forall k | 0 <= k < |run| ensures !StaleResume(At(handlers, run, k), run[k]) {
        AtNext(handlers, run, k);
        assert StartKnown(At(handlers, run, k + 1).shared);
        StepKeepsStartKnown(At(handlers, run, k), run[k]);
      }
    }
    if forall k :: 0 <= k < |run| ==> !StaleResume(At(handlers, run, k), run[k]) {
      forall k | 0 <= k <= |run| ensures StartKnown(At(handlers, run, k).shared) {
        StartKnownUpTo(handlers, run, k);
      }
    }
  }

  lemma {:induction false} StartKnownUpTo(handlers: nat, run: seq<Action>, k: nat)
    requires OnlyFailsExternally(run) && k <= |run|
    requires forall i :: 0 <= i < |run| ==> !StaleResume(At(handlers, run, i), run[i])
    ensures StartKnown(At(handlers, run, k).shared)
  {
    if k > 0 {
      StartKnownUpTo(handlers, run, k - 1);
      AtNext(handlers, run, k - 1);
      StepKeepsStartKnown(At(handlers, run, k - 1), run[k - 1]);
    }
  }

  /** A Resume between its requireState and its closing SetState. */
  predicate Resuming(pc: Pc) {
    (pc.InHook? || pc.Finishing?) && pc.op.Resume?
  }

  ghost predicate ResumeInFlight(c: Config) {
    exists t :: t in c.threads && Resuming(c.threads[t])
  }

  /** The critical section that commits Stopped and clears the start time. */
  predicate StopCompletes(c: Config, a: Action) {
    a.Finish? && PcOf(c, a.t) == Finishing(Stop) && ValidTransition(c.shared.state, Stopped)
  }

  /** No Stop completes inside the window of a Resume. */
  ghost predicate NoStopInsideResume(handlers: nat, run: seq<Action>) {
    forall k :: 0 <= k < |run| && StopCompletes(At(handlers, run, k), run[k]) ==>
      !ResumeInFlight(At(handlers, run, k))
  }

  lemma StepKeepsResumable(c: Config, a: Action)
    requires StartKnown(c.shared)
    requires ResumeInFlight(c) ==> c.shared.startedAt.Some?
    requires a.External? ==> a.to == Failed
    requires StopCompletes(c, a) ==> !ResumeInFlight(c)
    ensures StartKnown(Step(c, a).shared)
    ensures ResumeInFlight(Step(c, a)) ==> Step(c, a).shared.startedAt.Some?
  {
    var c' := Step(c, a);
    if a.Finish? && PcOf(c, a.t) == Finishing(Resume) {
      assert Resuming(c.threads[a.t]);
    }
    StepKeepsStartKnown(c, a);
    if ResumeInFlight(c') {
      var t :| t in c'.threads && Resuming(c'.threads[t]);
      if t in c.threads && Resuming(c.threads[t]) {
        assert ResumeInFlight(c);
      } else {
        assert a == Enter(t) && PcOf(c, t) == Entering(Resume) && c.shared.state == Paused;
      }
    }
  }

  /** In every interleaving in which no Stop completes between a Resume's check and its commit, Running
      or Paused implies the start time is set, and so does a Resume in flight. */
  lemma {:induction false} StartKnownWithoutOverlap(handlers: nat, run: seq<Action>, k: nat)
    requires OnlyFailsExternally(run) && NoStopInsideResume(handlers, run) && k <= |run|
    ensures StartKnown(At(handlers, run, k).shared)
    ensures ResumeInFlight(At(handlers, run, k)) ==> At(handlers, run, k).shared.startedAt.Some?
  {
    if k > 0 {
      StartKnownWithoutOverlap(handlers, run, k - 1);
      AtNext(handlers, run, k - 1);
      StepKeepsResumable(At(handlers, run, k - 1), run[k - 1]);
    }
  }

  /** A stopped agent has no start time, in every interleaving. */
  lemma {:induction false} StoppedHasNoStartTime(handlers: nat, run: seq<Action>)
    requires OnlyFailsExternally(run)
    ensures var s := Exec(Init(handlers), run).shared; s.state == Stopped ==> s.startedAt == None
  {
    if run != [] {
      StoppedHasNoStartTime(handlers, run[..|run| - 1]);
    }
  }

  /** Right after the SetState(Failed) that follows a failing hook, accepted or rejected, the agent is
      in a terminal state. This needs no assumption on the other threads. */
  lemma FailedHookEndsAtRest(handlers: nat, run: seq<Action>, t: nat)
    requires PcOf(Exec(Init(handlers), run), t).Failing?
    ensures IsTerminal(Exec(Init(handlers), run + [Fail(t)]).shared.state)
  {
    var c := Exec(Init(handlers), run);
    EveryRunIsRecorded(handlers, run);
    PathEndsInTable(c.shared.log, c.shared.state);
    TransitionGraph(c.shared.state, Failed);
    ExecSnoc(Init(handlers), run, Fail(t));
  }

  /** The actions of thread t that carry a call of op through its hook. */
  function ThroughHook(t: nat, op: Operation): seq<Action> {
    [Call(t, op), Check(t, false), Enter(t), HookReturns(t, HookOk)]
  }

  lemma ExecConcat(c: Config, a: seq<Action>, b: seq<Action>)
    ensures Exec(c, a + b) == Exec(Exec(c, a), b)
  {
    if b == [] {
      assert a + b == a;
    } else {
      ExecConcat(c, a, b[..|b| - 1]);
      assert (a + b)[..|a + b| - 1] == a + b[..|b| - 1];
    }
  }

  lemma ExecFour(c: Config, a0: Action, a1: Action, a2: Action, a3: Action)
    ensures Exec(c, [a0, a1, a2, a3]) == Step(Step(Step(Step(c, a0), a1), a2), a3)
  {
    ExecSnoc(c, [], a0);
    ExecSnoc(c, [a0], a1);
    ExecSnoc(c, [a0, a1], a2);
    ExecSnoc(c, [a0, a1, a2], a3);
    assert [] + [a0] == [a0] && [a0] + [a1] == [a0, a1] && [a0, a1] + [a2] == [a0, a1, a2];
    assert [a0, a1, a2] + [a3] == [a0, a1, a2, a3];
  }

  // A call whose entry is accepted.
  predicate Accepts(s: Shared, op: Operation) {
    if op.Start? || op.Stop? then ValidTransition(s.state, Entry(op)) else s.state == Entry(op)
  }

  // Extends a run by a call of op on thread t, up to its closing section.
  lemma ExtendThroughHook(c: Config, run: seq<Action>, t: nat, op: Operation) returns (run': seq<Action>)
    requires PcOf(Exec(c, run), t).Idle? && Accepts(Exec(c, run).shared, op)
    requires OnlyFailsExternally(run)
    ensures run' == run + ThroughHook(t, op) && OnlyFailsExternally(run')
    ensures PcOf(Exec(c, run'), t) == Finishing(op)
    ensures forall u :: u != t ==> PcOf(Exec(c, run'), u) == PcOf(Exec(c, run), u)
    ensures Exec(c, run').shared.state == Entry(op)
    ensures Exec(c, run').shared.startedAt == Exec(c, run).shared.startedAt
  {
    run' := run + ThroughHook(t, op);
    ExecConcat(c, run, ThroughHook(t, op));
    ExecFour(Exec(c, run), Call(t, op), Check(t, false), Enter(t), HookReturns(t, HookOk));
  }

  // Extends a run by the closing section of thread t, at clock reading 0.
  lemma ExtendFinish(c: Config, run: seq<Action>, t: nat) returns (run': seq<Action>)
    requires PcOf(Exec(c, run), t).Finishing?
    requires ValidTransition(Exec(c, run).shared.state, Target(PcOf(Exec(c, run), t).op))
    requires OnlyFailsExternally(run)
    ensures run' == run + [Finish(t, 0)] && OnlyFailsExternally(run')
    ensures PcOf(Exec(c, run'), t) == Idle
    ensures forall u :: u != t ==> PcOf(Exec(c, run'), u) == PcOf(Exec(c, run), u)
    ensures Exec(c, run').shared.state == Target(PcOf(Exec(c, run), t).op)
    ensures Exec(c, run').shared.startedAt ==
            match PcOf(Exec(c, run), t).op
            case Start => Some(0) case Stop => None case _ => Exec(c, run).shared.startedAt
  {
    run' := run + [Finish(t, 0)];
    ExecSnoc(c, run, Finish(t, 0));
  }

  /** The overlap condition is needed: a run of three threads ends Running with no start time. Thread 1
      checks Paused, thread 0 stops the agent, thread 2 restarts it, and thread 1 commits Running. */
  lemma StaleResumeWitness(handlers: nat) returns (run: seq<Action>)
    ensures OnlyFailsExternally(run)
    ensures Exec(Init(handlers), run).shared.state == Running
    ensures Exec(Init(handlers), run).shared.startedAt == None
  {
    var c := Init(handlers);
    run := PausedRun(c);
    run := ExtendThroughHook(c, run, 1, Resume);
    run := RestartRun(c, run);
    run := ExtendFinish(c, run, 1);
  }

  // Thread 0 stops the agent and thread 2 begins to restart it.
  lemma RestartRun(c: Config, run: seq<Action>) returns (run': seq<Action>)
    requires OnlyFailsExternally(run) && Exec(c, run).shared.state == Paused
    requires PcOf(Exec(c, run), 0).Idle? && PcOf(Exec(c, run), 2).Idle?
    ensures OnlyFailsExternally(run')
    ensures Exec(c, run').shared.state == Starting && Exec(c, run').shared.startedAt == None
    ensures PcOf(Exec(c, run'), 1) == PcOf(Exec(c, run), 1)
  {
    run' := ExtendThroughHook(c, run, 0, Stop);
    run' := ExtendFinish(c, run', 0);
    run' := ExtendThroughHook(c, run', 2, Start);
  }

  // Thread 0 starts the agent and pauses it.
  lemma PausedRun(c: Config) returns (run: seq<Action>)
    requires c.shared.state == Unknown && c.threads == map[]
    ensures OnlyFailsExternally(run)
    ensures run == ThroughHook(0, Start) + [Finish(0, 0)] + ThroughHook(0, Pause) + [Finish(0, 0)]
    ensures Exec(c, run).shared.state == Paused && Exec(c, run).shared.startedAt == Some(0)
    ensures forall u :: PcOf(Exec(c, run), u) == Idle
  {
    run := ExtendThroughHook(c, [], 0, Start);
    assert run == ThroughHook(0, Start);
    run := ExtendFinish(c, run, 0);
    run := ExtendThroughHook(c, run, 0, Pause);
    run := ExtendFinish(c, run, 0);
  }
}
