/** Whose start time it is: a life of the agent begins with an entry into Starting, and the start time of
    a running agent should be the one its current life was given. */
module AgentLives {
  import opened Wrappers
  import opened Lifecycle
  import opened AgentProtocol

  predicate LifeBegins(c: Config, a: Action) {
    c.shared.state != Starting && Step(c, a).shared.state == Starting
  }

  /** The closing critical section of a successful Start. */
  predicate StartCompletes(c: Config, a: Action) {
    a.Finish? && PcOf(c, a.t) == Finishing(Start) && ValidTransition(c.shared.state, Running)
  }

  function NextLife(c: Config, a: Action, life: Option<int>): Option<int> {
    if LifeBegins(c, a) then None else if StartCompletes(c, a) then Some(a.now) else life
  }

  /** The reading of the latest Start that completed since the last entry into Starting. */
  function LifeStart(handlers: nat, run: seq<Action>): Option<int> {
    if run == [] then None
    else
      var front, last := run[..|run| - 1], run[|run| - 1];
      NextLife(Exec(Init(handlers), front), last, LifeStart(handlers, front))
  }

  /** The start time of a running or paused agent is that of its current life. */
  predicate OfThisLife(s: Shared, life: Option<int>) {
    s.state in {Running, Paused} ==> life.Some? && s.startedAt == life
  }

  ghost predicate OfThisLifeAt(handlers: nat, run: seq<Action>, k: nat)
    requires k <= |run|
  {
    OfThisLife(At(handlers, run, k).shared, LifeStart(handlers, run[..k]))
  }

  /** A Resume that commits Running in the middle of a Start. */
  predicate ResumeIntoStart(c: Config, a: Action) {
    a.Finish? && PcOf(c, a.t) == Finishing(Resume) && c.shared.state == Starting
  }

  // No life has a start time while the agent is starting.
  lemma StepClearsLife(c: Config, a: Action, life: Option<int>)
    requires c.shared.state == Starting ==> life.None?
    ensures Step(c, a).shared.state == Starting ==> NextLife(c, a, life).None?
  {
    if StartCompletes(c, a) {
      assert Step(c, a).shared.state == Running;
    }
  }

  /** The one step after which the start time is not that of the current life, exactly. */
  lemma StepKeepsLife(c: Config, a: Action, life: Option<int>)
    requires OfThisLife(c.shared, life)
    requires c.shared.state == Starting ==> life.None?
    requires a.External? ==> a.to == Failed
    ensures OfThisLife(Step(c, a).shared, NextLife(c, a, life)) <==> !ResumeIntoStart(c, a)
  {
    var s, s' := c.shared, Step(c, a).shared;
    assert ValidTransition(s.state, Running) <==> s.state in {Starting, Paused};
    assert ValidTransition(s.state, Paused) <==> s.state == Running;
    if s'.state in {Running, Paused} && s'.state != s.state {
      assert a.Finish? && PcOf(c, a.t).Finishing? && PcOf(c, a.t).op != Stop;
    }
  }

  lemma {:induction false} NoLifeInStarting(handlers: nat, run: seq<Action>)
    ensures Exec(Init(handlers), run).shared.state == Starting ==> LifeStart(handlers, run).None?
  {
    if run != [] {
      var front, last := run[..|run| - 1], run[|run| - 1];
      NoLifeInStarting(handlers, front);
      StepClearsLife(Exec(Init(handlers), front), last, LifeStart(handlers, front));
    }
  }

  // One step further in a run.
  lemma LifeAtNext(handlers: nat, run: seq<Action>, k: nat)
    requires OnlyFailsExternally(run) && k < |run| && OfThisLifeAt(handlers, run, k)
    ensures OfThisLifeAt(handlers, run, k + 1) <==> !ResumeIntoStart(At(handlers, run, k), run[k])
  {
    AtNext(handlers, run, k);
    assert run[..k + 1][..k] == run[..k];
    NoLifeInStarting(handlers, run[..k]);
    StepKeepsLife(At(handlers, run, k), run[k], LifeStart(handlers, run[..k]));
  }

  /** The start time is that of the current life throughout a run if and only if no Resume commits in the
      middle of a Start in it. */
  lemma {:induction false} OfThisLifeExactly(handlers: nat, run: seq<Action>)
    requires OnlyFailsExternally(run)
    ensures (forall k :: 0 <= k <= |run| ==> OfThisLifeAt(handlers, run, k)) <==>
            (forall k :: 0 <= k < |run| ==> !ResumeIntoStart(At(handlers, run, k), run[k]))
  {
    if forall k :: 0 <= k <= |run| ==> OfThisLifeAt(handlers, run, k) {
      forall k | 0 <= k < |run| ensures !ResumeIntoStart(At(handlers, run, k), run[k]) {
        assert OfThisLifeAt(handlers, run, k) && OfThisLifeAt(handlers, run, k + 1);
        LifeAtNext(handlers, run, k);
      }
    }
    if forall k :: 0 <= k < |run| ==> !ResumeIntoStart(At(handlers, run, k), run[k]) {
      forall k | 0 <= k <= |run| ensures OfThisLifeAt(handlers, run, k) {
        OfThisLifeUpTo(handlers, run, k);
      }
    }
  }

  lemma {:induction false} OfThisLifeUpTo(handlers: nat, run: seq<Action>, k: nat)
    requires OnlyFailsExternally(run) && k <= |run|
    requires forall i :: 0 <= i < k ==> !ResumeIntoStart(At(handlers, run, i), run[i])
    ensures OfThisLifeAt(handlers, run, k)
  {
    if k > 0 {
      OfThisLifeUpTo(handlers, run, k - 1);
      LifeAtNext(handlers, run, k - 1);
    }
  }

  /** No life begins inside the window of a Resume. */
  ghost predicate NoLifeInsideResume(handlers: nat, run: seq<Action>) {
    forall k :: 0 <= k < |run| && LifeBegins(At(handlers, run, k), run[k]) ==> !ResumeInFlight(At(handlers, run, k))
  }

  lemma StepKeepsResumeOutside(c: Config, a: Action)
    requires ResumeInFlight(c) ==> c.shared.state != Starting
    requires LifeBegins(c, a) ==> !ResumeInFlight(c)
    ensures ResumeInFlight(Step(c, a)) ==> Step(c, a).shared.state != Starting
  {
    var c' := Step(c, a);
    if ResumeInFlight(c') {
      var t :| t in c'.threads && Resuming(c'.threads[t]);
      if t in c.threads && Resuming(c.threads[t]) {
        assert ResumeInFlight(c);
      } else {
        assert a == Enter(t) && PcOf(c, t) == Entering(Resume) && c.shared.state == Paused;
      }
    }
  }

  lemma {:induction false} ResumeStaysOutside(handlers: nat, run: seq<Action>, k: nat)
    requires NoLifeInsideResume(handlers, run) && k <= |run|
    ensures ResumeInFlight(At(handlers, run, k)) ==> At(handlers, run, k).shared.state != Starting
  {
    if k > 0 {
      ResumeStaysOutside(handlers, run, k - 1);
      AtNext(handlers, run, k - 1);
      StepKeepsResumeOutside(At(handlers, run, k - 1), run[k - 1]);
    }
  }

  lemma CommitsFromItsWindow(c: Config, a: Action)
    ensures ResumeIntoStart(c, a) ==> ResumeInFlight(c)
  {
    if ResumeIntoStart(c, a) {
      assert Resuming(c.threads[a.t]);
    }
  }

  /** In every interleaving in which no life begins between a Resume's check and its commit, the start
      time of a running or paused agent is that of its current life. */
  lemma {:induction false} OfThisLifeWithoutOverlap(handlers: nat, run: seq<Action>, k: nat)
    requires OnlyFailsExternally(run) && NoLifeInsideResume(handlers, run) && k <= |run|
    ensures OfThisLifeAt(handlers, run, k)
  {
    forall i | 0 <= i < k ensures !ResumeIntoStart(At(handlers, run, i), run[i]) {
      ResumeStaysOutside(handlers, run, i);
      CommitsFromItsWindow(At(handlers, run, i), run[i]);
    }
    OfThisLifeUpTo(handlers, run, k);
  }

  predicate NoStops(run: seq<Action>) {
    forall k :: 0 <= k < |run| && run[k].Call? ==> !run[k].op.Stop?
  }

  /** The condition is needed even where nobody calls Stop: a paused agent fails while a Resume is in its
      hook, a new Start enters, and the Resume commits Running. The agent runs with the start time of the
      life before. */
  lemma PreviousLifeWitness(handlers: nat) returns (run: seq<Action>)
    ensures OnlyFailsExternally(run) && NoStops(run)
    ensures Exec(Init(handlers), run).shared.state == Running
    ensures Exec(Init(handlers), run).shared.startedAt == Some(0)
    ensures LifeStart(handlers, run) == None
  {
    var c := Init(handlers);
    var starting := RestartAfterFailure(c);
    NoLifeInStarting(handlers, starting);
    run := ExtendFinish(c, starting, 1);
    assert run[..|run| - 1] == starting;
  }

  // Thread 1 resumes, the agent fails, and thread 2 begins a new life.
  lemma RestartAfterFailure(c: Config) returns (run: seq<Action>)
    requires c.shared.state == Unknown && c.threads == map[]
    ensures OnlyFailsExternally(run) && NoStops(run)
    ensures var c' := Exec(c, run);
            c'.shared.state == Starting && c'.shared.startedAt == Some(0) && PcOf(c', 1) == Finishing(Resume)
  {
    run := PausedRun(c);
    run := ExtendThroughHook(c, run, 1, Resume);
    run := ExtendFailure(c, run);
    run := ExtendThroughHook(c, run, 2, Start);
  }

  // A failure reported from outside.
  lemma ExtendFailure(c: Config, run: seq<Action>) returns (run': seq<Action>)
    requires OnlyFailsExternally(run) && Exec(c, run).shared.state == Paused
    ensures run' == run + [External(Failed)] && OnlyFailsExternally(run')
    ensures Exec(c, run').shared.state == Failed
    ensures Exec(c, run').shared.startedAt == Exec(c, run).shared.startedAt
    ensures forall t :: PcOf(Exec(c, run'), t) == PcOf(Exec(c, run), t)
  {
    run' := run + [External(Failed)];
    ExecSnoc(c, run, External(Failed));
  }
}
