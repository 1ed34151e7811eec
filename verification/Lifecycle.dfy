/** The lifecycle state machine: the states, the transition table and the paths through it. */
module Lifecycle {

  // The source's State is a string type, so a caller can hold a value outside the seven constants.
  datatype State = Unknown | Starting | Running | Paused | Stopping | Stopped | Failed | Unrecognised(text: string)

  datatype Transition = Transition(from: State, to: State)

  const VALID_TRANSITIONS: map<State, seq<State>> := map[
    Unknown := [Starting, Failed],
    Starting := [Running, Failed, Stopping],
    Running := [Paused, Stopping, Failed],
    Paused := [Running, Stopping, Failed],
    Stopping := [Stopped, Failed],
    Stopped := [Starting],
    Failed := [Starting]
  ]

  predicate IsTerminal(s: State) {
    s == Stopped || s == Failed
  }

  predicate ValidTransition(from: State, to: State) {
    from != to && from in VALID_TRANSITIONS && to in VALID_TRANSITIONS[from]
  }

  /** log is a chain of valid transitions that leads from Unknown to s. */
  ghost predicate PathTo(log: seq<Transition>, s: State) {
    if log == [] then s == Unknown
    else
      var last := log[|log| - 1];
      last.to == s && ValidTransition(last.from, last.to) && PathTo(log[..|log| - 1], last.from)
  }

  /** The number of transitions in log that enter one of the states in targets. */
  function Entries(log: seq<Transition>, targets: set<State>): nat {
    if log == [] then 0
    else Entries(log[..|log| - 1], targets) + (if log[|log| - 1].to in targets then 1 else 0)
  }

  /** The table read as a graph, by who may enter each state: Failed is the way out of every live state,
      Starting is entered only from rest, Stopped only by way of Stopping, Paused only from Running, and
      nothing returns to Unknown. */
  lemma TransitionGraph(from: State, to: State)
    ensures ValidTransition(from, Failed) <==> from in VALID_TRANSITIONS && !IsTerminal(from)
    ensures ValidTransition(from, Starting) <==> from == Unknown || IsTerminal(from)
    ensures ValidTransition(from, Running) <==> from in {Starting, Paused}
    ensures ValidTransition(from, Paused) <==> from == Running
    ensures ValidTransition(from, Stopping) <==> from in {Starting, Running, Paused}
    ensures ValidTransition(from, Stopped) <==> from == Stopping
    ensures IsTerminal(from) <==> from in {Stopped, Failed}
    ensures IsTerminal(from) && ValidTransition(from, to) ==> to == Starting
    ensures ValidTransition(from, to) ==> to in VALID_TRANSITIONS && to != Unknown
  {
    assert from in VALID_TRANSITIONS ==> (Failed !in VALID_TRANSITIONS[from] <==> IsTerminal(from));
  }

  /** A path never leaves the table, and is empty exactly at Unknown. */
  lemma PathEndsInTable(log: seq<Transition>, s: State)
    requires PathTo(log, s)
    ensures s in VALID_TRANSITIONS
    ensures s == Unknown <==> log == []
  {
    if log != [] {
      TransitionGraph(log[|log| - 1].from, s);
    }
  }

  /** Each restart is paid for by an earlier entry into Stopped or Failed. */
  lemma {:induction false} RestartsArePaidFor(log: seq<Transition>, s: State)
    requires PathTo(log, s)
    ensures Entries(log, {Starting}) <= 1 + Entries(log, {Stopped, Failed})
    ensures IsTerminal(s) || s == Unknown ==> Entries(log, {Starting}) <= Entries(log, {Stopped, Failed})
  {
    if log == [] {
    } else {
      var last := log[|log| - 1];
      RestartsArePaidFor(log[..|log| - 1], last.from);
      TransitionGraph(last.from, last.to);
    }
  }

  /** Between any two starts that reached Running, the agent was at rest. */
  lemma StartsAreSeparated(log: seq<Transition>, s: State, i: nat, j: nat)
    requires PathTo(log, s)
    requires i < j < |log|
    requires log[i] == log[j] == Transition(Starting, Running)
    ensures exists k :: i < k < j && IsTerminal(log[k].to)
  {
    PathPrefix(log, s, j);
    RestBeforeStarting(log[..j], log[j].from, i);
    var k :| i < k < j && IsTerminal(log[..j][k].to);
    assert IsTerminal(log[k].to);
  }

  lemma {:induction false} PathPrefix(log: seq<Transition>, s: State, k: nat)
    requires PathTo(log, s)
    requires k < |log|
    ensures PathTo(log[..k], log[k].from)
  {
    if k < |log| - 1 {
      var front := log[..|log| - 1];
      PathPrefix(front, log[|log| - 1].from, k);
      assert front[..k] == log[..k];
    }
  }

  /** Each transition of a path starts where the one before ended, the first at Unknown, and the last
      leads to the current state. */
  lemma PathIsConnected(log: seq<Transition>, s: State, k: nat)
    requires PathTo(log, s) && k < |log|
    ensures ValidTransition(log[k].from, log[k].to)
    ensures log[k].from == if k == 0 then Unknown else log[k - 1].to
    ensures s == log[|log| - 1].to
  {
    PathPrefix(log, s, k);
    if k < |log| - 1 {
      PathPrefix(log, s, k + 1);
      assert log[..k + 1][..k] == log[..k];
    }
    if k > 0 {
      assert log[..k][k - 1] == log[k - 1];
    }
  }

  // Once Running is left behind, Starting can come back only after a terminal state.
  lemma {:induction false} RestBeforeStarting(log: seq<Transition>, s: State, i: nat)
    requires PathTo(log, s)
    requires i < |log| && log[i].to == Running
    requires s !in {Running, Paused, Stopping}
    ensures exists k :: i < k < |log| && IsTerminal(log[k].to)
  {
    var last := log[|log| - 1];
    TransitionGraph(last.from, s);
    if !IsTerminal(s) {
      var front := log[..|log| - 1];
      RestBeforeStarting(front, last.from, i);
      var k :| i < k < |front| && IsTerminal(front[k].to);
      assert IsTerminal(log[k].to);
    }
  }
}
