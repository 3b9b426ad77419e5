/**
  The relay's locking protocol over whole runs: no deadlock, bounded work, and an end to every
  handshake of a fair run.
*/
module HandshakeRuns {
  import opened HandshakeModel
  import opened Sequences
  import opened HandshakeSafety
  import opened HandshakeLiveness

  // ---- no deadlock ----

  /** In every reachable state with a task that is not at rest, some task can step. */
  lemma NoDeadlock(s: State, t: TaskId)
    requires Reachable(s) && t in s.tasks && !AtRest(s.tasks[t])
    ensures exists h :: CanStep(s, h)
  {
    ReachableIsSafe(s);
    var h := SomeTaskHelps(s, t);
  }

  // ---- bounded work ----

  ghost const StepsLeft: Task -> nat := task => Remaining(task)

  ghost function TotalWork(s: State): nat {
    Sum(s.tasks, StepsLeft)
  }

  ghost function StepCount(actions: seq<Action>): nat {
    if actions == [] then 0 else (if actions[0].StepOf? then 1 else 0) + StepCount(actions[1..])
  }

  ghost function Arrivals(actions: seq<Action>): nat {
    if actions == [] then 0 else (if actions[0].Arrive? then 1 else 0) + Arrivals(actions[1..])
  }

  lemma WorkAfterStep(s: State, t: TaskId)
    requires KindsMatch(s) && CanStep(s, t)
    ensures TotalWork(Step(s, t)) < TotalWork(s)
  {
    StepperIsUp(s, t);
    SumOverStep(s, t, StepsLeft);
    StepLowersRemaining(s, s.tasks[t]);
  }

  lemma WorkAfterOther(s: State, a: Action)
    requires Enabled(s, a) && !a.StepOf?
    ensures TotalWork(Next(s, a)) <= TotalWork(s) + if a.Arrive? then 30 else 0
  {
    match a
    case Arrive(n, who) => SumUpdate(s.tasks, StepsLeft, Conn(n), Task(who, !s.phaseOver, Start));
    case EndPhase => WorkAfterBroadcast(s, Next(s, a));
    case Cancel(t) => SumUpdate(s.tasks, StepsLeft, t, s.tasks[t].(pc := Terminated));
  }

  lemma WorkAfterBroadcast(s: State, s': State)
    requires s'.tasks == map u <- s.tasks :: Wake(s.tasks[u])
    ensures TotalWork(s') <= TotalWork(s)
  {
    forall u | u in s.tasks
      ensures StepsLeft(Wake(s.tasks[u])) <= StepsLeft(s.tasks[u])
    {
    }
    SumAgrees(s.tasks, s'.tasks, StepsLeft);
  }

  lemma {:induction false} RunWork(s: State, actions: seq<Action>, s': State)
    requires Safe(s) && Runs(s, actions, s')
    ensures StepCount(actions) + TotalWork(s') <= TotalWork(s) + 30 * Arrivals(actions)
    decreases |actions|
  {
    if actions != [] {
      var a := actions[0];
      NextKeepsSafe(s, a);
      RunWork(Next(s, a), actions[1..], s');
      if a.StepOf? { WorkAfterStep(s, a.t); } else { WorkAfterOther(s, a); }
    }
  }

  /** However a run interleaves, its tasks take at most thirty steps per accepted connection. */
  lemma WorkIsBounded(actions: seq<Action>, s: State)
    requires Runs(Initial, actions, s)
    ensures StepCount(actions) <= 30 * Arrivals(actions)
  {
    RunWork(Initial, actions, s);
  }

  // ---- no starvation ----

  datatype Tick = Idle | Do(action: Action)

  /** An infinite behaviour: the state before each tick, and what the tick does. */
  ghost predicate IsBehaviour(state: nat -> State, tick: nat -> Tick) {
    && state(0) == Initial
    && forall i: nat ::
         match tick(i)
         case Idle => state(i + 1) == state(i)
         case Do(a) => Enabled(state(i), a) && state(i + 1) == Next(state(i), a)
  }

  /** From tick `i` on, task `t` is at some point scheduled, or unable to run. */
  ghost predicate NotForgotten(state: nat -> State, tick: nat -> Tick, t: TaskId, i: nat) {
    exists j: nat :: i <= j && (tick(j) == Do(StepOf(t)) || !CanStep(state(j), t))
  }

  /** A scheduler that never forgets a task that can run. */
  ghost predicate IsFair(state: nat -> State, tick: nat -> Tick) {
    forall t: TaskId, i: nat :: NotForgotten(state, tick, t, i)
  }

  lemma {:induction false} BehaviourIsSafe(state: nat -> State, tick: nat -> Tick, i: nat)
    requires IsBehaviour(state, tick)
    ensures Safe(state(i))
  {
    if i > 0 {
      BehaviourIsSafe(state, tick, i - 1);
      if tick(i - 1).Do? { NextKeepsSafe(state(i - 1), tick(i - 1).action); }
    }
  }

  /** One tick: the rank falls, or it stays and the helper still helps. */
  lemma TickKeeps(state: nat -> State, tick: nat -> Tick, i: nat, t: TaskId, h: TaskId)
    requires IsBehaviour(state, tick) && Helps(state(i), t, h) && !AtRest(state(i).tasks[t])
    ensures t in state(i + 1).tasks
    ensures || Below(RankOf(state(i + 1), t), RankOf(state(i), t))
            || (&& RankOf(state(i + 1), t) == RankOf(state(i), t)
                && tick(i) != Do(StepOf(h)) && Helps(state(i + 1), t, h) && !AtRest(state(i + 1).tasks[t]))
  {
    if tick(i).Do? {
      var s, a, s' := state(i), tick(i).action, state(i + 1);
      BehaviourIsSafe(state, tick, i);
      RankNext(s, a, s', t);
      if !Below(RankOf(s', t), RankOf(s, t)) {
        HelperStays(s, a, s', t, h);
        TaskStays(s, a, t);
      }
    }
  }

  /** The helper is scheduled, so the rank falls. */
  lemma RankFalls(state: nat -> State, tick: nat -> Tick, i: nat, t: TaskId) returns (k: nat)
    requires IsBehaviour(state, tick) && IsFair(state, tick)
    requires t in state(i).tasks && !AtRest(state(i).tasks[t])
    ensures k > i && t in state(k).tasks && Below(RankOf(state(k), t), RankOf(state(i), t))
  {
    BehaviourIsSafe(state, tick, i);
    var h := SomeTaskHelps(state(i), t);
    assert NotForgotten(state, tick, h, i);
    var j: nat :| i <= j && (tick(j) == Do(StepOf(h)) || !CanStep(state(j), h));
    k := RankFallsBy(state, tick, i, j, t, h);
  }

  lemma {:induction false} RankFallsBy(state: nat -> State, tick: nat -> Tick, i: nat, j: nat, t: TaskId,
      h: TaskId) returns (k: nat)
    requires IsBehaviour(state, tick) && i <= j && (tick(j) == Do(StepOf(h)) || !CanStep(state(j), h))
    requires Helps(state(i), t, h) && !AtRest(state(i).tasks[t])
    ensures k > i && t in state(k).tasks && Below(RankOf(state(k), t), RankOf(state(i), t))
    decreases j - i
  {
    TickKeeps(state, tick, i, t, h);
    if Below(RankOf(state(i + 1), t), RankOf(state(i), t)) {
      k := i + 1;
    } else {
      k := RankFallsBy(state, tick, i + 1, j, t, h);
    }
  }

  /**
    No starvation: in every fair behaviour, whatever else arrives, every task comes to rest. A
    connection task thereby gets through all its locks; a woken reader gets its table.
  */
  lemma {:induction false} EveryTaskRests(state: nat -> State, tick: nat -> Tick, i: nat, t: TaskId)
    requires IsBehaviour(state, tick) && IsFair(state, tick) && t in state(i).tasks
    ensures exists j: nat :: i <= j && t in state(j).tasks && AtRest(state(j).tasks[t])
    decreases RankOf(state(i), t).own, RankOf(state(i), t).writer, RankOf(state(i), t).snd, RankOf(state(i), t).group
  {
    if !AtRest(state(i).tasks[t]) {
      var k := RankFalls(state, tick, i, t);
      EveryTaskRests(state, tick, k, t);
      var j: nat :| k <= j && t in state(j).tasks && AtRest(state(j).tasks[t]);
    }
  }

  /** Every handshake ends registered or reconnected, or is refused as a late registration. */
  lemma EveryHandshakeEnds(state: nat -> State, tick: nat -> Tick, i: nat, n: nat)
    requires IsBehaviour(state, tick) && IsFair(state, tick) && Conn(n) in state(i).tasks
    ensures exists j: nat ::
              && i <= j && Conn(n) in state(j).tasks
              && (state(j).tasks[Conn(n)].pc.Finished? || state(j).tasks[Conn(n)].pc.LateRegistration?)
  {
    EveryTaskRests(state, tick, i, Conn(n));
    var j: nat :| i <= j && Conn(n) in state(j).tasks && AtRest(state(j).tasks[Conn(n)]);
    BehaviourIsSafe(state, tick, j);
    assert !ReaderPc(state(j).tasks[Conn(n)].pc) && TaskRegistered(state(j), state(j).tasks[Conn(n)]);
  }
}
