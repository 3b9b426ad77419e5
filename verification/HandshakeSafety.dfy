/**
  What every step of the relay's locking protocol keeps: queues hold exactly the waiting tasks,
  write locks exclude, and whoever is in the writer table is in its group's table.
*/
module HandshakeSafety {
  import opened HandshakeModel
  import opened Sequences

  /** Each queue lists, without repetition, exactly the tasks that wait for its lock. */
  ghost predicate QueuesExact(s: State) {
    && (forall lock, i, j | 0 <= i < j < |Queue(s, lock)| :: Queue(s, lock)[i] != Queue(s, lock)[j])
    && (forall lock, i | 0 <= i < |Queue(s, lock)| ::
          var t := Queue(s, lock)[i]; t in s.tasks && Wants(s.tasks[t]).Claim? && Wants(s.tasks[t]).lock == lock)
    && (forall t | t in s.tasks && Wants(s.tasks[t]).Claim? :: t in Queue(s, Wants(s.tasks[t]).lock))
  }

  /** A task that holds a lock for writing is alone on it. */
  ghost predicate Exclusion(s: State) {
    forall lock, t, u | t in s.tasks && u in s.tasks && t != u ::
      HoldsExclusive(s.tasks[t], lock) ==> !Holds(s.tasks[u], lock)
  }

  predicate ReaderPc(pc: Pc) {
    pc.Spawned? || pc.Parked? || pc.Notified? || pc.AwaitTable? || pc.CloneTable? || pc.Routing? || pc.Terminated?
  }

  /** Points of a connection task after it has started its reader, or where it never will. */
  predicate PastSpawn(pc: Pc) {
    || pc.Resend? || pc.RequestWriterWrite? || pc.AwaitWriterWrite? || pc.InsertWriter?
    || pc.Finished? || pc.LateRegistration? || pc.IndexPanic?
  }

  ghost predicate KindsMatch(s: State) {
    && (forall t <- s.tasks :: ReaderPc(s.tasks[t].pc) <==> t.Reader?)
    && (forall t <- s.tasks :: t.Conn? && !PastSpawn(s.tasks[t].pc) ==> Reader(t.n) !in s.tasks)
  }

  predicate GroupKnown(pc: Pc) {
    || pc.GroupFound? || pc.AwaitGroup? || pc.InsertChannel? || pc.AwaitNewGroup? || pc.InsertFirstChannel?
    || ChannelKnown(pc) || ReaderPc(pc)
  }

  predicate ChannelKnown(pc: Pc) {
    pc.LeaveSndWrite? || pc.SpawnTasks? || pc.RequestWriterWrite? || pc.AwaitWriterWrite? || pc.InsertWriter?
  }

  /** The task finds in the tables what its program point relies on. */
  ghost predicate TaskRegistered(s: State, task: Task) {
    && !task.pc.IndexPanic?
    && (task.pc.AwaitSndRead? || task.pc.IndexGroup? ==> task.who in s.writerDb)
    && (GroupKnown(task.pc) ==> task.who.group in s.sndDb)
    && (ChannelKnown(task.pc) ==> task.who.sender in s.sndDb[task.who.group])
  }

  /**
    Everyone in the writer table has a channel in an existing group, and each task finds in the
    tables what its program point relies on.
  */
  ghost predicate Registered(s: State) {
    && (forall w <- s.writerDb :: w.group in s.sndDb && w.sender in s.sndDb[w.group])
    && (forall t <- s.tasks :: TaskRegistered(s, s.tasks[t]))
  }

  ghost predicate Safe(s: State) {
    QueuesExact(s) && Exclusion(s) && KindsMatch(s) && Registered(s)
  }

  // ---- queues ----

  lemma QueuesAfterRequest(s: State, t: TaskId, s': State, lock: Lock)
    requires QueuesExact(s) && t in s.tasks && Wants(s.tasks[t]).Free?
    requires t in s'.tasks && Wants(s'.tasks[t]).Claim? && Wants(s'.tasks[t]).lock == lock
    requires s'.tasks == s.tasks[t := s'.tasks[t]] && s'.queues == s.queues[lock := Queue(s, lock) + [t]]
    ensures QueuesExact(s')
  {
    assert Queue(s', lock) == Queue(s, lock) + [t];
    assert forall l | l != lock :: Queue(s', l) == Queue(s, l);
    assert Queue(s', lock)[|Queue(s, lock)|] == t;
  }

  lemma QueuesAfterGrant(s: State, t: TaskId, s': State, lock: Lock)
    requires QueuesExact(s) && CanStep(s, t) && Wants(s.tasks[t]).Claim? && Wants(s.tasks[t]).lock == lock
    requires t in s'.tasks && Wants(s'.tasks[t]).Free?
    requires s'.tasks == s.tasks[t := s'.tasks[t]] && s'.queues == s.queues[lock := Queue(s, lock)[1..]]
    ensures QueuesExact(s')
  {
    assert Queue(s', lock) == Queue(s, lock)[1..];
    assert forall l | l != lock :: Queue(s', l) == Queue(s, l);
    forall u | u in s'.tasks && Wants(s'.tasks[u]).Claim?
      ensures u in Queue(s', Wants(s'.tasks[u]).lock)
    {
      var l := Wants(s'.tasks[u]).lock;
      var i :| 0 <= i < |Queue(s, l)| && Queue(s, l)[i] == u;
      if l == lock { assert i != 0 && Queue(s', lock)[i - 1] == u; }
    }
  }

  /** No task starts or stops waiting, and the new tasks wait for nothing. */
  lemma QueuesFrame(s: State, s': State)
    requires QueuesExact(s) && s'.queues == s.queues
    requires forall t <- s.tasks :: t in s'.tasks && Wants(s'.tasks[t]) == Wants(s.tasks[t])
    requires forall t <- s'.tasks :: t !in s.tasks ==> Wants(s'.tasks[t]).Free?
    ensures QueuesExact(s')
  {
    assert forall lock :: Queue(s', lock) == Queue(s, lock);
  }

  lemma {:induction false} WithoutKeepsOthers(q: seq<TaskId>, t: TaskId)
    requires NoRepeats(q)
    ensures NoRepeats(Without(q, t))
    ensures forall u :: u in Without(q, t) <==> u in q && u != t
  {
    if q != [] {
      var r := Without(q[1..], t);
      assert q == [q[0]] + q[1..];
      assert NoRepeats(q[1..]) && q[0] !in q[1..];
      WithoutKeepsOthers(q[1..], t);
      assert NoRepeats([q[0]] + r);
    }
  }

  lemma QueuesAfterCancel(s: State, t: TaskId)
    requires QueuesExact(s) && Enabled(s, Cancel(t))
    ensures QueuesExact(Next(s, Cancel(t)))
  {
    var s' := Next(s, Cancel(t));
    var claim := Wants(s.tasks[t]);
    if claim.Free? {
      QueuesFrame(s, s');
    } else {
      QueuesWithout(s, t, s', claim.lock);
    }
  }

  lemma QueuesWithout(s: State, t: TaskId, s': State, lock: Lock)
    requires QueuesExact(s) && t in s.tasks && Wants(s.tasks[t]).Claim? && Wants(s.tasks[t]).lock == lock
    requires t in s'.tasks && s'.tasks == s.tasks[t := s'.tasks[t]] && Wants(s'.tasks[t]).Free?
    requires s'.queues == s.queues[lock := Without(Queue(s, lock), t)]
    ensures QueuesExact(s')
  {
    var q, q' := Queue(s, lock), Queue(s', lock);
    assert NoRepeats(q) && q' == Without(q, t);
    WithoutKeepsOthers(q, t);
    assert NoRepeats(q');
    assert forall i | 0 <= i < |q'| :: q'[i] in q' && q'[i] in q;
    assert forall other | other != lock :: Queue(s', other) == Queue(s, other);
  }

  /** A step never waits both before and after. */
  lemma OneWait(s: State, task: Task)
    requires !AtRest(task)
    ensures Wants(task).Claim? ==> Wants(task.(pc := NextPc(s, task))).Free?
    ensures SpawnsReader(s, task) ==> Wants(task).Free? && Wants(task.(pc := NextPc(s, task))).Free?
  {
  }

  /** A step changes the stepping task and may add its reader; it touches no other task. */
  lemma StepperIsUp(s: State, t: TaskId)
    requires CanStep(s, t)
    ensures !AtRest(s.tasks[t])
  {
  }

  lemma StepTouches(s: State, t: TaskId)
    requires KindsMatch(s) && CanStep(s, t)
    ensures var s', task := Step(s, t), s.tasks[t];
            && s'.tasks.Keys == s.tasks.Keys + (if SpawnsReader(s, task) then {Reader(t.n)} else {})
            && s'.tasks[t] == task.(pc := NextPc(s, task))
            && (forall u <- s.tasks :: u != t ==> s'.tasks[u] == s.tasks[u])
            && (SpawnsReader(s, task) ==>
                  && t.Conn? && Reader(t.n) !in s.tasks
                  && s'.tasks[Reader(t.n)] == Task(task.who, task.registration, Spawned))
  {
    assert SpawnsReader(s, s.tasks[t]) ==> !ReaderPc(s.tasks[t].pc) && !PastSpawn(s.tasks[t].pc);
  }

  lemma StepKeepsQueues(s: State, t: TaskId)
    requires QueuesExact(s) && KindsMatch(s) && CanStep(s, t)
    ensures QueuesExact(Step(s, t))
  {
    StepperIsUp(s, t);
    var s' := Step(s, t);
    var task := s.tasks[t];
    var task' := task.(pc := NextPc(s, task));
    OneWait(s, task);
    StepTouches(s, t);
    if Wants(task).Claim? {
      QueuesAfterGrant(s, t, s', Wants(task).lock);
    } else if Wants(task').Claim? {
      QueuesAfterRequest(s, t, s', Wants(task').lock);
    } else {
      QueuesFrame(s, s');
    }
  }

  // ---- exclusion ----

  /** A step that takes no lock keeps exclusion. */
  lemma ExclusionFrame(s: State, s': State)
    requires Exclusion(s)
    requires forall t, lock | t in s'.tasks && Holds(s'.tasks[t], lock) ::
               && t in s.tasks && Holds(s.tasks[t], lock)
               && (HoldsExclusive(s'.tasks[t], lock) ==> HoldsExclusive(s.tasks[t], lock))
    ensures Exclusion(s')
  {
  }

  /** A step takes at most the lock it waited for, and takes it in the mode it asked for. */
  lemma StepTakes(s: State, task: Task, lock: Lock)
    requires !AtRest(task)
    ensures var task' := task.(pc := NextPc(s, task));
            Holds(task', lock) ==>
              if Wants(task).Claim? && Wants(task).lock == lock then
                HoldsExclusive(task', lock) <==> Wants(task).mode.Exclusive?
              else
                Holds(task, lock) && (HoldsExclusive(task', lock) <==> HoldsExclusive(task, lock))
  {
  }

  /** Nobody else is on the lock in a mode that excludes what `t` holds after its step. */
  lemma StepperExcludes(s: State, t: TaskId, lock: Lock, u: TaskId)
    requires Exclusion(s) && CanStep(s, t) && u in s.tasks && u != t
    ensures var task' := s.tasks[t].(pc := NextPc(s, s.tasks[t]));
            && (HoldsExclusive(task', lock) ==> !Holds(s.tasks[u], lock))
            && (HoldsExclusive(s.tasks[u], lock) ==> !Holds(task', lock))
  {
    StepTakes(s, s.tasks[t], lock);
  }

  lemma StepKeepsExclusion(s: State, t: TaskId)
    requires Exclusion(s) && KindsMatch(s) && CanStep(s, t)
    ensures Exclusion(Step(s, t))
  {
    var s' := Step(s, t);
    StepTouches(s, t);
    forall lock, u | u in s.tasks && u != t
      ensures HoldsExclusive(s'.tasks[t], lock) ==> !Holds(s'.tasks[u], lock)
      ensures HoldsExclusive(s'.tasks[u], lock) ==> !Holds(s'.tasks[t], lock)
    {
      StepperExcludes(s, t, lock, u);
    }
    forall lock, u | u in s'.tasks && u !in s.tasks
      ensures !Holds(s'.tasks[u], lock)
    {
    }
  }

  // ---- tables ----

  /** A task keeps to its own kind's program points, and passes the spawn only by spawning or giving up. */
  lemma PcKeepsKind(s: State, task: Task)
    requires !AtRest(task)
    ensures ReaderPc(NextPc(s, task)) <==> ReaderPc(task.pc)
    ensures !ReaderPc(task.pc) && !PastSpawn(NextPc(s, task)) ==> !PastSpawn(task.pc) && !SpawnsReader(s, task)
  {
  }

  lemma StepKeepsKinds(s: State, t: TaskId)
    requires KindsMatch(s) && CanStep(s, t)
    ensures KindsMatch(Step(s, t))
  {
    StepTouches(s, t);
    PcKeepsKind(s, s.tasks[t]);
  }

  /** The tables only grow. */
  ghost predicate TablesGrow(s: State, s': State) {
    && s.writerDb <= s'.writerDb
    && forall g <- s.sndDb :: g in s'.sndDb && s.sndDb[g].Keys <= s'.sndDb[g].Keys
  }

  lemma RegisteredFrame(s: State, s': State, task: Task)
    requires TablesGrow(s, s') && TaskRegistered(s, task)
    ensures TaskRegistered(s', task)
  {
  }

  lemma StepGrowsTables(s: State, t: TaskId)
    requires CanStep(s, t)
    ensures TablesGrow(s, Step(s, t))
  {
    var s' := Step(s, t);
    assert forall g <- s.sndDb ::
            s'.sndDb[g].Keys == s.sndDb[g].Keys || s'.sndDb[g].Keys == s.sndDb[g].Keys + {s.tasks[t].who.sender};
  }

  /** The stepping task's own obligations, program point by program point. */
  lemma StepperRegistered(s: State, t: TaskId)
    requires CanStep(s, t) && TaskRegistered(s, s.tasks[t])
    requires forall w <- s.writerDb :: w.group in s.sndDb && w.sender in s.sndDb[w.group]
    ensures var task := s.tasks[t];
            && TaskRegistered(Step(s, t), task.(pc := NextPc(s, task)))
            && (SpawnsReader(s, task) || task.pc.InsertWriter? ==> task.who.group in s.sndDb)
            && (task.pc.InsertWriter? ==> task.who.sender in s.sndDb[task.who.group])
  {
  }

  lemma StepKeepsRegistered(s: State, t: TaskId)
    requires Registered(s) && KindsMatch(s) && CanStep(s, t)
    ensures Registered(Step(s, t))
  {
    var s' := Step(s, t);
    StepTouches(s, t);
    StepGrowsTables(s, t);
    StepperRegistered(s, t);
    forall u | u in s.tasks && u != t
      ensures TaskRegistered(s', s'.tasks[u])
    {
      RegisteredFrame(s, s', s.tasks[u]);
    }
  }

  // ---- whole steps and runs ----

  lemma StepKeepsSafe(s: State, t: TaskId)
    requires Safe(s) && CanStep(s, t)
    ensures Safe(Step(s, t))
  {
    StepKeepsQueues(s, t);
    StepKeepsExclusion(s, t);
    StepKeepsKinds(s, t);
    StepKeepsRegistered(s, t);
  }

  lemma ArrivalKeepsSafe(s: State, n: nat, who: Handshake)
    requires Safe(s) && Enabled(s, Arrive(n, who))
    ensures Safe(Next(s, Arrive(n, who)))
  {
    var s' := Next(s, Arrive(n, who));
    QueuesFrame(s, s');
    assert forall lock :: !Holds(s'.tasks[Conn(n)], lock);
    forall u | u in s.tasks
      ensures TaskRegistered(s', s'.tasks[u])
    {
      RegisteredFrame(s, s', s.tasks[u]);
    }
  }

  /** Waking a reader changes neither what it waits for nor what it holds. */
  lemma WakeChangesNoLock(task: Task, lock: Lock)
    ensures Wants(Wake(task)) == Wants(task)
    ensures Holds(Wake(task), lock) == Holds(task, lock)
    ensures HoldsExclusive(Wake(task), lock) == HoldsExclusive(task, lock)
    ensures ReaderPc(Wake(task).pc) == ReaderPc(task.pc) && PastSpawn(Wake(task).pc) == PastSpawn(task.pc)
  {
  }

  lemma EndPhaseKeepsSafe(s: State)
    requires Safe(s) && !s.phaseOver
    ensures Safe(Next(s, EndPhase))
  {
    var s' := Next(s, EndPhase);
    WakeKeepsQueues(s, s');
    WakeKeepsExclusion(s, s');
    WakeKeepsKinds(s, s');
    WakeKeepsRegistered(s, s');
  }

  lemma WakeKeepsQueues(s: State, s': State)
    requires QueuesExact(s) && s' == s.(tasks := map u <- s.tasks :: Wake(s.tasks[u]), phaseOver := true)
    ensures QueuesExact(s')
  {
    forall u | u in s.tasks
      ensures Wants(s'.tasks[u]) == Wants(s.tasks[u])
    {
      WakeChangesNoLock(s.tasks[u], WriterDb);
    }
    QueuesFrame(s, s');
  }

  lemma WakeKeepsExclusion(s: State, s': State)
    requires Exclusion(s) && s' == s.(tasks := map u <- s.tasks :: Wake(s.tasks[u]), phaseOver := true)
    ensures Exclusion(s')
  {
    forall u, lock | u in s.tasks
      ensures Holds(s'.tasks[u], lock) == Holds(s.tasks[u], lock)
      ensures HoldsExclusive(s'.tasks[u], lock) == HoldsExclusive(s.tasks[u], lock)
    {
      WakeChangesNoLock(s.tasks[u], lock);
    }
    ExclusionFrame(s, s');
  }

  lemma WakeKeepsKinds(s: State, s': State)
    requires KindsMatch(s) && s' == s.(tasks := map u <- s.tasks :: Wake(s.tasks[u]), phaseOver := true)
    ensures KindsMatch(s')
  {
    forall u | u in s.tasks
      ensures ReaderPc(s'.tasks[u].pc) == ReaderPc(s.tasks[u].pc)
      ensures PastSpawn(s'.tasks[u].pc) == PastSpawn(s.tasks[u].pc)
    {
      WakeChangesNoLock(s.tasks[u], WriterDb);
    }
  }

  lemma WakeKeepsRegistered(s: State, s': State)
    requires Registered(s) && s' == s.(tasks := map u <- s.tasks :: Wake(s.tasks[u]), phaseOver := true)
    ensures Registered(s')
  {
    forall u | u in s.tasks
      ensures TaskRegistered(s', s'.tasks[u])
    {
      RegisteredFrame(s, s', s.tasks[u]);
    }
  }

  lemma CancelKeepsSafe(s: State, t: TaskId)
    requires Safe(s) && Enabled(s, Cancel(t))
    ensures Safe(Next(s, Cancel(t)))
  {
    var s' := Next(s, Cancel(t));
    QueuesAfterCancel(s, t);
    assert forall lock :: !Holds(s'.tasks[t], lock);
    forall u | u in s.tasks
      ensures TaskRegistered(s', s'.tasks[u])
    {
      RegisteredFrame(s, s', s.tasks[u]);
    }
  }

  lemma NextKeepsSafe(s: State, a: Action)
    requires Safe(s) && Enabled(s, a)
    ensures Safe(Next(s, a))
  {
    match a
    case Arrive(n, who) => ArrivalKeepsSafe(s, n, who);
    case EndPhase => EndPhaseKeepsSafe(s);
    case StepOf(t) => StepKeepsSafe(s, t);
    case Cancel(t) => CancelKeepsSafe(s, t);
  }

  lemma {:induction false} RunKeepsSafe(s: State, actions: seq<Action>, s': State)
    requires Safe(s) && Runs(s, actions, s')
    ensures Safe(s')
    decreases |actions|
  {
    if actions != [] {
      NextKeepsSafe(s, actions[0]);
      RunKeepsSafe(Next(s, actions[0]), actions[1..], s');
    }
  }

  /**
    In every reachable state: queues are exact, write locks exclude, everyone in the writer table
    is in its group's table, and no task has failed on the unchecked index of a reconnect.
  */
  lemma ReachableIsSafe(s: State)
    requires Reachable(s)
    ensures Safe(s)
  {
    var actions :| Runs(Initial, actions, s);
    RunKeepsSafe(Initial, actions, s);
  }
}
