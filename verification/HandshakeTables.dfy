/**
  When the relay's group tables stop changing, and what the readers that copy them see.
*/
module HandshakeTables {
  import opened HandshakeModel
  import opened HandshakeSafety
  import opened HandshakeLiveness

  /** Points of a connection task from which it may still add its channel to a group's table. */
  predicate BeforeInsert(pc: Pc) {
    || pc.Start? || pc.AwaitWriterRead? || pc.LookUpWriter? || pc.Unregistered?
    || pc.AwaitGroupLookup? || pc.LookUpGroup? || pc.GroupFound? || pc.AwaitGroup? || pc.InsertChannel?
    || pc.GroupAbsent? || pc.AwaitSndWrite? || pc.CreateGroup? || pc.AwaitNewGroup? || pc.InsertFirstChannel?
  }

  /** Points reached only by tasks of the registration phase. */
  predicate RegistrationPc(pc: Pc) {
    ChannelKnown(pc) || (BeforeInsert(pc) && !pc.Start? && !pc.AwaitWriterRead? && !pc.LookUpWriter?
        && !pc.Unregistered?)
  }

  /** No task of the registration phase can still change a table, and no other task ever will. */
  ghost predicate NoneRegistering(s: State) {
    forall t <- s.tasks ::
      if s.tasks[t].registration then !BeforeInsert(s.tasks[t].pc) else !RegistrationPc(s.tasks[t].pc)
  }

  ghost predicate LateTasksReconnect(s: State) {
    forall t <- s.tasks :: !s.tasks[t].registration ==> !RegistrationPc(s.tasks[t].pc)
  }

  lemma StepperStaysOut(s: State, task: Task)
    requires !AtRest(task)
    ensures !task.registration && !RegistrationPc(task.pc) ==> !RegistrationPc(NextPc(s, task))
    ensures !BeforeInsert(task.pc) ==> !BeforeInsert(NextPc(s, task))
    ensures (if task.registration then !BeforeInsert(task.pc) else !RegistrationPc(task.pc))
            ==> !task.pc.InsertChannel? && !task.pc.CreateGroup? && !task.pc.InsertFirstChannel?
  {
  }

  lemma NextKeepsLate(s: State, a: Action)
    requires KindsMatch(s) && LateTasksReconnect(s) && Enabled(s, a)
    ensures LateTasksReconnect(Next(s, a))
  {
    if a.StepOf? { StepKeepsLate(s, a.t); }
  }

  lemma StepKeepsLate(s: State, t: TaskId)
    requires KindsMatch(s) && LateTasksReconnect(s) && CanStep(s, t)
    ensures LateTasksReconnect(Step(s, t))
  {
    StepTouches(s, t);
    StepperIsUp(s, t);
    StepperStaysOut(s, s.tasks[t]);
  }

  lemma NextKeepsTables(s: State, a: Action)
    requires KindsMatch(s) && NoneRegistering(s) && s.phaseOver && Enabled(s, a)
    ensures var s' := Next(s, a); NoneRegistering(s') && s'.phaseOver && s'.sndDb == s.sndDb
  {
    if a.StepOf? { StepKeepsTables(s, a.t); }
  }

  lemma StepKeepsTables(s: State, t: TaskId)
    requires KindsMatch(s) && NoneRegistering(s) && CanStep(s, t)
    ensures NoneRegistering(Step(s, t)) && Step(s, t).sndDb == s.sndDb
  {
    StepTouches(s, t);
    StepperIsUp(s, t);
    StepperStaysOut(s, s.tasks[t]);
  }

  /** Every table copied by a reader since `before` is the table as it was then. */
  ghost predicate CopiesOf(before: State, s: State) {
    && s.sndDb == before.sndDb
    && forall t <- s.tasks :: s.tasks[t].pc.Routing? ==>
         || s.tasks[t].pc.table == Members(before, s.tasks[t].who.group)
         || (t in before.tasks && before.tasks[t] == s.tasks[t])
  }

  lemma NextKeepsCopies(before: State, s: State, a: Action)
    requires KindsMatch(s) && CopiesOf(before, s) && Enabled(s, a) && Next(s, a).sndDb == s.sndDb
    ensures CopiesOf(before, Next(s, a))
  {
    if a.StepOf? { StepKeepsCopies(before, s, a.t); }
  }

  lemma StepKeepsCopies(before: State, s: State, t: TaskId)
    requires KindsMatch(s) && CopiesOf(before, s) && CanStep(s, t) && Step(s, t).sndDb == s.sndDb
    ensures CopiesOf(before, Step(s, t))
  {
    StepTouches(s, t);
    assert NextPc(s, s.tasks[t]).Routing? ==> s.tasks[t].pc.CloneTable?;
  }

  /**
    Once the phase is over and its tasks have made their entries, the group tables never change
    again, and every later copy of a group's table is the same one.
  */
  lemma {:induction false} TablesAreFinal(before: State, s: State, actions: seq<Action>, s': State)
    requires Safe(s) && NoneRegistering(s) && s.phaseOver && CopiesOf(before, s) && Runs(s, actions, s')
    ensures NoneRegistering(s') && CopiesOf(before, s')
    decreases |actions|
  {
    if actions != [] {
      NextKeepsSafe(s, actions[0]);
      NextKeepsTables(s, actions[0]);
      NextKeepsCopies(before, s, actions[0]);
      TablesAreFinal(before, Next(s, actions[0]), actions[1..], s');
    }
  }

  /** In every reachable state, a task that arrived after the phase never enters the registration branch. */
  lemma {:induction false} RunKeepsLate(s: State, actions: seq<Action>, s': State)
    requires Safe(s) && LateTasksReconnect(s) && Runs(s, actions, s')
    ensures LateTasksReconnect(s')
    decreases |actions|
  {
    if actions != [] {
      NextKeepsSafe(s, actions[0]);
      NextKeepsLate(s, actions[0]);
      RunKeepsLate(Next(s, actions[0]), actions[1..], s');
    }
  }

  lemma ParkedNext(s: State, a: Action, t: TaskId)
    requires KindsMatch(s) && s.phaseOver && Enabled(s, a) && t in s.tasks && s.tasks[t].pc.Parked?
    ensures var s' := Next(s, a);
            s'.phaseOver && t in s'.tasks && (s'.tasks[t].pc.Parked? || s'.tasks[t].pc.Terminated?)
  {
    if a.StepOf? { StepTouches(s, a.t); }
  }

  lemma TerminatedNext(s: State, a: Action, t: TaskId)
    requires KindsMatch(s) && Enabled(s, a) && t in s.tasks && s.tasks[t].pc.Terminated?
    ensures var s' := Next(s, a); t in s'.tasks && s'.tasks[t].pc.Terminated?
  {
    if a.StepOf? { StepTouches(s, a.t); }
  }

  /** A reader that parks after the broadcast never gets past it. */
  lemma {:induction false} LateReaderStaysParked(s: State, actions: seq<Action>, s': State, t: TaskId)
    requires Safe(s) && s.phaseOver && Runs(s, actions, s')
    requires t in s.tasks && (s.tasks[t].pc.Parked? || s.tasks[t].pc.Terminated?)
    ensures t in s'.tasks && (s'.tasks[t].pc.Parked? || s'.tasks[t].pc.Terminated?)
    decreases |actions|
  {
    if actions != [] {
      var a, mid := actions[0], Next(s, actions[0]);
      NextKeepsSafe(s, a);
      if s.tasks[t].pc.Parked? { ParkedNext(s, a, t); } else { TerminatedNext(s, a, t); }
      PhaseStaysOver(s, a);
      LateReaderStaysParked(mid, actions[1..], s', t);
    }
  }

  lemma PhaseStaysOver(s: State, a: Action)
    requires Enabled(s, a) && s.phaseOver
    ensures Next(s, a).phaseOver
  {
  }

  // ---- a registration that is still in flight when the readers are woken ----

  ghost predicate HoldsNothing(task: Task) {
    Wants(task).Free? && forall lock :: !Holds(task, lock)
  }

  /** Nobody but `t` holds or waits for a lock. */
  ghost predicate Alone(s: State, t: TaskId) {
    && t in s.tasks
    && (forall u <- s.tasks :: u != t ==> HoldsNothing(s.tasks[u]))
    && (forall lock :: Queue(s, lock) == if WaitsFor(s.tasks[t], lock) then [t] else [])
  }

  /** `t` has added, or is bound to add, its own channel to its group's table. */
  ghost predicate Inserts(s: State, t: TaskId) {
    && t in s.tasks
    && var task := s.tasks[t];
       || (task.registration && task.who !in s.writerDb && BeforeInsert(task.pc))
       || (&& (ChannelKnown(task.pc) || task.pc.Finished?)
           && (task.who.sender, t) in Members(s, task.who.group).Items
           && (PastSpawn(task.pc) ==> Reader(t.n) in s.tasks)
           && (task.pc.Finished? ==> task.who in s.writerDb))
  }

  /** `t` is of a client seen before, and has started, or is bound to start, a reader for its new socket. */
  ghost predicate Reconnects(s: State, t: TaskId) {
    && t in s.tasks && s.tasks[t].who in s.writerDb
    && var pc := s.tasks[t].pc;
       || pc.Start? || pc.AwaitWriterRead? || pc.LookUpWriter? || pc.AwaitSndRead? || pc.IndexGroup?
       || ((pc.Resend? || pc.Finished?) && Reader(t.n) in s.tasks)
  }

  ghost predicate Copies(s: State, t: TaskId, table: map<Id, TaskId>) {
    && t in s.tasks
    && var task := s.tasks[t];
       || ((task.pc.Notified? || task.pc.AwaitTable? || task.pc.CloneTable?) && Members(s, task.who.group) == table)
       || task.pc == Routing(table)
  }

  /** Between the two states only `who` was added to any table. */
  ghost predicate AddsOnly(s: State, s': State, who: Handshake) {
    && s'.writerDb <= s.writerDb + {who}
    && forall g :: Members(s', g).Keys <= Members(s, g).Keys + {who.sender}
  }

  lemma WaitedIsNotHeld(task: Task, lock: Lock)
    requires WaitsFor(task, lock)
    ensures !Holds(task, lock)
  {
  }

  lemma AloneCanStep(s: State, t: TaskId)
    requires Alone(s, t) && !AtRest(s.tasks[t])
    ensures CanStep(s, t)
  {
    var claim := Wants(s.tasks[t]);
    if claim.Claim? {
      WaitedIsNotHeld(s.tasks[t], claim.lock);
      assert Queue(s, claim.lock) == [t];
    }
  }

  lemma AloneStays(s: State, t: TaskId, s': State)
    requires KindsMatch(s) && Alone(s, t) && CanStep(s, t) && s' == Step(s, t)
    ensures Alone(s', t)
  {
    StepTouches(s, t);
    forall u | u in s'.tasks && u != t
      ensures HoldsNothing(s'.tasks[u])
    {
    }
    forall lock
      ensures Queue(s', lock) == if WaitsFor(s'.tasks[t], lock) then [t] else []
    {
      AloneQueue(s, t, lock);
    }
  }

  lemma AloneQueue(s: State, t: TaskId, lock: Lock)
    requires CanStep(s, t) && Queue(s, lock) == if WaitsFor(s.tasks[t], lock) then [t] else []
    ensures var task' := s.tasks[t].(pc := NextPc(s, s.tasks[t]));
            Queue(Step(s, t), lock) == if WaitsFor(task', lock) then [t] else []
  {
    OneWait(s, s.tasks[t]);
  }

  lemma StepperInserts(s: State, t: TaskId)
    requires KindsMatch(s) && CanStep(s, t) && Inserts(s, t)
    ensures Inserts(Step(s, t), t)
  {
    StepTouches(s, t);
    if BeforeInsert(s.tasks[t].pc) { StepToInsert(s, t, s.tasks[t]); } else { StepPastInsert(s, t, s.tasks[t]); }
  }

  lemma StepToInsert(s: State, t: TaskId, task: Task)
    requires !AtRest(task) && task.registration && task.who !in s.writerDb && BeforeInsert(task.pc)
    ensures || BeforeInsert(NextPc(s, task))
            || (&& ChannelKnown(NextPc(s, task)) && !PastSpawn(NextPc(s, task))
                && task.who.group in NextSndDb(s, t, task)
                && (task.who.sender, t) in NextSndDb(s, t, task)[task.who.group].Items)
    ensures !task.pc.InsertWriter?
  {
  }

  lemma StepPastInsert(s: State, t: TaskId, task: Task)
    requires !AtRest(task) && ChannelKnown(task.pc)
    ensures NextSndDb(s, t, task) == s.sndDb && (ChannelKnown(NextPc(s, task)) || NextPc(s, task).Finished?)
    ensures PastSpawn(NextPc(s, task)) ==> PastSpawn(task.pc) || SpawnsReader(s, task)
    ensures NextPc(s, task).Finished? ==> task.pc.InsertWriter?
  {
  }

  lemma StepperCopies(s: State, t: TaskId, table: map<Id, TaskId>)
    requires KindsMatch(s) && CanStep(s, t) && Copies(s, t, table)
    ensures Copies(Step(s, t), t, table)
  {
    StepTouches(s, t);
  }

  lemma StepperReconnects(s: State, t: TaskId)
    requires KindsMatch(s) && Registered(s) && CanStep(s, t) && Reconnects(s, t)
    ensures Reconnects(Step(s, t), t)
  {
    StepTouches(s, t);
    assert s.tasks[t].who.group in s.sndDb;
  }

  lemma StepAddsOnly(s: State, t: TaskId)
    requires CanStep(s, t)
    ensures AddsOnly(s, Step(s, t), s.tasks[t].who)
  {
  }

  lemma RunsThen(s: State, actions: seq<Action>, s': State, a: Action)
    requires Runs(s, actions, s') && Enabled(s', a)
    ensures Runs(s, actions + [a], Next(s', a))
    decreases |actions|
  {
    if actions == [] {
      assert Runs(Next(s, a), [], Next(s, a)) && [a][1..] == [];
    } else {
      RunsThen(Next(s, actions[0]), actions[1..], s', a);
      assert (actions + [a])[1..] == actions[1..] + [a];
    }
  }

  lemma ReachableThen(s: State, a: Action)
    requires Reachable(s) && Enabled(s, a)
    ensures Reachable(Next(s, a)) && Safe(Next(s, a))
  {
    var actions :| Runs(Initial, actions, s);
    RunsThen(Initial, actions, s, a);
    ReachableIsSafe(Next(s, a));
  }

  /** What a task's own steps do: the other tasks stay as they were, and it keeps to its course. */
  ghost predicate Went(s: State, s': State, t: TaskId, table: map<Id, TaskId>) {
    && t in s.tasks && t in s'.tasks && s'.phaseOver == s.phaseOver && s'.tasks[t].who == s.tasks[t].who
    && (forall u <- s.tasks :: u in s'.tasks && (u != t ==> s'.tasks[u] == s.tasks[u]))
    && (forall u <- s'.tasks :: u in s.tasks || u == t ||
          (t.Conn? && u == Reader(t.n) && s'.tasks[u] == Task(s.tasks[t].who, s.tasks[t].registration, Spawned)))
    && s'.tasks[t].registration == s.tasks[t].registration
    && AddsOnly(s, s', s.tasks[t].who)
    && (Inserts(s, t) ==> Inserts(s', t))
    && (Copies(s, t, table) ==> Copies(s', t, table))
    && (Reconnects(s, t) ==> Reconnects(s', t))
  }

  lemma StepGoes(s: State, t: TaskId, table: map<Id, TaskId>)
    requires KindsMatch(s) && Registered(s) && CanStep(s, t)
    ensures Went(s, Step(s, t), t, table)
  {
    StepTouches(s, t);
    StepAddsOnly(s, t);
    if Inserts(s, t) { StepperInserts(s, t); }
    if Copies(s, t, table) { StepperCopies(s, t, table); }
    if Reconnects(s, t) { StepperReconnects(s, t); }
  }

  lemma GoesOn(s: State, mid: State, s': State, t: TaskId, table: map<Id, TaskId>)
    requires Went(s, mid, t, table) && Went(mid, s', t, table)
    ensures Went(s, s', t, table)
  {
  }

  /** A task with nobody in its way runs to rest. */
  lemma {:induction false} RunAlone(s: State, t: TaskId, table: map<Id, TaskId>) returns (s': State)
    requires Reachable(s) && Safe(s) && Alone(s, t)
    ensures Reachable(s') && Safe(s') && Alone(s', t) && AtRest(s'.tasks[t]) && Went(s, s', t, table)
    decreases Remaining(s.tasks[t])
  {
    if AtRest(s.tasks[t]) {
      s' := s;
    } else {
      AloneCanStep(s, t);
      AloneStays(s, t, Step(s, t));
      StepTouches(s, t);
      StepLowersRemaining(s, s.tasks[t]);
      ReachableThen(s, StepOf(t));
      StepGoes(s, t, table);
      s' := RunAlone(Step(s, t), t, table);
      GoesOn(s, Step(s, t), s', t, table);
    }
  }

  const Alice := Handshake("alice", "g")
  const Bob := Handshake("bob", "g")

  /** No task holds or waits for any lock. */
  ghost predicate Calm(s: State) {
    && (forall u <- s.tasks :: HoldsNothing(s.tasks[u]))
    && (forall lock :: Queue(s, lock) == [])
  }

  lemma CalmIffAlone(s: State, t: TaskId)
    requires t in s.tasks && HoldsNothing(s.tasks[t])
    ensures Calm(s) <==> Alone(s, t)
  {
  }

  lemma ArriveCalmly(s: State, n: nat, who: Handshake)
    requires Calm(s) && Enabled(s, Arrive(n, who))
    ensures Calm(Next(s, Arrive(n, who)))
  {
    var s' := Next(s, Arrive(n, who));
    forall lock
      ensures Queue(s', lock) == []
    {
      assert Queue(s, lock) == [];
    }
  }

  lemma WakeHoldsNothing(task: Task)
    ensures HoldsNothing(task) ==> HoldsNothing(Wake(task))
  {
  }

  lemma EndCalmly(s: State)
    requires Calm(s) && !s.phaseOver
    ensures Calm(Next(s, EndPhase))
  {
    var s' := Next(s, EndPhase);
    forall lock
      ensures Queue(s', lock) == []
    {
      assert Queue(s, lock) == [];
    }
    forall u | u in s'.tasks
      ensures HoldsNothing(s'.tasks[u])
    {
      WakeHoldsNothing(s.tasks[u]);
    }
  }

  /** A task at rest holds nothing. */
  lemma RestHoldsNothing(task: Task)
    requires AtRest(task)
    ensures HoldsNothing(task)
  {
  }

  lemma RunAloneCalmly(s: State, t: TaskId, table: map<Id, TaskId>) returns (s': State)
    requires Reachable(s) && Calm(s) && t in s.tasks
    ensures Reachable(s') && Calm(s') && Went(s, s', t, table) && AtRest(s'.tasks[t])
  {
    CalmIffAlone(s, t);
    ReachableIsSafe(s);
    s' := RunAlone(s, t, table);
    RestHoldsNothing(s'.tasks[t]);
    CalmIffAlone(s', t);
  }

  lemma AliceArrives() returns (s: State)
    ensures Reachable(s) && Calm(s) && s == State(map[Conn(0) := Task(Alice, true, Start)], map[], {}, map[], false)
  {
    var none: seq<Action> := [];
    assert Runs(Initial, none, Initial);
    ArriveCalmly(Initial, 0, Alice);
    ReachableThen(Initial, Arrive(0, Alice));
    s := Next(Initial, Arrive(0, Alice));
  }

  /** Alice registers. */
  lemma AliceRegisters() returns (s: State)
    ensures Reachable(s) && Calm(s) && !s.phaseOver && s.tasks.Keys == {Conn(0), Reader(0)}
    ensures s.tasks[Conn(0)].who == Alice && s.tasks[Conn(0)].pc.Finished?
    ensures s.tasks[Reader(0)].who == Alice && s.tasks[Reader(0)].pc.Spawned?
    ensures Alice in s.writerDb && Alice.group in s.sndDb && Bob !in s.writerDb && Bob.sender !in Members(s, Bob.group)
  {
    var arrived := AliceArrives();
    s := RunAloneCalmly(arrived, Conn(0), map[]);
    RegisteredHasReader(s, Conn(0));
  }

  lemma RegisteredHasReader(s: State, t: TaskId)
    requires Inserts(s, t) && AtRest(s.tasks[t])
    ensures Reader(t.n) in s.tasks && s.tasks[t].pc.Finished? && s.tasks[t].who in s.writerDb
            && s.tasks[t].who.group in s.sndDb
  {
  }

  lemma ParkStep(s: State, t: TaskId)
    requires KindsMatch(s) && t in s.tasks && s.tasks[t].pc.Spawned?
    ensures CanStep(s, t) && Step(s, t) == s.(tasks := s.tasks[t := s.tasks[t].(pc := Parked)])
  {
    StepTouches(s, t);
  }

  lemma ParkReader(s: State, t: TaskId)
    requires Reachable(s) && Calm(s) && t in s.tasks && s.tasks[t].pc.Spawned?
    ensures CanStep(s, t) && Reachable(Step(s, t)) && Calm(Step(s, t))
    ensures Step(s, t) == s.(tasks := s.tasks[t := s.tasks[t].(pc := Parked)])
  {
    ReachableIsSafe(s);
    ParkStep(s, t);
    ReachableThen(s, StepOf(t));
    ParkCalmly(s, t, Step(s, t));
  }

  lemma ParkCalmly(s: State, t: TaskId, s': State)
    requires Calm(s) && t in s.tasks && s' == s.(tasks := s.tasks[t := s.tasks[t].(pc := Parked)])
    ensures Calm(s')
  {
    forall lock
      ensures Queue(s', lock) == []
    {
      assert Queue(s, lock) == [];
    }
  }

  /** Her reader parks, and Bob connects. */
  lemma BobArrives() returns (s: State)
    ensures Reachable(s) && Calm(s) && !s.phaseOver && s.tasks.Keys == {Conn(0), Reader(0), Conn(1)}
    ensures s.tasks[Reader(0)].who == Alice && s.tasks[Reader(0)].pc.Parked?
            && s.tasks[Conn(1)] == Task(Bob, true, Start)
    ensures s.tasks[Conn(0)].pc.Finished?
    ensures Bob.group in s.sndDb && Bob !in s.writerDb && Bob.sender !in Members(s, Bob.group)
  {
    var alice := AliceRegisters();
    ParkReader(alice, Reader(0));
    var parked := Step(alice, Reader(0));
    ArriveCalmly(parked, 1, Bob);
    ReachableThen(parked, Arrive(1, Bob));
    s := Next(parked, Arrive(1, Bob));
  }

  /** The phase ends while he is still registering. */
  lemma BroadcastWhileBobRegisters() returns (s: State)
    ensures Reachable(s) && s.phaseOver && Calm(s) && Reader(0) in s.tasks && Conn(1) in s.tasks
    ensures s.tasks[Reader(0)].who == Alice && s.tasks[Reader(0)].pc.Notified?
            && s.tasks[Conn(1)] == Task(Bob, true, Start)
    ensures Bob !in s.writerDb && Bob.sender !in Members(s, Bob.group)
  {
    var both := BobArrives();
    EndCalmly(both);
    ReachableThen(both, EndPhase);
    s := Next(both, EndPhase);
  }

  lemma CopyAtRest(s: State, t: TaskId, table: map<Id, TaskId>)
    requires Copies(s, t, table) && AtRest(s.tasks[t])
    ensures s.tasks[t].pc == Routing(table)
  {
  }

  lemma InsertAtRest(s: State, t: TaskId)
    requires Inserts(s, t) && AtRest(s.tasks[t])
    ensures s.tasks[t].who.sender in Members(s, s.tasks[t].who.group)
  {
  }

  /** Alice's reader copies the table before Bob's entry is made. */
  lemma AliceCopies() returns (s: State, table: map<Id, TaskId>)
    ensures Reachable(s) && Calm(s) && Reader(0) in s.tasks && Conn(1) in s.tasks && Inserts(s, Conn(1))
    ensures s.tasks[Reader(0)].who == Alice && s.tasks[Reader(0)].pc == Routing(table)
    ensures s.tasks[Conn(1)].who == Bob && Bob.sender !in table
  {
    var woken := BroadcastWhileBobRegisters();
    table := Members(woken, Bob.group);
    s := RunAloneCalmly(woken, Reader(0), table);
    CopyAtRest(s, Reader(0), table);
  }

  /**
    Waking the readers does not wait for registrations that are still running: a reachable state
    has a reader whose copy of the table lacks a member that the table holds.
  */
  lemma CopyCanMissMember()
    ensures exists s, t, member ::
              && Reachable(s) && t in s.tasks && s.tasks[t].pc.Routing?
              && member in Members(s, s.tasks[t].who.group) && member !in s.tasks[t].pc.table
  {
    var copied, table := AliceCopies();
    var s := RunAloneCalmly(copied, Conn(1), table);
    InsertAtRest(s, Conn(1));
    assert s.tasks[Reader(0)] == copied.tasks[Reader(0)];
    assert Bob.sender in Members(s, s.tasks[Reader(0)].who.group) && Bob.sender !in s.tasks[Reader(0)].pc.table;
  }
}
