/**
  Which readers are woken by the end of the registration phase, and exactly when one of them can
  end up with a copy of its group's table that is not the table.
*/
module HandshakeCopies {
  import opened HandshakeModel
  import opened Sequences
  import opened HandshakeSafety
  import opened HandshakeLiveness
  import opened HandshakeRuns
  import opened HandshakeTables

  // ---- which readers are woken ----

  /** Points of a reader past its wait for the end of the phase. */
  predicate Woken(pc: Pc) {
    pc.Notified? || pc.AwaitTable? || pc.CloneTable? || pc.Routing?
  }

  ghost predicate NoneWokenYet(s: State) {
    !s.phaseOver ==> forall t <- s.tasks :: !Woken(s.tasks[t].pc)
  }

  lemma StepWakesNobody(s: State, task: Task)
    requires !AtRest(task) && !Woken(task.pc)
    ensures !Woken(NextPc(s, task))
  {
  }

  lemma NextKeepsNoneWoken(s: State, a: Action)
    requires KindsMatch(s) && NoneWokenYet(s) && Enabled(s, a)
    ensures NoneWokenYet(Next(s, a))
  {
    if a.StepOf? && !s.phaseOver {
      StepTouches(s, a.t);
      StepperIsUp(s, a.t);
      StepWakesNobody(s, s.tasks[a.t]);
    }
  }

  /** Whoever is past the wait was parked in `before`, and is the reader of the same client. */
  ghost predicate WokenIn(before: State, s: State) {
    forall t <- s.tasks :: Woken(s.tasks[t].pc) ==>
      t in before.tasks && before.tasks[t].pc.Parked? && before.tasks[t].who == s.tasks[t].who
  }

  lemma BroadcastWakes(s: State)
    requires NoneWokenYet(s) && !s.phaseOver
    ensures WokenIn(s, Next(s, EndPhase))
    ensures forall t <- Next(s, EndPhase).tasks :: Woken(Next(s, EndPhase).tasks[t].pc) ==>
            Next(s, EndPhase).tasks[t].pc.Notified?
  {
  }

  lemma NextKeepsWoken(before: State, s: State, a: Action)
    requires KindsMatch(s) && s.phaseOver && WokenIn(before, s) && Enabled(s, a)
    ensures WokenIn(before, Next(s, a))
  {
    if a.StepOf? {
      StepTouches(s, a.t);
      StepperIsUp(s, a.t);
      if !Woken(s.tasks[a.t].pc) { StepWakesNobody(s, s.tasks[a.t]); }
    }
  }

  // ---- what holds in every reachable state ----

  /** Every entry of a table was made by a task that is past its insertion. */
  ghost predicate EntriesMade(s: State) {
    forall g, k | k in Members(s, g) ::
      Members(s, g)[k] in s.tasks && Members(s, g)[k].Conn? && !BeforeInsert(s.tasks[Members(s, g)[k]].pc)
  }

  ghost predicate Grounded(s: State) {
    Safe(s) && NoneWokenYet(s) && EntriesMade(s) && LateTasksReconnect(s)
  }

  /** The tables of a step: those before, or one more entry, by the stepping task as it inserts. */
  lemma StepMembers(s: State, t: TaskId, g: Id)
    requires CanStep(s, t)
    ensures var task := s.tasks[t];
            Members(Step(s, t), g) ==
              if g == task.who.group && (task.pc.InsertChannel? || task.pc.InsertFirstChannel?)
              then Members(s, g)[task.who.sender := t] else Members(s, g)
  {
  }

  lemma InsertIsPast(s: State, task: Task)
    requires !AtRest(task)
    ensures task.pc.InsertChannel? || task.pc.InsertFirstChannel? ==>
              !BeforeInsert(NextPc(s, task)) && !ReaderPc(task.pc)
    ensures !BeforeInsert(task.pc) ==> !BeforeInsert(NextPc(s, task))
  {
  }

  lemma StepKeepsEntries(s: State, t: TaskId)
    requires KindsMatch(s) && EntriesMade(s) && CanStep(s, t)
    ensures EntriesMade(Step(s, t))
  {
    var s' := Step(s, t);
    StepTouches(s, t);
    StepperIsUp(s, t);
    InsertIsPast(s, s.tasks[t]);
    forall g, k | k in Members(s', g)
      ensures Members(s', g)[k] in s'.tasks && Members(s', g)[k].Conn? && !BeforeInsert(s'.tasks[Members(s', g)[k]].pc)
    {
      StepMembers(s, t, g);
      assert Members(s', g)[k] != t ==> k in Members(s, g) && Members(s, g)[k] == Members(s', g)[k];
    }
  }

  lemma OtherKeepsEntries(s: State, a: Action)
    requires EntriesMade(s) && Enabled(s, a) && !a.StepOf?
    ensures EntriesMade(Next(s, a))
  {
    var s' := Next(s, a);
    forall g, k | k in Members(s', g)
      ensures Members(s', g)[k] in s'.tasks && Members(s', g)[k].Conn? && !BeforeInsert(s'.tasks[Members(s', g)[k]].pc)
    {
      assert k in Members(s, g) && Members(s', g) == Members(s, g);
    }
  }

  lemma NextKeepsGrounded(s: State, a: Action)
    requires Grounded(s) && Enabled(s, a)
    ensures Grounded(Next(s, a))
  {
    NextKeepsSafe(s, a);
    NextKeepsNoneWoken(s, a);
    NextKeepsLate(s, a);
    if a.StepOf? { StepKeepsEntries(s, a.t); } else { OtherKeepsEntries(s, a); }
  }

  lemma {:induction false} RunKeepsGrounded(s: State, actions: seq<Action>, s': State)
    requires Grounded(s) && Runs(s, actions, s')
    ensures Grounded(s')
    decreases |actions|
  {
    if actions != [] {
      NextKeepsGrounded(s, actions[0]);
      RunKeepsGrounded(Next(s, actions[0]), actions[1..], s');
    }
  }

  lemma ReachableIsGrounded(s: State)
    requires Reachable(s)
    ensures Grounded(s)
  {
    var actions :| Runs(Initial, actions, s);
    RunKeepsGrounded(Initial, actions, s);
  }

  // ---- no copy differs ----

  /** Points at which a registration has asked for its group's lock, or has it, and not yet inserted. */
  predicate Asked(pc: Pc) {
    pc.AwaitGroup? || pc.InsertChannel? || pc.AwaitNewGroup? || pc.InsertFirstChannel?
  }

  predicate Early(pc: Pc) {
    pc.Start? || pc.AwaitWriterRead? || pc.LookUpWriter?
  }

  /** A registration that has not made its entry, and will: it has looked itself up in vain, or would now. */
  predicate Bound(s: State, task: Task) {
    task.registration && BeforeInsert(task.pc) && (Early(task.pc) ==> task.who !in s.writerDb)
  }

  /** It has not even asked for its group's lock. */
  predicate Lagging(s: State, task: Task) {
    Bound(s, task) && !Asked(task.pc)
  }

  /**
    The entry of `u` in the writer table comes before `t` can look its client up there: `u` has the
    lock for it, or is ahead in the queue. A task that is not queued counts as behind all that are.
  */
  ghost predicate Overtakes(s: State, u: TaskId, t: TaskId)
    requires t in s.tasks
  {
    && u in s.tasks && s.tasks[u].who == s.tasks[t].who
    && (|| s.tasks[u].pc.InsertWriter?
        || (s.tasks[u].pc.AwaitWriterWrite? && Index(Queue(s, WriterDb), u) < Index(Queue(s, WriterDb), t)))
  }

  /** A registration that will find its client in the writer table, and will not insert. */
  ghost predicate Overtaken(s: State, t: TaskId)
    requires t in s.tasks
  {
    && (s.tasks[t].pc.Start? || s.tasks[t].pc.AwaitWriterRead?)
    && exists u :: Overtakes(s, u, t)
  }

  /** Nobody will ask for the lock of group `g` in order to insert. */
  ghost predicate NoneRacing(s: State, g: Id) {
    forall t <- s.tasks :: s.tasks[t].who.group == g ==>
      && (Lagging(s, s.tasks[t]) ==> Overtaken(s, t))
      && (s.tasks[t].registration || !RegistrationPc(s.tasks[t].pc))
  }

  predicate WaitingReader(s: State, t: TaskId) {
    t in s.tasks && s.tasks[t].pc.AwaitTable?
  }

  /** Behind a waiting reader, only readers wait. */
  ghost predicate OnlyReadersBehind(s: State, q: seq<TaskId>) {
    forall i, j | 0 <= i <= j < |q| :: WaitingReader(s, q[i]) ==> WaitingReader(s, q[j])
  }

  ghost predicate ReadersLast(s: State, g: Id) {
    OnlyReadersBehind(s, Queue(s, GroupSnds(g)))
  }

  ghost predicate NoneAsked(s: State, g: Id) {
    forall t <- s.tasks :: s.tasks[t].who.group == g ==> !Asked(s.tasks[t].pc)
  }

  /** Once a reader of group `g` has got the lock, the table is final, and the copies are it. */
  ghost predicate CopiesExact(s: State, g: Id) {
    forall r <- s.tasks :: s.tasks[r].who.group == g && (s.tasks[r].pc.CloneTable? || s.tasks[r].pc.Routing?) ==>
      NoneAsked(s, g) && (s.tasks[r].pc.Routing? ==> s.tasks[r].pc.table == Members(s, g))
  }

  ghost predicate Settled(s: State, g: Id) {
    s.phaseOver && NoneRacing(s, g) && ReadersLast(s, g) && CopiesExact(s, g)
  }

  /** A task that lags not does not come to lag; it asks for the lock only by lagging before. */
  lemma StepAsks(s: State, s': State, task: Task)
    requires !AtRest(task) && s.writerDb <= s'.writerDb
    requires Lagging(s, task) ==> task.pc.Start? || task.pc.AwaitWriterRead?
    requires task.registration || !RegistrationPc(task.pc)
    ensures var task' := task.(pc := NextPc(s, task));
            && (!Lagging(s, task) ==> !Lagging(s', task')) && (task.registration || !RegistrationPc(task'.pc))
            && (Asked(task'.pc) ==> Asked(task.pc))
  {
  }

  lemma StepGrowsWriters(s: State, t: TaskId)
    requires CanStep(s, t)
    ensures s.writerDb <= Step(s, t).writerDb
  {
  }

  lemma {:induction false} IndexGrows(q: seq<TaskId>, t: TaskId, x: TaskId)
    ensures Index(q, t) <= |q| && (t in q <==> Index(q, t) < |q|)
    ensures Index(q + [x], t) == if t in q || x == t then Index(q, t) else |q| + 1
  {
    if q == [] {
      assert q + [x] == [x] && [x][1..] == [];
    } else {
      assert (q + [x])[1..] == q[1..] + [x] && q == [q[0]] + q[1..];
      IndexGrows(q[1..], t, x);
    }
  }

  /** Who is ahead in a queue stays ahead, as long as neither is at its front and taken. */
  lemma AheadStays(s: State, a: Action, u: TaskId, t: TaskId)
    requires Enabled(s, a) && !a.Cancel? && a != StepOf(u) && a != StepOf(t)
    requires Index(Queue(s, WriterDb), u) < Index(Queue(s, WriterDb), t)
    ensures Index(Queue(Next(s, a), WriterDb), u) < Index(Queue(Next(s, a), WriterDb), t)
  {
    var q := Queue(s, WriterDb);
    QueueShape(s, a, WriterDb);
    if a.StepOf? {
      IndexGrows(q, u, a.t);
      IndexGrows(q, t, a.t);
    }
  }

  /** An overtaken task can at most join the queue. */
  lemma OvertakenWaits(s: State, t: TaskId, u: TaskId)
    requires QueuesExact(s) && KindsMatch(s) && CanStep(s, t) && Overtakes(s, u, t)
    requires s.tasks[t].pc.Start? || s.tasks[t].pc.AwaitWriterRead?
    ensures s.tasks[t].pc.Start? && Step(s, t).tasks[t].pc.AwaitWriterRead? && Overtakes(Step(s, t), u, t)
  {
    var q := Queue(s, WriterDb);
    assert s.tasks[u].pc.InsertWriter? ==> HoldsExclusive(s.tasks[u], WriterDb);
    assert s.tasks[t].pc.Start?;
    StepTouches(s, t);
    IndexGrows(q, u, t);
    IndexGrows(q, t, t);
  }

  /** The one that overtakes gets the lock, and then makes its entry. */
  lemma OvertakerSteps(s: State, u: TaskId, t: TaskId)
    requires KindsMatch(s) && CanStep(s, u) && t in s.tasks && u != t && Overtakes(s, u, t)
    ensures t in Step(s, u).tasks && (Overtakes(Step(s, u), u, t) || s.tasks[t].who in Step(s, u).writerDb)
  {
    StepTouches(s, u);
  }

  lemma OthersStep(s: State, h: TaskId, u: TaskId, t: TaskId)
    requires KindsMatch(s) && CanStep(s, h) && t in s.tasks && h != u && h != t && Overtakes(s, u, t)
    ensures t in Step(s, h).tasks && Overtakes(Step(s, h), u, t)
  {
    StepTouches(s, h);
    if s.tasks[u].pc.AwaitWriterWrite? { AheadStays(s, StepOf(h), u, t); }
  }

  lemma EarlyStays(s: State, h: TaskId, t: TaskId)
    requires KindsMatch(s) && CanStep(s, h) && t in s.tasks && h != t
    ensures t in Step(s, h).tasks && Step(s, h).tasks[t] == s.tasks[t]
  {
    StepTouches(s, h);
  }

  /** Whoever steps, an overtaken task stays overtaken, until its client is in the writer table. */
  lemma OvertakenStays(s: State, h: TaskId, t: TaskId)
    requires QueuesExact(s) && KindsMatch(s) && CanStep(s, h) && t in s.tasks && Overtaken(s, t)
    ensures t in Step(s, h).tasks && (Lagging(Step(s, h), Step(s, h).tasks[t]) ==> Overtaken(Step(s, h), t))
  {
    var u :| Overtakes(s, u, t);
    if h == t {
      OvertakenWaits(s, t, u);
    } else {
      EarlyStays(s, h, t);
      if h == u { OvertakerSteps(s, u, t); } else { OthersStep(s, h, u, t); }
    }
  }

  /** The overtaken tasks are at their first two points. */
  lemma RacingPoints(s: State, t: TaskId, g: Id)
    requires NoneRacing(s, g) && t in s.tasks && s.tasks[t].who.group == g
    ensures Lagging(s, s.tasks[t]) ==> s.tasks[t].pc.Start? || s.tasks[t].pc.AwaitWriterRead?
    ensures s.tasks[t].registration || !RegistrationPc(s.tasks[t].pc)
  {
  }

  lemma StepKeepsNoneRacing(s: State, t: TaskId, g: Id)
    requires QueuesExact(s) && KindsMatch(s) && CanStep(s, t) && NoneRacing(s, g)
    ensures NoneRacing(Step(s, t), g)
  {
    var s' := Step(s, t);
    StepTouches(s, t);
    StepperIsUp(s, t);
    StepGrowsWriters(s, t);
    forall u | u in s'.tasks && s'.tasks[u].who.group == g
      ensures Lagging(s', s'.tasks[u]) ==> Overtaken(s', u)
      ensures s'.tasks[u].registration || !RegistrationPc(s'.tasks[u].pc)
    {
      if u in s.tasks {
        RacingPoints(s, u, g);
        if u == t { StepAsks(s, s', s.tasks[t]); }
        if Lagging(s, s.tasks[u]) { OvertakenStays(s, t, u); }
      }
    }
  }

  lemma StepKeepsNoneAsked(s: State, t: TaskId, g: Id)
    requires KindsMatch(s) && CanStep(s, t) && NoneRacing(s, g) && NoneAsked(s, g)
    ensures NoneAsked(Step(s, t), g)
  {
    StepTouches(s, t);
    StepperIsUp(s, t);
    StepGrowsWriters(s, t);
    if s.tasks[t].who.group == g {
      RacingPoints(s, t, g);
      StepAsks(s, Step(s, t), s.tasks[t]);
    }
  }

  lemma WaitsAtGroup(task: Task, g: Id)
    ensures WaitsFor(task, GroupSnds(g)) <==>
              task.who.group == g && (task.pc.AwaitGroup? || task.pc.AwaitNewGroup? || task.pc.AwaitTable?)
    ensures HoldsExclusive(task, GroupSnds(g)) <==>
              task.who.group == g && (task.pc.InsertChannel? || task.pc.InsertFirstChannel?)
  {
  }

  /** A reader that gets the lock leaves nobody behind who will insert. */
  lemma GrantMeansNoneAsked(s: State, r: TaskId, g: Id)
    requires QueuesExact(s) && ReadersLast(s, g) && CanStep(s, r) && s.tasks[r].pc.AwaitTable?
             && s.tasks[r].who.group == g
    ensures NoneAsked(s, g)
  {
    var q := Queue(s, GroupSnds(g));
    forall t | t in s.tasks && s.tasks[t].who.group == g
      ensures !Asked(s.tasks[t].pc)
    {
      WaitsAtGroup(s.tasks[t], g);
      if WaitsFor(s.tasks[t], GroupSnds(g)) {
        assert t in q;
        var j :| 0 <= j < |q| && q[j] == t;
        assert q[0] == r && WaitingReader(s, q[j]);
      }
    }
  }

  lemma SameReadersBehind(s: State, s': State, q: seq<TaskId>)
    requires OnlyReadersBehind(s, q) && forall t <- q :: WaitingReader(s', t) == WaitingReader(s, t)
    ensures OnlyReadersBehind(s', q)
  {
    assert forall i | 0 <= i < |q| :: q[i] in q;
  }

  lemma ReaderAtTheBack(s: State, q: seq<TaskId>, t: TaskId)
    requires OnlyReadersBehind(s, q) && WaitingReader(s, t)
    ensures OnlyReadersBehind(s, q + [t])
  {
  }

  lemma TailOnlyReadersBehind(s: State, q: seq<TaskId>)
    requires OnlyReadersBehind(s, q) && q != []
    ensures OnlyReadersBehind(s, q[1..])
  {
  }

  lemma {:induction false} WithoutOnlyReadersBehind(s: State, q: seq<TaskId>, t: TaskId)
    requires OnlyReadersBehind(s, q)
    ensures OnlyReadersBehind(s, Without(q, t))
    ensures forall u <- Without(q, t) :: u in q && u != t
  {
    if q != [] {
      TailOnlyReadersBehind(s, q);
      WithoutOnlyReadersBehind(s, q[1..], t);
      var r := Without(q[1..], t);
      forall j | 0 <= j < |r| && WaitingReader(s, q[0])
        ensures WaitingReader(s, r[j])
      {
        assert r[j] in q[1..];
        var k :| 0 <= k < |q[1..]| && q[1..][k] == r[j];
        assert q[k + 1] == r[j];
      }
    }
  }

  lemma StepKeepsReadersLast(s: State, t: TaskId, g: Id)
    requires QueuesExact(s) && KindsMatch(s) && CanStep(s, t) && NoneRacing(s, g) && ReadersLast(s, g)
    ensures ReadersLast(Step(s, t), g)
  {
    var lock := GroupSnds(g);
    var s', q, q' := Step(s, t), Queue(s, lock), Queue(Step(s, t), lock);
    QueueShape(s, StepOf(t), lock);
    if WaitsFor(s.tasks[t], lock) {
      assert forall u <- q[1..] :: u != t;
      TailOnlyReadersBehind(s, q);
      OthersWaitOn(s, t, q[1..]);
      SameReadersBehind(s, s', q[1..]);
    } else {
      StepperNotQueued(s, t, lock);
      OthersWaitOn(s, t, q);
      SameReadersBehind(s, s', q);
      if q' != q {
        NewWaiterIsReader(s, t, s', g);
        ReaderAtTheBack(s', q, t);
      }
    }
  }

  lemma StepperNotQueued(s: State, t: TaskId, lock: Lock)
    requires QueuesExact(s) && t in s.tasks && !WaitsFor(s.tasks[t], lock)
    ensures t !in Queue(s, lock)
  {
  }

  lemma AtWriterQueue(s: State, t: TaskId)
    requires QueuesExact(s) && t in s.tasks
    ensures s.tasks[t].pc.AwaitWriterRead? || s.tasks[t].pc.AwaitWriterWrite? ==> t in Queue(s, WriterDb)
    ensures s.tasks[t].pc.RequestWriterWrite? ==> t !in Queue(s, WriterDb)
  {
  }

  lemma OthersWaitOn(s: State, t: TaskId, q: seq<TaskId>)
    requires KindsMatch(s) && CanStep(s, t) && t !in q
    ensures forall u <- q :: WaitingReader(Step(s, t), u) == WaitingReader(s, u)
  {
    StepTouches(s, t);
  }

  lemma NewWaiterIsReader(s: State, t: TaskId, s': State, g: Id)
    requires QueuesExact(s) && KindsMatch(s) && CanStep(s, t) && s' == Step(s, t) && NoneRacing(s, g)
    requires Queue(s', GroupSnds(g)) == Queue(s, GroupSnds(g)) + [t]
    ensures WaitingReader(s', t)
  {
    StepTouches(s, t);
    StepperIsUp(s, t);
    StepGrowsWriters(s, t);
    StepKeepsQueues(s, t);
    var q' := Queue(s', GroupSnds(g));
    assert q'[|q'| - 1] == t && WaitsFor(s'.tasks[t], GroupSnds(g));
    WaitsAtGroup(s'.tasks[t], g);
    WaitsAtGroup(s.tasks[t], g);
    RacingPoints(s, t, g);
    StepAsks(s, s', s.tasks[t]);
    OneWait(s, s.tasks[t]);
  }

  lemma StepKeepsCopiesExact(s: State, t: TaskId, g: Id)
    requires QueuesExact(s) && KindsMatch(s) && CanStep(s, t) && NoneRacing(s, g) && ReadersLast(s, g)
             && CopiesExact(s, g)
    ensures CopiesExact(Step(s, t), g)
  {
    var s' := Step(s, t);
    StepTouches(s, t);
    forall r | r in s'.tasks && s'.tasks[r].who.group == g && (s'.tasks[r].pc.CloneTable? || s'.tasks[r].pc.Routing?)
      ensures NoneAsked(s', g) && (s'.tasks[r].pc.Routing? ==> s'.tasks[r].pc.table == Members(s', g))
    {
      HolderWas(s, t, r);
      if s.tasks[r].pc.AwaitTable? { GrantMeansNoneAsked(s, r, g); }
      StepKeepsNoneAsked(s, t, g);
      StepMembers(s, t, g);
    }
  }

  /** A reader with the lock, or a copy, had it before or has just been granted it. */
  lemma HolderWas(s: State, t: TaskId, r: TaskId)
    requires KindsMatch(s) && CanStep(s, t) && r in Step(s, t).tasks
    requires Step(s, t).tasks[r].pc.CloneTable? || Step(s, t).tasks[r].pc.Routing?
    ensures r in s.tasks && s.tasks[r].who == Step(s, t).tasks[r].who
    ensures if r != t then s.tasks[r] == Step(s, t).tasks[r]
            else if s.tasks[t].pc.AwaitTable? then Step(s, t).tasks[r].pc.CloneTable?
            else s.tasks[t].pc.CloneTable? && Step(s, t).tasks[r].pc == Routing(Members(s, s.tasks[t].who.group))
  {
    StepTouches(s, t);
    StepperIsUp(s, t);
  }

  lemma ArriveKeepsSettled(s: State, n: nat, who: Handshake, g: Id)
    requires Settled(s, g) && Enabled(s, Arrive(n, who))
    ensures Settled(Next(s, Arrive(n, who)), g)
  {
    var s' := Next(s, Arrive(n, who));
    assert Queue(s', GroupSnds(g)) == Queue(s, GroupSnds(g)) && Members(s', g) == Members(s, g);
    assert s'.tasks[Conn(n)] == Task(who, false, Start);
    SameReadersBehind(s, s', Queue(s, GroupSnds(g)));
    OthersStayOvertaken(s, Arrive(n, who), g);
  }

  /** Arrivals, cancellations and the broadcast have nothing to do with the writer table. */
  lemma OthersStayOvertaken(s: State, a: Action, g: Id)
    requires NoneRacing(s, g) && Enabled(s, a) && !a.StepOf?
    ensures forall t <- s.tasks :: s.tasks[t].who.group == g && Lagging(Next(s, a), Next(s, a).tasks[t]) ==>
              Overtaken(Next(s, a), t)
  {
    var s' := Next(s, a);
    assert Queue(s', WriterDb) == Queue(s, WriterDb);
    forall t | t in s.tasks && s.tasks[t].who.group == g && Lagging(s', s'.tasks[t])
      ensures Overtaken(s', t)
    {
      assert Lagging(s, s.tasks[t]);
      var u :| Overtakes(s, u, t);
      assert Overtakes(s', u, t);
    }
  }

  lemma CancelKeepsSettled(s: State, t: TaskId, g: Id)
    requires Safe(s) && Settled(s, g) && Enabled(s, Cancel(t))
    ensures Settled(Next(s, Cancel(t)), g)
  {
    var s', lock := Next(s, Cancel(t)), GroupSnds(g);
    CancelKeepsReadersLast(s, t, s', g);
    OthersStayOvertaken(s, Cancel(t), g);
    assert Members(s', g) == Members(s, g);
  }

  lemma CancelKeepsReadersLast(s: State, t: TaskId, s': State, g: Id)
    requires QueuesExact(s) && ReadersLast(s, g) && Enabled(s, Cancel(t)) && s' == Next(s, Cancel(t))
    ensures ReadersLast(s', g)
  {
    var lock := GroupSnds(g);
    var q, q' := Queue(s, lock), Queue(s', lock);
    QueueShape(s, Cancel(t), lock);
    if WaitsFor(s.tasks[t], lock) {
      WithoutOnlyReadersBehind(s, q, t);
    } else {
      StepperNotQueued(s, t, lock);
    }
    SameReadersBehind(s, s', q');
  }

  lemma StepKeepsSettled(s: State, t: TaskId, g: Id)
    requires Safe(s) && Settled(s, g) && CanStep(s, t)
    ensures Settled(Step(s, t), g)
  {
    StepKeepsNoneRacing(s, t, g);
    StepKeepsReadersLast(s, t, g);
    StepKeepsCopiesExact(s, t, g);
  }

  lemma NextKeepsSettled(s: State, a: Action, g: Id)
    requires Safe(s) && Settled(s, g) && Enabled(s, a)
    ensures Settled(Next(s, a), g)
  {
    match a
    case Arrive(n, who) => ArriveKeepsSettled(s, n, who, g);
    case EndPhase =>
    case StepOf(t) => StepKeepsSettled(s, t, g);
    case Cancel(t) => CancelKeepsSettled(s, t, g);
  }

  // ---- exactly when a copy can differ ----

  /** In some later state a reader has copied a table that is not its group's. */
  ghost predicate CopyCanDiffer(s: State) {
    exists actions, s', r :: Runs(s, actions, s') && HasWrongCopy(s', r)
  }

  ghost predicate HasWrongCopy(s: State, r: TaskId) {
    r in s.tasks && s.tasks[r].pc.Routing? && s.tasks[r].pc.table != Members(s, s.tasks[r].who.group)
  }

  /**
    A reader waits for the phase to end while a registration for its group has not asked for the
    group's lock, and no other registration of the same client gets into the writer table before it.
  */
  ghost predicate Races(s: State, r: TaskId, t: TaskId) {
    && r in s.tasks && s.tasks[r].pc.Parked?
    && t in s.tasks && Lagging(s, s.tasks[t]) && !Overtaken(s, t) && s.tasks[t].who.group == s.tasks[r].who.group
  }

  lemma {:induction false} RunKeepsCopies(before: State, s: State, actions: seq<Action>, s': State)
    requires Safe(s) && s.phaseOver && WokenIn(before, s) && Runs(s, actions, s')
    requires forall r <- before.tasks :: before.tasks[r].pc.Parked? ==> Settled(s, before.tasks[r].who.group)
    ensures WokenIn(before, s') && forall r <- before.tasks :: before.tasks[r].pc.Parked? ==>
            Settled(s', before.tasks[r].who.group)
    decreases |actions|
  {
    if actions != [] {
      var a, mid := actions[0], Next(s, actions[0]);
      NextKeepsSafe(s, a);
      NextKeepsWoken(before, s, a);
      PhaseStaysOver(s, a);
      forall r | r in before.tasks && before.tasks[r].pc.Parked?
        ensures Settled(mid, before.tasks[r].who.group)
      {
        NextKeepsSettled(s, a, before.tasks[r].who.group);
      }
      RunKeepsCopies(before, mid, actions[1..], s');
    }
  }

  lemma BroadcastSettles(s: State, g: Id)
    requires Grounded(s) && !s.phaseOver && NoneRacing(s, g)
    ensures Settled(Next(s, EndPhase), g)
  {
    BroadcastWakes(s);
    OthersStayOvertaken(s, EndPhase, g);
    BroadcastKeepsLate(s);
    assert NoneRacing(Next(s, EndPhase), g);
  }

  lemma BroadcastKeepsLate(s: State)
    requires LateTasksReconnect(s) && !s.phaseOver
    ensures LateTasksReconnect(Next(s, EndPhase))
  {
  }

  ghost predicate NoRace(s: State) {
    forall r, t :: !Races(s, r, t)
  }

  /** Without such a registration, every copy made in any run after the broadcast is its group's table. */
  lemma CopiesAgree(s: State, actions: seq<Action>, s': State, r: TaskId)
    requires Grounded(s) && !s.phaseOver && NoRace(s) && Runs(Next(s, EndPhase), actions, s')
    ensures !HasWrongCopy(s', r)
  {
    var ended := Next(s, EndPhase);
    NextKeepsSafe(s, EndPhase);
    BroadcastWakes(s);
    forall p | p in s.tasks && s.tasks[p].pc.Parked?
      ensures Settled(ended, s.tasks[p].who.group)
    {
      forall t | t in s.tasks && s.tasks[t].who.group == s.tasks[p].who.group
        ensures Lagging(s, s.tasks[t]) ==> Overtaken(s, t)
      {
        assert !Races(s, p, t);
      }
      BroadcastSettles(s, s.tasks[p].who.group);
    }
    RunKeepsCopies(s, ended, actions, s');
  }

  // ---- the reader copies first ----

  lemma RunsFirst(s: State, a: Action, actions: seq<Action>, s': State)
    requires Enabled(s, a) && Runs(Next(s, a), actions, s')
    ensures Runs(s, [a] + actions, s')
  {
    assert ([a] + actions)[1..] == actions;
  }

  lemma {:induction false} RunsOn(s: State, first: seq<Action>, mid: State, more: seq<Action>, s': State)
    requires Runs(s, first, mid) && Runs(mid, more, s')
    ensures Runs(s, first + more, s')
    decreases |first|
  {
    if first == [] {
      assert first + more == more;
    } else {
      RunsOn(Next(s, first[0]), first[1..], mid, more, s');
      assert (first + more)[1..] == first[1..] + more;
    }
  }

  /** Points at which a task is about to write to the writer table. */
  predicate AtWriters(pc: Pc) {
    pc.RequestWriterWrite? || pc.AwaitWriterWrite? || pc.InsertWriter?
  }

  /** Who has to do with the lock of a group neither lags nor writes to the writer table. */
  lemma ServerIsElsewhere(s: State, h: TaskId, lock: Lock)
    requires QueuesExact(s) && lock.GroupSnds? && Serves(s, StepOf(h), lock)
    ensures !Lagging(s, s.tasks[h]) && !AtWriters(s.tasks[h].pc)
  {
    if Holds(s.tasks[h], lock) {
      HolderIsElsewhere(s, s.tasks[h], lock);
    } else {
      assert Queue(s, lock)[0] == h && WaitsFor(s.tasks[h], lock);
      WaiterIsElsewhere(s, s.tasks[h], lock);
    }
  }

  lemma HolderIsElsewhere(s: State, task: Task, lock: Lock)
    requires lock.GroupSnds? && Holds(task, lock)
    ensures !Lagging(s, task) && !AtWriters(task.pc)
  {
  }

  lemma WaiterIsElsewhere(s: State, task: Task, lock: Lock)
    requires lock.GroupSnds? && WaitsFor(task, lock)
    ensures !Lagging(s, task) && !AtWriters(task.pc)
  {
  }

  /** The reader is on its way to its copy, which will not have the entry of `t`. */
  ghost predicate OnItsWay(s: State, r: TaskId, t: TaskId) {
    && r in s.tasks && Woken(s.tasks[r].pc)
    && t in s.tasks && Lagging(s, s.tasks[t]) && !Overtaken(s, t)
    && (s.tasks[r].pc.Routing? ==> (s.tasks[t].who.sender, t) !in s.tasks[r].pc.table.Items)
  }

  /** Nobody overtakes who did not before: a task that asks for the writer table goes to the back of its queue. */
  lemma NotOvertakenStep(s: State, h: TaskId, t: TaskId)
    requires QueuesExact(s) && KindsMatch(s) && CanStep(s, h) && t in s.tasks && !Overtaken(s, t)
    requires BeforeInsert(s.tasks[t].pc) && (h == t || !s.tasks[t].pc.Start? || !s.tasks[h].pc.RequestWriterWrite?)
    ensures t in Step(s, h).tasks && !Overtaken(Step(s, h), t)
  {
    StepKeepsEarly(s, h, t);
    if Overtaken(Step(s, h), t) {
      var u :| Overtakes(Step(s, h), u, t);
      OvertookBefore(s, h, t, u);
    }
  }

  lemma StepKeepsEarly(s: State, h: TaskId, t: TaskId)
    requires KindsMatch(s) && CanStep(s, h) && t in s.tasks
    ensures t in Step(s, h).tasks && Step(s, h).tasks[t].who == s.tasks[t].who
    ensures var pc, pc' := s.tasks[t].pc, Step(s, h).tasks[t].pc;
            pc'.Start? || pc'.AwaitWriterRead? ==> if h == t then pc.Start? && pc'.AwaitWriterRead? else pc == pc'
  {
    StepTouches(s, h);
    StepperIsUp(s, h);
  }

  lemma OvertookBefore(s: State, h: TaskId, t: TaskId, u: TaskId)
    requires QueuesExact(s) && KindsMatch(s) && CanStep(s, h) && t in s.tasks && t in Step(s, h).tasks
    requires if h == t then s.tasks[t].pc.Start?
             else s.tasks[t].pc.AwaitWriterRead? || (s.tasks[t].pc.Start? && !s.tasks[h].pc.RequestWriterWrite?)
    requires Overtakes(Step(s, h), u, t)
    ensures Overtakes(s, u, t)
  {
    WriterWas(s, h, u);
    StepKeepsEarly(s, h, t);
    if u == h {
      NewWriterIsBehind(s, h, t);
    } else if s.tasks[u].pc.AwaitWriterWrite? {
      AtWriterQueue(s, u);
      AheadBefore(s, h, t, u);
    }
  }

  /** A task about to write was one before, or has just asked to. */
  lemma WriterWas(s: State, h: TaskId, u: TaskId)
    requires KindsMatch(s) && CanStep(s, h) && u in Step(s, h).tasks
    requires Step(s, h).tasks[u].pc.AwaitWriterWrite? || Step(s, h).tasks[u].pc.InsertWriter?
    ensures u in s.tasks && s.tasks[u].who == Step(s, h).tasks[u].who
    ensures u != h ==> s.tasks[u] == Step(s, h).tasks[u]
    ensures u == h ==> if Step(s, h).tasks[u].pc.InsertWriter? then s.tasks[h].pc.AwaitWriterWrite?
                       else s.tasks[h].pc.RequestWriterWrite?
  {
    StepTouches(s, h);
    StepperIsUp(s, h);
  }

  lemma NewWriterIsBehind(s: State, h: TaskId, t: TaskId)
    requires QueuesExact(s) && CanStep(s, h) && t in s.tasks && h != t
    requires s.tasks[t].pc.AwaitWriterRead? || !s.tasks[h].pc.RequestWriterWrite?
    requires s.tasks[h].pc.AwaitWriterWrite? || s.tasks[h].pc.RequestWriterWrite?
    requires s.tasks[h].who == s.tasks[t].who
    requires s.tasks[h].pc.RequestWriterWrite? ==>
               Index(Queue(Step(s, h), WriterDb), h) < Index(Queue(Step(s, h), WriterDb), t)
    ensures Overtakes(s, h, t)
  {
    if s.tasks[h].pc.AwaitWriterWrite? {
      assert Queue(s, WriterDb)[0] == h;
    } else {
      AtWriterQueue(s, t);
      AtWriterQueue(s, h);
      JoinsAtTheBack(s, h, t);
      assert false;
    }
  }

  lemma JoinsAtTheBack(s: State, h: TaskId, t: TaskId)
    requires CanStep(s, h) && s.tasks[h].pc.RequestWriterWrite?
    requires t in Queue(s, WriterDb) && h !in Queue(s, WriterDb)
    ensures Index(Queue(Step(s, h), WriterDb), t) < Index(Queue(Step(s, h), WriterDb), h)
  {
    assert Queue(Step(s, h), WriterDb) == Queue(s, WriterDb) + [h];
    BackOfQueue(Queue(s, WriterDb), t, h);
  }

  lemma BackOfQueue(q: seq<TaskId>, t: TaskId, u: TaskId)
    requires t in q && u !in q
    ensures Index(q + [u], t) < Index(q + [u], u)
  {
    IndexGrows(q, t, u);
    IndexGrows(q, u, u);
  }

  lemma AheadBefore(s: State, h: TaskId, t: TaskId, u: TaskId)
    requires CanStep(s, h) && t in s.tasks && u in Queue(s, WriterDb)
    requires u != h && u != t && (h == t ==> Wants(s.tasks[t]).Free?)
    requires Index(Queue(Step(s, h), WriterDb), u) < Index(Queue(Step(s, h), WriterDb), t)
    ensures Index(Queue(s, WriterDb), u) < Index(Queue(s, WriterDb), t)
  {
    var q, q' := Queue(s, WriterDb), Queue(Step(s, h), WriterDb);
    QueueShape(s, StepOf(h), WriterDb);
    AheadInQueue(q, q', t, u, h);
  }

  lemma AheadInQueue(q: seq<TaskId>, q': seq<TaskId>, t: TaskId, u: TaskId, h: TaskId)
    requires u in q && u != h && u != t && (h == t ==> q' == q || q' == q + [h])
    requires q' == q || q' == q + [h] || (q[0] == h && q' == q[1..])
    requires Index(q', u) < Index(q', t)
    ensures Index(q, u) < Index(q, t)
  {
    IndexGrows(q, u, h);
    IndexGrows(q, t, h);
  }

  /** A step of anyone but `t` that leaves the writer table alone. */
  lemma OnItsWayStep(s: State, r: TaskId, t: TaskId, h: TaskId)
    requires Safe(s) && EntriesMade(s) && OnItsWay(s, r, t) && !s.tasks[r].pc.Routing? && CanStep(s, h) && h != t
    requires !AtWriters(s.tasks[h].pc)
    ensures OnItsWay(Step(s, h), r, t) && Step(s, h).tasks[t] == s.tasks[t] && Step(s, h).writerDb == s.writerDb
  {
    StepTouches(s, h);
    NotOvertakenStep(s, h, t);
    if h == r {
      StepperIsUp(s, r);
      ReaderNext(s, s.tasks[r]);
      NotEntered(s, t, s.tasks[r].who.group);
    }
  }

  lemma ReaderNext(s: State, task: Task)
    requires Woken(task.pc) && !task.pc.Routing?
    ensures !AtRest(task) && Woken(NextPc(s, task))
    ensures NextPc(s, task).Routing? ==> NextPc(s, task).table == Members(s, task.who.group)
  {
  }

  lemma NotEntered(s: State, t: TaskId, g: Id)
    requires EntriesMade(s) && t in s.tasks && BeforeInsert(s.tasks[t].pc)
    ensures (s.tasks[t].who.sender, t) !in Members(s, g).Items
  {
  }

  lemma {:induction false} ReaderCopies(s: State, r: TaskId, t: TaskId) returns (actions: seq<Action>, s': State)
    requires Grounded(s) && OnItsWay(s, r, t)
    ensures Runs(s, actions, s') && Grounded(s') && OnItsWay(s', r, t) && s'.tasks[r].pc.Routing?
    ensures s'.tasks[r].who == s.tasks[r].who && s'.tasks[t] == s.tasks[t] && s'.writerDb == s.writerDb
    decreases Remaining(s.tasks[r]),
              if s.tasks[r].pc.AwaitTable? then Delay(s, GroupSnds(s.tasks[r].who.group), r) else 0
  {
    if s.tasks[r].pc.Routing? {
      actions, s' := [], s;
    } else {
      var h := ReaderHelper(s, r, t);
      var mid := Step(s, h);
      NextKeepsGrounded(s, StepOf(h));
      OnItsWayStep(s, r, t, h);
      ReaderGetsCloser(s, r, h);
      actions, s' := ReaderCopies(mid, r, t);
      RunsFirst(s, StepOf(h), actions, s');
      actions := [StepOf(h)] + actions;
    }
  }

  lemma ReaderHelper(s: State, r: TaskId, t: TaskId) returns (h: TaskId)
    requires QueuesExact(s) && OnItsWay(s, r, t) && !s.tasks[r].pc.Routing?
    ensures CanStep(s, h) && h != t && !AtWriters(s.tasks[h].pc)
    ensures h == r || (s.tasks[r].pc.AwaitTable? && Serves(s, StepOf(h), GroupSnds(s.tasks[r].who.group)))
  {
    if s.tasks[r].pc.AwaitTable? {
      var lock := GroupSnds(s.tasks[r].who.group);
      h := GroupHelper(s, r, lock);
      ServerIsElsewhere(s, h, lock);
    } else {
      h := r;
    }
  }

  lemma ReaderGetsCloser(s: State, r: TaskId, h: TaskId)
    requires QueuesExact(s) && KindsMatch(s) && CanStep(s, h) && r in s.tasks && Woken(s.tasks[r].pc)
             && !s.tasks[r].pc.Routing?
    requires h == r || (s.tasks[r].pc.AwaitTable? && Serves(s, StepOf(h), GroupSnds(s.tasks[r].who.group)))
    ensures var mid := Step(s, h);
            && r in mid.tasks && mid.tasks[r].who == s.tasks[r].who
            && (|| Remaining(mid.tasks[r]) < Remaining(s.tasks[r])
                || (&& mid.tasks[r] == s.tasks[r] && s.tasks[r].pc.AwaitTable?
                    && Delay(mid, GroupSnds(s.tasks[r].who.group), r) < Delay(s, GroupSnds(s.tasks[r].who.group), r)))
  {
    StepTouches(s, h);
    if h == r {
      StepperIsUp(s, r);
      StepLowersRemaining(s, s.tasks[r]);
    } else {
      var g := s.tasks[r].who.group;
      WaitsAtGroup(s.tasks[r], g);
      DelayNext(s, StepOf(h), GroupSnds(g), r);
    }
  }

  // ---- then the registration inserts ----

  ghost predicate Inserted(s: State, t: TaskId) {
    t in s.tasks && (s.tasks[t].who.sender, t) in Members(s, s.tasks[t].who.group).Items
  }

  lemma BoundStep(s: State, task: Task)
    requires !AtRest(task) && Bound(s, task) && !task.pc.InsertChannel? && !task.pc.InsertFirstChannel?
    ensures BeforeInsert(NextPc(s, task)) && (Early(NextPc(s, task)) ==> task.who !in s.writerDb)
    ensures !task.pc.InsertWriter?
  {
  }

  /** A task that waits for nothing helps itself; one that waits for the writer table is not overtaken by its helper. */
  lemma StaysBound(s: State, t: TaskId, h: TaskId)
    requires KindsMatch(s) && t in s.tasks && Bound(s, s.tasks[t]) && !Overtaken(s, t) && CanStep(s, h)
    requires h != t ==> Wants(s.tasks[t]).Claim?
    requires h == t ==> !s.tasks[t].pc.InsertChannel? && !s.tasks[t].pc.InsertFirstChannel?
    ensures t in Step(s, h).tasks && Bound(Step(s, h), Step(s, h).tasks[t]) && Step(s, h).tasks[t].who == s.tasks[t].who
  {
    StepTouches(s, h);
    StepperIsUp(s, h);
    if h == t {
      BoundStep(s, s.tasks[t]);
    } else if s.tasks[h].pc.InsertWriter? && s.tasks[h].who == s.tasks[t].who {
      assert Overtakes(s, h, t);
    }
  }

  lemma HelpLowersRank(s: State, t: TaskId, h: TaskId)
    requires Safe(s) && t in s.tasks && !AtRest(s.tasks[t]) && Helps(s, t, h)
    ensures t in Step(s, h).tasks && Below(RankOf(Step(s, h), t), RankOf(s, t))
  {
    RankNext(s, StepOf(h), Step(s, h), t);
    if h != t {
      var lock :| Keeps(s, Wants(s.tasks[t]), lock) && Serves(s, StepOf(h), lock);
      assert !Bypasses(s, StepOf(h), lock);
    }
  }

  lemma InsertStep(s: State, t: TaskId)
    requires KindsMatch(s) && CanStep(s, t) && (s.tasks[t].pc.InsertChannel? || s.tasks[t].pc.InsertFirstChannel?)
    ensures Inserted(Step(s, t), t) && Step(s, t).tasks[t].who == s.tasks[t].who
  {
    StepTouches(s, t);
    StepMembers(s, t, s.tasks[t].who.group);
  }

  lemma BoundIsUp(s: State, task: Task)
    requires Bound(s, task)
    ensures !AtRest(task) && !ReaderPc(task.pc)
  {
  }

  /** Readers that route, and the task's own client, stay what they are. */
  lemma RoutersStay(s: State, h: TaskId, r: TaskId)
    requires KindsMatch(s) && CanStep(s, h) && r in s.tasks && s.tasks[r].pc.Routing?
    ensures r in Step(s, h).tasks && Step(s, h).tasks[r] == s.tasks[r]
  {
    StepTouches(s, h);
    StepperIsUp(s, h);
  }

  /** Helped along, a bound registration that is not overtaken makes its entry, and no routing reader notices. */
  lemma {:induction false} RegistrationInserts(s: State, t: TaskId, r: TaskId) returns (actions: seq<Action>, s': State)
    requires Grounded(s) && t in s.tasks && Bound(s, s.tasks[t]) && !Overtaken(s, t)
    requires r in s.tasks && s.tasks[r].pc.Routing?
    ensures Runs(s, actions, s') && Inserted(s', t) && s'.tasks[t].who == s.tasks[t].who
    ensures r in s'.tasks && s'.tasks[r] == s.tasks[r]
    decreases RankOf(s, t).own, RankOf(s, t).writer, RankOf(s, t).snd, RankOf(s, t).group
  {
    BoundIsUp(s, s.tasks[t]);
    var h := SomeTaskHelps(s, t);
    var mid := Step(s, h);
    RoutersStay(s, h, r);
    if h == t && (s.tasks[t].pc.InsertChannel? || s.tasks[t].pc.InsertFirstChannel?) {
      InsertStep(s, t);
      var none: seq<Action> := [];
      actions, s' := none, mid;
    } else {
      NextKeepsGrounded(s, StepOf(h));
      StaysBound(s, t, h);
      NotOvertakenStep(s, h, t);
      HelpLowersRank(s, t, h);
      actions, s' := RegistrationInserts(mid, t, r);
    }
    RunsFirst(s, StepOf(h), actions, s');
    actions := [StepOf(h)] + actions;
  }

  lemma BroadcastStarts(s: State, r: TaskId, t: TaskId)
    requires Grounded(s) && !s.phaseOver && Races(s, r, t)
    ensures OnItsWay(Next(s, EndPhase), r, t) && Next(s, EndPhase).tasks[t] == s.tasks[t]
    ensures Next(s, EndPhase).tasks[r].who == s.tasks[r].who
  {
    var s' := Next(s, EndPhase);
    if Overtaken(s', t) {
      var u :| Overtakes(s', u, t);
      assert Overtakes(s, u, t);
    }
  }

  /** With such a registration, the reader can copy first, and the entry come after. */
  lemma RaceGoesWrong(s: State, r: TaskId, t: TaskId)
    requires Grounded(s) && !s.phaseOver && Races(s, r, t)
    ensures CopyCanDiffer(Next(s, EndPhase))
  {
    var ended := Next(s, EndPhase);
    BroadcastStarts(s, r, t);
    NextKeepsGrounded(s, EndPhase);
    var first, copied := ReaderCopies(ended, r, t);
    var more, s' := RegistrationInserts(copied, t, r);
    RunsOn(ended, first, copied, more, s');
    assert HasWrongCopy(s', r);
  }

  /**
    A reader can get a copy that is not its group's table if and only if, at the end of the phase,
    it is waiting while a registration for its group has not asked for the group's lock yet. One
    that has asked is served first, and the copy has its entry; one that another registration of
    its client overtakes makes none.
  */
  lemma CopiesDifferIff(s: State)
    requires Reachable(s) && !s.phaseOver
    ensures CopyCanDiffer(Next(s, EndPhase)) <==> exists r, t :: Races(s, r, t)
  {
    ReachableIsGrounded(s);
    if r, t :| Races(s, r, t) {
      RaceGoesWrong(s, r, t);
    } else {
      forall actions, s', r | Runs(Next(s, EndPhase), actions, s')
        ensures !HasWrongCopy(s', r)
      {
        CopiesAgree(s, actions, s', r);
      }
    }
  }

  // ---- which readers get a copy at all ----

  lemma {:induction false} RunKeepsWoken(before: State, s: State, actions: seq<Action>, s': State)
    requires Safe(s) && s.phaseOver && WokenIn(before, s) && Runs(s, actions, s')
    ensures Safe(s') && s'.phaseOver && WokenIn(before, s')
    decreases |actions|
  {
    if actions != [] {
      NextKeepsSafe(s, actions[0]);
      NextKeepsWoken(before, s, actions[0]);
      PhaseStaysOver(s, actions[0]);
      RunKeepsWoken(before, Next(s, actions[0]), actions[1..], s');
    }
  }

  /** In any run, a reader gets past its wait only if it was already waiting when the phase ended. */
  lemma WokenWereParked(s: State, actions: seq<Action>, s': State, r: TaskId)
    requires Reachable(s) && !s.phaseOver && Runs(Next(s, EndPhase), actions, s')
    requires r in s'.tasks && Woken(s'.tasks[r].pc)
    ensures r in s.tasks && s.tasks[r].pc.Parked?
  {
    ReachableIsGrounded(s);
    BroadcastWakes(s);
    NextKeepsSafe(s, EndPhase);
    RunKeepsWoken(s, Next(s, EndPhase), actions, s');
  }

  lemma NextKeepsTasks(s: State, a: Action)
    requires KindsMatch(s) && Enabled(s, a)
    ensures s.tasks.Keys <= Next(s, a).tasks.Keys
  {
    if a.StepOf? { StepTouches(s, a.t); }
  }

  lemma {:induction false} RunKeepsTasks(s: State, actions: seq<Action>, s': State)
    requires Safe(s) && Runs(s, actions, s')
    ensures Safe(s') && s.tasks.Keys <= s'.tasks.Keys
    decreases |actions|
  {
    if actions != [] {
      NextKeepsSafe(s, actions[0]);
      NextKeepsTasks(s, actions[0]);
      RunKeepsTasks(Next(s, actions[0]), actions[1..], s');
    }
  }

  /** No connection accepted after the end of the phase ever has its messages routed. */
  lemma LateConnectionIsNotRouted(s: State, first: seq<Action>, mid: State, n: nat, who: Handshake, more: seq<Action>,
      s': State)
    requires Reachable(s) && !s.phaseOver && Runs(Next(s, EndPhase), first, mid)
    requires Enabled(mid, Arrive(n, who)) && Runs(Next(mid, Arrive(n, who)), more, s')
    ensures Reader(n) in s'.tasks ==> !Woken(s'.tasks[Reader(n)].pc)
  {
    var ended := Next(s, EndPhase);
    ReachableIsGrounded(s);
    NextKeepsSafe(s, EndPhase);
    NextKeepsTasks(s, EndPhase);
    RunKeepsTasks(ended, first, mid);
    RunsFirst(mid, Arrive(n, who), more, s');
    RunsOn(ended, first, mid, [Arrive(n, who)] + more, s');
    if Reader(n) in s'.tasks && Woken(s'.tasks[Reader(n)].pc) {
      WokenWereParked(s, first + ([Arrive(n, who)] + more), s', Reader(n));
    }
  }

  predicate WokenOrGone(pc: Pc) {
    Woken(pc) || pc.Terminated?
  }

  lemma StaysWoken(s: State, a: Action, r: TaskId)
    requires KindsMatch(s) && Enabled(s, a) && r in s.tasks && WokenOrGone(s.tasks[r].pc)
    ensures r in Next(s, a).tasks && WokenOrGone(Next(s, a).tasks[r].pc)
  {
    if a.StepOf? {
      StepTouches(s, a.t);
      StepperIsUp(s, a.t);
    }
  }

  lemma {:induction false} WokenThroughout(state: nat -> State, tick: nat -> Tick, i: nat, j: nat, r: TaskId)
    requires IsBehaviour(state, tick) && i <= j && r in state(i).tasks && WokenOrGone(state(i).tasks[r].pc)
    ensures r in state(j).tasks && WokenOrGone(state(j).tasks[r].pc)
    decreases j - i
  {
    if i < j {
      BehaviourIsSafe(state, tick, i);
      var s, s' := state(i), state(i + 1);
      if tick(i).Do? { StaysWoken(s, tick(i).action, r); }
      WokenThroughout(state, tick, i + 1, j, r);
    }
  }

  /** In a fair behaviour, every reader that waits when the phase ends gets its copy, unless it is cancelled. */
  lemma EveryParkedReaderRoutes(state: nat -> State, tick: nat -> Tick, i: nat, r: TaskId)
    requires IsBehaviour(state, tick) && IsFair(state, tick)
    requires tick(i) == Do(EndPhase) && r in state(i).tasks && state(i).tasks[r].pc.Parked?
    ensures exists j: nat ::
              i < j && r in state(j).tasks && (state(j).tasks[r].pc.Routing? || state(j).tasks[r].pc.Terminated?)
  {
    var s, s' := state(i), state(i + 1);
    assert tick(i).Do? && Enabled(s, tick(i).action) && s' == Next(s, EndPhase);
    EveryTaskRests(state, tick, i + 1, r);
    var j: nat :| i + 1 <= j && r in state(j).tasks && AtRest(state(j).tasks[r]);
    WokenThroughout(state, tick, i + 1, j, r);
  }

  /** Alice connects again after the phase. */
  lemma AliceReturns() returns (s: State)
    ensures Reachable(s) && Calm(s) && s.phaseOver && s.tasks.Keys == {Conn(0), Reader(0), Conn(1)}
    ensures s.tasks[Conn(1)].who == Alice && Reconnects(s, Conn(1))
  {
    var alice := AliceRegisters();
    EndCalmly(alice);
    ReachableThen(alice, EndPhase);
    var ended := Next(alice, EndPhase);
    ArriveCalmly(ended, 1, Alice);
    ReachableThen(ended, Arrive(1, Alice));
    s := Next(ended, Arrive(1, Alice));
  }

  lemma AliceIsBack() returns (s: State)
    ensures Reachable(s) && Calm(s) && s.phaseOver
    ensures Reader(1) in s.tasks && s.tasks[Reader(1)].who == Alice && s.tasks[Reader(1)].pc.Spawned?
  {
    var back := AliceReturns();
    s := RunAloneCalmly(back, Conn(1), map[]);
    ReconnectedHasReader(s, Conn(1));
  }

  /** Her new reader waits, and in no run gets past the wait. */
  lemma AliceIsNotRouted() returns (s: State)
    ensures Reachable(s) && s.phaseOver && Reader(1) in s.tasks && s.tasks[Reader(1)].pc.Parked?
            && s.tasks[Reader(1)].who == Alice
    ensures forall actions, s' | Runs(s, actions, s') :: Reader(1) in s'.tasks && !Woken(s'.tasks[Reader(1)].pc)
  {
    var back := AliceIsBack();
    ParkReader(back, Reader(1));
    s := Step(back, Reader(1));
    ReachableIsSafe(s);
    forall actions, s' | Runs(s, actions, s')
      ensures Reader(1) in s'.tasks && !Woken(s'.tasks[Reader(1)].pc)
    {
      LateReaderStaysParked(s, actions, s', Reader(1));
    }
  }

  lemma ReconnectedHasReader(s: State, t: TaskId)
    requires Reconnects(s, t) && AtRest(s.tasks[t])
    ensures Reader(t.n) in s.tasks
  {
  }

  // ---- a registration that has asked for the lock is no race ----

  /** On its way to the queue of its group's lock. */
  ghost predicate Approaches(s: State, t: TaskId) {
    && t in s.tasks && s.tasks[t].registration && s.tasks[t].who !in s.writerDb && s.tasks[t].who.group in s.sndDb
    && var pc := s.tasks[t].pc;
       || Early(pc) || pc.Unregistered? || pc.AwaitGroupLookup? || pc.LookUpGroup? || pc.GroupFound? || pc.AwaitGroup?
  }

  lemma ApproachStep(s: State, t: TaskId)
    requires KindsMatch(s) && Approaches(s, t) && !s.tasks[t].pc.AwaitGroup? && CanStep(s, t)
    ensures Approaches(Step(s, t), t)
  {
    StepTouches(s, t);
  }

  lemma {:induction false} RunToTheQueue(s: State, t: TaskId) returns (s': State)
    requires Reachable(s) && Safe(s) && Alone(s, t) && Approaches(s, t)
    ensures Reachable(s') && Went(s, s', t, map[]) && s'.tasks[t].pc.AwaitGroup?
    decreases Remaining(s.tasks[t])
  {
    if s.tasks[t].pc.AwaitGroup? {
      s' := s;
    } else {
      AloneCanStep(s, t);
      AloneStays(s, t, Step(s, t));
      StepTouches(s, t);
      StepLowersRemaining(s, s.tasks[t]);
      ReachableThen(s, StepOf(t));
      StepGoes(s, t, map[]);
      ApproachStep(s, t);
      s' := RunToTheQueue(Step(s, t), t);
      GoesOn(s, Step(s, t), s', t, map[]);
    }
  }

  /** Bob waits for the lock of Alice's group. */
  lemma BobQueues() returns (s: State)
    ensures Reachable(s) && !s.phaseOver && Reader(0) in s.tasks && s.tasks[Reader(0)].pc.Parked?
            && s.tasks[Reader(0)].who == Alice
    ensures Conn(1) in s.tasks && s.tasks[Conn(1)] == Task(Bob, true, AwaitGroup)
    ensures forall u <- s.tasks ::
              u == Conn(1) || s.tasks[u].pc.Finished? || s.tasks[u].pc.Parked? || s.tasks[u].pc.Spawned?
  {
    var both := BobArrives();
    CalmIffAlone(both, Conn(1));
    ReachableIsSafe(both);
    s := RunToTheQueue(both, Conn(1));
  }

  /**
    Being in flight is not enough: in a reachable state a reader waits and a registration for its
    group has not made its entry, and yet no copy made after the broadcast ever differs.
  */
  lemma AskedIsServedFirst() returns (s: State, r: TaskId, t: TaskId)
    ensures Reachable(s) && !s.phaseOver && r in s.tasks && s.tasks[r].pc.Parked?
    ensures t in s.tasks && Bound(s, s.tasks[t]) && s.tasks[t].who.group == s.tasks[r].who.group
    ensures !CopyCanDiffer(Next(s, EndPhase))
  {
    s := BobQueues();
    r, t := Reader(0), Conn(1);
    ReachableIsGrounded(s);
    NobodyLags(s);
    forall actions, s', p | Runs(Next(s, EndPhase), actions, s')
      ensures !HasWrongCopy(s', p)
    {
      CopiesAgree(s, actions, s', p);
    }
  }

  lemma NobodyLags(s: State)
    requires forall u <- s.tasks ::
               u == Conn(1) || s.tasks[u].pc.Finished? || s.tasks[u].pc.Parked? || s.tasks[u].pc.Spawned?
    requires Conn(1) in s.tasks && s.tasks[Conn(1)].pc.AwaitGroup?
    ensures NoRace(s)
  {
  }
}
