/**
  No deadlock and no starvation in the relay's locking protocol, whatever connects and whenever:
  in every fair run every connection task gets through its locks, and every reader that was woken
  gets its table. The argument ranks a waiting task by the work of those ahead of it, one level of
  locks inside another, and shows that some task that can run now lowers the rank.
*/
module HandshakeLiveness {
  import opened HandshakeModel
  import opened Sequences
  import opened HandshakeSafety

  // ---- sums over the tasks ----

  lemma SumUpdate(m: map<TaskId, Task>, f: Task -> nat, k: TaskId, x: Task)
    ensures Sum(m[k := x], f) + (if k in m then f(m[k]) else 0) == Sum(m, f) + f(x)
  {
    SumExtract(m[k := x], f, k);
    assert m[k := x] - {k} == m - {k};
    if k in m { SumExtract(m, f, k); } else { assert m - {k} == m; }
  }

  lemma {:induction false} SumAgrees(m: map<TaskId, Task>, m': map<TaskId, Task>, f: Task -> nat)
    requires m.Keys == m'.Keys
    ensures (forall k <- m :: f(m'[k]) == f(m[k])) ==> Sum(m', f) == Sum(m, f)
    ensures (forall k <- m :: f(m'[k]) <= f(m[k])) ==> Sum(m', f) <= Sum(m, f)
    decreases |m|
  {
    if m != map[] {
      var k :| k in m;
      SumExtract(m, f, k);
      SumExtract(m', f, k);
      SumAgrees(m - {k}, m' - {k}, f);
    }
  }

  // ---- how long a lock keeps a waiting task ----

  ghost function Work(lock: Lock): Task -> nat {
    task => HoldWork(task, lock)
  }

  ghost function Load(s: State, lock: Lock): nat {
    Sum(s.tasks, Work(lock))
  }

  ghost function Index(q: seq<TaskId>, t: TaskId): nat {
    if q == [] || q[0] == t then 0 else 1 + Index(q[1..], t)
  }

  /** The holders' remaining steps, and five for each task ahead in the queue. */
  ghost function Delay(s: State, lock: Lock, t: TaskId): nat {
    Load(s, lock) + 5 * Index(Queue(s, lock), t)
  }

  /** The action is a step of a holder of the lock, or grants the lock to the front of its queue. */
  ghost predicate Serves(s: State, a: Action, lock: Lock) {
    && a.StepOf? && a.t in s.tasks
    && (Holds(s.tasks[a.t], lock) || (Queue(s, lock) != [] && Queue(s, lock)[0] == a.t))
  }

  ghost predicate CancelsFront(s: State, a: Action, lock: Lock) {
    a.Cancel? && Queue(s, lock) != [] && Queue(s, lock)[0] == a.t
  }

  lemma {:induction false} IndexAfter(q: seq<TaskId>, t: TaskId, u: TaskId)
    requires t in q && NoRepeats(q)
    ensures Index(q + [u], t) == Index(q, t)
    ensures q[0] != t ==> t in q[1..] && Index(q[1..], t) == Index(q, t) - 1
    ensures u != t ==> Index(Without(q, u), t) <= Index(q, t)
    ensures u != t && q[0] == u ==> Index(Without(q, u), t) < Index(q, t)
  {
    assert q == [q[0]] + q[1..];
    assert (q + [u])[1..] == q[1..] + [u];
    if q[0] != t {
      assert NoRepeats(q[1..]);
      IndexAfter(q[1..], t, u);
    }
  }

  /** A step lowers what its task still owes to each lock it holds, and takes on at most four for the lock granted. */
  lemma StepWork(s: State, task: Task, lock: Lock)
    requires !AtRest(task)
    ensures var work, work' := HoldWork(task, lock), HoldWork(task.(pc := NextPc(s, task)), lock);
            && (work > 0 ==> work' < work)
            && (work == 0 ==> work' <= if Wants(task).Claim? && Wants(task).lock == lock then 4 else 0)
  {
  }

  /** One task changes, and possibly another appears. */
  lemma SumAfterStep(m: map<TaskId, Task>, m': map<TaskId, Task>, f: Task -> nat, h: TaskId, r: TaskId)
    requires h in m
    requires m.Keys <= m'.Keys <= m.Keys + {r}
    requires forall u <- m :: u != h ==> m'[u] == m[u]
    ensures Sum(m', f) + f(m[h]) == Sum(m, f) + f(m'[h]) + if r in m' && r !in m then f(m'[r]) else 0
  {
    var mid := m[h := m'[h]];
    SumUpdate(m, f, h, m'[h]);
    if r in m' && r !in m {
      assert m' == mid[r := m'[r]];
      SumUpdate(mid, f, r, m'[r]);
    } else {
      assert m' == mid;
    }
  }

  lemma SumOverStep(s: State, h: TaskId, f: Task -> nat)
    requires KindsMatch(s) && CanStep(s, h)
    ensures var task := s.tasks[h];
            Sum(Step(s, h).tasks, f) + f(task)
              == Sum(s.tasks, f) + f(task.(pc := NextPc(s, task)))
                 + if SpawnsReader(s, task) then f(Task(task.who, task.registration, Spawned)) else 0
  {
    StepTouches(s, h);
    SumAfterStep(s.tasks, Step(s, h).tasks, f, h, Reader(h.n));
  }

  lemma LoadAfterStep(s: State, h: TaskId, lock: Lock)
    requires KindsMatch(s) && CanStep(s, h)
    ensures var task := s.tasks[h];
            Load(Step(s, h), lock) + HoldWork(task, lock) ==
              Load(s, lock) + HoldWork(task.(pc := NextPc(s, task)), lock)
  {
    SumOverStep(s, h, Work(lock));
  }

  lemma LoadOtherwise(s: State, a: Action, lock: Lock)
    requires Enabled(s, a) && !a.StepOf?
    ensures Load(Next(s, a), lock) == Load(s, lock)
  {
    match a
    case Arrive(n, who) => SumUpdate(s.tasks, Work(lock), Conn(n), Task(who, !s.phaseOver, Start));
    case EndPhase => LoadAfterBroadcast(s, Next(s, a), lock);
    case Cancel(t) => LoadAfterCancel(s, t, Next(s, a), lock);
  }

  lemma LoadAfterBroadcast(s: State, s': State, lock: Lock)
    requires s'.tasks == map u <- s.tasks :: Wake(s.tasks[u])
    ensures Load(s', lock) == Load(s, lock)
  {
    forall u | u in s.tasks
      ensures HoldWork(Wake(s.tasks[u]), lock) == HoldWork(s.tasks[u], lock)
    {
    }
    SumAgrees(s.tasks, s'.tasks, Work(lock));
  }

  lemma LoadAfterCancel(s: State, t: TaskId, s': State, lock: Lock)
    requires t in s.tasks && Cancellable(s.tasks[t]) && s'.tasks == s.tasks[t := s.tasks[t].(pc := Terminated)]
    ensures Load(s', lock) == Load(s, lock)
  {
    SumUpdate(s.tasks, Work(lock), t, s.tasks[t].(pc := Terminated));
  }

  predicate WaitsFor(task: Task, lock: Lock) {
    Wants(task).Claim? && Wants(task).lock == lock
  }

  /** What an action does to one queue: nothing, append, take the front, or drop a cancelled reader. */
  lemma QueueShape(s: State, a: Action, lock: Lock)
    requires Enabled(s, a)
    ensures var q, q' := Queue(s, lock), Queue(Next(s, a), lock);
            if a.StepOf? && WaitsFor(s.tasks[a.t], lock) then q[0] == a.t && q' == q[1..]
            else if a.StepOf? then q' == q || q' == q + [a.t]
            else if a.Cancel? && WaitsFor(s.tasks[a.t], lock) then q' == Without(q, a.t)
            else q' == q
  {
    if a.StepOf? { OneWait(s, s.tasks[a.t]); }
  }

  /** The queue of a lock, seen from a task that stays in it. */
  lemma QueueNext(s: State, a: Action, lock: Lock, t: TaskId)
    requires Enabled(s, a) && t in Queue(s, lock) && NoRepeats(Queue(s, lock)) && a != StepOf(t) && a != Cancel(t)
    requires forall u <- Queue(s, lock) :: u in s.tasks && WaitsFor(s.tasks[u], lock)
    ensures var q, q' := Queue(s, lock), Queue(Next(s, a), lock);
            && Index(q', t) <= Index(q, t)
            && (q[0] == t ==> q' != [] && q'[0] == t)
            && (a.StepOf? && WaitsFor(s.tasks[a.t], lock) ==> Index(q', t) == Index(q, t) - 1)
            && (a.Cancel? && q[0] == a.t ==> Index(q', t) < Index(q, t))
  {
    var q := Queue(s, lock);
    QueueShape(s, a, lock);
    IndexAfter(q, t, if a.StepOf? || a.Cancel? then a.t else t);
  }

  /** What `QueuesExact` says of one waiting task. */
  lemma WaiterQueued(s: State, t: TaskId, lock: Lock)
    requires QueuesExact(s) && t in s.tasks && WaitsFor(s.tasks[t], lock)
    ensures t in Queue(s, lock) && NoRepeats(Queue(s, lock))
    ensures forall u <- Queue(s, lock) :: u in s.tasks && WaitsFor(s.tasks[u], lock)
  {
    forall u | u in Queue(s, lock)
      ensures u in s.tasks && WaitsFor(s.tasks[u], lock)
    {
      var i :| 0 <= i < |Queue(s, lock)| && Queue(s, lock)[i] == u;
    }
  }

  lemma WorkNext(s: State, a: Action, lock: Lock)
    requires KindsMatch(s) && Enabled(s, a)
    ensures var s' := Next(s, a);
            if a.StepOf? && Holds(s.tasks[a.t], lock) then Load(s', lock) < Load(s, lock)
            else if a.StepOf? && WaitsFor(s.tasks[a.t], lock) then Load(s', lock) <= Load(s, lock) + 4
            else Load(s', lock) == Load(s, lock)
  {
    if a.StepOf? {
      LoadAfterStep(s, a.t, lock);
      StepWork(s, s.tasks[a.t], lock);
    } else {
      LoadOtherwise(s, a, lock);
    }
  }

  /**
    A task that stays in a lock's queue is never set back, by any action; it gains whenever a
    holder of the lock steps, the lock is granted, or the front of the queue is cancelled.
  */
  lemma DelayNext(s: State, a: Action, lock: Lock, t: TaskId)
    requires QueuesExact(s) && KindsMatch(s) && Enabled(s, a) && t in s.tasks && a != StepOf(t) && a != Cancel(t)
    requires WaitsFor(s.tasks[t], lock)
    ensures Delay(Next(s, a), lock, t) <= Delay(s, lock, t)
    ensures Serves(s, a, lock) || CancelsFront(s, a, lock) ==> Delay(Next(s, a), lock, t) < Delay(s, lock, t)
  {
    WaiterQueued(s, t, lock);
    QueueNext(s, a, lock, t);
    WorkNext(s, a, lock);
    assert Serves(s, a, lock) ==> Holds(s.tasks[a.t], lock) || WaitsFor(s.tasks[a.t], lock);
  }

  // ---- what an action leaves alone ----

  /** A task that neither steps nor is cancelled stays where it is, unless it was parked. */
  lemma TaskStays(s: State, a: Action, u: TaskId)
    requires KindsMatch(s) && Enabled(s, a) && u in s.tasks && a != StepOf(u) && a != Cancel(u)
    ensures u in Next(s, a).tasks
    ensures !s.tasks[u].pc.Parked? ==> Next(s, a).tasks[u] == s.tasks[u]
  {
    if a.StepOf? { StepTouches(s, a.t); }
  }

  /** A task found waiting for a lock after an action was waiting before it, or has just requested it. */
  lemma WaiterOrigin(s: State, a: Action, u: TaskId)
    requires KindsMatch(s) && Enabled(s, a) && u in Next(s, a).tasks && Wants(Next(s, a).tasks[u]).Claim?
    ensures u in s.tasks && (a == StepOf(u) || s.tasks[u] == Next(s, a).tasks[u])
  {
    if a.StepOf? { StepTouches(s, a.t); }
  }

  // ---- the two tasks that wait for one lock while holding another ----

  /** Waits for its new group's lock while holding the group table for writing. */
  ghost predicate IsCreator(s: State, w: TaskId) {
    w in s.tasks && s.tasks[w].pc.AwaitNewGroup?
  }

  /** Waits for the group table while holding the writer table for reading. */
  ghost predicate IsReconnect(s: State, u: TaskId) {
    u in s.tasks && s.tasks[u].pc.AwaitSndRead?
  }

  ghost predicate HasCreator(s: State) { exists w :: IsCreator(s, w) }

  ghost predicate HasReconnect(s: State) { exists u :: IsReconnect(s, u) }

  ghost function Creator(s: State): (w: TaskId)
    requires HasCreator(s)
    ensures IsCreator(s, w)
  {
    var w :| IsCreator(s, w); w
  }

  ghost function CreatorLock(s: State): Lock
    requires HasCreator(s)
  {
    GroupSnds(s.tasks[Creator(s)].who.group)
  }

  ghost function GroupSlot(s: State): nat {
    if HasCreator(s) then Delay(s, CreatorLock(s), Creator(s)) else 0
  }

  lemma CreatorUnique(s: State, w: TaskId)
    requires Exclusion(s) && IsCreator(s, w)
    ensures Creator(s) == w
  {
    assert HoldsExclusive(s.tasks[w], SndDb) && Holds(s.tasks[Creator(s)], SndDb);
  }

  /** As long as nobody makes progress on the group table, its creator is only ever helped along. */
  lemma CreatorNext(s: State, a: Action)
    requires QueuesExact(s) && KindsMatch(s) && Exclusion(s) && Enabled(s, a) && Exclusion(Next(s, a))
    requires !Serves(s, a, SndDb)
    ensures HasCreator(Next(s, a)) == HasCreator(s)
    ensures HasCreator(s) ==> CreatorLock(Next(s, a)) == CreatorLock(s)
    ensures GroupSlot(Next(s, a)) <= GroupSlot(s)
    ensures HasCreator(s) && (Serves(s, a, CreatorLock(s)) || CancelsFront(s, a, CreatorLock(s)))
            ==> GroupSlot(Next(s, a)) < GroupSlot(s)
  {
    var s' := Next(s, a);
    if HasCreator(s) {
      var w := Creator(s);
      CreatorStays(s, a, s', w);
      CreatorUnique(s', w);
      CreatorWaits(s, w);
      DelayNext(s, a, CreatorLock(s), w);
    } else if w :| IsCreator(s', w) {
      CreatorOrigin(s, a, w);
    }
  }

  lemma CreatorWaits(s: State, w: TaskId)
    requires HasCreator(s) && w == Creator(s)
    ensures w in s.tasks && WaitsFor(s.tasks[w], CreatorLock(s)) && GroupSlot(s) == Delay(s, CreatorLock(s), w)
  {
  }

  lemma CreatorOrigin(s: State, a: Action, w: TaskId)
    requires KindsMatch(s) && Enabled(s, a) && !Serves(s, a, SndDb) && IsCreator(Next(s, a), w)
    ensures IsCreator(s, w)
  {
    WaiterOrigin(s, a, w);
  }

  lemma CreatorStays(s: State, a: Action, s': State, w: TaskId)
    requires KindsMatch(s) && Enabled(s, a) && s' == Next(s, a) && !Serves(s, a, SndDb) && IsCreator(s, w)
    ensures IsCreator(s', w) && s'.tasks[w] == s.tasks[w] && a != StepOf(w) && a != Cancel(w)
  {
    assert Holds(s.tasks[w], SndDb) && !Cancellable(s.tasks[w]);
    TaskStays(s, a, w);
  }

  ghost function FirstReconnect(s: State, q: seq<TaskId>): nat {
    if q == [] || IsReconnect(s, q[0]) then 0 else 1 + FirstReconnect(s, q[1..])
  }

  /** The progress of the reconnecting task that is first in the group table's queue. */
  ghost function SndSlot(s: State): nat {
    if HasReconnect(s) then Load(s, SndDb) + 5 * FirstReconnect(s, Queue(s, SndDb)) else 0
  }

  lemma {:induction false} FirstReconnectIsFirst(s: State, q: seq<TaskId>, u: TaskId)
    requires u in q && IsReconnect(s, u) && NoRepeats(q)
    ensures var i := FirstReconnect(s, q);
            i <= Index(q, u) && i < |q| && IsReconnect(s, q[i]) && Index(q, q[i]) == i
  {
    assert q == [q[0]] + q[1..];
    if !IsReconnect(s, q[0]) {
      assert NoRepeats(q[1..]);
      FirstReconnectIsFirst(s, q[1..], u);
    }
  }

  lemma FrontReconnect(s: State) returns (first: TaskId)
    requires QueuesExact(s) && HasReconnect(s)
    ensures IsReconnect(s, first) && Delay(s, SndDb, first) == SndSlot(s)
  {
    var u :| IsReconnect(s, u);
    WaiterQueued(s, u, SndDb);
    FirstReconnectIsFirst(s, Queue(s, SndDb), u);
    first := Queue(s, SndDb)[FirstReconnect(s, Queue(s, SndDb))];
  }

  lemma SndSlotIsLeast(s: State, u: TaskId)
    requires QueuesExact(s) && IsReconnect(s, u)
    ensures SndSlot(s) <= Delay(s, SndDb, u)
  {
    WaiterQueued(s, u, SndDb);
    FirstReconnectIsFirst(s, Queue(s, SndDb), u);
  }

  lemma ReconnectOrigin(s: State, a: Action, u: TaskId)
    requires KindsMatch(s) && Enabled(s, a) && !Serves(s, a, WriterDb) && IsReconnect(Next(s, a), u)
    ensures IsReconnect(s, u)
  {
    WaiterOrigin(s, a, u);
    if a == StepOf(u) { ReconnectHeld(s, u); }
  }

  /** Whoever comes to wait for the group table on a reconnect has had the writer table. */
  lemma ReconnectHeld(s: State, u: TaskId)
    requires KindsMatch(s) && CanStep(s, u) && IsReconnect(Step(s, u), u)
    ensures Holds(s.tasks[u], WriterDb)
  {
    StepTouches(s, u);
    StepperIsUp(s, u);
  }

  lemma ReconnectStays(s: State, a: Action, u: TaskId)
    requires KindsMatch(s) && Enabled(s, a) && !Serves(s, a, WriterDb) && IsReconnect(s, u)
    ensures IsReconnect(Next(s, a), u) && a != StepOf(u) && a != Cancel(u)
  {
    assert Holds(s.tasks[u], WriterDb) && !Cancellable(s.tasks[u]);
    TaskStays(s, a, u);
  }

  /** As long as nobody makes progress on the writer table, its reconnecting readers are only ever helped along. */
  lemma ReconnectNext(s: State, a: Action, s': State)
    requires QueuesExact(s) && KindsMatch(s) && Enabled(s, a) && s' == Next(s, a) && QueuesExact(s')
    requires !Serves(s, a, WriterDb)
    ensures HasReconnect(s') == HasReconnect(s)
    ensures SndSlot(s') <= SndSlot(s)
    ensures HasReconnect(s) && Serves(s, a, SndDb) ==> SndSlot(s') < SndSlot(s)
  {
    if HasReconnect(s) {
      var first := FrontReconnect(s);
      ReconnectStays(s, a, first);
      DelayNext(s, a, SndDb, first);
      SndSlotIsLeast(s', first);
    } else if u :| IsReconnect(s', u) {
      ReconnectOrigin(s, a, u);
    }
  }

  // ---- ranks ----

  /** Own steps left, then the delay at each level of locks the task is kept by, outermost first. */
  datatype Rank = Rank(own: nat, writer: nat, snd: nat, group: nat)

  predicate Below(r: Rank, q: Rank) {
    || r.own < q.own
    || (r.own == q.own && r.writer < q.writer)
    || (r.own == q.own && r.writer == q.writer && r.snd < q.snd)
    || (r.own == q.own && r.writer == q.writer && r.snd == q.snd && r.group < q.group)
  }

  /** A bound on the steps of a task and of the reader it will spawn. */
  function Remaining(task: Task): nat {
    match task.pc
    case Start => 30
    case AwaitWriterRead => 29
    case LookUpWriter => 28
    case AwaitSndRead => 12
    case IndexGroup => 11
    case Resend => 1
    case Unregistered => 27
    case AwaitGroupLookup => 26
    case LookUpGroup => 25
    case GroupFound => 24
    case AwaitGroup => 23
    case InsertChannel => 22
    case GroupAbsent => 24
    case AwaitSndWrite => 23
    case CreateGroup => 22
    case AwaitNewGroup => 21
    case InsertFirstChannel => 20
    case LeaveSndWrite => 19
    case SpawnTasks => 18
    case RequestWriterWrite => 3
    case AwaitWriterWrite => 2
    case InsertWriter => 1
    case Spawned => 5
    case Parked => 4
    case Notified => 3
    case AwaitTable => 2
    case CloneTable => 1
    case _ => 0
  }

  lemma StepLowersRemaining(s: State, task: Task)
    requires !AtRest(task)
    ensures var after := Remaining(task.(pc := NextPc(s, task)));
            after + (if SpawnsReader(s, task) then 5 else 0) < Remaining(task)
  {
  }

  ghost function WriterInner(s: State): nat {
    if HasReconnect(s) then GroupSlot(s) else 0
  }

  ghost function RankOf(s: State, t: TaskId): Rank
    requires t in s.tasks
  {
    var own, claim := Remaining(s.tasks[t]), Wants(s.tasks[t]);
    if claim.Free? then Rank(own, 0, 0, 0)
    else match claim.lock
      case WriterDb =>
        Rank(own, Delay(s, WriterDb, t), SndSlot(s), WriterInner(s))
      case SndDb => Rank(own, 0, Delay(s, SndDb, t), GroupSlot(s))
      case GroupSnds(_) => Rank(own, 0, 0, Delay(s, claim.lock, t))
  }

  ghost predicate IsCreatorLock(s: State, lock: Lock) {
    HasCreator(s) && lock == CreatorLock(s)
  }

  /** `lock` is one of those whose holders and queue front keep a task with this claim waiting. */
  ghost predicate Keeps(s: State, claim: Claim, lock: Lock) {
    && claim.Claim?
    && (|| lock == claim.lock
        || (claim.lock == SndDb && IsCreatorLock(s, lock))
        || (claim.lock == WriterDb && HasReconnect(s) && (lock == SndDb || IsCreatorLock(s, lock))))
  }

  /** A task that can run now and whose step brings `t` closer to its end. */
  ghost predicate Helps(s: State, t: TaskId, h: TaskId) {
    && t in s.tasks && CanStep(s, h)
    && (h == t || exists lock :: Keeps(s, Wants(s.tasks[t]), lock) && Serves(s, StepOf(h), lock))
  }

  // ---- some task always helps ----

  lemma FrontOrHolder(s: State, t: TaskId, lock: Lock) returns (h: TaskId)
    requires QueuesExact(s) && t in s.tasks && WaitsFor(s.tasks[t], lock)
    ensures h in s.tasks
    ensures Holds(s.tasks[h], lock) || (CanStep(s, h) && Queue(s, lock) != [] && Queue(s, lock)[0] == h)
  {
    WaiterQueued(s, t, lock);
    if u :| u in s.tasks && Holds(s.tasks[u], lock) {
      h := u;
    } else {
      h := Queue(s, lock)[0];
      assert WaitsFor(s.tasks[h], lock);
      assert forall u <- s.tasks :: !Holds(s.tasks[u], lock) && !HoldsExclusive(s.tasks[u], lock);
    }
  }

  /** A holder runs freely unless it is one of the two kinds that wait for a further lock. */
  lemma HolderRuns(task: Task, lock: Lock)
    requires Holds(task, lock)
    ensures !AtRest(task)
    ensures Wants(task).Claim? ==>
              if lock == WriterDb then task.pc.AwaitSndRead? else lock == SndDb && task.pc.AwaitNewGroup?
  {
  }

  lemma GroupHelper(s: State, t: TaskId, lock: Lock) returns (h: TaskId)
    requires QueuesExact(s) && t in s.tasks && WaitsFor(s.tasks[t], lock) && lock.GroupSnds?
    ensures CanStep(s, h) && Serves(s, StepOf(h), lock)
  {
    h := FrontOrHolder(s, t, lock);
    if Holds(s.tasks[h], lock) { HolderRuns(s.tasks[h], lock); }
  }

  lemma SndHelper(s: State, t: TaskId) returns (h: TaskId, lock: Lock)
    requires QueuesExact(s) && Exclusion(s) && t in s.tasks && WaitsFor(s.tasks[t], SndDb)
    ensures lock == SndDb || (HasCreator(s) && lock == CreatorLock(s))
    ensures CanStep(s, h) && Serves(s, StepOf(h), lock)
  {
    h := FrontOrHolder(s, t, SndDb);
    lock := SndDb;
    if Holds(s.tasks[h], SndDb) {
      HolderRuns(s.tasks[h], SndDb);
      if Wants(s.tasks[h]).Claim? {
        assert IsCreator(s, h);
        CreatorUnique(s, h);
        lock := CreatorLock(s);
        h := GroupHelper(s, h, lock);
      }
    }
  }

  lemma WriterHelper(s: State, t: TaskId) returns (h: TaskId, lock: Lock)
    requires QueuesExact(s) && Exclusion(s) && t in s.tasks && WaitsFor(s.tasks[t], WriterDb)
    ensures Keeps(s, Wants(s.tasks[t]), lock) && CanStep(s, h) && Serves(s, StepOf(h), lock)
  {
    h := FrontOrHolder(s, t, WriterDb);
    lock := WriterDb;
    if Holds(s.tasks[h], WriterDb) {
      HolderRuns(s.tasks[h], WriterDb);
      if Wants(s.tasks[h]).Claim? {
        assert IsReconnect(s, h);
        h, lock := SndHelper(s, h);
      }
    }
  }

  /**
    No deadlock: whenever a task is not at rest, some task can run, and that task's step brings
    the first one closer to its end.
  */
  lemma SomeTaskHelps(s: State, t: TaskId) returns (h: TaskId)
    requires Safe(s) && t in s.tasks && !AtRest(s.tasks[t])
    ensures Helps(s, t, h)
  {
    var claim := Wants(s.tasks[t]);
    if claim.Free? {
      h := t;
    } else {
      var lock;
      match claim.lock
      case WriterDb => h, lock := WriterHelper(s, t);
      case SndDb => h, lock := SndHelper(s, t);
      case GroupSnds(_) => lock := claim.lock; h := GroupHelper(s, t, lock);
      assert Keeps(s, claim, lock);
    }
  }

  // ---- the rank never rises ----

  /** The action touches none of the locks that keep `t`. */
  ghost predicate Bypasses(s: State, a: Action, lock: Lock) {
    !Serves(s, a, lock) && !CancelsFront(s, a, lock)
  }

  /** Only readers are cancelled, and a reader waits for no lock but its group's. */
  lemma CancelledAtGroup(s: State, a: Action, lock: Lock)
    requires QueuesExact(s) && Enabled(s, a) && CancelsFront(s, a, lock)
    ensures lock.GroupSnds?
  {
    assert Queue(s, lock)[0] in s.tasks;
  }

  /** The innermost part of the rank of a task kept by the group table. */
  lemma InnerNext(s: State, a: Action, s': State)
    requires QueuesExact(s) && KindsMatch(s) && Exclusion(s) && Enabled(s, a) && s' == Next(s, a) && Exclusion(s')
    requires !Serves(s, a, SndDb)
    ensures GroupSlot(s') <= GroupSlot(s)
    ensures HasCreator(s') == HasCreator(s) && (HasCreator(s) ==> CreatorLock(s') == CreatorLock(s))
    ensures GroupSlot(s') == GroupSlot(s) && HasCreator(s) ==> Bypasses(s, a, CreatorLock(s))
  {
    CreatorNext(s, a);
  }

  /** The rank falls; or it stays, the same locks keep the task, and the action serves none of them. */
  ghost predicate RankHolds(s: State, a: Action, s': State, t: TaskId)
    requires t in s.tasks && t in s'.tasks
  {
    || Below(RankOf(s', t), RankOf(s, t))
    || (&& RankOf(s', t) == RankOf(s, t)
        && a != StepOf(t) && a != Cancel(t)
        && forall lock | Keeps(s, Wants(s.tasks[t]), lock) :: Keeps(s', Wants(s'.tasks[t]), lock)
            && Bypasses(s, a, lock))
  }

  /** The inner parts of the rank of a task kept by the writer table. */
  lemma WriterInnerNext(s: State, a: Action, s': State)
    requires QueuesExact(s) && KindsMatch(s) && Exclusion(s) && Enabled(s, a)
    requires s' == Next(s, a) && QueuesExact(s') && Exclusion(s')
    requires !Serves(s, a, WriterDb)
    ensures HasReconnect(s') == HasReconnect(s) && SndSlot(s') <= SndSlot(s)
    ensures HasReconnect(s) && SndSlot(s') == SndSlot(s) ==> Bypasses(s, a, SndDb) && GroupSlot(s') <= GroupSlot(s)
    ensures HasReconnect(s) && SndSlot(s') == SndSlot(s) && GroupSlot(s') == GroupSlot(s) ==>
              forall lock | IsCreatorLock(s, lock) :: IsCreatorLock(s', lock) && Bypasses(s, a, lock)
  {
    ReconnectNext(s, a, s');
    if HasReconnect(s) && !Serves(s, a, SndDb) {
      InnerNext(s, a, s');
      if CancelsFront(s, a, SndDb) { CancelledAtGroup(s, a, SndDb); }
    }
  }

  lemma WriterRankNext(s: State, a: Action, s': State, t: TaskId)
    requires QueuesExact(s) && KindsMatch(s) && Exclusion(s) && Enabled(s, a)
    requires s' == Next(s, a) && QueuesExact(s') && Exclusion(s')
    requires t in s.tasks && t in s'.tasks && s'.tasks[t] == s.tasks[t] && a != StepOf(t) && a != Cancel(t)
    requires WaitsFor(s.tasks[t], WriterDb)
    ensures RankHolds(s, a, s', t)
  {
    DelayNext(s, a, WriterDb, t);
    assert Delay(s', WriterDb, t) == Delay(s, WriterDb, t) ==> Bypasses(s, a, WriterDb);
    if Bypasses(s, a, WriterDb) { WriterInnerNext(s, a, s'); }
    WriterRanks(s, s', t);
    if RankOf(s', t) == RankOf(s, t) {
      forall lock | Keeps(s, Wants(s.tasks[t]), lock)
        ensures Keeps(s', Wants(s'.tasks[t]), lock) && Bypasses(s, a, lock)
      {
      }
    }
  }

  lemma WriterRanks(s: State, s': State, t: TaskId)
    requires t in s.tasks && t in s'.tasks && s'.tasks[t] == s.tasks[t] && WaitsFor(s.tasks[t], WriterDb)
    ensures RankOf(s, t) == Rank(Remaining(s.tasks[t]), Delay(s, WriterDb, t), SndSlot(s), WriterInner(s))
    ensures RankOf(s', t) == Rank(Remaining(s.tasks[t]), Delay(s', WriterDb, t), SndSlot(s'), WriterInner(s'))
  {
  }

  lemma SndRankNext(s: State, a: Action, s': State, t: TaskId)
    requires QueuesExact(s) && KindsMatch(s) && Exclusion(s) && Enabled(s, a)
    requires s' == Next(s, a) && QueuesExact(s') && Exclusion(s')
    requires t in s.tasks && t in s'.tasks && s'.tasks[t] == s.tasks[t] && a != StepOf(t) && a != Cancel(t)
    requires WaitsFor(s.tasks[t], SndDb)
    ensures RankHolds(s, a, s', t)
  {
    DelayNext(s, a, SndDb, t);
    if !Serves(s, a, SndDb) { InnerNext(s, a, s'); }
  }

  /** A task that steps or is cancelled gets closer to its own end. */
  lemma OwnRankNext(s: State, a: Action, s': State, t: TaskId)
    requires KindsMatch(s) && Enabled(s, a) && s' == Next(s, a) && t in s.tasks && !AtRest(s.tasks[t])
    requires a == StepOf(t) || a == Cancel(t)
    ensures t in s'.tasks && Below(RankOf(s', t), RankOf(s, t))
  {
    RankOwn(s, t);
    if a.StepOf? {
      StepTouches(s, t);
      StepperIsUp(s, t);
      StepLowersRemaining(s, s.tasks[t]);
    } else {
      CancelLowersRemaining(s.tasks[t]);
    }
    RankOwn(s', t);
  }

  lemma CancelLowersRemaining(task: Task)
    requires Cancellable(task) && !AtRest(task)
    ensures Remaining(task.(pc := Terminated)) < Remaining(task)
  {
  }

  lemma RankOwn(s: State, t: TaskId)
    requires t in s.tasks
    ensures RankOf(s, t).own == Remaining(s.tasks[t])
  {
  }

  /**
    Whatever happens, a task's rank stays the same or falls; and it falls if the action serves one
    of the locks that keep the task.
  */
  lemma RankNext(s: State, a: Action, s': State, t: TaskId)
    requires Safe(s) && Enabled(s, a) && s' == Next(s, a) && t in s.tasks && !AtRest(s.tasks[t])
    ensures t in s'.tasks && RankHolds(s, a, s', t)
  {
    if a == StepOf(t) || a == Cancel(t) {
      OwnRankNext(s, a, s', t);
    } else {
      TaskStays(s, a, t);
      NextKeepsSafe(s, a);
      var claim := Wants(s.tasks[t]);
      if claim.Claim? {
        match claim.lock
        case WriterDb => WriterRankNext(s, a, s', t);
        case SndDb => SndRankNext(s, a, s', t);
        case GroupSnds(_) => DelayNext(s, a, claim.lock, t);
      }
    }
  }

  // ---- a helper stays a helper ----

  /** A lock is taken only by the task that waited for it. */
  lemma HolderOrigin(s: State, a: Action, u: TaskId, lock: Lock)
    requires KindsMatch(s) && Enabled(s, a) && u in Next(s, a).tasks
    requires a.StepOf? ==> !WaitsFor(s.tasks[a.t], lock)
    ensures Holds(Next(s, a).tasks[u], lock) ==> u in s.tasks && Holds(s.tasks[u], lock)
    ensures HoldsExclusive(Next(s, a).tasks[u], lock) ==> u in s.tasks && HoldsExclusive(s.tasks[u], lock)
  {
    if a.StepOf? { StepHolderOrigin(s, a.t, u, lock); }
  }

  lemma StepHolderOrigin(s: State, t: TaskId, u: TaskId, lock: Lock)
    requires KindsMatch(s) && CanStep(s, t) && u in Step(s, t).tasks && !WaitsFor(s.tasks[t], lock)
    ensures Holds(Step(s, t).tasks[u], lock) ==> u in s.tasks && Holds(s.tasks[u], lock)
    ensures HoldsExclusive(Step(s, t).tasks[u], lock) ==> u in s.tasks && HoldsExclusive(s.tasks[u], lock)
  {
    StepTouches(s, t);
    StepperIsUp(s, t);
    StepTakes(s, s.tasks[t], lock);
  }

  lemma CompatibleStays(s: State, a: Action, claim: Claim)
    requires KindsMatch(s) && Enabled(s, a) && claim.Claim? && Compatible(s, claim)
    requires a.StepOf? ==> !WaitsFor(s.tasks[a.t], claim.lock)
    ensures Compatible(Next(s, a), claim)
  {
    var s' := Next(s, a);
    forall u | u in s'.tasks
      ensures if claim.mode.Shared? then !HoldsExclusive(s'.tasks[u], claim.lock) else !Holds(s'.tasks[u], claim.lock)
    {
      HolderOrigin(s, a, u, claim.lock);
    }
  }

  lemma FrontStays(s: State, a: Action, lock: Lock, h: TaskId)
    requires QueuesExact(s) && Enabled(s, a) && Queue(s, lock) != [] && Queue(s, lock)[0] == h
    requires a != StepOf(h) && a != Cancel(h)
    ensures Queue(Next(s, a), lock) != [] && Queue(Next(s, a), lock)[0] == h
    ensures a.StepOf? ==> !WaitsFor(s.tasks[a.t], lock)
  {
    assert h in s.tasks && WaitsFor(s.tasks[h], lock);
    WaiterQueued(s, h, lock);
    QueueNext(s, a, lock, h);
  }

  lemma WaiterRunnableStays(s: State, a: Action, s': State, h: TaskId, claim: Claim)
    requires QueuesExact(s) && KindsMatch(s) && Enabled(s, a) && s' == Next(s, a) && a != StepOf(h) && a != Cancel(h)
    requires h in s.tasks && Wants(s.tasks[h]) == claim && claim.Claim? && CanStep(s, h)
    ensures Queue(s', claim.lock) != [] && Queue(s', claim.lock)[0] == h && Compatible(s', claim)
  {
    FrontStays(s, a, claim.lock, h);
    CompatibleStays(s, a, claim);
  }

  /** Nothing but its own step or cancellation disables a task. */
  lemma RunnableStays(s: State, a: Action, s': State, h: TaskId)
    requires QueuesExact(s) && KindsMatch(s) && Enabled(s, a) && s' == Next(s, a)
    requires CanStep(s, h) && a != StepOf(h) && a != Cancel(h)
    ensures CanStep(s', h) && s'.tasks[h] == s.tasks[h]
  {
    StepperIsUp(s, h);
    TaskStays(s, a, h);
    assert s'.tasks[h] == s.tasks[h];
    var claim := Wants(s.tasks[h]);
    if claim.Claim? { WaiterRunnableStays(s, a, s', h, claim); }
  }

  /** An action that bypasses a lock is neither a step of a task that can serve it nor its cancellation. */
  lemma ServerUntouched(s: State, a: Action, lock: Lock, h: TaskId)
    requires QueuesExact(s) && Enabled(s, a) && CanStep(s, h) && Serves(s, StepOf(h), lock) && Bypasses(s, a, lock)
    ensures a != StepOf(h) && a != Cancel(h)
  {
    if Holds(s.tasks[h], lock) { HolderIsNotCancelled(s.tasks[h], lock); }
  }

  lemma HolderIsNotCancelled(task: Task, lock: Lock)
    requires Holds(task, lock)
    ensures !Cancellable(task)
  {
  }

  lemma HolderStays(s: State, s': State, lock: Lock, h: TaskId)
    requires h in s.tasks && h in s'.tasks && s'.tasks[h] == s.tasks[h] && Holds(s.tasks[h], lock)
    ensures Serves(s', StepOf(h), lock)
  {
  }

  lemma ServerStays(s: State, a: Action, s': State, lock: Lock, h: TaskId)
    requires QueuesExact(s) && KindsMatch(s) && Enabled(s, a) && s' == Next(s, a)
    requires CanStep(s, h) && Serves(s, StepOf(h), lock) && Bypasses(s, a, lock)
    ensures a != StepOf(h) && CanStep(s', h) && Serves(s', StepOf(h), lock)
  {
    ServerUntouched(s, a, lock, h);
    RunnableStays(s, a, s', h);
    if Holds(s.tasks[h], lock) { HolderStays(s, s', lock, h); } else { FrontStays(s, a, lock, h); }
  }

  /** While a task's rank stays the same, whoever could help it still can. */
  lemma HelperStays(s: State, a: Action, s': State, t: TaskId, h: TaskId)
    requires QueuesExact(s) && KindsMatch(s) && Enabled(s, a) && s' == Next(s, a)
    requires t in s.tasks && t in s'.tasks && RankHolds(s, a, s', t) && !Below(RankOf(s', t), RankOf(s, t))
    requires Helps(s, t, h)
    ensures a != StepOf(h) && Helps(s', t, h)
  {
    if h == t {
      RunnableStays(s, a, s', h);
    } else {
      var lock :| Keeps(s, Wants(s.tasks[t]), lock) && Serves(s, StepOf(h), lock);
      ServerStays(s, a, s', lock, h);
      assert Keeps(s', Wants(s'.tasks[t]), lock);
    }
  }
}
