/**
  The locking protocol of the relay server: handshake tasks, the reader tasks they spawn, the
  three levels of read/write locks and the tables those locks guard.

  Tasks are interleaved one program point at a time. A lock is fair and queued: a request goes to
  the back of the lock's queue and only the front of a queue can be granted.
*/
module HandshakeModel {
  import opened Sequences

  type Id = string

  /** What a client says on connecting: who it is, and in which group. */
  datatype Handshake = Handshake(sender: Id, group: Id)

  /** `Conn(n)` is the n-th accepted connection's task, `Reader(n)` the reader task it spawns. */
  datatype TaskId = Conn(n: nat) | Reader(n: nat)

  /** The writer table, the table of groups, and one table of channels per group. */
  datatype Lock = WriterDb | SndDb | GroupSnds(group: Id)

  datatype Mode = Shared | Exclusive

  datatype Claim = Free | Claim(lock: Lock, mode: Mode)

  datatype Pc =
    // every connection
    | Start
    | AwaitWriterRead
    | LookUpWriter
    // a client seen before
    | AwaitSndRead
    | IndexGroup
    | Resend
    // a new client
    | Unregistered
    | AwaitGroupLookup
    | LookUpGroup
    | GroupFound
    | AwaitGroup
    | InsertChannel
    | GroupAbsent
    | AwaitSndWrite
    | CreateGroup
    | AwaitNewGroup
    | InsertFirstChannel
    | LeaveSndWrite
    | SpawnTasks
    | RequestWriterWrite
    | AwaitWriterWrite
    | InsertWriter
    // ends of a connection task
    | Finished
    | LateRegistration
    | IndexPanic
    // reader tasks
    | Spawned
    | Parked
    | Notified
    | AwaitTable
    | CloneTable
    | Routing(table: map<Id, TaskId>)
    | Terminated

  /** `registration` is the const parameter REGISTRATION_PHASE of the task. */
  datatype Task = Task(who: Handshake, registration: bool, pc: Pc)

  /** `sndDb` maps a group to its table; the table maps a member to the task that owns its channel. */
  datatype State = State(
    tasks: map<TaskId, Task>,
    queues: map<Lock, seq<TaskId>>,
    writerDb: set<Handshake>,
    sndDb: map<Id, map<Id, TaskId>>,
    phaseOver: bool)

  /** The lock a task is queued for. */
  function Wants(task: Task): Claim {
    match task.pc
    case AwaitWriterRead => Claim(WriterDb, Shared)
    case AwaitSndRead => Claim(SndDb, Shared)
    case AwaitGroupLookup => Claim(SndDb, Shared)
    case AwaitGroup => Claim(GroupSnds(task.who.group), Exclusive)
    case AwaitSndWrite => Claim(SndDb, Exclusive)
    case AwaitNewGroup => Claim(GroupSnds(task.who.group), Exclusive)
    case AwaitWriterWrite => Claim(WriterDb, Exclusive)
    case AwaitTable => Claim(GroupSnds(task.who.group), Shared)
    case _ => Free
  }

  /** How many of its own steps a task still takes before it lets go of `lock`; 0 if it does not hold it. */
  function HoldWork(task: Task, lock: Lock): nat {
    match lock
    case WriterDb =>
      (match task.pc
       case LookUpWriter => 4
       case AwaitSndRead => 3
       case IndexGroup => 2
       case Resend => 1
       case InsertWriter => 1
       case _ => 0)
    case SndDb =>
      (match task.pc
       case IndexGroup => 1
       case LookUpGroup => 1
       case CreateGroup => 4
       case AwaitNewGroup => 3
       case InsertFirstChannel => 2
       case LeaveSndWrite => 1
       case _ => 0)
    case GroupSnds(g) =>
      if g != task.who.group then 0 else
      (match task.pc
       case InsertChannel => 1
       case InsertFirstChannel => 1
       case CloneTable => 1
       case _ => 0)
  }

  predicate Holds(task: Task, lock: Lock) {
    HoldWork(task, lock) > 0
  }

  /** Every hold is shared except those taken by a `write()`. */
  predicate HoldsExclusive(task: Task, lock: Lock) {
    && Holds(task, lock)
    && match lock
       case WriterDb => task.pc.InsertWriter?
       case SndDb => !task.pc.IndexGroup? && !task.pc.LookUpGroup?
       case GroupSnds(_) => !task.pc.CloneTable?
  }

  function Queue(s: State, lock: Lock): seq<TaskId> {
    if lock in s.queues then s.queues[lock] else []
  }

  /** May `claim` be granted, given who holds the lock? */
  ghost predicate Compatible(s: State, claim: Claim)
    requires claim.Claim?
  {
    forall u <- s.tasks ::
      if claim.mode.Shared? then !HoldsExclusive(s.tasks[u], claim.lock) else !Holds(s.tasks[u], claim.lock)
  }

  /** Program points with nothing left to do, or waiting for the end of the registration phase. */
  predicate AtRest(task: Task) {
    || task.pc.Finished? || task.pc.LateRegistration? || task.pc.IndexPanic?
    || task.pc.Parked? || task.pc.Routing? || task.pc.Terminated?
  }

  ghost predicate CanStep(s: State, t: TaskId) {
    && t in s.tasks
    && var claim := Wants(s.tasks[t]);
       if claim.Claim? then Queue(s, claim.lock) != [] && Queue(s, claim.lock)[0] == t && Compatible(s, claim)
       else !AtRest(s.tasks[t])
  }

  /** Where the task goes next; the tables decide at the three lookups. */
  function NextPc(s: State, task: Task): Pc
    requires !AtRest(task)
  {
    match task.pc
    case Start => AwaitWriterRead
    case AwaitWriterRead => LookUpWriter
    case LookUpWriter => if task.who in s.writerDb then AwaitSndRead else Unregistered
    case AwaitSndRead => IndexGroup
    case IndexGroup => if task.who.group in s.sndDb then Resend else IndexPanic
    case Resend => Finished
    case Unregistered => if task.registration then AwaitGroupLookup else LateRegistration
    case AwaitGroupLookup => LookUpGroup
    case LookUpGroup => if task.who.group in s.sndDb then GroupFound else GroupAbsent
    case GroupFound => AwaitGroup
    case AwaitGroup => InsertChannel
    case InsertChannel => SpawnTasks
    case GroupAbsent => AwaitSndWrite
    case AwaitSndWrite => CreateGroup
    case CreateGroup => AwaitNewGroup
    case AwaitNewGroup => InsertFirstChannel
    case InsertFirstChannel => LeaveSndWrite
    case LeaveSndWrite => SpawnTasks
    case SpawnTasks => RequestWriterWrite
    case RequestWriterWrite => AwaitWriterWrite
    case AwaitWriterWrite => InsertWriter
    case InsertWriter => Finished
    case Spawned => Parked
    case Notified => AwaitTable
    case AwaitTable => CloneTable
    case CloneTable => Routing(Members(s, task.who.group))
  }

  /** The channels of a group; none if the group does not exist. */
  function Members(s: State, group: Id): map<Id, TaskId> {
    if group in s.sndDb then s.sndDb[group] else map[]
  }

  /** A granted task leaves the front of its queue; a requesting one joins the back. */
  function NextQueues(s: State, t: TaskId, task: Task, task': Task): map<Lock, seq<TaskId>> {
    var held, wanted := Wants(task), Wants(task');
    if held.Claim? then s.queues[held.lock := if Queue(s, held.lock) == [] then [] else Queue(s, held.lock)[1..]]
    else if wanted.Claim? then s.queues[wanted.lock := Queue(s, wanted.lock) + [t]]
    else s.queues
  }

  /** The group table, after task `t` has acted on it while holding the locks of its program point. */
  function NextSndDb(s: State, t: TaskId, task: Task): map<Id, map<Id, TaskId>> {
    var who := task.who;
    match task.pc
    case InsertChannel => s.sndDb[who.group := Members(s, who.group)[who.sender := t]]
    case CreateGroup => s.sndDb[who.group := Members(s, who.group)]
    case InsertFirstChannel => s.sndDb[who.group := Members(s, who.group)[who.sender := t]]
    case _ => s.sndDb
  }

  /** Program points whose step starts the connection's reader task. */
  predicate SpawnsReader(s: State, task: Task) {
    task.pc.SpawnTasks? || (task.pc.IndexGroup? && task.who.group in s.sndDb)
  }

  /** One step of task `t`: the code between two points where other tasks may run. */
  ghost function Step(s: State, t: TaskId): State
    requires CanStep(s, t)
  {
    var task := s.tasks[t];
    var task' := task.(pc := NextPc(s, task));
    var reader := Task(task.who, task.registration, Spawned);
    var spawned := if SpawnsReader(s, task) then map[Reader(t.n) := reader] else map[];
    State(
      s.tasks[t := task'] + spawned,
      NextQueues(s, t, task, task'),
      if task.pc.InsertWriter? then s.writerDb + {task.who} else s.writerDb,
      NextSndDb(s, t, task),
      s.phaseOver)
  }

  datatype Action =
    | Arrive(n: nat, who: Handshake)
    | EndPhase
    | StepOf(t: TaskId)
    | Cancel(t: TaskId)

  /** A reader is cancelled, at any await, when the sender of the same client signals a dead socket. */
  predicate Cancellable(task: Task) {
    task.pc.Spawned? || task.pc.Parked? || task.pc.Notified? || task.pc.AwaitTable? || task.pc.Routing?
  }

  ghost predicate Enabled(s: State, a: Action) {
    match a
    case Arrive(n, _) => Conn(n) !in s.tasks && Reader(n) !in s.tasks
    case EndPhase => !s.phaseOver
    case StepOf(t) => CanStep(s, t)
    case Cancel(t) => t in s.tasks && Cancellable(s.tasks[t])
  }

  /** The broadcast at the end of the registration phase wakes the readers that are parked at that moment. */
  function Wake(task: Task): Task {
    if task.pc.Parked? then task.(pc := Notified) else task
  }

  ghost function Next(s: State, a: Action): State
    requires Enabled(s, a)
  {
    match a
    case Arrive(n, who) => s.(tasks := s.tasks[Conn(n) := Task(who, !s.phaseOver, Start)])
    case EndPhase => s.(tasks := map u <- s.tasks :: Wake(s.tasks[u]), phaseOver := true)
    case StepOf(t) => Step(s, t)
    case Cancel(t) =>
      var claim := Wants(s.tasks[t]);
      s.(tasks := s.tasks[t := s.tasks[t].(pc := Terminated)],
         queues := if claim.Claim? then s.queues[claim.lock := Without(Queue(s, claim.lock), t)] else s.queues)
  }

  const Initial := State(map[], map[], {}, map[], false)

  /** Applying `actions` in order leads from `s` to `s'`. */
  ghost predicate Runs(s: State, actions: seq<Action>, s': State)
    decreases |actions|
  {
    if actions == [] then s == s'
    else Enabled(s, actions[0]) && Runs(Next(s, actions[0]), actions[1..], s')
  }

  ghost predicate Reachable(s: State) {
    exists actions :: Runs(Initial, actions, s)
  }
}
