/**
 The dispatcher/worker server: one dispatcher and n workers over one mutex, one
 condition variable and one FIFO of heap-allocated tasks, as an interleaving of
 atomic steps.  Every lock, unlock, wait, dequeue, recv, send, close and free is
 its own step; any thread may move next.
 */
module WorkerPool {
  import opened Wrappers

  /** `recheck` is true for a wait re-tested in a loop and false for the `if` of the code. */
  datatype Config = Config(n: nat, recheck: bool, spurious: bool, listener: int)

  /** A malloc'ed task: its identity and the descriptor it carries. */
  datatype Task = Task(id: nat, fd: int)

  datatype WorkerPc =
    | AtLock
    | AtCheck            // holds the mutex
    | Asleep             // in pthread_cond_wait, mutex released
    | Woken              // in pthread_cond_wait, waiting for the mutex
    | AtTake             // holds the mutex
    | AtUnlock(t: Task)  // holds the mutex
    | AtRecv(t: Task)
    | AtSend(t: Task)
    | AtClose(t: Task)
    | AtFree(t: Task)
    | AtRelock(t: Task)
    | AtRequeue(t: Task) // holds the mutex
    | AtRelease          // holds the mutex

  datatype MainPc =
    | Creating(left: nat)
    | AtAccept
    | AtInsertLock(fd: int)
    | AtInsert(fd: int)  // holds the mutex
    | AtInsertUnlock     // holds the mutex
    | AtSignalLock
    | AtSignal           // holds the mutex
    | AtSignalUnlock     // holds the mutex

  datatype Holder = Nobody | Main | Worker(i: nat)

  datatype Status = Running | Exited | Crashed

  /** `made`, `freed`, `put`, `taken` and `closed` are histories; no step reads them. */
  datatype State = State(
    cfg: Config, status: Status, main: MainPc, workers: seq<WorkerPc>, lock: Holder,
    queue: seq<Task>, open: set<int>,
    made: seq<Task>, freed: seq<Task>, put: seq<Task>, taken: seq<Task>, closed: seq<Task>)

  /** The choices of the environment and of the scheduler. */
  datatype MainStep =
    | Created(ok: bool) | Accepted(fd: int) | Allocated(ok: bool) | Signal(woken: Option<nat>) | Proceed
  datatype WorkStep =
    | Go | Received(n: int, ping: bool) | Sent(n: int) | Spurious
  datatype Action = ByMain(m: MainStep) | ByWorker(i: nat, w: WorkStep)

  function Init(c: Config): State {
    State(c, Running, if c.n == 0 then AtAccept else Creating(c.n), [], Nobody, [], {c.listener}, [], [], [], [], [])
  }

  predicate SomeAsleep(ws: seq<WorkerPc>) { exists i :: 0 <= i < |ws| && ws[i] == Asleep }

  function NextMain(s: State, m: MainStep): Option<State> {
    match (s.main, m)
    case (Creating(k), Created(ok)) =>
      if k == 0 then None
      else if !ok then Some(s.(status := Exited))
      else Some(s.(workers := s.workers + [AtLock], main := if k == 1 then AtAccept else Creating(k - 1)))
    case (AtAccept, Accepted(fd)) =>
      if fd == -1 then Some(s.(status := Exited))
      else if fd >= 0 && fd !in s.open then Some(s.(open := s.open + {fd}, main := AtInsertLock(fd)))
      else None
    case (AtInsertLock(fd), Proceed) =>
      if s.lock == Nobody then Some(s.(lock := Main, main := AtInsert(fd))) else None
    case (AtInsert(fd), Allocated(ok)) =>
      var t := Task(|s.made|, fd);
      if ok then Some(s.(made := s.made + [t], queue := s.queue + [t], put := s.put + [t], main := AtInsertUnlock))
      else Some(s.(status := Exited))
    case (AtInsertUnlock, Proceed) => Some(s.(lock := Nobody, main := AtSignalLock))
    case (AtSignalLock, Proceed) =>
      if s.lock == Nobody then Some(s.(lock := Main, main := AtSignal)) else None
    case (AtSignal, Signal(woken)) =>
      if woken.None? then (if SomeAsleep(s.workers) then None else Some(s.(main := AtSignalUnlock)))
      else if woken.value < |s.workers| && s.workers[woken.value] == Asleep then
        Some(s.(workers := s.workers[woken.value := Woken], main := AtSignalUnlock))
      else None
    case (AtSignalUnlock, Proceed) => Some(s.(lock := Nobody, main := AtAccept))
    case _ => None
  }

  function Move(s: State, i: nat, pc: WorkerPc): State
    requires i < |s.workers|
  {
    s.(workers := s.workers[i := pc])
  }

  function NextWorker(s: State, i: nat, w: WorkStep): Option<State>
    requires i < |s.workers|
  {
    match (s.workers[i], w)
    case (AtLock, Go) =>
      if s.lock == Nobody then Some(Move(s, i, AtCheck).(lock := Worker(i))) else None
    case (AtCheck, Go) =>
      if s.queue == [] then Some(Move(s, i, Asleep).(lock := Nobody)) else Some(Move(s, i, AtTake))
    case (Asleep, Spurious) =>
      if s.cfg.spurious then Some(Move(s, i, Woken)) else None
    case (Woken, Go) =>
      if s.lock == Nobody then Some(Move(s, i, if s.cfg.recheck then AtCheck else AtTake).(lock := Worker(i))) else None
    case (AtTake, Go) =>
      if s.queue == [] then Some(s.(status := Crashed))
      else Some(Move(s, i, AtUnlock(s.queue[0])).(queue := s.queue[1..], taken := s.taken + [s.queue[0]]))
    case (AtUnlock(t), Go) => Some(Move(s, i, AtRecv(t)).(lock := Nobody))
    case (AtRecv(t), Received(n, ping)) =>
      Some(Move(s, i, if n <= 0 then AtClose(t) else if ping then AtSend(t) else AtRelock(t)))
    case (AtSend(t), Sent(n)) => Some(Move(s, i, if n > 0 then AtRelock(t) else AtClose(t)))
    case (AtClose(t), Go) => Some(Move(s, i, AtFree(t)).(open := s.open - {t.fd}, closed := s.closed + [t]))
    case (AtFree(t), Go) => Some(Move(s, i, AtLock).(freed := s.freed + [t]))
    case (AtRelock(t), Go) =>
      if s.lock == Nobody then Some(Move(s, i, AtRequeue(t)).(lock := Worker(i))) else None
    case (AtRequeue(t), Go) => Some(Move(s, i, AtRelease).(queue := s.queue + [t], put := s.put + [t]))
    case (AtRelease, Go) => Some(Move(s, i, AtLock).(lock := Nobody))
    case _ => None
  }

  /** One atomic step; None when the action is not enabled. */
  function Next(s: State, a: Action): Option<State> {
    if s.status != Running then None else
    match a
    case ByMain(m) => NextMain(s, m)
    case ByWorker(i, w) => if i < |s.workers| then NextWorker(s, i, w) else None
  }

  /** The state after a run, or None if some action was not enabled when its turn came. */
  function Exec(s: State, run: seq<Action>): Option<State> {
    if run == [] then Some(s) else
    match Exec(s, run[..|run| - 1])
    case None => None
    case Some(mid) => Next(mid, run[|run| - 1])
  }

  ghost predicate Reachable(c: Config, s: State) {
    exists run :: Exec(Init(c), run) == Some(s)
  }

  // ---------------------------------------------------------------- ownership counts

  predicate HasTask(pc: WorkerPc) {
    pc.AtUnlock? || pc.AtRecv? || pc.AtSend? || pc.AtClose? || pc.AtFree? || pc.AtRelock? || pc.AtRequeue?
  }

  /** What is counted: one task until it is freed, all live tasks carrying one descriptor, or one task until it is closed. */
  datatype Key = ForTask(t: Task) | ForFd(fd: int) | ToClose(t: Task)

  predicate Matches(t: Task, k: Key) { match k case ForTask(u) => t == u case ForFd(fd) => t.fd == fd case ToClose(u) => t == u }

  function InSeq(q: seq<Task>, k: Key): nat {
    if q == [] then 0 else InSeq(q[..|q| - 1], k) + Bit(Matches(q[|q| - 1], k))
  }

  /** A worker about to free its task no longer owns the descriptor: it has closed it. */
  predicate Owns(pc: WorkerPc, k: Key) { HasTask(pc) && Matches(pc.t, k) && (k.ForTask? || !pc.AtFree?) }

  function InHands(ws: seq<WorkerPc>, k: Key): nat {
    if ws == [] then 0 else InHands(ws[..|ws| - 1], k) + Bit(Owns(ws[|ws| - 1], k))
  }

  /** The owners of k outside the queue and the workers. */
  function Elsewhere(s: State, k: Key): nat {
    match k
    case ForTask(_) => InSeq(s.freed, k)
    case ToClose(_) => InSeq(s.closed, k)
    case ForFd(fd) => Bit(fd == s.cfg.listener) + Bit((s.main.AtInsertLock? || s.main.AtInsert?) && s.main.fd == fd)
  }

  predicate Exists(s: State, k: Key) {
    match k
    case ForTask(t) => t.id < |s.made| && s.made[t.id] == t
    case ForFd(fd) => fd in s.open
    case ToClose(t) => t.id < |s.made| && s.made[t.id] == t
  }

  // ---------------------------------------------------------------- the invariant

  predicate Critical(pc: WorkerPc) {
    pc.AtCheck? || pc.AtTake? || pc.AtUnlock? || pc.AtRequeue? || pc.AtRelease?
  }

  predicate MainCritical(m: MainPc) {
    m.AtInsert? || m.AtInsertUnlock? || m.AtSignal? || m.AtSignalUnlock?
  }

  predicate MutualExclusion(s: State) {
    && (MainCritical(s.main) <==> s.lock == Main)
    && (forall i :: 0 <= i < |s.workers| ==> (Critical(s.workers[i]) <==> s.lock == Worker(i)))
    && (s.lock.Worker? ==> s.lock.i < |s.workers|)
  }

  /** While threads are still being created nothing has been accepted. */
  predicate Sized(s: State) {
    && |s.workers| + (if s.main.Creating? then s.main.left else 0) == s.cfg.n
    && (s.main.Creating? ==>
          && s.main.left > 0 && s.queue == []
          && forall i :: 0 <= i < |s.workers| ==> !HasTask(s.workers[i]))
  }

  /**
   A task ever made is in exactly one place: queued once, held by one worker, or
   freed once; and it is queued, served, or closed once; an open descriptor belongs to exactly one of the listener, the
   connection just accepted, or one live task.
   */
  predicate Conserved(s: State, k: Key) {
    InSeq(s.queue, k) + InHands(s.workers, k) + Elsewhere(s, k) == Bit(Exists(s, k))
  }

  predicate Fifo(s: State) { s.put == s.taken + s.queue }

  predicate SomeAwake(ws: seq<WorkerPc>) { exists i :: 0 <= i < |ws| && ws[i] != Asleep }

  predicate SignalDue(m: MainPc) { m.AtInsertUnlock? || m.AtSignalLock? || m.AtSignal? }

  predicate NoLostWakeup(s: State) {
    s.queue != [] ==> SomeAwake(s.workers) || SignalDue(s.main)
  }

  /** The step about to be taken dereferences the head of an empty queue. */
  predicate EmptyDequeue(s: State) {
    s.status == Running && s.queue == [] && exists i :: 0 <= i < |s.workers| && s.workers[i] == AtTake
  }

  predicate TakeSafe(s: State) {
    s.cfg.recheck ==>
      && s.status != Crashed
      && (s.queue == [] ==> forall i :: 0 <= i < |s.workers| ==> s.workers[i] != AtTake)
  }

  predicate Control(s: State) {
    s.cfg.n >= 1 && Sized(s) && MutualExclusion(s) && Fifo(s) && NoLostWakeup(s) && TakeSafe(s)
  }
}
