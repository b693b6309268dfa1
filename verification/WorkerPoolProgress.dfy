/** Progress of queued tasks, and exactly when the server never dequeues from an empty queue. */
module WorkerPoolProgress {
  import opened Wrappers
  import opened WorkerPool
  import opened WorkerPoolProofs
  import opened WorkerPoolTheorems

  // ---------------------------------------------------------------- progress

  /** How many of its own steps separate a worker from its next dequeue, queue being non-empty. */
  function WorkerDistance(pc: WorkerPc): nat {
    match pc
    case AtTake => 0
    case AtCheck => 1
    case AtLock => 2
    case Woken => 2
    case Asleep => 3
    case AtRelease => 3
    case AtFree(_) => 3
    case AtClose(_) => 4
    case AtRequeue(_) => 4
    case AtRelock(_) => 5
    case AtSend(_) => 6
    case AtRecv(_) => 7
    case AtUnlock(_) => 8
  }

  /** The steps the dispatcher can still take before it accepts again. */
  function MainDistance(m: MainPc): nat {
    match m
    case Creating(_) => 0
    case AtAccept => 0
    case AtSignalUnlock => 1
    case AtSignal => 2
    case AtSignalLock => 3
    case AtInsertUnlock => 4
    case AtInsert(_) => 5
    case AtInsertLock(_) => 6
  }

  function WorkersDistance(ws: seq<WorkerPc>): nat {
    if ws == [] then 0 else WorkersDistance(ws[..|ws| - 1]) + WorkerDistance(ws[|ws| - 1])
  }

  function Potential(s: State): nat { WorkersDistance(s.workers) + MainDistance(s.main) }

  lemma {:induction false} WorkersDistanceMove(ws: seq<WorkerPc>, i: nat, pc: WorkerPc)
    requires i < |ws|
    ensures WorkersDistance(ws[i := pc]) + WorkerDistance(ws[i]) == WorkersDistance(ws) + WorkerDistance(pc)
  {
    var n := |ws| - 1;
    if i < n {
      WorkersDistanceMove(ws[..n], i, pc);
      assert ws[i := pc][..n] == ws[..n][i := pc];
    } else {
      assert ws[i := pc][..n] == ws[..n];
    }
  }

  lemma {:induction false} WorkersDistanceBound(ws: seq<WorkerPc>)
    ensures WorkersDistance(ws) <= 8 * |ws|
  {
    if ws != [] {
      WorkersDistanceBound(ws[..|ws| - 1]);
    }
  }

  lemma WorkerNearer(s: State, s': State, i: nat, w: WorkStep)
    requires i < |s.workers| && s.queue != [] && NextWorker(s, i, w) == Some(s') && s'.taken == s.taken
    ensures s'.main == s.main && |s'.workers| == |s.workers| && s'.workers == s.workers[i := s'.workers[i]]
    ensures WorkerDistance(s'.workers[i]) < WorkerDistance(s.workers[i])
  {
  }

  lemma StepNearer(s: State, s': State, a: Action)
    requires Control(s) && s.queue != [] && Next(s, a) == Some(s') && s'.taken == s.taken && s'.status == Running
    ensures Potential(s') + 1 <= Potential(s) + if a.ByMain? && a.m.Accepted? then 7 else 0
  {
    match a {
      case ByWorker(i, w) =>
        WorkerNearer(s, s', i, w);
        WorkersDistanceMove(s.workers, i, s'.workers[i]);
      case ByMain(m) =>
        if s.main == AtSignal && m.woken.Some? {
          assert s'.workers == s.workers[m.woken.value := Woken];
          WorkersDistanceMove(s.workers, m.woken.value, Woken);
        } else {
          assert s'.workers == s.workers;
        }
    }
  }

  /** A dequeue takes its worker as far from the next one as it can be: 8 steps. */
  lemma DequeueStep(s: State, s': State, a: Action)
    requires s.queue != [] && Next(s, a) == Some(s') && s'.taken != s.taken
    ensures |s'.taken| == |s.taken| + 1 && Potential(s') == Potential(s) + 8 && !a.ByMain?
  {
    var i := a.i;
    assert s.workers[i] == AtTake && s'.workers == s.workers[i := AtUnlock(s.queue[0])];
    WorkersDistanceMove(s.workers, i, AtUnlock(s.queue[0]));
  }

  function Accepts(run: seq<Action>): nat {
    if run == [] then 0
    else Accepts(run[..|run| - 1]) + Bit(run[|run| - 1].ByMain? && run[|run| - 1].m.Accepted?)
  }

  /**
   No starvation of any task: until the task at position p of the queue is taken, a run has at most
   8 steps per worker, 6 of the dispatcher, 9 per task ahead and 7 per connection accepted meanwhile.
   (The tasks taken since are those of the queue in order, so that task is taken when p + 1 are.)
   */
  lemma TaskWaitIsBounded(c: Config, s: State, run: seq<Action>, p: nat)
    requires c.n >= 1 && Reachable(c, s) && p < |s.queue| && Exec(s, run).Some?
    requires |Exec(s, run).value.taken| <= |s.taken| + p && Exec(s, run).value.status == Running
    ensures |run| <= 8 * c.n + 6 + 9 * p + 7 * Accepts(run)
  {
    var start :| Exec(Init(c), start) == Some(s);
    ExecControl(c, start);
    ExecNearer(c, start, s, run, p);
    WorkersDistanceBound(s.workers);
  }

  /** While a task waits, a run without a dequeue is bounded. */
  lemma WaitIsBounded(c: Config, s: State, run: seq<Action>)
    requires c.n >= 1 && Reachable(c, s) && s.queue != [] && Exec(s, run).Some?
    requires Exec(s, run).value.taken == s.taken && Exec(s, run).value.status == Running
    ensures |run| <= 8 * c.n + 6 + 7 * Accepts(run)
  {
    TaskWaitIsBounded(c, s, run, 0);
  }

  /** The task at position p is still queued while at most p tasks have been taken. */
  lemma StillQueued(c: Config, start: seq<Action>, s: State, run: seq<Action>, p: nat)
    requires c.n >= 1 && Exec(Init(c), start) == Some(s) && p < |s.queue| && Exec(s, run).Some?
    requires |Exec(s, run).value.taken| <= |s.taken| + p
    ensures Control(Exec(s, run).value) && Exec(s, run).value.queue != []
  {
    ExecConcat(Init(c), start, run);
    ExecControl(c, start);
    ExecControl(c, start + run);
    PutGrows(s, run);
  }

  lemma {:induction false} ExecNearer(c: Config, start: seq<Action>, s: State, run: seq<Action>, p: nat)
    requires c.n >= 1 && Exec(Init(c), start) == Some(s) && p < |s.queue| && Exec(s, run).Some?
    requires |Exec(s, run).value.taken| <= |s.taken| + p && Exec(s, run).value.status == Running
    ensures |run| + Potential(Exec(s, run).value) <=
            Potential(s) + 7 * Accepts(run) + 9 * (|Exec(s, run).value.taken| - |s.taken|)
  {
    if run != [] {
      var front, last := run[..|run| - 1], run[|run| - 1];
      var mid, end := Exec(s, front).value, Exec(s, run).value;
      HistoriesGrow(mid, end, last);
      ExecNearer(c, start, s, front, p);
      StillQueued(c, start, s, front, p);
      hide Control, Potential;
      if end.taken == mid.taken {
        StepNearer(mid, end, last);
      } else {
        DequeueStep(mid, end, last);
      }
    }
  }

  /** No deadlock: while a task waits, some step other than an accept is enabled. */
  lemma QueuedTaskCanAdvance(c: Config, s: State)
    requires c.n >= 1 && Reachable(c, s) && s.queue != [] && s.status == Running
    ensures exists a :: Next(s, a).Some? && !(a.ByMain? && a.m.Accepted?)
  {
    var start :| Exec(Init(c), start) == Some(s);
    ExecControl(c, start);
    match s.lock {
      case Worker(i) => assert Next(s, ByWorker(i, Go)).Some?;
      case Main => MainCanAdvance(s);
      case Nobody =>
        if i :| 0 <= i < |s.workers| && s.workers[i] != Asleep {
          AwakeWorkerCanAdvance(s, i);
        } else {
          assert Next(s, ByMain(Proceed)).Some?;
        }
    }
  }

  lemma AwakeWorkerCanAdvance(s: State, i: nat)
    requires MutualExclusion(s) && s.lock == Nobody && s.status == Running
    requires i < |s.workers| && s.workers[i] != Asleep
    ensures exists w :: Next(s, ByWorker(i, w)).Some?
  {
    var pc := s.workers[i];
    var w := if pc.AtRecv? then Received(0, false) else if pc.AtSend? then Sent(0) else Go;
    assert Next(s, ByWorker(i, w)).Some?;
  }

  lemma MainCanAdvance(s: State)
    requires MutualExclusion(s) && s.lock == Main && s.status == Running
    ensures exists m :: Next(s, ByMain(m)).Some? && !m.Accepted?
  {
    if s.main == AtSignal && SomeAsleep(s.workers) {
      var i: nat :| i < |s.workers| && s.workers[i] == Asleep;
      assert Next(s, ByMain(Signal(Some(i)))).Some?;
    } else {
      var m := if s.main.AtInsert? then Allocated(false) else if s.main.AtSignal? then Signal(None) else Proceed;
      assert Next(s, ByMain(m)).Some?;
    }
  }

  // ---------------------------------------------------------------- dequeue safety

  function Spawns(k: nat): seq<Action> {
    if k == 0 then [] else Spawns(k - 1) + [ByMain(Created(true))]
  }

  function Idle(k: nat): seq<WorkerPc> {
    if k == 0 then [] else Idle(k - 1) + [AtLock]
  }

  lemma {:induction false} IdleLength(k: nat)
    ensures |Idle(k)| == k
  {
    if k > 0 {
      IdleLength(k - 1);
    }
  }

  lemma {:induction false} IdleFirst(k: nat)
    requires k > 0
    ensures Idle(k) != [] && Idle(k)[0] == AtLock
  {
    if k > 1 {
      IdleFirst(k - 1);
    }
  }

  /** The first k workers have been created and have not moved. */
  function Spawned(c: Config, k: nat): State
    requires k <= c.n
  {
    Init(c).(workers := Idle(k), main := if k == c.n then AtAccept else Creating(c.n - k))
  }

  lemma SpawnOne(c: Config, k: nat)
    requires 0 < k <= c.n
    ensures Next(Spawned(c, k - 1), ByMain(Created(true))) == Some(Spawned(c, k))
  {
  }

  lemma ExecAppend(s: State, run: seq<Action>, a: Action)
    requires Exec(s, run).Some?
    ensures Exec(s, run + [a]) == Next(Exec(s, run).value, a)
  {
    assert (run + [a])[..|run|] == run;
  }

  lemma {:induction false} SpawnAll(c: Config, k: nat)
    requires c.n >= 1 && k <= c.n
    ensures Exec(Init(c), Spawns(k)) == Some(Spawned(c, k))
  {
    SpawnNone(c);
    hide Next, Exec, Init, Idle, Spawned;
    if k > 0 {
      SpawnAll(c, k - 1);
      SpawnOne(c, k);
      ExecAppend(Init(c), Spawns(k - 1), ByMain(Created(true)));
    }
  }

  lemma SpawnNone(c: Config)
    requires c.n >= 1
    ensures Exec(Init(c), Spawns(0)) == Some(Spawned(c, 0))
  {
    assert Init(c) == Spawned(c, 0);
  }

  /** A state of the losing run: only worker 0 and the dispatcher have moved. */
  function Scene(c: Config, fd: int, main: MainPc, w0: WorkerPc, lock: Holder, served: bool, closed: bool, freed: bool): State
    requires c.n >= 1
  {
    IdleLength(c.n);
    var t := Task(0, fd);
    State(c, Running, main, Idle(c.n)[0 := w0], lock, if served then [] else [t],
          if closed then {c.listener} else {c.listener, fd},
          [t], if freed then [t] else [], [t], if served then [t] else [], if closed then [t] else [])
  }

  lemma Continue(c: Config, s: State, a: Action, s': State)
    requires Reachable(c, s) && Next(s, a) == Some(s')
    ensures Reachable(c, s')
  {
    var run :| Exec(Init(c), run) == Some(s);
    assert (run + [a])[..|run|] == run;
    assert Exec(Init(c), run + [a]) == Some(s');
  }

  lemma SceneMove(c: Config, s: State, w: WorkStep, s': State)
    requires c.n >= 1 && |s.workers| > 0 && |s'.workers| > 0 && s.status == Running
    requires NextWorker(s, 0, w).Some? && NextWorker(s, 0, w).value.(workers := s'.workers) == s'
    requires NextWorker(s, 0, w).value.workers == s.workers[0 := s'.workers[0]]
    requires s.workers == Idle(c.n)[0 := s.workers[0]] && s'.workers == Idle(c.n)[0 := s'.workers[0]]
    ensures Next(s, ByWorker(0, w)) == Some(s')
  {
    assert s.workers[0 := s'.workers[0]] == s'.workers;
  }

  /** The dispatcher has accepted a connection; no worker has moved. */
  lemma ReachAccepted(c: Config, fd: int)
    requires c.n >= 1 && fd >= 0 && fd != c.listener
    ensures Reachable(c, State(c, Running, AtInsertLock(fd), Idle(c.n), Nobody, [], {c.listener, fd}, [], [], [], [], []))
  {
    SpawnAll(c, c.n);
    var s0 := Init(c).(workers := Idle(c.n), main := AtAccept);
    assert s0.open + {fd} == {c.listener, fd};
    Continue(c, s0, ByMain(Accepted(fd)), s0.(open := {c.listener, fd}, main := AtInsertLock(fd)));
  }

  /** It has enqueued the connection and is about to signal. */
  lemma ReachInserted(c: Config, fd: int)
    requires c.n >= 1 && fd >= 0 && fd != c.listener
    ensures Reachable(c, Scene(c, fd, AtSignalLock, AtLock, Nobody, false, false, false))
  {
    ReachAccepted(c, fd);
    var t := Task(0, fd);
    var s1 := State(c, Running, AtInsertLock(fd), Idle(c.n), Nobody, [], {c.listener, fd}, [], [], [], [], []);
    var s2 := s1.(lock := Main, main := AtInsert(fd));
    Continue(c, s1, ByMain(Proceed), s2);
    var s3 := s2.(made := [t], queue := [t], put := [t], main := AtInsertUnlock);
    assert Next(s2, ByMain(Allocated(true))).value == s3;
    Continue(c, s2, ByMain(Allocated(true)), s3);
    Continue(c, s3, ByMain(Proceed), s3.(lock := Nobody, main := AtSignalLock));
    IdleLength(c.n);
    IdleFirst(c.n);
    assert Idle(c.n)[0 := AtLock] == Idle(c.n);
  }

  lemma TakeMoves(c: Config, fd: int)
    requires c.n >= 1
    ensures Next(Scene(c, fd, AtSignalLock, AtLock, Nobody, false, false, false), ByWorker(0, Go)) ==
            Some(Scene(c, fd, AtSignalLock, AtCheck, Worker(0), false, false, false))
    ensures Next(Scene(c, fd, AtSignalLock, AtCheck, Worker(0), false, false, false), ByWorker(0, Go)) ==
            Some(Scene(c, fd, AtSignalLock, AtTake, Worker(0), false, false, false))
    ensures Next(Scene(c, fd, AtSignalLock, AtTake, Worker(0), false, false, false), ByWorker(0, Go)) ==
            Some(Scene(c, fd, AtSignalLock, AtUnlock(Task(0, fd)), Worker(0), true, false, false))
  {
    IdleLength(c.n);
    var s0 := Scene(c, fd, AtSignalLock, AtLock, Nobody, false, false, false);
    var s1 := Scene(c, fd, AtSignalLock, AtCheck, Worker(0), false, false, false);
    var s2 := Scene(c, fd, AtSignalLock, AtTake, Worker(0), false, false, false);
    SceneMove(c, s0, Go, s1);
    SceneMove(c, s1, Go, s2);
    assert s2.queue == [Task(0, fd)] && s2.queue[1..] == [];
    SceneMove(c, s2, Go, Scene(c, fd, AtSignalLock, AtUnlock(Task(0, fd)), Worker(0), true, false, false));
  }

  lemma ServeMoves(c: Config, fd: int)
    requires c.n >= 1 && fd != c.listener
    ensures Next(Scene(c, fd, AtSignalLock, AtUnlock(Task(0, fd)), Worker(0), true, false, false), ByWorker(0, Go)) ==
            Some(Scene(c, fd, AtSignalLock, AtRecv(Task(0, fd)), Nobody, true, false, false))
    ensures Next(Scene(c, fd, AtSignalLock, AtRecv(Task(0, fd)), Nobody, true, false, false), ByWorker(0, Received(0, false))) ==
            Some(Scene(c, fd, AtSignalLock, AtClose(Task(0, fd)), Nobody, true, false, false))
    ensures Next(Scene(c, fd, AtSignalLock, AtClose(Task(0, fd)), Nobody, true, false, false), ByWorker(0, Go)) ==
            Some(Scene(c, fd, AtSignalLock, AtFree(Task(0, fd)), Nobody, true, true, false))
  {
    IdleLength(c.n);
    var t := Task(0, fd);
    var s1 := Scene(c, fd, AtSignalLock, AtRecv(t), Nobody, true, false, false);
    var s2 := Scene(c, fd, AtSignalLock, AtClose(t), Nobody, true, false, false);
    SceneMove(c, Scene(c, fd, AtSignalLock, AtUnlock(t), Worker(0), true, false, false), Go, s1);
    SceneMove(c, s1, Received(0, false), s2);
    assert {c.listener, fd} - {fd} == {c.listener};
    SceneMove(c, s2, Go, Scene(c, fd, AtSignalLock, AtFree(t), Nobody, true, true, false));
  }

  lemma SleepMoves(c: Config, fd: int)
    requires c.n >= 1
    ensures Next(Scene(c, fd, AtSignalLock, AtFree(Task(0, fd)), Nobody, true, true, false), ByWorker(0, Go)) ==
            Some(Scene(c, fd, AtSignalLock, AtLock, Nobody, true, true, true))
    ensures Next(Scene(c, fd, AtSignalLock, AtLock, Nobody, true, true, true), ByWorker(0, Go)) ==
            Some(Scene(c, fd, AtSignalLock, AtCheck, Worker(0), true, true, true))
    ensures Next(Scene(c, fd, AtSignalLock, AtCheck, Worker(0), true, true, true), ByWorker(0, Go)) ==
            Some(Scene(c, fd, AtSignalLock, Asleep, Nobody, true, true, true))
  {
    IdleLength(c.n);
    var s1 := Scene(c, fd, AtSignalLock, AtLock, Nobody, true, true, true);
    var s2 := Scene(c, fd, AtSignalLock, AtCheck, Worker(0), true, true, true);
    SceneMove(c, Scene(c, fd, AtSignalLock, AtFree(Task(0, fd)), Nobody, true, true, false), Go, s1);
    SceneMove(c, s1, Go, s2);
    SceneMove(c, s2, Go, Scene(c, fd, AtSignalLock, Asleep, Nobody, true, true, true));
  }

  lemma SignalMoves(c: Config, fd: int)
    requires c.n >= 1
    ensures Next(Scene(c, fd, AtSignalLock, Asleep, Nobody, true, true, true), ByMain(Proceed)) ==
            Some(Scene(c, fd, AtSignal, Asleep, Main, true, true, true))
    ensures Next(Scene(c, fd, AtSignal, Asleep, Main, true, true, true), ByMain(Signal(Some(0)))) ==
            Some(Scene(c, fd, AtSignalUnlock, Woken, Main, true, true, true))
    ensures Next(Scene(c, fd, AtSignalUnlock, Woken, Main, true, true, true), ByMain(Proceed)) ==
            Some(Scene(c, fd, AtAccept, Woken, Nobody, true, true, true))
    ensures !c.recheck ==>
              Next(Scene(c, fd, AtAccept, Woken, Nobody, true, true, true), ByWorker(0, Go)) ==
              Some(Scene(c, fd, AtAccept, AtTake, Worker(0), true, true, true))
  {
    IdleLength(c.n);
    assert Idle(c.n)[0 := Asleep][0 := Woken] == Idle(c.n)[0 := Woken];
    var s3 := Scene(c, fd, AtAccept, Woken, Nobody, true, true, true);
    if !c.recheck {
      SceneMove(c, s3, Go, Scene(c, fd, AtAccept, AtTake, Worker(0), true, true, true));
    }
  }

  /** Worker 0 takes the task before the signal; the peer hangs up, so it closes and frees the task. */
  lemma ReachFreed(c: Config, fd: int)
    requires c.n >= 1 && fd >= 0 && fd != c.listener
    ensures Reachable(c, Scene(c, fd, AtSignalLock, AtFree(Task(0, fd)), Nobody, true, true, false))
  {
    ReachInserted(c, fd);
    TakeMoves(c, fd);
    ServeMoves(c, fd);
    var t := Task(0, fd);
    var s1 := Scene(c, fd, AtSignalLock, AtCheck, Worker(0), false, false, false);
    var s2 := Scene(c, fd, AtSignalLock, AtTake, Worker(0), false, false, false);
    var s3 := Scene(c, fd, AtSignalLock, AtUnlock(t), Worker(0), true, false, false);
    var s4 := Scene(c, fd, AtSignalLock, AtRecv(t), Nobody, true, false, false);
    var s5 := Scene(c, fd, AtSignalLock, AtClose(t), Nobody, true, false, false);
    Continue(c, Scene(c, fd, AtSignalLock, AtLock, Nobody, false, false, false), ByWorker(0, Go), s1);
    Continue(c, s1, ByWorker(0, Go), s2);
    Continue(c, s2, ByWorker(0, Go), s3);
    Continue(c, s3, ByWorker(0, Go), s4);
    Continue(c, s4, ByWorker(0, Received(0, false)), s5);
    Continue(c, s5, ByWorker(0, Go), Scene(c, fd, AtSignalLock, AtFree(t), Nobody, true, true, false));
  }

  /** It goes to sleep on the empty queue, and only then the dispatcher signals. */
  lemma ReachWoken(c: Config, fd: int)
    requires c.n >= 1 && fd >= 0 && fd != c.listener
    ensures Reachable(c, Scene(c, fd, AtAccept, Woken, Nobody, true, true, true))
  {
    ReachFreed(c, fd);
    SleepMoves(c, fd);
    SignalMoves(c, fd);
    var s1 := Scene(c, fd, AtSignalLock, AtLock, Nobody, true, true, true);
    var s2 := Scene(c, fd, AtSignalLock, AtCheck, Worker(0), true, true, true);
    var s3 := Scene(c, fd, AtSignalLock, Asleep, Nobody, true, true, true);
    var s4 := Scene(c, fd, AtSignal, Asleep, Main, true, true, true);
    var s5 := Scene(c, fd, AtSignalUnlock, Woken, Main, true, true, true);
    Continue(c, Scene(c, fd, AtSignalLock, AtFree(Task(0, fd)), Nobody, true, true, false), ByWorker(0, Go), s1);
    Continue(c, s1, ByWorker(0, Go), s2);
    Continue(c, s2, ByWorker(0, Go), s3);
    Continue(c, s3, ByMain(Proceed), s4);
    Continue(c, s4, ByMain(Signal(Some(0))), s5);
    Continue(c, s5, ByMain(Proceed), Scene(c, fd, AtAccept, Woken, Nobody, true, true, true));
  }

  /** With the `if` of the code worker 0 then dequeues from the empty queue. */
  lemma EmptyDequeueReached(c: Config) returns (s: State)
    requires c.n >= 1 && !c.recheck
    ensures Reachable(c, s) && EmptyDequeue(s)
    ensures exists s' :: Next(s, ByWorker(0, Go)) == Some(s') && s'.status == Crashed
  {
    var fd := if c.listener == 0 then 1 else 0;
    ReachWoken(c, fd);
    SignalMoves(c, fd);
    IdleLength(c.n);
    s := Scene(c, fd, AtAccept, AtTake, Worker(0), true, true, true);
    Continue(c, Scene(c, fd, AtAccept, Woken, Nobody, true, true, true), ByWorker(0, Go), s);
    assert s.workers[0] == AtTake;
    assert Next(s, ByWorker(0, Go)) == Some(s.(status := Crashed));
  }

  /**
   Dequeue safety, exactly: no run ever dequeues from an empty queue if and only if
   the wait is re-tested, whatever the pool size and with or without spurious wakeups.
   */
  lemma SafeExactlyWithRecheck(c: Config)
    requires c.n >= 1
    ensures (forall s :: Reachable(c, s) ==> !EmptyDequeue(s)) <==> c.recheck
  {
    if c.recheck {
      forall s | Reachable(c, s) ensures !EmptyDequeue(s) {
        var run :| Exec(Init(c), run) == Some(s);
        ExecControl(c, run);
      }
    } else {
      var s := EmptyDequeueReached(c);
    }
  }
}
