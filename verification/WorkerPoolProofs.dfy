/** What every step of the dispatcher/worker server keeps, and what follows for whole runs. */
module WorkerPoolProofs {
  import opened Wrappers
  import opened WorkerPool

  // ---------------------------------------------------------------- counts under an update

  lemma {:induction false} InHandsMove(ws: seq<WorkerPc>, i: nat, pc: WorkerPc, k: Key)
    requires i < |ws|
    ensures InHands(ws[i := pc], k) + Bit(Owns(ws[i], k)) == InHands(ws, k) + Bit(Owns(pc, k))
  {
    var n := |ws| - 1;
    if i < n {
      InHandsMove(ws[..n], i, pc, k);
      assert ws[i := pc][..n] == ws[..n][i := pc];
    } else {
      assert ws[i := pc][..n] == ws[..n];
    }
  }

  lemma InSeqAppend(q: seq<Task>, t: Task, k: Key)
    ensures InSeq(q + [t], k) == InSeq(q, k) + Bit(Matches(t, k))
  {
    assert (q + [t])[..|q|] == q;
  }

  lemma {:induction false} InSeqHead(q: seq<Task>, k: Key)
    requires q != []
    ensures InSeq(q, k) == Bit(Matches(q[0], k)) + InSeq(q[1..], k)
  {
    var n := |q| - 1;
    if n > 0 {
      InSeqHead(q[..n], k);
      assert q[..n][1..] == q[1..][..n - 1];
    }
  }

  // ---------------------------------------------------------------- a worker's step

  /** A worker without a task does not get one from an empty queue, nor puts one there. */
  lemma WorkerMoveIdle(s: State, s': State, i: nat, w: WorkStep)
    requires i < |s.workers| && NextWorker(s, i, w) == Some(s')
    ensures |s'.workers| == |s.workers| && s'.workers == s.workers[i := s'.workers[i]]
    ensures s'.main == s.main && s'.cfg == s.cfg
    ensures s.queue == [] && !HasTask(s.workers[i]) ==> s'.queue == [] && !HasTask(s'.workers[i])
  {
  }

  lemma WorkerMoveSized(s: State, s': State, i: nat, w: WorkStep)
    requires Sized(s) && i < |s.workers| && NextWorker(s, i, w) == Some(s')
    ensures Sized(s')
  {
    WorkerMoveIdle(s, s', i, w);
    hide NextWorker;
  }

  lemma WorkerMoveLock(s: State, s': State, i: nat, w: WorkStep)
    requires MutualExclusion(s) && i < |s.workers| && NextWorker(s, i, w) == Some(s')
    ensures MutualExclusion(s')
  {
  }

  lemma WorkerMoveTake(s: State, s': State, i: nat, w: WorkStep)
    requires MutualExclusion(s) && TakeSafe(s) && i < |s.workers| && NextWorker(s, i, w) == Some(s')
    ensures TakeSafe(s')
  {
    if s'.cfg.recheck && s'.queue == [] {
      forall j | 0 <= j < |s'.workers| ensures s'.workers[j] != AtTake {
        assert Critical(s.workers[j]) <==> s.lock == Worker(j);
        assert Critical(s.workers[i]) <==> s.lock == Worker(i);
      }
    }
  }

  lemma WorkerMoveFifo(s: State, s': State, i: nat, w: WorkStep)
    requires Fifo(s) && i < |s.workers| && NextWorker(s, i, w) == Some(s')
    ensures Fifo(s')
  {
  }

  lemma WorkerMoveAwake(s: State, s': State, i: nat, w: WorkStep)
    requires NoLostWakeup(s) && i < |s.workers| && NextWorker(s, i, w) == Some(s')
    ensures NoLostWakeup(s')
  {
    if s'.queue != [] {
      assert s'.workers[i] != Asleep;
    }
  }

  predicate MovesTask(pc: WorkerPc) { pc.AtTake? || pc.AtRequeue? || pc.AtClose? || pc.AtFree? }

  lemma WorkerMoveQuiet(s: State, s': State, i: nat, w: WorkStep)
    requires i < |s.workers| && NextWorker(s, i, w) == Some(s') && !MovesTask(s.workers[i])
    ensures |s'.workers| == |s.workers| && s'.workers == s.workers[i := s'.workers[i]]
    ensures s'.queue == s.queue && s'.open == s.open && s'.freed == s.freed && s'.made == s.made && s'.closed == s.closed
    ensures s'.main == s.main && s'.cfg == s.cfg
    ensures HasTask(s'.workers[i]) == HasTask(s.workers[i]) && !s'.workers[i].AtFree?
    ensures HasTask(s.workers[i]) ==> s'.workers[i].t == s.workers[i].t
  {
  }

  /** A step that moves a task, case by case. */
  lemma WorkerMoveTask(s: State, s': State, i: nat, w: WorkStep)
    requires i < |s.workers| && NextWorker(s, i, w) == Some(s') && MovesTask(s.workers[i])
    ensures |s'.workers| == |s.workers| && s'.workers == s.workers[i := s'.workers[i]]
    ensures s'.main == s.main && s'.cfg == s.cfg && s'.made == s.made
    ensures s.workers[i].AtFree? || s'.freed == s.freed
    ensures s.workers[i].AtClose? || (s'.open == s.open && s'.closed == s.closed)
    ensures match s.workers[i]
            case AtTake =>
              if s.queue == [] then s'.queue == s.queue && s'.workers == s.workers
              else s'.queue == s.queue[1..] && s'.workers[i] == AtUnlock(s.queue[0])
            case AtRequeue(t) => s'.queue == s.queue + [t] && s'.workers[i] == AtRelease
            case AtFree(t) => s'.queue == s.queue && s'.workers[i] == AtLock && s'.freed == s.freed + [t]
            case AtClose(t) =>
              && s'.queue == s.queue && s'.workers[i] == AtFree(t)
              && s'.open == s.open - {t.fd} && s'.closed == s.closed + [t]
            case _ => true
  {
  }

  /** The owners of k but for the other workers, less whether k exists. */
  function Balance(s: State, i: nat, k: Key): int
    requires i < |s.workers|
  {
    InSeq(s.queue, k) + Bit(Owns(s.workers[i], k)) + Elsewhere(s, k) - Bit(Exists(s, k))
  }

  predicate SameRest(s: State, s': State) { s'.main == s.main && s'.cfg == s.cfg && s'.made == s.made }

  lemma TakeBalanced(s: State, s': State, i: nat, k: Key)
    requires SameRest(s, s') && i < |s.workers| == |s'.workers|
    requires s'.freed == s.freed && s'.open == s.open && s'.closed == s.closed
    requires s.workers[i] == AtTake && s.queue != [] && s'.queue == s.queue[1..] && s'.workers[i] == AtUnlock(s.queue[0])
    ensures Balance(s', i, k) == Balance(s, i, k)
  {
    hide InSeq;
    InSeqHead(s.queue, k);
  }

  lemma RequeueBalanced(s: State, s': State, i: nat, t: Task, k: Key)
    requires SameRest(s, s') && i < |s.workers| == |s'.workers|
    requires s'.freed == s.freed && s'.open == s.open && s'.closed == s.closed
    requires s.workers[i] == AtRequeue(t) && s'.queue == s.queue + [t] && s'.workers[i] == AtRelease
    ensures Balance(s', i, k) == Balance(s, i, k)
  {
    hide InSeq;
    InSeqAppend(s.queue, t, k);
  }

  lemma FreeBalanced(s: State, s': State, i: nat, t: Task, k: Key)
    requires SameRest(s, s') && i < |s.workers| == |s'.workers| && s'.open == s.open && s'.closed == s.closed
    requires s.workers[i] == AtFree(t) && s'.queue == s.queue && s'.workers[i] == AtLock && s'.freed == s.freed + [t]
    ensures Balance(s', i, k) == Balance(s, i, k)
  {
    hide InSeq;
    InSeqAppend(s.freed, t, k);
  }

  lemma CloseBalanced(s: State, s': State, i: nat, t: Task, k: Key)
    requires SameRest(s, s') && i < |s.workers| == |s'.workers| && s'.freed == s.freed
    requires s.workers[i] == AtClose(t) && s'.queue == s.queue && s'.workers[i] == AtFree(t)
    requires s'.open == s.open - {t.fd} && s'.closed == s.closed + [t]
    requires k.ForFd? && Owns(s.workers[i], k) ==> k.fd in s.open
    ensures Balance(s', i, k) == Balance(s, i, k)
  {
    hide InSeq;
    InSeqAppend(s.closed, t, k);
  }

  /** The two lists, the open set and the hands of worker i, before and after its step. */
  lemma WorkerMoveLocal(s: State, s': State, i: nat, w: WorkStep, k: Key)
    requires i < |s.workers| && NextWorker(s, i, w) == Some(s') && MovesTask(s.workers[i])
    requires k.ForFd? && Owns(s.workers[i], k) ==> k.fd in s.open
    ensures |s'.workers| == |s.workers| && s'.workers == s.workers[i := s'.workers[i]]
    ensures Balance(s', i, k) == Balance(s, i, k)
  {
    WorkerMoveTask(s, s', i, w);
    hide NextWorker, InSeq, Owns;
    match s.workers[i] {
      case AtTake =>
        if s.queue != [] {
          TakeBalanced(s, s', i, k);
        }
      case AtRequeue(t) => RequeueBalanced(s, s', i, t, k);
      case AtFree(t) => FreeBalanced(s, s', i, t, k);
      case AtClose(t) => CloseBalanced(s, s', i, t, k);
    }
  }

  lemma {:induction false} InHandsOwner(ws: seq<WorkerPc>, i: nat, k: Key)
    requires i < |ws| && Owns(ws[i], k)
    ensures InHands(ws, k) >= 1
  {
    if i < |ws| - 1 {
      InHandsOwner(ws[..|ws| - 1], i, k);
    }
  }

  lemma WorkerMoveOwners(s: State, s': State, i: nat, w: WorkStep, k: Key)
    requires Conserved(s, k) && i < |s.workers| && NextWorker(s, i, w) == Some(s')
    ensures Conserved(s', k)
  {
    if Owns(s.workers[i], k) {
      InHandsOwner(s.workers, i, k);
    }
    if MovesTask(s.workers[i]) {
      WorkerMoveLocal(s, s', i, w, k);
    } else {
      WorkerMoveQuiet(s, s', i, w);
    }
    InHandsMove(s.workers, i, s'.workers[i], k);
  }

  // ---------------------------------------------------------------- the dispatcher's step

  lemma MainMoveLock(s: State, s': State, m: MainStep)
    requires MutualExclusion(s) && NextMain(s, m) == Some(s')
    ensures MutualExclusion(s')
  {
  }

  lemma MainMoveTake(s: State, s': State, m: MainStep)
    requires MutualExclusion(s) && TakeSafe(s) && Sized(s) && NextMain(s, m) == Some(s')
    ensures TakeSafe(s') && Sized(s')
  {
  }

  lemma MainMoveFifo(s: State, s': State, m: MainStep)
    requires Fifo(s) && NextMain(s, m) == Some(s')
    ensures Fifo(s')
  {
  }

  lemma MainMoveAwake(s: State, s': State, m: MainStep)
    requires NoLostWakeup(s) && Sized(s) && s.cfg.n >= 1 && NextMain(s, m) == Some(s')
    ensures NoLostWakeup(s')
  {
    match s.main {
      case AtSignal =>
        if m.woken.Some? {
          assert s'.workers[m.woken.value] != Asleep;
        } else {
          assert s.workers[0] != Asleep;
        }
      case _ =>
    }
  }

  /** The dispatcher changes the workers only by adding an idle one or by waking one up. */
  lemma MainMoveHands(s: State, s': State, m: MainStep, k: Key)
    requires NextMain(s, m) == Some(s')
    ensures InHands(s'.workers, k) == InHands(s.workers, k)
  {
    match s.main {
      case Creating(_) =>
        if m.ok {
          assert s'.workers == s.workers + [AtLock];
          assert s'.workers[..|s.workers|] == s.workers;
        }
      case AtSignal =>
        if m.woken.Some? {
          assert s'.workers == s.workers[m.woken.value := Woken];
          InHandsMove(s.workers, m.woken.value, Woken, k);
        }
      case _ => assert s'.workers == s.workers;
    }
  }

  /** An insertion: a new task, owned by the queue, takes the descriptor over from the dispatcher. */
  lemma InsertMove(s: State, s': State, ok: bool)
    requires s.main.AtInsert? && NextMain(s, Allocated(ok)) == Some(s')
    ensures s'.workers == s.workers && s'.freed == s.freed && s'.open == s.open && s'.cfg == s.cfg && s'.closed == s.closed
    ensures var t := Task(|s.made|, s.main.fd);
            if ok then s'.made == s.made + [t] && s'.queue == s.queue + [t] && s'.main == AtInsertUnlock
            else s'.made == s.made && s'.queue == s.queue && s'.main == s.main
  {
  }

  lemma InsertOwners(s: State, s': State, ok: bool, k: Key)
    requires Conserved(s, k) && s.main.AtInsert? && NextMain(s, Allocated(ok)) == Some(s')
    ensures Conserved(s', k)
  {
    InsertMove(s, s', ok);
    hide NextMain, InSeq, InHands;
    if ok {
      var t := Task(|s.made|, s.main.fd);
      InSeqAppend(s.queue, t, k);
      InsertExists(s, s', t, k);
    }
  }

  /** The new task exists beside the old ones; the descriptors are the same. */
  lemma InsertExists(s: State, s': State, t: Task, k: Key)
    requires t.id == |s.made| && s'.made == s.made + [t] && s'.open == s.open
    ensures Exists(s', k) <==> Exists(s, k) || k == ForTask(t) || k == ToClose(t)
    ensures k == ForTask(t) || k == ToClose(t) ==> !Exists(s, k)
  {
  }

  /** Any other step of the dispatcher: only an accept changes what it owns, and then the descriptor is new. */
  lemma MainMoveRest(s: State, s': State, m: MainStep)
    requires NextMain(s, m) == Some(s') && !s.main.AtInsert?
    ensures s'.queue == s.queue && s'.made == s.made && s'.freed == s.freed && s'.cfg == s.cfg && s'.closed == s.closed
    ensures s'.open == s.open || (s'.main.AtInsertLock? && s'.main.fd !in s.open && s'.open == s.open + {s'.main.fd})
    ensures s'.open == s.open ==> Carried(s'.main) == Carried(s.main)
    ensures s'.open != s.open ==> Carried(s.main) == None
  {
  }

  /** The descriptor of the connection just accepted. */
  function Carried(m: MainPc): Option<int> { if m.AtInsertLock? || m.AtInsert? then Some(m.fd) else None }

  lemma ElsewhereExactly(s: State, k: Key)
    ensures Elsewhere(s, k) == match k
                               case ForTask(_) => InSeq(s.freed, k)
                               case ToClose(_) => InSeq(s.closed, k)
                               case ForFd(fd) => Bit(fd == s.cfg.listener) + Bit(Carried(s.main) == Some(fd))
  {
  }

  lemma MainMoveOwners(s: State, s': State, m: MainStep, k: Key)
    requires Conserved(s, k) && NextMain(s, m) == Some(s')
    ensures Conserved(s', k)
  {
    if s.main.AtInsert? {
      InsertOwners(s, s', m.ok, k);
    } else {
      MainMoveHands(s, s', m, k);
      MainMoveRest(s, s', m);
      ElsewhereExactly(s, k);
      ElsewhereExactly(s', k);
    }
    hide NextMain, InSeq, InHands, Elsewhere;
  }

  // ---------------------------------------------------------------- all steps, all runs

  lemma MainControl(s: State, s': State, m: MainStep)
    requires Control(s) && NextMain(s, m) == Some(s')
    ensures Control(s') && s'.cfg == s.cfg
  {
    MainKeepsConfig(s, s', m);
    hide NextMain, MutualExclusion, Sized, TakeSafe, Fifo, NoLostWakeup;
    MainMoveLock(s, s', m);
    MainMoveTake(s, s', m);
    MainMoveFifo(s, s', m);
    MainMoveAwake(s, s', m);
  }

  lemma WorkerControl(s: State, s': State, i: nat, w: WorkStep)
    requires Control(s) && i < |s.workers| && NextWorker(s, i, w) == Some(s')
    ensures Control(s') && s'.cfg == s.cfg
  {
    WorkerKeepsConfig(s, s', i, w);
    hide NextWorker, MutualExclusion, Sized, TakeSafe, Fifo, NoLostWakeup;
    WorkerMoveSized(s, s', i, w);
    WorkerMoveLock(s, s', i, w);
    WorkerMoveTake(s, s', i, w);
    WorkerMoveFifo(s, s', i, w);
    WorkerMoveAwake(s, s', i, w);
  }

  lemma MainKeepsConfig(s: State, s': State, m: MainStep)
    requires NextMain(s, m) == Some(s')
    ensures s'.cfg == s.cfg
  {
  }

  lemma WorkerKeepsConfig(s: State, s': State, i: nat, w: WorkStep)
    requires i < |s.workers| && NextWorker(s, i, w) == Some(s')
    ensures s'.cfg == s.cfg
  {
  }

  lemma StepControl(s: State, s': State, a: Action)
    requires Control(s) && Next(s, a) == Some(s')
    ensures Control(s') && s'.cfg == s.cfg
  {
    hide NextMain, NextWorker, Control;
    match a {
      case ByMain(m) => MainControl(s, s', m);
      case ByWorker(i, w) => WorkerControl(s, s', i, w);
    }
  }

  lemma StepConserved(s: State, s': State, a: Action, k: Key)
    requires Conserved(s, k) && Next(s, a) == Some(s')
    ensures Conserved(s', k)
  {
    hide NextMain, NextWorker, Conserved;
    match a {
      case ByMain(m) => MainMoveOwners(s, s', m, k);
      case ByWorker(i, w) => WorkerMoveOwners(s, s', i, w, k);
    }
  }

  lemma {:induction false} ExecControl(c: Config, run: seq<Action>)
    requires c.n >= 1 && Exec(Init(c), run).Some?
    ensures Exec(Init(c), run).value.cfg == c && Control(Exec(Init(c), run).value)
  {
    if run != [] {
      ExecControl(c, run[..|run| - 1]);
      StepControl(Exec(Init(c), run[..|run| - 1]).value, Exec(Init(c), run).value, run[|run| - 1]);
    }
  }

  lemma {:induction false} ExecConserved(c: Config, run: seq<Action>, k: Key)
    requires Exec(Init(c), run).Some?
    ensures Conserved(Exec(Init(c), run).value, k)
  {
    if run != [] {
      ExecConserved(c, run[..|run| - 1], k);
      StepConserved(Exec(Init(c), run[..|run| - 1]).value, Exec(Init(c), run).value, run[|run| - 1], k);
    }
  }
}
