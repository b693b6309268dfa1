/** What a worker does with a connection, told from the results of its recv and send in the run itself. */
module WorkerPoolResults {
  import opened Wrappers
  import opened WorkerPool
  import opened WorkerPoolProofs
  import opened WorkerPoolTheorems

  predicate Holds(s: State, i: nat, t: Task) { i < |s.workers| && HasTask(s.workers[i]) && s.workers[i].t == t }

  predicate HoldsSome(s: State, i: nat) { i < |s.workers| && HasTask(s.workers[i]) }

  predicate IsResult(w: WorkStep) { w.Received? || w.Sent? }

  /** What recv and send have returned to worker i since it took the task it holds; nothing while it holds none. */
  function Since(c: Config, run: seq<Action>, i: nat): (rs: seq<WorkStep>)
    requires Exec(Init(c), run).Some?
    ensures forall q :: 0 <= q < |rs| ==> IsResult(rs[q])
  {
    if run == [] || !HoldsSome(Exec(Init(c), run).value, i) then []
    else
      var front, a := run[..|run| - 1], run[|run| - 1];
      Since(c, front, i) + if a.ByWorker? && a.i == i && IsResult(a.w) then [a.w] else []
  }

  /** Something was received, and if it held "ping" something was sent. */
  predicate Serviced(rs: seq<WorkStep>) {
    || (|rs| == 1 && rs[0].Received? && rs[0].n > 0 && !rs[0].ping)
    || (|rs| == 2 && rs[0].Received? && rs[0].n > 0 && rs[0].ping && rs[1].Sent? && rs[1].n > 0)
  }

  /** The last of the calls returned 0 or an error. */
  predicate Ended(rs: seq<WorkStep>) {
    || (|rs| == 1 && rs[0].Received? && rs[0].n <= 0)
    || (|rs| == 2 && rs[0].Received? && rs[0].n > 0 && rs[0].ping && rs[1].Sent? && rs[1].n <= 0)
  }

  predicate Pinged(rs: seq<WorkStep>) { |rs| == 1 && rs[0].Received? && rs[0].n > 0 && rs[0].ping }

  predicate Phase(pc: WorkerPc, rs: seq<WorkStep>) {
    match pc
    case AtSend(_) => Pinged(rs)
    case AtRelock(_) => Serviced(rs)
    case AtRequeue(_) => Serviced(rs)
    case AtClose(_) => Ended(rs)
    case AtFree(_) => Ended(rs)
    case _ => rs == []
  }

  // ---------------------------------------------------------------- every step, every run

  lemma WorkerPhase(s: State, s': State, i: nat, w: WorkStep, rs: seq<WorkStep>)
    requires i < |s.workers| && NextWorker(s, i, w) == Some(s') && Phase(s.workers[i], rs)
    ensures |s'.workers| == |s.workers| && s'.workers == s.workers[i := s'.workers[i]]
    ensures Phase(s'.workers[i], if HasTask(s'.workers[i]) then rs + (if IsResult(w) then [w] else []) else [])
    ensures rs + [] == rs
  {
  }

  lemma MainPhase(s: State, s': State, m: MainStep, i: nat)
    requires NextMain(s, m) == Some(s') && i < |s'.workers|
    ensures if i == |s.workers| then s'.workers[i] == AtLock
            else i < |s.workers| && (s'.workers[i] == s.workers[i] || (s.workers[i] == Asleep && s'.workers[i] == Woken))
  {
  }

  lemma {:induction false} RunPhase(c: Config, run: seq<Action>, i: nat)
    requires Exec(Init(c), run).Some?
    ensures i < |Exec(Init(c), run).value.workers| ==> Phase(Exec(Init(c), run).value.workers[i], Since(c, run, i))
  {
    hide NextMain, NextWorker, Serviced, Ended, Pinged;
    if run != [] && i < |Exec(Init(c), run).value.workers| {
      var front, a := run[..|run| - 1], run[|run| - 1];
      RunPhase(c, front, i);
      var s, s' := Exec(Init(c), front).value, Exec(Init(c), run).value;
      var before := Since(c, front, i);
      assert before + [] == before;
      match a {
        case ByMain(m) => MainPhase(s, s', m, i);
        case ByWorker(j, w) =>
          RunPhase(c, front, j);
          WorkerPhase(s, s', j, w, Since(c, front, j));
          assert Since(c, run, i) == if !HoldsSome(s', i) then [] else before + if j == i && IsResult(w) then [w] else [];
          assert j != i ==> s'.workers[i] == s.workers[i];
      }
    }
  }

  lemma HistoryStep(s: State, s': State, a: Action)
    requires Next(s, a) == Some(s')
    ensures s.closed <= s'.closed
    ensures forall i :: 0 <= i < |s'.workers| && s'.workers[i].AtFree? ==>
                          (i < |s.workers| && s'.workers[i] == s.workers[i]) || s'.workers[i].t in s'.closed
  {
    hide NextMain, NextWorker;
    match a {
      case ByMain(m) =>
        MainClosesNothing(s, s', m);
        forall i | 0 <= i < |s'.workers| && s'.workers[i].AtFree? ensures i < |s.workers| && s'.workers[i] == s.workers[i] {
          MainPhase(s, s', m, i);
        }
      case ByWorker(j, w) =>
        if MovesTask(s.workers[j]) {
          WorkerMoveTask(s, s', j, w);
        } else {
          WorkerMoveQuiet(s, s', j, w);
        }
    }
  }

  lemma MainClosesNothing(s: State, s': State, m: MainStep)
    requires NextMain(s, m) == Some(s')
    ensures s'.closed == s.closed && s.open <= s'.open && |s.workers| <= |s'.workers|
  {
  }

  /** A task that is about to be freed, or has been, was closed. */
  lemma {:induction false} FreeingIsClosed(c: Config, run: seq<Action>, t: Task)
    requires Exec(Init(c), run).Some?
    ensures AtFree(t) in Exec(Init(c), run).value.workers ==> t in Exec(Init(c), run).value.closed
  {
    hide NextMain, NextWorker;
    if run != [] {
      FreeingIsClosed(c, run[..|run| - 1], t);
      var s, s' := Exec(Init(c), run[..|run| - 1]).value, Exec(Init(c), run).value;
      HistoryStep(s, s', run[|run| - 1]);
      if i :| 0 <= i < |s'.workers| && s'.workers[i] == AtFree(t) {
        assert i < |s.workers| ==> s.workers[i] in s.workers;
      }
    }
  }

  /** A task passes from a worker's hands only through a state without one. */
  lemma KeepsItsTask(s: State, s': State, a: Action, i: nat)
    requires Next(s, a) == Some(s') && HoldsSome(s, i) && HoldsSome(s', i)
    ensures s'.workers[i].t == s.workers[i].t
  {
    if a.ByMain? {
      MainPhase(s, s', a.m, i);
    }
  }

  // ---------------------------------------------------------------- how a worker lets go of a connection

  lemma LetsGo(s: State, s': State, a: Action, i: nat, t: Task)
    requires Next(s, a) == Some(s') && Holds(s, i, t) && !Holds(s', i, t)
    ensures a == ByWorker(i, Go) && s'.open == s.open && s'.closed == s.closed
    ensures if s.workers[i].AtFree? then s'.queue == s.queue && s'.freed == s.freed + [t]
            else s.workers[i].AtRequeue? && s'.queue == s.queue + [t] && s'.freed == s.freed
  {
    hide NextMain, NextWorker;
    match a {
      case ByMain(m) =>
        MainClosesNothing(s, s', m);
        MainPhase(s, s', m, i);
      case ByWorker(j, w) =>
        if MovesTask(s.workers[j]) {
          WorkerMoveTask(s, s', j, w);
          OnlyGo(s, s', j, w);
        } else {
          WorkerMoveQuiet(s, s', j, w);
        }
    }
  }

  lemma OnlyGo(s: State, s': State, i: nat, w: WorkStep)
    requires i < |s.workers| && NextWorker(s, i, w) == Some(s') && MovesTask(s.workers[i])
    ensures w == Go
  {
  }

  /**
   A worker lets go of a task in one of two ways, told apart by the results since it took it: after a receipt
   without "ping", or one with "ping" and a send, it puts it at the end of the queue; after a call that
   returned 0 or an error it frees it, closed.
   */
  lemma LetsGoExactly(c: Config, run: seq<Action>, a: Action, i: nat, t: Task)
    requires Exec(Init(c), run).Some? && Next(Exec(Init(c), run).value, a).Some?
    requires Holds(Exec(Init(c), run).value, i, t) && !Holds(Next(Exec(Init(c), run).value, a).value, i, t)
    ensures var s, s' := Exec(Init(c), run).value, Next(Exec(Init(c), run).value, a).value;
            var rs := Since(c, run, i);
            && a == ByWorker(i, Go) && (Serviced(rs) || Ended(rs))
            && (Serviced(rs) ==> s'.queue == s.queue + [t] && s'.freed == s.freed && s'.closed == s.closed)
            && (Ended(rs) ==> s'.queue == s.queue && s'.freed == s.freed + [t] && t in s.closed)
  {
    var s, s' := Exec(Init(c), run).value, Next(Exec(Init(c), run).value, a).value;
    RunPhase(c, run, i);
    FreeingIsClosed(c, run, t);
    hide Next, Exec;
    LetsGo(s, s', a, i, t);
    assert s.workers[i] in s.workers;
  }

  /** A descriptor is closed only by the holder of its task, and only after a call of it that returned 0 or an error. */
  lemma ClosesOnlyAfterFailure(c: Config, run: seq<Action>, a: Action)
    requires Exec(Init(c), run).Some? && Next(Exec(Init(c), run).value, a).Some?
    ensures var s, s' := Exec(Init(c), run).value, Next(Exec(Init(c), run).value, a).value;
            s'.closed != s.closed || !(s.open <= s'.open) ==>
              && a.ByWorker? && HoldsSome(s, a.i) && Ended(Since(c, run, a.i))
              && s'.closed == s.closed + [s.workers[a.i].t] && s'.open == s.open - {s.workers[a.i].t.fd}
  {
    hide NextMain, NextWorker;
    var s, s' := Exec(Init(c), run).value, Next(Exec(Init(c), run).value, a).value;
    match a {
      case ByMain(m) => MainClosesNothing(s, s', m);
      case ByWorker(i, w) =>
        RunPhase(c, run, i);
        if MovesTask(s.workers[i]) {
          WorkerMoveTask(s, s', i, w);
        } else {
          WorkerMoveQuiet(s, s', i, w);
        }
    }
  }

  /** A worker sends exactly when its last result is a receipt with "ping", and then does nothing else. */
  lemma SendsExactlyAfterPing(c: Config, run: seq<Action>, i: nat, n: int)
    requires Exec(Init(c), run).Some? && Exec(Init(c), run).value.status == Running
    ensures var s := Exec(Init(c), run).value;
            && (Next(s, ByWorker(i, Sent(n))).Some? <==> i < |s.workers| && HasTask(s.workers[i]) && Pinged(Since(c, run, i)))
            && (Pinged(Since(c, run, i)) ==> forall w :: Next(s, ByWorker(i, w)).Some? ==> w.Sent?)
  {
    RunPhase(c, run, i);
  }

  // ---------------------------------------------------------------- over whole runs

  function At(c: Config, run: seq<Action>, k: nat): State
    requires Exec(Init(c), run).Some? && k <= |run|
  {
    ExecPrefix(c, run, k);
    Exec(Init(c), run[..k]).value
  }

  lemma {:induction false} ExecPrefix(c: Config, run: seq<Action>, k: nat)
    requires Exec(Init(c), run).Some? && k <= |run|
    ensures Exec(Init(c), run[..k]).Some?
  {
    if k == |run| {
      assert run[..k] == run;
    } else {
      ExecPrefix(c, run[..|run| - 1], k);
      assert run[..|run| - 1][..k] == run[..k];
    }
  }

  lemma StepAt(c: Config, run: seq<Action>, k: nat)
    requires Exec(Init(c), run).Some? && k < |run|
    ensures Exec(Init(c), run[..k]).Some? && Exec(Init(c), run[..k + 1]).Some?
    ensures Next(At(c, run, k), run[k]) == Some(At(c, run, k + 1))
  {
    ExecPrefix(c, run, k);
    ExecPrefix(c, run, k + 1);
    assert run[..k + 1][..k] == run[..k];
  }

  /** The holder of t takes action j, a recv or a send that returns 0 or an error. */
  predicate FailsAt(c: Config, run: seq<Action>, j: nat, t: Task)
    requires Exec(Init(c), run).Some?
  {
    j < |run| && run[j].ByWorker? && IsResult(run[j].w) && run[j].w.n <= 0 && Holds(At(c, run, j), run[j].i, t)
  }

  lemma FailsBefore(c: Config, run: seq<Action>, j: nat, t: Task)
    requires run != [] && Exec(Init(c), run).Some? && Exec(Init(c), run[..|run| - 1]).Some? && FailsAt(c, run[..|run| - 1], j, t)
    ensures FailsAt(c, run, j, t)
  {
    assert run[..|run| - 1][..j] == run[..j];
  }

  /** A result that a worker has had since it took its task was an action of the run while it held it. */
  lemma {:induction false} EndedFailed(c: Config, run: seq<Action>, i: nat) returns (j: nat)
    requires Exec(Init(c), run).Some? && HoldsSome(Exec(Init(c), run).value, i)
    requires var rs := Since(c, run, i); rs != [] && rs[|rs| - 1].n <= 0
    ensures FailsAt(c, run, j, Exec(Init(c), run).value.workers[i].t)
  {
    hide NextMain, NextWorker;
    var front, a := run[..|run| - 1], run[|run| - 1];
    var s, s' := Exec(Init(c), front).value, Exec(Init(c), run).value;
    if a.ByWorker? && a.i == i && IsResult(a.w) {
      j := |run| - 1;
      ResultIsHolders(s, s', i, a.w);
    } else {
      assert Since(c, front, i) == Since(c, run, i);
      KeepsItsTask(s, s', a, i);
      j := EndedFailed(c, front, i);
      FailsBefore(c, run, j, s.workers[i].t);
    }
  }

  lemma ResultIsHolders(s: State, s': State, i: nat, w: WorkStep)
    requires IsResult(w) && Next(s, ByWorker(i, w)) == Some(s')
    ensures HoldsSome(s, i) && HoldsSome(s', i) && s'.workers[i].t == s.workers[i].t
  {
  }

  lemma {:induction false} ClosedHasFailed(c: Config, run: seq<Action>, t: Task) returns (j: nat)
    requires Exec(Init(c), run).Some? && t in Exec(Init(c), run).value.closed
    ensures FailsAt(c, run, j, t)
  {
    hide Next;
    var front, a := run[..|run| - 1], run[|run| - 1];
    var s, s' := Exec(Init(c), front).value, Exec(Init(c), run).value;
    if t in s.closed {
      j := ClosedHasFailed(c, front, t);
    } else {
      ClosesOnlyAfterFailure(c, front, a);
      j := EndedFailed(c, front, a.i);
    }
    FailsBefore(c, run, j, t);
  }

  /** Nothing is left to do with t but to close and to free it. */
  predicate Doomed(s: State, t: Task) { AtClose(t) in s.workers || AtFree(t) in s.workers || t in s.freed }

  lemma DoomedStep(s: State, s': State, a: Action, t: Task)
    requires Next(s, a) == Some(s') && Doomed(s, t)
    ensures Doomed(s', t)
  {
    HistoriesGrow(s, s', a);
    hide NextMain, NextWorker;
    if i :| 0 <= i < |s.workers| && s.workers[i] in {AtClose(t), AtFree(t)} {
      match a {
        case ByMain(m) =>
          MainClosesNothing(s, s', m);
          MainPhase(s, s', m, i);
        case ByWorker(j, w) =>
          if MovesTask(s.workers[j]) {
            WorkerMoveTask(s, s', j, w);
          } else {
            WorkerMoveQuiet(s, s', j, w);
          }
      }
      assert s'.workers[i] in s'.workers || t in s'.freed;
    }
  }

  lemma FailureDooms(s: State, s': State, i: nat, w: WorkStep)
    requires Next(s, ByWorker(i, w)) == Some(s') && IsResult(w) && w.n <= 0
    ensures Doomed(s', s.workers[i].t)
  {
    assert s'.workers[i] == AtClose(s.workers[i].t) && s'.workers[i] in s'.workers;
  }

  lemma {:induction false} FailedIsDoomed(c: Config, run: seq<Action>, j: nat, t: Task)
    requires Exec(Init(c), run).Some? && FailsAt(c, run, j, t)
    ensures Doomed(Exec(Init(c), run).value, t)
  {
    hide Next, Doomed;
    var front, a := run[..|run| - 1], run[|run| - 1];
    var s, s' := Exec(Init(c), front).value, Exec(Init(c), run).value;
    assert front[..j] == run[..j];
    if j == |run| - 1 {
      FailureDooms(s, s', a.i, a.w);
    } else {
      FailedIsDoomed(c, front, j, t);
      DoomedStep(s, s', a, t);
    }
  }

  /**
   A connection is closed, or about to be by its holder, if and only if some recv or send of its holder
   returned 0 or an error; and from then on it is never queued again.
   */
  lemma FailedExactly(c: Config, run: seq<Action>, t: Task)
    requires Exec(Init(c), run).Some?
    ensures var s := Exec(Init(c), run).value;
            && ((exists j :: FailsAt(c, run, j, t)) <==> t in s.closed || AtClose(t) in s.workers)
            && ((exists j :: FailsAt(c, run, j, t)) ==> t !in s.queue)
  {
    var s := Exec(Init(c), run).value;
    assert Reachable(c, s);
    if j :| FailsAt(c, run, j, t) {
      FailedIsDoomed(c, run, j, t);
      DoomedIsClosed(c, run, t);
    } else if t in s.closed {
      var k := ClosedHasFailed(c, run, t);
      assert false;
    } else if i :| 0 <= i < |s.workers| && s.workers[i] == AtClose(t) {
      RunPhase(c, run, i);
      var k := EndedFailed(c, run, i);
      assert false;
    }
  }

  lemma DoomedIsClosed(c: Config, run: seq<Action>, t: Task)
    requires Exec(Init(c), run).Some? && Doomed(Exec(Init(c), run).value, t)
    ensures var s := Exec(Init(c), run).value; (t in s.closed || AtClose(t) in s.workers) && t !in s.queue
  {
    hide Next;
    var s := Exec(Init(c), run).value;
    assert Reachable(c, s);
    if t in s.freed {
      FreedTaskClosedOnce(c, s, t);
      CountedIsThere(s.closed, t);
      assert Exec(s, []) == Some(s);
      FreedOnceAndForever(c, s, [], t);
    } else {
      var i :| 0 <= i < |s.workers| && s.workers[i] in {AtClose(t), AtFree(t)};
      WorkerOwnsItsTask(c, s, i);
      FreeingIsClosed(c, run, t);
      assert s.workers[i] in s.workers;
    }
  }

  lemma {:induction false} CountedIsThere(q: seq<Task>, t: Task)
    requires InSeq(q, ToClose(t)) > 0
    ensures t in q
  {
    if q[|q| - 1] != t {
      CountedIsThere(q[..|q| - 1], t);
    }
  }

  /** While worker i holds a task, its results since an action are those it has had since it took it. */
  lemma {:induction false} ResultKept(c: Config, run: seq<Action>, j: nat, k: nat, i: nat, t: Task)
    requires Exec(Init(c), run).Some? && j < k <= |run| && run[j].ByWorker? && run[j].i == i && IsResult(run[j].w)
    requires forall m :: j <= m <= k ==> Holds(At(c, run, m), i, t)
    ensures Exec(Init(c), run[..k]).Some? && run[j].w in Since(c, run[..k], i)
    decreases k
  {
    ExecPrefix(c, run, k);
    ExecPrefix(c, run, k - 1);
    assert run[..k][..k - 1] == run[..k - 1];
    assert Holds(At(c, run, k), i, t);
    if j < k - 1 {
      ResultKept(c, run, j, k - 1, i, t);
    }
  }

  /** A result since a worker took its task is one of its own actions after it. */
  lemma {:induction false} SendsAmongSince(c: Config, run: seq<Action>, i: nat, q: nat) returns (j: nat)
    requires Exec(Init(c), run).Some? && q < |Since(c, run, i)|
    ensures j < |run| && run[j] == ByWorker(i, Since(c, run, i)[q])
  {
    var front := run[..|run| - 1];
    if q < |Since(c, front, i)| {
      j := SendsAmongSince(c, front, i, q);
    } else {
      j := |run| - 1;
    }
  }

  /**
   What becomes of a connection after each result. Worker i holds t from its action j, a recv or send, up to its
   action k, with which it lets go of it. If the result was 0 or an error it frees t, which it has closed;
   if it was a send, or a receipt without "ping", t goes to the end of the queue; otherwise it has sent before.
   */
  lemma WhereAResultLeads(c: Config, run: seq<Action>, j: nat, k: nat, i: nat, t: Task)
    requires Exec(Init(c), run).Some? && j < k < |run| && run[j].ByWorker? && run[j].i == i && IsResult(run[j].w)
    requires (forall m :: j <= m <= k ==> Holds(At(c, run, m), i, t)) && !Holds(At(c, run, k + 1), i, t)
    ensures var w, s, s' := run[j].w, At(c, run, k), At(c, run, k + 1);
            && (w.n <= 0 ==> s'.freed == s.freed + [t] && t in s.closed && s'.queue == s.queue)
            && (w.n > 0 && (w.Sent? || !w.ping) ==> s'.queue == s.queue + [t] && s'.closed == s.closed)
            && (w.n > 0 && w.Received? && w.ping ==> exists m: nat, n :: m < k && run[m] == ByWorker(i, Sent(n)))
  {
    hide Next, At, Exec, Since;
    AtIs(c, run, k);
    ResultKept(c, run, j, k, i, t);
    StepAt(c, run, k);
    LetsGoExactly(c, run[..k], run[k], i, t);
    if run[j].w.n > 0 && run[j].w.Received? && run[j].w.ping {
      var rs := Since(c, run[..k], i);
      var m := SendsAmongSince(c, run[..k], i, 1);
      assert run[m] == ByWorker(i, Sent(rs[1].n));
    }
  }

  lemma AtIs(c: Config, run: seq<Action>, k: nat)
    requires Exec(Init(c), run).Some? && k <= |run|
    ensures Exec(Init(c), run[..k]) == Some(At(c, run, k))
  {
    ExecPrefix(c, run, k);
  }

  // ---------------------------------------------------------------- the dispatcher

  /** The descriptors that accept has returned, in order. */
  function AcceptedFds(run: seq<Action>): seq<int> {
    if run == [] then []
    else
      var a := run[|run| - 1];
      AcceptedFds(run[..|run| - 1]) + if a.ByMain? && a.m.Accepted? && a.m.fd != -1 then [a.m.fd] else []
  }

  function Fds(q: seq<Task>): seq<int> { seq(|q|, i requires 0 <= i < |q| => q[i].fd) }

  function CarriedFd(m: MainPc): seq<int> { if m.AtInsertLock? || m.AtInsert? then [m.fd] else [] }

  lemma MainTasks(s: State, s': State, m: MainStep)
    requires NextMain(s, m) == Some(s') && s'.status == Running
    ensures Fds(s'.made) + CarriedFd(s'.main) ==
            Fds(s.made) + CarriedFd(s.main) + if m.Accepted? && m.fd != -1 then [m.fd] else []
  {
    if s.main.AtInsert? {
      assert s'.made == s.made + [Task(|s.made|, s.main.fd)];
      assert Fds(s'.made) == Fds(s.made) + [s.main.fd];
    }
  }

  lemma WorkerTasks(s: State, s': State, i: nat, w: WorkStep)
    requires i < |s.workers| && NextWorker(s, i, w) == Some(s')
    ensures s'.made == s.made && s'.main == s.main
  {
  }

  /** Tasks are made for exactly the connections accepted, in that order, the last one perhaps not yet. */
  lemma {:induction false} TasksAreTheAccepted(c: Config, run: seq<Action>)
    requires Exec(Init(c), run).Some? && Exec(Init(c), run).value.status == Running
    ensures var s := Exec(Init(c), run).value; Fds(s.made) + CarriedFd(s.main) == AcceptedFds(run)
  {
    hide NextMain, NextWorker, CarriedFd, Fds;
    if run == [] {
      NoTasks(c);
    } else {
      var front, a := run[..|run| - 1], run[|run| - 1];
      var s, s' := Exec(Init(c), front).value, Exec(Init(c), run).value;
      TasksAreTheAccepted(c, front);
      match a {
        case ByMain(m) => MainTasks(s, s', m);
        case ByWorker(i, w) => WorkerTasks(s, s', i, w);
      }
    }
  }

  lemma NoTasks(c: Config)
    ensures Fds([]) == [] && CarriedFd(Init(c).main) == []
  {
  }

  /** accept may return any number that is not open, 0 included, or -1. */
  lemma AcceptsExactly(s: State, fd: int)
    ensures Next(s, ByMain(Accepted(fd))).Some? <==>
            s.status == Running && s.main.AtAccept? && (fd == -1 || (fd >= 0 && fd !in s.open))
  {
  }

  /** The process ends exactly when a thread cannot be created, accept returns -1, or a task cannot be allocated. */
  lemma ExitsExactly(c: Config, run: seq<Action>)
    requires Exec(Init(c), run).Some?
    ensures Exec(Init(c), run).value.status == Exited <==>
            run != [] && run[|run| - 1] in {ByMain(Created(false)), ByMain(Accepted(-1)), ByMain(Allocated(false))}
  {
  }
}
