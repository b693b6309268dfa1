/** The main results about the dispatcher/worker server, each over every run of every pool size. */
module WorkerPoolTheorems {
  import opened Wrappers
  import opened WorkerPool
  import opened WorkerPoolProofs

  // ---------------------------------------------------------------- wakeups

  /** No lost wakeup, with or without the re-check, although workers re-queue without signalling. */
  lemma QueuedTaskHasAnAwakeWorker(c: Config, s: State)
    requires c.n >= 1 && Reachable(c, s) && s.queue != []
    ensures SomeAwake(s.workers) || SignalDue(s.main)
  {
    var run :| Exec(Init(c), run) == Some(s);
    ExecControl(c, run);
  }

  // ---------------------------------------------------------------- ownership

  lemma {:induction false} CountedInSeq(q: seq<Task>, i: nat, k: Key)
    requires i < |q| && Matches(q[i], k)
    ensures InSeq(q, k) >= 1
  {
    if i < |q| - 1 {
      CountedInSeq(q[..|q| - 1], i, k);
    }
  }

  lemma {:induction false} CountedTwiceInSeq(q: seq<Task>, i: nat, j: nat, k: Key)
    requires i < j < |q| && Matches(q[i], k) && Matches(q[j], k)
    ensures InSeq(q, k) >= 2
  {
    if j < |q| - 1 {
      CountedTwiceInSeq(q[..|q| - 1], i, j, k);
    } else {
      CountedInSeq(q[..|q| - 1], i, k);
    }
  }

  lemma {:induction false} CountedTwiceInHands(ws: seq<WorkerPc>, i: nat, j: nat, k: Key)
    requires i < j < |ws| && Owns(ws[i], k) && Owns(ws[j], k)
    ensures InHands(ws, k) >= 2
  {
    if j < |ws| - 1 {
      CountedTwiceInHands(ws[..|ws| - 1], i, j, k);
    } else {
      InHandsOwner(ws[..|ws| - 1], i, k);
    }
  }

  /** Every task ever made is in exactly one of: the queue, one worker's hands, the freed list. */
  lemma TaskInExactlyOnePlace(c: Config, s: State, t: Task)
    requires Reachable(c, s) && t in s.made
    ensures InSeq(s.queue, ForTask(t)) + InHands(s.workers, ForTask(t)) + InSeq(s.freed, ForTask(t)) == 1
  {
    var run :| Exec(Init(c), run) == Some(s);
    MadeInOrder(c, run);
    ExecConserved(c, run, ForTask(t));
  }

  lemma {:induction false} MadeInOrder(c: Config, run: seq<Action>)
    requires Exec(Init(c), run).Some?
    ensures forall j :: 0 <= j < |Exec(Init(c), run).value.made| ==> Exec(Init(c), run).value.made[j].id == j
  {
    if run != [] {
      MadeInOrder(c, run[..|run| - 1]);
      MadeGrows(Exec(Init(c), run[..|run| - 1]).value, run[|run| - 1]);
    }
  }

  lemma MadeGrows(s: State, a: Action)
    requires Next(s, a).Some?
    ensures var m := Next(s, a).value.made; m == s.made || (exists fd :: m == s.made + [Task(|s.made|, fd)])
  {
    if a.ByMain? && s.main.AtInsert? && a.m.ok {
      assert Next(s, a).value.made == s.made + [Task(|s.made|, s.main.fd)];
    }
  }

  /**
   A worker that is about to receive on, send on, close, free or re-queue a task is
   its only owner: the task is not queued, not freed and in no other worker's hands.
   */
  lemma WorkerOwnsItsTask(c: Config, s: State, i: nat)
    requires Reachable(c, s) && i < |s.workers| && HasTask(s.workers[i])
    ensures s.workers[i].t !in s.queue && s.workers[i].t !in s.freed
    ensures forall j :: 0 <= j < |s.workers| && j != i && HasTask(s.workers[j]) ==> s.workers[j].t != s.workers[i].t
  {
    var run :| Exec(Init(c), run) == Some(s);
    var k := ForTask(s.workers[i].t);
    ExecConserved(c, run, k);
    InHandsOwner(s.workers, i, k);
    if j :| 0 <= j < |s.queue| && s.queue[j] == k.t { CountedInSeq(s.queue, j, k); }
    if j :| 0 <= j < |s.freed| && s.freed[j] == k.t { CountedInSeq(s.freed, j, k); }
    if j :| 0 <= j < |s.workers| && j != i && Owns(s.workers[j], k) {
      CountedTwiceInHands(s.workers, if i < j then i else j, if i < j then j else i, k);
    }
  }

  /**
   The descriptor it touches is open, is not the listener, and belongs to no other
   live task, although the kernel reuses the numbers of closed connections.
   */
  lemma WorkerOwnsItsDescriptor(c: Config, s: State, i: nat)
    requires Reachable(c, s) && i < |s.workers| && HasTask(s.workers[i]) && !s.workers[i].AtFree?
    ensures s.workers[i].t.fd in s.open && s.workers[i].t.fd != c.listener
    ensures forall j :: 0 <= j < |s.queue| ==> s.queue[j].fd != s.workers[i].t.fd
    ensures forall j :: 0 <= j < |s.workers| && j != i && HasTask(s.workers[j]) && !s.workers[j].AtFree? ==>
                          s.workers[j].t.fd != s.workers[i].t.fd
  {
    var run :| Exec(Init(c), run) == Some(s);
    var k := ForFd(s.workers[i].t.fd);
    ExecConserved(c, run, k);
    ConfigKept(c, run);
    InHandsOwner(s.workers, i, k);
    if j :| 0 <= j < |s.queue| && s.queue[j].fd == k.fd { CountedInSeq(s.queue, j, k); }
    if j :| 0 <= j < |s.workers| && j != i && Owns(s.workers[j], k) {
      CountedTwiceInHands(s.workers, if i < j then i else j, if i < j then j else i, k);
    }
  }

  lemma {:induction false} ConfigKept(c: Config, run: seq<Action>)
    requires Exec(Init(c), run).Some?
    ensures Exec(Init(c), run).value.cfg == c
  {
    if run != [] {
      ConfigKept(c, run[..|run| - 1]);
      HistoriesGrow(Exec(Init(c), run[..|run| - 1]).value, Exec(Init(c), run).value, run[|run| - 1]);
    }
  }

  // ---------------------------------------------------------------- histories

  lemma HistoriesGrow(s: State, s': State, a: Action)
    requires Next(s, a) == Some(s')
    ensures s.taken <= s'.taken && s.freed <= s'.freed && |s'.taken| <= |s.taken| + 1
    ensures s'.cfg == s.cfg
  {
  }

  lemma {:induction false} ExecHistories(s: State, run: seq<Action>)
    requires Exec(s, run).Some?
    ensures s.taken <= Exec(s, run).value.taken && s.freed <= Exec(s, run).value.freed
  {
    if run != [] {
      ExecHistories(s, run[..|run| - 1]);
      HistoriesGrow(Exec(s, run[..|run| - 1]).value, Exec(s, run).value, run[|run| - 1]);
    }
  }

  lemma {:induction false} ExecConcat(s: State, a: seq<Action>, b: seq<Action>)
    ensures Exec(s, a + b) == match Exec(s, a) { case None => None case Some(mid) => Exec(mid, b) }
    decreases |b|
  {
    if b == [] {
      assert a + b == a;
    } else {
      ExecConcat(s, a, b[..|b| - 1]);
      assert (a + b)[..|a + b| - 1] == a + b[..|b| - 1];
    }
  }

  /** A freed task is freed once and is never queued or held again, whatever happens next. */
  lemma FreedOnceAndForever(c: Config, s: State, run: seq<Action>, t: Task)
    requires Reachable(c, s) && Exec(s, run).Some? && t in s.freed
    ensures var s' := Exec(s, run).value;
            InSeq(s'.freed, ForTask(t)) == 1 && t !in s'.queue &&
            forall i :: 0 <= i < |s'.workers| && HasTask(s'.workers[i]) ==> s'.workers[i].t != t
  {
    var start :| Exec(Init(c), start) == Some(s);
    ExecConcat(Init(c), start, run);
    var s' := Exec(s, run).value;
    ExecHistories(s, run);
    var k := ForTask(t);
    ExecConserved(c, start + run, k);
    var j :| 0 <= j < |s.freed| && s.freed[j] == t;
    CountedInSeq(s'.freed, j, k);
    if i :| 0 <= i < |s'.queue| && s'.queue[i] == t { CountedInSeq(s'.queue, i, k); }
    if i :| 0 <= i < |s'.workers| && Owns(s'.workers[i], k) { InHandsOwner(s'.workers, i, k); }
  }

  /** A task whose descriptor has been closed was closed once, and nobody serves or queues it: it awaits its free. */
  lemma ClosedOnceAndDone(c: Config, s: State, t: Task)
    requires Reachable(c, s) && t in s.closed
    ensures InSeq(s.closed, ToClose(t)) == 1 && t !in s.queue
    ensures forall i :: 0 <= i < |s.workers| && HasTask(s.workers[i]) && s.workers[i].t == t ==> s.workers[i].AtFree?
  {
    var run :| Exec(Init(c), run) == Some(s);
    var k := ToClose(t);
    ExecConserved(c, run, k);
    var j :| 0 <= j < |s.closed| && s.closed[j] == t;
    CountedInSeq(s.closed, j, k);
    if i :| 0 <= i < |s.queue| && s.queue[i] == t { CountedInSeq(s.queue, i, k); }
    if i :| 0 <= i < |s.workers| && Owns(s.workers[i], k) { InHandsOwner(s.workers, i, k); }
  }

  lemma {:induction false} NotInSeq(q: seq<Task>, k: Key)
    requires forall i :: 0 <= i < |q| ==> !Matches(q[i], k)
    ensures InSeq(q, k) == 0
  {
    if q != [] {
      NotInSeq(q[..|q| - 1], k);
    }
  }

  lemma {:induction false} NotInHands(ws: seq<WorkerPc>, k: Key)
    requires forall i :: 0 <= i < |ws| ==> !Owns(ws[i], k)
    ensures InHands(ws, k) == 0
  {
    if ws != [] {
      NotInHands(ws[..|ws| - 1], k);
    }
  }

  /** Every freed task was closed exactly once before. */
  lemma FreedTaskClosedOnce(c: Config, s: State, t: Task)
    requires Reachable(c, s) && t in s.freed
    ensures InSeq(s.closed, ToClose(t)) == 1
  {
    var run :| Exec(Init(c), run) == Some(s);
    ExecConserved(c, run, ToClose(t));
    ExecConserved(c, run, ForTask(t));
    assert Exec(s, []) == Some(s);
    FreedOnceAndForever(c, s, [], t);
    NotInSeq(s.queue, ToClose(t));
    NotInHands(s.workers, ToClose(t));
    var j :| 0 <= j < |s.freed| && s.freed[j] == t;
    CountedInSeq(s.freed, j, ForTask(t));
  }

  /**
   First in, first out: the tasks dequeued after s, whatever the interleaving, begin
   with the tasks queued at s in their order; so before the task at position p is
   taken exactly the p tasks ahead of it are, each once.
   */
  lemma OvertakenExactlyByThoseAhead(c: Config, s: State, run: seq<Action>, p: nat)
    requires c.n >= 1 && Reachable(c, s) && Exec(s, run).Some? && p < |s.queue|
    requires |Exec(s, run).value.taken| > |s.taken| + p
    ensures var since := Exec(s, run).value.taken[|s.taken|..];
            since[..p] == s.queue[..p] && since[p] == s.queue[p]
  {
    var start :| Exec(Init(c), start) == Some(s);
    ExecConcat(Init(c), start, run);
    ExecControl(c, start);
    ExecControl(c, start + run);
    PutGrows(s, run);
    var s' := Exec(s, run).value;
    assert s.put == s.taken + s.queue && s'.put == s'.taken + s'.queue && s.put <= s'.put;
    forall j | 0 <= j <= p ensures s'.taken[|s.taken| + j] == s.queue[j] {
      assert s'.put[|s.taken| + j] == s.put[|s.taken| + j];
    }
  }

  lemma {:induction false} PutGrows(s: State, run: seq<Action>)
    requires Exec(s, run).Some?
    ensures s.put <= Exec(s, run).value.put
  {
    if run != [] {
      PutGrows(s, run[..|run| - 1]);
      PutGrowsStep(Exec(s, run[..|run| - 1]).value, Exec(s, run).value, run[|run| - 1]);
    }
  }

  lemma PutGrowsStep(s: State, s': State, a: Action)
    requires Next(s, a) == Some(s')
    ensures s.put <= s'.put
  {
  }
}
