/** What one round of the select server does to every descriptor. */
module SelectTheorems {
  import opened Wrappers
  import opened Descriptors
  import opened Clients
  import opened SelectServers

  /** What the one visit of a reported number does: accept on the listener, otherwise a service. */
  function VisitCount(fd: int, listener: nat, env: Env, e: Event): nat {
    if fd == listener then Bit(e == Use(listener)) else Count(ServiceLog(fd, env.io(fd)), e)
  }

  /** Every use and close in a scan of the numbers below k comes from the one visit of its own number. */
  lemma {:induction false} ScanCount(v: View, k: nat, listener: nat, env: Env, e: Event)
    requires !e.Open?
    ensures Count(Scan(v, k, listener, env).log, e) ==
            Count(v.log, e) + if 0 <= e.fd < k && e.fd in env.ready then VisitCount(e.fd, listener, env, e) else 0
  {
    hide ServiceLog, Count;
    if k > 0 {
      var mid, fd := Scan(v, k - 1, listener, env), k - 1;
      ScanCount(v, k - 1, listener, env, e);
      if fd in env.ready && fd != listener {
        CountConcat(mid.log, ServiceLog(fd, env.io(fd)), e);
        ServiceLogCount(fd, env.io(fd));
      } else if fd in env.ready {
        CountAppend(mid.log, Use(listener), e);
        CountAppend(mid.log + [Use(listener)], Open(env.accept), e);
      }
    }
  }

  /** A visit of another number leaves fd alone, unless accept returns fd. */
  lemma VisitLeavesOthers(v: View, i: nat, listener: nat, env: Env, fd: nat)
    requires fd in v.open && i != fd
    requires i == listener && i in env.ready ==> env.accept != fd
    ensures var after := Visit(v, i, listener, env);
            && fd in after.open && (fd in v.clients ==> fd in after.clients)
            && Count(after.log, Open(fd)) == Count(v.log, Open(fd))
  {
    hide ServiceLog, Drops, Count;
    if i in env.ready && i != listener {
      CountConcat(v.log, ServiceLog(i, env.io(i)), Open(fd));
      ServiceLogCount(i, env.io(i));
    } else if i in env.ready {
      CountAppend(v.log, Use(listener), Open(fd));
      CountAppend(v.log + [Use(listener)], Open(env.accept), Open(fd));
    }
  }

  /** Until the scan reaches it, a ready descriptor stays open and its number is not opened again. */
  lemma {:induction false} UntouchedUntilVisited(v: View, k: nat, listener: nat, env: Env, fd: nat)
    requires env.ready <= v.open && Fair(v, listener, env) && k <= fd && fd in env.ready
    ensures fd in Scan(v, k, listener, env).open
    ensures fd in v.clients ==> fd in Scan(v, k, listener, env).clients
    ensures Count(Scan(v, k, listener, env).log, Open(fd)) == Count(v.log, Open(fd))
  {
    hide Visit, Count;
    if k > 0 {
      UntouchedUntilVisited(v, k - 1, listener, env, fd);
      VisitLeavesOthers(Scan(v, k - 1, listener, env), k - 1, listener, env, fd);
    }
  }

  /**
   Every descriptor that select reported is handled exactly once in the round, the listener by one
   accept; at that moment it is still open with no open or close of its number since
   select returned: it names the same connection, although others were closed and accepted
   meanwhile and numbers may be reused.  Descriptors not reported are not touched.
   */
  lemma ReadyHandledOnceAsTheSameConnection(v: View, listener: nat, env: Env, fd: nat)
    requires env.ready <= v.open && Fair(v, listener, env) && fd < 1024
    ensures var turn, after, io := Scan(v, fd, listener, env), Scan(v, 1024, listener, env), env.io(fd);
            if fd in env.ready then
              && fd in turn.open
              && Count(turn.log, Open(fd)) == Count(v.log, Open(fd))
              && Count(turn.log, Close(fd)) == Count(v.log, Close(fd))
              && Count(turn.log, Use(fd)) == Count(v.log, Use(fd))
              && Count(after.log, Use(fd)) == Count(v.log, Use(fd)) + 1 + Bit(fd != listener && io.received > 0)
              && Count(after.log, Close(fd)) == Count(v.log, Close(fd)) + Bit(fd != listener && (io.received <= 0 || io.sent <= 0 || io.quit))
            else
              && Count(after.log, Use(fd)) == Count(v.log, Use(fd))
              && Count(after.log, Close(fd)) == Count(v.log, Close(fd))
  {
    hide ServiceLog, Scan, Count;
    ScanCount(v, fd, listener, env, Use(fd));
    ScanCount(v, fd, listener, env, Close(fd));
    ScanCount(v, FD_SETSIZE, listener, env, Use(fd));
    ScanCount(v, FD_SETSIZE, listener, env, Close(fd));
    ServiceLogCount(fd, env.io(fd));
    if fd in env.ready {
      UntouchedUntilVisited(v, fd, listener, env, fd);
    }
  }

  predicate Accepting(listener: nat, env: Env) { listener in env.ready && env.accept >= 0 }

  lemma {:induction false} ScanKeepsOthers(v: View, k: nat, listener: nat, env: Env, fd: int)
    requires fd != listener && !(Accepting(listener, env) && fd == env.accept)
    ensures fd in Scan(v, k, listener, env).clients <==>
            fd in v.clients && !(0 <= fd < k && fd in env.ready && Drops(env.io(fd)))
  {
    if k > 0 {
      ScanKeepsOthers(v, k - 1, listener, env, fd);
    }
  }

  /** The clients below k that are reported and whose connection ends. */
  function LeaversBelow(v: View, k: nat, env: Env): set<int> {
    set c | c in v.clients && 0 <= c < k && c in env.ready && (env.io(c).received <= 0 || env.io(c).sent <= 0 || env.io(c).quit)
  }

  /** Whether the table has room for the accepted client: it had, or enough clients below the listener's number leave. */
  predicate HasRoom(v: View, listener: nat, env: Env) {
    |v.clients| - |LeaversBelow(v, listener, env)| < 100
  }

  lemma {:induction false} ClientsBeforeListener(v: View, k: nat, listener: nat, env: Env)
    requires k <= listener
    ensures Scan(v, k, listener, env).clients == v.clients - LeaversBelow(v, k, env)
  {
    if k > 0 {
      ClientsBeforeListener(v, k - 1, listener, env);
    }
  }

  lemma RoomExactly(v: View, listener: nat, env: Env)
    ensures |Scan(v, listener, listener, env).clients| < MAX_CONNECTION <==> HasRoom(v, listener, env)
  {
    var leavers := LeaversBelow(v, listener, env);
    ClientsBeforeListener(v, listener, listener, env);
    assert v.clients == (v.clients - leavers) + leavers;
  }

  lemma {:induction false} AcceptedStays(v: View, k: nat, listener: nat, env: Env)
    requires Accepting(listener, env) && Fair(v, listener, env) && env.ready <= v.open && v.clients <= v.open && listener < k
    requires env.accept != listener
    ensures env.accept in Scan(v, k, listener, env).clients <==> |Scan(v, listener, listener, env).clients| < MAX_CONNECTION
  {
    var fd := env.accept;
    if k == listener + 1 {
      ClientsOpen(v, listener, listener, env);
    } else {
      AcceptedStays(v, k - 1, listener, env);
      if k - 1 == fd && fd in env.ready {
        UntouchedUntilVisited(v, listener, listener, env, fd);
      }
    }
  }

  lemma {:induction false} ClientsOpen(v: View, k: nat, listener: nat, env: Env)
    requires v.clients <= v.open && k <= listener
    ensures Scan(v, k, listener, env).clients <= Scan(v, k, listener, env).open
  {
    if k > 0 {
      ClientsOpen(v, k - 1, listener, env);
    }
  }

  /**
   The round as an operation on the set of clients: exactly the reported clients whose
   connection ended are lost, and the accepted one is gained exactly if the table has
   room, counting the clients below the listener's number that leave before it is accepted.
   */
  lemma RoundOnTheSetOfClients(v: View, listener: nat, env: Env, fd: int)
    requires listener < FD_SETSIZE && listener !in v.clients && v.clients + {listener} <= v.open
    requires forall c :: c in v.clients ==> 0 <= c < FD_SETSIZE
    requires env.ready <= v.clients + {listener} && Fair(v, listener, env) && fd != listener
    ensures var after, io := Scan(v, 1024, listener, env).clients, env.io(fd);
            fd in after <==>
            if Accepting(listener, env) && fd == env.accept then HasRoom(v, listener, env)
            else fd in v.clients && !(fd in env.ready && (io.received <= 0 || io.sent <= 0 || io.quit))
  {
    RoomExactly(v, listener, env);
    hide HasRoom;
    if Accepting(listener, env) && fd == env.accept {
      AcceptedStays(v, FD_SETSIZE, listener, env);
    } else {
      ScanKeepsOthers(v, FD_SETSIZE, listener, env, fd);
    }
  }

  // ---------------------------------------------------------------- sockets that nobody tracks

  /** The open numbers that are neither the listener nor in the table. */
  function Untracked(v: View, listener: nat): set<int> { v.open - v.clients - {listener} }

  /** The round accepts a connection for which the table has no room. */
  predicate Refuses(v: View, listener: nat, env: Env) { Accepting(listener, env) && !HasRoom(v, listener, env) }

  predicate Tracks(v: View, listener: nat) { listener !in v.clients && v.clients + {listener} <= v.open }

  /** select reports only what it was asked about, and accept returns a number that is not open. */
  predicate Regular(v: View, listener: nat, env: Env) {
    listener < FD_SETSIZE && env.ready <= v.clients + {listener} && Fair(v, listener, env)
  }

  lemma VisitTracks(v: View, i: nat, listener: nat, env: Env)
    requires Tracks(v, listener) && (i in env.ready && i != listener ==> i in v.clients)
    requires i == listener && Accepting(listener, env) ==> env.accept !in v.open
    ensures var after := Visit(v, i, listener, env);
            && Tracks(after, listener)
            && Untracked(after, listener) == Untracked(v, listener) +
               if i == listener && Accepting(listener, env) && |v.clients| >= MAX_CONNECTION then {env.accept} else {}
  {
    hide Drops, ServiceLog;
  }

  /** A scan adds to the untracked numbers exactly a connection that it refuses. */
  lemma {:induction false} ScanTracks(v: View, k: nat, listener: nat, env: Env)
    requires Tracks(v, listener) && Regular(v, listener, env)
    ensures var after := Scan(v, k, listener, env);
            && Tracks(after, listener)
            && Untracked(after, listener) == Untracked(v, listener) +
               if k > listener && Refuses(v, listener, env) then {env.accept} else {}
  {
    hide Visit, Untracked, HasRoom;
    if k > 0 {
      var i, mid := k - 1, Scan(v, k - 1, listener, env);
      ScanTracks(v, i, listener, env);
      if i in env.ready {
        UntouchedUntilVisited(v, i, listener, env, i);
      }
      RoomExactly(v, listener, env);
      VisitTracks(mid, i, listener, env);
    }
  }

  lemma VisitOfAnother(v: View, i: nat, listener: nat, env: Env, e: Event)
    requires i in env.ready ==> e.fd != i && (i == listener && env.accept >= 0 ==> e.fd != env.accept)
    ensures Count(Visit(v, i, listener, env).log, e) == Count(v.log, e)
  {
    hide Count, ServiceLog;
    if i in env.ready && i != listener {
      CountConcat(v.log, ServiceLog(i, env.io(i)), e);
      ServiceLogCount(i, env.io(i));
    } else if i in env.ready {
      CountAppend(v.log, Use(listener), e);
      CountAppend(v.log + [Use(listener)], Open(env.accept), e);
    }
  }

  /** No call is made on an untracked number, and it is not opened again. */
  lemma {:induction false} ScanLeavesUntracked(v: View, k: nat, listener: nat, env: Env, e: Event)
    requires Tracks(v, listener) && Regular(v, listener, env) && e.fd in Untracked(v, listener)
    ensures Count(Scan(v, k, listener, env).log, e) == Count(v.log, e)
  {
    hide Count, HasRoom, Visit;
    if k > 0 {
      var i, mid := k - 1, Scan(v, k - 1, listener, env);
      ScanLeavesUntracked(v, i, listener, env, e);
      ScanTracks(v, i, listener, env);
      assert e.fd in mid.open && (i in env.ready ==> e.fd != i);
      VisitOfAnother(mid, i, listener, env, e);
    }
  }

  function Start(listener: nat): View { View({}, {listener}, []) }

  function Run(listener: nat, envs: seq<Env>): View {
    if envs == [] then Start(listener)
    else Scan(Run(listener, envs[..|envs| - 1]), FD_SETSIZE, listener, envs[|envs| - 1])
  }

  ghost predicate RegularRun(listener: nat, envs: seq<Env>) {
    forall k :: 0 <= k < |envs| ==> Regular(Run(listener, envs[..k]), listener, envs[k])
  }

  /** The connections accepted in a run while the table was full. */
  function Refused(listener: nat, envs: seq<Env>): set<int> {
    if envs == [] then {}
    else
      var front, env := envs[..|envs| - 1], envs[|envs| - 1];
      Refused(listener, front) + if Refuses(Run(listener, front), listener, env) then {env.accept} else {}
  }

  lemma {:induction false} UntrackedExactly(listener: nat, envs: seq<Env>)
    requires RegularRun(listener, envs)
    ensures Tracks(Run(listener, envs), listener) && Untracked(Run(listener, envs), listener) == Refused(listener, envs)
  {
    if envs == [] {
      assert Untracked(Start(listener), listener) == {};
    } else {
      hide Scan, Refuses, Regular, Untracked, Tracks;
      var n := |envs| - 1;
      assert forall k :: 0 <= k < n ==> envs[..n][..k] == envs[..k];
      UntrackedExactly(listener, envs[..n]);
      assert Regular(Run(listener, envs[..n]), listener, envs[n]);
      RefusedAdded(Run(listener, envs[..n]), listener, envs[n]);
    }
  }

  /** After every run the open numbers are exactly the listener, the clients and the refused connections. */
  lemma OpenExactly(listener: nat, envs: seq<Env>)
    requires RegularRun(listener, envs)
    ensures var v := Run(listener, envs);
            && v.open == {listener} + v.clients + Refused(listener, envs)
            && listener !in v.clients && Refused(listener, envs) !! v.clients + {listener}
  {
    hide Run, Refused;
    UntrackedExactly(listener, envs);
  }

  lemma RefusedAdded(v: View, listener: nat, env: Env)
    requires Tracks(v, listener) && Regular(v, listener, env)
    ensures var after := Scan(v, FD_SETSIZE, listener, env);
            && Tracks(after, listener)
            && Untracked(after, listener) == Untracked(v, listener) + if Refuses(v, listener, env) then {env.accept} else {}
  {
    ScanTracks(v, FD_SETSIZE, listener, env);
  }

  /** A refused connection is never used, closed or opened again: it stays open to the end of the run. */
  lemma {:induction false} RefusedForGood(listener: nat, envs: seq<Env>, k: nat, e: Event)
    requires RegularRun(listener, envs) && k <= |envs| && e.fd in Refused(listener, envs[..k])
    ensures e.fd in Refused(listener, envs)
    ensures Count(Run(listener, envs).log, e) == Count(Run(listener, envs[..k]).log, e)
  {
    hide Scan, Refuses, Regular, Count;
    if k == |envs| {
      assert envs[..k] == envs;
    } else {
      var n := |envs| - 1;
      assert forall j :: 0 <= j <= n ==> envs[..n][..j] == envs[..j];
      RefusedForGood(listener, envs[..n], k, e);
      UntrackedExactly(listener, envs[..n]);
      ScanLeavesUntracked(Run(listener, envs[..n]), FD_SETSIZE, listener, envs[n], e);
    }
  }
}
