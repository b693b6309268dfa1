/** What holds over the rounds and the cleanup of the TLS server. */
module TlsTheorems {
  import opened Wrappers
  import opened Descriptors
  import opened Clients
  import opened DenseArrays
  import opened TlsServers

  // ---------------------------------------------------------------- reads are justified

  /** poll reports nothing for the slots that hold -1. */
  predicate PollAnswer(v: View, env: Env) {
    |env.pollin| == 100 && forall i :: |v.tab| <= i < 100 ==> !env.pollin[i]
  }

  /** Slots not yet visited hold what they held when poll returned, or the connection just accepted. */
  lemma {:induction false} UnvisitedAsPolled(v: View, k: nat, env: Env, p: nat)
    requires v.tab != [] && 1 <= k <= p < |Scan(v, k, env).tab|
    ensures if p < |v.tab| then Scan(v, k, env).tab[p] == v.tab[p] else p == |v.tab|
  {
    if k > 1 {
      UnvisitedAsPolled(v, k - 1, env, p);
    } else {
      assert Scan(v, 0, env) == v;
    }
  }

  /**
   Every SSL_read of a round is on a session that this poll reported readable, although
   swaps leave revents behind: the slot read still holds the session it held at the poll.
   */
  lemma ReadsAreReported(v: View, i: nat, env: Env)
    requires v.tab != [] && PollAnswer(v, env) && ReadsAt(Scan(v, i, env), i, env)
    ensures i < |v.tab| && env.pollin[i] && Scan(v, i, env).tab[i] == v.tab[i]
  {
    UnvisitedAsPolled(v, i, env, i);
  }

  // ---------------------------------------------------------------- which clients are read

  /** The round accepts a client and completes its handshake. */
  predicate Joins(v: View, env: Env) {
    |env.pollin| > 0 && env.pollin[0] && env.sock > 0 && |v.tab| < 100 && env.handshake > 0
  }

  /** The reported clients in the slots below p whose connection ends. */
  function Leavers(v: View, p: nat, env: Env): nat
    requires p <= |v.tab|
  {
    if p <= 1 then 0
    else
      var io := env.io(v.tab[p - 1].fd);
      Leavers(v, p - 1, env) + Bit(p - 1 < |env.pollin| && env.pollin[p - 1] && (io.received <= 0 || io.quit))
  }

  /**
   A reported client is read unless so many clients before it have left that its slot is
   beyond the end when the scan comes to it: it has been moved to a slot already visited.
   */
  predicate IsRead(v: View, p: nat, env: Env)
    requires 1 <= p < |v.tab|
  {
    p < |env.pollin| && env.pollin[p] && p + Leavers(v, p, env) < |v.tab| + Bit(Joins(v, env))
  }

  /** The length of the table while the scan runs. */
  lemma {:induction false} ScanLength(v: View, k: nat, env: Env)
    requires v.tab != [] && PollAnswer(v, env) && 1 <= k <= |v.tab|
    ensures var len, n := |Scan(v, k, env).tab|, |v.tab| + Bit(Joins(v, env));
            && (k < len <==> k + Leavers(v, k, env) < n)
            && (k + Leavers(v, k, env) <= n ==> len == n - Leavers(v, k, env))
  {
    if k == 1 {
      assert Scan(v, 0, env) == v;
      assert Scan(v, 1, env) == Visit(v, 0, env);
    } else {
      ScanLength(v, k - 1, env);
      var mid := Scan(v, k - 1, env);
      if k - 1 < |mid.tab| {
        UnvisitedAsPolled(v, k - 1, env, k - 1);
      } else {
        NothingBeyond(v, k - 1, k, env);
      }
    }
  }

  /** Exactly when the scan reads the client of slot p: a condition on what poll and the peers say. */
  lemma ReadExactly(v: View, p: nat, env: Env)
    requires v.tab != [] && PollAnswer(v, env) && 1 <= p < |v.tab|
    ensures ReadsAt(Scan(v, p, env), p, env) <==> IsRead(v, p, env)
  {
    ScanLength(v, p, env);
  }

  // ---------------------------------------------------------------- what is done to a client

  /** What one service does to the client's own SSL object: one read, and a write or the end. */
  function ServiceCount(e: Event, io: Io): nat {
    match e
    case Open(_) => 0
    case Use(_) => 1 + Bit(io.received > 0 && !io.quit)
    case Close(_) => Bit(io.received <= 0 || io.quit)
  }

  lemma ReadLog(v: View, i: nat, io: Io)
    requires i < |v.tab|
    ensures var id := v.tab[i].ssl;
            Read(v, i, io).sslLog == v.sslLog + [Use(id)] + [if Disconnects(io) then Close(id) else Use(id)]
  {
  }

  lemma ReadCount(v: View, i: nat, io: Io, e: Event)
    requires i < |v.tab|
    ensures Count(Read(v, i, io).sslLog, e) == Count(v.sslLog, e) + if v.tab[i].ssl == e.fd then ServiceCount(e, io) else 0
  {
    ReadLog(v, i, io);
    hide Count, Read;
    var id := v.tab[i].ssl;
    CountAppend(v.sslLog, Use(id), e);
    CountAppend(v.sslLog + [Use(id)], if Disconnects(io) then Close(id) else Use(id), e);
  }

  lemma AcceptCount(v: View, env: Env, e: Event)
    ensures Count(Accepted(v, env).sslLog, e) ==
            Count(v.sslLog, e) +
            if env.sock > 0 && |v.tab| < MAX_CONNECTION && e.fd == |v.bound|
            then (if e.Close? then Bit(env.handshake <= 0) else 1) else 0
  {
    var id := |v.bound|;
    hide Count;
    CountAppend(v.sslLog, Open(id), e);
    CountAppend(v.sslLog + [Open(id)], Use(id), e);
    CountAppend(v.sslLog + [Open(id)] + [Use(id)], Close(id), e);
  }

  lemma {:induction false} ScanCount(listener: int, v: View, k: nat, p: nat, env: Env, e: Event)
    requires Consistent(listener, v) && PollAnswer(v, env) && 1 <= p < |v.tab| && e.fd == v.tab[p].ssl && !e.Open?
    ensures Count(Scan(v, k, env).sslLog, e) ==
            Count(v.sslLog, e) + if p < k && IsRead(v, p, env) then ServiceCount(e, env.io(v.tab[p].fd)) else 0
  {
    hide Count, Read, Accepted, Replay, SslSet, IsRead;
    if k > 0 {
      var mid, i := Scan(v, k - 1, env), k - 1;
      assert v.tab[p] in v.tab && v.tab[0] in v.tab;
      ScanCount(listener, v, k - 1, p, env, e);
      if 1 <= i < |v.tab| {
        ReadExactly(v, i, env);
      }
      if ReadsAt(mid, i, env) {
        ReadsAreReported(v, i, env);
        ReadCount(mid, i, env.io(mid.tab[i].fd), e);
      } else if i == 0 && env.pollin[0] {
        AcceptCount(mid, env, e);
      }
    }
  }

  /**
   The round of one client: if it is read, its SSL object sees one SSL_read and either one
   SSL_write or its end; otherwise, reported or not, nothing.
   */
  lemma UsedOnlyIfReported(listener: int, v: View, p: nat, env: Env)
    requires Consistent(listener, v) && PollAnswer(v, env) && 1 <= p < |v.tab|
    ensures var log, id, io := Scan(v, MAX_CONNECTION, env).sslLog, v.tab[p].ssl, env.io(v.tab[p].fd);
            && Count(log, Use(id)) == Count(v.sslLog, Use(id)) + (if IsRead(v, p, env) then 1 + Bit(io.received > 0 && !io.quit) else 0)
            && Count(log, Close(id)) == Count(v.sslLog, Close(id)) + Bit(IsRead(v, p, env) && (io.received <= 0 || io.quit))
  {
    ScanCount(listener, v, MAX_CONNECTION, p, env, Use(v.tab[p].ssl));
    ScanCount(listener, v, MAX_CONNECTION, p, env, Close(v.tab[p].ssl));
  }

  // ---------------------------------------------------------------- SSL objects over a whole run

  /** SSL objects are created once each, in the order of their numbers. */
  ghost predicate Numbered(v: View) {
    forall id :: Count(v.sslLog, Open(id)) == Bit(0 <= id < |v.bound|)
  }

  lemma AcceptedNumbered(v: View, env: Env)
    requires Numbered(v)
    ensures Numbered(Accepted(v, env))
  {
    hide Count;
    forall id ensures Count(Accepted(v, env).sslLog, Open(id)) == Bit(0 <= id < |Accepted(v, env).bound|) {
      AcceptCount(v, env, Open(id));
    }
  }

  lemma ReadNumbered(v: View, i: nat, io: Io)
    requires Numbered(v) && i < |v.tab|
    ensures Numbered(Read(v, i, io))
  {
    hide Count;
    forall id ensures Count(Read(v, i, io).sslLog, Open(id)) == Bit(0 <= id < |v.bound|) {
      ReadCount(v, i, io, Open(id));
    }
  }

  /** What accept returns is not open when the scan calls it: at its first slot. */
  ghost predicate Fair(v: View, env: Env) { env.sock >= 0 ==> env.sock !in v.open }

  lemma {:induction false} ScanConsistent(listener: int, v: View, k: nat, env: Env)
    requires Consistent(listener, v) && Fair(v, env)
    ensures Consistent(listener, Scan(v, k, env))
  {
    hide Consistent, Read, Accepted;
    if k > 0 {
      ScanConsistent(listener, v, k - 1, env);
      ScanKeeps(listener, Scan(v, k - 1, env), k - 1, env);
    }
  }

  lemma {:induction false} ScanNumbered(v: View, k: nat, env: Env)
    requires Numbered(v)
    ensures Numbered(Scan(v, k, env))
  {
    hide Numbered, Read, Accepted;
    if k > 0 {
      var mid, i := Scan(v, k - 1, env), k - 1;
      ScanNumbered(v, k - 1, env);
      if ReadsAt(mid, i, env) {
        ReadNumbered(mid, i, env.io(mid.tab[i].fd));
      } else if i == 0 {
        AcceptedNumbered(mid, env);
      }
    }
  }

  // ---------------------------------------------------------------- the set of clients

  /** One visit as an operation on the set of sessions. */
  lemma VisitSet(listener: int, v: View, i: nat, env: Env, s: Session)
    requires Consistent(listener, v) && |env.pollin| == MAX_CONNECTION
    ensures s in Visit(v, i, env).tab <==>
            if ReadsAt(v, i, env) && Disconnects(env.io(v.tab[i].fd)) then s in v.tab && s != v.tab[i]
            else s in v.tab || (i == 0 && Joins(v, env) && s == Session(env.sock, |v.bound|))
  {
    hide Replay, SslSet;
    if ReadsAt(v, i, env) {
      SwapRemovedSessions(v.tab, i);
    }
  }

  /** A client is lost by the round if and only if it is read and its connection ends. */
  lemma {:induction false} LostExactly(listener: int, v: View, k: nat, p: nat, env: Env)
    requires Consistent(listener, v) && Fair(v, env) && PollAnswer(v, env) && 1 <= p < |v.tab|
    ensures v.tab[p] in Scan(v, k, env).tab <==> 
            var io := env.io(v.tab[p].fd); !(p < k && IsRead(v, p, env) && (io.received <= 0 || io.quit))
  {
    hide IsRead, Replay, SslSet, Consistent, Read, Accepted;
    if k > 0 {
      var mid, i, s := Scan(v, k - 1, env), k - 1, v.tab[p];
      LostExactly(listener, v, k - 1, p, env);
      ScanConsistent(listener, v, k - 1, env);
      PolledSessions(listener, v, p);
      VisitSet(listener, mid, i, env, s);
      if 1 <= i < |v.tab| {
        ReadExactly(v, i, env);
      }
      if ReadsAt(mid, i, env) {
        ReadsAreReported(v, i, env);
      }
    }
  }

  lemma PolledSessions(listener: int, v: View, p: nat)
    requires Consistent(listener, v) && p < |v.tab|
    ensures forall q :: 0 <= q < |v.tab| && q != p ==> v.tab[q] != v.tab[p]
    ensures v.tab[p].ssl < |v.bound|
  {
    assert v.tab[p] in v.tab;
  }

  /** The only session gained is that of the client accepted in this round, and it is not lost again. */
  lemma {:induction false} GainedExactly(listener: int, v: View, k: nat, env: Env, s: Session)
    requires Consistent(listener, v) && Fair(v, env) && PollAnswer(v, env) && s !in v.tab
    ensures s in Scan(v, k, env).tab <==> k > 0 && Joins(v, env) && s == Session(env.sock, |v.bound|)
  {
    assert v.tab != [];
    hide Replay, SslSet, Consistent, Read, Accepted;
    if k > 0 {
      var mid, i := Scan(v, k - 1, env), k - 1;
      GainedExactly(listener, v, k - 1, env, s);
      ScanConsistent(listener, v, k - 1, env);
      VisitSet(listener, mid, i, env, s);
      if ReadsAt(mid, i, env) {
        ReadsAreReported(v, i, env);
      }
    }
  }

  predicate Lost(v: View, s: Session, env: Env) {
    exists p :: 1 <= p < |v.tab| && v.tab[p] == s && IsRead(v, p, env) && (env.io(s.fd).received <= 0 || env.io(s.fd).quit)
  }

  /** The round as an operation on the set of sessions. */
  lemma RoundOnTheSetOfSessions(listener: int, v: View, env: Env, s: Session)
    requires Consistent(listener, v) && Fair(v, env) && PollAnswer(v, env)
    ensures s in Scan(v, MAX_CONNECTION, env).tab <==>
            (s in v.tab && !Lost(v, s, env)) || (Joins(v, env) && s == Session(env.sock, |v.bound|))
  {
    if s in v.tab {
      var p :| 0 <= p < |v.tab| && v.tab[p] == s;
      hide IsRead, Replay;
      if p > 0 {
        LostExactly(listener, v, MAX_CONNECTION, p, env);
      } else {
        ScanConsistent(listener, v, MAX_CONNECTION, env);
        assert Scan(v, MAX_CONNECTION, env).tab[0] == s;
      }
    } else {
      GainedExactly(listener, v, MAX_CONNECTION, env, s);
    }
  }

  function Run(listener: int, envs: seq<Env>): View {
    if envs == [] then Start(listener)
    else Scan(Run(listener, envs[..|envs| - 1]), MAX_CONNECTION, envs[|envs| - 1])
  }

  ghost predicate FairRun(listener: int, envs: seq<Env>) {
    forall k :: 0 <= k < |envs| ==> Fair(Run(listener, envs[..k]), envs[k])
  }

  lemma StartNumbered(listener: int)
    ensures Numbered(Start(listener))
  {
    forall id ensures Count([Open(0)], Open(id)) == Bit(id == 0) {
      CountAppend([], Open(0), Open(id));
      assert [] + [Open(0)] == [Open(0)];
    }
  }

  /** The parallel-array invariant holds after every round of every run. */
  lemma {:induction false} RunKeeps(listener: int, envs: seq<Env>)
    requires FairRun(listener, envs)
    ensures Consistent(listener, Run(listener, envs)) && Numbered(Run(listener, envs))
  {
    hide Consistent, Numbered;
    if envs == [] {
      StartConsistent(listener);
      StartNumbered(listener);
    } else {
      var n := |envs| - 1;
      assert forall k :: 0 <= k < n ==> envs[..n][..k] == envs[..k];
      RunKeeps(listener, envs[..n]);
      assert Fair(Run(listener, envs[..n]), envs[n]);
      ScanConsistent(listener, Run(listener, envs[..n]), MAX_CONNECTION, envs[n]);
      ScanNumbered(Run(listener, envs[..n]), MAX_CONNECTION, envs[n]);
    }
  }

  // ---------------------------------------------------------------- sockets that nobody tracks

  function FdSet(tab: seq<Session>): set<int> { set s | s in tab :: s.fd }

  /** The open numbers that no slot holds. */
  function Untracked(v: View): set<int> { v.open - FdSet(v.tab) }

  /** The round accepts number 0, or a connection for which no slot is left. */
  predicate Refuses(v: View, env: Env) {
    |env.pollin| > 0 && env.pollin[0] && (env.sock == 0 || (env.sock > 0 && |v.tab| >= MAX_CONNECTION))
  }

  lemma FdSetAppend(tab: seq<Session>, s: Session)
    ensures FdSet(tab + [s]) == FdSet(tab) + {s.fd}
  {
    forall t | t in tab ensures t in tab + [s] {
    }
    assert (tab + [s])[|tab|] == s;
  }

  lemma FdSetSwapRemoved(tab: seq<Session>, i: nat)
    requires DistinctSessions(tab) && 1 <= i < |tab|
    ensures FdSet(SwapRemoved(tab, i)) == FdSet(tab) - {tab[i].fd}
  {
    SwapRemovedSessions(tab, i);
    SwapRemovedFds(tab, i);
    assert forall s :: s in tab && s.fd != tab[i].fd ==> s in SwapRemoved(tab, i);
  }

  lemma AcceptedUntracked(listener: int, v: View, env: Env)
    requires Consistent(listener, v) && (env.sock >= 0 ==> env.sock !in v.open) && |env.pollin| > 0 && env.pollin[0]
    ensures Untracked(Accepted(v, env)) == Untracked(v) + if Refuses(v, env) then {env.sock} else {}
  {
    assert forall s :: s in v.tab ==> s.fd in v.open;
    FdSetAppend(v.tab, Session(env.sock, |v.bound|));
    hide Replay, SslSet, DistinctSessions, BoundTo;
  }

  lemma ReadUntracked(listener: int, v: View, i: nat, io: Io)
    requires Consistent(listener, v) && 1 <= i < |v.tab|
    ensures Untracked(Read(v, i, io)) == Untracked(v)
  {
    assert v.tab[i] in v.tab;
    FdSetSwapRemoved(v.tab, i);
    hide Replay, SslSet, DistinctSessions, BoundTo, SwapRemoved;
  }

  /** A scan adds to the untracked numbers exactly a connection that it refuses. */
  lemma {:induction false} ScanUntracked(listener: int, v: View, k: nat, env: Env)
    requires Consistent(listener, v) && Fair(v, env)
    ensures Untracked(Scan(v, k, env)) == Untracked(v) + if k > 0 && Refuses(v, env) then {env.sock} else {}
  {
    hide Consistent, Untracked, Read, Accepted;
    if k > 0 {
      var mid, i := Scan(v, k - 1, env), k - 1;
      ScanUntracked(listener, v, k - 1, env);
      ScanConsistent(listener, v, k - 1, env);
      if ReadsAt(mid, i, env) {
        ReadUntracked(listener, mid, i, env.io(mid.tab[i].fd));
      } else if i == 0 && |env.pollin| > 0 && env.pollin[0] {
        AcceptedUntracked(listener, v, env);
      }
    }
  }

  lemma ReadFdCount(listener: int, v: View, i: nat, io: Io, e: Event)
    requires Consistent(listener, v) && i < |v.tab| && e.fd != v.tab[i].fd
    ensures Count(Read(v, i, io).fdLog, e) == Count(v.fdLog, e)
  {
    var fd := v.tab[i].fd;
    ReadFds(listener, v, i, io);
    hide Count, Consistent, BoundTo;
    CountAppend(v.fdLog, Use(fd), e);
    CountAppend(v.fdLog + [Use(fd)], Close(fd), e);
    CountAppend(v.fdLog + [Use(fd)], Use(fd), e);
  }

  lemma AcceptFdCount(v: View, env: Env, e: Event)
    requires e.fd != Listener(v) && (env.sock >= 0 ==> e.fd != env.sock)
    ensures Count(Accepted(v, env).fdLog, e) == Count(v.fdLog, e)
  {
    var asked := v.fdLog + [Use(Listener(v))];
    assert BoundTo(v.bound + [env.sock], |v.bound|) == env.sock;
    hide Count, BoundTo, Listener;
    CountAppend(v.fdLog, Use(Listener(v)), e);
    CountAppend(asked, Open(env.sock), e);
    CountAppend(asked + [Open(env.sock)], Use(env.sock), e);
    CountAppend(asked + [Open(env.sock)] + [Use(env.sock)], Close(env.sock), e);
  }

  lemma ReadOwnFd(listener: int, v: View, i: nat, io: Io, e: Event)
    requires Consistent(listener, v) && i < |v.tab| && e.fd == v.tab[i].fd
    ensures Count(Read(v, i, io).fdLog, e) == Count(v.fdLog, e) + ServiceCount(e, io)
  {
    var fd := v.tab[i].fd;
    ReadFds(listener, v, i, io);
    hide Count, Consistent, BoundTo;
    CountAppend(v.fdLog, Use(fd), e);
    CountAppend(v.fdLog + [Use(fd)], Close(fd), e);
    CountAppend(v.fdLog + [Use(fd)], Use(fd), e);
  }

  lemma {:induction false} ScanFdCount(listener: int, v: View, k: nat, p: nat, env: Env, e: Event)
    requires Consistent(listener, v) && Fair(v, env) && PollAnswer(v, env) && 1 <= p < |v.tab| && e.fd == v.tab[p].fd
    ensures Count(Scan(v, k, env).fdLog, e) ==
            Count(v.fdLog, e) + if p < k && IsRead(v, p, env) then ServiceCount(e, env.io(v.tab[p].fd)) else 0
  {
    hide Count, Read, Accepted, Replay, SslSet, IsRead, ServiceCount;
    if k > 0 {
      var mid, i := Scan(v, k - 1, env), k - 1;
      assert v.tab[p] in v.tab && v.tab[0] in v.tab;
      ScanFdCount(listener, v, k - 1, p, env, e);
      ScanConsistent(listener, v, k - 1, env);
      if 1 <= i < |v.tab| {
        ReadExactly(v, i, env);
      }
      if ReadsAt(mid, i, env) {
        ReadsAreReported(v, i, env);
        if i == p {
          ReadOwnFd(listener, mid, i, env.io(mid.tab[i].fd), e);
        } else {
          ReadFdCount(listener, mid, i, env.io(mid.tab[i].fd), e);
        }
      } else if i == 0 && env.pollin[0] {
        assert mid == v;
        AcceptFdCount(v, env, e);
      }
    }
  }

  /** The calls on a client's descriptor in a round: those of its SSL object, and its close with the object's end. */
  lemma DescriptorCallsExactly(listener: int, v: View, p: nat, env: Env)
    requires Consistent(listener, v) && Fair(v, env) && PollAnswer(v, env) && 1 <= p < |v.tab|
    ensures var log, fd, io := Scan(v, 100, env).fdLog, v.tab[p].fd, env.io(v.tab[p].fd);
            && Count(log, Use(fd)) == Count(v.fdLog, Use(fd)) +
                                      (if IsRead(v, p, env) then 1 + Bit(io.received > 0 && !io.quit) else 0)
            && Count(log, Close(fd)) == Count(v.fdLog, Close(fd)) + Bit(IsRead(v, p, env) && (io.received <= 0 || io.quit))
  {
    hide Scan, Count, Consistent, IsRead;
    ScanFdCount(listener, v, 100, p, env, Use(v.tab[p].fd));
    ScanFdCount(listener, v, 100, p, env, Close(v.tab[p].fd));
    assert p < 100 by {
      TableFits(listener, v);
    }
  }

  lemma TableFits(listener: int, v: View)
    requires Consistent(listener, v)
    ensures |v.tab| <= 100
  {
  }

  /** No call is made on an untracked number, and it is not opened again. */
  lemma {:induction false} ScanLeavesUntracked(listener: int, v: View, k: nat, env: Env, e: Event)
    requires Consistent(listener, v) && Fair(v, env) && e.fd in Untracked(v)
    ensures Count(Scan(v, k, env).fdLog, e) == Count(v.fdLog, e)
  {
    hide Count, Read, Accepted, Replay, SslSet;
    if k > 0 {
      var mid, i := Scan(v, k - 1, env), k - 1;
      ScanLeavesUntracked(listener, v, k - 1, env, e);
      ScanConsistent(listener, v, k - 1, env);
      ScanUntracked(listener, v, k - 1, env);
      if ReadsAt(mid, i, env) {
        assert mid.tab[i] in mid.tab;
        ReadFdCount(listener, mid, i, env.io(mid.tab[i].fd), e);
      } else if i == 0 {
        assert v.tab[0] in v.tab;
        AcceptFdCount(v, env, e);
      }
    }
  }

  /** The connections accepted in a run without a slot for them. */
  function Refused(listener: int, envs: seq<Env>): set<int> {
    if envs == [] then {}
    else
      var front, env := envs[..|envs| - 1], envs[|envs| - 1];
      Refused(listener, front) + if Refuses(Run(listener, front), env) then {env.sock} else {}
  }

  lemma {:induction false} UntrackedExactly(listener: int, envs: seq<Env>)
    requires FairRun(listener, envs)
    ensures Untracked(Run(listener, envs)) == Refused(listener, envs)
  {
    if envs == [] {
      FdSetAppend([], Session(listener, 0));
      assert [] + [Session(listener, 0)] == [Session(listener, 0)];
    } else {
      hide Scan, Refuses, Untracked, Consistent, Numbered;
      var n := |envs| - 1;
      assert forall k :: 0 <= k < n ==> envs[..n][..k] == envs[..k];
      UntrackedExactly(listener, envs[..n]);
      RunKeeps(listener, envs[..n]);
      assert Fair(Run(listener, envs[..n]), envs[n]);
      ScanUntracked(listener, Run(listener, envs[..n]), MAX_CONNECTION, envs[n]);
    }
  }

  lemma TrackedAreOpen(listener: int, v: View)
    requires Consistent(listener, v)
    ensures FdSet(v.tab) <= v.open
  {
  }

  /** After every run the open numbers are exactly those in the slots and the refused connections. */
  lemma OpenExactly(listener: int, envs: seq<Env>)
    requires FairRun(listener, envs)
    ensures var v := Run(listener, envs);
            v.open == FdSet(v.tab) + Refused(listener, envs) && FdSet(v.tab) !! Refused(listener, envs)
  {
    RunKeeps(listener, envs);
    TrackedAreOpen(listener, Run(listener, envs));
    UntrackedExactly(listener, envs);
    hide Run, Refused, Consistent, Numbered, FdSet;
  }

  /** A refused connection is never used, closed or opened again: it stays open to the end of the run. */
  lemma {:induction false} RefusedForGood(listener: int, envs: seq<Env>, k: nat, e: Event)
    requires FairRun(listener, envs) && k <= |envs| && e.fd in Refused(listener, envs[..k])
    ensures e.fd in Refused(listener, envs)
    ensures Count(Run(listener, envs).fdLog, e) == Count(Run(listener, envs[..k]).fdLog, e)
  {
    hide Scan, Refuses, Count, Consistent, Numbered, Untracked;
    if k == |envs| {
      assert envs[..k] == envs;
    } else {
      var n := |envs| - 1;
      assert forall j :: 0 <= j <= n ==> envs[..n][..j] == envs[..j];
      RefusedForGood(listener, envs[..n], k, e);
      UntrackedExactly(listener, envs[..n]);
      RunKeeps(listener, envs[..n]);
      assert Fair(Run(listener, envs[..n]), envs[n]);
      ScanLeavesUntracked(listener, Run(listener, envs[..n]), MAX_CONNECTION, envs[n], e);
    }
  }

  // ---------------------------------------------------------------- a client passed over

  function Reports(slots: set<nat>): seq<bool> { seq(MAX_CONNECTION, i => i in slots) }

  function Accepting(sock: int): Env { Env(Reports({0}), sock, 1, _ => Io(0, false, 0)) }

  /** A round in which only the listener is reported is one accept. */
  lemma {:induction false} OnlyAccepts(v: View, k: nat, env: Env)
    requires v.tab != [] && 1 <= k && env.pollin == Reports({0})
    ensures Scan(v, k, env) == Accepted(v, env)
  {
    hide Accepted;
    if k == 1 {
      assert Scan(v, 0, env) == v;
    } else {
      OnlyAccepts(v, k - 1, env);
    }
  }

  /** Two clients have connected. */
  lemma TwoClients(listener: int, a: int, b: int)
    requires a > 0 && b > 0 && a != b && listener !in {a, b}
    ensures var envs := [Accepting(a), Accepting(b)];
            && FairRun(listener, envs) && Run(listener, envs).open == {listener, a, b}
            && Run(listener, envs).tab == [Session(listener, 0), Session(a, 1), Session(b, 2)]
  {
    var one, envs := [Accepting(a)], [Accepting(a), Accepting(b)];
    assert one[..0] == [] && envs[..0] == [] && envs[..1] == one;
    assert Run(listener, []) == Start(listener);
    OnlyAccepts(Start(listener), MAX_CONNECTION, Accepting(a));
    OnlyAccepts(Run(listener, one), MAX_CONNECTION, Accepting(b));
    assert Run(listener, one) == Accepted(Start(listener), Accepting(a));
    assert Run(listener, envs) == Accepted(Run(listener, one), Accepting(b));
  }

  /**
   Two clients are reported and both have gone; the first is disconnected and the second moved into its slot:
   in this round the second is neither read nor closed.
   */
  lemma ReportedClientPassedOver(listener: int, a: int, b: int)
    requires a > 0 && b > 0 && a != b && listener !in {a, b}
    ensures var envs, env := [Accepting(a), Accepting(b)], Env(Reports({1, 2}), -1, 0, _ => Io(0, false, 0));
            var v := Run(listener, envs);
            var after := Scan(v, MAX_CONNECTION, env);
            && FairRun(listener, envs) && PollAnswer(v, env) && |v.tab| == 3
            && v.tab[2] == Session(b, 2) && env.pollin[2] && env.io(b).received == 0
            && Count(after.sslLog, Use(2)) == Count(v.sslLog, Use(2)) && Session(b, 2) in after.tab
  {
    var envs, env := [Accepting(a), Accepting(b)], Env(Reports({1, 2}), -1, 0, _ => Io(0, false, 0));
    TwoClients(listener, a, b);
    RunKeeps(listener, envs);
    var v := Run(listener, envs);
    assert PollAnswer(v, env);
    assert Leavers(v, 1, env) == 0;
    assert Leavers(v, 2, env) == 1;
    assert !IsRead(v, 2, env);
    hide Run, Consistent, Numbered, Count, Scan, IsRead;
    UsedOnlyIfReported(listener, v, 2, env);
    LostExactly(listener, v, MAX_CONNECTION, 2, env);
  }

  lemma {:induction false} FreeAllReplays(tab: seq<Session>, k: nat)
    requires DistinctSessions(tab) && k <= |tab|
    ensures Replay(SslSet(tab), FreeAll(tab, k)) == Some(SslSet(tab[k..]))
  {
    if k == 0 {
      assert tab[0..] == tab;
    } else {
      FreeAllReplays(tab, k - 1);
      var id, rest := tab[k - 1].ssl, tab[k - 1..];
      ReplayConcat(SslSet(tab), FreeAll(tab, k - 1), [Use(id), Close(id)]);
      SslSetHead(rest);
      ReplayUseClose(SslSet(rest), id);
      assert rest[1..] == tab[k..];
    }
  }

  lemma ReplayUseClose(live: set<int>, id: int)
    requires id in live
    ensures Replay(live, [Use(id), Close(id)]) == Some(live - {id})
  {
    assert [Use(id), Close(id)][..1] == [Use(id)];
    ReplayOne(live, Use(id));
  }

  lemma SslSetHead(tab: seq<Session>)
    requires tab != [] && DistinctSessions(tab)
    ensures tab[0].ssl in SslSet(tab) && SslSet(tab[1..]) == SslSet(tab) - {tab[0].ssl}
  {
    assert tab[0] in tab;
    forall x | x in SslSet(tab) && x != tab[0].ssl ensures x in SslSet(tab[1..]) {
      var s :| s in tab && s.ssl == x;
      assert s in tab[1..];
    }
    forall x | x in SslSet(tab[1..]) ensures x in SslSet(tab) - {tab[0].ssl} {
      var i :| 0 <= i < |tab| - 1 && tab[1..][i].ssl == x;
      assert tab[i + 1].ssl == x && tab[i + 1] in tab;
    }
  }

  /** Every SSL object created in a run is freed exactly once by the end of cleanup. */
  lemma EverySslFreedExactlyOnce(listener: int, envs: seq<Env>, id: int)
    requires FairRun(listener, envs)
    ensures var v := Run(listener, envs);
            var log := v.sslLog + FreeAll(v.tab, |v.tab|);
            && Replay({}, log) == Some({})
            && (0 <= id < |v.bound| ==> Count(log, Open(id)) == 1 && Count(log, Close(id)) == 1)
  {
    RunKeeps(listener, envs);
    var v := Run(listener, envs);
    var log := v.sslLog + FreeAll(v.tab, |v.tab|);
    FreeAllReplays(v.tab, |v.tab|);
    assert v.tab[|v.tab|..] == [] && SslSet([]) == {};
    ReplayConcat({}, v.sslLog, FreeAll(v.tab, |v.tab|));
    OpensBalanceCloses({}, log, id);
    CountConcat(v.sslLog, FreeAll(v.tab, |v.tab|), Open(id));
    FreeAllOpensNothing(v.tab, |v.tab|, id);
  }

  lemma {:induction false} FreeAllOpensNothing(tab: seq<Session>, k: nat, id: int)
    requires k <= |tab|
    ensures Count(FreeAll(tab, k), Open(id)) == 0
  {
    if k > 0 {
      FreeAllOpensNothing(tab, k - 1, id);
      CountConcat(FreeAll(tab, k - 1), [Use(tab[k - 1].ssl), Close(tab[k - 1].ssl)], Open(id));
      CountNone([Use(tab[k - 1].ssl), Close(tab[k - 1].ssl)], Open(id));
    }
  }

  // ---------------------------------------------------------------- descriptors in the cleanup

  lemma {:induction false} ReplayStaysNone(live: set<int>, a: seq<Event>, b: seq<Event>)
    requires Replay(live, a).None?
    ensures Replay(live, a + b).None?
  {
    ReplayConcat(live, a, b);
  }

  lemma {:induction false} CleanupStartsWith(tab: seq<Session>, bound: seq<int>, j: nat, k: nat, shakes: bool)
    requires j <= k <= |tab|
    ensures CleanupLog(tab, bound, j, shakes) <= CleanupLog(tab, bound, k, shakes)
  {
    if j < k {
      CleanupStartsWith(tab, bound, j, k - 1, shakes);
    }
  }

  /** A client is closed and then its object, bound to the closed descriptor, is shut down. */
  lemma ShutdownAfterClose(tab: seq<Session>, bound: seq<int>, open: set<int>, shakes: bool)
    requires |tab| >= 2 && tab[1].fd > 0 && BoundTo(bound, tab[1].ssl) == tab[1].fd
    ensures Replay(open, CleanupLog(tab, bound, 2, shakes)).None?
  {
    var first, fd := CleanupLog(tab, bound, 1, shakes), tab[1].fd;
    hide Replay;
    assert CleanupLog(tab, bound, 2, shakes) == first + [Close(fd)] + [Use(fd)];
    if Replay(open, first).None? {
      ReplayStaysNone(open, first, [Close(fd)]);
      ReplayStaysNone(open, first + [Close(fd)], [Use(fd)]);
    } else {
      ReplayAppend(open, first, Close(fd));
      if Replay(open, first + [Close(fd)]).None? {
        ReplayStaysNone(open, first + [Close(fd)], [Use(fd)]);
      } else {
        ReplayAppend(open, first + [Close(fd)], Use(fd));
      }
    }
  }

  lemma ListenerAlone(tab: seq<Session>, bound: seq<int>, open: set<int>, shakes: bool)
    requires |tab| >= 1 && tab[0].fd !in open && BoundTo(bound, tab[0].ssl) == tab[0].fd
    ensures Replay(open, CleanupLog(tab, bound, 1, shakes)).Some? <==> tab[0].fd <= 0 && !shakes
  {
    var fd := tab[0].fd;
    ReplayOne(open, Close(fd));
    ReplayOne(open, Use(fd));
    assert CleanupLog(tab, bound, 0, shakes) == [];
    hide Replay;
    if fd > 0 {
      ReplayStaysNone(open, [Close(fd)], if shakes then [Use(fd)] else []);
      assert CleanupLog(tab, bound, 1, shakes) == [Close(fd)] + if shakes then [Use(fd)] else [];
    } else if shakes {
      assert CleanupLog(tab, bound, 1, shakes) == [Use(fd)];
    } else {
      assert CleanupLog(tab, bound, 1, shakes) == [];
      ReplayNothing(open);
    }
  }

  lemma ReplayNothing(open: set<int>)
    ensures Replay(open, []) == Some(open)
  {
  }

  /**
   Cleanup closes the listener's number and closes it again with the others unless that number is
   0; and it shuts each client's object down after closing its descriptor.  So no descriptor is
   touched after its close if and only if no client is tracked, the listener's number is not
   positive, and its own object's shutdown leaves it alone.
   */
  lemma CleanupAcceptedExactly(listener: int, v: View, shakes: bool)
    requires Consistent(listener, v)
    ensures Replay({listener}, v.fdLog + [Close(listener)] + CleanupLog(v.tab, v.bound, |v.tab|, shakes)).Some?
            <==> |v.tab| == 1 && listener <= 0 && !shakes
  {
    assert v.tab[0] in v.tab && (|v.tab| > 1 ==> v.tab[1] in v.tab);
    hide CleanupLog, Replay, SslSet;
    var open, log := v.open - {listener}, CleanupLog(v.tab, v.bound, |v.tab|, shakes);
    ReplayAppend({listener}, v.fdLog, Close(listener));
    ReplayConcat({listener}, v.fdLog + [Close(listener)], log);
    if |v.tab| == 1 {
      ListenerAlone(v.tab, v.bound, open, shakes);
    } else {
      var first := CleanupLog(v.tab, v.bound, 2, shakes);
      ShutdownAfterClose(v.tab, v.bound, open, shakes);
      CleanupStartsWith(v.tab, v.bound, 2, |v.tab|, shakes);
      assert log == first + log[|first|..];
      ReplayStaysNone(open, first, log[|first|..]);
    }
  }

  // ---------------------------------------------------------------- the calls of the cleanup, counted

  lemma SlotCleanup(fd: int, bound: int, used: bool, e: Event)
    ensures Count((if fd > 0 then [Close(fd)] else []) + (if used then [Use(bound)] else []), e) ==
            Bit(fd > 0 && e == Close(fd)) + Bit(used && e == Use(bound))
  {
    hide Count;
    var close, use := if fd > 0 then [Close(fd)] else [], if used then [Use(bound)] else [];
    CountConcat(close, use, e);
    CountNone([], e);
    CountAppend([], Close(fd), e);
    CountAppend([], Use(bound), e);
    assert [] + [Close(fd)] == [Close(fd)] && [] + [Use(bound)] == [Use(bound)];
  }

  lemma {:induction false} CleanupCount(tab: seq<Session>, bound: seq<int>, k: nat, p: nat, shakes: bool, e: Event)
    requires DistinctSessions(tab) && k <= |tab| && p < |tab| && e.fd == tab[p].fd
    requires forall q :: 0 <= q < |tab| ==> BoundTo(bound, tab[q].ssl) == tab[q].fd
    ensures Count(CleanupLog(tab, bound, k, shakes), e) ==
            if p < k then Bit(e.fd > 0 && e.Close?) + Bit((p > 0 || shakes) && e.Use?) else 0
  {
    hide Count, BoundTo;
    if k > 0 {
      var fd, before := tab[k - 1].fd, CleanupLog(tab, bound, k - 1, shakes);
      var close, use := if fd > 0 then [Close(fd)] else [], if k > 1 || shakes then [Use(fd)] else [];
      CleanupCount(tab, bound, k - 1, p, shakes, e);
      SlotCleanup(fd, fd, k > 1 || shakes, e);
      CountConcat(before, close + use, e);
      assert CleanupLog(tab, bound, k, shakes) == before + (close + use);
    } else {
      CountNone(CleanupLog(tab, bound, 0, shakes), e);
    }
  }

  lemma {:induction false} FreeAllCount(tab: seq<Session>, k: nat, p: nat, e: Event)
    requires DistinctSessions(tab) && k <= |tab| && p < |tab| && e.fd == tab[p].ssl
    ensures Count(FreeAll(tab, k), e) == if p < k then Bit(!e.Open?) else 0
  {
    hide Count;
    if k > 0 {
      var id := tab[k - 1].ssl;
      FreeAllCount(tab, k - 1, p, e);
      CountAppend(FreeAll(tab, k - 1), Use(id), e);
      CountAppend(FreeAll(tab, k - 1) + [Use(id)], Close(id), e);
      assert FreeAll(tab, k) == FreeAll(tab, k - 1) + [Use(id)] + [Close(id)];
    } else {
      CountNone(FreeAll(tab, 0), e);
    }
  }

  /**
   What cleanup does to each session, whatever its slot: its positive descriptor is closed once, its object shut down and
   freed once, and the shutdown of a client's object touches its descriptor.
   */
  lemma CleanupCallsExactly(listener: int, v: View, p: nat, shakes: bool)
    requires Consistent(listener, v) && p < |v.tab|
    ensures var fds, ssls, s := CleanupLog(v.tab, v.bound, |v.tab|, shakes), FreeAll(v.tab, |v.tab|), v.tab[p];
            && Count(fds, Close(s.fd)) == Bit(s.fd > 0) && Count(fds, Use(s.fd)) == Bit(p > 0 || shakes)
            && Count(ssls, Use(s.ssl)) == 1 && Count(ssls, Close(s.ssl)) == 1
  {
    assert forall q :: 0 <= q < |v.tab| ==> v.tab[q] in v.tab && BoundTo(v.bound, v.tab[q].ssl) == v.tab[q].fd;
    hide Count, CleanupLog, FreeAll, Replay;
    CleanupCount(v.tab, v.bound, |v.tab|, p, shakes, Close(v.tab[p].fd));
    CleanupCount(v.tab, v.bound, |v.tab|, p, shakes, Use(v.tab[p].fd));
    FreeAllCount(v.tab, |v.tab|, p, Use(v.tab[p].ssl));
    FreeAllCount(v.tab, |v.tab|, p, Close(v.tab[p].ssl));
  }

  // ---------------------------------------------------------------- the calls of close alone

  /** The close calls among the events of a log. */
  function Closes(log: seq<Event>): seq<Event> {
    if log == [] then [] else Closes(log[..|log| - 1]) + if log[|log| - 1].Close? then [log[|log| - 1]] else []
  }

  lemma ClosesAppend(log: seq<Event>, e: Event)
    ensures Closes(log + [e]) == Closes(log) + if e.Close? then [e] else []
  {
    assert (log + [e])[..|log|] == log;
  }

  /** The close calls for the first k slots: all positive descriptors. */
  function CloseAll(tab: seq<Session>, k: nat): seq<Event>
    requires k <= |tab|
  {
    if k == 0 then [] else CloseAll(tab, k - 1) + if tab[k - 1].fd > 0 then [Close(tab[k - 1].fd)] else []
  }

  lemma {:induction false} CleanupCloses(tab: seq<Session>, bound: seq<int>, k: nat, shakes: bool)
    requires k <= |tab|
    ensures Closes(CleanupLog(tab, bound, k, shakes)) == CloseAll(tab, k)
  {
    if k == 0 {
      assert CleanupLog(tab, bound, 0, shakes) == [];
    } else {
      CleanupCloses(tab, bound, k - 1, shakes);
      SlotCloses(CleanupLog(tab, bound, k - 1, shakes), tab[k - 1].fd, BoundTo(bound, tab[k - 1].ssl), k > 1 || shakes);
    }
  }

  lemma SlotCloses(log: seq<Event>, fd: int, bound: int, used: bool)
    ensures Closes(log + (if fd > 0 then [Close(fd)] else []) + (if used then [Use(bound)] else [])) ==
            Closes(log) + if fd > 0 then [Close(fd)] else []
  {
    var closed := log + if fd > 0 then [Close(fd)] else [];
    assert closed + [] == closed && log + [] == log;
    ClosesAppend(log, Close(fd));
    ClosesAppend(closed, Use(bound));
  }

  lemma {:induction false} CloseAllReplays(tab: seq<Session>, k: nat, open: set<int>)
    requires DistinctSessions(tab) && 1 <= k <= |tab|
    requires forall i :: 1 <= i < |tab| ==> tab[i].fd in open && tab[i].fd > 0
    requires tab[0].fd <= 0
    ensures Replay(open, CloseAll(tab, k)).Some?
    ensures forall i :: k <= i < |tab| ==> tab[i].fd in Replay(open, CloseAll(tab, k)).value
  {
    if k == 1 {
      assert CloseAll(tab, 1) == CloseAll(tab, 0) == [];
    } else {
      CloseAllReplays(tab, k - 1, open);
      ReplayAppend(open, CloseAll(tab, k - 1), Close(tab[k - 1].fd));
    }
  }

  lemma {:induction false} CloseAllStartsWithListener(tab: seq<Session>, k: nat)
    requires 1 <= k <= |tab| && tab[0].fd > 0
    ensures [Close(tab[0].fd)] <= CloseAll(tab, k)
  {
    if k > 1 {
      CloseAllStartsWithListener(tab, k - 1);
    } else {
      assert CloseAll(tab, 0) == [];
    }
  }

  lemma PositiveListenerClosedTwice(tab: seq<Session>, open: set<int>)
    requires tab != [] && tab[0].fd > 0 && tab[0].fd !in open
    ensures Replay(open, CloseAll(tab, |tab|)).None?
  {
    hide CloseAll, Replay;
    var closes := CloseAll(tab, |tab|);
    CloseAllStartsWithListener(tab, |tab|);
    assert closes == [Close(tab[0].fd)] + closes[1..];
    ReplayOne(open, Close(tab[0].fd));
    ReplayStaysNone(open, [Close(tab[0].fd)], closes[1..]);
  }

  /**
   Cleanup closes the listener's number and then closes it again with the others, except
   when that number is 0: no descriptor is closed twice if and only if it is not positive.
   */
  lemma CleanupClosesOnceExactly(listener: int, v: View, shakes: bool)
    requires Consistent(listener, v)
    ensures Replay({listener}, v.fdLog + [Close(listener)] + Closes(CleanupLog(v.tab, v.bound, |v.tab|, shakes))).Some?
            <==> listener <= 0
  {
    assert v.tab[0] in v.tab;
    assert forall i :: 1 <= i < |v.tab| ==> v.tab[i] in v.tab;
    assert forall i :: 1 <= i < |v.tab| ==> v.tab[i].fd in v.open && v.tab[i].fd != listener;
    hide CleanupLog, Closes, CloseAll, Replay, SslSet;
    CleanupCloses(v.tab, v.bound, |v.tab|, shakes);
    var open := v.open - {listener};
    ReplayAppend({listener}, v.fdLog, Close(listener));
    ReplayConcat({listener}, v.fdLog + [Close(listener)], CloseAll(v.tab, |v.tab|));
    if listener > 0 {
      PositiveListenerClosedTwice(v.tab, open);
    } else {
      CloseAllReplays(v.tab, |v.tab|, open);
    }
  }
}
