/** What holds over the rounds of the poll server. */
module PollTheorems {
  import opened Wrappers
  import opened Descriptors
  import opened Clients
  import opened DenseArrays
  import opened PollServers

  /** One round's environment: poll's answer for the slots in use, accept, and the clients' traffic. */
  datatype Env = Env(pollin: seq<bool>, sock: int, io: int -> Io)

  predicate Shaped(listener: int, v: View) { 1 <= |v.tab| <= |v.flags| == MAX_CONNECTION && v.tab[0] == listener }

  /** poll answers for the slots in use, and accept returns a number that is not open. */
  predicate Regular(v: View, env: Env) {
    |env.pollin| == |v.tab| >= 1 && (env.pollin[0] && env.sock >= 0 ==> env.sock !in v.open)
  }

  function Next(listener: int, v: View, env: Env): View
    requires Shaped(listener, v) && Regular(v, env)
  {
    NextRound(listener, v, env.pollin, env.sock, env.io)
  }

  lemma {:induction false} ScannedShape(tab: seq<int>, i: nat, flags: seq<bool>, io: int -> Io)
    requires 1 <= i && 1 <= |tab| <= |flags|
    ensures var r := Scanned(tab, i, flags, io); 1 <= |r| <= |tab| && r[0] == tab[0]
    decreases |tab|, |tab| - i
  {
    if i < |tab| {
      if flags[i] && Drops(io(tab[i])) {
        ScannedShape(SwapRemoved(tab, i), i, flags, io);
      } else {
        ScannedShape(tab, i + 1, flags, io);
      }
    }
  }

  lemma NextShape(listener: int, v: View, env: Env)
    requires Shaped(listener, v) && Regular(v, env)
    ensures Shaped(listener, Next(listener, v, env))
  {
    var flags := env.pollin + v.flags[|env.pollin|..];
    var tab := if env.pollin[0] && |v.tab| < MAX_CONNECTION then v.tab + [env.sock] else v.tab;
    hide Scanned, Served, ServeLog;
    ScannedShape(tab, 1, flags, env.io);
  }

  function Start(listener: int): View { View([listener], seq(MAX_CONNECTION, _ => false), {listener}, []) }

  predicate RegularRun(listener: int, envs: seq<Env>)
    decreases |envs|, 0
  {
    envs == [] ||
    (RegularRun(listener, envs[..|envs| - 1]) && Regular(Run(listener, envs[..|envs| - 1]), envs[|envs| - 1]))
  }

  function Run(listener: int, envs: seq<Env>): (v: View)
    requires RegularRun(listener, envs)
    ensures Shaped(listener, v)
    decreases |envs|, 1
  {
    if envs == [] then Start(listener)
    else
      var before, env := Run(listener, envs[..|envs| - 1]), envs[|envs| - 1];
      NextShape(listener, before, env);
      Next(listener, before, env)
  }

  /** Array, kernel and log agree after every round of every run. */
  lemma {:induction false} RunKeeps(listener: int, envs: seq<Env>)
    requires RegularRun(listener, envs)
    ensures var v := Run(listener, envs); Consistent(listener, v.tab, v.open, v.log)
  {
    if envs != [] {
      RunKeeps(listener, envs[..|envs| - 1]);
      hide Consistent, NextRound;
      NextKeeps(listener, Run(listener, envs[..|envs| - 1]), envs[|envs| - 1].pollin, envs[|envs| - 1].sock, envs[|envs| - 1].io);
    }
  }

  // ---------------------------------------------------------------- the set of clients

  /** The array that a round scans: with the accepted client behind the others, if there is a slot for it. */
  function Met(v: View, env: Env): seq<int>
    requires |env.pollin| >= 1
  {
    if env.pollin[0] && env.sock >= 0 && |v.tab| < 100 then v.tab + [env.sock] else v.tab
  }

  /** The client of slot p is served in the round, and a call failed or it said "quit". */
  predicate Leaves(tab: seq<int>, flags: seq<bool>, io: int -> Io, p: nat)
    requires p < |tab| <= |flags|
  {
    IsServed(tab, 1, p, flags, io) && (io(tab[p]).received <= 0 || io(tab[p]).sent <= 0 || io(tab[p]).quit)
  }

  /**
   The whole round as an operation on the set of tracked descriptors: a failed accept loses nobody; otherwise
   the accepted client joins if there is a slot, and lost are exactly the clients that leave, itself included.
   */
  lemma RoundExactly(listener: int, v: View, env: Env, fd: int)
    requires Shaped(listener, v) && Regular(v, env) && Consistent(listener, v.tab, v.open, v.log)
    ensures var tab, flags := Met(v, env), env.pollin + v.flags[|env.pollin|..];
            |tab| <= |flags| &&
            (fd in Next(listener, v, env).tab <==>
             fd in tab && !(!(env.pollin[0] && env.sock < 0) &&
                            exists p :: 1 <= p < |tab| && tab[p] == fd && Leaves(tab, flags, env.io, p)))
  {
    hide Scanned, Served, ServeLog, Ended, Replay, IsServed, Leaves;
    var tab, flags := Met(v, env), env.pollin + v.flags[|env.pollin|..];
    if !(env.pollin[0] && env.sock < 0) {
      assert env.pollin[0] ==> env.sock !in v.tab;
      DistinctAppend(v.tab, env.sock);
      ScannedKeepsTheRest(tab, 1, flags, env.io, fd);
      ScannedShape(tab, 1, flags, env.io);
      if p :| 1 <= p < |tab| && tab[p] == fd {
        RoundOnTheSetOfClients(tab, flags, env.io, p);
        LeavesExactly(tab, flags, env.io, p);
      } else if fd in tab {
        assert fd == tab[0] && Scanned(tab, 1, flags, env.io)[0] == fd;
      }
    }
  }

  lemma LeavesExactly(tab: seq<int>, flags: seq<bool>, io: int -> Io, p: nat)
    requires Distinct(tab) && 1 <= p < |tab| <= |flags|
    ensures tab[p] in Scanned(tab, 1, flags, io) <==> !Leaves(tab, flags, io, p)
    ensures forall q :: 0 <= q < |tab| && tab[q] == tab[p] ==> q == p
  {
    RoundOnTheSetOfClients(tab, flags, io, p);
  }

  // ---------------------------------------------------------------- the calls of a scan

  lemma {:induction false} ServeLogCount(served: seq<int>, io: int -> Io, fd: int)
    requires Distinct(served)
    ensures var log, c := ServeLog(served, io), io(fd);
            && Count(log, Use(fd)) == (if fd in served then 1 + Bit(c.received > 0) else 0)
            && Count(log, Close(fd)) == Bit(fd in served && (c.received <= 0 || c.sent <= 0 || c.quit))
  {
    hide Count, ServiceLog;
    if served == [] {
      CountNone([], Use(fd));
      CountNone([], Close(fd));
    } else {
      var first, rest := served[0], served[1..];
      var log := ServiceLog(first, io(first));
      ServeLogCount(rest, io, fd);
      ServiceLogCount(first, io(first));
      CountConcat(log, ServeLog(rest, io), Use(fd));
      CountConcat(log, ServeLog(rest, io), Close(fd));
      assert fd in served <==> fd == first || fd in rest;
    }
  }

  /**
   The calls on the client of slot p: if the scan comes to serve it, one recv, one send if something came, and
   a close exactly if one of the two failed or it said "quit"; otherwise none.
   */
  lemma CallsExactly(tab: seq<int>, flags: seq<bool>, io: int -> Io, p: nat)
    requires Distinct(tab) && 1 <= p < |tab| <= |flags|
    ensures var log, c := ServeLog(Served(tab, 1, flags, io), io), io(tab[p]);
            && Count(log, Use(tab[p])) == (if IsServed(tab, 1, p, flags, io) then 1 + Bit(c.received > 0) else 0)
            && Count(log, Close(tab[p])) ==
               Bit(IsServed(tab, 1, p, flags, io) && (c.received <= 0 || c.sent <= 0 || c.quit))
  {
    hide Count, ServeLog, Served, IsServed;
    ServedOnce(tab, 1, flags, io);
    ServedExactly(tab, 1, p, flags, io);
    ServeLogCount(Served(tab, 1, flags, io), io, tab[p]);
  }

  // ---------------------------------------------------------------- sockets that nobody tracks

  function Elements(tab: seq<int>): set<int> { set fd | fd in tab }

  /** The open numbers that no slot holds. */
  function Untracked(v: View): set<int> { v.open - Elements(v.tab) }

  /** The round accepts a connection for which no slot is left. */
  predicate Refuses(v: View, env: Env)
    requires |env.pollin| >= 1
  {
    env.pollin[0] && env.sock >= 0 && |v.tab| >= MAX_CONNECTION
  }

  lemma ScanUntracked(tab: seq<int>, open: set<int>, flags: seq<bool>, io: int -> Io)
    requires Distinct(tab) && |tab| <= |flags|
    ensures var served := Served(tab, 1, flags, io);
            open - Ended(served, io) - Elements(Scanned(tab, 1, flags, io)) == open - Elements(tab)
  {
    hide Scanned, Served;
    forall fd ensures fd in Scanned(tab, 1, flags, io) <==> fd in tab && !(fd in Served(tab, 1, flags, io) && Drops(io(fd)))
              ensures fd in Served(tab, 1, flags, io) ==> fd in tab
    {
      ScannedKeepsTheRest(tab, 1, flags, io, fd);
    }
  }

  /** A round adds to the untracked numbers exactly a connection that it refuses. */
  lemma NextUntracked(listener: int, v: View, env: Env)
    requires Shaped(listener, v) && Regular(v, env) && Consistent(listener, v.tab, v.open, v.log)
    ensures Untracked(Next(listener, v, env)) == Untracked(v) + if Refuses(v, env) then {env.sock} else {}
  {
    var flags := env.pollin + v.flags[|env.pollin|..];
    var tab := if env.pollin[0] && |v.tab| < MAX_CONNECTION then v.tab + [env.sock] else v.tab;
    var open := if env.pollin[0] then v.open + {env.sock} else v.open;
    hide Scanned, Served, ServeLog, Ended, Replay;
    if !(env.pollin[0] && env.sock < 0) {
      assert env.pollin[0] ==> env.sock !in v.tab;
      assert forall fd :: fd in tab <==> fd in v.tab || (env.pollin[0] && |v.tab| < MAX_CONNECTION && fd == env.sock);
      DistinctAppend(v.tab, env.sock);
      ScanUntracked(tab, open, flags, env.io);
    }
  }

  lemma DistinctAppend(tab: seq<int>, fd: int)
    requires Distinct(tab)
    ensures fd !in tab ==> Distinct(tab + [fd])
  {
  }

  /** Calls on a descriptor that is not served leave no trace of it. */
  lemma {:induction false} ServeLogOthers(served: seq<int>, io: int -> Io, e: Event)
    requires e.fd !in served
    ensures Count(ServeLog(served, io), e) == 0
  {
    if served != [] {
      var log := ServiceLog(served[0], io(served[0]));
      ServeLogOthers(served[1..], io, e);
      CountNone(log, e);
      CountConcat(log, ServeLog(served[1..], io), e);
    }
  }

  /** No call is made on an untracked number, and it is not opened again. */
  lemma NextLeavesUntracked(listener: int, v: View, env: Env, e: Event)
    requires Shaped(listener, v) && Regular(v, env) && Consistent(listener, v.tab, v.open, v.log) && e.fd in Untracked(v)
    ensures Count(Next(listener, v, env).log, e) == Count(v.log, e)
  {
    assert v.tab[0] in v.tab;
    hide Scanned, Served, ServeLog, Ended, Replay, Count;
    CountAppend(v.log, Use(listener), e);
    if !(env.pollin[0] && env.sock < 0) {
      var flags := env.pollin + v.flags[|env.pollin|..];
      var tab := if env.pollin[0] && |v.tab| < MAX_CONNECTION then v.tab + [env.sock] else v.tab;
      var served := Served(tab, 1, flags, env.io);
      assert e.fd !in tab;
      DistinctAppend(v.tab, env.sock);
      assert Distinct(tab);
      ScannedKeepsTheRest(tab, 1, flags, env.io, e.fd);
      ServeLogOthers(served, env.io, e);
      var calls := if env.pollin[0] then [Use(listener)] + [Open(env.sock)] else [];
      assert forall j :: 0 <= j < |calls| ==> calls[j] != e;
      CountNone(calls, e);
      CountConcat(v.log, calls, e);
      CountConcat(v.log + calls, ServeLog(served, env.io), e);
    }
  }

  /** The connections accepted in a run without a slot for them. */
  function Refused(listener: int, envs: seq<Env>): set<int>
    requires RegularRun(listener, envs)
  {
    if envs == [] then {}
    else
      var front, env := envs[..|envs| - 1], envs[|envs| - 1];
      Refused(listener, front) + if Refuses(Run(listener, front), env) then {env.sock} else {}
  }

  lemma {:induction false} UntrackedExactly(listener: int, envs: seq<Env>)
    requires RegularRun(listener, envs)
    ensures Untracked(Run(listener, envs)) == Refused(listener, envs)
  {
    if envs == [] {
      assert Untracked(Start(listener)) == {};
    } else {
      hide Next, Untracked, Consistent, Refuses;
      var front := envs[..|envs| - 1];
      UntrackedExactly(listener, front);
      RunKeeps(listener, front);
      NextUntracked(listener, Run(listener, front), envs[|envs| - 1]);
    }
  }

  lemma TrackedAreOpen(listener: int, v: View)
    requires Consistent(listener, v.tab, v.open, v.log)
    ensures Elements(v.tab) <= v.open
  {
    forall fd | fd in Elements(v.tab) ensures fd in v.open {
      assert fd in v.tab;
    }
  }

  /** After every run the open numbers are exactly those in the slots and the refused connections. */
  lemma OpenExactly(listener: int, envs: seq<Env>)
    requires RegularRun(listener, envs)
    ensures var v := Run(listener, envs);
            v.open == Elements(v.tab) + Refused(listener, envs) && Elements(v.tab) !! Refused(listener, envs)
  {
    RunKeeps(listener, envs);
    TrackedAreOpen(listener, Run(listener, envs));
    UntrackedExactly(listener, envs);
    hide Run, Refused, Consistent, Elements;
  }

  lemma {:induction false} PrefixRegular(listener: int, envs: seq<Env>, k: nat)
    requires RegularRun(listener, envs) && k <= |envs|
    ensures RegularRun(listener, envs[..k])
  {
    if k == |envs| {
      assert envs[..k] == envs;
    } else {
      PrefixRegular(listener, envs[..|envs| - 1], k);
      assert envs[..|envs| - 1][..k] == envs[..k];
    }
  }

  /** A refused connection is never used, closed or opened again: it stays open to the end of the run. */
  lemma {:induction false} RefusedForGood(listener: int, envs: seq<Env>, k: nat, e: Event)
    requires RegularRun(listener, envs) && k <= |envs| && RegularRun(listener, envs[..k])
    requires e.fd in Refused(listener, envs[..k])
    ensures e.fd in Refused(listener, envs)
    ensures Count(Run(listener, envs).log, e) == Count(Run(listener, envs[..k]).log, e)
  {
    hide Next, Untracked, Consistent, Refuses, Count;
    if k == |envs| {
      assert envs[..k] == envs;
    } else {
      var front := envs[..|envs| - 1];
      assert front[..k] == envs[..k];
      RefusedForGood(listener, front, k, e);
      UntrackedExactly(listener, front);
      RunKeeps(listener, front);
      NextLeavesUntracked(listener, Run(listener, front), envs[|envs| - 1], e);
    }
  }
}
