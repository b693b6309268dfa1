/**
 The kernel's view of a server: a log of descriptor events, and the automaton
 that accepts exactly the logs in which every open is of a free number and every
 use and close is of an open one.  The event-loop servers and the HTTP client are proved
 to produce logs that this automaton accepts; numbers may be reused after a close.
 */
module Descriptors {
  import opened Wrappers

  datatype Event = Open(fd: int) | Use(fd: int) | Close(fd: int)

  function Apply(live: set<int>, e: Event): Option<set<int>> {
    match e
    case Open(fd) => if fd in live then None else Some(live + {fd})
    case Use(fd) => if fd in live then Some(live) else None
    case Close(fd) => if fd in live then Some(live - {fd}) else None
  }

  /** The open numbers after `log`, starting from `live`; None if `log` misuses a number. */
  function Replay(live: set<int>, log: seq<Event>): Option<set<int>> {
    if log == [] then Some(live) else
    match Replay(live, log[..|log| - 1])
    case None => None
    case Some(mid) => Apply(mid, log[|log| - 1])
  }

  lemma {:induction false} ReplayConcat(live: set<int>, a: seq<Event>, b: seq<Event>)
    ensures Replay(live, a + b) ==
            match Replay(live, a) { case None => None case Some(mid) => Replay(mid, b) }
    decreases |b|
  {
    if b == [] {
      assert a + b == a;
    } else {
      ReplayConcat(live, a, b[..|b| - 1]);
      assert (a + b)[..|a + b| - 1] == a + b[..|b| - 1];
    }
  }

  lemma ReplayOne(live: set<int>, e: Event)
    ensures Replay(live, [e]) == Apply(live, e)
  {
    assert [e][..0] == [];
  }

  lemma ReplayAppend(live: set<int>, log: seq<Event>, e: Event)
    requires Replay(live, log).Some?
    ensures Replay(live, log + [e]) == Apply(Replay(live, log).value, e)
  {
    assert (log + [e])[..|log|] == log;
  }

  lemma {:induction false} ReplayUses(live: set<int>, log: seq<Event>)
    requires forall i :: 0 <= i < |log| ==> log[i].Use? && log[i].fd in live
    ensures Replay(live, log) == Some(live)
  {
    if log != [] {
      ReplayUses(live, log[..|log| - 1]);
    }
  }

  function Count(log: seq<Event>, e: Event): nat {
    if log == [] then 0 else Count(log[..|log| - 1], e) + if log[|log| - 1] == e then 1 else 0
  }

  lemma {:induction false} CountConcat(a: seq<Event>, b: seq<Event>, e: Event)
    ensures Count(a + b, e) == Count(a, e) + Count(b, e)
    decreases |b|
  {
    if b == [] {
      assert a + b == a;
    } else {
      CountConcat(a, b[..|b| - 1], e);
      assert (a + b)[..|a + b| - 1] == a + b[..|b| - 1];
    }
  }

  lemma {:induction false} CountNone(a: seq<Event>, e: Event)
    requires forall i :: 0 <= i < |a| ==> a[i] != e
    ensures Count(a, e) == 0
  {
    if a != [] {
      CountNone(a[..|a| - 1], e);
    }
  }

  lemma CountAppend(a: seq<Event>, x: Event, e: Event)
    ensures Count(a + [x], e) == Count(a, e) + Bit(x == e)
  {
    assert (a + [x])[..|a|] == a;
  }

  /** Conservation: opens minus closes of a number is exactly whether it is open. */
  lemma {:induction false} OpensBalanceCloses(live: set<int>, log: seq<Event>, fd: int)
    requires Replay(live, log).Some?
    ensures Bit(fd in live) + Count(log, Open(fd)) ==
            Count(log, Close(fd)) + Bit(fd in Replay(live, log).value)
  {
    if log != [] {
      OpensBalanceCloses(live, log[..|log| - 1], fd);
    }
  }

  lemma {:induction false} ReplayPrefix(live: set<int>, log: seq<Event>, k: nat)
    requires Replay(live, log).Some? && k <= |log|
    ensures Replay(live, log[..k]).Some?
  {
    ReplayConcat(live, log[..k], log[k..]);
    assert log[..k] + log[k..] == log;
  }

  lemma {:induction false} ClosedStaysClosed(live: set<int>, log: seq<Event>, fd: int)
    requires Replay(live, log).Some? && fd !in live
    requires forall j :: 0 <= j < |log| ==> log[j] != Open(fd)
    ensures fd !in Replay(live, log).value
  {
    if log != [] {
      ClosedStaysClosed(live, log[..|log| - 1], fd);
    }
  }

  /** No use after close and no double close: a number is touched again only after a new open of it. */
  lemma {:induction false} TouchedOnlyAfterReopen(live: set<int>, log: seq<Event>, i: nat, k: nat, fd: int)
    requires Replay(live, log).Some?
    requires i < k < |log| && log[i] == Close(fd) && log[k] in {Use(fd), Close(fd)}
    ensures exists j :: i < j < k && log[j] == Open(fd)
  {
    hide Replay;
    ReplayPrefix(live, log, i);
    ReplayPrefix(live, log, i + 1);
    ReplayPrefix(live, log, k);
    ReplayPrefix(live, log, k + 1);
    assert log[..i + 1] == log[..i] + [log[i]] && log[..k + 1] == log[..k] + [log[k]];
    ReplayAppend(live, log[..i], log[i]);
    ReplayAppend(live, log[..k], log[k]);
    var mid := Replay(live, log[..i + 1]).value;
    var seg := log[i + 1..k];
    assert log[..i + 1] + seg == log[..k];
    ReplayConcat(live, log[..i + 1], seg);
    if forall j :: 0 <= j < |seg| ==> seg[j] != Open(fd) {
      ClosedStaysClosed(mid, seg, fd);
      assert false;
    }
    var j :| 0 <= j < |seg| && seg[j] == Open(fd);
    assert log[i + 1 + j] == Open(fd);
  }
}
