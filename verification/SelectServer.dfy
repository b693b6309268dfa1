/**
 The select server: the set of clients is kept as a descriptor set, a table whose
 zero entries are free, and the largest descriptor seen.  The scan of a round
 accepts and closes while it runs, so numbers may be reused and its bound grow.
 */
module SelectServers {
  import opened Wrappers
  import opened Descriptors
  import opened Clients

  const FD_SETSIZE := 1024

  /** One round's environment: what select reports, what accept returns (negative on failure), recv and send. */
  datatype Env = Env(ready: set<int>, accept: int, io: int -> Io)

  // ---------------------------------------------------------------- specification of a round

  datatype View = View(clients: set<int>, open: set<int>, log: seq<Event>)

  /** accept: a client if the table has room, otherwise an open socket that nobody tracks. */
  function Opened(v: View, fd: int): View {
    View(if |v.clients| < MAX_CONNECTION then v.clients + {fd} else v.clients, v.open + {fd}, v.log + [Open(fd)])
  }

  function Handled(v: View, fd: int, io: Io): View {
    if Drops(io) then View(v.clients - {fd}, v.open - {fd}, v.log + ServiceLog(fd, io))
    else v.(log := v.log + ServiceLog(fd, io))
  }

  /** What the scan does at number fd. */
  function Visit(v: View, fd: int, listener: int, env: Env): View {
    if fd !in env.ready then v
    else if fd == listener then
      var asked := v.(log := v.log + [Use(listener)]);
      if env.accept < 0 then asked else Opened(asked, env.accept)
    else Handled(v, fd, env.io(fd))
  }

  /** The numbers below k, each visited once in ascending order. */
  function Scan(v: View, k: nat, listener: int, env: Env): View {
    if k == 0 then v else Visit(Scan(v, k - 1, listener, env), k - 1, listener, env)
  }

  /**
   accept, called when the scan comes to the listener, returns a number that is not
   open then; here also non-zero and small enough for an fd_set.  It may have been
   closed earlier in the same scan.
   */
  predicate Fair(v: View, listener: nat, env: Env) {
    listener in env.ready && env.accept >= 0 ==>
      0 < env.accept < FD_SETSIZE && env.accept !in Scan(v, listener, listener, env).open
  }

  lemma {:induction false} NothingReadyBeyond(v: View, j: nat, k: nat, listener: int, env: Env)
    requires j <= k && forall fd :: j <= fd < k ==> fd !in env.ready
    ensures Scan(v, k, listener, env) == Scan(v, j, listener, env)
  {
    if j < k {
      NothingReadyBeyond(v, j, k - 1, listener, env);
    }
  }

  // ---------------------------------------------------------------- the table

  function NonZero(table: seq<int>): set<int> { set i | 0 <= i < |table| && table[i] != 0 :: table[i] }

  predicate DistinctClients(table: seq<int>) {
    forall i, j :: 0 <= i < j < |table| && table[i] != 0 ==> table[i] != table[j]
  }

  lemma NonZeroAppend(table: seq<int>, fd: int)
    ensures NonZero(table + [fd]) == NonZero(table) + if fd == 0 then {} else {fd}
  {
    var all := table + [fd];
    forall x | x in NonZero(table) ensures x in NonZero(all) {
      var i :| 0 <= i < |table| && table[i] == x;
      assert all[i] == x;
    }
    assert all[|table|] == fd;
  }

  /** Pigeonhole: a table of distinct clients is full exactly when it holds as many as it has slots. */
  lemma {:induction false} FullExactly(table: seq<int>)
    requires DistinctClients(table)
    ensures |NonZero(table)| <= |table|
    ensures |NonZero(table)| == |table| <==> 0 !in table
  {
    if table != [] {
      var front, last := table[..|table| - 1], table[|table| - 1];
      FullExactly(front);
      NonZeroAppend(front, last);
      assert table == front + [last];
    }
  }

  lemma TableAdd(table: seq<int>, i: nat, fd: int)
    requires DistinctClients(table) && i < |table| && table[i] == 0 && fd != 0 && fd !in NonZero(table)
    ensures DistinctClients(table[i := fd]) && NonZero(table[i := fd]) == NonZero(table) + {fd}
  {
    var t := table[i := fd];
    forall x | x in NonZero(table) + {fd} ensures x in NonZero(t) {
      var j := if x == fd then i else var j :| 0 <= j < |table| && table[j] == x; j;
      assert t[j] == x;
    }
    forall a, b | 0 <= a < b < |t| && t[a] != 0 ensures t[a] != t[b] {
      assert b != i ==> table[b] == 0 || table[b] in NonZero(table);
      assert a != i ==> table[a] in NonZero(table);
    }
  }

  lemma TableRemove(table: seq<int>, i: nat)
    requires DistinctClients(table) && i < |table| && table[i] != 0
    ensures DistinctClients(table[i := 0]) && NonZero(table[i := 0]) == NonZero(table) - {table[i]}
  {
    var t := table[i := 0];
    forall x | x in NonZero(table) - {table[i]} ensures x in NonZero(t) {
      var j :| 0 <= j < |table| && table[j] == x;
      assert t[j] == x;
    }
  }

  // ---------------------------------------------------------------- the server

  /** The three representations agree with the tracked clients, and the kernel with the log. */
  ghost predicate Consistent(listener: int, table: seq<int>, master: set<int>, maxFd: int, v: View) {
    && |table| == MAX_CONNECTION
    && v.clients == NonZero(table) && DistinctClients(table)
    && listener !in v.clients && 0 <= listener
    && master == v.clients + {listener} && master <= v.open
    && (forall fd :: fd in master ==> 0 <= fd <= maxFd)
    && 0 <= maxFd < FD_SETSIZE
    && Replay({listener}, v.log) == Some(v.open)
  }

  lemma OpenedLog(listener: int, v: View, fd: int)
    requires Replay({listener}, v.log) == Some(v.open) && fd !in v.open
    ensures Replay({listener}, Opened(v, fd).log) == Some(v.open + {fd})
  {
    assert (v.log + [Open(fd)])[..|v.log|] == v.log;
  }

  lemma TrackKeeps(listener: int, table: seq<int>, master: set<int>, maxFd: int, v: View, i: nat, fd: int)
    requires Consistent(listener, table, master, maxFd, v) && i < |table| && table[i] == 0
    requires 0 < fd < FD_SETSIZE && fd !in v.open
    ensures Consistent(listener, table[i := fd], master + {fd}, Max(maxFd, fd), Opened(v, fd))
    ensures Opened(v, fd).clients == v.clients + {fd}
  {
    FullExactly(table);
    assert 0 in table;
    TableAdd(table, i, fd);
    OpenedLog(listener, v, fd);
  }

  /** With the table full, accept changes none of the three: the socket stays open and untracked. */
  lemma FullKeeps(listener: int, table: seq<int>, master: set<int>, maxFd: int, v: View, fd: int)
    requires Consistent(listener, table, master, maxFd, v) && 0 !in table && fd !in v.open
    ensures Consistent(listener, table, master, maxFd, Opened(v, fd))
    ensures Opened(v, fd).clients == v.clients
  {
    FullExactly(table);
    OpenedLog(listener, v, fd);
  }

  class SelectServer {
    const listener: int
    const table: array<int> // fds_client
    var master: set<int>
    var maxFd: int // global_max_fd
    ghost var view: View

    ghost predicate Valid()
      reads this, table
    {
      Consistent(listener, table[..], master, maxFd, view)
    }

    constructor (socket: int)
      requires 0 <= socket < 1024
      ensures Valid() && fresh(table)
      ensures listener == socket && view == View({}, {socket}, [])
    {
      listener := socket;
      table := new int[MAX_CONNECTION](_ => 0);
      master := {socket};
      maxFd := Max(0, socket);
      view := View({}, {socket}, []);
    }

    /** The insertion loop after accept: the first free slot, if there is one. */
    method Track(fd: int)
      requires Valid() && 0 < fd < 1024 && fd !in view.open
      modifies this, table
      ensures Valid() && view == Opened(old(view), fd)
      ensures |old(view.clients)| >= MAX_CONNECTION ==>
                master == old(master) && maxFd == old(maxFd) && table[..] == old(table[..])
    {
      FullExactly(table[..]);
      hide Opened, NonZero, DistinctClients;
      var i := 0;
      while i < MAX_CONNECTION
        invariant 0 <= i <= MAX_CONNECTION && unchanged(this, table)
        invariant 0 !in table[..i]
      {
        if table[i] == 0 {
          assert 0 in table[..];
          TrackKeeps(listener, table[..], master, maxFd, view, i, fd);
          table[i] := fd;
          assert table[..] == old(table[..])[i := fd];
          master := master + {fd};
          maxFd := Max(maxFd, fd);
          view := Opened(view, fd);
          return;
        }
        i := i + 1;
      }
      FullKeeps(listener, table[..], master, maxFd, view, fd);
      view := Opened(view, fd);
    }

    /** close, FD_CLR, and the loop that frees the table slot. */
    method Drop(fd: int)
      requires Valid() && fd in view.clients
      modifies this, table
      ensures Valid() && maxFd == old(maxFd)
      ensures view == View(old(view.clients) - {fd}, old(view.open) - {fd}, old(view.log) + [Close(fd)])
    {
      master := master - {fd};
      view := View(view.clients - {fd}, view.open - {fd}, view.log + [Close(fd)]);
      assert view.log[..|view.log| - 1] == old(view.log);
      var j := 0;
      while j < MAX_CONNECTION
        invariant 0 <= j <= MAX_CONNECTION
        invariant table[..] == old(table[..]) && maxFd == old(maxFd)
        invariant master == old(master) - {fd}
        invariant view == View(old(view.clients) - {fd}, old(view.open) - {fd}, old(view.log) + [Close(fd)])
        invariant fd in table[..] && fd !in table[..j]
      {
        if table[j] == fd {
          TableRemove(table[..], j);
          table[j] := 0;
          return;
        }
        j := j + 1;
      }
      assert false;
    }

    /** A system call on an open descriptor. */
    ghost method Record(use: Event)
      requires Valid() && use.Use? && use.fd in view.open
      modifies this`view
      ensures Valid() && view == old(view).(log := old(view.log) + [use])
    {
      ReplayAppend({listener}, view.log, use);
      view := view.(log := view.log + [use]);
    }

    /** One descriptor reported by select that is not the listener. */
    method Handle(fd: int, result: Io)
      requires Valid() && fd in view.clients
      modifies this, table
      ensures Valid() && maxFd == old(maxFd)
      ensures view == Handled(old(view), fd, result)
      ensures view.clients == old(view.clients) - if result.received <= 0 || result.sent <= 0 || result.quit then {fd} else {}
    {
      Record(Use(fd));
      if result.received <= 0 {
        Drop(fd);
      } else {
        var shouldDisconnect := false;
        Record(Use(fd));
        if result.sent <= 0 {
          shouldDisconnect := true;
        }
        if result.quit {
          shouldDisconnect := true;
        }
        if shouldDisconnect {
          Drop(fd);
        }
      }
    }

    /** No use after close, over every run: a number is touched again only after a new open of it. */
    lemma TouchedOnlyAfterReopen(i: nat, k: nat, fd: int)
      requires Valid() && i < k < |view.log| && view.log[i] == Close(fd) && view.log[k] in {Use(fd), Close(fd)}
      ensures exists j :: i < j < k && view.log[j] == Open(fd)
    {
      Descriptors.TouchedOnlyAfterReopen({listener}, view.log, i, k, fd);
    }

    /** One round: the scan of the numbers up to the largest tracked, while accepts and closes change it. */
    method Round(env: Env)
      requires Valid() && env.ready <= master && Fair(view, listener, env)
      modifies this, table
      ensures Valid()
      ensures view == Scan(old(view), FD_SETSIZE, listener, env)
    {
      var i := 0;
      while i <= maxFd
        invariant Valid() && 0 <= i <= maxFd + 1
        invariant view == Scan(old(view), i, listener, env)
        invariant forall fd :: fd in env.ready && fd >= i ==> fd in master
        decreases FD_SETSIZE - i
      {
        if i in env.ready {
          if i == listener {
            Record(Use(listener));
            var sock := env.accept;
            if sock >= 0 {
              Track(sock);
            }
          } else {
            Handle(i, env.io(i));
          }
        }
        i := i + 1;
      }
      NothingReadyBeyond(old(view), i, FD_SETSIZE, listener, env);
    }
  }
}
