/**
 The TLS server: descriptors and SSL objects stand in two parallel arrays, unused
 slots hold -1 and no object.  A client that ends is overwritten by the last one in
 both arrays, and the slot is not looked at again in that round.
 */
module TlsServers {
  import opened Wrappers
  import opened Descriptors
  import opened Clients
  import opened DenseArrays

  /** A used slot: a descriptor and the identity of the SSL object beside it. */
  datatype Session = Session(fd: int, ssl: int)

  predicate Disconnects(io: Io) { io.received <= 0 || io.quit }

  /** One round's environment: poll's answer for all slots, accept, SSL_accept, and the clients' traffic. */
  datatype Env = Env(pollin: seq<bool>, sock: int, handshake: int, io: int -> Io)

  // ---------------------------------------------------------------- specification of a round

  /**
   `bound[id]` is the descriptor that SSL object id was created for; objects are
   numbered in order of creation.  `fdLog` and `sslLog` are what was done to
   descriptors and to SSL objects.
   */
  datatype View = View(tab: seq<Session>, bound: seq<int>, open: set<int>, fdLog: seq<Event>, sslLog: seq<Event>)

  function Listener(v: View): int { if v.tab == [] then -1 else v.tab[0].fd }

  /** The descriptor that an SSL object was bound to by SSL_set_fd, and that its operations use. */
  function BoundTo(bound: seq<int>, ssl: int): int { if 0 <= ssl < |bound| then bound[ssl] else -1 }

  function Accepted(v: View, env: Env): View {
    var asked := v.(fdLog := v.fdLog + [Use(Listener(v))]);
    if env.sock < 0 then asked
    else
      var untracked := asked.(open := v.open + {env.sock}, fdLog := asked.fdLog + [Open(env.sock)]);
      if env.sock == 0 || |v.tab| >= MAX_CONNECTION then untracked else Shaken(untracked, env.sock, env.handshake)
  }

  /** SSL_new, SSL_set_fd and SSL_accept for an open socket; after a failed handshake both are gone again. */
  function Shaken(v: View, sock: int, handshake: int): View {
    var id := |v.bound|;
    var bound := v.bound + [sock];
    var fdLog, sslLog := v.fdLog + [Use(BoundTo(bound, id))], v.sslLog + [Open(id)] + [Use(id)];
    if handshake <= 0 then View(v.tab, bound, v.open - {sock}, fdLog + [Close(sock)], sslLog + [Close(id)])
    else View(v.tab + [Session(sock, id)], bound, v.open, fdLog, sslLog)
  }

  function Read(v: View, i: nat, io: Io): View
    requires i < |v.tab|
  {
    var s := v.tab[i];
    var fdLog, sslLog := v.fdLog + [Use(BoundTo(v.bound, s.ssl))], v.sslLog + [Use(s.ssl)];
    if Disconnects(io) then
      View(SwapRemoved(v.tab, i), v.bound, v.open - {s.fd}, fdLog + [Close(s.fd)], sslLog + [Close(s.ssl)])
    else v.(fdLog := fdLog + [Use(BoundTo(v.bound, s.ssl))], sslLog := sslLog + [Use(s.ssl)])
  }

  predicate ReadsAt(v: View, i: nat, env: Env) {
    i < |env.pollin| && i < |v.tab| && env.pollin[i] && i > 0
  }

  /** What the scan does at slot i; slot 0 is the listener's. */
  function Visit(v: View, i: nat, env: Env): View {
    if ReadsAt(v, i, env) then Read(v, i, env.io(v.tab[i].fd))
    else if i == 0 && |env.pollin| > 0 && env.pollin[0] then Accepted(v, env)
    else v
  }

  function Scan(v: View, k: nat, env: Env): View {
    if k == 0 then v else Visit(Scan(v, k - 1, env), k - 1, env)
  }

  lemma {:induction false} NothingBeyond(v: View, j: nat, k: nat, env: Env)
    requires 0 < j <= k && |Scan(v, j, env).tab| <= j
    ensures Scan(v, k, env) == Scan(v, j, env)
  {
    if j < k {
      NothingBeyond(v, j, k - 1, env);
    }
  }

  // ---------------------------------------------------------------- the invariant

  function SslSet(tab: seq<Session>): set<int> { set s | s in tab :: s.ssl }

  predicate DistinctSessions(tab: seq<Session>) {
    forall i, j :: 0 <= i < j < |tab| ==> tab[i].fd != tab[j].fd && tab[i].ssl != tab[j].ssl
  }

  /**
   Each used slot pairs an open descriptor with the SSL object created for it; the
   live SSL objects are exactly those of the used slots.
   */
  ghost predicate Consistent(listener: int, v: View) {
    && 1 <= |v.tab| <= MAX_CONNECTION
    && v.tab[0] == Session(listener, 0)
    && DistinctSessions(v.tab)
    && (forall i :: 1 <= i < |v.tab| ==> v.tab[i].fd > 0)
    && (forall s :: s in v.tab ==> s.fd in v.open && 0 <= s.ssl < |v.bound| && v.bound[s.ssl] == s.fd)
    && Replay({listener}, v.fdLog) == Some(v.open)
    && Replay({}, v.sslLog) == Some(SslSet(v.tab))
  }

  lemma NewSslFresh(listener: int, v: View)
    requires Consistent(listener, v)
    ensures |v.bound| !in SslSet(v.tab)
  {
  }

  lemma SslSetAppend(tab: seq<Session>, s: Session)
    ensures SslSet(tab + [s]) == SslSet(tab) + {s.ssl}
  {
    assert (tab + [s])[|tab|] == s;
    forall x | x in SslSet(tab) ensures x in SslSet(tab + [s]) {
      var t :| t in tab && t.ssl == x;
      assert t in tab + [s];
    }
    assert s in tab + [s];
  }

  /** The calls of an accept are on open descriptors, whatever becomes of the handshake. */
  lemma AcceptedFds(listener: int, v: View, env: Env)
    requires Consistent(listener, v) && (env.sock >= 0 ==> env.sock !in v.open)
    ensures Replay({listener}, Accepted(v, env).fdLog) == Some(Accepted(v, env).open)
  {
    assert v.tab[0] in v.tab;
    hide Replay, SslSet, DistinctSessions;
    var log := v.fdLog;
    ReplayAppend({listener}, log, Use(listener));
    if env.sock >= 0 {
      ReplayAppend({listener}, log + [Use(listener)], Open(env.sock));
      ReplayAppend({listener}, log + [Use(listener)] + [Open(env.sock)], Use(env.sock));
      ReplayAppend({listener}, log + [Use(listener)] + [Open(env.sock)] + [Use(env.sock)], Close(env.sock));
      assert v.open + {env.sock} - {env.sock} == v.open;
    }
  }

  lemma AcceptedSsl(listener: int, v: View, env: Env)
    requires Consistent(listener, v)
    ensures Replay({}, Accepted(v, env).sslLog) == Some(SslSet(Accepted(v, env).tab))
  {
    var id := |v.bound|;
    NewSslFresh(listener, v);
    SslSetAppend(v.tab, Session(env.sock, id));
    hide Replay, SslSet, DistinctSessions;
    ReplayAppend({}, v.sslLog, Open(id));
    ReplayAppend({}, v.sslLog + [Open(id)], Use(id));
    ReplayAppend({}, v.sslLog + [Open(id)] + [Use(id)], Close(id));
    assert SslSet(v.tab) + {id} - {id} == SslSet(v.tab);
  }

  /** What an accept adds: perhaps an open descriptor, a binding, and a session that pairs the two. */
  lemma AcceptedShape(v: View, env: Env)
    requires env.sock >= 0 ==> env.sock !in v.open
    ensures var w, s := Accepted(v, env), Session(env.sock, |v.bound|);
            && v.bound <= w.bound && v.open <= w.open
            && (w.tab == v.tab || (w.tab == v.tab + [s] && |v.tab| < MAX_CONNECTION && env.sock > 0
                                   && w.bound == v.bound + [env.sock] && env.sock in w.open))
  {
  }

  lemma KeptBesides(listener: int, v: View, w: View)
    requires Consistent(listener, v) && w.tab == v.tab && v.bound <= w.bound && v.open <= w.open
    requires Replay({listener}, w.fdLog) == Some(w.open) && Replay({}, w.sslLog) == Some(SslSet(w.tab))
    ensures Consistent(listener, w)
  {
    hide Replay, SslSet, DistinctSessions;
  }

  lemma KeptWithNewcomer(listener: int, v: View, w: View, s: Session)
    requires Consistent(listener, v) && w.tab == v.tab + [s] && |v.tab| < MAX_CONNECTION
    requires v.bound + [s.fd] == w.bound && s.ssl == |v.bound| && v.open <= w.open
    requires s.fd > 0 && s.fd !in v.open && s.fd in w.open
    requires Replay({listener}, w.fdLog) == Some(w.open) && Replay({}, w.sslLog) == Some(SslSet(w.tab))
    ensures Consistent(listener, w)
  {
    AppendedDistinct(v, s);
    hide Replay, SslSet, DistinctSessions;
  }

  lemma AcceptedKeeps(listener: int, v: View, env: Env)
    requires Consistent(listener, v) && (env.sock >= 0 ==> env.sock !in v.open)
    ensures Consistent(listener, Accepted(v, env))
  {
    AcceptedFds(listener, v, env);
    AcceptedSsl(listener, v, env);
    AcceptedShape(v, env);
    hide Replay, SslSet, Consistent, Accepted;
    if Accepted(v, env).tab == v.tab {
      KeptBesides(listener, v, Accepted(v, env));
    } else {
      KeptWithNewcomer(listener, v, Accepted(v, env), Session(env.sock, |v.bound|));
    }
  }

  lemma AppendedDistinct(v: View, s: Session)
    requires DistinctSessions(v.tab)
    requires forall t :: t in v.tab ==> t.fd != s.fd && t.ssl != s.ssl
    ensures DistinctSessions(v.tab + [s])
  {
    forall i, j | 0 <= i < j < |v.tab| + 1
      ensures (v.tab + [s])[i].fd != (v.tab + [s])[j].fd && (v.tab + [s])[i].ssl != (v.tab + [s])[j].ssl
    {
      assert v.tab[i] in v.tab;
    }
  }

  lemma DistinctAsValues(tab: seq<Session>)
    requires DistinctSessions(tab)
    ensures Distinct(tab)
  {
  }

  lemma SwapRemovedSessions(tab: seq<Session>, i: nat)
    requires DistinctSessions(tab) && i < |tab|
    ensures DistinctSessions(SwapRemoved(tab, i))
    ensures forall s :: s in SwapRemoved(tab, i) <==> s in tab && s != tab[i]
    ensures SslSet(SwapRemoved(tab, i)) == SslSet(tab) - {tab[i].ssl}
  {
    DistinctAsValues(tab);
    SwapRemovedSet(tab, i);
    forall s | s in tab && s != tab[i] ensures s.ssl != tab[i].ssl {
      var p :| 0 <= p < |tab| && tab[p] == s;
    }
  }

  /** SSL_read and what follows it use the client's own descriptor, and leave it open or close it. */
  lemma ReadFds(listener: int, v: View, i: nat, io: Io)
    requires Consistent(listener, v) && i < |v.tab|
    ensures BoundTo(v.bound, v.tab[i].ssl) == v.tab[i].fd
    ensures Replay({listener}, Read(v, i, io).fdLog) == Some(Read(v, i, io).open)
  {
    var s := v.tab[i];
    assert s in v.tab;
    hide Replay, SslSet, DistinctSessions;
    ReplayAppend({listener}, v.fdLog, Use(s.fd));
    ReplayAppend({listener}, v.fdLog + [Use(s.fd)], Close(s.fd));
    ReplayAppend({listener}, v.fdLog + [Use(s.fd)], Use(s.fd));
  }

  lemma ReadSsl(listener: int, v: View, i: nat, io: Io)
    requires Consistent(listener, v) && i < |v.tab|
    ensures Replay({}, Read(v, i, io).sslLog) == Some(SslSet(Read(v, i, io).tab))
  {
    var id := v.tab[i].ssl;
    assert v.tab[i] in v.tab;
    assert id in SslSet(v.tab);
    SwapRemovedSessions(v.tab, i);
    hide Replay, SslSet, DistinctSessions;
    ReplayAppend({}, v.sslLog, Use(id));
    ReplayAppend({}, v.sslLog + [Use(id)], Close(id));
    ReplayAppend({}, v.sslLog + [Use(id)], Use(id));
  }

  lemma ReadKeeps(listener: int, v: View, i: nat, io: Io)
    requires Consistent(listener, v) && 1 <= i < |v.tab|
    ensures Consistent(listener, Read(v, i, io))
  {
    ReadFds(listener, v, i, io);
    ReadSsl(listener, v, i, io);
    SwapRemovedSessions(v.tab, i);
    SwapRemovedFds(v.tab, i);
    hide Replay, SslSet;
  }

  lemma SwapRemovedFds(tab: seq<Session>, i: nat)
    requires DistinctSessions(tab) && 1 <= i < |tab|
    ensures forall s :: s in SwapRemoved(tab, i) ==> s.fd != tab[i].fd
    ensures |SwapRemoved(tab, i)| >= 1 && SwapRemoved(tab, i)[0] == tab[0]
    ensures forall p :: 1 <= p < |SwapRemoved(tab, i)| ==> SwapRemoved(tab, i)[p] == tab[if p == i then |tab| - 1 else p]
  {
    SwapRemovedSessions(tab, i);
    forall s | s in SwapRemoved(tab, i) ensures s.fd != tab[i].fd {
      var p :| 0 <= p < |tab| && tab[p] == s;
    }
  }

  lemma ScanKeeps(listener: int, v: View, i: nat, env: Env)
    requires Consistent(listener, v) && (env.sock >= 0 && i == 0 ==> env.sock !in v.open)
    ensures Consistent(listener, Visit(v, i, env))
  {
    if ReadsAt(v, i, env) {
      ReadKeeps(listener, v, i, env.io(v.tab[i].fd));
    } else if i == 0 {
      AcceptedKeeps(listener, v, env);
    }
  }

  /**
   What cleanup does to descriptors for the first k used slots: close, then SSL_shutdown on the
   object bound to it.  The listener's object has never done a handshake; `shakes` says
   whether SSL_shutdown touches its descriptor all the same.
   */
  function CleanupLog(tab: seq<Session>, bound: seq<int>, k: nat, shakes: bool): seq<Event>
    requires k <= |tab|
  {
    if k == 0 then []
    else
      CleanupLog(tab, bound, k - 1, shakes)
      + (if tab[k - 1].fd > 0 then [Close(tab[k - 1].fd)] else [])
      + (if k > 1 || shakes then [Use(BoundTo(bound, tab[k - 1].ssl))] else [])
  }

  function FreeAll(tab: seq<Session>, k: nat): seq<Event>
    requires k <= |tab|
  {
    if k == 0 then [] else FreeAll(tab, k - 1) + [Use(tab[k - 1].ssl), Close(tab[k - 1].ssl)]
  }

  function Start(listener: int): View { View([Session(listener, 0)], [listener], {listener}, [], [Open(0)]) }

  lemma StartConsistent(listener: int)
    ensures Consistent(listener, Start(listener))
  {
    hide Replay, SslSet;
    var s := Session(listener, 0);
    ReplayOne({}, Open(0));
    SslSetAppend([], s);
    NothingYet(listener);
    assert [] + [s] == [s];
  }

  lemma NothingYet(listener: int)
    ensures SslSet([]) == {} && Replay({listener}, []) == Some({listener})
  {
  }

  // ---------------------------------------------------------------- the parallel arrays

  /** Slots below nfds hold the sessions, slots from nfds up hold -1 and NULL. */
  ghost predicate Holds(tab: seq<Session>, fds: seq<PollFd>, ssl: seq<Option<int>>, nfds: int) {
    && |fds| == |ssl| == MAX_CONNECTION && nfds == |tab| <= MAX_CONNECTION
    && (forall i :: 0 <= i < nfds ==> fds[i].fd == tab[i].fd && ssl[i] == Some(tab[i].ssl))
    && (forall i :: nfds <= i < MAX_CONNECTION ==> fds[i].fd == -1 && ssl[i] == None)
  }

  function Pollins(fds: seq<PollFd>): seq<bool> { seq(|fds|, i requires 0 <= i < |fds| => fds[i].pollin) }

  lemma HoldsAfterSwap(tab: seq<Session>, fds: seq<PollFd>, ssl: seq<Option<int>>, nfds: int, i: int)
    requires Holds(tab, fds, ssl, nfds) && 0 <= i < nfds
    ensures var f1 := fds[i := fds[i].(fd := fds[nfds - 1].fd)];
            var f2 := f1[nfds - 1 := f1[nfds - 1].(fd := -1)];
            Holds(SwapRemoved(tab, i), f2, ssl[i := ssl[nfds - 1]][nfds - 1 := None], nfds - 1) && Pollins(f2) == Pollins(fds)
  {
  }

  lemma HoldsAfterFill(tab: seq<Session>, fds: seq<PollFd>, ssl: seq<Option<int>>, nfds: int, s: Session)
    requires Holds(tab, fds, ssl, nfds) && nfds < MAX_CONNECTION
    ensures var f := fds[nfds := fds[nfds].(fd := s.fd)];
            && Holds(tab + [s], f, ssl[nfds := Some(s.ssl)], nfds + 1) && Pollins(f) == Pollins(fds)
            && f[nfds := f[nfds].(fd := -1)] == fds && ssl[nfds := Some(s.ssl)][nfds := None] == ssl
  {
  }

  class TlsServer {
    const listener: int
    const fds: array<PollFd>
    const ssl: array<Option<int>> // arr_ssl
    var nfds: int
    var created: int // SSL objects created so far
    ghost var view: View

    ghost predicate Valid()
      reads this, fds, ssl
      ensures Valid() ==> 1 <= nfds
    {
      && Holds(view.tab, fds[..], ssl[..], nfds)
      && created == |view.bound|
      && Consistent(listener, view)
    }

    constructor (socket: int)
      ensures Valid() && fresh(fds) && fresh(ssl) && listener == socket
      ensures view == Start(socket)
    {
      listener := socket;
      fds := new PollFd[MAX_CONNECTION](_ => PollFd(-1, false));
      ssl := new Option<int>[MAX_CONNECTION](_ => None);
      nfds := 1;
      created := 1;
      view := Start(socket);
      new;
      fds[0] := PollFd(socket, false);
      ssl[0] := Some(0);
      StartConsistent(socket);
      hide Consistent;
    }

    /** poll over all the slots; the kernel reports nothing for a negative descriptor. */
    method Poll(pollin: seq<bool>)
      requires Valid() && |pollin| == MAX_CONNECTION
      modifies fds
      ensures Valid() && Pollins(fds[..]) == pollin
    {
      hide Consistent;
      var i := 0;
      while i < MAX_CONNECTION
        invariant 0 <= i <= MAX_CONNECTION && fds.Length == MAX_CONNECTION
        invariant forall j :: 0 <= j < i ==> fds[j] == PollFd(old(fds[j].fd), pollin[j])
        invariant forall j :: i <= j < MAX_CONNECTION ==> fds[j] == old(fds[j])
      {
        fds[i] := fds[i].(pollin := pollin[i]);
        i := i + 1;
      }
    }

    /** accept on the listener, SSL_new and SSL_accept; a failed handshake empties the slot again. */
    method AcceptClient(env: Env)
      requires Valid() && (env.sock >= 0 ==> env.sock !in view.open)
      modifies this, fds, ssl
      ensures Valid() && view == Accepted(old(view), env) && Pollins(fds[..]) == old(Pollins(fds[..]))
    {
      AcceptedKeeps(listener, view, env);
      ListenerFirst();
      hide Consistent, Pollins, Shaken, Holds;
      view := view.(fdLog := view.fdLog + [Use(listener)]); // accept
      if env.sock >= 0 {
        view := view.(open := view.open + {env.sock}, fdLog := view.fdLog + [Open(env.sock)]);
      }
      if env.sock > 0 && nfds < MAX_CONNECTION {
        Shake(env.sock, env.handshake);
      }
    }

    /** The new client in slot nfds of both arrays; a failed handshake empties the slot again. */
    method Shake(sock: int, handshake: int)
      requires Holds(view.tab, fds[..], ssl[..], nfds) && nfds < MAX_CONNECTION && created == |view.bound|
      modifies this, fds, ssl
      ensures view == Shaken(old(view), sock, handshake) && Pollins(fds[..]) == old(Pollins(fds[..]))
      ensures Holds(view.tab, fds[..], ssl[..], nfds) && created == |view.bound|
    {
      HoldsAfterFill(view.tab, fds[..], ssl[..], nfds, Session(sock, created));
      UsedSlots();
      hide Pollins, Holds;
      ghost var f, s := fds[..], ssl[..];
      fds[nfds] := fds[nfds].(fd := sock);
      ssl[nfds] := Some(created); // SSL_new
      view := view.(sslLog := view.sslLog + [Open(created)], bound := view.bound + [fds[nfds].fd]);
      created := created + 1;
      assert fds[..] == f[nfds := f[nfds].(fd := sock)] && ssl[..] == s[nfds := Some(created - 1)];
      ghost var id := ssl[nfds].value; // SSL_accept
      view := view.(fdLog := view.fdLog + [Use(BoundTo(view.bound, id))], sslLog := view.sslLog + [Use(id)]);
      if handshake <= 0 {
        view := view.(fdLog := view.fdLog + [Close(fds[nfds].fd)], open := view.open - {fds[nfds].fd},
                      sslLog := view.sslLog + [Close(id)]);
        fds[nfds] := fds[nfds].(fd := -1);
        ssl[nfds] := None;
        assert fds[..] == f && ssl[..] == s;
      } else {
        view := view.(tab := view.tab + [Session(fds[nfds].fd, id)]);
        nfds := nfds + 1;
      }
    }

    lemma ListenerFirst()
      requires Valid()
      ensures Listener(view) == listener && |view.tab| == nfds && created == |view.bound|
      ensures 1 <= nfds <= fds.Length == ssl.Length == MAX_CONNECTION
    {
    }

    /** The last slot moves into slot i, in both arrays, and becomes unused; revents stays behind. */
    method Overwrite(i: int)
      requires Holds(view.tab, fds[..], ssl[..], nfds) && 0 <= i < nfds
      modifies this`nfds, fds, ssl
      ensures Holds(SwapRemoved(view.tab, i), fds[..], ssl[..], nfds) && nfds == old(nfds) - 1
      ensures Pollins(fds[..]) == old(Pollins(fds[..]))
    {
      HoldsAfterSwap(view.tab, fds[..], ssl[..], nfds, i);
      ghost var f, s := fds[..], ssl[..];
      var last := nfds - 1;
      fds[i] := fds[i].(fd := fds[last].fd);
      ssl[i] := ssl[last];
      fds[last] := fds[last].(fd := -1);
      ssl[last] := None;
      nfds := last;
      hide Holds, Pollins, SwapRemoved;
      ghost var f1 := f[i := f[i].(fd := f[last].fd)];
      assert fds[..] == f1[last := f1[last].(fd := -1)];
      assert ssl[..] == s[i := s[last]][last := None];
    }

    /** SSL_read on slot i; on disconnection the last slot moves into it, otherwise SSL_write. */
    method ReadClient(i: int, result: Io)
      requires Valid() && 1 <= i < nfds
      modifies this, fds, ssl
      ensures Valid() && view == Read(old(view), i, result) && Pollins(fds[..]) == old(Pollins(fds[..]))
      ensures i < |old(view.tab)|
      ensures view.tab == if result.received <= 0 || result.quit then SwapRemoved(old(view.tab), i) else old(view.tab)
    {
      ReadKeeps(listener, view, i, result);
      UsedSlots();
      SlotAt(i);
      hide Consistent, Holds, Pollins;
      ghost var id := ssl[i].value;
      view := view.(fdLog := view.fdLog + [Use(BoundTo(view.bound, id))], sslLog := view.sslLog + [Use(id)]); // SSL_read
      var shouldDisconnect := false;
      if result.received <= 0 {
        shouldDisconnect := true;
      }
      if result.quit {
        shouldDisconnect := true;
      }
      if shouldDisconnect {
        view := view.(fdLog := view.fdLog + [Close(fds[i].fd)], open := view.open - {fds[i].fd},
                      sslLog := view.sslLog + [Close(id)]);
        Overwrite(i);
        view := view.(tab := SwapRemoved(view.tab, i));
      } else {
        view := view.(fdLog := view.fdLog + [Use(BoundTo(view.bound, id))], sslLog := view.sslLog + [Use(id)]); // SSL_write
      }
    }

    lemma SlotAt(i: int)
      requires Holds(view.tab, fds[..], ssl[..], nfds) && 0 <= i < nfds
      ensures i < |view.tab| && i < fds.Length && i < ssl.Length
      ensures fds[i].fd == view.tab[i].fd && ssl[i] == Some(view.tab[i].ssl)
    {
    }

    lemma UsedSlots()
      requires Holds(view.tab, fds[..], ssl[..], nfds)
      ensures nfds == |view.tab| && fds.Length == ssl.Length == MAX_CONNECTION
    {
    }

    /** One round of the server loop. */
    method Round(env: Env)
      requires Valid() && |env.pollin| == MAX_CONNECTION
      requires env.sock >= 0 ==> env.sock !in view.open
      modifies this, fds, ssl
      ensures Valid() && view == Scan(old(view), MAX_CONNECTION, env)
    {
      hide Consistent, Accepted, Read;
      Poll(env.pollin);
      var i := 0;
      while i < nfds
        invariant Valid() && Pollins(fds[..]) == env.pollin && 0 <= i
        invariant i == 0 ==> view == old(view)
        invariant i <= MAX_CONNECTION && view == Scan(old(view), i, env)
        decreases MAX_CONNECTION - i
      {
        assert fds[i].pollin == env.pollin[i];
        SlotZero(i);
        if fds[i].pollin {
          if fds[i].fd == listener {
            AcceptClient(env);
          } else {
            ReadClient(i, env.io(fds[i].fd));
          }
        }
        i := i + 1;
      }
      NothingBeyond(old(view), i, MAX_CONNECTION, env);
    }

    /** After the loop: the listener is closed, then slot by slot the descriptor, and its object shut down and freed. */
    method Cleanup(shakes: bool)
      requires Valid()
      modifies this`view, ssl
      ensures forall i :: 0 <= i < MAX_CONNECTION ==> ssl[i] == None
      ensures var v := old(view);
              && view.fdLog == v.fdLog + [Close(listener)] + CleanupLog(v.tab, v.bound, |v.tab|, shakes)
              && view.sslLog == v.sslLog + FreeAll(v.tab, |v.tab|)
    {
      hide Consistent, SslSet;
      ghost var tab, bound := view.tab, view.bound;
      ghost var fdLog, sslLog := view.fdLog + [Close(listener)], view.sslLog;
      var i := 0;
      while i < MAX_CONNECTION
        invariant 0 <= i <= MAX_CONNECTION && ssl.Length == MAX_CONNECTION
        invariant forall j :: 0 <= j < i ==> ssl[j] == None
        invariant forall j :: i <= j < MAX_CONNECTION ==> ssl[j] == old(ssl[j])
        invariant fdLog == old(view.fdLog) + [Close(listener)] + CleanupLog(tab, bound, if i < nfds then i else nfds, shakes)
        invariant sslLog == old(view.sslLog) + FreeAll(tab, if i < nfds then i else nfds)
      {
        if fds[i].fd > 0 {
          fdLog := fdLog + [Close(fds[i].fd)];
        }
        if ssl[i] != None {
          if i > 0 || shakes {
            fdLog := fdLog + [Use(BoundTo(bound, ssl[i].value))];
          }
          sslLog := sslLog + [Use(ssl[i].value), Close(ssl[i].value)];
          ssl[i] := None;
        }
        i := i + 1;
      }
      view := view.(fdLog := fdLog, sslLog := sslLog);
    }

    /** No operation on a closed descriptor, over every run: a number is touched again only after a new open of it. */
    lemma TouchedOnlyAfterReopen(i: nat, k: nat, fd: int)
      requires Valid() && i < k < |view.fdLog| && view.fdLog[i] == Close(fd) && view.fdLog[k] in {Use(fd), Close(fd)}
      ensures exists j :: i < j < k && view.fdLog[j] == Open(fd)
    {
      Descriptors.TouchedOnlyAfterReopen({listener}, view.fdLog, i, k, fd);
    }

    lemma SlotZero(i: int)
      requires Valid() && 0 <= i < nfds
      ensures fds[i].fd == listener <==> i == 0
      ensures fds[i].fd == view.tab[i].fd && 1 <= |view.tab|
    {
    }
  }
}
