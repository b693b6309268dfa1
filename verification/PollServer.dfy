/**
 The poll server of tutorial 13: the listener and the clients stand in a dense
 array; a client that ends is overwritten by the last one and the slot is looked at
 again.  Only the descriptor is copied: revents stays with the slot.
 */
module PollServers {
  import opened Wrappers
  import opened Descriptors
  import opened Clients
  import opened DenseArrays

  // ---------------------------------------------------------------- specification of the scan

  /** The descriptors served by the scan from slot i on, in order. */
  function Served(tab: seq<int>, i: nat, flags: seq<bool>, io: int -> Io): seq<int>
    requires |tab| <= |flags|
    decreases |tab|, |tab| - i
  {
    if i >= |tab| then []
    else if !flags[i] then Served(tab, i + 1, flags, io)
    else if Drops(io(tab[i])) then [tab[i]] + Served(SwapRemoved(tab, i), i, flags, io)
    else [tab[i]] + Served(tab, i + 1, flags, io)
  }

  /** The array left by the scan. */
  function Scanned(tab: seq<int>, i: nat, flags: seq<bool>, io: int -> Io): seq<int>
    requires |tab| <= |flags|
    decreases |tab|, |tab| - i
  {
    if i >= |tab| then tab
    else if flags[i] && Drops(io(tab[i])) then Scanned(SwapRemoved(tab, i), i, flags, io)
    else Scanned(tab, i + 1, flags, io)
  }

  /** The system calls for the descriptors served: recv, perhaps send, and close for the dropped. */
  function ServeLog(served: seq<int>, io: int -> Io): seq<Event> {
    if served == [] then [] else ServiceLog(served[0], io(served[0])) + ServeLog(served[1..], io)
  }

  // ---------------------------------------------------------------- the set of clients

  /** A client is lost by the scan exactly when it was served and its connection ended. */
  lemma {:induction false} ScannedKeepsTheRest(tab: seq<int>, i: nat, flags: seq<bool>, io: int -> Io, fd: int)
    requires Distinct(tab) && |tab| <= |flags|
    ensures Distinct(Scanned(tab, i, flags, io))
    ensures fd in Scanned(tab, i, flags, io) <==> 
            fd in tab && !(fd in Served(tab, i, flags, io) && (io(fd).received <= 0 || io(fd).sent <= 0 || io(fd).quit))
    ensures fd in Served(tab, i, flags, io) ==> fd in tab
    decreases |tab|, |tab| - i
  {
    if i < |tab| {
      if flags[i] && Drops(io(tab[i])) {
        SwapRemovedSet(tab, i);
        ScannedKeepsTheRest(SwapRemoved(tab, i), i, flags, io, fd);
      } else {
        ScannedKeepsTheRest(tab, i + 1, flags, io, fd);
      }
    }
  }

  lemma {:induction false} ServedFromSlots(tab: seq<int>, i: nat, flags: seq<bool>, io: int -> Io, r: nat)
    requires |tab| <= |flags| && r < |Served(tab, i, flags, io)|
    ensures exists p :: i <= p < |tab| && tab[p] == Served(tab, i, flags, io)[r]
    decreases |tab|, |tab| - i
  {
    if flags[i] && r == 0 {
      assert tab[i] == Served(tab, i, flags, io)[0];
    } else if flags[i] && Drops(io(tab[i])) {
      var t := SwapRemoved(tab, i);
      ServedFromSlots(t, i, flags, io, r - 1);
      var p :| i <= p < |t| && t[p] == Served(t, i, flags, io)[r - 1];
      assert t[p] == tab[if p == i then |tab| - 1 else p];
    } else {
      ServedFromSlots(tab, i + 1, flags, io, if flags[i] then r - 1 else r);
    }
  }

  /** No client is served twice in a round, although slots are looked at again after a swap. */
  lemma {:induction false} ServedOnce(tab: seq<int>, i: nat, flags: seq<bool>, io: int -> Io)
    requires Distinct(tab) && |tab| <= |flags|
    ensures Distinct(Served(tab, i, flags, io))
    decreases |tab|, |tab| - i
  {
    if i < |tab| {
      var dropped := flags[i] && Drops(io(tab[i]));
      var t, k := if dropped then SwapRemoved(tab, i) else tab, if dropped then i else i + 1;
      if dropped {
        SwapRemovedSet(tab, i);
      }
      ServedOnce(t, k, flags, io);
      if flags[i] {
        forall r | 0 <= r < |Served(t, k, flags, io)| ensures Served(t, k, flags, io)[r] != tab[i] {
          ServedFromSlots(t, k, flags, io, r);
        }
      }
    }
  }

  /** Every client whose own slot is flagged is served, even if a swap moves it. */
  lemma {:induction false} FlaggedAreServed(tab: seq<int>, i: nat, flags: seq<bool>, io: int -> Io, owed: set<int>)
    requires |tab| <= |flags|
    requires forall p :: i <= p < |tab| && tab[p] in owed ==> flags[p]
    ensures forall p :: i <= p < |tab| && tab[p] in owed ==> tab[p] in Served(tab, i, flags, io)
    decreases |tab|, |tab| - i
  {
    if i < |tab| {
      if flags[i] && Drops(io(tab[i])) {
        var t := SwapRemoved(tab, i);
        FlaggedAreServed(t, i, flags, io, owed);
        forall p | i <= p < |tab| && tab[p] in owed ensures tab[p] in Served(tab, i, flags, io) {
          if p != i {
            var q := if p == |tab| - 1 then i else p;
            assert t[q] == tab[p];
          }
        }
      } else {
        FlaggedAreServed(tab, i + 1, flags, io, owed);
      }
    }
  }

  // ---------------------------------------------------------------- which clients are served

  /** The flagged slots from lo up to hi whose clients' connections end. */
  function Leavers(tab: seq<int>, lo: nat, hi: nat, flags: seq<bool>, io: int -> Io): nat
    requires hi <= |tab| <= |flags|
    decreases hi - lo
  {
    if lo >= hi then 0 else
    var c := io(tab[lo]);
    Bit(flags[lo] && (c.received <= 0 || c.sent <= 0 || c.quit)) + Leavers(tab, lo + 1, hi, flags, io)
  }

  /** The clients in the slots from lo up to hi whose connections would go on. */
  function Stayers(tab: seq<int>, lo: nat, hi: nat, io: int -> Io): nat
    requires hi <= |tab|
  {
    if lo >= hi then 0 else
    var c := io(tab[hi - 1]);
    Stayers(tab, lo, hi - 1, io) + Bit(c.received > 0 && c.sent > 0 && !c.quit)
  }

  /**
   The scan from slot i comes to serve the client of slot p: its slot is flagged, or the flagged clients
   before it that leave are more than the clients behind it that stay, so that it is moved to a flagged slot.
   */
  predicate IsServed(tab: seq<int>, i: nat, p: nat, flags: seq<bool>, io: int -> Io)
    requires p < |tab| <= |flags|
  {
    flags[p] || Leavers(tab, i, p, flags, io) > Stayers(tab, p + 1, |tab|, io)
  }

  lemma {:induction false} SameLeavers(tab: seq<int>, t: seq<int>, lo: nat, hi: nat, flags: seq<bool>, io: int -> Io)
    requires hi <= |tab| <= |flags| && hi <= |t| <= |flags| && forall q :: lo <= q < hi ==> tab[q] == t[q]
    ensures Leavers(tab, lo, hi, flags, io) == Leavers(t, lo, hi, flags, io)
    decreases hi - lo
  {
    if lo < hi {
      SameLeavers(tab, t, lo + 1, hi, flags, io);
    }
  }

  lemma {:induction false} SameStayers(tab: seq<int>, t: seq<int>, lo: nat, hi: nat, io: int -> Io)
    requires hi <= |tab| && hi <= |t| && forall q :: lo <= q < hi ==> tab[q] == t[q]
    ensures Stayers(tab, lo, hi, io) == Stayers(t, lo, hi, io)
  {
    if lo < hi {
      SameStayers(tab, t, lo, hi - 1, io);
    }
  }

  /** After the removal of a flagged leaver at slot i, the client of a later slot p has the same chance. */
  lemma SwapKeepsServed(tab: seq<int>, i: nat, p: nat, flags: seq<bool>, io: int -> Io)
    requires i < p < |tab| <= |flags| && flags[i] && Drops(io(tab[i]))
    ensures IsServed(tab, i, p, flags, io) <==>
            IsServed(SwapRemoved(tab, i), i, if p == |tab| - 1 then i else p, flags, io)
  {
    var t := SwapRemoved(tab, i);
    if p < |t| {
      SameLeavers(tab, t, i + 1, p, flags, io);
      SameStayers(tab, t, p + 1, |t|, io);
    }
  }

  /** Exactly which clients are served, for given flags and traffic. */
  lemma {:induction false} ServedExactly(tab: seq<int>, i: nat, p: nat, flags: seq<bool>, io: int -> Io)
    requires Distinct(tab) && i <= p < |tab| <= |flags|
    ensures tab[p] in Served(tab, i, flags, io) <==> IsServed(tab, i, p, flags, io)
    decreases |tab|, |tab| - i
  {
    hide IsServed;
    if flags[i] && Drops(io(tab[i])) {
      if p == i {
        assert IsServed(tab, i, i, flags, io) by {
          FlaggedIsServed(tab, i, i, flags, io);
        }
      } else {
        SwapRemovedSet(tab, i);
        SwapKeepsServed(tab, i, p, flags, io);
        ServedExactly(SwapRemoved(tab, i), i, if p == |tab| - 1 then i else p, flags, io);
      }
    } else if p > i {
      ServedExactly(tab, i + 1, p, flags, io);
      SkipKeepsServed(tab, i, p, flags, io);
    } else if flags[i] {
      FlaggedIsServed(tab, i, i, flags, io);
    } else {
      UnflaggedFirst(tab, i, flags, io);
      ServedLater(tab, i, flags, io);
    }
  }

  lemma FlaggedIsServed(tab: seq<int>, i: nat, p: nat, flags: seq<bool>, io: int -> Io)
    requires p < |tab| <= |flags| && flags[p]
    ensures IsServed(tab, i, p, flags, io)
  {
  }

  lemma UnflaggedFirst(tab: seq<int>, i: nat, flags: seq<bool>, io: int -> Io)
    requires i < |tab| <= |flags| && !flags[i]
    ensures !IsServed(tab, i, i, flags, io)
  {
  }

  lemma SkipKeepsServed(tab: seq<int>, i: nat, p: nat, flags: seq<bool>, io: int -> Io)
    requires i < p < |tab| <= |flags| && !(flags[i] && Drops(io(tab[i])))
    ensures IsServed(tab, i, p, flags, io) <==> IsServed(tab, i + 1, p, flags, io)
  {
  }

  /** The scan of the later slots serves none of the earlier ones. */
  lemma ServedLater(tab: seq<int>, i: nat, flags: seq<bool>, io: int -> Io)
    requires Distinct(tab) && i < |tab| <= |flags|
    ensures tab[i] !in Served(tab, i + 1, flags, io)
  {
    var served := Served(tab, i + 1, flags, io);
    if r :| 0 <= r < |served| && served[r] == tab[i] {
      ServedFromSlots(tab, i + 1, flags, io, r);
    }
  }

  /** The round as an operation on the set of clients: exactly those are lost that are served and end. */
  lemma RoundOnTheSetOfClients(tab: seq<int>, flags: seq<bool>, io: int -> Io, p: nat)
    requires Distinct(tab) && 1 <= p < |tab| <= |flags|
    ensures var c := io(tab[p]);
            tab[p] in Scanned(tab, 1, flags, io) <==>
            !(IsServed(tab, 1, p, flags, io) && (c.received <= 0 || c.sent <= 0 || c.quit))
  {
    ScannedKeepsTheRest(tab, 1, flags, io, tab[p]);
    ServedExactly(tab, 1, p, flags, io);
  }

  // ---------------------------------------------------------------- the scan step by step

  lemma {:induction false} ServeLogAppend(served: seq<int>, fd: int, io: int -> Io)
    ensures ServeLog(served + [fd], io) == ServeLog(served, io) + ServiceLog(fd, io(fd))
  {
    if served == [] {
      assert [] + [fd] == [fd] && [fd][1..] == [];
    } else {
      ServeLogAppend(served[1..], fd, io);
      assert (served + [fd])[1..] == served[1..] + [fd];
    }
  }

  /** One slot of the scan, with what was served before it. */
  lemma ScanStep(done: seq<int>, tab: seq<int>, i: nat, flags: seq<bool>, io: int -> Io)
    requires i < |tab| <= |flags|
    ensures var tab' := if flags[i] && Drops(io(tab[i])) then SwapRemoved(tab, i) else tab;
            var i' := if flags[i] && Drops(io(tab[i])) then i else i + 1;
            && Scanned(tab, i, flags, io) == Scanned(tab', i', flags, io)
            && done + Served(tab, i, flags, io) ==
               (if flags[i] then done + [tab[i]] else done) + Served(tab', i', flags, io)
  {
  }

  lemma ScanEnd(done: seq<int>, tab: seq<int>, i: nat, flags: seq<bool>, io: int -> Io)
    requires |tab| <= i && |tab| <= |flags|
    ensures Scanned(tab, i, flags, io) == tab && done + Served(tab, i, flags, io) == done
  {
  }

  lemma NothingServed(io: int -> Io)
    ensures ServeLog([], io) == []
  {
  }

  // ---------------------------------------------------------------- which services are justified

  /** Each client served was reported readable by this poll; `reported` is by slot of the array before the scan. */
  ghost predicate Justified(tab: seq<int>, reported: seq<bool>, served: seq<int>)
    requires |reported| == |tab|
  {
    forall r :: 0 <= r < |served| ==> exists p :: 1 <= p < |tab| && tab[p] == served[r] && reported[p]
  }

  /** From the first flagged client slot on, every client was reported. */
  predicate ReportedFromFirstFlag(flags: seq<bool>, reported: seq<bool>)
    requires |reported| <= |flags|
  {
    forall i, j :: 1 <= i <= j < |reported| && flags[i] ==> reported[j]
  }

  lemma {:induction false} SuffixIsJustified(tab0: seq<int>, reported: seq<bool>, tab: seq<int>, i: nat, q: nat,
                                             flags: seq<bool>, io: int -> Io)
    requires |tab| <= |tab0| == |reported| <= |flags| && 1 <= i
    requires ReportedFromFirstFlag(flags, reported)
    requires forall p :: i < p < |tab| ==> tab[p] == tab0[p]
    requires i < |tab| ==> i <= q < |tab0| && tab[i] == tab0[q]
    ensures Justified(tab0, reported, Served(tab, i, flags, io))
    decreases |tab|, |tab| - i
  {
    if i < |tab| {
      var dropped := flags[i] && Drops(io(tab[i]));
      var t, k := if dropped then SwapRemoved(tab, i) else tab, if dropped then i else i + 1;
      SuffixIsJustified(tab0, reported, t, k, if !dropped then k else if |t| == i then q else |tab| - 1, flags, io);
      if flags[i] {
        assert reported[q];
        assert Served(tab, i, flags, io) == [tab0[q]] + Served(t, k, flags, io);
      }
    }
  }

  function EveryoneLeaves(): int -> Io { (_: int) => Io(0, false, 0) }

  /** When everyone leaves, a flagged slot drains all the slots after it. */
  lemma {:induction false} FlagDrainsTheRest(tab: seq<int>, i: nat, flags: seq<bool>, p: nat)
    requires |tab| <= |flags| && i <= p < |tab| && flags[i]
    ensures tab[p] in Served(tab, i, flags, EveryoneLeaves())
    decreases |tab|
  {
    var t := SwapRemoved(tab, i);
    if p != i {
      var q := if p == |tab| - 1 then i else p;
      assert t[q] == tab[p];
      FlagDrainsTheRest(t, i, flags, q);
    }
  }

  lemma {:induction false} ScanReachesTheFlag(tab: seq<int>, k: nat, i: nat, flags: seq<bool>, p: nat)
    requires |tab| <= |flags| && k <= i <= p < |tab| && flags[i]
    ensures tab[p] in Served(tab, k, flags, EveryoneLeaves())
    decreases i - k
  {
    if flags[k] {
      FlagDrainsTheRest(tab, k, flags, p);
    } else {
      ScanReachesTheFlag(tab, k + 1, i, flags, p);
    }
  }

  /**
   Since only the descriptor is copied, a swapped-in client is served on another's
   flag.  Every client served was reported, whatever happens on the connections, if and
   only if every client from the first flagged slot on was reported.
   */
  lemma JustifiedExactly(tab: seq<int>, flags: seq<bool>, reported: seq<bool>)
    requires Distinct(tab) && |tab| == |reported| <= |flags|
    ensures (forall io: int -> Io :: Justified(tab, reported, Served(tab, 1, flags, io)))
            <==> ReportedFromFirstFlag(flags, reported)
  {
    if ReportedFromFirstFlag(flags, reported) {
      forall io: int -> Io ensures Justified(tab, reported, Served(tab, 1, flags, io)) {
        SuffixIsJustified(tab, reported, tab, 1, 1, flags, io);
      }
    } else {
      var i, j :| 1 <= i <= j < |reported| && flags[i] && !reported[j];
      ScanReachesTheFlag(tab, 1, i, flags, j);
      var served := Served(tab, 1, flags, EveryoneLeaves());
      var r :| 0 <= r < |served| && served[r] == tab[j];
      assert !Justified(tab, reported, served);
    }
  }

  /** For given traffic: every client served was reported if and only if every client that IsServed names was. */
  lemma JustifiedForTraffic(tab: seq<int>, flags: seq<bool>, reported: seq<bool>, io: int -> Io)
    requires Distinct(tab) && |tab| == |reported| <= |flags|
    ensures Justified(tab, reported, Served(tab, 1, flags, io)) <==>
            forall p :: 1 <= p < |tab| && IsServed(tab, 1, p, flags, io) ==> reported[p]
  {
    hide IsServed;
    var served := Served(tab, 1, flags, io);
    if Justified(tab, reported, served) {
      forall p | 1 <= p < |tab| && IsServed(tab, 1, p, flags, io) ensures reported[p] {
        ServedExactly(tab, 1, p, flags, io);
        var r :| 0 <= r < |served| && served[r] == tab[p];
      }
    } else {
      var r :| 0 <= r < |served| && !(exists p :: 1 <= p < |tab| && tab[p] == served[r] && reported[p]);
      ServedFromSlots(tab, 1, flags, io, r);
      var p :| 1 <= p < |tab| && tab[p] == served[r];
      ServedExactly(tab, 1, p, flags, io);
    }
  }

  /**
   A round without accept, where poll has written the flags of all slots in use: every client served was
   reported, for all traffic, if and only if no unreported client stands behind a reported one.
   */
  lemma RoundJustifiedExactly(tab: seq<int>, pollin: seq<bool>, flags: seq<bool>)
    requires Distinct(tab) && |tab| == |pollin| && pollin <= flags
    ensures (forall io: int -> Io :: Justified(tab, pollin, Served(tab, 1, flags, io)))
            <==> forall i, j :: 1 <= i <= j < |tab| && pollin[i] ==> pollin[j]
  {
    JustifiedExactly(tab, flags, pollin);
    assert forall i :: 0 <= i < |pollin| ==> flags[i] == pollin[i];
  }

  /**
   A round with an accept: the new client was not in the array that poll saw, and its slot keeps a stale
   flag.  Every client served was reported, for all traffic, if and only if no client slot is flagged.
   */
  lemma AcceptingRoundJustifiedExactly(tab: seq<int>, pollin: seq<bool>, flags: seq<bool>, sock: int)
    requires Distinct(tab) && sock !in tab && tab != [] && |tab| == |pollin| < |flags| && pollin <= flags
    ensures (forall io: int -> Io :: Justified(tab + [sock], pollin + [false], Served(tab + [sock], 1, flags, io)))
            <==> forall i :: 1 <= i <= |tab| ==> !flags[i]
  {
    var reported := pollin + [false];
    assert Distinct(tab + [sock]) by {
      assert forall i :: 0 <= i < |tab| ==> tab[i] in tab;
    }
    JustifiedExactly(tab + [sock], flags, reported);
    assert !reported[|tab|];
    if i :| 1 <= i <= |tab| && flags[i] {
      assert !ReportedFromFirstFlag(flags, reported);
    }
  }

  /** Two clients, the first readable and leaving: the second, not readable, is received from. */
  lemma UnreportedClientServed(listener: int, a: int, b: int)
    requires listener != a && listener != b && a != b
    ensures Served([listener, a, b], 1, [false, true, false], EveryoneLeaves()) == [a, b]
    ensures !Justified([listener, a, b], [false, true, false], [a, b])
  {
    var flags := [false, true, false];
    assert SwapRemoved([listener, a, b], 1) == [listener, b];
    assert SwapRemoved([listener, b], 1) == [listener];
    assert Served([listener], 1, flags, EveryoneLeaves()) == [];
    assert Served([listener, b], 1, flags, EveryoneLeaves()) == [b];
    assert [a, b][1] == b;
  }

  // ---------------------------------------------------------------- the server

  /** The array holds the listener and distinct open clients, and the kernel agrees with the log. */
  ghost predicate Consistent(listener: int, tab: seq<int>, open: set<int>, log: seq<Event>) {
    && Distinct(tab)
    && (forall fd :: fd in tab ==> fd in open)
    && Replay({listener}, log) == Some(open)
  }

  lemma ConsistentAccept(listener: int, tab: seq<int>, open: set<int>, log: seq<Event>, sock: int)
    requires Consistent(listener, tab, open, log) && sock !in open
    ensures Consistent(listener, tab, open + {sock}, log + [Open(sock)])
    ensures Consistent(listener, tab + [sock], open + {sock}, log + [Open(sock)])
  {
    assert (log + [Open(sock)])[..|log|] == log;
    forall i | 0 <= i < |tab| ensures tab[i] != sock {
      assert tab[i] in tab;
    }
  }

  lemma ConsistentDrop(listener: int, tab: seq<int>, open: set<int>, log: seq<Event>, i: nat)
    requires Consistent(listener, tab, open, log) && i < |tab|
    ensures Consistent(listener, SwapRemoved(tab, i), open - {tab[i]}, log + [Close(tab[i])])
  {
    SwapRemovedSet(tab, i);
    assert tab[i] in tab;
    assert (log + [Close(tab[i])])[..|log|] == log;
  }

  // ---------------------------------------------------------------- specification of a round

  /** The descriptors in use, the POLLIN bits of all slots, the open numbers, and the calls made. */
  datatype View = View(tab: seq<int>, flags: seq<bool>, open: set<int>, log: seq<Event>)

  /** The served clients whose connection ended. */
  function Ended(served: seq<int>, io: int -> Io): set<int> { set fd | fd in served && Drops(io(fd)) }

  function NextRound(listener: int, v: View, pollin: seq<bool>, sock: int, io: int -> Io): View
    requires 1 <= |v.tab| == |pollin| <= |v.flags| == MAX_CONNECTION
  {
    var flags := pollin + v.flags[|pollin|..];
    if pollin[0] && sock < 0 then View(v.tab, flags, v.open, v.log + [Use(listener)])
    else
      var tab := if pollin[0] && |v.tab| < MAX_CONNECTION then v.tab + [sock] else v.tab;
      var served := Served(tab, 1, flags, io);
      View(Scanned(tab, 1, flags, io), flags,
           (if pollin[0] then v.open + {sock} else v.open) - Ended(served, io),
           v.log + (if pollin[0] then [Use(listener)] + [Open(sock)] else []) + ServeLog(served, io))
  }

  /** A round by its cases. */
  lemma NextParts(listener: int, v: View, pollin: seq<bool>, sock: int, io: int -> Io)
    requires 1 <= |v.tab| == |pollin| <= |v.flags| == MAX_CONNECTION
    ensures var next, flags := NextRound(listener, v, pollin, sock, io), pollin + v.flags[|pollin|..];
            var tab := if pollin[0] && |v.tab| < MAX_CONNECTION then v.tab + [sock] else v.tab;
            && next.flags == flags && |tab| <= |flags|
            && if pollin[0] && sock < 0 then next.tab == v.tab && next.log == v.log + [Use(listener)]
               else
                 && next.tab == Scanned(tab, 1, flags, io)
                 && next.log == v.log + (if pollin[0] then [Use(listener)] + [Open(sock)] else [])
                                + ServeLog(Served(tab, 1, flags, io), io)
  {
  }

  lemma ServiceReplay(open: set<int>, fd: int, io: Io)
    requires fd in open
    ensures Replay(open, ServiceLog(fd, io)) == Some(if Drops(io) then open - {fd} else open)
  {
    var uses := [Use(fd)] + if io.received > 0 then [Use(fd)] else [];
    ReplayUses(open, uses);
    hide Replay;
    ReplayAppend(open, uses, Close(fd));
    assert ServiceLog(fd, io) == if Drops(io) then uses + [Close(fd)] else uses;
  }

  lemma {:induction false} ServeReplay(open: set<int>, served: seq<int>, io: int -> Io)
    requires Distinct(served) && forall fd :: fd in served ==> fd in open
    ensures Replay(open, ServeLog(served, io)) == Some(open - Ended(served, io))
    decreases |served|
  {
    hide Replay, ServiceLog, Drops;
    if served == [] {
      ReplayNothing(open);
      assert open - Ended([], io) == open;
    } else {
      var fd, rest := served[0], served[1..];
      var left := if Drops(io(fd)) then open - {fd} else open;
      ServiceReplay(open, fd, io(fd));
      ServeReplay(left, rest, io);
      ReplayConcat(open, ServiceLog(fd, io(fd)), ServeLog(rest, io));
      assert forall x :: x in served <==> x == fd || x in rest;
      assert open - Ended(served, io) == left - Ended(rest, io);
    }
  }

  lemma ReplayNothing(open: set<int>)
    ensures Replay(open, []) == Some(open)
  {
  }

  /** The scan keeps the array and the kernel in agreement. */
  lemma ScanKeeps(listener: int, tab: seq<int>, open: set<int>, log: seq<Event>, flags: seq<bool>, io: int -> Io)
    requires Consistent(listener, tab, open, log) && |tab| <= |flags|
    ensures var served := Served(tab, 1, flags, io);
            Consistent(listener, Scanned(tab, 1, flags, io), open - Ended(served, io), log + ServeLog(served, io))
  {
    hide Replay, Served, Scanned, ServeLog;
    var served, scanned := Served(tab, 1, flags, io), Scanned(tab, 1, flags, io);
    ServedOnce(tab, 1, flags, io);
    forall fd ensures fd in served ==> fd in tab {
      ScannedKeepsTheRest(tab, 1, flags, io, fd);
    }
    ServeReplay(open, served, io);
    ReplayConcat({listener}, log, ServeLog(served, io));
    ScannedKeepsTheRest(tab, 1, flags, io, 0);
    forall fd | fd in scanned ensures fd in open - Ended(served, io) {
      ScannedKeepsTheRest(tab, 1, flags, io, fd);
    }
  }

  lemma NextKeeps(listener: int, v: View, pollin: seq<bool>, sock: int, io: int -> Io)
    requires 1 <= |v.tab| == |pollin| <= |v.flags| == MAX_CONNECTION && v.tab[0] == listener
    requires Consistent(listener, v.tab, v.open, v.log) && (pollin[0] && sock >= 0 ==> sock !in v.open)
    ensures var next := NextRound(listener, v, pollin, sock, io); Consistent(listener, next.tab, next.open, next.log)
  {
    assert v.tab[0] in v.tab;
    var flags := pollin + v.flags[|pollin|..];
    if pollin[0] {
      ReplayAppend({listener}, v.log, Use(listener));
      hide Scanned, Served, ServeLog, Ended, Replay;
      if sock >= 0 {
        var used := v.log + [Use(listener)];
        assert Consistent(listener, v.tab, v.open, used);
        ConsistentAccept(listener, v.tab, v.open, used, sock);
        var tab := if |v.tab| < MAX_CONNECTION then v.tab + [sock] else v.tab;
        ScanKeeps(listener, tab, v.open + {sock}, used + [Open(sock)], flags, io);
        assert used + [Open(sock)] == v.log + ([Use(listener)] + [Open(sock)]);
      }
    } else {
      assert v.log + [] == v.log;
      ScanKeeps(listener, v.tab, v.open, v.log, flags, io);
    }
  }

  function Fds(s: seq<PollFd>): (r: seq<int>) { seq(|s|, i requires 0 <= i < |s| => s[i].fd) }

  function Pollins(s: seq<PollFd>): (r: seq<bool>) { seq(|s|, i requires 0 <= i < |s| => s[i].pollin) }

  class PollServer {
    const listener: int
    const fds: array<PollFd>
    var nfds: int
    ghost var open: set<int>
    ghost var log: seq<Event>

    function Tab(): (t: seq<int>)
      requires 0 <= nfds <= fds.Length
      reads this`nfds, fds
      ensures |t| == nfds
    {
      Fds(fds[..nfds])
    }

    function Flags(): (f: seq<bool>)
      reads fds
      ensures |f| == fds.Length
    {
      Pollins(fds[..])
    }

    ghost function Value(): View
      requires 0 <= nfds <= fds.Length
      reads this, fds
    {
      View(Tab(), Flags(), open, log)
    }

    ghost predicate Valid()
      reads this, fds
    {
      && fds.Length == MAX_CONNECTION
      && 1 <= nfds <= MAX_CONNECTION
      && fds[0].fd == listener
      && Consistent(listener, Tab(), open, log)
    }

    constructor (socket: int)
      ensures Valid() && fresh(fds)
      ensures listener == socket && Tab() == [socket] && log == [] && Flags() == seq(MAX_CONNECTION, _ => false)
    {
      listener := socket;
      fds := new PollFd[MAX_CONNECTION](_ => PollFd(0, false));
      nfds := 1;
      open := {socket};
      log := [];
      new;
      fds[0] := PollFd(socket, false);
      assert Tab() == [socket];
    }

    /** poll overwrites the revents of the first nfds entries; the slots beyond keep theirs. */
    method Poll(pollin: seq<bool>)
      requires Valid() && |pollin| == nfds
      modifies fds
      ensures Valid() && Tab() == old(Tab())
      ensures Flags() == pollin + old(Flags())[nfds..]
    {
      var i := 0;
      while i < nfds
        invariant 0 <= i <= nfds && nfds <= fds.Length
        invariant forall j :: 0 <= j < i ==> fds[j] == PollFd(old(fds[j].fd), pollin[j])
        invariant forall j :: i <= j < fds.Length ==> fds[j] == old(fds[j])
      {
        fds[i] := fds[i].(pollin := pollin[i]);
        i := i + 1;
      }
      assert Tab() == old(Tab());
    }

    /** After a successful accept: the client takes the next slot, whose revents are not cleared. */
    method Accept(sock: int)
      requires Valid() && sock !in open
      modifies this, fds
      ensures Valid() && Flags() == old(Flags())
      ensures Tab() == if old(nfds) < MAX_CONNECTION then old(Tab()) + [sock] else old(Tab())
      ensures open == old(open) + {sock} && log == old(log) + [Open(sock)]
    {
      ConsistentAccept(listener, Tab(), open, log, sock);
      if nfds < MAX_CONNECTION {
        fds[nfds] := fds[nfds].(fd := sock);
        nfds := nfds + 1;
        assert Tab() == old(Tab()) + [sock];
      } else {
        assert Tab() == old(Tab());
      }
      open := open + {sock};
      log := log + [Open(sock)];
      assert Flags() == old(Flags());
    }

    /** close, and the last entry's descriptor moves into slot i. */
    method Drop(i: int)
      requires Valid() && 1 <= i < nfds
      modifies this, fds
      ensures Valid() && Flags() == old(Flags())
      ensures Tab() == SwapRemoved(old(Tab()), i)
      ensures log == old(log) + [Close(old(Tab())[i])]
    {
      ConsistentDrop(listener, Tab(), open, log, i);
      log := log + [Close(fds[i].fd)];
      open := open - {fds[i].fd};
      fds[i] := fds[i].(fd := fds[nfds - 1].fd);
      nfds := nfds - 1;
      assert Tab() == SwapRemoved(old(Tab()), i);
      assert Flags() == old(Flags());
    }

    /** recv and send on the client of slot i, and its removal if the connection ended. */
    method Serve(i: int, result: Io) returns (dropped: bool)
      requires Valid() && 1 <= i < nfds
      modifies this, fds
      ensures Valid() && Flags() == old(Flags()) && dropped == (result.received <= 0 || result.sent <= 0 || result.quit)
      ensures Tab() == if dropped then SwapRemoved(old(Tab()), i) else old(Tab())
      ensures log == old(log) + ServiceLog(old(Tab())[i], result)
    {
      var fd := fds[i].fd;
      assert Tab()[i] == fd;
      dropped := false;
      Record(Use(fd));
      if result.received <= 0 {
        Drop(i);
        dropped := true;
      } else {
        Record(Use(fd));
        if result.sent <= 0 {
          dropped := true;
        }
        if result.quit {
          dropped := true;
        }
        if dropped {
          Drop(i);
        }
      }
    }

    /** The scan of the client slots; after a drop the same slot is looked at again. */
    method Scan(io: int -> Io)
      requires Valid()
      modifies this, fds
      ensures Valid() && Flags() == old(Flags())
      ensures Tab() == Scanned(old(Tab()), 1, old(Flags()), io)
      ensures log == old(log) + ServeLog(Served(old(Tab()), 1, old(Flags()), io), io)
    {
      hide Consistent, Fds, Pollins, ServiceLog, Served, Scanned, SwapRemoved, ServeLog;
      ghost var done: seq<int> := []; // served so far
      ghost var tab0, flags, log0 := Tab(), Flags(), log;
      ghost var all := Served(tab0, 1, flags, io);
      assert [] + all == all;
      NothingServed(io);
      var i := 1;
      while i < nfds
        invariant Valid() && Flags() == flags && 1 <= i
        invariant Scanned(Tab(), i, flags, io) == Scanned(tab0, 1, flags, io)
        invariant done + Served(Tab(), i, flags, io) == all
        invariant log == log0 + ServeLog(done, io)
        decreases nfds, nfds - i
      {
        ghost var tab, before := Tab(), log;
        EntryAt(i);
        ScanStep(done, tab, i, flags, io);
        if fds[i].pollin {
          ServeLogAppend(done, tab[i], io);
          done := done + [tab[i]];
          var dropped := Serve(i, io(fds[i].fd));
          assert before + ServiceLog(tab[i], io(tab[i])) == log0 + ServeLog(done, io);
          if dropped {
            i := i - 1;
          }
        }
        i := i + 1;
      }
      ScanEnd(done, Tab(), i, flags, io);
    }

    lemma EntryAt(i: int)
      requires 0 <= i < nfds <= fds.Length
      ensures Tab()[i] == fds[i].fd && Flags()[i] == fds[i].pollin
    {
    }

    /** A system call on an open descriptor. */
    ghost method Record(use: Event)
      requires Valid() && use.Use? && use.fd in open
      modifies this`log
      ensures Valid() && log == old(log) + [use]
    {
      ReplayAppend({listener}, log, use);
      log := log + [use];
    }

    /**
     One round: poll answers `pollin`, at most one connection is accepted (`sock`
     negative is failure, which skips the scan), and the clients are scanned.
     */
    method Round(pollin: seq<bool>, sock: int, io: int -> Io)
      requires Valid() && |pollin| == nfds
      requires pollin[0] && sock >= 0 ==> sock !in open
      modifies this, fds
      ensures Valid() && Value() == NextRound(listener, old(Value()), pollin, sock, io)
    {
      ghost var was := Value();
      StartValue();
      NextKeeps(listener, was, pollin, sock, io);
      NextParts(listener, was, pollin, sock, io);
      hide Scanned, Served, ServeLog, Ended, NextRound, Consistent, Fds, Pollins;
      Poll(pollin);
      EntryAt(0);
      if fds[0].pollin {
        ListenerOpen();
        Record(Use(listener));
        if sock < 0 {
          SameOpen(NextRound(listener, was, pollin, sock, io));
          return;
        }
        Accept(sock);
        assert log == was.log + ([Use(listener)] + [Open(sock)]);
      } else {
        assert log == was.log + [];
      }
      Scan(io);
      SameOpen(NextRound(listener, was, pollin, sock, io));
    }

    lemma StartValue()
      requires Valid()
      ensures Consistent(listener, Value().tab, Value().open, Value().log) && Value().tab[0] == listener
    {
      EntryAt(0);
    }

    /** The log determines which numbers are open. */
    lemma SameOpen(v: View)
      requires Valid() && Consistent(listener, v.tab, v.open, v.log) && log == v.log
      ensures open == v.open
    {
    }

    lemma ListenerOpen()
      requires Valid()
      ensures listener in open
    {
      EntryAt(0);
      assert Tab()[0] in Tab();
    }

    /** No use after close, over every run: a number is touched again only after a new open of it. */
    lemma TouchedOnlyAfterReopen(i: nat, k: nat, fd: int)
      requires Valid() && i < k < |log| && log[i] == Close(fd) && log[k] in {Use(fd), Close(fd)}
      ensures exists j :: i < j < k && log[j] == Open(fd)
    {
      Descriptors.TouchedOnlyAfterReopen({listener}, log, i, k, fd);
    }
  }
}
