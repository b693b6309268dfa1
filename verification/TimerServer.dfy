/**
 The non-blocking server: connections, each a socket and a timer descriptor, kept
 both in a linked queue and in the pollfd array.  One event-loop round accepts at
 most one connection and then sweeps the queue, removing from queue and array
 while it iterates.
 */
module TimerServers {
  import opened Wrappers
  import opened Descriptors
  import opened FdBuffers

  datatype Connection = Connection(conn: int, timer: int)

  /** The results of recv and send on one connection, and whether "ping" was received. */
  datatype Io = Io(received: int, ping: bool, sent: int)

  /** A connection together with its two entries of the pollfd array. */
  datatype Slot = Slot(conn: PollFd, timer: PollFd)

  // ---------------------------------------------------------------- specification of a sweep

  /** Whether the two insertions could grow the array, and whether the queue's node could be allocated. */
  datatype Memory = Memory(first: bool, second: bool, node: bool)

  predicate Sends(io: Io) { io.received > 0 && io.ping }

  /** recv or send reports an error other than end of stream: main returns. */
  predicate Fatal(s: Slot, io: Io) {
    HasEvent(s.conn.revents) && (io.received < 0 || (Sends(io) && io.sent < 0))
  }

  predicate Dropped(s: Slot, io: Io) {
    if HasEvent(s.conn.revents) then io.received == 0 || (Sends(io) && io.sent == 0)
    else HasEvent(s.timer.revents)
  }

  /** A handled connection has its timer refreshed and the timer's event forgotten. */
  function Settled(s: Slot): Slot {
    if HasEvent(s.conn.revents) then s.(timer := s.timer.(revents := NONE)) else s
  }

  /** The pure filter that a sweep refines, over the first k connections. */
  function Swept(slots: seq<Slot>, k: nat, io: int -> Io): seq<Slot>
    requires k <= |slots|
  {
    if k == 0 then [] else
    var s := slots[k - 1];
    Swept(slots, k - 1, io) + if Dropped(s, io(s.conn.fd)) then [] else [Settled(s)]
  }

  /** Whether the sweep goes through the first k connections without returning from main. */
  predicate Survived(slots: seq<Slot>, k: nat, io: int -> Io)
    requires k <= |slots|
  {
    k == 0 || (Survived(slots, k - 1, io) && !Fatal(slots[k - 1], io(slots[k - 1].conn.fd)))
  }

  /** The system calls that handle one connection's event: recv, perhaps send, and the timer's refresh. */
  function UseLog(s: Slot, io: Io): seq<Event> {
    [Use(s.conn.fd)] + (if Sends(io) then [Use(s.conn.fd)] else []) + [Use(s.timer.fd)]
  }

  function SlotLog(s: Slot, io: Io): seq<Event> {
    (if HasEvent(s.conn.revents) then UseLog(s, io) else [])
    + (if Dropped(s, io) then [Close(s.conn.fd), Close(s.timer.fd)] else [])
  }

  function SweepLog(slots: seq<Slot>, k: nat, io: int -> Io): seq<Event>
    requires k <= |slots|
  {
    if k == 0 then [] else
    SweepLog(slots, k - 1, io) + SlotLog(slots[k - 1], io(slots[k - 1].conn.fd))
  }

  /** accept on the listener, and timerfd_create. */
  function AcceptLog(listener: int, s: Slot): seq<Event> { [Use(listener), Open(s.conn.fd), Open(s.timer.fd)] }

  // ---------------------------------------------------------------- the two representations

  function FdSet(s: seq<PollFd>): set<int> { set i | 0 <= i < |s| :: s[i].fd }

  /** Array and queue agree: the listener's entry first, then the two entries of each queued connection in order. */
  ghost predicate Agree(entries: seq<PollFd>, conns: seq<Connection>, slots: seq<Slot>) {
    && |conns| == |slots|
    && |entries| == 1 + 2 * |slots|
    && (forall i :: 0 <= i < |slots| ==>
          && conns[i] == Connection(slots[i].conn.fd, slots[i].timer.fd)
          && entries[1 + 2 * i] == slots[i].conn
          && entries[2 + 2 * i] == slots[i].timer)
    && DistinctFds(entries)
  }

  /** What the asserts of the sweep rely on: both entries of a queued connection are found, where they should be. */
  lemma FoundInPlace(entries: seq<PollFd>, conns: seq<Connection>, slots: seq<Slot>, i: nat)
    requires Agree(entries, conns, slots) && i < |slots|
    ensures FirstIndex(entries, conns[i].conn) == LastIndex(entries, conns[i].conn) == 1 + 2 * i
    ensures FirstIndex(entries, conns[i].timer) == LastIndex(entries, conns[i].timer) == 2 + 2 * i
  {
    SearchesAgree(entries, 1 + 2 * i);
    SearchesAgree(entries, 2 + 2 * i);
  }

  /** Deleting the two entries of slot i from the array is deleting slot i. */
  lemma DeleteSlot(entries: seq<PollFd>, conns: seq<Connection>, slots: seq<Slot>, i: nat)
    requires Agree(entries, conns, slots) && i < |slots|
    ensures LastIndex(entries, conns[i].conn) > 0
    ensures LastIndex(Removed(entries, conns[i].conn), conns[i].timer) > 0
    ensures Agree(Removed(Removed(entries, conns[i].conn), conns[i].timer),
                  conns[..i] + conns[i + 1..], slots[..i] + slots[i + 1..])
    ensures Removed(Removed(entries, conns[i].conn), conns[i].timer)[0] == entries[0]
  {
    hide LastIndex, Removed;
    DeleteTwo(entries, 1 + 2 * i, conns[i].conn, conns[i].timer);
    var entries' := entries[..1 + 2 * i] + entries[3 + 2 * i..];
    var conns', slots' := conns[..i] + conns[i + 1..], slots[..i] + slots[i + 1..];
    forall j | 0 <= j < |slots'|
      ensures conns'[j] == Connection(slots'[j].conn.fd, slots'[j].timer.fd)
      ensures entries'[1 + 2 * j] == slots'[j].conn && entries'[2 + 2 * j] == slots'[j].timer
    {
      var from := if j < i then j else j + 1;
      assert slots'[j] == slots[from];
    }
  }

  lemma DeletedDistinct(s: seq<PollFd>, k: nat)
    requires DistinctFds(s) && k < |s|
    ensures DistinctFds(Deleted(s, k))
  {
    forall i, j | 0 <= i < j < |s| - 1 ensures Deleted(s, k)[i].fd != Deleted(s, k)[j].fd {
      assert s[if i < k then i else i + 1].fd != s[if j < k then j else j + 1].fd;
    }
  }

  lemma RemovedAt(s: seq<PollFd>, k: nat)
    requires DistinctFds(s) && 0 < k < |s|
    ensures LastIndex(s, s[k].fd) > 0 && Removed(s, s[k].fd) == Deleted(s, k) && DistinctFds(Deleted(s, k))
  {
    SearchesAgree(s, k);
    DeletedDistinct(s, k);
  }

  lemma DeletedTwice(s: seq<PollFd>, k: nat)
    requires k + 1 < |s|
    ensures Deleted(s, k)[k] == s[k + 1]
    ensures Deleted(Deleted(s, k), k) == s[..k] + s[k + 2..]
  {
    assert Deleted(s, k)[..k] == s[..k];
    assert Deleted(s, k)[k + 1..] == s[k + 2..];
  }

  lemma DeleteTwo(entries: seq<PollFd>, k: nat, fd1: int, fd2: int)
    requires DistinctFds(entries) && 0 < k < |entries| - 1
    requires fd1 == entries[k].fd && fd2 == entries[k + 1].fd
    ensures LastIndex(entries, fd1) > 0 && LastIndex(Removed(entries, fd1), fd2) > 0
    ensures Removed(Removed(entries, fd1), fd2) == entries[..k] + entries[k + 2..]
    ensures DistinctFds(Removed(Removed(entries, fd1), fd2))
  {
    RemovedAt(entries, k);
    DeletedTwice(entries, k);
    RemovedAt(Deleted(entries, k), k);
  }

  lemma SettleSlot(entries: seq<PollFd>, conns: seq<Connection>, slots: seq<Slot>, i: nat)
    requires Agree(entries, conns, slots) && i < |slots|
    ensures Agree(entries[2 + 2 * i := slots[i].timer.(revents := NONE)], conns,
                  slots[i := slots[i].(timer := slots[i].timer.(revents := NONE))])
  {
    var entries' := entries[2 + 2 * i := slots[i].timer.(revents := NONE)];
    assert forall j :: 0 <= j < |entries| ==> entries'[j].fd == entries[j].fd;
  }

  lemma AppendSlot(entries: seq<PollFd>, conns: seq<Connection>, slots: seq<Slot>, s: Slot)
    requires Agree(entries, conns, slots)
    requires s.conn.fd !in FdSet(entries) && s.timer.fd !in FdSet(entries) && s.conn.fd != s.timer.fd
    ensures Agree(entries + [s.conn] + [s.timer], conns + [Connection(s.conn.fd, s.timer.fd)], slots + [s])
  {
    var e := entries + [s.conn] + [s.timer];
    forall i, j | 0 <= i < j < |e| ensures e[i].fd != e[j].fd {
      assert i < |entries| ==> entries[i].fd in FdSet(entries);
    }
  }

  // ---------------------------------------------------------------- snapshots

  /** The slots as poll leaves them; `revents` is its answer for the whole array. */
  function PolledSlots(slots: seq<Slot>, revents: seq<Bits>): (r: seq<Slot>)
    requires |revents| == 1 + 2 * |slots|
  {
    seq(|slots|, i requires 0 <= i < |slots| =>
      Slot(slots[i].conn.(revents := revents[1 + 2 * i]), slots[i].timer.(revents := revents[2 + 2 * i])))
  }

  function NewSlot(conn: int, timer: int): Slot {
    Slot(PollFd(conn, POLLIN, NONE), PollFd(timer, POLLIN, NONE))
  }

  /** The connections after a round: the filtered snapshot, and the accepted one. */
  function NextSlots(slots: seq<Slot>, revents: seq<Bits>, conn: int, timer: int, io: int -> Io): seq<Slot>
    requires |revents| == 1 + 2 * |slots|
  {
    var polled := PolledSlots(slots, revents);
    Swept(polled, |polled|, io) + if revents[0].pollin then [NewSlot(conn, timer)] else []
  }

  /** The calls of a round: those of the accept, and those of the sweep. */
  function RoundLog(listener: int, slots: seq<Slot>, revents: seq<Bits>, conn: int, timer: int, io: int -> Io): seq<Event>
    requires |revents| == 1 + 2 * |slots|
  {
    var polled := PolledSlots(slots, revents);
    (if revents[0].pollin then AcceptLog(listener, NewSlot(conn, timer)) else []) + SweepLog(polled, |polled|, io)
  }

  /** A round by its parts. */
  lemma RoundParts(listener: int, slots: seq<Slot>, revents: seq<Bits>, conn: int, timer: int, io: int -> Io)
    requires |revents| == 1 + 2 * |slots|
    ensures var polled, s := PolledSlots(slots, revents), NewSlot(conn, timer);
            && |polled| == |slots|
            && NextSlots(slots, revents, conn, timer, io) ==
               Swept(polled, |polled|, io) + (if revents[0].pollin then [s] else [])
            && RoundLog(listener, slots, revents, conn, timer, io) ==
               (if revents[0].pollin then AcceptLog(listener, s) else []) + SweepLog(polled, |polled|, io)
            && !HasEvent(s.conn.revents) && !HasEvent(s.timer.revents)
  {
    hide Swept, SweepLog;
  }

  lemma Regroup(log: seq<Event>, a: seq<Event>, b: seq<Event>)
    ensures log + a + b == log + (a + b) && log + [] == log
  {
  }

  lemma PollSlots(entries: seq<PollFd>, conns: seq<Connection>, slots: seq<Slot>, revents: seq<Bits>)
    requires Agree(entries, conns, slots) && |revents| == |entries|
    ensures Agree(Polled(entries, revents), conns, PolledSlots(slots, revents))
    ensures FdSet(Polled(entries, revents)) == FdSet(entries)
  {
    var e' := Polled(entries, revents);
    assert forall j :: 0 <= j < |entries| ==> e'[j].fd == entries[j].fd;
  }

  lemma FdSetAppend(s: seq<PollFd>, e: PollFd)
    ensures FdSet(s + [e]) == FdSet(s) + {e.fd}
  {
    forall fd | fd in FdSet(s) + {e.fd} ensures fd in FdSet(s + [e]) {
      var i := if fd == e.fd then |s| else var j :| 0 <= j < |s| && s[j].fd == fd; j;
      assert (s + [e])[i].fd == fd;
    }
  }

  lemma FdSetDelete(s: seq<PollFd>, k: nat)
    requires DistinctFds(s) && k < |s|
    ensures FdSet(Deleted(s, k)) == FdSet(s) - {s[k].fd}
  {
    var d := Deleted(s, k);
    forall fd | fd in FdSet(s) - {s[k].fd} ensures fd in FdSet(d) {
      var j :| 0 <= j < |s| && s[j].fd == fd;
      assert d[if j < k then j else j - 1].fd == fd;
    }
    forall j | 0 <= j < |d| ensures d[j].fd in FdSet(s) - {s[k].fd} {
      assert d[j] == s[if j < k then j else j + 1];
    }
  }

  lemma {:induction false} DistinctSize(s: seq<PollFd>)
    requires DistinctFds(s)
    ensures |FdSet(s)| == |s|
  {
    if s != [] {
      var front := s[..|s| - 1];
      DistinctSize(front);
      FdSetAppend(front, s[|s| - 1]);
      assert s == front + [s[|s| - 1]];
    }
  }

  function Below(limit: nat): set<int> { if limit == 0 then {} else Below(limit - 1) + {limit - 1} }

  lemma {:induction false} BelowSize(limit: nat, fd: int)
    ensures |Below(limit)| == limit && (fd in Below(limit) <==> 0 <= fd < limit)
  {
    if limit > 0 {
      BelowSize(limit - 1, fd);
      BelowSize(limit - 1, limit - 1);
    }
  }

  lemma SubsetSize(a: set<int>, b: set<int>)
    requires a <= b
    ensures |a| <= |b|
  {
    assert b == a + (b - a);
  }

  lemma EvenSize(size: int)
    requires Doubled16(size)
    ensures size % 2 == 0
  {
    var k: nat :| size == 16 * Pow2(k);
    hide Pow2;
    assert size == 2 * (8 * Pow2(k));
  }

  /** Distinct numbers below a bound are no more than the bound. */
  lemma Pigeonhole(s: seq<PollFd>, limit: nat)
    requires DistinctFds(s) && forall i :: 0 <= i < |s| ==> 0 <= s[i].fd < limit
    ensures |s| <= limit
  {
    DistinctSize(s);
    forall fd | fd in FdSet(s) ensures fd in Below(limit) {
      BelowSize(limit, fd);
    }
    BelowSize(limit, 0);
    SubsetSize(FdSet(s), Below(limit));
  }

  /** Descriptor numbers below this are distinct for so few entries that the array's byte size fits in 32 bits. */
  const DESCRIPTOR_LIMIT := 0x1000_0000

  predicate UsableFd(fd: int) { 0 <= fd < DESCRIPTOR_LIMIT - 1 }

  lemma LengthBelowLimit(s: seq<PollFd>)
    requires DistinctFds(s) && forall i :: 0 <= i < |s| ==> UsableFd(s[i].fd)
    ensures |s| < DESCRIPTOR_LIMIT
  {
    Pigeonhole(s, DESCRIPTOR_LIMIT - 1);
  }

  // ---------------------------------------------------------------- the whole state

  /** The kernel, the array and the queue all track the listener and the connections of `slots`. */
  ghost predicate Consistent(listener: int, entries: seq<PollFd>, conns: seq<Connection>, slots: seq<Slot>, log: seq<Event>) {
    && Agree(entries, conns, slots)
    && entries[0].fd == listener
    && (forall e :: e in entries ==> UsableFd(e.fd))
    && Replay({listener}, log) == Some(FdSet(entries))
  }

  lemma ReplayTwo(live: set<int>, log: seq<Event>, a: Event, b: Event)
    requires Replay(live, log).Some? && Apply(Replay(live, log).value, a).Some?
    ensures Replay(live, log + [a, b]) == Apply(Apply(Replay(live, log).value, a).value, b)
  {
    assert (log + [a, b])[..|log| + 1] == log + [a];
    assert (log + [a])[..|log|] == log;
  }

  lemma ConsistentStart(listener: int)
    requires UsableFd(listener)
    ensures Consistent(listener, [PollFd(listener, POLLIN, NONE)], [], [], [])
  {
    var e := PollFd(listener, POLLIN, NONE);
    FdSetAppend([], e);
    assert [] + [e] == [e];
    assert FdSet([]) == {};
    assert FdSet([e]) == {listener};
  }

  lemma ConsistentAccept(listener: int, entries: seq<PollFd>, conns: seq<Connection>, slots: seq<Slot>, log: seq<Event>, s: Slot)
    requires Consistent(listener, entries, conns, slots, log)
    requires s.conn.fd !in FdSet(entries) && s.timer.fd !in FdSet(entries) && s.conn.fd != s.timer.fd
    requires UsableFd(s.conn.fd) && UsableFd(s.timer.fd)
    ensures Consistent(listener, entries + [s.conn] + [s.timer], conns + [Connection(s.conn.fd, s.timer.fd)],
                       slots + [s], log + AcceptLog(listener, s))
    ensures |entries| + 2 < DESCRIPTOR_LIMIT
  {
    AppendSlot(entries, conns, slots, s);
    LengthBelowLimit(entries + [s.conn] + [s.timer]);
    FdSetAppend(entries, s.conn);
    FdSetAppend(entries + [s.conn], s.timer);
    InFdSet(entries, 0);
    hide FdSet, Agree, Replay;
    var used := log + [Use(listener)];
    ReplayAppend({listener}, log, Use(listener));
    ReplayAppend({listener}, used, Open(s.conn.fd));
    ReplayAppend({listener}, used + [Open(s.conn.fd)], Open(s.timer.fd));
    assert log + AcceptLog(listener, s) == used + [Open(s.conn.fd)] + [Open(s.timer.fd)];
  }

  lemma ConsistentPoll(listener: int, entries: seq<PollFd>, conns: seq<Connection>, slots: seq<Slot>, log: seq<Event>, revents: seq<Bits>)
    requires Consistent(listener, entries, conns, slots, log) && |revents| == |entries|
    ensures |entries| == 1 + 2 * |slots|
    ensures Consistent(listener, Polled(entries, revents), conns, PolledSlots(slots, revents), log)
  {
    PollSlots(entries, conns, slots, revents);
  }

  /** Handling slot i's event: the calls are on open descriptors, and the timer's event is cleared. */
  lemma ConsistentSettle(listener: int, entries: seq<PollFd>, conns: seq<Connection>, slots: seq<Slot>, log: seq<Event>, i: nat, io: Io)
    requires Consistent(listener, entries, conns, slots, log) && i < |slots| && HasEvent(slots[i].conn.revents)
    ensures 2 + 2 * i < |entries| && entries[2 + 2 * i] == slots[i].timer
    ensures i < |conns| && conns[i] == Connection(slots[i].conn.fd, slots[i].timer.fd)
    ensures Consistent(listener, entries[2 + 2 * i := slots[i].timer.(revents := NONE)], conns, slots[i := Settled(slots[i])],
                       log + UseLog(slots[i], io))
  {
    var live := FdSet(entries);
    InFdSet(entries, 1 + 2 * i);
    InFdSet(entries, 2 + 2 * i);
    SettleSlot(entries, conns, slots, i);
    var e' := entries[2 + 2 * i := slots[i].timer.(revents := NONE)];
    SameFds(entries, e');
    forall e | e in e' ensures UsableFd(e.fd) {
      var j :| 0 <= j < |e'| && e'[j] == e;
      assert entries[j].fd == e.fd && entries[j] in entries;
    }
    hide FdSet, Agree, Replay;
    ReplayConcat({listener}, log, UseLog(slots[i], io));
    ReplayUses(live, UseLog(slots[i], io));
  }

  lemma InFdSet(s: seq<PollFd>, i: int)
    requires 0 <= i < |s|
    ensures s[i].fd in FdSet(s)
  {
  }

  lemma SameFds(s: seq<PollFd>, t: seq<PollFd>)
    requires |s| == |t| && forall j :: 0 <= j < |s| ==> t[j].fd == s[j].fd
    ensures FdSet(t) == FdSet(s)
  {
  }

  lemma ConsistentDelete(listener: int, entries: seq<PollFd>, conns: seq<Connection>, slots: seq<Slot>, log: seq<Event>, i: nat)
    requires Consistent(listener, entries, conns, slots, log) && i < |slots|
    ensures i < |conns| && conns[i] == Connection(slots[i].conn.fd, slots[i].timer.fd)
    ensures LastIndex(entries, conns[i].conn) > 0
    ensures LastIndex(Removed(entries, conns[i].conn), conns[i].timer) > 0
    ensures Consistent(listener, Removed(Removed(entries, conns[i].conn), conns[i].timer),
                       conns[..i] + conns[i + 1..], slots[..i] + slots[i + 1..],
                       log + [Close(conns[i].conn), Close(conns[i].timer)])
  {
    FoundInPlace(entries, conns, slots, i);
    DeleteSlot(entries, conns, slots, i);
    RemovedTwice(entries, conns[i].conn, conns[i].timer);
    ReplayTwo({listener}, log, Close(conns[i].conn), Close(conns[i].timer));
  }

  lemma RemovedTwice(s: seq<PollFd>, fd1: int, fd2: int)
    requires DistinctFds(s) && LastIndex(s, fd1) > 0 && LastIndex(Removed(s, fd1), fd2) > 0
    ensures FdSet(Removed(Removed(s, fd1), fd2)) == FdSet(s) - {fd1} - {fd2}
    ensures fd1 in FdSet(s) && fd2 in FdSet(s) - {fd1}
    ensures forall e :: e in Removed(Removed(s, fd1), fd2) ==> e in s
  {
    RemovedFds(s, fd1);
    DeletedDistinct(s, LastIndex(s, fd1));
    RemovedFds(Removed(s, fd1), fd2);
  }

  lemma RemovedFds(s: seq<PollFd>, fd: int)
    requires DistinctFds(s) && LastIndex(s, fd) > 0
    ensures FdSet(Removed(s, fd)) == FdSet(s) - {fd} && fd in FdSet(s)
    ensures forall e :: e in Removed(s, fd) ==> e in s
  {
    FdSetDelete(s, LastIndex(s, fd));
  }

  // ---------------------------------------------------------------- the sweep step by step

  lemma SplitAt(slots: seq<Slot>, i: nat, s: Slot)
    requires i < |slots|
    ensures slots == slots[..i] + [slots[i]] + slots[i + 1..]
    ensures slots[i := s] == slots[..i] + [s] + slots[i + 1..]
    ensures slots[i := s][..i] == slots[..i] && slots[i := s][i + 1..] == slots[i + 1..]
  {
  }

  lemma SweepStart(slots: seq<Slot>, io: int -> Io)
    ensures Swept(slots, 0, io) == [] && SweepLog(slots, 0, io) == [] && Survived(slots, 0, io)
    ensures [] + slots[0..] == slots
  {
  }

  /** What judging one more connection adds to the filtered list and to the log. */
  lemma SweepStep(slots: seq<Slot>, k: nat, io: int -> Io)
    requires k <= |slots|
    ensures var done := Swept(slots, k, io);
            k < |slots| ==>
              var s := slots[k];
              && (done + slots[k..])[|done|] == s
              && (done + slots[k..])[..|done|] == done
              && (done + slots[k..])[|done| + 1..] == slots[k + 1..]
              && Swept(slots, k + 1, io) == done + (if Dropped(s, io(s.conn.fd)) then [] else [Settled(s)])
              && SweepLog(slots, k + 1, io) == SweepLog(slots, k, io) + SlotLog(s, io(s.conn.fd))
              && Survived(slots, k + 1, io) == (Survived(slots, k, io) && !Fatal(s, io(s.conn.fd)))
  {
  }

  lemma {:induction false} NotSurvived(slots: seq<Slot>, j: nat, k: nat, io: int -> Io)
    requires j <= k <= |slots| && !Survived(slots, j, io)
    ensures !Survived(slots, k, io)
  {
    if j < k {
      NotSurvived(slots, j, k - 1, io);
    }
  }

  /** A slot without events passes every sweep unchanged and unnoticed. */
  lemma {:induction false} NewSlotUntouched(slots: seq<Slot>, k: nat, s: Slot, io: int -> Io)
    requires !HasEvent(s.conn.revents) && !HasEvent(s.timer.revents) && k <= |slots|
    ensures Swept(slots + [s], k, io) == Swept(slots, k, io)
    ensures SweepLog(slots + [s], k, io) == SweepLog(slots, k, io)
    ensures Survived(slots + [s], k, io) == Survived(slots, k, io)
    ensures k == |slots| ==>
              && Swept(slots + [s], k + 1, io) == Swept(slots, k, io) + [s]
              && SweepLog(slots + [s], k + 1, io) == SweepLog(slots, k, io)
              && Survived(slots + [s], k + 1, io) == Survived(slots, k, io)
  {
    if k > 0 {
      NewSlotUntouched(slots, k - 1, s, io);
    }
  }

  // ---------------------------------------------------------------- the server

  class TimerServer {
    const listener: int
    const buf: FdBuffer
    var conns: seq<Connection>
    ghost var slots: seq<Slot>
    ghost var log: seq<Event>

    ghost predicate Valid()
      reads this, buf, buf.fds
      ensures Valid() ==> |conns| == |slots|
    {
      buf.Valid() && buf.peak < DESCRIPTOR_LIMIT && Consistent(listener, buf.Entries(), conns, slots, log)
    }

    constructor (socket: int)
      requires UsableFd(socket)
      ensures Valid() && fresh(buf) && fresh(buf.fds)
      ensures listener == socket && slots == [] && log == []
    {
      listener := socket;
      var b := new FdBuffer();
      var err := b.InsertFd(PollFd(socket, POLLIN, NONE), true);
      buf := b;
      conns := [];
      slots := [];
      log := [];
      new;
      assert buf.Entries() == [PollFd(socket, POLLIN, NONE)];
      ConsistentStart(socket);
    }

    /** Over every run: a descriptor has been opened once more than closed exactly while the array holds it. */
    lemma OpenedOnceMoreThanClosed(fd: int)
      requires Valid()
      ensures Bit(fd == listener) + Count(log, Open(fd)) == Count(log, Close(fd)) + Bit(fd in FdSet(buf.Entries()))
    {
      OpensBalanceCloses({listener}, log, fd);
    }

    /** No use after close, over every run: a number is touched again only after a new open of it. */
    lemma TouchedOnlyAfterReopen(i: nat, k: nat, fd: int)
      requires Valid() && i < k < |log| && log[i] == Close(fd) && log[k] in {Use(fd), Close(fd)}
      ensures exists j :: i < j < k && log[j] == Open(fd)
    {
      Descriptors.TouchedOnlyAfterReopen({listener}, log, i, k, fd);
    }

    /**
     The two insertions.  Only the result of the first is checked by an assert; that of the second is not
     looked at, and does not need to be: the length is odd before the first, so the second finds room.
     */
    method InsertPair(c: PollFd, t: PollFd, memory: Memory) returns (ok: bool)
      requires buf.Valid() && buf.len % 2 == 1 && buf.size % 2 == 0
      requires buf.len == buf.size - 1 ==> buf.size < MAX_SIZE
      modifies buf, buf.fds
      ensures ok == (memory.first || old(buf.len) != old(buf.size) - 1)
      ensures ok ==>
                && buf.Valid() && (buf.fds == old(buf.fds) || fresh(buf.fds))
                && buf.Entries() == old(buf.Entries()) + [c] + [t]
                && buf.len == old(buf.len) + 2 && buf.peak == Max(old(buf.peak), buf.len)
    {
      ghost var len0 := buf.len;
      hide Doubled16;
      var err := buf.InsertFd(c, memory.first);
      if err != 0 {
        return false;
      }
      assert buf.len == len0 + 1;
      var unchecked := buf.InsertFd(t, memory.second);
      assert unchecked == 0;
      ok := true;
    }

    /**
     The accept branch; accept and timerfd_create have returned conn and timer.  The first
     insertion and the queue node are checked by asserts, which end the process (`ok` is false).
     */
    method AcceptConnection(conn: int, timer: int, memory: Memory) returns (ok: bool)
      requires Valid() && UsableFd(conn) && UsableFd(timer) && conn != timer
      requires conn !in FdSet(buf.Entries()) && timer !in FdSet(buf.Entries())
      modifies this, buf, buf.fds
      ensures ok == (memory.node && (memory.first || old(buf.len) != old(buf.size) - 1))
      ensures ok ==>
                && Valid() && (buf.fds == old(buf.fds) || fresh(buf.fds))
                && slots == old(slots) + [NewSlot(conn, timer)]
                && NewSlot(conn, timer).conn == PollFd(conn, Bits(true, false, false), Bits(false, false, false))
                && NewSlot(conn, timer).timer == PollFd(timer, Bits(true, false, false), Bits(false, false, false))
                && log == old(log) + AcceptLog(listener, NewSlot(conn, timer))
    {
      var c, t := PollFd(conn, POLLIN, NONE), PollFd(timer, POLLIN, NONE);
      ConsistentAccept(listener, buf.Entries(), conns, slots, log, Slot(c, t));
      OddLength();
      EvenSize(buf.size);
      SizeBelow();
      hide Consistent, FdSet, FdBuffer.Valid, FdBuffer.Entries, UsableFd, Agree;
      log := log + [Use(listener)]; // accept
      log := log + [Open(conn)];
      log := log + [Open(timer)]; // timerfd_create
      assert log == old(log) + AcceptLog(listener, Slot(c, t));
      ok := InsertPair(c, t, memory);
      if !ok || !memory.node {
        return false;
      }
      conns := conns + [Connection(conn, timer)];
      slots := slots + [Slot(c, t)];
    }

    /** The capacity stays where doubling does not overflow and the byte size does not wrap. */
    lemma SizeBelow()
      requires Valid()
      ensures buf.size < 0x2000_0000
    {
    }

    /** At a round boundary the array holds an odd number of entries. */
    lemma OddLength()
      requires Valid()
      ensures buf.len == 1 + 2 * |slots|
    {
    }

    /** recv, and send if "ping" came; then the timer is refreshed.  `ok` is false when main returns. */
    method HandleEvent(i: nat, timerfd: int, result: Io) returns (ok: bool, hangup: bool)
      requires Valid() && i < |slots| && HasEvent(slots[i].conn.revents)
      requires timerfd == 2 + 2 * i
      modifies this, buf.fds
      ensures ok == !Fatal(old(slots[i]), result)
      ensures ok ==>
                && Valid()
                && timerfd < buf.len && buf.fds[timerfd].revents == NONE
                && hangup == Dropped(old(slots[i]), result)
                && slots == old(slots)[i := Settled(old(slots[i]))]
                && log == old(log) + UseLog(old(slots[i]), result)
                && UseLog(old(slots[i]), result) ==
                   [Use(old(slots[i].conn.fd))]
                   + (if result.received > 0 && result.ping then [Use(old(slots[i].conn.fd))] else [])
                   + [Use(old(slots[i].timer.fd))]
    {
      hide Consistent, Agree, FdBuffer.Valid, FdBuffer.Entries;
      ConsistentSettle(listener, buf.Entries(), conns, slots, log, i, result);
      ghost var log0 := log;
      hangup := false;
      log := log + [Use(conns[i].conn)]; // recv
      if result.received < 0 {
        return false, false;
      } else if result.received == 0 {
        hangup := true;
      } else if result.ping {
        log := log + [Use(conns[i].conn)]; // send
        if result.sent < 0 {
          return false, false;
        } else if result.sent == 0 {
          hangup := true;
        }
      }
      log := log + [Use(conns[i].timer)]; // timerfd_settime
      buf.ClearRevents(timerfd);
      assert log == log0 + UseLog(slots[i], result);
      slots := slots[i := Settled(slots[i])];
      ok := true;
    }

    /** Both descriptors are closed and leave the array; the connection leaves the queue. */
    method Discard(i: nat)
      requires Valid() && i < |slots|
      modifies this, buf, buf.fds
      ensures Valid() && buf.fds == old(buf.fds)
      ensures slots == old(slots[..i]) + old(slots[i + 1..])
      ensures log == old(log) + [Close(old(slots[i].conn.fd)), Close(old(slots[i].timer.fd))]
    {
      hide Consistent, Agree, FdBuffer.Valid, FdBuffer.Entries, LastIndex, Removed;
      SizeBelow();
      ConsistentDelete(listener, buf.Entries(), conns, slots, log, i);
      var conn := conns[i];
      var closedConn, shrunk := buf.RemoveFd(conn.conn);
      if closedConn {
        log := log + [Close(conn.conn)];
      }
      var closedTimer, shrunkAgain := buf.RemoveFd(conn.timer);
      if closedTimer {
        log := log + [Close(conn.timer)];
      }
      assert !shrunk && !shrunkAgain && log == old(log) + [Close(conn.conn), Close(conn.timer)];
      conns := conns[..i] + conns[i + 1..];
      slots := slots[..i] + slots[i + 1..];
    }

    /** The two lookups, with the asserts that neither is a null pointer. */
    method Locate(i: nat) returns (connfd: int, timerfd: int)
      requires Valid() && i < |slots|
      ensures connfd == 1 + 2 * i && timerfd == 2 + 2 * i && timerfd < buf.len
      ensures buf.fds[connfd] == slots[i].conn && buf.fds[timerfd] == slots[i].timer
      ensures |conns| == |slots| && conns[i].conn == slots[i].conn.fd
    {
      FoundInPlace(buf.Entries(), conns, slots, i);
      connfd := buf.FindFd(conns[i].conn);
      timerfd := buf.FindFd(conns[i].timer);
      assert connfd != -1;
      assert timerfd != -1;
    }

    /** The sweep's body for the connection at position i; `ok` is false when main returns. */
    method Judge(i: nat, io: int -> Io) returns (ok: bool, deleted: bool)
      requires Valid() && i < |slots|
      modifies this, buf, buf.fds
      ensures buf.fds == old(buf.fds)
      ensures var r, c := io(old(slots[i].conn.fd)), old(slots[i].conn.revents);
              ok == !((c.pollhup || c.pollin || c.pollerr) && (r.received < 0 || (r.received > 0 && r.ping && r.sent < 0)))
      ensures var r, c, t := io(old(slots[i].conn.fd)), old(slots[i].conn.revents), old(slots[i].timer.revents);
              ok ==> (deleted <==> if c.pollhup || c.pollin || c.pollerr
                                   then r.received == 0 || (r.received > 0 && r.ping && r.sent == 0)
                                   else t.pollhup || t.pollin || t.pollerr)
      ensures ok == !Fatal(old(slots[i]), io(old(slots[i].conn.fd)))
      ensures ok ==>
                && Valid()
                && deleted == Dropped(old(slots[i]), io(old(slots[i].conn.fd)))
                && slots == old(slots[..i]) + (if deleted then [] else [Settled(old(slots[i]))]) + old(slots[i + 1..])
                && log == old(log) + SlotLog(old(slots[i]), io(old(slots[i].conn.fd)))
    {
      ghost var s := slots[i];
      hide Consistent, Agree, FdSet, FdBuffer.Valid, FdBuffer.Entries, UseLog, Valid;
      SplitAt(slots, i, Settled(s));
      deleted := false;
      ok := true;
      var connfd, timerfd := Locate(i);
      if HasEvent(buf.fds[connfd].revents) {
        ok, deleted := HandleEvent(i, timerfd, io(conns[i].conn));
        if !ok {
          return;
        }
      }
      if HasEvent(buf.fds[timerfd].revents) {
        deleted := true;
      }
      if deleted {
        Discard(i);
      }
    }

    /** The sweep over the queue, deleting while it iterates. */
    method Sweep(io: int -> Io) returns (ok: bool)
      requires Valid()
      modifies this, buf, buf.fds
      ensures buf.fds == old(buf.fds)
      ensures ok == Survived(old(slots), |old(slots)|, io)
      ensures ok ==>
                && Valid()
                && slots == Swept(old(slots), |old(slots)|, io)
                && log == old(log) + SweepLog(old(slots), |old(slots)|, io)
    {
      hide *;
      ghost var was := slots;
      ghost var k := 0; // connections judged so far
      var i := 0;
      SweepStart(was, io);
      while i < |conns|
        invariant Valid() && buf.fds == old(buf.fds)
        invariant 0 <= k <= |was| && i == |Swept(was, k, io)|
        invariant slots == Swept(was, k, io) + was[k..]
        invariant log == old(log) + SweepLog(was, k, io)
        invariant Survived(was, k, io)
        decreases |was| - k
      {
        SweepStep(was, k, io);
        ghost var before := log;
        var fine, deleted := Judge(i, io);
        if !fine {
          NotSurvived(was, k + 1, |was|, io);
          return false;
        }
        if !deleted {
          i := i + 1;
        }
        k := k + 1;
        assert log == before + SlotLog(was[k - 1], io(was[k - 1].conn.fd));
      }
      return true;
    }

    /** poll overwrites the revents of every entry of the array. */
    method Poll(revents: seq<Bits>)
      requires Valid() && |revents| == buf.len
      modifies this`slots, buf.fds
      ensures |revents| == 1 + 2 * |old(slots)|
      ensures Valid() && slots == PolledSlots(old(slots), revents) && buf.fds[0].revents == revents[0]
      ensures FdSet(buf.Entries()) == old(FdSet(buf.Entries()))
    {
      ConsistentPoll(listener, buf.Entries(), conns, slots, log, revents);
      PollSlots(buf.Entries(), conns, slots, revents);
      hide Consistent, Agree, FdSet, PolledSlots;
      ghost var before := buf.Entries();
      buf.Poll(revents);
      slots := PolledSlots(slots, revents);
      assert buf.Entries()[0] == before[0].(revents := revents[0]);
    }

    /**
     One event-loop round: poll answers `revents`, at most one connection is
     accepted, and the queue is swept.  A connection just accepted is not judged.
     `ok` is false when an assert fails or main returns.
     */
    method Round(revents: seq<Bits>, conn: int, timer: int, memory: Memory, io: int -> Io) returns (ok: bool)
      requires Valid() && |revents| == buf.len
      requires revents[0].pollin ==>
                 && UsableFd(conn) && UsableFd(timer) && conn != timer
                 && conn !in FdSet(buf.Entries()) && timer !in FdSet(buf.Entries())
      modifies this, buf, buf.fds
      ensures |revents| == 1 + 2 * |old(slots)|
      ensures var polled := PolledSlots(old(slots), revents);
              && ok == ((revents[0].pollin ==> memory.node && (memory.first || old(buf.len) != old(buf.size) - 1))
                        && Survived(polled, |polled|, io))
              && (ok ==>
                    && Valid()
                    && slots == NextSlots(old(slots), revents, conn, timer, io)
                    && log == old(log) + RoundLog(listener, old(slots), revents, conn, timer, io))
    {
      OddLength();
      RoundParts(listener, slots, revents, conn, timer, io);
      hide *;
      ghost var before := log;
      Poll(revents);
      ghost var polled := slots;
      if buf.fds[0].revents.pollin {
        ok := AcceptConnection(conn, timer, memory);
        if !ok {
          return false;
        }
        NewSlotUntouched(polled, |polled|, NewSlot(conn, timer), io);
      }
      Regroup(before, if revents[0].pollin then AcceptLog(listener, NewSlot(conn, timer)) else [],
              SweepLog(polled, |polled|, io));
      ok := Sweep(io);
    }
  }
}
