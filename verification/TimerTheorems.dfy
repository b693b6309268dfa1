/** What the sweep does to each connection, and the inactivity guarantee in a timed model. */
module TimerTheorems {
  import opened Wrappers
  import opened Descriptors
  import opened FdBuffers
  import opened TimerServers

  /** All the descriptors of the slots differ, as those of an agreeing array do. */
  predicate DistinctSlots(slots: seq<Slot>) {
    && (forall i :: 0 <= i < |slots| ==> slots[i].conn.fd != slots[i].timer.fd)
    && forall i, j :: 0 <= i < |slots| && 0 <= j < |slots| && i != j ==>
                        && slots[i].conn.fd != slots[j].conn.fd && slots[i].timer.fd != slots[j].timer.fd
                        && slots[i].conn.fd != slots[j].timer.fd
  }

  lemma AgreeingSlotsDistinct(entries: seq<PollFd>, conns: seq<Connection>, slots: seq<Slot>)
    requires Agree(entries, conns, slots)
    ensures DistinctSlots(slots)
  {
    forall i, j | 0 <= i < |slots| && 0 <= j < |slots|
      ensures slots[i].conn.fd != slots[j].timer.fd
      ensures i != j ==> slots[i].conn.fd != slots[j].conn.fd && slots[i].timer.fd != slots[j].timer.fd
    {
      assert entries[1 + 2 * i] == slots[i].conn && entries[2 + 2 * i] == slots[i].timer;
      assert entries[1 + 2 * j] == slots[j].conn && entries[2 + 2 * j] == slots[j].timer;
    }
  }

  // ---------------------------------------------------------------- the sweep is a filter

  lemma {:induction false} SweptPrefix(slots: seq<Slot>, j: nat, k: nat, io: int -> Io)
    requires j <= k <= |slots|
    ensures Swept(slots, j, io) <= Swept(slots, k, io)
  {
    if j < k {
      SweptPrefix(slots, j, k - 1, io);
    }
  }

  /** A connection that is not dropped survives, in the order of the queue: after the survivors before it. */
  lemma SurvivorKeepsItsPlace(slots: seq<Slot>, i: nat, io: int -> Io)
    requires i < |slots| && !Dropped(slots[i], io(slots[i].conn.fd))
    ensures var rank := |Swept(slots, i, io)|;
            rank < |Swept(slots, |slots|, io)| && Swept(slots, |slots|, io)[rank] == Settled(slots[i])
  {
    SweptPrefix(slots, i + 1, |slots|, io);
  }

  /** And every survivor is one of those. */
  lemma {:induction false} SurvivorWasKept(slots: seq<Slot>, k: nat, r: nat, io: int -> Io) returns (i: nat)
    requires k <= |slots| && r < |Swept(slots, k, io)|
    ensures i < k && !Dropped(slots[i], io(slots[i].conn.fd))
    ensures r == |Swept(slots, i, io)| && Swept(slots, k, io)[r] == Settled(slots[i])
  {
    if r < |Swept(slots, k - 1, io)| {
      i := SurvivorWasKept(slots, k - 1, r, io);
    } else {
      i := k - 1;
    }
  }

  /** The events of slot i's descriptors in the log of a sweep are those of its own judgement. */
  lemma {:induction false} SweepLogCount(slots: seq<Slot>, k: nat, i: nat, e: Event, io: int -> Io)
    requires DistinctSlots(slots) && i < |slots| && k <= |slots|
    requires e.fd in {slots[i].conn.fd, slots[i].timer.fd}
    ensures Count(SweepLog(slots, k, io), e) == if i < k then Count(SlotLog(slots[i], io(slots[i].conn.fd)), e) else 0
  {
    hide SlotLog, Replay, Apply;
    if k > 0 {
      var s := slots[k - 1];
      SweepLogCount(slots, k - 1, i, e, io);
      CountConcat(SweepLog(slots, k - 1, io), SlotLog(s, io(s.conn.fd)), e);
      if i != k - 1 {
        SlotLogFds(s, io(s.conn.fd));
        CountNone(SlotLog(s, io(s.conn.fd)), e);
      }
    }
  }

  lemma SlotLogFds(s: Slot, io: Io)
    ensures forall j :: 0 <= j < |SlotLog(s, io)| ==> SlotLog(s, io)[j].fd == s.conn.fd || SlotLog(s, io)[j].fd == s.timer.fd
  {
  }

  lemma SlotLogCount(s: Slot, io: Io)
    requires s.conn.fd != s.timer.fd
    ensures Count(SlotLog(s, io), Close(s.conn.fd)) == Bit(Dropped(s, io))
    ensures Count(SlotLog(s, io), Close(s.timer.fd)) == Bit(Dropped(s, io))
    ensures Count(SlotLog(s, io), Use(s.conn.fd)) == if HasEvent(s.conn.revents) then 1 + Bit(Sends(io)) else 0
    ensures Count(SlotLog(s, io), Use(s.timer.fd)) == Bit(HasEvent(s.conn.revents))
  {
    hide Replay, Apply;
    var uses := if HasEvent(s.conn.revents) then UseLog(s, io) else [];
    var closes := if Dropped(s, io) then [Close(s.conn.fd), Close(s.timer.fd)] else [];
    assert SlotLog(s, io) == uses + closes;
    UsesCount(s, io);
    ClosesCount(s);
    forall e: Event ensures Count(SlotLog(s, io), e) == Count(uses, e) + Count(closes, e) {
      CountConcat(uses, closes, e);
    }
  }

  lemma UsesCount(s: Slot, io: Io)
    requires s.conn.fd != s.timer.fd
    ensures Count(UseLog(s, io), Use(s.conn.fd)) == 1 + Bit(Sends(io))
    ensures Count(UseLog(s, io), Use(s.timer.fd)) == 1
    ensures forall fd :: Count(UseLog(s, io), Close(fd)) == 0
  {
    hide Count, UseLog, Sends;
    UseLogCount(s, io, Use(s.conn.fd));
    UseLogCount(s, io, Use(s.timer.fd));
    forall fd ensures Count(UseLog(s, io), Close(fd)) == 0 {
      UseLogCount(s, io, Close(fd));
    }
  }

  lemma UseLogCount(s: Slot, io: Io, e: Event)
    ensures Count(UseLog(s, io), e) ==
            Bit(e == Use(s.conn.fd)) + (if Sends(io) then Bit(e == Use(s.conn.fd)) else 0) + Bit(e == Use(s.timer.fd))
  {
    var c, t := Use(s.conn.fd), Use(s.timer.fd);
    var calls := [c] + if Sends(io) then [c] else [];
    assert [] + [c] == [c] && [c] + [] == [c];
    assert UseLog(s, io) == calls + [t];
    CountAppend(calls, t, e);
    CountAppend([c], c, e);
    CountAppend([], c, e);
  }

  lemma ClosesCount(s: Slot)
    requires s.conn.fd != s.timer.fd
    ensures Count([Close(s.conn.fd), Close(s.timer.fd)], Close(s.conn.fd)) == 1
    ensures Count([Close(s.conn.fd), Close(s.timer.fd)], Close(s.timer.fd)) == 1
    ensures forall fd :: Count([Close(s.conn.fd), Close(s.timer.fd)], Use(fd)) == 0
  {
    var c, t := Close(s.conn.fd), Close(s.timer.fd);
    forall e: Event ensures Count([c, t], e) == Bit(e == c) + Bit(e == t) {
      CountAppend([], c, e);
      assert [] + [c] == [c];
      CountAppend([c], t, e);
      assert [c] + [t] == [c, t];
    }
  }

  predicate Reported(b: Bits) { b.pollin || b.pollerr || b.pollhup }

  /**
   Each connection is judged once, on the revents that poll stored for it: it is received
   from exactly when its own entry has an event, and it is closed exactly when dropped,
   although earlier deletions have moved its entries.
   */
  lemma JudgedOnceOnItsOwnSnapshot(entries: seq<PollFd>, conns: seq<Connection>, slots: seq<Slot>, i: nat, io: int -> Io)
    requires Agree(entries, conns, slots) && i < |slots|
    ensures var log, s, r := SweepLog(slots, |slots|, io), slots[i], io(slots[i].conn.fd);
            && Count(log, Use(s.conn.fd)) == (if Reported(entries[1 + 2 * i].revents) then 1 + Bit(r.received > 0 && r.ping) else 0)
            && Count(log, Use(s.timer.fd)) == Bit(Reported(entries[1 + 2 * i].revents))
            && Count(log, Close(s.conn.fd)) == Count(log, Close(s.timer.fd)) ==
               Bit(if Reported(entries[1 + 2 * i].revents) then r.received == 0 || (r.received > 0 && r.ping && r.sent == 0)
                   else Reported(entries[2 + 2 * i].revents))
  {
    hide SlotLog, SweepLog, Count;
    AgreeingSlotsDistinct(entries, conns, slots);
    var s := slots[i];
    SweepLogCount(slots, |slots|, i, Use(s.conn.fd), io);
    SweepLogCount(slots, |slots|, i, Use(s.timer.fd), io);
    SweepLogCount(slots, |slots|, i, Close(s.conn.fd), io);
    SweepLogCount(slots, |slots|, i, Close(s.timer.fd), io);
    SlotLogCount(s, io(s.conn.fd));
  }

  lemma {:induction false} SweepOpensNothing(slots: seq<Slot>, k: nat, io: int -> Io, fd: int)
    requires k <= |slots|
    ensures Count(SweepLog(slots, k, io), Open(fd)) == 0
  {
    hide Count;
    if k > 0 {
      var s := slots[k - 1];
      SweepOpensNothing(slots, k - 1, io, fd);
      CountConcat(SweepLog(slots, k - 1, io), SlotLog(s, io(s.conn.fd)), Open(fd));
      CountNone(SlotLog(s, io(s.conn.fd)), Open(fd));
    } else {
      CountNone(SweepLog(slots, 0, io), Open(fd));
    }
  }

  /** A round accepts one connection, and creates its timer, exactly if POLLIN is reported for the listener. */
  lemma AcceptsExactlyOnPollin(listener: int, slots: seq<Slot>, revents: seq<Bits>, conn: int, timer: int, io: int -> Io)
    requires |revents| == 1 + 2 * |slots| && conn != timer
    ensures var log, polled := RoundLog(listener, slots, revents, conn, timer, io), PolledSlots(slots, revents);
            && Count(log, Open(conn)) == Count(log, Open(timer)) == Bit(revents[0].pollin)
            && |NextSlots(slots, revents, conn, timer, io)| == |Swept(polled, |polled|, io)| + Bit(revents[0].pollin)
  {
    var polled, accept := PolledSlots(slots, revents), AcceptLog(listener, NewSlot(conn, timer));
    forall fd ensures Count(accept, Open(fd)) == Bit(fd == conn) + Bit(fd == timer) {
      AcceptCount(listener, conn, timer, Open(fd));
    }
    hide Count, SweepLog, Swept, AcceptLog;
    forall fd ensures Count(RoundLog(listener, slots, revents, conn, timer, io), Open(fd)) ==
                      if revents[0].pollin then Count(accept, Open(fd)) else 0 {
      SweepOpensNothing(polled, |polled|, io, fd);
      CountConcat(if revents[0].pollin then accept else [], SweepLog(polled, |polled|, io), Open(fd));
      CountNone([], Open(fd));
    }
  }

  lemma AcceptCount(listener: int, conn: int, timer: int, e: Event)
    ensures Count(AcceptLog(listener, NewSlot(conn, timer)), e) ==
            Bit(e == Use(listener)) + Bit(e == Open(conn)) + Bit(e == Open(timer))
  {
    hide Count;
    var calls := [Use(listener)] + [Open(conn)];
    assert AcceptLog(listener, NewSlot(conn, timer)) == calls + [Open(timer)];
    assert [] + [Use(listener)] == [Use(listener)];
    CountAppend([], Use(listener), e);
    CountAppend([Use(listener)], Open(conn), e);
    CountAppend(calls, Open(timer), e);
    CountNone([], e);
  }

  // ---------------------------------------------------------------- time

  const TIMEOUT := 3

  /** A connection and the time of its accept or last handled event. */
  datatype Timed = Timed(c: Connection, lastActive: int)

  /** An event of the server's log and when it happened. */
  datatype Stamped = Stamped(e: Event, at: int)

  datatype World = World(ts: seq<Timed>, log: seq<Stamped>)

  /**
   One round: poll returns at `polled`; `ready` is what it reports for a connection's
   socket; events are handled, and perhaps a connection accepted, at `handled`.
   */
  datatype TimedRound = TimedRound(polled: int, handled: int, ready: int -> Bits, io: int -> Io, accepted: Option<Connection>)

  function Stamp(log: seq<Event>, at: int): seq<Stamped> {
    seq(|log|, i requires 0 <= i < |log| => Stamped(log[i], at))
  }

  /** When the log last created or set a timer. */
  function ArmedAt(log: seq<Stamped>, timer: int): Option<int> {
    if log == [] then None
    else
      var last := log[|log| - 1];
      if last.e == Open(timer) || last.e == Use(timer) then Some(last.at) else ArmedAt(log[..|log| - 1], timer)
  }

  /** A one-shot timer that nobody reads is reported exactly from TIMEOUT after its arming on. */
  function TimerBits(log: seq<Stamped>, timer: int, polled: int): Bits {
    var armed := ArmedAt(log, timer);
    if armed.Some? && polled >= armed.value + TIMEOUT then POLLIN else NONE
  }

  function TimedSlot(log: seq<Stamped>, t: Timed, r: TimedRound): Slot {
    Slot(PollFd(t.c.conn, POLLIN, r.ready(t.c.conn)), PollFd(t.c.timer, POLLIN, TimerBits(log, t.c.timer, r.polled)))
  }

  function TimedSlots(w: World, r: TimedRound): (slots: seq<Slot>)
    ensures |slots| == |w.ts|
  {
    seq(|w.ts|, i requires 0 <= i < |w.ts| => TimedSlot(w.log, w.ts[i], r))
  }

  predicate Dropping(w: World, t: Timed, r: TimedRound) { Dropped(TimedSlot(w.log, t, r), r.io(t.c.conn)) }

  /** A connection after a sweep that keeps it: a handled event is an activity. */
  function Kept(t: Timed, r: TimedRound): Timed { if Reported(r.ready(t.c.conn)) then t.(lastActive := r.handled) else t }

  function TimedSweep(w: World, k: nat, r: TimedRound): seq<Timed>
    requires k <= |w.ts|
  {
    if k == 0 then [] else
    TimedSweep(w, k - 1, r) + if Dropping(w, w.ts[k - 1], r) then [] else [Kept(w.ts[k - 1], r)]
  }

  function NextTimed(w: World, r: TimedRound): seq<Timed> {
    TimedSweep(w, |w.ts|, r) + if r.accepted.Some? then [Timed(r.accepted.value, r.handled)] else []
  }

  function AcceptCalls(listener: int, r: TimedRound): seq<Event> {
    if r.accepted.Some? then AcceptLog(listener, NewSlot(r.accepted.value.conn, r.accepted.value.timer)) else []
  }

  /** The calls of a round, as the server makes them. */
  function TimedLog(listener: int, w: World, r: TimedRound): seq<Event> {
    AcceptCalls(listener, r) + SweepLog(TimedSlots(w, r), |w.ts|, r.io)
  }

  function NextWorld(listener: int, w: World, r: TimedRound): World {
    World(NextTimed(w, r), w.log + Stamp(TimedLog(listener, w, r), r.handled))
  }

  /** The tracked connections and the log after a run of the server from its start. */
  function RunWorld(listener: int, rounds: seq<TimedRound>): World {
    if rounds == [] then World([], [])
    else NextWorld(listener, RunWorld(listener, rounds[..|rounds| - 1]), rounds[|rounds| - 1])
  }

  // ---------------------------------------------------------------- the same run of the server

  /** A slot of the server that holds the connection of a timed one. */
  predicate Holds(s: Slot, t: Timed) {
    s.conn.fd == t.c.conn && s.conn.events == POLLIN && s.timer.fd == t.c.timer && s.timer.events == POLLIN
  }

  predicate SameConnections(slots: seq<Slot>, ts: seq<Timed>) {
    |slots| == |ts| && forall i :: 0 <= i < |ts| ==> Holds(slots[i], ts[i])
  }

  lemma {:induction false} TimedSweepRefinesSweep(w: World, k: nat, r: TimedRound)
    requires k <= |w.ts|
    ensures SameConnections(Swept(TimedSlots(w, r), k, r.io), TimedSweep(w, k, r))
  {
    if k > 0 {
      TimedSweepRefinesSweep(w, k - 1, r);
    }
  }

  function PairBits(slots: seq<Slot>, log: seq<Stamped>, r: TimedRound): (b: seq<Bits>)
    ensures |b| == 2 * |slots|
  {
    if slots == [] then []
    else
      var s := slots[|slots| - 1];
      PairBits(slots[..|slots| - 1], log, r) + [r.ready(s.conn.fd), TimerBits(log, s.timer.fd, r.polled)]
  }

  /** What poll answers for the whole array: listener, and socket and timer of each connection. */
  function Answer(slots: seq<Slot>, log: seq<Stamped>, r: TimedRound): (b: seq<Bits>)
    ensures |b| == 1 + 2 * |slots|
  {
    [if r.accepted.Some? then POLLIN else NONE] + PairBits(slots, log, r)
  }

  lemma {:induction false} PairBitsAt(slots: seq<Slot>, log: seq<Stamped>, r: TimedRound, i: nat)
    requires i < |slots|
    ensures PairBits(slots, log, r)[2 * i] == r.ready(slots[i].conn.fd)
    ensures PairBits(slots, log, r)[2 * i + 1] == TimerBits(log, slots[i].timer.fd, r.polled)
  {
    if i < |slots| - 1 {
      PairBitsAt(slots[..|slots| - 1], log, r, i);
    }
  }

  /** Polling the server's slots with that answer gives the timed slots. */
  lemma AnswerIsPolled(slots: seq<Slot>, w: World, r: TimedRound)
    requires SameConnections(slots, w.ts)
    ensures PolledSlots(slots, Answer(slots, w.log, r)) == TimedSlots(w, r)
  {
    var polled := PolledSlots(slots, Answer(slots, w.log, r));
    forall i | 0 <= i < |w.ts| ensures polled[i] == TimedSlot(w.log, w.ts[i], r) {
      PairBitsAt(slots, w.log, r, i);
      assert Holds(slots[i], w.ts[i]);
    }
  }

  datatype ServerRun = ServerRun(slots: seq<Slot>, log: seq<Stamped>)

  /**
   A round of the server, as TimerServer.Round specifies it where memory is found, with poll's answer
   computed from its own slots and log; None if recv or send makes main return.
   */
  function NextRun(listener: int, before: ServerRun, r: TimedRound): Option<ServerRun> {
    var answer, c := Answer(before.slots, before.log, r), if r.accepted.Some? then r.accepted.value else Connection(-1, -1);
    var polled := PolledSlots(before.slots, answer);
    if !Survived(polled, |polled|, r.io) then None
    else
      Some(ServerRun(NextSlots(before.slots, answer, c.conn, c.timer, r.io),
                     before.log + Stamp(RoundLog(listener, before.slots, answer, c.conn, c.timer, r.io), r.handled)))
  }

  function RunServer(listener: int, rounds: seq<TimedRound>): Option<ServerRun> {
    if rounds == [] then Some(ServerRun([], []))
    else
      match RunServer(listener, rounds[..|rounds| - 1])
      case None => None
      case Some(before) => NextRun(listener, before, rounds[|rounds| - 1])
  }

  /** No recv or send of the run reports an error. */
  predicate Survives(listener: int, rounds: seq<TimedRound>) {
    rounds == [] ||
    var w, r := RunWorld(listener, rounds[..|rounds| - 1]), rounds[|rounds| - 1];
    Survives(listener, rounds[..|rounds| - 1]) && Survived(TimedSlots(w, r), |w.ts|, r.io)
  }

  lemma NextRefines(listener: int, before: ServerRun, w: World, r: TimedRound)
    requires SameConnections(before.slots, w.ts) && before.log == w.log
    ensures var next := NextRun(listener, before, r);
            && (next.Some? <==> Survived(TimedSlots(w, r), |w.ts|, r.io))
            && (next.Some? ==>
                  && SameConnections(next.value.slots, NextWorld(listener, w, r).ts)
                  && next.value.log == NextWorld(listener, w, r).log)
  {
    AnswerIsPolled(before.slots, w, r);
    TimedSweepRefinesSweep(w, |w.ts|, r);
    hide SweepLog, Swept, Survived, Stamp, PolledSlots, TimedSlots, TimedSweep, PairBits, Answer;
  }

  /**
   The server gets through the run if and only if no recv or send reports an error, and then the timed
   run tracks exactly its connections, in the same order, and makes the same calls at the same times.
   */
  lemma {:induction false} TimedRunRefinesServer(listener: int, rounds: seq<TimedRound>)
    ensures RunServer(listener, rounds).Some? <==> Survives(listener, rounds)
    ensures RunServer(listener, rounds).Some? ==>
              && SameConnections(RunServer(listener, rounds).value.slots, RunWorld(listener, rounds).ts)
              && RunWorld(listener, rounds).log == RunServer(listener, rounds).value.log
  {
    hide NextRun, NextWorld, SameConnections, Survived, TimedSlots;
    if rounds != [] {
      var front, r := rounds[..|rounds| - 1], rounds[|rounds| - 1];
      TimedRunRefinesServer(listener, front);
      if RunServer(listener, front).Some? {
        NextRefines(listener, RunServer(listener, front).value, RunWorld(listener, front), r);
      }
    } else {
      NothingTracked();
    }
  }

  lemma NothingTracked()
    ensures SameConnections([], [])
  {
  }

  /** What recv and send report for a connection in a round is no error, if they are called. */
  predicate NoError(conn: int, r: TimedRound) {
    var io := r.io(conn);
    Reported(r.ready(conn)) ==> io.received >= 0 && !(io.received > 0 && io.ping && io.sent < 0)
  }

  predicate AllFine(w: World, r: TimedRound) { forall i :: 0 <= i < |w.ts| ==> NoError(w.ts[i].c.conn, r) }

  lemma {:induction false} SurvivedExactly(w: World, k: nat, r: TimedRound)
    requires k <= |w.ts|
    ensures Survived(TimedSlots(w, r), k, r.io) <==> forall i :: 0 <= i < k ==> NoError(w.ts[i].c.conn, r)
  {
    if k > 0 {
      SurvivedExactly(w, k - 1, r);
    }
  }

  lemma {:induction false} SurvivesExactly(listener: int, rounds: seq<TimedRound>)
    ensures Survives(listener, rounds) <==>
            forall k :: 0 <= k < |rounds| ==> AllFine(RunWorld(listener, rounds[..k]), rounds[k])
  {
    hide NoError, RunWorld, Survived, TimedSlots;
    if rounds != [] {
      var n := |rounds| - 1;
      var w := RunWorld(listener, rounds[..n]);
      SurvivesExactly(listener, rounds[..n]);
      SurvivedExactly(w, |w.ts|, rounds[n]);
      assert AllFine(w, rounds[n]) <==> Survived(TimedSlots(w, rounds[n]), |w.ts|, rounds[n].io);
      hide AllFine;
      assert forall k :: 0 <= k < n ==> rounds[..n][..k] == rounds[..k];
      assert forall k :: 0 <= k < n ==> rounds[..n][k] == rounds[k];
      assert (forall k :: 0 <= k < |rounds| ==> AllFine(RunWorld(listener, rounds[..k]), rounds[k])) <==>
             AllFine(w, rounds[n]) && forall k :: 0 <= k < n ==> AllFine(RunWorld(listener, rounds[..n][..k]), rounds[..n][k]);
    }
  }

  /**
   The server gets through a run if and only if, in every round, every tracked connection with an event is
   received from without error and, if "ping" came, sent to without error.
   */
  lemma GoneThroughExactly(listener: int, rounds: seq<TimedRound>)
    ensures RunServer(listener, rounds).Some? <==>
            forall k :: 0 <= k < |rounds| ==> AllFine(RunWorld(listener, rounds[..k]), rounds[k])
  {
    TimedRunRefinesServer(listener, rounds);
    SurvivesExactly(listener, rounds);
  }

  /** Peers that hang up end no run: it is gone through if all the results are 0 or more. */
  lemma HangupsAreSurvived(listener: int, rounds: seq<TimedRound>)
    requires forall k, conn :: 0 <= k < |rounds| ==> rounds[k].io(conn).received >= 0 && rounds[k].io(conn).sent >= 0
    ensures RunServer(listener, rounds).Some?
  {
    GoneThroughExactly(listener, rounds);
  }

  // ---------------------------------------------------------------- runs with fresh descriptors

  predicate DistinctTimed(listener: int, ts: seq<Timed>) {
    && (forall i :: 0 <= i < |ts| ==> ts[i].c.conn != ts[i].c.timer && listener !in {ts[i].c.conn, ts[i].c.timer})
    && forall i, j :: 0 <= i < |ts| && 0 <= j < |ts| && i != j ==> Apart(ts[i].c, ts[j].c)
  }

  predicate Apart(c: Connection, d: Connection) { {c.conn, c.timer} !! {d.conn, d.timer} }

  /** accept and timerfd_create return two numbers that are not in use. */
  predicate Fresh(listener: int, w: World, r: TimedRound) {
    r.accepted.Some? ==>
      var c := r.accepted.value;
      && c.conn != c.timer && listener !in {c.conn, c.timer}
      && forall i :: 0 <= i < |w.ts| ==> Apart(w.ts[i].c, c)
  }

  ghost predicate FairRun(listener: int, rounds: seq<TimedRound>) {
    forall k :: 0 <= k < |rounds| ==> Fresh(listener, RunWorld(listener, rounds[..k]), rounds[k])
  }

  /** Every entry after the sweep comes from one that was kept. */
  lemma {:induction false} TimedOrigin(w: World, k: nat, j: nat, r: TimedRound) returns (i: nat)
    requires k <= |w.ts| && j < |TimedSweep(w, k, r)|
    ensures i < k && !Dropping(w, w.ts[i], r) && TimedSweep(w, k, r)[j] == Kept(w.ts[i], r)
  {
    if j < |TimedSweep(w, k - 1, r)| {
      i := TimedOrigin(w, k - 1, j, r);
    } else {
      i := k - 1;
    }
  }

  lemma {:induction false} TimedKept(w: World, k: nat, i: nat, r: TimedRound) returns (j: nat)
    requires i < k <= |w.ts| && !Dropping(w, w.ts[i], r)
    ensures j < |TimedSweep(w, k, r)| && TimedSweep(w, k, r)[j].c == w.ts[i].c
  {
    if i == k - 1 {
      j := |TimedSweep(w, k - 1, r)|;
    } else {
      j := TimedKept(w, k - 1, i, r);
    }
  }

  lemma {:induction false} SweepDistinct(listener: int, w: World, k: nat, r: TimedRound)
    requires DistinctTimed(listener, w.ts) && k <= |w.ts|
    ensures DistinctTimed(listener, TimedSweep(w, k, r))
  {
    if k > 0 {
      SweepDistinct(listener, w, k - 1, r);
      var before := TimedSweep(w, k - 1, r);
      forall j | 0 <= j < |before| ensures Apart(before[j].c, w.ts[k - 1].c) && Apart(w.ts[k - 1].c, before[j].c) {
        var i := TimedOrigin(w, k - 1, j, r);
        assert Apart(w.ts[i].c, w.ts[k - 1].c) && Apart(w.ts[k - 1].c, w.ts[i].c);
      }
    }
  }

  lemma NextDistinct(listener: int, w: World, r: TimedRound)
    requires DistinctTimed(listener, w.ts) && Fresh(listener, w, r)
    ensures DistinctTimed(listener, NextTimed(w, r))
  {
    SweepDistinct(listener, w, |w.ts|, r);
    var before := TimedSweep(w, |w.ts|, r);
    if r.accepted.Some? {
      forall j | 0 <= j < |before| ensures Apart(before[j].c, r.accepted.value) && Apart(r.accepted.value, before[j].c) {
        var i := TimedOrigin(w, |w.ts|, j, r);
        assert Apart(w.ts[i].c, r.accepted.value);
      }
    }
  }

  // ---------------------------------------------------------------- when the timers were armed

  /** Whether some calls create or set a timer. */
  predicate Touches(log: seq<Event>, timer: int) { Open(timer) in log || Use(timer) in log }

  lemma TouchesConcat(a: seq<Event>, b: seq<Event>, timer: int)
    ensures Touches(a + b, timer) <==> Touches(a, timer) || Touches(b, timer)
  {
  }

  lemma {:induction false} ArmedInBlock(log: seq<Stamped>, more: seq<Event>, at: int, timer: int)
    ensures ArmedAt(log + Stamp(more, at), timer) == if Touches(more, timer) then Some(at) else ArmedAt(log, timer)
    decreases |more|
  {
    if more == [] {
      assert log + Stamp(more, at) == log;
    } else {
      var front, last := more[..|more| - 1], more[|more| - 1];
      ArmedInBlock(log, front, at, timer);
      var all := log + Stamp(more, at);
      assert all[..|all| - 1] == log + Stamp(front, at);
      assert all[|all| - 1] == Stamped(last, at);
      assert more == front + [last];
      TouchesConcat(front, [last], timer);
    }
  }

  lemma SlotTouches(s: Slot, io: Io, timer: int)
    requires s.conn.fd != s.timer.fd
    ensures timer == s.timer.fd ==> (Touches(SlotLog(s, io), timer) <==> HasEvent(s.conn.revents))
    ensures timer !in {s.conn.fd, s.timer.fd} ==> !Touches(SlotLog(s, io), timer)
  {
    var log := SlotLog(s, io);
    if HasEvent(s.conn.revents) {
      var k := if Sends(io) then 2 else 1;
      assert log[k] == Use(s.timer.fd);
    }
  }

  /** The sweep sets a timer exactly when it handles an event of its connection. */
  lemma {:induction false} SweepTouches(slots: seq<Slot>, k: nat, i: nat, io: int -> Io)
    requires DistinctSlots(slots) && i < |slots| && k <= |slots|
    ensures Touches(SweepLog(slots, k, io), slots[i].timer.fd) <==> i < k && HasEvent(slots[i].conn.revents)
  {
    hide SlotLog, Touches, HasEvent;
    if k > 0 {
      var s := slots[k - 1];
      SweepTouches(slots, k - 1, i, io);
      SlotTouches(s, io(s.conn.fd), slots[i].timer.fd);
      TouchesConcat(SweepLog(slots, k - 1, io), SlotLog(s, io(s.conn.fd)), slots[i].timer.fd);
    } else {
      NothingTouched(slots[i].timer.fd);
    }
  }

  lemma NothingTouched(timer: int)
    ensures !Touches([], timer)
  {
  }

  lemma TimedSlotsDistinct(listener: int, w: World, r: TimedRound)
    requires DistinctTimed(listener, w.ts)
    ensures DistinctSlots(TimedSlots(w, r))
  {
    var slots := TimedSlots(w, r);
    forall i, j | 0 <= i < |slots| && 0 <= j < |slots| && i != j
      ensures slots[i].conn.fd != slots[j].conn.fd && slots[i].timer.fd != slots[j].timer.fd
      ensures slots[i].conn.fd != slots[j].timer.fd
    {
      assert Apart(w.ts[i].c, w.ts[j].c);
    }
  }

  /** The calls of a round set the timer of a tracked connection exactly when its event is handled. */
  lemma TrackedTouches(listener: int, w: World, r: TimedRound, i: nat)
    requires DistinctTimed(listener, w.ts) && Fresh(listener, w, r) && i < |w.ts|
    ensures Touches(TimedLog(listener, w, r), w.ts[i].c.timer) <==> HasEvent(r.ready(w.ts[i].c.conn))
  {
    var slots, timer := TimedSlots(w, r), w.ts[i].c.timer;
    TimedSlotsDistinct(listener, w, r);
    NewcomerApart(listener, w, r, i);
    hide Touches, SweepLog, HasEvent, DistinctTimed, DistinctSlots, Fresh, AcceptLog;
    SweepTouches(slots, |w.ts|, i, r.io);
    TouchesConcat(AcceptCalls(listener, r), SweepLog(slots, |w.ts|, r.io), timer);
  }

  lemma NewcomerApart(listener: int, w: World, r: TimedRound, i: nat)
    requires DistinctTimed(listener, w.ts) && Fresh(listener, w, r) && i < |w.ts|
    ensures !Touches(AcceptCalls(listener, r), w.ts[i].c.timer)
  {
    assert r.accepted.Some? ==> Apart(w.ts[i].c, r.accepted.value);
  }

  lemma AcceptedTouches(listener: int, w: World, r: TimedRound)
    requires r.accepted.Some?
    ensures Touches(TimedLog(listener, w, r), r.accepted.value.timer)
  {
    var accepts := AcceptCalls(listener, r);
    assert accepts[2] == Open(r.accepted.value.timer);
    TouchesConcat(accepts, SweepLog(TimedSlots(w, r), |w.ts|, r.io), r.accepted.value.timer);
  }

  predicate ArmedWhenActive(w: World) {
    forall i :: 0 <= i < |w.ts| ==> ArmedAt(w.log, w.ts[i].c.timer) == Some(w.ts[i].lastActive)
  }

  lemma NextArmed(listener: int, w: World, r: TimedRound)
    requires DistinctTimed(listener, w.ts) && Fresh(listener, w, r) && ArmedWhenActive(w)
    ensures ArmedWhenActive(NextWorld(listener, w, r))
  {
    var next, calls := NextWorld(listener, w, r), TimedLog(listener, w, r);
    forall j | 0 <= j < |next.ts| ensures ArmedAt(next.log, next.ts[j].c.timer) == Some(next.ts[j].lastActive) {
      ArmedInBlock(w.log, calls, r.handled, next.ts[j].c.timer);
      hide Touches, ArmedAt, TimedLog, Stamp;
      if j < |TimedSweep(w, |w.ts|, r)| {
        var i := TimedOrigin(w, |w.ts|, j, r);
        TrackedTouches(listener, w, r, i);
      } else {
        AcceptedTouches(listener, w, r);
      }
    }
  }

  /**
   In every run on fresh descriptors: the tracked ones are distinct, and the log set each timer last
   at the last activity of its connection.
   */
  lemma {:induction false} ArmedAtLastActivity(listener: int, rounds: seq<TimedRound>)
    requires FairRun(listener, rounds)
    ensures DistinctTimed(listener, RunWorld(listener, rounds).ts) && ArmedWhenActive(RunWorld(listener, rounds))
  {
    if rounds != [] {
      var n := |rounds| - 1;
      assert forall k :: 0 <= k < n ==> rounds[..n][..k] == rounds[..k];
      ArmedAtLastActivity(listener, rounds[..n]);
      var w := RunWorld(listener, rounds[..n]);
      assert Fresh(listener, w, rounds[n]);
      NextDistinct(listener, w, rounds[n]);
      NextArmed(listener, w, rounds[n]);
    }
  }

  // ---------------------------------------------------------------- inactivity

  /** After every round each tracked connection was accepted or active less than 3 seconds before that round's poll. */
  lemma SurvivorsWereActive(listener: int, rounds: seq<TimedRound>, j: nat)
    requires rounds != [] && rounds[|rounds| - 1].polled <= rounds[|rounds| - 1].handled
    requires FairRun(listener, rounds) && j < |RunWorld(listener, rounds).ts|
    ensures RunWorld(listener, rounds).ts[j].lastActive > rounds[|rounds| - 1].polled - 3
  {
    var n := |rounds| - 1;
    assert forall k :: 0 <= k < n ==> rounds[..n][..k] == rounds[..k];
    ArmedAtLastActivity(listener, rounds[..n]);
    var w, r := RunWorld(listener, rounds[..n]), rounds[n];
    hide ArmedAt, Dropping, DistinctTimed, Fresh, TimedLog, Stamp;
    if j < |TimedSweep(w, |w.ts|, r)| {
      var i := TimedOrigin(w, |w.ts|, j, r);
      KeptIsRecent(w, w.ts[i], r);
    }
  }

  lemma KeptIsRecent(w: World, t: Timed, r: TimedRound)
    requires ArmedAt(w.log, t.c.timer) == Some(t.lastActive) && !Dropping(w, t, r) && r.polled <= r.handled
    ensures Kept(t, r).lastActive > r.polled - TIMEOUT
  {
  }

  /** Idle means: no event now, and none for 3 seconds; hung up means: recv or send returned 0 now. */
  predicate Idle(t: Timed, r: TimedRound) { !Reported(r.ready(t.c.conn)) && r.polled - t.lastActive >= 3 }

  predicate HungUp(t: Timed, r: TimedRound) {
    var io := r.io(t.c.conn);
    Reported(r.ready(t.c.conn)) && (io.received == 0 || (io.received > 0 && io.ping && io.sent == 0))
  }

  predicate Tracked(ts: seq<Timed>, c: Connection) { exists j :: 0 <= j < |ts| && ts[j].c == c }

  /** In any run on fresh descriptors, the next round drops exactly the connections that are idle or hung up. */
  lemma DroppedExactlyWhenIdleOrHungUp(listener: int, rounds: seq<TimedRound>, i: nat, r: TimedRound)
    requires FairRun(listener, rounds) && Fresh(listener, RunWorld(listener, rounds), r)
    requires i < |RunWorld(listener, rounds).ts|
    ensures var w, after := RunWorld(listener, rounds), RunWorld(listener, rounds + [r]);
            !Tracked(after.ts, w.ts[i].c) <==> Idle(w.ts[i], r) || HungUp(w.ts[i], r)
  {
    var w := RunWorld(listener, rounds);
    var t, after := w.ts[i], NextTimed(w, r);
    ArmedAtLastActivity(listener, rounds);
    assert (rounds + [r])[..|rounds|] == rounds;
    assert ArmedAt(w.log, t.c.timer) == Some(t.lastActive);
    DroppingExactly(w, t, r);
    hide ArmedAt, Idle, HungUp, Dropping, Stamp, TimedLog;
    if !Dropping(w, t, r) {
      var j := TimedKept(w, |w.ts|, i, r);
      assert after[j].c == t.c;
    } else if j :| 0 <= j < |after| && after[j].c == t.c {
      OnlyItself(listener, w, r, i, j);
      assert false;
    }
  }

  lemma DroppingExactly(w: World, t: Timed, r: TimedRound)
    requires ArmedAt(w.log, t.c.timer) == Some(t.lastActive)
    ensures Dropping(w, t, r) <==> Idle(t, r) || HungUp(t, r)
  {
  }

  /** A connection that is dropped is not tracked afterwards under another entry. */
  lemma OnlyItself(listener: int, w: World, r: TimedRound, i: nat, j: nat)
    requires DistinctTimed(listener, w.ts) && Fresh(listener, w, r) && i < |w.ts| && j < |NextTimed(w, r)|
    requires NextTimed(w, r)[j].c == w.ts[i].c
    ensures !Dropping(w, w.ts[i], r)
  {
    assert r.accepted.Some? ==> Apart(w.ts[i].c, r.accepted.value);
    assert forall k :: 0 <= k < |w.ts| && k != i ==> Apart(w.ts[k].c, w.ts[i].c);
    if j < |TimedSweep(w, |w.ts|, r)| {
      var from := TimedOrigin(w, |w.ts|, j, r);
    }
  }

  lemma TrackedAppend(ts: seq<Timed>, more: seq<Timed>, c: Connection)
    ensures Tracked(ts + more, c) <==> Tracked(ts, c) || Tracked(more, c)
  {
    if j :| 0 <= j < |ts| && ts[j].c == c {
      assert (ts + more)[j].c == c;
    } else if j :| 0 <= j < |more| && more[j].c == c {
      assert (ts + more)[|ts| + j].c == c;
    }
  }

  /** After the next round of any run the server tracks the accepted connection, and the old ones but for the idle and hung up. */
  lemma TrackedExactly(listener: int, rounds: seq<TimedRound>, r: TimedRound, c: Connection)
    requires FairRun(listener, rounds) && Fresh(listener, RunWorld(listener, rounds), r)
    ensures var w, after := RunWorld(listener, rounds), RunWorld(listener, rounds + [r]);
            Tracked(after.ts, c) <==>
            r.accepted == Some(c) || exists i :: 0 <= i < |w.ts| && w.ts[i].c == c && !Idle(w.ts[i], r) && !HungUp(w.ts[i], r)
  {
    var w := RunWorld(listener, rounds);
    assert (rounds + [r])[..|rounds|] == rounds;
    var swept, gained := TimedSweep(w, |w.ts|, r), if r.accepted.Some? then [Timed(r.accepted.value, r.handled)] else [];
    assert NextTimed(w, r) == swept + gained;
    TrackedAppend(swept, gained, c);
    assert r.accepted == Some(c) ==> gained[0].c == c;
    hide Idle, HungUp, TimedLog, Stamp, DistinctTimed, Fresh;
    if i :| 0 <= i < |w.ts| && w.ts[i].c == c {
      DroppedExactlyWhenIdleOrHungUp(listener, rounds, i, r);
      SameSlot(listener, rounds, i);
    } else if j :| 0 <= j < |swept| && swept[j].c == c {
      var i := TimedOrigin(w, |w.ts|, j, r);
      assert false;
    }
  }

  lemma SameSlot(listener: int, rounds: seq<TimedRound>, i: nat)
    requires FairRun(listener, rounds) && i < |RunWorld(listener, rounds).ts|
    ensures var ts := RunWorld(listener, rounds).ts; forall j :: 0 <= j < |ts| && ts[j].c == ts[i].c ==> j == i
  {
    ArmedAtLastActivity(listener, rounds);
  }
}
