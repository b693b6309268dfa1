/**
 The non-blocking server when accept or the creation of a timer fails: the negative number goes into array and
 queue like any other, and may stand there several times.  The order of the array is then lost, but not
 what the sweep relies on: each lookup finds an entry like the connection's own, and each removal removes one.
 */
module TimerFailures {
  import opened Wrappers
  import opened FdBuffers
  import opened TimerServers

  // ---------------------------------------------------------------- one round on array and queue

  /** What the loop works on: the array, and the queue. */
  datatype Held = Held(entries: seq<PollFd>, conns: seq<Connection>)

  datatype Judgement = Judgement(entries: seq<PollFd>, dropped: bool)

  /** The sweep's body for one connection; None when an assert fails. */
  function Judged(entries: seq<PollFd>, c: Connection, io: Io): Option<Judgement> {
    var p, t := FirstIndex(entries, c.conn), FirstIndex(entries, c.timer);
    if p == -1 || t == -1 then None
    else
      var handled := HasEvent(entries[p].revents);
      var settled := if handled then entries[t := entries[t].(revents := NONE)] else entries;
      var hangup := handled && (io.received == 0 || (Sends(io) && io.sent == 0));
      if hangup || HasEvent(settled[t].revents) then
        Some(Judgement(Removed(Removed(settled, c.conn), c.timer), true))
      else Some(Judgement(settled, false))
  }

  /** The sweep over the first k connections of the queue. */
  function SweptHeld(h: Held, k: nat, io: int -> Io): Option<Held>
    requires k <= |h.conns|
  {
    if k == 0 then Some(Held(h.entries, []))
    else
      match SweptHeld(h, k - 1, io)
      case None => None
      case Some(done) =>
        var c := h.conns[k - 1];
        match Judged(done.entries, c, io(c.conn))
        case None => None
        case Some(j) => Some(Held(j.entries, done.conns + if j.dropped then [] else [c]))
  }

  /** One round's environment: poll's answer by number, the results of accept and of the timer's creation, recv and send. */
  datatype Env = Env(answer: int -> Bits, conn: int, timer: int, io: int -> Io)

  function Answers(entries: seq<PollFd>, env: Env): (r: seq<Bits>)
    ensures |r| == |entries|
  {
    seq(|entries|, i requires 0 <= i < |entries| => env.answer(entries[i].fd))
  }

  function AcceptedHeld(h: Held, env: Env): Held {
    var s := NewSlot(env.conn, env.timer);
    Held(h.entries + [s.conn] + [s.timer], h.conns + [Connection(env.conn, env.timer)])
  }

  function NextHeld(listener: int, h: Held, env: Env): Option<Held> {
    var polled := h.(entries := Polled(h.entries, Answers(h.entries, env)));
    var ready := if env.answer(listener).pollin then AcceptedHeld(polled, env) else polled;
    SweptHeld(ready, |ready.conns|, env.io)
  }

  function RunHeld(listener: int, envs: seq<Env>): Option<Held> {
    if envs == [] then Some(Held([PollFd(listener, POLLIN, NONE)], []))
    else
      match RunHeld(listener, envs[..|envs| - 1])
      case None => None
      case Some(h) => NextHeld(listener, h, envs[|envs| - 1])
  }

  // ---------------------------------------------------------------- the same on the slots

  function PolledBy(slots: seq<Slot>, answer: int -> Bits): (r: seq<Slot>) {
    seq(|slots|, i requires 0 <= i < |slots| =>
      Slot(slots[i].conn.(revents := answer(slots[i].conn.fd)), slots[i].timer.(revents := answer(slots[i].timer.fd))))
  }

  function Ready(listener: int, slots: seq<Slot>, env: Env): seq<Slot> {
    PolledBy(slots, env.answer) + if env.answer(listener).pollin then [NewSlot(env.conn, env.timer)] else []
  }

  function Next(listener: int, slots: seq<Slot>, env: Env): seq<Slot> {
    var ready := Ready(listener, slots, env);
    Swept(ready, |ready|, env.io)
  }

  /** While array and queue agree in order this is the round of the server. */
  lemma NextIsTheRound(listener: int, entries: seq<PollFd>, conns: seq<Connection>, slots: seq<Slot>, env: Env)
    requires Agree(entries, conns, slots) && entries[0].fd == listener
    ensures Next(listener, slots, env) == NextSlots(slots, Answers(entries, env), env.conn, env.timer, env.io)
  {
    var polled, s := PolledSlots(slots, Answers(entries, env)), NewSlot(env.conn, env.timer);
    assert polled == PolledBy(slots, env.answer);
    NewSlotUntouched(polled, |polled|, s, env.io);
    assert polled + [] == polled;
  }

  function RunSlots(listener: int, envs: seq<Env>): seq<Slot> {
    if envs == [] then [] else Next(listener, RunSlots(listener, envs[..|envs| - 1]), envs[|envs| - 1])
  }

  predicate Unused(listener: int, slots: seq<Slot>, fd: int) {
    fd != listener && forall s :: s in slots ==> fd != s.conn.fd && fd != s.timer.fd
  }

  /**
   poll reports nothing for a negative number; a number returned that is not negative is not in use; and no
   recv or send makes main return.
   */
  ghost predicate Regular(listener: int, slots: seq<Slot>, env: Env) {
    && (forall fd :: fd < 0 ==> env.answer(fd) == NONE)
    && (env.answer(listener).pollin ==>
          && (env.conn < 0 || Unused(listener, slots, env.conn))
          && (env.timer < 0 || (Unused(listener, slots, env.timer) && env.timer != env.conn)))
    && Survived(PolledBy(slots, env.answer), |slots|, env.io)
  }

  ghost predicate RegularRun(listener: int, envs: seq<Env>) {
    envs == [] ||
    (RegularRun(listener, envs[..|envs| - 1])
     && Regular(listener, RunSlots(listener, envs[..|envs| - 1]), envs[|envs| - 1]))
  }

  // ---------------------------------------------------------------- the agreement that failures leave

  function Numbers(s: seq<PollFd>): seq<int> { seq(|s|, i requires 0 <= i < |s| => s[i].fd) }

  function ConnNumbers(slots: seq<Slot>): seq<int> { seq(|slots|, i requires 0 <= i < |slots| => slots[i].conn.fd) }

  function TimerNumbers(slots: seq<Slot>): seq<int> { seq(|slots|, i requires 0 <= i < |slots| => slots[i].timer.fd) }

  /** The numbers that the array must hold. */
  function Tracked(listener: int, slots: seq<Slot>): multiset<int> {
    multiset{listener} + multiset(ConnNumbers(slots)) + multiset(TimerNumbers(slots))
  }

  /** Every entry of a connection's number is like the connection's own. */
  ghost predicate Alike(entries: seq<PollFd>, slots: seq<Slot>) {
    forall e, s :: e in entries && s in slots ==> (e.fd == s.conn.fd ==> e == s.conn) && (e.fd == s.timer.fd ==> e == s.timer)
  }

  predicate Silent(e: PollFd) { e.events == POLLIN && e.revents == NONE }

  /** The numbers of the listener and of all queued connections, in any order; only negative ones more than once. */
  ghost predicate Covered(listener: int, entries: seq<PollFd>, slots: seq<Slot>) {
    && entries != [] && entries[0].fd == listener >= 0
    && multiset(Numbers(entries)) == Tracked(listener, slots)
    && (forall fd :: fd >= 0 ==> multiset(Numbers(entries))[fd] <= 1)
    && (forall e :: e in entries && e.fd < 0 ==> Silent(e))
    && Alike(entries, slots)
  }

  function Connections(slots: seq<Slot>): (r: seq<Connection>) {
    seq(|slots|, i requires 0 <= i < |slots| => Connection(slots[i].conn.fd, slots[i].timer.fd))
  }

  // ---------------------------------------------------------------- lookups and removals

  lemma AtLeast(s: seq<int>, i: nat)
    requires i < |s|
    ensures multiset(s)[s[i]] >= 1
  {
    assert s[i] in s;
  }

  lemma TwicePresent(s: seq<int>, i: nat, j: nat)
    requires i < j < |s| && s[i] == s[j]
    ensures multiset(s)[s[i]] >= 2
  {
    assert s == s[..j] + s[j..];
    AtLeast(s[..j], i);
    AtLeast(s[j..], 0);
  }

  lemma WithoutOne(n: seq<int>, i: nat)
    requires i < |n|
    ensures multiset(n[..i] + n[i + 1..]) == multiset(n) - multiset{n[i]} && multiset{n[i]} <= multiset(n)
  {
    assert n == n[..i] + [n[i]] + n[i + 1..];
  }

  lemma NumberPresent(s: seq<PollFd>, fd: int)
    requires fd in multiset(Numbers(s))
    ensures exists p :: 0 <= p < |s| && s[p].fd == fd
  {
    assert fd in Numbers(s);
  }

  lemma TrackedHasBoth(listener: int, slots: seq<Slot>, i: nat)
    requires i < |slots|
    ensures multiset{listener} + multiset{slots[i].conn.fd} + multiset{slots[i].timer.fd} <= Tracked(listener, slots)
  {
    WithoutOne(ConnNumbers(slots), i);
    WithoutOne(TimerNumbers(slots), i);
  }

  /** Both lookups of a queued connection succeed, behind the listener's entry, and give what poll stored for it. */
  lemma CoveredLookups(listener: int, entries: seq<PollFd>, slots: seq<Slot>, i: nat)
    requires Covered(listener, entries, slots) && i < |slots|
    ensures var p, t := FirstIndex(entries, slots[i].conn.fd), FirstIndex(entries, slots[i].timer.fd);
            p > 0 && t > 0 && entries[p] == slots[i].conn && entries[t] == slots[i].timer
    ensures slots[i].conn.fd != listener && slots[i].timer.fd != listener
  {
    TrackedHasBoth(listener, slots, i);
    NumberPresent(entries, slots[i].conn.fd);
    NumberPresent(entries, slots[i].timer.fd);
    assert slots[i] in slots;
    hide Tracked, Numbers;
    assert Tracked(listener, slots)[listener] <= 1;
  }

  lemma DeletedNumbers(s: seq<PollFd>, k: nat)
    requires k < |s|
    ensures multiset(Numbers(Deleted(s, k))) == multiset(Numbers(s)) - multiset{s[k].fd}
    ensures forall e :: e in Deleted(s, k) ==> e in s
  {
    var n := Numbers(s);
    assert Numbers(Deleted(s, k)) == n[..k] + n[k + 1..];
    WithoutOne(n, k);
  }

  lemma RemovedNumbers(s: seq<PollFd>, fd: int)
    requires s != [] && s[0].fd != fd && fd in multiset(Numbers(s))
    ensures LastIndex(s, fd) > 0
    ensures multiset(Numbers(Removed(s, fd))) == multiset(Numbers(s)) - multiset{fd}
    ensures Removed(s, fd) != [] && Removed(s, fd)[0] == s[0]
    ensures forall e :: e in Removed(s, fd) ==> e in s
  {
    NumberPresent(s, fd);
    DeletedNumbers(s, LastIndex(s, fd));
  }

  lemma TrackedWithout(listener: int, slots: seq<Slot>, i: nat)
    requires i < |slots|
    ensures Tracked(listener, slots[..i] + slots[i + 1..])
            == Tracked(listener, slots) - multiset{slots[i].conn.fd} - multiset{slots[i].timer.fd}
  {
    var rest := slots[..i] + slots[i + 1..];
    NumbersWithout(slots, i);
    WithoutOne(ConnNumbers(slots), i);
    WithoutOne(TimerNumbers(slots), i);
    assert multiset(ConnNumbers(rest)) == multiset(ConnNumbers(slots)) - multiset{slots[i].conn.fd};
    assert multiset(TimerNumbers(rest)) == multiset(TimerNumbers(slots)) - multiset{slots[i].timer.fd};
  }

  lemma NumbersWithout(slots: seq<Slot>, i: nat)
    requires i < |slots|
    ensures ConnNumbers(slots[..i] + slots[i + 1..]) == ConnNumbers(slots)[..i] + ConnNumbers(slots)[i + 1..]
    ensures TimerNumbers(slots[..i] + slots[i + 1..]) == TimerNumbers(slots)[..i] + TimerNumbers(slots)[i + 1..]
  {
  }

  lemma CoveredShrinks(listener: int, entries: seq<PollFd>, slots: seq<Slot>, entries': seq<PollFd>, slots': seq<Slot>)
    requires Covered(listener, entries, slots)
    requires entries' != [] && entries'[0] == entries[0] && (forall e :: e in entries' ==> e in entries)
    requires forall s :: s in slots' ==> s in slots
    requires multiset(Numbers(entries')) == Tracked(listener, slots') <= multiset(Numbers(entries))
    ensures Covered(listener, entries', slots')
  {
    hide Numbers, Tracked, Silent;
  }

  lemma MinusTwo(all: multiset<int>, a: int, b: int, c: int)
    requires multiset{a} + multiset{b} + multiset{c} <= all
    ensures b in all && c in all - multiset{b} && all - multiset{b} - multiset{c} <= all
  {
    assert (multiset{a} + multiset{b} + multiset{c})[b] <= all[b];
    assert (multiset{a} + multiset{b} + multiset{c})[c] <= all[c];
  }

  lemma DeletedBoth(listener: int, entries: seq<PollFd>, slots: seq<Slot>, i: nat)
    requires i < |slots| && entries != [] && entries[0].fd == listener
    requires slots[i].conn.fd != listener && slots[i].timer.fd != listener
    requires multiset(Numbers(entries)) == Tracked(listener, slots)
    ensures var c, t, left := slots[i].conn.fd, slots[i].timer.fd, slots[..i] + slots[i + 1..];
            var r := Removed(Removed(entries, c), t);
            && LastIndex(entries, c) > 0 && LastIndex(Removed(entries, c), t) > 0
            && multiset(Numbers(r)) == Tracked(listener, left) <= multiset(Numbers(entries))
            && r != [] && r[0] == entries[0] && (forall e :: e in r ==> e in entries)
  {
    hide *;
    var c, t := slots[i].conn.fd, slots[i].timer.fd;
    TrackedHasBoth(listener, slots, i);
    MinusTwo(multiset(Numbers(entries)), listener, c, t);
    TrackedWithout(listener, slots, i);
    RemovedNumbers(entries, c);
    RemovedNumbers(Removed(entries, c), t);
  }

  lemma OthersRemain(slots: seq<Slot>, i: nat)
    requires i < |slots|
    ensures forall s :: s in slots[..i] + slots[i + 1..] ==> s in slots
  {
  }

  /** The two removals find their entries, and leave what covers the other connections. */
  lemma CoveredDelete(listener: int, entries: seq<PollFd>, slots: seq<Slot>, i: nat)
    requires Covered(listener, entries, slots) && i < |slots|
    ensures LastIndex(entries, slots[i].conn.fd) > 0
    ensures LastIndex(Removed(entries, slots[i].conn.fd), slots[i].timer.fd) > 0
    ensures Covered(listener, Removed(Removed(entries, slots[i].conn.fd), slots[i].timer.fd), slots[..i] + slots[i + 1..])
  {
    hide Numbers, Tracked, Removed, LastIndex, FirstIndex, Alike, Silent;
    var c, t, left := slots[i].conn.fd, slots[i].timer.fd, slots[..i] + slots[i + 1..];
    CoveredLookups(listener, entries, slots, i);
    DeletedBoth(listener, entries, slots, i);
    OthersRemain(slots, i);
    hide Covered;
    CoveredShrinks(listener, entries, slots, Removed(Removed(entries, c), t), left);
  }

  /** Clearing the timer's event clears it for this connection only. */
  lemma CoveredSettle(listener: int, entries: seq<PollFd>, slots: seq<Slot>, i: nat)
    requires Covered(listener, entries, slots) && i < |slots|
    ensures var t, s := FirstIndex(entries, slots[i].timer.fd), slots[i];
            && t > 0
            && Covered(listener, entries[t := entries[t].(revents := NONE)], slots[i := s.(timer := s.timer.(revents := NONE))])
  {
    CoveredLookups(listener, entries, slots, i);
    var t, s := FirstIndex(entries, slots[i].timer.fd), slots[i];
    var e', slots' := entries[t := s.timer.(revents := NONE)], slots[i := s.(timer := s.timer.(revents := NONE))];
    if s.timer.fd < 0 {
      assert entries[t] in entries;
      assert e' == entries && slots' == slots;
    } else {
      assert Numbers(e') == Numbers(entries);
      assert ConnNumbers(slots') == ConnNumbers(slots) && TimerNumbers(slots') == TimerNumbers(slots);
      AlikeSettled(listener, entries, slots, i, t);
      assert forall e :: e in e' && e.fd < 0 ==> e in entries;
    }
  }

  lemma AlikeSettled(listener: int, entries: seq<PollFd>, slots: seq<Slot>, i: nat, t: nat)
    requires Covered(listener, entries, slots) && i < |slots| && t < |entries|
    requires entries[t] == slots[i].timer && slots[i].timer.fd >= 0
    ensures Alike(entries[t := slots[i].timer.(revents := NONE)], slots[i := slots[i].(timer := slots[i].timer.(revents := NONE))])
  {
    var s := slots[i];
    var e', slots' := entries[t := s.timer.(revents := NONE)], slots[i := s.(timer := s.timer.(revents := NONE))];
    hide Tracked, Numbers;
    forall p, j | 0 <= p < |e'| && 0 <= j < |slots'|
      ensures e'[p].fd == slots'[j].conn.fd ==> e'[p] == slots'[j].conn
      ensures e'[p].fd == slots'[j].timer.fd ==> e'[p] == slots'[j].timer
    {
      assert entries[p] in entries && slots[j] in slots;
      OneEntry(entries, p, t);
      OnlyOnce(listener, slots, i, j);
    }
  }

  lemma OneEntry(entries: seq<PollFd>, p: nat, t: nat)
    requires p < |entries| && t < |entries| && multiset(Numbers(entries))[entries[t].fd] <= 1
    ensures entries[p].fd == entries[t].fd ==> p == t
  {
    if entries[p].fd == entries[t].fd && p != t {
      TwicePresent(Numbers(entries), if p < t then p else t, if p < t then t else p);
    }
  }

  /** A number that is tracked once is the timer of no other connection, and no connection's socket. */
  lemma OnlyOnce(listener: int, slots: seq<Slot>, i: nat, j: nat)
    requires i < |slots| && j < |slots| && Tracked(listener, slots)[slots[i].timer.fd] <= 1
    ensures slots[j].conn.fd != slots[i].timer.fd
    ensures j != i ==> slots[j].timer.fd != slots[i].timer.fd
  {
    AtLeast(ConnNumbers(slots), j);
    AtLeast(TimerNumbers(slots), i);
    if j != i && slots[j].timer.fd == slots[i].timer.fd {
      TwicePresent(TimerNumbers(slots), if i < j then i else j, if i < j then j else i);
    }
  }

  /** No assert fails for the connection of slot i, and it is judged on what poll stored for it. */
  ghost predicate WellJudged(listener: int, entries: seq<PollFd>, slots: seq<Slot>, i: nat, io: Io)
    requires i < |slots|
  {
    var s := slots[i];
    var j := Judged(entries, Connection(s.conn.fd, s.timer.fd), io);
    && j.Some? && j.value.dropped == Dropped(s, io)
    && Covered(listener, j.value.entries,
               slots[..i] + (if Dropped(s, io) then [] else [Settled(s)]) + slots[i + 1..])
  }

  lemma JudgedHandled(listener: int, entries: seq<PollFd>, slots: seq<Slot>, i: nat, io: Io)
    requires Covered(listener, entries, slots) && i < |slots| && HasEvent(slots[i].conn.revents)
    ensures WellJudged(listener, entries, slots, i, io)
  {
    hide Covered, Removed, Sends, LastIndex;
    var s := slots[i];
    CoveredLookups(listener, entries, slots, i);
    var c, t := s.(timer := s.timer.(revents := NONE)), FirstIndex(entries, s.timer.fd);
    var settled := entries[t := c.timer];
    CoveredSettle(listener, entries, slots, i);
    CoveredDelete(listener, settled, slots[i := c], i);
    SplitAt(slots, i, c);
    Without(slots, i);
  }

  lemma JudgedTimer(listener: int, entries: seq<PollFd>, slots: seq<Slot>, i: nat, io: Io)
    requires Covered(listener, entries, slots) && i < |slots| && !HasEvent(slots[i].conn.revents)
    ensures WellJudged(listener, entries, slots, i, io)
  {
    hide Covered, Removed, Sends, FirstIndex, LastIndex;
    CoveredLookups(listener, entries, slots, i);
    CoveredDelete(listener, entries, slots, i);
    SplitAt(slots, i, slots[i]);
    Without(slots, i);
  }

  lemma Without(slots: seq<Slot>, i: nat)
    requires i < |slots|
    ensures slots[..i] + [] + slots[i + 1..] == slots[..i] + slots[i + 1..]
  {
  }

  /** One iteration of the sweep. */
  lemma JudgedCovered(listener: int, entries: seq<PollFd>, slots: seq<Slot>, i: nat, io: Io)
    requires Covered(listener, entries, slots) && i < |slots|
    ensures WellJudged(listener, entries, slots, i, io)
  {
    hide Covered, Removed, Sends;
    var s := slots[i];
    CoveredLookups(listener, entries, slots, i);
    if HasEvent(s.conn.revents) {
      JudgedHandled(listener, entries, slots, i, io);
    } else {
      JudgedTimer(listener, entries, slots, i, io);
    }
  }

  // ---------------------------------------------------------------- rounds and runs

  lemma {:induction false} SweptCovered(listener: int, h: Held, slots: seq<Slot>, k: nat, io: int -> Io)
    requires Covered(listener, h.entries, slots) && h.conns == Connections(slots) && k <= |slots|
    ensures var r, done := SweptHeld(h, k, io), Swept(slots, k, io);
            r.Some? && Covered(listener, r.value.entries, done + slots[k..]) && r.value.conns == Connections(done)
  {
    hide Covered, Judged, Dropped, Settled, Connections, SweptHeld, Swept;
    assert |Connections(slots)| == |slots| by {
      ConnectionsSize(slots);
    }
    if k == 0 {
      SweptStart(h, slots, io);
    } else {
      SweptCovered(listener, h, slots, k - 1, io);
      SweepStep(slots, k - 1, io);
      ConnectionsAt(slots, k - 1);
      var before, done := SweptHeld(h, k - 1, io).value, Swept(slots, k - 1, io);
      var s := slots[k - 1];
      JudgedCovered(listener, before.entries, done + slots[k - 1..], |done|, io(s.conn.fd));
      SweptHeldStep(h, k, io);
      ConnectionsAppend(done, Settled(s), s);
    }
  }

  lemma SweptStart(h: Held, slots: seq<Slot>, io: int -> Io)
    ensures SweptHeld(h, 0, io) == Some(Held(h.entries, [])) && Swept(slots, 0, io) == [] && Connections([]) == []
    ensures [] + slots[0..] == slots
  {
  }

  lemma SweptHeldStep(h: Held, k: nat, io: int -> Io)
    requires 1 <= k <= |h.conns| && SweptHeld(h, k - 1, io).Some?
    ensures var done, c := SweptHeld(h, k - 1, io).value, h.conns[k - 1];
            var j := Judged(done.entries, c, io(c.conn));
            j.Some? ==> SweptHeld(h, k, io) == Some(Held(j.value.entries, done.conns + if j.value.dropped then [] else [c]))
  {
  }

  lemma ConnectionsSize(slots: seq<Slot>)
    ensures |Connections(slots)| == |slots|
  {
  }

  lemma ConnectionsAt(slots: seq<Slot>, k: nat)
    requires k < |slots|
    ensures |Connections(slots)| == |slots| && Connections(slots)[k] == Connection(slots[k].conn.fd, slots[k].timer.fd)
  {
  }

  lemma ConnectionsAppend(slots: seq<Slot>, settled: Slot, s: Slot)
    requires settled == Settled(s)
    ensures Connections(slots + [settled]) == Connections(slots) + [Connection(s.conn.fd, s.timer.fd)]
    ensures Connections(slots) + [] == Connections(slots) && slots + [] == slots
  {
  }

  lemma PolledCovered(listener: int, entries: seq<PollFd>, slots: seq<Slot>, env: Env)
    requires Covered(listener, entries, slots) && forall fd :: fd < 0 ==> env.answer(fd) == NONE
    ensures Covered(listener, Polled(entries, Answers(entries, env)), PolledBy(slots, env.answer))
    ensures Connections(PolledBy(slots, env.answer)) == Connections(slots)
  {
    var e', slots' := Polled(entries, Answers(entries, env)), PolledBy(slots, env.answer);
    assert Numbers(e') == Numbers(entries);
    assert ConnNumbers(slots') == ConnNumbers(slots) && TimerNumbers(slots') == TimerNumbers(slots);
    forall p | 0 <= p < |e'| ensures e'[p].fd < 0 ==> Silent(e'[p]) {
      assert entries[p] in entries;
    }
    forall p, j | 0 <= p < |e'| && 0 <= j < |slots'|
      ensures e'[p].fd == slots'[j].conn.fd ==> e'[p] == slots'[j].conn
      ensures e'[p].fd == slots'[j].timer.fd ==> e'[p] == slots'[j].timer
    {
      assert entries[p] in entries && slots[j] in slots;
    }
  }

  lemma AcceptedCovered(listener: int, h: Held, slots: seq<Slot>, env: Env)
    requires Covered(listener, h.entries, slots) && h.conns == Connections(slots)
    requires env.conn < 0 || Unused(listener, slots, env.conn)
    requires env.timer < 0 || (Unused(listener, slots, env.timer) && env.timer != env.conn)
    ensures Covered(listener, AcceptedHeld(h, env).entries, slots + [NewSlot(env.conn, env.timer)])
    ensures AcceptedHeld(h, env).conns == Connections(slots + [NewSlot(env.conn, env.timer)])
  {
    var s := NewSlot(env.conn, env.timer);
    NewcomerAlike(listener, h.entries, slots, s);
    CoveredGrows(listener, h.entries, slots, s);
    ConnectionsAppend(slots, s, s);
    hide Covered, Connections;
  }

  lemma CoveredGrows(listener: int, entries: seq<PollFd>, slots: seq<Slot>, s: Slot)
    requires Covered(listener, entries, slots) && Alike(entries + [s.conn] + [s.timer], slots + [s])
    requires Silent(s.conn) && Silent(s.timer)
    requires s.conn.fd < 0 || Unused(listener, slots, s.conn.fd)
    requires s.timer.fd < 0 || (Unused(listener, slots, s.timer.fd) && s.timer.fd != s.conn.fd)
    ensures Covered(listener, entries + [s.conn] + [s.timer], slots + [s])
  {
    hide Numbers, Tracked, Alike, Unused, Silent;
    var e' := entries + [s.conn] + [s.timer];
    AcceptedNumbers(listener, entries, slots, s);
    UnusedIsAbsent(listener, slots, s.conn.fd);
    UnusedIsAbsent(listener, slots, s.timer.fd);
    assert forall e :: e in e' ==> e in entries || e == s.conn || e == s.timer;
    forall fd | fd >= 0 ensures multiset(Numbers(e'))[fd] <= 1 {
      assert multiset(Numbers(e'))[fd] == Tracked(listener, slots)[fd] + Bit(fd == s.conn.fd) + Bit(fd == s.timer.fd);
    }
  }

  lemma AcceptedNumbers(listener: int, entries: seq<PollFd>, slots: seq<Slot>, s: Slot)
    ensures multiset(Numbers(entries + [s.conn] + [s.timer]))
            == multiset(Numbers(entries)) + multiset{s.conn.fd} + multiset{s.timer.fd}
    ensures Tracked(listener, slots + [s]) == Tracked(listener, slots) + multiset{s.conn.fd} + multiset{s.timer.fd}
  {
    assert Numbers(entries + [s.conn] + [s.timer]) == Numbers(entries) + [s.conn.fd] + [s.timer.fd];
    assert ConnNumbers(slots + [s]) == ConnNumbers(slots) + [s.conn.fd];
    assert TimerNumbers(slots + [s]) == TimerNumbers(slots) + [s.timer.fd];
  }

  lemma UnusedIsAbsent(listener: int, slots: seq<Slot>, fd: int)
    ensures Unused(listener, slots, fd) ==> Tracked(listener, slots)[fd] == 0
  {
    assert forall i :: 0 <= i < |slots| ==> slots[i] in slots;
    assert Unused(listener, slots, fd) ==> fd !in ConnNumbers(slots) && fd !in TimerNumbers(slots);
  }

  lemma NewcomerAlike(listener: int, entries: seq<PollFd>, slots: seq<Slot>, s: Slot)
    requires Covered(listener, entries, slots) && s == NewSlot(s.conn.fd, s.timer.fd)
    requires s.conn.fd < 0 || Unused(listener, slots, s.conn.fd)
    requires s.timer.fd < 0 || (Unused(listener, slots, s.timer.fd) && s.timer.fd != s.conn.fd)
    ensures Alike(entries + [s.conn] + [s.timer], slots + [s])
  {
    forall e, t | e in entries + [s.conn] + [s.timer] && t in slots + [s]
      ensures e.fd == t.conn.fd ==> e == t.conn
      ensures e.fd == t.timer.fd ==> e == t.timer
    {
      if t in slots {
        var i :| 0 <= i < |slots| && slots[i] == t;
        OwnAreSilent(listener, entries, slots, i);
      } else if e in entries && e.fd >= 0 {
        EntryIsTracked(listener, entries, slots, e);
        if e.fd == s.conn.fd || e.fd == s.timer.fd {
          UnusedIsAbsent(listener, slots, e.fd);
        }
      }
    }
  }

  lemma EntryIsTracked(listener: int, entries: seq<PollFd>, slots: seq<Slot>, e: PollFd)
    requires multiset(Numbers(entries)) == Tracked(listener, slots) && e in entries
    ensures Tracked(listener, slots)[e.fd] > 0
  {
    var p :| 0 <= p < |entries| && entries[p] == e;
    AtLeast(Numbers(entries), p);
  }

  /** A queued entry with a negative number has no event. */
  lemma OwnAreSilent(listener: int, entries: seq<PollFd>, slots: seq<Slot>, i: nat)
    requires Covered(listener, entries, slots) && i < |slots|
    ensures slots[i].conn.fd < 0 ==> Silent(slots[i].conn)
    ensures slots[i].timer.fd < 0 ==> Silent(slots[i].timer)
  {
    CoveredLookups(listener, entries, slots, i);
  }

  lemma NextCovered(listener: int, h: Held, slots: seq<Slot>, env: Env)
    requires Covered(listener, h.entries, slots) && h.conns == Connections(slots) && Regular(listener, slots, env)
    ensures var r := NextHeld(listener, h, env);
            && r.Some? && Covered(listener, r.value.entries, Next(listener, slots, env))
            && r.value.conns == Connections(Next(listener, slots, env))
  {
    hide Covered, SweptHeld, Swept, Survived;
    var polled := h.(entries := Polled(h.entries, Answers(h.entries, env)));
    var ready := if env.answer(listener).pollin then AcceptedHeld(polled, env) else polled;
    PolledCovered(listener, h.entries, slots, env);
    if env.answer(listener).pollin {
      StillUnused(listener, slots, env);
      AcceptedCovered(listener, polled, PolledBy(slots, env.answer), env);
    }
    assert PolledBy(slots, env.answer) + [] == PolledBy(slots, env.answer);
    var all := Ready(listener, slots, env);
    SweptCovered(listener, ready, all, |all|, env.io);
    assert Swept(all, |all|, env.io) + all[|all|..] == Swept(all, |all|, env.io);
  }

  lemma StillUnused(listener: int, slots: seq<Slot>, env: Env)
    ensures forall fd :: Unused(listener, slots, fd) ==> Unused(listener, PolledBy(slots, env.answer), fd)
  {
  }

  /**
   Whatever accept and the creation of a timer return: in no run does an assert of the sweep fail; array and
   queue hold the listener and the same connections, though not in the same order; and each connection is
   judged on its own entries, as in the rounds of the server.
   */
  lemma {:induction false} AssertsHoldDespiteFailures(listener: int, envs: seq<Env>)
    requires listener >= 0 && RegularRun(listener, envs)
    ensures var r, slots := RunHeld(listener, envs), RunSlots(listener, envs);
            r.Some? && Covered(listener, r.value.entries, slots) && r.value.conns == Connections(slots)
  {
    hide NextHeld, Next, Covered, Regular, Connections;
    if envs == [] {
      CoveredStart(listener);
    } else {
      AssertsHoldDespiteFailures(listener, envs[..|envs| - 1]);
      NextCovered(listener, RunHeld(listener, envs[..|envs| - 1]).value, RunSlots(listener, envs[..|envs| - 1]), envs[|envs| - 1]);
    }
  }

  lemma CoveredStart(listener: int)
    requires listener >= 0
    ensures Covered(listener, [PollFd(listener, POLLIN, NONE)], []) && Connections([]) == []
  {
    assert Numbers([PollFd(listener, POLLIN, NONE)]) == [listener];
    assert ConnNumbers([]) == [] && TimerNumbers([]) == [];
  }

  // ---------------------------------------------------------------- what failures cost

  /** The order of the array survives an accept exactly if the two numbers are new to the array and differ. */
  lemma OrderSurvivesExactly(entries: seq<PollFd>, conns: seq<Connection>, slots: seq<Slot>, conn: int, timer: int)
    requires Agree(entries, conns, slots)
    ensures var s := NewSlot(conn, timer);
            Agree(entries + [s.conn] + [s.timer], conns + [Connection(conn, timer)], slots + [s])
            <==> conn !in FdSet(entries) && timer !in FdSet(entries) && conn != timer
  {
    var s := NewSlot(conn, timer);
    var e := entries + [s.conn] + [s.timer];
    if conn !in FdSet(entries) && timer !in FdSet(entries) && conn != timer {
      AppendSlot(entries, conns, slots, s);
    } else if conn == timer {
      assert e[|entries|].fd == e[|entries| + 1].fd;
    } else {
      assert e[|entries|] == s.conn && e[|entries| + 1] == s.timer;
      var i :| 0 <= i < |entries| && (entries[i].fd == conn || entries[i].fd == timer);
      assert e[i] == entries[i];
    }
  }

  /** With two failed accepts in the queue, dropping the first removes the entry of the second: the orders differ. */
  lemma OrderLost()
    ensures var entries := [PollFd(3, POLLIN, NONE), PollFd(-1, POLLIN, NONE), PollFd(4, POLLIN, POLLIN),
                            PollFd(5, POLLIN, NONE), PollFd(6, POLLIN, NONE), PollFd(-1, POLLIN, NONE), PollFd(7, POLLIN, NONE)];
            Numbers(Removed(Removed(entries, -1), 4)) == [3, -1, 5, 6, 7]
  {
    var entries := [PollFd(3, POLLIN, NONE), PollFd(-1, POLLIN, NONE), PollFd(4, POLLIN, POLLIN),
                    PollFd(5, POLLIN, NONE), PollFd(6, POLLIN, NONE), PollFd(-1, POLLIN, NONE), PollFd(7, POLLIN, NONE)];
    assert entries[5].fd == -1;
    assert LastIndex(entries, -1) == 5;
    var once := Deleted(entries, 5);
    assert once[2].fd == 4;
    assert LastIndex(once, 4) == 2;
  }

  /** A connection without a socket goes exactly when its timer fires, one without a timer exactly when its peer hangs up. */
  lemma DroppedDespiteFailure(listener: int, entries: seq<PollFd>, slots: seq<Slot>, i: nat, io: Io)
    requires Covered(listener, entries, slots) && i < |slots|
    ensures slots[i].conn.fd < 0 ==> (Dropped(slots[i], io) <==> HasEvent(slots[i].timer.revents))
    ensures slots[i].timer.fd < 0 ==>
              (Dropped(slots[i], io) <==> HasEvent(slots[i].conn.revents)
                                          && (io.received == 0 || (io.received > 0 && io.ping && io.sent == 0)))
  {
    OwnAreSilent(listener, entries, slots, i);
  }

  lemma {:induction false} SilentIsKept(slots: seq<Slot>, k: nat, i: nat, io: int -> Io)
    requires i < k <= |slots| && Silent(slots[i].conn) && Silent(slots[i].timer)
    ensures slots[i] in Swept(slots, k, io)
  {
    if i < k - 1 {
      SilentIsKept(slots, k - 1, i, io);
    }
  }

  /** With neither, it is never dropped: it stays in the queue for the rest of the run. */
  lemma {:induction false} NeitherStaysForGood(listener: int, envs: seq<Env>, k: nat, s: Slot)
    requires listener >= 0 && RegularRun(listener, envs) && k <= |envs| && s in RunSlots(listener, envs[..k])
    requires s.conn.fd < 0 && s.timer.fd < 0 && Silent(s.conn) && Silent(s.timer)
    ensures s in RunSlots(listener, envs)
  {
    if k == |envs| {
      assert envs[..k] == envs;
    } else {
      var front, env := envs[..|envs| - 1], envs[|envs| - 1];
      assert front[..k] == envs[..k];
      NeitherStaysForGood(listener, front, k, s);
      var slots := RunSlots(listener, front);
      var i :| 0 <= i < |slots| && slots[i] == s;
      var all := Ready(listener, slots, env);
      assert all[i] == s;
      SilentIsKept(all, |all|, i, env.io);
    }
  }
}
