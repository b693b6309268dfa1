/** The growable pollfd array of the non-blocking server and its arithmetic. */
module FdBuffers {
  import opened Wrappers

  /** The bits of events and revents that the server looks at. */
  datatype Bits = Bits(pollin: bool, pollerr: bool, pollhup: bool)

  const NONE := Bits(false, false, false)
  const POLLIN := Bits(true, false, false)

  const ENOMEM := 12
  const SIZEOF_POLLFD := 8

  /** The largest capacity that doubling leaves within an int. */
  const MAX_SIZE := 0x4000_0000

  datatype PollFd = PollFd(fd: int, events: Bits, revents: Bits)

  predicate HasEvent(revents: Bits) { revents.pollhup || revents.pollin || revents.pollerr }

  // ---------------------------------------------------------------- the sequence it stands for

  /** The position find_fd returns: the first match, or -1. */
  function FirstIndex(s: seq<PollFd>, fd: int): (r: int)
    ensures -1 <= r < |s|
    ensures r == -1 <==> forall j :: 0 <= j < |s| ==> s[j].fd != fd
    ensures r >= 0 ==> s[r].fd == fd && forall j :: 0 <= j < r ==> s[j].fd != fd
  {
    if s == [] then -1
    else if s[0].fd == fd then 0
    else var r := FirstIndex(s[1..], fd); if r == -1 then -1 else r + 1
  }

  /** The position remove_fd stops at: the last match, or -1. */
  function LastIndex(s: seq<PollFd>, fd: int): (r: int)
    ensures -1 <= r < |s|
    ensures r == -1 <==> forall j :: 0 <= j < |s| ==> s[j].fd != fd
    ensures r >= 0 ==> s[r].fd == fd && forall j :: r < j < |s| ==> s[j].fd != fd
  {
    if s == [] then -1
    else if s[|s| - 1].fd == fd then |s| - 1
    else LastIndex(s[..|s| - 1], fd)
  }

  predicate DistinctFds(s: seq<PollFd>) {
    forall i, j :: 0 <= i < j < |s| ==> s[i].fd != s[j].fd
  }

  function Deleted(s: seq<PollFd>, i: int): seq<PollFd>
    requires 0 <= i < |s|
  {
    s[..i] + s[i + 1..]
  }

  lemma DeletedParts(s: seq<PollFd>, at: int, d: seq<PollFd>)
    requires 0 <= at < |s| && |d| == |s| - 1
    requires forall j :: 0 <= j < at ==> d[j] == s[j]
    requires forall j :: at < j < |s| ==> d[j - 1] == s[j]
    ensures d == Deleted(s, at)
  {
    forall j | at <= j < |d| ensures d[j] == Deleted(s, at)[j] {
      assert d[j + 1 - 1] == s[j + 1];
    }
  }

  /** remove_fd as an operation on sequences: the first entry, the listener, is never deleted. */
  function Removed(s: seq<PollFd>, fd: int): seq<PollFd> {
    if LastIndex(s, fd) > 0 then Deleted(s, LastIndex(s, fd)) else s
  }

  /** What poll makes of the array. */
  function Polled(s: seq<PollFd>, revents: seq<Bits>): seq<PollFd>
    requires |s| == |revents|
  {
    seq(|s|, i requires 0 <= i < |s| => s[i].(revents := revents[i]))
  }

  /** Both searches agree when the numbers are distinct, wherever the entry stands. */
  lemma SearchesAgree(s: seq<PollFd>, i: int)
    requires DistinctFds(s) && 0 <= i < |s|
    ensures FirstIndex(s, s[i].fd) == i && LastIndex(s, s[i].fd) == i
  {
  }

  // ---------------------------------------------------------------- arithmetic

  function Pow2(k: nat): nat { if k == 0 then 1 else 2 * Pow2(k - 1) }

  ghost predicate Doubled16(size: int) { exists k: nat :: size == 16 * Pow2(k) }

  /** The test after a removal, in the unsigned 32-bit arithmetic of the code. */
  predicate ShrinkTest(size: int, len: int) {
    var newSize := size * SIZEOF_POLLFD % 0x1_0000_0000;
    len > newSize / 2 && newSize % 2 == 0
  }

  lemma {:induction false} Pow2Grows(k: nat, m: nat)
    requires k <= m
    ensures Pow2(k) <= Pow2(m)
  {
    if k < m {
      Pow2Grows(k, m - 1);
    }
  }

  lemma Pow2Values()
    ensures Pow2(24) == 0x100_0000 && Pow2(25) == 0x200_0000 && Pow2(26) == 0x400_0000 && Pow2(27) == 0x800_0000
  {
    assert Pow2(8) == 0x100;
    assert Pow2(16) == 0x1_0000;
  }

  /**
   The array is shrunk exactly when its capacity has reached 2^29 entries, where the
   byte size wraps to 0; for every capacity an int can hold that the doubling produces.
   */
  lemma ShrinkTestExact(size: int, len: int)
    requires Doubled16(size) && size <= 0x7fff_ffff && 1 <= len <= size - 1
    ensures ShrinkTest(size, len) <==> size >= 0x2000_0000
  {
    var k: nat :| size == 16 * Pow2(k);
    Pow2Values();
    if k <= 24 {
      Pow2Grows(k, 24);
    } else if k >= 27 {
      Pow2Grows(27, k);
      assert false;
    } else {
      assert size == 0x2000_0000 || size == 0x4000_0000;
    }
  }

  /** A capacity that an int can hold is at most MAX_SIZE, and below that it can be doubled. */
  lemma DoubledBelow(size: int)
    requires Doubled16(size) && size < MAX_SIZE
    ensures 2 * size <= MAX_SIZE
  {
    var k: nat :| size == 16 * Pow2(k);
    Pow2Values();
    if k >= 26 {
      Pow2Grows(26, k);
      assert false;
    } else {
      Pow2Grows(k, 25);
    }
  }

  lemma ShrinksExactly(size: int)
    requires Doubled16(size) && size <= MAX_SIZE
    ensures forall len :: 1 <= len <= size - 1 ==> (ShrinkTest(size, len) <==> size >= 0x2000_0000)
  {
    forall len | 1 <= len <= size - 1 ensures ShrinkTest(size, len) <==> size >= 0x2000_0000 {
      ShrinkTestExact(size, len);
    }
  }

  lemma DoubleAgain(size: int)
    requires Doubled16(size)
    ensures Doubled16(2 * size)
  {
    var k: nat :| size == 16 * Pow2(k);
    assert 2 * size == 16 * Pow2(k + 1);
  }

  // ---------------------------------------------------------------- the array

  class FdBuffer {
    var size: int
    var len: int
    var fds: array<PollFd>
    ghost var peak: int // the largest len so far

    ghost predicate Valid()
      reads this
    {
      && fds.Length == size
      && 0 <= len <= size - 1
      && Doubled16(size) && size <= MAX_SIZE
      && len <= peak
      && size <= Max(16, 2 * peak)
    }

    function Entries(): (s: seq<PollFd>)
      requires Valid()
      reads this, fds
      ensures |s| == len
    {
      fds[..len]
    }

    constructor ()
      ensures Valid() && fresh(fds)
      ensures Entries() == [] && size == 16 && peak == 0
    {
      size := 16;
      len := 0;
      peak := 0;
      fds := new PollFd[16];
      new;
      assert 16 == 16 * Pow2(0);
    }

    /** `memory` says whether realloc succeeds, should it be called; doubling MAX_SIZE overflows an int. */
    method InsertFd(fd: PollFd, memory: bool) returns (err: int)
      requires Valid() && (len == size - 1 ==> size < MAX_SIZE)
      modifies this, fds
      ensures Valid() && (fds == old(fds) || fresh(fds))
      ensures err == if old(len == size - 1) && !memory then 12 else 0
      ensures Entries() == if err == 0 then old(Entries()) + [fd] else old(Entries())
      ensures size == (if old(len == size - 1) && memory then 2 * old(size) else old(size))
      ensures peak == (if err == 0 then Max(old(peak), len) else old(peak))
    {
      if len == size - 1 {
        if !memory {
          return ENOMEM;
        }
        DoubleAgain(size);
        DoubledBelow(size);
        var tmpfds := new PollFd[size * 2];
        forall i | 0 <= i < size {
          tmpfds[i] := fds[i];
        }
        size := size * 2;
        fds := tmpfds;
      }
      fds[len] := fd;
      len := len + 1;
      peak := Max(peak, len);
      return 0;
    }

    /** The overwriting loop of remove_fd: every entry after `at` moves down by one. */
    method ShiftDown(at: int)
      requires Valid() && 0 <= at < len
      modifies fds
      ensures fds[..len - 1] == Deleted(old(Entries()), at)
    {
      ghost var was := Entries();
      assert len <= fds.Length && |was| == len && forall j :: 0 <= j < len ==> fds[j] == was[j];
      hide *;
      var i := at + 1;
      while i < len
        invariant at + 1 <= i <= len <= fds.Length && fds == old(fds)
        invariant forall j :: 0 <= j < at ==> fds[j] == was[j]
        invariant forall j :: at < j < i ==> fds[j - 1] == was[j]
        invariant forall j :: i <= j < len ==> fds[j] == was[j]
      {
        fds[i - 1] := fds[i];
        i := i + 1;
      }
      assert fds[..len - 1] == Deleted(was, at) by {
        DeletedParts(was, at, fds[..len - 1]);
      }
    }

    /** The search loop of remove_fd, from the end. */
    method LastMatch(fd: int) returns (i: int)
      requires Valid()
      ensures i == LastIndex(Entries(), fd)
    {
      hide LastIndex;
      i := len;
      while i > 0 && fds[i - 1].fd != fd
        invariant 0 <= i <= len
        invariant forall j :: i <= j < len ==> fds[j].fd != fd
      {
        i := i - 1;
      }
      i := i - 1;
    }

    /**
     `closed` says whether close(fd) was called, `shrunk` whether realloc was: from 2^29 entries on,
     where the byte size has wrapped to 0.  Nothing is promised of the array then.
     */
    method RemoveFd(fd: int) returns (closed: bool, shrunk: bool)
      requires Valid()
      modifies this, fds
      ensures closed <==> LastIndex(old(Entries()), fd) > 0
      ensures shrunk <==> closed && old(size) >= 0x2000_0000
      ensures !shrunk ==>
                && Valid() && fds == old(fds) && size == old(size) && peak == old(peak)
                && Entries() == Removed(old(Entries()), fd)
      ensures !shrunk && old(len) > 0 ==> len > 0 && Entries()[0] == old(Entries())[0]
    {
      ShrinksExactly(size);
      hide LastIndex, Doubled16, ShrinkTest, Max, Deleted;
      var i := LastMatch(fd);
      if i <= 0 {
        return false, false;
      }
      ShiftDown(i);
      len := len - 1;
      if ShrinkTest(size, len) {
        return true, true;
      }
      return true, false;
    }

    /** The entry's position, or -1 for the null pointer. */
    method FindFd(fd: int) returns (r: int)
      requires Valid()
      ensures r == FirstIndex(Entries(), fd)
    {
      var i := 0;
      while i < len
        invariant 0 <= i <= len
        invariant forall j :: 0 <= j < i ==> fds[j].fd != fd
      {
        if fds[i].fd == fd {
          return i;
        }
        i := i + 1;
      }
      return -1;
    }

    /** The kernel's answer to poll: every entry's revents is overwritten. */
    method Poll(revents: seq<Bits>)
      requires Valid() && |revents| == len
      modifies fds
      ensures Valid()
      ensures Entries() == Polled(old(Entries()), revents)
    {
      var i := 0;
      while i < len
        invariant 0 <= i <= len
        invariant forall j :: 0 <= j < i ==> fds[j] == old(fds[j]).(revents := revents[j])
        invariant forall j :: i <= j < len ==> fds[j] == old(fds[j])
      {
        fds[i] := fds[i].(revents := revents[i]);
        i := i + 1;
      }
    }

    method ClearRevents(i: int)
      requires Valid() && 0 <= i < len
      modifies fds
      ensures Valid()
      ensures Entries() == old(Entries())[i := old(Entries())[i].(revents := NONE)] && fds[i].revents == NONE
    {
      fds[i] := fds[i].(revents := NONE);
    }
  }
}
