/** What the select, poll and TLS servers have in common: their size and what their clients do. */
module Clients {
  import opened Wrappers
  import opened Descriptors

  const MAX_CONNECTION := 100

  /** The results of receiving and sending on one client; `quit` says the request was "quit" or "exit". */
  datatype Io = Io(received: int, quit: bool, sent: int)

  predicate Drops(io: Io) { io.received <= 0 || io.sent <= 0 || io.quit }

  /** The calls for one client served: recv, send if something came, and close if it is dropped. */
  function ServiceLog(fd: int, io: Io): seq<Event> {
    [Use(fd)] + (if io.received > 0 then [Use(fd)] else []) + (if Drops(io) then [Close(fd)] else [])
  }

  /** A client served is received from, sent to if something came, and closed exactly if a call failed or it said "quit". */
  lemma ServiceLogCount(fd: int, io: Io)
    ensures Count(ServiceLog(fd, io), Use(fd)) == 1 + Bit(io.received > 0)
    ensures Count(ServiceLog(fd, io), Close(fd)) == Bit(io.received <= 0 || io.sent <= 0 || io.quit)
    ensures forall e: Event :: e.fd != fd || e.Open? ==> Count(ServiceLog(fd, io), e) == 0
  {
    forall e: Event
      ensures Count(ServiceLog(fd, io), e) ==
              Bit(e == Use(fd)) + (if io.received > 0 then Bit(e == Use(fd)) else 0) + (if Drops(io) then Bit(e == Close(fd)) else 0)
    {
      CountAppend([], Use(fd), e);
      assert [] + [Use(fd)] == [Use(fd)];
      var uses := [Use(fd)] + if io.received > 0 then [Use(fd)] else [];
      CountAppend([Use(fd)], Use(fd), e);
      assert io.received <= 0 ==> uses == [Use(fd)];
      CountAppend(uses, Close(fd), e);
      assert !Drops(io) ==> ServiceLog(fd, io) == uses;
    }
  }

  /** One entry of an array given to poll; `pollin` is the POLLIN bit of its revents. */
  datatype PollFd = PollFd(fd: int, pollin: bool)
}
