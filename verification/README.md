# A verified model of the network servers and HTTP code

This project models, in Dafny, the connection bookkeeping of the repository's servers and its HTTP message
code, and proves what they keep over all runs. The kernel, the peers and the scheduler are arbitrary: every
result of `accept`, `recv`, `send`, `poll`, `select`, `SSL_accept`, `connect` and of memory allocation where
the code looks at it is a parameter. The one assumption about descriptors is the kernel's: a new number is
not open, but may have been used before.

`Descriptors.dfy` is the common abstract system: a log of opens, uses and closes and the automaton that
accepts it. The event-loop servers, over all their rounds, and the redirecting client, over any sequence of
requests, are proved to produce logs that it accepts, so that no number is used or closed after its close
unless it was opened again (`TouchedOnlyAfterReopen` of each server, `SocketTouchedOnlyAfterReopen`);
connections for which a table has no room stay open and untouched to the end of the run (`OpenExactly`,
`RefusedForGood`). For the worker pool, where ownership moves between threads, the same is
`WorkerOwnsItsDescriptor`. An operation on an SSL object is a use of the descriptor it is bound to. The one
place where the code breaks the rule, the cleanup of the TLS server, has its exact condition in
`CleanupAcceptedExactly`.

* `Wrappers.dfy`, `Clients.dfy`: what several modules share.
* `WorkerPool*.dfy`: dispatcher and workers over one mutex, one condition variable and one FIFO, as an
  interleaving of atomic steps for any number of workers. Whether the wait is re-tested is a parameter; the
  code does not re-test it, and `SafeExactlyWithRecheck` says that this is exactly what makes a crash reachable.
* `FdBuffer.dfy`, `TimerServer.dfy`, `TimerTheorems.dfy`, `TimerFailures.dfy`: the growable pollfd array as a
  class over an array, the event loop with its queue of connections and timers, the inactivity guarantee in a
  model with time, and what the loop keeps when accept or the creation of a timer fails.
* `SelectServer.dfy`, `SelectTheorems.dfy`: descriptor set, slot table and maximum, changed while being scanned.
* `PollServer.dfy`, `PollTheorems.dfy`, `TlsServer.dfy`, `TlsTheorems.dfy`, `DenseArrays.dfy`: dense arrays with
  removal by overwriting; the TLS server's parallel arrays of descriptors and SSL objects, and its cleanup.
* `Text.dfy`, `HttpParser.dfy`, `HttpResponse.dfy`: the request parser, the response printer, and the round
  trips between printed text and parsed messages, including the decimal Content-Length.
* `HttpClient.dfy`, `HttpClientTheorems.dfy`: the client that follows redirections, with partial sends and receives.

Each object or loop that works in place is a class or method proved against a specification function (`Scan`,
`Swept`, `Scanned`, `ParseSpec`, `Render`, `Run`); the theorems are about those functions, over every input. What
decides who stays and who goes, what goes out and what is printed is stated from the results of the calls and the
arguments of the setters themselves (`FailedExactly`, `GoneThroughExactly`, `RoundOnTheSetOfClients`,
`RoundExactly`, `SentExactly`, `GivesUpExactly`, `MessageOfHistory`).

Where the code and its evident intent differ the code is modelled and the difference is a theorem: the `if`
around the wait (`EmptyDequeueReached`), clients served although not reported (`JustifiedExactly`,
`UnreportedClientServed`), clients reported but passed over after a swap (`ReadExactly`,
`ReportedClientPassedOver`), descriptors touched after their close in the TLS cleanup
(`CleanupClosesOnceExactly`, `CleanupAcceptedExactly`), header keys that forge a Content-Length line
(`ForgedLengthDeclared`, `LengthsAgreeExactly`), sockets left open by redirections
(`OneSocketLeftOpenPerRedirection`), negative numbers from failed calls in array and queue
(`AssertsHoldDespiteFailures`, `OrderSurvivesExactly`, `NeitherStaysForGood`), stale bytes in the response buffer (`EachByteFromTheLastAnswerReachingIt`,
`StaleTailShown`), a Content-Location header taken for Location (`ContentLocationIsTaken`, `LocationExactly`),
and a 200 answer taken for a redirection because of its body (`TextInBodyRedirects`). The constructor of
`HTTPResponse` ignores both parameters and leaves the status unset; the model does the same.

## Model

| member | source | states |
|---|---|---|
| WorkerPoolTheorems.QueuedTaskHasAnAwakeWorker | my_code/simple_multithreaded_tcp_client_server/server_thread.h:23-49 | No lost wakeup: in every reachable state of any pool with a queued task some worker is not asleep on the condition, or the dispatcher is between its insertion and its signal, with or without spurious wakeups, although workers re-queue without signalling |
| WorkerPoolProgress.TaskWaitIsBounded | my_code/simple_multithreaded_tcp_client_server/server_thread.h:31-97 | No task starves: from any reachable state, every run in which the task at position p of the queue is not taken has at most 8 steps per worker, 6 of the dispatcher, 9 per task ahead and 7 per connection accepted meanwhile |
| WorkerPoolProgress.WaitIsBounded | my_code/simple_multithreaded_tcp_client_server/server_thread.h:31-97 | While any task waits, every run without a dequeue is bounded the same way |
| WorkerPoolProgress.QueuedTaskCanAdvance | my_code/simple_multithreaded_tcp_client_server/server_thread.h:31-97 | No deadlock: in every reachable state with a queued task some step other than an accept is enabled |
| WorkerPoolProgress.SafeExactlyWithRecheck | my_code/simple_multithreaded_tcp_client_server/server_thread.h:35-41 | No run dequeues from an empty queue if and only if the wait is re-tested after waking up, for every pool size |
| WorkerPoolProgress.EmptyDequeueReached | my_code/simple_multithreaded_tcp_client_server/server_thread.h:35-43 | With the `if` as written an explicit run reaches the dequeue of an empty queue, in every pool: the task is taken between insertion and signal |
| WorkerPoolTheorems.TaskInExactlyOnePlace | my_code/simple_multithreaded_tcp_client_server/server_thread.h:39-96 | Every task ever allocated is, in every reachable state, in exactly one of the queue, one worker's hands and the freed list, and there once |
| WorkerPoolTheorems.WorkerOwnsItsTask | my_code/simple_multithreaded_tcp_client_server/server_thread.h:43-95 | A worker that uses a task is its only holder: no use after free, no double free, no sharing |
| WorkerPoolTheorems.WorkerOwnsItsDescriptor | my_code/simple_multithreaded_tcp_client_server/server_thread.h:55-92 | The descriptor a worker uses is open, is not the listener and belongs to no other live task, although numbers are reused after close |
| WorkerPoolTheorems.FreedOnceAndForever | my_code/simple_multithreaded_tcp_client_server/server_thread.h:66-92 | A freed task is freed exactly once and is never queued or held again in any continuation |
| WorkerPoolTheorems.FreedTaskClosedOnce | my_code/simple_multithreaded_tcp_client_server/server_thread.h:66-92 | The descriptor of every freed task was closed exactly once before, on each of the four paths |
| WorkerPoolTheorems.ClosedOnceAndDone | my_code/simple_multithreaded_tcp_client_server/server_thread.h:66-92 | A task whose descriptor is closed was closed once, is not queued, and can only be freed by its holder |
| WorkerPoolResults.FailedExactly | my_code/simple_multithreaded_tcp_client_server/server_thread.h:55-92 | Over every run: a connection is closed, or about to be by its holder, if and only if some recv or send that a worker made while holding it returned 0 or an error; and then it is never queued again |
| WorkerPoolResults.WhereAResultLeads | my_code/simple_multithreaded_tcp_client_server/server_thread.h:55-96 | From each recv or send of a worker to the step with which it lets go of the task: after a result of 0 or an error the task is freed, closed; after a successful send, or a receipt without "ping", it goes to the end of the queue; after a receipt with "ping" the worker sends before |
| WorkerPoolResults.LetsGoExactly | my_code/simple_multithreaded_tcp_client_server/server_thread.h:43-96 | The only two ways of letting go of a task, told apart by the results since it was taken: put at the end of the queue after one successful receipt, with a successful send exactly if it held "ping", and freed otherwise |
| WorkerPoolResults.ClosesOnlyAfterFailure | my_code/simple_multithreaded_tcp_client_server/server_thread.h:66-92 | A descriptor is closed only by the holder of its task and only after a call of it returned 0 or an error, and no other step takes a number out of use |
| WorkerPoolResults.SendsExactlyAfterPing | my_code/simple_multithreaded_tcp_client_server/server_thread.h:60-65 | A worker can send if and only if its last result is a receipt with "ping", and then it can do nothing else |
| WorkerPoolResults.TasksAreTheAccepted | my_code/simple_multithreaded_tcp_client_server/pong_server.c:43-68 | Tasks are made for exactly the connections accepted, in that order, the last one perhaps not yet |
| WorkerPoolResults.ExitsExactly | my_code/simple_multithreaded_tcp_client_server/pong_server.c:43-65 | The process ends exactly when a thread cannot be created, accept returns -1 or a task cannot be allocated |
| WorkerPoolTheorems.OvertakenExactlyByThoseAhead | my_code/simple_multithreaded_tcp_client_server/server_thread.h:94-96 | FIFO: before the task at position p of the queue is taken exactly the p tasks ahead of it are, each once and in order, under every interleaving |
| WorkerPoolProofs.ExecControl | my_code/simple_multithreaded_tcp_client_server/pong_server.c:43-71 | Over every run of dispatcher and workers: mutual exclusion, pool size, FIFO of insertions and removals, the wakeup invariant and dequeue safety |
| WorkerPoolProofs.ExecConserved | my_code/simple_multithreaded_tcp_client_server/server_thread.h:117-134 | Over every run, the owners of a task or of a descriptor number are counted once if it exists and not at all otherwise |
| TimerServers.TimerServer.TouchedOnlyAfterReopen | my_code/simple_non_blocking_tcp_server_client/server.c:65-147 | Over every run a closed descriptor number is received from, sent on, armed or closed again only after a new open of it |
| SelectServers.SelectServer.TouchedOnlyAfterReopen | 00_tutorials/12_multiplexing_select_client_server.c:127-237 | The same over every run of the select server, accept being a use of the listener |
| PollServers.PollServer.TouchedOnlyAfterReopen | 00_tutorials/13_multiplexing_poll_client_server.c:123-214 | The same over every run of the poll server |
| TlsServers.TlsServer.TouchedOnlyAfterReopen | 01_networking_libraries/openssl/src/ssl_client_server.c:212-310 | The same over every run of the TLS server's loop, where SSL_accept, SSL_read and SSL_write use the descriptor that their object is bound to |
| HttpClientTheorems.SocketTouchedOnlyAfterReopen | 00_tutorials/07_http_redirection.c:150-168 | The same for the sockets of the redirecting client, over any sequence of its requests, as main makes them: a number that one request has closed is touched by a later one only after a new open of it |
| HttpClientTheorems.CallsReplay | 00_tutorials/07_http_redirection.c:150-168 | After any sequence of requests the log of all of them is accepted by the kernel, and the open numbers have grown by exactly one per redirection followed |
| HttpClientTheorems.NothingFollowsAClose | 00_tutorials/07_http_redirection.c:26-148 | Within one request nothing is called after a close |
| HttpClientTheorems.NumberReusedAcrossCalls | 00_tutorials/07_http_redirection.c:150-168 | Two requests answered at once in which the second opens the number that the first has closed |
| FdBuffers.FdBuffer.InsertFd | my_code/simple_non_blocking_tcp_server_client/server_fd.h:31-45 | Appends; doubles the array when one slot is left; ENOMEM and nothing changed exactly when growth was needed and failed; capacity stays 16*2^k and at most max(16, 2*peak length), as long as doubling stays within an int |
| FdBuffers.FdBuffer.RemoveFd | my_code/simple_non_blocking_tcp_server_client/server_fd.h:47-78 | Order-preserving removal of the last match unless it is the first entry; closed exactly when an entry is removed; the capacity stays as it is, and the shrinking realloc is reached exactly from 2^29 entries on |
| FdBuffers.FdBuffer.ShiftDown | my_code/simple_non_blocking_tcp_server_client/server_fd.h:62-65 | The overwriting loop deletes exactly the entry before its start |
| FdBuffers.FdBuffer.LastMatch | my_code/simple_non_blocking_tcp_server_client/server_fd.h:48-53 | The backward search finds the last match, or -1 |
| FdBuffers.FdBuffer.FindFd | my_code/simple_non_blocking_tcp_server_client/server_fd.h:84-92 | The forward search finds the first match, or none |
| FdBuffers.SearchesAgree | my_code/simple_non_blocking_tcp_server_client/server_fd.h:47-92 | With distinct descriptors both searches find the same entry, wherever it stands |
| FdBuffers.ShrinkTestExact | my_code/simple_non_blocking_tcp_server_client/server_fd.h:69-70 | The 32-bit shrink test is true exactly when the capacity has reached 2^29 entries, for every capacity doubling can produce in an int |
| TimerServers.FoundInPlace | my_code/simple_non_blocking_tcp_server_client/server.c:102-105 | While array and queue agree both lookups of a queued connection succeed, at the positions its place in the queue gives: the asserts never fail |
| TimerServers.DeleteSlot | my_code/simple_non_blocking_tcp_server_client/server.c:138-143 | The two removals from the array and the one from the queue keep array and queue in agreement |
| TimerServers.TimerServer.InsertPair | my_code/simple_non_blocking_tcp_server_client/server.c:81-87 | Both entries are appended unless the first insertion needs memory that it does not get; the second insertion, whose result is not looked at, never needs memory because the array length is then even |
| TimerServers.TimerServer.AcceptConnection | my_code/simple_non_blocking_tcp_server_client/server.c:75-94 | Adds the connection to array and queue, which stay in agreement; the process is ended exactly if the first insertion or the node allocation fails |
| TimerServers.TimerServer.Judge | my_code/simple_non_blocking_tcp_server_client/server.c:99-143 | One iteration of the sweep: main returns exactly if the connection has an event and recv, or after "ping" send, reports an error; it is dropped exactly if recv or send returns 0 or, without an event, its timer fired; otherwise it is settled in place; with exactly the system calls of its own snapshot |
| TimerServers.TimerServer.Sweep | my_code/simple_non_blocking_tcp_server_client/server.c:96-146 | The loop that removes from array and queue while iterating refines a pure filter over the old connections; every deletion and system call is accounted for |
| TimerServers.TimerServer.Round | my_code/simple_non_blocking_tcp_server_client/server.c:65-147 | One event-loop round: poll, accept, sweep; array and queue agree again (listener first, then both descriptors of every queued connection in order, all distinct), and the accepted connection is untouched |
| TimerServers.NewSlotUntouched | my_code/simple_non_blocking_tcp_server_client/server.c:81-99 | A connection just accepted, whose revents are zero, passes every sweep unchanged and causes no system call |
| TimerServers.TimerServer.OpenedOnceMoreThanClosed | my_code/simple_non_blocking_tcp_server_client/server_fd.h:55-60 | Over every run each descriptor number is opened once more than closed exactly while the array holds it: every close is matched by one removed entry |
| TimerServers.ConsistentDelete | my_code/simple_non_blocking_tcp_server_client/server.c:138-143 | Closing both descriptors of a connection keeps array, queue and kernel consistent, under reuse of numbers |
| TimerTheorems.JudgedOnceOnItsOwnSnapshot | my_code/simple_non_blocking_tcp_server_client/server.c:96-146 | In a sweep each connection is received from exactly when its own entry reported an event, sent to exactly if something with "ping" came, its timer set then, and it is closed exactly if one of the two returned 0 or, without an event, its timer's entry reported one; once each, although removals shift the array |
| TimerTheorems.SurvivorKeepsItsPlace | my_code/simple_non_blocking_tcp_server_client/server.c:138-145 | A connection that is not dropped survives the sweep, directly after the survivors that were before it |
| TimerTheorems.SurvivorWasKept | my_code/simple_non_blocking_tcp_server_client/server.c:138-145 | Conversely every entry after the sweep is such a connection |
| TimerTheorems.TimedRunRefinesServer | my_code/simple_non_blocking_tcp_server_client/server.c:65-147 | In a model with time, where a timer is reported from TIMEOUT after its last arming on: the server's rounds, with poll's answers computed from its own entries and calls, get through a run if and only if no recv or send reports an error, and then the timed run tracks exactly its connections, accepts included, in the same order, and makes exactly its calls at the same times |
| TimerTheorems.GoneThroughExactly | my_code/simple_non_blocking_tcp_server_client/server.c:107-126 | The server gets through a run if and only if in every round every tracked connection with an event is received from without error and, if "ping" came, sent to without error |
| TimerTheorems.HangupsAreSurvived | my_code/simple_non_blocking_tcp_server_client/server.c:116-126 | A run in which all results are 0 or more is gone through: peers that hang up end no run |
| TimerTheorems.AcceptsExactlyOnPollin | my_code/simple_non_blocking_tcp_server_client/server.c:75-94 | A round accepts one connection, creates its timer and tracks one more exactly if POLLIN is reported for the listener |
| TimerTheorems.ArmedAtLastActivity | my_code/simple_non_blocking_tcp_server_client/server.h:117-148 | In every run on fresh descriptor numbers the tracked ones are distinct, and the last call in the log that creates or sets a connection's timer was made at its last activity, its accept or a handled event |
| TimerTheorems.DroppedExactlyWhenIdleOrHungUp | my_code/simple_non_blocking_tcp_server_client/server.c:107-143 | After any run in which accept and timerfd_create return numbers not in use, the next round drops a connection if and only if recv or, after "ping", send returned 0 on it, or it has no event and its last activity is 3 seconds or more before the poll |
| TimerTheorems.TrackedExactly | my_code/simple_non_blocking_tcp_server_client/server.c:65-147 | After the next round of any run exactly the accepted connection and the old ones that are neither idle nor hung up are tracked |
| TimerTheorems.SurvivorsWereActive | my_code/simple_non_blocking_tcp_server_client/server.c:128-136 | After any run of rounds every tracked connection was accepted or active later than 3 seconds before the last poll |
| TimerFailures.AssertsHoldDespiteFailures | my_code/simple_non_blocking_tcp_server_client/server.c:77-146 | Whatever accept and the creation of a timer return, negative numbers any number of times included: in no run does an assert of the sweep fail, array and queue hold the listener and the same connections with every entry of a number alike, and each connection is judged on its own entries |
| TimerFailures.NextIsTheRound | my_code/simple_non_blocking_tcp_server_client/server.c:65-147 | While the array is in the order of the queue, the rounds of that run are those of the server |
| TimerFailures.CoveredLookups | my_code/simple_non_blocking_tcp_server_client/server.c:102-105 | Both lookups of a queued connection succeed behind the listener's entry and give what poll stored for it, in whatever order the array is |
| TimerFailures.CoveredDelete | my_code/simple_non_blocking_tcp_server_client/server.c:138-143 | Both removals find an entry and leave exactly the listener and the other connections |
| TimerFailures.OrderSurvivesExactly | my_code/simple_non_blocking_tcp_server_client/server.c:77-94 | Accepting keeps the array in the order of the queue, all numbers distinct, if and only if the two numbers are new to the array and differ: one failure survives, a second with the same result does not |
| TimerFailures.OrderLost | my_code/simple_non_blocking_tcp_server_client/server_fd.h:47-78 | With two failed accepts in the array, dropping the first connection removes the entry of the second |
| TimerFailures.DroppedDespiteFailure | my_code/simple_non_blocking_tcp_server_client/server.c:107-137 | A connection without a socket is dropped exactly when its timer fires, one without a timer exactly when recv or send returns 0 |
| TimerFailures.NeitherStaysForGood | my_code/simple_non_blocking_tcp_server_client/server.c:77-137 | A connection with neither is never dropped: it stays in the queue to the end of every run |
| SelectServers.FullExactly | 00_tutorials/12_multiplexing_select_client_server.c:161-170 | Pigeonhole: a table of distinct clients has no free entry exactly when it tracks MAX_CONNECTION clients |
| SelectServers.TrackKeeps | 00_tutorials/12_multiplexing_select_client_server.c:161-170 | Putting an accepted descriptor in a free entry keeps table, descriptor set and maximum in agreement |
| SelectServers.FullKeeps | 00_tutorials/12_multiplexing_select_client_server.c:161-170 | With a full table all three stay as they are and the accepted descriptor stays open and untracked |
| SelectServers.SelectServer.Track | 00_tutorials/12_multiplexing_select_client_server.c:161-170 | The insertion loop gains the client exactly if the table has room, and otherwise changes none of the three representations |
| SelectServers.SelectServer.Drop | 00_tutorials/12_multiplexing_select_client_server.c:188-197 | close, FD_CLR and the clearing loop lose exactly that client; the loop always finds it |
| SelectServers.SelectServer.Handle | 00_tutorials/12_multiplexing_select_client_server.c:175-233 | recv and send on one reported client, and its removal exactly when a call fails, the peer ends or the request asks for it |
| SelectServers.SelectServer.Round | 00_tutorials/12_multiplexing_select_client_server.c:129-236 | A whole scan, with accepts and closes inside it and a growing bound, visits every number below FD_SETSIZE as the specification does, terminates, and keeps the representations in agreement |
| SelectTheorems.ReadyHandledOnceAsTheSameConnection | 00_tutorials/12_multiplexing_select_client_server.c:137-235 | Every reported descriptor is handled exactly once in the round, the listener by one accept, and when its turn comes it is open with no open or close of its number since select returned; others are not touched |
| SelectTheorems.RoundOnTheSetOfClients | 00_tutorials/12_multiplexing_select_client_server.c:129-236 | The round as an operation on the set of clients: lost are exactly the reported clients whose recv or send returned 0 or an error or who said "quit" or "exit"; the accepted one is gained if and only if the clients, less those below the listener's number that are lost, are fewer than 100 |
| Clients.ServiceLogCount | 00_tutorials/12_multiplexing_select_client_server.c:180-235 | A client served is received from once, sent to once if something came, and closed exactly if one of the two returned 0 or an error or it said "quit" or "exit" |
| SelectTheorems.OpenExactly | 00_tutorials/12_multiplexing_select_client_server.c:129-236 | After every run the open numbers are exactly the listener, the clients in the table and the connections accepted without room for them |
| SelectTheorems.RefusedForGood | 00_tutorials/12_multiplexing_select_client_server.c:161-170 | A connection accepted without room is open to the end of every run, and no call is made on its number any more |
| PollServers.ScannedKeepsTheRest | 00_tutorials/13_multiplexing_poll_client_server.c:161-213 | The scan loses a client if and only if it served it and its connection ended; clients stay distinct |
| PollServers.ServedExactly | 00_tutorials/13_multiplexing_poll_client_server.c:161-213 | For given flags and traffic: a client is served if and only if its slot is flagged or the flagged clients before it that leave are more than the clients behind it that stay |
| PollServers.RoundOnTheSetOfClients | 00_tutorials/13_multiplexing_poll_client_server.c:161-213 | The scan as an operation on the set of clients: lost are exactly those that are served by that rule and whose recv or send returned 0 or an error or who said "quit" or "exit" |
| PollServers.ServedOnce | 00_tutorials/13_multiplexing_poll_client_server.c:161-213 | No client is served twice in a round although slots are looked at again after a swap |
| PollServers.FlaggedAreServed | 00_tutorials/13_multiplexing_poll_client_server.c:161-213 | Every client whose own slot is flagged is served, even if a swap moves it |
| PollServers.JustifiedExactly | 00_tutorials/13_multiplexing_poll_client_server.c:163-181 | Since only fd is copied: every client served was reported, for all traffic, if and only if every client from the first flagged slot on was reported |
| PollServers.JustifiedForTraffic | 00_tutorials/13_multiplexing_poll_client_server.c:163-181 | For given traffic: every client served was reported if and only if every client that the rule names was |
| PollServers.RoundJustifiedExactly | 00_tutorials/13_multiplexing_poll_client_server.c:125-213 | In a round without accept that is so if and only if no unreported client stands behind a reported one |
| PollServers.AcceptingRoundJustifiedExactly | 00_tutorials/13_multiplexing_poll_client_server.c:132-213 | In a round with an accept it is so if and only if no client slot is flagged, the new client's stale flag included |
| PollServers.UnreportedClientServed | 00_tutorials/13_multiplexing_poll_client_server.c:178-181 | A concrete round in which a client that poll did not report is received from |
| PollServers.PollServer.Accept | 00_tutorials/13_multiplexing_poll_client_server.c:132-159 | The accepted client takes the next slot, whose revents stay as they were; with a full array it stays open and untracked |
| PollServers.PollServer.Serve | 00_tutorials/13_multiplexing_poll_client_server.c:163-212 | recv and send on the client of a slot; swap-removal exactly when the connection ended |
| PollServers.PollServer.Scan | 00_tutorials/13_multiplexing_poll_client_server.c:161-213 | The scan terminates and leaves the array and the system calls of its specification, listener in slot 0, clients distinct and open |
| PollServers.PollServer.Round | 00_tutorials/13_multiplexing_poll_client_server.c:123-214 | poll, accept and scan leave the array, the flags of all slots, the open numbers and the calls that the specification of a round gives; a failed accept skips the scan |
| PollServers.NextKeeps | 00_tutorials/13_multiplexing_poll_client_server.c:123-214 | A round keeps the clients distinct and open, and the kernel in agreement with the calls made |
| PollTheorems.RunKeeps | 00_tutorials/13_multiplexing_poll_client_server.c:123-214 | So does every run of rounds |
| PollTheorems.RoundExactly | 00_tutorials/13_multiplexing_poll_client_server.c:123-214 | The whole round as an operation on the set of descriptors: after a failed accept nobody is lost; otherwise the accepted client joins if fewer than 100 slots are in use, and lost are exactly the clients that are served and fail or say "quit" or "exit", itself included |
| PollTheorems.CallsExactly | 00_tutorials/13_multiplexing_poll_client_server.c:161-213 | The calls on each client in a scan: if it is served, one recv, one send if something came, and a close exactly under those conditions; otherwise none |
| PollTheorems.OpenExactly | 00_tutorials/13_multiplexing_poll_client_server.c:123-214 | After every run the open numbers are exactly those in the array and the connections accepted without a slot for them |
| PollTheorems.RefusedForGood | 00_tutorials/13_multiplexing_poll_client_server.c:153-158 | A connection accepted without a slot is open to the end of every run, and no call is made on its number any more |
| DenseArrays.SwapRemovedKeeps | 00_tutorials/13_multiplexing_poll_client_server.c:178-181 | Overwriting with the last entry loses exactly the removed one, repetitions included, and moves no entry but the last |
| DenseArrays.SwapRemovedSet | 01_networking_libraries/openssl/src/ssl_client_server.c:287-291 | On an array without repetitions it loses exactly that element and leaves no repetition |
| TlsServers.AcceptedKeeps | 01_networking_libraries/openssl/src/ssl_client_server.c:229-264 | Accepting, with a failed or a successful handshake or a full table, keeps the pairing of open descriptors and SSL objects and the agreement with the kernel |
| TlsServers.ReadKeeps | 01_networking_libraries/openssl/src/ssl_client_server.c:269-306 | Serving or disconnecting a client keeps them too: the SSL object and the descriptor beside it are used, freed and closed together |
| TlsServers.TlsServer.AcceptClient | 01_networking_libraries/openssl/src/ssl_client_server.c:229-264 | Both arrays after accept: the new pair in slot nfds, or slot nfds empty again after a failed handshake |
| TlsServers.TlsServer.Shake | 01_networking_libraries/openssl/src/ssl_client_server.c:241-263 | SSL_new, SSL_set_fd and SSL_accept in slot nfds, each call recorded where it is made; after a failed handshake descriptor and object are gone and the slot is empty again |
| TlsServers.TlsServer.Overwrite | 01_networking_libraries/openssl/src/ssl_client_server.c:287-291 | The swap moves the last pair into the slot in both arrays and empties the last slot; revents stay behind |
| TlsServers.TlsServer.ReadClient | 01_networking_libraries/openssl/src/ssl_client_server.c:269-306 | SSL_read and SSL_write on slot i, or its removal exactly on disconnection |
| TlsServers.TlsServer.Round | 01_networking_libraries/openssl/src/ssl_client_server.c:214-309 | The scan over the shrinking and growing arrays does what the specification does slot by slot; slots from nfds up hold -1 and NULL |
| TlsServers.TlsServer.Cleanup | 01_networking_libraries/openssl/src/ssl_client_server.c:312-329 | After closing the listener the cleanup loop closes, slot by slot, every positive descriptor and then shuts down and frees the object bound to it; both logs keep that order |
| TlsTheorems.RunKeeps | 01_networking_libraries/openssl/src/ssl_client_server.c:192-309 | After every round of every run: slots below nfds pair each open descriptor with the object created for it, all distinct; nfds stays within 1..MAX_CONNECTION; live objects are exactly those in the table; the logs of descriptors, uses by SSL operations included, and of objects are accepted |
| TlsTheorems.OpenExactly | 01_networking_libraries/openssl/src/ssl_client_server.c:214-309 | After every run the open numbers are exactly those in the table and the connections accepted with a full table or as number 0 |
| TlsTheorems.RefusedForGood | 01_networking_libraries/openssl/src/ssl_client_server.c:231-243 | Such a connection is open to the end of every run, and no call is made on its number any more |
| TlsTheorems.EverySslFreedExactlyOnce | 01_networking_libraries/openssl/src/ssl_client_server.c:312-329 | Every SSL object created in any run is freed exactly once by the end of cleanup |
| TlsTheorems.ReadsAreReported | 01_networking_libraries/openssl/src/ssl_client_server.c:221-271 | Every SSL_read of a round is on a session that this poll reported readable, in the slot it had then |
| TlsTheorems.ReadExactly | 01_networking_libraries/openssl/src/ssl_client_server.c:221-309 | A client is read in a round if and only if poll reported it and its slot plus the number of reported clients before it that end is below the number of sessions, the one accepted included; otherwise a swap has moved it out of the scan's way |
| TlsTheorems.ReportedClientPassedOver | 01_networking_libraries/openssl/src/ssl_client_server.c:221-309 | A run of two accepts and a round in which both clients are reported and gone, and the second is neither read nor closed |
| TlsTheorems.UsedOnlyIfReported | 01_networking_libraries/openssl/src/ssl_client_server.c:269-306 | A client that is read sees one SSL_read and either one SSL_write or, if nothing was read or it said "quit" or "exit", its one free; a client that is not read sees nothing |
| TlsTheorems.DescriptorCallsExactly | 01_networking_libraries/openssl/src/ssl_client_server.c:269-306 | The calls on a client's descriptor in a round are those of its SSL object, and its close comes with the object's free |
| TlsTheorems.RoundOnTheSetOfSessions | 01_networking_libraries/openssl/src/ssl_client_server.c:221-309 | The round as an operation on the set of sessions: lost are exactly the clients that are read and give nothing or say "quit" or "exit", gained exactly the accepted one whose handshake succeeded |
| TlsTheorems.CleanupCallsExactly | 01_networking_libraries/openssl/src/ssl_client_server.c:315-328 | Cleanup closes each positive descriptor of the table once, shuts down and frees each object once, and the shutdown of a client's object uses its descriptor |
| TlsTheorems.CleanupClosesOnceExactly | 01_networking_libraries/openssl/src/ssl_client_server.c:313-321 | Cleanup closes no descriptor twice if and only if the listener's number is not positive: the listener is closed at both places |
| TlsTheorems.CleanupAcceptedExactly | 01_networking_libraries/openssl/src/ssl_client_server.c:312-329 | Cleanup touches no descriptor after its close if and only if no client is tracked, the listener's number is not positive and its own object's shutdown leaves it alone: SSL_shutdown follows the close of the descriptor |
| HttpParsers.LineStream.ReadLine | 01_networking_libraries/my_http_server/http_parser.cpp:15-21 | std::getline on a cursor: the text up to the newline or the end, and the position after it |
| HttpParsers.AddPrinted | 01_networking_libraries/my_http_server/http_parser.cpp:23-39 | A printed header line, carriage return included, adds exactly its key and value to the map |
| HttpParsers.AddKeyed | 01_networking_libraries/my_http_server/http_parser.cpp:23-39 | Any header line with a colon adds the text before the first colon as key and what follows it, less one space, as value |
| HttpParsers.AddUnkeyed | 01_networking_libraries/my_http_server/http_parser.cpp:28-29 | A line without a colon adds nothing |
| HttpParsers.CutOffIsRead | 01_networking_libraries/my_http_server/http_parser.cpp:21-40 | Without a blank line the headers are read to the end of the text, its last line with or without an end |
| HttpParsers.BareNewlineIsSkipped | 01_networking_libraries/my_http_server/http_parser.cpp:21-26 | An empty line without a carriage return does not end the headers |
| HttpParsers.ParseHeaders | 01_networking_libraries/my_http_server/http_parser.cpp:21-40 | The header loop reads the map and stops behind the line that holds only a carriage return |
| HttpParsers.Parse | 01_networking_libraries/my_http_server/http_parser.cpp:7-50 | The whole parser: method, path, headers and the body of the declared length, or the exception that stoi or resize throws |
| HttpParsers.ParsePrinted | 01_networking_libraries/my_http_server/http_parser.cpp:7-50 | Parsing any printed request gives back its method, path and last-wins header map; and the body cut to the length that the last Content-Length declares, or filled up to it with zeros, none without a Content-Length, or what stoi or resize throws (section 2.1 of RFC 9112) |
| HttpParsers.RoundTripExactly | 01_networking_libraries/my_http_server/http_parser.cpp:7-50 | The request comes back whole if and only if its last Content-Length reads as the body's length, or there is none and no body |
| HttpParsers.RoundTripWithDecimalLength | 01_networking_libraries/my_http_server/http_parser.cpp:42-47 | With the length printed in decimal, every request with a body below 2^31 characters comes back whole |
| Text.StoiOfDecimal | 01_networking_libraries/my_http_server/http_parser.cpp:44-44 | What to_string prints stoi reads back, up to the largest int; beyond it stoi throws |
| Text.StoiOfInt | 01_networking_libraries/my_http_server/http_response.cpp:31-31 | What operator<< prints of an int stoi reads back |
| Text.StoiWithTail | 01_networking_libraries/my_http_server/http_parser.cpp:44-44 | stoi reads the digits behind a plus sign and in front of any other text |
| HttpResponses.HTTPResponse.SetBody | 01_networking_libraries/my_http_server/http_response.cpp:17-21 | The text given becomes the body, Content-Length its length in decimal, and nothing else changes |
| HttpResponses.HTTPResponse.ToString | 01_networking_libraries/my_http_server/http_response.cpp:28-40 | The printed message for any iteration order of the header map |
| HttpResponses.MessageOfHistory | 01_networking_libraries/my_http_server/http_response.cpp:12-51 | The printed message told from any history of setters alone: status and reason of the last set_status, each key set with the value of its last setter, and length and text of the last set_body |
| HttpResponses.BodyFollowsTheBlankLine | 01_networking_libraries/my_http_server/http_response.cpp:28-40 | The first blank line is followed by exactly the body, whatever the body holds |
| HttpResponses.DeclaredInMessage | 01_networking_libraries/my_http_server/http_response.cpp:32-36 | The Content-Length values of the printed message are exactly the stored one, if any, those forged by keys that begin with "Content-Length:", and that of the body |
| HttpResponses.LengthsAgreeExactly | 01_networking_libraries/my_http_server/http_response.cpp:32-36 | All printed lengths read back as the body's length if and only if the stored one, if any, and every forged one do |
| HttpResponses.ForgedLengthDeclared | 01_networking_libraries/my_http_server/http_response.cpp:23-35 | A setter without CR, LF or the key Content-Length after which the message of an empty body declares 7 |
| HttpResponses.MessageIsFramed | 01_networking_libraries/my_http_server/http_response.cpp:12-40 | After any history of setters whose header keys and values hold no CR or LF and whose keys are not Content-Length, in any iteration order: the first blank line is followed by exactly the text of the last set_body, and every printed length reads back as its length if and only if every forged one does (section 6.3 of RFC 9112) |
| HttpResponses.ParserReadsTheBody | 01_networking_libraries/my_http_server/http_parser.cpp:7-50 | From any response whose headers hold no CR or LF the project's own parser reads the status and exactly the body; and the header map, with the printed length, if and only if apart from Content-Length no key holds a colon and no value begins with a space |
| HttpClients.SendAll | 00_tutorials/07_http_redirection.c:89-100 | The send loop: what goes out are the pieces that the sends accepted, one behind the other, each asked for the rest; it ends when all is out or at the first send that returns 0 or an error |
| HttpClients.ReceiveAll | 00_tutorials/07_http_redirection.c:110-117 | The receive loop: the buffer holds the pieces of the stream that the receives brought, at most 1024 characters, zeros behind them, and the receive after them returned 0 or an error |
| HttpClients.SentExactly | 00_tutorials/07_http_redirection.c:89-100 | How much of n characters goes out, told from the results of send alone: m if and only if there is a chain of positive results, each of a send of the rest, that sums to m and is followed by a result of 0 or an error, or by none when m is n |
| HttpClients.ReceivedExactly | 00_tutorials/07_http_redirection.c:110-117 | The same for what comes in, from the results of recv |
| HttpClients.RequestIsPrinted | 00_tutorials/07_http_redirection.c:86-86 | The request is an instance of the printed requests of the parser's round trip, with an empty body |
| HttpClients.RequestReadsBackExactly | 00_tutorials/07_http_redirection.c:86-86 | The parser reads the request back, host and path, if and only if the host holds no newline |
| HttpClients.HttpClient.Fetch | 00_tutorials/07_http_redirection.c:33-124 | One attempt: descriptors, transferred characters, the caller's buffer and the answer for each way it can end |
| HttpClients.HttpClient.Transfer | 00_tutorials/07_http_redirection.c:86-124 | On a connected socket: the pieces sent are recorded and the socket closed if they are not the whole request; otherwise the answer is received and copied to the caller |
| HttpClients.HttpClient.Conclude | 00_tutorials/07_http_redirection.c:126-147 | The end of one attempt: the request to the new host, or the closing of the connection and 200 |
| HttpClients.HttpClient.Perform | 00_tutorials/07_http_redirection.c:26-148 | The recursive function as a whole: result, buffer, descriptors left open, all transfers |
| HttpClients.HttpClient.PerformAll | 00_tutorials/07_http_redirection.c:150-168 | Requests made one after another into one buffer: descriptors, transfers and buffer are those of the sequence of runs |
| HttpClientTheorems.HopsFollowLocations | 00_tutorials/07_http_redirection.c:126-142 | At most 6 requests, the first to the given host, each later one for / at the host that the answer before it names |
| HttpClientTheorems.CodeExactly | 00_tutorials/07_http_redirection.c:26-148 | The result is 404, 200 or -1 and never 301: 404 if and only if all of one and five further requests were redirected, 200 if and only if the last was answered, -1 if and only if it failed |
| HttpClientTheorems.GivesUpExactly | 00_tutorials/07_http_redirection.c:50-108 | The client gives up with -1 if and only if for its last request there was no address, no socket or no connection, or the chain of sends stopped short of the whole request; told from the results of the calls |
| HttpClientTheorems.AttemptExactly | 00_tutorials/07_http_redirection.c:50-108 | A request gets an answer if and only if none of those happens |
| HttpClientTheorems.AnswerExactly | 00_tutorials/07_http_redirection.c:110-139 | The answer is the text that a chain of receives brought in on that socket, and it is a redirection if and only if it names a host |
| HttpClientTheorems.HopsAreAttempts | 00_tutorials/07_http_redirection.c:26-148 | Every request of a run is such an attempt on its own network, with the host and path of its place in the chain |
| HttpClientTheorems.WireExactly | 00_tutorials/07_http_redirection.c:89-108 | What goes out on a connected socket are the pieces that its sends accepted, the whole request or not; without a connection nothing goes out |
| HttpClientTheorems.CallsOfAnAttempt | 00_tutorials/07_http_redirection.c:62-108 | The calls of an attempt on its socket, told from the results: it is closed at once exactly if the request could not be asked |
| HttpClientTheorems.OneSocketLeftOpenPerRedirection | 00_tutorials/07_http_redirection.c:138-147 | Every socket is closed exactly once, except that each redirection followed leaves exactly its own socket open |
| HttpClientTheorems.EachByteFromTheLastAnswerReachingIt | 00_tutorials/07_http_redirection.c:121-124 | Each position of the caller's buffer holds the character of the last answer long enough to reach it: a short last answer leaves the tail of an earlier one |
| HttpClientTheorems.EachByteOverCalls | 00_tutorials/07_http_redirection.c:150-168 | The same over any sequence of requests into one buffer, which is never cleared between them |
| HttpClientTheorems.StaleTailShown | 00_tutorials/07_http_redirection.c:121-124 | A network on which a redirection with a long answer is followed by a short one: the buffer shows the short answer and the tail of the long one |
| HttpClientTheorems.RedirectedRequestsWentOutWhole | 00_tutorials/07_http_redirection.c:102-108 | Every request that got an answer went out whole on its own socket, in order |
| HttpClientTheorems.LocationExactly | 00_tutorials/07_http_redirection.c:126-139 | For a header line behind whole lines: the new host is its value if and only if the text "301 Moved Permanently" occurs anywhere in the answer and the lines before the header hold no "Location: ", or hold the same value at the first one |
| HttpClientTheorems.LocationTaken | 00_tutorials/07_http_redirection.c:126-139 | What an answer holding that text redirects to: the header's value, or, when the lines before it hold a "Location: ", the text from the first one to the end of its line |
| HttpClientTheorems.TargetExactly | 00_tutorials/07_http_redirection.c:126-139 | For any text: the client redirects to a host if and only if "301 Moved Permanently" occurs and the host stands between the first "Location: " and the first line end behind it |
| HttpClientTheorems.NulEndsTheText | 00_tutorials/07_http_redirection.c:126-133 | What follows a zero in an answer is not looked at |
| HttpClientTheorems.TextInBodyRedirects | 00_tutorials/07_http_redirection.c:126-139 | A 200 answer whose body holds that text and a Location line redirects to the body's host |
| HttpClientTheorems.ContentLocationIsTaken | 00_tutorials/07_http_redirection.c:129-133 | A Content-Location line before the Location line is taken for it |

## Left out

- WorkerPool: modelled on values as an interleaving of atomic steps, since threads share memory; the linked queue is a sequence, and the contents of messages are reduced to whether "ping" was found.
- WorkerPool: a failed allocation, accept or thread creation ends the process in one step; in the code the worker threads run on for the moment until `exit`.
- WorkerPool: fairness of the scheduler and of the mutex is not assumed; progress is stated as a bound on runs without a dequeue and as absence of deadlock.
- TimerServers.TimerServer.Round: takes for granted that accept and the creation of the timer succeed, which the code does not test (server.c:77-79), and that the initial malloc does; the STAILQ is a sequence. What failures of the two do is proved in TimerFailures, on values, with every allocation successful and the results of later calls on negative numbers left out, as the code ignores them.
- FdBuffers.FdBuffer.RemoveFd: promises nothing of the array after the shrinking realloc, which is then asked for 0 bytes.
- TimerServers.TimerServer.AcceptConnection: descriptor numbers are below 2^28 - 1, so that fewer than 2^28 entries are in the array at once and the shrinking realloc is never reached.
- TimerServers.TimerServer.InsertPair: from a full array of 2^30 entries on, where doubling the capacity overflows an int, nothing is promised; the length is odd before and the capacity even, as it is in every round.
- TimerTheorems.SurvivorsWereActive: the events of a round are handled, and their timers armed, at one time; a timer is reported from exactly TIMEOUT after its last arming; failures of timerfd_settime, which the code ignores, are not modelled.
- SelectServers.SelectServer.Round: accept returns a number that is not zero (zero marks a free table entry) and is below FD_SETSIZE, as the fd_set demands. A failing select, after which the code goes on with the set it asked about, is the case in which all of that set is reported.
- PollServers.PollServer.Round: the blocking of accept, recv and send is not modelled; neither is poll's failure, which ends the loop.
- TlsServers.TlsServer.Cleanup: whether SSL_shutdown of the listener's object, which never does a handshake, touches its descriptor is a parameter.
- TlsServers: SSL objects are identities with a log of uses and frees; handshakes and encryption are not modelled, nor are failures of SSL_new.
- HttpParsers.Parse: strings are sequences of characters, without encodings or memory limits of std::string.
- HttpClients.HttpClient.Perform: the fixed buffers are sequences, so a request or host longer than MESSAGE_SIZE and a full response buffer without a terminating zero are not treated as overruns; name resolution, socket and connect are results only.
- Fixed-size C buffers and terminator writes everywhere, printing and logging, `shutdown` before `close`, socket setup, and all clients but the redirecting one.
- `delete_connection` of server.h, which is never called; http_server.cpp and http_router.cpp; the other tutorials and the libcurl and OpenSSL client programs.
