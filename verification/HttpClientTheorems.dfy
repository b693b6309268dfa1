/** Theorems about every run of the redirect-following client, whatever the network does. */
module HttpClientTheorems {
  import opened Wrappers
  import opened Descriptors
  import opened Text
  import opened HttpClients

  /** The requests that are still allowed: one and five redirections. */
  function Allowed(redirects: nat): nat { if redirects > 5 then 0 else 6 - redirects }

  predicate AllRedirected(hops: seq<Hop>) { forall i :: 0 <= i < |hops| ==> hops[i].attempt.Redirected? }

  /** The second request asks the host that the answer to the first one names, for "/". */
  predicate Follows(hop: Hop, next: Hop) {
    && hop.attempt.Redirected? && LocationOf(hop.attempt.text) == Some(hop.attempt.target)
    && next.host == hop.attempt.target && next.path == "/"
  }

  ghost predicate FollowsLocations(hops: seq<Hop>) {
    forall i, j :: 0 <= i < |hops| && 0 <= j < |hops| && j == i + 1 ==> Follows(hops[i], hops[j])
  }

  lemma FollowsCons(hop: Hop, hops: seq<Hop>)
    requires FollowsLocations(hops) && (hops != [] ==> Follows(hop, hops[0]))
    ensures FollowsLocations([hop] + hops)
  {
    hide Follows;
    var all := [hop] + hops;
    forall i, j | 0 <= i < j < |all| && j == i + 1 ensures Follows(all[i], all[j]) {
      if i > 0 {
        assert all[i] == hops[i - 1] && all[j] == hops[j - 1];
      }
    }
  }

  lemma HopsStep(net: nat -> Exchange, live: set<int>, host: string, path: string, response: seq<char>, redirects: nat)
    requires Net(net) && redirects <= MAX_REDIRECTION
    ensures var a := Try(net(redirects), live, host, path);
            var run := Run(net, live, host, path, response, redirects);
            var next := Next(net, live, response, redirects, a);
            run.code == next.code && run.hops == [Hop(host, path, live, a)] + next.hops
  {
    hide Kernel, Try;
    RunStep(net, live, host, path, response, redirects);
    hide *;
  }

  lemma LogStep(net: nat -> Exchange, live: set<int>, host: string, path: string, response: seq<char>, redirects: nat)
    requires Net(net) && redirects <= MAX_REDIRECTION
    ensures var a := Try(net(redirects), live, host, path);
            var run := Run(net, live, host, path, response, redirects);
            var next := Next(net, live, response, redirects, a);
            run.log == Events(a) + next.log && LeftOpen(run.hops) == (if a.Redirected? then {a.sock} else {}) + LeftOpen(next.hops)
  {
    hide Kernel, Try;
    RunStep(net, live, host, path, response, redirects);
    hide *;
  }

  lemma WiresStep(net: nat -> Exchange, live: set<int>, host: string, path: string, response: seq<char>, redirects: nat)
    requires Net(net) && redirects <= MAX_REDIRECTION
    ensures var a := Try(net(redirects), live, host, path);
            var run := Run(net, live, host, path, response, redirects);
            var next := Next(net, live, response, redirects, a);
            run.wires == Sent(a, HttpRequest(host, path)) + next.wires
  {
    hide Kernel, Try;
    RunStep(net, live, host, path, response, redirects);
    hide *;
  }

  /** At most the allowed number of requests, each to the host that the answer before it named. */
  lemma {:induction false} HopsFollowLocations(net: nat -> Exchange, live: set<int>, host: string, path: string,
                                               response: seq<char>, redirects: nat)
    requires Net(net)
    ensures var hops := Run(net, live, host, path, response, redirects).hops;
            && |hops| <= Allowed(redirects) && FollowsLocations(hops)
            && (redirects <= MAX_REDIRECTION ==> hops != [] && hops[0].host == host && hops[0].path == path)
    decreases MAX_REDIRECTION + 1 - redirects
  {
    hide Try, LocationOf, Stored, Kernel, HttpRequest, Sent, Events, Run, FollowsLocations;
    if redirects <= MAX_REDIRECTION {
      var a := Try(net(redirects), live, host, path);
      HopsStep(net, live, host, path, response, redirects);
      if a.Redirected? {
        HopsFollowLocations(net, live + {a.sock}, a.target, "/", Stored(a, response), redirects + 1);
      } else {
        NothingFollows();
      }
      FollowsCons(Hop(host, path, live, a), Next(net, live, response, redirects, a).hops);
    } else {
      RunStops(net, live, host, path, response, redirects);
      NothingFollows();
    }
  }

  lemma NothingFollows()
    ensures FollowsLocations([])
  {
  }

  /**
   What the result means: 404 exactly when every allowed request was redirected,
   200 exactly when the last one was answered, -1 exactly when it failed; never 301.
   */
  lemma {:induction false} CodeExactly(net: nat -> Exchange, live: set<int>, host: string, path: string,
                                       response: seq<char>, redirects: nat)
    requires Net(net)
    ensures var run := Run(net, live, host, path, response, redirects);
            && run.code in {404, 200, -1}
            && (run.code == 404 <==> |run.hops| == Allowed(redirects) && AllRedirected(run.hops))
            && (run.code == 200 <==> run.hops != [] && run.hops[|run.hops| - 1].attempt.Answered?)
            && (run.code == -1 <==> run.hops != [] && !Got(run.hops[|run.hops| - 1].attempt))
    decreases MAX_REDIRECTION + 1 - redirects
  {
    hide Try, Stored, Kernel, HttpRequest, Sent, Events, Run, AllRedirected;
    NoneRedirected();
    if redirects <= MAX_REDIRECTION {
      var a := Try(net(redirects), live, host, path);
      HopsStep(net, live, host, path, response, redirects);
      if a.Redirected? {
        CodeExactly(net, live + {a.sock}, a.target, "/", Stored(a, response), redirects + 1);
      }
      RedirectedCons(Hop(host, path, live, a), Next(net, live, response, redirects, a).hops);
    } else {
      RunStops(net, live, host, path, response, redirects);
    }
  }

  // ---------------------------------------------------------------- one request, told from the network

  /** No address, no socket, no connection, or a chain of sends that stops before all n characters are out. */
  ghost predicate CannotAsk(ex: Exchange, live: set<int>, n: nat) {
    || !ex.resolves || ex.socket(live).None? || !ex.connects
    || exists sends :: EndsAfter(ex.accepts, n, sends) && Sum(sends) < n
  }

  /** The text that a chain of receives brings in. */
  ghost predicate Arrives(ex: Exchange, text: string) {
    exists chunks :: EndsAfter(ex.arrives, 1024, chunks) && Sum(chunks) <= |ex.stream| && text == ex.stream[..Sum(chunks)]
  }

  /** An attempt gets an answer exactly when the request can be asked. */
  lemma AttemptExactly(ex: Exchange, live: set<int>, host: string, path: string)
    requires Kernel(ex)
    ensures Got(Try(ex, live, host, path)) <==> !CannotAsk(ex, live, |HttpRequest(host, path)|)
  {
    hide HttpRequest, LocationOf, EndsAfter, Sum, Kernel;
    var n := |HttpRequest(host, path)|;
    SentExactly(ex, n, SentFrom(ex, n, 0));
    if sends :| EndsAfter(ex.accepts, n, sends) && Sum(sends) < n {
      SentExactly(ex, n, Sum(sends));
    }
  }

  /** The answer is the text that came in on the new socket, and its Location decides whether it is a redirection. */
  lemma AnswerExactly(ex: Exchange, live: set<int>, host: string, path: string)
    requires Kernel(ex) && Got(Try(ex, live, host, path))
    ensures var a := Try(ex, live, host, path);
            && Some(a.sock) == ex.socket(live) && Arrives(ex, a.text)
            && (if a.Redirected? then LocationOf(a.text) == Some(a.target) else LocationOf(a.text) == None)
  {
    hide HttpRequest, LocationOf, EndsAfter, Sum, Kernel, SentFrom;
    ReceivedExactly(ex, ReceivedFrom(ex, 0));
  }

  /** What goes out in an attempt: on a connected socket, the pieces of the request that the sends accepted. */
  lemma WireExactly(ex: Exchange, live: set<int>, host: string, path: string)
    requires Kernel(ex)
    ensures var wires, request := Sent(Try(ex, live, host, path), HttpRequest(host, path)), HttpRequest(host, path);
            if ex.resolves && ex.socket(live).Some? && ex.connects then
              exists sends :: EndsAfter(ex.accepts, |request|, sends)
                              && wires == [Wire(ex.socket(live).value, Pieces(request, sends))]
            else wires == []
  {
    hide HttpRequest, LocationOf, EndsAfter, Sum, Kernel, Pieces;
    var request := HttpRequest(host, path);
    SentExactly(ex, |request|, SentFrom(ex, |request|, 0));
    var sends :| EndsAfter(ex.accepts, |request|, sends) && Sum(sends) == SentFrom(ex, |request|, 0);
    PiecesArePrefix(request, sends);
    assert request[..|request|] == request;
  }

  /**
   The calls of an attempt on its socket: it is opened and connected, sent on if connected, received from if the whole
   request is out, and closed here only if it could not be asked.
   */
  lemma CallsOfAnAttempt(ex: Exchange, live: set<int>, host: string, path: string)
    requires Kernel(ex)
    ensures var a, asked := Try(ex, live, host, path), !CannotAsk(ex, live, |HttpRequest(host, path)|);
            if !ex.resolves || ex.socket(live).None? then Events(a) == []
            else
              var s := ex.socket(live).value;
              Events(a) == [Open(s), Use(s)] + (if ex.connects then [Use(s)] else []) + (if asked then [Use(s)] else [Close(s)])
  {
    AttemptExactly(ex, live, host, path);
    hide HttpRequest, LocationOf, CannotAsk, Kernel, SentFrom, ReceivedFrom;
  }

  /** The hops of a run are attempts on the networks of its requests, one after the other. */
  lemma {:induction false} HopsAreAttempts(net: nat -> Exchange, live: set<int>, host: string, path: string,
                                           response: seq<char>, redirects: nat, i: nat)
    requires Net(net) && i < |Run(net, live, host, path, response, redirects).hops|
    ensures var hop := Run(net, live, host, path, response, redirects).hops[i];
            Kernel(net(redirects + i)) && hop.attempt == Try(net(redirects + i), hop.live, hop.host, hop.path)
    decreases MAX_REDIRECTION + 1 - redirects
  {
    hide Try, Stored, Kernel, HttpRequest, Sent, Events, Run, Next, LeftOpen;
    if redirects <= MAX_REDIRECTION {
      var a := Try(net(redirects), live, host, path);
      HopsStep(net, live, host, path, response, redirects);
      if i > 0 {
        NoMoreHops(net, live, response, redirects, a);
        var next := Next(net, live, response, redirects, a);
        HopsAreAttempts(net, live + {a.sock}, a.target, "/", Stored(a, response), redirects + 1, i - 1);
        assert ([Hop(host, path, live, a)] + next.hops)[i] == next.hops[i - 1];
      }
    } else {
      RunStops(net, live, host, path, response, redirects);
    }
  }

  lemma NoMoreHops(net: nat -> Exchange, live: set<int>, response: seq<char>, redirects: nat, a: Attempt)
    requires Net(net)
    ensures if a.Redirected? then
              Next(net, live, response, redirects, a) == Run(net, live + {a.sock}, a.target, "/", Stored(a, response), redirects + 1)
            else Next(net, live, response, redirects, a).hops == []
  {
    hide Run, Stored;
  }

  /** The client gives up with -1 exactly when its last request cannot be asked, told from the results of the calls. */
  lemma GivesUpExactly(net: nat -> Exchange, live: set<int>, host: string, path: string, response: seq<char>, redirects: nat)
    requires Net(net)
    ensures var run := Run(net, live, host, path, response, redirects);
            run.code == -1 <==>
            run.hops != [] &&
            var last := run.hops[|run.hops| - 1];
            CannotAsk(net(redirects + |run.hops| - 1), last.live, |HttpRequest(last.host, last.path)|)
  {
    var run := Run(net, live, host, path, response, redirects);
    CodeExactly(net, live, host, path, response, redirects);
    hide Run, Try, HttpRequest, CannotAsk, Got;
    if run.hops != [] {
      var n := |run.hops| - 1;
      var last := run.hops[n];
      HopsAreAttempts(net, live, host, path, response, redirects, n);
      AttemptExactly(net(redirects + n), last.live, last.host, last.path);
    }
  }

  lemma NoneRedirected()
    ensures AllRedirected([])
  {
  }

  lemma RedirectedCons(hop: Hop, hops: seq<Hop>)
    ensures AllRedirected([hop] + hops) <==> hop.attempt.Redirected? && AllRedirected(hops)
  {
    var all := [hop] + hops;
    assert all[0] == hop;
    assert forall i :: 0 <= i < |hops| ==> hops[i] == all[i + 1];
  }

  function Redirections(hops: seq<Hop>): nat {
    if hops == [] then 0 else Bit(hops[0].attempt.Redirected?) + Redirections(hops[1..])
  }

  /** One descriptor stays open for every redirection followed, and no other: each socket is closed once or left open. */
  lemma {:induction false} OneSocketLeftOpenPerRedirection(net: nat -> Exchange, live: set<int>, host: string,
                                                           path: string, response: seq<char>, redirects: nat)
    requires Net(net)
    ensures var run := Run(net, live, host, path, response, redirects);
            && Replay(live, run.log) == Some(live + LeftOpen(run.hops))
            && LeftOpen(run.hops) !! live && |LeftOpen(run.hops)| == Redirections(run.hops)
    decreases MAX_REDIRECTION + 1 - redirects
  {
    hide Try, Stored, Kernel, HttpRequest, Sent, Run, LeftOpen, Redirections, Replay, Events;
    NothingOpen(live);
    if redirects <= MAX_REDIRECTION {
      var a := Try(net(redirects), live, host, path);
      HopsStep(net, live, host, path, response, redirects);
      LogStep(net, live, host, path, response, redirects);
      var hop, next := Hop(host, path, live, a), Next(net, live, response, redirects, a);
      RedirectionsCons(hop, next.hops);
      if a.Redirected? {
        OneSocketLeftOpenPerRedirection(net, live + {a.sock}, a.target, "/", Stored(a, response), redirects + 1);
        RedirectReplays(live, a, next.log, LeftOpen(next.hops));
      } else {
        EndReplays(live, a, next.log);
      }
    } else {
      RunStops(net, live, host, path, response, redirects);
    }
  }

  /** The calls of one attempt are on its open socket. */
  lemma EventsReplay(live: set<int>, a: Attempt)
    requires !a.Unconnected? ==> a.sock !in live
    ensures Replay(live, Events(a)) == Some(if Got(a) then live + {a.sock} else live)
  {
    if !a.Unconnected? {
      var s := a.sock;
      ReplayOne(live, Open(s));
      hide Replay;
      var one := [Open(s)] + [Use(s)];
      ReplayAppend(live, [Open(s)], Use(s));
      ReplayAppend(live, one, Use(s));
      ReplayAppend(live, one, Close(s));
      ReplayAppend(live, one + [Use(s)], Use(s));
      ReplayAppend(live, one + [Use(s)], Close(s));
      assert live + {s} - {s} == live;
    }
  }

  lemma RedirectReplays(live: set<int>, a: Attempt, log: seq<Event>, more: set<int>)
    requires a.Redirected? && a.sock !in live
    requires Replay(live + {a.sock}, log) == Some(live + {a.sock} + more) && more !! live + {a.sock}
    ensures Replay(live, Events(a) + log) == Some(live + ({a.sock} + more)) && |{a.sock} + more| == 1 + |more|
  {
    EventsReplay(live, a);
    hide Replay, Events;
    var sock := a.sock;
    ReplayConcat(live, Events(a), log);
    assert live + {sock} + more == live + ({sock} + more);
    assert sock in {sock} + more && {sock} + more - {sock} == more;
  }

  lemma EndReplays(live: set<int>, a: Attempt, log: seq<Event>)
    requires !a.Redirected? && log == (if a.Answered? then [Close(a.sock)] else [])
    requires !a.Unconnected? ==> a.sock !in live
    ensures Replay(live, Events(a) + log) == Some(live)
  {
    EventsReplay(live, a);
    hide Replay, Events;
    if a.Answered? {
      ReplayAppend(live, Events(a), Close(a.sock));
      assert live + {a.sock} - {a.sock} == live;
    } else {
      assert Events(a) + [] == Events(a);
    }
  }

  lemma NothingOpen(live: set<int>)
    ensures LeftOpen([]) == {} && Redirections([]) == 0 && Replay(live, []) == Some(live) && live + {} == live
  {
  }

  lemma RedirectionsCons(hop: Hop, hops: seq<Hop>)
    ensures Redirections([hop] + hops) == Bit(hop.attempt.Redirected?) + Redirections(hops)
  {
    assert ([hop] + hops)[1..] == hops;
  }

  /** A close among the calls of one attempt ends it. */
  lemma CloseEndsAttempt(a: Attempt, log: seq<Event>, i: nat)
    requires i < |Events(a) + log| && (Events(a) + log)[i].Close?
    requires !a.Redirected? ==> log == if a.Answered? then [Close(a.sock)] else []
    ensures if a.Redirected? then i >= |Events(a)| && log[i - |Events(a)|].Close? else i == |Events(a) + log| - 1
  {
  }

  /** In one call a close is the last thing that happens: a failed or answered request ends the recursion. */
  lemma {:induction false} NothingFollowsAClose(net: nat -> Exchange, live: set<int>, host: string, path: string,
                                                response: seq<char>, redirects: nat, i: nat)
    requires Net(net) && i < |Run(net, live, host, path, response, redirects).log|
    requires Run(net, live, host, path, response, redirects).log[i].Close?
    ensures i == |Run(net, live, host, path, response, redirects).log| - 1
    decreases MAX_REDIRECTION + 1 - redirects
  {
    hide Try, Stored, Kernel, HttpRequest, Sent, Run, LeftOpen, Events;
    if redirects <= MAX_REDIRECTION {
      var a := Try(net(redirects), live, host, path);
      LogStep(net, live, host, path, response, redirects);
      CloseEndsAttempt(a, Next(net, live, response, redirects, a).log, i);
      if a.Redirected? {
        NothingFollowsAClose(net, live + {a.sock}, a.target, "/", Stored(a, response), redirects + 1, i - |Events(a)|);
      }
    } else {
      RunStops(net, live, host, path, response, redirects);
    }
  }

  // ---------------------------------------------------------------- several calls

  lemma {:induction false} RedirectionsConcat(a: seq<Hop>, b: seq<Hop>)
    ensures Redirections(a + b) == Redirections(a) + Redirections(b)
    decreases |a|
  {
    if a == [] {
      assert a + b == b;
    } else {
      RedirectionsConcat(a[1..], b);
      assert (a + b)[1..] == a[1..] + b;
    }
  }

  /** Over any sequence of calls every call on a socket is on an open one, and each redirection leaves one more open. */
  lemma {:induction false} CallsReplay(calls: seq<Call>, live: set<int>, response: seq<char>)
    requires Fair(calls)
    ensures var session := Requests(calls, Trail(live, [], []), response);
            && Replay(live, session.trail.log) == Some(session.trail.live)
            && live <= session.trail.live && |session.trail.live| == |live| + Redirections(session.hops)
  {
    hide Run, Net, LeftOpen, Redirections, Replay;
    NothingOpen(live);
    if calls != [] {
      var front, call := calls[..|calls| - 1], calls[|calls| - 1];
      CallsReplay(front, live, response);
      var before := Requests(front, Trail(live, [], []), response);
      var run := Run(call.net, before.trail.live, call.host, call.path, before.response, 0);
      assert Net(call.net);
      OneSocketLeftOpenPerRedirection(call.net, before.trail.live, call.host, call.path, before.response, 0);
      ReplayConcat(live, before.trail.log, run.log);
      RedirectionsConcat(before.hops, run.hops);
      DisjointSize(before.trail.live, LeftOpen(run.hops));
    }
  }

  lemma DisjointSize(a: set<int>, b: set<int>)
    requires a !! b
    ensures |a + b| == |a| + |b|
  {
  }

  /** Over any sequence of calls no socket is connected, sent on, received from or closed after its close. */
  lemma SocketTouchedOnlyAfterReopen(calls: seq<Call>, live: set<int>, response: seq<char>, i: nat, k: nat, fd: int)
    requires Fair(calls)
    requires var log := Requests(calls, Trail(live, [], []), response).trail.log;
             i < k < |log| && log[i] == Close(fd) && log[k] in {Use(fd), Close(fd)}
    ensures exists j :: i < j < k && Requests(calls, Trail(live, [], []), response).trail.log[j] == Open(fd)
  {
    hide Requests;
    CallsReplay(calls, live, response);
    TouchedOnlyAfterReopen(live, Requests(calls, Trail(live, [], []), response).trail.log, i, k, fd);
  }

  // ---------------------------------------------------------------- the caller's buffer

  function LengthOf(a: Attempt): nat { if Got(a) then |a.text| else 0 }

  /** The last hop whose answer reaches position p. */
  function LastReaching(hops: seq<Hop>, p: nat): (r: Option<nat>)
    ensures r.Some? ==> r.value < |hops| && p < LengthOf(hops[r.value].attempt)
    ensures forall i :: 0 <= i < |hops| && p < LengthOf(hops[i].attempt) ==> r.Some? && i <= r.value
  {
    if hops == [] then None
    else
      match LastReaching(hops[1..], p)
      case Some(k) => Some(k + 1)
      case None =>
        assert forall i :: 0 < i < |hops| ==> hops[i] == hops[1..][i - 1];
        if p < LengthOf(hops[0].attempt) then Some(0) else None
  }

  lemma LastReachingCons(hop: Hop, hops: seq<Hop>, p: nat)
    ensures LastReaching([hop] + hops, p) ==
            match LastReaching(hops, p)
            case Some(k) => Some(k + 1)
            case None => if p < LengthOf(hop.attempt) then Some(0) else None
  {
    assert ([hop] + hops)[1..] == hops;
  }

  lemma StoredByte(a: Attempt, response: seq<char>, p: nat)
    requires p < |response| && (Got(a) ==> |a.text| <= |response|)
    ensures Stored(a, response)[p] == if p < LengthOf(a) then a.text[p] else response[p]
  {
  }

  lemma ResponseStep(net: nat -> Exchange, live: set<int>, host: string, path: string, response: seq<char>, redirects: nat)
    requires Net(net) && redirects <= MAX_REDIRECTION
    ensures var a := Try(net(redirects), live, host, path);
            var run := Run(net, live, host, path, response, redirects);
            var next := Next(net, live, response, redirects, a);
            && run.response == next.response
            && (!a.Redirected? ==> next.response == Stored(a, response) && next.hops == [])
  {
    hide Kernel, Try;
    RunStep(net, live, host, path, response, redirects);
  }

  /**
   What the caller's buffer holds after the run: at each position the character of the last answer
   long enough to reach it.  A short last answer therefore leaves the tail of an earlier one.
   */
  lemma {:induction false} EachByteFromTheLastAnswerReachingIt(net: nat -> Exchange, live: set<int>, host: string,
      path: string, response: seq<char>, redirects: nat, p: nat)
    requires Net(net) && MESSAGE_SIZE <= |response| && p < |response|
    ensures var run := Run(net, live, host, path, response, redirects);
            && |run.response| == |response|
            && run.response[p] == match LastReaching(run.hops, p)
                                  case None => response[p]
                                  case Some(i) => run.hops[i].attempt.text[p]
    decreases MAX_REDIRECTION + 1 - redirects
  {
    hide Kernel, HttpRequest, Sent, LocationOf, Try, Run, Stored, LastReaching;
    assert LastReaching([], p) == None;
    if redirects <= MAX_REDIRECTION {
      var a := Try(net(redirects), live, host, path);
      TextFits(net(redirects), live, host, path);
      HopsStep(net, live, host, path, response, redirects);
      ResponseStep(net, live, host, path, response, redirects);
      StoredByte(a, response, p);
      LastReachingCons(Hop(host, path, live, a), Next(net, live, response, redirects, a).hops, p);
      if a.Redirected? {
        EachByteFromTheLastAnswerReachingIt(net, live + {a.sock}, a.target, "/", Stored(a, response), redirects + 1, p);
      }
    } else {
      RunStops(net, live, host, path, response, redirects);
    }
  }

  lemma {:induction false} LastReachingConcat(a: seq<Hop>, b: seq<Hop>, p: nat)
    ensures LastReaching(a + b, p) ==
            match LastReaching(b, p) case Some(k) => Some(|a| + k) case None => LastReaching(a, p)
    decreases |a|
  {
    hide LastReaching, LengthOf;
    if a == [] {
      NothingReaches(p);
      assert a + b == b;
    } else {
      LastReachingConcat(a[1..], b, p);
      LastReachingCons(a[0], a[1..] + b, p);
      LastReachingCons(a[0], a[1..], p);
      assert a + b == [a[0]] + (a[1..] + b) && a == [a[0]] + a[1..];
    }
  }

  /** The same over a sequence of calls into one buffer: a short answer may show the tail of an earlier call's. */
  lemma {:induction false} EachByteOverCalls(calls: seq<Call>, t: Trail, response: seq<char>, p: nat)
    requires Fair(calls) && MESSAGE_SIZE <= |response| && p < |response|
    ensures var session := Requests(calls, t, response);
            && |session.response| == |response|
            && session.response[p] == match LastReaching(session.hops, p)
                                      case None => response[p]
                                      case Some(i) => session.hops[i].attempt.text[p]
  {
    hide Run, Net, LastReaching, Extend, LeftOpen;
    if calls == [] {
      assert LastReaching([], p) == None by {
        NothingReaches(p);
      }
    } else {
      var front, call := calls[..|calls| - 1], calls[|calls| - 1];
      EachByteOverCalls(front, t, response, p);
      var before := Requests(front, t, response);
      assert Net(call.net);
      EachByteFromTheLastAnswerReachingIt(call.net, before.trail.live, call.host, call.path, before.response, 0, p);
      LastReachingConcat(before.hops, Run(call.net, before.trail.live, call.host, call.path, before.response, 0).hops, p);
    }
  }

  lemma NothingReaches(p: nat)
    ensures LastReaching([], p) == None
  {
  }

  lemma TextFits(ex: Exchange, live: set<int>, host: string, path: string)
    requires Kernel(ex)
    ensures var a := Try(ex, live, host, path); Got(a) ==> |a.text| <= MESSAGE_SIZE && a.text <= ex.stream
  {
    hide Kernel, LocationOf, HttpRequest;
  }

  // ---------------------------------------------------------------- what goes out

  /** Request i of a run, if it got an answer, went out whole as transfer i. */
  predicate WentOut(hops: seq<Hop>, wires: seq<Wire>, i: nat) {
    && |wires| <= |hops|
    && (i < |hops| && Got(hops[i].attempt) ==>
          i < |wires| && wires[i] == Wire(hops[i].attempt.sock, HttpRequest(hops[i].host, hops[i].path)))
  }

  lemma WentOutStep(hop: Hop, hops: seq<Hop>, sent: seq<Wire>, wires: seq<Wire>, i: nat)
    requires |sent| <= 1 && (Got(hop.attempt) ==> sent == [Wire(hop.attempt.sock, HttpRequest(hop.host, hop.path))])
    requires WentOut(hops, wires, if i == 0 then 0 else i - 1) && (hops != [] ==> Got(hop.attempt))
    ensures WentOut([hop] + hops, sent + wires, i)
  {
    hide HttpRequest;
  }

  /** Every request that is followed by another one went out whole, on its own socket, in the order of the hops. */
  lemma {:induction false} RedirectedRequestsWentOutWhole(net: nat -> Exchange, live: set<int>, host: string,
      path: string, response: seq<char>, redirects: nat, i: nat)
    requires Net(net)
    ensures var run := Run(net, live, host, path, response, redirects);
            WentOut(run.hops, run.wires, i)
    decreases MAX_REDIRECTION + 1 - redirects
  {
    hide Try, Stored, Kernel, HttpRequest, Run, Events, WentOut;
    if redirects <= MAX_REDIRECTION {
      var a := Try(net(redirects), live, host, path);
      HopsStep(net, live, host, path, response, redirects);
      WiresStep(net, live, host, path, response, redirects);
      var next, j := Next(net, live, response, redirects, a), if i == 0 then 0 else i - 1;
      if a.Redirected? {
        RedirectedRequestsWentOutWhole(net, live + {a.sock}, a.target, "/", Stored(a, response), redirects + 1, j);
      } else {
        NothingWentOut(j);
      }
      WentOutStep(Hop(host, path, live, a), next.hops, Sent(a, HttpRequest(host, path)), next.wires, i);
    } else {
      RunStops(net, live, host, path, response, redirects);
      NothingWentOut(i);
    }
  }

  lemma NothingWentOut(i: nat)
    ensures WentOut([], [], i)
  {
  }

  // ---------------------------------------------------------------- the Location line

  lemma NoNulIsWhole(s: string)
    requires (0 as char) !in s
    ensures CString(s) == s
  {
    assert forall i :: 0 <= i < |s| ==> s[i] in s;
    assert s[..|s|] == s;
  }

  lemma FindIs(text: string, pattern: string, k: nat)
    requires OccursAt(text, pattern, k) && forall j: nat :: j < k ==> !OccursAt(text, pattern, j)
    ensures Find(text, pattern) == Some(k)
  {
  }

  predicate SingleLine(host: string) { forall k: nat :: k < |host| ==> !OccursAt(host + "\r\n", "\r\n", k) }

  /** The client reads back the value of the first "Location: " of an answer that holds the 301 text, up to its line's end. */
  lemma LocationReadBack(head: string, host: string, rest: string, moved: nat)
    requires var answer := head + LOCATION + host + CRLF + rest;
             (0 as char) !in answer && OccursAt(answer, MOVED, moved)
             && forall k: nat :: k < |head| ==> !OccursAt(answer, LOCATION, k)
    requires SingleLine(host)
    ensures LocationOf(head + LOCATION + host + CRLF + rest) == Some(host)
  {
    hide Find, CString;
    NoNulIsWhole(head + LOCATION + host + CRLF + rest);
    HeaderRead(head, host, rest);
  }

  predicate EndsLine(head: string) { |head| >= 2 && head[|head| - 2] == '\r' && head[|head| - 1] == '\n' }

  /** The text from the first "Location: " of the lines before the header to the end of its line. */
  function FirstLocation(head: string): Option<string> {
    match Find(head, LOCATION)
    case None => None
    case Some(start) =>
      var tail := head[start + |LOCATION|..];
      match Find(tail, CRLF) { case None => None case Some(end) => Some(tail[..end]) }
  }

  lemma LocationHasNoLineEnd()
    ensures forall j :: 0 <= j < |LOCATION| ==> LOCATION[j] != '\r' && LOCATION[j] != '\n'
  {
  }

  /** An occurrence that starts in whole lines lies in them: it cannot reach over a line's end. */
  lemma WithinLines(head: string, more: string, k: nat)
    requires EndsLine(head) && k < |head| && OccursAt(head + more, LOCATION, k)
    ensures k + |LOCATION| <= |head| - 2 && OccursAt(head, LOCATION, k)
  {
    LocationHasNoLineEnd();
    var text := head + more;
    forall q | k <= q < k + |LOCATION| ensures text[q] != '\r' && text[q] != '\n' {
      assert text[q] == text[k..k + |LOCATION|][q - k];
    }
    assert text[|head| - 1] == head[|head| - 1] && text[|head| - 2] == head[|head| - 2];
    assert head[k..k + |LOCATION|] == text[k..k + |LOCATION|];
  }

  lemma FindInLines(head: string, more: string)
    requires EndsLine(head)
    ensures Find(head, LOCATION).Some? ==> Find(head + more, LOCATION) == Find(head, LOCATION)
    ensures Find(head, LOCATION).None? ==> forall k: nat :: k < |head| ==> !OccursAt(head + more, LOCATION, k)
  {
    forall k: nat | k < |head| && OccursAt(head + more, LOCATION, k) ensures OccursAt(head, LOCATION, k) {
      WithinLines(head, more, k);
    }
    match Find(head, LOCATION)
    case None =>
    case Some(p) =>
      assert (head + more)[p..p + |LOCATION|] == head[p..p + |LOCATION|];
      FindIs(head + more, LOCATION, p);
  }

  lemma FindInFront(a: string, b: string, pattern: string, k: nat)
    requires Find(a, pattern) == Some(k)
    ensures Find(a + b, pattern) == Some(k)
  {
    assert (a + b)[k..k + |pattern|] == a[k..k + |pattern|];
    forall j: nat | j < k ensures !OccursAt(a + b, pattern, j) {
      assert !OccursAt(a, pattern, j);
      assert (a + b)[j..j + |pattern|] == a[j..j + |pattern|];
    }
    FindIs(a + b, pattern, k);
  }

  /** The line of the first "Location: " ends within the lines before the header. */
  lemma FirstLocationEnds(head: string)
    requires EndsLine(head) && Find(head, LOCATION).Some?
    ensures FirstLocation(head).Some?
  {
    hide Find;
    var p := Find(head, LOCATION).value;
    assert head + "" == head;
    WithinLines(head, "", p);
    EndsWithCrlf(head, p + |LOCATION|);
  }

  lemma EndsWithCrlf(head: string, start: nat)
    requires EndsLine(head) && start <= |head| - 2
    ensures Find(head[start..], CRLF).Some?
  {
    var tail := head[start..];
    assert tail[|tail| - 2..|tail|] == ['\r', '\n'];
    assert OccursAt(tail, CRLF, |tail| - 2);
  }

  lemma {:induction false} CStringFront(a: string, b: string)
    requires (0 as char) !in a
    ensures CString(a + b) == a + CString(b)
    decreases |a|
  {
    if a == [] {
      assert a + b == b;
    } else {
      CStringFront(a[1..], b);
      assert (a + b)[1..] == a[1..] + b;
      assert a[0] in a && forall c :: c in a[1..] ==> c in a;
      assert (a + b)[..Until(a + b, 0 as char)] == [a[0]] + (a[1..] + b)[..Until(a[1..] + b, 0 as char)];
    }
  }

  /** Where the header is the first "Location: ", its value is read. */
  lemma HeaderRead(head: string, host: string, rest: string)
    requires SingleLine(host)
    requires forall k: nat :: k < |head| ==> !OccursAt(head + LOCATION + host + CRLF + rest, LOCATION, k)
    ensures var text := head + LOCATION + host + CRLF + rest;
            && Find(text, LOCATION) == Some(|head|)
            && Find(text[|head| + |LOCATION|..], CRLF) == Some(|host|)
            && text[|head| + |LOCATION|..][..|host|] == host
  {
    hide Find;
    var text := head + LOCATION + host + CRLF + rest;
    assert text[|head|..|head| + |LOCATION|] == LOCATION;
    FindIs(text, LOCATION, |head|);
    var tail := text[|head| + |LOCATION|..];
    assert tail == host + CRLF + rest;
    assert tail[|host|..|host| + 2] == CRLF;
    forall k: nat | k < |host| ensures !OccursAt(tail, CRLF, k) {
      assert !OccursAt(host + CRLF, CRLF, k);
      assert tail[k..k + 2] == (host + CRLF)[k..k + 2];
    }
    FindIs(tail, CRLF, |host|);
    assert tail[..|host|] == host;
  }

  /** Where the lines before the header hold one, the first of those is read. */
  lemma EarlierRead(head: string, more: string)
    requires EndsLine(head) && Find(head, LOCATION).Some?
    ensures var text := head + more;
            && Find(text, LOCATION).Some?
            && var tail := text[Find(text, LOCATION).value + |LOCATION|..];
               Find(tail, CRLF).Some? && FirstLocation(head) == Some(tail[..Find(tail, CRLF).value])
  {
    hide Find;
    FindInLines(head, more);
    FirstLocationEnds(head);
    var start := Find(head, LOCATION).value + |LOCATION|;
    var tail := head[start..];
    var end := Find(tail, CRLF).value;
    FindInFront(tail, more, CRLF, end);
    assert (head + more)[start..] == tail + more;
    assert (tail + more)[..end] == tail[..end];
  }

  /** The C string of an answer with a header line, up to a zero behind it. */
  lemma AnswerText(head: string, host: string, rest: string)
    requires (0 as char) !in head && (0 as char) !in host
    ensures CString(head + LOCATION + host + CRLF + rest) == head + LOCATION + host + CRLF + CString(rest)
  {
    var front := head + LOCATION + host + CRLF;
    PlainStatus();
    assert forall c :: c in front ==> c in head || c in LOCATION || c in host || c in CRLF;
    CStringFront(front, rest);
  }

  /** What the client takes from an answer that holds the 301 text and a header line behind the whole lines `head`. */
  lemma LocationTaken(head: string, host: string, rest: string)
    requires EndsLine(head) && SingleLine(host) && (0 as char) !in head && (0 as char) !in host
    requires Find(CString(head + LOCATION + host + CRLF + rest), MOVED).Some?
    ensures LocationOf(head + LOCATION + host + CRLF + rest) ==
            if Find(head, LOCATION).Some? then FirstLocation(head) else Some(host)
  {
    hide Find, CString, EndsLine, SingleLine, FirstLocation;
    AnswerText(head, host, rest);
    var more := LOCATION + host + CRLF + CString(rest);
    assert head + more == head + LOCATION + host + CRLF + CString(rest);
    if Find(head, LOCATION).Some? {
      EarlierRead(head, more);
    } else {
      FindInLines(head, more);
      HeaderRead(head, host, CString(rest));
    }
  }

  /**
   The new host is the value of the Location header if and only if the text "301 Moved Permanently"
   occurs anywhere in the answer and the lines before the header hold no "Location: ", or hold the same value at the first one.
   */
  lemma LocationExactly(head: string, host: string, rest: string)
    requires EndsLine(head) && SingleLine(host) && (0 as char) !in head && (0 as char) !in host
    ensures LocationOf(head + LOCATION + host + CRLF + rest) == Some(host) <==>
            && Find(CString(head + LOCATION + host + CRLF + rest), "301 Moved Permanently").Some?
            && (Find(head, "Location: ").None? || FirstLocation(head) == Some(host))
  {
    if Find(CString(head + LOCATION + host + CRLF + rest), MOVED).Some? {
      LocationTaken(head, host, rest);
    }
  }

  /** The text holds host between its first "Location: " and the first line end behind that. */
  predicate Names(text: string, head: string, host: string, rest: string) {
    && text == head + "Location: " + host + "\r\n" + rest && SingleLine(host)
    && forall k: nat :: k < |head| ==> !OccursAt(text, "Location: ", k)
  }

  /**
   What the client redirects to, for any text: the characters between the first "Location: " and the first line
   end behind it, if both are there and "301 Moved Permanently" occurs; otherwise nothing.
   */
  lemma TargetExactly(text: string, host: string)
    requires (0 as char) !in text
    ensures LocationOf(text) == Some(host) <==>
            && (exists m: nat :: OccursAt(text, "301 Moved Permanently", m))
            && (exists head, rest :: Names(text, head, host, rest))
  {
    LocationByParts(text, host);
    MovedOccurs(text);
    hide LocationOf, Find, Names;
    if LocationOf(text) == Some(host) {
      TargetIsNamed(text, host, Find(text, LOCATION).value);
    } else if head, rest :| Names(text, head, host, rest) {
      NamedIsTarget(text, head, host, rest);
    }
  }

  lemma MovedOccurs(text: string)
    ensures Find(text, MOVED).Some? <==> exists m: nat :: OccursAt(text, "301 Moved Permanently", m)
  {
    hide Find;
  }

  lemma LocationByParts(text: string, host: string)
    requires (0 as char) !in text
    ensures LocationOf(text) == Some(host) <==>
            && Find(text, MOVED).Some? && Find(text, LOCATION).Some?
            && var tail := text[Find(text, LOCATION).value + |LOCATION|..];
               Find(tail, CRLF) == Some(|host|) && host == tail[..|host|]
  {
    NoNulIsWhole(text);
    hide Find, CString;
  }

  lemma NamedIsTarget(text: string, head: string, host: string, rest: string)
    requires Names(text, head, host, rest)
    ensures var start := Find(text, LOCATION);
            && start.Some? && start.value + |LOCATION| <= |text|
            && Find(text[start.value + |LOCATION|..], CRLF) == Some(|host|)
            && text[start.value + |LOCATION|..][..|host|] == host
  {
    hide Find;
    HeaderRead(head, host, rest);
  }

  lemma TargetIsNamed(text: string, host: string, start: nat)
    requires Find(text, LOCATION) == Some(start)
    requires var tail := text[start + |LOCATION|..]; Find(tail, CRLF) == Some(|host|) && host == tail[..|host|]
    ensures exists head, rest :: Names(text, head, host, rest)
  {
    hide Find;
    var head, tail := text[..start], text[start + |LOCATION|..];
    var rest := tail[|host| + 2..];
    assert text[start..start + |LOCATION|] == LOCATION;
    SplitOff(text, start, |LOCATION|);
    HostIsLine(tail, host);
    Rejoined(head, LOCATION, host, "\r\n", rest);
    assert Names(text, head, host, rest);
  }

  lemma SplitOff(text: string, start: nat, n: nat)
    requires start + n <= |text|
    ensures text == text[..start] + text[start..start + n] + text[start + n..]
  {
  }

  lemma Rejoined(a: string, b: string, c: string, d: string, e: string)
    ensures a + b + (c + d + e) == a + b + c + d + e
  {
  }

  lemma HostIsLine(tail: string, host: string)
    requires Find(tail, CRLF) == Some(|host|) && host == tail[..|host|]
    ensures tail == host + "\r\n" + tail[|host| + 2..] && SingleLine(host)
  {
    hide Find;
    assert tail[|host|..|host| + 2] == CRLF;
    forall k: nat | k < |host| ensures !OccursAt(host + "\r\n", "\r\n", k) {
      assert !OccursAt(tail, CRLF, k);
      assert tail[k..k + 2] == (host + "\r\n")[k..k + 2];
    }
  }

  /** What follows a zero in an answer is not looked at. */
  lemma NulEndsTheText(text: string, rest: string)
    requires (0 as char) !in text
    ensures LocationOf(text + [0 as char] + rest) == LocationOf(text)
  {
    var answer := text + [0 as char] + rest;
    CStringFront(text, [0 as char] + rest);
    assert answer == text + ([0 as char] + rest);
    assert CString([0 as char] + rest) == "";
    NoNulIsWhole(text);
    hide CString, Find;
  }

  /** A head without 'L' holds no earlier "Location: ". */
  lemma NoEarlierLocation(head: string, tail: string)
    requires 'L' !in head
    ensures forall k: nat :: k < |head| ==> !OccursAt(head + tail, LOCATION, k)
  {
    var answer := head + tail;
    forall k: nat | k < |head| ensures !OccursAt(answer, LOCATION, k) {
      assert answer[k] == head[k] && head[k] in head;
      assert k + |LOCATION| <= |answer| ==> answer[k..k + |LOCATION|][0] == head[k];
    }
  }

  lemma PlainStatus()
    ensures forall c: char :: c in "HTTP/1.1 " || c in MOVED || c in CRLF || c in "Content-" || c in LOCATION ==> c != 0 as char
    ensures 'L' !in "HTTP/1.1 " && 'L' !in MOVED && 'L' !in CRLF && 'L' !in "Content-"
  {
  }

  lemma Rejoined4(a: string, b: string, c: string, d: string, e: string)
    ensures a + (b + c + d + e) == a + b + c + d + e
  {
  }

  lemma Within(a: string, b: string, c: string)
    ensures OccursAt(a + b + c, b, |a|)
  {
  }

  /** A Content-Location line before the Location line is taken for it. */
  lemma ContentLocationIsTaken(other: string, rest: string)
    requires (0 as char) !in other && (0 as char) !in rest && SingleLine(other)
    ensures LocationOf("HTTP/1.1 " + MOVED + CRLF + "Content-" + LOCATION + other + CRLF + rest) == Some(other)
  {
    hide LocationOf, SingleLine;
    var http, content := "HTTP/1.1 ", "Content-";
    var head := http + MOVED + CRLF + content;
    var tail := LOCATION + other + CRLF + rest;
    Rejoined4(head, LOCATION, other, CRLF, rest);
    PlainStatus();
    assert forall c :: c in head ==> c in http || c in MOVED || c in CRLF || c in content;
    assert forall c :: c in tail ==> c in LOCATION || c in other || c in CRLF || c in rest;
    NoEarlierLocation(head, tail);
    assert head + tail == http + MOVED + (CRLF + content + tail);
    Within(http, MOVED, CRLF + content + tail);
    LocationReadBack(head, other, rest, |http|);
  }

  /** The test is for the text anywhere in the answer: a 200 whose body holds it redirects to the body's Location. */
  lemma TextInBodyRedirects(host: string, rest: string)
    requires (0 as char) !in host && (0 as char) !in rest && SingleLine(host)
    ensures LocationOf("HTTP/1.1 200 OK" + CRLF + CRLF + MOVED + CRLF + LOCATION + host + CRLF + rest) == Some(host)
  {
    hide LocationOf, SingleLine;
    var ok := "HTTP/1.1 200 OK";
    var head := ok + CRLF + CRLF + MOVED + CRLF;
    var tail := LOCATION + host + CRLF + rest;
    Rejoined4(head, LOCATION, host, CRLF, rest);
    PlainStatus();
    assert 'L' !in ok && (0 as char) !in ok;
    assert forall c :: c in head ==> c in ok || c in MOVED || c in CRLF;
    assert forall c :: c in tail ==> c in LOCATION || c in host || c in CRLF || c in rest;
    NoEarlierLocation(head, tail);
    assert head + tail == (ok + CRLF + CRLF) + MOVED + (CRLF + tail);
    Within(ok + CRLF + CRLF, MOVED, CRLF + tail);
    LocationReadBack(head, host, rest, |ok + CRLF + CRLF|);
  }

  // ---------------------------------------------------------------- a run that leaves a stale tail

  /** A network that transfers whatever it is asked to, and answers with `text`. */
  function Prompt(text: string): Exchange {
    Exchange(true, live => FreeSocket(live), true, (k, n) => n, text,
             (k: nat, n: nat) => if k >= |text| then 0 else if n <= |text| - k then n else |text| - k)
  }

  function FreeSocket(live: set<int>): Option<int> {
    if 3 !in live then Some(3) else if 4 !in live then Some(4) else None
  }

  lemma PromptKernel(text: string)
    ensures Kernel(Prompt(text))
  {
  }

  lemma PromptTry(text: string, live: set<int>, host: string, path: string)
    requires FreeSocket(live).Some? && |text| <= MESSAGE_SIZE
    ensures Kernel(Prompt(text))
    ensures Try(Prompt(text), live, host, path) ==
            match LocationOf(text)
            case None => Answered(FreeSocket(live).value, text)
            case Some(target) => Redirected(FreeSocket(live).value, text, target)
  {
    PromptKernel(text);
    var ex, n := Prompt(text), |HttpRequest(host, path)|;
    hide HttpRequest, LocationOf, FreeSocket;
    assert SentFrom(ex, n, 0) == n by {
      assert SentFrom(ex, n, n) == n;
    }
    assert ReceivedFrom(ex, 0) == |text| by {
      assert ReceivedFrom(ex, |text|) == |text|;
    }
    assert text[..|text|] == text;
  }

  const LONG_ANSWER := MOVED + CRLF + LOCATION + "h" + CRLF
  const SHORT_ANSWER := "ok"

  lemma OneLetterHost()
    ensures SingleLine("h") && (0 as char) !in "h"
  {
    assert ("h" + CRLF)[0] == 'h';
  }

  lemma LongRedirects()
    ensures LocationOf(LONG_ANSWER) == Some("h") && 2 < |LONG_ANSWER| <= MESSAGE_SIZE
  {
    hide LocationOf, SingleLine;
    var head, tail := MOVED + CRLF, LOCATION + "h" + CRLF;
    PlainStatus();
    OneLetterHost();
    assert forall c :: c in head ==> c in MOVED || c in CRLF;
    assert forall c :: c in tail ==> c in LOCATION || c in "h" || c in CRLF;
    assert LONG_ANSWER == head + tail == head + LOCATION + "h" + CRLF + "";
    NoEarlierLocation(head, tail);
    assert (head + tail)[0..|MOVED|] == MOVED;
    LocationReadBack(head, "h", "", 0);
  }

  lemma ShortAnswers()
    ensures LocationOf(SHORT_ANSWER) == None
  {
  }

  /** A redirection with a long answer and then a short one: the buffer shows the short one and the tail of the long. */
  lemma StaleTailShown(host: string, path: string, response: seq<char>)
    requires |response| >= MESSAGE_SIZE
    ensures var net := (c: nat) => if c == 0 then Prompt(LONG_ANSWER) else Prompt(SHORT_ANSWER);
            Net(net) &&
            var run := Run(net, {}, host, path, response, 0);
            && run.code == HTTP_SUCCESSFUL
            && run.response == SHORT_ANSWER + LONG_ANSWER[|SHORT_ANSWER|..] + response[|LONG_ANSWER|..]
  {
    var net := (c: nat) => if c == 0 then Prompt(LONG_ANSWER) else Prompt(SHORT_ANSWER);
    PromptKernel(LONG_ANSWER);
    PromptKernel(SHORT_ANSWER);
    LongRedirects();
    ShortAnswers();
    hide LocationOf, Kernel, Try, Prompt, HttpRequest;
    PromptTry(LONG_ANSWER, {}, host, path);
    PromptTry(SHORT_ANSWER, {3}, "h", "/");
    RunStep(net, {}, host, path, response, 0);
    RunStep(net, {} + {3}, "h", "/", Overlay(response, LONG_ANSWER), 1);
    assert {} + {3} == {3};
    assert |SHORT_ANSWER| == 2;
    OverlayTwice(response, LONG_ANSWER, SHORT_ANSWER);
  }

  lemma OverlayTwice(response: seq<char>, long: string, short: string)
    requires |short| <= |long| <= |response|
    ensures Overlay(Overlay(response, long), short) == short + long[|short|..] + response[|long|..]
  {
  }

  /** Two calls, answered at once: the second reuses the number that the first closed. */
  lemma NumberReusedAcrossCalls(host: string, path: string, response: seq<char>)
    ensures var call := Call(_ => Prompt(SHORT_ANSWER), host, path);
            Fair([call, call]) &&
            Requests([call, call], Trail({}, [], []), response).trail.log ==
            [Open(3), Use(3), Use(3), Use(3), Close(3)] + [Open(3), Use(3), Use(3), Use(3), Close(3)]
  {
    var call := Call(_ => Prompt(SHORT_ANSWER), host, path);
    var start := Trail({}, [], []);
    PromptKernel(SHORT_ANSWER);
    assert Net(call.net);
    assert [call, call][..1] == [call] && [call][..0] == [];
    assert Requests([], start, response) == Session(start, response, []);
    var middle := Requests([call], start, response);
    AnsweredAtOnce(host, path, response);
    assert middle.trail.live == {};
    AnsweredAtOnce(host, path, middle.response);
  }

  lemma AnsweredAtOnce(host: string, path: string, response: seq<char>)
    ensures Net(_ => Prompt(SHORT_ANSWER))
    ensures var run := Run(_ => Prompt(SHORT_ANSWER), {}, host, path, response, 0);
            run.log == [Open(3), Use(3), Use(3), Use(3), Close(3)] && LeftOpen(run.hops) == {}
  {
    PromptKernel(SHORT_ANSWER);
    ShortAnswers();
    var net: nat -> Exchange := _ => Prompt(SHORT_ANSWER);
    PromptTry(SHORT_ANSWER, {}, host, path);
    RunStep(net, {}, host, path, response, 0);
    NextShape(net, {}, response, 0, Try(Prompt(SHORT_ANSWER), {}, host, path));
  }
}
