/**
 The HTTP client that follows redirections: the send and receive loops over partial
 transfers, the search for the new host, and the recursion bounded by MAX_REDIRECTION.
 */
module HttpClients {
  import opened Wrappers
  import opened Descriptors
  import opened Text
  import opened HttpParsers

  const MESSAGE_SIZE := 1024
  const MAX_REDIRECTION := 5

  const HTTP_UNKNOWN := -1
  const HTTP_SUCCESSFUL := 200
  const HTTP_NOT_FOUND := 404

  /**
   What the network does to one request.  `accepts(k, n)` is the result of the send of n
   characters after k have gone out; `arrives(k, n)` is the result of the recv with room
   for n after k characters of `stream` have come in.
   */
  datatype Exchange = Exchange(
    resolves: bool,
    socket: set<int> -> Option<int>,
    connects: bool,
    accepts: (nat, nat) -> int,
    stream: string,
    arrives: (nat, nat) -> int)

  /** A socket number is free; no call transfers more than it was asked to, or than there is. */
  ghost predicate Kernel(ex: Exchange) {
    && (forall live :: ex.socket(live).Some? ==> ex.socket(live).value !in live)
    && (forall k: nat, n: nat :: ex.accepts(k, n) <= n)
    && (forall k: nat, n: nat :: k <= |ex.stream| ==> ex.arrives(k, n) <= n && ex.arrives(k, n) <= |ex.stream| - k)
  }

  // ---------------------------------------------------------------- the request

  function HttpRequest(host: string, path: string): string {
    "GET " + path + " HTTP/1.1" + CRLF + "Host: " + host + CRLF + "Connection: close" + CRLF + CRLF
  }

  function RequestHeaders(host: string): seq<Header> { [Header("Host", host), Header("Connection", "close")] }

  lemma RequestIsPrinted(host: string, path: string)
    ensures HttpRequest(host, path) == Print("GET", path, "HTTP/1.1", RequestHeaders(host), "")
  {
    var hs := RequestHeaders(host);
    assert hs[1..] == [Header("Connection", "close")];
    assert hs[1..][1..] == [];
    assert PrintHeaders([]) == "";
    var tail := PrintHeaders(hs[1..]);
    assert tail == "Connection: close" + CRLF by {
      assert "Connection" + ": " + "close" == "Connection: close";
      assert tail == "Connection" + ": " + "close" + CRLF + "";
    }
    assert PrintHeaders(hs) == "Host: " + host + CRLF + tail by {
      assert "Host" + ": " == "Host: ";
    }
    hide PrintHeaders;
    assert "GET" + " " == "GET ";
    assert " " + "HTTP/1.1" == " HTTP/1.1";
  }

  predicate OneLineValues(headers: map<string, string>) { forall k :: k in headers ==> '\n' !in headers[k] }

  lemma AddedValue(headers: map<string, string>, line: string)
    requires '\n' !in line && OneLineValues(headers)
    ensures OneLineValues(AddHeader(headers, line))
  {
    hide Until;
    var l := WithoutCR(line);
    assert forall c :: c in l ==> c in line;
    var pivot := Until(l, ':');
    if pivot < |l| {
      var val := l[pivot + 1..];
      assert forall c :: c in val ==> c in l;
      assert val != [] ==> forall c :: c in val[1..] ==> c in val;
    }
  }

  lemma LineHoldsNoNewline(s: string)
    requires GetLine(s).Some?
    ensures '\n' !in GetLine(s).value.0
  {
    assert s[..|s|] == s;
  }

  /** No header value that the parser reads holds a newline. */
  lemma {:induction false} NoValueHoldsNewline(s: string, headers: map<string, string>)
    requires OneLineValues(headers)
    ensures OneLineValues(ReadHeaders(s, headers).0)
    decreases |s|
  {
    hide AddHeader, OneLineValues, GetLine;
    var first := GetLine(s);
    if first.Some? && first.value.0 != "\r" {
      LineHoldsNoNewline(s);
      AddedValue(headers, first.value.0);
      NoValueHoldsNewline(first.value.1, AddHeader(headers, first.value.0));
    }
  }

  /** The parser reads the client's request back, host and path, exactly when the host holds no newline. */
  lemma RequestReadsBackExactly(host: string, path: string)
    requires IsWord(path)
    ensures ParseSpec(HttpRequest(host, path)) ==
            Done(Request("GET", path, map["Host" := host, "Connection" := "close"], ""))
            <==> '\n' !in host
  {
    if '\n' !in host {
      RequestIsPrinted(host, path);
      HeadersLastWin(host);
      hide HttpRequest, Print, ParseSpec, LastWins, Stoi;
      ParsePrinted("GET", path, "HTTP/1.1", RequestHeaders(host), "");
    } else {
      NewlineInHostIsLost(host, path);
    }
  }

  lemma HeadersLastWin(host: string)
    ensures LastWins(RequestHeaders(host), map[]) == map["Host" := host, "Connection" := "close"]
    ensures CONTENT_LENGTH !in map["Host" := host, "Connection" := "close"]
  {
    var hs := RequestHeaders(host);
    assert hs[1..] == [Header("Connection", "close")];
    assert hs[1..][1..] == [];
    var one := map["Host" := host];
    assert LastWins([], one["Connection" := "close"]) == one["Connection" := "close"];
    assert LastWins(hs[1..], one) == one["Connection" := "close"];
    assert map[]["Host" := host] == one;
    assert |CONTENT_LENGTH| == 14;
  }

  lemma NewlineInHostIsLost(host: string, path: string)
    requires '\n' in host
    ensures ParseSpec(HttpRequest(host, path)) !=
            Done(Request("GET", path, map["Host" := host, "Connection" := "close"], ""))
  {
    hide HttpRequest, Stoi, ReadFirst, ReadHeaders, GetLine;
    var raw := HttpRequest(host, path);
    var headers := map["Host" := host, "Connection" := "close"];
    assert |"Host"| == 4;
    assert "Host" in headers && headers["Host"] == host;
    assert !OneLineValues(headers);
    if GetLine(raw).Some? {
      var read := ReadHeaders(GetLine(raw).value.1, map[]).0;
      NoValueHoldsNewline(GetLine(raw).value.1, map[]);
      assert ParseSpec(raw).Done? ==> ParseSpec(raw).request.headers == read;
    } else {
      assert ParseSpec(raw).Done? ==> ParseSpec(raw).request.headers == map[];
    }
  }

  // ---------------------------------------------------------------- the redirection

  predicate OccursAt(text: string, pattern: string, k: nat) {
    k + |pattern| <= |text| && text[k..k + |pattern|] == pattern
  }

  /** strstr: where the first occurrence starts. */
  function Find(text: string, pattern: string): (r: Option<nat>)
    ensures r.Some? ==> OccursAt(text, pattern, r.value)
    ensures forall k: nat :: OccursAt(text, pattern, k) ==> r.Some? && r.value <= k
  {
    if |text| < |pattern| then None
    else if text[..|pattern|] == pattern then Some(0)
    else
      LaterOccurrences(text, pattern);
      var r := Find(text[1..], pattern);
      match r { case None => None case Some(k) => Some(k + 1) }
  }

  lemma LaterOccurrences(text: string, pattern: string)
    requires text != []
    ensures forall k: nat :: k > 0 && OccursAt(text, pattern, k) ==> OccursAt(text[1..], pattern, k - 1)
    ensures forall k: nat :: OccursAt(text[1..], pattern, k) ==> OccursAt(text, pattern, k + 1)
  {
    forall k: nat ensures OccursAt(text, pattern, k + 1) <==> OccursAt(text[1..], pattern, k) {
      assert k + 1 + |pattern| <= |text| ==> text[1..][k..k + |pattern|] == text[k + 1..k + 1 + |pattern|];
    }
  }

  const MOVED := "301 Moved Permanently"
  const LOCATION := "Location: "

  /** The C string in a zeroed buffer. */
  function CString(s: string): string { s[..Until(s, 0 as char)] }

  /** The host that an answer redirects to. */
  function LocationOf(answer: string): Option<string> {
    var text := CString(answer);
    if Find(text, MOVED).None? then None
    else
      match Find(text, LOCATION)
      case None => None
      case Some(start) =>
        var tail := text[start + |LOCATION|..];
        match Find(tail, CRLF) { case None => None case Some(end) => Some(tail[..end]) }
  }

  // ---------------------------------------------------------------- specification of a run

  datatype Attempt =
    | Unconnected
    | Refused(sock: int)
    | Cut(sock: int, sent: nat)
    | Answered(sock: int, text: string)
    | Redirected(sock: int, text: string, target: string)

  /** One request, the descriptors open when it starts, and how it ended. */
  datatype Hop = Hop(host: string, path: string, live: set<int>, attempt: Attempt)

  ghost function SentFrom(ex: Exchange, n: nat, k: nat): (r: nat)
    requires Kernel(ex) && k <= n
    ensures k <= r <= n
    ensures r < n ==> ex.accepts(r, n - r) <= 0
    decreases n - k
  {
    if k == n || ex.accepts(k, n - k) <= 0 then k else SentFrom(ex, n, k + ex.accepts(k, n - k))
  }

  ghost function ReceivedFrom(ex: Exchange, k: nat): (r: nat)
    requires Kernel(ex) && k <= MESSAGE_SIZE && k <= |ex.stream|
    ensures k <= r <= MESSAGE_SIZE && r <= |ex.stream|
    ensures ex.arrives(r, MESSAGE_SIZE - r) <= 0
    decreases MESSAGE_SIZE - k
  {
    var got := ex.arrives(k, MESSAGE_SIZE - k);
    if got <= 0 then k else ReceivedFrom(ex, k + got)
  }

  ghost function Try(ex: Exchange, live: set<int>, host: string, path: string): (r: Attempt)
    requires Kernel(ex)
    ensures r.Cut? ==> r.sent < |HttpRequest(host, path)|
    ensures !r.Unconnected? ==> r.sock !in live
    ensures r.Answered? ==> LocationOf(r.text) == None
    ensures r.Redirected? ==> LocationOf(r.text) == Some(r.target)
  {
    var n := |HttpRequest(host, path)|;
    if !ex.resolves || ex.socket(live).None? then Unconnected
    else
      var sock := ex.socket(live).value;
      if !ex.connects then Refused(sock)
      else if SentFrom(ex, n, 0) < n then Cut(sock, SentFrom(ex, n, 0))
      else
        var text := ex.stream[..ReceivedFrom(ex, 0)];
        match LocationOf(text) { case None => Answered(sock, text) case Some(target) => Redirected(sock, text, target) }
  }

  /** memcpy into the caller's buffer; a missing buffer is the empty one. */
  function Overlay(response: seq<char>, text: string): (r: seq<char>)
    ensures |r| == |response|
  {
    if |text| <= |response| then text + response[|text|..] else response
  }

  predicate Got(a: Attempt) { a.Answered? || a.Redirected? }

  /**
   The descriptor events up to the answer: connect, the send loop and the receive loop use the
   socket; a failed attempt closes it itself.
   */
  function Events(a: Attempt): seq<Event> {
    match a
    case Unconnected => []
    case Refused(sock) => [Open(sock)] + [Use(sock)] + [Close(sock)]
    case Cut(sock, _) => [Open(sock)] + [Use(sock)] + [Use(sock)] + [Close(sock)]
    case Answered(sock, _) => [Open(sock)] + [Use(sock)] + [Use(sock)] + [Use(sock)]
    case Redirected(sock, _, _) => [Open(sock)] + [Use(sock)] + [Use(sock)] + [Use(sock)]
  }

  /** What went out on one connection. */
  datatype Wire = Wire(sock: int, bytes: string)

  function Sent(a: Attempt, request: string): seq<Wire>
    requires a.Cut? ==> a.sent <= |request|
  {
    if Got(a) then [Wire(a.sock, request)] else if a.Cut? then [Wire(a.sock, request[..a.sent])] else []
  }

  function Stored(a: Attempt, response: seq<char>): (r: seq<char>)
    ensures |r| == |response|
  {
    if Got(a) then Overlay(response, a.text) else response
  }

  datatype Outcome = Outcome(code: int, response: seq<char>, log: seq<Event>, wires: seq<Wire>, hops: seq<Hop>)

  ghost predicate Net(net: nat -> Exchange) { forall c: nat :: Kernel(net(c)) }

  ghost function Run(net: nat -> Exchange, live: set<int>, host: string, path: string, response: seq<char>,
                     redirects: nat): Outcome
    requires Net(net)
    decreases MAX_REDIRECTION + 1 - redirects
  {
    if redirects > MAX_REDIRECTION then Outcome(HTTP_NOT_FOUND, response, [], [], [])
    else
      var a := Try(net(redirects), live, host, path);
      var wires := Sent(a, HttpRequest(host, path));
      var hop := Hop(host, path, live, a);
      match a
      case Redirected(sock, text, target) =>
        var next := Run(net, live + {sock}, target, "/", Stored(a, response), redirects + 1);
        Outcome(next.code, next.response, Events(a) + next.log, wires + next.wires, [hop] + next.hops)
      case Answered(sock, text) =>
        Outcome(HTTP_SUCCESSFUL, Stored(a, response), Events(a) + [Close(sock)], wires, [hop])
      case _ =>
        Outcome(HTTP_UNKNOWN, response, Events(a), wires, [hop])
  }

  /** The sockets of the hops that were redirected. */
  function LeftOpen(hops: seq<Hop>): set<int> {
    if hops == [] then {}
    else (if hops[0].attempt.Redirected? then {hops[0].attempt.sock} else {}) + LeftOpen(hops[1..])
  }

  // ---------------------------------------------------------------- the client

  // ---------------------------------------------------------------- partial transfers

  function Sum(rs: seq<nat>): nat { if rs == [] then 0 else Sum(rs[..|rs| - 1]) + rs[|rs| - 1] }

  /** Successive positive results of calls that ask for the rest of n. */
  predicate Chain(f: (nat, nat) -> int, n: nat, rs: seq<nat>) {
    forall j :: 0 <= j < |rs| ==>
                  rs[j] > 0 && Sum(rs[..j]) <= n && rs[j] == f(Sum(rs[..j]), n - Sum(rs[..j]))
  }

  /** After these results all n are through, or the next call returns 0 or an error. */
  predicate EndsAfter(f: (nat, nat) -> int, n: nat, rs: seq<nat>) {
    Chain(f, n, rs) && Sum(rs) <= n && (Sum(rs) == n || f(Sum(rs), n - Sum(rs)) <= 0)
  }

  /** What the results took off the text, piece by piece. */
  function Pieces(text: string, rs: seq<nat>): string
    requires Sum(rs) <= |text|
  {
    if rs == [] then ""
    else
      var before := rs[..|rs| - 1];
      Pieces(text, before) + text[Sum(before)..Sum(before) + rs[|rs| - 1]]
  }

  lemma ChainAppend(f: (nat, nat) -> int, n: nat, rs: seq<nat>, r: nat)
    requires Chain(f, n, rs) && Sum(rs) <= n && r > 0 && r == f(Sum(rs), n - Sum(rs))
    ensures Chain(f, n, rs + [r]) && Sum(rs + [r]) == Sum(rs) + r
  {
    SumAppend(rs, r);
    hide Sum;
    var all := rs + [r];
    forall j | 0 <= j < |all| ensures all[j] > 0 && Sum(all[..j]) <= n && all[j] == f(Sum(all[..j]), n - Sum(all[..j])) {
      Front(rs, r, j);
    }
  }

  lemma Front(rs: seq<nat>, r: nat, j: nat)
    requires j <= |rs|
    ensures (rs + [r])[..j] == rs[..j] && rs[..|rs|] == rs
  {
  }

  lemma SumAppend(rs: seq<nat>, r: nat)
    ensures Sum(rs + [r]) == Sum(rs) + r
  {
    assert (rs + [r])[..|rs|] == rs;
  }

  lemma PiecesAppend(text: string, rs: seq<nat>, r: nat)
    requires Sum(rs) + r <= |text|
    ensures Sum(rs + [r]) == Sum(rs) + r
    ensures Pieces(text, rs + [r]) == Pieces(text, rs) + text[Sum(rs)..Sum(rs) + r]
  {
    assert (rs + [r])[..|rs|] == rs;
  }

  lemma {:induction false} PiecesArePrefix(text: string, rs: seq<nat>)
    requires Sum(rs) <= |text|
    ensures Pieces(text, rs) == text[..Sum(rs)]
  {
    if rs != [] {
      PiecesArePrefix(text, rs[..|rs| - 1]);
    }
  }

  lemma ChainAt(f: (nat, nat) -> int, n: nat, rs: seq<nat>, k: nat)
    requires Chain(f, n, rs)
    ensures k < |rs| ==> rs[k] > 0 && Sum(rs[..k]) <= n && rs[k] == f(Sum(rs[..k]), n - Sum(rs[..k]))
  {
  }

  lemma {:induction false} SameResults(f: (nat, nat) -> int, n: nat, a: seq<nat>, b: seq<nat>, k: nat)
    requires Chain(f, n, a) && Chain(f, n, b) && k <= |a| && k <= |b|
    ensures a[..k] == b[..k]
  {
    hide Chain, Sum;
    if k > 0 {
      SameResults(f, n, a, b, k - 1);
      ChainAt(f, n, a, k - 1);
      ChainAt(f, n, b, k - 1);
      OneMore(a, k - 1);
      OneMore(b, k - 1);
    }
  }

  lemma OneMore(rs: seq<nat>, k: nat)
    requires k < |rs|
    ensures rs[..k + 1] == rs[..k] + [rs[k]]
  {
  }

  /** The results with which a loop ends are determined: the calls are asked in order. */
  lemma EndsOnce(f: (nat, nat) -> int, n: nat, a: seq<nat>, b: seq<nat>)
    requires EndsAfter(f, n, a) && EndsAfter(f, n, b)
    ensures a == b
  {
    var k := if |a| <= |b| then |a| else |b|;
    SameResults(f, n, a, b, k);
    hide EndsAfter;
    assert a[..|a|] == a && b[..|b|] == b;
    if k < |a| {
      NoneAfterTheEnd(f, n, a, k);
    } else if k < |b| {
      NoneAfterTheEnd(f, n, b, k);
    }
  }

  lemma NoneAfterTheEnd(f: (nat, nat) -> int, n: nat, rs: seq<nat>, k: nat)
    requires EndsAfter(f, n, rs) && k < |rs|
    ensures !EndsAfter(f, n, rs[..k])
  {
    ChainAt(f, n, rs, k);
    NoMoreThanAll(f, n, rs, k);
    hide Chain, Sum;
  }

  /** No positive result comes after everything is through. */
  lemma NoMoreThanAll(f: (nat, nat) -> int, n: nat, rs: seq<nat>, k: nat)
    requires EndsAfter(f, n, rs) && k < |rs|
    ensures Sum(rs[..k]) < n
  {
    SumGrows(rs, k);
  }

  lemma {:induction false} SumGrows(rs: seq<nat>, k: nat)
    requires k < |rs| && forall j :: 0 <= j < |rs| ==> rs[j] > 0
    ensures Sum(rs[..k]) < Sum(rs)
  {
    var front := rs[..|rs| - 1];
    assert front[..k] == rs[..k];
    if k < |rs| - 1 {
      SumGrows(front, k);
    }
  }

  lemma {:induction false} SentInPieces(ex: Exchange, n: nat, rs: seq<nat>) returns (all: seq<nat>)
    requires Kernel(ex) && Chain(ex.accepts, n, rs) && Sum(rs) <= n
    ensures EndsAfter(ex.accepts, n, all) && Sum(all) == SentFrom(ex, n, Sum(rs))
    decreases n - Sum(rs)
  {
    hide Kernel, Chain, Sum;
    var k := Sum(rs);
    if k == n || ex.accepts(k, n - k) <= 0 {
      all := rs;
    } else {
      NoMoreThanAsked(ex, k, n - k);
      ChainAppend(ex.accepts, n, rs, ex.accepts(k, n - k));
      all := SentInPieces(ex, n, rs + [ex.accepts(k, n - k)]);
    }
  }

  /** How much goes out of n, told from the results of send alone. */
  lemma SentExactly(ex: Exchange, n: nat, m: nat)
    requires Kernel(ex)
    ensures SentFrom(ex, n, 0) == m <==> exists rs :: EndsAfter(ex.accepts, n, rs) && Sum(rs) == m
  {
    hide Kernel, Chain, SentFrom;
    StartOfTransfer(ex.accepts, "");
    var all := SentInPieces(ex, n, []);
    if rs :| EndsAfter(ex.accepts, n, rs) && Sum(rs) == m {
      EndsOnce(ex.accepts, n, all, rs);
    }
  }

  lemma {:induction false} ReceivedInPieces(ex: Exchange, rs: seq<nat>) returns (all: seq<nat>)
    requires Kernel(ex) && Chain(ex.arrives, MESSAGE_SIZE, rs) && Sum(rs) <= MESSAGE_SIZE && Sum(rs) <= |ex.stream|
    ensures EndsAfter(ex.arrives, MESSAGE_SIZE, all) && Sum(all) == ReceivedFrom(ex, Sum(rs))
    decreases MESSAGE_SIZE - Sum(rs)
  {
    hide Kernel, Chain, Sum;
    var k := Sum(rs);
    var got := ex.arrives(k, MESSAGE_SIZE - k);
    if got <= 0 {
      all := rs;
    } else {
      NoMoreThanAsked(ex, k, MESSAGE_SIZE - k);
      ChainAppend(ex.arrives, MESSAGE_SIZE, rs, got);
      all := ReceivedInPieces(ex, rs + [got]);
    }
  }

  /** How much comes in, told from the results of recv alone. */
  lemma ReceivedExactly(ex: Exchange, m: nat)
    requires Kernel(ex)
    ensures ReceivedFrom(ex, 0) == m <==> exists rs :: EndsAfter(ex.arrives, 1024, rs) && Sum(rs) == m
  {
    hide Kernel, Chain, ReceivedFrom;
    StartOfTransfer(ex.arrives, "");
    var all := ReceivedInPieces(ex, []);
    if rs :| EndsAfter(ex.arrives, 1024, rs) && Sum(rs) == m {
      EndsOnce(ex.arrives, 1024, all, rs);
    }
  }

  /**
   The send loop: what goes out are the pieces that the sends accepted, one behind the other; the loop ends
   when all is out or at the first send that returns 0 or an error.
   */
  method SendAll(ex: Exchange, request: string) returns (sent: nat, wire: string, ghost pieces: seq<nat>)
    requires Kernel(ex)
    ensures EndsAfter(ex.accepts, |request|, pieces) && sent == Sum(pieces) && wire == Pieces(request, pieces)
    ensures sent == SentFrom(ex, |request|, 0) && wire == request[..sent]
  {
    hide Kernel, Chain, Sum, Pieces, SentFrom;
    StartOfTransfer(ex.accepts, request);
    sent := 0;
    wire := "";
    pieces := [];
    while sent < |request|
      invariant sent == Sum(pieces) <= |request| && Chain(ex.accepts, |request|, pieces) && wire == Pieces(request, pieces)
    {
      var bytes := ex.accepts(sent, |request| - sent);
      if bytes <= 0 {
        break;
      }
      NoMoreThanAsked(ex, sent, |request| - sent);
      ChainAppend(ex.accepts, |request|, pieces, bytes);
      PiecesAppend(request, pieces, bytes);
      wire := wire + request[sent..sent + bytes];
      sent := sent + bytes;
      pieces := pieces + [bytes];
    }
    SentExactly(ex, |request|, sent);
    PiecesArePrefix(request, pieces);
  }

  lemma NoMoreThanAsked(ex: Exchange, k: nat, n: nat)
    requires Kernel(ex)
    ensures ex.accepts(k, n) <= n && (k <= |ex.stream| ==> ex.arrives(k, n) <= n && ex.arrives(k, n) <= |ex.stream| - k)
  {
  }

  lemma StartOfTransfer(f: (nat, nat) -> int, text: string)
    ensures Sum([]) == 0 && (forall n :: Chain(f, n, [])) && Pieces(text, []) == ""
  {
  }

  /** The receive loop: a full buffer leaves no room, so the loop ends at MESSAGE_SIZE at the latest. */
  method ReceiveAll(ex: Exchange) returns (buffer: array<char>, received: nat, ghost pieces: seq<nat>)
    requires Kernel(ex)
    ensures fresh(buffer) && buffer.Length == MESSAGE_SIZE
    ensures EndsAfter(ex.arrives, MESSAGE_SIZE, pieces) && received == Sum(pieces) && ex.arrives(received, MESSAGE_SIZE - received) <= 0
    ensures received == ReceivedFrom(ex, 0) <= MESSAGE_SIZE
    ensures buffer[..received] == ex.stream[..received]
    ensures forall i :: received <= i < MESSAGE_SIZE ==> buffer[i] == 0 as char
  {
    hide Kernel, Chain, Sum, ReceivedFrom;
    StartOfTransfer(ex.arrives, "");
    buffer := new char[MESSAGE_SIZE](_ => 0 as char);
    received := 0;
    pieces := [];
    var bytes := ex.arrives(0, MESSAGE_SIZE);
    while bytes > 0
      invariant received <= MESSAGE_SIZE && received <= |ex.stream|
      invariant bytes == ex.arrives(received, MESSAGE_SIZE - received)
      invariant forall i :: 0 <= i < received ==> buffer[i] == ex.stream[i]
      invariant forall i :: received <= i < MESSAGE_SIZE ==> buffer[i] == 0 as char
      invariant received == Sum(pieces) && Chain(ex.arrives, MESSAGE_SIZE, pieces)
      decreases MESSAGE_SIZE - received
    {
      NoMoreThanAsked(ex, received, MESSAGE_SIZE - received);
      ChainAppend(ex.arrives, MESSAGE_SIZE, pieces, bytes);
      forall i | received <= i < received + bytes {
        buffer[i] := ex.stream[i];
      }
      received := received + bytes;
      pieces := pieces + [bytes];
      bytes := ex.arrives(received, MESSAGE_SIZE - received);
    }
    ReceivedExactly(ex, received);
  }

  ghost function Next(net: nat -> Exchange, live: set<int>, response: seq<char>, redirects: nat, a: Attempt): Outcome
    requires Net(net)
  {
    match a
    case Redirected(sock, text, target) =>
      Run(net, live + {sock}, target, "/", Stored(a, response), redirects + 1)
    case Answered(sock, text) => Outcome(HTTP_SUCCESSFUL, Stored(a, response), [Close(sock)], [], [])
    case _ => Outcome(HTTP_UNKNOWN, response, [], [], [])
  }

  lemma RunStep(net: nat -> Exchange, live: set<int>, host: string, path: string, response: seq<char>, redirects: nat)
    requires Net(net) && redirects <= MAX_REDIRECTION
    ensures var a := Try(net(redirects), live, host, path);
            var run := Run(net, live, host, path, response, redirects);
            var next := Next(net, live, response, redirects, a);
            && run.code == next.code && run.response == next.response
            && run.log == Events(a) + next.log
            && run.wires == Sent(a, HttpRequest(host, path)) + next.wires
            && run.hops == [Hop(host, path, live, a)] + next.hops
            && LeftOpen(run.hops) == (if a.Redirected? then {a.sock} else {}) + LeftOpen(next.hops)
  {
    hide Try, Kernel, HttpRequest, Overlay;
    var a := Try(net(redirects), live, host, path);
    var run := Run(net, live, host, path, response, redirects);
    var next := Next(net, live, response, redirects, a);
    assert run.hops == [Hop(host, path, live, a)] + next.hops;
    assert run.hops[1..] == next.hops;
  }

  lemma RunStops(net: nat -> Exchange, live: set<int>, host: string, path: string, response: seq<char>, redirects: nat)
    requires Net(net) && redirects > MAX_REDIRECTION
    ensures Run(net, live, host, path, response, redirects) == Outcome(HTTP_NOT_FOUND, response, [], [], [])
    ensures LeftOpen([]) == {} && live + {} == live
  {
  }

  /** What remains after one attempt: another run, the close of the socket, or nothing. */
  lemma NextShape(net: nat -> Exchange, live: set<int>, response: seq<char>, redirects: nat, a: Attempt)
    requires Net(net)
    ensures var next := Next(net, live, response, redirects, a);
            if a.Redirected? then next == Run(net, live + {a.sock}, a.target, "/", Stored(a, response), redirects + 1)
            else
              && next.response == Stored(a, response) && next.wires == [] && LeftOpen(next.hops) == {}
              && next.code == (if a.Answered? then HTTP_SUCCESSFUL else HTTP_UNKNOWN)
              && next.log == (if a.Answered? then [Close(a.sock)] else [])
    ensures Got(a) <==> a.Answered? || a.Redirected?
  {
    hide Run, Overlay;
  }

  ghost function Contents(response: array?<char>): seq<char>
    reads response
  {
    if response == null then [] else response[..]
  }

  /** memcpy, when the caller gave a buffer. */
  method CopyResponse(response: array?<char>, buffer: array<char>, received: nat)
    requires response != buffer && buffer.Length == MESSAGE_SIZE && received <= MESSAGE_SIZE
    requires response != null ==> response.Length >= MESSAGE_SIZE
    modifies response
    ensures Contents(response) == Overlay(old(Contents(response)), buffer[..received])
  {
    if response != null {
      forall i | 0 <= i < received {
        response[i] := buffer[i];
      }
    }
  }

  /** What the client has done so far: the open descriptors, its calls on them, and what it has sent. */
  datatype Trail = Trail(live: set<int>, log: seq<Event>, wires: seq<Wire>)

  function Extend(t: Trail, log: seq<Event>, wires: seq<Wire>, gained: set<int>): Trail {
    Trail(t.live + gained, t.log + log, t.wires + wires)
  }

  function Shut(t: Trail, sock: int): Trail { t.(live := t.live - {sock}, log := t.log + [Close(sock)]) }

  lemma ExtendTwice(t: Trail, log: seq<Event>, wires: seq<Wire>, gained: set<int>,
                    log': seq<Event>, wires': seq<Wire>, gained': set<int>)
    ensures Extend(Extend(t, log, wires, gained), log', wires', gained') ==
            Extend(t, log + log', wires + wires', gained + gained')
  {
    assert t.log + log + log' == t.log + (log + log');
    assert t.wires + wires + wires' == t.wires + (wires + wires');
    assert t.live + gained + gained' == t.live + (gained + gained');
  }

  lemma ExtendAndShut(t: Trail, log: seq<Event>, wires: seq<Wire>, sock: int)
    requires sock !in t.live
    ensures Shut(Extend(t, log, wires, {sock}), sock) == Extend(t, log + [Close(sock)], wires, {})
  {
    assert t.live + {sock} - {sock} == t.live + {};
  }

  lemma ExtendByNothing(t: Trail)
    ensures Extend(t, [], [], {}) == t
  {
  }

  function Opened(a: Attempt): set<int> { if Got(a) then {a.sock} else {} }

  /** The trail and the result of a run are those of its first attempt and of what remains after it. */
  lemma RunTrail(net: nat -> Exchange, t: Trail, host: string, path: string, response: seq<char>, redirects: nat)
    requires Net(net) && redirects <= MAX_REDIRECTION
    ensures var a := Try(net(redirects), t.live, host, path);
            var run := Run(net, t.live, host, path, response, redirects);
            var met := Extend(t, Events(a), Sent(a, HttpRequest(host, path)), Opened(a));
            var end := Extend(t, run.log, run.wires, LeftOpen(run.hops));
            match a
            case Redirected(sock, text, target) =>
              var next := Run(net, met.live, target, "/", Stored(a, response), redirects + 1);
              && LocationOf(text) == Some(target) && Got(a)
              && run.code == next.code && run.response == next.response
              && end == Extend(met, next.log, next.wires, LeftOpen(next.hops))
            case Answered(sock, text) =>
              && LocationOf(text) == None && Got(a)
              && run.code == HTTP_SUCCESSFUL && run.response == Stored(a, response) && end == Shut(met, sock)
            case _ =>
              !Got(a) && run.code == HTTP_UNKNOWN && run.response == Stored(a, response) && end == met
  {
    var a := Try(net(redirects), t.live, host, path);
    var next := Next(net, t.live, response, redirects, a);
    var sent := Sent(a, HttpRequest(host, path));
    RunStep(net, t.live, host, path, response, redirects);
    NextShape(net, t.live, response, redirects, a);
    var run := Run(net, t.live, host, path, response, redirects);
    hide Try, Kernel, HttpRequest, Stored, Run, LeftOpen, Next, LocationOf, Sent, Events;
    var met := Extend(t, Events(a), sent, Opened(a));
    if a.Redirected? {
      ExtendTwice(t, Events(a), sent, {a.sock}, next.log, next.wires, LeftOpen(next.hops));
    } else {
      assert sent + [] == sent && Events(a) + [] == Events(a);
      if a.Answered? {
        ExtendAndShut(t, Events(a), sent, a.sock);
      }
    }
  }

  /** One call of the client, and what the network does while it lasts. */
  datatype Call = Call(net: nat -> Exchange, host: string, path: string)

  ghost predicate Fair(calls: seq<Call>) { forall i :: 0 <= i < |calls| ==> Net(calls[i].net) }

  datatype Session = Session(trail: Trail, response: seq<char>, hops: seq<Hop>)

  /** A sequence of calls: each starts with the descriptors and the buffer that the one before it left. */
  ghost function Requests(calls: seq<Call>, t: Trail, response: seq<char>): Session
    requires Fair(calls)
  {
    if calls == [] then Session(t, response, [])
    else
      var call, before := calls[|calls| - 1], Requests(calls[..|calls| - 1], t, response);
      var run := Run(call.net, before.trail.live, call.host, call.path, before.response, 0);
      Session(Extend(before.trail, run.log, run.wires, LeftOpen(run.hops)), run.response, before.hops + run.hops)
  }

  class HttpClient {
    var live: set<int>
    var log: seq<Event>
    var wires: seq<Wire>

    constructor (live: set<int>)
      ensures State() == Trail(live, [], [])
    {
      this.live := live;
      log := [];
      wires := [];
    }

    method OpenSocket(ex: Exchange) returns (sock: Option<int>)
      requires Kernel(ex)
      modifies this`live, this`log
      ensures sock == ex.socket(old(live))
      ensures match sock
              case None => live == old(live) && log == old(log)
              case Some(s) => s !in old(live) && live == old(live) + {s} && log == old(log) + [Open(s)]
    {
      sock := ex.socket(live);
      if sock.Some? {
        live := live + {sock.value};
        log := log + [Open(sock.value)];
      }
    }

    ghost function State(): (t: Trail)
      reads this
      ensures t.live == live
    {
      Trail(live, log, wires)
    }

    method CloseSocket(sock: int)
      modifies this`live, this`log
      ensures State() == Shut(old(State()), sock)
    {
      live := live - {sock};
      log := log + [Close(sock)];
    }

    /** Everything up to the closing of the connection or the search for a new host. */
    method Fetch(ex: Exchange, host: string, path: string, response: array?<char>)
      returns (sock: int, answer: Option<string>)
      requires Kernel(ex)
      requires response != null ==> response.Length >= MESSAGE_SIZE
      modifies this, response
      ensures var a := Try(ex, old(live), host, path);
              && State() == Extend(old(State()), Events(a), Sent(a, HttpRequest(host, path)), Opened(a))
              && Contents(response) == Stored(a, old(Contents(response)))
              && (if Got(a) then answer == Some(a.text) && sock == a.sock else answer == None)
    {
      hide HttpRequest, LocationOf, SentFrom, ReceivedFrom, Overlay, Contents, Kernel, EndsAfter, Sum, Pieces;
      sock := -1;
      if !ex.resolves {
        return sock, None;
      }
      var created := OpenSocket(ex);
      if created.None? {
        return sock, None;
      }
      sock := created.value;
      log := log + [Use(sock)];
      if !ex.connects {
        CloseSocket(sock);
        return sock, None;
      }
      answer := Transfer(ex, sock, HttpRequest(host, path), response);
    }

    /** The two loops on a connected socket: the request goes out whole and the answer comes in, or the socket is closed. */
    method Transfer(ex: Exchange, sock: int, request: string, response: array?<char>) returns (answer: Option<string>)
      requires Kernel(ex)
      requires response != null ==> response.Length >= MESSAGE_SIZE
      modifies this, response
      ensures var out, t := SentFrom(ex, |request|, 0), old(State());
              if out < |request| then
                && answer == None && Contents(response) == old(Contents(response))
                && State() == Shut(Trail(t.live, t.log + [Use(sock)], t.wires + [Wire(sock, request[..out])]), sock)
              else
                && answer == Some(ex.stream[..ReceivedFrom(ex, 0)])
                && Contents(response) == Overlay(old(Contents(response)), answer.value)
                && State() == Trail(t.live, t.log + [Use(sock)] + [Use(sock)], t.wires + [Wire(sock, request)])
    {
      hide SentFrom, ReceivedFrom, Overlay, Contents, Kernel, EndsAfter, Sum, Pieces;
      var sent, wire, pieces := SendAll(ex, request);
      wires := wires + [Wire(sock, wire)];
      log := log + [Use(sock)];
      if sent < |request| {
        CloseSocket(sock);
        return None;
      }
      assert wire == request;
      var buffer, received, chunks := ReceiveAll(ex);
      log := log + [Use(sock)];
      CopyResponse(response, buffer, received);
      answer := Some(buffer[..received]);
    }

    /** The search for a new host: the request to it, or the closing of the connection. */
    method Conclude(net: nat -> Exchange, sock: int, answer: string, response: array?<char>, redirects: nat)
      returns (code: int)
      requires Net(net) && redirects <= MAX_REDIRECTION
      requires response != null ==> response.Length >= MESSAGE_SIZE
      modifies this, response
      ensures match LocationOf(answer)
              case Some(target) =>
                var next := Run(net, old(live), target, "/", old(Contents(response)), redirects + 1);
                && code == next.code && Contents(response) == next.response
                && State() == Extend(old(State()), next.log, next.wires, LeftOpen(next.hops))
              case None =>
                && code == HTTP_SUCCESSFUL && Contents(response) == old(Contents(response))
                && State() == Shut(old(State()), sock)
      decreases MAX_REDIRECTION + 1 - redirects, 0
    {
      hide *;
      var target := LocationOf(answer);
      if target.Some? {
        code := Perform(net, target.value, "/", response, redirects + 1);
        return;
      }
      CloseSocket(sock);
      return HTTP_SUCCESSFUL;
    }

    method Perform(net: nat -> Exchange, host: string, path: string, response: array?<char>, redirects: nat)
      returns (code: int)
      requires Net(net)
      requires response != null ==> response.Length >= MESSAGE_SIZE
      modifies this, response
      ensures var run := Run(net, old(live), host, path, old(Contents(response)), redirects);
              && code == run.code && Contents(response) == run.response
              && State() == Extend(old(State()), run.log, run.wires, LeftOpen(run.hops))
      decreases MAX_REDIRECTION + 1 - redirects, 1
    {
      ghost var t, before := State(), Contents(response);
      if redirects > MAX_REDIRECTION {
        RunStops(net, live, host, path, before, redirects);
        ExtendByNothing(t);
        return HTTP_NOT_FOUND;
      }
      RunTrail(net, t, host, path, before, redirects);
      assert Kernel(net(redirects));
      hide *;
      var sock, answer := Fetch(net(redirects), host, path, response);
      if answer.None? {
        return HTTP_UNKNOWN;
      }
      code := Conclude(net, sock, answer.value, response, redirects);
    }

    /** The calls that main makes one after another, into one buffer that it never clears. */
    method PerformAll(calls: seq<Call>, response: array?<char>)
      requires Fair(calls)
      requires response != null ==> response.Length >= MESSAGE_SIZE
      modifies this, response
      ensures var session := Requests(calls, old(State()), old(Contents(response)));
              State() == session.trail && Contents(response) == session.response
    {
      hide Run, Extend, Contents, Net, Shut;
      ghost var t, before := State(), Contents(response);
      assert calls[..0] == [];
      for i := 0 to |calls|
        invariant var session := Requests(calls[..i], t, before);
                  State() == session.trail && Contents(response) == session.response
      {
        assert calls[..i + 1][..i] == calls[..i];
        var code := Perform(calls[i].net, calls[i].host, calls[i].path, response, 0);
      }
      assert calls[..|calls|] == calls;
    }
  }
}
