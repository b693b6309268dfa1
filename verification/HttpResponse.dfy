/** The HTTP response object and the framing of the message it prints (section 6.3 of RFC 9112). */
module HttpResponses {
  import opened Wrappers
  import opened Text
  import opened HttpParsers

  datatype Response = Response(status: int, headers: map<string, string>, body: string)

  datatype Setter = ToStatus(status: int) | ToBody(body: string) | ToHeader(key: string, val: string)

  function CodeToMessage(code: int): string {
    match code
    case 200 => "OK"
    case 404 => "Not Found"
    case 500 => "Internal Server Error"
    case _ => "Unknown"
  }

  // ---------------------------------------------------------------- specification

  function Set(r: Response, s: Setter): Response {
    match s
    case ToStatus(status) => r.(status := status)
    case ToBody(body) => r.(body := body, headers := r.headers[CONTENT_LENGTH := Decimal(|body|)])
    case ToHeader(key, val) => r.(headers := r.headers[key := val])
  }

  function SetAll(r: Response, history: seq<Setter>): Response {
    if history == [] then r else Set(SetAll(r, history[..|history| - 1]), history[|history| - 1])
  }

  /** What the constructor leaves: its two parameters are ignored and the status is whatever it was. */
  function Fresh(garbage: int): Response { Response(garbage, map[], "") }

  function StatusLine(status: int): string {
    "HTTP/1.1 " + IntToString(status) + " " + CodeToMessage(status) + CRLF
  }

  function HeaderLines(order: seq<string>, headers: map<string, string>): string
    requires forall k :: k in order ==> k in headers
  {
    if order == [] then "" else order[0] + ":" + headers[order[0]] + CRLF + HeaderLines(order[1..], headers)
  }

  /** The printed message when the hash map is iterated in the order `order`. */
  function Render(r: Response, order: seq<string>): string
    requires forall k :: k in order ==> k in r.headers
  {
    StatusLine(r.status) + HeaderLines(order, r.headers) +
    CONTENT_LENGTH + ": " + Decimal(|r.body|) + CRLF + CRLF + r.body
  }

  /** An iteration order visits each key once. */
  ghost predicate IsOrder(order: seq<string>, headers: map<string, string>) {
    && (forall k :: k in order <==> k in headers)
    && forall i, j :: 0 <= i < j < |order| ==> order[i] != order[j]
  }

  // ---------------------------------------------------------------- the class

  class HTTPResponse {
    var status: int
    var headers: map<string, string>
    var body: string

    function Value(): Response
      reads this
    {
      Response(status, headers, body)
    }

    constructor (code: int, content: string, garbage: int)
      ensures Value() == Fresh(garbage)
    {
      status := garbage;
      headers := map[];
      body := "";
    }

    method SetStatus(status: int)
      modifies this
      ensures Value() == Set(old(Value()), ToStatus(status))
      ensures this.status == status && body == old(body) && headers == old(headers)
    {
      this.status := status;
    }

    method SetBody(body: string)
      modifies this
      ensures Value() == Set(old(Value()), ToBody(body))
      ensures this.body == body && status == old(status) && headers == old(headers)["Content-Length" := Decimal(|body|)]
    {
      this.body := body;
      SetHeader(CONTENT_LENGTH, Decimal(|this.body|));
    }

    method SetHeader(key: string, val: string)
      modifies this
      ensures Value() == Set(old(Value()), ToHeader(key, val))
      ensures headers == old(headers)[key := val] && status == old(status) && body == old(body)
    {
      headers := headers[key := val];
    }

    method ToString(order: seq<string>) returns (oss: string)
      requires IsOrder(order, headers)
      ensures oss == Render(Value(), order)
    {
      hide IntToString, CodeToMessage, Decimal;
      oss := "HTTP/1.1 " + IntToString(status) + " " + CodeToMessage(status) + CRLF;
      var i := 0;
      assert order[0..] == order;
      while i < |order|
        invariant 0 <= i <= |order|
        invariant oss + HeaderLines(order[i..], headers) == StatusLine(status) + HeaderLines(order, headers)
      {
        var key := order[i];
        var line := key + ":" + headers[key] + CRLF;
        assert order[i..][1..] == order[i + 1..] && order[i..][0] == key;
        assert oss + (line + HeaderLines(order[i + 1..], headers)) == oss + line + HeaderLines(order[i + 1..], headers);
        oss := oss + line;
        i := i + 1;
      }
      oss := oss + (CONTENT_LENGTH + ": " + Decimal(|body|) + CRLF);
      oss := oss + CRLF;
      oss := oss + body;
    }
  }

  // ---------------------------------------------------------------- the blank line

  /** What follows the first blank line. */
  function AfterBlankLine(s: string): Option<string> {
    if |s| < 4 then None
    else if s[..4] == "\r\n\r\n" then Some(s[4..])
    else AfterBlankLine(s[1..])
  }

  predicate OneLine(s: string) { '\r' !in s && '\n' !in s }

  /** A non-empty line does not hold the first blank line, and neither does its end. */
  lemma {:induction false} SkipLine(line: string, rest: string)
    requires OneLine(line) && rest != [] && rest[0] != '\r'
    ensures AfterBlankLine(line + CRLF + rest) == AfterBlankLine(rest)
    decreases |line|
  {
    var s := line + CRLF + rest;
    if line == [] {
      assert |rest| >= 2 ==> s[..4] == CRLF + rest[..2];
      assert |rest| >= 2 ==> s[..4][2] == rest[0];
      assert s[1..] == "\n" + rest && s[1..][1..] == rest;
      assert |rest| >= 3 ==> s[1..][..4][0] == '\n';
    } else {
      assert s[0] == line[0];
      assert line[0] in line;
      assert s[1..] == line[1..] + CRLF + rest;
      assert forall c :: c in line[1..] ==> c in line;
      SkipLine(line[1..], rest);
    }
  }

  lemma {:induction false} LastLine(line: string, body: string)
    requires OneLine(line)
    ensures AfterBlankLine(line + CRLF + CRLF + body) == Some(body)
    decreases |line|
  {
    var s := line + CRLF + CRLF + body;
    if line == [] {
      assert s[..4] == "\r\n\r\n" && s[4..] == body;
    } else {
      assert s[0] == line[0] && line[0] in line;
      assert s[1..] == line[1..] + CRLF + CRLF + body;
      assert forall c :: c in line[1..] ==> c in line;
      LastLine(line[1..], body);
    }
  }

  predicate PlainHeaders(headers: map<string, string>) {
    forall k :: k in headers ==> OneLine(k) && OneLine(headers[k])
  }

  lemma WordIsOneLine(w: string)
    requires IsWord(w)
    ensures OneLine(w)
  {
    assert forall i :: 0 <= i < |w| ==> !IsSpace(w[i]);
  }

  lemma {:induction false} SkipHeaders(order: seq<string>, headers: map<string, string>, rest: string)
    requires (forall k :: k in order ==> k in headers) && PlainHeaders(headers)
    requires rest != [] && rest[0] != '\r'
    ensures AfterBlankLine(HeaderLines(order, headers) + rest) == AfterBlankLine(rest)
    ensures (HeaderLines(order, headers) + rest)[0] != '\r'
    decreases |order|
  {
    if order == [] {
      assert "" + rest == rest;
    } else {
      var key := order[0];
      var line, tail := key + ":" + headers[key], HeaderLines(order[1..], headers) + rest;
      assert HeaderLines(order, headers) + rest == line + CRLF + tail;
      SkipHeaders(order[1..], headers, rest);
      assert OneLine(line);
      SkipLine(line, tail);
      assert (line + CRLF + tail)[0] == line[0] && line[0] in line;
    }
  }

  function LengthLine(r: Response): string { CONTENT_LENGTH + ": " + Decimal(|r.body|) }

  lemma OneLineConcat(a: string, b: string)
    ensures OneLine(a + b) <==> OneLine(a) && OneLine(b)
  {
  }

  lemma FixedTexts()
    ensures OneLine("HTTP/1.1 ") && OneLine(" ") && OneLine(CONTENT_LENGTH + ": ")
  {
  }

  lemma MessageIsOneLine(code: int)
    ensures OneLine(CodeToMessage(code))
  {
  }

  lemma FixedLines(r: Response)
    ensures OneLine(IntToString(r.status)) && OneLine(Decimal(|r.body|))
    ensures OneLine("HTTP/1.1 " + IntToString(r.status) + " " + CodeToMessage(r.status)) && OneLine(LengthLine(r))
  {
    FixedTexts();
    MessageIsOneLine(r.status);
    IntIsWord(r.status);
    DecimalIsWord(|r.body|);
    WordIsOneLine(IntToString(r.status));
    WordIsOneLine(Decimal(|r.body|));
    hide IntToString, Decimal, CodeToMessage, OneLine;
    var start := "HTTP/1.1 " + IntToString(r.status);
    OneLineConcat("HTTP/1.1 ", IntToString(r.status));
    OneLineConcat(start, " ");
    OneLineConcat(start + " ", CodeToMessage(r.status));
    OneLineConcat(CONTENT_LENGTH + ": ", Decimal(|r.body|));
  }

  lemma RenderParts(r: Response, order: seq<string>)
    requires forall k :: k in order ==> k in r.headers
    ensures Render(r, order) ==
            "HTTP/1.1 " + IntToString(r.status) + " " + CodeToMessage(r.status) + CRLF +
            (HeaderLines(order, r.headers) + (LengthLine(r) + CRLF + CRLF + r.body))
  {
    hide IntToString, CodeToMessage, Decimal, HeaderLines;
    var start, lines := StatusLine(r.status), HeaderLines(order, r.headers);
    RenderAssociates(start, lines, CONTENT_LENGTH + ": ", Decimal(|r.body|), CRLF + CRLF + r.body);
  }

  lemma RenderAssociates(a: string, b: string, c: string, d: string, e: string)
    ensures a + b + c + d + e == a + (b + (c + d + e))
  {
  }

  /** The first blank line of the printed message is followed by exactly the body, whatever the body holds. */
  lemma BodyFollowsTheBlankLine(r: Response, order: seq<string>)
    requires IsOrder(order, r.headers) && PlainHeaders(r.headers)
    ensures AfterBlankLine(Render(r, order)) == Some(r.body)
  {
    hide Render, IntToString, CodeToMessage, Decimal, AfterBlankLine, HeaderLines;
    var status := "HTTP/1.1 " + IntToString(r.status) + " " + CodeToMessage(r.status);
    var tail := LengthLine(r) + CRLF + CRLF + r.body;
    FixedLines(r);
    RenderParts(r, order);
    assert tail[0] == 'C';
    SkipHeaders(order, r.headers, tail);
    SkipLine(status, HeaderLines(order, r.headers) + tail);
    LastLine(LengthLine(r), r.body);
  }

  // ---------------------------------------------------------------- the declared length

  /** The values of the lines, up to the first line "\r", whose text before the colon is Content-Length. */
  function DeclaredLengths(s: string): seq<string>
    decreases |s|
  {
    match GetLine(s)
    case None => []
    case Some((line, rest)) => if line == "\r" then [] else LengthOf(line) + DeclaredLengths(rest)
  }

  function LengthOf(line: string): seq<string> {
    var l := WithoutCR(line);
    var pivot := Until(l, ':');
    if pivot < |l| && l[..pivot] == CONTENT_LENGTH then [l[pivot + 1..]] else []
  }

  /** A key that begins like a Content-Length line forges one: the text before its first colon is Content-Length. */
  predicate Forges(key: string) { CONTENT_LENGTH + ":" <= key }

  /** The value that a forged line declares. */
  function Forged(key: string, val: string): string
    requires Forges(key)
  {
    key[|CONTENT_LENGTH| + 1..] + ":" + val
  }

  function DeclaredBy(key: string, val: string): seq<string> {
    if key == CONTENT_LENGTH then [val] else if Forges(key) then [Forged(key, val)] else []
  }

  function DeclaredByAll(order: seq<string>, headers: map<string, string>): seq<string>
    requires forall k :: k in order ==> k in headers
  {
    if order == [] then [] else DeclaredBy(order[0], headers[order[0]]) + DeclaredByAll(order[1..], headers)
  }

  lemma ColonAfter(name: string, key: string)
    requires ':' !in name && name + ":" <= key
    ensures Until(key, ':') == |name| < |key| && key[..|name|] == name
  {
    hide Until;
    assert key[..|name| + 1] == name + ":";
    assert key[..|name|] == name;
    assert key[|name|] == (name + ":")[|name|];
    UntilIs(key, ':', |name|);
  }

  /** What stands before the first colon of a line decides whether the line begins with a given name. */
  lemma ColonPrefix(name: string, key: string)
    requires ':' !in name
    ensures name + ":" <= key <==> Until(key, ':') < |key| && key[..Until(key, ':')] == name
  {
    hide Until;
    var k := Until(key, ':');
    if k < |key| && key[..k] == name {
      assert key[..k + 1] == name + ":";
    }
    if name + ":" <= key {
      ColonAfter(name, key);
    }
  }

  lemma ContentLengthName()
    ensures ':' !in CONTENT_LENGTH && OneLine(CONTENT_LENGTH)
  {
  }

  lemma LengthOfHeader(key: string, val: string)
    ensures LengthOf(key + ":" + val + "\r") == DeclaredBy(key, val)
  {
    ContentLengthName();
    ColonPrefix(CONTENT_LENGTH, key);
    FirstColon(key, val);
    var l := key + ":" + val;
    assert WithoutCR(l + "\r") == l by {
      assert (l + "\r")[..|l|] == l;
    }
    hide Until, WithoutCR;
    assert key[..|key|] == key;
  }

  /** The first colon of a header line is that of the key, if it has one. */
  lemma FirstColon(key: string, val: string)
    ensures var l, k := key + ":" + val, Until(key, ':');
            && Until(l, ':') == k < |l| && l[..k] == key[..k]
            && l[k + 1..] == if k == |key| then val else key[k + 1..] + ":" + val
  {
    hide Until;
    var l, k := key + ":" + val, Until(key, ':');
    ColonAt(key, val, k);
    UntilIs(l, ':', k);
  }

  lemma ColonAt(key: string, val: string, k: nat)
    requires k == |key| || (k < |key| && key[k] == ':')
    ensures var l := key + ":" + val;
            l[k] == ':' && l[..k] == key[..k] && l[k + 1..] == if k == |key| then val else key[k + 1..] + ":" + val
  {
  }

  lemma DeclaredInLine(line: string, rest: string)
    requires OneLine(line) && line != []
    ensures DeclaredLengths(line + CRLF + rest) == LengthOf(line + "\r") + DeclaredLengths(rest)
  {
    assert line + CRLF + rest == (line + "\r") + "\n" + rest;
    GetLineIs(line + "\r", rest);
    assert (line + "\r")[0] == line[0] && line[0] in line;
  }

  lemma {:induction false} DeclaredInHeaders(order: seq<string>, headers: map<string, string>, rest: string)
    requires (forall k :: k in order ==> k in headers) && PlainHeaders(headers)
    ensures DeclaredLengths(HeaderLines(order, headers) + rest) == DeclaredByAll(order, headers) + DeclaredLengths(rest)
    decreases |order|
  {
    hide Until, GetLine, DeclaredLengths, LengthOf, DeclaredBy;
    if order == [] {
      assert "" + rest == rest;
    } else {
      var key := order[0];
      var line, tail := key + ":" + headers[key], HeaderLines(order[1..], headers) + rest;
      assert HeaderLines(order, headers) + rest == line + CRLF + tail;
      assert OneLine(line);
      DeclaredInLine(line, tail);
      LengthOfHeader(key, headers[key]);
      DeclaredInHeaders(order[1..], headers, rest);
    }
  }

  /** The lengths that the printed message declares: the stored one and the forged ones, and that of the body. */
  lemma DeclaredInMessage(r: Response, order: seq<string>)
    requires IsOrder(order, r.headers) && PlainHeaders(r.headers)
    ensures DeclaredLengths(Render(r, order)) == DeclaredByAll(order, r.headers) + [" " + Decimal(|r.body|)]
  {
    hide Until, GetLine, DeclaredLengths, LengthOf, Render, IntToString, CodeToMessage, Decimal, HeaderLines, DeclaredByAll;
    var status := "HTTP/1.1 " + IntToString(r.status) + " " + CodeToMessage(r.status);
    var tail := LengthLine(r) + CRLF + CRLF + r.body;
    FixedLines(r);
    RenderParts(r, order);
    DeclaredInLine(status, HeaderLines(order, r.headers) + tail);
    StatusDeclaresNothing(status);
    DeclaredInHeaders(order, r.headers, tail);
    BodyLengthDeclared(r);
  }

  lemma BodyLengthDeclared(r: Response)
    requires OneLine(LengthLine(r))
    ensures DeclaredLengths(LengthLine(r) + CRLF + CRLF + r.body) == [" " + Decimal(|r.body|)]
  {
    hide Until, GetLine, DeclaredLengths, LengthOf, Decimal;
    var tail := LengthLine(r) + CRLF + CRLF + r.body;
    assert tail == LengthLine(r) + CRLF + (CRLF + r.body);
    DeclaredInLine(LengthLine(r), CRLF + r.body);
    LengthOfHeader(CONTENT_LENGTH, " " + Decimal(|r.body|));
    assert LengthLine(r) + "\r" == CONTENT_LENGTH + ":" + (" " + Decimal(|r.body|)) + "\r";
    NothingAfterBlank(r.body);
  }

  lemma StatusDeclaresNothing(status: string)
    requires |status| > 0 && status[0] == 'H'
    ensures LengthOf(status + "\r") == []
  {
    var l := status;
    assert WithoutCR(status + "\r") == status;
    var pivot := Until(l, ':');
    assert pivot > 0 ==> l[..pivot][0] == 'H';
  }

  lemma NothingAfterBlank(body: string)
    ensures DeclaredLengths(CRLF + body) == []
  {
    assert CRLF + body == "\r" + "\n" + body;
    GetLineIs("\r", body);
  }

  predicate LengthsAgree(declared: seq<string>, n: nat) { forall i :: 0 <= i < |declared| ==> Stoi(declared[i]) == Ok(n) }

  lemma {:induction false} AllAgreeExactly(order: seq<string>, headers: map<string, string>, n: nat)
    requires forall k :: k in order ==> k in headers
    ensures LengthsAgree(DeclaredByAll(order, headers), n) <==>
            forall j :: 0 <= j < |order| ==> LengthsAgree(DeclaredBy(order[j], headers[order[j]]), n)
    decreases |order|
  {
    hide Stoi, DeclaredBy;
    if order != [] {
      AllAgreeExactly(order[1..], headers, n);
      LengthsAgreeConcat(DeclaredBy(order[0], headers[order[0]]), DeclaredByAll(order[1..], headers), n);
      assert forall j :: 0 < j < |order| ==> order[j] == order[1..][j - 1];
      assert forall j :: 0 <= j < |order| - 1 ==> order[1..][j] == order[j + 1];
    }
  }

  lemma LengthsAgreeConcat(a: seq<string>, b: seq<string>, n: nat)
    ensures LengthsAgree(a + b, n) <==> LengthsAgree(a, n) && LengthsAgree(b, n)
  {
    hide Stoi;
    assert forall i :: 0 <= i < |a| ==> a[i] == (a + b)[i];
    assert forall i :: 0 <= i < |b| ==> b[i] == (a + b)[|a| + i];
  }

  /** The stored length, if there is one, and every forged one read as the body's length. */
  predicate HonestHeaders(r: Response) {
    && (CONTENT_LENGTH in r.headers ==> Stoi(r.headers[CONTENT_LENGTH]) == Ok(|r.body|))
    && forall k :: k in r.headers && Forges(k) ==> Stoi(Forged(k, r.headers[k])) == Ok(|r.body|)
  }

  /**
   Every Content-Length of the message reads back as the body's length if and only if the
   stored one, if any, and every forged one do: a condition on the header map alone.
   */
  lemma LengthsAgreeExactly(r: Response, order: seq<string>)
    requires IsOrder(order, r.headers) && PlainHeaders(r.headers) && |r.body| <= INT_MAX
    ensures LengthsAgree(DeclaredLengths(Render(r, order)), |r.body|) <==> HonestHeaders(r)
  {
    hide Stoi, Decimal, Render, DeclaredLengths, DeclaredByAll, PlainHeaders;
    DeclaredInMessage(r, order);
    StoiOfDecimal(|r.body|);
    StoiAfterSpace(Decimal(|r.body|));
    var n := |r.body|;
    LengthsAgreeConcat(DeclaredByAll(order, r.headers), [" " + Decimal(n)], n);
    AllAgreeExactly(order, r.headers, n);
    HeadersAgreeExactly(r, order);
  }

  lemma HeadersAgreeExactly(r: Response, order: seq<string>)
    requires IsOrder(order, r.headers)
    ensures (forall j :: 0 <= j < |order| ==> LengthsAgree(DeclaredBy(order[j], r.headers[order[j]]), |r.body|))
            <==> HonestHeaders(r)
  {
    hide Stoi;
    assert !Forges(CONTENT_LENGTH);
    if forall j :: 0 <= j < |order| ==> LengthsAgree(DeclaredBy(order[j], r.headers[order[j]]), |r.body|) {
      forall k | k in r.headers && (k == CONTENT_LENGTH || Forges(k)) ensures Stoi(DeclaredBy(k, r.headers[k])[0]) == Ok(|r.body|) {
        assert k in order;
        var j :| 0 <= j < |order| && order[j] == k;
        assert LengthsAgree(DeclaredBy(order[j], r.headers[order[j]]), |r.body|);
      }
    }
  }

  // ---------------------------------------------------------------- setter histories

  /** The argument of the last set_status, or what the constructor left. */
  function LastStatus(garbage: int, history: seq<Setter>): int {
    if history == [] then garbage
    else
      match history[|history| - 1]
      case ToStatus(status) => status
      case _ => LastStatus(garbage, history[..|history| - 1])
  }

  /** The argument of the last set_body, or the empty text. */
  function LastBody(history: seq<Setter>): string {
    if history == [] then ""
    else
      match history[|history| - 1]
      case ToBody(body) => body
      case _ => LastBody(history[..|history| - 1])
  }

  /** The value of a key's last setter; set_body is one of Content-Length. */
  function LastValue(history: seq<Setter>, key: string): Option<string> {
    if history == [] then None
    else
      var before := LastValue(history[..|history| - 1], key);
      match history[|history| - 1]
      case ToStatus(_) => before
      case ToBody(body) => if key == "Content-Length" then Some(Decimal(|body|)) else before
      case ToHeader(k, val) => if key == k then Some(val) else before
  }

  lemma {:induction false} HistoryExactly(garbage: int, history: seq<Setter>)
    ensures var r := SetAll(Fresh(garbage), history);
            && r.status == LastStatus(garbage, history) && r.body == LastBody(history)
            && forall k :: (k in r.headers <==> LastValue(history, k).Some?)
                           && (k in r.headers ==> LastValue(history, k) == Some(r.headers[k]))
  {
    hide Decimal;
    if history != [] {
      HistoryExactly(garbage, history[..|history| - 1]);
    }
  }

  /** The header lines of a history, in an order of its keys. */
  function LinesOf(order: seq<string>, history: seq<Setter>): string
    requires forall k :: k in order ==> LastValue(history, k).Some?
  {
    if order == [] then "" else order[0] + ":" + LastValue(history, order[0]).value + "\r\n" + LinesOf(order[1..], history)
  }

  lemma {:induction false} LinesOfHistory(garbage: int, history: seq<Setter>, order: seq<string>)
    requires forall k :: k in order ==> LastValue(history, k).Some? && k in SetAll(Fresh(garbage), history).headers
    ensures LinesOf(order, history) == HeaderLines(order, SetAll(Fresh(garbage), history).headers)
    decreases |order|
  {
    hide LastValue, SetAll;
    if order != [] {
      HistoryExactly(garbage, history);
      LinesOfHistory(garbage, history, order[1..]);
    }
  }

  function Reason(status: int): string {
    if status == 200 then "OK" else if status == 404 then "Not Found" else if status == 500 then "Internal Server Error" else "Unknown"
  }

  /**
   The printed message, told from the setters alone: the status is that of the last set_status, the lines are the
   keys set, each with the value of its last setter, and length and body are those of the last set_body.
   */
  lemma MessageOfHistory(garbage: int, history: seq<Setter>, order: seq<string>)
    requires (forall k :: k in order <==> LastValue(history, k).Some?) && forall i, j :: 0 <= i < j < |order| ==> order[i] != order[j]
    ensures var r, status, body := SetAll(Fresh(garbage), history), LastStatus(garbage, history), LastBody(history);
            && IsOrder(order, r.headers)
            && Render(r, order) ==
               "HTTP/1.1 " + IntToString(status) + " " + Reason(status) + "\r\n" + LinesOf(order, history)
               + "Content-Length: " + Decimal(|body|) + "\r\n\r\n" + body
  {
    hide Decimal, LastValue, SetAll, LinesOf, HeaderLines, LastBody, LastStatus, StatusLine, Render;
    var r := SetAll(Fresh(garbage), history);
    HistoryExactly(garbage, history);
    LinesOfHistory(garbage, history, order);
    StatusLiterally(r.status);
    RenderLiterally(r, order);
  }

  lemma StatusLiterally(status: int)
    ensures StatusLine(status) == "HTTP/1.1 " + IntToString(status) + " " + Reason(status) + "\r\n"
  {
    hide IntToString;
  }

  lemma RenderLiterally(r: Response, order: seq<string>)
    requires forall k :: k in order ==> k in r.headers
    ensures Render(r, order) == StatusLine(r.status) + HeaderLines(order, r.headers)
                                + "Content-Length: " + Decimal(|r.body|) + "\r\n\r\n" + r.body
  {
    hide StatusLine, HeaderLines, Decimal;
    EndLiterally(StatusLine(r.status) + HeaderLines(order, r.headers), Decimal(|r.body|), r.body);
  }

  lemma EndLiterally(start: string, length: string, body: string)
    ensures start + CONTENT_LENGTH + ": " + length + CRLF + CRLF + body == start + "Content-Length: " + length + "\r\n\r\n" + body
  {
  }

  /** A setter that writes no CR or LF into the headers and never Content-Length itself. */
  predicate Plain(s: Setter) { s.ToHeader? ==> OneLine(s.key) && OneLine(s.val) && s.key != CONTENT_LENGTH }

  predicate AllPlain(history: seq<Setter>) { forall i :: 0 <= i < |history| ==> Plain(history[i]) }

  lemma {:induction false} PlainHistory(garbage: int, history: seq<Setter>)
    requires AllPlain(history)
    ensures var r := SetAll(Fresh(garbage), history);
            PlainHeaders(r.headers) && (CONTENT_LENGTH in r.headers ==> r.headers[CONTENT_LENGTH] == Decimal(|r.body|))
  {
    if history != [] {
      var n := |history| - 1;
      PlainHistory(garbage, history[..n]);
      if history[n].ToBody? {
        DecimalIsWord(|history[n].body|);
        WordIsOneLine(Decimal(|history[n].body|));
        assert OneLine(CONTENT_LENGTH);
      }
    }
  }

  /**
   Framing: after any history of setters that write no CR or LF and not Content-Length, in any
   iteration order, the text of the last set_body stands alone behind the first blank line; and all
   lengths are its own if and only if every forged one is.
   */
  lemma MessageIsFramed(garbage: int, history: seq<Setter>, order: seq<string>)
    requires AllPlain(history)
    requires IsOrder(order, SetAll(Fresh(garbage), history).headers) && |LastBody(history)| <= 0x7fff_ffff
    ensures var message, body := Render(SetAll(Fresh(garbage), history), order), LastBody(history);
            && AfterBlankLine(message) == Some(body)
            && (LengthsAgree(DeclaredLengths(message), |body|) <==>
                forall k :: LastValue(history, k).Some? && Forges(k) ==> Stoi(Forged(k, LastValue(history, k).value)) == Ok(|body|))
  {
    hide Stoi, Decimal, Render, DeclaredLengths, AfterBlankLine, LengthsAgree, Forges, Forged;
    var r := SetAll(Fresh(garbage), history);
    HistoryExactly(garbage, history);
    PlainHistory(garbage, history);
    BodyFollowsTheBlankLine(r, order);
    StoiOfDecimal(|r.body|);
    LengthsAgreeExactly(r, order);
  }

  const FORGING_KEY := CONTENT_LENGTH + ":7"

  lemma ForgedHeaders(garbage: int)
    ensures var r := SetAll(Fresh(garbage), [ToHeader(FORGING_KEY, "")]);
            r.body == "" && FORGING_KEY in r.headers && r.headers[FORGING_KEY] == "" && IsOrder([FORGING_KEY], r.headers)
  {
    var history := [ToHeader(FORGING_KEY, "")];
    assert history[..0] == [];
    assert SetAll(Fresh(garbage), []) == Fresh(garbage);
    assert SetAll(Fresh(garbage), history) == Set(Fresh(garbage), history[0]);
  }

  lemma ForgingKey()
    ensures Forges(FORGING_KEY) && Forged(FORGING_KEY, "") == "7:" && Plain(ToHeader(FORGING_KEY, ""))
  {
    assert FORGING_KEY[..|CONTENT_LENGTH| + 1] == CONTENT_LENGTH + ":";
    assert FORGING_KEY[|CONTENT_LENGTH| + 1..] == "7";
    assert |FORGING_KEY| != |CONTENT_LENGTH|;
    ContentLengthName();
    assert forall c :: c in FORGING_KEY ==> c in CONTENT_LENGTH || c in ":7";
  }

  /** One plain setter forges a length: the message with an empty body declares 7. */
  lemma ForgedLengthDeclared(garbage: int)
    ensures var history := [ToHeader(FORGING_KEY, "")];
            var r := SetAll(Fresh(garbage), history);
            && AllPlain(history) && r.body == "" && IsOrder([FORGING_KEY], r.headers)
            && DeclaredLengths(Render(r, [FORGING_KEY])) == ["7:", " 0"]
            && Stoi("7:") == Ok(7)
  {
    ForgedHeaders(garbage);
    ForgingKey();
    SevenIsRead();
    hide Stoi, SetAll, Render, DeclaredLengths, Forges, Forged;
    var history, order := [ToHeader(FORGING_KEY, "")], [FORGING_KEY];
    var r := SetAll(Fresh(garbage), history);
    assert AllPlain(history);
    PlainHistory(garbage, history);
    DeclaredInMessage(r, order);
    assert order[1..] == [];
    assert DeclaredByAll(order, r.headers) == ["7:"];
    assert " " + Decimal(0) == " 0";
  }

  lemma SevenIsRead()
    ensures Stoi("7:") == Ok(7)
  {
    var s := "7:";
    assert SkipSpace(s) == s;
    assert s[1..] == ":";
    assert DigitCount(s) == 1;
    assert s[..1] == "7";
    assert "7"[..0] == "";
    assert Value("7") == 7;
  }

  // ---------------------------------------------------------------- read by the project's own parser

  function ReadLines(order: seq<string>, headers: map<string, string>, m: map<string, string>): map<string, string>
    requires forall k :: k in order ==> k in headers
  {
    if order == [] then m
    else ReadLines(order[1..], headers, AddHeader(m, order[0] + ":" + headers[order[0]] + "\r"))
  }

  lemma {:induction false} ReadHeaderLines(order: seq<string>, headers: map<string, string>, rest: string, m: map<string, string>)
    requires (forall k :: k in order ==> k in headers) && PlainHeaders(headers)
    ensures ReadHeaders(HeaderLines(order, headers) + rest, m) == ReadHeaders(rest, ReadLines(order, headers, m))
    decreases |order|
  {
    hide AddHeader, GetLine;
    if order == [] {
      assert "" + rest == rest;
    } else {
      var key := order[0];
      var line, tail := key + ":" + headers[key] + "\r", HeaderLines(order[1..], headers) + rest;
      assert HeaderLines(order, headers) + rest == line + "\n" + tail;
      GetLineIs(line, tail);
      assert |line| >= 2;
      ReadHeaderLines(order[1..], headers, rest, AddHeader(m, line));
    }
  }

  function WithoutSpace(val: string): string { if val != [] && val[0] == ' ' then val[1..] else val }

  lemma AddSplit(m: map<string, string>, raw: string, k: nat)
    requires var l := WithoutCR(raw); Until(l, ':') == k < |l|
    ensures var l := WithoutCR(raw); AddHeader(m, raw) == m[l[..k] := WithoutSpace(l[k + 1..])]
  {
    hide WithoutCR, Until;
  }

  lemma PrintedLine(l: string)
    ensures WithoutCR(l + "\r") == l
  {
    assert (l + "\r")[..|l|] == l;
  }

  /** What the parser makes of a printed header line: the name up to the key's first colon, if it has one. */
  lemma AddLine(m: map<string, string>, key: string, val: string)
    ensures var k := Until(key, ':');
            AddHeader(m, key + ":" + val + "\r") ==
            m[key[..k] := WithoutSpace(if k == |key| then val else key[k + 1..] + ":" + val)]
  {
    hide Until, WithoutCR, AddHeader, WithoutSpace;
    var l := key + ":" + val;
    FirstColon(key, val);
    PrintedLine(l);
    AddSplit(m, l + "\r", Until(key, ':'));
  }

  predicate ColonFree(key: string) { ':' !in key }

  lemma ColonFreeName(key: string)
    ensures ColonFree(key[..Until(key, ':')])
    ensures ColonFree(key) ==> Until(key, ':') == |key| && key[..|key|] == key
  {
    assert key[..|key|] == key;
  }

  /** The parser reads no name with a colon. */
  lemma {:induction false} NamesColonFree(order: seq<string>, headers: map<string, string>, m: map<string, string>)
    requires (forall k :: k in order ==> k in headers) && forall k :: k in m ==> ColonFree(k)
    ensures forall k :: k in ReadLines(order, headers, m) ==> ColonFree(k)
    decreases |order|
  {
    hide ColonFree, AddHeader, Until;
    if order != [] {
      AddLine(m, order[0], headers[order[0]]);
      ColonFreeName(order[0]);
      NamesColonFree(order[1..], headers, AddHeader(m, order[0] + ":" + headers[order[0]] + "\r"));
    }
  }

  /** Colon-free headers are read one by one, each without a leading space. */
  lemma {:induction false} ReadLinesExactly(order: seq<string>, headers: map<string, string>, m: map<string, string>, k: string)
    requires (forall k :: k in order ==> k in headers) && forall k :: k in order ==> ColonFree(k)
    requires forall i, j :: 0 <= i < j < |order| ==> order[i] != order[j]
    ensures var read := ReadLines(order, headers, m);
            && (k in read <==> k in order || k in m)
            && (k in order ==> read[k] == WithoutSpace(headers[k]))
            && (k !in order && k in m ==> read[k] == m[k])
    decreases |order|
  {
    hide ColonFree, AddHeader, Until, WithoutSpace;
    if order != [] {
      var key, rest := order[0], order[1..];
      AddLine(m, key, headers[key]);
      ColonFreeName(key);
      assert k in order <==> k == key || k in rest;
      assert key !in rest;
      ReadLinesExactly(rest, headers, AddHeader(m, key + ":" + headers[key] + "\r"), k);
    }
  }

  /** Apart from Content-Length, no key holds a colon and no value begins with a space. */
  predicate ReadableHeaders(headers: map<string, string>) {
    forall k :: k in headers && k != CONTENT_LENGTH ==> ColonFree(k) && WithoutSpace(headers[k]) == headers[k]
  }

  /** The header map comes back, with the printed length, if and only if it is readable. */
  lemma HeadersComeBackExactly(r: Response, order: seq<string>)
    requires IsOrder(order, r.headers)
    ensures var length := Decimal(|r.body|);
            (ReadLines(order, r.headers, map[])[CONTENT_LENGTH := length] == r.headers[CONTENT_LENGTH := length])
            <==> ReadableHeaders(r.headers)
  {
    hide Decimal, ReadLines, WithoutSpace;
    ContentLengthName();
    var length := Decimal(|r.body|);
    var read, stored := ReadLines(order, r.headers, map[])[CONTENT_LENGTH := length], r.headers[CONTENT_LENGTH := length];
    NamesColonFree(order, r.headers, map[]);
    if forall k :: k in r.headers ==> ColonFree(k) {
      forall k ensures (k in read <==> k in stored) && (k in order && k != CONTENT_LENGTH ==> read[k] == WithoutSpace(r.headers[k])) {
        ReadLinesExactly(order, r.headers, map[], k);
      }
      if read == stored {
        forall k | k in r.headers && k != CONTENT_LENGTH ensures WithoutSpace(r.headers[k]) == r.headers[k] {
          assert stored[k] == r.headers[k] && read[k] == stored[k];
        }
      }
    } else {
      var k :| k in r.headers && !ColonFree(k);
      assert k in stored && k !in read;
    }
  }

  /**
   The project's request parser, given any printed response, returns the status and exactly the body;
   and the header map with the printed length if and only if no key holds a colon and no value begins
   with a space, Content-Length apart.
   */
  lemma ParserReadsTheBody(r: Response, order: seq<string>)
    requires IsOrder(order, r.headers) && PlainHeaders(r.headers) && |r.body| <= INT_MAX
    ensures var p := ParseSpec(Render(r, order));
            && p.Done? && p.request.verb == "HTTP/1.1" && p.request.path == IntToString(r.status) && p.request.body == r.body
            && (p.request.headers == r.headers[CONTENT_LENGTH := Decimal(|r.body|)] <==> ReadableHeaders(r.headers))
  {
    hide Stoi, Decimal, Render, ReadHeaders, ReadLines, HeaderLines, GetLine, IntToString, CodeToMessage, ReadFirst, AddHeader, ReadableHeaders;
    var first := "HTTP/1.1 " + IntToString(r.status) + " " + CodeToMessage(r.status) + "\r";
    var tail := LengthLine(r) + CRLF + CRLF + r.body;
    var rest := HeaderLines(order, r.headers) + tail;
    FixedLines(r);
    RenderParts(r, order);
    assert Render(r, order) == first + "\n" + rest;
    GetLineIs(first, rest);
    IntIsWord(r.status);
    assert IsWord("HTTP/1.1");
    assert first == "HTTP/1.1" + " " + IntToString(r.status) + " " + CodeToMessage(r.status) + "\r";
    ReadPrintedFirst("HTTP/1.1", IntToString(r.status), CodeToMessage(r.status));
    ReadHeaderLines(order, r.headers, tail, map[]);
    var m := ReadLines(order, r.headers, map[]);
    ReadLengthAndBody(r, m);
    StoiOfDecimal(|r.body|);
    HeadersComeBackExactly(r, order);
  }

  lemma ReadLengthAndBody(r: Response, m: map<string, string>)
    requires OneLine(Decimal(|r.body|))
    ensures ReadHeaders(LengthLine(r) + CRLF + CRLF + r.body, m) == (m[CONTENT_LENGTH := Decimal(|r.body|)], r.body)
  {
    var h := Header(CONTENT_LENGTH, Decimal(|r.body|));
    assert LengthLine(r) + CRLF + CRLF + r.body == PrintHeaders([h]) + CRLF + r.body by {
      assert PrintHeaders([h]) == h.key + ": " + h.val + CRLF + PrintHeaders([h][1..]);
      assert PrintHeaders([h][1..]) == "";
    }
    ReadPrinted([h], m, r.body);
    assert LastWins([h], m) == LastWins([h][1..], m[h.key := h.val]);
  }
}
