/** The HTTP request parser, and the printers whose messages it reads back (section 2.1 of RFC 9112). */
module HttpParsers {
  import opened Wrappers
  import opened Text

  datatype Request = Request(verb: string, path: string, headers: map<string, string>, body: string)

  /** stoi throws the first two; resize throws the third for a negative length. */
  datatype ParseError = BadNumber(error: NumberError) | LengthError
  datatype Parsed = Done(request: Request) | Thrown(error: ParseError)

  const CONTENT_LENGTH := "Content-Length"

  // ---------------------------------------------------------------- specification of the parser

  function WithoutCR(line: string): string {
    if line != [] && line[|line| - 1] == '\r' then line[..|line| - 1] else line
  }

  /** A header line adds its key and value; a line without a colon adds nothing. */
  function AddHeader(headers: map<string, string>, line: string): map<string, string> {
    var l := WithoutCR(line);
    var pivot := Until(l, ':');
    if pivot == |l| then headers
    else
      var val := l[pivot + 1..];
      headers[l[..pivot] := if val != [] && val[0] == ' ' then val[1..] else val]
  }

  /** The header map read up to the line "\r" or the end, and what follows. */
  function ReadHeaders(s: string, headers: map<string, string>): (map<string, string>, string)
    decreases |s|
  {
    match GetLine(s)
    case None => (headers, s)
    case Some((line, rest)) =>
      if line == "\r" then (headers, rest) else ReadHeaders(rest, AddHeader(headers, line))
  }

  function ReadFirst(line: string): (string, string) {
    if line == "\r" then ("", "") else
    var (verb, rest) := NextWord(line);
    (verb, NextWord(rest).0)
  }

  /** resize(n) and read(n): the text cut to n characters, or filled up with zeros. */
  function Resized(s: string, n: nat): (r: string)
    ensures |r| == n
  {
    if n <= |s| then s[..n] else s + seq(n - |s|, _ => 0 as char)
  }

  function WithBody(verb: string, path: string, headers: map<string, string>, rest: string): Parsed {
    if CONTENT_LENGTH !in headers then Done(Request(verb, path, headers, ""))
    else
      match Stoi(headers[CONTENT_LENGTH])
      case Bad(e) => Thrown(BadNumber(e))
      case Ok(n) => if n < 0 then Thrown(LengthError) else Done(Request(verb, path, headers, Resized(rest, n)))
  }

  function ParseSpec(raw: string): Parsed {
    match GetLine(raw)
    case None => WithBody("", "", map[], "")
    case Some((line, rest)) =>
      var (verb, path) := ReadFirst(line);
      var (headers, tail) := ReadHeaders(rest, map[]);
      WithBody(verb, path, headers, tail)
  }

  // ---------------------------------------------------------------- the parser

  /** The stream behind the parser: a string and the position of the next character. */
  class LineStream {
    const text: string
    var pos: nat

    ghost predicate Valid() reads this { pos <= |text| }

    function Rest(): string
      requires Valid()
      reads this
    {
      text[pos..]
    }

    constructor (raw: string)
      ensures Valid() && text == raw && Rest() == raw
    {
      text := raw;
      pos := 0;
    }

    /** std::getline; `ok` is false when nothing is left. */
    method ReadLine() returns (ok: bool, line: string)
      requires Valid()
      modifies this
      ensures Valid() && pos >= old(pos) && (ok ==> pos > old(pos))
      ensures match GetLine(old(Rest()))
              case None => !ok && Rest() == old(Rest())
              case Some((l, rest)) => ok && line == l && Rest() == rest
    {
      if pos == |text| {
        return false, "";
      }
      var end := pos;
      while end < |text| && text[end] != '\n'
        invariant pos <= end <= |text|
        invariant forall j :: pos <= j < end ==> text[j] != '\n'
      {
        end := end + 1;
      }
      line := text[pos..end];
      ghost var rest := Rest();
      assert rest[..end - pos] == line;
      if end < |text| {
        UntilIs(rest, '\n', end - pos);
        assert rest[end - pos + 1..] == text[end + 1..];
        pos := end + 1;
      } else {
        assert Until(rest, '\n') == |rest|;
        assert line == rest;
        pos := end;
      }
      ok := true;
    }
  }

  /** The body of the header loop: the carriage return is popped, the line cut at the colon, one space erased. */
  method ParseHeaderLine(raw: string, headers: map<string, string>) returns (r: map<string, string>)
    ensures r == AddHeader(headers, raw)
  {
    var line := raw;
    if line != "" && line[|line| - 1] == '\r' {
      line := line[..|line| - 1];
    }
    r := headers;
    var pivot := Until(line, ':');
    if pivot != |line| {
      var key := line[..pivot];
      var val := line[pivot + 1..];
      if val != "" && val[0] == ' ' {
        val := val[1..];
      }
      r := r[key := val];
    }
  }

  method ParseHeaders(iss: LineStream) returns (headers: map<string, string>)
    requires iss.Valid()
    modifies iss
    ensures iss.Valid() && (headers, iss.Rest()) == ReadHeaders(old(iss.Rest()), map[])
  {
    hide AddHeader;
    headers := map[];
    ghost var before := iss.Rest();
    var ok, line := iss.ReadLine();
    while ok && line != "\r"
      invariant iss.Valid()
      invariant match GetLine(before) { case None => !ok && iss.Rest() == before case Some((l, rest)) => ok && line == l && iss.Rest() == rest }
      invariant ReadHeaders(before, headers) == ReadHeaders(old(iss.Rest()), map[])
      decreases |before|
    {
      headers := ParseHeaderLine(line, headers);
      before := iss.Rest();
      ok, line := iss.ReadLine();
    }
  }

  /** resize to the declared length, then read into the body. */
  method ReadBody(iss: LineStream, bodyLength: nat) returns (body: string)
    requires iss.Valid()
    ensures body == Resized(iss.Rest(), bodyLength)
    ensures body == if bodyLength <= |iss.Rest()| then iss.Rest()[..bodyLength]
                    else iss.Rest() + seq(bodyLength - |iss.Rest()|, _ => 0 as char)
  {
    body := seq(bodyLength, _ => 0 as char);
    var left := |iss.text| - iss.pos;
    var available := if bodyLength <= left then bodyLength else left;
    body := iss.text[iss.pos..iss.pos + available] + body[available..];
  }

  method Parse(raw: string) returns (r: Parsed)
    ensures r == ParseSpec(raw)
  {
    hide ReadHeaders, AddHeader, NextWord, Resized, Stoi;
    var iss := new LineStream(raw);
    var verb, path := "", "";
    var ok, line := iss.ReadLine();
    if ok && line != "\r" {
      var first := NextWord(line);
      verb := first.0;
      path := NextWord(first.1).0;
    }
    EmptyHasNoHeaders();
    var headers := ParseHeaders(iss);
    if CONTENT_LENGTH in headers {
      var number := Stoi(headers[CONTENT_LENGTH]);
      if number.Bad? {
        return Thrown(BadNumber(number.error));
      }
      if number.value < 0 {
        return Thrown(LengthError);
      }
      var body := ReadBody(iss, number.value);
      return Done(Request(verb, path, headers, body));
    }
    return Done(Request(verb, path, headers, ""));
  }

  lemma EmptyHasNoHeaders()
    ensures ReadHeaders("", map[]) == (map[], "")
  {
  }

  // ---------------------------------------------------------------- printed requests

  datatype Header = Header(key: string, val: string)

  /** Keys without colon or newline, values without newline. */
  predicate Legal(h: Header) { ':' !in h.key && '\n' !in h.key && '\n' !in h.val }

  predicate AllLegal(hs: seq<Header>) { forall i :: 0 <= i < |hs| ==> Legal(hs[i]) }

  function PrintHeaders(hs: seq<Header>): string {
    if hs == [] then "" else hs[0].key + ": " + hs[0].val + CRLF + PrintHeaders(hs[1..])
  }

  function Print(verb: string, path: string, version: string, hs: seq<Header>, body: string): string {
    verb + " " + path + " " + version + CRLF + PrintHeaders(hs) + CRLF + body
  }

  /** The header map in which a repeated key has its last value. */
  function LastWins(hs: seq<Header>, headers: map<string, string>): map<string, string> {
    if hs == [] then headers else LastWins(hs[1..], headers[hs[0].key := hs[0].val])
  }

  lemma AddPrinted(headers: map<string, string>, h: Header)
    requires Legal(h)
    ensures AddHeader(headers, h.key + ": " + h.val + "\r") == headers[h.key := h.val]
  {
    var l := h.key + ": " + h.val;
    assert (l + "\r")[..|l|] == l;
    assert l[..|h.key|] == h.key;
    UntilIs(l, ':', |h.key|);
    assert l[|h.key| + 1..] == " " + h.val;
    assert (" " + h.val)[1..] == h.val;
  }

  /** What any header line adds: the text before the first colon as key, what follows it, less one space, as value. */
  lemma AddKeyed(headers: map<string, string>, key: string, val: string)
    requires ':' !in key
    ensures AddHeader(headers, key + ":" + val + "\r") ==
            headers[key := if val != "" && val[0] == ' ' then val[1..] else val]
  {
    var l := key + ":" + val;
    assert (l + "\r")[..|l|] == l;
    assert l[..|key|] == key && l[|key| + 1..] == val;
    UntilIs(l, ':', |key|);
  }

  lemma AddUnkeyed(headers: map<string, string>, line: string)
    requires ':' !in line
    ensures AddHeader(headers, line + "\r") == headers
  {
    assert (line + "\r")[..|line|] == line;
  }

  /** The carriage return at its end makes no difference. */
  lemma AddWithoutReturn(headers: map<string, string>, line: string)
    requires line != "" ==> line[|line| - 1] != '\r'
    ensures AddHeader(headers, line) == AddHeader(headers, line + "\r")
  {
    assert (line + "\r")[..|line|] == line;
    hide Until;
  }

  lemma {:induction false} ReadFront(hs: seq<Header>, headers: map<string, string>, tail: string)
    requires AllLegal(hs)
    ensures ReadHeaders(PrintHeaders(hs) + tail, headers) == ReadHeaders(tail, LastWins(hs, headers))
    decreases |hs|
  {
    hide AddHeader, GetLine;
    if hs == [] {
      assert "" + tail == tail;
    } else {
      var h, rest := hs[0], PrintHeaders(hs[1..]) + tail;
      var line := h.key + ": " + h.val + "\r";
      assert PrintHeaders(hs) + tail == line + "\n" + rest;
      GetLineIs(line, rest);
      AddPrinted(headers, h);
      assert |line| > 1;
      ReadFront(hs[1..], headers[h.key := h.val], tail);
    }
  }

  lemma ReadPrinted(hs: seq<Header>, headers: map<string, string>, body: string)
    requires AllLegal(hs)
    ensures ReadHeaders(PrintHeaders(hs) + CRLF + body, headers) == (LastWins(hs, headers), body)
  {
    ReadFront(hs, headers, CRLF + body);
    assert PrintHeaders(hs) + CRLF + body == PrintHeaders(hs) + (CRLF + body);
    GetLineIs("\r", body);
    assert CRLF + body == "\r" + "\n" + body;
  }

  lemma ReadPrintedFirst(verb: string, path: string, version: string)
    requires IsWord(verb) && IsWord(path)
    ensures ReadFirst(verb + " " + path + " " + version + "\r") == (verb, path)
  {
    var line := verb + " " + path + " " + version + "\r";
    assert line[0] == verb[0];
    var rest := " " + path + " " + version + "\r";
    assert line == verb + rest;
    NextWordIs(verb, rest);
    var tail := " " + version + "\r";
    assert rest == " " + path + tail;
    NextWordAfterSpace(path, tail);
  }

  lemma PrintedIsRead(verb: string, path: string, version: string, hs: seq<Header>, body: string)
    requires IsWord(verb) && IsWord(path) && '\n' !in version && AllLegal(hs)
    ensures ParseSpec(Print(verb, path, version, hs, body)) == WithBody(verb, path, LastWins(hs, map[]), body)
  {
    var line := verb + " " + path + " " + version + "\r";
    var rest := PrintHeaders(hs) + CRLF + body;
    assert Print(verb, path, version, hs, body) == line + "\n" + rest;
    NoNewline(verb, path, version);
    GetLineIs(line, rest);
    ReadPrintedFirst(verb, path, version);
    ReadPrinted(hs, map[], body);
  }

  /**
   Parsing a printed request gives back its method, path and last-wins header map; and the body, cut to the length
   that the last Content-Length declares or filled up to it with zeros, no body without one, or what stoi or resize throws.
   */
  lemma ParsePrinted(verb: string, path: string, version: string, hs: seq<Header>, body: string)
    requires IsWord(verb) && IsWord(path) && '\n' !in version && AllLegal(hs)
    ensures var parsed, headers := ParseSpec(Print(verb, path, version, hs, body)), LastWins(hs, map[]);
            if "Content-Length" !in headers then parsed == Done(Request(verb, path, headers, ""))
            else
              match Stoi(headers["Content-Length"])
              case Bad(e) => parsed == Thrown(BadNumber(e))
              case Ok(n) =>
                if n < 0 then parsed == Thrown(LengthError)
                else if n <= |body| then parsed == Done(Request(verb, path, headers, body[..n]))
                else parsed == Done(Request(verb, path, headers, body + seq(n - |body|, _ => 0 as char)))
  {
    hide Stoi, LastWins, Print, ParseSpec;
    PrintedIsRead(verb, path, version, hs, body);
  }

  /** Without a blank line the headers are read to the end of the text, with or without a newline there. */
  lemma CutOffIsRead(hs: seq<Header>, h: Header, headers: map<string, string>)
    requires AllLegal(hs) && Legal(h) && (h.val != "" ==> h.val[|h.val| - 1] != '\r')
    ensures ReadHeaders(PrintHeaders(hs), headers) == (LastWins(hs, headers), "")
    ensures ReadHeaders(PrintHeaders(hs) + (h.key + ": " + h.val), headers) == (LastWins(hs, headers)[h.key := h.val], "")
  {
    hide AddHeader, LastWins, PrintHeaders;
    var last, m := h.key + ": " + h.val, LastWins(hs, headers);
    ReadFront(hs, headers, "");
    ReadFront(hs, headers, last);
    assert PrintHeaders(hs) + "" == PrintHeaders(hs);
    AddPrinted(m, h);
    AddWithoutReturn(m, last);
    assert last[|h.key|] == ':';
    LastLineIs(last);
    assert ReadHeaders("", AddHeader(m, last)) == (AddHeader(m, last), "");
  }

  lemma LastLineIs(line: string)
    requires line != "" && '\n' !in line
    ensures GetLine(line) == Some((line, ""))
  {
    assert forall i :: 0 <= i < |line| ==> line[i] in line;
  }

  /** An empty line that ends without a carriage return does not end the headers. */
  lemma BareNewlineIsSkipped(headers: map<string, string>, rest: string)
    ensures ReadHeaders("\n" + rest, headers) == ReadHeaders(rest, headers)
  {
    assert "" + "\n" + rest == "\n" + rest;
    GetLineIs("", rest);
    assert Until("", ':') == 0;
  }

  /** A request whose first line is blank has no method and no path; its headers are read all the same. */
  lemma BlankFirstLine(hs: seq<Header>, body: string)
    requires AllLegal(hs)
    ensures ParseSpec("\r\n" + PrintHeaders(hs) + CRLF + body) == WithBody("", "", LastWins(hs, map[]), body)
  {
    hide Stoi, LastWins, WithBody, GetLine, ReadHeaders, PrintHeaders;
    var rest := PrintHeaders(hs) + CRLF + body;
    assert "\r\n" + PrintHeaders(hs) + CRLF + body == "\r" + "\n" + rest;
    GetLineIs("\r", rest);
    ReadPrinted(hs, map[], body);
  }

  lemma NoNewline(verb: string, path: string, version: string)
    requires IsWord(verb) && IsWord(path) && '\n' !in version
    ensures '\n' !in verb + " " + path + " " + version + "\r"
  {
    assert forall i :: 0 <= i < |verb| ==> !IsSpace(verb[i]);
    assert forall i :: 0 <= i < |path| ==> !IsSpace(path[i]);
  }

  /**
   The round trip, exactly: the request comes back whole, body included, if and only if
   the last Content-Length reads as the body's length, or there is none and no body.
   */
  lemma RoundTripExactly(verb: string, path: string, version: string, hs: seq<Header>, body: string)
    requires IsWord(verb) && IsWord(path) && '\n' !in version && AllLegal(hs)
    ensures var headers := LastWins(hs, map[]);
            ParseSpec(Print(verb, path, version, hs, body)) == Done(Request(verb, path, headers, body))
            <==> if CONTENT_LENGTH in headers then Stoi(headers[CONTENT_LENGTH]) == Ok(|body|) else body == ""
  {
    ParsePrinted(verb, path, version, hs, body);
  }

  lemma {:induction false} LastWinsAppend(hs: seq<Header>, h: Header, headers: map<string, string>)
    ensures LastWins(hs + [h], headers) == LastWins(hs, headers)[h.key := h.val]
    decreases |hs|
  {
    if hs == [] {
      assert [] + [h] == [h];
    } else {
      LastWinsAppend(hs[1..], h, headers[hs[0].key := hs[0].val]);
      assert (hs + [h])[1..] == hs[1..] + [h];
    }
  }

  /** With the body's length printed in decimal as the last header, every request below 2^31 comes back whole. */
  lemma RoundTripWithDecimalLength(verb: string, path: string, version: string, hs: seq<Header>, body: string)
    requires IsWord(verb) && IsWord(path) && '\n' !in version && AllLegal(hs) && |body| <= INT_MAX
    ensures var all := hs + [Header(CONTENT_LENGTH, Decimal(|body|))];
            ParseSpec(Print(verb, path, version, all, body)) ==
            Done(Request(verb, path, LastWins(hs, map[])[CONTENT_LENGTH := Decimal(|body|)], body))
  {
    hide Decimal, Stoi, LastWins, Print, ParseSpec;
    var h := Header(CONTENT_LENGTH, Decimal(|body|));
    DecimalIsWord(|body|);
    assert '\n' !in h.val by {
      assert forall i :: 0 <= i < |h.val| ==> !IsSpace(h.val[i]);
    }
    LastWinsAppend(hs, h, map[]);
    StoiOfDecimal(|body|);
    RoundTripExactly(verb, path, version, hs + [h], body);
  }
}
