/** The pieces of the C++ string library that the HTTP code relies on. */
module Text {
  import opened Wrappers

  const CRLF := "\r\n"

  /** The position of the first c, or the length. */
  function Until(s: string, c: char): (r: nat)
    ensures r <= |s| && c !in s[..r]
    ensures r < |s| ==> s[r] == c
  {
    if s == [] || s[0] == c then 0 else 1 + Until(s[1..], c)
  }

  lemma UntilIs(s: string, c: char, k: nat)
    requires k < |s| && s[k] == c && c !in s[..k]
    ensures Until(s, c) == k
  {
    var r := Until(s, c);
    forall i | 0 <= i < k ensures s[i] != c {
      assert s[i] in s[..k];
    }
    forall i | 0 <= i < r ensures s[i] != c {
      assert s[i] in s[..r];
    }
  }

  /** std::getline: the text up to the next newline or the end, and what follows; None at the end. */
  function GetLine(s: string): (r: Option<(string, string)>)
    ensures r.None? <==> s == []
    ensures r.Some? ==> |r.value.1| < |s|
  {
    if s == [] then None
    else
      var k := Until(s, '\n');
      if k == |s| then Some((s, [])) else Some((s[..k], s[k + 1..]))
  }

  lemma GetLineIs(line: string, rest: string)
    requires '\n' !in line
    ensures GetLine(line + "\n" + rest) == Some((line, rest))
  {
    var s := line + "\n" + rest;
    assert s[..|line|] == line;
    UntilIs(s, '\n', |line|);
    assert s[|line| + 1..] == rest;
  }

  // ---------------------------------------------------------------- words

  predicate IsSpace(c: char) { c == ' ' || c == '\t' || c == '\n' || c == 11 as char || c == 12 as char || c == '\r' }

  /** Non-empty and free of whitespace. */
  predicate IsWord(s: string) { s != [] && forall i :: 0 <= i < |s| ==> !IsSpace(s[i]) }

  function SkipSpace(s: string): string {
    if s != [] && IsSpace(s[0]) then SkipSpace(s[1..]) else s
  }

  function WordLength(s: string): (r: nat)
    ensures r <= |s| && forall i :: 0 <= i < r ==> !IsSpace(s[i])
    ensures r < |s| ==> IsSpace(s[r])
  {
    if s == [] || IsSpace(s[0]) then 0 else 1 + WordLength(s[1..])
  }

  /** operator>> into a string: the next word, empty at the end, and what follows. */
  function NextWord(s: string): (string, string) {
    var t := SkipSpace(s);
    (t[..WordLength(t)], t[WordLength(t)..])
  }

  lemma NextWordIs(w: string, rest: string)
    requires IsWord(w) && (rest != [] ==> IsSpace(rest[0]))
    ensures NextWord(w + rest) == (w, rest)
  {
    var s := w + rest;
    assert SkipSpace(s) == s;
    var r := WordLength(s);
    forall i | 0 <= i < |w| ensures !IsSpace(s[i]) {
      assert s[i] == w[i];
    }
    assert rest != [] ==> s[|w|] == rest[0];
    assert s[..|w|] == w && s[|w|..] == rest;
  }

  lemma NextWordAfterSpace(w: string, rest: string)
    requires IsWord(w) && (rest != [] ==> IsSpace(rest[0]))
    ensures NextWord(" " + w + rest) == (w, rest)
  {
    assert (" " + w + rest)[1..] == w + rest;
    assert SkipSpace(" " + w + rest) == SkipSpace(w + rest);
    NextWordIs(w, rest);
  }

  // ---------------------------------------------------------------- decimal numbers

  predicate IsDigit(c: char) { '0' <= c <= '9' }

  function Digit(n: nat): char requires n < 10 { '0' + n as char }

  /** std::to_string of an unsigned number. */
  function Decimal(n: nat): string {
    if n < 10 then [Digit(n)] else Decimal(n / 10) + [Digit(n % 10)]
  }

  /** operator<< of an int. */
  function IntToString(n: int): string { if n < 0 then "-" + Decimal(-n) else Decimal(n) }

  function DigitCount(s: string): (r: nat)
    ensures r <= |s| && forall i :: 0 <= i < r ==> IsDigit(s[i])
    ensures r < |s| ==> !IsDigit(s[r])
  {
    if s == [] || !IsDigit(s[0]) then 0 else 1 + DigitCount(s[1..])
  }

  function Value(digits: string): nat
    requires forall i :: 0 <= i < |digits| ==> IsDigit(digits[i])
  {
    if digits == [] then 0
    else
      var c := digits[|digits| - 1];
      assert IsDigit(c);
      Value(digits[..|digits| - 1]) * 10 + (c as int - '0' as int)
  }

  datatype NumberError = InvalidArgument | OutOfRange
  datatype Number = Ok(value: int) | Bad(error: NumberError)

  const INT_MAX := 0x7fff_ffff

  /** std::stoi: leading whitespace, an optional sign, then as many digits as there are. */
  function Stoi(s: string): Number {
    var t := SkipSpace(s);
    var signed := t != [] && (t[0] == '-' || t[0] == '+');
    var u := if signed then t[1..] else t;
    var k := DigitCount(u);
    if k == 0 then Bad(InvalidArgument)
    else
      var v: int := if signed && t[0] == '-' then -(Value(u[..k]) as int) else Value(u[..k]);
      if -INT_MAX - 1 <= v <= INT_MAX then Ok(v) else Bad(OutOfRange)
  }

  lemma {:induction false} DecimalDigits(n: nat)
    ensures Decimal(n) != [] && (forall i :: 0 <= i < |Decimal(n)| ==> IsDigit(Decimal(n)[i]))
    ensures Value(Decimal(n)) == n
  {
    if n >= 10 {
      DecimalDigits(n / 10);
      assert Decimal(n)[..|Decimal(n)| - 1] == Decimal(n / 10);
    } else {
      assert [Digit(n)][..0] == [];
    }
  }

  /** What to_string prints, stoi reads back, up to the largest int; beyond it stoi throws. */
  lemma StoiOfDecimal(n: nat)
    ensures Stoi(Decimal(n)) == if n <= INT_MAX then Ok(n) else Bad(OutOfRange)
  {
    var s := Decimal(n);
    DecimalDigits(n);
    assert IsDigit(s[0]);
    assert SkipSpace(s) == s;
    var k := DigitCount(s);
    assert s[..k] == s;
  }

  /** A leading space, as in a header value, makes no difference. */
  lemma StoiAfterSpace(s: string)
    ensures Stoi(" " + s) == Stoi(s)
  {
    assert (" " + s)[1..] == s;
  }

  /** The same for operator<< of an int. */
  lemma StoiOfInt(n: int)
    requires -0x8000_0000 <= n <= 0x7fff_ffff
    ensures Stoi(IntToString(n)) == Ok(n)
  {
    hide Stoi, Decimal, Value;
    if n >= 0 {
      StoiOfDecimal(n);
    } else {
      DecimalDigits(-n);
      StoiMinus(Decimal(-n));
    }
  }

  lemma StoiMinus(d: string)
    requires d != "" && (forall i :: 0 <= i < |d| ==> IsDigit(d[i])) && Value(d) <= 0x8000_0000
    ensures Stoi("-" + d) == Ok(-(Value(d) as int))
  {
    DigitsBefore(d, "");
    hide DigitCount, Value;
    assert d + "" == d && d[..|d|] == d;
    assert ("-" + d)[1..] == d;
    assert SkipSpace("-" + d) == "-" + d;
  }

  lemma {:induction false} DigitsBefore(d: string, tail: string)
    requires (forall i :: 0 <= i < |d| ==> IsDigit(d[i])) && (tail != "" ==> !IsDigit(tail[0]))
    ensures DigitCount(d + tail) == |d|
    decreases |d|
  {
    if d == "" {
      assert d + tail == tail;
    } else {
      assert (d + tail)[1..] == d[1..] + tail;
      DigitsBefore(d[1..], tail);
    }
  }

  lemma StoiPlus(t: string)
    requires t != "" && IsDigit(t[0])
    ensures Stoi("+" + t) == Stoi(t)
  {
    hide DigitCount, Value;
    assert ("+" + t)[1..] == t;
    assert SkipSpace(t) == t && SkipSpace("+" + t) == "+" + t;
  }

  lemma StoiOfDigits(d: string, tail: string)
    requires d != "" && (forall i :: 0 <= i < |d| ==> IsDigit(d[i])) && (tail != "" ==> !IsDigit(tail[0]))
    ensures Stoi(d + tail) == if Value(d) <= 0x7fff_ffff then Ok(Value(d)) else Bad(OutOfRange)
  {
    DigitsBefore(d, tail);
    hide DigitCount, Value;
    var t := d + tail;
    assert t[0] == d[0];
    assert SkipSpace(t) == t;
    assert t[..|d|] == d;
  }

  /** A plus sign in front of the digits and any text behind them make no difference. */
  lemma StoiWithTail(n: nat, tail: string)
    requires tail != "" ==> !IsDigit(tail[0])
    ensures Stoi(Decimal(n) + tail) == Stoi("+" + (Decimal(n) + tail)) == if n <= 0x7fff_ffff then Ok(n) else Bad(OutOfRange)
  {
    hide Stoi, Decimal, Value;
    DecimalDigits(n);
    StoiOfDigits(Decimal(n), tail);
    assert (Decimal(n) + tail)[0] == Decimal(n)[0];
    StoiPlus(Decimal(n) + tail);
  }

  /** A text that begins with neither whitespace, sign nor digit is no number. */
  lemma StoiRejects(s: string)
    requires s != "" ==> !IsSpace(s[0]) && !IsDigit(s[0]) && s[0] != '+' && s[0] != '-'
    ensures Stoi(s) == Bad(InvalidArgument)
  {
  }

  lemma DecimalIsWord(n: nat)
    ensures IsWord(Decimal(n))
  {
    DecimalDigits(n);
    forall i | 0 <= i < |Decimal(n)| ensures !IsSpace(Decimal(n)[i]) {
      assert IsDigit(Decimal(n)[i]);
    }
  }

  lemma IntIsWord(n: int)
    ensures IsWord(IntToString(n))
  {
    DecimalIsWord(if n < 0 then -n else n);
  }
}
