/** The part of `JSON.stringify` and `JSON.parse` that the stored
    appointment-type list needs: string literals with their escapes, integer
    numbers and fixed punctuation, each decoder returning the unread rest. */
module Json {
  import opened Wrappers
  import opened Text

  /** `p` is read at the front of `t`; the rest follows. */
  function Expect(p: string, t: string): (r: Option<string>)
    ensures r.Some? <==> |p| <= |t| && t[..|p|] == p
    ensures r.Some? ==> r.value == t[|p|..]
  {
    if |p| <= |t| && t[..|p|] == p then Some(t[|p|..]) else None
  }

  lemma ExpectPrefix(p: string, rest: string)
    ensures Expect(p, p + rest) == Some(rest)
  {
    assert (p + rest)[..|p|] == p;
    assert (p + rest)[|p|..] == rest;
  }

  function HexDigit(d: nat): (c: char)
    requires d < 16
  {
    if d < 10 then ('0' as int + d) as char else ('a' as int + d - 10) as char
  }

  function HexValue(c: char): (r: Option<nat>)
    ensures r.Some? ==> r.value < 16
  {
    if '0' <= c <= '9' then Some((c - '0') as nat)
    else if 'a' <= c <= 'f' then Some((c - 'a') as nat + 10)
    else if 'A' <= c <= 'F' then Some((c - 'A') as nat + 10)
    else None
  }

  lemma HexDigitValue(d: nat)
    requires d < 16
    ensures HexValue(HexDigit(d)) == Some(d)
  {
  }

  /** The letter of the two-character escape `JSON.stringify` uses for `c`:
      quote, backslash and the five short control escapes. */
  function ShortEscape(c: char): Option<char> {
    if c == '"' then Some('"')
    else if c == '\\' then Some('\\')
    else if c as int == 8 then Some('b')
    else if c as int == 12 then Some('f')
    else if c == '\n' then Some('n')
    else if c == '\r' then Some('r')
    else if c == '\t' then Some('t')
    else None
  }

  /** How `JSON.stringify` writes one character inside a string literal:
      a short escape where there is one, other control characters as
      `\u00hh`, everything else as itself. */
  function Escape(c: char): (e: string)
    ensures |e| >= 1
  {
    match ShortEscape(c)
    case Some(letter) => ['\\', letter]
    case None =>
      if (c as int) < 0x20 then ['\\', 'u', '0', '0', HexDigit(c as int / 16), HexDigit(c as int % 16)]
      else [c]
  }

  function EscapeAll(s: string): string {
    if s == [] then "" else Escape(s[0]) + EscapeAll(s[1..])
  }

  /** `JSON.stringify` of a string. */
  function EncodeString(s: string): string {
    "\"" + EscapeAll(s) + "\""
  }

  /** The character of a four-digit hexadecimal escape; `None` for a surrogate half. */
  function CodeUnit(h: seq<char>): (r: Option<char>)
    requires |h| == 4
  {
    match (HexValue(h[0]), HexValue(h[1]), HexValue(h[2]), HexValue(h[3]))
    case (Some(a), Some(b), Some(c), Some(d)) =>
      var v := ((a * 16 + b) * 16 + c) * 16 + d;
      if 0xD800 <= v < 0xE000 then None else Some(v as char)
    case _ => None
  }

  /** Reads what follows a backslash in a string literal. */
  function Unescape(t: string): (r: Option<(char, string)>)
    ensures r.Some? ==> |r.value.1| < |t|
  {
    if t == [] then None
    else if t[0] == '"' || t[0] == '\\' || t[0] == '/' then Some((t[0], t[1..]))
    else if t[0] == 'b' then Some((8 as char, t[1..]))
    else if t[0] == 'f' then Some((12 as char, t[1..]))
    else if t[0] == 'n' then Some(('\n', t[1..]))
    else if t[0] == 'r' then Some(('\r', t[1..]))
    else if t[0] == 't' then Some(('\t', t[1..]))
    else if t[0] == 'u' && |t| >= 5 then
      match CodeUnit(t[1..5])
      case Some(c) => Some((c, t[5..]))
      case None => None
    else None
  }

  /** Reads the characters of a string literal up to its closing quote. */
  function DecodeBody(t: string): (r: Option<(string, string)>)
    ensures r.Some? ==> |r.value.1| < |t|
    decreases |t|
  {
    if t == [] then None
    else if t[0] == '"' then Some(([], t[1..]))
    else if t[0] == '\\' then
      match Unescape(t[1..])
      case None => None
      case Some((c, rest)) =>
        match DecodeBody(rest)
        case None => None
        case Some((s, r)) => Some(([c] + s, r))
    else if (t[0] as int) < 0x20 then None
    else
      match DecodeBody(t[1..])
      case None => None
      case Some((s, r)) => Some(([t[0]] + s, r))
  }

  /** A string literal at the front of `t`, decoded, and the rest. */
  function DecodeString(t: string): (r: Option<(string, string)>)
    ensures r.Some? ==> |r.value.1| < |t|
  {
    if t != [] && t[0] == '"' then DecodeBody(t[1..]) else None
  }

  /** Decoding an escaped character continues with what follows it. */
  lemma DecodeEscape(c: char, tail: string)
    ensures DecodeBody(Escape(c) + tail) ==
      match DecodeBody(tail)
      case None => None
      case Some((s, r)) => Some(([c] + s, r))
  {
    var t := Escape(c) + tail;
    if ShortEscape(c).None? && (c as int) < 0x20 {
      DecodeHexEscape(c, tail, t);
    } else if Escape(c) == [c] {
      assert t[0] == c && t[1..] == tail;
    } else {
      assert |Escape(c)| == 2;
      assert t[1..][1..] == tail;
    }
  }

  /** A control character without a short escape reads back from `\u00hh`. */
  lemma DecodeHexEscape(c: char, tail: string, t: string)
    requires ShortEscape(c).None? && (c as int) < 0x20
    requires t == Escape(c) + tail
    ensures t[0] == '\\' && Unescape(t[1..]) == Some((c, tail))
  {
    var h1, h2 := HexDigit(c as int / 16), HexDigit(c as int % 16);
    assert t == ['\\', 'u', '0', '0', h1, h2] + tail;
    var after := t[1..];
    assert after == ['u', '0', '0', h1, h2] + tail;
    assert after[1..5] == ['0', '0', h1, h2];
    HexDigitValue(c as int / 16);
    HexDigitValue(c as int % 16);
    assert CodeUnit(['0', '0', h1, h2]) == Some(c);
    assert after[5..] == tail;
  }

  lemma {:induction false} DecodeBodyEscaped(s: string, rest: string)
    ensures DecodeBody(EscapeAll(s) + "\"" + rest) == Some((s, rest))
  {
    if s == [] {
      assert EscapeAll(s) + "\"" + rest == ['"'] + rest;
    } else {
      var tail := EscapeAll(s[1..]) + "\"" + rest;
      assert EscapeAll(s) + "\"" + rest == Escape(s[0]) + tail;
      DecodeEscape(s[0], tail);
      DecodeBodyEscaped(s[1..], rest);
      assert [s[0]] + s[1..] == s;
    }
  }

  /** Every string reads back from its encoding, whatever follows it. */
  lemma DecodeEncodedString(s: string, rest: string)
    ensures DecodeString(EncodeString(s) + rest) == Some((s, rest))
  {
    var t := EncodeString(s) + rest;
    assert t == ['"'] + (EscapeAll(s) + "\"" + rest);
    assert t[1..] == EscapeAll(s) + "\"" + rest;
    DecodeBodyEscaped(s, rest);
  }

  /** `JSON.stringify` of an integer. */
  function EncodeInt(i: int): string {
    IntString(i)
  }

  /** An integer number at the front of `t`: an optional minus sign and
      digits without a superfluous leading zero. */
  function DecodeInt(t: string): (r: Option<(int, string)>)
    ensures r.Some? ==> |r.value.1| < |t|
  {
    var neg := t != [] && t[0] == '-';
    var u := if neg then t[1..] else t;
    var k := DigitPrefixLength(u);
    if k == 0 || (k > 1 && u[0] == '0') then None
    else
      var v: int := DigitsValue(u[..k]);
      Some((if neg then -v else v, u[k..]))
  }

  /** Every integer reads back from its encoding when no digit follows it. */
  lemma DecodeEncodedInt(i: int, rest: string)
    requires rest == [] || !IsDigit(rest[0])
    ensures DecodeInt(EncodeInt(i) + rest) == Some((i, rest))
  {
    var n: nat := if i < 0 then -i else i;
    var d := DecimalString(n);
    var t := EncodeInt(i) + rest;
    var u := d + rest;
    if i < 0 {
      assert t == ['-'] + u;
      assert t[1..] == u;
    } else {
      assert t == u;
    }
    DecimalPrefix(n, d, rest, u);
  }

  /** The digits of a natural number, followed by a non-digit, are read back
      whole and give the number. */
  lemma DecimalPrefix(n: nat, d: string, rest: string, u: string)
    requires d == DecimalString(n) && u == d + rest
    requires rest == [] || !IsDigit(rest[0])
    ensures DigitPrefixLength(u) == |d| && u[..|d|] == d && u[|d|..] == rest
    ensures u[0] != '-' && !(|d| > 1 && u[0] == '0')
    ensures DigitsValue(d) == n
  {
    DigitPrefixOfDigits(d, rest);
    assert u[..|d|] == d && u[|d|..] == rest;
    DecimalStringValue(n);
  }
}
