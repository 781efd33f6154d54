/** String helpers that the pages and services use from JavaScript's standard
    library: decimal conversion, `parseInt`, `Number`, `padStart`, `split`,
    `join`, `includes` and `toLowerCase`, on strings as sequences of characters. */
module Text {
  import opened Wrappers

  predicate IsDigit(c: char) { '0' <= c <= '9' }

  predicate AllDigits(s: string) { forall i :: 0 <= i < |s| ==> IsDigit(s[i]) }

  function DigitValue(c: char): (d: nat)
    requires IsDigit(c)
    ensures d < 10
  {
    (c - '0') as nat
  }

  function DigitChar(d: nat): (c: char)
    requires d < 10
    ensures IsDigit(c) && DigitValue(c) == d
  {
    ('0' as int + d) as char
  }

  /** `n.toString()` for a non-negative integer: its decimal digits, no leading zero. */
  function DecimalString(n: nat): (s: string)
    ensures |s| >= 1 && AllDigits(s)
    ensures n < 10 <==> |s| == 1
    ensures |s| > 1 ==> s[0] != '0'
  {
    if n < 10 then [DigitChar(n)] else DecimalString(n / 10) + [DigitChar(n % 10)]
  }

  /** The value of a string of decimal digits, read left to right. */
  function DigitsValue(s: string): nat
    requires AllDigits(s)
  {
    if s == [] then 0 else DigitsValue(s[..|s| - 1]) * 10 + DigitValue(s[|s| - 1])
  }

  lemma {:induction false} DecimalStringValue(n: nat)
    ensures DigitsValue(DecimalString(n)) == n
  {
    if n >= 10 {
      var s := DecimalString(n);
      assert s[..|s| - 1] == DecimalString(n / 10);
      DecimalStringValue(n / 10);
    }
  }

  /** `i.toString()` for any integer. */
  function IntString(i: int): (s: string)
    ensures |s| >= 1
  {
    if i < 0 then "-" + DecimalString(-i) else DecimalString(i)
  }

  /** The number of leading decimal digits of `s`. */
  function DigitPrefixLength(s: string): (k: nat)
    ensures k <= |s| && AllDigits(s[..k])
    ensures k < |s| ==> !IsDigit(s[k])
  {
    if s == [] || !IsDigit(s[0]) then 0
    else
      var k := 1 + DigitPrefixLength(s[1..]);
      assert s[..k] == [s[0]] + s[1..][..k - 1];
      k
  }

  lemma {:induction false} DigitPrefixOfDigits(d: string, rest: string)
    requires AllDigits(d)
    requires rest == [] || !IsDigit(rest[0])
    ensures DigitPrefixLength(d + rest) == |d|
  {
    if d != [] {
      assert (d + rest)[1..] == d[1..] + rest;
      DigitPrefixOfDigits(d[1..], rest);
    }
  }

  predicate IsSpace(c: char) { c == ' ' || c == '\t' || c == '\n' || c == '\r' }

  function TrimStart(s: string): (r: string)
    ensures |r| <= |s| && (r == [] || !IsSpace(r[0]))
    ensures r == s[|s| - |r|..]
  {
    if s != [] && IsSpace(s[0]) then TrimStart(s[1..]) else s
  }

  function TrimEnd(s: string): (r: string)
    ensures |r| <= |s| && (r == [] || !IsSpace(r[|r| - 1]))
    ensures r == s[..|r|]
  {
    if s != [] && IsSpace(s[|s| - 1]) then TrimEnd(s[..|s| - 1]) else s
  }

  /** `parseInt(s)` in base 10: leading white space, an optional sign, then the
      longest run of digits; `None` stands for `NaN` (no digit after the sign). */
  function ParseInt(s: string): (r: Option<int>)
    ensures r.None? <==> DigitPrefixLength(UnsignedPart(TrimStart(s))) == 0
  {
    var t := TrimStart(s);
    var u := UnsignedPart(t);
    var k := DigitPrefixLength(u);
    if k == 0 then None
    else
      var v: int := DigitsValue(u[..k]);
      Some(if t != [] && t[0] == '-' then -v else v)
  }

  /** Leading white space is skipped up to the first other character. */
  lemma {:induction false} TrimStartSpaces(ws: string, x: string)
    requires forall i :: 0 <= i < |ws| ==> IsSpace(ws[i])
    requires x != [] && !IsSpace(x[0])
    ensures TrimStart(ws + x) == x
  {
    if ws != [] {
      assert (ws + x)[0] == ws[0];
      assert (ws + x)[1..] == ws[1..] + x;
      TrimStartSpaces(ws[1..], x);
    } else {
      assert ws + x == x;
    }
  }

  /** `parseInt` of white space, an optional sign, digits and then anything
      that does not start with a digit: the digits' value, negated after `-`. */
  lemma ParseIntOfDigits(ws: string, sign: string, d: string, rest: string)
    requires forall i :: 0 <= i < |ws| ==> IsSpace(ws[i])
    requires sign == "" || sign == "-" || sign == "+"
    requires d != [] && AllDigits(d)
    requires rest == [] || !IsDigit(rest[0])
    ensures ParseInt(ws + (sign + d + rest)).Some?
    ensures sign == "-" ==> ParseInt(ws + (sign + d + rest)).value == -(DigitsValue(d) as int)
    ensures sign != "-" ==> ParseInt(ws + (sign + d + rest)).value == DigitsValue(d)
  {
    var x := sign + d + rest;
    SignedStart(sign, d, rest);
    TrimStartSpaces(ws, x);
    TrimStartSpaces("", x);
    assert "" + x == x;
    ParseIntSameTrim(ws + x, x);
    ParseIntOfSigned(sign, d, rest);
  }

  /** `parseInt` depends only on the text after the leading white space. */
  lemma ParseIntSameTrim(s1: string, s2: string)
    requires TrimStart(s1) == TrimStart(s2)
    ensures ParseInt(s1) == ParseInt(s2)
  {
  }

  lemma ParseIntOfSigned(sign: string, d: string, rest: string)
    requires sign == "" || sign == "-" || sign == "+"
    requires d != [] && AllDigits(d)
    requires rest == [] || !IsDigit(rest[0])
    ensures ParseInt(sign + d + rest).Some?
    ensures sign == "-" ==> ParseInt(sign + d + rest).value == -(DigitsValue(d) as int)
    ensures sign != "-" ==> ParseInt(sign + d + rest).value == DigitsValue(d)
  {
    var x := sign + d + rest;
    SignedStart(sign, d, rest);
    assert TrimStart(x) == x;
    UnsignedOfSigned(sign, d, rest);
    DigitPrefixOfDigits(d, rest);
    assert (d + rest)[..|d|] == d;
  }

  lemma SignedStart(sign: string, d: string, rest: string)
    requires sign == "" || sign == "-" || sign == "+"
    requires d != [] && IsDigit(d[0])
    ensures var x := sign + d + rest; x != [] && !IsSpace(x[0]) && (x[0] == '-' <==> sign == "-")
  {
    var x := sign + d + rest;
    assert x[0] == if sign == "" then d[0] else sign[0];
  }

  lemma UnsignedOfSigned(sign: string, d: string, rest: string)
    requires sign == "" || sign == "-" || sign == "+"
    requires d != [] && IsDigit(d[0])
    ensures UnsignedPart(sign + d + rest) == d + rest
  {
    var x := sign + d + rest;
    if sign == "" { assert x == d + rest; } else { assert x[1..] == d + rest; }
  }

  /** `parseInt` reads back the decimal text of any integer, after white
      space and before a non-digit. */
  lemma ParseIntOfDecimal(ws: string, n: int, rest: string)
    requires forall i :: 0 <= i < |ws| ==> IsSpace(ws[i])
    requires rest == [] || !IsDigit(rest[0])
    ensures ParseInt(ws + IntString(n) + rest).Some? && ParseInt(ws + IntString(n) + rest).value == n
  {
    var sign := if n < 0 then "-" else "";
    var d := DecimalString(if n < 0 then -n else n);
    assert IntString(n) == sign + d;
    assert ws + IntString(n) + rest == ws + (sign + d + rest);
    ParseIntOfDigits(ws, sign, d, rest);
    DecimalStringValue(if n < 0 then -n else n);
  }

  /** What follows an optional leading sign. */
  function UnsignedPart(t: string): string {
    if t != [] && (t[0] == '-' || t[0] == '+') then t[1..] else t
  }

  /** `Number(s)` restricted to integer literals: white space around, an
      optional sign and decimal digits; the empty (or all-blank) string is 0;
      `None` stands for `NaN`. */
  function Number(s: string): Option<int>
  {
    var t := TrimEnd(TrimStart(s));
    if t == [] then Some(0)
    else
      var u := UnsignedPart(t);
      if u == [] || !AllDigits(u) then None
      else
        var v: int := DigitsValue(u);
        Some(if t[0] == '-' then -v else v)
  }

  /** `Number` reads a plain string of digits as its decimal value. */
  lemma NumberOfDigits(s: string)
    requires s != [] && AllDigits(s)
    ensures Number(s) == Some(DigitsValue(s))
  {
    assert !IsSpace(s[0]) && !IsSpace(s[|s| - 1]);
    assert TrimStart(s) == s;
    assert TrimEnd(s) == s;
    assert UnsignedPart(s) == s;
  }

  /** `s.padStart(width, c)`: `c` repeated in front of `s` up to `width` characters. */
  function PadStart(s: string, width: nat, c: char): (r: string)
    ensures |r| == if |s| >= width then |s| else width
    ensures r[|r| - |s|..] == s
    ensures forall i :: 0 <= i < |r| - |s| ==> r[i] == c
    decreases width - |s|
  {
    if |s| >= width then s else PadStart([c] + s, width, c)
  }

  /** `s.split(sep)` for a one-character separator: always at least one part. */
  function Split(s: string, sep: char): (parts: seq<string>)
    ensures |parts| >= 1
  {
    if s == [] then [""]
    else if s[0] == sep then [""] + Split(s[1..], sep)
    else
      var r := Split(s[1..], sep);
      [[s[0]] + r[0]] + r[1..]
  }

  lemma {:induction false} SplitAfterPlainPrefix(a: string, rest: string, sep: char)
    requires sep !in a
    ensures Split(a + rest, sep) == [a + Split(rest, sep)[0]] + Split(rest, sep)[1..]
  {
    if a == [] {
      assert a + rest == rest;
      var r := Split(rest, sep);
      assert a + r[0] == r[0];
      assert r == [r[0]] + r[1..];
    } else {
      var s := a + rest;
      assert s[0] == a[0] && s[0] != sep;
      assert s[1..] == a[1..] + rest;
      SplitAfterPlainPrefix(a[1..], rest, sep);
      assert [a[0]] + (a[1..] + Split(rest, sep)[0]) == a + Split(rest, sep)[0];
    }
  }

  /** Splitting two separator-free strings joined by the separator gives them back. */
  lemma SplitPair(a: string, b: string, sep: char)
    requires sep !in a && sep !in b
    ensures Split(a + [sep] + b, sep) == [a, b]
  {
    SplitAfterPlainPrefix(b, [], sep);
    assert b + [] == b;
    assert Split([], sep) == [""];
    assert Split(b, sep) == [b];
    var sb := [sep] + b;
    assert sb[0] == sep && sb[1..] == b;
    assert Split(sb, sep) == [""] + Split(b, sep) == ["", b];
    assert a + [sep] + b == a + sb;
    SplitAfterPlainPrefix(a, sb, sep);
    assert a + "" == a;
  }

  /** `parts.join(sep)`. */
  function Join(parts: seq<string>, sep: string): (s: string)
  {
    if parts == [] then ""
    else if |parts| == 1 then parts[0]
    else parts[0] + sep + Join(parts[1..], sep)
  }

  /** The number of occurrences of `c` in `s`. */
  function Count(s: string, c: char): nat {
    multiset(s)[c]
  }

  lemma CountAbsent(s: string, c: char)
    requires c !in s
    ensures Count(s, c) == 0
  {
  }

  /** Occurrences in two strings joined add up. */
  lemma CountAppend(a: string, b: string, c: char)
    ensures Count(a + b, c) == Count(a, c) + Count(b, c)
  {
    assert multiset(a + b) == multiset(a) + multiset(b);
  }

  /** `s.includes(t)`: `t` occurs in `s` at some position. */
  predicate Contains(s: string, t: string) {
    exists i | 0 <= i <= |s| :: OccursAt(s, t, i)
  }

  /** `t` occurs in `s` starting at index `i`. */
  predicate OccursAt(s: string, t: string, i: int) {
    0 <= i <= |s| - |t| && s[i..i + |t|] == t
  }

  lemma ContainsEmpty(s: string)
    ensures Contains(s, "")
  {
    assert OccursAt(s, "", 0);
  }

  /** Containment is transitive: a string that contains `u` contains everything `u` contains. */
  lemma ContainsTransitive(s: string, u: string, t: string)
    requires Contains(s, u) && Contains(u, t)
    ensures Contains(s, t)
  {
    var i :| 0 <= i <= |s| && OccursAt(s, u, i);
    var j :| 0 <= j <= |u| && OccursAt(u, t, j);
    assert s[i..i + |u|] == u;
    forall k | 0 <= k < |t|
      ensures s[i + j + k] == t[k]
    {
      assert u[j + k] == t[k];
      assert s[i..i + |u|][j + k] == s[i + j + k];
    }
    assert s[i + j..i + j + |t|] == t;
    assert OccursAt(s, t, i + j);
  }

  /** Lower-casing of one character: the capitals of ASCII, Latin-1 and
      Latin Extended-A (U+0000 to U+017F) that map to one lower-case letter. */
  function LowerChar(c: char): char {
    var n := c as int;
    if 'A' <= c <= 'Z' then (n + 32) as char
    // À..Þ, except the multiplication sign ×
    else if 0xC0 <= n <= 0xDE && n != 0xD7 then (n + 32) as char
    // Ā..į, Ĳ..ķ, Ŋ..ŷ: capital at the even code point, small at the odd one
    else if (0x100 <= n <= 0x12F || 0x132 <= n <= 0x137 || 0x14A <= n <= 0x177) && n % 2 == 0 then (n + 1) as char
    // Ĺ..ň, Ź..ž: capital at the odd code point, small at the even one
    else if (0x139 <= n <= 0x148 || 0x179 <= n <= 0x17E) && n % 2 == 1 then (n + 1) as char
    else if n == 0x178 then 0xFF as char
    else c
  }

  /** `s.toLowerCase()`, character by character. */
  function Lower(s: string): (r: string)
    ensures |r| == |s| && forall i :: 0 <= i < |s| ==> r[i] == LowerChar(s[i])
  {
    seq(|s|, i requires 0 <= i < |s| => LowerChar(s[i]))
  }

  /** Lower-casing keeps containment: if `s` contains `t` then `Lower(s)` contains `Lower(t)`. */
  lemma LowerKeepsContains(s: string, t: string)
    requires Contains(s, t)
    ensures Contains(Lower(s), Lower(t))
  {
    var i :| 0 <= i <= |s| && OccursAt(s, t, i);
    forall k | 0 <= k < |t|
      ensures Lower(s)[i + k] == Lower(t)[k]
    {
      assert s[i..i + |t|][k] == s[i + k];
    }
    assert Lower(s)[i..i + |t|] == Lower(t);
    assert OccursAt(Lower(s), Lower(t), i);
  }
}
