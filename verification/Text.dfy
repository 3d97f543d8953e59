/**
 * Strings as the programs order, search and encode them. JavaScript orders by
 * UTF-16 code unit, the database by code point; archives hold UTF-8.
 */
module Text {

  /** The UTF-16 code units of one character. */
  function CodeUnits(c: char): (r: seq<nat>)
    ensures 1 <= |r| <= 2
  {
    var n := c as int;
    if n < 0x1_0000 then [n] else [0xD800 + (n - 0x1_0000) / 0x400, 0xDC00 + (n - 0x1_0000) % 0x400]
  }

  function Utf16(s: string): seq<nat> {
    if s == [] then [] else CodeUnits(s[0]) + Utf16(s[1..])
  }

  function CodePoints(s: string): (r: seq<nat>) {
    seq(|s|, i requires 0 <= i < |s| => s[i] as nat)
  }

  /** Lexicographic order: negative, zero or positive. */
  function Compare(a: seq<nat>, b: seq<nat>): (r: int)
    ensures -1 <= r <= 1
    ensures r == 0 <==> a == b
  {
    if a == [] then (if b == [] then 0 else -1)
    else if b == [] then 1
    else if a[0] != b[0] then (if a[0] < b[0] then -1 else 1)
    else
      assert a == [a[0]] + a[1..] && b == [b[0]] + b[1..];
      Compare(a[1..], b[1..])
  }

  // ----- Searching -----

  predicate Includes(s: string, part: string) {
    exists i :: 0 <= i <= |s| - |part| && s[i..][..|part|] == part
  }

  predicate Ends(s: string, part: string) {
    |part| <= |s| && s[|s| - |part|..] == part
  }

  // ----- UTF-16 order -----

  /** The code units decide the string. */
  lemma {:induction false} Utf16IsInjective(a: string, b: string)
    requires Utf16(a) == Utf16(b)
    ensures a == b
  {
    if a != [] && b != [] {
      var u, v := CodeUnits(a[0]), CodeUnits(b[0]);
      assert Utf16(a)[0] == u[0] && Utf16(b)[0] == v[0];
      assert |u| == 2 ==> Utf16(a)[1] == u[1];
      assert |v| == 2 ==> Utf16(b)[1] == v[1];
      assert u == v && a[0] == b[0];
      assert Utf16(a)[|u|..] == Utf16(a[1..]) && Utf16(b)[|v|..] == Utf16(b[1..]);
      Utf16IsInjective(a[1..], b[1..]);
      assert a == [a[0]] + a[1..] && b == [b[0]] + b[1..];
    }
  }

  lemma {:induction false} CompareIsAntisymmetric(a: seq<nat>, b: seq<nat>)
    ensures Compare(a, b) == -Compare(b, a)
  {
    if a != [] && b != [] && a[0] == b[0] { CompareIsAntisymmetric(a[1..], b[1..]); }
  }

  lemma {:induction false} CompareIsTransitive(a: seq<nat>, b: seq<nat>, c: seq<nat>)
    requires Compare(a, b) <= 0 && Compare(b, c) <= 0
    ensures Compare(a, c) <= 0
  {
    if a != [] && b != [] && c != [] && a[0] == b[0] == c[0] { CompareIsTransitive(a[1..], b[1..], c[1..]); }
  }

  // ----- The two orders -----

  /** One of the two is beyond the basic plane, the other at the end of it, behind the surrogates. */
  predicate Crosses(c: char, d: char) {
    (c as int >= 0x1_0000 && 0xE000 <= d as int < 0x1_0000) || (d as int >= 0x1_0000 && 0xE000 <= c as int < 0x1_0000)
  }

  /** The first characters in which the texts differ are such a pair. */
  predicate Straddles(a: string, b: string) {
    a != [] && b != [] && if a[0] == b[0] then Straddles(a[1..], b[1..]) else Crosses(a[0], b[0])
  }

  lemma CompareHeads(a: seq<nat>, b: seq<nat>, x: seq<nat>, y: seq<nat>)
    requires 1 <= |a| <= 2 && 1 <= |b| <= 2 && (a[0] != b[0] || (|a| == |b| == 2 && a[1] != b[1]))
    ensures Compare(a + x, b + y)
            == if a[0] < b[0] then -1 else if a[0] > b[0] then 1 else if a[1] < b[1] then -1 else 1
  {
    if a[0] == b[0] {
      assert (a + x)[1..] == [a[1]] + x && (b + y)[1..] == [b[1]] + y;
    }
  }

  lemma {:induction false} CompareSkips(a: seq<nat>, x: seq<nat>, y: seq<nat>)
    ensures Compare(a + x, a + y) == Compare(x, y)
  {
    if a == [] {
      assert a + x == x && a + y == y;
    } else {
      assert (a + x)[1..] == a[1..] + x && (a + y)[1..] == a[1..] + y;
      CompareSkips(a[1..], x, y);
    }
  }

  lemma UnitsDiffer(c: char, d: char, x: seq<nat>, y: seq<nat>)
    requires c != d
    ensures Compare(CodeUnits(c) + x, CodeUnits(d) + y) == if (c < d) != Crosses(c, d) then -1 else 1
  {
    CompareHeads(CodeUnits(c), CodeUnits(d), x, y);
  }

  /** Ordering by code unit is ordering by code point, except where the first difference crosses the surrogates. */
  lemma {:induction false} OrdersAgreeIff(a: string, b: string)
    ensures Compare(Utf16(a), Utf16(b)) == Compare(CodePoints(a), CodePoints(b)) <==> !Straddles(a, b)
    ensures Straddles(a, b) ==> Compare(Utf16(a), Utf16(b)) == -Compare(CodePoints(a), CodePoints(b)) != 0
  {
    if a != [] && b != [] {
      assert CodePoints(a)[1..] == CodePoints(a[1..]) && CodePoints(b)[1..] == CodePoints(b[1..]);
      if a[0] == b[0] {
        OrdersAgreeIff(a[1..], b[1..]);
        CompareSkips(CodeUnits(a[0]), Utf16(a[1..]), Utf16(b[1..]));
      } else {
        UnitsDiffer(a[0], b[0], Utf16(a[1..]), Utf16(b[1..]));
      }
    }
  }

  // ----- UTF-8 -----

  type Byte = b: nat | b < 256 witness 0

  function Utf8Char(c: char): (r: seq<Byte>)
    ensures 1 <= |r| <= 4
  {
    var n := c as int;
    if n < 0x80 then [n]
    else if n < 0x800 then [0xC0 + n / 0x40, 0x80 + n % 0x40]
    else if n < 0x1_0000 then [0xE0 + n / 0x1000, 0x80 + n / 0x40 % 0x40, 0x80 + n % 0x40]
    else [0xF0 + n / 0x4_0000, 0x80 + n / 0x1000 % 0x40, 0x80 + n / 0x40 % 0x40, 0x80 + n % 0x40]
  }

  function Utf8(s: string): seq<Byte> {
    if s == [] then [] else Utf8Char(s[0]) + Utf8(s[1..])
  }

  predicate Continues(b: Byte) {
    0x80 <= b < 0xC0
  }

  predicate IsScalarValue(n: int) {
    0 <= n < 0xD800 || 0xE000 <= n < 0x11_0000
  }

  const REPLACEMENT: char := '\U{FFFD}'

  function Two(b0: int, b1: int): int {
    (b0 - 0xC0) * 0x40 + (b1 - 0x80)
  }

  function Three(b0: int, b1: int, b2: int): int {
    (b0 - 0xE0) * 0x1000 + (b1 - 0x80) * 0x40 + (b2 - 0x80)
  }

  function Four(b0: int, b1: int, b2: int, b3: int): int {
    (b0 - 0xF0) * 0x4_0000 + (b1 - 0x80) * 0x1000 + (b2 - 0x80) * 0x40 + (b3 - 0x80)
  }

  /** The first character and the bytes it takes; a malformed sequence reads as the replacement character. */
  function DecodeChar(b: seq<Byte>): (r: (char, nat))
    requires b != []
    ensures 1 <= r.1 <= |b|
  {
    if b[0] < 0x80 then (b[0] as char, 1)
    else if 0xC2 <= b[0] < 0xE0 && |b| >= 2 && Continues(b[1]) then (Two(b[0], b[1]) as char, 2)
    else if 0xE0 <= b[0] < 0xF0 && |b| >= 3 && Continues(b[1]) && Continues(b[2]) then
      var n := Three(b[0], b[1], b[2]);
      if n >= 0x800 && IsScalarValue(n) then (n as char, 3) else (REPLACEMENT, 1)
    else if 0xF0 <= b[0] < 0xF5 && |b| >= 4 && Continues(b[1]) && Continues(b[2]) && Continues(b[3]) then
      var n := Four(b[0], b[1], b[2], b[3]);
      if n >= 0x1_0000 && IsScalarValue(n) then (n as char, 4) else (REPLACEMENT, 1)
    else (REPLACEMENT, 1)
  }

  function DecodeUtf8(b: seq<Byte>): string {
    if b == [] then [] else [DecodeChar(b).0] + DecodeUtf8(b[DecodeChar(b).1..])
  }

  lemma SplitsInThree(n: nat)
    requires n < 0x1_0000
    ensures Three(0xE0 + n / 0x1000, 0x80 + n / 0x40 % 0x40, 0x80 + n % 0x40) == n
  {
    assert n / 0x40 / 0x40 == n / 0x1000;
  }

  lemma SplitsInFour(n: nat)
    requires n < 0x11_0000
    ensures Four(0xF0 + n / 0x4_0000, 0x80 + n / 0x1000 % 0x40, 0x80 + n / 0x40 % 0x40, 0x80 + n % 0x40) == n
  {
    assert n / 0x40 / 0x40 == n / 0x1000 && n / 0x1000 / 0x40 == n / 0x4_0000;
  }

  lemma DecodesOneChar(c: char, rest: seq<Byte>)
    ensures DecodeChar(Utf8Char(c) + rest) == (c, |Utf8Char(c)|)
  {
    var n, u := c as int, Utf8Char(c);
    var b := u + rest;
    assert forall i :: 0 <= i < |u| ==> b[i] == u[i];
    if n >= 0x1_0000 {
      SplitsInFour(n);
    } else if n >= 0x800 {
      SplitsInThree(n);
    }
  }

  /** Decoding undoes encoding. */
  lemma {:induction false} Utf8RoundTrip(s: string)
    ensures DecodeUtf8(Utf8(s)) == s
  {
    if s != [] {
      var rest := Utf8(s[1..]);
      DecodesOneChar(s[0], rest);
      assert (Utf8Char(s[0]) + rest)[|Utf8Char(s[0])|..] == rest;
      Utf8RoundTrip(s[1..]);
      assert s == [s[0]] + s[1..];
    }
  }
}
