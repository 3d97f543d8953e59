/** The text of a cache key determines what was written: JSON, percent encoding, and the joined key. */
module CacheKeyText {
  import opened Common
  import opened Text
  import opened CacheKeys

  // ----- JSON text determines the tree -----

  /** What may follow a value: nothing that would prolong a number. */
  predicate Stops(rest: string) {
    rest == "" || !InNumber(rest[0])
  }

  lemma Peel(x: string, u: string, y: string, v: string)
    requires x + u == y + v && |x| == |y|
    ensures x == y && u == v
  {
    assert x == (x + u)[..|x|] && u == (x + u)[|x|..];
    assert y == (y + v)[..|y|] && v == (y + v)[|y|..];
  }

  function HexValue(c: char): nat {
    if '0' <= c <= '9' then c as int - '0' as int else if 'a' <= c <= 'f' then c as int - 'a' as int + 10 else 0
  }

  /** The first character of an escaped text, and the characters it takes. */
  function ReadChar(t: string): (char, nat)
    requires t != ""
  {
    if t[0] != '\\' || |t| == 1 then (t[0], 1)
    else if t[1] == 'u' then
      (if |t| < 6 then (t[0], 1) else ((HexValue(t[4]) * 16 + HexValue(t[5])) as char, 6))
    else
      ((match t[1]
        case 'b' => 8 as char
        case 't' => 9 as char
        case 'n' => 10 as char
        case 'f' => 12 as char
        case 'r' => 13 as char
        case other => other), 2)
  }

  lemma ReadsEscaped(c: char, r: string)
    ensures ReadChar(EscapeChar(c) + r) == (c, |EscapeChar(c)|)
  {
    var x := EscapeChar(c);
    assert forall i :: 0 <= i < |x| ==> (x + r)[i] == x[i];
  }

  lemma EscapedCharIsPrefixFree(c: char, d: char, r: string, s: string)
    requires EscapeChar(c) + r == EscapeChar(d) + s
    ensures c == d && r == s
  {
    ReadsEscaped(c, r);
    ReadsEscaped(d, s);
    Peel(EscapeChar(c), r, EscapeChar(d), s);
  }

  lemma QuotedFront(s: string, r: string)
    ensures Quoted(s) + r == if s == [] then ['"'] + r else EscapeChar(s[0]) + (Quoted(s[1..]) + r)
    ensures s == [] <==> (Quoted(s) + r)[0] == '"'
  {
    if s != [] {
      var e := EscapeChar(s[0]);
      assert Quoted(s) + r == e + (Quoted(s[1..]) + r);
      assert (e + (Quoted(s[1..]) + r))[0] == e[0];
    }
  }

  lemma {:induction false} QuotedIsPrefixFree(a: string, b: string, r: string, s: string)
    requires Quoted(a) + r == Quoted(b) + s
    ensures a == b && r == s
  {
    QuotedFront(a, r);
    QuotedFront(b, s);
    hide EscapeChar, Quoted;
    if a == [] {
      Peel(['"'], r, ['"'], s);
    } else {
      EscapedCharIsPrefixFree(a[0], b[0], Quoted(a[1..]) + r, Quoted(b[1..]) + s);
      QuotedIsPrefixFree(a[1..], b[1..], r, s);
      assert a == [a[0]] + a[1..] && b == [b[0]] + b[1..];
    }
  }

  lemma {:induction false} NumberIsPrefixFree(a: string, b: string, r: string, s: string)
    requires forall c :: c in a ==> InNumber(c)
    requires forall c :: c in b ==> InNumber(c)
    requires Stops(r) && Stops(s) && a + r == b + s
    ensures a == b && r == s
  {
    NumberHead(a, r);
    NumberHead(b, s);
    if a == "" {
      assert a + r == r && b + s == s;
    } else {
      assert (a + r)[1..] == a[1..] + r && (b + s)[1..] == b[1..] + s;
      NumberIsPrefixFree(a[1..], b[1..], r, s);
      assert a == [a[0]] + a[1..] && b == [b[0]] + b[1..];
    }
  }

  lemma NumberHead(a: string, r: string)
    requires Stops(r) && forall c :: c in a ==> InNumber(c)
    ensures if a == "" then Stops(a + r) else (a + r)[0] == a[0] && !Stops(a + r)
  {
    if a == "" { assert a + r == r; }
  }

  /** Which kind of value a text begins. */
  function Lead(j: Json): (r: char)
    ensures Print(j) != "" && (if j.JNumber? then InNumber(Print(j)[0]) else Print(j)[0] == r)
    ensures !InNumber(r) || j.JNumber?
    ensures r !in {',', ']', '}'}
  {
    match j
    case JNull => 'n'
    case JBool(b) => if b then 't' else 'f'
    case JNumber(number) => assert number[0] in number; number[0]
    case JText(_) => '"'
    case JArray(_) => '['
    case JObject(_) => '{'
  }

  lemma Leads(j: Json, r: string)
    ensures Print(j) + r != "" && (Print(j) + r)[0] == Lead(j)
  {
    assert (Print(j) + r)[0] == Print(j)[0];
  }

  /** A tree can be read off the front of a text in one way only. */
  lemma {:induction false} PrintIsPrefixFree(a: Json, b: Json, r: string, s: string)
    requires Print(a) + r == Print(b) + s && Stops(r) && Stops(s)
    ensures a == b && r == s
    decreases a
  {
    Leads(a, r);
    Leads(b, s);
    hide Quoted, MoreItems, MoreMembers;
    match a
    case JNull => assert (Print(a) + r)[4..] == r && (Print(b) + s)[4..] == s;
    case JBool(t) =>
      var n := if t then 4 else 5;
      assert (Print(a) + r)[n..] == r && (Print(b) + s)[n..] == s;
    case JNumber(number) => NumberIsPrefixFree(number, b.number, r, s);
    case JText(text) =>
      assert (Print(a) + r)[1..] == Quoted(text) + r && (Print(b) + s)[1..] == Quoted(b.text) + s;
      QuotedIsPrefixFree(text, b.text, r, s);
    case JArray(items) => ItemsArePrefixFree(items, b.items, r, s);
    case JObject(members) => MembersArePrefixFree(members, b.members, r, s);
  }

  lemma ArrayFront(items: seq<Json>, r: string)
    ensures Print(JArray(items)) + r
            == ['['] + (if items == [] then [']'] + r else Print(items[0]) + (MoreItems(items[1..]) + r))
  {
    if items != [] {
      var x, y := Print(items[0]), MoreItems(items[1..]);
      assert ['['] + (x + y) + r == ['['] + (x + (y + r));
    }
  }

  lemma ItemsFront(items: seq<Json>, r: string)
    ensures MoreItems(items) + r
            == if items == [] then [']'] + r else [','] + (Print(items[0]) + (MoreItems(items[1..]) + r))
    ensures (MoreItems(items) + r)[0] == if items == [] then ']' else ','
  {
    if items != [] {
      var x, y := Print(items[0]), MoreItems(items[1..]);
      assert [','] + x + y + r == [','] + (x + (y + r));
    }
  }

  lemma {:induction false} ItemsArePrefixFree(a: seq<Json>, b: seq<Json>, r: string, s: string)
    requires Print(JArray(a)) + r == Print(JArray(b)) + s
    ensures a == b && r == s
    decreases a
  {
    ArrayFront(a, r);
    ArrayFront(b, s);
    if a != [] { Leads(a[0], MoreItems(a[1..]) + r); }
    if b != [] { Leads(b[0], MoreItems(b[1..]) + s); }
    hide Print, MoreItems;
    var x := if a == [] then [']'] + r else Print(a[0]) + (MoreItems(a[1..]) + r);
    var y := if b == [] then [']'] + s else Print(b[0]) + (MoreItems(b[1..]) + s);
    Peel(['['], x, ['['], y);
    if a == [] {
      Peel([']'], r, [']'], s);
    } else {
      NextItems(a, b, r, s);
    }
  }

  lemma {:induction false} NextItems(a: seq<Json>, b: seq<Json>, r: string, s: string)
    requires a != [] && b != []
    requires Print(a[0]) + (MoreItems(a[1..]) + r) == Print(b[0]) + (MoreItems(b[1..]) + s)
    ensures a == b && r == s
    decreases a, 0
  {
    ItemsFront(a[1..], r);
    ItemsFront(b[1..], s);
    hide Print, MoreItems;
    PrintIsPrefixFree(a[0], b[0], MoreItems(a[1..]) + r, MoreItems(b[1..]) + s);
    MoreItemsArePrefixFree(a[1..], b[1..], r, s);
    assert a == [a[0]] + a[1..] && b == [b[0]] + b[1..];
  }

  lemma {:induction false} MoreItemsArePrefixFree(a: seq<Json>, b: seq<Json>, r: string, s: string)
    requires MoreItems(a) + r == MoreItems(b) + s
    ensures a == b && r == s
    decreases a, 1
  {
    ItemsFront(a, r);
    ItemsFront(b, s);
    hide Print, MoreItems;
    if a == [] {
      Peel([']'], r, [']'], s);
    } else {
      Peel([','], Print(a[0]) + (MoreItems(a[1..]) + r), [','], Print(b[0]) + (MoreItems(b[1..]) + s));
      NextItems(a, b, r, s);
    }
  }

  /** The text behind the opening quote of a member. */
  function Behind(members: seq<Member>, r: string): string
    requires members != []
  {
    Quoted(members[0].name) + ([':'] + (Print(members[0].value) + (MoreMembers(members[1..]) + r)))
  }

  lemma ObjectFront(members: seq<Member>, r: string)
    ensures Print(JObject(members)) + r
            == if members == [] then ['{', '}'] + r else ['{', '"'] + Behind(members, r)
  {
    if members != [] {
      var n, x, y := Quoted(members[0].name), Print(members[0].value), MoreMembers(members[1..]);
      assert ['{'] + (['"'] + n + [':'] + x + y) + r == ['{', '"'] + (n + ([':'] + (x + (y + r))));
    }
  }

  lemma MembersFront(members: seq<Member>, r: string)
    ensures MoreMembers(members) + r
            == if members == [] then ['}'] + r else [',', '"'] + Behind(members, r)
    ensures (MoreMembers(members) + r)[0] == if members == [] then '}' else ','
  {
    if members != [] {
      var n, x, y := Quoted(members[0].name), Print(members[0].value), MoreMembers(members[1..]);
      assert [','] + ['"'] + n + [':'] + x + y + r == [',', '"'] + (n + ([':'] + (x + (y + r))));
    }
  }

  lemma {:induction false} MembersArePrefixFree(a: seq<Member>, b: seq<Member>, r: string, s: string)
    requires Print(JObject(a)) + r == Print(JObject(b)) + s
    ensures a == b && r == s
    decreases a
  {
    ObjectFront(a, r);
    ObjectFront(b, s);
    hide Print, Behind;
    if a == [] || b == [] {
      assert b == [] ==> (['{', '}'] + s)[1] == '}';
      assert a == [] ==> (['{', '}'] + r)[1] == '}';
      Peel(['{', '}'], r, ['{', '}'], s);
    } else {
      Peel(['{', '"'], Behind(a, r), ['{', '"'], Behind(b, s));
      NextMembers(a, b, r, s);
    }
  }

  lemma {:induction false} NextMembers(a: seq<Member>, b: seq<Member>, r: string, s: string)
    requires a != [] && b != [] && Behind(a, r) == Behind(b, s)
    ensures a == b && r == s
    decreases a, 0
  {
    var u, v := MoreMembers(a[1..]) + r, MoreMembers(b[1..]) + s;
    MembersFront(a[1..], r);
    MembersFront(b[1..], s);
    hide Print, Quoted, MoreMembers;
    var x, y := Print(a[0].value) + u, Print(b[0].value) + v;
    QuotedIsPrefixFree(a[0].name, b[0].name, [':'] + x, [':'] + y);
    Peel([':'], x, [':'], y);
    PrintIsPrefixFree(a[0].value, b[0].value, u, v);
    MoreMembersArePrefixFree(a[1..], b[1..], r, s);
    assert a == [a[0]] + a[1..] && b == [b[0]] + b[1..];
  }

  lemma {:induction false} MoreMembersArePrefixFree(a: seq<Member>, b: seq<Member>, r: string, s: string)
    requires MoreMembers(a) + r == MoreMembers(b) + s
    ensures a == b && r == s
    decreases a, 1
  {
    MembersFront(a, r);
    MembersFront(b, s);
    hide MoreMembers, Behind;
    if a == [] {
      Peel(['}'], r, ['}'], s);
    } else {
      Peel([',', '"'], Behind(a, r), [',', '"'], Behind(b, s));
      NextMembers(a, b, r, s);
    }
  }

  // ----- Percent encoding -----

  function UpperHexValue(c: char): nat {
    if '0' <= c <= '9' then c as int - '0' as int else if 'A' <= c <= 'F' then c as int - 'A' as int + 10 else 0
  }

  /** The bytes that a percent-encoded text stands for. */
  function PercentDecode(t: string): seq<Byte> {
    if t == [] then []
    else if t[0] == '%' && |t| >= 3 then [UpperHexValue(t[1]) * 16 + UpperHexValue(t[2])] + PercentDecode(t[3..])
    else [t[0] as int % 256] + PercentDecode(t[1..])
  }

  lemma HexDigits(b: Byte)
    ensures UpperHexValue(UpperHex(b / 16)) * 16 + UpperHexValue(UpperHex(b % 16)) == b
  {
  }

  /** Three characters stand for one byte. */
  lemma DecodesByte(b: Byte, t: string)
    ensures PercentDecode(['%', UpperHex(b / 16), UpperHex(b % 16)] + t) == [b] + PercentDecode(t)
  {
    HexDigits(b);
    hide UpperHexValue, UpperHex;
    assert (['%', UpperHex(b / 16), UpperHex(b % 16)] + t)[3..] == t;
  }

  lemma PercentFront(bytes: seq<Byte>, rest: string)
    requires bytes != []
    ensures Percent(bytes) + rest
            == ['%', UpperHex(bytes[0] / 16), UpperHex(bytes[0] % 16)] + (Percent(bytes[1..]) + rest)
  {
    hide UpperHex;
  }

  lemma {:induction false} DecodesPercent(bytes: seq<Byte>, rest: string)
    ensures PercentDecode(Percent(bytes) + rest) == bytes + PercentDecode(rest)
  {
    hide UpperHex, PercentDecode;
    if bytes == [] {
      assert Percent(bytes) + rest == rest && bytes + PercentDecode(rest) == PercentDecode(rest);
    } else {
      hide Percent;
      PercentFront(bytes, rest);
      DecodesByte(bytes[0], Percent(bytes[1..]) + rest);
      DecodesPercent(bytes[1..], rest);
      assert bytes + PercentDecode(rest) == [bytes[0]] + (bytes[1..] + PercentDecode(rest));
    }
  }

  lemma {:induction false} DecodesComponent(s: string)
    ensures PercentDecode(EncodeUriComponent(s)) == Utf8(s)
  {
    if s != [] {
      var rest := EncodeUriComponent(s[1..]);
      DecodesComponent(s[1..]);
      if Unreserved(s[0]) {
        assert ([s[0]] + rest)[1..] == rest;
      } else {
        DecodesPercent(Utf8Char(s[0]), rest);
      }
    }
  }

  /** Decoding undoes the encoding of a key part. */
  lemma ComponentRoundTrip(s: string)
    ensures DecodeUtf8(PercentDecode(EncodeUriComponent(s))) == s
  {
    DecodesComponent(s);
    Utf8RoundTrip(s);
  }

  /** What an encoded part is made of. */
  predicate InComponent(c: char) {
    Unreserved(c) || c == '%'
  }

  lemma {:induction false} PercentIsPlain(bytes: seq<Byte>)
    ensures forall c :: c in Percent(bytes) ==> InComponent(c)
    ensures |Percent(bytes)| == 3 * |bytes|
  {
    if bytes != [] {
      PercentIsPlain(bytes[1..]);
      assert InComponent(UpperHex(bytes[0] / 16)) && InComponent(UpperHex(bytes[0] % 16));
    }
  }

  /** Encoding leaves unreserved characters and escapes only, so it removes every separator. */
  lemma {:induction false} ComponentIsPlain(s: string)
    ensures forall c :: c in EncodeUriComponent(s) ==> InComponent(c)
  {
    if s != [] {
      ComponentIsPlain(s[1..]);
      PercentIsPlain(Utf8Char(s[0]));
    }
  }

  /** Text up to the first separator. */
  lemma {:induction false} SeparatorSplits(a: string, b: string, r: string, s: string)
    requires a + [':'] + r == b + [':'] + s && ':' !in a && ':' !in b
    ensures a == b && r == s
  {
    var x, y := a + [':'] + r, b + [':'] + s;
    assert x[|a|] == ':' && y[|b|] == ':';
    assert forall i :: 0 <= i < |a| ==> x[i] == a[i] && a[i] in a;
    assert forall i :: 0 <= i < |b| ==> y[i] == b[i] && b[i] in b;
    Peel(a + [':'], r, b + [':'], s);
    Peel(a, [':'], b, [':']);
  }

  lemma ComponentIsInjective(a: string, b: string)
    requires EncodeUriComponent(a) == EncodeUriComponent(b)
    ensures a == b
  {
    ComponentRoundTrip(a);
    ComponentRoundTrip(b);
  }

  /** A key names one triple. */
  lemma BuildKeyIsInjective(prefix: string, scope: string, suffix: string, prefix': string, scope': string,
      suffix': string)
    requires Joined(prefix, scope, suffix) == Joined(prefix', scope', suffix')
    ensures prefix == prefix' && scope == scope' && suffix == suffix'
  {
    var a, b, c := EncodeUriComponent(prefix), EncodeUriComponent(scope), EncodeUriComponent(suffix);
    var a', b', c' := EncodeUriComponent(prefix'), EncodeUriComponent(scope'), EncodeUriComponent(suffix');
    ComponentIsPlain(prefix);
    ComponentIsPlain(prefix');
    ComponentIsPlain(scope);
    ComponentIsPlain(scope');
    SeparatorSplits(a, a', b + [':'] + c, b' + [':'] + c');
    SeparatorSplits(b, b', c, c');
    ComponentIsInjective(prefix, prefix');
    ComponentIsInjective(scope, scope');
    ComponentIsInjective(suffix, suffix');
  }

  lemma {:induction false} PlainTextBytes(s: string)
    requires forall c :: c in s ==> c as int < 0x80
    ensures |Utf8(s)| == |s|
  {
    if s != [] {
      assert s[0] in s && forall c :: c in s[1..] ==> c in s;
      PlainTextBytes(s[1..]);
    }
  }

  /** The bytes an encoded part takes: one for an unreserved character, three for each byte of any other. */
  function EncodedSize(s: string): nat {
    if s == [] then 0
    else (if Unreserved(s[0]) then 1 else 3 * |Utf8Char(s[0])|) + EncodedSize(s[1..])
  }

  lemma {:induction false} EncodedHasItsSize(s: string)
    ensures |EncodeUriComponent(s)| == EncodedSize(s)
  {
    if s != [] {
      EncodedHasItsSize(s[1..]);
      PercentIsPlain(Utf8Char(s[0]));
    }
  }

  /** A key is refused exactly when its parts, with their escapes, are too long. */
  lemma BuildKeySucceedsIff(prefix: string, scope: string, suffix: string)
    ensures BuildKey(prefix, scope, suffix).Ok?
            <==> EncodedSize(prefix) + EncodedSize(scope) + EncodedSize(suffix) + 2 <= 2048
    ensures BuildKey(prefix, scope, suffix).Ok? ==> '"' !in BuildKey(prefix, scope, suffix).value
  {
    EncodedHasItsSize(prefix);
    EncodedHasItsSize(scope);
    EncodedHasItsSize(suffix);
    ComponentIsPlain(prefix);
    ComponentIsPlain(scope);
    ComponentIsPlain(suffix);
    hide EncodeUriComponent, EncodedSize, Utf8;
    PlainTextBytes(Joined(prefix, scope, suffix));
  }
}
