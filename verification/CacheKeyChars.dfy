/** The exact characters of keys: what is escaped and how, and which field names come first. */
module CacheKeyChars {
  import opened Common
  import opened Text
  import opened CacheKeys

  const UPPER_HEX := "0123456789ABCDEF"
  const LOWER_HEX := "0123456789abcdef"

  // ----- Percent encoding -----

  lemma UpperHexIs(n: nat)
    requires n < 16
    ensures UpperHex(n) == UPPER_HEX[n]
  {
  }

  /**
   * A character of a key part stands for itself exactly when it is a letter, a
   * digit or one of nine marks; any other is written as its UTF-8 bytes, each as
   * a percent sign and two upper-case digits.
   */
  lemma EncodedChar(c: char, i: nat)
    requires i < |Utf8Char(c)|
    ensures var plain := 'A' <= c <= 'Z' || 'a' <= c <= 'z' || '0' <= c <= '9'
                         || c == '-' || c == '_' || c == '.' || c == '!' || c == '~' || c == '*' || c == '\''
                         || c == '(' || c == ')';
            if plain then EncodeUriComponent([c]) == [c]
            else
              && |EncodeUriComponent([c])| == 3 * |Utf8Char(c)|
              && EncodeUriComponent([c])[3 * i..3 * i + 3]
                 == ['%', UPPER_HEX[Utf8Char(c)[i] / 16], UPPER_HEX[Utf8Char(c)[i] % 16]]
  {
    assert [c][1..] == "" && EncodeUriComponent("") == "";
    PercentAt(Utf8Char(c), i);
    assert Percent(Utf8Char(c)) + "" == Percent(Utf8Char(c));
  }

  lemma {:induction false} PercentAt(bytes: seq<Byte>, i: nat)
    requires i < |bytes|
    ensures |Percent(bytes)| == 3 * |bytes|
    ensures Percent(bytes)[3 * i..3 * i + 3] == ['%', UPPER_HEX[bytes[i] / 16], UPPER_HEX[bytes[i] % 16]]
  {
    UpperHexIs(bytes[0] / 16);
    UpperHexIs(bytes[0] % 16);
    var rest := Percent(bytes[1..]);
    if i > 0 {
      PercentAt(bytes[1..], i - 1);
      assert Percent(bytes)[3 * i..3 * i + 3] == rest[3 * (i - 1)..3 * (i - 1) + 3];
    } else if |bytes| > 1 {
      PercentAt(bytes[1..], 0);
    }
  }

  lemma EncodesFirst(s: string)
    requires s != ""
    ensures EncodeUriComponent(s) == EncodeUriComponent([s[0]]) + EncodeUriComponent(s[1..])
  {
    hide Percent, Utf8Char, Unreserved;
    var c := s[0];
    assert [c][1..] == "" && EncodeUriComponent("") == "";
    var one := if Unreserved(c) then [c] else Percent(Utf8Char(c));
    assert EncodeUriComponent([c]) == one + "" == one;
  }

  lemma Regrouped(a: string, b: string, c: string)
    ensures a + (b + c) == (a + b) + c
  {
  }

  lemma NothingFirst(t: string)
    ensures "" + t == t && EncodeUriComponent("") == ""
  {
  }

  lemma FirstOfBoth(s: string, t: string)
    requires s != ""
    ensures (s + t)[0] == s[0] && (s + t)[1..] == s[1..] + t
  {
  }

  /** The parts are encoded character by character. */
  lemma {:induction false} EncodesInOrder(s: string, t: string)
    ensures EncodeUriComponent(s + t) == EncodeUriComponent(s) + EncodeUriComponent(t)
  {
    hide EncodeUriComponent;
    if s == "" {
      NothingFirst(t);
      NothingFirst(EncodeUriComponent(t));
    } else {
      EncodesFirst(s);
      EncodesFirst(s + t);
      FirstOfBoth(s, t);
      EncodesInOrder(s[1..], t);
      Regrouped(EncodeUriComponent([s[0]]), EncodeUriComponent(s[1..]), EncodeUriComponent(t));
    }
  }

  // ----- JSON text -----

  lemma HexDigitIs(n: nat)
    requires n < 16
    ensures HexDigit(n) == LOWER_HEX[n]
  {
  }

  /**
   * A character of a text stands for itself exactly when it is no quote, no
   * backslash and no control character; five control characters have a letter of
   * their own, and the others are written by number.
   */
  lemma EscapedChar(c: char)
    ensures Escaped([c]) ==
      if c == '"' then "\\\"" else if c == '\\' then "\\\\"
      else if c == 8 as char then "\\b" else if c == '\t' then "\\t" else if c == '\n' then "\\n"
      else if c == 12 as char then "\\f" else if c == '\r' then "\\r"
      else if c < ' ' then "\\u00" + [LOWER_HEX[c as int / 16], LOWER_HEX[c as int % 16]]
      else [c]
  {
    assert [c][1..] == "" && Escaped("") == "";
    if c < ' ' {
      HexDigitIs(c as int / 16);
      HexDigitIs(c as int % 16);
      assert "\\u00" == ['\\', 'u', '0', '0'];
    }
  }

  // ----- Field names -----

  /** The number a row of digits stands for. */
  function NumberOf(digits: string): int {
    if digits == [] then 0
    else 10 * NumberOf(digits[..|digits| - 1]) + (digits[|digits| - 1] as int - '0' as int)
  }

  predicate AllDigits(s: string) {
    forall c :: c in s ==> '0' <= c <= '9'
  }

  /** A decimal text has no needless zero in front, and reads back as its number. */
  lemma {:induction false} DecimalReads(n: nat)
    ensures AllDigits(Decimal(n)) && NumberOf(Decimal(n)) == n
    ensures Decimal(n)[0] == '0' <==> n == 0
    ensures n < 10 ==> |Decimal(n)| == 1
    ensures n >= 10 ==> |Decimal(n)| == |Decimal(n / 10)| + 1
  {
    if n >= 10 {
      DecimalReads(n / 10);
      assert Decimal(n)[..|Decimal(n)| - 1] == Decimal(n / 10);
      assert Decimal(n)[0] == Decimal(n / 10)[0];
    } else {
      assert Decimal(n)[..0] == "";
    }
  }

  lemma DigitIs(c: char)
    requires '0' <= c <= '9'
    ensures ('0' as int + (c as int - '0' as int)) as char == c
  {
  }

  lemma DecimalGrows(m: nat, c: char)
    requires m > 0 && '0' <= c <= '9'
    ensures Decimal(10 * m + (c as int - '0' as int)) == Decimal(m) + [c]
  {
    var d := c as int - '0' as int;
    assert (10 * m + d) / 10 == m && (10 * m + d) % 10 == d;
    DigitIs(c);
  }

  lemma OneDigit(c: char)
    requires '0' <= c <= '9'
    ensures NumberOf([c]) == c as int - '0' as int && Decimal(c as int - '0' as int) == [c]
    ensures NumberOf([c]) == 0 <==> [c] == "0"
  {
    LastDigitCounts("", c);
    assert "" + [c] == [c] && NumberOf("") == 0;
    hide NumberOf;
    SmallDecimal(c as int - '0' as int);
    assert [c] == "0" <==> c == '0';
  }

  lemma SmallDecimal(n: nat)
    requires n < 10
    ensures Decimal(n) == [('0' as int + n) as char]
  {
    assert n % 10 == n;
  }

  lemma LastDigitCounts(init: string, last: char)
    ensures NumberOf(init + [last]) == 10 * NumberOf(init) + (last as int - '0' as int)
  {
    assert (init + [last])[..|init|] == init;
  }

  /** A row of digits without a needless zero is the decimal text of its number. */
  lemma {:induction false} DigitsAreDecimal(s: string)
    requires s != "" && AllDigits(s) && (s[0] == '0' ==> s == "0")
    ensures NumberOf(s) >= 0 && Decimal(NumberOf(s)) == s
    ensures NumberOf(s) == 0 <==> s == "0"
  {
    hide Decimal, NumberOf;
    var init, last := s[..|s| - 1], s[|s| - 1];
    assert last in s && forall c :: c in init ==> c in s;
    assert s == init + [last];
    if init == "" {
      assert s == [last];
      OneDigit(last);
    } else {
      assert init[0] == s[0];
      DigitsAreDecimal(init);
      assert init != "0";
      OneMoreDigit(init, last);
    }
  }

  lemma OneMoreDigit(init: string, last: char)
    requires '0' <= last <= '9' && NumberOf(init) > 0 && Decimal(NumberOf(init)) == init
    ensures NumberOf(init + [last]) > 0 && Decimal(NumberOf(init + [last])) == init + [last]
  {
    hide Decimal, NumberOf;
    LastDigitCounts(init, last);
    DecimalGrows(NumberOf(init), last);
  }

  /** Texts of digits of one length are ordered as their numbers. */
  lemma {:induction false} OrderedByNumber(a: string, b: string)
    requires AllDigits(a) && AllDigits(b) && |a| == |b|
    ensures Compare(Utf16(a), Utf16(b)) == if NumberOf(a) < NumberOf(b) then -1 else if NumberOf(a) > NumberOf(b) then 1
        else 0
  {
    if a != "" {
      var x, y := a[|a| - 1], b[|b| - 1];
      var init, init' := a[..|a| - 1], b[..|b| - 1];
      assert x in a && y in b && (forall c :: c in init ==> c in a) && forall c :: c in init' ==> c in b;
      OrderedByNumber(init, init');
      assert a == init + [x] && b == init' + [y];
      LastDigitDecides(init, init', x, y);
      if NumberOf(init) == NumberOf(init') { Utf16IsInjective(init, init'); }
      hide Utf16, Compare;
    }
  }

  lemma {:induction false} UnitsOfDigits(s: string)
    requires AllDigits(s)
    ensures |Utf16(s)| == |s| && forall i :: 0 <= i < |s| ==> Utf16(s)[i] == s[i] as nat
  {
    if s != "" {
      assert s[0] in s && forall c :: c in s[1..] ==> c in s;
      UnitsOfDigits(s[1..]);
    }
  }

  lemma {:induction false} CompareFromFront(a: seq<nat>, b: seq<nat>, x: nat, y: nat)
    requires |a| == |b|
    ensures Compare(a + [x], b + [y])
            == if a != b then Compare(a, b) else if x < y then -1 else if x > y then 1 else 0
  {
    var p, q := a + [x], b + [y];
    if a == [] {
      assert p[1..] == [] && q[1..] == [];
    } else if a[0] == b[0] {
      CompareFromFront(a[1..], b[1..], x, y);
      assert p[1..] == a[1..] + [x] && q[1..] == b[1..] + [y];
      assert a == [a[0]] + a[1..] && b == [b[0]] + b[1..];
    }
  }

  lemma LastDigitDecides(a: string, b: string, x: char, y: char)
    requires AllDigits(a + [x]) && AllDigits(b + [y]) && |a| == |b|
    ensures Compare(Utf16(a + [x]), Utf16(b + [y]))
            == if a != b then Compare(Utf16(a), Utf16(b)) else if x < y then -1 else if x > y then 1 else 0
  {
    assert forall c :: c in a ==> c in a + [x];
    assert forall c :: c in b ==> c in b + [y];
    UnitsOfDigits(a);
    UnitsOfDigits(b);
    UnitsOfDigits(a + [x]);
    UnitsOfDigits(b + [y]);
    assert Utf16(a + [x]) == Utf16(a) + [x as nat] && Utf16(b + [y]) == Utf16(b) + [y as nat];
    if Utf16(a) == Utf16(b) { Utf16IsInjective(a, b); }
    CompareFromFront(Utf16(a), Utf16(b), x as nat, y as nat);
  }

  /** The largest index an object orders by number. */
  const LARGEST := 4294967294

  lemma LargestReads()
    ensures NumberOf(LAST_INDEX) == LARGEST && AllDigits(LAST_INDEX)
  {
    var s := LAST_INDEX;
    assert s[..9] == "429496729" && s[..9][..8] == "42949672" && s[..9][..8][..7] == "4294967";
    assert "4294967"[..6] == "429496" && "429496"[..5] == "42949" && "42949"[..4] == "4294" && "4294"[..3] == "429";
    assert "429"[..2] == "42" && "42"[..1] == "4" && "4"[..0] == "";
    assert NumberOf("42") == 42 && NumberOf("4294") == 4294 && NumberOf("429496") == 429496;
    assert NumberOf("42949672") == 42949672;
  }

  lemma {:induction false} ShorterIsSmaller(a: string, b: string)
    requires AllDigits(a) && AllDigits(b) && |a| < |b| && b[0] != '0'
    ensures NumberOf(a) < NumberOf(b)
  {
    assert NumberOf("") == 0;
    hide NumberOf;
    var init, last := b[..|b| - 1], b[|b| - 1];
    assert b == init + [last] && last in b && b[0] in b && forall c :: c in init ==> c in b;
    LastDigitCounts(init, last);
    if init == "" {
      assert a == "";
    } else if a == "" {
      ShorterIsSmaller(a, init);
    } else {
      var front, end := a[..|a| - 1], a[|a| - 1];
      assert a == front + [end] && end in a && forall c :: c in front ==> c in a;
      LastDigitCounts(front, end);
      ShorterIsSmaller(front, init);
    }
  }

  /** The names an object orders by number are exactly the decimal texts of 0 to 4294967294. */
  lemma IsIndexIff(name: string)
    ensures IsIndex(name) <==> exists n: nat :: n <= LARGEST && Decimal(n) == name
  {
    LargestReads();
    hide Decimal, NumberOf, Utf16, Compare;
    if IsIndex(name) {
      DigitsAreDecimal(name);
      assert LAST_INDEX[0] == '4';
      if |name| < |LAST_INDEX| { ShorterIsSmaller(name, LAST_INDEX); } else { OrderedByNumber(name, LAST_INDEX); }
      assert Decimal(NumberOf(name)) == name;
    }
    if n: nat :| n <= LARGEST && Decimal(n) == name {
      DecimalReads(n);
      if n == 0 { ZeroReads(); }
      if |name| > |LAST_INDEX| { ShorterIsSmaller(LAST_INDEX, name); }
      if |name| == |LAST_INDEX| { OrderedByNumber(name, LAST_INDEX); }
    }
  }

  lemma ZeroReads()
    ensures Decimal(0) == "0"
  {
  }

  /** In a key the fields named by such numbers come in the order of the numbers. */
  lemma NumbersComeInOrder(m: nat, n: nat)
    requires m <= LARGEST && n <= LARGEST
    ensures Compare(NameRank(Decimal(m)), NameRank(Decimal(n))) == if m < n then -1 else if m > n then 1 else 0
  {
    hide Decimal, NumberOf, IsIndex, Utf16;
    var a, b := Decimal(m), Decimal(n);
    IsIndexIff(a);
    IsIndexIff(b);
    DecimalReads(m);
    DecimalReads(n);
    var x, y: seq<nat> := Utf16(a), Utf16(b);
    if |a| == |b| {
      OrderedByNumber(a, b);
      CompareSkips([0, |a|], x, y);
    } else {
      assert ([0, |a|] + x)[1..] == [|a|] + x && ([0, |b|] + y)[1..] == [|b|] + y;
      assert ([|a|] + x)[0] == |a| && ([|b|] + y)[0] == |b|;
      LengthsDecide(a, b, m, n);
    }
  }

  /** They come before all other fields, which follow by code unit. */
  lemma OthersFollow(a: string, b: string)
    ensures IsIndex(a) && !IsIndex(b) ==> Compare(NameRank(a), NameRank(b)) == -1
    ensures !IsIndex(a) && !IsIndex(b) ==> Compare(NameRank(a), NameRank(b)) == Compare(Utf16(a), Utf16(b))
  {
    hide IsIndex;
    CompareSkips([1], Utf16(a), Utf16(b));
  }

  lemma LengthsDecide(a: string, b: string, m: nat, n: nat)
    requires AllDigits(a) && AllDigits(b) && a != "" && b != "" && |a| != |b|
    requires NumberOf(a) == m && NumberOf(b) == n && (a[0] == '0' <==> m == 0) && (b[0] == '0' <==> n == 0)
    requires a == Decimal(m) && b == Decimal(n)
    ensures m < n <==> |a| < |b|
  {
    if m == 0 || n == 0 { ZeroReads(); }
    if |a| < |b| {
      if n > 0 { ShorterIsSmaller(a, b); }
    } else if m > 0 {
      ShorterIsSmaller(b, a);
    }
  }
}
