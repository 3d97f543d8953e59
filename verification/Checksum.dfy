/** The checksum of an archive entry, and what it notices. */
module Checksum {
  import opened Text
  import opened ZipFormat

  // ----- The register -----

  /** One bit of the checksum. */
  function CrcBit(crc: bv32): bv32 {
    (crc >> 1) ^ (if crc & 1 == 1 then 0xedb8_8320 else 0)
  }

  function CrcBits(crc: bv32, n: nat): bv32
    decreases n, crc
  {
    if n == 0 then crc else CrcBit(CrcBits(crc, n - 1))
  }

  function Bits(b: Byte): bv32 {
    b as bv32
  }

  function CrcByte(crc: bv32, b: Byte): bv32 {
    CrcBits(crc ^ Bits(b), 8)
  }

  function CrcOver(data: Bytes): bv32 {
    if data == [] then 0xffff_ffff else CrcByte(CrcOver(data[..|data| - 1]), data[|data| - 1])
  }

  function Finished(crc: bv32): (r: nat)
    ensures r < 0x1_0000_0000
  {
    (crc ^ 0xffff_ffff) as int
  }

  function Crc(data: Bytes): (r: nat)
    ensures r < 0x1_0000_0000
  {
    Finished(CrcOver(data))
  }

  method AddByte(start: bv32, b: Byte) returns (crc: bv32)
    ensures crc == CrcByte(start, b)
  {
    crc := start ^ Bits(b);
    for bit := 0 to 8
      invariant crc == CrcBits(start ^ Bits(b), bit)
    {
      crc := (crc >> 1) ^ (if crc & 1 == 1 then 0xedb8_8320 else 0);
    }
  }

  method Crc32(data: Bytes) returns (r: nat)
    ensures r == Crc(data)
  {
    var crc: bv32 := 0xffff_ffff;
    var i := 0;
    while i < |data|
      invariant 0 <= i <= |data|
      invariant crc == CrcOver(data[..i])
    {
      crc := AddByte(crc, data[i]);
      assert data[..i + 1][..i] == data[..i];
      i := i + 1;
    }
    assert data[..|data|] == data;
    return Finished(crc);
  }

  // ----- What it notices -----

  lemma CrcBitInjective(x: bv32, y: bv32)
    requires CrcBit(x) == CrcBit(y)
    ensures x == y
  {
  }

  lemma {:induction false} CrcBitsInjective(x: bv32, y: bv32, n: nat)
    requires CrcBits(x, n) == CrcBits(y, n)
    ensures x == y
  {
    hide CrcBit;
    if n > 0 {
      CrcBitInjective(CrcBits(x, n - 1), CrcBits(y, n - 1));
      CrcBitsInjective(x, y, n - 1);
    }
  }

  lemma {:induction false} CrcBitsAdd(x: bv32, m: nat, n: nat)
    ensures CrcBits(CrcBits(x, m), n) == CrcBits(x, m + n)
  {
    hide CrcBit;
    if n > 0 { CrcBitsAdd(x, m, n - 1); }
  }

  /** A bit of the register moves down unless it falls out. */
  lemma CrcBitShifts(x: bv32, v: bv32)
    requires v < 0x8000_0000
    ensures CrcBit(x ^ (v << 1)) == CrcBit(x) ^ v
  {
  }

  /** The two registers differ by v. */
  predicate DifferBy(x: bv32, y: bv32, v: bv32) {
    y == x ^ v
  }

  lemma ShiftStep(x: bv32, y: bv32, v: bv32, u: bv32)
    requires DifferBy(x, y, v) && v == u << 1 && u < 0x8000_0000
    ensures DifferBy(CrcBit(x), CrcBit(y), u)
  {
    CrcBitShifts(x, u);
  }

  function Lifted(w: bv32, k: nat): bv32 {
    if k == 0 then w else Lifted(w, k - 1) << 1
  }

  lemma LiftedStep(w: bv32, k: nat)
    requires 0 < k
    ensures Lifted(w, 0) == w && Lifted(w, k) == Lifted(w, k - 1) << 1
  {
  }

  /** The first eight bits of the difference are still to come. */
  lemma LiftedEight(w: bv32)
    requires w < 0x100_0000
    ensures Lifted(w, 8) == w << 8
    ensures forall k: nat :: k < 8 ==> Lifted(w, k) < 0x8000_0000
  {
    hide Lifted;
    LiftedStep(w, 1);
    LiftedStep(w, 2);
    LiftedStep(w, 3);
    LiftedStep(w, 4);
    LiftedStep(w, 5);
    LiftedStep(w, 6);
    LiftedStep(w, 7);
    LiftedStep(w, 8);
  }

  lemma {:induction false} ShiftsOut(x: bv32, y: bv32, w: bv32, k: nat, n: nat)
    requires k <= n && (forall i: nat :: i < n ==> Lifted(w, i) < 0x8000_0000)
    requires DifferBy(x, y, Lifted(w, n))
    ensures DifferBy(CrcBits(x, k), CrcBits(y, k), Lifted(w, n - k))
  {
    hide DifferBy, CrcBit;
    if k > 0 {
      ShiftsOut(x, y, w, k - 1, n);
      ShiftStep(CrcBits(x, k - 1), CrcBits(y, k - 1), Lifted(w, n - k + 1), Lifted(w, n - k));
    }
  }

  /** The register after some more bytes. */
  function Fed(c: bv32, data: Bytes): bv32
    decreases |data|
  {
    if data == [] then c else Fed(CrcByte(c, data[0]), data[1..])
  }

  lemma {:induction false} CrcOverAppends(a: Bytes, b: Bytes)
    ensures CrcOver(a + b) == Fed(CrcOver(a), b)
    decreases |b|
  {
    hide CrcByte;
    if b == [] {
      assert a + b == a;
    } else {
      var c := a + [b[0]];
      assert c[..|a|] == a && c + b[1..] == a + b;
      CrcOverAppends(c, b[1..]);
    }
  }

  lemma {:induction false} FedInjective(c: bv32, d: bv32, data: Bytes)
    requires Fed(c, data) == Fed(d, data)
    ensures c == d
    decreases |data|
  {
    hide CrcBits, Bits;
    if data != [] {
      FedInjective(CrcByte(c, data[0]), CrcByte(d, data[0]), data[1..]);
      CrcBitsInjective(c ^ Bits(data[0]), d ^ Bits(data[0]), 8);
    }
  }

  /** The bytes as one little-endian word. */
  function Word(data: Bytes): bv32 {
    if data == [] then 0 else Joined(Bits(data[0]), Word(data[1..]))
  }

  function Joined(b: bv32, w: bv32): bv32 {
    b ^ (w << 8)
  }

  lemma BitsSmall(b: Byte)
    ensures Bits(b) < 0x100
  {
  }

  lemma WordStep(b: bv32, w: bv32, c: bv32, v: bv32)
    requires b < 0x100 && c < 0x100 && w < 0x100_0000 && v < 0x100_0000
    ensures w < 0x1_0000 ==> Joined(b, w) < 0x100_0000
    ensures w < 0x100 ==> Joined(b, w) < 0x1_0000
    ensures w == 0 ==> Joined(b, w) < 0x100
    ensures Joined(b, w) == Joined(c, v) ==> b == c && w == v
  {
  }

  lemma {:induction false} WordSmall(data: Bytes)
    requires |data| <= 3
    ensures Word(data) < 0x100_0000
    ensures |data| <= 2 ==> Word(data) < 0x1_0000
    ensures |data| <= 1 ==> Word(data) < 0x100
    ensures |data| == 0 ==> Word(data) == 0
    decreases |data|
  {
    hide Bits;
    if data != [] {
      var b, w := Bits(data[0]), Word(data[1..]);
      BitsSmall(data[0]);
      WordSmall(data[1..]);
      WordStep(b, w, b, w);
    }
  }

  function AsInt(x: bv32): int {
    x as int
  }

  function FromInt(n: int): bv32
    requires 0 <= n < 0x1_0000_0000
  {
    n as bv32
  }

  lemma AsIntBack(x: bv32)
    ensures FromInt(AsInt(x)) == x
  {
  }

  lemma NextNumber(x: bv32)
    requires x < 0xff
    ensures AsInt(x + 1) == AsInt(x) + 1
  {
  }

  lemma NumberBelow(x: bv32)
    requires AsInt(x) < 0xff
    ensures x < 0xff
  {
  }

  /** Every byte is the number of some word. */
  lemma {:induction false} NumberOf(b: nat) returns (x: bv32)
    requires b < 0x100
    ensures AsInt(x) == b
  {
    if b == 0 {
      x := 0;
    } else {
      var y := NumberOf(b - 1);
      x := y + 1;
      NumberBelow(y);
      NextNumber(y);
    }
  }

  lemma BitsInjective(a: Byte, b: Byte)
    requires Bits(a) == Bits(b)
    ensures a == b
  {
    hide AsInt;
    var x := NumberOf(a);
    var y := NumberOf(b);
    AsIntBack(x);
    AsIntBack(y);
    assert Bits(a) == FromInt(a) && Bits(b) == FromInt(b);
  }

  lemma {:induction false} WordInjective(a: Bytes, b: Bytes)
    requires |a| == |b| <= 4 && Word(a) == Word(b)
    ensures a == b
    decreases |a|
  {
    hide Bits;
    if a != [] {
      BitsSmall(a[0]);
      BitsSmall(b[0]);
      WordSmall(a[1..]);
      WordSmall(b[1..]);
      WordStep(Bits(a[0]), Word(a[1..]), Bits(b[0]), Word(b[1..]));
      BitsInjective(a[0], b[0]);
      WordInjective(a[1..], b[1..]);
      assert a == [a[0]] + a[1..] && b == [b[0]] + b[1..];
    }
  }

  lemma DifferByZero(c: bv32, x: bv32)
    requires DifferBy(c, x, 0)
    ensures x == c && CrcBits(x, 0) == c
  {
  }

  lemma DifferAfterByte(c: bv32, x: bv32, b: bv32, w: bv32)
    requires DifferBy(c, x, Joined(b, w))
    ensures DifferBy(c ^ b, x, w << 8)
  {
  }

  /** The first byte of a word enters at once, the rest after eight steps. */
  lemma FirstByteEnters(c: bv32, x: bv32, b: bv32, w: bv32)
    requires w < 0x100_0000 && DifferBy(c, x, Joined(b, w))
    ensures DifferBy(CrcBits(c ^ b, 8), CrcBits(x, 8), w)
  {
    hide CrcBits, Lifted, Joined, DifferBy;
    var d := c ^ b;
    DifferAfterByte(c, x, b, w);
    LiftedEight(w);
    ShiftsOut(d, x, w, 8, 8);
    LiftedStep(w, 1);
  }

  /** Up to four bytes enter the register as one word. */
  lemma {:induction false} WordFeeds(c: bv32, x: bv32, data: Bytes)
    requires |data| <= 4 && DifferBy(c, x, Word(data))
    ensures Fed(c, data) == CrcBits(x, 8 * |data|)
    decreases |data|
  {
    hide DifferBy, Joined, Bits, CrcBits;
    if data == [] {
      DifferByZero(c, x);
    } else {
      WordSmall(data[1..]);
      FirstByteEnters(c, x, Bits(data[0]), Word(data[1..]));
      WordFeeds(CrcByte(c, data[0]), CrcBits(x, 8), data[1..]);
      CrcBitsAdd(x, 8, 8 * |data[1..]|);
    }
  }

  lemma XorAway(c: bv32, d: bv32)
    requires c ^ 0xffff_ffff == d ^ 0xffff_ffff
    ensures c == d
  {
  }

  lemma FinishedInjective(c: bv32, d: bv32)
    requires Finished(c) == Finished(d)
    ensures c == d
  {
    AsIntBack(c ^ 0xffff_ffff);
    AsIntBack(d ^ 0xffff_ffff);
    XorAway(c, d);
  }

  lemma DiffersAlike(c: bv32, v: bv32, w: bv32) returns (x: bv32, y: bv32)
    ensures DifferBy(c, x, v) && DifferBy(c, y, w) && (x == y ==> v == w)
  {
    x, y := c ^ v, c ^ w;
  }

  lemma WordsAreNoticed(c: bv32, a: Bytes, b: Bytes)
    requires |a| == |b| <= 4 && Fed(c, a) == Fed(c, b)
    ensures a == b
  {
    hide Fed, Word, CrcBits, DifferBy;
    var x, y := DiffersAlike(c, Word(a), Word(b));
    WordFeeds(c, x, a);
    WordFeeds(c, y, b);
    CrcBitsInjective(x, y, 8 * |a|);
    WordInjective(a, b);
  }

  /**
   * A change that is confined to four neighbouring bytes is always noticed: two
   * contents of one length that differ only there have different checksums.
   */
  lemma ShortChangesAreNoticed(front: Bytes, a: Bytes, b: Bytes, back: Bytes)
    requires |a| == |b| <= 4
    ensures Crc(front + a + back) == Crc(front + b + back) <==> a == b
  {
    hide CrcOver, Finished, Fed;
    if Crc(front + a + back) == Crc(front + b + back) {
      FinishedInjective(CrcOver(front + a + back), CrcOver(front + b + back));
      CrcOverAppends(front + a, back);
      CrcOverAppends(front + b, back);
      FedInjective(CrcOver(front + a), CrcOver(front + b), back);
      CrcOverAppends(front, a);
      CrcOverAppends(front, b);
      WordsAreNoticed(CrcOver(front), a, b);
    }
  }

  // ----- The standard check value -----

  lemma NextBit(x: bv32, n: nat)
    ensures CrcBits(x, n + 1) == CrcBit(CrcBits(x, n))
  {
  }

  lemma EightBits(x: bv32)
    ensures CrcBits(x, 8) == CrcBit(CrcBit(CrcBit(CrcBit(CrcBit(CrcBit(CrcBit(CrcBit(x))))))))
  {
    NextBit(x, 0);
    NextBit(x, 1);
    NextBit(x, 2);
    NextBit(x, 3);
    NextBit(x, 4);
    NextBit(x, 5);
    NextBit(x, 6);
    NextBit(x, 7);
    assert CrcBits(x, 0) == x;
    hide CrcBit, CrcBits;
  }

  lemma LastByte(data: Bytes, b: Byte)
    ensures CrcOver(data + [b]) == CrcByte(CrcOver(data), b)
  {
    assert (data + [b])[..|data|] == data;
  }

  /** The register after each digit. */
  lemma DigitsMoveTheRegister()
    ensures CrcByte(0xffff_ffff, 49) == 0x7c23_1048
    ensures CrcByte(0x7c23_1048, 50) == 0xb0ac_bb32
    ensures CrcByte(0xb0ac_bb32, 51) == 0x77b7_9c2d
    ensures CrcByte(0x77b7_9c2d, 52) == 0x641c_1f5c
    ensures CrcByte(0x641c_1f5c, 53) == 0x340a_c5e3
    ensures CrcByte(0x340a_c5e3, 54) == 0xf68d_2c9e
    ensures CrcByte(0xf68d_2c9e, 55) == 0xaffc_9660
    ensures CrcByte(0xaffc_9660, 56) == 0x651f_2550
    ensures CrcByte(0x651f_2550, 57) == 0x340b_c6d9
  {
    hide CrcBits;
    EightBits(0xffff_ffff ^ 0x0000_0031);
    assert Bits(49) == 0x0000_0031;
    EightBits(0x7c23_1048 ^ 0x0000_0032);
    assert Bits(50) == 0x0000_0032;
    EightBits(0xb0ac_bb32 ^ 0x0000_0033);
    assert Bits(51) == 0x0000_0033;
    EightBits(0x77b7_9c2d ^ 0x0000_0034);
    assert Bits(52) == 0x0000_0034;
    EightBits(0x641c_1f5c ^ 0x0000_0035);
    assert Bits(53) == 0x0000_0035;
    EightBits(0x340a_c5e3 ^ 0x0000_0036);
    assert Bits(54) == 0x0000_0036;
    EightBits(0xf68d_2c9e ^ 0x0000_0037);
    assert Bits(55) == 0x0000_0037;
    EightBits(0xaffc_9660 ^ 0x0000_0038);
    assert Bits(56) == 0x0000_0038;
    EightBits(0x651f_2550 ^ 0x0000_0039);
    assert Bits(57) == 0x0000_0039;
  }

  lemma RegisterEnds()
    ensures CrcOver([]) == 0xffff_ffff && Finished(0x340b_c6d9) == 0xcbf4_3926
  {
  }

  /** The checksum of the text "123456789" is the check value published for CRC-32. */
  lemma CheckValue()
    ensures Crc([49, 50, 51, 52, 53, 54, 55, 56, 57]) == 0xcbf4_3926
  {
    hide CrcByte, CrcOver, Finished;
    RegisterEnds();
    DigitsMoveTheRegister();
    LastByte([], 49);
    assert [] + [49] == [49];
    LastByte([49], 50);
    assert [49] + [50] == [49, 50];
    LastByte([49, 50], 51);
    assert [49, 50] + [51] == [49, 50, 51];
    LastByte([49, 50, 51], 52);
    assert [49, 50, 51] + [52] == [49, 50, 51, 52];
    LastByte([49, 50, 51, 52], 53);
    assert [49, 50, 51, 52] + [53] == [49, 50, 51, 52, 53];
    LastByte([49, 50, 51, 52, 53], 54);
    assert [49, 50, 51, 52, 53] + [54] == [49, 50, 51, 52, 53, 54];
    LastByte([49, 50, 51, 52, 53, 54], 55);
    assert [49, 50, 51, 52, 53, 54] + [55] == [49, 50, 51, 52, 53, 54, 55];
    LastByte([49, 50, 51, 52, 53, 54, 55], 56);
    assert [49, 50, 51, 52, 53, 54, 55] + [56] == [49, 50, 51, 52, 53, 54, 55, 56];
    LastByte([49, 50, 51, 52, 53, 54, 55, 56], 57);
    assert [49, 50, 51, 52, 53, 54, 55, 56] + [57] == [49, 50, 51, 52, 53, 54, 55, 56, 57];
  }
}
