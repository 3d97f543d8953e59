/** Byte buffers with little-endian fields, and the three ZIP records as field tables. */
module ZipFormat {
  import opened Common
  import opened Text

  type Bytes = seq<Byte>

  // ----- Little-endian fields -----

  function Capacity(width: nat): nat {
    if width == 0 then 1 else 0x100 * Capacity(width - 1)
  }

  function Encode(v: nat, width: nat): (r: Bytes)
    ensures |r| == width
  {
    if width == 0 then [] else [v % 0x100] + Encode(v / 0x100, width - 1)
  }

  function Decode(b: Bytes): nat {
    if b == [] then 0 else b[0] + 0x100 * Decode(b[1..])
  }

  lemma {:induction false} FieldRoundTrip(v: nat, width: nat)
    requires v < Capacity(width)
    ensures Decode(Encode(v, width)) == v
  {
    if width > 0 {
      FieldRoundTrip(v / 0x100, width - 1);
      assert Encode(v, width)[1..] == Encode(v / 0x100, width - 1);
    }
  }

  /** Reading past the end of a buffer is an error. */
  function Read(b: Bytes, at: nat, width: nat): Option<nat> {
    if at + width <= |b| then Some(Decode(b[at..at + width])) else None
  }

  function Zeros(n: nat): (r: Bytes)
    ensures |r| == n && forall i :: 0 <= i < n ==> r[i] == 0
  {
    seq(n, i => 0)
  }

  lemma {:induction false} ZerosDecode(n: nat)
    ensures Decode(Zeros(n)) == 0
  {
    if n > 0 {
      assert Zeros(n)[1..] == Zeros(n - 1);
      ZerosDecode(n - 1);
    }
  }

  /** The buffer with these bytes written at an offset. */
  function Patch(b: Bytes, at: nat, bytes: Bytes): (r: Bytes)
    requires at + |bytes| <= |b|
    ensures |r| == |b|
  {
    b[..at] + bytes + b[at + |bytes|..]
  }

  // ----- Field tables -----

  datatype Field = Field(at: nat, width: nat, value: nat)

  predicate InBuffer(fields: seq<Field>, length: nat) {
    forall f :: f in fields ==> f.at + f.width <= length
  }

  predicate Apart(at: nat, width: nat, f: Field) {
    at + width <= f.at || f.at + f.width <= at
  }

  predicate Disjoint(fields: seq<Field>) {
    forall i, j :: 0 <= i < j < |fields| ==> Apart(fields[i].at, fields[i].width, fields[j])
  }

  /** The buffer after writing the fields in order. */
  function Written(b: Bytes, fields: seq<Field>): (r: Bytes)
    requires InBuffer(fields, |b|)
    ensures |r| == |b|
  {
    if fields == [] then b
    else
      var last := fields[|fields| - 1];
      assert last in fields;
      assert forall f :: f in fields[..|fields| - 1] ==> f in fields;
      Patch(Written(b, fields[..|fields| - 1]), last.at, Encode(last.value, last.width))
  }

  lemma PatchElsewhere(b: Bytes, at: nat, bytes: Bytes, from: nat, width: nat)
    requires at + |bytes| <= |b| && from + width <= |b|
    requires from + width <= at || at + |bytes| <= from
    ensures Patch(b, at, bytes)[from..from + width] == b[from..from + width]
  {
    var p := Patch(b, at, bytes);
    assert forall i :: from <= i < from + width ==> p[i] == b[i];
  }

  lemma PatchThere(b: Bytes, at: nat, bytes: Bytes)
    requires at + |bytes| <= |b|
    ensures Patch(b, at, bytes)[at..at + |bytes|] == bytes
  {
  }

  /** A field of the table reads back as it was written. */
  lemma {:induction false} ReadField(b: Bytes, fields: seq<Field>, i: nat)
    requires InBuffer(fields, |b|) && Disjoint(fields) && i < |fields|
    requires fields[i].value < Capacity(fields[i].width)
    ensures Read(Written(b, fields), fields[i].at, fields[i].width) == Some(fields[i].value)
  {
    var init, last := fields[..|fields| - 1], fields[|fields| - 1];
    assert last in fields && fields[i] in fields;
    assert forall f :: f in init ==> f in fields;
    FieldRoundTrip(fields[i].value, fields[i].width);
    hide Encode, Decode, Capacity, Patch;
    if i == |fields| - 1 {
      PatchThere(Written(b, init), last.at, Encode(last.value, last.width));
    } else {
      ReadField(b, init, i);
      PatchElsewhere(Written(b, init), last.at, Encode(last.value, last.width), fields[i].at, fields[i].width);
    }
  }

  /** Bytes that no field covers stay as they were. */
  lemma {:induction false} ReadUntouched(b: Bytes, fields: seq<Field>, at: nat, width: nat)
    requires InBuffer(fields, |b|) && at + width <= |b|
    requires forall f :: f in fields ==> Apart(at, width, f)
    ensures Written(b, fields)[at..at + width] == b[at..at + width]
  {
    if fields != [] {
      var init, last := fields[..|fields| - 1], fields[|fields| - 1];
      assert last in fields && forall f :: f in init ==> f in fields;
      ReadUntouched(b, init, at, width);
      PatchElsewhere(Written(b, init), last.at, Encode(last.value, last.width), at, width);
    }
  }

  // ----- Records -----

  const LOCAL_SIGNATURE := 0x0403_4b50
  const CENTRAL_SIGNATURE := 0x0201_4b50
  const END_SIGNATURE := 0x0605_4b50
  const VERSION := 20
  const UTF8_FLAG := 0x800
  const DOS_TIME := 0
  /** 1 January 2026. */
  const DOS_DATE := (2026 - 1980) * 512 + 1 * 32 + 1

  const LOCAL_SIZE := 30
  const CENTRAL_SIZE := 46
  const END_SIZE := 22

  /** Fields of two or four bytes, inside the fixed part, none overlapping another. */
  predicate WellPlaced(fields: seq<Field>, size: nat) {
    && InBuffer(fields, size)
    && Disjoint(fields)
    && forall f :: f in fields ==> f.width == 2 || f.width == 4
  }

  function LocalFields(crc: nat, size: nat, nameLength: nat): (r: seq<Field>)
    ensures WellPlaced(r, LOCAL_SIZE)
  {
    [Field(0, 4, LOCAL_SIGNATURE), Field(4, 2, VERSION), Field(6, 2, UTF8_FLAG), Field(8, 2, 0),
     Field(10, 2, DOS_TIME), Field(12, 2, DOS_DATE), Field(14, 4, crc), Field(18, 4, size), Field(22, 4, size),
     Field(26, 2, nameLength)]
  }

  function CentralFields(crc: nat, size: nat, nameLength: nat, offset: nat): (r: seq<Field>)
    ensures WellPlaced(r, CENTRAL_SIZE)
  {
    [Field(0, 4, CENTRAL_SIGNATURE), Field(4, 2, VERSION), Field(6, 2, VERSION), Field(8, 2, UTF8_FLAG),
      Field(10, 2, 0),
     Field(12, 2, DOS_TIME), Field(14, 2, DOS_DATE), Field(16, 4, crc), Field(20, 4, size), Field(24, 4, size),
     Field(28, 2, nameLength), Field(42, 4, offset)]
  }

  function EndFields(count: nat, directorySize: nat, offset: nat): (r: seq<Field>)
    ensures WellPlaced(r, END_SIZE)
  {
    [Field(0, 4, END_SIGNATURE), Field(8, 2, count), Field(10, 2, count), Field(12, 4, directorySize),
      Field(16, 4, offset)]
  }

  /** Every value fits its field; writing a larger one throws. */
  predicate Representable(fields: seq<Field>) {
    forall f :: f in fields ==> f.value < Capacity(f.width)
  }

  /** A record of a fixed part, zero where no field is, and a name behind it. */
  function Record(size: nat, fields: seq<Field>, name: Bytes): (r: Bytes)
    requires WellPlaced(fields, size)
    ensures |r| == size + |name|
  {
    Patch(Written(Zeros(size + |name|), fields), size, name)
  }

  // ----- Buffers -----

  /** writeUInt16LE and writeUInt32LE: the field is written, or the value is out of range. */
  method WriteField(buffer: array<Byte>, f: Field) returns (ok: bool)
    requires f.at + f.width <= buffer.Length && (f.width == 2 || f.width == 4)
    modifies buffer
    ensures ok == (f.value < Capacity(f.width))
    ensures ok ==> buffer[..] == Patch(old(buffer[..]), f.at, Encode(f.value, f.width))
    ensures !ok ==> buffer[..] == old(buffer[..])
  {
    if f.value >= (if f.width == 2 then 0x1_0000 else 0x1_0000_0000) {
      return false;
    }
    CopyInto(buffer, f.at, Encode(f.value, f.width));
    return true;
  }

  /** Buffer.copy. */
  method CopyInto(buffer: array<Byte>, at: nat, bytes: Bytes)
    requires at + |bytes| <= buffer.Length
    modifies buffer
    ensures buffer[..] == Patch(old(buffer[..]), at, bytes)
  {
    for i := 0 to |bytes|
      invariant forall j :: 0 <= j < buffer.Length ==>
                  buffer[j] == if at <= j < at + i then bytes[j - at] else old(buffer[j])
    {
      buffer[at + i] := bytes[i];
    }
  }

  /** A record as it is built: a zeroed buffer, the fields in order, then the name. */
  method WriteRecord(size: nat, fields: seq<Field>, name: Bytes) returns (r: Option<Bytes>)
    requires WellPlaced(fields, size)
    ensures r == if Representable(fields) then Some(Record(size, fields, name)) else None
  {
    var buffer := new Byte[size + |name|](i => 0);
    assert buffer[..] == Zeros(size + |name|);
    for i := 0 to |fields|
      invariant forall f :: f in fields[..i] ==> f in fields && f.value < Capacity(f.width)
      invariant buffer[..] == Written(Zeros(size + |name|), fields[..i])
    {
      assert fields[i] in fields && fields[..i + 1][..i] == fields[..i];
      var ok := WriteField(buffer, fields[i]);
      if !ok {
        return None;
      }
    }
    assert fields[..|fields|] == fields;
    CopyInto(buffer, size, name);
    return Some(buffer[..]);
  }

  /** When the values of the three records fit, in numbers. */
  lemma TablesFitIff(crc: nat, size: nat, nameLength: nat, offset: nat)
    requires crc < 0x1_0000_0000
    ensures Representable(LocalFields(crc, size, nameLength)) <==> size < 0x1_0000_0000 && nameLength < 0x1_0000
    ensures Representable(CentralFields(crc, size, nameLength, offset))
            <==> size < 0x1_0000_0000 && nameLength < 0x1_0000 && offset < 0x1_0000_0000
  {
    var l, c := LocalFields(crc, size, nameLength), CentralFields(crc, size, nameLength, offset);
    assert l[7] in l && l[9] in l && c[8] in c && c[10] in c && c[11] in c;
  }

  lemma EndFitsIff(count: nat, directorySize: nat, offset: nat)
    ensures Representable(EndFields(count, directorySize, offset))
            <==> count < 0x1_0000 && directorySize < 0x1_0000_0000 && offset < 0x1_0000_0000
  {
    var e := EndFields(count, directorySize, offset);
    assert e[1] in e && e[3] in e && e[4] in e;
  }
}
