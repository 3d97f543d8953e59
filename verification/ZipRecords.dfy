/** The records of a created archive, field by field, as another reader finds them. */
module ZipRecords {
  import opened Common
  import opened Text
  import opened ZipFormat
  import opened ZipArchive
  import opened ZipProofs
  import Checksum

  /** Each of these numbers, given by offset, width and value, reads back from the record that starts at `base`. */
  ghost predicate Says(b: Bytes, base: nat, fields: seq<(nat, nat, nat)>) {
    forall i :: 0 <= i < |fields| ==> Read(b, base + fields[i].0, fields[i].1) == Some(fields[i].2)
  }

  /** The local header: signature, version 2.0, UTF-8 names, stored, 1 January 2026, checksum, sizes, name length. */
  function LocalNumbers(crc: nat, size: nat, nameLength: nat): seq<(nat, nat, nat)> {
    [(0, 4, 0x0403_4b50), (4, 2, 20), (6, 2, 0x800), (8, 2, 0), (10, 2, 0), (12, 2, 23585),
     (14, 4, crc), (18, 4, size), (22, 4, size), (26, 2, nameLength)]
  }

  /** The central header: the same and the offset of the local header. */
  function CentralNumbers(crc: nat, size: nat, nameLength: nat, offset: nat): seq<(nat, nat, nat)> {
    [(0, 4, 0x0201_4b50), (4, 2, 20), (6, 2, 20), (8, 2, 0x800), (10, 2, 0), (12, 2, 0), (14, 2, 23585),
     (16, 4, crc), (20, 4, size), (24, 4, size), (28, 2, nameLength), (42, 4, offset)]
  }

  /** The end record: the number of entries twice, the length of the directory and where it starts. */
  function EndNumbers(count: nat, directorySize: nat, offset: nat): seq<(nat, nat, nat)> {
    [(0, 4, 0x0605_4b50), (8, 2, count), (10, 2, count), (12, 4, directorySize), (16, 4, offset)]
  }

  /** No extra field. */
  const LOCAL_BLANKS: seq<(nat, nat, nat)> := [(28, 2, 0)]
  /** No extra field, no comment, disk 0, no attributes. */
  const CENTRAL_BLANKS: seq<(nat, nat, nat)> := [(30, 2, 0), (32, 2, 0), (34, 2, 0), (36, 2, 0), (38, 4, 0)]
  /** Disk 0 and no comment. */
  const END_BLANKS: seq<(nat, nat, nat)> := [(4, 2, 0), (6, 2, 0), (20, 2, 0)]

  /** The table of a record holds these numbers. */
  ghost predicate Lists(fields: seq<Field>, numbers: seq<(nat, nat, nat)>) {
    |fields| == |numbers|
    && forall i :: 0 <= i < |fields| ==> fields[i] == Field(numbers[i].0, numbers[i].1, numbers[i].2)
  }

  lemma TableSays(size: nat, fields: seq<Field>, name: Bytes, numbers: seq<(nat, nat, nat)>)
    requires WellPlaced(fields, size) && Representable(fields) && Lists(fields, numbers)
    ensures Says(Record(size, fields, name), 0, numbers)
  {
    hide WellPlaced, Record, Read;
    forall i | 0 <= i < |numbers|
      ensures Read(Record(size, fields, name), 0 + numbers[i].0, numbers[i].1) == Some(numbers[i].2)
    {
      assert fields[i] in fields;
      RecordField(size, fields, name, i, fields[i]);
    }
  }

  lemma BlanksSay(size: nat, fields: seq<Field>, name: Bytes, blanks: seq<(nat, nat, nat)>)
    requires WellPlaced(fields, size)
    requires forall i :: 0 <= i < |blanks| ==>
               blanks[i].0 + blanks[i].1 <= size && blanks[i].2 == 0
               && forall f :: f in fields ==> Apart(blanks[i].0, blanks[i].1, f)
    ensures Says(Record(size, fields, name), 0, blanks)
  {
    hide WellPlaced, Record, Read;
    forall i | 0 <= i < |blanks|
      ensures Read(Record(size, fields, name), 0 + blanks[i].0, blanks[i].1) == Some(blanks[i].2)
    {
      RecordGap(size, fields, name, blanks[i].0, blanks[i].1);
    }
  }

  lemma LocalSays(name: Bytes, crc: nat, size: nat)
    requires |name| < 0x1_0000 && size < 0x1_0000_0000 && crc < 0x1_0000_0000
    ensures var r := Record(LOCAL_SIZE, LocalFields(crc, size, |name|), name);
            Says(r, 0, LocalNumbers(crc, size, |name|)) && Says(r, 0, LOCAL_BLANKS)
  {
    hide Record, Says, WellPlaced;
    TablesFitIff(crc, size, |name|, 0);
    TableSays(LOCAL_SIZE, LocalFields(crc, size, |name|), name, LocalNumbers(crc, size, |name|));
    BlanksSay(LOCAL_SIZE, LocalFields(crc, size, |name|), name, LOCAL_BLANKS);
  }

  lemma CentralSays(name: Bytes, crc: nat, size: nat, offset: nat)
    requires |name| < 0x1_0000 && size < 0x1_0000_0000 && crc < 0x1_0000_0000 && offset < 0x1_0000_0000
    ensures var r := Record(CENTRAL_SIZE, CentralFields(crc, size, |name|, offset), name);
            Says(r, 0, CentralNumbers(crc, size, |name|, offset)) && Says(r, 0, CENTRAL_BLANKS)
  {
    hide Record, Says, WellPlaced;
    TablesFitIff(crc, size, |name|, offset);
    TableSays(CENTRAL_SIZE, CentralFields(crc, size, |name|, offset), name, CentralNumbers(crc, size, |name|, offset));
    BlanksSay(CENTRAL_SIZE, CentralFields(crc, size, |name|, offset), name, CENTRAL_BLANKS);
  }

  lemma EndSays(count: nat, directorySize: nat, offset: nat)
    requires count < 0x1_0000 && directorySize < 0x1_0000_0000 && offset < 0x1_0000_0000
    ensures var r := Record(END_SIZE, EndFields(count, directorySize, offset), []);
            Says(r, 0, EndNumbers(count, directorySize, offset)) && Says(r, 0, END_BLANKS)
  {
    hide Record, Says, WellPlaced;
    EndFitsIff(count, directorySize, offset);
    TableSays(END_SIZE, EndFields(count, directorySize, offset), [], EndNumbers(count, directorySize, offset));
    BlanksSay(END_SIZE, EndFields(count, directorySize, offset), [], END_BLANKS);
  }

  // ----- In the archive -----

  lemma SaysInside(b: Bytes, base: nat, record: Bytes, numbers: seq<(nat, nat, nat)>)
    requires Says(record, 0, numbers) && base + |record| <= |b| && b[base..base + |record|] == record
    ensures Says(b, base, numbers)
  {
    hide Read;
    forall i | 0 <= i < |numbers| ensures Read(b, base + numbers[i].0, numbers[i].1) == Some(numbers[i].2) {
      assert Read(record, 0 + numbers[i].0, numbers[i].1) == Some(numbers[i].2);
      ReadsWithin(record, numbers[i].0, numbers[i].1);
      ReadInside(b, base, record, numbers[i].0, numbers[i].1);
    }
  }

  lemma ReadsWithin(b: Bytes, at: nat, width: nat)
    ensures Read(b, at, width).Some? ==> at + width <= |b|
  {
  }

  lemma HoldsWithin(b: Bytes, at: nat, whole: Bytes, from: nat, to: nat)
    requires Holds(b, at, whole) && from <= to <= |whole|
    ensures Holds(b, at + from, whole[from..to])
  {
    forall i | from <= i < to ensures whole[i] == b[at + i] {
      assert b[at..at + |whole|][i] == b[at + i];
    }
    assert b[at + from..at + from + (to - from)] == whole[from..to];
  }

  lemma LocalOffset(es: seq<Entry>, k: nat)
    requires k < |es|
    ensures OffsetOf(LocalParts(es), k) == LocalsLength(es[..k])
  {
    hide LocalRecord;
    PartsAt(es, k);
    PartsReach(es[..k]);
  }

  lemma LocalHolds(es: seq<Entry>, k: nat)
    requires EntriesFit(es) && k < |es|
    ensures Holds(Zip(es), LocalsLength(es[..k]), LocalRecord(es[k]) + es[k].data)
  {
    hide LocalRecord, IsLocal, IsCentral, Zip, EndOf, CentralParts, Holds, BytesOf, OffsetOf, LocalsLength, WellLaid,
        EntriesFit, LocalParts, CentralRecord;
    WrittenIsWellLaid(es);
    LocalIsPlaced(LayoutOf(es), k);
    ZipIsItsLayout(es);
    PartsAt(es, k);
    LocalOffset(es, k);
  }

  lemma {:induction false} CentralOffset(es: seq<Entry>, k: nat)
    requires k <= |es|
    ensures OffsetOf(CentralParts(es), k) == DirectoryLength(es[..k])
  {
    hide CentralRecord, LocalsLength, DirectoryLength, LocalParts;
    if k == |es| {
      PartsReach(es);
      assert CentralParts(es)[..k] == CentralParts(es) && es[..k] == es;
    } else {
      CentralOffset(es[..|es| - 1], k);
      assert es[..|es| - 1][..k] == es[..k];
      assert CentralParts(es)[..k] == CentralParts(es[..|es| - 1])[..k];
    }
  }

  lemma CentralHolds(es: seq<Entry>, k: nat)
    requires EntriesFit(es) && k < |es|
    ensures Holds(Zip(es), LocalsLength(es) + DirectoryLength(es[..k]), CentralRecord(es[k], LocalsLength(es[..k])))
  {
    hide LocalRecord, IsLocal, IsCentral, Zip, EndOf, CentralParts, Holds, BytesOf, OffsetOf, LocalsLength, WellLaid,
        EntriesFit, LocalParts, CentralRecord, DirectoryLength;
    WrittenIsWellLaid(es);
    CentralIsPlaced(LayoutOf(es), k);
    ZipIsItsLayout(es);
    PartsAt(es, k);
    PartsReach(es);
    CentralOffset(es, k);
  }

  lemma SaysThere(b: Bytes, at: nat, record: Bytes, numbers: seq<(nat, nat, nat)>)
    requires Holds(b, at, record) && Says(record, 0, numbers)
    ensures Says(b, at, numbers)
  {
    hide Says;
    SaysInside(b, at, record, numbers);
  }

  lemma NameIsLast(size: nat, fields: seq<Field>, name: Bytes)
    requires WellPlaced(fields, size)
    ensures Record(size, fields, name)[size..size + |name|] == name
  {
    PatchThere(Written(Zeros(size + |name|), fields), size, name);
  }

  /** A record, its name and what follows, at their places. */
  lemma RecordReads(b: Bytes, at: nat, size: nat, fields: seq<Field>, name: Bytes, numbers: seq<(nat, nat, nat)>,
      blanks: seq<(nat, nat, nat)>, data: Bytes)
    requires WellPlaced(fields, size) && Holds(b, at, Record(size, fields, name) + data)
    requires Says(Record(size, fields, name), 0, numbers) && Says(Record(size, fields, name), 0, blanks)
    ensures Says(b, at, numbers) && Says(b, at, blanks)
    ensures Holds(b, at + size, name) && Holds(b, at + size + |name|, data)
  {
    hide Says, Holds, Record, WellPlaced;
    var record := Record(size, fields, name);
    assert (record + data)[0..|record|] == record && (record + data)[|record|..|record + data|] == data;
    HoldsWithin(b, at, record + data, 0, |record|);
    HoldsWithin(b, at, record + data, |record|, |record + data|);
    NameIsLast(size, fields, name);
    HoldsWithin(b, at, record, size, |record|);
    SaysThere(b, at, record, numbers);
    SaysThere(b, at, record, blanks);
  }

  /** The local record and the data of one entry. */
  lemma LocalReads(es: seq<Entry>, k: nat)
    requires EntriesFit(es) && k < |es|
    ensures var z, e, name, local := Zip(es), es[k], Utf8(es[k].path), LocalsLength(es[..k]);
            && Says(z, local, LocalNumbers(Checksum.Crc(e.data), |e.data|, |name|)) && Says(z, local, LOCAL_BLANKS)
            && Holds(z, local + 30, name) && Holds(z, local + 30 + |name|, e.data)
  {
    hide Says, Holds, Zip, Record, WellPlaced, LocalsLength, EntriesFit, LocalNumbers, LocalFields;
    var e, name := es[k], Utf8(es[k].path);
    FitsAt(es, k);
    LocalHolds(es, k);
    LocalSays(name, Checksum.Crc(e.data), |e.data|);
    RecordReads(Zip(es), LocalsLength(es[..k]), LOCAL_SIZE, LocalTable(e), name,
                LocalNumbers(Checksum.Crc(e.data), |e.data|, |name|), LOCAL_BLANKS, e.data);
  }

  /** The central record of one entry. */
  lemma CentralReads(es: seq<Entry>, k: nat)
    requires EntriesFit(es) && k < |es|
    ensures var z, e, name, local := Zip(es), es[k], Utf8(es[k].path), LocalsLength(es[..k]);
            var central := LocalsLength(es) + DirectoryLength(es[..k]);
            && Says(z, central, CentralNumbers(Checksum.Crc(e.data), |e.data|, |name|, local))
            && Says(z, central, CENTRAL_BLANKS)
            && Holds(z, central + 46, name)
  {
    hide Says, Holds, Zip, Record, WellPlaced, LocalsLength, EntriesFit, CentralNumbers, CentralFields,
        DirectoryLength;
    var e, name, local := es[k], Utf8(es[k].path), LocalsLength(es[..k]);
    FitsAt(es, k);
    CentralHolds(es, k);
    CentralSays(name, Checksum.Crc(e.data), |e.data|, local);
    assert CentralRecord(e, local) + [] == CentralRecord(e, local);
    RecordReads(Zip(es), LocalsLength(es) + DirectoryLength(es[..k]), CENTRAL_SIZE, CentralTable(e, local), name,
                CentralNumbers(Checksum.Crc(e.data), |e.data|, |name|, local), CENTRAL_BLANKS, []);
  }

  lemma EndReadsThere(es: seq<Entry>)
    requires |es| < LIMIT_16 && DirectoryLength(es) < LIMIT_32 && LocalsLength(es) < LIMIT_32
    ensures var z, end := Zip(es), LocalsLength(es) + DirectoryLength(es);
            && Says(z, end, EndNumbers(|es|, DirectoryLength(es), LocalsLength(es))) && Says(z, end, END_BLANKS)
            && |z| == end + 22
  {
    hide Says, Zip, Record, WellPlaced, LocalsLength, DirectoryLength, EndNumbers, EndFields;
    var z, end := Zip(es), LocalsLength(es) + DirectoryLength(es);
    EndStands(es);
    EndSays(|es|, DirectoryLength(es), LocalsLength(es));
    assert z[end..end + |EndOf(es)|] == z[end..];
    SaysThere(z, end, EndOf(es), EndNumbers(|es|, DirectoryLength(es), LocalsLength(es)));
    SaysThere(z, end, EndOf(es), END_BLANKS);
  }

  /**
   * A created archive, read at the places where a reader looks: every entry has its
   * local record where those before it end, with its name and then its data behind
   * it; its central record stands in the directory behind the local records; both
   * carry the checksum and the length of the data; and the end record names the
   * directory and the number of entries.
   */
  lemma RecordsStand(entries: seq<Entry>, k: nat)
    requires ArchiveFits(SortByPath(entries)) && k < |entries|
    ensures |SortByPath(entries)| == |entries|
    ensures var es, z := SortByPath(entries), Zip(SortByPath(entries));
            var e, name, crc := es[k], Utf8(es[k].path), Checksum.Crc(es[k].data);
            var local, central, end := LocalsLength(es[..k]), LocalsLength(es) + DirectoryLength(es[..k]),
                                       LocalsLength(es) + DirectoryLength(es);
            && Says(z, local, LocalNumbers(crc, |e.data|, |name|)) && Says(z, local, LOCAL_BLANKS)
            && Holds(z, local + 30, name) && Holds(z, local + 30 + |name|, e.data)
            && Says(z, central, CentralNumbers(crc, |e.data|, |name|, local)) && Says(z, central, CENTRAL_BLANKS)
            && Holds(z, central + 46, name)
            && Says(z, end, EndNumbers(|entries|, DirectoryLength(es), LocalsLength(es))) && Says(z, end, END_BLANKS)
            && |z| == end + 22
  {
    hide SortByPath, Says, Holds, Zip, LocalsLength, DirectoryLength, EntriesFit, InOrder, LocalNumbers, CentralNumbers,
        EndNumbers;
    var es := SortByPath(entries);
    SortByPathOrders(entries);
    assert |multiset(es)| == |es| && |multiset(entries)| == |entries|;
    LocalReads(es, k);
    CentralReads(es, k);
    EndReadsThere(es);
  }

  /** The signature of an end record stands at this place. */
  predicate SignedAt(b: Bytes, i: int) {
    0 <= i && i + 4 <= |b| && b[i] == 0x50 && b[i + 1] == 0x4b && b[i + 2] == 0x05 && b[i + 3] == 0x06
  }

  /** The search for the end record finds the last signature in the archive, also in its very last bytes. */
  lemma SearchFindsLastSignature(b: Bytes, i: nat)
    ensures LastMark(b, |b|) == Some(i) <==> SignedAt(b, i) && forall j :: j > i ==> !SignedAt(b, j)
  {
    forall j: nat ensures MarkAt(b, j) <==> SignedAt(b, j) {
      if j + 4 <= |b| {
        assert b[j..j + 4] == [b[j], b[j + 1], b[j + 2], b[j + 3]];
      }
    }
  }
}
