/** The archive read back: what inspection makes of a written archive. */
module ZipProofs {
  import Checksum
  import opened Common
  import opened StableSort
  import opened Text
  import opened ZipFormat
  import opened ZipArchive

  predicate DistinctPaths(es: seq<Entry>) {
    forall i, j :: 0 <= i < j < |es| ==> es[i].path != es[j].path
  }

  predicate NoneExcluded(es: seq<Entry>, excluded: string -> bool) {
    forall e :: e in es ==> !excluded(e.path)
  }

  // ----- The sort -----

  lemma PathsCompare(a: string, b: string)
    ensures ComparePaths(a, b) == 0 <==> a == b
    ensures ComparePaths(a, b) == -ComparePaths(b, a)
  {
    if Utf16(a) == Utf16(b) { Utf16IsInjective(a, b); }
    CompareIsAntisymmetric(Utf16(a), Utf16(b));
  }

  lemma {:induction false} SortedIsInOrder(es: seq<Entry>)
    requires SortedBy(es, PathRank)
    ensures InOrder(es)
  {
    if es != [] {
      SortedIsInOrder(es[1..]);
      assert forall i :: 0 < i < |es| ==> es[i] == es[1..][i - 1];
    }
  }

  /** The sort permutes the entries into path order. */
  lemma SortByPathOrders(es: seq<Entry>)
    ensures InOrder(SortByPath(es))
    ensures multiset(SortByPath(es)) == multiset(es)
  {
    SortIsSorted(es, PathRank);
    SortedIsInOrder(SortByPath(es));
    SortPermutes(es, PathRank);
  }

  /** Permuting distinct entries changes neither the archive nor the error. */
  lemma OrderOfEntriesDoesNotMatter(es: seq<Entry>, fs: seq<Entry>)
    requires multiset(es) == multiset(fs) && DistinctPaths(es)
    ensures SortByPath(es) == SortByPath(fs)
    ensures Zip(SortByPath(es)) == Zip(SortByPath(fs))
    ensures ArchiveFits(SortByPath(es)) <==> ArchiveFits(SortByPath(fs))
  {
    forall x, y | x in es && y in es && PathRank(x) == PathRank(y) ensures x == y {
      Utf16IsInjective(x.path, y.path);
    }
    PermutedSortAlike(es, fs, PathRank);
    SortsAlikeIff(es, fs, PathRank);
  }

  lemma DistinctIsPermutable(a: seq<Entry>, b: seq<Entry>)
    requires multiset(a) == multiset(b) && DistinctPaths(a)
    ensures DistinctPaths(b)
  {
    SameElements(a, b);
    forall i, j | 0 <= i < j < |b| ensures b[i].path != b[j].path {
      if b[i].path == b[j].path {
        assert b[i] in a && b[j] in a;
        assert b[i] == b[j];
        Twice(b, i, j);
        Once(a, b[i]);
      }
    }
  }

  lemma Twice(b: seq<Entry>, i: nat, j: nat)
    requires i < j < |b| && b[i] == b[j]
    ensures multiset(b)[b[i]] >= 2
  {
    assert b == b[..j] + [b[j]] + b[j + 1..];
    assert b[i] in b[..j];
  }

  lemma {:induction false} Once(a: seq<Entry>, e: Entry)
    requires DistinctPaths(a)
    ensures multiset(a)[e] <= 1
  {
    if a != [] {
      var init, last := a[..|a| - 1], a[|a| - 1];
      assert a == init + [last];
      Once(init, e);
      if last == e { assert e !in init; }
    }
  }

  // ----- Reading records -----

  /** A field of a record reads back from a buffer that holds the record somewhere. */
  lemma ReadInside(b: Bytes, base: nat, record: Bytes, at: nat, width: nat)
    requires base + |record| <= |b| && b[base..base + |record|] == record && at + width <= |record|
    ensures Read(b, base + at, width) == Read(record, at, width)
  {
    var x, y := b[base + at..base + at + width], record[at..at + width];
    forall i | 0 <= i < width ensures x[i] == y[i] {
      assert x[i] == b[base + (at + i)] && y[i] == record[at + i];
      assert b[base..base + |record|][at + i] == record[at + i];
    }
    assert x == y;
  }

  lemma RecordField(size: nat, fields: seq<Field>, name: Bytes, i: nat, f: Field)
    requires WellPlaced(fields, size) && i < |fields| && fields[i] == f && f.value < Capacity(f.width)
    ensures Read(Record(size, fields, name), f.at, f.width) == Some(f.value)
  {
    assert fields[i] in fields;
    ReadField(Zeros(size + |name|), fields, i);
    PatchElsewhere(Written(Zeros(size + |name|), fields), size, name, f.at, f.width);
  }

  /** Bytes that no field covers read as zero. */
  lemma RecordGap(size: nat, fields: seq<Field>, name: Bytes, at: nat, width: nat)
    requires WellPlaced(fields, size) && at + width <= size
    requires forall f :: f in fields ==> Apart(at, width, f)
    ensures Read(Record(size, fields, name), at, width) == Some(0)
  {
    ReadUntouched(Zeros(size + |name|), fields, at, width);
    PatchElsewhere(Written(Zeros(size + |name|), fields), size, name, at, width);
    assert Zeros(size + |name|)[at..at + width] == Zeros(width);
    ZerosDecode(width);
  }

  // ----- What the records say -----

  /** A local part: its header reads as written, and the data ends it. */
  predicate IsLocal(part: Bytes, e: Entry) {
    && |part| == LOCAL_SIZE + |Utf8(e.path)| + |e.data|
    && Read(part, 0, 4) == Some(LOCAL_SIGNATURE)
    && Read(part, 26, 2) == Some(|Utf8(e.path)|)
    && Read(part, 28, 2) == Some(0)
    && part[LOCAL_SIZE + |Utf8(e.path)|..] == e.data
  }

  /** A central part: its header reads as written, and the name ends it. */
  predicate IsCentral(part: Bytes, e: Entry, offset: nat) {
    && |part| == CENTRAL_SIZE + |Utf8(e.path)|
    && Read(part, 0, 4) == Some(CENTRAL_SIGNATURE)
    && Read(part, 4, 2) == Some(VERSION) && Read(part, 10, 2) == Some(0)
    && Read(part, 20, 4) == Some(|e.data|) && Read(part, 24, 4) == Some(|e.data|)
    && Read(part, 28, 2) == Some(|Utf8(e.path)|) && Read(part, 30, 2) == Some(0) && Read(part, 32, 2) == Some(0)
    && Read(part, 38, 4) == Some(0) && Read(part, 42, 4) == Some(offset)
    && part[CENTRAL_SIZE..] == Utf8(e.path)
  }

  lemma CentralFieldsRead(fields: seq<Field>, name: Bytes, crc: nat, size: nat, offset: nat)
    requires fields == CentralFields(crc, size, |name|, offset)
    requires |name| < LIMIT_16 && size < LIMIT_32 && offset < LIMIT_32
    ensures var c := Record(CENTRAL_SIZE, fields, name);
            && Read(c, 0, 4) == Some(CENTRAL_SIGNATURE) && Read(c, 4, 2) == Some(VERSION) && Read(c, 10, 2) == Some(0)
            && Read(c, 20, 4) == Some(size) && Read(c, 24, 4) == Some(size) && Read(c, 28, 2) == Some(|name|)
            && Read(c, 42, 4) == Some(offset)
  {
    hide Record, Read, Disjoint, Apart;
    RecordField(CENTRAL_SIZE, fields, name, 0, Field(0, 4, CENTRAL_SIGNATURE));
    RecordField(CENTRAL_SIZE, fields, name, 1, Field(4, 2, VERSION));
    RecordField(CENTRAL_SIZE, fields, name, 4, Field(10, 2, 0));
    RecordField(CENTRAL_SIZE, fields, name, 8, Field(20, 4, size));
    RecordField(CENTRAL_SIZE, fields, name, 9, Field(24, 4, size));
    RecordField(CENTRAL_SIZE, fields, name, 10, Field(28, 2, |name|));
    RecordField(CENTRAL_SIZE, fields, name, 11, Field(42, 4, offset));
  }

  lemma CentralGapsRead(fields: seq<Field>, name: Bytes, crc: nat, size: nat, offset: nat)
    requires fields == CentralFields(crc, size, |name|, offset)
    ensures var c := Record(CENTRAL_SIZE, fields, name);
            Read(c, 30, 2) == Some(0) && Read(c, 32, 2) == Some(0) && Read(c, 38, 4) == Some(0)
  {
    hide Record, Read;
    RecordGap(CENTRAL_SIZE, fields, name, 30, 2);
    RecordGap(CENTRAL_SIZE, fields, name, 32, 2);
    RecordGap(CENTRAL_SIZE, fields, name, 38, 4);
  }

  lemma LocalFieldsRead(fields: seq<Field>, name: Bytes, crc: nat, size: nat)
    requires fields == LocalFields(crc, size, |name|) && |name| < LIMIT_16
    ensures var l := Record(LOCAL_SIZE, fields, name);
            Read(l, 0, 4) == Some(LOCAL_SIGNATURE) && Read(l, 26, 2) == Some(|name|) && Read(l, 28, 2) == Some(0)
  {
    RecordField(LOCAL_SIZE, fields, name, 0, Field(0, 4, LOCAL_SIGNATURE));
    RecordField(LOCAL_SIZE, fields, name, 9, Field(26, 2, |name|));
    RecordGap(LOCAL_SIZE, fields, name, 28, 2);
  }

  lemma EndFieldsRead(fields: seq<Field>, count: nat, directorySize: nat, offset: nat)
    requires fields == EndFields(count, directorySize, offset) && count < LIMIT_16 && offset < LIMIT_32
    ensures var e := Record(END_SIZE, fields, []);
            Read(e, 0, 4) == Some(END_SIGNATURE) && Read(e, 10, 2) == Some(count) && Read(e, 16, 4) == Some(offset)
  {
    RecordField(END_SIZE, fields, [], 0, Field(0, 4, END_SIGNATURE));
    RecordField(END_SIZE, fields, [], 2, Field(10, 2, count));
    RecordField(END_SIZE, fields, [], 4, Field(16, 4, offset));
  }

  lemma CentralIsCentral(e: Entry, offset: nat)
    requires |Utf8(e.path)| < LIMIT_16 && |e.data| < LIMIT_32 && offset < LIMIT_32
    ensures IsCentral(CentralRecord(e, offset), e, offset)
  {
    CentralFieldsRead(CentralTable(e, offset), Utf8(e.path), Checksum.Crc(e.data), |e.data|, offset);
    CentralGapsRead(CentralTable(e, offset), Utf8(e.path), Checksum.Crc(e.data), |e.data|, offset);
  }

  lemma ReadInPrefix(a: Bytes, b: Bytes, at: nat, width: nat)
    requires at + width <= |a|
    ensures Read(a + b, at, width) == Read(a, at, width)
  {
    assert (a + b)[at..at + width] == a[at..at + width];
  }

  lemma LocalIsLocal(e: Entry)
    requires |Utf8(e.path)| < LIMIT_16
    ensures IsLocal(LocalRecord(e) + e.data, e)
  {
    var l := LocalRecord(e);
    LocalFieldsRead(LocalTable(e), Utf8(e.path), Checksum.Crc(e.data), |e.data|);
    ReadInPrefix(l, e.data, 0, 4);
    ReadInPrefix(l, e.data, 26, 2);
    ReadInPrefix(l, e.data, 28, 2);
    assert (l + e.data)[|l|..] == e.data;
  }

  // ----- Where the parts are -----

  /** These bytes stand at this offset. */
  predicate Holds(b: Bytes, at: nat, part: Bytes) {
    at + |part| <= |b| && b[at..at + |part|] == part
  }

  lemma HoldsInPrefix(b: Bytes, more: Bytes, at: nat, part: Bytes)
    requires Holds(b, at, part)
    ensures Holds(b + more, at, part)
  {
    assert (b + more)[at..at + |part|] == b[at..at + |part|];
  }

  /** Where part k of a concatenation starts. */
  function OffsetOf(parts: seq<Bytes>, k: nat): nat
    requires k <= |parts|
  {
    |Concat(parts[..k])|
  }

  lemma {:induction false} ConcatHolds(parts: seq<Bytes>, k: nat)
    requires k < |parts|
    ensures Holds(Concat(parts), OffsetOf(parts, k), parts[k])
  {
    var init, last := parts[..|parts| - 1], parts[|parts| - 1];
    if k == |parts| - 1 {
    } else {
      assert init[..k] == parts[..k];
      ConcatHolds(init, k);
      HoldsInPrefix(Concat(init), last, OffsetOf(parts, k), parts[k]);
    }
  }

  lemma NextOffset(parts: seq<Bytes>, k: nat)
    requires k < |parts|
    ensures OffsetOf(parts, k + 1) == OffsetOf(parts, k) + |parts[k]|
  {
    assert parts[..k + 1][..k] == parts[..k];
  }

  /** An archive in parts: local parts, central parts that point at them, and the end. */
  datatype Layout = Layout(es: seq<Entry>, locals: seq<Bytes>, centrals: seq<Bytes>, end: Bytes)

  function BytesOf(a: Layout): Bytes {
    Concat(a.locals) + Concat(a.centrals) + a.end
  }

  predicate WellLaid(a: Layout) {
    && |a.locals| == |a.es| && |a.centrals| == |a.es|
    && (forall k :: 0 <= k < |a.es| ==> IsLocal(a.locals[k], a.es[k]))
    && (forall k :: 0 <= k < |a.es| ==> IsCentral(a.centrals[k], a.es[k], OffsetOf(a.locals, k)))
  }

  /** Where the central part of entry k is. */
  function Cursor(a: Layout, k: nat): nat
    requires k <= |a.centrals|
  {
    |Concat(a.locals)| + OffsetOf(a.centrals, k)
  }

  lemma LocalIsPlaced(a: Layout, k: nat)
    requires WellLaid(a) && k < |a.es|
    ensures Holds(BytesOf(a), OffsetOf(a.locals, k), a.locals[k])
  {
    hide Holds, IsLocal, IsCentral;
    ConcatHolds(a.locals, k);
    HoldsInPrefix(Concat(a.locals), Concat(a.centrals), OffsetOf(a.locals, k), a.locals[k]);
    HoldsInPrefix(Concat(a.locals) + Concat(a.centrals), a.end, OffsetOf(a.locals, k), a.locals[k]);
  }

  lemma HoldsInSecond(a: Bytes, b: Bytes, c: Bytes, at: nat, part: Bytes)
    requires Holds(b, at, part)
    ensures Holds(a + b + c, |a| + at, part)
  {
    HoldsInPrefix(a + b, c, |a| + at, part);
  }

  lemma CentralIsPlaced(a: Layout, k: nat)
    requires WellLaid(a) && k < |a.es|
    ensures Holds(BytesOf(a), Cursor(a, k), a.centrals[k])
  {
    hide Holds, IsLocal, IsCentral;
    ConcatHolds(a.centrals, k);
    HoldsInSecond(Concat(a.locals), Concat(a.centrals), a.end, OffsetOf(a.centrals, k), a.centrals[k]);
  }

  // ----- One turn -----

  /** The header as written. */
  function HeaderOf(e: Entry, offset: nat): Header {
    Header(VERSION, 0, |e.data|, |e.data|, |Utf8(e.path)|, 0, 0, 0, offset)
  }

  /** Reading at the cursor gives back the entry. */
  predicate Readable(b: Bytes, e: Entry, cursor: nat, offset: nat) {
    && ReadHeader(b, cursor) == Ok(HeaderOf(e, offset))
    && NameAt(b, cursor, HeaderOf(e, offset)) == e.path
    && DataOf(b, HeaderOf(e, offset)) == Ok(e.data)
  }

  lemma ReadsHeader(b: Bytes, cursor: nat, part: Bytes, e: Entry, offset: nat)
    requires Holds(b, cursor, part) && IsCentral(part, e, offset)
    ensures ReadHeader(b, cursor) == Ok(HeaderOf(e, offset))
  {
    ReadInside(b, cursor, part, 0, 4);
    ReadInside(b, cursor, part, 4, 2);
    ReadInside(b, cursor, part, 10, 2);
    ReadInside(b, cursor, part, 20, 4);
    ReadInside(b, cursor, part, 24, 4);
    ReadInside(b, cursor, part, 28, 2);
    ReadInside(b, cursor, part, 30, 2);
    ReadInside(b, cursor, part, 32, 2);
    ReadInside(b, cursor, part, 38, 4);
    ReadInside(b, cursor, part, 42, 4);
  }

  lemma ReadsName(b: Bytes, cursor: nat, part: Bytes, e: Entry, offset: nat)
    requires Holds(b, cursor, part) && IsCentral(part, e, offset)
    ensures NameAt(b, cursor, HeaderOf(e, offset)) == e.path
  {
    var at, size := cursor + CENTRAL_SIZE, |Utf8(e.path)|;
    assert b[at..at + size] == b[cursor..cursor + |part|][CENTRAL_SIZE..];
    Utf8RoundTrip(e.path);
  }

  lemma ReadsData(b: Bytes, part: Bytes, e: Entry, offset: nat)
    requires Holds(b, offset, part) && IsLocal(part, e)
    ensures DataOf(b, HeaderOf(e, offset)) == Ok(e.data)
  {
    ReadInside(b, offset, part, 0, 4);
    ReadInside(b, offset, part, 26, 2);
    ReadInside(b, offset, part, 28, 2);
    var start := LOCAL_SIZE + |Utf8(e.path)|;
    assert b[offset + start..offset + start + |e.data|] == b[offset..offset + |part|][start..];
  }

  lemma LaidIsReadable(a: Layout, k: nat)
    requires WellLaid(a) && k < |a.es|
    ensures Readable(BytesOf(a), a.es[k], Cursor(a, k), OffsetOf(a.locals, k))
  {
    LocalIsPlaced(a, k);
    CentralIsPlaced(a, k);
    ReadsHeader(BytesOf(a), Cursor(a, k), a.centrals[k], a.es[k], OffsetOf(a.locals, k));
    ReadsName(BytesOf(a), Cursor(a, k), a.centrals[k], a.es[k], OffsetOf(a.locals, k));
    ReadsData(BytesOf(a), a.locals[k], a.es[k], OffsetOf(a.locals, k));
  }

  /** An entry is refused only for its place in the order or for its path. */
  function Verdict(e: Entry, excluded: string -> bool, previous: Option<string>,
      seen: map<string, Bytes>): Option<ZipError> {
    if previous.Some? && ComparePaths(previous.value, e.path) >= 0 then Some(OutOfOrder)
    else if excluded(e.path) then Some(ExcludedPath)
    else if e.path in seen then Some(DuplicateEntry)
    else None
  }

  /** What a turn makes of an entry that reads back. */
  function TurnedEntry(e: Entry, excluded: string -> bool, previous: Option<string>,
      seen: map<string, Bytes>): Result<Turned, ZipError> {
    var verdict := Verdict(e, excluded, previous, seen);
    if verdict.Some? then Err(verdict.value) else Ok(Turned(CENTRAL_SIZE + |Utf8(e.path)|, e.path, e.data))
  }

  lemma InspectsOne(b: Bytes, excluded: string -> bool, cursor: nat, e: Entry, offset: nat, previous: Option<string>,
      seen: map<string, Bytes>)
    requires Readable(b, e, cursor, offset)
    ensures InspectOne(b, excluded, cursor, previous, seen) == TurnedEntry(e, excluded, previous, seen)
  {
  }

  /** What the remaining entries come to. */
  function InspectRest(es: seq<Entry>, excluded: string -> bool, k: nat, previous: Option<string>,
      seen: map<string, Bytes>): Result<map<string, Bytes>, ZipError>
    requires k <= |es|
    decreases |es| - k
  {
    if k == |es| then Ok(seen)
    else
      var verdict := Verdict(es[k], excluded, previous, seen);
      if verdict.Some? then Err(verdict.value)
      else InspectRest(es, excluded, k + 1, Some(es[k].path), seen[es[k].path := es[k].data])
  }

  lemma NextCursor(a: Layout, k: nat)
    requires WellLaid(a) && k < |a.es|
    ensures Cursor(a, k + 1) == Cursor(a, k) + CENTRAL_SIZE + |Utf8(a.es[k].path)|
  {
    NextOffset(a.centrals, k);
  }

  lemma LaidTurn(a: Layout, b: Bytes, excluded: string -> bool, k: nat, previous: Option<string>,
      seen: map<string, Bytes>)
    requires WellLaid(a) && b == BytesOf(a) && k < |a.es|
    ensures InspectOne(b, excluded, Cursor(a, k), previous, seen) == TurnedEntry(a.es[k], excluded, previous, seen)
  {
    hide InspectOne, Readable;
    LaidIsReadable(a, k);
    InspectsOne(b, excluded, Cursor(a, k), a.es[k], OffsetOf(a.locals, k), previous, seen);
  }

  /** The loop agrees with the list on what is left, from entry k on. */
  lemma {:induction false} InspectsRest(a: Layout, b: Bytes, excluded: string -> bool, k: nat, cursor: nat,
      remaining: nat, previous: Option<string>, seen: map<string, Bytes>)
    requires WellLaid(a) && b == BytesOf(a)
    requires k <= |a.es| && cursor == Cursor(a, k) && remaining == |a.es| - k
    ensures InspectFrom(b, excluded, cursor, previous, seen, remaining)
        == InspectRest(a.es, excluded, k, previous, seen)
    decreases remaining
  {
    hide InspectOne, IsLocal, IsCentral, BytesOf, Cursor, OffsetOf, Utf8;
    if remaining > 0 {
      LaidTurn(a, b, excluded, k, previous, seen);
      NextCursor(a, k);
      var one := InspectOne(b, excluded, cursor, previous, seen);
      if one.Ok? {
        var t := one.value;
        InspectsRest(a, b, excluded, k + 1, cursor + t.advance, remaining - 1, Some(t.name), seen[t.name := t.data]);
      }
    }
  }

  // ----- The verdict over the whole list -----

  /** Each path after the one before it. */
  predicate Ascending(es: seq<Entry>) {
    forall i :: 0 < i < |es| ==> ComparePaths(es[i - 1].path, es[i].path) < 0
  }

  /** In a sorted list, distinct paths are ascending ones. */
  lemma DistinctIffAscending(es: seq<Entry>)
    requires InOrder(es)
    ensures DistinctPaths(es) <==> Ascending(es)
  {
    if DistinctPaths(es) {
      forall i | 0 < i < |es| ensures ComparePaths(es[i - 1].path, es[i].path) < 0 {
        PathsCompare(es[i - 1].path, es[i].path);
      }
    }
    if Ascending(es) {
      forall i, j | 0 <= i < j < |es| ensures es[i].path != es[j].path {
        PathsCompare(es[i].path, es[i + 1].path);
        if es[i].path == es[j].path { PathsCompare(es[i + 1].path, es[j].path); }
      }
    }
  }

  /** The map of paths to data; a later entry would replace an earlier one. */
  function Contents(es: seq<Entry>): map<string, Bytes> {
    if es == [] then map[] else Contents(es[..|es| - 1])[es[|es| - 1].path := es[|es| - 1].data]
  }

  lemma {:induction false} ContentsAt(es: seq<Entry>, path: string)
    ensures path in Contents(es) <==> exists e :: e in es && e.path == path
    ensures DistinctPaths(es) ==> forall e :: e in es && e.path == path ==> Contents(es)[path] == e.data
  {
    if es != [] {
      var init, last := es[..|es| - 1], es[|es| - 1];
      assert forall e :: e in es <==> e in init || e == last;
      ContentsAt(init, path);
      if DistinctPaths(es) {
        assert DistinctPaths(init);
        assert forall e :: e in init ==> e.path != last.path;
      }
    }
  }

  function Previous(es: seq<Entry>, k: nat): Option<string>
    requires k <= |es|
  {
    if k == 0 then None else Some(es[k - 1].path)
  }

  /** Ascending and none excluded, from k on. */
  predicate GoodFrom(es: seq<Entry>, excluded: string -> bool, k: nat)
    requires k <= |es|
  {
    && (forall i :: k <= i < |es| && i > 0 ==> ComparePaths(es[i - 1].path, es[i].path) < 0)
    && (forall i :: k <= i < |es| ==> !excluded(es[i].path))
  }

  /** Having come to k without a complaint, the rest is accepted exactly when it is good. */
  lemma {:induction false} RestAccepted(es: seq<Entry>, excluded: string -> bool, k: nat)
    requires InOrder(es) && k <= |es|
    requires forall i :: 0 < i < k ==> ComparePaths(es[i - 1].path, es[i].path) < 0
    ensures InspectRest(es, excluded, k, Previous(es, k), Contents(es[..k]))
            == if GoodFrom(es, excluded, k) then Ok(Contents(es))
              else InspectRest(es, excluded, k, Previous(es, k), Contents(es[..k]))
    ensures InspectRest(es, excluded, k, Previous(es, k), Contents(es[..k])).Ok? <==> GoodFrom(es, excluded, k)
    decreases |es| - k
  {
    if k == |es| {
      assert es[..k] == es;
    } else {
      assert es[..k + 1][..k] == es[..k];
      if k == 0 || ComparePaths(es[k - 1].path, es[k].path) < 0 {
        NotSeen(es, k);
        RestAccepted(es, excluded, k + 1);
      }
    }
  }

  /** The duplicate check never fires: the order check comes first. */
  lemma NotSeen(es: seq<Entry>, k: nat)
    requires InOrder(es) && k < |es|
    requires forall i :: 0 < i <= k ==> ComparePaths(es[i - 1].path, es[i].path) < 0
    ensures es[k].path !in Contents(es[..k])
  {
    var prefix := es[..k + 1];
    assert forall i :: 0 <= i < |prefix| ==> prefix[i] == es[i];
    DistinctIffAscending(prefix);
    ContentsAt(es[..k], es[k].path);
    forall e | e in es[..k] ensures e.path != es[k].path {
      var i :| 0 <= i < k && es[i] == e;
      assert prefix[i].path != prefix[k].path;
    }
  }

  // ----- The written archive -----

  function LayoutOf(es: seq<Entry>): Layout {
    Layout(es, LocalParts(es), CentralParts(es), EndOf(es))
  }

  lemma {:induction false} PartsAt(es: seq<Entry>, k: nat)
    requires k < |es|
    ensures LocalParts(es)[k] == LocalRecord(es[k]) + es[k].data
    ensures CentralParts(es)[k] == CentralRecord(es[k], LocalsLength(es[..k]))
    ensures LocalParts(es)[..k] == LocalParts(es[..k])
  {
    hide LocalRecord, CentralRecord;
    var init := es[..|es| - 1];
    if k < |init| {
      PartsAt(init, k);
      assert init[..k] == es[..k];
      assert LocalParts(es)[..k] == LocalParts(init)[..k];
    } else {
      assert LocalParts(es)[..k] == LocalParts(init);
    }
  }

  lemma FitsAt(es: seq<Entry>, k: nat)
    requires k < |es| && EntriesFit(es)
    ensures |Utf8(es[k].path)| < LIMIT_16 && |es[k].data| < LIMIT_32 && LocalsLength(es[..k]) < LIMIT_32
  {
    PrefixFits(es, k + 1);
    PartsGrow(es, k);
  }

  lemma WrittenIsWellLaid(es: seq<Entry>)
    requires EntriesFit(es)
    ensures WellLaid(LayoutOf(es))
  {
    hide LocalRecord, CentralRecord, IsLocal, IsCentral;
    forall k | 0 <= k < |es|
      ensures IsLocal(LocalParts(es)[k], es[k])
      ensures IsCentral(CentralParts(es)[k], es[k], OffsetOf(LocalParts(es), k))
    {
      PartsAt(es, k);
      FitsAt(es, k);
      PartsReach(es[..k]);
      LocalIsLocal(es[k]);
      CentralIsCentral(es[k], LocalsLength(es[..k]));
    }
  }

  /** Where the end record starts. */
  function EndOffset(es: seq<Entry>): nat {
    LocalsLength(es) + DirectoryLength(es)
  }

  lemma EndStands(es: seq<Entry>)
    ensures |Zip(es)| == EndOffset(es) + END_SIZE
    ensures Zip(es)[EndOffset(es)..] == EndOf(es)
  {
    hide EndOf, LocalParts, CentralParts;
    PartsReach(es);
    var before := Concat(LocalParts(es)) + Concat(CentralParts(es));
    assert (before + EndOf(es))[|before|..] == EndOf(es);
  }

  /** The end record's own count, size and offset spell another signature. */
  predicate LaterMark(es: seq<Entry>) {
    exists j :: 0 < j < END_SIZE && MarkAt(EndOf(es), j)
  }

  /** The first bytes of the end record are the signature, and no signature starts in the next two. */
  lemma MarkInEnd(es: seq<Entry>)
    ensures MarkAt(EndOf(es), 0) && !MarkAt(EndOf(es), 1) && !MarkAt(EndOf(es), 2)
  {
    var fields := EndFields(|es|, DirectoryLength(es), LocalsLength(es));
    assert Record(END_SIZE, fields, [])[0..4] == Encode(END_SIGNATURE, 4) by {
      hide Decode, Encode;
      FirstFieldStands(fields);
    }
    var e := EndOf(es);
    assert e[1] == e[0..4][1] && e[2] == e[0..4][2];
    assert e[1..5][0] == e[1] && e[2..6][0] == e[2];
  }

  lemma FirstFieldStands(fields: seq<Field>)
    requires WellPlaced(fields, END_SIZE) && fields != [] && fields[0] == Field(0, 4, END_SIGNATURE)
    ensures Record(END_SIZE, fields, [])[0..4] == Encode(END_SIGNATURE, 4)
  {
    FirstFieldWritten(Zeros(END_SIZE), fields);
    PatchElsewhere(Written(Zeros(END_SIZE), fields), END_SIZE, [], 0, 4);
  }

  lemma {:induction false} FirstFieldWritten(b: Bytes, fields: seq<Field>)
    requires InBuffer(fields, |b|) && Disjoint(fields) && fields != []
    ensures var f := fields[0];
            f.at + f.width <= |b| && Written(b, fields)[f.at..f.at + f.width] == Encode(f.value, f.width)
  {
    assert fields[0] in fields;
    assert fields[0].at + fields[0].width <= |b|;
    hide Encode, Apart, Disjoint, InBuffer, Patch;
    var init, last := fields[..|fields| - 1], fields[|fields| - 1];
    if init == [] {
      PatchThere(b, last.at, Encode(last.value, last.width));
    } else {
      FirstFieldWritten(b, init);
      PatchElsewhere(Written(b, init), last.at, Encode(last.value, last.width), fields[0].at, fields[0].width);
    }
  }

  lemma LastFieldStands(fields: seq<Field>, f: Field)
    requires WellPlaced(fields, END_SIZE) && fields != [] && fields[|fields| - 1] == f && f in fields
    ensures f.at + f.width <= END_SIZE && Record(END_SIZE, fields, [])[f.at..f.at + f.width] == Encode(f.value, f.width)
  {
    hide Encode, Patch, Disjoint;
    var init := fields[..|fields| - 1];
    PatchThere(Written(Zeros(END_SIZE), init), f.at, Encode(f.value, f.width));
    PatchElsewhere(Written(Zeros(END_SIZE), fields), END_SIZE, [], f.at, f.width);
  }

  /** When the directory starts at the number that the signature spells, the end record holds a later signature. */
  lemma OffsetSpellsTheMark(es: seq<Entry>)
    requires LocalsLength(es) == END_SIGNATURE
    ensures LaterMark(es)
  {
    assert Encode(END_SIGNATURE, 4) == END_MARK;
    hide Encode, Record;
    var fields := EndFields(|es|, DirectoryLength(es), LocalsLength(es));
    LastFieldStands(fields, Field(16, 4, LocalsLength(es)));
    assert EndOf(es)[16..20] == Encode(END_SIGNATURE, 4);
    assert MarkAt(EndOf(es), 16);
  }

  /** Such an archive can be written: one file of a certain length is enough. */
  lemma LaterMarkIsReached(data: Bytes)
    requires |data| == END_SIGNATURE - LOCAL_SIZE - 1
    ensures ArchiveFits([Entry("a", data)]) && LaterMark([Entry("a", data)])
  {
    hide LaterMark;
    var es := [Entry("a", data)];
    assert Utf8("a") == Utf8Char('a') by { assert "a"[..0] == "" && "a"[1..] == ""; }
    assert es[..0] == [];
    assert LocalsLength(es) == LocalsLength([]) + LOCAL_SIZE + 1 + |data| == END_SIGNATURE;
    assert DirectoryLength(es) == DirectoryLength([]) + CENTRAL_SIZE + 1;
    assert EntriesFit([]);
    OffsetSpellsTheMark(es);
  }

  lemma MarkInSuffix(b: Bytes, end: Bytes, at: nat, j: nat)
    requires at <= |b| && b[at..] == end
    ensures MarkAt(b, at + j) <==> MarkAt(end, j)
  {
    if j + 4 <= |end| { assert b[at + j..at + j + 4] == end[j..j + 4]; }
  }

  /** The search finds the end record, or a later signature from which the fields cannot be read. */
  lemma EndIsFound(es: seq<Entry>)
    ensures var found := LastMark(Zip(es), |Zip(es)|);
            && found.Some?
            && (!LaterMark(es) ==> found.value == EndOffset(es))
            && (LaterMark(es) ==> found.value + 20 > |Zip(es)|)
  {
    hide Zip, EndOf;
    var b, at, end := Zip(es), EndOffset(es), EndOf(es);
    EndStands(es);
    MarkInEnd(es);
    forall j: nat ensures MarkAt(b, at + j) <==> MarkAt(end, j) { MarkInSuffix(b, end, at, j); }
    var found := LastMark(b, |b|);
    assert MarkAt(b, at + 0);
    if LaterMark(es) {
      var j :| 0 < j < END_SIZE && MarkAt(end, j);
      assert MarkAt(b, at + j);
    }
    var k := found.value - at;
    assert at + k == found.value;
    assert MarkAt(end, k);
  }

  /** The count and the directory offset, read from the end record. */
  lemma EndReads(es: seq<Entry>)
    requires |es| < LIMIT_16 && LocalsLength(es) < LIMIT_32
    ensures Read(Zip(es), EndOffset(es) + 10, 2) == Some(|es|)
    ensures Read(Zip(es), EndOffset(es) + 16, 4) == Some(LocalsLength(es))
  {
    hide Zip, EndOf, Read, EndOffset, LocalsLength, DirectoryLength;
    EndStands(es);
    EndFieldsReadInRecord(es);
    assert Zip(es)[EndOffset(es)..EndOffset(es) + |EndOf(es)|] == Zip(es)[EndOffset(es)..];
    ReadInside(Zip(es), EndOffset(es), EndOf(es), 10, 2);
    ReadInside(Zip(es), EndOffset(es), EndOf(es), 16, 4);
  }

  lemma EndFieldsReadInRecord(es: seq<Entry>)
    requires |es| < LIMIT_16 && LocalsLength(es) < LIMIT_32
    ensures Read(EndOf(es), 10, 2) == Some(|es|) && Read(EndOf(es), 16, 4) == Some(LocalsLength(es))
  {
    hide LocalsLength, DirectoryLength, EndFields, Record, Read;
    EndFieldsRead(EndFields(|es|, DirectoryLength(es), LocalsLength(es)), |es|, DirectoryLength(es), LocalsLength(es));
  }

  /** Inspecting a written archive comes down to the verdicts on its entries, unless a later signature misleads it. */
  lemma InspectsWritten(es: seq<Entry>, excluded: string -> bool)
    requires ArchiveFits(es)
    ensures Inspect(Zip(es), excluded) == if LaterMark(es) then Err(OutOfRange)
        else InspectRest(es, excluded, 0, None, map[])
  {
    hide Zip, EndOf, LaterMark, InspectRest, InspectFrom, LastMark, EndOffset, LocalsLength, DirectoryLength;
    EndIsFound(es);
    if !LaterMark(es) {
      EndReads(es);
      WrittenIsWellLaid(es);
      PartsReach(es);
      assert CentralParts(es)[..0] == [];
      ZipIsItsLayout(es);
      InspectsRest(LayoutOf(es), Zip(es), excluded, 0, LocalsLength(es), |es|, None, map[]);
    }
  }

  lemma ZipIsItsLayout(es: seq<Entry>)
    ensures Zip(es) == BytesOf(LayoutOf(es))
  {
  }

  /**
   * Creating and inspecting an archive succeeds exactly when the paths are
   * distinct, none is excluded and the end record spells no second signature;
   * and then it gives back every path with its data and nothing else.
   */
  lemma RoundTrip(entries: seq<Entry>, excluded: string -> bool)
    requires ArchiveFits(SortByPath(entries))
    ensures var inspected := Inspect(Zip(SortByPath(entries)), excluded);
            && (inspected.Ok? <==>
                  DistinctPaths(entries) && NoneExcluded(entries, excluded) && !LaterMark(SortByPath(entries)))
            && (inspected.Ok? ==>
                  && (forall e :: e in entries ==> e.path in inspected.value && inspected.value[e.path] == e.data)
                  && (forall path :: path in inspected.value ==> exists e :: e in entries && e.path == path))
  {
    hide Zip, LaterMark, InspectRest, ArchiveFits, InOrder;
    var es := SortByPath(entries);
    InspectsWritten(es, excluded);
    SortByPathOrders(entries);
    SameElements(es, entries);
    assert es[..0] == [];
    RestAccepted(es, excluded, 0);
    SortedVerdict(entries, es, excluded);
    forall path { ContentsAt(es, path); }
  }

  /** Good from the start means distinct and not excluded, in any order. */
  lemma SortedVerdict(entries: seq<Entry>, es: seq<Entry>, excluded: string -> bool)
    requires InOrder(es) && multiset(es) == multiset(entries)
    ensures GoodFrom(es, excluded, 0) <==> DistinctPaths(entries) && NoneExcluded(entries, excluded)
    ensures DistinctPaths(es) <==> DistinctPaths(entries)
  {
    DistinctIffAscending(es);
    SameElements(es, entries);
    if DistinctPaths(entries) { DistinctIsPermutable(entries, es); }
    if DistinctPaths(es) { DistinctIsPermutable(es, entries); }
    assert NoneExcluded(es, excluded) <==> NoneExcluded(entries, excluded);
    assert NoneExcluded(es, excluded) <==> forall i :: 0 <= i < |es| ==> !excluded(es[i].path);
  }
}
