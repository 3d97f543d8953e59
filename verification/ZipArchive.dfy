/** The review archive: which paths it leaves out, how it is written, and how it is inspected. */
module ZipArchive {
  import opened Checksum
  import opened Common
  import opened StableSort
  import opened Text
  import opened ZipFormat

  datatype Entry = Entry(path: string, data: Bytes)

  datatype ZipError =
    | OutOfRange | MissingEnd | BadDirectory | OutOfOrder | ExcludedPath
    | SymbolicLink | UnsupportedCompression | BadLocalEntry | Truncated | DuplicateEntry

  // ----- Excluded paths -----

  const EXCLUDED_DIRECTORIES := {
    ".git", ".cache", ".output", ".planning", ".vite", ".wrangler", "build", "coverage", "dist", "node_modules",
    "playwright-report", "reference", "test-results", "vitest-report"
  }
  const EXCLUDED_FILE_NAMES := {"cloudflare-env.d.ts", "worker-configuration.d.ts"}
  const EXCLUDED_SUFFIXES := [".map", ".tsbuildinfo"]

  function ForwardSlashes(path: string): (r: string)
    ensures |r| == |path|
    ensures forall i :: 0 <= i < |path| ==> r[i] == if path[i] == '\\' then '/' else path[i]
  {
    seq(|path|, i requires 0 <= i < |path| => if path[i] == '\\' then '/' else path[i])
  }

  /** The parts between slashes, at least one. */
  function Split(path: string): (r: seq<string>)
    ensures |r| >= 1
  {
    if path == [] then [""]
    else
      var rest := Split(path[1..]);
      if path[0] == '/' then [""] + rest else [[path[0]] + rest[0]] + rest[1..]
  }

  predicate EnvironmentLike(part: string) {
    && !Ends(part, ".env.example")
    && (|| part == ".envrc" || ".envrc." <= part
        || part == "env" || "env." <= part
        || part == ".env" || ".env." <= part
        || Ends(part, ".env") || Includes(part, ".env."))
  }

  predicate IsExcludedPath(path: string) {
    var normalized := ForwardSlashes(path);
    var parts := Split(normalized);
    var name := parts[|parts| - 1];
    || (exists part :: part in parts && part in EXCLUDED_DIRECTORIES)
    || (exists part :: part in parts && EnvironmentLike(part))
    || name in EXCLUDED_FILE_NAMES
    || (exists suffix :: suffix in EXCLUDED_SUFFIXES && Ends(name, suffix))
    || Includes(normalized, "/src/generated/")
    || "src/generated/" <= normalized
  }

  // ----- Order -----

  function ComparePaths(a: string, b: string): int {
    Compare(Utf16(a), Utf16(b))
  }

  predicate InOrder(es: seq<Entry>) {
    forall i, j :: 0 <= i < j < |es| ==> ComparePaths(es[i].path, es[j].path) <= 0
  }

  function PathRank(e: Entry): Rank {
    Utf16(e.path)
  }

  /** The stable sort by path. */
  function SortByPath(es: seq<Entry>): seq<Entry> {
    SortBy(es, PathRank)
  }

  // ----- Writing -----

  function LocalTable(e: Entry): seq<Field> {
    LocalFields(Crc(e.data), |e.data|, |Utf8(e.path)|)
  }

  function CentralTable(e: Entry, offset: nat): seq<Field> {
    CentralFields(Crc(e.data), |e.data|, |Utf8(e.path)|, offset)
  }

  function LocalRecord(e: Entry): Bytes {
    Record(LOCAL_SIZE, LocalTable(e), Utf8(e.path))
  }

  function CentralRecord(e: Entry, offset: nat): Bytes {
    Record(CENTRAL_SIZE, CentralTable(e, offset), Utf8(e.path))
  }

  /** How far the local records reach. */
  function LocalsLength(es: seq<Entry>): nat {
    if es == [] then 0
    else
      var e := es[|es| - 1];
      LocalsLength(es[..|es| - 1]) + LOCAL_SIZE + |Utf8(e.path)| + |e.data|
  }

  function DirectoryLength(es: seq<Entry>): nat {
    if es == [] then 0 else DirectoryLength(es[..|es| - 1]) + CENTRAL_SIZE + |Utf8(es[|es| - 1].path)|
  }

  /** Buffer.concat. */
  function Concat(parts: seq<Bytes>): Bytes {
    if parts == [] then [] else Concat(parts[..|parts| - 1]) + parts[|parts| - 1]
  }

  /** Each local record with its data behind it. */
  function LocalParts(es: seq<Entry>): (r: seq<Bytes>)
    ensures |r| == |es|
  {
    if es == [] then []
    else
      var e := es[|es| - 1];
      LocalParts(es[..|es| - 1]) + [LocalRecord(e) + e.data]
  }

  /** The central records, each pointing at its local record. */
  function CentralParts(es: seq<Entry>): (r: seq<Bytes>)
    ensures |r| == |es|
  {
    if es == [] then []
    else
      var init := es[..|es| - 1];
      CentralParts(init) + [CentralRecord(es[|es| - 1], LocalsLength(init))]
  }

  function EndOf(es: seq<Entry>): (r: Bytes)
    ensures |r| == END_SIZE
  {
    Record(END_SIZE, EndFields(|es|, DirectoryLength(es), LocalsLength(es)), [])
  }

  function Zip(es: seq<Entry>): Bytes {
    Concat(LocalParts(es)) + Concat(CentralParts(es)) + EndOf(es)
  }

  const LIMIT_16 := 0x1_0000
  const LIMIT_32 := 0x1_0000_0000

  /** Names, sizes and offsets fit the fields that hold them. */
  predicate EntriesFit(es: seq<Entry>) {
    es == []
    || (var init, e := es[..|es| - 1], es[|es| - 1];
        && EntriesFit(init)
        && |Utf8(e.path)| < LIMIT_16 && |e.data| < LIMIT_32 && LocalsLength(init) < LIMIT_32)
  }

  predicate ArchiveFits(es: seq<Entry>) {
    EntriesFit(es) && |es| < LIMIT_16 && DirectoryLength(es) < LIMIT_32 && LocalsLength(es) < LIMIT_32
  }

  lemma {:induction false} PrefixFits(es: seq<Entry>, k: nat)
    requires k <= |es| && EntriesFit(es)
    ensures EntriesFit(es[..k])
  {
    if k < |es| {
      PrefixFits(es[..|es| - 1], k);
      assert es[..|es| - 1][..k] == es[..k];
    } else {
      assert es[..k] == es;
    }
  }

  /** The two records of one entry, or nothing when a value does not fit. */
  method WriteEntry(e: Entry, offset: nat) returns (r: Option<(Bytes, Bytes)>)
    ensures r == if |Utf8(e.path)| < LIMIT_16 && |e.data| < LIMIT_32 && offset < LIMIT_32
                 then Some((LocalRecord(e), CentralRecord(e, offset))) else None
  {
    var name := Utf8(e.path);
    var crc := Crc32(e.data);
    TablesFitIff(crc, |e.data|, |name|, offset);
    var local := WriteRecord(LOCAL_SIZE, LocalFields(crc, |e.data|, |name|), name);
    if local.None? {
      return None;
    }
    var central := WriteRecord(CENTRAL_SIZE, CentralFields(crc, |e.data|, |name|, offset), name);
    if central.None? {
      return None;
    }
    return Some((local.value, central.value));
  }

  /** One more entry. */
  lemma PartsGrow(es: seq<Entry>, i: nat)
    requires i < |es|
    ensures LocalParts(es[..i + 1]) == LocalParts(es[..i]) + [LocalRecord(es[i]) + es[i].data]
    ensures CentralParts(es[..i + 1]) == CentralParts(es[..i]) + [CentralRecord(es[i], LocalsLength(es[..i]))]
    ensures LocalsLength(es[..i + 1]) == LocalsLength(es[..i]) + LOCAL_SIZE + |Utf8(es[i].path)| + |es[i].data|
    ensures DirectoryLength(es[..i + 1]) == DirectoryLength(es[..i]) + CENTRAL_SIZE + |Utf8(es[i].path)|
    ensures EntriesFit(es[..i + 1]) <==>
              EntriesFit(es[..i]) && |Utf8(es[i].path)| < LIMIT_16 && |es[i].data| < LIMIT_32
                && LocalsLength(es[..i]) < LIMIT_32
  {
    assert es[..i + 1][..i] == es[..i];
  }

  method BuildParts(es: seq<Entry>) returns (ok: bool, localParts: seq<Bytes>, centralParts: seq<Bytes>, offset: nat)
    ensures ok == EntriesFit(es)
    ensures ok ==> localParts == LocalParts(es) && centralParts == CentralParts(es) && offset == LocalsLength(es)
  {
    localParts, centralParts, offset := [], [], 0;
    for i := 0 to |es|
      invariant EntriesFit(es[..i])
      invariant localParts == LocalParts(es[..i]) && centralParts == CentralParts(es[..i])
      invariant offset == LocalsLength(es[..i])
    {
      PartsGrow(es, i);
      var records := WriteEntry(es[i], offset);
      if records.None? {
        if EntriesFit(es) { PrefixFits(es, i + 1); }
        return false, [], [], 0;
      }
      localParts := localParts + [records.value.0 + es[i].data];
      centralParts := centralParts + [records.value.1];
      offset := offset + |records.value.0| + |es[i].data|;
    }
    assert es[..|es|] == es;
    return true, localParts, centralParts, offset;
  }

  lemma {:induction false} PartsReach(es: seq<Entry>)
    ensures |Concat(LocalParts(es))| == LocalsLength(es)
    ensures |Concat(CentralParts(es))| == DirectoryLength(es)
  {
    if es != [] {
      var init, e := es[..|es| - 1], es[|es| - 1];
      PartsReach(init);
    }
  }

  /** The archive, or the range error of a value that does not fit its field. */
  method CreateZip(entries: seq<Entry>) returns (r: Result<Bytes, ZipError>)
    ensures var es := SortByPath(entries);
            r == if ArchiveFits(es) then Ok(Zip(es)) else Err(OutOfRange)
  {
    var es := SortByPath(entries);
    var ok, localParts, centralParts, offset := BuildParts(es);
    if !ok {
      return Err(OutOfRange);
    }
    PartsReach(es);
    var directory := Concat(centralParts);
    EndFitsIff(|es|, |directory|, offset);
    var end := WriteRecord(END_SIZE, EndFields(|es|, |directory|, offset), []);
    if end.None? {
      return Err(OutOfRange);
    }
    return Ok(Concat(localParts) + directory + end.value);
  }

  // ----- Inspecting -----

  const END_MARK: Bytes := [0x50, 0x4b, 0x05, 0x06]

  predicate MarkAt(b: Bytes, i: nat) {
    i + 4 <= |b| && b[i..i + 4] == END_MARK
  }

  /** The last end-record signature that starts before i. */
  function LastMark(b: Bytes, i: nat): (r: Option<nat>)
    ensures r.Some? ==> r.value < i && MarkAt(b, r.value)
    ensures r.Some? ==> forall j :: r.value < j < i ==> !MarkAt(b, j)
    ensures r.None? ==> forall j :: 0 <= j < i ==> !MarkAt(b, j)
  {
    if i == 0 then None else if MarkAt(b, i - 1) then Some(i - 1) else LastMark(b, i - 1)
  }

  /** Buffer.subarray: bounds beyond the end are clamped. */
  function Subarray(b: Bytes, from: nat, to: nat): Bytes
    requires from <= to
  {
    b[if from <= |b| then from else |b|..if to <= |b| then to else |b|]
  }

  datatype Header = Header(
    versionMadeBy: nat, compression: nat, compressedSize: nat, size: nat,
    nameLength: nat, extraLength: nat, commentLength: nat, attributes: nat, localOffset: nat)

  function ReadHeader(b: Bytes, cursor: nat): Result<Header, ZipError> {
    var signature := Read(b, cursor, 4);
    if signature.None? then Err(OutOfRange)
    else if signature.value != CENTRAL_SIGNATURE then Err(BadDirectory)
    else if cursor + CENTRAL_SIZE > |b| then Err(OutOfRange)
    else Ok(Header(
              Read(b, cursor + 4, 2).value, Read(b, cursor + 10, 2).value,
              Read(b, cursor + 20, 4).value, Read(b, cursor + 24, 4).value,
              Read(b, cursor + 28, 2).value, Read(b, cursor + 30, 2).value, Read(b, cursor + 32, 2).value,
              Read(b, cursor + 38, 4).value, Read(b, cursor + 42, 4).value))
  }

  function NameAt(b: Bytes, cursor: nat, h: Header): string {
    DecodeUtf8(Subarray(b, cursor + CENTRAL_SIZE, cursor + CENTRAL_SIZE + h.nameLength))
  }

  /** The data of the local entry a header points at. */
  function DataOf(b: Bytes, h: Header): Result<Bytes, ZipError> {
    var signature := Read(b, h.localOffset, 4);
    if signature.None? then Err(OutOfRange)
    else if signature.value != LOCAL_SIGNATURE then Err(BadLocalEntry)
    else
      var nameLength, extraLength := Read(b, h.localOffset + 26, 2), Read(b, h.localOffset + 28, 2);
      if nameLength.None? || extraLength.None? then Err(OutOfRange)
      else
        var start := h.localOffset + LOCAL_SIZE + nameLength.value + extraLength.value;
        var data := Subarray(b, start, start + h.compressedSize);
        if |data| != h.size then Err(Truncated) else Ok(data)
  }

  predicate IsSymbolicLink(h: Header) {
    h.versionMadeBy / 0x100 == 3 && h.attributes / 0x1_0000 / 0x1000 % 0x10 == 0xa
  }

  /** What a turn of the loop yields: how far the cursor moves, and the entry. */
  datatype Turned = Turned(advance: nat, name: string, data: Bytes)

  /** One turn of the loop: the entry at the cursor, or the first complaint about it. */
  function InspectOne(b: Bytes, excluded: string -> bool, cursor: nat, previous: Option<string>,
      seen: map<string, Bytes>): Result<Turned, ZipError> {
    var header := ReadHeader(b, cursor);
    if header.Err? then Err(header.error)
    else
      var h := header.value;
      var name := NameAt(b, cursor, h);
      if previous.Some? && ComparePaths(previous.value, name) >= 0 then Err(OutOfOrder)
      else if excluded(name) then Err(ExcludedPath)
      else if IsSymbolicLink(h) then Err(SymbolicLink)
      else if h.compression != 0 || h.compressedSize != h.size then Err(UnsupportedCompression)
      else
        var data := DataOf(b, h);
        if data.Err? then Err(data.error)
        else if name in seen then Err(DuplicateEntry)
        else Ok(Turned(CENTRAL_SIZE + h.nameLength + h.extraLength + h.commentLength, name, data.value))
  }

  /** The remaining turns, stopping at the first error. */
  function InspectFrom(b: Bytes, excluded: string -> bool, cursor: nat, previous: Option<string>,
      seen: map<string, Bytes>, remaining: nat): Result<map<string, Bytes>, ZipError>
    decreases remaining
  {
    if remaining == 0 then Ok(seen)
    else
      var one := InspectOne(b, excluded, cursor, previous, seen);
      if one.Err? then Err(one.error)
      else
        var t := one.value;
        InspectFrom(b, excluded, cursor + t.advance, Some(t.name), seen[t.name := t.data], remaining - 1)
  }

  /** Inspection under any rule for excluded paths. */
  function Inspect(b: Bytes, excluded: string -> bool): Result<map<string, Bytes>, ZipError> {
    var end := LastMark(b, |b|);
    if end.None? then Err(MissingEnd)
    else
      var count, offset := Read(b, end.value + 10, 2), Read(b, end.value + 16, 4);
      if count.None? || offset.None? then Err(OutOfRange)
      else InspectFrom(b, excluded, offset.value, None, map[], count.value)
  }

  /** The inspection as it runs, moving a cursor through the directory and filling a map. */
  method InspectDirectory(archive: Bytes, excluded: string -> bool, offset: nat, count: nat)
      returns (r: Result<map<string, Bytes>, ZipError>)
    ensures r == InspectFrom(archive, excluded, offset, None, map[], count)
  {
    hide InspectOne;
    var cursor: nat := offset;
    var entries: map<string, Bytes> := map[];
    var previous: Option<string> := None;
    ghost var remaining: nat := count;
    for index := 0 to count
      invariant remaining == count - index
      invariant InspectFrom(archive, excluded, offset, None, map[], count)
                == InspectFrom(archive, excluded, cursor, previous, entries, remaining)
    {
      var one := InspectOne(archive, excluded, cursor, previous, entries);
      if one.Err? {
        return Err(one.error);
      }
      previous := Some(one.value.name);
      entries := entries[one.value.name := one.value.data];
      cursor := cursor + one.value.advance;
      remaining := remaining - 1;
    }
    return Ok(entries);
  }

  method InspectZip(archive: Bytes) returns (r: Result<map<string, Bytes>, ZipError>)
    ensures r == Inspect(archive, IsExcludedPath)
  {
    var end := LastMark(archive, |archive|);
    if end.None? {
      return Err(MissingEnd);
    }
    var count, offset := Read(archive, end.value + 10, 2), Read(archive, end.value + 16, 4);
    if count.None? || offset.None? {
      return Err(OutOfRange);
    }
    r := InspectDirectory(archive, IsExcludedPath, offset.value, count.value);
  }
}
