/**
 * Cache keys: the canonical JSON text of a value, and the percent-encoded
 * triple that names a cached read.
 *
 * A finite number, a big integer and a valid date stand for the text the
 * runtime gives them, which identifies them (0 and -0 share one).
 */
module CacheKeys {
  import opened Common
  import opened StableSort
  import opened Text
  import CacheService

  const MAX_KEY_DEPTH := 100
  const MAX_KEY_FIELDS := 10_000
  const MAX_KEY_BYTES := 2048

  predicate InNumber(c: char) {
    '0' <= c <= '9' || c in {'-', '+', '.', 'e'}
  }

  type NumberText = s: string | s != "" && forall c :: c in s ==> InNumber(c) witness "0"

  datatype Value =
    | Undefined
    | Null
    | NaN
    | Infinite(positive: bool)
    | Bool(b: bool)
    | Number(number: NumberText)
    | Str(text: string)
    | BigInt(digits: string)
    | Date(iso: Option<string>)   // None is an invalid date
    | Array(items: seq<Value>)
    | Set(members: seq<Value>)
    | Map(entries: seq<Entry>)
    | Object(fields: seq<Field>)

  datatype Entry = Entry(key: Value, value: Value)
  datatype Field = Field(name: string, value: Value)

  /** What JSON.stringify is given. */
  datatype Json =
    | JNull
    | JBool(b: bool)
    | JNumber(number: NumberText)
    | JText(text: string)
    | JArray(items: seq<Json>)
    | JObject(members: seq<Member>)

  datatype Member = Member(name: string, value: Json)

  datatype KeyError = TooDeep | InvalidDate | ReservedKey | TooManyFields | TooLong

  // ----- JSON text -----

  function HexDigit(n: nat): char
    requires n < 16
  {
    if n < 10 then ('0' as int + n) as char else ('a' as int + (n - 10)) as char
  }

  function EscapeChar(c: char): string {
    var n := c as int;
    if c == '"' then ['\\', '"']
    else if c == '\\' then ['\\', '\\']
    else if n == 8 then ['\\', 'b']
    else if n == 9 then ['\\', 't']
    else if n == 10 then ['\\', 'n']
    else if n == 12 then ['\\', 'f']
    else if n == 13 then ['\\', 'r']
    else if n < 0x20 then ['\\', 'u', '0', '0', HexDigit(n / 16), HexDigit(n % 16)]
    else [c]
  }

  function Escaped(s: string): string {
    if s == [] then [] else EscapeChar(s[0]) + Escaped(s[1..])
  }

  /** The text behind the opening quote, with the closing one. */
  function Quoted(s: string): string {
    Escaped(s) + ['"']
  }

  function Print(j: Json): string
    decreases j
  {
    match j
    case JNull => "null"
    case JBool(b) => if b then "true" else "false"
    case JNumber(number) => number
    case JText(text) => ['"'] + Quoted(text)
    case JArray(items) => ['['] + (if items == [] then [']'] else Print(items[0]) + MoreItems(items[1..]))
    case JObject(members) =>
      ['{'] + (if members == [] then ['}']
               else ['"'] + Quoted(members[0].name) + [':'] + Print(members[0].value) + MoreMembers(members[1..]))
  }

  function MoreItems(items: seq<Json>): string
    decreases items
  {
    if items == [] then [']'] else [','] + Print(items[0]) + MoreItems(items[1..])
  }

  function MoreMembers(members: seq<Member>): string
    decreases members
  {
    if members == [] then ['}']
    else [','] + ['"'] + Quoted(members[0].name) + [':'] + Print(members[0].value) + MoreMembers(members[1..])
  }

  // ----- Sorting -----

  /** Serialized items are compared as JavaScript strings. */
  function JsonRank(j: Json): Rank {
    Utf16(Print(j))
  }

  const LAST_INDEX := "4294967294"

  /** The names an object enumerates first, by number. */
  predicate IsIndex(name: string) {
    && name != ""
    && (forall c :: c in name ==> '0' <= c <= '9')
    && (name[0] == '0' ==> name == "0")
    && (|name| < |LAST_INDEX| || (|name| == |LAST_INDEX| && Compare(Utf16(name), Utf16(LAST_INDEX)) <= 0))
  }

  /** Enumeration order: indices by number, then the other names, which were added by code unit. */
  function NameRank(name: string): Rank {
    if IsIndex(name) then [0, |name|] + Utf16(name) else [1] + Utf16(name)
  }

  // ----- Canonical form -----

  /** A map entry in canonical form. */
  datatype Pair = Pair(key: Json, value: Json)

  /** A field and what became of its value. */
  datatype Sorted = Sorted(name: string, value: Result<Json, KeyError>)

  function PairRank(p: Pair): Rank {
    JsonRank(p.key)
  }

  function FieldRank(f: Sorted): Rank {
    NameRank(f.name)
  }

  const TYPE_KEY := "$type"

  predicate HasReservedName(fs: seq<Field>) {
    exists f :: f in fs && f.name == TYPE_KEY
  }

  function Marker(kind: string): Json {
    JObject([Member(TYPE_KEY, JText(kind))])
  }

  function Typed(kind: string, value: Json): Json {
    JObject([Member(TYPE_KEY, JText(kind)), Member("value", value)])
  }

  function PairArrays(ps: seq<Pair>): seq<Json> {
    seq(|ps|, i requires 0 <= i < |ps| => JArray([ps[i].key, ps[i].value]))
  }

  /** The canonical tree, or the first complaint. */
  function Canonical(v: Value, depth: nat): Result<Json, KeyError>
    decreases v
  {
    if depth > MAX_KEY_DEPTH then Err(TooDeep)
    else
      match v
      case Undefined => Ok(Marker("undefined"))
      case Null => Ok(JNull)
      case NaN => Ok(Marker("NaN"))
      case Infinite(positive) => Ok(Marker(if positive then "Infinity" else "-Infinity"))
      case Bool(b) => Ok(JBool(b))
      case Number(number) => Ok(JNumber(number))
      case Str(text) => Ok(JText(text))
      case BigInt(digits) => Ok(Typed("BigInt", JText(digits)))
      case Date(iso) => if iso.None? then Err(InvalidDate) else Ok(Typed("Date", JText(iso.value)))
      case Array(items) =>
        var c := CanonicalItems(items, depth + 1);
        if c.Err? then Err(c.error) else Ok(JArray(c.value))
      case Set(members) =>
        var c := CanonicalItems(members, depth + 1);
        if c.Err? then Err(c.error) else Ok(Typed("Set", JArray(SortBy(c.value, JsonRank))))
      case Map(entries) =>
        var c := CanonicalEntries(entries, depth + 1);
        if c.Err? then Err(c.error) else Ok(Typed("Map", JArray(PairArrays(SortBy(c.value, PairRank)))))
      case Object(fields) =>
        if HasReservedName(fields) then Err(ReservedKey)
        else if |fields| > MAX_KEY_FIELDS then Err(TooManyFields)
        else
          var c := Members(EachField(fields, depth + 1));
          if c.Err? then Err(c.error) else Ok(JObject(c.value))
  }

  /** Every item, in order, or the first complaint. */
  function CanonicalItems(vs: seq<Value>, depth: nat): (r: Result<seq<Json>, KeyError>)
    ensures r.Ok? <==> forall v :: v in vs ==> Canonical(v, depth).Ok?
    ensures r.Ok? ==> |r.value| == |vs|
    ensures r.Ok? ==> forall i :: 0 <= i < |vs| ==> Canonical(vs[i], depth) == Ok(r.value[i])
    decreases vs
  {
    if vs == [] then Ok([])
    else
      var first := Canonical(vs[0], depth);
      assert vs[0] in vs;
      if first.Err? then Err(first.error)
      else
        var rest := CanonicalItems(vs[1..], depth);
        assert forall v :: v in vs <==> v == vs[0] || v in vs[1..];
        if rest.Err? then Err(rest.error) else Ok([first.value] + rest.value)
  }

  /** Key first, then value. */
  function CanonicalEntry(e: Entry, depth: nat): Result<Pair, KeyError>
    decreases e
  {
    match e
    case Entry(k, v) =>
      var key := Canonical(k, depth);
      if key.Err? then Err(key.error)
      else
        var value := Canonical(v, depth);
        if value.Err? then Err(value.error) else Ok(Pair(key.value, value.value))
  }

  function CanonicalEntries(es: seq<Entry>, depth: nat): (r: Result<seq<Pair>, KeyError>)
    ensures r.Ok? <==> forall e :: e in es ==> CanonicalEntry(e, depth).Ok?
    ensures r.Ok? ==> |r.value| == |es|
    ensures r.Ok? ==> forall i :: 0 <= i < |es| ==> CanonicalEntry(es[i], depth) == Ok(r.value[i])
    decreases es
  {
    if es == [] then Ok([])
    else
      var first := CanonicalEntry(es[0], depth);
      assert es[0] in es;
      if first.Err? then Err(first.error)
      else
        var rest := CanonicalEntries(es[1..], depth);
        assert forall e :: e in es <==> e == es[0] || e in es[1..];
        if rest.Err? then Err(rest.error) else Ok([first.value] + rest.value)
  }

  function CanonicalField(f: Field, depth: nat): Sorted
    decreases f
  {
    match f
    case Field(name, value) => Sorted(name, Canonical(value, depth))
  }

  function EachField(fs: seq<Field>, depth: nat): (r: seq<Sorted>)
    ensures |r| == |fs|
    ensures forall i :: 0 <= i < |fs| ==> r[i] == CanonicalField(fs[i], depth)
    decreases fs
  {
    if fs == [] then [] else [CanonicalField(fs[0], depth)] + EachField(fs[1..], depth)
  }

  /** The members in the given order, or the first complaint. */
  function Collected(fs: seq<Sorted>): (r: Result<seq<Member>, KeyError>)
    ensures r.Ok? <==> forall f :: f in fs ==> f.value.Ok?
    ensures r.Ok? ==> |r.value| == |fs|
    ensures r.Ok? ==> forall i :: 0 <= i < |fs| ==> fs[i] == Sorted(r.value[i].name, Ok(r.value[i].value))
  {
    if fs == [] then Ok([])
    else if fs[0].value.Err? then
      assert fs[0] in fs;
      Err(fs[0].value.error)
    else
      var rest := Collected(fs[1..]);
      assert forall f :: f in fs <==> f == fs[0] || f in fs[1..];
      if rest.Err? then Err(rest.error) else Ok([Member(fs[0].name, fs[0].value.value)] + rest.value)
  }

  /** By code unit, as the fields are visited. */
  function VisitRank(f: Sorted): Rank {
    Utf16(f.name)
  }

  /** The members as the new object enumerates them, or the first complaint of the visit. */
  function Members(fs: seq<Sorted>): (r: Result<seq<Member>, KeyError>)
    ensures r.Ok? <==> Collected(SortBy(fs, FieldRank)).Ok?
    ensures r.Ok? ==> r == Collected(SortBy(fs, FieldRank))
    ensures r.Err? ==> r == Collected(SortBy(fs, VisitRank))
  {
    SortPermutes(fs, VisitRank);
    SortPermutes(fs, FieldRank);
    SameElements(SortBy(fs, VisitRank), SortBy(fs, FieldRank));
    var visited := Collected(SortBy(fs, VisitRank));
    if visited.Err? then visited else Collected(SortBy(fs, FieldRank))
  }

  function SerializeCacheKeyPart(v: Value): Result<string, KeyError> {
    var c := Canonical(v, 0);
    if c.Err? then Err(c.error) else Ok(Print(c.value))
  }

  // ----- Percent encoding -----

  predicate Unreserved(c: char) {
    || 'A' <= c <= 'Z' || 'a' <= c <= 'z' || '0' <= c <= '9'
    || c in {'-', '_', '.', '!', '~', '*', '\'', '(', ')'}
  }

  function UpperHex(n: nat): char
    requires n < 16
  {
    if n < 10 then ('0' as int + n) as char else ('A' as int + (n - 10)) as char
  }

  function Percent(bytes: seq<Byte>): string {
    if bytes == [] then [] else ['%', UpperHex(bytes[0] / 16), UpperHex(bytes[0] % 16)] + Percent(bytes[1..])
  }

  function EncodeUriComponent(s: string): string {
    if s == [] then []
    else (if Unreserved(s[0]) then [s[0]] else Percent(Utf8Char(s[0]))) + EncodeUriComponent(s[1..])
  }

  function Joined(prefix: string, scope: string, suffix: string): string {
    EncodeUriComponent(prefix) + [':'] + (EncodeUriComponent(scope) + [':'] + EncodeUriComponent(suffix))
  }

  function BuildKey(prefix: string, scope: string, suffix: string): Result<string, KeyError> {
    var encoded := Joined(prefix, scope, suffix);
    if |Utf8(encoded)| > MAX_KEY_BYTES then Err(TooLong) else Ok(encoded)
  }

  // ----- Storage keys -----

  /** A generation counter as text. */
  function Decimal(n: nat): (r: string)
    ensures r != ""
  {
    (if n < 10 then "" else Decimal(n / 10)) + [('0' as int + n % 10) as char]
  }

  function GenerationTexts(generations: seq<nat>): seq<Value> {
    if generations == [] then [] else [Str(Decimal(generations[0]))] + GenerationTexts(generations[1..])
  }

  const GENERATION_PREFIX := "__generation__:"

  /** The text a storage key is kept under; a read without tags uses its key as it stands. */
  function StorageText(sk: CacheService.StorageKey): Result<string, KeyError> {
    if sk.generations == [] then Ok(sk.key)
    else
      var generations := SerializeCacheKeyPart(Array(GenerationTexts(sk.generations)));
      if generations.Err? then Err(generations.error)
      else
        var quoted := SerializeCacheKeyPart(Str(generations.value));
        if quoted.Err? then Err(quoted.error)
        else Ok(GENERATION_PREFIX + quoted.value + [':'] + sk.key)
  }
}
