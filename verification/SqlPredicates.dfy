/**
 * The compiler from predicate trees to SQL, and SQL's own three-valued
 * evaluation of what it emits, LIKE patterns included.
 */
module SqlPredicates {
  import opened Common
  import opened Predicates
  import Text

  datatype Comparison = Equal | Unequal | Above | Below | AtLeast | AtMost

  datatype Sql =
    | Constant(b: bool)
    | NullTest(column: string, wanted: bool)
    | Compare(column: string, cmp: Comparison, value: Prim)
    | LikeTest(column: string, pattern: string)
    | InList(column: string, values: seq<Prim>)
    | Conjunction(es: seq<Sql>)
    | Disjunction(es: seq<Sql>)
    | Negation(e: Sql)
    | OrFalse(e: Sql)   // COALESCE(e, FALSE)

  datatype CompileError = UnmappedField | NeedsScalar | NeedsString | NeedsList | NeedsRange | Unsupported

  // ----- Compilation -----

  /** Put the escape character in front of the three that LIKE reads specially. */
  function Escape(s: string): string {
    if s == [] then [] else (if s[0] in {'\\', '%', '_'} then ['\\', s[0]] else [s[0]]) + Escape(s[1..])
  }

  function Pattern(op: Op, part: string): string
    requires op in {Contains, StartsWith, EndsWith}
  {
    match op
    case Contains => "%" + Escape(part) + "%"
    case StartsWith => Escape(part) + "%"
    case EndsWith => "%" + Escape(part)
  }

  /** A Date is an object, so it is refused where a scalar is required. */
  predicate IsScalar(v: Value) {
    v.One? && !v.p.Date?
  }

  function Comparing(op: Op): Comparison
    requires op in {Eq, Neq, Gt, Lt, Gte, Lte}
  {
    match op
    case Eq => Equal
    case Neq => Unequal
    case Gt => Above
    case Lt => Below
    case Gte => AtLeast
    case Lte => AtMost
  }

  function WithoutNulls(ps: seq<Prim>): (r: seq<Prim>)
    ensures forall p :: p in r <==> p in ps && !p.Null?
  {
    if ps == [] then []
    else
      assert forall p :: p in ps <==> p == ps[0] || p in ps[1..];
      (if ps[0].Null? then [] else [ps[0]]) + WithoutNulls(ps[1..])
  }

  function RangeClauses(column: string, from: Option<Prim>, to: Option<Prim>): Sql {
    if from.Some? && to.Some? then
      Conjunction([Compare(column, AtLeast, from.value), Compare(column, AtMost, to.value)])
    else if from.Some? then Compare(column, AtLeast, from.value)
    else if to.Some? then Compare(column, AtMost, to.value)
    else Constant(true)
  }

  function CompileCondition(columns: set<string>, field: string, op: Op, v: Value): Result<Sql, CompileError> {
    if field !in columns then Err(UnmappedField)
    else
      match op
      case Eq => if v == One(Null) then Ok(NullTest(field, true)) else CompileComparison(field, op, v)
      case Neq => if v == One(Null) then Ok(NullTest(field, false)) else CompileComparison(field, op, v)
      case Gt | Lt | Gte | Lte => CompileComparison(field, op, v)
      case Contains | StartsWith | EndsWith =>
        if !IsScalar(v) then Err(NeedsScalar)
        else if !v.p.Str? then Err(NeedsString)
        else Ok(LikeTest(field, Pattern(op, v.p.text)))
      case IsEmpty => Ok(Disjunction([NullTest(field, true), Compare(field, Equal, Str(""))]))
      case IsNotEmpty => Ok(Conjunction([NullTest(field, false), Compare(field, Unequal, Str(""))]))
      case IsTrue => Ok(Compare(field, Equal, Bool(true)))
      case IsFalse => Ok(Compare(field, Equal, Bool(false)))
      case IsNull => Ok(NullTest(field, true))
      case IsNotNull => Ok(NullTest(field, false))
      case In =>
        if !v.Many? then Err(NeedsList)
        else if WithoutNulls(v.ps) == [] then Ok(Constant(false))
        else Ok(InList(field, WithoutNulls(v.ps)))
      case IncludesAny | IncludesAll => Err(Unsupported)
      case Between =>
        var range := RangeOf(v);
        if range.None? then Err(NeedsRange) else Ok(RangeClauses(field, range.value.from, range.value.to))
  }

  function CompileComparison(field: string, op: Op, v: Value): Result<Sql, CompileError>
    requires op in {Eq, Neq, Gt, Lt, Gte, Lte}
  {
    if IsScalar(v) then Ok(Compare(field, Comparing(op), v.p)) else Err(NeedsScalar)
  }

  function Compile(columns: set<string>, p: Node): Result<Sql, CompileError>
    decreases p
  {
    match p
    case Literal(b) => Ok(Constant(b))
    case Condition(field, op, value) =>
      var c := CompileCondition(columns, field, op, value);
      if c.Ok? then Ok(OrFalse(c.value)) else c
    case And(filters) =>
      var c := CompileAll(columns, filters);
      if c.Err? then Err(c.error)
      else if |filters| == 0 then Ok(Constant(true))
      else Ok(OrFalse(if |c.value| == 1 then c.value[0] else Conjunction(c.value)))
    case Or(filters) =>
      var c := CompileAll(columns, filters);
      if c.Err? then Err(c.error)
      else if |filters| == 0 then Ok(Constant(false))
      else Ok(OrFalse(if |c.value| == 1 then c.value[0] else Disjunction(c.value)))
    case Not(filter) =>
      var c := Compile(columns, filter);
      if c.Ok? then Ok(OrFalse(Negation(c.value))) else c
  }

  /** The children in order, or the error of the first that does not compile. */
  function CompileAll(columns: set<string>, ps: seq<Node>): (r: Result<seq<Sql>, CompileError>)
    ensures r.Ok? <==> forall p :: p in ps ==> Compile(columns, p).Ok?
    ensures r.Ok? ==> |r.value| == |ps|
    ensures r.Ok? ==> forall i :: 0 <= i < |ps| ==> Compile(columns, ps[i]) == Ok(r.value[i])
    decreases ps
  {
    if ps == [] then Ok([])
    else
      var first := Compile(columns, ps[0]);
      var rest := CompileAll(columns, ps[1..]);
      assert forall p :: p in ps <==> p == ps[0] || p in ps[1..];
      if first.Err? then Err(first.error) else if rest.Err? then rest else Ok([first.value] + rest.value)
  }

  // ----- Evaluation -----

  type Row = map<string, Prim>

  /** Whether LIKE tells letters of different case apart; SQLite's does not for ASCII letters. */
  datatype Dialect = CaseSensitive | AsciiInsensitive

  function Fold(d: Dialect, c: char): char {
    if d.AsciiInsensitive? && 'A' <= c <= 'Z' then c + 32 as char else c
  }

  function Column(row: Row, column: string): Prim {
    if column in row then row[column] else Null
  }

  /** LIKE with escape character `\`. */
  predicate Like(d: Dialect, pattern: string, s: string)
    decreases |pattern| + |s|
  {
    if pattern == [] then s == []
    else if pattern[0] == '\\' then
      |pattern| > 1 && s != [] && Fold(d, s[0]) == Fold(d, pattern[1]) && Like(d, pattern[2..], s[1..])
    else if pattern[0] == '%' then
      Like(d, pattern[1..], s) || (s != [] && Like(d, pattern, s[1..]))
    else if pattern[0] == '_' then
      s != [] && Like(d, pattern[1..], s[1..])
    else
      s != [] && Fold(d, s[0]) == Fold(d, pattern[0]) && Like(d, pattern[1..], s[1..])
  }

  function Numeric(p: Prim): Option<real> {
    match p
    case Num(n) => Some(n)
    case Bool(b) => Some(if b then 1.0 else 0.0)
    case Date(at) => Some(at as real)
    case Str(_) => None
    case Null => None
  }

  /** Numbers before text, text by code point. */
  function SqlOrder(a: Prim, b: Prim): int {
    if a.Str? && b.Str? then Text.Compare(Text.CodePoints(a.text), Text.CodePoints(b.text))
    else if a.Str? then 1
    else if b.Str? then -1
    else NumberOrder(Numeric(a), Numeric(b))
  }

  predicate Satisfies(cmp: Comparison, o: int) {
    match cmp
    case Equal => o == 0
    case Unequal => o != 0
    case Above => o > 0
    case Below => o < 0
    case AtLeast => o >= 0
    case AtMost => o <= 0
  }

  function SqlCompare(cell: Prim, cmp: Comparison, value: Prim): Truth {
    if cell.Null? || value.Null? then Unknown else Definite(Satisfies(cmp, SqlOrder(cell, value)))
  }

  function SqlEval(d: Dialect, row: Row, e: Sql): Truth
    decreases e
  {
    match e
    case Constant(b) => Definite(b)
    case NullTest(column, wanted) => Definite(Column(row, column).Null? == wanted)
    case Compare(column, cmp, value) => SqlCompare(Column(row, column), cmp, value)
    case LikeTest(column, pattern) =>
      if Column(row, column).Null? then Unknown
      else Definite(Column(row, column).Str? && Like(d, pattern, Column(row, column).text))
    case InList(column, values) =>
      if Column(row, column).Null? then Unknown
      else Definite(exists v :: v in values && SqlCompare(Column(row, column), Equal, v).Holds?)
    case Conjunction(es) => SqlAll(d, row, es)
    case Disjunction(es) => SqlAny(d, row, es)
    case Negation(e') => Neg(SqlEval(d, row, e'))
    case OrFalse(e') => Definite(SqlEval(d, row, e').Holds?)
  }

  function SqlAll(d: Dialect, row: Row, es: seq<Sql>): (t: Truth)
    ensures t.Holds? <==> forall e :: e in es ==> SqlEval(d, row, e).Holds?
    ensures t.Fails? <==> exists e :: e in es && SqlEval(d, row, e).Fails?
    decreases es
  {
    if es == [] then Holds
    else
      assert forall e :: e in es <==> e == es[0] || e in es[1..];
      Conj(SqlEval(d, row, es[0]), SqlAll(d, row, es[1..]))
  }

  function SqlAny(d: Dialect, row: Row, es: seq<Sql>): (t: Truth)
    ensures t.Holds? <==> exists e :: e in es && SqlEval(d, row, e).Holds?
    ensures t.Fails? <==> forall e :: e in es ==> SqlEval(d, row, e).Fails?
    decreases es
  {
    if es == [] then Fails
    else
      assert forall e :: e in es <==> e == es[0] || e in es[1..];
      Disj(SqlEval(d, row, es[0]), SqlAny(d, row, es[1..]))
  }

  /** Whether the WHERE clause selects the row. */
  predicate Selects(d: Dialect, row: Row, e: Sql) {
    SqlEval(d, row, e).Holds?
  }

  // ----- Typed records and their rows -----

  datatype FieldType =
    StringField | NumberField | BooleanField | DateField | DateTimeField | IdentifierField | StringArrayField

  type Fields = map<string, FieldType>

  predicate IsText(t: FieldType) {
    t.StringField? || t.IdentifierField?
  }

  predicate IsDate(t: FieldType) {
    t.DateField? || t.DateTimeField?
  }

  predicate PrimFits(p: Prim, t: FieldType) {
    match p
    case Null => true
    case Str(_) => IsText(t) || IsDate(t)
    case Num(_) => t.NumberField?
    case Bool(_) => t.BooleanField?
    case Date(_) => false
  }

  /** A nullish cell fits every field; a date field holds a Date or any text. */
  predicate CellFits(c: Cell, t: FieldType) {
    match c
    case Missing => true
    case Scalar(p) => if IsDate(t) then p.Null? || p.Date? || p.Str? else PrimFits(p, t)
    case Items(_) => t.StringArrayField?
  }

  predicate RecordFits(fields: Fields, r: Record) {
    forall f :: f in fields ==> CellFits(CellOf(r, f), fields[f])
  }

  predicate IsOrdered(t: FieldType) {
    t.NumberField? || IsText(t) || IsDate(t)
  }

  predicate BoundFits(bound: Option<Prim>, t: FieldType) {
    bound.None? || PrimFits(bound.value, t)
  }

  predicate ConditionFits(t: FieldType, op: Op, v: Value) {
    match op
    case Eq | Neq => !t.StringArrayField? && v.One? && PrimFits(v.p, t)
    case Contains | StartsWith | EndsWith => IsText(t) && v.One? && v.p.Str?
    case IsEmpty | IsNotEmpty => true
    case Gt | Lt | Gte | Lte => IsOrdered(t) && v.One? && PrimFits(v.p, t)
    case IsTrue | IsFalse => t.BooleanField?
    case IsNull | IsNotNull => true
    case In => !t.StringArrayField? && v.Many? && forall p :: p in v.ps ==> PrimFits(p, t)
    case IncludesAny | IncludesAll => false
    case Between => IsOrdered(t) && v.Range? && BoundFits(v.from, t) && BoundFits(v.to, t)
  }

  /** Every condition names a field and compares it with values of the field's type. */
  predicate Fits(fields: Fields, p: Node)
    decreases p
  {
    match p
    case Literal(_) => true
    case Condition(field, op, value) => field in fields && ConditionFits(fields[field], op, value)
    case And(filters) => forall f :: f in filters ==> Fits(fields, f)
    case Or(filters) => forall f :: f in filters ==> Fits(fields, f)
    case Not(filter) => Fits(fields, filter)
  }

  // ----- Where the two readings of a condition agree -----

  /** The sign of the instant against that of the text; text that does not parse compares as equal. */
  function InstantSign(js: Js, at: int, text: string): int {
    var other := js.parse(text);
    if other.None? then 0 else if at < other.value then -1 else if at > other.value then 1 else 0
  }

  /** The sign of the instant's rendering against the text. */
  function RenderingSign(js: Js, at: int, text: string): int {
    Text.Compare(Text.CodePoints(js.iso(at)), Text.CodePoints(text))
  }

  /** Text has one order by code unit and by code point, and a Date meets the test as its rendering does. */
  predicate OrderedAlike(js: Js, c: Cell, op: Op, p: Prim)
    requires op in {Gt, Lt, Gte, Lte}
  {
    c.Scalar? && p.Str? ==>
      && (c.p.Str? ==> !Text.Straddles(c.p.text, p.text))
      && (c.p.Date? ==>
            (InOrder(op, InstantSign(js, c.p.at, p.text)) <==> InOrder(op, RenderingSign(js, c.p.at, p.text))))
  }

  predicate BoundAlike(js: Js, c: Cell, op: Op, bound: Option<Prim>)
    requires op in {Gt, Lt, Gte, Lte}
  {
    bound.Some? ==> OrderedAlike(js, c, op, bound.value)
  }

  /** Text among the values that parses to the Date of the cell comes with the Date's own rendering. */
  predicate NamedAlike(js: Js, c: Cell, ps: seq<Prim>) {
    c.Scalar? && c.p.Date? && (exists p :: p in ps && p.Str? && js.parse(p.text) == Some(c.p.at)) ==>
      Str(js.iso(c.p.at)) in ps
  }

  /** The stored form of a list is empty text exactly when the list is empty, and that of a Date never is. */
  predicate EmptyAlike(js: Js, c: Cell) {
    match c
    case Missing => true
    case Scalar(p) => p.Date? ==> js.iso(p.at) != ""
    case Items(items) => items == [] <==> js.json(items) == ""
  }

  /** Memory and SQL read the condition alike on this cell, LIKE apart. */
  predicate LeafAlike(js: Js, c: Cell, op: Op, v: Value) {
    match op
    case Eq | Neq => v.One? ==> NamedAlike(js, c, [v.p])
    case In => v.Many? ==> NamedAlike(js, c, v.ps)
    case Gt | Lt | Gte | Lte => v.One? ==> OrderedAlike(js, c, op, v.p)
    case Between => v.Range? ==> BoundAlike(js, c, Gte, v.from) && BoundAlike(js, c, Lte, v.to)
    case IsEmpty | IsNotEmpty => EmptyAlike(js, c)
    case _ => true
  }

  /** Every condition of the tree is read alike on the record. */
  predicate ReadAlike(js: Js, r: Record, p: Node)
    decreases p
  {
    match p
    case Literal(_) => true
    case Condition(field, op, value) => LeafAlike(js, CellOf(r, field), op, value)
    case And(filters) => forall f :: f in filters ==> ReadAlike(js, r, f)
    case Or(filters) => forall f :: f in filters ==> ReadAlike(js, r, f)
    case Not(filter) => ReadAlike(js, r, filter)
  }

  predicate UsesLike(op: Op) {
    op in {Contains, StartsWith, EndsWith}
  }

  predicate IsLetter(c: char) {
    'A' <= c <= 'Z' || 'a' <= c <= 'z'
  }

  /** No letter whose case the dialect could ignore. */
  predicate Caseless(s: string) {
    forall c :: c in s ==> !IsLetter(c)
  }

  /** The dialect's LIKE takes no other text for this one. */
  predicate Exact(d: Dialect, part: string) {
    d.CaseSensitive? || Caseless(part)
  }

  predicate Plain(d: Dialect, op: Op, v: Value) {
    UsesLike(op) && v.One? && v.p.Str? ==> Exact(d, v.p.text)
  }

  predicate LikePlain(d: Dialect, p: Node)
    decreases p
  {
    match p
    case Literal(_) => true
    case Condition(_, op, value) => Plain(d, op, value)
    case And(filters) => forall f :: f in filters ==> LikePlain(d, f)
    case Or(filters) => forall f :: f in filters ==> LikePlain(d, f)
    case Not(filter) => LikePlain(d, filter)
  }

  /** How a cell is stored: nothing as NULL, a Date as ISO text, a list as JSON text. */
  function Stored(js: Js, c: Cell): Prim {
    match c
    case Missing => Null
    case Scalar(p) => if p.Date? then Str(js.iso(p.at)) else p
    case Items(items) => Str(js.json(items))
  }

  function RowOf(js: Js, columns: set<string>, r: Record): Row {
    map f | f in columns :: Stored(js, CellOf(r, f))
  }
}
