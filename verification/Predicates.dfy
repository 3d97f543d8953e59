/**
 * The predicate tree and its in-memory evaluator. A condition is three-valued:
 * it holds, fails, or is unknown because the record has no value to compare.
 */
module Predicates {
  import opened Common
  import Text

  datatype Prim = Null | Str(text: string) | Num(n: real) | Bool(b: bool) | Date(at: int)

  /** What a record holds in a field. */
  datatype Cell = Missing | Scalar(p: Prim) | Items(items: seq<Prim>)

  type Record = map<string, Cell>

  datatype Op =
    | Eq | Neq | Contains | StartsWith | EndsWith | IsEmpty | IsNotEmpty
    | Gt | Lt | Gte | Lte | IsTrue | IsFalse | IsNull | IsNotNull
    | In | IncludesAny | IncludesAll | Between

  /** The value of a condition: absent, a scalar, a list, or a range with optional bounds. */
  datatype Value = Absent | One(p: Prim) | Many(ps: seq<Prim>) | Range(from: Option<Prim>, to: Option<Prim>)

  datatype Node =
    | Literal(b: bool)
    | Condition(field: string, op: Op, value: Value)
    | And(filters: seq<Node>)
    | Or(filters: seq<Node>)
    | Not(filter: Node)

  datatype Truth = Holds | Fails | Unknown

  /** What the runtime decides: date parsing (None is NaN), number conversion, and ISO and JSON rendering. */
  datatype Js = Js(
    parse: string -> Option<int>,
    number: string -> Option<real>,
    iso: int -> string,
    json: seq<Prim> -> string)

  /** The one law of date rendering that is relied on: parsing undoes it. */
  ghost predicate RoundTrips(js: Js) {
    forall t: int :: js.parse(js.iso(t)) == Some(t)
  }

  function Definite(b: bool): Truth {
    if b then Holds else Fails
  }

  function CellOf(r: Record, field: string): Cell {
    if field in r then r[field] else Missing
  }

  predicate Nullish(c: Cell) {
    c.Missing? || c == Scalar(Null)
  }

  // ----- Equality and order -----

  /** A date equals a string that parses to its instant; otherwise equality is strict. */
  predicate SamePrim(js: Js, a: Prim, b: Prim) {
    if a.Date? && b.Str? then js.parse(b.text) == Some(a.at)
    else if a.Str? && b.Date? then js.parse(a.text) == Some(b.at)
    else a == b
  }

  predicate SameValue(js: Js, c: Cell, v: Value) {
    match v
    case Absent => Nullish(c)
    case One(p) => if c.Missing? then p.Null? else c.Scalar? && SamePrim(js, c.p, p)
    case Many(_) => false
    case Range(_, _) => false
  }

  /** The number a value becomes in a comparison; None is NaN. */
  function AsNumber(js: Js, p: Prim, againstDate: bool): Option<real> {
    match p
    case Num(n) => Some(n)
    case Date(at) => Some(at as real)
    case Str(text) =>
      if againstDate then (if js.parse(text).Some? then Some(js.parse(text).value as real) else None)
      else js.number(text)
    case Null => None
    case Bool(_) => None
  }

  /** The sign of a comparison. NaN is neither below nor above, so it compares as equal. */
  function NumberOrder(a: Option<real>, b: Option<real>): int {
    if a.None? || b.None? then 0
    else if a.value < b.value then -1
    else if a.value > b.value then 1
    else 0
  }

  function PrimOrder(js: Js, a: Prim, b: Prim): int {
    if a.Bool? || b.Bool? then (if a == b then 0 else if a == Bool(true) then 1 else -1)
    else if a.Str? && b.Str? then Text.Compare(Text.Utf16(a.text), Text.Utf16(b.text))
    else NumberOrder(AsNumber(js, a, b.Date?), AsNumber(js, b, a.Date?))
  }

  /** No order when either side is null, undefined or not a scalar. */
  function Order(js: Js, c: Cell, p: Prim): Option<int> {
    if !c.Scalar? || c.p.Null? || p.Null? then None else Some(PrimOrder(js, c.p, p))
  }

  predicate InOrder(op: Op, o: int)
    requires op in {Gt, Lt, Gte, Lte}
  {
    match op
    case Gt => o > 0
    case Lt => o < 0
    case Gte => o >= 0
    case Lte => o <= 0
  }

  function Ordered(js: Js, c: Cell, op: Op, p: Prim): Truth
    requires op in {Gt, Lt, Gte, Lte}
  {
    var o := Order(js, c, p);
    if o.None? then Unknown else Definite(InOrder(op, o.value))
  }

  /** A bound that is not given is met. */
  function Bound(js: Js, c: Cell, op: Op, bound: Option<Prim>): Truth
    requires op in {Gt, Lt, Gte, Lte}
  {
    if bound.None? then Holds else Ordered(js, c, op, bound.value)
  }

  // ----- Text -----

  predicate TextTest(op: Op, s: string, part: string)
    requires op in {Contains, StartsWith, EndsWith}
  {
    match op
    case Contains => Text.Includes(s, part)
    case StartsWith => part <= s
    case EndsWith => Text.Ends(s, part)
  }

  // ----- Conditions -----

  function ListOf(v: Value): seq<Prim> {
    if v.Many? then v.ps else []
  }

  /** A Date is an object without bounds, so it reads as an unbounded range. */
  function RangeOf(v: Value): Option<Value> {
    if v.Range? then Some(v) else if v.One? && v.p.Date? then Some(Range(None, None)) else None
  }

  predicate IncludesValue(js: Js, items: seq<Prim>, p: Prim) {
    !p.Null? && exists i :: i in items && SamePrim(js, i, p)
  }

  /** JavaScript's `lower && upper`: an unknown lower bound decides, even over a failing upper one. */
  function BothBounds(lower: Truth, upper: Truth): Truth {
    if lower.Holds? then upper else lower
  }

  function Leaf(js: Js, c: Cell, op: Op, v: Value): Truth {
    match op
    case Eq => if Nullish(c) && v != One(Null) then Unknown else Definite(SameValue(js, c, v))
    case Neq => if Nullish(c) then Unknown else Definite(!SameValue(js, c, v))
    case Contains | StartsWith | EndsWith =>
      Definite(v.One? && v.p.Str? && c.Scalar? && c.p.Str? && TextTest(op, c.p.text, v.p.text))
    case IsEmpty => Definite(if c.Items? then c.items == [] else Nullish(c) || c == Scalar(Str("")))
    case IsNotEmpty => Definite(if c.Items? then c.items != [] else !(Nullish(c) || c == Scalar(Str(""))))
    case Gt | Lt | Gte | Lte => if v.One? then Ordered(js, c, op, v.p) else Unknown
    case IsTrue => Definite(c == Scalar(Bool(true)))
    case IsFalse => Definite(c == Scalar(Bool(false)))
    case IsNull => Definite(Nullish(c))
    case IsNotNull => Definite(!Nullish(c))
    case In => Definite(!Nullish(c) && c.Scalar? && exists p :: p in ListOf(v) && !p.Null? && SamePrim(js, c.p, p))
    case IncludesAny => Definite(c.Items? && exists p :: p in ListOf(v) && IncludesValue(js, c.items, p))
    case IncludesAll => Definite(c.Items? && forall p :: p in ListOf(v) ==> IncludesValue(js, c.items, p))
    case Between =>
      var range := RangeOf(v);
      if range.None? then Fails
      else BothBounds(Bound(js, c, Gte, range.value.from), Bound(js, c, Lte, range.value.to))
  }

  // ----- Trees -----

  function Conj(a: Truth, b: Truth): Truth {
    if a.Fails? || b.Fails? then Fails else if a.Unknown? || b.Unknown? then Unknown else Holds
  }

  function Disj(a: Truth, b: Truth): Truth {
    if a.Holds? || b.Holds? then Holds else if a.Unknown? || b.Unknown? then Unknown else Fails
  }

  function Neg(a: Truth): Truth {
    match a case Holds => Fails case Fails => Holds case Unknown => Unknown
  }

  function Eval(js: Js, r: Record, p: Node): Truth
    decreases p
  {
    match p
    case Literal(b) => Definite(b)
    case Condition(field, op, value) => Leaf(js, CellOf(r, field), op, value)
    case And(filters) => EvalAll(js, r, filters)
    case Or(filters) => EvalAny(js, r, filters)
    case Not(filter) => Neg(Eval(js, r, filter))
  }

  /** A conjunction fails when a member fails, and holds when all of them hold. */
  function EvalAll(js: Js, r: Record, ps: seq<Node>): (t: Truth)
    ensures t.Holds? <==> forall p :: p in ps ==> Eval(js, r, p).Holds?
    ensures t.Fails? <==> exists p :: p in ps && Eval(js, r, p).Fails?
    decreases ps
  {
    if ps == [] then Holds
    else
      var init, last := ps[..|ps| - 1], ps[|ps| - 1];
      assert ps == init + [last];
      assert forall p :: p in ps <==> p in init || p == last;
      Conj(EvalAll(js, r, init), Eval(js, r, last))
  }

  /** A disjunction holds when a member holds, and fails when all of them fail. */
  function EvalAny(js: Js, r: Record, ps: seq<Node>): (t: Truth)
    ensures t.Holds? <==> exists p :: p in ps && Eval(js, r, p).Holds?
    ensures t.Fails? <==> forall p :: p in ps ==> Eval(js, r, p).Fails?
    decreases ps
  {
    if ps == [] then Fails
    else
      var init, last := ps[..|ps| - 1], ps[|ps| - 1];
      assert ps == init + [last];
      assert forall p :: p in ps <==> p in init || p == last;
      Disj(EvalAny(js, r, init), Eval(js, r, last))
  }

  /** Whether a record matches: unknown is no match. */
  predicate Evaluate(js: Js, r: Record, p: Node) {
    Eval(js, r, p).Holds?
  }

  /** Two-valued reading: unknown is false at every condition, before NOT is applied. */
  predicate Collapsed(js: Js, r: Record, p: Node)
    decreases p
  {
    match p
    case Literal(b) => b
    case Condition(field, op, value) => Leaf(js, CellOf(r, field), op, value).Holds?
    case And(filters) => forall f :: f in filters ==> Collapsed(js, r, f)
    case Or(filters) => exists f :: f in filters && Collapsed(js, r, f)
    case Not(filter) => !Collapsed(js, r, filter)
  }

  predicate NotFree(p: Node)
    decreases p
  {
    match p
    case Literal(_) => true
    case Condition(_, _, _) => true
    case And(filters) => forall f :: f in filters ==> NotFree(f)
    case Or(filters) => forall f :: f in filters ==> NotFree(f)
    case Not(_) => false
  }

  // ----- Three-valued against two-valued -----

  /** Where the three-valued reading is definite, the two readings agree. */
  lemma {:induction false} DefiniteAgrees(js: Js, r: Record, p: Node)
    ensures Eval(js, r, p).Holds? ==> Collapsed(js, r, p)
    ensures Eval(js, r, p).Fails? ==> !Collapsed(js, r, p)
    decreases p
  {
    match p
    case Literal(_) =>
    case Condition(_, _, _) =>
    case And(filters) => forall f | f in filters { DefiniteAgrees(js, r, f); }
    case Or(filters) => forall f | f in filters { DefiniteAgrees(js, r, f); }
    case Not(filter) => DefiniteAgrees(js, r, filter);
  }

  /** Without NOT the two readings select the same records. */
  lemma {:induction false} NotFreeAgrees(js: Js, r: Record, p: Node)
    requires NotFree(p)
    ensures Collapsed(js, r, p) <==> Evaluate(js, r, p)
    decreases p
  {
    match p
    case Literal(_) =>
    case Condition(_, _, _) =>
    case And(filters) => forall f | f in filters { NotFreeAgrees(js, r, f); }
    case Or(filters) => forall f | f in filters { NotFreeAgrees(js, r, f); }
  }

  /** A NOT over a NOT-free predicate reads the same both ways exactly when its operand is definite. */
  lemma NegationAgreesIffDefinite(js: Js, r: Record, p: Node)
    requires NotFree(p)
    ensures (Collapsed(js, r, Not(p)) <==> Evaluate(js, r, Not(p))) <==> !Eval(js, r, p).Unknown?
  {
    NotFreeAgrees(js, r, p);
  }

  /** Conditions that can be unknown: those that compare the field with something. */
  predicate Partial(op: Op, v: Value) {
    match op
    case Eq => v != One(Null)
    case Neq => true
    case Gt | Lt | Gte | Lte => true
    case Between => v.Range? && (v.from.Some? || v.to.Some?)
    case _ => false
  }

  /** A condition is definite on every record exactly when it does not compare. */
  lemma PartialIffSometimesUnknown(js: Js, field: string, op: Op, v: Value)
    ensures Partial(op, v) <==> exists r: Record :: Leaf(js, CellOf(r, field), op, v).Unknown?
  {
    if Partial(op, v) {
      var empty: Record := map[];
      assert Leaf(js, CellOf(empty, field), op, v).Unknown?;
    } else {
      forall r: Record ensures !Leaf(js, CellOf(r, field), op, v).Unknown? {
      }
    }
  }

  /** No comparison stands below a NOT. */
  predicate GuardedNegation(p: Node, negated: bool)
    decreases p
  {
    match p
    case Literal(_) => true
    case Condition(_, op, value) => negated ==> !Partial(op, value)
    case And(filters) => forall f :: f in filters ==> GuardedNegation(f, negated)
    case Or(filters) => forall f :: f in filters ==> GuardedNegation(f, negated)
    case Not(filter) => GuardedNegation(filter, true)
  }

  lemma {:induction false} GuardedIsDefinite(js: Js, r: Record, p: Node)
    requires GuardedNegation(p, true)
    ensures !Eval(js, r, p).Unknown?
    decreases p
  {
    match p
    case Literal(_) =>
    case Condition(_, _, _) =>
    case And(filters) => forall f | f in filters { GuardedIsDefinite(js, r, f); }
    case Or(filters) => forall f | f in filters { GuardedIsDefinite(js, r, f); }
    case Not(filter) => GuardedIsDefinite(js, r, filter);
  }

  /** With no comparison below a NOT the two readings select the same records. */
  lemma {:induction false} GuardedNegationAgrees(js: Js, r: Record, p: Node)
    requires GuardedNegation(p, false)
    ensures Collapsed(js, r, p) <==> Evaluate(js, r, p)
    decreases p
  {
    match p
    case Literal(_) =>
    case Condition(_, _, _) =>
    case And(filters) => forall f | f in filters { GuardedNegationAgrees(js, r, f); }
    case Or(filters) => forall f | f in filters { GuardedNegationAgrees(js, r, f); }
    case Not(filter) =>
      GuardedIsDefinite(js, r, filter);
      DefiniteAgrees(js, r, filter);
  }
}
