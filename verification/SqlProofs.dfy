/** What the compiled SQL selects, against the in-memory evaluator. */
module SqlProofs {
  import opened Common
  import opened Predicates
  import opened SqlPredicates
  import Text

  // ----- LIKE -----

  /** Equal up to what the dialect's LIKE ignores. */
  predicate SameText(d: Dialect, a: string, b: string) {
    |a| == |b| && forall i :: 0 <= i < |a| ==> Fold(d, a[i]) == Fold(d, b[i])
  }

  /** An escaped text at the head of a pattern matches that text and nothing else. */
  lemma {:induction false} LikeEscaped(d: Dialect, part: string, rest: string, s: string)
    ensures Like(d, Escape(part) + rest, s) <==>
              |part| <= |s| && SameText(d, s[..|part|], part) && Like(d, rest, s[|part|..])
  {
    if part == [] {
      assert Escape(part) + rest == rest && s[0..] == s;
    } else {
      var c, tail := part[0], Escape(part[1..]) + rest;
      var p := Escape(part) + rest;
      var width := if c in {'\\', '%', '_'} then 2 else 1;
      assert p[width..] == tail;
      if s != [] {
        LikeEscaped(d, part[1..], rest, s[1..]);
        if |part| <= |s| {
          assert s[..|part|][1..] == s[1..][..|part| - 1];
          assert s[1..][|part| - 1..] == s[|part|..];
        }
      }
    }
  }

  lemma {:induction false} LikeAnything(d: Dialect, s: string)
    ensures Like(d, "%", s)
  {
    if s != [] { LikeAnything(d, s[1..]); }
  }

  /** A leading percent sign matches any number of characters. */
  lemma {:induction false} LikeAfterSkip(d: Dialect, pattern: string, s: string)
    ensures Like(d, ['%'] + pattern, s) <==> exists i :: 0 <= i <= |s| && Like(d, pattern, s[i..])
  {
    var p := ['%'] + pattern;
    assert p[1..] == pattern && s[0..] == s;
    if s == [] {
      assert Like(d, p, s) == Like(d, pattern, s);
    } else {
      LikeAfterSkip(d, pattern, s[1..]);
      assert forall i :: 0 <= i <= |s| - 1 ==> s[1..][i..] == s[i + 1..];
      if i :| 0 <= i <= |s| && Like(d, pattern, s[i..]) {
        if i > 0 { assert s[1..][i - 1..] == s[i..]; }
      }
    }
  }

  /** Does a text contain, start with or end with a part, up to what the dialect ignores? */
  predicate TextTestUpTo(d: Dialect, op: Op, s: string, part: string)
    requires UsesLike(op)
  {
    match op
    case Contains => exists i :: 0 <= i <= |s| - |part| && SameText(d, s[i..][..|part|], part)
    case StartsWith => |part| <= |s| && SameText(d, s[..|part|], part)
    case EndsWith => |part| <= |s| && SameText(d, s[|s| - |part|..], part)
  }

  /** The escaped pattern means exactly the text test, whatever characters the text holds. */
  lemma PatternMeansTextTest(d: Dialect, op: Op, s: string, part: string)
    requires UsesLike(op)
    ensures Like(d, Pattern(op, part), s) <==> TextTestUpTo(d, op, s, part)
  {
    match op {
      case StartsWith =>
        LikeEscaped(d, part, "%", s);
        if |part| <= |s| { LikeAnything(d, s[|part|..]); }
      case EndsWith =>
        assert Pattern(op, part) == ['%'] + Escape(part);
        LikeAfterSkip(d, Escape(part), s);
        forall i | 0 <= i <= |s|
          ensures Like(d, Escape(part), s[i..]) <==> i == |s| - |part| && SameText(d, s[i..], part)
        {
          LikeEscaped(d, part, "", s[i..]);
          assert Escape(part) + "" == Escape(part);
          if |part| <= |s| - i { assert s[i..][|part|..] == s[i + |part|..]; }
          if i == |s| - |part| { assert s[i..][..|part|] == s[i..]; }
        }
      case Contains =>
        assert Pattern(op, part) == ['%'] + (Escape(part) + "%");
        LikeAfterSkip(d, Escape(part) + "%", s);
        forall i | 0 <= i <= |s|
          ensures Like(d, Escape(part) + "%", s[i..]) <==> i <= |s| - |part| && SameText(d, s[i..][..|part|], part)
        {
          LikeEscaped(d, part, "%", s[i..]);
          if |part| <= |s| - i { LikeAnything(d, s[i..][|part|..]); }
        }
    }
  }

  lemma ExactMeansEqual(d: Dialect, a: string, b: string)
    ensures a == b ==> SameText(d, a, b)
    ensures Exact(d, b) && SameText(d, a, b) ==> a == b
  {
    if Exact(d, b) && SameText(d, a, b) {
      forall i | 0 <= i < |a| ensures a[i] == b[i] {
        assert b[i] in b;
      }
    }
  }

  /** A dialect that takes no other text for the value tests what the evaluator tests; else it accepts more. */
  lemma TextTests(d: Dialect, op: Op, s: string, part: string)
    requires UsesLike(op)
    ensures TextTest(op, s, part) ==> TextTestUpTo(d, op, s, part)
    ensures Exact(d, part) ==> (TextTest(op, s, part) <==> TextTestUpTo(d, op, s, part))
  {
    hide SameText, Exact;
    match op {
      case StartsWith => if |part| <= |s| { ExactMeansEqual(d, s[..|part|], part); }
      case EndsWith => if |part| <= |s| { ExactMeansEqual(d, s[|s| - |part|..], part); }
      case Contains =>
        forall i | 0 <= i <= |s| - |part| { ExactMeansEqual(d, s[i..][..|part|], part); }
    }
  }

  /** The other case of a letter. */
  function Toggled(c: char): char {
    if 'A' <= c <= 'Z' then c + 32 as char else if 'a' <= c <= 'z' then c - 32 as char else c
  }

  /** A text of the value's length that the dialect takes for it, and that differs. */
  lemma WholeText(op: Op, s: string, part: string)
    requires UsesLike(op) && SameText(AsciiInsensitive, s, part) && s != part
    ensures TextTestUpTo(AsciiInsensitive, op, s, part) && !TextTest(op, s, part)
  {
    assert |s| == |part|;
    hide SameText;
    match op
    case Contains => WholeOccurrence(s, part);
    case StartsWith => assert s[..|part|] == s;
    case EndsWith => assert s[|s| - |part|..] == s;
  }

  lemma WholeOccurrence(s: string, part: string)
    requires |s| == |part| && SameText(AsciiInsensitive, s, part) && s != part
    ensures TextTestUpTo(AsciiInsensitive, Contains, s, part) && !Text.Includes(s, part)
  {
    hide SameText;
    assert s[0..][..|part|] == s;
    forall i | 0 <= i <= |s| - |part| ensures s[i..][..|part|] != part { assert i == 0; }
  }

  /** A value with a letter meets another text: itself with that letter in the other case. */
  lemma OtherCase(op: Op, part: string) returns (s: string)
    requires UsesLike(op) && !Caseless(part)
    ensures TextTestUpTo(AsciiInsensitive, op, s, part) && !TextTest(op, s, part)
  {
    hide TextTest, TextTestUpTo;
    var k :| 0 <= k < |part| && IsLetter(part[k]);
    s := part[k := Toggled(part[k])];
    assert s[k] != part[k];
    WholeText(op, s, part);
  }

  // ----- Where compilation fails -----

  predicate Compilable(columns: set<string>, field: string, op: Op, v: Value) {
    && field in columns
    && match op
       case Eq | Neq | Gt | Lt | Gte | Lte => v.One? && !v.p.Date?
       case Contains | StartsWith | EndsWith => v.One? && v.p.Str?
       case IsEmpty | IsNotEmpty | IsTrue | IsFalse | IsNull | IsNotNull => true
       case In => v.Many?
       case Between => v.Range? || (v.One? && v.p.Date?)
       case IncludesAny | IncludesAll => false
  }

  predicate AllCompilable(columns: set<string>, p: Node)
    decreases p
  {
    match p
    case Literal(_) => true
    case Condition(field, op, value) => Compilable(columns, field, op, value)
    case And(filters) => forall f :: f in filters ==> AllCompilable(columns, f)
    case Or(filters) => forall f :: f in filters ==> AllCompilable(columns, f)
    case Not(filter) => AllCompilable(columns, filter)
  }

  /** A tree compiles exactly when each of its conditions is mapped and has a value its operator accepts. */
  lemma {:induction false} CompilesIff(columns: set<string>, p: Node)
    ensures Compile(columns, p).Ok? <==> AllCompilable(columns, p)
    decreases p
  {
    match p
    case Literal(_) =>
    case Condition(_, _, _) =>
    case And(filters) => forall f | f in filters { CompilesIff(columns, f); }
    case Or(filters) => forall f | f in filters { CompilesIff(columns, f); }
    case Not(filter) => CompilesIff(columns, filter);
  }

  lemma {:induction false} FittingCompiles(fields: Fields, columns: set<string>, p: Node)
    requires Fits(fields, p) && fields.Keys <= columns
    ensures AllCompilable(columns, p)
    decreases p
  {
    match p
    case Literal(_) =>
    case Condition(field, _, _) => assert field in fields.Keys;
    case And(filters) => forall f | f in filters { FittingCompiles(fields, columns, f); }
    case Or(filters) => forall f | f in filters { FittingCompiles(fields, columns, f); }
    case Not(filter) => FittingCompiles(fields, columns, filter);
  }

  /** What the compiler emits is never NULL, on any row. */
  lemma CompiledIsNeverNull(d: Dialect, row: Row, columns: set<string>, p: Node)
    requires Compile(columns, p).Ok?
    ensures !SqlEval(d, row, Compile(columns, p).value).Unknown?
  {
  }

  // ----- One condition -----

  lemma {:induction false} PointsDecide(a: string, b: string)
    ensures Text.CodePoints(a) == Text.CodePoints(b) <==> a == b
  {
    if Text.CodePoints(a) == Text.CodePoints(b) {
      assert |Text.CodePoints(a)| == |a| && |Text.CodePoints(b)| == |b|;
      forall i | 0 <= i < |a| ensures a[i] == b[i] {
        assert Text.CodePoints(a)[i] == a[i] as nat && Text.CodePoints(b)[i] == b[i] as nat;
      }
    }
  }

  /** Equality of a fitting cell and value on the stored row: a Date equals its own rendering only. */
  lemma EqualityMeans(js: Js, c: Cell, t: FieldType, p: Prim)
    requires RoundTrips(js) && CellFits(c, t) && PrimFits(p, t) && !t.StringArrayField?
    requires !Nullish(c) && !p.Null?
    ensures c.Scalar? && !Stored(js, c).Null?
    ensures SqlOrder(Stored(js, c), p) == 0
            <==> if c.p.Date? then p == Str(js.iso(c.p.at)) else SamePrim(js, c.p, p)
    ensures SqlOrder(Stored(js, c), p) == 0 ==> SamePrim(js, c.p, p)
  {
    if p.Str? {
      PointsDecide(Stored(js, c).text, p.text);
      if c.p.Date? { assert js.parse(js.iso(c.p.at)) == Some(c.p.at); }
    }
  }

  /** The condition before COALESCE. */
  function LeafSql(columns: set<string>, field: string, op: Op, v: Value): Sql
    requires CompileCondition(columns, field, op, v).Ok?
  {
    CompileCondition(columns, field, op, v).value
  }

  /** Against a text, SQL and memory order a text alike or exactly the other way round. */
  lemma OrderingAgrees(js: Js, c: Cell, op: Op, p: Prim)
    requires c.Scalar? && (c.p.Str? || c.p.Date?) && p.Str? && op in {Gt, Lt, Gte, Lte}
    ensures (SqlCompare(Stored(js, c), Comparing(op), p).Holds? <==> Ordered(js, c, op, p).Holds?)
            <==> OrderedAlike(js, c, op, p)
  {
    if c.p.Str? {
      Text.OrdersAgreeIff(c.p.text, p.text);
    } else {
      assert PrimOrder(js, c.p, p) == InstantSign(js, c.p.at, p.text);
    }
  }

  lemma CompareAgrees(js: Js, c: Cell, t: FieldType, op: Op, v: Value)
    requires RoundTrips(js) && CellFits(c, t) && ConditionFits(t, op, v)
    requires op in {Eq, Neq, Gt, Lt, Gte, Lte} && !(op in {Eq, Neq} && v.p.Null?)
    ensures (SqlCompare(Stored(js, c), Comparing(op), v.p).Holds? <==> Leaf(js, c, op, v).Holds?)
            <==> LeafAlike(js, c, op, v)
  {
    if !Nullish(c) && !v.p.Null? {
      if op in {Eq, Neq} {
        EqualityMeans(js, c, t, v.p);
      } else if v.p.Str? {
        OrderingAgrees(js, c, op, v.p);
      }
    }
  }

  lemma InAgrees(js: Js, c: Cell, t: FieldType, v: Value)
    requires RoundTrips(js) && CellFits(c, t) && ConditionFits(t, In, v)
    ensures var held := exists p :: p in WithoutNulls(v.ps) && SqlCompare(Stored(js, c), Equal, p).Holds?;
            ((!Stored(js, c).Null? && held) <==> Leaf(js, c, In, v).Holds?) <==> LeafAlike(js, c, In, v)
  {
    if !Nullish(c) {
      forall p | p in v.ps && !p.Null?
        ensures c.Scalar?
        ensures SqlCompare(Stored(js, c), Equal, p).Holds?
                <==> if c.p.Date? then p == Str(js.iso(c.p.at)) else SamePrim(js, c.p, p)
        ensures SqlCompare(Stored(js, c), Equal, p).Holds? ==> SamePrim(js, c.p, p)
      {
        EqualityMeans(js, c, t, p);
      }
    }
  }

  lemma BoundAgrees(js: Js, c: Cell, t: FieldType, op: Op, p: Prim)
    requires CellFits(c, t) && IsOrdered(t) && PrimFits(p, t) && op in {Gte, Lte} && OrderedAlike(js, c, op, p)
    ensures SqlCompare(Stored(js, c), Comparing(op), p).Holds? <==> Ordered(js, c, op, p).Holds?
  {
    if !Nullish(c) && p.Str? { OrderingAgrees(js, c, op, p); }
  }

  lemma PairOf(d: Dialect, row: Row, a: Sql, b: Sql)
    ensures SqlEval(d, row, Conjunction([a, b])).Holds? <==> SqlEval(d, row, a).Holds? && SqlEval(d, row, b).Holds?
    ensures SqlEval(d, row, Disjunction([a, b])).Holds? <==> SqlEval(d, row, a).Holds? || SqlEval(d, row, b).Holds?
  {
    hide SqlAll, SqlAny;
    assert forall e :: e in [a, b] <==> e == a || e == b;
    assert SqlEval(d, row, Conjunction([a, b])) == SqlAll(d, row, [a, b]);
    assert SqlEval(d, row, Disjunction([a, b])) == SqlAny(d, row, [a, b]);
  }

  lemma RangeAgrees(d: Dialect, js: Js, columns: set<string>, field: string, c: Cell, t: FieldType, row: Row, v: Value)
    requires CellFits(c, t) && ConditionFits(t, Between, v) && LeafAlike(js, c, Between, v)
    requires Column(row, field) == Stored(js, c)
    ensures SqlEval(d, row, RangeClauses(field, v.from, v.to)).Holds? <==> Leaf(js, c, Between, v).Holds?
  {
    if v.from.Some? { BoundAgrees(js, c, t, Gte, v.from.value); }
    if v.to.Some? { BoundAgrees(js, c, t, Lte, v.to.value); }
    if v.from.Some? && v.to.Some? {
      PairOf(d, row, Compare(field, AtLeast, v.from.value), Compare(field, AtMost, v.to.value));
    }
    hide SqlAll, SqlCompare, Ordered, Stored;
  }

  /** Comparing the stored form with the empty string. */
  lemma EmptyMeans(js: Js, c: Cell)
    ensures SqlCompare(Stored(js, c), Equal, Str("")).Holds? <==> Stored(js, c) == Str("")
    ensures SqlCompare(Stored(js, c), Unequal, Str("")).Holds? <==> !Nullish(c) && Stored(js, c) != Str("")
    ensures Stored(js, c).Null? <==> Nullish(c)
  {
    if Stored(js, c).Str? { PointsDecide(Stored(js, c).text, ""); }
  }

  lemma EmptyAgrees(d: Dialect, js: Js, columns: set<string>, field: string, op: Op, c: Cell, row: Row, v: Value)
    requires op in {IsEmpty, IsNotEmpty} && field in columns && Column(row, field) == Stored(js, c)
    ensures (SqlEval(d, row, LeafSql(columns, field, op, v)).Holds? <==> Leaf(js, c, op, v).Holds?)
            <==> LeafAlike(js, c, op, v)
  {
    EmptyMeans(js, c);
    var wanted, cmp := op == IsEmpty, if op == IsEmpty then Equal else Unequal;
    PairOf(d, row, NullTest(field, wanted), Compare(field, cmp, Str("")));
    hide SqlAll, SqlAny, SqlCompare;
  }

  lemma NullEqualityAgrees(js: Js, c: Cell, t: FieldType, op: Op)
    requires CellFits(c, t) && op in {Eq, Neq}
    ensures Leaf(js, c, op, One(Null)).Holds? <==> Stored(js, c).Null? == (op == Eq)
    ensures LeafAlike(js, c, op, One(Null))
  {
  }

  /** Null and boolean tests. */
  lemma TestAgrees(d: Dialect, js: Js, columns: set<string>, field: string, op: Op, v: Value, c: Cell, t: FieldType,
      row: Row)
    requires CellFits(c, t) && ConditionFits(t, op, v) && op in {IsTrue, IsFalse, IsNull, IsNotNull}
    requires field in columns && Column(row, field) == Stored(js, c)
    ensures SqlEval(d, row, LeafSql(columns, field, op, v)).Holds? <==> Leaf(js, c, op, v).Holds?
  {
  }

  lemma TextAgrees(d: Dialect, js: Js, columns: set<string>, field: string, op: Op, v: Value, c: Cell, t: FieldType,
      row: Row)
    requires CellFits(c, t) && ConditionFits(t, op, v) && UsesLike(op)
    requires field in columns && Column(row, field) == Stored(js, c)
    ensures Leaf(js, c, op, v).Holds? ==> SqlEval(d, row, LeafSql(columns, field, op, v)).Holds?
    ensures Plain(d, op, v) ==> (Leaf(js, c, op, v).Holds? <==> SqlEval(d, row, LeafSql(columns, field, op, v)).Holds?)
  {
    hide Like, Pattern, TextTest, TextTestUpTo, Exact;
    if !Nullish(c) {
      PatternMeansTextTest(d, op, c.p.text, v.p.text);
      TextTests(d, op, c.p.text, v.p.text);
    }
  }

  /** LIKE apart, a fitting condition reads alike on a cell and on its stored form exactly when `LeafAlike` says so. */
  lemma LeafAgreesIff(d: Dialect, js: Js, columns: set<string>, field: string, op: Op, v: Value, c: Cell,
      t: FieldType, row: Row)
    requires RoundTrips(js) && CellFits(c, t) && ConditionFits(t, op, v) && !UsesLike(op) && op != Between
    requires field in columns && Column(row, field) == Stored(js, c)
    ensures CompileCondition(columns, field, op, v).Ok?
    ensures (Leaf(js, c, op, v).Holds? <==> SqlEval(d, row, LeafSql(columns, field, op, v)).Holds?)
            <==> LeafAlike(js, c, op, v)
  {
    hide SqlCompare, SqlAll, SqlAny, SamePrim, Ordered, Bound, CellFits, NamedAlike, EmptyAlike, OrderedAlike;
    match op
    case Eq | Neq => if v.p.Null? { NullEqualityAgrees(js, c, t, op); } else { CompareAgrees(js, c, t, op, v); }
    case Gt | Lt | Gte | Lte => CompareAgrees(js, c, t, op, v);
    case IsEmpty | IsNotEmpty => EmptyAgrees(d, js, columns, field, op, c, row, v);
    case In => InAgrees(js, c, t, v);
    case IsTrue | IsFalse | IsNull | IsNotNull => TestAgrees(d, js, columns, field, op, v, c, t, row);
    case _ =>
  }

  /**
   * A fitting condition on a fitting record: SQL selects the row exactly when
   * the condition holds in memory, up to the dialect's reading of LIKE.
   */
  lemma LeafAgrees(d: Dialect, js: Js, columns: set<string>, field: string, op: Op, v: Value, c: Cell, t: FieldType,
      row: Row)
    requires RoundTrips(js) && CellFits(c, t) && ConditionFits(t, op, v) && LeafAlike(js, c, op, v)
    requires field in columns && Column(row, field) == Stored(js, c)
    ensures CompileCondition(columns, field, op, v).Ok?
    ensures Leaf(js, c, op, v).Holds? ==> SqlEval(d, row, LeafSql(columns, field, op, v)).Holds?
    ensures Plain(d, op, v) ==>
              (Leaf(js, c, op, v).Holds? <==> SqlEval(d, row, LeafSql(columns, field, op, v)).Holds?)
  {
    hide Like, Pattern, SqlCompare, SqlAll, SqlAny, Ordered, Bound, CellFits, NamedAlike, EmptyAlike, OrderedAlike;
    if UsesLike(op) {
      TextAgrees(d, js, columns, field, op, v, c, t, row);
    } else if op == Between {
      RangeAgrees(d, js, columns, field, c, t, row, v);
    } else {
      LeafAgreesIff(d, js, columns, field, op, v, c, t, row);
    }
  }

  // ----- Trees -----

  /** Tree and record have the catalog's types, and each condition is read alike on the record. */
  predicate Comparable(js: Js, fields: Fields, columns: set<string>, r: Record, p: Node) {
    Fits(fields, p) && RecordFits(fields, r) && fields.Keys <= columns && ReadAlike(js, r, p)
  }

  predicate SqlSelects(d: Dialect, js: Js, columns: set<string>, r: Record, p: Node) {
    Compile(columns, p).Ok? && Selects(d, RowOf(js, columns, r), Compile(columns, p).value)
  }

  lemma ConjunctionMeans(d: Dialect, row: Row, es: seq<Sql>)
    requires es != []
    ensures SqlEval(d, row, OrFalse(if |es| == 1 then es[0] else Conjunction(es))).Holds?
            <==> forall i :: 0 <= i < |es| ==> SqlEval(d, row, es[i]).Holds?
  {
    if |es| > 1 { assert SqlEval(d, row, Conjunction(es)) == SqlAll(d, row, es); }
  }

  lemma DisjunctionMeans(d: Dialect, row: Row, es: seq<Sql>)
    requires es != []
    ensures SqlEval(d, row, OrFalse(if |es| == 1 then es[0] else Disjunction(es))).Holds?
            <==> exists i :: 0 <= i < |es| && SqlEval(d, row, es[i]).Holds?
  {
    if |es| > 1 {
      assert SqlEval(d, row, Disjunction(es)) == SqlAny(d, row, es);
    } else {
      assert (exists i :: 0 <= i < |es| && SqlEval(d, row, es[i]).Holds?) <==> SqlEval(d, row, es[0]).Holds?;
    }
  }

  /** The children of a compiled group select what their compiled forms select. */
  lemma ChildrenSelect(d: Dialect, js: Js, columns: set<string>, r: Record, ps: seq<Node>)
    requires CompileAll(columns, ps).Ok?
    ensures var es, row := CompileAll(columns, ps).value, RowOf(js, columns, r);
            && |es| == |ps|
            && ((forall i :: 0 <= i < |es| ==> SqlEval(d, row, es[i]).Holds?)
                <==> forall f :: f in ps ==> SqlSelects(d, js, columns, r, f))
            && ((exists i :: 0 <= i < |es| && SqlEval(d, row, es[i]).Holds?)
                <==> exists f :: f in ps && SqlSelects(d, js, columns, r, f))
  {
    var es, row := CompileAll(columns, ps).value, RowOf(js, columns, r);
    forall i | 0 <= i < |ps|
      ensures SqlSelects(d, js, columns, r, ps[i]) <==> SqlEval(d, row, es[i]).Holds?
      ensures ps[i] in ps
    {
    }
  }

  /** AND and OR of compiled children, undone. */
  lemma GroupSelects(d: Dialect, js: Js, columns: set<string>, r: Record, p: Node)
    requires Compile(columns, p).Ok?
    requires p.And? || p.Or?
    ensures p.And? ==> (SqlSelects(d, js, columns, r, p) <==> forall f :: f in p.filters ==>
        SqlSelects(d, js, columns, r, f))
    ensures p.Or? ==> (SqlSelects(d, js, columns, r, p)
        <==> exists f :: f in p.filters && SqlSelects(d, js, columns, r, f))
  {
    ChildrenSelect(d, js, columns, r, p.filters);
    var es, row := CompileAll(columns, p.filters).value, RowOf(js, columns, r);
    if es != [] {
      ConjunctionMeans(d, row, es);
      DisjunctionMeans(d, row, es);
    }
  }

  lemma NotSelects(d: Dialect, js: Js, columns: set<string>, r: Record, p: Node)
    requires Compile(columns, Not(p)).Ok?
    ensures SqlSelects(d, js, columns, r, Not(p)) <==> !SqlSelects(d, js, columns, r, p)
  {
    var row, c := RowOf(js, columns, r), Compile(columns, p).value;
    CompiledIsNeverNull(d, row, columns, p);
    assert SqlEval(d, row, Negation(c)) == Neg(SqlEval(d, row, c));
    assert SqlEval(d, row, OrFalse(Negation(c))).Holds? <==> SqlEval(d, row, c).Fails?;
  }

  /**
   * The compiled SQL is the two-valued reading of the tree: unknown becomes
   * false at every condition, before any NOT above it.
   */
  lemma {:induction false} SqlIsTheCollapsedReading(d: Dialect, js: Js, fields: Fields, columns: set<string>,
      r: Record, p: Node)
    requires RoundTrips(js) && Comparable(js, fields, columns, r, p)
    requires LikePlain(d, p)
    ensures Compile(columns, p).Ok?
    ensures SqlSelects(d, js, columns, r, p) <==> Collapsed(js, r, p)
    decreases p
  {
    FittingCompiles(fields, columns, p);
    CompilesIff(columns, p);
    match p
    case Literal(_) =>
    case Condition(field, op, v) =>
      assert field in fields.Keys;
      LeafAgrees(d, js, columns, field, op, v, CellOf(r, field), fields[field], RowOf(js, columns, r));
    case And(filters) =>
      forall f | f in filters { SqlIsTheCollapsedReading(d, js, fields, columns, r, f); }
      GroupSelects(d, js, columns, r, p);
    case Or(filters) =>
      forall f | f in filters { SqlIsTheCollapsedReading(d, js, fields, columns, r, f); }
      GroupSelects(d, js, columns, r, p);
    case Not(filter) =>
      SqlIsTheCollapsedReading(d, js, fields, columns, r, filter);
      NotSelects(d, js, columns, r, filter);
  }

  /**
   * Wherever the in-memory truth is definite, SQL gives the same answer; so a
   * record that matches in memory is selected.
   */
  lemma SqlAgreesWhereDefinite(d: Dialect, js: Js, fields: Fields, columns: set<string>, r: Record, p: Node)
    requires RoundTrips(js) && Comparable(js, fields, columns, r, p)
    requires LikePlain(d, p)
    ensures !Eval(js, r, p).Unknown? ==> (SqlSelects(d, js, columns, r, p) <==> Evaluate(js, r, p))
    ensures Evaluate(js, r, p) ==> SqlSelects(d, js, columns, r, p)
  {
    SqlIsTheCollapsedReading(d, js, fields, columns, r, p);
    DefiniteAgrees(js, r, p);
  }

  /** With no comparison below a NOT, SQL and the evaluator select the same records. */
  lemma SqlEqualsEvaluate(d: Dialect, js: Js, fields: Fields, columns: set<string>, r: Record, p: Node)
    requires RoundTrips(js) && Comparable(js, fields, columns, r, p)
    requires LikePlain(d, p)
    requires NotFree(p) || GuardedNegation(p, false)
    ensures SqlSelects(d, js, columns, r, p) <==> Evaluate(js, r, p)
  {
    SqlIsTheCollapsedReading(d, js, fields, columns, r, p);
    if NotFree(p) { NotFreeAgrees(js, r, p); } else { GuardedNegationAgrees(js, r, p); }
  }

  /** Negating a NOT-free predicate keeps the agreement exactly on the records that decide it. */
  lemma NegationDivergesExactlyOnUnknown(d: Dialect, js: Js, fields: Fields, columns: set<string>, r: Record, p: Node)
    requires RoundTrips(js) && Comparable(js, fields, columns, r, p)
    requires LikePlain(d, p)
    requires NotFree(p)
    ensures (SqlSelects(d, js, columns, r, Not(p)) <==> Evaluate(js, r, Not(p))) <==> !Eval(js, r, p).Unknown?
  {
    SqlIsTheCollapsedReading(d, js, fields, columns, r, Not(p));
    NegationAgreesIffDefinite(js, r, p);
  }

  /**
   * A negated condition means the same to both on every record exactly when it
   * does not compare: a comparison diverges on the record that lacks the field.
   */
  lemma NegatedConditionAgreesIff(d: Dialect, js: Js, fields: Fields, columns: set<string>, field: string, op: Op,
      v: Value)
    requires RoundTrips(js) && fields.Keys <= columns
    requires Fits(fields, Condition(field, op, v))
    requires Plain(d, op, v)
    ensures (forall r: Record :: Comparable(js, fields, columns, r, Condition(field, op, v)) ==>
               (SqlSelects(d, js, columns, r, Not(Condition(field, op, v)))
                <==> Evaluate(js, r, Not(Condition(field, op, v)))))
            <==> !Partial(op, v)
  {
    var p := Condition(field, op, v);
    if Partial(op, v) {
      var empty: Record := map[];
      assert Leaf(js, CellOf(empty, field), op, v).Unknown?;
      assert Comparable(js, fields, columns, empty, p);
      NegationDivergesExactlyOnUnknown(d, js, fields, columns, empty, p);
    } else {
      forall r: Record | Comparable(js, fields, columns, r, p)
        ensures SqlSelects(d, js, columns, r, Not(p)) <==> Evaluate(js, r, Not(p))
      {
        NegationDivergesExactlyOnUnknown(d, js, fields, columns, r, p);
      }
    }
  }

  /** Under any dialect, a NOT-free tree selects at least the records that match in memory. */
  lemma {:induction false} MatchIsSelected(d: Dialect, js: Js, fields: Fields, columns: set<string>, r: Record, p: Node)
    requires RoundTrips(js) && Comparable(js, fields, columns, r, p)
    requires NotFree(p)
    ensures Compile(columns, p).Ok?
    ensures Evaluate(js, r, p) ==> SqlSelects(d, js, columns, r, p)
    decreases p
  {
    FittingCompiles(fields, columns, p);
    CompilesIff(columns, p);
    match p
    case Literal(_) =>
    case Condition(field, op, v) =>
      assert field in fields.Keys;
      LeafAgrees(d, js, columns, field, op, v, CellOf(r, field), fields[field], RowOf(js, columns, r));
    case And(filters) =>
      forall f | f in filters { MatchIsSelected(d, js, fields, columns, r, f); }
      GroupSelects(d, js, columns, r, p);
    case Or(filters) =>
      forall f | f in filters { MatchIsSelected(d, js, fields, columns, r, f); }
      GroupSelects(d, js, columns, r, p);
  }

  // ----- Exactly where one condition agrees -----

  /**
   * LIKE ignores the case of ASCII letters in the one dialect. A text test
   * selects on every record what it matches in memory if and only if the dialect
   * is the other one or the value holds no such letter.
   */
  lemma TextTestAgreesIff(d: Dialect, js: Js, fields: Fields, columns: set<string>, field: string, op: Op, v: Value)
    requires RoundTrips(js) && fields.Keys <= columns
    requires UsesLike(op) && Fits(fields, Condition(field, op, v))
    ensures (forall r: Record :: RecordFits(fields, r) ==>
               (SqlSelects(d, js, columns, r, Condition(field, op, v)) <==> Evaluate(js, r, Condition(field, op, v))))
            <==> Plain(d, op, v)
  {
    var p := Condition(field, op, v);
    if Plain(d, op, v) {
      forall r: Record | RecordFits(fields, r) ensures SqlSelects(d, js, columns, r, p) <==> Evaluate(js, r, p) {
        SqlEqualsEvaluate(d, js, fields, columns, r, p);
      }
    } else {
      var s := OtherCase(op, v.p.text);
      var r: Record := map[field := Scalar(Str(s))];
      OtherCaseIsSelected(d, js, columns, field, op, v, s);
      assert RecordFits(fields, r);
    }
  }

  lemma OtherCaseIsSelected(d: Dialect, js: Js, columns: set<string>, field: string, op: Op, v: Value, s: string)
    requires field in columns && UsesLike(op) && v.One? && v.p.Str?
    requires TextTestUpTo(d, op, s, v.p.text) && !TextTest(op, s, v.p.text)
    ensures var p, r := Condition(field, op, v), map[field := Scalar(Str(s))];
            SqlSelects(d, js, columns, r, p) && !Evaluate(js, r, p)
  {
    hide Like, Pattern, TextTest, TextTestUpTo;
    PatternMeansTextTest(d, op, s, v.p.text);
    var p, r: Record := Condition(field, op, v), map[field := Scalar(Str(s))];
    var row, e := RowOf(js, columns, r), LikeTest(field, Pattern(op, v.p.text));
    assert row[field] == Str(s) && CellOf(r, field) == Scalar(Str(s));
    assert Compile(columns, p) == Ok(OrFalse(e));
    assert SqlEval(d, row, e).Holds?;
  }

  /**
   * Any other fitting condition but `between` selects a fitting record in SQL as
   * it matches it in memory if and only if: text of record and value do not first
   * differ across the surrogates where they are ordered; a Date sorts against a
   * text as its rendering does; text that names the Date of the record among the
   * values comes with its rendering; and what is stored of a list is empty when
   * the list is.
   */
  lemma ConditionAgreesIff(d: Dialect, js: Js, fields: Fields, columns: set<string>, r: Record, field: string, op: Op,
      v: Value)
    requires RoundTrips(js) && fields.Keys <= columns && RecordFits(fields, r)
    requires !UsesLike(op) && op != Between && Fits(fields, Condition(field, op, v))
    ensures var p := Condition(field, op, v);
            (SqlSelects(d, js, columns, r, p) <==> Evaluate(js, r, p)) <==> LeafAlike(js, CellOf(r, field), op, v)
  {
    var p, c, row := Condition(field, op, v), CellOf(r, field), RowOf(js, columns, r);
    assert field in fields.Keys && CellFits(c, fields[field]) && Column(row, field) == Stored(js, c);
    LeafAgreesIff(d, js, columns, field, op, v, c, fields[field], row);
    hide CompileCondition, Leaf, LeafAlike, Fits, RecordFits, Column, RowOf, CellOf, Stored;
    var e := LeafSql(columns, field, op, v);
    assert Compile(columns, p) == Ok(OrFalse(e));
    assert SqlEval(d, row, OrFalse(e)).Holds? <==> SqlEval(d, row, e).Holds?;
    assert Eval(js, r, p) == Leaf(js, c, op, v);
  }
}
