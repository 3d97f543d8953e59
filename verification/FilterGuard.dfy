/**
 * The guard against destructive statements without a real filter: what it
 * refuses selects every row, and where it refuses all that does.
 */
module FilterGuard {
  import opened Common
  import opened Predicates
  import opened Simplifier
  import opened SqlPredicates
  import opened SqlProofs
  import Text

  // ----- What is refused -----

  /** The compiled form of a refused filter selects every row of the table, that of its dual none. */
  lemma {:induction false} RefusedFilterSelectsEveryRow(d: Dialect, js: Js, columns: set<string>, r: Record, p: Node)
    requires Compile(columns, p).Ok?
    ensures AlwaysTrue(p) ==> SqlSelects(d, js, columns, r, p)
    ensures AlwaysFalse(p) ==> !SqlSelects(d, js, columns, r, p)
    decreases p
  {
    hide SqlEval, RowOf;
    match p
    case Literal(_) => LiteralSelects(d, js, columns, r, p.b);
    case Condition(_, _, _) =>
    case And(filters) =>
      forall f | f in filters { RefusedFilterSelectsEveryRow(d, js, columns, r, f); }
      GroupSelects(d, js, columns, r, p);
    case Or(filters) =>
      forall f | f in filters { RefusedFilterSelectsEveryRow(d, js, columns, r, f); }
      GroupSelects(d, js, columns, r, p);
    case Not(filter) =>
      RefusedFilterSelectsEveryRow(d, js, columns, r, filter);
      NotSelects(d, js, columns, r, filter);
  }

  lemma LiteralSelects(d: Dialect, js: Js, columns: set<string>, r: Record, b: bool)
    ensures SqlSelects(d, js, columns, r, Literal(b)) <==> b
  {
  }

  // ----- Where all that matches everything is refused -----

  /** Every condition compares the field with something. */
  predicate AllCompare(p: Node)
    decreases p
  {
    match p
    case Literal(_) => true
    case Condition(_, op, v) => Partial(op, v)
    case And(filters) => forall f :: f in filters ==> AllCompare(f)
    case Or(filters) => forall f :: f in filters ==> AllCompare(f)
    case Not(filter) => AllCompare(filter)
  }

  lemma {:induction false} EmptyRecordDecides(js: Js, p: Node)
    requires AllCompare(p)
    ensures Eval(js, map[], p).Holds? <==> AlwaysTrue(p)
    ensures Eval(js, map[], p).Fails? <==> AlwaysFalse(p)
    decreases p
  {
    match p
    case Literal(_) =>
    case Condition(_, op, v) => assert Leaf(js, Missing, op, v).Unknown?;
    case And(filters) => forall f | f in filters { EmptyRecordDecides(js, f); }
    case Or(filters) => forall f | f in filters { EmptyRecordDecides(js, f); }
    case Not(filter) => EmptyRecordDecides(js, filter);
  }

  /** In memory the guard is exact on filters that only compare: the record without fields tells. */
  lemma ComparingGuardIsExact(js: Js, p: Node)
    requires AllCompare(p)
    ensures (forall r: Record :: Evaluate(js, r, p)) <==> AlwaysTrue(p)
    ensures (forall r: Record :: Eval(js, r, p).Fails?) <==> AlwaysFalse(p)
  {
    EmptyRecordDecides(js, p);
    if AlwaysTrue(p) {
      forall r: Record ensures Evaluate(js, r, p) { RefusedFilterMatchesEveryRow(js, r, p); }
    }
    if AlwaysFalse(p) {
      forall r: Record ensures Eval(js, r, p).Fails? { RefusedFilterMatchesEveryRow(js, r, Not(p)); }
    }
    assert (forall r: Record :: Evaluate(js, r, p)) ==> Evaluate(js, map[], p);
    assert (forall r: Record :: Eval(js, r, p).Fails?) ==> Eval(js, map[], p).Fails?;
  }

  /** The value alone does not decide: some cell meets the condition, and some does not. */
  predicate Selective(js: Js, op: Op, v: Value) {
    match op
    case Eq => v.One?
    case Contains | StartsWith | EndsWith => v.One? && v.p.Str?
    case Gt => v.One? && !v.p.Null? && v.p != Bool(true)
    case Lt => v.One? && !v.p.Null? && v.p != Str("")
    case Gte | Lte => v.One? && !v.p.Null?
    case In => exists p :: p in ListOf(v) && !p.Null?
    case IncludesAny => exists p :: p in ListOf(v) && !p.Null?
    case IncludesAll => forall p :: p in ListOf(v) ==> !p.Null?
    case Between =>
      v.Range? && (v.from.Some? || v.to.Some?)
      && v.from != Some(Null) && v.to != Some(Null)
      && (v.from.Some? && v.to.Some? ==> PrimOrder(js, v.from.value, v.to.value) <= 0)
    case _ => true
  }

  /** A cell that meets an ordering. */
  function Beyond(op: Op, p: Prim): Prim
    requires op in {Gt, Lt}
  {
    match p
    case Num(n) => Num(if op == Gt then n + 1.0 else n - 1.0)
    case Date(at) => Date(if op == Gt then at + 1 else at - 1)
    case Str(text) => Str(if op == Gt then text + "a" else "")
    case Bool(_) => if op == Gt then Bool(true) else Num(0.0)
    case Null => Null
  }

  lemma {:induction false} LongerIsAbove(a: seq<nat>, b: seq<nat>)
    requires b != []
    ensures Text.Compare(a + b, a) == 1
  {
    if a == [] {
      assert a + b == b;
    } else {
      assert (a + b)[1..] == a[1..] + b;
      LongerIsAbove(a[1..], b);
    }
  }

  lemma {:induction false} UnitsAppend(a: string, c: char)
    ensures Text.Utf16(a + [c]) == Text.Utf16(a) + Text.CodeUnits(c)
  {
    if a == [] {
      assert [] + [c] == [c] && [c][1..] == [];
    } else {
      assert (a + [c])[1..] == a[1..] + [c];
      UnitsAppend(a[1..], c);
    }
  }

  lemma BeyondMeets(js: Js, op: Op, p: Prim)
    requires op in {Gt, Lt} && Selective(js, op, One(p))
    ensures Ordered(js, Scalar(Beyond(op, p)), op, p).Holds?
  {
    match p
    case Str(text) =>
      if op == Gt {
        UnitsAppend(text, 'a');
        LongerIsAbove(Text.Utf16(text), Text.CodeUnits('a'));
      } else {
        assert Text.Utf16("") == [] && Text.Utf16(text) != [];
      }
    case _ =>
  }

  lemma OwnOrder(js: Js, p: Prim)
    ensures PrimOrder(js, p, p) == 0
  {
  }

  /** A cell that meets a selective condition. */
  lemma MeetingCell(js: Js, op: Op, v: Value) returns (c: Cell)
    requires Selective(js, op, v)
    ensures Leaf(js, c, op, v).Holds?
  {
    match op
    case Eq => c := Scalar(v.p);
    case Neq => c := Scalar(if v == One(Bool(true)) then Bool(false) else Bool(true));
    case Contains | StartsWith | EndsWith =>
      c := Scalar(v.p);
      assert v.p.text[0..] == v.p.text && v.p.text[|v.p.text| - |v.p.text|..] == v.p.text;
      assert v.p.text[0..][..|v.p.text|] == v.p.text;
    case Gt | Lt => BeyondMeets(js, op, v.p); c := Scalar(Beyond(op, v.p));
    case Gte | Lte => OwnOrder(js, v.p); c := Scalar(v.p);
    case In =>
      var p :| p in ListOf(v) && !p.Null?;
      c := Scalar(p);
    case IncludesAny | IncludesAll => c := Items(ListOf(v));
    case Between =>
      c := Scalar(if v.from.Some? then v.from.value else v.to.value);
      OwnOrder(js, c.p);
    case IsEmpty => c := Missing;
    case IsNotEmpty => c := Scalar(Bool(true));
    case IsTrue => c := Scalar(Bool(true));
    case IsFalse => c := Scalar(Bool(false));
    case IsNull => c := Missing;
    case IsNotNull => c := Scalar(Bool(true));
  }

  lemma FailingCell(js: Js, op: Op, v: Value) returns (c: Cell)
    requires Selective(js, op, v)
    ensures !Leaf(js, c, op, v).Holds?
  {
    c := if op in {IsEmpty, IsNull} || (op == Eq && v == One(Null)) then Scalar(Bool(true)) else Missing;
  }

  /** The one kind of condition that every cell meets. */
  lemma EveryCellMeetsIff(js: Js, op: Op, v: Value)
    ensures (forall c: Cell :: Leaf(js, c, op, v).Holds?) <==> op == Between && RangeOf(v) == Some(Range(None, None))
  {
    if !(op == Between && RangeOf(v) == Some(Range(None, None))) {
      assert !Leaf(js, Missing, op, v).Holds? || !Leaf(js, Scalar(Bool(true)), op, v).Holds?
        || !Leaf(js, Scalar(Bool(false)), op, v).Holds?;
    }
  }

  /** The fields a tree names. */
  function Names(p: Node): set<string>
    decreases p
  {
    match p
    case Literal(_) => {}
    case Condition(field, _, _) => {field}
    case And(filters) => set f, name | f in filters && name in Names(f) :: name
    case Or(filters) => set f, name | f in filters && name in Names(f) :: name
    case Not(filter) => Names(filter)
  }

  /** Members at different places name different fields. */
  predicate Apart(ps: seq<Node>) {
    forall i, j :: 0 <= i < j < |ps| ==> Names(ps[i]) !! Names(ps[j])
  }

  /** In every group the members name different fields, and no condition is decided by its value alone. */
  predicate Independent(js: Js, p: Node)
    decreases p
  {
    match p
    case Literal(_) => true
    case Condition(_, op, v) => Selective(js, op, v)
    case And(filters) => Apart(filters) && forall f :: f in filters ==> Independent(js, f)
    case Or(filters) => Apart(filters) && forall f :: f in filters ==> Independent(js, f)
    case Not(filter) => Independent(js, filter)
  }

  /** What a tree reads of a record is the cells of the fields it names. */
  lemma {:induction false} OnlyNamesMatter(js: Js, r: Record, q: Record, p: Node)
    requires forall f :: f in Names(p) ==> CellOf(r, f) == CellOf(q, f)
    ensures Collapsed(js, r, p) <==> Collapsed(js, q, p)
    decreases p
  {
    match p
    case Literal(_) =>
    case Condition(field, _, _) => assert field in Names(p);
    case And(filters) =>
      forall f | f in filters ensures Collapsed(js, r, f) <==> Collapsed(js, q, f) {
        assert Names(f) <= Names(p);
        OnlyNamesMatter(js, r, q, f);
      }
    case Or(filters) =>
      forall f | f in filters ensures Collapsed(js, r, f) <==> Collapsed(js, q, f) {
        assert Names(f) <= Names(p);
        OnlyNamesMatter(js, r, q, f);
      }
    case Not(filter) => OnlyNamesMatter(js, r, q, filter);
  }

  /** Whether the guard leaves the answer open. */
  predicate CanBe(p: Node, wanted: bool) {
    if wanted then !AlwaysFalse(p) else !AlwaysTrue(p)
  }

  /** A record on which the tree reads as wanted. */
  lemma {:induction false} Chosen(js: Js, p: Node, wanted: bool) returns (r: Record)
    requires Independent(js, p) && CanBe(p, wanted)
    ensures Collapsed(js, r, p) == wanted && r.Keys <= Names(p)
    decreases p, 1
  {
    match p
    case Literal(_) => r := map[];
    case Condition(field, op, v) =>
      var c: Cell;
      if wanted { c := MeetingCell(js, op, v); } else { c := FailingCell(js, op, v); }
      r := map[field := c];
    case And(filters) =>
      if wanted {
        r := AllChosen(js, filters, true);
      } else {
        var f :| f in filters && !AlwaysTrue(f);
        r := Chosen(js, f, false);
      }
    case Or(filters) =>
      if wanted {
        var f :| f in filters && !AlwaysFalse(f);
        r := Chosen(js, f, true);
      } else {
        r := AllChosen(js, filters, false);
      }
    case Not(filter) => r := Chosen(js, filter, !wanted);
  }

  /** The same for the members of a group at once, since they name different fields. */
  lemma {:induction false} AllChosen(js: Js, ps: seq<Node>, wanted: bool) returns (r: Record)
    requires Apart(ps) && forall p :: p in ps ==> Independent(js, p) && CanBe(p, wanted)
    ensures forall p :: p in ps ==> Collapsed(js, r, p) == wanted
    ensures forall f :: f in r ==> exists p :: p in ps && f in Names(p)
    decreases ps, 0
  {
    if ps == [] {
      r := map[];
    } else {
      assert forall i :: 0 <= i < |ps| - 1 ==> ps[1..][i] == ps[i + 1];
      var head := Chosen(js, ps[0], wanted);
      var rest := AllChosen(js, ps[1..], wanted);
      r := head + rest;
      Merged(js, ps, head, rest, wanted);
    }
  }

  lemma Merged(js: Js, ps: seq<Node>, head: Record, rest: Record, wanted: bool)
    requires ps != [] && Apart(ps)
    requires Collapsed(js, head, ps[0]) == wanted && head.Keys <= Names(ps[0])
    requires forall p :: p in ps[1..] ==> Collapsed(js, rest, p) == wanted
    requires forall f :: f in rest ==> exists p :: p in ps[1..] && f in Names(p)
    ensures forall p :: p in ps ==> Collapsed(js, head + rest, p) == wanted
  {
    hide Collapsed, Names;
    var r := head + rest;
    forall f | f in rest ensures f !in Names(ps[0]) {
      var j :| 0 <= j < |ps[1..]| && f in Names(ps[1..][j]);
      assert Names(ps[0]) !! Names(ps[j + 1]);
    }
    forall i | 0 <= i < |ps| ensures Collapsed(js, r, ps[i]) == wanted {
      if i == 0 {
        OnlyNamesMatter(js, r, head, ps[0]);
      } else {
        assert Names(ps[0]) !! Names(ps[i]) && ps[1..][i - 1] == ps[i];
        OnlyNamesMatter(js, r, rest, ps[i]);
      }
    }
  }

  /**
   * By either reading the guard is exact on independent filters: it refuses
   * precisely those that match every record.
   */
  lemma IndependentGuardIsExact(js: Js, p: Node)
    requires Independent(js, p)
    ensures (forall r: Record :: Collapsed(js, r, p)) <==> AlwaysTrue(p)
    ensures (forall r: Record :: Evaluate(js, r, p)) <==> AlwaysTrue(p)
    ensures (forall r: Record :: !Collapsed(js, r, p)) <==> AlwaysFalse(p)
  {
    if AlwaysTrue(p) {
      forall r: Record ensures Evaluate(js, r, p) && Collapsed(js, r, p) { RefusedFilterMatchesEveryRow(js, r, p); }
    } else {
      var r := Chosen(js, p, false);
      DefiniteAgrees(js, r, p);
      assert !Collapsed(js, r, p) && !Evaluate(js, r, p);
    }
    if AlwaysFalse(p) {
      forall r: Record ensures !Collapsed(js, r, p) { RefusedFilterMatchesEveryRow(js, r, Not(p)); }
    } else {
      var r := Chosen(js, p, true);
      assert Collapsed(js, r, p);
    }
  }

  // ----- What gets through -----

  lemma PairReads(js: Js, r: Record, a: Node, b: Node)
    ensures Collapsed(js, r, Or([a, b])) <==> Collapsed(js, r, a) || Collapsed(js, r, b)
    ensures Evaluate(js, r, Or([a, b])) <==> Evaluate(js, r, a) || Evaluate(js, r, b)
    ensures AlwaysTrue(Or([a, b])) <==> AlwaysTrue(a) || AlwaysTrue(b)
  {
    assert forall f :: f in [a, b] <==> f == a || f == b;
    assert Eval(js, r, Or([a, b])) == EvalAny(js, r, [a, b]);
  }

  /** Beyond these classes filters get through that match every record: a field named twice, a range without bounds. */
  lemma GuardMissesTautologies(js: Js, r: Record, field: string)
    ensures var p := Or([Condition(field, IsNull, Absent), Condition(field, IsNotNull, Absent)]);
            !AlwaysTrue(p) && Evaluate(js, r, p) && Collapsed(js, r, p)
    ensures var p := Condition(field, Between, Range(None, None));
            !AlwaysTrue(p) && Evaluate(js, r, p) && Collapsed(js, r, p)
  {
    PairReads(js, r, Condition(field, IsNull, Absent), Condition(field, IsNotNull, Absent));
  }

  /** Or that SQL alone reads as matching every record: a comparison or its negation. */
  lemma GuardMissesExcludedMiddle(js: Js, r: Record, field: string, v: Prim)
    requires v != Null
    ensures var p := Or([Condition(field, Eq, One(v)), Not(Condition(field, Eq, One(v)))]);
            !AlwaysTrue(p) && Collapsed(js, r, p) && (Evaluate(js, r, p) <==> !Nullish(CellOf(r, field)))
  {
    PairReads(js, r, Condition(field, Eq, One(v)), Not(Condition(field, Eq, One(v))));
  }
}
