/** What survives the gates, and what an accepted policy means in memory and in SQL. */
module PolicyProofs {
  import opened Common
  import opened Predicates
  import opened SqlPredicates
  import opened PolicyConditions
  import SqlProofs

  // ----- Exactly which policies are accepted -----

  predicate ComparesNumbers(o: Operator) {
    o in {GreaterThan, LessThan, GreaterOrEqual, LessOrEqual, Before, After}
  }

  /**
   * What a clause needs to be activated: null tests, boolean tests on boolean
   * fields, equality with a non-null value of a scalar field, ordering on
   * numbers, and lists that turn out empty. No other clause is.
   */
  predicate Admissible(rt: Runtime, ctx: Context, fields: Fields, c: Clause) {
    && c.field in fields
    && var t, o := fields[c.field], c.operator.GetOr(Equals);
       var value := Coerce(rt, t, Resolved(ctx, c));
       if o in {IsNullOp, IsNotNullOp} then true
       else if o in {True, False} then t.BooleanField?
       else if IsListOperator(o) then ListValues(ctx, c) == []
       else if o in {Equals, NotEquals} then !AttributeMissing(ctx, c) && value.Some? && !value.value.Null?
       else if ComparesNumbers(o) then t.NumberField? && !AttributeMissing(ctx, c) && value.Some?
       else false
  }

  predicate AllAdmissible(rt: Runtime, ctx: Context, fields: Fields, tree: Tree)
    decreases tree
  {
    match tree
    case Leaf(c) => Admissible(rt, ctx, fields, c)
    case Group(_, conditions) => forall t :: t in conditions ==> AllAdmissible(rt, ctx, fields, t)
  }

  predicate ClauseAccepted(rt: Runtime, ctx: Context, fields: Fields, c: Clause) {
    var p := ClauseToPredicate(rt, ctx, fields, c);
    p.Ok? && PassesGates(fields, p.value)
  }

  predicate TreeAccepted(rt: Runtime, ctx: Context, fields: Fields, tree: Tree) {
    var p := TreeToPredicate(rt, ctx, fields, tree);
    p.Ok? && PassesGates(fields, p.value)
  }

  lemma ClauseAcceptedIff(rt: Runtime, ctx: Context, fields: Fields, c: Clause)
    ensures ClauseAccepted(rt, ctx, fields, c) <==> Admissible(rt, ctx, fields, c)
  {
    hide CoerceBound, RangeParts;
    var p := ClauseToPredicate(rt, ctx, fields, c);
    if p.Ok? && p.value.Condition? {
      assert PassesGates(fields, p.value) <==> !Refused(fields, p.value.field, p.value.op, p.value.value);
    }
  }

  /** A combined group passes the gates exactly when its members do. */
  lemma CombinePasses(fields: Fields, logic: Logic, ps: seq<Node>)
    ensures PassesGates(fields, Combine(logic, ps)) <==> forall p :: p in ps ==> PassesGates(fields, p)
  {
    if |ps| == 1 { assert forall p :: p in ps <==> p == ps[0]; }
  }

  /** A condition tree compiles and passes every gate exactly when each clause is admissible. */
  lemma {:induction false} TreeAcceptedIff(rt: Runtime, ctx: Context, fields: Fields, tree: Tree)
    ensures TreeAccepted(rt, ctx, fields, tree) <==> AllAdmissible(rt, ctx, fields, tree)
    decreases tree
  {
    match tree
    case Leaf(c) => ClauseAcceptedIff(rt, ctx, fields, c);
    case Group(logic, conditions) =>
      forall t | t in conditions { TreeAcceptedIff(rt, ctx, fields, t); }
      var ps := TreesToPredicates(rt, ctx, fields, conditions);
      if ps.Ok? {
        CombinePasses(fields, logic, ps.value);
        MembersPass(rt, ctx, fields, conditions);
      }
  }

  lemma MembersPass(rt: Runtime, ctx: Context, fields: Fields, trees: seq<Tree>)
    requires TreesToPredicates(rt, ctx, fields, trees).Ok?
    ensures (forall p :: p in TreesToPredicates(rt, ctx, fields, trees).value ==> PassesGates(fields, p))
            <==> forall t :: t in trees ==> TreeAccepted(rt, ctx, fields, t)
  {
    var ps := TreesToPredicates(rt, ctx, fields, trees).value;
    forall i | 0 <= i < |trees|
      ensures trees[i] in trees && ps[i] in ps
      ensures PassesGates(fields, ps[i]) <==> TreeAccepted(rt, ctx, fields, trees[i])
    {
    }
  }

  /** The two condition trees of a policy are accepted exactly when all their clauses are admissible. */
  lemma PolicyAcceptedIff(rt: Runtime, ctx: Context, fields: Fields, system: Tree, user: Tree)
    ensures (var p := ConditionsToPredicate(rt, ctx, fields, system, user); p.Ok? && PassesGates(fields, p.value))
            <==> AllAdmissible(rt, ctx, fields, system) && AllAdmissible(rt, ctx, fields, user)
  {
    TreeAcceptedIff(rt, ctx, fields, system);
    TreeAcceptedIff(rt, ctx, fields, user);
    var p := ConditionsToPredicate(rt, ctx, fields, system, user);
    if p.Ok? {
      var s, u := TreeToPredicate(rt, ctx, fields, system).value, TreeToPredicate(rt, ctx, fields, user).value;
      assert forall q :: q in [s, u] <==> q == s || q == u;
      CombinePasses(fields, AND, [s, u]);
    }
  }

  // ----- What an admissible tree means -----

  /** The instant a date field stands for, whether it holds a Date or text. */
  function InstantOf(js: Js, c: Cell): Option<int> {
    if c.Scalar? && c.p.Date? then Some(c.p.at)
    else if c.Scalar? && c.p.Str? then js.parse(c.p.text)
    else None
  }

  /** The field stands for the wanted value. */
  predicate Stands(js: Js, c: Cell, wanted: Prim) {
    if wanted.Date? then InstantOf(js, c) == Some(wanted.at) else c == Scalar(wanted)
  }

  /** The field holds the value as storage writes it: an instant as a Date or in its ISO form. */
  predicate StandsStored(js: Js, c: Cell, wanted: Prim) {
    c == Scalar(wanted) || (wanted.Date? && c == Scalar(Str(js.iso(wanted.at))))
  }

  predicate NumberTest(o: Operator, a: real, b: real)
    requires ComparesNumbers(o)
  {
    match o
    case GreaterThan | After => a > b
    case LessThan | Before => a < b
    case GreaterOrEqual => a >= b
    case LessOrEqual => a <= b
  }

  /**
   * What an admissible clause says about a record, without going through
   * predicates: as it is given, or as it reads once its dates are stored as text.
   */
  predicate ClauseMeans(rt: Runtime, ctx: Context, fields: Fields, c: Clause, r: Record, stored: bool)
    requires Admissible(rt, ctx, fields, c)
  {
    var t, o, cell := fields[c.field], c.operator.GetOr(Equals), CellOf(r, c.field);
    var value := Coerce(rt, t, Resolved(ctx, c));
    if o.IsNullOp? then Nullish(cell)
    else if o.IsNotNullOp? then !Nullish(cell)
    else if o.True? then cell == Scalar(Bool(true))
    else if o.False? then cell == Scalar(Bool(false))
    else if IsListOperator(o) then false
    else if o in {Equals, NotEquals} then
      var stands := if stored then StandsStored(rt.js, cell, value.value) else Stands(rt.js, cell, value.value);
      !Nullish(cell) && stands == o.Equals?
    else cell.Scalar? && cell.p.Num? && value.value.Num? && NumberTest(o, cell.p.n, value.value.n)
  }

  /** A date equality meets text that parses to its instant without being its ISO form. */
  predicate MeetsOtherDateText(rt: Runtime, ctx: Context, fields: Fields, c: Clause, r: Record)
    requires Admissible(rt, ctx, fields, c)
  {
    var o, cell := c.operator.GetOr(Equals), CellOf(r, c.field);
    && o in {Equals, NotEquals}
    && var value := Coerce(rt, fields[c.field], Resolved(ctx, c)).value;
       value.Date? && cell.Scalar? && cell.p.Str?
       && rt.js.parse(cell.p.text) == Some(value.at) && cell.p.text != rt.js.iso(value.at)
  }

  /** Storing a clause changes what it says about a record if and only if a date equality meets such text. */
  lemma StorageChangesClauseIff(rt: Runtime, ctx: Context, fields: Fields, c: Clause, r: Record)
    requires RoundTrips(rt.js) && Admissible(rt, ctx, fields, c)
    ensures (ClauseMeans(rt, ctx, fields, c, r, true) <==> ClauseMeans(rt, ctx, fields, c, r, false))
            <==> !MeetsOtherDateText(rt, ctx, fields, c, r)
  {
    var value := Coerce(rt, fields[c.field], Resolved(ctx, c));
    if value.Some? && value.value.Date? {
      assert rt.js.parse(rt.js.iso(value.value.at)) == Some(value.value.at);
    }
  }

  /** AND and OR over the clauses: an empty AND matches every record, an empty OR none. */
  predicate TreeMeans(rt: Runtime, ctx: Context, fields: Fields, tree: Tree, r: Record, stored: bool)
    requires AllAdmissible(rt, ctx, fields, tree)
    decreases tree
  {
    match tree
    case Leaf(c) => ClauseMeans(rt, ctx, fields, c, r, stored)
    case Group(logic, conditions) =>
      if logic.AND? then forall t :: t in conditions ==> TreeMeans(rt, ctx, fields, t, r, stored)
      else exists t :: t in conditions && TreeMeans(rt, ctx, fields, t, r, stored)
  }

  predicate TreeMeetsOtherDateText(rt: Runtime, ctx: Context, fields: Fields, tree: Tree, r: Record)
    requires AllAdmissible(rt, ctx, fields, tree)
    decreases tree
  {
    match tree
    case Leaf(c) => MeetsOtherDateText(rt, ctx, fields, c, r)
    case Group(_, conditions) => exists t :: t in conditions && TreeMeetsOtherDateText(rt, ctx, fields, t, r)
  }

  /** A tree none of whose date equalities meets such text says the same before and after storage. */
  lemma {:induction false} StorageKeepsTree(rt: Runtime, ctx: Context, fields: Fields, tree: Tree, r: Record)
    requires RoundTrips(rt.js) && AllAdmissible(rt, ctx, fields, tree)
    requires !TreeMeetsOtherDateText(rt, ctx, fields, tree, r)
    ensures TreeMeans(rt, ctx, fields, tree, r, true) <==> TreeMeans(rt, ctx, fields, tree, r, false)
    decreases tree
  {
    match tree
    case Leaf(c) => StorageChangesClauseIff(rt, ctx, fields, c, r);
    case Group(_, conditions) =>
      forall t | t in conditions { StorageKeepsTree(rt, ctx, fields, t, r); }
  }

  const SURVIVING := {Eq, Neq, Gt, Lt, Gte, Lte, IsTrue, IsFalse, IsNull, IsNotNull}

  /** Conditions that no stored predicate holds: other operators, and ordering of anything but numbers. */
  predicate Unstorable(field: string, op: Op, v: Value) {
    op !in SURVIVING || (op in {Gt, Lt, Gte, Lte} && !(v.One? && v.p.Num?))
  }

  /** Equalities on date fields name instants by their ISO rendering. */
  predicate IsoDates(js: Js, fields: Fields, p: Node)
    decreases p
  {
    match p
    case Literal(_) => true
    case Condition(field, op, v) =>
      field in fields && IsDate(fields[field]) && op in {Eq, Neq} && v.One? && v.p.Str? ==> IsRendering(js, v.p.text)
    case And(filters) => forall f :: f in filters ==> IsoDates(js, fields, f)
    case Or(filters) => forall f :: f in filters ==> IsoDates(js, fields, f)
    case Not(filter) => IsoDates(js, fields, filter)
  }

  predicate IsRendering(js: Js, text: string) {
    js.parse(text).Some? && js.iso(js.parse(text).value) == text
  }

  /** The stored predicate is NOT-free, keeps only portable conditions, fits the catalog, and has ISO dates. */
  predicate Portable(js: Js, fields: Fields, p: Node) {
    NotFree(p) && AllPass(p, Unstorable) && Fits(fields, p) && IsoDates(js, fields, p)
  }

  /** Equality and inequality with a coerced value, in durable form. */
  lemma EqualityIsPortable(js: Js, fields: Fields, field: string, op: Op, value: Prim, r: Record)
    requires RoundTrips(js) && RecordFits(fields, r) && field in fields && op in {Eq, Neq}
    requires !value.Null? && PrimFits(DurablePrim(js, value), fields[field])
    requires value.Date? <==> IsDate(fields[field])
    ensures var cell, p := CellOf(r, field), Condition(field, op, One(DurablePrim(js, value)));
            && Portable(js, fields, p)
            && (Evaluate(js, r, p) <==> !Nullish(cell) && (StandsStored(js, cell, value) <==> op == Eq))
  {
    assert CellFits(CellOf(r, field), fields[field]);
    if value.Date? { assert js.parse(js.iso(value.at)) == Some(value.at); }
  }

  /** Ordering against a number. */
  lemma OrderingIsPortable(js: Js, fields: Fields, field: string, o: Operator, op: Op, n: real, r: Record)
    requires RecordFits(fields, r) && field in fields && fields[field].NumberField?
    requires ComparesNumbers(o) && op == (match o case GreaterThan | After => Gt case LessThan | Before => Lt
                                                  case GreaterOrEqual => Gte case LessOrEqual => Lte)
    ensures var cell, p := CellOf(r, field), Condition(field, op, One(Num(n)));
            && Portable(js, fields, p)
            && (Evaluate(js, r, p) <==> cell.Scalar? && cell.p.Num? && NumberTest(o, cell.p.n, n))
  {
    assert CellFits(CellOf(r, field), fields[field]);
  }

  /** A coerced value has the field's type; dates coerce to Date objects. */
  lemma CoercedFits(rt: Runtime, t: FieldType, raw: Raw)
    requires RoundTrips(rt.js) && Coerce(rt, t, raw).Some?
    ensures var value := Coerce(rt, t, raw).value;
            && !t.StringArrayField?
            && PrimFits(DurablePrim(rt.js, value), t)
            && (value.Date? <==> IsDate(t))
            && (t.NumberField? ==> value.Num?)
  {
    var value := Coerce(rt, t, raw).value;
    if value.Date? { assert rt.js.parse(rt.js.iso(value.at)) == Some(value.at); }
  }

  /** The empty groups, which match no record and every record. */
  lemma EmptyGroupsArePortable(js: Js, fields: Fields, r: Record)
    ensures Portable(js, fields, Or([])) && !Evaluate(js, r, Or([]))
    ensures Portable(js, fields, And([])) && Evaluate(js, r, And([]))
    ensures Durable(js, Or([])) == Or([]) && Durable(js, And([])) == And([])
  {
    assert EvalAny(js, r, []).Fails? && EvalAll(js, r, []).Holds?;
  }

  /** Null tests, and boolean tests on boolean fields. */
  lemma TestIsPortable(js: Js, fields: Fields, field: string, o: Operator, r: Record)
    requires field in fields && o in {True, False, IsNullOp, IsNotNullOp}
        && (o in {True, False} ==> fields[field].BooleanField?)
    ensures var cell, p := CellOf(r, field), Condition(field, TestOp(o), Absent);
            && Portable(js, fields, p)
            && Durable(js, p) == p
            && (Evaluate(js, r, p) <==>
                  if o.IsNullOp? then Nullish(cell) else if o.IsNotNullOp? then !Nullish(cell)
                  else cell == Scalar(Bool(o.True?)))
  {
  }

  /** One clause: its stored condition is portable and holds exactly on the records the stored clause means. */
  lemma ClauseIsPortable(rt: Runtime, ctx: Context, fields: Fields, c: Clause, r: Record)
    requires RoundTrips(rt.js) && Admissible(rt, ctx, fields, c) && RecordFits(fields, r)
    ensures ClauseToPredicate(rt, ctx, fields, c).Ok?
    ensures var p := Durable(rt.js, ClauseToPredicate(rt, ctx, fields, c).value);
            Portable(rt.js, fields, p) && (Evaluate(rt.js, r, p) <==> ClauseMeans(rt, ctx, fields, c, r, true))
  {
    hide Portable, Evaluate, Stands, StandsStored, Coerce;
    var t, o := fields[c.field], c.operator.GetOr(Equals);
    var value := Coerce(rt, t, Resolved(ctx, c));
    if o in {Equals, NotEquals} {
      CoercedFits(rt, t, Resolved(ctx, c));
      EqualityIsPortable(rt.js, fields, c.field, if o.Equals? then Eq else Neq, value.value, r);
    } else if ComparesNumbers(o) {
      CoercedFits(rt, t, Resolved(ctx, c));
      var op := match o case GreaterThan | After => Gt case LessThan | Before => Lt
                        case GreaterOrEqual => Gte case LessOrEqual => Lte;
      OrderingIsPortable(rt.js, fields, c.field, o, op, value.value.n, r);
    } else if IsListOperator(o) {
      EmptyGroupsArePortable(rt.js, fields, r);
    } else {
      TestIsPortable(rt.js, fields, c.field, o, r);
    }
  }

  lemma EqualityBeforeStorage(js: Js, fields: Fields, field: string, op: Op, value: Prim, r: Record)
    requires RecordFits(fields, r) && field in fields && op in {Eq, Neq}
    requires !value.Null? && !fields[field].StringArrayField? && (value.Date? <==> IsDate(fields[field]))
    ensures var cell := CellOf(r, field);
            Evaluate(js, r, Condition(field, op, One(value)))
            <==> !Nullish(cell) && (Stands(js, cell, value) <==> op == Eq)
  {
    assert CellFits(CellOf(r, field), fields[field]);
  }

  /** Before storage the compiled condition holds exactly on the records the clause means as it is given. */
  lemma CompiledClauseMeansTheClause(rt: Runtime, ctx: Context, fields: Fields, c: Clause, r: Record)
    requires RoundTrips(rt.js) && Admissible(rt, ctx, fields, c) && RecordFits(fields, r)
    ensures ClauseToPredicate(rt, ctx, fields, c).Ok?
    ensures Evaluate(rt.js, r, ClauseToPredicate(rt, ctx, fields, c).value)
        <==> ClauseMeans(rt, ctx, fields, c, r, false)
  {
    var o := c.operator.GetOr(Equals);
    if o in {Equals, NotEquals} {
      hide Evaluate, Stands, StandsStored, Coerce;
      var value := Coerce(rt, fields[c.field], Resolved(ctx, c)).value;
      CoercedFits(rt, fields[c.field], Resolved(ctx, c));
      EqualityBeforeStorage(rt.js, fields, c.field, if o.Equals? then Eq else Neq, value, r);
    } else {
      hide Portable, Evaluate, Stands, StandsStored, Coerce;
      ClauseIsPortable(rt, ctx, fields, c, r);
      StorageChangesClauseIff(rt, ctx, fields, c, r);
      OnlyDatesAreStoredAnew(rt, ctx, fields, c);
    }
  }

  /** Storage rewrites nothing in a clause other than an equality. */
  lemma OnlyDatesAreStoredAnew(rt: Runtime, ctx: Context, fields: Fields, c: Clause)
    requires RoundTrips(rt.js) && Admissible(rt, ctx, fields, c) && c.operator.GetOr(Equals) !in {Equals, NotEquals}
    ensures var p := ClauseToPredicate(rt, ctx, fields, c); p.Ok? && Durable(rt.js, p.value) == p.value
  {
    var o := c.operator.GetOr(Equals);
    if ComparesNumbers(o) {
      hide Coerce;
      CoercedFits(rt, fields[c.field], Resolved(ctx, c));
    } else if IsListOperator(o) {
      EmptyGroupsArePortable(rt.js, fields, map[]);
    }
  }

  /** AND, OR and single members combined, in their durable form. */
  lemma CombineIsPortable(js: Js, fields: Fields, logic: Logic, ps: seq<Node>, r: Record)
    requires ps != []
    requires forall p :: p in ps ==> Portable(js, fields, Durable(js, p))
    ensures Portable(js, fields, Durable(js, Combine(logic, ps)))
    ensures Evaluate(js, r, Durable(js, Combine(logic, ps))) <==>
              if logic.AND? then forall p :: p in ps ==> Evaluate(js, r, Durable(js, p))
              else exists p :: p in ps && Evaluate(js, r, Durable(js, p))
  {
    if |ps| == 1 {
      assert forall p :: p in ps <==> p == ps[0];
    } else {
      DurableMembers(js, ps);
      var ds := DurableAll(js, ps);
      forall d | d in ds ensures Portable(js, fields, d) { }
      assert Eval(js, r, And(ds)) == EvalAll(js, r, ds) && Eval(js, r, Or(ds)) == EvalAny(js, r, ds);
    }
  }

  lemma DurableMembers(js: Js, ps: seq<Node>)
    ensures forall p :: p in ps ==> Durable(js, p) in DurableAll(js, ps)
    ensures forall d :: d in DurableAll(js, ps) ==> exists p :: p in ps && d == Durable(js, p)
  {
    var ds := DurableAll(js, ps);
    forall p | p in ps ensures Durable(js, p) in ds {
      var i :| 0 <= i < |ps| && ps[i] == p;
      assert ds[i] in ds;
    }
    forall d | d in ds ensures exists p :: p in ps && d == Durable(js, p) {
      var i :| 0 <= i < |ds| && ds[i] == d;
      assert ps[i] in ps;
    }
  }

  /** The stored predicate of an admissible tree, and the records it matches. */
  lemma {:induction false} TreeIsPortable(rt: Runtime, ctx: Context, fields: Fields, tree: Tree, r: Record)
    requires RoundTrips(rt.js) && AllAdmissible(rt, ctx, fields, tree) && RecordFits(fields, r)
    ensures TreeToPredicate(rt, ctx, fields, tree).Ok?
    ensures var p := Durable(rt.js, TreeToPredicate(rt, ctx, fields, tree).value);
            Portable(rt.js, fields, p) && (Evaluate(rt.js, r, p) <==> TreeMeans(rt, ctx, fields, tree, r, true))
    decreases tree
  {
    hide Portable, Evaluate, ClauseMeans, PassesGates;
    TreeAcceptedIff(rt, ctx, fields, tree);
    EmptyGroupsArePortable(rt.js, fields, r);
    match tree
    case Leaf(c) => ClauseIsPortable(rt, ctx, fields, c, r);
    case Group(logic, conditions) =>
      forall t | t in conditions { TreeIsPortable(rt, ctx, fields, t, r); }
      if conditions != [] {
        var ps := TreesToPredicates(rt, ctx, fields, conditions).value;
        MembersMean(rt, ctx, fields, conditions, r);
        CombineIsPortable(rt.js, fields, logic, ps, r);
      }
  }

  /** The members of a group, given the lemma above for each of them. */
  lemma MembersMean(rt: Runtime, ctx: Context, fields: Fields, trees: seq<Tree>, r: Record)
    requires TreesToPredicates(rt, ctx, fields, trees).Ok?
    requires forall t :: t in trees ==>
               && AllAdmissible(rt, ctx, fields, t)
               && TreeToPredicate(rt, ctx, fields, t).Ok?
               && Portable(rt.js, fields, Durable(rt.js, TreeToPredicate(rt, ctx, fields, t).value))
               && (Evaluate(rt.js, r, Durable(rt.js, TreeToPredicate(rt, ctx, fields, t).value))
                  <==> TreeMeans(rt, ctx, fields, t, r, true))
    ensures var ps := TreesToPredicates(rt, ctx, fields, trees).value;
            && (forall p :: p in ps ==> Portable(rt.js, fields, Durable(rt.js, p)))
            && ((forall p :: p in ps ==> Evaluate(rt.js, r, Durable(rt.js, p)))
                <==> forall t :: t in trees ==> TreeMeans(rt, ctx, fields, t, r, true))
            && ((exists p :: p in ps && Evaluate(rt.js, r, Durable(rt.js, p)))
                <==> exists t :: t in trees && TreeMeans(rt, ctx, fields, t, r, true))
  {
    var ps := TreesToPredicates(rt, ctx, fields, trees).value;
    forall i | 0 <= i < |trees|
      ensures trees[i] in trees && ps[i] in ps
      ensures Portable(rt.js, fields, Durable(rt.js, ps[i]))
      ensures Evaluate(rt.js, r, Durable(rt.js, ps[i])) <==> TreeMeans(rt, ctx, fields, trees[i], r, true)
    {
    }
  }

  /** What is storable is read alike on every record, whatever the dialect. */
  lemma {:induction false} StorableIsPlain(d: Dialect, js: Js, fields: Fields, p: Node, r: Record)
    requires AllPass(p, Unstorable) && Fits(fields, p) && IsoDates(js, fields, p) && RecordFits(fields, r)
    ensures LikePlain(d, p) && ReadAlike(js, r, p)
    decreases p
  {
    match p
    case Literal(_) =>
    case Condition(field, _, _) => assert CellFits(CellOf(r, field), fields[field]);
    case And(filters) => forall f | f in filters { StorableIsPlain(d, js, fields, f, r); }
    case Or(filters) => forall f | f in filters { StorableIsPlain(d, js, fields, f, r); }
    case Not(filter) => StorableIsPlain(d, js, fields, filter, r);
  }

  /**
   * An accepted policy means the same everywhere. Its stored predicate is
   * NOT-free and uses only portable conditions; it compiles to SQL over any
   * table that maps the catalog's fields; on every record of the catalog's
   * types, evaluation in memory, the SQL under either dialect, and the AND/OR
   * reading of the stored condition trees agree; and they agree with the trees
   * as given unless a date equality meets text that is another form of its date.
   */
  lemma AcceptedPolicyMeansTheSame(
    rt: Runtime, ctx: Context, fields: Fields, system: Tree, user: Tree, d: Dialect, columns: set<string>, r: Record)
    requires RoundTrips(rt.js) && RecordFits(fields, r) && fields.Keys <= columns
    requires var p := ConditionsToPredicate(rt, ctx, fields, system, user); p.Ok? && PassesGates(fields, p.value)
    ensures var p := Durable(rt.js, ConditionsToPredicate(rt, ctx, fields, system, user).value);
            && Portable(rt.js, fields, p)
            && Compile(columns, p).Ok?
            && AllAdmissible(rt, ctx, fields, system) && AllAdmissible(rt, ctx, fields, user)
            && (Evaluate(rt.js, r, p)
                <==> TreeMeans(rt, ctx, fields, system, r, true) && TreeMeans(rt, ctx, fields, user, r, true))
            && (SqlProofs.SqlSelects(d, rt.js, columns, r, p) <==> Evaluate(rt.js, r, p))
            && (TreeMeetsOtherDateText(rt, ctx, fields, system, r) || TreeMeetsOtherDateText(rt, ctx, fields, user, r)
                || (Evaluate(rt.js, r, p)
                    <==> TreeMeans(rt, ctx, fields, system, r, false) && TreeMeans(rt, ctx, fields, user, r, false)))
  {
    hide TreeMeans, TreeMeetsOtherDateText, Evaluate, Portable, Admissible;
    PolicyAcceptedIff(rt, ctx, fields, system, user);
    TreeIsPortable(rt, ctx, fields, system, r);
    TreeIsPortable(rt, ctx, fields, user, r);
    var s, u := TreeToPredicate(rt, ctx, fields, system).value, TreeToPredicate(rt, ctx, fields, user).value;
    assert forall q :: q in [s, u] <==> q == s || q == u;
    CombineIsPortable(rt.js, fields, AND, [s, u], r);
    StoredPolicyInSql(rt.js, fields, d, columns, r, Durable(rt.js, Combine(AND, [s, u])));
    if !TreeMeetsOtherDateText(rt, ctx, fields, system, r) && !TreeMeetsOtherDateText(rt, ctx, fields, user, r) {
      StorageKeepsTree(rt, ctx, fields, system, r);
      StorageKeepsTree(rt, ctx, fields, user, r);
    }
  }

  lemma StoredPolicyInSql(js: Js, fields: Fields, d: Dialect, columns: set<string>, r: Record, p: Node)
    requires RoundTrips(js) && RecordFits(fields, r) && fields.Keys <= columns && Portable(js, fields, p)
    ensures Compile(columns, p).Ok?
    ensures SqlProofs.SqlSelects(d, js, columns, r, p) <==> Evaluate(js, r, p)
  {
    StorableIsPlain(d, js, fields, p, r);
    SqlProofs.SqlIsTheCollapsedReading(d, js, fields, columns, r, p);
    SqlProofs.SqlEqualsEvaluate(d, js, fields, columns, r, p);
  }

  function DayClause(field: string, text: string): Clause {
    Clause(field, Some(Equals), Given(Str(text)), None, None)
  }

  /**
   * A policy that asks a date field for a day, and a record that holds that very
   * text: the clause is met as given and by the compiled condition, but not by
   * the stored one, in memory or in SQL.
   */
  lemma DayTextIsLost(rt: Runtime, ctx: Context, fields: Fields, field: string, text: string, d: Dialect,
      columns: set<string>)
    requires RoundTrips(rt.js) && field in fields && fields[field].DateField? && fields.Keys <= columns
    requires rt.dayOnly(text) && rt.js.parse(text).Some? && rt.js.iso(rt.js.parse(text).value) != text
    ensures var c, r := DayClause(field, text), map[field := Scalar(Str(text))];
            && RecordFits(fields, r)
            && Admissible(rt, ctx, fields, c) && ClauseMeans(rt, ctx, fields, c, r, false)
            && ClauseToPredicate(rt, ctx, fields, c).Ok?
            && var p := ClauseToPredicate(rt, ctx, fields, c).value;
               && Evaluate(rt.js, r, p)
               && !Evaluate(rt.js, r, Durable(rt.js, p))
               && !SqlProofs.SqlSelects(d, rt.js, columns, r, Durable(rt.js, p))
  {
    var c, r := DayClause(field, text), map[field := Scalar(Str(text))];
    ClauseIsPortable(rt, ctx, fields, c, r);
    StorageChangesClauseIff(rt, ctx, fields, c, r);
    StoredPolicyInSql(rt.js, fields, d, columns, r, Durable(rt.js, ClauseToPredicate(rt, ctx, fields, c).value));
  }

  /**
   * Replacing a Date by its string changes what an equality matches on exactly
   * one kind of cell: text that parses to the instant but is not its ISO form.
   */
  lemma DurableFormChangesOnlyNoncanonicalText(js: Js, c: Cell, at: int)
    requires RoundTrips(js) && c.Scalar?
    ensures (SamePrim(js, c.p, Str(js.iso(at))) <==> SamePrim(js, c.p, Date(at)))
            <==> !(c.p.Str? && js.parse(c.p.text) == Some(at) && c.p.text != js.iso(at))
  {
    assert js.parse(js.iso(at)) == Some(at);
  }
}
