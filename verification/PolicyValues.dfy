/**
 * Where a clause takes its value from, and what it then says of a record: the
 * user attribute it names decides, and otherwise its own value does.
 */
module PolicyValues {
  import opened Common
  import opened Predicates
  import opened SqlPredicates
  import opened PolicyConditions
  import opened PolicyProofs
  import Text

  /** The raw value stands for this value of the field's type. */
  predicate Names(rt: Runtime, t: FieldType, raw: Raw, p: Prim) {
    match p
    case Num(n) =>
      t.NumberField? && (raw == Given(p) || (raw.Given? && raw.p.Str? && rt.decimal(raw.p.text) == Some(n)))
    case Bool(b) =>
      t.BooleanField? && (raw == Given(p) || raw == Given(Str(if b then "true" else "false")))
    case Date(at) =>
      && (t.DateField? || t.DateTimeField?)
      && (|| raw == Given(p)
          || (raw.Given? && raw.p.Str? && rt.js.parse(raw.p.text) == Some(at)
              && (t.DateField? ==> rt.dayOnly(raw.p.text))))
    case Null => (t.StringField? || t.IdentifierField?) && raw == Given(Null)
    case Str(text) =>
      && (t.StringField? || t.IdentifierField?)
      && if raw.Given? && (raw.p.Str? || raw.p.Null?) then raw.p == p else text == rt.show(raw)
  }

  /** Coercion finds the one value a raw value stands for, and throws exactly when there is none. */
  lemma CoercesIff(rt: Runtime, t: FieldType, raw: Raw, p: Prim)
    ensures Coerce(rt, t, raw) == Some(p) <==> Names(rt, t, raw, p)
  {
  }

  /** A record's cell under one of the operators that compare it with a value of the field's type. */
  predicate Compares(js: Js, o: Operator, cell: Cell, p: Prim)
    requires o in {Equals, NotEquals} || ComparesNumbers(o)
  {
    if o == Equals then Stands(js, cell, p) && !p.Null?
    else if o == NotEquals then !Nullish(cell) && !Stands(js, cell, p)
    else cell.Scalar? && cell.p.Num? && p.Num? && NumberTest(o, cell.p.n, p.n)
  }

  /** A value the gates let through with the operator: any but null for equality, a number for an ordering. */
  predicate Fitting(t: FieldType, o: Operator, p: Prim) {
    if o in {Equals, NotEquals} then !p.Null? else t.NumberField?
  }

  /**
   * The clause, compiled, passes the gates exactly when the raw value stands for a
   * fitting value, and then matches a record exactly as its cell compares with
   * that value.
   */
  ghost predicate DecidedBy(rt: Runtime, fields: Fields, c: Clause, raw: Raw, compiled: Result<Node, ClauseError>)
    requires c.field in fields
    requires var o := c.operator.GetOr(Equals); o in {Equals, NotEquals} || ComparesNumbers(o)
  {
    var t, o := fields[c.field], c.operator.GetOr(Equals);
    && (compiled.Ok? && PassesGates(fields, compiled.value) <==> exists p :: Names(rt, t, raw, p) && Fitting(t, o, p))
    && forall p, r: Record :: Names(rt, t, raw, p) && Fitting(t, o, p) && RecordFits(fields, r) ==>
         compiled.Ok? && (Evaluate(rt.js, r, compiled.value) <==> Compares(rt.js, o, CellOf(r, c.field), p))
  }

  /** The value the compiler resolves decides. */
  lemma ValueDecides(rt: Runtime, ctx: Context, fields: Fields, c: Clause, raw: Raw)
    requires RoundTrips(rt.js) && c.field in fields
    requires var o := c.operator.GetOr(Equals); o in {Equals, NotEquals} || ComparesNumbers(o)
    requires Resolved(ctx, c) == raw && !AttributeMissing(ctx, c)
    ensures DecidedBy(rt, fields, c, raw, ClauseToPredicate(rt, ctx, fields, c))
  {
    var t, o, compiled := fields[c.field], c.operator.GetOr(Equals), ClauseToPredicate(rt, ctx, fields, c);
    var coerced := Coerce(rt, t, raw);
    ClauseAcceptedIff(rt, ctx, fields, c);
    hide ClauseToPredicate, PassesGates, Evaluate, Coerce, Names;
    if coerced.Some? {
      CoercesIff(rt, t, raw, coerced.value);
    }
    forall p | Names(rt, t, raw, p) ensures coerced == Some(p) {
      CoercesIff(rt, t, raw, p);
    }
    forall p, r: Record | Names(rt, t, raw, p) && Fitting(t, o, p) && RecordFits(fields, r)
      ensures compiled.Ok? && (Evaluate(rt.js, r, compiled.value) <==> Compares(rt.js, o, CellOf(r, c.field), p))
    {
      CompiledClauseMeansTheClause(rt, ctx, fields, c, r);
    }
  }

  /**
   * A clause that names one of the five user attributes: with a value for it in
   * the context that value decides, whatever the clause carries itself, and
   * without one the clause is rejected.
   */
  lemma AttributeDecides(rt: Runtime, ctx: Context, fields: Fields, c: Clause, name: string)
    requires RoundTrips(rt.js) && c.field in fields
    requires var o := c.operator.GetOr(Equals); o in {Equals, NotEquals} || ComparesNumbers(o)
    requires c.userAttr == Some(name)
    requires name in {"user.id", "user.roleId", "user.branchId", "user.departmentId", "user.tenantId"}
    ensures name in ctx && ctx[name] != Undefined ==>
              DecidedBy(rt, fields, c, ctx[name], ClauseToPredicate(rt, ctx, fields, c))
    ensures name !in ctx || ctx[name] == Undefined ==>
              ClauseToPredicate(rt, ctx, fields, c) == Err(MissingAttribute)
    ensures forall own: Raw ::
              ClauseToPredicate(rt, ctx, fields, c.(value := own)) == ClauseToPredicate(rt, ctx, fields, c)
  {
    if name in ctx && ctx[name] != Undefined { ValueDecides(rt, ctx, fields, c, ctx[name]); }
  }

  /** A clause that names no attribute is decided by its own value, whoever asks. */
  lemma OwnValueDecides(rt: Runtime, ctx: Context, fields: Fields, c: Clause)
    requires RoundTrips(rt.js) && c.field in fields
    requires var o := c.operator.GetOr(Equals); o in {Equals, NotEquals} || ComparesNumbers(o)
    requires c.userAttr == None || c.userAttr == Some("")
    ensures DecidedBy(rt, fields, c, c.value, ClauseToPredicate(rt, ctx, fields, c))
  {
    ValueDecides(rt, ctx, fields, c, c.value);
  }

  /** A name outside the five stands for no value at all; only text fields coerce that to something. */
  lemma UnknownAttributeDecides(rt: Runtime, ctx: Context, fields: Fields, c: Clause, name: string)
    requires RoundTrips(rt.js) && c.field in fields
    requires var o := c.operator.GetOr(Equals); o in {Equals, NotEquals} || ComparesNumbers(o)
    requires c.userAttr == Some(name) && name != ""
    requires name !in {"user.id", "user.roleId", "user.branchId", "user.departmentId", "user.tenantId"}
    ensures DecidedBy(rt, fields, c, Undefined, ClauseToPredicate(rt, ctx, fields, c))
  {
    ValueDecides(rt, ctx, fields, c, Undefined);
  }

  // ----- Lists and ranges, which compile although no gate lets them through -----

  /** The texts of a list, each as the clause carries it. */
  function AsGiven(texts: seq<string>): seq<Raw> {
    seq(|texts|, i requires 0 <= i < |texts| => Given(Str(texts[i])))
  }

  function Strings(texts: seq<string>): (r: seq<Prim>)
    ensures |r| == |texts|
    ensures forall text :: Str(text) in r <==> text in texts
    ensures forall p :: p in r ==> p.Str? && p.text in texts
  {
    var r := seq(|texts|, i requires 0 <= i < |texts| => Str(texts[i]));
    assert forall i :: 0 <= i < |texts| ==> r[i] == Str(texts[i]) && r[i] in r;
    r
  }

  lemma {:induction false} TextsCoerce(rt: Runtime, t: FieldType, texts: seq<string>)
    requires t.StringArrayField? || t.StringField? || t.IdentifierField?
    ensures CoerceList(rt, t, AsGiven(texts)) == Some(Strings(texts))
  {
    if texts != [] {
      var n := |texts| - 1;
      TextsCoerce(rt, t, texts[..n]);
      assert AsGiven(texts)[..n] == AsGiven(texts[..n]);
      assert Strings(texts) == Strings(texts[..n]) + [Str(texts[n])];
    }
  }

  /**
   * A list clause on an array field: an empty list matches no record, "any of" the
   * arrays that share a text with the list, "all of" those that hold all of it.
   * On a text field "one of" matches the texts listed.
   */
  lemma ListClauseMeans(rt: Runtime, ctx: Context, fields: Fields, c: Clause, listed: seq<string>, held: seq<string>,
      r: Record)
    requires c.field in fields && c.values == Some(AsGiven(listed)) && c.operator.Some?
    requires || (fields[c.field].StringArrayField? && CellOf(r, c.field) == Items(Strings(held))
                 && c.operator.value in {AnyOf, AllOf})
             || ((fields[c.field].StringField? || fields[c.field].IdentifierField?)
                 && |held| == 1 && CellOf(r, c.field) == Scalar(Str(held[0])) && c.operator == Some(OneOf))
    ensures var compiled := ClauseToPredicate(rt, ctx, fields, c);
            && compiled.Ok?
            && (Evaluate(rt.js, r, compiled.value) <==>
                  if c.operator.value == AnyOf then exists text :: text in listed && text in held
                  else if c.operator.value == AllOf then
                    listed != [] && forall text :: text in listed ==> text in held
                  else held[0] in listed)
  {
    ListClauseCompiles(rt, ctx, fields, c, listed);
    hide ClauseToPredicate, Strings;
    if listed == [] {
      assert EvalAny(rt.js, r, []).Fails?;
    } else if c.operator.value == OneOf {
      OneOfMeans(rt.js, listed, held[0]);
    } else {
      ListsMean(rt.js, listed, held);
    }
  }

  function ListOperation(o: Operator): Op {
    if o == AnyOf then IncludesAny else if o == AllOf then IncludesAll else In
  }

  lemma ListClauseCompiles(rt: Runtime, ctx: Context, fields: Fields, c: Clause, listed: seq<string>)
    requires c.field in fields && c.values == Some(AsGiven(listed))
    requires fields[c.field].StringArrayField? || fields[c.field].StringField? || fields[c.field].IdentifierField?
    requires c.operator.Some? && c.operator.value in {AnyOf, AllOf, OneOf}
    ensures ClauseToPredicate(rt, ctx, fields, c)
            == Ok(if listed == [] then Or([])
                  else Condition(c.field, ListOperation(c.operator.value), Many(Strings(listed))))
  {
    TextsCoerce(rt, fields[c.field], listed);
  }

  lemma OneOfMeans(js: Js, listed: seq<string>, held: string)
    ensures Predicates.Leaf(js, Scalar(Str(held)), In, Many(Strings(listed))).Holds? <==> held in listed
  {
    assert held in listed ==> SamePrim(js, Str(held), Str(held));
  }

  lemma ListsMean(js: Js, listed: seq<string>, held: seq<string>)
    ensures Predicates.Leaf(js, Items(Strings(held)), IncludesAny, Many(Strings(listed))).Holds?
        <==> exists text :: text in listed && text in held
    ensures Predicates.Leaf(js, Items(Strings(held)), IncludesAll, Many(Strings(listed))).Holds?
        <==> forall text :: text in listed ==> text in held
  {
    var items, ps := Strings(held), Strings(listed);
    forall p | p in ps ensures IncludesValue(js, items, p) <==> p.text in held {
      if p.text in held { assert Str(p.text) in items && SamePrim(js, Str(p.text), p); }
    }
    forall text | text in listed ensures IncludesValue(js, items, Str(text)) <==> text in held {
      assert Str(text) in ps;
    }
  }

  /** A range clause on a text field: the bounds are inclusive, in UTF-16 order, and a missing one does not limit. */
  lemma RangeClauseMeans(rt: Runtime, ctx: Context, fields: Fields, c: Clause, from: Option<string>, to: Option<string>,
      held: string, r: Record)
    requires c.field in fields && (fields[c.field].StringField? || fields[c.field].IdentifierField?)
    requires c.operator == Some(BetweenOp) && c.userAttr.None? && (from.Some? || to.Some?)
    requires var raws := (if from.Some? then Given(Str(from.value)) else Undefined,
                          if to.Some? then Given(Str(to.value)) else Undefined);
             c.value == Object(raws.0, raws.1) || c.value == List([raws.0, raws.1])
    requires CellOf(r, c.field) == Scalar(Str(held))
    ensures var compiled := ClauseToPredicate(rt, ctx, fields, c);
            && compiled.Ok?
            && (Evaluate(rt.js, r, compiled.value) <==>
                  && (from.Some? ==> Text.Compare(Text.Utf16(held), Text.Utf16(from.value)) >= 0)
                  && (to.Some? ==> Text.Compare(Text.Utf16(held), Text.Utf16(to.value)) <= 0))
  {
    RangeClauseCompiles(rt, ctx, fields, c, from, to);
    BetweenTexts(rt.js, from, to, held);
    hide ClauseToPredicate, Predicates.Leaf;
  }

  function Bounding(bound: Option<string>): Option<Prim> {
    if bound.Some? then Some(Str(bound.value)) else None
  }

  lemma BetweenTexts(js: Js, from: Option<string>, to: Option<string>, held: string)
    ensures Predicates.Leaf(js, Scalar(Str(held)), Between, Range(Bounding(from), Bounding(to))).Holds? <==>
            && (from.Some? ==> Text.Compare(Text.Utf16(held), Text.Utf16(from.value)) >= 0)
            && (to.Some? ==> Text.Compare(Text.Utf16(held), Text.Utf16(to.value)) <= 0)
  {
  }

  lemma RangeClauseCompiles(rt: Runtime, ctx: Context, fields: Fields, c: Clause, from: Option<string>,
      to: Option<string>)
    requires c.field in fields && (fields[c.field].StringField? || fields[c.field].IdentifierField?)
    requires c.operator == Some(BetweenOp) && c.userAttr.None? && (from.Some? || to.Some?)
    requires var raws := (if from.Some? then Given(Str(from.value)) else Undefined,
                          if to.Some? then Given(Str(to.value)) else Undefined);
             c.value == Object(raws.0, raws.1) || c.value == List([raws.0, raws.1])
    ensures ClauseToPredicate(rt, ctx, fields, c)
            == Ok(Condition(c.field, Between, Range(Bounding(from), Bounding(to))))
  {
    hide Predicates.Leaf;
  }

  /**
   * A list clause without a list stands for the list of its one value: the value
   * the context gives for the attribute it names, or its own if it names none;
   * and for the empty list when there is no such value.
   */
  lemma ListOfOneValue(rt: Runtime, ctx: Context, fields: Fields, c: Clause, raw: Raw)
    requires c.values.None? && c.operator.Some? && c.operator.value in {AnyOf, AllOf, OneOf}
    requires if c.userAttr == None || c.userAttr == Some("") then raw == c.value
             else raw == if && c.userAttr.value in {"user.id", "user.roleId", "user.branchId", "user.departmentId",
                               "user.tenantId"}
                            && c.userAttr.value in ctx then ctx[c.userAttr.value] else Undefined
    ensures ClauseToPredicate(rt, ctx, fields, c)
            == ClauseToPredicate(rt, ctx, fields, c.(values := Some(if raw == Undefined then [] else [raw])))
  {
    hide CoerceList;
  }

  /** The text tests of a clause over texts: somewhere within, in front, or at the end. */
  lemma TextClauseMeans(rt: Runtime, ctx: Context, fields: Fields, c: Clause, text: string, held: string, r: Record)
    requires c.field in fields && (fields[c.field].StringField? || fields[c.field].IdentifierField?)
    requires c.operator.Some? && c.operator.value in {ContainsText, StartsWithText, EndsWithText}
    requires c.userAttr.None? && c.value == Given(Str(text)) && CellOf(r, c.field) == Scalar(Str(held))
    ensures var compiled := ClauseToPredicate(rt, ctx, fields, c);
            && compiled.Ok?
            && (Evaluate(rt.js, r, compiled.value) <==>
                  if c.operator.value == ContainsText then
                    exists i :: 0 <= i <= |held| - |text| && held[i..][..|text|] == text
                  else if c.operator.value == StartsWithText then |text| <= |held| && held[..|text|] == text
                  else |text| <= |held| && held[|held| - |text|..] == text)
    ensures ClauseToPredicate(rt, ctx, fields, c.(value := Given(Null))) == Err(NeedsText)
  {
    hide SamePrim, Order, IncludesValue;
    var op := if c.operator.value == ContainsText then Contains
              else if c.operator.value == StartsWithText then StartsWith else EndsWith;
    assert ClauseToPredicate(rt, ctx, fields, c) == Ok(Condition(c.field, op, One(Str(text))));
  }

  /** A field is empty when it is missing, null, the empty text or the empty list, and otherwise it is not. */
  lemma EmptyClauseMeans(rt: Runtime, ctx: Context, fields: Fields, c: Clause, r: Record)
    requires c.field in fields && (c.operator == Some(Empty) || c.operator == Some(NotEmpty))
    ensures var compiled, cell := ClauseToPredicate(rt, ctx, fields, c), CellOf(r, c.field);
            var empty := cell == Missing || cell == Scalar(Null) || cell == Scalar(Str("")) || cell == Items([]);
            compiled.Ok? && (Evaluate(rt.js, r, compiled.value) <==> empty == (c.operator == Some(Empty)))
  {
  }
}
