/**
 * Policy condition trees: their compilation to predicates, the gates a policy
 * passes before activation, and the durable form that is stored.
 */
module PolicyConditions {
  import opened Common
  import opened Predicates
  import opened SqlPredicates

  /** A value of a clause before coercion. */
  datatype Raw = Undefined | Given(p: Prim) | List(items: seq<Raw>) | Object(from: Raw, to: Raw)

  /** What else the runtime decides: decimal literals, the YYYY-MM-DD form, and String(value). */
  datatype Runtime = Runtime(
    js: Js,
    decimal: string -> Option<real>,
    dayOnly: string -> bool,
    show: Raw -> string)

  datatype Operator =
    | Equals | NotEquals | ContainsText | StartsWithText | EndsWithText | Empty | NotEmpty
    | GreaterThan | LessThan | GreaterOrEqual | LessOrEqual
    | True | False | IsNullOp | IsNotNullOp
    | AnyOf | AllOf | Before | After | BetweenOp | OneOf

  datatype Clause = Clause(
    field: string,
    operator: Option<Operator>,
    value: Raw,
    values: Option<seq<Raw>>,
    userAttr: Option<string>)

  datatype Logic = AND | OR

  datatype Tree = Leaf(clause: Clause) | Group(logic: Logic, conditions: seq<Tree>)

  type Context = map<string, Raw>

  const USER_ATTRIBUTES := {"user.id", "user.roleId", "user.branchId", "user.departmentId", "user.tenantId"}

  datatype ClauseError = UnknownField | MissingAttribute | BadValue | BadRange | NeedsText

  // ----- Coercion -----

  /** The value in the field's type; None when coercion throws. */
  function Coerce(rt: Runtime, t: FieldType, raw: Raw): Option<Prim> {
    match t
    case NumberField =>
      if raw.Given? && raw.p.Num? then Some(raw.p)
      else if raw.Given? && raw.p.Str? && rt.decimal(raw.p.text).Some? then Some(Num(rt.decimal(raw.p.text).value))
      else None
    case BooleanField =>
      if raw.Given? && raw.p.Bool? then Some(raw.p)
      else if raw == Given(Str("true")) then Some(Bool(true))
      else if raw == Given(Str("false")) then Some(Bool(false))
      else None
    case DateField => CoerceDate(rt, raw, true)
    case DateTimeField => CoerceDate(rt, raw, false)
    case StringArrayField => None
    case StringField | IdentifierField =>
      if raw == Given(Null) then Some(Null)
      else if raw.Given? && raw.p.Str? then Some(raw.p)
      else Some(Str(rt.show(raw)))
  }

  function CoerceDate(rt: Runtime, raw: Raw, dayOnly: bool): Option<Prim> {
    if raw.Given? && raw.p.Date? then Some(raw.p)
    else if raw.Given? && raw.p.Str? && (dayOnly ==> rt.dayOnly(raw.p.text)) && rt.js.parse(raw.p.text).Some? then
      Some(Date(rt.js.parse(raw.p.text).value))
    else None
  }

  /** Every value coerced, or None when one of them does not coerce. Array fields take strings as they are. */
  function CoerceList(rt: Runtime, t: FieldType, raws: seq<Raw>): (r: Option<seq<Prim>>)
    ensures r.Some? ==> |r.value| == |raws|
  {
    if raws == [] then Some([])
    else
      var init := CoerceList(rt, t, raws[..|raws| - 1]);
      var last := raws[|raws| - 1];
      var one := if !t.StringArrayField? then Coerce(rt, t, last)
                 else if last.Given? && last.p.Str? then Some(last.p) else None;
      if init.Some? && one.Some? then Some(init.value + [one.value]) else None
  }

  /** The list built value by value, stopping at the first that does not coerce. */
  method CoerceEach(rt: Runtime, t: FieldType, raws: seq<Raw>) returns (r: Option<seq<Prim>>)
    ensures r == CoerceList(rt, t, raws)
  {
    var coerced: seq<Prim> := [];
    for i := 0 to |raws|
      invariant CoerceList(rt, t, raws[..i]) == Some(coerced)
    {
      assert raws[..i + 1][..i] == raws[..i];
      var one := if !t.StringArrayField? then Coerce(rt, t, raws[i])
                 else if raws[i].Given? && raws[i].p.Str? then Some(raws[i].p) else None;
      if one.None? {
        StopsAtTheFirst(rt, t, raws, i);
        return None;
      }
      coerced := coerced + [one.value];
    }
    assert raws[..|raws|] == raws;
    return Some(coerced);
  }

  lemma {:induction false} StopsAtTheFirst(rt: Runtime, t: FieldType, raws: seq<Raw>, i: nat)
    requires i < |raws| && CoerceList(rt, t, raws[..i + 1]).None?
    ensures CoerceList(rt, t, raws).None?
  {
    if i + 1 < |raws| {
      assert raws[..|raws| - 1][..i + 1] == raws[..i + 1];
      StopsAtTheFirst(rt, t, raws[..|raws| - 1], i);
    } else {
      assert raws[..i + 1] == raws;
    }
  }

  // ----- Clauses -----

  /** The clause's own value, or the user attribute it names. An empty name counts as none. */
  function Resolved(ctx: Context, c: Clause): Raw {
    if c.userAttr.Some? && c.userAttr.value != "" then
      (if c.userAttr.value in USER_ATTRIBUTES && c.userAttr.value in ctx then ctx[c.userAttr.value] else Undefined)
    else c.value
  }

  predicate IsListOperator(o: Operator) {
    o in {AnyOf, AllOf, OneOf}
  }

  /** Operators that take no value. */
  predicate IsTestOperator(o: Operator) {
    o in {Empty, NotEmpty, True, False, IsNullOp, IsNotNullOp}
  }

  function TestOp(o: Operator): Op
    requires IsTestOperator(o)
  {
    match o
    case Empty => IsEmpty
    case NotEmpty => IsNotEmpty
    case True => IsTrue
    case False => IsFalse
    case IsNullOp => IsNull
    case IsNotNullOp => IsNotNull
  }

  /** A known attribute without a value; list operators are exempt. */
  predicate AttributeMissing(ctx: Context, c: Clause) {
    c.userAttr.Some? && c.userAttr.value in USER_ATTRIBUTES && Resolved(ctx, c).Undefined?
  }

  function ListValues(ctx: Context, c: Clause): seq<Raw> {
    if c.values.Some? then c.values.value
    else if !Resolved(ctx, c).Undefined? then [Resolved(ctx, c)]
    else []
  }

  function AsPrimitive(raw: Raw): Option<Raw> {
    if raw.Given? then Some(raw) else None
  }

  /** The two bounds of a between value, when at least one of them is a primitive. */
  function RangeParts(raw: Raw): Option<(Option<Raw>, Option<Raw>)> {
    var parts :=
      if raw.List? && |raw.items| == 2 then (AsPrimitive(raw.items[0]), AsPrimitive(raw.items[1]))
      else if raw.Object? then (AsPrimitive(raw.from), AsPrimitive(raw.to))
      else (None, None);
    if parts.0.None? && parts.1.None? then None else Some(parts)
  }

  function CoerceBound(rt: Runtime, t: FieldType, bound: Option<Raw>): Option<Option<Prim>> {
    if bound.None? then Some(None)
    else
      var p := Coerce(rt, t, bound.value);
      if p.Some? then Some(p) else None
  }

  /** `value ?? values`. */
  function BetweenSource(c: Clause): Raw {
    if !(c.value.Undefined? || c.value == Given(Null)) then c.value
    else if c.values.Some? then List(c.values.value)
    else Undefined
  }

  function BetweenToPredicate(rt: Runtime, t: FieldType, c: Clause): Result<Node, ClauseError> {
    var parts := RangeParts(BetweenSource(c));
    if parts.None? then Err(BadRange)
    else
      var from, to := CoerceBound(rt, t, parts.value.0), CoerceBound(rt, t, parts.value.1);
      if from.None? || to.None? then Err(BadValue) else Ok(Condition(c.field, Between, Range(from.value, to.value)))
  }

  function ListOp(o: Operator): Op
    requires IsListOperator(o)
  {
    match o
    case AnyOf => IncludesAny
    case AllOf => IncludesAll
    case OneOf => In
  }

  function ListToPredicate(rt: Runtime, ctx: Context, t: FieldType, c: Clause, o: Operator): Result<Node, ClauseError>
    requires IsListOperator(o)
  {
    var values := CoerceList(rt, t, ListValues(ctx, c));
    if values.None? then Err(BadValue)
    else if values.value == [] then Ok(Or([]))
    else Ok(Condition(c.field, ListOp(o), Many(values.value)))
  }

  function ScalarToPredicate(c: Clause, o: Operator, p: Prim): Result<Node, ClauseError>
    requires !IsListOperator(o) && !IsTestOperator(o) && !o.BetweenOp?
  {
    match o
    case Equals => Ok(Condition(c.field, Eq, One(p)))
    case NotEquals => Ok(Condition(c.field, Neq, One(p)))
    case ContainsText => if p.Str? then Ok(Condition(c.field, Contains, One(p))) else Err(NeedsText)
    case StartsWithText => if p.Str? then Ok(Condition(c.field, StartsWith, One(p))) else Err(NeedsText)
    case EndsWithText => if p.Str? then Ok(Condition(c.field, EndsWith, One(p))) else Err(NeedsText)
    case GreaterThan | After => Ok(Condition(c.field, Gt, One(p)))
    case LessThan | Before => Ok(Condition(c.field, Lt, One(p)))
    case GreaterOrEqual => Ok(Condition(c.field, Gte, One(p)))
    case LessOrEqual => Ok(Condition(c.field, Lte, One(p)))
  }

  function ClauseToPredicate(rt: Runtime, ctx: Context, fields: Fields, c: Clause): Result<Node, ClauseError> {
    if c.field !in fields then Err(UnknownField)
    else
      var t, o := fields[c.field], c.operator.GetOr(Equals);
      if IsTestOperator(o) then Ok(Condition(c.field, TestOp(o), Absent))
      else if IsListOperator(o) then ListToPredicate(rt, ctx, t, c, o)
      else if AttributeMissing(ctx, c) then Err(MissingAttribute)
      else
        var p := Coerce(rt, t, Resolved(ctx, c));
        if p.None? then Err(BadValue)
        else if o.BetweenOp? then BetweenToPredicate(rt, t, c)
        else ScalarToPredicate(c, o, p.value)
  }

  // ----- Groups -----

  function Combine(logic: Logic, ps: seq<Node>): Node {
    if |ps| == 0 then Or([])
    else if |ps| == 1 then ps[0]
    else if logic.OR? then Or(ps)
    else And(ps)
  }

  function TreeToPredicate(rt: Runtime, ctx: Context, fields: Fields, tree: Tree): Result<Node, seq<ClauseError>>
    decreases tree
  {
    match tree
    case Leaf(c) =>
      var p := ClauseToPredicate(rt, ctx, fields, c);
      if p.Ok? then Ok(p.value) else Err([p.error])
    case Group(logic, conditions) =>
      if conditions == [] then Ok(if logic.AND? then And([]) else Or([]))
      else
        var ps := TreesToPredicates(rt, ctx, fields, conditions);
        if ps.Ok? then Ok(Combine(logic, ps.value)) else Err(ps.error)
  }

  /** The predicates of all members, or the errors of all that fail. */
  function TreesToPredicates(rt: Runtime, ctx: Context, fields: Fields,
      trees: seq<Tree>): (r: Result<seq<Node>, seq<ClauseError>>)
    ensures r.Ok? ==> |r.value| == |trees|
    ensures r.Ok? ==> forall i :: 0 <= i < |trees| ==> TreeToPredicate(rt, ctx, fields, trees[i]) == Ok(r.value[i])
    ensures r.Ok? <==> forall t :: t in trees ==> TreeToPredicate(rt, ctx, fields, t).Ok?
    decreases trees
  {
    if trees == [] then Ok([])
    else
      var first, rest := TreeToPredicate(rt, ctx, fields, trees[0]), TreesToPredicates(rt, ctx, fields, trees[1..]);
      assert forall t :: t in trees <==> t == trees[0] || t in trees[1..];
      if first.Ok? && rest.Ok? then Ok([first.value] + rest.value)
      else Err((if first.Err? then first.error else []) + if rest.Err? then rest.error else [])
  }

  /** System scope and user filters, both required. */
  function ConditionsToPredicate(rt: Runtime, ctx: Context, fields: Fields, system: Tree, user: Tree): Result<Node,
      seq<ClauseError>> {
    var s := TreeToPredicate(rt, ctx, fields, system);
    if s.Err? then s
    else
      var u := TreeToPredicate(rt, ctx, fields, user);
      if u.Err? then u else Ok(Combine(AND, [s.value, u.value]))
  }

  // ----- Gates -----

  /** The first condition, in tree order, that a gate refuses. */
  function FindFirst(p: Node, refused: (string, Op, Value) -> bool): (r: Option<Node>)
    ensures r.None? <==> AllPass(p, refused)
    decreases p
  {
    match p
    case Literal(_) => None
    case Condition(field, op, value) => if refused(field, op, value) then Some(p) else None
    case And(filters) => FindFirstOf(filters, refused)
    case Or(filters) => FindFirstOf(filters, refused)
    case Not(filter) => FindFirst(filter, refused)
  }

  function FindFirstOf(ps: seq<Node>, refused: (string, Op, Value) -> bool): (r: Option<Node>)
    ensures r.None? <==> forall p :: p in ps ==> AllPass(p, refused)
    decreases ps
  {
    if ps == [] then None
    else
      assert ps[0] in ps && forall p :: p in ps <==> p == ps[0] || p in ps[1..];
      var first := FindFirst(ps[0], refused);
      if first.Some? then first else FindFirstOf(ps[1..], refused)
  }

  /** No condition of the tree is refused. */
  predicate AllPass(p: Node, refused: (string, Op, Value) -> bool)
    decreases p
  {
    match p
    case Literal(_) => true
    case Condition(field, op, value) => !refused(field, op, value)
    case And(filters) => forall f :: f in filters ==> AllPass(f, refused)
    case Or(filters) => forall f :: f in filters ==> AllPass(f, refused)
    case Not(filter) => AllPass(filter, refused)
  }

  /** Array operators and emptiness, which persistence engines treat differently. */
  predicate NonPortable(op: Op) {
    op in {IncludesAny, IncludesAll, IsEmpty, IsNotEmpty}
  }

  /** Substring matching, and ordering of dates. */
  predicate NonPortableSecurity(fields: Fields, field: string, op: Op) {
    || op in {Contains, StartsWith, EndsWith}
    || (field in fields && IsDate(fields[field]) && op in {Gt, Lt, Gte, Lte, Between})
  }

  /** typeof value is "object", leaving out arrays and dates; null counts. */
  predicate ObjectValue(v: Value) {
    v.Range? || v == One(Null)
  }

  predicate UnsupportedCombination(fields: Fields, field: string, op: Op, v: Value) {
    field !in fields
    || (var t := fields[field];
        var scalar := !t.StringArrayField?;
        || (!scalar && op !in {IncludesAny, IncludesAll, IsEmpty, IsNotEmpty, IsNull, IsNotNull})
        || (op in {IncludesAny, IncludesAll} && scalar)
        || (op == In && (!scalar || !v.Many?))
        || (op in {Contains, StartsWith, EndsWith} && (!IsText(t) || !(v.One? && v.p.Str?)))
        || (op in {Gt, Lt, Gte, Lte, Between} && (!(t.NumberField? || IsDate(t)) || v.Many? || ObjectValue(v)))
        || (op in {IsTrue, IsFalse} && !t.BooleanField?)
        || (op in {IsEmpty, IsNotEmpty} && scalar && !IsText(t))
        || (scalar && (v.Many? || ObjectValue(v)) && op != Between))
  }

  predicate Refused(fields: Fields, field: string, op: Op, v: Value) {
    NonPortable(op) || NonPortableSecurity(fields, field, op) || UnsupportedCombination(fields, field, op, v)
  }

  // ----- Durable form -----

  function DurablePrim(js: Js, p: Prim): Prim {
    if p.Date? then Str(js.iso(p.at)) else p
  }

  function DurableBound(js: Js, bound: Option<Prim>): Option<Prim> {
    if bound.Some? then Some(DurablePrim(js, bound.value)) else None
  }

  function DurableValue(js: Js, v: Value): Value {
    match v
    case Absent => v
    case One(p) => One(DurablePrim(js, p))
    case Many(ps) => Many(seq(|ps|, i requires 0 <= i < |ps| => DurablePrim(js, ps[i])))
    case Range(from, to) => Range(DurableBound(js, from), DurableBound(js, to))
  }

  /** Every Date replaced by its ISO string. */
  function Durable(js: Js, p: Node): Node
    decreases p
  {
    match p
    case Literal(_) => p
    case Condition(field, op, value) => Condition(field, op, DurableValue(js, value))
    case And(filters) => And(DurableAll(js, filters))
    case Or(filters) => Or(DurableAll(js, filters))
    case Not(filter) => Not(Durable(js, filter))
  }

  function DurableAll(js: Js, ps: seq<Node>): (r: seq<Node>)
    ensures |r| == |ps|
    ensures forall i :: 0 <= i < |ps| ==> r[i] == Durable(js, ps[i])
    decreases ps
  {
    if ps == [] then [] else [Durable(js, ps[0])] + DurableAll(js, ps[1..])
  }

  // ----- Normalization -----

  datatype Code =
    | EffectInvalid | PriorityInvalid | ScopeInvalid | WindowInvalid | ModuleMismatch
    | CatalogInvalid | CompilationFailed | NotPortable | NotSupported

  /** An optional instant that may be an invalid date (None inside). */
  type Instant = Option<Option<int>>

  datatype Policy = Policy(
    effect: string,
    priority: Option<int>,   // None when it is not an integer
    scopeType: string,
    moduleKey: string,
    startsAt: Instant,
    endsAt: Instant,
    system: Tree,
    user: Tree)

  datatype Normalized = Accepted(compiled: Node, inactive: bool) | Rejected(codes: seq<Code>)

  const MAX_SAFE_INTEGER := 9007199254740991
  const SCOPE_TYPES := ["tenant_default", "platform_default", "role", "branch", "department", "user"]

  predicate HeaderPasses(policy: Policy, code: Code) {
    match code
    case EffectInvalid => policy.effect in {"allow", "deny"}
    case PriorityInvalid => policy.priority.Some? && -MAX_SAFE_INTEGER <= policy.priority.value <= MAX_SAFE_INTEGER
    case ScopeInvalid => policy.scopeType in SCOPE_TYPES
    case _ => true
  }

  const HEADER_CHECKS: seq<Code> := [EffectInvalid, PriorityInvalid, ScopeInvalid]

  /** Invalid dates make a window invalid; so does a start after the end. */
  predicate ValidWindow(policy: Policy) {
    && policy.startsAt != Some(None)
    && policy.endsAt != Some(None)
    && !(policy.startsAt.Some? && policy.endsAt.Some? && policy.startsAt.value.value > policy.endsAt.value.value)
  }

  predicate IsActive(policy: Policy, at: int) {
    && !(policy.startsAt.Some? && policy.startsAt.value.Some? && at < policy.startsAt.value.value)
    && !(policy.endsAt.Some? && policy.endsAt.value.Some? && at > policy.endsAt.value.value)
  }

  /** The header errors in the order they are found. */
  function HeaderErrors(policy: Policy, checks: seq<Code>): seq<Code> {
    if checks == [] then []
    else
      var last := checks[|checks| - 1];
      HeaderErrors(policy, checks[..|checks| - 1]) + if HeaderPasses(policy, last) then [] else [last]
  }

  /** The header errors are those of the effect, the priority and the scope type, in that order. */
  lemma HeaderErrorsAre(policy: Policy)
    ensures HeaderErrors(policy, HEADER_CHECKS)
            == (if policy.effect == "allow" || policy.effect == "deny" then [] else [EffectInvalid])
               + (if policy.priority.Some? && -9007199254740991 <= policy.priority.value <= 9007199254740991 then []
                  else [PriorityInvalid])
               + (if policy.scopeType in
                      {"tenant_default", "platform_default", "role", "branch", "department", "user"} then []
                  else [ScopeInvalid])
  {
    assert HEADER_CHECKS[..2] == [EffectInvalid, PriorityInvalid] && HEADER_CHECKS[..2][..1] == [EffectInvalid];
    assert [EffectInvalid][..0] == [] && HEADER_CHECKS[2] == ScopeInvalid && HEADER_CHECKS[..2][1] == PriorityInvalid;
    LastHeaderError(policy, HEADER_CHECKS);
    LastHeaderError(policy, HEADER_CHECKS[..2]);
    LastHeaderError(policy, [EffectInvalid]);
    hide HeaderErrors;
  }

  lemma LastHeaderError(policy: Policy, checks: seq<Code>)
    requires checks != []
    ensures HeaderErrors(policy, checks)
            == HeaderErrors(policy, checks[..|checks| - 1])
               + if HeaderPasses(policy, checks[|checks| - 1]) then [] else [checks[|checks| - 1]]
    ensures |checks| == 1 ==> HeaderErrors(policy, checks[..|checks| - 1]) == []
  {
  }

  /** The predicate is refused by none of the three gates. */
  predicate PassesGates(fields: Fields, p: Node) {
    AllPass(p, (field, op, v) => Refused(fields, field, op, v))
  }

  lemma {:induction false} GatesTogether(fields: Fields, p: Node)
    ensures PassesGates(fields, p) <==>
              && AllPass(p, (field, op, v) => NonPortable(op))
              && AllPass(p, (field, op, v) => NonPortableSecurity(fields, field, op))
              && AllPass(p, (field, op, v) => UnsupportedCombination(fields, field, op, v))
    decreases p
  {
    match p
    case Literal(_) =>
    case Condition(_, _, _) =>
    case And(filters) => forall f | f in filters { GatesTogether(fields, f); }
    case Or(filters) => forall f | f in filters { GatesTogether(fields, f); }
    case Not(filter) => GatesTogether(fields, filter);
  }

  /** The header checks one after the other, then the window and the module. */
  method CheckHeader(policy: Policy, moduleKey: string) returns (errors: seq<Code>)
    ensures errors
            == HeaderErrors(policy, HEADER_CHECKS)
               + (if || policy.startsAt == Some(None) || policy.endsAt == Some(None)
                     || (policy.startsAt.Some? && policy.endsAt.Some?
                         && policy.startsAt.value.value > policy.endsAt.value.value)
                  then [WindowInvalid] else [])
               + (if policy.moduleKey == moduleKey then [] else [ModuleMismatch])
  {
    errors := [];
    for i := 0 to |HEADER_CHECKS|
      invariant errors == HeaderErrors(policy, HEADER_CHECKS[..i])
    {
      LastHeaderError(policy, HEADER_CHECKS[..i + 1]);
      assert HEADER_CHECKS[..i + 1][..i] == HEADER_CHECKS[..i];
      if !HeaderPasses(policy, HEADER_CHECKS[i]) {
        errors := errors + [HEADER_CHECKS[i]];
      }
    }
    assert HEADER_CHECKS[..|HEADER_CHECKS|] == HEADER_CHECKS;
    if !ValidWindow(policy) {
      errors := errors + [WindowInvalid];
    }
    if policy.moduleKey != moduleKey {
      errors := errors + [ModuleMismatch];
    }
  }

  /**
   * Normalization. `catalogOk` says that the payload passed the catalog's own
   * check. A policy is accepted exactly when its header and window are in order,
   * its conditions compile, and no gate refuses one of them; otherwise the errors
   * of the first stage that objects are reported.
   */
  method NormalizeAbacPolicy(
    rt: Runtime, policy: Policy, moduleKey: string, fields: Fields, ctx: Context, catalogOk: bool, at: int)
    returns (r: Normalized)
    ensures var errors := HeaderErrors(policy, HEADER_CHECKS)
              + (if || policy.startsAt == Some(None) || policy.endsAt == Some(None)
                    || (policy.startsAt.Some? && policy.endsAt.Some?
                        && policy.startsAt.value.value > policy.endsAt.value.value)
                 then [WindowInvalid] else [])
              + (if policy.moduleKey == moduleKey then [] else [ModuleMismatch]);
            var compiled := ConditionsToPredicate(rt, ctx, fields, policy.system, policy.user);
            if !catalogOk then r == Rejected([CatalogInvalid])
            else if errors != [] then r == Rejected(errors)
            else if compiled.Err? then r == Rejected([CompilationFailed])
            else if !(AllPass(compiled.value, (field, op, v) => NonPortable(op))
                      && AllPass(compiled.value, (field, op, v) => NonPortableSecurity(fields, field, op)))
            then r == Rejected([NotPortable])
            else if !PassesGates(fields, compiled.value) then r == Rejected([NotSupported])
            else
              && r.Accepted? && r.compiled == Durable(rt.js, compiled.value)
              && (r.inactive <==> || (policy.startsAt.Some? && at < policy.startsAt.value.value)
                                  || (policy.endsAt.Some? && at > policy.endsAt.value.value))
  {
    hide HeaderErrors, ConditionsToPredicate, Durable, PassesGates, AllPass, NonPortable, NonPortableSecurity,
        UnsupportedCombination;
    var errors := CheckHeader(policy, moduleKey);
    if !catalogOk {
      return Rejected([CatalogInvalid]);
    }
    if errors != [] {
      return Rejected(errors);
    }
    var compiled := ConditionsToPredicate(rt, ctx, fields, policy.system, policy.user);
    if compiled.Err? {
      return Rejected([CompilationFailed]);
    }
    GatesTogether(fields, compiled.value);
    if FindFirst(compiled.value, (field, op, v) => NonPortable(op)).Some?
       || FindFirst(compiled.value, (field, op, v) => NonPortableSecurity(fields, field, op)).Some?
    {
      return Rejected([NotPortable]);
    }
    if FindFirst(compiled.value, (field, op, v) => UnsupportedCombination(fields, field, op, v)).Some? {
      return Rejected([NotSupported]);
    }
    return Accepted(Durable(rt.js, compiled.value), !IsActive(policy, at));
  }
}
