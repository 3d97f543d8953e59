/** The predicate simplifier and the guard against destructive statements without a real filter. */
module Simplifier {
  import opened Common
  import opened Predicates

  function Without(ps: seq<Node>, p: Node): (r: seq<Node>)
    ensures forall q :: q in r <==> q in ps && q != p
  {
    if ps == [] then []
    else
      assert forall q :: q in ps <==> q == ps[0] || q in ps[1..];
      (if ps[0] == p then [] else [ps[0]]) + Without(ps[1..], p)
  }

  function Simplify(p: Node): Node
    decreases p
  {
    match p
    case And(filters) => Absorb(SimplifyAll(filters), false)
    case Or(filters) => Absorb(SimplifyAll(filters), true)
    case Not(filter) =>
      var inner := Simplify(filter);
      if inner.Literal? then Literal(!inner.b) else Not(inner)
    case Literal(_) => p
    case Condition(_, _, _) => p
  }

  function SimplifyAll(ps: seq<Node>): (r: seq<Node>)
    ensures |r| == |ps|
    ensures forall i :: 0 <= i < |ps| ==> r[i] == Simplify(ps[i])
    decreases ps
  {
    if ps == [] then [] else [Simplify(ps[0])] + SimplifyAll(ps[1..])
  }

  /** A group of simplified members: `absorbing` is the literal that decides it (true for OR, false for AND). */
  function Absorb(ps: seq<Node>, absorbing: bool): Node {
    if Literal(absorbing) in ps then Literal(absorbing)
    else
      var rest := Without(ps, Literal(!absorbing));
      if |rest| == 0 then Literal(!absorbing)
      else if |rest| == 1 then rest[0]
      else if absorbing then Or(rest)
      else And(rest)
  }

  function Group(absorbing: bool, ps: seq<Node>): Node {
    if absorbing then Or(ps) else And(ps)
  }

  /** The repository's separate test for filters that match every row, and its dual. */
  predicate AlwaysTrue(p: Node)
    decreases p
  {
    match p
    case Literal(b) => b
    case And(filters) => |filters| == 0 || forall f :: f in filters ==> AlwaysTrue(f)
    case Or(filters) => |filters| > 0 && exists f :: f in filters && AlwaysTrue(f)
    case Not(filter) => AlwaysFalse(filter)
    case Condition(_, _, _) => false
  }

  predicate AlwaysFalse(p: Node)
    decreases p
  {
    match p
    case Literal(b) => !b
    case Or(filters) => |filters| == 0 || forall f :: f in filters ==> AlwaysFalse(f)
    case And(filters) => |filters| > 0 && exists f :: f in filters && AlwaysFalse(f)
    case Not(filter) => AlwaysTrue(filter)
    case Condition(_, _, _) => false
  }

  /** No literal anywhere. */
  predicate LiteralFree(p: Node)
    decreases p
  {
    match p
    case Literal(_) => false
    case Condition(_, _, _) => true
    case And(filters) => forall f :: f in filters ==> LiteralFree(f)
    case Or(filters) => forall f :: f in filters ==> LiteralFree(f)
    case Not(filter) => LiteralFree(filter)
  }

  /** Every group has two members or more. */
  predicate ProperGroups(p: Node)
    decreases p
  {
    match p
    case Literal(_) => true
    case Condition(_, _, _) => true
    case And(filters) => |filters| >= 2 && forall f :: f in filters ==> ProperGroups(f)
    case Or(filters) => |filters| >= 2 && forall f :: f in filters ==> ProperGroups(f)
    case Not(filter) => ProperGroups(filter)
  }

  // ----- Meaning -----

  /** Absorption keeps the three-valued truth of a group. */
  lemma AbsorbKeepsTruth(js: Js, r: Record, ps: seq<Node>, absorbing: bool)
    ensures Eval(js, r, Absorb(ps, absorbing)) == Eval(js, r, Group(absorbing, ps))
  {
    hide EvalAll, EvalAny, Without;
    var rest := Without(ps, Literal(!absorbing));
  }

  /** Groups whose members agree pairwise agree. */
  lemma {:induction false} PairwiseAgrees(js: Js, r: Record, ps: seq<Node>, qs: seq<Node>)
    requires |ps| == |qs| && forall i :: 0 <= i < |ps| ==> Eval(js, r, ps[i]) == Eval(js, r, qs[i])
    ensures EvalAll(js, r, ps) == EvalAll(js, r, qs)
    ensures EvalAny(js, r, ps) == EvalAny(js, r, qs)
  {
    if ps != [] {
      PairwiseAgrees(js, r, ps[..|ps| - 1], qs[..|qs| - 1]);
    }
  }

  /** Simplifying keeps the exact three-valued truth on every record. */
  lemma {:induction false} SimplifyKeepsTruth(js: Js, r: Record, p: Node)
    ensures Eval(js, r, Simplify(p)) == Eval(js, r, p)
    decreases p
  {
    match p
    case Literal(_) =>
    case Condition(_, _, _) =>
    case And(filters) =>
      forall f | f in filters { SimplifyKeepsTruth(js, r, f); }
      PairwiseAgrees(js, r, SimplifyAll(filters), filters);
      AbsorbKeepsTruth(js, r, SimplifyAll(filters), false);
    case Or(filters) =>
      forall f | f in filters { SimplifyKeepsTruth(js, r, f); }
      PairwiseAgrees(js, r, SimplifyAll(filters), filters);
      AbsorbKeepsTruth(js, r, SimplifyAll(filters), true);
    case Not(filter) => SimplifyKeepsTruth(js, r, filter);
  }

  lemma AbsorbKeepsReading(js: Js, r: Record, ps: seq<Node>, absorbing: bool)
    ensures Collapsed(js, r, Absorb(ps, absorbing)) <==> Collapsed(js, r, Group(absorbing, ps))
  {
    var rest := Without(ps, Literal(!absorbing));
    if |rest| == 1 { assert rest[0] in rest; }
  }

  /** Simplifying keeps what the SQL selects, since it keeps the two-valued reading too. */
  lemma {:induction false} SimplifyKeepsReading(js: Js, r: Record, p: Node)
    ensures Collapsed(js, r, Simplify(p)) <==> Collapsed(js, r, p)
    decreases p
  {
    match p
    case Literal(_) =>
    case Condition(_, _, _) =>
    case And(filters) =>
      forall f | f in filters { SimplifyKeepsReading(js, r, f); }
      AbsorbKeepsReading(js, r, SimplifyAll(filters), false);
    case Or(filters) =>
      forall f | f in filters { SimplifyKeepsReading(js, r, f); }
      AbsorbKeepsReading(js, r, SimplifyAll(filters), true);
    case Not(filter) => SimplifyKeepsReading(js, r, filter);
  }

  // ----- Shape -----

  /** A simplified tree is a literal, or has no literal and no group of fewer than two. */
  predicate Simple(p: Node) {
    p.Literal? || (LiteralFree(p) && ProperGroups(p))
  }

  lemma AbsorbIsSimple(ps: seq<Node>, absorbing: bool)
    requires forall p :: p in ps ==> Simple(p)
    ensures Simple(Absorb(ps, absorbing))
  {
    var rest := Without(ps, Literal(!absorbing));
    if Literal(absorbing) !in ps {
      forall q | q in rest ensures LiteralFree(q) && ProperGroups(q) {
        assert Simple(q) && (q.Literal? ==> q == Literal(absorbing) || q == Literal(!absorbing));
      }
      if |rest| == 1 { assert rest[0] in rest; }
    }
  }

  lemma {:induction false} SimplifyIsSimple(p: Node)
    ensures Simple(Simplify(p))
    decreases p
  {
    match p
    case Literal(_) =>
    case Condition(_, _, _) =>
    case And(filters) => AllSimple(filters); AbsorbIsSimple(SimplifyAll(filters), false);
    case Or(filters) => AllSimple(filters); AbsorbIsSimple(SimplifyAll(filters), true);
    case Not(filter) => SimplifyIsSimple(filter);
  }

  lemma {:induction false} AllSimple(ps: seq<Node>)
    ensures forall q :: q in SimplifyAll(ps) ==> Simple(q)
    decreases ps
  {
    forall i | 0 <= i < |ps| ensures Simple(SimplifyAll(ps)[i]) { SimplifyIsSimple(ps[i]); }
  }

  lemma {:induction false} WithoutNothing(ps: seq<Node>, p: Node)
    requires p !in ps
    ensures Without(ps, p) == ps
  {
    if ps != [] { WithoutNothing(ps[1..], p); }
  }

  lemma {:induction false} SimpleIsFixed(p: Node)
    requires Simple(p)
    ensures Simplify(p) == p
    decreases p
  {
    match p
    case Literal(_) =>
    case Condition(_, _, _) =>
    case And(filters) =>
      AllFixed(filters);
      assert forall b :: LiteralFree(Literal(b)) == false;
      WithoutNothing(filters, Literal(true));
    case Or(filters) =>
      AllFixed(filters);
      assert forall b :: LiteralFree(Literal(b)) == false;
      WithoutNothing(filters, Literal(false));
    case Not(filter) =>
      assert LiteralFree(filter) && ProperGroups(filter) && !filter.Literal?;
      SimpleIsFixed(filter);
  }

  lemma {:induction false} AllFixed(ps: seq<Node>)
    requires forall p :: p in ps ==> Simple(p)
    ensures SimplifyAll(ps) == ps
    decreases ps
  {
    forall i | 0 <= i < |ps| ensures SimplifyAll(ps)[i] == ps[i] { SimpleIsFixed(ps[i]); }
  }

  /** Simplifying twice is simplifying once. */
  lemma SimplifyIsIdempotent(p: Node)
    ensures Simplify(Simplify(p)) == Simplify(p)
  {
    SimplifyIsSimple(p);
    SimpleIsFixed(Simplify(p));
  }

  // ----- The guard -----

  lemma AbsorbLiteralIff(ps: seq<Node>, absorbing: bool)
    requires forall p :: p in ps ==> Simple(p)
    ensures Absorb(ps, absorbing) == Literal(absorbing) <==> Literal(absorbing) in ps
    ensures Absorb(ps, absorbing) == Literal(!absorbing) <==> forall p :: p in ps ==> p == Literal(!absorbing)
  {
    var rest := Without(ps, Literal(!absorbing));
    if |rest| >= 1 { assert rest[0] in rest && rest[0] in ps; }
  }

  /**
   * The simplifier yields the literal true or false exactly when the guard's
   * own recursion says always true or always false.
   */
  lemma {:induction false} GuardIsTheSimplifier(p: Node)
    ensures Simplify(p) == Literal(true) <==> AlwaysTrue(p)
    ensures Simplify(p) == Literal(false) <==> AlwaysFalse(p)
    decreases p
  {
    match p
    case Literal(_) =>
    case Condition(_, _, _) =>
    case And(filters) =>
      forall f | f in filters { GuardIsTheSimplifier(f); }
      AllSimple(filters);
      AbsorbLiteralIff(SimplifyAll(filters), false);
      MembersAre(filters);
    case Or(filters) =>
      forall f | f in filters { GuardIsTheSimplifier(f); }
      AllSimple(filters);
      AbsorbLiteralIff(SimplifyAll(filters), true);
      MembersAre(filters);
    case Not(filter) => GuardIsTheSimplifier(filter);
  }

  /** Membership among the simplified members, by member. */
  lemma MembersAre(ps: seq<Node>)
    ensures forall p :: p in ps ==> Simplify(p) in SimplifyAll(ps)
    ensures forall q :: q in SimplifyAll(ps) ==> exists p :: p in ps && Simplify(p) == q
  {
    forall p | p in ps ensures Simplify(p) in SimplifyAll(ps) {
      var i :| 0 <= i < |ps| && ps[i] == p;
      assert SimplifyAll(ps)[i] in SimplifyAll(ps);
    }
    forall q | q in SimplifyAll(ps) ensures exists p :: p in ps && Simplify(p) == q {
      var i :| 0 <= i < |ps| && SimplifyAll(ps)[i] == q;
      assert ps[i] in ps;
    }
  }

  /** Deleting or updating by a filter the guard refuses would have touched every row, by either reading. */
  lemma RefusedFilterMatchesEveryRow(js: Js, r: Record, p: Node)
    requires AlwaysTrue(p)
    ensures Evaluate(js, r, p) && Collapsed(js, r, p)
  {
    GuardIsTheSimplifier(p);
    SimplifyKeepsTruth(js, r, p);
    SimplifyKeepsReading(js, r, p);
  }
}
