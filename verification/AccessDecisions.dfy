/**
 * Tiered policy decisions: the record decision, taken in memory, and the scope
 * filter, compiled to SQL, that is meant to select the records it allows.
 */
module AccessDecisions {
  import opened Common
  import opened Predicates
  import opened SqlPredicates
  import SqlProofs

  datatype Effect = Allow | Deny

  datatype Mode = Show | Mask | Omit

  datatype Policy = Policy(
    moduleKey: string,
    actions: seq<string>,
    effect: Effect,
    priority: int,
    condition: Node,
    read: Option<map<string, Mode>>,
    write: seq<string>)

  datatype Reason = AllowMatched | DenyMatched | NoneMatched | NoneRelevant

  datatype Decision = Decision(
    allowed: bool,
    reason: Reason,
    priority: Option<int>,
    matched: seq<Policy>,
    deciding: seq<Policy>)

  // ----- The record decision -----

  predicate Descending(ns: seq<int>) {
    forall i, j :: 0 <= i < j < |ns| ==> ns[i] > ns[j]
  }

  /** Insert a priority unless it is there. */
  function Insert(n: int, ns: seq<int>): (r: seq<int>)
    requires Descending(ns)
    ensures Descending(r)
    ensures forall m :: m in r <==> m == n || m in ns
  {
    if ns == [] || n > ns[0] then [n] + ns
    else if n == ns[0] then ns
    else
      assert ns == [ns[0]] + ns[1..];
      assert forall m :: m in ns[1..] ==> m < ns[0];
      var rest := Insert(n, ns[1..]);
      assert forall i :: 0 <= i < |rest| ==> rest[i] in rest;
      [ns[0]] + rest
  }

  /** The distinct priorities, highest first. */
  function Priorities(ps: seq<Policy>): (r: seq<int>)
    ensures Descending(r)
    ensures forall n :: n in r <==> exists p :: p in ps && p.priority == n
  {
    if ps == [] then []
    else
      assert forall p :: p in ps <==> p == ps[0] || p in ps[1..];
      Insert(ps[0].priority, Priorities(ps[1..]))
  }

  function Tier(ps: seq<Policy>, n: int): (r: seq<Policy>)
    ensures forall p :: p in r <==> p in ps && p.priority == n
  {
    Where(ps, (p: Policy) => p.priority == n)
  }

  function WithEffect(ps: seq<Policy>, effect: Effect): (r: seq<Policy>)
    ensures forall p :: p in r <==> p in ps && p.effect == effect
  {
    Where(ps, (p: Policy) => p.effect == effect)
  }

  function Decide(ps: seq<Policy>, matches: Policy -> bool, default: Effect): Decision {
    if ps == [] then Decision(default.Allow?, NoneRelevant, None, [], [])
    else DecideTiers(ps, matches, default, Priorities(ps))
  }

  /** The first tier with a match decides, and in it a deny wins. */
  function DecideTiers(ps: seq<Policy>, matches: Policy -> bool, default: Effect, tiers: seq<int>): Decision {
    if tiers == [] then Decision(default.Allow?, NoneMatched, None, [], [])
    else
      var matched := Where(Tier(ps, tiers[0]), matches);
      if matched == [] then DecideTiers(ps, matches, default, tiers[1..])
      else
        var denies := WithEffect(matched, Deny);
        if denies != [] then Decision(false, DenyMatched, Some(tiers[0]), matched, denies)
        else Decision(true, AllowMatched, Some(tiers[0]), matched, matched)
  }

  /** n is the highest priority at which a policy matches. */
  predicate IsTop(ps: seq<Policy>, matches: Policy -> bool, n: int) {
    && (exists p :: p in ps && matches(p) && p.priority == n)
    && (forall p :: p in ps && matches(p) ==> p.priority <= n)
  }

  /** Some matching policy of this effect stands at this priority. */
  predicate MatchedAt(ps: seq<Policy>, matches: Policy -> bool, n: int, effect: Effect) {
    exists p :: p in ps && matches(p) && p.priority == n && p.effect == effect
  }

  lemma NoElements(xs: seq<Policy>)
    ensures xs == [] <==> forall x :: x !in xs
  {
    if xs != [] { assert xs[0] in xs; }
  }

  lemma {:induction false} TiersFindTheTop(ps: seq<Policy>, matches: Policy -> bool, default: Effect, tiers: seq<int>,
      n: int)
    requires Descending(tiers) && IsTop(ps, matches, n) && n in tiers
    ensures var matched := Where(Tier(ps, n), matches);
            && matched != []
            && DecideTiers(ps, matches, default, tiers)
               == (if WithEffect(matched, Deny) != [] then
                 Decision(false, DenyMatched, Some(n), matched, WithEffect(matched, Deny))
                   else Decision(true, AllowMatched, Some(n), matched, matched))
  {
    var matched := Where(Tier(ps, tiers[0]), matches);
    if tiers[0] == n {
      var p :| p in ps && matches(p) && p.priority == n;
      assert p in matched;
    } else {
      NoElements(matched);
      TiersFindTheTop(ps, matches, default, tiers[1..], n);
    }
  }

  lemma {:induction false} TiersFindNothing(ps: seq<Policy>, matches: Policy -> bool, default: Effect, tiers: seq<int>)
    requires forall p :: p in ps ==> !matches(p)
    ensures DecideTiers(ps, matches, default, tiers) == Decision(default.Allow?, NoneMatched, None, [], [])
  {
    if tiers != [] {
      NoElements(Where(Tier(ps, tiers[0]), matches));
      TiersFindNothing(ps, matches, default, tiers[1..]);
    }
  }

  lemma {:induction false} TopExists(ps: seq<Policy>, matches: Policy -> bool) returns (n: int)
    requires exists p :: p in ps && matches(p)
    ensures IsTop(ps, matches, n)
  {
    var init, last := ps[..|ps| - 1], ps[|ps| - 1];
    assert forall p :: p in ps <==> p in init || p == last;
    if exists p :: p in init && matches(p) {
      n := TopExists(init, matches);
      if matches(last) && last.priority > n { n := last.priority; }
    } else {
      n := last.priority;
    }
  }

  lemma DeniesIff(ps: seq<Policy>, matches: Policy -> bool, n: int)
    ensures WithEffect(Where(Tier(ps, n), matches), Deny) != [] <==> MatchedAt(ps, matches, n, Deny)
  {
    var denies := WithEffect(Where(Tier(ps, n), matches), Deny);
    if denies != [] { assert denies[0] in denies; }
  }

  /** With a match, the highest matching tier decides, and any deny in it wins. */
  lemma DecisionAtTop(ps: seq<Policy>, matches: Policy -> bool, default: Effect, n: int)
    requires IsTop(ps, matches, n)
    ensures var d := Decide(ps, matches, default);
            && d.priority == Some(n)
            && d.matched == Where(Tier(ps, n), matches)
            && d.reason == (if MatchedAt(ps, matches, n, Deny) then DenyMatched else AllowMatched)
            && d.allowed == !MatchedAt(ps, matches, n, Deny)
            && d.deciding == (if d.allowed then d.matched else WithEffect(d.matched, Deny))
  {
    TiersFindTheTop(ps, matches, default, Priorities(ps), n);
    DeniesIff(ps, matches, n);
  }

  /** Without a match the default decides. */
  lemma DecisionWithoutMatch(ps: seq<Policy>, matches: Policy -> bool, default: Effect)
    requires forall p :: p in ps ==> !matches(p)
    ensures Decide(ps, matches, default)
            == Decision(default.Allow?, if ps == [] then NoneRelevant else NoneMatched, None, [], [])
  {
    TiersFindNothing(ps, matches, default, Priorities(ps));
  }

  /** The decision, its reason and its tier depend on which policies there are, not on their order. */
  lemma DecisionIgnoresOrder(ps: seq<Policy>, qs: seq<Policy>, matches: Policy -> bool, default: Effect)
    requires forall p :: p in ps <==> p in qs
    ensures var d, e := Decide(ps, matches, default), Decide(qs, matches, default);
            d.allowed == e.allowed && d.reason == e.reason && d.priority == e.priority
  {
    if exists p :: p in ps && matches(p) {
      var n := TopExists(ps, matches);
      assert IsTop(qs, matches, n);
      assert MatchedAt(ps, matches, n, Deny) <==> MatchedAt(qs, matches, n, Deny);
      DecisionAtTop(ps, matches, default, n);
      DecisionAtTop(qs, matches, default, n);
    } else {
      if ps == [] { NoElements(qs); }
      if qs == [] { NoElements(ps); }
      DecisionWithoutMatch(ps, matches, default);
      DecisionWithoutMatch(qs, matches, default);
    }
  }

  // ----- The scope filter -----

  function CombineOr(ps: seq<Node>): Node {
    if |ps| == 1 then ps[0] else Or(ps)
  }

  function CombineAnd(ps: seq<Node>): Node {
    if |ps| == 1 then ps[0] else And(ps)
  }

  function Conditions(ps: seq<Policy>): (r: seq<Node>)
    ensures |r| == |ps|
    ensures forall i :: 0 <= i < |ps| ==> r[i] == ps[i].condition
  {
    seq(|ps|, i requires 0 <= i < |ps| => ps[i].condition)
  }

  /** No policy of these tiers matches. */
  function NoneOf(ps: seq<Policy>, tiers: seq<int>): Node {
    if tiers == [] then And([])
    else
      var n := tiers[|tiers| - 1];
      CombineAnd([NoneOf(ps, tiers[..|tiers| - 1]), Not(CombineOr(Conditions(Tier(ps, n))))])
  }

  /** Nothing above the tier matches, an allow in it does, and no deny in it does. */
  function TierClause(noHigher: Node, tier: seq<Policy>): Node {
    CombineAnd([noHigher, CombineOr(Conditions(WithEffect(tier, Allow))),
      Not(CombineOr(Conditions(WithEffect(tier, Deny))))])
  }

  function TierClauses(ps: seq<Policy>, tiers: seq<int>): (r: seq<Node>)
    ensures |r| == |tiers|
  {
    if tiers == [] then []
    else
      var init, n := tiers[..|tiers| - 1], tiers[|tiers| - 1];
      TierClauses(ps, init) + [TierClause(NoneOf(ps, init), Tier(ps, n))]
  }

  function TieredOutcome(ps: seq<Policy>): Node {
    if ps == [] then Or([]) else CombineOr(TierClauses(ps, Priorities(ps)))
  }

  /** One entry a priority, each with its policies in list order. */
  ghost predicate Groups(grouped: map<int, seq<Policy>>, ps: seq<Policy>) {
    && (forall n :: n in grouped ==> grouped[n] == Tier(ps, n))
    && (forall p :: p in ps ==> p.priority in grouped)
    && (forall n :: n !in grouped ==> Tier(ps, n) == [])
  }

  lemma TierGrows(ps: seq<Policy>, p: Policy, n: int)
    ensures Tier(ps + [p], n) == Tier(ps, n) + if p.priority == n then [p] else []
  {
    assert (ps + [p])[..|ps|] == ps;
  }

  method GroupByPriority(ps: seq<Policy>) returns (grouped: map<int, seq<Policy>>)
    ensures Groups(grouped, ps)
  {
    grouped := map[];
    for i := 0 to |ps|
      invariant Groups(grouped, ps[..i])
    {
      var n := ps[i].priority;
      assert ps[..i + 1] == ps[..i] + [ps[i]];
      forall m { TierGrows(ps[..i], ps[i], m); }
      grouped := grouped[n := (if n in grouped then grouped[n] else []) + [ps[i]]];
    }
    assert ps[..|ps|] == ps;
  }

  /** The filter as it is built: policies grouped by priority, then one pass over the tiers, highest first. */
  method BuildTieredPolicyOutcome(ps: seq<Policy>) returns (filter: Node)
    ensures filter == TieredOutcome(ps)
  {
    if ps == [] {
      return Or([]);
    }
    hide Priorities, Conditions, CombineOr, CombineAnd, WithEffect;
    var grouped := GroupByPriority(ps);
    var tiers := Priorities(ps);
    var clauses: seq<Node> := [];
    var noHigher := And([]);
    for i := 0 to |tiers|
      invariant clauses == TierClauses(ps, tiers[..i])
      invariant noHigher == NoneOf(ps, tiers[..i])
    {
      assert tiers[..i + 1][..i] == tiers[..i] && tiers[i] in tiers;
      var tier := grouped[tiers[i]];
      clauses := clauses + [TierClause(noHigher, tier)];
      noHigher := CombineAnd([noHigher, Not(CombineOr(Conditions(tier)))]);
    }
    assert tiers[..|tiers|] == tiers;
    return CombineOr(clauses);
  }

  // ----- What the filter selects -----

  /** A policy that applies by the two-valued reading, which is how SQL reads it. */
  predicate Reads(js: Js, r: Record, p: Policy) {
    Collapsed(js, r, p.condition)
  }

  predicate AnyReads(js: Js, r: Record, ps: seq<Policy>) {
    exists p :: p in ps && Reads(js, r, p)
  }

  lemma OrReads(js: Js, r: Record, ps: seq<Node>)
    ensures Collapsed(js, r, CombineOr(ps)) <==> exists i :: 0 <= i < |ps| && Collapsed(js, r, ps[i])
  {
    if |ps| == 1 {
      assert (exists i :: 0 <= i < |ps| && Collapsed(js, r, ps[i])) <==> Collapsed(js, r, ps[0]);
    } else {
      forall i | 0 <= i < |ps| ensures ps[i] in ps { }
    }
  }

  lemma AndReads2(js: Js, r: Record, a: Node, b: Node)
    ensures Collapsed(js, r, CombineAnd([a, b])) <==> Collapsed(js, r, a) && Collapsed(js, r, b)
  {
    assert a in [a, b] && b in [a, b];
  }

  lemma AndReads3(js: Js, r: Record, a: Node, b: Node, c: Node)
    ensures Collapsed(js, r, CombineAnd([a, b, c]))
        <==> Collapsed(js, r, a) && Collapsed(js, r, b) && Collapsed(js, r, c)
  {
    assert a in [a, b, c] && b in [a, b, c] && c in [a, b, c];
  }

  lemma AnyConditionReads(js: Js, r: Record, ps: seq<Policy>)
    ensures Collapsed(js, r, CombineOr(Conditions(ps))) <==> AnyReads(js, r, ps)
  {
    OrReads(js, r, Conditions(ps));
    forall i | 0 <= i < |ps|
      ensures ps[i] in ps && (Reads(js, r, ps[i]) <==> Collapsed(js, r, Conditions(ps)[i]))
    {
    }
  }

  /** None of the policies of these tiers applies. */
  predicate Silent(js: Js, r: Record, ps: seq<Policy>, tiers: seq<int>) {
    forall p :: p in ps && p.priority in tiers ==> !Reads(js, r, p)
  }

  lemma {:induction false} NoneOfReads(js: Js, r: Record, ps: seq<Policy>, tiers: seq<int>)
    ensures Collapsed(js, r, NoneOf(ps, tiers)) <==> Silent(js, r, ps, tiers)
  {
    if tiers != [] {
      var init, n := tiers[..|tiers| - 1], tiers[|tiers| - 1];
      NoneOfReads(js, r, ps, init);
      AnyConditionReads(js, r, Tier(ps, n));
      AndReads2(js, r, NoneOf(ps, init), Not(CombineOr(Conditions(Tier(ps, n)))));
      assert tiers == init + [n];
    }
  }

  predicate ReadsAt(js: Js, r: Record, ps: seq<Policy>, n: int, effect: Effect) {
    exists p :: p in ps && p.priority == n && p.effect == effect && Reads(js, r, p)
  }

  /** What the clause of tier n, below the given tiers, says. */
  predicate DecidesAt(js: Js, r: Record, ps: seq<Policy>, above: seq<int>, n: int) {
    Silent(js, r, ps, above) && ReadsAt(js, r, ps, n, Allow) && !ReadsAt(js, r, ps, n, Deny)
  }

  lemma ClauseReads(js: Js, r: Record, ps: seq<Policy>, above: seq<int>, n: int)
    ensures Collapsed(js, r, TierClause(NoneOf(ps, above), Tier(ps, n))) <==> DecidesAt(js, r, ps, above, n)
  {
    var tier := Tier(ps, n);
    var allows, denies := CombineOr(Conditions(WithEffect(tier, Allow))), CombineOr(Conditions(WithEffect(tier, Deny)));
    AndReads3(js, r, NoneOf(ps, above), allows, Not(denies));
    NoneOfReads(js, r, ps, above);
    AnyConditionReads(js, r, WithEffect(tier, Allow));
    AnyConditionReads(js, r, WithEffect(tier, Deny));
  }

  lemma {:induction false} ClauseAt(ps: seq<Policy>, tiers: seq<int>, i: nat)
    requires i < |tiers|
    ensures TierClauses(ps, tiers)[i] == TierClause(NoneOf(ps, tiers[..i]), Tier(ps, tiers[i]))
  {
    hide NoneOf, TierClause, Tier;
    var init := tiers[..|tiers| - 1];
    if i < |init| {
      ClauseAt(ps, init, i);
      assert init[..i] == tiers[..i];
    }
  }

  /** The highest tier that applies has an allow that applies, and no such deny. */
  predicate TopReads(js: Js, r: Record, ps: seq<Policy>, n: int) {
    && ReadsAt(js, r, ps, n, Allow)
    && !ReadsAt(js, r, ps, n, Deny)
    && (forall p :: p in ps && p.priority > n ==> !Reads(js, r, p))
  }

  lemma ClauseReadsTop(js: Js, r: Record, ps: seq<Policy>, i: nat)
    requires i < |Priorities(ps)|
    ensures Collapsed(js, r, TierClauses(ps, Priorities(ps))[i]) <==> TopReads(js, r, ps, Priorities(ps)[i])
  {
    var tiers := Priorities(ps);
    ClauseAt(ps, tiers, i);
    ClauseReads(js, r, ps, tiers[..i], tiers[i]);
    forall p | p in ps ensures p.priority in tiers[..i] <==> p.priority > tiers[i] {
      assert p.priority in tiers;
    }
  }

  /** The two-valued reading of the filter. */
  lemma ScopeReads(js: Js, r: Record, ps: seq<Policy>)
    ensures Collapsed(js, r, TieredOutcome(ps)) <==> exists n :: TopReads(js, r, ps, n)
  {
    var tiers := Priorities(ps);
    OrReads(js, r, TierClauses(ps, tiers));
    forall i | 0 <= i < |tiers|
      ensures Collapsed(js, r, TierClauses(ps, tiers)[i]) <==> TopReads(js, r, ps, tiers[i])
    {
      ClauseReadsTop(js, r, ps, i);
    }
    if n :| TopReads(js, r, ps, n) {
      assert n in tiers;
    }
  }

  // ----- Scope against decision -----

  /** The policy's condition holds in memory. */
  function Matching(js: Js, r: Record): Policy -> bool {
    (p: Policy) => Evaluate(js, r, p.condition)
  }

  /** Every policy condition is NOT-free, as every accepted policy's is. */
  predicate AllNotFree(ps: seq<Policy>) {
    forall p :: p in ps ==> NotFree(p.condition)
  }

  lemma MatchingIsReading(js: Js, r: Record, ps: seq<Policy>, p: Policy)
    requires AllNotFree(ps) && p in ps
    ensures Matching(js, r)(p) <==> Reads(js, r, p)
  {
    NotFreeAgrees(js, r, p.condition);
  }

  lemma MatchedIsRead(js: Js, r: Record, ps: seq<Policy>, n: int, effect: Effect)
    requires AllNotFree(ps)
    ensures MatchedAt(ps, Matching(js, r), n, effect) <==> ReadsAt(js, r, ps, n, effect)
  {
    forall p | p in ps { MatchingIsReading(js, r, ps, p); }
  }

  lemma TopIsTop(js: Js, r: Record, ps: seq<Policy>, n: int)
    requires AllNotFree(ps) && IsTop(ps, Matching(js, r), n)
    ensures ReadsAt(js, r, ps, n, Allow) || ReadsAt(js, r, ps, n, Deny)
    ensures forall p :: p in ps && Reads(js, r, p) ==> p.priority <= n
  {
    forall p | p in ps { MatchingIsReading(js, r, ps, p); }
  }

  /** The scope filter reads true exactly where a match decides, and decides to allow. */
  lemma ScopeIsTheDecision(js: Js, r: Record, ps: seq<Policy>, default: Effect)
    requires AllNotFree(ps)
    ensures Collapsed(js, r, TieredOutcome(ps)) <==> Decide(ps, Matching(js, r), default).reason.AllowMatched?
  {
    ScopeReads(js, r, ps);
    if exists p :: p in ps && Matching(js, r)(p) {
      var n := TopExists(ps, Matching(js, r));
      DecisionAtTop(ps, Matching(js, r), default, n);
      TopIsTop(js, r, ps, n);
      MatchedIsRead(js, r, ps, n, Deny);
      if !ReadsAt(js, r, ps, n, Deny) { assert TopReads(js, r, ps, n); }
    } else {
      forall p | p in ps ensures !Reads(js, r, p) { MatchingIsReading(js, r, ps, p); }
      DecisionWithoutMatch(ps, Matching(js, r), default);
    }
  }

  /** What a collection read is filtered by. */
  function ActionScope(ps: seq<Policy>, default: Effect): Node {
    if ps == [] then (if default.Allow? then And([]) else Or([])) else TieredOutcome(ps)
  }

  /** Conditions of relevant policies, as the normalizer leaves them. */
  predicate AllPortable(d: Dialect, js: Js, fields: Fields, r: Record, ps: seq<Policy>) {
    forall p :: p in ps ==> NotFree(p.condition) && Sound(d, js, fields, r, p.condition)
  }

  predicate Sound(d: Dialect, js: Js, fields: Fields, r: Record, p: Node) {
    LikePlain(d, p) && Fits(fields, p) && ReadAlike(js, r, p)
  }

  lemma CombineIsSound(d: Dialect, js: Js, fields: Fields, r: Record, ps: seq<Node>)
    requires forall p :: p in ps ==> Sound(d, js, fields, r, p)
    ensures Sound(d, js, fields, r, CombineOr(ps)) && Sound(d, js, fields, r, CombineAnd(ps))
  {
    if |ps| == 1 { assert ps[0] in ps; }
  }

  lemma NotIsSound(d: Dialect, js: Js, fields: Fields, r: Record, p: Node)
    requires Sound(d, js, fields, r, p)
    ensures Sound(d, js, fields, r, Not(p))
  {
  }

  lemma ConditionsAreSound(d: Dialect, js: Js, fields: Fields, r: Record, ps: seq<Policy>)
    requires AllPortable(d, js, fields, r, ps)
    ensures Sound(d, js, fields, r, CombineOr(Conditions(ps)))
  {
    forall c | c in Conditions(ps) ensures Sound(d, js, fields, r, c) {
      var i :| 0 <= i < |ps| && c == ps[i].condition;
      assert ps[i] in ps;
    }
    CombineIsSound(d, js, fields, r, Conditions(ps));
  }

  lemma {:induction false} NoneOfIsSound(d: Dialect, js: Js, fields: Fields, r: Record, ps: seq<Policy>,
      tiers: seq<int>)
    requires AllPortable(d, js, fields, r, ps)
    ensures Sound(d, js, fields, r, NoneOf(ps, tiers))
  {
    if tiers != [] {
      var init, n := tiers[..|tiers| - 1], tiers[|tiers| - 1];
      NoneOfIsSound(d, js, fields, r, ps, init);
      ConditionsAreSound(d, js, fields, r, Tier(ps, n));
      var parts := [NoneOf(ps, init), Not(CombineOr(Conditions(Tier(ps, n))))];
      assert forall q :: q in parts <==> q == parts[0] || q == parts[1];
      CombineIsSound(d, js, fields, r, parts);
    }
  }

  lemma {:induction false} ClausesAreSound(d: Dialect, js: Js, fields: Fields, r: Record, ps: seq<Policy>,
      tiers: seq<int>)
    requires AllPortable(d, js, fields, r, ps)
    ensures forall c :: c in TierClauses(ps, tiers) ==> Sound(d, js, fields, r, c)
  {
    hide Sound, NoneOf, CombineOr, CombineAnd, Conditions;
    if tiers != [] {
      var init, tier := tiers[..|tiers| - 1], Tier(ps, tiers[|tiers| - 1]);
      ClausesAreSound(d, js, fields, r, ps, init);
      NoneOfIsSound(d, js, fields, r, ps, init);
      ConditionsAreSound(d, js, fields, r, WithEffect(tier, Allow));
      ConditionsAreSound(d, js, fields, r, WithEffect(tier, Deny));
      NotIsSound(d, js, fields, r, CombineOr(Conditions(WithEffect(tier, Deny))));
      var parts := [NoneOf(ps, init), CombineOr(Conditions(WithEffect(tier, Allow))),
          Not(CombineOr(Conditions(WithEffect(tier, Deny))))];
      assert forall q :: q in parts <==> q == parts[0] || q == parts[1] || q == parts[2];
      CombineIsSound(d, js, fields, r, parts);
    }
  }

  /**
   * The compiled scope filter selects exactly the records whose own decision
   * allows the action, except that a default of allow is not honoured for
   * records that no relevant policy matches.
   */
  lemma ScopeSelectsAllowedRecords(d: Dialect, js: Js, fields: Fields, columns: set<string>, r: Record,
      ps: seq<Policy>, default: Effect)
    requires RoundTrips(js) && RecordFits(fields, r) && fields.Keys <= columns && AllPortable(d, js, fields, r, ps)
    ensures var scope, decision := ActionScope(ps, default), Decide(ps, Matching(js, r), default);
            && Compile(columns, scope).Ok?
            && ((SqlProofs.SqlSelects(d, js, columns, r, scope) <==> decision.allowed)
                <==> !(default.Allow? && ps != [] && forall p :: p in ps ==> !Evaluate(js, r, p.condition)))
  {
    var scope := ActionScope(ps, default);
    if ps != [] {
      ClausesAreSound(d, js, fields, r, ps, Priorities(ps));
      CombineIsSound(d, js, fields, r, TierClauses(ps, Priorities(ps)));
      ScopeIsTheDecision(js, r, ps, default);
      if exists p :: p in ps && Matching(js, r)(p) {
        var n := TopExists(ps, Matching(js, r));
        DecisionAtTop(ps, Matching(js, r), default, n);
      } else {
        DecisionWithoutMatch(ps, Matching(js, r), default);
      }
    }
    SqlProofs.SqlIsTheCollapsedReading(d, js, fields, columns, r, scope);
  }

  // ----- The filter evaluated in memory -----

  lemma OrEvaluates(js: Js, r: Record, ps: seq<Node>)
    ensures Eval(js, r, CombineOr(ps)).Holds? <==> exists i :: 0 <= i < |ps| && Eval(js, r, ps[i]).Holds?
    ensures Eval(js, r, CombineOr(ps)).Fails? <==> forall i :: 0 <= i < |ps| ==> Eval(js, r, ps[i]).Fails?
  {
    if |ps| != 1 {
      assert Eval(js, r, Or(ps)) == EvalAny(js, r, ps);
      assert forall i :: 0 <= i < |ps| ==> ps[i] in ps;
    } else {
      assert (exists i :: 0 <= i < |ps| && Eval(js, r, ps[i]).Holds?) <==> Eval(js, r, ps[0]).Holds?;
    }
  }

  lemma AndEvaluates(js: Js, r: Record, ps: seq<Node>)
    requires |ps| >= 2
    ensures Evaluate(js, r, CombineAnd(ps)) <==> forall i :: 0 <= i < |ps| ==> Evaluate(js, r, ps[i])
  {
    assert Eval(js, r, And(ps)) == EvalAll(js, r, ps);
    assert forall i :: 0 <= i < |ps| ==> ps[i] in ps;
  }

  /** A policy that is known not to apply. */
  predicate Excluded(js: Js, r: Record, p: Policy) {
    Eval(js, r, p.condition).Fails?
  }

  lemma AnyConditionEvaluates(js: Js, r: Record, ps: seq<Policy>)
    ensures Evaluate(js, r, CombineOr(Conditions(ps))) <==> exists p :: p in ps && Evaluate(js, r, p.condition)
    ensures Evaluate(js, r, Not(CombineOr(Conditions(ps)))) <==> forall p :: p in ps ==> Excluded(js, r, p)
  {
    OrEvaluates(js, r, Conditions(ps));
    forall i | 0 <= i < |ps| ensures ps[i] in ps && Conditions(ps)[i] == ps[i].condition { }
  }

  predicate AllExcluded(js: Js, r: Record, ps: seq<Policy>, tiers: seq<int>) {
    forall p :: p in ps && p.priority in tiers ==> Excluded(js, r, p)
  }

  lemma {:induction false} NoneOfEvaluates(js: Js, r: Record, ps: seq<Policy>, tiers: seq<int>)
    ensures Evaluate(js, r, NoneOf(ps, tiers)) <==> AllExcluded(js, r, ps, tiers)
  {
    if tiers == [] {
      assert EvalAll(js, r, []).Holds?;
    } else {
      var init, n := tiers[..|tiers| - 1], tiers[|tiers| - 1];
      NoneOfEvaluates(js, r, ps, init);
      AnyConditionEvaluates(js, r, Tier(ps, n));
      AndEvaluates(js, r, [NoneOf(ps, init), Not(CombineOr(Conditions(Tier(ps, n))))]);
      assert tiers == init + [n];
    }
  }

  /** An allow matches at n, and every deny there and every policy above is known not to apply. */
  predicate DefinitelyTop(js: Js, r: Record, ps: seq<Policy>, n: int) {
    && (exists p :: p in ps && p.priority == n && p.effect.Allow? && Evaluate(js, r, p.condition))
    && (forall p :: p in ps && p.priority == n && p.effect.Deny? ==> Excluded(js, r, p))
    && (forall p :: p in ps && p.priority > n ==> Excluded(js, r, p))
  }

  predicate AllowKnown(js: Js, r: Record, tier: seq<Policy>) {
    exists p :: p in tier && p.effect.Allow? && Evaluate(js, r, p.condition)
  }

  predicate DeniesExcluded(js: Js, r: Record, tier: seq<Policy>) {
    forall p :: p in tier && p.effect.Deny? ==> Excluded(js, r, p)
  }

  lemma TierEvaluates(js: Js, r: Record, tier: seq<Policy>)
    ensures Evaluate(js, r, CombineOr(Conditions(WithEffect(tier, Allow)))) <==> AllowKnown(js, r, tier)
    ensures Evaluate(js, r, Not(CombineOr(Conditions(WithEffect(tier, Deny))))) <==> DeniesExcluded(js, r, tier)
  {
    AnyConditionEvaluates(js, r, WithEffect(tier, Allow));
    AnyConditionEvaluates(js, r, WithEffect(tier, Deny));
  }

  lemma ClauseEvaluates(js: Js, r: Record, ps: seq<Policy>, above: seq<int>, n: int)
    ensures Evaluate(js, r, TierClause(NoneOf(ps, above), Tier(ps, n)))
            <==> AllExcluded(js, r, ps, above) && AllowKnown(js, r, Tier(ps, n)) && DeniesExcluded(js, r, Tier(ps, n))
  {
    var tier := Tier(ps, n);
    var parts := [NoneOf(ps, above), CombineOr(Conditions(WithEffect(tier, Allow))),
        Not(CombineOr(Conditions(WithEffect(tier, Deny))))];
    AndEvaluates(js, r, parts);
    assert (forall i :: 0 <= i < |parts| ==> Evaluate(js, r, parts[i]))
      <==> Evaluate(js, r, parts[0]) && Evaluate(js, r, parts[1]) && Evaluate(js, r, parts[2]);
    NoneOfEvaluates(js, r, ps, above);
    TierEvaluates(js, r, tier);
  }

  lemma ClauseEvaluatesTop(js: Js, r: Record, ps: seq<Policy>, i: nat)
    requires i < |Priorities(ps)|
    ensures Evaluate(js, r, TierClauses(ps, Priorities(ps))[i]) <==> DefinitelyTop(js, r, ps, Priorities(ps)[i])
  {
    var tiers := Priorities(ps);
    ClauseAt(ps, tiers, i);
    ClauseEvaluates(js, r, ps, tiers[..i], tiers[i]);
    forall p | p in ps ensures p.priority in tiers[..i] <==> p.priority > tiers[i] {
      assert p.priority in tiers;
    }
  }

  /**
   * Evaluated in memory, the filter matches exactly when the deciding allow is
   * known to decide. Against the decision it can only lose records: those where
   * a deny of the deciding tier, or a policy above it, is unknown.
   */
  lemma ScopeInMemory(js: Js, r: Record, ps: seq<Policy>, default: Effect)
    requires AllNotFree(ps)
    ensures Evaluate(js, r, TieredOutcome(ps)) <==> exists n :: DefinitelyTop(js, r, ps, n)
    ensures Evaluate(js, r, TieredOutcome(ps)) ==> Decide(ps, Matching(js, r), default).reason.AllowMatched?
  {
    var tiers := Priorities(ps);
    OrEvaluates(js, r, TierClauses(ps, tiers));
    forall i | 0 <= i < |tiers|
      ensures Evaluate(js, r, TierClauses(ps, tiers)[i]) <==> DefinitelyTop(js, r, ps, tiers[i])
    {
      ClauseEvaluatesTop(js, r, ps, i);
    }
    if n :| DefinitelyTop(js, r, ps, n) { assert n in tiers; }
    DefiniteAgrees(js, r, TieredOutcome(ps));
    ScopeIsTheDecision(js, r, ps, default);
  }

  /** Every policy above n, and every deny at n, is known not to apply. */
  predicate NothingOpen(js: Js, r: Record, ps: seq<Policy>, n: int) {
    forall p :: p in ps && (p.priority > n || (p.priority == n && p.effect.Deny?)) ==> Excluded(js, r, p)
  }

  /** Of the records the decision allows, the filter keeps in memory exactly those where nothing is left open. */
  lemma ScopeKeepsAllowedIff(js: Js, r: Record, ps: seq<Policy>, default: Effect)
    requires AllNotFree(ps) && Decide(ps, Matching(js, r), default).reason.AllowMatched?
    ensures var decision := Decide(ps, Matching(js, r), default);
            && decision.priority.Some?
            && (Evaluate(js, r, TieredOutcome(ps)) <==> NothingOpen(js, r, ps, decision.priority.value))
  {
    hide Evaluate, TieredOutcome, Excluded, Decide;
    ScopeInMemory(js, r, ps, default);
    if forall p :: p in ps ==> !Matching(js, r)(p) {
      DecisionWithoutMatch(ps, Matching(js, r), default);
    } else {
      var n := TopExists(ps, Matching(js, r));
      DecisionAtTop(ps, Matching(js, r), default, n);
      TopIsDefinite(js, r, ps, n);
    }
  }

  /** A deciding allow is the only one that can be known to decide. */
  lemma TopIsDefinite(js: Js, r: Record, ps: seq<Policy>, n: int)
    requires IsTop(ps, Matching(js, r), n) && !MatchedAt(ps, Matching(js, r), n, Deny)
    ensures (exists m :: DefinitelyTop(js, r, ps, m)) <==> NothingOpen(js, r, ps, n)
  {
    var q :| q in ps && Matching(js, r)(q) && q.priority == n;
    assert q.effect.Allow?;
    if NothingOpen(js, r, ps, n) { assert DefinitelyTop(js, r, ps, n); }
    if m :| DefinitelyTop(js, r, ps, m) {
      assert !Excluded(js, r, q);
      var a :| a in ps && a.priority == m && a.effect.Allow? && Evaluate(js, r, a.condition);
      assert Matching(js, r)(a);
    }
  }

  /** Everything may be read unless it is locked. */
  function LockedDenied(): seq<Policy> {
    [Policy("docs", ["read"], Deny, 1, Condition("status", Eq, One(Str("locked"))), None, []),
     Policy("docs", ["read"], Allow, 0, And([]), None, [])]
  }

  lemma LockedIsOpen(js: Js, r: Record)
    requires Nullish(CellOf(r, "status"))
    ensures var ps := LockedDenied();
            && AllNotFree(ps) && Matching(js, r)(ps[1]) && !Matching(js, r)(ps[0]) && !Excluded(js, r, ps[0])
  {
    var deny, allow := LockedDenied()[0], LockedDenied()[1];
    assert Eval(js, r, deny.condition).Unknown?;
    assert EvalAll(js, r, []).Holds? && Eval(js, r, allow.condition).Holds?;
  }

  /** A record without a status is allowed, and selected by the filter's SQL, but lost by the filter in memory. */
  lemma RecordIsLostInMemory(js: Js, r: Record, default: Effect)
    requires Nullish(CellOf(r, "status"))
    ensures var ps := LockedDenied();
            && Decide(ps, Matching(js, r), default).reason.AllowMatched?
            && Collapsed(js, r, TieredOutcome(ps)) && !Evaluate(js, r, TieredOutcome(ps))
  {
    hide Evaluate, TieredOutcome, Decide, Collapsed, Excluded, Matching, AllNotFree;
    var ps, matches := LockedDenied(), Matching(js, r);
    LockedIsOpen(js, r);
    assert forall p :: p in ps <==> p == ps[0] || p == ps[1];
    assert IsTop(ps, matches, 0) && !MatchedAt(ps, matches, 0, Deny) && !NothingOpen(js, r, ps, 0);
    DecisionAtTop(ps, matches, default, 0);
    ScopeKeepsAllowedIff(js, r, ps, default);
    ScopeIsTheDecision(js, r, ps, default);
  }
}
