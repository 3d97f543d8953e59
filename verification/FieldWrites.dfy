/** Write enforcement: the field check on the matched policies, then the record decision. */
module FieldWrites {
  import opened Common
  import opened Predicates
  import opened AccessDecisions

  datatype FieldCheck = Writable | Unwritable(fields: seq<string>)

  datatype WriteOutcome =
    | Permitted
    | FieldsDenied(fields: seq<string>)
    | RecordDenied(reason: Reason, priority: Option<int>)

  /** A policy without a write list speaks about every field. */
  predicate Covers(p: Policy, field: string) {
    p.write == [] || field in p.write
  }

  /** Denied by a deny of the top tier, or left out by every allow of it. */
  predicate FieldDenied(top: seq<Policy>, field: string) {
    || (exists p :: p in top && p.effect.Deny? && Covers(p, field))
    || ((exists p :: p in top && p.effect.Allow?) && forall p :: p in top && p.effect.Allow? ==> !Covers(p, field))
  }

  function DeniedFields(top: seq<Policy>, fields: seq<string>): seq<string> {
    Where(fields, (f: string) => FieldDenied(top, f))
  }

  /** The highest priority in a non-empty list. */
  function TopPriority(ps: seq<Policy>): (n: int)
    requires ps != []
    ensures forall p :: p in ps ==> p.priority <= n
    ensures exists p :: p in ps && p.priority == n
  {
    var last := ps[|ps| - 1];
    assert forall p :: p in ps <==> p in ps[..|ps| - 1] || p == last;
    if |ps| == 1 then last.priority
    else
      var rest := TopPriority(ps[..|ps| - 1]);
      if last.priority > rest then last.priority else rest
  }

  function CheckFields(matched: seq<Policy>, fields: seq<string>): FieldCheck {
    if matched == [] then Unwritable(fields)
    else
      var denied := DeniedFields(Tier(matched, TopPriority(matched)), fields);
      if denied == [] then Writable else Unwritable(denied)
  }

  /** The fields some policy of the list writes. */
  function WriteLists(ps: seq<Policy>): (r: set<string>)
    ensures forall f :: f in r <==> exists p :: p in ps && f in p.write
  {
    set p, f | p in ps && f in p.write :: f
  }

  /** The check as it runs: find the top priority, then go through the fields. */
  method AssertMatchedPolicyWritableFields(matched: seq<Policy>, fields: seq<string>) returns (r: FieldCheck)
    ensures r == CheckFields(matched, fields)
  {
    if matched == [] {
      return Unwritable(fields);
    }
    var top: Option<int> := None;
    for i := 0 to |matched|
      invariant i == 0 ==> top.None?
      invariant i > 0 ==> top == Some(TopPriority(matched[..i]))
    {
      assert matched[..i + 1][..i] == matched[..i];
      if top.None? || matched[i].priority > top.value {
        top := Some(matched[i].priority);
      }
    }
    assert matched[..|matched|] == matched;
    hide TopPriority, Tier, DeniedFields;
    var denied := RefuseFields(Tier(matched, top.value), fields);
    if denied == [] {
      return Writable;
    }
    return Unwritable(denied);
  }

  /** The fields of the tier's decision, one after the other. */
  method RefuseFields(tier: seq<Policy>, fields: seq<string>) returns (denied: seq<string>)
    ensures denied == DeniedFields(tier, fields)
  {
    var denies, allows := WithEffect(tier, Deny), WithEffect(tier, Allow);
    var denyAll := exists p :: p in denies && p.write == [];
    var allowAll := exists p :: p in allows && p.write == [];
    var deniedByPolicy, allowedByPolicy := WriteLists(denies), WriteLists(allows);
    denied := [];
    hide WriteLists, WithEffect, FieldDenied, Covers;
    for i := 0 to |fields|
      invariant denied == DeniedFields(tier, fields[..i])
    {
      assert fields[..i + 1][..i] == fields[..i];
      FieldDeniedIff(tier, fields[i]);
      if denyAll || fields[i] in deniedByPolicy
         || (!allowAll && fields[i] !in allowedByPolicy && |allows| > 0)
      {
        denied := denied + [fields[i]];
      }
    }
    assert fields[..|fields|] == fields;
  }

  lemma FieldDeniedIff(tier: seq<Policy>, field: string)
    ensures var denies, allows := WithEffect(tier, Deny), WithEffect(tier, Allow);
            FieldDenied(tier, field) <==>
              || (exists p :: p in denies && p.write == [])
              || field in WriteLists(denies)
              || (!(exists p :: p in allows && p.write == []) && field !in WriteLists(allows) && |allows| > 0)
  {
    var allows := WithEffect(tier, Allow);
    NoElements(allows);
  }

  // ----- Enforcement -----

  function Relevant(ps: seq<Policy>, moduleKey: string, action: string): (r: seq<Policy>)
    ensures forall p :: p in r <==> p in ps && p.moduleKey == moduleKey && action in p.actions
  {
    Where(ps, (p: Policy) => p.moduleKey == moduleKey && action in p.actions)
  }

  /** `fields` are the changed fields, or all fields of the record when none are given. */
  function EnforceWrite(relevant: seq<Policy>, matches: Policy -> bool, isDelete: bool,
      fields: seq<string>): WriteOutcome {
    var matched := Where(relevant, matches);
    if !isDelete && matched != [] && CheckFields(matched, fields).Unwritable? then
      FieldsDenied(CheckFields(matched, fields).fields)
    else
      var decision := Decide(relevant, matches, Deny);
      if decision.allowed then Permitted else RecordDenied(decision.reason, decision.priority)
  }

  /** Every field is covered by some matching allow of tier n. */
  predicate AllCovered(ps: seq<Policy>, matches: Policy -> bool, n: int, fields: seq<string>) {
    forall f :: f in fields ==> exists p :: p in ps && matches(p) && p.priority == n && p.effect.Allow? && Covers(p, f)
  }

  /** The policies that the field check looks at: the matching ones of the top tier. */
  function TopTier(ps: seq<Policy>, matches: Policy -> bool, n: int): (r: seq<Policy>)
    ensures forall p :: p in r <==> p in ps && matches(p) && p.priority == n
  {
    Tier(Where(ps, matches), n)
  }

  /** The whole outcome when some policy matches: refused fields first, then a deny of the top tier. */
  lemma OutcomeAtTop(ps: seq<Policy>, matches: Policy -> bool, isDelete: bool, fields: seq<string>, n: int)
    requires IsTop(ps, matches, n)
    ensures EnforceWrite(ps, matches, isDelete, fields)
            == var denied := DeniedFields(TopTier(ps, matches, n), fields);
               if !isDelete && denied != [] then FieldsDenied(denied)
               else if MatchedAt(ps, matches, n, Deny) then RecordDenied(DenyMatched, Some(n))
               else Permitted
  {
    DecisionAtTop(ps, matches, Deny, n);
  }

  /** And when none does. */
  lemma OutcomeWithoutMatch(ps: seq<Policy>, matches: Policy -> bool, isDelete: bool, fields: seq<string>)
    requires forall p :: p in ps ==> !matches(p)
    ensures EnforceWrite(ps, matches, isDelete, fields)
        == RecordDenied(if ps == [] then NoneRelevant else NoneMatched, None)
  {
    NoElements(Where(ps, matches));
    DecisionWithoutMatch(ps, matches, Deny);
  }

  lemma NoDeniedFields(top: seq<Policy>, fields: seq<string>)
    ensures DeniedFields(top, fields) == [] <==> forall f :: f in fields ==> !FieldDenied(top, f)
  {
    var denied := DeniedFields(top, fields);
    if denied != [] { assert denied[0] in denied; }
  }

  /** Without a deny in the top tier, a field is refused unless an allow there covers it. */
  lemma CoveredIff(ps: seq<Policy>, matches: Policy -> bool, n: int, fields: seq<string>)
    requires IsTop(ps, matches, n) && !MatchedAt(ps, matches, n, Deny)
    ensures DeniedFields(TopTier(ps, matches, n), fields) == [] <==> AllCovered(ps, matches, n, fields)
  {
    var top := TopTier(ps, matches, n);
    NoDeniedFields(top, fields);
    var some :| some in ps && matches(some) && some.priority == n;
    assert some in top && some.effect.Allow?;
    forall f
      ensures FieldDenied(top, f) <==>
                !exists p :: p in ps && matches(p) && p.priority == n && p.effect.Allow? && Covers(p, f)
    {
    }
  }

  /** The rule at the tier that decides. */
  predicate Passes(ps: seq<Policy>, matches: Policy -> bool, isDelete: bool, fields: seq<string>, n: int) {
    IsTop(ps, matches, n) && !MatchedAt(ps, matches, n, Deny) && (isDelete || AllCovered(ps, matches, n, fields))
  }

  ghost predicate SomeTierPasses(ps: seq<Policy>, matches: Policy -> bool, isDelete: bool, fields: seq<string>) {
    exists n :: Passes(ps, matches, isDelete, fields, n)
  }

  lemma PermittedAtTop(ps: seq<Policy>, matches: Policy -> bool, isDelete: bool, fields: seq<string>, n: int)
    requires IsTop(ps, matches, n)
    ensures EnforceWrite(ps, matches, isDelete, fields).Permitted? <==> Passes(ps, matches, isDelete, fields, n)
  {
    OutcomeAtTop(ps, matches, isDelete, fields, n);
    if !MatchedAt(ps, matches, n, Deny) { CoveredIff(ps, matches, n, fields); }
  }

  /**
   * Enforcement is one rule: a write passes exactly when some relevant policy
   * matches, the highest matching tier holds no matching deny, and, unless the
   * action is a delete, every changed field is covered by an allow of that tier.
   */
  lemma WritePermittedIff(ps: seq<Policy>, matches: Policy -> bool, isDelete: bool, fields: seq<string>)
    ensures EnforceWrite(ps, matches, isDelete, fields).Permitted? <==> SomeTierPasses(ps, matches, isDelete, fields)
  {
    if exists p :: p in ps && matches(p) {
      var n := TopExists(ps, matches);
      PermittedAtTop(ps, matches, isDelete, fields, n);
      forall m | Passes(ps, matches, isDelete, fields, m) { PermittedAtTop(ps, matches, isDelete, fields, m); }
    } else {
      OutcomeWithoutMatch(ps, matches, isDelete, fields);
    }
  }

  // ----- The rule over the policies as they are written -----

  /** The policy is for the action in the module and its conditions hold on the record. */
  predicate Speaks(p: Policy, js: Js, moduleKey: string, action: string, record: Record) {
    p.moduleKey == moduleKey && action in p.actions && Evaluate(js, record, p.condition)
  }

  /** The highest priority at which a policy speaks. */
  ghost predicate SpeaksFirst(js: Js, policies: seq<Policy>, moduleKey: string, action: string, record: Record, n: int)
  {
    && (exists p :: p in policies && p.priority == n && Speaks(p, js, moduleKey, action, record))
    && forall p :: p in policies && Speaks(p, js, moduleKey, action, record) ==> p.priority <= n
  }

  /**
   * Some policy speaks, none of those at the highest such priority denies, and,
   * unless the action is a delete, each field is in the write list of one of them
   * that has a list, or one of them has none.
   */
  ghost predicate MayWrite(js: Js, policies: seq<Policy>, moduleKey: string, action: string, record: Record,
      fields: set<string>)
  {
    exists n: int ::
      && SpeaksFirst(js, policies, moduleKey, action, record, n)
      && (forall p :: p in policies && p.priority == n && Speaks(p, js, moduleKey, action, record) ==>
            p.effect == Allow)
      && (action != "delete" ==>
            forall f :: f in fields ==>
              exists p :: p in policies && p.priority == n && Speaks(p, js, moduleKey, action, record)
                          && (p.write == [] || f in p.write))
  }

  /** A policy that denies speaks of the field at the highest priority, or an allow speaks there and none names it. */
  ghost predicate FieldRefused(js: Js, policies: seq<Policy>, moduleKey: string, action: string, record: Record,
      f: string)
  {
    exists n: int ::
      && SpeaksFirst(js, policies, moduleKey, action, record, n)
      && (|| (exists p :: p in policies && p.priority == n && Speaks(p, js, moduleKey, action, record)
                          && p.effect == Deny && (p.write == [] || f in p.write))
          || ((exists p :: p in policies && p.priority == n && Speaks(p, js, moduleKey, action, record)
                           && p.effect == Allow)
              && !exists p :: p in policies && p.priority == n && Speaks(p, js, moduleKey, action, record)
                              && p.effect == Allow && (p.write == [] || f in p.write)))
  }

  lemma SpeaksIff(js: Js, policies: seq<Policy>, moduleKey: string, action: string, record: Record)
    ensures var relevant, matches := Relevant(policies, moduleKey, action), Matching(js, record);
            && (forall p :: p in relevant && matches(p) <==> p in policies && Speaks(p, js, moduleKey, action, record))
            && (forall n :: IsTop(relevant, matches, n) <==> SpeaksFirst(js, policies, moduleKey, action, record, n))
  {
    hide Evaluate;
    var relevant, matches := Relevant(policies, moduleKey, action), Matching(js, record);
    assert forall p :: p in relevant && matches(p) <==> p in policies && Speaks(p, js, moduleKey, action, record);
    hide Speaks, Relevant;
    forall n ensures IsTop(relevant, matches, n) <==> SpeaksFirst(js, policies, moduleKey, action, record, n) {
      if p :| p in policies && p.priority == n && Speaks(p, js, moduleKey, action, record) {
        assert p in relevant && matches(p);
      }
    }
  }

  /** Enforcement permits exactly what the rule allows. */
  lemma MayWriteIff(js: Js, policies: seq<Policy>, moduleKey: string, action: string, record: Record,
      fields: seq<string>)
    ensures EnforceWrite(Relevant(policies, moduleKey, action), Matching(js, record), action == "delete",
              fields).Permitted?
            <==> MayWrite(js, policies, moduleKey, action, record, Elements(fields))
  {
    var relevant, matches := Relevant(policies, moduleKey, action), Matching(js, record);
    SpeaksIff(js, policies, moduleKey, action, record);
    WritePermittedIff(relevant, matches, action == "delete", fields);
    hide Relevant, Matching, Speaks, EnforceWrite, IsTop, SpeaksFirst;
    forall n | IsTop(relevant, matches, n)
      ensures Passes(relevant, matches, action == "delete", fields, n)
          <==> && (forall p :: p in policies && p.priority == n && Speaks(p, js, moduleKey, action, record) ==>
                     p.effect == Allow)
               && (action != "delete" ==>
                     forall f :: f in Elements(fields) ==>
                       exists p :: p in policies && p.priority == n && Speaks(p, js, moduleKey, action, record)
                                   && (p.write == [] || f in p.write))
    {
      PassesIff(js, policies, moduleKey, action, record, fields, n);
    }
  }

  lemma PassesIff(js: Js, policies: seq<Policy>, moduleKey: string, action: string, record: Record,
      fields: seq<string>, n: int)
    requires IsTop(Relevant(policies, moduleKey, action), Matching(js, record), n)
    ensures Passes(Relevant(policies, moduleKey, action), Matching(js, record), action == "delete", fields, n)
        <==> && (forall p :: p in policies && p.priority == n && Speaks(p, js, moduleKey, action, record) ==>
                   p.effect == Allow)
             && (action != "delete" ==>
                   forall f :: f in Elements(fields) ==>
                     exists p :: p in policies && p.priority == n && Speaks(p, js, moduleKey, action, record)
                                 && (p.write == [] || f in p.write))
  {
    var relevant, matches := Relevant(policies, moduleKey, action), Matching(js, record);
    SpeaksIff(js, policies, moduleKey, action, record);
    hide Relevant, Matching, Speaks, IsTop, SpeaksFirst;
    assert MatchedAt(relevant, matches, n, Deny) <==>
        exists p :: p in policies && p.priority == n && Speaks(p, js, moduleKey, action, record) && p.effect == Deny;
    if !MatchedAt(relevant, matches, n, Deny) && action != "delete" {
      forall f | f in fields
        ensures (exists p :: p in relevant && matches(p) && p.priority == n && p.effect.Allow? && Covers(p, f))
            <==> exists p :: p in policies && p.priority == n && Speaks(p, js, moduleKey, action, record)
                             && (p.write == [] || f in p.write)
      {
      }
      assert forall f :: f in fields <==> f in Elements(fields);
    }
  }

  lemma RefusedIsDenied(js: Js, policies: seq<Policy>, moduleKey: string, action: string, record: Record, n: int,
      f: string)
    requires IsTop(Relevant(policies, moduleKey, action), Matching(js, record), n)
    ensures FieldDenied(TopTier(Relevant(policies, moduleKey, action), Matching(js, record), n), f)
        <==> FieldRefused(js, policies, moduleKey, action, record, f)
  {
    var relevant, matches := Relevant(policies, moduleKey, action), Matching(js, record);
    SpeaksIff(js, policies, moduleKey, action, record);
    var top := TopTier(relevant, matches, n);
    assert forall p :: p in top <==> p in policies && p.priority == n && Speaks(p, js, moduleKey, action, record);
    assert forall m :: IsTop(relevant, matches, m) ==> m == n;
    hide Relevant, Matching, Speaks, IsTop, SpeaksFirst, TopTier;
  }

  /** A refusal names the refused fields in the order given, and it names them whenever there are any. */
  lemma RefusedFieldsAre(js: Js, policies: seq<Policy>, moduleKey: string, action: string, record: Record,
      fields: seq<string>)
    ensures var outcome :=
              EnforceWrite(Relevant(policies, moduleKey, action), Matching(js, record), action == "delete", fields);
            var refused := Where(fields, (f: string) => FieldRefused(js, policies, moduleKey, action, record, f));
            && (outcome.FieldsDenied? <==> action != "delete" && refused != [])
            && (outcome.FieldsDenied? ==> outcome.fields == refused)
  {
    var relevant, matches := Relevant(policies, moduleKey, action), Matching(js, record);
    var refuses := (f: string) => FieldRefused(js, policies, moduleKey, action, record, f);
    SpeaksIff(js, policies, moduleKey, action, record);
    hide Relevant, Matching, Speaks, EnforceWrite, IsTop, FieldRefused, FieldDenied;
    if exists p :: p in relevant && matches(p) {
      var n := TopExists(relevant, matches);
      OutcomeAtTop(relevant, matches, action == "delete", fields, n);
      forall f ensures FieldDenied(TopTier(relevant, matches, n), f) <==> refuses(f) {
        RefusedIsDenied(js, policies, moduleKey, action, record, n, f);
      }
      WhereAgrees(fields, (f: string) => FieldDenied(TopTier(relevant, matches, n), f), refuses);
    } else {
      OutcomeWithoutMatch(relevant, matches, action == "delete", fields);
      NothingIsRefused(js, policies, moduleKey, action, record);
      WhereAgrees(fields, refuses, (f: string) => false);
      NothingIsKept(fields);
    }
  }

  lemma NothingIsRefused(js: Js, policies: seq<Policy>, moduleKey: string, action: string, record: Record)
    requires forall p :: p in policies ==> !Speaks(p, js, moduleKey, action, record)
    ensures forall f :: !FieldRefused(js, policies, moduleKey, action, record, f)
  {
    hide Speaks;
  }

  lemma {:induction false} NothingIsKept(fields: seq<string>)
    ensures Where(fields, (f: string) => false) == []
  {
    if fields != [] { NothingIsKept(fields[..|fields| - 1]); }
  }

  /** The enforcement as it runs: the field check first, then the record decision. */
  method EnforceAbacWrite(js: Js, policies: seq<Policy>, moduleKey: string, action: string, record: Record,
      fields: seq<string>)
    returns (outcome: WriteOutcome)
    ensures outcome.Permitted? <==> MayWrite(js, policies, moduleKey, action, record, Elements(fields))
    ensures var refused := Where(fields, (f: string) => FieldRefused(js, policies, moduleKey, action, record, f));
            && (outcome.FieldsDenied? <==> action != "delete" && refused != [])
            && (outcome.FieldsDenied? ==> outcome.fields == refused)
    ensures outcome == EnforceWrite(Relevant(policies, moduleKey, action), Matching(js, record), action == "delete",
        fields)
  {
    var relevant := Relevant(policies, moduleKey, action);
    var matches := Matching(js, record);
    MayWriteIff(js, policies, moduleKey, action, record, fields);
    RefusedFieldsAre(js, policies, moduleKey, action, record, fields);
    hide MayWrite, FieldRefused, Decide, CheckFields;
    if action != "delete" {
      var matched := Where(relevant, matches);
      if matched != [] {
        var check := AssertMatchedPolicyWritableFields(matched, fields);
        if check.Unwritable? {
          return FieldsDenied(check.fields);
        }
      }
    }
    var decision := Decide(relevant, matches, Deny);
    if decision.allowed {
      return Permitted;
    }
    return RecordDenied(decision.reason, decision.priority);
  }

  /**
   * A deny of the top tier refuses the whole write, also when its write list
   * names none of the changed fields.
   */
  lemma FieldScopedDenyRefusesTheRecord(ps: seq<Policy>, matches: Policy -> bool, fields: seq<string>, n: int)
    requires IsTop(ps, matches, n) && MatchedAt(ps, matches, n, Deny)
    requires forall p, f :: p in ps && matches(p) && p.priority == n && f in fields ==>
        (Covers(p, f) <==> p.effect.Allow?)
    ensures EnforceWrite(ps, matches, false, fields) == RecordDenied(DenyMatched, Some(n))
  {
    OutcomeAtTop(ps, matches, false, fields, n);
    NoDeniedFields(TopTier(ps, matches, n), fields);
  }

  lemma {:induction false} WhereAgrees(xs: seq<string>, p: string -> bool, q: string -> bool)
    requires forall x :: x in xs ==> p(x) == q(x)
    ensures Where(xs, p) == Where(xs, q)
  {
    if xs != [] {
      var init, last := xs[..|xs| - 1], xs[|xs| - 1];
      assert forall x :: x in xs <==> x in init || x == last;
      WhereAgrees(init, p, q);
    }
  }

  lemma DeniedFieldsIgnoreOrder(s: seq<Policy>, t: seq<Policy>, fields: seq<string>)
    requires forall p :: p in s <==> p in t
    ensures DeniedFields(s, fields) == DeniedFields(t, fields)
  {
    WhereAgrees(fields, (f: string) => FieldDenied(s, f), (f: string) => FieldDenied(t, f));
  }

  /** The outcome, down to the list of refused fields, does not depend on the order of the policies. */
  lemma EnforcementIgnoresOrder(ps: seq<Policy>, qs: seq<Policy>, matches: Policy -> bool, isDelete: bool,
      fields: seq<string>)
    requires forall p :: p in ps <==> p in qs
    ensures EnforceWrite(ps, matches, isDelete, fields) == EnforceWrite(qs, matches, isDelete, fields)
  {
    if exists p :: p in ps && matches(p) {
      var n := TopExists(ps, matches);
      assert IsTop(qs, matches, n);
      assert MatchedAt(ps, matches, n, Deny) <==> MatchedAt(qs, matches, n, Deny);
      DeniedFieldsIgnoreOrder(TopTier(ps, matches, n), TopTier(qs, matches, n), fields);
      OutcomeAtTop(ps, matches, isDelete, fields, n);
      OutcomeAtTop(qs, matches, isDelete, fields, n);
    } else {
      NoElements(ps);
      NoElements(qs);
      OutcomeWithoutMatch(ps, matches, isDelete, fields);
      OutcomeWithoutMatch(qs, matches, isDelete, fields);
    }
  }
}
