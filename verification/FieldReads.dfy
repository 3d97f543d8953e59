/**
 * Field-read overrides: the policies that match a record are sorted by
 * priority, the top allow acts as an allowlist, and each read map is applied.
 */
module FieldReads {
  import opened Common
  import opened Predicates
  import opened AccessDecisions

  // ----- The stable sort -----

  predicate Sorted(ps: seq<Policy>) {
    forall i, j :: 0 <= i < j < |ps| ==> ps[i].priority >= ps[j].priority
  }

  /** Behind every policy of the same or a higher priority. */
  function InsertStable(ps: seq<Policy>, p: Policy): (r: seq<Policy>)
    requires Sorted(ps)
    ensures Sorted(r)
    ensures forall q :: q in r <==> q in ps || q == p
  {
    if ps == [] || ps[|ps| - 1].priority >= p.priority then ps + [p]
    else
      var init, last := ps[..|ps| - 1], ps[|ps| - 1];
      assert ps == init + [last];
      var rest := InsertStable(init, p);
      assert forall i :: 0 <= i < |rest| ==> rest[i] in rest;
      rest + [last]
  }

  function SortByPriority(ps: seq<Policy>): (r: seq<Policy>)
    ensures Sorted(r)
    ensures forall q :: q in r <==> q in ps
  {
    if ps == [] then []
    else
      assert ps == ps[..|ps| - 1] + [ps[|ps| - 1]];
      InsertStable(SortByPriority(ps[..|ps| - 1]), ps[|ps| - 1])
  }

  lemma SortAppends(ps: seq<Policy>, p: Policy)
    ensures SortByPriority(ps + [p]) == InsertStable(SortByPriority(ps), p)
  {
    assert (ps + [p])[..|ps|] == ps;
  }

  lemma {:induction false} FilterStaysSorted(ps: seq<Policy>, keep: Policy -> bool)
    requires Sorted(ps)
    ensures Sorted(Where(ps, keep))
  {
    if ps != [] {
      var init, last := ps[..|ps| - 1], ps[|ps| - 1];
      FilterStaysSorted(init, keep);
      assert forall q :: q in init ==> q.priority >= last.priority;
      var kept := Where(init, keep);
      assert forall i :: 0 <= i < |kept| ==> kept[i] in kept;
    }
  }

  lemma InsertAtEnd(ps: seq<Policy>, p: Policy)
    requires Sorted(ps) && forall q :: q in ps ==> q.priority >= p.priority
    ensures InsertStable(ps, p) == ps + [p]
  {
    if ps != [] { assert ps[|ps| - 1] in ps; }
  }

  lemma InsertBeforeLast(ps: seq<Policy>, last: Policy, p: Policy)
    requires Sorted(ps + [last]) && last.priority < p.priority
    ensures Sorted(ps)
    ensures InsertStable(ps + [last], p) == InsertStable(ps, p) + [last]
  {
    assert forall i :: 0 <= i < |ps| ==> (ps + [last])[i] == ps[i];
    assert (ps + [last])[..|ps|] == ps;
  }

  lemma {:induction false} FilterInsert(ps: seq<Policy>, p: Policy, keep: Policy -> bool)
    requires Sorted(ps)
    ensures Sorted(Where(ps, keep))
    ensures Where(InsertStable(ps, p), keep) == if keep(p) then InsertStable(Where(ps, keep), p) else Where(ps, keep)
  {
    hide Where;
    FilterStaysSorted(ps, keep);
    if ps == [] || ps[|ps| - 1].priority >= p.priority {
      WhereAppends(ps, p, keep);
      InsertAtEnd(Where(ps, keep), p);
    } else {
      var init, last := ps[..|ps| - 1], ps[|ps| - 1];
      assert ps == init + [last];
      FilterInsert(init, p, keep);
      InsertBeforeLast(init, last, p);
      WhereAppends(init, last, keep);
      WhereAppends(InsertStable(init, p), last, keep);
      if keep(last) && keep(p) { InsertBeforeLast(Where(init, keep), last, p); }
    }
  }

  /** Filtering after the stable sort is sorting after the filter. */
  lemma {:induction false} FilterCommutesWithSort(ps: seq<Policy>, keep: Policy -> bool)
    ensures Where(SortByPriority(ps), keep) == SortByPriority(Where(ps, keep))
  {
    if ps != [] {
      var init, last := ps[..|ps| - 1], ps[|ps| - 1];
      assert ps == init + [last];
      FilterCommutesWithSort(init, keep);
      SortAppends(init, last);
      FilterInsert(SortByPriority(init), last, keep);
      WhereAppends(init, last, keep);
      if keep(last) { SortAppends(Where(init, keep), last); }
    }
  }

  lemma {:induction false} FilterTwice(ps: seq<Policy>, p: Policy -> bool, q: Policy -> bool, both: Policy -> bool)
    requires forall x :: both(x) == (p(x) && q(x))
    ensures Where(Where(ps, p), q) == Where(ps, both)
  {
    if ps != [] {
      var init, last := ps[..|ps| - 1], ps[|ps| - 1];
      FilterTwice(init, p, q, both);
      if p(last) { WhereAppends(Where(init, p), last, q); }
    }
  }

  // ----- The two ways to the matching policies -----

  predicate Readable(p: Policy, moduleKey: string) {
    p.moduleKey == moduleKey && "read" in p.actions && p.read.Some?
  }

  function ReadableIn(moduleKey: string): Policy -> bool {
    (p: Policy) => Readable(p, moduleKey)
  }

  /** Filter, sort once per list and module, then match each record. */
  function CachedMatches(ps: seq<Policy>, moduleKey: string, matches: Policy -> bool): seq<Policy> {
    Where(Selected(ps, moduleKey), matches)
  }

  function Selected(ps: seq<Policy>, moduleKey: string): seq<Policy> {
    SortByPriority(Where(ps, ReadableIn(moduleKey)))
  }

  /** Filter and match, then sort, for lists that are not frozen. */
  function UncachedMatches(ps: seq<Policy>, moduleKey: string, matches: Policy -> bool): seq<Policy> {
    SortByPriority(Where(ps, (p: Policy) => Readable(p, moduleKey) && matches(p)))
  }

  /** Both ways give the same policies in the same order. */
  lemma CacheIsTransparent(ps: seq<Policy>, moduleKey: string, matches: Policy -> bool)
    ensures CachedMatches(ps, moduleKey, matches) == UncachedMatches(ps, moduleKey, matches)
  {
    FilterCommutesWithSort(Where(ps, ReadableIn(moduleKey)), matches);
    FilterTwice(ps, ReadableIn(moduleKey), matches, (p: Policy) => Readable(p, moduleKey) && matches(p));
  }

  const MAX_MODULES := 16

  /** The lists kept for one frozen policy list, one a module. */
  class ReadPolicyLists {
    const policies: seq<Policy>
    var byModule: map<string, seq<Policy>>

    ghost predicate Valid()
      reads this
    {
      |byModule| <= MAX_MODULES && forall m :: m in byModule ==> byModule[m] == Selected(policies, m)
    }

    constructor (policies: seq<Policy>)
      ensures Valid() && this.policies == policies
    {
      this.policies := policies;
      byModule := map[];
    }

    method ReadPoliciesForModule(moduleKey: string) returns (selected: seq<Policy>)
      requires Valid()
      modifies this`byModule
      ensures Valid() && moduleKey in byModule
      ensures selected == Selected(policies, moduleKey)
    {
      if moduleKey in byModule {
        return byModule[moduleKey];
      }
      selected := Selected(policies, moduleKey);
      if |byModule| >= MAX_MODULES {
        byModule := map[];
      }
      byModule := byModule[moduleKey := selected];
    }
  }

  method MatchEach(candidates: seq<Policy>, js: Js, record: Record) returns (ms: seq<Policy>)
    ensures ms == Where(candidates, Matching(js, record))
  {
    ms := [];
    for i := 0 to |candidates|
      invariant ms == Where(candidates[..i], Matching(js, record))
    {
      assert candidates[..i + 1] == candidates[..i] + [candidates[i]];
      WhereAppends(candidates[..i], candidates[i], Matching(js, record));
      if Evaluate(js, record, candidates[i].condition) {
        ms := ms + [candidates[i]];
      }
    }
    assert candidates[..|candidates|] == candidates;
  }

  /** The matching policies of a frozen list, by way of the kept list; the same as without it. */
  method MatchingPolicies(lists: ReadPolicyLists, moduleKey: string, js: Js, record: Record) returns (ms: seq<Policy>)
    requires lists.Valid()
    modifies lists`byModule
    ensures lists.Valid()
    ensures ms == UncachedMatches(lists.policies, moduleKey, Matching(js, record))
  {
    var candidates := lists.ReadPoliciesForModule(moduleKey);
    ms := MatchEach(candidates, js, record);
    CacheIsTransparent(lists.policies, moduleKey, Matching(js, record));
  }

  // ----- Applying the read maps -----

  function Restrictiveness(m: Mode): nat {
    match m
    case Show => 0
    case Mask => 1
    case Omit => 2
  }

  predicate Mentions(p: Policy, f: string) {
    p.read.Some? && f in p.read.value
  }

  /** A deny omits what it mentions. */
  function Incoming(p: Policy, f: string): Mode
    requires Mentions(p, f)
  {
    if p.effect.Deny? then Omit else p.read.value[f]
  }

  datatype Slot = Slot(mode: Mode, priority: int)

  /** The priority of the allow policy that serves as allowlist. */
  function AllowlistPriority(ms: seq<Policy>): Option<int> {
    if ms == [] then None
    else
      var before, p := AllowlistPriority(ms[..|ms| - 1]), ms[|ms| - 1];
      if p.effect.Allow? && p.read.Some? && (before.None? || p.priority > before.value) then Some(p.priority)
      else before
  }

  predicate Opens(before: Option<int>, p: Policy) {
    p.effect.Allow? && p.read.Some? && (before.None? || p.priority > before.value)
  }

  /** One read-map entry: higher priorities stand, equal ones keep the more restrictive mode. */
  function Overlay(slot: Option<Slot>, incoming: Mode, priority: int): Option<Slot> {
    if slot.Some? && slot.value.priority > priority then slot
    else if slot.Some? && slot.value.priority == priority
            && Restrictiveness(slot.value.mode) >= Restrictiveness(incoming) then slot
    else Some(Slot(incoming, priority))
  }

  /** What one policy does to one field. */
  function Turn(slot: Option<Slot>, p: Policy, opens: bool, inRecord: bool, f: string): Option<Slot> {
    var base := if opens && inRecord && !Mentions(p, f) then Some(Slot(Omit, p.priority)) else slot;
    if Mentions(p, f) then Overlay(base, Incoming(p, f), p.priority) else base
  }

  /** The override of a field after working through the policies in order. */
  function SlotOf(ms: seq<Policy>, fields: set<string>, f: string): Option<Slot> {
    if ms == [] then None
    else
      var init, p := ms[..|ms| - 1], ms[|ms| - 1];
      Turn(SlotOf(init, fields, f), p, Opens(AllowlistPriority(init), p), f in fields, f)
  }

  function At(overrides: map<string, Mode>, priorities: map<string, int>, f: string): Option<Slot> {
    if f in overrides && f in priorities then Some(Slot(overrides[f], priorities[f])) else None
  }

  /** The allowlist: every record field the policy does not mention is omitted. */
  method OpenAllowlist(overrides: map<string, Mode>, priorities: map<string, int>, p: Policy, fields: seq<string>)
    returns (o: map<string, Mode>, n: map<string, int>)
    requires overrides.Keys == priorities.Keys
    ensures o.Keys == n.Keys
    ensures forall f :: At(o, n, f) == if f in fields && !Mentions(p, f) then Some(Slot(Omit, p.priority))
        else At(overrides, priorities, f)
  {
    o, n := overrides, priorities;
    for i := 0 to |fields|
      invariant o.Keys == n.Keys
      invariant forall f :: At(o, n, f) ==
                  if f in fields[..i] && !Mentions(p, f) then Some(Slot(Omit, p.priority))
                  else At(overrides, priorities, f)
    {
      assert fields[..i + 1] == fields[..i] + [fields[i]];
      if !(p.read.Some? && fields[i] in p.read.value) {
        o, n := o[fields[i] := Omit], n[fields[i] := p.priority];
      }
    }
    assert fields[..|fields|] == fields;
  }

  /** The entries of one read map, in any order. */
  method ApplyReadMap(overrides: map<string, Mode>, priorities: map<string, int>, p: Policy)
    returns (o: map<string, Mode>, n: map<string, int>)
    requires overrides.Keys == priorities.Keys
    ensures o.Keys == n.Keys
    ensures forall f :: At(o, n, f) ==
              if Mentions(p, f) then Overlay(At(overrides, priorities, f), Incoming(p, f), p.priority)
              else At(overrides, priorities, f)
  {
    o, n := overrides, priorities;
    var todo := if p.read.Some? then p.read.value.Keys else {};
    ghost var all := todo;
    while todo != {}
      invariant todo <= all && forall f :: f in all <==> Mentions(p, f)
      invariant o.Keys == n.Keys
      invariant forall f :: At(o, n, f) ==
                  if f in all && f !in todo then Overlay(At(overrides, priorities, f), Incoming(p, f), p.priority)
                  else At(overrides, priorities, f)
      decreases |todo|
    {
      var f :| f in todo;
      assert Mentions(p, f);
      var incoming := if p.effect.Deny? then Omit else p.read.value[f];
      var stands := f in n && (n[f] > p.priority
                               || (n[f] == p.priority && Restrictiveness(o[f]) >= Restrictiveness(incoming)));
      if !stands {
        o, n := o[f := incoming], n[f := p.priority];
      }
      todo := todo - {f};
    }
  }

  /** The overrides of a record, given the matching policies highest priority first. */
  method ApplyPolicies(ms: seq<Policy>, fields: seq<string>) returns (overrides: map<string, Mode>)
    ensures forall f :: f in overrides <==> SlotOf(ms, Elements(fields), f).Some?
    ensures forall f :: f in overrides ==> overrides[f] == SlotOf(ms, Elements(fields), f).value.mode
  {
    overrides := map[];
    var priorities: map<string, int> := map[];
    var allowlistPriority: Option<int> := None;
    for i := 0 to |ms|
      invariant allowlistPriority == AllowlistPriority(ms[..i])
      invariant overrides.Keys == priorities.Keys
      invariant forall f :: At(overrides, priorities, f) == SlotOf(ms[..i], Elements(fields), f)
    {
      assert ms[..i + 1][..i] == ms[..i];
      var p := ms[i];
      if p.effect.Allow? && p.read.Some? && (allowlistPriority.None? || p.priority > allowlistPriority.value) {
        allowlistPriority := Some(p.priority);
        overrides, priorities := OpenAllowlist(overrides, priorities, p, fields);
      }
      overrides, priorities := ApplyReadMap(overrides, priorities, p);
    }
    assert ms[..|ms|] == ms;
    forall f ensures f in overrides <==> SlotOf(ms, Elements(fields), f).Some? {
      assert At(overrides, priorities, f) == SlotOf(ms, Elements(fields), f);
    }
    forall f | f in overrides ensures overrides[f] == SlotOf(ms, Elements(fields), f).value.mode {
      assert At(overrides, priorities, f) == SlotOf(ms, Elements(fields), f);
    }
  }

  // ----- Closed form -----

  function FirstAllow(ms: seq<Policy>): Option<Policy> {
    if ms == [] then None
    else
      var before, p := FirstAllow(ms[..|ms| - 1]), ms[|ms| - 1];
      if before.Some? then before else if p.effect.Allow? then Some(p) else None
  }

  /** The field is in the record and not in the read map of the first allow. */
  predicate Hidden(ms: seq<Policy>, fields: set<string>, f: string) {
    f in fields && FirstAllow(ms).Some? && !Mentions(FirstAllow(ms).value, f)
  }

  /** m is the most restrictive mode given at n, the highest priority that mentions the field. */
  predicate Governs(ms: seq<Policy>, f: string, n: int, m: Mode) {
    && (exists p :: p in ms && Mentions(p, f) && p.priority == n && Incoming(p, f) == m)
    && (forall p :: p in ms && Mentions(p, f) ==>
          p.priority <= n && (p.priority == n ==> Restrictiveness(Incoming(p, f)) <= Restrictiveness(m)))
  }

  predicate Unmentioned(ms: seq<Policy>, f: string) {
    forall p :: p in ms ==> !Mentions(p, f)
  }

  predicate AllRead(ms: seq<Policy>) {
    forall p :: p in ms ==> p.read.Some?
  }

  /** On a sorted list the allowlist is the first allow, and only that one opens. */
  lemma {:induction false} AllowlistIsFirstAllow(ms: seq<Policy>)
    requires Sorted(ms) && AllRead(ms)
    ensures FirstAllow(ms).Some? ==> FirstAllow(ms).value in ms && FirstAllow(ms).value.effect.Allow?
    ensures FirstAllow(ms).None? ==> forall p :: p in ms ==> p.effect.Deny?
    ensures FirstAllow(ms).Some? ==> forall p :: p in ms && p.effect.Allow? ==>
        p.priority <= FirstAllow(ms).value.priority
    ensures AllowlistPriority(ms) == if FirstAllow(ms).Some? then Some(FirstAllow(ms).value.priority) else None
  {
    if ms != [] {
      var init, p := ms[..|ms| - 1], ms[|ms| - 1];
      assert forall q :: q in ms <==> q in init || q == p;
      AllowlistIsFirstAllow(init);
      assert forall q :: q in init ==> q.priority >= p.priority;
    }
  }

  /** The closed form, with the priority that the slot carries. */
  predicate Closed(ms: seq<Policy>, fields: set<string>, f: string) {
    var slot := SlotOf(ms, fields, f);
    if Hidden(ms, fields, f) then slot == Some(Slot(Omit, FirstAllow(ms).value.priority))
    else if Unmentioned(ms, f) then slot.None?
    else slot.Some? && Governs(ms, f, slot.value.priority, slot.value.mode)
  }

  /** One more policy of no higher priority, on a field that is not hidden. */
  lemma ClosedStep(init: seq<Policy>, p: Policy, fields: set<string>, f: string)
    requires Closed(init, fields, f) && !Hidden(init, fields, f) && !Hidden(init + [p], fields, f)
    requires forall q :: q in init ==> q.priority >= p.priority
    requires Opens(AllowlistPriority(init), p) ==> FirstAllow(init).None?
    ensures Closed(init + [p], fields, f)
  {
    var ms := init + [p];
    assert ms[..|ms| - 1] == init;
    assert forall q :: q in ms <==> q in init || q == p;
    var before, slot := SlotOf(init, fields, f), SlotOf(ms, fields, f);
    assert slot == if Mentions(p, f) then Overlay(before, Incoming(p, f), p.priority) else before;
  }

  /** Hidden fields stay hidden: nothing of the same or a lower priority is more restrictive. */
  lemma HiddenStep(init: seq<Policy>, p: Policy, fields: set<string>, f: string)
    requires Closed(init, fields, f) && Hidden(init, fields, f)
    requires FirstAllow(init).value.priority >= p.priority && !Opens(AllowlistPriority(init), p)
    ensures Closed(init + [p], fields, f)
  {
    var ms := init + [p];
    assert ms[..|ms| - 1] == init;
  }

  /** The first allow hides what it does not mention, whatever denies above it said. */
  lemma HidingStep(init: seq<Policy>, p: Policy, fields: set<string>, f: string)
    requires !Hidden(init, fields, f) && Hidden(init + [p], fields, f)
    requires FirstAllow(init).None? ==> AllowlistPriority(init).None?
    requires p.read.Some?
    ensures Closed(init + [p], fields, f)
  {
    var ms := init + [p];
    assert ms[..|ms| - 1] == init;
  }

  /**
   * A record field that the top matching allow does not mention is omitted; any
   * other mentioned field gets the most restrictive mode at the highest
   * priority mentioning it; the rest get no override.
   */
  lemma {:induction false} OverridesClosedForm(ms: seq<Policy>, fields: set<string>, f: string)
    requires Sorted(ms) && AllRead(ms)
    ensures Closed(ms, fields, f)
  {
    if ms != [] {
      var init, p := ms[..|ms| - 1], ms[|ms| - 1];
      assert ms == init + [p] && p in ms;
      OverridesClosedForm(init, fields, f);
      AllowlistIsFirstAllow(init);
      assert forall q :: q in init ==> q.priority >= p.priority;
      if Hidden(init, fields, f) {
        HiddenStep(init, p, fields, f);
      } else if Hidden(ms, fields, f) {
        HidingStep(init, p, fields, f);
      } else {
        ClosedStep(init, p, fields, f);
      }
    }
  }

  // ----- The overrides of a record, in modes -----

  /** The policy has a read map for the module and its conditions hold on the record. */
  predicate Applies(p: Policy, moduleKey: string, js: Js, record: Record) {
    p.moduleKey == moduleKey && "read" in p.actions && p.read.Some? && Evaluate(js, record, p.condition)
  }

  /** Of the applying allows the one of the highest priority, and of several such the first in the list. */
  ghost predicate Leads(ps: seq<Policy>, keep: Policy -> bool, i: int) {
    && 0 <= i < |ps| && keep(ps[i]) && ps[i].effect == Allow
    && forall j :: 0 <= j < |ps| && keep(ps[j]) && ps[j].effect == Allow ==>
         ps[j].priority < ps[i].priority || (ps[j].priority == ps[i].priority && i <= j)
  }

  /** The allow that leads the list so far. */
  function LeadAllow(ms: seq<Policy>): Option<Policy> {
    if ms == [] then None
    else
      var before, p := LeadAllow(ms[..|ms| - 1]), ms[|ms| - 1];
      if p.effect.Allow? && (before.None? || p.priority > before.value.priority) then Some(p) else before
  }

  lemma LeadAllowAppends(ms: seq<Policy>, p: Policy)
    ensures LeadAllow(ms + [p])
            == if p.effect.Allow? && (LeadAllow(ms).None? || p.priority > LeadAllow(ms).value.priority) then Some(p)
               else LeadAllow(ms)
  {
    assert (ms + [p])[..|ms|] == ms;
  }

  lemma {:induction false} LeadAllowLeads(ps: seq<Policy>, keep: Policy -> bool)
    ensures match LeadAllow(Where(ps, keep))
            case None => forall p :: p in ps && keep(p) ==> p.effect == Deny
            case Some(lead) => exists i :: Leads(ps, keep, i) && ps[i] == lead
  {
    if ps != [] {
      var init, last := ps[..|ps| - 1], ps[|ps| - 1];
      assert ps == init + [last];
      LeadAllowLeads(init, keep);
      WhereAppends(init, last, keep);
      LeadAllowAppends(Where(init, keep), last);
      hide Where, LeadAllow;
      if LeadAllow(Where(init, keep)).Some? {
        var i :| Leads(init, keep, i) && init[i] == LeadAllow(Where(init, keep)).value;
        LeadMoves(init, last, keep, i);
      } else if keep(last) && last.effect.Allow? {
        assert Leads(ps, keep, |init|);
      }
    }
  }

  lemma LeadMoves(init: seq<Policy>, last: Policy, keep: Policy -> bool, i: int)
    requires Leads(init, keep, i)
    ensures if keep(last) && last.effect.Allow? && last.priority > init[i].priority
            then Leads(init + [last], keep, |init|) else Leads(init + [last], keep, i)
  {
    var ps := init + [last];
    assert forall j :: 0 <= j < |init| ==> ps[j] == init[j];
  }

  /** Sorting brings the leading allow to the front of the allows. */
  lemma {:induction false} SortedLeadIsFirst(ms: seq<Policy>)
    ensures FirstAllow(SortByPriority(ms)) == LeadAllow(ms)
  {
    if ms != [] {
      var init, p := ms[..|ms| - 1], ms[|ms| - 1];
      SortedLeadIsFirst(init);
      InsertKeepsFirstAllow(SortByPriority(init), p);
      if p.effect.Allow? && (LeadAllow(init).None? || p.priority > LeadAllow(init).value.priority) {
        InsertLeads(SortByPriority(init), p);
      }
    }
  }

  lemma {:induction false} FirstAllowIsMember(s: seq<Policy>)
    ensures FirstAllow(s).Some? ==> FirstAllow(s).value in s
  {
    if s != [] { FirstAllowIsMember(s[..|s| - 1]); }
  }

  /** An allow above all others comes out first. */
  lemma {:induction false} InsertLeads(s: seq<Policy>, p: Policy)
    requires Sorted(s) && p.effect.Allow?
    requires FirstAllow(s).Some? ==> p.priority > FirstAllow(s).value.priority
    ensures FirstAllow(InsertStable(s, p)) == Some(p)
  {
    if s == [] || s[|s| - 1].priority >= p.priority {
      assert (s + [p])[..|s|] == s;
      FirstAllowIsMember(s);
    } else {
      var init, last := s[..|s| - 1], s[|s| - 1];
      InsertLeads(init, p);
      var rest := InsertStable(init, p);
      assert (rest + [last])[..|rest|] == rest;
    }
  }

  /** The policy stands at the highest priority at which an applying policy mentions the field. */
  ghost predicate Decisive(ps: seq<Policy>, keep: Policy -> bool, f: string, p: Policy) {
    && p in ps && keep(p) && p.read.Some? && f in p.read.value
    && forall q :: q in ps && keep(q) && q.read.Some? && f in q.read.value ==> q.priority <= p.priority
  }

  /**
   * The override a record field must have. A field of the record that the leading
   * allow leaves out is omitted. Otherwise the policies at the highest priority
   * that mentions the field decide: one that denies or says omit omits it, failing
   * that one that says mask masks it, and it is shown when all of them show it.
   * A field nobody mentions has no override.
   */
  ghost predicate OverrideIs(ps: seq<Policy>, keep: Policy -> bool, fields: seq<string>, f: string, mode: Option<Mode>)
  {
    if f in fields && exists i :: Leads(ps, keep, i) && ps[i].read.Some? && f !in ps[i].read.value then
      mode == Some(Omit)
    else if !exists p :: Decisive(ps, keep, f, p) then mode == None
    else if exists p :: Decisive(ps, keep, f, p) && (p.effect == Deny || p.read.value[f] == Omit) then
      mode == Some(Omit)
    else if exists p :: Decisive(ps, keep, f, p) && p.read.value[f] == Mask then mode == Some(Mask)
    else mode == Some(Show)
  }

  /** The closed form over the sorted matches is the one over the list as it was given. */
  lemma OverrideInModes(ps: seq<Policy>, keep: Policy -> bool, fields: seq<string>, f: string)
    requires forall p :: p in ps && keep(p) ==> p.read.Some?
    ensures var slot := SlotOf(SortByPriority(Where(ps, keep)), Elements(fields), f);
            OverrideIs(ps, keep, fields, f, if slot.Some? then Some(slot.value.mode) else None)
  {
    var ms := SortByPriority(Where(ps, keep));
    OverridesClosedForm(ms, Elements(fields), f);
    HiddenIffLeftOut(ps, keep, fields, f);
    hide SlotOf, Hidden, Leads, Governs, OverrideIs, Sorted, SortByPriority, Where, Unmentioned;
    if Hidden(ms, Elements(fields), f) {
      LeftOutIsOmitted(ps, keep, fields, f);
    } else if Unmentioned(ms, f) {
      UnmentionedHasNone(ps, keep, fields, f);
    } else {
      var slot := SlotOf(ms, Elements(fields), f).value;
      GoverningIsOverride(ps, keep, fields, f, slot.priority, slot.mode);
    }
  }

  lemma LeftOutIsOmitted(ps: seq<Policy>, keep: Policy -> bool, fields: seq<string>, f: string)
    requires f in fields && exists i :: Leads(ps, keep, i) && ps[i].read.Some? && f !in ps[i].read.value
    ensures OverrideIs(ps, keep, fields, f, Some(Omit))
  {
    hide Leads, Decisive;
  }

  lemma UnmentionedHasNone(ps: seq<Policy>, keep: Policy -> bool, fields: seq<string>, f: string)
    requires Unmentioned(SortByPriority(Where(ps, keep)), f)
    requires !(f in fields && exists i :: Leads(ps, keep, i) && ps[i].read.Some? && f !in ps[i].read.value)
    ensures OverrideIs(ps, keep, fields, f, None)
  {
    hide Where, SortByPriority, Leads;
    forall p ensures !Decisive(ps, keep, f, p) {
      if p in ps && keep(p) { assert p in SortByPriority(Where(ps, keep)); }
    }
  }

  lemma GoverningIsOverride(ps: seq<Policy>, keep: Policy -> bool, fields: seq<string>, f: string, n: int, m: Mode)
    requires forall p :: p in ps && keep(p) ==> p.read.Some?
    requires Governs(SortByPriority(Where(ps, keep)), f, n, m)
    requires !(f in fields && exists i :: Leads(ps, keep, i) && ps[i].read.Some? && f !in ps[i].read.value)
    ensures OverrideIs(ps, keep, fields, f, Some(m))
  {
    hide *;
    GoverningInModes(ps, keep, f, n, m);
    ModesDecide(ps, keep, fields, f, m);
  }

  lemma ModesDecide(ps: seq<Policy>, keep: Policy -> bool, fields: seq<string>, f: string, m: Mode)
    requires !(f in fields && exists i :: Leads(ps, keep, i) && ps[i].read.Some? && f !in ps[i].read.value)
    requires exists p :: Decisive(ps, keep, f, p)
    requires m == Omit <==> exists p :: Decisive(ps, keep, f, p) && (p.effect == Deny || p.read.value[f] == Omit)
    requires m == Mask ==> exists p :: Decisive(ps, keep, f, p) && p.read.value[f] == Mask
    requires m == Show ==> forall p :: Decisive(ps, keep, f, p) ==> p.read.value[f] == Show
    ensures OverrideIs(ps, keep, fields, f, Some(m))
  {
    hide Leads;
  }

  lemma HiddenIffLeftOut(ps: seq<Policy>, keep: Policy -> bool, fields: seq<string>, f: string)
    requires forall p :: p in ps && keep(p) ==> p.read.Some?
    ensures Hidden(SortByPriority(Where(ps, keep)), Elements(fields), f)
            <==> f in fields && exists i :: Leads(ps, keep, i) && ps[i].read.Some? && f !in ps[i].read.value
  {
    SortedLeadIsFirst(Where(ps, keep));
    LeadAllowLeads(ps, keep);
    hide Where, LeadAllow, SortByPriority, FirstAllow;
    if i, j :| Leads(ps, keep, i) && Leads(ps, keep, j) {
      assert i == j;
    }
  }

  /** The governing mode in terms of what the decisive policies say. */
  lemma GoverningInModes(ps: seq<Policy>, keep: Policy -> bool, f: string, n: int, m: Mode)
    requires forall p :: p in ps && keep(p) ==> p.read.Some?
    requires Governs(SortByPriority(Where(ps, keep)), f, n, m)
    ensures exists p :: Decisive(ps, keep, f, p)
    ensures m == Omit <==> exists p :: Decisive(ps, keep, f, p) && (p.effect == Deny || p.read.value[f] == Omit)
    ensures m == Mask ==> exists p :: Decisive(ps, keep, f, p) && p.read.value[f] == Mask
    ensures m == Show ==> forall p :: Decisive(ps, keep, f, p) ==> p.read.value[f] == Show
  {
    var ms := SortByPriority(Where(ps, keep));
    hide Where, SortByPriority;
    var g :| g in ms && Mentions(g, f) && g.priority == n && Incoming(g, f) == m;
    assert Decisive(ps, keep, f, g);
    forall p | Decisive(ps, keep, f, p) ensures p in ms && p.priority == n {
    }
  }

  /** The overrides of a record under a frozen list of policies, which is what the readers of a record ask for. */
  method ResolveFieldReadOverrides(lists: ReadPolicyLists, moduleKey: string, js: Js, record: Record,
      fields: seq<string>)
    returns (overrides: map<string, Mode>)
    requires lists.Valid()
    modifies lists`byModule
    ensures lists.Valid()
    ensures forall f :: OverrideIs(lists.policies, (p: Policy) => Applies(p, moduleKey, js, record), fields, f,
                                   if f in overrides then Some(overrides[f]) else None)
  {
    var ms := MatchingPolicies(lists, moduleKey, js, record);
    overrides := ApplyPolicies(ms, fields);
    MatchesApply(lists.policies, moduleKey, js, record);
    forall f ensures OverrideIs(lists.policies, (p: Policy) => Applies(p, moduleKey, js, record), fields, f,
                                if f in overrides then Some(overrides[f]) else None)
    {
      OverrideInModes(lists.policies, (p: Policy) => Applies(p, moduleKey, js, record), fields, f);
    }
  }

  lemma MatchesApply(ps: seq<Policy>, moduleKey: string, js: Js, record: Record)
    ensures UncachedMatches(ps, moduleKey, Matching(js, record))
            == SortByPriority(Where(ps, (p: Policy) => Applies(p, moduleKey, js, record)))
  {
    hide Evaluate;
    var matches := Matching(js, record);
    var kept, applying := (p: Policy) => Readable(p, moduleKey) && matches(p),
                          (p: Policy) => Applies(p, moduleKey, js, record);
    assert forall p :: matches(p) <==> Evaluate(js, record, p.condition);
    assert forall p :: kept(p) <==> applying(p);
    SameFilter(ps, kept, applying);
  }

  lemma {:induction false} SameFilter(ps: seq<Policy>, p: Policy -> bool, q: Policy -> bool)
    requires forall x :: p(x) <==> q(x)
    ensures Where(ps, p) == Where(ps, q)
  {
    if ps != [] { SameFilter(ps[..|ps| - 1], p, q); }
  }

  // ----- Order -----

  /** The override of a field for matching policies given in any order. */
  function Resolve(ms: seq<Policy>, fields: set<string>, f: string): Option<Mode> {
    var slot := SlotOf(SortByPriority(ms), fields, f);
    if slot.Some? then Some(slot.value.mode) else None
  }

  /** An allow that can end up as the allowlist. */
  predicate TopAllow(ms: seq<Policy>, p: Policy) {
    p in ms && p.effect.Allow? && forall q :: q in ms && q.effect.Allow? ==> q.priority <= p.priority
  }

  /**
   * The order of the list cannot matter for a field: the record lacks it, the
   * allows of the top allow priority all mention it or all leave it out, or
   * what mentions it omits it anyway.
   */
  ghost predicate OrderFree(ms: seq<Policy>, fields: set<string>, f: string) {
    || f !in fields
    || (forall p :: TopAllow(ms, p) ==> Mentions(p, f))
    || (forall p :: TopAllow(ms, p) ==> !Mentions(p, f))
    || (exists n: int :: Governs(ms, f, n, Omit))
  }

  lemma GovernsIsUnique(ms: seq<Policy>, f: string, n: int, m: Mode, n': int, m': Mode)
    requires Governs(ms, f, n, m) && Governs(ms, f, n', m')
    ensures n == n' && m == m'
  {
  }

  lemma SortedFirstAllow(ms: seq<Policy>)
    requires AllRead(ms)
    ensures var first := FirstAllow(SortByPriority(ms));
            && (first.Some? ==> TopAllow(ms, first.value))
            && (first.None? ==> forall p :: p in ms ==> p.effect.Deny?)
  {
    AllowlistIsFirstAllow(SortByPriority(ms));
  }

  /** Two orders of the same policies, when the order cannot matter. */
  lemma OrderFreeAgrees(ms: seq<Policy>, qs: seq<Policy>, fields: set<string>, f: string)
    requires AllRead(ms) && OrderFree(ms, fields, f)
    requires forall p :: p in ms <==> p in qs
    ensures Resolve(ms, fields, f) == Resolve(qs, fields, f)
  {
    var s, t := SortByPriority(ms), SortByPriority(qs);
    OverridesClosedForm(s, fields, f);
    OverridesClosedForm(t, fields, f);
    SortedFirstAllow(ms);
    SortedFirstAllow(qs);
    assert forall p :: TopAllow(ms, p) <==> TopAllow(qs, p);
    SameGoverning(s, t, f);
    SameGoverning(s, ms, f);
    if !Hidden(s, fields, f) && !Hidden(t, fields, f) && !Unmentioned(s, f) {
      var a, b := SlotOf(s, fields, f).value, SlotOf(t, fields, f).value;
      GovernsIsUnique(s, f, a.priority, a.mode, b.priority, b.mode);
    }
    if n: int :| Governs(ms, f, n, Omit) {
      OmitEitherWay(s, fields, f, n);
      OmitEitherWay(t, fields, f, n);
    }
  }

  lemma SameGoverning(s: seq<Policy>, t: seq<Policy>, f: string)
    requires forall p :: p in s <==> p in t
    ensures forall n: int, m :: Governs(s, f, n, m) <==> Governs(t, f, n, m)
    ensures Unmentioned(s, f) <==> Unmentioned(t, f)
  {
  }

  lemma OmitEitherWay(s: seq<Policy>, fields: set<string>, f: string, n: int)
    requires Closed(s, fields, f) && Governs(s, f, n, Omit)
    ensures SlotOf(s, fields, f).Some? && SlotOf(s, fields, f).value.mode == Omit
  {
    if !Hidden(s, fields, f) {
      var a := SlotOf(s, fields, f).value;
      GovernsIsUnique(s, f, n, Omit, a.priority, a.mode);
    }
  }

  /** Inserting behind the first allow leaves it first. */
  lemma {:induction false} InsertKeepsFirstAllow(s: seq<Policy>, p: Policy)
    requires Sorted(s)
    ensures p.effect.Deny? ==> FirstAllow(InsertStable(s, p)) == FirstAllow(s)
    ensures FirstAllow(s).Some? && p.priority <= FirstAllow(s).value.priority ==>
        FirstAllow(InsertStable(s, p)) == FirstAllow(s)
  {
    if s == [] || s[|s| - 1].priority >= p.priority {
      assert (s + [p])[..|s|] == s;
    } else {
      var init, last := s[..|s| - 1], s[|s| - 1];
      assert s == init + [last];
      InsertKeepsFirstAllow(init, p);
      var rest := InsertStable(init, p);
      assert (rest + [last])[..|rest|] == rest;
    }
  }

  /** A top allow at the head of the list becomes the allowlist. */
  lemma {:induction false} HeadBecomesAllowlist(a: Policy, rest: seq<Policy>)
    requires a.effect.Allow? && forall p :: p in rest && p.effect.Allow? ==> p.priority <= a.priority
    ensures FirstAllow(SortByPriority([a] + rest)) == Some(a)
  {
    hide Sorted;
    if rest == [] {
      assert [a] + rest == [a] && [a][..0] == [];
      SortAppends([], a);
      assert FirstAllow([a]) == Some(a);
    } else {
      var init, last := rest[..|rest| - 1], rest[|rest| - 1];
      assert rest == init + [last];
      HeadBecomesAllowlist(a, init);
      assert [a] + rest == ([a] + init) + [last];
      SortAppends([a] + init, last);
      InsertKeepsFirstAllow(SortByPriority([a] + init), last);
    }
  }

  /** The same policies with one of them moved to the front. */
  lemma MoveToFront(ms: seq<Policy>, a: Policy) returns (rest: seq<Policy>)
    requires a in ms
    ensures multiset([a] + rest) == multiset(ms)
    ensures forall p :: p in [a] + rest <==> p in ms
  {
    var i :| 0 <= i < |ms| && ms[i] == a;
    rest := ms[..i] + ms[i + 1..];
    assert ms == ms[..i] + [a] + ms[i + 1..];
    SameMembers([a] + rest, ms);
  }

  lemma SameMembers(a: seq<Policy>, b: seq<Policy>)
    requires multiset(a) == multiset(b)
    ensures forall p :: p in a <==> p in b
  {
    assert forall p :: p in a <==> p in multiset(a);
    assert forall p :: p in b <==> p in multiset(b);
  }

  /** With a at the front the field is hidden exactly when a does not mention it. */
  lemma FrontDecides(ms: seq<Policy>, a: Policy, fields: set<string>, f: string) returns (qs: seq<Policy>)
    requires AllRead(ms) && TopAllow(ms, a) && f in fields
    requires !exists n: int :: Governs(ms, f, n, Omit)
    requires exists p :: p in ms && Mentions(p, f)
    ensures multiset(qs) == multiset(ms)
    ensures Resolve(qs, fields, f) == Some(Omit) <==> !Mentions(a, f)
  {
    var rest := MoveToFront(ms, a);
    qs := [a] + rest;
    assert forall p :: p in rest ==> p in qs;
    HeadBecomesAllowlist(a, rest);
    var s := SortByPriority(qs);
    OverridesClosedForm(s, fields, f);
    SameGoverning(s, ms, f);
  }

  /**
   * Whether the order of the policies matters for a field, exactly: every
   * reordering gives the same override if and only if the field is order-free.
   */
  lemma OrderMattersIff(ms: seq<Policy>, fields: set<string>, f: string)
    requires AllRead(ms)
    ensures (forall qs :: multiset(qs) == multiset(ms) ==> Resolve(qs, fields, f) == Resolve(ms, fields, f))
            <==> OrderFree(ms, fields, f)
  {
    if OrderFree(ms, fields, f) {
      forall qs | multiset(qs) == multiset(ms) ensures Resolve(qs, fields, f) == Resolve(ms, fields, f) {
        SameMembers(ms, qs);
        OrderFreeAgrees(ms, qs, fields, f);
      }
    } else {
      var a :| TopAllow(ms, a) && !Mentions(a, f);
      var b :| TopAllow(ms, b) && Mentions(b, f);
      var hidden := FrontDecides(ms, a, fields, f);
      var shown := FrontDecides(ms, b, fields, f);
      assert Resolve(hidden, fields, f) != Resolve(shown, fields, f);
    }
  }

  /** With one allow at the top allow priority the order never matters. */
  lemma SingleTopAllowIsOrderFree(ms: seq<Policy>, fields: set<string>, f: string)
    requires forall p, q :: TopAllow(ms, p) && TopAllow(ms, q) ==> p == q
    ensures OrderFree(ms, fields, f)
  {
    if p :| TopAllow(ms, p) {
      if Mentions(p, f) {
        assert forall q :: TopAllow(ms, q) ==> Mentions(q, f);
      } else {
        assert forall q :: TopAllow(ms, q) ==> !Mentions(q, f);
      }
    }
  }
}
