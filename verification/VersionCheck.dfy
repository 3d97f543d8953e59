/**
 * Exactly when comparing versions is enough: which other writers keep every
 * authorised write on the row it was authorised for.
 */
module VersionCheck {
  import opened Common
  import opened Predicates
  import opened AccessDecisions
  import opened FieldWrites
  import opened AuthorizedWrites
  import opened AuthorizedWriteProofs

  // ----- One more call -----

  predicate Mentions(e: Event, p: Pid) {
    (e.Start? || e.Advance?) && e.p == p
  }

  predicate Unmentioned(events: seq<Event>, p: Pid) {
    forall e :: e in events ==> !Mentions(e, p)
  }

  function With(w: World, p: Pid, c: Call): World {
    w.(calls := w.calls[p := c])
  }

  /** A statement depends on its own call and on the table. */
  lemma AdvanceIsLocal(s: Setting, w: World, v: World, q: Pid)
    requires q in w.calls && q in v.calls && w.calls[q] == v.calls[q] && w.table == v.table
    ensures var a, b := AdvanceCall(s, w, q), AdvanceCall(s, v, q);
            q in a.calls && q in b.calls && a.calls[q] == b.calls[q] && a.table == b.table
  {
    hide Authorised, FilterOf, Selected, Stored, VersionOf, CanWrite, UpdateRow, DeleteRow, Find, AccessFilter,
        KeyFilter;
  }

  lemma AdvanceMoves(s: Setting, w: World, q: Pid)
    requires q in w.calls
    ensures var v := AdvanceCall(s, w, q);
            q in v.calls && v == Moved(w, q, v.calls[q].phase, v.table)
  {
    hide Authorised, FilterOf, Selected, Stored, VersionOf, CanWrite, UpdateRow, DeleteRow;
    assert w.calls[q := w.calls[q]] == w.calls;
  }

  /** A call that does nothing does not disturb the others. */
  lemma AdvanceIgnores(s: Setting, w: World, q: Pid, p: Pid, c: Call)
    requires q in w.calls && q != p
    ensures AdvanceCall(s, With(w, p, c), q) == With(AdvanceCall(s, w, q), p, c)
    ensures p in AdvanceCall(s, w, q).calls <==> p in w.calls
  {
    hide AdvanceCall;
    AdvanceMoves(s, w, q);
    AdvanceMoves(s, With(w, p, c), q);
    AdvanceIsLocal(s, w, With(w, p, c), q);
    var d := AdvanceCall(s, w, q).calls[q];
    assert w.calls[p := c][q := d] == w.calls[q := d][p := c];
  }

  lemma OthersIgnore(s: Setting, w: World, e: Event, p: Pid, c: Call)
    requires !Mentions(e, p)
    ensures Next(s, With(w, p, c), e) == With(Next(s, w, e), p, c)
    ensures p in Next(s, w, e).calls <==> p in w.calls
  {
    hide AdvanceCall, Stored, VersionOf, Keyed;
    match e
    case Start(q, id, patch, expected) =>
      var c0 := Call(id, patch, expected, Reading);
      assert w.calls[p := c][q := c0] == w.calls[q := c0][p := c];
    case Advance(q) => if q in w.calls { AdvanceIgnores(s, w, q, p, c); }
    case _ =>
  }

  lemma {:induction false} ExecIgnores(s: Setting, w: World, events: seq<Event>, p: Pid, c: Call)
    requires Unmentioned(events, p)
    ensures Exec(s, With(w, p, c), events) == With(Exec(s, w, events), p, c)
    ensures p in Exec(s, w, events).calls <==> p in w.calls
  {
    hide Next, With;
    if events != [] {
      var init, last := events[..|events| - 1], events[|events| - 1];
      assert last in events && forall e :: e in init ==> e in events;
      ExecIgnores(s, w, init, p, c);
      OthersIgnore(s, Exec(s, w, init), last, p, c);
    }
  }

  lemma {:induction false} ExecAppends(s: Setting, w: World, a: seq<Event>, b: seq<Event>)
    ensures Exec(s, w, a + b) == Exec(s, Exec(s, w, a), b)
  {
    hide Next;
    if b == [] {
      assert a + b == a;
    } else {
      assert (a + b)[..|a + b| - 1] == a + b[..|b| - 1];
      ExecAppends(s, w, a, b[..|b| - 1]);
    }
  }

  lemma ExecOne(s: Setting, w: World, e: Event)
    ensures Exec(s, w, [e]) == Next(s, w, e)
  {
    assert [e][..0] == [];
  }

  /** The run with one more call: it reads after i events and comes to its write after j. */
  function Probe(events: seq<Event>, i: nat, j: nat, p: Pid, c: Call): seq<Event>
    requires i <= j <= |events|
  {
    events[..i] + [Start(p, c.id, c.patch, c.expected)] + [Advance(p)] + events[i..j]
    + (if c.patch.Some? then [Advance(p)] else [])
  }

  function Fresh(c: Call): Call {
    c.(phase := Reading)
  }

  /** Where the first statement leaves the call. */
  ghost function AfterRead(s: Setting, t: Table, c: Call): Call {
    AdvanceCall(s, World(t, {}, map[0 := Fresh(c)]), 0).calls[0]
  }

  lemma ReadEffect(s: Setting, w: World, p: Pid, c: Call)
    ensures AdvanceCall(s, With(w, p, Fresh(c)), p) == With(w, p, AfterRead(s, w.table, c))
  {
    hide Authorised, FilterOf, Selected, VersionOf, CanWrite;
    var v := AdvanceCall(s, With(w, p, Fresh(c)), p);
    assert v.calls == w.calls[p := AfterRead(s, w.table, c)];
  }

  lemma NextAdvances(s: Setting, w: World, p: Pid)
    requires p in w.calls
    ensures Next(s, w, Advance(p)) == AdvanceCall(s, w, p)
  {
  }

  lemma NextStarts(s: Setting, w: World, p: Pid, c: Call)
    requires p !in w.calls && (c.patch.Some? || c.expected.Some?)
    ensures Next(s, w, Start(p, c.id, c.patch, c.expected)) == With(w, p, Fresh(c))
  {
  }

  /** The world the probe leads to, before the last read of an update. */
  lemma ProbeReaches(s: Setting, events: seq<Event>, i: nat, j: nat, p: Pid, c: Call)
    requires i <= j <= |events| && Unmentioned(events, p) && (c.patch.Some? || c.expected.Some?)
    ensures var w := With(WorldAt(s, events, j), p, AfterRead(s, WorldAt(s, events, i).table, c));
            Exec(s, INITIAL, Probe(events, i, j, p, c)) == if c.patch.Some? then AdvanceCall(s, w, p) else w
  {
    hide Next, AdvanceCall, AfterRead;
    var a, b, d := events[..i], [Start(p, c.id, c.patch, c.expected)], events[i..j];
    var w := WorldAt(s, events, i);
    assert Unmentioned(a, p) && Unmentioned(d, p);
    ExecIgnores(s, INITIAL, a, p, c);
    NextStarts(s, w, p, c);
    ExecAppends(s, INITIAL, a, b);
    ExecOne(s, w, b[0]);
    var u := With(w, p, Fresh(c));
    ExecAppends(s, INITIAL, a + b, [Advance(p)]);
    ExecOne(s, u, Advance(p));
    NextAdvances(s, u, p);
    ReadEffect(s, w, p, c);
    var c1 := AfterRead(s, w.table, c);
    ExecAppends(s, INITIAL, a + b + [Advance(p)], d);
    ExecIgnores(s, w, d, p, c1);
    ExecAppends(s, INITIAL, a, d);
    assert a + d == events[..j];
    var v := With(WorldAt(s, events, j), p, c1);
    assert Exec(s, INITIAL, a + b + [Advance(p)] + d) == v;
    if c.patch.Some? {
      ExecAppends(s, INITIAL, a + b + [Advance(p)] + d, [Advance(p)]);
      ExecOne(s, v, Advance(p));
      NextAdvances(s, v, p);
    } else {
      assert a + b + [Advance(p)] + d + [] == a + b + [Advance(p)] + d;
    }
  }

  lemma AfterReadCases(s: Setting, t: Table, c: Call)
    ensures var d := AfterRead(s, t, c);
            && d == c.(phase := d.phase)
            && (c.id in t && Clears(s, c, t[c.id]) ==>
                  && Working(d.phase) && d.phase.snapshot == t[c.id]
                     && VersionOf(s.entity, t[c.id]) == Some(d.phase.version)
                  && (d.phase.Locating? <==> c.patch.Some?))
            && (!(c.id in t && Clears(s, c, t[c.id])) && (c.patch.Some? || c.expected.Some?) ==> d.phase.Done?)
  {
    hide Authorised, FilterOf, Selected, VersionOf;
  }

  lemma LocateEffect(s: Setting, w: World, p: Pid, c: Call)
    ensures var u := AdvanceCall(s, With(w, p, c), p);
            && (c.phase.Locating? && c.id in w.table && Finds(s, c, w.table[c.id]) ==>
                  u == With(w, p, c.(phase := Writing(c.phase.snapshot, c.phase.version))))
            && (c.phase.Locating? && !(c.id in w.table && Finds(s, c, w.table[c.id])) ==>
               u == With(w, p, c.(phase := Done(Stale))))
            && (c.phase.Done? ==> u == With(w, p, c))
  {
    hide Authorised, FilterOf, Selected, VersionOf;
    var u := AdvanceCall(s, With(w, p, c), p);
    assert u.calls == w.calls[p := u.calls[p]];
  }

  /** What a call demands of a row does not depend on its phase. */
  lemma SameDemands(s: Setting, c: Call, d: Call, t: Table)
    requires d == c.(phase := d.phase)
    ensures c.id in t ==> Clears(s, c, t[c.id]) == Clears(s, d, t[c.id]) == Clears(s, Fresh(c), t[c.id])
    ensures c.id in t ==> Finds(s, c, t[c.id]) == Finds(s, d, t[c.id]) == Finds(s, Fresh(c), t[c.id])
  {
  }

  lemma SameTableOk(s: Setting, w: World, u: World)
    requires TableOk(s, w) && u.table == w.table && u.used == w.used
    ensures TableOk(s, u)
  {
  }

  /** The write of the extra call goes wrong exactly at twins. */
  lemma ProbeLandsIff(s: Setting, events: seq<Event>, i: nat, j: nat, p: Pid, c: Call)
    requires SettingOk(s) && i <= j <= |events| && Unmentioned(events, p) && (c.patch.Some? || c.expected.Some?)
    ensures Lands(s, Exec(s, INITIAL, Probe(events, i, j, p, c)), p) <==> !Twins(s, events, i, j, Fresh(c))
    ensures var u := Exec(s, INITIAL, Probe(events, i, j, p, c));
            u.table == WorldAt(s, events, j).table && p in u.calls && u.calls[p] == c.(phase := u.calls[p].phase)
  {
    hide AdvanceCall, AfterRead, Finds, Authorised, VersionOf, TableOk, Probe;
    var t, w := WorldAt(s, events, i).table, WorldAt(s, events, j);
    var d := AfterRead(s, t, c);
    ProbeReaches(s, events, i, j, p, c);
    AfterReadCases(s, t, c);
    LocateEffect(s, w, p, d);
    Reached(s, events, j);
    var u := Exec(s, INITIAL, Probe(events, i, j, p, c));
    assert u.table == w.table && p in u.calls;
    SameTableOk(s, w, u);
    SameDemands(s, c, d, w.table);
    SameDemands(s, c, u.calls[p], t);
    SameDemands(s, c, u.calls[p], w.table);
    AppliesWhenItWrites(s, u, p);
  }

  lemma ClearedAsks(s: Setting, c: Call, r: Record)
    requires Clears(s, c, r)
    ensures c.patch.Some? || c.expected.Some?
  {
  }

  /** A number that no event of the run uses for a call. */
  function Unused(events: seq<Event>): (p: Pid)
    ensures forall e: Event :: e in events && (e.Start? || e.Advance?) ==> e.p < p
  {
    if events == [] then 0
    else
      var last, rest := events[|events| - 1], Unused(events[..|events| - 1]);
      assert forall e :: e in events ==> e in events[..|events| - 1] || e == last;
      if (last.Start? || last.Advance?) && last.p >= rest then last.p + 1 else rest
  }

  /** Every call that could be interleaved with the run writes, if it writes, on the row it has read. */
  ghost predicate AlwaysLands(s: Setting, events: seq<Event>) {
    forall i: nat, j: nat, p, c: Call ::
        i <= j <= |events| && Unmentioned(events, p) && (c.patch.Some? || c.expected.Some?) ==>
      Lands(s, Exec(s, INITIAL, Probe(events, i, j, p, c)), p)
  }

  /**
   * The version check is enough for every interleaved call exactly when at no two
   * moments a key holds different rows under one version that one call could take
   * for each other.
   */
  lemma LandsIffNoTwins(s: Setting, events: seq<Event>)
    requires SettingOk(s)
    ensures AlwaysLands(s, events) <==> NoTwins(s, events)
  {
    hide Exec, Lands, Clears, Finds, VersionOf, WorldAt;
    if NoTwins(s, events) {
      forall i: nat, j: nat, p, c: Call | i <= j <= |events| && Unmentioned(events, p)
          && (c.patch.Some? || c.expected.Some?)
        ensures Lands(s, Exec(s, INITIAL, Probe(events, i, j, p, c)), p)
      {
        ProbeLandsIff(s, events, i, j, p, c);
      }
    }
    if AlwaysLands(s, events) {
      var p := Unused(events);
      forall i: nat, j: nat, c | i <= j <= |events| ensures !Twins(s, events, i, j, c) {
        SameDemands(s, c, c, WorldAt(s, events, i).table);
        SameDemands(s, c, c, WorldAt(s, events, j).table);
        if Twins(s, events, i, j, c) {
          assert Clears(s, c, WorldAt(s, events, i).table[c.id]);
          ClearedAsks(s, c, WorldAt(s, events, i).table[c.id]);
          ProbeLandsIff(s, events, i, j, p, c);
        }
      }
    }
  }

  // ----- What other writers must keep -----

  /** No key holds two different rows under one version, at any two moments of the run. */
  ghost predicate OneRowPerVersion(s: Setting, events: seq<Event>) {
    forall i: nat, j: nat, id :: i <= j <= |events| ==> OneRowAt(s, events, i, j, id)
  }

  ghost predicate OneRowAt(s: Setting, events: seq<Event>, i: nat, j: nat, id: Prim)
    requires i <= j <= |events|
  {
    var t, u := WorldAt(s, events, i).table, WorldAt(s, events, j).table;
    id in t && id in u && VersionOf(s.entity, t[id]) == VersionOf(s.entity, u[id]) ==> t[id] == u[id]
  }

  /** A call that changes nothing, which policies can keep from no row. */
  function Touch(id: Prim): Call {
    Call(id, Some(map[]), None, Reading)
  }

  /** Every row may be written by somebody. */
  ghost predicate Open(s: Setting) {
    forall id, r :: Keyed(s.entity, id, r) ==> Clears(s, Touch(id), r)
  }

  /** One row per version is enough whatever the policies say, and where they let every row be written it is needed. */
  lemma LandsIffOneRowPerVersion(s: Setting, events: seq<Event>)
    requires SettingOk(s)
    ensures OneRowPerVersion(s, events) ==> AlwaysLands(s, events)
    ensures Open(s) ==> (AlwaysLands(s, events) <==> OneRowPerVersion(s, events))
  {
    hide AlwaysLands, WorldAt, Clears, Finds, VersionOf, Keyed;
    LandsIffNoTwins(s, events);
    if OneRowPerVersion(s, events) {
      forall i: nat, j: nat, c | i <= j <= |events| ensures !Twins(s, events, i, j, c) {
        assert OneRowAt(s, events, i, j, c.id);
      }
    }
    if Open(s) && NoTwins(s, events) {
      forall i: nat, j: nat, id | i <= j <= |events| ensures OneRowAt(s, events, i, j, id) {
        assert !Twins(s, events, i, j, Touch(id));
        if id in WorldAt(s, events, i).table && id in WorldAt(s, events, j).table {
          OpenFinds(s, events, i, id);
          OpenFinds(s, events, j, id);
        }
      }
    }
  }

  lemma OpenFinds(s: Setting, events: seq<Event>, i: nat, id: Prim)
    requires SettingOk(s) && Open(s) && i <= |events| && id in WorldAt(s, events, i).table
    ensures Clears(s, Touch(id), WorldAt(s, events, i).table[id])
        && Finds(s, Touch(id), WorldAt(s, events, i).table[id])
  {
    hide Finds, Authorised, VersionOf, WorldAt;
    Reached(s, events, i);
  }

  /** A placed row has a higher version than any row its key has held. */
  ghost predicate RaisesAt(s: Setting, events: seq<Event>, k: nat)
    requires k < |events|
  {
    var w, e := WorldAt(s, events, k), events[k];
    Places(e) && Next(s, w, e).table != w.table ==>
      forall i :: 0 <= i <= k && e.id in WorldAt(s, events, i).table ==>
                    Above(s, e.r, WorldAt(s, events, i).table[e.id])
  }

  predicate Above(s: Setting, r: Record, q: Record) {
    VersionOf(s.entity, q).Some? && VersionOf(s.entity, r).Some?
      && VersionOf(s.entity, q).value < VersionOf(s.entity, r).value
  }

  lemma {:induction false} RaisingKeepsApart(s: Setting, events: seq<Event>, i: nat, j: nat, id: Prim)
    requires SettingOk(s) && i <= j <= |events| && (forall k: nat :: k < |events| ==> RaisesAt(s, events, k))
    requires id in WorldAt(s, events, i).table && id in WorldAt(s, events, j).table
    ensures WorldAt(s, events, i).table[id] == WorldAt(s, events, j).table[id]
            || Above(s, WorldAt(s, events, j).table[id], WorldAt(s, events, i).table[id])
    ensures id in WorldAt(s, events, j).used
    decreases j
  {
    hide Next, WorldAt, VersionOf, CallsOk, Keyed;
    Reached(s, events, j);
    if i < j {
      var w := WorldAt(s, events, j - 1);
      Reached(s, events, i);
      Reached(s, events, j - 1);
      WorldMoves(s, events, j - 1);
      Step(s, w, events[j - 1], id);
      UsedGrows(s, events, i, j - 1);
      assert RaisesAt(s, events, j - 1);
      if id in w.table { RaisingKeepsApart(s, events, i, j - 1, id); }
    }
  }

  lemma {:induction false} UsedGrows(s: Setting, events: seq<Event>, i: nat, j: nat)
    requires SettingOk(s) && i <= j <= |events|
    ensures WorldAt(s, events, i).used <= WorldAt(s, events, j).used
    decreases j
  {
    hide Next, WorldAt;
    if i < j {
      UsedGrows(s, events, i, j - 1);
      Reached(s, events, j - 1);
      WorldMoves(s, events, j - 1);
      Step(s, WorldAt(s, events, j - 1), events[j - 1], Null);
    }
  }

  /** Writers that raise the version above all earlier ones of the key keep every authorised write on its row. */
  lemma RaisingVersionsIsEnough(s: Setting, events: seq<Event>)
    requires SettingOk(s) && (forall k: nat :: k < |events| ==> RaisesAt(s, events, k))
    ensures OneRowPerVersion(s, events)
  {
    hide WorldAt, VersionOf, RaisesAt;
    forall i: nat, j: nat, id | i <= j <= |events| ensures OneRowAt(s, events, i, j, id) {
      var t, u := WorldAt(s, events, i).table, WorldAt(s, events, j).table;
      if id in t && id in u { RaisingKeepsApart(s, events, i, j, id); }
    }
  }

  // ----- Writers that place a row under an old version -----

  /** A row is inserted, and another one takes its place under the same version. */
  function Placing(id: Prim, first: Record, second: Record, taken: bool): seq<Event> {
    if taken then [Insert(id, first), Remove(id), Reuse(id, second)] else [Insert(id, first), Overwrite(id, second)]
  }

  lemma PlacingHolds(s: Setting, id: Prim, first: Record, second: Record, taken: bool)
    requires Keyed(s.entity, id, first) && Keyed(s.entity, id, second)
    ensures var events := Placing(id, first, second, taken);
            WorldAt(s, events, 1).table == map[id := first] && WorldAt(s, events, |events|).table == map[id := second]
  {
    hide WorldAt, Keyed;
    var events := Placing(id, first, second, taken);
    StartsEmpty(s, events);
    WorldMoves(s, events, 0);
    WorldMoves(s, events, 1);
    if taken { WorldMoves(s, events, 2); }
  }

  /**
   * Deleting a row and taking its key again, or overwriting it without moving the
   * version, defeats the check for every call that the first row lets through and
   * whose filter selects the second.
   */
  lemma PlacedRowsAreTwins(s: Setting, c: Call, first: Record, second: Record, taken: bool)
    requires SettingOk(s) && Keyed(s.entity, c.id, first) && Keyed(s.entity, c.id, second) && first != second
    requires VersionOf(s.entity, first) == VersionOf(s.entity, second) && Clears(s, c, first) && Finds(s, c, second)
    ensures var events := Placing(c.id, first, second, taken);
            var w := Exec(s, INITIAL, Probe(events, 1, |events|, 0, c));
            && w.table == map[c.id := second] && !Lands(s, w, 0)
            && 0 in w.calls
            && AdvanceCall(s, w, 0).table
               == if c.patch.Some? then map[c.id := Stored(s.entity, second, c.patch.value)] else map[]
    ensures !AlwaysLands(s, Placing(c.id, first, second, taken))
  {
    hide Finds, Authorised, VersionOf, Exec, Lands, Probe, WorldAt;
    var events := Placing(c.id, first, second, taken);
    PlacingHolds(s, c.id, first, second, taken);
    SameDemands(s, c, c, map[c.id := first]);
    SameDemands(s, c, c, map[c.id := second]);
    assert Twins(s, events, 1, |events|, Fresh(c));
    ProbeLandsIff(s, events, 1, |events|, 0, c);
    WritesWrongly(s, Probe(events, 1, |events|, 0, c), c, second);
  }

  lemma WritesWrongly(s: Setting, events: seq<Event>, c: Call, r: Record)
    requires SettingOk(s) && VersionOf(s.entity, r).Some?
    requires var w := Exec(s, INITIAL, events);
             && w.table == map[c.id := r] && 0 in w.calls && w.calls[0] == c.(phase := w.calls[0].phase)
             && !Lands(s, w, 0)
    ensures AdvanceCall(s, Exec(s, INITIAL, events), 0).table
            == if c.patch.Some? then map[c.id := Stored(s.entity, r, c.patch.value)] else map[]
  {
    hide AdvanceCall, Exec, Finds, Stored, VersionOf, Authorised;
    assert events[..|events|] == events;
    Reached(s, events, |events|);
    AdvanceEffect(s, Exec(s, INITIAL, events), 0);
  }

  // ----- Two settings -----

  /** One policy: updates are allowed where the condition holds. */
  function Single(js: Js, condition: Node): Setting {
    var policy := Policy("docs", ["update"], Allow, 0, condition, None, []);
    Setting(Authorizer(js, And([]), [policy], "docs"), Entity("id", "version", {"id", "version"}))
  }

  lemma OneAllowScopes(js: Js, r: Record, p: Policy)
    requires p.effect.Allow? && NotFree(p.condition)
    ensures Collapsed(js, r, ActionScope([p], Deny)) <==> Evaluate(js, r, p.condition)
  {
    hide Evaluate, TieredOutcome, Decide;
    ScopeIsTheDecision(js, r, [p], Deny);
    if Matching(js, r)(p) {
      assert p in [p] && IsTop([p], Matching(js, r), p.priority);
      DecisionAtTop([p], Matching(js, r), Deny, p.priority);
    } else {
      DecisionWithoutMatch([p], Matching(js, r), Deny);
    }
  }

  lemma OneAllowPermits(js: Js, r: Record, p: Policy, fields: seq<string>)
    requires p.effect.Allow? && p.write == []
    ensures EnforceWrite([p], Matching(js, r), false, fields).Permitted? <==> Evaluate(js, r, p.condition)
  {
    hide Evaluate, EnforceWrite;
    if Matching(js, r)(p) {
      assert p in [p] && IsTop([p], Matching(js, r), p.priority);
      PermittedAtTop([p], Matching(js, r), false, fields, p.priority);
    } else {
      OutcomeWithoutMatch([p], Matching(js, r), false, fields);
    }
  }

  lemma OneRelevant(p: Policy)
    requires "update" in p.actions
    ensures Relevant([p], p.moduleKey, "update") == [p]
  {
    assert p in [p] && [p][..0] == [];
    assert Where<Policy>([], (q: Policy) => q.moduleKey == p.moduleKey && "update" in q.actions) == [];
  }

  lemma SingleDecides(js: Js, condition: Node, id: Prim, patch: Record, r: Record)
    requires NotFree(condition) && Keyed(Single(js, condition).entity, id, r)
    ensures var s, c := Single(js, condition), Call(id, Some(patch), None, Reading);
            && (Finds(s, c, r) <==> Evaluate(js, r, condition))
            && (Authorised(s.auth, c.patch, r) <==> Evaluate(js, Patched(r, patch), condition))
  {
    hide Evaluate, ActionScope, EnforceWrite, VersionOf, Relevant;
    var s, c := Single(js, condition), Call(id, Some(patch), None, Reading);
    var p := s.auth.policies[0];
    var relevant := Relevant(s.auth.policies, "docs", "update");
    OneRelevant(p);
    OneAllowScopes(js, r, p);
    OneAllowPermits(js, Patched(r, patch), p, Listed(patch.Keys));
    var parts := [And([]), ActionScope(relevant, Deny), Condition("id", Eq, One(id))];
    assert FilterOf(s.auth, s.entity, id, c.patch, None) == And(parts);
    assert parts[1] in parts;
    assert Collapsed(js, r, And([]));
    assert Collapsed(js, r, parts[2]);
  }

  /** A policy without a condition lets every row be written. */
  lemma OpenSettingExists(js: Js)
    ensures Open(Single(js, And([])))
  {
    hide Finds, Authorised, VersionOf, Patched;
    var s := Single(js, And([]));
    forall id, r | Keyed(s.entity, id, r) ensures Clears(s, Touch(id), r) {
      SingleDecides(js, And([]), id, map[], r);
    }
  }

  function OwnedOrDraft(): Node {
    Or([Condition("owner", Eq, One(Str("me"))), Condition("status", Eq, One(Str("draft")))])
  }

  function Doc(owner: string, status: string): Record {
    map["id" := Scalar(Str("1")), "version" := Scalar(Num(1.0)),
        "owner" := Scalar(Str(owner)), "status" := Scalar(Str(status))]
  }

  lemma OwnedOrDraftHolds(js: Js, r: Record)
    requires "owner" in r && "status" in r && r["owner"].Scalar? && r["status"].Scalar? && r["owner"].p.Str?
        && r["status"].p.Str?
    ensures Evaluate(js, r, OwnedOrDraft()) <==> r["owner"].p.text == "me" || r["status"].p.text == "draft"
  {
    var parts := [Condition("owner", Eq, One(Str("me"))), Condition("status", Eq, One(Str("draft")))];
    assert OwnedOrDraft() == Or(parts) && parts[0] in parts && parts[1] in parts;
    assert forall p :: p in parts ==> p == parts[0] || p == parts[1];
  }

  lemma DocIsRow(entity: Entity, owner: string, status: string)
    requires entity.primaryKey == "id" && entity.versionField == "version"
    ensures var r := Doc(owner, status);
            && Keyed(entity, Str("1"), r) && VersionOf(entity, r) == Some(1)
            && Stored(entity, r, map["status" := Scalar(Str("public"))])
               == Doc(owner, "public")["version" := Scalar(Num(2.0))]
  {
    assert (1.0).Floor == 1;
    assert Patched(Doc(owner, status), map["status" := Scalar(Str("public"))]) == Doc(owner, "public");
  }

  /**
   * With the policy that I may update what is mine or a draft: I read my own
   * document and publish it, another owner's draft takes its place under the same
   * version, and my update publishes the draft, which the policy forbids.
   */
  lemma AnothersDraftIsPublished(js: Js, taken: bool)
    ensures var s := Single(js, OwnedOrDraft());
            var c := Call(Str("1"), Some(map["status" := Scalar(Str("public"))]), None, Reading);
            var events := Placing(c.id, Doc("me", "new"), Doc("you", "draft"), taken);
            var w := Exec(s, INITIAL, Probe(events, 1, |events|, 0, c));
            && !AlwaysLands(s, events) && !Lands(s, w, 0) && w.table == map[c.id := Doc("you", "draft")]
            && 0 in w.calls
            && AdvanceCall(s, w, 0).table == map[c.id := Doc("you", "public")["version" := Scalar(Num(2.0))]]
            && Authorised(s.auth, c.patch, Doc("me", "new"))
            && !Authorised(s.auth, c.patch, Doc("you", "draft"))
  {
    hide Finds, Authorised, Exec, Probe, Lands, Evaluate, Stored, VersionOf, AdvanceCall, Keyed;
    var s, id := Single(js, OwnedOrDraft()), Str("1");
    DocIsRow(s.entity, "me", "new");
    DocIsRow(s.entity, "you", "draft");
    var patch: Record := map["status" := Scalar(Str("public"))];
    var c, mine, draft := Call(id, Some(patch), None, Reading), Doc("me", "new"), Doc("you", "draft");
    OwnedOrDraftHolds(js, mine);
    OwnedOrDraftHolds(js, draft);
    OwnedOrDraftHolds(js, Patched(mine, patch));
    OwnedOrDraftHolds(js, Patched(draft, patch));
    SingleDecides(js, OwnedOrDraft(), id, patch, mine);
    SingleDecides(js, OwnedOrDraft(), id, patch, draft);
    PlacedRowsAreTwins(s, c, mine, draft, taken);
  }
}
