/** What an authorised write lands on, exactly when the version check is enough, and that no update is lost. */
module AuthorizedWriteProofs {
  import opened Common
  import opened Predicates
  import opened AccessDecisions
  import opened FieldWrites
  import opened AuthorizedWrites

  // ----- One step -----

  predicate TableOk(s: Setting, w: World) {
    forall id :: id in w.table ==> id in w.used && Keyed(s.entity, id, w.table[id])
  }

  /** A stored row keeps its key, moves one version on, and has the cells of the patch. */
  lemma StoredMovesOn(s: Setting, id: Prim, r: Record, patch: Record)
    requires SettingOk(s) && Keyed(s.entity, id, r) && patch.Keys !! {s.entity.primaryKey, s.entity.versionField}
    ensures Keyed(s.entity, id, Stored(s.entity, r, patch))
    ensures VersionOf(s.entity, Stored(s.entity, r, patch)) == Some(VersionOf(s.entity, r).value + 1)
  {
    assert s.entity.primaryKey !in patch.Keys;
    var v := VersionOf(s.entity, r).value + 1;
    assert (v as real).Floor == v;
  }

  /** A call names the version it expects or brings a patch, and the patch names no prohibited field. */
  predicate Asks(s: Setting, c: Call) {
    (c.patch.Some? || c.expected.Some?) && (c.patch.Some? ==> c.patch.value.Keys !! s.entity.prohibited)
  }

  /** The filter of the call selects the row. */
  predicate Finds(s: Setting, c: Call, r: Record) {
    Selected(s.auth, FilterOf(s.auth, s.entity, c.id, c.patch, c.expected), r)
  }

  /** The first statement lets the call through on this row. */
  ghost predicate Clears(s: Setting, c: Call, r: Record) {
    Asks(s, c) && Finds(s, c, r) && VersionOf(s.entity, r).Some? && Authorised(s.auth, c.patch, r)
  }

  /** Between its first read and its write. */
  predicate Working(phase: Phase) {
    phase.Locating? || phase.Writing?
  }

  ghost predicate CallOk(s: Setting, c: Call) {
    && (c.patch.Some? || c.expected.Some?)
    && (Working(c.phase) ==>
          Clears(s, c, c.phase.snapshot) && VersionOf(s.entity, c.phase.snapshot) == Some(c.phase.version))
  }

  ghost predicate CallsOk(s: Setting, w: World) {
    forall p :: p in w.calls ==> CallOk(s, w.calls[p])
  }

  /** The row the write of a call is about to change, when it is let through. */
  predicate Writes(s: Setting, w: World, c: Call) {
    c.phase.Writing? && c.id in w.table && Finds(s, c, w.table[c.id])
    && VersionOf(s.entity, w.table[c.id]) == Some(c.phase.version)
  }

  /** A statement of a call changes its phase, and the one row only when it writes. */
  ghost predicate Effect(s: Setting, w: World, p: Pid, v: World)
    requires p in w.calls
  {
    var c := w.calls[p];
    && p in v.calls
    && v == Moved(w, p, v.calls[p].phase, v.table)
    && CallOk(s, v.calls[p])
    && (if !Writes(s, w, c) then v.table == w.table
        else if c.patch.Some? then v.table == w.table[c.id := Stored(s.entity, w.table[c.id], c.patch.value)]
        else v.table == w.table - {c.id})
    && (c.phase.Writing? && c.patch.Some? ==> (v.calls[p].phase.Rereading? <==> Writes(s, w, c)))
    && (c.phase.Writing? && c.patch.None? ==> (v.calls[p].phase == Done(Applied(false)) <==> Writes(s, w, c)))
  }

  lemma AdvanceEffect(s: Setting, w: World, p: Pid)
    requires p in w.calls && CallOk(s, w.calls[p])
    ensures Effect(s, w, p, AdvanceCall(s, w, p))
  {
    hide Authorised, FilterOf, Selected, Stored, VersionOf;
  }

  /** The writers that may put any row under a key. */
  predicate Places(e: Event) {
    e.Reuse? || e.Overwrite?
  }

  /** What a step may do to a row: leave it, move it one version on, insert it under a fresh key, or place it. */
  predicate RowStep(s: Setting, w: World, v: World, e: Event, id: Prim) {
    && w.used <= v.used
    && (id in v.table ==>
          || (id in w.table && v.table[id] == w.table[id])
          || (id in w.table && VersionOf(s.entity, w.table[id]).Some?
              && VersionOf(s.entity, v.table[id]) == Some(VersionOf(s.entity, w.table[id]).value + 1))
          || (id !in w.used && e.Insert?)
          || (Places(e) && e.id == id && v.table[id] == e.r && v.table != w.table))
  }

  lemma AdvanceStep(s: Setting, w: World, p: Pid, id: Prim)
    requires SettingOk(s) && TableOk(s, w) && CallsOk(s, w) && p in w.calls
    ensures TableOk(s, AdvanceCall(s, w, p)) && CallsOk(s, AdvanceCall(s, w, p))
    ensures RowStep(s, w, AdvanceCall(s, w, p), Advance(p), id)
  {
    hide AdvanceCall, Finds, Stored, VersionOf, Authorised;
    var c := w.calls[p];
    AdvanceEffect(s, w, p);
    if Writes(s, w, c) && c.patch.Some? { StoredMovesOn(s, c.id, w.table[c.id], c.patch.value); }
  }

  lemma Step(s: Setting, w: World, e: Event, id: Prim)
    requires SettingOk(s) && TableOk(s, w) && CallsOk(s, w)
    ensures TableOk(s, Next(s, w, e)) && CallsOk(s, Next(s, w, e))
    ensures RowStep(s, w, Next(s, w, e), e, id)
  {
    hide AdvanceCall, Clears, Stored, VersionOf, Keyed;
    match e
    case Advance(p) => if p in w.calls { AdvanceStep(s, w, p, id); }
    case Rewrite(i, patch) => if Next(s, w, e) != w { StoredMovesOn(s, i, w.table[i], patch); }
    case _ =>
  }

  // ----- Runs -----

  /** The world after the first i events. */
  ghost function WorldAt(s: Setting, events: seq<Event>, i: nat): World
    requires i <= |events|
  {
    Exec(s, INITIAL, events[..i])
  }

  lemma WorldMoves(s: Setting, events: seq<Event>, i: nat)
    requires i < |events|
    ensures WorldAt(s, events, i + 1) == Next(s, WorldAt(s, events, i), events[i])
  {
    assert events[..i + 1][..i] == events[..i];
  }

  lemma StartsEmpty(s: Setting, events: seq<Event>)
    ensures WorldAt(s, events, 0) == INITIAL && TableOk(s, INITIAL) && CallsOk(s, INITIAL)
  {
  }

  lemma {:induction false} Reached(s: Setting, events: seq<Event>, i: nat)
    requires SettingOk(s) && i <= |events|
    ensures TableOk(s, WorldAt(s, events, i)) && CallsOk(s, WorldAt(s, events, i))
  {
    hide TableOk, CallsOk, Next;
    if i == 0 {
      StartsEmpty(s, events);
    } else {
      Reached(s, events, i - 1);
      WorldMoves(s, events, i - 1);
      Step(s, WorldAt(s, events, i - 1), events[i - 1], Null);
    }
  }

  // ----- What a write lands on -----

  /** The key held this row at some moment of the run. */
  ghost predicate Held(s: Setting, events: seq<Event>, n: nat, id: Prim, r: Record)
    requires n <= |events|
  {
    exists k: nat :: k <= n && id in WorldAt(s, events, k).table && WorldAt(s, events, k).table[id] == r
  }

  /** The snapshots of the calls under way were all held. */
  ghost predicate SnapshotsHeld(s: Setting, events: seq<Event>, n: nat)
    requires n <= |events|
  {
    forall p :: p in WorldAt(s, events, n).calls ==>
                  var c := WorldAt(s, events, n).calls[p];
                  Working(c.phase) ==> Held(s, events, n, c.id, c.phase.snapshot)
  }

  /** A call that goes on keeps its snapshot; one that has just read took it from the table. */
  predicate TakenFrom(w: World, before: Call, after: Call) {
    Working(after.phase) ==>
      || (after.id in w.table && w.table[after.id] == after.phase.snapshot)
      || (Working(before.phase) && before.id == after.id && before.phase.snapshot == after.phase.snapshot)
  }

  lemma AdvanceTakes(s: Setting, w: World, p: Pid)
    requires p in w.calls
    ensures var v := AdvanceCall(s, w, p);
            v.calls.Keys == w.calls.Keys && TakenFrom(w, w.calls[p], v.calls[p])
            && forall q :: q in w.calls && q != p ==> v.calls[q] == w.calls[q]
  {
    hide Authorised, FilterOf, Selected, Stored, VersionOf, CanWrite, UpdateRow, DeleteRow, AccessFilter, KeyFilter;
  }

  lemma SnapshotStep(s: Setting, w: World, e: Event, p: Pid)
    requires p in Next(s, w, e).calls && Working(Next(s, w, e).calls[p].phase)
    ensures p in w.calls && TakenFrom(w, w.calls[p], Next(s, w, e).calls[p])
  {
    hide AdvanceCall, Stored, VersionOf, Keyed;
    if e.Advance? && e.p in w.calls { AdvanceTakes(s, w, e.p); }
  }

  lemma {:induction false} SnapshotsWereHeld(s: Setting, events: seq<Event>, n: nat)
    requires n <= |events|
    ensures SnapshotsHeld(s, events, n)
  {
    hide Next, WorldAt;
    if n == 0 {
      StartsEmpty(s, events);
    } else {
      SnapshotsWereHeld(s, events, n - 1);
      WorldMoves(s, events, n - 1);
      var w := WorldAt(s, events, n - 1);
      forall p | p in WorldAt(s, events, n).calls && Working(WorldAt(s, events, n).calls[p].phase)
        ensures Held(s, events, n, WorldAt(s, events, n).calls[p].id, WorldAt(s, events, n).calls[p].phase.snapshot)
      {
        SnapshotStep(s, w, events[n - 1], p);
        var c := WorldAt(s, events, n).calls[p];
        if !(c.id in w.table && w.table[c.id] == c.phase.snapshot) {
          assert Held(s, events, n - 1, c.id, c.phase.snapshot);
        }
      }
    }
  }

  /**
   * Two moments at which a key holds different rows under one version, where the
   * first row lets the call through and the filter of the call selects the second.
   */
  ghost predicate Twins(s: Setting, events: seq<Event>, i: nat, j: nat, c: Call)
    requires i <= j <= |events|
  {
    var t, u := WorldAt(s, events, i).table, WorldAt(s, events, j).table;
    && c.id in t && c.id in u
    && Clears(s, c, t[c.id]) && Finds(s, c, u[c.id])
    && VersionOf(s.entity, t[c.id]) == VersionOf(s.entity, u[c.id])
    && t[c.id] != u[c.id]
  }

  /** No call could mistake one row for another. */
  ghost predicate NoTwins(s: Setting, events: seq<Event>) {
    forall i: nat, j: nat, c :: i <= j <= |events| ==> !Twins(s, events, i, j, c)
  }

  /** The next statement of the call changes the table. */
  ghost predicate Applies(s: Setting, w: World, p: Pid)
    requires p in w.calls
  {
    AdvanceCall(s, w, p).table != w.table
  }

  /** If the next statement of the call changes the table, the row it changes is the one the call has read. */
  ghost predicate Lands(s: Setting, w: World, p: Pid) {
    p in w.calls && Applies(s, w, p) ==>
      var c := w.calls[p];
      c.phase.Writing? && c.id in w.table && w.table[c.id] == c.phase.snapshot
  }

  lemma AppliesWhenItWrites(s: Setting, w: World, p: Pid)
    requires SettingOk(s) && TableOk(s, w) && p in w.calls && CallOk(s, w.calls[p])
    ensures Applies(s, w, p) <==> Writes(s, w, w.calls[p])
  {
    hide AdvanceCall, Finds, Stored, VersionOf, Authorised;
    var c := w.calls[p];
    AdvanceEffect(s, w, p);
    if Writes(s, w, c) && c.patch.Some? { StoredMovesOn(s, c.id, w.table[c.id], c.patch.value); }
  }

  // ----- What the filter of a call requires -----

  /**
   * The policies for the action let the row through: an allow whose conditions
   * hold on it, with no policy whose conditions hold above it and no such deny
   * beside it. Conditions are read the two-valued way, as SQL reads them.
   */
  ghost predicate InScope(auth: Authorizer, action: string, r: Record) {
    exists p ::
      && p in auth.policies && p.moduleKey == auth.moduleKey && action in p.actions && p.effect == Allow
      && Collapsed(auth.js, r, p.condition)
      && forall q :: q in auth.policies && q.moduleKey == auth.moduleKey && action in q.actions
                     && Collapsed(auth.js, r, q.condition) ==>
           q.priority < p.priority || (q.priority == p.priority && q.effect == Allow)
  }

  /** Within the structural scope, let through by the policies, and of the version asked for, if one is. */
  ghost predicate Reachable(s: Setting, action: string, expected: Option<int>, r: Record) {
    && Collapsed(s.auth.js, r, s.auth.structural)
    && InScope(s.auth, action, r)
    && (expected.Some? ==> HasVersion(s, r, expected.value))
  }

  predicate HasVersion(s: Setting, r: Record, n: int) {
    CellOf(r, s.entity.versionField) == Scalar(Num(n as real))
  }

  lemma ActionScopeIsInScope(auth: Authorizer, action: string, r: Record)
    ensures Collapsed(auth.js, r, ActionScope(Relevant(auth.policies, auth.moduleKey, action), Deny))
        <==> InScope(auth, action, r)
  {
    var relevant := Relevant(auth.policies, auth.moduleKey, action);
    hide TieredOutcome, Relevant;
    if relevant != [] { ScopeReads(auth.js, r, relevant); }
    if n :| TopReads(auth.js, r, relevant, n) {
      var p :| p in relevant && Reads(auth.js, r, p) && p.priority == n && p.effect == Allow;
      assert forall q :: q in relevant && Reads(auth.js, r, q) ==>
          q.priority < p.priority || (q.priority == p.priority && q.effect == Allow);
    }
    if InScope(auth, action, r) {
      var p :| p in relevant && p.effect == Allow && Reads(auth.js, r, p)
               && forall q :: q in relevant && Reads(auth.js, r, q) ==>
                    q.priority < p.priority || (q.priority == p.priority && q.effect == Allow);
      assert TopReads(auth.js, r, relevant, p.priority);
    }
  }

  /** The filter built for a call selects, of the rows of the table, exactly the one it names if it is reachable. */
  lemma FilterSelectsIff(s: Setting, action: string, id: Prim, expected: Option<int>, key: Prim, r: Record)
    requires Keyed(s.entity, key, r) && (id.Str? || id.Num?)
    ensures Selected(s.auth, AccessFilter(s.auth, action, KeyFilter(s.entity, id, expected)), r)
        <==> key == id && Reachable(s, action, expected, r)
  {
    var scope := ActionScope(Relevant(s.auth.policies, s.auth.moduleKey, action), Deny);
    var extra := KeyFilter(s.entity, id, expected);
    ActionScopeIsInScope(s.auth, action, r);
    KeyFilterSelectsIff(s, id, expected, key, r);
    hide InScope, KeyFilter, ActionScope, Relevant, Keyed;
    var parts := [s.auth.structural, scope, extra];
    assert AccessFilter(s.auth, action, extra) == And(parts);
    assert forall q :: q in parts <==> q == parts[0] || q == parts[1] || q == parts[2];
  }

  lemma KeyFilterSelectsIff(s: Setting, id: Prim, expected: Option<int>, key: Prim, r: Record)
    requires Keyed(s.entity, key, r) && (id.Str? || id.Num?)
    ensures Collapsed(s.auth.js, r, KeyFilter(s.entity, id, expected))
        <==> key == id && (expected.Some? ==> HasVersion(s, r, expected.value))
  {
    var byKey := Condition(s.entity.primaryKey, Eq, One(id));
    assert Collapsed(s.auth.js, r, byKey) <==> key == id;
    if expected.Some? {
      var byVersion := Condition(s.entity.versionField, Eq, One(Num(expected.value as real)));
      assert KeyFilter(s.entity, id, expected) == And([byKey, byVersion]);
      assert forall q :: q in [byKey, byVersion] <==> q == byKey || q == byVersion;
      assert Collapsed(s.auth.js, r, byVersion) <==> HasVersion(s, r, expected.value);
    }
  }

  /** The fields a call changes. */
  function Changes(c: Call): set<string> {
    if c.patch.Some? then c.patch.value.Keys else {}
  }

  /** The row a call asks about: with the cells of its patch in place of the old ones, or as it stands. */
  function AsChanged(c: Call, r: Record): Record {
    map f | f in r.Keys + Changes(c) :: if c.patch.Some? && f in c.patch.value then c.patch.value[f] else r[f]
  }

  lemma AuthorisedIff(s: Setting, c: Call, r: Record)
    ensures Authorised(s.auth, c.patch, r)
        <==> MayWrite(s.auth.js, s.auth.policies, s.auth.moduleKey, if c.patch.Some? then "update" else "delete",
                      AsChanged(c, r), Changes(c))
  {
    var action := if c.patch.Some? then "update" else "delete";
    assert AsChanged(c, r) == Candidate(c.patch, r);
    assert Elements(Listed(Changes(c))) == Changes(c);
    MayWriteIff(s.auth.js, s.auth.policies, s.auth.moduleKey, action, AsChanged(c, r), Listed(Changes(c)));
    hide MayWrite, EnforceWrite, Relevant, Matching, AsChanged, Listed;
  }

  /**
   * Over every run, whoever else writes: just before an update or delete takes
   * effect the row is within the structural scope, let through by the policies for
   * the action, and of the version the caller named, which for a delete is always
   * one. An update replaces the cells its patch names, moves the version on by
   * one and leaves every other cell and row; a delete removes the one row.
   */
  lemma AppliedWriteIsInScope(s: Setting, events: seq<Event>, p: Pid)
    requires SettingOk(s)
    requires p in Exec(s, INITIAL, events).calls && Applies(s, Exec(s, INITIAL, events), p)
    ensures var w := Exec(s, INITIAL, events);
            var c, v := w.calls[p], AdvanceCall(s, w, p);
            && c.phase.Writing? && c.id in w.table
            && var row := w.table[c.id];
               && Collapsed(s.auth.js, row, s.auth.structural)
               && InScope(s.auth, if c.patch.Some? then "update" else "delete", row)
               && (c.expected.Some? ==> HasVersion(s, row, c.expected.value))
               && (c.patch.None? ==> c.expected.Some? && v.table == w.table - {c.id})
               && (c.patch.Some? ==>
                     && v.table.Keys == w.table.Keys
                     && Replaces(s, AsChanged(c, row), row, v.table[c.id])
                     && forall id :: id in w.table && id != c.id ==> v.table[id] == w.table[id])
  {
    var n := |events|;
    assert events[..n] == events;
    var w := WorldAt(s, events, n);
    Reached(s, events, n);
    WriteIsInScope(s, w, p);
  }

  lemma WriteIsInScope(s: Setting, w: World, p: Pid)
    requires SettingOk(s) && TableOk(s, w) && CallsOk(s, w) && p in w.calls && Applies(s, w, p)
    ensures var c, v := w.calls[p], AdvanceCall(s, w, p);
            && c.phase.Writing? && c.id in w.table && Writes(s, w, c)
            && var row := w.table[c.id];
               && Reachable(s, if c.patch.Some? then "update" else "delete", c.expected, row)
               && (c.patch.None? ==> c.expected.Some? && v.table == w.table - {c.id})
               && (c.patch.Some? ==>
                     && v.table.Keys == w.table.Keys
                     && Replaces(s, AsChanged(c, row), row, v.table[c.id])
                     && forall id :: id in w.table && id != c.id ==> v.table[id] == w.table[id])
  {
    hide Authorised, AdvanceCall, Selected, VersionOf, InScope, KeyFilter, Stored, AccessFilter;
    AppliesWhenItWrites(s, w, p);
    AdvanceEffect(s, w, p);
    var c := w.calls[p];
    FilterSelectsIff(s, if c.patch.Some? then "update" else "delete", c.id, c.expected, c.id, w.table[c.id]);
    if c.patch.Some? { StoredReplaces(s, c, w.table[c.id]); }
  }

  /** The new row has the cells of the changed one and a version one higher. */
  ghost predicate Replaces(s: Setting, changed: Record, before: Record, after: Record) {
    && (forall f :: f != s.entity.versionField ==> CellOf(after, f) == CellOf(changed, f))
    && exists n: int :: HasVersion(s, before, n) && HasVersion(s, after, n + 1)
  }

  lemma StoredReplaces(s: Setting, c: Call, r: Record)
    requires SettingOk(s) && Keyed(s.entity, c.id, r) && c.patch.Some?
    ensures Replaces(s, AsChanged(c, r), r, Stored(s.entity, r, c.patch.value))
  {
    var n := VersionOf(s.entity, r).value;
    var after := Stored(s.entity, r, c.patch.value);
    assert HasVersion(s, r, n) && HasVersion(s, after, n + 1);
  }

  /**
   * No write is authorised on stale state. Whatever ran in between, when an
   * update or delete takes effect, the row at that moment is the row that was
   * read, and the policies allow exactly the row that is stored, or the row that
   * is deleted.
   */
  lemma AppliedWriteWasAuthorised(s: Setting, events: seq<Event>, p: Pid)
    requires SettingOk(s) && NoTwins(s, events)
    requires p in Exec(s, INITIAL, events).calls && Applies(s, Exec(s, INITIAL, events), p)
    ensures var w := Exec(s, INITIAL, events);
            var c, v := w.calls[p], AdvanceCall(s, w, p);
            && c.phase.Writing? && c.id in w.table
            && var row, action := w.table[c.id], if c.patch.Some? then "update" else "delete";
               && row == c.phase.snapshot
               && Reachable(s, action, c.expected, row)
               && MayWrite(s.auth.js, s.auth.policies, s.auth.moduleKey, action, AsChanged(c, row), Changes(c))
               && (c.patch.Some? ==>
                     && v.table.Keys == w.table.Keys
                     && Replaces(s, AsChanged(c, row), row, v.table[c.id])
                     && forall id :: id in w.table && id != c.id ==> v.table[id] == w.table[id])
               && (c.patch.None? ==> c.expected.Some? && v.table == w.table - {c.id})
  {
    hide Authorised, AdvanceCall, Exec, VersionOf, InScope, MayWrite, Stored, TableOk, FilterOf, Selected, Replaces;
    var n := |events|;
    assert events[..n] == events;
    var w := WorldAt(s, events, n);
    Reached(s, events, n);
    WriteIsInScope(s, w, p);
    SnapshotsWereHeld(s, events, n);
    var c := w.calls[p];
    assert Held(s, events, n, c.id, c.phase.snapshot);
    var k: nat :| k <= n && c.id in WorldAt(s, events, k).table
        && WorldAt(s, events, k).table[c.id] == c.phase.snapshot;
    assert CallOk(s, c) && !Twins(s, events, k, n, c);
    AuthorisedIff(s, c, w.table[c.id]);
  }

  /** The row a call names, if the statement can see it. */
  ghost predicate Sees(s: Setting, w: World, c: Call, action: string, expected: Option<int>) {
    c.id in w.table && Reachable(s, action, expected, w.table[c.id])
  }

  lemma FindsIff(s: Setting, w: World, c: Call, action: string, expected: Option<int>)
    requires TableOk(s, w)
    ensures var found := Find(s.auth, w.table, c.id, AccessFilter(s.auth, action, KeyFilter(s.entity, c.id, expected)));
            found == if Sees(s, w, c, action, expected) then Some(w.table[c.id]) else None
  {
    hide AccessFilter, KeyFilter, Reachable, Selected, VersionOf;
    if c.id in w.table {
      assert Keyed(s.entity, c.id, w.table[c.id]);
      FilterSelectsIff(s, action, c.id, expected, c.id, w.table[c.id]);
    }
  }

  /**
   * What a call is answered, statement by statement, in every run. The first read
   * refuses a patch of a prohibited field, finds the row only where it is
   * reachable, and goes on only when the policies allow the change; an update is
   * located and both are written only where the row is reachable again, and of the
   * version read; and an update is shown to its caller exactly when the row may be
   * read.
   */
  lemma AnswersOf(s: Setting, events: seq<Event>, p: Pid)
    requires SettingOk(s) && p in Exec(s, INITIAL, events).calls
    ensures var w := Exec(s, INITIAL, events);
            var c, action := w.calls[p], if w.calls[p].patch.Some? then "update" else "delete";
            var v := AdvanceCall(s, w, p);
            && p in v.calls
            && match c.phase
               case Reading =>
                 if exists f :: f in Changes(c) && f in s.entity.prohibited then v.calls[p].phase == Done(Forbidden)
                 else if !Sees(s, w, c, action, c.expected) then v.calls[p].phase == Done(NotFound)
                 else if !MayWrite(s.auth.js, s.auth.policies, s.auth.moduleKey, action,
                           AsChanged(c, w.table[c.id]), Changes(c)) then v.calls[p].phase == Done(Forbidden)
                 else exists n :: HasVersion(s, w.table[c.id], n)
                                  && v.calls[p].phase == if c.patch.Some? then Locating(w.table[c.id], n)
                                                         else Writing(w.table[c.id], n)
               case Locating(snapshot, n) =>
                 v.calls[p].phase == if Sees(s, w, c, action, c.expected) then Writing(snapshot, n) else Done(Stale)
               case Writing(_, n) =>
                 v.calls[p].phase == if !Sees(s, w, c, action, c.expected) || !HasVersion(s, w.table[c.id], n)
                                     then Done(Stale)
                                     else if c.patch.Some? then Rereading else Done(Applied(false))
               case Rereading => v.calls[p].phase == Done(Applied(Sees(s, w, c, "read", None)))
               case Done(_) => v == w
  {
    hide Authorised, VersionOf, Reachable, MayWrite, Stored, AccessFilter, KeyFilter, Selected;
    var n := |events|;
    assert events[..n] == events;
    var w := WorldAt(s, events, n);
    Reached(s, events, n);
    var c, action := w.calls[p], if w.calls[p].patch.Some? then "update" else "delete";
    FindsIff(s, w, c, action, c.expected);
    FindsIff(s, w, c, "read", None);
    if c.id in w.table {
      AuthorisedIff(s, c, w.table[c.id]);
      VersionIs(s, c.id, w.table[c.id]);
    }
    hide Exec, Sees;
  }

  lemma VersionIs(s: Setting, id: Prim, r: Record)
    requires Keyed(s.entity, id, r)
    ensures VersionOf(s.entity, r).Some?
    ensures forall n :: VersionOf(s.entity, r) == Some(n) <==> HasVersion(s, r, n)
  {
  }

  // ----- No update is lost -----

  /** How a row came about: the record it was stored as, and the patches put on it since, oldest first. */
  datatype Origin = Origin(base: Record, patches: seq<Record>)

  function Grown(o: Option<Origin>, patch: Record): Option<Origin> {
    if o.None? then None else Some(o.value.(patches := o.value.patches + [patch]))
  }

  /** A call counts when it is told that its write has been applied. */
  function Told(c: Call, after: Phase, before: Option<Origin>): Option<Origin> {
    if !c.phase.Writing? then before
    else if c.patch.Some? then (if after.Rereading? then Grown(before, c.patch.value) else before)
    else if after == Done(Applied(false)) then None
    else before
  }

  ghost function Recorded(s: Setting, w: World, e: Event, id: Prim, before: Option<Origin>): Option<Origin> {
    match e
    case Start(_, _, _, _) => before
    case Advance(p) =>
      if p in w.calls && w.calls[p].id == id && p in AdvanceCall(s, w, p).calls then
        Told(w.calls[p], AdvanceCall(s, w, p).calls[p].phase, before)
      else before
    case Rewrite(i, change) => if i == id && Next(s, w, e).table != w.table then Grown(before, change) else before
    case Remove(i) => if i == id then None else before
    case Insert(i, r) => if i == id && Next(s, w, e).table != w.table then Some(Origin(r, [])) else before
    case Reuse(i, r) => if i == id && Next(s, w, e).table != w.table then Some(Origin(r, [])) else before
    case Overwrite(i, r) => if i == id && Next(s, w, e).table != w.table then Some(Origin(r, [])) else before
  }

  /** The origin of a row by the events of the run and by what the calls were told. */
  ghost function Lineage(s: Setting, events: seq<Event>, n: nat, id: Prim): Option<Origin>
    requires n <= |events|
  {
    if n == 0 then None
    else Recorded(s, WorldAt(s, events, n - 1), events[n - 1], id, Lineage(s, events, n - 1, id))
  }

  /** The cell by the last patch that names the field. */
  function LastCell(base: Record, patches: seq<Record>, field: string): Cell {
    if patches == [] then CellOf(base, field)
    else if field in patches[|patches| - 1] then patches[|patches| - 1][field]
    else LastCell(base, patches[..|patches| - 1], field)
  }

  /** One version for each patch, and every cell by its last patch. */
  ghost predicate Shows(s: Setting, r: Record, o: Origin) {
    && VersionOf(s.entity, o.base).Some?
    && VersionOf(s.entity, r) == Some(VersionOf(s.entity, o.base).value + |o.patches|)
    && forall f :: f != s.entity.versionField ==> CellOf(r, f) == LastCell(o.base, o.patches, f)
  }

  ghost predicate Matches(s: Setting, t: Table, id: Prim, o: Option<Origin>) {
    (id in t <==> o.Some?) && (id in t ==> Shows(s, t[id], o.value))
  }

  lemma GrownShows(s: Setting, id: Prim, r: Record, o: Origin, patch: Record)
    requires SettingOk(s) && Keyed(s.entity, id, r) && patch.Keys !! {s.entity.primaryKey, s.entity.versionField}
    requires Shows(s, r, o)
    ensures Shows(s, Stored(s.entity, r, patch), Grown(Some(o), patch).value)
  {
    hide VersionOf;
    StoredMovesOn(s, id, r, patch);
    var q := o.patches + [patch];
    assert q[..|q| - 1] == o.patches;
    assert forall f :: f != s.entity.versionField ==>
             CellOf(Stored(s.entity, r, patch), f) == if f in patch then patch[f] else CellOf(r, f);
  }

  lemma AdvanceMatches(s: Setting, w: World, p: Pid, id: Prim, before: Option<Origin>)
    requires SettingOk(s) && TableOk(s, w) && CallsOk(s, w) && p in w.calls && Matches(s, w.table, id, before)
    ensures Matches(s, AdvanceCall(s, w, p).table, id, Recorded(s, w, Advance(p), id, before))
  {
    hide AdvanceCall, Finds, Stored, VersionOf, Authorised, Shows;
    var c := w.calls[p];
    AdvanceEffect(s, w, p);
    if Writes(s, w, c) && c.patch.Some? && c.id == id {
      GrownShows(s, id, w.table[id], before.value, c.patch.value);
    }
  }

  lemma StepMatches(s: Setting, w: World, e: Event, id: Prim, before: Option<Origin>)
    requires SettingOk(s) && TableOk(s, w) && CallsOk(s, w) && Matches(s, w.table, id, before)
    ensures Matches(s, Next(s, w, e).table, id, Recorded(s, w, e, id, before))
  {
    hide AdvanceCall, Stored, VersionOf, CallsOk;
    match e
    case Advance(p) => if p in w.calls { AdvanceMatches(s, w, p, id, before); }
    case Rewrite(i, change) =>
      if Next(s, w, e) != w && i == id {
        StoredMovesOn(s, id, w.table[id], change);
        GrownShows(s, id, w.table[id], before.value, change);
      }
    case _ =>
  }

  /**
   * No update is lost: in every run, whatever the other writers do, the rows that
   * stand are those that were stored and not removed since; the version of a row
   * has moved by exactly the number of updates reported as applied to it; and
   * every other cell is that of the last such update that names the field.
   */
  lemma {:induction false} NoUpdateIsLost(s: Setting, events: seq<Event>, n: nat, id: Prim)
    requires SettingOk(s) && n <= |events|
    ensures Matches(s, WorldAt(s, events, n).table, id, Lineage(s, events, n, id))
  {
    hide Next, WorldAt, Recorded, Shows;
    if n == 0 {
      StartsEmpty(s, events);
    } else {
      NoUpdateIsLost(s, events, n - 1, id);
      Reached(s, events, n - 1);
      WorldMoves(s, events, n - 1);
      StepMatches(s, WorldAt(s, events, n - 1), events[n - 1], id, Lineage(s, events, n - 1, id));
    }
  }
}
