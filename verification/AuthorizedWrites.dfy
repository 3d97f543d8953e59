/**
 * Authorised updates and deletes under optimistic concurrency: a row is read,
 * the write is authorised on what was read, and a conditional statement applies
 * it only to the version that was read. Other writers act in between.
 */
module AuthorizedWrites {
  import opened Common
  import opened Predicates
  import opened AccessDecisions
  import opened FieldWrites
  import Simplifier

  /** `prohibited` are the primary key, the version and the other fields a patch may not name. */
  datatype Entity = Entity(primaryKey: string, versionField: string, prohibited: set<string>)

  datatype Authorizer = Authorizer(js: Js, structural: Node, policies: seq<Policy>, moduleKey: string)

  /** Rows by primary key. */
  type Table = map<Prim, Record>

  // ----- Rows and filters -----

  /** The version, when the field holds an integer. */
  function VersionOf(entity: Entity, r: Record): Option<int> {
    var c := CellOf(r, entity.versionField);
    if c.Scalar? && c.p.Num? && c.p.n == c.p.n.Floor as real then Some(c.p.n.Floor) else None
  }

  predicate Keyed(entity: Entity, id: Prim, r: Record) {
    CellOf(r, entity.primaryKey) == Scalar(id) && (id.Str? || id.Num?) && VersionOf(entity, r).Some?
  }

  /** The row a patch makes of another; its version is left alone. */
  function Patched(r: Record, patch: Record): Record {
    r + patch
  }

  /** SET patch, version = version + 1. */
  function Stored(entity: Entity, r: Record, patch: Record): Record
    requires VersionOf(entity, r).Some?
  {
    Patched(r, patch)[entity.versionField := Scalar(Num((VersionOf(entity, r).value + 1) as real))]
  }

  function KeyFilter(entity: Entity, id: Prim, expected: Option<int>): Node {
    var byKey := Condition(entity.primaryKey, Eq, One(id));
    if expected.None? then byKey
    else And([byKey, Condition(entity.versionField, Eq, One(Num(expected.value as real)))])
  }

  /** Structural scope, the scope of the action, and the rows asked for. */
  function AccessFilter(auth: Authorizer, action: string, extra: Node): Node {
    And([auth.structural, ActionScope(Relevant(auth.policies, auth.moduleKey, action), Deny), extra])
  }

  /** The compiled filter selects the row. */
  predicate Selected(auth: Authorizer, filter: Node, r: Record) {
    Collapsed(auth.js, r, filter)
  }

  predicate Permits(auth: Authorizer, action: string, r: Record, fields: seq<string>) {
    EnforceWrite(Relevant(auth.policies, auth.moduleKey, action), Matching(auth.js, r), action == "delete",
      fields).Permitted?
  }

  /** The rows a filter selects, by key. */
  function Rows(auth: Authorizer, t: Table, filter: Node): set<Prim> {
    set id | id in t && Selected(auth, filter, t[id])
  }

  /** A filter on the primary key selects no other row. */
  lemma OnlyTheKeyedRow(auth: Authorizer, entity: Entity, t: Table, action: string, id: Prim, expected: Option<int>)
    requires forall i :: i in t ==> Keyed(entity, i, t[i])
    requires id.Str? || id.Num?
    ensures Rows(auth, t, AccessFilter(auth, action, KeyFilter(entity, id, expected))) <= {id}
  {
    hide ActionScope, Relevant;
    var extra := KeyFilter(entity, id, expected);
    var filter := AccessFilter(auth, action, extra);
    forall i | i in t && Selected(auth, filter, t[i]) ensures i == id {
      assert extra in filter.filters && Collapsed(auth.js, t[i], extra);
      KeyFilterMatches(auth.js, entity, id, expected, t[i]);
    }
  }

  lemma KeyFilterMatches(js: Js, entity: Entity, id: Prim, expected: Option<int>, r: Record)
    requires Collapsed(js, r, KeyFilter(entity, id, expected))
    ensures Collapsed(js, r, Condition(entity.primaryKey, Eq, One(id)))
  {
    if expected.Some? {
      assert Condition(entity.primaryKey, Eq, One(id)) in KeyFilter(entity, id, expected).filters;
    }
  }

  // ----- Statements -----

  /** findMany(filter) for one page of one row, when the filter names the key. */
  function Find(auth: Authorizer, t: Table, id: Prim, filter: Node): Option<Record> {
    if id in t && Selected(auth, filter, t[id]) then Some(t[id]) else None
  }

  predicate CanWrite(auth: Authorizer, entity: Entity, t: Table, id: Prim, filter: Node, version: int) {
    id in t && Selected(auth, filter, t[id]) && VersionOf(entity, t[id]) == Some(version)
  }

  /** UPDATE ... WHERE filter AND key AND version = expected. */
  function UpdateRow(auth: Authorizer, entity: Entity, t: Table, id: Prim, filter: Node, patch: Record,
      version: int): Table {
    if CanWrite(auth, entity, t, id, filter, version) then t[id := Stored(entity, t[id], patch)] else t
  }

  function DeleteRow(auth: Authorizer, entity: Entity, t: Table, id: Prim, filter: Node, version: int): Table {
    if CanWrite(auth, entity, t, id, filter, version) then t - {id} else t
  }

  datatype UpdateResult = Updated(row: Record) | AllRowsRefused | ManyRows | VersionMismatch | VersionInPatch

  /** The repository over one table with nobody in between, as its methods run. */
  class VersionedRepository {
    const auth: Authorizer
    const entity: Entity
    var rows: Table

    constructor (auth: Authorizer, entity: Entity)
      ensures this.auth == auth && this.entity == entity && rows == map[]
    {
      this.auth, this.entity := auth, entity;
      rows := map[];
    }

    /** Refuse a filter that matches everything, find the one row, and update it if its version is the expected one. */
    method UpdateOneWhereReturning(filter: Node, patch: Record, expected: int) returns (r: UpdateResult)
      modifies this`rows
      ensures Simplifier.AlwaysTrue(filter) ==> r == AllRowsRefused
      ensures !Simplifier.AlwaysTrue(filter) && |Rows(auth, old(rows), filter)| > 1 ==> r == ManyRows
      ensures !Simplifier.AlwaysTrue(filter) && Rows(auth, old(rows), filter) == {} ==> r == VersionMismatch
      ensures forall id :: !Simplifier.AlwaysTrue(filter) && Rows(auth, old(rows), filter) == {id} ==>
                if entity.versionField in patch then r == VersionInPatch
                else if VersionOf(entity, old(rows)[id]) != Some(expected) then r == VersionMismatch
                else rows == old(rows)[id := Stored(entity, old(rows)[id], patch)] && r == Updated(rows[id])
      ensures !r.Updated? ==> rows == old(rows)
    {
      if Simplifier.AlwaysTrue(filter) {
        return AllRowsRefused;
      }
      var matching := Rows(auth, rows, filter);
      if |matching| > 1 {
        return ManyRows;
      }
      if matching == {} {
        return VersionMismatch;
      }
      var key :| key in matching;
      if entity.versionField in patch {
        return VersionInPatch;
      }
      if !CanWrite(auth, entity, rows, key, filter, expected) {
        return VersionMismatch;
      }
      rows := UpdateRow(auth, entity, rows, key, filter, patch, expected);
      return Updated(rows[key]);
    }
  }

  // ----- Callers -----

  datatype Outcome =
    | Forbidden            // a prohibited field, or no permission
    | NotFound             // no row under the filter
    | Stale                // the version moved
    | Applied(visible: bool)

  datatype Phase =
    | Reading
    | Locating(snapshot: Record, version: int)
    | Writing(snapshot: Record, version: int)
    | Rereading
    | Done(outcome: Outcome)

  /** A delete is a call without a patch and with the version the caller expects. */
  datatype Call = Call(id: Prim, patch: Option<Record>, expected: Option<int>, phase: Phase)

  function ActionOf(patch: Option<Record>): string {
    if patch.Some? then "update" else "delete"
  }

  function FilterOf(auth: Authorizer, entity: Entity, id: Prim, patch: Option<Record>, expected: Option<int>): Node {
    AccessFilter(auth, ActionOf(patch), KeyFilter(entity, id, expected))
  }

  /** What the authoriser is asked about: the row as it would become, or the row to delete. */
  function Candidate(patch: Option<Record>, snapshot: Record): Record {
    if patch.Some? then Patched(snapshot, patch.value) else snapshot
  }

  /** The names in some order; permission does not depend on which. */
  ghost function Listed(names: set<string>): (r: seq<string>)
    ensures forall f :: f in r <==> f in names
  {
    if names == {} then []
    else
      var f :| f in names;
      [f] + Listed(names - {f})
  }

  /** The authoriser permits the action on the candidate, with all the keys of the patch as changed fields. */
  ghost predicate Authorised(auth: Authorizer, patch: Option<Record>, snapshot: Record) {
    var names := if patch.Some? then patch.value.Keys else {};
    Permits(auth, ActionOf(patch), Candidate(patch, snapshot), Listed(names))
  }

  /** In whatever order, and with whatever repeats, the changed fields are passed. */
  lemma FieldOrderIsFree(auth: Authorizer, patch: Record, snapshot: Record, fields: seq<string>)
    requires forall f :: f in fields <==> f in patch
    ensures Permits(auth, "update", Candidate(Some(patch), snapshot), fields)
            <==> Authorised(auth, Some(patch), snapshot)
  {
    var relevant := Relevant(auth.policies, auth.moduleKey, "update");
    var matches, names := Matching(auth.js, Candidate(Some(patch), snapshot)), Listed(patch.Keys);
    forall n ensures Passes(relevant, matches, false, fields, n) <==> Passes(relevant, matches, false, names, n) {
      assert AllCovered(relevant, matches, n, fields) <==> AllCovered(relevant, matches, n, names);
    }
    WritePermittedIff(relevant, matches, false, fields);
    WritePermittedIff(relevant, matches, false, names);
  }

  type Pid = nat

  /** `used` are the keys ever taken. */
  datatype World = World(table: Table, used: set<Prim>, calls: map<Pid, Call>)

  datatype Setting = Setting(auth: Authorizer, entity: Entity)

  datatype Event =
    | Start(p: Pid, id: Prim, patch: Option<Record>, expected: Option<int>)
    | Advance(p: Pid)
    | Insert(id: Prim, r: Record)
    | Rewrite(id: Prim, change: Record)    // another writer: any other field, with the version bumped
    | Remove(id: Prim)
    | Reuse(id: Prim, r: Record)           // a key taken again
    | Overwrite(id: Prim, r: Record)       // a writer that does not bump the version

  const INITIAL := World(map[], {}, map[])

  function Moved(w: World, p: Pid, phase: Phase, table: Table): World
    requires p in w.calls
  {
    w.(table := table, calls := w.calls[p := w.calls[p].(phase := phase)])
  }

  /** One statement of a call. */
  ghost function AdvanceCall(s: Setting, w: World, p: Pid): World
    requires p in w.calls
  {
    var c := w.calls[p];
    var filter := FilterOf(s.auth, s.entity, c.id, c.patch, c.expected);
    match c.phase
    case Reading =>
      if c.patch.Some? && !(c.patch.value.Keys !! s.entity.prohibited) then Moved(w, p, Done(Forbidden), w.table)
      else
        var found := Find(s.auth, w.table, c.id, filter);
        if found.None? then Moved(w, p, Done(NotFound), w.table)
        else if VersionOf(s.entity, found.value).None? then Moved(w, p, Done(Stale), w.table)
        else if !Authorised(s.auth, c.patch, found.value) then Moved(w, p, Done(Forbidden), w.table)
        else
          var version := VersionOf(s.entity, found.value).value;
          if c.patch.Some? then Moved(w, p, Locating(found.value, version), w.table)
          else Moved(w, p, Writing(found.value, version), w.table)
    case Locating(snapshot, version) =>
      if Find(s.auth, w.table, c.id, filter).None? then Moved(w, p, Done(Stale), w.table)
      else Moved(w, p, Writing(snapshot, version), w.table)
    case Writing(snapshot, version) =>
      if !CanWrite(s.auth, s.entity, w.table, c.id, filter, version) then Moved(w, p, Done(Stale), w.table)
      else if c.patch.Some? then
        Moved(w, p, Rereading, UpdateRow(s.auth, s.entity, w.table, c.id, filter, c.patch.value, version))
      else Moved(w, p, Done(Applied(false)), DeleteRow(s.auth, s.entity, w.table, c.id, filter, version))
    case Rereading =>
      var readFilter := AccessFilter(s.auth, "read", KeyFilter(s.entity, c.id, None));
      Moved(w, p, Done(Applied(Find(s.auth, w.table, c.id, readFilter).Some?)), w.table)
    case Done(_) => w
  }

  ghost function Next(s: Setting, w: World, e: Event): World {
    match e
    case Start(p, id, patch, expected) =>
      if p in w.calls || (patch.None? && expected.None?) then w
      else w.(calls := w.calls[p := Call(id, patch, expected, Reading)])
    case Advance(p) => if p in w.calls then AdvanceCall(s, w, p) else w
    case Insert(id, r) =>
      if id in w.used || !Keyed(s.entity, id, r) then w
      else w.(table := w.table[id := r], used := w.used + {id})
    case Rewrite(id, patch) =>
      if id !in w.table || !(patch.Keys !! {s.entity.primaryKey, s.entity.versionField}) then w
      else if VersionOf(s.entity, w.table[id]).None? then w
      else w.(table := w.table[id := Stored(s.entity, w.table[id], patch)])
    case Remove(id) => w.(table := w.table - {id})
    case Reuse(id, r) =>
      if id in w.table || id !in w.used || !Keyed(s.entity, id, r) then w else w.(table := w.table[id := r])
    case Overwrite(id, r) =>
      if id !in w.table || !Keyed(s.entity, id, r) then w else w.(table := w.table[id := r])
  }

  ghost function Exec(s: Setting, w: World, events: seq<Event>): World {
    if events == [] then w else Next(s, Exec(s, w, events[..|events| - 1]), events[|events| - 1])
  }

  /** The version and the key cannot be patched. */
  predicate SettingOk(s: Setting) {
    s.entity.primaryKey in s.entity.prohibited && s.entity.versionField in s.entity.prohibited
    && s.entity.primaryKey != s.entity.versionField
  }
}
