/**
 * The atomic D1 batch: a plan of commands, audit records, an idempotency
 * receipt and outbox events becomes a list of statements that take effect
 * together or not at all, and whose results are handed back item by item.
 */
module AtomicBatch {
  import opened Common
  import opened IdempotencyStore

  type Data = map<string, string>

  /** An outbox event; the fingerprint stands for its content. */
  datatype Event = Event(scope: string, key: string, fingerprint: string)

  datatype Receipt = Receipt(id: Id, fingerprint: Fingerprint, token: Token, tags: seq<Tag>, resource: Option<string>)

  /** Any change of the business data with the number of rows it affects, or nothing when a constraint fails. */
  type Write = Data -> Option<(Data, nat)>

  datatype Item =
    | Command(write: Write, expected: Option<nat>)
    | Audit(record: string)
    | Idempotency(receipt: Receipt)
    | Outbox(event: Event)

  type EventKey = (string, string)

  /** The unique index of the outbox maps scope and key to the event's fingerprint. */
  datatype Db = Db(data: Data, audit: seq<string>, receipts: Table, outbox: map<EventKey, string>)

  datatype Statement =
    | Mutate(write: Write)
    | ExpectRows(expected: nat)         // insert under CHECK (expected = changes())
    | InsertAudit(record: string)
    | AssertOwned(receipt: Receipt)     // insert under a trigger that raises
    | WriteReceipt(receipt: Receipt)
    | InsertEvent(event: Event)
    | SelectOne

  datatype StatementEntry = StatementEntry(itemIndex: nat, statement: Statement)

  datatype ItemResult = Single(rows: nat) | Fenced(assertion: nat, receipt: nat)

  datatype BatchError = ReusedKey | BatchTooLarge | Aborted

  function KeyOf(e: Event): EventKey {
    (e.scope, e.key)
  }

  /** The key under which the plan itself is checked. */
  function PlanKey(e: Event): string {
    e.scope + ['\0'] + e.key
  }

  // ----- Statements -----

  /** After a statement: the state, the statement's result, and what changes() says. */
  datatype Step = Step(db: Db, result: nat, changes: nat)

  function Changed(db: Db, rows: nat): Option<Step> {
    Some(Step(db, rows, rows))
  }

  /** One statement, or nothing when it raises. */
  function Executed(db: Db, changes: nat, st: Statement): Option<Step> {
    match st
    case Mutate(write) =>
      var w := write(db.data);
      if w.None? then None else Changed(db.(data := w.value.0), w.value.1)
    case ExpectRows(expected) => if changes == expected then Changed(db, 1) else None
    case InsertAudit(record) => Changed(db.(audit := db.audit + [record]), 1)
    case AssertOwned(c) => if Owns(db.receipts, c.id, c.fingerprint, c.token) then Changed(db, 1) else None
    case WriteReceipt(c) => Changed(WithReceipt(db, c), ReceiptRows(db, c))
    case InsertEvent(e) => if KeyOf(e) in db.outbox then None else Changed(Recorded(db, e), 1)
    case SelectOne => Some(Step(db, 0, changes))
  }

  /** The guarded receipt update, as D1 and PostgreSQL run it. */
  function WithReceipt(db: Db, c: Receipt): Db {
    db.(receipts := CommitReceipt(db.receipts, c.id, c.fingerprint, c.token, c.tags, c.resource))
  }

  /** The rows that update affects. */
  function ReceiptRows(db: Db, c: Receipt): nat {
    if Owns(db.receipts, c.id, c.fingerprint, c.token) then 1 else 0
  }

  function Recorded(db: Db, e: Event): Db {
    db.(outbox := db.outbox[KeyOf(e) := e.fingerprint])
  }

  datatype Ran = Ran(db: Db, changes: nat, results: seq<nat>)

  /** The statements in order, each seeing the changes of the one before; nothing when one raises. */
  function RunStatements(db: Db, entries: seq<StatementEntry>): (r: Option<Ran>)
    ensures r.Some? ==> |r.value.results| == |entries|
  {
    if entries == [] then Some(Ran(db, 0, []))
    else
      var init := RunStatements(db, entries[..|entries| - 1]);
      if init.None? then None
      else
        var last := Executed(init.value.db, init.value.changes, entries[|entries| - 1].statement);
        if last.None? then None
        else Some(Ran(last.value.db, last.value.changes, init.value.results + [last.value.result]))
  }

  // ----- From plan to statements -----

  /** How many statements an item takes. */
  function Width(item: Item): nat {
    if item.Idempotency? || (item.Command? && item.expected.Some?) then 2 else 1
  }

  /** The statements of one item; an event already recorded needs none of its own. */
  function StatementsOf(item: Item, recorded: bool): (r: seq<Statement>)
    ensures |r| == Width(item)
  {
    match item
    case Command(write, expected) =>
      if expected.Some? then [Mutate(write), ExpectRows(expected.value)] else [Mutate(write)]
    case Audit(record) => [InsertAudit(record)]
    case Idempotency(c) => [AssertOwned(c), WriteReceipt(c)]
    case Outbox(e) => if recorded then [SelectOne] else [InsertEvent(e)]
  }

  function Tagged(index: nat, statements: seq<Statement>): (r: seq<StatementEntry>)
    ensures |r| == |statements|
    ensures forall k :: 0 <= k < |r| ==> r[k] == StatementEntry(index, statements[k])
  {
    seq(|statements|, k requires 0 <= k < |statements| => StatementEntry(index, statements[k]))
  }

  /** The list for the first n items; `recorded` are the events the precheck found. */
  function Entries(items: seq<Item>, recorded: set<nat>, n: nat): (r: seq<StatementEntry>)
    requires n <= |items|
    ensures |r| == Start(items, n)
  {
    if n == 0 then []
    else Entries(items, recorded, n - 1) + Tagged(n - 1, StatementsOf(items[n - 1], n - 1 in recorded))
  }

  /** Where the statements of item n start. */
  function Start(items: seq<Item>, n: nat): nat
    requires n <= |items|
  {
    if n == 0 then 0 else Start(items, n - 1) + Width(items[n - 1])
  }

  // ----- The precheck -----

  /**
   * What the precheck objects to: one key used for two events within the plan,
   * or an event found under the key of another. `seen` is what the precheck read
   * for each of the first n items, at whatever moment it read it.
   */
  predicate PrecheckPasses(items: seq<Item>, seen: seq<Option<string>>, n: nat)
    requires n <= |items| == |seen|
  {
    && (forall i, j :: 0 <= i < j < n && items[i].Outbox? && items[j].Outbox?
                       && PlanKey(items[i].event) == PlanKey(items[j].event)
                       ==> items[i].event.fingerprint == items[j].event.fingerprint)
    && (forall i :: 0 <= i < n && items[i].Outbox? && seen[i].Some? ==> seen[i].value == items[i].event.fingerprint)
  }

  /** The items among the first n whose event was found. */
  function FoundEvents(items: seq<Item>, seen: seq<Option<string>>, n: nat): set<nat>
    requires n <= |items| == |seen|
  {
    set i | 0 <= i < n && items[i].Outbox? && seen[i].Some?
  }

  // ----- What a plan means -----

  /** One item by itself: the state it leaves and its result, or nothing when it objects. */
  function ItemEffect(db: Db, item: Item, recorded: bool): Option<(Db, ItemResult)> {
    match item
    case Command(write, expected) =>
      var w := write(db.data);
      if w.None? || (expected.Some? && expected.value != w.value.1) then None
      else Some((db.(data := w.value.0), Single(w.value.1)))
    case Audit(record) => Some((db.(audit := db.audit + [record]), Single(1)))
    case Idempotency(c) =>
      if Owns(db.receipts, c.id, c.fingerprint, c.token) then Some((WithReceipt(db, c), Fenced(1, 1))) else None
    case Outbox(e) =>
      if recorded then Some((db, Single(0)))
      else if KeyOf(e) in db.outbox then None
      else Some((Recorded(db, e), Single(1)))
  }

  /** The first n items in order. */
  function PlanEffect(db: Db, items: seq<Item>, recorded: set<nat>, n: nat): (r: Option<(Db, seq<ItemResult>)>)
    requires n <= |items|
    ensures r.Some? ==> |r.value.1| == n
  {
    if n == 0 then Some((db, []))
    else
      var init := PlanEffect(db, items, recorded, n - 1);
      if init.None? then None
      else
        var last := ItemEffect(init.value.0, items[n - 1], n - 1 in recorded);
        if last.None? then None else Some((last.value.0, init.value.1 + [last.value.1]))
  }

  // ----- The batch runs the plan -----

  lemma RunAppends(db: Db, entries: seq<StatementEntry>, e: StatementEntry)
    ensures var init := RunStatements(db, entries);
            var next := if init.None? then None else Executed(init.value.db, init.value.changes, e.statement);
            RunStatements(db, entries + [e])
            == if next.None? then None
               else Some(Ran(next.value.db, next.value.changes, init.value.results + [next.value.result]))
  {
    assert (entries + [e])[..|entries|] == entries;
  }

  /** The statements of one item, run behind others, do what the item does. */
  lemma RunsItem(db: Db, entries: seq<StatementEntry>, index: nat, item: Item, recorded: bool)
    requires RunStatements(db, entries).Some?
    ensures var before := RunStatements(db, entries).value;
            var after := RunStatements(db, entries + Tagged(index, StatementsOf(item, recorded)));
            var effect := ItemEffect(before.db, item, recorded);
            && (after.Some? <==> effect.Some?)
            && (after.Some? ==>
                  && after.value.db == effect.value.0
                  && after.value.results[..|entries|] == before.results
                  && ResultAt(item, after.value.results, |entries|) == effect.value.1)
  {
    hide RunStatements;
    var tagged := Tagged(index, StatementsOf(item, recorded));
    RunAppends(db, entries, tagged[0]);
    if |tagged| == 2 {
      RunAppends(db, entries + [tagged[0]], tagged[1]);
      assert entries + tagged == entries + [tagged[0]] + [tagged[1]];
    } else {
      assert tagged == [tagged[0]];
    }
  }

  /** What the caller is told of an item whose results start at this offset. */
  function ResultAt(item: Item, results: seq<nat>, offset: nat): ItemResult
    requires offset + (if item.Idempotency? then 2 else 1) <= |results|
  {
    if item.Idempotency? then Fenced(results[offset], results[offset + 1]) else Single(results[offset])
  }

  lemma StopsOnceStopped(db: Db, entries: seq<StatementEntry>, more: seq<StatementEntry>)
    requires RunStatements(db, entries).None?
    ensures RunStatements(db, entries + more).None?
  {
    if more == [] {
      assert entries + more == entries;
    } else {
      var n := |more| - 1;
      StopsOnceStopped(db, entries, more[..n]);
      assert entries + more == (entries + more[..n]) + [more[n]];
      RunAppends(db, entries + more[..n], more[n]);
    }
  }

  lemma {:induction false} StartsFit(items: seq<Item>, k: nat, n: nat)
    requires k < n <= |items|
    ensures Start(items, k) + Width(items[k]) <= Start(items, n)
  {
    if k < n - 1 { StartsFit(items, k, n - 1); }
  }

  /** Item k is told what its own statements returned. */
  predicate Told(items: seq<Item>, results: seq<nat>, k: nat, one: ItemResult)
    requires k < |items|
  {
    Start(items, k) + Width(items[k]) <= |results| && one == ResultAt(items[k], results, Start(items, k))
  }

  ghost predicate Aligned(items: seq<Item>, n: nat, results: seq<nat>, told: seq<ItemResult>)
    requires n <= |items|
  {
    |told| == n && forall k :: 0 <= k < n ==> Told(items, results, k, told[k])
  }

  lemma StaysTold(items: seq<Item>, before: seq<nat>, after: seq<nat>, k: nat, one: ItemResult)
    requires k < |items| && Told(items, before, k, one)
    requires |before| <= |after| && before == after[..|before|]
    ensures Told(items, after, k, one)
  {
    hide Start;
  }

  lemma AlignedAppends(items: seq<Item>, n: nat, before: seq<nat>, after: seq<nat>, told: seq<ItemResult>,
      last: ItemResult)
    requires n < |items| && Aligned(items, n, before, told)
    requires |before| <= |after| && before == after[..|before|]
    requires Told(items, after, n, last)
    ensures Aligned(items, n + 1, after, told + [last])
  {
    hide Told;
    forall k | 0 <= k < n ensures Told(items, after, k, told[k]) {
      StaysTold(items, before, after, k, told[k]);
    }
  }

  lemma PlanNext(db: Db, items: seq<Item>, recorded: set<nat>, n: nat)
    requires 0 < n <= |items|
    ensures var init, effect := PlanEffect(db, items, recorded, n - 1), PlanEffect(db, items, recorded, n);
            var last := if init.None? then None else ItemEffect(init.value.0, items[n - 1], n - 1 in recorded);
            effect == if last.None? then None else Some((last.value.0, init.value.1 + [last.value.1]))
  {
    hide ItemEffect;
  }

  /**
   * The batch commits exactly when the plan goes through, with its state and, at its
   * own offset, each item's result.
   */
  lemma {:induction false} BatchRunsThePlan(db: Db, items: seq<Item>, recorded: set<nat>, n: nat)
    requires n <= |items|
    ensures var run, effect := RunStatements(db, Entries(items, recorded, n)), PlanEffect(db, items, recorded, n);
            && (run.Some? <==> effect.Some?)
            && (run.Some? ==> run.value.db == effect.value.0)
            && (run.Some? ==> Aligned(items, n, run.value.results, effect.value.1))
  {
    if n > 0 {
      var item, known := items[n - 1], n - 1 in recorded;
      var init, tagged := Entries(items, recorded, n - 1), Tagged(n - 1, StatementsOf(item, known));
      assert Entries(items, recorded, n) == init + tagged;
      hide RunStatements, PlanEffect, Aligned, Told, ResultAt, Start, Tagged, ItemEffect, Entries, StatementsOf;
      BatchRunsThePlan(db, items, recorded, n - 1);
      PlanNext(db, items, recorded, n);
      if RunStatements(db, init).None? {
        StopsOnceStopped(db, init, tagged);
      } else {
        RunsItem(db, init, n - 1, item, known);
        if RunStatements(db, init + tagged).Some? {
          var before, after := RunStatements(db, init).value.results, RunStatements(db, init + tagged).value.results;
          var told := PlanEffect(db, items, recorded, n - 1).value.1;
          AlignedAppends(items, n - 1, before, after, told, ResultAt(item, after, |init|));
        }
      }
    }
  }

  // ----- The provider -----

  /** How many statements of the list belong to an item. */
  function CountOf(entries: seq<StatementEntry>, index: nat): nat {
    if entries == [] then 0
    else CountOf(entries[..|entries| - 1], index) + if entries[|entries| - 1].itemIndex == index then 1 else 0
  }

  lemma CountAppends(entries: seq<StatementEntry>, e: StatementEntry, index: nat)
    ensures CountOf(entries + [e], index) == CountOf(entries, index) + if e.itemIndex == index then 1 else 0
  {
    assert (entries + [e])[..|entries|] == entries;
  }

  lemma CountTagged(entries: seq<StatementEntry>, at: nat, statements: seq<Statement>, index: nat)
    requires 1 <= |statements| <= 2
    ensures CountOf(entries + Tagged(at, statements), index)
            == CountOf(entries, index) + if at == index then |statements| else 0
  {
    hide CountOf;
    var tagged := Tagged(at, statements);
    CountAppends(entries, tagged[0], index);
    if |tagged| == 2 {
      CountAppends(entries + [tagged[0]], tagged[1], index);
      assert entries + tagged == entries + [tagged[0]] + [tagged[1]];
    } else {
      assert tagged == [tagged[0]];
    }
  }

  /** Counting an item's entries finds its statements. */
  lemma {:induction false} CountFindsStatements(items: seq<Item>, recorded: set<nat>, n: nat, index: nat)
    requires n <= |items|
    ensures CountOf(Entries(items, recorded, n), index) == if index < n then Width(items[index]) else 0
  {
    hide Tagged, StatementsOf;
    if n > 0 {
      CountFindsStatements(items, recorded, n - 1, index);
      CountTagged(Entries(items, recorded, n - 1), n - 1, StatementsOf(items[n - 1], n - 1 in recorded), index);
    }
  }

  class D1Provider {
    var db: Db

    constructor (db: Db)
      ensures this.db == db
    {
      this.db := db;
    }

    /**
     * Run a plan. `seen` is what the precheck reads in the outbox for each item;
     * other writers may have changed the database between those reads and the batch.
     */
    method ExecuteAtomicBatch(items: seq<Item>, seen: seq<Option<string>>, maxBatchItems: nat)
      returns (r: Result<seq<ItemResult>, BatchError>)
      requires |seen| == |items|
      modifies this
      ensures var effect := PlanEffect(old(db), items, FoundEvents(items, seen, |items|), |items|);
              if !PrecheckPasses(items, seen, |items|) then r == Err(ReusedKey) && db == old(db)
              else if Start(items, |items|) > maxBatchItems then r == Err(BatchTooLarge) && db == old(db)
              else if effect.None? then r == Err(Aborted) && db == old(db)
              else r == Ok(effect.value.1) && db == effect.value.0
    {
      hide PrecheckPasses, FoundEvents, PlanEffect, RunStatements;
      var passes, recorded := Precheck(items, seen);
      if !passes {
        return Err(ReusedKey);
      }
      var entries := StatementList(items, recorded);
      if |entries| > maxBatchItems {
        return Err(BatchTooLarge);
      }
      BatchRunsThePlan(db, items, recorded, |items|);
      var run := RunStatements(db, entries);
      if run.None? {
        return Err(Aborted);
      }
      ghost var effect := PlanEffect(db, items, recorded, |items|);
      db := run.value.db;
      var told := Align(items, recorded, entries, run.value.results);
      assert told == effect.value.1;
      return Ok(told);
    }
  }

  /** Push the statements of every item. */
  method StatementList(items: seq<Item>, recorded: set<nat>) returns (entries: seq<StatementEntry>)
    ensures entries == Entries(items, recorded, |items|)
  {
    entries := [];
    for i := 0 to |items|
      invariant entries == Entries(items, recorded, i)
    {
      entries := entries + Tagged(i, StatementsOf(items[i], i in recorded));
    }
  }

  /** Walk the items and the outbox reads, remembering what each key was used for. */
  method Precheck(items: seq<Item>, seen: seq<Option<string>>) returns (passes: bool, recorded: set<nat>)
    requires |seen| == |items|
    ensures passes == PrecheckPasses(items, seen, |items|)
    ensures passes ==> recorded == FoundEvents(items, seen, |items|)
  {
    hide PlanKey;
    var fingerprints: map<string, string> := map[];
    recorded := {};
    for i := 0 to |items|
      invariant PrecheckPasses(items, seen, i)
      invariant recorded == FoundEvents(items, seen, i)
      invariant forall j :: 0 <= j < i && items[j].Outbox? ==>
                  PlanKey(items[j].event) in fingerprints
                  && fingerprints[PlanKey(items[j].event)] == items[j].event.fingerprint
      invariant forall k :: k in fingerprints ==>
          exists j :: 0 <= j < i && items[j].Outbox? && PlanKey(items[j].event) == k
    {
      if items[i].Outbox? {
        var e := items[i].event;
        if PlanKey(e) in fingerprints && fingerprints[PlanKey(e)] != e.fingerprint {
          return false, recorded;
        }
        fingerprints := fingerprints[PlanKey(e) := e.fingerprint];
        if seen[i].Some? {
          if seen[i].value != e.fingerprint {
            return false, recorded;
          }
          recorded := recorded + {i};
        }
      }
    }
    passes := true;
  }

  /** Hand the results back item by item, moving an offset through them. */
  method Align(items: seq<Item>, ghost recorded: set<nat>, entries: seq<StatementEntry>, results: seq<nat>)
    returns (told: seq<ItemResult>)
    requires entries == Entries(items, recorded, |items|) && |results| == |entries|
    ensures Aligned(items, |items|, results, told)
  {
    told := [];
    var offset := 0;
    for i := 0 to |items|
      invariant offset == Start(items, i) && Aligned(items, i, results, told)
    {
      CountFindsStatements(items, recorded, |items|, i);
      StartsFit(items, i, |items|);
      var count := CountOf(entries, i);
      var own := results[offset..offset + count];
      var one := if items[i].Idempotency? then Fenced(own[0], own[1]) else Single(own[0]);
      assert Told(items, results, i, one);
      hide Told;
      told := told + [one];
      offset := offset + count;
    }
  }
}
