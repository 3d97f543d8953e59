/** What an atomic batch promises: when it commits, what it leaves, and that PostgreSQL's transaction does the same. */
module AtomicBatchProofs {
  import opened Common
  import opened IdempotencyStore
  import opened AtomicBatch

  // ----- The parts of a plan do not touch each other -----

  /** The business data after the commands among the first n items. */
  function DataAfter(d: Data, items: seq<Item>, n: nat): Data
    requires n <= |items|
  {
    if n == 0 then d
    else
      var before := DataAfter(d, items, n - 1);
      if items[n - 1].Command? && items[n - 1].write(before).Some? then items[n - 1].write(before).value.0 else before
  }

  function AuditAfter(audit: seq<string>, items: seq<Item>, n: nat): seq<string>
    requires n <= |items|
  {
    if n == 0 then audit
    else AuditAfter(audit, items, n - 1) + if items[n - 1].Audit? then [items[n - 1].record] else []
  }

  function ReceiptsAfter(t: Table, items: seq<Item>, n: nat): Table
    requires n <= |items|
  {
    if n == 0 then t
    else
      var before := ReceiptsAfter(t, items, n - 1);
      if items[n - 1].Idempotency? then
        var c := items[n - 1].receipt;
        CommitReceipt(before, c.id, c.fingerprint, c.token, c.tags, c.resource)
      else before
  }

  predicate IsNew(items: seq<Item>, recorded: set<nat>, k: nat)
    requires k < |items|
  {
    items[k].Outbox? && k !in recorded
  }

  function OutboxAfter(outbox: map<EventKey, string>, items: seq<Item>, recorded: set<nat>, n: nat): map<EventKey,
      string>
    requires n <= |items|
  {
    if n == 0 then outbox
    else
      var before := OutboxAfter(outbox, items, recorded, n - 1);
      if IsNew(items, recorded, n - 1) then before[KeyOf(items[n - 1].event) := items[n - 1].event.fingerprint]
      else before
  }

  /** The write violates no constraint, and affects the number of rows named, if one is. */
  predicate Succeeds(item: Item, d: Data)
    requires item.Command?
  {
    var w := item.write(d);
    w.Some? && (item.expected.Some? ==> w.value.1 == item.expected.value)
  }

  /** Every command succeeds on the data its predecessors leave. */
  ghost predicate CommandsSucceed(d: Data, items: seq<Item>, n: nat)
    requires n <= |items|
  {
    forall k :: 0 <= k < n && items[k].Command? ==> Succeeds(items[k], DataAfter(d, items, k))
  }

  /** Every receipt is still owned when its turn comes. */
  ghost predicate ReceiptsOwned(t: Table, items: seq<Item>, n: nat)
    requires n <= |items|
  {
    forall k :: 0 <= k < n && items[k].Idempotency? ==>
      Owns(ReceiptsAfter(t, items, k), items[k].receipt.id, items[k].receipt.fingerprint, items[k].receipt.token)
  }

  /** No new event is under a key already used, in the outbox or in the plan. */
  ghost predicate KeysUnused(outbox: map<EventKey, string>, items: seq<Item>, recorded: set<nat>, n: nat)
    requires n <= |items|
  {
    && (forall k :: 0 <= k < n && IsNew(items, recorded, k) ==> KeyOf(items[k].event) !in outbox)
    && (forall j, k :: 0 <= j < k < n && IsNew(items, recorded, j) && IsNew(items, recorded, k)
                       ==> KeyOf(items[j].event) != KeyOf(items[k].event))
  }

  lemma {:induction false} OutboxHolds(outbox: map<EventKey, string>, items: seq<Item>, recorded: set<nat>, n: nat,
      key: EventKey)
    requires n <= |items|
    ensures key in OutboxAfter(outbox, items, recorded, n)
            <==> key in outbox || exists k :: 0 <= k < n && IsNew(items, recorded, k) && KeyOf(items[k].event) == key
  {
    if n > 0 { OutboxHolds(outbox, items, recorded, n - 1, key); }
  }

  /** The four parts taken separately. */
  function Parts(db: Db, items: seq<Item>, recorded: set<nat>, n: nat): Db
    requires n <= |items|
  {
    Db(DataAfter(db.data, items, n), AuditAfter(db.audit, items, n), ReceiptsAfter(db.receipts, items, n),
       OutboxAfter(db.outbox, items, recorded, n))
  }

  /** What one item needs of the state it finds. */
  predicate Passes(db: Db, item: Item, recorded: bool) {
    match item
    case Command(_, _) => Succeeds(item, db.data)
    case Audit(_) => true
    case Idempotency(c) => Owns(db.receipts, c.id, c.fingerprint, c.token)
    case Outbox(e) => recorded || KeyOf(e) !in db.outbox
  }

  lemma PassesIff(db: Db, item: Item, recorded: bool)
    ensures ItemEffect(db, item, recorded).Some? <==> Passes(db, item, recorded)
  {
  }

  /** The next item changes its own part only. */
  lemma PartsMove(db: Db, items: seq<Item>, recorded: set<nat>, n: nat)
    requires 0 < n <= |items|
    requires ItemEffect(Parts(db, items, recorded, n - 1), items[n - 1], n - 1 in recorded).Some?
    ensures ItemEffect(Parts(db, items, recorded, n - 1), items[n - 1], n - 1 in recorded).value.0
            == Parts(db, items, recorded, n)
  {
    hide CommitReceipt, Owns, KeyOf;
  }

  /** Whether a key is unused shows in the outbox left so far. */
  lemma KeysNext(outbox: map<EventKey, string>, items: seq<Item>, recorded: set<nat>, n: nat)
    requires 0 < n <= |items|
    ensures KeysUnused(outbox, items, recorded, n)
            <==> KeysUnused(outbox, items, recorded, n - 1)
                 && (IsNew(items, recorded, n - 1) ==>
                    KeyOf(items[n - 1].event) !in OutboxAfter(outbox, items, recorded, n - 1))
  {
    if IsNew(items, recorded, n - 1) { OutboxHolds(outbox, items, recorded, n - 1, KeyOf(items[n - 1].event)); }
    hide OutboxAfter, KeyOf;
  }

  lemma CommandsNext(d: Data, items: seq<Item>, n: nat)
    requires 0 < n <= |items|
    ensures CommandsSucceed(d, items, n)
            <==> CommandsSucceed(d, items, n - 1)
                 && (items[n - 1].Command? ==> Succeeds(items[n - 1], DataAfter(d, items, n - 1)))
  {
    hide DataAfter, Succeeds;
  }

  lemma ReceiptsNext(t: Table, items: seq<Item>, n: nat)
    requires 0 < n <= |items|
    ensures ReceiptsOwned(t, items, n)
            <==> ReceiptsOwned(t, items, n - 1)
                 && (items[n - 1].Idempotency? ==>
                       var c := items[n - 1].receipt;
                       Owns(ReceiptsAfter(t, items, n - 1), c.id, c.fingerprint, c.token))
  {
    hide ReceiptsAfter, Owns;
  }

  /** What a batch needs of the business part alone. */
  ghost predicate BusinessHolds(db: Db, items: seq<Item>, recorded: set<nat>, n: nat)
    requires n <= |items|
  {
    CommandsSucceed(db.data, items, n) && KeysUnused(db.outbox, items, recorded, n)
  }

  /** One item more adds its own condition. */
  lemma ConditionsNext(db: Db, items: seq<Item>, recorded: set<nat>, n: nat)
    requires 0 < n <= |items|
    ensures var passes := Passes(Parts(db, items, recorded, n - 1), items[n - 1], n - 1 in recorded);
            && (BusinessHolds(db, items, recorded, n)
                <==> BusinessHolds(db, items, recorded, n - 1) && (items[n - 1].Idempotency? || passes))
            && (ReceiptsOwned(db.receipts, items, n)
                <==> ReceiptsOwned(db.receipts, items, n - 1) && (items[n - 1].Idempotency? ==> passes))
  {
    hide CommandsSucceed, ReceiptsOwned, KeysUnused, DataAfter, ReceiptsAfter, OutboxAfter, AuditAfter, Succeeds, Owns,
        KeyOf;
    CommandsNext(db.data, items, n);
    ReceiptsNext(db.receipts, items, n);
    KeysNext(db.outbox, items, recorded, n);
  }

  lemma NothingYet(db: Db, items: seq<Item>, recorded: set<nat>)
    ensures Parts(db, items, recorded, 0) == db
    ensures BusinessHolds(db, items, recorded, 0) && ReceiptsOwned(db.receipts, items, 0)
  {
  }

  /**
   * A batch commits if and only if its commands succeed and affect the rows they
   * expect, its receipts are owned and its new events have unused keys; the state
   * it leaves is that of its four parts taken separately.
   */
  lemma {:induction false} CommitsIff(db: Db, items: seq<Item>, recorded: set<nat>, n: nat)
    requires n <= |items|
    ensures var effect := PlanEffect(db, items, recorded, n);
            && (effect.Some? <==> BusinessHolds(db, items, recorded, n) && ReceiptsOwned(db.receipts, items, n))
            && (effect.Some? ==> effect.value.0 == Parts(db, items, recorded, n))
  {
    hide Passes, ItemEffect, DataAfter, ReceiptsAfter, OutboxAfter, AuditAfter;
    if n == 0 {
      NothingYet(db, items, recorded);
    } else {
      hide BusinessHolds, ReceiptsOwned, Parts, PlanEffect;
      CommitsIff(db, items, recorded, n - 1);
      PlanNext(db, items, recorded, n);
      ConditionsNext(db, items, recorded, n);
      var parts := Parts(db, items, recorded, n - 1);
      PassesIff(parts, items[n - 1], n - 1 in recorded);
      if Passes(parts, items[n - 1], n - 1 in recorded) { PartsMove(db, items, recorded, n); }
    }
  }

  // ----- The receipt fences the batch -----

  predicate OnlyReceipt(items: seq<Item>, k: nat)
    requires k < |items|
  {
    items[k].Idempotency? && forall i :: 0 <= i < |items| && items[i].Idempotency? ==> i == k
  }

  lemma {:induction false} ReceiptsBefore(t: Table, items: seq<Item>, k: nat, n: nat)
    requires k < |items| && OnlyReceipt(items, k) && n <= |items|
    ensures ReceiptsAfter(t, items, n)
            == if n <= k then t
               else
                 var c := items[k].receipt;
                 CommitReceipt(t, c.id, c.fingerprint, c.token, c.tags, c.resource)
  {
    if n > 0 { ReceiptsBefore(t, items, k, n - 1); }
  }

  /**
   * A batch with one receipt takes effect only while its reservation is owned,
   * wherever in the plan the receipt stands: then the row is marked committed
   * together with everything else, and otherwise nothing is changed at all.
   */
  lemma ReceiptFencesTheBatch(db: Db, items: seq<Item>, recorded: set<nat>, k: nat)
    requires k < |items| && OnlyReceipt(items, k)
    ensures var effect, c, t := PlanEffect(db, items, recorded, |items|), items[k].receipt, db.receipts;
            && (effect.Some? <==>
                && c.id in t && t[c.id].fingerprint == c.fingerprint && t[c.id].token == c.token
                && t[c.id].status == InProgress
                && BusinessHolds(db, items, recorded, |items|))
            && (effect.Some? ==>
                  && effect.value.0.receipts == t[c.id := t[c.id].(status := BusinessCommitted, result := None,
                       pending := if c.tags == [] then NoObligation else Tags(Dedupe(c.tags)), resource := c.resource)]
                  && effect.value.0.data == DataAfter(db.data, items, |items|)
                  && effect.value.1[k] == Fenced(1, 1))
  {
    hide BusinessHolds, DataAfter, AuditAfter, OutboxAfter;
    CommitsIff(db, items, recorded, |items|);
    ReceiptsBefore(db.receipts, items, k, k);
    ReceiptsBefore(db.receipts, items, k, |items|);
    if PlanEffect(db, items, recorded, |items|).Some? { ReceiptResult(db, items, recorded, k, |items|); }
  }

  lemma {:induction false} ReceiptResult(db: Db, items: seq<Item>, recorded: set<nat>, k: nat, n: nat)
    requires k < n <= |items| && items[k].Idempotency? && PlanEffect(db, items, recorded, n).Some?
    ensures PlanEffect(db, items, recorded, n).value.1[k] == Fenced(1, 1)
  {
    if k < n - 1 { ReceiptResult(db, items, recorded, k, n - 1); }
  }

  // ----- PostgreSQL commits in a transaction -----

  /** The business items of the plan inside a transaction, which the receipt is no part of. */
  function BusinessEffect(db: Db, items: seq<Item>, recorded: set<nat>, n: nat): Option<Db>
    requires n <= |items|
  {
    if n == 0 then Some(db)
    else
      var init := BusinessEffect(db, items, recorded, n - 1);
      if init.None? || items[n - 1].Idempotency? then init
      else
        var last := ItemEffect(init.value, items[n - 1], n - 1 in recorded);
        if last.None? then None else Some(last.value.0)
  }

  /** Business statements, then the guarded update; a count other than one throws and rolls everything back. */
  function Transaction(db: Db, items: seq<Item>, recorded: set<nat>, c: Receipt): Option<Db> {
    var business := BusinessEffect(db, items, recorded, |items|);
    if business.None? || ReceiptRows(business.value, c) != 1 then None else Some(WithReceipt(business.value, c))
  }

  /** This state, but with these receipts. */
  function Holding(db: Db, t: Table): Db {
    db.(receipts := t)
  }

  /** A business item neither reads nor changes the receipts. */
  lemma ReceiptsStayOut(db: Db, item: Item, recorded: bool, t: Table)
    requires !item.Idempotency?
    ensures var effect, other := ItemEffect(db, item, recorded), ItemEffect(Holding(db, t), item, recorded);
            && (effect.Some? <==> other.Some?)
            && (effect.Some? ==> other.value.0 == Holding(effect.value.0, t))
  {
  }

  /** A receipt changes nothing else. */
  lemma BusinessStaysOut(db: Db, items: seq<Item>, recorded: set<nat>, n: nat, t: Table)
    requires 0 < n <= |items| && items[n - 1].Idempotency?
    ensures Holding(Parts(db, items, recorded, n), t) == Holding(Parts(db, items, recorded, n - 1), t)
  {
    hide CommitReceipt;
  }

  lemma {:induction false} BusinessCommitsIff(db: Db, items: seq<Item>, recorded: set<nat>, n: nat)
    requires n <= |items|
    ensures var effect := BusinessEffect(db, items, recorded, n);
            && (effect.Some? <==> BusinessHolds(db, items, recorded, n))
            && (effect.Some? ==> effect.value == Holding(Parts(db, items, recorded, n), db.receipts))
  {
    hide Passes, ItemEffect, DataAfter, ReceiptsAfter, OutboxAfter, AuditAfter;
    if n == 0 {
      NothingYet(db, items, recorded);
    } else {
      hide BusinessHolds, ReceiptsOwned, Parts, Holding, BusinessEffect;
      var item, known, parts := items[n - 1], n - 1 in recorded, Parts(db, items, recorded, n - 1);
      BusinessCommitsIff(db, items, recorded, n - 1);
      ConditionsNext(db, items, recorded, n);
      if item.Idempotency? {
        BusinessStaysOut(db, items, recorded, n, db.receipts);
      } else {
        ReceiptsStayOut(parts, item, known, db.receipts);
        PassesIff(parts, item, known);
        if Passes(parts, item, known) { PartsMove(db, items, recorded, n); }
      }
    }
  }

  /**
   * D1's batch, wherever in the list its receipt stands, commits when PostgreSQL's
   * transaction does and leaves the same state.
   */
  lemma BatchIsTheTransaction(db: Db, items: seq<Item>, recorded: set<nat>, k: nat)
    requires k < |items| && OnlyReceipt(items, k)
    ensures var batch, transaction :=
        PlanEffect(db, items, recorded, |items|), Transaction(db, items, recorded, items[k].receipt);
            && (batch.Some? <==> transaction.Some?)
            && (batch.Some? ==> batch.value.0 == transaction.value)
  {
    hide BusinessHolds, DataAfter, AuditAfter, OutboxAfter, PlanEffect, BusinessEffect;
    CommitsIff(db, items, recorded, |items|);
    BusinessCommitsIff(db, items, recorded, |items|);
    ReceiptsBefore(db.receipts, items, k, k);
    ReceiptsBefore(db.receipts, items, k, |items|);
  }

  // ----- The outbox -----

  /** What the precheck read is still there: events are never removed or replaced. */
  ghost predicate StillThere(outbox: map<EventKey, string>, items: seq<Item>, seen: seq<Option<string>>)
    requires |seen| == |items|
  {
    forall k :: 0 <= k < |items| && items[k].Outbox? && seen[k].Some? ==>
      KeyOf(items[k].event) in outbox && outbox[KeyOf(items[k].event)] == seen[k].value
  }

  lemma {:induction false} OutboxKeeps(outbox: map<EventKey, string>, items: seq<Item>, recorded: set<nat>, n: nat,
      key: EventKey)
    requires n <= |items| && KeysUnused(outbox, items, recorded, n)
    ensures key in outbox ==>
              key in OutboxAfter(outbox, items, recorded, n)
                && OutboxAfter(outbox, items, recorded, n)[key] == outbox[key]
    ensures forall k :: 0 <= k < n && IsNew(items, recorded, k) && KeyOf(items[k].event) == key ==>
              key in OutboxAfter(outbox, items, recorded, n)
              && OutboxAfter(outbox, items, recorded, n)[key] == items[k].event.fingerprint
  {
    if n > 0 { OutboxKeeps(outbox, items, recorded, n - 1, key); }
  }

  /**
   * A committed batch leaves every event of its plan under its own scope and key
   * with its own content, changes no event that was there, and adds no other.
   */
  lemma EventsAreRecorded(db: Db, items: seq<Item>, seen: seq<Option<string>>)
    requires |seen| == |items| && PrecheckPasses(items, seen, |items|) && StillThere(db.outbox, items, seen)
    requires PlanEffect(db, items, FoundEvents(items, seen, |items|), |items|).Some?
    ensures var after := PlanEffect(db, items, FoundEvents(items, seen, |items|), |items|).value.0.outbox;
            && (forall k :: 0 <= k < |items| && items[k].Outbox? ==>
                  (items[k].event.scope, items[k].event.key) in after
                  && after[(items[k].event.scope, items[k].event.key)] == items[k].event.fingerprint)
            && (forall key :: key in db.outbox ==> key in after && after[key] == db.outbox[key])
            && (forall key :: key in after ==>
                  || key in db.outbox
                  || exists k :: 0 <= k < |items| && items[k].Outbox?
                                 && (items[k].event.scope, items[k].event.key) == key)
  {
    hide PlanEffect, KeysUnused;
    var recorded := FoundEvents(items, seen, |items|);
    CommitsIff(db, items, recorded, |items|);
    var after := OutboxAfter(db.outbox, items, recorded, |items|);
    forall k | 0 <= k < |items| && items[k].Outbox?
      ensures KeyOf(items[k].event) in after && after[KeyOf(items[k].event)] == items[k].event.fingerprint {
      OutboxKeeps(db.outbox, items, recorded, |items|, KeyOf(items[k].event));
      assert IsNew(items, recorded, k) || k in recorded;
    }
    forall key | key in db.outbox ensures key in after && after[key] == db.outbox[key] {
      OutboxKeeps(db.outbox, items, recorded, |items|, key);
    }
    forall key | key in after
      ensures key in db.outbox || exists k :: 0 <= k < |items| && items[k].Outbox? && KeyOf(items[k].event) == key {
      OutboxHolds(db.outbox, items, recorded, |items|, key);
    }
  }

  /** One event's scope runs on where the other's key begins, so that the joined texts are one. */
  predicate RunsOn(a: Event, b: Event) {
    && |a.scope| < |b.scope| && b.scope[..|a.scope|] == a.scope && b.scope[|a.scope|] == '\0'
    && a.key == b.scope[|a.scope| + 1..] + ['\0'] + b.key
  }

  /** The plan's own check keeps two events apart unless they agree in scope and key, or a NUL lets one run on. */
  lemma PlanKeysAgreeIff(a: Event, b: Event)
    ensures PlanKey(a) == PlanKey(b) <==> (a.scope == b.scope && a.key == b.key) || RunsOn(a, b) || RunsOn(b, a)
    ensures '\0' !in a.scope && '\0' !in b.scope ==>
              (PlanKey(a) == PlanKey(b) <==> a.scope == b.scope && a.key == b.key)
  {
    if |a.scope| == |b.scope| {
      assert PlanKey(a)[..|a.scope|] == a.scope && PlanKey(b)[..|b.scope|] == b.scope;
      assert PlanKey(a)[|a.scope| + 1..] == a.key && PlanKey(b)[|b.scope| + 1..] == b.key;
    } else if |a.scope| < |b.scope| {
      RunOnJoins(a, b);
    } else {
      RunOnJoins(b, a);
    }
  }

  lemma RunOnJoins(a: Event, b: Event)
    requires |a.scope| < |b.scope|
    ensures PlanKey(a) == PlanKey(b) <==> RunsOn(a, b)
    ensures RunsOn(a, b) ==> '\0' in b.scope
  {
    var n := |a.scope|;
    var p, q := PlanKey(a), PlanKey(b);
    assert p[..n] == a.scope && p[n] == '\0' && p[n + 1..] == a.key;
    assert q[..n] == b.scope[..n] && q[n] == b.scope[n] && q[n + 1..] == b.scope[n + 1..] + ['\0'] + b.key;
    assert p == p[..n] + [p[n]] + p[n + 1..] && q == q[..n] + [q[n]] + q[n + 1..];
  }

  /**
   * What the precheck refuses, for scopes without NUL: two events of the plan
   * under one scope and key with different content, or an event found under its
   * scope and key with other content. Equal keys in different scopes are let through.
   */
  lemma PrecheckRefusesReuse(items: seq<Item>, seen: seq<Option<string>>)
    requires |seen| == |items| && forall k :: 0 <= k < |items| && items[k].Outbox? ==> '\0' !in items[k].event.scope
    ensures PrecheckPasses(items, seen, |items|) <==>
            && (forall i, j :: 0 <= i < j < |items| && items[i].Outbox? && items[j].Outbox?
                               && items[i].event.scope == items[j].event.scope
                               && items[i].event.key == items[j].event.key
                               ==> items[i].event.fingerprint == items[j].event.fingerprint)
            && (forall i :: 0 <= i < |items| && items[i].Outbox? && seen[i].Some?
                            ==> seen[i].value == items[i].event.fingerprint)
  {
    forall i, j | 0 <= i < j < |items| && items[i].Outbox? && items[j].Outbox?
      ensures PlanKey(items[i].event) == PlanKey(items[j].event)
          <==> items[i].event.scope == items[j].event.scope && items[i].event.key == items[j].event.key
    {
      PlanKeysAgreeIff(items[i].event, items[j].event);
    }
  }

  /**
   * A plan that holds an event twice passes the precheck, but unless the event is
   * already recorded the batch always aborts on the unique index.
   */
  lemma EventTwiceAborts(db: Db, items: seq<Item>, recorded: set<nat>, j: nat, k: nat)
    requires j < k < |items| && IsNew(items, recorded, j) && IsNew(items, recorded, k)
    requires items[j].event == items[k].event
    ensures PlanEffect(db, items, recorded, |items|).None?
  {
    CommitsIff(db, items, recorded, |items|);
  }

  /** Of two batches that recorded nothing beforehand and carry one event, the second aborts. */
  lemma SecondWriterAborts(db: Db, first: seq<Item>, second: seq<Item>, j: nat, k: nat)
    requires j < |first| && k < |second| && first[j].Outbox? && second[k].Outbox?
    requires KeyOf(first[j].event) == KeyOf(second[k].event)
    requires PlanEffect(db, first, {}, |first|).Some?
    ensures PlanEffect(PlanEffect(db, first, {}, |first|).value.0, second, {}, |second|).None?
  {
    CommitsIff(db, first, {}, |first|);
    var between := PlanEffect(db, first, {}, |first|).value.0;
    assert IsNew(first, {}, j);
    OutboxHolds(db.outbox, first, {}, |first|, KeyOf(first[j].event));
    CommitsIff(between, second, {}, |second|);
    assert IsNew(second, {}, k);
  }
}
