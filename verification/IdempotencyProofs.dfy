/**
 * Safety of the idempotency protocol over every run: one mutation per key, no
 * lost invalidation, one response per key, and a fenced commit.
 */
module IdempotencyProofs {
  import opened Common
  import opened IdempotencyStore
  import opened IdempotencyProtocol

  // ----- Reading the effect log -----

  /** How many business mutations of this key have committed. */
  function Mutations(log: seq<Effect>, id: Id): nat {
    if log == [] then 0
    else
      var last := log[|log| - 1];
      Mutations(log[..|log| - 1], id) + if last.Mutated? && last.id == id then 1 else 0
  }

  /** Tags a committed mutation of this key owes and that were not invalidated since. */
  function Owed(log: seq<Effect>, id: Id): set<Tag> {
    if log == [] then {} else OwedAfter(Owed(log[..|log| - 1], id), log[|log| - 1], id)
  }

  function OwedAfter(owed: set<Tag>, e: Effect, id: Id): set<Tag> {
    match e
    case Mutated(x, tags) => if x == id then owed + tags else owed
    case Invalidated(tag) => owed - {tag}
  }

  /** Positions: an obligation is owed exactly when no later entry invalidates it. */
  ghost predicate Undischarged(log: seq<Effect>, id: Id, tag: Tag) {
    exists i ::
      && 0 <= i < |log|
      && log[i].Mutated? && log[i].id == id && tag in log[i].tags
      && forall j :: i < j < |log| ==> log[j] != Invalidated(tag)
  }

  lemma {:induction false} OwedMeansUndischarged(log: seq<Effect>, id: Id, tag: Tag)
    ensures tag in Owed(log, id) <==> Undischarged(log, id, tag)
  {
    if log != [] {
      var init, last := log[..|log| - 1], log[|log| - 1];
      OwedMeansUndischarged(init, id, tag);
      if Undischarged(init, id, tag) && last != Invalidated(tag) {
        var i :| 0 <= i < |init| && init[i].Mutated? && init[i].id == id && tag in init[i].tags
                 && forall j :: i < j < |init| ==> init[j] != Invalidated(tag);
        assert log[i] == init[i];
      }
      if last.Mutated? && last.id == id && tag in last.tags {
        assert log[|log| - 1] == last;
      }
      if Undischarged(log, id, tag) && !(last.Mutated? && last.id == id && tag in last.tags) {
        var i :| 0 <= i < |log| && log[i].Mutated? && log[i].id == id && tag in log[i].tags
                 && forall j :: i < j < |log| ==> log[j] != Invalidated(tag);
        assert i < |init| && init[i] == log[i];
        assert log[|log| - 1] != Invalidated(tag);
        assert forall j :: i < j < |init| ==> init[j] == log[j];
      }
    }
  }

  lemma {:induction false} CountsPositions(log: seq<Effect>, id: Id)
    ensures Mutations(log, id) == 0 ==> forall i :: 0 <= i < |log| ==> !(log[i].Mutated? && log[i].id == id)
    ensures Mutations(log, id) <= 1 ==>
              forall i, j :: 0 <= i < j < |log| && log[i].Mutated? && log[j].Mutated? ==>
                !(log[i].id == id && log[j].id == id)
  {
    if log != [] {
      CountsPositions(log[..|log| - 1], id);
      var init := log[..|log| - 1];
      assert forall i :: 0 <= i < |init| ==> init[i] == log[i];
    }
  }

  lemma {:induction false} NothingOwedUncommitted(log: seq<Effect>, id: Id)
    requires Mutations(log, id) == 0
    ensures Owed(log, id) == {}
  {
    if log != [] {
      NothingOwedUncommitted(log[..|log| - 1], id);
    }
  }

  // ----- The invariant -----

  ghost predicate RowOk(d: Shared, id: Id) {
    if id !in d.rows then Mutations(d.log, id) == 0
    else
      var row := d.rows[id];
      && row.token in d.issued
      && Mutations(d.log, id) == (if row.status.InProgress? then 0 else 1)
      && (row.status.InProgress? ==> row.pending.NoObligation?)
      && (row.status.Completed? <==> row.result.Some?)
      && (row.status.Completed? ==> row.pending.NoObligation?)
      && (!row.pending.Unreadable? ==> Owed(d.log, id) <= OwedTags(row.pending))
  }

  /** The key has committed under this token, and owes at most these tags. */
  ghost predicate CommittedOwing(d: Shared, id: Id, token: Token, tags: set<Tag>) {
    && id in d.rows
    && !d.rows[id].status.InProgress?
    && d.rows[id].token == token
    && Owed(d.log, id) <= tags
  }

  ghost predicate ClientOk(d: Shared, x: Client) {
    match x.phase
    case Running(token) => token in d.issued
    case Serializing(token) => CommittedOwing(d, x.id, token, Elements(TagsOf(x)))
    case Invalidating(token, todo, _) => CommittedOwing(d, x.id, token, Elements(todo))
    case Completing(token, _) => CommittedOwing(d, x.id, token, {})
    case Recovering(token) => CommittedOwing(d, x.id, token, Owed(d.log, x.id))
    case Draining(token, todo, _) => CommittedOwing(d, x.id, token, Elements(todo))
    case Finishing(token, _) => CommittedOwing(d, x.id, token, {})
    case Finished(Replied(response)) =>
      && x.id in d.rows
      && d.rows[x.id].fingerprint == x.fingerprint
      && d.rows[x.id].status.Completed?
      && d.rows[x.id].result == Some(response)
    case _ => true
  }

  ghost predicate SnapshotOk(d: Shared, s: Snapshot) {
    && s.row.result.None?
    && CommittedOwing(d, s.id, s.row.token, if s.row.pending.Tags? then Elements(s.row.pending.tags)
       else Owed(d.log, s.id))
  }

  ghost predicate ClaimOk(d: Shared, c: Claim) {
    c.result.None? && CommittedOwing(d, c.id, c.token, Elements(c.tags))
  }

  ghost predicate FinalizerOk(d: Shared, f: Finalizer) {
    match f
    case Idle => true
    case Claiming(_, _, todo, claimed) =>
      && (forall s :: s in todo ==> SnapshotOk(d, s))
      && (forall c :: c in claimed ==> ClaimOk(d, c))
    case Working(claims, remaining, drained, _) =>
      && (forall c :: c in claims ==> ClaimOk(d, c))
      && (claims != [] ==> Owed(d.log, claims[0].id) <= Elements(remaining))
      && drained == 0
  }

  /** Running handlers hold pairwise different tokens. */
  ghost predicate Fenced(w: World) {
    forall c, d :: c in w.clients && d in w.clients && c != d
                   && w.clients[c].phase.Running? && w.clients[d].phase.Running? ==>
      w.clients[c].phase.token != w.clients[d].phase.token
  }

  ghost predicate Inv(w: World) {
    && (forall id :: RowOk(w.shared, id))
    && (forall c :: c in w.clients ==> ClientOk(w.shared, w.clients[c]))
    && (forall f :: f in w.finalizers ==> FinalizerOk(w.shared, w.finalizers[f]))
    && Fenced(w)
  }

  // ----- What no step takes back -----

  /** A committed key keeps its row, token and fingerprint, a completed one its result, and debts only shrink. */
  ghost predicate Keeps(d: Shared, e: Shared, id: Id) {
    id in d.rows && !d.rows[id].status.InProgress? ==>
      && id in e.rows
      && !e.rows[id].status.InProgress?
      && e.rows[id].token == d.rows[id].token
      && e.rows[id].fingerprint == d.rows[id].fingerprint
      && Owed(e.log, id) <= Owed(d.log, id)
      && (d.rows[id].status.Completed? ==> e.rows[id].status.Completed? && e.rows[id].result == d.rows[id].result)
  }

  ghost predicate Later(d: Shared, e: Shared) {
    d.issued <= e.issued && forall id :: Keeps(d, e, id)
  }

  lemma LaterIsTransitive(a: Shared, b: Shared, c: Shared)
    requires Later(a, b) && Later(b, c)
    ensures Later(a, c)
  {
    forall id ensures Keeps(a, c, id) {
      assert Keeps(a, b, id) && Keeps(b, c, id);
    }
  }

  lemma ClientStays(d: Shared, e: Shared, x: Client)
    requires Later(d, e) && ClientOk(d, x)
    ensures ClientOk(e, x)
  {
    assert Keeps(d, e, x.id);
  }

  lemma FinalizerStays(d: Shared, e: Shared, f: Finalizer)
    requires Later(d, e) && FinalizerOk(d, f)
    ensures FinalizerOk(e, f)
  {
    match f
    case Idle =>
    case Claiming(_, _, todo, claimed) =>
      forall s | s in todo ensures SnapshotOk(e, s) { assert SnapshotOk(d, s) && Keeps(d, e, s.id); }
      forall c | c in claimed ensures ClaimOk(e, c) { assert ClaimOk(d, c) && Keeps(d, e, c.id); }
    case Working(claims, remaining, _, _) =>
      forall c | c in claims ensures ClaimOk(e, c) { assert ClaimOk(d, c) && Keeps(d, e, c.id); }
      if claims != [] {
        assert ClaimOk(d, claims[0]) && Keeps(d, e, claims[0].id);
      }
  }

  // ----- Each statement keeps every row consistent -----

  ghost predicate Good(d: Shared, e: Shared) {
    Later(d, e) && forall id :: RowOk(e, id)
  }

  /** A statement that rewrites one row and logs nothing. */
  lemma RewriteOk(d: Shared, e: Shared, id: Id)
    requires forall x :: RowOk(d, x)
    requires e.log == d.log && d.issued <= e.issued
    requires e.rows.Keys == d.rows.Keys + {id}
    requires forall x :: x in d.rows && x != id ==> e.rows[x] == d.rows[x]
    requires RowOk(e, id) && Keeps(d, e, id)
    ensures Good(d, e)
  {
    forall x ensures RowOk(e, x) && Keeps(d, e, x) {
      assert RowOk(d, x);
    }
  }

  lemma LogOk(d: Shared, tag: Tag)
    requires forall x :: RowOk(d, x)
    ensures Good(d, Logged(d, Invalidated(tag)))
  {
    var e := Logged(d, Invalidated(tag));
    forall x ensures RowOk(e, x) && Keeps(d, e, x) {
      assert RowOk(d, x);
    }
  }

  lemma CommitOk(d: Shared, id: Id, fp: Fingerprint, token: Token, tags: seq<Tag>, resource: Option<string>)
    requires forall x :: RowOk(d, x)
    requires Owns(d.rows, id, fp, token)
    ensures var e := d.(rows := CommitReceipt(d.rows, id, fp, token, tags, resource),
                        log := d.log + [Mutated(id, Elements(tags))]);
            Good(d, e) && CommittedOwing(e, id, token, Elements(tags))
  {
    var e := d.(rows := CommitReceipt(d.rows, id, fp, token, tags, resource),
                log := d.log + [Mutated(id, Elements(tags))]);
    assert RowOk(d, id);
    NothingOwedUncommitted(d.log, id);
    forall x ensures RowOk(e, x) && Keeps(d, e, x) {
      assert RowOk(d, x);
    }
  }

  // ----- Closing the invariant over the processes -----

  lemma CloseClient(w: World, c: ClientId, phase: Phase, e: Shared)
    requires Inv(w) && c in w.clients
    requires Good(w.shared, e)
    requires ClientOk(e, w.clients[c].(phase := phase))
    requires phase.Running? ==> phase.token !in w.shared.issued
    ensures Inv(Moved(w, c, phase, e))
  {
    var v := Moved(w, c, phase, e);
    forall a | a in v.clients ensures ClientOk(v.shared, v.clients[a]) {
      if a != c { ClientStays(w.shared, e, w.clients[a]); }
    }
    forall f | f in v.finalizers ensures FinalizerOk(v.shared, v.finalizers[f]) {
      FinalizerStays(w.shared, e, w.finalizers[f]);
    }
    forall a, b | a in v.clients && b in v.clients && a != b && v.clients[a].phase.Running?
        && v.clients[b].phase.Running?
      ensures v.clients[a].phase.token != v.clients[b].phase.token
    {
      assert a != c ==> ClientOk(w.shared, w.clients[a]);
      assert b != c ==> ClientOk(w.shared, w.clients[b]);
    }
  }

  lemma CloseFinalizer(w: World, f: WorkerId, phase: Finalizer, e: Shared)
    requires Inv(w)
    requires Good(w.shared, e)
    requires FinalizerOk(e, phase)
    ensures Inv(WithFinalizer(w, f, phase, e))
  {
    var v := WithFinalizer(w, f, phase, e);
    forall a | a in v.clients ensures ClientOk(v.shared, v.clients[a]) {
      ClientStays(w.shared, e, w.clients[a]);
    }
    forall g | g in v.finalizers ensures FinalizerOk(v.shared, v.finalizers[g]) {
      if g != f { FinalizerStays(w.shared, e, w.finalizers[g]); }
    }
  }

  // ----- One step of a handler -----

  lemma ReserveStep(w: World, c: ClientId, ch: Choice)
    requires Inv(w) && c in w.clients
    requires w.clients[c].phase.Inserting? || w.clients[c].phase.TakingOver?
    ensures Inv(AdvanceClient(w, c, ch)) && Good(w.shared, AdvanceClient(w, c, ch).shared)
  {
    var x, d := w.clients[c], w.shared;
    if ch.token !in d.issued {
      var v := AdvanceClient(w, c, ch);
      assert RowOk(d, x.id);
      if v.shared.rows == d.rows {
        DrawOk(d, ch.token);
      } else {
        NothingOwedUncommitted(d.log, x.id);
        RewriteOk(d, v.shared, x.id);
      }
      CloseClient(w, c, v.clients[c].phase, v.shared);
    } else {
      SameIsGood(d);
    }
  }

  lemma SameIsGood(d: Shared)
    requires forall x :: RowOk(d, x)
    ensures Good(d, d)
  {
  }

  lemma DrawOk(d: Shared, token: Token)
    requires forall x :: RowOk(d, x)
    ensures Good(d, Drawn(d, token))
  {
    forall x ensures RowOk(Drawn(d, token), x) && Keeps(d, Drawn(d, token), x) {
      assert RowOk(d, x);
    }
  }

  lemma ResolveStep(w: World, c: ClientId, ch: Choice)
    requires Inv(w) && c in w.clients
    requires w.clients[c].phase.Resolving? || w.clients[c].phase.Rechecking?
    ensures Inv(AdvanceClient(w, c, ch)) && Good(w.shared, AdvanceClient(w, c, ch).shared)
  {
    var x, d := w.clients[c], w.shared;
    var v := AdvanceClient(w, c, ch);
    assert RowOk(d, x.id);
    SameIsGood(d);
    CloseClient(w, c, v.clients[c].phase, d);
  }

  lemma CommitStep(w: World, c: ClientId, ch: Choice)
    requires Inv(w) && c in w.clients
    requires w.clients[c].phase.Running?
    ensures Inv(AdvanceClient(w, c, ch)) && Good(w.shared, AdvanceClient(w, c, ch).shared)
  {
    var x, d := w.clients[c], w.shared;
    var v := AdvanceClient(w, c, ch);
    SameIsGood(d);
    if v.clients[c].phase.Serializing? {
      CommitOk(d, x.id, x.fingerprint, x.phase.token, TagsOf(x), x.resource);
    }
    CloseClient(w, c, v.clients[c].phase, v.shared);
  }

  lemma StartsOwing(d: Shared, claims: seq<Claim>)
    requires forall c :: c in claims ==> ClaimOk(d, c)
    ensures claims != [] ==> Owed(d.log, claims[0].id) <= Elements(FirstTags(claims))
  {
    if claims != [] {
      assert ClaimOk(d, claims[0]);
    }
  }

  lemma InvalidateStep(w: World, c: ClientId, ch: Choice)
    requires Inv(w) && c in w.clients
    requires w.clients[c].phase.Invalidating? || w.clients[c].phase.Draining?
    ensures Inv(AdvanceClient(w, c, ch)) && Good(w.shared, AdvanceClient(w, c, ch).shared)
  {
    var x, d := w.clients[c], w.shared;
    var v := AdvanceClient(w, c, ch);
    assert ClientOk(d, x);
    SameIsGood(d);
    var todo := x.phase.todo;
    if todo != [] && !ch.fails {
      LogOk(d, todo[0]);
    }
    CloseClient(w, c, v.clients[c].phase, v.shared);
  }

  /** Completing, recovering and poisoning touch only a row that has committed. */
  lemma FinishStep(w: World, c: ClientId, ch: Choice)
    requires Inv(w) && c in w.clients
    requires var p := w.clients[c].phase;
             p.Poisoning? || p.Serializing? || p.Completing? || p.Recovering? || p.Finishing? || p.Finished?
    ensures Inv(AdvanceClient(w, c, ch)) && Good(w.shared, AdvanceClient(w, c, ch).shared)
  {
    var x, d := w.clients[c], w.shared;
    var v := AdvanceClient(w, c, ch);
    assert ClientOk(d, x) && RowOk(d, x.id);
    SameIsGood(d);
    if v.shared != d {
      RewriteOk(d, v.shared, x.id);
    }
    if !x.phase.Finished? {
      CloseClient(w, c, v.clients[c].phase, v.shared);
    }
  }

  lemma ClientStep(w: World, c: ClientId, ch: Choice)
    requires Inv(w) && c in w.clients
    ensures Inv(AdvanceClient(w, c, ch)) && Good(w.shared, AdvanceClient(w, c, ch).shared)
  {
    match w.clients[c].phase
    case Inserting => ReserveStep(w, c, ch);
    case TakingOver => ReserveStep(w, c, ch);
    case Resolving => ResolveStep(w, c, ch);
    case Rechecking => ResolveStep(w, c, ch);
    case Running(_) => CommitStep(w, c, ch);
    case Invalidating(_, _, _) => InvalidateStep(w, c, ch);
    case Draining(_, _, _) => InvalidateStep(w, c, ch);
    case _ => FinishStep(w, c, ch);
  }

  // ----- One step of a finalizer -----

  lemma FinalizerClaimStep(w: World, f: WorkerId, fails: bool)
    requires Inv(w) && f in w.finalizers && w.finalizers[f].Claiming?
    ensures Inv(AdvanceFinalizer(w, f, fails)) && Good(w.shared, AdvanceFinalizer(w, f, fails).shared)
  {
    var d, p := w.shared, w.finalizers[f];
    var v := AdvanceFinalizer(w, f, fails);
    assert FinalizerOk(d, p);
    SameIsGood(d);
    if p.todo != [] && !fails {
      var s := p.todo[0];
      assert SnapshotOk(d, s) && RowOk(d, s.id);
      if v.shared != d {
        RewriteOk(d, v.shared, s.id);
      }
      FinalizerStays(d, v.shared, p);
    } else if p.todo == [] {
      StartsOwing(d, p.claimed);
    }
    CloseFinalizer(w, f, v.finalizers[f], v.shared);
  }

  lemma FinalizerWorkStep(w: World, f: WorkerId, fails: bool)
    requires Inv(w) && f in w.finalizers && w.finalizers[f].Working?
    ensures Inv(AdvanceFinalizer(w, f, fails)) && Good(w.shared, AdvanceFinalizer(w, f, fails).shared)
  {
    var d, p := w.shared, w.finalizers[f];
    var v := AdvanceFinalizer(w, f, fails);
    assert FinalizerOk(d, p);
    SameIsGood(d);
    if p.claims != [] && !fails {
      var e := p.claims[0];
      assert ClaimOk(d, e) && RowOk(d, e.id);
      if p.remaining != [] {
        LogOk(d, p.remaining[0]);
      } else if v.shared != d {
        RewriteOk(d, v.shared, e.id);
      }
      FinalizerStays(d, v.shared, p);
    }
    if p.claims != [] {
      StartsOwing(v.shared, p.claims[1..]);
    }
    CloseFinalizer(w, f, v.finalizers[f], v.shared);
  }

  lemma ScanStep(w: World, f: WorkerId, claimToken: Token, leaseMs: int, ids: seq<Id>)
    requires Inv(w) && CanScan(w.shared, leaseMs, ids)
    ensures Inv(WithFinalizer(w, f, Claiming(claimToken, leaseMs, Snapshots(w.shared.rows, ids), []), w.shared))
  {
    var d := w.shared;
    var todo := Snapshots(d.rows, ids);
    forall s | s in todo ensures SnapshotOk(d, s) {
      assert Claimable(d.rows, s.id, d.now) && RowOk(d, s.id);
    }
    SameIsGood(d);
    CloseFinalizer(w, f, Claiming(claimToken, leaseMs, todo, []), d);
  }

  // ----- Every event -----

  lemma StepKeepsInv(w: World, e: Event)
    requires Inv(w)
    ensures Inv(Next(w, e)) && Good(w.shared, Next(w, e).shared)
  {
    var d, v := w.shared, Next(w, e);
    SameIsGood(d);
    match e
    case SetClock(_) => RewriteNothing(w, v.shared);
    case Arrive(c, _, _, _, _, _) =>
    case Advance(c, ch) => if c in w.clients { ClientStep(w, c, ch); }
    case Crash(c) =>
      if c in w.clients && !w.clients[c].phase.Finished? { CloseClient(w, c, Finished(Failed), d); }
    case Heartbeat(id, fp, token) =>
      assert RowOk(d, id);
      if v.shared != d { RewriteOk(d, v.shared, id); }
      CloseShared(w, v.shared);
    case Corrupt(id) =>
      assert RowOk(d, id);
      if v.shared != d { RewriteOk(d, v.shared, id); }
      CloseShared(w, v.shared);
    case Scan(f, claimToken, leaseMs, ids) =>
      if CanScan(d, leaseMs, ids) { ScanStep(w, f, claimToken, leaseMs, ids); }
    case Work(f, fails) =>
      if f in w.finalizers && w.finalizers[f].Claiming? { FinalizerClaimStep(w, f, fails); }
      if f in w.finalizers && w.finalizers[f].Working? { FinalizerWorkStep(w, f, fails); }
    case Die(f) => CloseFinalizer(w, f, Idle, d);
  }

  lemma RewriteNothing(w: World, e: Shared)
    requires Inv(w)
    requires e.rows == w.shared.rows && e.log == w.shared.log && e.issued == w.shared.issued
    ensures Good(w.shared, e) && Inv(w.(shared := e))
  {
    forall x ensures RowOk(e, x) && Keeps(w.shared, e, x) {
      assert RowOk(w.shared, x);
    }
    CloseShared(w, e);
  }

  lemma CloseShared(w: World, e: Shared)
    requires Inv(w) && Good(w.shared, e)
    ensures Inv(w.(shared := e))
  {
    forall a | a in w.clients ensures ClientOk(e, w.clients[a]) {
      ClientStays(w.shared, e, w.clients[a]);
    }
    forall f | f in w.finalizers ensures FinalizerOk(e, w.finalizers[f]) {
      FinalizerStays(w.shared, e, w.finalizers[f]);
    }
  }

  lemma {:induction false} RunKeepsInv(w: World, events: seq<Event>)
    requires Inv(w)
    ensures Inv(Exec(w, events)) && Later(w.shared, Exec(w, events).shared)
  {
    if events != [] {
      var mid := Exec(w, events[..|events| - 1]);
      RunKeepsInv(w, events[..|events| - 1]);
      StepKeepsInv(mid, events[|events| - 1]);
      LaterIsTransitive(w.shared, mid.shared, Exec(w, events).shared);
    }
  }

  lemma ReachedOk(events: seq<Event>)
    ensures Inv(Reached(events))
  {
    RunKeepsInv(INITIAL, events);
  }

  // ----- Main results -----

  /**
   * Exactly once. In every run each key has at most one business mutation, and
   * it has one exactly when its row exists and has left in-progress.
   */
  lemma ExactlyOnce(events: seq<Event>, id: Id)
    ensures var d := Reached(events).shared;
            && (Mutations(d.log, id) == 1 <==> id in d.rows && !d.rows[id].status.InProgress?)
            && (Mutations(d.log, id) == 0 <==> id !in d.rows || d.rows[id].status.InProgress?)
            && forall i, j :: 0 <= i < j < |d.log| && d.log[i].Mutated? && d.log[j].Mutated? ==>
               d.log[i].id != d.log[j].id
  {
    ReachedOk(events);
    var d := Reached(events).shared;
    assert RowOk(d, id);
    forall i, j | 0 <= i < j < |d.log| && d.log[i].Mutated? && d.log[j].Mutated?
      ensures d.log[i].id != d.log[j].id
    {
      assert RowOk(d, d.log[i].id);
      CountsPositions(d.log, d.log[i].id);
    }
  }

  /**
   * No lost invalidation. Once a mutation owing a tag has committed, the tag was
   * invalidated afterwards, or the row still carries it, or the stored column
   * has been corrupted from outside.
   */
  lemma NoLostInvalidation(events: seq<Event>, i: nat, tag: Tag)
    requires i < |Reached(events).shared.log|
    requires Reached(events).shared.log[i].Mutated? && tag in Reached(events).shared.log[i].tags
    ensures var d := Reached(events).shared;
            var id := d.log[i].id;
            || (exists j :: i < j < |d.log| && d.log[j] == Invalidated(tag))
            || (id in d.rows && d.rows[id].pending.Tags? && tag in d.rows[id].pending.tags
               && !d.rows[id].status.Completed?)
            || (id in d.rows && d.rows[id].pending.Unreadable?)
  {
    ReachedOk(events);
    var d := Reached(events).shared;
    var id := d.log[i].id;
    assert RowOk(d, id);
    CountsPositions(d.log, id);
    if forall j :: i < j < |d.log| ==> d.log[j] != Invalidated(tag) {
      assert Undischarged(d.log, id, tag);
      OwedMeansUndischarged(d.log, id, tag);
      if id in d.rows && !d.rows[id].pending.Unreadable? {
        assert tag in OwedTags(d.rows[id].pending);
      }
    }
  }

  /** A completed key stays completed and never changes its response, whatever runs afterwards. */
  lemma CompletedIsStable(events: seq<Event>, more: seq<Event>, id: Id)
    requires id in Reached(events).shared.rows && Reached(events).shared.rows[id].status.Completed?
    ensures var d, e := Reached(events).shared, Reached(events + more).shared;
            id in e.rows && e.rows[id].status.Completed? && e.rows[id].result == d.rows[id].result
  {
    ReachedOk(events);
    RunKeepsInv(Reached(events), more);
    ExecAppends(INITIAL, events, more);
    assert Keeps(Reached(events).shared, Reached(events + more).shared, id);
  }

  lemma {:induction false} ExecAppends(w: World, first: seq<Event>, second: seq<Event>)
    ensures Exec(w, first + second) == Exec(Exec(w, first), second)
  {
    if second == [] {
      assert first + second == first;
    } else {
      var init := second[..|second| - 1];
      assert (first + second)[..|first + second| - 1] == first + init;
      ExecAppends(w, first, init);
    }
  }

  /** One response per key: every handler that ever replied for it gave the response the row holds. */
  lemma AllRepliesAgree(events: seq<Event>, c: ClientId, d: ClientId)
    requires var w := Reached(events);
             && c in w.clients && d in w.clients
             && w.clients[c].phase.Finished? && w.clients[c].phase.outcome.Replied?
             && w.clients[d].phase.Finished? && w.clients[d].phase.outcome.Replied?
             && w.clients[c].id == w.clients[d].id
    ensures var w := Reached(events);
            && w.clients[c].phase.outcome.response == w.clients[d].phase.outcome.response
            && w.clients[c].fingerprint == w.clients[d].fingerprint
  {
    ReachedOk(events);
    var w := Reached(events);
    assert ClientOk(w.shared, w.clients[c]) && ClientOk(w.shared, w.clients[d]);
  }

  /**
   * The commit is fenced: of two handlers running the same key, at most one
   * passes the ownership assertion, so a replaced worker cannot mutate.
   */
  lemma OnlyOneOwner(events: seq<Event>, c: ClientId, d: ClientId)
    requires var w := Reached(events);
             && c in w.clients && d in w.clients && c != d
             && w.clients[c].phase.Running? && w.clients[d].phase.Running?
             && w.clients[c].id == w.clients[d].id
    ensures var w := Reached(events);
            && !(Owns(w.shared.rows, w.clients[c].id, w.clients[c].fingerprint, w.clients[c].phase.token)
                 && Owns(w.shared.rows, w.clients[d].id, w.clients[d].fingerprint, w.clients[d].phase.token))
  {
    ReachedOk(events);
  }

  /**
   * Recovery never invents a commit: whenever a handler is about to recover, its
   * mutation has committed under its own token, so the update cannot move a row
   * out of in-progress.
   */
  lemma RecoverNeverCommits(events: seq<Event>, c: ClientId, ch: Choice)
    requires c in Reached(events).clients && Reached(events).clients[c].phase.Recovering?
    ensures var w := Reached(events);
            var x := w.clients[c];
            && Mutations(w.shared.log, x.id) == 1
            && AdvanceClient(w, c, ch).shared.rows == w.shared.rows
  {
    ReachedOk(events);
    var w := Reached(events);
    assert ClientOk(w.shared, w.clients[c]) && RowOk(w.shared, w.clients[c].id);
  }

  /** The finalizer never holds a result to replay, so it only ever acknowledges. */
  lemma FinalizerOnlyAcks(events: seq<Event>, f: WorkerId)
    requires f in Reached(events).finalizers
    ensures match Reached(events).finalizers[f]
            case Idle => true
            case Claiming(_, _, _, claimed) => forall c :: c in claimed ==> c.result.None?
            case Working(claims, _, drained, _) => drained == 0 && forall c :: c in claims ==> c.result.None?
  {
    ReachedOk(events);
    var w := Reached(events);
    assert FinalizerOk(w.shared, w.finalizers[f]);
    match w.finalizers[f]
    case Claiming(_, _, _, claimed) =>
      forall c | c in claimed ensures c.result.None? { assert ClaimOk(w.shared, c); }
    case Working(claims, _, _, _) =>
      forall c | c in claims ensures c.result.None? { assert ClaimOk(w.shared, c); }
    case _ =>
  }

  // ----- Runs in which nobody tampers with the stored column -----

  ghost predicate Readable(t: Table) {
    forall id :: id in t ==> !t[id].pending.Unreadable? && !t[id].status.Poisoned?
  }

  ghost predicate Clean(w: World) {
    && Readable(w.shared.rows)
    && (forall c :: c in w.clients ==> !w.clients[c].phase.Poisoning?)
    && (forall f :: f in w.finalizers && w.finalizers[f].Claiming? ==>
          forall s :: s in w.finalizers[f].todo ==> s.row.pending.Tags?)
  }

  lemma CleanClientStep(w: World, c: ClientId, ch: Choice)
    requires Clean(w) && c in w.clients
    ensures Clean(AdvanceClient(w, c, ch))
  {
    OthersUntouched(w, c, ch);
  }

  lemma OthersUntouched(w: World, c: ClientId, ch: Choice)
    requires c in w.clients
    ensures var v := AdvanceClient(w, c, ch);
            && v.finalizers == w.finalizers
            && c in v.clients
            && v.clients == w.clients[c := v.clients[c]]
  {
  }

  lemma CleanFinalizerStep(w: World, f: WorkerId, fails: bool)
    requires Clean(w) && f in w.finalizers
    ensures Clean(AdvanceFinalizer(w, f, fails))
  {
    var v := AdvanceFinalizer(w, f, fails);
    assert Readable(v.shared.rows);
  }

  lemma StepKeepsClean(w: World, e: Event)
    requires Clean(w) && !e.Corrupt?
    ensures Clean(Next(w, e))
  {
    match e
    case Advance(c, ch) => if c in w.clients { CleanClientStep(w, c, ch); }
    case Work(f, fails) => if f in w.finalizers { CleanFinalizerStep(w, f, fails); }
    case Scan(f, claimToken, leaseMs, ids) =>
      if CanScan(w.shared, leaseMs, ids) {
        forall s | s in Snapshots(w.shared.rows, ids) ensures s.row.pending.Tags? {
          assert Claimable(w.shared.rows, s.id, w.shared.now);
        }
      }
    case _ =>
  }

  lemma {:induction false} CleanRun(events: seq<Event>)
    requires forall e :: e in events ==> !e.Corrupt?
    ensures Clean(Reached(events))
  {
    if events != [] {
      CleanRun(events[..|events| - 1]);
      StepKeepsClean(Reached(events[..|events| - 1]), events[|events| - 1]);
    }
  }

  /**
   * Every obligation stays within reach of the finalizer: in a run without
   * outside corruption an undischarged tag sits in a business-committed row
   * whose column lists it, which is what the finalizer scans for.
   */
  lemma ObligationStaysScannable(events: seq<Event>, i: nat, tag: Tag)
    requires forall e :: e in events ==> !e.Corrupt?
    requires i < |Reached(events).shared.log|
    requires Reached(events).shared.log[i].Mutated? && tag in Reached(events).shared.log[i].tags
    requires forall j :: i < j < |Reached(events).shared.log| ==> Reached(events).shared.log[j] != Invalidated(tag)
    ensures var d := Reached(events).shared;
            var id := d.log[i].id;
            && id in d.rows
            && d.rows[id].status.BusinessCommitted?
            && d.rows[id].pending.Tags? && tag in d.rows[id].pending.tags
            && ((d.rows[id].claimExpiresAt.None? || d.rows[id].claimExpiresAt.value < d.now) ==>
               Claimable(d.rows, id, d.now))
  {
    NoLostInvalidation(events, i, tag);
    CleanRun(events);
    ReachedOk(events);
    assert RowOk(Reached(events).shared, Reached(events).shared.log[i].id);
  }
}
