/** The invalidation finalizer: lease the owing rows, invalidate their tags, acknowledge. */
module Finalizer {
  import opened Common
  import opened IdempotencyStore
  import Cache = CacheService

  /** None of the claim's tags is among those whose generation cannot be advanced. */
  predicate Invalidatable(c: Claim, broken: set<Tag>) {
    Elements(c.tags) !! broken
  }

  /** An entry with a stored result completes its row, one without only acknowledges. */
  function Finish(t: Table, c: Claim, now: int): Table {
    if c.result.Some? then CompleteClaimed(t, c.id, c.fingerprint, c.token, c.claimToken, c.result.value, now)
    else AckClaimed(t, c.id, c.fingerprint, c.token, c.claimToken, now)
  }

  /** The table after working through the claims with nobody in between. */
  function DrainAll(t: Table, claims: seq<Claim>, broken: set<Tag>, now: int): Table {
    if claims == [] then t
    else
      var c := claims[|claims| - 1];
      var rest := DrainAll(t, claims[..|claims| - 1], broken, now);
      if Invalidatable(c, broken) then Finish(rest, c, now) else rest
  }

  /** How many claims are worked off, with a result or without one. */
  function Count(claims: seq<Claim>, broken: set<Tag>, withResult: bool): nat {
    if claims == [] then 0
    else
      var c := claims[|claims| - 1];
      Count(claims[..|claims| - 1], broken, withResult)
      + if Invalidatable(c, broken) && c.result.Some? == withResult then 1 else 0
  }

  /** The row a worked-off entry leaves. */
  function Freed(row: Row, result: Option<Response>): Row {
    if result.Some? then Settled(row).(status := Completed, result := result) else Settled(row)
  }

  /** The entries of a pass: distinct rows, each carrying exactly what its row owes. */
  lemma {:induction false} ClaimsAreDistinct(t: Table, ids: seq<Id>, claimToken: Token)
    requires Distinct(ids)
    ensures var claims := ClaimsFor(t, ids, claimToken);
            && (forall c :: c in claims ==>
               c.id in ids && c.id in t && t[c.id].pending.Tags? && c == ClaimOf(c.id, t[c.id], claimToken))
            && (forall i, j :: 0 <= i < j < |claims| ==> claims[i].id != claims[j].id)
            && (forall id :: id in ids && id in t && t[id].pending.Tags? ==> ClaimOf(id, t[id], claimToken) in claims)
  {
    if ids != [] {
      var init, last := ids[..|ids| - 1], ids[|ids| - 1];
      assert ids == init + [last] && last !in init;
      ClaimsAreDistinct(t, init, claimToken);
    }
  }

  lemma FinishAt(t: Table, c: Claim, now: int)
    requires CanFinishClaimed(t, c.id, c.fingerprint, c.token, c.claimToken, now)
    ensures Finish(t, c, now) == t[c.id := Freed(t[c.id], c.result)]
  {
  }

  /** Claims held under live leases on distinct rows: each row is freed exactly when its claim is invalidatable. */
  lemma {:induction false} DrainAllAt(t: Table, claims: seq<Claim>, broken: set<Tag>, now: int, id: Id)
    requires forall i, j :: 0 <= i < j < |claims| ==> claims[i].id != claims[j].id
    requires forall c :: c in claims ==> CanFinishClaimed(t, c.id, c.fingerprint, c.token, c.claimToken, now)
    ensures DrainAll(t, claims, broken, now).Keys == t.Keys
    ensures (forall c :: c in claims ==> c.id != id) && id in t ==> DrainAll(t, claims, broken, now)[id] == t[id]
    ensures forall c :: c in claims && c.id == id && id in t ==>
              DrainAll(t, claims, broken, now)[id] == if Invalidatable(c, broken) then Freed(t[id], c.result) else t[id]
  {
    if claims != [] {
      var init, last := claims[..|claims| - 1], claims[|claims| - 1];
      assert claims == init + [last];
      assert forall c :: c in init ==> c.id != last.id;
      DrainAllAt(t, init, broken, now, id);
      DrainAllAt(t, init, broken, now, last.id);
      FinishAt(DrainAll(t, init, broken, now), last, now);
      hide Finish, CanFinishClaimed, Freed, Invalidatable;
    }
  }

  /** Invalidate the tags of one entry, then complete or acknowledge it under its lease. */
  method FinalizeEntry(store: D1IdempotencyStore, cache: Cache.CacheService, entry: Claim, broken: set<Tag>)
    returns (acked: bool, completed: bool)
    modifies store`rows, cache.store
    ensures var done := Invalidatable(entry, broken)
                        && CanFinishClaimed(old(store.rows), entry.id, entry.fingerprint, entry.token,
                           entry.claimToken, store.now);
            acked == (done && entry.result.None?) && completed == (done && entry.result.Some?)
    ensures store.rows == if Invalidatable(entry, broken) then Finish(old(store.rows), entry, store.now)
        else old(store.rows)
    ensures forall tag ::
              Cache.Generation(cache.store.generations, tag) >= Cache.Generation(old(cache.store.generations), tag)
    ensures Invalidatable(entry, broken) ==>
              forall tag :: tag in entry.tags ==>
                Cache.Generation(cache.store.generations, tag) > Cache.Generation(old(cache.store.generations), tag)
  {
    acked, completed := false, false;
    var ok, done := cache.InvalidateTags(entry.tags, broken);
    if ok {
      assert entry.tags[..done] == entry.tags;
      if entry.result.Some? {
        completed := store.CompleteClaimedInvalidation(entry, entry.result.value);
      } else {
        acked := store.AckClaimedInvalidation(entry);
      }
    }
  }

  /** Work through the claims in order; an entry that fails is left for a later pass. */
  method DrainClaims(store: D1IdempotencyStore, cache: Cache.CacheService, claims: seq<Claim>, broken: set<Tag>)
    returns (drained: nat, acked: nat)
    requires forall i, j :: 0 <= i < j < |claims| ==> claims[i].id != claims[j].id
    requires forall c :: c in claims ==>
        CanFinishClaimed(store.rows, c.id, c.fingerprint, c.token, c.claimToken, store.now)
    modifies store`rows, cache.store
    ensures drained == Count(claims, broken, true) && acked == Count(claims, broken, false)
    ensures store.rows == DrainAll(old(store.rows), claims, broken, store.now)
    ensures forall c, tag :: c in claims && Invalidatable(c, broken) && tag in c.tags ==>
              Cache.Generation(cache.store.generations, tag) > Cache.Generation(old(cache.store.generations), tag)
  {
    ghost var before, generations := store.rows, cache.store.generations;
    drained, acked := 0, 0;
    for i := 0 to |claims|
      invariant drained == Count(claims[..i], broken, true) && acked == Count(claims[..i], broken, false)
      invariant store.rows == DrainAll(before, claims[..i], broken, store.now)
      invariant forall tag :: Cache.Generation(cache.store.generations, tag) >= Cache.Generation(generations, tag)
      invariant forall c, tag :: c in claims[..i] && Invalidatable(c, broken) && tag in c.tags ==>
                  Cache.Generation(cache.store.generations, tag) > Cache.Generation(generations, tag)
    {
      StillHeld(before, claims, i, broken, store.now);
      var settled, completed := FinalizeEntry(store, cache, claims[i], broken);
      if completed { drained := drained + 1; }
      if settled { acked := acked + 1; }
      assert claims[..i + 1] == claims[..i] + [claims[i]];
    }
    assert claims[..|claims|] == claims;
  }

  /** Earlier entries of a pass do not disturb the lease of a later one. */
  lemma StillHeld(t: Table, claims: seq<Claim>, i: nat, broken: set<Tag>, now: int)
    requires i < |claims|
    requires forall j, k :: 0 <= j < k < |claims| ==> claims[j].id != claims[k].id
    requires forall c :: c in claims ==> CanFinishClaimed(t, c.id, c.fingerprint, c.token, c.claimToken, now)
    ensures var c := claims[i];
            CanFinishClaimed(DrainAll(t, claims[..i], broken, now), c.id, c.fingerprint, c.token, c.claimToken, now)
    ensures claims[i] in claims
  {
    assert forall c :: c in claims[..i] ==> c in claims && c.id != claims[i].id;
    assert claims[i] in claims;
    DrainAllAt(t, claims[..i], broken, now, claims[i].id);
  }

  /**
   * One undisturbed pass over the scanned rows. `broken` are the tags whose
   * generation cannot be advanced. `PassAt` says what a pass does to a row.
   */
  method DrainPendingInvalidations(
    store: D1IdempotencyStore, cache: Cache.CacheService, candidates: seq<Id>, leaseMs: int, claimToken: Token,
      broken: set<Tag>)
    returns (drained: nat, acked: nat)
    requires ValidLease(leaseMs)
    requires Distinct(candidates) && |candidates| <= MAX_CLAIMS
    requires forall id :: id in candidates ==>
               id in store.rows && Claimable(store.rows, id, store.now)
    modifies store`rows, cache.store
    ensures drained == Count(ClaimsFor(old(store.rows), candidates, claimToken), broken, true)
    ensures acked == Count(ClaimsFor(old(store.rows), candidates, claimToken), broken, false)
    ensures store.rows == Pass(old(store.rows), candidates, leaseMs, claimToken, broken, store.now)
  {
    ghost var before := store.rows;
    var claimed := store.ClaimPendingInvalidations(candidates, leaseMs, claimToken);
    ClaimsAreHeld(before, candidates, leaseMs, claimToken, store.now);
    drained, acked := DrainClaims(store, cache, claimed, broken);
  }

  function Pass(t: Table, ids: seq<Id>, leaseMs: int, claimToken: Token, broken: set<Tag>, now: int): Table {
    DrainAll(ClaimAll(t, ids, claimToken, leaseMs, now), ClaimsFor(t, ids, claimToken), broken, now)
  }

  /** Right after the claim loop every entry is finishable. */
  lemma ClaimsAreHeld(t: Table, ids: seq<Id>, leaseMs: int, claimToken: Token, now: int)
    requires ValidLease(leaseMs) && Distinct(ids)
    requires forall id :: id in ids ==> id in t && Claimable(t, id, now)
    ensures var claims := ClaimsFor(t, ids, claimToken);
            && (forall c :: c in claims ==>
                  CanFinishClaimed(ClaimAll(t, ids, claimToken, leaseMs, now), c.id, c.fingerprint, c.token,
                    c.claimToken, now))
            && (forall i, j :: 0 <= i < j < |claims| ==> claims[i].id != claims[j].id)
  {
    ClaimsAreDistinct(t, ids, claimToken);
    forall c | c in ClaimsFor(t, ids, claimToken)
      ensures CanFinishClaimed(ClaimAll(t, ids, claimToken, leaseMs, now), c.id, c.fingerprint, c.token, c.claimToken,
          now)
    {
      ClaimAllAt(t, ids, claimToken, leaseMs, now, c.id);
      assert Claimable(t, c.id, now);
    }
  }

  /**
   * A pass, row by row. A scanned row whose tags can all be invalidated is freed
   * of its obligation and its lease, and completed if it stored a result; one with a broken tag keeps the obligation
   * and stays leased; one that does not parse is poisoned; others are untouched.
   */
  lemma PassAt(t: Table, ids: seq<Id>, leaseMs: int, claimToken: Token, broken: set<Tag>, now: int, id: Id)
    requires ValidLease(leaseMs) && Distinct(ids)
    requires forall x :: x in ids ==> x in t && Claimable(t, x, now)
    requires id in t
    ensures var after := Pass(t, ids, leaseMs, claimToken, broken, now);
            && id in after
            && (id !in ids ==> after[id] == t[id])
            && (id in ids && t[id].pending.Tags? && (forall tag :: tag in t[id].pending.tags ==> tag !in broken) ==>
                  after[id] == t[id].(pending := NoObligation, claimToken := None, claimExpiresAt := None,
                    status := if t[id].result.Some? then Completed else t[id].status))
            && (id in ids && t[id].pending.Tags? && (exists tag :: tag in t[id].pending.tags && tag in broken) ==>
                  after[id] == t[id].(claimToken := Some(claimToken), claimExpiresAt := Some(now + leaseMs)))
            && (id in ids && t[id].pending.Unreadable? ==> after[id] == t[id].(status := Status.Poisoned))
  {
    hide ClaimAll, ClaimsFor, DrainAll, CanFinishClaimed, Finish, Distinct;
    ClaimsAreDistinct(t, ids, claimToken);
    ClaimsAreHeld(t, ids, leaseMs, claimToken, now);
    ClaimAllAt(t, ids, claimToken, leaseMs, now, id);
    DrainAllAt(ClaimAll(t, ids, claimToken, leaseMs, now), ClaimsFor(t, ids, claimToken), broken, now, id);
    if id in ids {
      assert Claimable(t, id, now);
      if t[id].pending.Tags? {
        assert ClaimOf(id, t[id], claimToken) in ClaimsFor(t, ids, claimToken);
      }
    }
  }
}
