/**
 * The D1 idempotency table. Every SQL statement or D1 batch the store issues is
 * one guarded update: a predicate for its WHERE clause and a function for the
 * table it leaves. The class below runs the store's methods statement by
 * statement; the protocol module interleaves the same statements.
 */
module IdempotencyStore {
  import opened Common

  /** The unique index (scope, key). */
  datatype Id = Id(scope: string, key: string)

  type Fingerprint = string

  /** A random UUID. Freshness is stated where a token is drawn. */
  type Token = nat

  type Tag = string

  /** A serialized response. */
  type Response = string

  datatype Status = InProgress | BusinessCommitted | Completed | Poisoned

  /** The pending_invalidations column: NULL, a JSON array of strings, or text that no longer parses. */
  datatype Obligation = NoObligation | Tags(tags: seq<Tag>) | Unreadable

  datatype Row = Row(
    fingerprint: Fingerprint,
    token: Token,
    status: Status,
    result: Option<Response>,
    pending: Obligation,
    resource: Option<string>,
    createdAt: int,
    claimToken: Option<Token>,
    claimExpiresAt: Option<int>)

  type Table = map<Id, Row>

  const MIN_LEASE_MS := 1
  const MAX_LEASE_MS := 86_400_000
  const MAX_CLAIMS := 100

  predicate ValidLease(leaseMs: int) {
    MIN_LEASE_MS <= leaseMs <= MAX_LEASE_MS
  }

  /** `[...new Set(tags)]`: the first occurrence of every tag, in order. */
  function Dedupe(tags: seq<Tag>): (r: seq<Tag>)
    ensures Elements(r) == Elements(tags)
    ensures Distinct(r)
  {
    if tags == [] then []
    else
      var init, last := tags[..|tags| - 1], tags[|tags| - 1];
      assert tags == init + [last];
      var r := Dedupe(init);
      assert forall x :: x in r <==> x in Elements(r);
      assert forall x :: x in init <==> x in Elements(init);
      if last in init then r else r + [last]
  }

  /** Of repeated tags the first stays: what comes later never changes the list so far. */
  lemma {:induction false} DedupeKeepsFirst(tags: seq<Tag>, n: nat)
    requires n <= |tags|
    ensures Dedupe(tags[..n]) <= Dedupe(tags)
  {
    if n == |tags| {
      assert tags[..n] == tags;
    } else {
      assert tags[..|tags| - 1][..n] == tags[..n];
      DedupeKeepsFirst(tags[..|tags| - 1], n);
    }
  }

  /** How an obligation list is written: an absent or empty list is NULL. */
  function ObligationOf(tags: seq<Tag>): Obligation {
    if tags == [] then NoObligation else Tags(Dedupe(tags))
  }

  /** The tags a readable column still owes. */
  function OwedTags(pending: Obligation): set<Tag> {
    if pending.Tags? then Elements(pending.tags) else {}
  }

  // ----- Statements -----

  function Reservation(fp: Fingerprint, token: Token, now: int): Row {
    Row(fp, token, InProgress, None, NoObligation, None, now, None, None)
  }

  /** INSERT ... ON CONFLICT(scope, key) DO NOTHING. */
  function Insert(t: Table, id: Id, fp: Fingerprint, token: Token, now: int): Table {
    if id in t then t else t[id := Reservation(fp, token, now)]
  }

  predicate CanTakeOver(t: Table, id: Id, fp: Fingerprint, leaseMs: int, now: int) {
    id in t && t[id].fingerprint == fp && t[id].status.InProgress? && t[id].createdAt < now - leaseMs
  }

  function TakeOver(t: Table, id: Id, fp: Fingerprint, leaseMs: int, token: Token, now: int): Table {
    if CanTakeOver(t, id, fp, leaseMs, now) then t[id := t[id].(token := token, createdAt := now)] else t
  }

  /** The ownership test shared by renewal, the batch assertion and the receipt. */
  predicate Owns(t: Table, id: Id, fp: Fingerprint, token: Token) {
    id in t && t[id].fingerprint == fp && t[id].token == token && t[id].status.InProgress?
  }

  function Renew(t: Table, id: Id, fp: Fingerprint, token: Token, now: int): Table {
    if Owns(t, id, fp, token) then t[id := t[id].(createdAt := now)] else t
  }

  /**
   * The assertion and the receipt of the atomic batch. The assertion's trigger
   * aborts the whole batch, business statements included, when the reservation
   * is no longer owned, so the batch takes effect exactly when `Owns` holds.
   */
  function CommitReceipt(t: Table, id: Id, fp: Fingerprint, token: Token, tags: seq<Tag>,
      resource: Option<string>): Table {
    if Owns(t, id, fp, token) then
      t[id := t[id].(status := BusinessCommitted, result := None, pending := ObligationOf(tags), resource := resource)]
    else t
  }

  predicate CanFinish(t: Table, id: Id, fp: Fingerprint, token: Token) {
    id in t && t[id].fingerprint == fp && t[id].token == token && t[id].status.BusinessCommitted?
  }

  function Settled(row: Row): Row {
    row.(pending := NoObligation, claimToken := None, claimExpiresAt := None)
  }

  function Complete(t: Table, id: Id, fp: Fingerprint, token: Token, response: Response): Table {
    if CanFinish(t, id, fp, token) then
      t[id := Settled(t[id]).(status := Completed, result := Some(response))]
    else t
  }

  predicate CanRecover(t: Table, id: Id, fp: Fingerprint, token: Token) {
    id in t && t[id].fingerprint == fp && t[id].token == token
    && (t[id].status.InProgress? || t[id].status.BusinessCommitted?)
  }

  function Recover(t: Table, id: Id, fp: Fingerprint, token: Token): Table {
    if CanRecover(t, id, fp, token) then t[id := t[id].(status := BusinessCommitted)] else t
  }

  function Poison(t: Table, id: Id, token: Token): Table {
    if id in t && t[id].token == token && t[id].status.BusinessCommitted? then
      t[id := t[id].(status := Status.Poisoned)]
    else t
  }

  /** The WHERE clause of the finalizer's scan; the claim repeats it and adds the token. */
  predicate Claimable(t: Table, id: Id, now: int) {
    && id in t
    && t[id].status.BusinessCommitted?
    && !t[id].pending.NoObligation?
    && (t[id].claimExpiresAt.None? || t[id].claimExpiresAt.value < now)
  }

  predicate CanClaim(t: Table, id: Id, token: Token, now: int) {
    Claimable(t, id, now) && t[id].token == token
  }

  function ClaimRow(t: Table, id: Id, token: Token, claimToken: Token, leaseMs: int, now: int): Table {
    if CanClaim(t, id, token, now) then
      t[id := t[id].(claimToken := Some(claimToken), claimExpiresAt := Some(now + leaseMs))]
    else t
  }

  predicate CanFinishClaimed(t: Table, id: Id, fp: Fingerprint, token: Token, claimToken: Token, now: int) {
    && CanFinish(t, id, fp, token)
    && t[id].claimToken == Some(claimToken)
    && t[id].claimExpiresAt.Some? && t[id].claimExpiresAt.value > now
  }

  function AckClaimed(t: Table, id: Id, fp: Fingerprint, token: Token, claimToken: Token, now: int): Table {
    if CanFinishClaimed(t, id, fp, token, claimToken, now) then t[id := Settled(t[id])] else t
  }

  function CompleteClaimed(t: Table, id: Id, fp: Fingerprint, token: Token, claimToken: Token, response: Response,
      now: int): Table {
    if CanFinishClaimed(t, id, fp, token, claimToken, now) then
      t[id := Settled(t[id]).(status := Completed, result := Some(response))]
    else t
  }

  // ----- Reading an existing row -----

  datatype Resolution =
    | Conflict
    | Replay(response: Response)
    | Committed(token: Token, resource: Option<string>, tags: seq<Tag>)
    | Malformed
    | Unresolved

  function ResolveExisting(fp: Fingerprint, row: Row): Resolution {
    if row.fingerprint != fp then Conflict
    else if row.status.Completed? && row.result.Some? then Replay(row.result.value)
    else if row.status.BusinessCommitted? then
      match row.pending
      case NoObligation => Committed(row.token, row.resource, [])
      case Tags(tags) => Committed(row.token, row.resource, Dedupe(tags))
      case Unreadable => Malformed
    else Unresolved
  }

  // ----- Claims -----

  datatype Claim = Claim(
    id: Id,
    fingerprint: Fingerprint,
    token: Token,
    claimToken: Token,
    tags: seq<Tag>,
    result: Option<Response>)

  datatype AcquireResult =
    | Acquired(token: Token)
    | Replayed(response: Response)
    | AlreadyCommitted(token: Token, resource: Option<string>, tags: seq<Tag>)
    | Conflicting
    | Busy
    | InvalidLease
    | CorruptReceipt

  /** What a resolved row tells the caller; an unresolved one is still in progress. */
  function Answer(r: Resolution): AcquireResult {
    match r
    case Conflict => Conflicting
    case Replay(response) => Replayed(response)
    case Committed(token, resource, tags) => AlreadyCommitted(token, resource, tags)
    case Malformed => CorruptReceipt
    case Unresolved => Busy
  }

  class D1IdempotencyStore {
    var rows: Table
    /** The clock of the database. */
    var now: int

    constructor ()
      ensures rows == map[] && now == 0
    {
      rows := map[];
      now := 0;
    }

    /**
     * Reserve, take over, or report. The two tokens are the UUIDs the method
     * draws. The contract is the decision table over the columns of the row
     * found; every row falls under exactly one of its clauses.
     */
    method Acquire(id: Id, fp: Fingerprint, leaseMs: int, token: Token, takeoverToken: Token)
      returns (outcome: AcquireResult)
      modifies this`rows
      ensures !(1 <= leaseMs <= 86_400_000) ==> outcome == InvalidLease && rows == old(rows)
      ensures 1 <= leaseMs <= 86_400_000 && id !in old(rows) ==>
                && outcome == Acquired(token)
                && rows == old(rows)[id := Row(fp, token, InProgress, None, NoObligation, None, now, None, None)]
      ensures 1 <= leaseMs <= 86_400_000 && id in old(rows) && old(rows)[id].fingerprint != fp ==>
                outcome == Conflicting && rows == old(rows)
      ensures 1 <= leaseMs <= 86_400_000 && id in old(rows) && old(rows)[id].fingerprint == fp ==>
                match old(rows)[id].status
                case InProgress =>
                  if old(rows)[id].createdAt < now - leaseMs then
                    && outcome == Acquired(takeoverToken)
                    && rows == old(rows)[id := old(rows)[id].(token := takeoverToken, createdAt := now)]
                  else outcome == Busy && rows == old(rows)
                case Completed =>
                  && rows == old(rows)
                  && outcome == if old(rows)[id].result.Some? then Replayed(old(rows)[id].result.value) else Busy
                case Poisoned => outcome == Busy && rows == old(rows)
                case BusinessCommitted =>
                  if old(rows)[id].pending.Unreadable? then
                    && outcome == CorruptReceipt
                    && rows == old(rows)[id := old(rows)[id].(status := Status.Poisoned)]
                  else
                    && rows == old(rows)
                    && outcome.AlreadyCommitted?
                    && outcome.token == old(rows)[id].token
                    && outcome.resource == old(rows)[id].resource
                    && Distinct(outcome.tags)
                    && forall tag :: tag in outcome.tags
                                     <==> old(rows)[id].pending.Tags? && tag in old(rows)[id].pending.tags
    {
      if !ValidLease(leaseMs) {
        return InvalidLease;
      }
      if id !in rows {
        rows := Insert(rows, id, fp, token, now);
        return Acquired(token);
      }
      var resolution := ResolveExisting(fp, rows[id]);
      if resolution.Malformed? {
        rows := Poison(rows, id, rows[id].token);
        return CorruptReceipt;
      }
      if !resolution.Unresolved? {
        assert resolution.Committed? ==> forall tag :: tag in resolution.tags <==> tag in OwedTags(rows[id].pending);
        return Answer(resolution);
      }
      if CanTakeOver(rows, id, fp, leaseMs, now) {
        rows := TakeOver(rows, id, fp, leaseMs, takeoverToken, now);
        return Acquired(takeoverToken);
      }
      outcome := Answer(ResolveExisting(fp, rows[id]));
    }

    /** Extend the lease of a reservation the caller still owns; a replaced owner is refused. */
    method RenewLease(id: Id, fp: Fingerprint, token: Token, leaseMs: int) returns (renewed: bool)
      modifies this`rows
      ensures renewed <==> 1 <= leaseMs <= 86_400_000 && id in old(rows) && old(rows)[id].fingerprint == fp
                           && old(rows)[id].token == token && old(rows)[id].status.InProgress?
      ensures rows == if renewed then old(rows)[id := old(rows)[id].(createdAt := now)] else old(rows)
    {
      renewed := ValidLease(leaseMs) && Owns(rows, id, fp, token);
      if renewed {
        rows := Renew(rows, id, fp, token, now);
      }
    }

    /** Store the response under which the key is replayed from now on, and drop what the row still owed. */
    method MarkCompleted(id: Id, fp: Fingerprint, token: Token, response: Response) returns (completed: bool)
      modifies this`rows
      ensures completed <==> id in old(rows) && old(rows)[id].fingerprint == fp
                             && old(rows)[id].token == token && old(rows)[id].status.BusinessCommitted?
      ensures rows == if !completed then old(rows) else
                        old(rows)[id := old(rows)[id].(status := Completed, result := Some(response),
                          pending := NoObligation, claimToken := None, claimExpiresAt := None)]
    {
      completed := CanFinish(rows, id, fp, token);
      rows := Complete(rows, id, fp, token, response);
    }

    /** Mark the row committed for a handler whose response could not be stored; what it owes stays listed. */
    method RecoverCommitted(id: Id, fp: Fingerprint, token: Token) returns (recovered: bool)
      modifies this`rows
      ensures recovered <==> id in old(rows) && old(rows)[id].fingerprint == fp && old(rows)[id].token == token
                             && (old(rows)[id].status.InProgress? || old(rows)[id].status.BusinessCommitted?)
      ensures rows == if recovered then old(rows)[id := old(rows)[id].(status := BusinessCommitted)] else old(rows)
    {
      recovered := CanRecover(rows, id, fp, token);
      rows := Recover(rows, id, fp, token);
    }

    /**
     * Lease every scanned row to this worker, poisoning the ones whose column
     * no longer parses. `candidates` is what the scan returned; `ClaimAllAt`
     * says what the call does to each row.
     */
    method ClaimPendingInvalidations(candidates: seq<Id>, leaseMs: int, claimToken: Token)
      returns (claimed: seq<Claim>)
      requires ValidLease(leaseMs)
      requires Distinct(candidates) && |candidates| <= MAX_CLAIMS
      requires forall id :: id in candidates ==> id in rows && Claimable(rows, id, now)
      modifies this`rows
      ensures rows == ClaimAll(old(rows), candidates, claimToken, leaseMs, now)
      ensures claimed == ClaimsFor(old(rows), candidates, claimToken)
    {
      claimed := [];
      ghost var before := rows;
      for i := 0 to |candidates|
        invariant rows == ClaimAll(before, candidates[..i], claimToken, leaseMs, now)
        invariant claimed == ClaimsFor(before, candidates[..i], claimToken)
      {
        var id := candidates[i];
        assert candidates[..i + 1][..i] == candidates[..i];
        assert candidates[i] in candidates && candidates[i] !in candidates[..i];
        ClaimAllAt(before, candidates[..i], claimToken, leaseMs, now, id);
        var row := rows[id];
        if row.pending.Unreadable? {
          rows := Poison(rows, id, row.token);
        } else {
          rows := ClaimRow(rows, id, row.token, claimToken, leaseMs, now);
          claimed := claimed + [ClaimOf(id, row, claimToken)];
        }
      }
      assert candidates[..|candidates|] == candidates;
    }

    /**
     * Acknowledge a leased obligation. The row is freed of its obligation only
     * under the live lease that was granted; otherwise nothing changes.
     */
    method AckClaimedInvalidation(c: Claim) returns (acked: bool)
      modifies this`rows
      ensures acked <==>
              && c.id in old(rows) && old(rows)[c.id].fingerprint == c.fingerprint
              && old(rows)[c.id].token == c.token && old(rows)[c.id].status.BusinessCommitted?
              && old(rows)[c.id].claimToken == Some(c.claimToken)
              && old(rows)[c.id].claimExpiresAt.Some? && old(rows)[c.id].claimExpiresAt.value > now
      ensures rows == if !acked then old(rows) else
                        old(rows)[c.id := old(rows)[c.id].(pending := NoObligation, claimToken := None,
                          claimExpiresAt := None)]
    {
      acked := CanFinishClaimed(rows, c.id, c.fingerprint, c.token, c.claimToken, now);
      rows := AckClaimed(rows, c.id, c.fingerprint, c.token, c.claimToken, now);
    }

    /** The same under a result, which the row then replays. */
    method CompleteClaimedInvalidation(c: Claim, response: Response) returns (completed: bool)
      modifies this`rows
      ensures completed <==>
              && c.id in old(rows) && old(rows)[c.id].fingerprint == c.fingerprint
              && old(rows)[c.id].token == c.token && old(rows)[c.id].status.BusinessCommitted?
              && old(rows)[c.id].claimToken == Some(c.claimToken)
              && old(rows)[c.id].claimExpiresAt.Some? && old(rows)[c.id].claimExpiresAt.value > now
      ensures rows == if !completed then old(rows) else
                        old(rows)[c.id := old(rows)[c.id].(status := Completed, result := Some(response),
                          pending := NoObligation, claimToken := None, claimExpiresAt := None)]
    {
      completed := CanFinishClaimed(rows, c.id, c.fingerprint, c.token, c.claimToken, now);
      rows := CompleteClaimed(rows, c.id, c.fingerprint, c.token, c.claimToken, response, now);
    }
  }

  /** The lease entry the finalizer receives for a readable row. */
  function ClaimOf(id: Id, row: Row, claimToken: Token): Claim
    requires row.pending.Tags?
  {
    Claim(id, row.fingerprint, row.token, claimToken, Dedupe(row.pending.tags), row.result)
  }

  /** One turn of the claim loop. */
  function ClaimTurn(t: Table, id: Id, claimToken: Token, leaseMs: int, now: int): Table {
    if id !in t then t
    else if t[id].pending.Unreadable? then Poison(t, id, t[id].token)
    else ClaimRow(t, id, t[id].token, claimToken, leaseMs, now)
  }

  function ClaimAll(t: Table, ids: seq<Id>, claimToken: Token, leaseMs: int, now: int): Table {
    if ids == [] then t
    else ClaimTurn(ClaimAll(t, ids[..|ids| - 1], claimToken, leaseMs, now), ids[|ids| - 1], claimToken, leaseMs, now)
  }

  /** One entry for every scanned row that parses, in scan order. */
  function ClaimsFor(t: Table, ids: seq<Id>, claimToken: Token): (claims: seq<Claim>) {
    if ids == [] then []
    else
      var id := ids[|ids| - 1];
      ClaimsFor(t, ids[..|ids| - 1], claimToken)
      + if id in t && t[id].pending.Tags? then [ClaimOf(id, t[id], claimToken)] else []
  }

  /**
   * What a claim call does to any one row: scanned rows are leased until now
   * plus the lease or poisoned, every other row is untouched.
   */
  lemma {:induction false} ClaimAllAt(t: Table, ids: seq<Id>, claimToken: Token, leaseMs: int, now: int, id: Id)
    requires Distinct(ids)
    requires forall x :: x in ids ==> x in t && Claimable(t, x, now)
    ensures ClaimAll(t, ids, claimToken, leaseMs, now).Keys == t.Keys
    ensures id in t ==>
              ClaimAll(t, ids, claimToken, leaseMs, now)[id]
              == if id !in ids then t[id]
                 else if t[id].pending.Unreadable? then t[id].(status := Status.Poisoned)
                 else t[id].(claimToken := Some(claimToken), claimExpiresAt := Some(now + leaseMs))
  {
    if ids != [] {
      var init, last := ids[..|ids| - 1], ids[|ids| - 1];
      assert ids == init + [last];
      assert last !in init && last in ids && Claimable(t, last, now);
      ClaimAllAt(t, init, claimToken, leaseMs, now, id);
      ClaimAllAt(t, init, claimToken, leaseMs, now, last);
      hide ClaimTurn, Claimable;
    }
  }
}
