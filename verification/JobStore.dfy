/**
 * The durable job table on D1: leases, fencing tokens, partition exclusion,
 * retries, cancellation and execution history. As for the idempotency table,
 * each SQL statement or batch is one guarded update on the tables; the class
 * runs the store's methods over them.
 */
module JobStore {
  import opened Common

  type JobId = string
  type WorkerId = string

  /** A UUID; freshness is stated where it is drawn. */
  type Token = nat

  datatype Status = Pending | Running | Succeeded | Retrying | Failed | Cancelled | DeadLetter

  datatype Job = Job(
    status: Status,
    attempts: nat,
    maxAttempts: int,
    nextAttemptAt: Option<int>,
    leaseOwner: Option<WorkerId>,
    leaseExpiresAt: Option<int>,
    claimToken: Option<Token>,
    partitionKey: Option<string>,
    scope: string,
    tenantId: Option<string>,
    idempotencyKey: Option<string>,
    fingerprint: string)

  type Jobs = map<JobId, Job>

  /** One row of the execution history. */
  datatype Execution = Execution(id: Token, jobId: JobId, attempt: nat, workerId: WorkerId, status: Status)

  /** The two tables and the clock of the database. */
  datatype Db = Db(jobs: Jobs, history: seq<Execution>, now: int)

  /** Who asks: a job scope, and a tenant unless the requester is not tenant bound. */
  datatype Requester = Requester(scope: string, tenantId: Option<string>)

  predicate Visible(r: Requester, job: Job) {
    job.scope == r.scope && (r.tenantId.Some? ==> job.tenantId == r.tenantId)
  }

  /** The lease expression `lease_expires_at > now`; NULL never compares true. */
  predicate Live(job: Job, now: int) {
    job.status.Running? && job.leaseExpiresAt.Some? && job.leaseExpiresAt.value > now
  }

  // ----- Claiming -----

  /** Due by the application's clock, or abandoned by the database's. */
  predicate Due(job: Job, appNow: int, now: int) {
    || ((job.status.Pending? || job.status.Retrying?)
        && job.nextAttemptAt.Some? && job.nextAttemptAt.value <= appNow
        && job.attempts < job.maxAttempts)
    || (job.status.Running?
        && job.attempts < job.maxAttempts
        && job.leaseExpiresAt.Some? && job.leaseExpiresAt.value < now)
  }

  /** Another job of the same non-null partition is running under a live lease. */
  predicate HasRunningSibling(jobs: Jobs, id: JobId, now: int)
    requires id in jobs
  {
    exists s :: s in jobs && s != id
                && jobs[id].partitionKey.Some? && jobs[s].partitionKey == jobs[id].partitionKey
                && Live(jobs[s], now)
  }

  predicate CanClaim(db: Db, id: JobId, r: Requester, appNow: int) {
    && id in db.jobs
    && Due(db.jobs[id], appNow, db.now)
    && Visible(r, db.jobs[id])
    && !HasRunningSibling(db.jobs, id, db.now)
  }

  function ClaimedJob(job: Job, worker: WorkerId, leaseMs: int, token: Token, now: int): Job {
    job.(status := Running, leaseOwner := Some(worker), leaseExpiresAt := Some(now + leaseMs),
         claimToken := Some(token), attempts := job.attempts + 1, nextAttemptAt := None)
  }

  function Claim(db: Db, id: JobId, r: Requester, worker: WorkerId, leaseMs: int, token: Token, appNow: int): Db {
    if CanClaim(db, id, r, appNow) then
      db.(jobs := db.jobs[id := ClaimedJob(db.jobs[id], worker, leaseMs, token, db.now)])
    else db
  }

  // ----- Renewing -----

  /** The worker still holds the lease it was granted. */
  predicate Holds(db: Db, id: JobId, worker: WorkerId, token: Token) {
    && id in db.jobs
    && db.jobs[id].leaseOwner == Some(worker)
    && db.jobs[id].claimToken == Some(token)
    && Live(db.jobs[id], db.now)
  }

  function Renew(db: Db, id: JobId, worker: WorkerId, token: Token, extendMs: int): Db {
    if extendMs > 0 && Holds(db, id, worker, token) then
      db.(jobs := db.jobs[id := db.jobs[id].(leaseExpiresAt := Some(db.now + extendMs))])
    else db
  }

  // ----- Transitions with their history row -----

  datatype Verdict = Succeed | Retry(nextAttemptAt: int) | Fail | Bury

  function StatusOf(v: Verdict): Status {
    match v
    case Succeed => Succeeded
    case Retry(_) => Retrying
    case Fail => Failed
    case Bury => DeadLetter
  }

  predicate CanSettle(db: Db, id: JobId, worker: WorkerId, token: Token, attempt: nat, v: Verdict) {
    && Holds(db, id, worker, token)
    && db.jobs[id].attempts == attempt
    && (v.Retry? ==> db.jobs[id].attempts < db.jobs[id].maxAttempts)
  }

  /** The columns the settling update sets, marker token included. */
  function SettledJob(job: Job, v: Verdict, marker: Token): Job {
    job.(status := StatusOf(v), leaseOwner := None, leaseExpiresAt := None, claimToken := Some(marker),
         nextAttemptAt := if v.Retry? then Some(v.nextAttemptAt) else job.nextAttemptAt)
  }

  predicate CanCancel(db: Db, id: JobId, r: Requester) {
    && id in db.jobs
    && !db.jobs[id].status.Succeeded? && !db.jobs[id].status.Cancelled? && !db.jobs[id].status.DeadLetter?
    && Visible(r, db.jobs[id])
  }

  function CancelledJob(job: Job, marker: Token): Job {
    job.(status := Cancelled, leaseOwner := None, leaseExpiresAt := None, claimToken := Some(marker))
  }

  /** The rows that carry this token. */
  function Holders(jobs: Jobs, token: Token): set<JobId> {
    set id | id in jobs && jobs[id].claimToken == Some(token)
  }

  /** UPDATE ... SET claim_token = NULL WHERE claim_token = token. */
  function ClearToken(jobs: Jobs, token: Token): Jobs {
    map id | id in jobs :: if jobs[id].claimToken == Some(token) then jobs[id].(claimToken := None) else jobs[id]
  }

  /** The guarded update both dialects start with: it hits `id` or nothing. */
  function GuardedUpdate(jobs: Jobs, id: JobId, hit: bool, updated: Job): Jobs {
    if hit then jobs[id := updated] else jobs
  }

  function Repeat(e: Execution, n: nat): (r: seq<Execution>)
    ensures |r| == n
  {
    if n == 0 then [] else Repeat(e, n - 1) + [e]
  }

  /**
   * D1: update, then INSERT ... SELECT one history row for each row carrying the
   * marker, then clear the marker. The batch cannot branch on the row count.
   */
  function D1Batch(db: Db, id: JobId, hit: bool, updated: Job, marker: Token, e: Execution): Db {
    var jobs := GuardedUpdate(db.jobs, id, hit, updated);
    Db(ClearToken(jobs, marker), db.history + Repeat(e, |Holders(jobs, marker)|), db.now)
  }

  /** PostgreSQL: stop when the update hit nothing, else insert one row and clear the marker. */
  function PgTransaction(db: Db, id: JobId, hit: bool, updated: Job, marker: Token, e: Execution): Db {
    if !hit then db
    else Db(ClearToken(GuardedUpdate(db.jobs, id, hit, updated), marker), db.history + [e], db.now)
  }

  function Settle(db: Db, id: JobId, worker: WorkerId, token: Token, attempt: nat, v: Verdict, marker: Token): Db {
    var hit := CanSettle(db, id, worker, token, attempt, v);
    var updated := if hit then SettledJob(db.jobs[id], v, marker) else NO_JOB;
    D1Batch(db, id, hit, updated, marker, Execution(marker, id, attempt, worker, StatusOf(v)))
  }

  function Cancel(db: Db, id: JobId, r: Requester, marker: Token): Db {
    var hit := CanCancel(db, id, r);
    var updated := if hit then CancelledJob(db.jobs[id], marker) else NO_JOB;
    var attempt := if hit then db.jobs[id].attempts else 0;
    D1Batch(db, id, hit, updated, marker, Execution(marker, id, attempt, "cancellation", Cancelled))
  }

  /** Fills the argument of an update that hits nothing. */
  const NO_JOB := Job(Pending, 0, 0, None, None, None, None, None, "", None, None, "")

  // ----- Enqueueing -----

  function IdempotencyScope(job: Job): string {
    if job.tenantId.Some? && job.tenantId.value != "" then "tenant:" + job.tenantId.value else job.scope
  }

  /** Two rows may not share a key within an idempotency scope. */
  predicate SameKey(a: Job, b: Job) {
    a.idempotencyKey.Some? && a.idempotencyKey == b.idempotencyKey && IdempotencyScope(a) == IdempotencyScope(b)
  }

  predicate CanInsert(db: Db, id: JobId, job: Job) {
    id !in db.jobs && forall s :: s in db.jobs ==> !SameKey(job, db.jobs[s])
  }

  /** A job as enqueue writes it. */
  predicate IsNewJob(job: Job) {
    && job.status.Pending? && job.attempts == 0 && job.nextAttemptAt.Some?
    && job.claimToken.None? && job.leaseOwner.None? && job.leaseExpiresAt.None?
  }

  function Enqueue(db: Db, id: JobId, job: Job): Db {
    if CanInsert(db, id, job) && IsNewJob(job) then db.(jobs := db.jobs[id := job]) else db
  }

  // ----- The marker batch against the transaction -----

  /**
   * The batch equals the transaction exactly when no row other than the one the
   * update hits carries the marker beforehand; when the update misses, when no
   * row carries it at all.
   */
  lemma BatchRefinesTransaction(db: Db, id: JobId, hit: bool, updated: Job, marker: Token, e: Execution)
    requires hit ==> id in db.jobs && updated.claimToken == Some(marker)
    ensures D1Batch(db, id, hit, updated, marker, e) == PgTransaction(db, id, hit, updated, marker, e)
            <==> Holders(db.jobs, marker) <= if hit then {id} else {}
  {
    var jobs := GuardedUpdate(db.jobs, id, hit, updated);
    var carriers := Holders(jobs, marker);
    if hit {
      assert id in carriers;
      assert carriers == Holders(db.jobs, marker) + {id};
      if Holders(db.jobs, marker) <= {id} {
        assert carriers == {id};
        assert Repeat(e, 1) == Repeat(e, 0) + [e] == [e];
      } else {
        var other :| other in Holders(db.jobs, marker) && other != id;
        assert {other, id} <= carriers;
        SubsetSize({other, id}, carriers);
        assert |(db.history + Repeat(e, |carriers|))| > |db.history + [e]|;
      }
    } else {
      if Holders(db.jobs, marker) == {} {
        assert ClearToken(db.jobs, marker) == db.jobs by {
          forall s | s in db.jobs ensures ClearToken(db.jobs, marker)[s] == db.jobs[s] {
            assert s !in Holders(db.jobs, marker);
          }
        }
        assert db.history + Repeat(e, 0) == db.history;
      } else {
        var other :| other in Holders(db.jobs, marker);
        assert ClearToken(db.jobs, marker)[other].claimToken == None;
      }
    }
  }

  lemma SubsetSize<T>(a: set<T>, b: set<T>)
    requires a <= b
    ensures |a| <= |b|
  {
    if a != {} {
      var x :| x in a;
      SubsetSize(a - {x}, b - {x});
    }
  }

  /** With a marker no row carries: one history row when the update hits, none when it misses, no marker left. */
  lemma BatchWithFreshMarker(db: Db, id: JobId, hit: bool, updated: Job, marker: Token, e: Execution)
    requires Holders(db.jobs, marker) == {}
    requires hit ==> id in db.jobs && updated.claimToken == Some(marker)
    ensures var after := D1Batch(db, id, hit, updated, marker, e);
            && after.now == db.now
            && (!hit ==> after == db)
            && (hit ==> after.jobs == db.jobs[id := updated.(claimToken := None)] && after.history == db.history + [e])
            && Holders(after.jobs, marker) == {}
  {
    BatchRefinesTransaction(db, id, hit, updated, marker, e);
    if hit {
      var jobs := db.jobs[id := updated];
      forall s | s in jobs
        ensures ClearToken(jobs, marker)[s] == db.jobs[id := updated.(claimToken := None)][s]
      {
        assert s != id ==> s !in Holders(db.jobs, marker);
      }
      assert ClearToken(jobs, marker) == db.jobs[id := updated.(claimToken := None)];
    }
  }

  // ----- A claim pass -----

  /** The claim updates of one pass, one after the other. */
  function ClaimAll(db: Db, ids: seq<JobId>, r: Requester, worker: WorkerId, leaseMs: int, tokens: seq<Token>,
      appNow: int): Db
    requires |tokens| == |ids|
  {
    if ids == [] then db
    else
      var n := |ids| - 1;
      Claim(ClaimAll(db, ids[..n], r, worker, leaseMs, tokens[..n], appNow), ids[n], r, worker, leaseMs, tokens[n],
        appNow)
  }

  /** A pass touches only the jobs column, only listed rows, and no row that is live. */
  lemma {:induction false} ClaimPassFrame(db: Db, ids: seq<JobId>, r: Requester, worker: WorkerId, leaseMs: int,
      tokens: seq<Token>, appNow: int, id: JobId)
    requires |tokens| == |ids|
    ensures var after := ClaimAll(db, ids, r, worker, leaseMs, tokens, appNow);
            && after.now == db.now && after.history == db.history && after.jobs.Keys == db.jobs.Keys
            && (id in db.jobs && (id !in ids || Live(db.jobs[id], db.now)) ==> after.jobs[id] == db.jobs[id])
            && (id in db.jobs ==> after.jobs[id].partitionKey == db.jobs[id].partitionKey)
  {
    if ids != [] {
      var n := |ids| - 1;
      ClaimPassFrame(db, ids[..n], r, worker, leaseMs, tokens[..n], appNow, id);
    }
  }

  /** One claim leaves live rows live, so a blocked candidate stays blocked. */
  lemma ClaimKeepsSiblings(db: Db, x: JobId, r: Requester, worker: WorkerId, leaseMs: int, token: Token, appNow: int,
      id: JobId)
    requires id in db.jobs && HasRunningSibling(db.jobs, id, db.now)
    ensures HasRunningSibling(Claim(db, x, r, worker, leaseMs, token, appNow).jobs, id, db.now)
  {
    var after := Claim(db, x, r, worker, leaseMs, token, appNow);
    var s :| s in db.jobs && s != id && db.jobs[id].partitionKey.Some?
             && db.jobs[s].partitionKey == db.jobs[id].partitionKey && Live(db.jobs[s], db.now);
    assert after.jobs[s] == db.jobs[s];
  }

  /**
   * The outcome of a pass, candidate by candidate, over the columns. A candidate
   * is wanted when it is in the requester's scope and, if one is named, tenant,
   * has attempts left, and is either waiting with its time reached by the
   * application's clock or running with its lease run out by the database's. A
   * wanted one is claimed under its own token, or a sibling of its partition is
   * running under a live lease afterwards; every other one is left alone.
   */
  lemma {:induction false} ClaimPass(db: Db, ids: seq<JobId>, r: Requester, worker: WorkerId, leaseMs: int,
      tokens: seq<Token>, appNow: int, i: nat)
    requires |tokens| == |ids| && Distinct(ids)
    requires i < |ids| && ids[i] in db.jobs
    ensures var after := ClaimAll(db, ids, r, worker, leaseMs, tokens, appNow);
            var job := db.jobs[ids[i]];
            var wanted := && job.scope == r.scope && (r.tenantId.None? || job.tenantId == r.tenantId)
                          && job.attempts < job.maxAttempts
                          && (|| ((job.status == Pending || job.status == Retrying)
                                  && job.nextAttemptAt.Some? && job.nextAttemptAt.value <= appNow)
                              || (job.status == Running
                                  && job.leaseExpiresAt.Some? && job.leaseExpiresAt.value < db.now));
            && after.now == db.now && ids[i] in after.jobs
            && (after.jobs[ids[i]] == job
                || (wanted && after.jobs[ids[i]] == job.(status := Running, attempts := job.attempts + 1,
                      nextAttemptAt := None, leaseOwner := Some(worker), leaseExpiresAt := Some(db.now + leaseMs),
                      claimToken := Some(tokens[i]))))
            && (wanted && after.jobs[ids[i]] == job ==>
                  exists s :: s in after.jobs && s != ids[i]
                              && job.partitionKey.Some? && after.jobs[s].partitionKey == job.partitionKey
                              && after.jobs[s].status == Running
                              && after.jobs[s].leaseExpiresAt.Some? && after.jobs[s].leaseExpiresAt.value > db.now)
  {
    var n := |ids| - 1;
    var mid := ClaimAll(db, ids[..n], r, worker, leaseMs, tokens[..n], appNow);
    ClaimPassFrame(db, ids[..n], r, worker, leaseMs, tokens[..n], appNow, ids[i]);
    ClaimPassFrame(db, ids, r, worker, leaseMs, tokens, appNow, ids[i]);
    if i < n {
      ClaimPass(db, ids[..n], r, worker, leaseMs, tokens[..n], appNow, i);
      if HasRunningSibling(mid.jobs, ids[i], mid.now) {
        ClaimKeepsSiblings(mid, ids[n], r, worker, leaseMs, tokens[n], appNow, ids[i]);
      }
    } else {
      assert ids[n] !in ids[..n];
    }
  }

  // ----- The store -----

  class D1JobStore {
    var db: Db
    /** Whether transitions must write their history row atomically. */
    const requiredHistory: bool

    constructor (requiredHistory: bool)
      ensures db == Db(map[], [], 0) && this.requiredHistory == requiredHistory
    {
      db := Db(map[], [], 0);
      this.requiredHistory := requiredHistory;
    }

    /**
     * Claim the candidates the SELECT returned, each under the UUID drawn for
     * it, and read back the rows still held. `ClaimPass` says what becomes of
     * each candidate.
     */
    method ClaimDue(eligible: seq<JobId>, r: Requester, worker: WorkerId, leaseMs: int, tokens: seq<Token>, appNow: int)
      returns (claimed: map<JobId, Job>)
      requires |tokens| == |eligible|
      requires Distinct(eligible) && Distinct(tokens)
      requires forall t :: t in tokens ==> Holders(db.jobs, t) == {}
      modifies this`db
      ensures db == ClaimAll(old(db), eligible, r, worker, leaseMs, tokens, appNow)
      ensures forall id :: id in claimed ==> id in db.jobs && claimed[id] == db.jobs[id] && Live(claimed[id], db.now)
      ensures forall i :: 0 <= i < |eligible| ==>
                (eligible[i] in claimed <==>
                   leaseMs > 0 && eligible[i] in db.jobs && db.jobs[eligible[i]].claimToken == Some(tokens[i]))
      ensures claimed.Keys <= Elements(eligible)
    {
      ghost var before := db;
      var claimedIds: seq<JobId> := [];
      for i := 0 to |eligible|
        invariant db == ClaimAll(before, eligible[..i], r, worker, leaseMs, tokens[..i], appNow)
        invariant claimedIds == Claimants(before, eligible[..i], r, worker, leaseMs, tokens[..i], appNow)
      {
        assert eligible[..i + 1][..i] == eligible[..i] && tokens[..i + 1][..i] == tokens[..i];
        if CanClaim(db, eligible[i], r, appNow) {
          claimedIds := claimedIds + [eligible[i]];
        }
        db := Claim(db, eligible[i], r, worker, leaseMs, tokens[i], appNow);
      }
      assert eligible[..|eligible|] == eligible && tokens[..|tokens|] == tokens;
      forall i | 0 <= i < |eligible|
        ensures eligible[i] in claimedIds
            <==> eligible[i] in db.jobs && db.jobs[eligible[i]].claimToken == Some(tokens[i])
        ensures eligible[i] in claimedIds ==>
            eligible[i] in db.jobs && db.jobs[eligible[i]].leaseExpiresAt == Some(db.now + leaseMs)
              && db.jobs[eligible[i]].status.Running?
      {
        ClaimantHoldsToken(before, eligible, r, worker, leaseMs, tokens, appNow, i);
      }
      ClaimantsAreListed(before, eligible, r, worker, leaseMs, tokens, appNow);
      claimed := map id | id in claimedIds && id in db.jobs && Live(db.jobs[id], db.now) :: db.jobs[id];
    }

    /** Extend a lease that is still held; a lapsed or foreign one is refused. */
    method RenewLease(id: JobId, worker: WorkerId, token: Token, extendMs: int) returns (renewed: bool)
      modifies this`db
      ensures renewed <==>
              && extendMs > 0 && id in old(db).jobs
              && old(db).jobs[id].leaseOwner == Some(worker) && old(db).jobs[id].claimToken == Some(token)
              && old(db).jobs[id].status == Running
              && old(db).jobs[id].leaseExpiresAt.Some? && old(db).jobs[id].leaseExpiresAt.value > old(db).now
      ensures renewed ==>
                db == old(db).(jobs := old(db).jobs[id :=
                  old(db).jobs[id].(leaseExpiresAt := Some(old(db).now + extendMs))])
      ensures !renewed ==> db == old(db)
    {
      if extendMs <= 0 {
        return false;
      }
      renewed := Holds(db, id, worker, token);
      db := Renew(db, id, worker, token, extendMs);
    }

    /**
     * Mark succeeded, retrying, failed or dead-lettered. With required history
     * the job and its history row change together; otherwise the row is written
     * afterwards and may be lost (`historyFails`). The job ends the same.
     */
    method Transition(id: JobId, worker: WorkerId, token: Token, attempt: nat, v: Verdict, marker: Token,
        historyFails: bool)
      returns (applied: bool)
      requires Holders(db.jobs, marker) == {}
      modifies this`db
      ensures applied <==>
              && id in old(db).jobs
              && old(db).jobs[id].leaseOwner == Some(worker) && old(db).jobs[id].claimToken == Some(token)
              && old(db).jobs[id].status == Running && old(db).jobs[id].attempts == attempt
              && old(db).jobs[id].leaseExpiresAt.Some? && old(db).jobs[id].leaseExpiresAt.value > old(db).now
              && (v.Retry? ==> attempt < old(db).jobs[id].maxAttempts)
      ensures !applied ==> db == old(db)
      ensures applied ==>
                var freed := old(db).jobs[id].(leaseOwner := None, leaseExpiresAt := None, claimToken := None);
                var (status, settled) :=
                  match v
                  case Succeed => (Succeeded, freed.(status := Succeeded))
                  case Retry(at) => (Retrying, freed.(status := Retrying, nextAttemptAt := Some(at)))
                  case Fail => (Failed, freed.(status := Failed))
                  case Bury => (DeadLetter, freed.(status := DeadLetter));
                && db.now == old(db).now
                && db.jobs == old(db).jobs[id := settled]
                && db.history == old(db).history + if !requiredHistory && historyFails then []
                                                   else [Execution(marker, id, attempt, worker, status)]
    {
      applied := CanSettle(db, id, worker, token, attempt, v);
      if requiredHistory {
        BatchWithFreshMarker(db, id, applied, if applied then SettledJob(db.jobs[id], v, marker) else NO_JOB, marker,
                             Execution(marker, id, attempt, worker, StatusOf(v)));
        db := Settle(db, id, worker, token, attempt, v, marker);
      } else if applied {
        db := db.(jobs := db.jobs[id := SettledJob(db.jobs[id], v, marker).(claimToken := None)]);
        if !historyFails {
          db := db.(history := db.history + [Execution(marker, id, attempt, worker, StatusOf(v))]);
        }
      }
    }

    /** Cancel with required history: anything visible that has not succeeded, been cancelled or dead-lettered. */
    method CancelRequired(id: JobId, r: Requester, marker: Token) returns (applied: bool)
      requires Holders(db.jobs, marker) == {}
      modifies this`db
      ensures applied <==>
              && id in old(db).jobs
              && old(db).jobs[id].status !in {Succeeded, Cancelled, DeadLetter}
              && old(db).jobs[id].scope == r.scope
              && (r.tenantId.None? || old(db).jobs[id].tenantId == r.tenantId)
      ensures !applied ==> db == old(db)
      ensures applied ==>
                && db.now == old(db).now
                && db.jobs == old(db).jobs[id := old(db).jobs[id].(status := Cancelled, leaseOwner := None,
                     leaseExpiresAt := None, claimToken := None)]
                && db.history == old(db).history
                                 + [Execution(marker, id, old(db).jobs[id].attempts, "cancellation", Cancelled)]
    {
      applied := CanCancel(db, id, r);
      BatchWithFreshMarker(db, id, applied, if applied then CancelledJob(db.jobs[id], marker) else NO_JOB, marker,
                           Execution(marker, id, if applied then db.jobs[id].attempts else 0,
                             "cancellation", Cancelled));
      db := Cancel(db, id, r, marker);
    }
  }

  /** The candidates whose claim update hit, in order. */
  function Claimants(db: Db, ids: seq<JobId>, r: Requester, worker: WorkerId, leaseMs: int, tokens: seq<Token>,
      appNow: int): seq<JobId>
    requires |tokens| == |ids|
  {
    if ids == [] then []
    else
      var n := |ids| - 1;
      Claimants(db, ids[..n], r, worker, leaseMs, tokens[..n], appNow)
      + if CanClaim(ClaimAll(db, ids[..n], r, worker, leaseMs, tokens[..n], appNow), ids[n], r, appNow) then [ids[n]]
        else []
  }

  lemma {:induction false} ClaimantsAreListed(db: Db, ids: seq<JobId>, r: Requester, worker: WorkerId, leaseMs: int,
      tokens: seq<Token>, appNow: int)
    requires |tokens| == |ids|
    ensures Elements(Claimants(db, ids, r, worker, leaseMs, tokens, appNow)) <= Elements(ids)
  {
    if ids != [] {
      var n := |ids| - 1;
      ClaimantsAreListed(db, ids[..n], r, worker, leaseMs, tokens[..n], appNow);
      assert forall x :: x in ids[..n] ==> x in ids;
      assert forall x :: x in Claimants(db, ids[..n], r, worker, leaseMs, tokens[..n], appNow) ==>
          x in Elements(Claimants(db, ids[..n], r, worker, leaseMs, tokens[..n], appNow));
    }
  }

  /** A candidate's update hit exactly when the row carries the candidate's token afterwards. */
  lemma {:induction false} ClaimantHoldsToken(db: Db, ids: seq<JobId>, r: Requester, worker: WorkerId, leaseMs: int,
      tokens: seq<Token>, appNow: int, i: nat)
    requires |tokens| == |ids| && Distinct(ids) && i < |ids|
    requires forall t :: t in tokens ==> Holders(db.jobs, t) == {}
    ensures var after := ClaimAll(db, ids, r, worker, leaseMs, tokens, appNow);
            && after.jobs.Keys == db.jobs.Keys && after.now == db.now
            && (ids[i] in Claimants(db, ids, r, worker, leaseMs, tokens, appNow)
                <==> ids[i] in after.jobs && after.jobs[ids[i]].claimToken == Some(tokens[i]))
            && (ids[i] in Claimants(db, ids, r, worker, leaseMs, tokens, appNow) ==>
                  ids[i] in after.jobs && after.jobs[ids[i]].status.Running?
                    && after.jobs[ids[i]].leaseExpiresAt == Some(after.now + leaseMs))
  {
    var n := |ids| - 1;
    ClaimPassFrame(db, ids[..n], r, worker, leaseMs, tokens[..n], appNow, ids[i]);
    ClaimantsAreListed(db, ids[..n], r, worker, leaseMs, tokens[..n], appNow);
    assert ids[n] !in ids[..n];
    assert ids[n] !in Elements(Claimants(db, ids[..n], r, worker, leaseMs, tokens[..n], appNow));
    if i < n {
      forall t | t in tokens[..n] ensures Holders(db.jobs, t) == {} { assert t in tokens; }
      ClaimantHoldsToken(db, ids[..n], r, worker, leaseMs, tokens[..n], appNow, i);
    } else {
      assert tokens[n] in tokens;
      if ids[n] in db.jobs {
        assert ids[n] !in Holders(db.jobs, tokens[n]);
      }
    }
  }
}
