/**
 * Every run of the job table: partition exclusion, fenced settlement, attempt
 * accounting, absorbing states, complete history, and unique idempotency keys.
 * The database clock may jump either way; the two results that need a clock that
 * does not go back say so, and `SetBackBreaksExclusion` shows why.
 */
module JobProofs {
  import opened Common
  import opened JobStore

  /** What the run did to a job, with the tokens involved. */
  datatype Effect =
    | Claimed(id: JobId, token: Token, attempt: nat)
    | Settled(id: JobId, token: Token, attempt: nat, worker: WorkerId, status: Status, marker: Token)
    | Stopped(id: JobId, attempt: nat, marker: Token)

  datatype World = World(db: Db, issued: set<Token>, log: seq<Effect>)

  datatype Event =
    | Tick(ms: int)
    | Submit(id: JobId, job: Job)
    | TryClaim(id: JobId, requester: Requester, worker: WorkerId, leaseMs: int, token: Token, appNow: int)
    | TryRenew(id: JobId, worker: WorkerId, token: Token, extendMs: int)
    | TrySettle(id: JobId, worker: WorkerId, token: Token, attempt: nat, verdict: Verdict, marker: Token)
    | TryCancel(id: JobId, requester: Requester, marker: Token)

  const INITIAL := World(Db(map[], [], 0), {}, [])

  function Next(w: World, e: Event): World {
    var db := w.db;
    match e
    case Tick(ms) => w.(db := db.(now := db.now + ms))
    case Submit(id, job) => w.(db := Enqueue(db, id, job))
    case TryClaim(id, r, worker, leaseMs, token, appNow) =>
      if token in w.issued then w
      else if CanClaim(db, id, r, appNow) then
        World(Claim(db, id, r, worker, leaseMs, token, appNow), w.issued + {token},
              w.log + [Claimed(id, token, db.jobs[id].attempts + 1)])
      else w.(issued := w.issued + {token})
    case TryRenew(id, worker, token, extendMs) => w.(db := Renew(db, id, worker, token, extendMs))
    case TrySettle(id, worker, token, attempt, v, marker) =>
      if marker in w.issued then w
      else
        World(Settle(db, id, worker, token, attempt, v, marker), w.issued + {marker},
              if CanSettle(db, id, worker, token, attempt, v)
              then w.log + [Settled(id, token, attempt, worker, StatusOf(v), marker)] else w.log)
    case TryCancel(id, r, marker) =>
      if marker in w.issued then w
      else
        World(Cancel(db, id, r, marker), w.issued + {marker},
              if CanCancel(db, id, r) then w.log + [Stopped(id, db.jobs[id].attempts, marker)] else w.log)
  }

  function Exec(w: World, events: seq<Event>): World {
    if events == [] then w
    else Next(Exec(w, events[..|events| - 1]), events[|events| - 1])
  }

  function Reached(events: seq<Event>): World {
    Exec(INITIAL, events)
  }

  // ----- Reading the log -----

  /** The token of the job's latest claim, unless it was settled or stopped since. */
  function Holder(log: seq<Effect>, id: JobId): Option<Token> {
    if log == [] then None
    else
      var last := log[|log| - 1];
      if last.id != id then Holder(log[..|log| - 1], id)
      else if last.Claimed? then Some(last.token) else None
  }

  function Claims(log: seq<Effect>, id: JobId): nat {
    if log == [] then 0
    else
      var last := log[|log| - 1];
      Claims(log[..|log| - 1], id) + if last.Claimed? && last.id == id then 1 else 0
  }

  /** The history a log calls for: one row for each settlement and each stop, in order. */
  function HistoryOf(log: seq<Effect>): seq<Execution> {
    if log == [] then []
    else
      HistoryOf(log[..|log| - 1]) +
      match log[|log| - 1]
      case Claimed(_, _, _) => []
      case Settled(id, _, attempt, worker, status, marker) => [Execution(marker, id, attempt, worker, status)]
      case Stopped(id, attempt, marker) => [Execution(marker, id, attempt, "cancellation", Cancelled)]
  }

  /** The tokens that claims of the log drew. */
  function ClaimTokens(log: seq<Effect>): set<Token> {
    set i | 0 <= i < |log| && log[i].Claimed? :: log[i].token
  }

  ghost predicate ClaimsDistinct(log: seq<Effect>) {
    forall i, j :: 0 <= i < j < |log| && log[i].Claimed? && log[j].Claimed? ==> log[i].token != log[j].token
  }

  // ----- The invariant -----

  ghost predicate JobOk(w: World, id: JobId) {
    if id !in w.db.jobs then Claims(w.log, id) == 0 && Holder(w.log, id) == None
    else
      var job := w.db.jobs[id];
      && job.attempts == Claims(w.log, id)
      && (job.attempts > 0 ==> job.attempts <= job.maxAttempts)
      && job.claimToken == Holder(w.log, id)
      && (job.claimToken.Some? <==> job.status.Running?)
      && (job.claimToken.Some? ==> job.claimToken.value in w.issued)
      && (job.status.Running? ==> job.leaseExpiresAt.Some?)
  }

  ghost predicate KeysUnique(db: Db) {
    forall a, b :: a in db.jobs && b in db.jobs && a != b ==> !SameKey(db.jobs[a], db.jobs[b])
  }

  ghost predicate LogOk(w: World) {
    && ClaimsDistinct(w.log)
    && ClaimTokens(w.log) <= w.issued
    && w.db.history == HistoryOf(w.log)
  }

  ghost predicate Inv(w: World) {
    && (forall id :: JobOk(w, id))
    && KeysUnique(w.db)
    && LogOk(w)
  }

  // ----- Each event keeps it -----

  /** A marker drawn fresh is carried by no row. */
  lemma FreshMarker(w: World, marker: Token)
    requires Inv(w) && marker !in w.issued
    ensures Holders(w.db.jobs, marker) == {}
  {
    forall id | id in w.db.jobs ensures w.db.jobs[id].claimToken != Some(marker) {
      assert JobOk(w, id);
    }
  }

  lemma SettleShape(w: World, id: JobId, worker: WorkerId, token: Token, attempt: nat, v: Verdict, marker: Token)
    requires Inv(w) && marker !in w.issued
    ensures var after := Settle(w.db, id, worker, token, attempt, v, marker);
            && after.now == w.db.now
            && (!CanSettle(w.db, id, worker, token, attempt, v) ==> after == w.db)
            && (CanSettle(w.db, id, worker, token, attempt, v) ==>
                  && after.jobs == w.db.jobs[id := SettledJob(w.db.jobs[id], v, marker).(claimToken := None)]
                  && after.history == w.db.history + [Execution(marker, id, attempt, worker, StatusOf(v))])
  {
    FreshMarker(w, marker);
    var hit := CanSettle(w.db, id, worker, token, attempt, v);
    BatchWithFreshMarker(w.db, id, hit, if hit then SettledJob(w.db.jobs[id], v, marker) else NO_JOB, marker,
                         Execution(marker, id, attempt, worker, StatusOf(v)));
  }

  lemma CancelShape(w: World, id: JobId, r: Requester, marker: Token)
    requires Inv(w) && marker !in w.issued
    ensures var after := Cancel(w.db, id, r, marker);
            && after.now == w.db.now
            && (!CanCancel(w.db, id, r) ==> after == w.db)
            && (CanCancel(w.db, id, r) ==>
                  && after.jobs == w.db.jobs[id := CancelledJob(w.db.jobs[id], marker).(claimToken := None)]
                  && after.history
                     == w.db.history + [Execution(marker, id, w.db.jobs[id].attempts, "cancellation", Cancelled)])
  {
    FreshMarker(w, marker);
    var hit := CanCancel(w.db, id, r);
    BatchWithFreshMarker(w.db, id, hit, if hit then CancelledJob(w.db.jobs[id], marker) else NO_JOB, marker,
                         Execution(marker, id, if hit then w.db.jobs[id].attempts else 0, "cancellation", Cancelled));
  }

  /** The jobs side of an event that rewrites one job and appends at most one log entry about it. */
  lemma OneJobOk(w: World, v: World, id: JobId, entry: Option<Effect>)
    requires forall x :: JobOk(w, x)
    requires w.issued <= v.issued
    requires v.db.jobs.Keys == w.db.jobs.Keys + {id}
    requires forall x :: x in w.db.jobs && x != id ==> v.db.jobs[x] == w.db.jobs[x]
    requires entry.Some? ==> entry.value.id == id && v.log == w.log + [entry.value]
    requires entry.None? ==> v.log == w.log
    requires JobOk(v, id)
    ensures forall x :: JobOk(v, x)
  {
    forall x ensures JobOk(v, x) {
      assert JobOk(w, x);
    }
  }

  lemma ClaimKeepsInv(w: World, e: Event)
    requires Inv(w) && e.TryClaim? && e.token !in w.issued
    ensures Inv(Next(w, e))
  {
    var v, id := Next(w, e), e.id;
    if CanClaim(w.db, id, e.requester, e.appNow) {
      var entry := Claimed(id, e.token, w.db.jobs[id].attempts + 1);
      assert JobOk(w, id);
      OneJobOk(w, v, id, Some(entry));
      KeysStay(w.db, v.db, id);
      hide JobOk;
      forall i | 0 <= i < |v.log| && v.log[i].Claimed? ensures v.log[i].token in v.issued {
        if i < |w.log| { assert w.log[i].token in ClaimTokens(w.log); }
      }
      forall i | 0 <= i < |w.log| && w.log[i].Claimed? ensures w.log[i].token != e.token {
        assert w.log[i].token in ClaimTokens(w.log);
      }
    } else {
      forall x ensures JobOk(v, x) { assert JobOk(w, x); }
    }
  }

  lemma SameKeyStays(a: Job, c: Job, b: Job, d: Job)
    requires a.idempotencyKey == c.idempotencyKey && a.tenantId == c.tenantId && a.scope == c.scope
    requires b.idempotencyKey == d.idempotencyKey && b.tenantId == d.tenantId && b.scope == d.scope
    ensures SameKey(a, b) <==> SameKey(c, d)
  {
  }

  lemma KeysStay(db: Db, after: Db, id: JobId)
    requires KeysUnique(db) && id in db.jobs
    requires after.jobs.Keys == db.jobs.Keys
    requires forall a :: a in db.jobs && a != id ==> after.jobs[a] == db.jobs[a]
    requires after.jobs[id].idempotencyKey == db.jobs[id].idempotencyKey
    requires after.jobs[id].tenantId == db.jobs[id].tenantId && after.jobs[id].scope == db.jobs[id].scope
    ensures KeysUnique(after)
  {
    hide SameKey;
    forall a, b | a in after.jobs && b in after.jobs && a != b ensures !SameKey(after.jobs[a], after.jobs[b]) {
      SameKeyStays(db.jobs[a], after.jobs[a], db.jobs[b], after.jobs[b]);
    }
  }

  /** Settling or cancelling: the job stops running, one entry and one history row appear. */
  lemma EndKeepsInv(w: World, v: World, id: JobId, job: Job, entry: Effect)
    requires Inv(w) && id in w.db.jobs && w.issued <= v.issued
    requires v.db.now == w.db.now && v.db.jobs == w.db.jobs[id := job]
    requires !entry.Claimed? && entry.id == id && v.log == w.log + [entry]
    requires !job.status.Running? && job.claimToken.None?
    requires job.attempts == w.db.jobs[id].attempts && job.maxAttempts == w.db.jobs[id].maxAttempts
    requires job.idempotencyKey == w.db.jobs[id].idempotencyKey
    requires job.tenantId == w.db.jobs[id].tenantId && job.scope == w.db.jobs[id].scope
    requires v.db.history == w.db.history + HistoryOf([entry])
    ensures Inv(v)
  {
    assert JobOk(w, id);
    OneJobOk(w, v, id, Some(entry));
    KeysStay(w.db, v.db, id);
    assert HistoryOf([entry]) == HistoryOf([]) + HistoryOf([entry]);
    assert [entry][..0] == [];
    forall i | 0 <= i < |v.log| && v.log[i].Claimed? ensures v.log[i].token in v.issued {
      assert w.log[i].token in ClaimTokens(w.log);
    }
  }

  lemma SubmitKeepsInv(w: World, id: JobId, job: Job)
    requires Inv(w)
    ensures Inv(w.(db := Enqueue(w.db, id, job)))
  {
    var v := w.(db := Enqueue(w.db, id, job));
    assert JobOk(w, id);
    if v.db != w.db {
      OneJobOk(w, v, id, None);
      forall a, b | a in v.db.jobs && b in v.db.jobs && a != b ensures !SameKey(v.db.jobs[a], v.db.jobs[b]) {
      }
    } else {
      forall x ensures JobOk(v, x) { assert JobOk(w, x); }
    }
  }

  lemma RenewKeepsInv(w: World, e: Event)
    requires Inv(w) && e.TryRenew?
    ensures Inv(Next(w, e))
  {
    var v := Next(w, e);
    assert JobOk(w, e.id);
    if v.db != w.db {
      OneJobOk(w, v, e.id, None);
      KeysStay(w.db, v.db, e.id);
    } else {
      forall x ensures JobOk(v, x) { assert JobOk(w, x); }
    }
  }

  lemma StepKeepsInv(w: World, e: Event)
    requires Inv(w)
    ensures Inv(Next(w, e))
  {
    var v := Next(w, e);
    match e
    case Tick(_) => forall x ensures JobOk(v, x) { assert JobOk(w, x); }
    case Submit(id, job) => SubmitKeepsInv(w, id, job);
    case TryClaim(_, _, _, _, token, _) => if token !in w.issued { ClaimKeepsInv(w, e); }
    case TryRenew(_, _, _, _) => RenewKeepsInv(w, e);
    case TrySettle(id, worker, token, attempt, verdict, marker) =>
      if marker !in w.issued {
        SettleShape(w, id, worker, token, attempt, verdict, marker);
        if CanSettle(w.db, id, worker, token, attempt, verdict) {
          EndKeepsInv(w, v, id, v.db.jobs[id], v.log[|w.log|]);
        } else {
          forall x ensures JobOk(v, x) { assert JobOk(w, x); }
        }
      }
    case TryCancel(id, r, marker) =>
      if marker !in w.issued {
        CancelShape(w, id, r, marker);
        if CanCancel(w.db, id, r) {
          EndKeepsInv(w, v, id, v.db.jobs[id], v.log[|w.log|]);
        } else {
          forall x ensures JobOk(v, x) { assert JobOk(w, x); }
        }
      }
  }

  lemma {:induction false} ReachedOk(events: seq<Event>)
    ensures Inv(Reached(events))
  {
    if events != [] {
      ReachedOk(events[..|events| - 1]);
      StepKeepsInv(Reached(events[..|events| - 1]), events[|events| - 1]);
    }
  }

  // ----- Main results -----

  /** No two jobs of one partition are live at this reading of the clock. */
  ghost predicate ExclusiveAt(db: Db, time: int) {
    forall a, b :: a in db.jobs && b in db.jobs && a != b
                   && db.jobs[a].partitionKey.Some? && db.jobs[a].partitionKey == db.jobs[b].partitionKey ==>
      !(Live(db.jobs[a], time) && Live(db.jobs[b], time))
  }

  predicate StepsForward(e: Event) {
    e.Tick? ==> e.ms >= 0
  }

  /** The database clock never goes back. */
  predicate Forward(events: seq<Event>) {
    forall e :: e in events ==> StepsForward(e)
  }

  /** An event makes no job live but the one it claims, whose siblings are not. */
  lemma StepKeepsExclusion(w: World, e: Event)
    requires Inv(w) && ExclusiveAt(w.db, w.db.now) && StepsForward(e)
    ensures ExclusiveAt(Next(w, e).db, Next(w, e).db.now)
  {
    hide JobOk, KeysUnique, LogOk;
    var v := Next(w, e);
    match e
    case TrySettle(id, worker, token, attempt, verdict, marker) =>
      if marker !in w.issued { SettleShape(w, id, worker, token, attempt, verdict, marker); }
    case TryCancel(id, r, marker) =>
      if marker !in w.issued { CancelShape(w, id, r, marker); }
    case TryClaim(id, _, _, _, _, _) => if v.db != w.db { ClaimKeepsExclusion(w, e); }
    case _ =>
  }

  lemma ClaimKeepsExclusion(w: World, e: Event)
    requires ExclusiveAt(w.db, w.db.now) && e.TryClaim? && Next(w, e).db != w.db
    ensures ExclusiveAt(Next(w, e).db, Next(w, e).db.now)
  {
    var v, id := Next(w, e), e.id;
    assert forall a :: a in v.db.jobs && a != id ==> v.db.jobs[a] == w.db.jobs[a];
    assert v.db.jobs[id].partitionKey == w.db.jobs[id].partitionKey;
    forall a | a in v.db.jobs && a != id && v.db.jobs[id].partitionKey.Some?
               && v.db.jobs[a].partitionKey == v.db.jobs[id].partitionKey
      ensures !Live(v.db.jobs[a], v.db.now)
    {
    }
  }

  lemma {:induction false} ReachedIsExclusive(events: seq<Event>)
    requires Forward(events)
    ensures ExclusiveAt(Reached(events).db, Reached(events).db.now)
  {
    hide Next, Inv, ExclusiveAt;
    if events == [] {
      NothingIsLive();
    } else {
      var init, last := events[..|events| - 1], events[|events| - 1];
      assert last in events && forall e :: e in init ==> e in events;
      ReachedIsExclusive(init);
      ReachedOk(init);
      StepKeepsExclusion(Reached(init), last);
    }
  }

  lemma NothingIsLive()
    ensures ExclusiveAt(Reached([]).db, Reached([]).db.now)
  {
  }

  /**
   * While the clock does not go back, at most one job of a partition is live, at
   * the present and at every later database time.
   */
  lemma PartitionExclusion(events: seq<Event>, a: JobId, b: JobId, time: int)
    requires Forward(events)
    requires var db := Reached(events).db;
             && a in db.jobs && b in db.jobs && a != b
             && db.jobs[a].partitionKey.Some? && db.jobs[a].partitionKey == db.jobs[b].partitionKey
             && time >= db.now
    ensures var db := Reached(events).db;
            !(Live(db.jobs[a], time) && Live(db.jobs[b], time))
  {
    ReachedIsExclusive(events);
  }

  const SYSTEM := Requester("system", None)

  function NewJob(partition: string): Job {
    Job(Pending, 0, 3, Some(0), None, None, None, Some(partition), "system", None, None, "")
  }

  /** One job is claimed for all of the run, the other at its end, when that lease has run out. */
  function Relay(n: nat): seq<Event> {
    [Submit("a", NewJob("p")), Submit("b", NewJob("p")),
     TryClaim("a", SYSTEM, "w1", n, 1, 0), Tick(n), TryClaim("b", SYSTEM, "w2", 1, 2, 0)]
  }

  lemma RelayRuns(n: nat)
    requires n > 0
    ensures var db := Reached(Relay(n)).db;
            && db.now == n && "a" in db.jobs && "b" in db.jobs
            && db.jobs["a"].partitionKey == db.jobs["b"].partitionKey == Some("p")
            && forall time: int :: time < n ==> Live(db.jobs["a"], time) && Live(db.jobs["b"], time)
  {
    var r, job := Relay(n), NewJob("p");
    RunsFive(r[0], r[1], r[2], r[3], r[4]);
    var w := Next(Next(INITIAL, r[0]), r[1]);
    assert w.db == Db(map["a" := job, "b" := job], [], 0) && w.issued == {};
    RelayClaims(w, n);
    assert Reached(r) == Next(Next(Next(w, r[2]), r[3]), r[4]);
  }

  lemma RelayClaims(w: World, n: nat)
    requires n > 0 && w.db == Db(map["a" := NewJob("p"), "b" := NewJob("p")], [], 0) && w.issued == {}
    ensures var db := Next(Next(Next(w, Relay(n)[2]), Relay(n)[3]), Relay(n)[4]).db;
            db.now == n && db.jobs == map["a" := ClaimedJob(NewJob("p"), "w1", n, 1, 0), "b" :=
              ClaimedJob(NewJob("p"), "w2", 1, 2, n)]
  {
    var job := NewJob("p");
    var w1 := Next(w, Relay(n)[2]);
    assert w1.db == Db(map["a" := ClaimedJob(job, "w1", n, 1, 0), "b" := job], [], 0) && w1.issued == {1};
    var w2 := Next(w1, Relay(n)[3]);
    assert CanClaim(w2.db, "b", SYSTEM, 0);
  }

  lemma RunsFive(a: Event, b: Event, c: Event, d: Event, e: Event)
    ensures Reached([a, b, c, d, e]) == Next(Next(Next(Next(Next(INITIAL, a), b), c), d), e)
  {
    hide Next;
    assert [a, b, c, d, e][..4] == [a, b, c, d] && [a, b, c, d][..3] == [a, b, c];
    assert [a, b, c][..2] == [a, b] && [a, b][..1] == [a] && [a][..0] == [];
    assert Reached([]) == INITIAL && Reached([a]) == Next(INITIAL, a);
    assert Reached([a, b]) == Next(Reached([a]), b) && Reached([a, b, c]) == Next(Reached([a, b]), c);
    assert Reached([a, b, c, d]) == Next(Reached([a, b, c]), d);
  }

  /**
   * What a clock that only goes on can be read for, exactly: for the runs that end
   * at a database time after the start, exclusion can be relied on at a reading if
   * and only if the reading is not before that end.
   */
  lemma ExclusionHoldsExactlyFromNow(n: nat, time: int)
    requires n > 0
    ensures (forall events :: Forward(events) && Reached(events).db.now == n ==> ExclusiveAt(Reached(events).db, time))
            <==> time >= n
  {
    if time >= n {
      forall events | Forward(events) && Reached(events).db.now == n ensures ExclusiveAt(Reached(events).db, time) {
        ReachedIsExclusive(events);
      }
    } else {
      RelayRuns(n);
      assert Forward(Relay(n));
      assert !ExclusiveAt(Reached(Relay(n)).db, time);
    }
  }

  /** However little the clock is set back, there is a run in which that alone makes two jobs of a partition live. */
  lemma SetBackBreaksExclusion(n: int)
    requires n > 0
    ensures Forward(Relay(n)) && ExclusiveAt(Reached(Relay(n)).db, Reached(Relay(n)).db.now)
    ensures var db := Reached(Relay(n) + [Tick(-n)]).db; !ExclusiveAt(db, db.now)
  {
    RelayRuns(n);
    ReachedIsExclusive(Relay(n));
    assert (Relay(n) + [Tick(-n)])[..|Relay(n)|] == Relay(n);
    var w, v := Reached(Relay(n)), Reached(Relay(n) + [Tick(-n)]);
    hide Exec, Relay;
    assert v == w.(db := w.db.(now := 0));
    assert Live(v.db.jobs["a"], 0) && Live(v.db.jobs["b"], 0);
  }

  ghost predicate LogFenced(log: seq<Effect>) {
    forall j :: 0 <= j < |log| ==>
      && (log[j].Settled? ==>
            Holder(log[..j], log[j].id) == Some(log[j].token) && Claims(log[..j], log[j].id) == log[j].attempt)
      && (log[j].Claimed? ==> Claims(log[..j], log[j].id) + 1 == log[j].attempt)
  }

  lemma {:induction false} RunIsFenced(events: seq<Event>)
    ensures LogFenced(Reached(events).log)
  {
    if events != [] {
      var w, e := Reached(events[..|events| - 1]), events[|events| - 1];
      RunIsFenced(events[..|events| - 1]);
      ReachedOk(events[..|events| - 1]);
      var log := Next(w, e).log;
      if log != w.log {
        assert JobOk(w, e.id);
        assert log == w.log + [log[|w.log|]];
        forall j | 0 <= j < |w.log| ensures log[..j] == w.log[..j] && log[j] == w.log[j] {}
        assert log[..|w.log|] == w.log;
      }
    }
  }

  /** A held token comes from the job's last entry, a claim numbered by the attempts so far. */
  lemma {:induction false} HolderIsLastEntry(log: seq<Effect>, id: JobId) returns (i: nat)
    requires Holder(log, id).Some? && LogFenced(log)
    ensures i < |log| && log[i] == Claimed(id, Holder(log, id).value, Claims(log, id))
    ensures forall k :: i < k < |log| ==> log[k].id != id
  {
    var init, last := log[..|log| - 1], log[|log| - 1];
    if last.id == id {
      i := |log| - 1;
    } else {
      forall j | 0 <= j < |init| ensures init[..j] == log[..j] && init[j] == log[j] {}
      i := HolderIsLastEntry(init, id);
    }
  }

  /**
   * Fencing. Every settlement was made under the token and attempt number of the
   * job's latest claim, with nothing else done to the job in between.
   */
  lemma SettledUnderLatestClaim(events: seq<Event>, j: nat)
    requires j < |Reached(events).log| && Reached(events).log[j].Settled?
    ensures var log := Reached(events).log;
            exists i :: 0 <= i < j
                        && log[i] == Claimed(log[j].id, log[j].token, log[j].attempt)
                        && forall k :: i < k < j ==> log[k].id != log[j].id
  {
    RunIsFenced(events);
    var log := Reached(events).log;
    forall m | 0 <= m < j ensures log[..j][..m] == log[..m] && log[..j][m] == log[m] {}
    var i := HolderIsLastEntry(log[..j], log[j].id);
    assert log[..j][i] == log[i];
    assert forall k :: i < k < j ==> log[..j][k] == log[k];
  }

  /** A claim token is consumed at most once. */
  lemma TokenConsumedOnce(events: seq<Event>, j: nat, k: nat)
    requires j < k < |Reached(events).log|
    requires Reached(events).log[j].Settled? && Reached(events).log[k].Settled?
    ensures Reached(events).log[j].token != Reached(events).log[k].token
  {
    ReachedOk(events);
    SettledUnderLatestClaim(events, j);
    SettledUnderLatestClaim(events, k);
  }

  /**
   * A settle call changes anything only under the job's latest unspent claim,
   * while its lease is live, by the worker that holds it.
   */
  lemma SettlesOnlyUnderLiveLease(events: seq<Event>, id: JobId, worker: WorkerId, token: Token, attempt: nat,
      v: Verdict, marker: Token)
    requires marker !in Reached(events).issued
    ensures var w := Reached(events);
            var after := Next(w, TrySettle(id, worker, token, attempt, v, marker));
            after.db != w.db <==>
              && id in w.db.jobs
              && Holder(w.log, id) == Some(token)
              && Claims(w.log, id) == attempt
              && w.db.jobs[id].leaseOwner == Some(worker)
              && w.db.jobs[id].leaseExpiresAt.Some? && w.db.jobs[id].leaseExpiresAt.value > w.db.now
              && (v.Retry? ==> attempt < w.db.jobs[id].maxAttempts)
  {
    ReachedOk(events);
    var w := Reached(events);
    assert JobOk(w, id);
    SettleShape(w, id, worker, token, attempt, v, marker);
    if CanSettle(w.db, id, worker, token, attempt, v) {
      assert |Next(w, TrySettle(id, worker, token, attempt, v, marker)).db.history| == |w.db.history| + 1;
    }
  }

  /** Attempts count the claims and never pass the limit. */
  lemma AttemptsCountClaims(events: seq<Event>, id: JobId)
    requires id in Reached(events).db.jobs
    ensures var w := Reached(events);
            && w.db.jobs[id].attempts == Claims(w.log, id)
            && (Claims(w.log, id) > 0 ==> Claims(w.log, id) <= w.db.jobs[id].maxAttempts)
  {
    ReachedOk(events);
    assert JobOk(Reached(events), id);
  }

  /** History is complete and exact: one row for each applied settlement and cancellation, in order. */
  lemma HistoryMatchesTransitions(events: seq<Event>)
    ensures Reached(events).db.history == HistoryOf(Reached(events).log)
  {
    ReachedOk(events);
  }

  /** No row is left carrying a transition marker. */
  lemma NoMarkerRemains(events: seq<Event>, j: nat)
    requires j < |Reached(events).log| && !Reached(events).log[j].Claimed?
    ensures Holders(Reached(events).db.jobs, Reached(events).log[j].marker) == {}
  {
    ReachedOk(events);
    MarkersAreNotClaims(events);
    var w := Reached(events);
    forall id | id in w.db.jobs ensures w.db.jobs[id].claimToken != Some(w.log[j].marker) {
      assert JobOk(w, id);
      if Holder(w.log, id).Some? {
        RunIsFenced(events);
        var i := HolderIsLastEntry(w.log, id);
      }
    }
  }

  ghost predicate MarkersApart(w: World) {
    && (forall j :: 0 <= j < |w.log| && !w.log[j].Claimed? ==> w.log[j].marker in w.issued)
    && (forall i, j :: 0 <= i < |w.log| && 0 <= j < |w.log| && w.log[i].Claimed? && !w.log[j].Claimed? ==>
          w.log[i].token != w.log[j].marker)
  }

  lemma {:induction false} MarkersAreNotClaims(events: seq<Event>)
    ensures MarkersApart(Reached(events))
  {
    if events != [] {
      var w, e := Reached(events[..|events| - 1]), events[|events| - 1];
      MarkersAreNotClaims(events[..|events| - 1]);
      ReachedOk(events[..|events| - 1]);
      var v := Next(w, e);
      if v.log != w.log {
        var entry := v.log[|w.log|];
        assert v.log == w.log + [entry];
        forall i | 0 <= i < |w.log| && w.log[i].Claimed? ensures w.log[i].token in w.issued {
          assert w.log[i].token in ClaimTokens(w.log);
        }
      }
    }
  }

  lemma {:induction false} ExecAppends(w: World, first: seq<Event>, second: seq<Event>)
    ensures Exec(w, first + second) == Exec(Exec(w, first), second)
  {
    if second == [] {
      assert first + second == first;
    } else {
      assert (first + second)[..|first + second| - 1] == first + second[..|second| - 1];
      ExecAppends(w, first, second[..|second| - 1]);
    }
  }

  /** What one event leaves of a job it may not touch. */
  lemma StepLeavesJob(w: World, e: Event, id: JobId)
    requires Inv(w) && id in w.db.jobs
    requires || w.db.jobs[id].status in {Succeeded, Cancelled, DeadLetter}
             || (Exhausted(w.db, id) && !(e.TryCancel? && e.id == id))
    ensures id in Next(w, e).db.jobs && Next(w, e).db.jobs[id] == w.db.jobs[id]
    ensures StepsForward(e) ==> Next(w, e).db.now >= w.db.now
  {
    assert JobOk(w, id);
    match e
    case TrySettle(x, worker, token, attempt, verdict, marker) =>
      if marker !in w.issued { SettleShape(w, x, worker, token, attempt, verdict, marker); }
    case TryCancel(x, r, marker) =>
      if marker !in w.issued { CancelShape(w, x, r, marker); }
    case _ =>
  }

  /**
   * Succeeded, cancelled and dead-lettered jobs never change again. A failed job is not
   * absorbing: it can be cancelled.
   */
  lemma {:induction false} TerminalIsAbsorbing(events: seq<Event>, more: seq<Event>, id: JobId)
    requires id in Reached(events).db.jobs
    requires Reached(events).db.jobs[id].status in {Succeeded, Cancelled, DeadLetter}
    ensures var w, v := Reached(events), Reached(events + more);
            id in v.db.jobs && v.db.jobs[id] == w.db.jobs[id]
  {
    hide Inv, Next, Exhausted;
    if more == [] {
      assert events + more == events;
    } else {
      var init := more[..|more| - 1];
      TerminalIsAbsorbing(events, init, id);
      assert (events + more)[..|events + more| - 1] == events + init;
      ReachedOk(events + init);
      StepLeavesJob(Reached(events + init), more[|more| - 1], id);
    }
  }

  /** Running on its last attempt with a lapsed lease. */
  ghost predicate Exhausted(db: Db, id: JobId) {
    && id in db.jobs
    && db.jobs[id].status.Running?
    && db.jobs[id].attempts >= db.jobs[id].maxAttempts
    && db.jobs[id].leaseExpiresAt.Some? && db.jobs[id].leaseExpiresAt.value <= db.now
  }

  /**
   * A worker lost on the last attempt strands its job: while the clock does not
   * go back, nothing but a cancellation ever changes the row, so it stays running.
   */
  lemma {:induction false} ExhaustedJobIsStranded(events: seq<Event>, more: seq<Event>, id: JobId)
    requires Exhausted(Reached(events).db, id)
    requires Forward(more) && forall e :: e in more ==> !(e.TryCancel? && e.id == id)
    ensures var w, v := Reached(events), Reached(events + more);
            id in v.db.jobs && v.db.jobs[id] == w.db.jobs[id] && Exhausted(v.db, id)
  {
    if more == [] {
      assert events + more == events;
    } else {
      var init := more[..|more| - 1];
      ExhaustedJobIsStranded(events, init, id);
      assert (events + more)[..|events + more| - 1] == events + init;
      ReachedOk(events + init);
      StepLeavesJob(Reached(events + init), more[|more| - 1], id);
    }
  }

  /** An abandoned job is reclaimable exactly while it has attempts left and its partition is free. */
  lemma AbandonedJobReclaimable(events: seq<Event>, id: JobId, r: Requester, appNow: int)
    requires id in Reached(events).db.jobs && Reached(events).db.jobs[id].status.Running?
    requires Visible(r, Reached(events).db.jobs[id])
    ensures var w := Reached(events);
            CanClaim(w.db, id, r, appNow) <==>
              && w.db.jobs[id].leaseExpiresAt.Some? && w.db.jobs[id].leaseExpiresAt.value < w.db.now
              && Claims(w.log, id) < w.db.jobs[id].maxAttempts
              && !HasRunningSibling(w.db.jobs, id, w.db.now)
  {
    ReachedOk(events);
    assert JobOk(Reached(events), id);
  }

  /**
   * An idempotency key names at most one job of a tenant, and at most one job of a
   * scope among those without a tenant.
   */
  lemma OneJobPerKey(events: seq<Event>, a: JobId, b: JobId)
    requires a in Reached(events).db.jobs && b in Reached(events).db.jobs
    requires var j, k := Reached(events).db.jobs[a], Reached(events).db.jobs[b];
             && j.idempotencyKey.Some? && j.idempotencyKey == k.idempotencyKey
             && (|| (j.tenantId == k.tenantId && j.tenantId.GetOr("") != "")
                 || (j.tenantId.GetOr("") == k.tenantId.GetOr("") == "" && j.scope == k.scope))
    ensures a == b
  {
    ReachedOk(events);
  }

  /**
   * Enqueueing a job stores it exactly when it is new, its id is free, and no job has its key:
   * with a tenant, none of that tenant; without one, none of its scope that has no
   * tenant either. (A scope spelled like a tenant's, which none is, would count.)
   */
  lemma SubmitStoresIff(w: World, id: JobId, job: Job)
    requires forall s :: s in w.db.jobs ==> w.db.jobs[s].scope in {"tenant", "platform", "system"}
    requires job.scope in {"tenant", "platform", "system"}
    ensures var taken := exists s :: && s in w.db.jobs && w.db.jobs[s].idempotencyKey.Some?
                                     && w.db.jobs[s].idempotencyKey == job.idempotencyKey
                                     && w.db.jobs[s].tenantId.GetOr("") == job.tenantId.GetOr("")
                                     && (job.tenantId.GetOr("") == "" ==> w.db.jobs[s].scope == job.scope);
            var isNew := && job.status == Pending && job.attempts == 0 && job.nextAttemptAt.Some?
                         && job.claimToken.None? && job.leaseOwner.None? && job.leaseExpiresAt.None?;
            Next(w, Submit(id, job)).db == if isNew && id !in w.db.jobs && !taken
                then w.db.(jobs := w.db.jobs[id := job]) else w.db
  {
    forall s | s in w.db.jobs
      ensures SameKey(job, w.db.jobs[s])
          <==> && w.db.jobs[s].idempotencyKey.Some? && w.db.jobs[s].idempotencyKey == job.idempotencyKey
               && w.db.jobs[s].tenantId.GetOr("") == job.tenantId.GetOr("")
               && (job.tenantId.GetOr("") == "" ==> w.db.jobs[s].scope == job.scope)
    {
      KeyScopesAgreeIff(job, w.db.jobs[s]);
    }
  }

  /** A tenant's text never equals a scope, and two tenants' texts agree only for one tenant. */
  lemma KeyScopesAgreeIff(a: Job, b: Job)
    requires a.scope in {"tenant", "platform", "system"} && b.scope in {"tenant", "platform", "system"}
    ensures IdempotencyScope(a) == IdempotencyScope(b)
            <==> a.tenantId.GetOr("") == b.tenantId.GetOr("")
                 && (a.tenantId.GetOr("") == "" ==> a.scope == b.scope)
  {
    var s, t := a.tenantId.GetOr(""), b.tenantId.GetOr("");
    assert ("tenant:" + s)[7..] == s && ("tenant:" + t)[7..] == t;
    assert ("tenant:" + s)[0] == ("tenant:" + t)[0] == 't' && "platform"[0] == 'p' && |"tenant"| == |"system"| == 6;
  }
}
