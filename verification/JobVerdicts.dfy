/**
 * What a worker's verdict means for the rest of a job's life, whatever runs
 * afterwards, and what becomes of a claim. Statuses and times are named outright.
 */
module JobVerdicts {
  import opened Common
  import opened JobStore
  import opened JobProofs

  /** A settle call that changed something; a refused one leaves the tables as they were. */
  ghost predicate Applied(w: World, e: Event) {
    e.TrySettle? && Next(w, e).db != w.db
  }

  /** The row an applied verdict leaves, and the one history row it adds. */
  ghost predicate Leaves(w: World, e: Event, job: Job)
    requires e.TrySettle? && e.id in w.db.jobs
  {
    && Next(w, e).db.jobs == w.db.jobs[e.id := job]
    && Next(w, e).db.history == w.db.history + [Execution(e.marker, e.id, e.attempt, e.worker, job.status)]
  }

  /** The verdict is the status stored, in the job and in its history row. */
  lemma VerdictIsStored(events: seq<Event>, e: Event)
    requires Applied(Reached(events), e)
    ensures var w := Reached(events);
            && e.id in w.db.jobs
            && var freed := w.db.jobs[e.id].(leaseOwner := None, leaseExpiresAt := None, claimToken := None);
               match e.verdict
               case Succeed => Leaves(w, e, freed.(status := Succeeded))
               case Retry(at) => Leaves(w, e, freed.(status := Retrying, nextAttemptAt := Some(at)))
               case Fail => Leaves(w, e, freed.(status := Failed))
               case Bury => Leaves(w, e, freed.(status := DeadLetter))
  {
    ReachedOk(events);
    var w := Reached(events);
    SettleShape(w, e.id, e.worker, e.token, e.attempt, e.verdict, e.marker);
  }

  lemma RunsOne(events: seq<Event>, e: Event)
    ensures Reached(events + [e]) == Next(Reached(events), e)
  {
    assert (events + [e])[..|events|] == events;
  }

  /** A success or a burial is final: whatever runs afterwards, the row stays as the verdict left it. */
  lemma FinalVerdictStands(events: seq<Event>, e: Event, more: seq<Event>)
    requires Applied(Reached(events), e) && (e.verdict.Succeed? || e.verdict.Bury?)
    ensures var w, v := Reached(events), Reached(events + [e] + more);
            && e.id in w.db.jobs && e.id in v.db.jobs
            && v.db.jobs[e.id] == w.db.jobs[e.id].(leaseOwner := None, leaseExpiresAt := None, claimToken := None,
                 status := if e.verdict.Succeed? then Succeeded else DeadLetter)
  {
    RunsOne(events, e);
    VerdictIsStored(events, e);
    TerminalIsAbsorbing(events + [e], more, e.id);
  }

  /** A failed job stays as it is until it is cancelled. */
  lemma StepKeepsFailed(w: World, e: Event, id: JobId, failed: Job)
    requires Inv(w) && id in w.db.jobs && failed.status == Failed && failed.claimToken.None?
    requires failed.leaseOwner.None? && failed.leaseExpiresAt.None?
    requires w.db.jobs[id] == failed || w.db.jobs[id] == failed.(status := Cancelled)
    ensures id in Next(w, e).db.jobs
    ensures Next(w, e).db.jobs[id] == failed || Next(w, e).db.jobs[id] == failed.(status := Cancelled)
  {
    assert JobOk(w, id);
    match e
    case TrySettle(x, worker, token, attempt, verdict, marker) =>
      if marker !in w.issued { SettleShape(w, x, worker, token, attempt, verdict, marker); }
    case TryCancel(x, r, marker) =>
      if marker !in w.issued { CancelShape(w, x, r, marker); }
    case _ =>
  }

  lemma {:induction false} FailedStays(events: seq<Event>, more: seq<Event>, id: JobId)
    requires id in Reached(events).db.jobs
    requires var job := Reached(events).db.jobs[id];
             job.status == Failed && job.claimToken.None? && job.leaseOwner.None? && job.leaseExpiresAt.None?
    ensures var job, v := Reached(events).db.jobs[id], Reached(events + more);
            id in v.db.jobs && (v.db.jobs[id] == job || v.db.jobs[id] == job.(status := Cancelled))
  {
    hide Inv, Next;
    if more == [] {
      assert events + more == events;
    } else {
      var init := more[..|more| - 1];
      FailedStays(events, init, id);
      assert (events + more)[..|events + more| - 1] == events + init;
      ReachedOk(events + init);
      StepKeepsFailed(Reached(events + init), more[|more| - 1], id, Reached(events).db.jobs[id]);
    }
  }

  /**
   * A failure is never retried: whatever runs afterwards the job is failed or
   * cancelled and no claim of it follows; and while it is failed, anyone who may
   * see it can cancel it.
   */
  lemma FailureIsNotRetried(events: seq<Event>, e: Event, more: seq<Event>, r: Requester, marker: Token)
    requires Applied(Reached(events), e) && e.verdict.Fail?
    requires marker !in Reached(events + [e] + more).issued
    ensures var w, v := Reached(events), Reached(events + [e] + more);
            && e.id in w.db.jobs && e.id in v.db.jobs
            && (v.db.jobs[e.id].status == Failed || v.db.jobs[e.id].status == Cancelled)
            && Claims(v.log, e.id) == Claims(w.log, e.id)
            && (v.db.jobs[e.id].status == Failed && v.db.jobs[e.id].scope == r.scope
                && (r.tenantId.None? || v.db.jobs[e.id].tenantId == r.tenantId) ==>
                  var u := Next(v, TryCancel(e.id, r, marker));
                  && u.db.jobs == v.db.jobs[e.id := v.db.jobs[e.id].(status := Cancelled)]
                  && u.db.history == v.db.history
                                     + [Execution(marker, e.id, v.db.jobs[e.id].attempts, "cancellation", Cancelled)])
  {
    RunsOne(events, e);
    VerdictIsStored(events, e);
    FailedStays(events + [e], more, e.id);
    AttemptsCountClaims(events, e.id);
    AttemptsCountClaims(events + [e] + more, e.id);
    ReachedOk(events + [e] + more);
    CancelShape(Reached(events + [e] + more), e.id, r, marker);
  }

  /** The event is a claim or a cancellation of this job. */
  predicate Touches(e: Event, id: JobId) {
    (e.TryClaim? || e.TryCancel?) && e.id == id
  }

  lemma StepLeavesRetrying(w: World, e: Event, id: JobId)
    requires Inv(w) && id in w.db.jobs && w.db.jobs[id].status == Retrying && !Touches(e, id)
    ensures id in Next(w, e).db.jobs && Next(w, e).db.jobs[id] == w.db.jobs[id]
  {
    assert JobOk(w, id);
    match e
    case TrySettle(x, worker, token, attempt, verdict, marker) =>
      if marker !in w.issued { SettleShape(w, x, worker, token, attempt, verdict, marker); }
    case TryCancel(x, r, marker) =>
      if marker !in w.issued { CancelShape(w, x, r, marker); }
    case _ =>
  }

  lemma {:induction false} RetryingStays(events: seq<Event>, more: seq<Event>, id: JobId)
    requires id in Reached(events).db.jobs && Reached(events).db.jobs[id].status == Retrying
    requires forall e :: e in more ==> !Touches(e, id)
    ensures id in Reached(events + more).db.jobs
    ensures Reached(events + more).db.jobs[id] == Reached(events).db.jobs[id]
  {
    hide Inv, Next;
    if more == [] {
      assert events + more == events;
    } else {
      var init := more[..|more| - 1];
      RetryingStays(events, init, id);
      assert (events + more)[..|events + more| - 1] == events + init;
      ReachedOk(events + init);
      StepLeavesRetrying(Reached(events + init), more[|more| - 1], id);
    }
  }

  /** Another job of this one's partition is running under a lease that has not run out. */
  ghost predicate SiblingRuns(db: Db, id: JobId)
    requires id in db.jobs
  {
    exists s :: s in db.jobs && s != id
                && db.jobs[id].partitionKey.Some? && db.jobs[s].partitionKey == db.jobs[id].partitionKey
                && db.jobs[s].status == Running
                && db.jobs[s].leaseExpiresAt.Some? && db.jobs[s].leaseExpiresAt.value > db.now
  }

  /**
   * When a claim under a fresh token succeeds, and what it does: the job must be
   * in the requester's scope and tenant, have attempts left, wait with its time
   * reached by the application's clock or run with its lease run out by the
   * database's, and have no sibling running.
   */
  lemma ClaimSucceedsIff(w: World, id: JobId, r: Requester, worker: WorkerId, leaseMs: int, token: Token, appNow: int)
    requires token !in w.issued && id in w.db.jobs
    ensures var job := w.db.jobs[id];
            var v := Next(w, TryClaim(id, r, worker, leaseMs, token, appNow));
            if && job.scope == r.scope && (r.tenantId.None? || job.tenantId == r.tenantId)
               && job.attempts < job.maxAttempts
               && (|| ((job.status == Pending || job.status == Retrying)
                       && job.nextAttemptAt.Some? && job.nextAttemptAt.value <= appNow)
                   || (job.status == Running && job.leaseExpiresAt.Some? && job.leaseExpiresAt.value < w.db.now))
               && !SiblingRuns(w.db, id)
            then v.db == w.db.(jobs := w.db.jobs[id := job.(status := Running, attempts := job.attempts + 1,
                   nextAttemptAt := None, leaseOwner := Some(worker), leaseExpiresAt := Some(w.db.now + leaseMs),
                   claimToken := Some(token))])
            else v.db == w.db
  {
  }

  /**
   * A renewal for a positive time moves the end of a lease that this worker and
   * token still hold at the database's time; anything else changes nothing.
   */
  lemma RenewalExtendsIff(w: World, id: JobId, worker: WorkerId, token: Token, extendMs: int)
    requires id in w.db.jobs
    ensures var job, v := w.db.jobs[id], Next(w, TryRenew(id, worker, token, extendMs));
            && v.log == w.log
            && v.db == if extendMs > 0 && job.leaseOwner == Some(worker) && job.claimToken == Some(token)
                          && job.status == Running && job.leaseExpiresAt.Some? && job.leaseExpiresAt.value > w.db.now
                       then w.db.(jobs := w.db.jobs[id := job.(leaseExpiresAt := Some(w.db.now + extendMs))])
                       else w.db
  {
  }

  /**
   * A retry waits for its time: as long as nobody claims or cancels the job it
   * stays as the verdict left it, and, with no sibling running, a requester who
   * may see it can claim it exactly from that time on.
   */
  lemma RetryWaitsForItsTime(events: seq<Event>, e: Event, more: seq<Event>, claim: Event)
    requires Applied(Reached(events), e) && e.verdict.Retry? && forall x :: x in more ==> !Touches(x, e.id)
    requires claim.TryClaim? && claim.id == e.id && claim.token !in Reached(events + [e] + more).issued
    requires e.id in Reached(events).db.jobs
    requires var job, r := Reached(events).db.jobs[e.id], claim.requester;
             job.scope == r.scope && (r.tenantId.None? || job.tenantId == r.tenantId)
    ensures var w, v := Reached(events), Reached(events + [e] + more);
            && e.id in v.db.jobs
            && v.db.jobs[e.id] == w.db.jobs[e.id].(status := Retrying, nextAttemptAt := Some(e.verdict.nextAttemptAt),
                 leaseOwner := None, leaseExpiresAt := None, claimToken := None)
            && (!SiblingRuns(v.db, e.id) ==>
                  (Next(v, claim).db != v.db <==> claim.appNow >= e.verdict.nextAttemptAt))
            && (SiblingRuns(v.db, e.id) ==> Next(v, claim).db == v.db)
  {
    RunsOne(events, e);
    VerdictIsStored(events, e);
    ReachedOk(events);
    SettleShape(Reached(events), e.id, e.worker, e.token, e.attempt, e.verdict, e.marker);
    RetryingStays(events + [e], more, e.id);
    hide Inv;
    var v := Reached(events + [e] + more);
    ClaimSucceedsIff(v, e.id, claim.requester, claim.worker, claim.leaseMs, claim.token, claim.appNow);
  }
}
