/**
 * What a handler or a finalizer achieves when nobody gets in between: a new
 * request, a retry of an abandoned one, a retry of a committed one, and a
 * finalizer's pass over one row. Everything is said over the columns of the row.
 */
module IdempotencySteps {
  import opened Common
  import opened IdempotencyStore
  import opened IdempotencyProtocol

  /** A handler takes n statements, each with the same outcome of everything outside the table. */
  function Alone(c: ClientId, ch: Choice, n: nat): seq<Event> {
    seq(n, _ => Advance(c, ch))
  }

  lemma AloneNext(w: World, c: ClientId, ch: Choice, n: nat)
    requires n > 0
    ensures Exec(w, Alone(c, ch, n)) == Next(Exec(w, Alone(c, ch, n - 1)), Advance(c, ch))
  {
    assert Alone(c, ch, n)[..n - 1] == Alone(c, ch, n - 1);
  }

  /** The first statement first. */
  lemma {:induction false} AloneFirst(w: World, c: ClientId, ch: Choice, n: nat)
    requires n > 0
    ensures Exec(w, Alone(c, ch, n)) == Exec(Next(w, Advance(c, ch)), Alone(c, ch, n - 1))
  {
    AloneNext(w, c, ch, n);
    if n == 1 {
      assert Alone(c, ch, 0) == [];
    } else {
      AloneFirst(w, c, ch, n - 1);
      AloneNext(Next(w, Advance(c, ch)), c, ch, n - 1);
    }
  }

  lemma AloneTwice(w: World, c: ClientId, ch: Choice, m: nat, n: nat)
    ensures Exec(w, Alone(c, ch, m + n)) == Exec(Exec(w, Alone(c, ch, m)), Alone(c, ch, n))
    decreases m
  {
    if m == 0 {
      assert Alone(c, ch, 0) == [];
    } else {
      AloneFirst(w, c, ch, m + n);
      AloneFirst(w, c, ch, m);
      AloneTwice(Next(w, Advance(c, ch)), c, ch, m - 1, n);
    }
  }

  function InvalidationsOf(tags: seq<Tag>): seq<Effect> {
    seq(|tags|, i requires 0 <= i < |tags| => Invalidated(tags[i]))
  }

  // ----- Taking over a reservation -----

  /**
   * The takeover statement hits exactly a row of the same request that is still
   * in progress and whose lease has run out; the row then carries the new token
   * and a new lease, and the handler runs under that token.
   */
  lemma TakesOverIff(w: World, c: ClientId, ch: Choice)
    requires c in w.clients && w.clients[c].phase.TakingOver? && ch.token !in w.shared.issued
    ensures var x, d, v := w.clients[c], w.shared, Next(w, Advance(c, ch));
            if x.id in d.rows && d.rows[x.id].fingerprint == x.fingerprint && d.rows[x.id].status == InProgress
               && d.rows[x.id].createdAt < d.now - x.leaseMs
            then
              && v.clients == w.clients[c := x.(phase := Running(ch.token))]
              && v.shared == d.(issued := d.issued + {ch.token},
                                rows := d.rows[x.id := d.rows[x.id].(token := ch.token, createdAt := d.now)])
            else
              && v.clients == w.clients[c := x.(phase := Rechecking)]
              && v.shared == d.(issued := d.issued + {ch.token})
  {
  }

  lemma RunsThree(w: World, a: Event, b: Event, c: Event)
    ensures Exec(w, [a, b, c]) == Next(Next(Next(w, a), b), c)
  {
    hide Next;
    assert [a, b, c][..2] == [a, b] && [a, b][..1] == [a] && [a][..0] == [];
    assert Exec(w, [a]) == Next(w, a) && Exec(w, [a, b]) == Next(Exec(w, [a]), b);
  }

  /**
   * A request repeated while the first handler's reservation stands in progress,
   * with nobody in between: three statements later it runs under the reservation
   * if the lease had run out, and it is refused by a fourth if it had not.
   */
  lemma AbandonedReservationIsTakenOver(w: World, c: ClientId, first: Choice, second: Choice)
    requires c in w.clients && w.clients[c].phase.Inserting?
    requires first.token !in w.shared.issued && second.token !in w.shared.issued && first.token != second.token
    requires w.clients[c].id in w.shared.rows
    requires w.shared.rows[w.clients[c].id].fingerprint == w.clients[c].fingerprint
    requires w.shared.rows[w.clients[c].id].status == InProgress
    ensures var x, d := w.clients[c], w.shared;
            var row := d.rows[x.id];
            var v := Exec(w, [Advance(c, first), Advance(c, first), Advance(c, second)]);
            && c in v.clients && v.shared.log == d.log
            && (row.createdAt < d.now - x.leaseMs ==>
                  && v.clients[c].phase == Running(second.token)
                  && v.shared.rows == d.rows[x.id := row.(token := second.token, createdAt := d.now)])
            && (row.createdAt >= d.now - x.leaseMs ==>
                  && v.shared.rows == d.rows
                  && Next(v, Advance(c, second)).clients[c].phase == Finished(Refused)
                  && Next(v, Advance(c, second)).shared == v.shared)
  {
    RunsThree(w, Advance(c, first), Advance(c, first), Advance(c, second));
    var x, d := w.clients[c], w.shared;
    var w1 := Next(w, Advance(c, first));
    assert w1.clients[c] == x.(phase := Resolving) && w1.shared == d.(issued := d.issued + {first.token});
    var w2 := Next(w1, Advance(c, first));
    assert w2.clients[c] == x.(phase := TakingOver) && w2.shared == w1.shared;
    TakesOverIff(w2, c, second);
  }

  /**
   * Renewing a lease holds others off: after a heartbeat of the owner, a takeover
   * at any later time hits the row exactly when more than the claimant's lease
   * has passed since the heartbeat.
   */
  lemma HeartbeatHoldsOff(w: World, c: ClientId, token: Token, later: int, ch: Choice)
    requires c in w.clients && w.clients[c].phase.TakingOver? && ch.token !in w.shared.issued
    requires w.clients[c].id in w.shared.rows
    requires var row := w.shared.rows[w.clients[c].id];
             row.fingerprint == w.clients[c].fingerprint && row.token == token && row.status == InProgress
    ensures var x, d := w.clients[c], w.shared;
            var v := Exec(w, [Heartbeat(x.id, x.fingerprint, token), SetClock(later), Advance(c, ch)]);
            && c in v.clients
            && (v.clients[c].phase == Running(ch.token) <==> later > d.now + x.leaseMs)
            && (later <= d.now + x.leaseMs ==>
                  v.clients[c].phase == Rechecking
                  && v.shared.rows == d.rows[x.id := d.rows[x.id].(createdAt := d.now)])
  {
    var x, d := w.clients[c], w.shared;
    RunsThree(w, Heartbeat(x.id, x.fingerprint, token), SetClock(later), Advance(c, ch));
    var w1 := Next(w, Heartbeat(x.id, x.fingerprint, token));
    assert w1.shared == d.(rows := d.rows[x.id := d.rows[x.id].(createdAt := d.now)]) && w1.clients == w.clients;
    var w2 := Next(w1, SetClock(later));
    assert w2.shared == w1.shared.(now := later) && w2.clients == w.clients;
    TakesOverIff(w2, c, ch);
  }

  // ----- From the reservation to the reply -----

  /** One statement of the handler c: the phase it moves to and what every process shares. */
  ghost predicate MovesTo(w: World, c: ClientId, ch: Choice, phase: Phase, shared: Shared)
    requires c in w.clients
  {
    Next(w, Advance(c, ch)) == World(shared, w.clients[c := w.clients[c].(phase := phase)], w.finalizers)
  }

  lemma InvalidatingStep(w: World, c: ClientId, ch: Choice, token: Token, todo: seq<Tag>, response: Response)
    requires c in w.clients && w.clients[c].phase == Invalidating(token, todo, response) && !ch.fails
    ensures todo == [] ==> MovesTo(w, c, ch, Completing(token, response), w.shared)
    ensures todo != [] ==> MovesTo(w, c, ch, Invalidating(token, todo[1..], response),
                                   w.shared.(log := w.shared.log + [Invalidated(todo[0])]))
  {
  }

  /** The tags are invalidated one after the other; neither the row nor the clock moves. */
  lemma {:induction false} InvalidatesAll(w: World, c: ClientId, ch: Choice, token: Token, todo: seq<Tag>,
      response: Response)
    requires c in w.clients && w.clients[c].phase == Invalidating(token, todo, response) && !ch.fails
    ensures var v := Exec(w, Alone(c, ch, |todo| + 1));
            && v.clients == w.clients[c := w.clients[c].(phase := Completing(token, response))]
            && v.shared == w.shared.(log := w.shared.log + InvalidationsOf(todo))
    decreases |todo|
  {
    hide Next;
    AloneFirst(w, c, ch, |todo| + 1);
    InvalidatingStep(w, c, ch, token, todo, response);
    if todo == [] {
      assert Alone(c, ch, 0) == [] && w.shared.log + InvalidationsOf([]) == w.shared.log;
    } else {
      var w1 := Next(w, Advance(c, ch));
      InvalidatesAll(w1, c, ch, token, todo[1..], response);
      assert w.shared.log + InvalidationsOf(todo) == w1.shared.log + InvalidationsOf(todo[1..]);
    }
  }

  /** The batch of an owner: the row is committed with what it owes, and the mutation is logged. */
  lemma CommitStep(w: World, c: ClientId, ch: Choice, token: Token)
    requires c in w.clients && w.clients[c].phase == Running(token) && !ch.fails
    requires w.clients[c].id in w.shared.rows
    requires var row := w.shared.rows[w.clients[c].id];
             row.fingerprint == w.clients[c].fingerprint && row.token == token && row.status == InProgress
    ensures var x, d, tags := w.clients[c], w.shared, w.clients[c].tags.GetOr([]);
            MovesTo(w, c, ch, Serializing(token),
                    d.(log := d.log + [Mutated(x.id, Elements(tags))],
                       rows := d.rows[x.id := d.rows[x.id].(status := BusinessCommitted, result := None,
                         pending := if tags == [] then NoObligation else Tags(Dedupe(tags)),
                         resource := x.resource)]))
  {
  }

  lemma CompleteStep(w: World, c: ClientId, ch: Choice, token: Token, response: Response)
    requires c in w.clients && !ch.fails && w.clients[c].id in w.shared.rows
    requires w.clients[c].phase == Completing(token, response) || w.clients[c].phase == Finishing(token, response)
    requires var row := w.shared.rows[w.clients[c].id];
             row.fingerprint == w.clients[c].fingerprint && row.token == token && row.status == BusinessCommitted
    ensures var x, d := w.clients[c], w.shared;
            MovesTo(w, c, ch, Finished(Replied(response)),
                    d.(rows := d.rows[x.id := d.rows[x.id].(status := Completed, result := Some(response),
                         pending := NoObligation, claimToken := None, claimExpiresAt := None)]))
  {
  }

  lemma SerializeStep(w: World, c: ClientId, ch: Choice, token: Token)
    requires c in w.clients && w.clients[c].phase == Serializing(token) && !ch.fails && ch.response.Some?
    ensures MovesTo(w, c, ch, Invalidating(token, w.clients[c].tags.GetOr([]), ch.response.value), w.shared)
  {
  }

  /**
   * A handler that owns its reservation and is left alone commits once, advances
   * every tag it declared after that, and replies; the row keeps the response
   * and owes nothing.
   */
  lemma OwnerRunsToReply(w: World, c: ClientId, ch: Choice, token: Token)
    requires c in w.clients && w.clients[c].phase == Running(token) && !ch.fails && ch.response.Some?
    requires w.clients[c].id in w.shared.rows
    requires var row := w.shared.rows[w.clients[c].id];
             row.fingerprint == w.clients[c].fingerprint && row.token == token && row.status == InProgress
    ensures var x, d, tags := w.clients[c], w.shared, w.clients[c].tags.GetOr([]);
            var v := Exec(w, Alone(c, ch, |tags| + 4));
            && v.clients == w.clients[c := x.(phase := Finished(Replied(ch.response.value)))]
            && v.shared.log == d.log + [Mutated(x.id, Elements(tags))] + InvalidationsOf(tags)
            && v.shared.rows == d.rows[x.id := Row(x.fingerprint, token, Completed, ch.response, NoObligation,
                 x.resource, d.rows[x.id].createdAt, None, None)]
  {
    var x, d, tags := w.clients[c], w.shared, w.clients[c].tags.GetOr([]);
    hide Next;
    AloneFirst(w, c, ch, |tags| + 4);
    CommitStep(w, c, ch, token);
    var w1 := Next(w, Advance(c, ch));
    AloneFirst(w1, c, ch, |tags| + 3);
    SerializeStep(w1, c, ch, token);
    var w2 := Next(w1, Advance(c, ch));
    InvalidatesAll(w2, c, ch, token, tags, ch.response.value);
    AloneTwice(w2, c, ch, |tags| + 1, 1);
    var w3 := Exec(w2, Alone(c, ch, |tags| + 1));
    AloneFirst(w3, c, ch, 1);
    CompleteStep(w3, c, ch, token, ch.response.value);
    assert Alone(c, ch, 0) == [];
  }

  /** The same from the start, for a key nobody has used. */
  lemma NewRequestIsServed(w: World, c: ClientId, ch: Choice)
    requires c in w.clients && w.clients[c].phase.Inserting? && w.clients[c].id !in w.shared.rows
    requires ch.token !in w.shared.issued && !ch.fails && ch.response.Some?
    ensures var x, d, tags := w.clients[c], w.shared, w.clients[c].tags.GetOr([]);
            var v := Exec(w, Alone(c, ch, |tags| + 5));
            && v.clients == w.clients[c := x.(phase := Finished(Replied(ch.response.value)))]
            && v.shared.log == d.log + [Mutated(x.id, Elements(tags))] + InvalidationsOf(tags)
            && v.shared.rows == d.rows[x.id := Row(x.fingerprint, ch.token, Completed, ch.response, NoObligation,
                 x.resource, d.now, None, None)]
  {
    var tags := w.clients[c].tags.GetOr([]);
    AloneFirst(w, c, ch, |tags| + 5);
    var w1 := Next(w, Advance(c, ch));
    assert w1.clients[c].phase == Running(ch.token);
    OwnerRunsToReply(w1, c, ch, ch.token);
  }

  /** A request with an allowed lease arrives once under its number, and starts with its insert. */
  lemma ArrivesIff(w: World, c: ClientId, id: Id, fp: Fingerprint, leaseMs: int, tags: Option<seq<Tag>>,
      resource: Option<string>)
    ensures var v := Next(w, Arrive(c, id, fp, leaseMs, tags, resource));
            v == if c !in w.clients && 1 <= leaseMs <= 86_400_000
                 then w.(clients := w.clients[c := Client(id, fp, leaseMs, tags, resource, Inserting)]) else w
  {
  }

  /** From the empty table on, a request that arrives alone is served: such runs exist for every request. */
  lemma FirstRequestIsServed(c: ClientId, id: Id, fp: Fingerprint, leaseMs: int, tags: seq<Tag>,
      resource: Option<string>, token: Token, response: Response)
    requires 1 <= leaseMs <= 86_400_000
    ensures var run := [Arrive(c, id, fp, leaseMs, Some(tags), resource)]
                       + Alone(c, Choice(token, false, Some(response)), |tags| + 5);
            var v := Reached(run);
            && v.clients == map[c := Client(id, fp, leaseMs, Some(tags), resource, Finished(Replied(response)))]
            && v.shared.log == [Mutated(id, Elements(tags))] + InvalidationsOf(tags)
            && v.shared.rows
               == map[id := Row(fp, token, Completed, Some(response), NoObligation, resource, 0, None, None)]
  {
    hide Next;
    var arrive, ch := Arrive(c, id, fp, leaseMs, Some(tags), resource), Choice(token, false, Some(response));
    ArrivesIff(INITIAL, c, id, fp, leaseMs, Some(tags), resource);
    assert [arrive][..|[arrive]| - 1] == [] && Exec(INITIAL, []) == INITIAL;
    assert Exec(INITIAL, [arrive]) == Next(INITIAL, arrive);
    NewRequestIsServed(Reached([arrive]), c, ch);
    RunOn(INITIAL, [arrive], Alone(c, ch, |tags| + 5));
  }

  lemma {:induction false} RunOn(w: World, first: seq<Event>, second: seq<Event>)
    ensures Exec(w, first + second) == Exec(Exec(w, first), second)
  {
    hide Next;
    if second == [] {
      assert first + second == first;
    } else {
      assert (first + second)[..|first + second| - 1] == first + second[..|second| - 1];
      RunOn(w, first, second[..|second| - 1]);
    }
  }

  /** A crash ends a handler that has not finished and touches nothing else; a finished one never moves again. */
  lemma CrashSilences(w: World, c: ClientId, ch: Choice)
    requires c in w.clients
    ensures var v := Next(w, Crash(c));
            && v == (if w.clients[c].phase.Finished? then w
                     else w.(clients := w.clients[c := w.clients[c].(phase := Finished(Failed))]))
            && Next(v, Advance(c, ch)) == v
  {
  }

  /** Recovery marks the row committed while the handler still owns it; the handler has failed either way. */
  lemma RecoveryMarksOwned(w: World, c: ClientId, ch: Choice, token: Token)
    requires c in w.clients && w.clients[c].phase == Recovering(token)
    ensures var x, d := w.clients[c], w.shared;
            var owned := x.id in d.rows && d.rows[x.id].fingerprint == x.fingerprint && d.rows[x.id].token == token
                         && (d.rows[x.id].status == InProgress || d.rows[x.id].status == BusinessCommitted);
            MovesTo(w, c, ch, Finished(Failed),
              if owned && !ch.fails then d.(rows := d.rows[x.id := d.rows[x.id].(status := BusinessCommitted)]) else d)
  {
  }

  // ----- Repeating a committed request -----

  lemma DrainingStep(w: World, c: ClientId, ch: Choice, token: Token, todo: seq<Tag>, resource: Option<string>)
    requires c in w.clients && w.clients[c].phase == Draining(token, todo, resource) && !ch.fails
    ensures todo == [] ==> MovesTo(w, c, ch, AfterDraining(ch, token, resource), w.shared)
    ensures todo != [] ==> MovesTo(w, c, ch, Draining(token, todo[1..], resource),
                                   w.shared.(log := w.shared.log + [Invalidated(todo[0])]))
  {
  }

  /** A response is stored only when the row names its resource and the resource can be read. */
  function AfterDraining(ch: Choice, token: Token, resource: Option<string>): Phase {
    if resource.Some? && ch.response.Some? then Finishing(token, ch.response.value) else Finished(Refused)
  }

  lemma {:induction false} DrainsAll(w: World, c: ClientId, ch: Choice, token: Token, todo: seq<Tag>,
      resource: Option<string>)
    requires c in w.clients && w.clients[c].phase == Draining(token, todo, resource) && !ch.fails
    ensures var v := Exec(w, Alone(c, ch, |todo| + 1));
            && v.shared == w.shared.(log := w.shared.log + InvalidationsOf(todo))
            && v.clients == w.clients[c := w.clients[c].(phase := AfterDraining(ch, token, resource))]
    decreases |todo|
  {
    hide Next, AfterDraining;
    AloneFirst(w, c, ch, |todo| + 1);
    DrainingStep(w, c, ch, token, todo, resource);
    if todo == [] {
      assert Alone(c, ch, 0) == [] && w.shared.log + InvalidationsOf([]) == w.shared.log;
    } else {
      var w1 := Next(w, Advance(c, ch));
      DrainsAll(w1, c, ch, token, todo[1..], resource);
      assert w.shared.log + InvalidationsOf(todo) == w1.shared.log + InvalidationsOf(todo[1..]);
    }
  }

  /** The insert of a repeated request conflicts, and reading the row tells it what is owed. */
  lemma ResolvesToDraining(w: World, c: ClientId, ch: Choice)
    requires c in w.clients && w.clients[c].phase.Inserting? && w.clients[c].id in w.shared.rows
    requires ch.token !in w.shared.issued
    requires var row := w.shared.rows[w.clients[c].id];
             row.fingerprint == w.clients[c].fingerprint && row.status == BusinessCommitted && row.pending.Tags?
    ensures var row := w.shared.rows[w.clients[c].id];
            var v := Next(Next(w, Advance(c, ch)), Advance(c, ch));
            && v.shared == w.shared.(issued := w.shared.issued + {ch.token})
            && v.clients == w.clients[c :=
                 w.clients[c].(phase := Draining(row.token, Dedupe(row.pending.tags), row.resource))]
  {
    var w1 := Next(w, Advance(c, ch));
    assert w1.clients[c] == w.clients[c].(phase := Resolving);
  }

  /**
   * A request repeated after its mutation committed but before it was answered
   * never mutates again: it invalidates what the row still owes, and, when the
   * row names the resource the response can be read from, completes the row with
   * that response; otherwise the row stays as it was and the request is refused.
   */
  lemma CommittedRequestIsFinished(w: World, c: ClientId, ch: Choice)
    requires c in w.clients && w.clients[c].phase.Inserting? && w.clients[c].id in w.shared.rows
    requires ch.token !in w.shared.issued && !ch.fails
    requires var row := w.shared.rows[w.clients[c].id];
             row.fingerprint == w.clients[c].fingerprint && row.status == BusinessCommitted && row.pending.Tags?
    ensures var x, d := w.clients[c], w.shared;
            var row := d.rows[x.id];
            var tags := Dedupe(row.pending.tags);
            var v := Exec(w, Alone(c, ch, |tags| + 4));
            && v.shared.log == d.log + InvalidationsOf(tags)
            && c in v.clients
            && (row.resource.Some? && ch.response.Some? ==>
                  && v.clients[c].phase == Finished(Replied(ch.response.value))
                  && v.shared.rows == d.rows[x.id := row.(status := Completed, result := ch.response,
                       pending := NoObligation, claimToken := None, claimExpiresAt := None)])
            && (row.resource.None? || ch.response.None? ==>
                  v.clients[c].phase == Finished(Refused) && v.shared.rows == d.rows)
  {
    var x, d := w.clients[c], w.shared;
    var row := d.rows[x.id];
    var tags := Dedupe(row.pending.tags);
    hide Next;
    AloneFirst(w, c, ch, |tags| + 4);
    var w1 := Next(w, Advance(c, ch));
    AloneFirst(w1, c, ch, |tags| + 3);
    ResolvesToDraining(w, c, ch);
    var w2 := Next(w1, Advance(c, ch));
    DrainsAll(w2, c, ch, row.token, tags, row.resource);
    AloneTwice(w2, c, ch, |tags| + 1, 1);
    var w3 := Exec(w2, Alone(c, ch, |tags| + 1));
    AloneFirst(w3, c, ch, 1);
    assert Alone(c, ch, 0) == [];
    if row.resource.Some? && ch.response.Some? {
      CompleteStep(w3, c, ch, row.token, ch.response.value);
    } else {
      FinishedStays(w3, c, ch);
    }
  }

  lemma FinishedStays(w: World, c: ClientId, ch: Choice)
    requires c in w.clients && w.clients[c].phase.Finished?
    ensures Next(w, Advance(c, ch)) == w
  {
  }

  // ----- A finalizer's pass -----

  function Works(f: WorkerId, n: nat): seq<Event> {
    seq(n, _ => Work(f, false))
  }

  lemma {:induction false} WorksFirst(w: World, f: WorkerId, n: nat)
    requires n > 0
    ensures Exec(w, Works(f, n)) == Exec(Next(w, Work(f, false)), Works(f, n - 1))
  {
    hide Next;
    assert Works(f, n)[..n - 1] == Works(f, n - 1);
    if n == 1 {
      assert Works(f, 0) == [];
    } else {
      WorksFirst(w, f, n - 1);
      assert Works(f, n - 1)[..n - 2] == Works(f, n - 2);
    }
  }

  /**
   * A scan by an idle finalizer takes a list of at most a hundred different rows,
   * each committed, owing and under no lease that has not run out, and remembers
   * them as they are; any other scan takes nothing.
   */
  lemma ScanTakesIff(w: World, f: WorkerId, claimToken: Token, leaseMs: int, ids: seq<Id>)
    ensures var d, v := w.shared, Next(w, Scan(f, claimToken, leaseMs, ids));
            if && (f !in w.finalizers || w.finalizers[f] == Idle) && 1 <= leaseMs <= 86_400_000
               && |ids| <= 100 && (forall i, j :: 0 <= i < j < |ids| ==> ids[i] != ids[j])
               && forall i :: 0 <= i < |ids| ==>
                    && ids[i] in d.rows && d.rows[ids[i]].status == BusinessCommitted
                    && d.rows[ids[i]].pending != NoObligation
                    && (d.rows[ids[i]].claimExpiresAt.None? || d.rows[ids[i]].claimExpiresAt.value < d.now)
            then
              && v.shared == d && v.clients == w.clients && f in v.finalizers
              && v.finalizers == w.finalizers[f := v.finalizers[f]]
              && v.finalizers[f].Claiming? && v.finalizers[f].claimToken == claimToken
              && v.finalizers[f].leaseMs == leaseMs && v.finalizers[f].claimed == []
              && |v.finalizers[f].todo| == |ids|
              && forall i :: 0 <= i < |ids| ==> v.finalizers[f].todo[i] == Snapshot(ids[i], d.rows[ids[i]])
            else v == w
  {
    var d := w.shared;
    CanScanIff(d, leaseMs, ids);
    hide CanScan, Claimable, ValidLease;
    if CanScan(d, leaseMs, ids) { SnapshotsAre(d.rows, ids); }
  }

  lemma CanScanIff(d: Shared, leaseMs: int, ids: seq<Id>)
    ensures CanScan(d, leaseMs, ids) <==>
            && 1 <= leaseMs <= 86_400_000
            && |ids| <= 100 && (forall i, j :: 0 <= i < j < |ids| ==> ids[i] != ids[j])
            && forall i :: 0 <= i < |ids| ==>
                 && ids[i] in d.rows && d.rows[ids[i]].status == BusinessCommitted
                 && d.rows[ids[i]].pending != NoObligation
                 && (d.rows[ids[i]].claimExpiresAt.None? || d.rows[ids[i]].claimExpiresAt.value < d.now)
    ensures CanScan(d, leaseMs, ids) ==> forall id :: id in ids ==> id in d.rows
  {
    if CanScan(d, leaseMs, ids) {
      forall i | 0 <= i < |ids| ensures Claimable(d.rows, ids[i], d.now) { assert ids[i] in ids; }
    }
  }

  lemma {:induction false} SnapshotsAre(t: Table, ids: seq<Id>)
    requires forall id :: id in ids ==> id in t
    ensures forall i :: 0 <= i < |ids| ==> Snapshots(t, ids)[i] == Snapshot(ids[i], t[ids[i]])
  {
    if ids != [] { SnapshotsAre(t, ids[1..]); }
  }

  /**
   * The scan returns a row exactly when it is committed, still owes something and
   * is under no lease that has not run out; the first statement then leases a
   * readable row, and poisons one whose column no longer parses.
   */
  lemma ScanLeasesIff(w: World, f: WorkerId, claimToken: Token, leaseMs: int, id: Id)
    requires f !in w.finalizers || w.finalizers[f].Idle?
    requires 1 <= leaseMs <= 86_400_000 && id in w.shared.rows
    ensures var d, row := w.shared, w.shared.rows[id];
            var v := Next(w, Scan(f, claimToken, leaseMs, [id]));
            if row.status == BusinessCommitted && row.pending != NoObligation
               && (row.claimExpiresAt.None? || row.claimExpiresAt.value < d.now)
            then
              var u := Next(v, Work(f, false));
              && v.shared == d && f in v.finalizers && f in u.finalizers
              && (row.pending.Unreadable? ==> u.shared == d.(rows := d.rows[id := row.(status := Status.Poisoned)]))
              && (row.pending.Tags? ==>
                    && u.shared == d.(rows := d.rows[id :=
                         row.(claimToken := Some(claimToken), claimExpiresAt := Some(d.now + leaseMs))])
                    && u.finalizers[f] == Claiming(claimToken, leaseMs, [],
                         [Claim(id, row.fingerprint, row.token, claimToken, Dedupe(row.pending.tags), row.result)]))
            else v == w
  {
    var d, row := w.shared, w.shared.rows[id];
    var v := Next(w, Scan(f, claimToken, leaseMs, [id]));
    assert Snapshots(d.rows, [id]) == [Snapshot(id, row)];
    assert [id][0] in [id];
    if CanScan(d, leaseMs, [id]) {
      assert v.finalizers[f] == Claiming(claimToken, leaseMs, [Snapshot(id, row)], []);
    }
  }

  /**
   * A scanned row is leased, or poisoned, only if it is still the row the scan
   * read: committed under the same token, and for a lease still owing and free.
   * Otherwise the finalizer goes on to the next row and nothing changes.
   */
  lemma ClaimIsFenced(w: World, f: WorkerId, claimToken: Token, leaseMs: int, s: Snapshot, rest: seq<Snapshot>,
      claimed: seq<Claim>)
    requires f in w.finalizers && w.finalizers[f] == Claiming(claimToken, leaseMs, [s] + rest, claimed)
    ensures var d, v := w.shared, Next(w, Work(f, false));
            var same := s.id in d.rows && d.rows[s.id].token == s.row.token && d.rows[s.id].status == BusinessCommitted;
            var free := same && d.rows[s.id].pending != NoObligation
                        && (d.rows[s.id].claimExpiresAt.None? || d.rows[s.id].claimExpiresAt.value < d.now);
            && f in v.finalizers && v.clients == w.clients
            && (!s.row.pending.Tags? ==>
                  && v.shared.rows
                     == (if same then d.rows[s.id := d.rows[s.id].(status := Status.Poisoned)] else d.rows)
                  && v.finalizers[f] == Claiming(claimToken, leaseMs, rest, claimed))
            && (s.row.pending.Tags? && free ==>
                  && v.shared.rows == d.rows[s.id := d.rows[s.id].(claimToken := Some(claimToken),
                       claimExpiresAt := Some(d.now + leaseMs))]
                  && v.finalizers[f] == Claiming(claimToken, leaseMs, rest, claimed + [Claim(s.id, s.row.fingerprint,
                       s.row.token, claimToken, Dedupe(s.row.pending.tags), s.row.result)]))
            && (s.row.pending.Tags? && !free ==>
                  v.shared == d && v.finalizers[f] == Claiming(claimToken, leaseMs, rest, claimed))
  {
    assert ([s] + rest)[1..] == rest;
  }

  /** A handler that found an unreadable column poisons the row only while it is committed under the token it read. */
  lemma PoisonIsFenced(w: World, c: ClientId, ch: Choice, token: Token)
    requires c in w.clients && w.clients[c].phase == Poisoning(token)
    ensures var x, d := w.clients[c], w.shared;
            MovesTo(w, c, ch, Finished(Failed),
              if x.id in d.rows && d.rows[x.id].token == token && d.rows[x.id].status == BusinessCommitted
              then d.(rows := d.rows[x.id := d.rows[x.id].(status := Status.Poisoned)]) else d)
  {
  }

  lemma {:induction false} WorksOff(w: World, f: WorkerId, claim: Claim, todo: seq<Tag>, drained: nat, acked: nat)
    requires f in w.finalizers && w.finalizers[f] == Working([claim], todo, drained, acked)
    ensures Exec(w, Works(f, |todo|))
            == World(w.shared.(log := w.shared.log + InvalidationsOf(todo)), w.clients,
                     w.finalizers[f := Working([claim], [], drained, acked)])
    decreases |todo|
  {
    if todo == [] {
      assert Works(f, 0) == [] && w.shared.log + InvalidationsOf([]) == w.shared.log;
      assert w.finalizers == w.finalizers[f := Working([claim], [], drained, acked)];
    } else {
      WorksFirst(w, f, |todo|);
      WorkOnTag(w, f, claim, todo, drained, acked);
      hide Next;
      var w1 := Next(w, Work(f, false));
      WorksOff(w1, f, claim, todo[1..], drained, acked);
      assert w.shared.log + InvalidationsOf(todo) == w1.shared.log + InvalidationsOf(todo[1..]);
    }
  }

  lemma WorkOnTag(w: World, f: WorkerId, claim: Claim, todo: seq<Tag>, drained: nat, acked: nat)
    requires f in w.finalizers && w.finalizers[f] == Working([claim], todo, drained, acked) && todo != []
    ensures Next(w, Work(f, false))
            == World(w.shared.(log := w.shared.log + [Invalidated(todo[0])]), w.clients,
                     w.finalizers[f := Working([claim], todo[1..], drained, acked)])
  {
  }

  /** The last statement of a claim under its lease frees the row, and completes it when a result was stored. */
  lemma WorkFrees(w: World, f: WorkerId, claim: Claim, drained: nat, acked: nat)
    requires f in w.finalizers && w.finalizers[f] == Working([claim], [], drained, acked)
    requires claim.id in w.shared.rows
    requires var row := w.shared.rows[claim.id];
             && row.fingerprint == claim.fingerprint && row.token == claim.token && row.status == BusinessCommitted
             && row.claimToken == Some(claim.claimToken) && row.result == claim.result
             && row.claimExpiresAt.Some? && row.claimExpiresAt.value > w.shared.now
    ensures var row := w.shared.rows[claim.id];
            var v := Next(w, Work(f, false));
            && f in v.finalizers
            && v.finalizers[f] == (if row.result.Some? then Working([], [], drained + 1, acked)
                                   else Working([], [], drained, acked + 1))
            && v.shared
               == w.shared.(rows := w.shared.rows[claim.id := row.(pending := NoObligation, claimToken := None,
                    claimExpiresAt := None, status := if row.result.Some? then Completed else BusinessCommitted)])
  {
  }

  /**
   * A finalizer left alone with a committed row that owes tags leases it,
   * invalidates each of them once, and frees the row of what it owed.
   */
  lemma FinalizerFreesRow(w: World, f: WorkerId, claimToken: Token, leaseMs: int, id: Id)
    requires f !in w.finalizers || w.finalizers[f].Idle?
    requires 1 <= leaseMs <= 86_400_000 && id in w.shared.rows
    requires var row := w.shared.rows[id];
             && row.status == BusinessCommitted && row.pending.Tags?
             && (row.claimExpiresAt.None? || row.claimExpiresAt.value < w.shared.now)
    ensures var d, row := w.shared, w.shared.rows[id];
            var tags := Dedupe(row.pending.tags);
            var v := Exec(Next(w, Scan(f, claimToken, leaseMs, [id])), Works(f, |tags| + 3));
            && f in v.finalizers
            && v.finalizers[f] == (if row.result.Some? then Working([], [], 1, 0) else Working([], [], 0, 1))
            && v.shared.log == d.log + InvalidationsOf(tags)
            && v.shared.rows == d.rows[id := row.(pending := NoObligation, claimToken := None, claimExpiresAt := None,
                 status := if row.result.Some? then Completed else BusinessCommitted)]
  {
    hide Next, Dedupe;
    var row := w.shared.rows[id];
    var tags := Dedupe(row.pending.tags);
    var claim := Claim(id, row.fingerprint, row.token, claimToken, tags, row.result);
    ScanLeasesIff(w, f, claimToken, leaseMs, id);
    var w0 := Next(w, Scan(f, claimToken, leaseMs, [id]));
    WorksFirst(w0, f, |tags| + 3);
    var w1 := Next(w0, Work(f, false));
    WorksFirst(w1, f, |tags| + 2);
    ClaimsAreTaken(w1, f, claimToken, leaseMs, claim);
    ClaimIsWorkedOff(Next(w1, Work(f, false)), f, claim);
  }

  lemma ClaimIsWorkedOff(w: World, f: WorkerId, claim: Claim)
    requires f in w.finalizers && w.finalizers[f] == Working([claim], claim.tags, 0, 0)
    requires claim.id in w.shared.rows
    requires var row := w.shared.rows[claim.id];
             && row.fingerprint == claim.fingerprint && row.token == claim.token && row.status == BusinessCommitted
             && row.claimToken == Some(claim.claimToken) && row.result == claim.result
             && row.claimExpiresAt.Some? && row.claimExpiresAt.value > w.shared.now
    ensures var row := w.shared.rows[claim.id];
            var v := Exec(w, Works(f, |claim.tags| + 1));
            && f in v.finalizers
            && v.finalizers[f] == (if row.result.Some? then Working([], [], 1, 0) else Working([], [], 0, 1))
            && v.shared
               == w.shared.(log := w.shared.log + InvalidationsOf(claim.tags),
                            rows := w.shared.rows[claim.id := row.(pending := NoObligation, claimToken := None,
                              claimExpiresAt := None,
                              status := if row.result.Some? then Completed else BusinessCommitted)])
  {
    hide Next;
    WorksOff(w, f, claim, claim.tags, 0, 0);
    WorksTwice(w, f, |claim.tags|, 1);
    var last := Exec(w, Works(f, |claim.tags|));
    WorksFirst(last, f, 1);
    WorkFrees(last, f, claim, 0, 0);
    assert Works(f, 0) == [];
  }

  lemma ClaimsAreTaken(w: World, f: WorkerId, claimToken: Token, leaseMs: int, claim: Claim)
    requires f in w.finalizers && w.finalizers[f] == Claiming(claimToken, leaseMs, [], [claim])
    ensures Next(w, Work(f, false))
            == World(w.shared, w.clients, w.finalizers[f := Working([claim], claim.tags, 0, 0)])
  {
  }

  lemma WorksTwice(w: World, f: WorkerId, m: nat, n: nat)
    ensures Exec(w, Works(f, m + n)) == Exec(Exec(w, Works(f, m)), Works(f, n))
    decreases m
  {
    hide Next;
    if m == 0 {
      assert Works(f, 0) == [];
    } else {
      WorksFirst(w, f, m + n);
      WorksFirst(w, f, m);
      WorksTwice(Next(w, Work(f, false)), f, m - 1, n);
    }
  }

  /** A finalizer that dies forgets what it was doing; the rows it leased stay leased. */
  lemma DyingForgets(w: World, f: WorkerId)
    ensures Next(w, Die(f)) == if f in w.finalizers then w.(finalizers := w.finalizers[f := Idle]) else w
  {
  }
}
