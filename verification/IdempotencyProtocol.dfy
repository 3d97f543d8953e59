/**
 * Write handlers and invalidation finalizers racing over one idempotency table.
 *
 * A world holds the table, the database clock, the handlers and finalizers with
 * their program counters, the tokens ever drawn, and a log of the two effects
 * that matter: business mutations and tag invalidations. Each event lets one
 * process execute one statement (or crash). An event that does not apply leaves
 * the world unchanged, so every sequence of events is a run. The clock may be
 * set to anything, forwards or backwards.
 */
module IdempotencyProtocol {
  import opened Common
  import opened IdempotencyStore

  type ClientId = nat
  type WorkerId = nat

  /** What happened outside the table. */
  datatype Effect =
    | Mutated(id: Id, tags: set<Tag>)   // the business batch committed, owing these tags
    | Invalidated(tag: Tag)             // the generation of the tag advanced

  datatype Outcome = Replied(response: Response) | Refused | Failed

  /** Program counter of a write handler, in the order of the handler's statements. */
  datatype Phase =
    | Inserting
    | Resolving
    | Poisoning(token: Token)
    | TakingOver
    | Rechecking
    | Running(token: Token)
    | Serializing(token: Token)
    | Invalidating(token: Token, todo: seq<Tag>, response: Response)
    | Completing(token: Token, response: Response)
    | Recovering(token: Token)
    | Draining(token: Token, todo: seq<Tag>, resource: Option<string>)
    | Finishing(token: Token, response: Response)
    | Finished(outcome: Outcome)

  /** One request. `tags` is None when the route declares no invalidation. */
  datatype Client = Client(
    id: Id,
    fingerprint: Fingerprint,
    leaseMs: int,
    tags: Option<seq<Tag>>,
    resource: Option<string>,
    phase: Phase)

  /** What the outside world decides at a step: a fresh UUID, a failure, a computed response. */
  datatype Choice = Choice(token: Token, fails: bool, response: Option<Response>)

  /** A row as the finalizer's scan read it. */
  datatype Snapshot = Snapshot(id: Id, row: Row)

  datatype Finalizer =
    | Idle
    | Claiming(claimToken: Token, leaseMs: int, todo: seq<Snapshot>, claimed: seq<Claim>)
    | Working(claims: seq<Claim>, remaining: seq<Tag>, drained: nat, acked: nat)

  /** What every process shares: the table, the database clock, the UUIDs drawn, and the log. */
  datatype Shared = Shared(rows: Table, now: int, issued: set<Token>, log: seq<Effect>)

  datatype World = World(shared: Shared, clients: map<ClientId, Client>, finalizers: map<WorkerId, Finalizer>)

  datatype Event =
    | SetClock(now: int)
    | Arrive(c: ClientId, id: Id, fingerprint: Fingerprint, leaseMs: int, tags: Option<seq<Tag>>,
      resource: Option<string>)
    | Advance(c: ClientId, choice: Choice)
    | Crash(c: ClientId)
    | Heartbeat(id: Id, fingerprint: Fingerprint, token: Token)
    | Corrupt(id: Id)
    | Scan(f: WorkerId, claimToken: Token, leaseMs: int, ids: seq<Id>)
    | Work(f: WorkerId, fails: bool)
    | Die(f: WorkerId)

  const INITIAL := World(Shared(map[], 0, {}, []), map[], map[])

  /** Handler c moves to this phase and leaves this shared state. */
  function Moved(w: World, c: ClientId, phase: Phase, shared: Shared): World
    requires c in w.clients
  {
    World(shared, w.clients[c := w.clients[c].(phase := phase)], w.finalizers)
  }

  /** Where a handler goes once it has read the row that beat its insert. */
  function AfterResolution(r: Resolution, row: Row, unresolved: Phase): Phase {
    match r
    case Conflict => Finished(Refused)
    case Replay(response) => Finished(Replied(response))
    case Committed(token, resource, tags) => Draining(token, tags, resource)
    case Malformed => Poisoning(row.token)
    case Unresolved => unresolved
  }

  function TagsOf(client: Client): seq<Tag> {
    client.tags.GetOr([])
  }

  /** One statement of the write handler. */
  function AdvanceClient(w: World, c: ClientId, ch: Choice): World
    requires c in w.clients
  {
    var x, d := w.clients[c], w.shared;
    match x.phase
    case Inserting =>
      if ch.token in d.issued then w
      else if x.id in d.rows then Moved(w, c, Resolving, Drawn(d, ch.token))
      else Moved(w, c, Running(ch.token),
                 Drawn(d, ch.token).(rows := Insert(d.rows, x.id, x.fingerprint, ch.token, d.now)))
    case Resolving => Moved(w, c, Resolved(d, x, TakingOver), d)
    case Poisoning(token) => Moved(w, c, Finished(Failed), d.(rows := Poison(d.rows, x.id, token)))
    case TakingOver =>
      if ch.token in d.issued then w
      else if CanTakeOver(d.rows, x.id, x.fingerprint, x.leaseMs, d.now) then
        Moved(w, c, Running(ch.token),
              Drawn(d, ch.token).(rows := TakeOver(d.rows, x.id, x.fingerprint, x.leaseMs, ch.token, d.now)))
      else Moved(w, c, Rechecking, Drawn(d, ch.token))
    case Rechecking => Moved(w, c, Resolved(d, x, Finished(Refused)), d)
    case Running(token) =>
      // The batch carries the mutation, the ownership assertion and the receipt.
      if ch.fails || !Owns(d.rows, x.id, x.fingerprint, token) then Moved(w, c, Finished(Failed), d)
      else Moved(w, c, Serializing(token),
                 d.(rows := CommitReceipt(d.rows, x.id, x.fingerprint, token, TagsOf(x), x.resource),
                    log := d.log + [Mutated(x.id, Elements(TagsOf(x)))]))
    case Serializing(token) =>
      if ch.fails || ch.response.None? then Moved(w, c, Recovering(token), d)
      else Moved(w, c, Invalidating(token, TagsOf(x), ch.response.value), d)
    case Invalidating(token, todo, response) =>
      if ch.fails then Moved(w, c, Recovering(token), d)
      else if todo == [] then Moved(w, c, Completing(token, response), d)
      else Moved(w, c, Invalidating(token, todo[1..], response), Logged(d, Invalidated(todo[0])))
    case Completing(token, response) =>
      if ch.fails || !CanFinish(d.rows, x.id, x.fingerprint, token) then Moved(w, c, Recovering(token), d)
      else Moved(w, c, Finished(Replied(response)),
                 d.(rows := Complete(d.rows, x.id, x.fingerprint, token, response)))
    case Recovering(token) =>
      if ch.fails then Moved(w, c, Finished(Failed), d)
      else Moved(w, c, Finished(Failed), d.(rows := Recover(d.rows, x.id, x.fingerprint, token)))
    case Draining(token, todo, resource) =>
      if ch.fails then Moved(w, c, Finished(Failed), d)
      else if todo != [] then Moved(w, c, Draining(token, todo[1..], resource), Logged(d, Invalidated(todo[0])))
      else if resource.Some? && ch.response.Some? then Moved(w, c, Finishing(token, ch.response.value), d)
      else Moved(w, c, Finished(Refused), d)
    case Finishing(token, response) =>
      if ch.fails || !CanFinish(d.rows, x.id, x.fingerprint, token) then Moved(w, c, Finished(Failed), d)
      else Moved(w, c, Finished(Replied(response)),
                 d.(rows := Complete(d.rows, x.id, x.fingerprint, token, response)))
    case Finished(_) => w
  }

  function Drawn(d: Shared, token: Token): Shared {
    d.(issued := d.issued + {token})
  }

  function Logged(d: Shared, e: Effect): Shared {
    d.(log := d.log + [e])
  }

  /** The phase after reading the existing row; a missing row is an error. */
  function Resolved(d: Shared, x: Client, unresolved: Phase): Phase {
    if x.id !in d.rows then Finished(Failed)
    else AfterResolution(ResolveExisting(x.fingerprint, d.rows[x.id]), d.rows[x.id], unresolved)
  }

  function WithFinalizer(w: World, f: WorkerId, phase: Finalizer, shared: Shared): World {
    World(shared, w.clients, w.finalizers[f := phase])
  }

  function FirstTags(claims: seq<Claim>): seq<Tag> {
    if claims == [] then [] else claims[0].tags
  }

  /** Done with the first claim, successfully or not. */
  function NextClaim(claims: seq<Claim>, drained: nat, acked: nat): Finalizer
    requires claims != []
  {
    Working(claims[1..], FirstTags(claims[1..]), drained, acked)
  }

  predicate CanScan(d: Shared, leaseMs: int, ids: seq<Id>) {
    && ValidLease(leaseMs)
    && |ids| <= MAX_CLAIMS
    && Distinct(ids)
    && forall id :: id in ids ==> id in d.rows && Claimable(d.rows, id, d.now)
  }

  function Snapshots(t: Table, ids: seq<Id>): (r: seq<Snapshot>)
    requires forall id :: id in ids ==> id in t
    ensures |r| == |ids|
    ensures forall s :: s in r ==> s.id in ids && s.id in t && s.row == t[s.id]
  {
    if ids == [] then [] else [Snapshot(ids[0], t[ids[0]])] + Snapshots(t, ids[1..])
  }

  /** One statement of the finalizer: a claim, an invalidation, or an acknowledgement. */
  function AdvanceFinalizer(w: World, f: WorkerId, fails: bool): World
    requires f in w.finalizers
  {
    var d := w.shared;
    match w.finalizers[f]
    case Idle => w
    case Claiming(claimToken, leaseMs, todo, claimed) =>
      if todo == [] then WithFinalizer(w, f, Working(claimed, FirstTags(claimed), 0, 0), d)
      else if fails then WithFinalizer(w, f, Idle, d)
      else
        var s := todo[0];
        if !s.row.pending.Tags? then
          WithFinalizer(w, f, Claiming(claimToken, leaseMs, todo[1..], claimed),
                        d.(rows := Poison(d.rows, s.id, s.row.token)))
        else if CanClaim(d.rows, s.id, s.row.token, d.now) then
          WithFinalizer(w, f, Claiming(claimToken, leaseMs, todo[1..], claimed + [ClaimOf(s.id, s.row, claimToken)]),
                        d.(rows := ClaimRow(d.rows, s.id, s.row.token, claimToken, leaseMs, d.now)))
        else WithFinalizer(w, f, Claiming(claimToken, leaseMs, todo[1..], claimed), d)
    case Working(claims, remaining, drained, acked) =>
      if claims == [] then WithFinalizer(w, f, Idle, d)
      else if fails then WithFinalizer(w, f, NextClaim(claims, drained, acked), d)
      else if remaining != [] then
        WithFinalizer(w, f, Working(claims, remaining[1..], drained, acked), Logged(d, Invalidated(remaining[0])))
      else
        var e := claims[0];
        if !CanFinishClaimed(d.rows, e.id, e.fingerprint, e.token, e.claimToken, d.now) then
          WithFinalizer(w, f, NextClaim(claims, drained, acked), d)
        else if e.result.Some? then
          WithFinalizer(w, f, NextClaim(claims, drained + 1, acked),
                        d.(rows := CompleteClaimed(d.rows, e.id, e.fingerprint, e.token, e.claimToken, e.result.value,
                          d.now)))
        else
          WithFinalizer(w, f, NextClaim(claims, drained, acked + 1),
                        d.(rows := AckClaimed(d.rows, e.id, e.fingerprint, e.token, e.claimToken, d.now)))
  }

  /** The world after one event. */
  function Next(w: World, e: Event): World {
    var d := w.shared;
    match e
    case SetClock(now) => w.(shared := d.(now := now))
    case Arrive(c, id, fp, leaseMs, tags, resource) =>
      if c in w.clients || !ValidLease(leaseMs) then w
      else w.(clients := w.clients[c := Client(id, fp, leaseMs, tags, resource, Inserting)])
    case Advance(c, choice) => if c in w.clients then AdvanceClient(w, c, choice) else w
    case Crash(c) =>
      if c in w.clients && !w.clients[c].phase.Finished? then Moved(w, c, Finished(Failed), d) else w
    case Heartbeat(id, fp, token) => w.(shared := d.(rows := Renew(d.rows, id, fp, token, d.now)))
    case Corrupt(id) =>
      if id in d.rows && d.rows[id].pending.Tags? then
        w.(shared := d.(rows := d.rows[id := d.rows[id].(pending := Unreadable)]))
      else w
    case Scan(f, claimToken, leaseMs, ids) =>
      if (f !in w.finalizers || w.finalizers[f].Idle?) && CanScan(d, leaseMs, ids) then
        WithFinalizer(w, f, Claiming(claimToken, leaseMs, Snapshots(d.rows, ids), []), d)
      else w
    case Work(f, fails) => if f in w.finalizers then AdvanceFinalizer(w, f, fails) else w
    case Die(f) => if f in w.finalizers then WithFinalizer(w, f, Idle, d) else w
  }

  /** The world after a run. */
  function Exec(w: World, events: seq<Event>): World {
    if events == [] then w
    else Next(Exec(w, events[..|events| - 1]), events[|events| - 1])
  }

  function Reached(events: seq<Event>): World {
    Exec(INITIAL, events)
  }
}
