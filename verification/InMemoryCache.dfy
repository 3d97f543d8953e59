/**
 * The in-memory cache adapter: values with expiry and revisions, and rate-limit
 * buckets, swept every so many mutations. The sweeps are invisible: the adapter
 * answers as a plain map that never removes anything because of its age.
 */
module InMemoryCache {
  import opened Common

  type Key = string
  type Value = string

  datatype Record = Record(value: Value, expiresAt: Option<int>, revision: nat)

  datatype Bucket = Bucket(count: nat, resetAt: int)

  const PRUNE_EVERY_MUTATIONS := 128

  datatype Store = Store(values: map<Key, Record>, revisions: map<Key, nat>, buckets: map<Key, Bucket>, mutations: nat)

  predicate Expired(r: Record, now: int) {
    r.expiresAt.Some? && r.expiresAt.value <= now
  }

  // ----- The adapter's steps -----

  function Prune(s: Store, now: int): Store {
    var values := map k | k in s.values && !Expired(s.values[k], now) :: s.values[k];
    var revisions := map k | k in s.revisions && (k in s.values ==> !Expired(s.values[k], now)) :: s.revisions[k];
    var buckets := map k | k in s.buckets && s.buckets[k].resetAt > now :: s.buckets[k];
    s.(values := values, revisions := revisions, buckets := buckets)
  }

  function Noted(s: Store, now: int): Store {
    if s.mutations + 1 >= PRUNE_EVERY_MUTATIONS then Prune(s.(mutations := 0), now)
    else s.(mutations := s.mutations + 1)
  }

  function PruneKey(s: Store, key: Key, now: int): Store {
    if key in s.values && Expired(s.values[key], now) then
      s.(values := s.values - {key}, revisions := s.revisions - {key})
    else s
  }

  function Lookup(s: Store, key: Key): Option<Value> {
    if key in s.values then Some(s.values[key].value) else None
  }

  /** A time to live of zero counts as none. */
  function Expiry(ttl: Option<int>, now: int): Option<int> {
    if ttl.Some? && ttl.value != 0 then Some(now + ttl.value) else None
  }

  function WithSet(s: Store, key: Key, value: Value, ttl: Option<int>, now: int): Store {
    var revision := (if key in s.revisions then s.revisions[key] else 0) + 1;
    Noted(s.(values := s.values[key := Record(value, Expiry(ttl, now), revision)],
             revisions := s.revisions[key := revision]), now)
  }

  function WithDelete(s: Store, key: Key, now: int): Store {
    Noted(s.(values := s.values - {key}, revisions := s.revisions - {key}), now)
  }

  /** The open window of a key, or a new one, with one more use. */
  function NextBucket(buckets: map<Key, Bucket>, key: Key, window: int, now: int): Bucket {
    var current := if key in buckets && buckets[key].resetAt > now then buckets[key] else Bucket(0, now + window);
    current.(count := current.count + 1)
  }

  function WithIncrement(s: Store, key: Key, window: int, now: int): Store {
    Noted(s.(buckets := s.buckets[key := NextBucket(s.buckets, key, window, now)]), now)
  }

  // ----- Runs -----

  datatype Op =
    | Tick(ms: nat)
    | Get(key: Key)
    | Has(key: Key)
    | Set(key: Key, value: Value, ttl: Option<int>)
    | Delete(key: Key)
    | Increment(key: Key, window: int)

  datatype Answer = Found(value: Option<Value>) | Present(here: bool) | Limited(bucket: Bucket) | Nothing

  const EMPTY := Store(map[], map[], map[], 0)

  datatype System = System(store: Store, now: int, answers: seq<Answer>)

  function Step(w: System, op: Op): System {
    var s := w.store;
    match op
    case Tick(ms) => w.(now := w.now + ms)
    case Get(key) =>
      var t := PruneKey(s, key, w.now);
      w.(store := t, answers := w.answers + [Found(Lookup(t, key))])
    case Has(key) =>
      var t := PruneKey(s, key, w.now);
      w.(store := t, answers := w.answers + [Present(Lookup(t, key).Some?)])
    case Set(key, value, ttl) => w.(store := WithSet(s, key, value, ttl, w.now), answers := w.answers + [Nothing])
    case Delete(key) => w.(store := WithDelete(s, key, w.now), answers := w.answers + [Nothing])
    case Increment(key, window) =>
      w.(store := WithIncrement(s, key, window, w.now),
         answers := w.answers + [Limited(NextBucket(s.buckets, key, window, w.now))])
  }

  function Run(now: int, ops: seq<Op>): System {
    if ops == [] then System(EMPTY, now, []) else Step(Run(now, ops[..|ops| - 1]), ops[|ops| - 1])
  }

  // ----- The plain map -----

  /** A value until its time has come. */
  datatype Entry = Entry(value: Value, expiresAt: Option<int>)

  datatype Plain = Plain(entries: map<Key, Entry>, buckets: map<Key, Bucket>, now: int, answers: seq<Answer>)

  predicate Alive(e: Entry, now: int) {
    e.expiresAt.None? || e.expiresAt.value > now
  }

  function Peek(p: Plain, key: Key): Option<Value> {
    if key in p.entries && Alive(p.entries[key], p.now) then Some(p.entries[key].value) else None
  }

  /** Nothing is removed except by a delete. */
  function PlainStep(p: Plain, op: Op): Plain {
    match op
    case Tick(ms) => p.(now := p.now + ms)
    case Get(key) => p.(answers := p.answers + [Found(Peek(p, key))])
    case Has(key) => p.(answers := p.answers + [Present(Peek(p, key).Some?)])
    case Set(key, value, ttl) =>
      p.(entries := p.entries[key := Entry(value, Expiry(ttl, p.now))], answers := p.answers + [Nothing])
    case Delete(key) => p.(entries := p.entries - {key}, answers := p.answers + [Nothing])
    case Increment(key, window) =>
      var b := NextBucket(p.buckets, key, window, p.now);
      p.(buckets := p.buckets[key := b], answers := p.answers + [Limited(b)])
  }

  function PlainRun(now: int, ops: seq<Op>): Plain {
    if ops == [] then Plain(map[], map[], now, []) else PlainStep(PlainRun(now, ops[..|ops| - 1]), ops[|ops| - 1])
  }

  // ----- Refinement -----

  /** Every value has its revision, and no revision is left without a value. */
  predicate Paired(s: Store) {
    s.values.Keys == s.revisions.Keys && forall k :: k in s.values ==> s.values[k].revision == s.revisions[k]
  }

  /** What the adapter holds the plain map holds too; what it dropped is past its time. */
  predicate SameEntries(values: map<Key, Record>, entries: map<Key, Entry>, now: int) {
    && (forall k :: k in values ==> k in entries && entries[k] == Entry(values[k].value, values[k].expiresAt))
    && (forall k :: k in entries && k !in values ==> !Alive(entries[k], now))
  }

  predicate SameBuckets(mine: map<Key, Bucket>, plain: map<Key, Bucket>, now: int) {
    && (forall k :: k in mine ==> k in plain && plain[k] == mine[k])
    && (forall k :: k in plain && k !in mine ==> plain[k].resetAt <= now)
  }

  predicate Agrees(s: Store, p: Plain) {
    Paired(s) && SameEntries(s.values, p.entries, p.now) && SameBuckets(s.buckets, p.buckets, p.now)
  }

  predicate Refines(w: System, p: Plain) {
    w.now == p.now && w.answers == p.answers && Agrees(w.store, p)
  }

  /** A sweep changes nothing that can still be seen. */
  lemma PruneIsInvisible(s: Store, p: Plain, now: int)
    requires Agrees(s, p) && now <= p.now
    ensures Agrees(Prune(s, now), p) && Agrees(Noted(s, now), p)
  {
  }

  lemma SetRefines(w: System, p: Plain, key: Key, value: Value, ttl: Option<int>)
    requires Refines(w, p)
    ensures Refines(Step(w, Set(key, value, ttl)), PlainStep(p, Set(key, value, ttl)))
  {
    hide Noted;
    var s, q := w.store, PlainStep(p, Set(key, value, ttl));
    var revision := (if key in s.revisions then s.revisions[key] else 0) + 1;
    PruneIsInvisible(s.(values := s.values[key := Record(value, Expiry(ttl, w.now), revision)],
                        revisions := s.revisions[key := revision]), q, w.now);
  }

  lemma DeleteRefines(w: System, p: Plain, key: Key)
    requires Refines(w, p)
    ensures Refines(Step(w, Delete(key)), PlainStep(p, Delete(key)))
  {
    hide Noted;
    var s, q := w.store, PlainStep(p, Delete(key));
    PruneIsInvisible(s.(values := s.values - {key}, revisions := s.revisions - {key}), q, w.now);
  }

  lemma IncrementRefines(w: System, p: Plain, key: Key, window: int)
    requires Refines(w, p)
    ensures Refines(Step(w, Increment(key, window)), PlainStep(p, Increment(key, window)))
  {
    hide Noted;
    var s, q := w.store, PlainStep(p, Increment(key, window));
    assert NextBucket(s.buckets, key, window, w.now) == NextBucket(p.buckets, key, window, p.now);
    PruneIsInvisible(s.(buckets := s.buckets[key := NextBucket(s.buckets, key, window, w.now)]), q, w.now);
  }

  lemma StepRefines(w: System, p: Plain, op: Op)
    requires Refines(w, p)
    ensures Refines(Step(w, op), PlainStep(p, op))
  {
    match op
    case Set(key, value, ttl) => SetRefines(w, p, key, value, ttl); hide Step, PlainStep, Refines;
    case Delete(key) => DeleteRefines(w, p, key); hide Step, PlainStep, Refines;
    case Increment(key, window) => IncrementRefines(w, p, key, window); hide Step, PlainStep, Refines;
    case _ => hide Noted;
  }

  /** One operation at a time not before the last one, for the two maps alone. */
  lemma OperationAgrees(s: Store, p: Plain, op: Op, now: int)
    requires Agrees(s, p) && p.now <= now
    ensures Agrees(Step(System(s, now, p.answers), op).store, PlainStep(p.(now := now), op))
    ensures Step(System(s, now, p.answers), op).answers == PlainStep(p.(now := now), op).answers
  {
    hide Step, PlainStep;
    assert Agrees(s, p.(now := now));
    StepRefines(System(s, now, p.answers), p.(now := now), op);
  }

  lemma {:induction false} RunRefines(now: int, ops: seq<Op>)
    ensures Refines(Run(now, ops), PlainRun(now, ops))
  {
    if ops != [] {
      RunRefines(now, ops[..|ops| - 1]);
      StepRefines(Run(now, ops[..|ops| - 1]), PlainRun(now, ops[..|ops| - 1]), ops[|ops| - 1]);
    }
  }

  /**
   * Pruning cannot be observed: over any run whose clock does not go back, every
   * get, has and rate-limit answer is that of the plain map, and values and
   * revisions name the same keys with the same numbers.
   */
  lemma PruningIsUnobservable(now: int, ops: seq<Op>)
    ensures Run(now, ops).answers == PlainRun(now, ops).answers
    ensures var s := Run(now, ops).store;
            s.values.Keys == s.revisions.Keys && forall k :: k in s.values ==> s.values[k].revision == s.revisions[k]
  {
    RunRefines(now, ops);
  }

  /** What delete answers. */
  predicate Existed(s: Store, key: Key) {
    key in s.values
  }

  /** A live entry exists, and what exists has been set. */
  lemma ExistedIsBetween(s: Store, p: Plain, key: Key, now: int)
    requires Agrees(s, p) && p.now <= now
    ensures Peek(p.(now := now), key).Some? ==> Existed(s, key)
    ensures Existed(s, key) ==> key in p.entries
  {
  }

  /**
   * The answer of delete does show pruning: it is yes for a live entry, and for a
   * lapsed one exactly until it is swept, while both stores show the same map.
   */
  lemma DeleteShowsPruning(w: System, p: Plain, key: Key)
    requires Refines(w, p)
    ensures var swept := w.(store := Prune(w.store, w.now));
            && Refines(swept, p)
            && (Existed(swept.store, key) <==> Peek(p, key).Some?)
            && (Existed(w.store, key) != Existed(swept.store, key)
                <==> key in w.store.values && Expired(w.store.values[key], w.now))
  {
    PruneIsInvisible(w.store, p, w.now);
  }

  /** Such a store is reached: an expired entry still exists, and a get or a has of its key makes it go. */
  lemma LapsedEntryExists(key: Key, value: Value)
    ensures var ops := [Set(key, value, Some(1)), Tick(1)];
            && Existed(Run(0, ops).store, key) && !Existed(Run(0, ops + [Get(key)]).store, key)
            && !Existed(Run(0, ops + [Has(key)]).store, key)
            && PlainRun(0, ops).entries == PlainRun(0, ops + [Get(key)]).entries
  {
    var set_, ops := [Set(key, value, Some(1))], [Set(key, value, Some(1)), Tick(1)];
    assert set_[..0] == [] && ops[..1] == set_ && (ops + [Get(key)])[..2] == ops;
    assert Run(0, set_) == Step(System(EMPTY, 0, []), set_[0]);
    assert Run(0, ops) == Step(Run(0, set_), Tick(1));
    assert Run(0, ops + [Get(key)]) == Step(Run(0, ops), Get(key));
    assert (ops + [Has(key)])[..2] == ops && Run(0, ops + [Has(key)]) == Step(Run(0, ops), Has(key));
    assert PlainRun(0, ops + [Get(key)]) == PlainStep(PlainRun(0, ops), Get(key));
  }

  // ----- The class -----

  method SweepValues(values: map<Key, Record>, revisions: map<Key, nat>, now: int)
    returns (v: map<Key, Record>, r: map<Key, nat>)
    ensures v == map k | k in values && !Expired(values[k], now) :: values[k]
    ensures r == map k | k in revisions && (k in values ==> !Expired(values[k], now)) :: revisions[k]
  {
    hide Expired;
    v, r := values, revisions;
    var todo := values.Keys;
    while todo != {}
      invariant todo <= values.Keys
      invariant forall k :: k in v <==> k in values && (k in todo || !Expired(values[k], now))
      invariant forall k :: k in v ==> v[k] == values[k]
      invariant forall k :: k in r <==> k in revisions && (k in values && k !in todo ==> !Expired(values[k], now))
      invariant forall k :: k in r ==> r[k] == revisions[k]
      decreases |todo|
    {
      var key :| key in todo;
      if Expired(values[key], now) {
        v, r := v - {key}, r - {key};
      }
      todo := todo - {key};
    }
  }

  method SweepBuckets(buckets: map<Key, Bucket>, now: int) returns (b: map<Key, Bucket>)
    ensures b == map k | k in buckets && buckets[k].resetAt > now :: buckets[k]
  {
    b := buckets;
    var todo := buckets.Keys;
    while todo != {}
      invariant todo <= buckets.Keys
      invariant b == map k | k in buckets && (k in todo || buckets[k].resetAt > now) :: buckets[k]
      decreases |todo|
    {
      var key :| key in todo;
      if buckets[key].resetAt <= now {
        b := b - {key};
      }
      todo := todo - {key};
    }
  }

  class InMemoryCacheAdapter {
    var values: map<Key, Record>
    var revisions: map<Key, nat>
    var rateLimitBuckets: map<Key, Bucket>
    var mutationsSincePrune: nat

    /** The map that removes nothing by age, under the same calls. */
    ghost var plain: Plain

    function State(): Store
      reads this
    {
      Store(values, revisions, rateLimitBuckets, mutationsSincePrune)
    }

    /** The adapter shows what the plain map shows, and a sweep is never overdue. */
    ghost predicate Valid()
      reads this
    {
      Agrees(State(), plain) && mutationsSincePrune < PRUNE_EVERY_MUTATIONS
    }

    /** The adapter is valid and the clock has not gone back since the last call. */
    ghost predicate ValidAt(now: int)
      reads this
    {
      Valid() && plain.now <= now
    }

    constructor (now: int)
      ensures State() == EMPTY && plain == Plain(map[], map[], now, []) && Valid()
    {
      values, revisions, rateLimitBuckets, mutationsSincePrune := map[], map[], map[], 0;
      plain := Plain(map[], map[], now, []);
    }

    /** Sweep the expired values with their revisions, then the closed windows. */
    method PruneExpired(now: int)
      modifies this
      ensures State() == Prune(old(State()), now) && plain == old(plain)
      ensures old(Valid()) && now <= plain.now ==> Valid()
    {
      values, revisions := SweepValues(values, revisions, now);
      rateLimitBuckets := SweepBuckets(rateLimitBuckets, now);
      if old(Agrees(State(), plain)) && now <= plain.now { PruneIsInvisible(old(State()), plain, now); }
    }

    /** Count a mutation, and sweep at every 128th: nothing that the plain map shows changes. */
    method NoteMutation(now: int)
      modifies this
      ensures State() == Noted(old(State()), now) && plain == old(plain)
      ensures mutationsSincePrune == if old(mutationsSincePrune) + 1 >= 128 then 0 else old(mutationsSincePrune) + 1
      ensures old(Valid()) && now <= plain.now ==> Valid()
    {
      mutationsSincePrune := mutationsSincePrune + 1;
      if mutationsSincePrune >= PRUNE_EVERY_MUTATIONS {
        mutationsSincePrune := 0;
        PruneExpired(now);
      }
    }

    method PruneIfExpired(key: Key, now: int)
      modifies this
      ensures State() == PruneKey(old(State()), key, now) && plain == old(plain)
    {
      if key in values && Expired(values[key], now) {
        values := values - {key};
        revisions := revisions - {key};
      }
    }

    /** What the plain map shows of the key at this time. */
    method Get(key: Key, now: int) returns (r: Option<Value>)
      modifies this
      ensures State() == PruneKey(old(State()), key, now)
      ensures plain == PlainStep(old(plain).(now := now), Op.Get(key))
      ensures old(ValidAt(now)) ==> Valid() && r == Peek(plain, key)
    {
      PruneIfExpired(key, now);
      r := if key in values then Some(values[key].value) else None;
      plain := PlainStep(plain.(now := now), Op.Get(key));
      if old(ValidAt(now)) { OperationAgrees(old(State()), old(plain), Op.Get(key), now); }
    }

    method Has(key: Key, now: int) returns (r: bool)
      modifies this
      ensures State() == PruneKey(old(State()), key, now)
      ensures plain == PlainStep(old(plain).(now := now), Op.Has(key))
      ensures old(ValidAt(now)) ==> Valid() && r == Peek(plain, key).Some?
    {
      PruneIfExpired(key, now);
      r := key in values;
      plain := PlainStep(plain.(now := now), Op.Has(key));
      if old(ValidAt(now)) { OperationAgrees(old(State()), old(plain), Op.Has(key), now); }
    }

    /** The plain map holds the value from now on, until its time has come. */
    method Set(key: Key, value: Value, ttl: Option<int>, now: int)
      modifies this
      ensures State() == WithSet(old(State()), key, value, ttl, now)
      ensures plain == PlainStep(old(plain).(now := now), Op.Set(key, value, ttl))
      ensures old(ValidAt(now)) ==> Valid()
    {
      hide Agrees, Prune;
      var revision := (if key in revisions then revisions[key] else 0) + 1;
      revisions := revisions[key := revision];
      values := values[key := Record(value, Expiry(ttl, now), revision)];
      NoteMutation(now);
      plain := PlainStep(plain.(now := now), Op.Set(key, value, ttl));
      if old(ValidAt(now)) { OperationAgrees(old(State()), old(plain), Op.Set(key, value, ttl), now); }
    }

    /** The plain map loses the key; a live entry is always reported, and nothing is that was not set. */
    method Delete(key: Key, now: int) returns (existed: bool)
      modifies this
      ensures State() == WithDelete(old(State()), key, now) && existed == Existed(old(State()), key)
      ensures plain == PlainStep(old(plain).(now := now), Op.Delete(key))
      ensures old(ValidAt(now)) ==>
                && Valid()
                && (Peek(old(plain).(now := now), key).Some? ==> existed) && (existed ==> key in old(plain).entries)
    {
      hide Agrees, Prune;
      existed := key in values;
      values := values - {key};
      revisions := revisions - {key};
      NoteMutation(now);
      plain := PlainStep(plain.(now := now), Op.Delete(key));
      if old(ValidAt(now)) {
        OperationAgrees(old(State()), old(plain), Op.Delete(key), now);
        ExistedIsBetween(old(State()), old(plain), key, now);
      }
    }

    /** The window that the plain map has open for the key, or a new one, with one more use. */
    method IncrementRateLimitAtomically(key: Key, window: int, now: int) returns (r: Bucket)
      modifies this
      ensures State() == WithIncrement(old(State()), key, window, now)
      ensures plain == PlainStep(old(plain).(now := now), Op.Increment(key, window))
      ensures old(ValidAt(now)) ==>
          Valid() && r == plain.buckets[key] && plain.answers == old(plain).answers + [Limited(r)]
    {
      hide Agrees, Prune;
      var current := if key in rateLimitBuckets && rateLimitBuckets[key].resetAt > now then rateLimitBuckets[key]
                     else Bucket(0, now + window);
      r := current.(count := current.count + 1);
      rateLimitBuckets := rateLimitBuckets[key := r];
      NoteMutation(now);
      plain := PlainStep(plain.(now := now), Op.Increment(key, window));
      if old(ValidAt(now)) {
        OperationAgrees(old(State()), old(plain), Op.Increment(key, window), now);
        assert plain.answers[|old(plain).answers|] == Limited(r);
      }
    }
  }
}
