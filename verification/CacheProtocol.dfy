/**
 * Readers, writers and fills racing over a generation-fenced cache.
 *
 * Writes are numbered as they commit. Invalidating a tag appends the number of
 * the write it is made for to the tag's fence list; the tag's generation is the
 * length of that list. A call reads the generation of each tag in its own step,
 * in any order; the payload store may return any value ever set under a storage
 * key, or miss, so it may be eventually consistent, evict and expire.
 */
module CacheProtocol {
  import opened Common
  import opened CacheService

  type CallId = nat
  type WorkId = nat
  type Instance = nat

  datatype Shared = Shared(writes: nat, fences: map<Tag, seq<nat>>, payload: map<StorageKey, set<Value>>)

  datatype Phase =
    | Reading(seen: seq<Option<nat>>)
    | Looking(generations: seq<nat>)
    | Rechecking(generations: seq<nat>, hit: Value, mark: seq<nat>, seen: seq<Option<nat>>)
    | Joining(generations: seq<nat>)
    | Waiting(work: WorkId)
    | Returned(value: Value, fenced: seq<nat>)
    | Threw

  /**
   * One getOrSet. `started` and a hit's `mark` are not known to the program:
   * they record the generations when the call began and when its second reading
   * began. `Returned.fenced` is the later of the two that applies.
   */
  datatype Call = Call(instance: Instance, key: Key, tags: seq<Tag>, started: seq<nat>, phase: Phase)

  datatype WorkState =
    | Resolving
    | Fencing(value: Value, seen: seq<Option<nat>>)
    | Storing(value: Value)
    | Done(value: Value)
    | Broken

  /** A shared in-flight resolution. `since` is the number of writes committed when the resolver started. */
  datatype Work = Work(instance: Instance, sk: StorageKey, tags: seq<Tag>, starter: CallId, since: nat,
    state: WorkState)

  datatype World = World(
    shared: Shared,
    calls: map<CallId, Call>,
    works: map<WorkId, Work>,
    inFlight: map<(Instance, StorageKey), WorkId>)

  datatype Event =
    | Write
    | Invalidate(tag: Tag, write: nat)
    | Begin(c: CallId, instance: Instance, key: Key, tags: seq<Tag>)
    | ReadTag(c: CallId, i: nat)
    | Look(c: CallId, found: Option<Value>)
    | Join(c: CallId, work: WorkId)
    | Resolve(work: WorkId, value: Value)
    | ReadFence(work: WorkId, i: nat)
    | Store(work: WorkId)
    | Finish(c: CallId)
    | FailCall(c: CallId)
    | FailWork(work: WorkId)

  const INITIAL := World(Shared(0, map[], map[]), map[], map[], map[])

  function Fence(d: Shared, tag: Tag): seq<nat> {
    if tag in d.fences then d.fences[tag] else []
  }

  /** The generations of the tags, all at this instant. */
  function Now(d: Shared, tags: seq<Tag>): (r: seq<nat>)
    ensures |r| == |tags|
    ensures forall i :: 0 <= i < |tags| ==> r[i] == |Fence(d, tags[i])|
  {
    seq(|tags|, i requires 0 <= i < |tags| => |Fence(d, tags[i])|)
  }

  function Unseen(n: nat): (r: seq<Option<nat>>)
    ensures |r| == n && forall i :: 0 <= i < n ==> r[i] == None
  {
    seq(n, i => None)
  }

  predicate AllSeen(seen: seq<Option<nat>>) {
    forall i :: 0 <= i < |seen| ==> seen[i].Some?
  }

  function Values(seen: seq<Option<nat>>): (r: seq<nat>)
    requires AllSeen(seen)
    ensures |r| == |seen| && forall i :: 0 <= i < |seen| ==> seen[i] == Some(r[i])
  {
    seq(|seen|, i requires 0 <= i < |seen| => seen[i].value)
  }

  function See(d: Shared, tags: seq<Tag>, seen: seq<Option<nat>>, i: nat): (r: seq<Option<nat>>)
    ensures |r| == |seen|
  {
    if i < |seen| && i < |tags| && seen[i].None? then seen[i := Some(|Fence(d, tags[i])|)] else seen
  }

  function At(w: World, c: CallId, phase: Phase): World
    requires c in w.calls
  {
    w.(calls := w.calls[c := w.calls[c].(phase := phase)])
  }

  function StepWork(w: World, k: WorkId, state: WorkState): World
    requires k in w.works
  {
    w.(works := w.works[k := w.works[k].(state := state)])
  }

  /** After a tag read: move on once every tag has been read. */
  function Read(w: World, c: CallId, i: nat): World
    requires c in w.calls
  {
    var x := w.calls[c];
    match x.phase
    case Reading(seen) =>
      var next := See(w.shared, x.tags, seen, i);
      At(w, c, if AllSeen(next) then Looking(Values(next)) else Reading(next))
    case Rechecking(generations, hit, mark, seen) =>
      var next := See(w.shared, x.tags, seen, i);
      At(w, c, if !AllSeen(next) then Rechecking(generations, hit, mark, next)
               else if Values(next) == generations then Returned(hit, mark)
               else Joining(generations))
    case _ => w
  }

  function Next(w: World, e: Event): World {
    var d := w.shared;
    match e
    case Write => w.(shared := d.(writes := d.writes + 1))
    case Invalidate(tag, write) =>
      if write > d.writes then w
      else w.(shared := d.(fences := d.fences[tag := Fence(d, tag) + [write]]))
    case Begin(c, instance, key, tags) =>
      if c in w.calls then w
      else w.(calls := w.calls[c := Call(instance, key, tags, Now(d, tags), Reading(Unseen(|tags|)))])
    case ReadTag(c, i) => if c in w.calls then Read(w, c, i) else w
    case Look(c, found) =>
      if c in w.calls && w.calls[c].phase.Looking? then
        var x := w.calls[c];
        var sk := StorageKey(x.key, x.phase.generations);
        if found.None? then At(w, c, Joining(x.phase.generations))
        else if sk in d.payload && found.value in d.payload[sk] then
          At(w, c, Rechecking(x.phase.generations, found.value, Now(d, x.tags), Unseen(|x.tags|)))
        else w
      else w
    case Join(c, k) =>
      if c in w.calls && w.calls[c].phase.Joining? then
        var x := w.calls[c];
        var slot := (x.instance, StorageKey(x.key, x.phase.generations));
        if slot in w.inFlight then At(w, c, Waiting(w.inFlight[slot]))
        else if k in w.works then w
        else At(w, c, Waiting(k)).(
          works := w.works[k := Work(x.instance, slot.1, x.tags, c, d.writes, Resolving)],
          inFlight := w.inFlight[slot := k])
      else w
    case Resolve(k, value) =>
      if k in w.works && w.works[k].state.Resolving? && w.works[k].since <= value.asOf <= d.writes then
        StepWork(w, k, Fencing(value, Unseen(|w.works[k].tags|)))
      else w
    case ReadFence(k, i) =>
      if k in w.works && w.works[k].state.Fencing? then
        var x := w.works[k];
        var next := See(d, x.tags, x.state.seen, i);
        StepWork(w, k, if !AllSeen(next) then Fencing(x.state.value, next)
                       else if Values(next) == x.sk.generations then Storing(x.state.value)
                       else Done(x.state.value))
      else w
    case Store(k) =>
      if k in w.works && w.works[k].state.Storing? then
        var x := w.works[k];
        var kept := if x.sk in d.payload then d.payload[x.sk] else {};
        StepWork(w, k, Done(x.state.value)).(
          shared := d.(payload := d.payload[x.sk := kept + {x.state.value}]))
      else w
    case Finish(c) =>
      if c in w.calls && w.calls[c].phase.Waiting? && w.calls[c].phase.work in w.works then
        var x, k := w.calls[c], w.calls[c].phase.work;
        var work := w.works[k];
        var slot := (work.instance, work.sk);
        var inFlight := if work.starter == c && slot in w.inFlight && w.inFlight[slot] == k
                        then w.inFlight - {slot} else w.inFlight;
        match work.state
        case Done(value) => At(w, c, Returned(value, x.started)).(inFlight := inFlight)
        case Broken => At(w, c, Threw).(inFlight := inFlight)
        case _ => w
      else w
    case FailCall(c) =>
      if c in w.calls && !w.calls[c].phase.Returned? then At(w, c, Threw) else w
    case FailWork(k) =>
      if k in w.works && !w.works[k].state.Done? then StepWork(w, k, Broken) else w
  }

  function Exec(w: World, events: seq<Event>): World {
    if events == [] then w
    else Next(Exec(w, events[..|events| - 1]), events[|events| - 1])
  }

  function Reached(events: seq<Event>): World {
    Exec(INITIAL, events)
  }

  // ----- The invariant -----

  /** Every write whose invalidation is among the first `generations[i]` of tag i is visible at `asOf`. */
  ghost predicate Reflects(d: Shared, tags: seq<Tag>, generations: seq<nat>, asOf: nat) {
    && |generations| == |tags|
    && forall i, j :: 0 <= i < |tags| && 0 <= j < generations[i] && j < |Fence(d, tags[i])| ==>
         Fence(d, tags[i])[j] <= asOf
  }

  /** The vector was read no later than now. */
  ghost predicate Past(d: Shared, tags: seq<Tag>, generations: seq<nat>) {
    && |generations| == |tags|
    && forall i :: 0 <= i < |tags| ==> generations[i] <= |Fence(d, tags[i])|
  }

  ghost predicate AtMost(a: seq<nat>, b: seq<nat>) {
    |a| == |b| && forall i :: 0 <= i < |a| ==> a[i] <= b[i]
  }

  ghost predicate SeenOk(d: Shared, tags: seq<Tag>, floor: seq<nat>, seen: seq<Option<nat>>) {
    && |floor| == |seen| == |tags|
    && forall i :: 0 <= i < |seen| && seen[i].Some? ==> floor[i] <= seen[i].value <= |Fence(d, tags[i])|
  }

  /** The lists of tags each key is used with. */
  type Uses = iset<(Key, seq<Tag>)>

  /**
   * The value reflects all that was invalidated at `floor`, unless `floor` has
   * somewhere passed what the storage key holds.
   */
  ghost predicate Covers(d: Shared, tags: seq<Tag>, floor: seq<nat>, stored: seq<nat>, asOf: nat) {
    AtMost(floor, stored) ==> Reflects(d, tags, floor, asOf)
  }

  ghost predicate CallOk(w: World, x: Call) {
    var d := w.shared;
    && Past(d, x.tags, x.started)
    && match x.phase
       case Reading(seen) => SeenOk(d, x.tags, x.started, seen)
       case Looking(g) => AtMost(x.started, g) && Past(d, x.tags, g)
       case Rechecking(g, hit, mark, seen) =>
         && AtMost(x.started, g) && Past(d, x.tags, g)
         && Covers(d, x.tags, mark, g, hit.asOf)
         && AtMost(x.started, mark) && Past(d, x.tags, mark)
         && SeenOk(d, x.tags, mark, seen)
       case Joining(g) => AtMost(x.started, g) && Past(d, x.tags, g)
       case Waiting(k) => k in w.works && Reflects(d, x.tags, x.started, w.works[k].since)
       case Returned(value, fenced) =>
         && AtMost(x.started, fenced) && Past(d, x.tags, fenced)
         && Reflects(d, x.tags, fenced, value.asOf)
       case Threw => true
  }

  ghost predicate WorkOk(d: Shared, uses: Uses, x: Work) {
    && (x.sk.key, x.tags) in uses
    && Past(d, x.tags, x.sk.generations)
    && Reflects(d, x.tags, x.sk.generations, x.since)
    && match x.state
       case Fencing(value, seen) => x.since <= value.asOf && |seen| == |x.tags|
       case Storing(value) => x.since <= value.asOf
       case Done(value) => x.since <= value.asOf
       case _ => true
  }

  /** Some list the key is used with had these generations, and the value reflects them. */
  ghost predicate Backed(d: Shared, uses: Uses, sk: StorageKey, asOf: nat) {
    exists tags :: (sk.key, tags) in uses && Past(d, tags, sk.generations) && Reflects(d, tags, sk.generations, asOf)
  }

  ghost predicate PayloadOk(d: Shared, uses: Uses) {
    forall sk, v :: sk in d.payload && v in d.payload[sk] ==> Backed(d, uses, sk, v.asOf)
  }

  ghost predicate FencesOk(d: Shared) {
    forall t, j :: 0 <= j < |Fence(d, t)| ==> Fence(d, t)[j] <= d.writes
  }

  /** A call may join any fill under its key: one too old for it holds smaller generations. */
  ghost predicate Linked(d: Shared, x: Call, k: Work) {
    x.key == k.sk.key && |x.tags| == |k.sk.generations| ==> Covers(d, x.tags, x.started, k.sk.generations, k.since)
  }

  ghost predicate Inv(w: World, uses: Uses) {
    && FencesOk(w.shared)
    && PayloadOk(w.shared, uses)
    && (forall c :: c in w.calls ==> CallOk(w, w.calls[c]) && (w.calls[c].key, w.calls[c].tags) in uses)
    && (forall k :: k in w.works ==> WorkOk(w.shared, uses, w.works[k]))
    && (forall c, k :: c in w.calls && k in w.works ==> Linked(w.shared, w.calls[c], w.works[k]))
    && (forall slot :: slot in w.inFlight ==>
          w.inFlight[slot] in w.works && w.works[w.inFlight[slot]].sk == slot.1)
  }

  // ----- Fences only grow -----

  ghost predicate Grows(d: Shared, e: Shared) {
    d.writes <= e.writes && forall t :: Fence(d, t) <= Fence(e, t)
  }

  lemma ReflectsStays(d: Shared, e: Shared, tags: seq<Tag>, g: seq<nat>, asOf: nat)
    requires Grows(d, e) && Past(d, tags, g) && Reflects(d, tags, g, asOf)
    ensures Past(e, tags, g) && Reflects(e, tags, g, asOf)
  {
    forall i | 0 <= i < |tags| ensures Fence(d, tags[i]) <= Fence(e, tags[i]) {}
  }

  /** Whatever was read by now is visible to a resolver that starts now. */
  lemma StartingNowReflects(d: Shared, tags: seq<Tag>, g: seq<nat>)
    requires FencesOk(d) && |g| == |tags|
    ensures Reflects(d, tags, g, d.writes)
  {
  }

  lemma CoversStays(d: Shared, e: Shared, tags: seq<Tag>, floor: seq<nat>, stored: seq<nat>, asOf: nat)
    requires Grows(d, e) && Past(d, tags, floor) && Covers(d, tags, floor, stored, asOf)
    ensures Covers(e, tags, floor, stored, asOf)
  {
    if Reflects(d, tags, floor, asOf) { ReflectsStays(d, e, tags, floor, asOf); }
  }

  // ----- Two lists under one key -----

  /**
   * Positions, each with the tag in the second list that the position before it
   * has in the first: a step goes from a tag of the second list to the tag whose
   * generation is taken for its own.
   */
  predicate IsTrail(s: seq<Tag>, t: seq<Tag>, path: seq<nat>) {
    && path != []
    && (forall k :: 0 <= k < |path| ==> path[k] < |s| && path[k] < |t|)
    && (forall k :: 0 < k < |path| ==> t[path[k]] == s[path[k - 1]])
  }

  ghost predicate Leads(s: seq<Tag>, t: seq<Tag>, x: Tag, y: Tag) {
    exists path :: IsTrail(s, t, path) && t[path[0]] == x && s[path[|path| - 1]] == y
  }

  /** Every tag of the second list lies on a cycle of such steps. */
  ghost predicate Circular(s: seq<Tag>, t: seq<Tag>) {
    forall x :: x in t ==> Leads(s, t, x, x)
  }

  lemma {:induction false} TrailStaysInside(s: seq<Tag>, t: seq<Tag>, path: seq<nat>, inside: set<Tag>)
    requires IsTrail(s, t, path)
    requires forall i :: 0 <= i < |s| && i < |t| && (t[i] == t[path[0]] || t[i] in inside) ==> s[i] in inside
    ensures s[path[|path| - 1]] in inside
  {
    if |path| > 1 { TrailStaysInside(s, t, path[..|path| - 1], inside); }
  }

  /** Along a cycle nothing was invalidated since, where the storage key keeps up. */
  lemma CycleIsCovered(d: Shared, s: seq<Tag>, t: seq<Tag>, g: seq<nat>, x: Tag) returns (k: nat)
    requires |s| == |t| && Leads(s, t, x, x) && Past(d, s, g) && AtMost(Now(d, t), g)
    ensures k < |s| && s[k] == x && |Fence(d, x)| <= g[k]
  {
    hide Fence;
    var inside := set i | 0 <= i < |s| && g[i] >= |Fence(d, x)| :: s[i];
    var path :| IsTrail(s, t, path) && t[path[0]] == x && s[path[|path| - 1]] == x;
    forall i | 0 <= i < |s| && (t[i] == x || t[i] in inside) ensures s[i] in inside {
      assert |Fence(d, x)| <= Now(d, t)[i] <= g[i];
    }
    TrailStaysInside(s, t, path, inside);
    k :| 0 <= k < |s| && g[k] >= |Fence(d, x)| && s[k] == x;
  }

  /**
   * The instant a list is read at, against a value stored under the generations
   * of another list: generations only grow, so where the storage key still keeps
   * up, nothing was invalidated along a cycle since, and the value reflects it.
   */
  lemma CycleCovers(d: Shared, s: seq<Tag>, t: seq<Tag>, g: seq<nat>, asOf: nat)
    requires |s| == |t| && Circular(s, t) && Past(d, s, g) && Reflects(d, s, g, asOf)
    ensures Covers(d, t, Now(d, t), g, asOf)
  {
    hide Leads, Fence;
    if AtMost(Now(d, t), g) {
      forall i, j | 0 <= i < |t| && 0 <= j < |Fence(d, t[i])| ensures Fence(d, t[i])[j] <= asOf {
        var k := CycleIsCovered(d, s, t, g, t[i]);
      }
    }
  }
}
