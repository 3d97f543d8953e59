/**
 * Freshness of the generation-fenced cache over every run, and exactly which
 * uses of keys with tag lists have it.
 */
module CacheProofs {
  import opened Common
  import opened CacheService
  import opened CacheProtocol
  import opened StableSort

  /** Of two lists of one length under one key, every tag of either lies on a cycle. */
  ghost predicate AllCircular(uses: Uses) {
    forall key, s, t :: (key, s) in uses && (key, t) in uses && |s| == |t| ==> Circular(s, t)
  }

  // ----- Carrying the invariant across a change of the shared state -----

  lemma CallStays(w: World, v: World, x: Call)
    requires Grows(w.shared, v.shared) && CallOk(w, x)
    requires forall k :: k in w.works ==> k in v.works && v.works[k].since == w.works[k].since
    ensures CallOk(v, x)
  {
    var d, e := w.shared, v.shared;
    forall t ensures Fence(d, t) <= Fence(e, t) {}
    hide Fence, Reflects, Covers, Grows;
    PastStays(d, e, x.tags, x.started);
    match x.phase
    case Reading(seen) =>
    case Looking(g) => PastStays(d, e, x.tags, g);
    case Joining(g) => PastStays(d, e, x.tags, g);
    case Rechecking(g, hit, mark, _) =>
      PastStays(d, e, x.tags, g);
      PastStays(d, e, x.tags, mark);
      CoversStays(d, e, x.tags, mark, g, hit.asOf);
    case Waiting(k) => ReflectsStays(d, e, x.tags, x.started, w.works[k].since);
    case Returned(value, fenced) => ReflectsStays(d, e, x.tags, fenced, value.asOf);
    case Threw =>
  }

  lemma PastStays(d: Shared, e: Shared, tags: seq<Tag>, g: seq<nat>)
    requires Grows(d, e) && Past(d, tags, g)
    ensures Past(e, tags, g)
  {
    forall i | 0 <= i < |tags| ensures Fence(d, tags[i]) <= Fence(e, tags[i]) {}
  }

  lemma BackedStays(d: Shared, e: Shared, uses: Uses, sk: StorageKey, asOf: nat)
    requires Grows(d, e) && Backed(d, uses, sk, asOf)
    ensures Backed(e, uses, sk, asOf)
  {
    var tags :| (sk.key, tags) in uses && Past(d, tags, sk.generations) && Reflects(d, tags, sk.generations, asOf);
    ReflectsStays(d, e, tags, sk.generations, asOf);
  }

  lemma SharedStep(w: World, e: Shared, uses: Uses)
    requires Inv(w, uses) && Grows(w.shared, e) && FencesOk(e) && PayloadOk(e, uses)
    ensures Inv(w.(shared := e), uses)
  {
    var d, v := w.shared, w.(shared := e);
    hide Grows, CallOk, Covers, Reflects, Past, PayloadOk, FencesOk;
    forall c | c in v.calls ensures CallOk(v, v.calls[c]) { CallStays(w, v, w.calls[c]); }
    forall k | k in v.works ensures WorkOk(e, uses, v.works[k]) {
      var x := w.works[k];
      assert WorkOk(d, uses, x);
      ReflectsStays(d, e, x.tags, x.sk.generations, x.since);
    }
    forall c, k | c in v.calls && k in v.works ensures Linked(e, v.calls[c], v.works[k]) {
      LinkStays(w, e, v.calls[c], v.works[k]);
    }
  }

  lemma LinkStays(w: World, e: Shared, x: Call, k: Work)
    requires Grows(w.shared, e) && CallOk(w, x) && Linked(w.shared, x, k)
    ensures Linked(e, x, k)
  {
    hide Grows, Covers;
    if x.key == k.sk.key && |x.tags| == |k.sk.generations| {
      CoversStays(w.shared, e, x.tags, x.started, k.sk.generations, k.since);
    }
  }

  lemma WriteStep(w: World, uses: Uses)
    requires Inv(w, uses)
    ensures Inv(Next(w, Write), uses)
  {
    var d, e := w.shared, Next(w, Write).shared;
    assert forall t :: Fence(e, t) == Fence(d, t);
    forall sk, v | sk in e.payload && v in e.payload[sk] ensures Backed(e, uses, sk, v.asOf) {
      BackedStays(d, e, uses, sk, v.asOf);
    }
    SharedStep(w, e, uses);
  }

  lemma InvalidateStep(w: World, uses: Uses, tag: Tag, write: nat)
    requires Inv(w, uses)
    ensures Inv(Next(w, Invalidate(tag, write)), uses)
  {
    if write <= w.shared.writes {
      var d, e := w.shared, Next(w, Invalidate(tag, write)).shared;
      assert Fence(e, tag) == Fence(d, tag) + [write];
      assert forall t :: t != tag ==> Fence(e, t) == Fence(d, t);
      forall sk, v | sk in e.payload && v in e.payload[sk] ensures Backed(e, uses, sk, v.asOf) {
        BackedStays(d, e, uses, sk, v.asOf);
      }
      SharedStep(w, e, uses);
    }
  }

  // ----- Steps of one call -----

  /** A step that moves one call and nothing else. */
  lemma CallStep(w: World, uses: Uses, c: CallId, phase: Phase)
    requires Inv(w, uses) && c in w.calls
    requires CallOk(w, w.calls[c].(phase := phase))
    ensures Inv(At(w, c, phase), uses)
  {
    hide Covers, Reflects, Past, PayloadOk, WorkOk, FencesOk;
    var v := At(w, c, phase);
    forall a | a in v.calls ensures CallOk(v, v.calls[a]) {
      if a != c { assert CallOk(w, w.calls[a]); }
    }
    forall a, k | a in v.calls && k in v.works ensures Linked(v.shared, v.calls[a], v.works[k]) {
      assert Linked(w.shared, w.calls[a], w.works[k]);
    }
  }

  lemma NewCallOk(w: World, x: Call)
    requires x.started == Now(w.shared, x.tags) && x.phase == Reading(Unseen(|x.tags|))
    ensures CallOk(w, x)
  {
  }

  lemma BeginStep(w: World, uses: Uses, c: CallId, instance: Instance, key: Key, tags: seq<Tag>)
    requires Inv(w, uses) && AllCircular(uses) && (key, tags) in uses
    ensures Inv(Next(w, Begin(c, instance, key, tags)), uses)
  {
    hide CallOk, Linked, WorkOk, PayloadOk, FencesOk, AllCircular;
    var v := Next(w, Begin(c, instance, key, tags));
    if c !in w.calls { NewCallOk(w, v.calls[c]); }
    forall a | a in v.calls ensures CallOk(v, v.calls[a]) {
      CallStays(w, v, v.calls[a]);
    }
    forall a, k | a in v.calls && k in v.works ensures Linked(v.shared, v.calls[a], v.works[k]) {
      if a !in w.calls { BeginLinks(w, uses, v.calls[a], v.works[k]); }
    }
  }

  lemma BeginLinks(w: World, uses: Uses, x: Call, k: Work)
    requires AllCircular(uses) && (x.key, x.tags) in uses && WorkOk(w.shared, uses, k)
    requires x.started == Now(w.shared, x.tags)
    ensures Linked(w.shared, x, k)
  {
    if x.key == k.sk.key && |x.tags| == |k.sk.generations| {
      CycleCovers(w.shared, k.tags, x.tags, k.sk.generations, k.since);
    }
  }

  /** Reading one tag more, in either pass. */
  lemma CallReads(w: World, x: Call, i: nat)
    requires CallOk(w, x)
    ensures var d := w.shared;
            var next := if x.phase.Reading? || x.phase.Rechecking? then See(d, x.tags, x.phase.seen, i) else [];
            && (x.phase.Reading? ==>
                  CallOk(w, x.(phase := if AllSeen(next) then Looking(Values(next)) else Reading(next))))
            && (x.phase.Rechecking? ==>
                  var g := x.phase.generations;
                  CallOk(w, x.(phase := if !AllSeen(next) then x.phase.(seen := next)
                                        else if Values(next) == g then Returned(x.phase.hit, x.phase.mark)
                                        else Joining(g))))
  {
    hide Reflects;
    match x.phase
    case Reading(seen) => assert SeenOk(w.shared, x.tags, x.started, See(w.shared, x.tags, seen, i));
    case Rechecking(g, _, mark, seen) =>
      var next := See(w.shared, x.tags, seen, i);
      assert SeenOk(w.shared, x.tags, mark, next);
      if AllSeen(next) && Values(next) == g {
        assert AtMost(mark, g);
      }
    case _ =>
  }

  lemma ReadStep(w: World, uses: Uses, c: CallId, i: nat)
    requires Inv(w, uses) && c in w.calls
    ensures Inv(Read(w, c, i), uses)
  {
    var x := w.calls[c];
    assert CallOk(w, x);
    hide Inv, CallOk, See, AllSeen, Values;
    if x.phase.Reading? || x.phase.Rechecking? {
      CallReads(w, x, i);
      CallStep(w, uses, c, Read(w, c, i).calls[c].phase);
    }
  }

  lemma LookStep(w: World, uses: Uses, c: CallId, found: Option<Value>)
    requires Inv(w, uses) && AllCircular(uses)
    ensures Inv(Next(w, Look(c, found)), uses)
  {
    var v := Next(w, Look(c, found));
    if c in w.calls && w.calls[c].phase.Looking? && v != w {
      var x := w.calls[c];
      assert CallOk(w, x) && (x.key, x.tags) in uses;
      if found.Some? {
        assert Backed(w.shared, uses, StorageKey(x.key, x.phase.generations), found.value.asOf);
      }
      hide Inv, AllCircular, Backed, CallOk;
      LookOk(w, uses, x, found, v.calls[c].phase);
      CallStep(w, uses, c, v.calls[c].phase);
    }
  }

  lemma LookOk(w: World, uses: Uses, x: Call, found: Option<Value>, next: Phase)
    requires AllCircular(uses) && CallOk(w, x) && x.phase.Looking? && (x.key, x.tags) in uses
    requires found.Some? ==> Backed(w.shared, uses, StorageKey(x.key, x.phase.generations), found.value.asOf)
    requires next == if found.None? then Joining(x.phase.generations)
                     else Rechecking(x.phase.generations, found.value, Now(w.shared, x.tags), Unseen(|x.tags|))
    ensures CallOk(w, x.(phase := next))
  {
    hide AllCircular, Backed, Covers;
    if found.Some? {
      HitCovers(w.shared, uses, StorageKey(x.key, x.phase.generations), x.tags, found.value.asOf);
    }
  }

  /** A value found under a storage key reflects the present, unless the generations have passed the key. */
  lemma HitCovers(d: Shared, uses: Uses, sk: StorageKey, tags: seq<Tag>, asOf: nat)
    requires AllCircular(uses) && (sk.key, tags) in uses && |tags| == |sk.generations| && Backed(d, uses, sk, asOf)
    ensures Covers(d, tags, Now(d, tags), sk.generations, asOf)
  {
    var s :| (sk.key, s) in uses && Past(d, s, sk.generations) && Reflects(d, s, sk.generations, asOf);
    CycleCovers(d, s, tags, sk.generations, asOf);
  }

  lemma JoinStep(w: World, uses: Uses, c: CallId, k: WorkId)
    requires Inv(w, uses)
    ensures Inv(Next(w, Join(c, k)), uses)
  {
    var v := Next(w, Join(c, k));
    if c in w.calls && w.calls[c].phase.Joining? && v != w {
      var x := w.calls[c];
      assert CallOk(w, x);
      var slot := (x.instance, StorageKey(x.key, x.phase.generations));
      if slot in w.inFlight {
        assert Linked(w.shared, x, w.works[w.inFlight[slot]]);
        hide Inv, Reflects;
        CallStep(w, uses, c, v.calls[c].phase);
      } else {
        StartFill(w, uses, c, k);
      }
    }
  }

  /** A fill that starts now reflects everything so far. */
  lemma StartFill(w: World, uses: Uses, c: CallId, k: WorkId)
    requires Inv(w, uses) && c in w.calls && w.calls[c].phase.Joining? && k !in w.works
    requires (w.calls[c].instance, StorageKey(w.calls[c].key, w.calls[c].phase.generations)) !in w.inFlight
    ensures Inv(Next(w, Join(c, k)), uses)
  {
    var v, d, x := Next(w, Join(c, k)), w.shared, w.calls[c];
    hide Reflects, Covers, Past, AtMost, SeenOk, PayloadOk, FencesOk;
    assert CallOk(w, x) && (x.key, x.tags) in uses;
    hide CallOk, Linked, WorkOk;
    StartedFillOk(w, uses, c, k);
    forall a | a in v.calls ensures CallOk(v, v.calls[a]) {
      if a != c { CallStays(w, v, v.calls[a]); }
    }
    forall a, j | a in v.calls && j in v.works ensures Linked(v.shared, v.calls[a], v.works[j]) {
      if j == k {
        LinksNow(w, v.calls[a], w.calls[a], v.works[k]);
      } else {
        LinkMoves(d, w.calls[a], v.calls[a], v.works[j]);
      }
    }
  }

  lemma StartedFillOk(w: World, uses: Uses, c: CallId, k: WorkId)
    requires Inv(w, uses) && c in w.calls && w.calls[c].phase.Joining? && k !in w.works
    requires (w.calls[c].instance, StorageKey(w.calls[c].key, w.calls[c].phase.generations)) !in w.inFlight
    ensures var v := Next(w, Join(c, k));
            WorkOk(v.shared, uses, v.works[k]) && CallOk(v, v.calls[c])
  {
    var v, x := Next(w, Join(c, k)), w.calls[c];
    assert CallOk(w, x) && (x.key, x.tags) in uses;
    FillOk(w.shared, uses, v, k, x);
  }

  lemma FillOk(d: Shared, uses: Uses, v: World, k: WorkId, x: Call)
    requires FencesOk(d) && v.shared == d && k in v.works && (x.key, x.tags) in uses && Past(d, x.tags, x.started)
    requires x.phase.Joining? && Past(d, x.tags, x.phase.generations)
    requires var y := v.works[k];
             y.sk == StorageKey(x.key, x.phase.generations) && y.tags == x.tags && y.since == d.writes
               && y.state.Resolving?
    ensures WorkOk(d, uses, v.works[k]) && CallOk(v, x.(phase := Waiting(k)))
  {
    StartingNowReflects(d, x.tags, x.phase.generations);
    StartingNowReflects(d, x.tags, x.started);
  }

  lemma LinksNow(w: World, x: Call, was: Call, k: Work)
    requires FencesOk(w.shared) && CallOk(w, was) && k.since == w.shared.writes
    requires x.key == was.key && x.tags == was.tags && x.started == was.started
    ensures Linked(w.shared, x, k)
  {
    StartingNowReflects(w.shared, x.tags, x.started);
  }

  lemma LinkMoves(d: Shared, was: Call, x: Call, k: Work)
    requires Linked(d, was, k) && x.key == was.key && x.tags == was.tags && x.started == was.started
    ensures Linked(d, x, k)
  {
    hide Covers;
  }

  lemma FinishStep(w: World, uses: Uses, c: CallId)
    requires Inv(w, uses)
    ensures Inv(Next(w, Finish(c)), uses)
  {
    var v := Next(w, Finish(c));
    if v != w {
      var x := w.calls[c];
      assert CallOk(w, x) && WorkOk(w.shared, uses, w.works[x.phase.work]);
      assert v == At(w, c, v.calls[c].phase).(inFlight := v.inFlight);
      hide Inv;
      FinishOk(w, uses, x, v.calls[c].phase);
      hide CallOk, WorkOk;
      CallStep(w, uses, c, v.calls[c].phase);
      DropSlots(At(w, c, v.calls[c].phase), uses, v.inFlight);
    }
  }

  lemma FinishOk(w: World, uses: Uses, x: Call, next: Phase)
    requires CallOk(w, x) && x.phase.Waiting? && x.phase.work in w.works
        && WorkOk(w.shared, uses, w.works[x.phase.work])
    requires var state := w.works[x.phase.work].state;
             (state.Done? && next == Returned(state.value, x.started)) || (state.Broken? && next == Threw)
    ensures CallOk(w, x.(phase := next))
  {
    hide Past;
  }

  lemma DropSlots(w: World, uses: Uses, inFlight: map<(Instance, StorageKey), WorkId>)
    requires Inv(w, uses)
    requires forall slot :: slot in inFlight ==> slot in w.inFlight && inFlight[slot] == w.inFlight[slot]
    ensures Inv(w.(inFlight := inFlight), uses)
  {
    var v := w.(inFlight := inFlight);
    hide Linked, WorkOk, PayloadOk, FencesOk;
    forall a | a in v.calls ensures CallOk(v, v.calls[a]) {
      assert CallOk(w, w.calls[a]);
    }
  }

  // ----- Steps of one fill -----

  /** A step that moves one fill and nothing else. */
  lemma WorkStep(w: World, uses: Uses, k: WorkId, state: WorkState)
    requires Inv(w, uses) && k in w.works
    requires WorkOk(w.shared, uses, w.works[k].(state := state))
    ensures Inv(StepWork(w, k, state), uses)
  {
    var v := StepWork(w, k, state);
    hide WorkOk, PayloadOk, FencesOk, Covers, Reflects;
    forall a | a in v.calls ensures CallOk(v, v.calls[a]) {
      assert CallOk(w, w.calls[a]);
    }
    forall a, j | a in v.calls && j in v.works ensures Linked(v.shared, v.calls[a], v.works[j]) {
      assert Linked(w.shared, w.calls[a], w.works[j]);
    }
  }

  lemma StoreStep(w: World, uses: Uses, k: WorkId)
    requires Inv(w, uses) && k in w.works && w.works[k].state.Storing?
    ensures Inv(Next(w, Store(k)), uses)
  {
    var x, v := w.works[k], Next(w, Store(k));
    assert WorkOk(w.shared, uses, x);
    var mid := StepWork(w, k, Done(x.state.value));
    WorkStep(w, uses, k, Done(x.state.value));
    assert forall t :: Fence(v.shared, t) == Fence(w.shared, t);
    forall sk, y | sk in v.shared.payload && y in v.shared.payload[sk] ensures Backed(v.shared, uses, sk, y.asOf) {
      if sk in w.shared.payload && y in w.shared.payload[sk] {
        assert Backed(w.shared, uses, sk, y.asOf);
        BackedStays(w.shared, v.shared, uses, sk, y.asOf);
      } else {
        assert sk == x.sk && y == x.state.value && (sk.key, x.tags) in uses;
      }
    }
    SharedStep(mid, v.shared, uses);
    hide Inv;
  }

  lemma StepKeepsInv(w: World, e: Event, uses: Uses)
    requires Inv(w, uses) && AllCircular(uses)
    requires e.Begin? ==> (e.key, e.tags) in uses
    ensures Inv(Next(w, e), uses)
  {
    hide AllCircular;
    match e
    case Write => WriteStep(w, uses);
    case Invalidate(tag, write) => InvalidateStep(w, uses, tag, write);
    case Begin(c, instance, key, tags) => BeginStep(w, uses, c, instance, key, tags);
    case ReadTag(c, i) => if c in w.calls { ReadStep(w, uses, c, i); }
    case Look(c, found) => LookStep(w, uses, c, found);
    case Join(c, k) => JoinStep(w, uses, c, k);
    case Store(k) => if k in w.works && w.works[k].state.Storing? { StoreStep(w, uses, k); }
    case Finish(c) => FinishStep(w, uses, c);
    case FailCall(c) =>
      if c in w.calls && !w.calls[c].phase.Returned? {
        assert CallOk(w, w.calls[c]);
        CallStep(w, uses, c, Threw);
      }
    case Resolve(k, _) => WorkEvent(w, e, k, uses);
    case ReadFence(k, _) => WorkEvent(w, e, k, uses);
    case FailWork(k) => WorkEvent(w, e, k, uses);
  }

  lemma WorkEvent(w: World, e: Event, k: WorkId, uses: Uses)
    requires Inv(w, uses)
    requires (e.Resolve? || e.ReadFence? || e.FailWork?) && e.work == k
    ensures Inv(Next(w, e), uses)
  {
    var v := Next(w, e);
    if v != w {
      assert WorkOk(w.shared, uses, w.works[k]);
      hide Inv, Past, Reflects;
      WorkStep(w, uses, k, v.works[k].state);
    }
  }

  /** Every call of a run uses its key with one of the lists it may be used with. */
  ghost predicate InUse(events: seq<Event>, uses: Uses) {
    forall e :: e in events && e.Begin? ==> (e.key, e.tags) in uses
  }

  lemma {:induction false} ReachedOk(events: seq<Event>, uses: Uses)
    requires InUse(events, uses) && AllCircular(uses)
    ensures Inv(Reached(events), uses)
  {
    if events != [] {
      hide AllCircular;
      ReachedOk(events[..|events| - 1], uses);
      StepKeepsInv(Reached(events[..|events| - 1]), events[|events| - 1], uses);
    }
  }

  // ----- Main results -----

  /** All writes whose invalidation of one of the tags had finished at these generations are in the value. */
  ghost predicate SeesAll(d: Shared, tags: seq<Tag>, generations: seq<nat>, value: Value) {
    && |generations| == |tags|
    && forall i, j :: 0 <= i < |tags| && 0 <= j < generations[i] ==>
         j < |Fence(d, tags[i])| && Fence(d, tags[i])[j] <= value.asOf
  }

  /**
   * Freshness. Whatever getOrSet returns, a hit, a joined resolution or its own,
   * reflects every write whose invalidation of any of the call's tags finished
   * before the call began: every entry of the fences as they were then.
   */
  lemma ReturnedValueIsFresh(before: seq<Event>, call: Event, after: seq<Event>, uses: Uses)
    requires InUse(before + [call] + after, uses) && AllCircular(uses)
    requires call.Begin? && call.c !in Reached(before).calls
    requires var w := Reached(before + [call] + after);
             call.c in w.calls && w.calls[call.c].phase.Returned?
    ensures var value := Reached(before + [call] + after).calls[call.c].phase.value;
            forall tag, j :: tag in call.tags && 0 <= j < |Fence(Reached(before).shared, tag)| ==>
              Fence(Reached(before).shared, tag)[j] <= value.asOf
  {
    var u, w := Reached(before), Reached(before + [call] + after);
    var v := Next(u, call);
    assert (before + [call])[..|before|] == before;
    ExecAppends(INITIAL, before + [call], after);
    RunKeepsCall(v, after, call.c);
    RunFencesGrow(v, after);
    ReachedOk(before + [call] + after, uses);
    var x := w.calls[call.c];
    assert CallOk(w, x);
    assert x.tags == call.tags && x.started == Now(u.shared, call.tags);
    hide Inv, InUse, AllCircular, Exec;
    StartIsReflected(u, v.shared, w, x);
  }

  /** What a returned call reflects includes all that had been invalidated when it began. */
  lemma StartIsReflected(u: World, mid: Shared, w: World, x: Call)
    requires Grows(u.shared, mid) && Grows(mid, w.shared)
    requires CallOk(w, x) && x.phase.Returned? && x.started == Now(u.shared, x.tags)
    ensures forall tag, j :: tag in x.tags && 0 <= j < |Fence(u.shared, tag)| ==>
              Fence(u.shared, tag)[j] <= x.phase.value.asOf
  {
    assert Past(w.shared, x.tags, x.phase.fenced) && AtMost(x.started, x.phase.fenced);
    forall tag, j | tag in x.tags && 0 <= j < |Fence(u.shared, tag)|
      ensures Fence(u.shared, tag)[j] <= x.phase.value.asOf
    {
      var i :| 0 <= i < |x.tags| && x.tags[i] == tag;
      assert Fence(u.shared, tag) <= Fence(mid, tag) <= Fence(w.shared, tag);
      assert Fence(w.shared, x.tags[i])[j] == Fence(u.shared, tag)[j];
    }
  }

  lemma GrowsChains(a: Shared, b: Shared, c: Shared)
    requires Grows(a, b) && Grows(b, c)
    ensures Grows(a, c)
  {
    forall t ensures Fence(a, t) <= Fence(c, t) {
      assert Fence(a, t) <= Fence(b, t) <= Fence(c, t);
    }
  }

  lemma {:induction false} RunFencesGrow(w: World, more: seq<Event>)
    ensures Grows(w.shared, Exec(w, more).shared)
  {
    if more != [] {
      var mid := Exec(w, more[..|more| - 1]);
      RunFencesGrow(w, more[..|more| - 1]);
      GrowsChains(w.shared, mid.shared, Exec(w, more).shared);
    }
  }

  /**
   * A hit is fresher: it reflects every write whose invalidation finished before
   * the call began its second reading of the generations.
   */
  lemma HitIsFreshAtRecheck(events: seq<Event>, uses: Uses, c: CallId, i: nat)
    requires InUse(events, uses) && AllCircular(uses)
    requires c in Reached(events).calls && Reached(events).calls[c].phase.Rechecking?
    requires Read(Reached(events), c, i).calls[c].phase.Returned?
    ensures var w := Reached(events);
            var after := Read(w, c, i).calls[c];
            && after.phase.fenced == w.calls[c].phase.mark
            && SeesAll(w.shared, after.tags, w.calls[c].phase.mark, after.phase.value)
  {
    ReachedOk(events, uses);
    var w := Reached(events);
    assert CallOk(w, w.calls[c]);
    hide Inv, InUse, AllCircular, Exec;
    HitSeesAll(w, c, i);
  }

  lemma HitSeesAll(w: World, c: CallId, i: nat)
    requires c in w.calls && CallOk(w, w.calls[c]) && w.calls[c].phase.Rechecking?
    requires Read(w, c, i).calls[c].phase.Returned?
    ensures var after, mark := Read(w, c, i).calls[c], w.calls[c].phase.mark;
            after.phase.fenced == mark && SeesAll(w.shared, after.tags, mark, after.phase.value)
  {
    hide Covers;
    var x := w.calls[c];
    CallReads(w, x, i);
    var mark := x.phase.mark;
    assert Past(w.shared, x.tags, mark) && Reflects(w.shared, x.tags, mark, x.phase.hit.asOf);
  }

  /** The call is still there, with the tags and the start vector it had. */
  ghost predicate SameCall(w: World, v: World, c: CallId) {
    c in w.calls ==> c in v.calls && v.calls[c].started == w.calls[c].started && v.calls[c].tags == w.calls[c].tags
  }

  lemma StepKeepsCall(w: World, e: Event, c: CallId)
    ensures SameCall(w, Next(w, e), c)
  {
  }

  lemma {:induction false} RunKeepsCall(w: World, more: seq<Event>, c: CallId)
    ensures SameCall(w, Exec(w, more), c)
  {
    if more != [] {
      var mid, last := Exec(w, more[..|more| - 1]), more[|more| - 1];
      RunKeepsCall(w, more[..|more| - 1], c);
      StepKeepsCall(mid, last, c);
    }
  }

  lemma Last(w: World, events: seq<Event>, i: nat)
    requires i < |events|
    ensures Exec(w, events[..i + 1]) == Next(Exec(w, events[..i]), events[i])
  {
    assert events[..i + 1][..i] == events[..i];
  }

  lemma {:induction false} ExecAppends(w: World, first: seq<Event>, second: seq<Event>)
    ensures Exec(w, first + second) == Exec(Exec(w, first), second)
  {
    if second == [] {
      assert first + second == first;
    } else {
      assert (first + second)[..|first + second| - 1] == first + second[..|second| - 1];
      ExecAppends(w, first, second[..|second| - 1]);
    }
  }

  // ----- The end of a fill -----

  /** The resolver of a fill answers once, with a value no older than the fill; any other answer is ignored. */
  lemma ResolvesOnce(w: World, k: WorkId, value: Value)
    requires k in w.works
    ensures var x, v := w.works[k], Next(w, Resolve(k, value));
            v == if x.state == Resolving && x.since <= value.asOf <= w.shared.writes
                 then w.(works := w.works[k := x.(state := Fencing(value, seq(|x.tags|, _ => None)))]) else w
  {
    assert Unseen(|w.works[k].tags|) == seq(|w.works[k].tags|, _ => None);
  }

  /**
   * A call that waits for a fill returns its value once it is done, and throws once
   * it broke. The caller that started the fill then takes it out of the table of
   * fills in flight, unless another has taken its place; the others leave it there.
   */
  lemma FinishFreesSlot(w: World, c: CallId, k: WorkId)
    requires c in w.calls && w.calls[c].phase == Waiting(k) && k in w.works
    requires w.works[k].state.Done? || w.works[k].state.Broken?
    ensures var x, work, v := w.calls[c], w.works[k], Next(w, Finish(c));
            var slot := (work.instance, work.sk);
            && v.shared == w.shared && v.works == w.works
            && v.calls == w.calls[c := x.(phase :=
                 if work.state.Done? then Returned(work.state.value, x.started) else Threw)]
            && (forall s :: s in v.inFlight ==> s in w.inFlight && v.inFlight[s] == w.inFlight[s])
            && (forall s :: s in w.inFlight && s !in v.inFlight <==>
                  s == slot && slot in w.inFlight && work.starter == c && w.inFlight[slot] == k)
  {
  }

  /** What is returned, and what a fill has finished, no later failure takes back. */
  lemma FailuresSpareTheFinished(w: World, c: CallId, k: WorkId)
    ensures Next(w, FailCall(c))
            == if c in w.calls && !w.calls[c].phase.Returned?
               then w.(calls := w.calls[c := w.calls[c].(phase := Threw)]) else w
    ensures Next(w, FailWork(k))
            == if k in w.works && !w.works[k].state.Done?
               then w.(works := w.works[k := w.works[k].(state := Broken)]) else w
  {
  }
}
