/**
 * Runs that serve stale values: storage keys hold generations but not tag names,
 * so two lists of one length under one key can be taken for each other.
 */
module CacheUses {
  import opened Common
  import opened CacheService
  import opened CacheProtocol
  import opened CacheProofs
  import opened StableSort

  /**
   * A call that begins after `before` and returns by the end of `after`, with a value
   * that misses an invalidated write.
   */
  ghost predicate Stale(before: seq<Event>, call: Event, after: seq<Event>) {
    var d, w := Reached(before).shared, Reached(before + [call] + after);
    && call.Begin? && call.c !in Reached(before).calls
    && call.c in w.calls && w.calls[call.c].phase.Returned?
    && exists tag, j ::
         tag in call.tags && 0 <= j < |Fence(d, tag)| && Fence(d, tag)[j] > w.calls[call.c].phase.value.asOf
  }

  /** No run with these uses returns a stale value. */
  ghost predicate AlwaysFresh(uses: Uses) {
    forall before, call, after :: InUse(before + [call] + after, uses) ==> !Stale(before, call, after)
  }

  // ----- Reading a list to its end -----

  /** What has been seen after the first n reads. */
  function SeenTo(d: Shared, tags: seq<Tag>, n: nat): (r: seq<Option<nat>>)
    ensures |r| == |tags|
  {
    seq(|tags|, i requires 0 <= i < |tags| => if i < n then Some(|Fence(d, tags[i])|) else None)
  }

  lemma SeesNext(d: Shared, tags: seq<Tag>, n: nat)
    requires n < |tags|
    ensures See(d, tags, SeenTo(d, tags, n), n) == SeenTo(d, tags, n + 1)
    ensures AllSeen(SeenTo(d, tags, n + 1)) <==> n + 1 == |tags|
    ensures AllSeen(SeenTo(d, tags, |tags|)) && Values(SeenTo(d, tags, |tags|)) == Now(d, tags)
  {
    hide Fence;
    if n + 1 < |tags| { assert SeenTo(d, tags, n + 1)[n + 1].None?; }
  }

  lemma NothingSeen(d: Shared, tags: seq<Tag>)
    ensures SeenTo(d, tags, 0) == Unseen(|tags|)
  {
  }

  function Reads(c: CallId, n: nat): (r: seq<Event>)
    ensures |r| == n
  {
    seq(n, i requires 0 <= i < n => ReadTag(c, i))
  }

  function FenceReads(k: WorkId, n: nat): (r: seq<Event>)
    ensures |r| == n
  {
    seq(n, i requires 0 <= i < n => ReadFence(k, i))
  }

  /** Where a first reading stands after n reads. */
  function FirstPass(d: Shared, tags: seq<Tag>, n: nat): Phase {
    if n < |tags| then Reading(SeenTo(d, tags, n)) else Looking(Now(d, tags))
  }

  /** Where a second reading stands after n reads that find the same generations. */
  function SecondPass(d: Shared, tags: seq<Tag>, hit: Value, n: nat): Phase {
    if n < |tags| then Rechecking(Now(d, tags), hit, Now(d, tags), SeenTo(d, tags, n)) else Returned(hit, Now(d, tags))
  }

  lemma AtTwice(w: World, c: CallId, a: Phase, b: Phase)
    requires c in w.calls
    ensures At(At(w, c, a), c, b) == At(w, c, b)
  {
  }

  lemma FirstPassNext(w: World, c: CallId, n: nat)
    requires c in w.calls && n < |w.calls[c].tags|
    ensures var x, d := w.calls[c], w.shared;
            Read(At(w, c, FirstPass(d, x.tags, n)), c, n) == At(w, c, FirstPass(d, x.tags, n + 1))
  {
    var x, d := w.calls[c], w.shared;
    SeesNext(d, x.tags, n);
    hide See, SeenTo, AllSeen, Values, Now;
    AtTwice(w, c, FirstPass(d, x.tags, n), FirstPass(d, x.tags, n + 1));
  }

  lemma SecondPassNext(w: World, c: CallId, hit: Value, n: nat)
    requires c in w.calls && n < |w.calls[c].tags|
    ensures var x, d := w.calls[c], w.shared;
            Read(At(w, c, SecondPass(d, x.tags, hit, n)), c, n) == At(w, c, SecondPass(d, x.tags, hit, n + 1))
  {
    var x, d := w.calls[c], w.shared;
    SeesNext(d, x.tags, n);
    hide See, SeenTo, AllSeen, Values, Now;
    AtTwice(w, c, SecondPass(d, x.tags, hit, n), SecondPass(d, x.tags, hit, n + 1));
  }

  /** Reading every tag in turn, with nobody in between. */
  lemma {:induction false} ReadsOnce(w: World, c: CallId, n: nat)
    requires c in w.calls && n <= |w.calls[c].tags| && 0 < |w.calls[c].tags|
    requires w.calls[c].phase == Reading(Unseen(|w.calls[c].tags|))
    ensures Exec(w, Reads(c, n)) == At(w, c, FirstPass(w.shared, w.calls[c].tags, n))
  {
    NothingSeen(w.shared, w.calls[c].tags);
    hide SeenTo, Now, Unseen;
    if n > 0 {
      hide FirstPass, Read, At;
      ReadsOnce(w, c, n - 1);
      Last(w, Reads(c, n), n - 1);
      assert Reads(c, n)[..n - 1] == Reads(c, n - 1) && Reads(c, n)[..n] == Reads(c, n);
      FirstPassNext(w, c, n - 1);
      AtHas(w, c, FirstPass(w.shared, w.calls[c].tags, n - 1));
    } else {
      assert Exec(w, Reads(c, 0)) == w;
    }
  }

  lemma AtHas(w: World, c: CallId, phase: Phase)
    requires c in w.calls
    ensures c in At(w, c, phase).calls
  {
  }

  lemma {:induction false} ReadsAgain(w: World, c: CallId, hit: Value, n: nat)
    requires c in w.calls && n <= |w.calls[c].tags| && 0 < |w.calls[c].tags|
    requires var g := Now(w.shared, w.calls[c].tags);
             w.calls[c].phase == Rechecking(g, hit, g, Unseen(|w.calls[c].tags|))
    ensures Exec(w, Reads(c, n)) == At(w, c, SecondPass(w.shared, w.calls[c].tags, hit, n))
  {
    NothingSeen(w.shared, w.calls[c].tags);
    if n > 0 {
      hide SecondPass, Read, At;
      ReadsAgain(w, c, hit, n - 1);
      Last(w, Reads(c, n), n - 1);
      assert Reads(c, n)[..n - 1] == Reads(c, n - 1) && Reads(c, n)[..n] == Reads(c, n);
      SecondPassNext(w, c, hit, n - 1);
      AtHas(w, c, SecondPass(w.shared, w.calls[c].tags, hit, n - 1));
    } else {
      assert Exec(w, Reads(c, 0)) == w;
    }
  }

  /** Where the fence reading of a fill stands after n reads, with nobody in between. */
  function FencePass(d: Shared, x: Work, value: Value, n: nat): WorkState {
    if n < |x.tags| then Fencing(value, SeenTo(d, x.tags, n))
    else if Now(d, x.tags) == x.sk.generations then Storing(value)
    else Done(value)
  }

  lemma FencePassNext(w: World, k: WorkId, value: Value, n: nat)
    requires k in w.works && n < |w.works[k].tags|
    ensures var x, d := w.works[k], w.shared;
            Next(StepWork(w, k, FencePass(d, x, value, n)), ReadFence(k, n))
            == StepWork(w, k, FencePass(d, x, value, n + 1))
  {
    var x, d := w.works[k], w.shared;
    SeesNext(d, x.tags, n);
    hide See, SeenTo, AllSeen, Values, Now;
    var mid, after := StepWork(w, k, FencePass(d, x, value, n)), FencePass(d, x, value, n + 1);
    assert StepWork(mid, k, after) == StepWork(w, k, after);
  }

  lemma {:induction false} FencesOnce(w: World, k: WorkId, value: Value, n: nat)
    requires k in w.works && n <= |w.works[k].tags| && 0 < |w.works[k].tags|
    requires w.works[k].state == Fencing(value, Unseen(|w.works[k].tags|))
    ensures Exec(w, FenceReads(k, n)) == StepWork(w, k, FencePass(w.shared, w.works[k], value, n))
  {
    NothingSeen(w.shared, w.works[k].tags);
    if n > 0 {
      hide FencePass, Next, StepWork;
      FencesOnce(w, k, value, n - 1);
      Last(w, FenceReads(k, n), n - 1);
      assert FenceReads(k, n)[..n - 1] == FenceReads(k, n - 1) && FenceReads(k, n)[..n] == FenceReads(k, n);
      FencePassNext(w, k, value, n - 1);
    } else {
      assert Exec(w, FenceReads(k, 0)) == w;
    }
  }

  // ----- The stale run -----

  const OLD := Value("old", 0)

  function Invalidations(tags: seq<Tag>): (r: seq<Event>)
    ensures |r| == |tags|
  {
    seq(|tags|, i requires 0 <= i < |tags| => Invalidate(tags[i], 0))
  }

  /** Distinct tags invalidated once each, while nothing has been invalidated yet. */
  lemma {:induction false} InvalidatesOnce(w: World, tags: seq<Tag>)
    requires Distinct(tags) && forall t :: Fence(w.shared, t) == []
    ensures var v := Exec(w, Invalidations(tags));
            && v == w.(shared := w.shared.(fences := v.shared.fences))
            && forall t :: Fence(v.shared, t) == if t in tags then [0] else []
  {
    if tags == [] {
      assert Exec(w, Invalidations([])) == w;
    } else {
      var n := |tags| - 1;
      InvalidatesOnce(w, tags[..n]);
      assert Invalidations(tags)[..n] == Invalidations(tags[..n]);
      assert tags == tags[..n] + [tags[n]];
      var v := Exec(w, Invalidations(tags[..n]));
      assert tags[n] !in tags[..n];
      assert Fence(v.shared, tags[n]) == [] && [] + [0] == [0];
      assert forall t :: t in tags <==> t in tags[..n] || t == tags[n];
    }
  }

  /** Each element once. */
  function Once(xs: seq<Tag>): (r: seq<Tag>)
    ensures Distinct(r)
    ensures forall x :: x in r <==> x in xs
  {
    if xs == [] then []
    else
      var rest, last := Once(xs[..|xs| - 1]), xs[|xs| - 1];
      assert forall x :: x in xs <==> x in xs[..|xs| - 1] || x == last;
      if last in rest then rest else rest + [last]
  }

  /** The tags of both lists but one, each once. */
  function AllBut(s: seq<Tag>, t: seq<Tag>, late: Tag): seq<Tag> {
    Once(Where(s + t, x => x != late))
  }

  function Ones(n: nat): (r: seq<nat>)
    ensures |r| == n && forall i :: 0 <= i < n ==> r[i] == 1
  {
    seq(n, i => 1)
  }

  lemma AllOnes(d: Shared, tags: seq<Tag>)
    requires forall x :: x in tags ==> |Fence(d, x)| == 1
    ensures Now(d, tags) == Ones(|tags|)
  {
  }

  /** The first list's call under the key. */
  function Filler(key: Key, s: seq<Tag>, started: seq<nat>, phase: Phase): Call {
    Call(0, key, s, started, phase)
  }

  /** The world in which that call waits for its own fill, under the generations g. */
  function Filling(d: Shared, key: Key, s: seq<Tag>, started: seq<nat>, g: seq<nat>, state: WorkState): World {
    var sk := StorageKey(key, g);
    World(d, map[0 := Filler(key, s, started, Waiting(0))], map[0 := Work(0, sk, s, 0, 0, state)], map[(0, sk) := 0])
  }

  function OpenFill(key: Key, s: seq<Tag>): seq<Event> {
    [Begin(0, 0, key, s)] + Reads(0, |s|) + [Look(0, None), Join(0, 0), Resolve(0, OLD)]
  }

  /** Looking misses, joining starts the fill, and the resolver answers. */
  lemma FillStarts(d: Shared, key: Key, s: seq<Tag>, started: seq<nat>, g: seq<nat>)
    requires d.writes == 0
    ensures var w := World(d, map[0 := Filler(key, s, started, Looking(g))], map[], map[]);
            Next(Next(Next(w, Look(0, None)), Join(0, 0)), Resolve(0, OLD))
            == Filling(d, key, s, started, g, Fencing(OLD, Unseen(|s|)))
  {
    hide Unseen;
    var w := World(d, map[0 := Filler(key, s, started, Looking(g))], map[], map[]);
    assert Next(w, Look(0, None)) == w.(calls := map[0 := Filler(key, s, started, Joining(g))]);
    assert Next(Next(w, Look(0, None)), Join(0, 0)) == Filling(d, key, s, started, g, Resolving);
  }

  lemma FillOpens(w: World, key: Key, s: seq<Tag>)
    requires w == World(Shared(0, w.shared.fences, map[]), map[], map[], map[])
    requires s != [] && Now(w.shared, s) == Ones(|s|)
    ensures Exec(w, OpenFill(key, s)) == Filling(w.shared, key, s, Ones(|s|), Ones(|s|), Fencing(OLD, Unseen(|s|)))
  {
    var d, ones := w.shared, Ones(|s|);
    var w2 := w.(calls := map[0 := Filler(key, s, ones, Reading(Unseen(|s|)))]);
    assert Next(w, Begin(0, 0, key, s)) == w2;
    ReadsOnce(w2, 0, |s|);
    var w3 := World(d, map[0 := Filler(key, s, ones, Looking(ones))], map[], map[]);
    assert At(w2, 0, FirstPass(d, s, |s|)) == w3;
    hide Next, Filling, FirstPass, At, Unseen, Ones, Exec, Now;
    FillStarts(d, key, s, ones, ones);
    RunOne(w, Begin(0, 0, key, s));
    ExecAppends(w, [Begin(0, 0, key, s)], Reads(0, |s|));
    RunThree(w3, Look(0, None), Join(0, 0), Resolve(0, OLD));
    ExecAppends(w, [Begin(0, 0, key, s)] + Reads(0, |s|), [Look(0, None), Join(0, 0), Resolve(0, OLD)]);
  }

  lemma RunOne(w: World, e: Event)
    ensures Exec(w, [e]) == Next(w, e)
  {
    assert [e][..0] == [] && Exec(w, []) == w;
  }

  lemma RunThree(w: World, a: Event, b: Event, c: Event)
    ensures Exec(w, [a, b, c]) == Next(Next(Next(w, a), b), c)
  {
    hide Next;
    RunOne(w, a);
    assert [a, b] == [a] + [b] && [a, b, c] == [a, b] + [c];
    RunOne(Next(w, a), b);
    ExecAppends(w, [a], [b]);
    RunOne(Next(Next(w, a), b), c);
    ExecAppends(w, [a, b], [c]);
  }

  /** The fill is stored; then write 1 commits and its invalidation of the late tag finishes. */
  function CloseFill(s: seq<Tag>, late: Tag): seq<Event> {
    FenceReads(0, |s|) + [Store(0), Write, Invalidate(late, 1)]
  }

  function Filled(d: Shared, key: Key, s: seq<Tag>, late: Tag): World {
    var sk := StorageKey(key, Ones(|s|));
    Filling(Shared(1, d.fences[late := [1]], map[sk := {OLD}]), key, s, Ones(|s|), Ones(|s|), Done(OLD))
  }

  lemma FillCloses(d: Shared, key: Key, s: seq<Tag>, late: Tag)
    requires d == Shared(0, d.fences, map[]) && s != [] && Now(d, s) == Ones(|s|) && Fence(d, late) == []
    ensures var ones := Ones(|s|);
            Exec(Filling(d, key, s, ones, ones, Fencing(OLD, Unseen(|s|))), CloseFill(s, late))
            == Filled(d, key, s, late)
  {
    var ones := Ones(|s|);
    var sk := StorageKey(key, ones);
    var w := Filling(d, key, s, ones, ones, Fencing(OLD, Unseen(|s|)));
    FencesOnce(w, 0, OLD, |s|);
    var w1 := Filling(d, key, s, ones, ones, Storing(OLD));
    assert StepWork(w, 0, FencePass(d, w.works[0], OLD, |s|)) == w1;
    var w2 := Filling(d.(payload := map[sk := {OLD}]), key, s, ones, ones, Done(OLD));
    assert {} + {OLD} == {OLD};
    assert Next(w1, Store(0)) == w2;
    var w3 := w2.(shared := Shared(1, d.fences, map[sk := {OLD}]));
    assert Next(w2, Write) == w3;
    assert Fence(w3.shared, late) == [] && [] + [1] == [1];
    assert Next(w3, Invalidate(late, 1)) == Filled(d, key, s, late);
    hide Next, Filling, Filled, FencePass, StepWork;
    RunThree(w1, Store(0), Write, Invalidate(late, 1));
    ExecAppends(w, FenceReads(0, |s|), [Store(0), Write, Invalidate(late, 1)]);
  }

  /** The second list's call reads the same generations and is served the old value. */
  function ReadBack(n: nat): seq<Event> {
    Reads(1, n) + [Look(1, Some(OLD))] + Reads(1, n)
  }

  lemma ReadsBack(w: World, key: Key, t: seq<Tag>)
    requires t != [] && Now(w.shared, t) == Ones(|t|) && 1 !in w.calls
    requires var sk := StorageKey(key, Ones(|t|)); sk in w.shared.payload && OLD in w.shared.payload[sk]
    ensures var v := Next(w, Begin(1, 0, key, t));
            var u := Exec(v, ReadBack(|t|));
            1 in u.calls && u.calls[1].phase == Returned(OLD, Ones(|t|))
  {
    var d, n, g := w.shared, |t|, Ones(|t|);
    var v := Next(w, Begin(1, 0, key, t));
    ReadsOnce(v, 1, n);
    var v1 := At(v, 1, Looking(g));
    assert At(v, 1, FirstPass(d, t, n)) == v1;
    var v2 := At(v1, 1, Rechecking(g, OLD, g, Unseen(n)));
    assert Next(v1, Look(1, Some(OLD))) == v2;
    ReadsAgain(v2, 1, OLD, n);
    assert SecondPass(d, t, OLD, n) == Returned(OLD, g);
    hide Next, FirstPass, SecondPass, Unseen, Ones;
    RunOne(v1, Look(1, Some(OLD)));
    ExecAppends(v, Reads(1, n), [Look(1, Some(OLD))]);
    ExecAppends(v, Reads(1, n) + [Look(1, Some(OLD))], Reads(1, n));
  }

  /** Everything before the second call. */
  function Prelude(key: Key, s: seq<Tag>, t: seq<Tag>, late: Tag): seq<Event> {
    Invalidations(AllBut(s, t, late)) + OpenFill(key, s) + CloseFill(s, late)
  }

  lemma FilledFences(d: Shared, key: Key, s: seq<Tag>, t: seq<Tag>, late: Tag)
    requires forall x :: x in t && x != late ==> Fence(d, x) == [0]
    ensures var e := Filled(d, key, s, late).shared; Fence(e, late) == [1] && Now(e, t) == Ones(|t|)
  {
    var e := Filled(d, key, s, late).shared;
    assert forall x :: Fence(e, x) == if x == late then [1] else Fence(d, x);
    AllOnes(e, t);
  }

  lemma PreludeRuns(key: Key, s: seq<Tag>, t: seq<Tag>, late: Tag) returns (d: Shared)
    requires |s| == |t| && late in t && late !in s
    ensures Reached(Prelude(key, s, t, late)) == Filled(d, key, s, late)
    ensures var e := Filled(d, key, s, late).shared; Fence(e, late) == [1] && Now(e, t) == Ones(|t|)
  {
    var tags := AllBut(s, t, late);
    InvalidatesOnce(INITIAL, tags);
    hide AllBut, Filled, Now, Invalidations, OpenFill, CloseFill, Exec;
    var w := Reached(Invalidations(tags));
    d := w.shared;
    AllButHas(s, t, late);
    AllOnes(d, s);
    FilledFences(d, key, s, t, late);
    FillOpens(w, key, s);
    ExecAppends(INITIAL, Invalidations(tags), OpenFill(key, s));
    FillCloses(d, key, s, late);
    ExecAppends(INITIAL, Invalidations(tags) + OpenFill(key, s), CloseFill(s, late));
  }

  lemma AllButHas(s: seq<Tag>, t: seq<Tag>, late: Tag)
    ensures forall x :: x in AllBut(s, t, late) <==> (x in s || x in t) && x != late
  {
    assert forall x :: x in s + t <==> x in s || x in t;
  }

  /** Lists of one length, one of which has a tag the other lacks: the other one's value is served stale. */
  lemma CollisionIsStale(key: Key, s: seq<Tag>, t: seq<Tag>, late: Tag)
    requires |s| == |t| && late in t && late !in s
    ensures Stale(Prelude(key, s, t, late), Begin(1, 0, key, t), ReadBack(|t|))
  {
    hide Exec, ReadBack, Prelude, Ones, Now;
    var call := Begin(1, 0, key, t);
    var d := PreludeRuns(key, s, t, late);
    var u := Filled(d, key, s, late);
    assert 1 !in u.calls;
    ReadsBack(u, key, t);
    hide Next, Filled;
    ExecAppends(INITIAL, Prelude(key, s, t, late), [call]);
    RunOne(u, call);
    ExecAppends(INITIAL, Prelude(key, s, t, late) + [call], ReadBack(|t|));
    assert Fence(u.shared, late)[0] > OLD.asOf;
  }

  lemma PreludeInUse(uses: Uses, key: Key, s: seq<Tag>, t: seq<Tag>, late: Tag)
    requires (key, s) in uses && (key, t) in uses
    ensures InUse(Prelude(key, s, t, late) + [Begin(1, 0, key, t)] + ReadBack(|t|), uses)
  {
  }
}
