/**
 * Exactly which uses of keys with tag lists are fresh: those in which, of two
 * lists of one length under one key, every tag lies on a cycle.
 */
module CacheCycles {
  import opened Common
  import opened CacheService
  import opened CacheProtocol
  import opened CacheProofs
  import opened CacheUses
  import opened StableSort

  // ----- The tags a tag leads to -----

  lemma LeadsStep(s: seq<Tag>, t: seq<Tag>, x: Tag, i: nat)
    requires i < |s| && i < |t| && (t[i] == x || Leads(s, t, x, t[i]))
    ensures Leads(s, t, x, s[i])
  {
    if t[i] == x {
      assert IsTrail(s, t, [i]);
    } else {
      var path :| IsTrail(s, t, path) && t[path[0]] == x && s[path[|path| - 1]] == t[i];
      assert IsTrail(s, t, path + [i]);
    }
  }

  /** Where x leads to, when it does not lead back. */
  ghost predicate Escapes(s: seq<Tag>, t: seq<Tag>, x: Tag, reach: set<Tag>) {
    && x !in reach
    && forall i :: 0 <= i < |s| && i < |t| && (t[i] == x || t[i] in reach) ==> s[i] in reach
  }

  lemma ReachEscapes(s: seq<Tag>, t: seq<Tag>, x: Tag) returns (reach: set<Tag>)
    requires !Leads(s, t, x, x)
    ensures Escapes(s, t, x, reach)
  {
    reach := set y | y in s && Leads(s, t, x, y);
    forall i | 0 <= i < |s| && i < |t| && (t[i] == x || t[i] in reach) ensures s[i] in reach {
      LeadsStep(s, t, x, i);
    }
  }

  /** Permuted lists make cycles only. */
  lemma PermutedIsCircular(s: seq<Tag>, t: seq<Tag>)
    requires multiset(s) == multiset(t)
    ensures Circular(s, t)
  {
    SameElements(s, t);
    forall x | x in t ensures Leads(s, t, x, x) {
      if !Leads(s, t, x, x) {
        var reach := ReachEscapes(s, t, x);
        CountsMore(s, t, reach, x);
        CountPermuted(s, t, reach);
        CountGrows(t, reach, x);
      }
    }
  }

  function Count(xs: seq<Tag>, inside: set<Tag>): nat {
    if xs == [] then 0 else (if xs[0] in inside then 1 else 0) + Count(xs[1..], inside)
  }

  lemma {:induction false} CountWithout(xs: seq<Tag>, j: nat, inside: set<Tag>)
    requires j < |xs|
    ensures Count(xs, inside) == (if xs[j] in inside then 1 else 0) + Count(Without(xs, j), inside)
  {
    if j > 0 {
      CountWithout(xs[1..], j - 1, inside);
      assert Without(xs, j)[1..] == Without(xs[1..], j - 1);
    } else {
      assert Without(xs, 0) == xs[1..];
    }
  }

  lemma {:induction false} CountPermuted(s: seq<Tag>, t: seq<Tag>, inside: set<Tag>)
    requires multiset(s) == multiset(t)
    ensures Count(s, inside) == Count(t, inside)
  {
    SameElements(s, t);
    if s != [] {
      assert s[0] in t;
      var j :| 0 <= j < |t| && t[j] == s[0];
      PermutesWithout(s, t, j);
      CountPermuted(s[1..], Without(t, j), inside);
      CountWithout(t, j, inside);
    }
  }

  lemma {:induction false} CountsMore(s: seq<Tag>, t: seq<Tag>, reach: set<Tag>, x: Tag)
    requires |s| == |t| && forall i :: 0 <= i < |s| && t[i] in reach + {x} ==> s[i] in reach
    ensures Count(t, reach + {x}) <= Count(s, reach)
  {
    if s != [] {
      assert forall i :: 0 <= i < |s| - 1 ==> t[1..][i] == t[i + 1] && s[1..][i] == s[i + 1];
      assert t[0] in reach + {x} ==> s[0] in reach;
      CountsMore(s[1..], t[1..], reach, x);
    }
  }

  lemma {:induction false} CountGrows(t: seq<Tag>, reach: set<Tag>, x: Tag)
    requires x !in reach
    ensures Count(t, reach) <= Count(t, reach + {x})
    ensures x in t ==> Count(t, reach) < Count(t, reach + {x})
  {
    if t != [] {
      assert x in t ==> x == t[0] || x in t[1..];
      CountGrows(t[1..], reach, x);
    }
  }

  // ----- The stale run -----

  /** The generations the call will read: x and where it leads to have been invalidated once. */
  function Vector(t: seq<Tag>, x: Tag, reach: set<Tag>): (r: seq<nat>)
    ensures |r| == |t| && forall i :: 0 <= i < |t| ==> r[i] == if t[i] == x || t[i] in reach then 1 else 0
  {
    seq(|t|, i requires 0 <= i < |t| => if t[i] == x || t[i] in reach then 1 else 0)
  }

  function Zeros(n: nat): (r: seq<nat>)
    ensures |r| == n && forall i :: 0 <= i < n ==> r[i] == 0
  {
    seq(n, i => 0)
  }

  /** The positions with generation zero, read in turn; an index beyond the list reads nothing. */
  function EarlyReads(g: seq<nat>, n: nat): (r: seq<Event>)
    requires n <= |g|
    ensures |r| == n
  {
    seq(n, i requires 0 <= i < n => ReadTag(0, if g[i] == 0 then i else |g|))
  }

  /** What the filler has seen when the first n positions have been read, of those with this generation or all. */
  function EarlySeen(g: seq<nat>, n: nat): (r: seq<Option<nat>>)
    ensures |r| == |g| && forall i :: 0 <= i < |g| ==> r[i] == if i < n && g[i] == 0 then Some(0) else None
  {
    seq(|g|, i requires 0 <= i < |g| => if i < n && g[i] == 0 then Some(0) else None)
  }

  function LateSeen(g: seq<nat>, n: nat): (r: seq<Option<nat>>)
    ensures |r| == |g| && forall i :: 0 <= i < |g| ==> r[i] == if i < n || g[i] == 0 then Some(g[i]) else None
  {
    seq(|g|, i requires 0 <= i < |g| => if i < n || g[i] == 0 then Some(g[i]) else None)
  }

  function LatePhase(g: seq<nat>, n: nat): Phase {
    if AllSeen(LateSeen(g, n)) then Looking(g) else Reading(LateSeen(g, n))
  }

  lemma EarlyStep(w: World, g: seq<nat>, n: nat)
    requires 0 in w.calls && |w.calls[0].tags| == |g| && n < |g| && 1 in g
    requires forall t :: Fence(w.shared, t) == []
    ensures Next(At(w, 0, Reading(EarlySeen(g, n))), ReadTag(0, if g[n] == 0 then n else |g|))
            == At(w, 0, Reading(EarlySeen(g, n + 1)))
  {
    var seen, next := EarlySeen(g, n), EarlySeen(g, n + 1);
    var i := if g[n] == 0 then n else |g|;
    assert See(w.shared, w.calls[0].tags, seen, i) == next;
    var k :| 0 <= k < |g| && g[k] == 1;
    assert next[k].None? && !AllSeen(next);
    hide See, EarlySeen, AllSeen;
    AtTwice(w, 0, Reading(seen), Reading(next));
  }

  lemma LateStep(w: World, g: seq<nat>, n: nat)
    requires 0 in w.calls && |w.calls[0].tags| == |g| && n < |g|
    requires g[n] != 0 ==> g[n] == |Fence(w.shared, w.calls[0].tags[n])|
    ensures Next(At(w, 0, LatePhase(g, n)), ReadTag(0, n)) == At(w, 0, LatePhase(g, n + 1))
  {
    var seen, next := LateSeen(g, n), LateSeen(g, n + 1);
    if AllSeen(seen) {
      assert next == seen;
    } else {
      assert See(w.shared, w.calls[0].tags, seen, n) == next;
      if AllSeen(next) { assert Values(next) == g; }
    }
    hide See, LateSeen, AllSeen, Values;
    AtTwice(w, 0, LatePhase(g, n), LatePhase(g, n + 1));
  }

  lemma {:induction false} EarlyPass(w: World, g: seq<nat>, n: nat)
    requires 0 in w.calls && |w.calls[0].tags| == |g| && n <= |g| && 1 in g
    requires w.calls[0].phase == Reading(Unseen(|g|)) && forall t :: Fence(w.shared, t) == []
    ensures Exec(w, EarlyReads(g, n)) == At(w, 0, Reading(EarlySeen(g, n)))
  {
    if n == 0 {
      assert EarlySeen(g, 0) == Unseen(|g|) && Exec(w, []) == w;
    } else {
      EarlyPass(w, g, n - 1);
      hide Next, At, EarlySeen, Fence;
      Last(w, EarlyReads(g, n), n - 1);
      assert EarlyReads(g, n)[..n - 1] == EarlyReads(g, n - 1) && EarlyReads(g, n)[..n] == EarlyReads(g, n);
      EarlyStep(w, g, n - 1);
    }
  }

  lemma {:induction false} LatePass(w: World, g: seq<nat>, n: nat)
    requires 0 in w.calls && |w.calls[0].tags| == |g| && n <= |g| && 1 in g
    requires w.calls[0].phase == Reading(EarlySeen(g, |g|))
    requires forall i :: 0 <= i < |g| && g[i] != 0 ==> g[i] == |Fence(w.shared, w.calls[0].tags[i])|
    ensures Exec(w, Reads(0, n)) == At(w, 0, LatePhase(g, n))
  {
    if n == 0 {
      assert EarlySeen(g, |g|) == LateSeen(g, 0);
      var k :| 0 <= k < |g| && g[k] == 1;
      assert LateSeen(g, 0)[k].None?;
      assert Exec(w, Reads(0, 0)) == w;
    } else {
      LatePass(w, g, n - 1);
      hide Next, At, EarlySeen, LatePhase, Fence;
      Last(w, Reads(0, n), n - 1);
      assert Reads(0, n)[..n - 1] == Reads(0, n - 1) && Reads(0, n)[..n] == Reads(0, n);
      LateStep(w, g, n - 1);
    }
  }

  /** The tags that x leads to, each once. */
  function Led(s: seq<Tag>, t: seq<Tag>, reach: set<Tag>): seq<Tag> {
    Once(Where(s + t, y => y in reach))
  }

  /** A fill under the first list that reads part of its tags before, and part after, what x leads to is invalidated. */
  function SplitFill(key: Key, s: seq<Tag>, t: seq<Tag>, x: Tag, reach: set<Tag>): seq<Event> {
    var g := Vector(t, x, reach);
    [Begin(0, 0, key, s)] + EarlyReads(g, |g|) + Invalidations(Led(s, t, reach)) + Reads(0, |g|)
    + [Look(0, None), Join(0, 0), Resolve(0, OLD)]
  }

  function Reader(key: Key, s: seq<Tag>, phase: Phase): Call {
    Filler(key, s, Zeros(|s|), phase)
  }

  /** The filler has read what it reads early. */
  lemma OpensEarly(key: Key, s: seq<Tag>, g: seq<nat>)
    requires |s| == |g| && 1 in g
    ensures Exec(INITIAL, [Begin(0, 0, key, s)] + EarlyReads(g, |g|))
            == World(INITIAL.shared, map[0 := Reader(key, s, Reading(EarlySeen(g, |g|)))], map[], map[])
  {
    var w := World(INITIAL.shared, map[0 := Reader(key, s, Reading(Unseen(|s|)))], map[], map[]);
    assert Now(INITIAL.shared, s) == Zeros(|s|);
    assert Next(INITIAL, Begin(0, 0, key, s)) == w;
    EarlyPass(w, g, |g|);
    hide Next, Exec, EarlyReads, EarlySeen;
    RunOne(INITIAL, Begin(0, 0, key, s));
    ExecAppends(INITIAL, [Begin(0, 0, key, s)], EarlyReads(g, |g|));
  }

  /** And then the rest, and starts its fill. */
  lemma OpensLate(w: World, key: Key, s: seq<Tag>, g: seq<nat>)
    requires |s| == |g| && 1 in g
    requires w == World(Shared(0, w.shared.fences, map[]), map[0 := Reader(key, s, Reading(EarlySeen(g, |g|)))],
                        map[], map[])
    requires forall i :: 0 <= i < |g| && g[i] != 0 ==> g[i] == |Fence(w.shared, s[i])|
    ensures Exec(w, Reads(0, |g|) + [Look(0, None), Join(0, 0), Resolve(0, OLD)])
            == Filling(w.shared, key, s, Zeros(|s|), g, Fencing(OLD, Unseen(|s|)))
  {
    LatePass(w, g, |g|);
    var v := World(w.shared, map[0 := Reader(key, s, Looking(g))], map[], map[]);
    assert LatePhase(g, |g|) == Looking(g);
    assert At(w, 0, Looking(g)) == v;
    hide Next, Exec, Reads, LatePhase, At, Filling, Zeros, Unseen;
    FillStarts(w.shared, key, s, Zeros(|s|), g);
    RunThree(v, Look(0, None), Join(0, 0), Resolve(0, OLD));
    ExecAppends(w, Reads(0, |g|), [Look(0, None), Join(0, 0), Resolve(0, OLD)]);
  }

  /** What the filler still has to read has been invalidated by then. */
  lemma LedIsInvalidated(d: Shared, s: seq<Tag>, t: seq<Tag>, x: Tag, reach: set<Tag>)
    requires |s| == |t| && x in t && Escapes(s, t, x, reach)
    requires forall y :: Fence(d, y) == if y in Led(s, t, reach) then [0] else []
    ensures var g := Vector(t, x, reach);
            1 in g && forall i :: 0 <= i < |g| && g[i] != 0 ==> g[i] == |Fence(d, s[i])|
    ensures forall y :: Fence(d, y) == if y in reach && (y in s || y in t) then [0] else []
  {
    var g := Vector(t, x, reach);
    var i :| 0 <= i < |t| && t[i] == x;
    assert g[i] == 1;
    assert forall y :: y in s + t <==> y in s || y in t;
    forall k | 0 <= k < |g| && g[k] != 0 ensures g[k] == |Fence(d, s[k])| {
      assert s[k] in reach && s[k] in s;
    }
  }

  lemma SplitFillRuns(key: Key, s: seq<Tag>, t: seq<Tag>, x: Tag, reach: set<Tag>) returns (d: Shared)
    requires |s| == |t| && x in t && Escapes(s, t, x, reach)
    ensures d == Shared(0, d.fences, map[])
    ensures forall y :: Fence(d, y) == if y in reach && (y in s || y in t) then [0] else []
    ensures Exec(INITIAL, SplitFill(key, s, t, x, reach))
            == Filling(d, key, s, Zeros(|s|), Vector(t, x, reach), Fencing(OLD, Unseen(|s|)))
  {
    var g, tags := Vector(t, x, reach), Led(s, t, reach);
    var first := [Begin(0, 0, key, s)] + EarlyReads(g, |g|);
    var w := World(INITIAL.shared, map[0 := Reader(key, s, Reading(EarlySeen(g, |g|)))], map[], map[]);
    InvalidatesOnce(w, tags);
    var v := Exec(w, Invalidations(tags));
    d := v.shared;
    hide Exec, EarlyReads, EarlySeen, Led, Invalidations, Fence, Filling, Reads, Vector, Escapes;
    LedIsInvalidated(d, s, t, x, reach);
    OpensEarly(key, s, g);
    OpensLate(v, key, s, g);
    ExecInParts(first, Invalidations(tags), Reads(0, |g|), [Look(0, None), Join(0, 0), Resolve(0, OLD)]);
  }

  lemma ExecInParts(a: seq<Event>, b: seq<Event>, c: seq<Event>, d: seq<Event>)
    ensures Exec(INITIAL, a + b + c + d) == Exec(Exec(Exec(INITIAL, a), b), c + d)
  {
    hide Exec;
    ExecAppends(INITIAL, a, b);
    ExecAppends(INITIAL, a + b, c + d);
    assert a + b + c + d == a + b + (c + d);
  }

  /** The second list's call joins the fill that is still open. */
  function JoinFill(n: nat): seq<Event> {
    Reads(1, n) + [Look(1, None), Join(1, 0)] + FenceReads(0, n) + [Store(0), Finish(1)]
  }

  lemma RunTwo(w: World, a: Event, b: Event)
    ensures Exec(w, [a, b]) == Next(Next(w, a), b)
  {
    hide Next;
    RunOne(w, a);
    RunOne(Next(w, a), b);
    assert [a, b] == [a] + [b];
    ExecAppends(w, [a], [b]);
  }

  lemma JoinsFill(d: Shared, key: Key, s: seq<Tag>, t: seq<Tag>, g: seq<nat>)
    requires |s| == |t| && t != [] && Now(d, t) == g
    ensures var w := Next(Filling(d, key, s, Zeros(|s|), g, Fencing(OLD, Unseen(|s|))), Begin(1, 0, key, t));
            var v := Exec(w, JoinFill(|t|));
            1 in v.calls && v.calls[1].phase == Returned(OLD, g)
  {
    var n := |t|;
    var u := Filling(d, key, s, Zeros(n), g, Fencing(OLD, Unseen(n)));
    var w := Next(u, Begin(1, 0, key, t));
    assert w == u.(calls := u.calls[1 := Call(0, key, t, g, Reading(Unseen(n)))]);
    ReadsOnce(w, 1, n);
    var w1, w2, w3 := At(w, 1, Looking(g)), At(w, 1, Joining(g)), At(w, 1, Waiting(0));
    assert At(w, 1, FirstPass(d, t, n)) == w1;
    JoinsWork(w, w1, w2, w3, key, g);
    FencesOnce(w3, 0, OLD, n);
    var w4 := StepWork(w3, 0, FencePass(d, w3.works[0], OLD, n));
    FinishesJoined(w4, g);
    hide Next, Exec, Filling, FirstPass, At, StepWork, FencePass, Reads, FenceReads;
    RunTwo(w1, Look(1, None), Join(1, 0));
    RunTwo(w4, Store(0), Finish(1));
    ExecAppends(w, Reads(1, n), [Look(1, None), Join(1, 0)]);
    ExecAppends(w, Reads(1, n) + [Look(1, None), Join(1, 0)], FenceReads(0, n));
    ExecAppends(w, Reads(1, n) + [Look(1, None), Join(1, 0)] + FenceReads(0, n), [Store(0), Finish(1)]);
  }

  lemma JoinsWork(w: World, w1: World, w2: World, w3: World, key: Key, g: seq<nat>)
    requires 1 in w.calls && w.calls[1].key == key && w.calls[1].instance == 0
    requires (0, StorageKey(key, g)) in w.inFlight && w.inFlight[(0, StorageKey(key, g))] == 0
    requires w1 == At(w, 1, Looking(g)) && w2 == At(w, 1, Joining(g)) && w3 == At(w, 1, Waiting(0))
    ensures Next(w1, Look(1, None)) == w2 && Next(w2, Join(1, 0)) == w3
  {
    AtTwice(w, 1, Looking(g), Joining(g));
    AtTwice(w, 1, Joining(g), Waiting(0));
  }

  lemma FinishesJoined(w: World, g: seq<nat>)
    requires 1 in w.calls && w.calls[1].phase == Waiting(0) && w.calls[1].started == g
    requires 0 in w.works && (w.works[0].state == Storing(OLD) || w.works[0].state == Done(OLD))
    ensures var v := Next(Next(w, Store(0)), Finish(1));
            1 in v.calls && v.calls[1].phase == Returned(OLD, g)
  {
    var u := Next(w, Store(0));
    assert 0 in u.works && u.works[0].state == Done(OLD) && u.calls == w.calls;
  }

  /** Everything before the second call: the open fill, then write 1 with its invalidation of x. */
  function SplitPrelude(key: Key, s: seq<Tag>, t: seq<Tag>, x: Tag, reach: set<Tag>): seq<Event> {
    SplitFill(key, s, t, x, reach) + [Write, Invalidate(x, 1)]
  }

  /** Where x does not lead back to itself, a call under the second list can join a fill that misses its write. */
  lemma EscapeIsStale(key: Key, s: seq<Tag>, t: seq<Tag>, x: Tag, reach: set<Tag>)
    requires |s| == |t| && x in t && Escapes(s, t, x, reach)
    ensures Stale(SplitPrelude(key, s, t, x, reach), Begin(1, 0, key, t), JoinFill(|t|))
  {
    var g, fill, late, call := Vector(t, x, reach), SplitFill(key, s, t, x, reach), [Write, Invalidate(x, 1)],
        Begin(1, 0, key, t);
    var d := SplitFillRuns(key, s, t, x, reach);
    var e := Shared(1, d.fences[x := [1]], map[]);
    var w := Filling(d, key, s, Zeros(|s|), g, Fencing(OLD, Unseen(|s|)));
    var u := Filling(e, key, s, Zeros(|s|), g, Fencing(OLD, Unseen(|s|)));
    assert [] + [1] == [1];
    assert Next(Next(w, Write), Invalidate(x, 1)) == u;
    forall i | 0 <= i < |t| ensures |Fence(e, t[i])| == g[i] {}
    assert Now(e, t) == g && Fence(e, x) == [1] && 1 !in u.calls;
    JoinsFill(e, key, s, t, g);
    hide Exec, Next, SplitFill, JoinFill, Filling, Vector, Now;
    RunTwo(w, Write, Invalidate(x, 1));
    ExecAppends(INITIAL, fill, late);
    ExecAppends(INITIAL, fill + late, [call]);
    RunOne(u, call);
    ExecAppends(INITIAL, fill + late + [call], JoinFill(|t|));
    assert Fence(u.shared, x)[0] > OLD.asOf;
  }

  lemma EscapeInUse(uses: Uses, key: Key, s: seq<Tag>, t: seq<Tag>, x: Tag, reach: set<Tag>)
    requires (key, s) in uses && (key, t) in uses
    ensures InUse(SplitPrelude(key, s, t, x, reach) + [Begin(1, 0, key, t)] + JoinFill(|t|), uses)
  {
  }

  // ----- Results -----

  /**
   * Exactly which uses are fresh, whatever the lists: no run returns a stale
   * value if and only if, of any two lists of one length that a key is used with,
   * every tag of either lies on a cycle of steps from a tag to the one that
   * stands in its place in the other list.
   */
  lemma FreshIffCircular(uses: Uses)
    ensures AlwaysFresh(uses) <==> AllCircular(uses)
  {
    hide Stale, InUse;
    if AllCircular(uses) {
      forall before, call, after | InUse(before + [call] + after, uses) ensures !Stale(before, call, after) {
        NeverStale(before, call, after, uses);
      }
    } else {
      var key, s, t :| (key, s) in uses && (key, t) in uses && |s| == |t| && !Circular(s, t);
      var x :| x in t && !Leads(s, t, x, x);
      var reach := ReachEscapes(s, t, x);
      EscapeIsStale(key, s, t, x, reach);
      EscapeInUse(uses, key, s, t, x, reach);
    }
  }

  lemma NeverStale(before: seq<Event>, call: Event, after: seq<Event>, uses: Uses)
    requires AllCircular(uses) && InUse(before + [call] + after, uses)
    ensures !Stale(before, call, after)
  {
    if Stale(before, call, after) { ReturnedValueIsFresh(before, call, after, uses); }
  }

  /** Lists of one length under one key hold the same tags. */
  ghost predicate SameTags(uses: Uses) {
    forall key, s, t :: (key, s) in uses && (key, t) in uses && |s| == |t| ==> Elements(s) == Elements(t)
  }

  lemma CircularHoldsTags(s: seq<Tag>, t: seq<Tag>)
    requires Circular(s, t)
    ensures forall x :: x in t ==> x in s
  {
    forall x | x in t ensures x in s {
      var path :| IsTrail(s, t, path) && t[path[0]] == x && s[path[|path| - 1]] == x;
    }
  }

  lemma DistinctCounts(s: seq<Tag>, x: Tag)
    requires Distinct(s)
    ensures multiset(s)[x] == if x in s then 1 else 0
  {
    if s != [] {
      var n := |s| - 1;
      assert s == s[..n] + [s[n]];
      DistinctCounts(s[..n], x);
    }
  }

  lemma SameTagsPermute(s: seq<Tag>, t: seq<Tag>)
    requires Distinct(s) && Distinct(t) && Elements(s) == Elements(t)
    ensures multiset(s) == multiset(t)
  {
    forall x ensures multiset(s)[x] == multiset(t)[x] {
      DistinctCounts(s, x);
      DistinctCounts(t, x);
      assert x in s <==> x in Elements(s);
      assert x in t <==> x in Elements(t);
    }
  }

  /** Where lists name each tag once, the cycles are there if and only if the lists hold the same tags. */
  lemma FreshIffSameTags(uses: Uses)
    requires forall key, s :: (key, s) in uses ==> Distinct(s)
    ensures AlwaysFresh(uses) <==> SameTags(uses)
  {
    hide AlwaysFresh, Circular, Elements, Distinct;
    FreshIffCircular(uses);
    forall key, s, t | (key, s) in uses && (key, t) in uses && |s| == |t|
      ensures AllCircular(uses) ==> Elements(s) == Elements(t)
      ensures SameTags(uses) ==> Circular(s, t)
    {
      if AllCircular(uses) {
        CircularHoldsTags(s, t);
        CircularHoldsTags(t, s);
        SameMembers(s, t);
      }
      if SameTags(uses) {
        SameTagsPermute(s, t);
        PermutedIsCircular(s, t);
      }
    }
  }

  lemma SameMembers(s: seq<Tag>, t: seq<Tag>)
    requires forall x :: x in s <==> x in t
    ensures Elements(s) == Elements(t)
  {
  }

  /** With repeats it takes more than the same tags: x leads to y, and y to nothing but itself. */
  lemma SameTagsCanBeStale(key: Key, x: Tag, y: Tag, z: Tag)
    requires x != y && y != z && x != z
    ensures var s, t := [y, y, x, z], [x, y, z, z];
            && Elements(s) == Elements(t)
            && Stale(SplitPrelude(key, s, t, x, {y}), Begin(1, 0, key, t), JoinFill(4))
            && !AlwaysFresh(iset{(key, s), (key, t)})
  {
    var s, t := [y, y, x, z], [x, y, z, z];
    hide Stale, InUse, SplitPrelude, JoinFill;
    EscapeIsStale(key, s, t, x, {y});
    EscapeInUse(iset{(key, s), (key, t)}, key, s, t, x, {y});
  }

  /** And repeats need not be permuted: x and y lead to each other. */
  lemma RepeatsNeedNotBePermuted(x: Tag, y: Tag)
    requires x != y
    ensures var s, t := [x, y, y], [y, x, x]; multiset(s) != multiset(t) && Circular(s, t) && Circular(t, s)
  {
    var s, t := [x, y, y], [y, x, x];
    assert multiset(s)[x] == 1 && multiset(t)[x] == 2;
    assert IsTrail(s, t, [0, 1]) && IsTrail(s, t, [1, 0]) && IsTrail(t, s, [0, 1]) && IsTrail(t, s, [1, 0]);
  }
}
