/** What the in-memory cache answers, in terms of the calls made so far and when they were made. */
module CacheAnswers {
  import opened Common
  import opened InMemoryCache

  /** How far the clock has moved. */
  function Elapsed(ops: seq<Op>): nat {
    if ops == [] then 0 else Elapsed(ops[..|ops| - 1]) + if ops[|ops| - 1].Tick? then ops[|ops| - 1].ms else 0
  }

  /** The call decides what the key holds. */
  predicate Writes(op: Op, key: Key) {
    (op.Set? || op.Delete?) && op.key == key
  }

  /** The last call that decides what the key holds. */
  ghost predicate LastWrite(ops: seq<Op>, key: Key, i: nat) {
    i < |ops| && Writes(ops[i], key) && forall j :: i < j < |ops| ==> !Writes(ops[j], key)
  }

  lemma {:induction false} PlainClock(now: int, ops: seq<Op>)
    ensures PlainRun(now, ops).now == now + Elapsed(ops)
  {
    if ops != [] { PlainClock(now, ops[..|ops| - 1]); }
  }

  lemma {:induction false} NeverWritten(now: int, ops: seq<Op>, key: Key)
    requires forall j :: 0 <= j < |ops| ==> !Writes(ops[j], key)
    ensures key !in PlainRun(now, ops).entries
  {
    if ops != [] { NeverWritten(now, ops[..|ops| - 1], key); }
  }

  /** What the plain map holds of a key is what the last such call put there. */
  lemma {:induction false} HeldSinceLastWrite(now: int, ops: seq<Op>, key: Key, i: nat)
    requires LastWrite(ops, key, i)
    ensures var p := PlainRun(now, ops);
            match ops[i]
            case Set(_, value, ttl) =>
              && key in p.entries && p.entries[key].value == value
              && p.entries[key].expiresAt == (if ttl.None? || ttl.value == 0 then None
                                              else Some(now + Elapsed(ops[..i]) + ttl.value))
            case _ => key !in p.entries
  {
    var init := ops[..|ops| - 1];
    if i < |ops| - 1 {
      assert init[i] == ops[i] && init[..i] == ops[..i];
      HeldSinceLastWrite(now, init, key, i);
    } else {
      PlainClock(now, init);
      assert ops[..i] == init;
    }
  }

  lemma RunNext(now: int, ops: seq<Op>, op: Op)
    ensures Run(now, ops + [op]) == Step(Run(now, ops), op)
    ensures PlainRun(now, ops + [op]) == PlainStep(PlainRun(now, ops), op)
  {
    assert (ops + [op])[..|ops|] == ops;
  }

  /**
   * A get answers with the value last set, until its time to live has passed since
   * that call; a time of zero, or none, is no limit. A key never set, or deleted
   * since, is not found.
   */
  lemma GetAnswersLastSet(now: int, ops: seq<Op>, key: Key, i: nat)
    requires LastWrite(ops, key, i)
    ensures Run(now, ops + [Get(key)]).answers
            == Run(now, ops).answers + [Found(
              match ops[i]
              case Set(_, value, ttl) =>
                if ttl.None? || ttl.value == 0 || Elapsed(ops) < Elapsed(ops[..i]) + ttl.value then Some(value)
                else None
              case _ => None)]
    ensures var before, after := Run(now, ops).answers, Run(now, ops + [Get(key)]).answers;
            Run(now, ops + [Has(key)]).answers == before + [Present(after[|before|].value.Some?)]
  {
    PruningIsUnobservable(now, ops);
    PruningIsUnobservable(now, ops + [Get(key)]);
    PruningIsUnobservable(now, ops + [Has(key)]);
    RunNext(now, ops, Get(key));
    RunNext(now, ops, Has(key));
    HeldSinceLastWrite(now, ops, key, i);
    PlainClock(now, ops);
  }

  lemma GetOfUnknownKey(now: int, ops: seq<Op>, key: Key)
    requires forall j :: 0 <= j < |ops| ==> !Writes(ops[j], key)
    ensures Run(now, ops + [Get(key)]).answers == Run(now, ops).answers + [Found(None)]
  {
    PruningIsUnobservable(now, ops);
    PruningIsUnobservable(now, ops + [Get(key)]);
    RunNext(now, ops, Get(key));
    NeverWritten(now, ops, key);
  }

  // ----- Rate limits -----

  ghost predicate LastIncrement(ops: seq<Op>, key: Key, i: nat) {
    i < |ops| && ops[i].Increment? && ops[i].key == key
    && forall j :: i < j < |ops| ==> !(ops[j].Increment? && ops[j].key == key)
  }

  /** What the last call for the key was answered is what the plain map has open for it. */
  lemma {:induction false} OpenSinceLastIncrement(now: int, ops: seq<Op>, key: Key, i: nat)
    requires LastIncrement(ops, key, i)
    ensures var p, q := PlainRun(now, ops), PlainRun(now, ops[..i + 1]);
            && key in p.buckets
            && q.answers != [] && q.answers[|q.answers| - 1] == Limited(p.buckets[key])
  {
    var init := ops[..|ops| - 1];
    if i < |ops| - 1 {
      assert init[i] == ops[i] && init[..i + 1] == ops[..i + 1];
      OpenSinceLastIncrement(now, init, key, i);
    } else {
      assert ops[..i + 1] == ops;
    }
  }

  lemma {:induction false} NeverIncremented(now: int, ops: seq<Op>, key: Key)
    requires forall j :: 0 <= j < |ops| ==> !(ops[j].Increment? && ops[j].key == key)
    ensures key !in PlainRun(now, ops).buckets
  {
    if ops != [] { NeverIncremented(now, ops[..|ops| - 1], key); }
  }

  /** The first call for a key opens a window that lasts as long as the call says. */
  lemma FirstCallOpensWindow(now: int, ops: seq<Op>, key: Key, window: int)
    requires forall j :: 0 <= j < |ops| ==> !(ops[j].Increment? && ops[j].key == key)
    ensures Run(now, ops + [Increment(key, window)]).answers
            == Run(now, ops).answers + [Limited(Bucket(1, now + Elapsed(ops) + window))]
  {
    PruningIsUnobservable(now, ops);
    PruningIsUnobservable(now, ops + [Increment(key, window)]);
    RunNext(now, ops, Increment(key, window));
    NeverIncremented(now, ops, key);
    PlainClock(now, ops);
  }

  /**
   * A later call counts one more in the window last answered while that is open,
   * whatever window the call itself names, and opens a new one from its end on.
   */
  lemma LaterCallCountsOn(now: int, ops: seq<Op>, key: Key, window: int, i: nat)
    requires LastIncrement(ops, key, i)
    ensures var before := Run(now, ops[..i + 1]).answers;
            && before != [] && before[|before| - 1].Limited?
            && var last := before[|before| - 1].bucket;
               Run(now, ops + [Increment(key, window)]).answers
               == Run(now, ops).answers
                  + [Limited(if now + Elapsed(ops) < last.resetAt then Bucket(last.count + 1, last.resetAt)
                             else Bucket(1, now + Elapsed(ops) + window))]
  {
    PruningIsUnobservable(now, ops);
    PruningIsUnobservable(now, ops[..i + 1]);
    PruningIsUnobservable(now, ops + [Increment(key, window)]);
    RunNext(now, ops, Increment(key, window));
    OpenSinceLastIncrement(now, ops, key, i);
    PlainClock(now, ops);
  }

  /** How many calls for the key there are from position i on. */
  function CallsFrom(ops: seq<Op>, key: Key, i: nat): nat
    requires i <= |ops|
  {
    if i == |ops| then 0
    else
      var last := ops[|ops| - 1];
      CallsFrom(ops[..|ops| - 1], key, i) + if last.Increment? && last.key == key then 1 else 0
  }

  /** The call at position i opened the window, every later call for the key fell into it, and all are counted. */
  ghost predicate CountedFrom(now: int, ops: seq<Op>, key: Key, b: Bucket, i: nat) {
    && i < |ops| && ops[i].Increment? && ops[i].key == key
    && b.resetAt == now + Elapsed(ops[..i]) + ops[i].window
    && b.count == CallsFrom(ops, key, i)
    && AllBefore(now, ops, key, i, b.resetAt)
  }

  /** The calls for the key after position i came before this time. */
  ghost predicate AllBefore(now: int, ops: seq<Op>, key: Key, i: nat, time: int) {
    forall j :: i < j < |ops| && ops[j].Increment? && ops[j].key == key ==> now + Elapsed(ops[..j]) < time
  }

  /** One more call in the open window, or a call that does not concern it. */
  lemma CountsOn(now: int, init: seq<Op>, last: Op, key: Key, b: Bucket, i: nat)
    requires CountedFrom(now, init, key, b, i)
    requires last.Increment? && last.key == key ==> now + Elapsed(init) < b.resetAt
    ensures CountedFrom(now, init + [last], key,
                        if last.Increment? && last.key == key then Bucket(b.count + 1, b.resetAt) else b, i)
  {
    var ops := init + [last];
    assert ops[..|ops| - 1] == init;
    assert forall j :: 0 <= j < |init| ==> init[..j] == ops[..j] && init[j] == ops[j];
    hide Elapsed;
  }

  lemma Opens(now: int, init: seq<Op>, last: Op, key: Key)
    requires last.Increment? && last.key == key
    ensures CountedFrom(now, init + [last], key, Bucket(1, now + Elapsed(init) + last.window), |init|)
  {
    OneCall(init, last, key);
    NoLaterCall(now, init, last, key, now + Elapsed(init) + last.window);
    hide Elapsed, CallsFrom, AllBefore;
    assert (init + [last])[..|init|] == init;
  }

  lemma NoLaterCall(now: int, init: seq<Op>, last: Op, key: Key, time: int)
    ensures AllBefore(now, init + [last], key, |init|, time)
  {
    hide Elapsed;
  }

  lemma OneCall(init: seq<Op>, last: Op, key: Key)
    requires last.Increment? && last.key == key
    ensures CallsFrom(init + [last], key, |init|) == 1
  {
    assert (init + [last])[..|init|] == init;
    assert CallsFrom(init, key, |init|) == 0;
  }

  /** Every count answered is the number of calls for the key since its window was opened. */
  lemma {:induction false} LimitCountsCalls(now: int, ops: seq<Op>, key: Key) returns (i: nat)
    requires key in PlainRun(now, ops).buckets
    ensures CountedFrom(now, ops, key, PlainRun(now, ops).buckets[key], i)
  {
    hide CountedFrom, Elapsed;
    var init, last := ops[..|ops| - 1], ops[|ops| - 1];
    var p := PlainRun(now, init);
    PlainClock(now, init);
    assert init + [last] == ops;
    if last.Increment? && last.key == key && !(key in p.buckets && p.buckets[key].resetAt > p.now) {
      i := |ops| - 1;
      Opens(now, init, last, key);
    } else {
      i := LimitCountsCalls(now, init, key);
      CountsOn(now, init, last, key, p.buckets[key], i);
    }
  }
}
