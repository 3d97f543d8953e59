/**
 * The generation-fenced cache in its correctness-critical, shared mode: a table
 * of tag generations whose increment is one atomic upsert, and a cache whose
 * storage keys carry the generations that were current when a value was filled.
 */
module CacheService {
  import opened Common

  type Key = string
  type Tag = string

  /** A cached value and how many writes the resolver that produced it could see. */
  datatype Value = Value(data: string, asOf: nat)

  /** `__generation__:<generations>:<key>`. The tag names are not part of it. */
  datatype StorageKey = StorageKey(key: Key, generations: seq<nat>)

  function Generation(generations: map<Tag, nat>, tag: Tag): nat {
    if tag in generations then generations[tag] else 0
  }

  function Vector(generations: map<Tag, nat>, tags: seq<Tag>): (r: seq<nat>)
    ensures |r| == |tags|
    ensures forall i :: 0 <= i < |tags| ==> r[i] == Generation(generations, tags[i])
  {
    if tags == [] then [] else [Generation(generations, tags[0])] + Vector(generations, tags[1..])
  }

  class TagGenerationStore {
    var generations: map<Tag, nat>

    constructor ()
      ensures generations == map[]
    {
      generations := map[];
    }

    /** An absent row reads as generation zero. */
    method GetTagGeneration(tag: Tag) returns (g: nat)
      ensures g == Generation(generations, tag)
    {
      if tag in generations {
        g := generations[tag];
      } else {
        g := 0;
      }
    }

    /** INSERT (tag, 1) ON CONFLICT DO UPDATE SET generation = generation + 1 RETURNING generation. */
    method AdvanceTagGeneration(tag: Tag) returns (next: nat)
      modifies this
      ensures next == Generation(old(generations), tag) + 1
      ensures Generation(generations, tag) == next
      ensures forall t :: t != tag ==> Generation(generations, t) == Generation(old(generations), t)
    {
      if tag in generations {
        next := generations[tag] + 1;
      } else {
        next := 1;
      }
      generations := generations[tag := next];
    }
  }

  class CacheService {
    const store: TagGenerationStore
    var payload: map<StorageKey, Value>

    constructor (store: TagGenerationStore)
      ensures this.store == store && payload == map[]
    {
      this.store := store;
      payload := map[];
    }

    /**
     * Advance the tags in order, stopping at the first the store cannot advance
     * (`broken`). Every tag before it moves by its number of occurrences.
     */
    method InvalidateTags(tags: seq<Tag>, broken: set<Tag>) returns (ok: bool, ghost done: nat)
      modifies store
      ensures done <= |tags|
      ensures forall t :: t in tags[..done] ==> t !in broken
      ensures ok == (Elements(tags) !! broken)
      ensures ok <==> done == |tags|
      ensures forall t :: Generation(store.generations, t)
                          == Generation(old(store.generations), t) + multiset(tags[..done])[t]
    {
      done := 0;
      for i := 0 to |tags|
        invariant done == i
        invariant forall t :: t in tags[..i] ==> t !in broken
        invariant forall t :: Generation(store.generations, t)
                              == Generation(old(store.generations), t) + multiset(tags[..i])[t]
      {
        if tags[i] in broken {
          assert tags[i] in Elements(tags);
          return false, done;
        }
        assert tags[..i + 1] == tags[..i] + [tags[i]];
        var _ := store.AdvanceTagGeneration(tags[i]);
        done := i + 1;
      }
      assert tags[..|tags|] == tags;
      return true, done;
    }

    /**
     * Serve the value filled under the current generations, or fill it. Nothing
     * stored under other generations is readable, and nothing else is touched.
     */
    method GetOrSet(key: Key, tags: seq<Tag>, resolve: () -> Value) returns (value: Value)
      modifies this`payload
      ensures var sk := StorageKey(key, Vector(store.generations, tags));
              && value == (if sk in old(payload) then old(payload)[sk] else resolve())
              && payload == old(payload)[sk := value]
    {
      var generations := ReadGenerations(tags);
      var sk := StorageKey(key, generations);
      if sk in payload {
        value := payload[sk];
        var current := ReadGenerations(tags);
        if current == generations {
          assert payload == payload[sk := value];
          return;
        }
      }
      value := resolve();
      var current := ReadGenerations(tags);
      if current == generations {
        payload := payload[sk := value];
      }
    }

    method ReadGenerations(tags: seq<Tag>) returns (generations: seq<nat>)
      ensures generations == Vector(store.generations, tags)
    {
      generations := [];
      for i := 0 to |tags|
        invariant |generations| == i
        invariant forall j :: 0 <= j < i ==> generations[j] == Generation(store.generations, tags[j])
      {
        var g := store.GetTagGeneration(tags[i]);
        generations := generations + [g];
      }
    }
  }
}
