/**
 * Serialized cache keys are canonical: two values have the same text exactly
 * when they are the same up to the order of object fields, set members, and map
 * entries under different keys.
 */
module CacheKeyProofs {
  import opened Common
  import opened Text
  import opened CacheKeys
  import CacheService
  import opened CacheKeyText
  import opened StableSort

  // ----- What it is to be the same value -----

  ghost predicate Same(v: Value, w: Value)
    decreases v
  {
    match v
    case Array(items) => w.Array? && SameItems(items, w.items)
    case Set(members) => w.Set? && SameMembers(members, w.members)
    case Map(entries) => w.Map? && SameEntries(entries, w.entries)
    case Object(fields) => w.Object? && SameFields(fields, w.fields)
    case _ => v == w
  }

  ghost predicate SameItems(vs: seq<Value>, ws: seq<Value>)
    decreases vs
  {
    |vs| == |ws| && forall i :: 0 <= i < |vs| ==> Same(vs[i], ws[i])
  }

  /** The members pair off, in any order. */
  ghost predicate SameMembers(vs: seq<Value>, ws: seq<Value>)
    decreases vs
  {
    if vs == [] then ws == []
    else exists j :: 0 <= j < |ws| && Same(vs[0], ws[j]) && SameMembers(vs[1..], Without(ws, j))
  }

  /** The entries pair off, each with the first unpaired one under the same key. */
  ghost predicate SameEntries(es: seq<Entry>, fs: seq<Entry>)
    decreases es
  {
    if es == [] then fs == []
    else exists j :: 0 <= j < |fs| && FirstUnder(es[0], fs, j) && SameEntries(es[1..], Without(fs, j))
  }

  ghost predicate FirstUnder(e: Entry, fs: seq<Entry>, j: nat)
    requires j < |fs|
    decreases e
  {
    match e
    case Entry(key, value) =>
      && Same(key, fs[j].key) && Same(value, fs[j].value)
      && forall i :: 0 <= i < j ==> !Same(key, fs[i].key)
  }

  /** The same names, each with the same value. */
  ghost predicate SameFields(fs: seq<Field>, gs: seq<Field>)
    decreases fs, 1
  {
    && |fs| == |gs|
    && (forall i :: 0 <= i < |fs| ==> HasField(fs[i], gs))
    && (forall j :: 0 <= j < |gs| ==> HoldsField(fs, gs[j]))
  }

  ghost predicate HasField(f: Field, gs: seq<Field>)
    decreases f, 1
  {
    exists j :: 0 <= j < |gs| && SameField(f, gs[j])
  }

  ghost predicate HoldsField(fs: seq<Field>, g: Field)
    decreases fs, 0
  {
    exists i :: 0 <= i < |fs| && SameField(fs[i], g)
  }

  ghost predicate SameField(f: Field, g: Field)
    decreases f, 0
  {
    match f
    case Field(name, value) => name == g.name && Same(value, g.value)
  }

  /** An object has each name once. */
  predicate Proper(v: Value)
    decreases v
  {
    match v
    case Array(items) => forall x :: x in items ==> Proper(x)
    case Set(members) => forall x :: x in members ==> Proper(x)
    case Map(entries) => forall e :: e in entries ==> ProperEntry(e)
    case Object(fields) => DistinctNames(fields) && forall f :: f in fields ==> ProperField(f)
    case _ => true
  }

  predicate ProperEntry(e: Entry)
    decreases e
  {
    match e
    case Entry(key, value) => Proper(key) && Proper(value)
  }

  predicate ProperField(f: Field)
    decreases f
  {
    match f
    case Field(_, value) => Proper(value)
  }

  predicate DistinctNames(fs: seq<Field>) {
    forall i, j :: 0 <= i < j < |fs| ==> fs[i].name != fs[j].name
  }

  // ----- Ranks are injective -----

  lemma JsonRankIsInjective(a: Json, b: Json)
    requires JsonRank(a) == JsonRank(b)
    ensures a == b
  {
    Utf16IsInjective(Print(a), Print(b));
    assert Print(a) + "" == Print(a) && Print(b) + "" == Print(b);
    PrintIsPrefixFree(a, b, "", "");
  }

  lemma NameRankIsInjective(a: string, b: string)
    requires NameRank(a) == NameRank(b)
    ensures a == b
  {
    var m, n := if IsIndex(a) then 2 else 1, if IsIndex(b) then 2 else 1;
    assert NameRank(a)[0] == NameRank(b)[0];
    assert NameRank(a)[m..] == Utf16(a) && NameRank(b)[n..] == Utf16(b);
    Utf16IsInjective(a, b);
  }

  // ----- Sets -----

  ghost predicate Reflects(vs: seq<Value>, ws: seq<Value>, a: seq<Json>, b: seq<Json>) {
    && |a| == |vs| && |b| == |ws|
    && forall i, j :: 0 <= i < |vs| && 0 <= j < |ws| ==> (Same(vs[i], ws[j]) <==> a[i] == b[j])
  }

  lemma {:induction false} PairingIsPermuting(vs: seq<Value>, ws: seq<Value>, a: seq<Json>, b: seq<Json>)
    requires Reflects(vs, ws, a, b)
    ensures SameMembers(vs, ws) <==> multiset(a) == multiset(b)
  {
    if vs != [] {
      forall j | 0 <= j < |ws| && Same(vs[0], ws[j])
        ensures SameMembers(vs[1..], Without(ws, j)) <==> multiset(a) == multiset(b) {
        hide Same;
        PairingIsPermuting(vs[1..], Without(ws, j), a[1..], Without(b, j));
        PermutesWithout(a, b, j);
      }
      if multiset(a) == multiset(b) {
        SameElements(a, b);
        assert a[0] in b;
        var j :| 0 <= j < |b| && b[j] == a[0];
        assert Same(vs[0], ws[j]);
      }
    }
  }

  lemma SetsSortAlikeIff(vs: seq<Value>, ws: seq<Value>, a: seq<Json>, b: seq<Json>)
    requires Reflects(vs, ws, a, b)
    ensures SortBy(a, JsonRank) == SortBy(b, JsonRank) <==> SameMembers(vs, ws)
  {
    PairingIsPermuting(vs, ws, a, b);
    SortsAlikeIff(a, b, JsonRank);
    if multiset(a) == multiset(b) {
      forall x, y | x in a && y in a && JsonRank(x) == JsonRank(y) ensures x == y {
        JsonRankIsInjective(x, y);
      }
      PermutedSortAlike(a, b, JsonRank);
    }
    if SameByRank(a, b, JsonRank) { SameByRankPermutes(a, b, JsonRank); }
  }

  // ----- Maps -----

  ghost predicate ReflectsEntries(es: seq<Entry>, fs: seq<Entry>, p: seq<Pair>, q: seq<Pair>) {
    && |p| == |es| && |q| == |fs|
    && forall i, j :: 0 <= i < |es| && 0 <= j < |fs| ==>
         && (Same(es[i].key, fs[j].key) <==> p[i].key == q[j].key)
         && (Same(es[i].value, fs[j].value) <==> p[i].value == q[j].value)
  }

  predicate FirstPair(p: Pair, q: seq<Pair>, j: nat)
    requires j < |q|
  {
    p == q[j] && forall i :: 0 <= i < j ==> PairRank(q[i]) != PairRank(p)
  }

  lemma FirstUnderIff(es: seq<Entry>, fs: seq<Entry>, p: seq<Pair>, q: seq<Pair>, j: nat)
    requires ReflectsEntries(es, fs, p, q) && es != [] && j < |fs|
    ensures FirstUnder(es[0], fs, j) <==> FirstPair(p[0], q, j)
  {
    forall i | 0 <= i < j ensures PairRank(q[i]) == PairRank(p[0]) <==> Same(es[0].key, fs[i].key) {
      if PairRank(q[i]) == PairRank(p[0]) { JsonRankIsInjective(q[i].key, p[0].key); }
    }
  }

  lemma RestSameByRank(p: seq<Pair>, q: seq<Pair>, j: nat)
    requires p != [] && j < |q| && FirstPair(p[0], q, j)
    ensures SameByRank(p[1..], Without(q, j), PairRank) <==> SameByRank(p, q, PairRank)
  {
    forall r ensures (Under(p, PairRank, r) == Under(q, PairRank, r)
                      <==> Under(p[1..], PairRank, r) == Under(Without(q, j), PairRank, r)) {
      UnderWithoutFirst(q, PairRank, j, r);
      UnderFront(p, PairRank, r);
    }
  }

  lemma FirstPairExists(p: seq<Pair>, q: seq<Pair>) returns (j: nat)
    requires SameByRank(p, q, PairRank) && p != []
    ensures j < |q| && FirstPair(p[0], q, j)
  {
    var r := PairRank(p[0]);
    assert Under(p, PairRank, r) == Under(q, PairRank, r);
    j := FirstOfRank(q, PairRank, r);
  }

  lemma {:induction false} EntriesPairOffIff(es: seq<Entry>, fs: seq<Entry>, p: seq<Pair>, q: seq<Pair>)
    requires ReflectsEntries(es, fs, p, q)
    ensures SameEntries(es, fs) <==> SameByRank(p, q, PairRank)
  {
    if es == [] {
      if fs != [] { assert Under(p, PairRank, PairRank(q[0])) == [] != Under(q, PairRank, PairRank(q[0])); }
    } else {
      forall j | 0 <= j < |fs| && FirstUnder(es[0], fs, j)
        ensures SameEntries(es[1..], Without(fs, j)) <==> SameByRank(p, q, PairRank) {
        hide FirstUnder, SameByRank;
        FirstUnderIff(es, fs, p, q, j);
        EntriesPairOffIff(es[1..], Without(fs, j), p[1..], Without(q, j));
        RestSameByRank(p, q, j);
      }
      if SameByRank(p, q, PairRank) {
        var j := FirstPairExists(p, q);
        FirstUnderIff(es, fs, p, q, j);
      }
    }
  }

  lemma MapsSortAlikeIff(es: seq<Entry>, fs: seq<Entry>, p: seq<Pair>, q: seq<Pair>)
    requires ReflectsEntries(es, fs, p, q)
    ensures SortBy(p, PairRank) == SortBy(q, PairRank) <==> SameEntries(es, fs)
  {
    EntriesPairOffIff(es, fs, p, q);
    SortsAlikeIff(p, q, PairRank);
  }

  // ----- Objects -----

  ghost predicate ReflectsFields(fs: seq<Field>, gs: seq<Field>, a: seq<Sorted>, b: seq<Sorted>) {
    && |a| == |fs| && |b| == |gs|
    && (forall i :: 0 <= i < |fs| ==> a[i].name == fs[i].name)
    && (forall j :: 0 <= j < |gs| ==> b[j].name == gs[j].name)
    && (forall i, j :: 0 <= i < |fs| && 0 <= j < |gs| ==> (SameField(fs[i], gs[j]) <==> a[i] == b[j]))
  }

  lemma {:induction false} FieldUnder(fs: seq<Field>, a: seq<Sorted>, i: nat)
    requires DistinctNames(fs) && |a| == |fs| && i < |fs|
    requires forall k :: 0 <= k < |fs| ==> a[k].name == fs[k].name
    ensures Under(a, FieldRank, FieldRank(a[i])) == [a[i]]
  {
    forall k | 0 <= k < |a| && k != i ensures FieldRank(a[k]) != FieldRank(a[i]) {
      if FieldRank(a[k]) == FieldRank(a[i]) { NameRankIsInjective(a[k].name, a[i].name); }
    }
    SingleUnder(a, FieldRank, i);
  }

  /** Two objects show the same fields exactly when their sorted fields do. */
  lemma SameFieldsByRank(fs: seq<Field>, gs: seq<Field>, a: seq<Sorted>, b: seq<Sorted>)
    requires ReflectsFields(fs, gs, a, b) && multiset(a) == multiset(b)
    ensures SameFields(fs, gs)
  {
    SameElements(a, b);
    hide SameField;
    forall i | 0 <= i < |fs| ensures HasField(fs[i], gs) {
      assert a[i] in b;
      var j :| 0 <= j < |b| && b[j] == a[i];
      assert SameField(fs[i], gs[j]);
    }
    forall j | 0 <= j < |gs| ensures HoldsField(fs, gs[j]) {
      assert b[j] in a;
      var i :| 0 <= i < |a| && a[i] == b[j];
      assert SameField(fs[i], gs[j]);
    }
  }

  lemma FieldsUnder(fs: seq<Field>, gs: seq<Field>, a: seq<Sorted>, b: seq<Sorted>, r: Rank)
    requires ReflectsFields(fs, gs, a, b) && DistinctNames(fs) && DistinctNames(gs) && SameFields(fs, gs)
    ensures Under(a, FieldRank, r) == Under(b, FieldRank, r)
  {
    hide SameField, Under, FieldRank, DistinctNames;
    UnderFindsRank(a, FieldRank, r);
    UnderFindsRank(b, FieldRank, r);
    if i :| 0 <= i < |a| && FieldRank(a[i]) == r {
      assert HasField(fs[i], gs);
      var j :| 0 <= j < |gs| && SameField(fs[i], gs[j]);
      assert a[i] == b[j];
      FieldUnder(fs, a, i);
      FieldUnder(gs, b, j);
    }
    if j :| 0 <= j < |b| && FieldRank(b[j]) == r {
      assert HoldsField(fs, gs[j]);
      var i :| 0 <= i < |fs| && SameField(fs[i], gs[j]);
      assert a[i] == b[j];
      FieldUnder(fs, a, i);
      FieldUnder(gs, b, j);
    }
  }

  lemma ObjectsSortAlikeIff(fs: seq<Field>, gs: seq<Field>, a: seq<Sorted>, b: seq<Sorted>)
    requires ReflectsFields(fs, gs, a, b) && DistinctNames(fs) && DistinctNames(gs)
    ensures SortBy(a, FieldRank) == SortBy(b, FieldRank) <==> SameFields(fs, gs)
  {
    hide ReflectsFields, DistinctNames, SameFields;
    SortsAlikeIff(a, b, FieldRank);
    if SameByRank(a, b, FieldRank) {
      SameByRankPermutes(a, b, FieldRank);
      SameFieldsByRank(fs, gs, a, b);
    }
    if SameFields(fs, gs) {
      forall r ensures Under(a, FieldRank, r) == Under(b, FieldRank, r) {
        FieldsUnder(fs, gs, a, b, r);
      }
    }
  }

  // ----- Canonical forms agree exactly on the same values -----

  /** Same values are accepted alike; accepted values have one canonical form exactly when they are the same. */
  ghost predicate Agree(v: Value, w: Value, depth: nat) {
    var c, d := Canonical(v, depth), Canonical(w, depth);
    && (Same(v, w) ==> (c.Ok? <==> d.Ok?))
    && (c.Ok? && d.Ok? ==> (c.value == d.value <==> Same(v, w)))
  }

  ghost predicate AllAgree(vs: seq<Value>, ws: seq<Value>, depth: nat) {
    forall i, j :: 0 <= i < |vs| && 0 <= j < |ws| ==> Agree(vs[i], ws[j], depth)
  }

  lemma ItemsAgree(vs: seq<Value>, ws: seq<Value>, depth: nat)
    requires AllAgree(vs, ws, depth)
    ensures var c, d := CanonicalItems(vs, depth), CanonicalItems(ws, depth);
            && (SameItems(vs, ws) ==> (c.Ok? <==> d.Ok?))
            && (c.Ok? && d.Ok? ==> (c.value == d.value <==> SameItems(vs, ws)))
  {
    hide Same, Canonical;
    var c, d := CanonicalItems(vs, depth), CanonicalItems(ws, depth);
    if SameItems(vs, ws) {
      forall i | 0 <= i < |vs| ensures Canonical(vs[i], depth).Ok? <==> Canonical(ws[i], depth).Ok? {
        assert Agree(vs[i], ws[i], depth);
      }
    }
    if c.Ok? && d.Ok? && |vs| == |ws| {
      forall i | 0 <= i < |vs| ensures c.value[i] == d.value[i] <==> Same(vs[i], ws[i]) {
        assert Agree(vs[i], ws[i], depth);
      }
    }
  }

  /** Members that pair off are accepted alike. */
  lemma {:induction false} MembersAcceptedAlike(vs: seq<Value>, ws: seq<Value>, depth: nat)
    requires AllAgree(vs, ws, depth) && SameMembers(vs, ws)
    ensures CanonicalItems(vs, depth).Ok? <==> CanonicalItems(ws, depth).Ok?
  {
    if vs != [] {
      var k :| 0 <= k < |ws| && Same(vs[0], ws[k]) && SameMembers(vs[1..], Without(ws, k));
      hide Same, SameMembers, Canonical;
      assert Agree(vs[0], ws[k], depth);
      MembersAcceptedAlike(vs[1..], Without(ws, k), depth);
      WithoutMembers(vs, 0);
      WithoutMembers(ws, k);
    }
  }

  lemma MembersAgree(vs: seq<Value>, ws: seq<Value>, depth: nat)
    requires AllAgree(vs, ws, depth)
    ensures var c, d := CanonicalItems(vs, depth), CanonicalItems(ws, depth);
            && (SameMembers(vs, ws) ==> (c.Ok? <==> d.Ok?))
            && (c.Ok? && d.Ok? ==> (SortBy(c.value, JsonRank) == SortBy(d.value, JsonRank) <==> SameMembers(vs, ws)))
  {
    hide Same, SameMembers, Canonical;
    var c, d := CanonicalItems(vs, depth), CanonicalItems(ws, depth);
    if SameMembers(vs, ws) { MembersAcceptedAlike(vs, ws, depth); }
    if c.Ok? && d.Ok? {
      forall i, j | 0 <= i < |vs| && 0 <= j < |ws| ensures Same(vs[i], ws[j]) <==> c.value[i] == d.value[j] {
        assert Agree(vs[i], ws[j], depth);
      }
      SetsSortAlikeIff(vs, ws, c.value, d.value);
    }
  }

  ghost predicate EntriesAgree(es: seq<Entry>, fs: seq<Entry>, depth: nat) {
    forall i, j :: 0 <= i < |es| && 0 <= j < |fs| ==>
      Agree(es[i].key, fs[j].key, depth) && Agree(es[i].value, fs[j].value, depth)
  }

  lemma EntriesAgreeWithout(es: seq<Entry>, fs: seq<Entry>, k: nat, depth: nat)
    requires EntriesAgree(es, fs, depth) && es != [] && k < |fs|
    ensures EntriesAgree(es[1..], Without(fs, k), depth)
    ensures Without(es, 0) == es[1..]
  {
    hide Agree;
  }

  lemma EntryAcceptedAlike(e: Entry, f: Entry, depth: nat)
    requires Same(e.key, f.key) && Same(e.value, f.value)
    requires Agree(e.key, f.key, depth) && Agree(e.value, f.value, depth)
    ensures CanonicalEntry(e, depth).Ok? <==> CanonicalEntry(f, depth).Ok?
  {
    hide Same, Canonical;
  }

  /** Entries that pair off are accepted alike. */
  lemma {:induction false} EntriesAcceptedAlike(es: seq<Entry>, fs: seq<Entry>, depth: nat)
    requires EntriesAgree(es, fs, depth) && SameEntries(es, fs)
    ensures CanonicalEntries(es, depth).Ok? <==> CanonicalEntries(fs, depth).Ok?
  {
    if es != [] {
      var k :| 0 <= k < |fs| && FirstUnder(es[0], fs, k) && SameEntries(es[1..], Without(fs, k));
      assert Same(es[0].key, fs[k].key) && Same(es[0].value, fs[k].value);
      hide Same, SameEntries, FirstUnder, CanonicalEntry;
      EntryAcceptedAlike(es[0], fs[k], depth);
      EntriesAgreeWithout(es, fs, k, depth);
      EntriesAcceptedAlike(es[1..], Without(fs, k), depth);
      WithoutMembers(es, 0);
      WithoutMembers(fs, k);
    }
  }

  lemma MapsAgree(es: seq<Entry>, fs: seq<Entry>, depth: nat)
    requires EntriesAgree(es, fs, depth)
    ensures var c, d := CanonicalEntries(es, depth), CanonicalEntries(fs, depth);
            && (SameEntries(es, fs) ==> (c.Ok? <==> d.Ok?))
            && (c.Ok? && d.Ok? ==> (SortBy(c.value, PairRank) == SortBy(d.value, PairRank) <==> SameEntries(es, fs)))
  {
    hide Same, SameEntries, Canonical, SortBy;
    var c, d := CanonicalEntries(es, depth), CanonicalEntries(fs, depth);
    if SameEntries(es, fs) { EntriesAcceptedAlike(es, fs, depth); }
    if c.Ok? && d.Ok? {
      forall i, j | 0 <= i < |es| && 0 <= j < |fs|
        ensures Same(es[i].key, fs[j].key) <==> c.value[i].key == d.value[j].key
        ensures Same(es[i].value, fs[j].value) <==> c.value[i].value == d.value[j].value {
        assert Agree(es[i].key, fs[j].key, depth) && Agree(es[i].value, fs[j].value, depth);
        assert CanonicalEntry(es[i], depth) == Ok(c.value[i]) && CanonicalEntry(fs[j], depth) == Ok(d.value[j]);
      }
      MapsSortAlikeIff(es, fs, c.value, d.value);
    }
  }

  ghost predicate FieldsAgree(fs: seq<Field>, gs: seq<Field>, depth: nat) {
    forall i, j :: 0 <= i < |fs| && 0 <= j < |gs| ==> Agree(fs[i].value, gs[j].value, depth)
  }

  ghost predicate FieldsAccepted(fs: seq<Field>, depth: nat) {
    forall i :: 0 <= i < |fs| ==> CanonicalField(fs[i], depth).value.Ok?
  }

  /** An object is accepted when each of its fields is. */
  lemma SortedFieldsAccepted(fs: seq<Field>, depth: nat)
    ensures Collected(SortBy(EachField(fs, depth), FieldRank)).Ok? <==> FieldsAccepted(fs, depth)
  {
    hide CanonicalField, SortBy, Collected, EachField;
    var each := EachField(fs, depth);
    var sorted := SortBy(each, FieldRank);
    SortPermutes(each, FieldRank);
    SameElements(sorted, each);
    if FieldsAccepted(fs, depth) {
      forall f | f in sorted ensures f.value.Ok? {
        var i :| 0 <= i < |each| && each[i] == f;
      }
    }
    if Collected(sorted).Ok? {
      forall i | 0 <= i < |fs| ensures CanonicalField(fs[i], depth).value.Ok? {
        assert each[i] in sorted;
      }
    }
  }

  lemma FieldAcceptedAlike(f: Field, g: Field, depth: nat)
    requires SameField(f, g) && Agree(f.value, g.value, depth)
    ensures CanonicalField(f, depth).value.Ok? <==> CanonicalField(g, depth).value.Ok?
  {
    hide Same, Canonical;
  }

  lemma FieldsAcceptedAlike(fs: seq<Field>, gs: seq<Field>, depth: nat)
    requires FieldsAgree(fs, gs, depth) && SameFields(fs, gs)
    ensures FieldsAccepted(fs, depth) <==> FieldsAccepted(gs, depth)
  {
    hide SameField, Agree, CanonicalField;
    if FieldsAccepted(gs, depth) {
      forall i | 0 <= i < |fs| ensures CanonicalField(fs[i], depth).value.Ok? {
        assert HasField(fs[i], gs);
        var j :| 0 <= j < |gs| && SameField(fs[i], gs[j]);
        FieldAcceptedAlike(fs[i], gs[j], depth);
      }
    }
    if FieldsAccepted(fs, depth) {
      forall j | 0 <= j < |gs| ensures CanonicalField(gs[j], depth).value.Ok? {
        assert HoldsField(fs, gs[j]);
        var i :| 0 <= i < |fs| && SameField(fs[i], gs[j]);
        FieldAcceptedAlike(fs[i], gs[j], depth);
      }
    }
  }

  lemma FieldsReflected(fs: seq<Field>, gs: seq<Field>, depth: nat)
    requires FieldsAgree(fs, gs, depth) && FieldsAccepted(fs, depth) && FieldsAccepted(gs, depth)
    ensures ReflectsFields(fs, gs, EachField(fs, depth), EachField(gs, depth))
  {
    hide Same, Canonical;
    forall i, j | 0 <= i < |fs| && 0 <= j < |gs|
      ensures SameField(fs[i], gs[j]) <==> EachField(fs, depth)[i] == EachField(gs, depth)[j] {
      assert Agree(fs[i].value, gs[j].value, depth);
    }
  }

  lemma ObjectsAgree(fs: seq<Field>, gs: seq<Field>, depth: nat)
    requires FieldsAgree(fs, gs, depth) && DistinctNames(fs) && DistinctNames(gs)
    ensures var c := Collected(SortBy(EachField(fs, depth), FieldRank));
            var d := Collected(SortBy(EachField(gs, depth), FieldRank));
            && (SameFields(fs, gs) ==> (c.Ok? <==> d.Ok?))
            && (c.Ok? && d.Ok? ==> (c.value == d.value <==> SameFields(fs, gs)))
  {
    hide SameFields, DistinctNames, SortBy, Collected, FieldsAgree, FieldsAccepted, ReflectsFields;
    SortedFieldsAccepted(fs, depth);
    SortedFieldsAccepted(gs, depth);
    var a, b := EachField(fs, depth), EachField(gs, depth);
    if SameFields(fs, gs) { FieldsAcceptedAlike(fs, gs, depth); }
    if Collected(SortBy(a, FieldRank)).Ok? && Collected(SortBy(b, FieldRank)).Ok? {
      FieldsReflected(fs, gs, depth);
      ObjectsSortAlikeIff(fs, gs, a, b);
    }
  }

  // ----- The main result -----

  /** What a plain object never has, and every typed form begins with. */
  predicate IsTyped(j: Json) {
    j.JObject? && j.members != [] && j.members[0].name == TYPE_KEY
  }

  lemma SortedFieldIsGiven(fs: seq<Field>, depth: nat)
    requires fs != []
    ensures SortBy(EachField(fs, depth), FieldRank) != []
    ensures exists f :: f in fs && f.name == SortBy(EachField(fs, depth), FieldRank)[0].name
  {
    hide Canonical, SortBy;
    var each := EachField(fs, depth);
    var sorted := SortBy(each, FieldRank);
    SortPermutes(each, FieldRank);
    SameElements(sorted, each);
    assert sorted[0] in each;
    var i :| 0 <= i < |each| && each[i] == sorted[0];
    assert fs[i] in fs && fs[i].name == sorted[0].name;
  }

  lemma ObjectIsUntyped(fs: seq<Field>, depth: nat)
    requires Canonical(Object(fs), depth).Ok?
    ensures Canonical(Object(fs), depth).value.JObject? && !IsTyped(Canonical(Object(fs), depth).value)
  {
    hide Canonical, EachField, SortBy;
    ObjectForm(fs, depth);
    var sorted := SortBy(EachField(fs, depth + 1), FieldRank);
    if Collected(sorted).value != [] {
      if fs == [] {
        SortPermutes(EachField(fs, depth + 1), FieldRank);
        SameElements(sorted, EachField(fs, depth + 1));
      } else {
        SortedFieldIsGiven(fs, depth + 1);
      }
    }
  }

  lemma PairArraysAreInjective(p: seq<Pair>, q: seq<Pair>)
    requires PairArrays(p) == PairArrays(q)
    ensures p == q
  {
    assert |PairArrays(p)| == |p| && |PairArrays(q)| == |q|;
    forall i | 0 <= i < |p| ensures p[i] == q[i] {
      var x, y := PairArrays(p)[i].items, PairArrays(q)[i].items;
      assert x[0] == p[i].key && x[1] == p[i].value && y[0] == q[i].key && y[1] == q[i].value;
    }
  }

  lemma ArrayFormsAgree(vs: seq<Value>, ws: seq<Value>, depth: nat)
    requires AllAgree(vs, ws, depth + 1)
    ensures Agree(Array(vs), Array(ws), depth)
  {
    ItemsAgree(vs, ws, depth + 1);
    hide SameItems, CanonicalItems;
  }

  lemma SetForm(vs: seq<Value>, depth: nat)
    ensures var c := CanonicalItems(vs, depth + 1);
            && (Canonical(Set(vs), depth).Ok? <==> depth <= 100 && c.Ok?)
            && (Canonical(Set(vs), depth).Ok?
                ==> Canonical(Set(vs), depth).value == Typed("Set", JArray(SortBy(c.value, JsonRank))))
  {
    hide Typed, CanonicalItems, SortBy;
  }

  lemma SetFormsAgree(vs: seq<Value>, ws: seq<Value>, depth: nat)
    requires AllAgree(vs, ws, depth + 1)
    ensures Agree(Set(vs), Set(ws), depth)
  {
    assert Same(Set(vs), Set(ws)) <==> SameMembers(vs, ws);
    hide Same, SameMembers, Canonical, CanonicalItems, AllAgree, SortBy, Typed;
    MembersAgree(vs, ws, depth + 1);
    SetForm(vs, depth);
    SetForm(ws, depth);
    if Canonical(Set(vs), depth).Ok? && Canonical(Set(ws), depth).Ok? {
      var c, d := CanonicalItems(vs, depth + 1), CanonicalItems(ws, depth + 1);
      TypedListsAgree("Set", SortBy(c.value, JsonRank), SortBy(d.value, JsonRank));
    }
  }

  lemma TypedListsAgree(kind: string, a: seq<Json>, b: seq<Json>)
    ensures Typed(kind, JArray(a)) == Typed(kind, JArray(b)) <==> a == b
  {
  }

  lemma MapForm(es: seq<Entry>, depth: nat)
    ensures var c := CanonicalEntries(es, depth + 1);
            && (Canonical(Map(es), depth).Ok? <==> depth <= 100 && c.Ok?)
            && (Canonical(Map(es), depth).Ok?
                ==> Canonical(Map(es), depth).value == Typed("Map", JArray(PairArrays(SortBy(c.value, PairRank)))))
  {
    hide Typed, CanonicalEntries, SortBy, PairArrays;
  }

  lemma MapFormsAgree(es: seq<Entry>, fs: seq<Entry>, depth: nat)
    requires EntriesAgree(es, fs, depth + 1)
    ensures Agree(Map(es), Map(fs), depth)
  {
    assert Same(Map(es), Map(fs)) <==> SameEntries(es, fs);
    hide Same, SameEntries, Canonical, CanonicalEntries, EntriesAgree, SortBy, PairArrays, Typed;
    MapsAgree(es, fs, depth + 1);
    MapForm(es, depth);
    MapForm(fs, depth);
    if Canonical(Map(es), depth).Ok? && Canonical(Map(fs), depth).Ok? {
      var c, d := CanonicalEntries(es, depth + 1), CanonicalEntries(fs, depth + 1);
      var p, q := SortBy(c.value, PairRank), SortBy(d.value, PairRank);
      TypedListsAgree("Map", PairArrays(p), PairArrays(q));
      if PairArrays(p) == PairArrays(q) { PairArraysAreInjective(p, q); }
    }
  }

  lemma ReservedAlike(fs: seq<Field>, gs: seq<Field>)
    requires SameFields(fs, gs)
    ensures HasReservedName(fs) <==> HasReservedName(gs)
  {
    hide Same;
    if f :| f in fs && f.name == TYPE_KEY {
      var i :| 0 <= i < |fs| && fs[i] == f;
      assert HasField(fs[i], gs);
      var j :| 0 <= j < |gs| && SameField(fs[i], gs[j]);
      assert gs[j] in gs;
    }
    if g :| g in gs && g.name == TYPE_KEY {
      var j :| 0 <= j < |gs| && gs[j] == g;
      assert HoldsField(fs, gs[j]);
      var i :| 0 <= i < |fs| && SameField(fs[i], gs[j]);
      assert fs[i] in fs;
    }
  }

  lemma ObjectForm(fs: seq<Field>, depth: nat)
    ensures var c := Collected(SortBy(EachField(fs, depth + 1), FieldRank));
            && (Canonical(Object(fs), depth).Ok?
                <==> depth <= 100 && !HasReservedName(fs) && |fs| <= 10_000 && c.Ok?)
            && (Canonical(Object(fs), depth).Ok? ==> Canonical(Object(fs), depth).value == JObject(c.value))
  {
    hide EachField, SortBy, Collected, HasReservedName;
  }

  lemma ObjectFormsAgree(fs: seq<Field>, gs: seq<Field>, depth: nat)
    requires FieldsAgree(fs, gs, depth + 1) && DistinctNames(fs) && DistinctNames(gs)
    ensures Agree(Object(fs), Object(gs), depth)
  {
    assert Same(Object(fs), Object(gs)) <==> SameFields(fs, gs);
    assert SameFields(fs, gs) ==> |fs| == |gs|;
    hide Same, SameFields, Canonical, EachField, SortBy, Collected, HasReservedName, FieldsAgree, DistinctNames;
    ObjectsAgree(fs, gs, depth + 1);
    ObjectForm(fs, depth);
    ObjectForm(gs, depth);
    if SameFields(fs, gs) { ReservedAlike(fs, gs); }
  }

  /** Accepted alike and canonical, whatever the values. */
  lemma {:induction false} CanonicalIff(v: Value, w: Value, depth: nat)
    requires Proper(v) && Proper(w)
    ensures Agree(v, w, depth)
    decreases v
  {
    match v
    case Array(items) =>
      if w.Array? {
        EachAgrees(items, w.items, depth + 1);
        ArrayFormsAgree(items, w.items, depth);
      } else {
        KindsDiffer(v, w, depth);
      }
    case Set(members) =>
      if w.Set? {
        EachAgrees(members, w.members, depth + 1);
        SetFormsAgree(members, w.members, depth);
      } else {
        KindsDiffer(v, w, depth);
      }
    case Map(entries) =>
      if w.Map? {
        EachEntryAgrees(entries, w.entries, depth + 1);
        MapFormsAgree(entries, w.entries, depth);
      } else {
        KindsDiffer(v, w, depth);
      }
    case Object(fields) =>
      if w.Object? {
        EachFieldAgrees(fields, w.fields, depth + 1);
        ObjectFormsAgree(fields, w.fields, depth);
      } else {
        KindsDiffer(v, w, depth);
      }
    case _ => KindsDiffer(v, w, depth);
  }

  lemma {:induction false} EachAgrees(vs: seq<Value>, ws: seq<Value>, depth: nat)
    requires (forall v :: v in vs ==> Proper(v)) && (forall w :: w in ws ==> Proper(w))
    ensures AllAgree(vs, ws, depth)
    decreases vs
  {
    hide Agree, Proper;
    forall i, j | 0 <= i < |vs| && 0 <= j < |ws| ensures Agree(vs[i], ws[j], depth) {
      CanonicalIff(vs[i], ws[j], depth);
    }
  }

  lemma {:induction false} EachEntryAgrees(es: seq<Entry>, fs: seq<Entry>, depth: nat)
    requires (forall e :: e in es ==> ProperEntry(e)) && (forall f :: f in fs ==> ProperEntry(f))
    ensures EntriesAgree(es, fs, depth)
    decreases es
  {
    hide Agree, Proper, ProperEntry;
    forall i, j | 0 <= i < |es| && 0 <= j < |fs|
      ensures Agree(es[i].key, fs[j].key, depth) && Agree(es[i].value, fs[j].value, depth) {
      EntryAgrees(es[i], fs[j], depth);
    }
  }

  lemma {:induction false} EntryAgrees(e: Entry, f: Entry, depth: nat)
    requires ProperEntry(e) && ProperEntry(f)
    ensures Agree(e.key, f.key, depth) && Agree(e.value, f.value, depth)
    decreases e
  {
    hide Agree, Proper;
    match e
    case Entry(key, value) =>
      CanonicalIff(key, f.key, depth);
      CanonicalIff(value, f.value, depth);
  }

  lemma {:induction false} EachFieldAgrees(fs: seq<Field>, gs: seq<Field>, depth: nat)
    requires (forall f :: f in fs ==> ProperField(f)) && (forall g :: g in gs ==> ProperField(g))
    ensures FieldsAgree(fs, gs, depth)
    decreases fs
  {
    hide Agree, Proper, ProperField;
    forall i, j | 0 <= i < |fs| && 0 <= j < |gs| ensures Agree(fs[i].value, gs[j].value, depth) {
      FieldAgrees(fs[i], gs[j], depth);
    }
  }

  lemma {:induction false} FieldAgrees(f: Field, g: Field, depth: nat)
    requires ProperField(f) && ProperField(g)
    ensures Agree(f.value, g.value, depth)
    decreases f
  {
    hide Agree, Proper;
    match f
    case Field(_, value) => CanonicalIff(value, g.value, depth);
  }

  /** The kind of a value shows in its canonical form. */
  function Kind(v: Value): string {
    match v
    case Undefined => "undefined"
    case NaN => "NaN"
    case Infinite(positive) => if positive then "Infinity" else "-Infinity"
    case BigInt(_) => "BigInt"
    case Date(_) => "Date"
    case Set(_) => "Set"
    case Map(_) => "Map"
    case _ => ""
  }

  lemma KindShows(v: Value, depth: nat)
    requires Canonical(v, depth).Ok?
    ensures var j := Canonical(v, depth).value;
            && (IsTyped(j) <==> Kind(v) != "")
            && (IsTyped(j) ==> j.members[0].value == JText(Kind(v)))
            && (!IsTyped(j) ==> (j.JObject? <==> v.Object?) && (j.JArray? <==> v.Array?))
  {
    if v.Object? { ObjectIsUntyped(v.fields, depth); }
  }

  predicate IsComposite(v: Value) {
    v.Array? || v.Set? || v.Map? || v.Object?
  }

  predicate OneKindOfComposite(v: Value, w: Value) {
    (v.Array? && w.Array?) || (v.Set? && w.Set?) || (v.Map? && w.Map?) || (v.Object? && w.Object?)
  }

  lemma OtherwiseSameIsEqual(v: Value, w: Value)
    requires !OneKindOfComposite(v, w)
    ensures Same(v, w) <==> v == w
  {
    hide SameItems, SameMembers, SameEntries, SameFields;
  }

  lemma KindsDiffer(v: Value, w: Value, depth: nat)
    requires !OneKindOfComposite(v, w)
    ensures Agree(v, w, depth)
  {
    hide Canonical, Same, IsTyped;
    OtherwiseSameIsEqual(v, w);
    if Canonical(v, depth).Ok? && Canonical(w, depth).Ok? {
      KindShows(v, depth);
      KindShows(w, depth);
      if !IsComposite(v) && !IsComposite(w) { ScalarsAgree(v, w, depth); }
    }
  }

  lemma ScalarsAgree(v: Value, w: Value, depth: nat)
    requires !IsComposite(v) && !IsComposite(w) && Canonical(v, depth).Ok? && Canonical(w, depth).Ok?
    ensures Canonical(v, depth) == Canonical(w, depth) <==> v == w
  {
    KindShows(v, depth);
    KindShows(w, depth);
    if v.BigInt? && w.BigInt? && Canonical(v, depth) == Canonical(w, depth) {
    }
    if v.Date? && w.Date? && Canonical(v, depth) == Canonical(w, depth) {
    }
  }

  lemma PrintIsInjective(a: Json, b: Json)
    requires Print(a) == Print(b)
    ensures a == b
  {
    assert Print(a) + "" == Print(a) && Print(b) + "" == Print(b);
    PrintIsPrefixFree(a, b, "", "");
  }

  /** Two values serialize alike if and only if they are the same. */
  lemma SerializesAlikeIff(v: Value, w: Value)
    requires Proper(v) && Proper(w)
    ensures var c, d := SerializeCacheKeyPart(v), SerializeCacheKeyPart(w);
            && (Same(v, w) ==> (c.Ok? <==> d.Ok?))
            && (c.Ok? && d.Ok? ==> (c == d <==> Same(v, w)))
  {
    hide Canonical, Same, Print, Proper;
    CanonicalIff(v, w, 0);
    var c, d := Canonical(v, 0), Canonical(w, 0);
    if c.Ok? && d.Ok? && Print(c.value) == Print(d.value) { PrintIsInjective(c.value, d.value); }
  }

  /** Two cached reads share a key if and only if prefix and scope are equal and their values the same. */
  lemma KeysAgreeIff(prefix: string, scope: string, v: Value, otherPrefix: string, otherScope: string, w: Value)
    requires Proper(v) && Proper(w) && SerializeCacheKeyPart(v).Ok? && SerializeCacheKeyPart(w).Ok?
    ensures var key := Joined(prefix, scope, SerializeCacheKeyPart(v).value);
            var otherKey := Joined(otherPrefix, otherScope, SerializeCacheKeyPart(w).value);
            key == otherKey <==> prefix == otherPrefix && scope == otherScope && Same(v, w)
  {
    SerializesAlikeIff(v, w);
    hide SerializeCacheKeyPart, Same, Joined;
    var s, t := SerializeCacheKeyPart(v).value, SerializeCacheKeyPart(w).value;
    if Joined(prefix, scope, s) == Joined(otherPrefix, otherScope, t) {
      BuildKeyIsInjective(prefix, scope, s, otherPrefix, otherScope, t);
    }
  }

  // ----- Order -----

  /** The order in which a set was filled does not show. */
  lemma SetOrderIsFree(vs: seq<Value>, ws: seq<Value>)
    requires multiset(vs) == multiset(ws) && SerializeCacheKeyPart(Set(vs)).Ok?
    ensures SerializeCacheKeyPart(Set(ws)) == SerializeCacheKeyPart(Set(vs))
  {
    hide Canonical, SortBy, Typed, Print;
    SetForm(vs, 0);
    SetForm(ws, 0);
    SameElements(vs, ws);
    var c, d := CanonicalItems(vs, 1), CanonicalItems(ws, 1);
    PermutedAlong(vs, ws, c.value, d.value);
    forall x, y | x in c.value && y in c.value && JsonRank(x) == JsonRank(y) ensures x == y {
      JsonRankIsInjective(x, y);
    }
    PermutedSortAlike(c.value, d.value, JsonRank);
    SortsAlikeIff(c.value, d.value, JsonRank);
  }

  /** Every order of these entries serializes alike. */
  ghost predicate OrderIsFree(es: seq<Entry>) {
    forall fs :: multiset(fs) == multiset(es) ==> SerializeCacheKeyPart(Map(fs)) == SerializeCacheKeyPart(Map(es))
  }

  /** Entries under the same key hold the same value. */
  ghost predicate KeysDecide(es: seq<Entry>) {
    forall i, k :: 0 <= i < |es| && 0 <= k < |es| && Same(es[i].key, es[k].key) ==> Same(es[i].value, es[k].value)
  }

  lemma MapFormsAlike(es: seq<Entry>, fs: seq<Entry>)
    requires SerializeCacheKeyPart(Map(es)).Ok? && CanonicalEntries(fs, 1).Ok?
    ensures SerializeCacheKeyPart(Map(fs)) == SerializeCacheKeyPart(Map(es))
            <==> SameByRank(CanonicalEntries(fs, 1).value, CanonicalEntries(es, 1).value, PairRank)
  {
    hide Canonical, CanonicalEntries, SortBy, SameByRank, Typed, Print, PairArrays;
    MapForm(es, 0);
    MapForm(fs, 0);
    var p, q := CanonicalEntries(es, 1).value, CanonicalEntries(fs, 1).value;
    SortsAlikeIff(q, p, PairRank);
    var s, t := SortBy(p, PairRank), SortBy(q, PairRank);
    if Print(Typed("Map", JArray(PairArrays(t)))) == Print(Typed("Map", JArray(PairArrays(s)))) {
      PrintIsInjective(Typed("Map", JArray(PairArrays(t))), Typed("Map", JArray(PairArrays(s))));
      TypedListsAgree("Map", PairArrays(t), PairArrays(s));
      PairArraysAreInjective(t, s);
    }
  }

  lemma EntryForms(es: seq<Entry>, i: nat, k: nat)
    requires Proper(Map(es)) && CanonicalEntries(es, 1).Ok? && i < |es| && k < |es|
    ensures var p := CanonicalEntries(es, 1).value;
            && (Same(es[i].key, es[k].key) <==> PairRank(p[i]) == PairRank(p[k]))
            && (Same(es[i].value, es[k].value) <==> p[i].value == p[k].value)
  {
    assert forall e :: e in es ==> ProperEntry(e);
    hide Same, Canonical, Proper, ProperEntry, PairRank, CanonicalEntry, CanonicalEntries;
    EachEntryAgrees(es, es, 1);
    var p := CanonicalEntries(es, 1).value;
    assert Agree(es[i].key, es[k].key, 1) && Agree(es[i].value, es[k].value, 1);
    KeysRankAlike(p[i], p[k]);
  }

  lemma KeysRankAlike(x: Pair, y: Pair)
    ensures PairRank(x) == PairRank(y) <==> x.key == y.key
  {
    if PairRank(x) == PairRank(y) { JsonRankIsInjective(x.key, y.key); }
  }

  lemma DecidedPairs(es: seq<Entry>, x: Pair, y: Pair)
    requires Proper(Map(es)) && CanonicalEntries(es, 1).Ok? && KeysDecide(es)
    requires x in CanonicalEntries(es, 1).value && y in CanonicalEntries(es, 1).value && PairRank(x) == PairRank(y)
    ensures x == y
  {
    hide Same, Canonical, Proper, PairRank;
    var p := CanonicalEntries(es, 1).value;
    var i :| 0 <= i < |p| && p[i] == x;
    var k :| 0 <= k < |p| && p[k] == y;
    EntryForms(es, i, k);
    KeysRankAlike(x, y);
  }

  lemma DecidedKeysFreeOrder(es: seq<Entry>, fs: seq<Entry>)
    requires Proper(Map(es)) && SerializeCacheKeyPart(Map(es)).Ok? && KeysDecide(es)
    requires multiset(fs) == multiset(es)
    ensures SerializeCacheKeyPart(Map(fs)) == SerializeCacheKeyPart(Map(es))
  {
    hide KeysDecide, Canonical, CanonicalEntry, Proper, PairRank, Print, SortBy, Typed, PairArrays, SameByRank;
    MapForm(es, 0);
    SameElements(fs, es);
    var p, q := CanonicalEntries(es, 1).value, CanonicalEntries(fs, 1).value;
    PermutedAlong(fs, es, q, p);
    SameElements(q, p);
    forall x, y | x in q && y in q && PairRank(x) == PairRank(y) ensures x == y {
      DecidedPairs(es, x, y);
    }
    PermutedSortAlike(q, p, PairRank);
    MapFormsAlike(es, fs);
  }

  lemma UndecidedKeysShowOrder(es: seq<Entry>, i: nat, k: nat) returns (fs: seq<Entry>)
    requires Proper(Map(es)) && SerializeCacheKeyPart(Map(es)).Ok?
    requires i < |es| && k < |es| && Same(es[i].key, es[k].key) && !Same(es[i].value, es[k].value)
    ensures multiset(fs) == multiset(es)
    ensures SerializeCacheKeyPart(Map(fs)) != SerializeCacheKeyPart(Map(es))
  {
    hide Same, Canonical, CanonicalEntry, Proper, Print, SortBy, Typed, PairArrays, PairRank;
    MapForm(es, 0);
    EntryForms(es, i, k);
    var p := CanonicalEntries(es, 1).value;
    var r := PairRank(p[i]);
    UnderFindsRank(p, PairRank, r);
    var m := if Under(p, PairRank, r)[0] == p[i] then k else i;
    fs := [es[m]] + Without(es, m);
    WithoutIsMultiset(es, m);
    SameElements(fs, es);
    var q := CanonicalEntries(fs, 1).value;
    assert q[0] == p[m];
    assert Under(q, PairRank, r)[0] == p[m];
    MapFormsAlike(es, fs);
  }

  /** The order in which a map was filled never shows if and only if entries under the same key hold the same value. */
  lemma MapOrderIsFreeIff(es: seq<Entry>)
    requires Proper(Map(es)) && SerializeCacheKeyPart(Map(es)).Ok?
    ensures OrderIsFree(es) <==> KeysDecide(es)
  {
    if KeysDecide(es) {
      forall fs | multiset(fs) == multiset(es)
        ensures SerializeCacheKeyPart(Map(fs)) == SerializeCacheKeyPart(Map(es)) {
        DecidedKeysFreeOrder(es, fs);
      }
    } else {
      var i, k :| 0 <= i < |es| && 0 <= k < |es| && Same(es[i].key, es[k].key) && !Same(es[i].value, es[k].value);
      var fs := UndecidedKeysShowOrder(es, i, k);
      assert multiset(fs) == multiset(es);
    }
  }

  // ----- Storage keys -----

  lemma {:induction false} DecimalIsInjective(m: nat, n: nat)
    requires Decimal(m) == Decimal(n)
    ensures m == n
  {
    var s, t := Decimal(m), Decimal(n);
    assert s[|s| - 1] == t[|t| - 1];
    assert s[..|s| - 1] == (if m < 10 then "" else Decimal(m / 10));
    assert t[..|t| - 1] == (if n < 10 then "" else Decimal(n / 10));
    if m >= 10 { DecimalIsInjective(m / 10, n / 10); }
  }

  function GenerationForms(generations: seq<nat>): seq<Json> {
    if generations == [] then [] else [JText(Decimal(generations[0]))] + GenerationForms(generations[1..])
  }

  lemma {:induction false} GenerationsSerialize(generations: seq<nat>)
    ensures CanonicalItems(GenerationTexts(generations), 1) == Ok(GenerationForms(generations))
  {
    if generations != [] { GenerationsSerialize(generations[1..]); }
  }

  lemma {:induction false} GenerationFormsAreInjective(g: seq<nat>, h: seq<nat>)
    requires GenerationForms(g) == GenerationForms(h)
    ensures g == h
  {
    if g != [] && h != [] {
      assert GenerationForms(g)[0] == GenerationForms(h)[0];
      DecimalIsInjective(g[0], h[0]);
      assert GenerationForms(g)[1..] == GenerationForms(g[1..]) && GenerationForms(h)[1..] == GenerationForms(h[1..]);
      GenerationFormsAreInjective(g[1..], h[1..]);
      assert g == [g[0]] + g[1..] && h == [h[0]] + h[1..];
    }
  }

  /** The text of a read with tags: the quoted vector, a separator, the key. */
  lemma TaggedText(sk: CacheService.StorageKey)
    requires sk.generations != []
    ensures StorageText(sk)
            == Ok(GENERATION_PREFIX + Print(JText(Print(JArray(GenerationForms(sk.generations))))) + [':'] + sk.key)
  {
    GenerationsSerialize(sk.generations);
    hide Print, CanonicalItems, GenerationForms, GenerationTexts;
  }

  lemma TaggedKeysAreDistinct(a: CacheService.StorageKey, b: CacheService.StorageKey)
    requires a.generations != [] && b.generations != [] && StorageText(a) == StorageText(b)
    ensures a == b
  {
    hide StorageText, Print, GenerationForms;
    TaggedText(a);
    TaggedText(b);
    var g, h := JArray(GenerationForms(a.generations)), JArray(GenerationForms(b.generations));
    var u, v := [':'] + a.key, [':'] + b.key;
    Regroup(GENERATION_PREFIX, Print(JText(Print(g))), [':'], a.key);
    Regroup(GENERATION_PREFIX, Print(JText(Print(h))), [':'], b.key);
    Peel(GENERATION_PREFIX, Print(JText(Print(g))) + u, GENERATION_PREFIX, Print(JText(Print(h))) + v);
    PrintIsPrefixFree(JText(Print(g)), JText(Print(h)), u, v);
    Peel([':'], a.key, [':'], b.key);
    PrintIsInjective(g, h);
    GenerationFormsAreInjective(a.generations, b.generations);
  }

  lemma Regroup(a: string, b: string, c: string, d: string)
    ensures a + b + c + d == a + (b + (c + d))
  {
  }

  /** Storage keys are told apart by their text, provided no key holds a quote; a built key holds none. */
  lemma StorageKeysAreDistinct(a: CacheService.StorageKey, b: CacheService.StorageKey)
    requires '"' !in a.key && '"' !in b.key && StorageText(a) == StorageText(b)
    ensures a == b
  {
    if a.generations == [] && b.generations != [] {
    } else if a.generations != [] && b.generations == [] {
    } else if a.generations != [] && b.generations != [] {
      TaggedKeysAreDistinct(a, b);
    }
  }

}
