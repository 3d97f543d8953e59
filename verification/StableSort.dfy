/**
 * Stable sorting by rank: the sort keeps the order within each rank, and the
 * orders within the ranks determine the sorted list.
 */
module StableSort {
  import opened Text

  type Rank = seq<nat>

  /** In front of everything that does not rank below it. */
  function Insert<T>(x: T, xs: seq<T>, rank: T -> Rank): seq<T> {
    if xs == [] || Compare(rank(x), rank(xs[0])) <= 0 then [x] + xs else [xs[0]] + Insert(x, xs[1..], rank)
  }

  /** The stable sort. */
  function SortBy<T>(xs: seq<T>, rank: T -> Rank): seq<T> {
    if xs == [] then [] else Insert(xs[0], SortBy(xs[1..], rank), rank)
  }

  // ----- The order within a rank -----

  /** The elements of one rank, in order. */
  function Under<T>(xs: seq<T>, rank: T -> Rank, r: Rank): seq<T> {
    if xs == [] then [] else (if rank(xs[0]) == r then [xs[0]] else []) + Under(xs[1..], rank, r)
  }

  ghost predicate SameByRank<T>(xs: seq<T>, ys: seq<T>, rank: T -> Rank) {
    forall r :: Under(xs, rank, r) == Under(ys, rank, r)
  }

  predicate NoneBelow<T>(r: Rank, xs: seq<T>, rank: T -> Rank) {
    forall i :: 0 <= i < |xs| ==> Compare(r, rank(xs[i])) <= 0
  }

  predicate SortedBy<T>(xs: seq<T>, rank: T -> Rank) {
    xs != [] ==> NoneBelow(rank(xs[0]), xs[1..], rank) && SortedBy(xs[1..], rank)
  }

  lemma {:induction false} InsertPermutes<T>(x: T, xs: seq<T>, rank: T -> Rank)
    ensures multiset(Insert(x, xs, rank)) == multiset([x] + xs)
  {
    if xs != [] {
      assert xs == [xs[0]] + xs[1..];
      InsertPermutes(x, xs[1..], rank);
    }
  }

  lemma {:induction false} SortPermutes<T>(xs: seq<T>, rank: T -> Rank)
    ensures multiset(SortBy(xs, rank)) == multiset(xs)
  {
    if xs != [] {
      assert xs == [xs[0]] + xs[1..];
      SortPermutes(xs[1..], rank);
      InsertPermutes(xs[0], SortBy(xs[1..], rank), rank);
    }
  }

  lemma SameElements<T>(xs: seq<T>, ys: seq<T>)
    requires multiset(xs) == multiset(ys)
    ensures |xs| == |ys|
    ensures forall x :: x in xs <==> x in ys
  {
    assert |xs| == |multiset(xs)| && |ys| == |multiset(ys)|;
    assert forall x :: x in xs <==> x in multiset(xs);
    assert forall x :: x in ys <==> x in multiset(ys);
  }

  lemma {:induction false} InsertNoneBelow<T>(r: Rank, x: T, xs: seq<T>, rank: T -> Rank)
    requires NoneBelow(r, xs, rank) && Compare(r, rank(x)) <= 0
    ensures NoneBelow(r, Insert(x, xs, rank), rank)
  {
    if xs != [] { InsertNoneBelow(r, x, xs[1..], rank); }
  }

  lemma NoneBelowHead<T>(r: Rank, xs: seq<T>, rank: T -> Rank)
    requires SortedBy(xs, rank) && (xs != [] ==> Compare(r, rank(xs[0])) <= 0)
    ensures NoneBelow(r, xs, rank)
  {
    forall i | 0 <= i < |xs| ensures Compare(r, rank(xs[i])) <= 0 {
      if i > 0 {
        assert xs[i] == xs[1..][i - 1];
        CompareIsTransitive(r, rank(xs[0]), rank(xs[i]));
      }
    }
  }

  lemma {:induction false} InsertIsSorted<T>(x: T, xs: seq<T>, rank: T -> Rank)
    requires SortedBy(xs, rank)
    ensures SortedBy(Insert(x, xs, rank), rank)
  {
    var r := Insert(x, xs, rank);
    if xs == [] || Compare(rank(x), rank(xs[0])) <= 0 {
      NoneBelowHead(rank(x), xs, rank);
      assert r[1..] == xs;
    } else {
      CompareIsAntisymmetric(rank(x), rank(xs[0]));
      InsertIsSorted(x, xs[1..], rank);
      InsertNoneBelow(rank(xs[0]), x, xs[1..], rank);
      assert r[1..] == Insert(x, xs[1..], rank);
    }
  }

  lemma {:induction false} SortIsSorted<T>(xs: seq<T>, rank: T -> Rank)
    ensures SortedBy(SortBy(xs, rank), rank)
  {
    if xs != [] {
      SortIsSorted(xs[1..], rank);
      InsertIsSorted(xs[0], SortBy(xs[1..], rank), rank);
    }
  }

  lemma {:induction false} UnderInsert<T>(x: T, xs: seq<T>, rank: T -> Rank, r: Rank)
    ensures Under(Insert(x, xs, rank), rank, r)
            == if rank(x) == r then [x] + Under(xs, rank, r) else Under(xs, rank, r)
  {
    if xs == [] || Compare(rank(x), rank(xs[0])) <= 0 {
      assert ([x] + xs)[1..] == xs;
    } else {
      UnderInsert(x, xs[1..], rank, r);
      assert Insert(x, xs, rank)[1..] == Insert(x, xs[1..], rank);
    }
  }

  /** The sort is stable: it keeps the order within each rank. */
  lemma {:induction false} SortIsStable<T>(xs: seq<T>, rank: T -> Rank, r: Rank)
    ensures Under(SortBy(xs, rank), rank, r) == Under(xs, rank, r)
  {
    if xs != [] {
      SortIsStable(xs[1..], rank, r);
      UnderInsert(xs[0], SortBy(xs[1..], rank), rank, r);
    }
  }

  lemma {:induction false} UnderFindsRank<T>(xs: seq<T>, rank: T -> Rank, r: Rank)
    ensures Under(xs, rank, r) != [] <==> exists i :: 0 <= i < |xs| && rank(xs[i]) == r
  {
    if xs != [] {
      UnderFindsRank(xs[1..], rank, r);
      assert forall i :: 0 < i < |xs| ==> xs[i] == xs[1..][i - 1];
    }
  }

  lemma UnderFront<T>(xs: seq<T>, rank: T -> Rank, r: Rank)
    requires xs != []
    ensures rank(xs[0]) == r ==> Under(xs, rank, r) != [] && Under(xs, rank, r)[0] == xs[0]
    ensures Under(xs[1..], rank, r)
            == if rank(xs[0]) == r then Under(xs, rank, r)[1..] else Under(xs, rank, r)
  {
  }

  /** A sorted list is determined by its order within each rank. */
  lemma {:induction false} SortedByItsRanks<T>(xs: seq<T>, ys: seq<T>, rank: T -> Rank)
    requires SortedBy(xs, rank) && SortedBy(ys, rank) && SameByRank(xs, ys, rank)
    ensures xs == ys
  {
    if xs != [] || ys != [] {
      HeadsAgree(xs, ys, rank);
      forall r ensures Under(xs[1..], rank, r) == Under(ys[1..], rank, r) && (r == rank(xs[0]) ==> xs[0] == ys[0]) {
        UnderFront(xs, rank, r);
        UnderFront(ys, rank, r);
        assert Under(xs, rank, r) == Under(ys, rank, r);
      }
      assert Under(xs[1..], rank, rank(xs[0])) == Under(ys[1..], rank, rank(xs[0]));
      SortedByItsRanks(xs[1..], ys[1..], rank);
      assert xs == [xs[0]] + xs[1..] && ys == [ys[0]] + ys[1..];
    }
  }

  lemma HeadsAgree<T>(xs: seq<T>, ys: seq<T>, rank: T -> Rank)
    requires SortedBy(xs, rank) && SortedBy(ys, rank) && SameByRank(xs, ys, rank)
    requires xs != [] || ys != []
    ensures xs != [] && ys != [] && rank(xs[0]) == rank(ys[0])
  {
    if xs != [] { SmallestIsFirst(xs, ys, rank); }
    if ys != [] { SmallestIsFirst(ys, xs, rank); }
    CompareIsAntisymmetric(rank(xs[0]), rank(ys[0]));
  }

  lemma SmallestIsFirst<T>(xs: seq<T>, ys: seq<T>, rank: T -> Rank)
    requires SortedBy(ys, rank) && SameByRank(xs, ys, rank) && xs != []
    ensures ys != [] && Compare(rank(ys[0]), rank(xs[0])) <= 0
  {
    var r := rank(xs[0]);
    assert Under(xs, rank, r) == Under(ys, rank, r);
    UnderFindsRank(xs, rank, r);
    UnderFindsRank(ys, rank, r);
  }

  /** Two lists sort alike exactly when they agree within each rank. */
  lemma SortsAlikeIff<T>(xs: seq<T>, ys: seq<T>, rank: T -> Rank)
    ensures SortBy(xs, rank) == SortBy(ys, rank) <==> SameByRank(xs, ys, rank)
  {
    var s, t := SortBy(xs, rank), SortBy(ys, rank);
    forall r ensures Under(s, rank, r) == Under(xs, rank, r) && Under(t, rank, r) == Under(ys, rank, r) {
      SortIsStable(xs, rank, r);
      SortIsStable(ys, rank, r);
    }
    if SameByRank(xs, ys, rank) {
      SortIsSorted(xs, rank);
      SortIsSorted(ys, rank);
      SortedByItsRanks(s, t, rank);
    }
  }

  lemma {:induction false} CopiesUnder<T>(xs: seq<T>, rank: T -> Rank, x: T)
    requires forall y :: y in xs && rank(y) == rank(x) ==> y == x
    ensures |Under(xs, rank, rank(x))| == multiset(xs)[x]
    ensures forall y :: y in Under(xs, rank, rank(x)) ==> y == x
  {
    if xs != [] {
      assert xs == [xs[0]] + xs[1..];
      CopiesUnder(xs[1..], rank, x);
    }
  }

  lemma CopiesAreEqual<T>(xs: seq<T>, ys: seq<T>, x: T)
    requires |xs| == |ys| && (forall y :: y in xs ==> y == x) && (forall y :: y in ys ==> y == x)
    ensures xs == ys
  {
    forall i | 0 <= i < |xs| ensures xs[i] == ys[i] {
      assert xs[i] in xs && ys[i] in ys;
    }
  }

  /** Where rank determines the element, order is forgotten. */
  lemma PermutedSortAlike<T>(xs: seq<T>, ys: seq<T>, rank: T -> Rank)
    requires multiset(xs) == multiset(ys)
    requires forall x, y :: x in xs && y in xs && rank(x) == rank(y) ==> x == y
    ensures SameByRank(xs, ys, rank)
  {
    SameElements(xs, ys);
    forall r ensures Under(xs, rank, r) == Under(ys, rank, r) {
      UnderFindsRank(xs, rank, r);
      UnderFindsRank(ys, rank, r);
      assert forall j :: 0 <= j < |ys| ==> ys[j] in xs;
      assert Under(ys, rank, r) != [] ==> Under(xs, rank, r) != [];
      if Under(xs, rank, r) != [] {
        var i :| 0 <= i < |xs| && rank(xs[i]) == r;
        CopiesUnder(xs, rank, xs[i]);
        CopiesUnder(ys, rank, xs[i]);
        CopiesAreEqual(Under(xs, rank, r), Under(ys, rank, r), xs[i]);
      }
    }
  }

  lemma SameByRankPermutes<T>(xs: seq<T>, ys: seq<T>, rank: T -> Rank)
    requires SameByRank(xs, ys, rank)
    ensures multiset(xs) == multiset(ys)
  {
    SortsAlikeIff(xs, ys, rank);
    SortPermutes(xs, rank);
    SortPermutes(ys, rank);
  }

  lemma {:induction false} SingleUnder<T>(xs: seq<T>, rank: T -> Rank, i: nat)
    requires i < |xs| && forall k :: 0 <= k < |xs| && k != i ==> rank(xs[k]) != rank(xs[i])
    ensures Under(xs, rank, rank(xs[i])) == [xs[i]]
  {
    if i == 0 {
      UnderFindsRank(xs[1..], rank, rank(xs[0]));
    } else {
      SingleUnder(xs[1..], rank, i - 1);
    }
  }

  // ----- Taking elements out -----

  function Without<T>(xs: seq<T>, j: nat): (r: seq<T>)
    requires j < |xs|
    ensures |r| == |xs| - 1
  {
    xs[..j] + xs[j + 1..]
  }

  lemma WithoutIsMultiset<T>(xs: seq<T>, j: nat)
    requires j < |xs|
    ensures multiset(xs) == multiset(Without(xs, j)) + multiset{xs[j]}
  {
    assert xs == xs[..j] + [xs[j]] + xs[j + 1..];
  }

  lemma WithoutMembers<T>(xs: seq<T>, j: nat)
    requires j < |xs|
    ensures forall x :: x in xs <==> x == xs[j] || x in Without(xs, j)
  {
    assert xs == xs[..j] + [xs[j]] + xs[j + 1..];
  }

  lemma PermutesWithout<T>(a: seq<T>, b: seq<T>, j: nat)
    requires a != [] && j < |b| && a[0] == b[j]
    ensures multiset(a) == multiset(b) <==> multiset(a[1..]) == multiset(Without(b, j))
  {
    assert a == [a[0]] + a[1..];
    WithoutIsMultiset(b, j);
    assert multiset(a) - multiset{a[0]} == multiset(a[1..]);
    assert multiset(b) - multiset{a[0]} == multiset(Without(b, j));
  }

  /** Taking out the first element of a rank takes the head of that rank only. */
  lemma {:induction false} UnderWithoutFirst<T>(xs: seq<T>, rank: T -> Rank, j: nat, r: Rank)
    requires j < |xs| && forall i :: 0 <= i < j ==> rank(xs[i]) != rank(xs[j])
    ensures Under(xs, rank, r)
            == if r == rank(xs[j]) then [xs[j]] + Under(Without(xs, j), rank, r) else Under(Without(xs, j), rank, r)
  {
    if j == 0 {
      assert Without(xs, 0) == xs[1..];
    } else {
      UnderWithoutFirst(xs[1..], rank, j - 1, r);
      assert Without(xs, j) == [xs[0]] + Without(xs[1..], j - 1);
    }
  }

  /** The head of a rank is the first element of that rank. */
  lemma {:induction false} FirstOfRank<T>(xs: seq<T>, rank: T -> Rank, r: Rank) returns (j: nat)
    requires Under(xs, rank, r) != []
    ensures j < |xs| && rank(xs[j]) == r && Under(xs, rank, r)[0] == xs[j]
    ensures forall i :: 0 <= i < j ==> rank(xs[i]) != r
  {
    if rank(xs[0]) == r {
      j := 0;
    } else {
      var k := FirstOfRank(xs[1..], rank, r);
      j := k + 1;
    }
  }

  /** What is computed element by element is permuted along. */
  lemma {:induction false} PermutedAlong<T, U>(xs: seq<T>, ys: seq<T>, a: seq<U>, b: seq<U>)
    requires multiset(xs) == multiset(ys) && |a| == |xs| && |b| == |ys|
    requires forall i, j :: 0 <= i < |xs| && 0 <= j < |ys| && xs[i] == ys[j] ==> a[i] == b[j]
    ensures multiset(a) == multiset(b)
  {
    SameElements(xs, ys);
    if xs != [] {
      assert xs[0] in ys;
      var j :| 0 <= j < |ys| && ys[j] == xs[0];
      PermutesWithout(xs, ys, j);
      PermutedAlong(xs[1..], Without(ys, j), a[1..], Without(b, j));
      PermutesWithout(a, b, j);
    }
  }
}
