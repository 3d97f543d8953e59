/** Types and small facts shared by several components. */
module Common {

  datatype Option<+T> = None | Some(value: T) {
    function GetOr(default: T): T {
      if Some? then value else default
    }
  }

  datatype Result<+T, +E> = Ok(value: T) | Err(error: E)

  /** The set of elements of a sequence. */
  function Elements<T(==)>(xs: seq<T>): set<T> {
    set x | x in xs
  }

  /** No element occurs twice. */
  predicate Distinct<T(==)>(xs: seq<T>) {
    forall i, j :: 0 <= i < j < |xs| ==> xs[i] != xs[j]
  }

  /** The elements to keep, in order. */
  function Where<T(!new)>(xs: seq<T>, keep: T -> bool): (r: seq<T>)
    ensures forall x :: x in r <==> x in xs && keep(x)
  {
    if xs == [] then []
    else
      var init, last := xs[..|xs| - 1], xs[|xs| - 1];
      assert forall x :: x in xs <==> x in init || x == last;
      if keep(last) then Where(init, keep) + [last] else Where(init, keep)
  }

  lemma WhereAppends<T(!new)>(xs: seq<T>, x: T, keep: T -> bool)
    ensures Where(xs + [x], keep) == if keep(x) then Where(xs, keep) + [x] else Where(xs, keep)
  {
    assert (xs + [x])[..|xs|] == xs;
  }
}
