/** Generic sequence helpers: an order-keeping filter and "first present value". */
module Seqs {
  import opened Wrappers

  /** The elements of `xs` that `keep` accepts, in their original order (a `WHERE` clause over a table scan). */
  function Filter<T(!new)>(xs: seq<T>, keep: T -> bool): (r: seq<T>)
    ensures |r| <= |xs|
    ensures forall x :: x in r <==> x in xs && keep(x)
  {
    if xs == [] then []
    else
      var init := Filter(xs[..|xs| - 1], keep);
      assert xs == xs[..|xs| - 1] + [xs[|xs| - 1]];
      if keep(xs[|xs| - 1]) then init + [xs[|xs| - 1]] else init
  }

  /** One more element is appended to the filtered list exactly when it passes, so the order is kept. */
  lemma {:induction false} FilterSnoc<T(!new)>(xs: seq<T>, x: T, keep: T -> bool)
    ensures Filter(xs + [x], keep) == Filter(xs, keep) + (if keep(x) then [x] else [])
  {
    assert (xs + [x])[..|xs|] == xs;
  }

  /** The first `Some` of a ranked list of attempts, or `None` when every attempt failed. */
  function FirstSome<T>(attempts: seq<Option<T>>): (r: Option<T>)
    ensures r.Some? ==> exists i :: 0 <= i < |attempts| && attempts[i] == r
                          && forall j :: 0 <= j < i ==> attempts[j].None?
    ensures r.None? <==> forall i :: 0 <= i < |attempts| ==> attempts[i].None?
    ensures r.Some? ==> r in attempts
    ensures |attempts| > 0 && attempts[0].Some? ==> r == attempts[0]
  {
    if attempts == [] then None
    else if attempts[0].Some? then attempts[0]
    else
      var r := FirstSome(attempts[1..]);
      assert forall i :: 1 <= i < |attempts| ==> attempts[i] == attempts[1..][i - 1];
      r
  }
}
