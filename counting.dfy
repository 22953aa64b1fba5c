/** Counting the elements of a list that satisfy a predicate (Python's `len([1 for x in xs if p(x)])`). */
module Counting {

  function Count<T>(xs: seq<T>, p: T -> bool): (n: nat)
    ensures n <= |xs|
  {
    if xs == [] then 0 else Count(xs[..|xs| - 1], p) + (if p(xs[|xs| - 1]) then 1 else 0)
  }

  /** A predicate implied by another one is counted at least as often. */
  lemma {:induction false} CountMono<T>(xs: seq<T>, p: T -> bool, q: T -> bool)
    requires forall x :: x in xs && p(x) ==> q(x)
    ensures Count(xs, p) <= Count(xs, q)
  {
    if xs != [] {
      assert forall x :: x in xs[..|xs| - 1] ==> x in xs;
      CountMono(xs[..|xs| - 1], p, q);
    }
  }

  /** Counts of pairwise exclusive predicates add up to at most the length. */
  lemma {:induction false} CountExclusive3<T>(xs: seq<T>, p: T -> bool, q: T -> bool, r: T -> bool)
    requires forall x :: x in xs ==> (p(x) ==> !q(x) && !r(x)) && (q(x) ==> !r(x))
    ensures Count(xs, p) + Count(xs, q) + Count(xs, r) <= |xs|
  {
    if xs != [] {
      assert forall x :: x in xs[..|xs| - 1] ==> x in xs;
      CountExclusive3(xs[..|xs| - 1], p, q, r);
    }
  }

  /** Two predicates that agree on every element have the same count. */
  lemma {:induction false} CountSame<T>(xs: seq<T>, p: T -> bool, q: T -> bool)
    requires forall x :: x in xs ==> (p(x) <==> q(x))
    ensures Count(xs, p) == Count(xs, q)
  {
    if xs != [] {
      assert forall x :: x in xs[..|xs| - 1] ==> x in xs;
      CountSame(xs[..|xs| - 1], p, q);
    }
  }
}
