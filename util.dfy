/** Small shared vocabulary: an optional value and sums over finite sets.
    A sum over a set is how the model states a fold over a hash map or hash
    set whose iteration order is unspecified: its value cannot depend on the
    order in which the elements are visited. */
module Util {

  datatype Option<T> = None | Some(value: T)

  /** The sum of f over the elements of s, in no particular order. */
  ghost function SumOver<T>(s: set<T>, f: T -> int): int
    decreases s
  {
    if s == {} then 0 else var x :| x in s; f(x) + SumOver(s - {x}, f)
  }

  /** Any element may be taken out first: the sum does not depend on the
      order of visiting. */
  lemma SumOverRemove<T>(s: set<T>, f: T -> int, y: T)
    requires y in s
    ensures SumOver(s, f) == f(y) + SumOver(s - {y}, f)
    decreases s
  {
    var x :| x in s && SumOver(s, f) == f(x) + SumOver(s - {x}, f);
    if x != y {
      SumOverRemove(s - {x}, f, y);
      SumOverRemove(s - {y}, f, x);
      assert s - {x} - {y} == s - {y} - {x};
    }
  }

  /** Summing a pointwise-equal function gives the same total. */
  lemma {:induction false} SumOverCongruent<T>(s: set<T>, f: T -> int, g: T -> int)
    requires forall x :: x in s ==> f(x) == g(x)
    ensures SumOver(s, f) == SumOver(s, g)
    decreases s
  {
    if s != {} {
      var x :| x in s;
      SumOverRemove(s, f, x);
      SumOverRemove(s, g, x);
      SumOverCongruent(s - {x}, f, g);
    }
  }

  /** The number of elements of a sequence equal to x. */
  function Occurrences<T(==)>(s: seq<T>, x: T): (n: nat)
    ensures n <= |s|
    ensures n == multiset(s)[x]
  {
    if s == [] then 0
    else
      assert s == [s[0]] + s[1..];
      (if s[0] == x then 1 else 0) + Occurrences(s[1..], x)
  }

  /** An injective image has as many elements as the set it comes from. */
  lemma {:induction false} ImageCard<T, U>(s: set<T>, f: T -> U) returns (img: set<U>)
    requires forall a, b :: a in s && b in s && f(a) == f(b) ==> a == b
    ensures forall x :: x in s ==> f(x) in img
    ensures forall y :: y in img ==> exists x :: x in s && f(x) == y
    ensures |img| == |s|
    decreases s
  {
    if s == {} {
      img := {};
    } else {
      var y :| y in s;
      var rest := ImageCard(s - {y}, f);
      assert f(y) !in rest;
      img := rest + {f(y)};
    }
  }

  /** A subset has no more elements than its superset. */
  lemma {:induction false} SubsetCard<T>(a: set<T>, b: set<T>)
    requires a <= b
    ensures |a| <= |b|
    decreases b
  {
    if a != {} {
      var x :| x in a;
      SubsetCard(a - {x}, b - {x});
    }
  }
}
