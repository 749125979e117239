/** Day 1 (src/main.rs): two lists of location ids, each sorted ascending,
    then compared twice. The distance adds up how far apart the lists are
    position by position; the similarity weighs every id of the first list by
    how often it occurs in the second. Ids are unbounded naturals in place of
    `u32`. */
module Lists {
  import opened Util

  predicate Ascending(s: seq<nat>)
  {
    forall k, l | 0 <= k < l < |s| :: s[k] <= s[l]
  }

  // ---------------------------------------------------------------------
  // Sorting

  /** `x` put in front of the first larger element of an ascending list. */
  function InsertSorted(t: seq<nat>, x: nat): (r: seq<nat>)
    requires Ascending(t)
    ensures Ascending(r)
    ensures multiset(r) == multiset(t) + multiset{x}
  {
    if t == [] || x <= t[0] then [x] + t
    else
      assert t == [t[0]] + t[1..];
      TailAscending(t);
      var r := InsertSorted(t[1..], x);
      ConsAscending(t[0], r);
      [t[0]] + r
  }

  lemma TailAscending(s: seq<nat>)
    requires Ascending(s) && s != []
    ensures Ascending(s[1..])
    ensures forall e | e in multiset(s[1..]) :: s[0] <= e
  {
    forall e | e in multiset(s[1..])
      ensures s[0] <= e
    {
      var l :| 0 <= l < |s[1..]| && s[1..][l] == e;
      assert s[l + 1] == e;
    }
  }

  /** A least element in front of an ascending list keeps it ascending. */
  lemma ConsAscending(x: nat, r: seq<nat>)
    requires Ascending(r) && forall e | e in multiset(r) :: x <= e
    ensures Ascending([x] + r)
  {
    forall l | 0 <= l < |r|
      ensures x <= r[l]
    {
      assert r[l] in multiset(r);
    }
  }

  /** The ascending arrangement of a list: the reference the in-place sort is
      held to. */
  function Sorted(s: seq<nat>): (t: seq<nat>)
    ensures Ascending(t)
    ensures multiset(t) == multiset(s)
  {
    if s == [] then []
    else
      assert s == s[..|s| - 1] + [s[|s| - 1]];
      InsertSorted(Sorted(s[..|s| - 1]), s[|s| - 1])
  }

  /** Two ascending arrangements of the same elements start alike: each
      head is the least element. */
  lemma HeadsAgree(s: seq<nat>, t: seq<nat>)
    requires Ascending(s) && Ascending(t) && multiset(s) == multiset(t) && s != []
    ensures t != [] && s[0] == t[0]
  {
    assert s[0] in multiset(t);
    assert |t| == |s|;
    assert t[0] in multiset(s);
    var i :| 0 <= i < |t| && t[i] == s[0];
    var j :| 0 <= j < |s| && s[j] == t[0];
  }

  /** A list has only one ascending arrangement. */
  lemma {:induction false} AscendingUnique(s: seq<nat>, t: seq<nat>)
    requires Ascending(s) && Ascending(t) && multiset(s) == multiset(t)
    ensures s == t
    decreases |s|
  {
    if s != [] {
      HeadsAgree(s, t);
      assert s == [s[0]] + s[1..];
      assert t == [t[0]] + t[1..];
      assert multiset(s) == multiset{s[0]} + multiset(s[1..]);
      assert multiset(t) == multiset{t[0]} + multiset(t[1..]);
      TailAscending(s);
      TailAscending(t);
      assert multiset(s[1..]) == multiset(s) - multiset{s[0]};
      assert multiset(t[1..]) == multiset(t) - multiset{t[0]};
      AscendingUnique(s[1..], t[1..]);
    }
  }

  /** Every ascending permutation of `s` is `Sorted(s)`. */
  lemma SortedIsUnique(s: seq<nat>, t: seq<nat>)
    requires Ascending(t) && multiset(t) == multiset(s)
    ensures t == Sorted(s)
  {
    AscendingUnique(t, Sorted(s));
  }

  /** Exchanges two elements. */
  method Swap(a: array<nat>, i: nat, j: nat)
    requires i < a.Length && j < a.Length
    modifies a
    ensures a[..] == old(a[..])[i := old(a[j])][j := old(a[i])]
    ensures multiset(a[..]) == multiset(old(a[..]))
  {
    a[i], a[j] := a[j], a[i];
  }

  /** The inner loop of an insertion sort: the element at `i` moves left past
      every larger one, so the first i + 1 elements become ascending and the
      elements after them stay where they are. */
  method InsertLast(a: array<nat>, i: nat)
    requires i < a.Length && Ascending(a[..i])
    modifies a
    ensures Ascending(a[..i + 1])
    ensures multiset(a[..]) == multiset(old(a[..]))
    ensures a[i + 1..] == old(a[i + 1..])
  {
    var j := i;
    while j > 0 && a[j - 1] > a[j]
      invariant 0 <= j <= i
      invariant forall k, l | 0 <= k < l <= i && k != j && l != j :: a[k] <= a[l]
      invariant forall l | j < l <= i :: a[j] <= a[l]
      invariant multiset(a[..]) == multiset(old(a[..]))
      invariant a[i + 1..] == old(a[i + 1..])
    {
      Swap(a, j - 1, j);
      j := j - 1;
    }
  }

  /** `sort()`: the list is rearranged in place into its ascending order. */
  method Sort(a: array<nat>)
    modifies a
    ensures a[..] == Sorted(old(a[..]))
  {
    for i := 0 to a.Length
      invariant Ascending(a[..i])
      invariant multiset(a[..]) == multiset(old(a[..]))
    {
      InsertLast(a, i);
    }
    assert a[..a.Length] == a[..];
    SortedIsUnique(old(a[..]), a[..]);
  }

  // ---------------------------------------------------------------------
  // Part 1: distance

  function AbsDiff(a: nat, b: nat): (d: nat)
    ensures a == b + d || b == a + d
  {
    if a >= b then a - b else b - a
  }

  /** The sum of `|a_i - b_i|` over the positions both lists have (`zip`
      stops at the shorter one). */
  function Distance(a: seq<nat>, b: seq<nat>): nat
  {
    if a == [] || b == [] then 0 else AbsDiff(a[0], b[0]) + Distance(a[1..], b[1..])
  }

  /** `part1`: the distance, added up pair by pair along the zipped lists. */
  method Part1(a: seq<nat>, b: seq<nat>) returns (distance: nat)
    ensures distance == Distance(a, b)
  {
    distance := 0;
    var n := if |a| <= |b| then |a| else |b|;
    for i := 0 to n
      invariant distance + Distance(a[i..], b[i..]) == Distance(a, b)
    {
      assert a[i..][1..] == a[i + 1..] && b[i..][1..] == b[i + 1..];
      distance := distance + AbsDiff(a[i], b[i]);
    }
    assert a[n..] == [] || b[n..] == [];
  }

  /** Only the first min(|a|, |b|) positions count. */
  lemma {:induction false} DistanceTruncates(a: seq<nat>, b: seq<nat>, n: nat)
    requires n == if |a| <= |b| then |a| else |b|
    ensures Distance(a, b) == Distance(a[..n], b[..n])
  {
    if n > 0 {
      assert a[..n][1..] == a[1..][..n - 1];
      assert b[..n][1..] == b[1..][..n - 1];
      DistanceTruncates(a[1..], b[1..], n - 1);
    }
  }

  /** The distance does not depend on which list comes first, and it is zero
      exactly when the lists agree on every position they share. */
  lemma {:induction false} DistanceSymmetric(a: seq<nat>, b: seq<nat>, n: nat)
    requires n == if |a| <= |b| then |a| else |b|
    ensures Distance(a, b) == Distance(b, a)
    ensures Distance(a, b) == 0 <==> a[..n] == b[..n]
  {
    if n > 0 {
      DistanceSymmetric(a[1..], b[1..], n - 1);
      assert a[..n] == [a[0]] + a[1..][..n - 1];
      assert b[..n] == [b[0]] + b[1..][..n - 1];
    }
  }

  // ---------------------------------------------------------------------
  // Part 2: similarity

  /** `x` added once for each time it occurs in `b`. */
  function Matches(b: seq<nat>, x: nat): nat
  {
    if b == [] then 0 else (if b[0] == x then x else 0) + Matches(b[1..], x)
  }

  /** The sum over the ids `x` of `a` of `x` once for each time `x` occurs
      in `b`. */
  function Similarity(a: seq<nat>, b: seq<nat>): nat
  {
    if a == [] then 0 else Matches(b, a[0]) + Similarity(a[1..], b)
  }

  /** Matches are what `part2` computes: the id times its count. */
  lemma {:induction false} MatchesCount(b: seq<nat>, x: nat)
    ensures Matches(b, x) == x * Occurrences(b, x)
  {
    if b != [] {
      MatchesCount(b[1..], x);
      assert x * ((if b[0] == x then 1 else 0) + Occurrences(b[1..], x)) ==
        (if b[0] == x then x else 0) + x * Occurrences(b[1..], x);
    }
  }

  /** `filter(|b| a.eq(b)).count()`. */
  method CountEqual(b: seq<nat>, x: nat) returns (count: nat)
    ensures count == multiset(b)[x]
  {
    count := 0;
    for j := 0 to |b|
      invariant count == multiset(b[..j])[x]
    {
      assert b[..j + 1] == b[..j] + [b[j]];
      if b[j] == x {
        count := count + 1;
      }
    }
    assert b[..|b|] == b;
  }

  /** `part2`: every id of the first list, weighted by its count in the second. */
  method Part2(a: seq<nat>, b: seq<nat>) returns (similarity: nat)
    ensures similarity == Similarity(a, b)
  {
    similarity := 0;
    for i := 0 to |a|
      invariant similarity + Similarity(a[i..], b) == Similarity(a, b)
    {
      assert a[i..][1..] == a[i + 1..];
      var count := CountEqual(b, a[i]);
      MatchesCount(b, a[i]);
      similarity := similarity + a[i] * count;
    }
    assert a[|a|..] == [];
  }

  /** The second list only matters through how often each id occurs in it. */
  lemma {:induction false} SimilarityByCounts(a: seq<nat>, b: seq<nat>, b': seq<nat>)
    requires multiset(b) == multiset(b')
    ensures Similarity(a, b) == Similarity(a, b')
  {
    if a != [] {
      SimilarityByCounts(a[1..], b, b');
      MatchesCount(b, a[0]);
      MatchesCount(b', a[0]);
    }
  }

  /** Putting `x` in front of the second list adds `x` once for each `x` in
      the first. */
  lemma {:induction false} SimilarityConsRight(b: seq<nat>, x: nat, a: seq<nat>)
    ensures Similarity(b, [x] + a) == Matches(b, x) + Similarity(b, a)
  {
    if b != [] {
      SimilarityConsRight(b[1..], x, a);
      assert ([x] + a)[1..] == a;
    }
  }

  lemma {:induction false} SimilarityEmpty(b: seq<nat>)
    ensures Similarity(b, []) == 0
  {
    if b != [] {
      SimilarityEmpty(b[1..]);
    }
  }

  /** The similarity is symmetric: each id that both lists have counts once
      for every pair of its occurrences. */
  lemma {:induction false} SimilaritySymmetric(a: seq<nat>, b: seq<nat>)
    ensures Similarity(a, b) == Similarity(b, a)
  {
    if a != [] {
      SimilaritySymmetric(a[1..], b);
      assert a == [a[0]] + a[1..];
      SimilarityConsRight(b, a[0], a[1..]);
    } else {
      SimilarityEmpty(b);
    }
  }

  /** Rearranging either list, as the sort does, leaves the similarity as it
      was. */
  lemma SimilarityPermutes(a: seq<nat>, a': seq<nat>, b: seq<nat>, b': seq<nat>)
    requires multiset(a) == multiset(a') && multiset(b) == multiset(b')
    ensures Similarity(a, b) == Similarity(a', b')
  {
    SimilaritySymmetric(a, b);
    SimilarityByCounts(b, a, a');
    SimilaritySymmetric(b, a');
    SimilarityByCounts(a', b, b');
  }

  // ---------------------------------------------------------------------
  // The program

  /** The body of `main` once the two columns are read: both lists are sorted
      ascending, then the distance and the similarity are taken of the sorted
      lists. */
  method Solve(listA: seq<nat>, listB: seq<nat>) returns (distance: nat, similarity: nat)
    ensures distance == Distance(Sorted(listA), Sorted(listB))
    ensures similarity == Similarity(listA, listB)
  {
    var a := new nat[|listA|](i requires 0 <= i < |listA| => listA[i]);
    var b := new nat[|listB|](i requires 0 <= i < |listB| => listB[i]);
    assert a[..] == listA && b[..] == listB;
    Sort(a);
    Sort(b);
    distance := Part1(a[..], b[..]);
    similarity := Part2(a[..], b[..]);
    SimilarityPermutes(a[..], listA, b[..], listB);
  }
}
