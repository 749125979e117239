/** Print queue: page-ordering rules `p|q` say page p must be printed before
    page q.  A manual is a list of pages; part 1 sums the middle pages of the
    manuals that break no rule, part 2 sorts the others by the rules and sums
    their middle pages. */
module Pages {

  /** Each page maps to the pages that must come after it, in input order. */
  type Rules = map<nat, seq<nat>>

  /** Rule `p|q` is present. */
  predicate Rule(rules: Rules, p: nat, q: nat)
  {
    p in rules && q in rules[p]
  }

  /** Some page has a rule naming a page that comes earlier in the manual. */
  predicate Unordered(rules: Rules, manual: seq<nat>)
  {
    exists i :: 0 <= i < |manual| && manual[i] in rules &&
      exists j :: 0 <= j < i && manual[j] in rules[manual[i]]
  }

  /** Reference definition: whenever a rule `p|q` applies to two positions of
      the manual holding p and q, the one holding p is the earlier one. */
  ghost predicate RespectsRules(rules: Rules, manual: seq<nat>)
  {
    forall p, q | Rule(rules, p, q) ::
      forall i, j | 0 <= i < |manual| && 0 <= j < |manual| && i != j &&
        manual[i] == p && manual[j] == q :: i < j
  }

  lemma UnorderedIff(rules: Rules, manual: seq<nat>)
    ensures Unordered(rules, manual) <==> !RespectsRules(rules, manual)
  {
    if Unordered(rules, manual) {
      var i :| 0 <= i < |manual| && manual[i] in rules &&
        exists j :: 0 <= j < i && manual[j] in rules[manual[i]];
      var j :| 0 <= j < i && manual[j] in rules[manual[i]];
      assert Rule(rules, manual[i], manual[j]);
    }
    if !RespectsRules(rules, manual) {
      var p, q, i, j :| Rule(rules, p, q) && 0 <= i < |manual| && 0 <= j < |manual| &&
        i != j && manual[i] == p && manual[j] == q && !(i < j);
      assert 0 <= j < i && manual[j] in rules[manual[i]];
    }
  }

  /** The middle page; the program unwraps `get(len / 2)`, so a manual it
      reaches here must not be empty. */
  function Middle(manual: seq<nat>): (page: nat)
    requires |manual| >= 1
    ensures page in manual
  {
    manual[|manual| / 2]
  }

  /* ---------------------------------------------------------------- */
  /* Grouping the rules                                                */
  /* ---------------------------------------------------------------- */

  /** Reference definition of a rule list: the second pages of every pair
      whose first page is p, in input order. */
  function After(pairs: seq<(nat, nat)>, p: nat): (after: seq<nat>)
    ensures |after| <= |pairs|
  {
    if pairs == [] then []
    else
      var last := pairs[|pairs| - 1];
      After(pairs[..|pairs| - 1], p) + (if last.0 == p then [last.1] else [])
  }

  lemma {:induction false} AfterMembers(pairs: seq<(nat, nat)>, p: nat, q: nat)
    ensures q in After(pairs, p) <==> (p, q) in pairs
  {
    if pairs != [] {
      var init := pairs[..|pairs| - 1];
      AfterMembers(init, p, q);
      assert pairs == init + [pairs[|pairs| - 1]];
    }
  }

  /** Groups the parsed pairs `page|before` by their first page; a missing
      key starts a new list, a present one is appended to. */
  method ParseRules(pairs: seq<(nat, nat)>) returns (rules: Rules)
    ensures forall p :: p in rules <==> exists q :: (p, q) in pairs
    ensures forall p | p in rules :: rules[p] == After(pairs, p)
  {
    rules := map[];
    for k := 0 to |pairs|
      invariant Grouped(pairs[..k], rules)
    {
      var (page, before) := pairs[k];
      ghost var previous := rules;
      if page in rules {
        rules := rules[page := rules[page] + [before]];
      } else {
        rules := rules[page := [before]];
      }
      GroupedStep(pairs, k, previous, rules);
    }
    assert pairs[..|pairs|] == pairs;
  }

  /** The rule lists built from the pairs read so far. */
  ghost predicate Grouped(pairs: seq<(nat, nat)>, rules: Rules)
  {
    (forall p :: p in rules <==> exists q :: (p, q) in pairs) &&
    (forall p | p in rules :: rules[p] == After(pairs, p)) &&
    (forall p | p !in rules :: After(pairs, p) == [])
  }

  lemma GroupedStep(pairs: seq<(nat, nat)>, k: nat, rules: Rules, next: Rules)
    requires k < |pairs| && Grouped(pairs[..k], rules)
    requires next == if pairs[k].0 in rules
      then rules[pairs[k].0 := rules[pairs[k].0] + [pairs[k].1]]
      else rules[pairs[k].0 := [pairs[k].1]]
    ensures Grouped(pairs[..k + 1], next)
  {
    var (page, before) := pairs[k];
    var done, seen := pairs[..k + 1], pairs[..k];
    assert done == seen + [(page, before)] by {
      assert done[..k] == seen;
    }
    forall p
      ensures p in next <==> exists q :: (p, q) in done
    {
      KeyStep(seen, page, before, p, rules, next);
    }
    forall p
      ensures p in next ==> next[p] == After(done, p)
      ensures p !in next ==> After(done, p) == []
    {
      AfterStep(seen, page, before, p);
    }
  }

  /** One more pair extends the rule list of its first page only. */
  lemma AfterStep(seen: seq<(nat, nat)>, page: nat, before: nat, p: nat)
    ensures After(seen + [(page, before)], p) == After(seen, p) + (if p == page then [before] else [])
  {
    assert (seen + [(page, before)])[..|seen|] == seen;
  }

  lemma KeyStep(seen: seq<(nat, nat)>, page: nat, before: nat, p: nat, rules: Rules, next: Rules)
    requires forall p :: p in rules <==> exists q :: (p, q) in seen
    requires next.Keys == rules.Keys + {page}
    ensures p in next <==> exists q :: (p, q) in seen + [(page, before)]
  {
    if p in next && p != page {
      var q :| (p, q) in seen;
      assert (p, q) in seen + [(page, before)];
    }
    if p == page {
      assert (page, before) in seen + [(page, before)];
    }
  }

  /** A page with no rule list has no rules. */
  lemma ParsedRules(pairs: seq<(nat, nat)>, rules: Rules, p: nat, q: nat)
    requires forall p :: p in rules <==> exists q :: (p, q) in pairs
    requires forall p | p in rules :: rules[p] == After(pairs, p)
    ensures Rule(rules, p, q) <==> (p, q) in pairs
  {
    AfterMembers(pairs, p, q);
  }

  /* ---------------------------------------------------------------- */
  /* Sorting an unordered manual                                       */
  /* ---------------------------------------------------------------- */

  /** Insertion of x into the sorted prefix s, moving it left while the
      comparator says x is Less than its left neighbour, which happens
      exactly when rule `x|neighbour` is present. */
  function Insert(rules: Rules, s: seq<nat>, x: nat): (r: seq<nat>)
    ensures |r| == |s| + 1
  {
    if s == [] then [x]
    else if Rule(rules, x, s[|s| - 1]) then Insert(rules, s[..|s| - 1], x) + [s[|s| - 1]]
    else s + [x]
  }

  lemma {:induction false} InsertPermutes(rules: Rules, s: seq<nat>, x: nat)
    ensures multiset(Insert(rules, s, x)) == multiset(s) + multiset{x}
  {
    if s != [] && Rule(rules, x, s[|s| - 1]) {
      InsertPermutes(rules, s[..|s| - 1], x);
      assert s == s[..|s| - 1] + [s[|s| - 1]];
    }
  }

  /** The sorted copy: each page in turn inserted into the sorted prefix. */
  function SortBy(rules: Rules, manual: seq<nat>): (sorted: seq<nat>)
    ensures |sorted| == |manual|
  {
    if manual == [] then []
    else Insert(rules, SortBy(rules, manual[..|manual| - 1]), manual[|manual| - 1])
  }

  lemma {:induction false} SortByPermutes(rules: Rules, manual: seq<nat>)
    ensures multiset(SortBy(rules, manual)) == multiset(manual)
  {
    if manual != [] {
      var init := manual[..|manual| - 1];
      SortByPermutes(rules, init);
      InsertPermutes(rules, SortBy(rules, init), manual[|manual| - 1]);
      assert manual == init + [manual[|manual| - 1]];
    }
  }

  /** No page of s is preceded by a page that a rule puts after it. */
  ghost predicate InOrder(rules: Rules, s: seq<nat>)
  {
    forall i, j | 0 <= j < i < |s| :: !Rule(rules, s[i], s[j])
  }

  lemma OrderedIff(rules: Rules, s: seq<nat>)
    ensures !Unordered(rules, s) <==> InOrder(rules, s)
  {
    if !InOrder(rules, s) {
      var i, j :| 0 <= j < i < |s| && Rule(rules, s[i], s[j]);
      assert 0 <= j < i && s[j] in rules[s[i]];
    }
  }

  /** A manual that breaks no rule comes out of the sort unchanged. */
  lemma {:induction false} SortByOrdered(rules: Rules, manual: seq<nat>)
    requires !Unordered(rules, manual)
    ensures SortBy(rules, manual) == manual
  {
    OrderedIff(rules, manual);
    SortByInOrder(rules, manual);
  }

  lemma {:induction false} SortByInOrder(rules: Rules, manual: seq<nat>)
    requires InOrder(rules, manual)
    ensures SortBy(rules, manual) == manual
  {
    if manual != [] {
      var n := |manual|;
      var init := manual[..n - 1];
      assert InOrder(rules, init) by {
        forall i, j | 0 <= j < i < |init|
          ensures !Rule(rules, init[i], init[j])
        {
          assert manual[i] == init[i] && manual[j] == init[j];
        }
      }
      SortByInOrder(rules, init);
      if init != [] {
        assert !Rule(rules, manual[n - 1], manual[n - 2]);
      }
      assert manual == init + [manual[n - 1]];
    }
  }

  /** The rules restricted to the pages of a manual form a strict total
      order: irreflexive, one of `p|q` and `q|p` for distinct pages, and
      transitive.  Under it a manual has exactly one ordering. */
  ghost predicate TotalOn(rules: Rules, pages: multiset<nat>)
  {
    (forall p | p in pages :: !Rule(rules, p, p)) &&
    (forall p, q | p in pages && q in pages && p != q ::
      Rule(rules, p, q) != Rule(rules, q, p)) &&
    (forall p, q, r | p in pages && q in pages && r in pages &&
      Rule(rules, p, q) && Rule(rules, q, r) :: Rule(rules, p, r))
  }

  lemma TotalOnSub(rules: Rules, pages: multiset<nat>, sub: multiset<nat>)
    requires TotalOn(rules, pages) && sub <= pages
    ensures TotalOn(rules, sub)
  {
  }

  lemma AppendInOrder(rules: Rules, s: seq<nat>, x: nat)
    requires InOrder(rules, s)
    requires forall j | 0 <= j < |s| :: !Rule(rules, x, s[j])
    ensures InOrder(rules, s + [x])
  {
    var r := s + [x];
    forall i, j | 0 <= j < i < |r|
      ensures !Rule(rules, r[i], r[j])
    {
      assert r[j] == s[j];
      if i < |s| {
        assert r[i] == s[i];
      }
    }
  }

  /** Inserting into an ordered prefix under a total order keeps it ordered. */
  lemma {:induction false} InsertOrders(rules: Rules, s: seq<nat>, x: nat)
    requires InOrder(rules, s)
    requires TotalOn(rules, multiset(s) + multiset{x})
    ensures InOrder(rules, Insert(rules, s, x))
  {
    if s == [] {
    } else if Rule(rules, x, s[|s| - 1]) {
      var init := s[..|s| - 1];
      assert s == init + [s[|s| - 1]];
      PrefixInOrder(rules, s, |s| - 1);
      TotalOnSub(rules, multiset(s) + multiset{x}, multiset(init) + multiset{x});
      InsertOrders(rules, init, x);
      LastAfterAll(rules, s, init, x);
      AppendInOrder(rules, Insert(rules, init, x), s[|s| - 1]);
    } else {
      forall j | 0 <= j < |s|
        ensures !Rule(rules, x, s[j])
      {
        InsertTail(rules, s, x, j);
      }
      AppendInOrder(rules, s, x);
    }
  }

  lemma PrefixInOrder(rules: Rules, s: seq<nat>, n: nat)
    requires InOrder(rules, s) && n <= |s|
    ensures InOrder(rules, s[..n])
  {
    var p := s[..n];
    forall i, j | 0 <= j < i < |p|
      ensures !Rule(rules, p[i], p[j])
    {
      assert s[i] == p[i] && s[j] == p[j];
    }
  }

  /** When x moves past the last page, that page may follow every page of
      the insertion into the rest. */
  lemma LastAfterAll(rules: Rules, s: seq<nat>, init: seq<nat>, x: nat)
    requires s != [] && init == s[..|s| - 1] && Rule(rules, x, s[|s| - 1])
    requires InOrder(rules, s)
    requires TotalOn(rules, multiset(s) + multiset{x})
    ensures forall j | 0 <= j < |s| :: !Rule(rules, s[|s| - 1], Insert(rules, init, x)[j])
  {
    var last := s[|s| - 1];
    var ri := Insert(rules, init, x);
    InsertPermutes(rules, init, x);
    assert last in multiset(s) + multiset{x};
    assert x in multiset(s) + multiset{x};
    forall j | 0 <= j < |ri|
      ensures !Rule(rules, last, ri[j])
    {
      assert ri[j] in multiset(ri);
      if ri[j] != x {
        assert ri[j] in multiset(init);
        var k :| 0 <= k < |init| && init[k] == ri[j];
        assert s[k] == ri[j];
      }
    }
  }

  /** x not moving past the last page of an ordered prefix means no rule
      puts x before any page of the prefix. */
  lemma InsertTail(rules: Rules, s: seq<nat>, x: nat, j: nat)
    requires s != [] && !Rule(rules, x, s[|s| - 1])
    requires InOrder(rules, s)
    requires TotalOn(rules, multiset(s) + multiset{x})
    requires j < |s|
    ensures !Rule(rules, x, s[j])
  {
    var last := s[|s| - 1];
    assert last in multiset(s) + multiset{x};
    assert s[j] in multiset(s) + multiset{x};
    assert x in multiset(s) + multiset{x};
    if j < |s| - 1 && s[j] != last {
      assert !Rule(rules, last, s[j]);
      assert Rule(rules, s[j], last);
    }
  }

  /** Under a total order the sort yields a manual that breaks no rule. */
  lemma SortByOrders(rules: Rules, manual: seq<nat>)
    requires TotalOn(rules, multiset(manual))
    ensures !Unordered(rules, SortBy(rules, manual))
  {
    SortByOrdersIn(rules, manual);
    OrderedIff(rules, SortBy(rules, manual));
  }

  lemma {:induction false} SortByOrdersIn(rules: Rules, manual: seq<nat>)
    requires TotalOn(rules, multiset(manual))
    ensures InOrder(rules, SortBy(rules, manual))
  {
    if manual != [] {
      var init := manual[..|manual| - 1];
      assert manual == init + [manual[|manual| - 1]];
      TotalOnSub(rules, multiset(manual), multiset(init));
      SortByOrdersIn(rules, init);
      SortByPermutes(rules, init);
      InsertOrders(rules, SortBy(rules, init), manual[|manual| - 1]);
    }
  }

  /** Under a total order there is only one ordering of a manual, so any
      correct sort, whatever its algorithm, returns what SortBy returns. */
  lemma OrderingUnique(rules: Rules, s: seq<nat>, t: seq<nat>)
    requires multiset(s) == multiset(t)
    requires TotalOn(rules, multiset(s))
    requires !Unordered(rules, s) && !Unordered(rules, t)
    ensures s == t
  {
    OrderedIff(rules, s);
    OrderedIff(rules, t);
    InOrderUnique(rules, s, t);
  }

  lemma {:induction false} InOrderUnique(rules: Rules, s: seq<nat>, t: seq<nat>)
    requires multiset(s) == multiset(t)
    requires TotalOn(rules, multiset(s))
    requires InOrder(rules, s) && InOrder(rules, t)
    ensures s == t
  {
    assert |s| == |multiset(s)| == |multiset(t)| == |t|;
    if s != [] {
      FirstIsEqual(rules, s, t);
      TailsAgree(rules, s, t);
      InOrderUnique(rules, s[1..], t[1..]);
      assert s == [s[0]] + s[1..] && t == [t[0]] + t[1..];
    }
  }

  lemma TailsAgree(rules: Rules, s: seq<nat>, t: seq<nat>)
    requires s != [] && t != [] && s[0] == t[0] && multiset(s) == multiset(t)
    requires TotalOn(rules, multiset(s))
    requires InOrder(rules, s) && InOrder(rules, t)
    ensures multiset(s[1..]) == multiset(t[1..])
    ensures TotalOn(rules, multiset(s[1..]))
    ensures InOrder(rules, s[1..]) && InOrder(rules, t[1..])
  {
    assert s == [s[0]] + s[1..] && t == [t[0]] + t[1..];
    TotalOnSub(rules, multiset(s), multiset(s[1..]));
    SuffixInOrder(rules, s);
    SuffixInOrder(rules, t);
  }

  lemma SuffixInOrder(rules: Rules, s: seq<nat>)
    requires s != [] && InOrder(rules, s)
    ensures InOrder(rules, s[1..])
  {
    var d := s[1..];
    forall i, j | 0 <= j < i < |d|
      ensures !Rule(rules, d[i], d[j])
    {
      assert s[i + 1] == d[i] && s[j + 1] == d[j];
    }
  }

  lemma FirstIsEqual(rules: Rules, s: seq<nat>, t: seq<nat>)
    requires s != [] && t != [] && multiset(s) == multiset(t)
    requires TotalOn(rules, multiset(s))
    requires InOrder(rules, s) && InOrder(rules, t)
    ensures s[0] == t[0]
  {
    assert s[0] in multiset(t) && t[0] in multiset(s);
    var i :| 0 <= i < |t| && t[i] == s[0];
    var k :| 0 <= k < |s| && s[k] == t[0];
    assert i > 0 ==> !Rule(rules, t[i], t[0]);
    assert k > 0 ==> !Rule(rules, s[k], s[0]);
  }

  /** The sort by swaps on a copy of the manual, as the program sorts its
      clone in place. */
  method SortedCopy(rules: Rules, manual: seq<nat>) returns (sorted: seq<nat>)
    ensures sorted == SortBy(rules, manual)
  {
    var a := new nat[|manual|](i requires 0 <= i < |manual| => manual[i]);
    assert a[..] == manual;
    for i := 0 to a.Length
      invariant a[..i] == SortBy(rules, manual[..i])
      invariant forall k | i <= k < a.Length :: a[k] == manual[k]
    {
      ghost var prefix := a[..i];
      InsertLast(rules, a, i);
      SortByStep(rules, manual, i);
    }
    assert manual[..|manual|] == manual;
    sorted := a[..];
  }

  lemma SortByStep(rules: Rules, manual: seq<nat>, i: nat)
    requires i < |manual|
    ensures SortBy(rules, manual[..i + 1]) ==
      Insert(rules, SortBy(rules, manual[..i]), manual[i])
  {
    assert manual[..i + 1][..i] == manual[..i];
  }

  /** Sinks a[i] into the sorted prefix a[..i]: the pages the comparator
      puts after it shift one place right and it drops into the hole. */
  method InsertLast(rules: Rules, a: array<nat>, i: nat)
    requires i < a.Length
    modifies a
    ensures a[..i + 1] == Insert(rules, old(a[..i]), old(a[i]))
    ensures forall k | i < k < a.Length :: a[k] == old(a[k])
  {
    ghost var prefix := a[..i];
    var v := a[i];
    var j := i;
    while j > 0 && Rule(rules, v, a[j - 1])
      invariant 0 <= j <= i
      invariant forall k | 0 <= k < j :: a[k] == prefix[k]
      invariant forall k | j < k <= i :: a[k] == prefix[k - 1]
      invariant forall k | i < k < a.Length :: a[k] == old(a[k])
      invariant forall k | j <= k < i :: Rule(rules, v, prefix[k])
    {
      a[j] := a[j - 1];
      j := j - 1;
    }
    a[j] := v;
    InsertSplit(rules, prefix, v, j);
    Placed(prefix, a[..i + 1], j, v);
  }

  lemma Placed(prefix: seq<nat>, s: seq<nat>, j: nat, v: nat)
    requires j <= |prefix| && |s| == |prefix| + 1
    requires forall k | 0 <= k < j :: s[k] == prefix[k]
    requires s[j] == v
    requires forall k | j < k < |s| :: s[k] == prefix[k - 1]
    ensures s == prefix[..j] + [v] + prefix[j..]
  {
  }

  /** Where the insertion stops: past every page the comparator puts after
      x, in front of the first one it does not. */
  lemma {:induction false} InsertSplit(rules: Rules, s: seq<nat>, x: nat, j: nat)
    requires j <= |s|
    requires j == 0 || !Rule(rules, x, s[j - 1])
    requires forall k | j <= k < |s| :: Rule(rules, x, s[k])
    ensures Insert(rules, s, x) == s[..j] + [x] + s[j..]
  {
    if j < |s| {
      var init := s[..|s| - 1];
      assert init[..j] == s[..j];
      InsertSplit(rules, init, x, j);
      assert s[j..] == init[j..] + [s[|s| - 1]];
    } else {
      assert s[..j] == s;
    }
  }

  /* ---------------------------------------------------------------- */
  /* The two parts                                                     */
  /* ---------------------------------------------------------------- */

  /** Part 1: the middle pages of the manuals that break no rule, summed in
      the order of the fold. */
  function Part1(rules: Rules, manuals: seq<seq<nat>>): (total: nat)
    requires forall k | 0 <= k < |manuals| :: |manuals[k]| >= 1
  {
    if manuals == [] then 0
    else
      var m := manuals[|manuals| - 1];
      Part1(rules, manuals[..|manuals| - 1]) + (if Unordered(rules, m) then 0 else Middle(m))
  }

  /** Part 2's value: the middle pages of the sorted copies of the manuals
      that break a rule. */
  function Part2Spec(rules: Rules, manuals: seq<seq<nat>>): (total: nat)
  {
    if manuals == [] then 0
    else
      var m := manuals[|manuals| - 1];
      Part2Spec(rules, manuals[..|manuals| - 1]) +
        (if Unordered(rules, m) then Middle(SortBy(rules, m)) else 0)
  }

  /** Part 1 and part 2 each add up their manuals one by one. */
  lemma {:induction false} PartsSplit(rules: Rules, a: seq<seq<nat>>, b: seq<seq<nat>>)
    requires forall k | 0 <= k < |a| :: |a[k]| >= 1
    requires forall k | 0 <= k < |b| :: |b[k]| >= 1
    ensures Part1(rules, a + b) == Part1(rules, a) + Part1(rules, b)
    ensures Part2Spec(rules, a + b) == Part2Spec(rules, a) + Part2Spec(rules, b)
  {
    if b == [] {
      assert a + b == a;
    } else {
      var init := b[..|b| - 1];
      assert (a + b)[..|a + b| - 1] == a + init;
      PartsSplit(rules, a, init);
    }
  }

  /** A manual adds to exactly one of the two parts: its own middle page to
      part 1 when it breaks no rule, the middle page of its sorted copy to
      part 2 when it breaks one. */
  lemma OneManual(rules: Rules, m: seq<nat>)
    requires |m| >= 1
    ensures Part1(rules, [m]) == (if Unordered(rules, m) then 0 else m[|m| / 2])
    ensures Part2Spec(rules, [m]) == (if Unordered(rules, m) then SortBy(rules, m)[|m| / 2] else 0)
    ensures Unordered(rules, m) ==> |m| >= 2
  {
    assert [m][..0] == [];
  }

  /** When the rules order every unordered manual totally, part 2 sums the
      middle pages of their unique correct orderings. */
  lemma Part2Correct(rules: Rules, m: seq<nat>, fixed: seq<nat>)
    requires Unordered(rules, m)
    requires TotalOn(rules, multiset(m))
    requires multiset(fixed) == multiset(m) && !Unordered(rules, fixed)
    ensures Part2Spec(rules, [m]) == fixed[|m| / 2]
  {
    assert [m][..0] == [];
    SortByPermutes(rules, m);
    SortByOrders(rules, m);
    OrderingUnique(rules, SortBy(rules, m), fixed);
  }

  method Part2(rules: Rules, manuals: seq<seq<nat>>) returns (total: nat)
    ensures total == Part2Spec(rules, manuals)
  {
    total := 0;
    for k := 0 to |manuals|
      invariant total == Part2Spec(rules, manuals[..k])
    {
      var manual := manuals[k];
      assert manuals[..k + 1][..k] == manuals[..k];
      if Unordered(rules, manual) {
        var sorted := SortedCopy(rules, manual);
        total := total + Middle(sorted);
      }
    }
    assert manuals[..|manuals|] == manuals;
  }

  /* ---------------------------------------------------------------- */
  /* The worked example                                                */
  /* ---------------------------------------------------------------- */

  /** The example's 21 rules, grouped as ParseRules groups them. */
  const ExampleRules: Rules := map[
    47 := [53, 13, 61, 29],
    97 := [13, 61, 47, 29, 53, 75],
    75 := [29, 53, 47, 61, 13],
    61 := [13, 53, 29],
    29 := [13],
    53 := [29, 13]]

  const ExampleManuals: seq<seq<nat>> := [
    [75, 47, 61, 53, 29],
    [97, 61, 53, 29, 13],
    [75, 29, 13],
    [75, 97, 47, 61, 53],
    [61, 13, 29],
    [97, 13, 75, 29, 47]]

  lemma ExampleOrdered()
    ensures !Unordered(ExampleRules, [75, 47, 61, 53, 29])
    ensures !Unordered(ExampleRules, [97, 61, 53, 29, 13])
    ensures !Unordered(ExampleRules, [75, 29, 13])
  {
  }

  lemma ExampleUnordered()
    ensures Unordered(ExampleRules, [75, 97, 47, 61, 53])
    ensures Unordered(ExampleRules, [61, 13, 29])
    ensures Unordered(ExampleRules, [97, 13, 75, 29, 47])
  {
    var m := [75, 97, 47, 61, 53];
    assert 0 <= 0 < 1 && m[0] in ExampleRules[m[1]];
    m := [61, 13, 29];
    assert 0 <= 1 < 2 && m[1] in ExampleRules[m[2]];
    m := [97, 13, 75, 29, 47];
    assert 0 <= 1 < 3 && m[1] in ExampleRules[m[3]];
  }

  /** The sorted copy of the example's first unordered manual. */
  lemma ExampleSorted1()
    ensures SortBy(ExampleRules, [75, 97, 47, 61, 53]) == [97, 75, 47, 61, 53]
  {
    var m := [75, 97, 47, 61, 53];
    SortByStep(ExampleRules, m, 0);
    assert m[..1] == [75] && m[..0] == [];
    SortByStep(ExampleRules, m, 1);
    assert m[..2] == [75, 97];
    assert 75 in ExampleRules[97];
    assert SortBy(ExampleRules, [75, 97]) == [97, 75];
    SortByStep(ExampleRules, m, 2);
    assert m[..3] == [75, 97, 47];
    assert 75 !in ExampleRules[47];
    assert SortBy(ExampleRules, m[..3]) == [97, 75, 47];
    SortByStep(ExampleRules, m, 3);
    assert m[..4] == [75, 97, 47, 61];
    assert 47 !in ExampleRules[61];
    assert SortBy(ExampleRules, m[..4]) == [97, 75, 47, 61];
    SortByStep(ExampleRules, m, 4);
    assert m[..5] == m;
    assert 61 !in ExampleRules[53];
  }
}
