/** Hoof It: a topographic map of heights 0 to 9, where a hiking trail
    climbs by exactly one per step between 4-neighbours.  Both parts search
    downhill from every summit (height 9): part 1 records, for every plot,
    how many summits reach it, part 2 how many downhill paths do; the
    answer sums these over the trailheads (height 0). */
module Trails {
  import opened Util
  import opened Coords

  type Heights = map<Coord, nat>

  /** Up, right, down, left: the order the search looks at neighbours. */
  const Directions: seq<Coord> := [Coord(0, -1), Coord(1, 0), Coord(0, 1), Coord(-1, 0)]

  function Neighbour(c: Coord, k: int): Coord
    requires 0 <= k < 4
  {
    Add(c, Directions[k])
  }

  /** The step test on unsigned heights: the subtraction is checked, and a
      negative difference stands for 99. */
  function StepsDown(height: nat, next: nat): (b: bool)
    ensures b <==> height == next + 1
  {
    (if height >= next then height - next else 99) == 1
  }

  /** One trail step read downhill: the neighbour of p in direction k is on
      the map and exactly one lower. */
  predicate Descends(g: Heights, p: Coord, k: int)
    requires 0 <= k < 4
  {
    p in g && Neighbour(p, k) in g && g[p] == g[Neighbour(p, k)] + 1
  }

  /** p can be reached from t by zero or more downhill steps. */
  ghost predicate Reaches(g: Heights, t: Coord, p: Coord)
    requires t in g
    decreases g[t]
  {
    t == p || exists k | 0 <= k < 4 :: Descends(g, t, k) && Reaches(g, Neighbour(t, k), p)
  }

  /** The number of downhill paths from t to p, the empty one included
      when t is p. */
  ghost function Trails(g: Heights, t: Coord, p: Coord): nat
    requires t in g
    decreases g[t], 5
  {
    (if t == p then 1 else 0) + TrailsFrom(g, t, p, 0)
  }

  /** The downhill paths from t to p whose first step goes in direction k
      or a later one. */
  ghost function TrailsFrom(g: Heights, t: Coord, p: Coord, k: int): nat
    requires t in g && 0 <= k <= 4
    decreases g[t], 4 - k
  {
    if k == 4 then 0
    else (if Descends(g, t, k) then Trails(g, Neighbour(t, k), p) else 0) + TrailsFrom(g, t, p, k + 1)
  }

  /* ---------------------------------------------------------------- */
  /* Properties of trails                                              */
  /* ---------------------------------------------------------------- */

  /** One more downhill step extends a reach. */
  lemma {:induction false} ReachesStep(g: Heights, t: Coord, p: Coord, k: int)
    requires t in g && Reaches(g, t, p) && 0 <= k < 4 && Descends(g, p, k)
    ensures Reaches(g, t, Neighbour(p, k))
    decreases g[t]
  {
    var n := Neighbour(p, k);
    if t == p {
      assert Reaches(g, n, n);
    } else {
      var j :| 0 <= j < 4 && Descends(g, t, j) && Reaches(g, Neighbour(t, j), p);
      ReachesStep(g, Neighbour(t, j), p, k);
    }
  }

  /** A set holding t and closed under downhill steps holds all t reaches. */
  lemma {:induction false} ClosedHoldsReach(g: Heights, s: set<Coord>, t: Coord, p: Coord)
    requires t in g && t in s && Reaches(g, t, p)
    requires forall v, k | v in s && 0 <= k < 4 && Descends(g, v, k) :: Neighbour(v, k) in s
    ensures p in s
    decreases g[t]
  {
    if t != p {
      var j :| 0 <= j < 4 && Descends(g, t, j) && Reaches(g, Neighbour(t, j), p);
      ClosedHoldsReach(g, s, Neighbour(t, j), p);
    }
  }

  /** Heights strictly fall along a trail, so only t reaches t, and what t
      reaches is on the map and no higher. */
  lemma {:induction false} ReachesDownhill(g: Heights, t: Coord, p: Coord)
    requires t in g && Reaches(g, t, p)
    ensures p in g && g[p] <= g[t]
    ensures t != p ==> g[p] < g[t]
    decreases g[t]
  {
    if t != p {
      var j :| 0 <= j < 4 && Descends(g, t, j) && Reaches(g, Neighbour(t, j), p);
      ReachesDownhill(g, Neighbour(t, j), p);
    }
  }

  /** A plot is reachable exactly when some downhill path leads to it. */
  lemma {:induction false} ReachesIffTrails(g: Heights, t: Coord, p: Coord)
    requires t in g
    ensures Reaches(g, t, p) <==> Trails(g, t, p) > 0
    decreases g[t], 5
  {
    ReachesIffTrailsFrom(g, t, p, 0);
  }

  lemma {:induction false} ReachesIffTrailsFrom(g: Heights, t: Coord, p: Coord, k: int)
    requires t in g && 0 <= k <= 4
    ensures (exists j | k <= j < 4 :: Descends(g, t, j) && Reaches(g, Neighbour(t, j), p))
            <==> TrailsFrom(g, t, p, k) > 0
    decreases g[t], 4 - k
  {
    if k < 4 {
      ReachesIffTrailsFrom(g, t, p, k + 1);
      if Descends(g, t, k) {
        ReachesIffTrails(g, Neighbour(t, k), p);
      }
      if exists j | k <= j < 4 :: Descends(g, t, j) && Reaches(g, Neighbour(t, j), p) {
        var j :| k <= j < 4 && Descends(g, t, j) && Reaches(g, Neighbour(t, j), p);
        if j == k {
          assert TrailsFrom(g, t, p, k) >= Trails(g, Neighbour(t, k), p);
        }
      }
    }
  }

  /* ---------------------------------------------------------------- */
  /* The count maps and the neighbour loop                             */
  /* ---------------------------------------------------------------- */

  /** The value recorded for p, a missing entry counting as 0. */
  function Count(m: map<Coord, nat>, p: Coord): nat
  {
    if p in m then m[p] else 0
  }

  /** One more for p: the entry is created with 1 or incremented. */
  function Bump(m: map<Coord, nat>, p: Coord): (m': map<Coord, nat>)
    ensures Count(m', p) == Count(m, p) + 1
    ensures forall q | q != p :: Count(m', q) == Count(m, q)
  {
    m[p := Count(m, p) + 1]
  }

  /** What the neighbour loop queues for a plot of the given height,
      directions k and on in order: each neighbour on the map that the
      step test accepts, with its height. */
  function DownFrom(g: Heights, c: Coord, height: nat, k: int): seq<(Coord, nat)>
    requires 0 <= k <= 4
    decreases 4 - k
  {
    if k == 4 then []
    else
      var n := Neighbour(c, k);
      (if n in g && StepsDown(height, g[n]) then [(n, g[n])] else []) + DownFrom(g, c, height, k + 1)
  }

  /** Queues the lower neighbours of c, looking in the four directions. */
  method PushDown(g: Heights, c: Coord, height: nat, queue: seq<(Coord, nat)>)
    returns (queue': seq<(Coord, nat)>)
    ensures queue' == queue + DownFrom(g, c, height, 0)
  {
    queue' := queue;
    for k := 0 to 4
      invariant queue' + DownFrom(g, c, height, k) == queue + DownFrom(g, c, height, 0)
    {
      DownFromUnfold(g, c, height, k, queue');
      var n := Neighbour(c, k);
      if n in g && StepsDown(height, g[n]) {
        queue' := queue' + [(n, g[n])];
      }
    }
  }

  /** The queue before direction k, with what direction k pushes. */
  lemma DownFromUnfold(g: Heights, c: Coord, height: nat, k: int, queue: seq<(Coord, nat)>)
    requires 0 <= k < 4
    ensures var n := Neighbour(c, k);
      queue + DownFrom(g, c, height, k) ==
      (if n in g && StepsDown(height, g[n]) then queue + [(n, g[n])] else queue) + DownFrom(g, c, height, k + 1)
  {
  }

  /** Every entry queued for c is a downhill step from c. */
  lemma {:induction false} DownFromSteps(g: Heights, c: Coord, k: int, i: int)
    requires c in g && 0 <= k <= 4 && 0 <= i < |DownFrom(g, c, g[c], k)|
    ensures exists j | k <= j < 4 :: (Descends(g, c, j) &&
      DownFrom(g, c, g[c], k)[i] == (Neighbour(c, j), g[Neighbour(c, j)]))
    decreases 4 - k
  {
    var n := Neighbour(c, k);
    var head: seq<(Coord, nat)> := if n in g && StepsDown(g[c], g[n]) then [(n, g[n])] else [];
    if i >= |head| {
      DownFromSteps(g, c, k + 1, i - |head|);
    } else {
      assert Descends(g, c, k);
    }
  }

  /** The entries queued for c are plots of the map with their heights. */
  lemma DownFromOnMap(g: Heights, c: Coord)
    requires c in g
    ensures forall i | 0 <= i < |DownFrom(g, c, g[c], 0)| ::
      DownFrom(g, c, g[c], 0)[i].0 in g && DownFrom(g, c, g[c], 0)[i].1 == g[DownFrom(g, c, g[c], 0)[i].0]
  {
    forall i | 0 <= i < |DownFrom(g, c, g[c], 0)|
      ensures DownFrom(g, c, g[c], 0)[i].0 in g && DownFrom(g, c, g[c], 0)[i].1 == g[DownFrom(g, c, g[c], 0)[i].0]
    {
      DownFromSteps(g, c, 0, i);
    }
  }

  /** Every downhill step from c in direction j >= k is queued. */
  lemma {:induction false} DownFromHas(g: Heights, c: Coord, k: int, j: int)
    requires c in g && 0 <= k <= j < 4 && Descends(g, c, j)
    ensures (Neighbour(c, j), g[Neighbour(c, j)]) in DownFrom(g, c, g[c], k)
    decreases 4 - k
  {
    if k < j {
      DownFromHas(g, c, k + 1, j);
    }
  }

  /* ---------------------------------------------------------------- */
  /* Part 1: one search per summit, with a visited set                 */
  /* ---------------------------------------------------------------- */

  /** The queue entries are plots reached from top, with their heights. */
  ghost predicate Queued(g: Heights, top: Coord, queue: seq<(Coord, nat)>)
    requires top in g
  {
    forall i | 0 <= i < |queue| ::
      queue[i].0 in g && queue[i].1 == g[queue[i].0] && Reaches(g, top, queue[i].0)
  }

  /** Every downhill step out of the visited plots ends in a visited or a
      queued plot. */
  ghost predicate Frontier(g: Heights, visited: set<Coord>, queue: seq<(Coord, nat)>)
  {
    forall v, k | v in visited && 0 <= k < 4 && Descends(g, v, k) ::
      Neighbour(v, k) in visited || (Neighbour(v, k), g[Neighbour(v, k)]) in queue
  }

  /** The search from one summit: every plot it reaches by one step or more
      gets one more in the count map, and nothing else changes. */
  method Summit1(g: Heights, top: Coord, accessible: map<Coord, nat>)
    returns (accessible': map<Coord, nat>)
    requires top in g && g[top] == 9
    ensures forall p :: (Count(accessible', p) ==
      Count(accessible, p) + (if p != top && Reaches(g, top, p) then 1 else 0))
  {
    var visited := {top};
    var candidates := PushDown(g, top, 9, []);
    accessible' := accessible;
    StartQueue(g, top, candidates);
    while |candidates| > 0
      invariant Search(g, top, accessible, visited, candidates, accessible')
      decreases |g.Keys - visited|, |candidates|
    {
      visited, candidates, accessible' := Pop(g, top, accessible, visited, candidates, accessible');
    }
    forall p | Reaches(g, top, p)
      ensures p in visited
    {
      ClosedHoldsReach(g, visited, top, p);
    }
  }

  /** The state of the search from top: the visited plots and the queue
      are reached from top, every step out of the visited plots is
      visited or queued, and the count map has one more for each visited
      plot other than top. */
  ghost predicate Search(g: Heights, top: Coord, accessible: map<Coord, nat>, visited: set<Coord>,
                         queue: seq<(Coord, nat)>, accessible': map<Coord, nat>)
    requires top in g
  {
    && top in visited && visited <= g.Keys
    && (forall v | v in visited :: Reaches(g, top, v))
    && Queued(g, top, queue)
    && Frontier(g, visited, queue)
    && (forall p :: (Count(accessible', p) ==
          Count(accessible, p) + (if p in visited && p != top then 1 else 0)))
  }

  /** One pop of the search: a visited plot is skipped; otherwise it is
      counted, marked visited and its lower neighbours are queued. */
  method Pop(g: Heights, top: Coord, ghost accessible: map<Coord, nat>, visited: set<Coord>,
             candidates: seq<(Coord, nat)>, accessible': map<Coord, nat>)
    returns (visited': set<Coord>, candidates': seq<(Coord, nat)>, accessible'': map<Coord, nat>)
    requires top in g && |candidates| > 0
    requires Search(g, top, accessible, visited, candidates, accessible')
    ensures Search(g, top, accessible, visited', candidates', accessible'')
    ensures visited' == visited + {candidates[0].0}
    ensures visited' == visited ==> |candidates'| < |candidates|
    ensures |g.Keys - visited'| <= |g.Keys - visited|
    ensures visited' != visited ==> |g.Keys - visited'| < |g.Keys - visited|
  {
    var position, height := candidates[0].0, candidates[0].1;
    if position in visited {
      SkipVisited(g, top, visited, candidates);
      return visited, candidates[1..], accessible';
    }
    accessible'' := Bump(accessible', position);
    visited' := visited + {position};
    candidates' := PushDown(g, position, height, candidates[1..]);
    VisitStep(g, top, visited, candidates);
    assert g.Keys - visited' < g.Keys - visited by {
      assert position in g.Keys - visited;
    }
  }

  lemma StartQueue(g: Heights, top: Coord, queue: seq<(Coord, nat)>)
    requires top in g && g[top] == 9 && queue == [] + DownFrom(g, top, 9, 0)
    ensures Queued(g, top, queue) && Frontier(g, {top}, queue)
  {
    forall i | 0 <= i < |queue|
      ensures queue[i].0 in g && queue[i].1 == g[queue[i].0] && Reaches(g, top, queue[i].0)
    {
      DownFromSteps(g, top, 0, i);
      var j :| 0 <= j < 4 && Descends(g, top, j) && queue[i] == (Neighbour(top, j), g[Neighbour(top, j)]);
      ReachSelf(g, top);
      ReachesStep(g, top, top, j);
    }
    forall k | 0 <= k < 4 && Descends(g, top, k)
      ensures (Neighbour(top, k), g[Neighbour(top, k)]) in queue
    {
      DownFromHas(g, top, 0, k);
    }
  }

  lemma ReachSelf(g: Heights, t: Coord)
    requires t in g
    ensures Reaches(g, t, t)
  {
  }

  /** Popping a plot already visited keeps the search state. */
  lemma SkipVisited(g: Heights, top: Coord, visited: set<Coord>, queue: seq<(Coord, nat)>)
    requires top in g && |queue| > 0 && queue[0].0 in visited
    requires Queued(g, top, queue) && Frontier(g, visited, queue)
    ensures Queued(g, top, queue[1..]) && Frontier(g, visited, queue[1..])
  {
    forall v, k | v in visited && 0 <= k < 4 && Descends(g, v, k) && Neighbour(v, k) !in visited
      ensures (Neighbour(v, k), g[Neighbour(v, k)]) in queue[1..]
    {
      var x := (Neighbour(v, k), g[Neighbour(v, k)]);
      var i :| 0 <= i < |queue| && queue[i] == x;
      assert queue[1..][i - 1] == x;
    }
  }

  /** Visiting the head of the queue: it joins the visited plots and its
      downhill neighbours are queued behind the rest. */
  lemma VisitStep(g: Heights, top: Coord, visited: set<Coord>, queue: seq<(Coord, nat)>)
    requires top in g && |queue| > 0
    requires Queued(g, top, queue) && Frontier(g, visited, queue)
    requires forall v | v in visited :: Reaches(g, top, v)
    ensures var p := queue[0].0;
      var next := queue[1..] + DownFrom(g, p, queue[0].1, 0);
      && Queued(g, top, next) && Frontier(g, visited + {p}, next)
      && Reaches(g, top, p)
  {
    var p := queue[0].0;
    var rest, down := queue[1..], DownFrom(g, p, g[p], 0);
    var next := rest + down;
    forall i | 0 <= i < |next|
      ensures next[i].0 in g && next[i].1 == g[next[i].0] && Reaches(g, top, next[i].0)
    {
      if i < |rest| {
        assert next[i] == queue[i + 1];
      } else {
        assert next[i] == down[i - |rest|];
        DownFromSteps(g, p, 0, i - |rest|);
        var j :| 0 <= j < 4 && Descends(g, p, j) && down[i - |rest|] == (Neighbour(p, j), g[Neighbour(p, j)]);
        ReachesStep(g, top, p, j);
      }
    }
    forall v, k | v in visited + {p} && 0 <= k < 4 && Descends(g, v, k) && Neighbour(v, k) !in visited + {p}
      ensures (Neighbour(v, k), g[Neighbour(v, k)]) in next
    {
      var x := (Neighbour(v, k), g[Neighbour(v, k)]);
      if v == p {
        DownFromHas(g, p, 0, k);
        assert x == down[IndexOf(down, x)];
        assert x == next[|rest| + IndexOf(down, x)];
      } else {
        var i :| 0 <= i < |queue| && queue[i] == x;
        assert next[i - 1] == x;
      }
    }
  }

  function IndexOf<T(==)>(s: seq<T>, x: T): (i: int)
    requires x in s
    ensures 0 <= i < |s| && s[i] == x
  {
    if s[0] == x then 0 else 1 + IndexOf(s[1..], x)
  }

  /** Summits among tops from which p is reached by one step or more. */
  ghost function Reaching(g: Heights, tops: seq<Coord>, p: Coord): nat
    requires forall i | 0 <= i < |tops| :: tops[i] in g
  {
    if tops == [] then 0
    else
      var t := tops[|tops| - 1];
      Reaching(g, tops[..|tops| - 1], p) + (if g[t] == 9 && t != p && Reaches(g, t, p) then 1 else 0)
  }

  /** The sum of the trailheads' scores: for every height-0 plot among
      heads, the summits among tops that reach it. */
  ghost function Score(g: Heights, heads: seq<Coord>, tops: seq<Coord>): nat
    requires forall i | 0 <= i < |heads| :: heads[i] in g
    requires forall i | 0 <= i < |tops| :: tops[i] in g
  {
    if heads == [] then 0
    else
      var h := heads[|heads| - 1];
      Score(g, heads[..|heads| - 1], tops) + (if g[h] == 0 then Reaching(g, tops, h) else 0)
  }

  /** The summits on the list that reach p by one step or more. */
  ghost function SummitsReaching(g: Heights, tops: seq<Coord>, p: Coord): set<Coord>
    requires forall i | 0 <= i < |tops| :: tops[i] in g
  {
    set t | t in tops && g[t] == 9 && t != p && Reaches(g, t, p)
  }

  /** When the list holds each plot once, as a map's key list does, the
      count is the number of distinct summits that reach p. */
  lemma {:induction false} ReachingDistinct(g: Heights, tops: seq<Coord>, p: Coord)
    requires forall i | 0 <= i < |tops| :: tops[i] in g
    requires forall i, j | 0 <= i < j < |tops| :: tops[i] != tops[j]
    ensures Reaching(g, tops, p) == |SummitsReaching(g, tops, p)|
  {
    if tops != [] {
      var init, t := tops[..|tops| - 1], tops[|tops| - 1];
      ReachingDistinct(g, init, p);
      assert t !in init by {
        forall i | 0 <= i < |init|
          ensures init[i] != t
        {
          assert tops[i] == init[i];
        }
      }
      assert tops == init + [t];
      if g[t] == 9 && t != p && Reaches(g, t, p) {
        assert SummitsReaching(g, tops, p) == SummitsReaching(g, init, p) + {t};
      } else {
        assert SummitsReaching(g, tops, p) == SummitsReaching(g, init, p);
      }
    }
  }

  /** Part 1 over the plots of the map in the order the map lists them. */
  method Part1(g: Heights, cells: seq<Coord>) returns (total: nat)
    requires forall i | 0 <= i < |cells| :: cells[i] in g
    ensures total == Score(g, cells, cells)
  {
    var accessible: map<Coord, nat> := map[];
    for i := 0 to |cells|
      invariant forall p :: Count(accessible, p) == Reaching(g, cells[..i], p)
    {
      if g[cells[i]] == 9 {
        accessible := Summit1(g, cells[i], accessible);
      }
      assert cells[..i + 1][..i] == cells[..i];
    }
    assert cells[..|cells|] == cells;
    total := 0;
    for j := 0 to |cells|
      invariant total == Score(g, cells[..j], cells)
    {
      if g[cells[j]] == 0 {
        total := total + Count(accessible, cells[j]);
      }
      assert cells[..j + 1][..j] == cells[..j];
    }
  }

  /* ---------------------------------------------------------------- */
  /* Part 2: one search per summit, without a visited set              */
  /* ---------------------------------------------------------------- */

  /** The paths still to be followed from the queued plots to p. */
  ghost function Pending(g: Heights, queue: seq<(Coord, nat)>, p: Coord): nat
    requires forall i | 0 <= i < |queue| :: queue[i].0 in g
  {
    if queue == [] then 0 else Trails(g, queue[0].0, p) + Pending(g, queue[1..], p)
  }

  lemma {:induction false} PendingAppend(g: Heights, a: seq<(Coord, nat)>, b: seq<(Coord, nat)>, p: Coord)
    requires forall i | 0 <= i < |a| :: a[i].0 in g
    requires forall i | 0 <= i < |b| :: b[i].0 in g
    ensures forall i | 0 <= i < |a + b| :: (a + b)[i].0 in g
    ensures Pending(g, a + b, p) == Pending(g, a, p) + Pending(g, b, p)
  {
    if a == [] {
      assert a + b == b;
    } else {
      assert (a + b)[0] == a[0] && (a + b)[1..] == a[1..] + b;
      PendingAppend(g, a[1..], b, p);
    }
  }

  /** The plots queued for c carry exactly the paths out of c. */
  lemma {:induction false} PendingDown(g: Heights, c: Coord, k: int, p: Coord)
    requires c in g && 0 <= k <= 4
    ensures forall i | 0 <= i < |DownFrom(g, c, g[c], k)| :: DownFrom(g, c, g[c], k)[i].0 in g
    ensures Pending(g, DownFrom(g, c, g[c], k), p) == TrailsFrom(g, c, p, k)
    decreases 4 - k
  {
    if k < 4 {
      var n := Neighbour(c, k);
      var head: seq<(Coord, nat)> := if n in g && StepsDown(g[c], g[n]) then [(n, g[n])] else [];
      PendingDown(g, c, k + 1, p);
      PendingAppend(g, head, DownFrom(g, c, g[c], k + 1), p);
      if head != [] {
        assert head[1..] == [];
      }
    }
  }

  function Pow5(h: nat): (r: nat)
    ensures r >= 1
  {
    if h == 0 then 1 else 5 * Pow5(h - 1)
  }

  /** A weight that the pop of a plot lowers: it queues at most four plots,
      each one lower. */
  function Weight(queue: seq<(Coord, nat)>): nat
  {
    if queue == [] then 0 else Pow5(queue[0].1) + Weight(queue[1..])
  }

  lemma {:induction false} WeightAppend(a: seq<(Coord, nat)>, b: seq<(Coord, nat)>)
    ensures Weight(a + b) == Weight(a) + Weight(b)
  {
    if a == [] {
      assert a + b == b;
    } else {
      assert (a + b)[0] == a[0] && (a + b)[1..] == a[1..] + b;
      WeightAppend(a[1..], b);
    }
  }

  /** At most four entries are queued for a plot, each one lower. */
  lemma {:induction false} DownHeights(g: Heights, c: Coord, height: nat, k: int)
    requires 0 <= k <= 4
    ensures |DownFrom(g, c, height, k)| <= 4 - k
    ensures height == 0 ==> DownFrom(g, c, height, k) == []
    ensures forall i | 0 <= i < |DownFrom(g, c, height, k)| :: DownFrom(g, c, height, k)[i].1 + 1 == height
    decreases 4 - k
  {
    if k < 4 {
      DownHeights(g, c, height, k + 1);
    }
  }

  lemma {:induction false} WeightUniform(s: seq<(Coord, nat)>, h: nat)
    requires forall i | 0 <= i < |s| :: s[i].1 == h
    ensures Weight(s) == |s| * Pow5(h)
  {
    if s != [] {
      WeightUniform(s[1..], h);
    }
  }

  /** The pop of a plot of height h lowers the weight by 5^h and queues
      less than that. */
  lemma WeightDown(g: Heights, c: Coord, height: nat)
    ensures Weight(DownFrom(g, c, height, 0)) < Pow5(height)
  {
    var down := DownFrom(g, c, height, 0);
    DownHeights(g, c, height, 0);
    if height > 0 {
      WeightUniform(down, height - 1);
      MulAtMostFour(|down|, Pow5(height - 1));
    }
  }

  lemma MulAtMostFour(n: nat, w: nat)
    requires n <= 4 && w >= 1
    ensures n * w < 5 * w
  {
  }

  /** The search from one summit without a visited set: every plot gets
      one more for each downhill path of one step or more that reaches it. */
  method Summit2(g: Heights, top: Coord, accessible: map<Coord, nat>)
    returns (accessible': map<Coord, nat>)
    requires top in g && g[top] == 9
    ensures forall p :: Count(accessible', p) == Count(accessible, p) + TrailsFrom(g, top, p, 0)
  {
    var candidates := PushDown(g, top, 9, []);
    assert candidates == DownFrom(g, top, g[top], 0);
    accessible' := accessible;
    forall p
      ensures Pending(g, candidates, p) == TrailsFrom(g, top, p, 0)
    {
      PendingDown(g, top, 0, p);
    }
    DownFromOnMap(g, top);
    while |candidates| > 0
      invariant forall i | 0 <= i < |candidates| :: candidates[i].0 in g && candidates[i].1 == g[candidates[i].0]
      invariant forall p :: (Count(accessible', p) + Pending(g, candidates, p) ==
        Count(accessible, p) + TrailsFrom(g, top, p, 0))
      decreases Weight(candidates)
    {
      var position, height := candidates[0].0, candidates[0].1;
      ghost var queue := candidates;
      accessible' := Bump(accessible', position);
      candidates := PushDown(g, position, height, candidates[1..]);
      PopStep(g, queue, candidates);
    }
  }

  /** Following the head of the queue one step: it is counted, and its
      paths onwards are queued. */
  lemma PopStep(g: Heights, queue: seq<(Coord, nat)>, next: seq<(Coord, nat)>)
    requires |queue| > 0
    requires forall i | 0 <= i < |queue| :: queue[i].0 in g && queue[i].1 == g[queue[i].0]
    requires next == queue[1..] + DownFrom(g, queue[0].0, queue[0].1, 0)
    ensures forall i | 0 <= i < |next| :: next[i].0 in g && next[i].1 == g[next[i].0]
    ensures forall p :: Pending(g, next, p) + (if p == queue[0].0 then 1 else 0) == Pending(g, queue, p)
    ensures Weight(next) < Weight(queue)
  {
    var c, rest := queue[0].0, queue[1..];
    var down := DownFrom(g, c, g[c], 0);
    assert forall i | 0 <= i < |rest| :: rest[i] == queue[i + 1];
    forall i | 0 <= i < |next|
      ensures next[i].0 in g && next[i].1 == g[next[i].0]
    {
      if i >= |rest| {
        assert next[i] == down[i - |rest|];
        DownFromSteps(g, c, 0, i - |rest|);
      }
    }
    forall p
      ensures Pending(g, next, p) + (if p == c then 1 else 0) == Pending(g, queue, p)
    {
      PendingDown(g, c, 0, p);
      PendingAppend(g, rest, down, p);
    }
    WeightAppend(rest, down);
    WeightDown(g, c, g[c]);
  }

  /** Downhill paths from the summits among tops to p, one step or more. */
  ghost function Rating(g: Heights, tops: seq<Coord>, p: Coord): nat
    requires forall i | 0 <= i < |tops| :: tops[i] in g
  {
    if tops == [] then 0
    else
      var t := tops[|tops| - 1];
      Rating(g, tops[..|tops| - 1], p) + (if g[t] == 9 then TrailsFrom(g, t, p, 0) else 0)
  }

  /** The sum of the trailheads' ratings. */
  ghost function TotalRating(g: Heights, heads: seq<Coord>, tops: seq<Coord>): nat
    requires forall i | 0 <= i < |heads| :: heads[i] in g
    requires forall i | 0 <= i < |tops| :: tops[i] in g
  {
    if heads == [] then 0
    else
      var h := heads[|heads| - 1];
      TotalRating(g, heads[..|heads| - 1], tops) + (if g[h] == 0 then Rating(g, tops, h) else 0)
  }

  /** Part 2 over the plots of the map in the order the map lists them. */
  method Part2(g: Heights, cells: seq<Coord>) returns (total: nat)
    requires forall i | 0 <= i < |cells| :: cells[i] in g
    ensures total == TotalRating(g, cells, cells)
  {
    var accessible: map<Coord, nat> := map[];
    for i := 0 to |cells|
      invariant forall p :: Count(accessible, p) == Rating(g, cells[..i], p)
    {
      if g[cells[i]] == 9 {
        accessible := Summit2(g, cells[i], accessible);
      }
      assert cells[..i + 1][..i] == cells[..i];
    }
    assert cells[..|cells|] == cells;
    total := 0;
    for j := 0 to |cells|
      invariant total == TotalRating(g, cells[..j], cells)
    {
      if g[cells[j]] == 0 {
        total := total + Count(accessible, cells[j]);
      }
      assert cells[..j + 1][..j] == cells[..j];
    }
  }

  /* ---------------------------------------------------------------- */
  /* How the two parts relate                                          */
  /* ---------------------------------------------------------------- */

  /** A summit reaching p has at least one path to it, so a trailhead's
      rating is at least its score. */
  lemma {:induction false} ScoreAtMostRating(g: Heights, tops: seq<Coord>, p: Coord)
    requires forall i | 0 <= i < |tops| :: tops[i] in g
    ensures Reaching(g, tops, p) <= Rating(g, tops, p)
  {
    if tops != [] {
      var t := tops[|tops| - 1];
      ScoreAtMostRating(g, tops[..|tops| - 1], p);
      ReachesIffTrails(g, t, p);
    }
  }
}
