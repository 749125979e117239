/** Garden groups: the map's plots are labelled with plant types; a region
    is a 4-connected group of plots with the same plant.  Part 1 prices a
    region by its area times its perimeter, part 2 by its area times its
    number of sides; both find the regions by a breadth-first flood fill
    from every plot not yet counted. */
module Garden {
  import opened Util
  import opened Coords
  import opened FenceSides

  type Plots = map<Coord, char>

  /** Up, right, down, left: the order the fill looks at neighbours. */
  const Directions: seq<Coord> := [Coord(0, -1), Coord(1, 0), Coord(0, 1), Coord(-1, 0)]

  /** a and b are side by side or one above the other. */
  predicate Adjacent(a: Coord, b: Coord)
  {
    (a.x == b.x && (a.y - b.y == 1 || b.y - a.y == 1)) ||
    (a.y == b.y && (a.x - b.x == 1 || b.x - a.x == 1))
  }

  /** Two plots of one region that touch. */
  predicate Linked(g: Plots, a: Coord, b: Coord)
  {
    a in g && b in g && g[a] == g[b] && Adjacent(a, b)
  }

  /** The neighbours are exactly the four steps of Directions. */
  lemma AdjacentDirections(a: Coord, b: Coord)
    ensures Adjacent(a, b) <==> exists k | 0 <= k < 4 :: b == Add(a, Directions[k])
  {
    if Adjacent(a, b) {
      if b == Add(a, Directions[0]) {
      } else if b == Add(a, Directions[1]) {
        assert b == Add(a, Directions[1]);
      } else if b == Add(a, Directions[2]) {
      } else {
        assert b == Add(a, Directions[3]);
      }
    }
  }

  /** The number of the first k directions that lead to a plot labelled
      `plant`. */
  function SameCount(g: Plots, c: Coord, plant: char, k: nat): (n: nat)
    requires k <= 4
    ensures n <= k
  {
    if k == 0 then 0
    else
      var next := Add(c, Directions[k - 1]);
      SameCount(g, c, plant, k - 1) + (if next in g && g[next] == plant then 1 else 0)
  }

  /** The fence segments around a plot: four minus its same-plant
      neighbours. */
  function Fences(g: Plots, c: Coord): (f: nat)
    ensures f <= 4
  {
    if c in g then 4 - SameCount(g, c, g[c], 4) else 0
  }

  /** The fence segments around all plots of a set. */
  ghost function Perimeter(g: Plots, region: set<Coord>): int
    decreases region
  {
    if region == {} then 0 else var c :| c in region; Fences(g, c) + Perimeter(g, region - {c})
  }

  /** Adding a plot adds its fence segments. */
  lemma PerimeterAdd(g: Plots, region: set<Coord>, c: Coord, region': set<Coord>, perimeter: int, perimeter': int)
    requires c !in region && region' == region + {c}
    requires perimeter == Perimeter(g, region) && perimeter' == perimeter + Fences(g, c)
    ensures perimeter' == Perimeter(g, region')
  {
    PerimeterRemove(g, region', c);
    assert region' - {c} == region;
  }

  /** The perimeter does not depend on the order the plots are visited. */
  lemma PerimeterRemove(g: Plots, region: set<Coord>, y: Coord)
    requires y in region
    ensures Perimeter(g, region) == Fences(g, y) + Perimeter(g, region - {y})
    decreases region
  {
    var x :| x in region && Perimeter(g, region) == Fences(g, x) + Perimeter(g, region - {x});
    if x != y {
      PerimeterRemove(g, region - {x}, y);
      PerimeterRemove(g, region - {y}, x);
      assert region - {x} - {y} == region - {y} - {x};
    }
  }

  /** No plot of s touches a same-plant plot outside s. */
  ghost predicate Closed(g: Plots, s: set<Coord>)
  {
    forall a, b | a in s && Linked(g, a, b) :: b in s
  }

  /** A walk through touching plots of one plant. */
  ghost predicate IsPath(g: Plots, p: seq<Coord>)
  {
    |p| >= 1 && p[0] in g && forall i | 0 <= i < |p| - 1 :: Linked(g, p[i], p[i + 1])
  }

  ghost predicate Reachable(g: Plots, a: Coord, b: Coord)
  {
    exists p :: IsPath(g, p) && p[0] == a && p[|p| - 1] == b
  }

  lemma ReachSelf(g: Plots, a: Coord)
    requires a in g
    ensures Reachable(g, a, a)
  {
    assert IsPath(g, [a]);
  }

  lemma ReachStep(g: Plots, a: Coord, b: Coord, c: Coord)
    requires Reachable(g, a, b) && Linked(g, b, c)
    ensures Reachable(g, a, c)
  {
    var p :| IsPath(g, p) && p[0] == a && p[|p| - 1] == b;
    var q := p + [c];
    assert forall i | 0 <= i < |q| - 1 :: q[i] == p[i] || i == |p| - 1;
    assert IsPath(g, q);
  }

  /** Walking back along a path is a path. */
  lemma ReachSymmetric(g: Plots, a: Coord, b: Coord)
    requires Reachable(g, a, b)
    ensures Reachable(g, b, a)
  {
    var p :| IsPath(g, p) && p[0] == a && p[|p| - 1] == b;
    var n := |p|;
    var q := seq(n, i requires 0 <= i < n => p[n - 1 - i]);
    forall i | 0 <= i < n - 1
      ensures Linked(g, q[i], q[i + 1])
    {
      assert Linked(g, p[n - 2 - i], p[n - 1 - i]);
    }
    if n > 1 {
      assert Linked(g, p[n - 2], p[n - 1]);
    }
    assert IsPath(g, q);
  }

  /** A closed set holds every plot reachable from its members. */
  lemma {:induction false} ClosedReach(g: Plots, s: set<Coord>, p: seq<Coord>)
    requires Closed(g, s) && IsPath(g, p) && p[0] in s
    ensures p[|p| - 1] in s
    decreases |p|
  {
    if |p| > 1 {
      var init := p[..|p| - 1];
      assert IsPath(g, init) by {
        forall i | 0 <= i < |init| - 1
          ensures Linked(g, init[i], init[i + 1])
        {
          assert Linked(g, p[i], p[i + 1]);
        }
      }
      ClosedReach(g, s, init);
      assert Linked(g, p[|p| - 2], p[|p| - 1]);
    }
  }

  /** A region: a non-empty closed set of plots all reachable from one of
      them, that is, one 4-connected component. */
  ghost predicate IsRegion(g: Plots, r: set<Coord>)
  {
    r <= g.Keys && Closed(g, r) && exists s | s in r :: forall c | c in r :: Reachable(g, s, c)
  }

  /** Two regions that share a plot are the same region. */
  lemma RegionsDisjointOrEqual(g: Plots, r1: set<Coord>, r2: set<Coord>, x: Coord)
    requires IsRegion(g, r1) && IsRegion(g, r2) && x in r1 && x in r2
    ensures r1 == r2
  {
    forall c | c in r1
      ensures c in r2
    {
      Within(g, r1, r2, x, c);
    }
    forall c | c in r2
      ensures c in r1
    {
      Within(g, r2, r1, x, c);
    }
  }

  lemma Within(g: Plots, r1: set<Coord>, r2: set<Coord>, x: Coord, c: Coord)
    requires IsRegion(g, r1) && IsRegion(g, r2) && x in r1 && x in r2 && c in r1
    ensures c in r2
  {
    var s :| s in r1 && forall c | c in r1 :: Reachable(g, s, c);
    assert Reachable(g, s, x) && Reachable(g, s, c);
    ReachSymmetric(g, s, x);
    ReachThrough(g, x, s, c);
    var p :| IsPath(g, p) && p[0] == x && p[|p| - 1] == c;
    ClosedReach(g, r2, p);
  }

  lemma ReachThrough(g: Plots, a: Coord, b: Coord, c: Coord)
    requires Reachable(g, a, b) && Reachable(g, b, c)
    ensures Reachable(g, a, c)
  {
    var p :| IsPath(g, p) && p[0] == a && p[|p| - 1] == b;
    var q :| IsPath(g, q) && q[0] == b && q[|q| - 1] == c;
    var r := p + q[1..];
    forall i | 0 <= i < |r| - 1
      ensures Linked(g, r[i], r[i + 1])
    {
      if i < |p| - 1 {
        assert r[i] == p[i] && r[i + 1] == p[i + 1];
      } else {
        assert r[i] == q[i - |p| + 1] && r[i + 1] == q[i - |p| + 2];
      }
    }
    assert IsPath(g, r);
  }

  ghost predicate Distinct(q: seq<Coord>)
  {
    forall i, j | 0 <= i < j < |q| :: q[i] != q[j]
  }

  /* ---------------------------------------------------------------- */
  /* One candidate: its fences and its unqueued neighbours             */
  /* ---------------------------------------------------------------- */

  /** next is queue with the same-plant neighbours of candidate that are
      neither counted nor queued appended, each once. */
  ghost predicate Extends(g: Plots, candidate: Coord, counted: set<Coord>, queue: seq<Coord>, next: seq<Coord>)
  {
    && |next| >= |queue| && next[..|queue|] == queue
    && (Distinct(queue) && (forall n | n in queue :: n !in counted) ==>
          Distinct(next) && forall n | n in next :: n !in counted)
    && (forall n :: n in next <==> (n in queue || (Linked(g, candidate, n) && n !in counted)))
  }

  /** The four neighbours of a candidate: each same-plant one takes a fence
      segment away and joins the queue unless already counted or queued. */
  method Explore(g: Plots, candidate: Coord, counted: set<Coord>, queue: seq<Coord>)
    returns (fences: int, next: seq<Coord>)
    requires candidate in g
    ensures fences == Fences(g, candidate)
    ensures Extends(g, candidate, counted, queue, next)
  {
    var plant := g[candidate];
    fences := 4;
    next := queue;
    for k := 0 to 4
      invariant fences == 4 - SameCount(g, candidate, plant, k)
      invariant |next| >= |queue| && next[..|queue|] == queue
      invariant Distinct(queue) && (forall n | n in queue :: n !in counted) ==>
        Distinct(next) && forall n | n in next :: n !in counted
      invariant forall n :: n in next <==> (n in queue ||
        (n !in counted && n in g && g[n] == plant && exists i | 0 <= i < k :: n == Add(candidate, Directions[i])))
    {
      var n := Add(candidate, Directions[k]);
      if n in g && g[n] == plant {
        fences := fences - 1;
        if n !in counted && n !in next {
          next := next + [n];
        }
      }
    }
    forall n
      ensures n in next <==> (n in queue || (Linked(g, candidate, n) && n !in counted))
    {
      AdjacentDirections(candidate, n);
    }
  }

  /* ---------------------------------------------------------------- */
  /* The flood fill                                                    */
  /* ---------------------------------------------------------------- */

  /** The state of a fill from seed: the plots taken so far (region) and
      the queue are new, distinct and reachable from the seed, and every
      same-plant neighbour of the region is in the region or queued. */
  ghost predicate Frontier(g: Plots, seed: Coord, counted: set<Coord>, region: set<Coord>, queue: seq<Coord>)
  {
    && region !! counted
    && Distinct(queue) && (forall n | n in queue :: n !in counted + region)
    && (forall n | n in queue :: n in g && Reachable(g, seed, n))
    && (forall c | c in region :: c in g && Reachable(g, seed, c))
    && (forall a, b | a in region && Linked(g, a, b) :: b in region || b in queue)
  }

  /** Fills the region of `seed` breadth first.  The plots counted before
      are whole regions, so a same-plant neighbour of the fill is never
      among them. */
  method Fill(g: Plots, seed: Coord, counted: set<Coord>)
    returns (area: nat, perimeter: int, region: set<Coord>)
    requires seed in g && seed !in counted
    requires Closed(g, counted)
    ensures region !! counted
    ensures seed in region && IsRegion(g, region)
    ensures area == |region| && perimeter == Perimeter(g, region)
  {
    var queue := [seed];
    area, perimeter := 0, 0;
    region := {};
    ReachSelf(g, seed);
    while |queue| > 0
      invariant FillState(g, seed, counted, region, queue, area)
      invariant perimeter == Perimeter(g, region)
      decreases |g.Keys - region|
    {
      ghost var before, candidate, perimeter0 := region, queue[0], perimeter;
      var fences;
      area, region, queue, fences := Visit(g, seed, counted, area, region, queue);
      perimeter := perimeter + fences;
      PerimeterAdd(g, before, candidate, region, perimeter0, perimeter);
    }
    FillDone(g, seed, counted, region, area);
  }

  /** One pop of the fill: the head of the queue joins the region, its
      fence segments are counted and its new neighbours queued. */
  method Visit(g: Plots, seed: Coord, counted: set<Coord>, area: int, region: set<Coord>, queue: seq<Coord>)
    returns (area': int, region': set<Coord>, queue': seq<Coord>, fences: int)
    requires Closed(g, counted) && |queue| > 0
    requires FillState(g, seed, counted, region, queue, area)
    ensures FillState(g, seed, counted, region', queue', area')
    ensures region' == region + {queue[0]} && queue[0] !in region
    ensures area' == area + 1 && fences == Fences(g, queue[0])
    ensures |g.Keys - region'| < |g.Keys - region|
  {
    var candidate := queue[0];
    area' := area + 1;
    region' := region + {candidate};
    FillHead(g, seed, counted, region, queue, area);
    fences, queue' := Explore(g, candidate, counted + region', queue[1..]);
    FillAdvance(g, seed, counted, region, queue, queue', area, region', area');
  }

  /** The state of the fill loop: its frontier, the seed taken first, and
      the area of the plots taken so far. */
  ghost predicate FillState(g: Plots, seed: Coord, counted: set<Coord>, region: set<Coord>,
                            queue: seq<Coord>, area: int)
  {
    && Frontier(g, seed, counted, region, queue)
    && (seed in region || queue == [seed])
    && area == |region|
  }

  lemma FillHead(g: Plots, seed: Coord, counted: set<Coord>, region: set<Coord>, queue: seq<Coord>, area: int)
    requires FillState(g, seed, counted, region, queue, area) && |queue| > 0
    ensures queue[0] in g && queue[0] !in region
  {
    assert queue[0] in queue;
  }

  /** Taking the head of the queue: the invariant, the area and the
      measure all move on by one plot. */
  lemma FillAdvance(g: Plots, seed: Coord, counted: set<Coord>, region: set<Coord>,
                    queue: seq<Coord>, next: seq<Coord>, area: int, region': set<Coord>, area': int)
    requires Closed(g, counted) && |queue| > 0
    requires FillState(g, seed, counted, region, queue, area)
    requires region' == region + {queue[0]} && area' == area + 1
    requires Extends(g, queue[0], counted + region', queue[1..], next)
    ensures FillState(g, seed, counted, region', next, area')
    ensures |g.Keys - region'| < |g.Keys - region|
  {
    var candidate := queue[0];
    assert candidate in queue;
    FillStep(g, seed, counted, region, queue, next);
    assert g.Keys - region' < g.Keys - region by {
      assert candidate in g.Keys - region;
    }
  }

  /** The fill's invariant survives one candidate. */
  lemma FillStep(g: Plots, seed: Coord, counted: set<Coord>, region: set<Coord>,
                 queue: seq<Coord>, next: seq<Coord>)
    requires Closed(g, counted) && |queue| > 0
    requires Frontier(g, seed, counted, region, queue)
    requires Extends(g, queue[0], counted + (region + {queue[0]}), queue[1..], next)
    ensures Frontier(g, seed, counted, region + {queue[0]}, next)
  {
    var candidate, rest := queue[0], queue[1..];
    assert candidate in queue;
    assert forall n | n in rest :: n in queue;
    assert Distinct(rest) && forall n | n in rest :: n !in counted + region + {candidate} by {
      forall n | n in rest
        ensures n != candidate
      {
        var i :| 0 <= i < |rest| && rest[i] == n;
        assert queue[i + 1] == n;
      }
    }
    forall n | n in next && n !in rest
      ensures Reachable(g, seed, n)
    {
      ReachStep(g, seed, candidate, n);
    }
    forall a, b | a in region + {candidate} && Linked(g, a, b)
      ensures b in region + {candidate} || b in next
    {
      if a == candidate && b in counted {
        assert Linked(g, b, candidate);
      }
      if b in queue && b != candidate {
        var i :| 0 <= i < |queue| && queue[i] == b;
        assert rest[i - 1] == b;
      }
    }
  }

  lemma FillDone(g: Plots, seed: Coord, counted: set<Coord>, region: set<Coord>, area: int)
    requires FillState(g, seed, counted, region, [], area)
    ensures region !! counted && seed in region && IsRegion(g, region) && area == |region|
  {
    assert forall c | c in region :: Reachable(g, seed, c);
  }

  /* ---------------------------------------------------------------- */
  /* Part 1                                                            */
  /* ---------------------------------------------------------------- */

  /** What fencing a region costs: its area times its perimeter (part 1)
      or its number of sides (part 2). */
  function Price(area: int, fences: int): int
  {
    area * fences
  }

  /** The fence a region is charged for: its sides when bought in bulk
      (part 2), its perimeter otherwise. */
  ghost function Charged(g: Plots, r: set<Coord>, bulk: bool): int
  {
    if bulk then Sides(r) else Perimeter(g, r)
  }

  ghost function RegionPrice(g: Plots, r: set<Coord>, bulk: bool): int
  {
    Price(|r|, Charged(g, r, bulk))
  }

  ghost function TotalPrice(g: Plots, regions: seq<set<Coord>>, bulk: bool): int
  {
    if regions == [] then 0
    else TotalPrice(g, regions[..|regions| - 1], bulk) + RegionPrice(g, regions[|regions| - 1], bulk)
  }

  /** All the plots of a sequence of regions. */
  ghost function Union(regions: seq<set<Coord>>): set<Coord>
  {
    if regions == [] then {} else Union(regions[..|regions| - 1]) + regions[|regions| - 1]
  }

  lemma {:induction false} UnionHolds(regions: seq<set<Coord>>, i: int)
    requires 0 <= i < |regions|
    ensures regions[i] <= Union(regions)
    decreases |regions|
  {
    if i < |regions| - 1 {
      var init := regions[..|regions| - 1];
      UnionHolds(init, i);
      assert init[i] == regions[i];
    }
  }

  /** regions are disjoint regions whose plots together are exactly
      `plots`. */
  ghost predicate Partition(g: Plots, plots: set<Coord>, regions: seq<set<Coord>>)
  {
    && (forall i | 0 <= i < |regions| :: IsRegion(g, regions[i]))
    && (forall i, j | 0 <= i < j < |regions| :: regions[i] !! regions[j])
    && Union(regions) == plots
  }

  /** The fold over the plots: a plot not yet counted seeds a new region,
      and the total is the sum of area times perimeter over the regions,
      which split the whole map. */
  method Part1(g: Plots, plots: seq<Coord>) returns (total: int, ghost regions: seq<set<Coord>>)
    requires forall i | 0 <= i < |plots| :: plots[i] in g
    requires forall c | c in g :: c in plots
    ensures Partition(g, g.Keys, regions)
    ensures total == TotalPrice(g, regions, false)
  {
    var counted: set<Coord> := {};
    total := 0;
    regions := [];
    for k := 0 to |plots|
      invariant FoldState(g, plots, k, counted, regions, total, false)
    {
      counted, regions, total := Fold(g, plots, k, counted, regions, total);
    }
    Covered(g, plots, counted);
  }

  /** One call of the fold's closure: a plot not yet counted seeds a fill
      and adds the price of its region. */
  method Fold(g: Plots, plots: seq<Coord>, k: int, counted: set<Coord>,
              ghost regions: seq<set<Coord>>, total: int)
    returns (counted': set<Coord>, ghost regions': seq<set<Coord>>, total': int)
    requires 0 <= k < |plots| && plots[k] in g
    requires FoldState(g, plots, k, counted, regions, total, false)
    ensures FoldState(g, plots, k + 1, counted', regions', total', false)
  {
    var c := plots[k];
    if c !in counted {
      var area, perimeter, region := Fill(g, c, counted);
      total' := total + Price(area, perimeter);
      regions' := regions + [region];
      counted' := counted + region;
      FoldStep(g, plots, k, counted, regions, total, false, region, area, perimeter, counted', regions', total');
    } else {
      FoldSkip(g, plots, k, counted, regions, total, false);
      counted', regions', total' := counted, regions, total;
    }
  }

  /** The state of the fold after the first k plots. */
  ghost predicate FoldState(g: Plots, plots: seq<Coord>, k: int, counted: set<Coord>,
                            regions: seq<set<Coord>>, total: int, bulk: bool)
    requires 0 <= k <= |plots|
  {
    Covering(g, plots, k, counted, regions) && total == TotalPrice(g, regions, bulk)
  }

  /** The regions found so far split the counted plots, which include the
      first k plots. */
  ghost predicate Covering(g: Plots, plots: seq<Coord>, k: int, counted: set<Coord>, regions: seq<set<Coord>>)
    requires 0 <= k <= |plots|
  {
    && Closed(g, counted) && Partition(g, counted, regions)
    && (forall i | 0 <= i < k :: plots[i] in counted)
    && counted <= g.Keys
  }

  /** A plot already counted leaves the fold as it is. */
  lemma FoldSkip(g: Plots, plots: seq<Coord>, k: int, counted: set<Coord>,
                 regions: seq<set<Coord>>, total: int, bulk: bool)
    requires 0 <= k < |plots| && plots[k] in counted
    requires FoldState(g, plots, k, counted, regions, total, bulk)
    ensures FoldState(g, plots, k + 1, counted, regions, total, bulk)
  {
    assert Covering(g, plots, k + 1, counted, regions);
  }

  /** A plot not yet counted adds its whole region to the fold. */
  lemma FoldStep(g: Plots, plots: seq<Coord>, k: int, counted: set<Coord>,
                 regions: seq<set<Coord>>, total: int, bulk: bool, region: set<Coord>, area: int,
                 fences: int, counted': set<Coord>, regions': seq<set<Coord>>, total': int)
    requires 0 <= k < |plots|
    requires FoldState(g, plots, k, counted, regions, total, bulk)
    requires region !! counted && plots[k] in region && IsRegion(g, region)
    requires area == |region| && fences == Charged(g, region, bulk)
    requires counted' == counted + region && regions' == regions + [region]
    requires total' == total + Price(area, fences)
    ensures FoldState(g, plots, k + 1, counted', regions', total', bulk)
  {
    CoveringStep(g, plots, k, counted, regions, region);
    assert regions'[..|regions|] == regions;
  }

  /* ---------------------------------------------------------------- */
  /* Part 2                                                            */
  /* ---------------------------------------------------------------- */

  /** The same fill, keeping the plots of the region with a fence segment
      on each side; the sides are then counted as maximal runs of those
      segments. */
  method FillSides(g: Plots, seed: Coord, counted: set<Coord>)
    returns (area: nat, sides: int, region: set<Coord>)
    requires seed in g && seed !in counted
    requires Closed(g, counted)
    ensures region !! counted
    ensures seed in region && IsRegion(g, region)
    ensures area == |region| && sides == Sides(region)
  {
    var queue := [seed];
    area := 0;
    region := {};
    var left, right, top, bottom := {}, {}, {}, {};
    ReachSelf(g, seed);
    while |queue| > 0
      invariant FillState(g, seed, counted, region, queue, area)
      invariant left == Edges(region, West) && right == Edges(region, East)
      invariant top == Edges(region, North) && bottom == Edges(region, South)
      decreases |g.Keys - region|
    {
      area, region, queue, left, right, top, bottom :=
        VisitSides(g, seed, counted, area, region, queue, left, right, top, bottom);
    }
    FillDone(g, seed, counted, region, area);
    sides := CountSides(region, left, right, top, bottom);
  }

  /** One pop of the part 2 fill: the head of the queue joins the region and
      the segment sets, and its new neighbours are queued. */
  method VisitSides(g: Plots, seed: Coord, counted: set<Coord>, area: int, region: set<Coord>,
                    queue: seq<Coord>, left: set<Coord>, right: set<Coord>, top: set<Coord>,
                    bottom: set<Coord>)
    returns (area': int, region': set<Coord>, queue': seq<Coord>, left': set<Coord>,
             right': set<Coord>, top': set<Coord>, bottom': set<Coord>)
    requires Closed(g, counted) && |queue| > 0
    requires FillState(g, seed, counted, region, queue, area)
    requires left == Edges(region, West) && right == Edges(region, East)
    requires top == Edges(region, North) && bottom == Edges(region, South)
    ensures FillState(g, seed, counted, region', queue', area')
    ensures left' == Edges(region', West) && right' == Edges(region', East)
    ensures top' == Edges(region', North) && bottom' == Edges(region', South)
    ensures |g.Keys - region'| < |g.Keys - region|
  {
    FillHead(g, seed, counted, region, queue, area);
    left', right', top', bottom' := Enclose(region, queue[0], left, right, top, bottom);
    var fences;
    area', region', queue', fences := Visit(g, seed, counted, area, region, queue);
  }

  /** The fold of part 2: the regions split the whole map and the total is
      the sum of area times number of sides over them. */
  method Part2(g: Plots, plots: seq<Coord>) returns (total: int, ghost regions: seq<set<Coord>>)
    requires forall i | 0 <= i < |plots| :: plots[i] in g
    requires forall c | c in g :: c in plots
    ensures Partition(g, g.Keys, regions)
    ensures total == TotalPrice(g, regions, true)
  {
    var counted: set<Coord> := {};
    total := 0;
    regions := [];
    for k := 0 to |plots|
      invariant FoldState(g, plots, k, counted, regions, total, true)
    {
      counted, regions, total := FoldSides(g, plots, k, counted, regions, total);
    }
    Covered(g, plots, counted);
  }

  method FoldSides(g: Plots, plots: seq<Coord>, k: int, counted: set<Coord>,
                   ghost regions: seq<set<Coord>>, total: int)
    returns (counted': set<Coord>, ghost regions': seq<set<Coord>>, total': int)
    requires 0 <= k < |plots| && plots[k] in g
    requires FoldState(g, plots, k, counted, regions, total, true)
    ensures FoldState(g, plots, k + 1, counted', regions', total', true)
  {
    var c := plots[k];
    if c !in counted {
      var area, sides, region := FillSides(g, c, counted);
      total' := total + Price(area, sides);
      regions' := regions + [region];
      counted' := counted + region;
      FoldStep(g, plots, k, counted, regions, total, true, region, area, sides, counted', regions', total');
    } else {
      FoldSkip(g, plots, k, counted, regions, total, true);
      counted', regions', total' := counted, regions, total;
    }
  }

  lemma CoveringStep(g: Plots, plots: seq<Coord>, k: int, counted: set<Coord>,
                     regions: seq<set<Coord>>, region: set<Coord>)
    requires 0 <= k < |plots|
    requires Covering(g, plots, k, counted, regions)
    requires region !! counted && plots[k] in region && IsRegion(g, region)
    ensures Covering(g, plots, k + 1, counted + region, regions + [region])
  {
    AddRegion(g, counted, regions, region);
  }

  lemma Covered(g: Plots, plots: seq<Coord>, counted: set<Coord>)
    requires forall c | c in g :: c in plots
    requires forall i | 0 <= i < |plots| :: plots[i] in counted
    requires counted <= g.Keys
    ensures counted == g.Keys
  {
    forall c | c in g
      ensures c in counted
    {
      var i :| 0 <= i < |plots| && plots[i] == c;
    }
  }

  lemma AddRegion(g: Plots, counted: set<Coord>, regions: seq<set<Coord>>, region: set<Coord>)
    requires Closed(g, counted) && IsRegion(g, region) && region !! counted
    requires Partition(g, counted, regions)
    ensures Closed(g, counted + region)
    ensures Partition(g, counted + region, regions + [region])
  {
    var all := regions + [region];
    assert all[..|all| - 1] == regions;
    forall i | 0 <= i < |regions|
      ensures regions[i] !! region
    {
      UnionHolds(regions, i);
    }
    forall a, b | a in counted + region && Linked(g, a, b)
      ensures b in counted + region
    {
    }
  }
}
