/** The sides of a region (part 2 of the garden puzzle).  A plot whose
    western neighbour is outside the region carries a western fence
    segment; the plots with a western segment fall into vertical runs, and
    each maximal run is one side.  The same holds for the other three
    compass points, with horizontal runs for the northern and southern
    segments. */
module FenceSides {
  import opened Util
  import opened Coords

  const West := Coord(-1, 0)
  const East := Coord(1, 0)
  const North := Coord(0, -1)
  const South := Coord(0, 1)

  function Neg(d: Coord): Coord
  {
    Coord(-d.x, -d.y)
  }

  /** The plots of r whose neighbour in direction d is outside r. */
  ghost function Edges(r: set<Coord>, d: Coord): set<Coord>
  {
    set c | c in r && Add(c, d) !in r
  }

  /** k steps from c along a column (vertical) or a row. */
  function Step(c: Coord, vertical: bool, k: int): Coord
  {
    if vertical then Coord(c.x, c.y + k) else Coord(c.x + k, c.y)
  }

  /** The first plot of each maximal run of s along columns or rows: the
      plots whose predecessor on the line is not in s. */
  ghost function RunStarts(s: set<Coord>, vertical: bool): set<Coord>
  {
    set c | c in s && Step(c, vertical, -1) !in s
  }

  /** The number of sides: maximal runs of western and eastern segments
      along columns, of northern and southern ones along rows. */
  ghost function Sides(r: set<Coord>): int
  {
    |RunStarts(Edges(r, West), true)| + |RunStarts(Edges(r, East), true)| +
    |RunStarts(Edges(r, North), false)| + |RunStarts(Edges(r, South), false)|
  }

  /** c lies on the line through first at an offset in [lo, hi). */
  predicate InSpan(first: Coord, vertical: bool, lo: int, hi: int, c: Coord)
  {
    if vertical then c.x == first.x && lo <= c.y - first.y < hi
    else c.y == first.y && lo <= c.x - first.x < hi
  }

  /* ---------------------------------------------------------------- */
  /* Keeping the fence segments while a region grows                   */
  /* ---------------------------------------------------------------- */

  /** A plot joins the region: for each of the four directions, the
      neighbour's opposite segment is taken away if it had one, and
      otherwise the new plot gets a segment on that side. */
  method Enclose(ghost region: set<Coord>, c: Coord, left: set<Coord>, right: set<Coord>,
                 top: set<Coord>, bottom: set<Coord>)
    returns (left': set<Coord>, right': set<Coord>, top': set<Coord>, bottom': set<Coord>)
    requires c !in region
    requires left == Edges(region, West) && right == Edges(region, East)
    requires top == Edges(region, North) && bottom == Edges(region, South)
    ensures left' == Edges(region + {c}, West) && right' == Edges(region + {c}, East)
    ensures top' == Edges(region + {c}, North) && bottom' == Edges(region + {c}, South)
  {
    var l1, r1 := left, right;
    if Add(c, West) in right {
      r1 := right - {Add(c, West)};
    } else {
      l1 := left + {c};
    }
    left', right' := l1, r1;
    if Add(c, East) in l1 {
      left' := l1 - {Add(c, East)};
    } else {
      right' := r1 + {c};
    }
    var t1, b1 := top, bottom;
    if Add(c, North) in bottom {
      b1 := bottom - {Add(c, North)};
    } else {
      t1 := top + {c};
    }
    top', bottom' := t1, b1;
    if Add(c, South) in t1 {
      top' := t1 - {Add(c, South)};
    } else {
      bottom' := b1 + {c};
    }
    assert Neg(West) == East && Neg(North) == South;
    PairStep(region, c, West, left, right, l1, r1, left', right');
    PairStep(region, c, North, top, bottom, t1, b1, top', bottom');
  }

  /** The two updates for a pair of opposite directions d and Neg(d)
      give the segments of the grown region. */
  lemma PairStep(r: set<Coord>, c: Coord, d: Coord, ed: set<Coord>, en: set<Coord>,
                 ed1: set<Coord>, en1: set<Coord>, ed2: set<Coord>, en2: set<Coord>)
    requires c !in r && d != Origin
    requires ed == Edges(r, d) && en == Edges(r, Neg(d))
    requires if Add(c, d) in en then ed1 == ed && en1 == en - {Add(c, d)} else ed1 == ed + {c} && en1 == en
    requires if Add(c, Neg(d)) in ed1 then ed2 == ed1 - {Add(c, Neg(d))} && en2 == en1
             else ed2 == ed1 && en2 == en1 + {c}
    ensures ed2 == Edges(r + {c}, d) && en2 == Edges(r + {c}, Neg(d))
  {
    var ahead, behind := Add(c, d), Add(c, Neg(d));
    EdgesGrow(r, c, d);
    EdgesGrow(r, c, Neg(d));
    assert Add(c, Neg(Neg(d))) == ahead;
    EdgeOf(r, ahead, Neg(d), c);
    EdgeOf(r, behind, d, c);
    UpdateAlgebra(ed, en, ed1, en1, ed2, en2, c, ahead, behind, ahead in r, behind in r);
  }

  /** A plot next to c, which is outside r, has its segment towards c
      exactly when it is in r. */
  lemma EdgeOf(r: set<Coord>, e: Coord, d: Coord, c: Coord)
    requires c !in r && Add(e, d) == c
    ensures e in Edges(r, d) <==> e in r
  {
  }

  /** The updates to the two sets, written on plain sets. */
  lemma UpdateAlgebra(ed: set<Coord>, en: set<Coord>, ed1: set<Coord>, en1: set<Coord>,
                      ed2: set<Coord>, en2: set<Coord>, c: Coord, ahead: Coord, behind: Coord,
                      aheadIn: bool, behindIn: bool)
    requires ahead != c && behind != c
    requires ahead in en <==> aheadIn
    requires behind in ed <==> behindIn
    requires if ahead in en then ed1 == ed && en1 == en - {ahead} else ed1 == ed + {c} && en1 == en
    requires if behind in ed1 then ed2 == ed1 - {behind} && en2 == en1 else ed2 == ed1 && en2 == en1 + {c}
    ensures ed2 == (ed - {behind}) + (if aheadIn then {} else {c})
    ensures en2 == (en - {ahead}) + (if behindIn then {} else {c})
  {
    assert behind in ed1 <==> behind in ed;
  }

  /** Growing r by c: the plot behind c (seen from direction d) loses its
      segment towards c, and c has one unless its neighbour ahead is in r. */
  lemma EdgesGrow(r: set<Coord>, c: Coord, d: Coord)
    requires c !in r && d != Origin
    ensures Edges(r + {c}, d) == (Edges(r, d) - {Add(c, Neg(d))}) + (if Add(c, d) in r then {} else {c})
  {
    var grown := (Edges(r, d) - {Add(c, Neg(d))}) + (if Add(c, d) in r then {} else {c});
    forall e
      ensures e in Edges(r + {c}, d) <==> e in grown
    {
      if Add(e, d) == c {
        assert e == Add(c, Neg(d));
      }
    }
  }

  /* ---------------------------------------------------------------- */
  /* Counting the runs                                                 */
  /* ---------------------------------------------------------------- */

  /** The side count of a region from its four segment sets: the runs of
      western and eastern segments along columns, then of northern and
      southern ones along rows. */
  method CountSides(ghost region: set<Coord>, left: set<Coord>, right: set<Coord>,
                    top: set<Coord>, bottom: set<Coord>) returns (sides: int)
    requires left == Edges(region, West) && right == Edges(region, East)
    requires top == Edges(region, North) && bottom == Edges(region, South)
    ensures sides == Sides(region)
  {
    sides := 0;
    sides := CountRuns(left, true, sides);
    sides := CountRuns(right, true, sides);
    sides := CountRuns(top, false, sides);
    sides := CountRuns(bottom, false, sides);
  }

  /** Takes maximal runs out of the set one at a time, from an arbitrary
      plot forwards and then backwards, adding one side per run. */
  method CountRuns(s: set<Coord>, vertical: bool, sides: int) returns (sides': int)
    ensures sides' == sides + |RunStarts(s, vertical)|
  {
    var rest := s;
    sides' := sides;
    while |rest| > 0
      invariant sides' + |RunStarts(rest, vertical)| == sides + |RunStarts(s, vertical)|
      decreases |rest|
    {
      var first :| first in rest;
      ghost var before := rest;
      var hi;
      rest, hi := TakeForward(rest, first, vertical);
      ghost var lo;
      rest, lo := TakeBackward(before, rest, first, vertical, hi);
      RemoveRun(before, first, vertical, lo, hi, rest);
      sides' := sides' + 1;
    }
    assert RunStarts(rest, vertical) == {};
  }

  /** Takes the plots first, first + 1, ... out of s while they are there. */
  method TakeForward(s: set<Coord>, first: Coord, vertical: bool) returns (s': set<Coord>, hi: int)
    requires first in s
    ensures hi > 0 && Step(first, vertical, hi) !in s
    ensures forall j | 0 <= j < hi :: Step(first, vertical, j) in s
    ensures forall c :: c in s' <==> (c in s && !InSpan(first, vertical, 0, hi, c))
  {
    s' := s;
    hi := 0;
    while Step(first, vertical, hi) in s'
      invariant hi >= 0
      invariant forall c :: c in s' <==> (c in s && !InSpan(first, vertical, 0, hi, c))
      invariant forall j | 0 <= j < hi :: Step(first, vertical, j) in s
      decreases |s'|
    {
      s' := s' - {Step(first, vertical, hi)};
      hi := hi + 1;
    }
  }

  /** Then takes first - 1, first - 2, ... out while they are there. */
  method TakeBackward(ghost s: set<Coord>, rest: set<Coord>, first: Coord, vertical: bool, hi: int)
    returns (rest': set<Coord>, ghost lo: int)
    requires hi > 0 && Step(first, vertical, hi) !in s
    requires forall j | 0 <= j < hi :: Step(first, vertical, j) in s
    requires forall c :: c in rest <==> (c in s && !InSpan(first, vertical, 0, hi, c))
    ensures lo <= 0 && Step(first, vertical, lo - 1) !in s
    ensures forall j | lo <= j < hi :: Step(first, vertical, j) in s
    ensures forall c :: c in rest' <==> (c in s && !InSpan(first, vertical, lo, hi, c))
  {
    rest' := rest;
    var i := 1;
    while Step(first, vertical, -i) in rest'
      invariant i >= 1
      invariant forall c :: c in rest' <==> (c in s && !InSpan(first, vertical, 1 - i, hi, c))
      invariant forall j | 1 - i <= j < hi :: Step(first, vertical, j) in s
      decreases |rest'|
    {
      rest' := rest' - {Step(first, vertical, -i)};
      i := i + 1;
    }
    lo := 1 - i;
  }

  /** Taking out a maximal run takes out exactly one run start. */
  lemma RemoveRun(s: set<Coord>, first: Coord, vertical: bool, lo: int, hi: int, s': set<Coord>)
    requires lo <= 0 < hi
    requires forall j | lo <= j < hi :: Step(first, vertical, j) in s
    requires Step(first, vertical, lo - 1) !in s && Step(first, vertical, hi) !in s
    requires forall c :: c in s' <==> (c in s && !InSpan(first, vertical, lo, hi, c))
    ensures |RunStarts(s', vertical)| + 1 == |RunStarts(s, vertical)| && |s'| < |s|
  {
    var start := Step(first, vertical, lo);
    forall c
      ensures c in RunStarts(s', vertical) <==> c in RunStarts(s, vertical) - {start}
    {
      RunStartKept(s, first, vertical, lo, hi, s', c);
    }
    assert RunStarts(s', vertical) == RunStarts(s, vertical) - {start};
    assert start in RunStarts(s, vertical);
    assert Step(first, vertical, 0) == first && InSpan(first, vertical, lo, hi, first);
    SubsetCard(s', s - {first});
  }

  /** One plot is a run start after the removal exactly when it was one
      before and is not the start of the removed run. */
  lemma RunStartKept(s: set<Coord>, first: Coord, vertical: bool, lo: int, hi: int, s': set<Coord>,
                     c: Coord)
    requires lo <= 0 < hi
    requires forall j | lo <= j < hi :: Step(first, vertical, j) in s
    requires Step(first, vertical, lo - 1) !in s && Step(first, vertical, hi) !in s
    requires forall c :: c in s' <==> (c in s && !InSpan(first, vertical, lo, hi, c))
    ensures c in RunStarts(s', vertical) <==> c in RunStarts(s, vertical) - {Step(first, vertical, lo)}
  {
    var p := Step(c, vertical, -1);
    if c in s && InSpan(first, vertical, lo, hi, c) && c != Step(first, vertical, lo) {
      assert InSpan(first, vertical, lo, hi, p);
      var j := if vertical then p.y - first.y else p.x - first.x;
      assert p == Step(first, vertical, j);
    }
    if InSpan(first, vertical, lo, hi, p) {
      var j := if vertical then p.y - first.y else p.x - first.x;
      assert c == Step(first, vertical, j + 1);
    }
  }

  /* ---------------------------------------------------------------- */
  /* Properties                                                        */
  /* ---------------------------------------------------------------- */

  /** There is no more than one run per plot with a segment on that side. */
  lemma SidesAtMostSegments(r: set<Coord>)
    ensures Sides(r) <= |Edges(r, West)| + |Edges(r, East)| + |Edges(r, North)| + |Edges(r, South)|
  {
    RunStartsWithin(Edges(r, West), true);
    RunStartsWithin(Edges(r, East), true);
    RunStartsWithin(Edges(r, North), false);
    RunStartsWithin(Edges(r, South), false);
  }

  lemma RunStartsWithin(s: set<Coord>, vertical: bool)
    ensures |RunStarts(s, vertical)| <= |s|
  {
    SubsetCard(RunStarts(s, vertical), s);
  }

  /** A single plot has four sides. */
  lemma SinglePlotSides(c: Coord)
    ensures Sides({c}) == 4
  {
    assert Edges({c}, West) == {c} by {
      assert Add(c, West) != c;
    }
    assert Edges({c}, East) == {c} by {
      assert Add(c, East) != c;
    }
    assert Edges({c}, North) == {c} by {
      assert Add(c, North) != c;
    }
    assert Edges({c}, South) == {c} by {
      assert Add(c, South) != c;
    }
    assert RunStarts({c}, true) == {c} by {
      assert Step(c, true, -1) != c;
    }
    assert RunStarts({c}, false) == {c} by {
      assert Step(c, false, -1) != c;
    }
  }
}
