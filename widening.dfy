/** Part 2 of the warehouse simulator (src/bin/day15.rs): every column of
    the parsed map is doubled, then the wide simulation runs on the result. */
module Widening {
  import opened Util
  import opened Coords
  import opened Warehouse

  /** What half i (0 left, 1 right) of a doubled cell holds: a wall becomes
      two walls, a crate a left and a right half, the robot stays on the left
      half; anything else is dropped. */
  function WideHalf(o: Obj, i: int): Option<Obj>
  {
    match o
    case Wall => Some(Wall)
    case Crate => if i == 0 then Some(LCrate) else Some(Crate)
    case Robot => if i == 0 then Some(Robot) else None
    case LCrate => None
  }

  /** The narrow cells whose half i is kept. */
  function Kept(g: Grid, i: int): set<Coord>
  {
    set c | c in g && WideHalf(g[c], i).Some?
  }

  /** The left halves, at the even columns 2x. */
  function LeftHalves(g: Grid): Grid
  {
    map c | c in Kept(g, 0) :: Coord(2 * c.x, c.y) := WideHalf(g[c], 0).value
  }

  /** The right halves, at the odd columns 2x + 1. */
  function RightHalves(g: Grid): Grid
  {
    map c | c in Kept(g, 1) :: Coord(2 * c.x + 1, c.y) := WideHalf(g[c], 1).value
  }

  /** The doubled map. */
  function Widened(g: Grid): Grid
  {
    LeftHalves(g) + RightHalves(g)
  }

  /** No column is both even and odd. */
  lemma Parity(g: Grid, c: Coord)
    ensures Coord(2 * c.x, c.y) !in RightHalves(g)
    ensures Coord(2 * c.x + 1, c.y) !in LeftHalves(g)
  {
    forall c' | c' in Kept(g, 1) ensures Coord(2 * c'.x + 1, c'.y) != Coord(2 * c.x, c.y) {
    }
    forall c' | c' in Kept(g, 0) ensures Coord(2 * c'.x, c'.y) != Coord(2 * c.x + 1, c.y) {
    }
  }

  lemma LeftAt(g: Grid, c: Coord)
    requires c in g
    ensures WideHalf(g[c], 0).Some? ==> Holds(Widened(g), Coord(2 * c.x, c.y), WideHalf(g[c], 0).value)
    ensures WideHalf(g[c], 0).None? ==> Coord(2 * c.x, c.y) !in Widened(g)
  {
    Parity(g, c);
    if WideHalf(g[c], 0).Some? {
      assert c in Kept(g, 0);
      assert LeftHalves(g)[Coord(2 * c.x, c.y)] == WideHalf(g[c], 0).value;
    }
  }

  lemma RightSome(g: Grid, c: Coord)
    requires c in g && WideHalf(g[c], 1).Some?
    ensures Holds(Widened(g), Coord(2 * c.x + 1, c.y), WideHalf(g[c], 1).value)
  {
    assert c in Kept(g, 1);
    assert RightHalves(g)[Coord(2 * c.x + 1, c.y)] == WideHalf(g[c], 1).value;
  }

  lemma RightNone(g: Grid, c: Coord)
    requires c in g && WideHalf(g[c], 1).None?
    ensures Coord(2 * c.x + 1, c.y) !in Widened(g)
  {
    forall c' | c' in Kept(g, 1) ensures Coord(2 * c'.x + 1, c'.y) != Coord(2 * c.x + 1, c.y) {
    }
    assert Coord(2 * c.x + 1, c.y) !in RightHalves(g);
    Parity(g, c);
  }

  /** Every single-width cell c becomes the two cells (2x, y) and (2x+1, y)
      as WideHalf says. */
  lemma WidenedAt(g: Grid, c: Coord)
    requires c in g
    ensures WideHalf(g[c], 0).Some? ==> Holds(Widened(g), Coord(2 * c.x, c.y), WideHalf(g[c], 0).value)
    ensures WideHalf(g[c], 0).None? ==> Coord(2 * c.x, c.y) !in Widened(g)
    ensures WideHalf(g[c], 1).Some? ==> Holds(Widened(g), Coord(2 * c.x + 1, c.y), WideHalf(g[c], 1).value)
    ensures WideHalf(g[c], 1).None? ==> Coord(2 * c.x + 1, c.y) !in Widened(g)
  {
    LeftAt(g, c);
    if WideHalf(g[c], 1).Some? {
      RightSome(g, c);
    } else {
      RightNone(g, c);
    }
  }

  /** Nothing else is in the doubled map: every wide cell is a half of a
      single-width cell. */
  lemma WidenedOrigin(g: Grid, p: Coord)
    requires p in Widened(g)
    ensures exists c :: c in g && (p == Coord(2 * c.x, c.y) || p == Coord(2 * c.x + 1, c.y))
  {
    if p in RightHalves(g) {
      var c :| c in Kept(g, 1) && p == Coord(2 * c.x + 1, c.y);
    } else {
      var c :| c in Kept(g, 0) && p == Coord(2 * c.x, c.y);
    }
  }

  /** The cells of w that half c's object o: what WideHalf says at (2x, y)
      and (2x+1, y). */
  predicate HalvesOf(w: Grid, c: Coord, o: Obj)
  {
    && (WideHalf(o, 0).Some? ==> Holds(w, Coord(2 * c.x, c.y), WideHalf(o, 0).value))
    && (WideHalf(o, 0).None? ==> Coord(2 * c.x, c.y) !in w)
    && (WideHalf(o, 1).Some? ==> Holds(w, Coord(2 * c.x + 1, c.y), WideHalf(o, 1).value))
    && (WideHalf(o, 1).None? ==> Coord(2 * c.x + 1, c.y) !in w)
  }

  /** w is a doubling of g: each cell of g has its halves in w, and w holds
      nothing else. The first part is instantiated only on demand, by naming
      `HalvesOf` of a cell. */
  predicate IsWidening(g: Grid, w: Grid)
  {
    && (forall c {:trigger HalvesOf(w, c, g[c])} :: c in g ==> HalvesOf(w, c, g[c]))
    && (forall p :: p in w ==> exists c :: c in g && (p == Coord(2 * c.x, c.y) || p == Coord(2 * c.x + 1, c.y)))
  }

  lemma WidenedIsWidening(g: Grid)
    ensures IsWidening(g, Widened(g))
  {
    forall c | c in g ensures HalvesOf(Widened(g), c, g[c]) {
      WidenedAt(g, c);
    }
    forall p | p in Widened(g) ensures exists c :: c in g && (p == Coord(2 * c.x, c.y) || p == Coord(2 * c.x + 1, c.y)) {
      WidenedOrigin(g, p);
    }
  }

  /** There is only one doubling of a map. */
  lemma WideningUnique(g: Grid, w1: Grid, w2: Grid)
    requires IsWidening(g, w1) && IsWidening(g, w2)
    ensures w1 == w2
  {
    forall p | p in w1 ensures p in w2 && w2[p] == w1[p] {
      var c :| c in g && (p == Coord(2 * c.x, c.y) || p == Coord(2 * c.x + 1, c.y));
      assert HalvesOf(w1, c, g[c]) && HalvesOf(w2, c, g[c]);
    }
    forall p | p in w2 ensures p in w1 {
      var c :| c in g && (p == Coord(2 * c.x, c.y) || p == Coord(2 * c.x + 1, c.y));
      assert HalvesOf(w1, c, g[c]) && HalvesOf(w2, c, g[c]);
    }
  }

  /** The single-width cell and the half a wide cell comes from. */
  lemma WideSource(g: Grid, w: Grid, p: Coord) returns (c: Coord, i: int)
    requires IsWidening(g, w) && p in w
    ensures c in g && 0 <= i < 2 && p == Coord(2 * c.x + i, c.y) && WideHalf(g[c], i) == Some(w[p])
  {
    c :| c in g && (p == Coord(2 * c.x, c.y) || p == Coord(2 * c.x + 1, c.y));
    assert HalvesOf(w, c, g[c]);
    i := if p == Coord(2 * c.x, c.y) then 0 else 1;
  }

  lemma WideCellWellFormed(g: Grid, w: Grid, p: Coord)
    requires |CellsOf(g, Robot)| == 1 && IsWidening(g, w) && p in w
    ensures w[p] == Robot <==> p == Coord(2 * RobotOf(g).x, RobotOf(g).y)
    ensures w[p] == LCrate ==> Holds(w, Add(p, Right), Crate)
    ensures w[p] == Crate ==> Holds(w, Add(p, Left), LCrate)
  {
    var r := RobotOf(g);
    assert HalvesOf(w, r, g[r]);
    var c, i := WideSource(g, w, p);
    assert HalvesOf(w, c, g[c]);
    if w[p] == Robot {
      OnlyRobot(g, c);
    }
  }

  /** A doubling of a parsed map with one robot has that robot at (2x, y)
      only, and without it the doubled map is wide-well-formed. */
  lemma WideningWellFormed(g: Grid, w: Grid)
    requires |CellsOf(g, Robot)| == 1 && IsWidening(g, w)
    ensures CellsOf(w, Robot) == {Coord(2 * RobotOf(g).x, RobotOf(g).y)}
    ensures WideWellFormed(w - {Coord(2 * RobotOf(g).x, RobotOf(g).y)})
  {
    var r := RobotOf(g);
    assert HalvesOf(w, r, g[r]);
    forall p | p in w
      ensures w[p] == Robot <==> p == Coord(2 * r.x, r.y)
      ensures w[p] == LCrate ==> Holds(w, Add(p, Right), Crate)
      ensures w[p] == Crate ==> Holds(w, Add(p, Left), LCrate)
    {
      WideCellWellFormed(g, w, p);
    }
  }

  /** The doubled map of a parsed map with one robot, without the robot, is
      wide-well-formed. */
  lemma WidenedWellFormed(g: Grid)
    requires |CellsOf(g, Robot)| == 1
    ensures CellsOf(Widened(g), Robot) == {Coord(2 * RobotOf(g).x, RobotOf(g).y)}
    ensures WideWellFormed(Widened(g) - {Coord(2 * RobotOf(g).x, RobotOf(g).y)})
  {
    WidenedIsWidening(g);
    WideningWellFormed(g, Widened(g));
  }

  /** The widening loop: every parsed cell, in any order, is replaced by its
      two halves in a fresh map. */
  method WidenWarehouse(g: Grid) returns (w: Grid)
    ensures w == Widened(g)
  {
    w := map[];
    var todo := g.Keys;
    assert g - todo == map[];
    while todo != {}
      invariant todo <= g.Keys
      invariant IsWidening(g - todo, w)
      decreases |todo|
    {
      var c :| c in todo;
      ghost var done := g - todo;
      ghost var w0 := w;
      todo := todo - {c};
      match g[c] {
        case Wall =>
          w := w[Coord(c.x * 2, c.y) := Wall];
          w := w[Coord(c.x * 2 + 1, c.y) := Wall];
        case Crate =>
          w := w[Coord(c.x * 2, c.y) := LCrate];
          w := w[Coord(c.x * 2 + 1, c.y) := Crate];
        case Robot =>
          w := w[Coord(c.x * 2, c.y) := Robot];
        case LCrate =>
      }
      assert w == PutHalves(w0, c, g[c]);
      WidenStep(done, c, g[c], w0);
      assert done[c := g[c]] == g - todo;
    }
    assert g - todo == g;
    WidenedIsWidening(g);
    WideningUnique(g, w, Widened(g));
  }

  /** What one pass of the widening loop inserts for the cell c holding o. */
  function PutHalves(w: Grid, c: Coord, o: Obj): Grid
  {
    match o
    case Wall => w[Coord(2 * c.x, c.y) := Wall][Coord(2 * c.x + 1, c.y) := Wall]
    case Crate => w[Coord(2 * c.x, c.y) := LCrate][Coord(2 * c.x + 1, c.y) := Crate]
    case Robot => w[Coord(2 * c.x, c.y) := Robot]
    case LCrate => w
  }

  /** One pass of the widening loop keeps w a doubling of the cells done. */
  lemma WidenStep(done: Grid, c: Coord, o: Obj, w0: Grid)
    requires IsWidening(done, w0) && c !in done
    ensures IsWidening(done[c := o], PutHalves(w0, c, o))
  {
    var g := done[c := o];
    var w := PutHalves(w0, c, o);
    WidenStepKeys(done, c, w0);
    forall c' | c' in g ensures HalvesOf(w, c', g[c']) {
      if c' != c {
        WidenStepOther(done, c, o, w0, c');
      }
    }
    forall p | p in w ensures exists c' :: c' in g && (p == Coord(2 * c'.x, c'.y) || p == Coord(2 * c'.x + 1, c'.y)) {
      if p in w0 {
        var c' :| c' in done && (p == Coord(2 * c'.x, c'.y) || p == Coord(2 * c'.x + 1, c'.y));
        assert c' in g;
      } else {
        assert c in g;
      }
    }
  }

  /** The halves of a new cell are not yet in the doubled map. */
  lemma WidenStepKeys(done: Grid, c: Coord, w0: Grid)
    requires IsWidening(done, w0) && c !in done
    ensures Coord(2 * c.x, c.y) !in w0 && Coord(2 * c.x + 1, c.y) !in w0
  {
    forall p | p in w0 ensures p != Coord(2 * c.x, c.y) && p != Coord(2 * c.x + 1, c.y) {
      var c' :| c' in done && (p == Coord(2 * c'.x, c'.y) || p == Coord(2 * c'.x + 1, c'.y));
      assert c' != c;
    }
  }

  /** Inserting the halves of c leaves the halves of every other cell alone. */
  lemma WidenStepOther(done: Grid, c: Coord, o: Obj, w0: Grid, c': Coord)
    requires IsWidening(done, w0) && c !in done && c' in done
    ensures HalvesOf(PutHalves(w0, c, o), c', done[c'])
  {
    assert HalvesOf(w0, c', done[c']);
    assert c' != c;
    var l := Coord(2 * c.x, c.y);
    var r := Coord(2 * c.x + 1, c.y);
    assert Coord(2 * c'.x, c'.y) != l && Coord(2 * c'.x, c'.y) != r;
    assert Coord(2 * c'.x + 1, c'.y) != l && Coord(2 * c'.x + 1, c'.y) != r;
  }

  /** Part 2: widen, lift the robot off the map, run the tape, then score the
      left halves. */
  ghost function Final2(parsed: Grid, tape: string): Grid
    requires |CellsOf(parsed, Robot)| == 1
  {
    var r := RobotOf(parsed);
    var start := Coord(2 * r.x, r.y);
    WidenedWellFormed(parsed);
    Simulate2(Widened(parsed) - {start}, start, tape).0
  }

  method Part2(parsed: Grid, instructions: string) returns (checksum: int)
    requires |CellsOf(parsed, Robot)| == 1
    ensures checksum == GpsSum(Final2(parsed, instructions), LCrate)
  {
    var wide := WidenWarehouse(parsed);
    WidenedWellFormed(parsed);
    var robot :| robot in wide && wide[robot] == Robot;
    assert robot in CellsOf(wide, Robot);
    ghost var start := robot;
    var warehouse := wide - {robot};
    for i := 0 to |instructions|
      invariant WideWellFormed(warehouse)
      invariant Simulate2(warehouse, robot, instructions[i..]) == Simulate2(wide - {start}, start, instructions)
    {
      ghost var next := Step2(warehouse, robot, instructions[i]);
      assert Simulate2(warehouse, robot, instructions[i..]) == Simulate2(next.0, next.1, instructions[i + 1..]);
      var dir := DirectionOf(instructions[i]);
      if dir.Some? {
        var d := dir.value;
        var nextRobot := Add(robot, d);
        var moveCrates, wall := ResolvePush(warehouse, nextRobot, d);
        if !wall {
          ResolveSound(warehouse, d, [nextRobot], []);
          warehouse := ApplyPush(warehouse, moveCrates, d);
          robot := nextRobot;
        }
      }
      assert (warehouse, robot) == next;
    }
    checksum := GpsChecksum(warehouse, LCrate);
  }
}
