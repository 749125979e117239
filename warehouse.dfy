/** The warehouse box-pushing simulator (src/bin/day15.rs).

    A robot walks over a sparse map from coordinates to objects, floor cells
    being absent, and pushes crates ahead of it. The single-width simulation
    (part 1) scans the straight run of crates ahead; the wide simulation
    (part 2) first doubles every column, so that a crate becomes a left half
    `LCrate` next to a right half `Crate`, and resolves the whole tree of
    crates a push involves before moving any of them.

    Each simulation is a method over the mutable map, proved equal to a pure
    step function (`Step1`, `Step2`); the properties the simulator promises
    are lemmas about those functions. */
module Warehouse {
  import opened Util
  import opened Coords

  /** A `Crate` is a whole crate in part 1 and the right half of a wide crate
      in part 2; `LCrate` is the left half. */
  datatype Obj = Wall | Robot | Crate | LCrate

  type Grid = map<Coord, Obj>

  const Left := Coord(-1, 0)
  const Right := Coord(1, 0)

  predicate Holds(g: Grid, p: Coord, o: Obj)
  {
    p in g && g[p] == o
  }

  /** Every cell holding o. */
  function CellsOf(g: Grid, o: Obj): set<Coord>
  {
    set p | p in g && g[p] == o
  }

  function Members(s: seq<Coord>): set<Coord>
  {
    set q | q in s
  }

  predicate NoDup(s: seq<Coord>)
  {
    forall i, j :: 0 <= i < j < |s| ==> s[i] != s[j]
  }

  /** One of the four unit steps. */
  predicate IsUnit(d: Coord)
  {
    (d.x == 0 && (d.y == 1 || d.y == -1)) || (d.y == 0 && (d.x == 1 || d.x == -1))
  }

  /** The instruction characters; anything else is skipped. */
  function DirectionOf(ch: char): (d: Option<Coord>)
    ensures d.Some? <==> ch == '<' || ch == '>' || ch == '^' || ch == 'v'
    ensures d.Some? ==> IsUnit(d.value)
    ensures ch == '^' ==> d == Some(Coord(0, -1))
    ensures ch == 'v' ==> d == Some(Coord(0, 1))
  {
    match ch
    case '<' => Some(Left)
    case '>' => Some(Right)
    case '^' => Some(Coord(0, -1))
    case 'v' => Some(Coord(0, 1))
    case _ => None
  }

  /** How far p lies along the unit direction d; one step along d adds one. */
  function Along(p: Coord, d: Coord): int
  {
    if d.x == 1 then p.x else if d.x == -1 then -p.x else if d.y == 1 then p.y else -p.y
  }

  /** The x + 100 * y score of a cell. */
  function Gps(c: Coord): int
  {
    c.x + 100 * c.y
  }

  /** The checksum fold: the score summed over the cells holding o, which is
      `Crate` in part 1 and `LCrate`, the left edge of a wide crate, in part 2. */
  ghost function GpsSum(g: Grid, o: Obj): int
  {
    SumOver(CellsOf(g, o), Gps)
  }

  // ---------------------------------------------------------------------
  // Moving a set of cells one step

  /** The cells of s, each one step further along d. */
  function Moved(s: set<Coord>, d: Coord): set<Coord>
  {
    set m | m in s :: Add(m, d)
  }

  /** The map after every cell of s has moved one step along d: the cells of
      s are vacated unless another moved cell lands there, and a moved cell
      replaces whatever was at its destination. */
  function Shift(g: Grid, s: set<Coord>, d: Coord): Grid
    requires s <= g.Keys
  {
    map p | p in (g.Keys - s) + Moved(s, d) :: if Sub(p, d) in s then g[Sub(p, d)] else g[p]
  }

  /** No moved cell lands on an object that stays behind: each cell's
      destination is floor or is itself moving. */
  predicate Closed(g: Grid, s: set<Coord>, d: Coord)
  {
    forall m :: m in s ==> m in g && (Add(m, d) in s || Add(m, d) !in g)
  }

  /** What a shift does: each moved object reappears one step along d, and
      every cell neither moved nor landed on is as it was. */
  lemma ShiftMoves(g: Grid, s: set<Coord>, d: Coord)
    requires s <= g.Keys
    ensures forall m :: m in s ==> Add(m, d) in Shift(g, s, d) && Shift(g, s, d)[Add(m, d)] == g[m]
    ensures forall p :: p !in s && p !in Moved(s, d) ==>
      (p in Shift(g, s, d) <==> p in g) && (p in g ==> Shift(g, s, d)[p] == g[p])
    ensures forall p :: p in s && p !in Moved(s, d) ==> p !in Shift(g, s, d)
  {
    forall m | m in s
      ensures Add(m, d) in Shift(g, s, d) && Shift(g, s, d)[Add(m, d)] == g[m]
    {
      assert Add(m, d) in Moved(s, d);
      assert Sub(Add(m, d), d) == m;
    }
    forall p | p !in s && p !in Moved(s, d) && p in g
      ensures Shift(g, s, d)[p] == g[p]
    {
      assert Add(Sub(p, d), d) == p;
    }
  }

  /** The number of cells is kept by a translation. */
  lemma {:induction false} MovedCard(s: set<Coord>, d: Coord)
    ensures |Moved(s, d)| == |s|
    decreases s
  {
    if s != {} {
      var x :| x in s;
      MovedCard(s - {x}, d);
      assert Moved(s, d) == Moved(s - {x}, d) + {Add(x, d)};
      assert Add(x, d) !in Moved(s - {x}, d) by {
        forall y | y in s - {x} ensures Add(y, d) != Add(x, d) {
        }
      }
    }
  }

  /** A closed shift relocates objects without creating or destroying any:
      the cells holding o afterwards are those that did and stayed, plus
      those that did and moved, and there are as many of them as before. */
  lemma ShiftConserves(g: Grid, s: set<Coord>, d: Coord, o: Obj)
    requires s <= g.Keys && Closed(g, s, d)
    ensures CellsOf(Shift(g, s, d), o) == (CellsOf(g, o) - s) + Moved(CellsOf(g, o) * s, d)
    ensures |CellsOf(Shift(g, s, d), o)| == |CellsOf(g, o)|
  {
    var a := CellsOf(g, o);
    ShiftCells(g, s, d, o);
    StayersAndMovers(g, s, d, o);
    MovedCard(a * s, d);
    DisjointCard(a - s, Moved(a * s, d));
    DisjointCard(a - s, a * s);
    assert a == (a - s) + (a * s);
  }

  lemma DisjointCard(x: set<Coord>, y: set<Coord>)
    requires x * y == {}
    ensures |x + y| == |x| + |y|
  {
  }

  lemma ShiftCells(g: Grid, s: set<Coord>, d: Coord, o: Obj)
    requires s <= g.Keys && Closed(g, s, d)
    ensures CellsOf(Shift(g, s, d), o) == (CellsOf(g, o) - s) + Moved(CellsOf(g, o) * s, d)
  {
    var h := Shift(g, s, d);
    var a := CellsOf(g, o);
    forall p | p in CellsOf(h, o)
      ensures p in (a - s) + Moved(a * s, d)
    {
      if Sub(p, d) in s {
        assert Add(Sub(p, d), d) == p;
      }
    }
    forall p | p in (a - s) + Moved(a * s, d)
      ensures p in CellsOf(h, o)
    {
      if p in Moved(a * s, d) {
        var m :| m in a * s && Add(m, d) == p;
        assert Sub(p, d) == m;
      } else {
        assert Sub(p, d) !in s by {
          forall m | m in s ensures Add(m, d) != p {
          }
        }
      }
    }
  }

  /** Under closure the cells that stay and the cells that land are disjoint. */
  lemma StayersAndMovers(g: Grid, s: set<Coord>, d: Coord, o: Obj)
    requires s <= g.Keys && Closed(g, s, d)
    ensures (CellsOf(g, o) - s) * Moved(CellsOf(g, o) * s, d) == {}
  {
    var a := CellsOf(g, o);
    forall p | p in Moved(a * s, d) ensures p !in a - s {
      var m :| m in a * s && Add(m, d) == p;
    }
  }

  /** Walls never move: a closed shift of cells that hold no wall leaves the
      walls where they were. */
  lemma ShiftKeepsWalls(g: Grid, s: set<Coord>, d: Coord)
    requires s <= g.Keys && Closed(g, s, d)
    requires forall m :: m in s ==> g[m] != Wall
    ensures CellsOf(Shift(g, s, d), Wall) == CellsOf(g, Wall)
  {
    ShiftConserves(g, s, d, Wall);
    assert CellsOf(g, Wall) * s == {};
  }

  /** Moving one more cell m, whose destination is taken over, extends a shift. */
  lemma ShiftExtend(g: Grid, r: set<Coord>, m: Coord, d: Coord)
    requires r <= g.Keys && m in g && m !in r && Sub(m, d) !in r
    ensures m in Shift(g, r, d) && Shift(g, r, d)[m] == g[m]
    ensures (Shift(g, r, d) - {m})[Add(m, d) := g[m]] == Shift(g, r + {m}, d)
  {
    var h := Shift(g, r, d);
    var s := r + {m};
    var h' := (h - {m})[Add(m, d) := g[m]];
    var k := Shift(g, s, d);
    assert m !in Moved(r, d) by {
      forall q | q in r ensures Add(q, d) != m {
        assert Sub(Add(q, d), d) == q;
      }
    }
    assert Moved(s, d) == Moved(r, d) + {Add(m, d)};
    forall p ensures p in h' <==> p in k {
    }
    forall p | p in h' ensures h'[p] == k[p] {
      if p != Add(m, d) {
        assert Add(Sub(p, d), d) == p;
      }
    }
  }

  // ---------------------------------------------------------------------
  // Part 1: single-width crates

  /** The scan loop: the run of consecutive crates from p along d, and the
      first cell past it. `pending` holds the crates not yet scanned; it makes
      the scan finite and, started from every crate of the map, never cuts a
      run short (ScanShape). */
  function Scan(g: Grid, p: Coord, d: Coord, pending: set<Coord>): (r: (seq<Coord>, Coord))
    ensures forall i :: 0 <= i < |r.0| ==> Holds(g, r.0[i], Crate)
    decreases pending
  {
    if p in pending && Holds(g, p, Crate) then
      var (run, stop) := Scan(g, Add(p, d), d, pending - {p});
      ([p] + run, stop)
    else ([], p)
  }

  /** The run is the straight line of crates starting at p, one step apart,
      and it stops at the first cell that holds no crate. */
  lemma {:induction false} ScanShape(g: Grid, p: Coord, d: Coord, pending: set<Coord>)
    requires IsUnit(d)
    requires forall q :: Holds(g, q, Crate) && Along(q, d) >= Along(p, d) ==> q in pending
    ensures var (run, stop) := Scan(g, p, d, pending);
      && (|run| == 0 ==> stop == p)
      && (|run| > 0 ==> run[0] == p && Add(run[|run| - 1], d) == stop)
      && (forall i :: 0 <= i < |run| - 1 ==> run[i + 1] == Add(run[i], d))
      && (forall i :: 0 <= i < |run| ==> Along(run[i], d) == Along(p, d) + i)
      && !Holds(g, stop, Crate)
    decreases pending
  {
    if p in pending && Holds(g, p, Crate) {
      ScanShape(g, Add(p, d), d, pending - {p});
    }
  }

  /** A one-step-apart line along a unit direction has no repeated cell. */
  lemma LineAlong(run: seq<Coord>, d: Coord)
    requires IsUnit(d)
    requires forall i :: 0 <= i < |run| - 1 ==> run[i + 1] == Add(run[i], d)
    ensures forall i :: 0 <= i < |run| ==> |run| > 0 && Along(run[i], d) == Along(run[0], d) + i
    ensures NoDup(run)
  {
    if |run| > 0 {
      var i := 1;
      while i < |run|
        invariant 1 <= i <= |run|
        invariant forall j :: 0 <= j < i ==> Along(run[j], d) == Along(run[0], d) + j
      {
        assert run[i] == Add(run[i - 1], d);
        i := i + 1;
      }
    }
  }

  /** One instruction in part 1. */
  function Step1(g: Grid, robot: Coord, ch: char): (Grid, Coord)
  {
    match DirectionOf(ch)
    case None => (g, robot)
    case Some(d) =>
      var (run, stop) := Scan(g, Add(robot, d), d, CellsOf(g, Crate));
      if Holds(g, stop, Wall) then (g, robot)
      else (Shift(g, Members(run), d), Add(robot, d))
  }

  /** The whole instruction tape, one character after the other. */
  function Simulate1(g: Grid, robot: Coord, tape: string): (Grid, Coord)
    decreases |tape|
  {
    if tape == [] then (g, robot)
    else
      var (g', robot') := Step1(g, robot, tape[0]);
      Simulate1(g', robot', tape[1..])
  }

  /** The objects part 1 moves among once the robot is lifted off the map. */
  predicate WallsAndCrates(g: Grid)
  {
    forall p :: p in g ==> g[p] == Wall || g[p] == Crate
  }

  /** The outcome of one part-1 instruction: an unknown character changes
      nothing; when the crates ahead end at a wall nothing moves; otherwise
      every crate of the run moves one step along the direction, the robot
      steps onto the cell it freed, and every cell outside the run and its
      landing cells is untouched. */
  lemma Step1Outcome(g: Grid, robot: Coord, ch: char)
    requires WallsAndCrates(g) && robot !in g
    ensures DirectionOf(ch).None? ==> Step1(g, robot, ch) == (g, robot)
    ensures DirectionOf(ch).Some? ==>
      var d := DirectionOf(ch).value;
      var (run, stop) := Scan(g, Add(robot, d), d, CellsOf(g, Crate));
      var (h, robot') := Step1(g, robot, ch);
      && (forall i :: 0 <= i < |run| ==> Holds(g, run[i], Crate))
      && (Holds(g, stop, Wall) ==> h == g && robot' == robot)
      && (!Holds(g, stop, Wall) ==>
            && stop !in g
            && robot' == Add(robot, d)
            && robot' !in h
            && (forall i :: 0 <= i < |run| ==> Holds(h, Add(run[i], d), Crate))
            && (forall p :: p !in Members(run) && p !in Moved(Members(run), d) ==>
                  (p in h <==> p in g) && (p in g ==> h[p] == g[p])))
  {
    if DirectionOf(ch).Some? {
      var d := DirectionOf(ch).value;
      var (run, stop) := Scan(g, Add(robot, d), d, CellsOf(g, Crate));
      if !Holds(g, stop, Wall) {
        Step1Pushes(g, robot, d, run, stop);
      }
    }
  }

  /** The unblocked case of Step1Outcome: the run moves and the robot's
      target cell is freed. */
  lemma Step1Pushes(g: Grid, robot: Coord, d: Coord, run: seq<Coord>, stop: Coord)
    requires WallsAndCrates(g) && robot !in g && IsUnit(d)
    requires (run, stop) == Scan(g, Add(robot, d), d, CellsOf(g, Crate))
    requires !Holds(g, stop, Wall)
    ensures stop !in g
    ensures Add(robot, d) !in Shift(g, Members(run), d)
    ensures forall i :: 0 <= i < |run| ==> Holds(Shift(g, Members(run), d), Add(run[i], d), Crate)
    ensures forall p :: p !in Members(run) && p !in Moved(Members(run), d) ==>
      (p in Shift(g, Members(run), d) <==> p in g) && (p in g ==> Shift(g, Members(run), d)[p] == g[p])
  {
    ScanShape(g, Add(robot, d), d, CellsOf(g, Crate));
    ShiftMoves(g, Members(run), d);
    if |run| > 0 {
      assert run[0] == Add(robot, d);
      assert Add(robot, d) !in Moved(Members(run), d) by {
        forall m | m in Members(run) ensures Add(m, d) != Add(robot, d) {
        }
      }
    } else {
      assert Add(robot, d) !in Moved(Members(run), d);
    }
  }

  /** A part-1 instruction neither creates nor destroys a crate, never moves
      a wall, and keeps the robot off every object. */
  lemma Step1Conserves(g: Grid, robot: Coord, ch: char)
    requires WallsAndCrates(g) && robot !in g
    ensures var (h, robot') := Step1(g, robot, ch);
      && WallsAndCrates(h) && robot' !in h
      && |CellsOf(h, Crate)| == |CellsOf(g, Crate)|
      && CellsOf(h, Wall) == CellsOf(g, Wall)
  {
    Step1Outcome(g, robot, ch);
    if DirectionOf(ch).Some? {
      var d := DirectionOf(ch).value;
      var (run, stop) := Scan(g, Add(robot, d), d, CellsOf(g, Crate));
      ScanShape(g, Add(robot, d), d, CellsOf(g, Crate));
      if !Holds(g, stop, Wall) {
        var s := Members(run);
        assert Closed(g, s, d) by {
          forall m | m in s ensures m in g && (Add(m, d) in s || Add(m, d) !in g) {
            var i :| 0 <= i < |run| && run[i] == m;
            if i < |run| - 1 {
              assert run[i + 1] == Add(m, d);
            }
          }
        }
        ShiftConserves(g, s, d, Crate);
        ShiftKeepsWalls(g, s, d);
        var h := Shift(g, s, d);
        assert WallsAndCrates(h) by {
          ShiftMoves(g, s, d);
          forall p | p in h ensures h[p] == Wall || h[p] == Crate {
            if Sub(p, d) in s {
            }
          }
        }
      }
    }
  }

  /** Over a whole tape the number of crates is invariant and the walls stay put. */
  lemma {:induction false} Simulate1Conserves(g: Grid, robot: Coord, tape: string)
    requires WallsAndCrates(g) && robot !in g
    ensures var (h, robot') := Simulate1(g, robot, tape);
      && WallsAndCrates(h) && robot' !in h
      && |CellsOf(h, Crate)| == |CellsOf(g, Crate)|
      && CellsOf(h, Wall) == CellsOf(g, Wall)
    decreases |tape|
  {
    if tape != [] {
      Step1Conserves(g, robot, tape[0]);
      var (g', robot') := Step1(g, robot, tape[0]);
      Simulate1Conserves(g', robot', tape[1..]);
    }
  }

  /** The part-1 scan: walks from `start` along d over crates, collecting
      them, until a wall (`wall` is set) or a cell without a crate. */
  method ScanCrates(g: Grid, start: Coord, d: Coord) returns (moveCrates: seq<Coord>, wall: bool)
    requires IsUnit(d)
    ensures moveCrates == Scan(g, start, d, CellsOf(g, Crate)).0
    ensures wall == Holds(g, Scan(g, start, d, CellsOf(g, Crate)).1, Wall)
  {
    moveCrates := [];
    wall := false;
    var nextPos := start;
    ghost var pending := CellsOf(g, Crate);
    assert moveCrates + Scan(g, nextPos, d, pending).0 == Scan(g, nextPos, d, pending).0;
    while true
      invariant Scan(g, start, d, CellsOf(g, Crate)).0 == moveCrates + Scan(g, nextPos, d, pending).0
      invariant Scan(g, start, d, CellsOf(g, Crate)).1 == Scan(g, nextPos, d, pending).1
      invariant forall q :: Holds(g, q, Crate) && Along(q, d) >= Along(nextPos, d) ==> q in pending
      decreases |pending|
    {
      if nextPos in g && g[nextPos] == Wall {
        wall := true;
        break;
      } else if nextPos in g && g[nextPos] == Crate {
        assert nextPos in pending;
        ghost var rest := Scan(g, Add(nextPos, d), d, pending - {nextPos}).0;
        assert moveCrates + Scan(g, nextPos, d, pending).0 == (moveCrates + [nextPos]) + rest;
        moveCrates := moveCrates + [nextPos];
        pending := pending - {nextPos};
        nextPos := Add(nextPos, d);
      } else {
        break;
      }
    }
  }

  /** The part-1 move: the crates are moved farthest first, each removed from
      its cell and inserted one step along d. */
  method PushRun(g: Grid, run: seq<Coord>, d: Coord) returns (h: Grid)
    requires IsUnit(d)
    requires forall i :: 0 <= i < |run| ==> run[i] in g
    requires forall i :: 0 <= i < |run| - 1 ==> run[i + 1] == Add(run[i], d)
    ensures h == Shift(g, Members(run), d)
  {
    LineAlong(run, d);
    h := g;
    var i := |run|;
    assert Members(run[i..]) == {};
    while i > 0
      invariant 0 <= i <= |run|
      invariant h == Shift(g, Members(run[i..]), d)
    {
      i := i - 1;
      var r := Members(run[i + 1..]);
      assert run[i] !in r;
      assert Sub(run[i], d) !in r by {
        forall j | i + 1 <= j < |run| ensures run[j] != Sub(run[i], d) {
          assert Along(Sub(run[i], d), d) == Along(run[i], d) - 1;
        }
      }
      ShiftExtend(g, r, run[i], d);
      assert Members(run[i..]) == r + {run[i]};
      var crate := h[run[i]];
      h := (h - {run[i]})[Add(run[i], d) := crate];
    }
  }

  /** The checksum: the score of every cell holding o, visited in the map's
      arbitrary order. */
  method GpsChecksum(g: Grid, o: Obj) returns (sum: int)
    ensures sum == GpsSum(g, o)
  {
    sum := 0;
    var todo := g.Keys;
    assert CellsOf(g, o) * todo == CellsOf(g, o);
    while todo != {}
      invariant todo <= g.Keys
      invariant sum + SumOver(CellsOf(g, o) * todo, Gps) == GpsSum(g, o)
      decreases |todo|
    {
      var c :| c in todo;
      if g[c] == o {
        SumOverRemove(CellsOf(g, o) * todo, Gps, c);
        assert CellsOf(g, o) * todo - {c} == CellsOf(g, o) * (todo - {c});
        sum := sum + Gps(c);
      } else {
        assert CellsOf(g, o) * todo == CellsOf(g, o) * (todo - {c});
      }
      todo := todo - {c};
    }
  }

  /** The unique robot of a parsed map. */
  ghost function RobotOf(g: Grid): (r: Coord)
    requires |CellsOf(g, Robot)| == 1
    ensures Holds(g, r, Robot)
  {
    var r :| r in CellsOf(g, Robot); r
  }

  /** A map with exactly one robot has no other. */
  lemma OnlyRobot(g: Grid, r: Coord)
    requires |CellsOf(g, Robot)| == 1 && Holds(g, r, Robot)
    ensures RobotOf(g) == r
  {
    var q := RobotOf(g);
    if q != r {
      assert {q, r} <= CellsOf(g, Robot);
      SubsetCard({q, r}, CellsOf(g, Robot));
      assert false;
    }
  }

  /** Part 1: lift the robot off the map, run the tape, then score the crates. */
  ghost function Final1(parsed: Grid, tape: string): Grid
    requires |CellsOf(parsed, Robot)| == 1
  {
    var r := RobotOf(parsed);
    Simulate1(parsed - {r}, r, tape).0
  }

  method Part1(parsed: Grid, instructions: string) returns (checksum: int)
    requires |CellsOf(parsed, Robot)| == 1
    ensures checksum == GpsSum(Final1(parsed, instructions), Crate)
  {
    var robot :| robot in parsed && parsed[robot] == Robot;
    OnlyRobot(parsed, robot);
    var warehouse := parsed - {robot};
    ghost var start := robot;
    for i := 0 to |instructions|
      invariant Simulate1(warehouse, robot, instructions[i..]) == Simulate1(parsed - {start}, start, instructions)
    {
      ghost var (w', r') := Step1(warehouse, robot, instructions[i]);
      assert Simulate1(warehouse, robot, instructions[i..]) == Simulate1(w', r', instructions[i + 1..]);
      var dir := DirectionOf(instructions[i]);
      if dir.Some? {
        var d := dir.value;
        var nextRobot := Add(robot, d);
        var moveCrates, wall := ScanCrates(warehouse, nextRobot, d);
        if !wall {
          ScanShape(warehouse, nextRobot, d, CellsOf(warehouse, Crate));
          warehouse := PushRun(warehouse, moveCrates, d);
          robot := nextRobot;
        }
      }
      assert (warehouse, robot) == (w', r');
    }
    checksum := GpsChecksum(warehouse, Crate);
  }

  // ---------------------------------------------------------------------
  // Part 2: wide crates

  /** A half of a wide crate. */
  predicate IsHalf(g: Grid, p: Coord)
  {
    p in g && (g[p] == Crate || g[p] == LCrate)
  }

  function Halves(g: Grid): set<Coord>
  {
    set p | p in g && (g[p] == Crate || g[p] == LCrate)
  }

  /** The other half: a right half's mate is to its left, a left half's to its right. */
  function Mate(g: Grid, p: Coord): Coord
    requires IsHalf(g, p)
  {
    if g[p] == Crate then Add(p, Left) else Add(p, Right)
  }

  /** Every left half has its right half beside it and vice versa. */
  predicate Paired(g: Grid)
  {
    forall p :: p in g ==>
      (g[p] == LCrate ==> Holds(g, Add(p, Right), Crate)) &&
      (g[p] == Crate ==> Holds(g, Add(p, Left), LCrate))
  }

  /** The shape of a wide warehouse once the robot is lifted off: walls and
      paired halves only. */
  predicate WideWellFormed(g: Grid)
  {
    Paired(g) && forall p :: p in g ==> g[p] != Robot
  }

  lemma MateOfMate(g: Grid, p: Coord)
    requires Paired(g) && IsHalf(g, p)
    ensures IsHalf(g, Mate(g, p)) && Mate(g, Mate(g, p)) == p && Mate(g, p) != p
    ensures g[Mate(g, p)] != g[p]
  {
  }

  /** A set of halves that can move one step along d together: it holds
      whole crates only, and every destination is floor or part of the set. */
  predicate PushSet(g: Grid, s: set<Coord>, d: Coord)
  {
    Closed(g, s, d) && forall m :: m in s ==> IsHalf(g, m) && Mate(g, m) in s
  }

  lemma HalvesShrink(g: Grid, found: seq<Coord>, c: Coord, m: Coord)
    requires IsHalf(g, c) && c !in found
    ensures |Halves(g) - Members([m, c] + found)| < |Halves(g) - Members(found)|
  {
    var before := Halves(g) - Members(found);
    var after := Halves(g) - Members([m, c] + found);
    assert after <= before - {c};
    SubsetCard(after, before - {c});
    assert before == (before - {c}) + {c};
  }

  /** The resolve loop: pops a candidate cell off `stack`; a wall blocks the
      whole push (None), a half not yet collected is collected together with
      its mate and the two cells ahead of them are pushed, anything else is
      passed over. The result is every half that moves. */
  function Resolve(g: Grid, d: Coord, stack: seq<Coord>, found: seq<Coord>): Option<seq<Coord>>
    decreases |Halves(g) - Members(found)|, |stack|
  {
    if stack == [] then Some(found)
    else
      var c := stack[|stack| - 1];
      var rest := stack[..|stack| - 1];
      if c in found then Resolve(g, d, rest, found)
      else if Holds(g, c, Wall) then None
      else if IsHalf(g, c) then
        HalvesShrink(g, found, c, Mate(g, c));
        Resolve(g, d, rest + [Add(Add(c, d), Sub(Mate(g, c), c)), Add(c, d)], [Mate(g, c), c] + found)
      else Resolve(g, d, rest, found)
  }

  /** What the resolve loop keeps: the halves collected so far are distinct,
      come in whole crates, and each one's destination is collected, is floor,
      or is still to be examined. */
  predicate ResolveInv(g: Grid, d: Coord, stack: seq<Coord>, found: seq<Coord>)
  {
    NoDup(found) &&
    forall m :: m in found ==>
      IsHalf(g, m) && Mate(g, m) in found && (Add(m, d) in found || Add(m, d) !in g || Add(m, d) in stack)
  }

  /** What a successful resolve returns, for the stack and the halves it
      started from. */
  predicate SoundResult(g: Grid, d: Coord, stack: seq<Coord>, found: seq<Coord>, f: seq<Coord>)
  {
    NoDup(f) && Members(found) <= Members(f) && PushSet(g, Members(f), d)
    && (forall c :: c in stack ==> c !in g || c in f)
  }

  /** Soundness: a successful resolve returns a set that can move, containing
      every examined cell that is not floor. */
  lemma {:induction false} ResolveSound(g: Grid, d: Coord, stack: seq<Coord>, found: seq<Coord>)
    requires WideWellFormed(g) && ResolveInv(g, d, stack, found)
    ensures Resolve(g, d, stack, found).Some? ==> SoundResult(g, d, stack, found, Resolve(g, d, stack, found).value)
    decreases |Halves(g) - Members(found)|, |stack|
  {
    if stack != [] {
      var c := stack[|stack| - 1];
      var rest := stack[..|stack| - 1];
      assert stack == rest + [c];
      if c in found || !(c in g) {
        SoundSkip(g, d, rest, c, found);
        ResolveSound(g, d, rest, found);
        assert Resolve(g, d, stack, found) == Resolve(g, d, rest, found);
        if Resolve(g, d, rest, found).Some? {
          SoundNarrow(g, d, rest, c, found, Resolve(g, d, rest, found).value);
        }
      } else if Holds(g, c, Wall) {
        assert Resolve(g, d, stack, found).None?;
      } else {
        var mate := Mate(g, c);
        HalvesShrink(g, found, c, mate);
        SoundCollect(g, d, rest, c, found);
        var stack' := rest + [Add(Add(c, d), Sub(mate, c)), Add(c, d)];
        var found' := [mate, c] + found;
        ResolveSound(g, d, stack', found');
        assert Resolve(g, d, stack, found) == Resolve(g, d, stack', found');
        if Resolve(g, d, stack', found').Some? {
          SoundWiden(g, d, rest, c, found, Resolve(g, d, stack', found').value);
        }
      }
    } else {
      assert Resolve(g, d, stack, found) == Some(found);
    }
  }

  /** A result sound for the stack without a collected or floor cell c is
      sound for the stack c was popped from. */
  lemma SoundNarrow(g: Grid, d: Coord, rest: seq<Coord>, c: Coord, found: seq<Coord>, f: seq<Coord>)
    requires c in found || c !in g
    requires SoundResult(g, d, rest, found, f)
    ensures SoundResult(g, d, rest + [c], found, f)
  {
    forall x | x in rest + [c] ensures x !in g || x in f {
      if x != c {
        assert x in rest;
      } else if c in found {
        assert c in Members(found);
      }
    }
  }

  /** A result sound for the stack after collecting c is sound for the stack
      c was popped from. */
  lemma SoundWiden(g: Grid, d: Coord, rest: seq<Coord>, c: Coord, found: seq<Coord>, f: seq<Coord>)
    requires IsHalf(g, c)
    requires SoundResult(g, d, rest + [Add(Add(c, d), Sub(Mate(g, c), c)), Add(c, d)], [Mate(g, c), c] + found, f)
    ensures SoundResult(g, d, rest + [c], found, f)
  {
    var stack' := rest + [Add(Add(c, d), Sub(Mate(g, c), c)), Add(c, d)];
    var found' := [Mate(g, c), c] + found;
    assert Members(found) <= Members(found');
    assert c in Members(f) by {
      assert c in Members(found');
    }
    forall x | x in rest + [c] ensures x !in g || x in f {
      if x != c {
        assert x in stack';
      }
    }
  }

  /** Passing over a collected or floor cell keeps the resolve invariant. */
  lemma SoundSkip(g: Grid, d: Coord, rest: seq<Coord>, c: Coord, found: seq<Coord>)
    requires ResolveInv(g, d, rest + [c], found) && (c in found || c !in g)
    ensures ResolveInv(g, d, rest, found)
  {
    forall m | m in found && Add(m, d) in rest + [c] ensures Add(m, d) in found || Add(m, d) !in g || Add(m, d) in rest {
      if Add(m, d) != c {
        assert Add(m, d) in rest;
      }
    }
  }

  /** Collecting a half and its mate keeps the resolve invariant. */
  lemma SoundCollect(g: Grid, d: Coord, rest: seq<Coord>, c: Coord, found: seq<Coord>)
    requires WideWellFormed(g) && ResolveInv(g, d, rest + [c], found)
    requires c !in found && IsHalf(g, c)
    ensures ResolveInv(g, d, rest + [Add(Add(c, d), Sub(Mate(g, c), c)), Add(c, d)], [Mate(g, c), c] + found)
  {
    var mate := Mate(g, c);
    MateOfMate(g, c);
    var stack' := rest + [Add(Add(c, d), Sub(mate, c)), Add(c, d)];
    var found' := [mate, c] + found;
    assert Add(Add(c, d), Sub(mate, c)) == Add(mate, d);
    assert NoDup(found') by {
      forall i, j | 0 <= i < j < |found'| ensures found'[i] != found'[j] {
        if i >= 2 {
          assert found'[i] == found[i - 2] && found'[j] == found[j - 2];
        }
      }
    }
    forall m | m in found'
      ensures IsHalf(g, m) && Mate(g, m) in found' && (Add(m, d) in found' || Add(m, d) !in g || Add(m, d) in stack')
    {
      if m in found && Add(m, d) in rest + [c] && Add(m, d) != c {
        assert Add(m, d) in rest;
      }
    }
  }

  /** Minimality: when some set containing the examined cells can move, the
      resolve succeeds and takes no more than that set. */
  lemma {:induction false} ResolveLeast(g: Grid, d: Coord, stack: seq<Coord>, found: seq<Coord>, s: set<Coord>)
    requires PushSet(g, s, d) && Members(found) <= s
    requires forall c :: c in stack ==> c !in g || c in s
    ensures Resolve(g, d, stack, found).Some?
    ensures Members(Resolve(g, d, stack, found).value) <= s
    decreases |Halves(g) - Members(found)|, |stack|
  {
    if stack != [] {
      var c := stack[|stack| - 1];
      var rest := stack[..|stack| - 1];
      assert stack == rest + [c];
      if c in found {
        ResolveLeast(g, d, rest, found, s);
      } else if Holds(g, c, Wall) {
        assert false;
      } else if IsHalf(g, c) {
        var mate := Mate(g, c);
        HalvesShrink(g, found, c, mate);
        assert Add(Add(c, d), Sub(mate, c)) == Add(mate, d);
        ResolveLeast(g, d, rest + [Add(Add(c, d), Sub(mate, c)), Add(c, d)], [mate, c] + found, s);
      } else {
        ResolveLeast(g, d, rest, found, s);
      }
    }
  }

  /** A wide push is blocked exactly when no set of crates containing the
      cell ahead of the robot can move. */
  lemma ResolveBlockedIff(g: Grid, d: Coord, t: Coord)
    requires WideWellFormed(g)
    ensures Resolve(g, d, [t], []).None? <==> !exists s: set<Coord> :: PushSet(g, s, d) && (t !in g || t in s)
  {
    if Resolve(g, d, [t], []).Some? {
      ResolveSound(g, d, [t], []);
      var f := Resolve(g, d, [t], []).value;
      assert PushSet(g, Members(f), d) && (t !in g || t in Members(f));
    }
    if exists s: set<Coord> :: PushSet(g, s, d) && (t !in g || t in s) {
      var s: set<Coord> :| PushSet(g, s, d) && (t !in g || t in s);
      ResolveLeast(g, d, [t], [], s);
    }
  }

  /** Moving whole crates keeps the halves paired, and no robot appears. */
  lemma ShiftPaired(g: Grid, s: set<Coord>, d: Coord)
    requires WideWellFormed(g) && PushSet(g, s, d)
    ensures WideWellFormed(Shift(g, s, d))
  {
    var h := Shift(g, s, d);
    ShiftMoves(g, s, d);
    forall p | p in h
      ensures (h[p] == LCrate ==> Holds(h, Add(p, Right), Crate))
      ensures (h[p] == Crate ==> Holds(h, Add(p, Left), LCrate))
      ensures h[p] != Robot
    {
      if Sub(p, d) in s {
        MovedHalfPaired(g, s, d, p);
      } else {
        StayedPaired(g, s, d, p);
      }
    }
  }

  /** A half that moved lands beside its mate, which moved with it. */
  lemma MovedHalfPaired(g: Grid, s: set<Coord>, d: Coord, p: Coord)
    requires WideWellFormed(g) && PushSet(g, s, d) && Sub(p, d) in s
    ensures p in Shift(g, s, d)
    ensures var h := Shift(g, s, d);
      && (h[p] == LCrate ==> Holds(h, Add(p, Right), Crate))
      && (h[p] == Crate ==> Holds(h, Add(p, Left), LCrate))
      && h[p] != Robot
  {
    ShiftMoves(g, s, d);
    var m := Sub(p, d);
    assert Add(m, d) == p;
    var h := Shift(g, s, d);
    assert h[p] == g[m];
    MateOfMate(g, m);
    var side := if g[m] == LCrate then Right else Left;
    assert Mate(g, m) == Add(m, side);
    assert Add(Mate(g, m), d) == Add(p, side);
  }

  /** A cell that did not move keeps its object, and a half that stayed keeps
      its mate beside it, since a mate moves only with its half. */
  lemma StayedPaired(g: Grid, s: set<Coord>, d: Coord, p: Coord)
    requires WideWellFormed(g) && PushSet(g, s, d) && Sub(p, d) !in s && p in Shift(g, s, d)
    ensures var h := Shift(g, s, d);
      && (h[p] == LCrate ==> Holds(h, Add(p, Right), Crate))
      && (h[p] == Crate ==> Holds(h, Add(p, Left), LCrate))
      && h[p] != Robot
  {
    var h := Shift(g, s, d);
    ShiftMoves(g, s, d);
    assert p !in Moved(s, d) by {
      forall m | m in s ensures Add(m, d) != p {
        assert Sub(Add(m, d), d) == m;
      }
    }
    assert p in g && p !in s && g[p] == h[p];
    if h[p] == LCrate || h[p] == Crate {
      var side := if h[p] == LCrate then Right else Left;
      var q := Add(p, side);
      assert IsHalf(g, q) && Mate(g, q) == p by {
        assert Add(q, if side == Right then Left else Right) == p;
      }
      assert q !in s;
      assert q !in Moved(s, d) by {
        forall m | m in s ensures Add(m, d) != q {
        }
      }
    }
  }

  /** One instruction in part 2: resolve every half the push involves, then
      move them all or, when a wall is in the way, nothing. */
  function Step2(g: Grid, robot: Coord, ch: char): (r: (Grid, Coord))
    requires WideWellFormed(g)
    ensures WideWellFormed(r.0)
  {
    match DirectionOf(ch)
    case None => (g, robot)
    case Some(d) =>
      match Resolve(g, d, [Add(robot, d)], [])
      case None => (g, robot)
      case Some(f) =>
        ResolveSound(g, d, [Add(robot, d)], []);
        ShiftPaired(g, Members(f), d);
        (Shift(g, Members(f), d), Add(robot, d))
  }

  function Simulate2(g: Grid, robot: Coord, tape: string): (r: (Grid, Coord))
    requires WideWellFormed(g)
    ensures WideWellFormed(r.0)
    decreases |tape|
  {
    if tape == [] then (g, robot)
    else
      var (g', robot') := Step2(g, robot, tape[0]);
      Simulate2(g', robot', tape[1..])
  }

  /** A push in part 2 is all or nothing: it is blocked exactly when no set
      of whole crates containing the cell ahead of the robot can move, and a
      blocked push changes nothing. */
  lemma Step2Blocked(g: Grid, robot: Coord, ch: char, d: Coord)
    requires WideWellFormed(g) && DirectionOf(ch) == Some(d)
    ensures Resolve(g, d, [Add(robot, d)], []).None? <==>
      !exists s: set<Coord> :: PushSet(g, s, d) && (Add(robot, d) !in g || Add(robot, d) in s)
    ensures Resolve(g, d, [Add(robot, d)], []).None? ==> Step2(g, robot, ch) == (g, robot)
  {
    ResolveBlockedIff(g, d, Add(robot, d));
  }

  /** A successful push in part 2 shifts a set of whole crates that can
      move (ShiftMoves says what that does to each cell), and the robot steps
      onto a cell the push freed. */
  lemma Step2Pushed(g: Grid, robot: Coord, ch: char, d: Coord)
    requires WideWellFormed(g) && robot !in g
    requires DirectionOf(ch) == Some(d) && Resolve(g, d, [Add(robot, d)], []).Some?
    ensures var f := Members(Resolve(g, d, [Add(robot, d)], []).value);
      && PushSet(g, f, d)
      && Step2(g, robot, ch) == (Shift(g, f, d), Add(robot, d))
      && Add(robot, d) !in Shift(g, f, d)
  {
    var t := Add(robot, d);
    ResolveSound(g, d, [t], []);
    var f := Members(Resolve(g, d, [t], []).value);
    Step2Unfold(g, robot, ch, d);
    assert t !in g || t in f;
    FreedCell(g, f, d, robot);
  }

  /** The cell the robot steps onto is vacated by a shift that moves what was
      on it, the robot itself not being on the map. */
  lemma FreedCell(g: Grid, f: set<Coord>, d: Coord, robot: Coord)
    requires f <= g.Keys && robot !in g
    requires Add(robot, d) !in g || Add(robot, d) in f
    ensures Add(robot, d) !in Shift(g, f, d)
  {
    var t := Add(robot, d);
    assert t !in Moved(f, d) by {
      forall m | m in f ensures Add(m, d) != t {
      }
    }
  }

  lemma Step2Unfold(g: Grid, robot: Coord, ch: char, d: Coord)
    requires WideWellFormed(g)
    requires DirectionOf(ch) == Some(d) && Resolve(g, d, [Add(robot, d)], []).Some?
    ensures var f := Members(Resolve(g, d, [Add(robot, d)], []).value);
      f <= g.Keys && Step2(g, robot, ch) == (Shift(g, f, d), Add(robot, d))
  {
    ResolveSound(g, d, [Add(robot, d)], []);
  }

  /** An unknown instruction changes nothing in part 2. */
  lemma Step2Skips(g: Grid, robot: Coord, ch: char)
    requires WideWellFormed(g)
    ensures DirectionOf(ch).None? <==> ch !in {'<', '>', '^', 'v'}
    ensures DirectionOf(ch).None? ==> Step2(g, robot, ch) == (g, robot)
  {
  }

  /** A part-2 instruction keeps the number of left and of right halves,
      never moves a wall, and keeps the robot off every object. */
  lemma Step2Conserves(g: Grid, robot: Coord, ch: char)
    requires WideWellFormed(g) && robot !in g
    ensures Step2(g, robot, ch).1 !in Step2(g, robot, ch).0
    ensures |CellsOf(Step2(g, robot, ch).0, LCrate)| == |CellsOf(g, LCrate)|
    ensures |CellsOf(Step2(g, robot, ch).0, Crate)| == |CellsOf(g, Crate)|
    ensures CellsOf(Step2(g, robot, ch).0, Wall) == CellsOf(g, Wall)
  {
    if DirectionOf(ch).Some? {
      var d := DirectionOf(ch).value;
      var t := Add(robot, d);
      if Resolve(g, d, [t], []).Some? {
        Step2Pushed(g, robot, ch, d);
        var f := Members(Resolve(g, d, [t], []).value);
        ShiftConserves(g, f, d, LCrate);
        ShiftConserves(g, f, d, Crate);
        ShiftKeepsWalls(g, f, d);
      } else {
        assert Step2(g, robot, ch) == (g, robot);
      }
    }
  }

  lemma {:induction false} Simulate2Conserves(g: Grid, robot: Coord, tape: string)
    requires WideWellFormed(g) && robot !in g
    ensures var (h, robot') := Simulate2(g, robot, tape);
      && robot' !in h
      && |CellsOf(h, LCrate)| == |CellsOf(g, LCrate)|
      && |CellsOf(h, Crate)| == |CellsOf(g, Crate)|
      && CellsOf(h, Wall) == CellsOf(g, Wall)
    decreases |tape|
  {
    if tape != [] {
      Step2Conserves(g, robot, tape[0]);
      var (g', robot') := Step2(g, robot, tape[0]);
      Simulate2Conserves(g', robot', tape[1..]);
    }
  }

  /** The resolve loop of part 2, with its stack of candidate cells and its
      double-ended queue of collected halves. */
  method ResolvePush(g: Grid, start: Coord, d: Coord) returns (moveCrates: seq<Coord>, wall: bool)
    ensures wall <==> Resolve(g, d, [start], []).None?
    ensures !wall ==> moveCrates == Resolve(g, d, [start], []).value
  {
    var nextPos := [start];
    moveCrates := [];
    wall := false;
    while |nextPos| > 0
      invariant Resolve(g, d, nextPos, moveCrates) == Resolve(g, d, [start], [])
      invariant !wall
      decreases |Halves(g) - Members(moveCrates)|, |nextPos|
    {
      var candidate := nextPos[|nextPos| - 1];
      nextPos := nextPos[..|nextPos| - 1];
      if candidate in moveCrates {
        continue;
      }
      if candidate in g && g[candidate] == Wall {
        wall := true;
        break;
      } else if candidate in g && g[candidate] == Crate {
        HalvesShrink(g, moveCrates, candidate, Add(candidate, Left));
        moveCrates := [Add(candidate, Left), candidate] + moveCrates;
        nextPos := nextPos + [Add(Add(candidate, d), Left), Add(candidate, d)];
      } else if candidate in g && g[candidate] == LCrate {
        HalvesShrink(g, moveCrates, candidate, Add(candidate, Right));
        moveCrates := [Add(candidate, Right), candidate] + moveCrates;
        nextPos := nextPos + [Add(Add(candidate, d), Right), Add(candidate, d)];
      }
    }
  }

  /** The index of the first queued half whose destination is free, or the
      queue's length when there is none. */
  ghost function FirstFree(q: seq<Coord>, h: Grid, d: Coord): (k: nat)
    ensures k <= |q|
    ensures forall j :: 0 <= j < k ==> Add(q[j], d) in h
    ensures k < |q| ==> Add(q[k], d) !in h
  {
    if q == [] then 0
    else if Add(q[0], d) !in h then 0
    else 1 + FirstFree(q[1..], h, d)
  }

  /** Sending a blocked head to the back of the queue brings a free half
      nearer to the front. */
  lemma FirstFreeRotate(q: seq<Coord>, h: Grid, d: Coord)
    requires |q| > 0 && Add(q[0], d) in h
    requires exists j :: 0 <= j < |q| && Add(q[j], d) !in h
    ensures FirstFree(q[1..] + [q[0]], h, d) < FirstFree(q, h, d)
  {
    var k := FirstFree(q, h, d);
    var q' := q[1..] + [q[0]];
    var k' := FirstFree(q', h, d);
    assert k < |q|;
    assert k >= 1;
    assert Add(q'[k - 1], d) !in h;
  }

  /** The half farthest along d. */
  function FarthestAlong(q: seq<Coord>, d: Coord): (k: nat)
    requires |q| > 0
    ensures k < |q| && forall j :: 0 <= j < |q| ==> Along(q[j], d) <= Along(q[k], d)
  {
    if |q| == 1 then 0
    else
      var k := FarthestAlong(q[1..], d);
      if Along(q[0], d) >= Along(q[k + 1], d) then 0 else k + 1
  }

  /** While halves remain, one of them can move: the one farthest along d,
      because its destination is floor or a half already moved away. */
  lemma FreeExists(g: Grid, f: set<Coord>, done: set<Coord>, queue: seq<Coord>, d: Coord)
    requires IsUnit(d) && f <= g.Keys && Closed(g, f, d)
    requires Members(queue) + done == f && Members(queue) * done == {} && |queue| > 0
    ensures exists j :: 0 <= j < |queue| && Add(queue[j], d) !in Shift(g, done, d)
  {
    var k := FarthestAlong(queue, d);
    var m := queue[k];
    var t := Add(m, d);
    assert m in Members(queue);
    assert t !in Moved(done, d) by {
      assert m !in Members(queue) * done;
      forall n | n in done ensures Add(n, d) != t {
      }
    }
    assert t !in Members(queue) by {
      forall j | 0 <= j < |queue| ensures queue[j] != t {
        assert Along(queue[j], d) <= Along(m, d) < Along(t, d);
      }
    }
    assert t !in Shift(g, done, d);
  }

  /** What the apply loop keeps: the queue holds the halves still to move,
      once each, and no moved half's destination is still queued. */
  predicate ApplyInv(f: set<Coord>, done: set<Coord>, queue: seq<Coord>, d: Coord)
  {
    NoDup(queue) && Members(queue) * done == {} && Members(queue) + done == f &&
    forall m, j :: m in done && 0 <= j < |queue| ==> queue[j] != Add(m, d)
  }

  lemma ApplyRotate(f: set<Coord>, done: set<Coord>, queue: seq<Coord>, d: Coord)
    requires ApplyInv(f, done, queue, d) && |queue| > 0
    ensures ApplyInv(f, done, queue[1..] + [queue[0]], d)
  {
    var q := queue[1..] + [queue[0]];
    assert Members(q) == Members(queue);
    forall i, j | 0 <= i < j < |q| ensures q[i] != q[j] {
      if j == |q| - 1 {
        assert q[i] == queue[i + 1] && q[j] == queue[0];
      } else {
        assert q[i] == queue[i + 1] && q[j] == queue[j + 1];
      }
    }
    forall m, j | m in done && 0 <= j < |q| ensures q[j] != Add(m, d) {
      assert q[j] in Members(queue);
    }
  }

  lemma ApplyMove(g: Grid, f: set<Coord>, done: set<Coord>, queue: seq<Coord>, d: Coord)
    requires f <= g.Keys && ApplyInv(f, done, queue, d) && |queue| > 0
    requires Add(queue[0], d) !in Shift(g, done, d)
    ensures ApplyInv(f, done + {queue[0]}, queue[1..], d)
    ensures queue[0] in Shift(g, done, d) && Shift(g, done, d)[queue[0]] == g[queue[0]]
    ensures (Shift(g, done, d) - {queue[0]})[Add(queue[0], d) := g[queue[0]]] == Shift(g, done + {queue[0]}, d)
  {
    var m := queue[0];
    assert m in Members(queue);
    assert Sub(m, d) !in done by {
      assert Add(Sub(m, d), d) == m;
    }
    ShiftExtend(g, done, m, d);
    ShiftMoves(g, done, d);
    var q := queue[1..];
    assert Members(queue) == Members(q) + {m};
    forall j | 0 <= j < |q| ensures q[j] != Add(m, d) {
      assert q[j] in Members(queue) && q[j] !in done;
      assert q[j] !in Moved(done, d) by {
        forall n | n in done ensures Add(n, d) != q[j] {
          assert q[j] == queue[j + 1];
        }
      }
    }
    assert m !in Members(q) by {
      forall j | 0 <= j < |q| ensures q[j] != m {
        assert q[j] == queue[j + 1];
      }
    }
  }

  /** The apply loop of part 2: pops the front half; when its destination is
      taken it goes to the back of the queue, otherwise it is removed from its
      cell and inserted one step along d. */
  method ApplyPush(g: Grid, moveCrates: seq<Coord>, d: Coord) returns (h: Grid)
    requires IsUnit(d) && NoDup(moveCrates)
    requires Members(moveCrates) <= g.Keys && Closed(g, Members(moveCrates), d)
    ensures h == Shift(g, Members(moveCrates), d)
  {
    var queue := moveCrates;
    h := g;
    ghost var done: set<Coord> := {};
    ghost var f := Members(moveCrates);
    assert Shift(g, {}, d) == g;
    while |queue| > 0
      invariant ApplyInv(f, done, queue, d)
      invariant h == Shift(g, done, d)
      decreases |queue|, FirstFree(queue, h, d)
    {
      FreeExists(g, f, done, queue, d);
      var m := queue[0];
      if Add(m, d) in h {
        FirstFreeRotate(queue, h, d);
        ApplyRotate(f, done, queue, d);
        queue := queue[1..] + [m];
      } else {
        ApplyMove(g, f, done, queue, d);
        var cr := h[m];
        h := (h - {m})[Add(m, d) := cr];
        done := done + {m};
        queue := queue[1..];
      }
    }
    assert done == f;
  }
}
