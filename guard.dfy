/** The patrolling guard (src/bin/day06.rs).

    A guard walks over a rectangular lab whose obstructions are stored in a
    sparse map.  Facing an obstruction it turns right; otherwise it steps
    forward, until it leaves the rectangle.  Part 1 collects the cells it
    visits; part 2 puts one new obstruction on each visited cell other than
    the start and counts those that trap the guard in a loop.

    The walk is a pure step function (`Step`, iterated by `Walk`); the
    program's loops are methods proved to follow it. */
module Guard {
  import opened Util
  import opened Coords

  /** MapItem: what a parsed cell can hold; empty floor is absent. */
  datatype MapItem = Guard | Obstruction

  type Grid = map<Coord, MapItem>

  /** MapItem::parse: `#` is an obstruction, `^` the guard, anything else is
      floor. */
  function ParseItem(c: char): (item: Option<MapItem>)
    ensures item == Some(Obstruction) <==> c == '#'
    ensures item == Some(Guard) <==> c == '^'
  {
    match c
    case '#' => Some(Obstruction)
    case '^' => Some(Guard)
    case _ => None
  }

  /** An index into DIRECTIONS. */
  type Dir = d: nat | d < 4

  /** DIRECTIONS: up, right, down, left, with y growing downwards. */
  const Directions: seq<Coord> := [Coord(0, -1), Coord(1, 0), Coord(0, 1), Coord(-1, 0)]

  function TurnRight(d: Dir): Dir
  {
    (d + 1) % 4
  }

  /** The next index is the current direction turned a quarter clockwise
      (on a screen whose y axis points down), and every direction is a unit
      step. */
  lemma DirectionsTurnRight(d: Dir)
    ensures Directions[TurnRight(d)] == Coord(-Directions[d].y, Directions[d].x)
    ensures Abs(Directions[d].x) + Abs(Directions[d].y) == 1
    ensures TurnRight(TurnRight(TurnRight(TurnRight(d)))) == d
  {
  }

  function Abs(x: int): nat
  {
    if x < 0 then -x else x
  }

  predicate Obstructed(g: Grid, c: Coord)
  {
    c in g && g[c] == Obstruction
  }

  datatype State = State(pos: Coord, dir: Dir)

  /** One iteration of the walk: turn right in place when the cell ahead is
      an obstruction, otherwise move exactly one step ahead. */
  function Step(g: Grid, s: State): (t: State)
    ensures Obstructed(g, Add(s.pos, Directions[s.dir])) ==> t == State(s.pos, TurnRight(s.dir))
    ensures !Obstructed(g, Add(s.pos, Directions[s.dir])) ==> t == State(Add(s.pos, Directions[s.dir]), s.dir)
  {
    var next := Add(s.pos, Directions[s.dir]);
    if Obstructed(g, next) then State(s.pos, TurnRight(s.dir)) else State(next, s.dir)
  }

  /** The loop body's turn-or-step, as the program writes it. */
  method Move(g: Grid, position: Coord, direction: Dir) returns (position': Coord, direction': Dir)
    ensures State(position', direction') == Step(g, State(position, direction))
  {
    position', direction' := position, direction;
    var nextPosition := Add(position, Directions[direction]);
    if nextPosition in g && g[nextPosition] == Obstruction {
      direction' := (direction + 1) % 4;
    } else {
      position' := nextPosition;
    }
  }

  /** The state after n iterations. */
  function Walk(g: Grid, s: State, n: nat): State
  {
    if n == 0 then s else Step(g, Walk(g, s, n - 1))
  }

  predicate Inside(c: Coord, mapSize: Coord)
  {
    InRect(c, Origin, mapSize)
  }

  /** The guard is inside the rectangle for the first n iterations. */
  ghost predicate InsideFor(g: Grid, mapSize: Coord, s: State, n: nat)
  {
    forall j :: 0 <= j < n ==> Inside(Walk(g, s, j).pos, mapSize)
  }

  /** The cells on the first n states of the walk. */
  ghost function Trail(g: Grid, s: State, n: nat): set<Coord>
  {
    set j | 0 <= j < n :: Walk(g, s, j).pos
  }

  lemma TrailGrows(g: Grid, s: State, n: nat)
    ensures Trail(g, s, n + 1) == Trail(g, s, n) + {Walk(g, s, n).pos}
  {
  }

  /** A walk that stays inside for n iterations visits only cells of the
      rectangle, and the start is its first cell. */
  lemma TrailInside(g: Grid, mapSize: Coord, s: State, n: nat)
    requires InsideFor(g, mapSize, s, n)
    ensures forall c :: c in Trail(g, s, n) ==> Inside(c, mapSize)
    ensures n > 0 ==> s.pos in Trail(g, s, n)
  {
    if n > 0 {
      assert Walk(g, s, 0) == s;
    }
  }

  function CellsOf(g: Grid, item: MapItem): set<Coord>
  {
    set c | c in g && g[c] == item
  }

  /** The guard of a map with exactly one. */
  ghost function GuardOf(g: Grid): (c: Coord)
    requires |CellsOf(g, Guard)| == 1
    ensures c in g && g[c] == Guard
  {
    var c :| c in CellsOf(g, Guard); c
  }

  lemma OnlyGuard(g: Grid, c: Coord)
    requires |CellsOf(g, Guard)| == 1 && c in g && g[c] == Guard
    ensures GuardOf(g) == c
  {
    var q := GuardOf(g);
    if q != c {
      assert {q, c} <= CellsOf(g, Guard);
      SubsetCard({q, c}, CellsOf(g, Guard));
      assert false;
    }
  }

  /** The walk from the guard's cell, facing up. */
  ghost function Start(g: Grid): State
    requires |CellsOf(g, Guard)| == 1
  {
    State(GuardOf(g), 0)
  }

  /** part1_body: walk until the guard leaves the rectangle, collecting the
      cells it stands on.  The program loops forever on a map that never
      lets the guard out; the precondition asks for a number of iterations
      after which it is outside, and `n` is the first such number. */
  method Part1Body(g: Grid, mapSize: Coord, ghost exitSteps: nat) returns (visited: set<Coord>, ghost n: nat)
    requires |CellsOf(g, Guard)| == 1
    requires !Inside(Walk(g, Start(g), exitSteps).pos, mapSize)
    ensures n <= exitSteps
    ensures InsideFor(g, mapSize, Start(g), n) && !Inside(Walk(g, Start(g), n).pos, mapSize)
    ensures visited == Trail(g, Start(g), n)
    ensures forall c :: c in visited ==> Inside(c, mapSize)
  {
    var position :| position in g && g[position] == Guard;
    OnlyGuard(g, position);
    visited := {};
    var direction: Dir := 0;
    n := 0;
    while Inside(position, mapSize)
      invariant n <= exitSteps
      invariant State(position, direction) == Walk(g, Start(g), n)
      invariant InsideFor(g, mapSize, Start(g), n)
      invariant visited == Trail(g, Start(g), n)
      decreases exitSteps - n
    {
      TrailGrows(g, Start(g), n);
      visited := visited + {position};
      position, direction := Move(g, position, direction);
      n := n + 1;
    }
    TrailInside(g, mapSize, Start(g), n);
  }

  /** part1: the number of distinct cells visited. */
  method Part1(g: Grid, mapSize: Coord, ghost exitSteps: nat) returns (count: nat)
    requires |CellsOf(g, Guard)| == 1
    requires !Inside(Walk(g, Start(g), exitSteps).pos, mapSize)
    ensures exists n: nat :: (n <= exitSteps && count == |Trail(g, Start(g), n)|
      && InsideFor(g, mapSize, Start(g), n) && !Inside(Walk(g, Start(g), n).pos, mapSize))
  {
    var visited;
    ghost var n;
    visited, n := Part1Body(g, mapSize, exitSteps);
    count := |visited|;
  }

  // ---------------------------------------------------------------------
  // Part 2: loop detection

  /** The guard never leaves the rectangle. */
  ghost predicate Trapped(g: Grid, mapSize: Coord, s: State)
  {
    forall n: nat :: Inside(Walk(g, s, n).pos, mapSize)
  }

  /** The walk is deterministic: once a state recurs, everything after it
      recurs too. */
  lemma {:induction false} Periodic(g: Grid, s: State, a: nat, b: nat, k: nat)
    requires Walk(g, s, a) == Walk(g, s, b)
    ensures Walk(g, s, a + k) == Walk(g, s, b + k)
    decreases k
  {
    if k > 0 {
      Periodic(g, s, a, b, k - 1);
    }
  }

  /** A state that recurs while the guard is inside traps it. */
  lemma {:induction false} RepeatTraps(g: Grid, mapSize: Coord, s: State, j: nat, n: nat, m: nat)
    requires j < n && Walk(g, s, j) == Walk(g, s, n)
    requires InsideFor(g, mapSize, s, n)
    ensures Inside(Walk(g, s, m).pos, mapSize)
    decreases m
  {
    if m >= n {
      Periodic(g, s, j, n, m - n);
      RepeatTraps(g, mapSize, s, j, n, m - (n - j));
    }
  }

  /** The states the walk passes through in its first n iterations. */
  ghost function States(g: Grid, s: State, n: nat): set<State>
  {
    set j | 0 <= j < n :: Walk(g, s, j)
  }

  lemma StatesGrow(g: Grid, s: State, n: nat)
    ensures States(g, s, n + 1) == States(g, s, n) + {Walk(g, s, n)}
  {
  }

  /** A walk whose current state was seen before, all inside, is trapped. */
  lemma RecurrenceTraps(g: Grid, mapSize: Coord, s: State, n: nat)
    requires InsideFor(g, mapSize, s, n) && Walk(g, s, n) in States(g, s, n)
    ensures Trapped(g, mapSize, s)
  {
    var j :| 0 <= j < n && Walk(g, s, j) == Walk(g, s, n);
    forall m: nat ensures Inside(Walk(g, s, m).pos, mapSize) {
      RepeatTraps(g, mapSize, s, j, n, m);
    }
  }

  /** A walk that reaches a cell outside is not trapped. */
  lemma LeavesFree(g: Grid, mapSize: Coord, s: State, n: nat)
    requires !Inside(Walk(g, s, n).pos, mapSize)
    ensures !Trapped(g, mapSize, s)
  {
  }

  /** Every state whose cell is inside the rectangle. */
  ghost function AllStates(mapSize: Coord): set<State>
  {
    set x: int, y: int, d: Dir | 0 <= x <= mapSize.x && 0 <= y <= mapSize.y :: State(Coord(x, y), d)
  }

  lemma InAllStates(mapSize: Coord, s: State)
    requires Inside(s.pos, mapSize)
    ensures s in AllStates(mapSize)
  {
    assert s == State(Coord(s.pos.x, s.pos.y), s.dir);
  }

  /** Adding a new state of the rectangle leaves fewer states to visit. */
  lemma FewerLeft(all: set<State>, visited: set<State>, s: State)
    requires s in all && s !in visited
    ensures |all - (visited + {s})| < |all - visited|
  {
    assert all - (visited + {s}) == (all - visited) - {s};
  }

  /** One iteration of `Loops` that finds no repeat: the state joins the
      visited ones, which leaves fewer states of the rectangle unvisited. */
  lemma LoopsStep(g: Grid, mapSize: Coord, s0: State, n: nat, visited: set<State>)
    requires InsideFor(g, mapSize, s0, n) && Inside(Walk(g, s0, n).pos, mapSize)
    requires visited == States(g, s0, n) && visited <= AllStates(mapSize)
    requires Walk(g, s0, n) !in visited
    ensures InsideFor(g, mapSize, s0, n + 1)
    ensures visited + {Walk(g, s0, n)} == States(g, s0, n + 1)
    ensures visited + {Walk(g, s0, n)} <= AllStates(mapSize)
    ensures |AllStates(mapSize) - (visited + {Walk(g, s0, n)})| < |AllStates(mapSize) - visited|
  {
    InAllStates(mapSize, Walk(g, s0, n));
    FewerLeft(AllStates(mapSize), visited, Walk(g, s0, n));
    StatesGrow(g, s0, n);
  }

  /** The part-2 walk with a repeated-state check at the top of each
      iteration: it answers whether the guard is trapped. */
  method Loops(g: Grid, mapSize: Coord, start: Coord) returns (loops: bool)
    ensures loops <==> Trapped(g, mapSize, State(start, 0))
  {
    ghost var s0 := State(start, 0);
    var position := start;
    var direction: Dir := 0;
    var visited: set<State> := {};
    ghost var n: nat := 0;
    loops := false;
    while !loops && Inside(position, mapSize)
      invariant !loops ==> State(position, direction) == Walk(g, s0, n)
      invariant !loops ==> InsideFor(g, mapSize, s0, n)
      invariant !loops ==> visited == States(g, s0, n)
      invariant visited <= AllStates(mapSize)
      invariant loops ==> Trapped(g, mapSize, s0)
      decreases |AllStates(mapSize) - visited| + (if loops then 0 else 1)
    {
      var here := State(position, direction);
      if here in visited {
        RecurrenceTraps(g, mapSize, s0, n);
        loops := true;
      } else {
        LoopsStep(g, mapSize, s0, n, visited);
        visited := visited + {here};
        position, direction := Move(g, position, direction);
        n := n + 1;
      }
    }
    if !loops {
      LeavesFree(g, mapSize, s0, n);
    }
  }

  /** The candidates that trap the guard once an obstruction is put on them. */
  ghost function TrapCells(g: Grid, mapSize: Coord, start: Coord, candidates: set<Coord>): set<Coord>
  {
    set c | c in candidates && Trapped(g[c := Obstruction], mapSize, State(start, 0))
  }

  lemma TrapCellsAdd(g: Grid, mapSize: Coord, start: Coord, done: set<Coord>, c: Coord)
    requires c !in done
    ensures Trapped(g[c := Obstruction], mapSize, State(start, 0)) ==>
      |TrapCells(g, mapSize, start, done + {c})| == |TrapCells(g, mapSize, start, done)| + 1
    ensures !Trapped(g[c := Obstruction], mapSize, State(start, 0)) ==>
      |TrapCells(g, mapSize, start, done + {c})| == |TrapCells(g, mapSize, start, done)|
  {
    if Trapped(g[c := Obstruction], mapSize, State(start, 0)) {
      assert TrapCells(g, mapSize, start, done + {c}) == TrapCells(g, mapSize, start, done) + {c};
    } else {
      assert TrapCells(g, mapSize, start, done + {c}) == TrapCells(g, mapSize, start, done);
    }
  }

  /** part2: every cell of the part-1 walk except the start is tried as a
      new obstruction, and those that trap the guard are counted. */
  method Part2(g: Grid, mapSize: Coord, ghost exitSteps: nat) returns (count: nat)
    requires |CellsOf(g, Guard)| == 1
    requires !Inside(Walk(g, Start(g), exitSteps).pos, mapSize)
    ensures exists n: nat :: (InsideFor(g, mapSize, Start(g), n) && !Inside(Walk(g, Start(g), n).pos, mapSize)
      && count == |TrapCells(g, mapSize, GuardOf(g), Trail(g, Start(g), n) - {GuardOf(g)})|)
  {
    var startingPosition :| startingPosition in g && g[startingPosition] == Guard;
    OnlyGuard(g, startingPosition);
    var obstructionCandidates;
    ghost var n;
    obstructionCandidates, n := Part1Body(g, mapSize, exitSteps);
    obstructionCandidates := obstructionCandidates - {startingPosition};
    count := 0;
    var remaining := obstructionCandidates;
    while remaining != {}
      invariant remaining <= obstructionCandidates
      invariant count == |TrapCells(g, mapSize, startingPosition, obstructionCandidates - remaining)|
      decreases |remaining|
    {
      var newObstruction :| newObstruction in remaining;
      var mapWithObstruction := g[newObstruction := Obstruction];
      var loops := Loops(mapWithObstruction, mapSize, startingPosition);
      TrapCellsAdd(g, mapSize, startingPosition, obstructionCandidates - remaining, newObstruction);
      assert obstructionCandidates - (remaining - {newObstruction})
        == (obstructionCandidates - remaining) + {newObstruction};
      if loops {
        count := count + 1;
      }
      remaining := remaining - {newObstruction};
    }
    assert obstructionCandidates - remaining == obstructionCandidates;
  }

  // ---------------------------------------------------------------------
  // The part-2 inner loop as the program writes it: the state is recorded,
  // and a loop is reported only when the cell ahead, in the current
  // direction, was recorded before.  A guard that only turns never meets
  // that test.

  datatype Probe = Probe(pos: Coord, dir: Dir, seen: set<State>)

  datatype ProbeResult = Exited | LoopFound | Running(probe: Probe)

  /** One iteration of the program's inner `while` of part2. */
  function ProbeStep(g: Grid, mapSize: Coord, p: Probe): ProbeResult
  {
    if !Inside(p.pos, mapSize) then Exited
    else
      var seen := p.seen + {State(p.pos, p.dir)};
      var next := Add(p.pos, Directions[p.dir]);
      if State(next, p.dir) in seen then LoopFound
      else if Obstructed(g, next) then Running(Probe(p.pos, TurnRight(p.dir), seen))
      else Running(Probe(next, p.dir, seen))
  }

  /** The loop after n iterations; Exited and LoopFound end it. */
  function ProbeRun(g: Grid, mapSize: Coord, p: Probe, n: nat): ProbeResult
  {
    if n == 0 then Running(p)
    else match ProbeRun(g, mapSize, p, n - 1)
      case Running(q) => ProbeStep(g, mapSize, q)
      case r => r
  }

  /** The 3x3 lab ".#." / ".^#" / ".#.": the guard at (1,1) is walled in
      above, to the right and below. */
  const BoxLab: Grid := map[Coord(1, 0) := Obstruction, Coord(2, 1) := Obstruction,
                            Coord(1, 2) := Obstruction, Coord(1, 1) := Guard]
  const BoxSize := Coord(2, 2)

  lemma BoxLabGuard()
    ensures CellsOf(BoxLab, Guard) == {Coord(1, 1)}
    ensures |CellsOf(BoxLab, Guard)| == 1 && GuardOf(BoxLab) == Coord(1, 1)
  {
    assert CellsOf(BoxLab, Guard) == {Coord(1, 1)};
    OnlyGuard(BoxLab, Coord(1, 1));
  }

  /** In BoxLab the guard turns three times, steps left onto (0,1) and
      leaves, so (0,1) is the one obstruction candidate of part 2. */
  lemma BoxLabCandidates()
    ensures |CellsOf(BoxLab, Guard)| == 1
    ensures InsideFor(BoxLab, BoxSize, Start(BoxLab), 5) && !Inside(Walk(BoxLab, Start(BoxLab), 5).pos, BoxSize)
    ensures Trail(BoxLab, Start(BoxLab), 5) - {GuardOf(BoxLab)} == {Coord(0, 1)}
  {
    BoxLabGuard();
    var s := Start(BoxLab);
    assert s == State(Coord(1, 1), 0);
    BoxLabWalk();
    forall j | 0 <= j < 5
      ensures Walk(BoxLab, s, j).pos == (if j < 4 then Coord(1, 1) else Coord(0, 1))
    {
      if j == 0 {
      } else if j == 1 {
      } else if j == 2 {
      } else if j == 3 {
      } else {
      }
    }
    assert InsideFor(BoxLab, BoxSize, s, 5);
    assert Walk(BoxLab, s, 0).pos == Coord(1, 1) && Walk(BoxLab, s, 4).pos == Coord(0, 1);
    assert Trail(BoxLab, s, 5) == {Coord(1, 1), Coord(0, 1)};
  }

  /** Walled in above, to the right and below, the guard turns three times. */
  lemma BoxLabTurns(d: Dir)
    requires d < 3
    ensures Step(BoxLab, State(Coord(1, 1), d)) == State(Coord(1, 1), d + 1)
  {
    if d == 0 {
      assert Obstructed(BoxLab, Coord(1, 0));
    } else if d == 1 {
      assert Obstructed(BoxLab, Coord(2, 1));
    } else {
      assert Obstructed(BoxLab, Coord(1, 2));
    }
  }

  /** Facing left, nothing stops it. */
  lemma BoxLabLeaves()
    ensures Step(BoxLab, State(Coord(1, 1), 3)) == State(Coord(0, 1), 3)
    ensures Step(BoxLab, State(Coord(0, 1), 3)) == State(Coord(-1, 1), 3)
  {
    assert !Obstructed(BoxLab, Coord(0, 1));
    assert !Obstructed(BoxLab, Coord(-1, 1));
  }

  lemma BoxLabWalk()
    ensures Walk(BoxLab, State(Coord(1, 1), 0), 1) == State(Coord(1, 1), 1)
    ensures Walk(BoxLab, State(Coord(1, 1), 0), 2) == State(Coord(1, 1), 2)
    ensures Walk(BoxLab, State(Coord(1, 1), 0), 3) == State(Coord(1, 1), 3)
    ensures Walk(BoxLab, State(Coord(1, 1), 0), 4) == State(Coord(0, 1), 3)
    ensures Walk(BoxLab, State(Coord(1, 1), 0), 5) == State(Coord(-1, 1), 3)
  {
    var s := State(Coord(1, 1), 0);
    BoxLabTurns(0);
    BoxLabTurns(1);
    BoxLabTurns(2);
    BoxLabLeaves();
    assert Walk(BoxLab, s, 1) == Step(BoxLab, Walk(BoxLab, s, 0));
    assert Walk(BoxLab, s, 2) == Step(BoxLab, Walk(BoxLab, s, 1));
    assert Walk(BoxLab, s, 3) == Step(BoxLab, Walk(BoxLab, s, 2));
    assert Walk(BoxLab, s, 4) == Step(BoxLab, Walk(BoxLab, s, 3));
    assert Walk(BoxLab, s, 5) == Step(BoxLab, Walk(BoxLab, s, 4));
  }

  /** With the new obstruction on (0,1) the guard is walled in on all four
      sides. */
  const Boxed: Grid := BoxLab[Coord(0, 1) := Obstruction]

  lemma BoxedAllAround(d: Dir)
    ensures Obstructed(Boxed, Add(Coord(1, 1), Directions[d]))
  {
  }

  /** As written, the inner loop of part2 never ends on Boxed: the guard
      turns forever, and the cell ahead is never a recorded state. */
  lemma {:induction false} BoxedProbeRunsForever(n: nat)
    ensures ProbeRun(Boxed, BoxSize, Probe(Coord(1, 1), 0, {}), n).Running?
    ensures ProbeRun(Boxed, BoxSize, Probe(Coord(1, 1), 0, {}), n).probe.pos == Coord(1, 1)
    ensures forall t :: t in ProbeRun(Boxed, BoxSize, Probe(Coord(1, 1), 0, {}), n).probe.seen ==> t.pos == Coord(1, 1)
  {
    if n > 0 {
      BoxedProbeRunsForever(n - 1);
      var q := ProbeRun(Boxed, BoxSize, Probe(Coord(1, 1), 0, {}), n - 1).probe;
      BoxedAllAround(q.dir);
      assert Add(Coord(1, 1), Directions[q.dir]) != Coord(1, 1);
    }
  }

  /** With the check moved to the top of the loop the same guard is
      reported trapped. */
  lemma {:induction false} BoxedTrapped()
    ensures Trapped(Boxed, BoxSize, State(Coord(1, 1), 0))
  {
    forall n: nat ensures Inside(Walk(Boxed, State(Coord(1, 1), 0), n).pos, BoxSize) {
      BoxedStays(n);
    }
  }

  /** On Boxed, every step from (1,1) is a turn. */
  lemma BoxedTurns(w: State)
    requires w.pos == Coord(1, 1)
    ensures Step(Boxed, w).pos == Coord(1, 1)
  {
    BoxedAllAround(w.dir);
  }

  lemma {:induction false} BoxedStays(n: nat)
    ensures Walk(Boxed, State(Coord(1, 1), 0), n).pos == Coord(1, 1)
  {
    if n > 0 {
      BoxedStays(n - 1);
      BoxedTurns(Walk(Boxed, State(Coord(1, 1), 0), n - 1));
    }
  }
}
