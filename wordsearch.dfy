/** Ceres Search: a grid of letters.  Part 1 counts the occurrences of
    the word XMAS in any of the eight directions; part 2 counts the X-MAS
    crosses, an A whose two diagonals both spell MAS, forwards or
    backwards.  Both folds run over the grid's cells in the order the map
    lists them. */
module WordSearch {
  import opened Util

  type Cell = (int, int)
  type Grid = map<Cell, char>

  /** The eight directions the word may run in, in the order they are
      tried. */
  const Neighbors: seq<Cell> := [(-1, -1), (0, -1), (1, -1), (-1, 0), (1, 0), (-1, 1), (0, 1), (1, 1)]

  function Get(g: Grid, p: Cell): Option<char>
  {
    if p in g then Some(g[p]) else None
  }

  /* ---------------------------------------------------------------- */
  /* Loading the grid                                                  */
  /* ---------------------------------------------------------------- */

  /** The grid's own loader: every character of every line is stored at
      (column, line). */
  method ParseWithCoords(lines: seq<string>) returns (g: Grid)
    ensures forall p :: (p in g <==> 0 <= p.1 < |lines| && 0 <= p.0 < |lines[p.1]|)
    ensures forall p | p in g :: g[p] == lines[p.1][p.0]
  {
    g := map[];
    for y := 0 to |lines|
      invariant forall p :: (p in g <==> 0 <= p.1 < y && 0 <= p.0 < |lines[p.1]|)
      invariant forall p | p in g :: g[p] == lines[p.1][p.0]
    {
      for x := 0 to |lines[y]|
        invariant forall p :: (p in g <==> (0 <= p.1 < y || (p.1 == y && p.0 < x)) && 0 <= p.0 < |lines[p.1]|)
        invariant forall p | p in g :: g[p] == lines[p.1][p.0]
      {
        g := g[(x, y) := lines[y][x]];
      }
    }
  }

  /* ---------------------------------------------------------------- */
  /* Reading words                                                     */
  /* ---------------------------------------------------------------- */

  /** The word w is written on the grid from p on, one letter per step d. */
  ghost predicate Spells(g: Grid, p: Cell, d: Cell, w: string)
    decreases |w|
  {
    w == [] || (Get(g, p) == Some(w[0]) && Spells(g, (p.0 + d.0, p.1 + d.1), d, w[1..]))
  }

  /** A word can only be read over cells of the grid. */
  lemma SpellsOnGrid(g: Grid, p: Cell, d: Cell, w: string)
    requires Spells(g, p, d, w) && w != []
    ensures p in g && g[p] == w[0]
  {
  }

  /* ---------------------------------------------------------------- */
  /* Part 1                                                            */
  /* ---------------------------------------------------------------- */

  /** The three letters after an X: M one step along d, A two steps, S
      three steps; a cell off the grid matches nothing. */
  predicate MasAfter(g: Grid, x: int, y: int, d: Cell)
  {
    && Get(g, (x + d.0, y + d.1)) == Some('M')
    && Get(g, (x + 2 * d.0, y + 2 * d.1)) == Some('A')
    && Get(g, (x + 3 * d.0, y + 3 * d.1)) == Some('S')
  }

  /** An X followed by MAS along d is the word XMAS along d. */
  lemma XmasSpelled(g: Grid, x: int, y: int, d: Cell)
    ensures Get(g, (x, y)) == Some('X') && MasAfter(g, x, y, d) <==> Spells(g, (x, y), d, "XMAS")
  {
    var w := "XMAS";
    assert w[1..] == "MAS" && w[2..] == "AS" && w[3..] == "S" && w[4..] == "";
    assert (x + d.0 + d.0, y + d.1 + d.1) == (x + 2 * d.0, y + 2 * d.1);
    assert (x + 2 * d.0 + d.0, y + 2 * d.1 + d.1) == (x + 3 * d.0, y + 3 * d.1);
  }

  /** The inner fold: n plus one for every direction of ds along which MAS
      follows (x, y). */
  function CountDirections(g: Grid, x: int, y: int, ds: seq<Cell>, n: nat): nat
    decreases |ds|
  {
    if ds == [] then n
    else CountDirections(g, x, y, ds[1..], if MasAfter(g, x, y, ds[0]) then n + 1 else n)
  }

  /** The outer fold over the cells: each X adds its directions. */
  function XmasFold(g: Grid, cells: seq<Cell>, acc: nat): nat
    requires forall i | 0 <= i < |cells| :: cells[i] in g
    decreases |cells|
  {
    if cells == [] then acc
    else
      var p := cells[0];
      XmasFold(g, cells[1..], if g[p] == 'X' then acc + CountDirections(g, p.0, p.1, Neighbors, 0) else acc)
  }

  function Part1(g: Grid, cells: seq<Cell>): nat
    requires forall i | 0 <= i < |cells| :: cells[i] in g
  {
    XmasFold(g, cells, 0)
  }

  /** Every occurrence of XMAS: its first cell and its direction. */
  ghost function Occurrences(g: Grid, cells: set<Cell>): set<(Cell, Cell)>
  {
    set p, d | p in cells && d in Neighbors && Spells(g, p, d, "XMAS") :: (p, d)
  }

  /** The same pairs as the fold tests them: an X, then MAS along the
      direction. */
  ghost function Matches(g: Grid, cells: set<Cell>): set<(Cell, Cell)>
  {
    set p, d | p in cells && d in Neighbors && Get(g, p) == Some('X') && MasAfter(g, p.0, p.1, d) :: (p, d)
  }

  lemma MatchesAreOccurrences(g: Grid, cells: set<Cell>)
    ensures Matches(g, cells) == Occurrences(g, cells)
  {
    forall p, d
      ensures Get(g, p) == Some('X') && MasAfter(g, p.0, p.1, d) <==> Spells(g, p, d, "XMAS")
    {
      XmasSpelled(g, p.0, p.1, d);
    }
  }

  /** The directions of ds along which MAS follows (x, y). */
  ghost function DirectionsAt(g: Grid, x: int, y: int, ds: seq<Cell>): set<Cell>
  {
    set d | d in ds && MasAfter(g, x, y, d)
  }

  /** The eight directions are different from each other. */
  lemma NeighborsDistinct()
    ensures forall i, j | 0 <= i < j < |Neighbors| :: Neighbors[i] != Neighbors[j]
  {
  }

  /** The inner fold counts those directions, none being listed twice. */
  lemma {:induction false} CountDirectionsCounts(g: Grid, x: int, y: int, ds: seq<Cell>, n: nat)
    requires forall i, j | 0 <= i < j < |ds| :: ds[i] != ds[j]
    ensures CountDirections(g, x, y, ds, n) == n + |DirectionsAt(g, x, y, ds)|
    decreases |ds|
  {
    if ds == [] {
      assert DirectionsAt(g, x, y, ds) == {};
    } else {
      var d, rest := ds[0], ds[1..];
      var n' := if MasAfter(g, x, y, d) then n + 1 else n;
      assert forall i, j | 0 <= i < j < |rest| :: rest[i] != rest[j] by {
        forall i, j | 0 <= i < j < |rest|
          ensures rest[i] != rest[j]
        {
          assert rest[i] == ds[i + 1] && rest[j] == ds[j + 1];
        }
      }
      CountDirectionsCounts(g, x, y, rest, n');
      assert d !in rest by {
        forall i | 0 <= i < |rest|
          ensures rest[i] != d
        {
          assert rest[i] == ds[i + 1];
        }
      }
      assert forall e :: e in ds <==> e == d || e in rest;
      if MasAfter(g, x, y, d) {
        assert DirectionsAt(g, x, y, ds) == DirectionsAt(g, x, y, rest) + {d};
      } else {
        assert DirectionsAt(g, x, y, ds) == DirectionsAt(g, x, y, rest);
      }
    }
  }

  /** The matches at one cell, one per direction. */
  lemma MatchesAt(g: Grid, p: Cell)
    ensures |Matches(g, {p})| == if Get(g, p) == Some('X') then |DirectionsAt(g, p.0, p.1, Neighbors)| else 0
  {
    if Get(g, p) == Some('X') {
      var dirs := DirectionsAt(g, p.0, p.1, Neighbors);
      var img := ImageCard(dirs, (d: Cell) => (p, d));
      forall e | e in Matches(g, {p})
        ensures e in img
      {
        assert e.1 in dirs && e == (p, e.1);
      }
      forall e | e in img
        ensures e in Matches(g, {p})
      {
        var d :| d in dirs && (p, d) == e;
      }
      assert img == Matches(g, {p});
    } else {
      assert Matches(g, {p}) == {};
    }
  }

  /** The cells of a list as a set; a list without repeats adds its head. */
  lemma SplitHead(cells: seq<Cell>)
    requires |cells| > 0
    requires forall i, j | 0 <= i < j < |cells| :: cells[i] != cells[j]
    ensures (set q | q in cells) == (set q | q in cells[1..]) + {cells[0]}
    ensures cells[0] !in (set q | q in cells[1..])
    ensures forall i, j | 0 <= i < j < |cells[1..]| :: cells[1..][i] != cells[1..][j]
  {
    forall i | 0 <= i < |cells| - 1
      ensures cells[1..][i] != cells[0]
    {
      assert cells[1..][i] == cells[i + 1];
    }
  }

  lemma MatchesSplit(g: Grid, rest: set<Cell>, p: Cell)
    requires p !in rest
    ensures Matches(g, rest + {p}) == Matches(g, rest) + Matches(g, {p})
    ensures Matches(g, rest) !! Matches(g, {p})
  {
  }

  /** Part 1 counts the XMAS matches among the cells it is given, when no
      cell is given twice. */
  lemma {:induction false} XmasFoldCounts(g: Grid, cells: seq<Cell>, acc: nat)
    requires forall i | 0 <= i < |cells| :: cells[i] in g
    requires forall i, j | 0 <= i < j < |cells| :: cells[i] != cells[j]
    ensures XmasFold(g, cells, acc) == acc + |Matches(g, set q | q in cells)|
    decreases |cells|
  {
    if cells == [] {
      assert Matches(g, set q | q in cells) == {};
    } else {
      var p, rest := cells[0], cells[1..];
      var acc' := if g[p] == 'X' then acc + CountDirections(g, p.0, p.1, Neighbors, 0) else acc;
      assert XmasFold(g, cells, acc) == XmasFold(g, rest, acc');
      XmasFoldCounts(g, rest, acc');
      SplitHead(cells);
      MatchesSplit(g, (set q | q in rest), p);
      MatchesAt(g, p);
      NeighborsDistinct();
      CountDirectionsCounts(g, p.0, p.1, Neighbors, 0);
    }
  }

  /** Over the map's key list, which holds every cell once, part 1 is the
      number of occurrences of XMAS on the whole grid. */
  lemma Part1Counts(g: Grid, cells: seq<Cell>)
    requires forall i | 0 <= i < |cells| :: cells[i] in g
    requires forall i, j | 0 <= i < j < |cells| :: cells[i] != cells[j]
    requires forall p | p in g :: p in cells
    ensures Part1(g, cells) == |Occurrences(g, g.Keys)|
  {
    XmasFoldCounts(g, cells, 0);
    assert (set p | p in cells) == g.Keys;
    MatchesAreOccurrences(g, g.Keys);
  }

  /* ---------------------------------------------------------------- */
  /* Part 2                                                            */
  /* ---------------------------------------------------------------- */

  /** All the values, or None as soon as one is missing. */
  function Collect(v: seq<Option<char>>): (r: Option<seq<char>>)
    ensures r.Some? <==> forall i | 0 <= i < |v| :: v[i].Some?
    ensures r.Some? ==> |r.value| == |v| && forall i | 0 <= i < |v| :: r.value[i] == v[i].value
  {
    if v == [] then Some([])
    else if v[0].None? then None
    else
      match Collect(v[1..])
      case None => None
      case Some(rest) => Some([v[0].value] + rest)
  }

  /** The corners of (x, y): top left, bottom right, bottom left, top right. */
  function Corners(g: Grid, x: int, y: int): seq<Option<char>>
  {
    [Get(g, (x - 1, y - 1)), Get(g, (x + 1, y + 1)), Get(g, (x - 1, y + 1)), Get(g, (x + 1, y - 1))]
  }

  /** The four corner patterns part 2 accepts. */
  predicate CrossAt(g: Grid, x: int, y: int)
  {
    match Collect(Corners(g, x, y))
    case None => false
    case Some(v) => v == "MSMS" || v == "MSSM" || v == "SMMS" || v == "SMSM"
  }

  /** The X-MAS shape: an A whose falling and rising diagonals each spell
      MAS in one direction or the other. */
  ghost predicate IsCross(g: Grid, p: Cell)
  {
    && (Spells(g, (p.0 - 1, p.1 - 1), (1, 1), "MAS") || Spells(g, (p.0 + 1, p.1 + 1), (-1, -1), "MAS"))
    && (Spells(g, (p.0 - 1, p.1 + 1), (1, -1), "MAS") || Spells(g, (p.0 + 1, p.1 - 1), (-1, 1), "MAS"))
  }

  /** The four listed patterns are exactly the X-MAS crosses. */
  lemma CrossMeansXmas(g: Grid, x: int, y: int)
    ensures Get(g, (x, y)) == Some('A') && CrossAt(g, x, y) <==> IsCross(g, (x, y))
  {
    var w := "MAS";
    assert w[1..] == "AS" && w[2..] == "S" && w[3..] == "";
    var v := Corners(g, x, y);
    if Collect(v).Some? {
      var c := Collect(v).value;
      assert c == [v[0].value, v[1].value, v[2].value, v[3].value];
    }
  }

  function CrossFold(g: Grid, cells: seq<Cell>, acc: nat): nat
    requires forall i | 0 <= i < |cells| :: cells[i] in g
    decreases |cells|
  {
    if cells == [] then acc
    else
      var p := cells[0];
      CrossFold(g, cells[1..], if g[p] == 'A' && CrossAt(g, p.0, p.1) then acc + 1 else acc)
  }

  function Part2(g: Grid, cells: seq<Cell>): nat
    requires forall i | 0 <= i < |cells| :: cells[i] in g
  {
    CrossFold(g, cells, 0)
  }

  ghost function Crosses(g: Grid, cells: set<Cell>): set<Cell>
  {
    set p | p in cells && IsCross(g, p)
  }

  lemma {:induction false} CrossFoldCounts(g: Grid, cells: seq<Cell>, acc: nat)
    requires forall i | 0 <= i < |cells| :: cells[i] in g
    requires forall i, j | 0 <= i < j < |cells| :: cells[i] != cells[j]
    ensures CrossFold(g, cells, acc) == acc + |Crosses(g, set q | q in cells)|
    decreases |cells|
  {
    if cells == [] {
      assert Crosses(g, set q | q in cells) == {};
    } else {
      var p, rest := cells[0], cells[1..];
      CrossMeansXmas(g, p.0, p.1);
      var acc' := if g[p] == 'A' && CrossAt(g, p.0, p.1) then acc + 1 else acc;
      assert CrossFold(g, cells, acc) == CrossFold(g, rest, acc');
      CrossFoldCounts(g, rest, acc');
      SplitHead(cells);
      if IsCross(g, p) {
        assert Crosses(g, set q | q in cells) == Crosses(g, set q | q in rest) + {p};
      } else {
        assert Crosses(g, set q | q in cells) == Crosses(g, set q | q in rest);
      }
    }
  }

  /** Over the map's key list, part 2 is the number of X-MAS crosses. */
  lemma Part2Counts(g: Grid, cells: seq<Cell>)
    requires forall i | 0 <= i < |cells| :: cells[i] in g
    requires forall i, j | 0 <= i < j < |cells| :: cells[i] != cells[j]
    requires forall p | p in g :: p in cells
    ensures Part2(g, cells) == |Crosses(g, g.Keys)|
  {
    CrossFoldCounts(g, cells, 0);
    assert (set p | p in cells) == g.Keys;
  }
}
