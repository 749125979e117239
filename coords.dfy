/** Integer grid coordinates and the grid loader shared by most puzzles
    (src/lib.rs). Components are unbounded integers in place of `i32`. */
module Coords {
  import opened Util

  datatype Coord = Coord(x: int, y: int)

  const Origin := Coord(0, 0)

  /** Inside the rectangle spanned by two corners, both corners included. */
  predicate InRect(c: Coord, topLeft: Coord, bottomRight: Coord)
  {
    topLeft.x <= c.x <= bottomRight.x && topLeft.y <= c.y <= bottomRight.y
  }

  /** Inside the map whose largest coordinate is `mapSize`. */
  predicate InMap(c: Coord, mapSize: Coord)
  {
    0 <= c.x <= mapSize.x && 0 <= c.y <= mapSize.y
  }

  function Add(a: Coord, b: Coord): Coord
  {
    Coord(a.x + b.x, a.y + b.y)
  }

  function Sub(a: Coord, b: Coord): Coord
  {
    Coord(a.x - b.x, a.y - b.y)
  }

  /** `c * k`: both components scaled by k. */
  function Scale(c: Coord, k: int): Coord
  {
    Coord(c.x * k, c.y * k)
  }

  /** The rectangle test is inclusive on both corners and exclusive outside them. */
  lemma InRectBounds(c: Coord, topLeft: Coord, bottomRight: Coord)
    ensures InRect(c, topLeft, bottomRight) <==>
      (topLeft.x <= c.x && c.x <= bottomRight.x && topLeft.y <= c.y && c.y <= bottomRight.y)
    ensures InRect(topLeft, topLeft, bottomRight) <==> topLeft.x <= bottomRight.x && topLeft.y <= bottomRight.y
    ensures InRect(bottomRight, topLeft, bottomRight) <==> topLeft.x <= bottomRight.x && topLeft.y <= bottomRight.y
  {
  }

  /** `in_map(s)` is the rectangle test anchored at the origin. */
  lemma InMapIsInRect(c: Coord, mapSize: Coord)
    ensures InMap(c, mapSize) == InRect(c, Origin, mapSize)
  {
  }

  /** Addition and subtraction are componentwise and undo each other. */
  lemma AddSubInverse(a: Coord, b: Coord)
    ensures Sub(Add(a, b), b) == a
    ensures Add(Sub(a, b), b) == a
    ensures Add(a, b) == Add(b, a)
    ensures Add(a, Origin) == a
  {
  }

  /** Scaling by 0 gives the origin, by 1 the coordinate itself, and scaling
      distributes over a step: c*(k+1) == c*k + c. */
  lemma ScaleLaws(c: Coord, k: int)
    ensures Scale(c, 0) == Origin
    ensures Scale(c, 1) == c
    ensures Scale(c, k + 1) == Add(Scale(c, k), c)
  {
  }

  /** The cell (column, line) of a text given as its lines. */
  predicate InText(lines: seq<string>, c: Coord)
  {
    0 <= c.y < |lines| && 0 <= c.x < |lines[c.y]|
  }

  function CharAt(lines: seq<string>, c: Coord): char
    requires InText(lines, c)
  {
    lines[c.y][c.x]
  }

  /** `parse_with_coords`: every character whose parse yields a value is
      stored under (column, line); the size is (largest column index, largest
      line index), each 0 when there is none. */
  method ParseWithCoords<T>(lines: seq<string>, parse: char -> Option<T>)
    returns (size: Coord, grid: map<Coord, T>)
    ensures forall c :: c in grid <==> InText(lines, c) && parse(CharAt(lines, c)).Some?
    ensures forall c :: c in grid ==> grid[c] == parse(CharAt(lines, c)).value
    ensures size.y == if |lines| == 0 then 0 else |lines| - 1
    ensures forall y :: 0 <= y < |lines| ==> |lines[y]| <= size.x + 1
    ensures size.x == 0 || exists y :: 0 <= y < |lines| && |lines[y]| == size.x + 1
    ensures size.x >= 0 && size.y >= 0
    ensures forall c :: c in grid ==> InMap(c, size)
  {
    grid := map[];
    var yMax := 0;
    var xMax := 0;
    for y := 0 to |lines|
      invariant yMax == if y == 0 then 0 else y - 1
      invariant xMax >= 0
      invariant forall yy :: 0 <= yy < y ==> |lines[yy]| <= xMax + 1
      invariant xMax == 0 || exists yy :: 0 <= yy < y && |lines[yy]| == xMax + 1
      invariant forall c :: c in grid <==> c.y < y && InText(lines, c) && parse(CharAt(lines, c)).Some?
      invariant forall c :: c in grid ==> grid[c] == parse(CharAt(lines, c)).value
    {
      yMax := if yMax < y then y else yMax;
      ghost var before := xMax;
      for x := 0 to |lines[y]|
        invariant xMax == if x == 0 || x - 1 <= before then before else x - 1
        invariant forall c :: c in grid <==>
          ((c.y < y || (c.y == y && c.x < x)) && InText(lines, c) && parse(CharAt(lines, c)).Some?)
        invariant forall c :: c in grid ==> grid[c] == parse(CharAt(lines, c)).value
      {
        xMax := if xMax < x then x else xMax;
        var v := parse(lines[y][x]);
        if v.Some? {
          grid := grid[Coord(x, y) := v.value];
        }
      }
    }
    size := Coord(xMax, yMax);
  }
}
