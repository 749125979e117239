/** Day 8: antennas of one frequency resonate in pairs. Part 1 marks the point
    beyond each antenna of a pair at the pair's own distance; part 2 marks
    every point of the line through the pair at a whole multiple of that
    distance. Both count the distinct marked points inside the map. */
module Antennas {
  import opened Util
  import opened Coords

  /** Antenna positions grouped by frequency. */
  type Groups = map<char, seq<Coord>>

  /** The grid loader's cell parser: '.' is empty, anything else an antenna. */
  function AntennaAt(c: char): (r: Option<char>)
    ensures r.None? <==> c == '.'
    ensures r.Some? ==> r.value == c
  {
    if c == '.' then None else Some(c)
  }

  predicate NoRepeats(s: seq<Coord>)
  {
    forall i, j | 0 <= i < |s| && 0 <= j < |s| && i != j :: s[i] != s[j]
  }

  /** Every antenna of the map is listed once, under its own frequency, and
      nothing else is listed. */
  predicate GroupsOf(grid: map<Coord, char>, antennas: Groups)
  {
    && (forall c | c in grid :: grid[c] in antennas && c in antennas[grid[c]])
    && (forall ch, c | ch in antennas && c in antennas[ch] :: c in grid && grid[c] == ch)
    && (forall ch | ch in antennas :: |antennas[ch]| > 0 && NoRepeats(antennas[ch]))
  }

  /** Groups whose antennas are distinct and inside the map: what
      `parse_antennas` produces. */
  predicate WellPlaced(size: Coord, antennas: Groups)
  {
    forall ch | ch in antennas ::
      NoRepeats(antennas[ch]) && forall i | 0 <= i < |antennas[ch]| :: InRect(antennas[ch][i], Origin, size)
  }

  /** The grouping loop of `parse_antennas`: each antenna is appended to the
      list of its frequency, which is created on first sight. The map's
      iteration order is left open. */
  method Group(grid: map<Coord, char>) returns (antennas: Groups)
    ensures GroupsOf(grid, antennas)
  {
    antennas := map[];
    var todo := grid.Keys;
    while todo != {}
      invariant todo <= grid.Keys
      invariant forall c | c in grid && c !in todo :: grid[c] in antennas && c in antennas[grid[c]]
      invariant forall ch, c | ch in antennas && c in antennas[ch] :: c in grid && c !in todo && grid[c] == ch
      invariant forall ch | ch in antennas :: |antennas[ch]| > 0 && NoRepeats(antennas[ch])
      decreases |todo|
    {
      var c :| c in todo;
      var ch := grid[c];
      if ch in antennas {
        antennas := antennas[ch := antennas[ch] + [c]];
      } else {
        antennas := antennas[ch := [c]];
      }
      todo := todo - {c};
    }
  }

  /** `parse_antennas`: load the grid, keeping every character but '.', then
      group the antennas by frequency. */
  method ParseAntennas(lines: seq<string>) returns (size: Coord, antennas: Groups)
    ensures Parsed(lines, size, antennas)
  {
    var grid;
    size, grid := ParseWithCoords(lines, AntennaAt);
    antennas := Group(grid);
    forall c | InText(lines, c)
      ensures c in grid <==> CharAt(lines, c) != '.'
      ensures c in grid ==> grid[c] == CharAt(lines, c)
    {
      var r := AntennaAt(CharAt(lines, c));
    }
    forall c | c in grid {
      InMapIsInRect(c, size);
    }
    MapSizeOfParse(lines, size);
  }

  /** The size the grid loader reports is the text's `MapSize`. */
  lemma MapSizeOfParse(lines: seq<string>, size: Coord)
    requires size.y == if |lines| == 0 then 0 else |lines| - 1
    requires forall y :: 0 <= y < |lines| ==> |lines[y]| <= size.x + 1
    requires size.x == 0 || exists y :: 0 <= y < |lines| && |lines[y]| == size.x + 1
    requires size.x >= 0
    ensures size == MapSize(lines)
  {
  }

  /** The point beyond `a` at the distance from `b` to `a`: `a + (a - b)`. */
  function Beyond(a: Coord, b: Coord): (p: Coord)
    ensures Sub(p, a) == Sub(a, b)
  {
    Add(a, Sub(a, b))
  }

  /** The `k`-th point from `a` in steps of `a - b`. */
  function Harmonic(a: Coord, b: Coord, k: int): (p: Coord)
    ensures k == 0 ==> p == a
    ensures k == 1 ==> p == Beyond(a, b)
    ensures k == -1 ==> p == b
  {
    Add(a, Scale(Sub(a, b), k))
  }

  function InMapSet(size: Coord, p: Coord): (s: set<Coord>)
    ensures s <= {p}
    ensures p in s <==> InRect(p, Origin, size)
  {
    if InRect(p, Origin, size) then {p} else {}
  }

  /** Steps along a line never run further than this inside a map of the
      given size. */
  function Reach(size: Coord): int
  {
    size.x + size.y
  }

  /** The points `a + (a - b) * k`, k = 0, 1, 2, ..., that fall inside the map. */
  ghost function Line(size: Coord, a: Coord, b: Coord): set<Coord>
  {
    set k | 0 <= k <= Reach(size) && InRect(Harmonic(a, b, k), Origin, size) :: Harmonic(a, b, k)
  }

  /** What the pair `(a, b)` marks: in part 1 the points `a + dist` and
      `b - dist`; in part 2 the line from `a` on and `b` itself. */
  ghost function PairNodes(size: Coord, a: Coord, b: Coord, harmonics: bool): set<Coord>
  {
    if harmonics then Line(size, a, b) + InMapSet(size, Sub(b, Scale(Sub(a, b), 0)))
    else InMapSet(size, Add(a, Sub(a, b))) + InMapSet(size, Sub(b, Sub(a, b)))
  }

  /** The points marked by the pairs `(cs[i], cs[j])`, j < m, j != i. */
  ghost function RowNodes(size: Coord, cs: seq<Coord>, i: nat, m: nat, harmonics: bool): set<Coord>
    requires i < |cs| && m <= |cs|
  {
    if m == 0 then {}
    else (RowNodes(size, cs, i, m - 1, harmonics) +
          (if m - 1 != i then PairNodes(size, cs[i], cs[m - 1], harmonics) else {}))
  }

  /** The points marked by the pairs of `cs` whose first antenna comes before `n`. */
  ghost function GroupNodes(size: Coord, cs: seq<Coord>, n: nat, harmonics: bool): set<Coord>
    requires n <= |cs|
  {
    if n == 0 then {} else GroupNodes(size, cs, n - 1, harmonics) + RowNodes(size, cs, n - 1, |cs|, harmonics)
  }

  /** The points marked by the pairs of the frequencies in `done`. */
  ghost function Resonances(size: Coord, antennas: Groups, done: set<char>, harmonics: bool): set<Coord>
  {
    set ch, p | ch in done && ch in antennas && p in GroupNodes(size, antennas[ch], |antennas[ch]|, harmonics) :: p
  }

  /** One `(a, b)` pair of part 1. */
  method Resonate(size: Coord, a: Coord, b: Coord, resonances: set<Coord>) returns (resonances': set<Coord>)
    ensures resonances' == resonances + PairNodes(size, a, b, false)
  {
    resonances' := resonances;
    var dist := Sub(a, b);
    if InRect(Add(a, dist), Origin, size) {
      resonances' := resonances' + {Add(a, dist)};
    }
    if InRect(Sub(b, dist), Origin, size) {
      resonances' := resonances' + {Sub(b, dist)};
    }
  }

  /** Scaling a nonzero step by k >= 0 moves at least k in one of the axes. */
  lemma StepsApart(d: Coord, k: int)
    requires d != Origin && k >= 0
    ensures k <= Scale(d, k).x || k <= -Scale(d, k).x || k <= Scale(d, k).y || k <= -Scale(d, k).y
  {
    if d.x > 0 {
      assert d.x * k >= 1 * k;
    } else if d.x < 0 {
      assert (-d.x) * k >= 1 * k;
    } else if d.y > 0 {
      assert d.y * k >= 1 * k;
    } else {
      assert (-d.y) * k >= 1 * k;
    }
  }

  /** Inside the map, a line through two distinct points leaves after at most
      `Reach(size)` steps. */
  lemma WithinReach(size: Coord, a: Coord, b: Coord, k: int)
    requires a != b && k >= 0
    requires InRect(a, Origin, size) && InRect(Harmonic(a, b, k), Origin, size)
    ensures k <= Reach(size)
  {
    StepsApart(Sub(a, b), k);
  }

  /** Steps of one sign are monotone: between 0 and k steps lies everything
      between the start and the k-th point. */
  lemma ScaleBetween(d: int, i: int, k: int)
    requires 0 <= i <= k
    ensures (0 <= d * i <= d * k) || (d * k <= d * i <= 0)
  {
    if d >= 0 {
      assert d * i <= d * k by { assert d * (k - i) >= 0; }
    } else {
      assert d * i >= d * k by { assert (-d) * (k - i) >= 0; }
    }
  }

  /** The map is convex: if the start and the k-th point of a line are inside
      it, so is every point in between. */
  lemma LineConvex(size: Coord, a: Coord, b: Coord, i: int, k: int)
    requires 0 <= i <= k
    requires InRect(a, Origin, size) && InRect(Harmonic(a, b, k), Origin, size)
    ensures InRect(Harmonic(a, b, i), Origin, size)
  {
    ScaleBetween(a.x - b.x, i, k);
    ScaleBetween(a.y - b.y, i, k);
  }

  lemma LinePrefixStep(a: Coord, b: Coord, i: nat)
    ensures (set k | 0 <= k < i + 1 :: Harmonic(a, b, k)) == (set k | 0 <= k < i :: Harmonic(a, b, k)) + {Harmonic(a, b, i)}
  {
  }

  /** The `while` loop of part 2 for one pair `(a, b)`, then its `if` for `b`. */
  method Walk(size: Coord, a: Coord, b: Coord, resonances: set<Coord>) returns (resonances': set<Coord>)
    requires a != b && InRect(a, Origin, size)
    ensures resonances' == resonances + PairNodes(size, a, b, true)
  {
    resonances' := resonances;
    var dist := Sub(a, b);
    var i := 0;
    while InRect(Add(a, Scale(dist, i)), Origin, size)
      invariant 0 <= i <= Reach(size) + 1
      invariant resonances' == resonances + set k | 0 <= k < i :: Harmonic(a, b, k)
      invariant forall k | 0 <= k < i :: InRect(Harmonic(a, b, k), Origin, size)
      decreases Reach(size) + 1 - i
    {
      WithinReach(size, a, b, i);
      LinePrefixStep(a, b, i);
      resonances' := resonances' + {Add(a, Scale(dist, i))};
      i := i + 1;
    }
    assert (set k | 0 <= k < i :: Harmonic(a, b, k)) == Line(size, a, b) by {
      forall p | p in Line(size, a, b)
        ensures p in set k | 0 <= k < i :: Harmonic(a, b, k)
      {
        var k :| 0 <= k <= Reach(size) && InRect(Harmonic(a, b, k), Origin, size) && p == Harmonic(a, b, k);
        if k >= i {
          LineConvex(size, a, b, i, k);
          assert false;
        }
      }
      forall p | p in set k | 0 <= k < i :: Harmonic(a, b, k)
        ensures p in Line(size, a, b)
      {
        var k :| 0 <= k < i && p == Harmonic(a, b, k);
        assert 0 <= k <= Reach(size) && InRect(Harmonic(a, b, k), Origin, size);
      }
    }
    var j := 0;
    if InRect(Sub(b, Scale(dist, j)), Origin, size) {
      resonances' := resonances' + {Sub(b, Scale(dist, j))};
      j := j + 1;
    }
  }

  /** The pairs `(cs[i], cs[j])` of one row of `permutations(2)`. */
  method ResonateRow(size: Coord, cs: seq<Coord>, i: nat, harmonics: bool, resonances: set<Coord>)
    returns (resonances': set<Coord>)
    requires i < |cs|
    requires harmonics ==> NoRepeats(cs) && InRect(cs[i], Origin, size)
    ensures resonances' == resonances + RowNodes(size, cs, i, |cs|, harmonics)
  {
    resonances' := resonances;
    for j := 0 to |cs|
      invariant resonances' == resonances + RowNodes(size, cs, i, j, harmonics)
    {
      if j != i {
        if harmonics {
          resonances' := Walk(size, cs[i], cs[j], resonances');
        } else {
          resonances' := Resonate(size, cs[i], cs[j], resonances');
        }
      }
    }
  }

  /** All ordered pairs of distinct antennas of one frequency
      (`coords.iter().permutations(2)`). */
  method ResonateGroup(size: Coord, cs: seq<Coord>, harmonics: bool, resonances: set<Coord>)
    returns (resonances': set<Coord>)
    requires harmonics ==> NoRepeats(cs) && forall i | 0 <= i < |cs| :: InRect(cs[i], Origin, size)
    ensures resonances' == resonances + GroupNodes(size, cs, |cs|, harmonics)
  {
    resonances' := resonances;
    for i := 0 to |cs|
      invariant resonances' == resonances + GroupNodes(size, cs, i, harmonics)
    {
      resonances' := ResonateRow(size, cs, i, harmonics, resonances');
    }
  }

  lemma ResonancesStep(size: Coord, antennas: Groups, done: set<char>, ch: char, harmonics: bool)
    requires ch in antennas
    ensures Resonances(size, antennas, done + {ch}, harmonics) ==
      Resonances(size, antennas, done, harmonics) + GroupNodes(size, antennas[ch], |antennas[ch]|, harmonics)
  {
  }

  /** Both parts: every frequency's pairs mark their points in one set, whose
      size is the answer. The order of the frequencies is left open. */
  method CountResonances(size: Coord, antennas: Groups, harmonics: bool) returns (count: nat)
    requires harmonics ==> WellPlaced(size, antennas)
    ensures count == |Resonances(size, antennas, antennas.Keys, harmonics)|
  {
    var resonances := {};
    var todo := antennas.Keys;
    while todo != {}
      invariant todo <= antennas.Keys
      invariant resonances == Resonances(size, antennas, antennas.Keys - todo, harmonics)
      decreases |todo|
    {
      var ch :| ch in todo;
      ResonancesStep(size, antennas, antennas.Keys - todo, ch, harmonics);
      resonances := ResonateGroup(size, antennas[ch], harmonics, resonances);
      assert antennas.Keys - (todo - {ch}) == (antennas.Keys - todo) + {ch};
      todo := todo - {ch};
    }
    assert antennas.Keys - todo == antennas.Keys;
    count := |resonances|;
  }

  /** The widest line's length. */
  function Width(lines: seq<string>): (w: nat)
    ensures forall y | 0 <= y < |lines| :: |lines[y]| <= w
    ensures w == 0 || exists y | 0 <= y < |lines| :: |lines[y]| == w
  {
    if |lines| == 0 then 0
    else
      var w := Width(lines[..|lines| - 1]);
      if |lines[|lines| - 1]| > w then |lines[|lines| - 1]| else w
  }

  /** The largest column and line index of a text, each 0 when there is none. */
  function MapSize(lines: seq<string>): Coord
  {
    Coord(if Width(lines) == 0 then 0 else Width(lines) - 1, if |lines| == 0 then 0 else |lines| - 1)
  }

  /** Two different cells holding the same antenna frequency. */
  ghost predicate SameFrequency(lines: seq<string>, a: Coord, b: Coord)
  {
    a != b && InText(lines, a) && InText(lines, b) && CharAt(lines, a) != '.' && CharAt(lines, a) == CharAt(lines, b)
  }

  /** The puzzle's antinodes: in part 1 a point twice as far from one antenna
      as from another of the same frequency, on their line; in part 2 any
      point of that line at a whole multiple of their distance. */
  ghost predicate IsAntinode(lines: seq<string>, p: Coord, harmonics: bool)
  {
    if harmonics then exists a, b, k :: SameFrequency(lines, a, b) && p == Harmonic(a, b, k)
    else exists a, b :: SameFrequency(lines, a, b) && p == Beyond(a, b)
  }

  /** The antinodes inside the map. */
  ghost function Antinodes(lines: seq<string>, harmonics: bool): set<Coord>
  {
    var size := MapSize(lines);
    set x, y | 0 <= x <= size.x && 0 <= y <= size.y && IsAntinode(lines, Coord(x, y), harmonics) :: Coord(x, y)
  }

  /** What `parse_antennas` returns for a text. */
  ghost predicate Parsed(lines: seq<string>, size: Coord, antennas: Groups)
  {
    && size == MapSize(lines)
    && WellPlaced(size, antennas)
    && forall ch, c :: (ch in antennas && c in antennas[ch]) <==>
      (InText(lines, c) && CharAt(lines, c) == ch && ch != '.')
  }

  lemma {:induction false} RowMember(size: Coord, cs: seq<Coord>, i: nat, m: nat, harmonics: bool, p: Coord)
    requires i < |cs| && m <= |cs|
    ensures p in RowNodes(size, cs, i, m, harmonics) <==>
      exists j | 0 <= j < m && j != i :: p in PairNodes(size, cs[i], cs[j], harmonics)
  {
    if m > 0 {
      RowMember(size, cs, i, m - 1, harmonics, p);
    }
  }

  lemma {:induction false} GroupMember(size: Coord, cs: seq<Coord>, n: nat, harmonics: bool, p: Coord)
    requires n <= |cs|
    ensures p in GroupNodes(size, cs, n, harmonics) <==>
      exists i, j | 0 <= i < n && 0 <= j < |cs| && i != j :: p in PairNodes(size, cs[i], cs[j], harmonics)
  {
    if n > 0 {
      GroupMember(size, cs, n - 1, harmonics, p);
      RowMember(size, cs, n - 1, |cs|, harmonics, p);
      if p in GroupNodes(size, cs, n, harmonics) {
        if p in RowNodes(size, cs, n - 1, |cs|, harmonics) {
          var j :| 0 <= j < |cs| && j != n - 1 && p in PairNodes(size, cs[n - 1], cs[j], harmonics);
        } else {
          var i, j :| 0 <= i < n - 1 && 0 <= j < |cs| && i != j && p in PairNodes(size, cs[i], cs[j], harmonics);
        }
      }
      if exists i, j | 0 <= i < n && 0 <= j < |cs| && i != j :: p in PairNodes(size, cs[i], cs[j], harmonics) {
        var i, j :| 0 <= i < n && 0 <= j < |cs| && i != j && p in PairNodes(size, cs[i], cs[j], harmonics);
        if i == n - 1 {
          assert p in RowNodes(size, cs, n - 1, |cs|, harmonics);
        } else {
          assert p in GroupNodes(size, cs, n - 1, harmonics);
        }
      }
    }
  }

  /** Part 1's pair `(a, b)` marks `a`'s far point and `b`'s far point. */
  lemma PairMember1(size: Coord, a: Coord, b: Coord, p: Coord)
    ensures p in PairNodes(size, a, b, false) <==>
      InRect(p, Origin, size) && (p == Beyond(a, b) || p == Beyond(b, a))
  {
  }

  /** Part 2's pair `(a, b)` marks the line from `a` away from `b`, and `b`. */
  lemma PairMember2(size: Coord, a: Coord, b: Coord, p: Coord)
    requires a != b && InRect(a, Origin, size)
    ensures p in PairNodes(size, a, b, true) <==>
      InRect(p, Origin, size) && ((exists k | k >= 0 :: p == Harmonic(a, b, k)) || p == b)
  {
    ScaleLaws(Sub(a, b), 0);
    if InRect(p, Origin, size) {
      if k :| k >= 0 && p == Harmonic(a, b, k) {
        WithinReach(size, a, b, k);
        assert p in Line(size, a, b);
      }
    }
  }

  /** Walking back from `a` past `b` is walking forward from `b` past `a`. */
  lemma HarmonicReversed(a: Coord, b: Coord, k: int)
    ensures Harmonic(a, b, k) == Harmonic(b, a, -k - 1)
  {
    assert (b.x - a.x) * (-k - 1) == (a.x - b.x) * k + (a.x - b.x);
    assert (b.y - a.y) * (-k - 1) == (a.y - b.y) * k + (a.y - b.y);
  }

  /** Part 1 over one frequency: the far points of its ordered pairs. */
  lemma GroupAntinodes1(size: Coord, cs: seq<Coord>, p: Coord)
    ensures p in GroupNodes(size, cs, |cs|, false) <==> (InRect(p, Origin, size) &&
      exists i, j | 0 <= i < |cs| && 0 <= j < |cs| && i != j :: p == Beyond(cs[i], cs[j]))
  {
    GroupMember(size, cs, |cs|, false, p);
    forall i, j | 0 <= i < |cs| && 0 <= j < |cs| && i != j
      ensures p in PairNodes(size, cs[i], cs[j], false) <==>
        InRect(p, Origin, size) && (p == Beyond(cs[i], cs[j]) || p == Beyond(cs[j], cs[i]))
    {
      PairMember1(size, cs[i], cs[j], p);
    }
  }

  /** Part 2 over one frequency: every whole multiple, on either side, of every
      pair's distance. */
  lemma GroupAntinodes2(size: Coord, cs: seq<Coord>, p: Coord)
    requires NoRepeats(cs) && forall i | 0 <= i < |cs| :: InRect(cs[i], Origin, size)
    ensures p in GroupNodes(size, cs, |cs|, true) <==> (InRect(p, Origin, size) &&
      exists i, j, k | 0 <= i < |cs| && 0 <= j < |cs| && i != j :: p == Harmonic(cs[i], cs[j], k))
  {
    GroupMember(size, cs, |cs|, true, p);
    if p in GroupNodes(size, cs, |cs|, true) {
      var i, j :| 0 <= i < |cs| && 0 <= j < |cs| && i != j && p in PairNodes(size, cs[i], cs[j], true);
      MarkedIsHarmonic(size, cs[i], cs[j], p);
      var k :| p == Harmonic(cs[i], cs[j], k);
    }
    if InRect(p, Origin, size) && exists i, j, k | 0 <= i < |cs| && 0 <= j < |cs| && i != j :: p == Harmonic(cs[i], cs[j], k) {
      var i, j, k :| 0 <= i < |cs| && 0 <= j < |cs| && i != j && p == Harmonic(cs[i], cs[j], k);
      HarmonicInGroup(size, cs, i, j, k, p);
    }
  }

  lemma HarmonicInGroup(size: Coord, cs: seq<Coord>, i: nat, j: nat, k: int, p: Coord)
    requires NoRepeats(cs) && forall i | 0 <= i < |cs| :: InRect(cs[i], Origin, size)
    requires i < |cs| && j < |cs| && i != j
    requires p == Harmonic(cs[i], cs[j], k) && InRect(p, Origin, size)
    ensures p in GroupNodes(size, cs, |cs|, true)
  {
    GroupMember(size, cs, |cs|, true, p);
    if k < 0 {
      HarmonicReversed(cs[i], cs[j], k);
      HarmonicIsMarked(size, cs[j], cs[i], -k - 1, p);
    } else {
      HarmonicIsMarked(size, cs[i], cs[j], k, p);
    }
  }

  lemma MarkedIsHarmonic(size: Coord, a: Coord, b: Coord, p: Coord)
    requires a != b && InRect(a, Origin, size)
    requires p in PairNodes(size, a, b, true)
    ensures InRect(p, Origin, size) && exists k :: p == Harmonic(a, b, k)
  {
    PairMember2(size, a, b, p);
    if p == b {
      assert p == Harmonic(a, b, -1);
    }
  }

  lemma HarmonicIsMarked(size: Coord, a: Coord, b: Coord, k: int, p: Coord)
    requires a != b && InRect(a, Origin, size) && k >= 0
    requires p == Harmonic(a, b, k) && InRect(p, Origin, size)
    ensures p in PairNodes(size, a, b, true)
  {
    PairMember2(size, a, b, p);
  }

  /** Every frequency's pairs together. */
  lemma ResonancesMember(size: Coord, antennas: Groups, p: Coord)
    ensures p in Resonances(size, antennas, antennas.Keys, false) <==> (InRect(p, Origin, size) &&
      exists ch, i, j | ch in antennas && 0 <= i < |antennas[ch]| && 0 <= j < |antennas[ch]| && i != j ::
        p == Beyond(antennas[ch][i], antennas[ch][j]))
  {
    forall ch | ch in antennas {
      GroupAntinodes1(size, antennas[ch], p);
    }
  }

  lemma ResonancesMember2(size: Coord, antennas: Groups, p: Coord)
    requires WellPlaced(size, antennas)
    ensures p in Resonances(size, antennas, antennas.Keys, true) <==> (InRect(p, Origin, size) &&
      exists ch, i, j, k | ch in antennas && 0 <= i < |antennas[ch]| && 0 <= j < |antennas[ch]| && i != j ::
        p == Harmonic(antennas[ch][i], antennas[ch][j], k))
  {
    forall ch | ch in antennas {
      GroupAntinodes2(size, antennas[ch], p);
    }
  }

  /** Ordered pairs of distinct positions of a frequency's list are exactly
      the pairs of different cells holding that frequency. */
  lemma PairsAreSameFrequency(lines: seq<string>, size: Coord, antennas: Groups, a: Coord, b: Coord)
    requires Parsed(lines, size, antennas)
    ensures SameFrequency(lines, a, b) <==>
      exists ch, i, j | ch in antennas && 0 <= i < |antennas[ch]| && 0 <= j < |antennas[ch]| && i != j ::
        a == antennas[ch][i] && b == antennas[ch][j]
  {
    if SameFrequency(lines, a, b) {
      var ch := CharAt(lines, a);
      assert ch in antennas && a in antennas[ch] && b in antennas[ch];
      var i :| 0 <= i < |antennas[ch]| && antennas[ch][i] == a;
      var j :| 0 <= j < |antennas[ch]| && antennas[ch][j] == b;
    }
    if exists ch, i, j | ch in antennas && 0 <= i < |antennas[ch]| && 0 <= j < |antennas[ch]| && i != j ::
        a == antennas[ch][i] && b == antennas[ch][j] {
      var ch, i, j :| ch in antennas && 0 <= i < |antennas[ch]| && 0 <= j < |antennas[ch]| && i != j &&
        a == antennas[ch][i] && b == antennas[ch][j];
      assert a in antennas[ch] && b in antennas[ch];
    }
  }

  /** The points the loops mark are the antinodes of the text. */
  lemma ResonancesAreAntinodes(lines: seq<string>, size: Coord, antennas: Groups, harmonics: bool)
    requires Parsed(lines, size, antennas)
    ensures Resonances(size, antennas, antennas.Keys, harmonics) == Antinodes(lines, harmonics)
  {
    forall p
      ensures p in Resonances(size, antennas, antennas.Keys, harmonics) <==> p in Antinodes(lines, harmonics)
    {
      forall a, b {
        PairsAreSameFrequency(lines, size, antennas, a, b);
      }
      if harmonics {
        ResonancesMember2(size, antennas, p);
      } else {
        ResonancesMember(size, antennas, p);
      }
      assert p in Antinodes(lines, harmonics) <==>
        InRect(p, Origin, size) && IsAntinode(lines, Coord(p.x, p.y), harmonics);
    }
  }

  /** `part1`: the number of antinodes inside the map. */
  method Part1(lines: seq<string>) returns (count: nat)
    ensures count == |Antinodes(lines, false)|
  {
    var size, antennas := ParseAntennas(lines);
    count := CountResonances(size, antennas, false);
    ResonancesAreAntinodes(lines, size, antennas, false);
  }

  /** `part2`: the number of antinodes, counting resonant harmonics, inside the map. */
  method Part2(lines: seq<string>) returns (count: nat)
    ensures count == |Antinodes(lines, true)|
  {
    var size, antennas := ParseAntennas(lines);
    count := CountResonances(size, antennas, true);
    ResonancesAreAntinodes(lines, size, antennas, true);
  }

  /** Part 1's antinodes are part 2's (the multiple 1), and part 2 marks
      every antenna that shares its frequency (the multiple 0). */
  lemma HarmonicsInclude(lines: seq<string>, a: Coord, b: Coord, p: Coord)
    ensures IsAntinode(lines, p, false) ==> IsAntinode(lines, p, true)
    ensures SameFrequency(lines, a, b) ==> IsAntinode(lines, a, true) && IsAntinode(lines, b, true)
  {
    if IsAntinode(lines, p, false) {
      var a', b' :| SameFrequency(lines, a', b') && p == Beyond(a', b');
      assert p == Harmonic(a', b', 1);
    }
    if SameFrequency(lines, a, b) {
      assert a == Harmonic(a, b, 0) && b == Harmonic(a, b, -1);
    }
  }
}
