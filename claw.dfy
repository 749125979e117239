/** Claw machines: each machine has two buttons that move the claw by fixed
    offsets, and a prize location.  A machine is won by pressing button A `a`
    times and button B `b` times so that the claw lands exactly on the prize;
    A costs 3 tokens and B costs 1.  The program solves the 2x2 linear system
    by Cramer's rule in 64-bit signed integers. */
module Claw {
  import opened Util

  /** Button A moves (aX, aY), button B moves (bX, bY), the prize is at
      (pX, pY).  In the program's arrays, coefficients[0] is button A,
      coefficients[1] is button B and constants is the prize. */
  datatype Machine = Machine(aX: int, aY: int, bX: int, bY: int, pX: int, pY: int)

  /** `a` presses of A and `b` presses of B land exactly on the prize. */
  predicate Solves(m: Machine, a: int, b: int)
  {
    a * m.aX + b * m.bX == m.pX && a * m.aY + b * m.bY == m.pY
  }

  function Abs(x: int): nat
  {
    if x < 0 then -x else x
  }

  /** Signed integer division as the program's `/` performs it: the quotient
      is truncated toward zero, so the remainder is never larger than the
      divisor and has the sign of the dividend. */
  function DivT(x: int, d: int): (q: int)
    requires d != 0
    ensures Abs(x - d * q) < Abs(d)
    ensures x - d * q == 0 || (x - d * q > 0 <==> x > 0)
  {
    if x >= 0 && d > 0 then x / d
    else if x >= 0 then -(x / -d)
    else if d > 0 then -((-x) / d)
    else (-x) / (-d)
  }

  /** Signed remainder as the program's `%` performs it. */
  function RemT(x: int, d: int): int
    requires d != 0
  {
    x - d * DivT(x, d)
  }

  lemma AbsMul(d: int, k: int)
    requires d != 0 && k != 0
    ensures Abs(d * k) >= Abs(d)
  {
    if d > 0 && k > 0 {
      assert d * k == d * (k - 1) + d;
    } else if d > 0 {
      assert d * k == -(d * (-k - 1)) - d;
    } else if k > 0 {
      assert d * k == -((-d) * (k - 1)) + d;
    } else {
      assert d * k == (-d) * (-k - 1) - d;
    }
  }

  /** Dividing an exact multiple gives back the factor, with no remainder,
      whatever the signs. */
  lemma DivTMultiple(q: int, d: int)
    requires d != 0
    ensures DivT(d * q, d) == q
    ensures RemT(d * q, d) == 0
  {
    var t := DivT(d * q, d);
    assert d * q - d * t == d * (q - t);
    SmallMultiple(d, q - t);
  }

  /** A multiple of d smaller than d in magnitude is zero. */
  lemma SmallMultiple(d: int, k: int)
    requires d != 0 && Abs(d * k) < Abs(d)
    ensures k == 0
  {
    if k != 0 {
      AbsMul(d, k);
    }
  }

  /** The determinant of the system (Machine::determinant). */
  function Determinant(m: Machine): int
  {
    m.aX * m.bY - m.bX * m.aY
  }

  /** Cramer's numerators for the presses of A and of B. */
  function NumA(m: Machine): int
  {
    m.pX * m.bY - m.pY * m.bX
  }

  function NumB(m: Machine): int
  {
    m.aX * m.pY - m.aY * m.pX
  }

  /** Every solution satisfies Cramer's equations. */
  lemma Cramer(m: Machine, a: int, b: int)
    requires Solves(m, a, b)
    ensures NumA(m) == Determinant(m) * a
    ensures NumB(m) == Determinant(m) * b
  {
    CramerA(m.aX, m.aY, m.bX, m.bY, a, b);
    CramerB(m.aX, m.aY, m.bX, m.bY, a, b);
  }

  lemma CramerA(aX: int, aY: int, bX: int, bY: int, a: int, b: int)
    ensures (a * aX + b * bX) * bY - (a * aY + b * bY) * bX == (aX * bY - bX * aY) * a
  {
  }

  lemma CramerB(aX: int, aY: int, bX: int, bY: int, a: int, b: int)
    ensures aX * (a * aY + b * bY) - aY * (a * aX + b * bX) == (aX * bY - bX * aY) * b
  {
  }

  /** Conversely, when the determinant is not zero, presses that satisfy
      Cramer's equations land on the prize. */
  lemma CramerConverse(m: Machine, a: int, b: int)
    requires Determinant(m) != 0
    requires NumA(m) == Determinant(m) * a
    requires NumB(m) == Determinant(m) * b
    ensures Solves(m, a, b)
  {
    var d := Determinant(m);
    Distribute(d, a, b, m.aX, m.bX);
    Distribute(d, a, b, m.aY, m.bY);
    ConverseX(m.aX, m.aY, m.bX, m.bY, m.pX, m.pY);
    ConverseY(m.aX, m.aY, m.bX, m.bY, m.pX, m.pY);
    CancelFactor(d, a * m.aX + b * m.bX, m.pX);
    CancelFactor(d, a * m.aY + b * m.bY, m.pY);
  }

  lemma Distribute(d: int, a: int, b: int, x: int, y: int)
    ensures d * (a * x + b * y) == x * (d * a) + y * (d * b)
  {
  }

  lemma ConverseX(aX: int, aY: int, bX: int, bY: int, pX: int, pY: int)
    ensures aX * (pX * bY - pY * bX) + bX * (aX * pY - aY * pX) == (aX * bY - bX * aY) * pX
  {
  }

  lemma ConverseY(aX: int, aY: int, bX: int, bY: int, pX: int, pY: int)
    ensures aY * (pX * bY - pY * bX) + bY * (aX * pY - aY * pX) == (aX * bY - bX * aY) * pY
  {
  }

  lemma CancelFactor(d: int, x: int, y: int)
    requires d != 0 && d * x == d * y
    ensures x == y
  {
    assert d * (x - y) == 0;
  }

  /** Machine::solve: the presses given by Cramer's rule when the determinant
      is not zero and both numerators divide exactly. */
  function Solve(m: Machine): (r: Option<(int, int)>)
    ensures r.Some? ==> Solves(m, r.value.0, r.value.1)
    ensures Determinant(m) == 0 ==> r.None?
  {
    var det := Determinant(m);
    if det == 0 then None
    else if RemT(NumA(m), det) != 0 || RemT(NumB(m), det) != 0 then None
    else
      CramerConverse(m, DivT(NumA(m), det), DivT(NumB(m), det));
      Some((DivT(NumA(m), det), DivT(NumB(m), det)))
  }

  /** With a non-zero determinant a machine has at most one solution. */
  lemma SolutionUnique(m: Machine, a: int, b: int, a': int, b': int)
    requires Determinant(m) != 0
    requires Solves(m, a, b) && Solves(m, a', b')
    ensures a == a' && b == b'
  {
    Cramer(m, a, b);
    Cramer(m, a', b');
    CancelFactor(Determinant(m), a, a');
    CancelFactor(Determinant(m), b, b');
  }

  /** With a non-zero determinant, whenever the prize can be reached at all
      (with any integer press counts) Solve finds those presses. */
  lemma SolveComplete(m: Machine, a: int, b: int)
    requires Determinant(m) != 0
    requires Solves(m, a, b)
    ensures Solve(m) == Some((a, b))
  {
    Cramer(m, a, b);
    DivTMultiple(a, Determinant(m));
    DivTMultiple(b, Determinant(m));
  }

  /** A machine whose buttons move along the same line is never solved, even
      when its prize is reachable: here one press of each button reaches it. */
  lemma SingularMachineIgnored()
    ensures Solves(Machine(1, 1, 2, 2, 3, 3), 1, 1)
    ensures Solve(Machine(1, 1, 2, 2, 3, 3)) == None
  {
  }

  /** The four systems of the program's unit test test_solve_les. */
  lemma SolveExamples()
    ensures Solve(Machine(94, 34, 22, 67, 8400, 5400)) == Some((80, 40))
    ensures Solve(Machine(26, 66, 67, 21, 12748, 12176)) == None
    ensures Solve(Machine(17, 86, 84, 37, 7870, 6450)) == Some((38, 86))
    ensures Solve(Machine(69, 23, 27, 71, 18641, 10279)) == None
  {
    SolveComplete(Machine(94, 34, 22, 67, 8400, 5400), 80, 40);
    SolveComplete(Machine(17, 86, 84, 37, 7870, 6450), 38, 86);
  }

  // ---------------------------------------------------------------------
  // Part 1: presses below 100, summed over all machines.

  /** Tokens spent by a and b presses. */
  function Tokens(a: int, b: int): int
  {
    3 * a + b
  }

  /** The amount the program's part-1 fold adds for one machine, exactly as
      written: the presses are bounded above by 100 but not below by 0. */
  function Prize1AsWritten(m: Machine): (t: int)
    ensures t != 0 ==> exists a, b :: a < 100 && b < 100 && Solves(m, a, b) && t == Tokens(a, b)
  {
    match Solve(m)
    case None => 0
    case Some((a, b)) => if a < 100 && b < 100 then Tokens(a, b) else 0
  }

  function Part1AsWritten(ms: seq<Machine>): int
  {
    if ms == [] then 0 else Part1AsWritten(ms[..|ms| - 1]) + Prize1AsWritten(ms[|ms| - 1])
  }

  /** The machine A=(1,2), B=(2,1), prize (1,5) is reached only by 3 presses
      of A and -1 presses of B; the program as written counts 8 tokens for it,
      although it cannot be won. */
  lemma NegativePressesCounted()
    ensures Solve(Machine(1, 2, 2, 1, 1, 5)) == Some((3, -1))
    ensures Part1AsWritten([Machine(1, 2, 2, 1, 1, 5)]) == 8
    ensures forall a, b :: Solves(Machine(1, 2, 2, 1, 1, 5), a, b) ==> b < 0
    ensures Part1([Machine(1, 2, 2, 1, 1, 5)]) == 0
  {
    var m := Machine(1, 2, 2, 1, 1, 5);
    assert Solves(m, 3, -1);
    SolveComplete(m, 3, -1);
    forall a, b | Solves(m, a, b) ensures b < 0 {
      SolutionUnique(m, a, b, 3, -1);
    }
    assert [m][..0] == [];
  }

  /** A machine that can be won with fewer than 100 presses of each button:
      the number of tokens spent, 0 otherwise. */
  function Prize1(m: Machine): (t: nat)
    ensures t <= Tokens(99, 99)
    ensures t != 0 ==> exists a, b :: 0 <= a < 100 && 0 <= b < 100 && Solves(m, a, b) && t == Tokens(a, b)
  {
    match Solve(m)
    case None => 0
    case Some((a, b)) => if 0 <= a < 100 && 0 <= b < 100 then Tokens(a, b) else 0
  }

  /** Every winnable machine of a regular system is counted at its cost. */
  lemma Prize1Complete(m: Machine, a: int, b: int)
    requires Determinant(m) != 0
    requires Solves(m, a, b) && 0 <= a < 100 && 0 <= b < 100
    ensures Prize1(m) == Tokens(a, b)
  {
    SolveComplete(m, a, b);
  }

  /** The part-1 answer: tokens summed over all machines. */
  function Part1(ms: seq<Machine>): (total: nat)
    ensures total <= Tokens(99, 99) * |ms|
  {
    if ms == [] then 0 else Part1(ms[..|ms| - 1]) + Prize1(ms[|ms| - 1])
  }

  // ---------------------------------------------------------------------
  // Part 2: the prize is moved 10^13 further along both axes and the
  // presses are unbounded.

  const Offset: int := 10000000000000

  function Shift(m: Machine): Machine
  {
    m.(pX := m.pX + Offset, pY := m.pY + Offset)
  }

  function Prize2AsWritten(m: Machine): (t: int)
    ensures t != 0 ==> exists a, b :: Solves(Shift(m), a, b) && t == Tokens(a, b)
  {
    match Solve(Shift(m))
    case None => 0
    case Some((a, b)) => Tokens(a, b)
  }

  function Part2AsWritten(ms: seq<Machine>): int
  {
    if ms == [] then 0 else Part2AsWritten(ms[..|ms| - 1]) + Prize2AsWritten(ms[|ms| - 1])
  }

  /** A=(1,2), B=(2,1) with the prize at (0, 10^13 + 3): after the shift the
      only solution presses B -1 times, and the program as written still adds
      its 3 * (10^13 + 2) - 1 tokens. */
  lemma NegativePressesCounted2()
    ensures Solve(Shift(Machine(1, 2, 2, 1, 0, Offset + 3))) == Some((Offset + 2, -1))
    ensures Part2AsWritten([Machine(1, 2, 2, 1, 0, Offset + 3)]) == 3 * (Offset + 2) - 1
    ensures Shift(Machine(1, 2, 2, 1, 0, Offset + 3)) == Machine(1, 2, 2, 1, 10000000000000, 20000000000003)
    ensures forall a, b :: Solves(Machine(1, 2, 2, 1, 10000000000000, 20000000000003), a, b) ==> b < 0
    ensures Part2([Machine(1, 2, 2, 1, 0, Offset + 3)]) == 0
  {
    var m := Shift(Machine(1, 2, 2, 1, 0, Offset + 3));
    assert Solves(m, Offset + 2, -1);
    SolveComplete(m, Offset + 2, -1);
    forall a, b | Solves(m, a, b) ensures b < 0 {
      SolutionUnique(m, a, b, Offset + 2, -1);
    }
    assert [Machine(1, 2, 2, 1, 0, Offset + 3)][..0] == [];
  }

  /** A machine whose shifted prize can be won: the tokens spent. */
  function Prize2(m: Machine): (t: nat)
    ensures t != 0 ==> exists a, b :: 0 <= a && 0 <= b && Solves(Shift(m), a, b) && t == Tokens(a, b)
  {
    match Solve(Shift(m))
    case None => 0
    case Some((a, b)) => if 0 <= a && 0 <= b then Tokens(a, b) else 0
  }

  lemma Prize2Complete(m: Machine, a: int, b: int)
    requires Determinant(m) != 0
    requires Solves(Shift(m), a, b) && 0 <= a && 0 <= b
    ensures Prize2(m) == Tokens(a, b)
  {
    assert Determinant(Shift(m)) == Determinant(m);
    SolveComplete(Shift(m), a, b);
  }

  function Part2(ms: seq<Machine>): nat
  {
    if ms == [] then 0 else Part2(ms[..|ms| - 1]) + Prize2(ms[|ms| - 1])
  }

  /** The four machines of the program's examples. */
  const Examples: seq<Machine> := [
    Machine(94, 34, 22, 67, 8400, 5400),
    Machine(26, 66, 67, 21, 12748, 12176),
    Machine(17, 86, 84, 37, 7870, 6450),
    Machine(69, 23, 27, 71, 18641, 10279)
  ]

  /** The program's example test for part 1: 480 tokens.  No machine there
      needs a negative press, so the corrected total agrees. */
  lemma Part1Example()
    ensures Part1AsWritten(Examples) == 480 && Part1(Examples) == 480
  {
    SolveExamples();
    assert Prize1(Examples[0]) == Prize1AsWritten(Examples[0]) == 280;
    assert Prize1(Examples[1]) == Prize1AsWritten(Examples[1]) == 0;
    assert Prize1(Examples[2]) == Prize1AsWritten(Examples[2]) == 200;
    assert Prize1(Examples[3]) == Prize1AsWritten(Examples[3]) == 0;
    Part1Total(Examples);
  }

  lemma Part1Total(ms: seq<Machine>)
    requires |ms| == 4
    requires Prize1(ms[0]) == Prize1AsWritten(ms[0]) == 280 && Prize1(ms[1]) == Prize1AsWritten(ms[1]) == 0
    requires Prize1(ms[2]) == Prize1AsWritten(ms[2]) == 200 && Prize1(ms[3]) == Prize1AsWritten(ms[3]) == 0
    ensures Part1AsWritten(ms) == 480 && Part1(ms) == 480
  {
    Part1OfFour(ms);
    Part1AsWrittenOfFour(ms);
  }

  /** The program's example test for part 2: 875318608908 tokens, spent on
      the second and the fourth machine. */
  lemma Part2Example()
    ensures Part2AsWritten(Examples) == 875318608908 && Part2(Examples) == 875318608908
  {
    Prize2Example0();
    Prize2Example1();
    Prize2Example2();
    Prize2Example3();
    Part2Total(Examples);
  }

  lemma Part2Total(ms: seq<Machine>)
    requires |ms| == 4
    requires Prize2(ms[0]) == Prize2AsWritten(ms[0]) == 0
    requires Prize2(ms[1]) == Prize2AsWritten(ms[1]) == 459236326669
    requires Prize2(ms[2]) == Prize2AsWritten(ms[2]) == 0
    requires Prize2(ms[3]) == Prize2AsWritten(ms[3]) == 416082282239
    ensures Part2AsWritten(ms) == 875318608908 && Part2(ms) == 875318608908
  {
    Part2OfFour(ms);
    Part2AsWrittenOfFour(ms);
  }

  lemma Prize2Example0()
    ensures Prize2(Examples[0]) == Prize2AsWritten(Examples[0]) == 0
  {
    assert Solve(Shift(Examples[0])).None?;
  }

  lemma Prize2Example1()
    ensures Prize2(Examples[1]) == Prize2AsWritten(Examples[1]) == 459236326669
  {
    SolveComplete(Shift(Examples[1]), 118679050709, 103199174542);
  }

  lemma Prize2Example2()
    ensures Prize2(Examples[2]) == Prize2AsWritten(Examples[2]) == 0
  {
    assert Solve(Shift(Examples[2])).None?;
  }

  lemma Prize2Example3()
    ensures Prize2(Examples[3]) == Prize2AsWritten(Examples[3]) == 416082282239
  {
    SolveComplete(Shift(Examples[3]), 102851800151, 107526881786);
  }

  lemma Part1OfFour(ms: seq<Machine>)
    requires |ms| == 4
    ensures Part1(ms) == Prize1(ms[0]) + Prize1(ms[1]) + Prize1(ms[2]) + Prize1(ms[3])
  {
    var p3, p2, p1 := ms[..3], ms[..2], ms[..1];
    assert Part1(ms) == Part1(p3) + Prize1(ms[3]);
    assert p3[..2] == p2 && p3[2] == ms[2];
    assert Part1(p3) == Part1(p2) + Prize1(ms[2]);
    assert p2[..1] == p1 && p2[1] == ms[1];
    assert Part1(p2) == Part1(p1) + Prize1(ms[1]);
    assert p1[..0] == [] && p1[0] == ms[0];
    assert Part1(p1) == Part1([]) + Prize1(ms[0]);
  }

  lemma Part1AsWrittenOfFour(ms: seq<Machine>)
    requires |ms| == 4
    ensures Part1AsWritten(ms) == Prize1AsWritten(ms[0]) + Prize1AsWritten(ms[1]) + Prize1AsWritten(ms[2]) + Prize1AsWritten(ms[3])
  {
    var p3, p2, p1 := ms[..3], ms[..2], ms[..1];
    assert Part1AsWritten(ms) == Part1AsWritten(p3) + Prize1AsWritten(ms[3]);
    assert p3[..2] == p2 && p3[2] == ms[2];
    assert Part1AsWritten(p3) == Part1AsWritten(p2) + Prize1AsWritten(ms[2]);
    assert p2[..1] == p1 && p2[1] == ms[1];
    assert Part1AsWritten(p2) == Part1AsWritten(p1) + Prize1AsWritten(ms[1]);
    assert p1[..0] == [] && p1[0] == ms[0];
    assert Part1AsWritten(p1) == Part1AsWritten([]) + Prize1AsWritten(ms[0]);
  }

  lemma Part2OfFour(ms: seq<Machine>)
    requires |ms| == 4
    ensures Part2(ms) == Prize2(ms[0]) + Prize2(ms[1]) + Prize2(ms[2]) + Prize2(ms[3])
  {
    var p3, p2, p1 := ms[..3], ms[..2], ms[..1];
    assert Part2(ms) == Part2(p3) + Prize2(ms[3]);
    assert p3[..2] == p2 && p3[2] == ms[2];
    assert Part2(p3) == Part2(p2) + Prize2(ms[2]);
    assert p2[..1] == p1 && p2[1] == ms[1];
    assert Part2(p2) == Part2(p1) + Prize2(ms[1]);
    assert p1[..0] == [] && p1[0] == ms[0];
    assert Part2(p1) == Part2([]) + Prize2(ms[0]);
  }

  lemma Part2AsWrittenOfFour(ms: seq<Machine>)
    requires |ms| == 4
    ensures Part2AsWritten(ms) == Prize2AsWritten(ms[0]) + Prize2AsWritten(ms[1]) + Prize2AsWritten(ms[2]) + Prize2AsWritten(ms[3])
  {
    var p3, p2, p1 := ms[..3], ms[..2], ms[..1];
    assert Part2AsWritten(ms) == Part2AsWritten(p3) + Prize2AsWritten(ms[3]);
    assert p3[..2] == p2 && p3[2] == ms[2];
    assert Part2AsWritten(p3) == Part2AsWritten(p2) + Prize2AsWritten(ms[2]);
    assert p2[..1] == p1 && p2[1] == ms[1];
    assert Part2AsWritten(p2) == Part2AsWritten(p1) + Prize2AsWritten(ms[1]);
    assert p1[..0] == [] && p1[0] == ms[0];
    assert Part2AsWritten(p1) == Part2AsWritten([]) + Prize2AsWritten(ms[0]);
  }
}
