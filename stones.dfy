/** Plutonian pebbles: a row of numbered stones changes every time one
    blinks.  A stone engraved 0 becomes 1; a stone with an even number of
    decimal digits splits into its left and right halves; any other stone is
    multiplied by 2024.  The program counts the stones after a number of
    blinks, one stone at a time, with a memo table keyed by (stone, blinks
    remaining). */
module Stones {

  /** What one stone becomes after one blink (the program's Blink enum). */
  datatype Blink = Single(stone: nat) | Split(left: nat, right: nat)

  function Pow10(k: nat): (p: nat)
    ensures p >= 1
  {
    if k == 0 then 1 else 10 * Pow10(k - 1)
  }

  lemma Pow10Add(i: nat, j: nat)
    ensures Pow10(i + j) == Pow10(i) * Pow10(j)
  {
    if i > 0 {
      Pow10Add(i - 1, j);
    }
  }

  /** The number of decimal digits of s, with 0 counted as one digit:
      checked_ilog10 gives None on 0, which the program reads as 0. */
  function NumDigits(s: nat): (n: nat)
    ensures n >= 1
    ensures s < Pow10(n)
    ensures s >= 10 ==> Pow10(n - 1) <= s
  {
    if s < 10 then 1 else 1 + NumDigits(s / 10)
  }

  /** The digit count is characterised by the power-of-ten bounds. */
  lemma {:induction false} NumDigitsBetween(s: nat, n: nat)
    requires n >= 1 && Pow10(n - 1) <= s < Pow10(n)
    ensures NumDigits(s) == n
    decreases n
  {
    if n > 1 {
      assert Pow10(n - 1) == 10 * Pow10(n - 2);
      assert s >= 10;
      NumDigitsBetween(s / 10, n - 1);
    }
  }

  /** blink: the rule applied to one stone. */
  function BlinkStone(s: nat): Blink
  {
    var n := NumDigits(s);
    if s == 0 then Single(1)
    else if n % 2 == 0 then
      var middle := Pow10(n / 2);
      DivMod(s, middle);
      Split(s / middle, s % middle)
    else Single(s * 2024)
  }

  /** The three rules: 0 becomes 1; a stone of an even number of digits
      splits into a left half and a right half of half as many digits
      (the right half may lose leading zeros); any other stone is
      multiplied by 2024. */
  lemma BlinkRule(s: nat)
    ensures s == 0 ==> BlinkStone(s) == Single(1)
    ensures s != 0 && NumDigits(s) % 2 == 0 ==>
      var b := BlinkStone(s);
      b.Split? && b.left * Pow10(NumDigits(s) / 2) + b.right == s && b.right < Pow10(NumDigits(s) / 2)
    ensures s != 0 && NumDigits(s) % 2 != 0 ==> BlinkStone(s) == Single(s * 2024)
  {
    if s != 0 && NumDigits(s) % 2 == 0 {
      DivMod(s, Pow10(NumDigits(s) / 2));
    }
  }

  lemma DivMod(s: nat, m: nat)
    requires m >= 1
    ensures 0 <= s / m <= s && 0 <= s % m < m
    ensures (s / m) * m + s % m == s
  {
  }

  /** The left half of a split stone has exactly half of its digits: no
      leading zero is lost on that side. */
  lemma SplitLeftDigits(s: nat)
    requires s != 0 && NumDigits(s) % 2 == 0
    ensures NumDigits(BlinkStone(s).left) == NumDigits(s) / 2
  {
    var n := NumDigits(s);
    var h := n / 2;
    var l := BlinkStone(s).left;
    var r := BlinkStone(s).right;
    BlinkRule(s);
    Pow10Add(h, h);
    Pow10Add(h - 1, h);
    assert h + h == n;
    assert s >= 10;
    assert Pow10(h - 1) * Pow10(h) <= s;
    assert l * Pow10(h) + r == s && r < Pow10(h);
    LowerBound(l, Pow10(h - 1), Pow10(h), r);
    UpperBound(l, Pow10(h), r, s);
    NumDigitsBetween(l, h);
  }

  lemma LowerBound(l: nat, lo: nat, p: nat, r: nat)
    requires p >= 1 && r < p && lo * p <= l * p + r
    ensures lo <= l
  {
    if l < lo {
      MulMonotone(l + 1, lo, p);
    }
  }

  lemma UpperBound(l: nat, p: nat, r: nat, s: nat)
    requires p >= 1 && s == l * p + r && s < p * p
    ensures l < p
  {
    if l >= p {
      MulMonotone(p, l, p);
    }
  }

  lemma MulMonotone(x: nat, y: nat, p: nat)
    requires x <= y
    ensures x * p <= y * p
    ensures (x + 1) * p == x * p + p
  {
  }

  /** The program's unit test test_blink. */
  lemma BlinkExamples()
    ensures BlinkStone(0) == Single(1)
    ensures BlinkStone(1) == Single(2024)
    ensures BlinkStone(2024) == Split(20, 24)
  {
    assert NumDigits(2024) == 4;
  }

  /** The stones one stone becomes, left to right. */
  function Children(s: nat): (c: seq<nat>)
    ensures 1 <= |c| <= 2
  {
    match BlinkStone(s)
    case Single(t) => [t]
    case Split(l, r) => [l, r]
  }

  /** The row after one blink: every stone is replaced by its children, in
      order. */
  function BlinkRow(row: seq<nat>): (next: seq<nat>)
    ensures |row| <= |next| <= 2 * |row|
  {
    if row == [] then [] else Children(row[0]) + BlinkRow(row[1..])
  }

  /** The row after k blinks. */
  function Evolve(row: seq<nat>, k: nat): seq<nat>
    decreases k
  {
    if k == 0 then row else Evolve(BlinkRow(row), k - 1)
  }

  lemma {:induction false} BlinkRowAppend(a: seq<nat>, b: seq<nat>)
    ensures BlinkRow(a + b) == BlinkRow(a) + BlinkRow(b)
    decreases |a|
  {
    if a == [] {
      assert a + b == b;
    } else {
      assert (a + b)[0] == a[0];
      assert (a + b)[1..] == a[1..] + b;
      BlinkRowAppend(a[1..], b);
      calc {
        BlinkRow(a + b);
        Children(a[0]) + BlinkRow(a[1..] + b);
        Children(a[0]) + (BlinkRow(a[1..]) + BlinkRow(b));
        (Children(a[0]) + BlinkRow(a[1..])) + BlinkRow(b);
      }
    }
  }

  lemma {:induction false} EvolveNil(k: nat)
    ensures Evolve([], k) == []
    decreases k
  {
    if k > 0 {
      EvolveNil(k - 1);
    }
  }

  /** Stones evolve independently of their neighbours: blinking a row is
      blinking its two halves. */
  lemma {:induction false} EvolveAppend(a: seq<nat>, b: seq<nat>, k: nat)
    ensures Evolve(a + b, k) == Evolve(a, k) + Evolve(b, k)
    decreases k
  {
    if k > 0 {
      BlinkRowAppend(a, b);
      EvolveAppend(BlinkRow(a), BlinkRow(b), k - 1);
    }
  }

  /** The unmemoised recursive count: how many stones one stone becomes
      after k blinks. */
  function Count(s: nat, k: nat): (n: nat)
    ensures n >= 1
    decreases k
  {
    if k == 0 then 1
    else match BlinkStone(s)
      case Single(t) => Count(t, k - 1)
      case Split(l, r) => Count(l, k - 1) + Count(r, k - 1)
  }

  /** The recursive count is the length of the evolved row. */
  lemma {:induction false} CountIsLength(s: nat, k: nat)
    ensures Count(s, k) == |Evolve([s], k)|
    decreases k
  {
    if k > 0 {
      BlinkOne(s);
      assert Evolve([s], k) == Evolve(Children(s), k - 1);
      match BlinkStone(s)
      case Single(t) =>
        CountIsLength(t, k - 1);
      case Split(l, r) =>
        CountIsLength(l, k - 1);
        CountIsLength(r, k - 1);
        EvolvePair(l, r, k - 1);
    }
  }

  lemma BlinkOne(s: nat)
    ensures BlinkRow([s]) == Children(s)
  {
    assert [s][1..] == [];
  }

  lemma EvolvePair(l: nat, r: nat, k: nat)
    ensures |Evolve([l, r], k)| == |Evolve([l], k)| + |Evolve([r], k)|
  {
    EvolveAppend([l], [r], k);
    assert [l, r] == [l] + [r];
  }

  /** Blinking never removes a stone. */
  lemma {:induction false} CountMonotone(s: nat, k: nat)
    ensures Count(s, k) <= Count(s, k + 1)
    decreases k
  {
    if k > 0 {
      match BlinkStone(s)
      case Single(t) =>
        CountMonotone(t, k - 1);
      case Split(l, r) =>
        CountMonotone(l, k - 1);
        CountMonotone(r, k - 1);
    }
  }

  /** Every entry of the memo table holds the unmemoised count for its key. */
  ghost predicate MemoSound(memo: map<(nat, nat), nat>)
  {
    forall key :: key in memo ==> memo[key] == Count(key.0, key.1)
  }

  /** step: the count of stones `stone` becomes after `remaining` blinks,
      looked up in or added to the memo table. */
  method Step(stone: nat, remaining: nat, memo0: map<(nat, nat), nat>) returns (res: nat, memo: map<(nat, nat), nat>)
    requires MemoSound(memo0)
    ensures res == Count(stone, remaining)
    ensures MemoSound(memo)
    ensures memo0.Keys <= memo.Keys
    ensures remaining > 0 ==> (stone, remaining) in memo
    decreases remaining
  {
    if remaining == 0 {
      return 1, memo0;
    }
    if (stone, remaining) in memo0 {
      return memo0[(stone, remaining)], memo0;
    }
    match BlinkStone(stone) {
      case Single(newStone) =>
        res, memo := Step(newStone, remaining - 1, memo0);
      case Split(left, right) =>
        var l, r;
        l, memo := Step(left, remaining - 1, memo0);
        r, memo := Step(right, remaining - 1, memo);
        res := l + r;
    }
    Remember(memo, stone, remaining, res);
    memo := memo[(stone, remaining) := res];
  }

  lemma Remember(memo: map<(nat, nat), nat>, stone: nat, remaining: nat, res: nat)
    requires MemoSound(memo) && res == Count(stone, remaining)
    ensures MemoSound(memo[(stone, remaining) := res])
  {
  }

  /** The fold of part1 and part2: step each stone of the row in turn with
      one shared memo table and add up the counts. */
  method CountStones(stones: seq<nat>, blinks: nat) returns (total: nat)
    ensures total == |Evolve(stones, blinks)|
  {
    var memo: map<(nat, nat), nat> := map[];
    total := 0;
    var i := 0;
    EvolveNil(blinks);
    while i < |stones|
      invariant i <= |stones|
      invariant MemoSound(memo)
      invariant total == |Evolve(stones[..i], blinks)|
    {
      var n;
      n, memo := Step(stones[i], blinks, memo);
      CountIsLength(stones[i], blinks);
      EvolveAppend(stones[..i], [stones[i]], blinks);
      assert stones[..i + 1] == stones[..i] + [stones[i]];
      total := total + n;
      i := i + 1;
    }
    assert stones[..i] == stones;
  }

  method Part1(stones: seq<nat>) returns (total: nat)
    ensures total == |Evolve(stones, 25)|
  {
    total := CountStones(stones, 25);
  }

  method Part2(stones: seq<nat>) returns (total: nat)
    ensures total == |Evolve(stones, 75)|
  {
    total := CountStones(stones, 75);
  }

  // ---------------------------------------------------------------------
  // The example row "125 17" after 75 blinks.

  lemma BlinkFacts()
    ensures BlinkStone(0) == Single(1) && BlinkStone(1) == Single(2024)
    ensures BlinkStone(2024) == Split(20, 24) && BlinkStone(20) == Split(2, 0)
    ensures BlinkStone(24) == Split(2, 4) && BlinkStone(2) == Single(4048)
    ensures BlinkStone(4048) == Split(40, 48) && BlinkStone(40) == Split(4, 0)
    ensures BlinkStone(125) == Single(253000) && BlinkStone(253000) == Split(253, 0)
  {
    SplitFour(2024, 20, 24);
    SplitFour(4048, 40, 48);
    SplitTwo(20, 2, 0);
    SplitTwo(24, 2, 4);
    SplitTwo(40, 4, 0);
    assert NumDigits(2) == 1;
    Blink125();
    Blink253000();
  }

  lemma SplitTwo(s: nat, l: nat, r: nat)
    requires 10 <= s < 100 && l == s / 10 && r == s % 10
    ensures BlinkStone(s) == Split(l, r)
  {
    NumDigitsBetween(s, 2);
  }

  lemma SplitFour(s: nat, l: nat, r: nat)
    requires 1000 <= s < 10000 && l == s / 100 && r == s % 100
    ensures BlinkStone(s) == Split(l, r)
  {
    assert Pow10(2) == 100;
    assert Pow10(4) == 10000;
    NumDigitsBetween(s, 4);
  }

  lemma Blink125()
    ensures BlinkStone(125) == Single(253000)
  {
    NumDigitsBetween(125, 3);
  }

  lemma Blink253000()
    ensures BlinkStone(253000) == Split(253, 0)
  {
    assert Pow10(3) == 1000;
    assert Pow10(6) == 1000000;
    NumDigitsBetween(253000, 6);
  }

  /** A stone engraved 0 becomes, seven blinks later, at least three copies
      of what a 0 becomes after the remaining blinks: 0, 1, 2024, (20, 24),
      (2, 0, 2, 4), and each 2 gives 4048, (40, 48), (4, 0, ...). */
  lemma ZeroTriples(k: nat)
    requires k >= 7
    ensures Count(0, k) >= 3 * Count(0, k - 7)
  {
    BlinkFacts();
    CountSingle(0, 1, k);
    CountSingle(1, 2024, k - 1);
    CountSplit(2024, 20, 24, k - 2);
    CountSplit(20, 2, 0, k - 3);
    CountSplit(24, 2, 4, k - 3);
    CountSingle(2, 4048, k - 4);
    CountSplit(4048, 40, 48, k - 5);
    CountSplit(40, 4, 0, k - 6);
    CountMonotone(0, k - 7);
    CountMonotone(0, k - 6);
    CountMonotone(0, k - 5);
  }

  lemma CountSingle(s: nat, t: nat, k: nat)
    requires k > 0 && BlinkStone(s) == Single(t)
    ensures Count(s, k) == Count(t, k - 1)
  {
  }

  lemma CountSplit(s: nat, l: nat, r: nat, k: nat)
    requires k > 0 && BlinkStone(s) == Split(l, r)
    ensures Count(s, k) == Count(l, k - 1) + Count(r, k - 1)
  {
  }

  function Pow3(j: nat): nat
  {
    if j == 0 then 1 else 3 * Pow3(j - 1)
  }

  lemma {:induction false} ZeroGrowth(j: nat)
    ensures Count(0, 7 * j + 3) >= Pow3(j)
  {
    if j > 0 {
      ZeroGrowth(j - 1);
      ZeroTriples(7 * j + 3);
    }
  }

  /** The program's part2_example test expects 81 stones after 75 blinks of
      the row 125 17; the count the program computes is far larger: the 0
      that 125 yields after two blinks alone gives more than 3^10 stones. */
  lemma Part2ExampleAbove81()
    ensures |Evolve([125, 17], 75)| > Pow3(10)
    ensures Pow3(10) == 59049
  {
    ExampleGrowth(10);
    Pow3Ten();
  }

  lemma Pow3Ten()
    ensures Pow3(10) == 59049
  {
    assert Pow3(5) == 243;
  }

  lemma ExampleGrowth(j: nat)
    ensures |Evolve([125, 17], 7 * j + 5)| > Pow3(j)
  {
    var k := 7 * j + 5;
    EvolvePair(125, 17, k);
    CountIsLength(125, k);
    CountIsLength(17, k);
    Blink125();
    Blink253000();
    CountSingle(125, 253000, k);
    CountSplit(253000, 253, 0, k - 1);
    ZeroGrowth(j);
  }
}
