/** Bridge repair: a calibration is a test value and a list of parts; it is
    true when some choice of operators between the parts, evaluated strictly
    left to right, yields the test value.  Part 1 allows addition and
    multiplication, part 2 also concatenation of decimal digits. */
module Calibration {
  import Stones

  datatype Operator = Add | Multiply | Concat

  function Pow(b: nat, e: nat): nat
  {
    if e == 0 then 1 else b * Pow(b, e - 1)
  }

  /* ---------------------------------------------------------------- */
  /* All operator sequences                                            */
  /* ---------------------------------------------------------------- */

  /** Each of `from` put in front of each of `rest`, the first choice
      varying slowest. */
  function Prefixed<T>(from: seq<T>, rest: seq<seq<T>>): (vs: seq<seq<T>>)
    ensures |vs| == |from| * |rest|
  {
    if from == [] then []
    else
      var front := seq(|rest|, i requires 0 <= i < |rest| => [from[0]] + rest[i]);
      assert |from| * |rest| == |rest| + (|from| - 1) * |rest|;
      front + Prefixed(from[1..], rest)
  }

  lemma {:induction false} PrefixedMembers<T>(from: seq<T>, rest: seq<seq<T>>)
    ensures forall v | v in Prefixed(from, rest) :: |v| >= 1 && v[0] in from && v[1..] in rest
  {
    if from != [] {
      var front := seq(|rest|, i requires 0 <= i < |rest| => [from[0]] + rest[i]);
      PrefixedMembers(from[1..], rest);
      forall v | v in Prefixed(from, rest)
        ensures |v| >= 1 && v[0] in from && v[1..] in rest
      {
        if v in front {
          var i :| 0 <= i < |rest| && front[i] == v;
          assert v[1..] == rest[i];
        }
      }
    }
  }

  lemma {:induction false} PrefixedHas<T>(from: seq<T>, rest: seq<seq<T>>, x: T, v: seq<T>)
    requires x in from && v in rest
    ensures [x] + v in Prefixed(from, rest)
  {
    var front := seq(|rest|, i requires 0 <= i < |rest| => [from[0]] + rest[i]);
    if x == from[0] {
      var i :| 0 <= i < |rest| && rest[i] == v;
      assert front[i] == [x] + v;
    } else {
      PrefixedHas(from[1..], rest, x, v);
    }
  }

  /** The n-fold cartesian product of the operators, as the repeated
      iterator's multi-cartesian product lists it. */
  function Variations<T>(n: nat, from: seq<T>): (vs: seq<seq<T>>)
    ensures |vs| == Pow(|from|, n)
    ensures forall v | v in vs :: |v| == n && forall k | 0 <= k < n :: v[k] in from
  {
    if n == 0 then [[]]
    else
      var rest := Variations(n - 1, from);
      var vs := Prefixed(from, rest);
      assert |vs| == |from| * Pow(|from|, n - 1);
      ExtendChoices(n, from, rest);
      vs
  }

  /** Prefixing a choice to choices of length n - 1 gives choices of length n. */
  lemma ExtendChoices<T>(n: nat, from: seq<T>, rest: seq<seq<T>>)
    requires n >= 1
    requires forall v | v in rest :: |v| == n - 1 && forall k | 0 <= k < n - 1 :: v[k] in from
    ensures forall v | v in Prefixed(from, rest) :: |v| == n && forall k | 0 <= k < n :: v[k] in from
  {
    PrefixedMembers(from, rest);
    forall v | v in Prefixed(from, rest)
      ensures |v| == n && forall k | 0 <= k < n :: v[k] in from
    {
      assert v == [v[0]] + v[1..];
      forall k | 1 <= k < n
        ensures v[k] in from
      {
        assert v[k] == v[1..][k - 1];
      }
    }
  }

  /** Every sequence of n choices from `from` is one of the variations. */
  lemma {:induction false} VariationsComplete<T>(n: nat, from: seq<T>, v: seq<T>)
    requires |v| == n && forall k | 0 <= k < n :: v[k] in from
    ensures v in Variations(n, from)
  {
    if n == 0 {
      assert v == [];
    } else {
      VariationsComplete(n - 1, from, v[1..]);
      PrefixedHas(from, Variations(n - 1, from), v[0], v[1..]);
      assert v == [v[0]] + v[1..];
    }
  }

  /* ---------------------------------------------------------------- */
  /* Evaluation                                                        */
  /* ---------------------------------------------------------------- */

  /** Concatenation of decimal digits: the accumulator shifted left by the
      number of digits of the part (`ilog10 + 1`, which panics on 0), plus
      the part. */
  function ConcatDigits(acc: nat, part: nat): nat
    requires part >= 1
  {
    acc * Stones.Pow10(Stones.NumDigits(part)) + part
  }

  /** The digits of a concatenation split back into the two numbers. */
  lemma ConcatSplits(acc: nat, part: nat)
    requires part >= 1
    ensures ConcatDigits(acc, part) / Stones.Pow10(Stones.NumDigits(part)) == acc
    ensures ConcatDigits(acc, part) % Stones.Pow10(Stones.NumDigits(part)) == part
  {
    DivModUnique(ConcatDigits(acc, part), Stones.Pow10(Stones.NumDigits(part)), acc, part);
  }

  lemma DivModUnique(x: int, m: int, q: int, r: int)
    requires m > 0 && 0 <= r < m && x == q * m + r
    ensures x / m == q && x % m == r
  {
    var q', r' := x / m, x % m;
    assert x == q' * m + r';
    assert (q - q') * m == r' - r;
    if q != q' {
      AbsProduct(q - q', m);
    }
  }

  lemma AbsProduct(d: int, m: int)
    requires d != 0 && m > 0
    ensures d * m >= m || d * m <= -m
  {
    if d > 0 {
      MulAtLeast(d, m);
    } else {
      MulAtLeast(-d, m);
      assert (-d) * m == -(d * m);
    }
  }

  lemma {:induction false} MulAtLeast(d: nat, m: nat)
    requires d >= 1
    ensures d * m >= m
  {
    if d > 1 {
      MulAtLeast(d - 1, m);
      assert d * m == (d - 1) * m + m;
    }
  }

  /** The match on the operator shared by both parts' closures; part 1's
      Concat arm panics, but part 1 never offers Concat (Part1NoConcat). */
  function Apply(op: Operator, acc: nat, part: nat): nat
    requires op == Concat ==> part >= 1
  {
    match op
    case Add => acc + part
    case Multiply => acc * part
    case Concat => ConcatDigits(acc, part)
  }

  /** Concat only ever meets positive parts. */
  predicate ConcatSafe(parts: seq<nat>, ops: seq<Operator>)
  {
    forall i | 0 <= i < |ops| && i + 1 < |parts| :: ops[i] == Concat ==> parts[i + 1] >= 1
  }

  /** The fold over `parts[1..]` with `ops[i]` between the accumulator and
      the i-th remaining part. */
  function EvalFrom(acc: nat, rest: seq<nat>, ops: seq<Operator>): nat
    requires |ops| >= |rest|
    requires forall i | 0 <= i < |rest| :: ops[i] == Concat ==> rest[i] >= 1
    decreases |rest|
  {
    if rest == [] then acc
    else EvalFrom(Apply(ops[0], acc, rest[0]), rest[1..], ops[1..])
  }

  function Eval(parts: seq<nat>, ops: seq<Operator>): nat
    requires |parts| >= 1 && |ops| >= |parts| - 1 && ConcatSafe(parts, ops)
  {
    EvalFrom(parts[0], parts[1..], ops)
  }

  /** Evaluation is strictly left to right: the last operator applies to
      the value of everything before it, with no precedence. */
  lemma LeftToRight(parts: seq<nat>, ops: seq<Operator>, part: nat, op: Operator)
    requires |parts| >= 1 && |ops| == |parts| - 1 && ConcatSafe(parts, ops)
    requires op == Concat ==> part >= 1
    ensures ConcatSafe(parts + [part], ops + [op])
    ensures Eval(parts + [part], ops + [op]) == Apply(op, Eval(parts, ops), part)
  {
    assert (parts + [part])[1..] == parts[1..] + [part];
    EvalFromSnoc(parts[0], parts[1..], ops, part, op);
  }

  lemma {:induction false} EvalFromSnoc(acc: nat, rest: seq<nat>, ops: seq<Operator>, part: nat, op: Operator)
    requires |ops| == |rest|
    requires forall i | 0 <= i < |rest| :: ops[i] == Concat ==> rest[i] >= 1
    requires op == Concat ==> part >= 1
    ensures forall i | 0 <= i < |rest + [part]| :: (ops + [op])[i] == Concat ==> (rest + [part])[i] >= 1
    ensures EvalFrom(acc, rest + [part], ops + [op]) == Apply(op, EvalFrom(acc, rest, ops), part)
    decreases |rest|
  {
    var rest', ops' := rest + [part], ops + [op];
    assert forall i | 0 <= i < |rest'| :: ops'[i] == Concat ==> rest'[i] >= 1 by {
      forall i | 0 <= i < |rest'|
        ensures ops'[i] == Concat ==> rest'[i] >= 1
      {
        if i < |rest| {
          assert ops'[i] == ops[i] && rest'[i] == rest[i];
        }
      }
    }
    if rest != [] {
      assert rest'[1..] == rest[1..] + [part] && ops'[1..] == ops[1..] + [op];
      EvalFromSnoc(Apply(ops[0], acc, rest[0]), rest[1..], ops[1..], part, op);
    }
  }

  /** `2 3 4` with `+` then `*` is (2 + 3) * 4, not 2 + 3 * 4. */
  lemma NoPrecedence()
    ensures Eval([2, 3, 4], [Add, Multiply]) == 20
    ensures Eval([81, 40, 27], [Add, Multiply]) == 3267
  {
    assert [2, 3, 4][1..] == [3, 4] && [3, 4][1..] == [4] && [4][1..] == [];
    assert [Add, Multiply][1..] == [Multiply] && [Multiply][1..] == [];
    assert EvalFrom(20, [], []) == 20;
    assert EvalFrom(5, [4], [Multiply]) == 20;
    assert [81, 40, 27][1..] == [40, 27] && [40, 27][1..] == [27] && [27][1..] == [];
    assert EvalFrom(121, [27], [Multiply]) == 3267;
  }

  /* ---------------------------------------------------------------- */
  /* Calibrations                                                      */
  /* ---------------------------------------------------------------- */

  /** Concat may be offered only where every part after the first is
      positive, since `ilog10` panics on 0. */
  predicate Evaluable(parts: seq<nat>, operators: seq<Operator>)
  {
    |parts| >= 1 && (Concat in operators ==> forall i | 1 <= i < |parts| :: parts[i] >= 1)
  }

  lemma EvaluableSafe(parts: seq<nat>, operators: seq<Operator>, v: seq<Operator>)
    requires Evaluable(parts, operators)
    requires |v| == |parts| - 1 && forall k | 0 <= k < |v| :: v[k] in operators
    ensures ConcatSafe(parts, v)
  {
  }

  /** Some variation of the operators evaluates to the test value, as the
      program's `any` over the variations checks. */
  predicate Calibrated(result: nat, parts: seq<nat>, operators: seq<Operator>)
    requires |parts| >= 1
    requires Concat in operators ==> forall i | 1 <= i < |parts| :: parts[i] >= 1
  {
    exists v | v in Variations(|parts| - 1, operators) ::
      ConcatSafe(parts, v) && Eval(parts, v) == result
  }

  /** Reference definition: some sequence of the allowed operators. */
  ghost predicate Solvable(result: nat, parts: seq<nat>, operators: seq<Operator>)
    requires Evaluable(parts, operators)
  {
    exists ops: seq<Operator> ::
      |ops| == |parts| - 1 && (forall k | 0 <= k < |ops| :: ops[k] in operators) &&
      ConcatSafe(parts, ops) && Eval(parts, ops) == result
  }

  lemma CalibratedIff(result: nat, parts: seq<nat>, operators: seq<Operator>)
    requires Evaluable(parts, operators)
    ensures Calibrated(result, parts, operators) <==> Solvable(result, parts, operators)
  {
    if Solvable(result, parts, operators) {
      var ops: seq<Operator> :| |ops| == |parts| - 1 && (forall k | 0 <= k < |ops| :: ops[k] in operators) &&
        ConcatSafe(parts, ops) && Eval(parts, ops) == result;
      VariationsComplete(|parts| - 1, operators, ops);
    }
  }

  /** More operators can only solve more calibrations. */
  lemma SolvableMonotone(result: nat, parts: seq<nat>, fewer: seq<Operator>, more: seq<Operator>)
    requires Evaluable(parts, fewer) && Evaluable(parts, more)
    requires forall o | o in fewer :: o in more
    requires Solvable(result, parts, fewer)
    ensures Solvable(result, parts, more)
  {
    var ops: seq<Operator> :| |ops| == |parts| - 1 && (forall k | 0 <= k < |ops| :: ops[k] in fewer) &&
      ConcatSafe(parts, ops) && Eval(parts, ops) == result;
    assert forall k | 0 <= k < |ops| :: ops[k] in more;
  }

  type Calibrations = seq<(nat, seq<nat>)>

  ghost predicate AllEvaluable(cals: Calibrations, operators: seq<Operator>)
  {
    forall c | 0 <= c < |cals| :: Evaluable(cals[c].1, operators)
  }

  /** The fold summing the test values of the true calibrations. */
  function Fold(cals: Calibrations, operators: seq<Operator>): (total: nat)
    requires forall c | 0 <= c < |cals| :: (|cals[c].1| >= 1 &&
      (Concat in operators ==> forall i | 1 <= i < |cals[c].1| :: cals[c].1[i] >= 1))
    ensures total <= SumResults(cals)
  {
    if cals == [] then 0
    else
      var (result, parts) := cals[|cals| - 1];
      Fold(cals[..|cals| - 1], operators) + (if Calibrated(result, parts, operators) then result else 0)
  }

  /** The sum of all test values, solvable or not. */
  function SumResults(cals: Calibrations): nat
  {
    if cals == [] then 0 else SumResults(cals[..|cals| - 1]) + cals[|cals| - 1].0
  }

  const Part1Operators: seq<Operator> := [Add, Multiply]
  const Part2Operators: seq<Operator> := [Add, Multiply, Concat]

  /** Part 1 never offers Concat, so its panicking arm is never reached. */
  lemma Part1NoConcat(n: nat, v: seq<Operator>)
    requires v in Variations(n, Part1Operators)
    ensures forall k | 0 <= k < |v| :: v[k] != Concat
  {
  }

  function Part1(cals: Calibrations): nat
    requires forall c | 0 <= c < |cals| :: |cals[c].1| >= 1
  {
    Fold(cals, Part1Operators)
  }

  function Part2(cals: Calibrations): nat
    requires forall c | 0 <= c < |cals| :: (|cals[c].1| >= 1 &&
      forall i | 1 <= i < |cals[c].1| :: cals[c].1[i] >= 1)
  {
    Fold(cals, Part2Operators)
  }

  /** A calibration adds its test value exactly when some sequence of the
      allowed operators makes it true. */
  lemma FoldCounts(cals: Calibrations, operators: seq<Operator>, result: nat, parts: seq<nat>)
    requires forall c | 0 <= c < |cals| :: (|cals[c].1| >= 1 &&
      (Concat in operators ==> forall i | 1 <= i < |cals[c].1| :: cals[c].1[i] >= 1))
    requires Evaluable(parts, operators)
    ensures Fold(cals + [(result, parts)], operators) ==
      Fold(cals, operators) + (if Solvable(result, parts, operators) then result else 0)
  {
    var all := cals + [(result, parts)];
    assert all[..|all| - 1] == cals;
    CalibratedIff(result, parts, operators);
  }

  /** Every calibration true in part 1 is true in part 2, so part 1's total
      never exceeds part 2's. */
  lemma {:induction false} Part1AtMostPart2(cals: Calibrations)
    requires forall c | 0 <= c < |cals| :: (|cals[c].1| >= 1 &&
      forall i | 1 <= i < |cals[c].1| :: cals[c].1[i] >= 1)
    ensures Part1(cals) <= Part2(cals)
  {
    if cals != [] {
      var init := cals[..|cals| - 1];
      var (result, parts) := cals[|cals| - 1];
      Part1AtMostPart2(init);
      FoldCounts(init, Part1Operators, result, parts);
      FoldCounts(init, Part2Operators, result, parts);
      assert init + [(result, parts)] == cals;
      if Solvable(result, parts, Part1Operators) {
        SolvableMonotone(result, parts, Part1Operators, Part2Operators);
      }
    }
  }

  /** Two of the example's calibrations: 3267 is true in part 1, and
      7290 = 6 * 8 || 6 * 15 needs the concatenation. */
  lemma ExampleWitnesses()
    ensures Solvable(3267, [81, 40, 27], Part1Operators)
    ensures Solvable(7290, [6, 8, 6, 15], Part2Operators)
  {
    NoPrecedence();
    var ops := [Add, Multiply];
    assert ops[0] in Part1Operators && ops[1] in Part1Operators;
    Eval7290();
    var ops2 := [Multiply, Concat, Multiply];
    assert forall k | 0 <= k < 3 :: ops2[k] in Part2Operators;
  }

  lemma Eval7290()
    ensures ConcatSafe([6, 8, 6, 15], [Multiply, Concat, Multiply])
    ensures Eval([6, 8, 6, 15], [Multiply, Concat, Multiply]) == 7290
  {
    assert Stones.NumDigits(6) == 1 && Stones.Pow10(1) == 10;
    assert ConcatDigits(48, 6) == 486;
    var rest := [8, 6, 15];
    var ops := [Multiply, Concat, Multiply];
    assert rest[1..] == [6, 15] && [6, 15][1..] == [15] && [15][1..] == [];
    assert ops[1..] == [Concat, Multiply] && [Concat, Multiply][1..] == [Multiply] && [Multiply][1..] == [];
    assert EvalFrom(7290, [], []) == 7290;
    assert EvalFrom(486, [15], [Multiply]) == 7290;
    assert EvalFrom(48, [6, 15], [Concat, Multiply]) == 7290;
    assert [6, 8, 6, 15][1..] == rest;
  }
}
