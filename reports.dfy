/** Red-nosed reports: a report is a list of levels.  It is safe when the
    levels change gradually in one direction; in part 2 a report also counts
    as safe when removing a single level makes it safe. */
module Reports {

  function Signum(x: int): int
  {
    if x > 0 then 1 else if x < 0 then -1 else 0
  }

  function Abs(x: int): nat
  {
    if x < 0 then -x else x
  }

  /** The differences of neighbouring levels, each level minus the next one,
      as the program's zip with skip(1) pairs them. */
  function Diffs(levels: seq<int>): (d: seq<int>)
    requires |levels| >= 1
    ensures |d| == |levels| - 1
    ensures forall i :: 0 <= i < |d| ==> d[i] == levels[i] - levels[i + 1]
  {
    seq(|levels| - 1, i requires 0 <= i < |levels| - 1 => levels[i] - levels[i + 1])
  }

  /** Reference definitions: every step goes up by 1 to 3, or every step
      goes down by 1 to 3, or no step changes the level. */
  ghost predicate GraduallyIncreasing(levels: seq<int>)
  {
    forall i :: 0 <= i < |levels| - 1 ==> 1 <= levels[i + 1] - levels[i] <= 3
  }

  ghost predicate GraduallyDecreasing(levels: seq<int>)
  {
    forall i :: 0 <= i < |levels| - 1 ==> 1 <= levels[i] - levels[i + 1] <= 3
  }

  ghost predicate Constant(levels: seq<int>)
  {
    forall i :: 0 <= i < |levels| - 1 ==> levels[i] == levels[i + 1]
  }

  /** The per-difference test of check_is_safe: each difference has the
      given sign and is at most 3 in size. */
  predicate AllMatch(diffs: seq<int>, sign: int)
  {
    forall i :: 0 <= i < |diffs| ==> Signum(diffs[i]) == sign && Abs(diffs[i]) <= 3
  }

  /** check_is_safe exactly as written: every difference has the sign of
      the first one and is at most 3 in size.  When the first difference is
      0, the sign to match is 0 and a constant report passes. */
  function CheckIsSafeAsWritten(levels: seq<int>): (safe: bool)
    requires |levels| >= 2
    ensures safe <==> GraduallyIncreasing(levels) || GraduallyDecreasing(levels) || Constant(levels)
  {
    var diffs := Diffs(levels);
    var sign := Signum(diffs[0]);
    DiffsJudge(levels, sign);
    AllMatch(diffs, sign)
  }

  /** check_is_safe with the sign of the first difference required to be
      non-zero: safe exactly when the levels change gradually in one
      direction. */
  function CheckIsSafe(levels: seq<int>): (safe: bool)
    requires |levels| >= 2
    ensures safe <==> GraduallyIncreasing(levels) || GraduallyDecreasing(levels)
  {
    var diffs := Diffs(levels);
    var sign := Signum(diffs[0]);
    DiffsJudge(levels, sign);
    sign != 0 && AllMatch(diffs, sign)
  }

  /** How the per-difference test reads for each sign of the first
      difference. */
  lemma DiffsJudge(levels: seq<int>, sign: int)
    requires |levels| >= 2
    requires sign == Signum(levels[0] - levels[1])
    ensures AllMatch(Diffs(levels), sign) <==>
      (sign == -1 && GraduallyIncreasing(levels)) || (sign == 1 && GraduallyDecreasing(levels)) || (sign == 0 && Constant(levels))
  {
    FirstStep(levels);
    if sign == -1 {
      JudgeIncreasing(levels);
    } else if sign == 1 {
      JudgeDecreasing(levels);
    } else {
      JudgeConstant(levels);
    }
  }

  /** The first step alone fixes which of the three shapes is possible. */
  lemma FirstStep(levels: seq<int>)
    requires |levels| >= 2
    ensures GraduallyIncreasing(levels) ==> Signum(levels[0] - levels[1]) == -1
    ensures GraduallyDecreasing(levels) ==> Signum(levels[0] - levels[1]) == 1
    ensures Constant(levels) ==> Signum(levels[0] - levels[1]) == 0
  {
  }

  lemma JudgeIncreasing(levels: seq<int>)
    requires |levels| >= 2
    ensures AllMatch(Diffs(levels), -1) <==> GraduallyIncreasing(levels)
  {
    var d := Diffs(levels);
    forall i | 0 <= i < |d|
      ensures (Signum(d[i]) == -1 && Abs(d[i]) <= 3) <==> 1 <= levels[i + 1] - levels[i] <= 3
    {
    }
  }

  lemma JudgeDecreasing(levels: seq<int>)
    requires |levels| >= 2
    ensures AllMatch(Diffs(levels), 1) <==> GraduallyDecreasing(levels)
  {
    var d := Diffs(levels);
    forall i | 0 <= i < |d|
      ensures (Signum(d[i]) == 1 && Abs(d[i]) <= 3) <==> 1 <= levels[i] - levels[i + 1] <= 3
    {
    }
  }

  lemma JudgeConstant(levels: seq<int>)
    requires |levels| >= 2
    ensures AllMatch(Diffs(levels), 0) <==> Constant(levels)
  {
    var d := Diffs(levels);
    forall i | 0 <= i < |d|
      ensures (Signum(d[i]) == 0 && Abs(d[i]) <= 3) <==> levels[i] == levels[i + 1]
    {
    }
  }

  /** The report with level i taken out (Vec::remove). */
  function Remove(levels: seq<int>, i: nat): (r: seq<int>)
    requires i < |levels|
    ensures |r| == |levels| - 1
    ensures forall j :: 0 <= j < i ==> r[j] == levels[j]
    ensures forall j :: i <= j < |r| ==> r[j] == levels[j + 1]
  {
    levels[..i] + levels[i + 1..]
  }

  /** The check part 2 applies to every candidate: check_is_safe as written
      or, when `corrected` holds, with the corrected sign test. */
  function Judge(levels: seq<int>, corrected: bool): (safe: bool)
    requires |levels| >= 2
    ensures safe <==> GraduallyIncreasing(levels) || GraduallyDecreasing(levels) || (!corrected && Constant(levels))
  {
    if corrected then CheckIsSafe(levels) else CheckIsSafeAsWritten(levels)
  }

  /** The inputs part2_line handles without panicking: with two levels the
      report itself must pass, since each one-level candidate has no
      difference to index. */
  predicate Checkable(levels: seq<int>, corrected: bool)
  {
    |levels| >= 3 || (|levels| == 2 && Judge(levels, corrected))
  }

  /** What part 2 accepts: the report itself, or the report with one level
      removed, passes the check. */
  ghost predicate Tolerable(levels: seq<int>, corrected: bool)
    requires Checkable(levels, corrected)
  {
    Judge(levels, corrected) || exists i :: 0 <= i < |levels| && Judge(Remove(levels, i), corrected)
  }

  /** A report safe for part 1 is safe for part 2, since the unmodified
      report is the first candidate. */
  lemma SafeIsTolerable(levels: seq<int>, corrected: bool)
    requires |levels| >= 2 && Judge(levels, corrected)
    ensures Tolerable(levels, corrected)
  {
  }

  /** The candidates of part2_line: the report itself, then the report
      without level i for each i in order. */
  method Combinations(levels: seq<int>) returns (combinations: seq<seq<int>>)
    ensures |combinations| == |levels| + 1 && combinations[0] == levels
    ensures forall j :: 1 <= j <= |levels| ==> combinations[j] == Remove(levels, j - 1)
  {
    combinations := [levels];
    var i := 0;
    while i < |levels|
      invariant i <= |levels|
      invariant |combinations| == i + 1 && combinations[0] == levels
      invariant forall j :: 1 <= j <= i ==> combinations[j] == Remove(levels, j - 1)
    {
      var newDiffs := levels[..i] + levels[i + 1..];
      combinations := combinations + [newDiffs];
      i := i + 1;
    }
  }

  /** part2_line as written: the candidates are tried with check_is_safe
      itself, so a report that is constant, or becomes constant once one
      level is removed, is accepted.  A report of fewer than two levels, or
      of two levels that fail the check, makes the program index an empty
      difference list, hence the precondition. */
  method Part2Line(levels: seq<int>) returns (safe: bool)
    requires Checkable(levels, false)
    ensures safe <==> Tolerable(levels, false)
  {
    var combinations := Combinations(levels);
    safe := AnySafe(levels, combinations, false);
  }

  /** part2_line over the corrected check: a report is accepted exactly when
      it, or the report with one level removed, changes gradually in one
      direction. */
  method Part2LineCorrected(levels: seq<int>) returns (safe: bool)
    requires Checkable(levels, true)
    ensures safe <==> Tolerable(levels, true)
  {
    var combinations := Combinations(levels);
    safe := AnySafe(levels, combinations, true);
  }

  /** The `any` over the candidates: tried in order, stopping at the first
      one that passes. */
  method AnySafe(levels: seq<int>, combinations: seq<seq<int>>, corrected: bool) returns (safe: bool)
    requires Checkable(levels, corrected)
    requires |combinations| == |levels| + 1 && combinations[0] == levels
    requires forall j :: 1 <= j <= |levels| ==> combinations[j] == Remove(levels, j - 1)
    ensures safe <==> Tolerable(levels, corrected)
  {
    safe := Judge(combinations[0], corrected);
    if safe {
      SafeIsTolerable(levels, corrected);
      return;
    }
    var k := 0;
    while k < |levels| && !safe
      invariant k <= |levels|
      invariant safe ==> 1 <= k && Judge(Remove(levels, k - 1), corrected)
      invariant !safe ==> forall j :: 0 <= j < k ==> !Judge(Remove(levels, j), corrected)
    {
      assert combinations[k + 1] == Remove(levels, k);
      safe := Judge(combinations[k + 1], corrected);
      NotYetRescued(levels, k, safe, corrected);
      k := k + 1;
    }
    if safe {
      RescuedBy(levels, k - 1, corrected);
    } else {
      NeverRescued(levels, corrected);
    }
  }

  /** The search keeps the fact that no removal before k helped. */
  lemma NotYetRescued(levels: seq<int>, k: nat, safe: bool, corrected: bool)
    requires |levels| >= 3 && k < |levels|
    requires forall j :: 0 <= j < k ==> !Judge(Remove(levels, j), corrected)
    requires safe == Judge(Remove(levels, k), corrected)
    ensures !safe ==> forall j :: 0 <= j < k + 1 ==> !Judge(Remove(levels, j), corrected)
  {
  }

  /** One helpful removal makes the report tolerable. */
  lemma RescuedBy(levels: seq<int>, j: nat, corrected: bool)
    requires |levels| >= 3 && j < |levels| && Judge(Remove(levels, j), corrected)
    ensures Tolerable(levels, corrected)
  {
  }

  /** A report that fails the check, and that no removal rescues, is not
      tolerable. */
  lemma NeverRescued(levels: seq<int>, corrected: bool)
    requires |levels| >= 3 && !Judge(levels, corrected)
    requires forall j :: 0 <= j < |levels| ==> !Judge(Remove(levels, j), corrected)
    ensures !Tolerable(levels, corrected)
  {
  }

  /** The corrected check accepts less: whatever part 2 accepts with it, it
      accepts as written. */
  lemma CorrectedIsStricter(levels: seq<int>)
    requires Checkable(levels, true)
    ensures Checkable(levels, false)
    ensures Tolerable(levels, true) ==> Tolerable(levels, false)
  {
    if Tolerable(levels, true) && !Judge(levels, true) {
      var i :| 0 <= i < |levels| && Judge(Remove(levels, i), true);
      RescuedBy(levels, i, false);
    }
  }

  /** The first diff decides the direction, so a constant report slips
      through the as-written check. */
  lemma ConstantReportSafe()
    ensures CheckIsSafeAsWritten([5, 5, 5])
    ensures !CheckIsSafe([5, 5, 5])
  {
    assert Constant([5, 5, 5]);
    assert !GraduallyIncreasing([5, 5, 5]) by {
      assert !(1 <= [5, 5, 5][1] - [5, 5, 5][0]);
    }
    assert !GraduallyDecreasing([5, 5, 5]) by {
      assert !(1 <= [5, 5, 5][0] - [5, 5, 5][1]);
    }
  }

  /** The same report in part 2: part2_line accepts 5 5 5 and 5 5, while
      with the corrected check no candidate of 5 5 5 passes. */
  lemma ConstantReportTolerable()
    ensures Tolerable([5, 5, 5], false)
    ensures Checkable([5, 5], false) && Tolerable([5, 5], false)
    ensures !Tolerable([5, 5, 5], true)
  {
    ConstantReportSafe();
    assert Constant([5, 5]);
    var r := [5, 5, 5];
    forall i | 0 <= i < |r|
      ensures !Judge(Remove(r, i), true)
    {
      Unsafe(Remove(r, i), 0);
    }
  }

  /** A step of 0 or of more than 3 makes a report unsafe. */
  lemma BadStep(levels: seq<int>, i: nat)
    requires i < |levels| - 1
    requires Abs(levels[i + 1] - levels[i]) == 0 || Abs(levels[i + 1] - levels[i]) > 3
    ensures !GraduallyIncreasing(levels) && !GraduallyDecreasing(levels)
  {
  }

  /** A step up and a step down make a report unsafe. */
  lemma MixedSteps(levels: seq<int>, i: nat, j: nat)
    requires i < |levels| - 1 && j < |levels| - 1
    requires levels[i] < levels[i + 1] && levels[j] > levels[j + 1]
    ensures !GraduallyIncreasing(levels) && !GraduallyDecreasing(levels)
  {
  }

  /** The program's part1_examples table, evaluated by the check as
      written. */
  lemma Part1Examples()
    ensures CheckIsSafeAsWritten([7, 6, 4, 2, 1])
    ensures !CheckIsSafeAsWritten([1, 2, 7, 8, 9])
    ensures !CheckIsSafeAsWritten([9, 7, 6, 2, 1])
    ensures !CheckIsSafeAsWritten([1, 3, 2, 4, 5])
    ensures !CheckIsSafeAsWritten([8, 6, 4, 4, 1])
    ensures CheckIsSafeAsWritten([1, 3, 6, 7, 9])
  {
    SafeDown();
    SafeUp();
    StrictUnsafe([1, 2, 7, 8, 9], 1);
    StrictUnsafe([9, 7, 6, 2, 1], 2);
    StrictUnsafe([8, 6, 4, 4, 1], 2);
    UpThenDown();
  }

  lemma UpThenDown()
    ensures !CheckIsSafeAsWritten([1, 3, 2, 4, 5])
  {
    var r := [1, 3, 2, 4, 5];
    assert r[0] < r[1] && r[1] > r[2];
    MixedSteps(r, 0, 1);
  }

  lemma SafeDown()
    ensures CheckIsSafeAsWritten([7, 6, 4, 2, 1])
  {
    assert GraduallyDecreasing([7, 6, 4, 2, 1]);
  }

  lemma SafeUp()
    ensures CheckIsSafeAsWritten([1, 3, 6, 7, 9])
  {
    assert GraduallyIncreasing([1, 3, 6, 7, 9]);
  }

  /** A report with a step of 0 or of more than 3 fails the corrected
      check. */
  lemma Unsafe(levels: seq<int>, i: nat)
    requires i < |levels| - 1
    requires Abs(levels[i + 1] - levels[i]) == 0 || Abs(levels[i + 1] - levels[i]) > 3
    ensures !CheckIsSafe(levels)
  {
    BadStep(levels, i);
  }

  /** It fails the check as written too when the step is more than 3, or is
      0 in a report whose first step is not. */
  lemma StrictUnsafe(levels: seq<int>, i: nat)
    requires i < |levels| - 1
    requires Abs(levels[i + 1] - levels[i]) > 3 || (levels[i] == levels[i + 1] && levels[0] != levels[1])
    ensures !CheckIsSafeAsWritten(levels)
  {
    BadStep(levels, i);
    if Abs(levels[i + 1] - levels[i]) > 3 {
      assert levels[i] != levels[i + 1];
    } else {
      assert levels[0] != levels[1];
    }
  }

  /** The program's part2_examples table: "1 3 2 4 5" and "8 6 4 4 1" are
      rescued by removing a single level, the other two unsafe reports are
      not. */
  lemma Part2Examples()
    ensures Tolerable([7, 6, 4, 2, 1], false)
    ensures !Tolerable([1, 2, 7, 8, 9], false)
    ensures !Tolerable([9, 7, 6, 2, 1], false)
    ensures Tolerable([1, 3, 2, 4, 5], false)
    ensures Tolerable([8, 6, 4, 4, 1], false)
    ensures Tolerable([1, 3, 6, 7, 9], false)
  {
    Part1Examples();
    Rescued1();
    Rescued2();
    NotTolerable1();
    NotTolerable2();
  }

  lemma Rescued1()
    ensures Tolerable([1, 3, 2, 4, 5], false)
  {
    assert Remove([1, 3, 2, 4, 5], 1) == [1, 2, 4, 5];
    assert GraduallyIncreasing([1, 2, 4, 5]);
  }

  lemma Rescued2()
    ensures Tolerable([8, 6, 4, 4, 1], false)
  {
    assert Remove([8, 6, 4, 4, 1], 2) == [8, 6, 4, 1];
    assert GraduallyDecreasing([8, 6, 4, 1]);
  }

  lemma NotTolerable1()
    ensures !Tolerable([1, 2, 7, 8, 9], false)
  {
    StrictUnsafe([1, 2, 7, 8, 9], 1);
    NoRemovalHelps1();
  }

  lemma NoRemovalHelps1()
    ensures forall i :: 0 <= i < 5 ==> !CheckIsSafeAsWritten(Remove([1, 2, 7, 8, 9], i))
  {
    var r := [1, 2, 7, 8, 9];
    forall i | 0 <= i < |r|
      ensures !CheckIsSafeAsWritten(Remove(r, i))
    {
      if i == 0 {
        StrictUnsafe(Remove(r, 0), 0);
      } else if i == 1 {
        StrictUnsafe(Remove(r, 1), 0);
      } else {
        StrictUnsafe(Remove(r, i), 1);
      }
    }
  }

  lemma NotTolerable2()
    ensures !Tolerable([9, 7, 6, 2, 1], false)
  {
    StrictUnsafe([9, 7, 6, 2, 1], 2);
    NoRemovalHelps2();
  }

  lemma NoRemovalHelps2()
    ensures forall i :: 0 <= i < 5 ==> !CheckIsSafeAsWritten(Remove([9, 7, 6, 2, 1], i))
  {
    var r := [9, 7, 6, 2, 1];
    forall i | 0 <= i < |r|
      ensures !CheckIsSafeAsWritten(Remove(r, i))
    {
      if i <= 2 {
        StrictUnsafe(Remove(r, i), 1);
      } else {
        StrictUnsafe(Remove(r, i), 2);
      }
    }
  }
}
