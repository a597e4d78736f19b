/** The "ripple" schedule of N:M sparsity-ratio percentages
    (`generate_ripple_effect` in sparsity_ratios.py).

    For an array of height M there are M / 2 ratio buckets (N = 1 .. M/2). A step
    is one percentage per bucket. The schedule starts with everything in the
    first bucket and repeatedly moves `step` percent from the leftmost non-empty
    bucket to its right neighbour, until the last bucket holds everything. */
module Ripple {

  function Sum(s: seq<int>): int {
    SumTo(s, |s|)
  }

  /** The sum of the first `n` buckets. */
  function SumTo(s: seq<int>, n: nat): int
    requires n <= |s|
  {
    if n == 0 then 0 else SumTo(s, n - 1) + s[n - 1]
  }

  /** Percentage mass weighted by bucket index: how far the mass has rippled right. */
  function Progress(s: seq<int>): int {
    ProgressTo(s, |s|)
  }

  function ProgressTo(s: seq<int>, n: nat): int
    requires n <= |s|
  {
    if n == 0 then 0 else ProgressTo(s, n - 1) + s[n - 1] * (n - 1)
  }

  function Zeros(n: nat): (z: seq<int>)
    ensures |z| == n && forall j :: 0 <= j < n ==> z[j] == 0
  {
    seq(n, _ => 0)
  }

  /** `[100] + [0] * (n - 1)`: everything on ratio 1:M. */
  function FirstStep(n: nat): seq<int>
    requires n >= 1
  {
    [100] + Zeros(n - 1)
  }

  /** `[0] * (n - 1) + [100]`: everything on the coarsest ratio. */
  function FinalStep(n: nat): seq<int>
    requires n >= 1
  {
    Zeros(n - 1) + [100]
  }

  /** Ratio bucket `j` holds a positive percentage in some step of the schedule. */
  predicate Active(steps: seq<seq<int>>, j: int) {
    exists k :: 0 <= k < |steps| && 0 <= j < |steps[k]| && steps[k][j] > 0
  }

  /** The steps for which the schedule stays on multiples of the step and ends. */
  predicate DividesHundred(step: int) {
    0 < step && 100 % step == 0
  }

  /** The schedule invariant: non-negative multiples of `step` summing to 100. */
  predicate WellFormed(p: seq<int>, step: int)
    requires step > 0
  {
    && (forall j :: 0 <= j < |p| ==> 0 <= p[j] && p[j] % step == 0)
    && Sum(p) == 100
  }

  /** Index of the first bucket holding a positive percentage, `|p|` if none. */
  function LeftmostPositive(p: seq<int>): (i: nat)
    ensures i <= |p|
    ensures forall j :: 0 <= j < i ==> p[j] <= 0
    ensures i < |p| ==> p[i] > 0
  {
    FirstPositiveFrom(p, 0)
  }

  /** The scan `for i in range(k, len(p)): if p[i] > 0: break`. */
  function FirstPositiveFrom(p: seq<int>, k: nat): (i: nat)
    requires k <= |p|
    requires forall j :: 0 <= j < k ==> p[j] <= 0
    ensures k <= i <= |p|
    ensures forall j :: 0 <= j < i ==> p[j] <= 0
    ensures i < |p| ==> p[i] > 0
    decreases |p| - k
  {
    if k == |p| then k else if p[k] > 0 then k else FirstPositiveFrom(p, k + 1)
  }

  /** One pass of the inner `for i in range(num_ratios)` loop: the leftmost
      positive bucket gives `step` to its right neighbour (if it has one) and
      every other bucket is left as it was. */
  function Move(p: seq<int>, step: int): (r: seq<int>)
    ensures |r| == |p|
    ensures LeftmostPositive(p) == |p| ==> r == p
    ensures LeftmostPositive(p) < |p| ==>
              r[LeftmostPositive(p)] == p[LeftmostPositive(p)] - step
    ensures LeftmostPositive(p) + 1 < |p| ==>
              r[LeftmostPositive(p) + 1] == p[LeftmostPositive(p) + 1] + step
    ensures forall j :: 0 <= j < |p| && j != LeftmostPositive(p) && j != LeftmostPositive(p) + 1
              ==> r[j] == p[j]
  {
    var i := LeftmostPositive(p);
    if i == |p| then p
    else if i + 1 < |p| then p[i := p[i] - step][i + 1 := p[i + 1] + step]
    else p[i := p[i] - step]
  }

  /** `generate_ripple_effect(M, step_size)`.

      M must be at least 2: for smaller M the source indexes an empty list.
      For M = 2 or 3 there is one bucket, the `while` test fails at once and
      every step, even 0 or a negative one, gives `[[100]]`. From M = 4 on the
      step must be positive and divide 100, which the source does not check:
      a step of 0 or less never ends the loop (`NonPositiveStepNeverEnds`), and
      a positive step that does not divide 100 records percentages that are
      not multiples of the step and a final step that is not one move on from
      the one before (`NonDividingStepSkipsToFinal`, M = 4); from M = 6 on it
      also records negative percentages (`NonDividingStepGoesNegative`). The
      default `step_size=10`, which the script's one call uses, divides 100. */
  method GenerateRipple(m: int, step: int) returns (steps: seq<seq<int>>)
    requires m >= 2
    requires m / 2 >= 2 ==> DividesHundred(step)
    ensures |steps| >= 1
    ensures DividesHundred(step) ==> |steps| == 100 * (m / 2 - 1) / step + 1
    ensures forall k :: 0 <= k < |steps| ==> |steps[k]| == m / 2
    ensures steps[0] == FirstStep(m / 2)
    ensures steps[|steps| - 1] == FinalStep(m / 2)
    ensures DividesHundred(step) ==> forall k :: 0 <= k < |steps| ==> WellFormed(steps[k], step)
    ensures forall k :: 0 <= k < |steps| - 1 ==> steps[k][m / 2 - 1] < 100
    ensures forall k :: 0 <= k < |steps| - 1 ==> steps[k + 1] == Move(steps[k], step)
    ensures m / 2 == 1 ==> steps == [[100]]
    ensures forall j :: 0 <= j < m / 2 ==> Active(steps, j)
  {
    var n := m / 2;
    var p := Zeros(n)[0 := 100];
    assert p == FirstStep(n);
    if n == 1 {
      // The one bucket already holds 100: nothing is recorded before the final step.
      assert Zeros(0) == [] && p == [100] == FinalStep(1);
      steps := [FinalStep(1)];
      if DividesHundred(step) {
        FirstStepWellFormed(1, step);
      }
      return;
    }
    assert LeftmostPositive(p) == 0;
    FirstStepWellFormed(n, step);
    steps := [];
    while p[n - 1] < 100
      invariant |p| == n && Partial(n, step, steps, p)
      decreases 100 * (n - 1) - Progress(p)
    {
      ProgressBound(p);
      assert Progress(p) <= 100 * (n - 1);
      var before := p;
      p := MoveStep(p, step);
      ExtendPartial(n, step, steps, before);
      steps := steps + [before];
      ProgressBound(p);
      assert Progress(p) <= 100 * (n - 1);
    }
    var recorded := steps;
    steps := steps + [p];
    FinishPartial(n, step, recorded, p, steps);
  }

  /** The inner loop of `generate_ripple_effect`: scan for the leftmost positive
      bucket, move `step` percent from it to its right neighbour, stop. */
  method MoveStep(p: seq<int>, step: int) returns (r: seq<int>)
    ensures r == Move(p, step)
  {
    var n := |p|;
    var i := 0;
    while i < n && p[i] <= 0
      invariant 0 <= i <= n
      invariant forall j :: 0 <= j < i ==> p[j] <= 0
    {
      i := i + 1;
    }
    r := p;
    if i < n {
      r := r[i := r[i] - step];
      if i + 1 < n {
        r := r[i + 1 := r[i + 1] + step];
      }
    }
    assert i == LeftmostPositive(p);
  }

  /** The loop invariant of `GenerateRipple`: `steps` is the schedule recorded so
      far and `p` the step about to be recorded. */
  predicate Partial(n: nat, step: int, steps: seq<seq<int>>, p: seq<int>)
    requires 0 < step
  {
    && n >= 1 && |p| == n && WellFormed(p, step)
    && Progress(p) == step * |steps|
    && (forall k :: 0 <= k < |steps| ==>
          |steps[k]| == n && WellFormed(steps[k], step) && steps[k][n - 1] < 100)
    && (|steps| == 0 ==> p == FirstStep(n))
    && (|steps| > 0 ==> steps[0] == FirstStep(n))
    && (forall k :: 0 <= k < |steps| - 1 ==> steps[k + 1] == Move(steps[k], step))
    && (|steps| > 0 ==> p == Move(steps[|steps| - 1], step))
    && (forall j :: 0 <= j < LeftmostPositive(p) ==> Active(steps, j))
  }

  /** Recording a step whose last bucket is below 100 and moving on keeps the invariant. */
  lemma ExtendPartial(n: nat, step: int, steps: seq<seq<int>>, p: seq<int>)
    requires 0 < step && Partial(n, step, steps, p) && p[n - 1] < 100
    ensures Partial(n, step, steps + [p], Move(p, step))
    ensures Progress(Move(p, step)) == Progress(p) + step
  {
    MoveKeepsSchedule(p, step);
    var i := LeftmostPositive(p);
    var r := Move(p, step);
    var steps' := steps + [p];
    Distribute(step, |steps|);
    forall j | 0 <= j < LeftmostPositive(r)
      ensures Active(steps', j)
    {
      if j == i {
        assert steps'[|steps'| - 1][j] > 0;
      } else {
        assert j < LeftmostPositive(p);
        assert Active(steps, j);
        var k :| 0 <= k < |steps| && 0 <= j < |steps[k]| && steps[k][j] > 0;
        assert steps'[k] == steps[k];
      }
    }
  }

  /** Once the last bucket holds everything, recording it completes the schedule. */
  lemma FinishPartial(n: nat, step: int, steps: seq<seq<int>>, p: seq<int>, all: seq<seq<int>>)
    requires 0 < step && 100 % step == 0 && Partial(n, step, steps, p) && p[n - 1] >= 100
    requires all == steps + [p]
    ensures |all| == 100 * (n - 1) / step + 1
    ensures forall k :: 0 <= k < |all| ==> |all[k]| == n
    ensures all[0] == FirstStep(n)
    ensures all[|all| - 1] == FinalStep(n)
    ensures forall k :: 0 <= k < |all| ==> WellFormed(all[k], step)
    ensures forall k :: 0 <= k < |all| - 1 ==> all[k][n - 1] < 100
    ensures forall k :: 0 <= k < |all| - 1 ==> all[k + 1] == Move(all[k], step)
    ensures n == 1 ==> all == [[100]]
    ensures forall j :: 0 <= j < n ==> Active(all, j)
  {
    FullLastIsFinal(p, step);
    ProgressOfFinal(n);
    if n == 1 {
      assert step * |steps| == 0;
      if |steps| > 0 { MulAtLeast(step, |steps|); }
      assert steps == [];
      assert p == Zeros(0) + [100] == [100];
    }
    assert 100 * (n - 1) == step * |steps| + 0;
    DivModUnique(100 * (n - 1), step, |steps|, 0);
    forall j | 0 <= j < n
      ensures Active(all, j)
    {
      if j < n - 1 {
        assert j < LeftmostPositive(p) && Active(steps, j);
        var k :| 0 <= k < |steps| && 0 <= j < |steps[k]| && steps[k][j] > 0;
        assert all[k] == steps[k];
      } else {
        assert all[|all| - 1][j] > 0;
      }
    }
  }

  lemma FirstStepWellFormed(n: nat, step: int)
    requires n >= 1 && 0 < step && 100 % step == 0
    ensures WellFormed(FirstStep(n), step)
    ensures Progress(FirstStep(n)) == 0
  {
    var p := FirstStep(n);
    ZerosSum(n);
    Shift(Zeros(n), p, 0, 100);
    DivModUnique(0, step, 0, 0);
  }

  /** While the last bucket is below 100 a move stays inside the schedule and
      ripples exactly `step` percent one bucket further right. */
  lemma MoveKeepsSchedule(p: seq<int>, step: int)
    requires 0 < step && |p| >= 1 && WellFormed(p, step) && p[|p| - 1] < 100
    ensures LeftmostPositive(p) < |p| - 1
    ensures WellFormed(Move(p, step), step)
    ensures Progress(Move(p, step)) == Progress(p) + step
    ensures LeftmostPositive(p) <= LeftmostPositive(Move(p, step)) <= LeftmostPositive(p) + 1
  {
    var i := LeftmostPositive(p);
    LeftmostBeforeLast(p, step);
    var r := p[i := p[i] - step][i + 1 := p[i + 1] + step];
    MoveAt(p, i, step);
    MoveSumProgress(p, r, i, step);
    MoveMultiples(p, r, i, step);
    assert r[i + 1] > 0;
  }

  lemma LeftmostBeforeLast(p: seq<int>, step: int)
    requires 0 < step && |p| >= 1 && WellFormed(p, step) && p[|p| - 1] < 100
    ensures LeftmostPositive(p) < |p| - 1
  {
    if LeftmostPositive(p) >= |p| - 1 {
      SumOfEmptyPrefix(p);
    }
  }

  lemma MoveAt(p: seq<int>, i: nat, step: int)
    requires i + 1 < |p| && i == LeftmostPositive(p)
    ensures Move(p, step) == p[i := p[i] - step][i + 1 := p[i + 1] + step]
  {
  }

  lemma MoveSumProgress(p: seq<int>, r: seq<int>, i: nat, step: int)
    requires i + 1 < |p| && r == p[i := p[i] - step][i + 1 := p[i + 1] + step]
    ensures Sum(r) == Sum(p)
    ensures Progress(r) == Progress(p) + step
  {
    var q := p[i := p[i] + (-step)];
    Shift(p, q, i, -step);
    assert r == q[i + 1 := q[i + 1] + step];
    Shift(q, r, i + 1, step);
    Distribute(step, i);
  }

  lemma MoveMultiples(p: seq<int>, r: seq<int>, i: nat, step: int)
    requires 0 < step && WellFormed(p, step)
    requires i + 1 < |p| && p[i] > 0 && r == p[i := p[i] - step][i + 1 := p[i + 1] + step]
    ensures forall j :: 0 <= j < |r| ==> 0 <= r[j] && r[j] % step == 0
  {
    MultipleStep(p[i], p[i + 1], step);
  }

  /** Taking `step` from a positive multiple of `step`, or adding it to one,
      leaves a non-negative multiple of `step`. */
  lemma MultipleStep(a: int, b: int, step: int)
    requires 0 < step && a > 0 && a % step == 0 && b >= 0 && b % step == 0
    ensures a - step >= 0 && (a - step) % step == 0 && (b + step) % step == 0
  {
    var qa := a / step;
    var qb := b / step;
    assert a == step * qa + a % step;
    assert b == step * qb + b % step;
    if qa <= 0 {
      if qa < 0 { MulAtMost(step, qa); }
      assert false;
    }
    Distribute(step, qa - 1);
    Distribute(step, qb);
    DivModUnique(a - step, step, qa - 1, 0);
    DivModUnique(b + step, step, qb + 1, 0);
    if qa - 1 < 0 { MulAtMost(step, qa - 1); }
  }

  lemma Distribute(step: int, q: int)
    ensures step * (q + 1) == step * q + step
    ensures (-step) * q + step * (q + 1) == step
  {
  }

  lemma MulAtLeast(step: int, d: int)
    requires step > 0 && d >= 1
    ensures step * d >= step
  {
  }

  lemma MulAtMost(step: int, d: int)
    requires step > 0 && d <= -1
    ensures step * d <= -step
  {
  }

  lemma MulDifference(step: int, q: int, q0: int)
    ensures step * (q - q0) == step * q - step * q0
  {
  }

  /** Euclidean quotient and remainder are unique. */
  lemma DivModUnique(x: int, step: int, q: int, r: int)
    requires 0 < step && 0 <= r < step && x == step * q + r
    ensures x % step == r && x / step == q
  {
    var q0 := x / step;
    var r0 := x % step;
    assert x == step * q0 + r0;
    if q > q0 {
      MulAtLeast(step, q - q0);
      MulDifference(step, q, q0);
    }
    if q < q0 {
      MulAtMost(step, q - q0);
      MulDifference(step, q, q0);
    }
  }

  /** With every bucket but the last empty, the sum is the last bucket. */
  lemma SumOfEmptyPrefix(p: seq<int>)
    requires |p| >= 1
    requires forall j :: 0 <= j < |p| - 1 ==> p[j] == 0
    ensures Sum(p) == p[|p| - 1]
  {
    ZeroPrefix(p, |p| - 1);
  }

  lemma {:induction false} ZeroPrefix(p: seq<int>, k: nat)
    requires k <= |p|
    requires forall j :: 0 <= j < k ==> p[j] == 0
    ensures SumTo(p, k) == 0 && ProgressTo(p, k) == 0
  {
    if k > 0 {
      ZeroPrefix(p, k - 1);
    }
  }

  lemma ZerosSum(n: nat)
    ensures Sum(Zeros(n)) == 0 && Progress(Zeros(n)) == 0
  {
    ZeroPrefix(Zeros(n), n);
  }

  lemma {:induction false} SumNonNegative(p: seq<int>, k: nat)
    requires k <= |p|
    requires forall j :: 0 <= j < |p| ==> 0 <= p[j]
    ensures SumTo(p, k) >= 0
  {
    if k > 0 {
      SumNonNegative(p, k - 1);
    }
  }

  /** A non-negative step whose last bucket holds at least 100 is the final step. */
  lemma FullLastIsFinal(p: seq<int>, step: int)
    requires 0 < step && |p| >= 1 && WellFormed(p, step) && p[|p| - 1] >= 100
    ensures p == FinalStep(|p|)
  {
    var n := |p|;
    SumNonNegative(p, n - 1);
    assert SumTo(p, n - 1) == 0;
    forall j | 0 <= j < n - 1
      ensures p[j] == 0
    {
      ZeroSumAllZero(p, n - 1, j);
    }
  }

  lemma {:induction false} ZeroSumAllZero(p: seq<int>, k: nat, j: int)
    requires k <= |p|
    requires forall i :: 0 <= i < |p| ==> 0 <= p[i]
    requires SumTo(p, k) == 0 && 0 <= j < k
    ensures p[j] == 0
  {
    SumNonNegative(p, k - 1);
    if j < k - 1 {
      ZeroSumAllZero(p, k - 1, j);
    }
  }

  lemma ProgressOfFinal(n: nat)
    requires n >= 1
    ensures Progress(FinalStep(n)) == 100 * (n - 1)
  {
    ZeroPrefix(FinalStep(n), n - 1);
  }

  /** The mass cannot ripple further than the last bucket. */
  lemma ProgressBound(p: seq<int>)
    requires |p| >= 1
    requires forall j :: 0 <= j < |p| ==> 0 <= p[j]
    ensures Progress(p) <= (|p| - 1) * Sum(p)
  {
    ProgressBoundTo(p, |p|);
  }

  lemma {:induction false} ProgressBoundTo(p: seq<int>, k: nat)
    requires 1 <= k <= |p|
    requires forall j :: 0 <= j < |p| ==> 0 <= p[j]
    ensures ProgressTo(p, k) <= (k - 1) * SumTo(p, k)
  {
    if k > 1 {
      ProgressBoundTo(p, k - 1);
      SumNonNegative(p, k - 1);
      var x := p[k - 1];
      var s := SumTo(p, k - 1);
      assert ProgressTo(p, k - 1) <= (k - 2) * s;
      MulMonotone(k - 2, k - 1, s);
      assert (k - 1) * (s + x) == (k - 1) * s + (k - 1) * x;
    }
  }

  lemma MulMonotone(a: int, b: int, s: int)
    requires a <= b && s >= 0
    ensures a * s <= b * s
  {
  }

  /** Adding `d` to bucket `i` adds `d` to the sum and `d * i` to the progress. */
  lemma Shift(s: seq<int>, t: seq<int>, i: int, d: int)
    requires 0 <= i < |s| && t == s[i := s[i] + d]
    ensures Sum(t) == Sum(s) + d
    ensures Progress(t) == Progress(s) + d * i
  {
    ShiftTo(s, t, i, d, |s|);
  }

  lemma {:induction false} ShiftTo(s: seq<int>, t: seq<int>, i: int, d: int, k: nat)
    requires 0 <= i < |s| && t == s[i := s[i] + d] && k <= |s|
    ensures SumTo(t, k) == SumTo(s, k) + (if i < k then d else 0)
    ensures ProgressTo(t, k) == ProgressTo(s, k) + (if i < k then d * i else 0)
  {
    if k > 0 {
      ShiftTo(s, t, i, d, k - 1);
      if i == k - 1 {
        ShiftWeight(s[i], d, i);
      }
    }
  }

  lemma ShiftWeight(x: int, d: int, i: int)
    ensures (x + d) * i == x * i + d * i
  {
  }

  /** From `M = 6` on, a positive step that does not divide 100 drives a bucket
      negative: for `M = 6` and a step of 30 the loop records `[10, 90, 0]` and
      then `[-20, 120, 0]`. */
  lemma NonDividingStepGoesNegative()
    ensures Move([100, 0, 0], 30) == [70, 30, 0]
    ensures Move([70, 30, 0], 30) == [40, 60, 0]
    ensures Move([40, 60, 0], 30) == [10, 90, 0]
    ensures Move([10, 90, 0], 30) == [-20, 120, 0]
    ensures Move([-20, 120, 0], 30) == [-20, 90, 30]
  {
    MoveAtExample([100, 0, 0], 0, 30);
    MoveAtExample([70, 30, 0], 0, 30);
    MoveAtExample([40, 60, 0], 0, 30);
    MoveAtExample([10, 90, 0], 0, 30);
    MoveAtExample([-20, 120, 0], 1, 30);
  }

  /** A state whose leftmost positive bucket is `i` and has a right neighbour. */
  lemma MoveAtExample(p: seq<int>, i: nat, step: int)
    requires i + 1 < |p| && p[i] > 0 && forall j :: 0 <= j < i ==> p[j] <= 0
    ensures Move(p, step) == p[i := p[i] - step][i + 1 := p[i + 1] + step]
  {
    assert LeftmostPositive(p) == i;
  }

  /** For `M = 4` (two buckets) and a step of 30 the loop records
      `[100, 0]`, `[70, 30]`, `[40, 60]` and `[10, 90]`, whose entries are not
      multiples of 30; the next move gives `[-20, 120]`, which ends the loop
      and is replaced by the final `[0, 100]`, not one move on from `[10, 90]`. */
  lemma NonDividingStepSkipsToFinal()
    ensures Move([100, 0], 30) == [70, 30]
    ensures Move([70, 30], 30) == [40, 60]
    ensures Move([40, 60], 30) == [10, 90]
    ensures Move([10, 90], 30) == [-20, 120] != FinalStep(2)
    ensures 70 % 30 != 0
  {
    MoveAtExample([100, 0], 0, 30);
    MoveAtExample([70, 30], 0, 30);
    MoveAtExample([40, 60], 0, 30);
    MoveAtExample([10, 90], 0, 30);
    assert FinalStep(2)[0] == 0;
  }

  /** The state after `k` passes of the `while` body. */
  function Moves(p: seq<int>, step: int, k: nat): (r: seq<int>)
    ensures |r| == |p|
  {
    if k == 0 then p else Move(Moves(p, step, k - 1), step)
  }

  /** With two or more buckets and a step of 0 or less, the first bucket only
      grows and the second only shrinks, so after any number of passes the
      last bucket is still below 100 and the `while` loop never ends. */
  lemma NonPositiveStepNeverEnds(n: nat, step: int, k: nat)
    requires n >= 2 && step <= 0
    ensures Moves(FirstStep(n), step, k)[n - 1] < 100
  {
    NonPositiveStepMoves(n, step, k);
  }

  /** After `k` passes the first bucket holds `100 - step * k`, the second
      `step * k` and the rest nothing. */
  lemma {:induction false} NonPositiveStepMoves(n: nat, step: int, k: nat)
    requires n >= 2 && step <= 0
    ensures Moves(FirstStep(n), step, k)[0] == 100 - step * k
    ensures Moves(FirstStep(n), step, k)[1] == step * k <= 0
    ensures forall j :: 2 <= j < n ==> Moves(FirstStep(n), step, k)[j] == 0
  {
    MulNonPositive(step, k);
    if k > 0 {
      NonPositiveStepMoves(n, step, k - 1);
      var p := Moves(FirstStep(n), step, k - 1);
      var r := Moves(FirstStep(n), step, k);
      assert r == Move(p, step);
      MulNonPositive(step, k - 1);
      MoveAtExample(p, 0, step);
      Distribute(step, k - 1);
    }
  }

  lemma MulNonPositive(step: int, k: nat)
    requires step <= 0
    ensures step * k <= 0
  {
  }
}
