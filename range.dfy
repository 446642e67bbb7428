/** The iteration count of Python's `range(start, stop, step)` as both validator
    generations compute it, and the sequence of values `range` yields. */
module RangeArithmetic {

  /** The iteration formula of both validators. Each divisor is positive, so Dafny's
      Euclidean `/` agrees with Python's floor division `//`. The count is the ceiling
      of the distance over the step. */
  function Iterations(start: int, stop: int, step: int): (n: int)
    requires step != 0
    ensures step > 0 ==> (n - 1) * step < stop - start <= n * step
    ensures step < 0 ==> (n - 1) * -step < start - stop <= n * -step
  {
    if step > 0 then
      CeilDiv(stop - start, step);
      (stop - start + step - 1) / step
    else
      CeilDiv(start - stop, -step);
      (start - stop - step - 1) / -step
  }

  /** `(x + d - 1) // d` is the ceiling of `x / d`. */
  lemma CeilDiv(x: int, d: int)
    requires d > 0
    ensures var q := (x + d - 1) / d; (q - 1) * d < x <= q * d
  {
    var q := (x + d - 1) / d;
    var r := (x + d - 1) % d;
    assert x + d - 1 == q * d + r && 0 <= r < d;
    assert (q - 1) * d == q * d - d;
  }

  /** The ceiling is unique. */
  lemma CeilUnique(x: int, d: int, a: int, b: int)
    requires d > 0
    requires (a - 1) * d < x <= a * d
    requires (b - 1) * d < x <= b * d
    ensures a == b
  {
    MulCancel(a, b - 1, d);
    MulCancel(b, a - 1, d);
  }

  lemma MulCancel(a: int, b: int, d: int)
    requires d > 0 && a * d > b * d
    ensures a > b
  {
    assert (a - b) * d == a * d - b * d;
  }

  lemma MulMono(a: int, b: int, d: int)
    requires a <= b && d > 0
    ensures a * d <= b * d
  {
    assert b * d - a * d == (b - a) * d;
  }

  /** The values `range(start, stop, step)` yields, in order. */
  function RangeValues(start: int, stop: int, step: int): (r: seq<int>)
    requires step != 0
    ensures forall i :: 0 <= i < |r| ==> r[i] == start + i * step
    ensures step > 0 ==> forall i :: 0 <= i < |r| ==> start <= r[i] < stop
    ensures step < 0 ==> forall i :: 0 <= i < |r| ==> stop < r[i] <= start
    decreases if step > 0 then stop - start else start - stop
  {
    if (step > 0 && start < stop) || (step < 0 && stop < start) then
      var rest := RangeValues(start + step, stop, step);
      ShiftValues(start, step, rest);
      [start] + rest
    else
      []
  }

  /** Putting `start` in front of the values from `start + step` on. */
  lemma ShiftValues(start: int, step: int, rest: seq<int>)
    requires forall j :: 0 <= j < |rest| ==> rest[j] == start + step + j * step
    ensures forall i :: 0 <= i < |rest| + 1 ==> ([start] + rest)[i] == start + i * step
  {
    forall i | 0 <= i < |rest| + 1 ensures ([start] + rest)[i] == start + i * step {
      if i > 0 {
        assert ([start] + rest)[i] == rest[i - 1];
        assert (i - 1) * step == i * step - step;
      }
    }
  }

  /** The formula counts exactly the values `range` yields; it goes negative only
      for ranges that are empty anyway. */
  lemma {:induction false} IterationsCountValues(start: int, stop: int, step: int)
    requires step != 0
    ensures |RangeValues(start, stop, step)| == if Iterations(start, stop, step) > 0 then Iterations(start, stop, step) else 0
    decreases if step > 0 then stop - start else start - stop
  {
    if (step > 0 && start < stop) || (step < 0 && stop < start) {
      IterationsCountValues(start + step, stop, step);
      IterationsStep(start, stop, step);
    } else {
      IterationsEmpty(start, stop, step);
    }
  }

  /** Taking the first value off a non-empty range counts one iteration fewer. */
  lemma IterationsStep(start: int, stop: int, step: int)
    requires (step > 0 && start < stop) || (step < 0 && stop < start)
    ensures Iterations(start, stop, step) >= 1
    ensures Iterations(start + step, stop, step) == Iterations(start, stop, step) - 1
  {
    var n := Iterations(start, stop, step);
    var m := Iterations(start + step, stop, step);
    if step > 0 {
      CeilShift(stop - start, step, n, m);
    } else {
      CeilShift(start - stop, -step, n, m);
    }
  }

  /** An empty range counts at most zero iterations. */
  lemma IterationsEmpty(start: int, stop: int, step: int)
    requires step != 0
    requires !((step > 0 && start < stop) || (step < 0 && stop < start))
    ensures Iterations(start, stop, step) <= 0
  {
    var n := Iterations(start, stop, step);
    if step > 0 {
      CeilNonPositive(stop - start, step, n);
    } else {
      CeilNonPositive(start - stop, -step, n);
    }
  }

  /** The ceiling of a positive `x / d` is one more than that of `(x - d) / d`. */
  lemma CeilShift(x: int, d: int, n: int, m: int)
    requires d > 0 && x > 0
    requires (n - 1) * d < x <= n * d
    requires (m - 1) * d < x - d <= m * d
    ensures n >= 1 && m == n - 1
  {
    assert (m + 1) * d == m * d + d;
    assert (m + 1 - 1) * d == m * d;
    CeilUnique(x, d, n, m + 1);
    MulCancel(n, 0, d);
  }

  /** The ceiling of a non-positive `x / d` is not positive. */
  lemma CeilNonPositive(x: int, d: int, n: int)
    requires d > 0 && x <= 0
    requires (n - 1) * d < x
    ensures n <= 0
  {
    MulCancel(0, n - 1, d);
  }
}
