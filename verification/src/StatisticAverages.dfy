/** The truncating average for samples of either sign: C++ division rounds towards zero, at every level of the cascade. */
module StatisticAverages {
  import opened Base
  import opened StatisticSpec

  function Abs(n: int): nat
  {
    if n < 0 then -n else n
  }

  function AbsSum(xs: seq<int>): nat
    decreases |xs|
  {
    if xs == [] then 0 else AbsSum(xs[..|xs| - 1]) + Abs(xs[|xs| - 1])
  }

  lemma {:induction false} AbsSumConcat(xs: seq<int>, ys: seq<int>)
    ensures AbsSum(xs + ys) == AbsSum(xs) + AbsSum(ys)
    decreases |ys|
  {
    if ys == [] {
      assert xs + ys == xs;
    } else {
      assert (xs + ys)[..|xs + ys| - 1] == xs + ys[..|ys| - 1];
      AbsSumConcat(xs, ys[..|ys| - 1]);
    }
  }

  /** The remainder is smaller than the divisor and has the sign of the dividend. */
  lemma TruncDivTruncates(n: int, d: int)
    requires d > 0
    ensures var q, r := TruncDiv(n, d), n - d * TruncDiv(n, d);
            && Abs(r) < d && (n >= 0 ==> r >= 0 && q >= 0) && (n <= 0 ==> r <= 0 && q <= 0) && Abs(q) <= Abs(n)
  {
    if n >= 0 { DivIsSmaller(n, d); } else { DivIsSmaller(-n, d); }
  }

  lemma DivIsSmaller(n: nat, d: int)
    requires d > 0
    ensures 0 <= n / d <= n && 0 <= n - d * (n / d) < d
  {
    assert n == d * (n / d) + n % d;
    if n / d > 0 {
      TimesIsLarger(n / d, d);
    }
  }

  lemma TimesIsLarger(q: nat, d: nat)
    requires d > 0
    ensures q <= d * q
  {}

  /** As long as the magnitudes fit the type, accumulating does not wrap. */
  lemma {:induction false} AccumulateIsExact(ty: IntType, xs: seq<int>)
    requires Signed(ty) && AbsSum(xs) <= Highest(ty)
    ensures Accumulate(AVERAGE, ty, xs) == Sum(xs) && Abs(Sum(xs)) <= AbsSum(xs)
    decreases |xs|
  {
    if xs != [] {
      AccumulateIsExact(ty, xs[..|xs| - 1]);
      WrapInRange(ty, Sum(xs));
    }
  }

  /** `v` is off by no more than one cascaded average of `level` may be, and is no larger than the samples together. */
  predicate IsNear(level: nat, window: seq<int>, v: int)
    requires level < LEVELS
  {
    Abs(Sum(window) - Span(level, v)) <= SlackOf(level, 1) && Abs(v) <= AbsSum(window)
  }

  lemma AddPart(window: seq<int>, level: nat, i: nat)
    requires 0 < level < LEVELS && |window| == Increment(level) && i < Period(level)
    ensures 0 <= Span(level - 1, i) < Span(level - 1, i + 1) <= |window|
    ensures Sum(window[..Span(level - 1, i + 1)]) == Sum(window[..Span(level - 1, i)]) + Sum(Part(window, level, i))
    ensures AbsSum(window[..Span(level - 1, i + 1)]) == AbsSum(window[..Span(level - 1, i)]) + AbsSum(Part(window, level, i))
  {
    PartFollows(window, level, i);
    SumConcat(window[..Span(level - 1, i)], Part(window, level, i));
    AbsSumConcat(window[..Span(level - 1, i)], Part(window, level, i));
  }

  lemma NearMore(level: nat, covered: int, count: nat, sum: int, part: int, v: int)
    requires level < LEVELS && count > 0
    requires Abs(covered - Span(level, sum)) <= SlackOf(level, count - 1) && Abs(part - Span(level, v)) <= SlackOf(level, 1)
    ensures Abs(covered + part - Span(level, sum + v)) <= SlackOf(level, count)
  {}

  lemma SumAppend(xs: seq<int>, x: int)
    ensures Sum(xs + [x]) == Sum(xs) + x && AbsSum(xs + [x]) == AbsSum(xs) + Abs(x)
  {
    assert (xs + [x])[..|xs|] == xs;
  }

  /** The values of the first parts together are off by little. */
  predicate AreNear(window: seq<int>, level: nat, values: seq<int>)
    requires 0 < level < LEVELS && |window| == Increment(level)
  {
    && 0 <= Span(level - 1, |values|) <= |window|
    && Abs(Sum(window[..Span(level - 1, |values|)]) - Span(level - 1, Sum(values))) <= SlackOf(level - 1, |values|)
    && AbsSum(values) <= AbsSum(window[..Span(level - 1, |values|)])
  }

  lemma OnePartIsNear(window: seq<int>, level: nat, front: seq<int>, v: int)
    requires 0 < level < LEVELS && |window| == Increment(level) && |front| < Period(level)
    requires AreNear(window, level, front) && IsNear(level - 1, Part(window, level, |front|), v)
    ensures AreNear(window, level, front + [v])
  {
    var n, values := |front|, front + [v];
    AddPart(window, level, n);
    SumAppend(front, v);
    var covered, part := window[..Span(level - 1, n)], Part(window, level, n);
    NearMore(level - 1, Sum(covered), |values|, Sum(front), Sum(part), v);
    assert AbsSum(values) <= AbsSum(covered) + AbsSum(part);
  }

  lemma NoPartsAreNear(window: seq<int>, level: nat)
    requires 0 < level < LEVELS && |window| == Increment(level)
    ensures AreNear(window, level, [])
  {
    assert window[..0] == [] && Span(level - 1, 0) == 0 && SlackOf(level - 1, 0) == 0;
  }

  lemma {:induction false} PartsAreNear(window: seq<int>, level: nat, values: seq<int>)
    requires 0 < level < LEVELS && |window| == Increment(level) && |values| <= Period(level)
    requires forall i :: 0 <= i < |values| ==> IsNear(level - 1, Part(window, level, i), values[i])
    ensures AreNear(window, level, values)
    decreases |values|
  {
    if values == [] {
      NoPartsAreNear(window, level);
    } else {
      var front, v := values[..|values| - 1], values[|values| - 1];
      PartsAreNear(window, level, front);
      OnePartIsNear(window, level, front, v);
      assert values == front + [v];
    }
  }

  lemma LevelsComposeNear(level: nat, total: int, sum: int)
    requires 0 < level < LEVELS && Abs(total - Span(level - 1, sum)) <= SlackOf(level - 1, Period(level))
    ensures Abs(total - Span(level, TruncDiv(sum, Period(level)))) <= SlackOf(level, 1)
  {
    match level {
      case 1 => TruncDivTruncates(sum, 10);
      case 2 => TruncDivTruncates(sum, 10);
      case 3 => TruncDivTruncates(sum, 6);
      case _ => TruncDivTruncates(sum, 10);
    }
  }

  lemma AverageOfNearParts(ty: IntType, window: seq<int>, level: nat, values: seq<int>)
    requires Signed(ty) && AbsSum(window) <= Highest(ty)
    requires 0 < level < LEVELS && |window| == Increment(level) && |values| == Period(level)
    requires forall i :: 0 <= i < |values| ==> IsNear(level - 1, Part(window, level, i), values[i])
    ensures IsNear(level, window, Reduce(AVERAGE, ty, values))
  {
    PartsAreNear(window, level, values);
    assert window[..Span(level - 1, |values|)] == window;
    AccumulateIsExact(ty, values);
    TruncDivTruncates(Sum(values), Period(level));
    LevelsComposeNear(level, Sum(window), Sum(values));
  }

  lemma {:induction false} AbsSumOfPart(window: seq<int>, level: nat, i: nat)
    requires 0 < level < LEVELS && |window| == Increment(level) && i < Period(level)
    ensures AbsSum(Part(window, level, i)) <= AbsSum(window)
  {
    AddPart(window, level, i);
    var front, rest := window[..Span(level - 1, i + 1)], window[Span(level - 1, i + 1)..];
    assert window == front + rest;
    AbsSumConcat(front, rest);
  }

  /**
   * The cascaded average of samples of either sign is off, over a whole window, by at most 9, 180, 1580 and 21200
   * in either direction, provided that their magnitudes together fit the type.
   */
  lemma {:induction false} AverageIsNear(ty: IntType, window: seq<int>, level: nat)
    requires Signed(ty) && AbsSum(window) <= Highest(ty)
    requires level < LEVELS && |window| == Increment(level)
    ensures IsNear(level, window, Cascade(AVERAGE, ty, window, level))
    decreases level
  {
    if level == 0 {
      assert window == [] + [window[0]];
      SumAppend([], window[0]);
    } else {
      var values := seq(Period(level), i requires 0 <= i < Period(level) =>
                                         Cascade(AVERAGE, ty, Part(window, level, i), level - 1));
      forall i | 0 <= i < |values| ensures IsNear(level - 1, Part(window, level, i), values[i]) {
        AbsSumOfPart(window, level, i);
        AverageIsNear(ty, Part(window, level, i), level - 1);
      }
      AverageOfNearParts(ty, window, level, values);
    }
  }
}
