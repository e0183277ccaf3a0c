/**
 * What the rings of a Statistic mean, in terms of the raw samples
 * (src/monitoring/statistics/collector/Statistic.cpp, src/include/monitoring/statistics/Statistic.hpp,
 * src/include/core/datatypes/VariableDatatype.hpp).
 */
module StatisticSpec {
  import opened Base

  // ---- The integer values of VariableDatatype ----

  datatype IntType = INT32 | UINT32 | INT64 | UINT64

  datatype Value = Invalid | Num(ty: IntType, n: int)

  function Modulus(ty: IntType): (m: int)
    ensures m > 0
  {
    if ty.INT32? || ty.UINT32? then WORD32 else WORD64
  }

  predicate Signed(ty: IntType) { ty.INT32? || ty.INT64? }

  function Lowest(ty: IntType): int { if Signed(ty) then -(Modulus(ty) / 2) else 0 }

  function Highest(ty: IntType): int { Lowest(ty) + Modulus(ty) - 1 }

  predicate InRange(ty: IntType, n: int) { Lowest(ty) <= n <= Highest(ty) }

  /** The value of type `ty` that is congruent to `n`; signed types wrap like two's complement. */
  function Wrap(ty: IntType, n: int): (w: int)
    ensures InRange(ty, w)
  {
    (n - Lowest(ty)) % Modulus(ty) + Lowest(ty)
  }

  /** C++ division by a positive divisor: it rounds towards zero. */
  function TruncDiv(n: int, d: int): int
    requires d > 0
  {
    if n >= 0 then n / d else -((-n) / d)
  }

  // ---- Levels ----

  datatype Operator = MIN | MAX | AVERAGE | SUM

  const HISTORY_SIZE: int := 10
  const LEVELS: int := 5
  const OPERATORS: int := 4

  /** How many samples `n` entries of a level stand for: n * measurementIncrement(level). */
  function Span(level: nat, n: int): (samples: int)
    requires level < LEVELS
    ensures n >= 0 ==> samples >= n
  {
    match level
    case 0 => n
    case 1 => 10 * n
    case 2 => 100 * n
    case 3 => 600 * n
    case _ => 6000 * n
  }

  /** measurementIncrement. */
  function Increment(level: nat): (inc: nat)
    requires level < LEVELS
    ensures inc > 0
  {
    Span(level, 1)
  }

  /** integrationPeriod: how many entries of the level below make one entry. */
  function Period(level: nat): (p: nat)
    requires 0 < level < LEVELS
    ensures 0 < p <= HISTORY_SIZE && Span(level - 1, p) == Increment(level)
  {
    if level == 3 then 6 else 10
  }

  lemma PeriodIsQuotient(level: nat)
    requires 0 < level < LEVELS
    ensures Period(level) == Increment(level) / Increment(level - 1)
  {}

  /** wrapIndex on a size_t. */
  function WrapIndex(index: int): (slot: nat)
    ensures slot <= HISTORY_SIZE
  {
    (index % WORD64) % (HISTORY_SIZE + 1)
  }

  // ---- Aggregation ----

  function Neutral(op: Operator, ty: IntType): (n: int)
    ensures InRange(ty, n)
  {
    match op
    case MIN => Highest(ty)
    case MAX => Lowest(ty)
    case _ => 0
  }

  function Combine(op: Operator, ty: IntType, acc: int, x: int): int
  {
    match op
    case MIN => if x < acc then x else acc
    case MAX => if acc < x then x else acc
    case _ => Wrap(ty, acc + x)
  }

  /** The accumulation loop of inferValue. */
  function Accumulate(op: Operator, ty: IntType, xs: seq<int>): int
    decreases |xs|
  {
    if xs == [] then Neutral(op, ty)
    else Combine(op, ty, Accumulate(op, ty, xs[..|xs| - 1]), xs[|xs| - 1])
  }

  /** inferValue on the entries of the level below. */
  function Reduce(op: Operator, ty: IntType, xs: seq<int>): int
    requires xs != []
  {
    var acc := Accumulate(op, ty, xs);
    if op.AVERAGE? then TruncDiv(acc, |xs|) else acc
  }

  /** The i-th of the equal parts a window of `level` is made of. */
  function Part(window: seq<int>, level: nat, i: nat): (part: seq<int>)
    requires 0 < level < LEVELS && |window| == Increment(level) && i < Period(level)
    ensures |part| == Increment(level - 1)
  {
    window[Span(level - 1, i)..Span(level - 1, i + 1)]
  }

  /** What the cascade computes from the raw samples of one window. */
  function Cascade(op: Operator, ty: IntType, window: seq<int>, level: nat): int
    requires level < LEVELS && |window| == Increment(level)
    decreases level
  {
    if level == 0 then window[0]
    else Reduce(op, ty, seq(Period(level), i requires 0 <= i < Period(level) =>
                                             Cascade(op, ty, Part(window, level, i), level - 1)))
  }

  /** The samples (q-1)*inc+1 to q*inc, counted from 1. */
  function Window(samples: seq<int>, level: nat, q: nat): (window: seq<int>)
    requires level < LEVELS && 1 <= q && Span(level, q) <= |samples|
    ensures |window| == Increment(level)
  {
    samples[Span(level, q - 1)..Span(level, q)]
  }

  // ---- The simple specification ----

  function Sum(xs: seq<int>): int
    decreases |xs|
  {
    if xs == [] then 0 else Sum(xs[..|xs| - 1]) + xs[|xs| - 1]
  }

  predicate AllInRange(ty: IntType, xs: seq<int>)
  {
    forall i :: 0 <= i < |xs| ==> InRange(ty, xs[i])
  }

  predicate IsMinimum(m: int, xs: seq<int>)
  {
    m in xs && forall i :: 0 <= i < |xs| ==> m <= xs[i]
  }

  predicate IsMaximum(m: int, xs: seq<int>)
  {
    m in xs && forall i :: 0 <= i < |xs| ==> xs[i] <= m
  }

  /** The aggregate of the raw samples themselves, without any cascade. */
  predicate IsAggregate(op: Operator, ty: IntType, v: int, window: seq<int>)
  {
    match op
    case MIN => IsMinimum(v, window)
    case MAX => IsMaximum(v, window)
    case SUM => v == Wrap(ty, Sum(window))
    case AVERAGE => true
  }

  // ---- MIN, MAX and SUM: the cascade computes the aggregate of the raw samples ----

  lemma WrapAdds(ty: IntType, a: int, b: int)
    ensures Wrap(ty, Wrap(ty, a) + b) == Wrap(ty, a + b)
  {
    var m, l := Modulus(ty), Lowest(ty);
    var q, r := (a - l) / m, (a - l) % m;
    assert a - l == m * q + r;
    ModShift(r + b, q, m);
    assert Wrap(ty, a) + b - l == r + b;
    assert a + b - l == r + b + m * q;
  }

  lemma ModShift(x: int, q: int, m: int)
    requires m > 0
    ensures (x + m * q) % m == x % m
    decreases if q < 0 then -q else q
  {
    if q > 0 {
      ModShift(x, q - 1, m);
      ModOnce(x + m * (q - 1), m);
      assert x + m * q == x + m * (q - 1) + m;
    } else if q < 0 {
      ModShift(x, q + 1, m);
      ModOnce(x + m * q, m);
      assert x + m * (q + 1) == x + m * q + m;
    }
  }

  lemma ModOnce(x: int, m: int)
    requires m > 0
    ensures (x + m) % m == x % m
  {
    var q, r := x / m, x % m;
    assert x == m * q + r;
    assert x + m == m * (q + 1) + r;
    DivIsUnique(x + m, q + 1, r, m);
  }

  lemma DivIsUnique(x: int, q: int, r: int, m: int)
    requires m > 0 && x == m * q + r && 0 <= r < m
    ensures x / m == q && x % m == r
  {
    var d := q - x / m;
    assert m * d == x % m - r;
    if d > 0 {
      MulGrows(m, d);
    } else if d < 0 {
      MulGrows(m, -d);
    }
  }

  lemma MulGrows(m: int, d: int)
    requires m > 0 && d > 0
    ensures m * d >= m
  {}

  lemma WrapInRange(ty: IntType, n: int)
    requires InRange(ty, n)
    ensures Wrap(ty, n) == n
  {}

  lemma {:induction false} SumConcat(xs: seq<int>, ys: seq<int>)
    ensures Sum(xs + ys) == Sum(xs) + Sum(ys)
    decreases |ys|
  {
    if ys == [] {
      assert xs + ys == xs;
    } else {
      assert (xs + ys)[..|xs + ys| - 1] == xs + ys[..|ys| - 1];
      SumConcat(xs, ys[..|ys| - 1]);
    }
  }

  lemma SumOne(x: int)
    ensures Sum([x]) == x
  {
    assert [x][..0] == [];
  }

  /** The first value meets the neutral element, every other one the aggregate of what came before. */
  lemma CombineJoins(op: Operator, ty: IntType, acc: int, xs: seq<int>, v: int, ys: seq<int>)
    requires !op.AVERAGE? && AllInRange(ty, ys) && IsAggregate(op, ty, v, ys)
    requires if xs == [] then acc == Neutral(op, ty) else IsAggregate(op, ty, acc, xs)
    ensures IsAggregate(op, ty, Combine(op, ty, acc, v), xs + ys)
  {
    if op.SUM? {
      SumConcat(xs, ys);
      if xs == [] { WrapInRange(ty, v); assert xs + ys == ys; }
      WrapAdds(ty, Sum(xs), v);
      WrapAdds(ty, Sum(ys), Sum(xs));
    } else if xs == [] {
      assert xs + ys == ys;
      var i :| 0 <= i < |ys| && ys[i] == v;
      assert InRange(ty, v);
    } else {
      assert forall i :: 0 <= i < |xs| ==> (xs + ys)[i] == xs[i];
      assert forall i :: 0 <= i < |ys| ==> (xs + ys)[|xs| + i] == ys[i];
    }
  }

  /** Accumulating raw samples gives their aggregate. */
  lemma {:induction false} AccumulateIsAggregate(op: Operator, ty: IntType, xs: seq<int>)
    requires !op.AVERAGE? && xs != [] && AllInRange(ty, xs)
    ensures IsAggregate(op, ty, Accumulate(op, ty, xs), xs)
    decreases |xs|
  {
    var init, last := xs[..|xs| - 1], xs[|xs| - 1];
    if init != [] {
      AccumulateIsAggregate(op, ty, init);
    }
    SumOne(last);
    WrapInRange(ty, last);
    CombineJoins(op, ty, Accumulate(op, ty, init), init, last, [last]);
    assert init + [last] == xs;
  }

  /** One more aggregate, of what follows what has been covered so far. */
  lemma AccumulateMore(op: Operator, ty: IntType, values: seq<int>, covered: seq<int>, v: int, part: seq<int>)
    requires !op.AVERAGE? && AllInRange(ty, part) && IsAggregate(op, ty, v, part)
    requires if values == [] then covered == [] else covered != [] && IsAggregate(op, ty, Accumulate(op, ty, values), covered)
    ensures IsAggregate(op, ty, Accumulate(op, ty, values + [v]), covered + part)
  {
    assert (values + [v])[..|values|] == values;
    CombineJoins(op, ty, Accumulate(op, ty, values), covered, v, part);
  }

  lemma PartFollows(window: seq<int>, level: nat, i: nat)
    requires 0 < level < LEVELS && |window| == Increment(level) && i < Period(level)
    ensures 0 <= Span(level - 1, i) < Span(level - 1, i + 1) <= |window|
    ensures window[..Span(level - 1, i)] + Part(window, level, i) == window[..Span(level - 1, i + 1)]
  {}

  lemma PartInRange(ty: IntType, window: seq<int>, level: nat, i: nat)
    requires 0 < level < LEVELS && |window| == Increment(level) && i < Period(level) && AllInRange(ty, window)
    ensures AllInRange(ty, Part(window, level, i))
  {}

  /** Every value is the aggregate of its part of the window. */
  predicate ArePartAggregates(op: Operator, ty: IntType, window: seq<int>, level: nat, values: seq<int>)
    requires 0 < level < LEVELS && |window| == Increment(level) && |values| == Period(level)
  {
    forall i :: 0 <= i < |values| ==> IsAggregate(op, ty, values[i], Part(window, level, i))
  }

  /** If every value is the aggregate of its part, the first `count` accumulate to that of their parts. */
  lemma {:induction false} PartsAccumulate(op: Operator, ty: IntType, window: seq<int>, level: nat, values: seq<int>, count: nat)
    requires !op.AVERAGE? && AllInRange(ty, window)
    requires 0 < level < LEVELS && |window| == Increment(level) && 0 < count <= |values| == Period(level)
    requires ArePartAggregates(op, ty, window, level, values)
    ensures Span(level - 1, count) <= |window|
    ensures IsAggregate(op, ty, Accumulate(op, ty, values[..count]), window[..Span(level - 1, count)])
    decreases count
  {
    var part := Part(window, level, count - 1);
    PartFollows(window, level, count - 1);
    PartInRange(ty, window, level, count - 1);
    if count > 1 {
      PartsAccumulate(op, ty, window, level, values, count - 1);
    } else {
      assert values[..0] == [] && window[..Span(level - 1, 0)] == [];
    }
    assert values[..count - 1] + [values[count - 1]] == values[..count];
    AccumulateMore(op, ty, values[..count - 1], window[..Span(level - 1, count - 1)], values[count - 1], part);
  }

  lemma PartIsAggregate(op: Operator, ty: IntType, window: seq<int>, level: nat, i: nat)
    requires !op.AVERAGE? && AllInRange(ty, window)
    requires 0 < level < LEVELS && |window| == Increment(level) && i < Period(level)
    ensures IsAggregate(op, ty, Cascade(op, ty, Part(window, level, i), level - 1), Part(window, level, i))
    decreases level, 0
  {
    PartInRange(ty, window, level, i);
    CascadeIsAggregate(op, ty, Part(window, level, i), level - 1);
  }

  /**
   * The cascade of rings computes the aggregate of the raw samples: minimum, maximum, or the sum
   * modulo the machine word.
   */
  lemma {:induction false} CascadeIsAggregate(op: Operator, ty: IntType, window: seq<int>, level: nat)
    requires !op.AVERAGE? && AllInRange(ty, window)
    requires level < LEVELS && |window| == Increment(level)
    ensures IsAggregate(op, ty, Cascade(op, ty, window, level), window)
    decreases level, 1
  {
    if level == 0 {
      assert window == [window[0]];
      SumOne(window[0]);
      WrapInRange(ty, window[0]);
    } else {
      var values := seq(Period(level), i requires 0 <= i < Period(level) =>
                                         Cascade(op, ty, Part(window, level, i), level - 1));
      forall i | 0 <= i < |values| ensures IsAggregate(op, ty, values[i], Part(window, level, i)) {
        PartIsAggregate(op, ty, window, level, i);
      }
      PartsAccumulate(op, ty, window, level, values, Period(level));
      assert window[..Span(level - 1, Period(level))] == window && values[..Period(level)] == values;
    }
  }

  // ---- AVERAGE: truncation loses little ----

  /** The most that `count` cascaded averages can lose, summed up over their windows. */
  function SlackOf(level: nat, count: nat): nat
    requires level < LEVELS
  {
    match level
    case 0 => 0
    case 1 => 9 * count
    case 2 => 180 * count
    case 3 => 1580 * count
    case _ => 21200 * count
  }

  predicate NonNegative(xs: seq<int>)
  {
    forall i :: 0 <= i < |xs| ==> 0 <= xs[i]
  }

  lemma {:induction false} SumNonNegative(xs: seq<int>)
    requires NonNegative(xs)
    ensures 0 <= Sum(xs)
    decreases |xs|
  {
    if xs != [] { SumNonNegative(xs[..|xs| - 1]); }
  }

  /** As long as the true sum fits the type, accumulating computes it. */
  lemma {:induction false} AccumulateIsSum(ty: IntType, xs: seq<int>)
    requires NonNegative(xs) && Sum(xs) <= Highest(ty)
    ensures Accumulate(AVERAGE, ty, xs) == Sum(xs)
    decreases |xs|
  {
    if xs != [] {
      SumNonNegative(xs[..|xs| - 1]);
      AccumulateIsSum(ty, xs[..|xs| - 1]);
      WrapInRange(ty, Sum(xs));
    }
  }

  lemma LoseMore(level: nat, covered: int, count: nat, values: seq<int>, part: int, v: int)
    requires level < LEVELS && count > 0
    requires 0 <= covered - Span(level, Sum(values)) <= SlackOf(level, count - 1)
    requires 0 <= part - Span(level, v) <= SlackOf(level, 1)
    ensures 0 <= covered + part - Span(level, Sum(values + [v])) <= SlackOf(level, count)
  {
    assert (values + [v])[..|values|] == values;
  }

  lemma PartHasSmallSum(window: seq<int>, level: nat, i: nat)
    requires 0 < level < LEVELS && |window| == Increment(level) && i < Period(level) && NonNegative(window)
    ensures NonNegative(Part(window, level, i)) && Sum(Part(window, level, i)) <= Sum(window)
  {
    PartOfSum(window, Span(level - 1, i), Span(level - 1, i + 1));
  }

  /** `v` loses no more than one cascaded average of `level` may. */
  predicate Loses(level: nat, total: int, v: int)
    requires level < LEVELS
  {
    0 <= v && 0 <= total - Span(level, v) <= SlackOf(level, 1)
  }

  /** If every value loses little of its part, the first `count` lose little together. */
  lemma {:induction false} PartsLose(window: seq<int>, level: nat, values: seq<int>)
    requires NonNegative(window)
    requires 0 < level < LEVELS && |window| == Increment(level) && |values| <= Period(level)
    requires forall i :: 0 <= i < |values| ==> Loses(level - 1, Sum(Part(window, level, i)), values[i])
    ensures Span(level - 1, |values|) <= |window|
    ensures 0 <= Sum(window[..Span(level - 1, |values|)]) - Span(level - 1, Sum(values)) <= SlackOf(level - 1, |values|)
    decreases |values|
  {
    if values == [] {
      assert window[..0] == [] && Span(level - 1, 0) == 0 && SlackOf(level - 1, 0) == 0;
    } else {
      var n := |values| - 1;
      var front, v := values[..n], values[n];
      PartFollows(window, level, n);
      PartsLose(window, level, front);
      PartLosesToo(window, level, n, front, v);
      assert values == front + [v];
    }
  }

  lemma PartLosesToo(window: seq<int>, level: nat, i: nat, values: seq<int>, v: int)
    requires NonNegative(window) && 0 < level < LEVELS && |window| == Increment(level) && i < Period(level)
    requires 0 <= Span(level - 1, i) < Span(level - 1, i + 1) <= |window|
    requires 0 <= Sum(window[..Span(level - 1, i)]) - Span(level - 1, Sum(values)) <= SlackOf(level - 1, i)
    requires Loses(level - 1, Sum(Part(window, level, i)), v)
    ensures 0 <= Sum(window[..Span(level - 1, i + 1)]) - Span(level - 1, Sum(values + [v])) <= SlackOf(level - 1, i + 1)
  {
    PartOfSum(window, Span(level - 1, i), Span(level - 1, i + 1));
    LoseMore(level - 1, Sum(window[..Span(level - 1, i)]), i + 1, values, Sum(Part(window, level, i)), v);
  }

  lemma PartOfSum(window: seq<int>, lo: nat, hi: nat)
    requires NonNegative(window) && lo <= hi <= |window|
    ensures Sum(window[..hi]) == Sum(window[..lo]) + Sum(window[lo..hi])
    ensures Sum(window[lo..hi]) <= Sum(window)
  {
    var front, part, rest := window[..lo], window[lo..hi], window[hi..];
    assert window[..hi] == front + part;
    SumConcat(front, part);
    assert window == window[..hi] + rest;
    SumConcat(window[..hi], rest);
    SumNonNegative(window[..lo]);
    SumNonNegative(window[hi..]);
  }

  lemma TruncDivLoses(n: int, d: int)
    requires n >= 0 && d > 0
    ensures 0 <= TruncDiv(n, d) && 0 <= n - d * TruncDiv(n, d) <= d - 1
  {}

  /**
   * The cascaded truncating average of non-negative samples never exceeds their mean, and over a
   * whole window it loses at most 9, 180, 1580 and 21200, provided their sum fits the type.
   */
  lemma {:induction false} AverageLoses(ty: IntType, window: seq<int>, level: nat)
    requires NonNegative(window) && Sum(window) <= Highest(ty)
    requires level < LEVELS && |window| == Increment(level)
    ensures Loses(level, Sum(window), Cascade(AVERAGE, ty, window, level))
    decreases level
  {
    if level == 0 {
      assert window == [window[0]];
      SumOne(window[0]);
    } else {
      var values := seq(Period(level), i requires 0 <= i < Period(level) =>
                                         Cascade(AVERAGE, ty, Part(window, level, i), level - 1));
      forall i | 0 <= i < |values| ensures Loses(level - 1, Sum(Part(window, level, i)), values[i]) {
        PartHasSmallSum(window, level, i);
        AverageLoses(ty, Part(window, level, i), level - 1);
      }
      AverageOfParts(ty, window, level, values);
    }
  }

  lemma AverageOfParts(ty: IntType, window: seq<int>, level: nat, values: seq<int>)
    requires NonNegative(window) && Sum(window) <= Highest(ty)
    requires 0 < level < LEVELS && |window| == Increment(level) && |values| == Period(level)
    requires forall i :: 0 <= i < |values| ==> Loses(level - 1, Sum(Part(window, level, i)), values[i])
    ensures Loses(level, Sum(window), Reduce(AVERAGE, ty, values))
  {
    PartsLose(window, level, values);
    assert window[..Span(level - 1, |values|)] == window;
    assert NonNegative(values) by {
      forall i | 0 <= i < |values| ensures 0 <= values[i] { assert Loses(level - 1, Sum(Part(window, level, i)), values[i]); }
    }
    SumNonNegative(values);
    AccumulateIsSum(ty, values);
    LevelsCompose(level, Sum(window), Sum(values));
  }

  lemma LevelsCompose(level: nat, total: int, sum: int)
    requires 0 < level < LEVELS && sum >= 0
    requires 0 <= total - Span(level - 1, sum) <= SlackOf(level - 1, Period(level))
    ensures 0 <= total - Span(level, TruncDiv(sum, Period(level))) <= SlackOf(level, 1)
    ensures TruncDiv(sum, Period(level)) >= 0
  {
    match level {
      case 1 => TruncDivLoses(sum, 10);
      case 2 => TruncDivLoses(sum, 10);
      case 3 => TruncDivLoses(sum, 6);
      case _ => TruncDivLoses(sum, 10);
    }
  }

  // ---- Counters ----

  /** What a cyclic counter over [lo, hi] shows after it has counted `n` in all. */
  function Reading(lo: nat, hi: nat, n: nat): (reading: nat)
    requires lo <= hi
    ensures lo <= reading <= hi
  {
    lo + n % (hi - lo + 1)
  }

  /** IncrementalStatistic::update in uint64_t arithmetic, where maxValue - minValue + 1 may wrap to 0. */
  function Gauge(newValue: nat, lastValue: nat, lo: nat, hi: nat): nat
  {
    if newValue < lastValue then (newValue - lastValue + hi - lo + 1) % WORD64 else (newValue - lastValue) % WORD64
  }

  lemma ModAdds(n: nat, growth: nat, m: nat)
    requires m > 0
    ensures (n + growth) % m == if n % m + growth % m < m then n % m + growth % m else n % m + growth % m - m
  {
    var q, r, p, g := n / m, n % m, growth / m, growth % m;
    assert n == m * q + r && growth == m * p + g;
    assert m * q + m * p == m * (q + p);
    if r + g < m {
      DivIsUnique(n + growth, q + p, r + g, m);
    } else {
      assert m * (q + p) + m == m * (q + p + 1);
      DivIsUnique(n + growth, q + p + 1, r + g - m, m);
    }
  }

  lemma ModIsSelf(n: nat, m: nat)
    requires m > 0
    ensures n % m == n <==> n < m
  {
    if n < m { DivIsUnique(n, 0, n, m); }
  }

  /** `r` and `g` are what a counter with a range of `m` values shows and grows by. */
  lemma GaugeUndoesWrap(lo: nat, m: nat, r: nat, g: nat)
    requires 0 < m && lo + m <= WORD64 && r < m && g < m
    ensures Gauge(lo + (if r + g < m then r + g else r + g - m), lo + r, lo, lo + m - 1) == g
  {}

  /** A reading does not show whole turns. */
  lemma ReadingSees(lo: nat, hi: nat, n: nat, growth: nat)
    requires lo <= hi
    ensures Reading(lo, hi, n + growth % (hi - lo + 1)) == Reading(lo, hi, n + growth)
  {
    var m := hi - lo + 1;
    ModAdds(n, growth, m);
    ModAdds(n, growth % m, m);
    ModIsSelf(growth % m, m);
  }

  /**
   * The gauge is the growth of the counter modulo its range, hence the growth itself exactly when
   * that stays below the range.
   */
  lemma GaugeIsGrowth(lo: nat, hi: nat, n: nat, growth: nat)
    requires lo <= hi < WORD64
    ensures Gauge(Reading(lo, hi, n + growth), Reading(lo, hi, n), lo, hi) == growth % (hi - lo + 1)
    ensures Gauge(Reading(lo, hi, n + growth), Reading(lo, hi, n), lo, hi) == growth <==> growth < hi - lo + 1
  {
    var m := hi - lo + 1;
    ModAdds(n, growth, m);
    GaugeUndoesWrap(lo, m, n % m, growth % m);
    ModIsSelf(growth, m);
  }

  /** `counts` are the true counts before the first and after every update; `growths` the differences. */
  predicate Grows(counts: seq<int>, growths: seq<int>)
  {
    |counts| == |growths| + 1 && forall i :: 0 <= i < |growths| ==> growths[i] >= 0 && counts[i + 1] == counts[i] + growths[i]
  }

  lemma GrowsOn(counts: seq<int>, growths: seq<int>, growth: nat)
    requires Grows(counts, growths)
    ensures Grows(counts + [counts[|counts| - 1] + growth], growths + [growth])
  {}

  lemma {:induction false} GrowthTelescopes(counts: seq<int>, growths: seq<int>, lo: nat, hi: nat)
    requires Grows(counts, growths) && lo <= hi <= |growths|
    ensures Sum(growths[lo..hi]) == counts[hi] - counts[lo]
    decreases hi - lo
  {
    if lo < hi {
      GrowthTelescopes(counts, growths, lo, hi - 1);
      assert growths[lo..hi][..hi - lo - 1] == growths[lo..hi - 1];
    } else {
      assert growths[lo..hi] == [];
    }
  }

  /** What the readings show of a growth. */
  function SeenGrowth(lo: nat, hi: nat, growth: nat): (seen: nat)
    requires lo <= hi
  {
    growth % (hi - lo + 1)
  }

  /** The gauge is the growth that is seen, and the next gauge starts from there. */
  lemma GaugeSees(lo: nat, hi: nat, n: nat, growth: nat)
    requires lo <= hi < WORD64
    ensures var seen := SeenGrowth(lo, hi, growth);
            && Gauge(Reading(lo, hi, n + growth), Reading(lo, hi, n), lo, hi) == seen
            && Reading(lo, hi, n + seen) == Reading(lo, hi, n + growth)
            && (seen == growth <==> growth < hi - lo + 1)
  {
    GaugeIsGrowth(lo, hi, n, growth);
    ReadingSees(lo, hi, n, growth);
  }

  /**
   * For a counter, every SUM entry of every level is the true growth over its window, modulo the
   * 64-bit word; it is the true growth itself exactly when that fits.
   */
  lemma CounterWindows(counts: seq<int>, growths: seq<int>, level: nat, q: nat)
    requires Grows(counts, growths) && AllInRange(UINT64, growths)
    requires level < LEVELS && 1 <= q && Span(level, q) <= |growths|
    ensures var growth := counts[Span(level, q)] - counts[Span(level, q - 1)];
            var entry := Cascade(SUM, UINT64, Window(growths, level, q), level);
            && growth >= 0
            && entry == growth % WORD64
            && (entry == growth <==> growth < WORD64)
  {
    var window := Window(growths, level, q);
    CascadeIsAggregate(SUM, UINT64, window, level);
    GrowthTelescopes(counts, growths, Span(level, q - 1), Span(level, q));
    SumNonNegative(window);
  }
}
