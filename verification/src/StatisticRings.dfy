/**
 * The rings of one reduction operator as values: what an update writes into them
 * (src/monitoring/statistics/collector/Statistic.cpp:47-123), and what they hold afterwards.
 */
module StatisticRings {
  import opened Base
  import opened StatisticSpec

  const SLOTS: int := HISTORY_SIZE + 1

  /** The order of StatisticsReduceOperator. */
  function OperatorOf(op: nat): Operator
    requires op < OPERATORS
  {
    match op
    case 0 => MIN
    case 1 => MAX
    case 2 => AVERAGE
    case _ => SUM
  }

  /**
   * After `n` samples, entry `q` of a level is complete, has not been overwritten, and its window
   * begins after sample `from`.
   */
  predicate Live(level: nat, q: int, n: nat, from: nat)
    requires level < LEVELS
  {
    1 <= q && Span(level, q) <= n < Span(level, q + SLOTS) && from <= Span(level, q - 1)
  }

  /** The samples that the `Period(level)` entries of the level below that end with entry `source` stand for. */
  function Recent(samples: seq<int>, level: nat, source: nat): (window: seq<int>)
    requires 0 < level < LEVELS && Period(level) <= source && Span(level - 1, source) <= |samples|
    ensures |window| == Increment(level)
  {
    samples[Span(level - 1, source - Period(level))..Span(level - 1, source)]
  }

  lemma SliceOfSlice(xs: seq<int>, a: nat, b: nat, c: nat, d: nat)
    requires a <= b <= |xs| && c <= d <= b - a
    ensures xs[a..b][c..d] == xs[a + c..a + d]
  {
    assert forall k :: 0 <= k < d - c ==> xs[a..b][c..d][k] == xs[a + c..a + d][k];
  }

  lemma SpanAdds(level: nat, m: int, n: int)
    requires level < LEVELS
    ensures Span(level, m) + Span(level, n) == Span(level, m + n)
    ensures m < n ==> Span(level, m) < Span(level, n)
  {}

  lemma RecentParts(samples: seq<int>, level: nat, source: nat, i: nat)
    requires 0 < level < LEVELS && Period(level) <= source && Span(level - 1, source) <= |samples|
    requires i < Period(level)
    ensures Span(level - 1, source - Period(level) + 1 + i) <= |samples|
    ensures Part(Recent(samples, level, source), level, i) == Window(samples, level - 1, source - Period(level) + 1 + i)
  {
    var first := source - Period(level);
    PartOffsets(level, first, i);
    SliceOfSlice(samples, Span(level - 1, first), Span(level - 1, source), Span(level - 1, i), Span(level - 1, i + 1));
  }

  lemma PartOffsets(level: nat, first: nat, i: nat)
    requires 0 < level < LEVELS && i < Period(level)
    ensures Span(level - 1, first) + Span(level - 1, i) == Span(level - 1, first + i)
    ensures Span(level - 1, first) + Span(level - 1, i + 1) == Span(level - 1, first + 1 + i) <= Span(level - 1, first + Period(level))
  {}

  /** How many entries of the level below `q` entries are made of. */
  function Below(level: nat, q: nat): (entries: nat)
    requires 0 < level < LEVELS
    ensures Span(level - 1, entries) == Span(level, q)
    ensures q > 0 ==> Below(level, q - 1) == entries - Period(level)
  {
    if level == 3 then 6 * q else 10 * q
  }

  lemma SpanDivides(level: nat, q: nat)
    requires level < LEVELS
    ensures Span(level, q) / Increment(level) == q && Span(level, q) % Increment(level) == 0
  {
    DivIsUnique(Span(level, q), q, 0, Increment(level));
  }

  /** Every Increment(level) samples, the recent samples are the window of the next entry. */
  lemma AlignedWindow(samples: seq<int>, level: nat, n: nat)
    requires 0 < level < LEVELS && 0 < n <= |samples| && n % Increment(level) == 0
    ensures n % Increment(level - 1) == 0
    ensures var q, source := n / Increment(level), n / Increment(level - 1);
            && 1 <= q && Span(level, q) == n && Period(level) <= source && Span(level - 1, source) == n
            && Span(level, q - 1) == Span(level - 1, source - Period(level))
            && Window(samples, level, q) == Recent(samples, level, source)
  {
    var q := n / Increment(level);
    assert n == Span(level, q);
    SpanDivides(level - 1, Below(level, q));
  }

  /** A longer period can only end where a shorter one does. */
  lemma IncrementsDivide(shorter: nat, longer: nat, n: nat)
    requires shorter <= longer < LEVELS && n % Increment(longer) == 0
    ensures n % Increment(shorter) == 0
    decreases longer
  {
    if shorter < longer && n > 0 {
      var zeros := seq(n, i => 0);
      AlignedWindow(zeros, longer, n);
      IncrementsDivide(shorter, longer - 1, n);
    }
  }

  lemma SlotsDiffer(q: nat, r: nat)
    requires q < r < q + SLOTS && r < WORD64
    ensures WrapIndex(q) != WrapIndex(r)
  {}

  lemma SlotAgain(q: nat)
    requires q + SLOTS < WORD64
    ensures WrapIndex(q + SLOTS) == WrapIndex(q)
  {}

  /** A ring of a level: every live entry is what the samples of its window amount to. */
  ghost predicate RingHolds(ring: seq<Value>, op: Operator, ty: IntType, level: nat, xs: seq<int>, from: nat)
    requires |ring| == SLOTS && level < LEVELS
  {
    forall q: nat {:trigger Live(level, q, |xs|, from)} :: Live(level, q, |xs|, from) ==>
      ring[WrapIndex(q)] == Num(ty, Cascade(op, ty, Window(xs, level, q), level))
  }

  /** A sample that does not complete an entry of the level leaves its ring as it is. */
  lemma RingStays(ring: seq<Value>, op: Operator, ty: IntType, level: nat, xs: seq<int>, x: int, from: nat)
    requires |ring| == SLOTS && level < LEVELS && RingHolds(ring, op, ty, level, xs, from)
    requires (|xs| + 1) % Increment(level) != 0
    ensures RingHolds(ring, op, ty, level, xs + [x], from)
  {
    forall q: nat | Live(level, q, |xs| + 1, from)
      ensures Live(level, q, |xs|, from) && Window(xs + [x], level, q) == Window(xs, level, q)
    {
      SpanDivides(level, q);
    }
  }

  /** `v` is the entry that the last sample completes, if the window of that entry counts. */
  predicate IsNewEntry(v: Value, op: Operator, ty: IntType, level: nat, xs: seq<int>, from: nat)
    requires level < LEVELS
  {
    Live(level, |xs| / Increment(level), |xs|, from) ==>
      v == Num(ty, Cascade(op, ty, Window(xs, level, |xs| / Increment(level)), level))
  }

  /** A sample that completes an entry needs one slot, and none that is live. */
  lemma RingTakes(ring: seq<Value>, op: Operator, ty: IntType, level: nat, xs: seq<int>, x: int, from: nat, v: Value)
    requires |ring| == SLOTS && level < LEVELS && RingHolds(ring, op, ty, level, xs, from)
    requires (|xs| + 1) % Increment(level) == 0 && |xs| + 1 < WORD64
    requires IsNewEntry(v, op, ty, level, xs + [x], from)
    ensures RingHolds(ring[WrapIndex((|xs| + 1) / Increment(level)) := v], op, ty, level, xs + [x], from)
  {
    var last := (|xs| + 1) / Increment(level);
    assert Span(level, last) == |xs| + 1;
    forall q: nat | Live(level, q, |xs| + 1, from) && q != last
      ensures WrapIndex(q) != WrapIndex(last) && Live(level, q, |xs|, from) && Window(xs + [x], level, q) == Window(xs, level, q)
    {
      OlderStays(level, xs, x, from, q, last);
    }
  }

  lemma OlderStays(level: nat, xs: seq<int>, x: int, from: nat, q: nat, last: nat)
    requires level < LEVELS && |xs| + 1 < WORD64 && Span(level, last) == |xs| + 1 && last == (|xs| + 1) / Increment(level)
    requires Live(level, q, |xs| + 1, from) && q != last
    ensures WrapIndex(q) != WrapIndex(last) && Live(level, q, |xs|, from) && Window(xs + [x], level, q) == Window(xs, level, q)
  {
    OlderIsSmaller(level, q, last);
    SlotsDiffer(q, last);
  }

  lemma OlderIsSmaller(level: nat, q: int, last: int)
    requires level < LEVELS && 1 <= q && q != last && Span(level, q) <= Span(level, last) < Span(level, q + SLOTS)
    ensures q < last < q + SLOTS && Span(level, q) < Span(level, last)
  {}

  /** The entries of a level that inferValue looks at, oldest first. */
  function Entries(ring: seq<Value>, level: nat, source: nat): (entries: seq<int>)
    requires |ring| == SLOTS && 0 < level < LEVELS
    ensures |entries| == Period(level)
  {
    seq(Period(level), i requires 0 <= i < Period(level) => NumberIn(ring[WrapIndex(source - Period(level) + 1 + i)]))
  }

  lemma EntryAt(ring: seq<Value>, level: nat, source: nat, i: nat)
    requires |ring| == SLOTS && 0 < level < LEVELS && i < Period(level)
    ensures Entries(ring, level, source)[i] == NumberIn(ring[WrapIndex(source - Period(level) + 1 + i)])
  {}

  function NumberIn(v: Value): int
  {
    if v.Num? then v.n else 0
  }

  /** inferValue, on the ring of the level below. */
  function Infer(ring: seq<Value>, op: Operator, ty: IntType, level: nat, source: nat): Value
    requires |ring| == SLOTS && 0 < level < LEVELS
  {
    Num(ty, Reduce(op, ty, Entries(ring, level, source)))
  }

  lemma EntryBelow(n: nat, level: nat, source: nat, i: nat, from: nat)
    requires 0 < level < LEVELS && source == n / Increment(level - 1) && Period(level) <= source && i < Period(level)
    requires from <= Span(level - 1, source - Period(level))
    ensures Span(level - 1, source) <= n
    ensures Live(level - 1, source - Period(level) + 1 + i, n, from)
  {}

  lemma EntryIsPart(ring: seq<Value>, op: Operator, ty: IntType, level: nat, xs: seq<int>, from: nat, source: nat, i: nat)
    requires |ring| == SLOTS && 0 < level < LEVELS && RingHolds(ring, op, ty, level - 1, xs, from)
    requires source == |xs| / Increment(level - 1) && Period(level) <= source && i < Period(level)
    requires from <= Span(level - 1, source - Period(level)) && Span(level - 1, source) <= |xs|
    ensures Entries(ring, level, source)[i] == Cascade(op, ty, Part(Recent(xs, level, source), level, i), level - 1)
  {
    var q := source - Period(level) + 1 + i;
    EntryBelow(|xs|, level, source, i, from);
    EntryAt(ring, level, source, i);
    assert ring[WrapIndex(q)] == Num(ty, Cascade(op, ty, Window(xs, level - 1, q), level - 1));
    RecentParts(xs, level, source, i);
  }

  /** What inferValue finds is what the most recent samples amount to. */
  lemma InferIsRecent(ring: seq<Value>, op: Operator, ty: IntType, level: nat, xs: seq<int>, from: nat)
    requires |ring| == SLOTS && 0 < level < LEVELS && RingHolds(ring, op, ty, level - 1, xs, from)
    requires var source := |xs| / Increment(level - 1);
             Period(level) <= source && from <= Span(level - 1, source - Period(level))
    ensures var source := |xs| / Increment(level - 1);
            && Span(level - 1, source) <= |xs|
            && Infer(ring, op, ty, level, source) == Num(ty, Cascade(op, ty, Recent(xs, level, source), level))
  {
    var source := |xs| / Increment(level - 1);
    EntryBelow(|xs|, level, source, 0, from);
    var values := seq(Period(level), i requires 0 <= i < Period(level) =>
                                     Cascade(op, ty, Part(Recent(xs, level, source), level, i), level - 1));
    forall i | 0 <= i < Period(level) ensures Entries(ring, level, source)[i] == values[i] {
      EntryIsPart(ring, op, ty, level, xs, from, source, i);
    }
    assert Entries(ring, level, source) == values;
  }

  /** When a period ends, inferValue finds the entry that is due. */
  lemma InferIsNewEntry(ring: seq<Value>, op: Operator, ty: IntType, level: nat, xs: seq<int>, from: nat)
    requires |ring| == SLOTS && 0 < level < LEVELS && RingHolds(ring, op, ty, level - 1, xs, from)
    requires 0 < |xs| && |xs| % Increment(level) == 0
    ensures IsNewEntry(Infer(ring, op, ty, level, |xs| / Increment(level - 1)), op, ty, level, xs, from)
  {
    AlignedWindow(xs, level, |xs|);
    if Live(level, |xs| / Increment(level), |xs|, from) {
      InferIsRecent(ring, op, ty, level, xs, from);
    }
  }

  // ---- One update of all rings of an operator ----

  predicate Rings(rings: seq<seq<Value>>)
  {
    |rings| == LEVELS && forall l :: 0 <= l < LEVELS ==> |rings[l]| == SLOTS
  }

  function Put(rings: seq<seq<Value>>, level: nat, slot: nat, v: Value): (updated: seq<seq<Value>>)
    requires Rings(rings) && level < LEVELS && slot < SLOTS
    ensures Rings(updated)
  {
    rings[level := rings[level][slot := v]]
  }

  /** The round of the cascade that completes an entry of `level`, after `index` samples. */
  function Completed(rings: seq<seq<Value>>, op: Operator, ty: IntType, index: nat, level: nat): (updated: seq<seq<Value>>)
    requires Rings(rings) && 0 < level < LEVELS
    ensures Rings(updated)
  {
    Put(rings, level, WrapIndex(index / Increment(level)),
        Infer(rings[level - 1], op, ty, level, index / Increment(level - 1)))
  }

  /** The cascade of update() from `level` upwards, as far as it has got when it reaches `stop`. */
  function Cascaded(rings: seq<seq<Value>>, op: Operator, ty: IntType, index: nat, level: nat, stop: nat): (updated: seq<seq<Value>>)
    requires Rings(rings) && 0 < level && stop <= LEVELS
    ensures Rings(updated)
    decreases stop - level
  {
    if level < stop && index % Increment(level) == 0 then
      Cascaded(Completed(rings, op, ty, index, level), op, ty, index, level + 1, stop)
    else rings
  }

  /** The rings while update() is at work: before it, after its first write, and so on. */
  function InUpdate(rings: seq<seq<Value>>, op: Operator, ty: IntType, index: nat, v: Value, writes: nat): (updated: seq<seq<Value>>)
    requires Rings(rings) && writes <= LEVELS
    ensures Rings(updated)
  {
    if writes == 0 then rings else Cascaded(Put(rings, 0, WrapIndex(index), v), op, ty, index, 1, writes)
  }

  function Updated(rings: seq<seq<Value>>, op: Operator, ty: IntType, index: nat, v: Value): (updated: seq<seq<Value>>)
    requires Rings(rings)
    ensures Rings(updated)
  {
    InUpdate(rings, op, ty, index, v, LEVELS)
  }

  ghost predicate AllHold(rings: seq<seq<Value>>, op: Operator, ty: IntType, xs: seq<int>, from: nat)
    requires Rings(rings)
  {
    forall l :: 0 <= l < LEVELS ==> RingHolds(rings[l], op, ty, l, xs, from)
  }

  /** The first `level` rings know the new sample, the others have no use for it yet. */
  ghost predicate Advanced(rings: seq<seq<Value>>, op: Operator, ty: IntType, level: nat, xs: seq<int>, x: int, from: nat)
    requires Rings(rings) && level <= LEVELS
  {
    && (forall l :: 0 <= l < level ==> RingHolds(rings[l], op, ty, l, xs + [x], from))
    && (forall l :: level <= l < LEVELS ==> RingHolds(rings[l], op, ty, l, xs, from))
  }

  lemma PutAdvances(rings: seq<seq<Value>>, op: Operator, ty: IntType, level: nat, xs: seq<int>, x: int, from: nat, v: Value)
    requires Rings(rings) && level < LEVELS && Advanced(rings, op, ty, level, xs, x, from)
    requires (|xs| + 1) % Increment(level) == 0 && |xs| + 1 < WORD64 && IsNewEntry(v, op, ty, level, xs + [x], from)
    ensures Advanced(Put(rings, level, WrapIndex((|xs| + 1) / Increment(level)), v), op, ty, level + 1, xs, x, from)
  {
    RingTakes(rings[level], op, ty, level, xs, x, from, v);
  }

  /** The cascade ends at the first level whose period does not end with this sample. */
  lemma AdvancedEnough(rings: seq<seq<Value>>, op: Operator, ty: IntType, level: nat, xs: seq<int>, x: int, from: nat)
    requires Rings(rings) && level <= LEVELS && Advanced(rings, op, ty, level, xs, x, from)
    requires level == LEVELS || (|xs| + 1) % Increment(level) != 0
    ensures AllHold(rings, op, ty, xs + [x], from)
  {
    forall l | level <= l < LEVELS ensures RingHolds(rings[l], op, ty, l, xs + [x], from) {
      if (|xs| + 1) % Increment(l) == 0 { IncrementsDivide(level, l, |xs| + 1); }
      RingStays(rings[l], op, ty, l, xs, x, from);
    }
  }

  lemma CompletedAdvances(rings: seq<seq<Value>>, op: Operator, ty: IntType, level: nat, xs: seq<int>, x: int, from: nat, index: nat)
    requires Rings(rings) && 0 < level < LEVELS && Advanced(rings, op, ty, level, xs, x, from)
    requires index == |xs| + 1 < WORD64 && index % Increment(level) == 0
    ensures Advanced(Completed(rings, op, ty, index, level), op, ty, level + 1, xs, x, from)
  {
    assert RingHolds(rings[level - 1], op, ty, level - 1, xs + [x], from);
    InferIsNewEntry(rings[level - 1], op, ty, level, xs + [x], from);
    PutAdvances(rings, op, ty, level, xs, x, from, Infer(rings[level - 1], op, ty, level, index / Increment(level - 1)));
  }

  lemma {:induction false} CascadeAdvances(rings: seq<seq<Value>>, op: Operator, ty: IntType, level: nat, xs: seq<int>, x: int, from: nat)
    requires Rings(rings) && 0 < level <= LEVELS && Advanced(rings, op, ty, level, xs, x, from) && |xs| + 1 < WORD64
    ensures AllHold(Cascaded(rings, op, ty, |xs| + 1, level, LEVELS), op, ty, xs + [x], from)
    decreases LEVELS - level
  {
    var index := |xs| + 1;
    if level < LEVELS && index % Increment(level) == 0 {
      CompletedAdvances(rings, op, ty, level, xs, x, from, index);
      CascadeAdvances(Completed(rings, op, ty, index, level), op, ty, level + 1, xs, x, from);
    } else {
      AdvancedEnough(rings, op, ty, level, xs, x, from);
    }
  }

  /**
   * One update keeps the meaning of all five rings: whatever was live and complete is still there,
   * and every entry that is due is what the raw samples of its window amount to.
   */
  lemma UpdateKeepsRings(rings: seq<seq<Value>>, op: Operator, ty: IntType, xs: seq<int>, x: int, from: nat)
    requires Rings(rings) && AllHold(rings, op, ty, xs, from) && |xs| + 1 < WORD64
    ensures AllHold(Updated(rings, op, ty, |xs| + 1, Num(ty, x)), op, ty, xs + [x], from)
  {
    var window := Window(xs + [x], 0, |xs| + 1);
    assert window == [x];
    PutAdvances(rings, op, ty, 0, xs, x, from, Num(ty, x));
    CascadeAdvances(Put(rings, 0, WrapIndex(|xs| + 1), Num(ty, x)), op, ty, 1, xs, x, from);
  }

  /** `slot` is where the update to `index` samples puts its entry of `level`. */
  predicate Written(index: nat, level: nat, slot: nat)
    requires level < LEVELS
  {
    index % Increment(level) == 0 && slot == WrapIndex(index / Increment(level))
  }

  lemma {:induction false} CascadeWrites(rings: seq<seq<Value>>, op: Operator, ty: IntType, index: nat, level: nat, stop: nat, l: nat, slot: nat)
    requires Rings(rings) && 0 < level && stop <= LEVELS && l < LEVELS && slot < SLOTS && !Written(index, l, slot)
    ensures Cascaded(rings, op, ty, index, level, stop)[l][slot] == rings[l][slot]
    decreases stop - level
  {
    if level < stop && index % Increment(level) == 0 {
      CascadeWrites(Completed(rings, op, ty, index, level), op, ty, index, level + 1, stop, l, slot);
    }
  }

  /** The slot getHistoricValues reads for its `i`-th value when it has loaded `lastIndex`. */
  function ReadSlot(lastIndex: nat, level: nat, i: nat): (slot: nat)
    requires level < LEVELS
    ensures slot < SLOTS
  {
    WrapIndex(lastIndex / Increment(level) + i + 2)
  }

  /** For every value, the reader uses the slot of the entry it means, counted back from the newest. */
  lemma ReadSlotIsEntry(lastIndex: nat, level: nat, i: nat)
    requires level < LEVELS && i < HISTORY_SIZE && lastIndex + 2 * SLOTS < WORD64
    requires 1 <= lastIndex / Increment(level) - (HISTORY_SIZE - 1) + i
    ensures ReadSlot(lastIndex, level, i) == WrapIndex(lastIndex / Increment(level) - (HISTORY_SIZE - 1) + i)
  {
    assert lastIndex / Increment(level) <= lastIndex;
    SlotAgain(lastIndex / Increment(level) - (HISTORY_SIZE - 1) + i);
  }

  /** A reader that has loaded the previous lastIndex uses no slot that the update in flight writes. */
  lemma ReaderAndUpdateAreDisjoint(lastIndex: nat, level: nat, i: nat)
    requires level < LEVELS && i < HISTORY_SIZE && lastIndex + 2 * SLOTS < WORD64
    ensures !Written(lastIndex + 1, level, ReadSlot(lastIndex, level, i))
  {
    var newIndex, entry := lastIndex + 1, lastIndex / Increment(level);
    if newIndex % Increment(level) == 0 {
      NextEntry(lastIndex, level);
      SlotAgain(entry + 1);
      SlotsDiffer(entry + i + 2, entry + 1 + SLOTS);
    }
  }

  /**
   * What the spare eleventh slot is for: however far the update in flight has got, a reader that has
   * loaded the previous lastIndex finds in every slot it uses, at any level, what was there before.
   */
  lemma ReaderIsUndisturbed(rings: seq<seq<Value>>, op: Operator, ty: IntType, lastIndex: nat, v: Value, writes: nat, level: nat, i: nat)
    requires Rings(rings) && writes <= LEVELS && level < LEVELS && i < HISTORY_SIZE && lastIndex + 2 * SLOTS < WORD64
    ensures InUpdate(rings, op, ty, lastIndex + 1, v, writes)[level][ReadSlot(lastIndex, level, i)]
         == rings[level][ReadSlot(lastIndex, level, i)]
  {
    ReaderAndUpdateAreDisjoint(lastIndex, level, i);
    if writes > 0 {
      CascadeWrites(Put(rings, 0, WrapIndex(lastIndex + 1), v), op, ty, lastIndex + 1, 1, writes, level, ReadSlot(lastIndex, level, i));
    }
  }

  lemma NextEntry(lastIndex: nat, level: nat)
    requires level < LEVELS && (lastIndex + 1) % Increment(level) == 0
    ensures (lastIndex + 1) / Increment(level) == lastIndex / Increment(level) + 1
    ensures lastIndex / Increment(level) <= lastIndex
  {}

  lemma AccumulateNext(op: Operator, ty: IntType, xs: seq<int>, k: nat)
    requires k < |xs|
    ensures Accumulate(op, ty, xs[..k + 1]) == Combine(op, ty, Accumulate(op, ty, xs[..k]), xs[k])
  {
    assert xs[..k + 1][..k] == xs[..k];
  }

  // ---- Whole runs ----

  /** The rings after the samples `xs`, with the operator requested throughout. */
  function After(op: Operator, ty: IntType, xs: seq<int>): (rings: seq<seq<Value>>)
    requires xs != []
    ensures Rings(rings)
    decreases |xs|
  {
    var x := xs[|xs| - 1];
    var before := if |xs| == 1 then seq(LEVELS, l => seq(SLOTS, s => Num(ty, x))) else After(op, ty, xs[..|xs| - 1]);
    Updated(before, op, ty, |xs|, Num(ty, x))
  }

  lemma {:induction false} RunsKeepRings(op: Operator, ty: IntType, xs: seq<int>)
    requires xs != [] && |xs| < WORD64
    ensures AllHold(After(op, ty, xs), op, ty, xs, 0)
    decreases |xs|
  {
    var x, init := xs[|xs| - 1], xs[..|xs| - 1];
    assert init + [x] == xs;
    if |xs| == 1 {
      UpdateKeepsRings(seq(LEVELS, l => seq(SLOTS, s => Num(ty, x))), op, ty, init, x, 0);
    } else {
      RunsKeepRings(op, ty, init);
      UpdateKeepsRings(After(op, ty, init), op, ty, init, x, 0);
    }
  }

  /**
   * Whatever has been sampled and however often: each live entry of each level is exactly the
   * minimum, the maximum, or the sum modulo the machine word of the raw samples of its window, or
   * an average that has lost little.
   */
  lemma LiveEntriesAreAggregates(op: Operator, ty: IntType, xs: seq<int>, level: nat, q: nat)
    requires xs != [] && |xs| < WORD64 && AllInRange(ty, xs)
    requires level < LEVELS && Live(level, q, |xs|, 0)
    ensures var entry, window := After(op, ty, xs)[level][WrapIndex(q)], Window(xs, level, q);
            && entry.Num? && entry.ty == ty
            && (!op.AVERAGE? ==> IsAggregate(op, ty, entry.n, window))
            && (op.AVERAGE? && NonNegative(window) && Sum(window) <= Highest(ty) ==> Loses(level, Sum(window), entry.n))
  {
    var window := Window(xs, level, q);
    RunsKeepRings(op, ty, xs);
    assert RingHolds(After(op, ty, xs)[level], op, ty, level, xs, 0);
    if !op.AVERAGE? {
      CascadeIsAggregate(op, ty, window, level);
    } else if NonNegative(window) && Sum(window) <= Highest(ty) {
      AverageLoses(ty, window, level);
    }
  }
}
