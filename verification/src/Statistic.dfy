/**
 * The classes Statistic and IncrementalStatistic (src/monitoring/statistics/collector/Statistic.cpp):
 * five rings of eleven slots for each reduction operator, written in place by update().
 *
 * The ghost fields keep what the specification talks about: every sample ever seen, and since which
 * sample each operator has been requested without a break.
 */
module Statistics {
  import opened Base
  import opened StatisticSpec
  import opened StatisticRings

  class Statistic {
    const ty: IntType
    var curValue: Value              // the provider's variable
    var lastIndex: nat
    var lastTimestamp: int
    const requestCounts: array<nat>
    const history: array3<Value>     // operator, interval, slot
    const times: array3<int>
    ghost var samples: seq<int>
    ghost var stamps: seq<int>
    ghost var since: seq<nat>

    ghost predicate Shape()
    {
      && requestCounts.Length == OPERATORS
      && history.Length0 == OPERATORS && history.Length1 == LEVELS && history.Length2 == SLOTS
      && times.Length0 == OPERATORS && times.Length1 == LEVELS && times.Length2 == SLOTS
    }

    /** The variable holds a value of the one type this statistic has. */
    ghost predicate Typed()
      reads this`curValue
    {
      curValue.Num? && curValue.ty == ty && InRange(ty, curValue.n)
    }

    /** The rings of one operator. */
    ghost function RingsOf(op: nat): (rings: seq<seq<Value>>)
      requires Shape() && op < OPERATORS
      reads history
      ensures Rings(rings)
      ensures forall l, s :: 0 <= l < LEVELS && 0 <= s < SLOTS ==> rings[l][s] == history[op, l, s]
    {
      seq(LEVELS, l requires 0 <= l < LEVELS && Shape() reads history =>
                  seq(SLOTS, s requires 0 <= s < SLOTS && Shape() reads history => history[op, l, s]))
    }

    ghost predicate Untouched(op: nat)
      requires Shape() && op < OPERATORS
      reads history
    {
      forall l, s :: 0 <= l < LEVELS && 0 <= s < SLOTS ==> history[op, l, s] == Invalid
    }

    ghost predicate Numeric(op: nat)
      requires Shape() && op < OPERATORS
      reads history
    {
      forall l, s :: 0 <= l < LEVELS && 0 <= s < SLOTS ==> history[op, l, s].Num? && history[op, l, s].ty == ty
    }

    /** The timestamps of the base level. */
    ghost predicate Stamped(op: nat, ts: seq<int>, from: nat)
      requires Shape() && op < OPERATORS
      reads times
    {
      forall q: nat {:trigger Live(0, q, |ts|, from)} :: Live(0, q, |ts|, from) ==>
        times[op, 0, WrapIndex(q)] == ts[q - 1]
    }

    /** The rings of `op` are what they have to be once `xs` and `ts` have been seen. */
    ghost predicate ReadyFor(op: nat, xs: seq<int>, ts: seq<int>)
      requires Shape() && op < OPERATORS && |since| == OPERATORS
      reads this`since, requestCounts, history, times
    {
      && (Untouched(op) || Numeric(op))
      && (requestCounts[op] > 0 ==>
            && since[op] <= |xs|
            && AllHold(RingsOf(op), OperatorOf(op), ty, xs, since[op])
            && Stamped(op, ts, since[op]))
    }

    /** lastIndex is a size_t that would take longer than the age of the universe to wrap. */
    ghost predicate Valid()
      reads this, requestCounts, history, times
    {
      && Shape() && Typed() && |since| == OPERATORS
      && |samples| == |stamps| == lastIndex && lastIndex + 2 * SLOTS < WORD64
      && AllInRange(ty, samples)
      && forall op :: 0 <= op < OPERATORS ==> ReadyFor(op, samples, stamps)
    }

    constructor (value: Value)
      requires value.Num? && InRange(value.ty, value.n)
      ensures Valid() && fresh(requestCounts) && fresh(history) && fresh(times)
      ensures ty == value.ty && curValue == value && samples == [] && stamps == [] && lastIndex == 0
      ensures forall op :: 0 <= op < OPERATORS ==> requestCounts[op] == 0
    {
      ty, curValue, lastIndex, lastTimestamp := value.ty, value, 0, 0;
      requestCounts := new nat[OPERATORS](i => 0);
      history := new Value[OPERATORS, LEVELS, SLOTS]((i, j, k) => Invalid);
      times := new int[OPERATORS, LEVELS, SLOTS]((i, j, k) => 0);
      samples, stamps, since := [], [], [0, 0, 0, 0];
    }

    /** The provider writes its variable. */
    method SetValue(n: int)
      requires Valid() && InRange(ty, n)
      modifies this`curValue
      ensures Valid() && curValue == Num(ty, n)
    {
      curValue := Num(ty, n);
    }

    method RequestReduction(op: nat)
      requires Valid() && op < OPERATORS
      modifies this`since, requestCounts
      ensures Valid() && requestCounts[op] == old(requestCounts[op]) + 1
      ensures forall o :: 0 <= o < OPERATORS && o != op ==> requestCounts[o] == old(requestCounts[o]) && since[o] == old(since[o])
      ensures since[op] == if old(requestCounts[op]) == 0 then |samples| else old(since[op])
    {
      if requestCounts[op] == 0 {
        since := since[op := |samples|];
      }
      requestCounts[op] := requestCounts[op] + 1;
      NothingRecorded(op, |samples|);
      forall o | 0 <= o < OPERATORS ensures ReadyFor(o, samples, stamps) { assert old(ReadyFor(o, samples, stamps)); }
    }

    method CancelReductionRequest(op: nat)
      requires Valid() && op < OPERATORS && requestCounts[op] > 0
      modifies requestCounts
      ensures Valid() && requestCounts[op] == old(requestCounts[op]) - 1
      ensures forall o :: 0 <= o < OPERATORS && o != op ==> requestCounts[o] == old(requestCounts[o])
    {
      requestCounts[op] := requestCounts[op] - 1;
      forall o | 0 <= o < OPERATORS ensures ReadyFor(o, samples, stamps) { assert old(ReadyFor(o, samples, stamps)); }
    }

    /** No entry is due that begins after the last sample. */
    lemma NothingRecorded(op: nat, from: nat)
      requires Shape() && op < OPERATORS && from == |samples|
      ensures AllHold(RingsOf(op), OperatorOf(op), ty, samples, from)
      ensures |stamps| == from ==> Stamped(op, stamps, from)
    {
      forall level, q: nat | 0 <= level < LEVELS && Live(level, q, from, from) ensures false {
        SpanAdds(level, q - 1, 1);
      }
    }

    method InferValue(op: nat, level: nat, source: nat) returns (result: Value)
      requires Shape() && op < OPERATORS && 0 < level < LEVELS && Numeric(op)
      ensures result == Infer(RingsOf(op)[level - 1], OperatorOf(op), ty, level, source)
    {
      ghost var entries := Entries(RingsOf(op)[level - 1], level, source);
      var operator, period := OperatorOf(op), Increment(level) / Increment(level - 1);
      PeriodIsQuotient(level);
      var acc := Neutral(operator, ty); // setMax, setMin or setZero
      for timeOffset := period downto 0
        invariant acc == Accumulate(operator, ty, entries[..period - timeOffset])
      {
        var entry := history[op, level - 1, WrapIndex(source - timeOffset)].n;
        EntryAt(RingsOf(op)[level - 1], level, source, period - timeOffset - 1);
        acc := Combine(operator, ty, acc, entry);
        AccumulateNext(operator, ty, entries, period - timeOffset - 1);
      }
      assert entries[..period] == entries;
      if operator == AVERAGE {
        acc := TruncDiv(acc, period);
      }
      result := Num(ty, acc);
    }

    /** The values of the other operators are as they were. */
    twostate predicate OthersKept(op: nat)
      requires Shape() && op < OPERATORS
      reads history
    {
      forall o, l, s :: 0 <= o < OPERATORS && 0 <= l < LEVELS && 0 <= s < SLOTS && o != op ==>
        history[o, l, s] == old(history[o, l, s])
    }

    /** The first update after a request gives every slot a value of the right type. */
    method Initialize(op: nat)
      requires Shape() && Typed() && op < OPERATORS && Untouched(op)
      modifies history
      ensures Numeric(op) && OthersKept(op)
    {
      for level := LEVELS downto 0
        invariant forall l, s :: level <= l < LEVELS && 0 <= s < SLOTS ==> history[op, l, s] == curValue
        invariant OthersKept(op)
      {
        for slot := SLOTS downto 0
          invariant forall l, s :: level < l < LEVELS && 0 <= s < SLOTS ==> history[op, l, s] == curValue
          invariant forall s :: slot <= s < SLOTS ==> history[op, level, s] == curValue
          invariant OthersKept(op)
        {
          history[op, level, slot] := curValue;
        }
      }
    }

    method PutEntry(op: nat, level: nat, slot: nat, value: Value)
      requires Shape() && op < OPERATORS && level < LEVELS && slot < SLOTS
      requires Numeric(op) && value.Num? && value.ty == ty
      modifies history
      ensures RingsOf(op) == Put(old(RingsOf(op)), level, slot, value)
      ensures Numeric(op) && OthersKept(op)
    {
      history[op, level, slot] := value;
      ghost var rings, expected := RingsOf(op), Put(old(RingsOf(op)), level, slot, value);
      forall l | 0 <= l < LEVELS ensures rings[l] == expected[l] {
        assert forall s :: 0 <= s < SLOTS ==> rings[l][s] == expected[l][s];
      }
    }

    method CompleteEntry(op: nat, level: nat, newIndex: nat)
      requires Shape() && op < OPERATORS && 0 < level < LEVELS && Numeric(op)
      modifies history
      ensures RingsOf(op) == Completed(old(RingsOf(op)), OperatorOf(op), ty, newIndex, level)
      ensures Numeric(op) && OthersKept(op)
    {
      var value := InferValue(op, level, newIndex / Increment(level - 1));
      PutEntry(op, level, WrapIndex(newIndex / Increment(level)), value);
    }

    /** One operator's share of update(). */
    method UpdateOperator(op: nat, newIndex: nat)
      requires Shape() && Typed() && op < OPERATORS && Numeric(op)
      modifies history
      ensures RingsOf(op) == Updated(old(RingsOf(op)), OperatorOf(op), ty, newIndex, curValue)
      ensures Numeric(op) && OthersKept(op)
    {
      PutEntry(op, 0, WrapIndex(newIndex), curValue);
      var level := 1;
      while level < LEVELS && newIndex % Increment(level) == 0
        invariant 1 <= level <= LEVELS && Numeric(op) && OthersKept(op)
        invariant Cascaded(RingsOf(op), OperatorOf(op), ty, newIndex, level, LEVELS)
               == Updated(old(RingsOf(op)), OperatorOf(op), ty, newIndex, curValue)
      {
        CompleteEntry(op, level, newIndex);
        level := level + 1;
      }
    }

    /** The timestamps of the other operators are as they were. */
    twostate predicate OtherStampsKept(op: nat)
      requires Shape() && op < OPERATORS
      reads times
    {
      forall o, l, s :: 0 <= o < OPERATORS && 0 <= l < LEVELS && 0 <= s < SLOTS && o != op ==>
        times[o, l, s] == old(times[o, l, s])
    }

    method PutStamp(op: nat, newIndex: nat, time: int, ghost from: nat)
      requires Shape() && op < OPERATORS && newIndex == |stamps| + 1 < WORD64
      requires Stamped(op, stamps, from)
      modifies times
      ensures Stamped(op, stamps + [time], from) && OtherStampsKept(op)
    {
      times[op, 0, WrapIndex(newIndex)] := time;
      forall q: nat | Live(0, q, newIndex, from) ensures times[op, 0, WrapIndex(q)] == (stamps + [time])[q - 1] {
        if q != newIndex {
          SlotsDiffer(q, newIndex);
          assert Live(0, q, |stamps|, from);
        }
      }
    }

    /** Called ten times per second. */
    method Update(time: int)
      requires Valid() && lastIndex + 1 + 2 * SLOTS < WORD64
      modifies this`lastIndex, this`lastTimestamp, this`samples, this`stamps, history, times
      ensures Valid()
      ensures samples == old(samples) + [curValue.n] && stamps == old(stamps) + [time]
      ensures lastIndex == old(lastIndex) + 1 && lastTimestamp == time
    {
      var newIndex := lastIndex + 1;
      ghost var xs, ts := samples + [curValue.n], stamps + [time];
      for op := OPERATORS downto 0
        invariant samples == old(samples) && stamps == old(stamps) && lastIndex == old(lastIndex)
        invariant forall o :: 0 <= o < op ==> ReadyFor(o, samples, stamps)
        invariant forall o :: op <= o < OPERATORS ==> ReadyFor(o, xs, ts)
      {
        label before:
        assert ReadyFor(op, samples, stamps);
        if requestCounts[op] > 0 {
          UpdateRequested(op, newIndex, time);
          forall o | 0 <= o < op ensures ReadyFor(o, samples, stamps) {
            assert old@before(ReadyFor(o, samples, stamps)) && RingsOf(o) == old@before(RingsOf(o));
          }
          forall o | op < o < OPERATORS ensures ReadyFor(o, xs, ts) {
            assert old@before(ReadyFor(o, xs, ts)) && RingsOf(o) == old@before(RingsOf(o));
          }
        }
      }
      lastIndex, lastTimestamp, samples, stamps := newIndex, time, xs, ts;
    }

    method UpdateRequested(op: nat, newIndex: nat, time: int)
      requires Shape() && Typed() && op < OPERATORS && |since| == OPERATORS && requestCounts[op] > 0
      requires newIndex == |samples| + 1 == |stamps| + 1 && newIndex < WORD64 && ReadyFor(op, samples, stamps)
      modifies history, times
      ensures ReadyFor(op, samples + [curValue.n], stamps + [time])
      ensures OthersKept(op) && OtherStampsKept(op)
      ensures forall o :: 0 <= o < OPERATORS && o != op ==> RingsOf(o) == old(RingsOf(o))
    {
      PutStamp(op, newIndex, time, since[op]);
      UpdateRings(op, newIndex, since[op]);
      forall o | 0 <= o < OPERATORS && o != op ensures RingsOf(o) == old(RingsOf(o)) { SameRings(o); }
    }

    method UpdateRings(op: nat, newIndex: nat, ghost from: nat)
      requires Shape() && Typed() && op < OPERATORS && (Untouched(op) || Numeric(op))
      requires newIndex == |samples| + 1 < WORD64 && from <= |samples|
      requires AllHold(RingsOf(op), OperatorOf(op), ty, samples, from)
      modifies history
      ensures AllHold(RingsOf(op), OperatorOf(op), ty, samples + [curValue.n], from)
      ensures Numeric(op) && OthersKept(op)
    {
      EnsureNumeric(op, WrapIndex(newIndex), from);
      UpdateKeepsRings(RingsOf(op), OperatorOf(op), ty, samples, curValue.n, from);
      UpdateOperator(op, newIndex);
    }

    twostate lemma SameRings(op: nat)
      requires Shape() && op < OPERATORS
      requires forall l, s :: 0 <= l < LEVELS && 0 <= s < SLOTS ==> history[op, l, s] == old(history[op, l, s])
      ensures RingsOf(op) == old(RingsOf(op))
    {
      forall l | 0 <= l < LEVELS ensures RingsOf(op)[l] == old(RingsOf(op))[l] {
        assert forall s :: 0 <= s < SLOTS ==> RingsOf(op)[l][s] == old(RingsOf(op))[l][s];
      }
    }

    method EnsureNumeric(op: nat, slot: nat, ghost from: nat)
      requires Shape() && Typed() && op < OPERATORS && slot < SLOTS && (Untouched(op) || Numeric(op))
      requires from <= |samples| && AllHold(RingsOf(op), OperatorOf(op), ty, samples, from)
      modifies history
      ensures Numeric(op) && OthersKept(op) && AllHold(RingsOf(op), OperatorOf(op), ty, samples, from)
      ensures old(Numeric(op)) ==> RingsOf(op) == old(RingsOf(op))
    {
      if history[op, 0, slot].Invalid? {
        NothingRecordedYet(op, from);
        Initialize(op);
        NothingRecorded(op, from);
      }
    }

    /** Before the first update no entry is live. */
    lemma NothingRecordedYet(op: nat, from: nat)
      requires Shape() && op < OPERATORS && Untouched(op) && from <= |samples|
      requires AllHold(RingsOf(op), OperatorOf(op), ty, samples, from)
      ensures from == |samples|
    {
      var n := |samples|;
      assert RingHolds(RingsOf(op)[0], OperatorOf(op), ty, 0, samples, from);
      assert RingsOf(op)[0][WrapIndex(n)] == Invalid;
      assert !Live(0, n, n, from);
    }

    /** The entry `q` of a level is one that a caller may rely on. */
    ghost predicate Reliable(op: nat, level: nat, q: int)
      requires op < OPERATORS && level < LEVELS && |since| == OPERATORS && Shape()
      reads this, requestCounts
    {
      requestCounts[op] > 0 && Live(level, q, |samples|, since[op])
    }

    lemma ReliableEntry(op: nat, level: nat, q: nat)
      requires Valid() && op < OPERATORS && level < LEVELS && Reliable(op, level, q)
      ensures history[op, level, WrapIndex(q)] == Num(ty, Cascade(OperatorOf(op), ty, Window(samples, level, q), level))
      ensures level == 0 ==> times[op, 0, WrapIndex(q)] == stamps[q - 1]
    {
      assert ReadyFor(op, samples, stamps) && RingHolds(RingsOf(op)[level], OperatorOf(op), ty, level, samples, since[op]);
    }

    /** The entry that the i-th value of getHistoricValues stands for, oldest first. */
    ghost function EntryOf(level: nat, i: nat): int
      requires level < LEVELS
      reads this`lastIndex
    {
      lastIndex / Increment(level) - (HISTORY_SIZE - 1) + i
    }

    /** What a caller of getHistoricValues may rely on: its values are the aggregates of the last ten windows. */
    ghost predicate AreValues(op: nat, level: nat, values: seq<Value>)
      requires Shape() && op < OPERATORS && level < LEVELS && |since| == OPERATORS && |values| == HISTORY_SIZE
      reads this, requestCounts
    {
      forall i {:trigger EntryOf(level, i)} :: 0 <= i < HISTORY_SIZE && Reliable(op, level, EntryOf(level, i)) ==>
        values[i] == Num(ty, Cascade(OperatorOf(op), ty, Window(samples, level, EntryOf(level, i)), level))
    }

    ghost predicate AreTimes(op: nat, level: nat, returnTimes: seq<int>)
      requires Shape() && op < OPERATORS && level < LEVELS && |since| == OPERATORS && |returnTimes| == HISTORY_SIZE
      requires |stamps| == |samples|
      reads this, requestCounts
    {
      forall i {:trigger EntryOf(level, i)} :: 0 <= i < HISTORY_SIZE && Reliable(op, level, EntryOf(level, i)) ==>
        (level == 0 ==> returnTimes[i] == stamps[EntryOf(0, i) - 1])
    }

    /** The slots getHistoricValues reads, in the order it returns them. */
    ghost function ReadHistory(op: nat, level: nat): (values: seq<Value>)
      requires Shape() && op < OPERATORS && level < LEVELS
      reads this`lastIndex, history
      ensures |values| == HISTORY_SIZE
    {
      var loaded := lastIndex;
      seq(HISTORY_SIZE, i requires 0 <= i < HISTORY_SIZE && Shape() reads history =>
                        history[op, level, ReadSlot(loaded, level, i)])
    }

    ghost function ReadTimes(op: nat, level: nat): (ts: seq<int>)
      requires Shape() && op < OPERATORS && level < LEVELS
      reads this`lastIndex, times
      ensures |ts| == HISTORY_SIZE
    {
      var loaded := lastIndex;
      seq(HISTORY_SIZE, i requires 0 <= i < HISTORY_SIZE && Shape() reads times =>
                        times[op, level, ReadSlot(loaded, level, i)])
    }

    lemma ReadsAreHistory(op: nat, level: nat)
      requires Valid() && op < OPERATORS && level < LEVELS
      ensures AreValues(op, level, ReadHistory(op, level)) && AreTimes(op, level, ReadTimes(op, level))
    {
      forall i {:trigger EntryOf(level, i)} | 0 <= i < HISTORY_SIZE && Reliable(op, level, EntryOf(level, i))
        ensures ReadHistory(op, level)[i]
             == Num(ty, Cascade(OperatorOf(op), ty, Window(samples, level, EntryOf(level, i)), level))
        ensures level == 0 ==> ReadTimes(op, level)[i] == stamps[EntryOf(0, i) - 1]
      {
        ReadSlotIsEntry(lastIndex, level, i);
        ReliableEntry(op, level, EntryOf(level, i));
      }
    }

    /** The ten most recent completed entries in time order; either array may be left out. */
    method GetHistoricValues(op: nat, level: nat, values: array?<Value>, returnTimes: array?<int>)
      requires Valid() && op < OPERATORS && level < LEVELS
      requires (values != null ==> values.Length == HISTORY_SIZE) && (returnTimes != null ==> returnTimes.Length == HISTORY_SIZE)
      modifies values, returnTimes
      ensures |since| == OPERATORS && |stamps| == |samples|
      ensures values != null ==> AreValues(op, level, values[..])
      ensures returnTimes != null ==> AreTimes(op, level, returnTimes[..])
    {
      ReadsAreHistory(op, level);
      ghost var vs, ts := ReadHistory(op, level), ReadTimes(op, level);
      var last := lastIndex / Increment(level);
      for i := HISTORY_SIZE downto 0
        invariant values != null ==> forall k :: i <= k < HISTORY_SIZE ==> values[k] == vs[k]
        invariant returnTimes != null ==> forall k :: i <= k < HISTORY_SIZE ==> returnTimes[k] == ts[k]
      {
        var slot := WrapIndex(last + i + 2); // one beyond the slot that is reserved for updating
        assert vs[i] == history[op, level, slot] && ts[i] == times[op, level, slot];
        if values != null {
          values[i] := history[op, level, slot];
        }
        if returnTimes != null {
          returnTimes[i] := times[op, level, slot];
        }
      }
      assert values != null ==> values[..] == vs;
      assert returnTimes != null ==> returnTimes[..] == ts;
    }

    /** The newest completed entry. */
    method GetRollingValue(op: nat, level: nat) returns (value: Value)
      requires Valid() && op < OPERATORS && level < LEVELS
      ensures Reliable(op, level, lastIndex / Increment(level)) ==>
                value == Num(ty, Cascade(OperatorOf(op), ty, Window(samples, level, lastIndex / Increment(level)), level))
    {
      value := history[op, level, WrapIndex(lastIndex / Increment(level))];
      if Reliable(op, level, lastIndex / Increment(level)) {
        ReliableEntry(op, level, lastIndex / Increment(level));
      }
    }

    /** The aggregate of as many samples as the level stands for, up to the newest entry of the level below. */
    method GetReducedValue(op: nat, level: nat) returns (value: Value)
      requires Valid() && op < OPERATORS && level < LEVELS && (level > 0 ==> Numeric(op))
      ensures level == 0 ==> value == curValue
      ensures level > 0 && requestCounts[op] > 0 ==>
                var source := lastIndex / Increment(level - 1);
                Period(level) <= source && since[op] <= Span(level - 1, source - Period(level)) ==>
                  && Span(level - 1, source) <= |samples|
                  && value == Num(ty, Cascade(OperatorOf(op), ty, Recent(samples, level, source), level))
    {
      if level == 0 { return curValue; }
      var source := lastIndex / Increment(level - 1);
      value := InferValue(op, level, source);
      if requestCounts[op] > 0 && Period(level) <= source && since[op] <= Span(level - 1, source - Period(level)) {
        assert ReadyFor(op, samples, stamps);
        InferIsRecent(RingsOf(op)[level - 1], OperatorOf(op), ty, level, samples, since[op]);
      }
    }
  }

  /** A statistic whose provider counts up and starts over: what its readers see is the growth. */
  class IncrementalStatistic {
    const base: Statistic
    var incrementalValue: nat        // the provider's counter
    const minValue: nat
    const maxValue: nat
    var lastValue: nat
    ghost var counts: seq<int>       // what the updates have seen the counter count in all, before the first and after every one

    ghost predicate Valid()
      reads this, base, base.requestCounts, base.history, base.times
    {
      && base.Valid() && base.ty == UINT64
      && minValue <= maxValue < WORD64
      && counts != [] && Grows(counts, base.samples)
      && 0 <= counts[|counts| - 1] && lastValue == Reading(minValue, maxValue, counts[|counts| - 1])
    }

    /** The first count is the distance of the first reading from minValue. */
    constructor (value: nat, minValue: nat, maxValue: nat)
      requires minValue <= value <= maxValue < WORD64
      ensures Valid() && fresh(base) && fresh(base.requestCounts) && fresh(base.history) && fresh(base.times)
      ensures counts == [value - minValue] && base.samples == []
      ensures this.minValue == minValue && this.maxValue == maxValue && incrementalValue == value
    {
      var statistic := new Statistic(Num(UINT64, 0));
      base, incrementalValue, lastValue := statistic, value, value;
      this.minValue, this.maxValue := minValue, maxValue;
      counts := [value - minValue];
      DivIsUnique(value - minValue, 0, value - minValue, maxValue - minValue + 1);
    }

    /** The unsigned 64-bit arithmetic of update(). */
    method ConvertToGauge(newValue: nat) returns (gauge: nat)
      ensures gauge == Gauge(newValue, lastValue, minValue, maxValue) < WORD64
    {
      if newValue < lastValue {
        gauge := (newValue - lastValue + maxValue - minValue + 1) % WORD64; // handle a wrap around
      } else {
        gauge := (newValue - lastValue) % WORD64;
      }
    }

    /**
     * The provider's counter has counted `growth` since the last update and shows what it shows. Whole turns of
     * the counter are not seen: the sample is the growth if and only if it is less than a turn.
     */
    method Update(time: int, ghost growth: nat)
      requires Valid() && base.lastIndex + 1 + 2 * SLOTS < WORD64
      requires incrementalValue == Reading(minValue, maxValue, counts[|counts| - 1] + growth)
      modifies this`lastValue, this`counts
      modifies base`curValue, base`lastIndex, base`lastTimestamp, base`samples, base`stamps, base.history, base.times
      ensures Valid()
      ensures var seen := SeenGrowth(minValue, maxValue, growth);
              && base.samples == old(base.samples) + [seen] && base.curValue == Num(UINT64, seen)
              && counts == old(counts) + [old(counts[|counts| - 1]) + seen]
              && (seen == growth <==> growth < maxValue - minValue + 1)
    {
      GaugeSees(minValue, maxValue, counts[|counts| - 1], growth);
      Record(time, SeenGrowth(minValue, maxValue, growth));
    }

    method Record(time: int, ghost seen: nat)
      requires Valid() && base.lastIndex + 1 + 2 * SLOTS < WORD64
      requires incrementalValue == Reading(minValue, maxValue, counts[|counts| - 1] + seen)
      requires Gauge(incrementalValue, lastValue, minValue, maxValue) == seen
      modifies this`lastValue, this`counts
      modifies base`curValue, base`lastIndex, base`lastTimestamp, base`samples, base`stamps, base.history, base.times
      ensures Valid()
      ensures base.samples == old(base.samples) + [seen] && base.curValue == Num(UINT64, seen)
      ensures counts == old(counts) + [old(counts[|counts| - 1]) + seen]
    {
      var gauge := ConvertToGauge(incrementalValue);
      GrowsOn(counts, base.samples, gauge);
      base.SetValue(gauge);
      base.Update(time);
      lastValue, counts := incrementalValue, counts + [counts[|counts| - 1] + gauge];
    }

    /** Every reliable SUM entry is the growth of the counter over its window. */
    lemma SumsAreGrowth(level: nat, q: nat)
      requires Valid() && level < LEVELS && base.Reliable(3, level, q)
      ensures Span(level, q) < |counts| && 0 <= Span(level, q - 1)
      ensures var growth := counts[Span(level, q)] - counts[Span(level, q - 1)];
              growth < WORD64 ==> base.history[3, level, WrapIndex(q)] == Num(UINT64, growth)
    {
      base.ReliableEntry(3, level, q);
      CounterWindows(counts, base.samples, level, q);
    }
  }
}
