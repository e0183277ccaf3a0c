/**
 * The methods of ActivityMultiplexerQueue as one thread sees them: a class whose fields are updated
 * in place, proved against functions on the data members, and a proof that these functions are what
 * the interleaved steps amount to when no other thread interferes.
 */
module AsyncQueueSequential {
  import opened Base
  import opened AsyncQueue
  import opened AsyncQueueInvariants
  import opened AsyncQueueTheorems
  import opened AsyncQueueOverload

  function Size(q: Shared): (size: nat)
  {
    MaskedDifference(q.writeIndex, q.readIndex)
  }

  /** The queued activities in order, read off the ring. */
  function QueueOf(q: Shared): (queue: seq<Option<Activity>>)
    ensures |queue| == Size(q)
  {
    seq(Size(q), i requires 0 <= i => ReadSlot(q, Slot(q.readIndex + i)))
  }

  predicate WellFormed(q: Shared)
  {
    |q.buffer| == CAPACITY && q.writeIndex < WORD32 && q.readIndex < WORD32 && q.lost < WORD64
  }

  predicate Accepts(q: Shared)
  {
    !q.overloaded && Size(q) < CAPACITY - 1
  }

  /** Push without interference. */
  function PushShared(q: Shared, a: Activity): Shared
  {
    if q.overloaded then CountLost(q)
    else if Size(q) < CAPACITY - 1 then
      WriteSlot(q, Slot(q.writeIndex), Some(a)).(writeIndex := (q.writeIndex + 1) % WORD32)
    else CountLost(q.(overloaded := true))
  }

  /** Pop on a ring that is not empty, without interference. */
  function PopShared(q: Shared): Shared
  {
    WriteSlot(q, Slot(q.readIndex), None).(readIndex := (q.readIndex + 1) % WORD32)
  }

  /** checkOverflowMode without interference. */
  function CheckShared(q: Shared): Shared
  {
    if q.overloaded && Size(q) == 0 then q.(lost := 0, overloaded := false) else q
  }

  /** The place of the i-th queued element does not depend on whether readIndex has wrapped. */
  lemma WrappedSlots(r: nat, i: nat)
    requires r < WORD32
    ensures Slot((r + 1) % WORD32 + i) == Slot(r + 1 + i)
  {
    if r + 1 == WORD32 {
      assert WORD32 + i == CAPACITY * 0x100_0000 + i;
    }
  }

  /** The distance of two 32-bit indices, without a modulus. */
  function Distance32(w: nat, r: nat): (d: int)
    requires w < WORD32 && r < WORD32
    ensures 0 <= d < WORD32
  {
    if r <= w then w - r else w - r + WORD32
  }

  lemma DistanceIsModulus(w: nat, r: nat)
    requires w < WORD32 && r < WORD32
    ensures (w - r) % WORD32 == Distance32(w, r)
  {}

  lemma IndexAfter(n: nat)
    requires n < WORD32
    ensures (n + 1) % WORD32 == if n + 1 == WORD32 then 0 else n + 1
  {}

  lemma MaskAfter(d: nat)
    ensures d % CAPACITY < CAPACITY - 1 ==> (d + 1) % CAPACITY == d % CAPACITY + 1
    ensures d % CAPACITY > 0 ==> (d - 1) % CAPACITY == d % CAPACITY - 1
  {}

  lemma SlotShift(index: int, turns: int)
    ensures Slot(index + CAPACITY * turns) == Slot(index)
  {
    assert index + CAPACITY * turns == CAPACITY * (index / CAPACITY + turns) + index % CAPACITY;
  }

  lemma SizeBounds(q: Shared)
    requires WellFormed(q)
    ensures Size(q) < CAPACITY
    ensures Size(q) < CAPACITY - 1 ==> Size(q.(writeIndex := (q.writeIndex + 1) % WORD32)) == Size(q) + 1
    ensures Size(q) > 0 ==> Size(q.(readIndex := (q.readIndex + 1) % WORD32)) == Size(q) - 1
    ensures Slot(q.writeIndex) == Slot(q.readIndex + Size(q))
  {
    NextDifference(q.writeIndex, q.readIndex);
    SlotAtSize(q.writeIndex, q.readIndex);
  }

  lemma SlotAtSize(w: nat, r: nat)
    requires w < WORD32 && r < WORD32
    ensures Slot(w) == Slot(r + MaskedDifference(w, r))
  {
    var d := Distance32(w, r);
    DistanceIsModulus(w, r);
    SlotShift(r + d % CAPACITY, d / CAPACITY);
    assert r + d == r + d % CAPACITY + CAPACITY * (d / CAPACITY);
    if w < r {
      SlotShift(w, 0x100_0000);
    }
  }

  lemma NextDifference(w: nat, r: nat)
    requires w < WORD32 && r < WORD32
    ensures var d := MaskedDifference(w, r);
            && (d < CAPACITY - 1 ==> MaskedDifference((w + 1) % WORD32, r) == d + 1)
            && (d > 0 ==> MaskedDifference(w, (r + 1) % WORD32) == d - 1)
  {
    var d := Distance32(w, r);
    DistanceIsModulus(w, r);
    MaskAfter(d);
    if d % CAPACITY < CAPACITY - 1 {
      var w' := if w + 1 == WORD32 then 0 else w + 1;
      IndexAfter(w);
      DistanceIsModulus(w', r);
      assert Distance32(w', r) == d + 1;
    }
    if d % CAPACITY > 0 {
      var r' := if r + 1 == WORD32 then 0 else r + 1;
      IndexAfter(r);
      DistanceIsModulus(w, r');
      assert Distance32(w, r') == d - 1;
    }
  }

  lemma SameQueue(q: Shared, q': Shared)
    requires q'.buffer == q.buffer && q'.writeIndex == q.writeIndex && q'.readIndex == q.readIndex
    ensures QueueOf(q') == QueueOf(q)
  {
    forall i {:trigger QueueOf(q)[i]} | 0 <= i < Size(q) ensures QueueOf(q')[i] == QueueOf(q)[i] {
      assert ReadSlot(q', Slot(q'.readIndex + i)) == ReadSlot(q, Slot(q.readIndex + i));
    }
  }

  lemma PushAppends(q: Shared, a: Activity)
    requires WellFormed(q) && Accepts(q)
    ensures QueueOf(PushShared(q, a)) == QueueOf(q) + [Some(a)]
  {
    var q' := PushShared(q, a);
    SizeBounds(q);
    assert Size(q') == Size(q) + 1;
    forall i | 0 <= i < Size(q') ensures QueueOf(q')[i] == (QueueOf(q) + [Some(a)])[i] {
      if i < Size(q) { SlotsDiffer(q.readIndex + i, q.readIndex + Size(q)); }
    }
  }

  /** Push appends to the queue, or loses the activity and says so. */
  lemma PushEnqueues(q: Shared, a: Activity)
    requires WellFormed(q)
    ensures var q' := PushShared(q, a);
            && WellFormed(q')
            && QueueOf(q') == (if Accepts(q) then QueueOf(q) + [Some(a)] else QueueOf(q))
            && (q'.overloaded <==> !Accepts(q))
            && q'.lost == (if Accepts(q) then q.lost else (q.lost + 1) % WORD64)
  {
    if Accepts(q) { PushAppends(q, a); } else { SameQueue(q, PushShared(q, a)); }
  }

  /** Pop removes the head of the queue. */
  lemma PopDequeues(q: Shared)
    requires WellFormed(q) && Size(q) > 0
    ensures var q' := PopShared(q);
            && WellFormed(q')
            && QueueOf(q') == QueueOf(q)[1..]
            && ReadSlot(q, Slot(q.readIndex)) == QueueOf(q)[0]
  {
    var q' := PopShared(q);
    SizeBounds(q);
    assert Size(q') == Size(q) - 1;
    forall i | 0 <= i < Size(q') ensures QueueOf(q')[i] == QueueOf(q)[1 + i] {
      PopKeeps(q, i);
    }
  }

  lemma PopKeeps(q: Shared, i: nat)
    requires WellFormed(q) && 1 + i < CAPACITY
    ensures var q' := PopShared(q);
            ReadSlot(q', Slot(q'.readIndex + i)) == ReadSlot(q, Slot(q.readIndex + 1 + i))
  {
    WrappedSlots(q.readIndex, i);
    SlotsDiffer(q.readIndex, q.readIndex + 1 + i);
  }

  class ActivityMultiplexerQueue {
    var buffer: array<Option<Activity>>
    var writeIndex: nat
    var readIndex: nat
    var overloaded: bool
    var lost: nat
    var notified: bool
    var terminate: bool
    var terminated: bool

    ghost predicate Valid()
      reads this, buffer
    {
      WellFormed(View())
    }

    ghost function View(): Shared
      reads this, buffer
    {
      Shared(buffer[..], writeIndex, readIndex, overloaded, lost, notified, terminate, terminated)
    }

    ghost function Contents(): seq<Option<Activity>>
      reads this, buffer
    {
      QueueOf(View())
    }

    constructor ()
      ensures Valid() && fresh(buffer)
      ensures View() == Init(0).q && Contents() == []
    {
      buffer := new Option<Activity>[CAPACITY](i => None);
      writeIndex, readIndex, lost := 0, 0, 0;
      overloaded, notified, terminate, terminated := false, false, true, true;
      new;
      assert buffer[..] == seq(CAPACITY, i => None);
    }

    method IsEmpty() returns (empty: bool)
      requires Valid()
      ensures empty <==> Contents() == []
    {
      empty := MaskedDifference(writeIndex, readIndex) == 0;
    }

    method Push(activity: Activity)
      requires Valid()
      modifies this, buffer
      ensures Valid() && buffer == old(buffer)
      ensures View() == PushShared(old(View()), activity)
      ensures Contents() == if Accepts(old(View())) then old(Contents()) + [Some(activity)] else old(Contents())
      ensures overloaded <==> !Accepts(old(View()))
      ensures lost == if Accepts(old(View())) then old(lost) else (old(lost) + 1) % WORD64
    {
      PushEnqueues(View(), activity);
      if overloaded {
        lost := (lost + 1) % WORD64;
        return;
      }
      var curSize := MaskedDifference(writeIndex, readIndex);
      if curSize < CAPACITY - 1 {
        buffer[Slot(writeIndex)] := Some(activity);
        writeIndex := (writeIndex + 1) % WORD32;
      } else {
        overloaded := true;
        lost := (lost + 1) % WORD64;
      }
    }

    /** On an empty queue that is not being shut down the source sleeps until another thread acts. */
    method Pop() returns (result: Option<Activity>)
      requires Valid()
      requires Contents() != [] || terminate
      modifies this, buffer
      ensures Valid() && buffer == old(buffer)
      ensures old(Contents()) != [] ==>
                result == old(Contents()[0]) && Contents() == old(Contents())[1..]
                && View() == PopShared(old(View()))
      ensures old(Contents()) == [] ==> result == None && terminated && Contents() == []
    {
      var empty := IsEmpty();
      if empty {
        notified := false;
        terminated := true;
        return None;
      }
      PopDequeues(View());
      result := buffer[Slot(readIndex)];
      buffer[Slot(readIndex)] := None;
      readIndex := (readIndex + 1) % WORD32;
    }

    /** The losses are handed over exactly when the overload has been worked off. */
    method CheckOverflowMode() returns (result: nat)
      requires Valid()
      modifies this
      ensures Valid() && buffer == old(buffer)
      ensures View() == CheckShared(old(View()))
      ensures Contents() == old(Contents())
      ensures result + lost == old(lost)
      ensures (result == old(lost) && !overloaded) || (result == 0 && overloaded == old(overloaded))
      ensures old(overloaded) && Contents() == [] ==> result == old(lost) && !overloaded
    {
      var empty := IsEmpty();
      if !overloaded || !empty { return 0; }
      result := lost;
      lost := (lost - result) % WORD64;
      overloaded := false;
    }
  }

  // ---- The class methods are the interleaved steps without interference ----

  /** What an undisturbed call of Push leaves behind. */
  function PushAlone(s: State, a: Activity): State
  {
    s.(q := PushShared(s.q, a), accepted := if Accepts(s.q) then s.accepted + [a] else s.accepted,
       attempts := s.attempts + 1)
  }

  predicate OnlyProducer(run: seq<Action>, i: nat)
  {
    forall k :: 0 <= k < |run| ==> (run[k].Call? || run[k].Produce?) && run[k].i == i
  }

  /** With each state the set holds the state after a step of producer `i`. */
  ghost predicate FollowsProducer(states: iset<State>, i: nat)
  {
    forall t {:trigger ProducerStep(t, i)} :: t in states && i < |t.producers| ==> ProducerStep(t, i) in states
  }

  ghost predicate ProducesTo(s: State, i: nat, t: State)
  {
    exists run :: OnlyProducer(run, i) && Exec(s, run) == t
  }

  /** The states that producer `i` goes through on its own. */
  ghost function Producing(s: State, i: nat): iset<State>
  {
    iset t | ProducesTo(s, i, t)
  }

  lemma ProducingFollows(s: State, i: nat, a: Activity)
    ensures FollowsProducer(Producing(s, i), i) && CallPush(s, i, a) in Producing(s, i)
  {
    var call := [Call(i, a)];
    assert call[..0] == [] && OnlyProducer(call, i) && Exec(s, call) == CallPush(s, i, a);
    forall t {:trigger ProducerStep(t, i)} | t in Producing(s, i) && i < |t.producers| ensures ProducerStep(t, i) in Producing(s, i) {
      var run :| OnlyProducer(run, i) && Exec(s, run) == t;
      var longer := run + [Produce(i)];
      assert longer[..|run|] == run && OnlyProducer(longer, i) && Exec(s, longer) == ProducerStep(t, i);
    }
  }

  /** One more step of producer `i`; `t` and `t'` are the states without its program counter. */
  lemma ProducerGoes(states: iset<State>, i: nat, t: State, pc: ProducerPc, t': State, pc': ProducerPc)
    requires FollowsProducer(states, i) && i < |t.producers| && Goto(t, i, pc) in states && t'.producers == t.producers
    requires ProducerStep(Goto(t, i, pc), i) == Goto(t', i, pc).(producers := t.producers[i := pc][i := pc'])
    ensures Goto(t', i, pc') in states
  {
    assert t.producers[i := pc][i := pc'] == t'.producers[i := pc'];
  }

  /**
   * Left alone, the steps of producer `i` do to the shared data exactly what the method Push does,
   * and add the activity to the accepted ones exactly when Push appends it.
   */
  lemma SoloPush(s: State, i: nat, a: Activity) returns (run: seq<Action>)
    requires i < |s.producers| && s.producers[i] == Idle && s.lock == Free
    ensures OnlyProducer(run, i) && Exec(s, run) == PushAlone(s, a)
  {
    var states, called, pushed := Producing(s, i), s.(attempts := s.attempts + 1), PushAlone(s, a);
    ProducingFollows(s, i, a);
    if s.q.overloaded {
      ProducerGoes(states, i, called, TestOverloaded(a), called, CountEarlyLoss);
      ProducerGoes(states, i, called, CountEarlyLoss, pushed, Idle);
    } else {
      ProducerGoes(states, i, called, TestOverloaded(a), called, AcquireLock(a));
      PushEnters(states, called, i, a);
      if Accepts(s.q) { PushAccepts(states, called, i, a); } else { PushRefuses(states, called, i, a); }
    }
    assert Goto(pushed, i, Idle) == pushed;
    assert pushed in states;
    run :| OnlyProducer(run, i) && Exec(s, run) == pushed;
  }

  /** On a full queue the producer comes to the point where it raises the flag. */
  lemma SoloFindsFull(s: State, i: nat, a: Activity) returns (run: seq<Action>)
    requires i < |s.producers| && s.producers[i] == Idle && s.lock == Free && !s.q.overloaded && !Accepts(s.q)
    ensures Exec(s, run) == Goto(s.(attempts := s.attempts + 1, lock := HeldByProducer(i)), i, SetOverloaded(Size(s.q)))
  {
    var states, called := Producing(s, i), s.(attempts := s.attempts + 1);
    ProducingFollows(s, i, a);
    ProducerGoes(states, i, called, TestOverloaded(a), called, AcquireLock(a));
    PushEnters(states, called, i, a);
    var found := Goto(called.(lock := HeldByProducer(i)), i, SetOverloaded(Size(s.q)));
    assert found in states;
    run :| OnlyProducer(run, i) && Exec(s, run) == found;
  }

  lemma PushEnters(states: iset<State>, s: State, i: nat, a: Activity)
    requires FollowsProducer(states, i) && i < |s.producers| && s.lock == Free && Goto(s, i, AcquireLock(a)) in states
    ensures Goto(s.(lock := HeldByProducer(i)), i,
                 if Size(s.q) < CAPACITY - 1 then LoadSlotIndex(a, Size(s.q)) else SetOverloaded(Size(s.q))) in states
  {
    var locked := s.(lock := HeldByProducer(i));
    ProducerGoes(states, i, s, AcquireLock(a), locked, LoadWrite(a));
    ProducerGoes(states, i, locked, LoadWrite(a), locked, LoadRead(a, s.q.writeIndex));
    ProducerGoes(states, i, locked, LoadRead(a, s.q.writeIndex), locked,
                 if Size(s.q) < CAPACITY - 1 then LoadSlotIndex(a, Size(s.q)) else SetOverloaded(Size(s.q)));
  }

  lemma PushAccepts(states: iset<State>, s: State, i: nat, a: Activity)
    requires FollowsProducer(states, i) && i < |s.producers| && s.lock == Free && Accepts(s.q)
    requires Goto(s.(lock := HeldByProducer(i)), i, LoadSlotIndex(a, Size(s.q))) in states
    ensures Goto(s.(q := PushShared(s.q, a), accepted := s.accepted + [a]), i, Idle) in states
  {
    var size, slot := Size(s.q), Slot(s.q.writeIndex);
    var locked := s.(lock := HeldByProducer(i));
    var stored := locked.(q := WriteSlot(s.q, slot, Some(a)));
    ProducerGoes(states, i, locked, LoadSlotIndex(a, size), locked, StoreSlot(a, size, slot));
    ProducerGoes(states, i, locked, StoreSlot(a, size, slot), stored, BumpWrite(a, size));
    var published := locked.(q := PushShared(s.q, a), accepted := s.accepted + [a]);
    ProducerGoes(states, i, stored, BumpWrite(a, size), published, ReleaseLock(size));
    PushReturns(states, published, i, size);
  }

  lemma PushRefuses(states: iset<State>, s: State, i: nat, a: Activity)
    requires FollowsProducer(states, i) && i < |s.producers| && s.lock == Free && !s.q.overloaded && !Accepts(s.q)
    requires Goto(s.(lock := HeldByProducer(i)), i, SetOverloaded(Size(s.q))) in states
    ensures Goto(s.(q := PushShared(s.q, a)), i, Idle) in states
  {
    var size := Size(s.q);
    var locked := s.(lock := HeldByProducer(i));
    var raised := locked.(q := s.q.(overloaded := true));
    ProducerGoes(states, i, locked, SetOverloaded(size), raised, CountLoss(size));
    ProducerGoes(states, i, raised, CountLoss(size), locked.(q := PushShared(s.q, a)), ReleaseLock(size));
    PushReturns(states, locked.(q := PushShared(s.q, a)), i, size);
  }

  lemma PushReturns(states: iset<State>, s: State, i: nat, size: nat)
    requires FollowsProducer(states, i) && i < |s.producers| && Goto(s, i, ReleaseLock(size)) in states
    ensures Goto(s.(lock := Free), i, Idle) in states
  {
    ProducerGoes(states, i, s, ReleaseLock(size), s.(lock := Free), TestNotified(size));
    ProducerGoes(states, i, s.(lock := Free), TestNotified(size), s.(lock := Free), Idle);
  }

  /** With each state the set holds the state after a step of the worker. */
  ghost predicate FollowsWork(states: iset<State>)
  {
    forall t {:trigger ConsumerStep(t)} :: t in states ==> ConsumerStep(t) in states
  }

  ghost predicate WorksTo(s: State, t: State)
  {
    exists count: nat :: Exec(s, Work(count)) == t
  }

  /** The states that the worker goes through on its own. */
  ghost function Working(s: State): iset<State>
  {
    iset t | WorksTo(s, t)
  }

  lemma WorkingFollows(s: State)
    ensures s in Working(s) && FollowsWork(Working(s))
  {
    assert Exec(s, Work(0)) == s;
    forall t {:trigger ConsumerStep(t)} | t in Working(s) ensures ConsumerStep(t) in Working(s) {
      var count: nat :| Exec(s, Work(count)) == t;
      assert Work(count + 1)[..count] == Work(count);
      assert Exec(s, Work(count + 1)) == ConsumerStep(t);
    }
  }

  /** The worker leaves the first loop of Pop at once, for the queue is not empty. */
  lemma WorkFinds(states: iset<State>, s: State)
    requires FollowsWork(states) && s in states && s.consumer == FirstLoadWrite && Size(s.q) > 0
    ensures s.(consumer := CheckLoadWrite) in states
  {
    var w, n := s.q.writeIndex, |s.accepted|;
    assert ConsumerStep(s) == s.(consumer := FirstLoadRead(w, n));
    assert ConsumerStep(s.(consumer := FirstLoadRead(w, n))) == s.(consumer := EndLoadWrite);
    assert ConsumerStep(s.(consumer := EndLoadWrite)) == s.(consumer := EndLoadRead(w, n));
    assert ConsumerStep(s.(consumer := EndLoadRead(w, n))) == s.(consumer := CheckLoadWrite);
  }

  lemma WorkReads(states: iset<State>, s: State, a: Activity)
    requires FollowsWork(states) && s in states && s.consumer == CheckLoadWrite && Size(s.q) > 0
    requires ReadSlot(s.q, Slot(s.q.readIndex)) == Some(a)
    ensures s.(consumer := ClearSlot(Some(a))) in states
  {
    assert ConsumerStep(s) == s.(consumer := CheckLoadRead(s.q.writeIndex));
    assert ConsumerStep(s.(consumer := CheckLoadRead(s.q.writeIndex))) == s.(consumer := LoadResult);
    assert ConsumerStep(s.(consumer := LoadResult)) == s.(consumer := ClearSlot(Some(a)));
  }

  lemma WorkTakes(states: iset<State>, s: State, a: Activity)
    requires FollowsWork(states) && s in states && s.consumer == ClearSlot(Some(a))
    ensures s.(q := PopShared(s.q), delivered := s.delivered + [a], consumer := OverflowTest) in states
  {
    var cleared := s.(q := WriteSlot(s.q, Slot(s.q.readIndex), None), consumer := BumpRead(Some(a)));
    assert ConsumerStep(s) == cleared;
    assert ConsumerStep(cleared) == s.(q := PopShared(s.q), delivered := s.delivered + [a], consumer := OverflowTest);
  }

  /** What checkOverflowMode hands over after a Pop that left `q`. */
  function HandedOver(q: Shared): nat
  {
    if q.overloaded && Size(q) == 0 then q.lost else 0
  }

  /** Left alone behind a Pop, the worker does what the method CheckOverflowMode does. */
  lemma WorkChecks(states: iset<State>, s: State)
    requires FollowsWork(states) && s in states && s.consumer == OverflowTest
    ensures s.(q := CheckShared(s.q), lostActivities := s.lostActivities + HandedOver(s.q), consumer := FirstLoadWrite) in states
  {
    if s.q.overloaded { WorkTests(states, s); } else { assert ConsumerStep(s) == s.(consumer := Dispatch(0)); }
    if s.q.overloaded && Size(s.q) == 0 {
      WorkEnds(states, s.(consumer := OverflowLoadLost));
    } else {
      assert ConsumerStep(s.(consumer := Dispatch(0))) == s.(consumer := FirstLoadWrite);
    }
  }

  lemma WorkTests(states: iset<State>, s: State)
    requires FollowsWork(states) && s in states && s.consumer == OverflowTest && s.q.overloaded
    ensures s.(consumer := if Size(s.q) == 0 then OverflowLoadLost else Dispatch(0)) in states
  {
    var read := OverflowLoadRead(s.q.writeIndex, |s.accepted|);
    assert ConsumerStep(s) == s.(consumer := OverflowLoadWrite);
    assert ConsumerStep(s.(consumer := OverflowLoadWrite)) == s.(consumer := read);
    assert ConsumerStep(s.(consumer := read)) == s.(consumer := if Size(s.q) == 0 then OverflowLoadLost else Dispatch(0));
  }

  lemma WorkEnds(states: iset<State>, s: State)
    requires FollowsWork(states) && s in states && s.consumer == OverflowLoadLost
    ensures s.(q := s.q.(lost := 0, overloaded := false), lostActivities := s.lostActivities + s.q.lost,
               consumer := FirstLoadWrite) in states
  {
    var lost := s.q.lost;
    assert ConsumerStep(s) == s.(consumer := OverflowSubtract(lost));
    assert ConsumerStep(s.(consumer := OverflowSubtract(lost))) == s.(q := s.q.(lost := 0), consumer := OverflowClear(lost));
    WorkReports(states, s.(q := s.q.(lost := 0), consumer := OverflowClear(lost)), lost);
  }

  lemma WorkReports(states: iset<State>, s: State, lost: nat)
    requires FollowsWork(states) && s in states && s.consumer == OverflowClear(lost)
    ensures s.(q := s.q.(overloaded := false), lostActivities := s.lostActivities + lost, consumer := FirstLoadWrite) in states
  {
    var ended := s.(q := s.q.(overloaded := false), consumer := Dispatch(lost));
    assert ConsumerStep(s) == ended;
    assert ConsumerStep(ended) == ended.(lostActivities := s.lostActivities + lost, consumer := FirstLoadWrite);
  }

  /** Left alone on a queue that is not empty, the worker does what the methods Pop and CheckOverflowMode do. */
  lemma SoloPop(s: State, a: Activity) returns (count: nat)
    requires s.consumer == FirstLoadWrite && Size(s.q) > 0
    requires ReadSlot(s.q, Slot(s.q.readIndex)) == Some(a)
    ensures var q := PopShared(s.q);
            Exec(s, Work(count))
            == s.(q := CheckShared(q), delivered := s.delivered + [a], lostActivities := s.lostActivities + HandedOver(q))
  {
    var states := Working(s);
    WorkingFollows(s);
    WorkPops(states, s, a);
    var q := PopShared(s.q);
    var after := s.(q := CheckShared(q), delivered := s.delivered + [a], lostActivities := s.lostActivities + HandedOver(q));
    assert after in states;
    count :| Exec(s, Work(count)) == after;
  }

  lemma WorkPops(states: iset<State>, s: State, a: Activity)
    requires FollowsWork(states) && s in states && s.consumer == FirstLoadWrite && Size(s.q) > 0
    requires ReadSlot(s.q, Slot(s.q.readIndex)) == Some(a)
    ensures var q := PopShared(s.q);
            s.(q := CheckShared(q), delivered := s.delivered + [a], lostActivities := s.lostActivities + HandedOver(q)) in states
  {
    WorkFinds(states, s);
    WorkReads(states, s.(consumer := CheckLoadWrite), a);
    WorkTakes(states, s.(consumer := ClearSlot(Some(a))), a);
    WorkChecks(states, s.(q := PopShared(s.q), delivered := s.delivered + [a], consumer := OverflowTest));
  }
}
