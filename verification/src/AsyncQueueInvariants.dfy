/** What every step of the activity queue keeps, and hence what holds in every reachable state. */
module AsyncQueueInvariants {
  import opened Base
  import opened AsyncQueue

  /** Between lock.lock() and lock.unlock() in Push. */
  predicate InSection(pc: ProducerPc)
  {
    pc.LoadWrite? || pc.LoadRead? || pc.LoadSlotIndex? || pc.StoreSlot? || pc.BumpWrite?
    || pc.SetOverloaded? || pc.CountLoss? || pc.ReleaseLock?
  }

  /** While Pop's unique_lock owns the mutex. */
  predicate ConsumerInSection(pc: ConsumerPc)
  {
    pc.LoopLoadWrite? || pc.LoopLoadRead? || pc.LoopTestTerminate? || pc.WaitRelease? || pc.LeaveWait?
  }

  predicate LockInv(s: State)
  {
    && (forall i :: 0 <= i < |s.producers| && InSection(s.producers[i]) ==> s.lock == HeldByProducer(i))
    && (s.lock.HeldByProducer? ==> s.lock.i < |s.producers| && InSection(s.producers[s.lock.i]))
    && (ConsumerInSection(s.consumer) <==> s.lock == HeldByConsumer)
  }

  predicate NonEmpty(s: State)
  {
    |s.delivered| < |s.accepted|
  }

  /** `size` may be stale, but only on the safe side: one more element fits, with a slot to spare. */
  predicate Room(s: State, size: nat)
  {
    |s.accepted| - |s.delivered| <= size < CAPACITY - 1
  }

  predicate IndexInv(s: State)
  {
    && |s.q.buffer| == CAPACITY
    && s.q.writeIndex == |s.accepted| % WORD32
    && s.q.readIndex == |s.delivered| % WORD32
    && s.delivered <= s.accepted
    && |s.accepted| - |s.delivered| <= CAPACITY - 1
  }

  /** Slot k % 256 holds element k, for every element that is queued and not just being taken. */
  predicate SlotInv(s: State)
    requires |s.q.buffer| == CAPACITY
  {
    forall k :: |s.delivered| <= k < |s.accepted| && !(k == |s.delivered| && s.consumer.BumpRead?) ==>
      s.q.buffer[Slot(k)] == Some(s.accepted[k])
  }

  predicate ProducerLocal(s: State, pc: ProducerPc)
    requires |s.q.buffer| == CAPACITY
  {
    match pc
    case LoadRead(a, w) => w == s.q.writeIndex
    case LoadSlotIndex(a, size) => Room(s, size)
    case StoreSlot(a, size, slot) => Room(s, size) && slot == Slot(|s.accepted|)
    case BumpWrite(a, size) => Room(s, size) && s.q.buffer[Slot(|s.accepted|)] == Some(a)
    case SetOverloaded(size) => size == CAPACITY - 1
    case _ => true
  }

  predicate ProducerInv(s: State)
    requires |s.q.buffer| == CAPACITY
  {
    forall i :: 0 <= i < |s.producers| ==> ProducerLocal(s, s.producers[i])
  }

  /** `w` is what writeIndex was when `count` elements had been accepted, some time after the last Pop. */
  predicate Loaded(s: State, w: nat, count: nat)
  {
    w == count % WORD32 && |s.delivered| <= count <= |s.accepted|
  }

  /** The controller has set `terminate`, and all it had to wait for has been handed out. */
  predicate Drained(s: State, count: nat)
  {
    s.q.terminate && s.acceptedAtStop <= count
  }

  predicate ConsumerInv(s: State)
  {
    match s.consumer
    case FirstLoadRead(w, n) => Loaded(s, w, n)
    case LoopLoadRead(w, n) => Loaded(s, w, n)
    case LeaveWait => NonEmpty(s) || s.q.terminate
    case EndLoadWrite => NonEmpty(s) || s.q.terminate
    case EndLoadRead(w, n) => Loaded(s, w, n) && (|s.delivered| < n || Drained(s, n))
    case EndTestTerminate => Drained(s, |s.delivered|)
    case SetTerminated => Drained(s, |s.delivered|)
    case Exited => Drained(s, |s.delivered|)
    case OverflowLoadRead(w, n) => Loaded(s, w, n)
    case CheckLoadWrite => NonEmpty(s)
    case CheckLoadRead(w) => NonEmpty(s) && !Empty(w, s.q)
    case AssertionFailed => false
    case LoadResult => NonEmpty(s)
    case ClearSlot(r) => NonEmpty(s) && r == Some(s.accepted[|s.delivered|])
    case BumpRead(r) => NonEmpty(s) && r == Some(s.accepted[|s.delivered|])
    case _ => true
  }

  predicate ControlInv(s: State)
  {
    && (s.q.terminate <==> s.control.Stopped? || s.control.SpinTerminated? || s.control.Join?)
    && (s.control.Stopped? || s.control.ClearTerminated? || s.control.Spawn? <==> s.consumer.NotRunning?)
    && s.acceptedAtStop <= |s.accepted|
    && (s.consumer.Exited? ==> s.q.terminated)
  }

  /** This call of Push has neither stored its activity nor counted it as lost yet. */
  predicate Undecided(pc: ProducerPc)
  {
    !(pc.Idle? || pc.ReleaseLock? || pc.TestNotified?)
  }

  function InFlight(producers: seq<ProducerPc>): nat
  {
    if producers == [] then 0 else (if Undecided(producers[0]) then 1 else 0) + InFlight(producers[1..])
  }

  /** Losses that checkOverflowMode has taken out of `lost`. */
  function Reported(s: State): nat
  {
    s.lostActivities + match s.consumer
                       case OverflowClear(loss) => loss
                       case Dispatch(loss) => loss
                       case _ => 0
  }

  /** Losses that happened and have not been reported. */
  function Unreported(s: State): int
  {
    s.attempts - InFlight(s.producers) - |s.accepted| - Reported(s)
  }

  predicate LossInv(s: State)
  {
    && 0 <= Unreported(s)
    && s.q.lost == Unreported(s) % WORD64
    && (s.consumer.OverflowSubtract? ==> s.consumer.loss <= Unreported(s))
  }

  predicate Inv(s: State)
  {
    IndexInv(s) && SlotInv(s) && LockInv(s) && ProducerInv(s) && ConsumerInv(s) && ControlInv(s) && LossInv(s)
  }

  /**
   * The wrapped 32-bit indices stand for the unbounded ones: as long as at most 255 elements lie
   * between them, their masked difference is the number of elements.
   */
  lemma MaskedDifferenceIsCount(w: nat, r: nat)
    requires r <= w < r + CAPACITY
    ensures MaskedDifference(w % WORD32, r % WORD32) == w - r
  {
    var d := w - r;
    assert w % WORD32 == (r % WORD32 + d) % WORD32;
    assert (w % WORD32 - r % WORD32) % WORD32 == d;
  }

  lemma SlotsDiffer(k: nat, l: nat)
    requires k < l < k + CAPACITY
    ensures Slot(k) != Slot(l)
  {}

  lemma Remainder(x: nat, q: nat, r: nat)
    requires x == WORD32 * q + r && r < WORD32
    ensures x % WORD32 == r
  {}

  lemma SlotIs(x: nat, q: nat, r: nat)
    requires x == CAPACITY * q + r && r < CAPACITY
    ensures Slot(x) == r
  {}

  lemma NextIndex(n: nat)
    ensures (n % WORD32 + 1) % WORD32 == (n + 1) % WORD32
    ensures Slot(n % WORD32) == Slot(n)
  {
    var q, r := n / WORD32, n % WORD32;
    if r + 1 == WORD32 {
      Remainder(n + 1, q + 1, 0);
    } else {
      Remainder(n + 1, q, r + 1);
    }
    SlotIs(r, r / CAPACITY, r % CAPACITY);
    SlotIs(n, 0x100_0000 * q + r / CAPACITY, r % CAPACITY);
  }

  lemma {:induction false} InFlightUpdate(producers: seq<ProducerPc>, i: nat, pc: ProducerPc)
    requires i < |producers|
    ensures InFlight(producers[i := pc])
         == InFlight(producers) - (if Undecided(producers[i]) then 1 else 0) + (if Undecided(pc) then 1 else 0)
  {
    var updated := producers[i := pc];
    if i == 0 {
      assert updated[1..] == producers[1..];
    } else {
      assert updated[1..] == producers[1..][i - 1 := pc];
      InFlightUpdate(producers[1..], i - 1, pc);
    }
  }

  lemma {:induction false} NoneInFlight(n: nat)
    ensures InFlight(seq(n, i => Idle)) == 0
  {
    if n > 0 {
      assert seq(n, i => Idle)[1..] == seq(n - 1, i => Idle);
      NoneInFlight(n - 1);
    }
  }

  lemma InitInv(n: nat)
    ensures Inv(Init(n))
  {
    NoneInFlight(n);
  }

  lemma CallInv(s: State, i: nat, a: Activity)
    requires Inv(s)
    ensures Inv(CallPush(s, i, a))
  {
    if i < |s.producers| && s.producers[i] == Idle {
      InFlightUpdate(s.producers, i, TestOverloaded(a));
      var s' := CallPush(s, i, a);
      forall j | 0 <= j < |s.producers| ensures ProducerLocal(s', s'.producers[j]) {
        assert ProducerLocal(s, s.producers[j]);
      }
    }
  }

  lemma ControlKeepsQueue(s: State)
    requires IndexInv(s) && SlotInv(s) && ProducerInv(s) && ControlInv(s) && LockInv(s) && LossInv(s)
    ensures var s' := ControlStep(s);
            IndexInv(s') && SlotInv(s') && ProducerInv(s') && LockInv(s') && LossInv(s')
  {
    var s' := ControlStep(s);
    forall j | 0 <= j < |s.producers| ensures ProducerLocal(s', s'.producers[j]) {
      assert ProducerLocal(s, s.producers[j]);
    }
  }

  lemma ControlKeepsKnowledge(s: State)
    requires ControlInv(s) && ConsumerInv(s)
    ensures ControlInv(ControlStep(s)) && ConsumerInv(ControlStep(s))
  {}

  lemma ProducerKeepsLock(s: State, i: nat)
    requires LockInv(s) && i < |s.producers|
    ensures LockInv(ProducerStep(s, i))
  {
    match s.producers[i] {
      case AcquireLock(a) =>
      case ReleaseLock(size) =>
      case _ =>
    }
  }

  /** A step of Push loses an activity exactly when it increments `lost`. */
  lemma ProducerLeavesReports(s: State, i: nat)
    requires i < |s.producers|
    ensures var s' := ProducerStep(s, i); var pc := s.producers[i];
            && s'.consumer == s.consumer && s'.lostActivities == s.lostActivities && s'.attempts == s.attempts
            && |s'.producers| == |s.producers| && s'.producers == s.producers[i := s'.producers[i]]
            && s'.q.lost == (if pc.CountEarlyLoss? || pc.CountLoss? then (s.q.lost + 1) % WORD64 else s.q.lost)
            && |s'.accepted| == |s.accepted| + (if Undecided(pc) && !Undecided(s'.producers[i]) && pc.BumpWrite? then 1 else 0)
  {}

  lemma ProducerMovesLosses(s: State, i: nat)
    requires i < |s.producers|
    ensures var s' := ProducerStep(s, i); var pc := s.producers[i];
            && Unreported(s') == Unreported(s) + (if pc.CountEarlyLoss? || pc.CountLoss? then 1 else 0)
            && s'.q.lost == (if pc.CountEarlyLoss? || pc.CountLoss? then (s.q.lost + 1) % WORD64 else s.q.lost)
            && s'.consumer == s.consumer
  {
    var s' := ProducerStep(s, i);
    ProducerLeavesReports(s, i);
    InFlightUpdate(s.producers, i, s'.producers[i]);
  }

  lemma ProducerKeepsLosses(s: State, i: nat)
    requires LossInv(s) && i < |s.producers|
    ensures LossInv(ProducerStep(s, i))
  {
    ProducerMovesLosses(s, i);
    NextLoss(Unreported(s));
  }

  lemma NextLoss(n: int)
    ensures (n % WORD64 + 1) % WORD64 == (n + 1) % WORD64
  {
    var q, r := n / WORD64, n % WORD64;
    assert n == WORD64 * q + r;
    assert n + 1 == WORD64 * q + (r + 1);
    if r + 1 == WORD64 {
      assert n + 1 == WORD64 * (q + 1);
    }
  }

  /** What Push may rely on between its steps is untouched by a step of another thread. */
  lemma OthersKeepLocal(s: State, s': State, pc: ProducerPc)
    requires |s.q.buffer| == CAPACITY && |s'.q.buffer| == CAPACITY && ProducerLocal(s, pc)
    requires InSection(pc) ==>
      s'.accepted == s.accepted && |s.delivered| <= |s'.delivered| && s'.q.writeIndex == s.q.writeIndex
    requires pc.BumpWrite? ==> s'.q.buffer[Slot(|s.accepted|)] == s.q.buffer[Slot(|s.accepted|)]
    ensures ProducerLocal(s', pc)
  {}

  /** Only the thread that owns the mutex changes the buffer or writeIndex. */
  lemma ProducerKeepsIndices(s: State, i: nat)
    requires IndexInv(s) && i < |s.producers| && ProducerLocal(s, s.producers[i])
    ensures IndexInv(ProducerStep(s, i))
  {
    NextIndex(|s.accepted|);
  }

  lemma ProducerKeepsSlots(s: State, i: nat)
    requires IndexInv(s) && SlotInv(s) && i < |s.producers| && ProducerLocal(s, s.producers[i])
    requires IndexInv(ProducerStep(s, i))
    ensures SlotInv(ProducerStep(s, i))
  {
    match s.producers[i] {
      case StoreSlot(a, size, slot) =>
        forall k | |s.delivered| <= k < |s.accepted| ensures Slot(k) != slot { SlotsDiffer(k, |s.accepted|); }
      case _ =>
    }
  }

  lemma ProducerKeepsProducers(s: State, i: nat)
    requires IndexInv(s) && ProducerInv(s) && LockInv(s) && i < |s.producers|
    requires IndexInv(ProducerStep(s, i))
    ensures ProducerInv(ProducerStep(s, i))
  {
    var s' := ProducerStep(s, i);
    forall j | 0 <= j < |s.producers| ensures ProducerLocal(s', s'.producers[j]) {
      assert ProducerLocal(s, s.producers[j]);
      if j == i {
        ProducerLearns(s, i);
      } else {
        OthersKeepLocal(s, s', s.producers[j]);
      }
    }
  }

  lemma ProducerLearns(s: State, i: nat)
    requires IndexInv(s) && i < |s.producers| && ProducerLocal(s, s.producers[i])
    ensures ProducerLocal(ProducerStep(s, i), ProducerStep(s, i).producers[i])
  {
    NextIndex(|s.accepted|);
    MaskedDifferenceIsCount(|s.accepted|, |s.delivered|);
  }

  lemma ProducerKeepsKnowledge(s: State, i: nat)
    requires i < |s.producers| && IndexInv(s) && ConsumerInv(s) && ControlInv(s)
    ensures ConsumerInv(ProducerStep(s, i)) && ControlInv(ProducerStep(s, i))
  {
    var s' := ProducerStep(s, i);
    assert s'.consumer == s.consumer && s'.delivered == s.delivered && s.accepted <= s'.accepted;
    assert s'.q.terminate == s.q.terminate && s'.q.readIndex == s.q.readIndex && s'.control == s.control;
  }

  lemma ConsumerKeepsLock(s: State)
    requires LockInv(s)
    ensures LockInv(ConsumerStep(s))
  {}

  /** The steps of checkOverflowMode and of the worker that move losses. */
  predicate MovesLosses(pc: ConsumerPc)
  {
    pc.OverflowLoadLost? || pc.OverflowSubtract? || pc.OverflowClear? || pc.Dispatch?
  }

  lemma SubtractMovesLosses(s: State, loss: nat)
    requires LossInv(s) && s.consumer == OverflowSubtract(loss)
    ensures LossInv(ConsumerStep(s))
  {}

  lemma ConsumerMovesLosses(s: State)
    requires LossInv(s) && MovesLosses(s.consumer)
    ensures LossInv(ConsumerStep(s))
  {
    match s.consumer {
      case OverflowSubtract(loss) => SubtractMovesLosses(s, loss);
      case _ =>
    }
  }

  lemma ConsumerLeavesCounts(s: State)
    requires !MovesLosses(s.consumer)
    ensures var s' := ConsumerStep(s);
            && s'.q.lost == s.q.lost && s'.lostActivities == s.lostActivities && s'.attempts == s.attempts
            && s'.accepted == s.accepted && s'.producers == s.producers
  {}

  lemma ConsumerLeavesReports(s: State)
    requires !MovesLosses(s.consumer)
    ensures var pc := ConsumerStep(s).consumer;
            !pc.OverflowSubtract? && !pc.OverflowClear? && (pc.Dispatch? ==> pc.loss == 0)
  {}

  lemma ConsumerKeepsLosses(s: State)
    requires LossInv(s)
    ensures LossInv(ConsumerStep(s))
  {
    if MovesLosses(s.consumer) {
      ConsumerMovesLosses(s);
    } else {
      ConsumerLeavesCounts(s);
      ConsumerLeavesReports(s);
      assert Unreported(ConsumerStep(s)) == Unreported(s);
    }
  }

  lemma ConsumerKeepsIndices(s: State)
    requires IndexInv(s) && ConsumerInv(s)
    ensures IndexInv(ConsumerStep(s))
  {
    NextIndex(|s.delivered|);
  }

  lemma ConsumerKeepsSlots(s: State)
    requires IndexInv(s) && SlotInv(s) && ConsumerInv(s)
    requires IndexInv(ConsumerStep(s))
    ensures SlotInv(ConsumerStep(s))
  {
    match s.consumer {
      case ClearSlot(r) =>
        NextIndex(|s.delivered|);
        forall k | |s.delivered| < k < |s.accepted| ensures Slot(k) != Slot(|s.delivered|) { SlotsDiffer(|s.delivered|, k); }
      case BumpRead(r) =>
      case _ =>
    }
  }

  lemma ConsumerKeepsProducers(s: State)
    requires IndexInv(s) && ConsumerInv(s) && ProducerInv(s)
    requires IndexInv(ConsumerStep(s))
    ensures ProducerInv(ConsumerStep(s))
  {
    var s' := ConsumerStep(s);
    forall j | 0 <= j < |s.producers| ensures ProducerLocal(s', s'.producers[j]) {
      var pc := s.producers[j];
      assert ProducerLocal(s, pc);
      if s.consumer.ClearSlot? && pc.BumpWrite? {
        NextIndex(|s.delivered|);
        SlotsDiffer(|s.delivered|, |s.accepted|);
      }
      OthersKeepLocal(s, s', pc);
    }
  }

  lemma ConsumerKeepsControl(s: State)
    requires ConsumerInv(s) && ControlInv(s)
    ensures ControlInv(ConsumerStep(s))
  {}

  /** Pop has seen that the queue is not empty, and takes its head. */
  predicate Takes(pc: ConsumerPc)
  {
    pc.CheckLoadWrite? || pc.CheckLoadRead? || pc.LoadResult? || pc.ClearSlot? || pc.BumpRead?
  }

  lemma TakerLearns(s: State)
    requires IndexInv(s) && SlotInv(s) && ConsumerInv(s) && Takes(s.consumer)
    ensures ConsumerInv(ConsumerStep(s))
  {
    match s.consumer {
      case CheckLoadWrite => MaskedDifferenceIsCount(|s.accepted|, |s.delivered|);
      case LoadResult => NextIndex(|s.delivered|);
      case _ =>
    }
  }

  /** isEmpty has loaded writeIndex and is about to compare it. */
  predicate Compares(pc: ConsumerPc)
  {
    pc.FirstLoadRead? || pc.LoopLoadRead? || pc.EndLoadRead?
  }

  lemma ComparerLearns(s: State)
    requires IndexInv(s) && ConsumerInv(s) && Compares(s.consumer)
    ensures ConsumerInv(ConsumerStep(s))
  {
    match s.consumer {
      case FirstLoadRead(w, n) => MaskedDifferenceIsCount(n, |s.delivered|);
      case LoopLoadRead(w, n) => MaskedDifferenceIsCount(n, |s.delivered|);
      case EndLoadRead(w, n) => MaskedDifferenceIsCount(n, |s.delivered|);
    }
  }

  lemma OtherLearns(s: State)
    requires IndexInv(s) && ConsumerInv(s) && !Compares(s.consumer) && !Takes(s.consumer) && s.acceptedAtStop <= |s.accepted|
    ensures ConsumerInv(ConsumerStep(s))
  {}

  lemma ConsumerLearns(s: State)
    requires IndexInv(s) && SlotInv(s) && ConsumerInv(s) && s.acceptedAtStop <= |s.accepted|
    ensures ConsumerInv(ConsumerStep(s))
  {
    if Compares(s.consumer) {
      ComparerLearns(s);
    } else if Takes(s.consumer) {
      TakerLearns(s);
    } else {
      OtherLearns(s);
    }
  }

  lemma StepInv(s: State, action: Action)
    requires Inv(s)
    ensures Inv(Step(s, action))
  {
    match action {
      case Call(i, a) => CallInv(s, i, a);
      case Produce(i) =>
        if i < |s.producers| {
          assert ProducerLocal(s, s.producers[i]);
          ProducerKeepsLock(s, i);
          ProducerKeepsLosses(s, i);
          ProducerKeepsIndices(s, i);
          ProducerKeepsSlots(s, i);
          ProducerKeepsProducers(s, i);
          ProducerKeepsKnowledge(s, i);
        }
      case Consume =>
        ConsumerKeepsLock(s);
        ConsumerKeepsLosses(s);
        ConsumerKeepsIndices(s);
        ConsumerKeepsSlots(s);
        ConsumerKeepsProducers(s);
        ConsumerLearns(s);
        ConsumerKeepsControl(s);
      case Control =>
        ControlKeepsQueue(s);
        ControlKeepsKnowledge(s);
    }
  }

  /** Every state of every run, whatever the number of producers and the interleaving. */
  lemma {:induction false} Reachable(n: nat, run: seq<Action>)
    ensures Inv(Exec(Init(n), run))
    decreases |run|
  {
    if run == [] {
      InitInv(n);
    } else {
      Reachable(n, run[..|run| - 1]);
      StepInv(Exec(Init(n), run[..|run| - 1]), run[|run| - 1]);
    }
  }
}
