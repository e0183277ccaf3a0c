/**
 * stop() and finalize(): once `terminate` is set, the worker delivers what is queued, returns null and sets
 * `terminated`, for which the controller spins. The worker needs nobody for this, except that a producer that
 * holds the mutex must have released it.
 */
module AsyncQueueStopping {
  import opened Base
  import opened AsyncQueue
  import opened AsyncQueueInvariants
  import opened AsyncQueueTheorems
  import opened AsyncQueueOverload
  import opened AsyncQueueRecovery

  /** What is left for the worker to do until it has exited. */
  function ToExit(s: State): nat
  {
    var queued := if |s.delivered| <= |s.accepted| then |s.accepted| - |s.delivered| else 0;
    queued * 40 + match s.consumer
                  case OverflowTest => 36
                  case OverflowLoadWrite => 35
                  case OverflowLoadRead(w, n) => 34
                  case OverflowLoadLost => 33
                  case OverflowSubtract(loss) => 32
                  case OverflowClear(loss) => 31
                  case Dispatch(loss) => 30
                  case FirstLoadWrite => 25
                  case FirstLoadRead(w, n) => 24
                  case ClearNotified => 23
                  case LockForWait => 22
                  case WaitRelease => 21
                  case WaitReacquire => 20
                  case LoopLoadWrite => 19
                  case LoopLoadRead(w, n) => 18
                  case LoopTestTerminate => 17
                  case LeaveWait => 16
                  case EndLoadWrite => 15
                  case EndLoadRead(w, n) => 14
                  case CheckLoadWrite => 13
                  case CheckLoadRead(w) => 12
                  case LoadResult => 11
                  case ClearSlot(r) => 10
                  case BumpRead(r) => 9
                  case EndTestTerminate => 3
                  case SetTerminated => 2
                  case _ => 0
  }

  /** Pop has looked at the ring for the last time, and has found it empty. */
  predicate SawEmpty(s: State)
  {
    match s.consumer
    case EndLoadRead(w, n) => n == |s.delivered|
    case EndTestTerminate => true
    case SetTerminated => true
    case Exited => true
    case _ => false
  }

  /** The worker is there, the session is to end, and no producer holds the mutex that the worker may need. */
  predicate MayFinish(s: State)
  {
    s.q.terminate && !s.consumer.NotRunning? && !s.lock.HeldByProducer?
  }

  lemma SearchGoesOn(s: State)
    requires IndexInv(s) && ConsumerInv(s) && LockInv(s) && MayFinish(s) && Searches(s.consumer)
    ensures var s' := ConsumerStep(s);
            && !s'.lock.HeldByProducer? && ToExit(s') < ToExit(s) && s'.delivered == s.delivered
            && (SawEmpty(s) ==> SawEmpty(s')) && (SawEmpty(s') && !SawEmpty(s) ==> s.delivered == s.accepted)
  {
    match s.consumer {
      case FirstLoadRead(w, n) => MaskedDifferenceIsCount(n, |s.delivered|);
      case LoopLoadRead(w, n) => MaskedDifferenceIsCount(n, |s.delivered|);
      case EndLoadRead(w, n) => MaskedDifferenceIsCount(n, |s.delivered|);
      case _ =>
    }
  }

  lemma OtherWorkGoesOn(s: State)
    requires IndexInv(s) && ConsumerInv(s) && LockInv(s) && MayFinish(s) && !Searches(s.consumer) && !s.consumer.Exited?
    ensures var s' := ConsumerStep(s);
            && !s'.lock.HeldByProducer? && ToExit(s') < ToExit(s)
            && (SawEmpty(s) <==> SawEmpty(s')) && (SawEmpty(s) ==> s'.delivered == s.delivered)
  {}

  lemma WorkLeavesTerminate(s: State)
    ensures var s' := ConsumerStep(s);
            && s'.q.terminate == s.q.terminate && s'.accepted == s.accepted && s'.control == s.control
            && (s'.consumer.NotRunning? <==> s.consumer.NotRunning?)
  {}

  /** What the worker leaves behind: everything that was queued is delivered, unless it had already looked for the last time. */
  function DeliveredAtExit(s: State): seq<Activity>
  {
    if SawEmpty(s) then s.delivered else s.accepted
  }

  lemma WorkKeepsDelivery(s: State)
    requires IndexInv(s) && ConsumerInv(s) && LockInv(s) && MayFinish(s) && !s.consumer.Exited?
    ensures var s' := ConsumerStep(s);
            && !s'.lock.HeldByProducer? && ToExit(s') < ToExit(s) && DeliveredAtExit(s') == DeliveredAtExit(s)
  {
    WorkLeavesTerminate(s);
    if Searches(s.consumer) {
      SearchGoesOn(s);
    } else {
      OtherWorkGoesOn(s);
    }
  }

  /** The session has ended for the worker: it returned null, and says so. */
  predicate HasExited(s: State)
  {
    s.consumer == Exited && s.q.terminated
  }

  /** Left alone after stop(), the worker returns null. */
  lemma {:induction false} StopEndsTheWorker(s: State) returns (count: nat)
    requires Inv(s) && MayFinish(s)
    ensures var t := Exec(s, Work(count));
            && Inv(t) && HasExited(t) && t.control == s.control && !t.lock.HeldByProducer?
            && t.accepted == s.accepted && t.delivered == DeliveredAtExit(s)
    decreases ToExit(s)
  {
    if s.consumer.Exited? {
      count := 0;
      assert Work(0) == [];
    } else {
      var s' := Step(s, Consume);
      StepInv(s, Consume);
      WorkLeavesTerminate(s);
      WorkKeepsDelivery(s);
      var rest := StopEndsTheWorker(s');
      count := 1 + rest;
      assert Work(count) == [Consume] + Work(rest);
      ExecFirst(s, Consume, Work(rest));
    }
  }

  lemma ControlFinishes(s: State)
    requires Inv(s) && HasExited(s) && s.control == SpinTerminated
    ensures Exec(s, [Control, Control]) == s.(consumer := NotRunning, control := Stopped)
  {
    var one, two := [Control], [Control, Control];
    assert one[..0] == [] && two[..1] == one;
    assert Exec(s, one) == Step(Exec(s, one[..0]), Control);
    assert Exec(s, two) == Step(Exec(s, one), Control);
  }

  /**
   * When the controller spins and no producer holds the mutex, some steps of the worker and then two of the
   * controller end the session. Everything accepted has been delivered then, unless it was accepted after the
   * worker had looked for the last time.
   */
  lemma StopFinishes(s: State) returns (count: nat)
    requires Inv(s) && s.control == SpinTerminated && !s.lock.HeldByProducer?
    ensures var t := Exec(s, Work(count) + [Control, Control]);
            && t.control == Stopped && t.q.terminated && t.accepted == s.accepted && t.delivered == DeliveredAtExit(s)
  {
    count := StopEndsTheWorker(s);
    ControlFinishes(Exec(s, Work(count)));
    ExecAppend(s, Work(count), [Control, Control]);
  }

  /** A producer that holds the mutex releases it in a few steps of its own. */
  lemma {:induction false} HolderReleases(s: State) returns (run: seq<Action>)
    requires Inv(s)
    ensures Inv(Exec(s, run)) && !Exec(s, run).lock.HeldByProducer? && Exec(s, run).control == s.control
    decreases if s.lock.HeldByProducer? && s.lock.i < |s.producers| then StepsToUnlock(s.producers[s.lock.i]) else 0
  {
    run := [];
    if s.lock.HeldByProducer? {
      var action := Produce(s.lock.i);
      StepInv(s, action);
      HolderGoesOn(s, s.lock.i);
      var later := HolderReleases(Step(s, action));
      run := [action] + later;
      ExecFirst(s, action, later);
    }
  }

  lemma HolderGoesOn(s: State, i: nat)
    requires i < |s.producers| && s.lock == HeldByProducer(i) && InSection(s.producers[i])
    ensures var s' := ProducerStep(s, i);
            && s'.control == s.control && |s'.producers| == |s.producers|
            && (s'.lock == Free || (s'.lock == s.lock && StepsToUnlock(s'.producers[i]) < StepsToUnlock(s.producers[i])))
  {}

  /** From every reachable state in which the controller spins, some schedule ends the session. */
  lemma StopCanFinish(s: State)
    requires Inv(s) && s.control == SpinTerminated
    ensures exists run :: Exec(s, run).control == Stopped
  {
    var release := HolderReleases(s);
    var t := Exec(s, release);
    var count := StopFinishes(t);
    ExecAppend(s, release, Work(count) + [Control, Control]);
    assert Exec(s, release + (Work(count) + [Control, Control])).control == Stopped;
  }

  /** The worker never returns null, nor says that it has ended, while the queue is running. */
  lemma ExitsOnlyWhenStopping(n: nat, run: seq<Action>)
    ensures var s := Exec(Init(n), run);
            s.consumer.SetTerminated? || s.consumer.Exited? ==> s.q.terminate && (s.control == SpinTerminated || s.control == Join)
  {
    Reachable(n, run);
  }

  /** start() after stop(): the worker begins with what the ring still holds. */
  lemma StartRuns(s: State)
    requires s.control == Stopped
    ensures Exec(s, [Control, Control, Control])
         == s.(q := s.q.(terminate := false, terminated := false), consumer := FirstLoadWrite, control := Running)
  {
    var one, two, three := [Control], [Control, Control], [Control, Control, Control];
    assert one[..0] == [] && two[..1] == one && three[..2] == two;
    assert Exec(s, one) == Step(Exec(s, one[..0]), Control);
    assert Exec(s, two) == Step(Exec(s, one), Control);
    assert Exec(s, three) == Step(Exec(s, two), Control);
  }

  // ---- While the queue is running ----

  lemma OtherWorkDelivers(s: State)
    requires IndexInv(s) && ConsumerInv(s) && !s.q.terminate && !s.consumer.NotRunning? && !Searches(s.consumer)
    requires LockInv(s) && !s.lock.HeldByProducer?
    ensures var s' := ConsumerStep(s); Distance(s') < Distance(s) && !s'.lock.HeldByProducer?
  {}

  /** While the queue is running, whatever is queued is delivered as soon as the worker is left alone. */
  lemma {:induction false} WorkDelivers(s: State) returns (count: nat)
    requires Inv(s) && s.control == Running && !s.lock.HeldByProducer?
    ensures Exec(s, Work(count)).delivered == s.accepted
    decreases Distance(s)
  {
    if !NonEmpty(s) {
      count := 0;
      assert Work(0) == [];
    } else {
      var s' := Step(s, Consume);
      StepInv(s, Consume);
      WorkLeavesTerminate(s);
      if Searches(s.consumer) { SearchApproaches(s); } else { OtherWorkDelivers(s); }
      var rest := WorkDelivers(s');
      count := 1 + rest;
      assert Work(count) == [Consume] + Work(rest);
      ExecFirst(s, Consume, Work(rest));
    }
  }
}
