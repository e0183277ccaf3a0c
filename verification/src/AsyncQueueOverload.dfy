/**
 * The overload mode of the activity queue.
 *
 * Push sets `overloaded` in a step of its own, after it found the ring full. The worker clears the
 * flag after a Pop that leaves the ring empty. If the worker drains the whole ring between the two,
 * no Pop is left that could clear the flag. Only a producer that had read the flag before can still
 * bring in an activity; without one the queue refuses every later activity.
 */
module AsyncQueueOverload {
  import opened Base
  import opened AsyncQueue
  import opened AsyncQueueInvariants
  import opened AsyncQueueTheorems

  /** The worker is on its way through checkOverflowMode and may still clear the flag. */
  predicate WillCheck(pc: ConsumerPc)
  {
    pc.OverflowTest? || pc.OverflowLoadWrite? || pc.OverflowLoadRead? || pc.OverflowLoadLost?
    || pc.OverflowSubtract? || pc.OverflowClear?
  }

  /** If the queue is overloaded, then the worker by itself can end it: a Pop or a check is still to come. */
  predicate Recoverable(s: State)
  {
    s.q.overloaded ==> NonEmpty(s) || WillCheck(s.consumer)
  }

  /** The guard of the step that goes wrong: the flag is raised on a ring the worker is done with. */
  predicate RaisesTooLate(s: State, action: Action)
  {
    && action.Produce? && action.i < |s.producers| && s.producers[action.i].SetOverloaded?
    && !NonEmpty(s) && !WillCheck(s.consumer)
  }

  lemma ConsumerKeepsRecoverable(s: State)
    requires IndexInv(s) && ConsumerInv(s) && Recoverable(s)
    ensures Recoverable(ConsumerStep(s))
  {
    match s.consumer {
      case OverflowLoadRead(w, n) => MaskedDifferenceIsCount(n, |s.delivered|);
      case _ =>
    }
  }

  lemma ProducerKeepsRecoverable(s: State, i: nat)
    requires i < |s.producers| && IndexInv(s) && Recoverable(s)
    ensures Recoverable(ProducerStep(s, i)) <==> !RaisesTooLate(s, Produce(i))
  {
    match s.producers[i] {
      case SetOverloaded(size) =>
      case BumpWrite(a, size) =>
      case _ =>
    }
  }

  /** This is lost in exactly one way, although a producer that is on its way may yet restore it. */
  lemma RecoverableUnlessTooLate(s: State, action: Action)
    requires Inv(s) && Recoverable(s)
    ensures Recoverable(Step(s, action)) <==> !RaisesTooLate(s, action)
  {
    match action {
      case Produce(i) => if i < |s.producers| { ProducerKeepsRecoverable(s, i); }
      case Consume => ConsumerKeepsRecoverable(s);
      case _ =>
    }
  }

  /** `run` never raises the flag too late. */
  predicate Timely(s: State, run: seq<Action>)
  {
    forall k :: 0 <= k < |run| ==> !RaisesTooLate(Exec(s, run[..k]), run[k])
  }

  lemma {:induction false} TimelyRunsRecover(n: nat, run: seq<Action>)
    requires Timely(Init(n), run)
    ensures Recoverable(Exec(Init(n), run))
    decreases |run|
  {
    if run != [] {
      var before := run[..|run| - 1];
      forall k | 0 <= k < |before| ensures !RaisesTooLate(Exec(Init(n), before[..k]), before[k]) {
        assert before[..k] == run[..k];
      }
      TimelyRunsRecover(n, before);
      Reachable(n, before);
      RecoverableUnlessTooLate(Exec(Init(n), before), run[|run| - 1]);
    }
  }

  // ---- A recoverable overload ends ----

  function Work(count: nat): (run: seq<Action>)
    ensures |run| == count
  {
    seq(count, i => Consume)
  }

  /** How far the worker is from clearing the flag. */
  function Distance(s: State): nat
  {
    var queued := if |s.delivered| <= |s.accepted| then |s.accepted| - |s.delivered| else 0;
    queued * 40 + match s.consumer
                  case OverflowTest => 36
                  case OverflowLoadWrite => 35
                  case OverflowLoadRead(w, n) => 34
                  case OverflowLoadLost => 33
                  case OverflowSubtract(loss) => 32
                  case OverflowClear(loss) => 31
                  case Dispatch(loss) => 26
                  case FirstLoadWrite => 25
                  case FirstLoadRead(w, n) => 24
                  case ClearNotified => 23
                  case LockForWait => 22
                  case LoopLoadRead(w, n) => if n == |s.delivered| then 21 else 16
                  case LoopTestTerminate => 20
                  case WaitRelease => 19
                  case WaitReacquire => 18
                  case LoopLoadWrite => 17
                  case LeaveWait => 15
                  case EndLoadWrite => 14
                  case EndLoadRead(w, n) => 13
                  case CheckLoadWrite => 12
                  case CheckLoadRead(w) => 11
                  case LoadResult => 10
                  case ClearSlot(r) => 9
                  case BumpRead(r) => 8
                  case EndTestTerminate => 3
                  case SetTerminated => 2
                  case Exited => 1
                  case _ => 0
  }

  /** The worker thread exists, and no producer holds the mutex it may need. */
  predicate WorkerMayProceed(s: State)
  {
    !s.consumer.NotRunning? && !s.consumer.Exited? && !s.lock.HeldByProducer?
  }

  /** Pop is looking for an activity, or for the end of the session. */
  predicate Searches(pc: ConsumerPc)
  {
    pc.FirstLoadWrite? || pc.FirstLoadRead? || pc.ClearNotified? || pc.LockForWait? || pc.LoopLoadWrite? || pc.LoopLoadRead?
    || pc.LoopTestTerminate? || pc.WaitRelease? || pc.WaitReacquire? || pc.LeaveWait? || pc.EndLoadWrite? || pc.EndLoadRead?
  }

  lemma SearchApproaches(s: State)
    requires IndexInv(s) && ConsumerInv(s) && LockInv(s)
    requires Searches(s.consumer) && !s.lock.HeldByProducer? && NonEmpty(s)
    ensures var s' := ConsumerStep(s); !s'.lock.HeldByProducer? && Distance(s') < Distance(s)
  {
    match s.consumer {
      case FirstLoadRead(w, n) => MaskedDifferenceIsCount(n, |s.delivered|);
      case LoopLoadRead(w, n) => MaskedDifferenceIsCount(n, |s.delivered|);
      case EndLoadRead(w, n) => MaskedDifferenceIsCount(n, |s.delivered|);
      case _ =>
    }
  }

  lemma WorkApproaches(s: State)
    requires IndexInv(s) && ConsumerInv(s) && LockInv(s)
    requires s.q.overloaded && Recoverable(s) && WorkerMayProceed(s)
    ensures var s' := ConsumerStep(s);
            !s'.lock.HeldByProducer? && (s'.q.overloaded ==> Distance(s') < Distance(s))
  {
    if Searches(s.consumer) && NonEmpty(s) {
      SearchApproaches(s);
    } else {
      match s.consumer {
        case OverflowLoadRead(w, n) => MaskedDifferenceIsCount(n, |s.delivered|);
        case _ =>
      }
    }
  }

  /** While the overload is recoverable, the worker ends it by working on its own. */
  lemma {:induction false} OverloadEnds(s: State)
    requires Inv(s) && Recoverable(s) && s.control == Running && !s.lock.HeldByProducer?
    ensures exists count :: !Exec(s, Work(count)).q.overloaded
    decreases Distance(s)
  {
    if !s.q.overloaded {
      assert !Exec(s, Work(0)).q.overloaded;
    } else {
      var s' := Step(s, Consume);
      WorkApproaches(s);
      StepInv(s, Consume);
      ConsumerKeepsRecoverable(s);
      var rest: nat := 0;
      if s'.q.overloaded {
        OverloadEnds(s');
        rest :| !Exec(s', Work(rest)).q.overloaded;
      }
      assert Work(1)[..0] == [] && Exec(s, Work(1)) == s';
      assert Work(1 + rest) == Work(1) + Work(rest);
      ExecAppend(s, Work(1), Work(rest));
      assert !Exec(s, Work(1 + rest)).q.overloaded;
    }
  }

  // ---- A trapped queue stays trapped ----

  /** This call of Push has passed the test of `overloaded` and may still store its activity. */
  predicate MayAccept(pc: ProducerPc)
  {
    pc.AcquireLock? || pc.LoadWrite? || pc.LoadRead? || pc.LoadSlotIndex? || pc.StoreSlot? || pc.BumpWrite?
  }

  predicate Trapped(s: State)
  {
    && s.q.overloaded && !NonEmpty(s) && !WillCheck(s.consumer)
    && forall i :: 0 <= i < |s.producers| ==> !MayAccept(s.producers[i])
  }

  lemma ProducerKeepsTrap(s: State, i: nat)
    requires i < |s.producers| && Trapped(s)
    ensures var s' := ProducerStep(s, i);
            Trapped(s') && s'.accepted == s.accepted && s'.delivered == s.delivered
  {
    assert !MayAccept(s.producers[i]);
  }

  lemma ConsumerKeepsTrap(s: State)
    requires IndexInv(s) && ConsumerInv(s) && Trapped(s)
    ensures var s' := ConsumerStep(s);
            Trapped(s') && s'.accepted == s.accepted && s'.delivered == s.delivered
  {
    var s' := ConsumerStep(s);
    assert s'.producers == s.producers;
  }

  lemma TrapHolds(s: State, action: Action)
    requires IndexInv(s) && ConsumerInv(s) && Trapped(s)
    ensures var s' := Step(s, action);
            Trapped(s') && s'.accepted == s.accepted && s'.delivered == s.delivered
  {
    match action {
      case Produce(i) => if i < |s.producers| { ProducerKeepsTrap(s, i); }
      case Consume => ConsumerKeepsTrap(s);
      case _ =>
    }
  }

  /**
   * Whatever the threads do afterwards, including stop() and start(), the queue stays overloaded
   * and accepts and delivers nothing more: every later call of Push ends up in `lost`.
   */
  lemma {:induction false} TrapIsForever(s: State, run: seq<Action>)
    requires Inv(s) && Trapped(s)
    ensures var s' := Exec(s, run);
            && Inv(s') && Trapped(s') && s'.accepted == s.accepted && s'.delivered == s.delivered
            && Unreported(s') + InFlight(s'.producers) + Reported(s')
               == Unreported(s) + InFlight(s.producers) + Reported(s) + (s'.attempts - s.attempts)
    decreases |run|
  {
    if run != [] {
      var before := Exec(s, run[..|run| - 1]);
      TrapIsForever(s, run[..|run| - 1]);
      StepInv(before, run[|run| - 1]);
      TrapHolds(before, run[|run| - 1]);
    }
  }
}
