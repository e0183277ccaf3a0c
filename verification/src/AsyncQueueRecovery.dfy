/**
 * When an overload of the activity queue can still end: exactly as long as the queue is not trapped. And
 * when it gets trapped: exactly when the flag is raised on an empty ring that the worker is done with, while
 * no producer is left that has passed the test of the flag.
 */
module AsyncQueueRecovery {
  import opened Base
  import opened AsyncQueue
  import opened AsyncQueueInvariants
  import opened AsyncQueueTheorems
  import opened AsyncQueueOverload

  // ---- The way into the trap ----

  /** The flag is raised too late, and no producer that read it before can bring in an activity any more. */
  predicate SpringsTrap(s: State, action: Action)
  {
    RaisesTooLate(s, action) && forall j :: 0 <= j < |s.producers| ==> !MayAccept(s.producers[j])
  }

  lemma ProducerSprings(s: State, i: nat)
    requires IndexInv(s) && ProducerInv(s) && i < |s.producers|
    ensures Trapped(ProducerStep(s, i)) <==> Trapped(s) || SpringsTrap(s, Produce(i))
  {
    var s' := ProducerStep(s, i);
    assert ProducerLocal(s, s.producers[i]);
    if Trapped(s) {
      ProducerKeepsTrap(s, i);
    } else if Trapped(s') {
      EntersBySetting(s, i);
    }
  }

  /** A producer that leaves the way to its slot has stored its activity or found the ring full; either way the ring is not empty. */
  lemma EntersBySetting(s: State, i: nat)
    requires IndexInv(s) && i < |s.producers| && ProducerLocal(s, s.producers[i])
    requires !Trapped(s) && Trapped(ProducerStep(s, i))
    ensures SpringsTrap(s, Produce(i))
  {
    var s' := ProducerStep(s, i);
    assert forall j :: 0 <= j < |s.producers| && j != i ==> s'.producers[j] == s.producers[j];
    assert !MayAccept(s'.producers[i]);
    match s.producers[i] {
      case LoadRead(a, w) => MaskedDifferenceIsCount(|s.accepted|, |s.delivered|);
      case _ =>
    }
  }

  lemma ConsumerSprings(s: State)
    requires IndexInv(s) && ConsumerInv(s)
    ensures Trapped(ConsumerStep(s)) <==> Trapped(s)
  {
    if Trapped(s) {
      ConsumerKeepsTrap(s);
    } else {
      assert ConsumerStep(s).producers == s.producers;
      match s.consumer {
        case OverflowLoadRead(w, n) => MaskedDifferenceIsCount(n, |s.delivered|);
        case _ =>
      }
    }
  }

  /** The queue gets trapped in exactly one way. */
  lemma StepSprings(s: State, action: Action)
    requires Inv(s)
    ensures Trapped(Step(s, action)) <==> Trapped(s) || SpringsTrap(s, action)
  {
    match action {
      case Call(i, a) =>
        var s' := Step(s, action);
        if s' != s {
          assert !MayAccept(s.producers[i]) && !MayAccept(s'.producers[i]);
          assert forall j :: 0 <= j < |s.producers| && j != i ==> s'.producers[j] == s.producers[j];
        }
      case Produce(i) => if i < |s.producers| { ProducerSprings(s, i); }
      case Consume => ConsumerSprings(s);
      case Control =>
        var s' := Step(s, Control);
        assert s'.producers == s.producers && WillCheck(s'.consumer) == WillCheck(s.consumer);
    }
  }

  /** Step `k` of the run springs the trap. */
  predicate SpringsAt(s: State, run: seq<Action>, k: nat)
    requires k < |run|
  {
    SpringsTrap(Exec(s, run[..k]), run[k])
  }

  predicate Sprung(s: State, run: seq<Action>)
  {
    exists k :: 0 <= k < |run| && SpringsAt(s, run, k)
  }

  lemma SprungBeforeOrNow(s: State, before: seq<Action>, action: Action)
    ensures Sprung(s, before + [action]) <==> Sprung(s, before) || SpringsTrap(Exec(s, before), action)
  {
    var run, last := before + [action], |before|;
    forall k | 0 <= k < last ensures SpringsAt(s, run, k) <==> SpringsAt(s, before, k) {
      assert run[..k] == before[..k];
    }
    assert SpringsAt(s, run, last) <==> SpringsTrap(Exec(s, before), action) by {
      assert run[..last] == before;
    }
  }

  /** Over whole runs: the queue is trapped if and only if some step has sprung the trap. */
  lemma {:induction false} TrappedIffSprung(n: nat, run: seq<Action>)
    ensures Trapped(Exec(Init(n), run)) <==> Sprung(Init(n), run)
    decreases |run|
  {
    if run != [] {
      var before, action := run[..|run| - 1], run[|run| - 1];
      var s := Exec(Init(n), before);
      TrappedIffSprung(n, before);
      Reachable(n, before);
      StepSprings(s, action);
      assert run == before + [action];
      SprungBeforeOrNow(Init(n), before, action);
    }
  }

  // ---- The way out of an overload ----

  /** How far a producer is from unlocking. */
  function StepsToUnlock(pc: ProducerPc): nat
  {
    match pc
    case LoadWrite(_) => 9
    case LoadRead(_, _) => 8
    case LoadSlotIndex(_, _) => 7
    case StoreSlot(_, _, _) => 6
    case BumpWrite(_, _) => 5
    case SetOverloaded(_) => 4
    case CountLoss(_) => 3
    case ReleaseLock(_) => 2
    case _ => 0
  }

  function WaitSteps(pc: ConsumerPc): nat
  {
    match pc
    case LoopLoadWrite => 5
    case LoopLoadRead(_, _) => 4
    case LoopTestTerminate => 3
    case WaitRelease => 2
    case LeaveWait => 1
    case _ => 0
  }

  /**
   * How far the holder of the mutex is from where it must get: until no producer holds it when the worker
   * can go on by itself, else until a producer that may still accept has stored its activity.
   */
  function Turn(s: State): nat
  {
    match s.lock
    case Free => if Recoverable(s) then 0 else 20
    case HeldByConsumer => if Recoverable(s) then 0 else 20 + WaitSteps(s.consumer)
    case HeldByProducer(i) =>
      if i >= |s.producers| then 0
      else if Recoverable(s) || MayAccept(s.producers[i]) then StepsToUnlock(s.producers[i])
      else 20 + StepsToUnlock(s.producers[i])
  }

  function ControlSteps(pc: ControlPc): nat
  {
    match pc
    case SpinTerminated => 5
    case Join => 4
    case Stopped => 3
    case ClearTerminated => 2
    case Spawn => 1
    case Running => 0
  }

  /** The ring is empty, but a producer is on its way to it: one step nearer to its activity being stored. */
  lemma AcceptingApproaches(s: State) returns (action: Action)
    requires IndexInv(s) && LockInv(s) && ProducerInv(s)
    requires s.q.overloaded && !Recoverable(s) && !Trapped(s)
    ensures Recoverable(Step(s, action)) || Turn(Step(s, action)) < Turn(s)
  {
    match s.lock
    case Free =>
      var i :| 0 <= i < |s.producers| && MayAccept(s.producers[i]);
      assert s.producers[i].AcquireLock?;
      action := Produce(i);
    case HeldByConsumer =>
      action := Consume;
    case HeldByProducer(i) =>
      assert ProducerLocal(s, s.producers[i]);
      action := Produce(i);
      HolderApproaches(s, i);
  }

  lemma HolderApproaches(s: State, i: nat)
    requires IndexInv(s) && i < |s.producers| && s.lock == HeldByProducer(i) && InSection(s.producers[i])
    requires ProducerLocal(s, s.producers[i]) && s.q.overloaded && !Recoverable(s)
    ensures var s' := ProducerStep(s, i); Recoverable(s') || Turn(s') < Turn(s)
  {
    match s.producers[i] {
      case LoadRead(a, w) => MaskedDifferenceIsCount(|s.accepted|, |s.delivered|);
      case _ =>
    }
  }

  lemma UnlockApproaches(s: State, i: nat)
    requires i < |s.producers| && s.lock == HeldByProducer(i) && InSection(s.producers[i])
    requires IndexInv(s) && s.q.overloaded && Recoverable(s)
    ensures var s' := ProducerStep(s, i);
            s'.q.overloaded && Recoverable(s') && Turn(s') < Turn(s)
  {
    ProducerKeepsRecoverable(s, i);
  }

  /** The worker has ended, or has not been started: the controller gets nearer to starting it again. */
  lemma ControlApproaches(s: State)
    requires ConsumerInv(s) && ControlInv(s) && (s.consumer.NotRunning? || s.consumer.Exited?)
    requires s.q.overloaded && Recoverable(s) && !s.lock.HeldByProducer?
    ensures var s' := ControlStep(s);
            s'.q.overloaded && Recoverable(s') && Turn(s') == Turn(s) && ControlSteps(s'.control) < ControlSteps(s.control)
  {}

  lemma WorkKeepsTurn(s: State)
    requires IndexInv(s) && ConsumerInv(s) && LockInv(s) && Recoverable(s) && WorkerMayProceed(s) && s.q.overloaded
    ensures var s' := ConsumerStep(s);
            Recoverable(s') && Turn(s') == Turn(s) && s'.control == s.control && (s'.q.overloaded ==> Distance(s') < Distance(s))
  {
    ConsumerKeepsRecoverable(s);
    WorkApproaches(s);
  }

  lemma StayUntrapped(s: State, action: Action)
    requires Inv(s) && s.q.overloaded && !Trapped(s)
    ensures Inv(Step(s, action)) && !Trapped(Step(s, action))
  {
    StepInv(s, action);
    StepSprings(s, action);
  }

  lemma ExecFirst(s: State, action: Action, later: seq<Action>)
    ensures Exec(s, [action] + later) == Exec(Step(s, action), later)
  {
    var first := [action];
    assert first[..0] == [];
    assert Exec(s, first) == Step(Exec(s, first[..0]), action);
    ExecAppend(s, first, later);
  }

  /** One scheduling choice that brings the end of the overload nearer. */
  lemma EndApproaches(s: State) returns (action: Action)
    requires Inv(s) && s.q.overloaded && !Trapped(s)
    ensures Inv(Step(s, action)) && !Trapped(Step(s, action))
    ensures var s' := Step(s, action);
            || !s'.q.overloaded
            || (!Recoverable(s) && (Recoverable(s') || Turn(s') < Turn(s)))
            || (Recoverable(s) && Recoverable(s')
                && (Turn(s') < Turn(s)
                    || (Turn(s') == Turn(s) && (ControlSteps(s'.control) < ControlSteps(s.control)
                                                || (s'.control == s.control && Distance(s') < Distance(s))))))
  {
    if !Recoverable(s) {
      action := AcceptingApproaches(s);
    } else if s.lock.HeldByProducer? {
      action := Produce(s.lock.i);
      UnlockApproaches(s, s.lock.i);
    } else if WorkerMayProceed(s) {
      action := Consume;
      WorkKeepsTurn(s);
    } else {
      action := Control;
      ControlApproaches(s);
    }
    StayUntrapped(s, action);
  }

  lemma {:induction false} Escape(s: State) returns (run: seq<Action>)
    requires Inv(s) && !Trapped(s)
    ensures !Exec(s, run).q.overloaded
    decreases if Recoverable(s) then 0 else 1, Turn(s), ControlSteps(s.control), Distance(s)
  {
    if !s.q.overloaded {
      run := [];
    } else {
      var action := EndApproaches(s);
      var later: seq<Action> := [];
      if Step(s, action).q.overloaded {
        later := Escape(Step(s, action));
      }
      run := [action] + later;
      ExecFirst(s, action, later);
    }
  }

  /**
   * An overload can end, by some schedule of the threads from here on, if and only if the queue is not
   * trapped. It does not matter whether the queue is running, stopping or stopped.
   */
  lemma OverloadCanEnd(s: State)
    requires Inv(s) && s.q.overloaded
    ensures (exists run :: !Exec(s, run).q.overloaded) <==> !Trapped(s)
  {
    if Trapped(s) {
      forall run ensures Exec(s, run).q.overloaded {
        TrapIsForever(s, run);
      }
    } else {
      var run := Escape(s);
      assert !Exec(s, run).q.overloaded;
    }
  }
}
