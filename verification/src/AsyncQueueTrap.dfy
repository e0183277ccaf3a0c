/** One producer and one worker suffice to raise the overload flag too late. */
module AsyncQueueTrap {
  import opened Base
  import opened AsyncQueue
  import opened AsyncQueueInvariants
  import opened AsyncQueueTheorems
  import opened AsyncQueueOverload
  import opened AsyncQueueSequential

  const SOME_ACTIVITY: Activity := 1

  /** Started, calm, and nothing taken out yet. */
  predicate Filled(s: State, count: nat)
  {
    && s.producers == [Idle] && s.lock == Free && !s.q.overloaded
    && s.consumer == FirstLoadWrite && s.control == Running
    && |s.accepted| == count && s.delivered == []
  }

  lemma Start() returns (run: seq<Action>)
    ensures Filled(Exec(Init(1), run), 0)
  {
    var s0 := Init(1);
    assert s0.producers == [Idle];
    run := [Control, Control, Control];
    assert run[..2] == [Control, Control] && run[..2][..1] == [Control] && run[..2][..1][..0] == [];
    var s1 := Step(s0, Control);
    assert Exec(s0, [Control]) == s1;
    var s2 := Step(s1, Control);
    assert Exec(s0, [Control, Control]) == s2;
  }

  lemma {:induction false} Fill(count: nat) returns (run: seq<Action>)
    requires count < CAPACITY
    ensures Filled(Exec(Init(1), run), count)
  {
    if count == 0 {
      run := Start();
    } else {
      var before := Fill(count - 1);
      var s := Exec(Init(1), before);
      Reachable(1, before);
      MaskedDifferenceIsCount(|s.accepted|, |s.delivered|);
      var push := SoloPush(s, 0, SOME_ACTIVITY);
      run := before + push;
      ExecAppend(Init(1), before, push);
    }
  }

  /** The producer has found the ring full and is about to raise the flag. */
  predicate AboutToRaise(s: State, queued: nat)
  {
    && s.producers == [SetOverloaded(CAPACITY - 1)] && !s.q.overloaded
    && s.consumer == FirstLoadWrite && s.control == Running
    && |s.accepted| == |s.delivered| + queued
  }

  lemma FilledIsFull(s: State)
    requires Inv(s) && Filled(s, CAPACITY - 1)
    ensures Size(s.q) == CAPACITY - 1 && !Accepts(s.q)
    ensures AboutToRaise(Goto(s.(attempts := s.attempts + 1, lock := HeldByProducer(0)), 0, SetOverloaded(Size(s.q))), CAPACITY - 1)
  {
    MaskedDifferenceIsCount(|s.accepted|, |s.delivered|);
  }

  lemma FindFull() returns (run: seq<Action>)
    ensures AboutToRaise(Exec(Init(1), run), CAPACITY - 1)
  {
    var init := Init(1);
    var before := Fill(CAPACITY - 1);
    var s := Exec(init, before);
    Reachable(1, before);
    FilledIsFull(s);
    var call := SoloFindsFull(s, 0, SOME_ACTIVITY);
    ExecAppend(init, before, call);
    run := before + call;
  }

  lemma {:induction false} Drain(before: seq<Action>, queued: nat) returns (run: seq<Action>)
    requires AboutToRaise(Exec(Init(1), before), queued)
    ensures AboutToRaise(Exec(Init(1), run), 0)
    decreases queued
  {
    run := before;
    if queued > 0 {
      var s := Exec(Init(1), before);
      var next := s.accepted[|s.delivered|];
      Reachable(1, before);
      MaskedDifferenceIsCount(|s.accepted|, |s.delivered|);
      NextIndex(|s.delivered|);
      assert s.q.buffer[Slot(|s.delivered|)] == Some(next);
      var count := SoloPop(s, next);
      ExecAppend(Init(1), before, Work(count));
      run := Drain(before + Work(count), queued - 1);
    }
  }

  /**
   * The overload mode can fail to end: in this run a single producer raises the flag after the
   * worker has emptied the ring.
   */
  lemma TrapIsReachable()
    ensures exists run :: Trapped(Exec(Init(1), run)) && Exec(Init(1), run).control == Running
  {
    var before := FindFull();
    before := Drain(before, CAPACITY - 1);
    var run := before + [Produce(0)];
    assert run[..|before|] == before;
    Reachable(1, before);
    assert Trapped(Exec(Init(1), run)) && Exec(Init(1), run).control == Running;
  }
}
