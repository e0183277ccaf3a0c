/** What the invariants of the activity queue mean for its users, over whole runs. */
module AsyncQueueTheorems {
  import opened Base
  import opened AsyncQueue
  import opened AsyncQueueInvariants

  // ---- Refinement of a bounded FIFO queue ----

  /** What a user sees: Push accepts an activity, Pop hands one out. */
  datatype Event = Accept(a: Activity) | Deliver(a: Activity)

  /** The specification: a FIFO queue of capacity 255. None if the events are none of its histories. */
  function Replay(events: seq<Event>): Option<seq<Activity>>
    decreases |events|
  {
    if events == [] then Some([])
    else match Replay(events[..|events| - 1])
      case None => None
      case Some(queue) =>
        match events[|events| - 1]
        case Accept(a) => if |queue| < CAPACITY - 1 then Some(queue + [a]) else None
        case Deliver(a) => if queue != [] && queue[0] == a then Some(queue[1..]) else None
  }

  function EventOf(s: State, action: Action): Option<Event>
  {
    match action
    case Produce(i) => if i < |s.producers| && s.producers[i].BumpWrite? then Some(Accept(s.producers[i].a)) else None
    case Consume => if s.consumer.BumpRead? && s.consumer.result.Some? then Some(Deliver(s.consumer.result.value)) else None
    case _ => None
  }

  function Events(s: State, run: seq<Action>): seq<Event>
    decreases |run|
  {
    if run == [] then []
    else
      var events := Events(s, run[..|run| - 1]);
      match EventOf(Exec(s, run[..|run| - 1]), run[|run| - 1])
      case None => events
      case Some(event) => events + [event]
  }

  function Contents(s: State): seq<Activity>
  {
    if |s.delivered| <= |s.accepted| then s.accepted[|s.delivered|..] else []
  }

  /** `event` is what turns the queue `before` into the queue `after`. */
  predicate Explains(event: Option<Event>, before: seq<Activity>, after: seq<Activity>)
  {
    match event
    case None => after == before
    case Some(Accept(a)) => |before| < CAPACITY - 1 && after == before + [a]
    case Some(Deliver(a)) => before != [] && a == before[0] && after == before[1..]
  }

  lemma ProducerRefines(s: State, i: nat)
    requires IndexInv(s) && i < |s.producers| && ProducerLocal(s, s.producers[i])
    ensures Explains(EventOf(s, Produce(i)), Contents(s), Contents(ProducerStep(s, i)))
  {
    match s.producers[i] { case BumpWrite(a, size) => case _ => }
  }

  lemma ConsumerRefines(s: State)
    requires IndexInv(s) && ConsumerInv(s)
    ensures Explains(EventOf(s, Consume), Contents(s), Contents(ConsumerStep(s)))
  {
    match s.consumer { case BumpRead(r) => case _ => }
  }

  /** A step changes the contents exactly as its event, if it has one, says. */
  lemma StepRefines(s: State, action: Action)
    requires IndexInv(s) && ProducerInv(s) && ConsumerInv(s)
    ensures Explains(EventOf(s, action), Contents(s), Contents(Step(s, action)))
  {
    match action {
      case Produce(i) =>
        if i < |s.producers| {
          assert ProducerLocal(s, s.producers[i]);
          ProducerRefines(s, i);
        }
      case Consume => ConsumerRefines(s);
      case _ =>
    }
  }

  /** Every run is a history of the FIFO queue, and the ring then holds what that queue holds. */
  lemma {:induction false} RefinesFifo(n: nat, run: seq<Action>)
    ensures Replay(Events(Init(n), run)) == Some(Contents(Exec(Init(n), run)))
    decreases |run|
  {
    if run != [] {
      var before, action := run[..|run| - 1], run[|run| - 1];
      var s, events := Exec(Init(n), before), Events(Init(n), before);
      RefinesFifo(n, before);
      Reachable(n, before);
      StepRefines(s, action);
      var event := EventOf(s, action);
      if event.Some? {
        assert (events + [event.value])[..|events|] == events;
      }
    }
  }

  // ---- Mutual exclusion on slots and indices ----

  /**
   * The slot Push is about to write is not the one Pop is reading or clearing, and at most one
   * producer is writing at all.
   */
  lemma SlotsAreExclusive(n: nat, run: seq<Action>, i: nat, j: nat)
    requires var s := Exec(Init(n), run); i < |s.producers| && j < |s.producers|
    ensures var s := Exec(Init(n), run);
            && (s.producers[i].StoreSlot? && (s.consumer.LoadResult? || s.consumer.ClearSlot?) ==>
                  s.producers[i].slot != Slot(s.q.readIndex))
            && (InSection(s.producers[i]) && InSection(s.producers[j]) ==> i == j)
  {
    var s := Exec(Init(n), run);
    Reachable(n, run);
    assert ProducerLocal(s, s.producers[i]);
    NextIndex(|s.delivered|);
    if s.producers[i].StoreSlot? && (s.consumer.LoadResult? || s.consumer.ClearSlot?) {
      SlotsDiffer(|s.delivered|, |s.accepted|);
    }
  }

  /**
   * The wrapped indices always tell the length; the length a producer computed stays an upper
   * bound although Pop may move readIndex behind its back; and a push is refused only when the
   * ring was full at the moment the producer read readIndex.
   */
  lemma SizesAreRight(n: nat, run: seq<Action>, i: nat)
    requires i < |Exec(Init(n), run).producers|
    ensures var s := Exec(Init(n), run);
            && MaskedDifference(s.q.writeIndex, s.q.readIndex) == |Contents(s)| <= CAPACITY - 1
            && match s.producers[i]
               case LoadRead(a, w) =>
                 && MaskedDifference(w, s.q.readIndex) == |Contents(s)|
                 && (Step(s, Produce(i)).producers[i].SetOverloaded? <==> |Contents(s)| == CAPACITY - 1)
               case LoadSlotIndex(a, size) => |Contents(s)| <= size < CAPACITY - 1
               case StoreSlot(a, size, slot) => |Contents(s)| <= size < CAPACITY - 1
               case BumpWrite(a, size) => |Contents(s)| <= size < CAPACITY - 1
               case _ => true
  {
    var s := Exec(Init(n), run);
    Reachable(n, run);
    assert ProducerLocal(s, s.producers[i]);
    MaskedDifferenceIsCount(|s.accepted|, |s.delivered|);
  }

  /** assert( !isEmpty() ) in Pop never fires. */
  lemma PopAssertionHolds(n: nat, run: seq<Action>)
    ensures Exec(Init(n), run).consumer != AssertionFailed
  {
    Reachable(n, run);
  }

  // ---- Shutting down ----

  lemma StepOnlyGrows(s: State, action: Action)
    requires s.acceptedAtStop <= |s.accepted|
    ensures var s' := Step(s, action);
            s.accepted <= s'.accepted && s.delivered <= s'.delivered && s.acceptedAtStop <= s'.acceptedAtStop
  {
    match action {
      case Produce(i) => if i < |s.producers| { match s.producers[i] { case BumpWrite(a, size) => case _ => } }
      case Consume => match s.consumer { case BumpRead(r) => case _ => }
      case _ =>
    }
  }

  lemma {:induction false} OnlyGrows(s: State, run: seq<Action>)
    requires Inv(s)
    ensures var s' := Exec(s, run);
            && Inv(s') && s.accepted <= s'.accepted && s.delivered <= s'.delivered
            && s.acceptedAtStop <= s'.acceptedAtStop
    decreases |run|
  {
    if run != [] {
      OnlyGrows(s, run[..|run| - 1]);
      StepInv(Exec(s, run[..|run| - 1]), run[|run| - 1]);
      StepOnlyGrows(Exec(s, run[..|run| - 1]), run[|run| - 1]);
    }
  }

  lemma {:induction false} ExecAppend(s: State, first: seq<Action>, second: seq<Action>)
    ensures Exec(s, first + second) == Exec(Exec(s, first), second)
    decreases |second|
  {
    if second == [] {
      assert first + second == first;
    } else {
      var init := second[..|second| - 1];
      assert (first + second)[..|first + second| - 1] == first + init;
      ExecAppend(s, first, init);
    }
  }

  lemma StopIsDrained(s: State, stopped: State, after: seq<Action>)
    requires Inv(s) && s.control == Running && stopped == ControlStep(s)
    requires var c := Exec(stopped, after).consumer; c.SetTerminated? || c.Exited?
    ensures s.accepted <= Exec(stopped, after).delivered
  {
    StepInv(s, Control);
    OnlyGrows(stopped, after);
    var end := Exec(stopped, after);
    assert ConsumerInv(end) && Drained(end, |end.delivered|);
  }

  /**
   * When Pop returns null, everything accepted before stop() set `terminate` has been handed out,
   * in order: the accepted activities of that moment are a prefix of the delivered ones.
   */
  lemma NullMeansDrained(n: nat, before: seq<Action>, after: seq<Action>)
    requires Exec(Init(n), before).control == Running
    requires var c := Exec(Init(n), before + [Control] + after).consumer; c.SetTerminated? || c.Exited?
    ensures Exec(Init(n), before).accepted <= Exec(Init(n), before + [Control] + after).delivered
  {
    var s, stop := Exec(Init(n), before), before + [Control];
    Reachable(n, before);
    ExecAppend(Init(n), stop, after);
    assert stop[..|before|] == before;
    StopIsDrained(s, Exec(Init(n), stop), after);
  }

  // ---- Losses ----

  /**
   * Every call of Push is accounted for exactly once: delivered, queued, counted in `lost`,
   * already reported by checkOverflowMode, or still undecided. `lost` is a 64-bit counter.
   */
  predicate Accounted(s: State)
  {
    && (s.attempts - |s.delivered| - |Contents(s)| - Reported(s) - InFlight(s.producers)) % WORD64 == s.q.lost
    && (s.attempts < WORD64 ==>
          s.attempts == |s.delivered| + |Contents(s)| + s.q.lost + Reported(s) + InFlight(s.producers))
  }

  lemma AccountingBalances(s: State)
    requires |s.delivered| <= |s.accepted| && LossInv(s)
    ensures Accounted(s)
  {
    assert |s.delivered| + |Contents(s)| == |s.accepted|;
    assert Unreported(s) == s.attempts - |s.delivered| - |Contents(s)| - Reported(s) - InFlight(s.producers);
    assert 0 <= Unreported(s) <= s.attempts;
  }

  lemma LossesAreConserved(n: nat, run: seq<Action>)
    ensures Accounted(Exec(Init(n), run))
  {
    Reachable(n, run);
    AccountingBalances(Exec(Init(n), run));
  }
}
