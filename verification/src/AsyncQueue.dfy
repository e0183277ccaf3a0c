/**
 * The queue behind the asynchronous activity multiplexer
 * (src/monitoring/activity_multiplexer/ActivityMultiplexerAsync.cpp), as a transition system.
 *
 * Any number of producers run Push, one worker thread runs ActivityMultiplexerNotifier::Run
 * (Pop, checkOverflowMode, dispatch), and one controller thread runs start and stop. An action
 * performs one read or one write of shared memory; a thread that waits for the mutex, for
 * `terminated` or for the worker's end stutters. Atomics are sequentially consistent.
 *
 * `accepted`, `delivered`, `attempts` and `acceptedAtStop` are history: no step reads them. The
 * loads of `writeIndex` in the worker carry, beside the 32-bit value, the unbounded count it
 * stands for, which is history too.
 */
module AsyncQueue {
  import opened Base

  /** The identity of a shared_ptr<Activity>; the same activity may be pushed more than once. */
  type Activity = int

  const CAPACITY: int := 256

  /** `indexMask & (writeIndex - readIndex)` on uint32_t operands. */
  function MaskedDifference(writeIndex: int, readIndex: int): (size: nat)
  {
    ((writeIndex - readIndex) % WORD32) % CAPACITY
  }

  /** `indexMask & index`. */
  function Slot(index: int): (slot: nat)
    ensures slot < CAPACITY
  {
    index % CAPACITY
  }

  /** The data members of ActivityMultiplexerQueue, except its mutex. */
  datatype Shared = Shared(
    buffer: seq<Option<Activity>>,
    writeIndex: nat,
    readIndex: nat,
    overloaded: bool,
    lost: nat,
    notified: bool,
    terminate: bool,
    terminated: bool)

  datatype ProducerPc =
    | Idle
    | TestOverloaded(a: Activity)         // if( overloaded )
    | CountEarlyLoss                      //   lost++
    | AcquireLock(a: Activity)            // lock.lock()
    | LoadWrite(a: Activity)              // curSize = indexMask & ( writeIndex ...
    | LoadRead(a: Activity, w: nat)       //   ... - readIndex )
    | LoadSlotIndex(a: Activity, size: nat)   // buffer[indexMask & writeIndex] ...
    | StoreSlot(a: Activity, size: nat, slot: nat) // ... = activity
    | BumpWrite(a: Activity, size: nat)   // writeIndex++
    | SetOverloaded(size: nat)            // overloaded = true
    | CountLoss(size: nat)                // lost++
    | ReleaseLock(size: nat)              // lock.unlock()
    | TestNotified(size: nat)             // curSize > capacity/2 && !notified

  datatype ConsumerPc =
    | NotRunning
    // Pop
    | FirstLoadWrite | FirstLoadRead(w: nat, count: nat)   // if( isEmpty() )
    | ClearNotified | LockForWait
    | LoopLoadWrite | LoopLoadRead(w: nat, count: nat) | LoopTestTerminate // while( isEmpty() && !terminate )
    | WaitRelease | WaitReacquire                          // not_empty.wait_for(...)
    | LeaveWait                                            // end of the unique_lock's scope
    | EndLoadWrite | EndLoadRead(w: nat, count: nat) | EndTestTerminate    // if( isEmpty() && terminate )
    | SetTerminated
    | CheckLoadWrite | CheckLoadRead(w: nat)               // assert( !isEmpty() )
    | AssertionFailed
    | LoadResult                                           // result = buffer[indexMask & readIndex]
    | ClearSlot(result: Option<Activity>)                  // buffer[indexMask & readIndex] = NULL
    | BumpRead(result: Option<Activity>)                   // readIndex++
    // checkOverflowMode
    | OverflowTest | OverflowLoadWrite | OverflowLoadRead(w: nat, count: nat)
    | OverflowLoadLost | OverflowSubtract(loss: nat) | OverflowClear(loss: nat)
    // lostActivities += lost; dispatch
    | Dispatch(loss: nat)
    | Exited

  datatype ControlPc =
    | Stopped            // before start(), or after stop() has joined the worker
    | ClearTerminated    // terminated = false
    | Spawn              // new std::thread( Run )
    | Running            // waiting for stop()
    | SpinTerminated     // while( !terminated )
    | Join               // worker->join()

  datatype Owner = Free | HeldByProducer(i: nat) | HeldByConsumer

  datatype State = State(
    q: Shared,
    lock: Owner,
    producers: seq<ProducerPc>,
    consumer: ConsumerPc,
    control: ControlPc,
    lostActivities: nat,
    accepted: seq<Activity>,
    delivered: seq<Activity>,
    attempts: nat,
    acceptedAtStop: nat)

  datatype Action =
    | Call(i: nat, a: Activity)  // producer i enters Push(a)
    | Produce(i: nat)            // producer i takes its next step
    | Consume                    // the worker takes its next step
    | Control                    // the controller takes its next step

  /** The state the constructor leaves behind, with `n` threads that may call Push. */
  function Init(n: nat): State
  {
    State(Shared(seq(CAPACITY, i => None), 0, 0, false, 0, false, true, true),
          Free, seq(n, i => Idle), NotRunning, Stopped, 0, [], [], 0, 0)
  }

  function CallPush(s: State, i: nat, a: Activity): State
  {
    if i < |s.producers| && s.producers[i] == Idle then
      s.(producers := s.producers[i := TestOverloaded(a)], attempts := s.attempts + 1)
    else s
  }

  /** One step of Push in thread `i`. */
  function ProducerStep(s: State, i: nat): State
    requires i < |s.producers|
  {
    var q := s.q;
    match s.producers[i]
    case Idle => s
    case TestOverloaded(a) => Goto(s, i, if q.overloaded then CountEarlyLoss else AcquireLock(a))
    case CountEarlyLoss => Goto(s.(q := CountLost(q)), i, Idle)
    case AcquireLock(a) => if s.lock == Free then Goto(s.(lock := HeldByProducer(i)), i, LoadWrite(a)) else s
    case LoadWrite(a) => Goto(s, i, LoadRead(a, q.writeIndex))
    case LoadRead(a, w) =>
      var size := MaskedDifference(w, q.readIndex);
      Goto(s, i, if size < CAPACITY - 1 then LoadSlotIndex(a, size) else SetOverloaded(size))
    case LoadSlotIndex(a, size) => Goto(s, i, StoreSlot(a, size, Slot(q.writeIndex)))
    case StoreSlot(a, size, slot) => Goto(s.(q := WriteSlot(q, slot, Some(a))), i, BumpWrite(a, size))
    case BumpWrite(a, size) =>
      Goto(s.(q := q.(writeIndex := (q.writeIndex + 1) % WORD32), accepted := s.accepted + [a]), i, ReleaseLock(size))
    case SetOverloaded(size) => Goto(s.(q := q.(overloaded := true)), i, CountLoss(size))
    case CountLoss(size) => Goto(s.(q := CountLost(q)), i, ReleaseLock(size))
    case ReleaseLock(size) => Goto(s.(lock := Free), i, TestNotified(size))
    case TestNotified(size) => Goto(s, i, Idle) // notify_one only shortens a timed wait
  }

  /** One step of the worker thread. */
  function ConsumerStep(s: State): State
  {
    var q := s.q;
    match s.consumer
    case NotRunning => s
    case FirstLoadWrite => s.(consumer := FirstLoadRead(q.writeIndex, |s.accepted|))
    case FirstLoadRead(w, n) => s.(consumer := if Empty(w, q) then ClearNotified else EndLoadWrite)
    case ClearNotified => s.(q := q.(notified := false), consumer := LockForWait)
    case LockForWait => if s.lock == Free then s.(lock := HeldByConsumer, consumer := LoopLoadWrite) else s
    case LoopLoadWrite => s.(consumer := LoopLoadRead(q.writeIndex, |s.accepted|))
    case LoopLoadRead(w, n) => s.(consumer := if Empty(w, q) then LoopTestTerminate else LeaveWait)
    case LoopTestTerminate => s.(consumer := if q.terminate then LeaveWait else WaitRelease)
    case WaitRelease => s.(lock := Free, consumer := WaitReacquire)
    case WaitReacquire => if s.lock == Free then s.(lock := HeldByConsumer, consumer := LoopLoadWrite) else s
    case LeaveWait => s.(lock := Free, consumer := EndLoadWrite)
    case EndLoadWrite => s.(consumer := EndLoadRead(q.writeIndex, |s.accepted|))
    case EndLoadRead(w, n) => s.(consumer := if Empty(w, q) then EndTestTerminate else CheckLoadWrite)
    case EndTestTerminate => s.(consumer := if q.terminate then SetTerminated else CheckLoadWrite)
    case SetTerminated => s.(q := q.(terminated := true), consumer := Exited)
    case CheckLoadWrite => s.(consumer := CheckLoadRead(q.writeIndex))
    case CheckLoadRead(w) => s.(consumer := if Empty(w, q) then AssertionFailed else LoadResult)
    case AssertionFailed => s
    case LoadResult => s.(consumer := ClearSlot(ReadSlot(q, Slot(q.readIndex))))
    case ClearSlot(r) => s.(q := WriteSlot(q, Slot(q.readIndex), None), consumer := BumpRead(r))
    case BumpRead(r) =>
      s.(q := q.(readIndex := (q.readIndex + 1) % WORD32), consumer := if r.Some? then OverflowTest else Exited,
         delivered := if r.Some? then s.delivered + [r.value] else s.delivered)
    case OverflowTest => s.(consumer := if q.overloaded then OverflowLoadWrite else Dispatch(0))
    case OverflowLoadWrite => s.(consumer := OverflowLoadRead(q.writeIndex, |s.accepted|))
    case OverflowLoadRead(w, n) => s.(consumer := if Empty(w, q) then OverflowLoadLost else Dispatch(0))
    case OverflowLoadLost => s.(consumer := OverflowSubtract(q.lost))
    case OverflowSubtract(loss) => s.(q := q.(lost := (q.lost - loss) % WORD64), consumer := OverflowClear(loss))
    case OverflowClear(loss) => s.(q := q.(overloaded := false), consumer := Dispatch(loss))
    case Dispatch(loss) => s.(lostActivities := s.lostActivities + loss, consumer := FirstLoadWrite)
    case Exited => s
  }

  /** One step of the controller, which alternates start() and stop(). */
  function ControlStep(s: State): State
  {
    var q := s.q;
    match s.control
    case Stopped => s.(q := q.(terminate := false), control := ClearTerminated)
    case ClearTerminated => s.(q := q.(terminated := false), control := Spawn)
    case Spawn => s.(consumer := FirstLoadWrite, control := Running)
    case Running => s.(q := q.(terminate := true), acceptedAtStop := |s.accepted|, control := SpinTerminated)
    case SpinTerminated => if q.terminated then s.(control := Join) else s
    case Join => if s.consumer == Exited then s.(consumer := NotRunning, control := Stopped) else s
  }

  function Step(s: State, action: Action): State
  {
    match action
    case Call(i, a) => CallPush(s, i, a)
    case Produce(i) => if i < |s.producers| then ProducerStep(s, i) else s
    case Consume => ConsumerStep(s)
    case Control => ControlStep(s)
  }

  /** The state after a run, that is, after any sequence of scheduling choices. */
  function Exec(s: State, run: seq<Action>): State
    decreases |run|
  {
    if run == [] then s else Step(Exec(s, run[..|run| - 1]), run[|run| - 1])
  }

  // The pieces of a step.

  function Goto(s: State, i: nat, pc: ProducerPc): State
    requires i < |s.producers|
  {
    s.(producers := s.producers[i := pc])
  }

  function CountLost(q: Shared): Shared
  {
    q.(lost := (q.lost + 1) % WORD64)
  }

  /** isEmpty(), with `w` the value of writeIndex it has loaded. */
  predicate Empty(w: nat, q: Shared)
  {
    MaskedDifference(w, q.readIndex) == 0
  }

  function ReadSlot(q: Shared, slot: nat): Option<Activity>
  {
    if slot < |q.buffer| then q.buffer[slot] else None
  }

  function WriteSlot(q: Shared, slot: nat, value: Option<Activity>): Shared
  {
    if slot < |q.buffer| then q.(buffer := q.buffer[slot := value]) else q
  }
}
