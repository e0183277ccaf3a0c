/**
 * SingleThreadedJobProcessor (src/util/JobProcessors/SingleThreadedJobProcessor.cpp) on a bounded FIFO
 * queue, as a transition system: the calls of any number of threads, each of them one section under the
 * mutex, interleaved with the steps of the worker thread.
 */
module JobProcessor {
  import opened JobQueues

  datatype Status = Operational | ShuttingDown | Stopping

  /** Where the worker thread is in process(). */
  datatype Worker =
    | NoThread
    | AtStatus                 // about to read the status, without the lock
    | AtQueue                  // about to look at the queue, with the lock
    | Asleep(notified: bool)   // waiting for the condition variable
    | Processing(job: Job)
    | Returned

  /** The last four fields record what happened to each job. */
  datatype State = State(
    queue: seq<Job>, currentJobs: int, status: Status, worker: Worker,
    submitted: seq<Job>, processed: seq<Job>, aborted: seq<Job>, cancelled: seq<Job>)

  datatype Action =
    | StartJob(job: Job)
    | CancelJob(job: Job)
    | StartProcessing
    | StopProcessing
    | Shutdown(terminate: bool)
    | Join                     // the end of shutdown: the worker has returned
    | Work                     // a step of the worker
    | WakeUp                   // a spurious wake-up

  const INIT: State := State([], 0, Operational, NoThread, [], [], [], [])

  function WorkerStep(s: State): State
  {
    match s.worker
    case AtStatus => s.(worker := if s.status == Stopping then Returned else AtQueue)
    case AtQueue =>
      if s.currentJobs == 0 then s.(worker := if s.status == ShuttingDown then Returned else Asleep(false))
      else if s.queue == [] then s     // the assert in pollNextJob
      else s.(queue := s.queue[1..], currentJobs := s.currentJobs - 1, worker := Processing(s.queue[0]))
    case Asleep(notified) => if notified then s.(worker := AtQueue) else s
    case Processing(job) => s.(processed := s.processed + [job], worker := AtStatus)
    case _ => s
  }

  /** notify_one: only the worker waits for the condition variable. */
  function Notify(s: State): State
  {
    if s.worker.Asleep? then s.(worker := Asleep(true)) else s
  }

  function Append(s: State, job: Job): State
  {
    s.(queue := s.queue + [job], currentJobs := s.currentJobs + 1, submitted := s.submitted + [job])
  }

  function AbortPending(s: State): State
  {
    s.(queue := [], currentJobs := 0, aborted := s.aborted + s.queue)
  }

  function Step(max: int, s: State, action: Action): State
  {
    match action
    case StartJob(job) =>
      if s.currentJobs < max then
        if s.status == Operational then Notify(Append(s, job)) else Append(s, job)
      else s.(aborted := s.aborted + [job], submitted := s.submitted + [job])
    case CancelJob(job) =>
      if job in s.queue then
        s.(queue := Without(s.queue, {job}), currentJobs := s.currentJobs - 1, cancelled := s.cancelled + [job])
      else s
    case StartProcessing =>   // it notifies too, but there is nobody yet
      if s.worker.NoThread? then s.(status := Operational, worker := AtStatus) else s
    case StopProcessing => Notify(s.(status := Stopping))
    case Shutdown(terminate) =>
      Notify((if terminate then AbortPending(s) else s).(status := ShuttingDown))
    case Join => if s.worker.Returned? then s.(worker := NoThread) else s
    case Work => WorkerStep(s)
    case WakeUp => Notify(s)
  }

  function Exec(max: int, s: State, run: seq<Action>): State
    decreases |run|
  {
    if run == [] then s else Step(max, Exec(max, s, run[..|run| - 1]), run[|run| - 1])
  }

  /** No job is submitted twice. */
  predicate DistinctJobs(run: seq<Action>)
  {
    forall i, j :: 0 <= i < j < |run| && run[i].StartJob? && run[j].StartJob? ==> run[i].job != run[j].job
  }

  // ---- Conservation and order ----

  predicate Distinct(jobs: seq<Job>)
  {
    forall i, j :: 0 <= i < j < |jobs| ==> jobs[i] != jobs[j]
  }

  function Running(s: State): seq<Job>
  {
    if s.worker.Processing? then [s.worker.job] else []
  }

  function Dropped(s: State): set<Job>
  {
    (set j | j in s.aborted) + (set j | j in s.cancelled)
  }

  /** The counter is the queue's length, and within its bound. */
  predicate CounterInv(max: int, s: State)
  {
    s.currentJobs == |s.queue| && (s.queue != [] ==> |s.queue| <= max)
  }

  /**
   * Processed, running and pending jobs in a row are exactly those that were neither aborted nor
   * cancelled, in the order of submission.
   */
  ghost predicate OrderInv(s: State)
  {
    s.processed + Running(s) + s.queue == Without(s.submitted, Dropped(s))
  }

  /** Every job is in exactly one place. */
  ghost predicate ConservationInv(s: State)
  {
    multiset(s.submitted)
    == multiset(s.processed) + multiset(Running(s)) + multiset(s.queue) + multiset(s.aborted) + multiset(s.cancelled)
  }

  ghost predicate Inv(max: int, s: State)
  {
    CounterInv(max, s) && Distinct(s.submitted) && OrderInv(s) && ConservationInv(s)
  }

  lemma {:induction false} WithoutAppend(a: seq<Job>, b: seq<Job>, dropped: set<Job>)
    ensures Without(a + b, dropped) == Without(a, dropped) + Without(b, dropped)
  {
    if a == [] {
      assert a + b == b;
    } else {
      assert (a + b)[1..] == a[1..] + b;
      WithoutAppend(a[1..], b, dropped);
    }
  }

  lemma {:induction false} WithoutTwice(a: seq<Job>, d: set<Job>, e: set<Job>)
    ensures Without(Without(a, d), e) == Without(a, d + e)
  {
    if a != [] {
      WithoutTwice(a[1..], d, e);
      var first := if a[0] in d then [] else [a[0]];
      WithoutAppend(first, Without(a[1..], d), e);
    }
  }

  lemma {:induction false} WithoutNone(a: seq<Job>, d: set<Job>)
    requires forall j :: j in a ==> j !in d
    ensures Without(a, d) == a
  {
    if a != [] {
      var first, rest := a[0], a[1..];
      assert first in a && a == [first] + rest && forall j :: j in rest ==> j in a;
      WithoutNone(rest, d);
      assert first !in d;
      assert Without(a, d) == [first] + Without(rest, d);
    }
  }

  lemma {:induction false} WithoutAll(a: seq<Job>, d: set<Job>)
    requires forall j :: j in a ==> j in d
    ensures Without(a, d) == []
  {
    if a != [] {
      var first, rest := a[0], a[1..];
      assert first in a && forall j :: j in rest ==> j in a;
      WithoutAll(rest, d);
    }
  }

  /** A job that sits in one place sits in no other. */
  lemma OnePlace(s: State, job: Job)
    requires Distinct(s.submitted) && ConservationInv(s)
    ensures multiset(s.processed)[job] + multiset(Running(s))[job] + multiset(s.queue)[job]
            + multiset(s.aborted)[job] + multiset(s.cancelled)[job] <= 1
    ensures (job in s.processed || job in Running(s) || job in s.queue || job in s.aborted || job in s.cancelled) <==> job in s.submitted
  {
    DistinctCounts(s.submitted, job);
    assert multiset(s.submitted)[job] == multiset(s.processed)[job] + multiset(Running(s))[job] + multiset(s.queue)[job]
                                         + multiset(s.aborted)[job] + multiset(s.cancelled)[job];
  }

  lemma {:induction false} DistinctCounts(jobs: seq<Job>, job: Job)
    requires Distinct(jobs)
    ensures multiset(jobs)[job] == if job in jobs then 1 else 0
  {
    if job in jobs {
      var i :| 0 <= i < |jobs| && jobs[i] == job;
      var front, back := jobs[..i], jobs[i + 1..];
      assert jobs == front + [job] + back;
      assert job !in front && job !in back;
      assert multiset(front)[job] == 0 && multiset(back)[job] == 0;
      assert multiset(jobs) == multiset(front) + multiset{job} + multiset(back);
    }
  }

  /** Status and worker do not matter to jobs, except for the one that is running. */
  lemma SameJobs(max: int, s: State, s': State)
    requires Inv(max, s) && Running(s') == Running(s) && s' == s.(status := s'.status, worker := s'.worker)
    ensures Inv(max, s')
  {}

  lemma AppendKeepsOrder(s: State, job: Job)
    requires Distinct(s.submitted) && OrderInv(s) && ConservationInv(s) && job !in s.submitted
    ensures OrderInv(Append(s, job))
  {
    OnePlace(s, job);
    var dropped := Dropped(s);
    WithoutAppend(s.submitted, [job], dropped);
    assert job !in dropped && Without([job], dropped) == [job];
    assert s.processed + Running(s) + (s.queue + [job]) == s.processed + Running(s) + s.queue + [job];
  }

  lemma AppendConserves(s: State, job: Job)
    requires ConservationInv(s)
    ensures ConservationInv(Append(s, job))
  {
    assert multiset(s.submitted + [job]) == multiset(s.submitted) + multiset{job};
    assert multiset(s.queue + [job]) == multiset(s.queue) + multiset{job};
  }

  lemma AbortKeepsOrder(s: State, s': State, job: Job)
    requires Distinct(s.submitted) && OrderInv(s) && ConservationInv(s) && job !in s.submitted
    requires s' == s.(aborted := s.aborted + [job], submitted := s.submitted + [job])
    ensures OrderInv(s')
  {
    var kept := Without(s.submitted, Dropped(s));
    assert Dropped(s') == Dropped(s) + {job};
    WithoutAppend(s.submitted, [job], Dropped(s'));
    WithoutTwice(s.submitted, Dropped(s), {job});
    OnePlace(s, job);
    assert kept == s.processed + Running(s) + s.queue;
    KeptIsWithout(kept, job);
  }

  lemma KeptIsWithout(kept: seq<Job>, job: Job)
    requires job !in kept
    ensures Without(kept, {job}) == kept
  {
    WithoutNone(kept, {job});
  }

  lemma AbortConserves(s: State, s': State, job: Job)
    requires ConservationInv(s)
    requires s' == s.(aborted := s.aborted + [job], submitted := s.submitted + [job])
    ensures ConservationInv(s')
  {
    assert multiset(s'.submitted) == multiset(s.submitted) + multiset{job};
    assert multiset(s'.aborted) == multiset(s.aborted) + multiset{job};
  }

  lemma DistinctAppend(jobs: seq<Job>, job: Job)
    requires Distinct(jobs) && job !in jobs
    ensures Distinct(jobs + [job])
  {}

  lemma AppendKeeps(max: int, s: State, job: Job)
    requires Inv(max, s) && job !in s.submitted && s.currentJobs < max
    ensures Inv(max, Append(s, job))
  {
    DistinctAppend(s.submitted, job);
    AppendKeepsOrder(s, job);
    AppendConserves(s, job);
  }

  lemma AbortKeeps(max: int, s: State, s': State, job: Job)
    requires Inv(max, s) && job !in s.submitted
    requires s' == s.(aborted := s.aborted + [job], submitted := s.submitted + [job])
    ensures Inv(max, s')
  {
    DistinctAppend(s.submitted, job);
    AbortKeepsOrder(s, s', job);
    AbortConserves(s, s', job);
  }

  lemma StartJobKeeps(max: int, s: State, job: Job)
    requires Inv(max, s) && job !in s.submitted
    ensures Inv(max, Step(max, s, StartJob(job)))
  {
    var s' := Step(max, s, StartJob(job));
    if s.currentJobs < max {
      AppendKeeps(max, s, job);
      SameJobs(max, Append(s, job), s');
    } else {
      AbortKeeps(max, s, s', job);
    }
  }

  lemma CancelKeepsOrder(s: State, s': State, job: Job)
    requires Distinct(s.submitted) && ConservationInv(s) && OrderInv(s) && job in s.queue
    requires s' == s.(queue := Without(s.queue, {job}), currentJobs := s.currentJobs - 1, cancelled := s.cancelled + [job])
    ensures OrderInv(s')
  {
    OnePlace(s, job);
    assert Dropped(s') == Dropped(s) + {job};
    WithoutTwice(s.submitted, Dropped(s), {job});
    var front := s.processed + Running(s);
    WithoutAppend(front, s.queue, {job});
    WithoutNone(front, {job});
  }

  lemma CancelRemovesOne(queue: seq<Job>, job: Job)
    requires multiset(queue)[job] == 1
    ensures multiset(Without(queue, {job})) == multiset(queue) - multiset{job}
    ensures |Without(queue, {job})| == |queue| - 1
  {
    WithoutCounts(queue, job, job);
    forall other ensures multiset(Without(queue, {job}))[other] == (multiset(queue) - multiset{job})[other] {
      WithoutCounts(queue, job, other);
    }
  }

  lemma CancelJobKeeps(max: int, s: State, job: Job)
    requires Inv(max, s)
    ensures Inv(max, Step(max, s, CancelJob(job)))
  {
    if job in s.queue {
      var s' := Step(max, s, CancelJob(job));
      CancelKeepsOrder(s, s', job);
      OnePlace(s, job);
      CancelRemovesOne(s.queue, job);
      assert multiset(s.queue) == multiset(s'.queue) + multiset{job};
      assert multiset(s'.cancelled) == multiset(s.cancelled) + multiset{job};
    }
  }

  lemma AbortPendingKeepsOrder(s: State)
    requires Distinct(s.submitted) && OrderInv(s) && ConservationInv(s)
    ensures OrderInv(AbortPending(s))
  {
    var pending := set j | j in s.queue;
    var front := s.processed + Running(s);
    assert Dropped(AbortPending(s)) == Dropped(s) + pending;
    WithoutTwice(s.submitted, Dropped(s), pending);
    WithoutAppend(front, s.queue, pending);
    forall j | j in front ensures j !in pending {
      OnePlace(s, j);
    }
    WithoutNone(front, pending);
    WithoutAll(s.queue, pending);
  }

  lemma ShutdownKeeps(max: int, s: State, terminate: bool)
    requires Inv(max, s)
    ensures Inv(max, Step(max, s, Shutdown(terminate)))
  {
    var s' := Step(max, s, Shutdown(terminate));
    if terminate {
      AbortPendingKeepsOrder(s);
      assert multiset(s.aborted + s.queue) == multiset(s.aborted) + multiset(s.queue);
      SameJobs(max, AbortPending(s), s');
    } else {
      SameJobs(max, s, s');
    }
  }

  /** The worker takes the job at the front, or finishes the one it has: the three places in a row stay the same. */
  lemma WorkMovesJobs(s: State)
    requires s.currentJobs == |s.queue|
    ensures var s' := WorkerStep(s);
            && s'.processed + Running(s') + s'.queue == s.processed + Running(s) + s.queue
            && s'.currentJobs == |s'.queue| <= |s.queue|
            && s'.submitted == s.submitted && s'.aborted == s.aborted && s'.cancelled == s.cancelled
  {}

  lemma WorkKeeps(max: int, s: State)
    requires Inv(max, s)
    ensures Inv(max, WorkerStep(s))
  {
    var s' := WorkerStep(s);
    WorkMovesJobs(s);
    assert Dropped(s') == Dropped(s);
    assert multiset(s'.processed) + multiset(Running(s')) + multiset(s'.queue)
        == multiset(s'.processed + Running(s') + s'.queue)
        == multiset(s.processed + Running(s) + s.queue)
        == multiset(s.processed) + multiset(Running(s)) + multiset(s.queue);
  }

  lemma StepKeeps(max: int, s: State, action: Action)
    requires Inv(max, s) && (action.StartJob? ==> action.job !in s.submitted)
    ensures Inv(max, Step(max, s, action))
  {
    match action
    case StartJob(job) => StartJobKeeps(max, s, job);
    case CancelJob(job) => CancelJobKeeps(max, s, job);
    case Shutdown(terminate) => ShutdownKeeps(max, s, terminate);
    case Work => WorkKeeps(max, s);
    case _ => SameJobs(max, s, Step(max, s, action));
  }

  lemma {:induction false} OnlyStartedAreSubmitted(max: int, run: seq<Action>, job: Job)
    requires forall i :: 0 <= i < |run| ==> run[i] != StartJob(job)
    ensures job !in Exec(max, INIT, run).submitted
  {
    if run != [] {
      OnlyStartedAreSubmitted(max, run[..|run| - 1], job);
    }
  }

  /** In every run in which no job is started twice. */
  lemma {:induction false} Reachable(max: int, run: seq<Action>)
    requires DistinctJobs(run)
    ensures Inv(max, Exec(max, INIT, run))
  {
    if run != [] {
      var front, last := run[..|run| - 1], run[|run| - 1];
      Reachable(max, front);
      if last.StartJob? {
        forall i | 0 <= i < |front| ensures front[i] != StartJob(last.job) {
          assert front[i] == run[i] && run[|run| - 1] == last;
        }
        OnlyStartedAreSubmitted(max, front, last.job);
      }
      StepKeeps(max, Exec(max, INIT, front), last);
    }
  }

  lemma IsPrefix(a: seq<Job>, b: seq<Job>, c: seq<Job>)
    ensures a <= a + b + c
  {}

  /** Jobs are processed in the order in which they were submitted, the dropped ones left out. */
  lemma ProcessedInOrder(max: int, run: seq<Action>)
    requires DistinctJobs(run)
    ensures var s := Exec(max, INIT, run); s.processed <= Without(s.submitted, Dropped(s))
  {
    Reachable(max, run);
    var s := Exec(max, INIT, run);
    IsPrefix(s.processed, Running(s), s.queue);
  }

  // ---- What the calls do to the jobs ----

  /** The state behind a run and one more action. */
  lemma ExecOne(max: int, run: seq<Action>, action: Action)
    ensures Exec(max, INIT, run + [action]) == Step(max, Exec(max, INIT, run), action)
  {
    assert (run + [action])[..|run|] == run;
  }

  lemma DistinctFront(run: seq<Action>, action: Action)
    requires DistinctJobs(run + [action])
    ensures DistinctJobs(run)
  {
    forall i, j | 0 <= i < j < |run| && run[i].StartJob? && run[j].StartJob? ensures run[i].job != run[j].job {
      assert (run + [action])[i] == run[i] && (run + [action])[j] == run[j];
    }
  }

  /**
   * A job that is started becomes the last pending one if and only if fewer than `max` jobs are pending at that
   * moment; else it is aborted. Nothing happens to other jobs.
   */
  predicate Starts(max: int, s: State, s': State, job: Job)
  {
    && (s'.queue == s.queue + [job] <==> |s.queue| < max)
    && (s'.aborted == s.aborted + [job] <==> |s.queue| >= max)
    && (s'.queue == s.queue || s'.aborted == s.aborted)
    && s'.processed == s.processed && s'.cancelled == s.cancelled && Running(s') == Running(s)
  }

  lemma Longer(jobs: seq<Job>, job: Job)
    ensures jobs + [job] != jobs
  {
    assert |jobs + [job]| == |jobs| + 1;
  }

  lemma StepStarts(max: int, s: State, job: Job)
    requires s.currentJobs == |s.queue|
    ensures Starts(max, s, Step(max, s, StartJob(job)), job)
  {
    Longer(s.queue, job);
    Longer(s.aborted, job);
  }

  lemma StartJobAccepts(max: int, run: seq<Action>, job: Job)
    requires DistinctJobs(run + [StartJob(job)])
    ensures Starts(max, Exec(max, INIT, run), Exec(max, INIT, run + [StartJob(job)]), job)
  {
    DistinctFront(run, StartJob(job));
    Reachable(max, run);
    ExecOne(max, run, StartJob(job));
    StepStarts(max, Exec(max, INIT, run), job);
  }

  /** The other jobs of a queue, in their order. */
  predicate AllBut(jobs: seq<Job>, job: Job, others: seq<Job>)
  {
    exists i :: 0 <= i < |jobs| && jobs[i] == job && others == jobs[..i] + jobs[i + 1..]
  }

  lemma WithoutMiddle(front: seq<Job>, job: Job, back: seq<Job>, jobs: seq<Job>)
    requires jobs == front + [job] + back && job !in front && job !in back
    ensures Without(jobs, {job}) == front + back
  {
    WithoutAppend(front + [job], back, {job});
    WithoutAppend(front, [job], {job});
    WithoutNone(front, {job});
    WithoutNone(back, {job});
    assert Without([job], {job}) == [];
    assert front + [] == front;
  }

  lemma WithoutIsAllBut(jobs: seq<Job>, job: Job)
    requires job in jobs && Distinct(jobs)
    ensures AllBut(jobs, job, Without(jobs, {job}))
  {
    var i :| 0 <= i < |jobs| && jobs[i] == job;
    var front, back := jobs[..i], jobs[i + 1..];
    assert jobs == front + [job] + back && job !in front && job !in back;
    WithoutMiddle(front, job, back, jobs);
  }

  lemma PendingIsDistinct(max: int, s: State)
    requires Inv(max, s)
    ensures Distinct(s.queue)
  {
    forall i, j | 0 <= i < j < |s.queue| ensures s.queue[i] != s.queue[j] {
      if s.queue[i] == s.queue[j] {
        OnePlace(s, s.queue[i]);
        TwiceIsTwo(s.queue, i, j);
      }
    }
  }

  lemma TwiceIsTwo(jobs: seq<Job>, i: nat, j: nat)
    requires i < j < |jobs| && jobs[i] == jobs[j]
    ensures multiset(jobs)[jobs[i]] >= 2
  {
    assert jobs == jobs[..j] + [jobs[j]] + jobs[j + 1..];
    assert jobs[i] in jobs[..j];
  }

  /** A pending job that is cancelled is no longer pending, and the others keep their order; any other job is left alone. */
  predicate Cancels(s: State, s': State, job: Job)
  {
    if job in s.queue then
      && AllBut(s.queue, job, s'.queue) && job !in s'.queue && s'.cancelled == s.cancelled + [job]
      && s'.processed == s.processed && s'.aborted == s.aborted && s'.worker == s.worker
    else s' == s
  }

  lemma StepCancels(max: int, s: State, job: Job)
    requires Distinct(s.queue)
    ensures Cancels(s, Step(max, s, CancelJob(job)), job)
  {
    if job in s.queue {
      WithoutIsAllBut(s.queue, job);
      WithoutCounts(s.queue, job, job);
    }
  }

  lemma CancelJobRemoves(max: int, run: seq<Action>, job: Job)
    requires DistinctJobs(run)
    ensures Cancels(Exec(max, INIT, run), Exec(max, INIT, run + [CancelJob(job)]), job)
  {
    Reachable(max, run);
    ExecOne(max, run, CancelJob(job));
    PendingIsDistinct(max, Exec(max, INIT, run));
    StepCancels(max, Exec(max, INIT, run), job);
  }

  /** shutdown( true ) aborts all pending jobs, in their order; shutdown( false ) none. */
  lemma ShutdownAborts(max: int, run: seq<Action>, terminate: bool)
    ensures var s, s' := Exec(max, INIT, run), Exec(max, INIT, run + [Shutdown(terminate)]);
            && s'.status == ShuttingDown && s'.processed == s.processed && s'.cancelled == s.cancelled && Running(s') == Running(s)
            && (terminate ==> s'.queue == [] && s'.aborted == s.aborted + s.queue)
            && (!terminate ==> s'.queue == s.queue && s'.aborted == s.aborted)
  {
    ExecOne(max, run, Shutdown(terminate));
  }

  /** A step of the worker takes the first pending job to process it, or finishes the one that it has; nothing else changes. */
  predicate TakesFirst(s: State, s': State)
  {
    && (s.worker.AtQueue? && s.queue != [] ==> s'.worker == Processing(s.queue[0]) && s'.queue == s.queue[1..])
    && (!(s.worker.AtQueue? && s.queue != []) ==> s'.queue == s.queue)
    && s'.processed == s.processed + Running(s)
    && s'.aborted == s.aborted && s'.cancelled == s.cancelled && s'.status == s.status
  }

  lemma StepTakesFirst(s: State)
    requires s.currentJobs == |s.queue|
    ensures TakesFirst(s, WorkerStep(s))
  {
    assert s.processed + [] == s.processed;
  }

  lemma WorkTakesFirst(max: int, run: seq<Action>)
    requires DistinctJobs(run)
    ensures TakesFirst(Exec(max, INIT, run), Exec(max, INIT, run + [Work]))
  {
    Reachable(max, run);
    ExecOne(max, run, Work);
    StepTakesFirst(Exec(max, INIT, run));
  }

  // ---- Shutting down ----

  lemma {:induction false} OnlyStopStops(max: int, run: seq<Action>)
    requires StopProcessing !in run
    ensures Exec(max, INIT, run).status != Stopping
  {
    if run != [] {
      OnlyStopStops(max, run[..|run| - 1]);
    }
  }

  /** Unless somebody calls stopProcessing, the worker returns only when every job is processed, aborted or cancelled. */
  lemma ReturnsWhenDone(max: int, run: seq<Action>)
    requires DistinctJobs(run) && StopProcessing !in run
    requires !Exec(max, INIT, run).worker.Returned? && WorkerStep(Exec(max, INIT, run)).worker.Returned?
    ensures var s := Exec(max, INIT, run);
            && s.status == ShuttingDown && s.queue == []
            && multiset(s.submitted) == multiset(s.processed) + multiset(s.aborted) + multiset(s.cancelled)
  {
    Reachable(max, run);
    OnlyStopStops(max, run);
  }

  lemma {:induction false} ExecAppend(max: int, s: State, run: seq<Action>, later: seq<Action>)
    ensures Exec(max, s, run + later) == Exec(max, Exec(max, s, run), later)
    decreases |later|
  {
    if later == [] {
      assert run + later == run;
    } else {
      ExecAppend(max, s, run, later[..|later| - 1]);
      assert (run + later)[..|run + later| - 1] == run + later[..|later| - 1];
    }
  }

  lemma ExecFirst(max: int, s: State, action: Action, later: seq<Action>)
    ensures Exec(max, s, [action] + later) == Exec(max, Step(max, s, action), later)
  {
    var first := [action];
    assert first[..0] == [];
    assert Exec(max, s, first) == Step(max, Exec(max, s, first[..0]), action);
    ExecAppend(max, s, first, later);
  }

  // ---- Sleeping and waking ----

  predicate OnlyWork(run: seq<Action>)
  {
    forall k :: 0 <= k < |run| ==> run[k] == Work
  }

  /** The worker sleeps although there are jobs, and nobody has told it. */
  predicate Oversleeps(s: State)
  {
    s.worker == Asleep(false) && s.currentJobs != 0
  }

  /** A worker sleeps through a shutdown never, and over jobs only after stopProcessing. */
  predicate WakeInv(s: State)
  {
    s.worker == Asleep(false) ==> s.status != ShuttingDown && (s.currentJobs == 0 || s.status == Stopping)
  }

  lemma StepKeepsWaking(max: int, s: State, action: Action)
    requires s.currentJobs == |s.queue| && WakeInv(s)
    ensures WakeInv(Step(max, s, action))
  {}

  lemma {:induction false} ReachableWakes(max: int, run: seq<Action>)
    requires DistinctJobs(run)
    ensures Inv(max, Exec(max, INIT, run)) && WakeInv(Exec(max, INIT, run))
  {
    Reachable(max, run);
    if run != [] {
      ReachableWakes(max, run[..|run| - 1]);
      StepKeepsWaking(max, Exec(max, INIT, run[..|run| - 1]), run[|run| - 1]);
    }
  }

  /** No wake-up is lost unless somebody calls stopProcessing. */
  lemma NoLostWakeUp(max: int, run: seq<Action>)
    requires DistinctJobs(run) && StopProcessing !in run
    ensures !Oversleeps(Exec(max, INIT, run))
  {
    ReachableWakes(max, run);
    OnlyStopStops(max, run);
  }

  /** The guard of the step that loses a wake-up: a job is enqueued for a sleeper while the processor is stopping. */
  predicate LosesWakeUp(max: int, s: State, action: Action)
  {
    action.StartJob? && s.currentJobs < max && s.status == Stopping && s.worker == Asleep(false)
  }

  /** There is no other way to oversleep. */
  lemma StepLosesWakeUp(max: int, s: State, action: Action)
    requires s.currentJobs == |s.queue| && WakeInv(s) && !Oversleeps(s)
    ensures Oversleeps(Step(max, s, action)) <==> LosesWakeUp(max, s, action)
  {}

  /** The worker is a thread that has not returned, and does not oversleep. */
  predicate Works(s: State)
  {
    !s.worker.NoThread? && !s.worker.Returned? && !Oversleeps(s)
  }

  /** Steps until the worker has taken a job, or found none. */
  function ToQueue(worker: Worker): nat
  {
    match worker
    case Processing(_) => 4
    case AtStatus => 3
    case Asleep(notified) => if notified then 2 else 0
    case AtQueue => 1
    case _ => 0
  }

  /** What is pending has been processed, in order, and the worker is where `worker` says. */
  function Finished(s: State, worker: Worker): State
  {
    s.(queue := [], currentJobs := 0, worker := worker, processed := s.processed + Running(s) + s.queue)
  }

  lemma WorkApproachesEnd(s: State)
    requires s.currentJobs == |s.queue| && s.status != Stopping && Works(s) && s.worker != Asleep(false)
    ensures var s' := WorkerStep(s);
            && (|s'.queue| < |s.queue| || (s'.queue == s.queue && ToQueue(s'.worker) < ToQueue(s.worker)))
            && s'.currentJobs == |s'.queue| && s'.status == s.status
            && (s'.worker.Returned? ==> s.status == ShuttingDown)
            && (s'.worker.Returned? || s'.worker == Asleep(false) ==> s' == Finished(s, s'.worker))
            && !s'.worker.NoThread? && !Oversleeps(s')
            && forall worker :: Finished(s', worker) == Finished(s, worker)
  {
    WorkMovesJobs(s);
    if s.worker.AtQueue? && s.queue == [] {
      assert s.processed + [] + [] == s.processed;
    }
  }

  /**
   * Left alone, a worker that is not told to stop processes what is pending, in order. Then it sleeps, or
   * returns if the processor is shutting down.
   */
  lemma {:induction false} WorkDrains(max: int, s: State) returns (run: seq<Action>)
    requires s.currentJobs == |s.queue| && s.status != Stopping && Works(s) && WakeInv(s)
    ensures OnlyWork(run)
    ensures Exec(max, s, run) == Finished(s, if s.status == ShuttingDown then Returned else Asleep(false))
    decreases |s.queue|, ToQueue(s.worker)
  {
    if s.worker == Asleep(false) {
      run := [];
      assert s.processed + [] + [] == s.processed;
    } else {
      var s' := WorkerStep(s);
      WorkApproachesEnd(s);
      var later: seq<Action> := [];
      if !s'.worker.Returned? {
        StepKeepsWaking(max, s, Work);
        later := WorkDrains(max, s');
      }
      run := [Work] + later;
      ExecFirst(max, s, Work, later);
    }
  }

  /** A processor without a worker, or whose worker has returned, can be started (again); it processes whatever is pending. */
  lemma StartDrains(max: int, s: State) returns (later: seq<Action>)
    requires s.currentJobs == |s.queue| && (s.worker.NoThread? || s.worker.Returned?)
    ensures OnlyWork(later)
    ensures var s' := Exec(max, s, [Join, StartProcessing] + later);
            && s'.queue == [] && s'.processed == s.processed + s.queue && s'.status == Operational && s'.worker == Asleep(false)
  {
    var joined := Step(max, s, Join);
    var started := Step(max, joined, StartProcessing);
    later := WorkDrains(max, started);
    assert [Join, StartProcessing] + later == [Join] + ([StartProcessing] + later);
    ExecFirst(max, s, Join, [StartProcessing] + later);
    ExecFirst(max, joined, StartProcessing, later);
    assert s.processed + [] == s.processed;
  }

  /** After shutdown( false ) the worker, left alone, processes what is pending, in order, and returns. */
  lemma ShutdownDrains(max: int, s: State) returns (run: seq<Action>)
    requires s.currentJobs == |s.queue| && WakeInv(s) && s.status == ShuttingDown && !s.worker.NoThread? && !s.worker.Returned?
    ensures OnlyWork(run) && Exec(max, s, run) == Finished(s, Returned)
  {
    run := WorkDrains(max, s);
  }

  /** In every run without stopProcessing, whatever is pending is processed as soon as the worker is left alone. */
  lemma JobsAreProcessed(max: int, run: seq<Action>) returns (later: seq<Action>)
    requires DistinctJobs(run) && StopProcessing !in run
    requires var s := Exec(max, INIT, run); !s.worker.NoThread? && !s.worker.Returned?
    ensures OnlyWork(later)
    ensures var s, s' := Exec(max, INIT, run), Exec(max, INIT, run + later);
            s'.queue == [] && s'.processed == s.processed + Running(s) + s.queue
  {
    ReachableWakes(max, run);
    NoLostWakeUp(max, run);
    OnlyStopStops(max, run);
    later := WorkDrains(max, Exec(max, INIT, run));
    ExecAppend(max, INIT, run, later);
  }

  // ---- stopProcessing ----

  /** There is no job for the worker, and its waiting loop only looks for a shutdown. */
  predicate WaitsForJobs(s: State)
  {
    (s.worker.AtQueue? || s.worker.Asleep?) && s.currentJobs == 0
  }

  /** A worker that does not get back to the status: it has no job, or sleeps and has not been told. */
  predicate Stuck(s: State)
  {
    WaitsForJobs(s) || s.worker == Asleep(false)
  }

  /** The job that the worker finishes before it looks at the status again. */
  function LastJob(s: State): (jobs: seq<Job>)
  {
    if s.worker.AtQueue? || s.worker == Asleep(true) then s.queue[..if s.queue == [] then 0 else 1] else Running(s)
  }

  lemma {:induction false} StuckStaysStuck(max: int, s: State, run: seq<Action>)
    requires Stuck(s) && s.status == Stopping && OnlyWork(run)
    ensures Stuck(Exec(max, s, run)) && Exec(max, s, run).status == Stopping
  {
    if run != [] {
      StuckStaysStuck(max, s, run[..|run| - 1]);
    }
  }

  lemma {:induction false} StopReturns(max: int, s: State) returns (run: seq<Action>)
    requires s.currentJobs == |s.queue| && s.status == Stopping && !s.worker.NoThread? && !Stuck(s)
    ensures OnlyWork(run) && Exec(max, s, run).worker.Returned?
    decreases match s.worker case Asleep(_) => 4 case AtQueue => 3 case Processing(_) => 2 case AtStatus => 1 case _ => 0
  {
    run := [];
    if !s.worker.Returned? {
      var later := StopReturns(max, WorkerStep(s));
      run := [Work] + later;
      ExecFirst(max, s, Work, later);
    }
  }

  /** While the processor is stopping, the worker, left alone, returns if and only if it is not stuck. */
  lemma StopEndsTheWorker(max: int, s: State)
    requires Inv(max, s) && s.status == Stopping && !s.worker.NoThread?
    ensures (exists run :: OnlyWork(run) && Exec(max, s, run).worker.Returned?) <==> !Stuck(s)
  {
    if Stuck(s) {
      forall run | OnlyWork(run) ensures !Exec(max, s, run).worker.Returned? {
        StuckStaysStuck(max, s, run);
      }
    } else {
      var run := StopReturns(max, s);
      assert OnlyWork(run) && Exec(max, s, run).worker.Returned?;
    }
  }

  /**
   * A call of stopProcessing, which wakes a sleeper, ends a worker that is then left alone if and only if the
   * worker was not waiting for jobs.
   */
  lemma StopCallEndsTheWorker(max: int, s: State)
    requires Inv(max, s) && !s.worker.NoThread?
    ensures var s' := Step(max, s, StopProcessing);
            (exists run :: OnlyWork(run) && Exec(max, s', run).worker.Returned?) <==> !WaitsForJobs(s)
  {
    var s' := Step(max, s, StopProcessing);
    StepKeeps(max, s, StopProcessing);
    StopEndsTheWorker(max, s');
    assert Stuck(s') <==> WaitsForJobs(s);
  }

  lemma WorkKeepsLastJob(s: State)
    requires s.currentJobs == |s.queue| && s.status == Stopping
    ensures var s' := WorkerStep(s);
            s'.status == Stopping && s'.processed + LastJob(s') == s.processed + LastJob(s) && (s'.worker.Returned? ==> LastJob(s') == [])
  {}

  /** At most the job at hand is still processed. All the others stay in the queue, in their order. */
  lemma {:induction false} StopLeavesTheRest(max: int, s: State, run: seq<Action>)
    requires s.currentJobs == |s.queue| && s.status == Stopping && OnlyWork(run)
    ensures var s' := Exec(max, s, run);
            && s'.status == Stopping && s'.currentJobs == |s'.queue|
            && s'.processed + Running(s') + s'.queue == s.processed + Running(s) + s.queue
            && s'.processed + LastJob(s') == s.processed + LastJob(s)
            && (s'.worker.Returned? ==> s'.processed == s.processed + LastJob(s))
            && s'.submitted == s.submitted && s'.aborted == s.aborted && s'.cancelled == s.cancelled
  {
    if run != [] {
      var front := run[..|run| - 1];
      StopLeavesTheRest(max, s, front);
      WorkMovesJobs(Exec(max, s, front));
      WorkKeepsLastJob(Exec(max, s, front));
    }
    assert Exec(max, s, run).worker.Returned? ==> LastJob(Exec(max, s, run)) == [];
  }

  /** Whoever may wake a sleeper while the processor is stopping: a new job does not. */
  predicate Wakes(action: Action)
  {
    action.StopProcessing? || action.Shutdown? || action.WakeUp?
  }

  /**
   * A worker that went to sleep while the processor is stopping stays asleep, and no job is processed, whatever
   * jobs are submitted or cancelled and however often startProcessing is called, until another stopProcessing, a
   * shutdown or a spurious wake-up.
   */
  lemma {:induction false} SleeperStaysAsleep(max: int, s: State, run: seq<Action>)
    requires s.status == Stopping && s.worker == Asleep(false)
    requires forall k :: 0 <= k < |run| ==> !Wakes(run[k])
    ensures var s' := Exec(max, s, run); s'.status == Stopping && s'.worker == Asleep(false) && s'.processed == s.processed
  {
    if run != [] {
      SleeperStaysAsleep(max, s, run[..|run| - 1]);
    }
  }

  /** Without new jobs and without a shutdown, a worker that waits for jobs waits for good, whatever else is called and however often it is woken. */
  lemma {:induction false} StopLeavesAWaitingWorker(max: int, s: State, run: seq<Action>)
    requires s.currentJobs == |s.queue| && WaitsForJobs(s) && s.status != ShuttingDown
    requires forall k :: 0 <= k < |run| ==> !run[k].StartJob? && !run[k].Shutdown?
    ensures var s' := Exec(max, s, run); s'.queue == [] && WaitsForJobs(s') && s'.status != ShuttingDown
  {
    if run != [] {
      StopLeavesAWaitingWorker(max, s, run[..|run| - 1]);
    }
  }

  /** The states that the two runs below go through. */
  lemma StopFindsASleeper(max: int) returns (run: seq<Action>)
    ensures run == [StartProcessing, Work, Work, StopProcessing, Work, Work]
    ensures Exec(max, INIT, run) == INIT.(worker := Asleep(false), status := Stopping)
  {
    var stopping := INIT.(status := Stopping);
    run := [Work];
    ExecFirst(max, stopping.(worker := AtQueue), Work, []);
    assert run + [] == run;
    ExecFirst(max, stopping.(worker := Asleep(true)), Work, run);
    run := [Work] + run;
    ExecFirst(max, INIT.(worker := Asleep(false)), StopProcessing, run);
    run := [StopProcessing] + run;
    ExecFirst(max, INIT.(worker := AtQueue), Work, run);
    run := [Work] + run;
    ExecFirst(max, INIT.(worker := AtStatus), Work, run);
    run := [Work] + run;
    ExecFirst(max, INIT, StartProcessing, run);
    run := [StartProcessing] + run;
  }

  /** In this run stopProcessing finds the worker asleep on an empty queue, and no step of the worker ends it. */
  lemma StopMayLeaveTheWorker(max: int) returns (run: seq<Action>)
    ensures DistinctJobs(run) && Exec(max, INIT, run).status == Stopping && Exec(max, INIT, run).worker == Asleep(false)
    ensures forall later :: OnlyWork(later) ==> !Exec(max, Exec(max, INIT, run), later).worker.Returned?
  {
    run := StopFindsASleeper(max);
    var s := Exec(max, INIT, run);
    forall later | OnlyWork(later) ensures !Exec(max, s, later).worker.Returned? {
      StuckStaysStuck(max, s, later);
    }
  }

  lemma StartJobForSleeper(max: int, job: Job)
    requires max > 0
    ensures Step(max, INIT.(worker := Asleep(false), status := Stopping), StartJob(job))
         == State([job], 1, Stopping, Asleep(false), [job], [], [], [])
  {}

  /** In this run a job is submitted afterwards: nobody tells the worker, which neither processes it nor returns. */
  lemma StopMayLoseAJob(max: int, job: Job) returns (run: seq<Action>)
    requires max > 0
    ensures run == [StartProcessing, Work, Work, StopProcessing, Work, Work] + [StartJob(job)]
    ensures Exec(max, INIT, run) == State([job], 1, Stopping, Asleep(false), [job], [], [], [])
    ensures forall later :: (forall k :: 0 <= k < |later| ==> !Wakes(later[k])) ==>
              var s := Exec(max, Exec(max, INIT, run), later); s.processed == [] && s.worker == Asleep(false)
  {
    var before := StopFindsASleeper(max);
    run := before + [StartJob(job)];
    assert run[..|before|] == before;
    StartJobForSleeper(max, job);
    var s := Exec(max, INIT, run);
    forall later | forall k :: 0 <= k < |later| ==> !Wakes(later[k])
      ensures Exec(max, s, later).processed == [] && Exec(max, s, later).worker == Asleep(false)
    {
      SleeperStaysAsleep(max, s, later);
    }
  }
}
