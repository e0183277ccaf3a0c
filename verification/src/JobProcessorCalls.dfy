/**
 * The methods of SingleThreadedJobProcessor on its queue objects
 * (src/util/JobProcessors/SingleThreadedJobProcessor.cpp): each section under the mutex does to the fields what
 * the corresponding step of the transition system does to the state.
 */
module JobProcessorCalls {
  import opened JobQueues
  import opened JobProcessor

  class SingleThreadedJobProcessor {
    const queue: ProcessorQueueDiscardWrapper
    var status: Status
    var worker: Worker               // where the thread is; NoThread stands for a null pointer
    ghost var submitted: seq<Job>
    var processed: seq<Job>          // the calls of processJob and jobAborted
    var aborted: seq<Job>
    ghost var cancelled: seq<Job>

    ghost predicate Valid()
      reads this, queue, queue.queue
    {
      queue.Valid()
    }

    ghost function View(): State
      reads this, queue, queue.queue
    {
      State(queue.queue.pendingJobs, queue.currentJobs, status, worker, submitted, processed, aborted, cancelled)
    }

    constructor (maxPendingJobs: int)
      ensures Valid() && fresh(queue) && fresh(queue.queue) && queue.maxPendingJobs == maxPendingJobs && View() == INIT
    {
      queue := new ProcessorQueueDiscardWrapper(maxPendingJobs);
      status, worker := Operational, NoThread;
      submitted, processed, aborted, cancelled := [], [], [], [];
    }

    method NotifyOne()
      modifies this`worker
      ensures View() == Notify(old(View()))
    {
      if worker.Asleep? {
        worker := Asleep(true);
      }
    }

    method IStartJob(job: Job)
      requires Valid()
      modifies this`worker, this`submitted, this`aborted, queue, queue.queue
      ensures Valid() && View() == Step(queue.maxPendingJobs, old(View()), StartJob(job))
    {
      var may := queue.MayEnqueue();
      submitted := submitted + [job];
      if may {
        queue.EnqueueJob(job);
        if status == Operational {
          NotifyOne();
        }
      } else {
        aborted := aborted + [job];
      }
    }

    method ICancelJob(job: Job)
      requires Valid() && Inv(queue.maxPendingJobs, View())
      modifies this`cancelled, queue, queue.queue
      ensures Valid() && View() == Step(queue.maxPendingJobs, old(View()), CancelJob(job))
    {
      PendingIsDistinct(queue.maxPendingJobs, View());
      DistinctCounts(queue.queue.pendingJobs, job);
      WithoutCounts(queue.queue.pendingJobs, job, job);
      if job !in queue.queue.pendingJobs {
        WithoutNone(queue.queue.pendingJobs, {job});
      }
      var removed := queue.RemoveJob(job);
      if removed {
        cancelled := cancelled + [job];
      }
    }

    method StartProcessing()
      requires Valid()
      modifies this`status, this`worker
      ensures Valid() && View() == Step(queue.maxPendingJobs, old(View()), JobProcessor.StartProcessing)
    {
      if !worker.NoThread? {
        return;
      }
      status := Operational;
      NotifyOne();
      worker := AtStatus;
    }

    method StopProcessing()
      requires Valid()
      modifies this`status, this`worker
      ensures Valid() && View() == Step(queue.maxPendingJobs, old(View()), JobProcessor.StopProcessing)
    {
      status := Stopping;
      NotifyOne();
    }

    method AbortPendingJobs()
      requires Valid()
      modifies this`aborted, queue, queue.queue
      ensures Valid() && View() == AbortPending(old(View()))
    {
      ghost var pending := queue.queue.pendingJobs;
      var empty := queue.Empty();
      while !empty
        invariant Valid() && (empty <==> queue.queue.pendingJobs == [])
        invariant aborted + queue.queue.pendingJobs == old(aborted) + pending
        invariant status == old(status) && worker == old(worker) && submitted == old(submitted)
        invariant processed == old(processed) && cancelled == old(cancelled)
        decreases |queue.queue.pendingJobs|
      {
        ghost var before := queue.queue.pendingJobs;
        var job := queue.PollNextJob();
        assert aborted + before == aborted + [job] + queue.queue.pendingJobs;
        aborted := aborted + [job];
        empty := queue.Empty();
      }
      assert aborted + [] == aborted;
    }

    /** The section of shutdown() that holds the mutex; then the caller joins the thread. */
    method BeginShutdown(terminate: bool)
      requires Valid()
      modifies this`status, this`worker, this`aborted, queue, queue.queue
      ensures Valid() && View() == Step(queue.maxPendingJobs, old(View()), Shutdown(terminate))
    {
      status := ShuttingDown;
      if terminate {
        AbortPendingJobs();
      }
      NotifyOne();
    }

    /** One turn of the loops in process(), from where the thread is to where it may be interrupted next. */
    method ProcessOnce()
      requires Valid()
      modifies this`worker, this`processed, queue, queue.queue
      ensures Valid() && View() == WorkerStep(old(View()))
    {
      match worker
      case AtStatus =>
        worker := if status == Stopping then Returned else AtQueue;
      case AtQueue =>
        var empty := queue.Empty();
        if empty {
          worker := if status == ShuttingDown then Returned else Asleep(false);
        } else {
          ghost var before := queue.queue.pendingJobs;
          var job := queue.PollNextJob();
          assert before[0] == job && before[1..] == queue.queue.pendingJobs;
          worker := Processing(job);
        }
      case Asleep(notified) =>
        if notified {
          worker := AtQueue;
        }
      case Processing(job) =>
        processed := processed + [job];
        worker := AtStatus;
      case _ =>
    }
  }
}
