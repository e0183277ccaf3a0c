/** The job queues of src/util/JobProcessors/DefaultProcessorQueues.cpp: a list, and a wrapper that bounds it with its own counter. */
module JobQueues {
  type Job = int

  /** The jobs that are not in a set, in their order; with one job, what list::remove leaves. */
  function Without(jobs: seq<Job>, dropped: set<Job>): seq<Job>
  {
    if jobs == [] then [] else (if jobs[0] in dropped then [] else [jobs[0]]) + Without(jobs[1..], dropped)
  }

  lemma {:induction false} WithoutCounts(jobs: seq<Job>, job: Job, other: Job)
    ensures |Without(jobs, {job})| == |jobs| - multiset(jobs)[job]
    ensures multiset(Without(jobs, {job}))[other] == if other == job then 0 else multiset(jobs)[other]
  {
    if jobs != [] {
      assert jobs == [jobs[0]] + jobs[1..];
      WithoutCounts(jobs[1..], job, other);
    }
  }

  class FIFOProcessorQueue {
    var pendingJobs: seq<Job>

    constructor ()
      ensures pendingJobs == []
    {
      pendingJobs := [];
    }

    method EnqueueJob(job: Job)
      modifies this
      ensures pendingJobs == old(pendingJobs) + [job]
    {
      pendingJobs := pendingJobs + [job];
    }

    method Empty() returns (empty: bool)
      ensures empty <==> pendingJobs == []
    {
      empty := |pendingJobs| == 0;
    }

    method PollNextJob() returns (job: Job)
      requires pendingJobs != []
      modifies this
      ensures old(pendingJobs) == [job] + pendingJobs
    {
      job := pendingJobs[0];
      pendingJobs := pendingJobs[1..];
    }

    method RemoveJob(job: Job) returns (removed: bool)
      modifies this
      ensures pendingJobs == Without(old(pendingJobs), {job})
      ensures removed <==> job in old(pendingJobs)
    {
      WithoutCounts(pendingJobs, job, job);
      var count := |pendingJobs|;
      pendingJobs := Without(pendingJobs, {job});
      removed := count != |pendingJobs|;
    }
  }

  class ProcessorQueueDiscardWrapper {
    const maxPendingJobs: int
    var currentJobs: int
    const queue: FIFOProcessorQueue

    /** The counter is the length of the wrapped queue. */
    ghost predicate Valid()
      reads this, queue
    {
      currentJobs == |queue.pendingJobs|
    }

    constructor (maxPendingJobs: int)
      ensures Valid() && fresh(queue) && queue.pendingJobs == [] && this.maxPendingJobs == maxPendingJobs
    {
      this.maxPendingJobs := maxPendingJobs;
      currentJobs := 0;
      queue := new FIFOProcessorQueue();
    }

    method MayEnqueue() returns (may: bool)
      requires Valid()
      ensures may <==> |queue.pendingJobs| < maxPendingJobs
    {
      may := currentJobs < maxPendingJobs;
    }

    method EnqueueJob(job: Job)
      requires Valid()
      modifies this, queue
      ensures Valid() && queue.pendingJobs == old(queue.pendingJobs) + [job]
    {
      currentJobs := currentJobs + 1;
      queue.EnqueueJob(job);
    }

    method Empty() returns (empty: bool)
      requires Valid()
      ensures empty <==> queue.pendingJobs == []
    {
      empty := currentJobs == 0;
    }

    method PollNextJob() returns (job: Job)
      requires Valid() && queue.pendingJobs != []
      modifies this, queue
      ensures Valid() && old(queue.pendingJobs) == [job] + queue.pendingJobs
    {
      assert currentJobs > 0;
      currentJobs := currentJobs - 1;
      job := queue.PollNextJob();
    }

    /** The counter goes down by one however many copies were removed: it stays right if and only if there was at most one. */
    method RemoveJob(job: Job) returns (removed: bool)
      requires Valid()
      modifies this, queue
      ensures queue.pendingJobs == Without(old(queue.pendingJobs), {job})
      ensures removed <==> job in old(queue.pendingJobs)
      ensures Valid() <==> multiset(old(queue.pendingJobs))[job] <= 1
    {
      WithoutCounts(queue.pendingJobs, job, job);
      removed := queue.RemoveJob(job);
      if removed {
        currentJobs := currentJobs - 1;
      }
    }
  }
}
