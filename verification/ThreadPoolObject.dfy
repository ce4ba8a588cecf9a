/** The pool's critical sections as they run on its deque, flag and counters. Each
    is one step of the step system, which is kept beside the fields as a ghost. */
module ThreadPoolObjects {
  import opened Words
  import opened ThreadPool

  datatype PostStatus = Accepted | QueueFull | ShuttingDown

  /** What a worker does when it leaves the critical section. */
  datatype Found = Wait | Leave | Run(task: TaskId)

  class TaskQueue {
    const bound: nat
    var queue: seq<TaskId>
    var stopping: bool
    var posted: nat
    var rejected: nat
    var completed: nat
    var exceptions: nat
    ghost var model: Pool

    ghost predicate Valid()
      reads this
    {
      && model.bound == bound && model.queue == queue && (stopping <==> model.stage != Open)
      && model.posted == posted && model.rejected == rejected
      && model.completed == completed && model.exceptions == exceptions
    }

    constructor (threads: nat, bound: nat)
      requires 0 < threads && 0 < bound
      ensures Valid() && model == Init(threads, bound)
    {
      this.bound := bound;
      queue, stopping := [], false;
      posted, rejected, completed, exceptions := 0, 0, 0, 0;
      model := Init(threads, bound);
    }

    /** The constructor's checks, as an error return. */
    static method Create(threads: nat, bound: nat) returns (r: Option<TaskQueue>)
      ensures r.Some? <==> threads > 0 && bound > 0
      ensures r.Some? ==> fresh(r.value) && r.value.Valid() && r.value.model == Init(threads, bound)
    {
      if threads == 0 {
        return None;
      }
      if bound == 0 {
        return None;
      }
      var pool := new TaskQueue(threads, bound);
      r := Some(pool);
    }

    /** The locked part of `post`; the caller notifies afterwards if it was
        accepted. */
    method Post(task: TaskId) returns (status: PostStatus)
      requires Valid() && task == model.calls
      modifies this
      ensures Valid() && model == Next(old(model), Step.Post)
      ensures status == if old(stopping) then ShuttingDown else if |old(queue)| >= bound then QueueFull else Accepted
      ensures status.Accepted? <==> model.posted == old(model.posted) + 1
    {
      model := Next(model, Step.Post);
      if stopping {
        rejected := rejected + 1;
        return ShuttingDown;
      }
      if |queue| >= bound {
        rejected := rejected + 1;
        return QueueFull;
      }
      queue := queue + [task];
      posted := posted + 1;
      return Accepted;
    }

    /** The locked part of the worker loop. */
    method Take(ghost worker: nat) returns (found: Found)
      requires Valid() && Enabled(model, Look(worker))
      modifies this
      ensures Valid() && model == Next(old(model), Look(worker))
      ensures match found
              case Wait => model.workers[worker] == Asleep
              case Leave => model.workers[worker] == Exited
              case Run(task) => model.workers[worker] == Running(task) && old(queue) == [task] + queue
    {
      model := Next(model, Look(worker));
      if !stopping && queue == [] {
        return Wait;
      }
      if queue == [] {
        return Leave;
      }
      found := Run(queue[0]);
      queue := queue[1..];
    }

    /** A task body is over: it returned, or it threw and the worker goes on. */
    method Finished(ghost worker: nat, ok: bool)
      requires Valid() && Enabled(model, Finish(worker, ok))
      modifies this
      ensures Valid() && model == Next(old(model), Finish(worker, ok))
    {
      model := Next(model, Finish(worker, ok));
      if ok {
        completed := completed + 1;
      } else {
        exceptions := exceptions + 1;
      }
    }

    /** The locked part of `shutdown`: only the first caller goes on to notify and
        join. */
    method BeginShutdown(policy: ShutdownPolicy) returns (first: bool)
      requires Valid()
      modifies this
      ensures Valid() && first == !old(stopping) && stopping
      ensures model == Next(old(model), if first then Step.BeginShutdown(policy) else ShutdownAgain)
      ensures first && policy.Drain? ==> queue == old(queue)
      ensures first && policy.Discard? ==> queue == [] && model.discarded == old(queue)
    {
      if stopping {
        model := Next(model, ShutdownAgain);
        return false;
      }
      model := Next(model, Step.BeginShutdown(policy));
      stopping := true;
      if policy.Discard? {
        queue := [];
      }
      return true;
    }
  }
}
