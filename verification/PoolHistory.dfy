/** The pool's counters and its answers to posts, read from the steps taken. */
module PoolHistory {
  import opened ThreadPool

  function Posts(steps: seq<Step>): nat {
    if steps == [] then 0 else (if steps[0].Post? then 1 else 0) + Posts(steps[1..])
  }

  /** Task bodies that returned, or that threw. */
  function Finishes(steps: seq<Step>, ok: bool): nat {
    if steps == [] then 0
    else (if steps[0].Finish? && steps[0].ok == ok then 1 else 0) + Finishes(steps[1..], ok)
  }

  ghost predicate Stopped(steps: seq<Step>) {
    exists i :: 0 <= i < |steps| && steps[i].BeginShutdown?
  }

  lemma {:induction false} StoppedSteps(steps: seq<Step>)
    requires steps != []
    ensures Stopped(steps) <==> steps[0].BeginShutdown? || Stopped(steps[1..])
  {
    if Stopped(steps) && !steps[0].BeginShutdown? {
      var i :| 0 <= i < |steps| && steps[i].BeginShutdown?;
      assert steps[1..][i - 1].BeginShutdown?;
    }
    if Stopped(steps[1..]) {
      var i :| 0 <= i < |steps[1..]| && steps[1..][i].BeginShutdown?;
      assert steps[i + 1].BeginShutdown?;
    }
  }

  lemma StepCounts(p: Pool, s: Step)
    requires Enabled(p, s)
    ensures var q := Next(p, s);
            && q.completed == p.completed + (if s.Finish? && s.ok then 1 else 0)
            && q.exceptions == p.exceptions + (if s.Finish? && !s.ok then 1 else 0)
            && q.calls == p.calls + (if s.Post? then 1 else 0)
            && (q.stage != Open <==> p.stage != Open || s.BeginShutdown?)
            && q.bound == p.bound && |q.workers| == |p.workers|
  {
  }

  /** Along any schedule, each counter goes up by the steps it counts, and the pool
      refuses work from the first shutdown call on. */
  lemma {:induction false} CountersAreSteps(p: Pool, steps: seq<Step>, q: Pool)
    requires Reaches(p, steps, q)
    ensures q.completed == p.completed + Finishes(steps, true)
    ensures q.exceptions == p.exceptions + Finishes(steps, false)
    ensures q.calls == p.calls + Posts(steps)
    ensures q.stage != Open <==> p.stage != Open || Stopped(steps)
    ensures q.bound == p.bound && |q.workers| == |p.workers|
    decreases |steps|
  {
    if steps != [] {
      StoppedSteps(steps);
      StepCounts(p, steps[0]);
      hide Stopped;
      hide Next;
      CountersAreSteps(Next(p, steps[0]), steps[1..], q);
    }
  }

  /** A post is taken exactly if nobody has called shutdown and fewer than `bound`
      accepted tasks wait to be started; what it takes is the one posted, behind
      all that were accepted before. */
  lemma {:induction false} AcceptedIff(threads: nat, bound: nat, steps: seq<Step>, p: Pool)
    requires threads > 0 && bound > 0 && Reaches(Init(threads, bound), steps, p)
    ensures var q := Next(p, Post);
            if !Stopped(steps) && |p.accepted| - |p.started| < bound
            then q.accepted == p.accepted + [Posts(steps)] && q.rejected == p.rejected
            else q.accepted == p.accepted && q.rejected == p.rejected + 1
  {
    Reachable(threads, bound, steps, p);
    CountersAreSteps(Init(threads, bound), steps, p);
  }

  /** The four counters of a pool that has joined add up to the steps of its run. */
  lemma {:induction false} JoinedCounters(threads: nat, bound: nat, steps: seq<Step>, p: Pool)
    requires threads > 0 && bound > 0 && Reaches(Init(threads, bound), steps, p) && p.stage == Joined
    ensures p.posted + p.rejected == Posts(steps)
    ensures p.completed == Finishes(steps, true) && p.exceptions == Finishes(steps, false)
    ensures p.posted == p.completed + p.exceptions + |p.discarded|
  {
    ExactlyOnce(threads, bound, steps, p);
    JoinedMeansAllRan(threads, bound, steps, p);
    CountersAreSteps(Init(threads, bound), steps, p);
  }

  /** A worker exits only from a stopping pool with nothing queued, and sleeps only
      if it found nothing queued in an open one. */
  lemma {:induction false} WorkersLeaveIff(threads: nat, bound: nat, steps: seq<Step>, p: Pool, w: nat)
    requires threads > 0 && bound > 0 && Reaches(Init(threads, bound), steps, p) && Enabled(p, Look(w))
    ensures var next := Next(p, Look(w)).workers[w];
            && (next == Exited <==> Stopped(steps) && |p.accepted| == |p.started| + |p.discarded|)
            && (next == Asleep <==> !Stopped(steps) && |p.accepted| == |p.started|)
            && (next.Running? ==> |p.started| < |p.accepted| && next.task == p.accepted[|p.started|])
  {
    Reachable(threads, bound, steps, p);
    CountersAreSteps(Init(threads, bound), steps, p);
  }
}
