/** The worker pool as a system of atomic steps. A step is what one thread does
    between two points where another thread may run: one critical section, one
    notification, one wake-up, one task body. */
module ThreadPool {

  /** A task is named by the number of the post call that submitted it. */
  type TaskId = nat

  datatype Worker =
    | AtLock               // about to take the mutex and evaluate the wait predicate
    | Asleep               // inside the condition variable's wait
    | Running(task: TaskId)
    | Exited

  datatype ShutdownPolicy = Drain | Discard

  /** How far the first shutdown call has got; `stopping_` is true from Flagged on. */
  datatype Stage = Open | Flagged | Notified | Joined

  datatype Pool = Pool(
    bound: nat, queue: seq<TaskId>, workers: seq<Worker>, stage: Stage,
    pendingNotifies: nat,  // posters that have pushed but not yet called notify_one
    posted: nat, rejected: nat, completed: nat, exceptions: nat,
    // history, for stating the properties
    calls: nat, accepted: seq<TaskId>, started: seq<TaskId>, done: multiset<TaskId>, threw: multiset<TaskId>,
    discarded: seq<TaskId>)

  datatype Step =
    | Post                              // the locked part of post
    | NotifyOne(sleeper: nat)           // wakes that worker if it sleeps, else nobody
    | SpuriousWake(worker: nat)
    | Look(worker: nat)                 // lock, evaluate the predicate, act on it
    | Finish(worker: nat, ok: bool)     // a task body returned or threw
    | BeginShutdown(policy: ShutdownPolicy)
    | NotifyAll
    | Join
    | ShutdownAgain                     // any later shutdown call: returns at once

  function Init(threads: nat, bound: nat): Pool {
    Pool(bound, [], AllAtLock(threads), Open, 0, 0, 0, 0, 0, 0, [], [], multiset{}, multiset{}, [])
  }

  function AllAtLock(n: nat): (ws: seq<Worker>)
    ensures |ws| == n && forall i :: 0 <= i < n ==> ws[i] == AtLock
  {
    if n == 0 then [] else AllAtLock(n - 1) + [AtLock]
  }

  predicate Enabled(p: Pool, s: Step) {
    match s
    case Post => true
    case NotifyOne(w) =>
      // the condition variable wakes a sleeper whenever there is one
      p.pendingNotifies > 0 && w < |p.workers| &&
      (p.workers[w] == Asleep || forall i :: 0 <= i < |p.workers| ==> p.workers[i] != Asleep)
    case SpuriousWake(w) => w < |p.workers| && p.workers[w] == Asleep
    case Look(w) => w < |p.workers| && p.workers[w] == AtLock
    case Finish(w, _) => w < |p.workers| && p.workers[w].Running?
    case BeginShutdown(_) => p.stage == Open
    case NotifyAll => p.stage == Flagged
    case Join => p.stage == Notified && forall i :: 0 <= i < |p.workers| ==> p.workers[i] == Exited
    case ShutdownAgain => p.stage != Open
  }

  function Next(p: Pool, s: Step): Pool
    requires Enabled(p, s)
  {
    match s
    case Post =>
      var p := p.(calls := p.calls + 1);
      if p.stage != Open || |p.queue| >= p.bound then p.(rejected := p.rejected + 1)
      else
        var task := p.calls - 1;
        p.(queue := p.queue + [task], accepted := p.accepted + [task], posted := p.posted + 1,
           pendingNotifies := p.pendingNotifies + 1)
    case NotifyOne(w) =>
      p.(pendingNotifies := p.pendingNotifies - 1,
         workers := if p.workers[w] == Asleep then p.workers[w := AtLock] else p.workers)
    case SpuriousWake(w) => p.(workers := p.workers[w := AtLock])
    case Look(w) =>
      if p.stage == Open && p.queue == [] then p.(workers := p.workers[w := Asleep])
      else if p.queue == [] then p.(workers := p.workers[w := Exited])
      else
        p.(workers := p.workers[w := Running(p.queue[0])], queue := p.queue[1..],
           started := p.started + [p.queue[0]])
    case Finish(w, ok) =>
      var task, p := p.workers[w].task, p.(workers := p.workers[w := AtLock]);
      if ok then p.(done := p.done + multiset{task}, completed := p.completed + 1)
      else p.(threw := p.threw + multiset{task}, exceptions := p.exceptions + 1)
    case BeginShutdown(policy) =>
      var p := p.(stage := Flagged);
      if policy == Discard then p.(queue := [], discarded := p.queue) else p
    case NotifyAll => p.(stage := Notified, workers := WakeAll(p.workers))
    case Join => p.(stage := Joined)
    case ShutdownAgain => p
  }

  function WakeAll(ws: seq<Worker>): (r: seq<Worker>)
    ensures |r| == |ws|
    ensures forall i :: 0 <= i < |ws| ==> r[i] == if ws[i] == Asleep then AtLock else ws[i]
  {
    if ws == [] then []
    else [if ws[0] == Asleep then AtLock else ws[0]] + WakeAll(ws[1..])
  }

  /** The pool after a schedule, if every step of it could be taken. */
  ghost predicate Reaches(p: Pool, steps: seq<Step>, q: Pool)
    decreases |steps|
  {
    if steps == [] then p == q
    else Enabled(p, steps[0]) && Reaches(Next(p, steps[0]), steps[1..], q)
  }

  // -------------------------------------------------------------------------
  // Counting workers
  // -------------------------------------------------------------------------

  /** Workers on their way to look at the queue. */
  function Looking(ws: seq<Worker>): nat {
    if ws == [] then 0 else (if ws[0] == AtLock then 1 else 0) + Looking(ws[1..])
  }

  function TaskOf(w: Worker): multiset<TaskId> {
    if w.Running? then multiset{w.task} else multiset{}
  }

  function InFlight(ws: seq<Worker>): multiset<TaskId> {
    if ws == [] then multiset{} else TaskOf(ws[0]) + InFlight(ws[1..])
  }

  lemma {:induction false} LookingMoves(ws: seq<Worker>, i: nat, w: Worker)
    requires i < |ws|
    ensures Looking(ws[i := w]) == Looking(ws) - Looking([ws[i]]) + Looking([w])
  {
    if i == 0 {
      assert ws[i := w][1..] == ws[1..];
    } else {
      LookingMoves(ws[1..], i - 1, w);
      assert ws[i := w][1..] == ws[1..][i - 1 := w];
    }
  }

  lemma {:induction false} InFlightMoves(ws: seq<Worker>, i: nat, w: Worker)
    requires i < |ws|
    ensures InFlight(ws[i := w]) + TaskOf(ws[i]) == InFlight(ws) + TaskOf(w)
  {
    hide TaskOf;
    if i == 0 {
      assert ws[i := w][1..] == ws[1..];
    } else {
      InFlightMoves(ws[1..], i - 1, w);
      assert ws[i := w][1..] == ws[1..][i - 1 := w];
      var rest, rest' := InFlight(ws[1..]), InFlight(ws[1..][i - 1 := w]);
      assert TaskOf(ws[0]) + rest' + TaskOf(ws[i]) == TaskOf(ws[0]) + (rest' + TaskOf(ws[i]));
    }
  }

  lemma InFlightStays(ws: seq<Worker>, i: nat, w: Worker)
    requires i < |ws| && !ws[i].Running? && !w.Running?
    ensures InFlight(ws[i := w]) == InFlight(ws)
  {
    InFlightMoves(ws, i, w);
    var a, b := InFlight(ws[i := w]), InFlight(ws);
    hide InFlight;
    assert a + multiset{} == a && b + multiset{} == b;
  }

  lemma InFlightStarts(ws: seq<Worker>, i: nat, t: TaskId)
    requires i < |ws| && !ws[i].Running?
    ensures InFlight(ws[i := Running(t)]) == InFlight(ws) + multiset{t}
  {
    InFlightMoves(ws, i, Running(t));
    var a := InFlight(ws[i := Running(t)]);
    hide InFlight;
    assert a + multiset{} == a;
  }

  lemma InFlightEnds(ws: seq<Worker>, i: nat)
    requires i < |ws| && ws[i].Running?
    ensures InFlight(ws) == InFlight(ws[i := AtLock]) + multiset{ws[i].task}
  {
    InFlightMoves(ws, i, AtLock);
    var a := InFlight(ws);
    hide InFlight;
    assert a + multiset{} == a;
  }

  lemma {:induction false} WakeAllKeepsInFlight(ws: seq<Worker>)
    ensures InFlight(WakeAll(ws)) == InFlight(ws) && Looking(WakeAll(ws)) >= Looking(ws)
  {
    if ws != [] { WakeAllKeepsInFlight(ws[1..]); }
  }

  lemma {:induction false} NothingInFlight(ws: seq<Worker>)
    requires forall i :: 0 <= i < |ws| ==> !ws[i].Running?
    ensures InFlight(ws) == multiset{}
  {
    if ws != [] { NothingInFlight(ws[1..]); }
  }

  lemma {:induction false} NobodyLooking(ws: seq<Worker>)
    requires forall i :: 0 <= i < |ws| ==> ws[i] != AtLock
    ensures Looking(ws) == 0
  {
    if ws != [] { NobodyLooking(ws[1..]); }
  }

  // -------------------------------------------------------------------------
  // Invariants
  // -------------------------------------------------------------------------

  /** Every accepted task is started, queued or discarded, in the order of
      acceptance ... */
  ghost predicate Ordered(p: Pool) {
    && |p.queue| <= p.bound
    && p.accepted == p.started + p.queue + p.discarded
    && (p.discarded != [] ==> p.queue == [])
    && (p.stage == Open ==> p.discarded == [])
    && (forall i :: 0 <= i < |p.accepted| ==> p.accepted[i] < p.calls)
    && (forall i, j :: 0 <= i < j < |p.accepted| ==> p.accepted[i] < p.accepted[j])
    && p.posted == |p.accepted| && p.posted + p.rejected == p.calls
  }

  /** ... and every started one is in flight, completed or threw. */
  ghost predicate Accounted(p: Pool) {
    && multiset(p.started) == InFlight(p.workers) + p.done + p.threw
    && p.completed == |p.done| && p.exceptions == |p.threw|
  }

  ghost predicate SomeAsleep(p: Pool) {
    exists i :: 0 <= i < |p.workers| && p.workers[i] == Asleep
  }

  /** While anyone sleeps, every queued task has its own wake-up on the way:
      a notification still to be delivered or a worker about to look. */
  ghost predicate Wakeups(p: Pool) {
    && |p.workers| > 0 && p.bound > 0
    && (SomeAsleep(p) ==> |p.queue| <= p.pendingNotifies + Looking(p.workers))
    && (forall i :: 0 <= i < |p.workers| && p.workers[i] == Exited ==> p.stage != Open && p.queue == [])
    && (p.stage.Notified? || p.stage.Joined? ==> !SomeAsleep(p))
    && (p.stage.Joined? ==> forall i :: 0 <= i < |p.workers| ==> p.workers[i] == Exited)
  }

  lemma TakeRegroups(a: seq<TaskId>, b: seq<TaskId>, c: seq<TaskId>)
    requires b != []
    ensures a + b + c == a + [b[0]] + b[1..] + c
  {
    assert b == [b[0]] + b[1..];
  }

  lemma StepKeepsOrder(p: Pool, s: Step)
    requires Ordered(p) && Enabled(p, s)
    ensures Ordered(Next(p, s))
  {
    var q := Next(p, s);
    if s.Look? && p.queue != [] {
      TakeRegroups(p.started, p.queue, p.discarded);
    } else if s.BeginShutdown? {
      assert p.started + p.queue + [] == p.started + [] + p.queue;
    } else if s.Post? {
      assert q.accepted == q.started + q.queue + q.discarded;
    }
  }

  lemma Regroup(a: multiset<TaskId>, t: multiset<TaskId>, d: multiset<TaskId>, h: multiset<TaskId>)
    ensures a + t + d + h == a + (d + t) + h == a + d + (h + t)
  {
  }

  lemma FinishKeepsAccounts(p: Pool, w: nat, ok: bool)
    requires Accounted(p) && Enabled(p, Finish(w, ok))
    ensures Accounted(Next(p, Finish(w, ok)))
  {
    var ws := p.workers[w := AtLock];
    InFlightEnds(p.workers, w);
    Regroup(InFlight(ws), multiset{p.workers[w].task}, p.done, p.threw);
  }

  lemma LookKeepsAccounts(p: Pool, w: nat)
    requires Accounted(p) && Enabled(p, Look(w))
    ensures Accounted(Next(p, Look(w)))
  {
    if p.queue == [] {
      InFlightStays(p.workers, w, Next(p, Look(w)).workers[w]);
    } else {
      InFlightStarts(p.workers, w, p.queue[0]);
    }
  }

  lemma StepKeepsAccounts(p: Pool, s: Step)
    requires Accounted(p) && Enabled(p, s)
    ensures Accounted(Next(p, s))
  {
    hide InFlight;
    match s
    case NotifyOne(w) => if p.workers[w] == Asleep { InFlightStays(p.workers, w, AtLock); }
    case SpuriousWake(w) => InFlightStays(p.workers, w, AtLock);
    case Look(w) => LookKeepsAccounts(p, w);
    case Finish(w, ok) => FinishKeepsAccounts(p, w, ok);
    case NotifyAll => WakeAllKeepsInFlight(p.workers);
    case _ =>
  }

  lemma MoveKeepsWakeups(p: Pool, s: Step)
    requires Wakeups(p) && Enabled(p, s) && (s.Look? || s.Finish? || s.SpuriousWake?)
    ensures Wakeups(Next(p, s))
  {
    var q, w := Next(p, s), s.worker;
    LookingMoves(p.workers, w, q.workers[w]);
    assert forall i :: 0 <= i < |p.workers| && i != w ==> q.workers[i] == p.workers[i];
    if SomeAsleep(q) && !SomeAsleep(p) {
      assert q.workers[w] == Asleep && q.queue == [];
    }
  }

  lemma StepKeepsWakeups(p: Pool, s: Step)
    requires Wakeups(p) && Enabled(p, s)
    ensures Wakeups(Next(p, s))
  {
    var q := Next(p, s);
    match s
    case NotifyOne(w) =>
      LookingMoves(p.workers, w, AtLock);
      assert forall i :: 0 <= i < |p.workers| && i != w ==> q.workers[i] == p.workers[i];
    case SpuriousWake(w) => MoveKeepsWakeups(p, s);
    case Look(w) => MoveKeepsWakeups(p, s);
    case Finish(w, ok) => MoveKeepsWakeups(p, s);
    case _ =>
  }

  lemma {:induction false} RunKeeps(p: Pool, steps: seq<Step>, q: Pool)
    requires Ordered(p) && Accounted(p) && Wakeups(p) && Reaches(p, steps, q)
    ensures Ordered(q) && Accounted(q) && Wakeups(q)
    decreases |steps|
  {
    if steps != [] {
      StepKeepsOrder(p, steps[0]);
      StepKeepsAccounts(p, steps[0]);
      StepKeepsWakeups(p, steps[0]);
      RunKeeps(Next(p, steps[0]), steps[1..], q);
    }
  }

  /** What a run of a fresh pool can reach. */
  lemma {:induction false} Reachable(threads: nat, bound: nat, steps: seq<Step>, p: Pool)
    requires threads > 0 && bound > 0 && Reaches(Init(threads, bound), steps, p)
    ensures Ordered(p) && Accounted(p) && Wakeups(p)
  {
    NothingInFlight(AllAtLock(threads));
    RunKeeps(Init(threads, bound), steps, p);
  }

  // -------------------------------------------------------------------------
  // Theorems
  // -------------------------------------------------------------------------

  /** No lost wake-up, over all interleavings: with a task queued and every
      notification delivered, some worker is awake; and more is true, no worker
      sleeps while there are more tasks than wake-ups on the way. */
  lemma {:induction false} NoLostWakeup(threads: nat, bound: nat, steps: seq<Step>, p: Pool)
    requires threads > 0 && bound > 0 && Reaches(Init(threads, bound), steps, p)
    ensures p.queue != [] && p.pendingNotifies == 0 ==>
              exists i :: 0 <= i < |p.workers| && (p.workers[i] == AtLock || p.workers[i].Running?)
    ensures |p.queue| > p.pendingNotifies + Looking(p.workers) ==> !SomeAsleep(p)
  {
    Reachable(threads, bound, steps, p);
    if p.queue != [] && p.pendingNotifies == 0 {
      if forall i :: 0 <= i < |p.workers| ==> p.workers[i] != AtLock {
        NobodyLooking(p.workers);
        assert p.workers[0].Running?;
      }
    }
  }

  /** Exactly-once accounting and first-in-first-out start order. */
  lemma {:induction false} ExactlyOnce(threads: nat, bound: nat, steps: seq<Step>, p: Pool)
    requires threads > 0 && bound > 0 && Reaches(Init(threads, bound), steps, p)
    ensures p.accepted == p.started + p.queue + p.discarded
    ensures forall t :: multiset(p.accepted)[t] <= 1
    ensures multiset(p.accepted) == InFlight(p.workers) + p.done + p.threw
                                    + multiset(p.queue) + multiset(p.discarded)
    ensures p.posted == |InFlight(p.workers)| + p.completed + p.exceptions + |p.queue| + |p.discarded|
    ensures p.posted + p.rejected == p.calls && |p.queue| <= p.bound
  {
    Reachable(threads, bound, steps, p);
    IncreasingIsDistinct(p.accepted);
    SplitMultiset(p.started, p.queue, p.discarded);
    assert |multiset(p.accepted)| == |p.accepted|;
  }

  lemma SplitMultiset(a: seq<TaskId>, b: seq<TaskId>, c: seq<TaskId>)
    ensures multiset(a + b + c) == multiset(a) + multiset(b) + multiset(c)
  {
  }

  lemma {:induction false} IncreasingIsDistinct(s: seq<TaskId>)
    requires forall i, j :: 0 <= i < j < |s| ==> s[i] < s[j]
    ensures forall t :: multiset(s)[t] <= 1
  {
    if s != [] {
      var n := |s| - 1;
      IncreasingIsDistinct(s[..n]);
      assert s == s[..n] + [s[n]];
      assert forall t :: t in s[..n] ==> t < s[n];
      assert multiset(s) == multiset(s[..n]) + multiset{s[n]};
      assert s[n] !in s[..n];
      assert multiset(s[..n])[s[n]] == 0;
    }
  }

  ghost predicate AllExited(p: Pool) {
    forall i :: 0 <= i < |p.workers| ==> p.workers[i] == Exited
  }

  /** Only the Discard policy throws queued tasks away. */
  lemma {:induction false} DrainDiscardsNothing(p: Pool, steps: seq<Step>, q: Pool)
    requires Reaches(p, steps, q) && BeginShutdown(Discard) !in steps
    ensures q.discarded == p.discarded
    decreases |steps|
  {
    if steps != [] {
      assert steps[0] in steps;
      DrainDiscardsNothing(Next(p, steps[0]), steps[1..], q);
    }
  }

  /** Once the first shutdown call has joined, all workers are gone and nothing is
      queued or in flight: what was not discarded has run, exactly once, and if no
      call asked to discard, that is every accepted task. */
  lemma {:induction false} JoinedMeansAllRan(threads: nat, bound: nat, steps: seq<Step>, p: Pool)
    requires threads > 0 && bound > 0 && Reaches(Init(threads, bound), steps, p)
    requires p.stage == Joined
    ensures AllExited(p)
    ensures p.queue == [] && InFlight(p.workers) == multiset{}
    ensures multiset(p.accepted) == p.done + p.threw + multiset(p.discarded)
    ensures BeginShutdown(Discard) !in steps ==> p.done + p.threw == multiset(p.accepted)
  {
    if BeginShutdown(Discard) !in steps {
      DrainDiscardsNothing(Init(threads, bound), steps, p);
    }
    Reachable(threads, bound, steps, p);
    NothingInFlight(p.workers);
    assert p.workers[0] == Exited;
    SplitMultiset(p.started, p.queue, p.discarded);
  }

  /** Work left once stopping: tasks to take, tasks to finish, workers to exit. */
  function Remaining(p: Pool): nat {
    3 * |p.queue| + p.pendingNotifies + Weight(p.workers)
  }

  function Weight(ws: seq<Worker>): nat {
    if ws == [] then 0
    else (match ws[0] case AtLock => 1 case Running(_) => 2 case Asleep => 2 case Exited => 0) + Weight(ws[1..])
  }

  lemma {:induction false} WeightMoves(ws: seq<Worker>, i: nat, w: Worker)
    requires i < |ws|
    ensures Weight(ws[i := w]) == Weight(ws) - Weight([ws[i]]) + Weight([w])
  {
    if i == 0 {
      assert ws[i := w][1..] == ws[1..];
    } else {
      WeightMoves(ws[1..], i - 1, w);
      assert ws[i := w][1..] == ws[1..][i - 1 := w];
    }
  }

  lemma {:induction false} WakeAllWeighsLess(ws: seq<Worker>)
    ensures Weight(WakeAll(ws)) <= Weight(ws)
  {
    if ws != [] { WakeAllWeighsLess(ws[1..]); }
  }

  predicate IsWorkerStep(s: Step) {
    s.Look? || s.Finish? || s.NotifyOne? || s.SpuriousWake?
  }

  /** How many steps of a schedule are the pool's own; the others are calls made
      to it and the progress of the shutdown call. */
  function WorkerSteps(steps: seq<Step>): nat {
    if steps == [] then 0 else (if IsWorkerStep(steps[0]) then 1 else 0) + WorkerSteps(steps[1..])
  }

  lemma WorkerStepDecreases(p: Pool, s: Step)
    requires Wakeups(p) && p.stage != Open && Enabled(p, s)
    ensures var q := Next(p, s);
            && (IsWorkerStep(s) ==> Remaining(q) < Remaining(p))
            && (!IsWorkerStep(s) ==> Remaining(q) <= Remaining(p))
            && q.stage != Open
  {
    var q := Next(p, s);
    if s.Look? || s.Finish? || s.SpuriousWake? {
      WeightMoves(p.workers, s.worker, q.workers[s.worker]);
    } else if s.NotifyOne? {
      WeightMoves(p.workers, s.sleeper, AtLock);
    } else if s.NotifyAll? {
      WakeAllWeighsLess(p.workers);
    }
  }

  /** From the moment stopping is flagged, every schedule, whatever calls race
      with the workers, holds a bounded number of worker steps. */
  lemma {:induction false} ShutdownIsBounded(p: Pool, steps: seq<Step>, q: Pool)
    requires Wakeups(p) && p.stage != Open && Reaches(p, steps, q)
    ensures WorkerSteps(steps) + Remaining(q) <= Remaining(p)
    decreases |steps|
  {
    if steps != [] {
      StepKeepsWakeups(p, steps[0]);
      WorkerStepDecreases(p, steps[0]);
      ShutdownIsBounded(Next(p, steps[0]), steps[1..], q);
    }
  }

  lemma {:induction false} Prepend(p: Pool, s: Step, rest: seq<Step>, q: Pool)
    requires Enabled(p, s) && Reaches(Next(p, s), rest, q)
    ensures Reaches(p, [s] + rest, q)
  {
    assert ([s] + rest)[1..] == rest;
  }

  /** If tasks terminate, the workers do: wherever a stopping pool has got to, it
      can go on until every worker has exited and the join returns. */
  lemma {:induction false} ShutdownCompletes(p: Pool) returns (steps: seq<Step>, q: Pool)
    requires Wakeups(p) && (p.stage == Flagged || p.stage == Notified)
    ensures Reaches(p, steps, q) && q.stage == Joined
    decreases Remaining(p), p.stage == Flagged
  {
    var s: Step;
    if p.stage == Flagged {
      s := NotifyAll;
    } else if w :| 0 <= w < |p.workers| && p.workers[w] != Exited {
      s := if p.workers[w].Running? then Finish(w, true) else Look(w);
      assert Enabled(p, s) by { assert p.workers[w] != Asleep; }
    } else {
      s := Join;
    }
    StepKeepsWakeups(p, s);
    WorkerStepDecreases(p, s);
    var rest;
    if s == Join {
      rest, q := [], Next(p, Join);
    } else {
      rest, q := ShutdownCompletes(Next(p, s));
    }
    steps := [s] + rest;
    Prepend(p, s, rest, q);
  }

  // -------------------------------------------------------------------------
  // Which shutdown calls join
  // -------------------------------------------------------------------------

  /** A shutdown call that takes the lock in `p` can have returned in `q`: the
      call that finds the pool open after its join, any later one at once. */
  ghost predicate ShutdownReturns(p: Pool, policy: ShutdownPolicy, steps: seq<Step>, q: Pool) {
    if p.stage == Open then Reaches(Next(p, BeginShutdown(policy)), steps, q) && q.stage == Joined
    else Reaches(Next(p, ShutdownAgain), steps, q)
  }

  /** However the other threads run, the call returns to a pool without workers. */
  ghost predicate AlwaysJoins(p: Pool, policy: ShutdownPolicy) {
    forall steps, q :: ShutdownReturns(p, policy, steps, q) ==> AllExited(q)
  }

  lemma {:induction false} ExitedStays(p: Pool, steps: seq<Step>, q: Pool)
    requires AllExited(p) && Reaches(p, steps, q)
    ensures AllExited(q)
    decreases |steps|
  {
    if steps != [] { ExitedStays(Next(p, steps[0]), steps[1..], q); }
  }

  /** "shutdown joins every worker" holds of a call exactly if it is the first,
      which `is_shutting_down` tells beforehand, or the workers are gone anyway;
      and every call can return. */
  lemma {:induction false} ShutdownJoinsIff(threads: nat, bound: nat, steps: seq<Step>, p: Pool, policy: ShutdownPolicy)
    requires threads > 0 && bound > 0 && Reaches(Init(threads, bound), steps, p)
    ensures AlwaysJoins(p, policy) <==> p.stage == Open || AllExited(p)
    ensures exists rest, q :: ShutdownReturns(p, policy, rest, q)
  {
    Reachable(threads, bound, steps, p);
    if p.stage == Open {
      var flagged := Next(p, BeginShutdown(policy));
      StepKeepsWakeups(p, BeginShutdown(policy));
      var rest, q := ShutdownCompletes(flagged);
      assert ShutdownReturns(p, policy, rest, q);
      forall rest, q | ShutdownReturns(p, policy, rest, q) ensures AllExited(q) {
        JoinedHasExited(flagged, rest, q);
      }
    } else {
      var again := Next(p, ShutdownAgain);
      assert ShutdownReturns(p, policy, [], again);
      if AllExited(p) {
        forall rest, q | ShutdownReturns(p, policy, rest, q) ensures AllExited(q) {
          ExitedStays(again, rest, q);
        }
      }
    }
  }

  lemma {:induction false} JoinedHasExited(p: Pool, steps: seq<Step>, q: Pool)
    requires Wakeups(p) && Reaches(p, steps, q) && q.stage == Joined
    ensures AllExited(q)
    decreases |steps|
  {
    if steps != [] {
      StepKeepsWakeups(p, steps[0]);
      JoinedHasExited(Next(p, steps[0]), steps[1..], q);
    }
  }

  /** In every pool a second call can find a task running, and so return without
      having joined the worker that runs it. */
  lemma LaterShutdownDoesNotJoin(threads: nat, bound: nat) returns (steps: seq<Step>, p: Pool)
    requires threads > 0 && bound > 0
    ensures Reaches(Init(threads, bound), steps, p)
    ensures p.stage != Open && |p.workers| > 0 && p.workers[0].Running? && !AlwaysJoins(p, Drain)
  {
    var p0 := Init(threads, bound);
    var p1 := Next(p0, Post);
    var p2 := Next(p1, Look(0));
    p := Next(p2, BeginShutdown(Drain));
    assert Reaches(p, [], p);
    Prepend(p2, BeginShutdown(Drain), [], p);
    Prepend(p1, Look(0), [BeginShutdown(Drain)] + [], p);
    Prepend(p0, Post, [Look(0)] + ([BeginShutdown(Drain)] + []), p);
    steps := [Post] + ([Look(0)] + ([BeginShutdown(Drain)] + []));
    ShutdownJoinsIff(threads, bound, steps, p, Drain);
  }
}
