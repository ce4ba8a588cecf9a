/** Waiting for a connection: callers that find neither an idle connection nor a
    free slot sleep on the pool's condition variable until one is given back, the
    wait expires, or they wake for no reason. */
module ClientWaiting {
  import opened SdkPool

  datatype Caller =
    | Away
    | AtLock(expired: bool)   // about to take the mutex and evaluate the wait predicate
    | Asleep
    | Opening                 // has a slot and is connecting
    | Using(conn: nat)

  datatype Waiters = Waiters(pool: Pool, max: nat, callers: seq<Caller>, created: nat)

  datatype Step =
    | Arrive(i: nat)
    | Look(i: nat)
    | SpuriousWake(i: nat)
    | Expire(i: nat)
    | OpenOk(i: nat)
    | OpenFails(i: nat, wake: nat)                  // gives the slot back and notifies, under the lock
    | GiveUp(i: nat, healthy: bool, wake: nat)      // the end of a checkout, likewise

  function Init(max: nat, callers: nat): Waiters {
    Waiters(Pool([0], 1), max, AllAway(callers), 1)
  }

  function AllAway(n: nat): (r: seq<Caller>)
    ensures |r| == n && forall i :: 0 <= i < n ==> r[i] == Away
  {
    if n == 0 then [] else AllAway(n - 1) + [Away]
  }

  ghost predicate SomeAsleep(callers: seq<Caller>) {
    exists i :: 0 <= i < |callers| && callers[i] == Asleep
  }

  /** notify_one wakes a sleeper whenever there is one. */
  ghost predicate Wakes(callers: seq<Caller>, k: nat) {
    if SomeAsleep(callers) then k < |callers| && callers[k] == Asleep else true
  }

  function Notified(callers: seq<Caller>, k: nat): (r: seq<Caller>)
    ensures |r| == |callers|
  {
    if k < |callers| && callers[k] == Asleep then callers[k := AtLock(false)] else callers
  }

  predicate IsAt(w: Waiters, i: nat, c: Caller) {
    i < |w.callers| && w.callers[i] == c
  }

  ghost predicate Enabled(w: Waiters, s: Step) {
    match s
    case Arrive(i) => IsAt(w, i, Away)
    case Look(i) => i < |w.callers| && w.callers[i].AtLock?
    case SpuriousWake(i) => IsAt(w, i, Asleep)
    case Expire(i) => IsAt(w, i, Asleep)
    case OpenOk(i) => IsAt(w, i, Opening)
    case OpenFails(i, k) => IsAt(w, i, Opening) && 0 < w.pool.total && Wakes(w.callers, k)
    case GiveUp(i, _, k) =>
      i < |w.callers| && w.callers[i].Using? && 0 < w.pool.total && Wakes(w.callers, k)
  }

  function Move(w: Waiters, i: nat, c: Caller): Waiters
    requires i < |w.callers|
  {
    w.(callers := w.callers[i := c])
  }

  ghost function Next(w: Waiters, s: Step): Waiters
    requires Enabled(w, s)
  {
    match s
    case Arrive(i) => Move(w, i, AtLock(false))
    case Look(i) =>
      var (pool, got) := Acquire(w.pool, w.max);
      (match got
       case Idle(c) => Move(w, i, Using(c))
       case Slot => Move(w, i, Opening)
       case Busy => Move(w, i, if w.callers[i].expired then Away else Asleep)).(pool := pool)
    case SpuriousWake(i) => Move(w, i, AtLock(false))
    case Expire(i) => Move(w, i, AtLock(true))
    case OpenOk(i) => Move(w, i, Using(w.created)).(created := w.created + 1)
    case OpenFails(i, k) => w.(pool := GiveBack(w.pool), callers := Notified(w.callers[i := Away], k))
    case GiveUp(i, healthy, k) =>
      w.(pool := Release(w.pool, w.callers[i].conn, healthy), callers := Notified(w.callers[i := Away], k))
  }

  ghost predicate Reaches(w: Waiters, steps: seq<Step>, v: Waiters)
    decreases |steps|
  {
    if steps == [] then w == v
    else Enabled(w, steps[0]) && Reaches(Next(w, steps[0]), steps[1..], v)
  }

  // -------------------------------------------------------------------------
  // Counting callers
  // -------------------------------------------------------------------------

  function LooksAt(c: Caller): nat { if c.AtLock? then 1 else 0 }

  function Occupies(c: Caller): nat { if c.Opening? || c.Using? then 1 else 0 }

  function Looking(callers: seq<Caller>): nat {
    if callers == [] then 0 else LooksAt(callers[0]) + Looking(callers[1..])
  }

  function InUse(callers: seq<Caller>): nat {
    if callers == [] then 0 else Occupies(callers[0]) + InUse(callers[1..])
  }

  lemma {:induction false} CountsMove(callers: seq<Caller>, i: nat, c: Caller)
    requires i < |callers|
    ensures Looking(callers[i := c]) + LooksAt(callers[i]) == Looking(callers) + LooksAt(c)
    ensures InUse(callers[i := c]) + Occupies(callers[i]) == InUse(callers) + Occupies(c)
    ensures Occupies(callers[i]) <= InUse(callers) && LooksAt(callers[i]) <= Looking(callers)
  {
    hide LooksAt;
    hide Occupies;
    if i == 0 {
      assert callers[i := c][1..] == callers[1..];
    } else {
      CountsMove(callers[1..], i - 1, c);
      assert callers[i := c][1..] == callers[1..][i - 1 := c];
    }
  }

  lemma {:induction false} NobodyCounted(callers: seq<Caller>)
    ensures (forall i :: 0 <= i < |callers| ==> !callers[i].AtLock?) ==> Looking(callers) == 0
    ensures (forall i :: 0 <= i < |callers| ==> !callers[i].Opening? && !callers[i].Using?) ==> InUse(callers) == 0
  {
    if callers != [] {
      NobodyCounted(callers[1..]);
      assert forall i :: 0 <= i < |callers[1..]| ==> callers[1..][i] == callers[i + 1];
    }
  }

  // -------------------------------------------------------------------------
  // What every step keeps
  // -------------------------------------------------------------------------

  /** Connections to be had: idle ones and free slots. */
  function Available(w: Waiters): int {
    |w.pool.idle| + (w.max - w.pool.total)
  }

  /** Every connection counted is idle, in use or being opened; and while anyone
      sleeps, every connection to be had has a caller on its way to look. */
  ghost predicate Inv(w: Waiters) {
    && w.pool.total == |w.pool.idle| + InUse(w.callers) && w.pool.total <= w.max && 1 <= w.max
    && (SomeAsleep(w.callers) ==> Available(w) <= Looking(w.callers))
  }

  lemma AsleepBefore(callers: seq<Caller>, i: nat, c: Caller)
    requires i < |callers| && c != Asleep && SomeAsleep(callers[i := c])
    ensures SomeAsleep(callers)
  {
    var j :| 0 <= j < |callers| && callers[i := c][j] == Asleep;
    assert callers[j] == Asleep;
  }

  lemma MoveKeeps(w: Waiters, s: Step)
    requires Inv(w) && Enabled(w, s) && (s.Arrive? || s.SpuriousWake? || s.Expire? || s.OpenOk?)
    ensures Inv(Next(w, s))
  {
    var c := Next(w, s).callers[s.i];
    CountsMove(w.callers, s.i, c);
    if SomeAsleep(Next(w, s).callers) { AsleepBefore(w.callers, s.i, c); }
  }

  lemma LookKeeps(w: Waiters, i: nat)
    requires Inv(w) && Enabled(w, Look(i))
    ensures Inv(Next(w, Look(i)))
  {
    var v := Next(w, Look(i));
    CountsMove(w.callers, i, v.callers[i]);
    if SomeAsleep(v.callers) && v.callers[i] != Asleep { AsleepBefore(w.callers, i, v.callers[i]); }
  }

  /** What is given back comes with a wake-up, if anyone sleeps. */
  lemma GivenBackKeeps(w: Waiters, i: nat, k: nat, pool: Pool)
    requires Inv(w) && i < |w.callers| && (w.callers[i].Opening? || w.callers[i].Using?) && Wakes(w.callers, k)
    requires pool.total <= w.pool.total && pool.total - |pool.idle| == w.pool.total - |w.pool.idle| - 1
    requires |pool.idle| - pool.total == |w.pool.idle| - w.pool.total + 1
    ensures Inv(w.(pool := pool, callers := Notified(w.callers[i := Away], k)))
  {
    var mid := w.callers[i := Away];
    CountsMove(w.callers, i, Away);
    if SomeAsleep(w.callers) {
      CountsMove(mid, k, AtLock(false));
    } else if k < |mid| && mid[k] == Asleep {
      AsleepBefore(w.callers, i, Away);
    } else if SomeAsleep(mid) {
      AsleepBefore(w.callers, i, Away);
    }
  }

  lemma StepKeeps(w: Waiters, s: Step)
    requires Inv(w) && Enabled(w, s)
    ensures Inv(Next(w, s))
  {
    hide Inv;
    match s
    case Look(i) => LookKeeps(w, i);
    case OpenFails(i, k) => GivenBackKeeps(w, i, k, GiveBack(w.pool));
    case GiveUp(i, healthy, k) => GivenBackKeeps(w, i, k, Release(w.pool, w.callers[i].conn, healthy));
    case _ => MoveKeeps(w, s);
  }

  lemma {:induction false} RunKeeps(w: Waiters, steps: seq<Step>, v: Waiters)
    requires Inv(w) && Reaches(w, steps, v)
    ensures Inv(v)
    decreases |steps|
  {
    hide Inv;
    hide Enabled;
    hide Next;
    if steps != [] {
      StepKeeps(w, steps[0]);
      RunKeeps(Next(w, steps[0]), steps[1..], v);
    }
  }

  lemma {:induction false} Reachable(max: nat, callers: nat, steps: seq<Step>, w: Waiters)
    requires 1 <= max && Reaches(Init(max, callers), steps, w)
    ensures Inv(w)
  {
    NobodyCounted(AllAway(callers));
    RunKeeps(Init(max, callers), steps, w);
  }

  // -------------------------------------------------------------------------
  // Theorems
  // -------------------------------------------------------------------------

  /** No lost wake-up, over all interleavings: no caller sleeps while there are more
      connections to be had than callers on their way to look; in particular none
      sleeps beside an idle connection or a free slot once everyone woken has
      looked. */
  lemma {:induction false} NobodySleepsBesideAConnection(max: nat, callers: nat, steps: seq<Step>, w: Waiters)
    requires 1 <= max && Reaches(Init(max, callers), steps, w)
    ensures Available(w) > Looking(w.callers) ==> !SomeAsleep(w.callers)
    ensures w.pool.idle != [] || w.pool.total < max ==>
              (forall i :: 0 <= i < |w.callers| ==> !w.callers[i].AtLock?) ==> !SomeAsleep(w.callers)
  {
    hide Looking;
    Reachable(max, callers, steps, w);
    MaxStays(Init(max, callers), steps, w);
    NobodyCounted(w.callers);
  }

  lemma {:induction false} MaxStays(w: Waiters, steps: seq<Step>, v: Waiters)
    requires Reaches(w, steps, v)
    ensures v.max == w.max && |v.callers| == |w.callers|
    decreases |steps|
  {
    if steps != [] { MaxStays(Next(w, steps[0]), steps[1..], v); }
  }

  /** Whoever sleeps waits for someone: another caller is about to look, or is using
      or opening a connection that it will give back. */
  lemma {:induction false} SleepersWaitForSomeone(max: nat, callers: nat, steps: seq<Step>, w: Waiters)
    requires 1 <= max && Reaches(Init(max, callers), steps, w) && SomeAsleep(w.callers)
    ensures exists i :: 0 <= i < |w.callers| && (w.callers[i].AtLock? || w.callers[i].Opening? || w.callers[i].Using?)
  {
    Reachable(max, callers, steps, w);
    NobodyCounted(w.callers);
  }
}
