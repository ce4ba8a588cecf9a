/** Whole runs of the server: accounting, what holds once `stop_all` has returned,
    and that shutdown comes to an end. */
module ShutdownRuns {
  import opened Shutdown

  /** A state without its token. */
  function KindOf(s: State): State {
    match s
    case Reading(_) => Reading(0)
    case Handling(_) => Handling(0)
    case Done(_) => Done(0)
    case _ => s
  }

  /** How many connections are in a state. */
  function Num(conns: seq<Conn>, k: State): nat {
    if conns == [] then 0
    else Num(conns[..|conns| - 1], k) + One(conns[|conns| - 1].state, k)
  }

  function One(s: State, k: State): nat {
    if KindOf(s) == k then 1 else 0
  }

  lemma {:induction false} NumUpdate(conns: seq<Conn>, i: nat, c: Conn, k: State)
    requires i < |conns|
    ensures Num(conns[i := c], k) + One(conns[i].state, k) == Num(conns, k) + One(c.state, k)
  {
    var n := |conns| - 1;
    if i < n {
      NumUpdate(conns[..n], i, c, k);
      assert conns[i := c][..n] == conns[..n][i := c];
    } else {
      assert conns[i := c][..n] == conns[..n];
    }
  }

  lemma {:induction false} NumAppend(conns: seq<Conn>, c: Conn, k: State)
    ensures Num(conns + [c], k) == Num(conns, k) + One(c.state, k)
  {
    assert (conns + [c])[..|conns|] == conns;
  }

  function Unserved(conns: seq<Conn>): nat {
    Num(conns, InHand) + Num(conns, Queued) + Num(conns, Starting)
  }

  function Live(conns: seq<Conn>): nat {
    Num(conns, Reading(0)) + Num(conns, Handling(0))
  }

  function Finished(conns: seq<Conn>): nat {
    Num(conns, Done(0)) + Num(conns, Leaving(Completed)) + Num(conns, Closed(Completed))
  }

  function GivenUp(conns: seq<Conn>): nat {
    Num(conns, Leaving(Abandoned)) + Num(conns, Closed(Abandoned)) + Num(conns, Closed(Discarded))
  }

  predicate Ordinary(s: State) {
    s.Leaving? ==> s.outcome.Completed? || s.outcome.Abandoned?
  }

  /** Every connection is in exactly one place. */
  lemma {:induction false} EveryConnCounted(conns: seq<Conn>)
    requires forall i :: 0 <= i < |conns| ==> Ordinary(conns[i].state)
    ensures |conns| == Unserved(conns) + Live(conns) + Finished(conns) + GivenUp(conns) + Num(conns, Closed(Rejected))
  {
    if conns != [] {
      EveryConnCounted(conns[..|conns| - 1]);
      OnePlace(conns[|conns| - 1].state);
      hide One;
    }
  }

  lemma OnePlace(s: State)
    requires Ordinary(s)
    ensures One(s, InHand) + One(s, Queued) + One(s, Starting) + One(s, Reading(0)) + One(s, Handling(0))
            + One(s, Done(0)) + One(s, Leaving(Completed)) + One(s, Closed(Completed)) + One(s, Leaving(Abandoned))
            + One(s, Closed(Abandoned)) + One(s, Closed(Discarded)) + One(s, Closed(Rejected)) == 1
  {
    if s.Leaving? || s.Closed? {
      assert KindOf(s) == s;
      assert s.outcome.Rejected? || s.outcome.Completed? || s.outcome.Abandoned? || s.outcome.Discarded?;
    } else {
      assert !KindOf(s).Leaving? && !KindOf(s).Closed?;
    }
  }

  // -------------------------------------------------------------------------
  // The server's three counters
  // -------------------------------------------------------------------------

  ghost predicate Counted(w: World) {
    && w.accepted == |w.conns|
    && w.rejected == Num(w.conns, Closed(Rejected))
    && w.completed == Finished(w.conns)
  }

  lemma {:induction false} NumsUpdate(conns: seq<Conn>, i: nat, c: Conn)
    requires i < |conns|
    ensures forall k :: Num(conns[i := c], k) + One(conns[i].state, k) == Num(conns, k) + One(c.state, k)
  {
    forall k { NumUpdate(conns, i, c, k); }
  }

  lemma {:induction false} NumsAppend(conns: seq<Conn>, c: Conn)
    ensures forall k :: Num(conns + [c], k) == Num(conns, k) + One(c.state, k)
  {
    forall k { NumAppend(conns, c, k); }
  }

  /** The connection a step moves. */
  function Moved(s: Step): nat {
    match s
    case PostAccepted(i) => i
    case PostRefused(i) => i
    case Take(i) => i
    case Register(i) => i
    case Receive(i) => i
    case Reply(i) => i
    case HangUp(i) => i
    case Deregister(i) => i
    case Close(i) => i
    case DiscardOne(i) => i
    case _ => 0
  }

  predicate MovesConn(s: Step) {
    s.PostAccepted? || s.PostRefused? || s.Take? || s.Register? || s.Receive? || s.Reply? || s.HangUp?
    || s.Deregister? || s.Close? || s.DiscardOne?
  }

  lemma StepMovesOne(w: World, s: Step)
    requires Enabled(w, s) && MovesConn(s)
    ensures Moved(s) < |w.conns| == |Next(w, s).conns|
    ensures Next(w, s).conns == w.conns[Moved(s) := Next(w, s).conns[Moved(s)]]
    ensures Next(w, s).accepted == w.accepted
  {
    hide None;
    hide AllClosed;
  }

  function OneFinished(s: State): nat {
    One(s, Done(0)) + One(s, Leaving(Completed)) + One(s, Closed(Completed))
  }

  /** The counters move with the connection. */
  lemma CountersFollow(w: World, s: Step)
    requires Enabled(w, s) && MovesConn(s) && Moved(s) < |w.conns| == |Next(w, s).conns|
    requires Ordinary(w.conns[Moved(s)].state)
    ensures var w' := Next(w, s);
            var before, after := w.conns[Moved(s)].state, w'.conns[Moved(s)].state;
            && w'.rejected + One(before, Closed(Rejected)) == w.rejected + One(after, Closed(Rejected))
            && w'.completed + OneFinished(before) == w.completed + OneFinished(after)
  {
    hide None;
    hide AllClosed;
  }

  lemma MoveKeepsCounted(w: World, s: Step)
    requires Inv(w) && Counted(w) && Enabled(w, s) && MovesConn(s)
    ensures Counted(Next(w, s))
  {
    var i, w' := Moved(s), Next(w, s);
    StepMovesOne(w, s);
    assert Settled(w.phase, w.conns[i]);
    CountersFollow(w, s);
    hide Inv;
    hide Next;
    hide Enabled;
    hide Num;
    hide One;
    NumsUpdate(w.conns, i, w'.conns[i]);
  }

  lemma SweepKeepsCounted(w: World, token: nat)
    requires Inv(w) && Counted(w) && Enabled(w, SweepOne(token))
    ensures Counted(Next(w, SweepOne(token)))
  {
    SweepTouchesItsOwn(w, token);
    var i := w.holder[token];
    hide Inv;
    hide Num;
    hide One;
    NumsUpdate(w.conns, i, w.conns[i].(broken := true));
  }

  lemma StepKeepsCounted(w: World, s: Step)
    requires Inv(w) && Counted(w) && Enabled(w, s)
    ensures Counted(Next(w, s))
  {
    hide Inv;
    if MovesConn(s) {
      MoveKeepsCounted(w, s);
    } else if s.SweepOne? {
      SweepKeepsCounted(w, s.token);
    } else if s.Accept? {
      NumsAppend(w.conns, Conn(s.fd, false, InHand));
    }
  }

  // -------------------------------------------------------------------------
  // Runs
  // -------------------------------------------------------------------------

  predicate Legal(w: World, steps: seq<Step>)
    decreases |steps|
  {
    steps == [] || (Enabled(w, steps[0]) && Legal(Next(w, steps[0]), steps[1..]))
  }

  function Run(w: World, steps: seq<Step>): World
    requires Legal(w, steps)
    decreases |steps|
  {
    if steps == [] then w else Run(Next(w, steps[0]), steps[1..])
  }

  lemma {:induction false} RunKeeps(w: World, steps: seq<Step>)
    requires Legal(w, steps) && Inv(w) && Counted(w)
    ensures Inv(Run(w, steps)) && Counted(Run(w, steps))
    decreases |steps|
  {
    if steps != [] {
      var s := steps[0];
      OneStep(w, s);
      hide Enabled;
      hide Next;
      hide Inv;
      hide Counted;
      RunKeeps(Next(w, s), steps[1..]);
    }
  }

  lemma StartsWell()
    ensures Inv(START) && Counted(START)
  {
  }

  /** Every accepted connection is accounted for in every reachable state. */
  lemma {:induction false} Accounting(steps: seq<Step>)
    requires Legal(START, steps)
    ensures var w := Run(START, steps);
            w.accepted == w.rejected + Unserved(w.conns) + Live(w.conns) + w.completed + GivenUp(w.conns)
  {
    StartsWell();
    RunKeeps(START, steps);
    var w := Run(START, steps);
    assert forall i :: 0 <= i < |w.conns| ==> Settled(w.phase, w.conns[i]);
    EveryConnCounted(w.conns);
  }

  /** In every reachable state of `stop_all`, whatever descriptor it is about to
      shut down is open and belongs to the connection registered under the token. */
  lemma {:induction false} SweepIsSafe(steps: seq<Step>, token: nat)
    requires Legal(START, steps) && Enabled(Run(START, steps), SweepOne(token))
    ensures var w := Run(START, steps);
            var fd := w.registry.connections[token];
            && fd in w.open && w.open[fd].OfConn? && Holds(w.conns, w.registry, token, w.open[fd].conn)
  {
    StartsWell();
    RunKeeps(START, steps);
    SweepTouchesItsOwn(Run(START, steps), token);
  }

  /** What a world that is stopping keeps from one state to a later one: nothing
      is accepted or registered any more, and what was broken stays broken. */
  ghost predicate WindsDown(w: World, w': World) {
    && w'.registry.stopping && |w'.conns| == |w.conns|
    && w'.registry.connections.Keys <= w.registry.connections.Keys
    && forall i :: 0 <= i < |w.conns| ==>
         && (HasToken(w'.conns[i].state) ==> HasToken(w.conns[i].state))
         && (w.conns[i].broken ==> w'.conns[i].broken)
  }

  lemma StepWindsDown(w: World, s: Step)
    requires Inv(w) && Enabled(w, s) && w.registry.stopping
    ensures WindsDown(w, Next(w, s))
  {
    hide Owned;
    hide Registered;
    hide None;
    hide AllClosed;
  }

  lemma OneStep(w: World, s: Step)
    requires Enabled(w, s) && Inv(w) && Counted(w)
    ensures Inv(Next(w, s)) && Counted(Next(w, s))
  {
    StepKeepsOwned(w, s);
    StepKeepsRegistered(w, s);
    StepKeepsPhased(w, s);
    StepKeepsCounted(w, s);
  }

  lemma {:induction false} RunWindsDown(w: World, steps: seq<Step>)
    requires Legal(w, steps) && Inv(w) && Counted(w) && w.registry.stopping
    ensures WindsDown(w, Run(w, steps))
    decreases |steps|
  {
    if steps != [] {
      var s := steps[0];
      StepWindsDown(w, s);
      OneStep(w, s);
      hide Inv;
      hide Counted;
      hide Next;
      hide Enabled;
      RunWindsDown(Next(w, s), steps[1..]);
    }
  }

  /** Once `stop_all` has begun nothing registers any more, however long the run
      goes on. */
  lemma {:induction false} NothingRegistersAfter(before: seq<Step>, after: seq<Step>)
    requires Legal(START, before) && Run(START, before).registry.stopping && Legal(Run(START, before), after)
    ensures WindsDown(Run(START, before), Run(Run(START, before), after))
  {
    StartsWell();
    RunKeeps(START, before);
    RunWindsDown(Run(START, before), after);
  }

  /** Once `stop_all` has returned every connection still registered is broken. */
  lemma {:induction false} AllBrokenAfterSweep(steps: seq<Step>, i: nat)
    requires Legal(START, steps) && Past(Run(START, steps).phase) && i < |Run(START, steps).conns|
    ensures var c := Run(START, steps).conns[i]; HasToken(c.state) ==> c.broken
  {
    StartsWell();
    RunKeeps(START, steps);
    assert Settled(Run(START, steps).phase, Run(START, steps).conns[i]);
  }

  /** When `run` is over every connection is closed, none of its descriptors is
      left open, and the counters say what became of each. */
  lemma {:induction false} JoinedMeansClosed(steps: seq<Step>)
    requires Legal(START, steps) && Run(START, steps).phase.Joined?
    ensures var w := Run(START, steps);
            && AllClosed(w) && (forall fd <- w.open :: w.open[fd].OfOther?) && w.registry.connections == map[]
            && w.accepted == w.rejected + w.completed
                             + Num(w.conns, Closed(Abandoned)) + Num(w.conns, Closed(Discarded))
  {
    StartsWell();
    RunKeeps(START, steps);
    var w := Run(START, steps);
    NothingLeft(w);
    Accounting(steps);
    OnlyClosed(w.conns);
    hide Run;
    hide Inv;
  }

  lemma NothingLeft(w: World)
    requires Inv(w) && w.phase.Joined?
    ensures AllClosed(w) && (forall fd <- w.open :: w.open[fd].OfOther?) && w.registry.connections == map[]
  {
    forall i | 0 <= i < |w.conns|
      ensures w.conns[i].state.Closed?
    {
      assert Settled(w.phase, w.conns[i]);
    }
    NoTokensNoEntries(w);
  }

  lemma NoTokensNoEntries(w: World)
    requires Registered(w.conns, w.registry, w.holder)
    requires forall i :: 0 <= i < |w.conns| ==> !HasToken(w.conns[i].state)
    ensures w.registry.connections == map[]
  {
  }

  lemma {:induction false} OnlyClosed(conns: seq<Conn>)
    requires forall i :: 0 <= i < |conns| ==> conns[i].state.Closed?
    ensures forall k: State :: !k.Closed? ==> Num(conns, k) == 0
  {
    if conns != [] { OnlyClosed(conns[..|conns| - 1]); }
  }

  // -------------------------------------------------------------------------
  // Shutdown ends
  // -------------------------------------------------------------------------

  /** Steps a connection has left once it is broken or will not be served. */
  function Weight(s: State): nat {
    match s
    case InHand => 6
    case Queued => 5
    case Starting => 4
    case Reading(_) => 4
    case Handling(_) => 3
    case Done(_) => 2
    case Leaving(_) => 1
    case Closed(_) => 0
  }

  function Weights(conns: seq<Conn>): nat {
    if conns == [] then 0 else Weights(conns[..|conns| - 1]) + Weight(conns[|conns| - 1].state)
  }

  lemma {:induction false} WeightsUpdate(conns: seq<Conn>, i: nat, c: Conn)
    requires i < |conns|
    ensures Weights(conns[i := c]) + Weight(conns[i].state) == Weights(conns) + Weight(c.state)
  {
    var n := |conns| - 1;
    if i < n {
      WeightsUpdate(conns[..n], i, c);
      assert conns[i := c][..n] == conns[..n][i := c];
    } else {
      assert conns[i := c][..n] == conns[..n];
    }
  }

  function PhaseWeight(p: Phase): nat {
    match p
    case Swept => 3
    case Discarding => 2
    case Drained => 1
    case _ => 0
  }

  function WorkLeft(w: World): nat {
    PhaseWeight(w.phase) + Weights(w.conns)
  }

  predicate Foreign(s: Step) {
    s.OpenOther? || s.CloseOther?
  }

  /** After `stop_all`, every step of the server or of a worker brings the end
      nearer... */
  lemma StepsRunOut(w: World, s: Step)
    requires Inv(w) && Enabled(w, s) && Past(w.phase) && !Foreign(s)
    ensures Past(Next(w, s).phase) && WorkLeft(Next(w, s)) < WorkLeft(w)
  {
    if MovesConn(s) {
      StepMovesOne(w, s);
      var i := Moved(s);
      WeightsUpdate(w.conns, i, Next(w, s).conns[i]);
      assert Settled(w.phase, w.conns[i]);
      WeightDrops(w, s);
      hide Weights;
      hide None;
      hide AllClosed;
    }
  }

  lemma WeightDrops(w: World, s: Step)
    requires Enabled(w, s) && Past(w.phase) && MovesConn(s) && Moved(s) < |w.conns| == |Next(w, s).conns|
    requires Settled(w.phase, w.conns[Moved(s)]) && w.registry.stopping
    ensures Weight(Next(w, s).conns[Moved(s)].state) < Weight(w.conns[Moved(s)].state)
    ensures Next(w, s).phase == w.phase
  {
    hide None;
    hide AllClosed;
  }

  /** ...and until the end there always is one. */
  lemma NeverStuck(w: World) returns (s: Step)
    requires Inv(w) && Past(w.phase) && !w.phase.Joined?
    ensures Enabled(w, s) && !Foreign(s)
  {
    if i :| 0 <= i < |w.conns| && !w.conns[i].state.Closed? && w.conns[i].state != Queued {
      assert Settled(w.phase, w.conns[i]);
      var state := w.conns[i].state;
      s := if state.Starting? then Register(i)
           else if state.Leaving? then Close(i)
           else if state.Done? then Deregister(i)
           else HangUp(i);
    } else if i :| 0 <= i < |w.conns| && w.conns[i].state == Queued {
      assert Settled(w.phase, w.conns[i]);
      s := if w.phase.Discarding? then DiscardOne(i) else Take(i);
    } else {
      s := match w.phase
        case Swept => BeginDiscard
        case Discarding => EndDiscard
        case _ => Join;
    }
  }

  /** The steps of a run that are the server's and its workers' own; the others
      are the rest of the process opening and closing descriptors. */
  function OwnSteps(steps: seq<Step>): nat {
    if steps == [] then 0 else (if Foreign(steps[0]) then 0 else 1) + OwnSteps(steps[1..])
  }

  lemma WorkShrinks(w: World, s: Step)
    requires Inv(w) && Enabled(w, s) && Past(w.phase)
    ensures Past(Next(w, s).phase) && WorkLeft(Next(w, s)) + (if Foreign(s) then 0 else 1) <= WorkLeft(w)
  {
    if !Foreign(s) { StepsRunOut(w, s); }
  }

  lemma {:induction false} WorkBoundsSteps(w: World, steps: seq<Step>)
    requires Legal(w, steps) && Inv(w) && Counted(w) && Past(w.phase)
    ensures OwnSteps(steps) + WorkLeft(Run(w, steps)) <= WorkLeft(w)
    decreases |steps|
  {
    if steps != [] {
      var s := steps[0];
      WorkShrinks(w, s);
      OneStep(w, s);
      hide Inv;
      hide Counted;
      hide Next;
      hide Enabled;
      hide WorkLeft;
      WorkBoundsSteps(Next(w, s), steps[1..]);
    }
  }

  /** So after `stop_all` the server and its workers take at most `WorkLeft` more
      steps, however they interleave with each other and with the rest of the
      process. */
  lemma {:induction false} ShutdownIsBounded(before: seq<Step>, after: seq<Step>)
    requires Legal(START, before) && Past(Run(START, before).phase) && Legal(Run(START, before), after)
    ensures OwnSteps(after) <= WorkLeft(Run(START, before))
  {
    StartsWell();
    RunKeeps(START, before);
    WorkBoundsSteps(Run(START, before), after);
  }

  lemma {:induction false} WorkCanEnd(w: World) returns (steps: seq<Step>)
    requires Inv(w) && Counted(w) && Past(w.phase)
    ensures Legal(w, steps) && Run(w, steps).phase.Joined?
    decreases WorkLeft(w)
  {
    if w.phase.Joined? {
      steps := [];
    } else {
      var s := NeverStuck(w);
      WorkShrinks(w, s);
      OneStep(w, s);
      hide Inv;
      hide Counted;
      hide Next;
      hide Enabled;
      hide WorkLeft;
      var rest := WorkCanEnd(Next(w, s));
      steps := [s] + rest;
      assert steps[1..] == rest;
    }
  }

  /** And wherever a run has got to after `stop_all`, it can go on to the end. */
  lemma ShutdownCanEnd(before: seq<Step>) returns (after: seq<Step>)
    requires Legal(START, before) && Past(Run(START, before).phase)
    ensures Legal(Run(START, before), after) && Run(Run(START, before), after).phase.Joined?
  {
    StartsWell();
    RunKeeps(START, before);
    after := WorkCanEnd(Run(START, before));
  }
}
