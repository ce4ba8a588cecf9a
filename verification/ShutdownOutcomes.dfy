/** What became of a connection, read from the steps taken. */
module ShutdownOutcomes {
  import opened Shutdown
  import opened ShutdownRuns

  lemma {:induction false} LastStep(w: World, steps: seq<Step>)
    requires steps != [] && Legal(w, steps)
    ensures var n := |steps| - 1;
            && Legal(w, steps[..n]) && Enabled(Run(w, steps[..n]), steps[n])
            && Run(w, steps) == Next(Run(w, steps[..n]), steps[n])
    decreases |steps|
  {
    hide Enabled;
    hide Next;
    var n := |steps| - 1;
    if n > 0 {
      LastStep(Next(w, steps[0]), steps[1..]);
      assert steps[..n][1..] == steps[1..][..n - 1] && steps[..n][0] == steps[0];
    }
  }

  predicate IsServed(s: State) {
    s.Reading? || s.Handling? || s.Done?
  }

  /** A worker has taken the connection and let go of it. */
  predicate IsOver(s: State) {
    (s.Leaving? || s.Closed?) && (s.outcome.Completed? || s.outcome.Abandoned?)
  }

  /** The state of connection `i` tells which of its steps have been taken. */
  ghost predicate Tells(s: State, steps: seq<Step>, i: nat) {
    && (s.Leaving? ==> IsOver(s))
    && (PostRefused(i) in steps <==> s == Closed(Rejected))
    && (DiscardOne(i) in steps <==> s == Closed(Discarded))
    && (Take(i) in steps <==> s.Starting? || IsServed(s) || IsOver(s))
    && (Register(i) in steps <==> IsServed(s) || IsOver(s))
    && (Deregister(i) in steps <==> IsOver(s) && s.outcome.Completed?)
    && (Close(i) in steps <==> s.Closed? && IsOver(s))
  }

  ghost predicate InRange(steps: seq<Step>, n: nat) {
    forall s :: s in steps && MovesConn(s) ==> Moved(s) < n
  }

  /** How a step takes its connection from one place to the next. */
  predicate Goes(a: State, s: Step, b: State) {
    match s
    case PostAccepted(_) => a.InHand? && b.Queued?
    case PostRefused(_) => a.InHand? && b == Closed(Rejected)
    case Take(_) => a.Queued? && b.Starting?
    case Register(_) => a.Starting? && (b.Reading? || b == Leaving(Abandoned))
    case Receive(_) => a.Reading? && b.Handling?
    case Reply(_) => a.Handling? && (b.Reading? || b.Done?)
    case HangUp(_) => IsServed(a) && b.Done?
    case Deregister(_) => a.Done? && b == Leaving(Completed)
    case Close(_) => a.Leaving? && b == Closed(a.outcome)
    case DiscardOne(_) => a.Queued? && b == Closed(Discarded)
    case _ => a == b
  }

  lemma StepGoes(w: World, s: Step, i: nat)
    requires Enabled(w, s) && i < |w.conns|
    ensures i < |Next(w, s).conns|
    ensures var a, b := w.conns[i].state, Next(w, s).conns[i].state;
            if MovesConn(s) && Moved(s) == i then Goes(a, s, b) else a == b
  {
    hide None;
    hide AllClosed;
  }

  lemma GoesTells(a: State, b: State, s: Step, i: nat, before: seq<Step>)
    requires Tells(a, before, i) && if MovesConn(s) && Moved(s) == i then Goes(a, s, b) else a == b
    ensures Tells(b, before + [s], i)
  {
    var all := before + [s];
    assert forall x :: x in all <==> x in before || x == s;
  }

  lemma StepTells(w: World, s: Step, i: nat, before: seq<Step>)
    requires Enabled(w, s) && i < |w.conns| && Tells(w.conns[i].state, before, i)
    ensures i < |Next(w, s).conns| && Tells(Next(w, s).conns[i].state, before + [s], i)
  {
    hide Enabled;
    hide Next;
    hide Tells;
    StepGoes(w, s, i);
    GoesTells(w.conns[i].state, Next(w, s).conns[i].state, s, i, before);
  }

  lemma NewConnTells(before: seq<Step>, s: Step, i: nat)
    requires s.Accept? && InRange(before, i)
    ensures Tells(InHand, before + [s], i)
  {
    var all := before + [s];
    assert forall x :: x in all <==> x in before || x == s;
    assert PostRefused(i) !in before && DiscardOne(i) !in before && Take(i) !in before;
    assert Register(i) !in before && Deregister(i) !in before && Close(i) !in before;
  }

  lemma StepInRange(w: World, s: Step, before: seq<Step>)
    requires Enabled(w, s) && InRange(before, |w.conns|)
    ensures InRange(before + [s], |Next(w, s).conns|)
  {
    hide None;
    hide AllClosed;
    var all := before + [s];
    assert forall x :: x in all <==> x in before || x == s;
  }

  lemma {:induction false} StaysInRange(steps: seq<Step>)
    requires Legal(START, steps)
    ensures InRange(steps, |Run(START, steps).conns|)
  {
    if steps != [] {
      var n := |steps| - 1;
      LastStep(START, steps);
      StaysInRange(steps[..n]);
      StepInRange(Run(START, steps[..n]), steps[n], steps[..n]);
      assert steps == steps[..n] + [steps[n]];
    }
  }

  lemma GrowsByAccept(w: World, s: Step)
    requires Enabled(w, s)
    ensures |Next(w, s).conns| == |w.conns| + if s.Accept? then 1 else 0
    ensures s.Accept? ==> Next(w, s).conns[|w.conns|].state == InHand
  {
    hide None;
    hide AllClosed;
  }

  /** In every reachable state each connection's place is the one its own steps give
      it: refused by the pool, thrown away by its shutdown, or taken by a worker,
      registered, deregistered and closed, in that order and each of them once. */
  lemma {:induction false} OutcomesTell(steps: seq<Step>, i: nat)
    requires Legal(START, steps) && i < |Run(START, steps).conns|
    ensures Tells(Run(START, steps).conns[i].state, steps, i)
  {
    if steps != [] {
      var n := |steps| - 1;
      LastStep(START, steps);
      var w := Run(START, steps[..n]);
      assert steps == steps[..n] + [steps[n]];
      GrowsByAccept(w, steps[n]);
      hide Tells;
      hide Next;
      if i < |w.conns| {
        OutcomesTell(steps[..n], i);
        StepTells(w, steps[n], i, steps[..n]);
      } else {
        StaysInRange(steps[..n]);
        NewConnTells(steps[..n], steps[n], i);
      }
    }
  }

  // -------------------------------------------------------------------------
  // Served or abandoned
  // -------------------------------------------------------------------------

  /** A worker came to register the connection when `stop_all` had begun. */
  ghost predicate CameLate(steps: seq<Step>, i: nat) {
    exists k :: 0 <= k < |steps| && steps[k] == Register(i) && BeginSweep in steps[..k]
  }

  lemma {:induction false} LateSteps(steps: seq<Step>, i: nat)
    requires steps != []
    ensures var n := |steps| - 1;
            CameLate(steps, i) <==> CameLate(steps[..n], i) || (steps[n] == Register(i) && BeginSweep in steps[..n])
  {
    var n := |steps| - 1;
    if CameLate(steps, i) {
      var k :| 0 <= k < |steps| && steps[k] == Register(i) && BeginSweep in steps[..k];
      assert k < n ==> steps[..n][k] == Register(i) && steps[..n][..k] == steps[..k];
    }
    if CameLate(steps[..n], i) {
      var k :| 0 <= k < n && steps[..n][k] == Register(i) && BeginSweep in steps[..n][..k];
      assert steps[k] == Register(i) && steps[..n][..k] == steps[..k];
    }
  }

  lemma StepStops(w: World, s: Step)
    requires Enabled(w, s)
    ensures var r, r' := w.registry, Next(w, s).registry;
            (r'.stopping <==> r.stopping || s.BeginSweep?) && r.next <= r'.next
  {
    hide None;
    hide AllClosed;
  }

  /** The registry turns everyone away from the moment `stop_all` begins. */
  lemma {:induction false} StoppingSinceSweep(steps: seq<Step>)
    requires Legal(START, steps)
    ensures Run(START, steps).registry.stopping <==> BeginSweep in steps
    ensures 0 < Run(START, steps).registry.next
  {
    hide Enabled;
    hide Next;
    if steps != [] {
      var n := |steps| - 1;
      LastStep(START, steps);
      StoppingSinceSweep(steps[..n]);
      assert steps == steps[..n] + [steps[n]];
      StepStops(Run(START, steps[..n]), steps[n]);
      hide Run;
      hide Legal;
    }
  }

  ghost predicate IsAbandoned(s: State) {
    s == Leaving(Abandoned) || s == Closed(Abandoned)
  }

  lemma StepAbandons(w: World, s: Step, i: nat)
    requires Enabled(w, s) && i < |w.conns| && 0 < w.registry.next
    ensures i < |Next(w, s).conns|
    ensures IsAbandoned(Next(w, s).conns[i].state)
       <==> IsAbandoned(w.conns[i].state) || (s == Register(i) && w.registry.stopping)
  {
    hide None;
    hide AllClosed;
  }

  /** A connection is given up by the worker that took it exactly if it came to
      register after `stop_all` had begun. */
  lemma {:induction false} AbandonedIffLate(steps: seq<Step>, i: nat)
    requires Legal(START, steps) && i < |Run(START, steps).conns|
    ensures IsAbandoned(Run(START, steps).conns[i].state) <==> CameLate(steps, i)
  {
    if steps != [] {
      var n := |steps| - 1;
      LastStep(START, steps);
      LateSteps(steps, i);
      var w := Run(START, steps[..n]);
      GrowsByAccept(w, steps[n]);
      StoppingSinceSweep(steps[..n]);
      hide CameLate;
      hide IsAbandoned;
      if i < |w.conns| {
        AbandonedIffLate(steps[..n], i);
        StepAbandons(w, steps[n], i);
      } else {
        StaysInRange(steps[..n]);
        NeverLate(steps[..n], i);
        NotAbandoned();
      }
    }
  }

  lemma NeverLate(steps: seq<Step>, i: nat)
    requires InRange(steps, i)
    ensures !CameLate(steps, i)
  {
    forall k | 0 <= k < |steps| ensures steps[k] != Register(i) {
      assert steps[k] in steps;
    }
  }

  lemma NotAbandoned()
    ensures !IsAbandoned(InHand)
  {
  }

  // -------------------------------------------------------------------------
  // Broken or not
  // -------------------------------------------------------------------------

  /** `stop_all` comes to the token under which connection `i` is registered. */
  predicate SweepMeets(w: World, s: Step, i: nat) {
    s.SweepOne? && i < |w.conns| && HasToken(w.conns[i].state) && w.conns[i].state.token == s.token
  }

  ghost predicate Swept(steps: seq<Step>, i: nat)
    requires Legal(START, steps)
  {
    if steps == [] then false
    else
      LastStep(START, steps);
      var n := |steps| - 1;
      Swept(steps[..n], i) || SweepMeets(Run(START, steps[..n]), steps[n], i)
  }

  lemma StepBreaks(w: World, s: Step, i: nat)
    requires Inv(w) && Enabled(w, s) && i < |w.conns|
    ensures i < |Next(w, s).conns|
    ensures Next(w, s).conns[i].broken <==> w.conns[i].broken || SweepMeets(w, s, i)
  {
    hide None;
    hide AllClosed;
    hide Phased;
    if s.SweepOne? { SweepTouchesItsOwn(w, s.token); }
  }

  lemma NewConnIsWhole(w: World, s: Step)
    requires Enabled(w, s) && s.Accept?
    ensures !Next(w, s).conns[|w.conns|].broken
  {
    hide None;
  }

  lemma {:induction false} NotSweptYet(steps: seq<Step>, i: nat)
    requires Legal(START, steps) && i >= |Run(START, steps).conns|
    ensures !Swept(steps, i)
  {
    if steps != [] {
      LastStep(START, steps);
      var n := |steps| - 1;
      GrowsByAccept(Run(START, steps[..n]), steps[n]);
      NotSweptYet(steps[..n], i);
      hide Next;
    }
  }

  /** A connection's stream is broken exactly if `stop_all` found it registered:
      nothing else is ever cut off. */
  lemma {:induction false} BrokenIffSwept(steps: seq<Step>, i: nat)
    requires Legal(START, steps) && i < |Run(START, steps).conns|
    ensures Run(START, steps).conns[i].broken <==> Swept(steps, i)
  {
    hide Enabled;
    hide Next;
    if steps != [] {
      LastStep(START, steps);
      var n := |steps| - 1;
      var w := Run(START, steps[..n]);
      StartsWell();
      RunKeeps(START, steps[..n]);
      GrowsByAccept(w, steps[n]);
      hide Inv;
      if i < |w.conns| {
        BrokenIffSwept(steps[..n], i);
        StepBreaks(w, steps[n], i);
      } else {
        NewConnIsWhole(w, steps[n]);
        NotSweptYet(steps[..n], i);
      }
    }
  }

  // -------------------------------------------------------------------------
  // The counters
  // -------------------------------------------------------------------------

  function Accepts(steps: seq<Step>): nat {
    if steps == [] then 0 else Accepts(steps[..|steps| - 1]) + if steps[|steps| - 1].Accept? then 1 else 0
  }

  function Refusals(steps: seq<Step>): nat {
    if steps == [] then 0 else Refusals(steps[..|steps| - 1]) + if steps[|steps| - 1].PostRefused? then 1 else 0
  }

  /** The session comes to an end: the peer hung up, or a reply found the connection
      broken. */
  predicate Ends(w: World, s: Step)
    requires Enabled(w, s)
  {
    s.HangUp? || (s.Reply? && w.conns[s.i].broken)
  }

  function Endings(steps: seq<Step>): nat
    requires Legal(START, steps)
  {
    if steps == [] then 0
    else
      LastStep(START, steps);
      var n := |steps| - 1;
      Endings(steps[..n]) + if Ends(Run(START, steps[..n]), steps[n]) then 1 else 0
  }

  lemma StepCounts(w: World, s: Step)
    requires Enabled(w, s)
    ensures var w' := Next(w, s);
            && w'.accepted == w.accepted + (if s.Accept? then 1 else 0)
            && w'.rejected == w.rejected + (if s.PostRefused? then 1 else 0)
            && w'.completed == w.completed + (if Ends(w, s) then 1 else 0)
  {
    hide None;
    hide AllClosed;
  }

  /** The server's three counters are the connections accepted, the ones its pool
      refused, and the sessions that came to an end. */
  lemma {:induction false} CountersAreSteps(steps: seq<Step>)
    requires Legal(START, steps)
    ensures var w := Run(START, steps);
            w.accepted == Accepts(steps) && w.rejected == Refusals(steps) && w.completed == Endings(steps)
  {
    hide Enabled;
    hide Next;
    hide Ends;
    if steps != [] {
      var n := |steps| - 1;
      LastStep(START, steps);
      CountersAreSteps(steps[..n]);
      StepCounts(Run(START, steps[..n]), steps[n]);
      hide Run;
      hide Legal;
    }
  }
}
