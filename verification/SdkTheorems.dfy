/** Whole runs of the client: the pool, reply matching, and how often a call reaches
    the daemon. */
module SdkTheorems {
  import opened SdkClient
  import opened SdkRuns

  // -------------------------------------------------------------------------
  // Attempts and sends
  // -------------------------------------------------------------------------

  /** One send at most per attempt. */
  predicate Thrifty(cfg: Config, x: Thread) {
    && x.attempts == Attempts(cfg, x.recording)
    && match x.at
       case Waiting(_) => x.attempt < x.attempts && x.sends <= x.attempt + 1
       case Releasing(_, _, _) => x.attempt < x.attempts && x.sends <= x.attempt + 1
       case Finished(_, _) => x.attempt <= x.attempts && x.sends <= x.attempt
       case _ => x.attempt < x.attempts && x.sends <= x.attempt
  }

  ghost predicate AllThrifty(cfg: Config, w: World) {
    forall t :: 0 <= t < |w.threads| ==> Thrifty(cfg, w.threads[t])
  }

  lemma StepKeepsThrifty(cfg: Config, w: World, s: Step)
    requires AllThrifty(cfg, w) && Enabled(w, s)
    ensures AllThrifty(cfg, Next(cfg, w, s))
  {
    var w' := Next(cfg, w, s);
    if HasActor(s) {
      ActorMoves(cfg, w, s);
      assert Thrifty(cfg, w.threads[Actor(s)]);
      assert Thrifty(cfg, w'.threads[Actor(s)]);
      hide Next;
      hide Enabled;
      hide Thrifty;
    }
  }

  // -------------------------------------------------------------------------
  // Requests the daemon has received, per call
  // -------------------------------------------------------------------------

  function ForCall(sent: seq<Sent>, t: nat): nat {
    if sent == [] then 0
    else ForCall(sent[..|sent| - 1], t) + if sent[|sent| - 1].call == t then 1 else 0
  }

  /** Over all connections ever opened. */
  function Deliveries(links: seq<Link>, t: nat): nat {
    if links == [] then 0
    else Deliveries(links[..|links| - 1], t) + ForCall(links[|links| - 1].sent, t)
  }

  lemma {:induction false} DeliveriesUpdate(links: seq<Link>, c: nat, l: Link, t: nat)
    requires c < |links|
    ensures Deliveries(links[c := l], t) + ForCall(links[c].sent, t) == Deliveries(links, t) + ForCall(l.sent, t)
  {
    var n := |links| - 1;
    if c < n {
      DeliveriesUpdate(links[..n], c, l, t);
      assert links[c := l][..n] == links[..n][c := l];
    } else {
      assert links[c := l][..n] == links[..n];
    }
  }

  lemma {:induction false} DeliveriesAppend(links: seq<Link>, t: nat)
    ensures Deliveries(links + [FRESH], t) == Deliveries(links, t)
  {
    assert (links + [FRESH])[..|links|] == links;
  }

  lemma {:induction false} ForCallAppend(sent: seq<Sent>, x: Sent, t: nat)
    ensures ForCall(sent + [x], t) == ForCall(sent, t) + if x.call == t then 1 else 0
  {
    assert (sent + [x])[..|sent|] == sent;
  }

  /** A call's own count of its sends is what reached the wires, and calls not yet
      begun have sent nothing. */
  ghost predicate Tallied(w: World, t: nat) {
    Deliveries(w.links, t) == if t < |w.threads| then w.threads[t].sends else 0
  }

  /** Only a completed write adds a request, and it is counted. */
  lemma SendsFollow(cfg: Config, w: World, s: Step)
    requires Enabled(w, s) && OnWire(s)
    ensures var w', t := Next(cfg, w, s), Actor(s);
            && t < |w.threads| == |w'.threads| && Holds(w.threads[t].at)
            && var c := w.threads[t].at.conn;
               && c < |w.links| == |w'.links| && w'.links == w.links[c := w'.links[c]]
               && w'.threads == w.threads[t := w'.threads[t]]
               && if s.Write?
                  then && w'.links[c].sent == w.links[c].sent + [Sent(t, w.links[c].nextId)]
                       && w'.threads[t].sends == w.threads[t].sends + 1
                  else w'.links[c].sent == w.links[c].sent && w'.threads[t].sends == w.threads[t].sends
  {
  }

  lemma QuietStepsSendNothing(cfg: Config, w: World, s: Step, t: nat)
    requires Enabled(w, s) && !OnWire(s) && !s.Answer?
    ensures var w' := Next(cfg, w, s);
            && (w'.links == w.links || w'.links == w.links + [FRESH])
            && (if t < |w.threads| then t < |w'.threads| && w'.threads[t].sends == w.threads[t].sends
                else t < |w'.threads| ==> w'.threads[t].sends == 0)
  {
  }

  lemma StepKeepsTallied(cfg: Config, w: World, s: Step, t: nat)
    requires Enabled(w, s) && Tallied(w, t)
    ensures Tallied(Next(cfg, w, s), t)
  {
    var w' := Next(cfg, w, s);
    if OnWire(s) {
      SendsFollow(cfg, w, s);
      var c := w.threads[Actor(s)].at.conn;
      var l := w.links[c];
      hide Next;
      hide Enabled;
      hide Deliveries;
      hide ForCall;
      DeliveriesUpdate(w.links, c, w'.links[c], t);
      ForCallAppend(l.sent, Sent(Actor(s), l.nextId), t);
    } else if s.Answer? {
      DeliveriesUpdate(w.links, s.c, w'.links[s.c], t);
    } else {
      QuietStepsSendNothing(cfg, w, s, t);
      hide Next;
      hide Enabled;
      DeliveriesAppend(w.links, t);
    }
  }

  // -------------------------------------------------------------------------
  // Runs
  // -------------------------------------------------------------------------

  predicate Legal(cfg: Config, w: World, steps: seq<Step>)
    decreases |steps|
  {
    steps == [] || (Enabled(w, steps[0]) && Legal(cfg, Next(cfg, w, steps[0]), steps[1..]))
  }

  function Run(cfg: Config, w: World, steps: seq<Step>): World
    requires Legal(cfg, w, steps)
    decreases |steps|
  {
    if steps == [] then w else Run(cfg, Next(cfg, w, steps[0]), steps[1..])
  }

  lemma StepKeepsInv(cfg: Config, w: World, s: Step)
    requires Inv(cfg, w) && Enabled(w, s)
    ensures Inv(cfg, Next(cfg, w, s))
  {
    StepKeepsBounded(cfg, w, s);
    StepKeepsPlaced(cfg, w, s);
    if OnWire(s) {
      WireStepKeepsWired(cfg, w, s);
    } else if s.Answer? {
      AnswerKeepsWired(cfg, w, s.c, s.says);
    } else {
      PoolStepKeepsWired(cfg, w, s);
    }
    hide Next;
    hide Enabled;
    hide Wired;
    hide Placed;
    hide Bounded;
  }

  lemma {:induction false} RunKeeps(cfg: Config, w: World, steps: seq<Step>, t: nat)
    requires Legal(cfg, w, steps) && Inv(cfg, w) && AllThrifty(cfg, w) && Tallied(w, t)
    ensures var w' := Run(cfg, w, steps); Inv(cfg, w') && AllThrifty(cfg, w') && Tallied(w', t)
    decreases |steps|
  {
    if steps != [] {
      StepKeepsInv(cfg, w, steps[0]);
      StepKeepsThrifty(cfg, w, steps[0]);
      StepKeepsTallied(cfg, w, steps[0], t);
      hide Next;
      hide Enabled;
      hide Inv;
      hide AllThrifty;
      hide Tallied;
      RunKeeps(cfg, Next(cfg, w, steps[0]), steps[1..], t);
    }
  }

  /** What holds in every state a client can get into. */
  lemma {:induction false} Reached(cfg: Config, steps: seq<Step>, t: nat)
    requires cfg.maxConnections >= 1 && Legal(cfg, CONNECTED, steps)
    ensures var w := Run(cfg, CONNECTED, steps); Inv(cfg, w) && AllThrifty(cfg, w) && Tallied(w, t)
  {
    assert Deliveries(CONNECTED.links, t) == 0 by {
      assert CONNECTED.links == [] + [FRESH];
      DeliveriesAppend([], t);
    }
    RunKeeps(cfg, CONNECTED, steps, t);
  }

  /** The pool never exceeds its bound, and its count is exact. */
  lemma {:induction false} PoolIsBounded(cfg: Config, steps: seq<Step>)
    requires cfg.maxConnections >= 1 && Legal(cfg, CONNECTED, steps)
    ensures var w := Run(cfg, CONNECTED, steps);
            w.pool.total == |w.pool.idle| + InUse(w.threads) <= cfg.maxConnections
  {
    Reached(cfg, steps, 0);
  }

  /** No two calls share a connection, and none holds an idle one. */
  lemma {:induction false} ConnectionsAreExclusive(cfg: Config, steps: seq<Step>, t: nat, u: nat)
    requires cfg.maxConnections >= 1 && Legal(cfg, CONNECTED, steps)
    requires var w := Run(cfg, CONNECTED, steps);
             t < u < |w.threads| && Holds(w.threads[t].at) && Holds(w.threads[u].at)
    ensures var w := Run(cfg, CONNECTED, steps);
            w.threads[t].at.conn != w.threads[u].at.conn && w.threads[t].at.conn !in w.pool.idle
  {
    Reached(cfg, steps, 0);
  }

  /** Every idle connection is open, with no reply outstanding and no half frame. */
  lemma {:induction false} IdleIsQuiet(cfg: Config, steps: seq<Step>, i: nat)
    requires cfg.maxConnections >= 1 && Legal(cfg, CONNECTED, steps)
    requires i < |Run(cfg, CONNECTED, steps).pool.idle|
    ensures var w := Run(cfg, CONNECTED, steps);
            w.pool.idle[i] < |w.links| && Quiet(w.links[w.pool.idle[i]])
  {
    Reached(cfg, steps, 0);
  }

  /** Every answer a call reports is the daemon's reply to that call's own request;
      success is never reported without one. */
  lemma {:induction false} AnswersMatch(cfg: Config, steps: seq<Step>, t: nat)
    requires cfg.maxConnections >= 1 && Legal(cfg, CONNECTED, steps)
    requires t < |Run(cfg, CONNECTED, steps).threads| && Run(cfg, CONNECTED, steps).threads[t].at.Finished?
    ensures var w := Run(cfg, CONNECTED, steps);
            var a := w.threads[t].at;
            if a.from.Some?
            then a.from.value.0 < |w.links| && AnswerTo(w.links[a.from.value.0], a.from.value.1, t, a.code)
            else a.code.Unavailable? || a.code.InvalidArgument?
  {
    Reached(cfg, steps, t);
    var w := Run(cfg, CONNECTED, steps);
    assert InOrder(t, w.threads[t].at, w.links);
  }

  /** The id check never fires against a daemon that echoes ids: the next reply on
      the wire is always the one being waited for. */
  lemma {:induction false} IdsAlwaysMatch(cfg: Config, steps: seq<Step>, t: nat)
    requires cfg.maxConnections >= 1 && Legal(cfg, CONNECTED, steps)
    requires Enabled(Run(cfg, CONNECTED, steps), Read(t))
    ensures var w := Run(cfg, CONNECTED, steps);
            var l := w.links[w.threads[t].at.conn];
            l.replies[l.consumed].id == LastId(l) && l.consumed < |l.sent| && l.sent[l.consumed].call == t
  {
    Reached(cfg, steps, t);
    var w := Run(cfg, CONNECTED, steps);
    assert InOrder(t, w.threads[t].at, w.links) && Answered(w.links[w.threads[t].at.conn]);
  }

  /** Over all connections ever used, a call reaches the daemon at most once per
      attempt: a recording recommendation at most once unless its retry was asked
      for, everything else at most `maxRetries + 1` times. */
  lemma {:induction false} AtMostOnce(cfg: Config, steps: seq<Step>, t: nat)
    requires cfg.maxConnections >= 1 && Legal(cfg, CONNECTED, steps)
    requires t < |Run(cfg, CONNECTED, steps).threads|
    ensures var w := Run(cfg, CONNECTED, steps);
            && Deliveries(w.links, t) <= cfg.maxRetries + 1
            && (w.threads[t].recording && !cfg.retryRecording ==> Deliveries(w.links, t) <= 1)
  {
    Reached(cfg, steps, t);
    assert Thrifty(cfg, Run(cfg, CONNECTED, steps).threads[t]);
  }

  /** A call that succeeded was received, and one that was never received did not
      succeed. */
  lemma {:induction false} SuccessWasDelivered(cfg: Config, steps: seq<Step>, t: nat)
    requires cfg.maxConnections >= 1 && Legal(cfg, CONNECTED, steps)
    requires t < |Run(cfg, CONNECTED, steps).threads|
    requires Run(cfg, CONNECTED, steps).threads[t].at.Finished? && Run(cfg, CONNECTED, steps).threads[t].at.code.Ok?
    ensures Deliveries(Run(cfg, CONNECTED, steps).links, t) >= 1
  {
    AnswersMatch(cfg, steps, t);
    var w := Run(cfg, CONNECTED, steps);
    var from := w.threads[t].at.from.value;
    OneDelivery(w.links, from.0, t);
    OneForCall(w.links[from.0].sent, from.1, t);
  }

  lemma {:induction false} OneForCall(sent: seq<Sent>, k: nat, t: nat)
    requires k < |sent| && sent[k].call == t
    ensures ForCall(sent, t) >= 1
  {
    if k < |sent| - 1 { OneForCall(sent[..|sent| - 1], k, t); }
  }

  lemma {:induction false} OneDelivery(links: seq<Link>, c: nat, t: nat)
    requires c < |links|
    ensures Deliveries(links, t) >= ForCall(links[c].sent, t)
  {
    if c < |links| - 1 { OneDelivery(links[..|links| - 1], c, t); }
  }

  /** The caller's vocabulary keeps apart what the connection's does; only a lost
      connection is worth another attempt, and only a lost or senseless one is not
      put back. */
  lemma StatusesStayApart(a: CallStatus, b: CallStatus)
    ensures MapStatus(a) == MapStatus(b) <==> a == b
    ensures IsRetryable(MapStatus(a)) <==> a.CallLost?
    ensures Spoils(MapStatus(a)) <==> a.CallLost? || a.CallProtocol?
    ensures MapStatus(a).Ok? <==> a.CallOk?
    ensures MapStatus(a).NotFound? <==> a.CallNotFound?
    ensures MapStatus(a).InvalidArgument? <==> a.CallInvalid?
    ensures MapStatus(a).Internal? <==> a.CallServerError?
  {
  }

  /** A call is never left without a step of its own except while it waits for a
      reply, and then it can give up. */
  lemma CallsCanMove(cfg: Config, w: World, t: nat) returns (s: Step)
    requires Inv(cfg, w) && t < |w.threads| && !w.threads[t].at.Finished?
    ensures Enabled(w, s) && HasActor(s) && Actor(s) == t
  {
    var a := w.threads[t].at;
    assert InOrder(t, a, w.links);
    InUseUpdate(w.threads, t, w.threads[t]);
    s := match a
      case Acquiring => Get(t)
      case Opening => OpenFail(t)
      case Holding(_) => Write(t)
      case Waiting(_) => ReadFail(t)
      case _ => PutBack(t);
  }
}
