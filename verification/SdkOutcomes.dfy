/** What the callers of the client are told and what becomes of the connections,
    in terms of what the daemon said and of the steps taken. */
module SdkOutcomes {
  import opened SdkClient
  import opened SdkRuns
  import opened SdkTheorems

  ghost predicate Reachable(cfg: Config, steps: seq<Step>) {
    cfg.maxConnections >= 1 && Legal(cfg, CONNECTED, steps)
  }

  function After(cfg: Config, steps: seq<Step>): World
    requires Legal(cfg, CONNECTED, steps)
  {
    Run(cfg, CONNECTED, steps)
  }

  // -------------------------------------------------------------------------
  // Codes
  // -------------------------------------------------------------------------

  /** A code and the reply it stands for. */
  predicate Tells(code: StatusCode, says: Says) {
    && (code.Ok? <==> says.Fine?)
    && (code.NotFound? <==> says.Missing?)
    && (code.InvalidArgument? <==> says.Refused?)
    && (code.Internal? <==> says.Broken?)
    && (code.ProtocolError? <==> says.OddType? || says.Garbled?)
  }

  lemma AnswerTells(l: Link, k: nat, t: nat, code: StatusCode)
    requires Answered(l) && AnswerTo(l, k, t, code)
    ensures Tells(code, l.replies[k].says)
  {
    assert l.replies[k].id == l.sent[k].id;
  }

  /** Every finished call that got an answer reports exactly what the daemon said to
      that very request; one that got none says so, or was refused by the client
      itself. */
  lemma {:induction false} CodesTellTheAnswer(cfg: Config, steps: seq<Step>, t: nat)
    requires Reachable(cfg, steps) && t < |After(cfg, steps).threads| && After(cfg, steps).threads[t].at.Finished?
    ensures var w := After(cfg, steps);
            var a := w.threads[t].at;
            match a.from
            case Some(from) =>
              && from.0 < |w.links| && from.1 < |w.links[from.0].replies| && from.1 < |w.links[from.0].sent|
              && w.links[from.0].sent[from.1].call == t
              && w.links[from.0].replies[from.1].id == w.links[from.0].sent[from.1].id
              && Tells(a.code, w.links[from.0].replies[from.1].says)
            case None => a.code.Unavailable? || a.code.InvalidArgument?
  {
    AnswersMatch(cfg, steps, t);
    Reached(cfg, steps, t);
    var w := After(cfg, steps);
    var a := w.threads[t].at;
    if a.from.Some? {
      var l := w.links[a.from.value.0];
      assert Answered(l);
      AnswerTells(l, a.from.value.1, t, a.code);
    }
  }

  // -------------------------------------------------------------------------
  // Taking runs apart at the end
  // -------------------------------------------------------------------------

  lemma {:induction false} LastStep(cfg: Config, w: World, steps: seq<Step>)
    requires steps != [] && Legal(cfg, w, steps)
    ensures var n := |steps| - 1;
            && Legal(cfg, w, steps[..n]) && Enabled(Run(cfg, w, steps[..n]), steps[n])
            && Run(cfg, w, steps) == Next(cfg, Run(cfg, w, steps[..n]), steps[n])
    decreases |steps|
  {
    hide Enabled;
    hide Next;
    var n := |steps| - 1;
    if n == 0 {
      assert steps[..0] == [] && steps[1..] == [];
    } else {
      LastStep(cfg, Next(cfg, w, steps[0]), steps[1..]);
      assert steps[1..][..n - 1] == steps[..n][1..];
    }
  }

  // -------------------------------------------------------------------------
  // How long a call goes on
  // -------------------------------------------------------------------------

  /** Attempts allowed: one for a recording recommendation unless its retry was
      asked for, and `maxRetries` more than one for everything else. */
  predicate Persists(cfg: Config, x: Thread) {
    && x.attempts == (if x.recording && !cfg.retryRecording then 1 else cfg.maxRetries + 1)
    && (x.at.Finished? && x.at.code.Unavailable? ==> x.attempt == x.attempts)
    && (!x.at.Finished? ==> x.attempt < x.attempts)
  }

  ghost predicate AllPersist(cfg: Config, w: World) {
    forall t :: 0 <= t < |w.threads| ==> Persists(cfg, w.threads[t])
  }

  lemma StepPersists(cfg: Config, w: World, s: Step)
    requires AllPersist(cfg, w) && Enabled(w, s)
    ensures AllPersist(cfg, Next(cfg, w, s))
  {
    var w' := Next(cfg, w, s);
    if HasActor(s) {
      ActorMoves(cfg, w, s);
      assert Persists(cfg, w.threads[Actor(s)]);
      assert Persists(cfg, w'.threads[Actor(s)]);
      hide Next;
      hide Enabled;
      hide Persists;
    }
  }

  lemma {:induction false} RunPersists(cfg: Config, w: World, steps: seq<Step>)
    requires Legal(cfg, w, steps) && AllPersist(cfg, w)
    ensures AllPersist(cfg, Run(cfg, w, steps))
    decreases |steps|
  {
    hide Next;
    hide Enabled;
    hide AllPersist;
    if steps != [] {
      StepPersists(cfg, w, steps[0]);
      RunPersists(cfg, Next(cfg, w, steps[0]), steps[1..]);
    }
  }

  /** A call reports the daemon unavailable only after every attempt it has. */
  lemma {:induction false} GivesUpLate(cfg: Config, steps: seq<Step>, t: nat)
    requires Reachable(cfg, steps) && t < |After(cfg, steps).threads|
    ensures Persists(cfg, After(cfg, steps).threads[t])
  {
    RunPersists(cfg, CONNECTED, steps);
  }

  // -------------------------------------------------------------------------
  // Ids
  // -------------------------------------------------------------------------

  ghost predicate Numbered(l: Link) {
    l.nextId == |l.sent| + 1 && forall k :: 0 <= k < |l.sent| ==> l.sent[k].id == k + 1
  }

  ghost predicate AllNumbered(w: World) {
    forall c :: 0 <= c < |w.links| ==> Numbered(w.links[c])
  }

  lemma StepNumbers(cfg: Config, w: World, s: Step)
    requires AllNumbered(w) && Enabled(w, s)
    ensures AllNumbered(Next(cfg, w, s))
  {
    var w' := Next(cfg, w, s);
    forall c | 0 <= c < |w'.links| ensures Numbered(w'.links[c]) {
      if c < |w.links| { assert Numbered(w.links[c]); }
    }
  }

  lemma {:induction false} RunNumbers(cfg: Config, w: World, steps: seq<Step>)
    requires Legal(cfg, w, steps) && AllNumbered(w)
    ensures AllNumbered(Run(cfg, w, steps))
    decreases |steps|
  {
    hide Next;
    hide Enabled;
    hide AllNumbered;
    if steps != [] {
      StepNumbers(cfg, w, steps[0]);
      RunNumbers(cfg, Next(cfg, w, steps[0]), steps[1..]);
    }
  }

  /** The requests on a connection are numbered from one, so no two share an id. */
  lemma {:induction false} IdsAreConsecutive(cfg: Config, steps: seq<Step>, c: nat, k: nat)
    requires Reachable(cfg, steps) && c < |After(cfg, steps).links| && k < |After(cfg, steps).links[c].sent|
    ensures After(cfg, steps).links[c].sent[k].id == k + 1
  {
    assert Numbered(FRESH);
    RunNumbers(cfg, CONNECTED, steps);
    assert Numbered(After(cfg, steps).links[c]);
  }

  // -------------------------------------------------------------------------
  // Which connections go back, and which is taken next
  // -------------------------------------------------------------------------

  /** At the end of a call its connection goes back, to be taken next, exactly when
      the daemon's reply made sense or nothing was sent; otherwise it is dropped and
      its slot is free. */
  lemma {:induction false} GoesBackIff(cfg: Config, steps: seq<Step>, t: nat)
    requires Reachable(cfg, steps) && t < |After(cfg, steps).threads| && After(cfg, steps).threads[t].at.Releasing?
    ensures var w := After(cfg, steps);
            var a := w.threads[t].at;
            && Enabled(w, PutBack(t)) && a.conn < |w.links|
            && (a.answer.Some? ==> a.answer.value < |w.links[a.conn].replies|)
            && var dropped := if a.answer.Some?
                              then var says := w.links[a.conn].replies[a.answer.value].says;
                                   says.OddType? || says.Garbled?
                              else a.status.CallLost?;
               var pool := Next(cfg, w, PutBack(t)).pool;
               if dropped then pool.idle == w.pool.idle && pool.total == w.pool.total - 1
               else pool.idle == [a.conn] + w.pool.idle && pool.total == w.pool.total
  {
    Reached(cfg, steps, t);
    var w := After(cfg, steps);
    var a := w.threads[t].at;
    assert InOrder(t, a, w.links);
    InUseUpdate(w.threads, t, w.threads[t]);
    hide InUse;
    if a.answer.Some? {
      assert Answered(w.links[a.conn]);
      AnswerTells(w.links[a.conn], a.answer.value, t, MapStatus(a.status));
    }
  }

  /** The step put connection `c` back. */
  predicate PutsBack(cfg: Config, w: World, s: Step, c: nat)
    requires Enabled(w, s)
  {
    s.PutBack? && w.threads[s.t].at.conn == c && c in Next(cfg, w, s).pool.idle
  }

  /** When connection `c` was last put back; -1 if never. */
  function LastBack(cfg: Config, steps: seq<Step>, c: nat): int
    requires Legal(cfg, CONNECTED, steps)
  {
    if steps == [] then -1
    else
      LastStep(cfg, CONNECTED, steps);
      var n := |steps| - 1;
      if PutsBack(cfg, After(cfg, steps[..n]), steps[n], c) then n else LastBack(cfg, steps[..n], c)
  }

  lemma {:induction false} LastBackBound(cfg: Config, steps: seq<Step>, c: nat)
    requires Legal(cfg, CONNECTED, steps)
    ensures -1 <= LastBack(cfg, steps, c) < |steps|
  {
    hide Legal;
    hide After;
    hide PutsBack;
    if steps != [] {
      LastStep(cfg, CONNECTED, steps);
      LastBackBound(cfg, steps[..|steps| - 1], c);
    }
  }

  ghost predicate NewestFirst(cfg: Config, steps: seq<Step>, idle: seq<nat>)
    requires Legal(cfg, CONNECTED, steps)
  {
    forall i, j :: 0 <= i < j < |idle| ==> LastBack(cfg, steps, idle[i]) > LastBack(cfg, steps, idle[j])
  }

  /** How a step changes the idle list. */
  lemma IdleStep(cfg: Config, w: World, s: Step)
    requires Inv(cfg, w) && Enabled(w, s)
    ensures var idle, idle' := w.pool.idle, Next(cfg, w, s).pool.idle;
            || idle' == idle
            || (!s.PutBack? && idle != [] && idle' == idle[1..])
            || (s.PutBack? && idle' == [w.threads[s.t].at.conn] + idle)
    ensures s.PutBack? ==> w.threads[s.t].at.conn !in w.pool.idle
  {
    if s.PutBack? {
      assert Holds(w.threads[s.t].at);
    }
  }

  lemma {:induction false} BackStep(cfg: Config, steps: seq<Step>, c: nat)
    requires steps != [] && Legal(cfg, CONNECTED, steps)
    ensures var n := |steps| - 1;
            && Legal(cfg, CONNECTED, steps[..n]) && Enabled(After(cfg, steps[..n]), steps[n])
            && LastBack(cfg, steps, c)
               == if PutsBack(cfg, After(cfg, steps[..n]), steps[n], c) then n else LastBack(cfg, steps[..n], c)
  {
    hide Next;
    hide Enabled;
    LastStep(cfg, CONNECTED, steps);
  }

  lemma {:induction false} StillNewestFirst(cfg: Config, steps: seq<Step>)
    requires Reachable(cfg, steps) && steps != [] && Legal(cfg, CONNECTED, steps[..|steps| - 1])
    requires NewestFirst(cfg, steps[..|steps| - 1], After(cfg, steps[..|steps| - 1]).pool.idle)
    ensures NewestFirst(cfg, steps, After(cfg, steps).pool.idle)
  {
    hide Legal;
    hide LastBack;
    hide Next;
    hide Enabled;
    hide Inv;
    hide Run;
    var n := |steps| - 1;
    LastStep(cfg, CONNECTED, steps);
    Reached(cfg, steps[..n], 0);
    var w := After(cfg, steps[..n]);
    var idle, idle' := w.pool.idle, After(cfg, steps).pool.idle;
    IdleStep(cfg, w, steps[n]);
    forall i, j | 0 <= i < j < |idle'|
      ensures LastBack(cfg, steps, idle'[i]) > LastBack(cfg, steps, idle'[j])
    {
      BackStep(cfg, steps, idle'[i]);
      BackStep(cfg, steps, idle'[j]);
      LastBackBound(cfg, steps[..n], idle'[j]);
    }
  }

  lemma {:induction false} IdleIsNewestFirst(cfg: Config, steps: seq<Step>)
    requires Reachable(cfg, steps)
    ensures NewestFirst(cfg, steps, After(cfg, steps).pool.idle)
  {
    hide Next;
    hide Enabled;
    hide LastBack;
    if steps != [] {
      LastStep(cfg, CONNECTED, steps);
      hide Legal;
      hide NewestFirst;
      hide After;
      IdleIsNewestFirst(cfg, steps[..|steps| - 1]);
      StillNewestFirst(cfg, steps);
    }
  }

  /** A call that finds idle connections takes the one given back last; one that
      finds none opens a new one if there is room. */
  lemma {:induction false} TakesTheLatest(cfg: Config, steps: seq<Step>, t: nat)
    requires Reachable(cfg, steps) && Enabled(After(cfg, steps), Get(t))
    ensures var w := After(cfg, steps);
            var a := Next(cfg, w, Get(t)).threads[t].at;
            if w.pool.idle != []
            then && a.Holding? && a.conn in w.pool.idle
                 && forall c :: c in w.pool.idle && c != a.conn ==>
                      LastBack(cfg, steps, c) < LastBack(cfg, steps, a.conn)
            else a.Opening? <==> w.pool.total < cfg.maxConnections
  {
    hide LastBack;
    hide Run;
    hide Legal;
    IdleIsNewestFirst(cfg, steps);
  }
}
