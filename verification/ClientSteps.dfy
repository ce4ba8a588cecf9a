/** One call taken step by step, with nobody in between: how the client's own loop
    moves through the system of steps that SdkClient describes. */
module ClientSteps {
  import opened Words
  import opened SdkPool
  import opened SdkClient
  import opened SdkRuns
  import opened SdkTheorems

  /** What becomes of one exchange over a connection: refused before anything is
      sent, broken off while writing or while reading, or answered. */
  datatype Wire = Local | WriteBreaks | ReadBreaks | Replies(says: Says)

  function StatusOf(x: Wire): CallStatus {
    match x
    case Local => CallInvalid
    case Replies(says) => Verdict(0, Reply(0, says))
    case _ => CallLost
  }

  predicate Transmits(x: Wire) {
    x.ReadBreaks? || x.Replies?
  }

  lemma {:induction false} Extend(cfg: Config, w: World, steps: seq<Step>, s: Step)
    requires Legal(cfg, w, steps) && Enabled(Run(cfg, w, steps), s)
    ensures Legal(cfg, w, steps + [s]) && Run(cfg, w, steps + [s]) == Next(cfg, Run(cfg, w, steps), s)
    decreases |steps|
  {
    hide Enabled;
    hide Next;
    if steps == [] {
      assert steps + [s] == [s] && [s][1..] == [];
    } else {
      Extend(cfg, Next(cfg, w, steps[0]), steps[1..], s);
      assert (steps + [s])[1..] == steps[1..] + [s];
    }
  }

  /** `w` is where these steps lead a client that has just connected. */
  ghost predicate Leads(cfg: Config, steps: seq<Step>, w: World) {
    cfg.maxConnections >= 1 && Legal(cfg, CONNECTED, steps) && Run(cfg, CONNECTED, steps) == w && Inv(cfg, w)
  }

  lemma ConnectedLeads(cfg: Config)
    ensures Leads(cfg, [], CONNECTED) <==> cfg.maxConnections >= 1
    ensures Bounded(cfg, CONNECTED) <==> cfg.maxConnections >= 1
  {
    if cfg.maxConnections >= 1 { Reached(cfg, [], 0); }
  }

  lemma StepTo(cfg: Config, steps: seq<Step>, w: World, s: Step) returns (w': World)
    requires Leads(cfg, steps, w) && Enabled(w, s)
    ensures w' == Next(cfg, w, s) && Leads(cfg, steps + [s], w')
  {
    hide Next;
    hide Enabled;
    hide Inv;
    Extend(cfg, CONNECTED, steps, s);
    StepKeepsInv(cfg, w, s);
    w' := Next(cfg, w, s);
  }

  lemma InOrderHere(cfg: Config, steps: seq<Step>, w: World, t: nat)
    requires Leads(cfg, steps, w) && t < |w.threads|
    ensures InOrder(t, w.threads[t].at, w.links)
    ensures Occupies(w.threads[t].at) ==> 0 < w.pool.total
  {
    InUseUpdate(w.threads, t, w.threads[t]);
    hide InUse;
  }

  /** The call has left its connection `c` with this outcome. */
  ghost predicate Left(w: World, w': World, t: nat, c: nat, x: Wire) {
    && t < |w.threads| && w'.pool == w.pool && |w'.links| == |w.links|
    && exists answer :: w'.threads == w.threads[t := LeftThread(w.threads[t], c, x, answer)]
  }

  function LeftThread(y: Thread, c: nat, x: Wire, answer: Option<nat>): Thread {
    y.(at := Releasing(c, StatusOf(x), answer), sends := y.sends + if Transmits(x) then 1 else 0)
  }

  lemma WriteEffect(cfg: Config, w: World, t: nat)
    requires t < |w.threads| && w.threads[t].at.Holding? && w.threads[t].at.conn < |w.links|
    ensures Enabled(w, Write(t)) && Enabled(w, WriteFail(t))
    ensures var c, w' := w.threads[t].at.conn, Next(cfg, w, Write(t));
            && w'.pool == w.pool && |w'.links| == |w.links|
            && w'.threads == w.threads[t := w.threads[t].(at := Waiting(c), sends := w.threads[t].sends + 1)]
            && w'.links[c].sent == w.links[c].sent + [Sent(t, w.links[c].nextId)]
            && w'.links[c].replies == w.links[c].replies && w'.links[c].consumed == w.links[c].consumed
            && Enabled(w', ReadFail(t))
  {
  }

  lemma AnswerEffect(cfg: Config, w: World, t: nat, c: nat, says: Says)
    requires t < |w.threads| && w.threads[t].at == Waiting(c) && c < |w.links|
    requires |w.links[c].sent| == |w.links[c].replies| + 1 && w.links[c].consumed == |w.links[c].replies|
    ensures Enabled(w, Answer(c, says)) && Enabled(Next(cfg, w, Answer(c, says)), Read(t))
    ensures var w' := Next(cfg, Next(cfg, w, Answer(c, says)), Read(t));
            && w'.pool == w.pool && |w'.links| == |w.links|
            && w'.threads == w.threads[t := w.threads[t].(at := Releasing(c, StatusOf(Replies(says)),
                                                                          Some(w.links[c].consumed)))]
  {
  }

  /** From holding a connection to having done with it. */
  lemma Exchanges(cfg: Config, steps: seq<Step>, w: World, t: nat, x: Wire) returns (steps': seq<Step>, w': World)
    requires Leads(cfg, steps, w) && t < |w.threads| && w.threads[t].at.Holding?
    ensures steps <= steps' && Leads(cfg, steps', w') && Left(w, w', t, w.threads[t].at.conn, x)
  {
    hide Leads;
    hide Next;
    hide Enabled;
    InOrderHere(cfg, steps, w, t);
    var c := w.threads[t].at.conn;
    WriteEffect(cfg, w, t);
    match x
    case Local =>
      LocalEffect(cfg, w, t);
      steps' := steps + [RejectLocally(t)];
      w' := StepTo(cfg, steps, w, RejectLocally(t));
      assert w'.threads == w.threads[t := LeftThread(w.threads[t], c, x, None)];
    case WriteBreaks =>
      LostEffect(cfg, w, t);
      steps' := steps + [WriteFail(t)];
      w' := StepTo(cfg, steps, w, WriteFail(t));
      assert w'.threads == w.threads[t := LeftThread(w.threads[t], c, x, None)];
    case ReadBreaks =>
      var v := StepTo(cfg, steps, w, Write(t));
      LostEffect(cfg, v, t);
      steps' := steps + [Write(t)] + [ReadFail(t)];
      w' := StepTo(cfg, steps + [Write(t)], v, ReadFail(t));
      assert w'.threads == w.threads[t := LeftThread(w.threads[t], c, x, None)];
    case Replies(says) =>
      var v := StepTo(cfg, steps, w, Write(t));
      AnswerEffect(cfg, v, t, c, says);
      var u := StepTo(cfg, steps + [Write(t)], v, Answer(c, says));
      steps' := steps + [Write(t)] + [Answer(c, says)] + [Read(t)];
      w' := StepTo(cfg, steps + [Write(t)] + [Answer(c, says)], u, Read(t));
      assert w'.threads == w.threads[t := LeftThread(w.threads[t], c, x, Some(v.links[c].consumed))];
  }

  lemma LocalEffect(cfg: Config, w: World, t: nat)
    requires t < |w.threads| && w.threads[t].at.Holding?
    ensures Enabled(w, RejectLocally(t))
    ensures var w' := Next(cfg, w, RejectLocally(t));
            && w'.pool == w.pool && w'.links == w.links
            && w'.threads == w.threads[t := w.threads[t].(at := Releasing(w.threads[t].at.conn, CallInvalid, None))]
  {
  }

  lemma LostEffect(cfg: Config, w: World, t: nat)
    requires t < |w.threads| && (w.threads[t].at.Holding? || w.threads[t].at.Waiting?)
    requires w.threads[t].at.conn < |w.links|
    ensures var s := if w.threads[t].at.Holding? then WriteFail(t) else ReadFail(t);
            && Enabled(w, s)
            && var w' := Next(cfg, w, s);
               && w'.pool == w.pool && |w'.links| == |w.links|
               && w'.threads == w.threads[t := w.threads[t].(at := Releasing(w.threads[t].at.conn, CallLost, None))]
  {
  }

  /** The thread after an attempt that came to `code`. */
  ghost predicate WentOn(y: Thread, y': Thread, code: StatusCode) {
    exists from :: y' == Again(y, code, from)
  }

  /** Where in its attempt the thread stood makes no difference. */
  lemma AgainFromAnywhere(y: Thread, a: At, y': Thread, code: StatusCode)
    requires WentOn(y.(at := a), y', code)
    ensures WentOn(y, y', code)
  {
    var from :| y' == Again(y.(at := a), code, from);
    assert y' == Again(y, code, from);
  }

  lemma WithinBound(cfg: Config, steps: seq<Step>, w: World)
    requires Leads(cfg, steps, w)
    ensures |w.pool.idle| <= w.pool.total <= cfg.maxConnections
  {
  }

  lemma PutsBack(cfg: Config, steps: seq<Step>, w: World, t: nat) returns (w': World)
    requires Leads(cfg, steps, w) && t < |w.threads| && w.threads[t].at.Releasing?
    ensures Leads(cfg, steps + [PutBack(t)], w') && 0 < w.pool.total && |w'.links| == |w.links|
    ensures var a := w.threads[t].at;
            && w'.pool == Release(w.pool, a.conn, !Spoils(MapStatus(a.status)))
            && |w'.threads| == |w.threads| && w'.threads == w.threads[t := w'.threads[t]]
            && WentOn(w.threads[t], w'.threads[t], MapStatus(a.status))
  {
    hide Leads;
    InOrderHere(cfg, steps, w, t);
    w' := StepTo(cfg, steps, w, PutBack(t));
  }

  lemma TakesOne(cfg: Config, steps: seq<Step>, w: World, t: nat) returns (w': World)
    requires Leads(cfg, steps, w) && t < |w.threads| && w.threads[t].at.Acquiring?
    ensures Leads(cfg, steps + [Get(t)], w') && w'.links == w.links
    ensures w'.pool == Acquire(w.pool, cfg.maxConnections).0
    ensures |w'.threads| == |w.threads| && w'.threads == w.threads[t := w'.threads[t]]
    ensures match Acquire(w.pool, cfg.maxConnections).1
            case Idle(c) => w'.threads[t] == w.threads[t].(at := Holding(c))
            case Slot => w'.threads[t] == w.threads[t].(at := Opening)
            case Busy => WentOn(w.threads[t], w'.threads[t], Unavailable)
  {
    hide Leads;
    w' := StepTo(cfg, steps, w, Get(t));
  }

  lemma OpensOne(cfg: Config, steps: seq<Step>, w: World, t: nat, ok: bool) returns (s: Step, w': World)
    requires Leads(cfg, steps, w) && t < |w.threads| && w.threads[t].at.Opening?
    ensures Leads(cfg, steps + [s], w') && 0 < w.pool.total
    ensures |w'.threads| == |w.threads| && w'.threads == w.threads[t := w'.threads[t]]
    ensures if ok
            then && w'.pool == w.pool && |w'.links| == |w.links| + 1
                 && w'.threads[t] == w.threads[t].(at := Holding(|w.links|))
            else && w'.pool == GiveBack(w.pool) && w'.links == w.links
                 && WentOn(w.threads[t], w'.threads[t], Unavailable)
  {
    hide Leads;
    InOrderHere(cfg, steps, w, t);
    s := if ok then OpenOk(t) else OpenFail(t);
    w' := StepTo(cfg, steps, w, s);
  }

  lemma Begins(cfg: Config, steps: seq<Step>, w: World, recording: bool) returns (w': World)
    requires Leads(cfg, steps, w)
    ensures Leads(cfg, steps + [Begin(recording)], w') && w'.pool == w.pool && w'.links == w.links
    ensures w'.threads == w.threads + [Thread(recording, Attempts(cfg, recording), 0, 0, Acquiring)]
  {
    hide Leads;
    w' := StepTo(cfg, steps, w, Begin(recording));
  }
}
