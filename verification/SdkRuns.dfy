/** What every interleaving of client calls keeps: the pool's bound, who holds which
    connection, that an idle connection owes and is owed nothing, and that every
    answer is the reply to its own request. */
module SdkRuns {
  import opened Lists
  import opened SdkClient

  predicate Holds(a: At) {
    a.Holding? || a.Waiting? || a.Releasing?
  }

  predicate Occupies(a: At) {
    a.Opening? || Holds(a)
  }

  // -------------------------------------------------------------------------
  // The pool's count
  // -------------------------------------------------------------------------

  function InUse(threads: seq<Thread>): nat {
    if threads == [] then 0
    else InUse(threads[..|threads| - 1]) + OneInUse(threads[|threads| - 1])
  }

  function OneInUse(x: Thread): nat {
    if Occupies(x.at) then 1 else 0
  }

  lemma {:induction false} InUseUpdate(threads: seq<Thread>, t: nat, x: Thread)
    requires t < |threads|
    ensures InUse(threads[t := x]) + OneInUse(threads[t]) == InUse(threads) + OneInUse(x)
    ensures OneInUse(threads[t]) <= InUse(threads)
  {
    var n := |threads| - 1;
    if t < n {
      InUseUpdate(threads[..n], t, x);
      assert threads[t := x][..n] == threads[..n][t := x];
    } else {
      assert threads[t := x][..n] == threads[..n];
    }
  }

  lemma {:induction false} InUseAppend(threads: seq<Thread>, x: Thread)
    ensures InUse(threads + [x]) == InUse(threads) + OneInUse(x)
  {
    assert (threads + [x])[..|threads|] == threads;
  }

  /** Every connection counted is idle, held by a call, or being opened by one. */
  ghost predicate Bounded(cfg: Config, w: World) {
    w.pool.total == |w.pool.idle| + InUse(w.threads) && w.pool.total <= cfg.maxConnections
  }

  /** The thread that takes a step. */
  function Actor(s: Step): nat {
    match s
    case Begin(_) => 0
    case Get(t) => t
    case OpenOk(t) => t
    case OpenFail(t) => t
    case RejectLocally(t) => t
    case Write(t) => t
    case WriteFail(t) => t
    case Read(t) => t
    case ReadFail(t) => t
    case PutBack(t) => t
    case Answer(_, _) => 0
  }

  predicate HasActor(s: Step) {
    !s.Begin? && !s.Answer?
  }

  lemma ActorMoves(cfg: Config, w: World, s: Step)
    requires Enabled(w, s) && HasActor(s)
    ensures Actor(s) < |w.threads| == |Next(cfg, w, s).threads|
    ensures Next(cfg, w, s).threads == w.threads[Actor(s) := Next(cfg, w, s).threads[Actor(s)]]
  {
  }

  lemma PoolFollows(cfg: Config, w: World, s: Step)
    requires Enabled(w, s) && HasActor(s) && w.pool.total <= cfg.maxConnections
    requires Actor(s) < |w.threads| == |Next(cfg, w, s).threads|
    ensures var w' := Next(cfg, w, s);
            && w'.pool.total <= cfg.maxConnections
            && w'.pool.total + |w.pool.idle| + OneInUse(w.threads[Actor(s)])
               == w.pool.total + |w'.pool.idle| + OneInUse(w'.threads[Actor(s)])
  {
  }

  lemma StepKeepsBounded(cfg: Config, w: World, s: Step)
    requires Bounded(cfg, w) && Enabled(w, s)
    ensures Bounded(cfg, Next(cfg, w, s))
  {
    if HasActor(s) {
      ActorMoves(cfg, w, s);
      PoolFollows(cfg, w, s);
      InUseUpdate(w.threads, Actor(s), Next(cfg, w, s).threads[Actor(s)]);
      hide Next;
      hide InUse;
    } else if s.Begin? {
      InUseAppend(w.threads, Next(cfg, w, s).threads[|w.threads|]);
    }
  }

  // -------------------------------------------------------------------------
  // Who holds which connection
  // -------------------------------------------------------------------------

  ghost predicate Placed(threads: seq<Thread>, n: nat, idle: seq<nat>) {
    && NoDup(idle) && (forall i :: 0 <= i < |idle| ==> idle[i] < n)
    && (forall t :: 0 <= t < |threads| && Holds(threads[t].at) ==>
          threads[t].at.conn < n && threads[t].at.conn !in idle)
    && (forall t, u :: 0 <= t < u < |threads| && Holds(threads[t].at) && Holds(threads[u].at) ==>
          threads[t].at.conn != threads[u].at.conn)
  }

  lemma LetGo(threads: seq<Thread>, n: nat, idle: seq<nat>, t: nat, x: Thread)
    requires Placed(threads, n, idle) && t < |threads| && !Holds(x.at)
    ensures Placed(threads[t := x], n, idle)
    ensures Holds(threads[t].at) ==> Placed(threads[t := x], n, [threads[t].at.conn] + idle)
  {
  }

  lemma HoldOn(threads: seq<Thread>, n: nat, idle: seq<nat>, t: nat, x: Thread)
    requires Placed(threads, n, idle) && t < |threads|
    requires Holds(threads[t].at) && Holds(x.at) && x.at.conn == threads[t].at.conn
    ensures Placed(threads[t := x], n, idle)
  {
  }

  lemma TakeIdle(threads: seq<Thread>, n: nat, idle: seq<nat>, t: nat, x: Thread)
    requires Placed(threads, n, idle) && t < |threads| && !Holds(threads[t].at) && idle != []
    requires Holds(x.at) && x.at.conn == idle[0]
    ensures Placed(threads[t := x], n, idle[1..])
  {
  }

  lemma TakeNew(threads: seq<Thread>, n: nat, idle: seq<nat>, t: nat, x: Thread)
    requires Placed(threads, n, idle) && t < |threads| && !Holds(threads[t].at)
    requires Holds(x.at) && x.at.conn == n
    ensures Placed(threads[t := x], n + 1, idle)
  {
  }

  lemma StepKeepsPlaced(cfg: Config, w: World, s: Step)
    requires Placed(w.threads, |w.links|, w.pool.idle) && Enabled(w, s)
    ensures var w' := Next(cfg, w, s); Placed(w'.threads, |w'.links|, w'.pool.idle)
  {
    var w' := Next(cfg, w, s);
    if s.Begin? {
      assert forall t :: 0 <= t < |w.threads| ==> w'.threads[t] == w.threads[t];
    } else if HasActor(s) {
      hide Placed;
      ActorMoves(cfg, w, s);
      var t := Actor(s);
      var x, n, idle := w'.threads[t], |w.links|, w.pool.idle;
      if s.OpenOk? {
        TakeNew(w.threads, n, idle, t, x);
      } else if s.Get? && idle != [] {
        TakeIdle(w.threads, n, idle, t, x);
      } else if s.Get? || s.OpenFail? || s.PutBack? {
        LetGo(w.threads, n, idle, t, x);
      } else {
        HoldOn(w.threads, n, idle, t, x);
      }
    }
  }

  // -------------------------------------------------------------------------
  // What is on the wires
  // -------------------------------------------------------------------------

  /** The daemon answers in order and gives back each request's id. */
  ghost predicate Answered(l: Link) {
    && l.consumed <= |l.replies| <= |l.sent|
    && (forall j :: 0 <= j < |l.replies| ==> l.replies[j].id == l.sent[j].id)
  }

  /** Open, every request answered, every answer read, no half frame. */
  ghost predicate Quiet(l: Link) {
    l.open && !l.torn && |l.sent| == |l.replies| == l.consumed
  }

  /** Reply `k` on this connection answers a request of call `t`, and means `code`. */
  ghost predicate AnswerTo(l: Link, k: nat, t: nat, code: StatusCode) {
    && k < |l.replies| && k < |l.sent| && l.sent[k].call == t
    && MapStatus(Verdict(l.sent[k].id, l.replies[k])) == code
  }

  ghost predicate InOrder(t: nat, a: At, links: seq<Link>) {
    match a
    case Holding(c) => c < |links| && Quiet(links[c])
    case Waiting(c) =>
      && c < |links| && links[c].open && !links[c].torn
      && |links[c].sent| == links[c].consumed + 1 && links[c].sent[links[c].consumed].call == t
    case Releasing(c, status, answer) =>
      && c < |links| && (!Spoils(MapStatus(status)) ==> Quiet(links[c]))
      && (answer.Some? ==> AnswerTo(links[c], answer.value, t, MapStatus(status)))
      && (answer.None? ==> status.CallLost? || status.CallInvalid?)
    case Finished(code, from) =>
      && (from.Some? ==> from.value.0 < |links| && AnswerTo(links[from.value.0], from.value.1, t, code))
      && (from.None? ==> code.Unavailable? || code.InvalidArgument?)
    case _ => true
  }

  ghost predicate Wired(w: World) {
    && (forall c :: 0 <= c < |w.links| ==> Answered(w.links[c]))
    && (forall i :: 0 <= i < |w.pool.idle| ==> w.pool.idle[i] < |w.links| && Quiet(w.links[w.pool.idle[i]]))
    && (forall t :: 0 <= t < |w.threads| ==> InOrder(t, w.threads[t].at, w.links))
  }

  /** A later state of the same connection. */
  ghost predicate Grew(l: Link, m: Link) {
    l.sent <= m.sent && l.replies <= m.replies
  }

  lemma AnswerStays(l: Link, m: Link, k: nat, t: nat, code: StatusCode)
    requires Grew(l, m) && AnswerTo(l, k, t, code)
    ensures AnswerTo(m, k, t, code)
  {
  }

  /** A call is not disturbed by a change to a connection it does not hold. */
  lemma OthersUndisturbed(t: nat, a: At, links: seq<Link>, c: nat, m: Link)
    requires InOrder(t, a, links) && c < |links| && Grew(links[c], m) && !(Holds(a) && a.conn == c)
    ensures InOrder(t, a, links[c := m])
    ensures InOrder(t, a, links + [FRESH])
  {
    if a.Finished? && a.from.Some? && a.from.value.0 == c {
      AnswerStays(links[c], m, a.from.value.1, t, a.code);
    }
  }

  ghost predicate Inv(cfg: Config, w: World) {
    Bounded(cfg, w) && Placed(w.threads, |w.links|, w.pool.idle) && Wired(w)
  }

  /** The steps that touch the wire of the connection their thread holds. */
  predicate OnWire(s: Step) {
    s.Write? || s.WriteFail? || s.Read? || s.ReadFail?
  }

  lemma WireStep(cfg: Config, w: World, s: Step)
    requires Inv(cfg, w) && Enabled(w, s) && OnWire(s)
    ensures var w', t := Next(cfg, w, s), Actor(s);
            && t < |w.threads| == |w'.threads| && Holds(w.threads[t].at)
            && var c := w.threads[t].at.conn;
               && c < |w.links| == |w'.links| && w'.links == w.links[c := w'.links[c]]
               && Answered(w'.links[c]) && Grew(w.links[c], w'.links[c])
               && w'.pool == w.pool && InOrder(t, w'.threads[t].at, w'.links)
  {
    var t := Actor(s);
    var c := w.threads[t].at.conn;
    assert InOrder(t, w.threads[t].at, w.links) && Answered(w.links[c]);
    hide Placed;
    hide Bounded;
  }

  lemma WireStepKeepsWired(cfg: Config, w: World, s: Step)
    requires Inv(cfg, w) && Enabled(w, s) && OnWire(s)
    ensures Wired(Next(cfg, w, s))
  {
    WireStep(cfg, w, s);
    ActorMoves(cfg, w, s);
    var w', t := Next(cfg, w, s), Actor(s);
    var c := w.threads[t].at.conn;
    hide Next;
    hide Enabled;
    hide Bounded;
    hide InOrder;
    hide Answered;
    forall u | 0 <= u < |w'.threads|
      ensures InOrder(u, w'.threads[u].at, w'.links)
    {
      if u != t {
        OthersUndisturbed(u, w.threads[u].at, w.links, c, w'.links[c]);
      }
    }
  }

  lemma AnswerKeepsWired(cfg: Config, w: World, c: nat, says: Says)
    requires Inv(cfg, w) && Enabled(w, Answer(c, says))
    ensures Wired(Next(cfg, w, Answer(c, says)))
  {
    hide Placed;
    hide Bounded;
    var w' := Next(cfg, w, Answer(c, says));
    assert Answered(w.links[c]);
    forall u | 0 <= u < |w'.threads|
      ensures InOrder(u, w'.threads[u].at, w'.links)
    {
      var a := w.threads[u].at;
      assert InOrder(u, a, w.links);
      if Holds(a) && a.conn == c {
        if a.Releasing? && a.answer.Some? {
          AnswerStays(w.links[c], w'.links[c], a.answer.value, u, MapStatus(a.status));
        }
      } else {
        OthersUndisturbed(u, a, w.links, c, w'.links[c]);
      }
    }
  }

  lemma PoolStepKeepsWired(cfg: Config, w: World, s: Step)
    requires Inv(cfg, w) && Enabled(w, s) && !OnWire(s) && !s.Answer?
    ensures Wired(Next(cfg, w, s))
  {
    hide Placed;
    hide Bounded;
    hide AnswerTo;
    hide Answered;
    hide Quiet;
    var w' := Next(cfg, w, s);
    FreshLink();
    assert forall t :: 0 <= t < |w.threads| ==> InOrder(t, w.threads[t].at, w.links);
  }

  lemma FreshLink()
    ensures Quiet(FRESH) && Answered(FRESH)
  {
  }
}
