/** The client's connection pool: what is idle, and how many connections exist or
    are being opened. */
module SdkPool {
  /** `idle` is newest first. */
  datatype Pool = Pool(idle: seq<nat>, total: nat)

  datatype Acquired = Idle(conn: nat) | Slot | Busy

  /** An idle connection if there is one, else a slot to open one in, else neither. */
  function Acquire(p: Pool, max: nat): (Pool, Acquired) {
    if p.idle != [] then (p.(idle := p.idle[1..]), Idle(p.idle[0]))
    else if p.total < max then (p.(total := p.total + 1), Slot)
    else (p, Busy)
  }

  function GiveBack(p: Pool): Pool
    requires 0 < p.total
  {
    p.(total := p.total - 1)
  }

  /** A connection that failed is dropped, not recycled. */
  function Release(p: Pool, conn: nat, healthy: bool): Pool
    requires 0 < p.total
  {
    if healthy then p.(idle := [conn] + p.idle) else GiveBack(p)
  }
}

/** Calls of any number of threads over the pool, and the daemon at the other end
    of each connection, as atomic steps. */
module SdkClient {
  import opened Words
  import opened SdkPool

  /** What happened to a connection, and what the caller is told. */
  datatype CallStatus = CallOk | CallNotFound | CallInvalid | CallServerError | CallLost | CallProtocol

  datatype StatusCode = Ok | NotFound | InvalidArgument | Unavailable | DeadlineExceeded | Internal | ProtocolError

  function MapStatus(s: CallStatus): StatusCode {
    match s
    case CallOk => Ok
    case CallNotFound => NotFound
    case CallInvalid => InvalidArgument
    case CallServerError => Internal
    case CallLost => Unavailable
    case CallProtocol => ProtocolError
  }

  predicate IsRetryable(c: StatusCode) {
    c.Unavailable? || c.DeadlineExceeded?
  }

  /** The stream is no longer in a known state. */
  predicate Spoils(c: StatusCode) {
    c.Unavailable? || c.ProtocolError? || c.DeadlineExceeded?
  }

  /** A request on the wire, and whose call it is. */
  datatype Sent = Sent(call: nat, id: nat)

  /** What a reply frame says: the expected body with or without the item, a
      failure, a body of another type, or nothing that decodes. */
  datatype Says = Fine | Missing | Refused | Broken | OddType | Garbled

  datatype Reply = Reply(id: nat, says: Says)

  /** One connection: requests written in full, replies the daemon has written,
      how many of those were read, whether half a frame is on the wire in either
      direction, and whether this end is open. */
  datatype Link = Link(sent: seq<Sent>, replies: seq<Reply>, consumed: nat, torn: bool, open: bool, nextId: nat)

  const FRESH := Link([], [], 0, false, true, 1)

  datatype At =
    | Acquiring
    | Opening
    | Holding(conn: nat)
    | Waiting(conn: nat)
    | Releasing(conn: nat, status: CallStatus, answer: Option<nat>)
    | Finished(code: StatusCode, from: Option<(nat, nat)>)

  datatype Thread = Thread(recording: bool, attempts: nat, attempt: nat, sends: nat, at: At)

  datatype Config = Config(maxConnections: nat, maxRetries: nat, retryRecording: bool)

  datatype World = World(threads: seq<Thread>, links: seq<Link>, pool: Pool)

  /** After `connect`: one connection, opened eagerly. */
  const CONNECTED := World([], [FRESH], Pool([0], 1))

  datatype Step =
    | Begin(recording: bool)
    | Get(t: nat)
    | OpenOk(t: nat)
    | OpenFail(t: nat)
    | RejectLocally(t: nat)
    | Write(t: nat)
    | WriteFail(t: nat)
    | Read(t: nat)
    | ReadFail(t: nat)
    | PutBack(t: nat)
    | Answer(c: nat, says: Says)

  predicate Enabled(w: World, s: Step) {
    match s
    case Begin(_) => true
    case Get(t) => t < |w.threads| && w.threads[t].at.Acquiring?
    case OpenOk(t) => t < |w.threads| && w.threads[t].at.Opening?
    case OpenFail(t) => t < |w.threads| && w.threads[t].at.Opening? && 0 < w.pool.total
    case RejectLocally(t) => t < |w.threads| && w.threads[t].at.Holding?
    case Write(t) => t < |w.threads| && w.threads[t].at.Holding? && w.threads[t].at.conn < |w.links|
    case WriteFail(t) => t < |w.threads| && w.threads[t].at.Holding? && w.threads[t].at.conn < |w.links|
    case Read(t) =>
      && t < |w.threads| && w.threads[t].at.Waiting? && w.threads[t].at.conn < |w.links|
      && var l := w.links[w.threads[t].at.conn]; l.sent != [] && l.consumed < |l.replies|
    case ReadFail(t) => t < |w.threads| && w.threads[t].at.Waiting? && w.threads[t].at.conn < |w.links|
    case PutBack(t) =>
      && t < |w.threads| && w.threads[t].at.Releasing? && w.threads[t].at.conn < |w.links| && 0 < w.pool.total
    case Answer(c, _) => c < |w.links| && |w.links[c].replies| < |w.links[c].sent|
  }

  function Attempts(c: Config, recording: bool): nat {
    if !recording || c.retryRecording then c.maxRetries + 1 else 1
  }

  /** Another attempt if one is left and the failure is worth one. */
  function Again(x: Thread, code: StatusCode, from: Option<(nat, nat)>): Thread {
    if IsRetryable(code) && x.attempt + 1 < x.attempts then x.(attempt := x.attempt + 1, at := Acquiring)
    else x.(attempt := x.attempt + 1, at := Finished(code, from))
  }

  /** What a reply frame means to a request: the id must match and the body must be
      of the type asked for. */
  function Verdict(id: nat, r: Reply): CallStatus {
    if r.says.Garbled? || r.id != id then CallProtocol
    else match r.says
      case Fine => CallOk
      case Missing => CallNotFound
      case Refused => CallInvalid
      case Broken => CallServerError
      case _ => CallProtocol
  }

  function LastId(l: Link): nat
    requires l.sent != []
  {
    l.sent[|l.sent| - 1].id
  }

  /** Only a reply that decodes and carries the id leaves the connection open. */
  predicate Keeps(id: nat, r: Reply) {
    !r.says.Garbled? && r.id == id
  }

  function AfterRead(l: Link): Link
    requires l.sent != [] && l.consumed < |l.replies|
  {
    l.(consumed := l.consumed + 1, open := l.open && Keeps(LastId(l), l.replies[l.consumed]))
  }

  function SetAt(w: World, t: nat, at: At): World
    requires t < |w.threads|
  {
    w.(threads := w.threads[t := w.threads[t].(at := at)])
  }

  function SetLink(w: World, c: nat, l: Link): World
    requires c < |w.links|
  {
    w.(links := w.links[c := l])
  }

  function Next(cfg: Config, w: World, s: Step): World
    requires Enabled(w, s)
  {
    match s
    case Begin(recording) => w.(threads := w.threads + [Thread(recording, Attempts(cfg, recording), 0, 0, Acquiring)])
    case Get(t) =>
      var (pool, got) := Acquire(w.pool, cfg.maxConnections);
      var w := w.(pool := pool);
      (match got
       case Idle(c) => SetAt(w, t, Holding(c))
       case Slot => SetAt(w, t, Opening)
       case Busy => w.(threads := w.threads[t := Again(w.threads[t], Unavailable, None)]))
    case OpenOk(t) => SetAt(w, t, Holding(|w.links|)).(links := w.links + [FRESH])
    case OpenFail(t) =>
      w.(threads := w.threads[t := Again(w.threads[t], Unavailable, None)], pool := GiveBack(w.pool))
    case RejectLocally(t) => SetAt(w, t, Releasing(w.threads[t].at.conn, CallInvalid, None))
    case Write(t) =>
      var x, c := w.threads[t], w.threads[t].at.conn;
      var l := w.links[c];
      SetLink(w, c, l.(sent := l.sent + [Sent(t, l.nextId)], nextId := l.nextId + 1))
        .(threads := w.threads[t := x.(at := Waiting(c), sends := x.sends + 1)])
    case WriteFail(t) =>
      var c := w.threads[t].at.conn;
      SetAt(SetLink(w, c, w.links[c].(open := false, torn := true)), t, Releasing(c, CallLost, None))
    case Read(t) =>
      var c := w.threads[t].at.conn;
      var l := w.links[c];
      var verdict := Verdict(LastId(l), l.replies[l.consumed]);
      SetAt(SetLink(w, c, AfterRead(l)), t, Releasing(c, verdict, Some(l.consumed)))
    case ReadFail(t) =>
      var c := w.threads[t].at.conn;
      SetAt(SetLink(w, c, w.links[c].(open := false, torn := true)), t, Releasing(c, CallLost, None))
    case PutBack(t) =>
      var x, c := w.threads[t], w.threads[t].at.conn;
      var code := MapStatus(x.at.status);
      var from := if x.at.answer.Some? then Some((c, x.at.answer.value)) else None;
      w.(pool := Release(w.pool, c, !Spoils(code) && w.links[c].open), threads := w.threads[t := Again(x, code, from)])
    case Answer(c, says) =>
      var l := w.links[c];
      SetLink(w, c, l.(replies := l.replies + [Reply(l.sent[|l.replies|].id, says)]))
  }
}
