/** The client as it runs: one connection's call, the pool's critical sections, and
    the retry loop. */
module Connections {
  import opened Words
  import opened Wire
  import opened Messages
  import opened Codec
  import opened BinaryCodecs
  import opened Frames
  import opened Streams
  import SdkClient

  /** The reply a request should get, by type. */
  predicate Expected(asked: RequestBody, got: ResponseBody) {
    match asked
    case GetItem(_) => got.GetItemResult?
    case PutItem(_) => got.PutItemResult?
    case DeleteItem(_) => got.DeleteItemResult?
    case GetStats => got.StatsResult?
    case Recommend(_, _, _) => got.RecommendResult?
  }

  /** What a reply frame says to a request, as far as the caller is concerned. */
  function Said(asked: RequestBody, frame: Bytes): SdkClient.Reply {
    var d := DecodeResponse(frame);
    if d.Err? then SdkClient.Reply(0, SdkClient.Garbled)
    else SdkClient.Reply(d.value.id, SaysOf(asked, d.value.body))
  }

  function SaysOf(asked: RequestBody, got: ResponseBody): SdkClient.Says {
    if got.Failure? then if got.status == STATUS_INVALID then SdkClient.Refused else SdkClient.Broken
    else if !Expected(asked, got) then SdkClient.OddType
    else if (got.GetItemResult? || got.DeleteItemResult?) && got.status == STATUS_NOT_FOUND then SdkClient.Missing
    else SdkClient.Fine
  }

  /** Requests the client refuses itself, before anything is sent. */
  predicate RefusedLocally(body: RequestBody) {
    match body
    case PutItem(item) => |item.category| > MAX_CATEGORY || |item.advertiser| > MAX_ADVERTISER
    case Recommend(_, count, _) => count == 0 || count > MAX_RECOMMEND
    case _ => false
  }

  class Connection {
    const stream: UnixStream
    var open: bool
    var nextId: u64

    constructor (stream: UnixStream)
      ensures this.stream == stream && open && nextId == 1
    {
      this.stream := stream;
      open, nextId := true, 1;
    }

    /** Sends one request and reads one reply. The connection stays open exactly
        when the daemon gave a well-formed answer under the request's id; then one
        whole frame went out, one whole frame came in, and nothing more. A call
        that is lost has sent a first part of its frame, or all of it and got no
        whole frame back. When only short transfers and signals happen, the reply
        that stands at the head of the stream is the one returned. */
    method Call(request: Request) returns (status: SdkClient.CallStatus, response: Option<Response>)
      requires open
      modifies this`open, stream
      ensures open <==> response.Some?
      ensures response.Some? ==>
                && stream.outgoing == old(stream.outgoing) + Framed(EncodeRequest(request))
                && HeadOf(old(stream.incoming)) == Whole(EncodeResponse(response.value), stream.incoming)
                && DecodeResponse(EncodeResponse(response.value)) == Ok(response.value)
                && response.value.id == request.id
                && status == (match response.value.body
                              case Failure(code, _) =>
                                if code == STATUS_INVALID then SdkClient.CallInvalid else SdkClient.CallServerError
                              case _ => SdkClient.CallOk)
      ensures response.None? ==> status.CallLost? || status.CallProtocol?
      ensures status.CallProtocol? ==>
                && stream.outgoing == old(stream.outgoing) + Framed(EncodeRequest(request))
                && var h := HeadOf(old(stream.incoming));
                   && h.Whole? && stream.incoming == h.rest
                   && (DecodeResponse(h.body).Ok? ==> DecodeResponse(h.body).value.id != request.id)
      ensures status.CallLost? ==>
                || Puts(old(stream.outgoing), stream.outgoing, EncodeRequest(request), true)
                || (Puts(old(stream.outgoing), stream.outgoing, EncodeRequest(request), false)
                    && stream.incoming == old(stream.incoming))
      ensures Benign(old(stream.readAnswers)) && Benign(old(stream.writeAnswers)) ==>
                && Benign(stream.readAnswers) && Benign(stream.writeAnswers)
                && (status.CallLost? ==> !ValidBody(EncodeRequest(request)) || !HeadOf(old(stream.incoming)).Whole?)
    {
      hide HeadOf;
      hide DecodeResponse;
      hide EncodeRequest;
      hide EncodeResponse;
      hide Framed;
      hide Puts;
      hide Benign;
      var written := WriteMessage(stream, request);
      WholeIsOut(old(stream.outgoing), stream.outgoing, EncodeRequest(request));
      if !written.status.FrameOk? {
        open := false;
        return SdkClient.CallLost, None;
      }
      var read, body := stream.ReadFrame();
      if !read.status.FrameOk? {
        open := false;
        return SdkClient.CallLost, None;
      }
      var decoded := DecodeReply(body[..]);
      if decoded.Err? {
        open := false;
        return SdkClient.CallProtocol, None;
      }
      var reply := decoded.value;
      if reply.id != request.id {
        open := false;
        return SdkClient.CallProtocol, None;
      }
      ResponsesAreCanonical(body[..]);
      response := Some(reply);
      if reply.body.Failure? {
        status := if reply.body.status == STATUS_INVALID then SdkClient.CallInvalid else SdkClient.CallServerError;
      } else {
        status := SdkClient.CallOk;
      }
    }

    /** One typed call: `put_item`, `get_item`, `delete_item`, `recommend` or
        `fetch_stats`. Unless it is refused here or lost, its status and what
        becomes of the connection are what SdkClient makes of the reply. */
    method Perform(body: RequestBody) returns (status: SdkClient.CallStatus, answer: Option<ResponseBody>)
      requires open
      modifies this, stream
      ensures RefusedLocally(body) ==>
                && status.CallInvalid? && open && nextId == old(nextId)
                && stream.outgoing == old(stream.outgoing) && stream.incoming == old(stream.incoming)
      ensures !RefusedLocally(body) ==> nextId == (old(nextId) + 1) % TWO_TO_64
      ensures !RefusedLocally(body) && !status.CallLost? ==>
                && stream.outgoing == old(stream.outgoing) + Framed(EncodeRequest(Request(old(nextId), body)))
                && var h := HeadOf(old(stream.incoming));
                   && h.Whole? && stream.incoming == h.rest
                   && status == SdkClient.Verdict(old(nextId), Said(body, h.body))
                   && open == SdkClient.Keeps(old(nextId), Said(body, h.body))
                   && (answer.Some? ==> DecodeResponse(h.body) == Ok(Response(old(nextId), answer.value)))
      ensures status.CallLost? ==>
                && !open
                && exists ok :: Puts(old(stream.outgoing), stream.outgoing, EncodeRequest(Request(old(nextId), body)), ok)
      ensures answer.Some? <==> status.CallOk?
    {
      hide HeadOf;
      hide DecodeResponse;
      hide EncodeRequest;
      hide EncodeResponse;
      hide Framed;
      hide Puts;
      hide Benign;
      if RefusedLocally(body) {
        return SdkClient.CallInvalid, None;
      }
      var request := Request(nextId, body);
      nextId := (nextId + 1) % TWO_TO_64;
      var response;
      status, response := Call(request);
      if !status.CallOk? {
        return status, None;
      }
      var got := response.value.body;
      if !Expected(body, got) {
        return SdkClient.CallProtocol, None;
      }
      if (got.GetItemResult? || got.DeleteItemResult?) && got.status == STATUS_NOT_FOUND {
        return SdkClient.CallNotFound, None;
      }
      return SdkClient.CallOk, Some(got);
    }
  }

  lemma WholeIsOut(before: Bytes, after: Bytes, body: Bytes)
    ensures Puts(before, after, body, true) ==> after == before + Framed(body)
  {
  }

  /** The body is encoded in place after a placeholder for its length. */
  method WriteMessage(stream: UnixStream, request: Request) returns (r: FrameResult)
    modifies stream`outgoing, stream`writeAnswers
    ensures Puts(old(stream.outgoing), stream.outgoing, EncodeRequest(request), r.status.FrameOk?)
    ensures r.status.Oversized? <==> !ValidBody(EncodeRequest(request))
    ensures Benign(old(stream.writeAnswers)) ==>
              Benign(stream.writeAnswers) && (ValidBody(EncodeRequest(request)) ==> r.status.FrameOk?)
  {
    hide EncodeRequest;
    hide Puts;
    hide Benign;
    var scratch := Encode(request, [0, 0, 0, 0]);
    var framed := new u8[|scratch|](i requires 0 <= i < |scratch| => scratch[i]);
    assert framed[..] == scratch;
    assert framed[PREFIX..] == scratch[PREFIX..] == EncodeRequest(request);
    r := stream.WritePrefixed(framed);
  }
}

module ClientPools {
  import opened Words
  import opened SdkPool
  import opened SdkClient
  import opened ClientSteps

  /** How opening the first connection can end. */
  datatype FirstOpen = Made | Unreachable | UnknownCodec

  class ClientPool {
    var idle: seq<nat>
    var total: nat
    /** How many connections were ever opened; the next one gets this number. */
    var created: nat
    const config: Config
    /** Every step taken by any call of this client so far. */
    ghost var history: seq<Step>

    ghost function Value(): Pool
      reads this
    {
      Pool(idle, total)
    }

    /** `w` is what the steps so far have made of a fresh client, and the pool is
        its pool, so all that is proved of runs holds of it. */
    ghost predicate Here(w: World)
      reads this
    {
      Leads(config, history, w) && w.pool == Value() && |w.links| == created
    }

    constructor (config: Config)
      requires 0 < config.maxConnections
      ensures this.config == config && history == [] && Here(CONNECTED)
    {
      idle, total, created := [0], 1, 1;
      this.config := config;
      history := [];
      new;
      ConnectedLeads(config);
    }

    /** `connect`, which opens one connection eagerly. A client that comes of it
        stands at the beginning of every run; one with room for no connection
        would already be over its bound. Only a daemon that could not be reached
        is worth trying again. */
    static method Connect(config: Config, first: FirstOpen) returns (code: StatusCode, r: Option<ClientPool>)
      ensures code.Ok? <==> r.Some?
      ensures r.Some? ==> fresh(r.value) && r.value.config == config && r.value.history == [] && r.value.Here(CONNECTED)
      ensures r.None? <==> !(Leads(config, [], CONNECTED) && first.Made?)
      ensures IsRetryable(code) <==> Leads(config, [], CONNECTED) && first.Unreachable?
      ensures r.None? && !IsRetryable(code) ==> code.InvalidArgument?
    {
      ConnectedLeads(config);
      if config.maxConnections == 0 {
        return InvalidArgument, None;
      }
      match first {
        case Unreachable => return Unavailable, None;
        case UnknownCodec => return InvalidArgument, None;
        case Made =>
          var pool := new ClientPool(config);
          return Ok, Some(pool);
      }
    }

    /** The critical section in which a connection or a slot is taken. */
    method TryAcquire() returns (got: Acquired)
      modifies this`idle, this`total
      ensures (Value(), got) == Acquire(old(Value()), config.maxConnections)
      ensures old(total) <= config.maxConnections ==> total <= config.maxConnections
      ensures got.Busy? <==> old(idle) == [] && old(total) >= config.maxConnections
    {
      if idle != [] {
        got := Idle(idle[0]);
        idle := idle[1..];
      } else if total < config.maxConnections {
        total := total + 1;
        got := Slot;
      } else {
        got := Busy;
      }
    }

    method ReturnSlot()
      requires 0 < total
      modifies this`total
      ensures Value() == GiveBack(old(Value()))
    {
      total := total - 1;
    }

    /** The end of a checkout: back to the front of the idle list, or dropped. */
    method Return(conn: nat, healthy: bool)
      requires 0 < total
      modifies this`idle, this`total
      ensures Value() == Release(old(Value()), conn, healthy)
    {
      if healthy {
        idle := [conn] + idle;
      } else {
        total := total - 1;
      }
    }

    /** This call's thread `t`, among the others of `before`, after `made` attempts:
        about to try again, or finished with `code`. */
    ghost predicate Standing(before: World, w: World, recording: bool, made: nat, sends: nat, code: StatusCode,
                             done: bool) {
      var t := |before.threads|;
      && |w.threads| == t + 1 && w.threads[..t] == before.threads
      && var x := w.threads[t];
         && x == Thread(recording, Attempts(config, recording), made, sends, x.at)
         && if done then x.at.Finished? && x.at.code == code else x.at.Acquiring?
    }

    /** The retry loop, with nobody else running; `opens(k)` and `wires(k)` are what
        the environment makes of attempt `k`. Wherever the calls before it have
        left the pool, the loop takes one thread of the step system from its
        beginning to its end, and so stops at the first outcome not worth retrying
        and sends once at most per attempt. */
    method Invoke(recording: bool, opens: nat -> bool, wires: nat -> Wire, ghost before: World)
      returns (code: StatusCode, made: nat, sends: nat, ghost after: World)
      requires Here(before)
      modifies this
      ensures Here(after) && old(history) <= history
      ensures Standing(before, after, recording, made, sends, code, true)
      ensures 1 <= made <= Attempts(config, recording) && sends <= made
      ensures IsRetryable(code) ==> made == Attempts(config, recording)
      ensures !IsRetryable(code) ==> code == MapStatus(StatusOf(wires(made - 1)))
      ensures forall k :: 0 <= k < made - 1 ==>
                Blocked(before.pool) || !opens(k) || StatusOf(wires(k)).CallLost?
    {
      hide Leads;
      after := Begins(config, history, before, recording);
      history := history + [Begin(recording)];
      var attempts := if !recording || config.retryRecording then config.maxRetries + 1 else 1;
      code := Unavailable;
      made, sends := 0, 0;
      while made < attempts
        invariant Here(after) && old(history) <= history
        invariant made <= attempts && sends <= made && (made < attempts || made > 0)
        invariant Standing(before, after, recording, made, sends, code, made == attempts) && code.Unavailable?
        invariant Blocked(before.pool) <==> Blocked(Value())
        invariant forall k :: 0 <= k < made ==> Blocked(before.pool) || !opens(k) || StatusOf(wires(k)).CallLost?
        decreases attempts - made
      {
        var sent;
        code, sent, after := Attempt(|before.threads|, opens(made), wires(made), after);
        if sent {
          sends := sends + 1;
        }
        made := made + 1;
        if !IsRetryable(code) {
          return;
        }
      }
    }

    ghost predicate Blocked(p: Pool) {
      p.idle == [] && p.total >= config.maxConnections
    }

    /** One attempt: a connection from the pool or a new one, an exchange over it,
        and the connection back or dropped. */
    method Attempt(ghost t: nat, opens: bool, wire: Wire, ghost before: World)
      returns (code: StatusCode, sent: bool, ghost after: World)
      requires Here(before) && t < |before.threads| && before.threads[t].at.Acquiring?
      modifies this
      ensures Here(after) && old(history) <= history
      ensures |after.threads| == |before.threads| && after.threads == before.threads[t := after.threads[t]]
      ensures var x := before.threads[t]; WentOn(x.(sends := x.sends + if sent then 1 else 0), after.threads[t], code)
      ensures code.Unavailable? ==> Blocked(before.pool) || !opens || StatusOf(wire).CallLost?
      ensures !code.Unavailable? ==> code == MapStatus(StatusOf(wire))
      ensures Blocked(before.pool) <==> Blocked(Value())
    {
      hide WentOn;
      hide StatusOf;
      hide Transmits;
      hide Leads;
      sent := false;
      ghost var x := before.threads[t];
      WithinBound(config, history, before);
      ghost var w := TakesOne(config, history, before, t);
      history := history + [Get(t)];
      var got := TryAcquire();
      if got.Busy? {
        return Unavailable, false, w;
      }
      var conn := created;
      if got.Idle? {
        conn := got.conn;
      } else {
        ghost var s;
        s, after := OpensOne(config, history, w, t, opens);
        history := history + [s];
        w := after;
        if !opens {
          AgainFromAnywhere(x, Opening, w.threads[t], Unavailable);
          ReturnSlot();
          return Unavailable, false, w;
        }
        created := created + 1;
      }
      ghost var steps;
      steps, after := Exchanges(config, history, w, t, wire);
      history := steps;
      sent := Transmits(wire);
      code := MapStatus(StatusOf(wire));
      w := after;
      after := PutsBack(config, history, w, t);
      history := history + [PutBack(t)];
      AgainFromAnywhere(x.(sends := x.sends + if sent then 1 else 0), w.threads[t].at, after.threads[t], code);
      Return(conn, !Spoils(code));
    }
  }
}
