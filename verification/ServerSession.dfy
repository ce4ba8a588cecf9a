/** The connection loop of a worker. */
module ServerSessions {
  import opened Words
  import opened Wire
  import opened Messages
  import opened Codec
  import opened BinaryCodecs
  import opened Frames
  import opened Streams
  import opened HandlerModel
  import opened HandlerTheorems
  import opened Delivery
  import opened Sessions
  import opened Handlers

  /** The reply is encoded in place after a placeholder for its length. */
  method WriteReply(stream: UnixStream, response: Response) returns (r: FrameResult)
    modifies stream`outgoing, stream`writeAnswers
    ensures Puts(old(stream.outgoing), stream.outgoing, EncodeResponse(response), r.status.FrameOk?)
    ensures r.status.Oversized? <==> !ValidBody(EncodeResponse(response))
    ensures Benign(old(stream.writeAnswers)) ==>
              Benign(stream.writeAnswers) && (ValidBody(EncodeResponse(response)) ==> r.status.FrameOk?)
  {
    hide EncodeResponse;
    hide Puts;
    hide Benign;
    var scratch := EncodeReply(response, [0, 0, 0, 0]);
    var framed := new u8[|scratch|](i requires 0 <= i < |scratch| => scratch[i]);
    assert framed[..] == scratch;
    assert framed[PREFIX..] == scratch[PREFIX..] == EncodeResponse(response);
    r := stream.WritePrefixed(framed);
  }

  /** Decodes one frame and answers it. `None` means the frame is one the
      connection does not survive. */
  method Answer(handler: Handler, frame: Bytes, now: i64)
    returns (reply: Option<Response>, handled: bool, ghost x: Exchange)
    requires handler.Valid() && Inv(handler.env, handler.Value())
    modifies handler, handler.cache.shards
    ensures handler.Valid() && Inv(handler.env, handler.Value())
    ensures reply.Some? <==> Recoverable(frame)
    ensures reply.None? ==> handler.Value() == old(handler.Value())
    ensures reply.Some? ==>
              && FrameOf(x) == frame && ReplyOf(x) == reply.value && Fair(handler.env, old(handler.Value()), x)
              && handler.Value() == (if x.Answered? then x.event.after else old(handler.Value()))
              && handled == x.Answered? && ValidBody(EncodeResponse(reply.value))
              && DecodeResponse(EncodeResponse(reply.value)) == Decoded.Ok(reply.value)
  {
    hide *;
    x := Refused(frame, 0);
    ghost var before := handler.Value();
    var request := Decode(frame);
    RefusalFacts(handler.env, before, frame);
    if request.Err? {
      if !request.error.FieldTooLarge? {
        return None, false, x;
      }
      x := Refused(frame, request.id.value);
      ExchangeIsGood(handler.env, before, x);
      return Some(Rejection(request.id.value)), false, x;
    }
    InvHasStore(handler.env, before);
    var response, chosen, shortlist := handler.Handle(request.value, now);
    x := Answered(Event(frame, now, handler.Value(), response, chosen, shortlist));
    AnswerFacts(handler.env, before, x.event);
    ExchangeIsGood(handler.env, before, x);
    return Some(response), true, x;
  }

  lemma RefusalFacts(env: Env, h: State, frame: Bytes)
    ensures var d := DecodeRequest(frame);
            && (Recoverable(frame) <==> d.Ok? || d.error.FieldTooLarge?)
            && (d.Err? && d.error.FieldTooLarge? ==>
                  && d.id.Some?
                  && var x := Refused(frame, d.id.value);
                     FrameOf(x) == frame && ReplyOf(x) == Rejection(d.id.value) && Fair(env, h, x))
  {
    hide DecodeRequest;
    if DecodeRequest(frame).Err? && DecodeRequest(frame).error.FieldTooLarge? {
      TooLargeHasId(frame);
    }
  }

  lemma AnswerFacts(env: Env, h: State, e: Event)
    requires DecodeRequest(e.frame).Ok? && WellFormed(env, h)
    requires Handles(env, h, DecodeRequest(e.frame).value, e.now, e.after, e.response, e.chosen, e.shortlist)
    ensures FrameOf(Answered(e)) == e.frame && ReplyOf(Answered(e)) == e.response && Fair(env, h, Answered(e))
  {
    hide DecodeRequest;
    hide Handles;
  }

  /** Serves a connection until its end. Whatever the kernel answers, the exchanges
      are with the first frames of the stream, in order, each from the state the
      last one left; what was sent is their replies, all but perhaps the last in
      full; and the count is of the requests handled and answered in full. When
      only short transfers and signals happen, every frame up to the first that is
      beyond recovery is answered, and every answer sent. */
  method Serve(stream: UnixStream, handler: Handler, clock: nat -> i64) returns (served: nat, ghost log: seq<Exchange>)
    requires handler.Valid() && Inv(handler.env, handler.Value())
    modifies stream, handler, handler.cache.shards
    ensures handler.Valid() && Inv(handler.env, handler.Value())
    ensures IsConversation(handler.env, old(handler.Value()), log)
    ensures handler.Value() == StateAt(old(handler.Value()), log)
    ensures FramesOf(log) <= Split(old(stream.incoming)).0
    ensures AllOut(old(stream.outgoing), stream.outgoing, log) || LastTorn(old(stream.outgoing), stream.outgoing, log)
    ensures served == InFull(old(stream.outgoing), stream.outgoing, log)
    ensures Benign(old(stream.readAnswers)) && Benign(old(stream.writeAnswers)) ==>
              && FramesOf(log) == Split(old(stream.incoming)).0[..Served(Split(old(stream.incoming)).0)]
              && AllOut(old(stream.outgoing), stream.outgoing, log)
  {
    served, log := 0, [];
    ghost var env, start, all, sent := handler.env, handler.Value(), Split(stream.incoming).0, stream.outgoing;
    ghost var benign := Benign(stream.readAnswers) && Benign(stream.writeAnswers);
    Begins(env, start, stream.incoming, sent, benign);
    hide *;
    var going, turn := true, 0;
    while going
      invariant handler.Valid()
      invariant Progress(env, start, log, handler.Value(), all, stream.incoming, sent, stream.outgoing, served, benign,
                         going)
      invariant benign ==> Benign(stream.readAnswers) && Benign(stream.writeAnswers)
      decreases going, |stream.incoming|
    {
      going, served, log := ServeOne(stream, handler, clock(turn), start, log, all, sent, served, benign);
      turn := turn + 1;
    }
    Ends(env, start, log, handler.Value(), all, stream.incoming, sent, stream.outgoing, served, benign);
  }

  /** One turn of the loop. */
  method ServeOne(stream: UnixStream, handler: Handler, now: i64, ghost start: State, ghost log: seq<Exchange>,
                  ghost all: seq<Bytes>, ghost sent: Bytes, served: nat, ghost benign: bool)
    returns (going: bool, served': nat, ghost log': seq<Exchange>)
    requires handler.Valid()
    requires Progress(handler.env, start, log, handler.Value(), all, stream.incoming, sent, stream.outgoing, served,
                      benign, true)
    requires benign ==> Benign(stream.readAnswers) && Benign(stream.writeAnswers)
    modifies stream, handler, handler.cache.shards
    ensures handler.Valid()
    ensures Progress(handler.env, start, log', handler.Value(), all, stream.incoming, sent, stream.outgoing, served',
                     benign, going)
    ensures benign ==> Benign(stream.readAnswers) && Benign(stream.writeAnswers)
    ensures going ==> |stream.incoming| < |old(stream.incoming)|
  {
    hide *;
    ghost var env, value, rest, out := handler.env, handler.Value(), stream.incoming, stream.outgoing;
    HasInv(env, start, log, value, all, rest, sent, out, served, benign);
    log', served' := log, served;
    var frame := Receive(stream, handler);
    ghost var rest' := stream.incoming;
    if frame.None? {
      Stops(env, start, log, value, all, rest, rest', sent, out, served, benign, []);
      return false, served, log;
    }
    var reply, handled, x := Answer(handler, frame.value, now);
    if reply.None? {
      Stops(env, start, log, value, all, rest, rest', sent, out, served, benign, frame.value);
      return false, served, log;
    }
    log' := log + [x];
    going := Respond(stream, handler, reply.value);
    served' := if going && handled then served + 1 else served;
    Turns(env, start, log, value, all, rest, sent, out, served, benign, x, rest', handler.Value(), stream.outgoing, going);
  }

  /** The next frame, if one comes. */
  method Receive(stream: UnixStream, handler: Handler) returns (frame: Option<Bytes>)
    requires handler.Valid()
    modifies stream`incoming, stream`readAnswers
    ensures handler.Valid() && handler.Value() == old(handler.Value())
    ensures frame.Some? ==> HeadOf(old(stream.incoming)) == Whole(frame.value, stream.incoming)
    ensures Benign(old(stream.readAnswers)) ==>
              Benign(stream.readAnswers) && (frame.None? ==> !HeadOf(old(stream.incoming)).Whole?)
  {
    hide *;
    var r, body := stream.ReadFrame();
    return if r.status.FrameOk? then Some(body[..]) else None;
  }

  /** Sends a reply that fits a frame. */
  method Respond(stream: UnixStream, handler: Handler, reply: Response) returns (ok: bool)
    requires handler.Valid() && ValidBody(EncodeResponse(reply))
    modifies stream`outgoing, stream`writeAnswers
    ensures handler.Valid() && handler.Value() == old(handler.Value())
    ensures Puts(old(stream.outgoing), stream.outgoing, EncodeResponse(reply), ok)
    ensures Benign(old(stream.writeAnswers)) ==> Benign(stream.writeAnswers) && ok
  {
    hide *;
    var written := WriteReply(stream, reply);
    ok := written.status.FrameOk?;
  }

  /** Every reply is out in full ... */
  ghost predicate AllOut(sent: Bytes, out: Bytes, log: seq<Exchange>) {
    out == sent + Stream(RepliesOf(log))
  }

  /** ... or every one but the last, and of that a first part. */
  ghost predicate LastTorn(sent: Bytes, out: Bytes, log: seq<Exchange>) {
    && log != []
    && sent + Stream(RepliesOf(log[..|log| - 1])) <= out < sent + Stream(RepliesOf(log))
  }

  /** How many requests were handled. */
  function Handled(log: seq<Exchange>): nat {
    if log == [] then 0 else Handled(log[..|log| - 1]) + if log[|log| - 1].Answered? then 1 else 0
  }

  /** How many were handled and their replies sent in full. */
  ghost function InFull(sent: Bytes, out: Bytes, log: seq<Exchange>): nat {
    if log == [] || AllOut(sent, out, log) then Handled(log) else Handled(log[..|log| - 1])
  }

  /** How far a session has got, as a matter of values. */
  ghost predicate Progress(env: Env, start: State, log: seq<Exchange>, value: State, all: seq<Bytes>, rest: Bytes,
                           sent: Bytes, out: Bytes, served: nat, benign: bool, going: bool) {
    && Inv(env, value) && IsConversation(env, start, log) && value == StateAt(start, log)
    && AllRecoverable(FramesOf(log)) && FramesOf(log) <= all && (going ==> all == FramesOf(log) + Split(rest).0)
    && (AllOut(sent, out, log) || (!going && !benign && LastTorn(sent, out, log)))
    && served == InFull(sent, out, log)
    && (benign && !going ==> Served(all) == |log|)
  }

  ghost predicate AllRecoverable(frames: seq<Bytes>) {
    forall i :: 0 <= i < |frames| ==> Recoverable(frames[i])
  }

  lemma {:induction false} Begins(env: Env, start: State, incoming: Bytes, sent: Bytes, benign: bool)
    requires Inv(env, start)
    ensures Progress(env, start, [], start, Split(incoming).0, incoming, sent, sent, 0, benign, true)
  {
    hide Inv;
    assert [] + Split(incoming).0 == Split(incoming).0 && sent + [] == sent;
  }

  lemma HasInv(env: Env, start: State, log: seq<Exchange>, value: State, all: seq<Bytes>, rest: Bytes,
               sent: Bytes, out: Bytes, served: nat, benign: bool)
    requires Progress(env, start, log, value, all, rest, sent, out, served, benign, true)
    ensures Inv(env, value)
  {
    hide Inv;
  }

  /** The end of the stream, or a frame beyond recovery. */
  lemma Stops(env: Env, start: State, log: seq<Exchange>, value: State, all: seq<Bytes>, rest: Bytes, rest': Bytes,
              sent: Bytes, out: Bytes, served: nat, benign: bool, frame: Bytes)
    requires Progress(env, start, log, value, all, rest, sent, out, served, benign, true)
    requires benign ==> !HeadOf(rest).Whole? || (HeadOf(rest).body == frame && !Recoverable(frame))
    ensures Progress(env, start, log, value, all, rest', sent, out, served, benign, false)
  {
    hide Inv;
    hide IsConversation;
    hide Recoverable;
    hide HeadOf;
    hide AllOut;
    hide LastTorn;
    hide InFull;
    if benign {
      ServedAfter(FramesOf(log), Split(rest).0);
    }
  }

  /** What one more reply, sent or not, does to what is out. */
  lemma {:induction false} OneMoreOut(sent: Bytes, out: Bytes, out': Bytes, log: seq<Exchange>, x: Exchange, ok: bool)
    requires AllOut(sent, out, log) && Puts(out, out', EncodeResponse(ReplyOf(x)), ok)
    requires Stream(RepliesOf(log + [x])) == Stream(RepliesOf(log)) + Framed(EncodeResponse(ReplyOf(x)))
    ensures ok <==> AllOut(sent, out', log + [x])
    ensures ok || LastTorn(sent, out', log + [x])
    ensures InFull(sent, out', log + [x]) == InFull(sent, out, log) + if ok && x.Answered? then 1 else 0
  {
    hide Stream;
    hide RepliesOf;
    hide Framed;
    hide EncodeResponse;
    assert (log + [x])[..|log|] == log;
    Associates(sent, Stream(RepliesOf(log)), Framed(EncodeResponse(ReplyOf(x))));
  }

  /** A frame answered, and its reply sent or not. */
  lemma Turns(env: Env, start: State, log: seq<Exchange>, value: State, all: seq<Bytes>, rest: Bytes, sent: Bytes,
              out: Bytes, served: nat, benign: bool, x: Exchange, rest': Bytes, value': State, out': Bytes, ok: bool)
    requires Progress(env, start, log, value, all, rest, sent, out, served, benign, true)
    requires HeadOf(rest) == Whole(FrameOf(x), rest') && Recoverable(FrameOf(x)) && Fair(env, value, x)
    requires Inv(env, value') && value' == if x.Answered? then x.event.after else value
    requires Puts(out, out', EncodeResponse(ReplyOf(x)), ok) && (benign ==> ok)
    ensures Progress(env, start, log + [x], value', all, rest', sent, out',
                     if ok && x.Answered? then served + 1 else served, benign, ok)
    ensures |rest'| < |rest|
  {
    hide Inv;
    hide IsConversation;
    hide StateAt;
    hide Fair;
    hide Recoverable;
    hide AllRecoverable;
    hide FrameOf;
    hide ReplyOf;
    hide FramesOf;
    hide RepliesOf;
    hide Served;
    hide Stream;
    hide Framed;
    hide EncodeResponse;
    hide Split;
    hide HeadOf;
    hide AllOut;
    hide LastTorn;
    hide InFull;
    hide Puts;
    LogSnoc(env, start, log, x);
    FramesTurn(FramesOf(log), FrameOf(x), rest, rest', all);
    OneMoreOut(sent, out, out', log, x, ok);
  }

  lemma {:induction false} FramesTurn(frames: seq<Bytes>, frame: Bytes, rest: Bytes, rest': Bytes, all: seq<Bytes>)
    requires AllRecoverable(frames) && Recoverable(frame) && all == frames + Split(rest).0
    requires HeadOf(rest) == Whole(frame, rest')
    ensures AllRecoverable(frames + [frame]) && frames + [frame] <= all && all == frames + [frame] + Split(rest').0
    ensures |rest'| < |rest|
  {
    SplitStep(rest, frame, rest');
    hide Split;
    hide HeadOf;
    hide Recoverable;
    Regroup(frames, frame, Split(rest').0);
  }

  lemma Regroup(frames: seq<Bytes>, frame: Bytes, more: seq<Bytes>)
    ensures frames + ([frame] + more) == frames + [frame] + more
    ensures frames + [frame] <= frames + [frame] + more
  {
  }

  lemma {:induction false} SplitStep(b: Bytes, frame: Bytes, rest: Bytes)
    requires HeadOf(b) == Whole(frame, rest)
    ensures Split(b).0 == [frame] + Split(rest).0 && |rest| < |b|
  {
  }

  lemma Associates(a: Bytes, b: Bytes, c: Bytes)
    ensures a + b + c == a + (b + c)
  {
  }

  lemma {:induction false} Ends(env: Env, start: State, log: seq<Exchange>, value: State, all: seq<Bytes>, rest: Bytes,
                                sent: Bytes, out: Bytes, served: nat, benign: bool)
    requires Progress(env, start, log, value, all, rest, sent, out, served, benign, false)
    ensures Inv(env, value) && IsConversation(env, start, log) && value == StateAt(start, log) && FramesOf(log) <= all
    ensures (AllOut(sent, out, log) || LastTorn(sent, out, log)) && served == InFull(sent, out, log)
    ensures benign ==> FramesOf(log) == all[..Served(all)] && AllOut(sent, out, log)
  {
    hide Inv;
    hide IsConversation;
    hide Served;
    hide AllOut;
    hide LastTorn;
    hide InFull;
  }
}
