/** One connection served end to end: frames in, requests decoded and handled,
    replies framed and sent. */
module Sessions {
  import opened Words
  import opened Wire
  import opened Messages
  import opened Codec
  import opened Frames
  import opened HandlerModel
  import opened HandlerTheorems
  import opened Delivery

  /** A request that was handled, or one refused for a field over its limit. */
  datatype Exchange = Answered(event: Event) | Refused(request: Bytes, id: u64)

  /** A frame the connection survives. */
  predicate Recoverable(frame: Bytes) {
    var d := DecodeRequest(frame);
    d.Ok? || d.error.FieldTooLarge?
  }

  function TooLarge(): string { "FieldTooLarge" }

  function Rejection(id: u64): Response {
    Response(id, Invalid(TooLarge()))
  }

  function FrameOf(x: Exchange): Bytes {
    match x
    case Answered(e) => e.frame
    case Refused(request, _) => request
  }

  function ReplyOf(x: Exchange): Response {
    match x
    case Answered(e) => e.response
    case Refused(_, id) => Rejection(id)
  }

  function FramesOf(log: seq<Exchange>): (r: seq<Bytes>)
    ensures |r| == |log|
  {
    if log == [] then [] else FramesOf(log[..|log| - 1]) + [FrameOf(log[|log| - 1])]
  }

  function RepliesOf(log: seq<Exchange>): (r: seq<Bytes>)
    ensures |r| == |log|
  {
    if log == [] then [] else RepliesOf(log[..|log| - 1]) + [EncodeResponse(ReplyOf(log[|log| - 1]))]
  }

  function StateAt(h: State, log: seq<Exchange>): State {
    if log == [] then h
    else
      match log[|log| - 1]
      case Answered(e) => e.after
      case Refused(_, _) => StateAt(h, log[..|log| - 1])
  }

  /** What one exchange may be from a given state. */
  ghost predicate Fair(env: Env, h: State, x: Exchange) {
    if x.Answered? then Follows(env, h, x.event) else DecodeRequest(x.request) == Err(FieldTooLarge, Some(x.id))
  }

  /** Every exchange follows from the state the ones before it left. */
  ghost predicate IsConversation(env: Env, h: State, log: seq<Exchange>) {
    log != [] ==>
      IsConversation(env, h, log[..|log| - 1]) && Fair(env, StateAt(h, log[..|log| - 1]), log[|log| - 1])
  }

  /** How many leading frames are served before one that ends the connection. */
  function Served(frames: seq<Bytes>): (n: nat)
    ensures n <= |frames|
  {
    if frames == [] || !Recoverable(frames[0]) then 0 else 1 + Served(frames[1..])
  }

  lemma {:induction false} ServedAfter(a: seq<Bytes>, b: seq<Bytes>)
    requires forall i :: 0 <= i < |a| ==> Recoverable(a[i])
    ensures Served(a + b) == |a| + Served(b)
  {
    hide Recoverable;
    if a == [] {
      assert a + b == b;
    } else {
      ServedAfter(a[1..], b);
      assert (a + b)[1..] == a[1..] + b;
    }
  }

  lemma {:induction false} StreamSnoc(bodies: seq<Bytes>, body: Bytes)
    ensures Stream(bodies + [body]) == Stream(bodies) + Framed(body)
  {
    hide Framed;
    if bodies == [] {
      assert bodies + [body] == [body] && [body][1..] == [];
      assert Stream([body]) == Framed(body) + Stream([]);
    } else {
      StreamSnoc(bodies[1..], body);
      assert (bodies + [body])[1..] == bodies[1..] + [body];
    }
  }

  lemma RejectionIsDeliverable(id: u64)
    ensures Deliverable(Rejection(id).body)
  {
    InvalidIsDeliverable(TooLarge());
  }

  /** Too large a field is only ever reported once the header gave the id. */
  lemma TooLargeHasId(b: Bytes)
    requires DecodeRequest(b).Err? && DecodeRequest(b).error.FieldTooLarge?
    ensures DecodeRequest(b).id.Some?
  {
    hide ParseRawHeader;
    hide ParseRequestBody;
  }

  lemma {:induction false} LogSnoc(env: Env, h: State, log: seq<Exchange>, x: Exchange)
    requires IsConversation(env, h, log) && Fair(env, StateAt(h, log), x)
    ensures IsConversation(env, h, log + [x])
    ensures StateAt(h, log + [x]) == if x.Answered? then x.event.after else StateAt(h, log)
    ensures FramesOf(log + [x]) == FramesOf(log) + [FrameOf(x)]
    ensures Stream(RepliesOf(log + [x])) == Stream(RepliesOf(log)) + Framed(EncodeResponse(ReplyOf(x)))
  {
    hide Fair;
    hide EncodeResponse;
    assert (log + [x])[..|log|] == log;
    StreamSnoc(RepliesOf(log), EncodeResponse(ReplyOf(x)));
  }

  /** Whatever was exchanged leaves the handler in good order, and the reply can be
      delivered. */
  lemma ExchangeIsGood(env: Env, h: State, x: Exchange)
    requires Inv(env, h) && Fair(env, h, x)
    ensures x.Answered? ==> Inv(env, x.event.after)
    ensures |EncodeResponse(ReplyOf(x))| <= MAX_REPLY && ValidBody(EncodeResponse(ReplyOf(x)))
    ensures DecodeResponse(EncodeResponse(ReplyOf(x))) == Ok(ReplyOf(x))
  {
    if x.Answered? {
      var e := x.event;
      AcceptedIsWithinLimits(e.frame);
      HandlesKeeps(env, h, Asked(e), e.now, e.after, e.response, e.chosen, e.shortlist);
    } else {
      RejectionIsDeliverable(x.id);
    }
    hide DecodeRequest;
    hide DecodeResponse;
    hide EncodeResponse;
    hide Inv;
    hide Handles;
    DeliverableIsDelivered(ReplyOf(x));
  }
}
