/** Both ends of one connection: the client's calls against the daemon's loop. */
module Conversations {
  import opened Words
  import opened Wire
  import opened Messages
  import opened Codec
  import opened Frames
  import opened Streams
  import opened HandlerModel
  import opened HandlerTheorems
  import opened Sessions
  import opened Handlers
  import opened ServerSessions
  import opened Connections

  function Encoded(requests: seq<Request>): (r: seq<Bytes>)
    ensures |r| == |requests|
  {
    seq(|requests|, i requires 0 <= i < |requests| => EncodeRequest(requests[i]))
  }

  /** A request whose encoding is well defined and fits a frame; its fields may
      still be over the daemon's limits. */
  predicate Sendable(r: Request) {
    RequestFits(r) && ValidBody(EncodeRequest(r))
  }

  lemma SendableIsRecoverable(r: Request)
    requires Sendable(r)
    ensures Recoverable(EncodeRequest(r))
    ensures DecodeRequest(EncodeRequest(r)).Ok? ==> DecodeRequest(EncodeRequest(r)).value == r
    ensures DecodeRequest(EncodeRequest(r)).Err? ==> DecodeRequest(EncodeRequest(r)).id == Some(r.id)
  {
    hide DecodeRequest;
    hide EncodeRequest;
    RequestRoundTrip(r);
  }

  lemma {:induction false} AllServed(frames: seq<Bytes>)
    requires forall i :: 0 <= i < |frames| ==> Recoverable(frames[i])
    ensures Served(frames) == |frames|
  {
    hide Recoverable;
    if frames != [] { AllServed(frames[1..]); }
  }

  lemma {:induction false} RequestsAreServed(requests: seq<Request>)
    requires forall i :: 0 <= i < |requests| ==> Sendable(requests[i])
    ensures var frames := Encoded(requests); Split(Stream(frames)).0 == frames && Served(frames) == |frames|
  {
    hide Recoverable;
    hide EncodeRequest;
    hide RequestFits;
    var frames := Encoded(requests);
    forall i | 0 <= i < |frames| ensures ValidBody(frames[i]) && Recoverable(frames[i]) {
      SendableIsRecoverable(requests[i]);
    }
    StreamRoundTrip(frames);
    AllServed(frames);
  }

  /** Each exchange is with the request in its place, under its id, and its reply is
      one that a client decodes as it is. */
  ghost predicate Matches(x: Exchange, r: Request) {
    && FrameOf(x) == EncodeRequest(r) && ReplyOf(x).id == r.id
    && (x.Answered? ==> DecodeRequest(x.event.frame) == Ok(r))
    && ValidBody(EncodeResponse(ReplyOf(x))) && DecodeResponse(EncodeResponse(ReplyOf(x))) == Ok(ReplyOf(x))
  }

  lemma ExchangeMatches(env: Env, h: State, x: Exchange, r: Request)
    requires Inv(env, h) && Fair(env, h, x) && FrameOf(x) == EncodeRequest(r) && Sendable(r)
    ensures Matches(x, r)
  {
    hide DecodeRequest;
    hide DecodeResponse;
    hide EncodeRequest;
    hide EncodeResponse;
    hide Inv;
    hide Serves;
    hide Invalid;
    SendableIsRecoverable(r);
    ExchangeIsGood(env, h, x);
  }

  lemma {:induction false} GoodOrderThroughout(env: Env, h: State, log: seq<Exchange>)
    requires Inv(env, h) && IsConversation(env, h, log)
    ensures Inv(env, StateAt(h, log))
  {
    hide Inv;
    hide Fair;
    if log != [] {
      var n := |log| - 1;
      GoodOrderThroughout(env, h, log[..n]);
      ExchangeIsGood(env, StateAt(h, log[..n]), log[n]);
    }
  }

  ghost predicate AllMatch(log: seq<Exchange>, requests: seq<Request>) {
    |log| == |requests| && forall i :: 0 <= i < |log| ==> Matches(log[i], requests[i])
  }

  lemma {:induction false} LastFrames(log: seq<Exchange>, requests: seq<Request>)
    requires log != [] && FramesOf(log) == Encoded(requests)
    ensures var n := |log| - 1;
            && |requests| == n + 1 && FrameOf(log[n]) == EncodeRequest(requests[n])
            && FramesOf(log[..n]) == Encoded(requests[..n])
  {
    hide EncodeRequest;
    hide FrameOf;
    var n := |log| - 1;
    var frames, encoded := FramesOf(log), Encoded(requests);
    assert frames[..n] == FramesOf(log[..n]) && frames[n] == FrameOf(log[n]);
    assert encoded[..n] == Encoded(requests[..n]) && encoded[n] == EncodeRequest(requests[n]);
  }

  lemma MatchSnoc(log: seq<Exchange>, requests: seq<Request>)
    requires log != [] && |requests| == |log| && AllMatch(log[..|log| - 1], requests[..|log| - 1])
    requires Matches(log[|log| - 1], requests[|log| - 1])
    ensures AllMatch(log, requests)
  {
    hide Matches;
    var n := |log| - 1;
    assert forall i :: 0 <= i < n ==> log[..n][i] == log[i] && requests[..n][i] == requests[i];
  }

  lemma {:induction false} ConversationMatches(env: Env, h: State, log: seq<Exchange>, requests: seq<Request>)
    requires Inv(env, h) && IsConversation(env, h, log) && FramesOf(log) == Encoded(requests)
    requires forall i :: 0 <= i < |requests| ==> Sendable(requests[i])
    ensures AllMatch(log, requests)
  {
    hide Inv;
    hide Fair;
    hide Sendable;
    hide FrameOf;
    hide StateAt;
    hide FramesOf;
    hide Encoded;
    if log != [] {
      var n := |log| - 1;
      LastFrames(log, requests);
      hide AllMatch;
      ConversationMatches(env, h, log[..n], requests[..n]);
      GoodOrderThroughout(env, h, log[..n]);
      ExchangeMatches(env, StateAt(h, log[..n]), log[n], requests[n]);
      hide Matches;
      MatchSnoc(log, requests);
    }
  }

  lemma {:induction false} ReplyAt(log: seq<Exchange>, i: nat)
    requires i < |log|
    ensures RepliesOf(log)[i] == EncodeResponse(ReplyOf(log[i]))
  {
    hide EncodeResponse;
    if i < |log| - 1 { ReplyAt(log[..|log| - 1], i); }
  }

  /** What the client finds at the head of what it was sent. */
  lemma {:induction false} NextReply(log: seq<Exchange>, requests: seq<Request>, i: nat)
    requires AllMatch(log, requests) && i < |log|
    ensures HeadOf(Stream(RepliesOf(log)[i..])) == Whole(EncodeResponse(ReplyOf(log[i])), Stream(RepliesOf(log)[i + 1..]))
  {
    hide HeadOf;
    hide Framed;
    hide EncodeResponse;
    hide ReplyOf;
    hide RepliesOf;
    assert Matches(log[i], requests[i]);
    hide Matches;
    ReplyAt(log, i);
    var replies := RepliesOf(log);
    assert replies[i..][1..] == replies[i + 1..];
    HeadOfFrame(replies[i], Stream(replies[i + 1..]));
  }

  /** A client makes its calls one after the other on one connection to a daemon,
      with short transfers and signals anywhere on either side. What one end sends
      is what the other receives, and every call returns the handler's own
      response to that request, each from the state the one before it left. A
      request over the daemon's limits gets the refusal made for it. */
  method Converse(handler: Handler, requests: seq<Request>, clock: nat -> i64, daemonReads: seq<Answer>,
                  daemonWrites: seq<Answer>, clientReads: seq<Answer>, clientWrites: seq<Answer>)
    returns (responses: seq<Response>, fromClient: Bytes, fromDaemon: Bytes, ghost log: seq<Exchange>)
    requires handler.Valid() && Inv(handler.env, handler.Value())
    requires forall i :: 0 <= i < |requests| ==> Sendable(requests[i])
    requires Benign(daemonReads) && Benign(daemonWrites) && Benign(clientReads) && Benign(clientWrites)
    modifies handler, handler.cache.shards
    ensures handler.Valid() && handler.Value() == StateAt(old(handler.Value()), log)
    ensures IsConversation(handler.env, old(handler.Value()), log) && AllMatch(log, requests)
    ensures fromClient == Stream(Encoded(requests)) && fromDaemon == Stream(RepliesOf(log))
    ensures |responses| == |log| && forall i :: 0 <= i < |log| ==> responses[i] == ReplyOf(log[i])
  {
    hide *;
    RequestsAreServed(requests);
    var daemonEnd := new UnixStream(Stream(Encoded(requests)), daemonReads, daemonWrites);
    ghost var served;
    served, log := Serve(daemonEnd, handler, clock);
    ghost var frames := Encoded(requests);
    assert frames[..|frames|] == frames;
    ConversationMatches(handler.env, old(handler.Value()), log, requests);
    AllIsOut(daemonEnd.outgoing, log);
    fromDaemon := daemonEnd.outgoing;
    responses, fromClient := CallAll(requests, fromDaemon, clientReads, clientWrites, log);
  }

  lemma {:induction false} AllIsOut(out: Bytes, log: seq<Exchange>)
    ensures AllOut([], out, log) ==> out == Stream(RepliesOf(log))
  {
    assert [] + Stream(RepliesOf(log)) == Stream(RepliesOf(log));
  }

  lemma SentSnoc(requests: seq<Request>, i: nat)
    requires i < |requests|
    ensures Stream(Encoded(requests[..i + 1])) == Stream(Encoded(requests[..i])) + Framed(EncodeRequest(requests[i]))
  {
    hide EncodeRequest;
    hide Framed;
    assert Encoded(requests[..i + 1]) == Encoded(requests[..i]) + [EncodeRequest(requests[i])];
    StreamSnoc(Encoded(requests[..i]), EncodeRequest(requests[i]));
  }

  lemma Nothing()
    ensures Stream(Encoded([])) == [] && Stream([]) == []
  {
  }

  lemma MatchAt(log: seq<Exchange>, requests: seq<Request>, i: nat)
    requires AllMatch(log, requests) && i < |log|
    ensures |log| == |requests| && ReplyOf(log[i]).id == requests[i].id
    ensures DecodeResponse(EncodeResponse(ReplyOf(log[i]))) == Ok(ReplyOf(log[i]))
  {
    assert Matches(log[i], requests[i]);
    hide DecodeResponse;
    hide EncodeResponse;
  }

  lemma SendableFits(r: Request)
    requires Sendable(r)
    ensures ValidBody(EncodeRequest(r))
  {
  }

  /** The client's side, given what the daemon sent. */
  method CallAll(requests: seq<Request>, incoming: Bytes, readAnswers: seq<Answer>, writeAnswers: seq<Answer>,
                 ghost log: seq<Exchange>) returns (responses: seq<Response>, sent: Bytes)
    requires AllMatch(log, requests) && |log| == |requests| && incoming == Stream(RepliesOf(log))
    requires forall i :: 0 <= i < |requests| ==> Sendable(requests[i])
    requires Benign(readAnswers) && Benign(writeAnswers)
    ensures sent == Stream(Encoded(requests))
    ensures |responses| == |log| && forall i :: 0 <= i < |log| ==> responses[i] == ReplyOf(log[i])
  {
    hide *;
    var stream := new UnixStream(incoming, readAnswers, writeAnswers);
    var connection := new Connection(stream);
    responses := [];
    ghost var replies := RepliesOf(log);
    Nothing();
    assert requests[..0] == [] && replies[0..] == replies;
    for i := 0 to |requests|
      invariant connection.stream == stream && connection.open && fresh(connection) && fresh(stream)
      invariant Benign(stream.readAnswers) && Benign(stream.writeAnswers)
      invariant stream.incoming == Stream(replies[i..]) && stream.outgoing == Stream(Encoded(requests[..i]))
      invariant |responses| == i && forall k :: 0 <= k < i ==> responses[k] == ReplyOf(log[k])
    {
      NextReply(log, requests, i);
      MatchAt(log, requests, i);
      SendableFits(requests[i]);
      SentSnoc(requests, i);
      var status, response := connection.Call(requests[i]);
      responses := responses + [response.value];
    }
    assert requests[..|requests|] == requests;
    sent := stream.outgoing;
  }
}
