/** Whole runs of the handler behind the codec. */
module Delivery {
  import opened Words
  import opened Wire
  import opened Routing
  import opened Messages
  import opened Fields
  import opened Codec
  import opened Frames
  import opened Lru
  import opened Sharding
  import opened PolicyRuns
  import R = Ranking
  import opened Rerank
  import opened HandlerModel
  import opened HandlerTheorems

  // -------------------------------------------------------------------------
  // How long a reply is
  // -------------------------------------------------------------------------

  const MAX_REPLY := 15221

  lemma ItemSize(i: Item, tail: Bytes)
    ensures |WithItem(i, tail)| == 40 + |i.category| + |i.advertiser| + |tail|
  {
  }

  ghost predicate ShortItems(s: seq<Messages.Ranked>) {
    forall i :: 0 <= i < |s| ==> |s[i].category| <= MAX_CATEGORY && |s[i].advertiser| <= MAX_ADVERTISER
  }

  lemma {:induction false} RankedListSize(s: seq<Messages.Ranked>, tail: Bytes)
    requires ShortItems(s)
    ensures |WithRankedList(s, tail)| <= 152 * |s| + |tail|
  {
    if s != [] { RankedListSize(s[1..], tail); }
  }

  lemma {:induction false} WordsSize(s: seq<u64>, tail: Bytes)
    ensures |WithWords(s, tail)| == 8 * |s| + |tail|
  {
    if s != [] { WordsSize(s[1..], tail); }
  }

  /** A body that the wire format carries unchanged, and that is never too long. */
  ghost predicate Deliverable(body: ResponseBody) {
    match body
    case GetItemResult(status, item) => ItemWithinLimits(item) && (status != STATUS_OK ==> item == DEFAULT_ITEM)
    case RecommendResult(_, items) =>
      |items| <= MAX_RECOMMEND && ShortItems(items)
    case Failure(_, message) => |message| <= MAX_MESSAGE
    case _ => true
  }

  lemma BodySize(body: ResponseBody)
    requires Deliverable(body)
    ensures |WithResponseBody(body, [])| <= MAX_REPLY - 16
  {
    match body
    case GetItemResult(status, item) => ItemSize(item, []);
    case StatsResult(_, stats) => WordsSize(StatsWords(stats), []);
    case RecommendResult(_, items) => RankedListSize(items, []);
    case _ =>
  }

  /** A deliverable reply fits a frame, and the client decodes it as it was. */
  lemma DeliverableIsDelivered(r: Response)
    requires Deliverable(r.body)
    ensures |EncodeResponse(r)| <= MAX_REPLY && ValidBody(EncodeResponse(r))
    ensures DecodeResponse(EncodeResponse(r)) == Ok(r)
  {
    BodySize(r.body);
    HeaderNonempty(ResponseType(r.body), r.id, WithResponseBody(r.body, []));
    assert ResponseFits(r) && ResponseWithinLimits(r) && Carried(r.body) == r.body;
    hide WithHeader;
    hide WithResponseBody;
    hide DecodeResponse;
    ResponseRoundTrip(r);
  }

  // -------------------------------------------------------------------------
  // Every step keeps the invariant and gives a deliverable reply
  // -------------------------------------------------------------------------

  lemma {:induction false} RenderedIsShort(env: Env, chosen: seq<Rerank.Ranked>)
    requires ShortRanked(chosen)
    ensures ShortItems(Rendered(env, chosen))
  {
    if chosen != [] {
      var n := |chosen| - 1;
      assert forall i :: 0 <= i < n ==> chosen[..n][i] == chosen[i];
      RenderedIsShort(env, chosen[..n]);
      assert |chosen[n].category| <= MAX_CATEGORY;
    }
  }

  lemma {:induction false} AsciiSize(s: string)
    ensures |Ascii(s)| == |s|
  {
    if s != [] { AsciiSize(s[1..]); }
  }

  lemma InvalidIsDeliverable(s: string)
    requires |s| <= MAX_MESSAGE
    ensures Deliverable(Invalid(s))
  {
    AsciiSize(s);
  }

  lemma ZeroIdIsDeliverable()
    ensures Deliverable(Invalid(ZeroId()))
  {
    InvalidIsDeliverable(ZeroId());
    hide Invalid;
  }

  lemma NoCategoryIsDeliverable()
    ensures Deliverable(Invalid(NoCategory()))
  {
    InvalidIsDeliverable(NoCategory());
    hide Invalid;
  }

  lemma ZeroCountIsDeliverable()
    ensures Deliverable(Invalid(ZeroCount()))
  {
    InvalidIsDeliverable(ZeroCount());
    hide Invalid;
  }

  lemma {:induction false} SelectionKeepsStore(env: Env, dryRun: bool, now: i64, count: nat, rem: seq<R.Candidate>,
                                               offers: seq<Offer>, st: Store)
    requires StoreInv(LayoutOf(env), st)
    ensures StoreInv(LayoutOf(env), Greedy(env.scoring, count, rem, offers, st, Hook(env, dryRun, now)).state)
    decreases |rem|
  {
    if |Chosen(offers)| < count && rem != [] {
      var i := Pick(env.scoring, Chosen(offers), rem);
      var answer := Hook(env, dryRun, now)(st, rem[i].id);
      ApplyKeepsInv(LayoutOf(env), st, OpReserve(rem[i].id, ToUnsigned(now)));
      hide StoreInv;
      hide Pick;
      hide Chosen;
      hide Adjusted;
      SelectionKeepsStore(env, dryRun, now, count, RemoveAt(rem, i),
                          offers + [Offer(rem[i], Adjusted(env.scoring, Chosen(offers), rem[i]), answer.0)], answer.1);
    }
  }

  lemma PolicyChangeKeeps(env: Env, h: State, h': State)
    requires Inv(env, h) && h'.lists == h.lists && StoreInv(LayoutOf(env), h'.policy)
    ensures Inv(env, h')
  {
  }

  lemma InvHasStore(env: Env, h: State)
    requires Inv(env, h)
    ensures WellFormed(env, h) && StoreInv(LayoutOf(env), h.policy)
  {
  }

  lemma RecommendKeeps(env: Env, h: State, signal: Messages.Signal, count: u32, dryRun: bool, now: i64,
                       h': State, body: ResponseBody, chosen: seq<Rerank.Ranked>, shortlist: seq<R.Candidate>)
    requires Inv(env, h) && count <= MAX_RECOMMEND
    requires OnRecommend(env, h, signal, count, dryRun, now, h', body, chosen, shortlist)
    ensures Inv(env, h') && Deliverable(body)
  {
    InvHasStore(env, h);
    hide Inv;
    hide StoreInv;
    hide Greedy;
    hide Ascii;
    if count == 0 {
      ZeroCountIsDeliverable();
      PolicyChangeKeeps(env, h, h');
    } else {
      hide IsShortlist;
      SlateIsShort(env, h, ToSignal(env, signal), count, now, shortlist, h.policy, Hook(env, dryRun, now));
      RenderedIsShort(env, chosen);
      SelectionKeepsStore(env, dryRun, now, count, shortlist, [], h.policy);
      PolicyChangeKeeps(env, h, h');
    }
  }

  lemma GetKeeps(env: Env, h: State, id: u64)
    requires Inv(env, h)
    ensures var (h', body) := OnGet(env, h, id); Inv(env, h') && Deliverable(body)
  {
    var (h', body) := OnGet(env, h, id);
    LookupStorable(h.lists[Route(env.hash, |h.lists|, id)], id);
    CacheOpKeepsInv(env, h, h', Lru.Op.Get(id));
  }

  lemma PutCases(env: Env, h: State, item: Item)
    requires WellFormed(env, h)
    ensures var (h', body) := OnPut(env, h, item);
            && h'.policy == h.policy
            && if item.id == 0 || item.category == []
               then h'.lists == h.lists && (body == Invalid(ZeroId()) || body == Invalid(NoCategory()))
               else && h'.lists == ShardApply(env.hash, PerCacheShard(env), h.lists, Lru.Op.Put(item.id, item))
                    && body == PutItemResult(STATUS_OK)
  {
    hide Invalid;
  }

  lemma PutKeeps(env: Env, h: State, item: Item)
    requires Inv(env, h) && ItemWithinLimits(item)
    ensures var (h', body) := OnPut(env, h, item); Inv(env, h') && Deliverable(body)
  {
    InvHasStore(env, h);
    PutCases(env, h, item);
    assert Storable(Pair(item.id, item)) && Deliverable(PutItemResult(STATUS_OK));
    hide *;
    ZeroIdIsDeliverable();
    NoCategoryIsDeliverable();
    var (h', body) := OnPut(env, h, item);
    if item.id != 0 && item.category != [] {
      CacheOpKeepsInv(env, h, h', Lru.Op.Put(item.id, item));
    } else {
      PolicyChangeKeeps(env, h, h');
    }
  }

  lemma DeleteKeeps(env: Env, h: State, id: u64)
    requires Inv(env, h)
    ensures var (h', body) := OnDelete(env, h, id); Inv(env, h') && Deliverable(body)
  {
    var (h', body) := OnDelete(env, h, id);
    InvHasStore(env, h);
    hide Inv;
    CacheOpKeepsInv(env, h, h', Lru.Op.Erase(id));
  }

  /** Any request within the decoder's limits is answered by something the client
      can decode, and leaves the handler in good order. */
  lemma HandlesKeeps(env: Env, h: State, r: Request, now: i64, h': State, response: Response,
                     chosen: seq<Rerank.Ranked>, shortlist: seq<R.Candidate>)
    requires Inv(env, h) && RequestWithinLimits(r) && Handles(env, h, r, now, h', response, chosen, shortlist)
    ensures Inv(env, h') && Deliverable(response.body)
  {
    InvHasStore(env, h);
    hide Inv;
    hide StoreInv;
    hide OnGet;
    hide OnPut;
    hide OnDelete;
    hide OnRecommend;
    var h1 := Counted(h);
    PolicyChangeKeeps(env, h, h1);
    match r.body
    case GetItem(id) => GetKeeps(env, h1, id);
    case PutItem(item) => PutKeeps(env, h1, item);
    case DeleteItem(id) => DeleteKeeps(env, h1, id);
    case GetStats =>
    case Recommend(signal, count, dryRun) =>
      RecommendKeeps(env, h1, signal, count, dryRun, now, h', response.body, chosen, shortlist);
  }

  // -------------------------------------------------------------------------
  // Runs
  // -------------------------------------------------------------------------

  /** One request frame and everything that came of it. */
  datatype Event = Event(
    frame: Bytes, now: i64, after: State, response: Response, chosen: seq<Rerank.Ranked>, shortlist: seq<R.Candidate>)

  /** The request of an event that passed the decoder. */
  function Asked(e: Event): Request
    requires DecodeRequest(e.frame).Ok?
  {
    DecodeRequest(e.frame).value
  }

  ghost predicate Follows(env: Env, h: State, e: Event) {
    && DecodeRequest(e.frame).Ok? && WellFormed(env, h)
    && Handles(env, h, Asked(e), e.now, e.after, e.response, e.chosen, e.shortlist)
  }

  function StateAfter(env: Env, events: seq<Event>): State {
    if events == [] then Initial(env) else events[|events| - 1].after
  }

  /** A run of the handler from the empty state. */
  ghost predicate IsRun(env: Env, events: seq<Event>) {
    events != [] ==>
      && IsRun(env, events[..|events| - 1])
      && Follows(env, StateAfter(env, events[..|events| - 1]), events[|events| - 1])
  }

  /** Every request passed the decoder. */
  predicate AllDecode(events: seq<Event>) {
    forall i :: 0 <= i < |events| ==> DecodeRequest(events[i].frame).Ok?
  }

  lemma {:induction false} RunDecodes(env: Env, events: seq<Event>)
    requires IsRun(env, events)
    ensures AllDecode(events)
  {
    hide Handles;
    hide DecodeRequest;
    if events != [] { RunDecodes(env, events[..|events| - 1]); }
  }

  /** What the decoder accepts is within the limits. */
  lemma AcceptedIsWithinLimits(b: Bytes)
    requires DecodeRequest(b).Ok?
    ensures RequestWithinLimits(DecodeRequest(b).value)
  {
    hide ParseHeader;
    hide ParseRecommend;
    hide ParseItem;
    hide ParseU64;
    var h := ParseHeader(b);
    if h.kind == 5 {
      RecommendLaws(h.rest, []);
    }
  }

  lemma {:induction false} RunKeepsGoodOrder(env: Env, events: seq<Event>)
    requires ValidEnv(env) && IsRun(env, events)
    ensures Inv(env, StateAfter(env, events))
    ensures events != [] ==> Deliverable(events[|events| - 1].response.body)
  {
    if events == [] {
      InitialInv(env);
    } else {
      var before, e := events[..|events| - 1], events[|events| - 1];
      RunKeepsGoodOrder(env, before);
      AcceptedIsWithinLimits(e.frame);
      var h := StateAfter(env, before);
      hide DecodeRequest;
      hide Inv;
      hide Handles;
      HandlesKeeps(env, h, Asked(e), e.now, e.after, e.response, e.chosen, e.shortlist);
    }
  }

  /** From an empty store and after any sequence of accepted requests, every reply
      fits a frame with room to spare, and the client decodes it as it was sent,
      under the request's id. */
  lemma EveryReplyIsDelivered(env: Env, events: seq<Event>)
    requires ValidEnv(env) && IsRun(env, events) && events != []
    ensures var e := events[|events| - 1];
            && |EncodeResponse(e.response)| <= MAX_REPLY && ValidBody(EncodeResponse(e.response))
            && DecodeResponse(EncodeResponse(e.response)) == Ok(e.response)
            && e.response.id == DecodeRequest(e.frame).value.id
  {
    RunKeepsGoodOrder(env, events);
    var e := events[|events| - 1];
    hide DecodeResponse;
    hide DecodeRequest;
    hide EncodeResponse;
    DeliverableIsDelivered(e.response);
  }
}
