/** What the daemon's replies say to a client: found or missing, done or refused,
    and with which status byte. */
module Replies {
  import opened Words
  import opened Routing
  import opened Messages
  import opened Codec
  import opened Lru
  import opened Sharding
  import R = Ranking
  import Rerank
  import opened HandlerModel
  import opened Sessions
  import opened Connections
  import SdkClient

  /** A failure with the status for a bad request, and this text. */
  ghost predicate RefusedWith(body: ResponseBody, text: string) {
    && body.Failure? && body.status == 2 && |body.message| == |text|
    && forall i :: 0 <= i < |text| ==> body.message[i] == text[i] as int % 0x100
  }

  lemma {:induction false} AsciiIsText(s: string)
    ensures |Ascii(s)| == |s| && forall i :: 0 <= i < |s| ==> Ascii(s)[i] == s[i] as int % 0x100
  {
    if s != [] { AsciiIsText(s[1..]); }
  }

  lemma InvalidRefuses(text: string)
    ensures RefusedWith(Invalid(text), text)
  {
    AsciiIsText(text);
  }

  /** A put is refused exactly for a zero id, and then for an empty category; and it
      says which. */
  lemma PutRefusals(env: Env, h: State, item: Item)
    requires WellFormed(env, h)
    ensures var body := OnPut(env, h, item).1;
            if item.id == 0 then RefusedWith(body, "item id must not be zero")
            else if item.category == [] then RefusedWith(body, "item category must not be empty")
            else body == PutItemResult(0)
  {
    hide RefusedWith;
    hide Invalid;
    hide ShardApply;
    InvalidRefuses(ZeroId());
    InvalidRefuses(NoCategory());
  }

  /** The number that a string of decimal digits writes. */
  function NumberOf(s: string): int {
    if s == [] then 0 else 10 * NumberOf(s[..|s| - 1]) + (s[|s| - 1] as int - '0' as int)
  }

  lemma {:induction false} DecimalIsNumber(n: nat)
    ensures var s := Decimal(n);
            && NumberOf(s) == n && (n == 0 || s[0] != '0')
            && forall i :: 0 <= i < |s| ==> '0' <= s[i] <= '9'
  {
    if n >= 10 {
      DecimalIsNumber(n / 10);
      var s := Decimal(n);
      assert s[..|s| - 1] == Decimal(n / 10);
    }
  }

  ghost predicate SaysTooMany(body: ResponseBody, count: nat) {
    exists digits :: && NumberOf(digits) == count && digits != [] && digits[0] != '0'
                     && RefusedWith(body, "count " + digits + " exceeds the limit of 100")
  }

  lemma TooManySays(count: u32)
    requires count > 0
    ensures SaysTooMany(Invalid(TooMany(count)), count)
  {
    hide RefusedWith;
    hide Invalid;
    DecimalIsNumber(count);
    assert Decimal(MAX_RECOMMEND) == "100" by {
      assert Decimal(1) == "1" && Decimal(10) == "10";
    }
    assert "count " + Decimal(count) + " exceeds the limit of " + "100"
        == "count " + Decimal(count) + " exceeds the limit of 100";
    InvalidRefuses(TooMany(count));
  }

  /** A recommendation is refused exactly for a count out of range, and the refusal
      says how. */
  lemma RecommendRefusals(env: Env, h: State, signal: Messages.Signal, count: u32, dryRun: bool, now: i64, h': State,
                          body: ResponseBody, chosen: seq<Rerank.Ranked>, shortlist: seq<R.Candidate>)
    requires OnRecommend(env, h, signal, count, dryRun, now, h', body, chosen, shortlist)
    ensures if count == 0 then RefusedWith(body, "count must be at least 1")
            else if count > 100 then SaysTooMany(body, count)
            else body.RecommendResult? && body.status == 0
  {
    hide RefusedWith;
    hide Invalid;
    hide IsShortlist;
    hide Rendered;
    hide Rerank.Greedy;
    hide SaysTooMany;
    InvalidRefuses(ZeroCount());
    if count > 100 { TooManySays(count); }
  }

  ghost predicate Holds(env: Env, h: State, id: u64)
    requires WellFormed(env, h)
  {
    id in Keys(h.lists[Route(env.hash, |h.lists|, id)])
  }

  /** The requests that ask for an item which is not held. */
  ghost predicate AsksForMissing(env: Env, h: State, body: RequestBody)
    requires WellFormed(env, h)
  {
    (body.GetItem? && !Holds(env, h, body.itemId)) || (body.DeleteItem? && !Holds(env, h, body.itemId))
  }

  /** The requests the handler turns down. */
  predicate TurnedDown(body: RequestBody) {
    || (body.PutItem? && (body.item.id == 0 || body.item.category == []))
    || (body.Recommend? && (body.count == 0 || body.count > 100))
  }

  /** To the client that asked, every reply of the handler is of the type it expects
      or a failure, and says what happened: missing exactly for a get or delete of an
      item not held, refused exactly for a bad put or count, and otherwise fine; the
      status byte is 1, 2 or 0 accordingly. */
  lemma RepliesSayWhatHappened(env: Env, h: State, r: Request, now: i64, h': State, response: Response,
                               chosen: seq<Rerank.Ranked>, shortlist: seq<R.Candidate>)
    requires WellFormed(env, h) && Handles(env, h, r, now, h', response, chosen, shortlist)
    ensures response.id == r.id
    ensures SaysOf(r.body, response.body)
         == if TurnedDown(r.body) then SdkClient.Refused
            else if AsksForMissing(env, h, r.body) then SdkClient.Missing
            else SdkClient.Fine
    ensures response.body.status
         == if TurnedDown(r.body) then 2 else if AsksForMissing(env, h, r.body) then 1 else 0
  {
    hide Route;
    hide ShardApply;
    hide Invalid;
    hide PublishedStats;
    hide OnRecommend;
    hide RefusedWith;
    match r.body
    case PutItem(item) =>
      PutRefusals(env, Counted(h), item);
      RefusedIsFailure(OnPut(env, Counted(h), item).1, "item id must not be zero");
      RefusedIsFailure(OnPut(env, Counted(h), item).1, "item category must not be empty");
    case Recommend(signal, count, dryRun) =>
      RecommendRefusals(env, Counted(h), signal, count, dryRun, now, h', response.body, chosen, shortlist);
      RefusedIsFailure(response.body, "count must be at least 1");
      if count > 100 { TooManyIsFailure(response.body, count); }
    case _ =>
  }

  lemma RefusedIsFailure(body: ResponseBody, text: string)
    ensures RefusedWith(body, text) ==> body.Failure? && body.status == 2
  {
  }

  lemma TooManyIsFailure(body: ResponseBody, count: nat)
    requires SaysTooMany(body, count)
    ensures body.Failure? && body.status == 2
  {
  }

  /** A request with a field over its limit is refused in the same way. */
  lemma TooLargeIsRefused(asked: RequestBody, id: u64)
    ensures RefusedWith(Rejection(id).body, "FieldTooLarge") && Rejection(id).id == id
    ensures SaysOf(asked, Rejection(id).body) == SdkClient.Refused
  {
    InvalidRefuses(TooLarge());
  }

  /** What the client refuses by itself the daemon would have refused: the text or
      count is over the limit of the wire format, or the count is zero. */
  lemma LocalRefusalsAreTheDaemons(r: Request)
    requires RequestFits(r) && RefusedLocally(r.body)
    ensures DecodeRequest(EncodeRequest(r)) == Err(FieldTooLarge, Some(r.id))
         || (DecodeRequest(EncodeRequest(r)) == Ok(r) && TurnedDown(r.body))
  {
    hide DecodeRequest;
    hide EncodeRequest;
    RequestRoundTrip(r);
  }

  /** What it lets through, the daemon refuses only for an id or category that is
      missing, or for a signal over the limits. */
  lemma TheRestIsTheDaemons(r: Request)
    requires RequestFits(r) && !RefusedLocally(r.body)
    ensures TurnedDown(r.body) ==> r.body.PutItem? && (r.body.item.id == 0 || r.body.item.category == [])
    ensures DecodeRequest(EncodeRequest(r)) != Ok(r) ==> r.body.Recommend? && !SignalWithinLimits(r.body.signal)
  {
    hide DecodeRequest;
    hide EncodeRequest;
    RequestRoundTrip(r);
  }
}
