/** The request handler: the item cache, the ranker and the compliance store put
    together. One request at a time; the clock is an input. */
module HandlerModel {
  import opened Words
  import opened Routing
  import opened Messages
  import opened Lru
  import opened Sharding
  import opened Policy
  import opened PolicyRuns
  import opened Preview
  import R = Ranking
  import opened Rerank

  /** The counters that are exported with noise. */
  datatype Metric =
    | Requests | Gets | Recommends | Hits | Misses | PolicyAllowed | PolicyExposureBlocked | PolicyFrequencyBlocked

  /** What the handler is built with. `value` and `bits` stand for the IEEE 754
      reading and writing of a 64-bit pattern, `publish` for the noise on exported
      counters. */
  datatype Env = Env(
    capacity: nat, shardCount: nat, hash: u64 -> nat, policy: Config, scoring: R.Scoring,
    value: u64 -> real, bits: real -> u64, publish: (Metric, u64, i64) -> u64)

  predicate ValidEnv(env: Env) {
    HasSingleBit(env.shardCount) && 0 < env.shardCount <= env.capacity && env.shardCount <= env.policy.maxTracked
  }

  function LayoutOf(env: Env): Layout {
    Layout(env.policy, env.shardCount, env.hash)
  }

  type Item = Messages.Item

  datatype Counters = Counters(
    requests: nat, gets: nat, puts: nat, deletes: nat, recommends: nat, hits: nat, misses: nat)

  /** `evictions` is the cache's own count. */
  datatype State = State(lists: seq<seq<Pair<u64, Item>>>, policy: Store, counters: Counters, evictions: nat)

  function Initial(env: Env): State {
    State(seq(env.shardCount, _ => []), Fresh(LayoutOf(env)), Counters(0, 0, 0, 0, 0, 0, 0), 0)
  }

  predicate WellFormed(env: Env, h: State) {
    ValidEnv(env) && |h.lists| == env.shardCount && |h.policy.shards| == env.shardCount
  }

  function PerCacheShard(env: Env): nat
    requires ValidEnv(env)
  {
    env.capacity / env.shardCount
  }

  function Ascii(s: string): Text {
    if s == [] then [] else [s[0] as int % 0x100] + Ascii(s[1..])
  }

  function Decimal(n: nat): string {
    var digit := ('0' as int + n % 10) as char;
    if n < 10 then [digit] else Decimal(n / 10) + [digit]
  }

  function ZeroId(): string { "item id must not be zero" }
  function NoCategory(): string { "item category must not be empty" }
  function ZeroCount(): string { "count must be at least 1" }
  function TooMany(count: u32): string {
    "count " + Decimal(count) + " exceeds the limit of " + Decimal(MAX_RECOMMEND)
  }

  function Invalid(message: string): ResponseBody {
    Failure(STATUS_INVALID, Ascii(message))
  }

  // -------------------------------------------------------------------------
  // The operations
  // -------------------------------------------------------------------------

  function OnGet(env: Env, h: State, id: u64): (State, ResponseBody)
    requires WellFormed(env, h)
  {
    var found := Lookup(h.lists[Route(env.hash, |h.lists|, id)], id);
    var c := h.counters.(gets := h.counters.gets + 1);
    var lists := ShardApply(env.hash, PerCacheShard(env), h.lists, Lru.Op.Get(id));
    if found.None?
    then (h.(lists := lists, counters := c.(misses := c.misses + 1)), GetItemResult(STATUS_NOT_FOUND, DEFAULT_ITEM))
    else (h.(lists := lists, counters := c.(hits := c.hits + 1)), GetItemResult(STATUS_OK, found.value))
  }

  function OnPut(env: Env, h: State, item: Item): (State, ResponseBody)
    requires WellFormed(env, h)
  {
    var h := h.(counters := h.counters.(puts := h.counters.puts + 1));
    if item.id == 0 then (h, Invalid(ZeroId()))
    else if item.category == [] then (h, Invalid(NoCategory()))
    else
      var list := h.lists[Route(env.hash, |h.lists|, item.id)];
      var evictions := h.evictions + if PutEvicts(list, PerCacheShard(env), item.id) then 1 else 0;
      (h.(lists := ShardApply(env.hash, PerCacheShard(env), h.lists, Lru.Op.Put(item.id, item)),
          evictions := evictions),
       PutItemResult(STATUS_OK))
  }

  /** The item's counters in the compliance store are left alone. */
  function OnDelete(env: Env, h: State, id: u64): (State, ResponseBody)
    requires WellFormed(env, h)
  {
    var present := Lookup(h.lists[Route(env.hash, |h.lists|, id)], id).Some?;
    (h.(lists := ShardApply(env.hash, PerCacheShard(env), h.lists, Lru.Op.Erase(id)),
        counters := h.counters.(deletes := h.counters.deletes + 1)),
     DeleteItemResult(if present then STATUS_OK else STATUS_NOT_FOUND))
  }

  function Word(n: nat): u64 {
    n % TWO_TO_64
  }

  function ExactStats(env: Env, h: State): Stats {
    var c := h.counters;
    Stats(Word(c.requests), Word(c.gets), Word(c.puts), Word(c.deletes), Word(c.recommends), Word(c.hits),
          Word(c.misses), Word(h.evictions), Word(|Scan(h.lists)|), Word(env.capacity),
          Word(h.policy.allowed), Word(h.policy.exposureBlocked), Word(h.policy.frequencyBlocked),
          Word(h.policy.storeFull), Word(Tracked(h.policy.shards)))
  }

  /** Behavioural counters are noised, operational ones are not. */
  function PublishedStats(env: Env, h: State, now: i64): Stats {
    var s := ExactStats(env, h);
    s.(requests := env.publish(Requests, s.requests, now),
       gets := env.publish(Gets, s.gets, now),
       recommends := env.publish(Recommends, s.recommends, now),
       hits := env.publish(Hits, s.hits, now),
       misses := env.publish(Misses, s.misses, now),
       policyAllowed := env.publish(PolicyAllowed, s.policyAllowed, now),
       policyExposureBlocked := env.publish(PolicyExposureBlocked, s.policyExposureBlocked, now),
       policyFrequencyBlocked := env.publish(PolicyFrequencyBlocked, s.policyFrequencyBlocked, now))
  }

  function ToRanking(env: Env, i: Item): R.Item {
    R.Item(i.id, i.category, i.advertiser, env.value(i.score), i.createdAt, i.expiresAt)
  }

  function ToAffinities(env: Env, s: seq<Messages.Affinity>): seq<R.Affinity> {
    if s == [] then [] else [R.Affinity(s[0].category, env.value(s[0].weight))] + ToAffinities(env, s[1..])
  }

  function ToSignal(env: Env, s: Messages.Signal): R.Signal {
    R.Signal(ToAffinities(env, s.affinities), s.excluded)
  }

  /** The candidates that a scan offers to retrieval, in order. */
  function OffersOf(env: Env, signal: R.Signal, now: i64, pairs: seq<Pair<u64, Item>>): seq<R.Candidate> {
    if pairs == [] then []
    else
      var n := |pairs| - 1;
      var c := R.CandidateOf(ToRanking(env, pairs[n].value), signal, env.scoring, now);
      if c.Some? then OffersOf(env, signal, now, pairs[..n]) + [c.value] else OffersOf(env, signal, now, pairs[..n])
  }

  ghost predicate IsShortlist(env: Env, lists: seq<seq<Pair<u64, Item>>>, signal: R.Signal, count: nat, now: i64,
                              shortlist: seq<R.Candidate>) {
    R.IsTop(multiset(shortlist), multiset(OffersOf(env, signal, now, Scan(lists))), R.ShortlistLimit(env.scoring, count))
  }

  function Hook(env: Env, dryRun: bool, now: i64): (Store, u64) -> (bool, Store) {
    if dryRun then Dry(LayoutOf(env), ToUnsigned(now)) else Live(LayoutOf(env), ToUnsigned(now))
  }

  function Rendered(env: Env, chosen: seq<Rerank.Ranked>): (r: seq<Messages.Ranked>)
    ensures |r| == |chosen|
  {
    if chosen == [] then []
    else
      var n := |chosen| - 1;
      var x := chosen[n];
      Rendered(env, chosen[..n]) + [Messages.Ranked(x.id, env.bits(x.score), x.category, x.advertiser)]
  }

  /** The recommendation: some shortlist of the best eligible items, re-ranked
      through the compliance hook. */
  ghost predicate OnRecommend(env: Env, h: State, signal: Messages.Signal, count: u32, dryRun: bool, now: i64,
                              h': State, body: ResponseBody, chosen: seq<Rerank.Ranked>, shortlist: seq<R.Candidate>) {
    var h := h.(counters := h.counters.(recommends := h.counters.recommends + 1));
    if count == 0 then h' == h && body == Invalid(ZeroCount()) && chosen == []
    else if count > MAX_RECOMMEND then
      && h' == h && chosen == []
      && body == Invalid(TooMany(count))
    else
      && IsShortlist(env, h.lists, ToSignal(env, signal), count, now, shortlist)
      && var slate := Greedy(env.scoring, count, shortlist, [], h.policy, Hook(env, dryRun, now));
         && chosen == Chosen(slate.offers) && h' == h.(policy := slate.state)
         && body == RecommendResult(STATUS_OK, Rendered(env, chosen))
  }

  /** One request handled. `chosen` and `shortlist` are what a recommendation
      returned and chose from. */
  ghost predicate Handles(env: Env, h: State, r: Request, now: i64, h': State, response: Response,
                          chosen: seq<Rerank.Ranked>, shortlist: seq<R.Candidate>)
    requires WellFormed(env, h)
  {
    response.id == r.id && Serves(env, Counted(h), r.body, now, h', response.body, chosen, shortlist)
  }

  function Counted(h: State): State {
    h.(counters := h.counters.(requests := h.counters.requests + 1))
  }

  /** The handler's part for each kind of request. */
  ghost predicate Serves(env: Env, h: State, request: RequestBody, now: i64, h': State, body: ResponseBody,
                         chosen: seq<Rerank.Ranked>, shortlist: seq<R.Candidate>)
    requires WellFormed(env, h)
  {
    match request
    case GetItem(id) => h' == OnGet(env, h, id).0 && body == OnGet(env, h, id).1 && chosen == []
    case PutItem(item) => h' == OnPut(env, h, item).0 && body == OnPut(env, h, item).1 && chosen == []
    case DeleteItem(id) => h' == OnDelete(env, h, id).0 && body == OnDelete(env, h, id).1 && chosen == []
    case GetStats => h' == h && body == StatsResult(STATUS_OK, PublishedStats(env, h, now)) && chosen == []
    case Recommend(signal, count, dryRun) =>
      OnRecommend(env, h, signal, count, dryRun, now, h', body, chosen, shortlist)
  }
}
