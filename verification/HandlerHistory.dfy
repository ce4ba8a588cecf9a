/** The handler read against the requests it has served: what the cache holds,
    what the counters count, and what a stats reply tells. */
module HandlerHistory {
  import opened Words
  import opened Routing
  import opened Messages
  import opened Codec
  import opened Policy
  import opened PolicyRuns
  import opened Preview
  import R = Ranking
  import opened Rerank
  import opened HandlerModel
  import opened HandlerTheorems
  import opened Delivery
  import opened HandlerRuns
  import opened HandlerPolicy
  import opened PolicyVerdicts
  import opened Sharding
  import opened LruHistory
  import opened ShardedHistory
  import Lru

  // -------------------------------------------------------------------------
  // The cache
  // -------------------------------------------------------------------------

  /** The cache operation a request comes to, if any; a refused put is none. */
  function CacheOp(body: RequestBody): Option<Lru.Op<u64, Item>> {
    match body
    case GetItem(id) => Some(Lru.Get(id))
    case PutItem(item) => if item.id == 0 || item.category == [] then None else Some(Lru.Put(item.id, item))
    case DeleteItem(id) => Some(Lru.Erase(id))
    case _ => None
  }

  function CacheOps(events: seq<Event>): (ops: seq<Lru.Op<u64, Item>>)
    requires AllDecode(events)
  {
    if events == [] then []
    else
      var before, op := CacheOps(events[..|events| - 1]), CacheOp(Asked(events[|events| - 1]).body);
      if op.Some? then before + [op.value] else before
  }

  function ListsOf(env: Env, ops: seq<Lru.Op<u64, Item>>): seq<seq<Lru.Pair<u64, Item>>>
    requires ValidEnv(env)
  {
    RunAll(env.hash, env.shardCount, PerCacheShard(env), ops)
  }

  function MetricsOf(env: Env, ops: seq<Lru.Op<u64, Item>>): Metrics
    requires ValidEnv(env)
  {
    TotalMetrics(env.hash, env.shardCount, PerCacheShard(env), ops, env.shardCount)
  }

  lemma {:induction false} OneEviction(capacity: nat, ops: seq<Lru.Op<u64, Item>>, op: Lru.Op<u64, Item>)
    requires 0 < capacity && !op.Clear?
    ensures RunMetrics(capacity, ops + [op]).evictions
         == RunMetrics(capacity, ops).evictions
            + if op.Put? && PutEvicts(Lru.Run(capacity, ops), capacity, op.key) then 1 else 0
  {
    assert (ops + [op])[..|ops|] == ops;
    hide Lru.Lookup;
    hide Lru.Run;
  }

  /** How one operation moves one shard's eviction count ... */
  lemma {:induction false} ShardEviction(env: Env, ops: seq<Lru.Op<u64, Item>>, op: Lru.Op<u64, Item>, i: nat)
    requires ValidEnv(env) && !op.Clear? && i < env.shardCount
    ensures RunMetrics(PerCacheShard(env), RoutedOps(env.hash, env.shardCount, ops + [op], i)).evictions
         == RunMetrics(PerCacheShard(env), RoutedOps(env.hash, env.shardCount, ops, i)).evictions
            + if op.Put? && Route(env.hash, env.shardCount, op.key) == i
                 && PutEvicts(ListsOf(env, ops)[i], PerCacheShard(env), op.key) then 1 else 0
  {
    hide Route;
    hide RunAll;
    hide RoutedOps;
    hide RunMetrics;
    hide Lru.Run;
    hide PutEvicts;
    hide PerCacheShard;
    PerShardIsPositive(env);
    var routed := RoutedOps(env.hash, env.shardCount, ops, i);
    RoutedSnoc(env.hash, env.shardCount, ops, op, i);
    assert routed + [] == routed;
    OneEviction(PerCacheShard(env), routed, op);
    ShardIsItsOwnCache(env.hash, env.shardCount, PerCacheShard(env), ops, i);
  }

  /** ... and the sum of them. */
  lemma {:induction false} EvictionsStep(env: Env, ops: seq<Lru.Op<u64, Item>>, op: Lru.Op<u64, Item>, m: nat)
    requires ValidEnv(env) && !op.Clear? && m <= env.shardCount
    ensures var i := Route(env.hash, env.shardCount, op.key);
            TotalMetrics(env.hash, env.shardCount, PerCacheShard(env), ops + [op], m).evictions
            == TotalMetrics(env.hash, env.shardCount, PerCacheShard(env), ops, m).evictions
               + if i < m && op.Put? && PutEvicts(ListsOf(env, ops)[i], PerCacheShard(env), op.key) then 1 else 0
  {
    hide Route;
    hide RunAll;
    hide RoutedOps;
    hide RunMetrics;
    hide PutEvicts;
    hide PerCacheShard;
    if m > 0 {
      EvictionsStep(env, ops, op, m - 1);
      ShardEviction(env, ops, op, m - 1);
    }
  }

  ghost predicate CacheTells(env: Env, h: State, ops: seq<Lru.Op<u64, Item>>)
    requires ValidEnv(env)
  {
    h.lists == ListsOf(env, ops) && h.evictions == MetricsOf(env, ops).evictions
  }

  /** What an operation does to the cache behind the handler. */
  ghost predicate Operates(env: Env, h: State, h': State, op: Option<Lru.Op<u64, Item>>)
    requires WellFormed(env, h)
  {
    if op.None? then h'.lists == h.lists && h'.evictions == h.evictions
    else
      && !op.value.Clear?
      && h'.lists == ShardApply(env.hash, PerCacheShard(env), h.lists, op.value)
      && var list := h.lists[Route(env.hash, |h.lists|, op.value.key)];
         h'.evictions
         == h.evictions + if op.value.Put? && PutEvicts(list, PerCacheShard(env), op.value.key) then 1 else 0
  }

  lemma RequestOperates(env: Env, h: State, r: Request, now: i64, h': State, response: Response,
                        chosen: seq<Rerank.Ranked>, shortlist: seq<R.Candidate>)
    requires WellFormed(env, h) && Handles(env, h, r, now, h', response, chosen, shortlist)
    ensures Operates(env, h, h', CacheOp(r.body))
  {
    hide Invalid;
    hide ShardApply;
    hide Greedy;
    hide IsShortlist;
    hide Rendered;
    hide PublishedStats;
    hide PutEvicts;
    hide Route;
  }

  lemma CacheStep(env: Env, h: State, h': State, op: Option<Lru.Op<u64, Item>>, ops: seq<Lru.Op<u64, Item>>)
    requires WellFormed(env, h) && Operates(env, h, h', op) && CacheTells(env, h, ops)
    ensures CacheTells(env, h', if op.Some? then ops + [op.value] else ops)
  {
    hide ShardApply;
    hide TotalMetrics;
    hide PutEvicts;
    hide Route;
    hide PerCacheShard;
    if op.Some? {
      assert (ops + [op.value])[..|ops|] == ops;
      EvictionsStep(env, ops, op.value, env.shardCount);
    }
  }

  lemma {:induction false} NoEvictions(env: Env, m: nat)
    requires ValidEnv(env)
    ensures TotalMetrics<u64, Item>(env.hash, env.shardCount, PerCacheShard(env), [], m).evictions == 0
  {
    if m > 0 { NoEvictions(env, m - 1); }
  }

  /** Behind the handler the cache is the sharded cache of the requests served so
      far, so all that holds of such a cache holds of it. */
  lemma {:induction false} CacheIsHistory(env: Env, events: seq<Event>)
    requires ValidEnv(env) && IsRun(env, events)
    ensures AllDecode(events)
    ensures CacheTells(env, StateAfter(env, events), CacheOps(events))
  {
    RunDecodes(env, events);
    hide DecodeRequest;
    if events == [] {
      NoEvictions(env, env.shardCount);
    } else {
      var before, e := events[..|events| - 1], events[|events| - 1];
      CacheIsHistory(env, before);
      RequestOperates(env, StateAfter(env, before), Asked(e), e.now, e.after, e.response, e.chosen, e.shortlist);
      CacheStep(env, StateAfter(env, before), e.after, CacheOp(Asked(e).body), CacheOps(before));
      hide Operates;
      hide Handles;
      hide CacheTells;
    }
  }

  /** An item that a get returns is the one last published under that id and not
      deleted since. */
  lemma {:induction false} GetReturnsLastPublished(env: Env, events: seq<Event>, id: u64)
    requires ValidEnv(env) && IsRun(env, events)
    ensures AllDecode(events)
    ensures WellFormed(env, StateAfter(env, events))
    ensures var body := OnGet(env, StateAfter(env, events), id).1;
            body.GetItemResult? && (body.status == STATUS_OK ==> LastPut(CacheOps(events), id) == Some(body.item))
  {
    CacheIsHistory(env, events);
    RunKeepsGoodOrder(env, events);
    PerShardIsPositive(env);
    hide DecodeRequest;
    hide IsRun;
    hide Inv;
    hide RunAll;
    hide TotalMetrics;
    hide Lru.Lookup;
    InvHasStore(env, StateAfter(env, events));
    HitsAreLastPuts(env.hash, env.shardCount, PerCacheShard(env), CacheOps(events), id);
  }

  // -------------------------------------------------------------------------
  // The counters
  // -------------------------------------------------------------------------

  datatype Kind = Getting | Putting | Deleting | Recommending | AskingStats

  function KindOf(body: RequestBody): Kind {
    match body
    case GetItem(_) => Getting
    case PutItem(_) => Putting
    case DeleteItem(_) => Deleting
    case Recommend(_, _, _) => Recommending
    case GetStats => AskingStats
  }

  /** How many of the requests served were of a kind. */
  function Asks(events: seq<Event>, kind: Kind): nat
    requires AllDecode(events)
  {
    if events == [] then 0
    else
      Asks(events[..|events| - 1], kind)
      + if KindOf(Asked(events[|events| - 1]).body) == kind then 1 else 0
  }

  predicate IsHit(body: ResponseBody) {
    body.GetItemResult? && body.status == STATUS_OK
  }

  /** How many gets were answered with an item. */
  function Found(events: seq<Event>): nat {
    if events == [] then 0
    else Found(events[..|events| - 1]) + if IsHit(events[|events| - 1].response.body) then 1 else 0
  }

  /** How many items recording recommendations have returned. */
  function AllReturned(events: seq<Event>): nat {
    if events == [] then 0
    else AllReturned(events[..|events| - 1])
         + if IsRecording(events[|events| - 1]) then |events[|events| - 1].chosen| else 0
  }

  ghost predicate CountersTell(c: Counters, events: seq<Event>)
    requires AllDecode(events)
  {
    && c.requests == |events|
    && c.gets == Asks(events, Getting) && c.puts == Asks(events, Putting)
    && c.deletes == Asks(events, Deleting) && c.recommends == Asks(events, Recommending)
    && c.hits == Found(events) && c.misses == c.gets - c.hits
    && c.requests == c.gets + c.puts + c.deletes + c.recommends + Asks(events, AskingStats)
  }

  /** What one request adds to the counters. */
  ghost predicate CountsOne(c: Counters, d: Counters, body: RequestBody, hit: bool) {
    && d.requests == c.requests + 1
    && d.gets == c.gets + (if body.GetItem? then 1 else 0)
    && d.hits == c.hits + (if hit then 1 else 0)
    && d.misses == c.misses + (if body.GetItem? && !hit then 1 else 0)
    && d.puts == c.puts + (if body.PutItem? then 1 else 0)
    && d.deletes == c.deletes + (if body.DeleteItem? then 1 else 0)
    && d.recommends == c.recommends + (if body.Recommend? then 1 else 0)
    && (hit ==> body.GetItem?)
  }

  lemma CountersStep(env: Env, h: State, r: Request, now: i64, h': State, response: Response,
                     chosen: seq<Rerank.Ranked>, shortlist: seq<R.Candidate>)
    requires WellFormed(env, h) && Handles(env, h, r, now, h', response, chosen, shortlist)
    ensures CountsOne(h.counters, h'.counters, r.body, IsHit(response.body))
  {
    hide Invalid;
    hide ShardApply;
    hide Greedy;
    hide IsShortlist;
    hide Rendered;
    hide PublishedStats;
    InvalidIsNoHit(ZeroId());
    InvalidIsNoHit(NoCategory());
    InvalidIsNoHit(ZeroCount());
    if r.body.Recommend? { InvalidIsNoHit(TooMany(r.body.count)); }
  }

  lemma InvalidIsNoHit(message: string)
    ensures !IsHit(Invalid(message))
  {
  }

  lemma {:induction false} CountersSnoc(c: Counters, d: Counters, events: seq<Event>)
    requires events != [] && AllDecode(events) && CountersTell(c, events[..|events| - 1])
    requires var e := events[|events| - 1]; CountsOne(c, d, Asked(e).body, IsHit(e.response.body))
    ensures CountersTell(d, events)
  {
    hide DecodeRequest;
    hide IsHit;
  }

  /** Every request is counted once, under its kind; every get is a hit, which
      means answered with an item, or a miss. */
  lemma {:induction false} CountersBalance(env: Env, events: seq<Event>)
    requires ValidEnv(env) && IsRun(env, events)
    ensures AllDecode(events) && CountersTell(StateAfter(env, events).counters, events)
  {
    hide DecodeRequest;
    hide Handles;
    hide IsHit;
    hide WellFormed;
    hide CountsOne;
    RunDecodes(env, events);
    if events != [] {
      var before, e := events[..|events| - 1], events[|events| - 1];
      CountersBalance(env, before);
      CountersStep(env, StateAfter(env, before), Asked(e), e.now, e.after, e.response, e.chosen, e.shortlist);
      hide CountersTell;
      CountersSnoc(StateAfter(env, before).counters, e.after.counters, events);
    }
  }

  /** In either mode, and whatever the shortlist, recording allows as many shows
      as it returns. */
  lemma {:induction false} LiveCountsAllowed(l: Layout, now: nat, scoring: R.Scoring, count: nat, rem: seq<R.Candidate>,
                                             offers: seq<Offer>, st: Store)
    requires ValidLayout(l) && |st.shards| == l.shardCount
    ensures var slate := Greedy(scoring, count, rem, offers, st, Live(l, now));
            slate.state.allowed - st.allowed == |Chosen(slate.offers)| - |Chosen(offers)|
    decreases |rem|
  {
    hide Adjusted;
    hide Pick;
    hide Chosen;
    hide ReserveAt;
    if |Chosen(offers)| < count && rem != [] {
      var i := Pick(scoring, Chosen(offers), rem);
      var answer := Live(l, now)(st, rem[i].id);
      var o := Offer(rem[i], Adjusted(scoring, Chosen(offers), rem[i]), answer.0);
      ChosenSnoc(offers, o);
      LiveCountsAllowed(l, now, scoring, count, RemoveAt(rem, i), offers + [o], answer.1);
    }
  }

  lemma RecommendCounts(env: Env, h: State, signal: Messages.Signal, count: u32, dryRun: bool, now: i64,
                        h': State, body: ResponseBody, chosen: seq<Rerank.Ranked>, shortlist: seq<R.Candidate>)
    requires WellFormed(env, h)
    requires OnRecommend(env, h, signal, count, dryRun, now, h', body, chosen, shortlist)
    ensures h'.policy.allowed == h.policy.allowed + if dryRun then 0 else |chosen|
  {
    hide IsShortlist;
    hide Greedy;
    hide Rendered;
    hide Invalid;
    if 0 < count <= MAX_RECOMMEND {
      if dryRun {
        DryRunRecordsNothing(LayoutOf(env), ToUnsigned(now), env.scoring, count, shortlist, [], h.policy);
      } else {
        LiveCountsAllowed(LayoutOf(env), ToUnsigned(now), env.scoring, count, shortlist, [], h.policy);
      }
    }
  }

  /** The allowed counter is the number of items that were returned for the
      record, fail-open or fail-closed. */
  lemma {:induction false} AllowedIsReturned(env: Env, events: seq<Event>)
    requires ValidEnv(env) && IsRun(env, events)
    ensures StateAfter(env, events).policy.allowed == AllReturned(events)
  {
    hide DecodeRequest;
    if events != [] {
      var before, e := events[..|events| - 1], events[|events| - 1];
      AllowedIsReturned(env, before);
      var h, r := StateAfter(env, before), Asked(e);
      hide OnGet;
      hide OnPut;
      hide OnDelete;
      hide OnRecommend;
      hide PublishedStats;
      if r.body.Recommend? {
        RecommendCounts(env, Counted(h), r.body.signal, r.body.count, r.body.dryRun, e.now, e.after, e.response.body,
                        e.chosen, e.shortlist);
      } else {
        OthersChargeNothing(env, h, r, e.now, e.after, e.response, e.chosen, e.shortlist);
      }
    }
  }

  // -------------------------------------------------------------------------
  // What a stats reply tells
  // -------------------------------------------------------------------------

  /** The counts of the requests served so far, on 64-bit words, behavioural ones
      through the noise; and what is held is within what was configured. */
  ghost predicate StatsTell(env: Env, events: seq<Event>, now: i64, s: Stats)
    requires ValidEnv(env) && AllDecode(events)
  {
    && s.requests == env.publish(Requests, Word(|events|), now)
    && s.gets == env.publish(Gets, Word(Asks(events, Getting)), now)
    && s.puts == Word(Asks(events, Putting)) && s.deletes == Word(Asks(events, Deleting))
    && s.recommends == env.publish(Recommends, Word(Asks(events, Recommending)), now)
    && s.hits == env.publish(Hits, Word(Found(events)), now)
    && Found(events) <= Asks(events, Getting)
    && s.misses == env.publish(Misses, Word(Asks(events, Getting) - Found(events)), now)
    && PolicyTells(env, StoreOps(env, events), now, s)
    && s.policyAllowed == env.publish(PolicyAllowed, Word(AllReturned(events)), now)
    && HoldingsTell(env, MetricsOf(env, CacheOps(events)), s)
  }

  /** How often the consultations of the run were decided each way, and how many
      items they left tracked. */
  ghost predicate PolicyTells(env: Env, ops: seq<Op>, now: i64, s: Stats)
    requires ValidEnv(env)
  {
    var l := LayoutOf(env);
    && s.policyAllowed == env.publish(PolicyAllowed, Word(Verdicts(l, ops, Allowed)), now)
    && s.policyExposureBlocked == env.publish(PolicyExposureBlocked, Word(Verdicts(l, ops, ExposureCapReached)), now)
    && s.policyFrequencyBlocked == env.publish(PolicyFrequencyBlocked, Word(Verdicts(l, ops, FrequencyLimited)), now)
    && s.policyStoreFull == Word(Verdicts(l, ops, StoreFull))
    && s.policyTracked == Word(|TrackedIds(l, ops)|)
  }

  lemma {:induction false} PolicyIsExact(env: Env, h: State, ops: seq<Op>, now: i64)
    requires ValidEnv(env) && h.policy == Run(LayoutOf(env), ops)
    ensures PolicyTells(env, ops, now, PublishedStats(env, h, now))
  {
    hide Word;
    hide Scan;
    hide Tracked;
    hide Verdicts;
    hide TrackedIds;
    hide Run;
    CountersAreVerdicts(LayoutOf(env), ops);
    TrackedIsCount(LayoutOf(env), ops);
  }

  ghost predicate HoldingsTell(env: Env, m: Metrics, s: Stats) {
    && m.insertions >= m.evictions + m.removals
    && s.entries == Word(m.insertions - m.evictions - m.removals) && s.evictions == Word(m.evictions)
    && (env.capacity < TWO_TO_64 ==> s.entries <= s.capacity == env.capacity)
    && (env.policy.maxTracked < TWO_TO_64 ==> s.policyTracked <= env.policy.maxTracked)
  }

  lemma TrackedWithin(env: Env, h: State)
    requires Inv(env, h)
    ensures Tracked(h.policy.shards) <= env.policy.maxTracked
  {
    var l := LayoutOf(env);
    PerShardPositive(l);
    forall i | 0 <= i < |h.policy.shards| ensures |h.policy.shards[i].entries| <= PerShard(l) {
      ShardsAreOk(l, h.policy, i);
    }
    TrackedBound(h.policy.shards, PerShard(l));
  }

  lemma WordFits(n: nat)
    ensures Word(n) <= n && (n < TWO_TO_64 ==> Word(n) == n)
  {
  }

  lemma ScanWithin(env: Env, h: State)
    requires Inv(env, h)
    ensures ValidEnv(env) && |Scan(h.lists)| <= env.capacity
  {
    ScanIsDistinct(env.hash, env.capacity, h.lists);
  }

  lemma HoldingsAreExact(env: Env, h: State, ops: seq<Lru.Op<u64, Item>>, now: i64)
    requires Inv(env, h) && ValidEnv(env) && CacheTells(env, h, ops)
    ensures HoldingsTell(env, MetricsOf(env, ops), PublishedStats(env, h, now))
  {
    hide Word;
    hide Inv;
    hide RunAll;
    hide TotalMetrics;
    hide Scan;
    hide Tracked;
    hide PerCacheShard;
    TrackedWithin(env, h);
    ScanWithin(env, h);
    PerShardIsPositive(env);
    TotalsBalance(env.hash, env.shardCount, PerCacheShard(env), ops);
    WordFits(|Scan(h.lists)|);
    WordFits(env.capacity);
    WordFits(Tracked(h.policy.shards));
  }

  lemma {:induction false} StatsAreExact(env: Env, h: State, events: seq<Event>, now: i64)
    requires Inv(env, h) && ValidEnv(env) && AllDecode(events)
    requires CountersTell(h.counters, events) && CacheTells(env, h, CacheOps(events))
    requires h.policy.allowed == AllReturned(events) && h.policy == Run(LayoutOf(env), StoreOps(env, events))
    ensures StatsTell(env, events, now, PublishedStats(env, h, now))
  {
    hide PolicyTells;
    hide StoreOps;
    hide Run;
    hide Inv;
    hide Word;
    hide HoldingsTell;
    hide MetricsOf;
    hide CacheTells;
    hide AllDecode;
    hide Scan;
    hide Tracked;
    hide CacheOps;
    hide Asks;
    hide Found;
    hide AllReturned;
    HoldingsAreExact(env, h, CacheOps(events), now);
    PolicyIsExact(env, h, StoreOps(env, events), now);
  }

  /** A stats request is answered with the counts of all requests up to and with
      itself. */
  lemma {:induction false} StatsTellTheRun(env: Env, events: seq<Event>)
    requires ValidEnv(env) && IsRun(env, events) && events != []
    requires Asked(events[|events| - 1]).body.GetStats?
    ensures AllDecode(events)
    ensures var e := events[|events| - 1];
            && e.response.body.StatsResult? && e.response.body.status == STATUS_OK
            && StatsTell(env, events, e.now, e.response.body.stats)
  {
    hide DecodeRequest;
    hide PublishedStats;
    CountersBalance(env, events);
    CacheIsHistory(env, events);
    AllowedIsReturned(env, events);
    StoreIsHistory(env, events);
    RunKeepsGoodOrder(env, events);
    hide Inv;
    hide StatsTell;
    hide CountersTell;
    hide CacheTells;
    var e := events[|events| - 1];
    StatsAreExact(env, StateAfter(env, events), events, e.now);
  }
}
