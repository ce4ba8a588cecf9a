/** The handler as it runs: the cache is updated in place, every shard is scanned
    into a fresh selector, and the selector consults the compliance store. */
module Handlers {
  import opened Words
  import opened Routing
  import opened Lists
  import opened Messages
  import opened Lru
  import opened Sharding
  import opened ShardedCaches
  import opened PolicyRuns
  import R = Ranking
  import opened Rerank
  import opened Selectors
  import CandidateHeap
  import opened HandlerModel

  class Handler {
    const env: Env
    const cache: ShardedCache<u64, Item>
    var policy: Store
    var counters: Counters

    ghost predicate Valid()
      reads this, cache, cache.shards
    {
      && ValidEnv(env) && cache.Valid() && |cache.shards| == env.shardCount && cache.capacity == env.capacity
      && cache.hash == env.hash && |policy.shards| == env.shardCount
    }

    ghost function Value(): State
      reads this, cache, cache.shards
    {
      State(cache.Lists(), policy, counters, Sum(cache.Evicted()))
    }

    constructor (env: Env)
      requires ValidEnv(env)
      ensures Valid() && this.env == env && fresh(cache) && fresh(cache.shards)
      ensures Value() == Initial(env)
    {
      this.env := env;
      var c := new ShardedCache<u64, Item>(env.capacity, env.shardCount, env.hash);
      cache := c;
      policy := Fresh(LayoutOf(env));
      counters := Counters(0, 0, 0, 0, 0, 0, 0);
      new;
      SumOfZeros(cache.Evicted());
      assert cache.Lists() == Initial(env).lists;
    }

    /** Construction fails when the cache or the compliance store refuses its
        configuration. */
    static method Create(env: Env) returns (r: Option<Handler>)
      ensures r.Some? <==> ValidEnv(env)
      ensures r.Some? ==> fresh(r.value) && r.value.Valid() && r.value.env == env && r.value.Value() == Initial(env)
    {
      if env.shardCount == 0 || !HasSingleBit(env.shardCount) || env.capacity < env.shardCount
         || env.policy.maxTracked < env.shardCount {
        return None;
      }
      var handler := new Handler(env);
      r := Some(handler);
    }

    method OnGet(id: u64) returns (body: ResponseBody)
      requires Valid()
      modifies this, cache.shards
      ensures Valid()
      ensures Value() == HandlerModel.OnGet(env, old(Value()), id).0
      ensures body == HandlerModel.OnGet(env, old(Value()), id).1
    {
      hide ShardApply;
      hide Lookup;
      hide Sum;
      hide Route;
      counters := counters.(gets := counters.gets + 1);
      var item := cache.Get(id);
      CountLookup(item.Some?);
      return if item.None? then GetItemResult(STATUS_NOT_FOUND, DEFAULT_ITEM) else GetItemResult(STATUS_OK, item.value);
    }

    method CountLookup(hit: bool)
      requires Valid()
      modifies this`counters
      ensures Valid() && cache.Lists() == old(cache.Lists()) && cache.Evicted() == old(cache.Evicted())
      ensures counters == if hit then old(counters).(hits := old(counters.hits) + 1)
                          else old(counters).(misses := old(counters.misses) + 1)
    {
      if hit {
        counters := counters.(hits := counters.hits + 1);
      } else {
        counters := counters.(misses := counters.misses + 1);
      }
    }

    method OnPut(item: Item) returns (body: ResponseBody)
      requires Valid()
      modifies this, cache.shards
      ensures Valid()
      ensures Value() == HandlerModel.OnPut(env, old(Value()), item).0
      ensures body == HandlerModel.OnPut(env, old(Value()), item).1
    {
      hide ShardApply;
      hide Lookup;
      hide Sum;
      hide Route;
      hide PutEvicts;
      hide ZeroId;
      hide NoCategory;
      hide Invalid;
      counters := counters.(puts := counters.puts + 1);
      if item.id == 0 {
        return Invalid(ZeroId());
      }
      if item.category == [] {
        return Invalid(NoCategory());
      }
      Publish(item);
      return PutItemResult(STATUS_OK);
    }

    /** Stores an item that passed the checks. */
    method Publish(item: Item)
      requires Valid()
      modifies cache.shards
      ensures Valid()
      ensures cache.Lists() == ShardApply(env.hash, PerCacheShard(env), old(cache.Lists()), Lru.Op.Put(item.id, item))
      ensures Sum(cache.Evicted()) == Sum(old(cache.Evicted())) + PutEvictions(old(cache.Lists()), item.id)
    {
      hide ShardApply;
      hide PutEvicts;
      hide Sum;
      ghost var before, lists := cache.Evicted(), cache.Lists();
      cache.Put(item.id, item);
      ghost var after := cache.Evicted();
      assert forall j :: 0 <= j < |after| ==> after[j] == before[j] + cache.EvictionsOfPut(j, item.id, lists[j]);
      SumGrows(before, after, lists, item.id);
    }

    ghost function PutEvictions(lists: seq<seq<Pair<u64, Item>>>, id: u64): nat
      requires ValidEnv(env) && |lists| == env.shardCount
    {
      if PutEvicts(lists[Route(env.hash, |lists|, id)], PerCacheShard(env), id) then 1 else 0
    }

    lemma {:induction false} SumGrows(before: seq<nat>, after: seq<nat>, lists: seq<seq<Pair<u64, Item>>>, id: u64)
      requires ValidEnv(env) && |lists| == |before| == |after| == env.shardCount == |cache.shards|
      requires cache.hash == env.hash && cache.capacity == env.capacity
      requires forall j :: 0 <= j < |after| ==> after[j] == before[j] + cache.EvictionsOfPut(j, id, lists[j])
      ensures Sum(after) == Sum(before) + PutEvictions(lists, id)
    {
      hide PutEvicts;
      hide Sum;
      var i := Route(env.hash, |lists|, id);
      assert after == before[i := after[i]];
      SumUpdate(before, i, after[i]);
    }

    /** Does not touch the compliance store. */
    method OnDelete(id: u64) returns (body: ResponseBody)
      requires Valid()
      modifies this, cache.shards
      ensures Valid()
      ensures Value() == HandlerModel.OnDelete(env, old(Value()), id).0
      ensures body == HandlerModel.OnDelete(env, old(Value()), id).1
    {
      hide ShardApply;
      hide Lookup;
      hide Sum;
      hide Route;
      counters := counters.(deletes := counters.deletes + 1);
      var present := cache.Erase(id);
      return DeleteItemResult(if present then STATUS_OK else STATUS_NOT_FOUND);
    }

    method OnStats(now: i64) returns (body: ResponseBody)
      requires Valid()
      ensures body == StatsResult(STATUS_OK, PublishedStats(env, Value(), now))
    {
      var entries := cache.Size();
      var evictions := cache.Evictions();
      var tracked := Tracked(policy.shards);
      var exact := Stats(Word(counters.requests), Word(counters.gets), Word(counters.puts), Word(counters.deletes),
                         Word(counters.recommends), Word(counters.hits), Word(counters.misses), Word(evictions),
                         Word(entries), Word(env.capacity), Word(policy.allowed), Word(policy.exposureBlocked),
                         Word(policy.frequencyBlocked), Word(policy.storeFull), Word(tracked));
      var out := exact;
      out := out.(requests := env.publish(Requests, exact.requests, now));
      out := out.(gets := env.publish(Gets, exact.gets, now));
      out := out.(recommends := env.publish(Recommends, exact.recommends, now));
      out := out.(hits := env.publish(Hits, exact.hits, now));
      out := out.(misses := env.publish(Misses, exact.misses, now));
      out := out.(policyAllowed := env.publish(PolicyAllowed, exact.policyAllowed, now));
      out := out.(policyExposureBlocked := env.publish(PolicyExposureBlocked, exact.policyExposureBlocked, now));
      out := out.(policyFrequencyBlocked := env.publish(PolicyFrequencyBlocked, exact.policyFrequencyBlocked, now));
      return StatsResult(STATUS_OK, out);
    }

    lemma {:induction false} OffersSnoc(signal: R.Signal, now: i64, pairs: seq<Pair<u64, Item>>, p: Pair<u64, Item>)
      ensures var c := R.CandidateOf(ToRanking(env, p.value), signal, env.scoring, now);
              OffersOf(env, signal, now, pairs + [p])
              == if c.Some? then OffersOf(env, signal, now, pairs) + [c.value] else OffersOf(env, signal, now, pairs)
    {
      hide R.CandidateOf;
      assert (pairs + [p])[..|pairs|] == pairs;
    }

    /** Feeds one shard's snapshot to the selector. */
    method ConsiderAll(selector: CandidateSelector, batch: seq<Pair<u64, Item>>, ghost before: seq<Pair<u64, Item>>)
      requires selector.Valid() && selector.scoring == env.scoring && -TWO_TO_63 <= selector.now < TWO_TO_63
      requires selector.offered == OffersOf(env, selector.signal, selector.now, before)
      modifies selector
      ensures selector.Valid() && selector.offered == OffersOf(env, selector.signal, selector.now, before + batch)
    {
      hide OffersOf;
      hide R.CandidateOf;
      hide R.Relevance;
      hide R.IsEligible;
      hide CandidateSelector.Valid;
      assert before + batch[..0] == before;
      for k := 0 to |batch|
        invariant selector.Valid() && selector.offered == OffersOf(env, selector.signal, selector.now, before + batch[..k])
      {
        OffersSnoc(selector.signal, selector.now, before + batch[..k], batch[k]);
        assert before + batch[..k + 1] == before + batch[..k] + [batch[k]];
        selector.Consider(ToRanking(env, batch[k].value));
      }
      assert batch[..|batch|] == batch;
    }

    /** A selector that has been offered every item of every shard. */
    method Retrieve(signal: R.Signal, count: u32, now: i64) returns (selector: CandidateSelector)
      requires Valid()
      ensures fresh(selector) && selector.Valid()
      ensures selector.scoring == env.scoring && selector.count == count
      ensures selector.limit == R.ShortlistLimit(env.scoring, count)
      ensures selector.offered == OffersOf(env, signal, now, Scan(cache.Lists()))
    {
      hide OffersOf;
      hide Scan;
      hide R.IsTop;
      hide R.ShortlistLimit;
      hide CandidateHeap.HeapOrdered;
      selector := new CandidateSelector(env.scoring, signal, now, count);
      ghost var lists := cache.Lists();
      ScanSnoc(lists, 0);
      NoOffers(signal, now);
      for shard := 0 to |cache.shards|
        invariant selector.Valid() && fresh(selector)
        invariant selector.offered == OffersOf(env, signal, now, Scan(lists[..shard]))
        modifies selector
      {
        ScanSnoc(lists, shard);
        var batch := Snapshot(shard);
        ConsiderAll(selector, batch, Scan(lists[..shard]));
      }
      assert lists[..|cache.shards|] == lists;
    }

    lemma {:induction false} NoOffers(signal: R.Signal, now: i64)
      ensures OffersOf(env, signal, now, []) == []
    {
    }

    method Snapshot(shard: nat) returns (batch: seq<Pair<u64, Item>>)
      requires Valid() && shard < |cache.shards|
      ensures batch == cache.Lists()[shard]
    {
      assert cache.ShardOk(shard);
      batch := cache.shards[shard].Snapshot();
    }

    static lemma ScanSnoc(lists: seq<seq<Pair<u64, Item>>>, i: nat)
      ensures Scan(lists[..0]) == []
      ensures i < |lists| ==> Scan(lists[..i + 1]) == Scan(lists[..i]) + lists[i]
    {
      if i < |lists| {
        assert lists[..i + 1][..i] == lists[..i];
      }
    }

    static lemma {:induction false} SelectionKeepsShards(env: Env, dryRun: bool, now: i64, count: nat,
                                                         rem: seq<R.Candidate>, offers: seq<Offer>, st: Store)
      requires |st.shards| == env.shardCount
      ensures |Greedy(env.scoring, count, rem, offers, st, Hook(env, dryRun, now)).state.shards| == env.shardCount
      decreases |rem|
    {
      if |Chosen(offers)| < count && rem != [] {
        var i := Pick(env.scoring, Chosen(offers), rem);
        var answer := Hook(env, dryRun, now)(st, rem[i].id);
        hide Pick;
        hide Chosen;
        hide Adjusted;
        SelectionKeepsShards(env, dryRun, now, count, RemoveAt(rem, i),
                             offers + [Offer(rem[i], Adjusted(env.scoring, Chosen(offers), rem[i]), answer.0)], answer.1);
      }
    }

    /** A recommendation whose count has been checked. */
    method Select(signal: Messages.Signal, count: u32, dryRun: bool, now: i64)
      returns (chosen: seq<Rerank.Ranked>, ghost shortlist: seq<R.Candidate>)
      requires Valid()
      modifies this`policy
      ensures Valid() && cache.Lists() == old(cache.Lists()) && cache.Evicted() == old(cache.Evicted())
      ensures IsShortlist(env, cache.Lists(), ToSignal(env, signal), count, now, shortlist)
      ensures var slate := Greedy(env.scoring, count, shortlist, [], old(policy), Hook(env, dryRun, now));
              chosen == Chosen(slate.offers) && policy == slate.state
    {
      hide Greedy;
      hide OffersOf;
      hide Chosen;
      hide Scan;
      hide R.IsTop;
      hide CandidateHeap.HeapOrdered;
      hide Hook;
      var selector := Retrieve(ToSignal(env, signal), count, now);
      shortlist := selector.shortlist;
      SelectionKeepsShards(env, dryRun, now, count, shortlist, [], policy);
      var after;
      chosen, after := selector.Select(Hook(env, dryRun, now), policy);
      policy := after;
    }

    method OnRecommend(signal: Messages.Signal, count: u32, dryRun: bool, now: i64)
      returns (body: ResponseBody, chosen: seq<Rerank.Ranked>, ghost shortlist: seq<R.Candidate>)
      requires Valid()
      modifies this
      ensures Valid()
      ensures HandlerModel.OnRecommend(env, old(Value()), signal, count, dryRun, now, Value(), body, chosen, shortlist)
    {
      hide Greedy;
      hide Rendered;
      hide Chosen;
      hide IsShortlist;
      hide Invalid;
      hide ZeroCount;
      hide TooMany;
      hide Sum;
      counters := counters.(recommends := counters.recommends + 1);
      if count == 0 {
        return Invalid(ZeroCount()), [], [];
      }
      if count > MAX_RECOMMEND {
        return Invalid(TooMany(count)), [], [];
      }
      chosen, shortlist := Select(signal, count, dryRun, now);
      body := RecommendResult(STATUS_OK, Rendered(env, chosen));
    }

    /** One kind of request to its operation. */
    method Dispatch(request: RequestBody, now: i64)
      returns (body: ResponseBody, ghost chosen: seq<Rerank.Ranked>, ghost shortlist: seq<R.Candidate>)
      requires Valid()
      modifies this, cache.shards
      ensures Valid()
      ensures Serves(env, old(Value()), request, now, Value(), body, chosen, shortlist)
    {
      hide HandlerModel.OnGet;
      hide HandlerModel.OnPut;
      hide HandlerModel.OnDelete;
      hide HandlerModel.OnRecommend;
      hide PublishedStats;
      hide Sum;
      chosen, shortlist := [], [];
      match request {
        case GetItem(id) => body := OnGet(id);
        case PutItem(item) => body := OnPut(item);
        case DeleteItem(id) => body := OnDelete(id);
        case GetStats => body := OnStats(now);
        case Recommend(signal, count, dryRun) => body, chosen, shortlist := OnRecommend(signal, count, dryRun, now);
      }
    }

    method Handle(request: Request, now: i64)
      returns (response: Response, ghost chosen: seq<Rerank.Ranked>, ghost shortlist: seq<R.Candidate>)
      requires Valid()
      modifies this, cache.shards
      ensures Valid()
      ensures Handles(env, old(Value()), request, now, Value(), response, chosen, shortlist)
    {
      hide Serves;
      hide Sum;
      counters := counters.(requests := counters.requests + 1);
      var body;
      body, chosen, shortlist := Dispatch(request.body, now);
      response := Response(request.id, body);
    }
  }
}
