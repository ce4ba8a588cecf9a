/** What a recommendation returns, read in the fields of the messages alone: which
    published items may come back, with which scores, in which order, and what
    refusals look like. */
module HandlerSlates {
  import opened Words
  import opened Messages
  import opened Codec
  import opened Lru
  import opened Sharding
  import opened LruHistory
  import opened ShardedHistory
  import R = Ranking
  import opened Rerank
  import opened HandlerModel
  import opened HandlerTheorems
  import opened Delivery
  import opened HandlerHistory

  // -------------------------------------------------------------------------
  // Eligibility and relevance, in message fields
  // -------------------------------------------------------------------------

  /** Switched on, not expired, and in no category the user excluded. */
  ghost predicate Showable(env: Env, signal: Messages.Signal, now: i64, item: Item) {
    && env.value(item.score) > 0.0
    && (item.expiresAt == 0 || now < item.expiresAt)
    && forall k :: 0 <= k < |signal.excluded| ==> signal.excluded[k] != item.category
  }

  /** Entry `k` is the first that names the category. */
  ghost predicate FirstFor(signal: Messages.Signal, category: Text, k: int) {
    && 0 <= k < |signal.affinities| && signal.affinities[k].category == category
    && forall j :: 0 <= j < k ==> signal.affinities[j].category != category
  }

  /** The weight the user gives a category: the first entry's, or the default. */
  ghost predicate IsWeight(env: Env, signal: Messages.Signal, category: Text, w: real) {
    || (exists k :: FirstFor(signal, category, k) && w == env.value(signal.affinities[k].weight))
    || ((forall k :: 0 <= k < |signal.affinities| ==> signal.affinities[k].category != category)
        && w == env.scoring.defaultAffinity)
  }

  /** Decay by age; an item from the future counts as new, no half-life means no
      decay. */
  function Freshness(env: Env, now: i64, item: Item): real {
    if env.scoring.halfLife <= 0 then 1.0
    else env.scoring.decay(if item.createdAt > now then 0 else now - item.createdAt, env.scoring.halfLife)
  }

  ghost predicate IsRelevance(env: Env, signal: Messages.Signal, now: i64, item: Item, r: real) {
    exists w :: IsWeight(env, signal, item.category, w) && r == env.value(item.score) * w * Freshness(env, now, item)
  }

  lemma {:induction false} AffinityIsWeight(env: Env, s: seq<Messages.Affinity>, category: Text, excluded: seq<Text>)
    ensures IsWeight(env, Messages.Signal(s, excluded), category,
                     R.AffinityFor(ToAffinities(env, s), category, env.scoring.defaultAffinity))
  {
    var signal := Messages.Signal(s, excluded);
    if s != [] {
      var rest := Messages.Signal(s[1..], excluded);
      if s[0].category == category {
        assert FirstFor(signal, category, 0);
      } else {
        AffinityIsWeight(env, s[1..], category, excluded);
        if k :| FirstFor(rest, category, k)
                && R.AffinityFor(ToAffinities(env, s), category, env.scoring.defaultAffinity)
                   == env.value(rest.affinities[k].weight) {
          FirstLater(signal, rest, category, k);
        } else {
          assert forall k :: 0 <= k < |s| ==> s[k].category != category by {
            assert forall k :: 0 < k < |s| ==> s[k] == s[1..][k - 1];
          }
        }
      }
    }
  }

  lemma FirstLater(signal: Messages.Signal, rest: Messages.Signal, category: Text, k: int)
    requires signal.affinities != [] && rest.affinities == signal.affinities[1..]
    requires signal.affinities[0].category != category && FirstFor(rest, category, k)
    ensures FirstFor(signal, category, k + 1) && signal.affinities[k + 1] == rest.affinities[k]
  {
    assert forall j :: 0 < j < |signal.affinities| ==> signal.affinities[j] == rest.affinities[j - 1];
  }

  lemma FirstIsOne(signal: Messages.Signal, category: Text, j: int, k: int)
    requires FirstFor(signal, category, j) && FirstFor(signal, category, k)
    ensures j == k
  {
  }

  lemma WeightIsOne(env: Env, signal: Messages.Signal, category: Text, v: real, w: real)
    requires IsWeight(env, signal, category, v) && IsWeight(env, signal, category, w)
    ensures v == w
  {
    if j :| FirstFor(signal, category, j) && v == env.value(signal.affinities[j].weight) {
      if k :| FirstFor(signal, category, k) && w == env.value(signal.affinities[k].weight) {
        FirstIsOne(signal, category, j, k);
      }
    }
  }

  lemma RelevanceIsOne(env: Env, signal: Messages.Signal, now: i64, item: Item, r: real, r': real)
    requires IsRelevance(env, signal, now, item, r) && IsRelevance(env, signal, now, item, r')
    ensures r == r'
  {
    hide IsWeight;
    var v :| IsWeight(env, signal, item.category, v) && r == env.value(item.score) * v * Freshness(env, now, item);
    var w :| IsWeight(env, signal, item.category, w) && r' == env.value(item.score) * w * Freshness(env, now, item);
    WeightIsOne(env, signal, item.category, v, w);
  }

  /** What the ranker computes is what the fields say. */
  lemma RankerReadsFields(env: Env, signal: Messages.Signal, now: i64, item: Item)
    ensures R.IsEligible(ToRanking(env, item), ToSignal(env, signal), now) <==> Showable(env, signal, now, item)
    ensures IsRelevance(env, signal, now, item,
                        R.Relevance(ToRanking(env, item), ToSignal(env, signal), env.scoring, now))
  {
    hide IsWeight;
    AffinityIsWeight(env, signal.affinities, item.category, signal.excluded);
    assert signal == Messages.Signal(signal.affinities, signal.excluded);
  }

  // -------------------------------------------------------------------------
  // A reply, entry by entry
  // -------------------------------------------------------------------------

  /** How many of the entries share a text. */
  function SameCategory(items: seq<Messages.Ranked>, category: Text): nat {
    if items == [] then 0
    else SameCategory(items[..|items| - 1], category) + if items[|items| - 1].category == category then 1 else 0
  }

  function SameAdvertiser(items: seq<Messages.Ranked>, advertiser: Text): nat {
    if items == [] then 0
    else SameAdvertiser(items[..|items| - 1], advertiser) + if items[|items| - 1].advertiser == advertiser then 1 else 0
  }

  /** The item's relevance, discounted once for every entry before it of the same
      category and of the same advertiser. */
  ghost predicate IsScore(env: Env, signal: Messages.Signal, now: i64, item: Item, before: seq<Messages.Ranked>,
                          s: real) {
    exists r ::
      && IsRelevance(env, signal, now, item, r) && r > env.scoring.minScore
      && s == r * Pow(env.scoring.categoryFactor, SameCategory(before, item.category))
              * Pow(env.scoring.advertiserFactor, SameAdvertiser(before, item.advertiser))
  }

  /** Entry `i` shows this item. */
  ghost predicate EntryShows(env: Env, signal: Messages.Signal, now: i64, item: Item, items: seq<Messages.Ranked>,
                             i: nat)
    requires i < |items|
  {
    && items[i].id == item.id && items[i].category == item.category && items[i].advertiser == item.advertiser
    && Showable(env, signal, now, item)
    && exists s :: IsScore(env, signal, now, item, items[..i], s) && items[i].score == env.bits(s)
  }

  /** An entry of the reply is an entry of the slate, with the score's bits. */
  predicate Carries(env: Env, x: Rerank.Ranked, y: Messages.Ranked) {
    y.id == x.id && y.category == x.category && y.advertiser == x.advertiser && y.score == env.bits(x.score)
  }

  ghost predicate CarriesAll(env: Env, chosen: seq<Rerank.Ranked>, items: seq<Messages.Ranked>) {
    |items| == |chosen| && forall i :: 0 <= i < |chosen| ==> Carries(env, chosen[i], items[i])
  }

  lemma {:induction false} RenderedCarries(env: Env, chosen: seq<Rerank.Ranked>)
    ensures CarriesAll(env, chosen, Rendered(env, chosen))
  {
    if chosen != [] {
      var n := |chosen| - 1;
      RenderedCarries(env, chosen[..n]);
      assert forall i :: 0 <= i < n ==>
          chosen[..n][i] == chosen[i] && Rendered(env, chosen[..n])[i] == Rendered(env, chosen)[i];
    }
  }

  lemma {:induction false} SameCounts(env: Env, chosen: seq<Rerank.Ranked>, items: seq<Messages.Ranked>, t: Text)
    requires CarriesAll(env, chosen, items)
    ensures SameCategory(items, t) == CategoryCount(chosen, t) && SameAdvertiser(items, t) == AdvertiserCount(chosen, t)
  {
    if chosen != [] {
      var n := |chosen| - 1;
      assert forall i :: 0 <= i < n ==> chosen[..n][i] == chosen[i] && items[..n][i] == items[i];
      SameCounts(env, chosen[..n], items[..n], t);
      assert Carries(env, chosen[n], items[n]);
    }
  }

  /** `c` was taken as entry `i`, at its discounted score. */
  ghost predicate TakenAs(scoring: R.Scoring, all: multiset<R.Candidate>, chosen: seq<Rerank.Ranked>, i: nat,
                          c: R.Candidate)
    requires i < |chosen|
  {
    && c in all && chosen[i].id == c.id && chosen[i].category == c.category && chosen[i].advertiser == c.advertiser
    && chosen[i].score == Adjusted(scoring, chosen[..i], c)
  }

  lemma {:induction false} ChosenWasTaken(scoring: R.Scoring, all: multiset<R.Candidate>, offers: seq<Offer>, i: nat)
    returns (c: R.Candidate)
    requires IsGreedy(scoring, all, offers) && i < |Chosen(offers)|
    ensures TakenAs(scoring, all, Chosen(offers), i, c)
  {
    hide Adjusted;
    hide Better;
    var n := |offers| - 1;
    var before := Chosen(offers[..n]);
    if i < |before| {
      c := ChosenWasTaken(scoring, all, offers[..n], i);
      assert Chosen(offers)[..i] == before[..i];
    } else {
      c := offers[n].candidate;
      assert Chosen(offers)[..i] == before;
    }
  }

  lemma CandidateMakesEntry(env: Env, signal: Messages.Signal, now: i64, item: Item, chosen: seq<Rerank.Ranked>,
                            items: seq<Messages.Ranked>, i: nat, c: R.Candidate, all: multiset<R.Candidate>)
    requires CarriesAll(env, chosen, items) && i < |chosen| && TakenAs(env.scoring, all, chosen, i, c)
    requires Makes(env, ToSignal(env, signal), now, item, c)
    ensures EntryShows(env, signal, now, item, items, i)
  {
    hide IsRelevance;
    hide R.Relevance;
    hide R.IsEligible;
    hide Showable;
    hide Makes;
    MadeOf(env, ToSignal(env, signal), now, item, c);
    RankerReadsFields(env, signal, now, item);
    assert Carries(env, chosen[i], items[i]);
    assert CarriesAll(env, chosen[..i], items[..i]) by {
      assert forall j :: 0 <= j < i ==> chosen[..i][j] == chosen[j] && items[..i][j] == items[j];
    }
    SameCounts(env, chosen[..i], items[..i], item.category);
    SameCounts(env, chosen[..i], items[..i], item.advertiser);
    assert IsScore(env, signal, now, item, items[..i], chosen[i].score);
  }

  /** The stored item behind entry `i`. */
  ghost predicate StoredEntry(env: Env, signal: Messages.Signal, now: i64, pairs: seq<Pair<u64, Item>>, k: nat,
                              items: seq<Messages.Ranked>, i: nat)
    requires i < |items|
  {
    k < |pairs| && pairs[k].key == items[i].id && EntryShows(env, signal, now, pairs[k].value, items, i)
  }

  lemma SlateEntry(env: Env, h: State, signal: Messages.Signal, count: nat, now: i64, shortlist: seq<R.Candidate>,
                   offers: seq<Offer>, items: seq<Messages.Ranked>, i: nat) returns (k: nat)
    requires Inv(env, h) && IsShortlist(env, h.lists, ToSignal(env, signal), count, now, shortlist)
    requires IsGreedy(env.scoring, multiset(shortlist), offers) && CarriesAll(env, Chosen(offers), items) && i < |items|
    ensures StoredEntry(env, signal, now, Scan(h.lists), k, items, i)
  {
    hide Inv;
    hide OffersOf;
    hide Scan;
    hide Chosen;
    hide IsGreedy;
    hide Makes;
    hide EntryShows;
    hide ToSignal;
    OffersAreFromCache(env, h, ToSignal(env, signal), now);
    var made, pairs := OffersOf(env, ToSignal(env, signal), now, Scan(h.lists)), Scan(h.lists);
    var c := ChosenWasTaken(env.scoring, multiset(shortlist), offers, i);
    assert c in multiset(made);
    var j :| 0 <= j < |made| && made[j] == c;
    assert FromItem(env, ToSignal(env, signal), now, made[j], pairs);
    k :| 0 <= k < |pairs| && Makes(env, ToSignal(env, signal), now, pairs[k].value, c);
    CandidateMakesEntry(env, signal, now, pairs[k].value, Chosen(offers), items, i, c, multiset(shortlist));
    EntryHasId(env, signal, now, pairs[k].value, items, i);
    assert Storable(pairs[k]);
  }

  lemma EntryHasId(env: Env, signal: Messages.Signal, now: i64, item: Item, items: seq<Messages.Ranked>, i: nat)
    requires i < |items| && EntryShows(env, signal, now, item, items, i)
    ensures items[i].id == item.id
  {
  }

  /** What a scan finds under a key is what was last published under it. */
  lemma {:induction false} StoredIsLastPublished(env: Env, h: State, ops: seq<Lru.Op<u64, Item>>, k: nat)
    requires Inv(env, h) && ValidEnv(env) && CacheTells(env, h, ops) && k < |Scan(h.lists)|
    ensures LastPut(ops, Scan(h.lists)[k].key) == Some(Scan(h.lists)[k].value)
  {
    hide RunAll;
    hide TotalMetrics;
    hide AllStorable;
    hide PolicyRuns.StoreInv;
    PerShardIsPositive(env);
    ScanIsDistinct(env.hash, env.capacity, h.lists);
    var pairs := Scan(h.lists);
    LookupAt(pairs, k);
    ScanFindsEach(env.hash, PerCacheShard(env), h.lists, pairs[k].key);
    HitsAreLastPuts(env.hash, env.shardCount, PerCacheShard(env), ops, pairs[k].key);
  }

  ghost predicate LastPublishedEntry(env: Env, signal: Messages.Signal, now: i64, ops: seq<Lru.Op<u64, Item>>,
                                     items: seq<Messages.Ranked>, i: nat)
    requires i < |items|
  {
    var last := LastPut(ops, items[i].id);
    last.Some? && EntryShows(env, signal, now, last.value, items, i)
  }

  /** The reply to a recommendation in range. */
  ghost predicate ReplyShows(env: Env, signal: Messages.Signal, count: u32, now: i64, ops: seq<Lru.Op<u64, Item>>,
                             chosen: seq<Rerank.Ranked>, body: ResponseBody) {
    && body.RecommendResult? && body.status == 0 && |body.items| <= count && CarriesAll(env, chosen, body.items)
    && forall i :: 0 <= i < |body.items| ==> LastPublishedEntry(env, signal, now, ops, body.items, i)
  }

  lemma RecommendReplies(env: Env, h: State, signal: Messages.Signal, count: u32, dryRun: bool, now: i64, h': State,
                         body: ResponseBody, chosen: seq<Rerank.Ranked>, shortlist: seq<R.Candidate>,
                         ops: seq<Lru.Op<u64, Item>>)
    requires Inv(env, h) && ValidEnv(env) && CacheTells(env, h, ops) && 0 < count <= MAX_RECOMMEND
    requires OnRecommend(env, h, signal, count, dryRun, now, h', body, chosen, shortlist)
    ensures ReplyShows(env, signal, count, now, ops, chosen, body)
  {
    hide Inv;
    hide IsShortlist;
    hide Greedy;
    hide Chosen;
    hide Rendered;
    hide IsGreedy;
    hide CarriesAll;
    hide CacheTells;
    hide EntryShows;
    hide Scan;
    hide Hook;
    var slate := Greedy(env.scoring, count, shortlist, [], h.policy, Hook(env, dryRun, now));
    NoneOffered(env.scoring, shortlist);
    GreedyIsGreedy(env.scoring, count, multiset(shortlist), shortlist, [], h.policy, Hook(env, dryRun, now));
    RenderedCarries(env, chosen);
    var items := body.items;
    forall i | 0 <= i < |items| ensures LastPublishedEntry(env, signal, now, ops, items, i) {
      var k := SlateEntry(env, h, signal, count, now, shortlist, slate.offers, items, i);
      StoredIsLastPublished(env, h, ops, k);
    }
  }

  lemma CountedSame(env: Env, h: State, ops: seq<Lru.Op<u64, Item>>)
    requires Inv(env, h) && ValidEnv(env) && CacheTells(env, h, ops)
    ensures Inv(env, Counted(h)) && CacheTells(env, Counted(h), ops)
  {
    hide RunAll;
    hide TotalMetrics;
    PolicyChangeKeeps(env, h, Counted(h));
  }

  /** Over any run: a recommendation in range is answered Ok, with no more entries
      than asked for, and every entry shows the item last published under its id:
      switched on, not expired, not excluded, above the floor, and with exactly the
      score that the fields of item and signal and the entries before it give. */
  lemma {:induction false} RepliesShowLastPublished(env: Env, events: seq<Event>)
    requires ValidEnv(env) && IsRun(env, events) && events != []
    requires var b := Asked(events[|events| - 1]).body; b.Recommend? && 0 < b.count <= MAX_RECOMMEND
    ensures AllDecode(events[..|events| - 1])
    ensures var e := events[|events| - 1];
            var b := Asked(e).body;
            ReplyShows(env, b.signal, b.count, e.now, CacheOps(events[..|events| - 1]), e.chosen, e.response.body)
  {
    hide DecodeRequest;
    hide ReplyShows;
    var before, e := events[..|events| - 1], events[|events| - 1];
    RunKeepsGoodOrder(env, before);
    CacheIsHistory(env, before);
    var h, b := StateAfter(env, before), Asked(e).body;
    hide Inv;
    hide CacheTells;
    hide OnRecommend;
    CountedSame(env, h, CacheOps(before));
    RecommendReplies(env, Counted(h), b.signal, b.count, b.dryRun, e.now, e.after, e.response.body, e.chosen,
                     e.shortlist, CacheOps(before));
  }

  /** Without repeat discounts an entry's score is its item's relevance alone. */
  lemma {:induction false} PlainScore(env: Env, signal: Messages.Signal, now: i64, item: Item,
                                      before: seq<Messages.Ranked>, s: real)
    requires env.scoring.categoryFactor == 1.0 && env.scoring.advertiserFactor == 1.0
    ensures IsScore(env, signal, now, item, before, s) <==>
            IsRelevance(env, signal, now, item, s) && s > env.scoring.minScore
  {
    hide IsRelevance;
    PowOfOne(SameCategory(before, item.category));
    PowOfOne(SameAdvertiser(before, item.advertiser));
  }
}
