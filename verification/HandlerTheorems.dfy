/** What holds of the handler over whole runs: every reply can be delivered and
    decoded, lifetime caps survive deletes and republishes, and a preview agrees
    with the live slate exactly when the store has room. */
module HandlerTheorems {
  import opened Words
  import opened Routing
  import opened Messages
  import opened Lru
  import opened Sharding
  import opened PolicyRuns
  import opened Preview
  import R = Ranking
  import opened Rerank
  import opened HandlerModel

  // -------------------------------------------------------------------------
  // What the cache holds
  // -------------------------------------------------------------------------

  /** An item stored under its own id, within the limits of the wire format. */
  predicate Storable(p: Pair<u64, Item>) {
    p.key == p.value.id && ItemWithinLimits(p.value)
  }

  ghost predicate AllStorable(list: seq<Pair<u64, Item>>) {
    forall i :: 0 <= i < |list| ==> Storable(list[i])
  }

  lemma {:induction false} DropStorable(list: seq<Pair<u64, Item>>, k: u64)
    requires AllStorable(list)
    ensures AllStorable(Drop(list, k))
  {
    if list != [] { DropStorable(list[1..], k); }
  }

  lemma {:induction false} LookupStorable(list: seq<Pair<u64, Item>>, k: u64)
    requires AllStorable(list)
    ensures Lookup(list, k).Some? ==> Storable(Pair(k, Lookup(list, k).value))
  {
    if list != [] && list[0].key != k { LookupStorable(list[1..], k); }
  }

  lemma ApplyStorable(list: seq<Pair<u64, Item>>, capacity: nat, op: Lru.Op<u64, Item>)
    requires AllStorable(list) && (op.Put? ==> Storable(Pair(op.key, op.value)))
    ensures AllStorable(Lru.Apply(list, capacity, op))
  {
    if !op.Clear? {
      DropStorable(list, op.key);
      LookupStorable(list, op.key);
    }
  }

  lemma {:induction false} ScanStorable(lists: seq<seq<Pair<u64, Item>>>)
    requires forall i :: 0 <= i < |lists| ==> AllStorable(lists[i])
    ensures AllStorable(Scan(lists))
  {
    if lists != [] { ScanStorable(lists[..|lists| - 1]); }
  }

  ghost predicate Inv(env: Env, h: State) {
    && WellFormed(env, h)
    && WellSharded(env.hash, PerCacheShard(env), h.lists)
    && (forall i :: 0 <= i < |h.lists| ==> AllStorable(h.lists[i]))
    && StoreInv(LayoutOf(env), h.policy)
  }

  lemma CacheOpKeepsInv(env: Env, h: State, h': State, op: Lru.Op<u64, Item>)
    requires Inv(env, h) && !op.Clear? && (op.Put? ==> Storable(Pair(op.key, op.value)))
    requires h'.lists == ShardApply(env.hash, PerCacheShard(env), h.lists, op) && h'.policy == h.policy
    ensures Inv(env, h')
  {
    PerShardIsPositive(env);
    ShardApplyKeeps(env.hash, PerCacheShard(env), h.lists, op);
    ApplyStorable(h.lists[Route(env.hash, |h.lists|, op.key)], PerCacheShard(env), op);
    hide Lru.Apply;
    hide WellSharded;
    hide StoreInv;
    hide Route;
    hide AllStorable;
  }

  lemma PerShardIsPositive(env: Env)
    requires ValidEnv(env)
    ensures 0 < PerCacheShard(env)
    ensures PerCacheShard(env) * env.shardCount <= env.capacity < (PerCacheShard(env) + 1) * env.shardCount
  {
    PerShardPositive(Layout(env.policy.(maxTracked := env.capacity), env.shardCount, env.hash));
  }

  lemma InitialInv(env: Env)
    requires ValidEnv(env)
    ensures Inv(env, Initial(env))
  {
    RunKeepsInv(LayoutOf(env), []);
  }

  // -------------------------------------------------------------------------
  // The shortlist has distinct ids
  // -------------------------------------------------------------------------

  /** A candidate that a stored item makes for this signal at this instant. */
  ghost predicate Makes(env: Env, signal: R.Signal, now: i64, item: Item, c: R.Candidate) {
    R.CandidateOf(ToRanking(env, item), signal, env.scoring, now) == Some(c)
  }

  ghost predicate FromItem(env: Env, signal: R.Signal, now: i64, c: R.Candidate, pairs: seq<Pair<u64, Item>>) {
    exists i :: 0 <= i < |pairs| && Makes(env, signal, now, pairs[i].value, c)
  }

  lemma {:induction false} OffersAreDistinct(env: Env, signal: R.Signal, now: i64, pairs: seq<Pair<u64, Item>>)
    requires Distinct(pairs) && AllStorable(pairs)
    ensures var offers := OffersOf(env, signal, now, pairs);
            DistinctIds(offers) && forall j :: 0 <= j < |offers| ==> FromItem(env, signal, now, offers[j], pairs)
  {
    hide Makes;
    if pairs != [] {
      var n := |pairs| - 1;
      var before := pairs[..n];
      OffersAreDistinct(env, signal, now, before);
      var offers := OffersOf(env, signal, now, pairs);
      var earlier := OffersOf(env, signal, now, before);
      forall j | 0 <= j < |earlier|
        ensures FromItem(env, signal, now, earlier[j], pairs) && earlier[j].id != pairs[n].value.id
      {
        var i :| 0 <= i < |before| && Makes(env, signal, now, before[i].value, earlier[j]);
        assert pairs[i] == before[i] && Storable(pairs[i]) && Storable(pairs[n]);
        MadeOf(env, signal, now, pairs[i].value, earlier[j]);
      }
      var c := R.CandidateOf(ToRanking(env, pairs[n].value), signal, env.scoring, now);
      if c.Some? {
        IsMade(env, signal, now, pairs[n].value, c.value);
        MadeOf(env, signal, now, pairs[n].value, c.value);
      }
    }
  }

  lemma IsMade(env: Env, signal: R.Signal, now: i64, item: Item, c: R.Candidate)
    requires R.CandidateOf(ToRanking(env, item), signal, env.scoring, now) == Some(c)
    ensures Makes(env, signal, now, item, c)
  {
  }

  /** A candidate carries its item's id and texts; the item is eligible and scores
      above the floor. */
  lemma MadeOf(env: Env, signal: R.Signal, now: i64, item: Item, c: R.Candidate)
    requires Makes(env, signal, now, item, c)
    ensures c.id == item.id && c.category == item.category && c.advertiser == item.advertiser
    ensures R.IsEligible(ToRanking(env, item), signal, now)
    ensures c.relevance == R.Relevance(ToRanking(env, item), signal, env.scoring, now) > env.scoring.minScore
  {
    hide R.Relevance;
  }

  /** What a shortlist chosen from distinct candidates inherits from them. */
  lemma SubShortlist(shortlist: seq<R.Candidate>, offers: seq<R.Candidate>)
    requires DistinctIds(offers) && multiset(shortlist) <= multiset(offers)
    ensures DistinctIds(shortlist)
  {
    forall i, j | 0 <= i < j < |shortlist|
      ensures shortlist[i].id != shortlist[j].id
    {
      var x, y := shortlist[i], shortlist[j];
      assert x in multiset(offers) && y in multiset(offers);
      if x == y {
        TwiceInMultiset(shortlist, i, j);
        OnceInMultiset(offers, x);
        assert false;
      }
    }
  }

  lemma TwiceInMultiset<T>(s: seq<T>, i: nat, j: nat)
    requires i < j < |s| && s[i] == s[j]
    ensures multiset(s)[s[i]] >= 2
  {
    assert s == s[..i] + [s[i]] + s[i + 1..j] + [s[j]] + s[j + 1..];
  }

  lemma {:induction false} OnceInMultiset(offers: seq<R.Candidate>, x: R.Candidate)
    requires DistinctIds(offers)
    ensures multiset(offers)[x] <= 1
  {
    if offers != [] {
      var n := |offers| - 1;
      OnceInMultiset(offers[..n], x);
      assert offers == offers[..n] + [offers[n]];
      if offers[n] == x {
        NotInMultiset(offers[..n], x);
      }
    }
  }

  lemma NotInMultiset(s: seq<R.Candidate>, x: R.Candidate)
    requires forall i :: 0 <= i < |s| ==> s[i].id != x.id
    ensures x !in multiset(s)
  {
  }

  lemma ShortlistIsDistinct(env: Env, h: State, signal: R.Signal, count: nat, now: i64, shortlist: seq<R.Candidate>)
    requires Inv(env, h) && IsShortlist(env, h.lists, signal, count, now, shortlist)
    ensures DistinctIds(shortlist)
  {
    OffersAreFromCache(env, h, signal, now);
    SubShortlist(shortlist, OffersOf(env, signal, now, Scan(h.lists)));
  }

  lemma {:induction false} OffersAreFromCache(env: Env, h: State, signal: R.Signal, now: i64)
    requires Inv(env, h)
    ensures var offers := OffersOf(env, signal, now, Scan(h.lists));
            && DistinctIds(offers) && AllStorable(Scan(h.lists))
            && forall j :: 0 <= j < |offers| ==> FromItem(env, signal, now, offers[j], Scan(h.lists))
  {
    ScanIsDistinct(env.hash, env.capacity, h.lists);
    ScanStorable(h.lists);
    OffersAreDistinct(env, signal, now, Scan(h.lists));
  }

  // -------------------------------------------------------------------------
  // What a slate is made of
  // -------------------------------------------------------------------------

  /** A returned item as its candidate was. */
  ghost predicate Shows(c: R.Candidate, r: Rerank.Ranked) {
    r.id == c.id && r.category == c.category && r.advertiser == c.advertiser
  }

  ghost predicate WasOffered(offered: multiset<R.Candidate>, r: Rerank.Ranked) {
    exists c :: c in offered && Shows(c, r)
  }

  ghost predicate AllFrom(chosen: seq<Rerank.Ranked>, offered: multiset<R.Candidate>) {
    forall i :: 0 <= i < |chosen| ==> WasOffered(offered, chosen[i])
  }

  lemma {:induction false} ChosenWasOffered(offers: seq<Offer>)
    ensures AllFrom(Chosen(offers), Offered(offers))
  {
    if offers != [] {
      var n := |offers| - 1;
      var before, c := offers[..n], offers[n].candidate;
      ChosenWasOffered(before);
      assert c in Offered(offers);
      forall i | 0 <= i < |Chosen(offers)|
        ensures WasOffered(Offered(offers), Chosen(offers)[i])
      {
        if i < |Chosen(before)| {
          assert WasOffered(Offered(before), Chosen(before)[i]);
          var d :| d in Offered(before) && Shows(d, Chosen(before)[i]);
          assert d in Offered(offers);
        } else {
          assert Shows(c, Chosen(offers)[i]);
        }
      }
    }
  }

  /** A stored item that may be shown for this signal now, returned under its own
      id and texts. */
  ghost predicate Presentable(env: Env, signal: R.Signal, now: i64, p: Pair<u64, Item>, r: Rerank.Ranked) {
    && r.id == p.key == p.value.id && r.category == p.value.category && r.advertiser == p.value.advertiser
    && ItemWithinLimits(p.value) && R.IsEligible(ToRanking(env, p.value), signal, now)
    && R.Relevance(ToRanking(env, p.value), signal, env.scoring, now) > env.scoring.minScore
  }

  ghost predicate InCache(env: Env, signal: R.Signal, now: i64, pairs: seq<Pair<u64, Item>>, r: Rerank.Ranked) {
    exists k :: 0 <= k < |pairs| && Presentable(env, signal, now, pairs[k], r)
  }

  /** Whatever the hook does, a slate has at most `count` entries, and each is an
      eligible item of the cache: stored, positively scored, not expired, not in an
      excluded category, and above the score floor. */
  lemma {:induction false} SlateIsPresentable<S>(env: Env, h: State, signal: R.Signal, count: nat, now: i64,
                                                 shortlist: seq<R.Candidate>, state: S, accept: (S, u64) -> (bool, S))
    requires Inv(env, h) && IsShortlist(env, h.lists, signal, count, now, shortlist)
    ensures var chosen := Chosen(Greedy(env.scoring, count, shortlist, [], state, accept).offers);
            && |chosen| <= count
            && forall i :: 0 <= i < |chosen| ==> InCache(env, signal, now, Scan(h.lists), chosen[i])
  {
    hide Inv;
    hide OffersOf;
    hide Scan;
    hide Greedy;
    hide InCache;
    hide WasOffered;
    hide FromItem;
    hide Chosen;
    hide Offered;
    hide IsGreedy;
    hide AllStorable;
    hide DistinctIds;
    OffersAreFromCache(env, h, signal, now);
    var offers, pairs := OffersOf(env, signal, now, Scan(h.lists)), Scan(h.lists);
    NoneOffered(env.scoring, shortlist);
    GreedyIsGreedy(env.scoring, count, multiset(shortlist), shortlist, [], state, accept);
    var log := Greedy(env.scoring, count, shortlist, [], state, accept).offers;
    ChosenWasOffered(log);
    forall i | 0 <= i < |Chosen(log)|
      ensures InCache(env, signal, now, pairs, Chosen(log)[i])
    {
      OneIsPresentable(env, signal, now, pairs, offers, Offered(log), Chosen(log)[i]);
    }
  }

  lemma {:induction false} NoneOffered(scoring: R.Scoring, shortlist: seq<R.Candidate>)
    ensures Offered([]) + multiset(shortlist) == multiset(shortlist) && Chosen([]) == []
    ensures IsGreedy(scoring, multiset(shortlist), [])
  {
  }

  lemma OneIsPresentable(env: Env, signal: R.Signal, now: i64, pairs: seq<Pair<u64, Item>>, offers: seq<R.Candidate>,
                         offered: multiset<R.Candidate>, r: Rerank.Ranked)
    requires AllStorable(pairs) && offered <= multiset(offers) && WasOffered(offered, r)
    requires forall j :: 0 <= j < |offers| ==> FromItem(env, signal, now, offers[j], pairs)
    ensures InCache(env, signal, now, pairs, r)
  {
    hide Makes;
    hide Presentable;
    var c :| c in offered && Shows(c, r);
    assert c in multiset(offers);
    var j :| 0 <= j < |offers| && offers[j] == c;
    var k :| 0 <= k < |pairs| && Makes(env, signal, now, pairs[k].value, c);
    ShownIsPresentable(env, signal, now, pairs[k], c, r);
  }

  lemma ShownIsPresentable(env: Env, signal: R.Signal, now: i64, p: Pair<u64, Item>, c: R.Candidate, r: Rerank.Ranked)
    requires Makes(env, signal, now, p.value, c) && Shows(c, r) && Storable(p)
    ensures Presentable(env, signal, now, p, r)
  {
    MadeOf(env, signal, now, p.value, c);
    hide R.Relevance;
  }

  ghost predicate ShortRanked(chosen: seq<Rerank.Ranked>) {
    forall i :: 0 <= i < |chosen| ==> |chosen[i].category| <= MAX_CATEGORY && |chosen[i].advertiser| <= MAX_ADVERTISER
  }

  lemma {:induction false} SlateIsShort<S>(env: Env, h: State, signal: R.Signal, count: nat, now: i64,
                                           shortlist: seq<R.Candidate>, state: S, accept: (S, u64) -> (bool, S))
    requires Inv(env, h) && IsShortlist(env, h.lists, signal, count, now, shortlist)
    ensures var chosen := Chosen(Greedy(env.scoring, count, shortlist, [], state, accept).offers);
            |chosen| <= count && ShortRanked(chosen)
  {
    hide Inv;
    hide IsShortlist;
    hide Greedy;
    hide R.IsEligible;
    hide R.Relevance;
    SlateIsPresentable(env, h, signal, count, now, shortlist, state, accept);
    var chosen := Chosen(Greedy(env.scoring, count, shortlist, [], state, accept).offers);
    forall i | 0 <= i < |chosen|
      ensures |chosen[i].category| <= MAX_CATEGORY && |chosen[i].advertiser| <= MAX_ADVERTISER
    {
      assert InCache(env, signal, now, Scan(h.lists), chosen[i]);
    }
  }
}
