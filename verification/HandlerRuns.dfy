/** Compliance across the whole handler: what a run has shown of an item, and
    previews. */
module HandlerRuns {
  import opened Words
  import opened Routing
  import opened Messages
  import opened Codec
  import opened Policy
  import opened PolicyRuns
  import opened Preview
  import R = Ranking
  import opened Rerank
  import RankTheorems
  import opened HandlerModel
  import opened HandlerTheorems
  import opened Delivery
  import opened Sharding
  import Lru

  /** How often an item was returned by recording recommendations. */
  function Returned(events: seq<Event>, id: ItemId): nat {
    if events == [] then 0
    else Returned(events[..|events| - 1], id) + ReturnedBy(events[|events| - 1], id)
  }

  function ReturnedBy(e: Event, id: ItemId): nat {
    if IsRecording(e) then Times(e.chosen, id) else 0
  }

  predicate IsRecording(e: Event) {
    var d := DecodeRequest(e.frame);
    d.Ok? && d.value.body.Recommend? && !d.value.body.dryRun
  }

  lemma ClosedPolicy(env: Env, h: State)
    requires Inv(env, h) && !env.policy.failOpen
    ensures Closed(LayoutOf(env), h.policy)
  {
  }

  lemma {:induction false} RecommendCharges(env: Env, h: State, signal: Messages.Signal, count: u32, dryRun: bool,
                                            now: i64, h': State, body: ResponseBody, chosen: seq<Rerank.Ranked>,
                                            shortlist: seq<R.Candidate>, id: ItemId)
    requires Inv(env, h) && !env.policy.failOpen
    requires OnRecommend(env, h, signal, count, dryRun, now, h', body, chosen, shortlist)
    ensures |h'.policy.shards| == env.shardCount
    ensures ShowsOf(LayoutOf(env), h'.policy, id)
         == ShowsOf(LayoutOf(env), h.policy, id) + if dryRun then 0 else Times(chosen, id)
  {
    ClosedPolicy(env, h);
    InvHasStore(env, h);
    if 0 < count <= MAX_RECOMMEND {
      ShortlistIsDistinct(env, h, ToSignal(env, signal), count, now, shortlist);
      hide Inv;
      hide IsShortlist;
      hide Greedy;
      hide Rendered;
      hide Closed;
      if dryRun {
        DryRunRecordsNothing(LayoutOf(env), ToUnsigned(now), env.scoring, count, shortlist, [], h.policy);
      } else {
        LiveChargesWhatItReturns(LayoutOf(env), h.policy, ToUnsigned(now), env.scoring, count, shortlist);
        SelectionKeepsStore(env, dryRun, now, count, shortlist, [], h.policy);
      }
    }
  }

  /** Only recording recommendations touch the compliance store. */
  lemma OthersChargeNothing(env: Env, h: State, r: Request, now: i64, h': State, response: Response,
                            chosen: seq<Rerank.Ranked>, shortlist: seq<R.Candidate>)
    requires WellFormed(env, h) && !r.body.Recommend? && Handles(env, h, r, now, h', response, chosen, shortlist)
    ensures h'.policy == h.policy
  {
    hide Invalid;
    hide ShardApply;
  }

  lemma EventCharges(env: Env, h: State, e: Event, id: ItemId)
    requires Inv(env, h) && !env.policy.failOpen && Follows(env, h, e) && |e.after.policy.shards| == env.shardCount
    ensures ShowsOf(LayoutOf(env), e.after.policy, id)
         == ShowsOf(LayoutOf(env), h.policy, id) + ReturnedBy(e, id)
  {
    hide DecodeRequest;
    hide Inv;
    hide OnRecommend;
    hide OnGet;
    hide OnPut;
    hide OnDelete;
    hide PublishedStats;
    var r := Asked(e);
    InvHasStore(env, h);
    if r.body.Recommend? {
      PolicyChangeKeeps(env, h, Counted(h));
      RecommendCharges(env, Counted(h), r.body.signal, r.body.count, r.body.dryRun, e.now, e.after, e.response.body,
                       e.chosen, e.shortlist, id);
    } else {
      OthersChargeNothing(env, h, r, e.now, e.after, e.response, e.chosen, e.shortlist);
    }
  }

  /** Fail-closed, over any run of accepted requests - items published, deleted and
      published again included - the store's count of an item's shows is exactly
      how often recording requests have returned it, and never above the cap. */
  lemma {:induction false} LifetimeCapHolds(env: Env, events: seq<Event>, id: ItemId)
    requires ValidEnv(env) && !env.policy.failOpen && IsRun(env, events)
    ensures var st := StateAfter(env, events).policy;
            && |st.shards| == env.shardCount
            && ShowsOf(LayoutOf(env), st, id) == Returned(events, id)
            && (env.policy.exposureCap > 0 ==> Returned(events, id) <= env.policy.exposureCap)
  {
    RunKeepsGoodOrder(env, events);
    var st := StateAfter(env, events).policy;
    InvHasStore(env, StateAfter(env, events));
    CapInStore(env, st, id);
    if events == [] {
      NothingShownYet(env, id);
    } else {
      var before, e := events[..|events| - 1], events[|events| - 1];
      LifetimeCapHolds(env, before, id);
      RunKeepsGoodOrder(env, before);
      hide Inv;
      hide DecodeRequest;
      hide Follows;
      hide StoreInv;
      EventCharges(env, StateAfter(env, before), e, id);
    }
  }

  lemma CapInStore(env: Env, st: Store, id: ItemId)
    requires ValidEnv(env) && StoreInv(LayoutOf(env), st)
    ensures env.policy.exposureCap > 0 ==> ShowsOf(LayoutOf(env), st, id) <= env.policy.exposureCap
  {
    var i := ShardOf(LayoutOf(env), id);
    assert ShardOk(LayoutOf(env), i, st.shards[i]);
  }

  lemma NothingShownYet(env: Env, id: ItemId)
    requires ValidEnv(env)
    ensures ShowsOf(LayoutOf(env), Initial(env).policy, id) == 0
  {
  }

  // -------------------------------------------------------------------------
  // Preview at the handler
  // -------------------------------------------------------------------------

  lemma {:induction false} SameSlate<S>(env: Env, h: State, signal: R.Signal, count: nat, now: i64,
                                        a: seq<R.Candidate>, b: seq<R.Candidate>, state: S,
                                        accept: (S, u64) -> (bool, S))
    requires Inv(env, h) && IsShortlist(env, h.lists, signal, count, now, a)
    requires IsShortlist(env, h.lists, signal, count, now, b)
    ensures Greedy(env.scoring, count, a, [], state, accept) == Greedy(env.scoring, count, b, [], state, accept)
  {
    OffersAreFromCache(env, h, signal, now);
    var offers := OffersOf(env, signal, now, Scan(h.lists));
    DistinctIdentify(offers);
    RankTheorems.OfferOrderIsIrrelevant(env.scoring, count, R.ShortlistLimit(env.scoring, count), a, b, offers, offers,
                                        state, accept);
  }

  lemma DistinctIdentify(offers: seq<R.Candidate>)
    requires DistinctIds(offers)
    ensures R.IdsIdentify(multiset(offers))
  {
    forall x, y | x in multiset(offers) && y in multiset(offers) && x.id == y.id
      ensures x == y
    {
      var i :| 0 <= i < |offers| && offers[i] == x;
      var j :| 0 <= j < |offers| && offers[j] == y;
    }
  }

  /** The same recommendation asked as a dry run and as a recording request, from
      the same state at the same instant: the dry run records nothing, and the two
      slates, and the two replies, agree exactly when the store has room for the
      previewed items. */
  lemma PreviewAgreesIff(env: Env, h: State, signal: Messages.Signal, count: u32, now: i64,
                         h1: State, body1: ResponseBody, previewed: seq<Rerank.Ranked>, s1: seq<R.Candidate>,
                         h2: State, body2: ResponseBody, shown: seq<Rerank.Ranked>, s2: seq<R.Candidate>)
    requires Inv(env, h) && !env.policy.failOpen
    requires OnRecommend(env, h, signal, count, true, now, h1, body1, previewed, s1)
    requires OnRecommend(env, h, signal, count, false, now, h2, body2, shown, s2)
    ensures ValidLayout(LayoutOf(env)) && |h.policy.shards| == env.shardCount
    ensures h1.policy == h.policy
    ensures shown == previewed <==> Fits(LayoutOf(env), h.policy, previewed)
    ensures body1 == body2 <==> Fits(LayoutOf(env), h.policy, previewed)
  {
    ClosedPolicy(env, h);
    InvHasStore(env, h);
    var l, t := LayoutOf(env), ToUnsigned(now);
    if 0 < count <= MAX_RECOMMEND {
      ShortlistIsDistinct(env, h, ToSignal(env, signal), count, now, s1);
      SameSlate(env, h, ToSignal(env, signal), count, now, s1, s2, h.policy, Live(l, t));
      hide Inv;
      hide IsShortlist;
      hide Greedy;
      hide Rendered;
      DryRunRecordsNothing(l, t, env.scoring, count, s1, [], h.policy);
      PreviewIsLiveIff(l, h.policy, t, env.scoring, count, s1);
      if Rendered(env, previewed) == Rendered(env, shown) {
        RenderedAlike(env, previewed, shown);
        SameIdsFit(l, h.policy, shown, previewed);
      }
    } else {
      NothingFits(l, h.policy);
    }
  }

  ghost predicate SameIds(a: seq<Rerank.Ranked>, b: seq<Rerank.Ranked>) {
    |a| == |b| && forall i :: 0 <= i < |a| ==> a[i].id == b[i].id
  }

  /** A reply gives the ids away, whatever becomes of the scores. */
  lemma {:induction false} RenderedAlike(env: Env, a: seq<Rerank.Ranked>, b: seq<Rerank.Ranked>)
    requires Rendered(env, a) == Rendered(env, b)
    ensures SameIds(a, b)
  {
    if a != [] {
      var n := |a| - 1;
      var r, r' := Rendered(env, a), Rendered(env, b);
      assert r[..n] == Rendered(env, a[..n]) && r'[..n] == Rendered(env, b[..n]);
      RenderedAlike(env, a[..n], b[..n]);
      assert r[n].id == a[n].id && r'[n].id == b[n].id;
      assert forall i :: 0 <= i < n ==> a[..n][i] == a[i] && b[..n][i] == b[i];
    }
  }

  lemma {:induction false} SameIdsSameNewIds(l: Layout, st: Store, a: seq<Rerank.Ranked>, b: seq<Rerank.Ranked>, i: nat)
    requires ValidLayout(l) && |st.shards| == l.shardCount && SameIds(a, b)
    ensures NewIds(l, st, a, i) == NewIds(l, st, b, i)
  {
    hide ShardOf;
    hide EntryOf;
    if a != [] { SameIdsSameNewIds(l, st, a[..|a| - 1], b[..|b| - 1], i); }
  }

  lemma SameIdsFit(l: Layout, st: Store, a: seq<Rerank.Ranked>, b: seq<Rerank.Ranked>)
    requires ValidLayout(l) && |st.shards| == l.shardCount && SameIds(a, b) && Fits(l, st, a)
    ensures Fits(l, st, b)
  {
    forall i | 0 <= i < l.shardCount
      ensures Size(st, i) + NewIds(l, st, b, i) <= PerShard(l)
    {
      SameIdsSameNewIds(l, st, a, b, i);
    }
  }

  lemma NothingFits(l: Layout, st: Store)
    requires StoreInv(l, st)
    ensures Fits(l, st, [])
  {
    forall i | 0 <= i < l.shardCount
      ensures Size(st, i) + NewIds(l, st, [], i) <= PerShard(l)
    {
      assert ShardOk(l, i, st.shards[i]);
    }
  }

  // -------------------------------------------------------------------------
  // What the cache answers
  // -------------------------------------------------------------------------

  /** An item just published is found as it was; one just deleted is not found. */
  lemma GetAfterPutOrDelete(env: Env, h: State, item: Item)
    requires Inv(env, h) && item.id != 0 && item.category != []
    ensures var (h1, body) := OnPut(env, h, item);
            && body == PutItemResult(STATUS_OK) && WellFormed(env, h1)
            && OnGet(env, h1, item.id).1 == GetItemResult(STATUS_OK, item)
    ensures var (h2, body) := OnDelete(env, h, item.id);
            && (body == DeleteItemResult(STATUS_OK) <==>
                  OnGet(env, h, item.id).1 != GetItemResult(STATUS_NOT_FOUND, DEFAULT_ITEM))
            && WellFormed(env, h2)
            && OnGet(env, h2, item.id).1 == GetItemResult(STATUS_NOT_FOUND, DEFAULT_ITEM)
            && OnDelete(env, h2, item.id).1 == DeleteItemResult(STATUS_NOT_FOUND)
  {
    hide Invalid;
    var i := Route(env.hash, |h.lists|, item.id);
    Lru.DropKeys(h.lists[i], item.id);
  }
}
