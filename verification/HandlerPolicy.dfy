/** The compliance store behind the handler is the store of the consultations that
    recommendations made, so all that is proved of its runs holds of it. */
module HandlerPolicy {
  import opened Words
  import opened Messages
  import opened Codec
  import opened PolicyRuns
  import opened Preview
  import R = Ranking
  import opened Rerank
  import opened HandlerModel
  import opened Delivery
  import opened HandlerRuns

  /** What the store is asked for each offer, in order. */
  function ConsultOps(live: bool, now: u64, offers: seq<Offer>): (r: seq<Op>)
    ensures |r| == |offers|
  {
    if offers == [] then []
    else
      var n := |offers| - 1;
      var id := offers[n].candidate.id;
      ConsultOps(live, now, offers[..n]) + [if live then OpReserve(id, now) else OpCheck(id, now)]
  }

  lemma {:induction false} ConsultSnoc(live: bool, now: u64, offers: seq<Offer>, o: Offer)
    ensures ConsultOps(live, now, offers + [o])
         == ConsultOps(live, now, offers)
            + [if live then OpReserve(o.candidate.id, now) else OpCheck(o.candidate.id, now)]
  {
    assert (offers + [o])[..|offers|] == offers;
  }

  function HookOf(l: Layout, live: bool, now: u64): (Store, u64) -> (bool, Store) {
    if live then Live(l, now) else Dry(l, now)
  }

  lemma ConsultIsStep(l: Layout, live: bool, now: u64, st: Store, id: u64)
    requires ValidLayout(l) && |st.shards| == l.shardCount
    ensures var op := if live then OpReserve(id, now) else OpCheck(id, now);
            HookOf(l, live, now)(st, id).1 == Apply(l, st, op)
  {
  }

  /** A re-rank is a run of the store over its consultations. */
  lemma {:induction false} SelectionIsRun(l: Layout, live: bool, now: u64, scoring: R.Scoring, count: nat,
                                          rem: seq<R.Candidate>, offers: seq<Offer>, st: Store, base: seq<Op>)
    requires ValidLayout(l) && st == Run(l, base + ConsultOps(live, now, offers))
    ensures var slate := Greedy(scoring, count, rem, offers, st, HookOf(l, live, now));
            slate.state == Run(l, base + ConsultOps(live, now, slate.offers))
    decreases |rem|
  {
    hide Run;
    hide Apply;
    hide HookOf;
    hide ConsultOps;
    hide Pick;
    hide Adjusted;
    hide Chosen;
    if |Chosen(offers)| < count && rem != [] {
      var i := Pick(scoring, Chosen(offers), rem);
      var answer := HookOf(l, live, now)(st, rem[i].id);
      var o := Offer(rem[i], Adjusted(scoring, Chosen(offers), rem[i]), answer.0);
      var ops := base + ConsultOps(live, now, offers);
      var op := if live then OpReserve(rem[i].id, now) else OpCheck(rem[i].id, now);
      ConsultSnoc(live, now, offers, o);
      ConsultIsStep(l, live, now, st, rem[i].id);
      RunSnoc(l, ops, op);
      assert ops + [op] == base + ConsultOps(live, now, offers + [o]);
      SelectionIsRun(l, live, now, scoring, count, RemoveAt(rem, i), offers + [o], answer.1, base);
    }
  }

  /** The offers a request made; none unless it is a recommendation in range. */
  function OffersMade(env: Env, h: State, e: Event): seq<Offer>
    requires DecodeRequest(e.frame).Ok?
  {
    var body := Asked(e).body;
    if body.Recommend? && 0 < body.count <= MAX_RECOMMEND
    then Greedy(env.scoring, body.count, e.shortlist, [], h.policy, Hook(env, body.dryRun, e.now)).offers
    else []
  }

  function Consultations(env: Env, h: State, e: Event): seq<Op>
    requires DecodeRequest(e.frame).Ok?
  {
    ConsultOps(IsRecording(e), ToUnsigned(e.now), OffersMade(env, h, e))
  }

  /** Everything a run has asked of the store: a reservation for every offer of a
      recording recommendation, a check for every offer of a dry run. */
  function StoreOps(env: Env, events: seq<Event>): seq<Op>
    requires AllDecode(events)
  {
    if events == [] then []
    else
      var n := |events| - 1;
      StoreOps(env, events[..n]) + Consultations(env, StateAfter(env, events[..n]), events[n])
  }

  lemma {:induction false} NeverResets(live: bool, now: u64, offers: seq<Offer>)
    ensures NoReset(ConsultOps(live, now, offers))
  {
    if offers != [] { NeverResets(live, now, offers[..|offers| - 1]); }
  }

  lemma {:induction false} RecommendIsRun(env: Env, h: State, signal: Messages.Signal, count: u32, dryRun: bool,
                                          now: i64, h': State, body: ResponseBody, chosen: seq<Rerank.Ranked>,
                                          shortlist: seq<R.Candidate>, base: seq<Op>)
    requires WellFormed(env, h) && h.policy == Run(LayoutOf(env), base) && 0 < count <= MAX_RECOMMEND
    requires OnRecommend(env, h, signal, count, dryRun, now, h', body, chosen, shortlist)
    ensures var offers := Greedy(env.scoring, count, shortlist, [], h.policy, Hook(env, dryRun, now)).offers;
            && h'.policy == Run(LayoutOf(env), base + ConsultOps(!dryRun, ToUnsigned(now), offers))
            && chosen == Chosen(offers)
  {
    hide Run;
    hide Greedy;
    hide IsShortlist;
    hide Rendered;
    assert base + ConsultOps(!dryRun, ToUnsigned(now), []) == base;
    SelectionIsRun(LayoutOf(env), !dryRun, ToUnsigned(now), env.scoring, count, shortlist, [], h.policy, base);
  }

  lemma {:induction false} EventIsRun(env: Env, h: State, e: Event, base: seq<Op>)
    requires Follows(env, h, e) && h.policy == Run(LayoutOf(env), base)
    ensures DecodeRequest(e.frame).Ok? && e.after.policy == Run(LayoutOf(env), base + Consultations(env, h, e))
    ensures e.chosen == Chosen(OffersMade(env, h, e))
  {
    hide DecodeRequest;
    hide Run;
    hide Greedy;
    hide OnGet;
    hide OnPut;
    hide OnDelete;
    hide PublishedStats;
    var r := Asked(e);
    if r.body.Recommend? && 0 < r.body.count <= MAX_RECOMMEND {
      hide OnRecommend;
      RecommendIsRun(env, Counted(h), r.body.signal, r.body.count, r.body.dryRun, e.now, e.after, e.response.body,
                     e.chosen, e.shortlist, base);
    } else {
      hide IsShortlist;
      assert base + [] == base;
      if !r.body.Recommend? {
        OthersChargeNothing(env, h, r, e.now, e.after, e.response, e.chosen, e.shortlist);
      }
    }
  }

  lemma {:induction false} StoreIsHistory(env: Env, events: seq<Event>)
    requires ValidEnv(env) && IsRun(env, events)
    ensures AllDecode(events)
    ensures StateAfter(env, events).policy == Run(LayoutOf(env), StoreOps(env, events))
    ensures NoReset(StoreOps(env, events))
  {
    hide DecodeRequest;
    RunDecodes(env, events);
    if events != [] {
      var n := |events| - 1;
      StoreIsHistory(env, events[..n]);
      hide Handles;
      hide ConsultOps;
      hide OffersMade;
      hide Run;
      EventIsRun(env, StateAfter(env, events[..n]), events[n], StoreOps(env, events[..n]));
      NeverResets(IsRecording(events[n]), ToUnsigned(events[n].now),
                  OffersMade(env, StateAfter(env, events[..n]), events[n]));
    }
  }
}
