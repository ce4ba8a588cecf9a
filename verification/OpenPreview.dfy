/** Previews of a fail-open store. Nothing is refused for lack of room there, but
    recording may evict the counters of an item that is still to be offered. */
module OpenPreview {
  import opened Words
  import opened Policy
  import opened PolicyRuns
  import opened PolicyTracking
  import opened Ranking
  import opened Rerank
  import opened Preview

  ghost predicate Open(l: Layout, st: Store) {
    StoreInv(l, st) && l.c.failOpen
  }

  /** What is left to offer is as it was at the start, or was evicted since. */
  ghost predicate KeptOrEvicted(l: Layout, st: Store, cur: Store, rem: seq<Candidate>)
    requires Open(l, st) && Open(l, cur)
  {
    forall k :: 0 <= k < |rem| ==>
      EntryOf(l, cur, rem[k].id) == EntryOf(l, st, rem[k].id) || EntryOf(l, cur, rem[k].id) == None
  }

  /** ... and nothing of it was evicted. */
  ghost predicate Kept(l: Layout, st: Store, cur: Store, rem: seq<Candidate>)
    requires Open(l, st) && Open(l, cur)
  {
    forall k :: 0 <= k < |rem| ==> EntryOf(l, cur, rem[k].id) == EntryOf(l, st, rem[k].id)
  }

  predicate Passes(l: Layout, st: Store, id: ItemId, now: nat)
    requires ValidLayout(l) && |st.shards| == l.shardCount
  {
    CheckAt(l, st, id, now) == Allowed
  }

  /** An untracked item always passes, a tracked one by its own counters. */
  lemma OpenDecision(l: Layout, st: Store, id: ItemId, now: nat)
    requires Open(l, st)
    ensures Passes(l, st, id, now) <==> ReserveAt(l, st, id, now).decision == Allowed
    ensures var e := EntryOf(l, st, id);
            Passes(l, st, id, now) <==> e.None? || DecideTracked(l.c, e.value, now) == Allowed
  {
    PerShardPositive(l);
    ShardsAreOk(l, st, ShardOf(l, id));
    CheckIsReserveDecision(l.c, PerShard(l), st.shards[ShardOf(l, id)], id, now);
  }

  /** Eviction only ever lets more through. */
  lemma EvictedPasses(l: Layout, st: Store, cur: Store, rem: seq<Candidate>, k: nat, now: nat)
    requires Open(l, st) && Open(l, cur) && KeptOrEvicted(l, st, cur, rem) && k < |rem|
    ensures Passes(l, st, rem[k].id, now) ==> Passes(l, cur, rem[k].id, now)
    ensures EntryOf(l, cur, rem[k].id) == EntryOf(l, st, rem[k].id) ==>
              (Passes(l, st, rem[k].id, now) <==> Passes(l, cur, rem[k].id, now))
  {
    hide DecideTracked;
    OpenDecision(l, st, rem[k].id, now);
    OpenDecision(l, cur, rem[k].id, now);
  }

  lemma RecordKeeps(l: Layout, st: Store, cur: Store, rem: seq<Candidate>, k: nat, now: u64)
    requires Open(l, st) && Open(l, cur) && KeptOrEvicted(l, st, cur, rem) && DistinctIds(rem) && k < |rem|
    ensures Open(l, Reserved(l, cur, rem[k].id, now))
    ensures KeptOrEvicted(l, st, Reserved(l, cur, rem[k].id, now), RemoveAt(rem, k))
  {
    hide Reserved;
    hide StoreInv;
    hide EntryOf;
    var op := OpReserve(rem[k].id, now);
    RecordIsApply(l, cur, rem[k].id, now);
    ApplyKeepsInv(l, cur, op);
    OpenShape(l, st);
    OpenShape(l, cur);
    OpenShape(l, Apply(l, cur, op));
    RemoveKeepsDistinct(rem, k);
    var rest := RemoveAt(rem, k);
    forall j | 0 <= j < |rest|
      ensures var e := EntryOf(l, Apply(l, cur, op), rest[j].id); e == EntryOf(l, st, rest[j].id) || e == None
    {
      assert rest[j] in rem && rest[j].id != rem[k].id;
      StepOfAny(l, cur, op, rest[j].id);
    }
  }

  lemma OpenShape(l: Layout, st: Store)
    requires StoreInv(l, st)
    ensures ValidLayout(l) && |st.shards| == l.shardCount
  {
  }

  lemma RecordIsApply(l: Layout, st: Store, id: ItemId, now: u64)
    requires StoreInv(l, st)
    ensures Reserved(l, st, id, now) == Apply(l, st, OpReserve(id, now))
  {
  }

  // -------------------------------------------------------------------------
  // When the two slates agree
  // -------------------------------------------------------------------------

  ghost predicate AllPass(l: Layout, st: Store, chosen: seq<Ranked>, now: nat)
    requires ValidLayout(l) && |st.shards| == l.shardCount
  {
    forall i :: 0 <= i < |chosen| ==> Passes(l, st, chosen[i].id, now)
  }

  lemma {:induction false} PreviewPasses(l: Layout, st: Store, now: nat, scoring: Scoring, count: nat,
                                         rem: seq<Candidate>, offers: seq<Offer>)
    requires ValidLayout(l) && |st.shards| == l.shardCount && AllPass(l, st, Chosen(offers), now)
    ensures AllPass(l, st, Chosen(Greedy(scoring, count, rem, offers, st, Dry(l, now)).offers), now)
    decreases |rem|
  {
    hide Adjusted;
    hide Pick;
    hide Chosen;
    hide CheckAt;
    if |Chosen(offers)| < count && rem != [] {
      var i := Pick(scoring, Chosen(offers), rem);
      var o := Offer(rem[i], Adjusted(scoring, Chosen(offers), rem[i]), Dry(l, now)(st, rem[i].id).0);
      ChosenSnoc(offers, o);
      PreviewPasses(l, st, now, scoring, count, RemoveAt(rem, i), offers + [o]);
    }
  }

  lemma PassesLess(l: Layout, st: Store, a: seq<Ranked>, b: seq<Ranked>, now: nat)
    requires ValidLayout(l) && |st.shards| == l.shardCount && a <= b && AllPass(l, st, b, now)
    ensures AllPass(l, st, a, now)
  {
    assert forall i :: 0 <= i < |a| ==> a[i] == b[i];
  }

  lemma {:induction false} LiveFollowsIfAllPass(l: Layout, st: Store, cur: Store, now: u64, scoring: Scoring,
                                                count: nat, rem: seq<Candidate>, offers: seq<Offer>)
    requires Open(l, st) && Open(l, cur) && KeptOrEvicted(l, st, cur, rem) && DistinctIds(rem)
    requires AllPass(l, st, Chosen(Greedy(scoring, count, rem, offers, cur, Live(l, now)).offers), now)
    ensures Greedy(scoring, count, rem, offers, cur, Live(l, now)).offers
         == Greedy(scoring, count, rem, offers, st, Dry(l, now)).offers
    decreases |rem|
  {
    hide Adjusted;
    hide Pick;
    hide Chosen;
    hide Reserved;
    hide ReserveAt;
    hide CheckAt;
    hide StoreInv;
    hide KeptOrEvicted;
    hide AllPass;
    if |Chosen(offers)| < count && rem != [] {
      OpenShape(l, st);
      OpenShape(l, cur);
      var i := Pick(scoring, Chosen(offers), rem);
      var answer := Live(l, now)(cur, rem[i].id);
      var o := Offer(rem[i], Adjusted(scoring, Chosen(offers), rem[i]), answer.0);
      OpenDecision(l, cur, rem[i].id, now);
      EvictedPasses(l, st, cur, rem, i, now);
      ChosenSnoc(offers, o);
      if answer.0 {
        var final := Chosen(Greedy(scoring, count, RemoveAt(rem, i), offers + [o], answer.1, Live(l, now)).offers);
        ChosenGrows(scoring, count, RemoveAt(rem, i), offers + [o], answer.1, Live(l, now));
        PassesLess(l, st, Chosen(offers) + [RankedOf(o)], final, now);
        LastPasses(l, st, Chosen(offers), RankedOf(o), now);
      }
      RecordKeeps(l, st, cur, rem, i, now);
      RemoveKeepsDistinct(rem, i);
      LiveFollowsIfAllPass(l, st, answer.1, now, scoring, count, RemoveAt(rem, i), offers + [o]);
    }
  }

  lemma LastPasses(l: Layout, st: Store, chosen: seq<Ranked>, r: Ranked, now: nat)
    requires ValidLayout(l) && |st.shards| == l.shardCount && AllPass(l, st, chosen + [r], now)
    ensures Passes(l, st, r.id, now)
  {
    assert (chosen + [r])[|chosen|] == r;
  }

  lemma NothingEvicted(l: Layout, st: Store, rem: seq<Candidate>)
    requires Open(l, st)
    ensures KeptOrEvicted(l, st, st, rem) && Kept(l, st, st, rem)
  {
  }

  /** Fail-open, from the same state and instant, the recording slate is the
      preview's exactly when it shows nothing that was over its limits when the
      request came in. */
  lemma {:induction false} OpenPreviewIsLiveIff(l: Layout, st: Store, now: u64, scoring: Scoring, count: nat,
                                                shortlist: seq<Candidate>)
    requires Open(l, st) && DistinctIds(shortlist)
    ensures var preview := Chosen(Greedy(scoring, count, shortlist, [], st, Dry(l, now)).offers);
            var live := Chosen(Greedy(scoring, count, shortlist, [], st, Live(l, now)).offers);
            AllPass(l, st, preview, now) && (live == preview <==> AllPass(l, st, live, now))
  {
    hide Greedy;
    hide StoreInv;
    OpenShape(l, st);
    assert Chosen([]) == [];
    NothingEvicted(l, st, shortlist);
    PreviewPasses(l, st, now, scoring, count, shortlist, []);
    if AllPass(l, st, Chosen(Greedy(scoring, count, shortlist, [], st, Live(l, now)).offers), now) {
      LiveFollowsIfAllPass(l, st, st, now, scoring, count, shortlist, []);
    }
  }

  // -------------------------------------------------------------------------
  // Enough: no shortlisted item is evicted
  // -------------------------------------------------------------------------

  /** Along the recording run, nothing that is still to be offered is evicted. */
  ghost predicate Spares(l: Layout, now: u64, scoring: Scoring, count: nat, rem: seq<Candidate>, offers: seq<Offer>,
                         cur: Store)
    requires Open(l, cur)
    decreases |rem|
  {
    |Chosen(offers)| < count && rem != [] ==>
      var i := Pick(scoring, Chosen(offers), rem);
      var answer := Live(l, now)(cur, rem[i].id);
      var o := Offer(rem[i], Adjusted(scoring, Chosen(offers), rem[i]), answer.0);
      && Open(l, answer.1) && Kept(l, cur, answer.1, RemoveAt(rem, i))
      && Spares(l, now, scoring, count, RemoveAt(rem, i), offers + [o], answer.1)
  }

  lemma KeptOn(l: Layout, st: Store, cur: Store, cur': Store, rem: seq<Candidate>, k: nat)
    requires Open(l, st) && Open(l, cur) && Open(l, cur') && k < |rem|
    requires Kept(l, st, cur, rem) && Kept(l, cur, cur', RemoveAt(rem, k))
    ensures Kept(l, st, cur', RemoveAt(rem, k))
  {
    hide EntryOf;
    hide StoreInv;
    OpenShape(l, st);
    OpenShape(l, cur);
    OpenShape(l, cur');
    var rest := RemoveAt(rem, k);
    forall j | 0 <= j < |rest| ensures EntryOf(l, cur', rest[j].id) == EntryOf(l, st, rest[j].id) {
      assert rest[j] == rem[if j < k then j else j + 1];
    }
  }

  lemma KeptDecides(l: Layout, st: Store, cur: Store, rem: seq<Candidate>, k: nat, now: nat)
    requires Open(l, st) && Open(l, cur) && Kept(l, st, cur, rem) && k < |rem|
    ensures Passes(l, st, rem[k].id, now) <==> Passes(l, cur, rem[k].id, now)
  {
    assert KeptOrEvicted(l, st, cur, rem);
    EvictedPasses(l, st, cur, rem, k, now);
  }

  lemma {:induction false} LiveFollowsIfSpared(l: Layout, st: Store, cur: Store, now: u64, scoring: Scoring, count: nat,
                                               rem: seq<Candidate>, offers: seq<Offer>)
    requires Open(l, st) && Open(l, cur) && Kept(l, st, cur, rem) && Spares(l, now, scoring, count, rem, offers, cur)
    ensures Greedy(scoring, count, rem, offers, cur, Live(l, now)).offers
         == Greedy(scoring, count, rem, offers, st, Dry(l, now)).offers
    decreases |rem|
  {
    hide Adjusted;
    hide Pick;
    hide Chosen;
    hide Reserved;
    hide ReserveAt;
    hide CheckAt;
    hide StoreInv;
    hide Kept;
    if |Chosen(offers)| < count && rem != [] {
      OpenShape(l, st);
      OpenShape(l, cur);
      var i := Pick(scoring, Chosen(offers), rem);
      var answer := Live(l, now)(cur, rem[i].id);
      var o := Offer(rem[i], Adjusted(scoring, Chosen(offers), rem[i]), answer.0);
      OpenDecision(l, cur, rem[i].id, now);
      KeptDecides(l, st, cur, rem, i, now);
      KeptOn(l, st, cur, answer.1, rem, i);
      LiveFollowsIfSpared(l, st, answer.1, now, scoring, count, RemoveAt(rem, i), offers + [o]);
    }
  }

  /** The slates agree whenever the recording run evicts no item that it has yet to
      offer. */
  lemma {:induction false} SparedMakesPreviewLive(l: Layout, st: Store, now: u64, scoring: Scoring, count: nat,
                                                  shortlist: seq<Candidate>)
    requires Open(l, st) && Spares(l, now, scoring, count, shortlist, [], st)
    ensures Chosen(Greedy(scoring, count, shortlist, [], st, Live(l, now)).offers)
         == Chosen(Greedy(scoring, count, shortlist, [], st, Dry(l, now)).offers)
  {
    hide Greedy;
    hide Spares;
    NothingEvicted(l, st, shortlist);
    LiveFollowsIfSpared(l, st, st, now, scoring, count, shortlist, []);
  }

  // -------------------------------------------------------------------------
  // And when they do not
  // -------------------------------------------------------------------------

  lemma OneSlot(c: Config, a: ItemId, now: u64, hash: ItemId -> nat) returns (l: Layout)
    requires c.maxTracked == 1 && c.failOpen && c.exposureCap == 1
    ensures l == Layout(c, 1, hash) && ValidLayout(l)
    ensures var st := Run(l, [OpReserve(a, now)]);
            && Open(l, st) && !Passes(l, st, a, now)
            && forall b: ItemId :: b != a ==> Passes(l, st, b, now) && Passes(l, Reserved(l, st, b, now), a, now)
  {
    l := Layout(c, 1, hash);
    OneIsAPower();
    var ops := [OpReserve(a, now)];
    assert ops[..0] == [];
    RunKeepsInv(l, ops);
    RunKeepsInv(l, []);
    PerShardPositive(l);
    var st0, st := Run(l, []), Run(l, ops);
    TrackAndChargeKeepsInv(c, 1, EMPTY_SHARD, a, now, 0);
    assert st.shards[0].entries == map[a := Charged(c, FreshEntry(c, now), now)];
    OpenDecision(l, st, a, now);
    forall b: ItemId | b != a
      ensures Passes(l, st, b, now) && Passes(l, Reserved(l, st, b, now), a, now)
    {
      TakesThePlace(c, st.shards[0], a, b, now);
    }
  }

  /** In a full shard of one, a newcomer takes the place of the other item. */
  lemma TakesThePlace(c: Config, s: Shard, a: ItemId, b: ItemId, now: u64)
    requires c.failOpen && ShardInv(c, 1, s) && s.entries.Keys == {a} && a != b
    ensures Check(c, 1, s, b, now) == Allowed
    ensures a !in Reserve(c, 1, s, b, now).shard.entries
  {
    assert |s.entries.Keys| == 1;
    FullShardHasVictim(c, 1, s);
    EvictKeepsRecency(c, 1, s);
    TrackAndChargeKeepsInv(c, 1, EvictOne(s), b, now, 1);
    assert s.recency[|s.recency| - 1] in s.recency;
  }

  /** One offer that the store takes. */
  lemma {:induction false} LiveTakes(l: Layout, st: Store, now: u64, scoring: Scoring, rem: seq<Candidate>, i: nat,
                                     offers: seq<Offer>)
    requires Open(l, st) && |Chosen(offers)| < 2 && i < |rem| && i == Pick(scoring, Chosen(offers), rem)
    requires Passes(l, st, rem[i].id, now)
    ensures var o := Offer(rem[i], Adjusted(scoring, Chosen(offers), rem[i]), true);
            && Chosen(offers + [o]) == Chosen(offers) + [RankedOf(o)]
            && Greedy(scoring, 2, rem, offers, st, Live(l, now))
               == Greedy(scoring, 2, RemoveAt(rem, i), offers + [o], Reserved(l, st, rem[i].id, now), Live(l, now))
  {
    hide Adjusted;
    hide Pick;
    hide Chosen;
    hide Reserved;
    hide ReserveAt;
    hide CheckAt;
    hide StoreInv;
    hide RemoveAt;
    OpenShape(l, st);
    OpenDecision(l, st, rem[i].id, now);
    ChosenSnoc(offers, Offer(rem[i], Adjusted(scoring, Chosen(offers), rem[i]), true));
  }

  lemma StaysOpen(l: Layout, st: Store, id: ItemId, now: u64)
    requires Open(l, st)
    ensures Open(l, Reserved(l, st, id, now))
  {
    hide StoreInv;
    hide Reserved;
    RecordIsApply(l, st, id, now);
    ApplyKeepsInv(l, st, OpReserve(id, now));
  }

  lemma {:induction false} LiveTakesBoth(l: Layout, st: Store, now: u64, scoring: Scoring, a: Candidate, b: Candidate)
    requires Open(l, st) && Better(scoring, [], b, a)
    requires Passes(l, st, b.id, now) && Passes(l, Reserved(l, st, b.id, now), a.id, now)
    ensures var live := Chosen(Greedy(scoring, 2, [a, b], [], st, Live(l, now)).offers);
            |live| == 2 && live[0].id == b.id && live[1].id == a.id
  {
    hide Adjusted;
    hide Reserved;
    hide Passes;
    hide StoreInv;
    hide Live;
    hide Better;
    hide Greedy;
    assert [a, b][..1] == [a] && Pick(scoring, [], [a, b]) == 1;
    assert Chosen([]) == [];
    LiveTakes(l, st, now, scoring, [a, b], 1, []);
    OpenShape(l, st);
    StaysOpen(l, st, b.id, now);
    var st' := Reserved(l, st, b.id, now);
    var o := Offer(b, Adjusted(scoring, [], b), true);
    assert [] + [o] == [o] && RemoveAt([a, b], 1) == [a];
    LiveTakes(l, st', now, scoring, [a], 0, [o]);
    OpenShape(l, st');
    assert RemoveAt([a], 0) == [];
    NothingLeft(scoring, [o] + [Offer(a, Adjusted(scoring, Chosen([o]), a), true)], Reserved(l, st', a.id, now),
                Live(l, now));
  }

  lemma {:induction false} NothingLeft(scoring: Scoring, offers: seq<Offer>, st: Store,
                                       accept: (Store, u64) -> (bool, Store))
    ensures Greedy(scoring, 2, [], offers, st, accept).offers == offers
  {
  }

  /** A store with one slot and a cap of one, after one show of `a`: any better item
      `b` takes the slot, and `a`, just refused by the preview, is shown again. */
  lemma EvictionBreaksPreview(hash: ItemId -> nat, c: Config, now: u64, scoring: Scoring, a: Candidate, b: Candidate)
    returns (l: Layout)
    requires c.maxTracked == 1 && c.failOpen && c.exposureCap == 1 && a.id != b.id && Better(scoring, [], b, a)
    ensures ValidLayout(l) && l.c == c
    ensures var st := Run(l, [OpReserve(a.id, now)]);
            && Open(l, st)
            && Chosen(Greedy(scoring, 2, [a, b], [], st, Live(l, now)).offers)
               != Chosen(Greedy(scoring, 2, [a, b], [], st, Dry(l, now)).offers)
  {
    hide Greedy;
    hide Better;
    hide Passes;
    l := OneSlot(c, a.id, now, hash);
    var st := Run(l, [OpReserve(a.id, now)]);
    LiveTakesBoth(l, st, now, scoring, a, b);
    OpenPreviewIsLiveIff(l, st, now, scoring, 2, [a, b]);
  }
}
