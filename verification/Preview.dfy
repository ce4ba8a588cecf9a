/** Where ranking meets the compliance store: a recording slate, a dry-run slate,
    and exactly when the two agree. */
module Preview {
  import opened Words
  import opened Routing
  import opened Policy
  import opened PolicyRuns
  import opened Ranking
  import opened Rerank

  /** The hook of a recording request: check and record in one step. */
  function Live(l: Layout, now: nat): (Store, u64) -> (bool, Store) {
    (st: Store, id: u64) =>
      if ValidLayout(l) && |st.shards| == l.shardCount
      then (ReserveAt(l, st, id, now).decision == Allowed, Reserved(l, st, id, now))
      else (false, st)
  }

  /** The hook of a dry run. */
  function Dry(l: Layout, now: nat): (Store, u64) -> (bool, Store) {
    (st: Store, id: u64) => (ValidLayout(l) && |st.shards| == l.shardCount && CheckAt(l, st, id, now) == Allowed, st)
  }

  ghost predicate Closed(l: Layout, st: Store) {
    StoreInv(l, st) && !l.c.failOpen
  }

  function Size(st: Store, i: nat): nat
    requires i < |st.shards|
  {
    |st.shards[i].entries|
  }

  function ShowsOf(l: Layout, st: Store, id: ItemId): nat
    requires ValidLayout(l) && |st.shards| == l.shardCount
  {
    var e := EntryOf(l, st, id);
    if e.Some? then e.value.shows else 0
  }

  function EntryIn(s: Shard, id: ItemId): Option<Entry> {
    if id in s.entries then Some(s.entries[id]) else None
  }

  function ShowsIn(s: Shard, id: ItemId): nat {
    if id in s.entries then s.entries[id].shows else 0
  }

  /** Recording one show on its shard, fail-closed. */
  lemma ShardEffect(c: Config, cap: nat, s: Shard, id: ItemId, now: nat)
    requires !c.failOpen && ShardInv(c, cap, s) && 0 < cap
    ensures var o := Reserve(c, cap, s, id, now);
            var allowed := o.decision == Allowed;
            && (allowed <==> Check(c, cap, s, id, now) == Allowed)
            && (if id in s.entries then allowed <==> DecideTracked(c, s.entries[id], now) == Allowed
                else allowed <==> |s.entries| < cap)
            && ShowsIn(o.shard, id) == ShowsIn(s, id) + (if allowed then 1 else 0)
            && |o.shard.entries| == |s.entries| + (if allowed && id !in s.entries then 1 else 0)
            && forall other :: other != id ==> EntryIn(o.shard, other) == EntryIn(s, other)
  {
    ReserveClosed(c, cap, s, id, now);
    CheckIsReserveDecision(c, cap, s, id, now);
    AdvancedShows(c, s, id, now);
    hide Reserve;
    hide ShardInv;
    hide DecideTracked;
    hide Advanced;
    hide Charged;
    hide FreshEntry;
  }

  /** Recording one show, fail-closed. */
  lemma ReservedEffect(l: Layout, st: Store, id: ItemId, now: u64)
    requires Closed(l, st)
    ensures var st' := Reserved(l, st, id, now);
            var allowed := ReserveAt(l, st, id, now).decision == Allowed;
            && Closed(l, st')
            && (allowed <==> CheckAt(l, st, id, now) == Allowed)
            && (if EntryOf(l, st, id).Some? then allowed <==> DecideTracked(l.c, EntryOf(l, st, id).value, now) == Allowed
                else allowed <==> Size(st, ShardOf(l, id)) < PerShard(l))
            && ShowsOf(l, st', id) == ShowsOf(l, st, id) + (if allowed then 1 else 0)
            && (forall other :: other != id ==> EntryOf(l, st', other) == EntryOf(l, st, other))
            && (forall i :: 0 <= i < l.shardCount ==>
                  Size(st', i) == Size(st, i)
                                  + if allowed && i == ShardOf(l, id) && EntryOf(l, st, id).None? then 1 else 0)
            && st'.allowed == st.allowed + if allowed then 1 else 0
  {
    hide Reserve;
    hide Check;
    hide ShardInv;
    hide DecideTracked;
    hide PerShard;
    hide ShardOf;
    ApplyKeepsInv(l, st, OpReserve(id, now));
    PerShardPositive(l);
    var i := ShardOf(l, id);
    var s := st.shards[i];
    ShardsAreOk(l, st, i);
    hide StoreInv;
    ShardEffect(l.c, PerShard(l), s, id, now);
    var st' := Reserved(l, st, id, now);
    assert st'.shards == st.shards[i := Reserve(l.c, PerShard(l), s, id, now).shard];
    forall other | other != id
      ensures EntryOf(l, st', other) == EntryOf(l, st, other)
    {
      assert EntryIn(st'.shards[i], other) == EntryIn(s, other);
    }
  }

  lemma ShardsAreOk(l: Layout, st: Store, i: nat)
    requires StoreInv(l, st) && i < l.shardCount
    ensures ShardInv(l.c, PerShard(l), st.shards[i])
  {
    assert ShardOk(l, i, st.shards[i]);
  }

  lemma AdvancedShows(c: Config, s: Shard, id: ItemId, now: nat)
    ensures Charged(c, FreshEntry(c, now), now).shows == 1
    ensures id in s.entries ==>
              && Advanced(c, s.entries[id], now).shows
                 == s.entries[id].shows + (if DecideTracked(c, s.entries[id], now) == Allowed then 1 else 0)
              && s.entries[id := Advanced(c, s.entries[id], now)].Keys == s.entries.Keys
    ensures id !in s.entries ==> s.entries[id := Charged(c, FreshEntry(c, now), now)].Keys == s.entries.Keys + {id}
  {
  }

  // -------------------------------------------------------------------------
  // Distinct ids
  // -------------------------------------------------------------------------

  ghost predicate DistinctIds(rem: seq<Candidate>) {
    forall i, j :: 0 <= i < j < |rem| ==> rem[i].id != rem[j].id
  }

  lemma RemoveKeepsDistinct(rem: seq<Candidate>, k: nat)
    requires DistinctIds(rem) && k < |rem|
    ensures DistinctIds(RemoveAt(rem, k))
    ensures forall j :: 0 <= j < |RemoveAt(rem, k)| ==> RemoveAt(rem, k)[j] in rem && RemoveAt(rem, k)[j].id != rem[k].id
  {
    var r := RemoveAt(rem, k);
    assert forall j :: 0 <= j < |r| ==> r[j] == rem[if j < k then j else j + 1];
  }

  // -------------------------------------------------------------------------
  // A dry run changes nothing
  // -------------------------------------------------------------------------

  lemma {:induction false} DryRunRecordsNothing(l: Layout, now: nat, scoring: Scoring, count: nat, rem: seq<Candidate>,
                                                offers: seq<Offer>, st: Store)
    ensures Greedy(scoring, count, rem, offers, st, Dry(l, now)).state == st
    decreases |rem|
  {
    if |Chosen(offers)| < count && rem != [] {
      var i := Pick(scoring, Chosen(offers), rem);
      var answer := Dry(l, now)(st, rem[i].id);
      DryRunRecordsNothing(l, now, scoring, count, RemoveAt(rem, i),
                           offers + [Offer(rem[i], Adjusted(scoring, Chosen(offers), rem[i]), answer.0)], st);
    }
  }

  // -------------------------------------------------------------------------
  // A live run charges exactly what it returns
  // -------------------------------------------------------------------------

  function Times(chosen: seq<Ranked>, id: ItemId): nat {
    if chosen == [] then 0
    else Times(chosen[..|chosen| - 1], id) + if chosen[|chosen| - 1].id == id then 1 else 0
  }

  /** Ids among the chosen that are new to a shard of the store. */
  function NewIds(l: Layout, st: Store, chosen: seq<Ranked>, i: nat): nat
    requires ValidLayout(l) && |st.shards| == l.shardCount
  {
    if chosen == [] then 0
    else
      var id := chosen[|chosen| - 1].id;
      NewIds(l, st, chosen[..|chosen| - 1], i) + if ShardOf(l, id) == i && EntryOf(l, st, id).None? then 1 else 0
  }

  /** A state reached from `st` by recording what was chosen, with `rem` still to be
      offered. */
  ghost predicate Recorded(l: Layout, st: Store, cur: Store, chosen: seq<Ranked>, rem: seq<Candidate>) {
    Tracks(l, st, cur, chosen, rem) && Once(chosen, rem)
  }

  ghost predicate Tracks(l: Layout, st: Store, cur: Store, chosen: seq<Ranked>, rem: seq<Candidate>) {
    && Closed(l, st) && Closed(l, cur)
    && (forall k :: 0 <= k < |rem| ==> EntryOf(l, cur, rem[k].id) == EntryOf(l, st, rem[k].id))
    && (forall id :: ShowsOf(l, cur, id) == ShowsOf(l, st, id) + Times(chosen, id))
    && (forall i :: 0 <= i < l.shardCount ==> Size(cur, i) == Size(st, i) + NewIds(l, st, chosen, i))
    && cur.allowed == st.allowed + |chosen|
  }

  /** Nothing is chosen twice, and what is left has not been chosen. */
  ghost predicate Once(chosen: seq<Ranked>, rem: seq<Candidate>) {
    && (forall k :: 0 <= k < |rem| ==> Times(chosen, rem[k].id) == 0)
    && (forall id :: Times(chosen, id) <= 1)
  }

  lemma {:induction false} CountsSnoc(l: Layout, st: Store, chosen: seq<Ranked>, r: Ranked)
    requires ValidLayout(l) && |st.shards| == l.shardCount
    ensures forall id :: Times(chosen + [r], id) == Times(chosen, id) + if r.id == id then 1 else 0
    ensures forall i :: NewIds(l, st, chosen + [r], i)
                     == NewIds(l, st, chosen, i) + if ShardOf(l, r.id) == i && EntryOf(l, st, r.id).None? then 1 else 0
  {
    assert (chosen + [r])[..|chosen|] == chosen;
  }

  lemma ClosedShape(l: Layout, st: Store)
    requires Closed(l, st)
    ensures ValidLayout(l) && |st.shards| == l.shardCount
  {
  }

  lemma TrackOne(l: Layout, st: Store, cur: Store, chosen: seq<Ranked>, rem: seq<Candidate>, k: nat, now: u64,
                 r: Ranked)
    requires Tracks(l, st, cur, chosen, rem) && DistinctIds(rem) && k < |rem| && r.id == rem[k].id
    ensures var allowed := ReserveAt(l, cur, r.id, now).decision == Allowed;
            Tracks(l, st, Reserved(l, cur, r.id, now), if allowed then chosen + [r] else chosen, RemoveAt(rem, k))
  {
    hide Reserved;
    hide ReserveAt;
    hide CheckAt;
    hide EntryOf;
    hide ShardOf;
    hide PerShard;
    hide Closed;
    hide NewIds;
    hide Times;
    hide Size;
    ClosedShape(l, st);
    ClosedShape(l, cur);
    ReservedEffect(l, cur, r.id, now);
    ClosedShape(l, Reserved(l, cur, r.id, now));
    CountsSnoc(l, st, chosen, r);
    RemoveKeepsDistinct(rem, k);
    var rem' := RemoveAt(rem, k);
    forall j | 0 <= j < |rem'|
      ensures EntryOf(l, Reserved(l, cur, r.id, now), rem'[j].id) == EntryOf(l, st, rem'[j].id)
    {
      assert rem'[j] in rem;
    }
  }

  lemma OnceMore(l: Layout, st: Store, chosen: seq<Ranked>, rem: seq<Candidate>, k: nat, r: Ranked)
    requires ValidLayout(l) && |st.shards| == l.shardCount
    requires Once(chosen, rem) && DistinctIds(rem) && k < |rem| && r.id == rem[k].id
    ensures Once(chosen, RemoveAt(rem, k)) && Once(chosen + [r], RemoveAt(rem, k))
  {
    CountsSnoc(l, st, chosen, r);
    RemoveKeepsDistinct(rem, k);
    var rem' := RemoveAt(rem, k);
    hide Times;
    hide NewIds;
    forall j | 0 <= j < |rem'|
      ensures Times(chosen, rem'[j].id) == 0
    {
      assert rem'[j] in rem;
    }
  }

  lemma RecordOne(l: Layout, st: Store, cur: Store, chosen: seq<Ranked>, rem: seq<Candidate>, k: nat, now: u64,
                  r: Ranked)
    requires Recorded(l, st, cur, chosen, rem) && DistinctIds(rem) && k < |rem| && r.id == rem[k].id
    ensures Closed(l, cur)
    ensures var allowed := ReserveAt(l, cur, r.id, now).decision == Allowed;
            Recorded(l, st, Reserved(l, cur, r.id, now), if allowed then chosen + [r] else chosen, RemoveAt(rem, k))
  {
    TrackOne(l, st, cur, chosen, rem, k, now, r);
    OnceMore(l, st, chosen, rem, k, r);
    hide Once;
  }

  lemma {:induction false} LiveRecords(l: Layout, st: Store, cur: Store, now: u64, scoring: Scoring, count: nat,
                                       rem: seq<Candidate>, offers: seq<Offer>)
    requires Recorded(l, st, cur, Chosen(offers), rem) && DistinctIds(rem)
    ensures var slate := Greedy(scoring, count, rem, offers, cur, Live(l, now));
            Recorded(l, st, slate.state, Chosen(slate.offers), [])
    decreases |rem|
  {
    hide Adjusted;
    hide Pick;
    hide Chosen;
    hide ReserveAt;
    hide Reserved;
    StaysRecorded(l, st, cur, Chosen(offers), rem);
    hide Recorded;
    if |Chosen(offers)| < count && rem != [] {
      var i := Pick(scoring, Chosen(offers), rem);
      var answer := Live(l, now)(cur, rem[i].id);
      var o := Offer(rem[i], Adjusted(scoring, Chosen(offers), rem[i]), answer.0);
      RecordOne(l, st, cur, Chosen(offers), rem, i, now, RankedOf(o));
      ChosenSnoc(offers, o);
      RemoveKeepsDistinct(rem, i);
      Unpack(l, st, cur, Chosen(offers), rem);
      LiveRecords(l, st, answer.1, now, scoring, count, RemoveAt(rem, i), offers + [o]);
    }
  }

  lemma StaysRecorded(l: Layout, st: Store, cur: Store, chosen: seq<Ranked>, rem: seq<Candidate>)
    requires Recorded(l, st, cur, chosen, rem)
    ensures Recorded(l, st, cur, chosen, [])
  {
  }

  lemma Unpack(l: Layout, st: Store, cur: Store, chosen: seq<Ranked>, rem: seq<Candidate>)
    requires Recorded(l, st, cur, chosen, rem)
    ensures Closed(l, st) && Closed(l, cur)
  {
  }

  lemma NothingRecorded(l: Layout, st: Store, rem: seq<Candidate>)
    requires Closed(l, st)
    ensures Recorded(l, st, st, [], rem)
  {
  }

  /** A recording request charges every item it returns once, and nothing else;
      refused candidates cost nothing. */
  lemma {:induction false} LiveChargesWhatItReturns(l: Layout, st: Store, now: u64, scoring: Scoring, count: nat,
                                                    shortlist: seq<Candidate>)
    requires Closed(l, st) && DistinctIds(shortlist)
    ensures var slate := Greedy(scoring, count, shortlist, [], st, Live(l, now));
            && Closed(l, slate.state)
            && (forall id :: Times(Chosen(slate.offers), id) <= 1)
            && (forall id :: ShowsOf(l, slate.state, id) == ShowsOf(l, st, id) + Times(Chosen(slate.offers), id))
            && slate.state.allowed == st.allowed + |Chosen(slate.offers)|
  {
    NothingRecorded(l, st, shortlist);
    LiveRecords(l, st, st, now, scoring, count, shortlist, []);
    hide Greedy;
  }

  // -------------------------------------------------------------------------
  // Preview against live
  // -------------------------------------------------------------------------

  /** Every shard has room for the ids among the chosen that are new to it. */
  ghost predicate Fits(l: Layout, st: Store, chosen: seq<Ranked>)
    requires ValidLayout(l) && |st.shards| == l.shardCount
  {
    forall i :: 0 <= i < l.shardCount ==> Size(st, i) + NewIds(l, st, chosen, i) <= PerShard(l)
  }

  lemma {:induction false} NewIdsGrow(l: Layout, st: Store, a: seq<Ranked>, b: seq<Ranked>, i: nat)
    requires ValidLayout(l) && |st.shards| == l.shardCount && a <= b
    ensures NewIds(l, st, a, i) <= NewIds(l, st, b, i)
  {
    if |a| < |b| {
      NewIdsGrow(l, st, a, b[..|b| - 1], i);
    } else {
      assert a == b;
    }
  }

  /** Selection only ever adds to what is chosen. */
  lemma {:induction false} ChosenGrows<S>(scoring: Scoring, count: nat, rem: seq<Candidate>, offers: seq<Offer>,
                                          state: S, accept: (S, u64) -> (bool, S))
    ensures Chosen(offers) <= Chosen(Greedy(scoring, count, rem, offers, state, accept).offers)
    decreases |rem|
  {
    if |Chosen(offers)| < count && rem != [] {
      var i := Pick(scoring, Chosen(offers), rem);
      var answer := accept(state, rem[i].id);
      var o := Offer(rem[i], Adjusted(scoring, Chosen(offers), rem[i]), answer.0);
      ChosenSnoc(offers, o);
      hide Adjusted;
      hide Pick;
      hide Chosen;
      ChosenGrows(scoring, count, RemoveAt(rem, i), offers + [o], answer.1, accept);
    }
  }

  /** With room for what the preview takes, the next reservation is decided as the
      preview decides it. */
  lemma SameDecision(l: Layout, st: Store, cur: Store, chosen: seq<Ranked>, rem: seq<Candidate>, k: nat, now: u64,
                     r: Ranked)
    requires Recorded(l, st, cur, chosen, rem) && k < |rem| && r.id == rem[k].id
    requires CheckAt(l, st, r.id, now) == Allowed ==> Fits(l, st, chosen + [r])
    ensures ReserveAt(l, cur, r.id, now).decision == Allowed <==> CheckAt(l, st, r.id, now) == Allowed
  {
    ReservedEffect(l, st, r.id, now);
    ReservedEffect(l, cur, r.id, now);
    CountsSnoc(l, st, chosen, r);
    var i := ShardOf(l, r.id);
    assert EntryOf(l, cur, r.id) == EntryOf(l, st, r.id);
    assert Size(cur, i) == Size(st, i) + NewIds(l, st, chosen, i);
    if CheckAt(l, st, r.id, now) == Allowed {
      assert Size(st, i) + NewIds(l, st, chosen + [r], i) <= PerShard(l);
    }
    hide Reserved;
    hide ReserveAt;
    hide CheckAt;
    hide NewIds;
    hide Size;
    hide Closed;
    hide DecideTracked;
  }

  lemma FitsLess(l: Layout, st: Store, a: seq<Ranked>, b: seq<Ranked>)
    requires ValidLayout(l) && |st.shards| == l.shardCount && a <= b && Fits(l, st, b)
    ensures Fits(l, st, a)
  {
    forall i | 0 <= i < l.shardCount
      ensures Size(st, i) + NewIds(l, st, a, i) <= PerShard(l)
    {
      NewIdsGrow(l, st, a, b, i);
    }
  }

  lemma {:induction false} LiveFollowsPreview(l: Layout, st: Store, cur: Store, now: u64, scoring: Scoring, count: nat,
                                              rem: seq<Candidate>, offers: seq<Offer>)
    requires Recorded(l, st, cur, Chosen(offers), rem) && DistinctIds(rem)
    requires StoreInv(l, st) && Fits(l, st, Chosen(Greedy(scoring, count, rem, offers, st, Dry(l, now)).offers))
    ensures Greedy(scoring, count, rem, offers, cur, Live(l, now)).offers
         == Greedy(scoring, count, rem, offers, st, Dry(l, now)).offers
    decreases |rem|
  {
    if |Chosen(offers)| < count && rem != [] {
      var i := Pick(scoring, Chosen(offers), rem);
      var planned := Dry(l, now)(st, rem[i].id);
      var answer := Live(l, now)(cur, rem[i].id);
      var o := Offer(rem[i], Adjusted(scoring, Chosen(offers), rem[i]), planned.0);
      var final := Chosen(Greedy(scoring, count, rem, offers, st, Dry(l, now)).offers);
      ChosenSnoc(offers, o);
      Unpack(l, st, cur, Chosen(offers), rem);
      assert final == Chosen(Greedy(scoring, count, RemoveAt(rem, i), offers + [o], st, Dry(l, now)).offers);
      if planned.0 {
        ChosenGrows(scoring, count, RemoveAt(rem, i), offers + [o], st, Dry(l, now));
        FitsLess(l, st, Chosen(offers) + [RankedOf(o)], final);
      }
      SameDecision(l, st, cur, Chosen(offers), rem, i, now, RankedOf(o));
      RecordOne(l, st, cur, Chosen(offers), rem, i, now, RankedOf(o));
      RemoveKeepsDistinct(rem, i);
      hide Recorded;
      hide Adjusted;
      hide Pick;
      hide Chosen;
      hide Fits;
      hide StoreInv;
      LiveFollowsPreview(l, st, answer.1, now, scoring, count, RemoveAt(rem, i), offers + [o]);
    }
  }

  /** Fail-closed, from the same state and instant, the recording slate is the
      preview's exactly when every shard of the store has room for the previewed
      items that are new to it; for the recorded ones it always has. */
  lemma {:induction false} PreviewIsLiveIff(l: Layout, st: Store, now: u64, scoring: Scoring, count: nat,
                                            shortlist: seq<Candidate>)
    requires Closed(l, st) && DistinctIds(shortlist)
    ensures var preview := Chosen(Greedy(scoring, count, shortlist, [], st, Dry(l, now)).offers);
            var live := Chosen(Greedy(scoring, count, shortlist, [], st, Live(l, now)).offers);
            Fits(l, st, live) && (live == preview <==> Fits(l, st, preview))
  {
    NothingRecorded(l, st, shortlist);
    var preview := Chosen(Greedy(scoring, count, shortlist, [], st, Dry(l, now)).offers);
    if Fits(l, st, preview) {
      LiveFollowsPreview(l, st, st, now, scoring, count, shortlist, []);
    }
    LiveRecords(l, st, st, now, scoring, count, shortlist, []);
    var slate := Greedy(scoring, count, shortlist, [], st, Live(l, now));
    WhatIsRecordedFits(l, st, slate.state, Chosen(slate.offers));
  }

  lemma WhatIsRecordedFits(l: Layout, st: Store, cur: Store, chosen: seq<Ranked>)
    requires Recorded(l, st, cur, chosen, [])
    ensures Fits(l, st, chosen)
  {
    forall i | 0 <= i < l.shardCount
      ensures Size(st, i) + NewIds(l, st, chosen, i) <= PerShard(l)
    {
      assert Size(cur, i) == Size(st, i) + NewIds(l, st, chosen, i);
      assert ShardOk(l, i, cur.shards[i]);
    }
  }

  // -------------------------------------------------------------------------
  // Room for the whole shortlist, and too little room
  // -------------------------------------------------------------------------

  /** Ids of the shortlist that are new to a shard of the store. */
  function NewTo(l: Layout, st: Store, rem: seq<Candidate>, i: nat): nat
    requires ValidLayout(l) && |st.shards| == l.shardCount
  {
    if rem == [] then 0 else NewTo(l, st, rem[1..], i) + OneNew(l, st, rem[0].id, i)
  }

  function OneNew(l: Layout, st: Store, id: ItemId, i: nat): nat
    requires ValidLayout(l) && |st.shards| == l.shardCount
  {
    if ShardOf(l, id) == i && EntryOf(l, st, id).None? then 1 else 0
  }

  lemma {:induction false} NewToRemove(l: Layout, st: Store, rem: seq<Candidate>, k: nat, i: nat)
    requires ValidLayout(l) && |st.shards| == l.shardCount && k < |rem|
    ensures NewTo(l, st, rem, i) == NewTo(l, st, RemoveAt(rem, k), i) + OneNew(l, st, rem[k].id, i)
  {
    hide OneNew;
    if k == 0 {
      assert RemoveAt(rem, 0) == rem[1..];
    } else {
      NewToRemove(l, st, rem[1..], k - 1, i);
      assert RemoveAt(rem, k)[1..] == RemoveAt(rem[1..], k - 1);
    }
  }

  /** A shard with room for all its newcomers, or with room for none. */
  ghost predicate RoomOrFull(l: Layout, st: Store, chosen: seq<Ranked>, rem: seq<Candidate>, i: nat)
    requires ValidLayout(l) && |st.shards| == l.shardCount && i < l.shardCount
  {
    || Size(st, i) + NewIds(l, st, chosen, i) + NewTo(l, st, rem, i) <= PerShard(l)
    || (Size(st, i) == PerShard(l) && NewIds(l, st, chosen, i) == 0)
  }

  lemma RoomOrFullStep(l: Layout, st: Store, chosen: seq<Ranked>, rem: seq<Candidate>, k: nat, now: u64, r: Ranked,
                       i: nat)
    requires Closed(l, st) && i < l.shardCount && RoomOrFull(l, st, chosen, rem, i) && k < |rem| && r.id == rem[k].id
    ensures RoomOrFull(l, st, chosen, RemoveAt(rem, k), i)
    ensures CheckAt(l, st, r.id, now) == Allowed ==> RoomOrFull(l, st, chosen + [r], RemoveAt(rem, k), i)
  {
    NewToRemove(l, st, rem, k, i);
    CountsSnoc(l, st, chosen, r);
    ReservedEffect(l, st, r.id, now);
    hide NewTo;
    hide NewIds;
    hide Reserved;
    hide ReserveAt;
    hide CheckAt;
    hide StoreInv;
    hide Size;
  }

  lemma {:induction false} PreviewKeepsRoom(l: Layout, st: Store, now: u64, scoring: Scoring, count: nat,
                                            rem: seq<Candidate>, offers: seq<Offer>, i: nat)
    requires Closed(l, st) && i < l.shardCount && RoomOrFull(l, st, Chosen(offers), rem, i)
    ensures var chosen := Chosen(Greedy(scoring, count, rem, offers, st, Dry(l, now)).offers);
            Size(st, i) + NewIds(l, st, chosen, i) <= PerShard(l)
    decreases |rem|
  {
    if |Chosen(offers)| < count && rem != [] {
      var k := Pick(scoring, Chosen(offers), rem);
      var planned := Dry(l, now)(st, rem[k].id);
      var o := Offer(rem[k], Adjusted(scoring, Chosen(offers), rem[k]), planned.0);
      RoomOrFullStep(l, st, Chosen(offers), rem, k, now, RankedOf(o), i);
      ChosenSnoc(offers, o);
      hide RoomOrFull;
      hide Adjusted;
      hide Pick;
      hide Chosen;
      PreviewKeepsRoom(l, st, now, scoring, count, RemoveAt(rem, k), offers + [o], i);
    }
  }

  /** So a caller need not run the preview to know: it is enough that each shard
      has room for its share of the shortlist, or has none at all. */
  lemma {:induction false} RoomMakesPreviewLive(l: Layout, st: Store, now: u64, scoring: Scoring, count: nat,
                                                shortlist: seq<Candidate>)
    requires Closed(l, st) && DistinctIds(shortlist)
    requires forall i :: 0 <= i < l.shardCount ==>
                           Size(st, i) + NewTo(l, st, shortlist, i) <= PerShard(l) || Size(st, i) == PerShard(l)
    ensures Chosen(Greedy(scoring, count, shortlist, [], st, Live(l, now)).offers)
         == Chosen(Greedy(scoring, count, shortlist, [], st, Dry(l, now)).offers)
  {
    var preview := Chosen(Greedy(scoring, count, shortlist, [], st, Dry(l, now)).offers);
    forall i | 0 <= i < l.shardCount
      ensures Size(st, i) + NewIds(l, st, preview, i) <= PerShard(l)
    {
      assert RoomOrFull(l, st, [], shortlist, i);
      PreviewKeepsRoom(l, st, now, scoring, count, shortlist, [], i);
    }
    PreviewIsLiveIff(l, st, now, scoring, count, shortlist);
  }

  lemma {:induction false} TwoPreviewed(l: Layout, st: Store, now: u64, scoring: Scoring, rem: seq<Candidate>)
    requires |rem| == 2 && forall id :: Dry(l, now)(st, id).0
    ensures |Chosen(Greedy(scoring, 2, rem, [], st, Dry(l, now)).offers)| == 2
  {
    hide Pick;
    hide Adjusted;
    var i := Pick(scoring, [], rem);
    var o := Offer(rem[i], Adjusted(scoring, [], rem[i]), true);
    var rest := RemoveAt(rem, i);
    ChosenSnoc([], o);
    assert [] + [o] == [o];
    var j := Pick(scoring, Chosen([o]), rest);
    var p := Offer(rest[j], Adjusted(scoring, Chosen([o]), rest[j]), true);
    ChosenSnoc([o], p);
    assert Greedy(scoring, 2, rem, [], st, Dry(l, now)) == Greedy(scoring, 2, rest, [o], st, Dry(l, now));
    assert Greedy(scoring, 2, rest, [o], st, Dry(l, now))
        == Greedy(scoring, 2, RemoveAt(rest, j), [o] + [p], st, Dry(l, now));
  }

  lemma {:induction false} AllNew(l: Layout, st: Store, chosen: seq<Ranked>)
    requires ValidLayout(l) && l.shardCount == 1 && st == Fresh(l)
    ensures NewIds(l, st, chosen, 0) == |chosen|
  {
    if chosen != [] { AllNew(l, st, chosen[..|chosen| - 1]); }
  }

  /** With room for only some of them the two slates differ: a store with one slot,
      nothing tracked yet, and any two items to show. */
  lemma PartialRoomBreaksPreview(hash: ItemId -> nat, c: Config, now: u64, scoring: Scoring, shortlist: seq<Candidate>)
    returns (l: Layout)
    requires c.maxTracked == 1 && !c.failOpen && |shortlist| == 2 && DistinctIds(shortlist)
    ensures ValidLayout(l) && l.c == c && Closed(l, Fresh(l))
    ensures Chosen(Greedy(scoring, 2, shortlist, [], Fresh(l), Live(l, now)).offers)
         != Chosen(Greedy(scoring, 2, shortlist, [], Fresh(l), Dry(l, now)).offers)
  {
    l := Layout(c, 1, hash);
    OneIsAPower();
    var st := Fresh(l);
    RunKeepsInv(l, []);
    PreviewIsLiveIff(l, st, now, scoring, 2, shortlist);
    forall id
      ensures Dry(l, now)(st, id).0
    {
      assert CheckAt(l, st, id, now) == Allowed;
    }
    TwoPreviewed(l, st, now, scoring, shortlist);
    AllNew(l, st, Chosen(Greedy(scoring, 2, shortlist, [], st, Dry(l, now)).offers));
  }

  lemma OneIsAPower()
    ensures HasSingleBit(1)
  {
  }
}
