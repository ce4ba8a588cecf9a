/** Runs of the compliance store in either mode, with eviction, `forget` and
    `clear`: what is promised of an item from the moment it is tracked until it
    is dropped, and where the shows of dropped items go. */
module PolicyTracking {
  import opened Words
  import opened Policy
  import opened PolicyItems
  import opened PolicyRuns
  import opened SlidingWindow

  // -------------------------------------------------------------------------
  // One item while it is tracked
  // -------------------------------------------------------------------------

  /** The attempts on `id` since it was last tracked, oldest first. */
  function Tenure(l: Layout, ops: seq<Op>, id: ItemId): seq<nat>
    requires ValidLayout(l)
  {
    if ops == [] || EntryOf(l, Run(l, ops), id).None? then []
    else
      var n := |ops| - 1;
      var before := Tenure(l, ops[..n], id);
      if IsAttempt(ops[n], id) then before + [ops[n].now] else before
  }

  /** The allowed ones among them. */
  function TenureShows(l: Layout, ops: seq<Op>, id: ItemId): seq<nat>
    requires ValidLayout(l)
  {
    if ops == [] || EntryOf(l, Run(l, ops), id).None? then []
    else
      var n := |ops| - 1;
      var before := TenureShows(l, ops[..n], id);
      if IsAttempt(ops[n], id) && LastVerdict(l, ops) == Allowed then before + [ops[n].now] else before
  }

  /** A step either charges or refuses `id` by its own counters, or leaves it as
      it is, or drops it. */
  ghost predicate StepsOrDrops(c: Config, e: Option<Entry>, e': Option<Entry>, op: Op, id: ItemId, d: Decision) {
    if IsAttempt(op, id) then StepsTo(c, e, e', op, id, d) else e' == e || e' == None
  }

  lemma ReserveStepsOrDrops(c: Config, cap: nat, s: Shard, id: ItemId, now: nat)
    requires ShardInv(c, cap, s) && 0 < cap
    ensures var o := Reserve(c, cap, s, id, now);
            && (forall x :: x in o.shard.entries && x != id ==> x in s.entries && o.shard.entries[x] == s.entries[x])
            && (if id in s.entries then
                  && o.decision == DecideTracked(c, s.entries[id], now)
                  && id in o.shard.entries && o.shard.entries[id] == Advanced(c, s.entries[id], now)
                else if o.decision == StoreFull then
                  id !in o.shard.entries
                else
                  && o.decision == Allowed
                  && id in o.shard.entries && o.shard.entries[id] == Charged(c, FreshEntry(c, now), now))
  {
    if id in s.entries {
      ReserveTrackedEffect(c, s, id, now);
    } else if |s.entries| < cap {
      TrackAndChargeKeepsInv(c, cap, s, id, now, 0);
    } else if c.failOpen {
      FullShardHasVictim(c, cap, s);
      EvictKeepsRecency(c, cap, s);
      TrackAndChargeKeepsInv(c, cap, EvictOne(s), id, now, 1);
    }
  }

  function Verdict(l: Layout, st: Store, op: Op): Decision
    requires ValidLayout(l) && |st.shards| == l.shardCount
  {
    if op.OpReserve? then ReserveAt(l, st, op.id, op.now).decision else Allowed
  }

  lemma StepOfAny(l: Layout, st: Store, op: Op, id: ItemId)
    requires StoreInv(l, st)
    ensures StepsOrDrops(l.c, EntryOf(l, st, id), EntryOf(l, Apply(l, st, op), id), op, id, Verdict(l, st, op))
  {
    hide Reserve;
    hide ShardInv;
    PerShardPositive(l);
    if op.OpReserve? {
      ReserveStepsOrDrops(l.c, PerShard(l), st.shards[ShardOf(l, op.id)], op.id, op.now);
    }
  }

  lemma {:induction false} TenureStep(c: Config, e: Option<Entry>, e': Option<Entry>, times: seq<nat>, log: seq<nat>,
                                      op: Op, id: ItemId, d: Decision)
    requires Follow(c, times) == History(e, log) && StepsOrDrops(c, e, e', op, id, d) && e'.Some?
    ensures IsAttempt(op, id) ==>
              Follow(c, times + [op.now]) == History(e', if d == Allowed then log + [op.now] else log)
    ensures !IsAttempt(op, id) ==> e' == e
  {
    if IsAttempt(op, id) {
      assert (times + [op.now])[..|times|] == times;
      FollowCountsShows(c, times);
      if e.None? { FreshIsAdmitted(c, op.now); }
    }
  }

  /** In either mode, after any operations, an item's counters and its shows since
      it was last tracked are a function of its own attempts since then. */
  lemma {:induction false} TenureIsIndependent(l: Layout, ops: seq<Op>, id: ItemId)
    requires ValidLayout(l)
    ensures Follow(l.c, Tenure(l, ops, id)) == History(EntryOf(l, Run(l, ops), id), TenureShows(l, ops, id))
  {
    hide Apply;
    hide ReserveAt;
    if ops != [] {
      var n := |ops| - 1;
      TenureIsIndependent(l, ops[..n], id);
      RunKeepsInv(l, ops[..n]);
      var st := Run(l, ops[..n]);
      StepOfAny(l, st, ops[n], id);
      if EntryOf(l, Run(l, ops), id).Some? {
        TenureStep(l.c, EntryOf(l, st, id), EntryOf(l, Run(l, ops), id), Tenure(l, ops[..n], id),
                   TenureShows(l, ops[..n], id), ops[n], id, Verdict(l, st, ops[n]));
      }
    }
  }

  /** They are the latest of its shows ... */
  lemma {:induction false} TenureIsLatest(l: Layout, ops: seq<Op>, id: ItemId)
    requires ValidLayout(l)
    ensures var all, since := Shows(l, ops, id), TenureShows(l, ops, id);
            |since| <= |all| && since == all[|all| - |since|..]
  {
    hide Apply;
    hide ReserveAt;
    if ops != [] {
      TenureIsLatest(l, ops[..|ops| - 1], id);
    }
  }

  lemma {:induction false} TenureIsMillis(l: Layout, ops: seq<Op>, id: ItemId)
    requires ValidLayout(l)
    ensures Millis(Tenure(l, ops, id))
  {
    hide Apply;
    if ops != [] { TenureIsMillis(l, ops[..|ops| - 1], id); }
  }

  /** ... and what eviction cannot take away: within them the cap is exact, and
      with a forward clock the window limits hold as they do fail-closed. */
  lemma {:induction false} LimitsHoldWhileTracked(l: Layout, ops: seq<Op>, id: ItemId, a: int, aligned: nat)
    requires ValidLayout(l)
    ensures l.c.exposureCap > 0 ==> |TenureShows(l, ops, id)| <= l.c.exposureCap
    ensures EntryOf(l, Run(l, ops), id).Some? ==>
              EntryOf(l, Run(l, ops), id).value.shows == |TenureShows(l, ops, id)|
    ensures l.c.window > 0 && l.c.frequencyLimit > 0 && aligned % l.c.window == 0 && Forward(Tenure(l, ops, id)) ==>
              WithinLimits(TenureShows(l, ops, id), l.c.frequencyLimit, l.c.window, a, aligned)
  {
    hide Run;
    hide Tenure;
    hide TenureShows;
    hide WithinLimits;
    TenureIsIndependent(l, ops, id);
    FollowCountsShows(l.c, Tenure(l, ops, id));
    if l.c.window > 0 && l.c.frequencyLimit > 0 && aligned % l.c.window == 0 && Forward(Tenure(l, ops, id)) {
      TenureIsMillis(l, ops, id);
      FollowIsAdmitted(l.c, Tenure(l, ops, id));
      AdmittedIsWithinLimits(TenureShows(l, ops, id), l.c.frequencyLimit, l.c.window, a, aligned);
    }
  }

  lemma ReserveEvicts(c: Config, cap: nat, s: Shard, id: ItemId, now: nat)
    requires ShardInv(c, cap, s) && 0 < cap
    ensures var o := Reserve(c, cap, s, id, now);
            o.evicted == 0 ==> s.entries.Keys <= o.shard.entries.Keys
  {
    if id in s.entries {
      ReserveTrackedEffect(c, s, id, now);
    } else if |s.entries| < cap {
      TrackAndChargeKeepsInv(c, cap, s, id, now, 0);
    } else if c.failOpen {
      FullShardHasVictim(c, cap, s);
      ReserveTrackedIgnoresTally(c, Track(c, EvictOne(s), id, now), id, now);
    }
  }

  lemma StepEvicts(l: Layout, st: Store, op: Op, id: ItemId)
    requires StoreInv(l, st) && (op.OpReserve? || op.OpCheck?)
    ensures st.evicted <= Apply(l, st, op).evicted
    ensures Apply(l, st, op).evicted == st.evicted && EntryOf(l, st, id).Some? ==>
              EntryOf(l, Apply(l, st, op), id).Some?
  {
    hide Reserve;
    hide ShardInv;
    PerShardPositive(l);
    if op.OpReserve? {
      ReserveEvicts(l.c, PerShard(l), st.shards[ShardOf(l, op.id)], op.id, op.now);
    }
  }

  /** Until the exported eviction count moves, an item's shows are all on record,
      so under fail-open too the cap is a cap for the item's lifetime. */
  lemma {:induction false} NothingForgottenUntilEviction(l: Layout, ops: seq<Op>, id: ItemId)
    requires ValidLayout(l) && NoReset(ops) && Run(l, ops).evicted == 0
    ensures TenureShows(l, ops, id) == Shows(l, ops, id)
  {
    hide Apply;
    hide ReserveAt;
    if ops != [] {
      var n := |ops| - 1;
      RunKeepsInv(l, ops[..n]);
      var st := Run(l, ops[..n]);
      StepEvicts(l, st, ops[n], id);
      NothingForgottenUntilEviction(l, ops[..n], id);
      StepOfAny(l, st, ops[n], id);
    }
  }

  // -------------------------------------------------------------------------
  // Where the shows of dropped items go
  // -------------------------------------------------------------------------

  /** The shows of the items a shard no longer tracks. */
  ghost function Dropped(s: Shard, s': Shard): nat {
    SumShows(s.entries - s'.entries.Keys)
  }

  /** The shows a step forgets: those of every item it stops tracking. */
  ghost function Lost(l: Layout, st: Store, op: Op): nat
    requires ValidLayout(l) && |st.shards| == l.shardCount
  {
    match op
    case OpClear => TotalShows(st.shards)
    case OpCheck(_, _) => 0
    case OpReserve(id, _) => Dropped(st.shards[ShardOf(l, id)], Apply(l, st, op).shards[ShardOf(l, id)])
    case OpForget(id) => Dropped(st.shards[ShardOf(l, id)], Apply(l, st, op).shards[ShardOf(l, id)])
  }

  ghost function Forgotten(l: Layout, ops: seq<Op>): nat
    requires ValidLayout(l)
  {
    if ops == [] then 0
    else Forgotten(l, ops[..|ops| - 1]) + Lost(l, Run(l, ops[..|ops| - 1]), ops[|ops| - 1])
  }

  lemma KeptDropsNothing(m: map<ItemId, Entry>, m': map<ItemId, Entry>)
    requires m.Keys <= m'.Keys
    ensures SumShows(m - m'.Keys) == 0
  {
    assert m - m'.Keys == map[];
  }

  lemma {:induction false} DroppedOne(m: map<ItemId, Entry>, m': map<ItemId, Entry>, k: ItemId)
    requires k in m && k !in m' && m.Keys - {k} <= m'.Keys
    ensures SumShows(m - m'.Keys) == m[k].shows && SumShows(m) == m[k].shows + SumShows(m - {k})
  {
    var d := m - m'.Keys;
    assert d.Keys == {k} && d[k] == m[k];
    SumShowsPick(d, k);
    assert d - {k} == map[];
    SumShowsPick(m, k);
  }

  lemma ShowsOne(c: Config, now: nat)
    ensures Charged(c, FreshEntry(c, now), now).shows == 1
  {
  }

  lemma EvictionShows(c: Config, cap: nat, s: Shard, id: ItemId, now: nat)
    requires ShardInv(c, cap, s) && 0 < cap && c.failOpen && id !in s.entries && |s.entries| >= cap
    ensures var o := Reserve(c, cap, s, id, now);
            o.decision == Allowed && SumShows(o.shard.entries) + Dropped(s, o.shard) == SumShows(s.entries) + 1
  {
    hide ReserveTracked;
    hide Track;
    hide Charged;
    hide FreshEntry;
    hide SumShows;
    ShowsOne(c, now);
    FullShardHasVictim(c, cap, s);
    EvictKeepsRecency(c, cap, s);
    TrackAndChargeKeepsInv(c, cap, EvictOne(s), id, now, 1);
    var victim := s.recency[|s.recency| - 1];
    assert victim in s.recency;
    var kept := s.entries - {victim};
    SumShowsUpdate(kept, id, Charged(c, FreshEntry(c, now), now));
    DroppedOne(s.entries, kept[id := Charged(c, FreshEntry(c, now), now)], victim);
  }

  /** A reservation moves shows, but loses none uncounted. */
  lemma ReserveConserves(c: Config, cap: nat, s: Shard, id: ItemId, now: nat)
    requires ShardInv(c, cap, s) && 0 < cap
    ensures var o := Reserve(c, cap, s, id, now);
            SumShows(o.shard.entries) + Dropped(s, o.shard)
            == SumShows(s.entries) + if o.decision == Allowed then 1 else 0
  {
    if id in s.entries {
      ReserveTrackedEffect(c, s, id, now);
      SumShowsUpdate(s.entries, id, Advanced(c, s.entries[id], now));
      KeptDropsNothing(s.entries, s.entries[id := Advanced(c, s.entries[id], now)]);
    } else if |s.entries| < cap {
      TrackAndChargeKeepsInv(c, cap, s, id, now, 0);
      SumShowsUpdate(s.entries, id, Charged(c, FreshEntry(c, now), now));
      KeptDropsNothing(s.entries, s.entries[id := Charged(c, FreshEntry(c, now), now)]);
    } else if c.failOpen {
      EvictionShows(c, cap, s, id, now);
    } else {
      KeptDropsNothing(s.entries, s.entries);
    }
  }

  lemma ForgetConserves(s: Shard, id: ItemId)
    ensures SumShows(Forget(s, id).entries) + Dropped(s, Forget(s, id)) == SumShows(s.entries)
  {
    var m := s.entries - {id};
    if id in s.entries {
      DroppedOne(s.entries, m, id);
    } else {
      assert m == s.entries;
      KeptDropsNothing(s.entries, m);
    }
  }

  lemma StepConserves(l: Layout, st: Store, op: Op)
    requires StoreInv(l, st)
    ensures var st' := Apply(l, st, op);
            st'.allowed - st.allowed == TotalShows(st'.shards) + Lost(l, st, op) - TotalShows(st.shards)
  {
    hide Reserve;
    hide Dropped;
    PerShardPositive(l);
    match op
    case OpReserve(id, now) =>
      var i := ShardOf(l, id);
      ReserveConserves(l.c, PerShard(l), st.shards[i], id, now);
      TotalShowsUpdate(st.shards, i, ReserveAt(l, st, id, now).shard);
    case OpForget(id) =>
      var i := ShardOf(l, id);
      ForgetConserves(st.shards[i], id);
      TotalShowsUpdate(st.shards, i, Forget(st.shards[i], id));
    case OpClear =>
      FreshShows(l.shardCount);
    case OpCheck(_, _) =>
  }

  /** In either mode and over any run, every allowed show is either on the record
      of a tracked item or was forgotten with an item that was dropped. */
  lemma {:induction false} AllowedIsTrackedPlusForgotten(l: Layout, ops: seq<Op>)
    requires ValidLayout(l)
    ensures Run(l, ops).allowed == TotalShows(Run(l, ops).shards) + Forgotten(l, ops)
  {
    hide Apply;
    hide Lost;
    if ops == [] {
      FreshShows(l.shardCount);
    } else {
      var n := |ops| - 1;
      AllowedIsTrackedPlusForgotten(l, ops[..n]);
      RunKeepsInv(l, ops[..n]);
      StepConserves(l, Run(l, ops[..n]), ops[n]);
    }
  }
}
