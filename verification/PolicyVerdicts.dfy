/** What every answer of the compliance store means in terms of the operations
    before it, in either mode and with `forget` and `clear`: which verdict an
    attempt gets, what the counters count, which items are tracked, and which one
    leaves when a full shard takes in a new one. */
module PolicyVerdicts {
  import opened Words
  import opened Arith
  import opened Lists
  import opened Policy
  import opened PolicyItems
  import opened PolicyRuns
  import opened PolicyTracking
  import opened SlidingWindow

  // -------------------------------------------------------------------------
  // What the counters count
  // -------------------------------------------------------------------------

  /** How many reservations of the run were decided this way. */
  function Verdicts(l: Layout, ops: seq<Op>, d: Decision): nat
    requires ValidLayout(l)
  {
    if ops == [] then 0
    else
      var n := |ops| - 1;
      Verdicts(l, ops[..n], d) + if ops[n].OpReserve? && LastVerdict(l, ops) == d then 1 else 0
  }

  /** Each counter is the number of reservations that got its verdict. */
  lemma {:induction false} CountersAreVerdicts(l: Layout, ops: seq<Op>)
    requires ValidLayout(l)
    ensures var st := Run(l, ops);
            && st.allowed == Verdicts(l, ops, Allowed)
            && st.exposureBlocked == Verdicts(l, ops, ExposureCapReached)
            && st.frequencyBlocked == Verdicts(l, ops, FrequencyLimited)
            && st.storeFull == Verdicts(l, ops, StoreFull)
  {
    hide ReserveAt;
    if ops != [] { CountersAreVerdicts(l, ops[..|ops| - 1]); }
  }

  // -------------------------------------------------------------------------
  // When an item was last shown, and last dropped on purpose
  // -------------------------------------------------------------------------

  /** The position of the last attempt on `id` that was allowed; -1 if none. */
  function LastAllowed(l: Layout, ops: seq<Op>, id: ItemId): int
    requires ValidLayout(l)
  {
    if ops == [] then -1
    else
      var n := |ops| - 1;
      if IsAttempt(ops[n], id) && LastVerdict(l, ops) == Allowed then n else LastAllowed(l, ops[..n], id)
  }

  /** The position of the last `forget` of `id` or `clear`; -1 if none. */
  function LastReset(ops: seq<Op>, id: ItemId): int {
    if ops == [] then -1
    else
      var n := |ops| - 1;
      if ops[n].OpClear? || ops[n] == OpForget(id) then n else LastReset(ops[..n], id)
  }

  lemma {:induction false} LastsBound(l: Layout, ops: seq<Op>, id: ItemId)
    requires ValidLayout(l)
    ensures -1 <= LastAllowed(l, ops, id) < |ops| && -1 <= LastReset(ops, id) < |ops|
  {
    hide Run;
    hide ReserveAt;
    if ops != [] { LastsBound(l, ops[..|ops| - 1], id); }
  }

  /** `forget` and `clear` drop what they name and nothing else. */
  lemma ResetsDrop(l: Layout, st: Store, op: Op, id: ItemId)
    requires StoreInv(l, st) && (op.OpForget? || op.OpClear?)
    ensures EntryOf(l, Apply(l, st, op), id) == if op.OpClear? || op.id == id then None else EntryOf(l, st, id)
  {
    hide ShardInv;
  }

  lemma CheckChangesNothing(l: Layout, st: Store, op: Op)
    requires ValidLayout(l) && |st.shards| == l.shardCount && op.OpCheck?
    ensures Apply(l, st, op) == st
  {
  }

  /** A tracked item was allowed after it was last dropped on purpose; fail-closed,
      those are exactly the tracked ones. */
  lemma {:induction false} TrackedMeansShown(l: Layout, ops: seq<Op>, id: ItemId)
    requires ValidLayout(l)
    ensures EntryOf(l, Run(l, ops), id).Some? ==> LastAllowed(l, ops, id) > LastReset(ops, id)
    ensures !l.c.failOpen ==>
              (EntryOf(l, Run(l, ops), id).Some? <==> LastAllowed(l, ops, id) > LastReset(ops, id))
  {
    hide Apply;
    hide ReserveAt;
    hide EntryOf;
    if ops == [] {
      NothingTracked(l, id);
    } else {
      var n := |ops| - 1;
      TrackedMeansShown(l, ops[..n], id);
      LastsBound(l, ops[..n], id);
      RunKeepsInv(l, ops[..n]);
      var st := Run(l, ops[..n]);
      if ops[n].OpForget? || ops[n].OpClear? {
        ResetsDrop(l, st, ops[n], id);
      } else {
        StepOfAny(l, st, ops[n], id);
        if !l.c.failOpen { StepOfItem(l, st, ops[n], id); }
        if ops[n].OpCheck? { CheckChangesNothing(l, st, ops[n]); }
      }
    }
  }

  lemma {:induction false} NothingTracked(l: Layout, id: ItemId)
    requires ValidLayout(l)
    ensures EntryOf(l, Run(l, []), id) == None
  {
  }

  // -------------------------------------------------------------------------
  // Which item leaves
  // -------------------------------------------------------------------------

  /** Latest show first. */
  ghost predicate LatestFirst(l: Layout, ops: seq<Op>, ids: seq<ItemId>)
    requires ValidLayout(l)
  {
    forall i, j :: 0 <= i < j < |ids| ==> LastAllowed(l, ops, ids[i]) > LastAllowed(l, ops, ids[j])
  }

  lemma {:induction false} WithoutInOrder(l: Layout, ops: seq<Op>, ids: seq<ItemId>, x: ItemId)
    requires ValidLayout(l) && LatestFirst(l, ops, ids)
    ensures LatestFirst(l, ops, Without(ids, x))
  {
    hide LastAllowed;
    if ids != [] {
      WithoutInOrder(l, ops, ids[1..], x);
      var rest := Without(ids[1..], x);
      forall j | 0 <= j < |rest| ensures LastAllowed(l, ops, ids[0]) > LastAllowed(l, ops, rest[j]) {
        assert rest[j] in rest;
        var k :| 0 <= k < |ids[1..]| && ids[1..][k] == rest[j];
        assert ids[k + 1] == rest[j];
      }
    }
  }

  /** What a reservation does to the order in which a fail-open shard would evict. */
  lemma {:induction false} ReserveReorders(c: Config, cap: nat, s: Shard, id: ItemId, now: nat)
    requires c.failOpen && ShardInv(c, cap, s) && 0 < cap
    ensures var o, n := Reserve(c, cap, s, id, now), |s.recency|;
            if o.decision != Allowed then o.shard.recency == s.recency
            else if id in s.entries || |s.entries| < cap then o.shard.recency == [id] + Without(s.recency, id)
            else n > 0 && o.shard.recency == [id] + Without(s.recency[..n - 1], id)
  {
    if id in s.entries {
    } else if |s.entries| < cap {
      FreshIsAdmitted(c, now);
      WithoutAbsent(s.recency, id);
    } else {
      FullShardHasVictim(c, cap, s);
      FreshIsAdmitted(c, now);
      var kept := s.recency[..|s.recency| - 1];
      assert forall x :: x in kept ==> x in s.recency;
      WithoutAbsent(kept, id);
    }
  }

  /** Only an allowed attempt changes when its own item was last shown. */
  lemma {:induction false} StepOfLastAllowed(l: Layout, ops: seq<Op>, op: Op, x: ItemId)
    requires ValidLayout(l)
    ensures var d := Verdict(l, Run(l, ops), op);
            LastAllowed(l, ops + [op], x)
            == if IsAttempt(op, x) && d == Allowed then |ops| else LastAllowed(l, ops, x)
  {
    hide Run;
    hide ReserveAt;
    assert (ops + [op])[..|ops|] == ops;
  }

  lemma {:induction false} FrontInOrder(l: Layout, ops: seq<Op>, op: Op, ids: seq<ItemId>, id: ItemId)
    requires ValidLayout(l) && LatestFirst(l, ops, ids) && IsAttempt(op, id)
    requires Verdict(l, Run(l, ops), op) == Allowed
    ensures LatestFirst(l, ops + [op], [id] + Without(ids, id))
  {
    hide LastAllowed;
    hide Verdict;
    hide Run;
    WithoutInOrder(l, ops, ids, id);
    StepOfLastAllowed(l, ops, op, id);
    var rest := Without(ids, id);
    forall j | 0 <= j < |rest| ensures LastAllowed(l, ops + [op], rest[j]) == LastAllowed(l, ops, rest[j]) < |ops| {
      assert rest[j] in rest;
      StepOfLastAllowed(l, ops, op, rest[j]);
      LastsBound(l, ops, rest[j]);
    }
  }

  lemma {:induction false} StaysInOrder(l: Layout, ops: seq<Op>, op: Op, ids: seq<ItemId>)
    requires ValidLayout(l) && LatestFirst(l, ops, ids)
    requires op.OpReserve? ==> op.id !in ids || Verdict(l, Run(l, ops), op) != Allowed
    ensures LatestFirst(l, ops + [op], ids)
  {
    hide LastAllowed;
    hide Run;
    hide ReserveAt;
    forall j | 0 <= j < |ids| ensures LastAllowed(l, ops + [op], ids[j]) == LastAllowed(l, ops, ids[j]) {
      StepOfLastAllowed(l, ops, op, ids[j]);
    }
  }

  lemma {:induction false} ShardReservedInOrder(l: Layout, ops: seq<Op>, op: Op)
    requires ValidLayout(l) && l.c.failOpen && op.OpReserve?
    requires StoreInv(l, Run(l, ops)) && LatestFirst(l, ops, Run(l, ops).shards[ShardOf(l, op.id)].recency)
    ensures LatestFirst(l, ops + [op], ReserveAt(l, Run(l, ops), op.id, op.now).shard.recency)
  {
    hide Run;
    hide LatestFirst;
    hide Reserve;
    var st := Run(l, ops);
    var s := st.shards[ShardOf(l, op.id)];
    assert ShardOk(l, ShardOf(l, op.id), s);
    PerShardPositive(l);
    ReserveReorders(l.c, PerShard(l), s, op.id, op.now);
    if Verdict(l, st, op) != Allowed {
      StaysInOrder(l, ops, op, s.recency);
    } else {
      FrontInOrder(l, ops, op, s.recency, op.id);
      if s.recency != [] {
        PrefixInOrder(l, ops, s.recency);
        FrontInOrder(l, ops, op, s.recency[..|s.recency| - 1], op.id);
      }
    }
  }

  lemma PrefixInOrder(l: Layout, ops: seq<Op>, ids: seq<ItemId>)
    requires ValidLayout(l) && ids != [] && LatestFirst(l, ops, ids)
    ensures LatestFirst(l, ops, ids[..|ids| - 1])
  {
    hide LastAllowed;
  }

  lemma ShardForgottenInOrder(l: Layout, ops: seq<Op>, op: Op, s: Shard)
    requires ValidLayout(l) && op.OpForget? && LatestFirst(l, ops, s.recency)
    ensures LatestFirst(l, ops + [op], Forget(s, op.id).recency)
  {
    hide LastAllowed;
    hide Run;
    WithoutInOrder(l, ops, s.recency, op.id);
    StaysInOrder(l, ops, op, s.recency);
    StaysInOrder(l, ops, op, Without(s.recency, op.id));
  }

  lemma {:induction false} OtherShardsInOrder(l: Layout, ops: seq<Op>, op: Op, i: nat)
    requires ValidLayout(l) && l.c.failOpen && i < l.shardCount && StoreInv(l, Run(l, ops))
    requires LatestFirst(l, ops, Run(l, ops).shards[i].recency)
    requires op.OpCheck? || (op.OpReserve? && ShardOf(l, op.id) != i) || (op.OpForget? && ShardOf(l, op.id) != i)
    ensures LatestFirst(l, ops + [op], Run(l, ops).shards[i].recency)
  {
    hide Run;
    hide LatestFirst;
    var s := Run(l, ops).shards[i];
    assert ShardOk(l, i, s);
    if op.OpReserve? { assert op.id !in s.recency; }
    StaysInOrder(l, ops, op, s.recency);
  }

  lemma {:induction false} RecencyIsHistory(l: Layout, ops: seq<Op>, i: nat)
    requires ValidLayout(l) && l.c.failOpen && i < l.shardCount
    ensures LatestFirst(l, ops, Run(l, ops).shards[i].recency)
  {
    hide LatestFirst;
    hide ReserveAt;
    hide Forget;
    if ops == [] {
      NoneInOrder(l, ops);
    } else {
      var n := |ops| - 1;
      var before, op := ops[..n], ops[n];
      RecencyIsHistory(l, before, i);
      RunKeepsInv(l, before);
      assert before + [op] == ops;
      if op.OpReserve? && ShardOf(l, op.id) == i {
        ShardReservedInOrder(l, before, op);
      } else if op.OpForget? && ShardOf(l, op.id) == i {
        ShardForgottenInOrder(l, before, op, Run(l, before).shards[i]);
      } else if op.OpClear? {
        NoneInOrder(l, ops);
      } else {
        OtherShardsInOrder(l, before, op, i);
      }
    }
  }

  lemma NoneInOrder(l: Layout, ops: seq<Op>)
    requires ValidLayout(l)
    ensures LatestFirst(l, ops, [])
  {
  }

  lemma EvictionEffect(c: Config, cap: nat, s: Shard, id: ItemId, now: nat)
    requires c.failOpen && ShardInv(c, cap, s) && 0 < cap && id !in s.entries && |s.entries| >= cap
    ensures s.recency != []
    ensures var o, victim := Reserve(c, cap, s, id, now), s.recency[|s.recency| - 1];
            && o.decision == Allowed && o.evicted == 1 && victim in s.entries && victim != id
            && o.shard.entries == (s.entries - {victim})[id := Charged(c, FreshEntry(c, now), now)]
  {
    FullShardHasVictim(c, cap, s);
    EvictKeepsRecency(c, cap, s);
    TrackAndChargeKeepsInv(c, cap, EvictOne(s), id, now, 1);
    ReserveTrackedIgnoresTally(c, Track(c, EvictOne(s), id, now), id, now);
    assert s.recency[|s.recency| - 1] in s.recency;
  }

  lemma {:induction false} OldestIsLast(l: Layout, ops: seq<Op>, s: Shard, x: ItemId)
    requires ValidLayout(l) && l.c.failOpen && ShardInv(l.c, PerShard(l), s) && LatestFirst(l, ops, s.recency)
    requires x in s.entries && s.recency != [] && x != s.recency[|s.recency| - 1]
    ensures LastAllowed(l, ops, s.recency[|s.recency| - 1]) < LastAllowed(l, ops, x)
  {
    hide LastAllowed;
    assert x in s.recency;
    var k :| 0 <= k < |s.recency| && s.recency[k] == x;
  }

  /** `x` is tracked in the shard that `id` goes to. */
  ghost predicate Neighbour(l: Layout, st: Store, id: ItemId, x: ItemId)
    requires ValidLayout(l) && |st.shards| == l.shardCount
  {
    EntryOf(l, st, x).Some? && ShardOf(l, x) == ShardOf(l, id)
  }

  /** Fail-open, over any run: a new item that meets a full shard is let in, and the
      one item that leaves for it is the one of that shard whose last show is the
      longest ago. */
  lemma LongestUnshownLeaves(l: Layout, ops: seq<Op>, id: ItemId, now: u64) returns (victim: ItemId)
    requires ValidLayout(l) && l.c.failOpen
    requires EntryOf(l, Run(l, ops), id).None? && ShardIsFull(l, Run(l, ops), id)
    ensures var st, all := Run(l, ops), ops + [OpReserve(id, now)];
            var st' := Run(l, all);
            && LastVerdict(l, all) == Allowed && st'.evicted == st.evicted + 1
            && Neighbour(l, st, id, victim) && EntryOf(l, st', victim) == None && EntryOf(l, st', id).Some?
            && (forall x :: x != victim && x != id ==> EntryOf(l, st', x) == EntryOf(l, st, x))
            && (forall x :: Neighbour(l, st, id, x) && x != victim ==>
                  0 <= LastAllowed(l, ops, victim) < LastAllowed(l, ops, x))
  {
    hide Reserve;
    hide LatestFirst;
    var all := ops + [OpReserve(id, now)];
    assert all[..|ops|] == ops;
    var st, i := Run(l, ops), ShardOf(l, id);
    var s := st.shards[i];
    RunKeepsInv(l, ops);
    assert ShardOk(l, i, s);
    PerShardPositive(l);
    EvictionEffect(l.c, PerShard(l), s, id, now);
    RecencyIsHistory(l, ops, i);
    victim := s.recency[|s.recency| - 1];
    TrackedMeansShown(l, ops, victim);
    LastsBound(l, ops, victim);
    forall x | Neighbour(l, st, id, x) && x != victim
      ensures LastAllowed(l, ops, victim) < LastAllowed(l, ops, x)
    {
      OldestIsLast(l, ops, s, x);
    }
  }

  /** Nothing else ever leaves unasked: a reservation that finds its item tracked, or
      room for it, or a fail-closed store, keeps every other item as it is. */
  lemma {:induction false} NothingElseLeaves(l: Layout, ops: seq<Op>, op: Op, x: ItemId)
    requires ValidLayout(l) && (op.OpReserve? || op.OpCheck?) && !IsAttempt(op, x)
    requires op.OpReserve? && l.c.failOpen ==>
               EntryOf(l, Run(l, ops), op.id).Some? || !ShardIsFull(l, Run(l, ops), op.id)
    ensures EntryOf(l, Run(l, ops + [op]), x) == EntryOf(l, Run(l, ops), x)
    ensures Run(l, ops + [op]).evicted == Run(l, ops).evicted
  {
    hide Run;
    hide Apply;
    hide ShardIsFull;
    hide EntryOf;
    RunKeepsInv(l, ops);
    RunSnoc(l, ops, op);
    StepWithRoom(l, Run(l, ops), op, x);
  }

  lemma StepWithRoom(l: Layout, st: Store, op: Op, x: ItemId)
    requires StoreInv(l, st) && (op.OpReserve? || op.OpCheck?) && !IsAttempt(op, x)
    requires op.OpReserve? && l.c.failOpen ==> EntryOf(l, st, op.id).Some? || !ShardIsFull(l, st, op.id)
    ensures EntryOf(l, Apply(l, st, op), x) == EntryOf(l, st, x) && Apply(l, st, op).evicted == st.evicted
  {
    hide Reserve;
    hide ShardInv;
    hide ShardOf;
    hide PerShard;
    if op.OpReserve? {
      var s := st.shards[ShardOf(l, op.id)];
      assert ShardOk(l, ShardOf(l, op.id), s);
      PerShardPositive(l);
      RoomEvictsNothing(l.c, PerShard(l), s, op.id, op.now);
    }
  }

  lemma RoomEvictsNothing(c: Config, cap: nat, s: Shard, id: ItemId, now: nat)
    requires ShardInv(c, cap, s) && 0 < cap && (c.failOpen ==> id in s.entries || |s.entries| < cap)
    ensures var o := Reserve(c, cap, s, id, now);
            && o.evicted == 0
            && forall x :: x != id ==> (x in o.shard.entries <==> x in s.entries)
                                       && (x in s.entries ==> o.shard.entries[x] == s.entries[x])
  {
    if id in s.entries {
      ReserveTrackedEffect(c, s, id, now);
    } else if |s.entries| < cap {
      TrackAndChargeKeepsInv(c, cap, s, id, now, 0);
    }
  }

  // -------------------------------------------------------------------------
  // Which verdict an attempt gets
  // -------------------------------------------------------------------------

  /** The verdict of an attempt made after these operations. */
  function VerdictNow(l: Layout, ops: seq<Op>, id: ItemId, now: u64): Decision
    requires ValidLayout(l)
  {
    ReserveAt(l, Run(l, ops), id, now).decision
  }

  ghost predicate AtCap(l: Layout, ops: seq<Op>, id: ItemId)
    requires ValidLayout(l)
  {
    0 < l.c.exposureCap <= |TenureShows(l, ops, id)|
  }

  /** One more show now would put the weighted count of this aligned window and the
      one before it, by the shows since the item was last tracked, over the limit. */
  ghost predicate AtLimit(l: Layout, ops: seq<Op>, id: ItemId, now: u64)
    requires ValidLayout(l) && l.c.window > 0
  {
    var w: nat, shows := l.c.window, TenureShows(l, ops, id);
    var start := now - now % w;
    && l.c.frequencyLimit > 0
    && CountIn(shows, start - w, start) * (w - now % w) + (CountIn(shows, start, start + w) + 1) * w
       > l.c.frequencyLimit * w
  }

  lemma ReserveVerdict(c: Config, cap: nat, s: Shard, id: ItemId, now: nat)
    requires ShardInv(c, cap, s) && 0 < cap
    ensures Reserve(c, cap, s, id, now).decision
         == if id in s.entries then DecideTracked(c, s.entries[id], now)
            else if |s.entries| >= cap && !c.failOpen then StoreFull
            else Allowed
  {
    CheckIsReserveDecision(c, cap, s, id, now);
  }

  lemma LimitByCounters(c: Config, h: History, last: nat, now: u64)
    requires c.window > 0 && c.frequencyLimit > 0 && WindowInv(c, h, last) && last <= now && h.entry.Some?
    ensures var w: nat, start := c.window, now - now % c.window;
            OverLimit(c, Roll(c, h.entry.value, now), now) <==>
            CountIn(h.log, start - w, start) * (w - now % w) + (CountIn(h.log, start, start + w) + 1) * w
            > c.frequencyLimit * w
  {
    hide CountIn;
    hide Admitted;
    hide WindowOf;
    WindowMonotone(last, now, c.window);
    RollMatches(c, h.entry.value, h.log, now);
    IndexFits(now, c.window);
  }

  lemma {:induction false} NoLimitYet(w: nat, limit: nat, now: nat)
    requires 0 < w && 0 < limit
    ensures var start := now - now % w;
            CountIn([], start - w, start) * (w - now % w) + (CountIn([], start, start + w) + 1) * w <= limit * w
  {
    MulMono(1, limit, w, w);
  }

  /** Every verdict, by the history alone. Full first, then the cap, then the
      window; the last for attempts in the order of their timestamps. */
  lemma {:induction false} VerdictIsHistory(l: Layout, ops: seq<Op>, id: ItemId, now: u64)
    requires ValidLayout(l)
    ensures var d, tracked := VerdictNow(l, ops, id, now), EntryOf(l, Run(l, ops), id).Some?;
            && (d == StoreFull <==> !l.c.failOpen && !tracked && ShardIsFull(l, Run(l, ops), id))
            && (d == ExposureCapReached <==> AtCap(l, ops, id))
            && (d == FrequencyLimited ==> l.c.frequencyLimit > 0 && l.c.window != 0)
            && (l.c.window > 0 && Forward(Tenure(l, ops, id) + [now]) ==>
                  (d == FrequencyLimited <==> !AtCap(l, ops, id) && AtLimit(l, ops, id, now)))
  {
    hide Reserve;
    hide Run;
    hide Tenure;
    hide TenureShows;
    hide CountIn;
    hide Follow;
    RunKeepsInv(l, ops);
    var st := Run(l, ops);
    assert ShardOk(l, ShardOf(l, id), st.shards[ShardOf(l, id)]);
    PerShardPositive(l);
    ReserveVerdict(l.c, PerShard(l), st.shards[ShardOf(l, id)], id, now);
    TenureIsIndependent(l, ops, id);
    FollowCountsShows(l.c, Tenure(l, ops, id));
    if l.c.window > 0 && l.c.frequencyLimit > 0 && Forward(Tenure(l, ops, id) + [now]) {
      LimitIsHistory(l, ops, id, now);
    }
  }

  lemma {:induction false} LimitIsHistory(l: Layout, ops: seq<Op>, id: ItemId, now: u64)
    requires ValidLayout(l) && l.c.window > 0 && l.c.frequencyLimit > 0 && Forward(Tenure(l, ops, id) + [now])
    ensures var e := EntryOf(l, Run(l, ops), id);
            AtLimit(l, ops, id, now) <==> e.Some? && OverLimit(l.c, Roll(l.c, e.value, now), now)
  {
    hide Run;
    hide Tenure;
    hide TenureShows;
    hide CountIn;
    hide Follow;
    var times := Tenure(l, ops, id);
    assert forall i :: 0 <= i < |times| ==> times[i] == (times + [now])[i];
    var last := if times == [] then 0 else times[|times| - 1];
    assert last <= now by { assert (times + [now])[|times|] == now; }
    TenureIsIndependent(l, ops, id);
    TenureIsMillis(l, ops, id);
    FollowIsAdmitted(l.c, times);
    FollowCountsShows(l.c, times);
    if EntryOf(l, Run(l, ops), id).Some? {
      LimitByCounters(l.c, Follow(l.c, times), last, now);
    } else {
      assert TenureShows(l, ops, id) == [];
      NoLimitYet(l.c.window, l.c.frequencyLimit, now);
    }
  }

  // -------------------------------------------------------------------------
  // How many items are tracked
  // -------------------------------------------------------------------------

  function AskedFor(ops: seq<Op>): set<ItemId> {
    set i | 0 <= i < |ops| && ops[i].OpReserve? :: ops[i].id
  }

  /** The items asked for in the run that are tracked at its end. */
  ghost function TrackedIds(l: Layout, ops: seq<Op>): set<ItemId>
    requires ValidLayout(l)
  {
    set id | id in AskedFor(ops) && EntryOf(l, Run(l, ops), id).Some?
  }

  lemma {:induction false} ShownWasAttempted(l: Layout, ops: seq<Op>, id: ItemId)
    requires ValidLayout(l) && LastAllowed(l, ops, id) >= 0
    ensures id in AskedFor(ops)
  {
    hide Run;
    hide ReserveAt;
    var n := |ops| - 1;
    if IsAttempt(ops[n], id) {
      assert ops[n].id == id;
    } else {
      ShownWasAttempted(l, ops[..n], id);
      var i :| 0 <= i < n && ops[..n][i].OpReserve? && ops[..n][i].id == id;
      assert ops[i].OpReserve? && ops[i].id == id;
    }
  }

  ghost function AllKeys(shards: seq<Shard>): set<ItemId> {
    if shards == [] then {} else shards[0].entries.Keys + AllKeys(shards[1..])
  }

  /** The shard holds only ids that go to shard `i`. */
  ghost predicate OnlyOf(l: Layout, s: Shard, i: nat)
    requires ValidLayout(l)
  {
    forall id :: id in s.entries ==> ShardOf(l, id) == i
  }

  ghost predicate Routed(l: Layout, shards: seq<Shard>, first: nat)
    requires ValidLayout(l)
  {
    forall i :: 0 <= i < |shards| ==> OnlyOf(l, shards[i], first + i)
  }

  lemma {:induction false} KeysAreRouted(l: Layout, shards: seq<Shard>, first: nat, id: ItemId)
    requires ValidLayout(l) && Routed(l, shards, first)
    ensures id in AllKeys(shards) <==>
            first <= ShardOf(l, id) < first + |shards| && id in shards[ShardOf(l, id) - first].entries
  {
    hide ShardOf;
    if shards != [] {
      TailRouted(l, shards, first);
      KeysAreRouted(l, shards[1..], first + 1, id);
      assert OnlyOf(l, shards[0], first + 0);
      hide OnlyOf;
      var i := ShardOf(l, id) - first;
      if 0 < i < |shards| { assert shards[1..][i - 1] == shards[i]; }
    }
  }

  lemma TailRouted(l: Layout, shards: seq<Shard>, first: nat)
    requires ValidLayout(l) && shards != [] && Routed(l, shards, first)
    ensures Routed(l, shards[1..], first + 1)
  {
    hide OnlyOf;
    forall i | 0 <= i < |shards[1..]| ensures OnlyOf(l, shards[1..][i], first + 1 + i) {
      assert OnlyOf(l, shards[i + 1], first + (i + 1));
    }
  }

  lemma {:induction false} KeysAreTracked(l: Layout, shards: seq<Shard>, first: nat)
    requires ValidLayout(l) && Routed(l, shards, first)
    ensures |AllKeys(shards)| == Tracked(shards)
  {
    hide ShardOf;
    if shards != [] {
      TailRouted(l, shards, first);
      KeysAreTracked(l, shards[1..], first + 1);
      forall id | id in shards[0].entries ensures id !in AllKeys(shards[1..]) {
        assert OnlyOf(l, shards[0], first + 0);
        KeysAreRouted(l, shards[1..], first + 1, id);
      }
      hide Routed;
      assert shards[0].entries.Keys !! AllKeys(shards[1..]);
    }
  }

  lemma StoreIsRouted(l: Layout, st: Store)
    requires StoreInv(l, st)
    ensures Routed(l, st.shards, 0)
  {
    forall i | 0 <= i < |st.shards| ensures OnlyOf(l, st.shards[i], 0 + i) {
      assert ShardOk(l, i, st.shards[i]);
    }
  }

  lemma {:induction false} TrackedIsAskedFor(l: Layout, ops: seq<Op>, id: ItemId)
    requires ValidLayout(l) && EntryOf(l, Run(l, ops), id).Some?
    ensures id in AskedFor(ops)
  {
    hide EntryOf;
    hide Run;
    hide AskedFor;
    hide LastAllowed;
    TrackedMeansShown(l, ops, id);
    LastsBound(l, ops, id);
    ShownWasAttempted(l, ops, id);
  }

  /** The reported size is the number of items tracked. */
  lemma {:induction false} TrackedIsCount(l: Layout, ops: seq<Op>)
    requires ValidLayout(l)
    ensures Tracked(Run(l, ops).shards) == |TrackedIds(l, ops)|
  {
    hide Run;
    hide AskedFor;
    hide Routed;
    RunKeepsInv(l, ops);
    var shards := Run(l, ops).shards;
    StoreIsRouted(l, Run(l, ops));
    hide StoreInv;
    KeysAreTracked(l, shards, 0);
    forall id ensures id in AllKeys(shards) <==> id in TrackedIds(l, ops) {
      KeysAreRouted(l, shards, 0, id);
      if EntryOf(l, Run(l, ops), id).Some? { TrackedIsAskedFor(l, ops, id); }
    }
    hide AllKeys;
    assert AllKeys(shards) == TrackedIds(l, ops);
  }
}
