/** Whole runs of the sharded compliance store: any sequence of operations, in
    the order in which the shard locks serialise them. */
module PolicyRuns {
  import opened Words
  import opened Routing
  import opened Policy
  import opened PolicyItems
  import opened SlidingWindow
  import opened Arith

  /** What a store is constructed with; `hash` stands for `hash_mix`. */
  datatype Layout = Layout(c: Config, shardCount: nat, hash: ItemId -> nat)

  predicate ValidLayout(l: Layout) {
    HasSingleBit(l.shardCount) && 0 < l.shardCount <= l.c.maxTracked
  }

  function PerShard(l: Layout): nat
    requires 0 < l.shardCount
  {
    l.c.maxTracked / l.shardCount
  }

  function ShardOf(l: Layout, id: ItemId): (i: nat)
    requires ValidLayout(l)
    ensures i < l.shardCount
  {
    Route(l.hash, l.shardCount, id)
  }

  lemma PerShardPositive(l: Layout)
    requires ValidLayout(l)
    ensures 1 <= PerShard(l) && PerShard(l) * l.shardCount <= l.c.maxTracked < (PerShard(l) + 1) * l.shardCount
  {
    FloorOrder(1, l.c.maxTracked, l.shardCount);
    FloorOrder(PerShard(l), l.c.maxTracked, l.shardCount);
    FloorOrder(PerShard(l) + 1, l.c.maxTracked, l.shardCount);
  }

  datatype Store = Store(
    shards: seq<Shard>,
    allowed: nat, exposureBlocked: nat, frequencyBlocked: nat, storeFull: nat, evicted: nat)

  datatype Op =
    | OpReserve(id: ItemId, now: u64)
    | OpCheck(id: ItemId, now: u64)
    | OpForget(id: ItemId)
    | OpClear

  function Fresh(l: Layout): Store {
    Store(seq(l.shardCount, _ => EMPTY_SHARD), 0, 0, 0, 0, 0)
  }

  ghost predicate StoreInv(l: Layout, st: Store) {
    && ValidLayout(l)
    && |st.shards| == l.shardCount
    && forall i :: 0 <= i < l.shardCount ==> ShardOk(l, i, st.shards[i])
  }

  /** A shard in good order that holds only ids routed to it. */
  ghost predicate ShardOk(l: Layout, i: nat, s: Shard)
    requires ValidLayout(l)
  {
    && ShardInv(l.c, PerShard(l), s)
    && forall id :: id in s.entries ==> ShardOf(l, id) == i
  }

  function ReserveAt(l: Layout, st: Store, id: ItemId, now: nat): Outcome
    requires ValidLayout(l) && |st.shards| == l.shardCount
  {
    Reserve(l.c, PerShard(l), st.shards[ShardOf(l, id)], id, now)
  }

  function CheckAt(l: Layout, st: Store, id: ItemId, now: nat): Decision
    requires ValidLayout(l) && |st.shards| == l.shardCount
  {
    Check(l.c, PerShard(l), st.shards[ShardOf(l, id)], id, now)
  }

  function Tally(st: Store, d: Decision): Store {
    match d
    case Allowed => st.(allowed := st.allowed + 1)
    case ExposureCapReached => st.(exposureBlocked := st.exposureBlocked + 1)
    case FrequencyLimited => st.(frequencyBlocked := st.frequencyBlocked + 1)
    case StoreFull => st.(storeFull := st.storeFull + 1)
  }

  function Reserved(l: Layout, st: Store, id: ItemId, now: nat): Store
    requires ValidLayout(l) && |st.shards| == l.shardCount
  {
    var o := ReserveAt(l, st, id, now);
    Tally(st.(shards := st.shards[ShardOf(l, id) := o.shard], evicted := st.evicted + o.evicted), o.decision)
  }

  function Apply(l: Layout, st: Store, op: Op): Store
    requires ValidLayout(l) && |st.shards| == l.shardCount
  {
    match op
    case OpReserve(id, now) => Reserved(l, st, id, now)
    case OpCheck(_, _) => st
    case OpForget(id) =>
      var i := ShardOf(l, id);
      st.(shards := st.shards[i := Forget(st.shards[i], id)])
    case OpClear => st.(shards := seq(l.shardCount, _ => EMPTY_SHARD))
  }

  function Run(l: Layout, ops: seq<Op>): (st: Store)
    requires ValidLayout(l)
    ensures |st.shards| == l.shardCount
  {
    if ops == [] then Fresh(l)
    else Apply(l, Run(l, ops[..|ops| - 1]), ops[|ops| - 1])
  }

  lemma {:induction false} RunSnoc(l: Layout, ops: seq<Op>, op: Op)
    requires ValidLayout(l)
    ensures Run(l, ops + [op]) == Apply(l, Run(l, ops), op)
    ensures NoReset(ops) && (op.OpReserve? || op.OpCheck?) ==> NoReset(ops + [op])
  {
    hide Apply;
    assert (ops + [op])[..|ops|] == ops;
  }

  lemma ApplyKeepsInv(l: Layout, st: Store, op: Op)
    requires StoreInv(l, st)
    ensures StoreInv(l, Apply(l, st, op))
  {
    hide Reserve;
    PerShardPositive(l);
    match op
    case OpReserve(id, now) =>
      ReserveKeepsShardOk(l, st.shards[ShardOf(l, id)], id, now);
    case OpForget(id) =>
      ForgetKeepsInv(l.c, PerShard(l), st.shards[ShardOf(l, id)], id);
      assert ShardOk(l, ShardOf(l, id), Forget(st.shards[ShardOf(l, id)], id));
    case OpClear =>
      assert forall i :: 0 <= i < l.shardCount ==> ShardOk(l, i, EMPTY_SHARD);
    case OpCheck(_, _) =>
  }

  lemma ReserveKeepsShardOk(l: Layout, s: Shard, id: ItemId, now: nat)
    requires ValidLayout(l) && ShardOk(l, ShardOf(l, id), s)
    ensures ShardOk(l, ShardOf(l, id), Reserve(l.c, PerShard(l), s, id, now).shard)
  {
    PerShardPositive(l);
    ReserveKeepsInv(l.c, PerShard(l), s, id, now);
    ReserveTracksOnly(l.c, PerShard(l), s, id, now);
  }

  lemma ReserveTracksOnly(c: Config, cap: nat, s: Shard, id: ItemId, now: nat)
    ensures Reserve(c, cap, s, id, now).shard.entries.Keys <= s.entries.Keys + {id}
  {
  }

  /** Every reachable store satisfies the store invariant. */
  lemma {:induction false} RunKeepsInv(l: Layout, ops: seq<Op>)
    requires ValidLayout(l)
    ensures StoreInv(l, Run(l, ops))
  {
    if ops != [] {
      RunKeepsInv(l, ops[..|ops| - 1]);
      ApplyKeepsInv(l, Run(l, ops[..|ops| - 1]), ops[|ops| - 1]);
    }
  }

  /** In every reachable store, for every item and instant, the dry-run check
      answers what a reservation would; fail-open never answers StoreFull. */
  lemma {:induction false} CheckAgreesWithReserve(l: Layout, ops: seq<Op>, id: ItemId, now: nat)
    requires ValidLayout(l)
    ensures var st := Run(l, ops);
            && CheckAt(l, st, id, now) == ReserveAt(l, st, id, now).decision
            && (l.c.failOpen ==> CheckAt(l, st, id, now) != StoreFull)
  {
    RunKeepsInv(l, ops);
    PerShardPositive(l);
    CheckIsReserveDecision(l.c, PerShard(l), Run(l, ops).shards[ShardOf(l, id)], id, now);
  }

  // -------------------------------------------------------------------------
  // Accounting
  // -------------------------------------------------------------------------

  function ReserveCalls(ops: seq<Op>): nat {
    if ops == [] then 0
    else ReserveCalls(ops[..|ops| - 1]) + if ops[|ops| - 1].OpReserve? then 1 else 0
  }

  /** Every reservation lands in exactly one of the four decision counters. */
  lemma {:induction false} DecisionsSumToCalls(l: Layout, ops: seq<Op>)
    requires ValidLayout(l)
    ensures var st := Run(l, ops);
            st.allowed + st.exposureBlocked + st.frequencyBlocked + st.storeFull == ReserveCalls(ops)
  {
    if ops != [] { DecisionsSumToCalls(l, ops[..|ops| - 1]); }
  }

  function Tracked(shards: seq<Shard>): nat {
    if shards == [] then 0 else |shards[0].entries| + Tracked(shards[1..])
  }

  lemma {:induction false} TrackedBound(shards: seq<Shard>, cap: nat)
    requires forall i :: 0 <= i < |shards| ==> |shards[i].entries| <= cap
    ensures Tracked(shards) <= cap * |shards|
  {
    if shards != [] {
      TrackedBound(shards[1..], cap);
      assert cap * |shards| == cap + cap * |shards[1..]|;
    }
  }

  /** No run tracks more items than configured. */
  lemma {:induction false} TrackingIsBounded(l: Layout, ops: seq<Op>)
    requires ValidLayout(l)
    ensures Tracked(Run(l, ops).shards) <= l.c.maxTracked
  {
    RunKeepsInv(l, ops);
    PerShardPositive(l);
    TrackedBound(Run(l, ops).shards, PerShard(l));
  }

  ghost function SumShows(m: map<ItemId, Entry>): nat {
    if m == map[] then 0 else var k :| k in m; m[k].shows + SumShows(m - {k})
  }

  lemma {:induction false} SumShowsPick(m: map<ItemId, Entry>, k: ItemId)
    requires k in m
    ensures SumShows(m) == m[k].shows + SumShows(m - {k})
    decreases |m|
  {
    var j :| j in m && SumShows(m) == m[j].shows + SumShows(m - {j});
    if j != k {
      assert |m - {j}| < |m| && |m - {k}| < |m| by {
        assert (m - {j}).Keys == m.Keys - {j} && (m - {k}).Keys == m.Keys - {k};
      }
      SumShowsPick(m - {j}, k);
      SumShowsPick(m - {k}, j);
      assert m - {j} - {k} == m - {k} - {j};
    }
  }

  lemma SumShowsUpdate(m: map<ItemId, Entry>, k: ItemId, e: Entry)
    ensures SumShows(m[k := e]) == SumShows(m) - (if k in m then m[k].shows else 0) + e.shows
  {
    var m' := m[k := e];
    SumShowsPick(m', k);
    if k in m {
      SumShowsPick(m, k);
      assert m' - {k} == m - {k};
    } else {
      assert m' - {k} == m;
    }
  }

  ghost function TotalShows(shards: seq<Shard>): nat {
    if shards == [] then 0 else SumShows(shards[0].entries) + TotalShows(shards[1..])
  }

  lemma {:induction false} TotalShowsUpdate(shards: seq<Shard>, i: nat, s: Shard)
    requires i < |shards|
    ensures TotalShows(shards[i := s])
         == TotalShows(shards) - SumShows(shards[i].entries) + SumShows(s.entries)
  {
    if i == 0 {
      assert shards[i := s][1..] == shards[1..];
    } else {
      TotalShowsUpdate(shards[1..], i - 1, s);
      assert shards[i := s][1..] == shards[1..][i - 1 := s];
    }
  }

  /** Runs without an administrative reset; what the request path can produce. */
  predicate NoReset(ops: seq<Op>) {
    forall i :: 0 <= i < |ops| ==> ops[i].OpReserve? || ops[i].OpCheck?
  }

  ghost predicate FailClosed(l: Layout, ops: seq<Op>) {
    ValidLayout(l) && !l.c.failOpen && NoReset(ops)
  }

  lemma ReserveShows(c: Config, cap: nat, s: Shard, id: ItemId, now: nat)
    requires !c.failOpen && ShardInv(c, cap, s) && 0 < cap
    ensures var o := Reserve(c, cap, s, id, now);
            SumShows(o.shard.entries) == SumShows(s.entries) + if o.decision == Allowed then 1 else 0
  {
    ReserveClosed(c, cap, s, id, now);
    if id in s.entries {
      SumShowsUpdate(s.entries, id, Advanced(c, s.entries[id], now));
    } else if |s.entries| < cap {
      SumShowsUpdate(s.entries, id, Charged(c, FreshEntry(c, now), now));
    }
  }

  lemma {:induction false} FreshShows(n: nat)
    ensures TotalShows(seq(n, _ => EMPTY_SHARD)) == 0
  {
    if n > 0 {
      FreshShows(n - 1);
      assert seq(n, _ => EMPTY_SHARD)[1..] == seq(n - 1, _ => EMPTY_SHARD);
    }
  }

  /** Fail-closed, the `allowed` counter is the sum of the tracked shows: nothing
      that was charged is ever forgotten. */
  lemma {:induction false} AllowedIsTotalShows(l: Layout, ops: seq<Op>)
    requires FailClosed(l, ops)
    ensures Run(l, ops).allowed == TotalShows(Run(l, ops).shards)
  {
    if ops == [] {
      FreshShows(l.shardCount);
    } else {
      var n := |ops| - 1;
      AllowedIsTotalShows(l, ops[..n]);
      var st := Run(l, ops[..n]);
      if ops[n].OpReserve? {
        RunKeepsInv(l, ops[..n]);
        PerShardPositive(l);
        var i := ShardOf(l, ops[n].id);
        ReserveShows(l.c, PerShard(l), st.shards[i], ops[n].id, ops[n].now);
        TotalShowsUpdate(st.shards, i, ReserveAt(l, st, ops[n].id, ops[n].now).shard);
      }
    }
  }

  // -------------------------------------------------------------------------
  // One item over a whole run
  // -------------------------------------------------------------------------

  function EntryOf(l: Layout, st: Store, id: ItemId): Option<Entry>
    requires ValidLayout(l) && |st.shards| == l.shardCount
  {
    var s := st.shards[ShardOf(l, id)];
    if id in s.entries then Some(s.entries[id]) else None
  }

  predicate IsAttempt(op: Op, id: ItemId) {
    op.OpReserve? && op.id == id
  }

  /** The times at which `id` was asked for, oldest first. */
  function AttemptTimes(ops: seq<Op>, id: ItemId): seq<nat> {
    if ops == [] then []
    else
      var n := |ops| - 1;
      var before := AttemptTimes(ops[..n], id);
      if IsAttempt(ops[n], id) then before + [ops[n].now] else before
  }

  lemma {:induction false} AttemptTimesAreMillis(ops: seq<Op>, id: ItemId)
    ensures Millis(AttemptTimes(ops, id))
  {
    if ops != [] { AttemptTimesAreMillis(ops[..|ops| - 1], id); }
  }

  /** The decision the last operation of a run got; it is an attempt. */
  function LastVerdict(l: Layout, ops: seq<Op>): Decision
    requires ValidLayout(l) && ops != [] && ops[|ops| - 1].OpReserve?
  {
    var op := ops[|ops| - 1];
    ReserveAt(l, Run(l, ops[..|ops| - 1]), op.id, op.now).decision
  }

  /** The times at which `id` was allowed, oldest first. */
  function Shows(l: Layout, ops: seq<Op>, id: ItemId): seq<nat>
    requires ValidLayout(l)
  {
    if ops == [] then []
    else
      var n := |ops| - 1;
      var before := Shows(l, ops[..n], id);
      if IsAttempt(ops[n], id) && LastVerdict(l, ops) == Allowed then before + [ops[n].now] else before
  }

  /** How often `id` was refused because the store was full. */
  function FullRefusals(l: Layout, ops: seq<Op>, id: ItemId): nat
    requires ValidLayout(l)
  {
    if ops == [] then 0
    else
      var n := |ops| - 1;
      FullRefusals(l, ops[..n], id) +
      if IsAttempt(ops[n], id) && LastVerdict(l, ops) == StoreFull then 1 else 0
  }

  ghost predicate ShardIsFull(l: Layout, st: Store, id: ItemId)
    requires ValidLayout(l) && |st.shards| == l.shardCount
  {
    |st.shards[ShardOf(l, id)].entries| >= PerShard(l)
  }

  /** How one fail-closed step changes what is known of `id`. */
  ghost predicate StepsTo(c: Config, e: Option<Entry>, e': Option<Entry>, op: Op, id: ItemId, d: Decision) {
    if !IsAttempt(op, id) then e' == e
    else if e.Some? then d == DecideTracked(c, e.value, op.now) && e' == Some(Advanced(c, e.value, op.now))
    else if d == StoreFull then e' == None
    else d == Allowed && e' == Some(Charged(c, FreshEntry(c, op.now), op.now))
  }

  /** What a fail-closed reservation does to the entries of its shard. */
  lemma ReserveClosed(c: Config, cap: nat, s: Shard, id: ItemId, now: nat)
    requires !c.failOpen && ShardInv(c, cap, s) && 0 < cap
    ensures var o := Reserve(c, cap, s, id, now);
            && (if id in s.entries then
                  && o.decision == DecideTracked(c, s.entries[id], now)
                  && o.shard.entries == s.entries[id := Advanced(c, s.entries[id], now)]
                else if |s.entries| < cap then
                  && o.decision == Allowed
                  && o.shard.entries == s.entries[id := Charged(c, FreshEntry(c, now), now)]
                else
                  o.decision == StoreFull && o.shard == s)
            && |o.shard.entries| >= |s.entries|
  {
    if id in s.entries {
      ReserveTrackedEffect(c, s, id, now);
      assert s.entries[id := Advanced(c, s.entries[id], now)].Keys == s.entries.Keys;
    } else if |s.entries| < cap {
      TrackAndChargeKeepsInv(c, cap, s, id, now, 0);
      assert s.entries[id := Charged(c, FreshEntry(c, now), now)].Keys == s.entries.Keys + {id};
    }
  }

  lemma StepOfItem(l: Layout, st: Store, op: Op, id: ItemId)
    requires StoreInv(l, st) && !l.c.failOpen && (op.OpReserve? || op.OpCheck?)
    ensures StepsTo(l.c, EntryOf(l, st, id), EntryOf(l, Apply(l, st, op), id), op, id,
                    if op.OpReserve? then ReserveAt(l, st, op.id, op.now).decision else Allowed)
    ensures ShardIsFull(l, st, id) ==> ShardIsFull(l, Apply(l, st, op), id)
    ensures IsAttempt(op, id) && EntryOf(l, st, id).None? ==>
              (ReserveAt(l, st, op.id, op.now).decision == StoreFull <==> ShardIsFull(l, st, id))
  {
    hide Reserve;
    hide ShardInv;
    PerShardPositive(l);
    if op.OpReserve? {
      ReserveClosed(l.c, PerShard(l), st.shards[ShardOf(l, op.id)], op.id, op.now);
    }
  }

  /** What a run knows of an item: either it is tracked, was never refused for
      lack of room, and has the history of its own attempts alone, or it was
      refused for lack of room at every attempt and its shard is full. */
  ghost predicate View(c: Config, e: Option<Entry>, times: seq<nat>, log: seq<nat>, refusals: nat, full: bool) {
    if e.Some? then Follow(c, times) == History(e, log) && refusals == 0
    else log == [] && refusals == |times| && (times != [] ==> full)
  }

  lemma ViewStep(c: Config, e: Option<Entry>, e': Option<Entry>, times: seq<nat>, log: seq<nat>, refusals: nat,
                 full: bool, full': bool, op: Op, id: ItemId, d: Decision)
    requires IsAttempt(op, id) && View(c, e, times, log, refusals, full) && StepsTo(c, e, e', op, id, d)
    requires (full ==> full') && (e.None? ==> (d == StoreFull <==> full))
    ensures View(c, e', times + [op.now], if d == Allowed then log + [op.now] else log,
                 if d == StoreFull then refusals + 1 else refusals, full')
  {
    assert (times + [op.now])[..|times|] == times;
    if e.Some? {
      assert DecideTracked(c, e.value, op.now) != StoreFull;
    } else {
      FreshIsAdmitted(c, op.now);
    }
  }

  ghost predicate ItemView(l: Layout, ops: seq<Op>, id: ItemId)
    requires ValidLayout(l)
  {
    View(l.c, EntryOf(l, Run(l, ops), id), AttemptTimes(ops, id), Shows(l, ops, id), FullRefusals(l, ops, id),
         ShardIsFull(l, Run(l, ops), id))
  }

  /** Fail-closed, items do not influence each other beyond the competition for
      room: a tracked item's counters and shows are a function of its own
      attempts, and a refusal for lack of room is for ever. */
  lemma {:induction false} ItemsAreIndependent(l: Layout, ops: seq<Op>, id: ItemId)
    requires FailClosed(l, ops)
    ensures ItemView(l, ops, id)
  {
    hide Apply;
    hide ReserveAt;
    if ops != [] {
      var n := |ops| - 1;
      ItemsAreIndependent(l, ops[..n], id);
      RunKeepsInv(l, ops[..n]);
      var st := Run(l, ops[..n]);
      StepOfItem(l, st, ops[n], id);
      if IsAttempt(ops[n], id) {
        ViewStep(l.c, EntryOf(l, st, id), EntryOf(l, Run(l, ops), id), AttemptTimes(ops[..n], id),
                 Shows(l, ops[..n], id), FullRefusals(l, ops[..n], id), ShardIsFull(l, st, id),
                 ShardIsFull(l, Run(l, ops), id), ops[n], id, LastVerdict(l, ops));
      }
    }
  }

  /** The shows on record are exactly the allowed attempts, whatever the clock
      did; they never exceed the lifetime cap, and with the frequency limit off a
      tracked item was allowed exactly min(cap, attempts) times. */
  lemma {:induction false} LifetimeIsExact(l: Layout, ops: seq<Op>, id: ItemId)
    requires FailClosed(l, ops)
    ensures var e, shows, cap := EntryOf(l, Run(l, ops), id), |Shows(l, ops, id)|, l.c.exposureCap;
            && shows == (if e.Some? then e.value.shows else 0)
            && (cap > 0 ==> shows <= cap)
            && (e.Some? && l.c.frequencyLimit == 0 ==>
                  shows == if 0 < cap < |AttemptTimes(ops, id)| then cap else |AttemptTimes(ops, id)|)
  {
    ItemsAreIndependent(l, ops, id);
    FollowCountsShows(l.c, AttemptTimes(ops, id));
  }

  /** The frequency guarantee of the store, for every item and every run whose
      clock does not go back between attempts on it: at most `limit` shows in an
      aligned window, and in any span of one window length the sliding bound and
      the exact worst case. */
  lemma {:induction false} FrequencyGuarantee(l: Layout, ops: seq<Op>, id: ItemId, a: int, aligned: nat)
    requires FailClosed(l, ops) && Forward(AttemptTimes(ops, id))
    requires l.c.window > 0 && l.c.frequencyLimit > 0 && aligned % l.c.window == 0
    ensures WithinLimits(Shows(l, ops, id), l.c.frequencyLimit, l.c.window, a, aligned)
  {
    ItemsAreIndependent(l, ops, id);
    AttemptTimesAreMillis(ops, id);
    FollowIsAdmitted(l.c, AttemptTimes(ops, id));
    AdmittedIsWithinLimits(Shows(l, ops, id), l.c.frequencyLimit, l.c.window, a, aligned);
  }

  /** Attempts on one item at the given times. */
  function AttemptsAt(id: ItemId, times: seq<nat>): seq<Op>
    requires Millis(times)
  {
    seq(|times|, i requires 0 <= i < |times| => OpReserve(id, times[i]))
  }

  lemma {:induction false} AttemptTimesOf(id: ItemId, times: seq<nat>)
    requires Millis(times)
    ensures AttemptTimes(AttemptsAt(id, times), id) == times
  {
    if times != [] {
      var n := |times| - 1;
      AttemptTimesOf(id, times[..n]);
      assert AttemptsAt(id, times)[..n] == AttemptsAt(id, times[..n]);
      assert times == times[..n] + [times[n]];
    }
  }

  /** Alone in the store, an item has the history of its attempts. */
  lemma {:induction false} LoneItem(l: Layout, id: ItemId, times: seq<nat>)
    requires ValidLayout(l) && !l.c.failOpen && times != [] && Millis(times)
    ensures var ops := AttemptsAt(id, times);
            FailClosed(l, ops) && AttemptTimes(ops, id) == times && Shows(l, ops, id) == Follow(l.c, times).log
  {
    AttemptTimesOf(id, times);
    LoneItemIsTracked(l, id, times);
    ItemsAreIndependent(l, AttemptsAt(id, times), id);
  }

  /** Alone in the store, an item is tracked from its first attempt on. */
  lemma {:induction false} LoneItemIsTracked(l: Layout, id: ItemId, times: seq<nat>)
    requires Millis(times) && FailClosed(l, AttemptsAt(id, times))
    ensures times != [] ==> EntryOf(l, Run(l, AttemptsAt(id, times)), id).Some?
    ensures times == [] ==> !ShardIsFull(l, Run(l, AttemptsAt(id, times)), id)
  {
    var ops := AttemptsAt(id, times);
    PerShardPositive(l);
    if times != [] {
      var n := |times| - 1;
      assert ops[..n] == AttemptsAt(id, times[..n]);
      LoneItemIsTracked(l, id, times[..n]);
      RunKeepsInv(l, ops[..n]);
      StepOfItem(l, Run(l, ops[..n]), ops[n], id);
    }
  }

  /** That many shows in one span are reached by a run, for every limit, window
      and cap. */
  lemma WorstCaseIsReached(l: Layout, id: ItemId) returns (ops: seq<Op>)
    requires ValidLayout(l) && !l.c.failOpen && l.c.window > 0 && l.c.frequencyLimit > 0
    ensures FailClosed(l, ops) && Forward(AttemptTimes(ops, id))
    ensures CountIn(Shows(l, ops, id), l.c.window - 1, 2 * l.c.window - 1) == MostInASpan(l.c)
  {
    hide Follow;
    hide Shows;
    hide CountIn;
    hide MostInASpan;
    var times := WorstSchedule(l.c);
    LoneItem(l, id, times);
    ops := AttemptsAt(id, times);
  }

  lemma SpanAtMost(l: Layout, ops: seq<Op>, id: ItemId, a: int)
    requires FailClosed(l, ops) && Forward(AttemptTimes(ops, id))
    requires l.c.window > 0 && l.c.frequencyLimit > 0
    ensures CountIn(Shows(l, ops, id), a, a + l.c.window) <= MostInASpan(l.c)
  {
    hide Shows;
    hide CountIn;
    FrequencyGuarantee(l, ops, id, a, 0);
    LifetimeIsExact(l, ops, id);
    CountAtMostAll(Shows(l, ops, id), a, a + l.c.window);
  }

  /** At most `n` shows of the item fall within the window length from `a` on. */
  ghost predicate SpanWithin(l: Layout, ops: seq<Op>, id: ItemId, a: int, n: nat)
    requires ValidLayout(l)
  {
    CountIn(Shows(l, ops, id), a, a + l.c.window) <= n
  }

  /** Every run keeps every span of every item within `n` shows; if `inOrder`, every
      run in which the attempts on the item come in the order of their timestamps. */
  ghost predicate NeverMoreThan(l: Layout, n: nat, inOrder: bool)
    requires ValidLayout(l)
  {
    forall ops, id, a ::
      FailClosed(l, ops) && (inOrder ==> Forward(AttemptTimes(ops, id))) ==> SpanWithin(l, ops, id, a, n)
  }

  /** Which bounds a store meets, exactly, while attempts on an item come in the
      order of their timestamps. */
  lemma WhichBoundHolds(l: Layout, n: nat)
    requires ValidLayout(l) && !l.c.failOpen && l.c.window > 0 && l.c.frequencyLimit > 0
    ensures NeverMoreThan(l, n, true) <==> MostInASpan(l.c) <= n
  {
    hide Shows;
    hide CountIn;
    hide MostInASpan;
    if MostInASpan(l.c) <= n {
      forall ops, id, a | FailClosed(l, ops) && Forward(AttemptTimes(ops, id)) ensures SpanWithin(l, ops, id, a, n) {
        SpanAtMost(l, ops, id, a);
      }
    } else {
      var ops := WorstCaseIsReached(l, 0);
      var a := l.c.window - 1;
      assert a + l.c.window == 2 * l.c.window - 1;
      assert !SpanWithin(l, ops, 0, a, n);
    }
  }

  lemma AroundBoundaryIsMillis(c: Config, times: seq<nat>)
    requires c.window > 0 && AroundBoundary(c, times)
    ensures Millis(times)
  {
  }

  /** Out of order, attempts on one item put any number of shows that the lifetime
      cap allows within one window length. */
  lemma OutOfOrderHeapsUp(l: Layout, id: ItemId, k: nat) returns (times: seq<nat>)
    requires ValidLayout(l) && !l.c.failOpen && l.c.window > 0 && l.c.frequencyLimit > 0
    requires 0 < k && (l.c.exposureCap > 0 ==> k <= l.c.exposureCap)
    ensures times != [] && AroundBoundary(l.c, times) && Millis(times)
    ensures var ops := AttemptsAt(id, times);
            && FailClosed(l, ops) && AttemptTimes(ops, id) == times
            && CountIn(Shows(l, ops, id), l.c.window - 1, 2 * l.c.window - 1) == k
  {
    hide Follow;
    hide Shows;
    hide CountIn;
    hide Heaped;
    var j;
    times, j := HeapUp(l.c, k);
    AroundBoundaryIsMillis(l.c, times);
    HeapCount(l.c, Follow(l.c, times), k, j);
    LoneItem(l, id, times);
  }

  /** And in any order: only the lifetime cap is a bound. */
  lemma WhichBoundHoldsInAnyOrder(l: Layout, n: nat)
    requires ValidLayout(l) && !l.c.failOpen && l.c.window > 0 && l.c.frequencyLimit > 0
    ensures NeverMoreThan(l, n, false) <==> 0 < l.c.exposureCap <= n
  {
    hide Shows;
    hide CountIn;
    if 0 < l.c.exposureCap <= n {
      forall ops, id, a | FailClosed(l, ops) ensures SpanWithin(l, ops, id, a, n) {
        LifetimeIsExact(l, ops, id);
        CountAtMostAll(Shows(l, ops, id), a, a + l.c.window);
      }
    } else {
      var times := OutOfOrderHeapsUp(l, 0, n + 1);
      var a := l.c.window - 1;
      assert a + l.c.window == 2 * l.c.window - 1;
      assert !SpanWithin(l, AttemptsAt(0, times), 0, a, n);
    }
  }

  /** The documented bound, "at most `limit` shows per window length". With attempts
      in the order of their timestamps it holds of a store exactly when the worst
      case of the window counters is the limit, or the lifetime cap is within it;
      in any order, exactly when the lifetime cap is within it. */
  lemma DocumentedLimitHoldsIff(l: Layout)
    requires ValidLayout(l) && !l.c.failOpen && l.c.window > 0 && l.c.frequencyLimit > 0
    ensures NeverMoreThan(l, l.c.frequencyLimit, true) <==>
            (|| WorstCase(l.c.frequencyLimit, l.c.window) == l.c.frequencyLimit
             || 0 < l.c.exposureCap <= l.c.frequencyLimit)
    ensures NeverMoreThan(l, l.c.frequencyLimit, false) <==> 0 < l.c.exposureCap <= l.c.frequencyLimit
  {
    hide NeverMoreThan;
    WhichBoundHolds(l, l.c.frequencyLimit);
    WhichBoundHoldsInAnyOrder(l, l.c.frequencyLimit);
    WorstCaseAtLeastLimit(l.c.frequencyLimit, l.c.window);
  }
}
