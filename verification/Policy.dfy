/** The compliance store: lifetime caps, a two-counter sliding window, bounded
    tracking and, under fail-open, eviction of the least recently charged item.

    Everything here is about one shard, which is what one lock protects. The
    window estimate is computed by the program in doubles; here it is exact:
    the fraction is cleared by multiplying through by the window. */
module Policy {
  import opened Words
  import opened Arith
  import opened Lists
  import opened SlidingWindow

  type ItemId = u64

  datatype Config = Config(
    exposureCap: u64,
    frequencyLimit: u32,
    window: i64,          // milliseconds, a signed duration in the source
    maxTracked: nat,
    failOpen: bool)

  datatype Decision = Allowed | ExposureCapReached | FrequencyLimited | StoreFull

  datatype Entry = Entry(shows: nat, index: nat, current: nat, previous: nat)

  /** `indexed` stands for the keys of `recency_index`. */
  datatype Shard = Shard(entries: map<ItemId, Entry>, recency: seq<ItemId>, indexed: set<ItemId>)

  datatype Outcome = Outcome(decision: Decision, shard: Shard, evicted: nat)

  const EMPTY_SHARD := Shard(map[], [], {})

  function WindowMs(c: Config): u64 {
    ToUnsigned(c.window)
  }

  function WindowOf(now: nat, w: nat): nat
    requires 0 < w
  {
    now / w
  }

  /** `window_index + 1` on a 64-bit word. */
  function NextIndex(index: nat): nat {
    if index + 1 == TWO_TO_64 then 0 else index + 1
  }

  /** The counters as they stand in the window that contains `now`. */
  function Roll(c: Config, e: Entry, now: nat): Entry {
    var w := WindowMs(c);
    if w == 0 then e
    else
      var index := WindowOf(now, w);
      if index == NextIndex(e.index) then e.(previous := e.current, current := 0, index := index)
      else if index != e.index then e.(previous := 0, current := 0, index := index)
      else e
  }

  /** Would one more show, on rolled counters, exceed the limit? */
  predicate OverLimit(c: Config, e: Entry, now: nat) {
    var w := WindowMs(c);
    if w == 0 then 1 > c.frequencyLimit
    else Load(e.previous, e.current + 1, now % w, w) > c.frequencyLimit * w
  }

  /** The estimate as the source writes it, over the reals. */
  ghost function Estimate(c: Config, e: Entry, now: nat): real {
    var w := WindowMs(c);
    if w == 0 then 0.0
    else e.previous as real * (1.0 - (now % w) as real / w as real) + e.current as real
  }

  lemma ScaledTest(p: nat, k: nat, limit: int, elapsed: nat, w: nat)
    requires 0 < w
    ensures p as real * (1.0 - elapsed as real / w as real) + k as real > limit as real
       <==> Load(p, k, elapsed, w) > limit * w
  {
    var x := elapsed as real / w as real;
    assert x * w as real == elapsed as real;
    var lhs := p as real * (1.0 - x) + k as real;
    assert lhs * w as real == (p * (w - elapsed) + k * w) as real by {
      assert lhs * w as real == p as real * (w as real - x * w as real) + k as real * w as real;
      assert p as real * (w as real - elapsed as real) == (p * (w - elapsed)) as real;
      assert k as real * w as real == (k * w) as real;
    }
    assert limit as real * w as real == (limit * w) as real;
    ScaleOrder(lhs, limit as real, w as real);
  }

  lemma ScaleOrder(a: real, b: real, w: real)
    requires w > 0.0
    ensures a > b <==> a * w > b * w
  {
    assert a * w - b * w == (a - b) * w;
    if a > b { assert (a - b) * w > 0.0; }
    if a < b { assert (b - a) * w > 0.0; }
  }

  /** Clearing the fraction changes no decision. */
  lemma OverLimitIsEstimatePlusOne(c: Config, e: Entry, now: nat)
    ensures OverLimit(c, e, now) <==> Estimate(c, e, now) + 1.0 > c.frequencyLimit as real
  {
    var w := WindowMs(c);
    if w > 0 {
      ScaledTest(e.previous, e.current + 1, c.frequencyLimit, now % w, w);
    }
  }

  // -------------------------------------------------------------------------
  // What the operations do to a shard
  // -------------------------------------------------------------------------

  function FreshEntry(c: Config, now: nat): Entry {
    Entry(0, if c.window > 0 then WindowOf(now, c.window) else 0, 0, 0)
  }

  function Track(c: Config, s: Shard, id: ItemId, now: nat): Shard {
    s.(entries := s.entries[id := FreshEntry(c, now)])
  }

  function Touch(c: Config, s: Shard, id: ItemId): Shard {
    if !c.failOpen then s
    else if id in s.indexed then s.(recency := [id] + Without(s.recency, id))
    else s.(recency := [id] + s.recency, indexed := s.indexed + {id})
  }

  function EvictOne(s: Shard): Shard
    requires s.recency != []
  {
    var victim := s.recency[|s.recency| - 1];
    Shard(s.entries - {victim}, s.recency[..|s.recency| - 1], s.indexed - {victim})
  }

  /** The entry after one admitted show; `current` is a 32-bit counter. */
  function Charged(c: Config, e: Entry, now: nat): Entry {
    if c.frequencyLimit > 0
    then var r := Roll(c, e, now); r.(current := (r.current + 1) % TWO_TO_32, shows := r.shows + 1)
    else e.(shows := e.shows + 1)
  }

  function DecideTracked(c: Config, e: Entry, now: nat): Decision {
    if c.exposureCap > 0 && e.shows >= c.exposureCap then ExposureCapReached
    else if c.frequencyLimit > 0 && OverLimit(c, Roll(c, e, now), now) then FrequencyLimited
    else Allowed
  }

  function ReserveTracked(c: Config, s: Shard, id: ItemId, now: nat, evicted: nat): Outcome
    requires id in s.entries
  {
    var e := s.entries[id];
    match DecideTracked(c, e, now)
    case Allowed => Outcome(Allowed, Touch(c, s.(entries := s.entries[id := Charged(c, e, now)]), id), evicted)
    case FrequencyLimited => Outcome(FrequencyLimited, s.(entries := s.entries[id := Roll(c, e, now)]), evicted)
    case d => Outcome(d, s, evicted)
  }

  /** The eviction count is only passed through; a tracked item is never refused
      for lack of room. */
  lemma ReserveTrackedIgnoresTally(c: Config, s: Shard, id: ItemId, now: nat)
    requires id in s.entries
    ensures ReserveTracked(c, s, id, now, 0).decision != StoreFull
    ensures forall n: nat :: ReserveTracked(c, s, id, now, n) == ReserveTracked(c, s, id, now, 0).(evicted := n)
  {
  }

  function Reserve(c: Config, cap: nat, s: Shard, id: ItemId, now: nat): Outcome {
    if id in s.entries then ReserveTracked(c, s, id, now, 0)
    else if |s.entries| < cap then ReserveTracked(c, Track(c, s, id, now), id, now, 0)
    else if !c.failOpen || s.recency == [] then Outcome(StoreFull, s, 0)
    else ReserveTracked(c, Track(c, EvictOne(s), id, now), id, now, 1)
  }

  function Check(c: Config, cap: nat, s: Shard, id: ItemId, now: nat): Decision {
    if id in s.entries then DecideTracked(c, s.entries[id], now)
    else if |s.entries| >= cap && !c.failOpen then StoreFull
    else Allowed
  }

  function Forget(s: Shard, id: ItemId): Shard {
    Shard(s.entries - {id},
          if id in s.indexed then Without(s.recency, id) else s.recency,
          s.indexed - {id})
  }

  // -------------------------------------------------------------------------
  // What every operation keeps
  // -------------------------------------------------------------------------

  ghost predicate EntryInv(c: Config, e: Entry) {
    && 1 <= e.shows
    && (c.exposureCap > 0 ==> e.shows <= c.exposureCap)
    && (c.frequencyLimit > 0 && WindowMs(c) > 0 ==> e.current <= c.frequencyLimit)
  }

  /** Under fail-open the recency list is a duplicate-free ordering of exactly
      the tracked ids; under fail-closed it stays empty. */
  ghost predicate RecencyInv(c: Config, s: Shard) {
    && NoDup(s.recency)
    && (forall id :: id in s.indexed <==> id in s.recency)
    && (if c.failOpen then s.indexed == s.entries.Keys else s.recency == [])
  }

  ghost predicate ShardInv(c: Config, cap: nat, s: Shard) {
    && |s.entries| <= cap
    && (forall id :: id in s.entries ==> EntryInv(c, s.entries[id]))
    && RecencyInv(c, s)
  }

  /** A new entry always passes both limits, so tracking an item charges it. */
  lemma FreshIsAdmitted(c: Config, now: nat)
    ensures DecideTracked(c, FreshEntry(c, now), now) == Allowed
    ensures EntryInv(c, Charged(c, FreshEntry(c, now), now))
  {
    var e := Roll(c, FreshEntry(c, now), now);
    assert e.previous == 0 && e.current == 0;
    var w := WindowMs(c);
    if c.frequencyLimit > 0 && w > 0 {
      MulMono(1, c.frequencyLimit, w, w);
    }
  }

  /** An admitted show keeps the 32-bit window counter at or below the limit, so
      the increment does not wrap. */
  lemma AdmittedCounterFits(c: Config, e: Entry, now: nat)
    requires c.frequencyLimit > 0 && WindowMs(c) > 0
    requires DecideTracked(c, e, now) == Allowed
    ensures Charged(c, e, now).current == Roll(c, e, now).current + 1 <= c.frequencyLimit
  {
    var w, r := WindowMs(c), Roll(c, e, now);
    assert r.previous * (w - now % w) >= 0;
    if r.current + 1 > c.frequencyLimit {
      MulMono(c.frequencyLimit + 1, r.current + 1, w, w);
    }
  }

  lemma ChargedKeepsEntry(c: Config, e: Entry, now: nat)
    requires DecideTracked(c, e, now) == Allowed
    requires c.frequencyLimit > 0 && WindowMs(c) > 0 ==> e.current <= c.frequencyLimit
    ensures EntryInv(c, Charged(c, e, now))
  {
    if c.frequencyLimit > 0 && WindowMs(c) > 0 {
      AdmittedCounterFits(c, e, now);
    }
  }

  lemma TouchKeepsRecency(c: Config, s: Shard, id: ItemId)
    requires id in s.entries
    requires NoDup(s.recency) && forall x :: x in s.indexed <==> x in s.recency
    requires if c.failOpen then s.indexed + {id} == s.entries.Keys else s.recency == []
    ensures RecencyInv(c, Touch(c, s, id))
  {
    if c.failOpen {
      WithoutNoDup(s.recency, id);
      var t := Without(s.recency, id);
      assert forall j :: 0 <= j < |t| ==> t[j] in t;
      assert forall x :: x in [id] + t <==> x == id || x in s.recency;
    }
  }

  lemma EvictKeepsRecency(c: Config, cap: nat, s: Shard)
    requires ShardInv(c, cap, s) && c.failOpen && s.recency != []
    ensures ShardInv(c, cap, EvictOne(s)) && |EvictOne(s).entries| == |s.entries| - 1
  {
    var n := |s.recency| - 1;
    var victim := s.recency[n];
    assert s.recency == s.recency[..n] + [victim];
    assert victim in s.recency;
    assert EvictOne(s).entries.Keys == s.entries.Keys - {victim};
    assert |s.entries.Keys - {victim}| == |s.entries.Keys| - 1;
  }

  lemma TrackAndChargeKeepsInv(c: Config, cap: nat, s: Shard, id: ItemId, now: nat, evicted: nat)
    requires ShardInv(c, cap, s) && id !in s.entries && |s.entries| < cap
    ensures var o := ReserveTracked(c, Track(c, s, id, now), id, now, evicted);
            && o.decision == Allowed && ShardInv(c, cap, o.shard)
            && o.shard.entries == s.entries[id := Charged(c, FreshEntry(c, now), now)]
  {
    FreshIsAdmitted(c, now);
    var t := Track(c, s, id, now);
    var u := t.(entries := t.entries[id := Charged(c, t.entries[id], now)]);
    assert u.entries.Keys == s.entries.Keys + {id};
    TouchKeepsRecency(c, u, id);
    assert u.entries == s.entries[id := Charged(c, FreshEntry(c, now), now)];
  }

  /** A full fail-open shard can always evict: its recency list is not empty. */
  lemma FullShardHasVictim(c: Config, cap: nat, s: Shard)
    requires ShardInv(c, cap, s) && c.failOpen && 0 < cap <= |s.entries|
    ensures s.recency != []
  {
    NoDupSize(s.recency, s.indexed);
  }

  /** The entry a reservation of a tracked item leaves behind. */
  function Advanced(c: Config, e: Entry, now: nat): Entry {
    match DecideTracked(c, e, now)
    case Allowed => Charged(c, e, now)
    case FrequencyLimited => Roll(c, e, now)
    case _ => e
  }

  lemma AdvancedKeepsEntry(c: Config, e: Entry, now: nat)
    requires EntryInv(c, e)
    ensures EntryInv(c, Advanced(c, e, now))
  {
    if DecideTracked(c, e, now) == Allowed {
      ChargedKeepsEntry(c, e, now);
    }
  }

  lemma ReserveTrackedEffect(c: Config, s: Shard, id: ItemId, now: nat)
    requires id in s.entries
    ensures var o := ReserveTracked(c, s, id, now, 0);
            && o.decision == DecideTracked(c, s.entries[id], now)
            && o.shard.entries == s.entries[id := Advanced(c, s.entries[id], now)]
  {
  }

  lemma ReserveTrackedKeepsInv(c: Config, cap: nat, s: Shard, id: ItemId, now: nat)
    requires ShardInv(c, cap, s) && id in s.entries
    ensures ShardInv(c, cap, ReserveTracked(c, s, id, now, 0).shard)
  {
    AdvancedKeepsEntry(c, s.entries[id], now);
    var u := s.(entries := s.entries[id := Advanced(c, s.entries[id], now)]);
    assert u.entries.Keys == s.entries.Keys;
    TouchKeepsRecency(c, u, id);
    ReserveTrackedEffect(c, s, id, now);
  }

  lemma ReserveKeepsInv(c: Config, cap: nat, s: Shard, id: ItemId, now: nat)
    requires ShardInv(c, cap, s) && 0 < cap
    ensures ShardInv(c, cap, Reserve(c, cap, s, id, now).shard)
  {
    if id in s.entries {
      ReserveTrackedKeepsInv(c, cap, s, id, now);
    } else if |s.entries| < cap {
      TrackAndChargeKeepsInv(c, cap, s, id, now, 0);
    } else if c.failOpen {
      FullShardHasVictim(c, cap, s);
      EvictKeepsRecency(c, cap, s);
      TrackAndChargeKeepsInv(c, cap, EvictOne(s), id, now, 1);
    }
  }

  lemma ForgetKeepsInv(c: Config, cap: nat, s: Shard, id: ItemId)
    requires ShardInv(c, cap, s)
    ensures ShardInv(c, cap, Forget(s, id))
  {
    WithoutNoDup(s.recency, id);
    var f := Forget(s, id);
    assert f.entries.Keys == s.entries.Keys - {id};
    assert |f.entries.Keys| <= |s.entries.Keys|;
  }

  /** The dry-run answer is the answer a reservation would get. */
  lemma CheckIsReserveDecision(c: Config, cap: nat, s: Shard, id: ItemId, now: nat)
    requires ShardInv(c, cap, s) && 0 < cap
    ensures Check(c, cap, s, id, now) == Reserve(c, cap, s, id, now).decision
    ensures c.failOpen ==> Check(c, cap, s, id, now) != StoreFull
  {
    if id !in s.entries {
      if |s.entries| < cap {
        TrackAndChargeKeepsInv(c, cap, s, id, now, 0);
      } else if c.failOpen {
        FullShardHasVictim(c, cap, s);
        EvictKeepsRecency(c, cap, s);
        TrackAndChargeKeepsInv(c, cap, EvictOne(s), id, now, 1);
      }
    }
  }
}
