/** The store as the program runs it: counters, maps and lists updated in place,
    one call per lock acquisition. Each method is tied to the run semantics of
    PolicyRuns, so every theorem there is about this class. */
module ExposureStores {
  import opened Words
  import opened Routing
  import opened Lists
  import opened Policy
  import opened PolicyRuns
  import opened SlidingWindow

  lemma StoreShape(l: Layout, st: Store)
    requires StoreInv(l, st)
    ensures ValidLayout(l) && |st.shards| == l.shardCount
  {
  }

  class ExposureStore {
    const layout: Layout
    const mask: nat
    const perShard: nat
    var shards: seq<Shard>
    var allowed: nat
    var exposureBlocked: nat
    var frequencyBlocked: nat
    var storeFullBlocked: nat
    var evicted: nat

    ghost function View(): Store
      reads this
    {
      Store(shards, allowed, exposureBlocked, frequencyBlocked, storeFullBlocked, evicted)
    }

    ghost predicate Valid()
      reads this
    {
      && StoreInv(layout, View())
      && mask == layout.shardCount - 1
      && perShard == PerShard(layout)
    }

    constructor (l: Layout)
      requires ValidLayout(l)
      ensures Valid() && layout == l && View() == Fresh(l)
    {
      layout := l;
      mask := l.shardCount - 1;
      perShard := l.c.maxTracked / l.shardCount;
      shards := seq(l.shardCount, _ => EMPTY_SHARD);
      allowed, exposureBlocked, frequencyBlocked, storeFullBlocked, evicted := 0, 0, 0, 0, 0;
      new;
      RunKeepsInv(l, []);
    }

    /** The constructor's checks: a shard count that is not a power of two, or
        more shards than tracked items, is refused. */
    static method Create(c: Config, shardCount: nat, hash: ItemId -> nat) returns (r: Option<ExposureStore>)
      ensures r.Some? <==> ValidLayout(Layout(c, shardCount, hash))
      ensures r.Some? ==> fresh(r.value) && r.value.Valid() && r.value.View() == Fresh(Layout(c, shardCount, hash))
    {
      if shardCount == 0 || !HasSingleBit(shardCount) {
        return None;
      }
      if c.maxTracked < shardCount {
        return None;
      }
      var store := new ExposureStore(Layout(c, shardCount, hash));
      r := Some(store);
    }

    method ShardFor(id: ItemId) returns (i: nat)
      requires Valid()
      ensures i == ShardOf(layout, id)
    {
      i := BitAnd(layout.hash(id), mask);
    }

    /** Rolls the entry to the window of `now` and reports whether one more show
        would exceed the limit. */
    method AdvanceAndTest(entry: Entry, now: nat) returns (rolled: Entry, over: bool)
      ensures rolled == Roll(layout.c, entry, now)
      ensures over == OverLimit(layout.c, rolled, now)
    {
      var window := WindowMs(layout.c);
      rolled := entry;
      if window == 0 {
        over := 1 > layout.c.frequencyLimit;
        return;
      }
      var index := WindowOf(now, window);
      if index == NextIndex(entry.index) {
        rolled := rolled.(previous := rolled.current, current := 0, index := index);
      } else if index != entry.index {
        rolled := rolled.(previous := 0, current := 0, index := index);
      }
      over := Load(rolled.previous, rolled.current + 1, now % window, window) > layout.c.frequencyLimit * window;
    }

    method TouchRecency(i: nat, id: ItemId)
      requires i < |shards|
      modifies this`shards
      ensures shards == old(shards)[i := Touch(layout.c, old(shards[i]), id)]
    {
      if !layout.c.failOpen {
        return;
      }
      var shard := shards[i];
      if id in shard.indexed {
        shard := shard.(recency := [id] + Without(shard.recency, id));
      } else {
        shard := shard.(recency := [id] + shard.recency);
        shard := shard.(indexed := shard.indexed + {id});
      }
      shards := shards[i := shard];
    }

    method EvictLast(i: nat) returns (ok: bool)
      requires i < |shards|
      modifies this`shards, this`evicted
      ensures ok == (old(shards[i]).recency != [])
      ensures ok ==> shards == old(shards)[i := EvictOne(old(shards[i]))] && evicted == old(evicted) + 1
      ensures !ok ==> shards == old(shards) && evicted == old(evicted)
    {
      var shard := shards[i];
      if shard.recency == [] {
        return false;
      }
      var last := |shard.recency| - 1;
      var victim := shard.recency[last];
      shard := shard.(recency := shard.recency[..last]);
      shard := shard.(indexed := shard.indexed - {victim});
      shard := shard.(entries := shard.entries - {victim});
      shards := shards[i := shard];
      evicted := evicted + 1;
      return true;
    }

    /** Makes sure `id` has counters; false if there is no room for them. */
    method EnsureTracked(i: nat, id: ItemId, now: nat) returns (ok: bool)
      requires i < |shards|
      modifies this`shards, this`evicted
      ensures var s := old(shards[i]);
              if id in s.entries then
                ok && shards == old(shards) && evicted == old(evicted)
              else if |s.entries| < perShard then
                ok && shards == old(shards)[i := Track(layout.c, s, id, now)] && evicted == old(evicted)
              else if !layout.c.failOpen || s.recency == [] then
                !ok && shards == old(shards) && evicted == old(evicted)
              else
                && ok && shards == old(shards)[i := Track(layout.c, EvictOne(s), id, now)]
                && evicted == old(evicted) + 1
    {
      if id in shards[i].entries {
        return true;
      }
      if |shards[i].entries| >= perShard {
        if !layout.c.failOpen {
          return false;
        }
        ok := EvictLast(i);
        if !ok {
          return;
        }
      }
      var entry := Entry(0, if layout.c.window > 0 then WindowOf(now, layout.c.window) else 0, 0, 0);
      shards := shards[i := shards[i].(entries := shards[i].entries[id := entry])];
      return true;
    }

    /** Both limits, and the record of the show, for an item with counters. */
    method ChargeTracked(i: nat, id: ItemId, now: nat) returns (decision: Decision)
      requires i < |shards| && id in shards[i].entries
      modifies this`shards
      ensures var o := ReserveTracked(layout.c, old(shards[i]), id, now, 0);
              decision == o.decision && shards == old(shards)[i := o.shard]
    {
      hide OverLimit;
      hide Roll;
      hide Touch;
      ghost var s := shards[i];
      var entry := shards[i].entries[id];
      if layout.c.exposureCap > 0 && entry.shows >= layout.c.exposureCap {
        return ExposureCapReached;
      }
      if layout.c.frequencyLimit > 0 {
        var over;
        entry, over := AdvanceAndTest(entry, now);
        if over {
          shards := shards[i := shards[i].(entries := shards[i].entries[id := entry])];
          return FrequencyLimited;
        }
        entry := entry.(current := (entry.current + 1) % TWO_TO_32);
      }
      entry := entry.(shows := entry.shows + 1);
      shards := shards[i := shards[i].(entries := shards[i].entries[id := entry])];
      TouchRecency(i, id);
      return Allowed;
    }

    /** What a reservation does to its shard, under the shard's lock. */
    method ReserveInShard(i: nat, id: ItemId, now: nat) returns (decision: Decision)
      requires i < |shards|
      modifies this`shards, this`evicted
      ensures var o := Policy.Reserve(layout.c, perShard, old(shards[i]), id, now);
              && decision == o.decision && shards == old(shards)[i := o.shard] && evicted == old(evicted) + o.evicted
    {
      hide Policy.ReserveTracked;
      hide Policy.EvictOne;
      ghost var s := shards[i];
      var tracked := EnsureTracked(i, id, now);
      if !tracked {
        assert shards == old(shards)[i := s];
        return StoreFull;
      }
      ReserveTrackedIgnoresTally(layout.c, shards[i], id, now);
      decision := ChargeTracked(i, id, now);
    }

    /** Check and record in one step. */
    method Reserve(id: ItemId, timestamp: i64) returns (decision: Decision)
      requires Valid()
      modifies this
      ensures Valid()
      ensures decision == ReserveAt(layout, old(View()), id, ToUnsigned(timestamp)).decision
      ensures View() == Apply(layout, old(View()), OpReserve(id, ToUnsigned(timestamp)))
    {
      hide Policy.Reserve;
      hide StoreInv;
      hide ShardOf;
      hide PerShard;
      StoreShape(layout, View());
      var now := ToUnsigned(timestamp);
      ApplyKeepsInv(layout, View(), OpReserve(id, now));
      var i := ShardFor(id);
      decision := ReserveInShard(i, id, now);
      if decision == Allowed {
        allowed := allowed + 1;
      } else if decision == ExposureCapReached {
        exposureBlocked := exposureBlocked + 1;
      } else if decision == FrequencyLimited {
        frequencyBlocked := frequencyBlocked + 1;
      } else {
        storeFullBlocked := storeFullBlocked + 1;
      }
    }

    /** The dry-run question: the answer Reserve would give, with no effect. */
    method Check(id: ItemId, timestamp: i64) returns (decision: Decision)
      requires Valid()
      ensures decision == ReserveAt(layout, View(), id, ToUnsigned(timestamp)).decision
    {
      var now := ToUnsigned(timestamp);
      PerShardPositive(layout);
      CheckIsReserveDecision(layout.c, perShard, shards[ShardOf(layout, id)], id, now);
      hide StoreInv;
      hide Policy.Reserve;
      var i := ShardFor(id);
      var shard := shards[i];
      if id !in shard.entries {
        return if |shard.entries| >= perShard && !layout.c.failOpen then StoreFull else Allowed;
      }
      var entry := shard.entries[id];
      if layout.c.exposureCap > 0 && entry.shows >= layout.c.exposureCap {
        return ExposureCapReached;
      }
      if layout.c.frequencyLimit > 0 {
        var _, over := AdvanceAndTest(entry, now);
        if over {
          return FrequencyLimited;
        }
      }
      return Allowed;
    }

    method Forget(id: ItemId)
      requires Valid()
      modifies this`shards
      ensures Valid() && View() == Apply(layout, old(View()), OpForget(id))
    {
      ApplyKeepsInv(layout, View(), OpForget(id));
      var i := ShardFor(id);
      var shard := shards[i];
      shard := shard.(entries := shard.entries - {id});
      if id in shard.indexed {
        shard := shard.(recency := Without(shard.recency, id));
        shard := shard.(indexed := shard.indexed - {id});
      }
      assert shard.indexed == shards[i].indexed - {id};
      assert shard == Policy.Forget(shards[i], id);
      hide StoreInv;
      shards := shards[i := shard];
    }

    method Clear()
      requires Valid()
      modifies this`shards
      ensures Valid() && View() == Apply(layout, old(View()), OpClear)
    {
      ApplyKeepsInv(layout, View(), OpClear);
      var i := 0;
      while i < |shards|
        invariant 0 <= i <= |shards| == layout.shardCount
        invariant forall j :: 0 <= j < i ==> shards[j] == EMPTY_SHARD
      {
        shards := shards[i := EMPTY_SHARD];
        i := i + 1;
      }
      assert shards == seq(layout.shardCount, _ => EMPTY_SHARD);
    }

    /** Items tracked over all shards. */
    method TrackedItems() returns (total: nat)
      requires Valid()
      ensures total == Tracked(shards)
    {
      total := 0;
      var i := 0;
      while i < |shards|
        invariant 0 <= i <= |shards|
        invariant total + Tracked(shards[i..]) == Tracked(shards)
      {
        assert shards[i..][1..] == shards[i + 1..];
        total := total + |shards[i].entries|;
        i := i + 1;
      }
    }
  }
}
