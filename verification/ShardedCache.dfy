/** The cache split into shards: which shard a key goes to, and what a scan of
    all shards sees. */
module Sharding {
  import opened Words
  import opened Arith
  import opened Routing
  import opened Lru

  ghost predicate RoutedTo<K, V>(hash: K -> nat, count: nat, list: seq<Pair<K, V>>, i: nat)
    requires HasSingleBit(count)
  {
    forall k :: k in Keys(list) ==> Route(hash, count, k) == i
  }

  /** Each shard is a recency list within the per-shard capacity that holds only
      keys routed to it. */
  ghost predicate WellSharded<K, V>(hash: K -> nat, perShard: nat, lists: seq<seq<Pair<K, V>>>) {
    && HasSingleBit(|lists|)
    && forall i :: 0 <= i < |lists| ==>
         Distinct(lists[i]) && |lists[i]| <= perShard && RoutedTo(hash, |lists|, lists[i], i)
  }

  /** One operation, on the shard its key is routed to. */
  function ShardApply<K(==), V>(hash: K -> nat, perShard: nat, lists: seq<seq<Pair<K, V>>>, op: Op<K, V>)
    : seq<seq<Pair<K, V>>>
    requires HasSingleBit(|lists|) && !op.Clear?
  {
    var i := Route(hash, |lists|, op.key);
    lists[i := Apply(lists[i], perShard, op)]
  }

  /** A put of a new key into a full shard evicts. */
  predicate PutEvicts<K(==), V>(list: seq<Pair<K, V>>, perShard: nat, k: K) {
    Lookup(list, k).None? && |list| >= perShard
  }

  lemma {:induction false} ApplyKeys<K, V>(list: seq<Pair<K, V>>, capacity: nat, op: Op<K, V>)
    requires Distinct(list) && |list| <= capacity && 0 < capacity && !op.Clear?
    ensures Distinct(Apply(list, capacity, op)) && |Apply(list, capacity, op)| <= capacity
    ensures Keys(Apply(list, capacity, op)) <= Keys(list) + {op.key}
  {
    DropKeys(list, op.key);
    DropDistinct(list, op.key);
    if op.Get? && Lookup(list, op.key).Some? {
      ConsDistinct(Pair(op.key, Lookup(list, op.key).value), Drop(list, op.key));
    } else if op.Put? {
      var p := Pair(op.key, op.value);
      if Lookup(list, op.key).Some? {
        ConsDistinct(p, Drop(list, op.key));
      } else {
        if |list| >= capacity {
          EvictIsDrop(list);
          DropKeys(list, list[|list| - 1].key);
        }
        ConsDistinct(p, Evict(list, capacity));
      }
    }
  }

  lemma ShardApplyKeeps<K, V>(hash: K -> nat, perShard: nat, lists: seq<seq<Pair<K, V>>>, op: Op<K, V>)
    requires WellSharded(hash, perShard, lists) && 0 < perShard && !op.Clear?
    ensures WellSharded(hash, perShard, ShardApply(hash, perShard, lists, op))
  {
    ApplyKeys(lists[Route(hash, |lists|, op.key)], perShard, op);
  }

  /** What a scan shard by shard visits. */
  function Scan<K, V>(lists: seq<seq<Pair<K, V>>>): seq<Pair<K, V>> {
    if lists == [] then [] else Scan(lists[..|lists| - 1]) + lists[|lists| - 1]
  }

  lemma {:induction false} AppendKeys<K, V>(a: seq<Pair<K, V>>, b: seq<Pair<K, V>>)
    ensures Keys(a + b) == Keys(a) + Keys(b)
    ensures forall k :: Lookup(a + b, k) == if Lookup(a, k).Some? then Lookup(a, k) else Lookup(b, k)
  {
    if a == [] {
      assert a + b == b;
    } else {
      AppendKeys(a[1..], b);
      assert (a + b)[1..] == a[1..] + b;
    }
  }

  lemma {:induction false} AppendDistinct<K, V>(a: seq<Pair<K, V>>, b: seq<Pair<K, V>>)
    requires Distinct(a) && Distinct(b) && Keys(a) !! Keys(b)
    ensures Distinct(a + b)
  {
    forall i, j | 0 <= i < j < |a + b| ensures (a + b)[i].key != (a + b)[j].key {
      if i < |a| <= j {
        assert a[i].key in Keys(a) && b[j - |a|].key in Keys(b);
      }
    }
  }

  /** The shards before the `m`-th hold keys routed before it. */
  lemma {:induction false} ScanPrefix<K, V>(hash: K -> nat, perShard: nat, lists: seq<seq<Pair<K, V>>>, m: nat)
    requires WellSharded(hash, perShard, lists) && m <= |lists|
    ensures Distinct(Scan(lists[..m]))
    ensures forall k :: k in Keys(Scan(lists[..m])) ==> Route(hash, |lists|, k) < m
  {
    if m > 0 {
      hide Distinct;
      hide Route;
      ScanPrefix(hash, perShard, lists, m - 1);
      assert lists[..m][..m - 1] == lists[..m - 1];
      var before, last := Scan(lists[..m - 1]), lists[m - 1];
      assert RoutedTo(hash, |lists|, last, m - 1);
      AppendKeys(before, last);
      AppendDistinct(before, last);
    }
  }

  lemma {:induction false} ScanLookup<K, V>(hash: K -> nat, perShard: nat, lists: seq<seq<Pair<K, V>>>, m: nat, k: K)
    requires WellSharded(hash, perShard, lists) && m <= |lists|
    ensures var i := Route(hash, |lists|, k);
            Lookup(Scan(lists[..m]), k) == if i < m then Lookup(lists[i], k) else None
  {
    if m > 0 {
      hide Distinct;
      hide Route;
      ScanLookup(hash, perShard, lists, m - 1, k);
      assert lists[..m][..m - 1] == lists[..m - 1];
      assert RoutedTo(hash, |lists|, lists[m - 1], m - 1);
      AppendKeys(Scan(lists[..m - 1]), lists[m - 1]);
    }
  }

  lemma {:induction false} ScanSize<K, V>(lists: seq<seq<Pair<K, V>>>, perShard: nat)
    requires forall i :: 0 <= i < |lists| ==> |lists[i]| <= perShard
    ensures |Scan(lists)| <= |lists| * perShard
  {
    if lists != [] {
      ScanSize(lists[..|lists| - 1], perShard);
      assert |lists| * perShard == (|lists| - 1) * perShard + perShard;
    }
  }

  /** A full scan visits no key twice and no more than the capacity ... */
  lemma {:induction false} ScanIsDistinct<K, V>(hash: K -> nat, capacity: nat, lists: seq<seq<Pair<K, V>>>)
    requires 0 < |lists| && WellSharded(hash, capacity / |lists|, lists)
    ensures Distinct(Scan(lists)) && |Scan(lists)| <= capacity
  {
    var n := |lists|;
    ScanPrefix(hash, capacity / n, lists, n);
    assert lists[..n] == lists;
    ScanSize(lists, capacity / n);
    FloorOrder(capacity / n, capacity, n);
    assert n * (capacity / n) == capacity / n * n;
  }

  /** ... and finds for every key what the key's own shard holds. */
  lemma {:induction false} ScanFindsEach<K, V>(hash: K -> nat, perShard: nat, lists: seq<seq<Pair<K, V>>>, k: K)
    requires WellSharded(hash, perShard, lists)
    ensures Lookup(Scan(lists), k) == Lookup(lists[Route(hash, |lists|, k)], k)
  {
    ScanLookup(hash, perShard, lists, |lists|, k);
    assert lists[..|lists|] == lists;
  }
}

module ShardedCaches {
  import opened Words
  import opened Arith
  import opened Routing
  import opened Lru
  import opened LruCaches
  import LruHistory
  import opened Lists
  import opened Sharding

  class ShardedCache<K(==, !new), V> {
    const capacity: nat
    const mask: nat
    const hash: K -> nat
    const shards: seq<LruCache<K, V>>

    ghost predicate Valid()
      reads this, shards
    {
      && HasSingleBit(|shards|) && 0 < |shards| <= capacity && mask == |shards| - 1
      && (forall i, j :: 0 <= i < j < |shards| ==> shards[i] != shards[j])
      && (forall i :: 0 <= i < |shards| ==> ShardOk(i))
    }

    ghost predicate ShardOk(i: nat)
      requires i < |shards| && HasSingleBit(|shards|)
      reads this, shards
    {
      && shards[i].Valid() && shards[i].capacity == capacity / |shards|
      && RoutedTo(hash, |shards|, shards[i].List(), i)
    }

    /** The recency lists of all shards. */
    ghost function Lists(): (r: seq<seq<Pair<K, V>>>)
      reads this, shards
      ensures |r| == |shards| && forall i :: 0 <= i < |r| ==> r[i] == shards[i].List()
    {
      seq(|shards|, i requires 0 <= i < |shards| reads shards => shards[i].List())
    }

    /** How many entries each shard has evicted. */
    ghost function Evicted(): (r: seq<nat>)
      reads this, shards
      ensures |r| == |shards| && forall i :: 0 <= i < |r| ==> r[i] == shards[i].evictions
    {
      seq(|shards|, i requires 0 <= i < |shards| reads shards => shards[i].evictions)
    }

    lemma ListsAreWellSharded()
      requires Valid()
      ensures WellSharded(hash, capacity / |shards|, Lists())
    {
      forall i | 0 <= i < |shards|
        ensures Distinct(Lists()[i]) && |Lists()[i]| <= capacity / |shards| && RoutedTo(hash, |shards|, Lists()[i], i)
      {
        assert ShardOk(i);
        SoundIsDistinct(shards[i].entries);
      }
    }

    constructor (capacity: nat, shardCount: nat, hash: K -> nat)
      requires HasSingleBit(shardCount) && 0 < shardCount <= capacity
      ensures Valid() && fresh(shards) && |shards| == shardCount && this.capacity == capacity
      ensures forall i :: 0 <= i < shardCount ==> Lists()[i] == [] && Evicted()[i] == 0
      ensures this.hash == hash
    {
      var perShard := capacity / shardCount;
      FloorOrder(1, capacity, shardCount);
      var made: seq<LruCache<K, V>> := [];
      for i := 0 to shardCount
        invariant |made| == i
        invariant forall j :: 0 <= j < i ==>
          fresh(made[j]) && made[j].Valid() && made[j].capacity == perShard && made[j].List() == [] && made[j].evictions == 0
        invariant forall j, m :: 0 <= j < m < i ==> made[j] != made[m]
      {
        var shard := new LruCache<K, V>(perShard);
        made := made + [shard];
      }
      this.capacity := capacity;
      this.mask := shardCount - 1;
      this.hash := hash;
      this.shards := made;
    }

    /** The constructor's checks, as an error return. */
    static method Create(capacity: nat, shardCount: nat, hash: K -> nat) returns (r: Option<ShardedCache<K, V>>)
      ensures r.Some? <==> HasSingleBit(shardCount) && shardCount <= capacity
      ensures r.Some? ==> fresh(r.value) && r.value.Valid() && |r.value.shards| == shardCount && r.value.capacity == capacity
    {
      if shardCount == 0 || !HasSingleBit(shardCount) {
        return None;
      }
      if capacity < shardCount {
        return None;
      }
      var cache := new ShardedCache<K, V>(capacity, shardCount, hash);
      r := Some(cache);
    }

    function EvictionsOfPut(j: nat, key: K, list: seq<Pair<K, V>>): nat
      requires HasSingleBit(|shards|)
    {
      if j == Route(hash, |shards|, key) && PutEvicts(list, capacity / |shards|, key) then 1 else 0
    }

    method ShardIndex(key: K) returns (i: nat)
      requires Valid()
      ensures i == Route(hash, |shards|, key)
    {
      i := BitAnd(hash(key), mask);
    }

    lemma {:induction false} OnlyRoutedShardChanges(i: nat, key: K, before: seq<Pair<K, V>>)
      requires HasSingleBit(|shards|) && i < |shards| && i == Route(hash, |shards|, key)
      requires RoutedTo(hash, |shards|, before, i) && Lru.Keys(shards[i].List()) <= Lru.Keys(before) + {key}
      ensures RoutedTo(hash, |shards|, shards[i].List(), i)
    {
    }

    method Get(key: K) returns (r: Option<V>)
      requires Valid()
      modifies shards
      ensures Valid()
      ensures r == Lookup(old(Lists())[Route(hash, |shards|, key)], key)
      ensures Lists() == ShardApply(hash, capacity / |shards|, old(Lists()), Op.Get(key)) && Evicted() == old(Evicted())
    {
      hide LruHistory.Count;
      hide Lru.Apply;
      hide Lookup;
      hide Route;
      hide Lru.Keys;
      hide HasSingleBit;
      ListsAreWellSharded();
      var i := ShardIndex(key);
      assert ShardOk(i);
      FloorOrder(1, capacity, |shards|);
      ApplyKeys(shards[i].List(), capacity / |shards|, Op.Get(key));
      r := shards[i].Get(key);
      OnlyRoutedShardChanges(i, key, old(shards[i].List()));
      assert forall j :: 0 <= j < |shards| && j != i ==> old(ShardOk(j)) && unchanged(shards[j]);
    }

    method Put(key: K, value: V)
      requires Valid()
      modifies shards
      ensures Valid()
      ensures Lists() == ShardApply(hash, capacity / |shards|, old(Lists()), Op.Put(key, value))
      ensures forall j :: 0 <= j < |shards| ==>
                shards[j].evictions == old(shards[j].evictions) + EvictionsOfPut(j, key, old(shards[j].List()))
    {
      hide LruHistory.Count;
      hide Lru.Apply;
      hide Lookup;
      hide Route;
      hide Lru.Keys;
      hide HasSingleBit;
      ListsAreWellSharded();
      var i := ShardIndex(key);
      assert ShardOk(i);
      FloorOrder(1, capacity, |shards|);
      ApplyKeys(shards[i].List(), capacity / |shards|, Op.Put(key, value));
      shards[i].Put(key, value);
      OnlyRoutedShardChanges(i, key, old(shards[i].List()));
      assert forall j :: 0 <= j < |shards| && j != i ==> old(ShardOk(j)) && unchanged(shards[j]);
    }

    method Erase(key: K) returns (present: bool)
      requires Valid()
      modifies shards
      ensures Valid()
      ensures present == Lookup(old(Lists())[Route(hash, |shards|, key)], key).Some?
      ensures Lists() == ShardApply(hash, capacity / |shards|, old(Lists()), Op.Erase(key)) && Evicted() == old(Evicted())
    {
      hide LruHistory.Count;
      hide Lru.Apply;
      hide Lookup;
      hide Route;
      hide Lru.Keys;
      hide HasSingleBit;
      ListsAreWellSharded();
      var i := ShardIndex(key);
      assert ShardOk(i);
      FloorOrder(1, capacity, |shards|);
      ApplyKeys(shards[i].List(), capacity / |shards|, Op.Erase(key));
      present := shards[i].Erase(key);
      OnlyRoutedShardChanges(i, key, old(shards[i].List()));
      assert forall j :: 0 <= j < |shards| && j != i ==> old(ShardOk(j)) && unchanged(shards[j]);
    }

    /** Visits every entry once, shard by shard, and moves none. */
    method ScanAll() returns (out: seq<Pair<K, V>>)
      requires Valid()
      ensures out == Scan(Lists()) && Distinct(out) && |out| <= capacity
    {
      ListsAreWellSharded();
      ghost var lists := Lists();
      out := [];
      for i := 0 to |shards|
        invariant out == Scan(lists[..i])
      {
        assert ShardOk(i);
        var batch := shards[i].Snapshot();
        out := out + batch;
        assert lists[..i + 1][..i] == lists[..i];
      }
      assert lists[..|shards|] == lists;
      ScanIsDistinct(hash, capacity, lists);
    }

    method Size() returns (n: nat)
      requires Valid()
      ensures n == |Scan(Lists())|
    {
      ghost var lists := Lists();
      n := 0;
      for i := 0 to |shards|
        invariant n == |Scan(lists[..i])|
      {
        assert ShardOk(i);
        var size := shards[i].Size();
        n := n + size;
        assert lists[..i + 1][..i] == lists[..i];
      }
      assert lists[..|shards|] == lists;
    }

    method Evictions() returns (n: nat)
      ensures n == Sum(Evicted())
    {
      ghost var counts := Evicted();
      n := 0;
      for i := 0 to |shards|
        invariant n == Sum(counts[..i])
      {
        n := n + shards[i].evictions;
        assert counts[..i + 1][..i] == counts[..i];
      }
      assert counts[..|shards|] == counts;
    }
  }
}
