/** Whole runs of the sharded cache: each shard is a cache of its own over the
    operations routed to it, and so still tells the history of all of them. */
module ShardedHistory {
  import opened Words
  import opened Routing
  import opened Lru
  import opened LruHistory
  import opened Sharding

  function Empties<K, V>(n: nat): (r: seq<seq<Pair<K, V>>>)
    ensures |r| == n && forall i :: 0 <= i < n ==> r[i] == []
  {
    seq(n, _ => [])
  }

  /** One operation: on its key's shard, or, for `clear`, on every shard in turn. */
  function StepAll<K(==), V>(hash: K -> nat, perShard: nat, lists: seq<seq<Pair<K, V>>>, op: Op<K, V>)
    : (r: seq<seq<Pair<K, V>>>)
    requires HasSingleBit(|lists|)
    ensures |r| == |lists|
  {
    if op.Clear? then Empties(|lists|) else ShardApply(hash, perShard, lists, op)
  }

  function RunAll<K(==), V>(hash: K -> nat, count: nat, perShard: nat, ops: seq<Op<K, V>>)
    : (r: seq<seq<Pair<K, V>>>)
    requires HasSingleBit(count)
    ensures |r| == count
  {
    if ops == [] then Empties(count)
    else StepAll(hash, perShard, RunAll(hash, count, perShard, ops[..|ops| - 1]), ops[|ops| - 1])
  }

  predicate Reaches<K, V>(hash: K -> nat, count: nat, op: Op<K, V>, i: nat)
    requires HasSingleBit(count)
  {
    op.Clear? || Route(hash, count, op.key) == i
  }

  /** The operations that reach shard `i`. */
  function RoutedOps<K, V>(hash: K -> nat, count: nat, ops: seq<Op<K, V>>, i: nat): seq<Op<K, V>>
    requires HasSingleBit(count)
  {
    if ops == [] then []
    else
      var n := |ops| - 1;
      var before := RoutedOps(hash, count, ops[..n], i);
      if Reaches(hash, count, ops[n], i) then before + [ops[n]] else before
  }

  lemma {:induction false} RoutedSnoc<K, V>(hash: K -> nat, count: nat, ops: seq<Op<K, V>>, op: Op<K, V>, i: nat)
    requires HasSingleBit(count)
    ensures RoutedOps(hash, count, ops + [op], i)
         == RoutedOps(hash, count, ops, i) + if Reaches(hash, count, op, i) then [op] else []
  {
    assert (ops + [op])[..|ops|] == ops;
  }

  /** Shard `i` is a cache by itself over what reaches it. */
  lemma {:induction false} ShardIsItsOwnCache<K, V>(hash: K -> nat, count: nat, perShard: nat, ops: seq<Op<K, V>>,
                                                    i: nat)
    requires HasSingleBit(count) && i < count
    ensures RunAll(hash, count, perShard, ops)[i] == Run(perShard, RoutedOps(hash, count, ops, i))
  {
    hide Apply;
    if ops != [] {
      var n := |ops| - 1;
      ShardIsItsOwnCache(hash, count, perShard, ops[..n], i);
      var before := RoutedOps(hash, count, ops[..n], i);
      assert (before + [ops[n]])[..|before|] == before;
      if ops[n].Clear? { ClearEmpties(Run(perShard, before), perShard); }
    }
  }

  lemma ClearEmpties<K, V>(list: seq<Pair<K, V>>, capacity: nat)
    ensures Apply(list, capacity, Clear) == []
  {
  }

  // -------------------------------------------------------------------------
  // A shard tells the whole history
  // -------------------------------------------------------------------------

  lemma {:induction false} LastPutIsRouted<K, V>(hash: K -> nat, count: nat, ops: seq<Op<K, V>>, k: K)
    requires HasSingleBit(count)
    ensures LastPut(RoutedOps(hash, count, ops, Route(hash, count, k)), k) == LastPut(ops, k)
  {
    hide Route;
    if ops != [] {
      var n := |ops| - 1;
      LastPutIsRouted(hash, count, ops[..n], k);
      var before := RoutedOps(hash, count, ops[..n], Route(hash, count, k));
      assert (before + [ops[n]])[..|before|] == before;
    }
  }

  /** Among the keys of one shard, the order of last use is that of all operations. */
  lemma {:induction false} OrderIsRouted<K, V>(hash: K -> nat, count: nat, ops: seq<Op<K, V>>, i: nat, a: K, b: K)
    requires HasSingleBit(count) && Route(hash, count, a) == i && Route(hash, count, b) == i
    requires LastUse(RoutedOps(hash, count, ops, i), a) > LastUse(RoutedOps(hash, count, ops, i), b)
    ensures LastUse(ops, a) > LastUse(ops, b)
  {
    hide Route;
    if ops != [] {
      var n := |ops| - 1;
      var before := RoutedOps(hash, count, ops[..n], i);
      assert (before + [ops[n]])[..|before|] == before;
      LastUseBound(before, a);
      LastUseBound(ops[..n], b);
      if LastUse(before, a) > LastUse(before, b) {
        OrderIsRouted(hash, count, ops[..n], i, a, b);
      }
    }
  }

  lemma {:induction false} RunIsRouted<K, V>(hash: K -> nat, count: nat, perShard: nat, ops: seq<Op<K, V>>)
    requires HasSingleBit(count) && 0 < perShard
    ensures WellSharded(hash, perShard, RunAll(hash, count, perShard, ops))
  {
    hide Route;
    hide ShardApply;
    if ops != [] {
      var n := |ops| - 1;
      RunIsRouted(hash, count, perShard, ops[..n]);
      if !ops[n].Clear? {
        ShardApplyKeeps(hash, perShard, RunAll(hash, count, perShard, ops[..n]), ops[n]);
      }
    }
  }

  /** The cache refines its history, shard by shard: each list is in the order in
      which all operations last used its keys, and holds the values they last put. */
  lemma {:induction false} EveryShardTellsHistory<K, V>(hash: K -> nat, count: nat, perShard: nat, ops: seq<Op<K, V>>,
                                                        i: nat)
    requires HasSingleBit(count) && 0 < perShard && i < count
    ensures TellsHistory(RunAll(hash, count, perShard, ops)[i], ops)
  {
    hide RunAll;
    hide Run;
    hide Route;
    var list, routed := RunAll(hash, count, perShard, ops)[i], RoutedOps(hash, count, ops, i);
    ShardIsItsOwnCache(hash, count, perShard, ops, i);
    ListIsHistory(perShard, routed);
    RunIsRouted(hash, count, perShard, ops);
    assert RoutedTo(hash, count, list, i);
    forall x | 0 <= x < |list| ensures LastPut(ops, list[x].key) == Some(list[x].value) {
      LastPutIsRouted(hash, count, ops, list[x].key);
    }
    forall x, y | 0 <= x < y < |list| ensures LastUse(ops, list[x].key) > LastUse(ops, list[y].key) {
      OrderIsRouted(hash, count, ops, i, list[x].key, list[y].key);
    }
  }

  /** Whatever a lookup finds after any operations is the value last put. */
  lemma {:induction false} HitsAreLastPuts<K, V>(hash: K -> nat, count: nat, perShard: nat, ops: seq<Op<K, V>>, k: K)
    requires HasSingleBit(count) && 0 < perShard
    ensures var found := Lookup(RunAll(hash, count, perShard, ops)[Route(hash, count, k)], k);
            found.Some? ==> found == LastPut(ops, k)
  {
    hide RunAll;
    hide Route;
    hide TellsHistory;
    var list := RunAll(hash, count, perShard, ops)[Route(hash, count, k)];
    EveryShardTellsHistory(hash, count, perShard, ops, Route(hash, count, k));
    if Lookup(list, k).Some? { LookupTells(list, ops, k); }
  }

  /** A put touches its key's shard only. It takes nothing out of it if the key is
      resident or the shard has room, and else exactly the key there that all the
      operations left unused longest. */
  lemma {:induction false} ShardVictims<K, V>(hash: K -> nat, count: nat, perShard: nat, ops: seq<Op<K, V>>, k: K, v: V)
    requires HasSingleBit(count) && 0 < perShard
    ensures var i := Route(hash, count, k);
            var lists, next := RunAll(hash, count, perShard, ops), RunAll(hash, count, perShard, ops + [Put(k, v)]);
            && (forall j :: 0 <= j < count && j != i ==> next[j] == lists[j])
            && Lookup(next[i], k) == Some(v)
            && (k in Keys(lists[i]) || |Keys(lists[i])| < perShard ==> Keys(next[i]) == Keys(lists[i]) + {k})
            && (k !in Keys(lists[i]) && |Keys(lists[i])| >= perShard ==>
                  exists victim :: victim in Keys(lists[i]) && LongestUnused(ops, Keys(lists[i]), victim)
                                   && Keys(next[i]) == Keys(lists[i]) - {victim} + {k})
  {
    hide Route;
    hide TellsHistory;
    hide Lru.Apply;
    assert (ops + [Put(k, v)])[..|ops|] == ops;
    var list := RunAll(hash, count, perShard, ops)[Route(hash, count, k)];
    hide RunAll;
    EveryShardTellsHistory(hash, count, perShard, ops, Route(hash, count, k));
    TellsDistinct(list, ops);
    KeyCount(list);
    PutKeys(list, perShard, k, v);
    if k !in Keys(list) && |list| >= perShard { LastIsVictim(list, ops); }
  }

  lemma {:induction false} TellsDistinct<K, V>(list: seq<Pair<K, V>>, ops: seq<Op<K, V>>)
    requires TellsHistory(list, ops)
    ensures Distinct(list)
  {
  }

  // -------------------------------------------------------------------------
  // The summed counters
  // -------------------------------------------------------------------------

  function Plus(a: Metrics, b: Metrics): Metrics {
    Metrics(a.hits + b.hits, a.misses + b.misses, a.insertions + b.insertions, a.updates + b.updates,
            a.evictions + b.evictions, a.removals + b.removals)
  }

  /** The counters of the first `m` shards, summed. */
  function TotalMetrics<K(==), V>(hash: K -> nat, count: nat, perShard: nat, ops: seq<Op<K, V>>, m: nat): Metrics
    requires HasSingleBit(count)
  {
    if m == 0 then Metrics(0, 0, 0, 0, 0, 0)
    else Plus(TotalMetrics(hash, count, perShard, ops, m - 1),
              RunMetrics(perShard, RoutedOps(hash, count, ops, m - 1)))
  }

  function TotalCalls<K, V>(hash: K -> nat, count: nat, ops: seq<Op<K, V>>, puts: bool, m: nat): nat
    requires HasSingleBit(count)
  {
    if m == 0 then 0
    else TotalCalls(hash, count, ops, puts, m - 1) + Calls(RoutedOps(hash, count, ops, m - 1), puts)
  }

  predicate Counts<K, V>(op: Op<K, V>, puts: bool) {
    if puts then op.Put? else op.Get?
  }

  lemma {:induction false} OneShardCounts<K, V>(hash: K -> nat, count: nat, ops: seq<Op<K, V>>, puts: bool, m: nat)
    requires HasSingleBit(count) && ops != []
    ensures var op, before := ops[|ops| - 1], ops[..|ops| - 1];
            TotalCalls(hash, count, ops, puts, m)
            == TotalCalls(hash, count, before, puts, m)
               + if Counts(op, puts) && Route(hash, count, op.key) < m then 1 else 0
  {
    hide Route;
    if m > 0 {
      OneShardCounts(hash, count, ops, puts, m - 1);
      var n := |ops| - 1;
      var before := RoutedOps(hash, count, ops[..n], m - 1);
      assert (before + [ops[n]])[..|before|] == before;
    }
  }

  lemma {:induction false} NoCalls<K, V>(hash: K -> nat, count: nat, puts: bool, m: nat)
    requires HasSingleBit(count)
    ensures TotalCalls<K, V>(hash, count, [], puts, m) == 0
  {
    if m > 0 { NoCalls<K, V>(hash, count, puts, m - 1); }
  }

  /** Every call reaches one shard. */
  lemma {:induction false} CallsSpread<K, V>(hash: K -> nat, count: nat, ops: seq<Op<K, V>>, puts: bool)
    requires HasSingleBit(count)
    ensures TotalCalls(hash, count, ops, puts, count) == Calls(ops, puts)
  {
    hide Route;
    hide TotalCalls;
    if ops == [] {
      NoCalls<K, V>(hash, count, puts, count);
    } else {
      CallsSpread(hash, count, ops[..|ops| - 1], puts);
      OneShardCounts(hash, count, ops, puts, count);
    }
  }

  ghost predicate Balanced(m: Metrics, size: nat, gets: nat, puts: nat) {
    m.insertions == size + m.evictions + m.removals && m.hits + m.misses == gets && m.insertions + m.updates == puts
  }

  lemma {:induction false} ShardsBalance<K, V>(hash: K -> nat, count: nat, perShard: nat, ops: seq<Op<K, V>>, m: nat)
    requires HasSingleBit(count) && 0 < perShard && m <= count
    ensures Balanced(TotalMetrics(hash, count, perShard, ops, m), |Scan(RunAll(hash, count, perShard, ops)[..m])|,
                     TotalCalls(hash, count, ops, false, m), TotalCalls(hash, count, ops, true, m))
  {
    hide RunAll;
    hide Run;
    hide RunMetrics;
    hide Calls;
    if m > 0 {
      var lists := RunAll(hash, count, perShard, ops);
      ShardsBalance(hash, count, perShard, ops, m - 1);
      assert lists[..m][..m - 1] == lists[..m - 1];
      ShardIsItsOwnCache(hash, count, perShard, ops, m - 1);
      MetricsBalance(perShard, RoutedOps(hash, count, ops, m - 1));
    }
  }

  /** So the counters summed over the shards balance as one cache's do: every
      lookup hit or missed somewhere, every put inserted or updated, and what was
      inserted is still there, was evicted or was removed. */
  lemma {:induction false} TotalsBalance<K, V>(hash: K -> nat, count: nat, perShard: nat, ops: seq<Op<K, V>>)
    requires HasSingleBit(count) && 0 < perShard
    ensures Balanced(TotalMetrics(hash, count, perShard, ops, count), |Scan(RunAll(hash, count, perShard, ops))|,
                     Calls(ops, false), Calls(ops, true))
  {
    hide RunAll;
    hide TotalMetrics;
    hide TotalCalls;
    var lists := RunAll(hash, count, perShard, ops);
    ShardsBalance(hash, count, perShard, ops, count);
    assert lists[..count] == lists;
    CallsSpread(hash, count, ops, false);
    CallsSpread(hash, count, ops, true);
  }

  /** Lookups of the whole cache that found their key, or that did not. */
  function AllLookups<K(==), V>(hash: K -> nat, count: nat, perShard: nat, ops: seq<Op<K, V>>, found: bool): nat
    requires HasSingleBit(count)
  {
    if ops == [] then 0
    else
      var n := |ops| - 1;
      AllLookups(hash, count, perShard, ops[..n], found)
      + if ops[n].Get? && Finds(hash, count, perShard, ops[..n], ops[n].key) == found then 1 else 0
  }

  predicate Finds<K(==), V>(hash: K -> nat, count: nat, perShard: nat, ops: seq<Op<K, V>>, k: K)
    requires HasSingleBit(count)
  {
    Lookup(RunAll(hash, count, perShard, ops)[Route(hash, count, k)], k).Some?
  }

  lemma {:induction false} ShardHits<K, V>(hash: K -> nat, count: nat, perShard: nat, ops: seq<Op<K, V>>, i: nat)
    requires HasSingleBit(count) && ops != [] && i < count
    ensures var op, before := ops[|ops| - 1], ops[..|ops| - 1];
            var m, m' := RunMetrics(perShard, RoutedOps(hash, count, before, i)),
                         RunMetrics(perShard, RoutedOps(hash, count, ops, i));
            var here := op.Get? && Route(hash, count, op.key) == i;
            && m'.hits == m.hits + (if here && Finds(hash, count, perShard, before, op.key) then 1 else 0)
            && m'.misses == m.misses + (if here && !Finds(hash, count, perShard, before, op.key) then 1 else 0)
  {
    hide Route;
    hide RunAll;
    hide Run;
    var n := |ops| - 1;
    var before := RoutedOps(hash, count, ops[..n], i);
    ShardIsItsOwnCache(hash, count, perShard, ops[..n], i);
    assert (before + [ops[n]])[..|before|] == before;
  }

  lemma {:induction false} OneShardFinds<K, V>(hash: K -> nat, count: nat, perShard: nat, ops: seq<Op<K, V>>, m: nat)
    requires HasSingleBit(count) && ops != [] && m <= count
    ensures var op, before := ops[|ops| - 1], ops[..|ops| - 1];
            var t, t' := TotalMetrics(hash, count, perShard, before, m), TotalMetrics(hash, count, perShard, ops, m);
            var here := op.Get? && Route(hash, count, op.key) < m;
            && t'.hits == t.hits + (if here && Finds(hash, count, perShard, before, op.key) then 1 else 0)
            && t'.misses == t.misses + (if here && !Finds(hash, count, perShard, before, op.key) then 1 else 0)
  {
    hide Route;
    hide RunMetrics;
    hide RoutedOps;
    hide Finds;
    if m > 0 {
      OneShardFinds(hash, count, perShard, ops, m - 1);
      ShardHits(hash, count, perShard, ops, m - 1);
    }
  }

  lemma {:induction false} NoFinds<K, V>(hash: K -> nat, count: nat, perShard: nat, m: nat)
    requires HasSingleBit(count)
    ensures var t := TotalMetrics<K, V>(hash, count, perShard, [], m); t.hits == 0 && t.misses == 0
  {
    if m > 0 { NoFinds<K, V>(hash, count, perShard, m - 1); }
  }

  /** The summed hits are the lookups of the whole cache that found their key, the
      summed misses the others. */
  lemma {:induction false} HitsAddUp<K, V>(hash: K -> nat, count: nat, perShard: nat, ops: seq<Op<K, V>>)
    requires HasSingleBit(count)
    ensures var t := TotalMetrics(hash, count, perShard, ops, count);
            && t.hits == AllLookups(hash, count, perShard, ops, true)
            && t.misses == AllLookups(hash, count, perShard, ops, false)
  {
    hide Route;
    hide TotalMetrics;
    hide Finds;
    if ops == [] {
      NoFinds<K, V>(hash, count, perShard, count);
    } else {
      HitsAddUp(hash, count, perShard, ops[..|ops| - 1]);
      OneShardFinds(hash, count, perShard, ops, count);
    }
  }
}
