/** The recency list read against the history of operations, and the counters. */
module LruHistory {
  import opened Words
  import opened Lru

  /** The position of the last operation that used `k`; -1 if there is none. */
  function LastUse<K(==), V>(ops: seq<Op<K, V>>, k: K): int {
    if ops == [] then -1
    else
      var n := |ops| - 1;
      if (ops[n].Get? || ops[n].Put?) && ops[n].key == k then n else LastUse(ops[..n], k)
  }

  /** The value last put under `k`, unless it was erased or cleared since. */
  function LastPut<K(==), V>(ops: seq<Op<K, V>>, k: K): Option<V> {
    if ops == [] then None
    else
      var n := |ops| - 1;
      match ops[n]
      case Put(k', v) => if k' == k then Some(v) else LastPut(ops[..n], k)
      case Erase(k') => if k' == k then None else LastPut(ops[..n], k)
      case Clear => None
      case _ => LastPut(ops[..n], k)
  }

  /** The list is in order of last use, and holds the last values put. */
  ghost predicate TellsHistory<K, V>(list: seq<Pair<K, V>>, ops: seq<Op<K, V>>) {
    && Distinct(list)
    && (forall i :: 0 <= i < |list| ==> LastPut(ops, list[i].key) == Some(list[i].value))
    && (forall i, j :: 0 <= i < j < |list| ==> LastUse(ops, list[i].key) > LastUse(ops, list[j].key))
  }

  lemma {:induction false} LastUseBound<K, V>(ops: seq<Op<K, V>>, k: K)
    ensures -1 <= LastUse(ops, k) < |ops|
  {
    if ops != [] { LastUseBound(ops[..|ops| - 1], k); }
  }

  lemma {:induction false} DropTells<K, V>(list: seq<Pair<K, V>>, ops: seq<Op<K, V>>, k: K)
    requires TellsHistory(list, ops)
    ensures TellsHistory(Drop(list, k), ops)
    ensures forall i :: 0 <= i < |Drop(list, k)| ==> Drop(list, k)[i] in list && Drop(list, k)[i].key != k
  {
    hide LastUse;
    hide LastPut;
    if list != [] {
      assert TellsHistory(list[1..], ops) by {
        assert forall i :: 0 <= i < |list[1..]| ==> list[1..][i] == list[i + 1];
      }
      DropTells(list[1..], ops, k);
      DropDistinct(list, k);
      var rest := Drop(list[1..], k);
      assert forall p :: p in list[1..] ==> exists i :: 0 < i < |list| && list[i] == p;
      assert forall i :: 0 <= i < |rest| ==> rest[i] in list[1..];
    }
  }

  /** Seen from one operation later, entries of other keys tell the same story. */
  lemma OthersUnchanged<K, V>(list: seq<Pair<K, V>>, ops: seq<Op<K, V>>)
    requires ops != [] && ops[|ops| - 1] != Clear && TellsHistory(list, ops[..|ops| - 1])
    requires forall i :: 0 <= i < |list| ==> ops[|ops| - 1].Peek? || list[i].key != ops[|ops| - 1].key
    ensures TellsHistory(list, ops)
  {
  }

  /** The key just used goes in front. */
  lemma {:induction false} FrontTells<K, V>(p: Pair<K, V>, list: seq<Pair<K, V>>, ops: seq<Op<K, V>>)
    requires ops != [] && TellsHistory(list, ops)
    requires forall i :: 0 <= i < |list| ==> list[i].key != p.key
    requires LastUse(ops, p.key) == |ops| - 1 && LastPut(ops, p.key) == Some(p.value)
    ensures TellsHistory([p] + list, ops)
  {
    LastUseBound(ops[..|ops| - 1], p.key);
    forall i | 0 <= i < |list| ensures LastUse(ops, list[i].key) < |ops| - 1 {
      LastUseBound(ops[..|ops| - 1], list[i].key);
    }
  }

  lemma EvictTells<K, V>(list: seq<Pair<K, V>>, capacity: nat, ops: seq<Op<K, V>>)
    requires TellsHistory(list, ops)
    ensures TellsHistory(Evict(list, capacity), ops)
  {
  }

  lemma {:induction false} AbsentKey<K, V>(list: seq<Pair<K, V>>, k: K)
    requires k !in Keys(list)
    ensures forall i :: 0 <= i < |list| ==> list[i].key != k
  {
  }

  lemma {:induction false} LookupTells<K, V>(list: seq<Pair<K, V>>, ops: seq<Op<K, V>>, k: K)
    requires TellsHistory(list, ops) && Lookup(list, k).Some?
    ensures LastPut(ops, k) == Lookup(list, k)
  {
    KeysAreMembers(list, k);
    var i :| 0 <= i < |list| && list[i].key == k;
    LookupAt(list, i);
  }

  lemma ApplyTells<K, V>(list: seq<Pair<K, V>>, capacity: nat, ops: seq<Op<K, V>>)
    requires ops != [] && TellsHistory(list, ops[..|ops| - 1])
    ensures TellsHistory(Apply(list, capacity, ops[|ops| - 1]), ops)
  {
    var before, op := ops[..|ops| - 1], ops[|ops| - 1];
    match op
    case Get(k) =>
      if Lookup(list, k).Some? {
        DropTells(list, before, k);
        LookupTells(list, before, k);
        OthersUnchanged(Drop(list, k), ops);
        FrontTells(Pair(k, Lookup(list, k).value), Drop(list, k), ops);
      } else {
        AbsentKey(list, k);
        OthersUnchanged(list, ops);
      }
    case Peek(_) => OthersUnchanged(list, ops);
    case Put(k, v) =>
      DropTells(list, before, k);
      if Lookup(list, k).Some? {
        OthersUnchanged(Drop(list, k), ops);
        FrontTells(Pair(k, v), Drop(list, k), ops);
      } else {
        AbsentKey(list, k);
        EvictTells(list, capacity, before);
        OthersUnchanged(Evict(list, capacity), ops);
        FrontTells(Pair(k, v), Evict(list, capacity), ops);
      }
    case Erase(k) =>
      DropTells(list, before, k);
      OthersUnchanged(Drop(list, k), ops);
    case Clear =>
  }

  /** The cache refines its history: after any operations the list is in order of
      last use, so the entry evicted next is the one unused longest, and it holds
      the values last put and not erased since. */
  lemma {:induction false} ListIsHistory<K, V>(capacity: nat, ops: seq<Op<K, V>>)
    ensures TellsHistory(Run(capacity, ops), ops)
  {
    if ops != [] {
      ListIsHistory(capacity, ops[..|ops| - 1]);
      ApplyTells(Run(capacity, ops[..|ops| - 1]), capacity, ops);
    }
  }

  ghost predicate OldestFirst<K, V>(list: seq<Pair<K, V>>, ops: seq<Op<K, V>>) {
    forall i, j :: 0 <= i < j < |list| ==> LastUse(ops, list[i].key) < LastUse(ops, list[j].key)
  }

  /** `for_each` goes down the list. The documented order, oldest first, is met
      exactly when there is at most one entry to visit. */
  lemma {:induction false} OldestFirstIff<K, V>(capacity: nat, ops: seq<Op<K, V>>)
    ensures OldestFirst(Run(capacity, ops), ops) <==> |Run(capacity, ops)| <= 1
  {
    hide LastUse;
    hide LastPut;
    hide Run;
    ListIsHistory(capacity, ops);
    var list := Run(capacity, ops);
    if |list| > 1 { assert LastUse(ops, list[0].key) > LastUse(ops, list[1].key); }
  }

  /** Any two keys put into an empty cache are visited the wrong way round. */
  lemma {:induction false} TwoEntriesNewestFirst<K, V>(capacity: nat, a: K, v: V, b: K, w: V)
    requires a != b && capacity >= 2
    ensures var ops := [Put(a, v), Put(b, w)];
            Run(capacity, ops) == [Pair(b, w), Pair(a, v)] && !OldestFirst(Run(capacity, ops), ops)
  {
    var first, ops := [Put(a, v)], [Put(a, v), Put(b, w)];
    assert first[..0] == [] && ops[..1] == first;
    assert Run<K, V>(capacity, []) == [];
    assert Run(capacity, first) == [Pair(a, v)];
    OldestFirstIff(capacity, ops);
  }

  lemma {:induction false} InsertEvictsLast<K, V>(list: seq<Pair<K, V>>, capacity: nat, k: K, v: V)
    requires 0 < capacity <= |list| && Distinct(list) && k !in Keys(list)
    ensures Keys(Insert(list, capacity, k, v)) == Keys(list) - {list[|list| - 1].key} + {k}
  {
    EvictIsDrop(list);
    DropKeys(list, list[|list| - 1].key);
    var kept := Evict(list, capacity);
    assert Insert(list, capacity, k, v)[1..] == kept;
    hide Drop;
    hide Distinct;
  }

  lemma {:induction false} LastIsOldest<K, V>(list: seq<Pair<K, V>>, ops: seq<Op<K, V>>, k: K)
    requires list != [] && TellsHistory(list, ops) && k in Keys(list) && k != list[|list| - 1].key
    ensures LastUse(ops, k) > LastUse(ops, list[|list| - 1].key)
  {
    KeysAreMembers(list, k);
    hide LastUse;
    hide LastPut;
    hide Lru.Keys;
  }

  lemma {:induction false} KeyCount<K, V>(list: seq<Pair<K, V>>)
    requires Distinct(list)
    ensures |Keys(list)| == |list|
  {
    if list != [] {
      HeadIsFresh(list);
      assert Distinct(list[1..]) by { assert forall i :: 0 <= i < |list[1..]| ==> list[1..][i] == list[i + 1]; }
      KeyCount(list[1..]);
    }
  }

  ghost predicate LongestUnused<K, V>(ops: seq<Op<K, V>>, resident: set<K>, k: K) {
    k in resident && forall k' :: k' in resident && k' != k ==> LastUse(ops, k') > LastUse(ops, k)
  }

  lemma {:induction false} LastIsVictim<K, V>(list: seq<Pair<K, V>>, ops: seq<Op<K, V>>)
    requires list != [] && TellsHistory(list, ops)
    ensures LongestUnused(ops, Keys(list), list[|list| - 1].key)
  {
    hide LastUse;
    hide TellsHistory;
    var victim := list[|list| - 1].key;
    forall k | k in Keys(list) && k != victim ensures LastUse(ops, k) > LastUse(ops, victim) {
      LastIsOldest(list, ops, k);
    }
  }

  /** What a put does to the keys. */
  lemma {:induction false} PutKeys<K, V>(list: seq<Pair<K, V>>, capacity: nat, k: K, v: V)
    requires 0 < capacity && Distinct(list)
    ensures var next := Apply(list, capacity, Put(k, v));
            && Lookup(next, k) == Some(v)
            && Keys(next) == if k in Keys(list) || |list| < capacity then Keys(list) + {k}
                             else Keys(list) - {list[|list| - 1].key} + {k}
  {
    if k in Keys(list) {
      DropKeys(list, k);
      var kept := Drop(list, k);
      assert ([Pair(k, v)] + kept)[1..] == kept;
    } else if |list| < capacity {
      assert ([Pair(k, v)] + list)[1..] == list;
    } else {
      InsertEvictsLast(list, capacity, k, v);
    }
  }

  /** A hit is the last value put. A put takes out at most one entry, and that only
      if the key is new and the cache is full: then exactly the resident key unused
      longest. */
  lemma {:induction false} HitsAndVictims<K, V>(capacity: nat, ops: seq<Op<K, V>>, k: K, v: V)
    requires 0 < capacity
    ensures var list, next := Run(capacity, ops), Run(capacity, ops + [Put(k, v)]);
            && (Lookup(list, k).Some? ==> Lookup(list, k) == LastPut(ops, k))
            && Lookup(next, k) == Some(v)
            && (k in Keys(list) || |Keys(list)| < capacity ==> Keys(next) == Keys(list) + {k})
            && (k !in Keys(list) && |Keys(list)| >= capacity ==>
                  exists victim :: victim in Keys(list) && LongestUnused(ops, Keys(list), victim)
                                   && Keys(next) == Keys(list) - {victim} + {k})
  {
    var list := Run(capacity, ops);
    assert (ops + [Put(k, v)])[..|ops|] == ops;
    ListIsHistory(capacity, ops);
    KeyCount(list);
    PutKeys(list, capacity, k, v);
    if Lookup(list, k).Some? {
      LookupTells(list, ops, k);
    } else if |list| >= capacity {
      LastIsVictim(list, ops);
    }
  }

  // -------------------------------------------------------------------------
  // Counters
  // -------------------------------------------------------------------------

  /** `removals` is not kept by the program; it closes the balance. */
  datatype Metrics = Metrics(hits: nat, misses: nat, insertions: nat, updates: nat, evictions: nat, removals: nat)

  function Count<K(==), V>(m: Metrics, list: seq<Pair<K, V>>, capacity: nat, op: Op<K, V>): Metrics {
    match op
    case Get(k) => if Lookup(list, k).Some? then m.(hits := m.hits + 1) else m.(misses := m.misses + 1)
    case Peek(_) => m
    case Put(k, v) =>
      if Lookup(list, k).Some? then m.(updates := m.updates + 1)
      else m.(insertions := m.insertions + 1,
              evictions := m.evictions + |list| - |Evict(list, capacity)|)
    case Erase(k) => if Lookup(list, k).Some? then m.(removals := m.removals + 1) else m
    case Clear => m.(removals := m.removals + |list|)
  }

  function RunMetrics<K(==), V>(capacity: nat, ops: seq<Op<K, V>>): Metrics {
    if ops == [] then Metrics(0, 0, 0, 0, 0, 0)
    else
      var n := |ops| - 1;
      Count(RunMetrics(capacity, ops[..n]), Run(capacity, ops[..n]), capacity, ops[n])
  }

  function Calls<K, V>(ops: seq<Op<K, V>>, puts: bool): nat {
    if ops == [] then 0
    else
      var n := |ops| - 1;
      Calls(ops[..n], puts) + if (if puts then ops[n].Put? else ops[n].Get?) then 1 else 0
  }

  /** What went in is still there, was evicted, or was removed; every lookup is a
      hit or a miss, every put an insertion or an update. */
  lemma {:induction false} MetricsBalance<K, V>(capacity: nat, ops: seq<Op<K, V>>)
    requires 0 < capacity
    ensures var m, list := RunMetrics(capacity, ops), Run(capacity, ops);
            && |list| <= capacity
            && m.insertions == |list| + m.evictions + m.removals
            && m.hits + m.misses == Calls(ops, false)
            && m.insertions + m.updates == Calls(ops, true)
  {
    if ops != [] {
      var n := |ops| - 1;
      MetricsBalance(capacity, ops[..n]);
      ListIsHistory(capacity, ops[..n]);
      if !ops[n].Clear? {
        DropDistinct(Run(capacity, ops[..n]), ops[n].key);
      }
    }
  }

  /** Lookups that found their key, or that did not. */
  function Lookups<K(==), V>(capacity: nat, ops: seq<Op<K, V>>, found: bool): nat {
    if ops == [] then 0
    else
      var n := |ops| - 1;
      Lookups(capacity, ops[..n], found)
      + if ops[n].Get? && (Answer(Run(capacity, ops[..n]), ops[n]).Some? == found) then 1 else 0
  }

  /** Hits are the lookups that returned a value, misses the others. */
  lemma {:induction false} HitsAreFinds<K, V>(capacity: nat, ops: seq<Op<K, V>>)
    ensures RunMetrics(capacity, ops).hits == Lookups(capacity, ops, true)
    ensures RunMetrics(capacity, ops).misses == Lookups(capacity, ops, false)
  {
    if ops != [] { HitsAreFinds(capacity, ops[..|ops| - 1]); }
  }
}
