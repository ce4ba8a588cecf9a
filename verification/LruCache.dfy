/** The cache as the program builds it: a list of nodes and an index from keys to
    nodes. A node's `handle` stands for the list iterator that the index stores,
    which stays valid when the node is spliced to the front. */
module LruCaches {
  import opened Words
  import opened Lru
  import opened LruHistory

  datatype Node<K, V> = Node(handle: nat, key: K, value: V)

  function Contents<K, V>(entries: seq<Node<K, V>>): (r: seq<Pair<K, V>>)
    ensures |r| == |entries|
    ensures forall i :: 0 <= i < |r| ==> r[i] == Pair(entries[i].key, entries[i].value)
  {
    if entries == [] then [] else [Pair(entries[0].key, entries[0].value)] + Contents(entries[1..])
  }

  /** The index a list calls for: each key leads to its node. */
  function IndexOf<K, V>(entries: seq<Node<K, V>>): map<K, nat> {
    if entries == [] then map[] else IndexOf(entries[1..])[entries[0].key := entries[0].handle]
  }

  function Handles<K, V>(entries: seq<Node<K, V>>): set<nat> {
    if entries == [] then {} else {entries[0].handle} + Handles(entries[1..])
  }

  /** No key and no node occurs twice. */
  ghost predicate Sound<K, V>(entries: seq<Node<K, V>>) {
    entries != [] ==>
      && Sound(entries[1..])
      && entries[0].key !in IndexOf(entries[1..])
      && entries[0].handle !in Handles(entries[1..])
  }

  /** The index and the list agree. */
  ghost predicate Linked<K, V>(entries: seq<Node<K, V>>, index: map<K, nat>, next: nat) {
    && Sound(entries) && index == IndexOf(entries)
    && forall h :: h in Handles(entries) ==> h < next
  }

  /** Dereferencing an iterator. */
  function NodeAt<K, V>(entries: seq<Node<K, V>>, handle: nat): Node<K, V>
    requires handle in Handles(entries)
  {
    if entries[0].handle == handle then entries[0] else NodeAt(entries[1..], handle)
  }

  /** The list with one node unlinked. */
  function Unlink<K, V>(entries: seq<Node<K, V>>, handle: nat): (r: seq<Node<K, V>>)
  {
    if entries == [] then []
    else if entries[0].handle == handle then Unlink(entries[1..], handle)
    else [entries[0]] + Unlink(entries[1..], handle)
  }

  lemma {:induction false} IndexKeys<K, V>(entries: seq<Node<K, V>>)
    ensures IndexOf(entries).Keys == Keys(Contents(entries))
    ensures forall k :: k in IndexOf(entries) ==> IndexOf(entries)[k] in Handles(entries)
  {
    if entries != [] {
      IndexKeys(entries[1..]);
      assert Contents(entries)[1..] == Contents(entries[1..]);
    }
  }

  lemma {:induction false} SoundIsDistinct<K, V>(entries: seq<Node<K, V>>)
    requires Sound(entries)
    ensures Distinct(Contents(entries)) && |IndexOf(entries)| == |entries|
  {
    if entries != [] {
      SoundIsDistinct(entries[1..]);
      IndexKeys(entries[1..]);
      assert Contents(entries) == [Contents(entries)[0]] + Contents(entries[1..]);
      ConsDistinct(Contents(entries)[0], Contents(entries[1..]));
      assert IndexOf(entries).Keys == IndexOf(entries[1..]).Keys + {entries[0].key};
    }
  }

  lemma {:induction false} UnlinkAbsent<K, V>(entries: seq<Node<K, V>>, handle: nat)
    requires handle !in Handles(entries)
    ensures Unlink(entries, handle) == entries
  {
    if entries != [] { UnlinkAbsent(entries[1..], handle); }
  }

  /** Following the index finds, and unlinks, what a search by key would ... */
  lemma {:induction false} UnlinkContents<K, V>(entries: seq<Node<K, V>>, k: K)
    requires Sound(entries) && k in IndexOf(entries)
    ensures var h := IndexOf(entries)[k];
            && h in Handles(entries)
            && NodeAt(entries, h) == Node(h, k, NodeAt(entries, h).value)
            && Lookup(Contents(entries), k) == Some(NodeAt(entries, h).value)
            && Contents(Unlink(entries, h)) == Drop(Contents(entries), k)
  {
    var h, rest := IndexOf(entries)[k], entries[1..];
    IndexKeys(rest);
    assert Contents(entries)[1..] == Contents(rest);
    if entries[0].key == k {
      UnlinkAbsent(rest, h);
      DropAbsent(Contents(rest), k);
    } else {
      UnlinkContents(rest, k);
      assert ([entries[0]] + Unlink(rest, h))[1..] == Unlink(rest, h);
    }
  }

  /** ... and the rest stays in order. */
  lemma {:induction false} UnlinkByIndex<K, V>(entries: seq<Node<K, V>>, k: K)
    requires Sound(entries) && k in IndexOf(entries)
    ensures var r := Unlink(entries, IndexOf(entries)[k]);
            && Sound(r) && IndexOf(r) == IndexOf(entries) - {k}
            && Handles(r) == Handles(entries) - {IndexOf(entries)[k]}
  {
    var h, rest := IndexOf(entries)[k], entries[1..];
    IndexKeys(rest);
    if entries[0].key == k {
      UnlinkAbsent(rest, h);
      assert IndexOf(rest) == IndexOf(entries) - {k};
    } else {
      UnlinkByIndex(rest, k);
      ConsUnlinked(entries, Unlink(rest, h), k, h);
    }
  }

  lemma {:induction false} ConsUnlinked<K, V>(entries: seq<Node<K, V>>, rest: seq<Node<K, V>>, k: K, h: nat)
    requires entries != [] && Sound(entries) && Sound(rest) && entries[0].key != k && entries[0].handle != h
    requires IndexOf(rest) == IndexOf(entries[1..]) - {k} && Handles(rest) == Handles(entries[1..]) - {h}
    ensures var r := [entries[0]] + rest;
            Sound(r) && IndexOf(r) == IndexOf(entries) - {k} && Handles(r) == Handles(entries) - {h}
  {
    var r := [entries[0]] + rest;
    assert r[1..] == rest;
    assert IndexOf(r) == IndexOf(entries) - {k};
  }

  lemma {:induction false} LinkFront<K, V>(node: Node<K, V>, entries: seq<Node<K, V>>, index: map<K, nat>, next: nat)
    requires Linked(entries, index, next) && node.key !in index && node.handle < next
    requires node.handle !in Handles(entries)
    ensures Linked([node] + entries, index[node.key := node.handle], next)
    ensures Contents([node] + entries) == [Pair(node.key, node.value)] + Contents(entries)
  {
    assert ([node] + entries)[1..] == entries;
  }

  /** Splicing a node to the front, with its value possibly replaced. */
  lemma {:induction false} SpliceFront<K, V>(entries: seq<Node<K, V>>, index: map<K, nat>, next: nat, k: K, v: V)
    requires Linked(entries, index, next) && k in index
    ensures var r := [Node(index[k], k, v)] + Unlink(entries, index[k]);
            Linked(r, index, next) && Contents(r) == [Pair(k, v)] + Drop(Contents(entries), k)
  {
    UnlinkContents(entries, k);
    UnlinkByIndex(entries, k);
    LinkFront(Node(index[k], k, v), Unlink(entries, index[k]), index - {k}, next);
    assert (index - {k})[k := index[k]] == index;
  }

  lemma {:induction false} UnlinkBack<K, V>(entries: seq<Node<K, V>>)
    requires Sound(entries) && entries != []
    ensures var n := |entries| - 1;
            && Sound(entries[..n]) && Handles(entries[..n]) <= Handles(entries)
            && entries[n].key in IndexOf(entries)
            && IndexOf(entries[..n]) == IndexOf(entries) - {entries[n].key}
  {
    var n := |entries| - 1;
    if n > 0 {
      UnlinkBack(entries[1..]);
      assert entries[1..][..n - 1] == entries[..n][1..];
      IndexKeys(entries[1..]);
      assert entries[0].key != entries[n].key;
    } else {
      assert entries[..n] == [] && IndexOf(entries[1..]) == map[];
      assert IndexOf(entries) - {entries[n].key} == map[];
    }
  }

  class LruCache<K(==, !new), V> {
    const capacity: nat
    var entries: seq<Node<K, V>>
    var index: map<K, nat>
    var nextHandle: nat
    var hits: nat
    var misses: nat
    var insertions: nat
    var updates: nat
    var evictions: nat

    ghost predicate Valid()
      reads this
    {
      0 < capacity && |entries| <= capacity && Linked(entries, index, nextHandle)
    }

    /** Keys and values, most recently used first. */
    ghost function List(): seq<Pair<K, V>>
      reads this
    {
      Contents(entries)
    }

    /** The program's counters, with the removals it does not keep given. */
    ghost function Counters(removals: nat): Metrics
      reads this
    {
      Metrics(hits, misses, insertions, updates, evictions, removals)
    }

    constructor (capacity: nat)
      requires 0 < capacity
      ensures Valid() && List() == [] && this.capacity == capacity
      ensures Counters(0) == Metrics(0, 0, 0, 0, 0, 0)
    {
      this.capacity := capacity;
      entries, index, nextHandle := [], map[], 0;
      hits, misses, insertions, updates, evictions := 0, 0, 0, 0, 0;
    }

    /** The constructor's check, as an error return. */
    static method Create(capacity: nat) returns (r: Option<LruCache<K, V>>)
      ensures r.Some? <==> capacity > 0
      ensures r.Some? ==> fresh(r.value) && r.value.Valid() && r.value.List() == [] && r.value.capacity == capacity
    {
      if capacity == 0 {
        return None;
      }
      var cache := new LruCache<K, V>(capacity);
      r := Some(cache);
    }

    method Get(key: K) returns (r: Option<V>)
      requires Valid()
      modifies this
      ensures Valid()
      ensures r == Answer(old(List()), Op.Get(key)) && evictions == old(evictions)
      ensures List() == Apply(old(List()), capacity, Op.Get(key))
      ensures forall n: nat :: Counters(n) == Count(old(Counters(n)), old(List()), capacity, Op.Get(key))
    {
      hide Contents;
      hide Lru.Keys;
      hide Lookup;
      hide Drop;
      hide Unlink;
      hide IndexOf;
      hide Handles;
      hide Sound;
      hide Distinct;
      hide NodeAt;
      IndexKeys(entries);
      if key !in index {
        misses := misses + 1;
        return None;
      }
      UnlinkContents(entries, key);
      hits := hits + 1;
      var node := NodeAt(entries, index[key]);
      SpliceFront(entries, index, nextHandle, key, node.value);
      SoundIsDistinct(entries);
      DropDistinct(List(), key);
      entries := [node] + Unlink(entries, index[key]);
      return Some(node.value);
    }

    method Peek(key: K) returns (r: Option<V>)
      requires Valid()
      ensures r == Answer(List(), Op.Peek(key))
    {
      IndexKeys(entries);
      if key !in index {
        return None;
      }
      UnlinkContents(entries, key);
      return Some(NodeAt(entries, index[key]).value);
    }

    method Put(key: K, value: V)
      requires Valid()
      modifies this
      ensures Valid()
      ensures List() == Apply(old(List()), capacity, Op.Put(key, value))
      ensures evictions == old(evictions) + if Lookup(old(List()), key).None? && |old(List())| >= capacity then 1 else 0
      ensures forall n: nat :: Counters(n) == Count(old(Counters(n)), old(List()), capacity, Op.Put(key, value))
    {
      hide Contents;
      hide Lru.Keys;
      hide Lookup;
      hide Drop;
      hide Unlink;
      hide IndexOf;
      hide Handles;
      hide Sound;
      hide Distinct;
      hide NodeAt;
      IndexKeys(entries);
      SoundIsDistinct(entries);
      if key in index {
        updates := updates + 1;
        UnlinkContents(entries, key);
        var node := NodeAt(entries, index[key]).(value := value);
        SpliceFront(entries, index, nextHandle, key, value);
        DropDistinct(List(), key);
        entries := [node] + Unlink(entries, index[key]);
        return;
      }
      if |index| >= capacity {
        EvictLru();
      }
      var node := Node(nextHandle, key, value);
      assert key !in index;
      nextHandle := nextHandle + 1;
      LinkFront(node, entries, index, nextHandle);
      entries := [node] + entries;
      index := index[key := node.handle];
      insertions := insertions + 1;
    }

    method EvictLru()
      requires Valid()
      modifies this`entries, this`index, this`evictions
      ensures Valid() && index.Keys <= old(index.Keys)
      ensures List() == if old(entries) == [] then [] else old(List())[..|old(entries)| - 1]
      ensures evictions == old(evictions) + |old(entries)| - |entries|
    {
      if entries == [] {
        return;
      }
      UnlinkBack(entries);
      var n := |entries| - 1;
      index := index - {entries[n].key};
      entries := entries[..n];
      evictions := evictions + 1;
    }

    method Erase(key: K) returns (present: bool)
      requires Valid()
      modifies this`entries, this`index
      ensures Valid()
      ensures present == Lookup(old(List()), key).Some? && evictions == old(evictions)
      ensures List() == Apply(old(List()), capacity, Op.Erase(key))
    {
      hide Contents;
      hide Lru.Keys;
      hide Lookup;
      hide Drop;
      hide Unlink;
      hide IndexOf;
      hide Handles;
      hide Sound;
      hide Distinct;
      IndexKeys(entries);
      SoundIsDistinct(entries);
      if key !in index {
        DropAbsent(List(), key);
        return false;
      }
      UnlinkContents(entries, key);
      UnlinkByIndex(entries, key);
      DropDistinct(List(), key);
      entries := Unlink(entries, index[key]);
      index := index - {key};
      return true;
    }

    method Clear()
      requires Valid()
      modifies this`entries, this`index
      ensures Valid() && List() == []
    {
      entries, index := [], map[];
    }

    method Size() returns (n: nat)
      requires Valid()
      ensures n == |List()| <= capacity
    {
      SoundIsDistinct(entries);
      n := |index|;
    }

    /** The scan behind `for_each` and `snapshot`: front to back, which is most
        recently used first, and no entry moves. */
    method Snapshot() returns (out: seq<Pair<K, V>>)
      requires Valid()
      ensures out == List()
    {
      out := [];
      for i := 0 to |entries|
        invariant out == List()[..i]
      {
        out := out + [Pair(entries[i].key, entries[i].value)];
      }
    }
  }
}
