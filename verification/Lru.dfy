/** Least-recently-used caching, as operations on the recency list: pairs of key
    and value, most recently used first. */
module Lru {
  import opened Words

  datatype Pair<K, V> = Pair(key: K, value: V)

  datatype Op<K, V> =
    | Get(key: K)
    | Peek(key: K)
    | Put(key: K, value: V)
    | Erase(key: K)
    | Clear

  function Keys<K, V>(list: seq<Pair<K, V>>): (r: set<K>)
    ensures forall i :: 0 <= i < |list| ==> list[i].key in r
  {
    if list == [] then {} else {list[0].key} + Keys(list[1..])
  }

  function Lookup<K(==), V>(list: seq<Pair<K, V>>, k: K): (r: Option<V>)
    ensures r.Some? <==> k in Keys(list)
  {
    if list == [] then None
    else if list[0].key == k then Some(list[0].value)
    else Lookup(list[1..], k)
  }

  /** The list with the entries of other keys only. */
  function Drop<K(==), V>(list: seq<Pair<K, V>>, k: K): (r: seq<Pair<K, V>>)
    ensures |r| <= |list|
  {
    if list == [] then []
    else if list[0].key == k then Drop(list[1..], k)
    else [list[0]] + Drop(list[1..], k)
  }

  function Touch<K(==), V>(list: seq<Pair<K, V>>, k: K): seq<Pair<K, V>> {
    var found := Lookup(list, k);
    if found.Some? then [Pair(k, found.value)] + Drop(list, k) else list
  }

  function Evict<K, V>(list: seq<Pair<K, V>>, capacity: nat): seq<Pair<K, V>> {
    if |list| >= capacity && list != [] then list[..|list| - 1] else list
  }

  function Insert<K(==), V>(list: seq<Pair<K, V>>, capacity: nat, k: K, v: V): seq<Pair<K, V>> {
    if Lookup(list, k).Some? then [Pair(k, v)] + Drop(list, k)
    else [Pair(k, v)] + Evict(list, capacity)
  }

  function Apply<K(==), V>(list: seq<Pair<K, V>>, capacity: nat, op: Op<K, V>): seq<Pair<K, V>> {
    match op
    case Get(k) => Touch(list, k)
    case Peek(_) => list
    case Put(k, v) => Insert(list, capacity, k, v)
    case Erase(k) => Drop(list, k)
    case Clear => []
  }

  /** What a lookup returns. */
  function Answer<K(==), V>(list: seq<Pair<K, V>>, op: Op<K, V>): Option<V> {
    if op.Get? || op.Peek? then Lookup(list, op.key) else None
  }

  function Run<K(==), V>(capacity: nat, ops: seq<Op<K, V>>): seq<Pair<K, V>> {
    if ops == [] then []
    else Apply(Run(capacity, ops[..|ops| - 1]), capacity, ops[|ops| - 1])
  }

  ghost predicate Distinct<K, V>(list: seq<Pair<K, V>>) {
    forall i, j :: 0 <= i < j < |list| ==> list[i].key != list[j].key
  }

  // -------------------------------------------------------------------------
  // The algebra of dropping and restricting
  // -------------------------------------------------------------------------

  /** The entries whose keys are in `s`, in order. */
  function Restrict<K(==), V>(list: seq<Pair<K, V>>, s: set<K>): seq<Pair<K, V>> {
    if list == [] then []
    else if list[0].key in s then [list[0]] + Restrict(list[1..], s)
    else Restrict(list[1..], s)
  }

  lemma {:induction false} KeysAreMembers<K, V>(list: seq<Pair<K, V>>, k: K)
    ensures k in Keys(list) <==> exists i :: 0 <= i < |list| && list[i].key == k
  {
    if list != [] {
      KeysAreMembers(list[1..], k);
      if i :| 0 <= i < |list[1..]| && list[1..][i].key == k {
        assert list[i + 1].key == k;
      }
    }
  }

  lemma {:induction false} LookupAt<K, V>(list: seq<Pair<K, V>>, i: nat)
    requires Distinct(list) && i < |list|
    ensures Lookup(list, list[i].key) == Some(list[i].value)
  {
    if i > 0 { LookupAt(list[1..], i - 1); }
  }

  lemma {:induction false} DropAbsent<K, V>(list: seq<Pair<K, V>>, k: K)
    requires k !in Keys(list)
    ensures Drop(list, k) == list
  {
    if list != [] { DropAbsent(list[1..], k); }
  }

  lemma {:induction false} DropKeys<K, V>(list: seq<Pair<K, V>>, k: K)
    ensures Keys(Drop(list, k)) == Keys(list) - {k}
  {
    if list != [] {
      DropKeys(list[1..], k);
      if list[0].key != k {
        assert ([list[0]] + Drop(list[1..], k))[1..] == Drop(list[1..], k);
      }
    }
  }

  lemma {:induction false} DropDistinct<K, V>(list: seq<Pair<K, V>>, k: K)
    requires Distinct(list)
    ensures Distinct(Drop(list, k))
    ensures |Drop(list, k)| == if k in Keys(list) then |list| - 1 else |list|
  {
    if list != [] {
      DropDistinct(list[1..], k);
      DropKeys(list[1..], k);
      HeadIsFresh(list);
      if list[0].key == k {
        DropAbsent(list[1..], k);
      } else {
        ConsDistinct(list[0], Drop(list[1..], k));
      }
    }
  }

  lemma HeadIsFresh<K, V>(list: seq<Pair<K, V>>)
    requires list != [] && Distinct(list)
    ensures list[0].key !in Keys(list[1..])
  {
    KeysAreMembers(list[1..], list[0].key);
  }

  lemma {:induction false} ConsDistinct<K, V>(p: Pair<K, V>, list: seq<Pair<K, V>>)
    requires Distinct(list) && p.key !in Keys(list)
    ensures Distinct([p] + list)
    ensures Keys([p] + list) == {p.key} + Keys(list)
  {
    assert ([p] + list)[1..] == list;
  }

  lemma {:induction false} RestrictDrop<K, V>(list: seq<Pair<K, V>>, s: set<K>, k: K)
    ensures Restrict(Drop(list, k), s) == Drop(Restrict(list, s), k)
  {
    if list != [] {
      RestrictDrop(list[1..], s, k);
      if list[0].key != k {
        assert ([list[0]] + Drop(list[1..], k))[1..] == Drop(list[1..], k);
      }
      if list[0].key in s {
        assert ([list[0]] + Restrict(list[1..], s))[1..] == Restrict(list[1..], s);
      }
    }
  }

  /** Restriction only looks at the keys that are there. */
  lemma {:induction false} RestrictAgrees<K, V>(list: seq<Pair<K, V>>, s: set<K>, s': set<K>)
    requires s * Keys(list) == s' * Keys(list)
    ensures Restrict(list, s) == Restrict(list, s')
  {
    if list != [] {
      assert Keys(list[1..]) <= Keys(list);
      assert list[0].key in s <==> list[0].key in s * Keys(list);
      assert list[0].key in s' <==> list[0].key in s' * Keys(list);
      forall k ensures k in s * Keys(list[1..]) <==> k in s' * Keys(list[1..]) {
        assert k in Keys(list[1..]) ==> (k in s <==> k in s * Keys(list)) && (k in s' <==> k in s' * Keys(list));
      }
      RestrictAgrees(list[1..], s, s');
    }
  }

  /** Taking a key out of the restriction drops it. */
  lemma {:induction false} RestrictLess<K, V>(list: seq<Pair<K, V>>, s: set<K>, k: K)
    ensures Restrict(list, s - {k}) == Drop(Restrict(list, s), k)
  {
    if list != [] {
      RestrictLess(list[1..], s, k);
      if list[0].key in s {
        assert ([list[0]] + Restrict(list[1..], s))[1..] == Restrict(list[1..], s);
      }
    }
  }

  lemma {:induction false} RestrictSnoc<K, V>(list: seq<Pair<K, V>>, s: set<K>)
    requires list != []
    ensures var n := |list| - 1;
            Restrict(list, s) == Restrict(list[..n], s) + if list[n].key in s then [list[n]] else []
  {
    if |list| > 1 {
      RestrictSnoc(list[1..], s);
      var n := |list| - 1;
      assert list[1..][..n - 1] == list[..n][1..];
    }
  }

  lemma {:induction false} RestrictKeys<K, V>(list: seq<Pair<K, V>>, s: set<K>)
    ensures Keys(Restrict(list, s)) == Keys(list) * s
  {
    if list != [] {
      RestrictKeys(list[1..], s);
      if list[0].key in s {
        assert ([list[0]] + Restrict(list[1..], s))[1..] == Restrict(list[1..], s);
      }
    }
  }

  lemma {:induction false} RestrictLookup<K, V>(list: seq<Pair<K, V>>, s: set<K>, k: K)
    requires k in s
    ensures Lookup(Restrict(list, s), k) == Lookup(list, k)
  {
    if list != [] {
      RestrictLookup(list[1..], s, k);
      if list[0].key in s {
        assert ([list[0]] + Restrict(list[1..], s))[1..] == Restrict(list[1..], s);
      }
    }
  }

  lemma {:induction false} DropSnoc<K, V>(list: seq<Pair<K, V>>, k: K)
    requires list != []
    ensures var n := |list| - 1;
            Drop(list, k) == Drop(list[..n], k) + if list[n].key == k then [] else [list[n]]
  {
    if |list| > 1 {
      DropSnoc(list[1..], k);
      var n := |list| - 1;
      assert list[1..][..n - 1] == list[..n][1..];
    }
  }

  /** Evicting the last entry is dropping its key. */
  lemma {:induction false} EvictIsDrop<K, V>(list: seq<Pair<K, V>>)
    requires Distinct(list) && list != []
    ensures Drop(list, list[|list| - 1].key) == list[..|list| - 1]
  {
    var n := |list| - 1;
    DropSnoc(list, list[n].key);
    KeysAreMembers(list[..n], list[n].key);
    DropAbsent(list[..n], list[n].key);
  }

  // -------------------------------------------------------------------------
  // Inclusion
  // -------------------------------------------------------------------------

  /** An order-preserving embedding of `a` into `b`. */
  ghost predicate Subsequence<T>(a: seq<T>, b: seq<T>)
    decreases |b|
  {
    if a == [] then true
    else if b == [] then false
    else (a[0] == b[0] && Subsequence(a[1..], b[1..])) || Subsequence(a, b[1..])
  }

  lemma {:induction false} RestrictIsSubsequence<K, V>(list: seq<Pair<K, V>>, s: set<K>)
    ensures Subsequence(Restrict(list, s), list)
  {
    if list != [] {
      RestrictIsSubsequence(list[1..], s);
      if list[0].key in s {
        assert ([list[0]] + Restrict(list[1..], s))[1..] == Restrict(list[1..], s);
      }
    }
  }

  ghost predicate Included<K, V>(small: seq<Pair<K, V>>, large: seq<Pair<K, V>>, c1: nat, c2: nat) {
    && Distinct(small) && Distinct(large)
    && |small| <= c1 && |large| <= c2
    && small == Restrict(large, Keys(small))
    && |large| - |small| <= c2 - c1
  }

  lemma {:induction false} RestrictCons<K, V>(p: Pair<K, V>, list: seq<Pair<K, V>>, s: set<K>)
    ensures Restrict([p] + list, s) == if p.key in s then [p] + Restrict(list, s) else Restrict(list, s)
  {
    assert ([p] + list)[1..] == list;
  }

  /** Moving a key to the front of both lists, or of the large one only. */
  lemma {:induction false} FrontIncluded<K, V>(small: seq<Pair<K, V>>, large: seq<Pair<K, V>>, p: Pair<K, V>)
    requires Distinct(small) && Distinct(large) && small == Restrict(large, Keys(small))
    ensures var s', l' := [p] + Drop(small, p.key), [p] + Drop(large, p.key);
            && Distinct(s') && Distinct(l') && s' == Restrict(l', Keys(s'))
            && (p.key !in Keys(small) ==> small == Restrict(l', Keys(small)))
  {
    var k, s := p.key, Keys(small);
    DropKeys(small, k);
    DropKeys(large, k);
    DropDistinct(small, k);
    DropDistinct(large, k);
    ConsDistinct(p, Drop(small, k));
    ConsDistinct(p, Drop(large, k));
    RestrictDrop(large, s, k);
    var s' := Keys([p] + Drop(small, k));
    RestrictCons(p, Drop(large, k), s');
    RestrictCons(p, Drop(large, k), s);
    RestrictAgrees(Drop(large, k), s', s);
    if k !in s { DropAbsent(small, k); }
  }

  lemma GetIncluded<K, V>(small: seq<Pair<K, V>>, large: seq<Pair<K, V>>, c1: nat, c2: nat, k: K)
    requires Included(small, large, c1, c2)
    ensures Included(Touch(small, k), Touch(large, k), c1, c2)
  {
    LookupIncluded(small, large, k);
    DropDistinct(small, k);
    DropDistinct(large, k);
    if k in Keys(large) {
      FrontIncluded(small, large, Pair(k, Lookup(large, k).value));
    }
  }

  /** A hit in the small list is the same hit in the large one. */
  lemma {:induction false} LookupIncluded<K, V>(small: seq<Pair<K, V>>, large: seq<Pair<K, V>>, k: K)
    requires small == Restrict(large, Keys(small))
    ensures k in Keys(small) ==> k in Keys(large) && Lookup(small, k) == Lookup(large, k)
  {
    RestrictKeys(large, Keys(small));
    if k in Keys(small) { RestrictLookup(large, Keys(small), k); }
  }

  lemma {:induction false} EraseIncluded<K, V>(small: seq<Pair<K, V>>, large: seq<Pair<K, V>>, c1: nat, c2: nat, k: K)
    requires Included(small, large, c1, c2)
    ensures Included(Drop(small, k), Drop(large, k), c1, c2)
  {
    LookupIncluded(small, large, k);
    DropDistinct(small, k);
    DropDistinct(large, k);
    DropKeys(small, k);
    DropKeys(large, k);
    RestrictDrop(large, Keys(small), k);
    RestrictAgrees(Drop(large, k), Keys(small), Keys(small) - {k});
  }

  /** Evicting from the small list only, or from both, keeps the inclusion: if the
      large list evicts a key of the small one, the small one evicts it too. */
  lemma {:induction false} EvictIncluded<K, V>(small: seq<Pair<K, V>>, large: seq<Pair<K, V>>, c1: nat, c2: nat)
    requires Included(small, large, c1, c2) && 0 < c1 <= c2
    ensures var s', l' := Evict(small, c1), Evict(large, c2);
            && Distinct(s') && Distinct(l') && s' == Restrict(l', Keys(s'))
            && Keys(s') <= Keys(small) && Keys(l') <= Keys(large)
  {
    hide Drop;
    hide Restrict;
    hide Keys;
    var s := Keys(small);
    if |small| >= c1 {
      var y := small[|small| - 1].key;
      EvictIsDrop(small);
      DropKeys(small, y);
      RestrictLess(large, s, y);
      assert Evict(small, c1) == Restrict(large, s - {y});
      if |large| >= c2 {
        var n := |large| - 1;
        var z := large[n].key;
        EvictIsDrop(large);
        DropKeys(large, z);
        RestrictSnoc(large, s);
        assert z in s ==> small[|small| - 1] == large[n];
        RestrictSnoc(large, s - {y});
        assert Restrict(large[..n], s - {y}) == Restrict(large, s - {y});
      }
    }
  }

  lemma PutIncluded<K, V>(small: seq<Pair<K, V>>, large: seq<Pair<K, V>>, c1: nat, c2: nat, k: K, v: V)
    requires Included(small, large, c1, c2) && 0 < c1 <= c2
    ensures Included(Insert(small, c1, k, v), Insert(large, c2, k, v), c1, c2)
  {
    LookupIncluded(small, large, k);
    DropDistinct(small, k);
    DropDistinct(large, k);
    var p := Pair(k, v);
    if k in Keys(small) {
      FrontIncluded(small, large, p);
    } else if k in Keys(large) {
      InsertBesideHit(small, large, c1, p);
    } else {
      EvictIncluded(small, large, c1, c2);
      var s', l' := Evict(small, c1), Evict(large, c2);
      DropAbsent(s', k);
      DropAbsent(l', k);
      FrontIncluded(s', l', p);
    }
  }

  /** The key is in the large list only: the large one reorders, the small one
      inserts and may evict. */
  lemma {:induction false} InsertBesideHit<K, V>(small: seq<Pair<K, V>>, large: seq<Pair<K, V>>, c1: nat, p: Pair<K, V>)
    requires Distinct(small) && Distinct(large) && small == Restrict(large, Keys(small))
    requires p.key !in Keys(small)
    ensures var s', l' := [p] + Evict(small, c1), [p] + Drop(large, p.key);
            Distinct(s') && Distinct(l') && s' == Restrict(l', Keys(s'))
  {
    var s, e := Keys(small), Evict(small, c1);
    var y := if small == [] then p.key else small[|small| - 1].key;
    if e != small {
      EvictIsDrop(small);
      DropKeys(small, y);
      RestrictLess(large, s, y);
    }
    assert e == Restrict(large, Keys(e));
    assert Distinct(e);
    DropAbsent(e, p.key);
    FrontIncluded(e, large, p);
  }

  lemma ApplyIncluded<K, V>(small: seq<Pair<K, V>>, large: seq<Pair<K, V>>, c1: nat, c2: nat, op: Op<K, V>)
    requires Included(small, large, c1, c2) && 0 < c1 <= c2
    ensures Included(Apply(small, c1, op), Apply(large, c2, op), c1, c2)
  {
    match op
    case Get(k) => GetIncluded(small, large, c1, c2, k);
    case Peek(_) =>
    case Put(k, v) => PutIncluded(small, large, c1, c2, k, v);
    case Erase(k) => EraseIncluded(small, large, c1, c2, k);
    case Clear =>
  }

  lemma {:induction false} RunIncluded<K, V>(c1: nat, c2: nat, ops: seq<Op<K, V>>)
    requires 0 < c1 <= c2
    ensures Included(Run(c1, ops), Run(c2, ops), c1, c2)
  {
    if ops != [] {
      var n := |ops| - 1;
      RunIncluded(c1, c2, ops[..n]);
      ApplyIncluded(Run(c1, ops[..n]), Run(c2, ops[..n]), c1, c2, ops[n]);
    }
  }

  /** Inclusion: whatever the operations, a smaller cache's recency list is a
      subsequence of a larger one's, entry for entry; the sizes differ by no more
      than the capacities; every hit in the small cache is the same hit in the
      large one. */
  lemma {:induction false} InclusionProperty<K, V>(c1: nat, c2: nat, ops: seq<Op<K, V>>, op: Op<K, V>)
    requires 0 < c1 <= c2
    ensures var small, large := Run(c1, ops), Run(c2, ops);
            && Subsequence(small, large)
            && |small| <= |large| <= |small| + (c2 - c1)
            && (Answer(small, op).Some? ==> Answer(large, op) == Answer(small, op))
  {
    RunIncluded(c1, c2, ops);
    var small, large := Run(c1, ops), Run(c2, ops);
    RestrictIsSubsequence(large, Keys(small));
    SubsequenceIsShorter(small, large);
    if op.Get? || op.Peek? { LookupIncluded(small, large, op.key); }
  }

  lemma {:induction false} SubsequenceIsShorter<T>(a: seq<T>, b: seq<T>)
    requires Subsequence(a, b)
    ensures |a| <= |b|
    decreases |b|
  {
    if a != [] {
      if a[0] == b[0] && Subsequence(a[1..], b[1..]) {
        SubsequenceIsShorter(a[1..], b[1..]);
      } else {
        SubsequenceIsShorter(a, b[1..]);
      }
    }
  }
}
