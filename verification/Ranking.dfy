/** Scoring and retrieval: which candidates are kept, in which order. Scores are
    exact reals; the recency decay is an arbitrary function of age and half-life. */
module Ranking {
  import opened Words

  datatype Item = Item(
    id: u64, category: Text, advertiser: Text, baseScore: real, createdAt: int, expiresAt: int)

  datatype Affinity = Affinity(category: Text, weight: real)

  datatype Signal = Signal(affinities: seq<Affinity>, excluded: seq<Text>)

  datatype Scoring = Scoring(
    defaultAffinity: real, halfLife: int, categoryFactor: real, advertiserFactor: real,
    overfetch: nat, minScore: real, decay: (int, int) -> real)

  datatype Candidate = Candidate(relevance: real, id: u64, category: Text, advertiser: Text)

  function AffinityFor(s: seq<Affinity>, category: Text, fallback: real): real {
    if s == [] then fallback
    else if s[0].category == category then s[0].weight
    else AffinityFor(s[1..], category, fallback)
  }

  predicate IsEligible(item: Item, signal: Signal, now: int) {
    && item.baseScore > 0.0
    && (item.expiresAt == 0 || item.expiresAt > now)
    && item.category !in signal.excluded
  }

  function Recency(age: int, scoring: Scoring): real {
    if scoring.halfLife <= 0 then 1.0
    else scoring.decay(if age < 0 then 0 else age, scoring.halfLife)
  }

  function Relevance(item: Item, signal: Signal, scoring: Scoring, now: int): real {
    item.baseScore * AffinityFor(signal.affinities, item.category, scoring.defaultAffinity)
    * Recency(now - item.createdAt, scoring)
  }

  /** The candidate an item becomes, if it is to be kept at all. */
  function CandidateOf(item: Item, signal: Signal, scoring: Scoring, now: int): Option<Candidate> {
    var relevance := Relevance(item, signal, scoring, now);
    if IsEligible(item, signal, now) && relevance > scoring.minScore
    then Some(Candidate(relevance, item.id, item.category, item.advertiser))
    else None
  }

  /** What some items offer to retrieval, in order. */
  function Candidates(items: seq<Item>, signal: Signal, scoring: Scoring, now: int): seq<Candidate> {
    if items == [] then []
    else
      var c := CandidateOf(items[0], signal, scoring, now);
      var rest := Candidates(items[1..], signal, scoring, now);
      if c.Some? then [c.value] + rest else rest
  }

  /** How many candidates are kept for re-ranking. */
  function ShortlistLimit(scoring: Scoring, count: nat): nat {
    if count == 0 then 0 else count * (if scoring.overfetch < 1 then 1 else scoring.overfetch)
  }

  /** The retrieval order: at equal relevance the smaller id is the worse one. */
  predicate Worse(a: Candidate, b: Candidate) {
    if a.relevance != b.relevance then a.relevance < b.relevance else a.id < b.id
  }

  // -------------------------------------------------------------------------
  // The best m of what was offered
  // -------------------------------------------------------------------------

  ghost predicate Dominates(x: Candidate, out: multiset<Candidate>) {
    forall y :: y in out ==> !Worse(x, y)
  }

  /** `kept` is as many of `all` as `m` allows, and nothing left out beats
      anything kept. */
  ghost predicate IsTop(kept: multiset<Candidate>, all: multiset<Candidate>, m: nat) {
    && kept <= all
    && |kept| == (if |all| <= m then |all| else m)
    && forall x :: x in kept ==> Dominates(x, all - kept)
  }

  ghost predicate IdsIdentify(all: multiset<Candidate>) {
    forall x, y :: x in all && y in all && x.id == y.id ==> x == y
  }

  lemma PickDifference(a: multiset<Candidate>, b: multiset<Candidate>) returns (x: Candidate, y: Candidate)
    requires |a| == |b| && a != b
    ensures x in a - b && y in b - a
  {
    var c := a * b;
    assert a == c + (a - b) && b == c + (b - a);
    assert |a| == |c| + |a - b| && |b| == |c| + |b - a|;
    var z :| a[z] != b[z];
    assert z in a - b || z in b - a;
    assert |a - b| > 0 && |b - a| > 0;
    x :| x in a - b;
    y :| y in b - a;
  }

  lemma ExchangeIsEven(a: multiset<Candidate>, b: multiset<Candidate>, all: multiset<Candidate>, m: nat,
                       x: Candidate, y: Candidate)
    requires IsTop(a, all, m) && IsTop(b, all, m) && x in a - b && y in b - a
    ensures x in all && y in all && x.id == y.id && x != y
  {
    assert x in all - b && y in all - a;
    assert Dominates(x, all - a) && Dominates(y, all - b);
  }

  /** With ids that identify candidates there is only one such selection. */
  lemma TopIsUnique(a: multiset<Candidate>, b: multiset<Candidate>, all: multiset<Candidate>, m: nat)
    requires IsTop(a, all, m) && IsTop(b, all, m) && IdsIdentify(all)
    ensures a == b
  {
    if a != b {
      var x, y := PickDifference(a, b);
      ExchangeIsEven(a, b, all, m, x, y);
      assert false;
    }
  }

  lemma TopGrows(kept: multiset<Candidate>, all: multiset<Candidate>, m: nat, c: Candidate)
    requires IsTop(kept, all, m) && |kept| < m
    ensures IsTop(kept + multiset{c}, all + multiset{c}, m)
  {
    assert |all| <= m;
    SubOfSameSize(kept, all);
    assert (all + multiset{c}) - (kept + multiset{c}) == multiset{};
  }

  lemma SubOfSameSize(a: multiset<Candidate>, b: multiset<Candidate>)
    requires a <= b && |a| == |b|
    ensures a == b
  {
    assert b == a + (b - a);
    assert |b - a| == 0;
  }

  lemma TopRejects(kept: multiset<Candidate>, all: multiset<Candidate>, m: nat, c: Candidate, root: Candidate)
    requires IsTop(kept, all, m) && |kept| == m && root in kept
    requires (forall x :: x in kept ==> !Worse(x, root)) && Worse(c, root)
    ensures IsTop(kept, all + multiset{c}, m)
  {
    assert (all + multiset{c}) - kept == (all - kept) + multiset{c};
    forall x | x in kept ensures Dominates(x, (all - kept) + multiset{c}) {
      assert Dominates(x, all - kept);
    }
    SubSize(kept, all);
  }

  lemma TopReplaces(kept: multiset<Candidate>, all: multiset<Candidate>, m: nat, c: Candidate, root: Candidate)
    requires IsTop(kept, all, m) && |kept| == m && root in kept
    requires (forall x :: x in kept ==> !Worse(x, root)) && !Worse(c, root)
    ensures IsTop(kept - multiset{root} + multiset{c}, all + multiset{c}, m)
  {
    var kept', out' := kept - multiset{root} + multiset{c}, (all - kept) + multiset{root};
    assert (all + multiset{c}) - kept' == out';
    assert Dominates(root, all - kept);
    forall x | x in kept' ensures Dominates(x, out') {
      assert x in kept || x == c;
      if x in kept { assert Dominates(x, all - kept); }
    }
    SubSize(kept, all);
  }

  lemma SubSize(a: multiset<Candidate>, b: multiset<Candidate>)
    requires a <= b
    ensures |a| <= |b|
  {
    assert b == a + (b - a);
  }
}

/** The bounded min-heap of retrieval. */
module CandidateHeap {
  import opened Ranking

  function Parent(i: nat): nat
    requires 0 < i
  {
    (i - 1) / 2
  }

  /** No entry is worse than its parent: the weakest is at the root. */
  ghost predicate HeapOrdered(h: seq<Candidate>) {
    forall i :: 0 < i < |h| ==> !Worse(h[i], h[Parent(i)])
  }

  lemma {:induction false} RootIsWeakest(h: seq<Candidate>, i: nat)
    requires HeapOrdered(h) && i < |h|
    ensures !Worse(h[i], h[0])
  {
    if i > 0 { RootIsWeakest(h, Parent(i)); }
  }

  function Swap(h: seq<Candidate>, i: nat, j: nat): (r: seq<Candidate>)
    requires i < |h| && j < |h|
    ensures |r| == |h| && multiset(r) == multiset(h)
    ensures r[i] == h[j] && r[j] == h[i]
    ensures forall m :: 0 <= m < |h| && m != i && m != j ==> r[m] == h[m]
  {
    h[i := h[j]][j := h[i]]
  }

  /** A heap but for the entry at `i`, which may be too weak for its place. */
  ghost predicate HeapButUp(r: seq<Candidate>, i: nat) {
    && i < |r|
    && (forall j :: 0 < j < |r| && j != i ==> !Worse(r[j], r[Parent(j)]))
    && (0 < i ==> forall j :: 0 < j < |r| && Parent(j) == i ==> !Worse(r[j], r[Parent(i)]))
  }

  lemma SiftUpStep(r: seq<Candidate>, i: nat)
    requires HeapButUp(r, i) && 0 < i && Worse(r[i], r[Parent(i)])
    ensures HeapButUp(Swap(r, i, Parent(i)), Parent(i))
  {
    var p := Parent(i);
    var r' := Swap(r, i, p);
    forall j | 0 < j < |r| && j != p ensures !Worse(r'[j], r'[Parent(j)]) {
      if j == i {
      } else if Parent(j) == p {
        assert !Worse(r[j], r[p]);
      } else {
        assert r'[j] == r[j];
      }
    }
  }

  /** `std::push_heap`: the last entry is sifted up. */
  method PushHeap(h: seq<Candidate>) returns (r: seq<Candidate>)
    requires h != [] && HeapOrdered(h[..|h| - 1])
    ensures HeapOrdered(r) && multiset(r) == multiset(h) && |r| == |h|
  {
    r := h;
    var i: nat := |h| - 1;
    assert HeapButUp(r, i) by {
      assert forall j :: 0 < j < i ==> h[..i][j] == h[j] && h[..i][Parent(j)] == h[Parent(j)];
    }
    while i > 0 && Worse(r[i], r[Parent(i)])
      invariant |r| == |h| && multiset(r) == multiset(h) && HeapButUp(r, i)
    {
      SiftUpStep(r, i);
      r, i := Swap(r, i, Parent(i)), Parent(i);
    }
  }

  /** A heap on the first `n` entries but for the one at `i`, which may be too
      strong for its place. */
  ghost predicate HeapButDown(r: seq<Candidate>, n: nat, i: nat) {
    && i < |r| && n <= |r|
    && (forall j :: 0 < j < n && Parent(j) != i ==> !Worse(r[j], r[Parent(j)]))
    && (0 < i ==> forall j :: 0 < j < n && Parent(j) == i ==> !Worse(r[j], r[Parent(i)]))
  }

  lemma SiftDownStep(r: seq<Candidate>, n: nat, i: nat, c: nat)
    requires HeapButDown(r, n, i) && 0 < c < n && Parent(c) == i && Worse(r[c], r[i])
    requires forall j :: 0 < j < n && Parent(j) == i ==> !Worse(r[j], r[c])
    ensures HeapButDown(Swap(r, i, c), n, c)
  {
    var r' := Swap(r, i, c);
    forall j | 0 < j < n && Parent(j) != c ensures !Worse(r'[j], r'[Parent(j)]) {
      if j != c && j != i && Parent(j) != i {
        assert r'[j] == r[j] && r'[Parent(j)] == r[Parent(j)];
      }
    }
    forall j | 0 < j < n && Parent(j) == c ensures !Worse(r'[j], r'[Parent(c)]) {
      assert r'[j] == r[j];
    }
  }

  /** The weaker child of `i`. */
  method WeakerChild(r: seq<Candidate>, n: nat, i: nat) returns (c: nat)
    requires 2 * i + 1 < n <= |r|
    ensures 0 < c < n && Parent(c) == i
    ensures forall j :: 0 < j < n && Parent(j) == i ==> !Worse(r[j], r[c])
  {
    c := 2 * i + 1;
    assert forall j :: 0 < j < n && Parent(j) == i ==> j == c || j == c + 1;
    if c + 1 < n && Worse(r[c + 1], r[c]) {
      c := c + 1;
    }
  }

  /** Once no child of `i` is weaker, the first `n` entries are a heap. */
  lemma SiftDownDone(r: seq<Candidate>, n: nat, i: nat)
    requires HeapButDown(r, n, i)
    requires forall j :: 0 < j < n && Parent(j) == i ==> !Worse(r[j], r[i])
    ensures HeapOrdered(r[..n])
  {
    forall j | 0 < j < n ensures !Worse(r[..n][j], r[..n][Parent(j)]) {
      assert r[..n][j] == r[j] && r[..n][Parent(j)] == r[Parent(j)];
    }
  }

  method SiftDown(h: seq<Candidate>, n: nat) returns (r: seq<Candidate>)
    requires n < |h| && HeapButDown(h, n, 0)
    ensures |r| == |h| && multiset(r) == multiset(h) && r[n] == h[n] && HeapOrdered(r[..n])
  {
    r := h;
    var i: nat := 0;
    hide HeapButDown;
    while 2 * i + 1 < n
      invariant i <= n && |r| == |h| && multiset(r) == multiset(h) && r[n] == h[n]
      invariant HeapButDown(r, n, i)
      decreases |h| - i
    {
      var c := WeakerChild(r, n, i);
      if !Worse(r[c], r[i]) {
        SiftDownDone(r, n, i);
        return;
      }
      SiftDownStep(r, n, i, c);
      r, i := Swap(r, i, c), c;
    }
    SiftDownDone(r, n, i);
  }

  /** `std::pop_heap`: the root goes to the back, the rest is sifted down. */
  method PopHeap(h: seq<Candidate>) returns (r: seq<Candidate>)
    requires h != [] && HeapOrdered(h)
    ensures |r| == |h| && multiset(r) == multiset(h)
    ensures r[|r| - 1] == h[0] && HeapOrdered(r[..|r| - 1])
  {
    r := SiftDown(Swap(h, 0, |h| - 1), |h| - 1);
  }
}
