/** What the two stages promise together. */
module RankTheorems {
  import opened Words
  import opened Ranking
  import opened Rerank

  // -------------------------------------------------------------------------
  // Without discounts the slate is a sort
  // -------------------------------------------------------------------------

  function Relevances(s: seq<Candidate>): (r: seq<real>)
    ensures |r| == |s| && forall i :: 0 <= i < |s| ==> r[i] == s[i].relevance
  {
    if s == [] then [] else Relevances(s[..|s| - 1]) + [s[|s| - 1].relevance]
  }

  lemma {:induction false} RelevancesAppend(a: seq<Candidate>, b: seq<Candidate>)
    ensures Relevances(a + b) == Relevances(a) + Relevances(b)
  {
    assert forall i :: 0 <= i < |a + b| ==> Relevances(a + b)[i] == (Relevances(a) + Relevances(b))[i];
  }

  lemma {:induction false} RelevancesRemove(s: seq<Candidate>, j: nat)
    requires j < |s|
    ensures multiset(Relevances(s)) == multiset(Relevances(RemoveAt(s, j))) + multiset{s[j].relevance}
  {
    hide Relevances;
    var r, t := Relevances(s), RemoveAt(s, j);
    RemoveOne(r, j);
    forall i | 0 <= i < |t|
      ensures Relevances(t)[i] == RemoveAt(r, j)[i]
    {
      assert t[i] == s[if i < j then i else i + 1];
    }
    assert Relevances(t) == RemoveAt(r, j);
  }

  lemma Cancel<T>(p: multiset<T>, q: multiset<T>, x: T)
    requires p + multiset{x} == q + multiset{x}
    ensures p == q
  {
    assert p == (p + multiset{x}) - multiset{x} && q == (q + multiset{x}) - multiset{x};
  }

  lemma {:induction false} PermutedRelevances(a: seq<Candidate>, b: seq<Candidate>)
    requires multiset(a) == multiset(b)
    ensures multiset(Relevances(a)) == multiset(Relevances(b))
  {
    assert |multiset(a)| == |a| && |multiset(b)| == |b|;
    if a != [] {
      assert a[0] in multiset(b);
      var j :| 0 <= j < |b| && b[j] == a[0];
      RemoveOne(a, 0);
      RemoveOne(b, j);
      Cancel(multiset(RemoveAt(a, 0)), multiset(RemoveAt(b, j)), a[0]);
      PermutedRelevances(RemoveAt(a, 0), RemoveAt(b, j));
      RelevancesRemove(a, 0);
      RelevancesRemove(b, j);
    }
  }

  ghost predicate AtLeast(xs: seq<real>, ys: seq<real>) {
    forall i, j :: 0 <= i < |xs| && 0 <= j < |ys| ==> xs[i] >= ys[j]
  }

  lemma FirstIsLargest(xs: seq<real>, rest: seq<real>, sorted: seq<real>)
    requires xs != [] && Descending(xs) && Descending(sorted) && multiset(sorted) == multiset(xs + rest)
    requires AtLeast(xs, rest)
    ensures sorted != [] && sorted[0] == xs[0]
  {
    var all := xs + rest;
    assert xs[0] == all[0] && all[0] in multiset(all);
    var i :| 0 <= i < |sorted| && sorted[i] == xs[0];
    assert sorted[0] in multiset(sorted);
    var k :| 0 <= k < |all| && all[k] == sorted[0];
    assert xs[0] >= all[k];
  }

  lemma Tails(xs: seq<real>, rest: seq<real>, sorted: seq<real>)
    requires xs != [] && sorted != [] && Descending(xs) && Descending(sorted) && AtLeast(xs, rest)
    ensures Descending(xs[1..]) && Descending(sorted[1..]) && AtLeast(xs[1..], rest)
  {
  }

  /** A descending list whose rest is nowhere larger starts every descending
      ordering of the whole. */
  lemma {:induction false} SortPrefix(xs: seq<real>, rest: seq<real>, sorted: seq<real>)
    requires Descending(xs) && Descending(sorted) && multiset(sorted) == multiset(xs + rest)
    requires AtLeast(xs, rest)
    ensures |xs| <= |sorted| && xs == sorted[..|xs|]
  {
    if xs != [] {
      FirstIsLargest(xs, rest, sorted);
      Tails(xs, rest, sorted);
      hide Descending;
      hide AtLeast;
      RemoveOne(sorted, 0);
      RemoveOne(xs + rest, 0);
      assert RemoveAt(sorted, 0) == sorted[1..] && RemoveAt(xs + rest, 0) == xs[1..] + rest;
      Cancel(multiset(sorted[1..]), multiset(xs[1..] + rest), xs[0]);
      SortPrefix(xs[1..], rest, sorted[1..]);
    }
  }

  lemma {:induction false} SequenceOf(m: multiset<Candidate>) returns (s: seq<Candidate>)
    ensures multiset(s) == m
    decreases |m|
  {
    if m == multiset{} {
      s := [];
    } else {
      var c :| c in m;
      var rest := SequenceOf(m - multiset{c});
      s := rest + [c];
    }
  }

  /** Every candidate of the log that was taken, in order. */
  function Taken(offers: seq<Offer>): seq<Candidate> {
    if offers == [] then [] else Taken(offers[..|offers| - 1]) + [offers[|offers| - 1].candidate]
  }

  ghost predicate AllAccepted(offers: seq<Offer>) {
    forall i :: 0 <= i < |offers| ==> offers[i].accepted
  }

  lemma {:induction false} AcceptAllTakesAll<S>(scoring: Scoring, count: nat, rem: seq<Candidate>, offers: seq<Offer>,
                                                state: S, accept: (S, u64) -> (bool, S))
    requires AllAccepted(offers) && forall st, id :: accept(st, id).0
    ensures AllAccepted(Greedy(scoring, count, rem, offers, state, accept).offers)
    decreases |rem|
  {
    hide Adjusted;
    if |Chosen(offers)| < count && rem != [] {
      var i := Pick(scoring, Chosen(offers), rem);
      var answer := accept(state, rem[i].id);
      AcceptAllTakesAll(scoring, count, RemoveAt(rem, i),
                        offers + [Offer(rem[i], Adjusted(scoring, Chosen(offers), rem[i]), answer.0)], answer.1, accept);
    }
  }

  /** No candidate of `out` is more relevant than any of `taken`. */
  ghost predicate MostRelevant(taken: seq<Candidate>, out: multiset<Candidate>) {
    forall i, c :: 0 <= i < |taken| && c in out ==> taken[i].relevance >= c.relevance
  }

  /** With both factors one, what is taken is taken at its relevance ... */
  lemma {:induction false} PlainScores(scoring: Scoring, all: multiset<Candidate>, offers: seq<Offer>)
    requires scoring.categoryFactor == 1.0 && scoring.advertiserFactor == 1.0
    requires IsGreedy(scoring, all, offers) && AllAccepted(offers)
    ensures multiset(Taken(offers)) == Offered(offers) && |Taken(offers)| == |Chosen(offers)|
    ensures RankedScores(Chosen(offers)) == Relevances(Taken(offers))
  {
    if offers != [] {
      var n := |offers| - 1;
      var before, last := offers[..n], offers[n];
      assert LastIsBest(scoring, all, offers);
      PlainScores(scoring, all, before);
      NoDiscount(scoring, Chosen(before), last.candidate);
      hide Adjusted;
      hide LastIsBest;
      assert Chosen(offers)[..|Chosen(before)|] == Chosen(before);
      assert Taken(offers)[..|Taken(before)|] == Taken(before);
    }
  }

  lemma PlainLast(scoring: Scoring, all: multiset<Candidate>, offers: seq<Offer>, c: Candidate)
    requires scoring.categoryFactor == 1.0 && scoring.advertiserFactor == 1.0
    requires offers != [] && LastIsBest(scoring, all, offers)
    requires c in all - Offered(offers[..|offers| - 1])
    ensures offers[|offers| - 1].candidate.relevance >= c.relevance
  {
    var before, last := offers[..|offers| - 1], offers[|offers| - 1];
    NoDiscount(scoring, Chosen(before), c);
    NoDiscount(scoring, Chosen(before), last.candidate);
  }

  /** ... and nothing left over is more relevant. */
  lemma {:induction false} PlainLog(scoring: Scoring, all: multiset<Candidate>, offers: seq<Offer>)
    requires scoring.categoryFactor == 1.0 && scoring.advertiserFactor == 1.0
    requires IsGreedy(scoring, all, offers) && AllAccepted(offers)
    ensures |Taken(offers)| == |offers| && MostRelevant(Taken(offers), all - Offered(offers))
  {
    hide LastIsBest;
    if offers != [] {
      var n := |offers| - 1;
      PlainLog(scoring, all, offers[..n]);
      forall c | c in all - Offered(offers) ensures c in all - Offered(offers[..n]) {
      }
      forall i, c | 0 <= i < |Taken(offers)| && c in all - Offered(offers)
        ensures Taken(offers)[i].relevance >= c.relevance
      {
        if i < n {
          assert Taken(offers)[i] == Taken(offers[..n])[i];
        } else {
          PlainLast(scoring, all, offers, c);
        }
      }
    }
  }

  lemma LeftOutIsLower(kept: multiset<Candidate>, all: multiset<Candidate>, m: nat, taken: seq<Candidate>,
                       i: nat, c: Candidate)
    requires IsTop(kept, all, m) && multiset(taken) <= kept
    requires i < |taken| && c in all - multiset(taken) && MostRelevant(taken, kept - multiset(taken))
    ensures taken[i].relevance >= c.relevance
  {
    if c !in kept - multiset(taken) {
      assert c in all - kept;
      assert taken[i] in multiset(taken);
      assert Dominates(taken[i], all - kept);
    }
  }

  /** The relevances of what was not taken, none above those of what was. */
  lemma NotTaken(kept: multiset<Candidate>, all: seq<Candidate>, m: nat, taken: seq<Candidate>)
    returns (rest: seq<real>)
    requires IsTop(kept, multiset(all), m) && multiset(taken) <= kept
    requires MostRelevant(taken, kept - multiset(taken))
    ensures multiset(Relevances(all)) == multiset(Relevances(taken) + rest) && AtLeast(Relevances(taken), rest)
  {
    var out := SequenceOf(multiset(all) - multiset(taken));
    rest := Relevances(out);
    SplitRelevances(taken, out, all);
    hide IsTop;
    hide Relevances;
    forall i, j | 0 <= i < |taken| && 0 <= j < |out| ensures Relevances(taken)[i] >= rest[j] {
      assert out[j] in multiset(out);
      LeftOutIsLower(kept, multiset(all), m, taken, i, out[j]);
    }
  }

  lemma {:induction false} SplitRelevances(a: seq<Candidate>, b: seq<Candidate>, all: seq<Candidate>)
    requires multiset(a) <= multiset(all) && multiset(b) == multiset(all) - multiset(a)
    ensures multiset(Relevances(all)) == multiset(Relevances(a) + Relevances(b))
  {
    assert multiset(a + b) == multiset(all);
    PermutedRelevances(a + b, all);
    RelevancesAppend(a, b);
  }

  /** Taking the most relevant of the best `m` is taking the most relevant of
      all. */
  lemma {:induction false} PrefixFromTop(kept: multiset<Candidate>, all: seq<Candidate>, m: nat, count: nat,
                                         taken: seq<Candidate>, sorted: seq<real>)
    requires IsTop(kept, multiset(all), m) && count <= m && multiset(taken) <= kept
    requires |taken| <= count && (|taken| < count ==> multiset(taken) == kept)
    requires Descending(Relevances(taken))
    requires MostRelevant(taken, kept - multiset(taken))
    requires Descending(sorted) && multiset(sorted) == multiset(Relevances(all))
    ensures Relevances(taken) == sorted[..if count <= |sorted| then count else |sorted|]
  {
    hide *;
    var rest := NotTaken(kept, all, m, taken);
    SortPrefix(Relevances(taken), rest, sorted);
    SizesAgree(kept, all, m, count, taken, sorted);
  }

  lemma {:induction false} SizesAgree(kept: multiset<Candidate>, all: seq<Candidate>, m: nat, count: nat,
                                      taken: seq<Candidate>, sorted: seq<real>)
    requires IsTop(kept, multiset(all), m) && count <= m && multiset(taken) <= kept
    requires |taken| <= count && (|taken| < count ==> multiset(taken) == kept)
    requires multiset(sorted) == multiset(Relevances(all))
    ensures |taken| == if count <= |sorted| then count else |sorted|
  {
    assert |multiset(sorted)| == |sorted| && |multiset(Relevances(all))| == |all|;
    assert |multiset(all)| == |all| && |multiset(taken)| == |taken|;
    SubSize(multiset(taken), kept);
  }

  /** Both stages, without discounts and with nothing refused: whatever the
      retrieval kept as the best `m >= count`, the slate's scores are the first
      `count` values of any descending ordering of all the relevances offered. */
  lemma {:induction false} SlateIsSortPrefix<S>(scoring: Scoring, count: nat, m: nat, shortlist: seq<Candidate>,
                                                all: seq<Candidate>, state: S, accept: (S, u64) -> (bool, S),
                                                sorted: seq<real>)
    requires scoring.categoryFactor == 1.0 && scoring.advertiserFactor == 1.0
    requires forall st, id :: accept(st, id).0
    requires IsTop(multiset(shortlist), multiset(all), m) && count <= m
    requires Descending(sorted) && multiset(sorted) == multiset(Relevances(all))
    ensures RankedScores(Chosen(Greedy(scoring, count, shortlist, [], state, accept).offers))
         == sorted[..if count <= |sorted| then count else |sorted|]
  {
    hide IsTop;
    hide Greedy;
    hide IsGreedy;
    var offers := Greedy(scoring, count, shortlist, [], state, accept).offers;
    RerankGuarantee(scoring, count, shortlist, state, accept);
    AcceptAllTakesAll(scoring, count, shortlist, [], state, accept);
    PlainScores(scoring, multiset(shortlist), offers);
    PlainLog(scoring, multiset(shortlist), offers);
    PrefixFromTop(multiset(shortlist), all, m, count, Taken(offers), sorted);
  }

  /** The order in which candidates are offered, and how the heap happens to lie,
      do not matter: any two shortlists that are the best `m` of the same offers
      give the same offers to the hook, the same slate and the same final state. */
  lemma {:induction false} OfferOrderIsIrrelevant<S>(scoring: Scoring, count: nat, m: nat, a: seq<Candidate>,
                                                     b: seq<Candidate>, offered: seq<Candidate>,
                                                     permuted: seq<Candidate>, state: S,
                                                     accept: (S, u64) -> (bool, S))
    requires multiset(offered) == multiset(permuted) && IdsIdentify(multiset(offered))
    requires IsTop(multiset(a), multiset(offered), m) && IsTop(multiset(b), multiset(permuted), m)
    ensures multiset(a) == multiset(b)
    ensures Greedy(scoring, count, a, [], state, accept) == Greedy(scoring, count, b, [], state, accept)
  {
    TopIsUnique(multiset(a), multiset(b), multiset(offered), m);
    assert IdsIdentify(multiset(a));
    OrderIsIrrelevant(scoring, count, a, b, [], state, accept);
  }
}
