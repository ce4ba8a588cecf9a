/** "Returns up to count items, best first": for which configurations that holds
    for every shortlist. */
module BestFirst {
  import opened Words
  import opened Ranking
  import opened Rerank
  import opened RankTheorems

  function TakeAll(state: (), id: u64): (bool, ()) {
    (true, ())
  }

  function Slated(scoring: Scoring, count: nat, shortlist: seq<Candidate>): seq<Ranked> {
    Chosen(Greedy(scoring, count, shortlist, [], (), TakeAll).offers)
  }

  ghost predicate Retrieved(scoring: Scoring, shortlist: seq<Candidate>) {
    forall i :: 0 <= i < |shortlist| ==> shortlist[i].relevance > scoring.minScore
  }

  /** Items as the daemon can hold them: it refuses a zero id and an empty category,
      and an id names one item. */
  predicate Holdable(items: seq<Item>) {
    && (forall i :: 0 <= i < |items| ==> items[i].id != 0 && items[i].category != [])
    && (forall i, j :: 0 <= i < j < |items| ==> items[i].id != items[j].id)
  }

  /** A shortlist that retrieval makes of such items for this signal and instant. */
  ghost predicate ShortlistOf(scoring: Scoring, items: seq<Item>, signal: Signal, now: int, count: nat,
                              shortlist: seq<Candidate>) {
    && Holdable(items)
    && IsTop(multiset(shortlist), multiset(Candidates(items, signal, scoring, now)), ShortlistLimit(scoring, count))
  }

  ghost predicate AlwaysBestFirst(scoring: Scoring) {
    forall items, signal, now, count, shortlist ::
      ShortlistOf(scoring, items, signal, now, count, shortlist) ==>
        Descending(RankedScores(Slated(scoring, count, shortlist)))
  }

  /** What an operator can check: no discount at all, or discounts that shrink
      scores which cannot be negative. */
  predicate SafeConfig(scoring: Scoring) {
    || (scoring.categoryFactor == 1.0 && scoring.advertiserFactor == 1.0)
    || (Discounting(scoring) && scoring.minScore >= 0.0)
  }

  lemma SafeMeansBestFirst(scoring: Scoring, count: nat, shortlist: seq<Candidate>)
    requires SafeConfig(scoring) && Retrieved(scoring, shortlist)
    ensures Descending(RankedScores(Slated(scoring, count, shortlist)))
  {
    assert OnlyFades(scoring, multiset(shortlist));
    RerankGuarantee(scoring, count, shortlist, (), TakeAll);
  }

  lemma {:induction false} CandidatesAreAbove(scoring: Scoring, items: seq<Item>, signal: Signal, now: int)
    ensures Retrieved(scoring, Candidates(items, signal, scoring, now))
  {
    hide Relevance;
    hide IsEligible;
    if items != [] { CandidatesAreAbove(scoring, items[1..], signal, now); }
  }

  lemma ShortlistIsAbove(scoring: Scoring, items: seq<Item>, signal: Signal, now: int, count: nat,
                         shortlist: seq<Candidate>)
    requires ShortlistOf(scoring, items, signal, now, count, shortlist)
    ensures Retrieved(scoring, shortlist)
  {
    hide Candidates;
    hide Holdable;
    CandidatesAreAbove(scoring, items, signal, now);
    var all := Candidates(items, signal, scoring, now);
    forall i | 0 <= i < |shortlist| ensures shortlist[i].relevance > scoring.minScore {
      assert shortlist[i] in multiset(shortlist);
      assert shortlist[i] in multiset(all);
    }
  }

  // -------------------------------------------------------------------------
  // The counterexample: candidates that differ only in the other attribute
  // -------------------------------------------------------------------------

  function Shared(c: Candidate, byCategory: bool): Text {
    if byCategory then c.category else c.advertiser
  }

  ghost predicate Alike(all: multiset<Candidate>, r: real, byCategory: bool) {
    && (forall c :: c in all ==> c.relevance == r && all[c] == 1)
    && (forall c, d :: c in all && d in all ==> Shared(c, byCategory) == Shared(d, byCategory))
    && (forall c, d :: c in all && d in all && c != d ==> Shared(c, !byCategory) != Shared(d, !byCategory))
  }

  lemma AlikePair(all: multiset<Candidate>, r: real, byCategory: bool, c: Candidate, d: Candidate)
    requires Alike(all, r, byCategory) && c in all && d in all
    ensures c.relevance == r && all[c] == 1
    ensures Shared(c, byCategory) == Shared(d, byCategory)
    ensures c != d ==> Shared(c, !byCategory) != Shared(d, !byCategory)
  {
  }

  function CountOf(chosen: seq<Ranked>, c: Candidate, byCategory: bool): nat {
    if byCategory then CategoryCount(chosen, c.category) else AdvertiserCount(chosen, c.advertiser)
  }

  lemma CountSnoc(chosen: seq<Ranked>, d: Candidate, score: real, c: Candidate, byCategory: bool)
    ensures CountOf(chosen + [Ranked(d.id, score, d.category, d.advertiser)], c, byCategory)
         == CountOf(chosen, c, byCategory) + if Shared(d, byCategory) == Shared(c, byCategory) then 1 else 0
  {
    var chosen' := chosen + [Ranked(d.id, score, d.category, d.advertiser)];
    assert chosen'[..|chosen|] == chosen;
  }

  lemma {:induction false} CountsAlike(all: multiset<Candidate>, offers: seq<Offer>, c: Candidate, r: real,
                                       byCategory: bool)
    requires Alike(all, r, byCategory) && AllAccepted(offers) && Offered(offers) <= all && c in all - Offered(offers)
    ensures |Chosen(offers)| == |offers|
    ensures CountOf(Chosen(offers), c, byCategory) == |offers| && CountOf(Chosen(offers), c, !byCategory) == 0
  {
    hide Alike;
    hide Shared;
    if offers != [] {
      var n := |offers| - 1;
      CountsAlike(all, offers[..n], c, r, byCategory);
      var d := offers[n].candidate;
      hide CountOf;
      assert d in Offered(offers) && d in all;
      AlikePair(all, r, byCategory, c, d);
      CountSnoc(Chosen(offers[..n]), d, offers[n].score, c, byCategory);
      CountSnoc(Chosen(offers[..n]), d, offers[n].score, c, !byCategory);
    }
  }

  function RepeatFactor(scoring: Scoring, byCategory: bool): real {
    if byCategory then scoring.categoryFactor else scoring.advertiserFactor
  }

  /** Relevance after `k` repeats. */
  function Discounted(r: real, f: real, k: nat): real {
    r * Pow(f, k)
  }

  lemma AdjustedAlike(scoring: Scoring, chosen: seq<Ranked>, c: Candidate, k: nat, byCategory: bool)
    requires CountOf(chosen, c, byCategory) == k && CountOf(chosen, c, !byCategory) == 0
    ensures Adjusted(scoring, chosen, c) == Discounted(c.relevance, RepeatFactor(scoring, byCategory), k)
  {
  }

  /** Each of them is taken at one more discount than the one before. */
  lemma {:induction false} AlikeScores(scoring: Scoring, all: multiset<Candidate>, offers: seq<Offer>, r: real,
                                       byCategory: bool)
    requires Alike(all, r, byCategory) && AllAccepted(offers) && Offered(offers) <= all && IsGreedy(scoring, all, offers)
    ensures |Chosen(offers)| == |offers|
    ensures forall k :: 0 <= k < |offers| ==> Chosen(offers)[k].score == Discounted(r, RepeatFactor(scoring, byCategory), k)
  {
    hide Alike;
    hide Discounted;
    hide Adjusted;
    hide CountOf;
    hide RepeatFactor;
    hide Chosen;
    hide Offered;
    hide IsGreedy;
    hide AllAccepted;
    if offers == [] {
      NoneChosen();
    } else {
      var n := |offers| - 1;
      var before, c := offers[..n], offers[n].candidate;
      LastOffer(scoring, all, offers);
      AlikeScores(scoring, all, before, r, byCategory);
      CountsAlike(all, before, c, r, byCategory);
      AlikePair(all, r, byCategory, c, c);
      AdjustedAlike(scoring, Chosen(before), c, n, byCategory);
      assert forall k :: 0 <= k < n ==> Chosen(offers)[k] == Chosen(before)[k];
    }
  }

  lemma NoneChosen()
    ensures Chosen([]) == []
  {
  }

  /** A log of accepted offers, taken apart at its end. */
  lemma LastOffer(scoring: Scoring, all: multiset<Candidate>, offers: seq<Offer>)
    requires offers != [] && AllAccepted(offers) && Offered(offers) <= all && IsGreedy(scoring, all, offers)
    ensures var before, o := offers[..|offers| - 1], offers[|offers| - 1];
            && AllAccepted(before) && Offered(before) <= all && IsGreedy(scoring, all, before)
            && o.candidate in all - Offered(before) && o.candidate in all
            && o.score == Adjusted(scoring, Chosen(before), o.candidate)
            && Chosen(offers)
               == Chosen(before) + [Ranked(o.candidate.id, o.score, o.candidate.category, o.candidate.advertiser)]
  {
    hide Adjusted;
    hide Better;
  }

  /** Three texts, and one that is shared. */
  function Own(k: u8): Text { [k] }
  function Common(): Text { [9] }

  function Member(r: real, k: u8, byCategory: bool): Candidate {
    if byCategory then Candidate(r, k, Common(), Own(k)) else Candidate(r, k, Own(k), Common())
  }

  function Trio(r: real, byCategory: bool): seq<Candidate> {
    [Member(r, 1, byCategory), Member(r, 2, byCategory), Member(r, 3, byCategory)]
  }

  /** The item behind a member: just created, never expiring, with base score
      one; the signal gives every category the wanted weight. */
  function ItemOf(k: u8, byCategory: bool): Item {
    var c := Member(1.0, k, byCategory);
    Item(k, c.category, c.advertiser, 1.0, 0, 0)
  }

  function TrioItems(byCategory: bool): seq<Item> {
    [ItemOf(1, byCategory), ItemOf(2, byCategory), ItemOf(3, byCategory)]
  }

  function TrioSignal(r: real): Signal {
    Signal([Affinity(Common(), r), Affinity(Own(1), r), Affinity(Own(2), r), Affinity(Own(3), r)], [])
  }

  lemma TextsDiffer()
    ensures Own(1) != Own(2) && Own(2) != Own(3) && Own(1) != Own(3)
    ensures forall k: u8 :: 1 <= k <= 3 ==> Own(k) != Common()
  {
    assert Own(1)[0] != Own(2)[0] && Own(2)[0] != Own(3)[0] && Own(1)[0] != Own(3)[0];
    assert forall k: u8 :: Own(k)[0] == k && Common()[0] == 9;
  }

  lemma {:induction false} WeightIsGiven(r: real, k: u8, fallback: real)
    requires 1 <= k <= 3
    ensures AffinityFor(TrioSignal(r).affinities, Common(), fallback) == r
    ensures AffinityFor(TrioSignal(r).affinities, Own(k), fallback) == r
  {
    TextsDiffer();
    var a0 := TrioSignal(r).affinities;
    var a1, a2, a3 := a0[1..], a0[2..], a0[3..];
    assert a0[1..][1..] == a2 && a2[1..] == a3;
    assert AffinityFor(a3, Own(3), fallback) == r;
    assert AffinityFor(a2, Own(2), fallback) == r && AffinityFor(a2, Own(3), fallback) == r;
    assert AffinityFor(a1, Own(1), fallback) == r && AffinityFor(a1, Own(2), fallback) == r;
    assert AffinityFor(a1, Own(3), fallback) == r;
  }

  /** Decay leaves a fresh item alone. */
  predicate FreshIsWhole(scoring: Scoring) {
    scoring.halfLife > 0 ==> scoring.decay(0, scoring.halfLife) == 1.0
  }

  lemma MemberOfItem(scoring: Scoring, r: real, k: u8, byCategory: bool)
    requires FreshIsWhole(scoring) && r > scoring.minScore && 1 <= k <= 3
    ensures CandidateOf(ItemOf(k, byCategory), TrioSignal(r), scoring, 0) == Some(Member(r, k, byCategory))
  {
    hide TrioSignal;
    WeightIsGiven(r, k, scoring.defaultAffinity);
    assert TrioSignal(r).excluded == [] by { NothingExcluded(r); }
  }

  lemma NothingExcluded(r: real)
    ensures TrioSignal(r).excluded == []
  {
  }

  /** The trio is what retrieval makes of three items. */
  lemma TrioIsRetrieved(scoring: Scoring, r: real, byCategory: bool)
    requires FreshIsWhole(scoring) && r > scoring.minScore
    ensures ShortlistOf(scoring, TrioItems(byCategory), TrioSignal(r), 0, 3, Trio(r, byCategory))
  {
    hide CandidateOf;
    hide TrioSignal;
    hide Member;
    var items, trio := TrioItems(byCategory), Trio(r, byCategory);
    MemberOfItem(scoring, r, 1, byCategory);
    MemberOfItem(scoring, r, 2, byCategory);
    MemberOfItem(scoring, r, 3, byCategory);
    assert items[1..] == [items[1], items[2]] && items[1..][1..] == [items[2]] && items[1..][1..][1..] == [];
    var all := Candidates(items, TrioSignal(r), scoring, 0);
    assert Candidates([items[2]], TrioSignal(r), scoring, 0) == [trio[2]];
    assert Candidates([items[1], items[2]], TrioSignal(r), scoring, 0) == [trio[1], trio[2]];
    assert all == trio;
    assert multiset(all) - multiset(trio) == multiset{};
    TrioIsHoldable(byCategory);
  }

  lemma TrioIsHoldable(byCategory: bool)
    ensures Holdable(TrioItems(byCategory))
  {
    assert Own(1) != [] && Own(2) != [] && Own(3) != [] && Common() != [];
  }

  lemma ThreeAlike(a: Candidate, b: Candidate, c: Candidate, r: real, byCategory: bool)
    requires a != b && b != c && a != c && a.relevance == b.relevance == c.relevance == r
    requires Shared(a, byCategory) == Shared(b, byCategory) == Shared(c, byCategory)
    requires Shared(a, !byCategory) != Shared(b, !byCategory) && Shared(b, !byCategory) != Shared(c, !byCategory)
    requires Shared(a, !byCategory) != Shared(c, !byCategory)
    ensures Alike(multiset([a, b, c]), r, byCategory) && |multiset([a, b, c])| == 3
  {
    hide Shared;
    assert multiset([a, b, c]) == multiset{a, b, c};
  }

  lemma TrioIsAlike(r: real, byCategory: bool)
    ensures Alike(multiset(Trio(r, byCategory)), r, byCategory) && |multiset(Trio(r, byCategory))| == 3
  {
    hide Alike;
    TextsDiffer();
    ThreeAlike(Member(r, 1, byCategory), Member(r, 2, byCategory), Member(r, 3, byCategory), r, byCategory);
  }

  lemma {:induction false} OfferedSize(offers: seq<Offer>)
    ensures |Offered(offers)| == |offers|
  {
    if offers != [] { OfferedSize(offers[..|offers| - 1]); }
  }

  lemma TrioLog(scoring: Scoring, r: real, byCategory: bool)
    ensures var slate := Slated(scoring, 3, Trio(r, byCategory));
            |slate| == 3 && forall k :: 0 <= k < 3 ==> slate[k].score == Discounted(r, RepeatFactor(scoring, byCategory), k)
  {
    var trio := Trio(r, byCategory);
    assert AllAccepted([]) && IsGreedy(scoring, multiset(trio), []) && Chosen([]) == [];
    assert Offered([]) + multiset(trio) == multiset(trio);
    TrioIsAlike(r, byCategory);
    hide Discounted;
    hide Greedy;
    hide IsGreedy;
    hide Alike;
    hide Trio;
    hide Chosen;
    var offers := Greedy(scoring, 3, trio, [], (), TakeAll).offers;
    AcceptAllTakesAll(scoring, 3, trio, [], (), TakeAll);
    GreedyIsGreedy(scoring, 3, multiset(trio), trio, [], (), TakeAll);
    AlikeScores(scoring, multiset(trio), offers, r, byCategory);
    OfferedSize(offers);
  }

  lemma TrioScores(scoring: Scoring, r: real, byCategory: bool)
    ensures var scores, f := RankedScores(Slated(scoring, 3, Trio(r, byCategory))), RepeatFactor(scoring, byCategory);
            |scores| == 3 && scores[0] == r && scores[1] == r * f && scores[2] == r * (f * f)
  {
    var f := RepeatFactor(scoring, byCategory);
    assert Discounted(r, f, 0) == r && Discounted(r, f, 1) == r * f;
    assert Discounted(r, f, 2) == r * (f * f) by {
      assert Pow(f, 2) == f * Pow(f, 1) && Pow(f, 1) == f * Pow(f, 0);
    }
    hide Discounted;
    hide Slated;
    TrioLog(scoring, r, byCategory);
  }

  /** A relevance at which repeats with factor `f` raise the score. */
  predicate Rising(r: real, f: real) {
    (r > 0.0 && (f > 1.0 || f < 0.0)) || (r < 0.0 && 0.0 <= f < 1.0)
  }

  lemma TrioIsNotBestFirst(scoring: Scoring, r: real, byCategory: bool)
    requires Rising(r, RepeatFactor(scoring, byCategory))
    ensures !Descending(RankedScores(Slated(scoring, 3, Trio(r, byCategory))))
  {
    hide Slated;
    hide RankedScores;
    TrioScores(scoring, r, byCategory);
    TrioRises(r, RepeatFactor(scoring, byCategory));
    NotDescending(RankedScores(Slated(scoring, 3, Trio(r, byCategory))));
  }

  /** A factor above one or below zero, or a real discount with negative scores
      let through, has three items and a signal whose slate is not best first. */
  lemma UnsafeFactorBreaksOrder(scoring: Scoring, byCategory: bool)
      returns (items: seq<Item>, signal: Signal, shortlist: seq<Candidate>)
    requires var f := RepeatFactor(scoring, byCategory); f > 1.0 || f < 0.0 || (scoring.minScore < 0.0 && f < 1.0)
    requires FreshIsWhole(scoring)
    ensures ShortlistOf(scoring, items, signal, 0, 3, shortlist)
    ensures !Descending(RankedScores(Slated(scoring, 3, shortlist)))
  {
    hide Slated;
    hide RankedScores;
    hide ShortlistOf;
    var f, m := RepeatFactor(scoring, byCategory), scoring.minScore;
    var r := if f > 1.0 || f < 0.0 then (if m < 0.0 then 1.0 else m + 1.0) else m / 2.0;
    items, signal, shortlist := TrioItems(byCategory), TrioSignal(r), Trio(r, byCategory);
    TrioIsRetrieved(scoring, r, byCategory);
    TrioIsNotBestFirst(scoring, r, byCategory);
  }

  lemma NotDescending(scores: seq<real>)
    requires |scores| == 3 && (scores[0] < scores[1] || scores[1] < scores[2])
    ensures !Descending(scores)
  {
  }

  lemma TrioRises(r: real, f: real)
    requires Rising(r, f)
    ensures r < r * f || r * f < r * (f * f)
  {
    if f < 0.0 {
      NegativeProduct(r, f);
      assert f * f > 0.0;
      assert r * (f * f) > 0.0;
    } else {
      assert r * f - r == r * (f - 1.0);
      if f > 1.0 {
        assert r * (f - 1.0) > 0.0;
      } else {
        NegativeProduct(1.0 - f, r);
        assert r * (f - 1.0) == -((1.0 - f) * r);
      }
    }
  }

  lemma NegativeProduct(a: real, b: real)
    requires a > 0.0 && b < 0.0
    ensures a * b < 0.0
  {
  }

  /** The promise holds for all items the daemon can hold, every signal and instant,
      exactly for the safe configurations; of the decay only that it leaves a
      fresh item alone is used. */
  lemma BestFirstIffSafe(scoring: Scoring)
    requires FreshIsWhole(scoring)
    ensures AlwaysBestFirst(scoring) <==> SafeConfig(scoring)
  {
    hide ShortlistOf;
    hide Slated;
    if SafeConfig(scoring) {
      forall items, signal, now, count, shortlist | ShortlistOf(scoring, items, signal, now, count, shortlist)
        ensures Descending(RankedScores(Slated(scoring, count, shortlist)))
      {
        ShortlistIsAbove(scoring, items, signal, now, count, shortlist);
        SafeMeansBestFirst(scoring, count, shortlist);
      }
    } else {
      var f := scoring.categoryFactor;
      var items, signal, shortlist :=
        UnsafeFactorBreaksOrder(scoring, f > 1.0 || f < 0.0 || (scoring.minScore < 0.0 && f < 1.0));
      assert !AlwaysBestFirst(scoring);
    }
  }
}
