/** The diversity-aware re-rank: greedy, order-dependent, with a hook that may
    refuse a candidate and change state of its own. */
module Rerank {
  import opened Words
  import opened Ranking

  datatype Ranked = Ranked(id: u64, score: real, category: Text, advertiser: Text)

  /** One consultation of the hook. */
  datatype Offer = Offer(candidate: Candidate, score: real, accepted: bool)

  datatype Slate<S> = Slate(offers: seq<Offer>, state: S)

  function RankedOf(o: Offer): Ranked {
    Ranked(o.candidate.id, o.score, o.candidate.category, o.candidate.advertiser)
  }

  /** What has been taken, in order. */
  function Chosen(offers: seq<Offer>): seq<Ranked> {
    if offers == [] then []
    else
      var n := |offers| - 1;
      if offers[n].accepted then Chosen(offers[..n]) + [RankedOf(offers[n])] else Chosen(offers[..n])
  }

  lemma {:induction false} ChosenSnoc(offers: seq<Offer>, o: Offer)
    ensures Chosen(offers + [o]) == if o.accepted then Chosen(offers) + [RankedOf(o)] else Chosen(offers)
  {
    assert (offers + [o])[..|offers|] == offers;
  }

  function Pow(f: real, n: nat): real {
    if n == 0 then 1.0 else f * Pow(f, n - 1)
  }

  function CategoryCount(chosen: seq<Ranked>, category: Text): nat {
    if chosen == [] then 0
    else
      var n := |chosen| - 1;
      CategoryCount(chosen[..n], category) + if chosen[n].category == category then 1 else 0
  }

  function AdvertiserCount(chosen: seq<Ranked>, advertiser: Text): nat {
    if chosen == [] then 0
    else
      var n := |chosen| - 1;
      AdvertiserCount(chosen[..n], advertiser) + if chosen[n].advertiser == advertiser then 1 else 0
  }

  /** Relevance, discounted once per repeat of the category and of the advertiser. */
  function Discount(scoring: Scoring, relevance: real, categories: nat, advertisers: nat): real {
    relevance * Pow(scoring.categoryFactor, categories) * Pow(scoring.advertiserFactor, advertisers)
  }

  /** The score of a candidate given what is already taken. */
  function Adjusted(scoring: Scoring, chosen: seq<Ranked>, c: Candidate): real {
    Discount(scoring, c.relevance, CategoryCount(chosen, c.category), AdvertiserCount(chosen, c.advertiser))
  }

  /** The selection order: at equal scores the smaller id wins. */
  predicate Better(scoring: Scoring, chosen: seq<Ranked>, a: Candidate, b: Candidate) {
    var x, y := Adjusted(scoring, chosen, a), Adjusted(scoring, chosen, b);
    x > y || (x == y && a.id < b.id)
  }

  /** The position of the round's winner. */
  function Pick(scoring: Scoring, chosen: seq<Ranked>, rem: seq<Candidate>): (i: nat)
    requires rem != []
    ensures i < |rem|
  {
    var n := |rem| - 1;
    if n == 0 then 0
    else
      var i := Pick(scoring, chosen, rem[..n]);
      if Better(scoring, chosen, rem[n], rem[i]) then n else i
  }

  function RemoveAt<T>(s: seq<T>, i: nat): (r: seq<T>)
    requires i < |s|
    ensures |r| == |s| - 1
  {
    s[..i] + s[i + 1..]
  }

  /** The whole re-rank of what remains, after the given offers. */
  function Greedy<S>(scoring: Scoring, count: nat, rem: seq<Candidate>, offers: seq<Offer>, state: S,
                     accept: (S, u64) -> (bool, S)): Slate<S>
    decreases |rem|
  {
    if |Chosen(offers)| >= count || rem == [] then Slate(offers, state)
    else
      var chosen := Chosen(offers);
      var i := Pick(scoring, chosen, rem);
      var answer := accept(state, rem[i].id);
      var offer := Offer(rem[i], Adjusted(scoring, chosen, rem[i]), answer.0);
      Greedy(scoring, count, RemoveAt(rem, i), offers + [offer], answer.1, accept)
  }

  // -------------------------------------------------------------------------
  // What the log of offers looks like
  // -------------------------------------------------------------------------

  function Offered(offers: seq<Offer>): multiset<Candidate> {
    if offers == [] then multiset{}
    else Offered(offers[..|offers| - 1]) + multiset{offers[|offers| - 1].candidate}
  }

  /** The last offer carries the discounted score, and no candidate not offered
      before it is better. */
  ghost predicate LastIsBest(scoring: Scoring, all: multiset<Candidate>, offers: seq<Offer>)
    requires offers != []
  {
    var before, last := offers[..|offers| - 1], offers[|offers| - 1];
    && last.score == Adjusted(scoring, Chosen(before), last.candidate)
    && last.candidate in all - Offered(before)
    && forall c :: c in all - Offered(before) ==> !Better(scoring, Chosen(before), c, last.candidate)
  }

  /** Every offer is the best of what was left when it was made. */
  ghost predicate IsGreedy(scoring: Scoring, all: multiset<Candidate>, offers: seq<Offer>) {
    offers != [] ==> IsGreedy(scoring, all, offers[..|offers| - 1]) && LastIsBest(scoring, all, offers)
  }

  lemma {:induction false} PickIsBest(scoring: Scoring, chosen: seq<Ranked>, rem: seq<Candidate>, j: nat)
    requires j < |rem|
    ensures !Better(scoring, chosen, rem[j], rem[Pick(scoring, chosen, rem)])
  {
    hide Adjusted;
    var n := |rem| - 1;
    if n > 0 {
      PickIsBest(scoring, chosen, rem[..n], if j < n then j else 0);
    }
  }

  lemma RemoveOne<T>(s: seq<T>, i: nat)
    requires i < |s|
    ensures multiset(s) == multiset(RemoveAt(s, i)) + multiset{s[i]}
  {
    assert s == s[..i] + [s[i]] + s[i + 1..];
  }

  lemma {:induction false} OfferStep(scoring: Scoring, all: multiset<Candidate>, rem: seq<Candidate>,
                                     offers: seq<Offer>, i: nat, ok: bool)
    requires IsGreedy(scoring, all, offers) && all == Offered(offers) + multiset(rem) && rem != []
    requires i == Pick(scoring, Chosen(offers), rem)
    ensures var offers' := offers + [Offer(rem[i], Adjusted(scoring, Chosen(offers), rem[i]), ok)];
            && IsGreedy(scoring, all, offers')
            && all == Offered(offers') + multiset(RemoveAt(rem, i))
  {
    hide Adjusted;
    hide Better;
    var offers' := offers + [Offer(rem[i], Adjusted(scoring, Chosen(offers), rem[i]), ok)];
    assert offers'[..|offers|] == offers;
    RemoveOne(rem, i);
    assert all - Offered(offers) == multiset(rem);
    forall c | c in multiset(rem) ensures !Better(scoring, Chosen(offers), c, rem[i]) {
      var j :| 0 <= j < |rem| && rem[j] == c;
      PickIsBest(scoring, Chosen(offers), rem, j);
    }
  }

  /** Every candidate offered was the best left, none is offered twice, at most
      `count` are taken, and the slate is short only if all were offered. */
  lemma {:induction false} GreedyIsGreedy<S>(scoring: Scoring, count: nat, all: multiset<Candidate>,
                                             rem: seq<Candidate>, offers: seq<Offer>, state: S,
                                             accept: (S, u64) -> (bool, S))
    requires IsGreedy(scoring, all, offers) && all == Offered(offers) + multiset(rem)
    requires |Chosen(offers)| <= count
    ensures var slate := Greedy(scoring, count, rem, offers, state, accept);
            && IsGreedy(scoring, all, slate.offers)
            && Offered(slate.offers) <= all
            && |Chosen(slate.offers)| <= count
            && (|Chosen(slate.offers)| < count ==> Offered(slate.offers) == all)
    decreases |rem|
  {
    hide Adjusted;
    if |Chosen(offers)| >= count {
    } else if rem == [] {
      assert multiset(rem) == multiset{};
      assert Offered(offers) + multiset{} == Offered(offers);
    } else {
      var i := Pick(scoring, Chosen(offers), rem);
      var answer := accept(state, rem[i].id);
      var offers' := offers + [Offer(rem[i], Adjusted(scoring, Chosen(offers), rem[i]), answer.0)];
      OfferStep(scoring, all, rem, offers, i, answer.0);
      assert offers'[..|offers|] == offers;
      GreedyIsGreedy(scoring, count, all, RemoveAt(rem, i), offers', answer.1, accept);
    }
  }

  // -------------------------------------------------------------------------
  // Scores never rise
  // -------------------------------------------------------------------------

  lemma {:induction false} PowShrinks(f: real, n: nat)
    requires 0.0 <= f <= 1.0
    ensures 0.0 <= Pow(f, n + 1) <= Pow(f, n) <= 1.0
  {
    if n > 0 { PowShrinks(f, n - 1); }
    var p := Pow(f, n);
    assert 0.0 <= f * p by { ProductBounds(f, p); }
    assert f * p <= p by { ProductBounds(1.0 - f, p); assert (1.0 - f) * p == p - f * p; }
  }

  lemma ProductBounds(a: real, b: real)
    requires 0.0 <= a && 0.0 <= b
    ensures 0.0 <= a * b
  {
  }

  lemma ProductShrinks(r: real, p: real, q: real, p': real, q': real)
    requires 0.0 <= r && 0.0 <= p' <= p && 0.0 <= q' <= q
    ensures r * p' * q' <= r * p * q
  {
    ProductBounds(r, p - p');
    ProductBounds(r * (p - p'), q);
    ProductBounds(r, p');
    ProductBounds(r * p', q - q');
    assert r * p * q - r * p' * q' == r * (p - p') * q + r * p' * (q - q');
  }

  /** Factors that only ever discount. */
  predicate Discounting(scoring: Scoring) {
    0.0 <= scoring.categoryFactor <= 1.0 && 0.0 <= scoring.advertiserFactor <= 1.0
  }

  lemma {:induction false} PowOfOne(n: nat)
    ensures Pow(1.0, n) == 1.0
  {
    if n > 0 { PowOfOne(n - 1); }
  }

  /** With both factors one there is no discount at all. */
  lemma NoDiscount(scoring: Scoring, chosen: seq<Ranked>, c: Candidate)
    requires scoring.categoryFactor == 1.0 && scoring.advertiserFactor == 1.0
    ensures Adjusted(scoring, chosen, c) == c.relevance
  {
    PowOfOne(CategoryCount(chosen, c.category));
    PowOfOne(AdvertiserCount(chosen, c.advertiser));
  }

  lemma AdjustedShrinks(scoring: Scoring, chosen: seq<Ranked>, r: Ranked, c: Candidate)
    requires Discounting(scoring) && 0.0 <= c.relevance
    ensures Adjusted(scoring, chosen + [r], c) <= Adjusted(scoring, chosen, c)
  {
    assert (chosen + [r])[..|chosen|] == chosen;
    var a, b := CategoryCount(chosen, c.category), AdvertiserCount(chosen, c.advertiser);
    PowShrinks(scoring.categoryFactor, a);
    PowShrinks(scoring.advertiserFactor, b);
    ProductShrinks(c.relevance, Pow(scoring.categoryFactor, a), Pow(scoring.advertiserFactor, b),
                   Pow(scoring.categoryFactor, CategoryCount(chosen + [r], c.category)),
                   Pow(scoring.advertiserFactor, AdvertiserCount(chosen + [r], c.advertiser)));
  }

  ghost predicate Descending(scores: seq<real>) {
    forall i, j :: 0 <= i < j < |scores| ==> scores[i] >= scores[j]
  }

  function OfferScores(offers: seq<Offer>): (r: seq<real>)
    ensures |r| == |offers| && forall i :: 0 <= i < |r| ==> r[i] == offers[i].score
  {
    if offers == [] then [] else OfferScores(offers[..|offers| - 1]) + [offers[|offers| - 1].score]
  }

  function RankedScores(chosen: seq<Ranked>): (r: seq<real>)
    ensures |r| == |chosen| && forall i :: 0 <= i < |r| ==> r[i] == chosen[i].score
  {
    if chosen == [] then [] else RankedScores(chosen[..|chosen| - 1]) + [chosen[|chosen| - 1].score]
  }

  ghost predicate NonNegative(all: multiset<Candidate>) {
    forall c :: c in all ==> 0.0 <= c.relevance
  }

  /** When taking an item cannot raise another item's score. */
  ghost predicate OnlyFades(scoring: Scoring, all: multiset<Candidate>) {
    || (scoring.categoryFactor == 1.0 && scoring.advertiserFactor == 1.0)
    || (Discounting(scoring) && NonNegative(all))
  }

  lemma AdjustedFades(scoring: Scoring, all: multiset<Candidate>, chosen: seq<Ranked>, r: Ranked, c: Candidate)
    requires OnlyFades(scoring, all) && c in all
    ensures Adjusted(scoring, chosen + [r], c) <= Adjusted(scoring, chosen, c)
  {
    if scoring.categoryFactor == 1.0 && scoring.advertiserFactor == 1.0 {
      NoDiscount(scoring, chosen, c);
      NoDiscount(scoring, chosen + [r], c);
    } else {
      AdjustedShrinks(scoring, chosen, r, c);
    }
  }

  /** One offer scores no more than the offer before it. */
  lemma {:induction false} NextScoreIsLower(scoring: Scoring, all: multiset<Candidate>, offers: seq<Offer>)
    requires OnlyFades(scoring, all) && |offers| >= 2 && IsGreedy(scoring, all, offers)
    ensures offers[|offers| - 1].score <= offers[|offers| - 2].score
  {
    var n := |offers| - 1;
    var last, prev, before := offers[n], offers[n - 1], offers[..n - 1];
    assert offers[..n][..n - 1] == before;
    assert LastIsBest(scoring, all, offers) && LastIsBest(scoring, all, offers[..n]);
    assert last.candidate in all - Offered(before);
    hide Adjusted;
    if prev.accepted {
      AdjustedFades(scoring, all, Chosen(before),
        Ranked(prev.candidate.id, prev.score, prev.candidate.category, prev.candidate.advertiser), last.candidate);
    }
  }

  lemma SnocDescending(scores: seq<real>, x: real)
    requires Descending(scores) && (scores != [] ==> scores[|scores| - 1] >= x)
    ensures Descending(scores + [x])
  {
  }

  /** The offers, and so the slate, come best first. */
  lemma {:induction false} ScoresDescend(scoring: Scoring, all: multiset<Candidate>, offers: seq<Offer>)
    requires OnlyFades(scoring, all) && IsGreedy(scoring, all, offers)
    ensures Descending(OfferScores(offers)) && Descending(RankedScores(Chosen(offers)))
    ensures var taken := Chosen(offers);
            taken != [] ==> taken[|taken| - 1].score >= offers[|offers| - 1].score
  {
    hide OnlyFades;
    hide LastIsBest;
    if offers != [] {
      var n := |offers| - 1;
      ScoresDescend(scoring, all, offers[..n]);
      if n > 0 {
        NextScoreIsLower(scoring, all, offers);
        assert offers[..n][n - 1] == offers[n - 1];
      }
      SnocDescending(OfferScores(offers[..n]), offers[n].score);
      var taken := Chosen(offers[..n]);
      SnocDescending(RankedScores(taken), offers[n].score);
      assert Chosen(offers)[..|taken|] == taken;
    }
  }

  /** The re-rank as a whole. */
  lemma {:induction false} RerankGuarantee<S>(scoring: Scoring, count: nat, shortlist: seq<Candidate>, state: S,
                                              accept: (S, u64) -> (bool, S))
    requires OnlyFades(scoring, multiset(shortlist))
    ensures var slate := Greedy(scoring, count, shortlist, [], state, accept);
            && IsGreedy(scoring, multiset(shortlist), slate.offers)
            && Offered(slate.offers) <= multiset(shortlist)
            && Descending(OfferScores(slate.offers)) && Descending(RankedScores(Chosen(slate.offers)))
            && |Chosen(slate.offers)| <= count
            && (|Chosen(slate.offers)| < count ==> Offered(slate.offers) == multiset(shortlist))
  {
    assert Offered([]) + multiset(shortlist) == multiset(shortlist);
    GreedyIsGreedy(scoring, count, multiset(shortlist), shortlist, [], state, accept);
    ScoresDescend(scoring, multiset(shortlist), Greedy(scoring, count, shortlist, [], state, accept).offers);
  }

  // -------------------------------------------------------------------------
  // The order of the shortlist does not matter
  // -------------------------------------------------------------------------

  lemma {:induction false} PickIsUnique(scoring: Scoring, chosen: seq<Ranked>, a: seq<Candidate>, b: seq<Candidate>)
    requires a != [] && multiset(a) == multiset(b) && IdsIdentify(multiset(a))
    ensures b != [] && a[Pick(scoring, chosen, a)] == b[Pick(scoring, chosen, b)]
  {
    assert |multiset(a)| == |a| && |multiset(b)| == |b|;
    var x, y := a[Pick(scoring, chosen, a)], b[Pick(scoring, chosen, b)];
    assert x in multiset(b) && y in multiset(a);
    var i :| 0 <= i < |a| && a[i] == y;
    var j :| 0 <= j < |b| && b[j] == x;
    PickIsBest(scoring, chosen, a, i);
    PickIsBest(scoring, chosen, b, j);
  }

  lemma {:induction false} OrderIsIrrelevant<S>(scoring: Scoring, count: nat, a: seq<Candidate>, b: seq<Candidate>,
                                                offers: seq<Offer>, state: S, accept: (S, u64) -> (bool, S))
    requires multiset(a) == multiset(b) && IdsIdentify(multiset(a))
    ensures Greedy(scoring, count, a, offers, state, accept) == Greedy(scoring, count, b, offers, state, accept)
    decreases |a|
  {
    hide Adjusted;
    assert |multiset(a)| == |a| && |multiset(b)| == |b|;
    if |Chosen(offers)| < count && a != [] {
      var chosen := Chosen(offers);
      PickIsUnique(scoring, chosen, a, b);
      var i, j := Pick(scoring, chosen, a), Pick(scoring, chosen, b);
      RemoveOne(a, i);
      RemoveOne(b, j);
      assert multiset(RemoveAt(a, i)) == multiset(a) - multiset{a[i]};
      assert multiset(RemoveAt(b, j)) == multiset(b) - multiset{b[j]};
      var answer := accept(state, a[i].id);
      OrderIsIrrelevant(scoring, count, RemoveAt(a, i), RemoveAt(b, j),
                        offers + [Offer(a[i], Adjusted(scoring, chosen, a[i]), answer.0)], answer.1, accept);
    }
  }
}
