/** Which of the stored items a recommendation considers and returns: nothing that
    qualifies is overlooked, what is kept for re-ranking is the best, and the
    compliance store alone decides what is passed over. */
module HandlerSelection {
  import opened Words
  import opened Messages
  import opened Codec
  import Lru
  import opened Sharding
  import opened Policy
  import opened PolicyRuns
  import opened PolicyVerdicts
  import R = Ranking
  import opened Rerank
  import opened HandlerModel
  import opened HandlerTheorems
  import opened Delivery
  import opened HandlerRuns
  import opened HandlerPolicy
  import opened HandlerSlates

  // -------------------------------------------------------------------------
  // What qualifies
  // -------------------------------------------------------------------------

  /** Showable, and relevant above the floor. */
  ghost predicate Qualifies(env: Env, signal: Messages.Signal, now: i64, item: Item) {
    Showable(env, signal, now, item) && exists r :: IsRelevance(env, signal, now, item, r) && r > env.scoring.minScore
  }

  ghost function QualifyingIds(env: Env, signal: Messages.Signal, now: i64, pairs: seq<Lru.Pair<u64, Item>>): set<u64> {
    set k | 0 <= k < |pairs| && Qualifies(env, signal, now, pairs[k].value) :: pairs[k].key
  }

  lemma QualifiesIff(env: Env, signal: Messages.Signal, now: i64, item: Item)
    ensures Qualifies(env, signal, now, item) <==>
            R.CandidateOf(ToRanking(env, item), ToSignal(env, signal), env.scoring, now).Some?
  {
    hide IsRelevance;
    hide Showable;
    hide R.IsEligible;
    hide R.Relevance;
    RankerReadsFields(env, signal, now, item);
    var r := R.Relevance(ToRanking(env, item), ToSignal(env, signal), env.scoring, now);
    if r' :| IsRelevance(env, signal, now, item, r') && r' > env.scoring.minScore {
      RelevanceIsOne(env, signal, now, item, r, r');
    }
  }

  lemma SnocIds(env: Env, signal: Messages.Signal, now: i64, pairs: seq<Lru.Pair<u64, Item>>)
    requires pairs != []
    ensures var n := |pairs| - 1;
            QualifyingIds(env, signal, now, pairs)
            == QualifyingIds(env, signal, now, pairs[..n])
               + if Qualifies(env, signal, now, pairs[n].value) then {pairs[n].key} else {}
  {
    hide Qualifies;
    var n := |pairs| - 1;
    var ids, before := QualifyingIds(env, signal, now, pairs), QualifyingIds(env, signal, now, pairs[..n]);
    forall x | x in before ensures x in ids {
      var k :| 0 <= k < n && Qualifies(env, signal, now, pairs[..n][k].value) && pairs[..n][k].key == x;
      assert pairs[k] == pairs[..n][k];
    }
    forall x | x in ids && x !in before ensures x == pairs[n].key && Qualifies(env, signal, now, pairs[n].value) {
      var k :| 0 <= k < |pairs| && Qualifies(env, signal, now, pairs[k].value) && pairs[k].key == x;
    }
  }

  lemma NewKey(env: Env, signal: Messages.Signal, now: i64, pairs: seq<Lru.Pair<u64, Item>>)
    requires pairs != [] && Lru.Distinct(pairs)
    ensures pairs[|pairs| - 1].key !in QualifyingIds(env, signal, now, pairs[..|pairs| - 1])
  {
    hide Qualifies;
  }

  /** The candidates are the qualifying items, one each. */
  lemma {:induction false} OffersAreQualifying(env: Env, signal: Messages.Signal, now: i64,
                                               pairs: seq<Lru.Pair<u64, Item>>)
    requires Lru.Distinct(pairs)
    ensures |OffersOf(env, ToSignal(env, signal), now, pairs)| == |QualifyingIds(env, signal, now, pairs)|
  {
    hide Qualifies;
    hide R.CandidateOf;
    hide QualifyingIds;
    if pairs == [] {
      NoneQualify(env, signal, now);
    } else {
      var n := |pairs| - 1;
      OffersAreQualifying(env, signal, now, pairs[..n]);
      SnocIds(env, signal, now, pairs);
      NewKey(env, signal, now, pairs);
      QualifiesIff(env, signal, now, pairs[n].value);
    }
  }

  lemma NoneQualify(env: Env, signal: Messages.Signal, now: i64)
    ensures QualifyingIds(env, signal, now, []) == {}
  {
  }

  /** Every qualifying item is among the candidates. */
  lemma {:induction false} QualifyingIsOffered(env: Env, signal: Messages.Signal, now: i64,
                                               pairs: seq<Lru.Pair<u64, Item>>, k: nat) returns (j: nat)
    requires k < |pairs| && Qualifies(env, signal, now, pairs[k].value)
    ensures var made := OffersOf(env, ToSignal(env, signal), now, pairs);
            j < |made| && Makes(env, ToSignal(env, signal), now, pairs[k].value, made[j])
  {
    hide Qualifies;
    hide R.CandidateOf;
    var n := |pairs| - 1;
    if k < n {
      j := QualifyingIsOffered(env, signal, now, pairs[..n], k);
    } else {
      QualifiesIff(env, signal, now, pairs[n].value);
      j := |OffersOf(env, ToSignal(env, signal), now, pairs[..n])|;
    }
  }

  // -------------------------------------------------------------------------
  // Nothing is overlooked
  // -------------------------------------------------------------------------

  /** How many candidates are re-ranked at most. */
  function Room(env: Env, count: nat): nat {
    if env.scoring.overfetch <= 1 then count else count * env.scoring.overfetch
  }

  lemma {:induction false} OfferedAt(offers: seq<Offer>, c: R.Candidate) returns (i: nat)
    requires c in Offered(offers)
    ensures i < |offers| && offers[i].candidate == c
  {
    var n := |offers| - 1;
    if offers[n].candidate == c { i := n; } else { i := OfferedAt(offers[..n], c); }
  }

  lemma {:induction false} ConsultAt(live: bool, now: u64, offers: seq<Offer>, i: nat)
    requires i < |offers|
    ensures var op := ConsultOps(live, now, offers)[i];
            op == if live then OpReserve(offers[i].candidate.id, now) else OpCheck(offers[i].candidate.id, now)
  {
    if i < |offers| - 1 { ConsultAt(live, now, offers[..|offers| - 1], i); }
  }

  lemma AllKept(shortlist: seq<R.Candidate>, made: seq<R.Candidate>, m: nat)
    requires R.IsTop(multiset(shortlist), multiset(made), m) && |made| <= m
    ensures multiset(shortlist) == multiset(made)
  {
    assert |multiset(made)| == |made|;
    R.SubOfSameSize(multiset(shortlist), multiset(made));
  }

  /** The run asks the compliance store about `id`. */
  ghost predicate AsksAbout(ops: seq<Op>, id: u64) {
    exists i :: 0 <= i < |ops| && (ops[i].OpReserve? || ops[i].OpCheck?) && ops[i].id == id
  }

  lemma {:induction false} ShortSlateOffersAll(env: Env, h: State, signal: Messages.Signal, count: u32, dryRun: bool,
                                               now: i64, shortlist: seq<R.Candidate>, k: nat)
    requires Inv(env, h) && 0 < count && IsShortlist(env, h.lists, ToSignal(env, signal), count, now, shortlist)
    requires |QualifyingIds(env, signal, now, Scan(h.lists))| <= Room(env, count)
    requires k < |Scan(h.lists)| && Qualifies(env, signal, now, Scan(h.lists)[k].value)
    ensures var offers := Greedy(env.scoring, count, shortlist, [], h.policy, Hook(env, dryRun, now)).offers;
            |Chosen(offers)| < count ==>
              AsksAbout(ConsultOps(!dryRun, ToUnsigned(now), offers), Scan(h.lists)[k].key)
  {
    hide Inv;
    hide Greedy;
    hide Chosen;
    hide Offered;
    hide IsGreedy;
    hide OffersOf;
    hide Scan;
    hide Qualifies;
    hide QualifyingIds;
    hide Makes;
    hide Hook;
    hide ConsultOps;
    hide ToSignal;
    OffersAreFromCache(env, h, ToSignal(env, signal), now);
    ScanDistinct(env, h);
    var pairs, made := Scan(h.lists), OffersOf(env, ToSignal(env, signal), now, Scan(h.lists));
    OffersAreQualifying(env, signal, now, pairs);
    RoomIsLimit(env, count);
    AllKept(shortlist, made, R.ShortlistLimit(env.scoring, count));
    NoneOffered(env.scoring, shortlist);
    GreedyIsGreedy(env.scoring, count, multiset(shortlist), shortlist, [], h.policy, Hook(env, dryRun, now));
    var offers := Greedy(env.scoring, count, shortlist, [], h.policy, Hook(env, dryRun, now)).offers;
    if |Chosen(offers)| < count {
      var j := QualifyingIsOffered(env, signal, now, pairs, k);
      assert made[j] in multiset(made);
      var i := OfferedAt(offers, made[j]);
      ConsultAt(!dryRun, ToUnsigned(now), offers, i);
      MadeOf(env, ToSignal(env, signal), now, pairs[k].value, made[j]);
      assert Storable(pairs[k]);
    }
  }

  lemma ScanDistinct(env: Env, h: State)
    requires Inv(env, h)
    ensures Lru.Distinct(Scan(h.lists))
  {
    ScanIsDistinct(env.hash, env.capacity, h.lists);
  }

  lemma RoomIsLimit(env: Env, count: nat)
    ensures R.ShortlistLimit(env.scoring, count) == Room(env, count)
  {
  }

  /** Over any run: if a recommendation comes back short, and no more items qualified
      than are re-ranked, the compliance store was asked about every single one. */
  lemma NothingOverlooked(env: Env, events: seq<Event>, k: nat)
    requires ValidEnv(env) && IsRun(env, events) && events != []
    requires var b := Asked(events[|events| - 1]).body; b.Recommend? && 0 < b.count <= MAX_RECOMMEND
    requires var e, pairs := events[|events| - 1], Scan(StateAfter(env, events[..|events| - 1]).lists);
             var b := Asked(e).body;
             && |e.chosen| < b.count && |QualifyingIds(env, b.signal, e.now, pairs)| <= Room(env, b.count)
             && k < |pairs| && Qualifies(env, b.signal, e.now, pairs[k].value)
    ensures var e, h := events[|events| - 1], StateAfter(env, events[..|events| - 1]);
            AsksAbout(Consultations(env, h, e), Scan(h.lists)[k].key)
  {
    hide DecodeRequest;
    hide Greedy;
    hide IsShortlist;
    hide Qualifies;
    hide QualifyingIds;
    hide AsksAbout;
    hide Scan;
    hide Chosen;
    hide ConsultOps;
    hide Room;
    var before, e := events[..|events| - 1], events[|events| - 1];
    RunKeepsGoodOrder(env, before);
    hide Inv;
    hide Rendered;
    var h, b := StateAfter(env, before), Asked(e).body;
    ShortSlateOffersAll(env, h, b.signal, b.count, b.dryRun, e.now, e.shortlist, k);
  }

  // -------------------------------------------------------------------------
  // What is kept, and in which order it is taken
  // -------------------------------------------------------------------------

  /** Nothing left out of the shortlist is more relevant than anything in it; among
      equals the larger ids are kept. */
  lemma {:induction false} KeepsTheMostRelevant(env: Env, lists: seq<seq<Lru.Pair<u64, Item>>>, signal: R.Signal,
                                                count: nat, now: i64, shortlist: seq<R.Candidate>, c: R.Candidate,
                                                d: R.Candidate)
    requires IsShortlist(env, lists, signal, count, now, shortlist)
    requires c in multiset(shortlist) && d in multiset(OffersOf(env, signal, now, Scan(lists))) - multiset(shortlist)
    ensures c.relevance > d.relevance || (c.relevance == d.relevance && c.id >= d.id)
  {
    hide OffersOf;
    assert R.Dominates(c, multiset(OffersOf(env, signal, now, Scan(lists))) - multiset(shortlist));
  }

  /** The discounted score of a candidate, spelled out. */
  function ScoreNow(scoring: R.Scoring, chosen: seq<Rerank.Ranked>, c: R.Candidate): real {
    c.relevance * Pow(scoring.categoryFactor, CategoryCount(chosen, c.category))
                * Pow(scoring.advertiserFactor, AdvertiserCount(chosen, c.advertiser))
  }

  /** Each offer was the one with the highest score then, and of those with equal
      scores the one with the smallest id. */
  lemma {:induction false} OffersTheHighest(scoring: R.Scoring, all: multiset<R.Candidate>, offers: seq<Offer>, i: nat,
                                            c: R.Candidate)
    requires IsGreedy(scoring, all, offers) && i < |offers| && c in all - Offered(offers[..i])
    ensures var chosen, o := Chosen(offers[..i]), offers[i];
            && o.score == ScoreNow(scoring, chosen, o.candidate)
            && (o.score > ScoreNow(scoring, chosen, c)
                || (o.score == ScoreNow(scoring, chosen, c) && o.candidate.id <= c.id))
  {
    hide Pow;
    hide Offered;
    hide Chosen;
    var n := |offers| - 1;
    if i < n {
      assert offers[..n][..i] == offers[..i];
      OffersTheHighest(scoring, all, offers[..n], i, c);
    }
  }

  /** Without repeat discounts a slate is sorted: by score, and at equal scores by
      id. */
  ghost predicate Sorted(chosen: seq<Rerank.Ranked>) {
    forall i, j :: 0 <= i < j < |chosen| ==>
      chosen[i].score > chosen[j].score || (chosen[i].score == chosen[j].score && chosen[i].id < chosen[j].id)
  }

  /** Everything still in the pool comes after everything taken. */
  ghost predicate AllAfter(chosen: seq<Rerank.Ranked>, rest: multiset<R.Candidate>) {
    forall i, c :: 0 <= i < |chosen| && c in rest ==>
      chosen[i].score > c.relevance || (chosen[i].score == c.relevance && chosen[i].id < c.id)
  }

  lemma {:induction false} PlainSlateIsSorted(scoring: R.Scoring, all: multiset<R.Candidate>, offers: seq<Offer>)
    requires scoring.categoryFactor == 1.0 && scoring.advertiserFactor == 1.0
    requires IsGreedy(scoring, all, offers) && Offered(offers) <= all
    requires R.IdsIdentify(all) && forall c :: all[c] <= 1
    ensures Sorted(Chosen(offers)) && AllAfter(Chosen(offers), all - Offered(offers))
  {
    if offers != [] {
      var n := |offers| - 1;
      PlainSlateIsSorted(scoring, all, offers[..n]);
      var before, o := Chosen(offers[..n]), offers[n];
      forall c | c in all - Offered(offers[..n])
        ensures o.score == o.candidate.relevance
        ensures c == o.candidate || o.score > c.relevance || (o.score == c.relevance && o.candidate.id < c.id)
      {
        NoDiscount(scoring, before, o.candidate);
        NoDiscount(scoring, before, c);
      }
      hide IsGreedy;
      hide Adjusted;
      StepSorted(all, offers);
    }
  }

  lemma {:induction false} StepSorted(all: multiset<R.Candidate>, offers: seq<Offer>)
    requires offers != [] && Offered(offers) <= all && forall c :: all[c] <= 1
    requires var n := |offers| - 1;
             var o := offers[n];
             && Sorted(Chosen(offers[..n])) && AllAfter(Chosen(offers[..n]), all - Offered(offers[..n]))
             && o.candidate in all - Offered(offers[..n]) && o.score == o.candidate.relevance
             && forall c :: c in all - Offered(offers[..n]) ==>
                  c == o.candidate || o.score > c.relevance || (o.score == c.relevance && o.candidate.id < c.id)
    ensures Sorted(Chosen(offers)) && AllAfter(Chosen(offers), all - Offered(offers))
  {
    var n := |offers| - 1;
    var rest, rest' := all - Offered(offers[..n]), all - Offered(offers);
    forall c | c in rest' ensures c in rest && c != offers[n].candidate {
      assert all[c] <= 1;
    }
    assert offers == offers[..n] + [offers[n]];
    ChosenSnoc(offers[..n], offers[n]);
    hide Chosen;
    hide Offered;
    if offers[n].accepted { AppendSorted(Chosen(offers[..n]), offers[n], rest, rest'); }
  }

  lemma {:induction false} AppendSorted(chosen: seq<Rerank.Ranked>, o: Offer, rest: multiset<R.Candidate>,
                                        rest': multiset<R.Candidate>)
    requires Sorted(chosen) && AllAfter(chosen, rest) && o.candidate in rest && o.score == o.candidate.relevance
    requires forall c :: c in rest ==>
               c == o.candidate || o.score > c.relevance || (o.score == c.relevance && o.candidate.id < c.id)
    requires forall c :: c in rest' ==> c in rest && c != o.candidate
    ensures Sorted(chosen + [RankedOf(o)]) && AllAfter(chosen + [RankedOf(o)], rest')
  {
  }

  /** So is every recommendation's, whatever the store refuses in between. */
  lemma PlainReplyIsSorted(env: Env, h: State, signal: Messages.Signal, count: u32, dryRun: bool, now: i64, h': State,
                           body: ResponseBody, chosen: seq<Rerank.Ranked>, shortlist: seq<R.Candidate>)
    requires Inv(env, h) && env.scoring.categoryFactor == 1.0 && env.scoring.advertiserFactor == 1.0
    requires OnRecommend(env, h, signal, count, dryRun, now, h', body, chosen, shortlist)
    ensures Sorted(chosen)
  {
    hide Greedy;
    hide Chosen;
    hide IsGreedy;
    hide Offered;
    hide Rendered;
    if 0 < count <= MAX_RECOMMEND {
      ShortlistIsDistinct(env, h, ToSignal(env, signal), count, now, shortlist);
      DistinctIdentify(shortlist);
      forall c ensures multiset(shortlist)[c] <= 1 { OnceInMultiset(shortlist, c); }
      hide Inv;
      hide IsShortlist;
      NoneOffered(env.scoring, shortlist);
      GreedyIsGreedy(env.scoring, count, multiset(shortlist), shortlist, [], h.policy, Hook(env, dryRun, now));
      PlainSlateIsSorted(env.scoring, multiset(shortlist),
                         Greedy(env.scoring, count, shortlist, [], h.policy, Hook(env, dryRun, now)).offers);
    }
  }

  // -------------------------------------------------------------------------
  // What the compliance store lets through
  // -------------------------------------------------------------------------

  /** The answer to consultation `i`: what the store says after all asked before. */
  ghost predicate Answers(l: Layout, live: bool, now: u64, base: seq<Op>, offers: seq<Offer>, i: nat)
    requires ValidLayout(l) && i < |offers|
  {
    var ops := base + ConsultOps(live, now, offers[..i]);
    offers[i].accepted <==> VerdictNow(l, ops, offers[i].candidate.id, now) == Allowed
  }

  ghost predicate AllAnswer(l: Layout, live: bool, now: u64, base: seq<Op>, offers: seq<Offer>)
    requires ValidLayout(l)
  {
    forall i :: 0 <= i < |offers| ==> Answers(l, live, now, base, offers, i)
  }

  lemma {:induction false} HookAnswers(l: Layout, live: bool, now: u64, ops: seq<Op>, id: u64)
    requires ValidLayout(l)
    ensures HookOf(l, live, now)(Run(l, ops), id).0 <==> VerdictNow(l, ops, id, now) == Allowed
  {
    hide Reserved;
    CheckAgreesWithReserve(l, ops, id, now);
  }

  lemma {:induction false} AnswerMore(l: Layout, live: bool, now: u64, base: seq<Op>, offers: seq<Offer>, o: Offer)
    requires ValidLayout(l) && AllAnswer(l, live, now, base, offers)
    requires o.accepted <==> VerdictNow(l, base + ConsultOps(live, now, offers), o.candidate.id, now) == Allowed
    ensures AllAnswer(l, live, now, base, offers + [o])
  {
    hide VerdictNow;
    var all := offers + [o];
    forall i | 0 <= i < |all| ensures Answers(l, live, now, base, all, i) {
      if i < |offers| {
        assert Answers(l, live, now, base, offers, i);
        assert all[..i] == offers[..i];
      } else {
        assert all[..i] == offers;
      }
    }
  }

  /** A candidate is passed over exactly when the store, after everything asked of it
      so far, would refuse it. */
  lemma {:induction false} OnlyTheStoreRefuses(l: Layout, live: bool, now: u64, scoring: R.Scoring, count: nat,
                                               rem: seq<R.Candidate>, offers: seq<Offer>, st: Store, base: seq<Op>)
    requires ValidLayout(l) && st == Run(l, base + ConsultOps(live, now, offers))
    requires AllAnswer(l, live, now, base, offers)
    ensures AllAnswer(l, live, now, base, Greedy(scoring, count, rem, offers, st, HookOf(l, live, now)).offers)
    decreases |rem|
  {
    hide Run;
    hide Apply;
    hide HookOf;
    hide ConsultOps;
    hide Pick;
    hide Adjusted;
    hide Chosen;
    hide AllAnswer;
    hide VerdictNow;
    if |Chosen(offers)| < count && rem != [] {
      var i := Pick(scoring, Chosen(offers), rem);
      var answer := HookOf(l, live, now)(st, rem[i].id);
      var o := Offer(rem[i], Adjusted(scoring, Chosen(offers), rem[i]), answer.0);
      var ops := base + ConsultOps(live, now, offers);
      var op := if live then OpReserve(rem[i].id, now) else OpCheck(rem[i].id, now);
      HookAnswers(l, live, now, ops, rem[i].id);
      AnswerMore(l, live, now, base, offers, o);
      ConsultSnoc(live, now, offers, o);
      ConsultIsStep(l, live, now, st, rem[i].id);
      RunSnoc(l, ops, op);
      assert ops + [op] == base + ConsultOps(live, now, offers + [o]);
      OnlyTheStoreRefuses(l, live, now, scoring, count, RemoveAt(rem, i), offers + [o], answer.1, base);
    }
  }

  /** Over any run: what a recommendation returns is what it was allowed to among
      what it offered, each verdict being the store's after all consultations of the
      run before it. */
  lemma {:induction false} ReturnedIsAllowed(env: Env, events: seq<Event>)
    requires ValidEnv(env) && IsRun(env, events) && events != []
    ensures AllDecode(events) && ValidLayout(LayoutOf(env))
    ensures var e, before := events[|events| - 1], events[..|events| - 1];
            var offers := OffersMade(env, StateAfter(env, before), e);
            && e.chosen == Chosen(offers)
            && AllAnswer(LayoutOf(env), IsRecording(e), ToUnsigned(e.now), StoreOps(env, before), offers)
  {
    hide DecodeRequest;
    hide Greedy;
    hide Run;
    hide AllAnswer;
    hide Handles;
    var before, e := events[..|events| - 1], events[|events| - 1];
    RunDecodes(env, events);
    StoreIsHistory(env, before);
    var h, b, base := StateAfter(env, before), Asked(e).body, StoreOps(env, before);
    EventIsRun(env, h, e, base);
    NoAnswers(LayoutOf(env), IsRecording(e), ToUnsigned(e.now), base);
    if b.Recommend? && 0 < b.count <= MAX_RECOMMEND {
      HookIsHook(env, b.dryRun, e.now);
      OnlyTheStoreRefuses(LayoutOf(env), IsRecording(e), ToUnsigned(e.now), env.scoring, b.count, e.shortlist, [],
                          h.policy, base);
    }
  }

  lemma HookIsHook(env: Env, dryRun: bool, now: i64)
    ensures Hook(env, dryRun, now) == HookOf(LayoutOf(env), !dryRun, ToUnsigned(now))
  {
  }

  lemma {:induction false} NoAnswers(l: Layout, live: bool, now: u64, base: seq<Op>)
    requires ValidLayout(l)
    ensures AllAnswer(l, live, now, base, []) && base + ConsultOps(live, now, []) == base
  {
  }
}
