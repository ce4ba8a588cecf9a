/** The selector as the program runs it: a bounded heap filled by `Consider`, and
    a loop over taken flags in `Select`. */
module Selectors {
  import opened Words
  import opened Ranking
  import opened CandidateHeap
  import opened Rerank

  /** The shortlist entries whose flag is not set, in order. */
  function Untaken(s: seq<Candidate>, taken: seq<bool>): (r: seq<Candidate>)
    requires |taken| == |s|
    ensures |r| <= |s|
  {
    if s == [] then []
    else
      var n := |s| - 1;
      if taken[n] then Untaken(s[..n], taken[..n]) else Untaken(s[..n], taken[..n]) + [s[n]]
  }

  /** Where the entry at `i` stands among the untaken ones. */
  function Place(s: seq<Candidate>, taken: seq<bool>, i: nat): nat
    requires |taken| == |s| && i < |s|
  {
    |Untaken(s[..i], taken[..i])|
  }

  lemma RemoveLast<T>(u: seq<T>, x: T)
    ensures RemoveAt(u + [x], |u|) == u
  {
  }

  lemma RemoveEarlier<T>(u: seq<T>, x: T, k: nat)
    requires k < |u|
    ensures RemoveAt(u + [x], k) == RemoveAt(u, k) + [x]
  {
  }

  lemma {:induction false} PlaceIsPlace(s: seq<Candidate>, taken: seq<bool>, i: nat)
    requires |taken| == |s| && i < |s| && !taken[i]
    ensures var u, k := Untaken(s, taken), Place(s, taken, i);
            && k < |u| && u[k] == s[i]
            && Untaken(s, taken[i := true]) == RemoveAt(u, k)
  {
    hide RemoveAt;
    var n := |s| - 1;
    var u := Untaken(s[..n], taken[..n]);
    if i == n {
      assert taken[i := true][..n] == taken[..n];
      RemoveLast(u, s[n]);
    } else {
      PlaceIsPlace(s[..n], taken[..n], i);
      assert taken[i := true][..n] == taken[..n][i := true];
      assert s[..n][..i] == s[..i] && taken[..n][..i] == taken[..i];
      RemoveEarlier(u, s[n], Place(s, taken, i));
    }
  }

  lemma {:induction false} NothingTaken(s: seq<Candidate>, taken: seq<bool>)
    requires |taken| == |s| && forall i :: 0 <= i < |s| ==> !taken[i]
    ensures Untaken(s, taken) == s
  {
    if s != [] { NothingTaken(s[..|s| - 1], taken[..|s| - 1]); }
  }

  /** `count_of` on the small vectors of counts. */
  function CountOf(counts: seq<(Text, nat)>, key: Text): nat {
    if counts == [] then 0
    else if counts[0].0 == key then counts[0].1
    else CountOf(counts[1..], key)
  }

  lemma {:induction false} CountOfAfter(counts: seq<(Text, nat)>, i: nat, key: Text, other: Text)
    requires i < |counts| && counts[i].0 == key && forall j :: 0 <= j < i ==> counts[j].0 != key
    ensures CountOf(counts, key) == counts[i].1
    ensures CountOf(counts[i := (key, counts[i].1 + 1)], other)
         == CountOf(counts, other) + if other == key then 1 else 0
  {
    var counts' := counts[i := (key, counts[i].1 + 1)];
    if i == 0 {
      assert counts'[1..] == counts[1..];
    } else {
      CountOfAfter(counts[1..], i - 1, key, other);
      assert counts'[1..] == counts[1..][i - 1 := (key, counts[i].1 + 1)];
    }
  }

  lemma {:induction false} CountOfNew(counts: seq<(Text, nat)>, key: Text, other: Text)
    requires forall j :: 0 <= j < |counts| ==> counts[j].0 != key
    ensures CountOf(counts + [(key, 1)], other) == CountOf(counts, other) + if other == key then 1 else 0
  {
    if counts != [] {
      CountOfNew(counts[1..], key, other);
      assert (counts + [(key, 1)])[1..] == counts[1..] + [(key, 1)];
    }
  }

  method Increment(counts: seq<(Text, nat)>, key: Text) returns (r: seq<(Text, nat)>)
    ensures forall other :: CountOf(r, other) == CountOf(counts, other) + if other == key then 1 else 0
  {
    for i := 0 to |counts|
      invariant forall j :: 0 <= j < i ==> counts[j].0 != key
    {
      if counts[i].0 == key {
        r := counts[i := (key, counts[i].1 + 1)];
        forall other { CountOfAfter(counts, i, key, other); }
        return;
      }
    }
    r := counts + [(key, 1)];
    forall other { CountOfNew(counts, key, other); }
  }

  /** Both count vectors hold the counts of what was chosen. */
  ghost predicate CountsMatch(chosen: seq<Ranked>, categories: seq<(Text, nat)>, advertisers: seq<(Text, nat)>) {
    && (forall t :: CountOf(categories, t) == CategoryCount(chosen, t))
    && (forall t :: CountOf(advertisers, t) == AdvertiserCount(chosen, t))
  }

  lemma {:induction false} CountsGiveScore(scoring: Scoring, chosen: seq<Ranked>, categories: seq<(Text, nat)>,
                                           advertisers: seq<(Text, nat)>, c: Candidate)
    requires CountsMatch(chosen, categories, advertisers)
    ensures Discount(scoring, c.relevance, CountOf(categories, c.category), CountOf(advertisers, c.advertiser))
         == Adjusted(scoring, chosen, c)
  {
    hide Discount;
  }

  lemma {:induction false} PickSnoc(scoring: Scoring, chosen: seq<Ranked>, u: seq<Candidate>, c: Candidate)
    ensures Pick(scoring, chosen, u + [c])
         == if u == [] then 0
            else if Better(scoring, chosen, c, u[Pick(scoring, chosen, u)]) then |u|
            else Pick(scoring, chosen, u)
  {
    assert (u + [c])[..|u|] == u;
  }

  lemma UntakenSnoc(s: seq<Candidate>, taken: seq<bool>, i: nat)
    requires |taken| == |s| && i < |s|
    ensures Untaken(s[..i + 1], taken[..i + 1])
         == if taken[i] then Untaken(s[..i], taken[..i]) else Untaken(s[..i], taken[..i]) + [s[i]]
  {
    assert s[..i + 1][..i] == s[..i] && taken[..i + 1][..i] == taken[..i];
  }

  lemma NoneUntaken(s: seq<Candidate>, taken: seq<bool>)
    requires |taken| == |s|
    ensures Untaken(s[..0], taken[..0]) == []
  {
  }

  lemma BestIsAtPlace(s: seq<Candidate>, taken: seq<bool>, i: nat, best: nat)
    requires |taken| == |s| && best < i <= |s| && !taken[best]
    ensures var u := Untaken(s[..i], taken[..i]); Place(s, taken, best) < |u| && u[Place(s, taken, best)] == s[best]
  {
    PlaceIsPlace(s[..i], taken[..i], best);
    assert s[..i][..best] == s[..best] && taken[..i][..best] == taken[..best];
  }

  /** One scan for the best candidate left. */
  method BestLeft(scoring: Scoring, shortlist: seq<Candidate>, taken: seq<bool>, ghost chosen: seq<Ranked>,
                  categories: seq<(Text, nat)>, advertisers: seq<(Text, nat)>) returns (best: nat, score: real)
    requires |taken| == |shortlist| && CountsMatch(chosen, categories, advertisers)
    ensures best <= |shortlist| && (best == |shortlist| <==> Untaken(shortlist, taken) == [])
    ensures best < |shortlist| ==>
              && !taken[best] && score == Adjusted(scoring, chosen, shortlist[best])
              && Place(shortlist, taken, best) == Pick(scoring, chosen, Untaken(shortlist, taken))
  {
    hide CountsMatch;
    hide Adjusted;
    hide Discount;
    hide Untaken;
    hide Pick;
    hide CountOf;
    best, score := |shortlist|, 0.0;
    NoneUntaken(shortlist, taken);
    for i := 0 to |shortlist|
      invariant best == |shortlist| || best < i
      invariant best == |shortlist| <==> Untaken(shortlist[..i], taken[..i]) == []
      invariant best < |shortlist| ==>
        && !taken[best] && score == Adjusted(scoring, chosen, shortlist[best])
        && Place(shortlist, taken, best) == Pick(scoring, chosen, Untaken(shortlist[..i], taken[..i]))
    {
      UntakenSnoc(shortlist, taken, i);
      if taken[i] {
        continue;
      }
      var candidate := shortlist[i];
      CountsGiveScore(scoring, chosen, categories, advertisers, candidate);
      var adjusted := Discount(scoring, candidate.relevance, CountOf(categories, candidate.category),
                               CountOf(advertisers, candidate.advertiser));
      PickSnoc(scoring, chosen, Untaken(shortlist[..i], taken[..i]), candidate);
      if best < |shortlist| {
        BestIsAtPlace(shortlist, taken, i, best);
      }
      if best == |shortlist| || adjusted > score || (adjusted == score && candidate.id < shortlist[best].id) {
        best, score := i, adjusted;
      }
    }
    assert shortlist[..|shortlist|] == shortlist && taken[..|taken|] == taken;
  }

  lemma {:induction false} GreedyStep<S>(scoring: Scoring, count: nat, rem: seq<Candidate>, offers: seq<Offer>,
                                         state: S, accept: (S, u64) -> (bool, S), i: nat)
    requires |Chosen(offers)| < count && rem != [] && i == Pick(scoring, Chosen(offers), rem)
    ensures var answer := accept(state, rem[i].id);
            Greedy(scoring, count, rem, offers, state, accept)
            == Greedy(scoring, count, RemoveAt(rem, i),
                      offers + [Offer(rem[i], Adjusted(scoring, Chosen(offers), rem[i]), answer.0)], answer.1, accept)
  {
    hide Adjusted;
  }

  lemma {:induction false} CountsStep(chosen: seq<Ranked>, r: Ranked, t: Text)
    ensures CategoryCount(chosen + [r], t) == CategoryCount(chosen, t) + if t == r.category then 1 else 0
    ensures AdvertiserCount(chosen + [r], t) == AdvertiserCount(chosen, t) + if t == r.advertiser then 1 else 0
  {
    assert (chosen + [r])[..|chosen|] == chosen;
  }

  method CountChosen(ghost chosen: seq<Ranked>, r: Ranked, categories: seq<(Text, nat)>, advertisers: seq<(Text, nat)>)
    returns (categories': seq<(Text, nat)>, advertisers': seq<(Text, nat)>)
    requires CountsMatch(chosen, categories, advertisers)
    ensures CountsMatch(chosen + [r], categories', advertisers')
  {
    categories' := Increment(categories, r.category);
    advertisers' := Increment(advertisers, r.advertiser);
    hide CategoryCount;
    hide AdvertiserCount;
    forall t { CountsStep(chosen, r, t); }
  }

  lemma RootBelowAll(h: seq<Candidate>)
    requires h != [] && HeapOrdered(h)
    ensures h[0] in multiset(h) && forall x :: x in multiset(h) ==> !Worse(x, h[0])
  {
    forall x | x in multiset(h) ensures !Worse(x, h[0]) {
      var i :| 0 <= i < |h| && h[i] == x;
      RootIsWeakest(h, i);
    }
  }

  lemma ReplaceLast(heap: seq<Candidate>, root: Candidate, c: Candidate, kept: multiset<Candidate>)
    requires heap != [] && heap[|heap| - 1] == root && multiset(heap) == kept
    ensures multiset(heap[|heap| - 1 := c]) == kept - multiset{root} + multiset{c}
    ensures heap[|heap| - 1 := c][..|heap| - 1] == heap[..|heap| - 1]
  {
    var n := |heap| - 1;
    assert heap == heap[..n] + [root] && heap[n := c] == heap[..n] + [c];
  }

  /** The bounded heap: keep the candidate if there is room or it is not weaker
      than the weakest kept. */
  method Admit(shortlist: seq<Candidate>, limit: nat, candidate: Candidate, ghost all: multiset<Candidate>)
    returns (r: seq<Candidate>)
    requires HeapOrdered(shortlist) && IsTop(multiset(shortlist), all, limit)
    ensures HeapOrdered(r) && IsTop(multiset(r), all + multiset{candidate}, limit)
  {
    ghost var kept := multiset(shortlist);
    assert |kept| == |shortlist| <= limit;
    hide IsTop;
    hide HeapOrdered;
    if |shortlist| < limit {
      TopGrows(kept, all, limit, candidate);
      assert (shortlist + [candidate])[..|shortlist|] == shortlist;
      r := PushHeap(shortlist + [candidate]);
      return;
    }
    if limit == 0 {
      NothingKept(kept, all, candidate);
      return shortlist;
    }
    RootBelowAll(shortlist);
    ghost var root := shortlist[0];
    if !Worse(candidate, shortlist[0]) {
      TopReplaces(kept, all, limit, candidate, root);
      var heap := PopHeap(shortlist);
      ReplaceLast(heap, root, candidate, kept);
      r := PushHeap(heap[|heap| - 1 := candidate]);
    } else {
      TopRejects(kept, all, limit, candidate, root);
      r := shortlist;
    }
  }

  lemma NothingKept(kept: multiset<Candidate>, all: multiset<Candidate>, c: Candidate)
    requires IsTop(kept, all, 0)
    ensures IsTop(kept, all + multiset{c}, 0)
  {
  }

  class CandidateSelector {
    const scoring: Scoring
    const signal: Signal
    const now: int
    const count: nat
    const limit: nat
    var shortlist: seq<Candidate>
    var considered: nat
    var eligible: nat
    /** Every candidate retrieval was offered. */
    ghost var offered: seq<Candidate>

    /** The shortlist is a heap holding the best `limit` of what was offered. */
    ghost predicate Valid()
      reads this
    {
      && limit == ShortlistLimit(scoring, count)
      && HeapOrdered(shortlist)
      && IsTop(multiset(shortlist), multiset(offered), limit)
      && forall i :: 0 <= i < |offered| ==> offered[i].relevance > scoring.minScore
    }

    constructor (scoring: Scoring, signal: Signal, now: int, count: nat)
      ensures Valid() && shortlist == [] && offered == [] && considered == 0 && eligible == 0
      ensures this.scoring == scoring && this.signal == signal && this.now == now && this.count == count
    {
      this.scoring, this.signal, this.now, this.count := scoring, signal, now, count;
      limit := ShortlistLimit(scoring, count);
      shortlist, considered, eligible, offered := [], 0, 0, [];
    }

    method Consider(item: Item)
      requires Valid()
      modifies this
      ensures Valid()
      ensures considered == old(considered) + 1
      ensures eligible == old(eligible) + if IsEligible(item, signal, now) then 1 else 0
      ensures var c := CandidateOf(item, signal, scoring, now);
              offered == if c.Some? then old(offered) + [c.value] else old(offered)
    {
      hide Relevance;
      hide IsEligible;
      hide IsTop;
      hide HeapOrdered;
      considered := considered + 1;
      if !IsEligible(item, signal, now) {
        return;
      }
      eligible := eligible + 1;
      var relevance := Relevance(item, signal, scoring, now);
      if relevance <= scoring.minScore {
        return;
      }
      var candidate := Candidate(relevance, item.id, item.category, item.advertiser);
      assert multiset(offered + [candidate]) == multiset(offered) + multiset{candidate};
      shortlist := Admit(shortlist, limit, candidate, multiset(offered));
      offered := offered + [candidate];
    }

    /** The re-rank. `accept` is the hook together with the state it works on. */
    method Select<S>(accept: (S, u64) -> (bool, S), initial: S) returns (chosen: seq<Ranked>, state: S)
      requires Valid()
      ensures var slate := Greedy(scoring, count, shortlist, [], initial, accept);
              chosen == Chosen(slate.offers) && state == slate.state
    {
      chosen, state := [], initial;
      if count == 0 || shortlist == [] {
        return;
      }
      var categories: seq<(Text, nat)>, advertisers: seq<(Text, nat)> := [], [];
      var taken := seq(|shortlist|, _ => false);
      NothingTaken(shortlist, taken);
      ghost var offers: seq<Offer> := [];
      ghost var slate := Greedy(scoring, count, shortlist, [], initial, accept);
      while |chosen| < count
        invariant |taken| == |shortlist| && chosen == Chosen(offers) && CountsMatch(chosen, categories, advertisers)
        invariant slate == Greedy(scoring, count, Untaken(shortlist, taken), offers, state, accept)
        decreases |Untaken(shortlist, taken)|
      {
        var best, score := BestLeft(scoring, shortlist, taken, chosen, categories, advertisers);
        if best == |shortlist| {
          break;
        }
        hide Greedy;
        hide Untaken;
        hide Pick;
        hide Adjusted;
        hide CountsMatch;
        PlaceIsPlace(shortlist, taken, best);
        GreedyStep(scoring, count, Untaken(shortlist, taken), offers, state, accept, Place(shortlist, taken, best));
        var winner := shortlist[best];
        taken := taken[best := true];
        var answer := accept(state, winner.id);
        state := answer.1;
        ChosenSnoc(offers, Offer(winner, score, answer.0));
        offers := offers + [Offer(winner, score, answer.0)];
        if !answer.0 {
          continue;
        }
        var taking := Ranked(winner.id, score, winner.category, winner.advertiser);
        categories, advertisers := CountChosen(chosen, taking, categories, advertisers);
        chosen := chosen + [taking];
      }
    }
  }
}
