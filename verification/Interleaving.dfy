/** Recommendations handled at the same time. Workers share one compliance store;
    each consultation of the hook is one locked operation on it, and between two
    of them any other recommendation may run. */
module Interleaving {
  import opened Words
  import opened Policy
  import opened PolicyItems
  import opened PolicyRuns
  import opened SlidingWindow
  import opened Ranking
  import opened Rerank
  import opened Preview

  /** A recommendation under way: what it re-ranks, what is left of that, and the
      offers made so far. */
  datatype Call = Call(live: bool, now: u64, count: nat, shortlist: seq<Candidate>, rem: seq<Candidate>,
                       offers: seq<Offer>)

  datatype World = World(policy: Store, calls: seq<Call>)

  datatype Step =
    | Start(live: bool, now: u64, count: nat, shortlist: seq<Candidate>)
    | Consult(i: nat)

  predicate Enabled(w: World, s: Step) {
    match s
    case Start(_, _, _, _) => true
    case Consult(i) => i < |w.calls| && w.calls[i].rem != [] && |Chosen(w.calls[i].offers)| < w.calls[i].count
  }

  /** The candidate a call asks about next. */
  function Next(scoring: Scoring, c: Call): (i: nat)
    requires c.rem != []
    ensures i < |c.rem|
  {
    Pick(scoring, Chosen(c.offers), c.rem)
  }

  function Advanced(scoring: Scoring, c: Call, accepted: bool): Call
    requires c.rem != []
  {
    var i := Next(scoring, c);
    c.(rem := RemoveAt(c.rem, i),
       offers := c.offers + [Offer(c.rem[i], Adjusted(scoring, Chosen(c.offers), c.rem[i]), accepted)])
  }

  function Hooked(l: Layout, c: Call): (Store, u64) -> (bool, Store) {
    if c.live then Live(l, c.now) else Dry(l, c.now)
  }

  function After(l: Layout, scoring: Scoring, w: World, s: Step): World
    requires Enabled(w, s)
  {
    match s
    case Start(live, now, count, shortlist) =>
      w.(calls := w.calls + [Call(live, now, count, shortlist, shortlist, [])])
    case Consult(i) =>
      var c := w.calls[i];
      var answer := Hooked(l, c)(w.policy, c.rem[Next(scoring, c)].id);
      World(answer.1, w.calls[i := Advanced(scoring, c, answer.0)])
  }

  predicate Legal(l: Layout, scoring: Scoring, steps: seq<Step>)
    decreases |steps|, 0
  {
    steps == [] ||
    (var n := |steps| - 1;
     Legal(l, scoring, steps[..n]) && Enabled(RunOf(l, scoring, steps[..n]), steps[n]))
  }

  function RunOf(l: Layout, scoring: Scoring, steps: seq<Step>): World
    requires Legal(l, scoring, steps)
    decreases |steps|, 1
  {
    if steps == [] then World(Fresh(l), [])
    else After(l, scoring, RunOf(l, scoring, steps[..|steps| - 1]), steps[|steps| - 1])
  }

  // -------------------------------------------------------------------------
  // The store sees one operation after the other
  // -------------------------------------------------------------------------

  /** What a step asks of the store. */
  function OpOf(scoring: Scoring, w: World, s: Step): Option<Op>
    requires Enabled(w, s)
  {
    if s.Start? then None
    else
      var c := w.calls[s.i];
      var id := c.rem[Next(scoring, c)].id;
      Some(if c.live then OpReserve(id, c.now) else OpCheck(id, c.now))
  }

  function OpsOf(l: Layout, scoring: Scoring, steps: seq<Step>): seq<Op>
    requires Legal(l, scoring, steps)
  {
    if steps == [] then []
    else
      var n := |steps| - 1;
      var op := OpOf(scoring, RunOf(l, scoring, steps[..n]), steps[n]);
      if op.Some? then OpsOf(l, scoring, steps[..n]) + [op.value] else OpsOf(l, scoring, steps[..n])
  }

  /** A run taken apart at its last step. */
  lemma {:induction false} LastStep(l: Layout, scoring: Scoring, steps: seq<Step>)
    requires steps != [] && Legal(l, scoring, steps)
    ensures var n := |steps| - 1;
            && Legal(l, scoring, steps[..n])
            && var w := RunOf(l, scoring, steps[..n]);
               && Enabled(w, steps[n]) && RunOf(l, scoring, steps) == After(l, scoring, w, steps[n])
               && var op := OpOf(scoring, w, steps[n]);
                  OpsOf(l, scoring, steps) == OpsOf(l, scoring, steps[..n]) + if op.Some? then [op.value] else []
  {
    hide Enabled;
    hide After;
    hide OpOf;
  }

  lemma {:induction false} NoSteps(l: Layout, scoring: Scoring)
    ensures Legal(l, scoring, []) && RunOf(l, scoring, []) == World(Fresh(l), []) && OpsOf(l, scoring, []) == []
  {
  }

  lemma {:induction false} StepIsOp(l: Layout, scoring: Scoring, w: World, s: Step)
    requires ValidLayout(l) && |w.policy.shards| == l.shardCount && Enabled(w, s)
    ensures var op, w' := OpOf(scoring, w, s), After(l, scoring, w, s);
            && w'.policy == (if op.Some? then Apply(l, w.policy, op.value) else w.policy)
            && |w'.policy.shards| == l.shardCount
            && (op.Some? ==> op.value.OpReserve? || op.value.OpCheck?)
  {
    hide Pick;
    hide Chosen;
    hide Adjusted;
    hide ReserveAt;
    hide CheckAt;
  }

  /** However recommendations interleave, the store is what it would be after the
      same operations one at a time; so all that is proved of its runs holds. */
  lemma {:induction false} StoreIsSerial(l: Layout, scoring: Scoring, steps: seq<Step>)
    requires ValidLayout(l) && Legal(l, scoring, steps)
    ensures RunOf(l, scoring, steps).policy == Run(l, OpsOf(l, scoring, steps))
    ensures NoReset(OpsOf(l, scoring, steps))
  {
    hide After;
    hide OpOf;
    hide Apply;
    hide Enabled;
    hide Legal;
    hide RunOf;
    hide OpsOf;
    if steps == [] {
      NoSteps(l, scoring);
    } else {
      var n := |steps| - 1;
      LastStep(l, scoring, steps);
      StoreIsSerial(l, scoring, steps[..n]);
      var w, before := RunOf(l, scoring, steps[..n]), OpsOf(l, scoring, steps[..n]);
      StepIsOp(l, scoring, w, steps[n]);
      var op := OpOf(scoring, w, steps[n]);
      if op.Some? {
        RunSnoc(l, before, op.value);
      } else {
        assert before + [] == before;
      }
    }
  }

  // -------------------------------------------------------------------------
  // What the recommendations have returned
  // -------------------------------------------------------------------------

  /** How often recording recommendations, finished or not, have taken an item. */
  function Taken(calls: seq<Call>, id: ItemId): nat {
    if calls == [] then 0
    else
      var c := calls[|calls| - 1];
      Taken(calls[..|calls| - 1], id) + if c.live then Times(Chosen(c.offers), id) else 0
  }

  lemma {:induction false} TakenUpdate(calls: seq<Call>, i: nat, c: Call, id: ItemId)
    requires i < |calls| && c.live == calls[i].live
    ensures Taken(calls[i := c], id) + (if c.live then Times(Chosen(calls[i].offers), id) else 0)
         == Taken(calls, id) + (if c.live then Times(Chosen(c.offers), id) else 0)
  {
    var n := |calls| - 1;
    if i < n {
      TakenUpdate(calls[..n], i, c, id);
      assert calls[i := c][..n] == calls[..n][i := c];
    } else {
      assert calls[i := c][..n] == calls[..n];
    }
  }

  lemma {:induction false} TakenStart(calls: seq<Call>, c: Call, id: ItemId)
    requires c.offers == []
    ensures Taken(calls + [c], id) == Taken(calls, id)
  {
    assert (calls + [c])[..|calls|] == calls;
    assert Chosen([]) == [];
  }

  lemma {:induction false} TimesSnoc(offers: seq<Offer>, o: Offer, id: ItemId)
    ensures Times(Chosen(offers + [o]), id)
         == Times(Chosen(offers), id) + if o.accepted && o.candidate.id == id then 1 else 0
  {
    ChosenSnoc(offers, o);
    var chosen := Chosen(offers);
    assert (chosen + [RankedOf(o)])[..|chosen|] == chosen;
  }

  /** A step takes an item exactly when it reserves it and is allowed. */
  lemma {:induction false} TakenStep(l: Layout, scoring: Scoring, w: World, s: Step, id: ItemId)
    requires ValidLayout(l) && |w.policy.shards| == l.shardCount && Enabled(w, s)
    ensures var op := OpOf(scoring, w, s);
            Taken(After(l, scoring, w, s).calls, id)
            == Taken(w.calls, id)
               + if op.Some? && IsAttempt(op.value, id)
                    && ReserveAt(l, w.policy, op.value.id, op.value.now).decision == Allowed then 1 else 0
  {
    hide Chosen;
    hide Adjusted;
    hide Pick;
    hide ReserveAt;
    hide CheckAt;
    hide Taken;
    hide Times;
    match s
    case Start(live, now, count, shortlist) =>
      TakenStart(w.calls, Call(live, now, count, shortlist, shortlist, []), id);
    case Consult(i) =>
      var c := w.calls[i];
      var answer := Hooked(l, c)(w.policy, c.rem[Next(scoring, c)].id);
      var c' := Advanced(scoring, c, answer.0);
      TakenUpdate(w.calls, i, c', id);
      TimesSnoc(c.offers, c'.offers[|c.offers|], id);
      assert c'.offers == c.offers + [c'.offers[|c.offers|]];
  }

  /** The shows the store has allowed are the ones the recommendations took. */
  lemma {:induction false} TakenIsShown(l: Layout, scoring: Scoring, steps: seq<Step>, id: ItemId)
    requires ValidLayout(l) && Legal(l, scoring, steps)
    ensures Taken(RunOf(l, scoring, steps).calls, id) == |Shows(l, OpsOf(l, scoring, steps), id)|
  {
    hide After;
    hide OpOf;
    hide Enabled;
    hide Run;
    hide ReserveAt;
    hide Legal;
    hide RunOf;
    hide OpsOf;
    if steps == [] {
      NoSteps(l, scoring);
    } else {
      var n := |steps| - 1;
      LastStep(l, scoring, steps);
      TakenIsShown(l, scoring, steps[..n], id);
      StoreIsSerial(l, scoring, steps[..n]);
      var w, before := RunOf(l, scoring, steps[..n]), OpsOf(l, scoring, steps[..n]);
      StepIsOp(l, scoring, w, steps[n]);
      TakenStep(l, scoring, w, steps[n], id);
      var op := OpOf(scoring, w, steps[n]);
      if op.Some? {
        assert (before + [op.value])[..|before|] == before;
      } else {
        assert before + [] == before;
      }
    }
  }

  /** Fail-closed, over every interleaving of any number of recommendations: what
      they have taken of an item is what the store has on record for it, which is
      never above the lifetime cap; and if the store was consulted about the item
      in the order of the timestamps, its window limits hold. */
  lemma {:induction false} CapsHoldConcurrently(l: Layout, scoring: Scoring, steps: seq<Step>, id: ItemId, a: int,
                                                aligned: nat)
    requires ValidLayout(l) && !l.c.failOpen && Legal(l, scoring, steps)
    ensures |RunOf(l, scoring, steps).policy.shards| == l.shardCount
    ensures var w, ops := RunOf(l, scoring, steps), OpsOf(l, scoring, steps);
            && Taken(w.calls, id) == |Shows(l, ops, id)| == ShowsOf(l, w.policy, id)
            && (l.c.exposureCap > 0 ==> Taken(w.calls, id) <= l.c.exposureCap)
            && (l.c.window > 0 && l.c.frequencyLimit > 0 && aligned % l.c.window == 0
                && Forward(AttemptTimes(ops, id)) ==>
                  WithinLimits(Shows(l, ops, id), l.c.frequencyLimit, l.c.window, a, aligned))
  {
    hide Shows;
    hide WithinLimits;
    hide Taken;
    hide Run;
    var ops := OpsOf(l, scoring, steps);
    StoreIsSerial(l, scoring, steps);
    TakenIsShown(l, scoring, steps, id);
    LifetimeIsExact(l, ops, id);
    if l.c.window > 0 && l.c.frequencyLimit > 0 && aligned % l.c.window == 0 && Forward(AttemptTimes(ops, id)) {
      FrequencyGuarantee(l, ops, id, a, aligned);
    }
  }

  // -------------------------------------------------------------------------
  // Which window bounds survive overlapping recommendations
  // -------------------------------------------------------------------------

  /** The clock, read when a recommendation starts, never goes back. */
  ghost predicate ClockForward(steps: seq<Step>) {
    forall i, j :: 0 <= i < j < |steps| && steps[i].Start? && steps[j].Start? ==> steps[i].now <= steps[j].now
  }

  function Started(steps: seq<Step>): nat {
    if steps == [] then 0
    else Started(steps[..|steps| - 1]) + if steps[|steps| - 1].Start? then 1 else 0
  }

  /** No recommendation consults the store once another has started. */
  ghost predicate OneAtATime(steps: seq<Step>) {
    forall k :: 0 <= k < |steps| && steps[k].Consult? ==> steps[k].i + 1 == Started(steps[..k])
  }

  /** The timestamp of the recommendation started last. */
  function LatestStart(steps: seq<Step>): nat {
    if steps == [] then 0
    else if steps[|steps| - 1].Start? then steps[|steps| - 1].now
    else LatestStart(steps[..|steps| - 1])
  }

  lemma {:induction false} LatestIsLatest(steps: seq<Step>, now: u64)
    requires forall i :: 0 <= i < |steps| && steps[i].Start? ==> steps[i].now <= now
    ensures LatestStart(steps) <= now
  {
    if steps != [] { LatestIsLatest(steps[..|steps| - 1], now); }
  }

  ghost predicate UpTo(times: seq<nat>, latest: nat) {
    Forward(times) && forall i :: 0 <= i < |times| ==> times[i] <= latest
  }

  lemma PrefixInOrder(steps: seq<Step>, n: nat)
    requires n <= |steps| && ClockForward(steps) && OneAtATime(steps)
    ensures ClockForward(steps[..n]) && OneAtATime(steps[..n])
  {
    assert forall i :: 0 <= i < n ==> steps[..n][i] == steps[i] && steps[..n][..i] == steps[..i];
  }

  lemma StampedStep(l: Layout, scoring: Scoring, w: World, s: Step)
    requires Enabled(w, s)
    ensures var op, calls := OpOf(scoring, w, s), After(l, scoring, w, s).calls;
            if s.Start?
            then op == None && |calls| == |w.calls| + 1 && calls[|w.calls|].now == s.now
            else && op.Some? && (op.value.OpReserve? || op.value.OpCheck?) && op.value.now == w.calls[s.i].now
                 && |calls| == |w.calls| && forall j :: 0 <= j < |calls| ==> calls[j].now == w.calls[j].now
  {
    hide Chosen;
    hide Adjusted;
    hide Pick;
    hide Live;
    hide Dry;
  }

  /** One recommendation at a time, its store operations carry its timestamp. */
  lemma {:induction false} SerialTimes(l: Layout, scoring: Scoring, steps: seq<Step>, id: ItemId)
    requires Legal(l, scoring, steps) && ClockForward(steps) && OneAtATime(steps)
    ensures UpTo(AttemptTimes(OpsOf(l, scoring, steps), id), LatestStart(steps))
    ensures var calls := RunOf(l, scoring, steps).calls;
            |calls| == Started(steps) && (calls != [] ==> calls[|calls| - 1].now == LatestStart(steps))
  {
    hide After;
    hide OpOf;
    hide Enabled;
    hide Legal;
    hide RunOf;
    hide OpsOf;
    if steps == [] {
      NoSteps(l, scoring);
    } else {
      var n := |steps| - 1;
      LastStep(l, scoring, steps);
      PrefixInOrder(steps, n);
      SerialTimes(l, scoring, steps[..n], id);
      var w, before := RunOf(l, scoring, steps[..n]), OpsOf(l, scoring, steps[..n]);
      StampedStep(l, scoring, w, steps[n]);
      if steps[n].Start? {
        LatestIsLatest(steps[..n], steps[n].now);
        assert before + [] == before;
      } else {
        var op := OpOf(scoring, w, steps[n]).value;
        assert (before + [op])[..|before|] == before;
      }
    }
  }

  /** So there, with a clock that does not go back, the window limits hold. */
  lemma {:induction false} LimitsHoldOneAtATime(l: Layout, scoring: Scoring, steps: seq<Step>, id: ItemId, a: int,
                                                aligned: nat)
    requires ValidLayout(l) && !l.c.failOpen && Legal(l, scoring, steps) && ClockForward(steps) && OneAtATime(steps)
    requires l.c.window > 0 && l.c.frequencyLimit > 0 && aligned % l.c.window == 0
    ensures WithinLimits(Shows(l, OpsOf(l, scoring, steps), id), l.c.frequencyLimit, l.c.window, a, aligned)
  {
    hide WithinLimits;
    SerialTimes(l, scoring, steps, id);
    CapsHoldConcurrently(l, scoring, steps, id, a, aligned);
  }

  lemma {:induction false} OneMore(l: Layout, scoring: Scoring, steps: seq<Step>, s: Step)
    requires Legal(l, scoring, steps) && Enabled(RunOf(l, scoring, steps), s)
    ensures Legal(l, scoring, steps + [s])
    ensures var w := RunOf(l, scoring, steps);
            var op := OpOf(scoring, w, s);
            && RunOf(l, scoring, steps + [s]) == After(l, scoring, w, s)
            && OpsOf(l, scoring, steps + [s]) == OpsOf(l, scoring, steps) + if op.Some? then [op.value] else []
  {
    hide Enabled;
    hide After;
    hide OpOf;
    assert (steps + [s])[..|steps|] == steps;
  }

  /** `n` recommendations of one candidate, started one after the other. */
  function Starts(now: u64, c: Candidate, n: nat): (r: seq<Step>)
    ensures |r| == n && forall i :: 0 <= i < n ==> r[i] == Start(true, now, 1, [c])
  {
    if n == 0 then [] else Starts(now, c, n - 1) + [Start(true, now, 1, [c])]
  }

  function Pending(now: u64, c: Candidate): Call {
    Call(true, now, 1, [c], [c], [])
  }

  function Copies(x: Call, n: nat): (r: seq<Call>)
    ensures |r| == n && forall i :: 0 <= i < n ==> r[i] == x
  {
    if n == 0 then [] else Copies(x, n - 1) + [x]
  }

  lemma StartEffect(l: Layout, scoring: Scoring, w: World, now: u64, c: Candidate)
    ensures var s := Start(true, now, 1, [c]);
            && Enabled(w, s) && OpOf(scoring, w, s) == None
            && After(l, scoring, w, s).calls == w.calls + [Pending(now, c)]
  {
  }

  lemma {:induction false} AfterStarts(l: Layout, scoring: Scoring, steps: seq<Step>, now: u64, c: Candidate, n: nat)
    requires Legal(l, scoring, steps)
    ensures var all := steps + Starts(now, c, n);
            && Legal(l, scoring, all) && OpsOf(l, scoring, all) == OpsOf(l, scoring, steps)
            && RunOf(l, scoring, all).calls == RunOf(l, scoring, steps).calls + Copies(Pending(now, c), n)
  {
    hide Enabled;
    hide After;
    hide OpOf;
    hide Pending;
    hide Legal;
    hide RunOf;
    hide OpsOf;
    var all := steps + Starts(now, c, n);
    if n == 0 {
      assert all == steps;
    } else {
      var before, s := steps + Starts(now, c, n - 1), Start(true, now, 1, [c]);
      AfterStarts(l, scoring, steps, now, c, n - 1);
      StartEffect(l, scoring, RunOf(l, scoring, before), now, c);
      OneMore(l, scoring, before, s);
      assert all == before + [s];
    }
  }

  /** Calls `0..n` started at `early`, calls `n..2n` at `late`; the `m`-th
      consultation is of the `m`-th of those with the wanted timestamp. */
  function Consults(early: nat, n: nat, times: seq<nat>): (r: seq<Step>)
    ensures |r| == |times| && forall i :: 0 <= i < |r| ==> r[i].Consult?
  {
    if times == [] then []
    else
      var m := |times| - 1;
      Consults(early, n, times[..m]) + [Consult(if times[m] == early then m else n + m)]
  }

  /** The calls that have not consulted yet. */
  ghost predicate StillPending(w: World, early: u64, late: u64, c: Candidate, n: nat, m: nat) {
    && |w.calls| == n + n
    && (forall j :: m <= j < n ==> w.calls[j] == Pending(early, c))
    && (forall j :: n + m <= j < n + n ==> w.calls[j] == Pending(late, c))
  }

  lemma ConsultPending(l: Layout, scoring: Scoring, w: World, i: nat, now: u64, c: Candidate)
    requires i < |w.calls| && w.calls[i] == Pending(now, c)
    ensures Enabled(w, Consult(i)) && OpOf(scoring, w, Consult(i)) == Some(OpReserve(c.id, now))
    ensures var w' := After(l, scoring, w, Consult(i));
            |w'.calls| == |w.calls| && forall j :: 0 <= j < |w.calls| && j != i ==> w'.calls[j] == w.calls[j]
  {
    hide Adjusted;
    assert Chosen([]) == [];
  }

  lemma AttemptsSnoc(id: ItemId, times: seq<nat>)
    requires times != [] && Millis(times)
    ensures var m := |times| - 1; AttemptsAt(id, times) == AttemptsAt(id, times[..m]) + [OpReserve(id, times[m])]
  {
  }

  lemma {:induction false} AfterConsults(l: Layout, scoring: Scoring, start: seq<Step>, early: u64, late: u64,
                                         c: Candidate, n: nat, times: seq<nat>)
    requires Legal(l, scoring, start) && OpsOf(l, scoring, start) == []
    requires StillPending(RunOf(l, scoring, start), early, late, c, n, 0) && |times| <= n
    requires forall i :: 0 <= i < |times| ==> times[i] == early || times[i] == late
    ensures Legal(l, scoring, start + Consults(early, n, times)) && Millis(times)
    ensures OpsOf(l, scoring, start + Consults(early, n, times)) == AttemptsAt(c.id, times)
    ensures StillPending(RunOf(l, scoring, start + Consults(early, n, times)), early, late, c, n, |times|)
  {
    hide Enabled;
    hide After;
    hide OpOf;
    hide Pending;
    hide AttemptsAt;
    hide Legal;
    hide RunOf;
    hide OpsOf;
    var all := start + Consults(early, n, times);
    if times == [] {
      assert all == start;
      NoAttempts(c.id);
    } else {
      var m := |times| - 1;
      var i := if times[m] == early then m else n + m;
      var before := start + Consults(early, n, times[..m]);
      AfterConsults(l, scoring, start, early, late, c, n, times[..m]);
      ConsultPending(l, scoring, RunOf(l, scoring, before), i, times[m], c);
      OneMore(l, scoring, before, Consult(i));
      assert all == before + [Consult(i)];
      AttemptsSnoc(c.id, times);
    }
  }

  lemma NoAttempts(id: ItemId)
    ensures AttemptsAt(id, []) == []
  {
  }

  lemma {:induction false} StartsGoForward(early: u64, late: u64, c: Candidate, n: nat, times: seq<nat>)
    requires early <= late
    ensures ClockForward(Starts(early, c, n) + Starts(late, c, n) + Consults(early, n, times))
  {
    var steps := Starts(early, c, n) + Starts(late, c, n) + Consults(early, n, times);
    assert forall i :: 0 <= i < |steps| ==>
             if i < n then steps[i] == Start(true, early, 1, [c])
             else if i < n + n then steps[i] == Start(true, late, 1, [c])
             else steps[i].Consult?;
  }

  /** Recommendations that overlap: the clock is read in order, but the store is
      consulted out of it. Any number of shows of one item that the lifetime cap
      allows can so fall within one window length. */
  lemma OverlapHeapsUp(l: Layout, scoring: Scoring, c: Candidate, k: nat) returns (steps: seq<Step>)
    requires ValidLayout(l) && !l.c.failOpen && l.c.window > 0 && l.c.frequencyLimit > 0
    requires 0 < k && (l.c.exposureCap > 0 ==> k <= l.c.exposureCap)
    ensures Legal(l, scoring, steps) && ClockForward(steps)
    ensures CountIn(Shows(l, OpsOf(l, scoring, steps), c.id), l.c.window - 1, 2 * l.c.window - 1) == k
  {
    hide Shows;
    hide CountIn;
    hide AttemptsAt;
    hide After;
    hide Enabled;
    var times := OutOfOrderHeapsUp(l, c.id, k);
    var n, early: u64, late: u64 := |times|, l.c.window - 1, l.c.window;
    AfterStarts(l, scoring, [], early, c, n);
    var first := [] + Starts(early, c, n);
    AfterStarts(l, scoring, first, late, c, n);
    var start := first + Starts(late, c, n);
    steps := start + Consults(early, n, times);
    AfterConsults(l, scoring, start, early, late, c, n, times);
    assert first == Starts(early, c, n);
    StartsGoForward(early, late, c, n, times);
  }

  /** At most `n` shows of any item within any window length, however
      recommendations overlap. */
  ghost predicate NeverMoreOverlapping(l: Layout, scoring: Scoring, n: nat)
    requires ValidLayout(l)
  {
    forall steps, id, a ::
      Legal(l, scoring, steps) && ClockForward(steps) ==> SpanWithin(l, OpsOf(l, scoring, steps), id, a, n)
  }

  /** With a clock that never goes back, exactly the lifetime cap is a bound: the
      frequency limit alone bounds nothing once recommendations overlap. */
  lemma WhichBoundHoldsOverlapping(l: Layout, scoring: Scoring, n: nat)
    requires ValidLayout(l) && !l.c.failOpen && l.c.window > 0 && l.c.frequencyLimit > 0
    ensures NeverMoreOverlapping(l, scoring, n) <==> 0 < l.c.exposureCap <= n
  {
    hide Shows;
    hide CountIn;
    hide OpsOf;
    hide Legal;
    if 0 < l.c.exposureCap <= n {
      WhichBoundHoldsInAnyOrder(l, n);
      forall steps, id, a | Legal(l, scoring, steps) && ClockForward(steps)
        ensures SpanWithin(l, OpsOf(l, scoring, steps), id, a, n)
      {
        StoreIsSerial(l, scoring, steps);
      }
    } else {
      var c := Candidate(1.0, 1, [1], []);
      var steps := OverlapHeapsUp(l, scoring, c, n + 1);
      var a := l.c.window - 1;
      assert a + l.c.window == 2 * l.c.window - 1;
      assert !SpanWithin(l, OpsOf(l, scoring, steps), c.id, a, n);
    }
  }

  // -------------------------------------------------------------------------
  // Each recommendation by itself
  // -------------------------------------------------------------------------

  /** Whatever happens to the store in between, a call's offers are greedy over its
      own shortlist, and it takes no more than it was asked for. */
  ghost predicate InOrder(scoring: Scoring, c: Call) {
    && IsGreedy(scoring, multiset(c.shortlist), c.offers)
    && multiset(c.shortlist) == Offered(c.offers) + multiset(c.rem)
    && |Chosen(c.offers)| <= c.count
  }

  lemma {:induction false} AdvanceKeepsOrder(scoring: Scoring, c: Call, accepted: bool)
    requires InOrder(scoring, c) && c.rem != [] && |Chosen(c.offers)| < c.count
    ensures InOrder(scoring, Advanced(scoring, c, accepted))
  {
    hide Adjusted;
    var i := Next(scoring, c);
    OfferStep(scoring, multiset(c.shortlist), c.rem, c.offers, i, accepted);
    ChosenSnoc(c.offers, Offer(c.rem[i], Adjusted(scoring, Chosen(c.offers), c.rem[i]), accepted));
    hide Chosen;
    hide IsGreedy;
    hide Offered;
  }

  lemma {:induction false} StartIsInOrder(scoring: Scoring, live: bool, now: u64, count: nat, shortlist: seq<Candidate>)
    ensures InOrder(scoring, Call(live, now, count, shortlist, shortlist, []))
  {
    assert Offered([]) + multiset(shortlist) == multiset(shortlist);
  }

  lemma {:induction false} EverySlateIsGreedy(l: Layout, scoring: Scoring, steps: seq<Step>, i: nat)
    requires Legal(l, scoring, steps) && i < |RunOf(l, scoring, steps).calls|
    ensures InOrder(scoring, RunOf(l, scoring, steps).calls[i])
  {
    hide InOrder;
    hide Hooked;
    hide Advanced;
    hide Next;
    if steps != [] {
      var n := |steps| - 1;
      var w := RunOf(l, scoring, steps[..n]);
      if i < |w.calls| { EverySlateIsGreedy(l, scoring, steps[..n], i); }
      match steps[n]
      case Start(live, now, count, shortlist) => StartIsInOrder(scoring, live, now, count, shortlist);
      case Consult(j) =>
        if i == j {
          var c := w.calls[j];
          AdvanceKeepsOrder(scoring, c, Hooked(l, c)(w.policy, c.rem[Next(scoring, c)].id).0);
        }
    }
  }

  /** Left alone, a call ends with the slate and the store of an undisturbed
      re-rank. */
  lemma {:induction false} AloneIsGreedy(l: Layout, scoring: Scoring, steps: seq<Step>,
                                         i: nat) returns (more: seq<Step>)
    requires Legal(l, scoring, steps) && i < |RunOf(l, scoring, steps).calls|
    ensures Legal(l, scoring, steps + more) && i < |RunOf(l, scoring, steps + more).calls|
    ensures var w, w' := RunOf(l, scoring, steps), RunOf(l, scoring, steps + more);
            var c, c' := w.calls[i], w'.calls[i];
            Greedy(scoring, c.count, c.rem, c.offers, w.policy, Hooked(l, c)) == Slate(c'.offers, w'.policy)
    decreases |RunOf(l, scoring, steps).calls[i].rem|
  {
    hide Chosen;
    hide Adjusted;
    hide Pick;
    hide Live;
    hide Dry;
    var w := RunOf(l, scoring, steps);
    var c := w.calls[i];
    if |Chosen(c.offers)| >= c.count || c.rem == [] {
      more := [];
      assert steps + [] == steps;
    } else {
      var next := steps + [Consult(i)];
      assert next[..|steps|] == steps;
      var rest := AloneIsGreedy(l, scoring, next, i);
      more := [Consult(i)] + rest;
      assert steps + more == next + rest;
    }
  }
}
