/** One item's counters over all the attempts made on it, once it is tracked. */
module PolicyItems {
  import opened Words
  import opened Arith
  import opened Policy
  import opened SlidingWindow

  /** The counters after the attempts, and the times of the allowed ones. */
  datatype History = History(entry: Option<Entry>, log: seq<nat>)

  function Before(c: Config, h: History, now: nat): Entry {
    if h.entry.Some? then h.entry.value else FreshEntry(c, now)
  }

  function Attempted(c: Config, h: History, now: nat): History {
    var e := Before(c, h, now);
    History(Some(Advanced(c, e, now)),
            if DecideTracked(c, e, now) == Allowed then h.log + [now] else h.log)
  }

  function Follow(c: Config, times: seq<nat>): History {
    if times == [] then History(None, [])
    else Attempted(c, Follow(c, times[..|times| - 1]), times[|times| - 1])
  }

  /** The lifetime counter counts the allowed attempts and stops at the cap. */
  lemma {:induction false} FollowCountsShows(c: Config, times: seq<nat>)
    ensures var h, cap := Follow(c, times), c.exposureCap;
            && (h.entry.Some? <==> times != [])
            && |h.log| == (if h.entry.Some? then h.entry.value.shows else 0)
            && (cap > 0 ==> |h.log| <= cap)
            && (c.frequencyLimit == 0 ==> |h.log| == if 0 < cap < |times| then cap else |times|)
  {
    if times != [] {
      FollowCountsShows(c, times[..|times| - 1]);
    }
  }

  /** The clock never goes back from one attempt to the next. */
  predicate Forward(times: seq<nat>) {
    forall i, j :: 0 <= i < j < |times| ==> times[i] <= times[j]
  }

  /** 64-bit millisecond counts. */
  predicate Millis(times: seq<nat>) {
    forall i :: 0 <= i < |times| ==> times[i] < TWO_TO_64
  }

  /** The two counters hold the shows of the window they name and of the one
      before it, and no show is later. */
  ghost predicate CountersMatch(e: Entry, log: seq<nat>, w: nat) {
    var start := e.index * w;
    && e.current == CountIn(log, start, start + w)
    && e.previous == CountIn(log, start - w, start)
    && forall i :: 0 <= i < |log| ==> log[i] < start + w
  }

  lemma IndexFits(now: nat, w: nat)
    requires 0 < w
    ensures 0 <= WindowOf(now, w) <= now
    ensures WindowOf(now, w) * w == now - now % w
  {
    FloorOrder(now + 1, now, w);
    MulMono(now + 1, now + 1, 1, w);
  }

  lemma WindowMonotone(a: nat, b: nat, w: nat)
    requires 0 < w && a <= b
    ensures WindowOf(a, w) <= WindowOf(b, w)
  {
    FloorOrder(a / w, a, w);
    FloorOrder(a / w, b, w);
  }

  lemma RollMatches(c: Config, e: Entry, log: seq<nat>, now: nat)
    requires c.window > 0 && CountersMatch(e, log, c.window) && e.index <= WindowOf(now, c.window)
    requires now < TWO_TO_64
    ensures CountersMatch(Roll(c, e, now), log, c.window)
    ensures Roll(c, e, now).index == WindowOf(now, c.window)
  {
    var w: nat := c.window;
    var k := WindowOf(now, w);
    IndexFits(now, w);
    assert (e.index + 1) * w == e.index * w + w;
    if k == e.index + 1 {
      NoneAtOrAfter(log, k * w, k * w + w);
    } else if k > e.index {
      assert (k - 1) * w == k * w - w;
      MulOrder(e.index + 1, k - 1, w);
      NoneAtOrAfter(log, k * w - w, k * w);
      NoneAtOrAfter(log, k * w, k * w + w);
    }
  }

  lemma {:induction false} AdmitMatches(c: Config, r: Entry, log: seq<nat>, now: nat)
    requires c.window > 0 && Admitted(log, c.frequencyLimit, c.window)
    requires CountersMatch(r, log, c.window) && r.index == WindowOf(now, c.window)
    requires log == [] || log[|log| - 1] <= now
    requires !OverLimit(c, r, now) && r.current + 1 < TWO_TO_32
    ensures Admitted(log + [now], c.frequencyLimit, c.window)
    ensures CountersMatch(r.(current := r.current + 1, shows := r.shows + 1), log + [now], c.window)
  {
    var w: nat := c.window;
    hide CountIn;
    hide Admitted;
    hide Load;
    hide WindowOf;
    IndexFits(now, w);
    AdmitOne(log, c.frequencyLimit, w, now, r.index * w, r.previous, r.current);
  }

  /** What holds of an item's history after an attempt at `last`. */
  ghost predicate WindowInv(c: Config, h: History, last: nat)
    requires c.window > 0
  {
    && Admitted(h.log, c.frequencyLimit, c.window)
    && (h.log != [] ==> h.log[|h.log| - 1] <= last)
    && match h.entry
       case None => h.log == []
       case Some(e) => CountersMatch(e, h.log, c.window) && e.index <= WindowOf(last, c.window)
  }

  lemma FreshMatches(c: Config, now: nat)
    requires c.window > 0
    ensures CountersMatch(FreshEntry(c, now), [], c.window)
    ensures FreshEntry(c, now).index == WindowOf(now, c.window)
  {
  }

  lemma WindowStep(c: Config, h: History, last: nat, now: nat)
    requires c.window > 0 && c.frequencyLimit > 0 && WindowInv(c, h, last) && last <= now < TWO_TO_64
    ensures WindowInv(c, Attempted(c, h, now), now)
  {
    hide CountersMatch;
    hide Admitted;
    hide WindowOf;
    hide OverLimit;
    WindowMonotone(last, now, c.window);
    FreshMatches(c, now);
    var e := Before(c, h, now);
    RollMatches(c, e, h.log, now);
    if DecideTracked(c, e, now) == Allowed {
      AdmittedCounterFits(c, e, now);
      AdmitMatches(c, Roll(c, e, now), h.log, now);
    }
  }

  /** With a clock that does not go back, every show was let in by the estimate
      and the counters are the log's counts. */
  lemma {:induction false} FollowIsAdmitted(c: Config, times: seq<nat>)
    requires c.window > 0 && c.frequencyLimit > 0 && Forward(times) && Millis(times)
    ensures WindowInv(c, Follow(c, times), if times == [] then 0 else times[|times| - 1])
  {
    if times != [] {
      var n := |times| - 1;
      FollowIsAdmitted(c, times[..n]);
      WindowStep(c, Follow(c, times[..n]), if n == 0 then 0 else times[n - 1], times[n]);
    }
  }

  // -------------------------------------------------------------------------
  // A schedule that reaches the worst case
  // -------------------------------------------------------------------------

  /** Both limits leave room for `k` more shows at `now`. */
  ghost predicate RoomFor(c: Config, h: History, now: nat, k: nat)
    requires c.window > 0
  {
    var r := Roll(c, Before(c, h, now), now);
    && Load(r.previous, r.current + k, now % c.window, c.window) <= c.frequencyLimit * c.window
    && (c.exposureCap > 0 ==> r.shows + k <= c.exposureCap)
  }

  function Plus(e: Entry, k: nat): Entry {
    e.(current := e.current + k, shows := e.shows + k)
  }

  lemma RoomForOne(c: Config, h: History, now: nat, k: nat)
    requires c.window > 0 && c.frequencyLimit > 0 && 0 < k && RoomFor(c, h, now, k)
    ensures var e := Plus(Roll(c, Before(c, h, now), now), 1);
            && Attempted(c, h, now) == History(Some(e), h.log + [now])
            && Roll(c, e, now) == e
    ensures RoomFor(c, Attempted(c, h, now), now, k - 1)
  {
    var w: nat, r := c.window, Roll(c, Before(c, h, now), now);
    MulMono(r.current + 1, r.current + k, w, w);
    assert DecideTracked(c, Before(c, h, now), now) == Allowed;
    AdmittedCounterFits(c, Before(c, h, now), now);
    assert Roll(c, Plus(r, 1), now) == Plus(r, 1);
    assert Plus(r, 1).current + (k - 1) == r.current + k;
  }

  /** `k` attempts at one instant. */
  function Burst(c: Config, h: History, now: nat, k: nat): History {
    if k == 0 then h else Attempted(c, Burst(c, h, now, k - 1), now)
  }

  /** If there is room for them, all of them are allowed. */
  lemma {:induction false} BurstIsAdmitted(c: Config, h: History, now: nat, k: nat, room: nat)
    requires c.window > 0 && c.frequencyLimit > 0 && k <= room && RoomFor(c, h, now, room)
    ensures RoomFor(c, Burst(c, h, now, k), now, room - k)
    ensures Burst(c, h, now, k).log == h.log + Repeat(now, k)
    ensures k > 0 ==>
              var e := Plus(Roll(c, Before(c, h, now), now), k);
              Burst(c, h, now, k).entry == Some(e) && Roll(c, e, now) == e
  {
    if k > 0 {
      BurstIsAdmitted(c, h, now, k - 1, room);
      RoomForOne(c, Burst(c, h, now, k - 1), now, room - k + 1);
    }
  }

  function Repeat(t: nat, k: nat): (r: seq<nat>)
    ensures |r| == k && forall i :: 0 <= i < k ==> r[i] == t
  {
    if k == 0 then [] else Repeat(t, k - 1) + [t]
  }

  lemma {:induction false} FollowBurst(c: Config, times: seq<nat>, now: nat, k: nat)
    ensures Follow(c, times + Repeat(now, k)) == Burst(c, Follow(c, times), now, k)
  {
    var all := times + Repeat(now, k);
    if k == 0 {
      assert all == times;
    } else {
      FollowBurst(c, times, now, k - 1);
      assert all[..|all| - 1] == times + Repeat(now, k - 1);
    }
  }

  lemma {:induction false} CountBurst(log: seq<nat>, t: nat, k: nat, lo: int, hi: int)
    ensures CountIn(log + Repeat(t, k), lo, hi) == CountIn(log, lo, hi) + if lo <= t < hi then k else 0
  {
    if k == 0 {
      assert log + Repeat(t, 0) == log;
    } else {
      CountBurst(log, t, k - 1, lo, hi);
      var all := log + Repeat(t, k);
      assert all[..|all| - 1] == log + Repeat(t, k - 1);
      assert all[|all| - 1] == t;
    }
  }

  /** `n` shows one millisecond before a window boundary, then `k` more two
      milliseconds before the next. */
  function TwoBursts(c: Config, n: nat, k: nat): seq<nat>
    requires c.window > 0
  {
    Repeat(c.window - 1, n) + Repeat(2 * c.window - 2, k)
  }

  lemma TwoBurstsGoForward(c: Config, n: nat, k: nat)
    requires c.window > 0 && n > 0
    ensures TwoBursts(c, n, k) != [] && Forward(TwoBursts(c, n, k)) && Millis(TwoBursts(c, n, k))
  {
    assert TwoBursts(c, n, k)[0] == c.window - 1;
  }

  lemma {:induction false} FirstBurst(c: Config, n: nat)
    requires c.window > 0 && 0 < n <= c.frequencyLimit
    requires c.exposureCap > 0 ==> n <= c.exposureCap
    ensures Burst(c, History(None, []), c.window - 1, n)
         == History(Some(Entry(n, 0, n, 0)), Repeat(c.window - 1, n))
  {
    var w: nat := c.window;
    DivisionIsUnique(w - 1, w, 0, w - 1);
    MulMono(n, c.frequencyLimit, w, w);
    BurstIsAdmitted(c, History(None, []), w - 1, n, n);
  }

  lemma SecondBurst(c: Config, h: History, k: nat)
    requires c.window > 1 && c.frequencyLimit > 0
    requires Load(c.frequencyLimit, k, c.window - 2, c.window) <= c.frequencyLimit * c.window
    requires c.exposureCap > 0 ==> c.frequencyLimit + k <= c.exposureCap
    requires h.entry == Some(Entry(c.frequencyLimit, 0, c.frequencyLimit, 0))
    ensures Burst(c, h, 2 * c.window - 2, k).log == h.log + Repeat(2 * c.window - 2, k)
  {
    var w: nat, limit := c.window, c.frequencyLimit;
    DivisionIsUnique(2 * w - 2, w, 1, w - 2);
    assert Roll(c, Entry(limit, 0, limit, 0), 2 * w - 2) == Entry(limit, 1, 0, limit);
    BurstIsAdmitted(c, h, 2 * w - 2, k, k);
  }

  lemma {:induction false} FollowTwoBursts(c: Config, t: nat, k: nat, t': nat, k': nat)
    ensures Follow(c, Repeat(t, k) + Repeat(t', k')) == Burst(c, Burst(c, History(None, []), t, k), t', k')
  {
    FollowBurst(c, [], t, k);
    assert [] + Repeat(t, k) == Repeat(t, k);
    FollowBurst(c, Repeat(t, k), t', k');
  }

  lemma {:induction false} EmptyBurst(c: Config, h: History, t: nat)
    ensures Burst(c, h, t, 0) == h
  {
  }

  /** Neither limit stops the two bursts. */
  ghost predicate BurstsFit(c: Config, n: nat, k: nat) {
    && 0 < n <= c.frequencyLimit && c.window > 0
    && (c.exposureCap > 0 ==> n + k <= c.exposureCap)
    && (k > 0 ==> c.window >= 2 && n == c.frequencyLimit)
    && (k > 0 ==> Load(n, k, c.window - 2, c.window) <= n * c.window)
  }

  /** The schedule is let through in full ... */
  lemma {:induction false} TwoBurstsAreAdmitted(c: Config, n: nat, k: nat)
    requires BurstsFit(c, n, k)
    ensures Follow(c, TwoBursts(c, n, k)).log == TwoBursts(c, n, k)
  {
    hide Load;
    hide Burst;
    hide Follow;
    var first := Repeat(c.window - 1, n);
    FirstBurst(c, n);
    FollowTwoBursts(c, c.window - 1, n, 2 * c.window - 2, k);
    if k > 0 {
      SecondBurst(c, History(Some(Entry(n, 0, n, 0)), first), k);
    } else {
      EmptyBurst(c, History(Some(Entry(n, 0, n, 0)), first), 2 * c.window - 2);
      assert first + Repeat(2 * c.window - 2, 0) == first;
    }
  }

  lemma {:induction false} CountTwoBursts(t: nat, k: nat, t': nat, k': nat, lo: int, hi: int)
    requires lo <= t < hi && (k' > 0 ==> lo <= t' < hi)
    ensures CountIn(Repeat(t, k) + Repeat(t', k'), lo, hi) == k + k'
  {
    CountBurst([], t, k, lo, hi);
    assert [] + Repeat(t, k) == Repeat(t, k);
    CountBurst(Repeat(t, k), t', k', lo, hi);
  }

  /** ... and lies within one span. */
  lemma TwoBurstsCount(c: Config, n: nat, k: nat)
    requires c.window > 0 && (c.window < 2 ==> k == 0)
    ensures CountIn(TwoBursts(c, n, k), c.window - 1, 2 * c.window - 1) == n + k
  {
    CountTwoBursts(c.window - 1, n, 2 * c.window - 2, k, c.window - 1, 2 * c.window - 1);
  }

  /** The most shows of one item that a span of one window length can hold: the
      window's worst case, unless the lifetime cap is smaller. */
  function MostInASpan(c: Config): nat
    requires c.window > 0
  {
    WorstCaseAtLeastLimit(c.frequencyLimit, c.window);
    var worst := WorstCase(c.frequencyLimit, c.window);
    if 0 < c.exposureCap < worst then c.exposureCap else worst
  }

  lemma ExtraFits(limit: nat, k: nat, w: nat)
    requires w >= 2 && limit + k <= WorstCase(limit, w)
    ensures Load(limit, k, w - 2, w) <= limit * w
  {
    FloorOrder(k, limit * (w - 2), w);
    assert limit * 2 + limit * (w - 2) == limit * w;
  }

  lemma MostFits(c: Config) returns (n: nat, k: nat)
    requires c.window > 0 && c.frequencyLimit > 0
    ensures n + k == MostInASpan(c) && BurstsFit(c, n, k)
  {
    hide Load;
    WorstCaseAtLeastLimit(c.frequencyLimit, c.window);
    var most := MostInASpan(c);
    n := if most < c.frequencyLimit then most else c.frequencyLimit;
    k := most - n;
    if k > 0 { ExtraFits(n, k, c.window); }
  }

  /** A schedule that puts as much into one span as any can. */
  lemma WorstSchedule(c: Config) returns (times: seq<nat>)
    requires c.window > 0 && c.frequencyLimit > 0
    ensures times != [] && Forward(times) && Millis(times)
    ensures CountIn(Follow(c, times).log, c.window - 1, 2 * c.window - 1) == MostInASpan(c)
  {
    hide Follow;
    hide CountIn;
    var n, k := MostFits(c);
    times := TwoBursts(c, n, k);
    TwoBurstsGoForward(c, n, k);
    TwoBurstsAreAdmitted(c, n, k);
    TwoBurstsCount(c, n, k);
  }

  // -------------------------------------------------------------------------
  // Attempts out of order
  // -------------------------------------------------------------------------

  /** All `k` shows on record fell on the last instant of the first window, the
      last `j` of them since the counters were last reset. */
  ghost predicate Heaped(c: Config, h: History, k: nat, j: nat)
    requires c.window > 0
  {
    0 < j <= c.frequencyLimit && h == History(Some(Entry(k, 0, j, 0)), Repeat(c.window - 1, k))
  }

  lemma HeapFirst(c: Config)
    requires c.window > 0 && c.frequencyLimit > 0
    ensures Heaped(c, Attempted(c, History(None, []), c.window - 1), 1, 1)
  {
    var w: nat := c.window;
    DivisionIsUnique(w - 1, w, 0, w - 1);
    FreshIsAdmitted(c, w - 1);
    assert Repeat(w - 1, 1) == [] + [w - 1];
  }

  /** While the limit leaves room, one more at the same instant. */
  lemma HeapMore(c: Config, h: History, k: nat, j: nat)
    requires c.window > 0 && Heaped(c, h, k, j) && j < c.frequencyLimit
    requires c.exposureCap > 0 ==> k < c.exposureCap
    ensures Heaped(c, Attempted(c, h, c.window - 1), k + 1, j + 1)
  {
    var w: nat := c.window;
    DivisionIsUnique(w - 1, w, 0, w - 1);
    MulMono(j + 1, c.frequencyLimit, w, w);
  }

  /** Once it does not: an attempt in the next window is refused but moves the
      counters on, and one more at the old instant finds them reset. */
  lemma HeapAgain(c: Config, h: History, k: nat)
    requires c.window > 0 && Heaped(c, h, k, c.frequencyLimit)
    requires c.exposureCap > 0 ==> k < c.exposureCap
    ensures Heaped(c, Attempted(c, Attempted(c, h, c.window), c.window - 1), k + 1, 1)
  {
    var w: nat, limit := c.window, c.frequencyLimit;
    DivisionIsUnique(w - 1, w, 0, w - 1);
    DivisionIsUnique(w, w, 1, 0);
    assert Roll(c, Entry(k, 0, limit, 0), w) == Entry(k, 1, 0, limit);
    assert Attempted(c, h, w) == History(Some(Entry(k, 1, 0, limit)), h.log);
    assert Roll(c, Entry(k, 1, 0, limit), w - 1) == Entry(k, 0, 0, 0);
    MulMono(1, limit, w, w);
  }

  /** Only the two instants around the first window boundary. */
  predicate AroundBoundary(c: Config, times: seq<nat>) {
    forall i :: 0 <= i < |times| ==> times[i] == c.window - 1 || times[i] == c.window
  }

  /** In no particular order, attempts at these two instants put any number of
      shows that the lifetime cap allows onto one instant. */
  lemma {:induction false} HeapUp(c: Config, k: nat) returns (times: seq<nat>, j: nat)
    requires c.window > 0 && c.frequencyLimit > 0 && 0 < k && (c.exposureCap > 0 ==> k <= c.exposureCap)
    ensures times != [] && AroundBoundary(c, times) && Heaped(c, Follow(c, times), k, j)
  {
    hide Heaped;
    hide Attempted;
    var w := c.window;
    if k == 1 {
      times, j := [w - 1], 1;
      assert times[..0] == [];
      HeapFirst(c);
    } else {
      var before, m := HeapUp(c, k - 1);
      var h := Follow(c, before);
      HeapRange(c, h, k - 1, m);
      if m < c.frequencyLimit {
        times, j := before + [w - 1], m + 1;
        assert times[..|before|] == before;
        HeapMore(c, h, k - 1, m);
      } else {
        var once := before + [w];
        times, j := once + [w - 1], 1;
        assert once[..|before|] == before && times[..|once|] == once;
        HeapAgain(c, h, k - 1);
      }
    }
  }

  lemma HeapRange(c: Config, h: History, k: nat, j: nat)
    requires c.window > 0 && Heaped(c, h, k, j)
    ensures 0 < j <= c.frequencyLimit
  {
  }

  lemma {:induction false} CountSnoc(log: seq<nat>, t: nat, lo: int, hi: int)
    ensures CountIn(log + [t], lo, hi) == CountIn(log, lo, hi) + if lo <= t < hi then 1 else 0
  {
    assert (log + [t])[..|log|] == log;
  }

  lemma {:induction false} RepeatOnce(t: nat, k: nat)
    ensures Repeat(t, 0) == [] && Repeat(t, k + 1) == Repeat(t, k) + [t]
  {
  }

  lemma {:induction false} CountNone(lo: int, hi: int)
    ensures CountIn([], lo, hi) == 0
  {
  }

  lemma {:induction false} CountRepeat(t: nat, k: nat, lo: int, hi: int)
    requires lo <= t < hi
    ensures CountIn(Repeat(t, k), lo, hi) == k
  {
    hide CountIn;
    hide Repeat;
    RepeatOnce(t, if k > 0 then k - 1 else 0);
    if k == 0 {
      CountNone(lo, hi);
    } else {
      CountRepeat(t, k - 1, lo, hi);
      CountSnoc(Repeat(t, k - 1), t, lo, hi);
    }
  }

  /** They all count in one span. */
  lemma HeapCount(c: Config, h: History, k: nat, j: nat)
    requires c.window > 0 && Heaped(c, h, k, j)
    ensures CountIn(h.log, c.window - 1, 2 * c.window - 1) == k
  {
    hide CountIn;
    hide Repeat;
    CountRepeat(c.window - 1, k, c.window - 1, 2 * c.window - 1);
  }
}
