/** What a two-counter window lets through, as arithmetic on the log of admitted
    times: an exact worst case for every limit and window. */
module SlidingWindow {
  import opened Arith

  /** How many entries of `log` fall in [lo, hi). */
  function CountIn(log: seq<nat>, lo: int, hi: int): nat {
    if log == [] then 0
    else
      var n := |log| - 1;
      CountIn(log[..n], lo, hi) + if lo <= log[n] < hi then 1 else 0
  }

  /** The estimated count scaled by the window: the shows of the previous window
      weighted by the part of it still in view, plus those of the current one. */
  function Load(early: nat, late: nat, elapsed: nat, w: nat): int {
    early * (w - elapsed) + late * w
  }

  /** Each entry was let in by the estimate: the previous aligned window's shows,
      weighted by what is still in view, plus the current window's shows
      including this one, do not exceed the limit. Times never go back. */
  ghost predicate Admitted(log: seq<nat>, limit: nat, w: nat)
    requires 0 < w
  {
    log == [] ||
    var n := |log| - 1;
    var start := log[n] - log[n] % w;
    && Admitted(log[..n], limit, w)
    && (n == 0 || log[n - 1] <= log[n])
    && Load(CountIn(log, start - w, start), CountIn(log, start, start + w), log[n] % w, w) <= limit * w
  }

  lemma {:induction false} CountSplits(log: seq<nat>, lo: int, mid: int, hi: int)
    requires lo <= mid <= hi
    ensures CountIn(log, lo, hi) == CountIn(log, lo, mid) + CountIn(log, mid, hi)
  {
    if log != [] { CountSplits(log[..|log| - 1], lo, mid, hi); }
  }

  lemma {:induction false} CountWidens(log: seq<nat>, lo: int, hi: int, lo': int, hi': int)
    requires lo' <= lo <= hi <= hi'
    ensures CountIn(log, lo, hi) <= CountIn(log, lo', hi')
  {
    CountSplits(log, lo', lo, hi');
    CountSplits(log, lo, hi, hi');
  }

  lemma {:induction false} NoneAtOrAfter(log: seq<nat>, lo: int, hi: int)
    requires forall i :: 0 <= i < |log| ==> log[i] < lo
    ensures CountIn(log, lo, hi) == 0
  {
    if log != [] { NoneAtOrAfter(log[..|log| - 1], lo, hi); }
  }

  lemma {:induction false} AdmittedIsSorted(log: seq<nat>, limit: nat, w: nat)
    requires 0 < w && Admitted(log, limit, w) && log != []
    ensures forall i :: 0 <= i < |log| ==> log[i] <= log[|log| - 1]
  {
    var n := |log| - 1;
    if n > 0 {
      AdmittedIsSorted(log[..n], limit, w);
      forall i | 0 <= i < |log| ensures log[i] <= log[n] {
        if i < n { assert log[i] == log[..n][i]; }
      }
    }
  }

  /** Letting `now` in keeps the log admitted and counts it once. */
  lemma AdmitOne(log: seq<nat>, limit: nat, w: nat, now: nat, start: nat, early: nat, late: nat)
    requires 0 < w && Admitted(log, limit, w) && start == now - now % w
    requires log == [] || log[|log| - 1] <= now
    requires early == CountIn(log, start - w, start) && late == CountIn(log, start, start + w)
    requires Load(early, late + 1, now % w, w) <= limit * w
    ensures Admitted(log + [now], limit, w)
    ensures CountIn(log + [now], start - w, start) == early
    ensures CountIn(log + [now], start, start + w) == late + 1
  {
    assert (log + [now])[..|log|] == log;
  }

  /** The only aligned start at most `w - 1` below `t`. */
  lemma AlignedStart(t: nat, start: nat, w: nat)
    requires 0 < w && start % w == 0 && start <= t < start + w
    ensures t - t % w == start
  {
    DivisionIsUnique(t, w, start / w, t - start);
  }

  /** At most `limit` shows in any aligned window. */
  lemma {:induction false} AlignedBound(log: seq<nat>, limit: nat, w: nat, start: nat)
    requires 0 < w && Admitted(log, limit, w) && start % w == 0
    ensures CountIn(log, start, start + w) <= limit
  {
    if log != [] {
      var n := |log| - 1;
      var t := log[n];
      if start <= t < start + w {
        AlignedStart(t, start, w);
        assert CountIn(log, start - w, start) * (w - t % w) >= 0;
        MulOrder(CountIn(log, start, start + w), limit, w);
      } else {
        AlignedBound(log[..n], limit, w, start);
      }
    }
  }

  /** The time of the last show in [lo, hi). */
  function LastIn(log: seq<nat>, lo: int, hi: int): (t: nat)
    requires CountIn(log, lo, hi) > 0
    ensures lo <= t < hi
  {
    var n := |log| - 1;
    if lo <= log[n] < hi then log[n] else LastIn(log[..n], lo, hi)
  }

  /** The span's shows split over two aligned windows; `early` and `late` are the
      totals of those windows at the span's last show. */
  lemma SpanSplits(log: seq<nat>, limit: nat, w: nat, a: int, early: nat, late: nat, t: nat)
    requires 0 < w && Admitted(log, limit, w) && log != []
    requires t == log[|log| - 1] && a <= t < a + w
    requires early == CountIn(log, t - t % w - w, t - t % w)
    requires late == CountIn(log, t - t % w, t - t % w + w)
    ensures a < t - t % w ==> CountIn(log, a, a + w) <= early + late && t % w <= w - 2
    ensures a >= t - t % w ==> CountIn(log, a, a + w) <= late
  {
    hide CountIn;
    hide Admitted;
    var start := t - t % w;
    if a < start {
      CountSplits(log, a, start, a + w);
      CountWidens(log, a, start, start - w, start);
      CountWidens(log, start, a + w, start, start + w);
    } else {
      AdmittedIsSorted(log, limit, w);
      NoneAtOrAfter(log, start + w, a + w);
      CountSplits(log, a, start + w, a + w);
      CountWidens(log, a, start + w, start, start + w);
    }
  }

  lemma WeightedSum(early: nat, late: nat, e: nat, limit: nat, w: nat, count: nat)
    requires e < w && Load(early, late, e, w) <= limit * w && count <= early + late
    ensures count * w <= limit * w + early * e
  {
    assert early * (w - e) == early * w - early * e;
    assert (early + late) * w == early * w + late * w;
    assert (early + late - count) * w >= 0;
    assert (early + late) * w - count * w == (early + late - count) * w;
  }

  /** The sliding bound: in any span of `w` milliseconds there are at most
      limit + P * e / w shows, where the span's last show is at offset `e` of its
      aligned window and P is the number of shows in the window before it. */
  lemma {:induction false} SpanBound(log: seq<nat>, limit: nat, w: nat, a: int)
    requires 0 < w && Admitted(log, limit, w) && CountIn(log, a, a + w) > 0
    ensures var t := LastIn(log, a, a + w);
            var start := t - t % w;
            CountIn(log, a, a + w) * w <= limit * w + CountIn(log, start - w, start) * (t % w)
  {
    var n := |log| - 1;
    var t := log[n];
    if a <= t < a + w {
      var start := t - t % w;
      var early, late := CountIn(log, start - w, start), CountIn(log, start, start + w);
      SpanSplits(log, limit, w, a, early, late, t);
      WeightedSum(early, late, t % w, limit, w, CountIn(log, a, a + w));
    } else {
      SpanBound(log[..n], limit, w, a);
      var t' := LastIn(log[..n], a, a + w);
      LaterShowsDoNotCount(log, limit, w, a, t' - t' % w);
    }
  }

  /** A show after the span is after every window that meets the span's start. */
  lemma LaterShowsDoNotCount(log: seq<nat>, limit: nat, w: nat, a: int, start: int)
    requires 0 < w && Admitted(log, limit, w) && CountIn(log, a, a + w) > 0
    requires var t := log[|log| - 1]; !(a <= t < a + w)
    requires start < a + w
    ensures CountIn(log, start - w, start) == CountIn(log[..|log| - 1], start - w, start)
  {
    var n := |log| - 1;
    if log[n] < a {
      AdmittedIsSorted(log, limit, w);
      NoneAtOrAfter(log, a, a + w);
    }
  }

  /** The most shows any span of `w` milliseconds can hold. */
  function WorstCase(limit: nat, w: nat): int
    requires 0 < w
  {
    if w < 2 then limit else limit + limit * (w - 2) / w
  }

  lemma StraddlingBound(early: nat, late: nat, e: nat, limit: nat, w: nat, count: nat)
    requires 2 <= w && e <= w - 2 && early <= limit
    requires Load(early, late, e, w) <= limit * w && count <= early + late
    ensures count <= WorstCase(limit, w)
  {
    WeightedSum(early, late, e, limit, w, count);
    MulMono(early, limit, e, w - 2);
    assert (count - limit) * w == count * w - limit * w;
    FloorOrder(count - limit, limit * (w - 2), w);
  }

  /** No span of `w` milliseconds holds more than the worst case. */
  lemma {:induction false} SpanWorstCase(log: seq<nat>, limit: nat, w: nat, a: int)
    requires 0 < w && Admitted(log, limit, w)
    ensures CountIn(log, a, a + w) <= WorstCase(limit, w)
  {
    WorstCaseAtLeastLimit(limit, w);
    if log != [] {
      var n := |log| - 1;
      var t := log[n];
      if a <= t < a + w {
        var start := t - t % w;
        var early, late := CountIn(log, start - w, start), CountIn(log, start, start + w);
        SpanSplits(log, limit, w, a, early, late, t);
        StartIsAligned(t, w);
        AlignedBound(log, limit, w, start);
        if a < start {
          EarlyBound(log, limit, w, t);
          StraddlingBound(early, late, t % w, limit, w, CountIn(log, a, a + w));
        }
      } else {
        SpanWorstCase(log[..n], limit, w, a);
      }
    }
  }

  lemma StartIsAligned(t: nat, w: nat)
    requires 0 < w
    ensures 0 <= t - t % w && (t - t % w) % w == 0
  {
    var q := t / w;
    assert t == q * w + t % w;
    DivisionIsUnique(q * w, w, q, 0);
  }

  /** The window before `t`'s holds at most `limit` shows (none before time zero). */
  lemma EarlyBound(log: seq<nat>, limit: nat, w: nat, t: nat)
    requires 0 < w && Admitted(log, limit, w)
    ensures CountIn(log, t - t % w - w, t - t % w) <= limit
  {
    var start := t - t % w;
    StartIsAligned(t, w);
    if start >= w {
      var q := start / w;
      assert start == q * w;
      assert start - w == (q - 1) * w;
      DivisionIsUnique(start - w, w, q - 1, 0);
      AlignedBound(log, limit, w, start - w);
    } else {
      StartBelowWindow(start, w);
      NoneBefore(log, start - w, 0);
    }
  }

  lemma StartBelowWindow(start: nat, w: nat)
    requires start < w && start % w == 0
    ensures start == 0
  {
  }

  lemma {:induction false} CountAtMostAll(log: seq<nat>, lo: int, hi: int)
    ensures CountIn(log, lo, hi) <= |log|
  {
    if log != [] { CountAtMostAll(log[..|log| - 1], lo, hi); }
  }

  lemma {:induction false} NoneBefore(log: seq<nat>, lo: int, hi: int)
    requires hi <= 0
    ensures CountIn(log, lo, hi) == 0
  {
    if log != [] { NoneBefore(log[..|log| - 1], lo, hi); }
  }

  lemma WorstCaseAtLeastLimit(limit: nat, w: nat)
    requires 0 < w
    ensures limit <= WorstCase(limit, w)
  {
    if w >= 2 {
      assert limit * (w - 2) >= 0;
      FloorOrder(0, limit * (w - 2), w);
    }
  }

  /** The documented reading, "at most `limit` shows per window length", is what
      the worst case allows exactly when the limit is one or the window is tiny;
      short of that the worst case stays below twice the limit. */
  lemma WhenTheLimitIsStrict(limit: nat, w: nat)
    requires 0 < w && 0 < limit
    ensures WorstCase(limit, w) == limit <==> w == 1 || limit * (w - 2) < w
    ensures WorstCase(limit, w) <= 2 * limit - 1
    ensures w >= 2 * limit ==> WorstCase(limit, w) == 2 * limit - 1
  {
    WorstCaseAtLeastLimit(limit, w);
    if w >= 2 {
      var y := limit * (w - 2);
      assert y == limit * w - 2 * limit;
      assert y == y / w * w + y % w;
      FloorOrder(1, y, w);
      FloorOrder(limit, y, w);
      if w >= 2 * limit {
        assert (limit - 1) * w == limit * w - w;
        FloorOrder(limit - 1, y, w);
      }
    }
  }

  /** What the window counter guarantees of a log: at most `limit` shows in an
      aligned window, the worst case in any span of one window length, and there
      limit + P * e / w for the span's last show at offset e, P being the shows of
      the aligned window before that show's. */
  ghost predicate WithinLimits(log: seq<nat>, limit: nat, w: nat, a: int, aligned: nat)
    requires 0 < w
  {
    && CountIn(log, aligned, aligned + w) <= limit
    && CountIn(log, a, a + w) <= WorstCase(limit, w)
    && (CountIn(log, a, a + w) > 0 ==>
          var t := LastIn(log, a, a + w);
          var start := t - t % w;
          CountIn(log, a, a + w) * w <= limit * w + CountIn(log, start - w, start) * (t % w))
  }

  lemma {:induction false} AdmittedIsWithinLimits(log: seq<nat>, limit: nat, w: nat, a: int, aligned: nat)
    requires 0 < w && Admitted(log, limit, w) && aligned % w == 0
    ensures WithinLimits(log, limit, w, a, aligned)
  {
    AlignedBound(log, limit, w, aligned);
    SpanWorstCase(log, limit, w, a);
    if CountIn(log, a, a + w) > 0 {
      SpanBound(log, limit, w, a);
    }
  }
}
