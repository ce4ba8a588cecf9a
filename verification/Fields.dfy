/** The composite fields of the protocol: how each is written in front of a tail,
    how it is parsed, and that the two undo each other in both directions. */
module Fields {
  import opened Words
  import opened Wire
  import opened Messages

  function WithU8(v: u8, tail: Bytes): Bytes { WithUint(v, 1, tail) }
  function WithU16(v: u16, tail: Bytes): Bytes { WithUint(v, 2, tail) }
  function WithU32(v: u32, tail: Bytes): Bytes { WithUint(v, 4, tail) }
  function WithU64(v: u64, tail: Bytes): Bytes { WithUint(v, 8, tail) }

  function ParseU8(b: Bytes): (p: Parsed<u8>)
    ensures !p.TooBig?
  {
    var (v, rest) :- ParseUint(b, 1);
    UintExact(b, 1);
    WordSizes();
    Got(v, rest)
  }

  function ParseU16(b: Bytes): (p: Parsed<u16>)
    ensures !p.TooBig?
  {
    var (v, rest) :- ParseUint(b, 2);
    UintExact(b, 2);
    WordSizes();
    Got(v, rest)
  }

  function ParseU32(b: Bytes): (p: Parsed<u32>)
    ensures !p.TooBig?
  {
    var (v, rest) :- ParseUint(b, 4);
    UintExact(b, 4);
    WordSizes();
    Got(v, rest)
  }

  function ParseU64(b: Bytes): (p: Parsed<u64>)
    ensures !p.TooBig?
  {
    var (v, rest) :- ParseUint(b, 8);
    UintExact(b, 8);
    WordSizes();
    Got(v, rest)
  }

  lemma U8RoundTrip(v: u8, tail: Bytes)
    ensures ParseU8(WithU8(v, tail)) == Got(v, tail)
  {
    WordSizes();
    UintRoundTrip(v, 1, tail);
  }

  lemma U16RoundTrip(v: u16, tail: Bytes)
    ensures ParseU16(WithU16(v, tail)) == Got(v, tail)
  {
    WordSizes();
    UintRoundTrip(v, 2, tail);
  }

  lemma U32RoundTrip(v: u32, tail: Bytes)
    ensures ParseU32(WithU32(v, tail)) == Got(v, tail)
  {
    WordSizes();
    UintRoundTrip(v, 4, tail);
  }

  lemma U64RoundTrip(v: u64, tail: Bytes)
    ensures ParseU64(WithU64(v, tail)) == Got(v, tail)
  {
    WordSizes();
    UintRoundTrip(v, 8, tail);
  }

  // Laws in the other direction: what was parsed is what is written, and more
  // input changes only the rest.

  lemma U8Laws(b: Bytes, x: Bytes)
    requires ParseU8(b).Got?
    ensures var p := ParseU8(b); b == WithU8(p.value, p.rest) && ParseU8(b + x) == Got(p.value, p.rest + x)
  {
    UintExact(b, 1);
    UintExtends(b, 1, x);
  }

  lemma U16Laws(b: Bytes, x: Bytes)
    requires ParseU16(b).Got?
    ensures var p := ParseU16(b); b == WithU16(p.value, p.rest) && ParseU16(b + x) == Got(p.value, p.rest + x)
  {
    UintExact(b, 2);
    UintExtends(b, 2, x);
  }

  lemma U32Laws(b: Bytes, x: Bytes)
    requires ParseU32(b).Got?
    ensures var p := ParseU32(b); b == WithU32(p.value, p.rest) && ParseU32(b + x) == Got(p.value, p.rest + x)
  {
    UintExact(b, 4);
    UintExtends(b, 4, x);
  }

  lemma U64Laws(b: Bytes, x: Bytes)
    requires ParseU64(b).Got?
    ensures var p := ParseU64(b); b == WithU64(p.value, p.rest) && ParseU64(b + x) == Got(p.value, p.rest + x)
  {
    UintExact(b, 8);
    UintExtends(b, 8, x);
  }

  lemma TextLaws(b: Bytes, x: Bytes)
    requires ParseText(b).Got?
    ensures var p := ParseText(b);
            && |p.value| < TWO_TO_32 && b == WithText(p.value, p.rest)
            && ParseText(b + x) == Got(p.value, p.rest + x)
  {
    TextExact(b);
    TextExtends(b, x);
  }

  /** Signed milliseconds as an unsigned word and back. */
  function FromWire(u: u64): i64 { if u < TWO_TO_63 then u else u - TWO_TO_64 }

  // -------------------------------------------------------------------------
  // Items
  // -------------------------------------------------------------------------

  function WithItem(i: Item, tail: Bytes): Bytes {
    WithU64(i.id, WithText(i.category, WithText(i.advertiser,
      WithU64(i.score, WithU64(ToUnsigned(i.createdAt), WithU64(ToUnsigned(i.expiresAt), tail))))))
  }

  function ParseItem(b: Bytes): (p: Parsed<Item>)
    ensures !p.TooBig?
  {
    var (id, b) :- ParseU64(b);
    var (category, b) :- ParseText(b);
    var (advertiser, b) :- ParseText(b);
    var (score, b) :- ParseU64(b);
    var (created, b) :- ParseU64(b);
    var (expires, b) :- ParseU64(b);
    Got(Item(id, category, advertiser, score, FromWire(created), FromWire(expires)), b)
  }

  lemma ItemRoundTrip(i: Item, tail: Bytes)
    requires ItemFits(i)
    ensures ParseItem(WithItem(i, tail)) == Got(i, tail)
  {
    hide ParseU64;
    hide ParseText;
    hide WithU64;
    hide WithText;
    var t5 := WithU64(ToUnsigned(i.expiresAt), tail);
    var t4 := WithU64(ToUnsigned(i.createdAt), t5);
    var t3 := WithU64(i.score, t4);
    var t2 := WithText(i.advertiser, t3);
    var t1 := WithText(i.category, t2);
    U64RoundTrip(i.id, t1);
    TextRoundTrip(i.category, t2);
    TextRoundTrip(i.advertiser, t3);
    U64RoundTrip(i.score, t4);
    U64RoundTrip(ToUnsigned(i.createdAt), t5);
    U64RoundTrip(ToUnsigned(i.expiresAt), tail);
  }

  lemma ItemLaws(b: Bytes, x: Bytes)
    requires ParseItem(b).Got?
    ensures var p := ParseItem(b);
            ItemFits(p.value) && b == WithItem(p.value, p.rest) && ParseItem(b + x) == Got(p.value, p.rest + x)
  {
    hide ParseU64;
    hide ParseText;
    hide WithU64;
    hide WithText;
    var b1 := ParseU64(b).rest;
    var b2 := ParseText(b1).rest;
    var b3 := ParseText(b2).rest;
    var b4 := ParseU64(b3).rest;
    var b5 := ParseU64(b4).rest;
    U64Laws(b, x);
    TextLaws(b1, x);
    TextLaws(b2, x);
    U64Laws(b3, x);
    U64Laws(b4, x);
    U64Laws(b5, x);
  }

  // -------------------------------------------------------------------------
  // The user signal: two counted lists
  // -------------------------------------------------------------------------

  function WithAffinities(s: seq<Affinity>, tail: Bytes): Bytes {
    if s == [] then tail else WithText(s[0].category, WithU64(s[0].weight, WithAffinities(s[1..], tail)))
  }

  function ParseAffinities(b: Bytes, n: nat): Parsed<seq<Affinity>> {
    if n == 0 then Got([], b)
    else
      var (category, b) :- ParseText(b);
      var (weight, b) :- ParseU64(b);
      if |category| > MAX_CATEGORY then TooBig
      else
        var (more, b) :- ParseAffinities(b, n - 1);
        Got([Affinity(category, weight)] + more, b)
  }

  predicate ShortCategories(s: seq<Affinity>) {
    forall i :: 0 <= i < |s| ==> |s[i].category| <= MAX_CATEGORY
  }

  lemma {:induction false} AffinitiesRoundTrip(s: seq<Affinity>, tail: Bytes)
    requires forall i :: 0 <= i < |s| ==> |s[i].category| < TWO_TO_32
    ensures ParseAffinities(WithAffinities(s, tail), |s|) == if ShortCategories(s) then Got(s, tail) else TooBig
  {
    hide ParseU64;
    hide ParseText;
    hide WithU64;
    hide WithText;
    if s != [] {
      AffinitiesRoundTrip(s[1..], tail);
      TextRoundTrip(s[0].category, WithU64(s[0].weight, WithAffinities(s[1..], tail)));
      U64RoundTrip(s[0].weight, WithAffinities(s[1..], tail));
      assert s == [s[0]] + s[1..];
      assert ShortCategories(s) <==> |s[0].category| <= MAX_CATEGORY && ShortCategories(s[1..]) by {
        assert forall i :: 0 < i < |s| ==> s[i] == s[1..][i - 1];
      }
    }
  }

  lemma {:induction false} AffinitiesLaws(b: Bytes, n: nat, x: Bytes)
    requires ParseAffinities(b, n).Got?
    ensures var p := ParseAffinities(b, n);
            && |p.value| == n && ShortCategories(p.value)
            && b == WithAffinities(p.value, p.rest)
            && ParseAffinities(b + x, n) == Got(p.value, p.rest + x)
    decreases n
  {
    hide ParseU64;
    hide ParseText;
    hide WithU64;
    hide WithText;
    if n > 0 {
      var b1 := ParseText(b).rest;
      var b2 := ParseU64(b1).rest;
      TextLaws(b, x);
      U64Laws(b1, x);
      AffinitiesLaws(b2, n - 1, x);
      var p := ParseAffinities(b, n);
      assert p.value[1..] == ParseAffinities(b2, n - 1).value;
    }
  }

  function WithTexts(s: seq<Text>, tail: Bytes): Bytes {
    if s == [] then tail else WithText(s[0], WithTexts(s[1..], tail))
  }

  function ParseTexts(b: Bytes, n: nat): Parsed<seq<Text>> {
    if n == 0 then Got([], b)
    else
      var (text, b) :- ParseText(b);
      if |text| > MAX_CATEGORY then TooBig
      else
        var (more, b) :- ParseTexts(b, n - 1);
        Got([text] + more, b)
  }

  predicate ShortTexts(s: seq<Text>) {
    forall i :: 0 <= i < |s| ==> |s[i]| <= MAX_CATEGORY
  }

  lemma {:induction false} TextsRoundTrip(s: seq<Text>, tail: Bytes)
    requires forall i :: 0 <= i < |s| ==> |s[i]| < TWO_TO_32
    ensures ParseTexts(WithTexts(s, tail), |s|) == if ShortTexts(s) then Got(s, tail) else TooBig
  {
    hide ParseText;
    hide WithText;
    if s != [] {
      TextsRoundTrip(s[1..], tail);
      TextRoundTrip(s[0], WithTexts(s[1..], tail));
      assert s == [s[0]] + s[1..];
      assert ShortTexts(s) <==> |s[0]| <= MAX_CATEGORY && ShortTexts(s[1..]) by {
        assert forall i :: 0 < i < |s| ==> s[i] == s[1..][i - 1];
      }
    }
  }

  lemma {:induction false} TextsLaws(b: Bytes, n: nat, x: Bytes)
    requires ParseTexts(b, n).Got?
    ensures var p := ParseTexts(b, n);
            && |p.value| == n && ShortTexts(p.value)
            && b == WithTexts(p.value, p.rest)
            && ParseTexts(b + x, n) == Got(p.value, p.rest + x)
    decreases n
  {
    hide ParseText;
    hide WithText;
    if n > 0 {
      var b1 := ParseText(b).rest;
      TextLaws(b, x);
      TextsLaws(b1, n - 1, x);
      assert ParseTexts(b, n).value[1..] == ParseTexts(b1, n - 1).value;
    }
  }

  /** Counts are cast to 32 bits. */
  function WithSignal(s: Signal, tail: Bytes): Bytes {
    WithU32(|s.affinities| % TWO_TO_32, WithAffinities(s.affinities,
      WithU32(|s.excluded| % TWO_TO_32, WithTexts(s.excluded, tail))))
  }

  /** Both counts are bounded before their loop starts. */
  function ParseSignal(b: Bytes): Parsed<Signal> {
    var (n, b) :- ParseU32(b);
    if n > MAX_AFFINITIES then TooBig
    else
      var (affinities, b) :- ParseAffinities(b, n);
      var (m, b) :- ParseU32(b);
      if m > MAX_EXCLUDED then TooBig
      else
        var (excluded, b) :- ParseTexts(b, m);
        Got(Signal(affinities, excluded), b)
  }

  lemma SignalRoundTrip(s: Signal, tail: Bytes)
    requires SignalFits(s)
    ensures ParseSignal(WithSignal(s, tail)) == if SignalWithinLimits(s) then Got(s, tail) else TooBig
  {
    hide ParseU32;
    hide WithU32;
    hide ParseAffinities;
    hide ParseTexts;
    hide WithAffinities;
    hide WithTexts;
    var t3 := WithTexts(s.excluded, tail);
    var t2 := WithU32(|s.excluded| % TWO_TO_32, t3);
    var t1 := WithAffinities(s.affinities, t2);
    assert SignalWithinLimits(s) == (
      |s.affinities| <= MAX_AFFINITIES && |s.excluded| <= MAX_EXCLUDED
      && ShortCategories(s.affinities) && ShortTexts(s.excluded));
    hide SignalWithinLimits;
    hide ShortCategories;
    hide ShortTexts;
    U32RoundTrip(|s.affinities|, t1);
    AffinitiesRoundTrip(s.affinities, t2);
    U32RoundTrip(|s.excluded|, t3);
    TextsRoundTrip(s.excluded, tail);
  }

  lemma SignalLaws(b: Bytes, x: Bytes)
    requires ParseSignal(b).Got?
    ensures var p := ParseSignal(b);
            && SignalWithinLimits(p.value) && b == WithSignal(p.value, p.rest)
            && ParseSignal(b + x) == Got(p.value, p.rest + x)
  {
    hide ParseU32;
    hide WithU32;
    hide ParseAffinities;
    hide ParseTexts;
    hide WithAffinities;
    hide WithTexts;
    var n := ParseU32(b);
    var b2 := ParseAffinities(n.rest, n.value).rest;
    var m := ParseU32(b2);
    U32Laws(b, x);
    AffinitiesLaws(n.rest, n.value, x);
    U32Laws(b2, x);
    TextsLaws(m.rest, m.value, x);
  }

  // -------------------------------------------------------------------------
  // Recommendation request: signal, count, dry-run byte
  // -------------------------------------------------------------------------

  datatype RawRecommend = RawRecommend(signal: Signal, count: u32, dryByte: u8)

  function WithRecommend(r: RawRecommend, tail: Bytes): Bytes {
    WithSignal(r.signal, WithU32(r.count, WithU8(r.dryByte, tail)))
  }

  function ParseRecommend(b: Bytes): Parsed<RawRecommend> {
    var (signal, b) :- ParseSignal(b);
    var (count, b) :- ParseU32(b);
    var (dryByte, b) :- ParseU8(b);
    Got(RawRecommend(signal, count, dryByte), b)
  }

  lemma RecommendRoundTrip(r: RawRecommend, tail: Bytes)
    requires SignalFits(r.signal)
    ensures ParseRecommend(WithRecommend(r, tail)) == if SignalWithinLimits(r.signal) then Got(r, tail) else TooBig
  {
    hide ParseSignal;
    hide ParseU32;
    hide ParseU8;
    hide WithSignal;
    hide WithU32;
    hide WithU8;
    SignalRoundTrip(r.signal, WithU32(r.count, WithU8(r.dryByte, tail)));
    U32RoundTrip(r.count, WithU8(r.dryByte, tail));
    U8RoundTrip(r.dryByte, tail);
  }

  lemma RecommendLaws(b: Bytes, x: Bytes)
    requires ParseRecommend(b).Got?
    ensures var p := ParseRecommend(b);
            && SignalWithinLimits(p.value.signal) && b == WithRecommend(p.value, p.rest)
            && ParseRecommend(b + x) == Got(p.value, p.rest + x)
  {
    hide ParseSignal;
    hide ParseU32;
    hide ParseU8;
    hide WithSignal;
    hide WithU32;
    hide WithU8;
    var b1 := ParseSignal(b).rest;
    var b2 := ParseU32(b1).rest;
    SignalLaws(b, x);
    U32Laws(b1, x);
    U8Laws(b2, x);
  }

  // -------------------------------------------------------------------------
  // Ranked items and statistics
  // -------------------------------------------------------------------------

  function WithRanked(r: Ranked, tail: Bytes): Bytes {
    WithU64(r.id, WithU64(r.score, WithText(r.category, WithText(r.advertiser, tail))))
  }

  function ParseRanked(b: Bytes): (p: Parsed<Ranked>)
    ensures !p.TooBig?
  {
    var (id, b) :- ParseU64(b);
    var (score, b) :- ParseU64(b);
    var (category, b) :- ParseText(b);
    var (advertiser, b) :- ParseText(b);
    Got(Ranked(id, score, category, advertiser), b)
  }

  lemma RankedRoundTrip(r: Ranked, tail: Bytes)
    requires |r.category| < TWO_TO_32 && |r.advertiser| < TWO_TO_32
    ensures ParseRanked(WithRanked(r, tail)) == Got(r, tail)
  {
    hide ParseU64;
    hide ParseText;
    hide WithU64;
    hide WithText;
    var t3 := WithText(r.advertiser, tail);
    var t2 := WithText(r.category, t3);
    U64RoundTrip(r.id, WithU64(r.score, t2));
    U64RoundTrip(r.score, t2);
    TextRoundTrip(r.category, t3);
    TextRoundTrip(r.advertiser, tail);
  }

  lemma RankedLaws(b: Bytes, x: Bytes)
    requires ParseRanked(b).Got?
    ensures var p := ParseRanked(b); b == WithRanked(p.value, p.rest) && ParseRanked(b + x) == Got(p.value, p.rest + x)
  {
    hide ParseU64;
    hide ParseText;
    hide WithU64;
    hide WithText;
    var b1 := ParseU64(b).rest;
    var b2 := ParseU64(b1).rest;
    var b3 := ParseText(b2).rest;
    U64Laws(b, x);
    U64Laws(b1, x);
    TextLaws(b2, x);
    TextLaws(b3, x);
  }

  function WithRankedList(s: seq<Ranked>, tail: Bytes): Bytes {
    if s == [] then tail else WithRanked(s[0], WithRankedList(s[1..], tail))
  }

  function ParseRankedList(b: Bytes, n: nat): (p: Parsed<seq<Ranked>>)
    ensures !p.TooBig?
  {
    if n == 0 then Got([], b)
    else
      var (r, b) :- ParseRanked(b);
      var (more, b) :- ParseRankedList(b, n - 1);
      Got([r] + more, b)
  }

  lemma {:induction false} RankedListRoundTrip(s: seq<Ranked>, tail: Bytes)
    requires RankedFits(s)
    ensures ParseRankedList(WithRankedList(s, tail), |s|) == Got(s, tail)
  {
    hide ParseRanked;
    hide WithRanked;
    if s != [] {
      RankedListRoundTrip(s[1..], tail);
      RankedRoundTrip(s[0], WithRankedList(s[1..], tail));
      assert s == [s[0]] + s[1..];
    }
  }

  lemma {:induction false} RankedListLaws(b: Bytes, n: nat, x: Bytes)
    requires ParseRankedList(b, n).Got?
    ensures var p := ParseRankedList(b, n);
            && |p.value| == n && b == WithRankedList(p.value, p.rest)
            && ParseRankedList(b + x, n) == Got(p.value, p.rest + x)
    decreases n
  {
    hide ParseRanked;
    hide WithRanked;
    if n > 0 {
      var b1 := ParseRanked(b).rest;
      RankedLaws(b, x);
      RankedListLaws(b1, n - 1, x);
      assert ParseRankedList(b, n).value[1..] == ParseRankedList(b1, n - 1).value;
    }
  }

  function WithWords(s: seq<u64>, tail: Bytes): Bytes {
    if s == [] then tail else WithU64(s[0], WithWords(s[1..], tail))
  }

  function ParseWords(b: Bytes, n: nat): (p: Parsed<seq<u64>>)
    ensures !p.TooBig? && (p.Got? ==> |p.value| == n)
  {
    if n == 0 then Got([], b)
    else
      var (w, b) :- ParseU64(b);
      var (more, b) :- ParseWords(b, n - 1);
      Got([w] + more, b)
  }

  lemma {:induction false} WordsRoundTrip(s: seq<u64>, tail: Bytes)
    ensures ParseWords(WithWords(s, tail), |s|) == Got(s, tail)
  {
    hide ParseU64;
    hide WithU64;
    if s != [] {
      WordsRoundTrip(s[1..], tail);
      U64RoundTrip(s[0], WithWords(s[1..], tail));
      assert s == [s[0]] + s[1..];
    }
  }

  lemma {:induction false} WordsLaws(b: Bytes, n: nat, x: Bytes)
    requires ParseWords(b, n).Got?
    ensures var p := ParseWords(b, n); b == WithWords(p.value, p.rest) && ParseWords(b + x, n) == Got(p.value, p.rest + x)
    decreases n
  {
    hide ParseU64;
    hide WithU64;
    if n > 0 {
      var b1 := ParseU64(b).rest;
      U64Laws(b, x);
      WordsLaws(b1, n - 1, x);
      assert ParseWords(b, n).value[1..] == ParseWords(b1, n - 1).value;
    }
  }

  /** The counters in wire order. */
  function StatsWords(s: Stats): (w: seq<u64>)
    ensures |w| == 15
  {
    [s.requests, s.gets, s.puts, s.deletes, s.recommends, s.hits, s.misses, s.evictions, s.entries, s.capacity,
     s.policyAllowed, s.policyExposureBlocked, s.policyFrequencyBlocked, s.policyStoreFull, s.policyTracked]
  }

  function WordsStats(w: seq<u64>): (s: Stats)
    requires |w| == 15
    ensures StatsWords(s) == w
  {
    Stats(w[0], w[1], w[2], w[3], w[4], w[5], w[6], w[7], w[8], w[9], w[10], w[11], w[12], w[13], w[14])
  }

  lemma StatsRoundTrip(s: Stats)
    ensures WordsStats(StatsWords(s)) == s
  {
  }
}
