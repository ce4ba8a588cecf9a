/** The protocol as a table: for every message the list of its fields, in order.
    The encoder writes exactly these, so with the round trips the decoder reads
    them. */
module WireFormat {
  import opened Words
  import Arith
  import opened Wire
  import opened Messages
  import opened Fields
  import opened Codec

  /** A number of so many bytes, or a string after its 32-bit length. */
  datatype Field = Num(width: nat, value: nat) | Str(text: Text)

  function FieldBytes(f: Field): Bytes {
    match f
    case Num(width, value) => BigEndian(value, width)
    case Str(text) => BigEndian(|text| % TWO_TO_32, 4) + text
  }

  /** The fields' bytes in front of a tail. */
  function On(fields: seq<Field>, tail: Bytes): Bytes {
    if fields == [] then tail else FieldBytes(fields[0]) + On(fields[1..], tail)
  }

  /** The most significant byte comes first. */
  lemma {:induction false} BytesAreBigEndian(v: nat, n: nat, i: nat)
    requires i < n
    ensures BigEndian(v, n)[i] == v / Pow256(n - 1 - i) % 256
  {
    if i < n - 1 {
      BytesAreBigEndian(v / 256, n - 1, i);
      DivideTwice(v, n - 2 - i);
    }
  }

  lemma DivideTwice(v: nat, k: nat)
    ensures v / 256 / Pow256(k) == v / Pow256(k + 1)
  {
    var p, q := Pow256(k), v / 256 / Pow256(k);
    var half := v / 256;
    assert half == q * p + half % p;
    assert v == half * 256 + v % 256;
    assert Pow256(k + 1) == 256 * p;
    assert v == q * (256 * p) + (half % p * 256 + v % 256);
    Arith.DivisionIsUnique(v, 256 * p, q, half % p * 256 + v % 256);
  }

  lemma {:induction false} OnCons(f: Field, fields: seq<Field>, tail: Bytes)
    ensures On([f] + fields, tail) == FieldBytes(f) + On(fields, tail)
  {
    assert ([f] + fields)[1..] == fields;
  }

  lemma {:induction false} OnAppend(a: seq<Field>, b: seq<Field>, tail: Bytes)
    ensures On(a + b, tail) == On(a, On(b, tail))
  {
    hide FieldBytes;
    if a == [] {
      assert a + b == b;
    } else {
      OnAppend(a[1..], b, tail);
      assert (a + b)[1..] == a[1..] + b;
    }
  }

  lemma StrIsText(t: Text, tail: Bytes)
    ensures WithText(t, tail) == FieldBytes(Str(t)) + tail
  {
    assert BigEndian(|t| % TWO_TO_32, 4) + t + tail == BigEndian(|t| % TWO_TO_32, 4) + (t + tail);
  }

  // -------------------------------------------------------------------------
  // The table
  // -------------------------------------------------------------------------

  function HeaderFields(kind: u8, id: u64): seq<Field> {
    [Num(4, 0x4C52_4431), Num(1, 3), Num(1, kind), Num(2, 0), Num(8, id)]
  }

  function ItemFields(i: Item): seq<Field> {
    [Num(8, i.id), Str(i.category), Str(i.advertiser), Num(8, i.score), Num(8, ToUnsigned(i.createdAt)),
     Num(8, ToUnsigned(i.expiresAt))]
  }

  function AffinityFields(s: seq<Affinity>): seq<Field> {
    if s == [] then [] else [Str(s[0].category), Num(8, s[0].weight)] + AffinityFields(s[1..])
  }

  function TextFields(s: seq<Text>): seq<Field> {
    if s == [] then [] else [Str(s[0])] + TextFields(s[1..])
  }

  function SignalFields(s: Signal): seq<Field> {
    [Num(4, |s.affinities| % TWO_TO_32)] + AffinityFields(s.affinities)
    + [Num(4, |s.excluded| % TWO_TO_32)] + TextFields(s.excluded)
  }

  function RankedFields(s: seq<Ranked>): seq<Field> {
    if s == [] then []
    else [Num(8, s[0].id), Num(8, s[0].score), Str(s[0].category), Str(s[0].advertiser)] + RankedFields(s[1..])
  }

  function StatsFields(s: Stats): seq<Field> {
    [Num(8, s.requests), Num(8, s.gets), Num(8, s.puts), Num(8, s.deletes), Num(8, s.recommends), Num(8, s.hits),
     Num(8, s.misses), Num(8, s.evictions), Num(8, s.entries), Num(8, s.capacity), Num(8, s.policyAllowed),
     Num(8, s.policyExposureBlocked), Num(8, s.policyFrequencyBlocked), Num(8, s.policyStoreFull),
     Num(8, s.policyTracked)]
  }

  function RequestFields(r: Request): seq<Field> {
    match r.body
    case GetItem(id) => HeaderFields(0x01, r.id) + [Num(8, id)]
    case PutItem(item) => HeaderFields(0x02, r.id) + ItemFields(item)
    case DeleteItem(id) => HeaderFields(0x03, r.id) + [Num(8, id)]
    case GetStats => HeaderFields(0x04, r.id)
    case Recommend(signal, count, dryRun) =>
      HeaderFields(0x05, r.id) + SignalFields(signal) + [Num(4, count), Num(1, if dryRun then 1 else 0)]
  }

  function ResponseFields(r: Response): seq<Field> {
    match r.body
    case GetItemResult(status, item) =>
      HeaderFields(0x81, r.id) + [Num(1, status)] + if status == 0 then ItemFields(item) else []
    case PutItemResult(status) => HeaderFields(0x82, r.id) + [Num(1, status)]
    case DeleteItemResult(status) => HeaderFields(0x83, r.id) + [Num(1, status)]
    case StatsResult(status, stats) => HeaderFields(0x84, r.id) + [Num(1, status)] + StatsFields(stats)
    case RecommendResult(status, items) =>
      HeaderFields(0x85, r.id) + [Num(1, status), Num(4, |items| % TWO_TO_32)] + RankedFields(items)
    case Failure(status, message) => HeaderFields(0xFF, r.id) + [Num(1, status), Str(message)]
  }

  // -------------------------------------------------------------------------
  // The encoder follows it
  // -------------------------------------------------------------------------

  lemma {:induction false} OnOne(a: Field, tail: Bytes)
    ensures On([a], tail) == FieldBytes(a) + tail
  {
    assert [a] == [a] + [];
    OnCons(a, [], tail);
  }

  lemma {:induction false} OnTwo(a: Field, b: Field, tail: Bytes)
    ensures On([a, b], tail) == FieldBytes(a) + (FieldBytes(b) + tail)
  {
    assert [a, b] == [a] + [b];
    OnCons(a, [b], tail);
    OnOne(b, tail);
  }

  lemma {:induction false} OnFour(a: Field, b: Field, c: Field, d: Field, tail: Bytes)
    ensures On([a, b, c, d], tail) == FieldBytes(a) + (FieldBytes(b) + (FieldBytes(c) + (FieldBytes(d) + tail)))
  {
    assert [a, b, c, d] == [a, b] + [c, d];
    OnAppend([a, b], [c, d], tail);
    OnTwo(c, d, tail);
    OnTwo(a, b, On([c, d], tail));
  }

  lemma {:induction false} HeaderOnWire(kind: u8, id: u64, tail: Bytes)
    ensures WithHeader(kind, id, tail) == On(HeaderFields(kind, id), tail)
  {
    hide FieldBytes;
    hide BigEndian;
    var rest := [Num(1, 3), Num(1, kind), Num(2, 0), Num(8, id)];
    assert HeaderFields(kind, id) == [Num(4, 0x4C52_4431)] + rest;
    OnCons(Num(4, 0x4C52_4431), rest, tail);
    OnFour(Num(1, 3), Num(1, kind), Num(2, 0), Num(8, id), tail);
    NumIsUint(4, 0x4C52_4431);
    NumIsUint(1, 3);
    NumIsUint(1, kind);
    NumIsUint(2, 0);
    NumIsUint(8, id);
  }

  lemma {:induction false} NumIsUint(width: nat, value: nat)
    ensures FieldBytes(Num(width, value)) == BigEndian(value, width)
  {
  }

  lemma {:induction false} ItemOnWire(i: Item, tail: Bytes)
    ensures WithItem(i, tail) == On(ItemFields(i), tail)
  {
    hide FieldBytes;
    hide BigEndian;
    hide WithText;
    var created, expires := ToUnsigned(i.createdAt), ToUnsigned(i.expiresAt);
    var end := On([Num(8, created), Num(8, expires)], tail);
    assert ItemFields(i) == [Num(8, i.id), Str(i.category), Str(i.advertiser), Num(8, i.score)]
                            + [Num(8, created), Num(8, expires)];
    OnAppend([Num(8, i.id), Str(i.category), Str(i.advertiser), Num(8, i.score)],
             [Num(8, created), Num(8, expires)], tail);
    OnTwo(Num(8, created), Num(8, expires), tail);
    OnFour(Num(8, i.id), Str(i.category), Str(i.advertiser), Num(8, i.score), end);
    NumIsUint(8, i.id);
    NumIsUint(8, i.score);
    NumIsUint(8, created);
    NumIsUint(8, expires);
    var scored := FieldBytes(Num(8, i.score)) + end;
    StrIsText(i.advertiser, scored);
    StrIsText(i.category, FieldBytes(Str(i.advertiser)) + scored);
  }

  lemma {:induction false} AffinitiesOnWire(s: seq<Affinity>, tail: Bytes)
    ensures WithAffinities(s, tail) == On(AffinityFields(s), tail)
  {
    hide FieldBytes;
    hide BigEndian;
    hide WithText;
    if s != [] {
      AffinitiesOnWire(s[1..], tail);
      var first := [Str(s[0].category), Num(8, s[0].weight)];
      OnAppend(first, AffinityFields(s[1..]), tail);
      var rest := On(AffinityFields(s[1..]), tail);
      OnTwo(Str(s[0].category), Num(8, s[0].weight), rest);
      NumIsUint(8, s[0].weight);
      StrIsText(s[0].category, FieldBytes(Num(8, s[0].weight)) + rest);
    }
  }

  lemma {:induction false} TextsOnWire(s: seq<Text>, tail: Bytes)
    ensures WithTexts(s, tail) == On(TextFields(s), tail)
  {
    hide FieldBytes;
    hide WithText;
    if s != [] {
      TextsOnWire(s[1..], tail);
      OnCons(Str(s[0]), TextFields(s[1..]), tail);
      StrIsText(s[0], On(TextFields(s[1..]), tail));
    }
  }

  lemma {:induction false} SignalOnWire(s: Signal, tail: Bytes)
    ensures WithSignal(s, tail) == On(SignalFields(s), tail)
  {
    hide FieldBytes;
    hide BigEndian;
    var n, m := Num(4, |s.affinities| % TWO_TO_32), Num(4, |s.excluded| % TWO_TO_32);
    var texts := On(TextFields(s.excluded), tail);
    OnAppend([n] + AffinityFields(s.affinities) + [m], TextFields(s.excluded), tail);
    OnAppend([n] + AffinityFields(s.affinities), [m], texts);
    OnOne(m, texts);
    OnCons(n, AffinityFields(s.affinities), On([m], texts));
    TextsOnWire(s.excluded, tail);
    AffinitiesOnWire(s.affinities, On([m], texts));
    NumIsUint(4, |s.affinities| % TWO_TO_32);
    NumIsUint(4, |s.excluded| % TWO_TO_32);
  }

  lemma {:induction false} RankedOnWire(s: seq<Ranked>, tail: Bytes)
    ensures WithRankedList(s, tail) == On(RankedFields(s), tail)
  {
    hide FieldBytes;
    hide BigEndian;
    hide WithText;
    if s != [] {
      RankedOnWire(s[1..], tail);
      var r, rest := s[0], On(RankedFields(s[1..]), tail);
      OnAppend([Num(8, r.id), Num(8, r.score), Str(r.category), Str(r.advertiser)], RankedFields(s[1..]), tail);
      OnFour(Num(8, r.id), Num(8, r.score), Str(r.category), Str(r.advertiser), rest);
      NumIsUint(8, r.id);
      NumIsUint(8, r.score);
      StrIsText(r.advertiser, rest);
      StrIsText(r.category, FieldBytes(Str(r.advertiser)) + rest);
    }
  }

  function WordFields(s: seq<u64>): (r: seq<Field>)
    ensures |r| == |s| && forall i :: 0 <= i < |s| ==> r[i] == Num(8, s[i])
  {
    if s == [] then [] else [Num(8, s[0])] + WordFields(s[1..])
  }

  lemma {:induction false} WordsOnWire(s: seq<u64>, tail: Bytes)
    ensures WithWords(s, tail) == On(WordFields(s), tail)
  {
    hide FieldBytes;
    hide BigEndian;
    if s != [] {
      WordsOnWire(s[1..], tail);
      OnCons(Num(8, s[0]), WordFields(s[1..]), tail);
      NumIsUint(8, s[0]);
    }
  }

  lemma {:induction false} StatsOnWire(s: Stats, tail: Bytes)
    ensures WithWords(StatsWords(s), tail) == On(StatsFields(s), tail)
  {
    hide On;
    hide WithWords;
    WordsOnWire(StatsWords(s), tail);
    assert WordFields(StatsWords(s)) == StatsFields(s);
  }

  /** What the encoder writes for a request is the header, then the fields of its
      kind, in the order of the table. */
  lemma RequestOnWire(r: Request)
    ensures EncodeRequest(r) == On(RequestFields(r), [])
  {
    hide FieldBytes;
    hide BigEndian;
    hide On;
    hide WithHeader;
    hide HeaderFields;
    hide ItemFields;
    hide SignalFields;
    hide WithItem;
    hide WithSignal;
    match r.body
    case GetItem(id) =>
      HeaderThen(0x01, r.id, [Num(8, id)]);
      OnOne(Num(8, id), []);
      NumIsUint(8, id);
    case PutItem(item) =>
      HeaderThen(0x02, r.id, ItemFields(item));
      ItemOnWire(item, []);
    case DeleteItem(id) =>
      HeaderThen(0x03, r.id, [Num(8, id)]);
      OnOne(Num(8, id), []);
      NumIsUint(8, id);
    case GetStats => HeaderOnWire(0x04, r.id, []);
    case Recommend(signal, count, dryRun) =>
      var end := [Num(4, count), Num(1, if dryRun then 1 else 0)];
      HeaderThen(0x05, r.id, SignalFields(signal) + end);
      assert HeaderFields(0x05, r.id) + SignalFields(signal) + end
          == HeaderFields(0x05, r.id) + (SignalFields(signal) + end);
      OnAppend(SignalFields(signal), end, []);
      OnTwo(end[0], end[1], []);
      NumIsUint(4, count);
      NumIsUint(1, if dryRun then 1 else 0);
      SignalOnWire(signal, On(end, []));
  }

  lemma {:induction false} HeaderThen(kind: u8, id: u64, fields: seq<Field>)
    ensures On(HeaderFields(kind, id) + fields, []) == WithHeader(kind, id, On(fields, []))
  {
    OnAppend(HeaderFields(kind, id), fields, []);
    HeaderOnWire(kind, id, On(fields, []));
  }

  lemma {:induction false} StatusThen(kind: u8, id: u64, status: u8, fields: seq<Field>)
    ensures On(HeaderFields(kind, id) + [Num(1, status)] + fields, [])
         == WithHeader(kind, id, WithU8(status, On(fields, [])))
  {
    hide HeaderFields;
    hide WithHeader;
    HeaderThen(kind, id, [Num(1, status)] + fields);
    assert HeaderFields(kind, id) + [Num(1, status)] + fields == HeaderFields(kind, id) + ([Num(1, status)] + fields);
    OnCons(Num(1, status), fields, []);
  }

  /** The same for a response. */
  lemma ResponseOnWire(r: Response)
    ensures EncodeResponse(r) == On(ResponseFields(r), [])
  {
    hide FieldBytes;
    hide BigEndian;
    hide WithHeader;
    hide HeaderFields;
    hide ItemFields;
    hide StatsFields;
    hide WithItem;
    hide WithText;
    hide WithWords;
    hide WithRankedList;
    match r.body
    case GetItemResult(status, item) =>
      StatusThen(0x81, r.id, status, if status == 0 then ItemFields(item) else []);
      ItemOnWire(item, []);
    case PutItemResult(status) =>
      StatusThen(0x82, r.id, status, []);
      assert HeaderFields(0x82, r.id) + [Num(1, status)] + [] == HeaderFields(0x82, r.id) + [Num(1, status)];
    case DeleteItemResult(status) =>
      StatusThen(0x83, r.id, status, []);
      assert HeaderFields(0x83, r.id) + [Num(1, status)] + [] == HeaderFields(0x83, r.id) + [Num(1, status)];
    case StatsResult(status, stats) =>
      StatusThen(0x84, r.id, status, StatsFields(stats));
      StatsOnWire(stats, []);
    case RecommendResult(status, items) =>
      var n := Num(4, |items| % TWO_TO_32);
      StatusThen(0x85, r.id, status, [n] + RankedFields(items));
      assert HeaderFields(0x85, r.id) + [Num(1, status), n] + RankedFields(items)
          == HeaderFields(0x85, r.id) + [Num(1, status)] + ([n] + RankedFields(items));
      OnCons(n, RankedFields(items), []);
      NumIsUint(4, |items| % TWO_TO_32);
      RankedOnWire(items, []);
    case Failure(status, message) =>
      StatusThen(0xFF, r.id, status, [Str(message)]);
      assert HeaderFields(0xFF, r.id) + [Num(1, status), Str(message)]
          == HeaderFields(0xFF, r.id) + [Num(1, status)] + [Str(message)];
      OnOne(Str(message), []);
      StrIsText(message, []);
  }
}
