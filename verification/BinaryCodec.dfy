/** The codec as it runs: encoders that append to a writer, decoders that advance
    a sticky reader, each proved equal to the codec's functions. */
module BinaryCodecs {
  import opened Words
  import opened Wire
  import opened Messages
  import opened Fields
  import opened Codec
  import opened WireObjects

  // -------------------------------------------------------------------------
  // Writing
  // -------------------------------------------------------------------------

  method WriteItem(item: Item, w: ByteWriter)
    modifies w
    ensures forall tail :: w.out + tail == old(w.out) + WithItem(item, tail)
  {
    hide WithU64;
    hide WithText;
    w.U64(item.id);
    w.String(item.category);
    w.String(item.advertiser);
    w.U64(item.score);
    w.U64(ToUnsigned(item.createdAt));
    w.U64(ToUnsigned(item.expiresAt));
  }

  method WriteSignal(signal: Signal, w: ByteWriter)
    modifies w
    ensures forall tail :: w.out + tail == old(w.out) + WithSignal(signal, tail)
  {
    hide WithU32;
    w.U32(|signal.affinities| % TWO_TO_32);
    WriteAffinities(signal.affinities, w);
    hide WithAffinities;
    w.U32(|signal.excluded| % TWO_TO_32);
    WriteTexts(signal.excluded, w);
  }

  method WriteAffinities(s: seq<Affinity>, w: ByteWriter)
    modifies w
    ensures forall tail :: w.out + tail == old(w.out) + WithAffinities(s, tail)
  {
    hide WithU64;
    hide WithText;
    for i := 0 to |s|
      invariant forall tail :: w.out + WithAffinities(s[i..], tail) == old(w.out) + WithAffinities(s, tail)
    {
      assert s[i..][1..] == s[i + 1..];
      w.String(s[i].category);
      w.U64(s[i].weight);
    }
  }

  method WriteTexts(s: seq<Text>, w: ByteWriter)
    modifies w
    ensures forall tail :: w.out + tail == old(w.out) + WithTexts(s, tail)
  {
    hide WithText;
    for i := 0 to |s|
      invariant forall tail :: w.out + WithTexts(s[i..], tail) == old(w.out) + WithTexts(s, tail)
    {
      assert s[i..][1..] == s[i + 1..];
      w.String(s[i]);
    }
  }

  method WriteRanked(r: Ranked, w: ByteWriter)
    modifies w
    ensures forall tail :: w.out + tail == old(w.out) + WithRanked(r, tail)
  {
    hide WithU64;
    hide WithText;
    w.U64(r.id);
    w.U64(r.score);
    w.String(r.category);
    w.String(r.advertiser);
  }

  method WriteRankedList(s: seq<Ranked>, w: ByteWriter)
    modifies w
    ensures forall tail :: w.out + tail == old(w.out) + WithRankedList(s, tail)
  {
    hide WithRanked;
    for i := 0 to |s|
      invariant forall tail :: w.out + WithRankedList(s[i..], tail) == old(w.out) + WithRankedList(s, tail)
    {
      assert s[i..][1..] == s[i + 1..];
      WriteRanked(s[i], w);
    }
  }

  method WriteStats(stats: Stats, w: ByteWriter)
    modifies w
    ensures forall tail :: w.out + tail == old(w.out) + WithWords(StatsWords(stats), tail)
  {
    hide WithU64;
    var s := StatsWords(stats);
    hide StatsWords;
    for i := 0 to |s|
      invariant forall tail :: w.out + WithWords(s[i..], tail) == old(w.out) + WithWords(s, tail)
    {
      assert s[i..][1..] == s[i + 1..];
      w.U64(s[i]);
    }
  }

  method EncodeHeader(h: RawHeader, w: ByteWriter)
    modifies w
    ensures forall tail :: w.out + tail == old(w.out) + WithU32(MAGIC, WithRawHeader(h, tail))
  {
    hide WithU8;
    hide WithU16;
    hide WithU32;
    hide WithU64;
    w.U32(MAGIC);
    w.U8(h.version);
    w.U8(h.kind);
    w.U16(h.flags);
    w.U64(h.id);
  }

  method WriteRequestBody(body: RequestBody, w: ByteWriter)
    modifies w
    ensures forall tail :: w.out + tail == old(w.out) + WithRequestBody(body, tail)
  {
    hide WithU8;
    hide WithU32;
    hide WithU64;
    hide WithItem;
    hide WithSignal;
    match body {
      case GetItem(id) =>
        w.U64(id);
      case PutItem(item) =>
        WriteItem(item, w);
      case DeleteItem(id) =>
        w.U64(id);
      case GetStats =>
      case Recommend(signal, count, dryRun) =>
        WriteSignal(signal, w);
        w.U32(count);
        w.U8(if dryRun then 1 else 0);
    }
  }

  /** Encoding appends: whatever the buffer held before stays in front. */
  method Encode(request: Request, out: Bytes) returns (r: Bytes)
    ensures r == out + EncodeRequest(request)
  {
    hide WithU32;
    hide WithRawHeader;
    hide WithRequestBody;
    var w := new ByteWriter(out);
    EncodeHeader(RawHeader(VERSION, RequestType(request.body), 0, request.id), w);
    WriteRequestBody(request.body, w);
    r := w.out;
    assert w.out + [] == w.out;
  }

  method WriteResponseBody(body: ResponseBody, w: ByteWriter)
    modifies w
    ensures forall tail :: w.out + tail == old(w.out) + WithResponseBody(body, tail)
  {
    hide WithU8;
    hide WithU32;
    hide WithItem;
    hide WithText;
    hide WithWords;
    hide StatsWords;
    hide WithRankedList;
    w.U8(body.status);
    match body {
      case GetItemResult(status, item) =>
        if status == STATUS_OK {
          WriteItem(item, w);
        }
      case PutItemResult(_) =>
      case DeleteItemResult(_) =>
      case StatsResult(_, stats) =>
        WriteStats(stats, w);
      case RecommendResult(_, items) =>
        w.U32(|items| % TWO_TO_32);
        WriteRankedList(items, w);
      case Failure(_, message) =>
        w.String(message);
    }
  }

  method EncodeReply(response: Response, out: Bytes) returns (r: Bytes)
    ensures r == out + EncodeResponse(response)
  {
    hide WithU32;
    hide WithRawHeader;
    hide WithResponseBody;
    var w := new ByteWriter(out);
    EncodeHeader(RawHeader(VERSION, ResponseType(response.body), 0, response.id), w);
    WriteResponseBody(response.body, w);
    r := w.out;
    assert w.out + [] == w.out;
  }

  // -------------------------------------------------------------------------
  // Reading
  // -------------------------------------------------------------------------

  method ReadItem(r: ByteReader) returns (item: Item)
    requires r.Valid()
    modifies r
    ensures r.Valid() && r.Follows(old(r.failed), ParseItem(old(r.Rest())), item)
  {
    hide ParseU64;
    hide ParseText;
    var id := r.U64();
    var category := r.String();
    var advertiser := r.String();
    var score := r.U64();
    var created := r.U64();
    var expires := r.U64();
    item := Item(id, category, advertiser, score, FromWire(created), FromWire(expires));
  }

  /** What a counted loop parses once its first elements are in hand. */
  ghost function After<T>(done: seq<T>, p: Parsed<seq<T>>): Parsed<seq<T>> {
    if p.Got? then Got(done + p.value, p.rest) else p
  }

  lemma AfterLaws<T>(done: seq<T>, x: T, p: Parsed<seq<T>>)
    ensures After([], p) == p && After(done + [x], p) == After(done, After([x], p))
  {
    if p.Got? {
      assert done + [x] + p.value == done + ([x] + p.value);
      assert [] + p.value == p.value;
    }
  }

  lemma AfterNothing<T>(done: seq<T>, rest: Bytes)
    ensures After(done, Got([], rest)) == Got(done, rest)
  {
    assert done + [] == done;
  }

  /** A loop over a reader in step with a parser that may also refuse: `refused`
      is a limit exceeded, never a lack of bytes. */
  twostate predicate InStep<T(!new)>(r: ByteReader, parsed: Parsed<T>, refused: bool, value: T)
    requires r.Valid()
    reads r
  {
    if old(r.failed) || parsed.Short? then r.failed
    else !r.failed && refused == parsed.TooBig? && (!refused ==> parsed == Got(value, r.Rest()))
  }

  method ReadAffinities(r: ByteReader, n: nat) returns (refused: bool, s: seq<Affinity>)
    requires r.Valid()
    modifies r
    ensures r.Valid() && InStep(r, ParseAffinities(old(r.Rest()), n), refused, s)
  {
    hide ParseU64;
    hide ParseText;
    s := [];
    ghost var whole := ParseAffinities(r.Rest(), n);
    AfterLaws([], Affinity([], 0), whole);
    for i := 0 to n
      invariant r.Valid() && (old(r.failed) ==> r.failed)
      invariant old(r.failed) || if r.failed then whole.Short? else whole == After(s, ParseAffinities(r.Rest(), n - i))
    {
      var category := r.String();
      var weight := r.U64();
      if |category| > MAX_CATEGORY {
        return true, s;
      }
      AfterLaws(s, Affinity(category, weight), ParseAffinities(r.Rest(), n - i - 1));
      s := s + [Affinity(category, weight)];
    }
    AfterNothing(s, r.Rest());
    refused := false;
  }

  method ReadTexts(r: ByteReader, n: nat) returns (refused: bool, s: seq<Text>)
    requires r.Valid()
    modifies r
    ensures r.Valid() && InStep(r, ParseTexts(old(r.Rest()), n), refused, s)
  {
    hide ParseText;
    s := [];
    ghost var whole := ParseTexts(r.Rest(), n);
    AfterLaws([], [], whole);
    for i := 0 to n
      invariant r.Valid() && (old(r.failed) ==> r.failed)
      invariant old(r.failed) || if r.failed then whole.Short? else whole == After(s, ParseTexts(r.Rest(), n - i))
    {
      var text := r.String();
      if |text| > MAX_CATEGORY {
        return true, s;
      }
      AfterLaws(s, text, ParseTexts(r.Rest(), n - i - 1));
      s := s + [text];
    }
    AfterNothing(s, r.Rest());
    refused := false;
  }

  /** A failed reader may come back with `ok`: the caller's `Finish` reports it. */
  method ReadSignal(r: ByteReader) returns (ok: bool, signal: Signal)
    requires r.Valid()
    modifies r
    ensures r.Valid() && InStep(r, ParseSignal(old(r.Rest())), !ok, signal)
  {
    hide ParseU32;
    hide ParseAffinities;
    hide ParseTexts;
    signal := Signal([], []);
    var n := r.U32();
    if r.failed || n > MAX_AFFINITIES {
      return false, signal;
    }
    label counted:
    var refused, affinities := ReadAffinities(r, n);
    if refused {
      return false, signal;
    }
    var m := r.U32();
    if r.failed || m > MAX_EXCLUDED {
      return false, signal;
    }
    var refused', excluded := ReadTexts(r, m);
    if refused' {
      return false, signal;
    }
    return true, Signal(affinities, excluded);
  }

  method DecodeHeader(r: ByteReader) returns (h: Header)
    requires r.Valid() && !r.failed
    modifies r
    ensures r.Valid()
    ensures match ParseHeader(old(r.Rest()))
            case HeaderErr(error) => h == HeaderErr(error)
            case HeaderOk(kind, id, rest) => h == HeaderOk(kind, id, rest) && !r.failed && r.Rest() == rest
  {
    hide ParseU8;
    hide ParseU16;
    hide ParseU32;
    hide ParseU64;
    var magic := r.U32();
    if r.failed {
      return HeaderErr(Truncated);
    }
    if magic != MAGIC {
      return HeaderErr(BadMagic);
    }
    var version := r.U8();
    var kind := r.U8();
    var flags := r.U16();
    var id := r.U64();
    if r.failed {
      return HeaderErr(Truncated);
    }
    if version != VERSION {
      return HeaderErr(UnsupportedVersion);
    }
    if flags != 0 {
      return HeaderErr(ReservedFlags);
    }
    if !IsKnownType(kind) {
      return HeaderErr(UnknownType);
    }
    return HeaderOk(kind, id, r.data[r.pos..]);
  }

  /** The payload must be consumed exactly. */
  method Finish(r: ByteReader) returns (error: Option<DecodeError>)
    requires r.Valid()
    ensures error == if r.failed then Some(Truncated) else if r.Rest() != [] then Some(TrailingBytes) else None
  {
    if r.failed {
      return Some(Truncated);
    }
    if r.pos != |r.data| {
      return Some(TrailingBytes);
    }
    return None;
  }

  method DecodeRequestBody(r: ByteReader, kind: u8, id: u64) returns (d: Decoded<RequestBody>)
    requires r.Valid() && !r.failed && 0x01 <= kind <= 0x05
    modifies r
    ensures var p := ParseRequestBody(kind, old(r.Rest())); d == Complete(p, id, RequestAcceptable(p))
  {
    hide ParseU32;
    hide ParseU64;
    hide ParseU8;
    hide ParseItem;
    hide ParseSignal;
    var body;
    var acceptable := true;
    match kind {
      case 1 =>
        var item := r.U64();
        body := GetItem(item);
      case 2 =>
        var item := ReadItem(r);
        body := PutItem(item);
        acceptable := ItemWithinLimits(item);
      case 3 =>
        var item := r.U64();
        body := DeleteItem(item);
      case 4 =>
        body := GetStats;
      case _ =>
        var ok, signal := ReadSignal(r);
        if !ok {
          return Err(if r.failed then Truncated else FieldTooLarge, Some(id));
        }
        var count := r.U32();
        var dry := r.U8();
        body := Recommend(signal, count, dry != 0);
        acceptable := count <= MAX_RECOMMEND;
    }
    var error := Finish(r);
    if error.Some? {
      return Err(error.value, Some(id));
    }
    if !acceptable {
      return Err(FieldTooLarge, Some(id));
    }
    return Ok(body);
  }

  /** The decoder's answer, case by case. */
  lemma RequestCases(b: Bytes)
    ensures match ParseHeader(b)
            case HeaderErr(error) => DecodeRequest(b) == Err(error, None)
            case HeaderOk(kind, id, rest) =>
              if IsResponseType(kind) then DecodeRequest(b) == Err(WrongDirection, None)
              else
                && 0x01 <= kind <= 0x05
                && var p := ParseRequestBody(kind, rest);
                   (match Complete(p, id, RequestAcceptable(p))
                    case Err(error, x) => DecodeRequest(b) == Err(error, x)
                    case Ok(value) => DecodeRequest(b) == Ok(Request(id, value)))
  {
    hide ParseRequestBody;
    hide RequestAcceptable;
    hide Complete;
  }

  method Decode(body: Bytes) returns (d: Decoded<Request>)
    ensures d == DecodeRequest(body)
  {
    hide *;
    RequestCases(body);
    var r := new ByteReader(body);
    var h := DecodeHeader(r);
    if h.HeaderErr? {
      return Err(h.error, None);
    }
    if IsResponseType(h.kind) {
      return Err(WrongDirection, None);
    }
    var payload := DecodeRequestBody(r, h.kind, h.id);
    match payload {
      case Err(error, id) => return Err(error, id);
      case Ok(value) => return Ok(Request(h.id, value));
    }
  }

  method ReadRankedList(r: ByteReader, n: nat) returns (s: seq<Ranked>)
    requires r.Valid()
    modifies r
    ensures r.Valid() && r.Follows(old(r.failed), ParseRankedList(old(r.Rest()), n), s)
  {
    hide ParseU64;
    hide ParseText;
    s := [];
    ghost var whole := ParseRankedList(r.Rest(), n);
    AfterLaws([], Ranked(0, 0, [], []), whole);
    for i := 0 to n
      invariant r.Valid() && (old(r.failed) ==> r.failed)
      invariant old(r.failed) || if r.failed then whole.Short? else whole == After(s, ParseRankedList(r.Rest(), n - i))
    {
      var id := r.U64();
      var score := r.U64();
      var category := r.String();
      var advertiser := r.String();
      AfterLaws(s, Ranked(id, score, category, advertiser), ParseRankedList(r.Rest(), n - i - 1));
      s := s + [Ranked(id, score, category, advertiser)];
    }
    AfterNothing(s, r.Rest());
  }

  method ReadStats(r: ByteReader) returns (stats: Stats)
    requires r.Valid()
    modifies r
    ensures r.Valid()
    ensures var p := ParseWords(old(r.Rest()), 15);
            if old(r.failed) || p.IsFailure() then r.failed
            else !r.failed && p == Got(StatsWords(stats), r.Rest())
  {
    hide ParseU64;
    var s: seq<u64> := [];
    ghost var whole := ParseWords(r.Rest(), 15);
    AfterLaws([], 0, whole);
    for i := 0 to 15
      invariant r.Valid() && (old(r.failed) ==> r.failed) && |s| == i
      invariant old(r.failed) || if r.failed then whole.Short? else whole == After(s, ParseWords(r.Rest(), 15 - i))
    {
      var word := r.U64();
      AfterLaws(s, word, ParseWords(r.Rest(), 14 - i));
      s := s + [word];
    }
    AfterNothing(s, r.Rest());
    stats := WordsStats(s);
  }

  method DecodeResponseBody(r: ByteReader, kind: u8, id: u64) returns (d: Decoded<ResponseBody>)
    requires r.Valid() && !r.failed && (0x81 <= kind <= 0x85 || kind == 0xFF)
    modifies r
    ensures var p := ParseResponseBody(kind, old(r.Rest())); d == Complete(p, id, ResponseAcceptable(p))
  {
    hide ParseU32;
    hide ParseU8;
    hide ParseItem;
    hide ParseText;
    hide ParseWords;
    hide StatsWords;
    hide WordsStats;
    hide ParseRankedList;
    var status := r.U8();
    var body;
    var acceptable := true;
    match kind {
      case 0x81 =>
        var item := DEFAULT_ITEM;
        if status == STATUS_OK {
          item := ReadItem(r);
        }
        body := GetItemResult(status, item);
        acceptable := ItemWithinLimits(item);
      case 0x82 =>
        body := PutItemResult(status);
      case 0x83 =>
        body := DeleteItemResult(status);
      case 0x84 =>
        var stats := ReadStats(r);
        StatsRoundTrip(stats);
        body := StatsResult(status, stats);
      case 0x85 =>
        var count := r.U32();
        if r.failed || count > MAX_RECOMMEND {
          return Err(if r.failed then Truncated else FieldTooLarge, Some(id));
        }
        var items := ReadRankedList(r, count);
        body := RecommendResult(status, items);
      case _ =>
        var message := r.String();
        body := Failure(status, message);
        acceptable := |message| <= MAX_MESSAGE;
    }
    var error := Finish(r);
    if error.Some? {
      return Err(error.value, Some(id));
    }
    if !acceptable {
      return Err(FieldTooLarge, Some(id));
    }
    return Ok(body);
  }

  /** The decoder's answer, case by case. */
  lemma ResponseCases(b: Bytes)
    ensures match ParseHeader(b)
            case HeaderErr(error) => DecodeResponse(b) == Err(error, None)
            case HeaderOk(kind, id, rest) =>
              if !IsResponseType(kind) then DecodeResponse(b) == Err(WrongDirection, None)
              else
                && (0x81 <= kind <= 0x85 || kind == 0xFF)
                && var p := ParseResponseBody(kind, rest);
                   (match Complete(p, id, ResponseAcceptable(p))
                    case Err(error, x) => DecodeResponse(b) == Err(error, x)
                    case Ok(value) => DecodeResponse(b) == Ok(Response(id, value)))
  {
    hide ParseResponseBody;
    hide ResponseAcceptable;
    hide Complete;
  }

  method DecodeReply(body: Bytes) returns (d: Decoded<Response>)
    ensures d == DecodeResponse(body)
  {
    hide *;
    ResponseCases(body);
    var r := new ByteReader(body);
    var h := DecodeHeader(r);
    if h.HeaderErr? {
      return Err(h.error, None);
    }
    if !IsResponseType(h.kind) {
      return Err(WrongDirection, None);
    }
    var payload := DecodeResponseBody(r, h.kind, h.id);
    match payload {
      case Err(error, id) => return Err(error, id);
      case Ok(value) => return Ok(Response(h.id, value));
    }
  }
}
