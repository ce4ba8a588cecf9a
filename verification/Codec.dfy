/** The binary codec: whole messages, header first, and every payload consumed
    exactly. */
module Codec {
  import opened Words
  import opened Wire
  import opened Messages
  import opened Fields

  // -------------------------------------------------------------------------
  // Header
  // -------------------------------------------------------------------------

  datatype Header = HeaderOk(kind: u8, id: u64, rest: Bytes) | HeaderErr(error: DecodeError)

  datatype RawHeader = RawHeader(version: u8, kind: u8, flags: u16, id: u64)

  function WithHeader(kind: u8, id: u64, tail: Bytes): Bytes {
    WithU32(MAGIC, WithRawHeader(RawHeader(VERSION, kind, 0, id), tail))
  }

  function WithRawHeader(h: RawHeader, tail: Bytes): Bytes {
    WithU8(h.version, WithU8(h.kind, WithU16(h.flags, WithU64(h.id, tail))))
  }

  function ParseRawHeader(b: Bytes): Parsed<RawHeader> {
    var (version, b) :- ParseU8(b);
    var (kind, b) :- ParseU8(b);
    var (flags, b) :- ParseU16(b);
    var (id, b) :- ParseU64(b);
    Got(RawHeader(version, kind, flags, id), b)
  }

  /** The order of the checks is the order of the errors. */
  function ParseHeader(b: Bytes): (h: Header)
    ensures h.HeaderOk? ==> IsKnownType(h.kind)
  {
    var magic := ParseU32(b);
    if !magic.Got? then HeaderErr(Truncated)
    else if magic.value != MAGIC then HeaderErr(BadMagic)
    else
      var raw := ParseRawHeader(magic.rest);
      if !raw.Got? then HeaderErr(Truncated)
      else if raw.value.version != VERSION then HeaderErr(UnsupportedVersion)
      else if raw.value.flags != 0 then HeaderErr(ReservedFlags)
      else if !IsKnownType(raw.value.kind) then HeaderErr(UnknownType)
      else HeaderOk(raw.value.kind, raw.value.id, raw.rest)
  }

  lemma RawHeaderRoundTrip(h: RawHeader, tail: Bytes)
    ensures ParseRawHeader(WithRawHeader(h, tail)) == Got(h, tail)
  {
    hide ParseU8;
    hide ParseU16;
    hide ParseU64;
    hide WithU8;
    hide WithU16;
    hide WithU64;
    var t3 := WithU64(h.id, tail);
    var t2 := WithU16(h.flags, t3);
    U8RoundTrip(h.version, WithU8(h.kind, t2));
    U8RoundTrip(h.kind, t2);
    U16RoundTrip(h.flags, t3);
    U64RoundTrip(h.id, tail);
  }

  lemma RawHeaderLaws(b: Bytes, x: Bytes)
    requires ParseRawHeader(b).Got?
    ensures var p := ParseRawHeader(b);
            b == WithRawHeader(p.value, p.rest) && ParseRawHeader(b + x) == Got(p.value, p.rest + x)
  {
    hide ParseU8;
    hide ParseU16;
    hide ParseU64;
    hide WithU8;
    hide WithU16;
    hide WithU64;
    var b1 := ParseU8(b).rest;
    var b2 := ParseU8(b1).rest;
    var b3 := ParseU16(b2).rest;
    U8Laws(b, x);
    U8Laws(b1, x);
    U16Laws(b2, x);
    U64Laws(b3, x);
  }

  lemma HeaderRoundTrip(kind: u8, id: u64, tail: Bytes)
    requires IsKnownType(kind)
    ensures ParseHeader(WithHeader(kind, id, tail)) == HeaderOk(kind, id, tail)
  {
    hide ParseU32;
    hide WithU32;
    hide ParseRawHeader;
    hide WithRawHeader;
    var raw := RawHeader(VERSION, kind, 0, id);
    U32RoundTrip(MAGIC, WithRawHeader(raw, tail));
    RawHeaderRoundTrip(raw, tail);
  }

  lemma HeaderLaws(b: Bytes, x: Bytes)
    requires ParseHeader(b).HeaderOk?
    ensures var h := ParseHeader(b);
            && IsKnownType(h.kind) && b == WithHeader(h.kind, h.id, h.rest)
            && ParseHeader(b + x) == HeaderOk(h.kind, h.id, h.rest + x)
  {
    hide ParseU32;
    hide WithU32;
    hide ParseRawHeader;
    hide WithRawHeader;
    U32Laws(b, x);
    RawHeaderLaws(ParseU32(b).rest, x);
  }

  lemma RawHeaderByOffset(b: Bytes)
    ensures |b| < 12 ==> ParseRawHeader(b).Short?
    ensures |b| >= 12 ==>
              && FromBigEndian(b[2..4]) < 0x1_0000 && FromBigEndian(b[4..12]) < TWO_TO_64
              && ParseRawHeader(b) == Got(RawHeader(b[0], b[1], FromBigEndian(b[2..4]), FromBigEndian(b[4..12])), b[12..])
  {
    hide FromBigEndian;
    hide Pow256;
    if |b| >= 12 {
      OneByte(b);
      OneByte(b[1..]);
      assert b[1..][1..] == b[2..] && b[2..][..2] == b[2..4] && b[2..][2..] == b[4..];
      assert b[4..][..8] == b[4..12] && b[4..][8..] == b[12..];
      WordSizes();
      FromBigEndianBound(b[2..4]);
      FromBigEndianBound(b[4..12]);
    }
  }

  lemma OneByte(b: Bytes)
    requires b != []
    ensures ParseU8(b) == Got(b[0], b[1..])
  {
    assert FromBigEndian([b[0]]) == FromBigEndian([]) * 256 + b[0] by { assert [b[0]][..0] == []; }
    assert b[..1] == [b[0]];
  }

  /** The header read by byte offsets. */
  function HeaderAt(b: Bytes): Header {
    if |b| < 4 then HeaderErr(Truncated)
    else if FromBigEndian(b[..4]) != MAGIC then HeaderErr(BadMagic)
    else if |b| < 16 then HeaderErr(Truncated)
    else if b[4] != VERSION then HeaderErr(UnsupportedVersion)
    else if FromBigEndian(b[6..8]) != 0 then HeaderErr(ReservedFlags)
    else if !IsKnownType(b[5]) then HeaderErr(UnknownType)
    else
      FromBigEndianBound(b[8..16]);
      WordSizes();
      HeaderOk(b[5], FromBigEndian(b[8..16]), b[16..])
  }

  /** Which fault of a header is reported, and what a good one says. */
  lemma HeaderByOffset(b: Bytes)
    ensures ParseHeader(b) == HeaderAt(b)
  {
    hide FromBigEndian;
    hide ParseRawHeader;
    if |b| >= 4 {
      RawHeaderByOffset(b[4..]);
      if |b| >= 16 {
        assert b[4..][2..4] == b[6..8] && b[4..][4..12] == b[8..16] && b[4..][12..] == b[16..];
      }
    }
  }

  /** `finish`, and the limits that are checked once the payload is complete. */
  function Complete<T>(p: Parsed<T>, id: u64, acceptable: bool): Decoded<T> {
    match p
    case Short => Err(Truncated, Some(id))
    case TooBig => Err(FieldTooLarge, Some(id))
    case Got(value, rest) =>
      if rest != [] then Err(TrailingBytes, Some(id))
      else if !acceptable then Err(FieldTooLarge, Some(id))
      else Ok(value)
  }

  // -------------------------------------------------------------------------
  // Requests
  // -------------------------------------------------------------------------

  function WithRequestBody(body: RequestBody, tail: Bytes): Bytes {
    match body
    case GetItem(id) => WithU64(id, tail)
    case PutItem(item) => WithItem(item, tail)
    case DeleteItem(id) => WithU64(id, tail)
    case GetStats => tail
    case Recommend(signal, count, dryRun) =>
      WithRecommend(RawRecommend(signal, count, if dryRun then 1 else 0), tail)
  }

  function ParseRequestBody(kind: u8, b: Bytes): Parsed<RequestBody>
    requires 0x01 <= kind <= 0x05
  {
    match kind
    case 1 => var (id, b) :- ParseU64(b); Got(GetItem(id), b)
    case 2 => var (item, b) :- ParseItem(b); Got(PutItem(item), b)
    case 3 => var (id, b) :- ParseU64(b); Got(DeleteItem(id), b)
    case 4 => Got(GetStats, b)
    case _ => var (raw, b) :- ParseRecommend(b); Got(Recommend(raw.signal, raw.count, raw.dryByte != 0), b)
  }

  predicate RequestAcceptable(p: Parsed<RequestBody>) {
    match p
    case Got(PutItem(item), _) => ItemWithinLimits(item)
    case Got(Recommend(_, count, _), _) => count <= MAX_RECOMMEND
    case _ => true
  }

  function EncodeRequest(r: Request): Bytes {
    WithHeader(RequestType(r.body), r.id, WithRequestBody(r.body, []))
  }

  function DecodeRequest(b: Bytes): Decoded<Request> {
    match ParseHeader(b)
    case HeaderErr(error) => Err(error, None)
    case HeaderOk(kind, id, rest) =>
      if IsResponseType(kind) then Err(WrongDirection, None)
      else
        var p := ParseRequestBody(kind, rest);
        match Complete(p, id, RequestAcceptable(p))
        case Err(error, id) => Err(error, id)
        case Ok(body) => Ok(Request(id, body))
  }

  lemma RequestBodyRoundTrip(r: Request, tail: Bytes)
    requires RequestFits(r)
    ensures ParseRequestBody(RequestType(r.body), WithRequestBody(r.body, tail))
         == if r.body.Recommend? && !SignalWithinLimits(r.body.signal) then TooBig else Got(r.body, tail)
  {
    hide ParseU64;
    hide ParseItem;
    hide ParseRecommend;
    hide WithU64;
    hide WithItem;
    hide WithRecommend;
    match r.body
    case GetItem(id) => U64RoundTrip(id, tail);
    case PutItem(item) => ItemRoundTrip(item, tail);
    case DeleteItem(id) => U64RoundTrip(id, tail);
    case GetStats =>
    case Recommend(signal, count, dryRun) =>
      RecommendRoundTrip(RawRecommend(signal, count, if dryRun then 1 else 0), tail);
  }

  /** Round trip with total classification: a request whose lengths fit 32 bits
      decodes to itself if it is within the limits, and otherwise to
      FieldTooLarge with its id kept. */
  lemma RequestRoundTrip(r: Request)
    requires RequestFits(r)
    ensures DecodeRequest(EncodeRequest(r))
         == if RequestWithinLimits(r) then Ok(r) else Err(FieldTooLarge, Some(r.id))
  {
    hide ParseHeader;
    hide WithHeader;
    hide ParseRequestBody;
    hide WithRequestBody;
    HeaderRoundTrip(RequestType(r.body), r.id, WithRequestBody(r.body, []));
    RequestBodyRoundTrip(r, []);
  }

  lemma RequestBodyLaws(kind: u8, b: Bytes, x: Bytes)
    requires 0x01 <= kind <= 0x05 && ParseRequestBody(kind, b).Got?
    ensures var p := ParseRequestBody(kind, b);
            && RequestType(p.value) == kind
            && ParseRequestBody(kind, b + x) == Got(p.value, p.rest + x)
            && (!p.value.Recommend? ==> b == WithRequestBody(p.value, p.rest))
            && (p.value.Recommend? ==>
                  && ParseRecommend(b).Got?
                  && var raw := ParseRecommend(b).value;
                     && b == WithRecommend(raw, p.rest)
                     && p.value == Recommend(raw.signal, raw.count, raw.dryByte != 0))
  {
    hide ParseU64;
    hide ParseItem;
    hide ParseRecommend;
    hide WithU64;
    hide WithItem;
    hide WithRecommend;
    match kind
    case 1 => U64Laws(b, x);
    case 2 => ItemLaws(b, x);
    case 3 => U64Laws(b, x);
    case 4 =>
    case _ => RecommendLaws(b, x);
  }

  /** No accepted body is a strict prefix of another: whatever is added to an
      accepted body makes it one with trailing bytes. */
  lemma RequestsArePrefixFree(b: Bytes, x: Bytes)
    requires DecodeRequest(b).Ok? && x != []
    ensures DecodeRequest(b + x) == Err(TrailingBytes, Some(DecodeRequest(b).value.id))
  {
    hide ParseHeader;
    hide ParseRequestBody;
    HeaderLaws(b, x);
    var h := ParseHeader(b);
    RequestBodyLaws(h.kind, h.rest, x);
    assert ParseRequestBody(h.kind, h.rest).rest == [];
    assert [] + x == x;
  }

  /** So an accepted body cut short anywhere is rejected. */
  lemma TruncatedRequestIsRejected(b: Bytes, k: nat)
    requires DecodeRequest(b).Ok? && k < |b|
    ensures DecodeRequest(b[..k]).Err?
  {
    hide DecodeRequest;
    var a, x := b[..k], b[k..];
    assert a + x == b;
    if DecodeRequest(a).Ok? {
      RequestsArePrefixFree(a, x);
      assert false;
    }
  }

  // -------------------------------------------------------------------------
  // Responses
  // -------------------------------------------------------------------------

  function WithResponseBody(body: ResponseBody, tail: Bytes): Bytes {
    match body
    case GetItemResult(status, item) => WithU8(status, if status == STATUS_OK then WithItem(item, tail) else tail)
    case PutItemResult(status) => WithU8(status, tail)
    case DeleteItemResult(status) => WithU8(status, tail)
    case StatsResult(status, stats) => WithU8(status, WithWords(StatsWords(stats), tail))
    case RecommendResult(status, items) =>
      WithU8(status, WithU32(|items| % TWO_TO_32, WithRankedList(items, tail)))
    case Failure(status, message) => WithU8(status, WithText(message, tail))
  }

  function ParseItems(b: Bytes): Parsed<seq<Ranked>> {
    var (count, b) :- ParseU32(b);
    if count > MAX_RECOMMEND then TooBig else ParseRankedList(b, count)
  }

  function ParsePayload(kind: u8, status: u8, b: Bytes): Parsed<ResponseBody>
    requires 0x81 <= kind <= 0x85 || kind == 0xFF
  {
    match kind
    case 0x81 =>
      if status == STATUS_OK then var (item, b) :- ParseItem(b); Got(GetItemResult(status, item), b)
      else Got(GetItemResult(status, DEFAULT_ITEM), b)
    case 0x82 => Got(PutItemResult(status), b)
    case 0x83 => Got(DeleteItemResult(status), b)
    case 0x84 => var (words, b) :- ParseWords(b, 15); Got(StatsResult(status, WordsStats(words)), b)
    case 0x85 => var (items, b) :- ParseItems(b); Got(RecommendResult(status, items), b)
    case _ => var (message, b) :- ParseText(b); Got(Failure(status, message), b)
  }

  function ParseResponseBody(kind: u8, b: Bytes): Parsed<ResponseBody>
    requires 0x81 <= kind <= 0x85 || kind == 0xFF
  {
    var (status, b) :- ParseU8(b);
    ParsePayload(kind, status, b)
  }

  predicate ResponseAcceptable(p: Parsed<ResponseBody>) {
    match p
    case Got(GetItemResult(_, item), _) => ItemWithinLimits(item)
    case Got(Failure(_, message), _) => |message| <= MAX_MESSAGE
    case _ => true
  }

  function EncodeResponse(r: Response): Bytes {
    WithHeader(ResponseType(r.body), r.id, WithResponseBody(r.body, []))
  }

  function DecodeResponse(b: Bytes): Decoded<Response> {
    match ParseHeader(b)
    case HeaderErr(error) => Err(error, None)
    case HeaderOk(kind, id, rest) =>
      if !IsResponseType(kind) then Err(WrongDirection, None)
      else
        var p := ParseResponseBody(kind, rest);
        match Complete(p, id, ResponseAcceptable(p))
        case Err(error, id) => Err(error, id)
        case Ok(body) => Ok(Response(id, body))
  }

  /** The item of an answer that is not Ok is not carried. */
  function Carried(body: ResponseBody): ResponseBody {
    if body.GetItemResult? && body.status != STATUS_OK then GetItemResult(body.status, DEFAULT_ITEM) else body
  }

  lemma {:induction false} ItemsRoundTrip(items: seq<Ranked>, tail: Bytes)
    requires |items| < TWO_TO_32 && RankedFits(items)
    ensures ParseItems(WithU32(|items| % TWO_TO_32, WithRankedList(items, tail)))
         == if |items| <= MAX_RECOMMEND then Got(items, tail) else TooBig
  {
    hide ParseU32;
    hide WithU32;
    hide ParseRankedList;
    hide WithRankedList;
    U32RoundTrip(|items|, WithRankedList(items, tail));
    RankedListRoundTrip(items, tail);
    hide RankedFits;
  }

  lemma ItemsLaws(b: Bytes, x: Bytes)
    requires ParseItems(b).Got?
    ensures var p := ParseItems(b);
            && |p.value| <= MAX_RECOMMEND
            && b == WithU32(|p.value|, WithRankedList(p.value, p.rest))
            && ParseItems(b + x) == Got(p.value, p.rest + x)
  {
    hide ParseU32;
    hide WithU32;
    hide ParseRankedList;
    U32Laws(b, x);
    var n := ParseU32(b);
    RankedListLaws(n.rest, n.value, x);
  }

  lemma PayloadRoundTrip(r: Response, tail: Bytes)
    requires ResponseFits(r)
    ensures ParseResponseBody(ResponseType(r.body), WithResponseBody(r.body, tail))
         == if r.body.RecommendResult? && |r.body.items| > MAX_RECOMMEND then TooBig else Got(Carried(r.body), tail)
  {
    hide ParseU8;
    hide ParseItem;
    hide ParseText;
    hide ParseItems;
    hide ParseWords;
    hide StatsWords;
    hide WordsStats;
    hide WithU8;
    hide WithItem;
    hide WithText;
    hide WithWords;
    match r.body
    case GetItemResult(status, item) =>
      U8RoundTrip(status, if status == STATUS_OK then WithItem(item, tail) else tail);
      ItemRoundTrip(item, tail);
    case PutItemResult(status) => U8RoundTrip(status, tail);
    case DeleteItemResult(status) => U8RoundTrip(status, tail);
    case StatsResult(status, stats) =>
      U8RoundTrip(status, WithWords(StatsWords(stats), tail));
      WordsRoundTrip(StatsWords(stats), tail);
      StatsRoundTrip(stats);
    case RecommendResult(status, items) =>
      U8RoundTrip(status, WithU32(|items| % TWO_TO_32, WithRankedList(items, tail)));
      ItemsRoundTrip(items, tail);
    case Failure(status, message) =>
      U8RoundTrip(status, WithText(message, tail));
      TextRoundTrip(message, tail);
  }

  /** The same for responses, up to the item that an unsuccessful GetItem answer
      does not carry. */
  lemma ResponseRoundTrip(r: Response)
    requires ResponseFits(r)
    ensures DecodeResponse(EncodeResponse(r))
         == if ResponseWithinLimits(r) then Ok(Response(r.id, Carried(r.body))) else Err(FieldTooLarge, Some(r.id))
  {
    hide ParseHeader;
    hide WithHeader;
    hide ParseResponseBody;
    hide WithResponseBody;
    HeaderRoundTrip(ResponseType(r.body), r.id, WithResponseBody(r.body, []));
    PayloadRoundTrip(r, []);
  }

  lemma PayloadLaws(kind: u8, status: u8, b: Bytes, x: Bytes)
    requires 0x81 <= kind <= 0x85 || kind == 0xFF
    requires ParsePayload(kind, status, b).Got?
    ensures var p := ParsePayload(kind, status, b);
            && ResponseType(p.value) == kind
            && ParsePayload(kind, status, b + x) == Got(p.value, p.rest + x)
            && WithU8(status, b) == WithResponseBody(p.value, p.rest)
  {
    hide ParseItem;
    hide ParseText;
    hide ParseItems;
    hide ParseWords;
    hide StatsWords;
    hide WithU8;
    hide WithItem;
    hide WithText;
    hide WithWords;
    match kind
    case 0x81 => if status == STATUS_OK { ItemLaws(b, x); }
    case 0x84 => WordsLaws(b, 15, x);
    case 0x85 => ItemsLaws(b, x);
    case 0xFF => TextLaws(b, x);
    case _ =>
  }

  lemma ResponseBodyLaws(kind: u8, b: Bytes, x: Bytes)
    requires 0x81 <= kind <= 0x85 || kind == 0xFF
    requires ParseResponseBody(kind, b).Got?
    ensures var p := ParseResponseBody(kind, b);
            && ResponseType(p.value) == kind && b == WithResponseBody(p.value, p.rest)
            && ParseResponseBody(kind, b + x) == Got(p.value, p.rest + x)
  {
    hide ParseU8;
    hide ParsePayload;
    hide WithResponseBody;
    hide WithU8;
    U8Laws(b, x);
    PayloadLaws(kind, ParseU8(b).value, ParseU8(b).rest, x);
  }

  lemma ResponsesArePrefixFree(b: Bytes, x: Bytes)
    requires DecodeResponse(b).Ok? && x != []
    ensures DecodeResponse(b + x) == Err(TrailingBytes, Some(DecodeResponse(b).value.id))
  {
    hide ParseHeader;
    hide ParseResponseBody;
    HeaderLaws(b, x);
    var h := ParseHeader(b);
    ResponseBodyLaws(h.kind, h.rest, x);
    assert ParseResponseBody(h.kind, h.rest).rest == [];
    assert [] + x == x;
  }

  /** Accepted response bodies are canonical: re-encoding gives the same bytes. */
  lemma ResponsesAreCanonical(b: Bytes)
    requires DecodeResponse(b).Ok?
    ensures EncodeResponse(DecodeResponse(b).value) == b
  {
    hide ParseHeader;
    hide WithHeader;
    hide ParseResponseBody;
    hide WithResponseBody;
    HeaderLaws(b, []);
    var h := ParseHeader(b);
    ResponseBodyLaws(h.kind, h.rest, []);
  }

  // -------------------------------------------------------------------------
  // Canonical up to the dry-run byte
  // -------------------------------------------------------------------------

  lemma UintAppend(v: nat, n: nat, tail: Bytes, x: Bytes)
    ensures WithUint(v, n, tail + x) == WithUint(v, n, tail) + x
  {
    assert BigEndian(v, n) + (tail + x) == BigEndian(v, n) + tail + x;
  }

  lemma TextAppend(t: Text, tail: Bytes, x: Bytes)
    ensures WithText(t, tail + x) == WithText(t, tail) + x
  {
    hide WithUint;
    assert t + (tail + x) == t + tail + x;
    UintAppend(|t| % TWO_TO_32, 4, t + tail, x);
  }

  lemma {:induction false} AffinitiesAppend(s: seq<Affinity>, tail: Bytes, x: Bytes)
    ensures WithAffinities(s, tail + x) == WithAffinities(s, tail) + x
  {
    if s != [] {
      hide WithText;
      hide WithUint;
      AffinitiesAppend(s[1..], tail, x);
      var rest := WithAffinities(s[1..], tail);
      UintAppend(s[0].weight, 8, rest, x);
      TextAppend(s[0].category, WithU64(s[0].weight, rest), x);
    }
  }

  lemma {:induction false} TextsAppend(s: seq<Text>, tail: Bytes, x: Bytes)
    ensures WithTexts(s, tail + x) == WithTexts(s, tail) + x
  {
    if s != [] {
      hide WithText;
      TextsAppend(s[1..], tail, x);
      TextAppend(s[0], WithTexts(s[1..], tail), x);
    }
  }

  lemma SignalAppend(s: Signal, tail: Bytes, x: Bytes)
    ensures WithSignal(s, tail + x) == WithSignal(s, tail) + x
  {
    hide WithUint;
    hide WithTexts;
    hide WithAffinities;
    TextsAppend(s.excluded, tail, x);
    var t1 := WithTexts(s.excluded, tail);
    UintAppend(|s.excluded| % TWO_TO_32, 4, t1, x);
    var t2 := WithU32(|s.excluded| % TWO_TO_32, t1);
    AffinitiesAppend(s.affinities, t2, x);
    UintAppend(|s.affinities| % TWO_TO_32, 4, WithAffinities(s.affinities, t2), x);
  }

  lemma HeaderAppend(kind: u8, id: u64, tail: Bytes, x: Bytes)
    ensures WithHeader(kind, id, tail + x) == WithHeader(kind, id, tail) + x
  {
    hide WithUint;
    UintAppend(id, 8, tail, x);
    var t1 := WithU64(id, tail);
    UintAppend(0, 2, t1, x);
    var t2 := WithU16(0, t1);
    UintAppend(kind, 1, t2, x);
    var t3 := WithU8(kind, t2);
    UintAppend(VERSION, 1, t3, x);
    UintAppend(MAGIC, 4, WithU8(VERSION, t3), x);
  }

  /** Everything of a recommendation request but its last byte. */
  function RecommendPrefix(id: u64, signal: Signal, count: u32): Bytes {
    WithHeader(0x05, id, WithSignal(signal, WithU32(count, [])))
  }

  lemma RecommendEnds(id: u64, r: RawRecommend)
    ensures WithHeader(0x05, id, WithRecommend(r, [])) == RecommendPrefix(id, r.signal, r.count) + [r.dryByte]
  {
    var x := WithU8(r.dryByte, []);
    assert x == [r.dryByte];
    hide WithU8;
    hide WithHeader;
    hide WithSignal;
    assert [] + x == x;
    UintAppend(r.count, 4, [], x);
    hide WithU32;
    SignalAppend(r.signal, WithU32(r.count, []), x);
    HeaderAppend(0x05, id, WithSignal(r.signal, WithU32(r.count, [])), x);
  }

  /** The canonical form of an accepted request: its last byte, if that is the
      dry-run flag, is 0 or 1. */
  function Canonical(b: Bytes): Bytes
    requires b != []
  {
    var last := |b| - 1;
    if DecodeRequest(b).Ok? && DecodeRequest(b).value.body.Recommend? && b[last] != 0
    then b[..last] + [1]
    else b
  }

  /** Re-encoding an accepted request gives the same bytes, except that a non-zero
      dry-run byte becomes 1. */
  lemma RequestsAreNearlyCanonical(b: Bytes)
    requires DecodeRequest(b).Ok?
    ensures b != [] && EncodeRequest(DecodeRequest(b).value) == Canonical(b)
  {
    hide ParseHeader;
    hide WithHeader;
    hide ParseRequestBody;
    hide ParseRecommend;
    hide WithRecommend;
    HeaderLaws(b, []);
    var h := ParseHeader(b);
    RequestBodyLaws(h.kind, h.rest, []);
    HeaderNonempty(h.kind, h.id, h.rest);
    var r := DecodeRequest(b).value;
    if r.body.Recommend? {
      hide DecodeRequest;
      var raw := ParseRecommend(h.rest).value;
      RecommendEnds(h.id, raw);
      RecommendEnds(h.id, RawRecommend(raw.signal, raw.count, if raw.dryByte != 0 then 1 else 0));
    }
  }

  lemma HeaderNonempty(kind: u8, id: u64, tail: Bytes)
    ensures |WithHeader(kind, id, tail)| == 16 + |tail|
  {
  }

  /** So two accepted byte strings with the same meaning differ at most in the
      value of a non-zero dry-run byte. */
  lemma MeaningIsUnique(a: Bytes, b: Bytes)
    requires DecodeRequest(a).Ok? && DecodeRequest(a) == DecodeRequest(b)
    ensures a != [] && b != [] && Canonical(a) == Canonical(b)
  {
    hide *;
    RequestsAreNearlyCanonical(a);
    RequestsAreNearlyCanonical(b);
  }
}
