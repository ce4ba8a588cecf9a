/** What the decoder reports of a message that was cut short, or that goes the other
    way. */
module Truncation {
  import opened Words
  import opened Wire
  import opened Messages
  import opened Fields
  import opened Codec

  // More input never makes a count or length small enough.

  lemma {:induction false} AffinitiesStayTooBig(b: Bytes, n: nat, x: Bytes)
    requires ParseAffinities(b, n).TooBig?
    ensures ParseAffinities(b + x, n).TooBig?
    decreases n
  {
    hide ParseU64;
    hide ParseText;
    var category := ParseText(b);
    TextLaws(b, x);
    U64Laws(category.rest, x);
    if |category.value| <= MAX_CATEGORY { AffinitiesStayTooBig(ParseU64(category.rest).rest, n - 1, x); }
  }

  lemma {:induction false} TextsStayTooBig(b: Bytes, n: nat, x: Bytes)
    requires ParseTexts(b, n).TooBig?
    ensures ParseTexts(b + x, n).TooBig?
    decreases n
  {
    hide ParseText;
    var text := ParseText(b);
    TextLaws(b, x);
    if |text.value| <= MAX_CATEGORY { TextsStayTooBig(text.rest, n - 1, x); }
  }

  lemma SignalStaysTooBig(b: Bytes, x: Bytes)
    requires ParseSignal(b).TooBig?
    ensures ParseSignal(b + x).TooBig?
  {
    hide ParseU32;
    hide ParseAffinities;
    hide ParseTexts;
    var n := ParseU32(b);
    U32Laws(b, x);
    if n.value <= MAX_AFFINITIES {
      var s := ParseAffinities(n.rest, n.value);
      if s.TooBig? {
        AffinitiesStayTooBig(n.rest, n.value, x);
      } else {
        AffinitiesLaws(n.rest, n.value, x);
        var m := ParseU32(s.rest);
        U32Laws(s.rest, x);
        if m.value <= MAX_EXCLUDED { TextsStayTooBig(m.rest, m.value, x); }
      }
    }
  }

  lemma RequestStaysTooBig(kind: u8, b: Bytes, x: Bytes)
    requires 0x01 <= kind <= 0x05 && ParseRequestBody(kind, b).TooBig?
    ensures ParseRequestBody(kind, b + x).TooBig?
  {
    hide ParseU64;
    hide ParseU32;
    hide ParseU8;
    hide ParseItem;
    hide ParseSignal;
    SignalStaysTooBig(b, x);
  }

  lemma ResponseStaysTooBig(kind: u8, b: Bytes, x: Bytes)
    requires 0x81 <= kind <= 0x85 || kind == 0xFF
    requires ParseResponseBody(kind, b).TooBig?
    ensures ParseResponseBody(kind, b + x).TooBig?
  {
    hide ParseU8;
    hide ParseU32;
    hide ParseItem;
    hide ParseText;
    hide ParseWords;
    hide ParseRankedList;
    U8Laws(b, x);
    U32Laws(ParseU8(b).rest, x);
  }

  /** A header cut within its sixteen bytes is truncated; behind them it reads as it
      did. */
  lemma CutHeader(b: Bytes, k: nat)
    requires ParseHeader(b).HeaderOk? && k < |b|
    ensures |b| >= 16
    ensures var h := ParseHeader(b);
            && h.rest == b[16..]
            && ParseHeader(b[..k]) == if k < 16 then HeaderErr(Truncated) else HeaderOk(h.kind, h.id, b[16..k])
  {
    hide ParseHeader;
    hide FromBigEndian;
    HeaderByOffset(b);
    HeaderByOffset(b[..k]);
    assert k >= 4 ==> b[..k][..4] == b[..4];
    assert k >= 16 ==> b[..k][6..8] == b[6..8] && b[..k][8..16] == b[8..16] && b[..k][16..] == b[16..k];
  }

  /** A request that was accepted, cut anywhere, is reported as truncated, under its
      id as soon as the header is whole. */
  lemma CutRequestIsTruncated(b: Bytes, k: nat)
    requires DecodeRequest(b).Ok? && k < |b|
    ensures DecodeRequest(b[..k]) == Err(Truncated, if k < 16 then None else Some(DecodeRequest(b).value.id))
  {
    hide ParseHeader;
    hide ParseRequestBody;
    CutHeader(b, k);
    if k >= 16 {
      var kind, a, x := ParseHeader(b).kind, b[16..k], b[k..];
      assert a + x == b[16..] && x != [];
      if ParseRequestBody(kind, a).TooBig? {
        RequestStaysTooBig(kind, a, x);
        assert false;
      } else if ParseRequestBody(kind, a).Got? {
        RequestBodyLaws(kind, a, x);
        assert false;
      }
    }
  }

  /** The same for responses. */
  lemma CutResponseIsTruncated(b: Bytes, k: nat)
    requires DecodeResponse(b).Ok? && k < |b|
    ensures DecodeResponse(b[..k]) == Err(Truncated, if k < 16 then None else Some(DecodeResponse(b).value.id))
  {
    hide ParseHeader;
    hide ParseResponseBody;
    CutHeader(b, k);
    if k >= 16 {
      var kind, a, x := ParseHeader(b).kind, b[16..k], b[k..];
      assert a + x == b[16..] && x != [];
      if ParseResponseBody(kind, a).TooBig? {
        ResponseStaysTooBig(kind, a, x);
        assert false;
      } else if ParseResponseBody(kind, a).Got? {
        ResponseBodyLaws(kind, a, x);
        assert false;
      }
    }
  }

  /** A response sent where a request belongs is recognised by its type alone, and
      the other way round. */
  lemma WrongWayIsRecognised(r: Request, s: Response)
    ensures DecodeRequest(EncodeResponse(s)) == Err(WrongDirection, None)
    ensures DecodeResponse(EncodeRequest(r)) == Err(WrongDirection, None)
  {
    hide ParseHeader;
    hide WithHeader;
    hide ParseRequestBody;
    hide ParseResponseBody;
    hide WithRequestBody;
    hide WithResponseBody;
    HeaderRoundTrip(ResponseType(s.body), s.id, WithResponseBody(s.body, []));
    HeaderRoundTrip(RequestType(r.body), r.id, WithRequestBody(r.body, []));
  }
}
