/** The protocol's messages, as the binary codec carries them. Scores and weights
    are 64-bit patterns; a status is a raw byte. */
module Messages {
  import opened Words

  const MAGIC: u32 := 0x4C52_4431
  const VERSION: u8 := 3
  const MAX_CATEGORY := 64
  const MAX_ADVERTISER := 64
  const MAX_AFFINITIES := 64
  const MAX_EXCLUDED := 64
  const MAX_RECOMMEND := 100
  const MAX_MESSAGE := 1024

  const STATUS_OK: u8 := 0
  const STATUS_NOT_FOUND: u8 := 1
  const STATUS_INVALID: u8 := 2

  datatype Item = Item(
    id: u64, category: Text, advertiser: Text, score: u64, createdAt: i64, expiresAt: i64)

  const DEFAULT_ITEM := Item(0, [], [], 0, 0, 0)

  datatype Affinity = Affinity(category: Text, weight: u64)

  datatype Signal = Signal(affinities: seq<Affinity>, excluded: seq<Text>)

  datatype RequestBody =
    | GetItem(itemId: u64)
    | PutItem(item: Item)
    | DeleteItem(itemId: u64)
    | GetStats
    | Recommend(signal: Signal, count: u32, dryRun: bool)

  datatype Request = Request(id: u64, body: RequestBody)

  datatype Ranked = Ranked(id: u64, score: u64, category: Text, advertiser: Text)

  datatype Stats = Stats(
    requests: u64, gets: u64, puts: u64, deletes: u64, recommends: u64, hits: u64, misses: u64,
    evictions: u64, entries: u64, capacity: u64, policyAllowed: u64, policyExposureBlocked: u64,
    policyFrequencyBlocked: u64, policyStoreFull: u64, policyTracked: u64)

  datatype ResponseBody =
    | GetItemResult(status: u8, item: Item)
    | PutItemResult(status: u8)
    | DeleteItemResult(status: u8)
    | StatsResult(status: u8, stats: Stats)
    | RecommendResult(status: u8, items: seq<Ranked>)
    | Failure(status: u8, message: Text)

  datatype Response = Response(id: u64, body: ResponseBody)

  datatype DecodeError =
    | Truncated | BadMagic | UnsupportedVersion | ReservedFlags | UnknownType | WrongDirection
    | TrailingBytes | FieldTooLarge

  /** A decoded message, or an error with the request id if the header gave one. */
  datatype Decoded<T> = Ok(value: T) | Err(error: DecodeError, id: Option<u64>)

  function RequestType(body: RequestBody): u8 {
    match body
    case GetItem(_) => 0x01
    case PutItem(_) => 0x02
    case DeleteItem(_) => 0x03
    case GetStats => 0x04
    case Recommend(_, _, _) => 0x05
  }

  function ResponseType(body: ResponseBody): u8 {
    match body
    case GetItemResult(_, _) => 0x81
    case PutItemResult(_) => 0x82
    case DeleteItemResult(_) => 0x83
    case StatsResult(_, _) => 0x84
    case RecommendResult(_, _) => 0x85
    case Failure(_, _) => 0xFF
  }

  predicate IsKnownType(t: u8) {
    0x01 <= t <= 0x05 || 0x81 <= t <= 0x85 || t == 0xFF
  }

  predicate IsResponseType(t: u8) {
    t >= 0x80
  }

  predicate ItemWithinLimits(item: Item) {
    |item.category| <= MAX_CATEGORY && |item.advertiser| <= MAX_ADVERTISER
  }

  predicate SignalWithinLimits(s: Signal) {
    && |s.affinities| <= MAX_AFFINITIES && |s.excluded| <= MAX_EXCLUDED
    && (forall i :: 0 <= i < |s.affinities| ==> |s.affinities[i].category| <= MAX_CATEGORY)
    && (forall i :: 0 <= i < |s.excluded| ==> |s.excluded[i]| <= MAX_CATEGORY)
  }

  predicate RequestWithinLimits(r: Request) {
    match r.body
    case PutItem(item) => ItemWithinLimits(item)
    case Recommend(signal, count, _) => SignalWithinLimits(signal) && count <= MAX_RECOMMEND
    case _ => true
  }

  predicate ResponseWithinLimits(r: Response) {
    match r.body
    case GetItemResult(status, item) => status == STATUS_OK ==> ItemWithinLimits(item)
    case RecommendResult(_, items) => |items| <= MAX_RECOMMEND
    case Failure(_, message) => |message| <= MAX_MESSAGE
    case _ => true
  }

  /** Every string and list of the message has a length that fits 32 bits. */
  predicate ItemFits(item: Item) {
    |item.category| < TWO_TO_32 && |item.advertiser| < TWO_TO_32
  }

  predicate SignalFits(s: Signal) {
    && |s.affinities| < TWO_TO_32 && |s.excluded| < TWO_TO_32
    && (forall i :: 0 <= i < |s.affinities| ==> |s.affinities[i].category| < TWO_TO_32)
    && (forall i :: 0 <= i < |s.excluded| ==> |s.excluded[i]| < TWO_TO_32)
  }

  predicate RequestFits(r: Request) {
    match r.body
    case PutItem(item) => ItemFits(item)
    case Recommend(signal, _, _) => SignalFits(signal)
    case _ => true
  }

  predicate RankedFits(items: seq<Ranked>) {
    forall i :: 0 <= i < |items| ==> |items[i].category| < TWO_TO_32 && |items[i].advertiser| < TWO_TO_32
  }

  predicate ResponseFits(r: Response) {
    match r.body
    case GetItemResult(_, item) => ItemFits(item)
    case RecommendResult(_, items) => |items| < TWO_TO_32 && RankedFits(items)
    case Failure(_, message) => |message| < TWO_TO_32
    case _ => true
  }
}
