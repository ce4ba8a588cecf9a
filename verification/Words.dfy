/** Machine words, and the two facts about them that the daemon's sharding needs. */
module Words {
  const TWO_TO_32: int := 0x1_0000_0000
  const TWO_TO_63: int := 0x8000_0000_0000_0000
  const TWO_TO_64: int := 0x1_0000_0000_0000_0000

  type u8 = x: int | 0 <= x < 0x100
  type u16 = x: int | 0 <= x < 0x1_0000
  type u32 = x: int | 0 <= x < 0x1_0000_0000
  type u64 = x: int | 0 <= x < 0x1_0000_0000_0000_0000
  type i64 = x: int | -0x8000_0000_0000_0000 <= x < 0x8000_0000_0000_0000

  /** A `std::string`: bytes, with no encoding. */
  type Text = seq<u8>

  datatype Option<+T> = None | Some(value: T)

  /** `static_cast<std::uint64_t>` of a signed 64-bit count. */
  function ToUnsigned(x: i64): u64 {
    if x < 0 then x + TWO_TO_64 else x
  }
}

/** Shard routing: a power-of-two shard count, and `hash & (count - 1)`. */
module Routing {
  import opened Arith

  /** Bitwise "and" of two naturals. */
  function BitAnd(a: nat, b: nat): nat {
    if a == 0 || b == 0 then 0 else (a % 2) * (b % 2) + 2 * BitAnd(a / 2, b / 2)
  }

  function PopCount(n: nat): nat {
    if n == 0 then 0 else n % 2 + PopCount(n / 2)
  }

  /** `std::has_single_bit`. */
  predicate HasSingleBit(n: nat) {
    PopCount(n) == 1
  }

  lemma {:induction false} SingleBitPositive(n: nat)
    requires PopCount(n) == 0
    ensures n == 0
  {
    if n != 0 { SingleBitPositive(n / 2); }
  }

  lemma HalvedRemainder(h: nat, m: nat)
    requires 0 < m
    ensures h % (2 * m) == h % 2 + 2 * (h / 2 % m)
  {
    var half := h / 2;
    var q, r := half / m, half % m;
    assert half == q * m + r;
    assert q * (2 * m) == 2 * (q * m);
    DivisionIsUnique(h, 2 * m, q, 2 * r + h % 2);
  }

  /** Masking with a power-of-two count less one is the remainder by that count,
      so it always names a shard that exists. */
  lemma {:induction false} MaskIsRemainder(hash: nat, count: nat)
    requires HasSingleBit(count)
    ensures 0 < count && BitAnd(hash, count - 1) == hash % count < count
    decreases count
  {
    if count % 2 == 1 {
      SingleBitPositive(count / 2);
    } else {
      var half := count / 2;
      MaskIsRemainder(hash / 2, half);
      HalvedRemainder(hash, half);
      MaskStep(hash, half);
    }
  }

  lemma MaskStep(hash: nat, half: nat)
    requires 0 < half
    ensures BitAnd(hash, 2 * half - 1) == hash % 2 + 2 * BitAnd(hash / 2, half - 1)
  {
    assert (2 * half - 1) % 2 == 1 && (2 * half - 1) / 2 == half - 1;
  }

  /** Where a key goes: its mixed hash, masked. */
  function Route<K>(hash: K -> nat, count: nat, k: K): (i: nat)
    requires HasSingleBit(count)
    ensures i < count
  {
    MaskIsRemainder(hash(k), count);
    BitAnd(hash(k), count - 1)
  }

  /** Keys share a shard exactly if their hashes leave the same remainder, so every
      shard gets its part of the hashes. */
  lemma RouteIsRemainder<K>(hash: K -> nat, count: nat, k: K, k': K)
    requires HasSingleBit(count)
    ensures 0 < count && Route(hash, count, k) == hash(k) % count
    ensures Route(hash, count, k) == Route(hash, count, k') <==> hash(k) % count == hash(k') % count
  {
    MaskIsRemainder(hash(k), count);
    MaskIsRemainder(hash(k'), count);
  }
}
