/** Bytes on the wire: big-endian integers and length-prefixed strings. Encodings
    are written in front of a tail, which is how they compose; parsers return
    what they read and the rest. */
module Wire {
  import opened Words

  type Bytes = seq<u8>

  /** What a parser makes of its input: a value and the rest, or not enough bytes,
      or a count or length over its limit. */
  datatype Parsed<+T> = Got(value: T, rest: Bytes) | Short | TooBig {
    predicate IsFailure() {
      !Got?
    }

    function PropagateFailure<U>(): Parsed<U>
      requires IsFailure()
    {
      if Short? then Short else TooBig
    }

    function Extract(): (T, Bytes)
      requires Got?
    {
      (value, rest)
    }
  }

  function Pow256(n: nat): (r: nat)
    ensures r > 0
  {
    if n == 0 then 1 else 256 * Pow256(n - 1)
  }

  /** The low `n` bytes of `v`, most significant first. */
  function BigEndian(v: nat, n: nat): (r: Bytes)
    ensures |r| == n
  {
    if n == 0 then [] else BigEndian(v / 256, n - 1) + [v % 256]
  }

  function FromBigEndian(s: Bytes): nat {
    if s == [] then 0 else FromBigEndian(s[..|s| - 1]) * 256 + s[|s| - 1]
  }

  lemma {:induction false} FromBigEndianBound(s: Bytes)
    ensures FromBigEndian(s) < Pow256(|s|)
  {
    if s != [] { FromBigEndianBound(s[..|s| - 1]); }
  }

  lemma {:induction false} BigEndianRoundTrip(v: nat, n: nat)
    requires v < Pow256(n)
    ensures FromBigEndian(BigEndian(v, n)) == v
  {
    if n > 0 {
      BigEndianRoundTrip(v / 256, n - 1);
      var s := BigEndian(v, n);
      assert s[..n - 1] == BigEndian(v / 256, n - 1);
    }
  }

  lemma {:induction false} BigEndianExact(s: Bytes)
    ensures BigEndian(FromBigEndian(s), |s|) == s
  {
    if s != [] {
      var n := |s| - 1;
      BigEndianExact(s[..n]);
      var v := FromBigEndian(s);
      assert v / 256 == FromBigEndian(s[..n]) && v % 256 == s[n];
      assert s == s[..n] + [s[n]];
    }
  }

  lemma WordSizes()
    ensures Pow256(1) == 0x100 && Pow256(2) == 0x1_0000 && Pow256(4) == TWO_TO_32 && Pow256(8) == TWO_TO_64
  {
    assert Pow256(3) == 256 * Pow256(2) && Pow256(4) == 256 * Pow256(3);
    assert Pow256(5) == 256 * Pow256(4) && Pow256(6) == 256 * Pow256(5) && Pow256(7) == 256 * Pow256(6);
  }

  // -------------------------------------------------------------------------
  // Integers
  // -------------------------------------------------------------------------

  function WithUint(v: nat, n: nat, tail: Bytes): Bytes {
    BigEndian(v, n) + tail
  }

  function ParseUint(b: Bytes, n: nat): (p: Parsed<nat>)
    ensures !p.TooBig?
  {
    if |b| < n then Short else Got(FromBigEndian(b[..n]), b[n..])
  }

  lemma {:induction false} UintRoundTrip(v: nat, n: nat, tail: Bytes)
    requires v < Pow256(n)
    ensures ParseUint(WithUint(v, n, tail), n) == Got(v, tail)
  {
    BigEndianRoundTrip(v, n);
    var b := WithUint(v, n, tail);
    assert b[..n] == BigEndian(v, n) && b[n..] == tail;
  }

  lemma {:induction false} UintExact(b: Bytes, n: nat)
    requires ParseUint(b, n).Got?
    ensures var p := ParseUint(b, n); p.value < Pow256(n) && b == WithUint(p.value, n, p.rest)
  {
    FromBigEndianBound(b[..n]);
    BigEndianExact(b[..n]);
    assert b == b[..n] + b[n..];
  }

  lemma UintExtends(b: Bytes, n: nat, x: Bytes)
    requires ParseUint(b, n).Got?
    ensures ParseUint(b + x, n) == Got(ParseUint(b, n).value, ParseUint(b, n).rest + x)
  {
    assert (b + x)[..n] == b[..n] && (b + x)[n..] == b[n..] + x;
  }

  // -------------------------------------------------------------------------
  // Strings: a 32-bit length, then the bytes
  // -------------------------------------------------------------------------

  /** The length is cast to 32 bits. */
  function WithText(t: Text, tail: Bytes): Bytes {
    WithUint(|t| % TWO_TO_32, 4, t + tail)
  }

  /** The length is checked against what is left before anything is taken. */
  function ParseText(b: Bytes): (p: Parsed<Text>)
    ensures !p.TooBig?
  {
    var (length, rest) :- ParseUint(b, 4);
    if |rest| < length then Short else Got(rest[..length], rest[length..])
  }

  lemma TextRoundTrip(t: Text, tail: Bytes)
    requires |t| < TWO_TO_32
    ensures ParseText(WithText(t, tail)) == Got(t, tail)
  {
    WordSizes();
    UintRoundTrip(|t|, 4, t + tail);
    assert |t| % TWO_TO_32 == |t|;
    hide WithUint;
    hide ParseUint;
    assert (t + tail)[..|t|] == t && (t + tail)[|t|..] == tail;
  }

  lemma TextExact(b: Bytes)
    requires ParseText(b).Got?
    ensures var p := ParseText(b); |p.value| < TWO_TO_32 && b == WithText(p.value, p.rest)
  {
    WordSizes();
    UintExact(b, 4);
    var p := ParseUint(b, 4);
    assert p.rest == p.rest[..p.value] + p.rest[p.value..];
  }

  lemma TextExtends(b: Bytes, x: Bytes)
    requires ParseText(b).Got?
    ensures ParseText(b + x) == Got(ParseText(b).value, ParseText(b).rest + x)
  {
    UintExtends(b, 4, x);
    var p := ParseUint(b, 4);
    assert (p.rest + x)[..p.value] == p.rest[..p.value];
    assert (p.rest + x)[p.value..] == p.rest[p.value..] + x;
  }
}

/** The writer and the sticky reader as objects. */
module WireObjects {
  import opened Words
  import opened Arith
  import opened Wire
  import opened Fields

  function Quotient(a: nat, d: nat): nat
    requires 0 < d
  {
    a / d
  }

  /** `value >> 8 * k`. */
  function ShiftBytes(value: nat, k: nat): nat {
    Quotient(value, Pow256(k))
  }

  lemma ShiftOneMore(value: nat, k: nat)
    ensures ShiftBytes(value, k + 1) == ShiftBytes(value, k) / 256
  {
    var d := Pow256(k);
    var q := value / d;
    var r, a, b := value % d, q / 256, q % 256;
    assert value == q * d + r;
    assert q * d == (256 * a + b) * d == a * (256 * d) + b * d;
    MulMono(b, 255, d, d);
    DivisionIsUnique(value, 256 * d, a, b * d + r);
  }

  /** `append_be`: most significant byte first. */
  method AppendBigEndian(out: Bytes, value: nat, width: nat) returns (r: Bytes)
    requires value < Pow256(width)
    ensures r == out + BigEndian(value, width)
  {
    r := out;
    DivisionIsUnique(value, Pow256(width), 0, value);
    hide ShiftBytes;
    for i := 0 to width
      invariant r == out + BigEndian(ShiftBytes(value, width - i), i)
    {
      ShiftOneMore(value, width - 1 - i);
      r := r + [ShiftBytes(value, width - 1 - i) % 256];
    }
    ShiftByNone(value);
  }

  lemma ShiftByNone(value: nat)
    ensures ShiftBytes(value, 0) == value
  {
  }

  /** `load_be`. */
  method LoadBigEndian(data: Bytes, pos: nat, width: nat) returns (value: nat)
    requires pos + width <= |data|
    ensures value == FromBigEndian(data[pos..pos + width])
  {
    value := 0;
    for i := 0 to width
      invariant value == FromBigEndian(data[pos..pos + i])
    {
      assert data[pos..pos + i + 1][..i] == data[pos..pos + i];
      value := value * 256 + data[pos + i];
    }
  }

  /** Appends to a buffer. Each method says what the buffer becomes in front of
      whatever is written next. */
  class ByteWriter {
    var out: Bytes

    constructor (out: Bytes)
      ensures this.out == out
    {
      this.out := out;
    }

    method Uint(value: nat, width: nat)
      requires value < Pow256(width)
      modifies this
      ensures forall tail :: out + tail == old(out) + WithUint(value, width, tail)
    {
      ghost var before := out;
      out := AppendBigEndian(out, value, width);
      assert forall tail :: before + BigEndian(value, width) + tail == before + (BigEndian(value, width) + tail);
    }

    method U8(value: u8)
      modifies this
      ensures forall tail :: out + tail == old(out) + WithU8(value, tail)
    {
      WordSizes();
      hide Pow256;
      hide WithUint;
      Uint(value, 1);
    }

    method U16(value: u16)
      modifies this
      ensures forall tail :: out + tail == old(out) + WithU16(value, tail)
    {
      WordSizes();
      hide Pow256;
      hide WithUint;
      Uint(value, 2);
    }

    method U32(value: u32)
      modifies this
      ensures forall tail :: out + tail == old(out) + WithU32(value, tail)
    {
      WordSizes();
      hide Pow256;
      hide WithUint;
      Uint(value, 4);
    }

    method U64(value: u64)
      modifies this
      ensures forall tail :: out + tail == old(out) + WithU64(value, tail)
    {
      WordSizes();
      hide Pow256;
      hide WithUint;
      Uint(value, 8);
    }

    static lemma Regroup(a: Bytes, b: Bytes, c: Bytes)
      ensures a + b + c == a + (b + c)
    {
    }

    method String(value: Text)
      modifies this
      ensures forall tail :: out + tail == old(out) + WithText(value, tail)
    {
      hide Pow256;
      hide WithUint;
      WordSizes();
      var length := |value| % TWO_TO_32;
      Uint(length, 4);
      ghost var before := out;
      out := out + value;
      forall tail ensures out + tail == old(out) + WithText(value, tail) {
        Regroup(before, value, tail);
        assert before + (value + tail) == old(out) + WithUint(length, 4, value + tail);
      }
    }
  }

  /** Reads from a buffer; the first read that runs out of input fails, and every
      read after it returns a default and touches nothing. */
  class ByteReader {
    const data: Bytes
    var pos: nat
    var failed: bool

    ghost predicate Valid()
      reads this
    {
      pos <= |data|
    }

    ghost function Rest(): Bytes
      requires Valid()
      reads this
    {
      data[pos..]
    }

    /** After a read: still in step with a parser of what was left, or failed for
        good. */
    ghost predicate Follows<T(!new)>(wasFailed: bool, parsed: Parsed<T>, value: T)
      requires Valid()
      reads this
    {
      if wasFailed || parsed.IsFailure() then failed
      else !failed && parsed == Got(value, Rest())
    }

    constructor (data: Bytes)
      ensures Valid() && this.data == data && !failed && Rest() == data
    {
      this.data := data;
      pos, failed := 0, false;
    }

    method Need(count: nat) returns (ok: bool)
      requires Valid()
      modifies this`failed
      ensures Valid()
      ensures ok == (!old(failed) && count <= |Rest()|) && failed == !ok
    {
      if failed {
        return false;
      }
      if |data| - pos < count {
        failed := true;
        return false;
      }
      return true;
    }

    method Uint(width: nat) returns (value: nat)
      requires Valid()
      modifies this
      ensures Valid() && Follows(old(failed), ParseUint(old(Rest()), width), value)
      ensures value < Pow256(width) && (failed ==> value == 0)
    {
      var ok := Need(width);
      if !ok {
        return 0;
      }
      ghost var rest := Rest();
      value := LoadBigEndian(data, pos, width);
      assert rest[..width] == data[pos..pos + width];
      FromBigEndianBound(rest[..width]);
      pos := pos + width;
      assert rest[width..] == Rest();
    }

    method U8() returns (value: u8)
      requires Valid()
      modifies this
      ensures Valid() && Follows(old(failed), ParseU8(old(Rest())), value) && (failed ==> value == 0)
    {
      WordSizes();
      hide Pow256;
      hide ParseUint;
      value := Uint(1);
    }

    method U16() returns (value: u16)
      requires Valid()
      modifies this
      ensures Valid() && Follows(old(failed), ParseU16(old(Rest())), value) && (failed ==> value == 0)
    {
      WordSizes();
      hide Pow256;
      hide ParseUint;
      value := Uint(2);
    }

    method U32() returns (value: u32)
      requires Valid()
      modifies this
      ensures Valid() && Follows(old(failed), ParseU32(old(Rest())), value) && (failed ==> value == 0)
    {
      WordSizes();
      hide Pow256;
      hide ParseUint;
      value := Uint(4);
    }

    method U64() returns (value: u64)
      requires Valid()
      modifies this
      ensures Valid() && Follows(old(failed), ParseU64(old(Rest())), value) && (failed ==> value == 0)
    {
      WordSizes();
      hide Pow256;
      hide ParseUint;
      value := Uint(8);
    }

    method String() returns (value: Text)
      requires Valid()
      modifies this
      ensures Valid() && Follows(old(failed), ParseText(old(Rest())), value)
      ensures failed ==> value == []
    {
      var length := Uint(4);
      if failed {
        return [];
      }
      var ok := Need(length);
      if !ok {
        return [];
      }
      ghost var rest := Rest();
      value := data[pos..pos + length];
      pos := pos + length;
      assert rest[..length] == value && rest[length..] == Rest();
    }
  }
}
