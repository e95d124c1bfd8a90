/** The primitives of the span wire format, each as a parser of a byte suffix and as a writer. */
module WireFormat {
  import opened Prelude

  /** What a parser makes of a byte suffix; `:-` continues with the value and the rest. */
  datatype Parsed<+T> = Bad | Good(value: T, rest: seq<Byte>) {
    predicate IsFailure() { Bad? }

    function PropagateFailure<U>(): Parsed<U>
      requires Bad?
    {
      Bad
    }

    function Extract(): (T, seq<Byte>)
      requires Good?
    {
      (value, rest)
    }
  }

  type Parser<!T> = seq<Byte> -> Parsed<T>

  // ---------------------------------------------------------------- fixed-size fields

  function ParseFixed(width: nat, data: seq<Byte>): Parsed<seq<Byte>> {
    if width > |data| then Bad else Good(data[..width], data[width..])
  }

  // ---------------------------------------------------------------- unsigned varints

  const VARINT_BYTES: nat := 10

  /** What a varint can still add when `i` of its ten bytes are read. */
  function VarintBound(i: nat): (bound: nat)
    requires i < VARINT_BYTES
    ensures bound >= 2
    decreases VARINT_BYTES - i
  {
    if i == 9 then 2 else 128 * VarintBound(i + 1)
  }

  lemma VarintBound64()
    ensures VarintBound(0) == MAX_UINT64 + 1
  {
    assert VarintBound(8) == 0x100 && VarintBound(7) == 0x8000 && VarintBound(6) == 0x40_0000;
    assert VarintBound(4) == 0x10_0000_0000;
    assert VarintBound(2) == 0x4_0000_0000_0000;
  }

  /** Little-endian groups of seven bits; at most ten bytes and 64 bits. */
  function ParseVarint(i: nat, data: seq<Byte>): (r: Parsed<nat>)
    requires i < VARINT_BYTES
    ensures r.Good? ==> r.value < VarintBound(i)
    decreases VARINT_BYTES - i
  {
    if data == [] then Bad
    else if data[0] < 128 then (if i == 9 && data[0] > 1 then Bad else Good(data[0], data[1..]))
    else if i == 9 then Bad
    else
      var high := ParseVarint(i + 1, data[1..]);
      if high.Bad? then Bad else Good(data[0] - 128 + 128 * high.value, high.rest)
  }

  function WriteVarint(n: nat): (bytes: seq<Byte>)
    ensures |bytes| >= 1
  {
    if n < 128 then [n] else [n % 128 + 128] + WriteVarint(n / 128)
  }

  lemma {:induction false} VarintRoundTrip(i: nat, n: nat, rest: seq<Byte>)
    requires i < VARINT_BYTES && n < VarintBound(i)
    ensures ParseVarint(i, WriteVarint(n) + rest) == Good(n, rest)
    decreases VARINT_BYTES - i
  {
    var data := WriteVarint(n) + rest;
    if n < 128 {
      assert data[1..] == rest;
    } else {
      assert data[0] == n % 128 + 128 && data[1..] == WriteVarint(n / 128) + rest;
      assert i < 9;
      Quotient(n, VarintBound(i + 1));
      VarintRoundTrip(i + 1, n / 128, rest);
    }
  }

  lemma Quotient(n: nat, bound: nat)
    requires n < 128 * bound
    ensures n / 128 < bound && n % 128 + 128 * (n / 128) == n
  {
  }

  /** Seven bits a byte, low ones first. */
  function SevenBits(bytes: seq<Byte>): nat {
    if bytes == [] then 0 else bytes[0] % 128 + 128 * SevenBits(bytes[1..])
  }

  /** A varint ends at its first byte below 128; with the bytes before it, ten at most, it is the number they spell. */
  ghost predicate Spells(i: nat, data: seq<Byte>, n: nat) {
    && 1 <= n <= |data| && n <= VARINT_BYTES - i
    && (forall k :: 0 <= k < n - 1 ==> data[k] >= 128) && data[n - 1] < 128
    && (n == VARINT_BYTES - i ==> data[n - 1] <= 1)
  }

  lemma {:induction false} VarintMeans(i: nat, data: seq<Byte>)
    requires i < VARINT_BYTES
    ensures var r := ParseVarint(i, data);
      && (r.Good? ==> exists n: nat :: Spells(i, data, n) && r.value == SevenBits(data[..n]) && r.rest == data[n..])
      && (r.Bad? ==> forall n: nat :: !Spells(i, data, n))
    decreases VARINT_BYTES - i
  {
    if data == [] {
    } else if data[0] < 128 {
      OneByteSpelled(i, data);
    } else if i < 9 {
      VarintMeans(i + 1, data[1..]);
      var high := ParseVarint(i + 1, data[1..]);
      if high.Good? {
        var n: nat :| Spells(i + 1, data[1..], n) && high.value == SevenBits(data[1..][..n])
          && high.rest == data[1..][n..];
        assert data[1..][..n] == data[..n + 1][1..] && data[1..][n..] == data[n + 1..];
        assert Spells(i, data, n + 1) by { MoreSpelled(i, data, n); }
        SevenBitsOf(data[..n + 1]);
      } else {
        forall n: nat ensures !Spells(i, data, n) {
          if Spells(i, data, n) {
            FewerSpelled(i, data, n);
          }
        }
      }
    }
  }

  lemma SevenBitsOf(bytes: seq<Byte>)
    requires bytes != [] && bytes[0] >= 128
    ensures SevenBits(bytes) == bytes[0] - 128 + 128 * SevenBits(bytes[1..])
  {
  }

  lemma MoreSpelled(i: nat, data: seq<Byte>, n: nat)
    requires i < 9 && data != [] && data[0] >= 128 && Spells(i + 1, data[1..], n)
    ensures Spells(i, data, n + 1)
  {
    assert forall k :: 0 <= k < n ==> data[1..][k] == data[k + 1];
  }

  lemma FewerSpelled(i: nat, data: seq<Byte>, n: nat)
    requires i < 9 && data != [] && data[0] >= 128 && Spells(i, data, n)
    ensures n > 1 && Spells(i + 1, data[1..], n - 1)
  {
  }

  lemma OneByteSpelled(i: nat, data: seq<Byte>)
    requires i < VARINT_BYTES && data != [] && data[0] < 128
    ensures Spells(i, data, 1) <==> i < 9 || data[0] <= 1
    ensures forall n: nat :: Spells(i, data, n) ==> n == 1
    ensures SevenBits(data[..1]) == data[0]
  {
    assert data[..1][1..] == [];
  }

  function ParseUint64(data: seq<Byte>): Parsed<Uint64> {
    VarintBound64();
    var r := ParseVarint(0, data);
    if r.Bad? then Bad else Good(r.value, r.rest)
  }

  lemma Uint64RoundTrip(n: Uint64, rest: seq<Byte>)
    ensures ParseUint64(WriteVarint(n) + rest) == Good(n, rest)
  {
    VarintBound64();
    VarintRoundTrip(0, n, rest);
  }

  // ---------------------------------------------------------------- bit sets

  /** Bit `j` of a byte, counted from the lowest. */
  function ByteBit(b: nat, j: nat): bool { if j == 0 then b % 2 == 1 else ByteBit(b / 2, j - 1) }

  /** Bit `i` of the big-endian number these bytes are. */
  function BitAt(bytes: seq<Byte>, i: nat): bool
    requires i < 8 * |bytes|
  {
    ByteBit(bytes[|bytes| - 1 - i / 8], i % 8)
  }

  function BitBytes(n: nat): (w: nat)
    ensures n <= 8 * w < n + 8
  {
    (n + 7) / 8
  }

  /** A bit set of `n` bits; the unused high bits must be zero. */
  function ParseBits(n: nat, data: seq<Byte>): (r: Parsed<seq<bool>>)
    ensures r.Good? ==> |r.value| == n
  {
    var w := BitBytes(n);
    if w > |data| then Bad else
    var bytes := data[..w];
    if exists i :: n <= i < 8 * w && BitAt(bytes, i) then Bad
    else Good(seq(n, i requires 0 <= i < n => BitAt(bytes, i)), data[w..])
  }

  function Two(count: nat): nat { if count == 0 then 1 else 2 * Two(count - 1) }

  function Flag(bits: seq<bool>, i: nat): nat { if i < |bits| && bits[i] then 1 else 0 }

  /** The number whose bits are `count` flags from `base` on. */
  function Group(bits: seq<bool>, base: nat, count: nat): (b: nat)
    ensures b < Two(count)
    decreases count
  {
    if count == 0 then 0 else Flag(bits, base) + 2 * Group(bits, base + 1, count - 1)
  }

  /** The byte holding bits `8k..8k+8`. */
  function GroupByte(bits: seq<bool>, k: nat): Byte {
    assert Two(4) == 16;
    Group(bits, 8 * k, 8)
  }

  function WriteBits(bits: seq<bool>): (bytes: seq<Byte>)
    ensures |bytes| == BitBytes(|bits|)
  {
    var w := BitBytes(|bits|);
    seq(w, p requires 0 <= p < w => GroupByte(bits, w - 1 - p))
  }

  lemma {:induction false} GroupBit(bits: seq<bool>, base: nat, count: nat, j: nat)
    requires j < count
    ensures ByteBit(Group(bits, base, count), j) <==> base + j < |bits| && bits[base + j]
    decreases count
  {
    var high := Group(bits, base + 1, count - 1);
    assert (Flag(bits, base) + 2 * high) / 2 == high;
    if j > 0 {
      GroupBit(bits, base + 1, count - 1, j - 1);
    }
  }

  lemma WrittenBit(bits: seq<bool>, i: nat)
    requires i < 8 * BitBytes(|bits|)
    ensures BitAt(WriteBits(bits), i) <==> i < |bits| && bits[i]
  {
    var w, k := BitBytes(|bits|), i / 8;
    assert WriteBits(bits)[w - 1 - k] == GroupByte(bits, w - 1 - (w - 1 - k));
    GroupBit(bits, 8 * k, 8, i % 8);
  }

  lemma BitsRoundTrip(bits: seq<bool>, rest: seq<Byte>)
    ensures ParseBits(|bits|, WriteBits(bits) + rest) == Good(bits, rest)
  {
    hide BitAt, WriteBits;
    var n, w, data := |bits|, BitBytes(|bits|), WriteBits(bits) + rest;
    assert data[..w] == WriteBits(bits) && data[w..] == rest;
    forall i: nat | i < 8 * w ensures BitAt(data[..w], i) <==> i < n && bits[i] {
      WrittenBit(bits, i);
    }
    assert !exists i :: n <= i < 8 * w && BitAt(data[..w], i);
    assert ParseBits(n, data).value == bits;
  }

  // ---------------------------------------------------------------- repeated fields

  function ParseMany<T>(p: Parser<T>, n: nat, data: seq<Byte>): (r: Parsed<seq<T>>)
    ensures r.Good? ==> |r.value| == n
  {
    if n == 0 then Good([], data) else
    var first := p(data);
    if first.Bad? then Bad else
    var more := ParseMany(p, n - 1, first.rest);
    if more.Bad? then Bad else Good([first.value] + more.value, more.rest)
  }

  function WriteMany<T>(write: T -> seq<Byte>, items: seq<T>): seq<Byte> {
    if items == [] then [] else write(items[0]) + WriteMany(write, items[1..])
  }

  lemma {:induction false} ManyRoundTrip<T(!new)>(p: Parser<T>, write: T -> seq<Byte>, items: seq<T>, rest: seq<Byte>)
    requires forall x, after :: x in items ==> p(write(x) + after) == Good(x, after)
    ensures ParseMany(p, |items|, WriteMany(write, items) + rest) == Good(items, rest)
  {
    if items != [] {
      var after := WriteMany(write, items[1..]) + rest;
      assert items[0] in items && items == [items[0]] + items[1..];
      assert WriteMany(write, items) + rest == write(items[0]) + after;
      assert p(write(items[0]) + after) == Good(items[0], after);
      ManyRoundTrip(p, write, items[1..], rest);
    }
  }

  /** Reading forward: what is read so far followed by what is still to read. */
  function Prepend<T>(done: seq<T>, more: Parsed<seq<T>>): Parsed<seq<T>> {
    if more.Bad? then Bad else Good(done + more.value, more.rest)
  }

  lemma PrependOne<T>(p: Parser<T>, done: seq<T>, n: nat, data: seq<Byte>)
    requires n > 0
    ensures Prepend(done, ParseMany(p, n, data)) ==
            if p(data).Bad? then Bad else Prepend(done + [p(data).value], ParseMany(p, n - 1, p(data).rest))
  {
    var first := p(data);
    if first.Good? {
      var more := ParseMany(p, n - 1, first.rest);
      if more.Good? {
        assert done + ([first.value] + more.value) == (done + [first.value]) + more.value;
      }
    }
  }
}
