/** The version-zero packing of a payload into 4096 field elements (OP Stack, Ecotone derivation,
    "Blob Encoding").  One round carries 127 logical bytes in 128 raw ones: four elements of 31
    plain bytes, and three more bytes spread over the low six bits of the four element heads. */
module BlobCodec {
  import opened Prelude
  import opened FieldElements

  const ROUNDS: nat := 1024

  // ---------------------------------------------------------------- one round

  function PackRoundByte(s: seq<Byte>, p: nat): Byte
    requires |s| == 127 && p < 128
  {
    if p % 32 == 0 then Head(p / 32, s[31], s[63], s[95]) else s[p - 1]
  }

  function PackRound(s: seq<Byte>): (raw: seq<Byte>)
    requires |s| == 127
    ensures |raw| == 128
  {
    seq(128, p requires 0 <= p < 128 => PackRoundByte(s, p))
  }

  function UnpackRoundByte(raw: seq<Byte>, m: nat): Byte
    requires |raw| == 128 && m < 127
  {
    if m == 31 then JoinX(raw[0], raw[32])
    else if m == 63 then JoinY(raw[32], raw[96])
    else if m == 95 then JoinZ(raw[64], raw[96])
    else raw[m + 1]
  }

  function UnpackRound(raw: seq<Byte>): (s: seq<Byte>)
    requires |raw| == 128
    ensures |s| == 127
  {
    seq(127, m requires 0 <= m < 127 => UnpackRoundByte(raw, m))
  }

  predicate RoundHeads(raw: seq<Byte>)
    requires |raw| == 128
  {
    FieldElement(raw[0]) && FieldElement(raw[32]) && FieldElement(raw[64]) && FieldElement(raw[96])
  }

  lemma UnpackPackRound(s: seq<Byte>)
    requires |s| == 127
    ensures RoundHeads(PackRound(s)) && UnpackRound(PackRound(s)) == s
  {
    hide Head, JoinX, JoinY, JoinZ;
    JoinHeads(s[31], s[63], s[95]);
  }

  lemma PackUnpackRound(raw: seq<Byte>)
    requires |raw| == 128 && RoundHeads(raw)
    ensures PackRound(UnpackRound(raw)) == raw
  {
    hide Head, JoinX, JoinY, JoinZ;
    HeadJoins(raw[0], raw[32], raw[64], raw[96]);
  }

  // ---------------------------------------------------------------- all rounds

  function Pack(stream: seq<Byte>, rounds: nat): (raw: seq<Byte>)
    requires |stream| == 127 * rounds
    ensures |raw| == 128 * rounds
  {
    if rounds == 0 then []
    else Pack(stream[..127 * (rounds - 1)], rounds - 1) + PackRound(stream[127 * (rounds - 1)..])
  }

  function Unpack(raw: seq<Byte>, rounds: nat): (stream: seq<Byte>)
    requires |raw| == 128 * rounds
    ensures |stream| == 127 * rounds
  {
    if rounds == 0 then []
    else Unpack(raw[..128 * (rounds - 1)], rounds - 1) + UnpackRound(raw[128 * (rounds - 1)..])
  }

  predicate AllHeads(raw: seq<Byte>, rounds: nat)
    requires |raw| == 128 * rounds
  {
    rounds > 0 ==> AllHeads(raw[..128 * (rounds - 1)], rounds - 1) && RoundHeads(raw[128 * (rounds - 1)..])
  }

  lemma {:induction false} UnpackPack(stream: seq<Byte>, rounds: nat)
    requires |stream| == 127 * rounds
    ensures AllHeads(Pack(stream, rounds), rounds) && Unpack(Pack(stream, rounds), rounds) == stream
  {
    hide PackRound, UnpackRound, RoundHeads;
    if rounds > 0 {
      var front, back := stream[..127 * (rounds - 1)], stream[127 * (rounds - 1)..];
      UnpackPack(front, rounds - 1);
      UnpackPackRound(back);
      var raw := Pack(stream, rounds);
      assert raw[..128 * (rounds - 1)] == Pack(front, rounds - 1) && raw[128 * (rounds - 1)..] == PackRound(back);
    }
  }

  lemma {:induction false} PackUnpack(raw: seq<Byte>, rounds: nat)
    requires |raw| == 128 * rounds && AllHeads(raw, rounds)
    ensures Pack(Unpack(raw, rounds), rounds) == raw
  {
    hide PackRound, UnpackRound, RoundHeads;
    if rounds > 0 {
      var front, back := raw[..128 * (rounds - 1)], raw[128 * (rounds - 1)..];
      PackUnpack(front, rounds - 1);
      PackUnpackRound(back);
      var stream := Unpack(raw, rounds);
      assert stream[..127 * (rounds - 1)] == Unpack(front, rounds - 1);
      assert stream[127 * (rounds - 1)..] == UnpackRound(back);
    }
  }

  // ---------------------------------------------------------------- version, length and padding

  /** The bytes a blob of `rounds` rounds can carry after the version and the length. */
  function Capacity(rounds: nat): (capacity: nat)
    requires 1 <= rounds
  {
    127 * rounds - 4
  }

  /** Round counts whose every payload length fits the three length bytes. */
  predicate Sized(rounds: nat) { 1 <= rounds && 127 * rounds - 4 < 0x100_0000 }

  function ReadLength(b2: Byte, b3: Byte, b4: Byte): (n: nat)
    ensures n < 0x100_0000
  {
    b2 * 0x1_0000 + b3 * 0x100 + b4
  }

  function Header(n: nat): (bytes: seq<Byte>)
    requires n < 0x100_0000
    ensures |bytes| == 4 && bytes[0] == 0 && ReadLength(bytes[1], bytes[2], bytes[3]) == n
  {
    [0, n / 0x100 / 0x100, n / 0x100 % 0x100, n % 0x100]
  }

  lemma LowByte(q: nat, r: Byte)
    ensures (q * 0x100 + r) / 0x100 == q && (q * 0x100 + r) % 0x100 == r
  {
  }

  lemma Digits(a: Byte, b: Byte, c: Byte)
    ensures var n := a * 0x1_0000 + b * 0x100 + c; n / 0x100 / 0x100 == a && n / 0x100 % 0x100 == b && n % 0x100 == c
  {
    LowByte(a * 0x100 + b, c);
    LowByte(a, b);
    assert (a * 0x100 + b) * 0x100 + c == a * 0x1_0000 + b * 0x100 + c;
  }

  lemma HeaderOfLength(b2: Byte, b3: Byte, b4: Byte)
    ensures Header(ReadLength(b2, b3, b4)) == [0, b2, b3, b4]
  {
    Digits(b2, b3, b4);
  }

  /** The stream a payload is packed from: version, length, payload, zero padding. */
  function Framed(payload: seq<Byte>, rounds: nat): (stream: seq<Byte>)
    requires Sized(rounds) && |payload| <= Capacity(rounds)
    ensures |stream| == 127 * rounds
  {
    Header(|payload|) + payload + Zeros(Capacity(rounds) - |payload|)
  }

  /** The stream's layout: version zero, three bytes of length with the high one first, the payload, and zeros. */
  lemma FramedLayout(payload: seq<Byte>, rounds: nat)
    requires Sized(rounds) && |payload| <= Capacity(rounds)
    ensures var s, n := Framed(payload, rounds), |payload|;
      && s[0] == 0 && 0x1_0000 * (s[1] as int) + 0x100 * (s[2] as int) + s[3] == n
      && s[4..4 + n] == payload && forall k :: 4 + n <= k < |s| ==> s[k] == 0
  {
    var header := Header(|payload|);
    assert Framed(payload, rounds) == header + (payload + Zeros(Capacity(rounds) - |payload|));
  }

  /** The encoder. */
  function Encode(payload: seq<Byte>, rounds: nat): (raw: seq<Byte>)
    requires Sized(rounds) && |payload| <= Capacity(rounds)
    ensures |raw| == 128 * rounds
  {
    Pack(Framed(payload, rounds), rounds)
  }

  /** What a decoded stream must look like to be a framed payload. */
  predicate WellFramed(stream: seq<Byte>, rounds: nat)
    requires Sized(rounds) && |stream| == 127 * rounds
  {
    stream[0] == 0
    && var n := ReadLength(stream[1], stream[2], stream[3]);
    n <= Capacity(rounds) && forall k :: 4 + n <= k < |stream| ==> stream[k] == 0
  }

  function Payload(stream: seq<Byte>, rounds: nat): (payload: seq<Byte>)
    requires Sized(rounds) && |stream| == 127 * rounds && WellFramed(stream, rounds)
    ensures |payload| <= Capacity(rounds)
  {
    stream[4..4 + ReadLength(stream[1], stream[2], stream[3])]
  }

  lemma SplitStream(stream: seq<Byte>, n: nat)
    requires 4 + n <= |stream| && forall k :: 4 + n <= k < |stream| ==> stream[k] == 0
    ensures stream == [stream[0], stream[1], stream[2], stream[3]] + stream[4..4 + n] + Zeros(|stream| - 4 - n)
  {
  }

  lemma FramedPayload(stream: seq<Byte>, rounds: nat)
    requires Sized(rounds) && |stream| == 127 * rounds && WellFramed(stream, rounds)
    ensures Framed(Payload(stream, rounds), rounds) == stream
  {
    hide ReadLength, Header;
    var n := ReadLength(stream[1], stream[2], stream[3]);
    SplitStream(stream, n);
    HeaderOfLength(stream[1], stream[2], stream[3]);
  }

  lemma PayloadFramed(payload: seq<Byte>, rounds: nat)
    requires Sized(rounds) && |payload| <= Capacity(rounds)
    ensures WellFramed(Framed(payload, rounds), rounds) && Payload(Framed(payload, rounds), rounds) == payload
  {
    var stream := Framed(payload, rounds);
    assert stream[..4] == Header(|payload|);
    assert stream[4 + |payload|..] == Zeros(Capacity(rounds) - |payload|);
    forall k | 4 + |payload| <= k < |stream| ensures stream[k] == 0 {
      assert stream[k] == stream[4 + |payload|..][k - 4 - |payload|];
    }
  }

  // ---------------------------------------------------------------- decoding

  predicate AllZero(bytes: seq<Byte>) { forall i :: 0 <= i < |bytes| ==> bytes[i] == 0 }

  predicate Accepts(raw: seq<Byte>, rounds: nat)
    requires Sized(rounds)
  {
    |raw| == 128 * rounds && AllHeads(raw, rounds) && WellFramed(Unpack(raw, rounds), rounds)
  }

  /** The accepted blobs are exactly the encodings, and each has one payload. */
  lemma AcceptsEncoding(payload: seq<Byte>, rounds: nat)
    requires Sized(rounds) && |payload| <= Capacity(rounds)
    ensures Accepts(Encode(payload, rounds), rounds)
    ensures Payload(Unpack(Encode(payload, rounds), rounds), rounds) == payload
  {
    UnpackPack(Framed(payload, rounds), rounds);
    PayloadFramed(payload, rounds);
  }

  lemma AcceptedIsEncoding(raw: seq<Byte>, rounds: nat)
    requires Sized(rounds) && Accepts(raw, rounds)
    ensures Encode(Payload(Unpack(raw, rounds), rounds), rounds) == raw
  {
    hide ReadLength, Header, Framed, Pack, Unpack, AllHeads;
    PackUnpack(raw, rounds);
    FramedPayload(Unpack(raw, rounds), rounds);
  }

  lemma {:induction false} Prefix(raw: seq<Byte>, n: nat, rounds: nat)
    requires |raw| == 128 * rounds && n <= rounds
    ensures AllHeads(raw, rounds) ==> AllHeads(raw[..128 * n], n)
    ensures Unpack(raw, rounds)[..127 * n] == Unpack(raw[..128 * n], n)
  {
    if n == rounds {
      assert raw[..128 * n] == raw;
    } else {
      Prefix(raw[..128 * (rounds - 1)], n, rounds - 1);
      assert raw[..128 * (rounds - 1)][..128 * n] == raw[..128 * n];
    }
  }

  lemma NotAllHeads(raw: seq<Byte>, n: nat, rounds: nat)
    requires |raw| == 128 * rounds && n < rounds && !RoundHeads(raw[128 * n..128 * n + 128])
    ensures !AllHeads(raw, rounds)
  {
    Prefix(raw, n + 1, rounds);
    assert raw[..128 * (n + 1)][128 * n..] == raw[128 * n..128 * n + 128];
  }

  /** Rounds the decoder never looks at are all zero exactly when the stream they hold is. */
  lemma {:induction false} ZeroTail(raw: seq<Byte>, n: nat, rounds: nat)
    requires |raw| == 128 * rounds && n <= rounds && AllHeads(raw[..128 * n], n)
    ensures AllZero(raw[128 * n..]) <==> AllHeads(raw, rounds) && AllZero(Unpack(raw, rounds)[127 * n..])
  {
    hide PackRound, UnpackRound, RoundHeads;
    if n == rounds {
      assert raw[..128 * n] == raw;
    } else {
      var front, back := raw[..128 * (rounds - 1)], raw[128 * (rounds - 1)..];
      assert front[..128 * n] == raw[..128 * n];
      ZeroTail(front, n, rounds - 1);
      ZeroRound(back);
      assert raw[128 * n..] == front[128 * n..] + back;
      assert Unpack(raw, rounds)[127 * n..] == Unpack(front, rounds - 1)[127 * n..] + UnpackRound(back);
      AllZeroConcat(front[128 * n..], back);
      AllZeroConcat(Unpack(front, rounds - 1)[127 * n..], UnpackRound(back));
    }
  }

  lemma AllZeroConcat(a: seq<Byte>, b: seq<Byte>)
    ensures AllZero(a + b) <==> AllZero(a) && AllZero(b)
  {
    if AllZero(a + b) {
      forall i | 0 <= i < |a| ensures a[i] == 0 { assert (a + b)[i] == 0; }
      forall i | 0 <= i < |b| ensures b[i] == 0 { assert (a + b)[|a| + i] == 0; }
    }
  }

  lemma ZeroRound(raw: seq<Byte>)
    requires |raw| == 128
    ensures AllZero(raw) <==> RoundHeads(raw) && AllZero(UnpackRound(raw))
  {
    hide Head, JoinX, JoinY, JoinZ;
    if AllZero(raw) {
      ZeroJoins(0);
    }
    if RoundHeads(raw) && AllZero(UnpackRound(raw)) {
      PackUnpackRound(raw);
      forall p | 0 <= p < 128 ensures PackRound(UnpackRound(raw))[p] == 0 {
        ZeroHeads(p / 32, 0);
      }
    }
  }

  method Copy(out: array<Byte>, at: nat, bytes: seq<Byte>)
    requires at + |bytes| <= out.Length
    modifies out
    ensures out[..] == old(out[..at]) + bytes + old(out[at + |bytes|..])
  {
    forall i | 0 <= i < |bytes| { out[at + i] := bytes[i]; }
  }

  function ElementHead(raw: seq<Byte>, first: nat, j: nat): Byte
    requires j < 4 && first + 128 <= |raw|
  {
    raw[first + 32 * j]
  }

  /** Element `j` of a round has its 31 plain bytes in the output and its head kept and checked. */
  ghost predicate Decoded(raw: seq<Byte>, first: nat, j: nat, out: seq<Byte>, base: int, encoded: seq<Byte>)
    requires j < 4 && first + 128 <= |raw| && |encoded| == 4
    requires 0 <= base + 32 * j && base + 127 <= |out|
  {
    && encoded[j] == ElementHead(raw, first, j)
    && FieldElement(encoded[j])
    && out[base + 32 * j..base + 32 * j + 31] == raw[first + 32 * j + 1..first + 32 * j + 32]
  }

  lemma DecodedKeeps(raw: seq<Byte>, first: nat, j: nat, out: seq<Byte>, out': seq<Byte>, base: int,
                     encoded: seq<Byte>, encoded': seq<Byte>)
    requires j < 4 && first + 128 <= |raw| && |encoded| == |encoded'| == 4
    requires 0 <= base + 32 * j && base + 127 <= |out| == |out'|
    requires Decoded(raw, first, j, out, base, encoded)
    requires encoded[j] == encoded'[j] && out[..base + 32 * j + 31] == out'[..base + 32 * j + 31]
    ensures Decoded(raw, first, j, out', base, encoded')
  {
    var to := base + 32 * j + 31;
    assert out[base + 32 * j..to] == out[..to][base + 32 * j..]
        == out'[..to][base + 32 * j..] == out'[base + 32 * j..to];
  }

  /** Elements `start..4` of the round whose stream starts at output offset `base` (-4 for round 0):
      heads are checked and kept, plain bytes copied, one byte left free after each. */
  method DecodeElements(raw: seq<Byte>, ghost first: nat, ghost base: int, start: nat,
                        out: array<Byte>, encoded: array<Byte>, op0: nat, ip0: nat)
    returns (ok: bool, op: nat, ip: nat)
    requires start < 4 && 0 <= base + 32 * start == op0 && base + 127 <= out.Length
    requires encoded.Length == 4 && encoded != out
    requires first + 32 * start == ip0 && first + 128 <= |raw|
    modifies out, encoded
    ensures ok <==> forall j :: start <= j < 4 ==> FieldElement(ElementHead(raw, first, j))
    ensures ok ==> forall j :: start <= j < 4 ==> Decoded(raw, first, j, out[..], base, encoded[..])
    ensures ok ==> op == base + 128 && ip == first + 128
    ensures encoded[..start] == old(encoded[..start])
    ensures out[..op0] == old(out[..op0]) && out[base + 127..] == old(out[base + 127..])
  {
    op, ip := op0, ip0;
    var j := start;
    while j < 4
      invariant start <= j <= 4 && op == base + 32 * j && ip == first + 32 * j
      invariant encoded[..start] == old(encoded[..start])
      invariant forall jj :: start <= jj < j ==> FieldElement(ElementHead(raw, first, jj))
      invariant forall jj :: start <= jj < j ==> Decoded(raw, first, jj, out[..], base, encoded[..])
      invariant out[..op0] == old(out[..op0]) && out[base + 127..] == old(out[base + 127..])
    {
      ghost var before, heads := out[..], encoded[..];
      encoded[j] := raw[ip];
      assert encoded[j] == ElementHead(raw, first, j);
      if !FieldElement(encoded[j]) {
        return false, op, ip;
      }
      Copy(out, op, raw[ip + 1..ip + 32]);
      assert Decoded(raw, first, j, out[..], base, encoded[..]);
      forall jj | start <= jj < j
        ensures Decoded(raw, first, jj, out[..], base, encoded[..])
      {
        DecodedKeeps(raw, first, jj, before, out[..], base, heads, encoded[..]);
      }
      op, ip, j := op + 32, ip + 32, j + 1;
    }
    return true, op, ip;
  }

  /** The stream the decoder builds: version and length straight from the blob, then the output. */
  function Built(raw: seq<Byte>, out: seq<Byte>): seq<Byte>
    requires |raw| >= 5
  {
    raw[1..5] + out
  }

  lemma RoundHeadsAt(raw: seq<Byte>, first: nat)
    requires first + 128 <= |raw|
    ensures RoundHeads(raw[first..first + 128]) <==> forall j :: 0 <= j < 4 ==> FieldElement(ElementHead(raw, first, j))
  {
    var bytes := raw[first..first + 128];
    assert bytes[0] == ElementHead(raw, first, 0) && bytes[32] == ElementHead(raw, first, 1);
    assert bytes[64] == ElementHead(raw, first, 2) && bytes[96] == ElementHead(raw, first, 3);
  }

  lemma DecodedAt(raw: seq<Byte>, first: nat, j: nat, out: seq<Byte>, base: int, encoded: seq<Byte>, i: nat)
    requires j < 4 && i < 31 && first + 128 <= |raw| && |encoded| == 4
    requires 0 <= base + 32 * j && base + 127 <= |out|
    requires Decoded(raw, first, j, out, base, encoded)
    ensures out[base + 32 * j + i] == raw[first + 32 * j + 1 + i]
  {
    assert out[base + 32 * j..base + 32 * j + 31][i] == raw[first + 32 * j + 1..first + 32 * j + 32][i];
  }

  /** The round's plain bytes are in `out` and its heads in `encoded`. */
  ghost predicate Copied(raw: seq<Byte>, round: nat, out: seq<Byte>, encoded: seq<Byte>)
    requires 128 * round + 128 <= |raw| && 127 * round + 123 <= |out| && |encoded| == 4
  {
    var first, base := 128 * round, 127 * round - 4;
    && (if round == 0 then encoded[0] == raw[0] && out[..27] == raw[5..32]
        else Decoded(raw, first, 0, out, base, encoded))
    && Decoded(raw, first, 1, out, base, encoded)
    && Decoded(raw, first, 2, out, base, encoded)
    && Decoded(raw, first, 3, out, base, encoded)
  }

  lemma CopiedAt(raw: seq<Byte>, round: nat, out: seq<Byte>, encoded: seq<Byte>, m: nat)
    requires 128 * round + 128 <= |raw| && 127 * round + 123 <= |out| && |encoded| == 4
    requires Copied(raw, round, out, encoded)
    requires m < 127 && m % 32 != 31
    ensures Built(raw, out)[127 * round + m] == raw[128 * round + m + 1]
  {
    var first, base := 128 * round, 127 * round - 4;
    if m < 31 && round == 0 {
      assert m >= 4 ==> out[m - 4] == out[..27][m - 4] == raw[m + 1];
    } else if m < 31 {
      DecodedAt(raw, first, 0, out, base, encoded, m);
    } else if m < 63 {
      DecodedAt(raw, first, 1, out, base, encoded, m - 32);
    } else if m < 95 {
      DecodedAt(raw, first, 2, out, base, encoded, m - 64);
    } else {
      DecodedAt(raw, first, 3, out, base, encoded, m - 96);
    }
  }

  /** The output with a round's three joined bytes set. */
  function Joined(plain: seq<Byte>, base: int, encoded: seq<Byte>): seq<Byte>
    requires -4 <= base && base + 127 <= |plain| && |encoded| == 4
  {
    plain[base + 31 := JoinX(encoded[0], encoded[1])]
         [base + 63 := JoinY(encoded[1], encoded[3])]
         [base + 95 := JoinZ(encoded[2], encoded[3])]
  }

  /** Once the plain bytes are in place, setting the three free bytes completes the round. */
  lemma RoundBuilt(raw: seq<Byte>, round: nat, plain: seq<Byte>, encoded: seq<Byte>)
    requires 128 * round + 128 <= |raw| && 127 * round + 123 <= |plain| && |encoded| == 4
    requires Copied(raw, round, plain, encoded)
    ensures Built(raw, Joined(plain, 127 * round - 4, encoded))[127 * round..127 * round + 127]
            == UnpackRound(raw[128 * round..128 * round + 128])
  {
    hide Head, JoinX, JoinY, JoinZ;
    var out, bytes := Joined(plain, 127 * round - 4, encoded), raw[128 * round..128 * round + 128];
    assert bytes[0] == encoded[0] && bytes[32] == encoded[1] && bytes[64] == encoded[2] && bytes[96] == encoded[3];
    forall m | 0 <= m < 127 ensures Built(raw, out)[127 * round + m] == UnpackRound(bytes)[m] {
      if m % 32 != 31 {
        CopiedAt(raw, round, plain, encoded, m);
        assert Built(raw, out)[127 * round + m] == Built(raw, plain)[127 * round + m];
      }
    }
  }

  /** One round: its elements, then the three joined bytes into the places left free. */
  method DecodeRound(raw: seq<Byte>, round: nat, out: array<Byte>, encoded: array<Byte>, op0: nat, ip0: nat)
    returns (ok: bool, op: nat, ip: nat)
    requires 128 * round + 128 <= |raw| && 127 * round + 123 <= out.Length
    requires encoded.Length == 4 && encoded != out
    requires (op0, ip0) == if round == 0 then (28, 32) else (127 * round - 4, 128 * round)
    requires round == 0 ==> FieldElement(raw[0]) && encoded[0] == raw[0] && out[..27] == raw[5..32]
    modifies out, encoded
    ensures ok <==> RoundHeads(raw[128 * round..128 * round + 128])
    ensures ok ==> op == 127 * round + 123 && ip == 128 * round + 128
    ensures ok ==>
      Built(raw, out[..])[127 * round..127 * round + 127] == UnpackRound(raw[128 * round..128 * round + 128])
    ensures ok && round > 0 ==> out[..127 * round - 4] == old(out[..127 * round - 4])
    ensures ok ==> out[127 * round + 123..] == old(out[127 * round + 123..])
  {
    var start := if round == 0 then 1 else 0;
    ghost var first, base := 128 * round, 127 * round - 4;
    RoundHeadsAt(raw, first);
    assert round == 0 ==> ElementHead(raw, first, 0) == raw[0];
    ok, op, ip := DecodeElements(raw, first, base, start, out, encoded, op0, ip0);
    if !ok {
      return;
    }
    if round == 0 {
      assert encoded[0] == encoded[..1][0];
      assert out[..27] == out[..28][..27];
    }
    ghost var plain := out[..];
    RoundBuilt(raw, round, plain, encoded[..]);
    op := op - 1;
    out[op - 96] := JoinX(encoded[0], encoded[1]);
    out[op - 64] := JoinY(encoded[1], encoded[3]);
    out[op - 32] := JoinZ(encoded[2], encoded[3]);
    assert out[..] == Joined(plain, base, encoded[..]);
  }

  lemma FirstBytes(raw: seq<Byte>, rounds: nat)
    requires 1 <= rounds && |raw| == 128 * rounds
    ensures Unpack(raw, rounds)[..4] == raw[1..5]
  {
    hide JoinX, JoinY, JoinZ;
    Prefix(raw, 1, rounds);
    assert raw[..128][0..] == raw[..128];
    assert Unpack(raw, rounds)[..127] == UnpackRound(raw[..128]);
    assert Unpack(raw, rounds)[..4] == Unpack(raw, rounds)[..127][..4];
  }

  /** After `n` rounds the first `127 * n` stream bytes are built and the rest is still zero. */
  ghost predicate RoundsBuilt(raw: seq<Byte>, n: nat, rounds: nat, out: seq<Byte>)
    requires 1 <= n <= rounds && |raw| == 128 * rounds && |out| == Capacity(rounds)
  {
    && AllHeads(raw[..128 * n], n)
    && Built(raw, out)[..127 * n] == Unpack(raw[..128 * n], n)
    && AllZero(out[127 * n - 4..])
  }

  lemma NextRoundBuilt(raw: seq<Byte>, n: nat, rounds: nat, before: seq<Byte>, out: seq<Byte>)
    requires 0 <= n < rounds && |raw| == 128 * rounds && |before| == |out| == Capacity(rounds)
    requires n > 0 ==> RoundsBuilt(raw, n, rounds, before) && out[..127 * n - 4] == before[..127 * n - 4]
    requires AllZero(out[127 * n + 123..])
    requires RoundHeads(raw[128 * n..128 * n + 128])
    requires Built(raw, out)[127 * n..127 * n + 127] == UnpackRound(raw[128 * n..128 * n + 128])
    ensures RoundsBuilt(raw, n + 1, rounds, out)
  {
    hide UnpackRound, RoundHeads;
    var stream, front := Built(raw, out), raw[..128 * (n + 1)];
    assert front[..128 * n] == raw[..128 * n] && front[128 * n..] == raw[128 * n..128 * n + 128];
    if n > 0 {
      assert stream[..127 * n] == raw[1..5] + out[..127 * n - 4] == Built(raw, before)[..127 * n];
    }
    assert stream[..127 * (n + 1)] == stream[..127 * n] + stream[127 * n..127 * n + 127];
    assert AllHeads(front, n + 1);
    assert Unpack(front, n + 1) == Unpack(front[..128 * n], n) + UnpackRound(front[128 * n..]);
  }

  /** What the two padding checks decide once the rounds the payload reaches are built. */
  lemma PaddingDecides(raw: seq<Byte>, n: nat, rounds: nat, out: seq<Byte>, length: nat)
    requires Sized(rounds) && 1 <= n <= rounds && |raw| == 128 * rounds && |out| == Capacity(rounds)
    requires RoundsBuilt(raw, n, rounds, out)
    requires raw[1] == 0 && length == ReadLength(raw[2], raw[3], raw[4]) <= Capacity(rounds)
    requires n == rounds || length <= 127 * n - 4
    ensures Accepts(raw, rounds) <==> AllZero(out[length..]) && AllZero(raw[128 * n..])
    ensures Accepts(raw, rounds) ==> Payload(Unpack(raw, rounds), rounds) == out[..length]
  {
    hide Unpack, AllHeads, ReadLength;
    var stream, built := Unpack(raw, rounds), Built(raw, out);
    FirstBytes(raw, rounds);
    assert stream[..4] == [stream[0], stream[1], stream[2], stream[3]];
    Prefix(raw, n, rounds);
    ZeroTail(raw, n, rounds);
    assert built[127 * n..] == out[127 * n - 4..];
    if AllZero(raw[128 * n..]) {
      assert stream == stream[..127 * n] + stream[127 * n..];
      assert built == built[..127 * n] + built[127 * n..];
      assert stream == built;
      assert WellFramed(stream, rounds) <==> AllZero(out[length..]) by {
        assert forall k :: 4 <= k < |stream| ==> stream[k] == out[k - 4];
        if AllZero(out[length..]) {
          forall k | 4 + length <= k < |stream| ensures stream[k] == 0 {
            assert stream[k] == out[length..][k - 4 - length];
          }
        }
      }
    }
  }

  method CheckZero(bytes: seq<Byte>) returns (zero: bool)
    ensures zero <==> AllZero(bytes)
  {
    for i := 0 to |bytes|
      invariant AllZero(bytes[..i])
    {
      if bytes[i] != 0 {
        return false;
      }
      assert bytes[..i + 1] == bytes[..i] + [bytes[i]];
    }
    assert bytes[..|bytes|] == bytes;
    return true;
  }

  /** The decoder with its two moving cursors: `op` into the output, `ip` into the blob. */
  method DecodeRounds(raw: seq<Byte>, rounds: nat) returns (payload: Option<seq<Byte>>)
    requires Sized(rounds)
    ensures payload == if Accepts(raw, rounds) then Some(Payload(Unpack(raw, rounds), rounds)) else None
  {
    hide Unpack, UnpackRound, AllHeads, RoundHeads, JoinX, JoinY, JoinZ;
    if |raw| != 128 * rounds {
      return None;
    }
    FirstBytes(raw, rounds);
    ghost var stream := Unpack(raw, rounds);
    assert stream[..4] == [stream[0], stream[1], stream[2], stream[3]];
    assert raw[1..5] == [raw[1], raw[2], raw[3], raw[4]];
    if raw[1] != 0 {
      return None;
    }
    var length := ReadLength(raw[2], raw[3], raw[4]);
    if length > Capacity(rounds) {
      return None;
    }
    hide ReadLength;
    var out := new Byte[Capacity(rounds)](_ => 0);
    Copy(out, 0, raw[5..32]);
    var op, ip := 28, 32;
    var encoded := new Byte[4](_ => 0);
    encoded[0] := raw[0];
    if !FieldElement(encoded[0]) {
      RoundHeadsAt(raw, 0);
      assert ElementHead(raw, 0, 0) == raw[0];
      NotAllHeads(raw, 0, rounds);
      return None;
    }
    var round := 0;
    while round < rounds
      invariant 0 <= round <= rounds
      invariant (op, ip) == if round == 0 then (28, 32) else (127 * round - 4, 128 * round)
      invariant round == 0 ==> FieldElement(raw[0]) && encoded[0] == raw[0]
      invariant round == 0 ==> out[..27] == raw[5..32] && AllZero(out[27..])
      invariant round > 0 ==> RoundsBuilt(raw, round, rounds, out[..])
    {
      ghost var before := out[..];
      var ok;
      ok, op, ip := DecodeRound(raw, round, out, encoded, op, ip);
      if !ok {
        NotAllHeads(raw, round, rounds);
        return None;
      }
      NextRoundBuilt(raw, round, rounds, before, out[..]);
      round := round + 1;
      if op >= length {
        break;
      }
    }
    PaddingDecides(raw, round, rounds, out[..], length);
    var zero := CheckZero(out[length..]);
    if !zero {
      return None;
    }
    zero := CheckZero(raw[ip..]);
    if !zero {
      return None;
    }
    return Some(out[..length]);
  }

  const BLOB_BYTES: nat := 128 * ROUNDS
  const MAX_PAYLOAD: nat := 127 * ROUNDS - 4

  /** Every accepted blob is the encoding of what is returned; a refused one encodes no payload. */
  method DecodeBlob(raw: seq<Byte>) returns (payload: Option<seq<Byte>>)
    ensures BLOB_BYTES == 131072 && MAX_PAYLOAD == 130044
    ensures payload.Some? ==> |payload.value| <= MAX_PAYLOAD && Encode(payload.value, ROUNDS) == raw
    ensures payload.None? ==> forall p: seq<Byte> :: |p| <= MAX_PAYLOAD ==> Encode(p, ROUNDS) != raw
  {
    payload := DecodeRounds(raw, ROUNDS);
    if payload.Some? {
      AcceptedIsEncoding(raw, ROUNDS);
    } else {
      forall p: seq<Byte> | |p| <= MAX_PAYLOAD
        ensures Encode(p, ROUNDS) != raw
      {
        AcceptsEncoding(p, ROUNDS);
      }
    }
  }

  /** So decoding an encoded payload gives back that payload and no other. */
  lemma EncodeInjective(p: seq<Byte>, q: seq<Byte>, rounds: nat)
    requires Sized(rounds) && |p| <= Capacity(rounds) && |q| <= Capacity(rounds)
    requires Encode(p, rounds) == Encode(q, rounds)
    ensures p == q
  {
    AcceptsEncoding(p, rounds);
    AcceptsEncoding(q, rounds);
  }
}
