/** The derivation frame format (OP Stack, Derivation, "Frame Format") of one blob payload. */
module Frames {
  import opened Prelude

  const MAX_FRAME_BYTES: nat := 1_000_000

  datatype Frame = Frame(id: seq<Byte>, number: nat, last: bool, data: seq<Byte>) {
    /** What the wire format can carry. */
    predicate Valid() { |id| == 16 && number < 0x1_0000 && |data| <= MAX_FRAME_BYTES }
  }

  // ---------------------------------------------------------------- the serializer

  function Uint16(n: nat): (bytes: seq<Byte>)
    requires n < 0x1_0000
    ensures |bytes| == 2
  {
    [n / 0x100, n % 0x100]
  }

  function Uint32(n: nat): (bytes: seq<Byte>)
    requires n < 0x1_0000_0000
    ensures |bytes| == 4
  {
    Uint16(n / 0x1_0000) + Uint16(n % 0x1_0000)
  }

  function SerializeFrame(f: Frame): (bytes: seq<Byte>)
    requires f.Valid()
    ensures |bytes| == 23 + |f.data|
  {
    f.id + Uint16(f.number) + Uint32(|f.data|) + f.data + [if f.last then 1 else 0]
  }

  ghost predicate AllValid(frames: seq<Frame>) { forall i :: 0 <= i < |frames| ==> frames[i].Valid() }

  function SerializeFrames(frames: seq<Frame>): (bytes: seq<Byte>)
    requires AllValid(frames)
  {
    if frames == [] then [] else SerializeFrame(frames[0]) + SerializeFrames(frames[1..])
  }

  /** The version byte and the frames. */
  function Serialize(frames: seq<Frame>): (bytes: seq<Byte>)
    requires AllValid(frames)
  {
    [0] + SerializeFrames(frames)
  }

  // ---------------------------------------------------------------- one frame

  function ReadUint16(bytes: seq<Byte>): (n: nat)
    requires |bytes| == 2
    ensures n < 0x1_0000
  {
    (bytes[0] as int) * 0x100 + bytes[1]
  }

  function ReadUint32(bytes: seq<Byte>): (n: nat)
    requires |bytes| == 4
    ensures n < 0x1_0000_0000
  {
    ReadUint16(bytes[..2]) * 0x1_0000 + ReadUint16(bytes[2..])
  }

  lemma Uint16RoundTrip(n: nat)
    requires n < 0x1_0000
    ensures ReadUint16(Uint16(n)) == n
  {
  }

  lemma ReadUint16RoundTrip(bytes: seq<Byte>)
    requires |bytes| == 2
    ensures Uint16(ReadUint16(bytes)) == bytes
  {
  }

  lemma Uint32RoundTrip(n: nat)
    requires n < 0x1_0000_0000
    ensures ReadUint32(Uint32(n)) == n
  {
    hide Uint16, ReadUint16;
    Uint16RoundTrip(n / 0x1_0000);
    Uint16RoundTrip(n % 0x1_0000);
    assert Uint32(n)[..2] == Uint16(n / 0x1_0000) && Uint32(n)[2..] == Uint16(n % 0x1_0000);
  }

  lemma ReadUint32RoundTrip(bytes: seq<Byte>)
    requires |bytes| == 4
    ensures Uint32(ReadUint32(bytes)) == bytes
  {
    hide Uint16, ReadUint16;
    var high, low := ReadUint16(bytes[..2]), ReadUint16(bytes[2..]);
    assert (high * 0x1_0000 + low) / 0x1_0000 == high && (high * 0x1_0000 + low) % 0x1_0000 == low;
    ReadUint16RoundTrip(bytes[..2]);
    ReadUint16RoundTrip(bytes[2..]);
    assert bytes == bytes[..2] + bytes[2..];
  }

  /** The frame at the head of `data`, if the length, the limit and the end flag allow one. */
  function HeadFrame(data: seq<Byte>): (f: Option<Frame>)
    ensures f.Some? ==> f.value.Valid() && 23 + |f.value.data| <= |data|
  {
    if |data| < 23 then None else
    var n := ReadUint32(data[18..22]);
    if n > MAX_FRAME_BYTES || n + 23 > |data| then None
    else if data[22 + n] > 1 then None
    else Some(Frame(data[..16], ReadUint16(data[16..18]), data[22 + n] == 1, data[22..22 + n]))
  }

  /** Where a frame's fields stand, high bytes first, and exactly which bytes are a frame. */
  lemma HeadLayout(data: seq<Byte>)
    ensures var f := HeadFrame(data);
      if |data| < 23 then f.None? else
      var n := 0x100_0000 * (data[18] as int) + 0x1_0000 * (data[19] as int) + 0x100 * (data[20] as int) + data[21];
      if n > 1_000_000 || 23 + n > |data| then f.None?
      else if data[22 + n] != 0 && data[22 + n] != 1 then f.None?
      else
        && f.Some? && f.value.id == data[..16] && f.value.number == (data[16] as int) * 0x100 + data[17]
        && f.value.data == data[22..22 + n] && (f.value.last <==> data[22 + n] == 1)
  {
  }

  lemma HeadOfSerialized(f: Frame, rest: seq<Byte>)
    requires f.Valid()
    ensures HeadFrame(SerializeFrame(f) + rest) == Some(f)
    ensures (SerializeFrame(f) + rest)[23 + |f.data|..] == rest
  {
    hide Uint16, Uint32, ReadUint16, ReadUint32;
    var data, n := SerializeFrame(f) + rest, |f.data|;
    assert data[..16] == f.id && data[16..18] == Uint16(f.number) && data[18..22] == Uint32(n);
    assert data[22..22 + n] == f.data && data[22 + n] == if f.last then 1 else 0;
    Uint16RoundTrip(f.number);
    Uint32RoundTrip(n);
  }

  lemma SerializedHead(data: seq<Byte>)
    requires HeadFrame(data).Some?
    ensures var f := HeadFrame(data).value; data == SerializeFrame(f) + data[23 + |f.data|..]
  {
    hide Uint16, Uint32, ReadUint16, ReadUint32;
    var f := HeadFrame(data).value;
    var n := |f.data|;
    ReadUint16RoundTrip(data[16..18]);
    ReadUint32RoundTrip(data[18..22]);
    assert data[..23 + n] == data[..16] + data[16..18] + data[18..22] + data[22..22 + n] + [data[22 + n]];
  }

  // ---------------------------------------------------------------- all frames

  /** Specification of the parsing loop, from the bytes it has left. */
  function ParseRest(data: seq<Byte>): (frames: Option<seq<Frame>>)
    ensures frames.Some? ==> AllValid(frames.value)
  {
    if data == [] then Some([]) else
    var head := HeadFrame(data);
    if head.None? then None else
    var rest := ParseRest(data[23 + |head.value.data|..]);
    if rest.None? then None else Some([head.value] + rest.value)
  }

  lemma {:induction false} ParseSerialized(frames: seq<Frame>)
    requires AllValid(frames)
    ensures ParseRest(SerializeFrames(frames)) == Some(frames)
  {
    hide HeadFrame, SerializeFrame;
    if frames != [] {
      HeadOfSerialized(frames[0], SerializeFrames(frames[1..]));
      ParseSerialized(frames[1..]);
      assert frames == [frames[0]] + frames[1..];
    }
  }

  lemma {:induction false} SerializedParse(data: seq<Byte>)
    requires ParseRest(data).Some?
    ensures SerializeFrames(ParseRest(data).value) == data
    decreases |data|
  {
    hide HeadFrame, SerializeFrame;
    if data != [] {
      SerializedHead(data);
      var rest := data[23 + |HeadFrame(data).value.data|..];
      SerializedParse(rest);
      assert ParseRest(data).value[1..] == ParseRest(rest).value;
    }
  }

  /** Accepts exactly the serializations of non-empty frame lists, and returns that list. */
  method ParseFrames(payload: seq<Byte>) returns (frames: Option<seq<Frame>>)
    ensures frames.Some? ==> frames.value != [] && AllValid(frames.value) && Serialize(frames.value) == payload
    ensures frames.None? ==> forall fs: seq<Frame> :: fs != [] && AllValid(fs) ==> Serialize(fs) != payload
  {
    hide HeadFrame, SerializeFrame;
    NoOtherFrames(payload);
    if |payload| == 0 || payload[0] != 0 {
      return None;
    }
    var data, out := payload[1..], [];
    assert forall fs: seq<Frame> :: out + fs == fs;
    while |data| > 0
      invariant AllValid(out)
      invariant ParseRest(payload[1..]) == var rest := ParseRest(data); if rest.None? then None
        else Some(out + rest.value)
      decreases |data|
    {
      var head := HeadFrame(data);
      if head.None? {
        return None;
      }
      ghost var rest := ParseRest(data[23 + |head.value.data|..]);
      if rest.Some? {
        assert (out + [head.value]) + rest.value == out + ([head.value] + rest.value);
      }
      out := out + [head.value];
      data := data[23 + |head.value.data|..];
    }
    if |out| == 0 {
      return None;
    }
    assert out + [] == out;
    SerializedParse(payload[1..]);
    assert payload == [0] + payload[1..];
    return Some(out);
  }

  lemma NoOtherFrames(payload: seq<Byte>)
    ensures forall fs: seq<Frame> :: AllValid(fs) && Serialize(fs) == payload ==>
              |payload| > 0 && payload[0] == 0 && ParseRest(payload[1..]) == Some(fs)
  {
    forall fs: seq<Frame> | AllValid(fs) && Serialize(fs) == payload
      ensures |payload| > 0 && payload[0] == 0 && ParseRest(payload[1..]) == Some(fs)
    {
      ParseSerialized(fs);
      assert payload[1..] == SerializeFrames(fs);
    }
  }

  /** Different frame lists never share a serialization. */
  lemma SerializeInjective(a: seq<Frame>, b: seq<Frame>)
    requires AllValid(a) && AllValid(b) && Serialize(a) == Serialize(b)
    ensures a == b
  {
    ParseSerialized(a);
    ParseSerialized(b);
    assert Serialize(a)[1..] == SerializeFrames(a) && Serialize(b)[1..] == SerializeFrames(b);
  }
}
