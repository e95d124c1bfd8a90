/** From the bytes of a channel to its blocks: a list of span batches, each decoded in turn. */
module ChannelBlocks {
  import opened Prelude
  import opened StoreTypes
  import opened SpanColumns
  import opened SpanRows
  import opened SpanBlocks
  import opened ChannelDecoding
  import opened DepositQueue
  import RetainedSet
  import Store
  import InboxScan
  import WireFormat

  const SPAN_BATCH: Byte := 1

  /** Decompression and RLP splitting of a channel into batches, foreign; None is any refusal. */
  type Unpack = seq<Byte> -> Option<seq<seq<Byte>>>

  ghost function BatchBlocks(codec: Codec, batchIndex: Uint64, batch: seq<Byte>): Option<seq<Block>>
    requires SelfDelimiting(codec.item)
  {
    if batch == [] || batch[0] != SPAN_BATCH then None else DecodedSpan(codec, batchIndex, batch[1..])
  }

  ghost function AllBlocks(codec: Codec, batchIndex: Uint64, batches: seq<seq<Byte>>): Option<seq<Block>>
    requires SelfDelimiting(codec.item)
  {
    if batches == [] then Some([]) else
    var front := AllBlocks(codec, batchIndex, batches[..|batches| - 1]);
    var last := BatchBlocks(codec, batchIndex, batches[|batches| - 1]);
    if front.None? || last.None? then None else Some(front.value + last.value)
  }

  ghost function ChannelOf(unpack: Unpack, codec: Codec, data: seq<Byte>, batchIndex: Uint64): Option<seq<Block>>
    requires SelfDelimiting(codec.item)
  {
    if data == [] || unpack(data).None? then None else AllBlocks(codec, batchIndex, unpack(data).value)
  }

  lemma {:induction false} AllBlocksPrefix(codec: Codec, batchIndex: Uint64, batches: seq<seq<Byte>>, j: nat)
    requires SelfDelimiting(codec.item) && j <= |batches| && AllBlocks(codec, batchIndex, batches).Some?
    ensures AllBlocks(codec, batchIndex, batches[..j]).Some?
    decreases |batches|
  {
    hide BatchBlocks, SelfDelimiting;
    if j == |batches| {
      assert batches[..j] == batches;
    } else {
      assert batches[..|batches| - 1][..j] == batches[..j];
      AllBlocksPrefix(codec, batchIndex, batches[..|batches| - 1], j);
    }
  }

  lemma AllBlocksSnoc(codec: Codec, batchIndex: Uint64, batches: seq<seq<Byte>>, j: nat)
    requires SelfDelimiting(codec.item) && j < |batches|
    ensures var front := AllBlocks(codec, batchIndex, batches[..j]);
      var last := BatchBlocks(codec, batchIndex, batches[j]);
      && AllBlocks(codec, batchIndex, batches[..j + 1])
         == (if front.None? || last.None? then None else Some(front.value + last.value))
      && (last.None? ==> AllBlocks(codec, batchIndex, batches).None?)
  {
    hide BatchBlocks, SelfDelimiting;
    assert batches[..j + 1][..j] == batches[..j];
    if AllBlocks(codec, batchIndex, batches).Some? {
      AllBlocksPrefix(codec, batchIndex, batches, j + 1);
    }
  }

  method DecodeChannel(unpack: Unpack, codec: Codec, data: seq<Byte>, batchIndex: Uint64)
    returns (blocks: Option<seq<Block>>)
    requires SelfDelimiting(codec.item)
    ensures blocks == ChannelOf(unpack, codec, data, batchIndex)
  {
    hide SelfDelimiting, DecodedSpan;
    if |data| == 0 {
      return None;
    }
    var batches := unpack(data);
    if batches.None? {
      return None;
    }
    var bs, out: seq<Block> := batches.value, [];
    assert bs[..|bs|] == bs;
    for i := 0 to |bs|
      invariant AllBlocks(codec, batchIndex, bs[..i]) == Some(out)
    {
      AllBlocksSnoc(codec, batchIndex, bs, i);
      if |bs[i]| == 0 || bs[i][0] != SPAN_BATCH {
        return None;
      }
      var decoded := DecodeSpan(codec, bs[i][1..], batchIndex);
      if decoded.None? {
        return None;
      }
      out := out + decoded.value;
    }
    blocks := Some(out);
  }

  // ---------------------------------------------------------------- what the ingestion relies on

  ghost predicate Stamped(blocks: seq<Block>, batchIndex: Uint64) {
    forall i :: 0 <= i < |blocks| ==> blocks[i].batchIndex == batchIndex
  }

  lemma DecodedStamped(codec: Codec, batchIndex: Uint64, data: seq<Byte>)
    requires SelfDelimiting(codec.item) && DecodedSpan(codec, batchIndex, data).Some?
    ensures Stamped(DecodedSpan(codec, batchIndex, data).value, batchIndex)
  {
    hide BlockOf, ParseSpan, BlocksOf, SelfDelimiting, SpanFits;
    var c := ParseSpan(codec.item, data).value;
    ParsedSpanFits(codec.item, data);
    assert Shaped(c) && Numbered(c.start, |c.counts|) by { FitsShaped(codec.item, c); }
    BlocksExact(codec, batchIndex, c.start, SpanOf(c).blocks);
  }

  lemma FitsShaped(item: ItemSize, c: Columns)
    requires SpanFits(item, c)
    ensures Shaped(c) && Numbered(c.start, |c.counts|)
  {
  }

  lemma {:induction false} AllStamped(codec: Codec, batchIndex: Uint64, batches: seq<seq<Byte>>)
    requires SelfDelimiting(codec.item) && AllBlocks(codec, batchIndex, batches).Some?
    ensures Stamped(AllBlocks(codec, batchIndex, batches).value, batchIndex)
  {
    hide DecodedSpan, SelfDelimiting;
    if batches != [] {
      AllStamped(codec, batchIndex, batches[..|batches| - 1]);
      DecodedStamped(codec, batchIndex, batches[|batches| - 1][1..]);
    }
  }

  /** The channel decoder stamps its blocks, which is what the checks of the store rest on. */
  lemma DecoderStamps(unpack: Unpack, codec: Codec, decode: Decoder)
    requires SelfDelimiting(codec.item)
    requires forall data, batchIndex :: decode(data, batchIndex) == ChannelOf(unpack, codec, data, batchIndex)
    ensures InboxScan.Stamps(decode)
  {
    hide DecodedSpan, SelfDelimiting, AllBlocks;
    forall data, batchIndex | decode(data, batchIndex).Some?
      ensures Stamped(decode(data, batchIndex).value, batchIndex)
    {
      AllStamped(codec, batchIndex, unpack(data).value);
    }
  }

  /** The encoding of a list of spans, before RLP and compression. */
  function WriteBatches(spans: seq<Span>): (batches: seq<seq<Byte>>)
    ensures |batches| == |spans|
  {
    seq(|spans|, i requires 0 <= i < |spans| => [SPAN_BATCH] + WriteSpan(ColumnsOf(spans[i])))
  }

  ghost function SpansBlocks(codec: Codec, batchIndex: Uint64, spans: seq<Span>): Option<seq<Block>>
    requires forall s :: s in spans ==> SpanOk(codec.item, s)
  {
    if spans == [] then Some([]) else
    var last := spans[|spans| - 1];
    assert last in spans && SpanOk(codec.item, last);
    var front := SpansBlocks(codec, batchIndex, spans[..|spans| - 1]);
    var more := BlocksOf(codec, batchIndex, last.start, last.blocks);
    if front.None? || more.None? then None else Some(front.value + more.value)
  }

  lemma {:induction false} BatchesDecode(codec: Codec, batchIndex: Uint64, spans: seq<Span>)
    requires SelfDelimiting(codec.item) && forall s :: s in spans ==> SpanOk(codec.item, s)
    ensures AllBlocks(codec, batchIndex, WriteBatches(spans)) == SpansBlocks(codec, batchIndex, spans)
  {
    hide DecodedSpan, SelfDelimiting, SpanOk, BlocksOf, WriteSpan, ColumnsOf;
    if spans != [] {
      var k := |spans| - 1;
      BatchesDecode(codec, batchIndex, spans[..k]);
      var batches := WriteBatches(spans);
      assert batches[..k] == WriteBatches(spans[..k]);
      assert batches[k][1..] == WriteSpan(ColumnsOf(spans[k]));
      DecodedEncoding(codec, batchIndex, spans[k]);
    }
  }

  /** A packed channel decodes to the blocks of its spans, in order. */
  lemma ChannelRoundTrip(unpack: Unpack, codec: Codec, batchIndex: Uint64, data: seq<Byte>, spans: seq<Span>)
    requires SelfDelimiting(codec.item) && data != [] && forall s :: s in spans ==> SpanOk(codec.item, s)
    requires unpack(data) == Some(WriteBatches(spans))
    ensures ChannelOf(unpack, codec, data, batchIndex) == SpansBlocks(codec, batchIndex, spans)
  {
    hide DecodedSpan, SelfDelimiting, SpanOk, AllBlocks, SpansBlocks;
    BatchesDecode(codec, batchIndex, spans);
  }

  // ---------------------------------------------------------------- what a channel may do to the store

  /** The deposits of a decoded block are malformed only where a nonce is the largest integer. */
  lemma DepositsWellFormedIff(codec: Codec, out: Block, b: BlockRow)
    requires EntriesMatch(codec, out, b)
    ensures (forall k :: 0 <= k < |out.transactions| && out.transactions[k].queueOrigin == L1 ==>
               WellFormedDeposit(out.transactions[k]))
            <==> (forall k :: 0 <= k < |b.txs| && b.txs[k].deposit.Some? ==> b.txs[k].nonce < MAX_UINT64)
  {
    forall k | 0 <= k < |b.txs|
      ensures out.transactions[k].queueOrigin == L1 <==> b.txs[k].deposit.Some?
      ensures b.txs[k].deposit.Some? ==> out.transactions[k].queueIndex == Some(b.txs[k].nonce)
    {
      assert Entry(codec, PlaceOf(out.batchIndex, out.index, b), b.txs[k]) == Some(out.transactions[k]);
    }
  }

  /** Joining a decoded block with the deposits reports corruption exactly when a deposit with the largest nonce
      comes before any that is not stored yet. */
  lemma DecodedCorruptIff(codec: Codec, out: Block, b: BlockRow, records: map<Uint64, Record>)
    requires EntriesMatch(codec, out, b)
    ensures Hydrate(out.transactions, records).Malformed? <==>
              exists i :: 0 <= i < |b.txs| && b.txs[i].deposit.Some? && b.txs[i].nonce == MAX_UINT64
                && forall j :: 0 <= j < i ==> Stored(b.txs[j], records)
  {
    HydrateExact(out.transactions, records);
    forall k | 0 <= k < |b.txs|
      ensures Resolved(out.transactions[k], records) <==> Stored(b.txs[k], records)
      ensures (out.transactions[k].queueOrigin == L1 && !WellFormedDeposit(out.transactions[k])) <==>
                (b.txs[k].deposit.Some? && b.txs[k].nonce == MAX_UINT64)
    {
      assert Entry(codec, PlaceOf(out.batchIndex, out.index, b), b.txs[k]) == Some(out.transactions[k]);
    }
  }

  /** The row is no deposit, or its deposit can be joined. */
  predicate Stored(row: TxRow, records: map<Uint64, Record>) {
    row.deposit.Some? ==> row.nonce < MAX_UINT64 && StoredIndex(row.nonce) in records
  }

  /** So whatever deposits are stored, a block that begins with such a deposit is reported corrupt by every read. */
  lemma LargestNonceCorrupts(codec: Codec, out: Block, b: BlockRow, a: RetainedSet.Retained, id: RetainedSet.ChannelKey,
                             records: map<Uint64, Record>, r: Store.Outcome, response: Store.BlockResponse)
    requires EntriesMatch(codec, out, b) && b.txs != [] && b.txs[0].deposit.Some? && b.txs[0].nonce == MAX_UINT64
    requires id in a.channels
      && (forall k :: 0 <= k < |a.channels[id].blocks| && a.channels[id].blocks[k].index == out.index ==>
               a.channels[id].blocks[k] == out)
    requires Store.Published(a, id, out.index, records, r, response)
    ensures Hydrate(out.transactions, records).Malformed? && r == Store.Integrity
  {
    DecodedCorruptIff(codec, out, b, records);
  }

  // ---------------------------------------------------------------- a corrupt block on the wire

  /** Whatever the codec: joining the i-th block of an encoded and decoded span reports corruption exactly when its
      rows say so. */
  lemma WireCorruptIff(codec: Codec, batchIndex: Uint64, s: Span, i: nat, records: map<Uint64, Record>)
    requires SelfDelimiting(codec.item) && SpanOk(codec.item, s) && i < |s.blocks|
    requires BlocksOf(codec, batchIndex, s.start, s.blocks).Some?
    ensures var out, txs := DecodedSpan(codec, batchIndex, WriteSpan(ColumnsOf(s))), s.blocks[i].txs;
      && out.Some? && |out.value| == |s.blocks|
      && (Hydrate(out.value[i].transactions, records).Malformed? <==>
            exists k :: 0 <= k < |txs| && txs[k].deposit.Some? && txs[k].nonce == MAX_UINT64
              && forall j :: 0 <= j < k ==> Stored(txs[j], records))
  {
    hide SelfDelimiting, DecodedSpan, WriteSpan, ColumnsOf, BlocksOf, EntriesMatch;
    DecodedEncoding(codec, batchIndex, s);
    BlocksExact(codec, batchIndex, s.start, s.blocks);
    DecodedCorruptIff(codec, BlocksOf(codec, batchIndex, s.start, s.blocks).value[i], s.blocks[i], records);
  }

  /** So no deposit queue makes a block readable whose first row is a deposit with the largest nonce. */
  lemma CorruptBlockOnWire(codec: Codec, batchIndex: Uint64, s: Span, i: nat, records: map<Uint64, Record>)
    requires SelfDelimiting(codec.item) && SpanOk(codec.item, s) && i < |s.blocks|
    requires BlocksOf(codec, batchIndex, s.start, s.blocks).Some?
    requires var txs := s.blocks[i].txs; txs != [] && txs[0].deposit.Some? && txs[0].nonce == MAX_UINT64
    ensures var out := DecodedSpan(codec, batchIndex, WriteSpan(ColumnsOf(s)));
      out.Some? && i < |out.value| && Hydrate(out.value[i].transactions, records).Malformed?
  {
    hide SelfDelimiting, DecodedSpan, WriteSpan, ColumnsOf, BlocksOf, Stored, SpanOk;
    WireCorruptIff(codec, batchIndex, s, i, records);
  }

  /** An RLP reader that takes single bytes for items, and a codec under which every row restores. */
  function OneByte(data: seq<Byte>): Option<nat> { if data == [] then None else Some(1) }

  const SIMPLE_CODEC: Codec := Codec(OneByte, _ => Some(Body(0, 0, [])), _ => true, (tx: Tx) => Some(tx.payload), 1088)

  const CORRUPT_ROW: TxRow :=
    TxRow([0xc0], MAX_UINT64, 21000, None, Signature(Zeros(32), Zeros(32)), false, true, Some(Zeros(20)),
                                    Signature(Zeros(32), Zeros(32)), false)

  const CORRUPT_SPAN: Span := Span(1, Zeros(40), [BlockRow(false, 0, 0, [], [CORRUPT_ROW])])

  lemma SimpleCodec()
    ensures SelfDelimiting(SIMPLE_CODEC.item) && IsPayload(SIMPLE_CODEC.item, [0xc0])
  {
    forall data, more ensures Delimited(SIMPLE_CODEC.item, data, more) {
      var r := ParseItem(SIMPLE_CODEC.item, data);
      if r.Good? {
        assert (r.value + more)[..1] == r.value && (r.value + more)[1..] == more;
      }
    }
    var p: seq<Byte> := [0xc0];
    assert p[..1] == p && p[1..] == [];
    assert ParseItem(OneByte, p) == WireFormat.Good(p, []);
  }

  /** For example: encoded bytes that the decoder accepts and whose one block no deposit queue can make readable. */
  lemma CorruptExample(batchIndex: Uint64, records: map<Uint64, Record>)
    ensures SelfDelimiting(SIMPLE_CODEC.item)
    ensures var out := DecodedSpan(SIMPLE_CODEC, batchIndex, WriteSpan(ColumnsOf(CORRUPT_SPAN)));
      out.Some? && |out.value| == 1 && Hydrate(out.value[0].transactions, records).Malformed?
  {
    hide SelfDelimiting, DecodedSpan, WriteSpan, ColumnsOf, IsPayload;
    SimpleCodec();
    var s, b := CORRUPT_SPAN, CORRUPT_SPAN.blocks[0];
    assert s.blocks[..0] == [] && b.txs[..0] == [];
    assert Flatten(s.blocks) == [CORRUPT_ROW];
    var at := PlaceOf(batchIndex, 0, b);
    assert Entry(SIMPLE_CODEC, at, CORRUPT_ROW).Some?;
    assert Entries(SIMPLE_CODEC, at, b.txs).Some?;
    assert BlocksOf(SIMPLE_CODEC, batchIndex, 1, s.blocks[..0]) == Some([]);
    assert BlocksOf(SIMPLE_CODEC, batchIndex, 1, s.blocks).Some?;
    WireCorruptIff(SIMPLE_CODEC, batchIndex, s, 0, records);
    CorruptBlockOnWire(SIMPLE_CODEC, batchIndex, s, 0, records);
  }

  /** The block indexes a span takes. */
  predicate Takes(s: Span, n: int) { s.start - 1 <= n < s.start - 1 + |s.blocks| }

  ghost predicate Disjoint(spans: seq<Span>) {
    forall i, j, n :: 0 <= i < j < |spans| && Takes(spans[i], n) ==> !Takes(spans[j], n)
  }

  lemma SpanIndexes(codec: Codec, batchIndex: Uint64, s: Span)
    requires Numbered(s.start, |s.blocks|) && BlocksOf(codec, batchIndex, s.start, s.blocks).Some?
    ensures var indexes := Indexes(BlocksOf(codec, batchIndex, s.start, s.blocks).value);
      RetainedSet.Distinct(indexes) && forall n: Uint64 :: n in indexes <==> Takes(s, n)
  {
    hide BlocksOf, EntriesMatch;
    BlocksExact(codec, batchIndex, s.start, s.blocks);
    var indexes := Indexes(BlocksOf(codec, batchIndex, s.start, s.blocks).value);
    forall n: Uint64 | Takes(s, n) ensures n in indexes {
      assert indexes[n - (s.start - 1)] == n;
    }
  }

  lemma IndexesConcat(a: seq<Block>, b: seq<Block>)
    ensures Indexes(a + b) == Indexes(a) + Indexes(b)
  {
  }

  lemma DistinctConcat(a: seq<Uint64>, b: seq<Uint64>)
    ensures RetainedSet.Distinct(a + b) <==>
            RetainedSet.Distinct(a) && RetainedSet.Distinct(b) && forall n: Uint64 :: n in a ==> n !in b
  {
    var all := a + b;
    if RetainedSet.Distinct(all) {
      forall i, j | 0 <= i < j < |a| ensures a[i] != a[j] { assert all[i] != all[j]; }
      forall i, j | 0 <= i < j < |b| ensures b[i] != b[j] { assert all[|a| + i] != all[|a| + j]; }
      forall i, j | 0 <= i < |a| && 0 <= j < |b| ensures a[i] != b[j] { assert all[i] != all[|a| + j]; }
    }
    if RetainedSet.Distinct(a) && RetainedSet.Distinct(b) && forall n: Uint64 :: n in a ==> n !in b {
      forall i, j | 0 <= i < j < |all| ensures all[i] != all[j] {
        if i < |a| <= j {
          assert a[i] in a && b[j - |a|] in b;
        }
      }
    }
  }

  /** A channel repeats no block index, and so can always be pruned, exactly when its spans do not overlap. */
  lemma {:induction false} DistinctIffDisjoint(codec: Codec, batchIndex: Uint64, spans: seq<Span>)
    requires (forall s :: s in spans ==> SpanOk(codec.item, s)) && SpansBlocks(codec, batchIndex, spans).Some?
    ensures var indexes := Indexes(SpansBlocks(codec, batchIndex, spans).value);
      && (RetainedSet.Distinct(indexes) <==> Disjoint(spans))
      && forall n: Uint64 :: n in indexes <==> exists j :: 0 <= j < |spans| && Takes(spans[j], n)
  {
    hide BlocksOf, RetainedSet.Distinct, Indexes, Takes;
    if spans == [] {
      assert RetainedSet.Distinct(Indexes([])) && Indexes([]) == [] by { NoIndexes(); }
    } else {
      var front, last := spans[..|spans| - 1], spans[|spans| - 1];
      assert spans == front + [last] && SpanOk(codec.item, last);
      DistinctIffDisjoint(codec, batchIndex, front);
      SpanIndexes(codec, batchIndex, last);
      var a, b := SpansBlocks(codec, batchIndex, front).value,
        BlocksOf(codec, batchIndex, last.start, last.blocks).value;
      IndexesConcat(a, b);
      DistinctConcat(Indexes(a), Indexes(b));
      DisjointSnoc(front, last);
      TakenBits(last);
    }
  }

  lemma NoIndexes()
    ensures RetainedSet.Distinct(Indexes([])) && Indexes([]) == []
  {
  }

  lemma TakenBits(s: Span)
    requires Numbered(s.start, |s.blocks|)
    ensures forall n :: Takes(s, n) ==> 0 <= n <= MAX_UINT64
  {
  }

  lemma DisjointSnoc(front: seq<Span>, last: Span)
    ensures Disjoint(front + [last]) <==>
            Disjoint(front) && forall j, n :: 0 <= j < |front| && Takes(front[j], n) ==> !Takes(last, n)
  {
    hide Takes;
    var all := front + [last];
    assert forall j :: 0 <= j < |front| ==> all[j] == front[j];
    assert all[|front|] == last;
  }

  /** Overlapping spans that are accepted once stop retention for good: when their channel has to expire, no
      commit can raise the cutoff past it. */
  lemma OverlapBlocksPruning(codec: Codec, spans: seq<Span>, a: RetainedSet.Retained, ch: BlobChannel, cutoff: Uint64,
                             txs: seq<BlobTransaction>, channels: seq<BlobChannel>, later: Uint64)
    requires (forall s :: s in spans ==> SpanOk(codec.item, s)) && !Disjoint(spans)
    requires SpansBlocks(codec, ch.record.batch.index, spans) == Some(ch.blocks)
    requires ch.record.blocks == Indexes(ch.blocks)
    requires RetainedSet.Valid(a) && RetainedSet.PutChannel(a, ch, cutoff).Some?
    requires cutoff <= ch.record.expiresAt < later
    ensures RetainedSet.Commit(RetainedSet.PutChannel(a, ch, cutoff).value, txs, channels, later).None?
  {
    hide RetainedSet.Valid, RetainedSet.Commit, RetainedSet.PutChannel, Disjoint, SpanOk, SpansBlocks,
         RetainedSet.Distinct;
    DistinctIffDisjoint(codec, ch.record.batch.index, spans);
    RetainedSet.PutChannelKeeps(a, ch, cutoff);
    RetainedSet.RepeatedNeverPrunes(RetainedSet.PutChannel(a, ch, cutoff).value, ch.record.id, txs, channels, later);
  }

  /** Such spans are easily accepted: an empty block said twice decodes, overlaps, and contradicts nothing. */
  lemma TwiceAnEmptyBlock(codec: Codec, batchIndex: Uint64, s: Span, a: RetainedSet.Retained, ch: BlobChannel,
                          cutoff: Uint64)
    requires SpanOk(codec.item, s) && |s.blocks| == 1 && s.blocks[0].txs == []
    requires ch.record.blocks == Indexes(ch.blocks) && ch.record.batch.index == batchIndex
    requires SpansBlocks(codec, batchIndex, [s, s]) == Some(ch.blocks)
    requires RetainedSet.Sourced(ch, a.txs) && !RetainedSet.Conflicting(a, ch)
    ensures !Disjoint([s, s]) && RetainedSet.PutChannel(a, ch, cutoff).Some?
  {
    hide RetainedSet.Sourced, RetainedSet.Conflicting;
    TwiceDecoded(codec, batchIndex, s);
    var n: int := s.start - 1;
    assert Takes([s, s][0], n) && Takes([s, s][1], n);
  }

  lemma TwiceDecoded(codec: Codec, batchIndex: Uint64, s: Span)
    requires SpanOk(codec.item, s) && |s.blocks| == 1 && s.blocks[0].txs == []
    ensures var block := Block(s.start - 1, batchIndex, 0, s.blocks[0].extra, []);
      SpansBlocks(codec, batchIndex, [s, s]) == Some([block, block])
  {
    assert s.blocks[..0] == [] && s.blocks == [s.blocks[0]];
    var one, two := [s], [s, s];
    assert two[..|two| - 1] == one && one[..|one| - 1] == [] && two[|two| - 1] == s;
    var block := Block(s.start - 1, batchIndex, 0, s.blocks[0].extra, []);
    assert Entries(codec, PlaceOf(batchIndex, s.start - 1, s.blocks[0]), s.blocks[0].txs) == Some([]);
    assert BlockOf(codec, batchIndex, s.start - 1, s.blocks[0]) == Some(block);
    assert BlocksOf(codec, batchIndex, s.start, []) == Some([]);
    BlocksSnoc(codec, batchIndex, s.start, s.blocks, 0);
    assert s.blocks[..1] == s.blocks && [] + [block] == [block];
    assert BlocksOf(codec, batchIndex, s.start, s.blocks) == Some([block]);
    assert SpansBlocks(codec, batchIndex, one) == Some([block]);
    assert SpansBlocks(codec, batchIndex, two) == Some([block] + [block]);
    assert [block] + [block] == [block, block];
  }
}
