/** What a decoded span publishes, field by field, for every row that was encoded. */
module SpanMeaning {
  import opened Prelude
  import opened StoreTypes
  import opened SpanColumns
  import opened SpanRows
  import opened SpanBlocks

  /** The transaction that is given to signature recovery and encoding. */
  ghost predicate Given(codec: Codec, row: TxRow, t: Tx) {
    && codec.body(row.payload) == Some(t.body) && t.payload == row.payload
    && t.nonce == row.nonce && t.gas == row.gas && t.to == row.to && t.sig == row.sig
    && var parity := if row.parity then 1 else 0;
       if row.payload != [] && row.payload[0] > 0x7f then
         t.v == (if row.protected then parity + 2 * codec.chainId + 35 else parity + 27)
       else t.v == parity
  }

  /** A row that can be published: its body decodes, and unless it is a deposit, the signature recovers and the
      transaction can be encoded. */
  ghost predicate Publishable(codec: Codec, row: TxRow) {
    exists t :: Given(codec, row, t) && (row.deposit.Some? || (codec.recovers(t) && codec.binary(t).Some?))
  }

  /** What every transaction of block `b`, numbered `index`, is published with. */
  ghost predicate Common(batchIndex: Uint64, index: int, b: BlockRow, row: TxRow, e: BlockTransaction) {
    && e.index == index && e.batchIndex == batchIndex
    && e.blockNumber == b.origin && e.timestamp == b.time && e.gasLimit == row.gas && e.target == ZERO_ADDRESS
  }

  ghost predicate AsDeposit(row: TxRow, t: Tx, e: BlockTransaction) {
    && row.deposit == Some(e.origin) && e.data == t.body.input
    && e.queueOrigin == L1 && e.queueIndex == Some(row.nonce) && e.signed == None
  }

  ghost predicate AsSequencer(codec: Codec, row: TxRow, t: Tx, e: BlockTransaction) {
    && row.deposit == None && e.origin == ZERO_ADDRESS && codec.recovers(t) && codec.binary(t) == Some(e.data)
    && e.queueOrigin == Sequencer && e.queueIndex == None && e.signed.Some?
    && var d, parity := e.signed.value, if row.parity then 1 else 0;
       && d.nonce == row.nonce && d.gasPrice == t.body.gasPrice && d.value == t.body.value
       && d.to == row.to && d.input == t.body.input && d.r == row.sig.r && d.s == row.sig.s
       && d.seqR == row.seqSig.r && d.seqS == row.seqSig.s && d.seqParity == row.seqParity
       && d.v == if row.payload != [] && row.payload[0] > 0x7f && !row.protected then parity + 27 else parity
  }

  ghost predicate Shown(codec: Codec, batchIndex: Uint64, index: int, b: BlockRow, row: TxRow, e: BlockTransaction) {
    && Common(batchIndex, index, b, row, e)
    && exists t :: Given(codec, row, t) && (AsDeposit(row, t, e) || AsSequencer(codec, row, t, e))
  }

  /** The published block: its own fields, and every row in order. */
  ghost predicate BlockShown(codec: Codec, batchIndex: Uint64, index: int, b: BlockRow, out: Block) {
    && out.index == index && out.batchIndex == batchIndex && out.extraData == b.extra
    && out.timestamp == (if |b.txs| == 0 then 0 else b.time) && |out.transactions| == |b.txs|
    && forall k :: 0 <= k < |b.txs| ==> Shown(codec, batchIndex, index, b, b.txs[k], out.transactions[k])
  }

  lemma EntryShown(codec: Codec, batchIndex: Uint64, index: Uint64, b: BlockRow, row: TxRow)
    ensures var e := Entry(codec, PlaceOf(batchIndex, index, b), row);
      && (e.Some? <==> Publishable(codec, row))
      && (e.Some? ==> Shown(codec, batchIndex, index, b, row, e.value))
  {
    var e, restored := Entry(codec, PlaceOf(batchIndex, index, b), row), Restore(codec, row);
    if restored.Some? {
      var t := restored.value;
      assert Given(codec, row, t);
      forall u | Given(codec, row, u) ensures u == t {}
      if e.Some? {
        assert AsDeposit(row, t, e.value) || AsSequencer(codec, row, t, e.value);
      }
    }
  }

  lemma {:induction false} EntriesShown(codec: Codec, batchIndex: Uint64, index: Uint64, b: BlockRow, k: nat)
    requires k <= |b.txs|
    ensures var es := Entries(codec, PlaceOf(batchIndex, index, b), b.txs[..k]);
      && (es.Some? <==> forall j :: 0 <= j < k ==> Publishable(codec, b.txs[j]))
      && (es.Some? ==>
            && |es.value| == k
            && forall j :: 0 <= j < k ==> Shown(codec, batchIndex, index, b, b.txs[j], es.value[j]))
  {
    hide Entry, Publishable, Shown;
    if k > 0 {
      assert b.txs[..k][..k - 1] == b.txs[..k - 1];
      EntriesShown(codec, batchIndex, index, b, k - 1);
      EntryShown(codec, batchIndex, index, b, b.txs[k - 1]);
    }
  }

  ghost predicate BlockPublishable(codec: Codec, b: BlockRow) {
    forall k :: 0 <= k < |b.txs| ==> Publishable(codec, b.txs[k])
  }

  lemma BlockIsShown(codec: Codec, batchIndex: Uint64, index: Uint64, b: BlockRow)
    ensures var out := BlockOf(codec, batchIndex, index, b);
      && (out.Some? <==> BlockPublishable(codec, b))
      && (out.Some? ==> BlockShown(codec, batchIndex, index, b, out.value))
  {
    hide Entries, Publishable, Shown;
    assert b.txs[..|b.txs|] == b.txs;
    EntriesShown(codec, batchIndex, index, b, |b.txs|);
  }

  lemma {:induction false} BlocksShown(codec: Codec, batchIndex: Uint64, start: Uint64, blocks: seq<BlockRow>)
    requires Numbered(start, |blocks|)
    ensures var out := BlocksOf(codec, batchIndex, start, blocks);
      && (out.Some? <==> forall i :: 0 <= i < |blocks| ==> BlockPublishable(codec, blocks[i]))
      && (out.Some? ==>
            && |out.value| == |blocks|
            && forall i :: 0 <= i < |blocks| ==> BlockShown(codec, batchIndex, start + i - 1, blocks[i], out.value[i]))
  {
    hide BlockOf, BlockPublishable, BlockShown;
    if blocks != [] {
      var k := |blocks| - 1;
      BlocksShown(codec, batchIndex, start, blocks[..k]);
      BlockIsShown(codec, batchIndex, start + k - 1, blocks[k]);
    }
  }

  /** An encoded span decodes exactly when every row can be published, to blocks that show every row. */
  lemma DecodedShows(codec: Codec, batchIndex: Uint64, s: Span)
    requires SelfDelimiting(codec.item) && SpanOk(codec.item, s)
    ensures var out := DecodedSpan(codec, batchIndex, WriteSpan(ColumnsOf(s)));
      && (out.Some? <==> forall i, k :: 0 <= i < |s.blocks| && 0 <= k < |s.blocks[i].txs| ==>
            Publishable(codec, s.blocks[i].txs[k]))
      && (out.Some? ==> |out.value| == |s.blocks| && forall i :: 0 <= i < |s.blocks| ==>
            BlockShown(codec, batchIndex, s.start + i - 1, s.blocks[i], out.value[i]))
  {
    hide SelfDelimiting, DecodedSpan, WriteSpan, ColumnsOf, BlocksOf, BlockShown, Publishable, Canonical;
    DecodedEncoding(codec, batchIndex, s);
    BlocksShown(codec, batchIndex, s.start, s.blocks);
  }

  /** So whatever bytes decode show the rows of some span, and none of its rows is missing. */
  lemma AnyDecodedShows(codec: Codec, batchIndex: Uint64, data: seq<Byte>) returns (s: Span)
    requires SelfDelimiting(codec.item) && DecodedSpan(codec, batchIndex, data).Some?
    ensures SpanOk(codec.item, s) && |DecodedSpan(codec, batchIndex, data).value| == |s.blocks|
    ensures forall i :: 0 <= i < |s.blocks| ==>
              BlockShown(codec, batchIndex, s.start + i - 1, s.blocks[i], DecodedSpan(codec, batchIndex, data).value[i])
  {
    hide SelfDelimiting, DecodedSpan, WriteSpan, ColumnsOf, BlockShown, Publishable, SpanOk;
    s := DecodedIsEncoding(codec, batchIndex, data);
    DecodedShows(codec, batchIndex, s);
  }
}
