/** From the columns of a span to the blocks it commits, with one cursor for each sparse column. */
module SpanBlocks {
  import opened Prelude
  import opened StoreTypes
  import opened WireFormat
  import opened SpanColumns
  import opened SpanRows
  import opened SpanReader

  /** What RLP decoding finds in a payload. */
  datatype Body = Body(value: nat, gasPrice: nat, input: seq<Byte>)

  /** A restored transaction; type and access list are still those of its payload. */
  datatype Tx = Tx(payload: seq<Byte>, nonce: Uint64, gas: Uint64, to: Option<Account>, body: Body, v: nat,
                   sig: Signature)

  /** RLP, signature recovery and transaction encoding, all foreign, and the chain they are for. */
  datatype Codec = Codec(item: ItemSize, body: seq<Byte> -> Option<Body>, recovers: Tx -> bool,
                         binary: Tx -> Option<seq<Byte>>, chainId: Uint64)

  /** Where an entry stands: its batch, its block, and that block's L1 origin and time. */
  datatype Place = Place(batchIndex: Uint64, index: Uint64, origin: Uint64, time: Uint64)

  function PlaceOf(batchIndex: Uint64, index: Uint64, b: BlockRow): Place { Place(batchIndex, index, b.origin, b.time) }

  // ---------------------------------------------------------------- what a row stands for

  function Restore(codec: Codec, row: TxRow): Option<Tx> {
    var body := codec.body(row.payload);
    var parity := if row.parity then 1 else 0;
    if body.None? then None else
    var v := if !IsLegacy(row.payload) then parity else parity + if row.protected then 2 * codec.chainId + 35 else 27;
    Some(Tx(row.payload, row.nonce, row.gas, row.to, body.value, v, row.sig))
  }

  /** A deposit is published by its queue index, any other transaction with its decoded fields and both signatures. */
  function Entry(codec: Codec, at: Place, row: TxRow): Option<BlockTransaction> {
    var tx := Restore(codec, row);
    if tx.None? then None
    else if row.deposit.Some? then
      Some(BlockTransaction(at.index, at.batchIndex, at.origin, at.time, row.gas, ZERO_ADDRESS, row.deposit.value,
                            tx.value.body.input, L1, Some(row.nonce), None))
    else if !codec.recovers(tx.value) then None
    else
      var raw := codec.binary(tx.value);
      if raw.None? then None else
      var v := (if row.parity then 1 else 0) + if IsLegacy(row.payload) && !row.protected then 27 else 0;
      var signed := SignedTransaction(row.nonce, tx.value.body.gasPrice, tx.value.body.value, row.to,
                                      tx.value.body.input, v,
                                      row.sig.r, row.sig.s, row.seqSig.r, row.seqSig.s, row.seqParity);
      Some(BlockTransaction(at.index, at.batchIndex, at.origin, at.time, row.gas, ZERO_ADDRESS, ZERO_ADDRESS, raw.value,
                            Sequencer,
                            None, Some(signed)))
  }

  function Entries(codec: Codec, at: Place, txs: seq<TxRow>): Option<seq<BlockTransaction>> {
    if txs == [] then Some([]) else
    var front := Entries(codec, at, txs[..|txs| - 1]);
    var last := Entry(codec, at, txs[|txs| - 1]);
    if front.None? || last.None? then None else Some(front.value + [last.value])
  }

  /** A block without transactions keeps no timestamp. */
  function BlockOf(codec: Codec, batchIndex: Uint64, index: Uint64, b: BlockRow): Option<Block> {
    var entries := Entries(codec, PlaceOf(batchIndex, index, b), b.txs);
    if entries.None? then None
    else Some(Block(index, batchIndex, if b.txs == [] then 0 else b.time, b.extra, entries.value))
  }

  predicate Numbered(start: Uint64, count: nat) { 1 <= start && start + count - 1 <= MAX_UINT64 }

  function BlocksOf(codec: Codec, batchIndex: Uint64, start: Uint64, blocks: seq<BlockRow>): Option<seq<Block>>
    requires Numbered(start, |blocks|)
  {
    if blocks == [] then Some([]) else
    var k := |blocks| - 1;
    var front := BlocksOf(codec, batchIndex, start, blocks[..k]);
    var last := BlockOf(codec, batchIndex, start + k - 1, blocks[k]);
    if front.None? || last.None? then None else Some(front.value + [last.value])
  }

  lemma {:induction false} EntriesPrefix(codec: Codec, at: Place, txs: seq<TxRow>, j: nat)
    requires j <= |txs| && Entries(codec, at, txs).Some?
    ensures Entries(codec, at, txs[..j]).Some?
    decreases |txs|
  {
    hide Entry;
    if j == |txs| {
      assert txs[..j] == txs;
    } else {
      assert txs[..|txs| - 1][..j] == txs[..j];
      EntriesPrefix(codec, at, txs[..|txs| - 1], j);
    }
  }

  lemma EntriesSnoc(codec: Codec, at: Place, txs: seq<TxRow>, j: nat)
    requires j < |txs|
    ensures var front := Entries(codec, at, txs[..j]);
      var last := Entry(codec, at, txs[j]);
      && Entries(codec, at, txs[..j + 1])
         == (if front.None? || last.None? then None else Some(front.value + [last.value]))
      && (last.None? ==> Entries(codec, at, txs).None?)
  {
    hide Entry;
    assert txs[..j + 1][..j] == txs[..j];
    if Entries(codec, at, txs).Some? {
      EntriesPrefix(codec, at, txs, j + 1);
    }
  }

  lemma {:induction false} BlocksPrefix(codec: Codec, batchIndex: Uint64, start: Uint64, blocks: seq<BlockRow>, j: nat)
    requires Numbered(start, |blocks|) && j <= |blocks| && BlocksOf(codec, batchIndex, start, blocks).Some?
    ensures BlocksOf(codec, batchIndex, start, blocks[..j]).Some?
    decreases |blocks|
  {
    hide BlockOf;
    if j == |blocks| {
      assert blocks[..j] == blocks;
    } else {
      assert blocks[..|blocks| - 1][..j] == blocks[..j];
      BlocksPrefix(codec, batchIndex, start, blocks[..|blocks| - 1], j);
    }
  }

  lemma BlocksSnoc(codec: Codec, batchIndex: Uint64, start: Uint64, blocks: seq<BlockRow>, j: nat)
    requires Numbered(start, |blocks|) && j < |blocks|
    ensures var front := BlocksOf(codec, batchIndex, start, blocks[..j]);
      var last := BlockOf(codec, batchIndex, start + j - 1, blocks[j]);
      && BlocksOf(codec, batchIndex, start, blocks[..j + 1])
         == (if front.None? || last.None? then None else Some(front.value + [last.value]))
      && (last.None? ==> BlocksOf(codec, batchIndex, start, blocks).None?)
  {
    hide BlockOf;
    assert blocks[..j + 1][..j] == blocks[..j];
    if BlocksOf(codec, batchIndex, start, blocks).Some? {
      BlocksPrefix(codec, batchIndex, start, blocks, j + 1);
    }
  }

  /** Every block of the span, numbered from `start - 1`, stamped with the batch, with one entry a row. */
  lemma {:induction false} BlocksExact(codec: Codec, batchIndex: Uint64, start: Uint64, blocks: seq<BlockRow>)
    requires Numbered(start, |blocks|) && BlocksOf(codec, batchIndex, start, blocks).Some?
    ensures var out := BlocksOf(codec, batchIndex, start, blocks).value;
      && |out| == |blocks|
      && forall i :: 0 <= i < |out| ==>
           && out[i].index == start + i - 1 && out[i].batchIndex == batchIndex && out[i].extraData == blocks[i].extra
           && out[i].timestamp == (if |blocks[i].txs| == 0 then 0 else blocks[i].time)
           && EntriesMatch(codec, out[i], blocks[i])
  {
    hide Entry, EntriesMatch;
    if blocks != [] {
      var k := |blocks| - 1;
      BlocksExact(codec, batchIndex, start, blocks[..k]);
      var out := BlocksOf(codec, batchIndex, start, blocks).value;
      assert EntriesMatch(codec, out[k], blocks[k]) by { MatchIntro(codec, out[k], blocks[k]); }
    }
  }

  ghost predicate EntriesMatch(codec: Codec, out: Block, b: BlockRow) {
    |out.transactions| == |b.txs| && forall k :: 0 <= k < |b.txs| ==>
      Entry(codec, PlaceOf(out.batchIndex, out.index, b), b.txs[k]) == Some(out.transactions[k])
  }

  lemma MatchIntro(codec: Codec, out: Block, b: BlockRow)
    requires Entries(codec, PlaceOf(out.batchIndex, out.index, b), b.txs) == Some(out.transactions)
    ensures EntriesMatch(codec, out, b)
  {
    hide Entry;
    EntriesExact(codec, PlaceOf(out.batchIndex, out.index, b), b.txs);
  }

  lemma {:induction false} EntriesExact(codec: Codec, at: Place, txs: seq<TxRow>)
    requires Entries(codec, at, txs).Some?
    ensures var out := Entries(codec, at, txs).value;
      |out| == |txs| && forall k :: 0 <= k < |txs| ==> Entry(codec, at, txs[k]) == Some(out[k])
  {
    hide Entry;
    if txs != [] {
      EntriesExact(codec, at, txs[..|txs| - 1]);
    }
  }

  // ---------------------------------------------------------------- deriving blocks with cursors

  datatype Cursors = Cursors(tx: nat, to: nat, origin: nat, legacy: nat)

  /** Before row `k`: how many rows, addresses, origins and protection flags the earlier rows took. */
  function CursorsAt(f: TxColumns, n: nat, k: nat): Cursors
    requires FieldsShape(f, n) && k <= n
  {
    Cursors(k, Rank(f.creation, false, k), Rank(f.queue, true, k), Rank(Legacy(f.payloads), true, k))
  }

  /** The row under the cursors, every column read in range, and the cursors after it. */
  method NextRow(f: TxColumns, ghost n: nat, at: Cursors) returns (row: TxRow, next: Cursors)
    requires FieldsShape(f, n) && at.tx < n && at == CursorsAt(f, n, at.tx) && f.payloads[at.tx] != []
    ensures row == RowAt(f, n, at.tx) && next == CursorsAt(f, n, at.tx + 1)
  {
    RankMonotone(f.creation, false, at.tx, n);
    RankMonotone(f.queue, true, at.tx, n);
    RankMonotone(Legacy(f.payloads), true, at.tx, n);
    next := at.(tx := at.tx + 1);
    var to: Option<Account>, deposit: Option<Account> := None, None;
    if !f.creation[at.tx] {
      to := Some(f.tos[at.to]);
      next := next.(to := at.to + 1);
    }
    var p := f.payloads[at.tx];
    var protected := true;
    if p[0] > 0x7f {
      protected := f.protected[at.legacy];
      next := next.(legacy := at.legacy + 1);
    }
    if f.queue[at.tx] {
      deposit := Some(f.origins[at.origin]);
      next := next.(origin := at.origin + 1);
    }
    row := TxRow(p, f.nonces[at.tx], f.gases[at.tx], to, f.sigs[at.tx], f.parity[at.tx], protected, deposit,
                 f.seqSigs[at.tx], f.seqParity[at.tx]);
  }

  lemma RowOfBlock(item: ItemSize, c: Columns, i: nat, j: nat)
    requires SpanFits(item, c) && i < |c.counts| && j < c.counts[i]
    ensures Sum(c.counts[..i]) + j < Sum(c.counts)
    ensures j < |BlockRowAt(c, i).txs| == c.counts[i]
    ensures BlockRowAt(c, i).txs[j] == RowAt(c.fields, Sum(c.counts), Sum(c.counts[..i]) + j)
    ensures c.fields.payloads[Sum(c.counts[..i]) + j] != []
  {
    hide Rank, RowAt, ParseRaw;
    SumStep(c.counts, i);
    SumPrefix(c.counts, i + 1);
    assert c.fields.payloads[Sum(c.counts[..i]) + j] in c.fields.payloads;
  }

  /** The transactions of block `i`, starting where the blocks before it left the cursors. */
  method DeriveBlock(codec: Codec, c: Columns, batchIndex: Uint64, index: Uint64, i: nat, at: Cursors)
    returns (block: Option<Block>, next: Cursors)
    requires SpanFits(codec.item, c) && i < |c.counts|
    requires Sum(c.counts[..i]) <= Sum(c.counts) && at == CursorsAt(c.fields, Sum(c.counts), Sum(c.counts[..i]))
    ensures block == BlockOf(codec, batchIndex, index, BlockRowAt(c, i))
    ensures Sum(c.counts[..i + 1]) <= Sum(c.counts)
    ensures block.Some? ==> next == CursorsAt(c.fields, Sum(c.counts), Sum(c.counts[..i + 1]))
  {
    hide Entry, Entries, FieldsShape, IsPayload, RowAt, RowsOf, Sum, CursorsAt, BlockRowAt;
    ghost var n, first, b := Sum(c.counts), Sum(c.counts[..i]), BlockRowAt(c, i);
    var place := Place(batchIndex, index, c.origins[i], c.times[i]);
    BlockRowFields(c, i);
    SumStep(c.counts, i);
    SumPrefix(c.counts, i + 1);
    var txs: seq<BlockTransaction> := [];
    next := at;
    assert b.txs[..0] == [] && b.txs[..|b.txs|] == b.txs;
    assert Entries(codec, place, []) == Some([]) by { NoEntries(codec, place); }
    var j: nat := 0;
    while j < c.counts[i]
      invariant j <= c.counts[i] && first + j <= n && next == CursorsAt(c.fields, n, first + j)
      invariant Entries(codec, place, b.txs[..j]) == Some(txs) && |txs| == j
    {
      RowOfBlock(codec.item, c, i, j);
      assert next.tx == first + j by { CursorRow(c.fields, n, first + j); }
      var row;
      row, next := NextRow(c.fields, n, next);
      EntriesSnoc(codec, place, b.txs, j);
      var entry := Entry(codec, place, row);
      if entry.None? {
        return None, next;
      }
      txs := txs + [entry.value];
      j := j + 1;
    }
    var timestamp := c.times[i];
    if |txs| == 0 {
      timestamp := 0;
    }
    block := Some(Block(index, batchIndex, timestamp, c.extras[i], txs));
  }

  lemma NoEntries(codec: Codec, at: Place)
    ensures Entries(codec, at, []) == Some([])
  {
  }

  lemma CursorRow(f: TxColumns, n: nat, k: nat)
    requires FieldsShape(f, n) && k <= n
    ensures CursorsAt(f, n, k).tx == k
  {
  }

  lemma CursorsStart(f: TxColumns, n: nat)
    requires FieldsShape(f, n)
    ensures CursorsAt(f, n, 0) == Cursors(0, 0, 0, 0)
  {
  }

  /** At the end every column is consumed: the cursors stand at the lengths. */
  lemma CursorsEnd(f: TxColumns, n: nat)
    requires FieldsShape(f, n)
    ensures CursorsAt(f, n, n) == Cursors(|f.payloads|, |f.tos|, |f.origins|, |f.protected|)
  {
  }

  /** All blocks of accepted columns; when they are derived, no column has anything left. */
  method DeriveBlocks(codec: Codec, c: Columns, batchIndex: Uint64)
    returns (blocks: Option<seq<Block>>, ghost used: Cursors)
    requires SpanFits(codec.item, c)
    ensures blocks == BlocksOf(codec, batchIndex, c.start, SpanOf(c).blocks)
    ensures blocks.Some? ==>
      used == Cursors(|c.fields.payloads|, |c.fields.tos|, |c.fields.origins|, |c.fields.protected|)
  {
    hide BlockOf, BlocksOf, FieldsShape, IsPayload, RowsOf, Sum, CursorsAt, BlockRowAt;
    ghost var rows, n := SpanOf(c).blocks, Sum(c.counts);
    var out: seq<Block> := [];
    var at := Cursors(0, 0, 0, 0);
    CursorsStart(c.fields, n);
    CursorsEnd(c.fields, n);
    NoBlocks();
    assert BlocksOf(codec, batchIndex, c.start, []) == Some([]) by { NoBlocksOf(codec, batchIndex, c.start); }
    assert rows[..0] == [] && rows[..|rows|] == rows && c.counts[..|rows|] == c.counts && c.counts[..0] == [];
    var i: nat := 0;
    while i < |c.counts|
      invariant i <= |c.counts| && Sum(c.counts[..i]) <= n && at == CursorsAt(c.fields, n, Sum(c.counts[..i]))
      invariant BlocksOf(codec, batchIndex, c.start, rows[..i]) == Some(out)
    {
      BlocksSnoc(codec, batchIndex, c.start, rows, i);
      assert rows[i] == BlockRowAt(c, i);
      var block;
      block, at := DeriveBlock(codec, c, batchIndex, c.start + i - 1, i, at);
      if block.None? {
        return None, at;
      }
      out := out + [block.value];
      i := i + 1;
    }
    blocks, used := Some(out), at;
  }

  lemma NoBlocksOf(codec: Codec, batchIndex: Uint64, start: Uint64)
    requires Numbered(start, 0)
    ensures BlocksOf(codec, batchIndex, start, []) == Some([])
  {
  }

  // ---------------------------------------------------------------- whole spans

  /** What a span's bytes decode to: the blocks of the rows its columns stand for. */
  ghost function DecodedSpan(codec: Codec, batchIndex: Uint64, data: seq<Byte>): Option<seq<Block>>
    requires SelfDelimiting(codec.item)
  {
    var c := ParseSpan(codec.item, data);
    ParsedSpanFits(codec.item, data);
    if c.Bad? then None else BlocksOf(codec, batchIndex, c.value.start, SpanOf(c.value).blocks)
  }

  method DecodeSpan(codec: Codec, data: seq<Byte>, batchIndex: Uint64) returns (blocks: Option<seq<Block>>)
    requires SelfDelimiting(codec.item)
    ensures blocks == DecodedSpan(codec, batchIndex, data)
  {
    hide ParseSpan, BlocksOf, SelfDelimiting, SpanFits;
    ParsedSpanFits(codec.item, data);
    var c := ReadSpan(codec.item, data);
    if c.None? {
      return None;
    }
    ghost var used;
    blocks, used := DeriveBlocks(codec, c.value, batchIndex);
  }

  /** Decoding what was encoded gives the blocks of the encoded rows. */
  lemma DecodedEncoding(codec: Codec, batchIndex: Uint64, s: Span)
    requires SelfDelimiting(codec.item) && SpanOk(codec.item, s)
    ensures DecodedSpan(codec, batchIndex, WriteSpan(ColumnsOf(s))) == BlocksOf(codec, batchIndex, s.start, s.blocks)
  {
    hide ParseSpan, BlocksOf, SelfDelimiting, WriteSpan;
    TransposeRoundTrip(codec.item, s);
    SpanRoundTrip(codec.item, ColumnsOf(s));
  }

  /** Whatever bytes decode, they decode as the encoding of some span of rows does. */
  lemma DecodedIsEncoding(codec: Codec, batchIndex: Uint64, data: seq<Byte>) returns (s: Span)
    requires SelfDelimiting(codec.item) && DecodedSpan(codec, batchIndex, data).Some?
    ensures SpanOk(codec.item, s)
    ensures DecodedSpan(codec, batchIndex, data) == DecodedSpan(codec, batchIndex, WriteSpan(ColumnsOf(s)))
  {
    hide ParseSpan, BlocksOf, SelfDelimiting, WriteSpan, ColumnsOf, SpanOk;
    var c := ParseSpan(codec.item, data).value;
    ParsedSpanFits(codec.item, data);
    s := SpanOf(c);
    UntransposeRoundTrip(codec.item, c);
    SpanStart(c);
    DecodedEncoding(codec, batchIndex, s);
  }

  lemma SpanStart(c: Columns)
    requires Shaped(c)
    ensures SpanOf(c).start == c.start
  {
  }
}
