/** The rows a span's columns stand for, and the transposition between the two. */
module SpanRows {
  import opened Prelude
  import opened WireFormat
  import opened SpanColumns

  /** One transaction: `to` is absent for a creation, `deposit` is the L1 origin of a queued one. */
  datatype TxRow = TxRow(
    payload: seq<Byte>, nonce: Uint64, gas: Uint64, to: Option<Account>, sig: Signature, parity: bool, protected: bool,
    deposit: Option<Account>, seqSig: Signature, seqParity: bool)

  type TxRows = s: seq<TxRow> | |s| <= MAX_ELEMENTS

  datatype BlockRow = BlockRow(mark: bool, origin: Uint64, time: Uint64, extra: seq<Byte>, txs: TxRows)

  datatype Span = Span(start: Uint64, anchor: seq<Byte>, blocks: seq<BlockRow>)

  // ---------------------------------------------------------------- picking from rows

  /** What `pick` finds in the rows, in order. */
  function Picked<T>(rows: seq<TxRow>, pick: TxRow -> Option<T>): seq<T> {
    if rows == [] then [] else
    var found := pick(rows[|rows| - 1]);
    Picked(rows[..|rows| - 1], pick) + if found.Some? then [found.value] else []
  }

  ghost predicate Marks<T>(flags: seq<bool>, wanted: bool, rows: seq<TxRow>, pick: TxRow -> Option<T>) {
    |flags| == |rows| && forall k :: 0 <= k < |rows| ==> (flags[k] == wanted <==> pick(rows[k]).Some?)
  }

  /** If row `k` is marked, the column has what is picked from it at the rank of `k`. */
  ghost predicate Placed<T>(flags: seq<bool>, wanted: bool, rows: seq<TxRow>,
                            pick: TxRow -> Option<T>, column: seq<T>, k: nat)
    requires k < |flags| == |rows|
  {
    flags[k] == wanted ==>
      Rank(flags, wanted, k) < |column| && pick(rows[k]) == Some(column[Rank(flags, wanted, k)])
  }

  lemma {:induction false} PickedPlaced<T>(flags: seq<bool>, wanted: bool, rows: seq<TxRow>,
                                           pick: TxRow -> Option<T>, m: nat)
    requires Marks(flags, wanted, rows, pick) && m <= |rows|
    ensures |Picked(rows[..m], pick)| == Rank(flags, wanted, m)
    ensures forall k :: 0 <= k < m ==> Placed(flags, wanted, rows, pick, Picked(rows[..m], pick), k)
  {
    if m > 0 {
      PickedPlaced(flags, wanted, rows, pick, m - 1);
      var front, column := Picked(rows[..m - 1], pick), Picked(rows[..m], pick);
      assert rows[..m][..m - 1] == rows[..m - 1] && rows[..m][m - 1] == rows[m - 1];
      assert column == front + if pick(rows[m - 1]).Some? then [pick(rows[m - 1]).value] else [];
      forall k | 0 <= k < m ensures Placed(flags, wanted, rows, pick, column, k) {
        if k < m - 1 {
          assert Placed(flags, wanted, rows, pick, front, k);
        }
      }
    }
  }

  /** A column in which every marked row is placed is the picked one. */
  lemma {:induction false} PickedUnique<T>(flags: seq<bool>, wanted: bool, rows: seq<TxRow>, pick: TxRow -> Option<T>,
                                           column: seq<T>, m: nat)
    requires Marks(flags, wanted, rows, pick) && m <= |rows| && Rank(flags, wanted, m) <= |column|
    requires forall k :: 0 <= k < m ==> Placed(flags, wanted, rows, pick, column, k)
    ensures Picked(rows[..m], pick) == column[..Rank(flags, wanted, m)]
  {
    if m > 0 {
      PickedUnique(flags, wanted, rows, pick, column, m - 1);
      assert rows[..m][..m - 1] == rows[..m - 1] && rows[..m][m - 1] == rows[m - 1];
      assert Placed(flags, wanted, rows, pick, column, m - 1);
    }
  }

  lemma PickedColumn<T>(flags: seq<bool>, wanted: bool, rows: seq<TxRow>, pick: TxRow -> Option<T>)
    requires Marks(flags, wanted, rows, pick)
    ensures |Picked(rows, pick)| == Rank(flags, wanted, |rows|)
    ensures forall k :: 0 <= k < |rows| ==> Placed(flags, wanted, rows, pick, Picked(rows, pick), k)
  {
    PickedPlaced(flags, wanted, rows, pick, |rows|);
    assert rows[..|rows|] == rows;
  }

  lemma ColumnPicked<T>(flags: seq<bool>, wanted: bool, rows: seq<TxRow>, pick: TxRow -> Option<T>, column: seq<T>)
    requires Marks(flags, wanted, rows, pick) && |column| == Rank(flags, wanted, |rows|)
    requires forall k :: 0 <= k < |rows| ==> Placed(flags, wanted, rows, pick, column, k)
    ensures Picked(rows, pick) == column
  {
    PickedUnique(flags, wanted, rows, pick, column, |rows|);
    assert rows[..|rows|] == rows && column[..|column|] == column;
  }

  // ---------------------------------------------------------------- transactions

  function To(row: TxRow): Option<Account> { row.to }

  function Deposit(row: TxRow): Option<Account> { row.deposit }

  /** Only a legacy transaction spends a protection flag; the others count as protected. */
  function Protection(row: TxRow): Option<bool> { if IsLegacy(row.payload) then Some(row.protected) else None }

  predicate Canonical(row: TxRow) { !IsLegacy(row.payload) ==> row.protected }

  function Map<S, T>(rows: seq<S>, f: S -> T): (column: seq<T>)
    ensures |column| == |rows| && forall k :: 0 <= k < |rows| ==> column[k] == f(rows[k])
  {
    if rows == [] then [] else [f(rows[0])] + Map(rows[1..], f)
  }

  function PayloadOf(row: TxRow): seq<Byte> { row.payload }

  function NonceOf(row: TxRow): Uint64 { row.nonce }

  function GasOf(row: TxRow): Uint64 { row.gas }

  function ToColumns(rows: seq<TxRow>): TxColumns {
    TxColumns(Map(rows, (r: TxRow) => r.to.None?), Map(rows, (r: TxRow) => r.parity), Map(rows, (r: TxRow) => r.sig),
              Picked(rows, To), Map(rows, PayloadOf), Map(rows, NonceOf), Map(rows, GasOf),
              Picked(rows, Protection), Map(rows, (r: TxRow) => r.deposit.Some?), Map(rows, (r: TxRow) => r.seqParity),
              Map(rows, (r: TxRow) => r.seqSig), Picked(rows, Deposit))
  }

  /** Row `k`: its own entry in the full columns, the entry at its rank in the sparse ones. */
  function RowAt(f: TxColumns, n: nat, k: nat): TxRow
    requires FieldsShape(f, n) && k < n
  {
    var legacy := Legacy(f.payloads);
    RankMonotone(f.creation, false, k, n);
    RankMonotone(legacy, true, k, n);
    RankMonotone(f.queue, true, k, n);
    TxRow(f.payloads[k], f.nonces[k], f.gases[k],
          if f.creation[k] then None else Some(f.tos[Rank(f.creation, false, k)]), f.sigs[k], f.parity[k],
          if legacy[k] then f.protected[Rank(legacy, true, k)] else true,
          if f.queue[k] then Some(f.origins[Rank(f.queue, true, k)]) else None, f.seqSigs[k], f.seqParity[k])
  }

  function RowsOf(f: TxColumns, n: nat): (rows: seq<TxRow>)
    requires FieldsShape(f, n)
    ensures |rows| == n
  {
    seq(n, k requires 0 <= k < n => RowAt(f, n, k))
  }

  lemma ColumnsShape(rows: seq<TxRow>)
    ensures FieldsShape(ToColumns(rows), |rows|)
  {
    hide Rank, Picked;
    var f := ToColumns(rows);
    PickedColumn(f.creation, false, rows, To);
    PickedColumn(Legacy(f.payloads), true, rows, Protection);
    PickedColumn(f.queue, true, rows, Deposit);
  }

  lemma RowBack(rows: seq<TxRow>, k: nat)
    requires k < |rows| && Canonical(rows[k]) && FieldsShape(ToColumns(rows), |rows|)
    ensures RowAt(ToColumns(rows), |rows|, k) == rows[k]
  {
    hide Rank, Picked, Map;
    var f := ToColumns(rows);
    PickedColumn(f.creation, false, rows, To);
    PickedColumn(Legacy(f.payloads), true, rows, Protection);
    PickedColumn(f.queue, true, rows, Deposit);
    assert Placed(f.creation, false, rows, To, f.tos, k);
    assert Placed(Legacy(f.payloads), true, rows, Protection, f.protected, k);
    assert Placed(f.queue, true, rows, Deposit, f.origins, k);
  }

  lemma RowsRoundTrip(rows: seq<TxRow>)
    requires forall row :: row in rows ==> Canonical(row)
    ensures FieldsShape(ToColumns(rows), |rows|) && RowsOf(ToColumns(rows), |rows|) == rows
  {
    hide FieldsShape, ToColumns, RowAt, Canonical;
    ColumnsShape(rows);
    forall k | 0 <= k < |rows| ensures RowAt(ToColumns(rows), |rows|, k) == rows[k] {
      assert rows[k] in rows;
      RowBack(rows, k);
    }
  }

  /** Marked rows of the transposed columns are placed where the cursors of the decoder will be. */
  lemma RowsPlaced(f: TxColumns, n: nat, k: nat)
    requires FieldsShape(f, n) && k < n
    ensures var rows, legacy := RowsOf(f, n), Legacy(f.payloads);
      && (f.creation[k] == false <==> To(rows[k]).Some?) && Placed(f.creation, false, rows, To, f.tos, k)
      && (legacy[k] == true <==> Protection(rows[k]).Some?) && Placed(legacy, true, rows, Protection, f.protected, k)
      && (f.queue[k] == true <==> Deposit(rows[k]).Some?) && Placed(f.queue, true, rows, Deposit, f.origins, k)
  {
    hide Rank;
    RankMonotone(f.creation, false, k, n);
    RankMonotone(Legacy(f.payloads), true, k, n);
    RankMonotone(f.queue, true, k, n);
    assert RowsOf(f, n)[k] == RowAt(f, n, k);
  }

  lemma SparseColumns(f: TxColumns, n: nat)
    requires FieldsShape(f, n)
    ensures var rows := RowsOf(f, n);
      Picked(rows, To) == f.tos && Picked(rows, Protection) == f.protected && Picked(rows, Deposit) == f.origins
  {
    hide Rank, Picked, RowsOf, Placed, Legacy, To, Protection, Deposit;
    var rows, legacy := RowsOf(f, n), Legacy(f.payloads);
    forall k | 0 <= k < n
      ensures f.creation[k] == false <==> To(rows[k]).Some?
      ensures legacy[k] == true <==> Protection(rows[k]).Some?
      ensures f.queue[k] == true <==> Deposit(rows[k]).Some?
      ensures Placed(f.creation, false, rows, To, f.tos, k) && Placed(legacy, true, rows, Protection, f.protected, k)
      ensures Placed(f.queue, true, rows, Deposit, f.origins, k)
    {
      RowsPlaced(f, n, k);
    }
    ColumnPicked(f.creation, false, rows, To, f.tos);
    ColumnPicked(legacy, true, rows, Protection, f.protected);
    ColumnPicked(f.queue, true, rows, Deposit, f.origins);
  }

  lemma RowFields(f: TxColumns, n: nat, k: nat)
    requires FieldsShape(f, n) && k < n
    ensures var row := RowsOf(f, n)[k];
      && row.payload == f.payloads[k] && row.nonce == f.nonces[k] && row.gas == f.gases[k] && row.sig == f.sigs[k]
      && row.parity == f.parity[k] && row.seqSig == f.seqSigs[k] && row.seqParity == f.seqParity[k]
      && row.to.None? == f.creation[k] && row.deposit.Some? == f.queue[k] && Canonical(row)
  {
    hide Rank;
    assert RowsOf(f, n)[k] == RowAt(f, n, k);
  }

  lemma ColumnsRoundTrip(f: TxColumns, n: nat)
    requires FieldsShape(f, n)
    ensures ToColumns(RowsOf(f, n)) == f && forall row :: row in RowsOf(f, n) ==> Canonical(row)
  {
    hide Rank, Picked, RowsOf, Map, Canonical;
    var rows := RowsOf(f, n);
    SparseColumns(f, n);
    forall k | 0 <= k < n
      ensures rows[k].payload == f.payloads[k] && rows[k].nonce == f.nonces[k] && rows[k].gas == f.gases[k]
      ensures rows[k].sig == f.sigs[k] && rows[k].parity == f.parity[k] && rows[k].seqSig == f.seqSigs[k]
      ensures rows[k].seqParity == f.seqParity[k] && rows[k].to.None? == f.creation[k]
      ensures rows[k].deposit.Some? == f.queue[k] && Canonical(rows[k])
    {
      RowFields(f, n, k);
    }
  }

  // ---------------------------------------------------------------- blocks

  function Flatten(blocks: seq<BlockRow>): seq<TxRow> {
    if blocks == [] then [] else Flatten(blocks[..|blocks| - 1]) + blocks[|blocks| - 1].txs
  }

  function CountOf(b: BlockRow): Uint64 { |b.txs| }

  function OriginOf(b: BlockRow): Uint64 { b.origin }

  function TimeOf(b: BlockRow): Uint64 { b.time }

  function ColumnsOf(s: Span): Columns {
    Columns(s.start, s.anchor, Map(s.blocks, (b: BlockRow) => b.mark), Map(s.blocks, OriginOf), Map(s.blocks, TimeOf),
            Map(s.blocks, CountOf), Map(s.blocks, (b: BlockRow) => b.extra), ToColumns(Flatten(s.blocks)))
  }

  predicate Shaped(c: Columns) {
    && |c.marks| == |c.origins| == |c.times| == |c.extras| == |c.counts|
    && Sum(c.counts) <= MAX_ELEMENTS && FieldsShape(c.fields, Sum(c.counts))
  }

  /** Block `i` takes as many rows as it counts, after those of the blocks before it. */
  function BlockRowAt(c: Columns, i: nat): BlockRow
    requires Shaped(c) && i < |c.counts|
  {
    SumPrefix(c.counts, i + 1);
    SumStep(c.counts, i);
    BlockRow(c.marks[i], c.origins[i], c.times[i], c.extras[i],
             RowsOf(c.fields, Sum(c.counts))[Sum(c.counts[..i])..Sum(c.counts[..i + 1])])
  }

  function SpanOf(c: Columns): Span
    requires Shaped(c)
  {
    Span(c.start, c.anchor, seq(|c.counts|, i requires 0 <= i < |c.counts| => BlockRowAt(c, i)))
  }

  lemma SumStep(counts: seq<Uint64>, i: nat)
    requires i < |counts|
    ensures Sum(counts[..i + 1]) == Sum(counts[..i]) + counts[i]
  {
    assert counts[..i + 1] == counts[..i] + [counts[i]];
    SumSnoc(counts[..i], counts[i]);
  }

  lemma FlattenSnoc(blocks: seq<BlockRow>, i: nat)
    requires i < |blocks|
    ensures Flatten(blocks[..i + 1]) == Flatten(blocks[..i]) + blocks[i].txs
  {
    assert blocks[..i + 1][..i] == blocks[..i];
  }

  lemma {:induction false} FlattenCounts(blocks: seq<BlockRow>, i: nat)
    requires i <= |blocks|
    ensures |Flatten(blocks[..i])| == Sum(Map(blocks, CountOf)[..i])
  {
    if i > 0 {
      FlattenCounts(blocks, i - 1);
      FlattenSnoc(blocks, i - 1);
      SumStep(Map(blocks, CountOf), i - 1);
    }
  }

  lemma {:induction false} FlattenPrefix(blocks: seq<BlockRow>, i: nat, j: nat)
    requires i <= j <= |blocks|
    ensures Flatten(blocks[..i]) <= Flatten(blocks[..j])
  {
    if i < j {
      FlattenPrefix(blocks, i, j - 1);
      FlattenSnoc(blocks, j - 1);
    }
  }

  lemma MiddlePart<T>(whole: seq<T>, a: seq<T>, b: seq<T>)
    requires a + b <= whole
    ensures |a| + |b| <= |whole| && whole[|a|..|a| + |b|] == b
  {
    assert whole[..|a| + |b|] == a + b;
  }

  /** The rows of block `i` stand where its predecessors' counts say. */
  lemma FlattenSlice(blocks: seq<BlockRow>, i: nat)
    requires i < |blocks|
    ensures var counts := Map(blocks, CountOf);
      && Sum(counts[..i]) <= Sum(counts[..i + 1]) <= |Flatten(blocks)|
      && Flatten(blocks)[Sum(counts[..i])..Sum(counts[..i + 1])] == blocks[i].txs
  {
    hide Flatten, Sum, Map;
    FlattenCounts(blocks, i);
    FlattenCounts(blocks, i + 1);
    FlattenSnoc(blocks, i);
    FlattenPrefix(blocks, i + 1, |blocks|);
    assert blocks[..|blocks|] == blocks;
    MiddlePart(Flatten(blocks), Flatten(blocks[..i]), blocks[i].txs);
  }

  lemma NoBlocks()
    ensures Flatten([]) == [] && Sum([]) == 0
  {
  }

  lemma {:induction false} SlicesFlatten(c: Columns, i: nat)
    requires Shaped(c) && i <= |c.counts|
    ensures Sum(c.counts[..i]) <= Sum(c.counts)
    ensures Flatten(SpanOf(c).blocks[..i]) == RowsOf(c.fields, Sum(c.counts))[..Sum(c.counts[..i])]
  {
    hide RowsOf, FieldsShape, Flatten, Sum;
    SumPrefix(c.counts, i);
    if i == 0 {
      assert Flatten(SpanOf(c).blocks[..0]) == [] && Sum(c.counts[..0]) == 0 by { NoBlocks(); }
    } else {
      SlicesFlatten(c, i - 1);
      FlattenSnoc(SpanOf(c).blocks, i - 1);
      SumStep(c.counts, i - 1);
      assert SpanOf(c).blocks[i - 1] == BlockRowAt(c, i - 1);
    }
  }

  /** Spans an encoder may be given. */
  ghost predicate SpanOk(item: ItemSize, s: Span) {
    && |s.anchor| == 40
    && 1 <= |s.blocks| <= 10_000_000 && 1 <= s.start && |s.blocks| - 1 <= MAX_UINT64 - s.start
    && (forall b :: b in s.blocks ==> |b.extra| <= MAX_UINT64)
    && |Flatten(s.blocks)| <= 10_000_000
    && forall row :: row in Flatten(s.blocks) ==> Canonical(row) && IsPayload(item, row.payload)
  }

  /** Rows to columns and back: nothing is lost, and the columns are ones the decoder accepts. */
  lemma TransposeRoundTrip(item: ItemSize, s: Span)
    requires SpanOk(item, s)
    ensures SpanFits(item, ColumnsOf(s)) && SpanOf(ColumnsOf(s)) == s
  {
    hide IsPayload, Flatten, Sum, RowsOf, ToColumns, FieldsShape;
    var c, rows, n := ColumnsOf(s), Flatten(s.blocks), |s.blocks|;
    FlattenCounts(s.blocks, n);
    assert s.blocks[..n] == s.blocks && c.counts[..n] == c.counts;
    RowsRoundTrip(rows);
    PayloadColumn(item, rows);
    forall i | 0 <= i < n ensures BlockRowAt(c, i) == s.blocks[i] && |c.extras[i]| <= MAX_UINT64 {
      FlattenSlice(s.blocks, i);
      assert s.blocks[i] in s.blocks;
    }
  }

  lemma PayloadColumn(item: ItemSize, rows: seq<TxRow>)
    ensures (forall p :: p in ToColumns(rows).payloads ==> IsPayload(item, p)) <==>
            (forall row :: row in rows ==> IsPayload(item, row.payload))
  {
    hide IsPayload, Map, Picked;
    var payloads := Map(rows, PayloadOf);
    assert ToColumns(rows).payloads == payloads;
    forall row | row in rows ensures row.payload in payloads {
      var k :| 0 <= k < |rows| && rows[k] == row;
      assert payloads[k] == row.payload;
    }
  }

  lemma BlockRowFields(c: Columns, i: nat)
    requires Shaped(c) && i < |c.counts|
    ensures var b := SpanOf(c).blocks[i];
      && b.mark == c.marks[i] && b.origin == c.origins[i] && b.time == c.times[i] && b.extra == c.extras[i]
      && CountOf(b) == c.counts[i]
  {
    hide RowsOf, FieldsShape;
    SumStep(c.counts, i);
    SumPrefix(c.counts, i + 1);
  }

  lemma FlattenAll(c: Columns)
    requires Shaped(c)
    ensures Flatten(SpanOf(c).blocks) == RowsOf(c.fields, Sum(c.counts))
  {
    hide Flatten, Sum, RowsOf, FieldsShape, BlockRowAt;
    var n := |c.counts|;
    SlicesFlatten(c, n);
    assert SpanOf(c).blocks[..n] == SpanOf(c).blocks && c.counts[..n] == c.counts;
  }

  lemma UntransposedColumns(c: Columns)
    requires Shaped(c)
    ensures ColumnsOf(SpanOf(c)) == c
  {
    hide Flatten, Sum, RowsOf, ToColumns, FieldsShape, BlockRowAt, Map;
    var s, n := SpanOf(c), |c.counts|;
    FlattenAll(c);
    ColumnsRoundTrip(c.fields, Sum(c.counts));
    forall i | 0 <= i < n
      ensures s.blocks[i].mark == c.marks[i] && s.blocks[i].origin == c.origins[i] && s.blocks[i].time == c.times[i]
      ensures s.blocks[i].extra == c.extras[i] && CountOf(s.blocks[i]) == c.counts[i]
    {
      BlockRowFields(c, i);
    }
  }

  /** Columns to rows and back: every accepted set of columns is that of exactly one span. */
  lemma UntransposeRoundTrip(item: ItemSize, c: Columns)
    requires SpanFits(item, c)
    ensures SpanOk(item, SpanOf(c)) && ColumnsOf(SpanOf(c)) == c
  {
    hide IsPayload, Flatten, Sum, RowsOf, ToColumns, FieldsShape, BlockRowAt, ColumnsOf, Map;
    var s := SpanOf(c);
    UntransposedColumns(c);
    FlattenAll(c);
    ColumnsRoundTrip(c.fields, Sum(c.counts));
    PayloadColumn(item, RowsOf(c.fields, Sum(c.counts)));
    forall b | b in s.blocks ensures |b.extra| <= MAX_UINT64 {
      var i :| 0 <= i < |s.blocks| && s.blocks[i] == b;
      BlockRowFields(c, i);
      assert c.extras[i] in c.extras;
    }
  }
}
