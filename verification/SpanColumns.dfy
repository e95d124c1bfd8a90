/** The columns of a span batch: how they are laid out in bytes, and the reader that consumes them. */
module SpanColumns {
  import opened Prelude
  import opened WireFormat

  const MAX_ELEMENTS: nat := 10_000_000
  const ANCHOR_BYTES: nat := 40

  type Word = w: seq<Byte> | |w| == 32 witness Zeros(32)
  type Account = a: seq<Byte> | |a| == 20 witness Zeros(20)

  datatype Signature = Signature(r: Word, s: Word)

  /** The size of the RLP item at the head of the bytes; None when there is none. */
  type ItemSize = seq<Byte> -> Option<nat>

  datatype TxColumns = TxColumns(
    creation: seq<bool>, parity: seq<bool>, sigs: seq<Signature>, tos: seq<Account>, payloads: seq<seq<Byte>>,
    nonces: seq<Uint64>, gases: seq<Uint64>, protected: seq<bool>, queue: seq<bool>, seqParity: seq<bool>,
    seqSigs: seq<Signature>, origins: seq<Account>)

  datatype Columns = Columns(
    start: Uint64, anchor: seq<Byte>, marks: seq<bool>, origins: seq<Uint64>, times: seq<Uint64>, counts: seq<Uint64>,
    extras: seq<seq<Byte>>, fields: TxColumns)

  // ---------------------------------------------------------------- counting

  /** How many of the first `k` flags equal `wanted`. */
  function Rank(flags: seq<bool>, wanted: bool, k: nat): (r: nat)
    requires k <= |flags|
    ensures r <= k
  {
    if k == 0 then 0 else Rank(flags, wanted, k - 1) + if flags[k - 1] == wanted then 1 else 0
  }

  lemma {:induction false} RankMonotone(flags: seq<bool>, wanted: bool, j: nat, k: nat)
    requires j <= k <= |flags|
    ensures Rank(flags, wanted, j) <= Rank(flags, wanted, k)
    ensures j < k && flags[j] == wanted ==> Rank(flags, wanted, j) < Rank(flags, wanted, k)
  {
    if j < k {
      RankMonotone(flags, wanted, j, k - 1);
    }
  }

  lemma {:induction false} RankLocal(a: seq<bool>, b: seq<bool>, wanted: bool, k: nat)
    requires k <= |a| && k <= |b| && a[..k] == b[..k]
    ensures Rank(a, wanted, k) == Rank(b, wanted, k)
  {
    if k > 0 {
      assert a[..k][..k - 1] == a[..k - 1] && b[..k][..k - 1] == b[..k - 1];
      assert a[..k][k - 1] == a[k - 1] && b[..k][k - 1] == b[k - 1];
      RankLocal(a, b, wanted, k - 1);
    }
  }

  predicate IsLegacy(payload: seq<Byte>) { payload != [] && payload[0] > 0x7f }

  /** Which payloads are legacy ones: those without a type byte. */
  function Legacy(payloads: seq<seq<Byte>>): (flags: seq<bool>)
    ensures |flags| == |payloads|
  {
    seq(|payloads|, i requires 0 <= i < |payloads| => IsLegacy(payloads[i]))
  }

  function Sum(counts: seq<Uint64>): nat {
    if counts == [] then 0 else Sum(counts[..|counts| - 1]) + counts[|counts| - 1]
  }

  lemma SumSnoc(counts: seq<Uint64>, n: Uint64)
    ensures Sum(counts + [n]) == Sum(counts) + n
  {
    assert (counts + [n])[..|counts|] == counts;
  }

  lemma {:induction false} SumPrefix(counts: seq<Uint64>, i: nat)
    requires i <= |counts|
    ensures Sum(counts[..i]) <= Sum(counts)
    decreases |counts|
  {
    if i == |counts| {
      assert counts[..i] == counts;
    } else {
      var front := counts[..|counts| - 1];
      SumPrefix(front, i);
      assert front[..i] == counts[..i];
    }
  }

  // ---------------------------------------------------------------- parsers

  function ParseWord(data: seq<Byte>): Parsed<Word> {
    var (w, data) :- ParseFixed(32, data);
    Good(w, data)
  }

  function ParseAccount(data: seq<Byte>): Parsed<Account> {
    var (a, data) :- ParseFixed(20, data);
    Good(a, data)
  }

  function ParseSignature(data: seq<Byte>): Parsed<Signature> {
    var (r, data) :- ParseWord(data);
    var (s, data) :- ParseWord(data);
    Good(Signature(r, s), data)
  }

  function ParseExtra(data: seq<Byte>): Parsed<seq<Byte>> {
    var (n, data) :- ParseUint64(data);
    ParseFixed(n, data)
  }

  function ParseItem(item: ItemSize, data: seq<Byte>): (r: Parsed<seq<Byte>>)
    ensures r.Good? ==> |r.value| > 0 && r.value + r.rest == data
  {
    var size := item(data);
    if size.None? || size.value == 0 then Bad else ParseFixed(size.value, data)
  }

  /** A transaction payload: an RLP item, after a type byte 1 or 2 unless it starts above 0x7f itself. */
  function ParseRaw(item: ItemSize, data: seq<Byte>): (r: Parsed<seq<Byte>>)
    ensures r.Good? ==> |r.value| > 0 && (r.value[0] in {1, 2} || r.value[0] > 0x7f)
  {
    if data == [] then Bad
    else if data[0] > 0x7f then ParseItem(item, data)
    else if data[0] !in {1, 2} then Bad
    else
      var (payload, rest) :- ParseItem(item, data[1..]);
      Good([data[0]] + payload, rest)
  }

  function PayloadParser(item: ItemSize): Parser<seq<Byte>> { d => ParseRaw(item, d) }

  function ParseTransactions(item: ItemSize, n: nat, data: seq<Byte>): Parsed<TxColumns> {
    var (creation, data) :- ParseBits(n, data);
    var (parity, data) :- ParseBits(n, data);
    var (sigs, data) :- ParseMany(ParseSignature, n, data);
    var (tos, data) :- ParseMany(ParseAccount, Rank(creation, false, n), data);
    var (payloads, data) :- ParseMany(PayloadParser(item), n, data);
    var (nonces, data) :- ParseMany(ParseUint64, n, data);
    var (gases, data) :- ParseMany(ParseUint64, n, data);
    var (protected, data) :- ParseBits(Rank(Legacy(payloads), true, n), data);
    var (queue, data) :- ParseBits(n, data);
    var (seqParity, data) :- ParseBits(n, data);
    var (seqSigs, data) :- ParseMany(ParseSignature, n, data);
    var (origins, data) :- ParseMany(ParseAccount, Rank(queue, true, n), data);
    Good(TxColumns(creation, parity, sigs, tos, payloads, nonces, gases, protected, queue, seqParity, seqSigs, origins),
         data)
  }

  predicate HeadRefused(start: Uint64, count: Uint64, left: nat) {
    start == 0 || count == 0 || count > MAX_ELEMENTS || count > left / 4 || count - 1 > MAX_UINT64 - start
  }

  /** The whole of a span, nothing left over. */
  function ParseSpan(item: ItemSize, data: seq<Byte>): Parsed<Columns> {
    var (start, data) :- ParseUint64(data);
    var (anchor, data) :- ParseFixed(ANCHOR_BYTES, data);
    var (count, data) :- ParseUint64(data);
    if HeadRefused(start, count, |data|) then Bad else
    var (marks, data) :- ParseBits(count, data);
    var (origins, data) :- ParseMany(ParseUint64, count, data);
    var (times, data) :- ParseMany(ParseUint64, count, data);
    var (counts, data) :- ParseMany(ParseUint64, count, data);
    if Sum(counts) > MAX_ELEMENTS then Bad else
    var (extras, data) :- ParseMany(ParseExtra, count, data);
    if Sum(counts) > |data| / 128 then Bad else
    var (fields, data) :- ParseTransactions(item, Sum(counts), data);
    if data != [] then Bad else Good(Columns(start, anchor, marks, origins, times, counts, extras, fields), data)
  }

  // ---------------------------------------------------------------- well-formed columns

  ghost predicate Delimited(item: ItemSize, data: seq<Byte>, more: seq<Byte>) {
    var r := ParseItem(item, data);
    r.Good? ==> ParseItem(item, r.value + more) == Good(r.value, more)
  }

  /** An item is found from its own bytes, whatever follows them. */
  ghost predicate SelfDelimiting(item: ItemSize) { forall data, more :: Delimited(item, data, more) }

  predicate IsPayload(item: ItemSize, payload: seq<Byte>) { ParseRaw(item, payload) == Good(payload, []) }

  predicate FieldsShape(f: TxColumns, n: nat) {
    && |f.creation| == |f.parity| == |f.sigs| == |f.payloads| == |f.nonces| == |f.gases| == n
    && |f.queue| == |f.seqParity| == |f.seqSigs| == n
    && |f.tos| == Rank(f.creation, false, n)
    && |f.protected| == Rank(Legacy(f.payloads), true, n)
    && |f.origins| == Rank(f.queue, true, n)
  }

  predicate FieldsFit(item: ItemSize, f: TxColumns, n: nat) {
    FieldsShape(f, n) && forall p :: p in f.payloads ==> IsPayload(item, p)
  }

  predicate SpanFits(item: ItemSize, c: Columns) {
    && |c.anchor| == ANCHOR_BYTES
    && 1 <= |c.counts| <= MAX_ELEMENTS && 1 <= c.start && |c.counts| - 1 <= MAX_UINT64 - c.start
    && |c.marks| == |c.origins| == |c.times| == |c.extras| == |c.counts|
    && (forall e :: e in c.extras ==> |e| <= MAX_UINT64)
    && Sum(c.counts) <= MAX_ELEMENTS
    && FieldsFit(item, c.fields, Sum(c.counts))
  }

  lemma ParsedPayload(item: ItemSize, data: seq<Byte>)
    requires SelfDelimiting(item) && ParseRaw(item, data).Good?
    ensures IsPayload(item, ParseRaw(item, data).value)
  {
    hide ParseItem;
    if data[0] > 0x7f {
      assert Delimited(item, data, []);
      assert ParseItem(item, data).value + [] == ParseItem(item, data).value;
    } else {
      var inner := ParseItem(item, data[1..]).value;
      assert Delimited(item, data[1..], []);
      assert inner + [] == inner == ([data[0]] + inner)[1..];
    }
  }

  lemma {:induction false} ParsedPayloads(item: ItemSize, n: nat, data: seq<Byte>)
    requires SelfDelimiting(item)
    ensures ParseMany(PayloadParser(item), n, data).Good? ==>
              forall p :: p in ParseMany(PayloadParser(item), n, data).value ==> IsPayload(item, p)
  {
    hide SelfDelimiting, ParseRaw, IsPayload;
    if n > 0 && ParseRaw(item, data).Good? {
      ParsedPayload(item, data);
      ParsedPayloads(item, n - 1, ParseRaw(item, data).rest);
    }
  }

  lemma {:induction false} ParsedExtras(n: nat, data: seq<Byte>)
    ensures ParseMany(ParseExtra, n, data).Good? ==>
              forall e :: e in ParseMany(ParseExtra, n, data).value ==> |e| <= MAX_UINT64
  {
    hide ParseUint64;
    if n > 0 && ParseExtra(data).Good? {
      ParsedExtras(n - 1, ParseExtra(data).rest);
    }
  }

  lemma ParsedTransactionsFit(item: ItemSize, n: nat, data: seq<Byte>)
    requires SelfDelimiting(item)
    ensures ParseTransactions(item, n, data).Good? ==> FieldsFit(item, ParseTransactions(item, n, data).value, n)
  {
    hide SelfDelimiting, ParseBits, ParseMany, ParseRaw, ParseUint64, ParseSignature, ParseAccount, Rank, Legacy,
         IsPayload;
    forall data ensures ParseMany(PayloadParser(item), n, data).Good? ==>
        forall p :: p in ParseMany(PayloadParser(item), n, data).value ==> IsPayload(item, p)
    {
      ParsedPayloads(item, n, data);
    }
  }

  /** Whatever bytes are accepted, the columns fit together. */
  lemma ParsedSpanFits(item: ItemSize, data: seq<Byte>)
    requires SelfDelimiting(item)
    ensures ParseSpan(item, data).Good? ==> SpanFits(item, ParseSpan(item, data).value)
  {
    hide SelfDelimiting, ParseBits, ParseMany, ParseUint64, ParseExtra, ParseTransactions, FieldsFit, Sum;
    forall n, data ensures ParseMany(ParseExtra, n, data).Good? ==>
        forall e :: e in ParseMany(ParseExtra, n, data).value ==> |e| <= MAX_UINT64
    {
      ParsedExtras(n, data);
    }
    forall n, data ensures ParseTransactions(item, n, data).Good? ==>
        FieldsFit(item, ParseTransactions(item, n, data).value, n)
    {
      ParsedTransactionsFit(item, n, data);
    }
  }

  // ---------------------------------------------------------------- the encoder

  function WriteSignature(s: Signature): seq<Byte> { s.r + s.s }

  function WriteAccount(a: Account): seq<Byte> { a }

  function WritePayload(p: seq<Byte>): seq<Byte> { p }

  function WriteUint64(n: Uint64): seq<Byte> { WriteVarint(n) }

  function WriteExtra(e: seq<Byte>): (bytes: seq<Byte>)
    ensures |bytes| >= 1
  {
    WriteVarint(|e|) + e
  }

  /** The transaction columns in wire order, before `after`. */
  function WriteTransactions(f: TxColumns, after: seq<Byte>): seq<Byte> {
    WriteBits(f.creation) + (WriteBits(f.parity) + (WriteMany(WriteSignature, f.sigs) + (WriteMany(WriteAccount, f.tos)
    + (WriteMany(WritePayload, f.payloads) + (WriteMany(WriteUint64, f.nonces) + (WriteMany(WriteUint64, f.gases)
    + (WriteBits(f.protected) + (WriteBits(f.queue) + (WriteBits(f.seqParity) + (WriteMany(WriteSignature, f.seqSigs)
    + (WriteMany(WriteAccount, f.origins) + after)))))))))))
  }

  function WriteExtras(c: Columns): seq<Byte> {
    WriteMany(WriteExtra, c.extras) + WriteTransactions(c.fields, [])
  }

  function WriteBody(c: Columns): seq<Byte> {
    WriteBits(c.marks) + (WriteMany(WriteUint64, c.origins) + (WriteMany(WriteUint64, c.times)
    + (WriteMany(WriteUint64, c.counts) + WriteExtras(c))))
  }

  function WriteSpan(c: Columns): seq<Byte> {
    WriteVarint(c.start) + (c.anchor + (WriteVarint(|c.counts|) + WriteBody(c)))
  }

  // ---------------------------------------------------------------- the wire order

  function Chained(pieces: seq<seq<Byte>>): seq<Byte> { if pieces == [] then [] else pieces[0] + Chained(pieces[1..]) }

  lemma ChainedFirst(piece: seq<Byte>, rest: seq<seq<Byte>>)
    ensures Chained([piece] + rest) == piece + Chained(rest)
  {
    assert ([piece] + rest)[1..] == rest;
  }

  lemma {:induction false} ChainedConcat(a: seq<seq<Byte>>, b: seq<seq<Byte>>)
    ensures Chained(a + b) == Chained(a) + Chained(b)
  {
    if a == [] {
      assert a + b == b;
    } else {
      assert a + b == [a[0]] + (a[1..] + b) && a == [a[0]] + a[1..];
      ChainedFirst(a[0], a[1..] + b);
      ChainedConcat(a[1..], b);
    }
  }

  /** Creation bits, parity bits, signatures, targets, payloads, nonces, gas limits, protection bits, queue bits, the
      sequencer's parity bits and signatures, and last the L1 origins of the deposits. */
  function TransactionPieces(f: TxColumns): seq<seq<Byte>> {
    [WriteBits(f.creation), WriteBits(f.parity), WriteMany(WriteSignature, f.sigs), WriteMany(WriteAccount, f.tos),
     WriteMany(WritePayload, f.payloads), WriteMany(WriteUint64, f.nonces), WriteMany(WriteUint64, f.gases),
     WriteBits(f.protected), WriteBits(f.queue), WriteBits(f.seqParity), WriteMany(WriteSignature, f.seqSigs),
     WriteMany(WriteAccount, f.origins)]
  }

  /** Start, anchor and block count; then for all blocks the marks, L1 origins, times and transaction counts, the extra
      data, and the transactions. */
  function SpanPieces(c: Columns): seq<seq<Byte>> {
    [WriteVarint(c.start), c.anchor, WriteVarint(|c.counts|), WriteBits(c.marks), WriteMany(WriteUint64, c.origins),
     WriteMany(WriteUint64, c.times), WriteMany(WriteUint64, c.counts), WriteMany(WriteExtra, c.extras)]
    + TransactionPieces(c.fields)
  }

  /** Prepending piece after piece. */
  function Prepended(pieces: seq<seq<Byte>>, after: seq<Byte>): seq<Byte> {
    if pieces == [] then after else pieces[0] + Prepended(pieces[1..], after)
  }

  lemma {:induction false} PrependedChained(pieces: seq<seq<Byte>>, after: seq<Byte>)
    ensures Prepended(pieces, after) == Chained(pieces) + after
  {
    if pieces != [] {
      PrependedChained(pieces[1..], after);
    }
  }

  lemma Prepend4(a: seq<Byte>, b: seq<Byte>, c: seq<Byte>, d: seq<Byte>, after: seq<Byte>)
    ensures Prepended([a, b, c, d], after) == a + (b + (c + (d + after)))
  {
    assert [a, b, c, d][1..] == [b, c, d] && [b, c, d][1..] == [c, d] && [c, d][1..] == [d] && [d][1..] == [];
    assert Prepended([d], after) == d + after;
    assert Prepended([c, d], after) == c + (d + after);
  }

  lemma Chained4(a: seq<Byte>, b: seq<Byte>, c: seq<Byte>, d: seq<Byte>, after: seq<Byte>)
    ensures a + (b + (c + (d + after))) == Chained([a, b, c, d]) + after
  {
    Prepend4(a, b, c, d, after);
    PrependedChained([a, b, c, d], after);
  }

  lemma TransactionsLayout(f: TxColumns)
    ensures WriteTransactions(f, []) == Chained(TransactionPieces(f))
  {
    hide WriteBits, WriteMany, WriteVarint, Chained;
    var p := TransactionPieces(f);
    var x, y, z := [p[0], p[1], p[2], p[3]], [p[4], p[5], p[6], p[7]], [p[8], p[9], p[10], p[11]];
    Chained4(p[8], p[9], p[10], p[11], []);
    Chained4(p[4], p[5], p[6], p[7], Chained(z) + []);
    Chained4(p[0], p[1], p[2], p[3], Chained(y) + (Chained(z) + []));
    ChainedConcat(x + y, z);
    ChainedConcat(x, y);
    assert p == x + y + z;
    assert Chained(x) + (Chained(y) + (Chained(z) + [])) == Chained(x) + Chained(y) + Chained(z);
  }

  /** The bytes of a span are its columns, one after the other, in this order. */
  lemma SpanLayout(c: Columns)
    ensures WriteSpan(c) == Chained(SpanPieces(c))
  {
    hide WriteBits, WriteMany, WriteVarint, WriteTransactions, TransactionPieces, Chained;
    var p, last := SpanPieces(c)[..8], WriteTransactions(c.fields, []);
    var x, y := [p[0], p[1], p[2], p[3]], [p[4], p[5], p[6], p[7]];
    TransactionsLayout(c.fields);
    Chained4(p[4], p[5], p[6], p[7], last);
    Chained4(p[0], p[1], p[2], p[3], Chained(y) + last);
    ChainedConcat(x + y, TransactionPieces(c.fields));
    ChainedConcat(x, y);
    assert SpanPieces(c) == x + y + TransactionPieces(c.fields);
    assert Chained(x) + (Chained(y) + last) == Chained(x) + Chained(y) + last;
  }

  // ---------------------------------------------------------------- round trip

  lemma FixedRoundTrip(bytes: seq<Byte>, after: seq<Byte>)
    ensures ParseFixed(|bytes|, bytes + after) == Good(bytes, after)
  {
    assert (bytes + after)[..|bytes|] == bytes && (bytes + after)[|bytes|..] == after;
  }

  lemma SignatureRoundTrip(s: Signature, after: seq<Byte>)
    ensures ParseSignature(WriteSignature(s) + after) == Good(s, after)
  {
    FixedRoundTrip(s.r, s.s + after);
    FixedRoundTrip(s.s, after);
    assert WriteSignature(s) + after == s.r + (s.s + after);
  }

  lemma ExtraRoundTrip(e: seq<Byte>, after: seq<Byte>)
    requires |e| <= MAX_UINT64
    ensures ParseExtra(WriteExtra(e) + after) == Good(e, after)
  {
    hide ParseUint64, WriteVarint;
    Uint64RoundTrip(|e|, e + after);
    FixedRoundTrip(e, after);
    assert WriteExtra(e) + after == WriteVarint(|e|) + (e + after);
  }

  lemma PayloadRoundTrip(item: ItemSize, p: seq<Byte>, after: seq<Byte>)
    requires SelfDelimiting(item) && IsPayload(item, p)
    ensures ParseRaw(item, p + after) == Good(p, after)
  {
    hide ParseItem;
    if p[0] > 0x7f {
      assert Delimited(item, p, after);
    } else {
      assert [p[0]] + ParseItem(item, p[1..]).value == p;
      assert ParseItem(item, p[1..]).value == p[1..];
      assert Delimited(item, p[1..], after);
      assert (p + after)[1..] == p[1..] + after;
    }
  }

  lemma SignaturesRoundTrip(items: seq<Signature>, after: seq<Byte>)
    ensures ParseMany(ParseSignature, |items|, WriteMany(WriteSignature, items) + after) == Good(items, after)
  {
    hide ParseSignature, WriteSignature;
    forall x, rest | x in items ensures ParseSignature(WriteSignature(x) + rest) == Good(x, rest) {
      SignatureRoundTrip(x, rest);
    }
    ManyRoundTrip(ParseSignature, WriteSignature, items, after);
  }

  lemma AccountsRoundTrip(items: seq<Account>, after: seq<Byte>)
    ensures ParseMany(ParseAccount, |items|, WriteMany(WriteAccount, items) + after) == Good(items, after)
  {
    forall x, rest | x in items ensures ParseAccount(WriteAccount(x) + rest) == Good(x, rest) {
      FixedRoundTrip(x, rest);
    }
    ManyRoundTrip(ParseAccount, WriteAccount, items, after);
  }

  lemma NumbersRoundTrip(items: seq<Uint64>, after: seq<Byte>)
    ensures ParseMany(ParseUint64, |items|, WriteMany(WriteUint64, items) + after) == Good(items, after)
  {
    hide ParseUint64, WriteVarint;
    forall x, rest | x in items ensures ParseUint64(WriteUint64(x) + rest) == Good(x, rest) {
      Uint64RoundTrip(x, rest);
    }
    ManyRoundTrip(ParseUint64, WriteUint64, items, after);
  }

  lemma ExtrasRoundTrip(items: seq<seq<Byte>>, after: seq<Byte>)
    requires forall e :: e in items ==> |e| <= MAX_UINT64
    ensures ParseMany(ParseExtra, |items|, WriteMany(WriteExtra, items) + after) == Good(items, after)
  {
    hide ParseExtra, WriteExtra;
    forall x, rest | x in items ensures ParseExtra(WriteExtra(x) + rest) == Good(x, rest) {
      ExtraRoundTrip(x, rest);
    }
    ManyRoundTrip(ParseExtra, WriteExtra, items, after);
  }

  lemma PayloadsRoundTrip(item: ItemSize, items: seq<seq<Byte>>, after: seq<Byte>)
    requires SelfDelimiting(item) && forall p :: p in items ==> IsPayload(item, p)
    ensures ParseMany(PayloadParser(item), |items|, WriteMany(WritePayload, items) + after) == Good(items, after)
  {
    hide ParseRaw, SelfDelimiting, IsPayload;
    var p := PayloadParser(item);
    forall x, rest | x in items ensures p(WritePayload(x) + rest) == Good(x, rest) {
      PayloadRoundTrip(item, x, rest);
    }
    ManyRoundTrip(p, WritePayload, items, after);
  }

  lemma TransactionsRoundTrip(item: ItemSize, f: TxColumns, n: nat, after: seq<Byte>)
    requires SelfDelimiting(item) && FieldsFit(item, f, n)
    ensures ParseTransactions(item, n, WriteTransactions(f, after)) == Good(f, after)
  {
    hide SelfDelimiting, ParseBits, ParseMany, ParseRaw, ParseUint64, ParseSignature, ParseAccount, Rank, Legacy,
         IsPayload, WriteBits, WriteMany;
    var t11 := WriteMany(WriteAccount, f.origins) + after;
    var t10 := WriteMany(WriteSignature, f.seqSigs) + t11;
    var t9 := WriteBits(f.seqParity) + t10;
    var t8 := WriteBits(f.queue) + t9;
    var t7 := WriteBits(f.protected) + t8;
    var t6 := WriteMany(WriteUint64, f.gases) + t7;
    var t5 := WriteMany(WriteUint64, f.nonces) + t6;
    var t4 := WriteMany(WritePayload, f.payloads) + t5;
    var t3 := WriteMany(WriteAccount, f.tos) + t4;
    var t2 := WriteMany(WriteSignature, f.sigs) + t3;
    var t1 := WriteBits(f.parity) + t2;
    BitsRoundTrip(f.creation, t1);
    BitsRoundTrip(f.parity, t2);
    SignaturesRoundTrip(f.sigs, t3);
    AccountsRoundTrip(f.tos, t4);
    PayloadsRoundTrip(item, f.payloads, t5);
    NumbersRoundTrip(f.nonces, t6);
    NumbersRoundTrip(f.gases, t7);
    BitsRoundTrip(f.protected, t8);
    BitsRoundTrip(f.queue, t9);
    BitsRoundTrip(f.seqParity, t10);
    SignaturesRoundTrip(f.seqSigs, t11);
    AccountsRoundTrip(f.origins, after);
  }

  lemma {:induction false} ManySpace<T(!new)>(write: T -> seq<Byte>, items: seq<T>, width: nat)
    requires forall x :: x in items ==> |write(x)| >= width
    ensures |WriteMany(write, items)| >= width * |items|
  {
    if items != [] {
      assert items[0] in items && forall x :: x in items[1..] ==> x in items;
      ManySpace(write, items[1..], width);
      OneMore(width, |items|);
    }
  }

  lemma OneMore(width: nat, n: nat)
    requires n > 0
    ensures width * n == width * (n - 1) + width
  {
  }

  /** The size guards of the decoder never refuse what the encoder wrote. */
  lemma TransactionsSpace(f: TxColumns, n: nat, after: seq<Byte>)
    requires |f.sigs| == |f.seqSigs| == n
    ensures |WriteTransactions(f, after)| >= 128 * n
  {
    hide WriteBits, WriteMany;
    ManySpace(WriteSignature, f.sigs, 64);
    ManySpace(WriteSignature, f.seqSigs, 64);
  }

  lemma BodySpace(c: Columns)
    requires |c.origins| == |c.times| == |c.extras| == |c.counts|
    ensures |WriteBody(c)| >= 4 * |c.counts|
  {
    hide WriteBits, WriteMany, WriteVarint, WriteExtra, WriteTransactions;
    ManySpace(WriteUint64, c.origins, 1);
    ManySpace(WriteUint64, c.times, 1);
    ManySpace(WriteUint64, c.counts, 1);
    ManySpace(WriteExtra, c.extras, 1);
  }

  lemma SpanRoundTrip(item: ItemSize, c: Columns)
    requires SelfDelimiting(item) && SpanFits(item, c)
    ensures ParseSpan(item, WriteSpan(c)) == Good(c, [])
  {
    hide SelfDelimiting, ParseBits, ParseMany, ParseUint64, ParseExtra, ParseTransactions, Sum, WriteBits, WriteMany,
         WriteVarint, WriteTransactions, FieldsFit;
    var n := Sum(c.counts);
    assert |c.fields.sigs| == |c.fields.seqSigs| == n by { TransactionsFitSignatures(item, c.fields, n); }
    TransactionsSpace(c.fields, n, []);
    BodySpace(c);
    var t4 := WriteMany(WriteUint64, c.counts) + WriteExtras(c);
    var t3 := WriteMany(WriteUint64, c.times) + t4;
    var t2 := WriteMany(WriteUint64, c.origins) + t3;
    var t1 := WriteVarint(|c.counts|) + WriteBody(c);
    Uint64RoundTrip(c.start, c.anchor + t1);
    FixedRoundTrip(c.anchor, t1);
    Uint64RoundTrip(|c.counts|, WriteBody(c));
    BitsRoundTrip(c.marks, t2);
    NumbersRoundTrip(c.origins, t3);
    NumbersRoundTrip(c.times, t4);
    NumbersRoundTrip(c.counts, WriteExtras(c));
    ExtrasRoundTrip(c.extras, WriteTransactions(c.fields, []));
    TransactionsRoundTrip(item, c.fields, n, []);
  }

  lemma TransactionsFitSignatures(item: ItemSize, f: TxColumns, n: nat)
    requires FieldsFit(item, f, n)
    ensures |f.sigs| == |f.seqSigs| == n
  {
  }
}
