/** The deposit records: a gap-free queue that grows at its end and tolerates replays. */
module DepositQueue {
  import opened Prelude
  import opened StoreTypes

  datatype Enqueue = Enqueue(index: Uint64, target: Address, data: seq<Byte>, gasLimit: nat, origin: Address,
                             blockNumber: Uint64, timestamp: Uint64)

  datatype Record = Record(enqueue: Enqueue, blockHash: Hash, txHash: Hash, logIndex: nat)

  datatype DepositState = DepositState(height: Option<Uint64>, hash: Hash, ctc: Address, latest: Option<Uint64>)

  /** Stored records and the newest index. */
  datatype Queue = Queue(records: map<Uint64, Record>, latest: Option<Uint64>) {
    /** Exactly the indexes from 0 to the newest are stored, each under its own index. */
    ghost predicate Contiguous() {
      && (forall n: Uint64 :: n in records <==> latest.Some? && n <= latest.value)
      && (forall n :: n in records ==> records[n].enqueue.index == n)
    }
  }

  const EMPTY_QUEUE: Queue := Queue(map[], None)

  function Append(q: Queue, r: Record): Option<Queue> {
    var n := r.enqueue.index;
    if n in q.records then (if q.records[n] == r then Some(q) else None)
    else if q.latest == Some(MAX_UINT64) then None
    else if n == (if q.latest.Some? then q.latest.value + 1 else 0) then Some(Queue(q.records[n := r], Some(n)))
    else None
  }

  function AppendAll(q: Queue, rs: seq<Record>): Option<Queue> {
    if rs == [] then Some(q) else
    var before := AppendAll(q, rs[..|rs| - 1]);
    if before.None? then None else Append(before.value, rs[|rs| - 1])
  }

  lemma AppendKeeps(q: Queue, r: Record)
    requires q.Contiguous() && Append(q, r).Some?
    ensures var q' := Append(q, r).value;
            && q'.Contiguous() && r.enqueue.index in q'.records && q'.records[r.enqueue.index] == r
            && (forall n :: n in q.records ==> n in q'.records && q'.records[n] == q.records[n])
            && (forall n :: n in q'.records && n !in q.records ==> q'.records[n] == r)
  {
  }

  /** Every commit keeps the queue gap-free and changes no stored record. */
  lemma {:induction false} AppendAllKeeps(q: Queue, rs: seq<Record>)
    requires q.Contiguous() && AppendAll(q, rs).Some?
    ensures var q' := AppendAll(q, rs).value;
            && q'.Contiguous()
            && (forall n :: n in q.records ==> n in q'.records && q'.records[n] == q.records[n])
            && (forall r :: r in rs ==> r.enqueue.index in q'.records && q'.records[r.enqueue.index] == r)
            && (forall n :: n in q'.records && n !in q.records ==> q'.records[n] in rs)
  {
    hide Append, Queue.Contiguous;
    if rs != [] {
      var front, last := rs[..|rs| - 1], rs[|rs| - 1];
      AppendAllKeeps(q, front);
      AppendKeeps(AppendAll(q, front).value, last);
      assert rs == front + [last];
    }
  }

  lemma {:induction false} AppendAllConcat(q: Queue, a: seq<Record>, b: seq<Record>)
    ensures AppendAll(q, a + b) == if AppendAll(q, a).None? then None else AppendAll(AppendAll(q, a).value, b)
  {
    if b == [] {
      assert a + b == a;
    } else {
      assert (a + b)[..|a + b| - 1] == a + b[..|b| - 1];
      AppendAllConcat(q, a, b[..|b| - 1]);
    }
  }

  lemma {:induction false} AppendStored(q: Queue, rs: seq<Record>)
    requires forall r :: r in rs ==> r.enqueue.index in q.records && q.records[r.enqueue.index] == r
    ensures AppendAll(q, rs) == Some(q)
  {
    if rs != [] {
      forall r | r in rs[..|rs| - 1] ensures r in rs {}
      AppendStored(q, rs[..|rs| - 1]);
      assert rs[|rs| - 1] in rs;
    }
  }

  /** Replaying committed records changes nothing and does not move the newest index. */
  lemma ReplayIsNoop(q: Queue, rs: seq<Record>)
    requires q.Contiguous() && AppendAll(q, rs).Some?
    ensures AppendAll(AppendAll(q, rs).value, rs) == AppendAll(q, rs)
  {
    AppendAllKeeps(q, rs);
    AppendStored(AppendAll(q, rs).value, rs);
  }

  // ---------------------------------------------------------------- deposits of an L2 block

  const SKIPPED: Uint64 := 20397

  /** The queue index a block's deposit is stored under: the failed enqueue 20397 is skipped. */
  function StoredIndex(n: Uint64): (q: Uint64)
    requires n < MAX_UINT64
    ensures q != SKIPPED
  {
    if n >= SKIPPED then n + 1 else n
  }

  lemma StoredIndexIncreasing(n: Uint64, m: Uint64)
    requires n < m < MAX_UINT64
    ensures StoredIndex(n) < StoredIndex(m)
  {
  }

  lemma StoredIndexOnto(q: Uint64)
    requires q != SKIPPED
    ensures exists n: Uint64 :: n < MAX_UINT64 && StoredIndex(n) == q
  {
    var n: Uint64 := if q > SKIPPED then q - 1 else q;
    assert StoredIndex(n) == q;
  }

  /** Malformed queue index, deposit not stored yet, or the transactions with their deposits. */
  datatype Hydration = Malformed | Waiting | Hydrated(txs: seq<BlockTransaction>)

  predicate WellFormedDeposit(tx: BlockTransaction) { tx.queueIndex.Some? && tx.queueIndex.value < MAX_UINT64 }

  function WithDeposit(tx: BlockTransaction, q: Uint64, e: Enqueue): BlockTransaction {
    tx.(blockNumber := e.blockNumber, timestamp := if tx.timestamp == 0 then e.timestamp else tx.timestamp,
        gasLimit := e.gasLimit, target := e.target, origin := e.origin, data := e.data, queueIndex := Some(q))
  }

  function Hydrate(txs: seq<BlockTransaction>, records: map<Uint64, Record>): (h: Hydration)
    ensures h.Hydrated? ==> |h.txs| == |txs|
  {
    if txs == [] then Hydrated([]) else
    var before, tx := Hydrate(txs[..|txs| - 1], records), txs[|txs| - 1];
    if !before.Hydrated? then before
    else if tx.queueOrigin != L1 then Hydrated(before.txs + [tx])
    else if !WellFormedDeposit(tx) then Malformed
    else if StoredIndex(tx.queueIndex.value) !in records then Waiting
    else
      var q := StoredIndex(tx.queueIndex.value);
      Hydrated(before.txs + [WithDeposit(tx, q, records[q].enqueue)])
  }

  predicate Resolved(tx: BlockTransaction, records: map<Uint64, Record>) {
    tx.queueOrigin == L1 ==> WellFormedDeposit(tx) && StoredIndex(tx.queueIndex.value) in records
  }

  /** All deposits of a block are published or none; corruption is reported exactly when a malformed
      deposit comes before any that is still missing. */
  lemma {:induction false} HydrateExact(txs: seq<BlockTransaction>, records: map<Uint64, Record>)
    ensures var h := Hydrate(txs, records);
            && (h.Hydrated? <==> forall i :: 0 <= i < |txs| ==> Resolved(txs[i], records))
            && (h.Malformed? <==> exists i :: 0 <= i < |txs| && txs[i].queueOrigin == L1 && !WellFormedDeposit(txs[i])
                                           && forall j :: 0 <= j < i ==> Resolved(txs[j], records))
            && (h.Hydrated? ==> forall i :: 0 <= i < |txs| ==>
                  h.txs[i] == if txs[i].queueOrigin != L1 then txs[i]
                              else WithDeposit(txs[i], StoredIndex(txs[i].queueIndex.value),
                                               records[StoredIndex(txs[i].queueIndex.value)].enqueue))
  {
    hide StoredIndex, WithDeposit;
    if txs != [] {
      var front, last := txs[..|txs| - 1], |txs| - 1;
      HydrateExact(front, records);
      assert forall i :: 0 <= i < |front| ==> front[i] == txs[i];
      var h := Hydrate(front, records);
      if h.Malformed? {
        var i :| 0 <= i < |front| && front[i].queueOrigin == L1 && !WellFormedDeposit(front[i])
                 && forall j :: 0 <= j < i ==> Resolved(front[j], records);
        assert txs[i] == front[i] && !Resolved(txs[i], records);
      }
      if Hydrate(txs, records).Malformed? && h.Hydrated? {
        assert txs[last].queueOrigin == L1 && !WellFormedDeposit(txs[last]);
      }
    }
  }

  // ---------------------------------------------------------------- what a joined block says

  /** The published form of a transaction: a sequencer transaction as it is, a deposit with what the queue has for it.
      Queue index 20397 was never used by a block, so indexes from there on stand one further. */
  ghost predicate Joined(tx: BlockTransaction, records: map<Uint64, Record>, out: BlockTransaction) {
    if tx.queueOrigin != L1 then out == tx
    else
      && tx.queueIndex.Some? && out.queueIndex.Some?
      && var n, q := tx.queueIndex.value, out.queueIndex.value;
      && q == (if n < 20397 then n else n + 1) && q in records
      && var e := records[q].enqueue;
      && out.blockNumber == e.blockNumber && out.gasLimit == e.gasLimit && out.target == e.target
      && out.origin == e.origin && out.data == e.data
      && out.timestamp == (if tx.timestamp == 0 then e.timestamp else tx.timestamp)
      && out.index == tx.index && out.batchIndex == tx.batchIndex && out.queueOrigin == L1 && out.signed == tx.signed
  }

  /** Everything a transaction needs from the queue is there. */
  predicate Joinable(tx: BlockTransaction, records: map<Uint64, Record>) {
    tx.queueOrigin == L1 ==>
      && tx.queueIndex.Some?
      && var n := tx.queueIndex.value; (if n < 20397 then n else n + 1) in records
  }

  ghost predicate JoinedBlock(b: Block, records: map<Uint64, Record>, out: Block) {
    && out.index == b.index && out.batchIndex == b.batchIndex && out.timestamp == b.timestamp
    && out.extraData == b.extraData && |out.transactions| == |b.transactions|
    && forall i :: 0 <= i < |b.transactions| ==> Joined(b.transactions[i], records, out.transactions[i])
  }

  /** Transactions are joined exactly when each can be, and each then as it is to be published. */
  lemma HydrateMeans(txs: seq<BlockTransaction>, records: map<Uint64, Record>)
    ensures var h := Hydrate(txs, records);
      && (h.Hydrated? <==> forall i :: 0 <= i < |txs| ==> Joinable(txs[i], records))
      && (h.Hydrated? ==> forall i :: 0 <= i < |txs| ==> Joined(txs[i], records, h.txs[i]))
  {
    hide Hydrate;
    HydrateExact(txs, records);
    forall i | 0 <= i < |txs| ensures Resolved(txs[i], records) <==> Joinable(txs[i], records) {}
  }

  /** A record is taken exactly when it is there already or it is the next one: the indexes stored are those below. */
  lemma AppendIff(q: Queue, r: Record)
    requires q.Contiguous()
    ensures Append(q, r).Some? <==>
              r in q.records.Values || (forall n: Uint64 :: n in q.records <==> n < r.enqueue.index)
    ensures Append(q, r).Some? ==>
              var q' := Append(q, r).value;
              q'.records == q.records[r.enqueue.index := r]
              && (q'.latest == q.latest || q'.latest == Some(r.enqueue.index))
  {
    var n := r.enqueue.index;
    if r in q.records.Values {
      var k :| k in q.records && q.records[k] == r;
      assert k == n && q.records[n := r] == q.records;
    }
    if forall m: Uint64 :: m in q.records <==> m < n {
      assert n !in q.records;
      if n > 0 {
        var m: Uint64 := n - 1;
        assert m in q.records;
      }
    }
    if Append(q, r).Some? && n !in q.records {
      forall m: Uint64 ensures m in q.records <==> m < n {}
    }
  }
}
