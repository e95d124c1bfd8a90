/** The store: deposit checkpoints, Blob commits and joined block reads over one database. */
module Store {
  import opened Prelude
  import opened StoreTypes
  import opened RetainedSet
  import opened BlobStore
  import opened DepositQueue

  datatype Outcome = Done | StoreClosed | Integrity

  /** Block and batch of one read, as published. */
  datatype BlockResponse = BlockResponse(block: Option<Block>, batch: Option<BlockBatch>)

  const NO_BLOCK: BlockResponse := BlockResponse(None, None)

  class Database {
    var closed: bool
    var deposits: DepositState
    var records: map<Uint64, Record>
    var blob: BlobDb
    /** The retained set the Blob families stand for. */
    ghost var retained: Retained
    /** Everything any successful commit was ever given. */
    ghost var everTxs: set<BlobTransaction>
    ghost var everChannels: set<BlobChannel>

    ghost function DepositRecords(): Queue
      reads this
    {
      Queue(records, deposits.latest)
    }

    /** The retained set is what was ever committed, cut off at the retention boundary. */
    ghost predicate WindowExact()
      reads this
    {
      && (forall tx :: tx in retained.txs.Values <==> tx in everTxs && tx.timestamp >= blob.state.cutoff)
      && (forall ch :: ch in retained.channels.Values <==>
            ch in everChannels && ch.record.expiresAt >= blob.state.cutoff)
    }

    ghost predicate BlobValid()
      reads this
    {
      && RetainedSet.Valid(retained) && Within(retained, blob.state.cutoff) && Represents(blob, retained)
      && IsLatest(blob.state.latest, blob.pointers.Keys)
      && WindowExact()
    }

    ghost predicate Valid()
      reads this
    {
      DepositRecords().Contiguous() && BlobValid()
    }

    /** A new database with Blob support initialized. */
    constructor ()
      ensures Valid() && !closed && blob == EMPTY_DB && DepositRecords() == EMPTY_QUEUE
      ensures deposits == DepositState(None, [], ZERO_ADDRESS, None)
      ensures retained == Retained(map[], map[]) && everTxs == {} && everChannels == {}
    {
      closed := false;
      deposits, records := DepositState(None, [], ZERO_ADDRESS, None), map[];
      blob, retained := EMPTY_DB, Retained(map[], map[]);
      everTxs, everChannels := {}, {};
    }

    /** The database opened again: everything committed before is there. */
    constructor Reopen(before: Database)
      requires before.Valid()
      ensures Valid() && !closed && blob == before.blob && retained == before.retained
      ensures deposits == before.deposits && records == before.records
      ensures everTxs == before.everTxs && everChannels == before.everChannels
    {
      closed, deposits, records, blob := false, before.deposits, before.records, before.blob;
      retained, everTxs, everChannels := before.retained, before.everTxs, before.everChannels;
    }

    method Close()
      requires Valid()
      modifies this`closed
      ensures Valid() && closed
    {
      closed := true;
    }

    /** Deposits: compare the checkpoint, append what is new, install all or nothing. */
    method Commit(before: DepositState, after: DepositState, more: seq<Record>) returns (r: Outcome)
      requires Valid()
      modifies this`deposits, this`records
      ensures Valid()
      ensures r == if closed then StoreClosed
                   else if old(deposits) == before && AppendAll(old(DepositRecords()), more).Some? then Done
                   else Integrity
      ensures r == Done ==> DepositRecords() == AppendAll(old(DepositRecords()), more).value
                            && deposits == after.(latest := deposits.latest)
      ensures r != Done ==> deposits == old(deposits) && records == old(records)
    {
      if closed {
        return StoreClosed;
      }
      if deposits != before {
        return Integrity;
      }
      var batch, latest := records, before.latest;
      for i := 0 to |more|
        invariant AppendAll(DepositRecords(), more[..i]) == Some(Queue(batch, latest))
      {
        var record := more[i];
        var n := record.enqueue.index;
        assert more[..i + 1][..i] == more[..i];
        if n in batch {
          if batch[n] != record {
            AppendPrefix(DepositRecords(), more, i + 1);
            return Integrity;
          }
          continue;
        }
        if latest == Some(MAX_UINT64) {
          AppendPrefix(DepositRecords(), more, i + 1);
          return Integrity;
        }
        var expected: Uint64 := if latest.Some? then latest.value + 1 else 0;
        if n != expected {
          AppendPrefix(DepositRecords(), more, i + 1);
          return Integrity;
        }
        batch, latest := batch[n := record], Some(n);
      }
      assert more[..|more|] == more;
      AppendAllKeeps(DepositRecords(), more);
      deposits, records := after.(latest := latest), batch;
      return Done;
    }

    /** Blob records: compare the whole snapshot, stage the batch, install all or nothing. */
    method CommitBlob(before: BlobState, after: BlobState, txs: seq<BlobTransaction>, channels: seq<BlobChannel>)
      returns (r: Outcome)
      requires Valid()
      modifies this`blob, this`retained, this`everTxs, this`everChannels
      ensures Valid()
      ensures r == if closed then StoreClosed
                   else if old(blob.state) == before && before.revision < MAX_UINT64 && after.cutoff >= before.cutoff
                           && RetainedSet.Commit(old(retained), txs, channels, after.cutoff).Some? then Done
                   else Integrity
      ensures r == Done ==>
        && retained == RetainedSet.Commit(old(retained), txs, channels, after.cutoff).value
        && blob.state == after.(revision := before.revision + 1, latest := blob.state.latest)
        && everTxs == old(everTxs) + (set tx | tx in txs)
        && everChannels == old(everChannels) + (set ch | ch in channels)
      ensures r != Done ==> blob == old(blob) && retained == old(retained)
                            && everTxs == old(everTxs) && everChannels == old(everChannels)
    {
      hide RetainedSet.Commit, Represents, RetainedSet.Valid, Within, IsLatest;
      if closed {
        return StoreClosed;
      }
      if blob.state != before {
        return Integrity;
      }
      if before.revision == MAX_UINT64 || after.cutoff < before.cutoff {
        return Integrity;
      }
      var ok, b, latest := StageCommit(blob, txs, channels, after.cutoff, retained);
      if !ok {
        return Integrity;
      }
      CommitExact(retained, txs, channels, after.cutoff);
      ghost var next := RetainedSet.Commit(retained, txs, channels, after.cutoff).value;
      var st := after.(latest := latest, revision := before.revision + 1);
      StateApart(b, next, st);
      blob := b.(state := st);
      retained := next;
      everTxs, everChannels := everTxs + (set tx | tx in txs), everChannels + (set ch | ch in channels);
      return Done;
    }

    /** The deposit at an index, or the newest one. */
    method ReadEnqueue(index: Option<Uint64>) returns (ok: bool, e: Option<Enqueue>)
      requires Valid()
      ensures ok
      ensures var n := if index.None? then deposits.latest else index;
              e == if n.Some? && n.value in records then Some(records[n.value].enqueue) else None
    {
      var n := if index.None? then deposits.latest else index;
      if n.None? {
        return true, None;
      }
      if n.value !in records {
        if deposits.latest.Some? && n.value <= deposits.latest.value {
          return false, None;
        }
        return true, None;
      }
      return true, Some(records[n.value].enqueue);
    }

    /** Rewrites each deposit placeholder of a block from the deposit queue. */
    method JoinDeposits(txs: seq<BlockTransaction>) returns (h: Hydration)
      requires Valid()
      ensures h == Hydrate(txs, records)
      ensures h.Hydrated? <==> forall i :: 0 <= i < |txs| ==> Joinable(txs[i], records)
      ensures h.Hydrated? ==> forall i :: 0 <= i < |txs| ==> Joined(txs[i], records, h.txs[i])
    {
      hide BlobValid, Joinable, Joined;
      var joined := txs;
      for i := 0 to |txs|
        invariant |joined| == |txs| && joined[i..] == txs[i..]
        invariant Hydrate(txs[..i], records) == Hydrated(joined[..i])
      {
        var tx := joined[i];
        assert tx == txs[i] && txs[..i + 1][..i] == txs[..i];
        if tx.queueOrigin == L1 {
          if tx.queueIndex.None? || tx.queueIndex.value == MAX_UINT64 {
            HydratePrefix(txs, i + 1, records);
            HydrateMeans(txs, records);
            return Malformed;
          }
          var queueIndex: Uint64 := tx.queueIndex.value;
          if queueIndex >= SKIPPED {
            queueIndex := queueIndex + 1;
          }
          var ok, enqueue := ReadEnqueue(Some(queueIndex));
          if !ok || enqueue.None? {
            HydratePrefix(txs, i + 1, records);
            HydrateMeans(txs, records);
            return Waiting;
          }
          tx := tx.(blockNumber := enqueue.value.blockNumber);
          if tx.timestamp == 0 {
            tx := tx.(timestamp := enqueue.value.timestamp);
          }
          tx := tx.(gasLimit := enqueue.value.gasLimit, target := enqueue.value.target, origin := enqueue.value.origin,
                    data := enqueue.value.data, queueIndex := Some(queueIndex));
          joined := joined[i := tx];
        }
        assert joined[..i + 1] == joined[..i] + [tx];
        assert joined[i + 1..] == txs[i..][1..] == txs[i + 1..];
      }
      assert txs[..|txs|] == txs && joined[..|txs|] == joined;
      HydrateMeans(txs, records);
      return Hydrated(joined);
    }

    /** What a read of `index` may find: the retained channel that owns it. */
    ghost predicate OwnedBy(index: Uint64, id: ChannelKey)
      reads this
    {
      id in retained.channels && Owns(retained.channels[id], index)
    }

    /** Never corrupt but for a malformed deposit; block and batch together or not at all; every block
        is its channel's, with its deposits joined, and all its sources are inside the window. */
    method GetBlock(index: Option<Uint64>) returns (r: Outcome, out: BlockResponse)
      requires Valid()
      ensures out.block.Some? <==> out.batch.Some?
      ensures r != Done ==> out == NO_BLOCK
      ensures closed <==> r == StoreClosed
      ensures out.block.Some? ==> JoinedFrom(retained, records, out.block.value, out.batch.value)
      ensures out.block.Some? ==> Some(out.block.value.index) == if index.None? then blob.state.latest else index
      ensures var n := if index.None? then blob.state.latest else index;
              !closed ==>
                if n.None? || n.value !in blob.pointers then r == Done && out == NO_BLOCK
                else
                  var id := blob.pointers[n.value];
                  OwnedBy(n.value, id) && Published(retained, id, n.value, records, r, out)
    {
      hide RepTxs, RetainedSet.Valid, Within, IsLatest;
      if closed {
        return StoreClosed, NO_BLOCK;
      }
      var latest := index.None?;
      var n := if latest then blob.state.latest else index;
      if n.None? {
        return Done, NO_BLOCK;
      }
      if latest {
        LatestStored(blob.state.latest, blob.pointers.Keys);
      }
      if n.value !in blob.pointers {
        return if latest then Integrity else Done, NO_BLOCK;
      }
      var id := blob.pointers[n.value];
      ghost var k := OwnedReadable(blob, retained, n.value);
      if id !in blob.channels || n.value !in blob.blocks {
        return Integrity, NO_BLOCK;
      }
      var record, block := blob.channels[id], blob.blocks[n.value];
      if n.value !in record.blocks || record.id != id || block.index != n.value
        || block.batchIndex != record.batch.index
         || record.expiresAt < blob.state.cutoff {
        return Integrity, NO_BLOCK;
      }
      if |record.sources| == 0 {
        return Integrity, NO_BLOCK;
      }
      for i := 0 to |record.sources| {
        if record.sources[i] !in blob.txs {
          return Integrity, NO_BLOCK;
        }
        var tx := blob.txs[record.sources[i]];
        if tx.hash != record.sources[i] || tx.missing || tx.timestamp < blob.state.cutoff {
          return Integrity, NO_BLOCK;
        }
      }
      var joined := JoinDeposits(block.transactions);
      assert block == retained.channels[id].blocks[k] && record.batch == retained.channels[id].record.batch;
      if joined.Malformed? {
        return Integrity, NO_BLOCK;
      }
      if joined.Waiting? {
        return Done, NO_BLOCK;
      }
      assert JoinedBlock(retained.channels[id].blocks[k], records, block.(transactions := joined.txs));
      return Done, BlockResponse(Some(block.(transactions := joined.txs)), Some(record.batch));
    }
  }

  /** The block is one of a retained channel, published as its records and the deposits say, under that channel's
      batch. */
  ghost predicate JoinedFrom(a: Retained, records: map<Uint64, Record>, block: Block, batch: BlockBatch) {
    exists id, k :: id in a.channels && 0 <= k < |a.channels[id].blocks|
      && JoinedBlock(a.channels[id].blocks[k], records, block) && batch == a.channels[id].record.batch
  }

  /** The answer for an index that a retained channel owns. */
  ghost predicate Published(a: Retained, id: ChannelKey, index: Uint64, records: map<Uint64, Record>,
                            r: Outcome, out: BlockResponse)
    requires id in a.channels
  {
    exists k :: 0 <= k < |a.channels[id].blocks| && a.channels[id].blocks[k].index == index
      && var block := a.channels[id].blocks[k];
         match Hydrate(block.transactions, records)
         case Malformed => r == Integrity
         case Waiting => r == Done && out == NO_BLOCK
         case Hydrated(txs) =>
           r == Done && out == BlockResponse(Some(block.(transactions := txs)), Some(a.channels[id].record.batch))
  }

  lemma LatestStored(latest: Option<Uint64>, indexes: set<Uint64>)
    requires IsLatest(latest, indexes)
    ensures latest.Some? ==> latest.value in indexes
  {
  }

  lemma {:induction false} HydratePrefix(txs: seq<BlockTransaction>, k: nat, records: map<Uint64, Record>)
    requires k <= |txs| && !Hydrate(txs[..k], records).Hydrated?
    ensures Hydrate(txs, records) == Hydrate(txs[..k], records)
  {
    if k == |txs| {
      assert txs[..k] == txs;
    } else {
      assert txs[..|txs| - 1][..k] == txs[..k];
      HydratePrefix(txs[..|txs| - 1], k, records);
    }
  }

  /** Everything the read checks about a stored pointer holds. */
  lemma OwnedReadable(b: BlobDb, a: Retained, n: Uint64) returns (k: nat)
    requires RetainedSet.Valid(a) && Represents(b, a) && Within(a, b.state.cutoff) && n in b.pointers
    ensures var id := b.pointers[n];
            && id in a.channels && id in b.channels && b.channels[id] == a.channels[id].record
            && Owns(a.channels[id], n)
            && var ch := a.channels[id];
               && k < |ch.blocks| && n in b.blocks && b.blocks[n] == ch.blocks[k] && ch.blocks[k].index == n
               && ch.blocks[k].batchIndex == ch.record.batch.index && ch.record.id == id
               && ch.record.expiresAt >= b.state.cutoff && ch.record.sources != []
               && forall i :: 0 <= i < |ch.record.sources| ==>
                    var h := ch.record.sources[i];
                    h in b.txs && b.txs[h].hash == h && !b.txs[h].missing && b.txs[h].timestamp >= b.state.cutoff
  {
    hide Exclusive, Consistent, Oldest;
    var id := b.pointers[n];
    var ch := a.channels[id];
    assert Owns(ch, n);
    k :| 0 <= k < |ch.record.blocks| && ch.record.blocks[k] == n;
    assert ch.blocks[k].index == n && b.blocks[ch.blocks[k].index] == ch.blocks[k];
  }

  lemma StateApart(b: BlobDb, a: Retained, st: BlobState)
    requires Represents(b, a)
    ensures Represents(b.(state := st), a)
  {
  }

  lemma {:induction false} AppendPrefix(q: Queue, rs: seq<Record>, k: nat)
    requires k <= |rs| && AppendAll(q, rs[..k]).None?
    ensures AppendAll(q, rs).None?
  {
    assert rs == rs[..k] + rs[k..];
    AppendAllConcat(q, rs[..k], rs[k..]);
  }
}
