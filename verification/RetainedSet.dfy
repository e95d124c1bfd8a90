/** What the Blob store is for: the accepted transactions and channels inside the retention window. */
module RetainedSet {
  import opened Prelude
  import opened StoreTypes

  type ChannelKey = seq<Byte>

  datatype Retained = Retained(txs: map<Hash, BlobTransaction>, channels: map<ChannelKey, BlobChannel>)

  // ---------------------------------------------------------------- channels and their sources

  /** Smallest source timestamp; the largest integer when there is none. */
  function Oldest(sources: seq<Hash>, txs: map<Hash, BlobTransaction>): Uint64
    requires forall i :: 0 <= i < |sources| ==> sources[i] in txs
  {
    if sources == [] then MAX_UINT64 else
    var before, t := Oldest(sources[..|sources| - 1], txs), txs[sources[|sources| - 1]].timestamp;
    if t < before then t else before
  }

  predicate SourcesAvailable(sources: seq<Hash>, txs: map<Hash, BlobTransaction>) {
    forall i :: 0 <= i < |sources| ==> sources[i] in txs && !txs[sources[i]].missing
  }

  /** A channel names available sources and expires with the oldest of them. */
  predicate Sourced(ch: BlobChannel, txs: map<Hash, BlobTransaction>) {
    var r := ch.record;
    && r.sources != [] && |r.blocks| == |ch.blocks| && ch.blocks != [] && r.id != []
    && SourcesAvailable(r.sources, txs)
    && r.expiresAt == Oldest(r.sources, txs)
  }

  /** Its record lists exactly its blocks, all of its own batch. */
  predicate Indexed(ch: BlobChannel) {
    && |ch.record.blocks| == |ch.blocks|
    && forall i :: 0 <= i < |ch.blocks| ==>
         ch.blocks[i].index == ch.record.blocks[i] && ch.blocks[i].batchIndex == ch.record.batch.index
  }

  /** An index that a channel repeats stands for the same block each time. */
  predicate Consistent(ch: BlobChannel) {
    forall i, j :: 0 <= i < |ch.blocks| && 0 <= j < |ch.blocks| && ch.blocks[i].index == ch.blocks[j].index ==>
      ch.blocks[i] == ch.blocks[j]
  }

  predicate Distinct(indexes: seq<Uint64>) {
    forall i, j :: 0 <= i < j < |indexes| ==> indexes[i] != indexes[j]
  }

  predicate Owns(ch: BlobChannel, index: Uint64) { index in ch.record.blocks }

  /** A retained channel already says something else about this id or about one of these indexes. */
  ghost predicate Conflicting(a: Retained, ch: BlobChannel) {
    || (ch.record.id in a.channels && a.channels[ch.record.id] != ch)
    || (exists id, index :: id in a.channels && id != ch.record.id && Owns(a.channels[id], index) && Owns(ch, index))
  }

  ghost predicate Valid(a: Retained) {
    && (forall h :: h in a.txs ==> a.txs[h].hash == h && (a.txs[h].missing ==> a.txs[h].frames == []))
    && (forall id :: id in a.channels ==>
          var ch := a.channels[id]; ch.record.id == id && Sourced(ch, a.txs) && Indexed(ch) && Consistent(ch))
    && Exclusive(a)
  }

  /** No two channels list the same index. */
  ghost predicate Exclusive(a: Retained) {
    forall id, id', index :: id in a.channels && id' in a.channels && id != id' && Owns(a.channels[id], index) ==>
      !Owns(a.channels[id'], index)
  }

  ghost predicate Within(a: Retained, cutoff: Uint64) {
    && (forall h :: h in a.txs ==> a.txs[h].timestamp >= cutoff)
    && (forall id :: id in a.channels ==> a.channels[id].record.expiresAt >= cutoff)
  }

  // ---------------------------------------------------------------- one commit

  function PutTx(txs: map<Hash, BlobTransaction>, tx: BlobTransaction, cutoff: Uint64)
    : Option<map<Hash, BlobTransaction>> {
    if tx.timestamp < cutoff then Some(txs)
    else if (tx.missing && tx.frames != []) || (tx.hash in txs && txs[tx.hash] != tx) then None
    else Some(txs[tx.hash := tx])
  }

  function PutTxs(txs: map<Hash, BlobTransaction>, more: seq<BlobTransaction>, cutoff: Uint64)
    : Option<map<Hash, BlobTransaction>>
  {
    if more == [] then Some(txs) else
    var before := PutTxs(txs, more[..|more| - 1], cutoff);
    if before.None? then None else PutTx(before.value, more[|more| - 1], cutoff)
  }

  ghost function PutChannel(a: Retained, ch: BlobChannel, cutoff: Uint64): Option<Retained> {
    if !Sourced(ch, a.txs) then None
    else if ch.record.expiresAt < cutoff then Some(a)
    else if !Indexed(ch) || !Consistent(ch) || Conflicting(a, ch) then None
    else Some(a.(channels := a.channels[ch.record.id := ch]))
  }

  ghost function PutChannels(a: Retained, more: seq<BlobChannel>, cutoff: Uint64): Option<Retained> {
    if more == [] then Some(a) else
    var before := PutChannels(a, more[..|more| - 1], cutoff);
    if before.None? then None else PutChannel(before.value, more[|more| - 1], cutoff)
  }

  /** Everything at or above the cutoff. */
  function Retain(a: Retained, cutoff: Uint64): Retained {
    Retained(map h | h in a.txs && a.txs[h].timestamp >= cutoff :: a.txs[h],
             map id | id in a.channels && a.channels[id].record.expiresAt >= cutoff :: a.channels[id])
  }

  /** The guard of the pruning branch that fails: an expiring channel lists an index twice. */
  ghost predicate Prunable(a: Retained, cutoff: Uint64) {
    forall id :: id in a.channels && a.channels[id].record.expiresAt < cutoff ==> Distinct(a.channels[id].record.blocks)
  }

  /** Specification of one commit of transactions and channels under a new cutoff. */
  ghost function Commit(a: Retained, txs: seq<BlobTransaction>, channels: seq<BlobChannel>, cutoff: Uint64)
    : Option<Retained> {
    var withTxs := PutTxs(a.txs, txs, cutoff);
    if withTxs.None? then None else
    var put := PutChannels(Retained(withTxs.value, a.channels), channels, cutoff);
    if put.None? || !Prunable(put.value, cutoff) then None else Some(Retain(put.value, cutoff))
  }

  // ---------------------------------------------------------------- what every commit keeps

  lemma {:induction false} OldestBounds(sources: seq<Hash>, txs: map<Hash, BlobTransaction>)
    requires forall i :: 0 <= i < |sources| ==> sources[i] in txs
    ensures forall i :: 0 <= i < |sources| ==> Oldest(sources, txs) <= txs[sources[i]].timestamp
    ensures sources != [] ==> exists i :: 0 <= i < |sources| && txs[sources[i]].timestamp == Oldest(sources, txs)
  {
    if sources != [] {
      var front, last := sources[..|sources| - 1], |sources| - 1;
      OldestBounds(front, txs);
      var t: Uint64 := txs[sources[last]].timestamp;
      if front != [] && t >= Oldest(front, txs) {
        var i :| 0 <= i < |front| && txs[front[i]].timestamp == Oldest(front, txs);
        assert sources[i] == front[i];
      }
    }
  }

  lemma {:induction false} OldestSame(sources: seq<Hash>, txs: map<Hash, BlobTransaction>,
                                      txs': map<Hash, BlobTransaction>)
    requires forall i :: 0 <= i < |sources| ==>
      sources[i] in txs && sources[i] in txs' && txs[sources[i]] == txs'[sources[i]]
    ensures Oldest(sources, txs) == Oldest(sources, txs')
  {
    if sources != [] { OldestSame(sources[..|sources| - 1], txs, txs'); }
  }

  lemma SourcedSame(ch: BlobChannel, txs: map<Hash, BlobTransaction>, txs': map<Hash, BlobTransaction>)
    requires Sourced(ch, txs)
    requires forall h :: h in ch.record.sources ==> h in txs' && txs'[h] == txs[h]
    ensures Sourced(ch, txs')
  {
    OldestSame(ch.record.sources, txs, txs');
  }

  lemma PutTxKeeps(txs: map<Hash, BlobTransaction>, tx: BlobTransaction, cutoff: Uint64)
    requires PutTx(txs, tx, cutoff).Some?
    ensures var put := PutTx(txs, tx, cutoff).value;
            && (forall h :: h in txs ==> h in put && put[h] == txs[h])
            && (forall h :: h in put && h !in txs ==> h == tx.hash && put[h] == tx && tx.timestamp >= cutoff
                                                      && (tx.missing ==> tx.frames == []))
            && (tx.timestamp >= cutoff ==> tx.hash in put && put[tx.hash] == tx)
  {
  }

  lemma {:induction false} PutTxsKeeps(txs: map<Hash, BlobTransaction>, more: seq<BlobTransaction>, cutoff: Uint64)
    requires PutTxs(txs, more, cutoff).Some?
    ensures var put := PutTxs(txs, more, cutoff).value;
            && (forall h :: h in txs ==> h in put && put[h] == txs[h])
            && (forall h :: h in put && h !in txs ==> put[h] in more && put[h].hash == h && put[h].timestamp >= cutoff
                                                      && (put[h].missing ==> put[h].frames == []))
            && (forall tx :: tx in more && tx.timestamp >= cutoff ==> tx.hash in put && put[tx.hash] == tx)
  {
    hide PutTx;
    if more != [] {
      var front, last := more[..|more| - 1], more[|more| - 1];
      PutTxsKeeps(txs, front, cutoff);
      PutTxKeeps(PutTxs(txs, front, cutoff).value, last, cutoff);
      assert more == front + [last];
    }
  }

  /** A live transaction that cannot be put after those before it: malformed, or different from a stored or earlier one
      with its hash. */
  ghost predicate Misfit(txs: map<Hash, BlobTransaction>, more: seq<BlobTransaction>, cutoff: Uint64, i: nat) {
    && i < |more| && more[i].timestamp >= cutoff
    && (|| (more[i].missing && more[i].frames != [])
        || (more[i].hash in txs && txs[more[i].hash] != more[i])
        || exists j :: 0 <= j < i && more[j].timestamp >= cutoff && more[j].hash == more[i].hash && more[j] != more[i])
  }

  /** Putting transactions fails exactly on a misfit. */
  lemma {:induction false} PutTxsFailsIff(txs: map<Hash, BlobTransaction>, more: seq<BlobTransaction>, cutoff: Uint64)
    ensures PutTxs(txs, more, cutoff).None? <==> exists i: nat :: Misfit(txs, more, cutoff, i)
  {
    if more != [] {
      var front, k := more[..|more| - 1], |more| - 1;
      PutTxsFailsIff(txs, front, cutoff);
      forall i: nat | i < k ensures Misfit(txs, more, cutoff, i) <==> Misfit(txs, front, cutoff, i) {}
      if i: nat :| Misfit(txs, front, cutoff, i) {
        assert Misfit(txs, more, cutoff, i);
      } else {
        var put, last := PutTxs(txs, front, cutoff).value, more[k];
        PutTxsKeeps(txs, front, cutoff);
        if last.timestamp >= cutoff && last.hash in put && put[last.hash] != last && last.hash !in txs {
          var j :| 0 <= j < |front| && front[j] == put[last.hash];
          assert more[j] == front[j];
        }
        forall j | 0 <= j < k && more[j].timestamp >= cutoff
          ensures more[j].hash in put && put[more[j].hash] == more[j]
        {
          assert more[j] == front[j] && front[j] in front;
        }
        assert Misfit(txs, more, cutoff, k) <==> PutTx(put, last, cutoff).None?;
      }
    }
  }

  lemma PutChannelKeeps(a: Retained, ch: BlobChannel, cutoff: Uint64)
    requires Valid(a) && PutChannel(a, ch, cutoff).Some?
    ensures var put := PutChannel(a, ch, cutoff).value;
            && Valid(put) && put.txs == a.txs
            && (forall id :: id in a.channels ==> id in put.channels && put.channels[id] == a.channels[id])
            && (forall id :: id in put.channels && id !in a.channels ==>
                  put.channels[id] == ch && ch.record.id == id && ch.record.expiresAt >= cutoff)
            && (ch.record.expiresAt >= cutoff ==> ch.record.id in put.channels && put.channels[ch.record.id] == ch)
  {
  }

  /** Transactions are untouched; every channel is an old one or one of the new live ones. */
  lemma {:induction false} PutChannelsKeeps(a: Retained, more: seq<BlobChannel>, cutoff: Uint64)
    requires Valid(a) && PutChannels(a, more, cutoff).Some?
    ensures var put := PutChannels(a, more, cutoff).value;
            && Valid(put) && put.txs == a.txs
            && (forall id :: id in a.channels ==> id in put.channels && put.channels[id] == a.channels[id])
            && (forall id :: id in put.channels && id !in a.channels ==>
                  put.channels[id] in more && put.channels[id].record.id == id
                    && put.channels[id].record.expiresAt >= cutoff)
            && (forall ch :: ch in more && ch.record.expiresAt >= cutoff ==>
                  ch.record.id in put.channels && put.channels[ch.record.id] == ch)
  {
    hide PutChannel, Valid;
    if more != [] {
      var front, last := more[..|more| - 1], more[|more| - 1];
      PutChannelsKeeps(a, front, cutoff);
      PutChannelKeeps(PutChannels(a, front, cutoff).value, last, cutoff);
      assert more == front + [last];
    }
  }

  /** Raising the cutoff keeps every source of every surviving channel. */
  lemma RetainKeeps(a: Retained, cutoff: Uint64)
    requires Valid(a)
    ensures Valid(Retain(a, cutoff)) && Within(Retain(a, cutoff), cutoff)
  {
    var r := Retain(a, cutoff);
    forall id | id in r.channels ensures Sourced(r.channels[id], r.txs) {
      var ch := a.channels[id];
      OldestBounds(ch.record.sources, a.txs);
      forall h | h in ch.record.sources ensures h in r.txs && r.txs[h] == a.txs[h] {
        var i :| 0 <= i < |ch.record.sources| && ch.record.sources[i] == h;
      }
      SourcedSame(ch, a.txs, r.txs);
    }
  }

  lemma PutTxsValid(a: Retained, txs: seq<BlobTransaction>, cutoff: Uint64)
    requires Valid(a) && PutTxs(a.txs, txs, cutoff).Some?
    ensures Valid(Retained(PutTxs(a.txs, txs, cutoff).value, a.channels))
  {
    PutTxsKeeps(a.txs, txs, cutoff);
    forall id | id in a.channels ensures Sourced(a.channels[id], PutTxs(a.txs, txs, cutoff).value) {
      SourcedSame(a.channels[id], a.txs, PutTxs(a.txs, txs, cutoff).value);
    }
  }

  /** A commit's result holds exactly the old and new records at or above the cutoff. */
  lemma CommitExact(a: Retained, txs: seq<BlobTransaction>, channels: seq<BlobChannel>, cutoff: Uint64)
    requires Valid(a) && Commit(a, txs, channels, cutoff).Some?
    ensures var r := Commit(a, txs, channels, cutoff).value;
            && Valid(r) && Within(r, cutoff)
            && (forall tx :: tx in r.txs.Values <==> (tx in a.txs.Values || tx in txs) && tx.timestamp >= cutoff)
            && (forall ch :: ch in r.channels.Values <==>
                  (ch in a.channels.Values || ch in channels) && ch.record.expiresAt >= cutoff)
  {
    hide Valid, PutTxs, PutChannels;
    var r := Commit(a, txs, channels, cutoff).value;
    PutTxsKeeps(a.txs, txs, cutoff);
    PutTxsValid(a, txs, cutoff);
    var mid := Retained(PutTxs(a.txs, txs, cutoff).value, a.channels);
    PutChannelsKeeps(mid, channels, cutoff);
    var put := PutChannels(mid, channels, cutoff).value;
    RetainKeeps(put, cutoff);
    forall tx ensures tx in r.txs.Values <==> (tx in a.txs.Values || tx in txs) && tx.timestamp >= cutoff {
      if tx in r.txs.Values {
        var h :| h in r.txs && r.txs[h] == tx;
        assert h in a.txs ==> a.txs[h] == tx;
      }
      if tx in a.txs.Values && tx.timestamp >= cutoff {
        var h :| h in a.txs && a.txs[h] == tx;
        assert h in r.txs && r.txs[h] == tx;
      }
      if tx in txs && tx.timestamp >= cutoff {
        assert tx.hash in r.txs && r.txs[tx.hash] == tx;
      }
    }
    forall ch
      ensures ch in r.channels.Values <==> (ch in a.channels.Values || ch in channels) && ch.record.expiresAt >= cutoff
    {
      if ch in r.channels.Values {
        var id :| id in r.channels && r.channels[id] == ch;
        assert id in a.channels ==> a.channels[id] == ch;
      }
      if ch in a.channels.Values && ch.record.expiresAt >= cutoff {
        var id :| id in a.channels && a.channels[id] == ch;
        assert id in r.channels && r.channels[id] == ch;
      }
      if ch in channels && ch.record.expiresAt >= cutoff {
        assert ch.record.id in r.channels && r.channels[ch.record.id] == ch;
      }
    }
  }

  /** No retained channel has lost a source, and none of its sources is below the cutoff. */
  lemma SourcesInWindow(a: Retained, cutoff: Uint64, id: ChannelKey)
    requires Valid(a) && Within(a, cutoff) && id in a.channels
    ensures forall h :: h in a.channels[id].record.sources ==>
              h in a.txs && !a.txs[h].missing && a.txs[h].timestamp >= a.channels[id].record.expiresAt >= cutoff
  {
    var sources := a.channels[id].record.sources;
    OldestBounds(sources, a.txs);
    forall h | h in sources
      ensures h in a.txs && !a.txs[h].missing && a.txs[h].timestamp >= a.channels[id].record.expiresAt
    {
      var i :| 0 <= i < |sources| && sources[i] == h;
    }
  }

  // ---------------------------------------------------------------- when pruning fails

  ghost predicate AllDistinct(a: Retained) { forall id :: id in a.channels ==> Distinct(a.channels[id].record.blocks) }

  /** Channels that never repeat an index never make a commit fail while pruning... */
  lemma DistinctPrunable(a: Retained, txs: seq<BlobTransaction>, channels: seq<BlobChannel>, cutoff: Uint64)
    requires Valid(a) && AllDistinct(a) && forall ch :: ch in channels ==> Distinct(ch.record.blocks)
    requires PutTxs(a.txs, txs, cutoff).Some?
    requires PutChannels(Retained(PutTxs(a.txs, txs, cutoff).value, a.channels), channels, cutoff).Some?
    ensures Commit(a, txs, channels, cutoff).Some? && AllDistinct(Commit(a, txs, channels, cutoff).value)
  {
    hide Distinct;
    PutTxsValid(a, txs, cutoff);
    var mid := Retained(PutTxs(a.txs, txs, cutoff).value, a.channels);
    PutChannelsKeeps(mid, channels, cutoff);
    var put := PutChannels(mid, channels, cutoff).value;
    forall id | id in put.channels ensures Distinct(put.channels[id].record.blocks) {
      assert id in a.channels || put.channels[id] in channels;
    }
  }

  /** ...and raising the cutoff alone fails exactly when an expiring channel repeats one. */
  lemma PruneFailsIff(a: Retained, cutoff: Uint64)
    ensures Commit(a, [], [], cutoff).Some? <==>
            forall id :: id in a.channels && a.channels[id].record.expiresAt < cutoff ==>
              Distinct(a.channels[id].record.blocks)
  {
    assert Retained(a.txs, a.channels) == a;
  }

  /** Once an expiring channel repeats an index, no commit of anything can raise the cutoff past it. */
  lemma RepeatedNeverPrunes(a: Retained, id: ChannelKey, txs: seq<BlobTransaction>, channels: seq<BlobChannel>,
                            cutoff: Uint64)
    requires Valid(a) && id in a.channels && a.channels[id].record.expiresAt < cutoff
    requires !Distinct(a.channels[id].record.blocks)
    ensures Commit(a, txs, channels, cutoff).None?
  {
    hide Valid, PutTxs, PutChannels, Distinct;
    if PutTxs(a.txs, txs, cutoff).Some? {
      PutTxsValid(a, txs, cutoff);
      var mid := Retained(PutTxs(a.txs, txs, cutoff).value, a.channels);
      if PutChannels(mid, channels, cutoff).Some? {
        PutChannelsKeeps(mid, channels, cutoff);
        assert PutChannels(mid, channels, cutoff).value.channels[id] == a.channels[id];
      }
    }
  }

  /** For example: a channel that lists block 7 twice is accepted, and then no later cutoff can be committed. */
  lemma RepeatedIndexBlocksPruning(cutoff: Uint64, more: seq<BlobTransaction>, channels: seq<BlobChannel>)
    requires cutoff > 5
    ensures var tx := BlobTransaction([1], 5, false, []);
            var block := Block(7, 3, 0, [], []);
            var ch := BlobChannel(ChannelRecord([9], [[1]], [7, 7], BlockBatch(3, 1, 7, []), 5), [block, block]);
            var accepted := Commit(Retained(map[], map[]), [tx], [ch], 0);
            accepted.Some? && Commit(accepted.value, more, channels, cutoff).None?
  {
    var none := Retained(map[], map[]);
    var tx := BlobTransaction([1], 5, false, []);
    var block := Block(7, 3, 0, [], []);
    var ch := BlobChannel(ChannelRecord([9], [[1]], [7, 7], BlockBatch(3, 1, 7, []), 5), [block, block]);
    assert [tx][..0] == [] && [ch][..0] == [];
    var txs := map[[1] := tx];
    assert PutTxs(none.txs, [tx], 0) == Some(txs);
    assert Oldest([[1]], txs) == 5 by {
      assert [[1]][..0] == [] && Oldest([], txs) == MAX_UINT64;
    }
    assert Sourced(ch, txs) && Indexed(ch) && Consistent(ch);
    var put := Retained(txs, map[[9] := ch]);
    assert PutChannels(Retained(txs, none.channels), [], 0) == Some(Retained(txs, none.channels));
    assert !Conflicting(Retained(txs, none.channels), ch);
    assert PutChannels(Retained(txs, none.channels), [ch], 0) == Some(put);
    assert Retain(put, 0) == put;
    assert !Distinct(put.channels[[9]].record.blocks) by {
      assert ch.record.blocks[0] == ch.record.blocks[1];
    }
    assert Commit(none, [tx], [ch], 0) == Some(put);
    CommitExact(none, [tx], [ch], 0);
    RepeatedNeverPrunes(put, [9], more, channels, cutoff);
  }
}
