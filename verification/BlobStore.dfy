/** The Blob record families and the batches that change them. */
module BlobStore {
  import opened Prelude
  import opened StoreTypes
  import opened RetainedSet

  datatype BlobState = BlobState(revision: Uint64, height: Option<Uint64>, hash: Hash, cutoff: Uint64,
                                 retentionHeight: Option<Uint64>, retentionHash: Hash, latest: Option<Uint64>,
                                 auth: seq<Byte>)

  const INITIAL_STATE: BlobState := BlobState(0, None, [], 0, None, [], None, [])

  /** The database: one map or set for each key family. */
  datatype BlobDb = BlobDb(
    state: BlobState,
    txs: map<Hash, BlobTransaction>, txExpiry: set<(Uint64, Hash)>,
    channels: map<ChannelKey, ChannelRecord>, channelExpiry: set<(Uint64, ChannelKey)>,
    pointers: map<Uint64, ChannelKey>, blocks: map<Uint64, Block>)

  const EMPTY_DB: BlobDb := BlobDb(INITIAL_STATE, map[], {}, map[], {}, map[], map[])

  // ---------------------------------------------------------------- what a database stands for

  ghost predicate RepTxs(db: BlobDb, a: Retained) {
    && db.txs == a.txs
    && (forall ts, h :: (ts, h) in db.txExpiry <==> h in a.txs && a.txs[h].timestamp == ts)
  }

  ghost predicate RepRecords(db: BlobDb, a: Retained) {
    && db.channels.Keys == a.channels.Keys
    && (forall id :: id in a.channels ==> db.channels[id] == a.channels[id].record)
    && (forall ts, id :: (ts, id) in db.channelExpiry <==> id in a.channels && a.channels[id].record.expiresAt == ts)
  }

  ghost predicate RepPointers(db: BlobDb, a: Retained) {
    && db.blocks.Keys == db.pointers.Keys
    && (forall n :: n in db.pointers ==> db.pointers[n] in a.channels && Owns(a.channels[db.pointers[n]], n))
    && (forall id, n :: id in a.channels && Owns(a.channels[id], n) ==> n in db.pointers && db.pointers[n] == id)
  }

  ghost predicate RepBlocks(db: BlobDb, a: Retained) {
    && RepPointers(db, a)
    && (forall id, i :: id in a.channels && 0 <= i < |a.channels[id].blocks| ==>
          a.channels[id].blocks[i].index in db.blocks
            && db.blocks[a.channels[id].blocks[i].index] == a.channels[id].blocks[i])
  }

  /** The families agree with one retained set: expiry keys mirror records, every index points to the
      one channel that owns it, and its block is that channel's. */
  ghost predicate Represents(db: BlobDb, a: Retained) {
    RepTxs(db, a) && RepRecords(db, a) && RepBlocks(db, a)
  }

  // ---------------------------------------------------------------- transactions of a batch

  method PutTransaction(b0: BlobDb, tx: BlobTransaction, cutoff: Uint64, ghost a: Retained)
    returns (ok: bool, b: BlobDb)
    requires Represents(b0, a)
    requires forall h :: h in a.txs ==> a.txs[h].hash == h
    ensures b.state == b0.state
    ensures ok <==> PutTx(a.txs, tx, cutoff).Some?
    ensures ok ==> Represents(b, a.(txs := PutTx(a.txs, tx, cutoff).value))
  {
    b := b0;
    if tx.timestamp < cutoff {
      return true, b;
    }
    if tx.missing && |tx.frames| != 0 {
      return false, b;
    }
    if tx.hash in b.txs && b.txs[tx.hash] != tx {
      return false, b;
    }
    b := b.(txs := b.txs[tx.hash := tx]);
    b := b.(txExpiry := b.txExpiry + {(tx.timestamp, tx.hash)});
    return true, b;
  }

  // ---------------------------------------------------------------- channels of a batch

  method SourcesOldest(txs: map<Hash, BlobTransaction>, sources: seq<Hash>) returns (ok: bool, oldest: Uint64)
    requires forall h :: h in txs ==> txs[h].hash == h
    ensures ok <==> SourcesAvailable(sources, txs)
    ensures ok ==> oldest == Oldest(sources, txs)
  {
    oldest := MAX_UINT64;
    for i := 0 to |sources|
      invariant SourcesAvailable(sources[..i], txs) && oldest == Oldest(sources[..i], txs)
    {
      var hash := sources[i];
      assert sources[..i + 1][..i] == sources[..i];
      if hash !in txs {
        return false, oldest;
      }
      var tx := txs[hash];
      if tx.missing || tx.hash != hash {
        return false, oldest;
      }
      if tx.timestamp < oldest {
        oldest := tx.timestamp;
      }
    }
    assert sources[..|sources|] == sources;
    return true, oldest;
  }

  /** The batch has only gained pointers to the channel and blocks of it... */
  ghost predicate Extends(b0: BlobDb, b: BlobDb, ch: BlobChannel) {
    && b.blocks.Keys == b.pointers.Keys
    && (forall n :: n in b0.pointers ==> n in b.pointers && b.pointers[n] == b0.pointers[n])
    && (forall n :: n in b.pointers && n !in b0.pointers ==> b.pointers[n] == ch.record.id && Owns(ch, n))
    && (forall n :: n in b0.blocks ==> n in b.blocks && b.blocks[n] == b0.blocks[n])
    && (forall n :: n in b.blocks && n !in b0.blocks ==> b.blocks[n] in ch.blocks && b.blocks[n].index == n)
  }

  /** ...among them its first `i`. */
  ghost predicate FirstPut(b: BlobDb, ch: BlobChannel, i: nat)
    requires i <= |ch.blocks| == |ch.record.blocks|
  {
    forall j :: 0 <= j < i ==>
      var block := ch.blocks[j];
      && block.index == ch.record.blocks[j] && block.batchIndex == ch.record.batch.index
      && block.index in b.pointers && b.pointers[block.index] == ch.record.id
      && block.index in b.blocks && b.blocks[block.index] == block
  }

  lemma PointerConflict(b0: BlobDb, b: BlobDb, ch: BlobChannel, n: Uint64, a: Retained)
    requires RepBlocks(b0, a) && Extends(b0, b, ch)
    requires Owns(ch, n) && n in b.pointers && b.pointers[n] != ch.record.id
    ensures Conflicting(a, ch)
  {
    var id := b.pointers[n];
    assert id in a.channels && Owns(a.channels[id], n);
  }

  lemma BlockConflict(b0: BlobDb, b: BlobDb, ch: BlobChannel, i: nat, a: Retained)
    requires Valid(a) && RepBlocks(b0, a) && Extends(b0, b, ch) && i < |ch.blocks|
    requires var n := ch.blocks[i].index; n in b.blocks && b.pointers[n] == ch.record.id && b.blocks[n] != ch.blocks[i]
    ensures Conflicting(a, ch) || !Consistent(ch)
  {
    var n, id := ch.blocks[i].index, ch.record.id;
    if n in b0.blocks {
      var held := a.channels[id];
      assert Owns(held, n);
      var k :| 0 <= k < |held.record.blocks| && held.record.blocks[k] == n;
      assert held.blocks[k].index == n && b0.blocks[n] == held.blocks[k];
      assert held == ch ==> !Consistent(ch);
    } else {
      var k :| 0 <= k < |ch.blocks| && ch.blocks[k] == b.blocks[n];
    }
  }

  lemma StillExtends(b0: BlobDb, b: BlobDb, b': BlobDb, ch: BlobChannel, block: Block)
    requires Extends(b0, b, ch) && Owns(ch, block.index) && block in ch.blocks
    requires block.index in b.pointers ==> b.pointers[block.index] == ch.record.id
    requires block.index in b.blocks ==> b.blocks[block.index] == block
    requires b' == b.(pointers := b.pointers[block.index := ch.record.id], blocks := b.blocks[block.index := block])
    ensures Extends(b0, b', ch)
  {
    hide Owns;
  }

  lemma NextBlockPut(b: BlobDb, b': BlobDb, ch: BlobChannel, i: nat)
    requires i < |ch.blocks| == |ch.record.blocks| && FirstPut(b, ch, i)
    requires ch.blocks[i].index == ch.record.blocks[i] && ch.blocks[i].batchIndex == ch.record.batch.index
    requires var block := ch.blocks[i];
             && (block.index in b.blocks ==> b.blocks[block.index] == block)
             && b' == b.(pointers := b.pointers[block.index := ch.record.id], blocks := b.blocks[block.index := block])
    ensures FirstPut(b', ch, i + 1)
  {
  }

  lemma OwnedPut(b: BlobDb, ch: BlobChannel)
    requires |ch.blocks| == |ch.record.blocks| && FirstPut(b, ch, |ch.blocks|)
    ensures forall n :: Owns(ch, n) ==> n in b.pointers && b.pointers[n] == ch.record.id
  {
    forall n | Owns(ch, n) ensures n in b.pointers && b.pointers[n] == ch.record.id {
      var k :| 0 <= k < |ch.record.blocks| && ch.record.blocks[k] == n;
      assert ch.blocks[k].index == n;
    }
  }

  lemma NoConflict(b0: BlobDb, b: BlobDb, ch: BlobChannel, a: Retained)
    requires Valid(a) && RepBlocks(b0, a) && |ch.blocks| == |ch.record.blocks|
    requires Extends(b0, b, ch) && FirstPut(b, ch, |ch.blocks|)
    requires ch.record.id in a.channels ==> a.channels[ch.record.id].record == ch.record
    ensures Indexed(ch) && Consistent(ch) && !Conflicting(a, ch)
  {
    var id := ch.record.id;
    OwnedPut(b, ch);
    if id in a.channels {
      var held := a.channels[id];
      forall k | 0 <= k < |ch.blocks| ensures held.blocks[k] == ch.blocks[k] {
        assert held.blocks[k].index == ch.blocks[k].index;
        assert b0.blocks[held.blocks[k].index] == held.blocks[k];
      }
      assert held.blocks == ch.blocks;
    }
    forall id', n | id' in a.channels && id' != id && Owns(a.channels[id'], n) ensures !Owns(ch, n) {
      assert n in b0.pointers && b0.pointers[n] == id';
    }
  }

  lemma AllBlocksPut(b0: BlobDb, b: BlobDb, ch: BlobChannel, a: Retained)
    requires RepBlocks(b0, a) && |ch.blocks| == |ch.record.blocks|
    requires Extends(b0, b, ch) && FirstPut(b, ch, |ch.blocks|)
    requires ch.record.id in a.channels ==> a.channels[ch.record.id] == ch
    ensures RepBlocks(b, a.(channels := a.channels[ch.record.id := ch]))
  {
    hide Owns;
    var id, put := ch.record.id, a.channels[ch.record.id := ch];
    OwnedPut(b, ch);
    forall n | n in b.pointers ensures b.pointers[n] in put && Owns(put[b.pointers[n]], n) {}
    forall id', n | id' in put && Owns(put[id'], n) ensures n in b.pointers && b.pointers[n] == id' {}
    BlocksOf(b0, b, ch, a);
  }

  lemma BlocksOf(b0: BlobDb, b: BlobDb, ch: BlobChannel, a: Retained)
    requires RepBlocks(b0, a) && |ch.blocks| == |ch.record.blocks|
    requires Extends(b0, b, ch) && FirstPut(b, ch, |ch.blocks|)
    ensures var put := a.channels[ch.record.id := ch];
            forall id, k :: id in put && 0 <= k < |put[id].blocks| ==>
              put[id].blocks[k].index in b.blocks && b.blocks[put[id].blocks[k].index] == put[id].blocks[k]
  {
    var put := a.channels[ch.record.id := ch];
    forall id, k | id in put && 0 <= k < |put[id].blocks|
      ensures put[id].blocks[k].index in b.blocks && b.blocks[put[id].blocks[k].index] == put[id].blocks[k]
    {
      if id != ch.record.id {
        assert a.channels[id].blocks[k].index in b0.blocks;
      }
    }
  }

  method PutBlocks(b0: BlobDb, ch: BlobChannel, ghost a: Retained) returns (ok: bool, b: BlobDb)
    requires Valid(a) && RepBlocks(b0, a) && |ch.blocks| == |ch.record.blocks|
    requires ch.record.id in a.channels ==> a.channels[ch.record.id].record == ch.record
    ensures ok <==> Indexed(ch) && Consistent(ch) && !Conflicting(a, ch)
    ensures ok ==> b == b0.(pointers := b.pointers, blocks := b.blocks)
    ensures ok ==> RepBlocks(b, a.(channels := a.channels[ch.record.id := ch]))
  {
    hide Valid, RepBlocks, Conflicting, Consistent, Extends, FirstPut;
    b := b0;
    var r := ch.record;
    assert Extends(b0, b, ch) && FirstPut(b, ch, 0) by { NoneYet(b0, ch, a); }
    for i := 0 to |ch.blocks|
      invariant b == b0.(pointers := b.pointers, blocks := b.blocks)
      invariant Extends(b0, b, ch) && FirstPut(b, ch, i)
    {
      var block := ch.blocks[i];
      if block.index != r.blocks[i] || block.batchIndex != r.batch.index {
        return false, b;
      }
      if block.index in b.pointers && b.pointers[block.index] != r.id {
        PointerConflict(b0, b, ch, block.index, a);
        return false, b;
      }
      ghost var before := b;
      b := b.(pointers := b.pointers[block.index := r.id]);
      if block.index in b.blocks && b.blocks[block.index] != block {
        SameKeys(b0, before, ch);
        BlockConflict(b0, before, ch, i, a);
        return false, b;
      }
      b := b.(blocks := b.blocks[block.index := block]);
      assert Owns(ch, r.blocks[i]) && block in ch.blocks;
      StillExtends(b0, before, b, ch, block);
      NextBlockPut(before, b, ch, i);
    }
    NoConflict(b0, b, ch, a);
    assert r.id in a.channels ==> a.channels[r.id] == ch by { SameAsHeld(a, ch); }
    AllBlocksPut(b0, b, ch, a);
    return true, b;
  }

  lemma SameAsHeld(a: Retained, ch: BlobChannel)
    requires !Conflicting(a, ch)
    ensures ch.record.id in a.channels ==> a.channels[ch.record.id] == ch
  {
  }

  lemma SameKeys(b0: BlobDb, b: BlobDb, ch: BlobChannel)
    requires Extends(b0, b, ch)
    ensures b.blocks.Keys == b.pointers.Keys
  {
  }

  lemma NoneYet(b0: BlobDb, ch: BlobChannel, a: Retained)
    requires RepBlocks(b0, a) && |ch.blocks| == |ch.record.blocks|
    ensures Extends(b0, b0, ch) && FirstPut(b0, ch, 0)
  {
  }

  method PutOneChannel(b0: BlobDb, ch: BlobChannel, cutoff: Uint64, ghost a: Retained) returns (ok: bool, b: BlobDb)
    requires Valid(a) && Represents(b0, a)
    ensures ok <==> PutChannel(a, ch, cutoff).Some?
    ensures ok ==> b.state == b0.state && Represents(b, PutChannel(a, ch, cutoff).value)
  {
    hide RepBlocks, Consistent, Indexed, Oldest, SourcesAvailable, Exclusive;
    b := b0;
    var r := ch.record;
    if |r.sources| == 0 || |r.blocks| != |ch.blocks| || |ch.blocks| == 0 || |r.id| == 0 {
      return false, b;
    }
    var available, oldest := SourcesOldest(b.txs, r.sources);
    if !available {
      return false, b;
    }
    if r.expiresAt != oldest {
      return false, b;
    }
    if oldest < cutoff {
      return true, b;
    }
    if r.id in b.channels && b.channels[r.id] != r {
      return false, b;
    }
    b := b.(channels := b.channels[r.id := r]);
    assert RepBlocks(b, a) by { SameBlocks(b0, b, a); }
    ok, b := PutBlocks(b, ch, a);
    if !ok {
      return false, b;
    }
    b := b.(channelExpiry := b.channelExpiry + {(oldest, r.id)});
    assert RepBlocks(b, a.(channels := a.channels[r.id := ch])) by {
      SameBlocks(b.(channelExpiry := b0.channelExpiry), b, a.(channels := a.channels[r.id := ch]));
    }
    return true, b;
  }

  lemma SameBlocks(b: BlobDb, b': BlobDb, a: Retained)
    requires RepBlocks(b, a) && b.blocks == b'.blocks && b.pointers == b'.pointers
    ensures RepBlocks(b', a)
  {
  }

  // ---------------------------------------------------------------- pruning

  function WithoutChannel(a: Retained, id: ChannelKey): Retained { a.(channels := a.channels - {id}) }

  /** Every listed index points to the channel and has a block of that index. */
  ghost predicate Located(b: BlobDb, indexes: seq<Uint64>, id: ChannelKey) {
    forall n :: n in indexes ==> n in b.pointers && b.pointers[n] == id && n in b.blocks && b.blocks[n].index == n
  }

  /** Deletes the indexes one by one; fails on the second occurrence of a repeated one. */
  method RemoveBlocks(b0: BlobDb, indexes: seq<Uint64>, id: ChannelKey) returns (ok: bool, b: BlobDb)
    requires Located(b0, indexes, id)
    ensures ok <==> Distinct(indexes)
    ensures ok ==> var gone := set n | n in indexes;
                   b == b0.(pointers := b0.pointers - gone, blocks := b0.blocks - gone)
  {
    b := b0;
    ghost var gone: set<Uint64> := {};
    for i := 0 to |indexes|
      invariant gone == (set n | n in indexes[..i]) && Distinct(indexes[..i])
      invariant b == b0.(pointers := b0.pointers - gone, blocks := b0.blocks - gone)
    {
      var index := indexes[i];
      assert indexes[..i + 1] == indexes[..i] + [index];
      if index !in b.pointers {
        assert index in indexes[..i];
        return false, b;
      }
      if b.pointers[index] != id || index !in b.blocks || b.blocks[index].index != index {
        return false, b;
      }
      gone := gone + {index};
      b := b.(pointers := b.pointers - {index});
      b := b.(blocks := b.blocks - {index});
    }
    assert indexes[..|indexes|] == indexes;
    return true, b;
  }

  method ExpireChannel(b0: BlobDb, id: ChannelKey, ts: Uint64, ghost a: Retained) returns (ok: bool, b: BlobDb)
    requires Valid(a) && Represents(b0, a) && id in a.channels && a.channels[id].record.expiresAt == ts
    ensures ok <==> Distinct(a.channels[id].record.blocks)
    ensures ok ==> b.state == b0.state && Represents(b, WithoutChannel(a, id))
  {
    hide RepTxs, RepBlocks, Distinct, Consistent;
    b := b0;
    assert RepRecords(b0, a) && a.channels[id].record.id == id;
    var r := b.channels[id];
    if r.id != id || r.expiresAt != ts {
      return false, b;
    }
    ChannelLocated(b0, a, id);
    ok, b := RemoveBlocks(b, r.blocks, r.id);
    if ok {
      b := b.(channels := b.channels - {id}, channelExpiry := b.channelExpiry - {(ts, id)});
      assert b0.blocks.Keys == b0.pointers.Keys by { SameFamilyKeys(b0, a); }
      Subtracted(b0, b, a.channels[id]);
      BlocksGone(b0, b, a, id);
      assert RepTxs(b, WithoutChannel(a, id)) by { SameTxs(b0, b, a, WithoutChannel(a, id)); }
    }
  }

  lemma SameFamilyKeys(b: BlobDb, a: Retained)
    requires RepBlocks(b, a)
    ensures b.blocks.Keys == b.pointers.Keys
  {
  }

  lemma SameTxs(b: BlobDb, b': BlobDb, a: Retained, a': Retained)
    requires RepTxs(b, a) && b'.txs == b.txs && b'.txExpiry == b.txExpiry && a'.txs == a.txs
    ensures RepTxs(b', a')
  {
  }

  lemma ChannelLocated(b: BlobDb, a: Retained, id: ChannelKey)
    requires Valid(a) && Represents(b, a) && id in a.channels
    ensures Located(b, a.channels[id].record.blocks, id)
  {
    var ch := a.channels[id];
    forall n | n in ch.record.blocks
      ensures n in b.pointers && b.pointers[n] == id && n in b.blocks && b.blocks[n].index == n
    {
      assert Owns(ch, n);
      var i :| 0 <= i < |ch.record.blocks| && ch.record.blocks[i] == n;
      assert ch.blocks[i].index == n;
    }
  }

  /** Exactly the channel's pointers are gone. */
  ghost predicate PointersGone(b0: BlobDb, b: BlobDb, ch: BlobChannel) {
    && (forall n :: n in b.pointers <==> n in b0.pointers && !Owns(ch, n))
    && (forall n :: n in b.pointers ==> b.pointers[n] == b0.pointers[n])
    && b.blocks.Keys == b.pointers.Keys
    && (forall n :: n in b.blocks ==> n in b0.blocks && b.blocks[n] == b0.blocks[n])
  }

  lemma Subtracted(b0: BlobDb, b: BlobDb, ch: BlobChannel)
    requires b0.blocks.Keys == b0.pointers.Keys
    requires var gone := set n | n in ch.record.blocks;
             b.pointers == b0.pointers - gone && b.blocks == b0.blocks - gone
    ensures PointersGone(b0, b, ch)
  {
  }

  lemma PointersStay(b0: BlobDb, b: BlobDb, a: Retained, id: ChannelKey)
    requires RepPointers(b0, a) && id in a.channels && Exclusive(a) && PointersGone(b0, b, a.channels[id])
    ensures RepPointers(b, WithoutChannel(a, id))
  {
    hide Owns;
    var rest := WithoutChannel(a, id);
    forall n | n in b.pointers ensures b.pointers[n] in rest.channels && Owns(rest.channels[b.pointers[n]], n) {
      assert Owns(a.channels[b0.pointers[n]], n);
    }
    forall id', n | id' in rest.channels && Owns(rest.channels[id'], n)
      ensures n in b.pointers && b.pointers[n] == id'
    {
      assert !Owns(a.channels[id], n);
    }
  }

  lemma BlocksGone(b0: BlobDb, b: BlobDb, a: Retained, id: ChannelKey)
    requires Valid(a) && RepBlocks(b0, a) && id in a.channels && PointersGone(b0, b, a.channels[id])
    ensures RepBlocks(b, WithoutChannel(a, id))
  {
    hide Valid, Owns, RepPointers, PointersGone;
    ExclusiveHolds(a);
    PointersStay(b0, b, a, id);
    OtherBlocksStay(b0, b, a, id);
  }

  lemma ExclusiveHolds(a: Retained)
    requires Valid(a)
    ensures Exclusive(a)
  {
  }

  lemma OtherBlocksStay(b0: BlobDb, b: BlobDb, a: Retained, id: ChannelKey)
    requires Valid(a) && RepBlocks(b0, a) && id in a.channels && PointersGone(b0, b, a.channels[id])
    ensures forall id', k :: id' in a.channels && id' != id && 0 <= k < |a.channels[id'].blocks| ==>
              var block := a.channels[id'].blocks[k]; block.index in b.blocks && b.blocks[block.index] == block
  {
    forall id', k | id' in a.channels && id' != id && 0 <= k < |a.channels[id'].blocks|
      ensures var block := a.channels[id'].blocks[k]; block.index in b.blocks && b.blocks[block.index] == block
    {
      OwnBlock(a, id', k);
      ExclusiveHolds(a);
      assert a.channels[id'].blocks[k].index in b0.blocks;
    }
  }

  lemma OwnBlock(a: Retained, id: ChannelKey, k: nat)
    requires Valid(a) && id in a.channels && k < |a.channels[id].blocks|
    ensures Owns(a.channels[id], a.channels[id].blocks[k].index)
  {
    assert a.channels[id].blocks[k].index == a.channels[id].record.blocks[k];
  }

  function LiveChannels(a: Retained, cutoff: Uint64): Retained { a.(channels := Retain(a, cutoff).channels) }

  lemma WithoutChannelValid(a: Retained, id: ChannelKey)
    requires Valid(a)
    ensures Valid(WithoutChannel(a, id))
  {
  }

  /** The expired channels are being removed one by one; `pending` are the expiry keys still to do. */
  ghost predicate Expiring(a: Retained, cur: Retained, pending: set<(Uint64, ChannelKey)>, cutoff: Uint64) {
    && cur.txs == a.txs
    && (forall id :: id in cur.channels ==> id in a.channels && cur.channels[id] == a.channels[id])
    && (forall id :: id in a.channels && id !in cur.channels ==>
          a.channels[id].record.expiresAt < cutoff && Distinct(a.channels[id].record.blocks))
    && (forall ts, id :: (ts, id) in pending <==>
          id in cur.channels && cur.channels[id].record.expiresAt == ts && ts < cutoff)
  }

  lemma OneExpired(a: Retained, cur: Retained, pending: set<(Uint64, ChannelKey)>, cutoff: Uint64,
                   e: (Uint64, ChannelKey))
    requires Expiring(a, cur, pending, cutoff) && e in pending && Distinct(cur.channels[e.1].record.blocks)
    ensures Expiring(a, WithoutChannel(cur, e.1), pending - {e}, cutoff)
  {
    hide Distinct;
    var (ts, id) := e;
    assert (ts, id) in pending;
    forall ts', id' | (ts', id') in pending - {e} ensures id' in WithoutChannel(cur, id).channels {
      assert (ts', id') in pending;
    }
  }

  /** The snapshot of expiry keys below the cutoff, in whatever order the scan yields them. */
  method PruneChannels(b0: BlobDb, cutoff: Uint64, ghost a: Retained) returns (ok: bool, b: BlobDb)
    requires Valid(a) && Represents(b0, a)
    ensures ok <==> Prunable(a, cutoff)
    ensures ok ==> b.state == b0.state && Represents(b, LiveChannels(a, cutoff))
  {
    hide Valid, RepTxs, RepBlocks, Distinct;
    b := b0;
    var pending := set e | e in b.channelExpiry && e.0 < cutoff;
    ghost var cur := a;
    while pending != {}
      invariant b.state == b0.state && Valid(cur) && Represents(b, cur) && Expiring(a, cur, pending, cutoff)
      decreases |pending|
    {
      var e :| e in pending;
      assert (e.0, e.1) in pending;
      ok, b := ExpireChannel(b, e.1, e.0, cur);
      if !ok {
        return;
      }
      OneExpired(a, cur, pending, cutoff, e);
      WithoutChannelValid(cur, e.1);
      cur, pending := WithoutChannel(cur, e.1), pending - {e};
    }
    forall id | id in cur.channels ensures cur.channels[id].record.expiresAt >= cutoff {
      assert (cur.channels[id].record.expiresAt, id) !in pending;
    }
    assert cur.channels == LiveChannels(a, cutoff).channels;
    ok := true;
  }

  /** Transactions below the cutoff, in whatever order the scan yields them. */
  method PruneTransactions(b0: BlobDb, cutoff: Uint64, ghost a: Retained) returns (ok: bool, b: BlobDb)
    requires Represents(b0, a) && forall h :: h in a.txs ==> a.txs[h].hash == h
    ensures ok
    ensures b == b0.(txs := b.txs, txExpiry := b.txExpiry)
    ensures RepTxs(b, Retain(a, cutoff))
  {
    b := b0;
    var pending := set e | e in b.txExpiry && e.0 < cutoff;
    while pending != {}
      invariant pending <= b0.txExpiry && b == b0.(txs := b.txs, txExpiry := b.txExpiry)
      invariant forall ts, h :: (ts, h) in b.txExpiry <==> h in b.txs && b.txs[h].timestamp == ts
      invariant forall h :: h in b.txs ==> h in a.txs && b.txs[h] == a.txs[h]
      invariant forall h :: h in a.txs && h !in b.txs ==> a.txs[h].timestamp < cutoff
      invariant forall ts, h :: (ts, h) in pending <==> (ts, h) in b.txExpiry && ts < cutoff
      decreases |pending|
    {
      var ts, h :| (ts, h) in pending;
      if h !in b.txs || b.txs[h].hash != h || b.txs[h].timestamp != ts {
        return false, b;
      }
      b := b.(txs := b.txs - {h});
      b := b.(txExpiry := b.txExpiry - {(ts, h)});
      pending := pending - {(ts, h)};
    }
    forall h | h in b.txs ensures b.txs[h].timestamp >= cutoff {
      assert (b.txs[h].timestamp, h) in b.txExpiry;
      assert (b.txs[h].timestamp, h) !in pending;
    }
    assert b.txs == Retain(a, cutoff).txs;
    return true, b;
  }

  // ---------------------------------------------------------------- the latest index

  ghost predicate IsLatest(latest: Option<Uint64>, indexes: set<Uint64>) {
    match latest
    case None => indexes == {}
    case Some(n) => n in indexes && forall k :: k in indexes ==> k <= n
  }

  /** The last key of the index family. */
  method LatestIndex(indexes: set<Uint64>) returns (latest: Option<Uint64>)
    ensures IsLatest(latest, indexes)
  {
    latest := None;
    var pending := indexes;
    ghost var seen: set<Uint64> := {};
    while pending != {}
      invariant seen + pending == indexes && IsLatest(latest, seen)
      decreases |pending|
    {
      var n :| n in pending;
      pending := pending - {n};
      seen := seen + {n};
      if latest.None? || latest.value < n {
        latest := Some(n);
      }
    }
  }

  // ---------------------------------------------------------------- the batch of one commit

  method PutTransactions(b0: BlobDb, txs: seq<BlobTransaction>, cutoff: Uint64, ghost a: Retained)
    returns (ok: bool, b: BlobDb)
    requires Represents(b0, a) && forall h :: h in a.txs ==> a.txs[h].hash == h
    ensures ok <==> PutTxs(a.txs, txs, cutoff).Some?
    ensures ok ==> b.state == b0.state && Represents(b, a.(txs := PutTxs(a.txs, txs, cutoff).value))
  {
    hide PutTx, RepTxs, RepRecords, RepBlocks;
    b := b0;
    for i := 0 to |txs|
      invariant b.state == b0.state && PutTxs(a.txs, txs[..i], cutoff).Some?
      invariant Represents(b, a.(txs := PutTxs(a.txs, txs[..i], cutoff).value))
    {
      assert txs[..i + 1][..i] == txs[..i];
      ghost var put := PutTxs(a.txs, txs[..i], cutoff).value;
      PutTxsKeeps(a.txs, txs[..i], cutoff);
      ok, b := PutTransaction(b, txs[i], cutoff, a.(txs := put));
      if !ok {
        PutTxsPrefix(a.txs, txs, i + 1, cutoff);
        return;
      }
    }
    assert txs[..|txs|] == txs;
    ok := true;
  }

  lemma {:induction false} PutTxsPrefix(known: map<Hash, BlobTransaction>, txs: seq<BlobTransaction>, k: nat,
                                        cutoff: Uint64)
    requires k <= |txs| && PutTxs(known, txs[..k], cutoff).None?
    ensures PutTxs(known, txs, cutoff).None?
  {
    if k == |txs| {
      assert txs[..k] == txs;
    } else {
      assert txs[..|txs| - 1][..k] == txs[..k];
      PutTxsPrefix(known, txs[..|txs| - 1], k, cutoff);
    }
  }

  method PutAllChannels(b0: BlobDb, channels: seq<BlobChannel>, cutoff: Uint64, ghost a: Retained)
    returns (ok: bool, b: BlobDb)
    requires Valid(a) && Represents(b0, a)
    ensures ok <==> PutChannels(a, channels, cutoff).Some?
    ensures ok ==> b.state == b0.state && Represents(b, PutChannels(a, channels, cutoff).value)
  {
    hide PutChannel, Valid, RepTxs, RepRecords, RepBlocks;
    b := b0;
    for i := 0 to |channels|
      invariant b.state == b0.state && PutChannels(a, channels[..i], cutoff).Some?
      invariant Represents(b, PutChannels(a, channels[..i], cutoff).value)
    {
      assert channels[..i + 1][..i] == channels[..i];
      PutChannelsKeeps(a, channels[..i], cutoff);
      ok, b := PutOneChannel(b, channels[i], cutoff, PutChannels(a, channels[..i], cutoff).value);
      if !ok {
        PutChannelsPrefix(a, channels, i + 1, cutoff);
        return;
      }
    }
    assert channels[..|channels|] == channels;
    ok := true;
  }

  lemma {:induction false} PutChannelsPrefix(a: Retained, channels: seq<BlobChannel>, k: nat, cutoff: Uint64)
    requires k <= |channels| && PutChannels(a, channels[..k], cutoff).None?
    ensures PutChannels(a, channels, cutoff).None?
  {
    if k == |channels| {
      assert channels[..k] == channels;
    } else {
      assert channels[..|channels| - 1][..k] == channels[..k];
      PutChannelsPrefix(a, channels[..|channels| - 1], k, cutoff);
    }
  }

  /** Everything a commit stages, in the program's order; a failed batch is dropped by the caller. */
  method StageCommit(b0: BlobDb, txs: seq<BlobTransaction>, channels: seq<BlobChannel>, cutoff: Uint64,
                     ghost a: Retained)
    returns (ok: bool, b: BlobDb, latest: Option<Uint64>)
    requires Valid(a) && Represents(b0, a)
    ensures ok <==> Commit(a, txs, channels, cutoff).Some?
    ensures ok ==> Represents(b, Commit(a, txs, channels, cutoff).value) && IsLatest(latest, b.pointers.Keys)
  {
    hide Valid, PutTxs, PutChannels, RepTxs, RepBlocks, RepRecords, IsLatest, Prunable;
    latest := None;
    assert forall h :: h in a.txs ==> a.txs[h].hash == h by { HashesMatch(a); }
    ok, b := PutTransactions(b0, txs, cutoff, a);
    if !ok {
      return;
    }
    PutTxsValid(a, txs, cutoff);
    ghost var mid := Retained(PutTxs(a.txs, txs, cutoff).value, a.channels);
    ok, b := PutAllChannels(b, channels, cutoff, mid);
    if !ok {
      return;
    }
    PutChannelsKeeps(mid, channels, cutoff);
    ghost var put := PutChannels(mid, channels, cutoff).value;
    ok, b := PruneChannels(b, cutoff, put);
    if !ok {
      return;
    }
    ghost var pruned := b;
    HashesMatch(put);
    ok, b := PruneTransactions(b, cutoff, LiveChannels(put, cutoff));
    assert Represents(b, Retain(put, cutoff)) by { PrunedBoth(pruned, b, put, cutoff); }
    latest := LatestIndex(b.pointers.Keys);
  }

  lemma HashesMatch(a: Retained)
    requires Valid(a)
    ensures forall h :: h in a.txs ==> a.txs[h].hash == h
  {
  }

  lemma PrunedBoth(b: BlobDb, b': BlobDb, a: Retained, cutoff: Uint64)
    requires Represents(b, LiveChannels(a, cutoff)) && b' == b.(txs := b'.txs, txExpiry := b'.txExpiry)
    requires RepTxs(b', Retain(LiveChannels(a, cutoff), cutoff))
    ensures Represents(b', Retain(a, cutoff))
  {
    assert Retain(LiveChannels(a, cutoff), cutoff) == Retain(a, cutoff);
    SameBlocks(b, b', LiveChannels(a, cutoff));
  }
}
