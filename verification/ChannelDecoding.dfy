/** From the frames of one submission to its decoded channels, in channel-id order. */
module ChannelDecoding {
  import opened Prelude
  import opened Frames
  import opened StoreTypes
  import opened Channels
  import opened LexOrder

  type FrameId = seq<Byte>

  /** Decompression and span decoding of a channel's bytes for a batch index; None is any refusal. */
  type Decoder = (seq<Byte>, Uint64) -> Option<seq<Block>>

  // ---------------------------------------------------------------- the arrivals of a submission

  function ToSource(tx: BlobTransaction, i: nat): Source
    requires i < |tx.frames|
  {
    Source(tx.frames[i], tx.hash, tx.timestamp)
  }

  function FrameSources(tx: BlobTransaction): seq<Source> {
    if tx.missing then [] else seq(|tx.frames|, i requires 0 <= i < |tx.frames| => ToSource(tx, i))
  }

  /** Every frame of every available transaction, in order. */
  function Stream(txs: seq<BlobTransaction>): seq<Source> {
    if txs == [] then [] else Stream(txs[..|txs| - 1]) + FrameSources(txs[|txs| - 1])
  }

  /** The arrivals of one channel. */
  function Of(ss: seq<Source>, id: FrameId): (r: seq<Source>)
    ensures forall s :: s in r <==> s in ss && s.frame.id == id
    ensures WellFormed(ss) ==> WellFormed(r)
  {
    if ss == [] then [] else
    var front, last := ss[..|ss| - 1], ss[|ss| - 1];
    assert ss == front + [last];
    Of(front, id) + if last.frame.id == id then [last] else []
  }

  function Ids(ss: seq<Source>): set<FrameId> { set s | s in ss :: s.frame.id }

  lemma {:induction false} OfConcat(a: seq<Source>, b: seq<Source>, id: FrameId)
    ensures Of(a + b, id) == Of(a, id) + Of(b, id)
  {
    if b == [] {
      assert a + b == a;
    } else {
      assert (a + b)[..|a + b| - 1] == a + b[..|b| - 1];
      OfConcat(a, b[..|b| - 1], id);
    }
  }

  lemma {:induction false} RunConcat(a: seq<Source>, b: seq<Source>)
    requires WellFormed(a + b)
    ensures WellFormed(a) && (Run(a + b).Some? ==> Run(a).Some?)
  {
    assert forall i :: 0 <= i < |a| ==> (a + b)[i] == a[i];
    if b == [] {
      assert a + b == a;
    } else {
      assert (a + b)[..|a + b| - 1] == a + b[..|b| - 1];
      RunConcat(a, b[..|b| - 1]);
    }
  }

  /** No channel of the submission refuses any of its frames. */
  ghost predicate Collectable(ss: seq<Source>)
    requires WellFormed(ss)
  {
    forall id :: id in Ids(ss) ==> Run(Of(ss, id)).Some?
  }

  ghost function Collection(ss: seq<Source>): map<FrameId, Collected>
    requires WellFormed(ss) && Collectable(ss)
  {
    map id | id in Ids(ss) :: Run(Of(ss, id)).value
  }

  lemma NotCollectable(a: seq<Source>, b: seq<Source>, id: FrameId)
    requires WellFormed(a) && WellFormed(a + b) && id in Ids(a) && Run(Of(a, id)).None?
    ensures !Collectable(a + b)
  {
    OfConcat(a, b, id);
    RunConcat(Of(a, id), Of(b, id));
    var s :| s in a && s.frame.id == id;
    assert s in a + b;
  }

  // ---------------------------------------------------------------- collecting

  /** A channel object holds what the channel's own arrivals determine. */
  ghost predicate Holding(c: ChannelInput, mine: seq<Source>)
    reads c
  {
    c.Valid() && WellFormed(mine) && Run(mine) == Some(c.State())
  }

  ghost predicate Holds(channels: map<FrameId, ChannelInput>, done: seq<Source>)
    reads channels.Values
  {
    && channels.Keys == Ids(done)
    && (forall id, id' :: id in channels && id' in channels && id != id' ==> channels[id] != channels[id'])
    && (forall id :: id in channels ==> Holding(channels[id], Of(done, id)))
  }

  lemma OfSnoc(done: seq<Source>, s: Source)
    ensures Ids(done + [s]) == Ids(done) + {s.frame.id}
    ensures Of(done + [s], s.frame.id) == Of(done, s.frame.id) + [s]
    ensures forall x :: x != s.frame.id ==> Of(done + [s], x) == Of(done, x)
    ensures s.frame.id !in Ids(done) ==> Of(done, s.frame.id) == []
  {
    assert (done + [s])[..|done|] == done;
    var mine := Of(done, s.frame.id);
    assert mine == [] || mine[0] in mine;
  }

  lemma RunSnoc(mine: seq<Source>, s: Source)
    requires WellFormed(mine) && s.frame.Valid()
    ensures WellFormed(mine + [s])
    ensures Run(mine + [s]) == if Run(mine).None? then None else AddFrame(Run(mine).value, s)
  {
    hide AddFrame;
    assert (mine + [s])[..|mine|] == mine;
  }

  method Receive(c: ChannelInput, s: Source, ghost mine: seq<Source>) returns (ok: bool)
    requires s.frame.Valid() && Holding(c, mine)
    modifies c
    ensures WellFormed(mine + [s])
    ensures ok <==> Run(mine + [s]).Some?
    ensures ok ==> Holding(c, mine + [s])
  {
    RunSnoc(mine, s);
    ok := c.Add(s);
  }

  method Arrive(channels: map<FrameId, ChannelInput>, s: Source, ghost done: seq<Source>)
    returns (ok: bool, after: map<FrameId, ChannelInput>)
    requires s.frame.Valid() && WellFormed(done) && Holds(channels, done)
    modifies channels.Values
    ensures WellFormed(done + [s])
    ensures ok <==> Run(Of(done + [s], s.frame.id)).Some?
    ensures ok ==> Holds(after, done + [s])
    ensures fresh(after.Values - channels.Values)
  {
    hide Run, Of, Ids, Holding;
    var id := s.frame.id;
    OfSnoc(done, s);
    after := channels;
    if id !in after {
      var c := new ChannelInput();
      after := after[id := c];
      assert Holding(c, []) by { EmptyChannel(c); }
    }
    var c := after[id];
    assert forall x :: x in after && x != id ==> x in channels && after[x] == channels[x] && after[x] != c;
    ok := Receive(c, s, Of(done, id));
  }

  lemma EmptyChannel(c: ChannelInput)
    requires c.Valid() && c.State() == EMPTY
    ensures Holding(c, [])
  {
  }

  lemma {:induction false} StreamPrefix(txs: seq<BlobTransaction>, i: nat)
    requires i <= |txs|
    ensures Stream(txs[..i]) <= Stream(txs)
  {
    if i == |txs| {
      assert txs[..i] == txs;
    } else {
      assert txs[..|txs| - 1][..i] == txs[..i];
      StreamPrefix(txs[..|txs| - 1], i);
    }
  }

  lemma NextSource(done: seq<Source>, sources: seq<Source>, j: nat)
    requires j < |sources|
    ensures done + sources[..j + 1] == (done + sources[..j]) + [sources[j]]
    ensures done + sources == (done + sources[..j + 1]) + sources[j + 1..]
    ensures WellFormed(done + sources) ==> WellFormed(done + sources[..j]) && sources[j].frame.Valid()
  {
    assert forall i :: 0 <= i < |done + sources[..j]| ==> (done + sources)[i] == (done + sources[..j])[i];
    assert (done + sources)[|done| + j] == sources[j];
  }

  /** The frames of one transaction in turn. */
  method CollectTransaction(tx: BlobTransaction, channels: map<FrameId, ChannelInput>, ghost done: seq<Source>)
    returns (ok: bool, after: map<FrameId, ChannelInput>)
    requires WellFormed(done) && WellFormed(done + FrameSources(tx)) && Holds(channels, done)
    modifies channels.Values
    ensures ok ==> Holds(after, done + FrameSources(tx))
    ensures !ok ==> !Collectable(done + FrameSources(tx))
    ensures fresh(after.Values - channels.Values)
  {
    hide Run, Of, Ids, Holding, FrameSources;
    after := channels;
    ghost var sources := FrameSources(tx);
    SourcesAt(tx);
    if tx.missing {
      assert done + sources == done;
      return true, after;
    }
    assert done == done + sources[..0];
    for j := 0 to |tx.frames|
      invariant Holds(after, done + sources[..j]) && fresh(after.Values - channels.Values)
    {
      var s := ToSource(tx, j);
      ghost var sofar := done + sources[..j];
      NextSource(done, sources, j);
      OfSnoc(sofar, s);
      ok, after := Arrive(after, s, sofar);
      if !ok {
        NotCollectable(sofar + [s], sources[j + 1..], s.frame.id);
        return false, after;
      }
    }
    assert sources[..|tx.frames|] == sources;
    return true, after;
  }

  /** All arrivals of the submission, until one is refused. */
  method CollectChannels(txs: seq<BlobTransaction>) returns (ok: bool, channels: map<FrameId, ChannelInput>)
    requires WellFormed(Stream(txs))
    ensures ok <==> Collectable(Stream(txs))
    ensures ok ==> Holds(channels, Stream(txs)) && fresh(channels.Values)
  {
    hide Run, Of, Ids, Holding, FrameSources;
    channels := map[];
    assert Holds(channels, []) by { NothingYet(); }
    for i := 0 to |txs|
      invariant Holds(channels, Stream(txs[..i])) && fresh(channels.Values)
    {
      assert txs[..i + 1][..i] == txs[..i];
      StreamPrefix(txs, i);
      StreamPrefix(txs, i + 1);
      ghost var done := Stream(txs[..i + 1]);
      assert WellFormed(done);
      ok, channels := CollectTransaction(txs[i], channels, Stream(txs[..i]));
      if !ok {
        assert Stream(txs) == done + Stream(txs)[|done|..];
        StillNotCollectable(done, Stream(txs)[|done|..]);
        return;
      }
    }
    assert txs[..|txs|] == txs;
    HoldsAll(channels, Stream(txs));
    ok := true;
  }

  lemma StillNotCollectable(a: seq<Source>, b: seq<Source>)
    requires WellFormed(a) && WellFormed(a + b) && !Collectable(a)
    ensures !Collectable(a + b)
  {
    var id :| id in Ids(a) && Run(Of(a, id)).None?;
    NotCollectable(a, b, id);
  }

  lemma HoldsAll(channels: map<FrameId, ChannelInput>, done: seq<Source>)
    requires WellFormed(done) && Holds(channels, done)
    ensures Collectable(done) && channels.Keys == Ids(done)
    ensures forall id :: id in channels ==> channels[id].Valid()
    ensures Collection(done) == map id | id in channels :: channels[id].State()
  {
    hide Run, Of;
    forall id | id in Ids(done) ensures Run(Of(done, id)).Some? && channels[id].Valid() {
      assert Holding(channels[id], Of(done, id));
    }
  }

  lemma NothingYet()
    ensures Holds(map[], [])
  {
  }

  lemma SourcesAt(tx: BlobTransaction)
    ensures |FrameSources(tx)| == if tx.missing then 0 else |tx.frames|
    ensures forall j :: 0 <= j < |FrameSources(tx)| ==> FrameSources(tx)[j] == ToSource(tx, j)
  {
  }

  // ---------------------------------------------------------------- ready channels

  /** What the frames up to a number add up to: bytes, distinct sources in order, oldest timestamp. */
  datatype Assembly = Assembly(data: seq<Byte>, sources: seq<Hash>, oldest: Uint64)

  function Assemble(frames: FrameMap, n: nat): Assembly
    requires forall k :: 0 <= k < n ==> k in frames
  {
    if n == 0 then Assembly([], [], MAX_UINT64) else
    var before, s := Assemble(frames, n - 1), frames[n - 1];
    Assembly(before.data + s.frame.data,
             if s.hash in before.sources then before.sources else before.sources + [s.hash],
             if s.timestamp < before.oldest then s.timestamp else before.oldest)
  }

  predicate Committed(blocks: seq<Block>, batch: BlockBatch) {
    forall i :: 0 <= i < |blocks| ==>
      batch.prevTotalElements <= blocks[i].index && blocks[i].index - batch.prevTotalElements < batch.size
  }

  function Indexes(blocks: seq<Block>): (r: seq<Uint64>)
    ensures |r| == |blocks| && forall i :: 0 <= i < |r| ==> r[i] == blocks[i].index
  {
    if blocks == [] then [] else Indexes(blocks[..|blocks| - 1]) + [blocks[|blocks| - 1].index]
  }

  /** The record id: the submission's hash, a slash, the frame id. */
  function ChannelId(batch: BlockBatch, id: FrameId): seq<Byte> { batch.l1Transaction + [47] + id }

  /** Frame ids have one length, so different submissions and different frame ids never share a record id. */
  lemma ChannelIdInjective(batch: BlockBatch, id: FrameId, batch': BlockBatch, id': FrameId)
    requires |id| == |id'| && ChannelId(batch, id) == ChannelId(batch', id')
    ensures batch.l1Transaction == batch'.l1Transaction && id == id'
  {
    var key, n := ChannelId(batch, id), |batch.l1Transaction|;
    assert key[..n] == batch.l1Transaction && key[n + 1..] == id;
    assert |batch'.l1Transaction| == n;
    assert key[..n] == batch'.l1Transaction && key[n + 1..] == id';
  }

  /** What is assembled: each frame's transaction once, and the least timestamp. */
  lemma {:induction false} AssembleMeans(frames: FrameMap, n: nat)
    requires forall k :: 0 <= k < n ==> k in frames
    ensures var a := Assemble(frames, n);
      && (forall h :: h in a.sources <==> exists k :: 0 <= k < n && frames[k].hash == h)
      && (forall i, j :: 0 <= i < j < |a.sources| ==> a.sources[i] != a.sources[j])
      && (forall k :: 0 <= k < n ==> a.oldest <= frames[k].timestamp)
      && (n > 0 ==> exists k :: 0 <= k < n && frames[k].timestamp == a.oldest)
  {
    if n > 0 {
      AssembleMeans(frames, n - 1);
    }
  }

  /** Later frames only add at the end, so transactions and bytes come in the order of the frame numbers. */
  lemma {:induction false} AssembleGrows(frames: FrameMap, m: nat, n: nat)
    requires m <= n && forall k :: 0 <= k < n ==> k in frames
    ensures var a, b := Assemble(frames, m), Assemble(frames, n);
      && a.sources <= b.sources && a.data <= b.data
      && (m < n ==> a.data + frames[m].frame.data <= b.data)
    decreases n - m
  {
    if m < n {
      AssembleGrows(frames, m + 1, n);
    }
  }

  datatype Ready = Pending | Rejected | Decoded(channel: BlobChannel)

  ghost predicate Full(c: Collected) { c.end.Some? && |c.frames| == c.end.value + 1 }

  /** Specification of a collected channel's decoding. */
  ghost function ReadyOf(c: Collected, id: FrameId, batch: BlockBatch, decode: Decoder): Ready
    requires c.Valid()
  {
    if !Full(c) then Pending else
    FullChannelHasNoGap(c);
    var a := Assemble(c.frames, c.end.value + 1);
    var blocks := decode(a.data, batch.index);
    if blocks.None? || blocks.value == [] || !Committed(blocks.value, batch) then Rejected
    else Decoded(BlobChannel(ChannelRecord(ChannelId(batch, id), a.sources, Indexes(blocks.value), batch, a.oldest),
                             blocks.value))
  }

  predicate Outside(b: Block, batch: BlockBatch) {
    b.index < batch.prevTotalElements || b.index >= batch.prevTotalElements + batch.size
  }

  /** A closed channel without a gap is decoded exactly when its bytes decode to at least one block and every block is
      inside the batch's range; its record then says where it comes from and which blocks it has. */
  lemma ReadyMeans(c: Collected, id: FrameId, batch: BlockBatch, decode: Decoder)
    requires c.Valid()
    ensures var r := ReadyOf(c, id, batch, decode);
      && (r.Pending? <==> c.end.None? || exists n: nat :: n <= c.end.value && n !in c.frames)
      && (r.Decoded? ==>
            && (forall n: nat :: n <= c.end.value ==> n in c.frames)
            && var a, ch := Assemble(c.frames, c.end.value + 1), r.channel;
            && decode(a.data, batch.index) == Some(ch.blocks) && ch.blocks != []
            && ch.record.id == batch.l1Transaction + [47] + id
            && ch.record.batch == batch && ch.record.sources == a.sources && ch.record.expiresAt == a.oldest
            && |ch.record.blocks| == |ch.blocks|
            && forall i :: 0 <= i < |ch.blocks| ==>
                 ch.record.blocks[i] == ch.blocks[i].index && !Outside(ch.blocks[i], batch))
      && (r.Rejected? ==>
            && (forall n: nat :: n <= c.end.value ==> n in c.frames)
            && var blocks := decode(Assemble(c.frames, c.end.value + 1).data, batch.index);
               blocks.Some? && blocks.value != [] ==>
                 exists i :: 0 <= i < |blocks.value| && Outside(blocks.value[i], batch))
  {
    hide Assemble;
    if c.end.Some? {
      if Full(c) {
        FullChannelHasNoGap(c);
      } else {
        NotFull(c);
      }
    }
  }

  lemma NotFull(c: Collected)
    requires c.Valid() && c.end.Some? && !Full(c)
    ensures exists n: nat :: n <= c.end.value && n !in c.frames
  {
    if forall n: nat :: n <= c.end.value ==> n in c.frames {
      AllBelow(c.frames.Keys, c.end.value + 1);
      assert false;
    }
  }

  lemma {:induction false} AllBelow(keys: set<nat>, n: nat)
    requires forall k: nat :: k in keys <==> k < n
    ensures |keys| == n
  {
    if n > 0 {
      AllBelow(keys - {n - 1}, n - 1);
    }
  }

  /** The frames in number order; the program's gap branch is dead, as a full channel has every number. */
  method AssembleFrames(frames: FrameMap, count: nat) returns (data: seq<Byte>, sources: seq<Hash>, oldest: Uint64)
    requires forall n :: 0 <= n < count ==> n in frames
    ensures Assembly(data, sources, oldest) == Assemble(frames, count)
  {
    data, sources, oldest := [], [], MAX_UINT64;
    var seen: set<Hash> := {};
    for n := 0 to count
      invariant Assemble(frames, n) == Assembly(data, sources, oldest)
      invariant forall h :: h in seen <==> h in sources
    {
      var f := frames[n];
      data := data + f.frame.data;
      if f.hash !in seen {
        seen := seen + {f.hash};
        sources := sources + [f.hash];
      }
      if f.timestamp < oldest {
        oldest := f.timestamp;
      }
    }
  }

  /** The block indexes, if every one of them is inside the commitment. */
  method CommittedIndexes(blocks: seq<Block>, batch: BlockBatch) returns (indexes: Option<seq<Uint64>>)
    ensures indexes == if Committed(blocks, batch) then Some(Indexes(blocks)) else None
  {
    var out: seq<Uint64> := [];
    for i := 0 to |blocks|
      invariant Committed(blocks[..i], batch) && out == Indexes(blocks[..i])
    {
      var b := blocks[i];
      assert blocks[..i + 1][..i] == blocks[..i] && blocks[..i + 1][i] == b;
      if b.index < batch.prevTotalElements || b.index - batch.prevTotalElements >= batch.size {
        return None;
      }
      out := out + [b.index];
    }
    assert blocks[..|blocks|] == blocks;
    return Some(out);
  }

  method DecodeReady(c: ChannelInput, id: FrameId, batch: BlockBatch, decode: Decoder) returns (r: Ready)
    requires c.Valid()
    ensures r == ReadyOf(c.State(), id, batch, decode)
  {
    hide Assemble, Committed, Indexes, SizeOf;
    if c.end.None? || |c.frames| != c.end.value + 1 {
      return Pending;
    }
    FullChannelHasNoGap(c.State());
    var data, sources, oldest := AssembleFrames(c.frames, c.end.value + 1);
    var blocks := decode(data, batch.index);
    if blocks.None? || |blocks.value| == 0 {
      return Rejected;
    }
    var indexes := CommittedIndexes(blocks.value, batch);
    if indexes.None? {
      return Rejected;
    }
    return Decoded(BlobChannel(ChannelRecord(ChannelId(batch, id), sources, indexes.value, batch, oldest),
                               blocks.value));
  }

  // ---------------------------------------------------------------- the whole submission

  ghost predicate AllCollectedValid(channels: map<FrameId, Collected>) {
    forall id :: id in channels ==> channels[id].Valid()
  }

  /** Decoded channels in the order of `ids`; None once one is rejected. */
  ghost function Results(channels: map<FrameId, Collected>, ids: seq<FrameId>, batch: BlockBatch, decode: Decoder)
    : Option<seq<BlobChannel>>
    requires AllCollectedValid(channels) && forall i :: 0 <= i < |ids| ==> ids[i] in channels
  {
    if ids == [] then Some([]) else
    var id := ids[|ids| - 1];
    var before, r := Results(channels, ids[..|ids| - 1], batch, decode), ReadyOf(channels[id], id, batch, decode);
    if before.None? || r.Rejected? then None
    else if r.Pending? then before
    else Some(before.value + [r.channel])
  }

  lemma {:induction false} ResultsPrefix(channels: map<FrameId, Collected>, ids: seq<FrameId>, k: nat,
                                         batch: BlockBatch, decode: Decoder)
    requires AllCollectedValid(channels) && (forall i :: 0 <= i < |ids| ==> ids[i] in channels) && k <= |ids|
    ensures Results(channels, ids[..k], batch, decode).None? ==> Results(channels, ids, batch, decode).None?
  {
    if k == |ids| {
      assert ids[..k] == ids;
    } else {
      assert ids[..|ids| - 1][..k] == ids[..k];
      ResultsPrefix(channels, ids[..|ids| - 1], k, batch, decode);
    }
  }

  ghost function IdOrder(ids: set<FrameId>): (r: seq<FrameId>)
    ensures Ascending(r) && forall x :: x in r <==> x in ids
  {
    var r := Enumerate(ids);
    assert forall i :: 0 <= i < |r| ==> r[i] in r;
    r
  }

  /** What a submission's arrivals decode to. */
  ghost function Outcome(ss: seq<Source>, batch: BlockBatch, decode: Decoder): Option<seq<BlobChannel>>
    requires WellFormed(ss)
  {
    if !Collectable(ss) then None else
    var ids := IdOrder(Ids(ss));
    assert forall i :: 0 <= i < |ids| ==> ids[i] in ids;
    Results(Collection(ss), ids, batch, decode)
  }

  method SortIds(ids: set<FrameId>) returns (r: seq<FrameId>)
    ensures r == IdOrder(ids)
  {
    var sorted: seq<seq<int>>, pending := [], ids;
    while pending != {}
      invariant pending <= ids && Ascending(sorted) && forall x :: x in sorted <==> x in ids && x !in pending
      decreases |pending|
    {
      var x :| x in pending;
      pending := pending - {x};
      sorted := Insert(x, sorted);
    }
    AscendingUnique(sorted, IdOrder(ids));
    forall i | 0 <= i < |sorted| ensures sorted[i] in ids { assert sorted[i] in sorted; }
    r := sorted;
  }

  method DecodeInOrder(channels: map<FrameId, ChannelInput>, ids: seq<FrameId>, batch: BlockBatch, decode: Decoder,
                       ghost collection: map<FrameId, Collected>)
    returns (result: Option<seq<BlobChannel>>)
    requires forall i :: 0 <= i < |ids| ==> ids[i] in channels
    requires forall id :: id in channels ==> channels[id].Valid()
    requires AllCollectedValid(collection) && collection == map id | id in channels :: channels[id].State()
    ensures result == Results(collection, ids, batch, decode)
  {
    hide ReadyOf;
    var out: seq<BlobChannel> := [];
    for i := 0 to |ids|
      invariant Results(collection, ids[..i], batch, decode) == Some(out)
    {
      assert ids[..i + 1][..i] == ids[..i];
      var r := DecodeReady(channels[ids[i]], ids[i], batch, decode);
      if r.Rejected? {
        ResultsPrefix(collection, ids, i + 1, batch, decode);
        return None;
      }
      if r.Decoded? {
        out := out + [r.channel];
      }
    }
    assert ids[..|ids|] == ids;
    return Some(out);
  }

  method DecodeChannels(txs: seq<BlobTransaction>, batch: BlockBatch, decode: Decoder)
    returns (result: Option<seq<BlobChannel>>)
    requires WellFormed(Stream(txs))
    ensures result == Outcome(Stream(txs), batch, decode)
  {
    hide Run, Of, Ids, Results, Holds, ChannelInput.Valid, Collected.Valid;
    var ok, channels := CollectChannels(txs);
    if !ok {
      return None;
    }
    HoldsAll(channels, Stream(txs));
    CollectionValid(Stream(txs));
    var ids := SortIds(channels.Keys);
    assert forall i :: 0 <= i < |ids| ==> ids[i] in ids;
    result := DecodeInOrder(channels, ids, batch, decode, Collection(Stream(txs)));
  }

  lemma CollectionValid(ss: seq<Source>)
    requires WellFormed(ss) && Collectable(ss)
    ensures AllCollectedValid(Collection(ss)) && Collection(ss).Keys == Ids(ss)
  {
  }

  // ---------------------------------------------------------------- order independence

  lemma CollectionUnique(ss: seq<Source>, tt: seq<Source>)
    requires WellFormed(ss) && WellFormed(tt) && Collectable(ss) && Collectable(tt)
    requires forall s :: s in ss <==> s in tt
    ensures Collection(ss) == Collection(tt)
  {
    assert Ids(ss) == Ids(tt);
    forall id | id in Ids(ss) ensures Run(Of(ss, id)) == Run(Of(tt, id)) {
      Confluence(Of(ss, id), Of(tt, id));
    }
  }

  /** Two accepted arrival orders of the same frames, however they are split over transactions and
      interleaved over channels, decode to the same channels. */
  lemma OutcomeOrderIndependent(ss: seq<Source>, tt: seq<Source>, batch: BlockBatch, decode: Decoder)
    requires WellFormed(ss) && WellFormed(tt) && Collectable(ss) && Collectable(tt)
    requires forall s :: s in ss <==> s in tt
    ensures Outcome(ss, batch, decode) == Outcome(tt, batch, decode)
  {
    assert Ids(ss) == Ids(tt);
    CollectionUnique(ss, tt);
    AscendingUnique(IdOrder(Ids(ss)), IdOrder(Ids(tt)));
  }

  lemma {:induction false} OfCount(ss: seq<Source>, id: FrameId, s: Source)
    ensures multiset(Of(ss, id))[s] == if s.frame.id == id then multiset(ss)[s] else 0
  {
    if ss != [] {
      OfCount(ss[..|ss| - 1], id, s);
      assert ss == ss[..|ss| - 1] + [ss[|ss| - 1]];
    }
  }

  lemma OfPermuted(ss: seq<Source>, tt: seq<Source>, id: FrameId)
    requires multiset(ss) == multiset(tt)
    ensures multiset(Of(ss, id)) == multiset(Of(tt, id))
  {
    hide Of;
    forall s ensures multiset(Of(ss, id))[s] == multiset(Of(tt, id))[s] {
      OfCount(ss, id, s);
      OfCount(tt, id, s);
    }
  }

  /** Every channel is complete: distinct numbers up to its one closing frame, within the limit. A complete
      channel may still have gaps, and is then never ready. */
  ghost predicate AllComplete(ss: seq<Source>) {
    forall id :: id in Ids(ss) ==>
      (exists end :: Complete(Of(ss, id), end)) && SizeOf(ByNumber(Of(ss, id))) <= MAX_CHANNEL_BYTES
  }

  /** Complete channels are accepted in every arrival order, with one and the same outcome. */
  lemma CompleteChannelsDecode(ss: seq<Source>, tt: seq<Source>, batch: BlockBatch, decode: Decoder)
    requires WellFormed(ss) && AllComplete(ss) && multiset(ss) == multiset(tt)
    ensures WellFormed(tt) && Collectable(ss) && Collectable(tt)
    ensures Outcome(tt, batch, decode) == Outcome(ss, batch, decode)
  {
    hide Of, Outcome, Run, Complete, SizeOf, Collection;
    Permuted(ss, tt);
    assert Ids(ss) == Ids(tt);
    forall id | id in Ids(ss) ensures Run(Of(ss, id)).Some? && Run(Of(tt, id)).Some? {
      var end :| Complete(Of(ss, id), end);
      OfPermuted(ss, tt, id);
      CompleteAccepted(Of(ss, id), end);
      CompleteOrderIndependent(Of(ss, id), Of(tt, id), end);
    }
    OutcomeOrderIndependent(ss, tt, batch, decode);
  }

  // ---------------------------------------------------------------- whole channels

  /** The frames of a whole channel in order: number `i` at position `i`, the last one closing. */
  ghost predicate InOrder(tt: seq<Source>) {
    tt != [] && forall i :: 0 <= i < |tt| ==> tt[i].Number() == i && (tt[i].frame.last <==> i == |tt| - 1)
  }

  function DataOf(tt: seq<Source>): seq<Byte> {
    if tt == [] then [] else DataOf(tt[..|tt| - 1]) + tt[|tt| - 1].frame.data
  }

  lemma {:induction false} AssembledData(frames: FrameMap, tt: seq<Source>, n: nat)
    requires n <= |tt| && forall k :: 0 <= k < n ==> k in frames && frames[k] == tt[k]
    ensures Assemble(frames, n).data == DataOf(tt[..n])
  {
    if n > 0 {
      AssembledData(frames, tt, n - 1);
      assert tt[..n][..n - 1] == tt[..n - 1];
    }
  }

  /** A whole channel is ready after any order of arrival, and its data are the frames' data in number order. */
  lemma WholeChannelReady(ss: seq<Source>, tt: seq<Source>)
    requires WellFormed(tt) && InOrder(tt) && SizeOf(ByNumber(tt)) <= MAX_CHANNEL_BYTES && multiset(ss) == multiset(tt)
    ensures WellFormed(ss) && Run(ss).Some? && Full(Run(ss).value)
    ensures (forall k :: 0 <= k < |tt| ==> k in Run(ss).value.frames)
            && Assemble(Run(ss).value.frames, |tt|).data == DataOf(tt)
  {
    hide Assemble, DataOf, SizeOf, Run;
    var end := |tt| - 1;
    assert Complete(tt, end) by { assert tt[end].frame.last; }
    CompleteAccepted(tt, end);
    CompleteOrderIndependent(tt, ss, end);
    ByNumberMembers(tt);
    forall k | 0 <= k < |tt| ensures k in ByNumber(tt) && ByNumber(tt)[k] == tt[k] {
      assert tt[k] in tt && tt[k].Number() == k;
    }
    AssembledData(ByNumber(tt), tt, |tt|);
    assert tt[..|tt|] == tt;
  }
}
