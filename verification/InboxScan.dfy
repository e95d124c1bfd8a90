/** What a scan hands to the store: transactions fetched once each and the channels of every Inbox
    submission, and why the store can refuse them only for a conflict. */
module InboxScan {
  import opened Prelude
  import opened Frames
  import opened StoreTypes
  import opened Channels
  import opened ChannelDecoding
  import opened RetainedSet

  /** A referenced blob transaction as L1 has it: its block time, whether it is a successful blob transaction of
      the right chain, who sent it, whether it went to the Inbox, and its position. */
  datatype L1Source = L1Source(timestamp: Uint64, genuine: bool, sender: Option<Address>, toInbox: bool, height: Uint64,
                               index: nat)

  /** Silent: no answer. Gone: the blobs are no longer kept. Corrupt: they do not decode to frames. */
  datatype Beacon = Silent | Gone | Corrupt | Found(frames: seq<Frame>)

  /** What the providers answer during one scan: about references, and whether about receipts. */
  datatype View = View(sources: Hash -> Option<L1Source>, beacon: Hash -> Beacon, receipts: Hash -> bool)

  /** The authorized blob sender of a submission, and the position of the submission. */
  datatype Committer = Committer(sender: Address, height: Uint64, index: nat)

  /** Stalled: a request was not answered. Unsound: a fatal answer. */
  datatype Answer<+T> = Stalled | Unsound | Got(value: T)

  ghost predicate ValidFrames(frames: seq<Frame>) { forall i :: 0 <= i < |frames| ==> frames[i].Valid() }

  /** Every decoded block carries the batch index it was decoded for. */
  ghost predicate Stamps(decode: Decoder) {
    forall data, batchIndex :: decode(data, batchIndex).Some? ==>
      forall i :: 0 <= i < |decode(data, batchIndex).value| ==>
        decode(data, batchIndex).value[i].batchIndex == batchIndex
  }

  /** What one commitment says: its batch and the distinct references. */
  datatype Submission = Submission(batch: BlockBatch, hashes: seq<Hash>)

  ghost predicate StoredFramesValid(a: Retained) { forall h :: h in a.txs ==> ValidFrames(a.txs[h].frames) }

  // ---------------------------------------------------------------- references

  /** The authorization of a reference belongs to the submission that names it. */
  predicate Authorizes(s: L1Source, who: Committer) {
    && s.genuine && s.sender == Some(who.sender) && s.toInbox
    && (s.height < who.height || (s.height == who.height && s.index <= who.index))
  }

  /** A transaction that is not stored yet: the beacon is asked only inside the window. */
  function Fetched(hash: Hash, timestamp: Uint64, beacon: Beacon, cutoff: Uint64): Answer<BlobTransaction> {
    if timestamp < cutoff then Got(BlobTransaction(hash, timestamp, false, []))
    else
      match beacon
      case Silent => Stalled
      case Corrupt => Unsound
      case Gone => Got(BlobTransaction(hash, timestamp, true, []))
      case Found(frames) => Got(BlobTransaction(hash, timestamp, false, frames))
  }

  /** What a reference of a submission stands for, without any cache. */
  function Resolve(view: View, stored: map<Hash, BlobTransaction>, hash: Hash, who: Committer, cutoff: Uint64)
    : Answer<BlobTransaction> {
    var s := view.sources(hash);
    if s.None? then Stalled
    else if !Authorizes(s.value, who) then Unsound
    else if hash !in stored then Fetched(hash, s.value.timestamp, view.beacon(hash), cutoff)
    else if stored[hash].timestamp != s.value.timestamp then Unsound
    else Got(stored[hash])
  }

  /** The sources of a submission inside the window, in the order it names them; the first failure decides. */
  function SourcesOf(view: View, stored: map<Hash, BlobTransaction>, hashes: seq<Hash>, who: Committer, cutoff: Uint64)
    : Answer<seq<BlobTransaction>>
  {
    if hashes == [] then Got([]) else
    var before := SourcesOf(view, stored, hashes[..|hashes| - 1], who, cutoff);
    if !before.Got? then before else
    match Resolve(view, stored, hashes[|hashes| - 1], who, cutoff)
    case Stalled => Stalled
    case Unsound => Unsound
    case Got(tx) => Got(if tx.timestamp >= cutoff then before.value + [tx] else before.value)
  }

  /** What a submission adds to a scan. */
  ghost function Contribution(view: View, stored: map<Hash, BlobTransaction>, s: Submission, who: Committer,
                              cutoff: Uint64, decode: Decoder): Answer<seq<BlobChannel>>
  {
    match SourcesOf(view, stored, s.hashes, who, cutoff)
    case Stalled => Stalled
    case Unsound => Unsound
    case Got(sources) =>
      if !WellFormed(Stream(sources)) then Unsound else
      var channels := Outcome(Stream(sources), s.batch, decode);
      if channels.None? then Unsound else Got(channels.value)
  }

  ghost predicate PublishedFramesValid(blobs: map<Hash, seq<Frame>>) {
    forall h :: h in blobs ==> ValidFrames(blobs[h])
  }

  // ---------------------------------------------------------------- what an answer about a reference says

  /** A successful blob transaction to the Inbox by the authorized blob sender, not after the submission. */
  ghost predicate MayName(s: L1Source, who: Committer) {
    && s.genuine && s.toInbox && s.sender == Some(who.sender)
    && s.height <= who.height && !(s.height == who.height && s.index > who.index)
  }

  /** A reference is denied when it may not be named, when its stored time disagrees, or when its blobs are corrupt. */
  ghost predicate Denied(view: View, stored: map<Hash, BlobTransaction>, hash: Hash, who: Committer, cutoff: Uint64) {
    && view.sources(hash).Some?
    && var s := view.sources(hash).value;
       || !MayName(s, who)
       || (if hash in stored then stored[hash].timestamp != s.timestamp
           else s.timestamp >= cutoff && view.beacon(hash).Corrupt?)
  }

  /** It is waited for when it is not known yet, or its blobs are needed and the beacon is silent. */
  ghost predicate Awaited(view: View, stored: map<Hash, BlobTransaction>, hash: Hash, who: Committer, cutoff: Uint64) {
    || view.sources(hash).None?
    || (&& MayName(view.sources(hash).value, who) && hash !in stored
        && view.sources(hash).value.timestamp >= cutoff && view.beacon(hash).Silent?)
  }

  /** Otherwise it stands for its stored record, or for what L1 and the beacon say of it. */
  ghost predicate StandsFor(view: View, stored: map<Hash, BlobTransaction>, hash: Hash, cutoff: Uint64,
                            t: BlobTransaction)
  {
    if hash in stored then t == stored[hash]
    else
      && view.sources(hash).Some? && t.hash == hash && t.timestamp == view.sources(hash).value.timestamp
      && if t.timestamp < cutoff then !t.missing && t.frames == []
         else if t.missing then view.beacon(hash).Gone? && t.frames == []
         else view.beacon(hash) == Found(t.frames)
  }

  lemma ResolveMeans(view: View, stored: map<Hash, BlobTransaction>, hash: Hash, who: Committer, cutoff: Uint64)
    ensures var r := Resolve(view, stored, hash, who, cutoff);
      && (r.Unsound? <==> Denied(view, stored, hash, who, cutoff))
      && (r.Stalled? <==> Awaited(view, stored, hash, who, cutoff))
      && (r.Got? ==> view.sources(hash).Some? && MayName(view.sources(hash).value, who)
                     && StandsFor(view, stored, hash, cutoff, r.value))
  {
  }

  ghost predicate Fine(view: View, stored: map<Hash, BlobTransaction>, hash: Hash, who: Committer, cutoff: Uint64) {
    !Denied(view, stored, hash, who, cutoff) && !Awaited(view, stored, hash, who, cutoff)
  }

  /** The first reference that is not fine is denied, or awaited. */
  ghost predicate FirstDenied(view: View, stored: map<Hash, BlobTransaction>, hashes: seq<Hash>, who: Committer,
                               cutoff: Uint64)
  {
    exists k :: 0 <= k < |hashes| && Denied(view, stored, hashes[k], who, cutoff)
      && forall j :: 0 <= j < k ==> Fine(view, stored, hashes[j], who, cutoff)
  }

  ghost predicate FirstAwaited(view: View, stored: map<Hash, BlobTransaction>, hashes: seq<Hash>, who: Committer,
                               cutoff: Uint64)
  {
    exists k :: 0 <= k < |hashes| && Awaited(view, stored, hashes[k], who, cutoff)
      && forall j :: 0 <= j < k ==> Fine(view, stored, hashes[j], who, cutoff)
  }

  lemma FirstSnoc(view: View, stored: map<Hash, BlobTransaction>, front: seq<Hash>, last: Hash, who: Committer,
                  cutoff: Uint64)
    ensures var fine := forall i :: 0 <= i < |front| ==> Fine(view, stored, front[i], who, cutoff);
      && (FirstDenied(view, stored, front + [last], who, cutoff) <==>
            FirstDenied(view, stored, front, who, cutoff) || (fine && Denied(view, stored, last, who, cutoff)))
      && (FirstAwaited(view, stored, front + [last], who, cutoff) <==>
            FirstAwaited(view, stored, front, who, cutoff) || (fine && Awaited(view, stored, last, who, cutoff)))
  {
    hide Denied, Awaited, Fine;
    var hashes := front + [last];
    assert hashes[|front|] == last && forall i :: 0 <= i < |front| ==> hashes[i] == front[i];
    if k :| 0 <= k < |front| && Denied(view, stored, front[k], who, cutoff)
            && forall j :: 0 <= j < k ==> Fine(view, stored, front[j], who, cutoff) {
      assert Denied(view, stored, hashes[k], who, cutoff);
    }
    if k :| 0 <= k < |front| && Awaited(view, stored, front[k], who, cutoff)
            && forall j :: 0 <= j < k ==> Fine(view, stored, front[j], who, cutoff) {
      assert Awaited(view, stored, hashes[k], who, cutoff);
    }
  }

  /** A submission's references are denied or awaited exactly as the first bad one demands. */
  lemma {:induction false} SourcesMean(view: View, stored: map<Hash, BlobTransaction>, hashes: seq<Hash>,
                                       who: Committer, cutoff: Uint64)
    ensures var r := SourcesOf(view, stored, hashes, who, cutoff);
      && (r.Unsound? <==> FirstDenied(view, stored, hashes, who, cutoff))
      && (r.Stalled? <==> FirstAwaited(view, stored, hashes, who, cutoff))
      && (r.Got? <==> forall i :: 0 <= i < |hashes| ==> Fine(view, stored, hashes[i], who, cutoff))
  {
    hide Denied, Awaited, Resolve, FirstDenied, FirstAwaited;
    if hashes == [] {
      NoneFirst(view, stored, who, cutoff);
    } else {
      var front, last := hashes[..|hashes| - 1], hashes[|hashes| - 1];
      assert hashes == front + [last];
      SourcesMean(view, stored, front, who, cutoff);
      ResolveMeans(view, stored, last, who, cutoff);
      FirstSnoc(view, stored, front, last, who, cutoff);
    }
  }

  lemma NoneFirst(view: View, stored: map<Hash, BlobTransaction>, who: Committer, cutoff: Uint64)
    ensures !FirstDenied(view, stored, [], who, cutoff) && !FirstAwaited(view, stored, [], who, cutoff)
  {
  }

  lemma AllNamed(view: View, stored: map<Hash, BlobTransaction>, hashes: seq<Hash>, who: Committer, cutoff: Uint64)
    requires forall i :: 0 <= i < |hashes| ==> Fine(view, stored, hashes[i], who, cutoff)
    ensures forall h :: h in hashes ==>
              view.sources(h).Some? && MayName(view.sources(h).value, who) && Fine(view, stored, h, who, cutoff)
  {
  }

  lemma ResolvedNamed(view: View, stored: map<Hash, BlobTransaction>, hash: Hash, who: Committer, cutoff: Uint64)
    requires OwnHashes(stored) && Resolve(view, stored, hash, who, cutoff).Got?
    ensures Resolve(view, stored, hash, who, cutoff).value.hash == hash
    ensures view.sources(hash).Some? && Authorizes(view.sources(hash).value, who)
  {
    hide Authorizes;
  }

  /** All sources of a submission are references it names and may name. */
  lemma {:induction false} SourcesNamed(view: View, stored: map<Hash, BlobTransaction>, hashes: seq<Hash>,
                                        who: Committer, cutoff: Uint64)
    requires OwnHashes(stored) && SourcesOf(view, stored, hashes, who, cutoff).Got?
    ensures forall h :: h in hashes ==> view.sources(h).Some? && Authorizes(view.sources(h).value, who)
    ensures forall tx :: tx in SourcesOf(view, stored, hashes, who, cutoff).value ==>
              tx.hash in hashes && tx.timestamp >= cutoff && Resolve(view, stored, tx.hash, who, cutoff) == Got(tx)
  {
    hide Authorizes, Resolve, OwnHashes;
    if hashes != [] {
      var front, last := hashes[..|hashes| - 1], hashes[|hashes| - 1];
      assert hashes == front + [last];
      SourcesNamed(view, stored, front, who, cutoff);
      ResolvedNamed(view, stored, last, who, cutoff);
    }
  }

  /** A source set: transactions under their own hashes. */
  ghost predicate OwnHashes(txs: map<Hash, BlobTransaction>) { forall h :: h in txs ==> txs[h].hash == h }

  /** A channel built from known sources at or above the cutoff. */
  ghost predicate Acceptable(ch: BlobChannel, txs: map<Hash, BlobTransaction>, cutoff: Uint64) {
    Sourced(ch, txs) && Indexed(ch) && ch.record.expiresAt >= cutoff
  }

  // ---------------------------------------------------------------- decoded channels are well sourced

  /** Frames tell the truth about where they come from. */
  ghost predicate Truthful(frames: FrameMap, txs: map<Hash, BlobTransaction>, cutoff: Uint64) {
    forall n :: n in frames ==>
      var s := frames[n];
      s.hash in txs && !txs[s.hash].missing && txs[s.hash].timestamp == s.timestamp && s.timestamp >= cutoff
  }

  lemma OldestSnoc(sources: seq<Hash>, hash: Hash, txs: map<Hash, BlobTransaction>)
    requires SourcesAvailable(sources, txs) && hash in txs && !txs[hash].missing
    ensures SourcesAvailable(sources + [hash], txs)
    ensures var t, before := txs[hash].timestamp, Oldest(sources, txs);
            Oldest(sources + [hash], txs) == if t < before then t else before
  {
    assert (sources + [hash])[..|sources|] == sources;
  }

  lemma {:induction false} AssembleSources(frames: FrameMap, n: nat, txs: map<Hash, BlobTransaction>, cutoff: Uint64)
    requires (forall k :: 0 <= k < n ==> k in frames) && Truthful(frames, txs, cutoff)
    ensures var a := Assemble(frames, n);
            && SourcesAvailable(a.sources, txs) && a.oldest == Oldest(a.sources, txs)
            && (n > 0 ==> a.sources != []) && a.oldest >= cutoff
  {
    hide Oldest;
    if n == 0 {
      assert Oldest([], txs) == MAX_UINT64 by { OldestNone(txs); }
    } else {
      AssembleSources(frames, n - 1, txs, cutoff);
      var before, s := Assemble(frames, n - 1), frames[n - 1];
      if s.hash in before.sources {
        OldestBounds(before.sources, txs);
        var i :| 0 <= i < |before.sources| && before.sources[i] == s.hash;
      } else {
        OldestSnoc(before.sources, s.hash, txs);
      }
    }
  }

  lemma OldestNone(txs: map<Hash, BlobTransaction>)
    ensures Oldest([], txs) == MAX_UINT64
  {
  }

  /** A channel the decoder returns passes every source, length and index check of the store. */
  lemma DecodedAcceptable(c: Collected, id: FrameId, batch: BlockBatch, decode: Decoder,
                          txs: map<Hash, BlobTransaction>, cutoff: Uint64)
    requires c.Valid() && Truthful(c.frames, txs, cutoff) && Stamps(decode) && ReadyOf(c, id, batch, decode).Decoded?
    ensures Acceptable(ReadyOf(c, id, batch, decode).channel, txs, cutoff)
  {
    FullChannelHasNoGap(c);
    AssembleSources(c.frames, c.end.value + 1, txs, cutoff);
  }

  /** Sources whose transactions are known and inside the window. */
  ghost predicate KnownSources(sources: seq<BlobTransaction>, txs: map<Hash, BlobTransaction>, cutoff: Uint64) {
    forall tx :: tx in sources ==>
      tx.hash in txs && txs[tx.hash] == tx && tx.timestamp >= cutoff && ValidFrames(tx.frames)
  }

  lemma {:induction false} StreamTruthful(sources: seq<BlobTransaction>, txs: map<Hash, BlobTransaction>,
                                          cutoff: Uint64)
    requires KnownSources(sources, txs, cutoff)
    ensures WellFormed(Stream(sources))
    ensures forall s :: s in Stream(sources) ==>
              s.hash in txs && !txs[s.hash].missing && txs[s.hash].timestamp == s.timestamp && s.timestamp >= cutoff
  {
    if sources != [] {
      var front, last := sources[..|sources| - 1], sources[|sources| - 1];
      assert sources == front + [last] && last in sources;
      StreamTruthful(front, txs, cutoff);
      SourcesAt(last);
    }
  }

  lemma {:induction false} ResultsAcceptable(channels: map<FrameId, Collected>, ids: seq<FrameId>, batch: BlockBatch,
                                             decode: Decoder, txs: map<Hash, BlobTransaction>, cutoff: Uint64)
    requires AllCollectedValid(channels) && (forall i :: 0 <= i < |ids| ==> ids[i] in channels) && Stamps(decode)
    requires forall id :: id in channels ==> Truthful(channels[id].frames, txs, cutoff)
    requires Results(channels, ids, batch, decode).Some?
    ensures forall ch :: ch in Results(channels, ids, batch, decode).value ==> Acceptable(ch, txs, cutoff)
  {
    hide ReadyOf, Acceptable, Truthful, Stamps;
    if ids != [] {
      var id := ids[|ids| - 1];
      ResultsAcceptable(channels, ids[..|ids| - 1], batch, decode, txs, cutoff);
      if ReadyOf(channels[id], id, batch, decode).Decoded? {
        DecodedAcceptable(channels[id], id, batch, decode, txs, cutoff);
      }
    }
  }

  lemma OutcomeAcceptable(sources: seq<BlobTransaction>, batch: BlockBatch, decode: Decoder,
                          txs: map<Hash, BlobTransaction>, cutoff: Uint64)
    requires KnownSources(sources, txs, cutoff) && Stamps(decode) && WellFormed(Stream(sources))
    requires Outcome(Stream(sources), batch, decode).Some?
    ensures forall ch :: ch in Outcome(Stream(sources), batch, decode).value ==> Acceptable(ch, txs, cutoff)
  {
    hide Acceptable, Stamps, Results, Run;
    var ss := Stream(sources);
    StreamTruthful(sources, txs, cutoff);
    CollectionValid(ss);
    var collection := Collection(ss);
    forall id | id in collection ensures Truthful(collection[id].frames, txs, cutoff) {
      RunRepresents(Of(ss, id));
      forall n | n in collection[id].frames ensures collection[id].frames[n] in ss {
        assert collection[id].frames[n] in Of(ss, id);
      }
    }
    var ids := IdOrder(Ids(ss));
    assert forall i :: 0 <= i < |ids| ==> ids[i] in ids;
    ResultsAcceptable(collection, ids, batch, decode, txs, cutoff);
  }

  // ---------------------------------------------------------------- one scan

  /** The cache mirrors the store where the store has an entry; everything else inside the window is
      about to be stored; and every channel is built from cached sources. */
  ghost predicate Prepared(a: Retained, cutoff: Uint64, txs: seq<BlobTransaction>, channels: seq<BlobChannel>,
                           cache: map<Hash, BlobTransaction>)
  {
    && OwnHashes(cache)
    && (forall h :: h in cache ==> ValidFrames(cache[h].frames) && (cache[h].missing ==> cache[h].frames == []))
    && (forall h :: h in cache && h in a.txs ==> cache[h] == a.txs[h])
    && (forall h :: h in cache && h !in a.txs && cache[h].timestamp >= cutoff ==> cache[h] in txs)
    && (forall tx :: tx in txs ==>
          tx.hash in cache && cache[tx.hash] == tx && tx.hash !in a.txs && tx.timestamp >= cutoff)
    && (forall i, j :: 0 <= i < j < |txs| ==> txs[i].hash != txs[j].hash)
    && (forall ch :: ch in channels ==> Acceptable(ch, cache, cutoff))
  }

  /** A stored transaction enters the cache... */
  lemma StoredCached(a: Retained, cutoff: Uint64, txs: seq<BlobTransaction>, channels: seq<BlobChannel>,
                     cache: map<Hash, BlobTransaction>, hash: Hash)
    requires Prepared(a, cutoff, txs, channels, cache) && Valid(a) && StoredFramesValid(a) && hash in a.txs
    requires hash !in cache
    ensures Prepared(a, cutoff, txs, channels, cache[hash := a.txs[hash]])
  {
    hide Acceptable, ValidFrames, Sourced, Indexed, Consistent, Exclusive;
    KeepsAcceptable(channels, cache, cache[hash := a.txs[hash]], cutoff);
  }

  /** ...and so does a fetched one, which is also to be stored if it is inside the window. */
  lemma FetchedCached(a: Retained, cutoff: Uint64, txs: seq<BlobTransaction>, channels: seq<BlobChannel>,
                      cache: map<Hash, BlobTransaction>, tx: BlobTransaction)
    requires Prepared(a, cutoff, txs, channels, cache) && tx.hash !in a.txs && tx.hash !in cache
    requires ValidFrames(tx.frames) && (tx.missing ==> tx.frames == [])
    ensures Prepared(a, cutoff, if tx.timestamp >= cutoff then txs + [tx] else txs, channels, cache[tx.hash := tx])
  {
    hide Acceptable, ValidFrames;
    KeepsAcceptable(channels, cache, cache[tx.hash := tx], cutoff);
  }

  lemma MorePrepared(a: Retained, cutoff: Uint64, txs: seq<BlobTransaction>, channels: seq<BlobChannel>,
                     cache: map<Hash, BlobTransaction>, more: seq<BlobChannel>)
    requires Prepared(a, cutoff, txs, channels, cache) && forall ch :: ch in more ==> Acceptable(ch, cache, cutoff)
    ensures Prepared(a, cutoff, txs, channels + more, cache)
  {
    hide Acceptable;
  }

  lemma SourceKnown(a: Retained, cutoff: Uint64, txs: seq<BlobTransaction>, channels: seq<BlobChannel>,
                    cache0: map<Hash, BlobTransaction>, cache: map<Hash, BlobTransaction>,
                    sources: seq<BlobTransaction>, hash: Hash)
    requires Prepared(a, cutoff, txs, channels, cache) && KnownSources(sources, cache0, cutoff)
    requires (forall h :: h in cache0 ==> h in cache && cache[h] == cache0[h]) && hash in cache
    ensures KnownSources(sources, cache, cutoff)
    ensures cache[hash].timestamp >= cutoff ==> KnownSources(sources + [cache[hash]], cache, cutoff)
  {
    hide Acceptable, ValidFrames;
  }

  /** What the cache may hold for a reference. */
  function Content(view: View, stored: map<Hash, BlobTransaction>, hash: Hash, cutoff: Uint64)
    : Option<BlobTransaction> {
    if hash in stored then Some(stored[hash])
    else if view.sources(hash).None? then None
    else
      var tx := Fetched(hash, view.sources(hash).value.timestamp, view.beacon(hash), cutoff);
      if tx.Got? then Some(tx.value) else None
  }

  class ScanResult {
    var txs: seq<BlobTransaction>
    var channels: seq<BlobChannel>
    var cache: map<Hash, BlobTransaction>

    constructor ()
      ensures txs == [] && channels == [] && cache == map[]
      ensures forall a, view, cutoff :: Valid(a, view, cutoff)
    {
      txs, channels, cache := [], [], map[];
    }

    ghost predicate Valid(a: Retained, view: View, cutoff: Uint64)
      reads this
    {
      && Prepared(a, cutoff, txs, channels, cache)
      && forall h :: h in cache ==> Content(view, a.txs, h, cutoff) == Some(cache[h])
    }

    /** A reference is fetched at most once in a scan, and never if the store has it; its authorization is
        checked for every submission that names it. The answer is the one without the cache. */
    method ResolveSource(hash: Hash, who: Committer, view: View, ghost a: Retained, stored: map<Hash, BlobTransaction>,
                         cutoff: Uint64)
      returns (r: Answer<BlobTransaction>)
      requires Valid(a, view, cutoff) && stored == a.txs && RetainedSet.Valid(a) && StoredFramesValid(a)
      requires ViewFramesValid(view)
      modifies this`txs, this`cache
      ensures Valid(a, view, cutoff)
      ensures r == Resolve(view, stored, hash, who, cutoff)
      ensures r.Unsound? <==> Denied(view, stored, hash, who, cutoff)
      ensures r.Stalled? <==> Awaited(view, stored, hash, who, cutoff)
      ensures r.Got? ==> view.sources(hash).Some? && MayName(view.sources(hash).value, who)
                         && StandsFor(view, stored, hash, cutoff, r.value)
      ensures forall h :: h in old(cache) ==> h in cache && cache[h] == old(cache)[h]
      ensures r.Got? ==> cache == old(cache)[hash := r.value]
      ensures var isNew := r.Got? && hash !in old(cache) && hash !in stored && r.value.timestamp >= cutoff;
              txs == old(txs) + if isNew then [r.value] else []
    {
      hide Prepared, StoredFramesValid, RetainedSet.Valid, ViewFramesValid, Authorizes, Denied, Awaited, StandsFor,
           MayName;
      ResolveMeans(view, stored, hash, who, cutoff);
      if hash !in cache {
        if hash !in stored {
          var s := view.sources(hash);
          if s.None? {
            return Stalled;
          }
          if !Authorizes(s.value, who) {
            return Unsound;
          }
          r := Fetched(hash, s.value.timestamp, view.beacon(hash), cutoff);
          if !r.Got? {
            return;
          }
          FetchedFrames(view, hash, s.value.timestamp, cutoff);
          FetchedCached(a, cutoff, txs, channels, cache, r.value);
          cache := cache[hash := r.value];
          if r.value.timestamp >= cutoff {
            txs := txs + [r.value];
          }
          return;
        }
        StoredCached(a, cutoff, txs, channels, cache, hash);
        cache := cache[hash := stored[hash]];
      }
      var source, s := cache[hash], view.sources(hash);
      if s.None? {
        return Stalled;
      }
      if source.timestamp != s.value.timestamp || !Authorizes(s.value, who) {
        return Unsound;
      }
      return Got(source);
    }

    /** The submission adds exactly what it contributes, whatever was cached before. */
    method Submit(s: Submission, who: Committer, view: View, decode: Decoder, ghost a: Retained,
                  stored: map<Hash, BlobTransaction>, cutoff: Uint64)
      returns (r: Answer<seq<BlobChannel>>)
      requires Valid(a, view, cutoff) && stored == a.txs && RetainedSet.Valid(a) && StoredFramesValid(a)
      requires ViewFramesValid(view)
      requires Stamps(decode)
      modifies this
      ensures Valid(a, view, cutoff)
      ensures r == Contribution(view, stored, s, who, cutoff, decode)
      ensures r.Stalled? <==> FirstAwaited(view, stored, s.hashes, who, cutoff)
      ensures FirstDenied(view, stored, s.hashes, who, cutoff) ==> r.Unsound?
      ensures r.Got? ==> forall h :: h in s.hashes ==>
        view.sources(h).Some? && MayName(view.sources(h).value, who) && Fine(view, stored, h, who, cutoff)
      ensures channels == old(channels) + if r.Got? then r.value else []
      ensures forall h :: h in old(cache) ==> h in cache && cache[h] == old(cache)[h]
      ensures r.Got? ==> forall h :: h in cache <==> h in old(cache) || h in s.hashes
    {
      hide Acceptable, Stamps, StoredFramesValid, RetainedSet.Valid, Prepared, KnownSources, Outcome, ViewFramesValid,
           Resolve, Content, Fine, FirstDenied, FirstAwaited, MayName;
      SourcesMean(view, stored, s.hashes, who, cutoff);
      if SourcesOf(view, stored, s.hashes, who, cutoff).Got? {
        AllNamed(view, stored, s.hashes, who, cutoff);
      }
      var sources: seq<BlobTransaction> := [];
      assert KnownSources([], cache, cutoff) by { NoSources(cache, cutoff); }
      assert s.hashes[..0] == [] && s.hashes[..|s.hashes|] == s.hashes;
      for i := 0 to |s.hashes|
        invariant Valid(a, view, cutoff) && KnownSources(sources, cache, cutoff) && channels == old(channels)
        invariant SourcesOf(view, stored, s.hashes[..i], who, cutoff) == Got(sources)
        invariant forall h :: h in cache <==> h in old(cache) || h in s.hashes[..i]
        invariant forall h :: h in old(cache) ==> cache[h] == old(cache)[h]
      {
        ghost var cache0 := cache;
        var hash := s.hashes[i];
        assert s.hashes[..i + 1] == s.hashes[..i] + [hash];
        var source := ResolveSource(hash, who, view, a, stored, cutoff);
        if !source.Got? {
          SourcesStop(view, stored, s.hashes, i + 1, who, cutoff);
          return if source.Stalled? then Stalled else Unsound;
        }
        SourceKnown(a, cutoff, txs, channels, cache0, cache, sources, hash);
        if source.value.timestamp >= cutoff {
          sources := sources + [source.value];
        }
      }
      StreamTruthful(sources, cache, cutoff);
      var decoded := DecodeChannels(sources, s.batch, decode);
      if decoded.None? {
        return Unsound;
      }
      OutcomeAcceptable(sources, s.batch, decode, cache, cutoff);
      MorePrepared(a, cutoff, txs, channels, cache, decoded.value);
      channels := channels + decoded.value;
      return Got(decoded.value);
    }
  }

  lemma {:induction false} SourcesStop(view: View, stored: map<Hash, BlobTransaction>, hashes: seq<Hash>, k: nat,
                                       who: Committer, cutoff: Uint64)
    requires k <= |hashes| && !SourcesOf(view, stored, hashes[..k], who, cutoff).Got?
    ensures SourcesOf(view, stored, hashes, who, cutoff) == SourcesOf(view, stored, hashes[..k], who, cutoff)
  {
    hide Resolve;
    if k == |hashes| {
      assert hashes[..k] == hashes;
    } else {
      assert hashes[..|hashes| - 1][..k] == hashes[..k];
      SourcesStop(view, stored, hashes[..|hashes| - 1], k, who, cutoff);
    }
  }

  ghost predicate ViewFramesValid(view: View) {
    forall h :: view.beacon(h).Found? ==> ValidFrames(view.beacon(h).frames)
  }

  lemma FetchedFrames(view: View, hash: Hash, timestamp: Uint64, cutoff: Uint64)
    requires ViewFramesValid(view) && Fetched(hash, timestamp, view.beacon(hash), cutoff).Got?
    ensures var tx := Fetched(hash, timestamp, view.beacon(hash), cutoff).value;
      tx.hash == hash && ValidFrames(tx.frames) && (tx.missing ==> tx.frames == [])
  {
  }

  lemma NoSources(txs: map<Hash, BlobTransaction>, cutoff: Uint64)
    ensures KnownSources([], txs, cutoff)
  {
  }

  lemma KeepsAcceptable(channels: seq<BlobChannel>, txs: map<Hash, BlobTransaction>, txs': map<Hash, BlobTransaction>,
                        cutoff: Uint64)
    requires forall h :: h in txs ==> h in txs' && txs'[h] == txs[h]
    requires forall ch :: ch in channels ==> Acceptable(ch, txs, cutoff)
    ensures forall ch :: ch in channels ==> Acceptable(ch, txs', cutoff)
  {
    forall ch | ch in channels ensures Acceptable(ch, txs', cutoff) {
      forall h | h in ch.record.sources ensures h in txs && h in txs' && txs'[h] == txs[h] {
        var i :| 0 <= i < |ch.record.sources| && ch.record.sources[i] == h;
      }
      SourcedSame(ch, txs, txs');
    }
  }

  // ---------------------------------------------------------------- producer meets consumer

  /** Some channel gives an index two blocks, or contradicts what is retained or was put before it. */
  ghost predicate Clashes(a: Retained, channels: seq<BlobChannel>, cutoff: Uint64) {
    exists k :: 0 <= k < |channels| && PutChannels(a, channels[..k], cutoff).Some?
      && (!Consistent(channels[k]) || Conflicting(PutChannels(a, channels[..k], cutoff).value, channels[k]))
  }

  /** The scan's transactions never conflict with the store or each other. */
  lemma {:induction false} TransactionsPut(a: Retained, cutoff: Uint64, txs: seq<BlobTransaction>,
                                           cache: map<Hash, BlobTransaction>, k: nat)
    requires Prepared(a, cutoff, txs, [], cache) && k <= |txs|
    ensures var put := PutTxs(a.txs, txs[..k], cutoff);
            && put.Some?
            && (forall h :: h in put.value && h in cache ==> put.value[h] == cache[h])
            && (forall h :: h in put.value ==> h in a.txs || h in cache)
            && (forall h :: h in a.txs ==> h in put.value)
            && (forall i :: 0 <= i < k ==> txs[i].hash in put.value)
  {
    hide Acceptable, OwnHashes, ValidFrames;
    if k > 0 {
      assert txs[..k][..k - 1] == txs[..k - 1] && txs[k - 1] in txs;
      TransactionsPut(a, cutoff, txs, cache, k - 1);
    }
  }

  /** When the snapshot is still current, a scan's commit gets past every check on its transactions, and on
      each channel past every check but a conflict with what is already retained. */
  lemma CommitFailsOnlyOnConflict(a: Retained, cutoff: Uint64, txs: seq<BlobTransaction>, channels: seq<BlobChannel>,
                                  cache: map<Hash, BlobTransaction>)
    requires Valid(a) && Within(a, cutoff) && Prepared(a, cutoff, txs, channels, cache)
    ensures PutTxs(a.txs, txs, cutoff).Some?
    ensures var mid := Retained(PutTxs(a.txs, txs, cutoff).value, a.channels);
            && (forall ch :: ch in channels ==> Acceptable(ch, mid.txs, cutoff))
            && (PutChannels(mid, channels, cutoff).None? <==> Clashes(mid, channels, cutoff))
  {
    hide Valid, Acceptable, Consistent, Conflicting, Clashes;
    assert Prepared(a, cutoff, txs, [], cache) && txs[..|txs|] == txs;
    TransactionsPut(a, cutoff, txs, cache, |txs|);
    var put := PutTxs(a.txs, txs, cutoff).value;
    forall ch | ch in channels ensures Acceptable(ch, put, cutoff) {
      AcceptableStored(a, cutoff, txs, cache, put, ch);
    }
    PutTxsValid(a, txs, cutoff);
    ConflictOnly(Retained(put, a.channels), channels, cutoff);
  }

  lemma AcceptableStored(a: Retained, cutoff: Uint64, txs: seq<BlobTransaction>, cache: map<Hash, BlobTransaction>,
                         put: map<Hash, BlobTransaction>, ch: BlobChannel)
    requires Prepared(a, cutoff, txs, [], cache) && Acceptable(ch, cache, cutoff)
    requires forall h :: h in put && h in cache ==> put[h] == cache[h]
    requires (forall h :: h in a.txs ==> h in put) && (forall i :: 0 <= i < |txs| ==> txs[i].hash in put)
    ensures Acceptable(ch, put, cutoff)
  {
    OldestBounds(ch.record.sources, cache);
    forall h | h in ch.record.sources ensures h in put && put[h] == cache[h] {
      var i :| 0 <= i < |ch.record.sources| && ch.record.sources[i] == h;
      assert cache[h].timestamp >= cutoff;
      if h !in a.txs {
        var j :| 0 <= j < |txs| && txs[j] == cache[h];
      }
    }
    SourcedSame(ch, cache, put);
  }

  lemma {:induction false} ConflictOnly(a: Retained, channels: seq<BlobChannel>, cutoff: Uint64)
    requires Valid(a) && forall ch :: ch in channels ==> Acceptable(ch, a.txs, cutoff)
    ensures PutChannels(a, channels, cutoff).None? <==> Clashes(a, channels, cutoff)
  {
    hide Valid, Consistent, Conflicting, Clashes;
    if channels == [] {
      assert !Clashes(a, [], cutoff) by { NoClash(a, cutoff); }
    } else {
      var front, last := channels[..|channels| - 1], channels[|channels| - 1];
      assert channels == front + [last] && last in channels;
      ConflictOnly(a, front, cutoff);
      ClashesSnoc(a, front, last, cutoff);
      if PutChannels(a, front, cutoff).Some? {
        PutChannelsKeeps(a, front, cutoff);
      }
    }
  }

  lemma NoClash(a: Retained, cutoff: Uint64)
    ensures !Clashes(a, [], cutoff)
  {
  }

  lemma ClashesSnoc(a: Retained, front: seq<BlobChannel>, last: BlobChannel, cutoff: Uint64)
    ensures var before := PutChannels(a, front, cutoff);
      Clashes(a, front + [last], cutoff) <==>
        Clashes(a, front, cutoff) || (before.Some? && (!Consistent(last) || Conflicting(before.value, last)))
  {
    hide Consistent, Conflicting, PutChannels;
    var all := front + [last];
    assert all[..|front|] == front && all[|front|] == last;
    assert forall k :: 0 <= k < |front| ==> all[..k] == front[..k] && all[k] == front[k];
  }

  /** So with a current snapshot the whole commit, pruning included, fails exactly on a conflict. */
  lemma CommitIffNoConflict(a: Retained, cutoff: Uint64, txs: seq<BlobTransaction>, channels: seq<BlobChannel>,
                            cache: map<Hash, BlobTransaction>)
    requires Valid(a) && Within(a, cutoff) && Prepared(a, cutoff, txs, channels, cache)
    ensures PutTxs(a.txs, txs, cutoff).Some?
    ensures var mid := Retained(PutTxs(a.txs, txs, cutoff).value, a.channels);
      Commit(a, txs, channels, cutoff).None? <==> Clashes(mid, channels, cutoff)
  {
    hide Valid, Prepared, Clashes, PutTxs, PutChannels, Distinct;
    CommitFailsOnlyOnConflict(a, cutoff, txs, channels, cache);
    var mid := Retained(PutTxs(a.txs, txs, cutoff).value, a.channels);
    if PutChannels(mid, channels, cutoff).Some? {
      PutTxsValid(a, txs, cutoff);
      PutChannelsKeeps(mid, channels, cutoff);
    }
  }

  /** A commit of transactions with valid frames, like all that a scan prepares, keeps the stored frames valid. */
  lemma CommitKeepsFrames(a: Retained, cutoff: Uint64, txs: seq<BlobTransaction>, channels: seq<BlobChannel>)
    requires Valid(a) && StoredFramesValid(a) && Commit(a, txs, channels, cutoff).Some?
    requires forall tx :: tx in txs ==> ValidFrames(tx.frames)
    ensures StoredFramesValid(Commit(a, txs, channels, cutoff).value)
  {
    hide Valid, Commit, ValidFrames;
    CommitExact(a, txs, channels, cutoff);
    var r := Commit(a, txs, channels, cutoff).value;
    forall h | h in r.txs ensures ValidFrames(r.txs[h].frames) {
      assert r.txs[h] in r.txs.Values;
      if r.txs[h] in a.txs.Values {
        var k :| k in a.txs && a.txs[k] == r.txs[h];
      }
    }
  }

  lemma PreparedFrames(a: Retained, cutoff: Uint64, txs: seq<BlobTransaction>, channels: seq<BlobChannel>,
                       cache: map<Hash, BlobTransaction>)
    requires Prepared(a, cutoff, txs, channels, cache)
    ensures forall tx :: tx in txs ==> ValidFrames(tx.frames)
  {
    hide ValidFrames, Acceptable;
  }
}
