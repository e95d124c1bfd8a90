/** What the transactions of the Inbox contribute to the Blob records, said of the chain alone, and what a store that
    holds exactly this looks like in every state of every run. */
module InboxChain {
  import opened Prelude
  import opened Frames
  import opened StoreTypes
  import opened ChainLogs
  import opened SenderReplay
  import opened SenderAuth
  import opened SenderMeaning
  import opened InboxScan
  import opened WindowScan
  import opened RetainedSet
  import AuthSync
  import BlobStore
  import ChannelDecoding
  import Channels
  import DepositQueue
  import Retention
  import RunSafety
  import Store

  /** The fixed L1 chain: transactions of every block, blob transactions, the frames their blobs carry, and the blobs
      that some provider no longer keeps. */
  datatype Chain = Chain(blocks: Uint64 -> seq<L1Tx>, l1: map<Hash, L1Source>, blobs: map<Hash, seq<Frame>>,
                         dropped: set<Hash>)

  /** A provider whose answers are what L1 has, with the blobs as they once were published. */
  ghost predicate TrueView(chain: Chain, view: View) {
    && (forall h :: view.sources(h).Some? ==> h in chain.l1 && chain.l1[h] == view.sources(h).value)
    && (forall h :: view.beacon(h).Found? ==> h in chain.blobs && chain.blobs[h] == view.beacon(h).frames)
    && (forall h :: view.beacon(h).Corrupt? ==> h !in chain.blobs)
    && (forall h :: view.beacon(h).Gone? ==> h in chain.dropped)
  }

  /** How the authorization state becomes text in the store, and back. */
  datatype Codec = Codec(seal: Auth -> seq<Byte>, unseal: seq<Byte> -> Option<Auth>)

  ghost predicate Faithful(c: Codec) { forall a :: c.unseal(c.seal(a)) == Some(a) && c.seal(a) != [] }

  /** The record of a reference says what L1 says: its blobs were dropped, or it carries all their frames. */
  ghost predicate TrueRecord(chain: Chain, t: BlobTransaction) {
    && t.hash in chain.l1 && t.timestamp == chain.l1[t.hash].timestamp
    && if t.missing then t.hash in chain.dropped && t.frames == []
       else t.hash in chain.blobs && t.frames == chain.blobs[t.hash]
  }

  ghost predicate RecordsTrue(chain: Chain, txs: map<Hash, BlobTransaction>) {
    forall h :: h in txs ==> txs[h].hash == h && TrueRecord(chain, txs[h])
  }

  /** The first block behind the scan checkpoint. */
  function FromOf(cfg: AuthSync.Config, height: Option<Uint64>): nat {
    if height.Some? then height.value + 1 else cfg.inboxStart
  }

  /** A loop's settings, the logs that decide who may send, and the chain it follows. */
  datatype L1Inbox = L1Inbox(cfg: AuthSync.Config, codec: Codec, decode: ChannelDecoding.Decoder, history: seq<Log>,
                             chain: Chain) {
    ghost predicate Sensible() {
      History(history) && cfg.batchSize >= 1 && Faithful(codec) && Stamps(decode) && PublishedFramesValid(chain.blobs)
    }

    // -------------------------------------------------------------- what a transaction contributes

    /** The senders that the whole history before the transaction authorizes. */
    ghost function Senders(height: Uint64, index: nat): Verdict {
      VerdictOf(history, cfg.registry, cfg.fallbacks, height, index)
    }

    /** A successful transaction to the Inbox by the authorized batch sender. */
    ghost predicate Sent(height: Uint64, index: nat) {
      && index < |chain.blocks(height)|
      && var tx := chain.blocks(height)[index];
      tx.inbox && tx.sender == Some(Senders(height, index).batch) && tx.succeeded
    }

    /** The references inside the window, in the order they are named; those in `gone` had their blobs dropped. */
    function Live(hashes: seq<Hash>, cutoff: Uint64, gone: set<Hash>): seq<BlobTransaction>
      requires forall h :: h in hashes ==> h in chain.l1
    {
      if hashes == [] then [] else
      var before, h := Live(hashes[..|hashes| - 1], cutoff, gone), hashes[|hashes| - 1];
      if chain.l1[h].timestamp < cutoff then before else
      var frames := if h in gone || h !in chain.blobs then [] else chain.blobs[h];
      before + [BlobTransaction(h, chain.l1[h].timestamp, h in gone, frames)]
    }

    /** It is for this chain, it parses, and the authorized blob sender may name all its references. */
    ghost predicate Admissible(height: Uint64, index: nat)
      requires Sent(height, index)
    {
      var tx, who := chain.blocks(height)[index], Committer(Senders(height, index).blob, height, index);
      && tx.sameChain && tx.commitment.Some?
      && forall h :: h in tx.commitment.value.hashes ==> h in chain.l1 && MayName(chain.l1[h], who)
    }

    ghost function Submitted(height: Uint64, index: nat): Submission
      requires Sent(height, index) && Admissible(height, index)
    {
      chain.blocks(height)[index].commitment.value
    }

    /** The frames of the transaction's references inside the window, in order. */
    ghost function Arrivals(height: Uint64, index: nat, cutoff: Uint64, gone: set<Hash>): seq<Channels.Source>
      requires Sent(height, index) && Admissible(height, index)
    {
      ChannelDecoding.Stream(Live(Submitted(height, index).hashes, cutoff, gone))
    }

    /** The channels of one such transaction; None when the chain itself is at fault. */
    ghost function Contributed(height: Uint64, index: nat, cutoff: Uint64, gone: set<Hash>): Option<seq<BlobChannel>>
      requires Sent(height, index)
    {
      if !Admissible(height, index) then None
      else
        var submission, arrivals := Submitted(height, index), Arrivals(height, index, cutoff, gone);
        if !Channels.WellFormed(arrivals) then None
        else ChannelDecoding.Outcome(arrivals, submission.batch, decode)
    }

    ghost predicate Brings(height: Uint64, index: nat, cutoff: Uint64, gone: set<Hash>, ch: BlobChannel) {
      && Sent(height, index) && gone <= chain.dropped && Contributed(height, index, cutoff, gone).Some?
      && ch in Contributed(height, index, cutoff, gone).value
    }

    ghost predicate BringsOnly(height: Uint64, index: nat, cutoff: Uint64, gone: set<Hash>, ever: set<BlobChannel>) {
      && Sent(height, index) && gone <= chain.dropped && Contributed(height, index, cutoff, gone).Some?
      && forall ch :: ch in Contributed(height, index, cutoff, gone).value ==> ch in ever
    }

    /** All that the transaction contributes is there. */
    ghost predicate Served(height: Uint64, index: nat, limit: Uint64, ever: set<BlobChannel>) {
      Sent(height, index) ==>
        exists cutoff: Uint64, gone :: cutoff <= limit && BringsOnly(height, index, cutoff, gone, ever)
    }

    // -------------------------------------------------------------- what a scan gathers is exactly that

    /** The answers are true, and so are the records known before. */
    ghost predicate Informed(ctx: Context) {
      TrueView(chain, ctx.view) && RecordsTrue(chain, ctx.stored) && ctx.decode == decode
    }

    function SenderRules(): Rules { Rules(cfg.registry, cfg.fallbacks) }

    /** What a scan of the block's first `n` transactions yields. */
    ghost function FromBlock(ctx: Context, height: Uint64, n: nat): Answer<seq<BlobChannel>>
      requires n <= |chain.blocks(height)|
    {
      InBlock(ctx, history, SenderRules(), height, chain.blocks(height), n)
    }

    /** Channels of the block's first `n` transactions: each is brought by one of them, and each has brought all its. */
    ghost predicate BlockGathered(height: Uint64, n: nat, cutoff: Uint64, cs: set<BlobChannel>) {
      && (forall ch :: ch in cs ==> exists index: nat, gone :: Brings(height, index, cutoff, gone, ch))
      && (forall index: nat :: index < n ==> Served(height, index, cutoff, cs))
    }

    /** The same of all blocks from `from` up to but not including `end`, under cutoffs up to `limit`. */
    ghost predicate Gathered(from: nat, end: nat, limit: Uint64, cs: set<BlobChannel>) {
      && (forall ch :: ch in cs ==> BroughtIn(from, end, limit, ch))
      && (forall height: Uint64, index: nat :: from <= height < end ==> Served(height, index, limit, cs))
    }

    ghost predicate BroughtIn(from: nat, end: nat, limit: Uint64, ch: BlobChannel) {
      exists height: Uint64, index: nat, cutoff: Uint64, gone ::
        from <= height < end && cutoff <= limit && Brings(height, index, cutoff, gone, ch)
    }

    /** The blocks that were fetched are the chain's. */
    ghost predicate Fetched(from: Uint64, blocks: seq<Option<seq<L1Tx>>>) {
      forall i :: 0 <= i < |blocks| && from + i <= MAX_UINT64 && blocks[i].Some? ==>
        blocks[i].value == chain.blocks(from + i)
    }

    // -------------------------------------------------------------- what the store holds

    ghost predicate CheckpointValid(height: Option<Uint64>, raw: seq<Byte>) {
      height.Some? ==>
        raw != [] && codec.unseal(raw).Some? && AuthSync.Checkpoint(cfg, history, height, codec.unseal(raw).value)
    }

    /** The stored state can be read and agrees with the history through its height, stored records are true, and the
        channels ever committed are exactly what the transactions of all blocks through that height contributed. */
    ghost predicate StoreTrue(st: BlobStore.BlobState, a: Retained, ever: set<BlobChannel>) {
      && CheckpointValid(st.height, st.auth) && RecordsTrue(chain, a.txs)
      && cfg.inboxStart <= FromOf(cfg, st.height) && Gathered(cfg.inboxStart, FromOf(cfg, st.height), st.cutoff, ever)
    }

    /** A commit that carries exactly the next stretch of the chain. */
    ghost predicate Good(e: RunSafety.Event) {
      e.CommitScan? ==>
        && CheckpointValid(Some(e.height), e.auth) && FromOf(cfg, e.snapshot.height) <= e.height
        && (forall tx :: tx in e.txs ==> TrueRecord(chain, tx))
        && Gathered(FromOf(cfg, e.snapshot.height), e.height + 1, e.snapshot.cutoff, set ch | ch in e.channels)
    }

    ghost predicate Holds(s: RunSafety.System) { StoreTrue(s.blob, s.retained, s.everChannels) }

    // -------------------------------------------------------------- what is retained, whenever it was scanned

    /** Under this cutoff the transaction has a whole channel that decodes to this one. */
    ghost predicate Offered(height: Uint64, index: nat, cutoff: Uint64, gone: set<Hash>, ch: BlobChannel) {
      && Sent(height, index) && Admissible(height, index) && gone <= chain.dropped
      && Retention.Offers(Arrivals(height, index, cutoff, gone), Submitted(height, index).batch, decode, ch)
    }

    /** All that the transaction offers under the present cutoff is retained. */
    ghost predicate Kept(height: Uint64, index: nat, s: RunSafety.System) {
      Sent(height, index) ==> exists gone :: gone <= chain.dropped && KeptUnder(height, index, gone, s)
    }

    ghost predicate KeptUnder(height: Uint64, index: nat, gone: set<Hash>, s: RunSafety.System) {
      forall ch :: Offered(height, index, s.blob.cutoff, gone, ch) ==> ch in s.retained.channels.Values
    }

    ghost predicate OfferedIn(s: RunSafety.System, ch: BlobChannel) {
      exists height: Uint64, index: nat, gone ::
        cfg.inboxStart <= height < FromOf(cfg, s.blob.height) && Offered(height, index, s.blob.cutoff, gone, ch)
    }
  }

  // ---------------------------------------------------------------- a scan gathers exactly the contributions

  lemma ResolvedTrue(inbox: L1Inbox, ctx: Context, hash: Hash, who: Committer)
    requires inbox.Informed(ctx) && Resolve(ctx.view, ctx.stored, hash, who, ctx.cutoff).Got?
    ensures hash in inbox.chain.l1 && MayName(inbox.chain.l1[hash], who)
    ensures var t := Resolve(ctx.view, ctx.stored, hash, who, ctx.cutoff).value;
            && t.hash == hash && t.timestamp == inbox.chain.l1[hash].timestamp
            && (t.timestamp >= ctx.cutoff ==> TrueRecord(inbox.chain, t)) && (t.missing ==> hash in inbox.chain.dropped)
  {
    hide MayName;
    ResolveMeans(ctx.view, ctx.stored, hash, who, ctx.cutoff);
  }

  /** The sources of a submission are its references inside the window. */
  lemma {:induction false} SourcesLive(inbox: L1Inbox, ctx: Context, hashes: seq<Hash>, who: Committer, gone: set<Hash>)
    requires inbox.Informed(ctx) && SourcesOf(ctx.view, ctx.stored, hashes, who, ctx.cutoff).Got?
    requires forall h :: h in hashes && Resolve(ctx.view, ctx.stored, h, who, ctx.cutoff).Got? ==>
               (h in gone <==> Resolve(ctx.view, ctx.stored, h, who, ctx.cutoff).value.missing)
    ensures forall h :: h in hashes ==> h in inbox.chain.l1 && MayName(inbox.chain.l1[h], who)
    ensures SourcesOf(ctx.view, ctx.stored, hashes, who, ctx.cutoff).value == inbox.Live(hashes, ctx.cutoff, gone)
  {
    hide MayName, Resolve, L1Inbox.Informed;
    if hashes != [] {
      var front, last := hashes[..|hashes| - 1], hashes[|hashes| - 1];
      assert hashes == front + [last];
      SourcesLive(inbox, ctx, front, who, gone);
      ResolvedTrue(inbox, ctx, last, who);
    }
  }

  /** One handled transaction. */
  lemma HandledBrings(inbox: L1Inbox, ctx: Context, height: Uint64, index: nat) returns (gone: set<Hash>)
    requires inbox.Informed(ctx) && index < |inbox.chain.blocks(height)|
    requires Handled(ctx, inbox.chain.blocks(height)[index], inbox.Senders(height, index), height, index).Got?
    ensures gone <= inbox.chain.dropped
    ensures var tx, v := inbox.chain.blocks(height)[index], inbox.Senders(height, index);
            var cs := Handled(ctx, tx, v, height, index).value;
            if inbox.Sent(height, index) then inbox.Contributed(height, index, ctx.cutoff, gone) == Some(cs)
            else cs == []
  {
    hide MayName, TrueView, RecordsTrue, SourcesOf, Resolve, ChannelDecoding.Outcome, VerdictOf;
    gone := {};
    if inbox.Sent(height, index) {
      var tx, who := inbox.chain.blocks(height)[index], Committer(inbox.Senders(height, index).blob, height, index);
      var hashes := tx.commitment.value.hashes;
      gone := set h | h in hashes && Resolve(ctx.view, ctx.stored, h, who, ctx.cutoff).Got?
                      && Resolve(ctx.view, ctx.stored, h, who, ctx.cutoff).value.missing;
      forall h | h in gone ensures h in inbox.chain.dropped {
        ResolvedTrue(inbox, ctx, h, who);
      }
      SourcesLive(inbox, ctx, hashes, who, gone);
    }
  }

  lemma {:induction false} BlockBrings(inbox: L1Inbox, ctx: Context, height: Uint64, n: nat)
    requires inbox.Informed(ctx) && n <= |inbox.chain.blocks(height)|
    requires inbox.FromBlock(ctx, height, n).Got?
    ensures inbox.BlockGathered(height, n, ctx.cutoff,
              set ch | ch in inbox.FromBlock(ctx, height, n).value)
  {
    hide Handled, L1Inbox.Informed, VerdictOf, L1Inbox.Contributed;
    if n > 0 {
      BlockBrings(inbox, ctx, height, n - 1);
      var before := inbox.FromBlock(ctx, height, n - 1).value;
      var gone := HandledBrings(inbox, ctx, height, n - 1);
      var more := Handled(ctx, inbox.chain.blocks(height)[n - 1], inbox.Senders(height, n - 1), height, n - 1).value;
      BlockSnoc(inbox, height, n - 1, ctx.cutoff, gone, before, more);
    }
  }

  lemma BlockSnoc(inbox: L1Inbox, height: Uint64, n: nat, cutoff: Uint64, gone: set<Hash>, before: seq<BlobChannel>,
                  more: seq<BlobChannel>)
    requires inbox.BlockGathered(height, n, cutoff, set ch | ch in before)
    requires gone <= inbox.chain.dropped
    requires if inbox.Sent(height, n) then inbox.Contributed(height, n, cutoff, gone) == Some(more) else more == []
    ensures inbox.BlockGathered(height, n + 1, cutoff, set ch | ch in before + more)
  {
    hide L1Inbox.Contributed, L1Inbox.Sent;
    var done, all := (set ch | ch in before), set ch | ch in before + more;
    forall ch | ch in all ensures exists index: nat, gone :: inbox.Brings(height, index, cutoff, gone, ch) {
      if ch in more {
        assert inbox.Brings(height, n, cutoff, gone, ch);
      } else {
        assert ch in done;
      }
    }
    forall index: nat | index < n + 1 ensures inbox.Served(height, index, cutoff, all) {
      if index < n {
        ServedMore(inbox, height, index, cutoff, cutoff, done, all);
      } else if inbox.Sent(height, n) {
        assert inbox.BringsOnly(height, n, cutoff, gone, all);
      }
    }
  }

  lemma ServedMore(inbox: L1Inbox, height: Uint64, index: nat, limit: Uint64, limit': Uint64, ever: set<BlobChannel>,
                   ever': set<BlobChannel>)
    requires inbox.Served(height, index, limit, ever) && limit <= limit' && ever <= ever'
    ensures inbox.Served(height, index, limit', ever')
  {
    hide L1Inbox.Contributed, L1Inbox.Sent;
    if inbox.Sent(height, index) {
      var cutoff: Uint64, gone :| cutoff <= limit && inbox.BringsOnly(height, index, cutoff, gone, ever);
      assert inbox.BringsOnly(height, index, cutoff, gone, ever');
    }
  }

  lemma BroughtMore(inbox: L1Inbox, from: nat, end: nat, limit: Uint64, from': nat, end': nat, limit': Uint64,
                    ch: BlobChannel)
    requires inbox.BroughtIn(from, end, limit, ch) && from' <= from && end <= end' && limit <= limit'
    ensures inbox.BroughtIn(from', end', limit', ch)
  {
    hide L1Inbox.Brings;
  }

  lemma NothingGathered(inbox: L1Inbox, from: nat, limit: Uint64)
    ensures inbox.Gathered(from, from, limit, {})
  {
  }

  /** Stretches add up, and later cutoffs only count more. */
  lemma GatheredConcat(inbox: L1Inbox, from: nat, mid: nat, end: nat, limit: Uint64, limit': Uint64,
                       cs: set<BlobChannel>, more: set<BlobChannel>)
    requires from <= mid <= end && limit <= limit'
    requires inbox.Gathered(from, mid, limit, cs) && inbox.Gathered(mid, end, limit', more)
    ensures inbox.Gathered(from, end, limit', cs + more)
  {
    hide L1Inbox.BroughtIn, L1Inbox.Served;
    forall ch | ch in cs + more ensures inbox.BroughtIn(from, end, limit', ch) {
      if ch in cs {
        BroughtMore(inbox, from, mid, limit, from, end, limit', ch);
      } else {
        BroughtMore(inbox, mid, end, limit', from, end, limit', ch);
      }
    }
    forall height: Uint64, index: nat | from <= height < end ensures inbox.Served(height, index, limit', cs + more) {
      if height < mid {
        ServedMore(inbox, height, index, limit, limit', cs, cs + more);
      } else {
        ServedMore(inbox, height, index, limit', limit', more, cs + more);
      }
    }
  }

  lemma BlockIsStretch(inbox: L1Inbox, height: Uint64, cutoff: Uint64, cs: set<BlobChannel>)
    requires inbox.BlockGathered(height, |inbox.chain.blocks(height)|, cutoff, cs)
    ensures inbox.Gathered(height, height + 1, cutoff, cs)
  {
    hide L1Inbox.Contributed;
  }

  /** A scanned window has gathered exactly what its blocks' transactions contribute. */
  lemma {:induction false} WindowGathers(inbox: L1Inbox, ctx: Context, from: Uint64, blocks: seq<Option<seq<L1Tx>>>,
                                         k: nat)
    requires inbox.Informed(ctx) && k <= |blocks| && from + |blocks| <= MAX_UINT64 + 1 && inbox.Fetched(from, blocks)
    requires InWindow(ctx, inbox.history, inbox.SenderRules(), from, blocks, k).Got?
    ensures inbox.Gathered(from, from + k, ctx.cutoff,
              set ch | ch in InWindow(ctx, inbox.history, inbox.SenderRules(), from, blocks, k).value)
  {
    hide InBlock, L1Inbox.Informed, L1Inbox.Gathered;
    var rules := inbox.SenderRules();
    if k == 0 {
      NothingGathered(inbox, from, ctx.cutoff);
      assert (set ch | ch in InWindow(ctx, inbox.history, rules, from, blocks, k).value) == {};
    } else {
      WindowGathers(inbox, ctx, from, blocks, k - 1);
      var height: Uint64, before := from + k - 1, InWindow(ctx, inbox.history, rules, from, blocks, k - 1).value;
      var txs := inbox.chain.blocks(height);
      var more := InBlock(ctx, inbox.history, rules, height, txs, |txs|).value;
      BlockBrings(inbox, ctx, height, |txs|);
      BlockIsStretch(inbox, height, ctx.cutoff, set ch | ch in more);
      GatheredConcat(inbox, from, height, height + 1, ctx.cutoff, ctx.cutoff, (set ch | ch in before),
                     (set ch | ch in more));
      assert InWindow(ctx, inbox.history, rules, from, blocks, k).value == before + more;
      assert (set ch | ch in InWindow(ctx, inbox.history, rules, from, blocks, k).value)
          == (set ch | ch in before) + (set ch | ch in more);
    }
  }

  /** An accepted submission was sent by the rightful batch sender of the logs before it, and every reference in it was
      sent to the Inbox, successfully and not later, by the rightful blob sender. */
  lemma AcceptedMeans(inbox: L1Inbox, height: Uint64, index: nat) returns (hs: seq<Log>)
    requires History(inbox.history) && inbox.Sent(height, index) && inbox.Admissible(height, index)
    ensures LogsBefore(inbox.history, height, index, hs)
    ensures var tx, registry, fallbacks := inbox.chain.blocks(height)[index], inbox.cfg.registry, inbox.cfg.fallbacks;
      && tx.inbox && tx.sender.Some? && tx.sameChain && tx.succeeded && tx.commitment.Some?
      && Rightful(hs, registry, BatchSender, height, fallbacks.batch, tx.sender.value)
      && forall h :: h in tx.commitment.value.hashes ==>
           && h in inbox.chain.l1 && var s := inbox.chain.l1[h];
           && s.genuine && s.toInbox && s.sender.Some?
           && Rightful(hs, registry, BlobSender, height, fallbacks.blob, s.sender.value)
           && (s.height < height || (s.height == height && s.index <= index))
  {
    hide Rightful, LogsBefore, VerdictOf;
    hs := VerdictMeans(inbox.history, inbox.cfg.registry, inbox.cfg.fallbacks, height, index);
  }

  // ---------------------------------------------------------------- every run keeps the store exact

  /** Records only come from the store and the batch. */
  lemma StillTrue(inbox: L1Inbox, a: Retained, cutoff: Uint64, txs: seq<BlobTransaction>, channels: seq<BlobChannel>)
    requires RecordsTrue(inbox.chain, a.txs) && RetainedSet.Valid(a)
    requires RetainedSet.Commit(a, txs, channels, cutoff).Some?
    requires forall tx :: tx in txs ==> TrueRecord(inbox.chain, tx)
    ensures RecordsTrue(inbox.chain, RetainedSet.Commit(a, txs, channels, cutoff).value.txs)
  {
    hide RetainedSet.Commit, TrueRecord;
    CommitExact(a, txs, channels, cutoff);
    var r := RetainedSet.Commit(a, txs, channels, cutoff).value;
    forall h | h in r.txs ensures r.txs[h].hash == h && TrueRecord(inbox.chain, r.txs[h]) {
      assert r.txs[h] in r.txs.Values;
      if r.txs[h] in a.txs.Values {
        var k :| k in a.txs && a.txs[k] == r.txs[h];
      }
    }
  }

  lemma StepHolds(inbox: L1Inbox, s: RunSafety.System, e: RunSafety.Event, t: RunSafety.System)
    requires inbox.Holds(s) && RunSafety.Inv(s) && RunSafety.Next(s, e, t) && inbox.Good(e)
    ensures inbox.Holds(t)
  {
    hide RetainedSet.Commit, RetainedSet.Valid, RunSafety.LatestOf, TrueRecord, RecordsTrue, L1Inbox.Gathered,
         RunSafety.DepositsCommit, L1Inbox.CheckpointValid;
    if RunSafety.BlobCommits(s, e) {
      assert (set ch | ch in RunSafety.NewChannels(e)) == if e.CommitScan? then set ch | ch in e.channels else {};
      StillTrue(inbox, s.retained, RunSafety.BlobAfter(e).cutoff, RunSafety.NewTxs(e), RunSafety.NewChannels(e));
      NothingGathered(inbox, FromOf(inbox.cfg, s.blob.height), t.blob.cutoff);
      GatheredConcat(inbox, inbox.cfg.inboxStart, FromOf(inbox.cfg, s.blob.height), FromOf(inbox.cfg, t.blob.height),
                     s.blob.cutoff, t.blob.cutoff, s.everChannels, set ch | ch in RunSafety.NewChannels(e));
    }
  }

  /** In any run whose scan commits are good, whoever asks for them and whatever else happens, every state holds
      exactly what the Inbox contributed up to its checkpoint. */
  lemma {:induction false} RunHolds(inbox: L1Inbox, states: seq<RunSafety.System>, events: seq<RunSafety.Event>, i: nat,
                                    j: nat)
    requires RunSafety.IsRun(states, events) && RunSafety.Inv(states[0]) && i <= j < |states|
    requires inbox.Holds(states[i]) && forall k :: i <= k < j ==> inbox.Good(events[k])
    ensures inbox.Holds(states[j])
    decreases j
  {
    hide RunSafety.Next, L1Inbox.Holds, L1Inbox.Good, RunSafety.Inv;
    if i < j {
      RunHolds(inbox, states, events, i, j - 1);
      RunSafety.RunInv(states, events, j - 1);
      StepHolds(inbox, states[j - 1], events[j - 1], states[j]);
    }
  }

  // ---------------------------------------------------------------- pruning commutes with scanning

  lemma {:induction false} LiveLater(inbox: L1Inbox, hashes: seq<Hash>, cutoff: Uint64, later: Uint64, gone: set<Hash>)
    requires (forall h :: h in hashes ==> h in inbox.chain.l1) && cutoff <= later
    ensures ChannelDecoding.Stream(inbox.Live(hashes, later, gone)) ==
            Retention.Newer(ChannelDecoding.Stream(inbox.Live(hashes, cutoff, gone)), later)
  {
    hide ChannelDecoding.FrameSources;
    if hashes != [] {
      var front, last := hashes[..|hashes| - 1], hashes[|hashes| - 1];
      assert hashes == front + [last];
      LiveLater(inbox, front, cutoff, later, gone);
      var before, all := inbox.Live(front, cutoff, gone), inbox.Live(hashes, cutoff, gone);
      if all != before {
        LiveSnoc(before, all[|all| - 1], later);
        assert all == before + [all[|all| - 1]];
        StreamSnoc(inbox.Live(front, later, gone), all[|all| - 1]);
      }
    }
  }

  lemma LiveSnoc(before: seq<BlobTransaction>, t: BlobTransaction, later: Uint64)
    ensures Retention.Newer(ChannelDecoding.Stream(before + [t]), later) ==
            Retention.Newer(ChannelDecoding.Stream(before), later)
              + if t.timestamp >= later then ChannelDecoding.FrameSources(t) else []
  {
    StreamSnoc(before, t);
    Retention.NewerConcat(ChannelDecoding.Stream(before), ChannelDecoding.FrameSources(t), later);
    Retention.NewerSame(ChannelDecoding.FrameSources(t), t.timestamp, later);
  }

  lemma StreamSnoc(before: seq<BlobTransaction>, t: BlobTransaction)
    ensures ChannelDecoding.Stream(before + [t]) == ChannelDecoding.Stream(before) + ChannelDecoding.FrameSources(t)
  {
    assert (before + [t])[..|before|] == before;
  }

  /** What a transaction contributed when it was scanned and has not expired since is what it offers under the later
      cutoff: scanning earlier and pruning is scanning later. */
  lemma ScannedEarlier(inbox: L1Inbox, height: Uint64, index: nat, cutoff: Uint64, later: Uint64, gone: set<Hash>,
                       ch: BlobChannel)
    requires inbox.Sent(height, index) && gone <= inbox.chain.dropped
    requires inbox.Contributed(height, index, cutoff, gone).Some?
    requires cutoff <= later
    ensures inbox.Offered(height, index, later, gone, ch) <==>
            ch in inbox.Contributed(height, index, cutoff, gone).value && ch.record.expiresAt >= later
  {
    hide ChannelDecoding.Outcome, Retention.Offers, MayName, ChannelDecoding.Stream;
    var s := inbox.Submitted(height, index);
    LiveLater(inbox, s.hashes, cutoff, later, gone);
    Retention.CutoffCommutes(ChannelDecoding.Stream(inbox.Live(s.hashes, cutoff, gone)), s.batch, inbox.decode, later,
                             ch);
  }

  /** So what is retained is exactly what the transactions of all blocks through the checkpoint offer under the
      present cutoff, whenever they were scanned, in whatever windows and under whatever cutoffs. */
  lemma RetainedExactly(inbox: L1Inbox, s: RunSafety.System)
    requires inbox.Holds(s) && RunSafety.Inv(s)
    ensures forall ch :: ch in s.retained.channels.Values ==> inbox.OfferedIn(s, ch)
    ensures forall height: Uint64, index: nat :: inbox.cfg.inboxStart <= height < FromOf(inbox.cfg, s.blob.height) ==>
              inbox.Kept(height, index, s)
  {
    hide RetainedSet.Valid, RunSafety.LatestOf, RecordsTrue, L1Inbox.CheckpointValid, L1Inbox.Contributed,
         L1Inbox.Sent, L1Inbox.Offered;
    forall ch | ch in s.retained.channels.Values ensures inbox.OfferedIn(s, ch) {
      assert inbox.BroughtIn(inbox.cfg.inboxStart, FromOf(inbox.cfg, s.blob.height), s.blob.cutoff, ch);
      var height: Uint64, index: nat, cutoff: Uint64, gone :|
        && inbox.cfg.inboxStart <= height < FromOf(inbox.cfg, s.blob.height) && cutoff <= s.blob.cutoff
        && inbox.Brings(height, index, cutoff, gone, ch);
      ScannedEarlier(inbox, height, index, cutoff, s.blob.cutoff, gone, ch);
    }
    forall height: Uint64, index: nat | inbox.cfg.inboxStart <= height < FromOf(inbox.cfg, s.blob.height)
      ensures inbox.Kept(height, index, s)
    {
      if inbox.Sent(height, index) {
        assert inbox.Served(height, index, s.blob.cutoff, s.everChannels);
        var cutoff: Uint64, gone :|
          cutoff <= s.blob.cutoff && inbox.BringsOnly(height, index, cutoff, gone, s.everChannels);
        forall ch | inbox.Offered(height, index, s.blob.cutoff, gone, ch) ensures ch in s.retained.channels.Values {
          ScannedEarlier(inbox, height, index, cutoff, s.blob.cutoff, gone, ch);
        }
        assert inbox.KeptUnder(height, index, gone, s);
      }
    }
  }

  /** Two stores that followed the same chain, each in its own way, to the same checkpoint and cutoff retain the same
      channels, if no blob was dropped. */
  lemma Converge(inbox: L1Inbox, s: RunSafety.System, t: RunSafety.System)
    requires inbox.Holds(s) && RunSafety.Inv(s) && inbox.Holds(t) && RunSafety.Inv(t)
    requires s.blob.height == t.blob.height && s.blob.cutoff == t.blob.cutoff && inbox.chain.dropped == {}
    ensures s.retained.channels == t.retained.channels
  {
    hide RetainedSet.Valid, RunSafety.LatestOf, L1Inbox.Holds, L1Inbox.Offered;
    RetainedExactly(inbox, s);
    RetainedExactly(inbox, t);
    OneWay(inbox, s, t);
    OneWay(inbox, t, s);
    SameChannels(s.retained, t.retained);
  }

  lemma OfferedFacts(inbox: L1Inbox, height: Uint64, index: nat, cutoff: Uint64, gone: set<Hash>, ch: BlobChannel)
    requires inbox.Offered(height, index, cutoff, gone, ch)
    ensures inbox.Sent(height, index) && gone <= inbox.chain.dropped
  {
  }

  lemma OneWay(inbox: L1Inbox, s: RunSafety.System, t: RunSafety.System)
    requires s.blob.height == t.blob.height && s.blob.cutoff == t.blob.cutoff && inbox.chain.dropped == {}
    requires forall ch :: ch in s.retained.channels.Values ==> inbox.OfferedIn(s, ch)
    requires forall height: Uint64, index: nat :: inbox.cfg.inboxStart <= height < FromOf(inbox.cfg, t.blob.height) ==>
               inbox.Kept(height, index, t)
    ensures s.retained.channels.Values <= t.retained.channels.Values
  {
    hide L1Inbox.Sent, L1Inbox.Offered;
    forall ch | ch in s.retained.channels.Values ensures ch in t.retained.channels.Values {
      assert inbox.OfferedIn(s, ch);
      var height: Uint64, index: nat, gone :|
        inbox.cfg.inboxStart <= height < FromOf(inbox.cfg, s.blob.height)
          && inbox.Offered(height, index, s.blob.cutoff, gone, ch);
      OfferedFacts(inbox, height, index, s.blob.cutoff, gone, ch);
      assert inbox.Kept(height, index, t);
      assert gone == {};
      var gone' :| gone' <= inbox.chain.dropped && inbox.KeptUnder(height, index, gone', t);
      assert gone' == {};
    }
  }

  /** Whatever a read of an owned index publishes was contributed by the Inbox. */
  lemma PublishedBrought(inbox: L1Inbox, s: RunSafety.System, id: ChannelKey, index: Uint64, r: Store.Outcome,
                         out: Store.BlockResponse)
    returns (ch: BlobChannel)
    requires inbox.Holds(s) && RunSafety.Inv(s) && id in s.retained.channels && out.block.Some?
    requires r == Store.Done && Store.Published(s.retained, id, index, s.records, r, out)
    ensures ch == s.retained.channels[id] && out.block.value.index == index && out.batch.Some?
    ensures BlockOf(ch, out.block.value, out.batch.value, s.records)
    ensures inbox.BroughtIn(inbox.cfg.inboxStart, FromOf(inbox.cfg, s.blob.height), s.blob.cutoff, ch)
  {
    hide RetainedSet.Valid, RunSafety.LatestOf, L1Inbox.BroughtIn, RecordsTrue, L1Inbox.CheckpointValid;
    hide DepositQueue.Hydrate, Store.Published, BlockOf;
    ch := s.retained.channels[id];
    PublishedBlock(s.retained, id, index, s.records, r, out);
    assert ch in s.retained.channels.Values && ch in s.everChannels;
  }

  /** Before the first scan nothing is there. */
  lemma StartHolds(inbox: L1Inbox)
    ensures inbox.Holds(RunSafety.START)
  {
  }

  /** The block is one of the channel's with the deposits joined, under the channel's batch. */
  ghost predicate BlockOf(ch: BlobChannel, block: Block, batch: BlockBatch, records: map<Uint64, DepositQueue.Record>) {
    && batch == ch.record.batch
    && exists k :: 0 <= k < |ch.blocks| && DepositQueue.JoinedBlock(ch.blocks[k], records, block)
  }

  /** Channels stand under their own ids. */
  lemma SameChannels(a: Retained, b: Retained)
    requires RetainedSet.Valid(a) && RetainedSet.Valid(b) && a.channels.Values == b.channels.Values
    ensures a.channels == b.channels
  {
    hide Exclusive, Sourced, Indexed, RetainedSet.Consistent;
    forall id | id in a.channels ensures id in b.channels && b.channels[id] == a.channels[id] {
      assert a.channels[id] in b.channels.Values;
    }
    forall id | id in b.channels ensures id in a.channels {
      assert b.channels[id] in a.channels.Values;
    }
  }

  lemma PublishedBlock(a: Retained, id: ChannelKey, index: Uint64, records: map<Uint64, DepositQueue.Record>,
                       r: Store.Outcome, out: Store.BlockResponse)
    requires id in a.channels && out.block.Some? && r == Store.Done && Store.Published(a, id, index, records, r, out)
    ensures out.block.value.index == index && out.batch.Some?
    ensures BlockOf(a.channels[id], out.block.value, out.batch.value, records)
  {
    hide DepositQueue.Hydrate, DepositQueue.Joined, DepositQueue.Joinable;
    var ch := a.channels[id];
    var k :| 0 <= k < |ch.blocks| && ch.blocks[k].index == index
      && match DepositQueue.Hydrate(ch.blocks[k].transactions, records)
         case Malformed => r == Store.Integrity
         case Waiting => r == Store.Done && out == Store.NO_BLOCK
         case Hydrated(txs) =>
           && r == Store.Done
           && out == Store.BlockResponse(Some(ch.blocks[k].(transactions := txs)), Some(ch.record.batch));
    DepositQueue.HydrateMeans(ch.blocks[k].transactions, records);
    assert DepositQueue.JoinedBlock(ch.blocks[k], records, out.block.value);
  }

  /** A reference whose record is true carries only published frames. */
  lemma TrueFrames(chain: Chain, txs: map<Hash, BlobTransaction>)
    requires RecordsTrue(chain, txs) && PublishedFramesValid(chain.blobs)
    ensures OwnHashes(txs) && forall h :: h in txs ==> ValidFrames(txs[h].frames)
  {
  }
}
