/** Both loops and all readers over one process: what holds in every state, whoever acts when. */
module Ingestion {
  import opened Prelude
  import opened StoreTypes
  import opened DepositQueue
  import opened ChainLogs
  import opened InboxChain
  import AuthSync
  import BlobSync
  import ChannelDecoding
  import DepositReplay
  import DepositSync
  import InboxScan
  import Node
  import RetainedSet
  import RunSafety
  import Store

  /** How the two loops are set up. */
  datatype Setup = Setup(deposits: DepositReplay.Config, inbox: AuthSync.Config, confirmations: Uint64, codec: Codec,
                         decode: ChannelDecoding.Decoder)

  /** Which loop has its next round, and what it meets. */
  datatype Turn = DepositTurn(deposit: DepositSync.Provider) | BlobTurn(blob: BlobSync.Provider)

  class Service {
    const setup: Setup
    const process: Node.Process
    const deposits: DepositSync.Syncer
    const blobs: BlobSync.Syncer
    ghost const history: seq<Log>
    ghost const chain: Chain

    /** Both loops over an empty database. */
    constructor (setup: Setup, ghost history: seq<Log>, ghost chain: Chain)
      requires Sensible(setup, history, chain)
      ensures Valid() && this.setup == setup && this.history == history && this.chain == chain
      ensures process.State() == RunSafety.START
    {
      hide Node.Process.Valid, L1Inbox.Holds, L1Inbox.Sensible, BlobSync.Syncer.Valid, DepositSync.Syncer.ChainValid,
           RunSafety.IsRun, RunSafety.Inv;
      StartHolds(InboxOf(setup, history, chain));
      this.setup, this.history, this.chain := setup, history, chain;
      var p := new Node.Process();
      process := p;
      deposits := new DepositSync.Syncer(setup.deposits, p, history);
      blobs := new BlobSync.Syncer(setup.inbox, setup.confirmations, setup.codec, setup.decode, p, history, chain);
      new;
      Followable();
      process.Ends();
    }

    /** After a stop, whatever the loops were doing: only what the database holds is left, and it is enough. */
    constructor Restart(before: Service)
      requires before.Valid()
      ensures Valid() && setup == before.setup && history == before.history && chain == before.chain
      ensures process.State() == RunSafety.Restarted(before.process.State())
    {
      hide Node.Process.Valid, DepositSync.SyncedAt, L1Inbox.StoreTrue, L1Inbox.Sensible, BlobSync.Syncer.Valid,
           DepositSync.Syncer.ChainValid, RunSafety.IsRun, RunSafety.Inv;
      before.Facts();
      setup, history, chain := before.setup, before.history, before.chain;
      var p := new Node.Process.Restart(before.process);
      process := p;
      deposits := new DepositSync.Syncer(before.setup.deposits, p, before.history);
      blobs := new BlobSync.Syncer(before.setup.inbox, before.setup.confirmations, before.setup.codec,
                                   before.setup.decode, p, before.history, before.chain);
      new;
      Followable();
      process.Ends();
    }

    /** Nothing else is needed of a chain that both loops can follow. */
    lemma Followable()
      requires Settings()
      ensures deposits.ChainValid()
    {
      hide Faithful, InboxScan.Stamps, InboxScan.PublishedFramesValid;
    }

    ghost predicate Valid()
      reads this, deposits, blobs, blobs.lookups, process, process.status, process.store
    {
      Settings() && deposits.Valid() && blobs.Valid() && Tracked(process.Now())
    }

    /** The process started consistent, and nobody ever asked for a commit that is not what the chain demands. */
    ghost predicate Tracked(m: Node.Mark) {
      && |m.trace| == |m.log| + 1 && Consistent(setup, history, chain, m.trace[0])
      && forall k :: 0 <= k < |m.log| ==> Good(setup, history, chain, m.log[k])
    }

    ghost predicate Settings() {
      && deposits.process == process && deposits.store == process.store && blobs.process == process
      && blobs.store == process.store
      && deposits.cfg == setup.deposits && deposits.history == history
      && blobs.Inbox() == InboxOf(setup, history, chain) && blobs.confirmations == setup.confirmations
      && Sensible(setup, history, chain)
    }

    /** What the invariant says of each part. */
    lemma Facts()
      requires Valid()
      ensures Settings() && process.Valid() && Consistent(setup, history, chain, process.State())
      ensures process.Since(process.Now())
    {
      hide Node.Process.Valid, DepositSync.SyncedAt, L1Inbox.Holds, L1Inbox.Sensible, AuthSync.Lookups.Valid, Good,
           DepositSync.Syncer.ChainValid, DepositSync.Syncer.BootstrapValid;
    }

    /** In every state the process was ever in, between any two atomic steps of anybody, the deposits are the one-shot
        fold of the chain up to their checkpoint, and the Blob records are exactly what the Inbox contributed up to
        theirs. */
    lemma Always(i: nat)
      requires Valid() && i <= |process.log|
      ensures i < |process.trace| && RunSafety.Inv(process.trace[i])
      ensures Consistent(setup, history, chain, process.trace[i])
    {
      hide Store.Database.Valid, Consistent, Good, Sensible, AuthSync.Lookups.Valid, RunSafety.Next, RunSafety.Inv,
           BlobSync.Syncer.Valid;
      process.Reached(i);
      process.Reached(0);
      RunConsistent(setup, history, chain, process.trace, process.log, i);
    }

    /** Whatever a reader is given in any of these states is a block that an authorized submission contributed, with
        the deposits of the chain's fold joined into it. */
    lemma Readers(i: nat, id: RetainedSet.ChannelKey, index: Uint64, r: Store.Outcome, out: Store.BlockResponse)
      returns (ch: BlobChannel)
      requires Valid() && i <= |process.log| && |process.trace| == |process.log| + 1
      requires id in process.trace[i].retained.channels && out.block.Some? && r == Store.Done
      requires Store.Published(process.trace[i].retained, id, index, process.trace[i].records, r, out)
      ensures FromChain(setup, history, chain, process.trace[i], ch, out) && out.block.value.index == index
    {
      hide DepositSync.Syncer.Valid, BlobSync.Syncer.Valid, Good, RunSafety.Inv, L1Inbox.Holds, Store.Published,
           L1Inbox.BroughtIn, BlockOf;
      Always(i);
      ch := PublishedBrought(InboxOf(setup, history, chain), process.trace[i], id, index, r, out);
      DepositsExact(setup, history, chain, process.trace[i]);
    }

    /** The same of a read of the store as it is now. */
    method Read(index: Option<Uint64>) returns (outcome: Store.Outcome, out: Store.BlockResponse)
      requires Valid()
      ensures out.block.Some? <==> out.batch.Some?
      ensures out.block.Some? && index.Some? ==> out.block.value.index == index.value
      ensures out.block.Some? ==> exists ch :: FromChain(setup, history, chain, process.State(), ch, out)
    {
      hide DepositSync.Syncer.Valid, BlobSync.Syncer.Valid, Tracked, Sensible, Store.Published, FromChain,
           RunSafety.IsRun, RunSafety.Inv, Store.Database.BlobValid;
      Facts();
      process.Ends();
      outcome, out := process.store.GetBlock(index);
      if out.block.Some? {
        var n := if index.None? then process.store.blob.state.latest else index;
        ghost var id := process.store.blob.pointers[n.value];
        ghost var ch := Readers(|process.log|, id, n.value, outcome, out);
        assert FromChain(setup, history, chain, process.State(), ch, out);
      }
    }

    // -------------------------------------------------------------- rounds in any order

    /** The provider is honest; in the middle of a round anybody may act, the other loop included, but nobody else
        commits this loop's records. */
    ghost predicate Fair(t: Turn) {
      match t
      case DepositTurn(p) =>
        && DepositSync.Honest(setup.deposits, history, p.logs) && DepositSync.NoRival(p.others)
        && forall e :: e in p.others ==> InboxOf(setup, history, chain).Good(e)
      case BlobTurn(p) =>
        && blobs.Honest(p)
        && forall e :: e in p.early || e in p.late ==> DepositSync.Good(setup.deposits, history, e)
    }

    /** The round's other actors leave alone what this loop does not write either. */
    ghost predicate Alone(t: Turn) {
      match t
      case DepositTurn(p) => forall e :: e in p.others ==> RunSafety.LeavesBlobs(e)
      case BlobTurn(p) => forall e :: e in p.early || e in p.late ==> RunSafety.LeavesDeposits(e)
    }

    /** One round of either loop; on its own it does not touch the other's records. */
    method Act(t: Turn)
      requires Valid() && Fair(t)
      modifies deposits, blobs.lookups, process, process.status, process.store
      ensures Valid() && process.Since(old(process.Now()))
      ensures t.DepositTurn? && Alone(t) ==> SameBlobs(old(process.State()), process.State())
      ensures t.BlobTurn? && Alone(t) ==> SameDeposits(old(process.State()), process.State())
    {
      hide Node.Process.Valid, DepositSync.Syncer.Valid, BlobSync.Syncer.Valid, Tracked, Sensible, Consistent, Good,
           DepositSync.Syncer.Logged, BlobSync.Syncer.Logged, BlobSync.Syncer.Honest, L1Inbox.Good, DepositSync.Good,
           DepositSync.Syncer.ChainValid, DepositSync.Syncer.BootstrapValid, BlobSync.Syncer.Settings,
           AuthSync.Lookups.Valid, Alone, SameBlobs, SameDeposits;
      Facts();
      process.Ends();
      match t
      case DepositTurn(p) =>
        var _ := deposits.Turn(p, setup.confirmations, 0);
        DepositsActed(p);
        Extends();
        BlobsStay();
        Untouched();
      case BlobTurn(p) =>
        var _, _ := blobs.Round(p);
        BlobsActed(p);
        Extends();
        DepositsStay();
        Untouched();
    }

    /** Rounds of both loops in any order, each with any actors in its middle. */
    method Serve(turns: seq<Turn>)
      requires Valid() && forall i :: 0 <= i < |turns| ==> Fair(turns[i])
      modifies deposits, blobs.lookups, process, process.status, process.store
      ensures Valid() && process.Since(old(process.Now()))
    {
      hide Valid, Fair;
      Facts();
      for i := 0 to |turns|
        invariant Valid() && process.Since(old(process.Now()))
      {
        Act(turns[i]);
      }
    }

    // -------------------------------------------------------------- what one loop does to the other

    /** What the Blob loop keeps in memory is its own... */
    twostate lemma BlobsStay()
      requires old(Valid()) && unchanged(blobs.lookups) && process.Valid()
      requires Consistent(setup, history, chain, process.State())
      ensures blobs.Valid()
    {
      hide Node.Process.Valid, DepositSync.SyncedAt, L1Inbox.Holds, AuthSync.Lookups.Valid, Sensible, L1Inbox.Sensible,
           DepositSync.Syncer.ChainValid, DepositSync.Syncer.BootstrapValid, Good;
    }

    /** ...and so is what the deposit loop does. */
    twostate lemma DepositsStay()
      requires old(Valid()) && unchanged(deposits) && process.Valid()
      requires Consistent(setup, history, chain, process.State())
      ensures deposits.Valid()
    {
      hide Node.Process.Valid, DepositSync.SyncedAt, L1Inbox.Holds, AuthSync.Lookups.Valid, Sensible, L1Inbox.Sensible,
           DepositSync.Syncer.ChainValid, Good;
    }

    /** What nobody wrote is as it was. */
    twostate lemma Untouched()
      requires process.Valid() && process.Since(old(process.Now()))
      ensures (forall k :: |old(process.log)| <= k < |process.log| ==> RunSafety.LeavesBlobs(process.log[k])) ==>
                SameBlobs(old(process.trace)[|old(process.log)|], process.State())
      ensures (forall k :: |old(process.log)| <= k < |process.log| ==> RunSafety.LeavesDeposits(process.log[k])) ==>
                SameDeposits(old(process.trace)[|old(process.log)|], process.State())
    {
      hide RunSafety.Next, RunSafety.Inv, Store.Database.Valid, RunSafety.LeavesBlobs, RunSafety.LeavesDeposits;
      RunSafety.OthersKeep(process.trace, process.log, |old(process.log)|, |process.log|);
    }

    /** The process's run goes on, good step after good step. */
    twostate lemma Extends()
      requires process.Valid() && process.Since(old(process.Now())) && Tracked(old(process.Now()))
      requires forall k :: |old(process.log)| <= k < |process.log| ==> Good(setup, history, chain, process.log[k])
      ensures Tracked(process.Now()) && Consistent(setup, history, chain, process.State())
    {
      hide Good, Store.Database.Valid, DepositSync.SyncedAt, L1Inbox.Holds, RunSafety.Next, RunSafety.Inv;
      forall k | 0 <= k < |process.log| ensures Good(setup, history, chain, process.log[k]) {
        if k < |old(process.log)| {
          assert process.log[k] == old(process.log)[k];
        }
      }
      assert process.trace[0] == old(process.trace)[0];
      RunConsistent(setup, history, chain, process.trace, process.log, |process.log|);
    }

    /** This loop's own steps leave Blob records alone, and everybody else's are fair. */
    twostate lemma DepositsActed(p: DepositSync.Provider)
      requires Settings() && deposits.Valid() && deposits.Logged(old(process.Now()), p) && Fair(DepositTurn(p))
      ensures process.Valid() && process.Since(old(process.Now()))
      ensures Alone(DepositTurn(p)) ==> forall k :: |old(process.log)| <= k < |process.log| ==>
        RunSafety.LeavesBlobs(process.log[k])
      ensures forall k :: |old(process.log)| <= k < |process.log| ==> Good(setup, history, chain, process.log[k])
    {
      hide DepositSync.Honest, Sensible, Tracked, Node.Process.Valid, DepositSync.SyncedAt,
           DepositSync.Syncer.ChainValid;
      forall k | |old(process.log)| <= k < |process.log| ensures Good(setup, history, chain, process.log[k]) {
        var e := process.log[k];
        assert e in p.others ==> RunSafety.LeavesDeposits(e) && InboxOf(setup, history, chain).Good(e);
      }
    }

    twostate lemma BlobsActed(p: BlobSync.Provider)
      requires Settings() && blobs.Valid() && blobs.Logged(old(process.Now()), p) && Fair(BlobTurn(p))
      ensures process.Valid() && process.Since(old(process.Now()))
      ensures Alone(BlobTurn(p)) ==> forall k :: |old(process.log)| <= k < |process.log| ==>
        RunSafety.LeavesDeposits(process.log[k])
      ensures forall k :: |old(process.log)| <= k < |process.log| ==> Good(setup, history, chain, process.log[k])
    {
      hide Sensible, Tracked, AuthSync.Honest, TrueView, Node.Process.Valid, L1Inbox.Holds,
           AuthSync.Lookups.Valid;
      forall k | |old(process.log)| <= k < |process.log| ensures Good(setup, history, chain, process.log[k]) {
        var e := process.log[k];
        assert e in p.early || e in p.late ==> RunSafety.LeavesBlobs(e) && DepositSync.Good(setup.deposits, history, e);
      }
    }
  }

  /** In any run of good commits, whoever asks for them, every state is consistent. */
  lemma RunConsistent(setup: Setup, h: seq<Log>, chain: Chain, states: seq<RunSafety.System>,
                      events: seq<RunSafety.Event>, i: nat)
    requires RunSafety.IsRun(states, events) && RunSafety.Inv(states[0]) && Consistent(setup, h, chain, states[0])
    requires i < |states| && forall k :: 0 <= k < |events| ==> Good(setup, h, chain, events[k])
    ensures Consistent(setup, h, chain, states[i])
  {
    hide RunSafety.Next, RunSafety.Inv, DepositSync.SyncedAt, L1Inbox.Holds, DepositSync.Good, L1Inbox.Good;
    forall k | 0 <= k < i
      ensures DepositSync.Good(setup.deposits, h, events[k]) && InboxOf(setup, h, chain).Good(events[k])
    {
      assert Good(setup, h, chain, events[k]);
    }
    DepositSync.RunSynced(setup.deposits, h, states, events, 0, i);
    RunHolds(InboxOf(setup, h, chain), states, events, 0, i);
  }

  ghost predicate SameBlobs(s: RunSafety.System, t: RunSafety.System) {
    t.blob == s.blob && t.retained == s.retained && t.everTxs == s.everTxs && t.everChannels == s.everChannels
  }

  ghost predicate SameDeposits(s: RunSafety.System, t: RunSafety.System) {
    t.deposits == s.deposits && t.records == s.records
  }

  ghost function InboxOf(setup: Setup, h: seq<Log>, chain: Chain): L1Inbox {
    L1Inbox(setup.inbox, setup.codec, setup.decode, h, chain)
  }

  /** One chain that both loops can follow. */
  ghost predicate Sensible(setup: Setup, h: seq<Log>, chain: Chain) {
    && InboxOf(setup, h, chain).Sensible() && (forall l :: l in h ==> l.address != ZERO_ADDRESS)
    && DepositReplay.Initial(setup.deposits, h).At? && setup.deposits.batchSize >= 1
  }

  /** Deposits are the chain's fold, and Blob records what the Inbox contributed. */
  ghost predicate Consistent(setup: Setup, h: seq<Log>, chain: Chain, s: RunSafety.System) {
    DepositSync.SyncedAt(setup.deposits, h, s.deposits, s.records) && InboxOf(setup, h, chain).Holds(s)
  }

  ghost predicate Good(setup: Setup, h: seq<Log>, chain: Chain, e: RunSafety.Event) {
    DepositSync.Good(setup.deposits, h, e) && InboxOf(setup, h, chain).Good(e)
  }

  /** The published block is one of a channel that the Inbox contributed, joined with exactly the deposits that the
      chain's logs call for. */
  ghost predicate FromChain(setup: Setup, h: seq<Log>, chain: Chain, s: RunSafety.System, ch: BlobChannel,
                            out: Store.BlockResponse)
  {
    && out.block.Some? && out.batch.Some?
    && InboxOf(setup, h, chain).BroughtIn(setup.inbox.inboxStart, FromOf(setup.inbox, s.blob.height), s.blob.cutoff, ch)
    && DepositSync.Exact(setup.deposits, h, s.deposits, s.records)
    && BlockOf(ch, out.block.value, out.batch.value, s.records)
  }

  lemma DepositsExact(setup: Setup, h: seq<Log>, chain: Chain, s: RunSafety.System)
    requires Sensible(setup, h, chain) && Consistent(setup, h, chain, s)
    ensures DepositSync.Exact(setup.deposits, h, s.deposits, s.records)
  {
    hide L1Inbox.Holds, DepositSync.SyncedAt, DepositSync.Exact, Faithful, InboxScan.Stamps,
         InboxScan.PublishedFramesValid;
    DepositSync.SyncedExact(setup.deposits, h, s.deposits, s.records);
  }

  lemma FoldServed(setup: Setup, h: seq<Log>, chain: Chain, s: RunSafety.System)
    requires Consistent(setup, h, chain, s)
    ensures DepositSync.QueueThrough(setup.deposits, h, s.deposits.height) == Some(Queue(s.records, s.deposits.latest))
  {
    hide L1Inbox.Holds, DepositReplay.Replay, DepositSync.QueueOf;
  }

  // ---------------------------------------------------------------- any two services agree

  /** Two services that followed one chain to the same checkpoints, with whatever providers, windows, failures and
      restarts, hold the same deposits and the same channels, if no blob was ever dropped. */
  lemma Converge(setup: Setup, h: seq<Log>, chain: Chain, s: RunSafety.System, t: RunSafety.System)
    requires Consistent(setup, h, chain, s) && RunSafety.Inv(s) && Consistent(setup, h, chain, t) && RunSafety.Inv(t)
    requires s.deposits.height == t.deposits.height && s.blob.height == t.blob.height
    requires s.blob.cutoff == t.blob.cutoff && chain.dropped == {}
    ensures s.records == t.records && s.deposits.latest == t.deposits.latest && s.deposits.ctc == t.deposits.ctc
    ensures s.retained.channels == t.retained.channels && s.blob.latest == t.blob.latest
  {
    hide L1Inbox.Holds, DepositReplay.Replay, DepositSync.QueueOf, RetainedSet.Valid, RetainedSet.Within,
         Queue.Contiguous;
    InboxChain.Converge(InboxOf(setup, h, chain), s, t);
    FoldServed(setup, h, chain, s);
    FoldServed(setup, h, chain, t);
    SameLatest(s.retained, t.retained, s.blob.latest, t.blob.latest);
  }

  lemma SameLatest(a: RetainedSet.Retained, b: RetainedSet.Retained, m: Option<Uint64>, n: Option<Uint64>)
    requires a.channels == b.channels && RunSafety.LatestOf(a, m) && RunSafety.LatestOf(b, n)
    ensures m == n
  {
    assert forall k: Uint64 :: RunSafety.Stored(a, k) <==> RunSafety.Stored(b, k);
  }

  /** So a block read gets the same answer from both. */
  lemma SameAnswer(s: RunSafety.System, t: RunSafety.System, index: Uint64, id: RetainedSet.ChannelKey,
                   id': RetainedSet.ChannelKey, r: Store.Outcome, out: Store.BlockResponse, r': Store.Outcome,
                   out': Store.BlockResponse)
    requires RunSafety.Inv(s) && s.records == t.records && s.retained.channels == t.retained.channels
    requires id in s.retained.channels && RetainedSet.Owns(s.retained.channels[id], index)
    requires id' in t.retained.channels && RetainedSet.Owns(t.retained.channels[id'], index)
    requires Store.Published(s.retained, id, index, s.records, r, out)
    requires Store.Published(t.retained, id', index, t.records, r', out')
    requires (r != Store.Done ==> out == Store.NO_BLOCK) && (r' != Store.Done ==> out' == Store.NO_BLOCK)
    ensures r == r' && out == out'
  {
    hide Hydrate, RetainedSet.Sourced, RetainedSet.Indexed, Queue.Contiguous, RunSafety.LatestOf, RetainedSet.Within;
    assert id == id';
  }
}
