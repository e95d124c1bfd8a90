/** The Blob loop: retention, lazy authorization, the scan of a window and its commit to the shared store. */
module BlobSync {
  import opened Prelude
  import opened Frames
  import opened StoreTypes
  import opened ChainLogs
  import opened SenderReplay
  import opened SenderAuth
  import opened InboxScan
  import opened WindowScan
  import opened RetainedSet
  import opened InboxChain
  import DepositQueue
  import ChannelDecoding
  import BlobStore
  import Store
  import RunSafety
  import Node
  import AuthSync

  const RETENTION_SECONDS: Uint64 := 604800

  /** What one step sees of the outside: lookups, the tip with the hash and time of the confirmed block, blocks,
      references; what other actors do before its two commits; and whether it is still wanted then. */
  datatype Provider = Provider(lookups: AuthSync.Provider, tip: Option<Uint64>, hash: Hash, time: Uint64,
                               blocks: Uint64 -> Option<seq<L1Tx>>, view: View, early: seq<RunSafety.Event>,
                               late: seq<RunSafety.Event>, alive: bool)

  /** This loop is the only one to commit Blob records. */
  predicate NoRival(others: seq<RunSafety.Event>) { forall e :: e in others ==> RunSafety.LeavesBlobs(e) }

  /** Why a step is fatal. */
  datatype Cause = BadEvents | BadSubmissions | RetentionRefused | ScanRefused | StoreClosed

  /** Lost: a transient failure. Stopped: an error is already published. More: not at the target yet. */
  datatype Turn = Lost | Stopped | Fatal(cause: Cause) | More | Caught

  /** What `decodeAuth` demands of a stored state. */
  predicate Storable(a: Auth) {
    ZERO_ADDRESS !in a.known && (a.manager != ZERO_ADDRESS ==> a.manager in a.known) && NamedAuth(a)
  }

  function Target(tip: Uint64, confirmations: Uint64): (target: Uint64)
    ensures target + confirmations == tip || (tip < confirmations && target == 0)
  {
    if tip >= confirmations then tip - confirmations else 0
  }

  function CutoffAt(time: Uint64): Uint64 { if time >= RETENTION_SECONDS then time - RETENTION_SECONDS else 0 }

  function Raised(cutoff: Uint64, time: Uint64): Uint64 { if CutoffAt(time) > cutoff then CutoffAt(time) else cutoff }

  class Syncer {
    const cfg: AuthSync.Config
    const confirmations: Uint64
    const codec: Codec
    const decode: ChannelDecoding.Decoder
    const process: Node.Process
    const store: Store.Database
    const lookups: AuthSync.Lookups
    ghost const history: seq<Log>
    ghost const chain: Chain

    /** A loop over a store that any earlier loop, or none, has left behind. */
    constructor (cfg: AuthSync.Config, confirmations: Uint64, codec: Codec, decode: ChannelDecoding.Decoder,
                 process: Node.Process, ghost history: seq<Log>, ghost chain: Chain)
      requires process.Valid()
      requires var inbox := L1Inbox(cfg, codec, decode, history, chain);
        inbox.Sensible() && inbox.Holds(process.State())
      ensures Valid() && this.process == process && fresh(lookups)
      ensures Inbox() == L1Inbox(cfg, codec, decode, history, chain) && this.confirmations == confirmations
      ensures store == process.store
    {
      this.cfg, this.confirmations, this.codec, this.decode := cfg, confirmations, codec, decode;
      this.process, this.store, this.history, this.chain := process, process.store, history, chain;
      lookups := new AuthSync.Lookups(cfg, history);
    }

    /** What this loop is to make of the chain. */
    ghost function Inbox(): L1Inbox { L1Inbox(cfg, codec, decode, history, chain) }

    // -------------------------------------------------------------- what every step keeps

    ghost predicate Settings() {
      store == process.store && lookups.cfg == cfg && lookups.history == history && Inbox().Sensible()
    }

    ghost predicate Valid()
      reads this, lookups, process, process.status, process.store, store
    {
      Settings() && process.Valid() && lookups.Valid() && Inbox().Holds(process.State())
    }

    ghost predicate Honest(p: Provider) {
      && AuthSync.Honest(cfg, history, p.lookups.logs)
      && (forall b: Uint64 :: p.blocks(b).Some? ==> p.blocks(b).value == chain.blocks(b))
      && TrueView(chain, p.view)
      && NoRival(p.early) && NoRival(p.late)
    }

    /** What this loop does: it leaves the deposits alone, and its commits progress and carry what the chain demands. */
    ghost predicate Own(e: RunSafety.Event) {
      RunSafety.LeavesDeposits(e) && RunSafety.Progresses(e) && Inbox().Good(e)
    }

    /** Since the mark the process's run has only been extended, by this loop and by the other actors. */
    ghost predicate Logged(m: Node.Mark, p: Provider)
      reads process
    {
      && process.Since(m)
      && forall k :: |m.log| <= k < |process.log| ==>
        process.log[k] in p.early || process.log[k] in p.late || Own(process.log[k])
    }

    lemma Progressing(m: Node.Mark, p: Provider)
      requires Logged(m, p)
      ensures RunSafety.AllProgress(m.log) && RunSafety.AllProgress(p.early) && RunSafety.AllProgress(p.late) ==>
                RunSafety.AllProgress(process.log)
    {
      hide RunSafety.Progresses, L1Inbox.Good;
      if RunSafety.AllProgress(m.log) && RunSafety.AllProgress(p.early) && RunSafety.AllProgress(p.late) {
        forall k | 0 <= k < |process.log| ensures RunSafety.Progresses(process.log[k]) {
          if k < |m.log| {
            assert process.log[k] == m.log[k];
          }
        }
      }
    }

    /** What the invariant offers every step. */
    lemma Facts()
      requires Valid()
      ensures Settings() && store == process.store && lookups.cfg == cfg && lookups.history == history
      ensures cfg.batchSize >= 1 && cfg.inboxStart <= From()
      ensures process.Since(process.Now()) && forall p :: Logged(process.Now(), p)
      ensures RetainedSet.Valid(store.retained) && Within(store.retained, store.blob.state.cutoff)
      ensures store.blob.txs == store.retained.txs && RecordsTrue(chain, store.retained.txs)
      ensures RetainedSet.Commit(store.retained, [], [], store.blob.state.cutoff) == Some(store.retained)
    {
      hide RunSafety.IsRun, RunSafety.Inv, RetainedSet.Valid, AuthSync.Lookups.Valid, Faithful,
           RecordsTrue, L1Inbox.CheckpointValid, L1Inbox.Gathered, RetainedSet.Commit, Within, Stamps,
           PublishedFramesValid;
      process.Ends();
      NothingExpires(store.retained, store.blob.state.cutoff);
    }

    // -------------------------------------------------------------- commits

    /** What the other actors do, then a guarded commit on the step's snapshot. */
    method Commit(e: RunSafety.Event, others: seq<RunSafety.Event>, ghost m: Node.Mark, ghost p: Provider)
      returns (r: Node.Attempt)
      requires Valid() && NoRival(others) && Logged(m, p) && others in {p.early, p.late}
      requires (e.CommitRetention? || e.CommitScan?) && e.snapshot == store.blob.state && Own(e)
      modifies process, process.status, store
      ensures Valid() && Logged(m, p)
      ensures r == Node.Committed ==> Put(store, e, old(store.retained), old(store.everChannels))
      ensures r != Node.Committed ==>
        && store.blob.state == old(store.blob.state) && store.retained == old(store.retained)
        && store.everChannels == old(store.everChannels)
      ensures r == Node.Cancelled ==> !e.alive
      ensures r == Node.Refused ==> store.closed || Refusable(e, old(store.retained))
      ensures RunSafety.AllPeaceful(others) && e.alive && old(process.status.fatal).None? ==>
        r in {Node.Committed, Node.Refused} && process.status.fatal.None? && store.closed == old(store.closed)
    {
      hide RetainedSet.Commit, Node.Process.Valid, RunSafety.AllPeaceful, L1Inbox.Sensible, L1Inbox.Holds,
           AuthSync.Lookups.Valid, L1Inbox.Good;
      process.Ends();
      ghost var mine := process.log;
      r := Guarded(process, e, others);
      process.Ends();
      forall k | |mine| <= k < |process.log| ensures Inbox().Good(process.log[k]) {
        if k < |mine + others| {
          assert process.log[k] == others[k - |mine|];
          OthersGood(others, k - |mine|);
        } else {
          assert process.log[k] == e;
        }
      }
      RunHolds(Inbox(), process.trace, process.log, |mine|, |process.log|);
    }

    /** Nobody else writes Blob records. */
    lemma OthersGood(others: seq<RunSafety.Event>, i: nat)
      requires NoRival(others) && i < |others|
      ensures Inbox().Good(others[i])
    {
      assert others[i] in others;
    }

    // -------------------------------------------------------------- what a window contributes

    function ContextOf(p: Provider, a: Retained, cutoff: Uint64): Context { Context(p.view, a.txs, cutoff, decode) }

    function Rules(): WindowScan.Rules { WindowScan.Rules(cfg.registry, cfg.fallbacks) }

    /** The first block of the next window. */
    function From(): nat
      reads store
    {
      FromOf(cfg, store.blob.state.height)
    }

    /** The last one, at most a batch later. */
    function EndOf(height: Option<Uint64>, target: Uint64): Uint64
      requires cfg.batchSize >= 1
    {
      var from := FromOf(cfg, height);
      if from < target && target - from >= cfg.batchSize then from + cfg.batchSize - 1 else target
    }

    function Fetched(p: Provider, from: Uint64, end: Uint64): (blocks: seq<Option<seq<L1Tx>>>)
      requires from <= end
      ensures |blocks| == end - from + 1
    {
      seq(end - from + 1, i requires 0 <= i < end - from + 1 => p.blocks(from + i))
    }

    /** The contributions of the next window's transactions, in chain order. */
    ghost function NextWindow(p: Provider, target: Uint64): Answer<seq<BlobChannel>>
      requires cfg.batchSize >= 1 && From() <= target
      reads store
    {
      WindowOf(p, store.blob.state.height, store.blob.state.cutoff, store.retained, target)
    }

    ghost function WindowOf(p: Provider, height: Option<Uint64>, cutoff: Uint64, a: Retained, target: Uint64)
      : Answer<seq<BlobChannel>>
      requires cfg.batchSize >= 1 && FromOf(cfg, height) <= target
    {
      var blocks := Fetched(p, FromOf(cfg, height), EndOf(height, target));
      InWindow(ContextOf(p, a, cutoff), history, Rules(), FromOf(cfg, height), blocks, |blocks|)
    }

    /** The transactions a scan collects say what L1 says. */
    lemma CollectedTrue(p: Provider, a: Retained, cutoff: Uint64, result: ScanResult)
      requires Honest(p) && result.Valid(a, p.view, cutoff)
      ensures forall tx :: tx in result.txs ==> TrueRecord(chain, tx)
    {
      hide AuthSync.Honest, NoRival, Acceptable, ValidFrames;
      forall tx | tx in result.txs ensures TrueRecord(chain, tx) {
        assert Content(p.view, a.txs, tx.hash, cutoff) == Some(tx);
      }
    }

    // -------------------------------------------------------------- retention

    /** Every request is answered, nobody else stops the process, and the step is still wanted. */
    ghost predicate Answered(p: Provider) {
      && AuthSync.Responsive(p.lookups) && p.tip.Some? && p.alive && (forall b: Uint64 :: p.blocks(b).Some?)
      && RunSafety.AllPeaceful(p.early) && RunSafety.AllPeaceful(p.late)
    }

    method RaiseCutoff(p: Provider, cutoff: Uint64, target: Uint64, ghost m: Node.Mark) returns (r: Turn)
      requires Valid() && Honest(p) && Logged(m, p) && cutoff > store.blob.state.cutoff
      modifies process, process.status, store
      ensures Valid() && Logged(m, p) && r in {Lost, Stopped, Fatal(RetentionRefused), More}
      ensures store.blob.state.height == old(store.blob.state.height)
      ensures store.blob.state.auth == old(store.blob.state.auth)
      ensures r == Lost ==> !p.alive
      ensures RunSafety.AllPeaceful(p.early) && p.alive && old(process.status.fatal).None? ==>
        r != Stopped && process.status.fatal.None?
      ensures r == Fatal(RetentionRefused) ==>
        store.closed || store.blob.state.revision == MAX_UINT64 || !Prunable(store.retained, cutoff)
      ensures r == More ==>
        && store.blob.state.cutoff == cutoff
        && store.blob.state.retentionHeight == Some(target) && store.blob.state.retentionHash == p.hash
        && RetainedSet.Commit(old(store.retained), [], [], cutoff) == Some(store.retained)
      ensures r != More ==> store.blob.state == old(store.blob.state) && store.retained == old(store.retained)
      ensures store.everChannels == old(store.everChannels)
    {
      hide Node.Process.Valid, AuthSync.Lookups.Valid, Logged, RunSafety.AllPeaceful, Prunable, L1Inbox.Holds, Settings,
           RetainedSet.Commit;
      ghost var a := store.retained;
      var e := RunSafety.CommitRetention(store.blob.state, cutoff, target, p.hash, p.alive);
      var attempt := Commit(e, p.early, m, p);
      NothingPut(a, cutoff);
      match attempt
      case Committed =>
        assert store.everChannels == old(store.everChannels);
        return More;
      case Halted => return Stopped;
      case Cancelled => return Lost;
      case Refused => return Fatal(RetentionRefused);
    }

    /** Raises the cutoff to what the confirmed block's time demands, if that is higher, and publishes whether
        the scan has caught up. Scan checkpoint and records inside the window stay. */
    method Prepare(p: Provider, ghost m: Node.Mark) returns (r: Turn, target: Uint64)
      requires Valid() && Honest(p) && Logged(m, p)
      modifies process, process.status, store
      ensures Valid() && Logged(m, p)
      ensures r in {Lost, Stopped, Fatal(StoreClosed), Fatal(RetentionRefused), More}
      ensures store.blob.state.height == old(store.blob.state.height)
      ensures store.blob.state.auth == old(store.blob.state.auth)
      ensures r == Lost ==> !Answered(p)
      ensures Answered(p) && old(process.status.fatal).None? ==> r != Stopped && process.status.fatal.None?
      ensures r == Fatal(StoreClosed) ==> store.closed
      ensures r == Fatal(RetentionRefused) ==>
        store.closed || store.blob.state.revision == MAX_UINT64 || !Prunable(store.retained, CutoffAt(p.time))
      ensures r == More ==>
        && p.tip.Some? && target == Target(p.tip.value, confirmations)
        && store.blob.state.cutoff == Raised(old(store.blob.state.cutoff), p.time)
        && RetainedSet.Commit(old(store.retained), [], [], store.blob.state.cutoff) == Some(store.retained)
        && Aged(p.time, old(store.blob.state.cutoff), old(store.retained))
      ensures r != More ==> store.blob.state == old(store.blob.state) && store.retained == old(store.retained)
      ensures store.everChannels == old(store.everChannels)
    {
      hide Node.Process.Valid, AuthSync.Lookups.Valid, Logged, L1Inbox.Holds, RunSafety.AllPeaceful, Settings,
           RetainedSet.Commit, RetainedSet.Valid, Within, Aged, Carried;
      target := 0;
      ghost var before, a, ever := store.blob.state, store.retained, store.everChannels;
      Facts();
      if store.closed {
        return Fatal(StoreClosed), target;
      }
      var st := store.blob.state;
      if !p.lookups.headers || p.tip.None? {
        return Lost, target;
      }
      target := Target(p.tip.value, confirmations);
      var caught := st.height.Some? && st.height.value >= target;
      PublishBlob(caught, m, p);
      var cutoff := CutoffAt(p.time);
      if cutoff > st.cutoff {
        r := RaiseCutoff(p, cutoff, target, m);
        if r == More {
          MovedMeans(p, before, a, ever, []);
        }
        return;
      }
      MovedMeans(p, before, a, ever, []);
      return More, target;
    }

    method PublishBlob(ready: bool, ghost m: Node.Mark, ghost p: Provider)
      requires Valid() && Logged(m, p)
      modifies process, process.status
      ensures Valid() && Logged(m, p) && process.status.fatal == old(process.status.fatal)
      ensures process.status.blobReady == (ready && process.status.fatal.None?)
    {
      hide RunSafety.IsRun, Store.Database.Valid, L1Inbox.StoreTrue, Settings, AuthSync.Lookups.Valid, RunSafety.Inv;
      process.PublishBlob(ready);
    }

    // -------------------------------------------------------------- the state a scan starts from

    /** `decodeAuth`: the text of a committed checkpoint is always readable. */
    method DecodeAuth(raw: seq<Byte>) returns (r: Option<Auth>)
      ensures raw != [] && codec.unseal(raw).Some? && Storable(codec.unseal(raw).value) ==> r == codec.unseal(raw)
      ensures raw != [] && r.Some? ==> r == codec.unseal(raw) && Storable(r.value)
      ensures r.Some? ==>
        && ZERO_ADDRESS !in r.value.known && (r.value.manager == ZERO_ADDRESS || r.value.manager in r.value.known)
        && forall m, k: Uint64 :: m in r.value.known ==>
             && (k in r.value.known[m].batch ==> r.value.known[m].batch[k] != ZERO_ADDRESS)
             && (k in r.value.known[m].blob ==> r.value.known[m].blob[k] != ZERO_ADDRESS)
    {
      if |raw| == 0 {
        return Some(NO_AUTH);
      }
      var a := codec.unseal(raw);
      if a.None? {
        return None;
      }
      if ZERO_ADDRESS in a.value.known {
        return None;
      }
      if a.value.manager != ZERO_ADDRESS && a.value.manager !in a.value.known {
        return None;
      }
      if !NamedAuth(a.value) {
        return None;
      }
      return a;
    }

    lemma CheckpointStorable(st: BlobStore.BlobState)
      requires Inbox().CheckpointValid(st.height, st.auth) && st.height.Some?
      ensures Storable(codec.unseal(st.auth).value)
    {
      hide ScheduleOf, ManagerOf, NamedAuth;
    }

    method InitialState(p: Provider) returns (r: AuthSync.Progress<Auth>)
      requires Valid() && Honest(p)
      modifies lookups
      ensures Valid() && old(Position()) <= Position()
      ensures AuthSync.Responsive(p.lookups) ==> r != AuthSync.Lost
      ensures Sound(history, cfg.registry) ==> r != AuthSync.Invalid
      ensures r == AuthSync.Pending ==> Closer(old(Position()), old(Undone()))
      ensures Position() == old(Position()) && r.Complete? ==> Undone() == old(Undone())
      ensures r.Complete? ==>
        && Covered(r.value, Past(history, From(), 0), cfg.registry)
        && AllManagers(history, cfg.registry, r.value.known.Keys) && NamedAuth(r.value) && Position() == From()
    {
      hide Node.Process.Valid, Covered, AllManagers, NamedAuth, Past, AuthSync.Honest, L1Inbox.Holds, Sound, TrueView,
           NoRival, AuthSync.Lookups.Valid, AuthSync.Checkpoint;
      var auth := CommittedAuth();
      if auth.None? {
        return AuthSync.Invalid;
      }
      r := lookups.Initialize(p.lookups, store.blob.state.height, auth.value);
    }

    /** The committed state always reads back; before the first scan there is none. */
    method CommittedAuth() returns (r: Option<Auth>)
      requires Valid()
      ensures r.Some? && AuthSync.Checkpoint(cfg, history, store.blob.state.height, r.value)
    {
      hide Node.Process.Valid, Storable, AuthSync.Lookups.Valid, RecordsTrue, L1Inbox.Gathered, L1Inbox.Sensible;
      var st := store.blob.state;
      if st.height.None? {
        return Some(NO_AUTH);
      }
      CheckpointStorable(st);
      if |st.auth| == 0 {
        return None;
      }
      r := DecodeAuth(st.auth);
    }

    /** The next block whose events are to be applied. */
    ghost function Position(): nat
      reads lookups, store
    {
      lookups.Position(store.blob.state.height)
    }

    /** What is still to be backfilled there. */
    ghost function Undone(): nat
      reads lookups, store
    {
      lookups.Undone(Position())
    }

    ghost predicate Closer(position: nat, undone: nat)
      reads lookups, store
    {
      Position() > position || (Position() == position && Undone() < undone)
    }

    // -------------------------------------------------------------- scanning and committing one window

    /** Commits a scanned window: its transactions, the channels gathered in it and the state behind it. */
    method CommitScan(p: Provider, a: Auth, ghost result: ScanResult, txs: seq<BlobTransaction>,
                      channels: seq<BlobChannel>, end: Uint64, ghost m: Node.Mark)
      returns (r: Turn)
      requires Valid() && Honest(p) && Logged(m, p)
      requires AuthSync.Checkpoint(cfg, history, Some(end), a) && From() <= end
      requires Inbox().Gathered(From(), end + 1, store.blob.state.cutoff, set ch | ch in channels)
      requires result.Valid(store.retained, p.view, store.blob.state.cutoff) && result.txs == txs
      requires result.channels == channels
      modifies process, process.status, store
      ensures Valid() && Logged(m, p) && r in {Lost, Stopped, Fatal(ScanRefused), More}
      ensures r == Lost ==> !p.alive
      ensures store.blob.state.cutoff == old(store.blob.state.cutoff)
      ensures RunSafety.AllPeaceful(p.late) && p.alive && old(process.status.fatal).None? ==>
        r != Stopped && process.status.fatal.None?
      ensures r in {More, Fatal(ScanRefused)} ==>
        (r == More <==> !store.closed && !Refusal(old(store.blob.state), old(store.retained), txs, channels))
      ensures r == More ==>
        && store.blob.state.height == Some(end) && store.blob.state.hash == p.hash
        && Installed(old(store.blob.state.cutoff), old(store.retained), old(store.everChannels), txs, channels)
      ensures r != More ==> store.blob.state == old(store.blob.state) && store.retained == old(store.retained)
                            && store.everChannels == old(store.everChannels)
    {
      hide Node.Process.Valid, AuthSync.Lookups.Valid, Logged, RunSafety.AllPeaceful, L1Inbox.Holds, L1Inbox.Gathered,
           RetainedSet.Commit, AuthSync.Checkpoint, Prepared, Content, Clashes, Honest, TrueRecord, L1Inbox.Sensible,
           Within, RetainedSet.Valid;
      ghost var st, ra := store.blob.state, store.retained;
      Facts();
      var e := RunSafety.CommitScan(store.blob.state, end, p.hash, codec.seal(a), txs, channels, p.alive);
      assert PutTxs(ra.txs, txs, st.cutoff).Some? && (RetainedSet.Commit(ra, txs, channels, st.cutoff).None? <==>
          Clashes(Retained(PutTxs(ra.txs, txs, st.cutoff).value, ra.channels), channels, st.cutoff)) by {
        CommitIffNoConflict(ra, st.cutoff, txs, channels, result.cache);
      }
      CollectedTrue(p, ra, st.cutoff, result);
      HonestRivals(p);
      SealsBack(a);
      var attempt := Commit(e, p.late, m, p);
      match attempt
      case Committed =>
        return More;
      case Halted => return Stopped;
      case Cancelled => return Lost;
      case Refused => return Fatal(ScanRefused);
    }

    lemma SealsBack(a: Auth)
      requires Settings()
      ensures codec.unseal(codec.seal(a)) == Some(a) && codec.seal(a) != []
    {
    }

    lemma HonestRivals(p: Provider)
      requires Honest(p)
      ensures NoRival(p.early) && NoRival(p.late)
    {
    }

    /** Why a prepared scan can be refused: the revision is at its bound, or a channel conflicts. */
    ghost predicate Refusal(st: BlobStore.BlobState, a: Retained, txs: seq<BlobTransaction>, channels: seq<BlobChannel>)
    {
      || st.revision == MAX_UINT64
      || (PutTxs(a.txs, txs, st.cutoff).Some?
          && Clashes(Retained(PutTxs(a.txs, txs, st.cutoff).value, a.channels), channels, st.cutoff))
    }

    /** The store now holds the commit of exactly these transactions and channels. */
    ghost predicate Installed(cutoff: Uint64, a: Retained, ever: set<BlobChannel>, txs: seq<BlobTransaction>,
                              channels: seq<BlobChannel>)
      reads store
    {
      && RetainedSet.Commit(a, txs, channels, cutoff) == Some(store.retained)
      && store.blob.state.cutoff == cutoff && store.everChannels == ever + set ch | ch in channels
    }

    /** Scans `[from, end]`, handling every transaction as the whole history before it demands. */
    method WalkWindow(p: Provider, a: Authorization, logs: seq<Log>, from: Uint64, end: Uint64, target: Uint64)
      returns (walk: Walk, result: ScanResult)
      requires Valid() && Honest(p)
      requires from == From() && cfg.inboxStart <= from <= target && end == EndOf(store.blob.state.height, target)
      requires ScanReady(history, cfg.registry, a.State(), logs, from, end)
      requires AllManagers(history, cfg.registry, a.State().known.Keys) && NamedAuth(a.State())
      modifies a
      ensures Valid() && fresh(result) && result.Valid(store.retained, p.view, store.blob.state.cutoff)
      ensures walk != UnappliedLogs
      ensures walk == Unavailable ==> NextWindow(p, target) == Stalled
      ensures walk == BadSubmission ==> NextWindow(p, target) == Unsound
      ensures walk == BadEvent ==> !Sound(history, cfg.registry)
      ensures walk == Scanned ==>
        && NextWindow(p, target) == Got(result.channels) && AuthSync.Checkpoint(cfg, history, Some(end), a.State())
        && Inbox().Gathered(from, end + 1, store.blob.state.cutoff, set ch | ch in result.channels)
    {
      hide Node.Process.Valid, AuthSync.Lookups.Valid, L1Inbox.Holds, AuthSync.Checkpoint, Prepared, Content, Covered,
           ScanReady, Sound, AllManagers, NamedAuth, InWindow, L1Inbox.Gathered, L1Inbox.Informed, Usable, Past, Select,
           Honest, WindowOf, Settings;
      Facts();
      StoreFacts(p);
      ghost var st, ra, a0 := store.blob.state, store.retained, a.State();
      var ctx := Context(p.view, store.blob.txs, store.blob.state.cutoff, decode);
      var blocks := Fetched(p, from, end);
      WindowIs(p, st.height, st.cutoff, ra, target);
      assert ctx == ContextOf(p, ra, st.cutoff);
      result := new ScanResult();
      if Sound(history, cfg.registry) {
        ScanApplies(history, cfg.registry, a0, logs, from, end);
      }
      walk := Scan(a, history, Rules(), logs, from, end, blocks, ctx, ra, result);
      if walk == Scanned {
        assert result.channels == WindowOf(p, st.height, st.cutoff, ra, target).value;
        FetchedTrue(p, from, end);
        WindowGathers(Inbox(), ctx, from, blocks, |blocks|);
        Behind(a0, a.State(), logs, end);
      }
    }

    /** Scans a window and commits exactly what it contributes. */
    method ScanWindow(p: Provider, a: Authorization, logs: seq<Log>, from: Uint64, end: Uint64, target: Uint64,
                      ghost m: Node.Mark)
      returns (r: Turn, ghost txs: seq<BlobTransaction>)
      requires Valid() && Honest(p) && Logged(m, p)
      requires from == From() && cfg.inboxStart <= from <= target && end == EndOf(store.blob.state.height, target)
      requires ScanReady(history, cfg.registry, a.State(), logs, from, end)
      requires AllManagers(history, cfg.registry, a.State().known.Keys) && NamedAuth(a.State())
      modifies a, process, process.status, store
      ensures Valid() && Logged(m, p)
      ensures store.blob.state.cutoff == old(store.blob.state.cutoff)
      ensures r in {Lost, Stopped, Fatal(BadEvents), Fatal(BadSubmissions), Fatal(ScanRefused), More}
      ensures r == Lost ==> !p.alive || old(NextWindow(p, target)) == Stalled
      ensures RunSafety.AllPeaceful(p.late) && p.alive && old(process.status.fatal).None? ==>
        r != Stopped && process.status.fatal.None?
      ensures r == Fatal(BadEvents) ==> !Sound(history, cfg.registry)
      ensures r == Fatal(BadSubmissions) ==> old(NextWindow(p, target)) == Unsound
      ensures r == Fatal(ScanRefused) ==>
        && old(NextWindow(p, target)).Got?
        && (store.closed || Refusal(store.blob.state, store.retained, txs, old(NextWindow(p, target)).value))
      ensures r == More ==>
        && store.blob.state.height == Some(end) && old(NextWindow(p, target)).Got?
        && Installed(old(store.blob.state.cutoff), old(store.retained), old(store.everChannels), txs,
                     old(NextWindow(p, target)).value)
      ensures r != More ==> store.blob.state == old(store.blob.state) && store.retained == old(store.retained)
                            && store.everChannels == old(store.everChannels)
    {
      hide Valid, Logged, RunSafety.AllPeaceful, AuthSync.Checkpoint, ScanReady, Sound, AllManagers, NamedAuth,
           L1Inbox.Gathered, Refusal, Installed, Honest, WindowOf, ScanResult.Valid, L1Inbox.Sensible;
      txs := [];
      Facts();
      var walk, result := WalkWindow(p, a, logs, from, end, target);
      if walk != Scanned {
        return if walk == Unavailable then Lost else if walk == BadEvent then Fatal(BadEvents)
          else Fatal(BadSubmissions), txs;
      }
      txs := result.txs;
      r := CommitScan(p, a.State(), result, result.txs, result.channels, end, m);
    }

    lemma WindowIs(p: Provider, height: Option<Uint64>, cutoff: Uint64, a: Retained, target: Uint64)
      requires cfg.batchSize >= 1 && FromOf(cfg, height) <= target
      ensures var from, blocks := FromOf(cfg, height), Fetched(p, FromOf(cfg, height), EndOf(height, target));
        WindowOf(p, height, cutoff, a, target) ==
          InWindow(ContextOf(p, a, cutoff), history, Rules(), from, blocks, |blocks|)
    {
    }

    lemma FetchedTrue(p: Provider, from: Uint64, end: Uint64)
      requires Honest(p) && from <= end
      ensures Inbox().Fetched(from, Fetched(p, from, end))
    {
      hide AuthSync.Honest, TrueView, NoRival;
    }

    /** What a valid store offers a scan. */
    lemma StoreFacts(p: Provider)
      requires Settings() && Honest(p) && RetainedSet.Valid(store.retained) && RecordsTrue(chain, store.retained.txs)
      ensures Inbox().Informed(ContextOf(p, store.retained, store.blob.state.cutoff))
      ensures Usable(ContextOf(p, store.retained, store.blob.state.cutoff), store.retained)
    {
      hide AuthSync.Honest, RetainedSet.Valid, Faithful;
      TrueFrames(chain, store.retained.txs);
    }

    /** The state behind the window's last block is a checkpoint. */
    lemma Behind(a0: Auth, a: Auth, logs: seq<Log>, end: Uint64)
      requires lookups.cfg == cfg && lookups.history == history && end >= cfg.inboxStart
      requires ApplyAll(cfg.registry, a0, logs) == Some(a) && a.known.Keys == a0.known.Keys
      requires AllManagers(history, cfg.registry, a0.known.Keys) && NamedAuth(a0)
      requires Covered(a, Past(history, end + 1, 0), cfg.registry)
      ensures AuthSync.Checkpoint(cfg, history, Some(end), a)
    {
      hide Covered, ApplyAll, AllManagers, NamedAuth, Past;
      ApplyAllNamed(cfg.registry, a0, logs);
    }

    // -------------------------------------------------------------- one step

    /** One step. What it commits is exactly what the window contributes, and the stored state agrees with the
        whole history behind it; every way to fail has its cause outside; and otherwise the loop has caught up
        with the confirmed height or come strictly closer to it. */
    method Step(p: Provider) returns (r: Turn, ghost txs: seq<BlobTransaction>)
      requires Valid() && Honest(p)
      modifies lookups, process, process.status, store
      ensures Valid() && Logged(old(process.Now()), p)
      ensures r.More? || r.Caught? ==> p.tip.Some?
      ensures !r.More? && !r.Caught? ==>
        store.blob.state.height == old(store.blob.state.height) && store.blob.state.auth == old(store.blob.state.auth)
      ensures Moved(p, old(store.blob.state), old(store.retained), old(store.everChannels), txs)
      ensures r.More? || r.Caught? ==> Aged(p.time, old(store.blob.state.cutoff), old(store.retained))
      ensures store.blob.state.height != old(store.blob.state.height) ==>
        Walked(p.tip, old(store.blob.state.height), store.blob.state.height)
      ensures r == Caught ==> Reached(Target(p.tip.value, confirmations))
      ensures r == Caught ==> process.status.blobReady == process.status.fatal.None?
      ensures r == More && store.blob.state.height != old(store.blob.state.height) ==> !process.status.blobReady
      ensures r == More ==> Closer(old(Position()), old(Undone()))
      ensures r == Lost ==> !Answered(p) || Waits(p)
      ensures Answered(p) && old(process.status.fatal).None? ==> r != Stopped && process.status.fatal.None?
      ensures r.Fatal? ==> Explained(p, r.cause, txs)
    {
      hide Valid, Logged, RunSafety.AllPeaceful, ScanReady, Honest, Sound, AllManagers, NamedAuth, WindowOf, Refusal,
           Installed, Past, Covered, Prunable, AuthSync.Lookups.Undone, RetainedSet.Commit, Waits, Aged, Walked,
           RetainedSet.Valid, Within;
      ghost var st, a, ever := store.blob.state, store.retained, store.everChannels;
      ghost var m := process.Now();
      Facts();
      txs := [];
      var _, err := process.status.Snapshot();
      if err.Some? {
        return Stopped, txs;
      }
      var target;
      r, target := Prepare(p, m);
      if r != More {
        return;
      }
      var height := store.blob.state.height;
      if (height.Some? && height.value >= target) || cfg.inboxStart > target {
        PublishBlob(true, m, p);
        MovedMeans(p, st, a, ever, txs);
        return Caught, txs;
      }
      Facts();
      r, txs := Advance(p, target, m);
      assert Moved(p, st, a, ever, txs);
      MovedMeans(p, st, a, ever, txs);
    }

    /** Retention as seen from the confirmed block's time: the cutoff is the later of the old one and a week before, and
        a record that was retained stays exactly when it is not older than either. */
    ghost predicate Aged(time: Uint64, before: Uint64, a: Retained)
      reads store
    {
      && var c := if time < 604800 then 0 else time - 604800;
      && store.blob.state.cutoff == (if c > before then c else before)
      && (forall tx :: tx in a.txs.Values ==>
            (tx in store.retained.txs.Values <==> Young(before, time, tx.timestamp)))
      && (forall ch :: ch in a.channels.Values ==>
            (ch in store.retained.channels.Values <==> Young(before, time, ch.record.expiresAt)))
    }

    /** The new height ends the next window: it starts behind the old height, or at the configured start, and has a
        batch of blocks, or fewer if that reaches the confirmed height. */
    ghost predicate Walked(tip: Option<Uint64>, before: Option<Uint64>, height: Option<Uint64>) {
      && tip.Some? && height.Some?
      && var from := if before.Some? then before.value + 1 else cfg.inboxStart;
      && from <= height.value && height.value - from < cfg.batchSize
      && (height.value + confirmations <= tip.value || height.value == 0)
      && (height.value - from + 1 == cfg.batchSize || height.value + confirmations == tip.value || height.value == 0)
    }

    lemma MovedMeans(p: Provider, st: BlobStore.BlobState, a: Retained, ever: set<BlobChannel>,
                     txs: seq<BlobTransaction>)
      requires Moved(p, st, a, ever, txs) && RetainedSet.Valid(a) && Within(a, st.cutoff)
      ensures store.blob.state.cutoff == Raised(st.cutoff, p.time) ==> Aged(p.time, st.cutoff, a)
      ensures store.blob.state.height != st.height ==> Walked(p.tip, st.height, store.blob.state.height)
    {
      hide WindowOf, RetainedSet.Commit, RetainedSet.Valid, Within;
      var cutoff := store.blob.state.cutoff;
      if cutoff == Raised(st.cutoff, p.time) {
        forall t: Uint64 ensures Young(st.cutoff, p.time, t) <==> t >= cutoff { CutoffMeans(st.cutoff, p.time, t); }
        CommitExact(a, [], [], cutoff);
        if store.blob.state.height != st.height {
          var kept := RetainedSet.Commit(a, [], [], cutoff).value;
          var window := WindowOf(p, st.height, cutoff, kept, Target(p.tip.value, confirmations)).value;
          CommitExact(kept, txs, window, cutoff);
        }
        WithinMeans(a, st.cutoff);
      }
    }

    /** Either only expired records are gone, or the next window is committed. */
    ghost predicate Moved(p: Provider, st: BlobStore.BlobState, a: Retained, ever: set<BlobChannel>,
                          txs: seq<BlobTransaction>)
      reads store
    {
      && store.blob.state.cutoff in {st.cutoff, Raised(st.cutoff, p.time)}
      && if store.blob.state.height == st.height then
           && store.everChannels == ever
           && RetainedSet.Commit(a, [], [], store.blob.state.cutoff) == Some(store.retained)
         else
           Carried(p, st, a, ever, txs)
    }

    /** So nothing is ever taken back. */
    lemma MovedClimbs(p: Provider, st: BlobStore.BlobState, a: Retained, ever: set<BlobChannel>,
                      txs: seq<BlobTransaction>)
      requires Moved(p, st, a, ever, txs)
      ensures RunSafety.Later(st.height, store.blob.state.height) && st.cutoff <= store.blob.state.cutoff
      ensures ever <= store.everChannels
    {
      hide WindowOf, RetainedSet.Commit;
    }

    /** The store carries the window behind the old checkpoint: first the cutoff was raised to what the confirmed
        block's time demands, then exactly what the window's transactions contribute under it was committed. */
    ghost predicate Carried(p: Provider, st: BlobStore.BlobState, a: Retained, ever: set<BlobChannel>,
                            txs: seq<BlobTransaction>)
      reads store
    {
      && cfg.batchSize >= 1 && p.tip.Some? && FromOf(cfg, st.height) <= Target(p.tip.value, confirmations)
      && var cutoff, target := Raised(st.cutoff, p.time), Target(p.tip.value, confirmations);
      && var kept := RetainedSet.Commit(a, [], [], cutoff);
      && kept.Some? && store.blob.state.height == Some(EndOf(st.height, target))
      && var window := WindowOf(p, st.height, cutoff, kept.value, target);
         window.Got? && Installed(cutoff, kept.value, ever, txs, window.value)
    }

    /** The next window up to the confirmed `target`. */
    method Advance(p: Provider, target: Uint64, ghost m: Node.Mark) returns (r: Turn, ghost txs: seq<BlobTransaction>)
      requires Valid() && Honest(p) && Logged(m, p) && p.tip.Some? && target == Target(p.tip.value, confirmations)
      requires !Reached(target) && cfg.batchSize >= 1 && cfg.inboxStart <= From() <= target
      modifies lookups, process, process.status, store
      ensures Valid() && Logged(m, p)
      ensures store.blob.state.cutoff == old(store.blob.state.cutoff)
      ensures r == Caught ==> Reached(target)
      ensures r == Caught ==> process.status.blobReady == process.status.fatal.None?
      ensures r == More && store.blob.state.height != old(store.blob.state.height) ==> !process.status.blobReady
      ensures r == More ==> Closer(old(Position()), old(Undone()))
      ensures r == Lost ==> !Answered(p) || Waits(p)
      ensures Answered(p) && old(process.status.fatal).None? ==> r != Stopped && process.status.fatal.None?
      ensures r.Fatal? ==> Explained(p, r.cause, txs)
      ensures !r.More? && !r.Caught? ==>
        store.blob.state == old(store.blob.state) && store.retained == old(store.retained)
      ensures store.blob.state.height == old(store.blob.state.height) ==>
        && store.blob.state == old(store.blob.state) && store.retained == old(store.retained)
        && store.everChannels == old(store.everChannels)
      ensures store.blob.state.height != old(store.blob.state.height) ==>
        && store.blob.state.height == Some(EndOf(old(store.blob.state.height), target))
        && old(NextWindow(p, target)).Got?
        && Installed(old(store.blob.state.cutoff), old(store.retained), old(store.everChannels), txs,
                     old(NextWindow(p, target)).value)
    {
      hide Valid, Logged, RunSafety.AllPeaceful, ScanReady, Honest, Sound, AllManagers, NamedAuth, WindowOf, Refusal,
           Installed, Past, Covered, Prunable, AuthSync.Lookups.Undone;
      txs := [];
      var initial := InitialState(p);
      if !initial.Complete? {
        return if initial.Lost? then Lost else if initial.Pending? then More else Fatal(BadEvents), txs;
      }
      var from, end := From(), EndOf(store.blob.state.height, target);
      if !p.lookups.headers {
        return Lost, txs;
      }
      var a := new Authorization(initial.value);
      var logs := WindowLogs(p, a, from, end);
      if !logs.Complete? {
        return if logs.Lost? then Lost else if logs.Pending? then More else Fatal(BadEvents), txs;
      }
      r, txs := ScanWindow(p, a, logs.value, from, end, target, m);
      if r == More {
        Forget(m, p);
        PublishBlob(end == target, m, p);
        r := if end == target then Caught else More;
      }
    }

    /** The window's authorization logs, with every manager of the window discovered. */
    method WindowLogs(p: Provider, a: Authorization, from: Uint64, end: Uint64) returns (r: AuthSync.Progress<seq<Log>>)
      requires Valid() && Honest(p) && from == Position() && from <= end < from + cfg.batchSize
      requires Covered(a.State(), Past(history, from, 0), cfg.registry)
      requires AllManagers(history, cfg.registry, a.State().known.Keys) && NamedAuth(a.State())
      modifies lookups, a
      ensures Valid() && Position() == old(Position())
      ensures AuthSync.Responsive(p.lookups) ==> r != AuthSync.Lost
      ensures Sound(history, cfg.registry) ==> r != AuthSync.Invalid
      ensures r == AuthSync.Pending ==> Undone() < old(Undone())
      ensures r.Complete? ==>
        && ScanReady(history, cfg.registry, a.State(), r.value, from, end)
        && AllManagers(history, cfg.registry, a.State().known.Keys) && NamedAuth(a.State())
    {
      hide Node.Process.Valid, Covered, AllManagers, NamedAuth, Past, AuthSync.Honest, L1Inbox.Holds, Sound, TrueView,
           NoRival, ScanReady, AuthSync.Lookups.Undone;
      r := lookups.AuthLogs(p.lookups, a, from, end);
    }

    /** After a committed scan the progress in memory is dropped. */
    method Forget(ghost m: Node.Mark, ghost p: Provider)
      requires Valid() && Logged(m, p)
      modifies lookups
      ensures Valid() && Logged(m, p) && lookups.bootstrap.None?
    {
      hide Node.Process.Valid, L1Inbox.Holds;
      lookups.Forget();
    }

    /** The committed height, or the configured start, is at or beyond `goal`. */
    ghost predicate Reached(goal: Uint64)
      reads store
    {
      (store.blob.state.height.Some? && store.blob.state.height.value >= goal) || cfg.inboxStart > goal
    }

    /** A transaction of the next window names a reference that L1 does not have, or the beacon is silent. */
    ghost predicate Waits(p: Provider)
      reads store
    {
      && cfg.batchSize >= 1 && p.tip.Some? && From() <= Target(p.tip.value, confirmations)
      && NextWindow(p, Target(p.tip.value, confirmations)) == Stalled
    }

    /** What is wrong with the chain or the store when a step is fatal. */
    ghost predicate Explained(p: Provider, cause: Cause, txs: seq<BlobTransaction>)
      reads store
    {
      match cause
      case BadEvents => !Sound(history, cfg.registry)
      case BadSubmissions =>
        && cfg.batchSize >= 1 && p.tip.Some? && From() <= Target(p.tip.value, confirmations)
        && NextWindow(p, Target(p.tip.value, confirmations)) == Unsound
      case RetentionRefused =>
        store.closed || store.blob.state.revision == MAX_UINT64 || !Prunable(store.retained, CutoffAt(p.time))
      case ScanRefused =>
        store.closed ||
        (&& cfg.batchSize >= 1 && p.tip.Some? && From() <= Target(p.tip.value, confirmations)
         && var g := NextWindow(p, Target(p.tip.value, confirmations));
            g.Got? && Refusal(store.blob.state, store.retained, txs, g.value))
      case StoreClosed => store.closed
    }

    // -------------------------------------------------------------- arrival

    ghost predicate BeaconSpeaks(p: Provider) { forall h :: p.view.beacon(h) != Silent }

    /** Everything a submission could need is answered: receipts, references and beacon. */
    ghost predicate Complete(p: Provider) {
      && BeaconSpeaks(p)
      && (forall b: Uint64, i: nat :: i < |chain.blocks(b)| ==> TxAnswered(p, chain.blocks(b)[i]))
    }

    ghost predicate TxAnswered(p: Provider, tx: L1Tx) {
      && p.view.receipts(tx.hash)
      && (tx.commitment.Some? ==> forall h :: h in tx.commitment.value.hashes ==> p.view.sources(h).Some?)
    }

    lemma ResolveNeverStalls(p: Provider, stored: map<Hash, BlobTransaction>, hash: Hash, who: Committer,
                             cutoff: Uint64)
      requires BeaconSpeaks(p) && p.view.sources(hash).Some?
      ensures Resolve(p.view, stored, hash, who, cutoff) != Stalled
    {
      hide Authorizes;
      assert p.view.beacon(hash) != Silent;
    }

    lemma {:induction false} SourcesNeverStall(p: Provider, stored: map<Hash, BlobTransaction>, hashes: seq<Hash>,
                                               who: Committer, cutoff: Uint64)
      requires BeaconSpeaks(p) && forall i :: 0 <= i < |hashes| ==> p.view.sources(hashes[i]).Some?
      ensures SourcesOf(p.view, stored, hashes, who, cutoff) != Stalled
    {
      hide Resolve, BeaconSpeaks;
      if hashes != [] {
        SourcesNeverStall(p, stored, hashes[..|hashes| - 1], who, cutoff);
        ResolveNeverStalls(p, stored, hashes[|hashes| - 1], who, cutoff);
      }
    }

    lemma {:induction false} BlockNeverStalls(p: Provider, ctx: Context, height: Uint64, n: nat)
      requires Complete(p) && ctx.view == p.view && n <= |chain.blocks(height)|
      ensures InBlock(ctx, history, Rules(), height, chain.blocks(height), n) != Stalled
    {
      hide VerdictOf, SourcesOf, ChannelDecoding.Outcome, BeaconSpeaks;
      if n > 0 {
        BlockNeverStalls(p, ctx, height, n - 1);
        var tx, v := chain.blocks(height)[n - 1], VerdictOf(history, cfg.registry, cfg.fallbacks, height, n - 1);
        assert TxAnswered(p, tx);
        if tx.commitment.Some? {
          SourcesNeverStall(p, ctx.stored, tx.commitment.value.hashes, Committer(v.blob, height, n - 1), ctx.cutoff);
        }
      }
    }

    lemma {:induction false} WindowNeverStalls(p: Provider, ctx: Context, from: Uint64, end: Uint64, k: nat)
      requires Complete(p) && Honest(p) && ctx.view == p.view && from <= end && k <= end - from + 1
      requires forall b: Uint64 :: p.blocks(b).Some?
      ensures InWindow(ctx, history, Rules(), from, Fetched(p, from, end), k) != Stalled
    {
      hide InBlock, Complete, TrueView, AuthSync.Honest, NoRival;
      if k > 0 {
        WindowNeverStalls(p, ctx, from, end, k - 1);
        var height: Uint64 := from + k - 1;
        assert Fetched(p, from, end)[k - 1] == p.blocks(height);
        BlockNeverStalls(p, ctx, height, |chain.blocks(height)|);
      }
    }

    /** With everything answered no window waits. */
    lemma NeverWaits(p: Provider)
      requires Complete(p) && Honest(p) && forall b: Uint64 :: p.blocks(b).Some?
      ensures !Waits(p)
    {
      hide InWindow, Complete, Honest;
      if Waits(p) {
        var st, target := store.blob.state, Target(p.tip.value, confirmations);
        var from, end := From(), EndOf(st.height, target);
        WindowNeverStalls(p, ContextOf(p, store.retained, st.cutoff), from, end, end - from + 1);
        assert false;
      }
    }

    /** One round of the loop: a step, and what is published about its outcome. */
    method Round(p: Provider) returns (r: Turn, ghost txs: seq<BlobTransaction>)
      requires Valid() && Honest(p)
      modifies lookups, process, process.status, store
      ensures Valid() && Logged(old(process.Now()), p)
      ensures Moved(p, old(store.blob.state), old(store.retained), old(store.everChannels), txs)
      ensures r.More? || r.Caught? ==> p.tip.Some?
      ensures r == Caught ==> Reached(Target(p.tip.value, confirmations))
      ensures r == Caught ==> process.status.blobReady == process.status.fatal.None?
      ensures !r.More? && !r.Caught? ==> !process.status.blobReady
      ensures r == More ==> Closer(old(Position()), old(Undone()))
      ensures r == Lost ==> !Answered(p) || Waits(p)
      ensures Answered(p) && old(process.status.fatal).None? ==>
        r != Stopped && (r.More? || r.Caught? ==> process.status.fatal.None?)
      ensures r.Stopped? || r.Fatal? ==> process.status.fatal.Some?
      ensures r.Fatal? ==> Explained(p, r.cause, txs)
    {
      hide Valid, Honest, Logged, Explained, Waits, Moved, AuthSync.Lookups.Undone, Answered;
      ghost var m := process.Now();
      r, txs := Step(p);
      if r != More && r != Caught {
        PublishBlob(false, m, p);
        if r != Lost {
          Report(m, p);
        }
      }
    }

    /** A fatal error of this loop is published for everybody. */
    method Report(ghost m: Node.Mark, ghost p: Provider)
      requires Valid() && Logged(m, p)
      modifies process, process.status
      ensures Valid() && Logged(m, p) && process.status.fatal.Some?
      ensures process.status.blobReady == old(process.status.blobReady)
    {
      hide RunSafety.IsRun, Store.Database.Valid, L1Inbox.StoreTrue, Settings, AuthSync.Lookups.Valid, RunSafety.Inv;
      process.Publish(false, Some("synchronization integrity error"));
    }

    /** Any number of rounds against any providers, until an error is published: whatever is answered or not, the
        store stays what the chain demands, and nothing is ever taken back. */
    method Drive(providers: seq<Provider>)
      requires Valid() && forall i :: 0 <= i < |providers| ==> Honest(providers[i])
      modifies lookups, process, process.status, store
      ensures Valid() && process.Since(old(process.Now()))
      ensures RunSafety.Later(old(store.blob.state.height), store.blob.state.height)
      ensures old(store.blob.state.cutoff) <= store.blob.state.cutoff && old(store.everChannels) <= store.everChannels
      ensures RunSafety.AllProgress(old(process.log))
                && (forall i :: 0 <= i < |providers| ==>
                      RunSafety.AllProgress(providers[i].early) && RunSafety.AllProgress(providers[i].late)) ==>
                RunSafety.AllProgress(process.log)
    {
      hide Valid, Honest, Explained, Waits, Moved, AuthSync.Lookups.Undone, Answered, RunSafety.AllProgress;
      ghost var m0 := process.Now();
      Facts();
      for i := 0 to |providers|
        invariant Valid() && process.Since(m0)
        invariant RunSafety.Later(old(store.blob.state.height), store.blob.state.height)
        invariant old(store.blob.state.cutoff) <= store.blob.state.cutoff
        invariant old(store.everChannels) <= store.everChannels
        invariant RunSafety.AllProgress(old(process.log))
                    && (forall j :: 0 <= j < i ==>
                          RunSafety.AllProgress(providers[j].early) && RunSafety.AllProgress(providers[j].late)) ==>
                    RunSafety.AllProgress(process.log)
      {
        ghost var m, st, a, ever := process.Now(), store.blob.state, store.retained, store.everChannels;
        var r, txs := Round(providers[i]);
        Progressing(m, providers[i]);
        MovedClimbs(providers[i], st, a, ever, txs);
        if r.Stopped? || r.Fatal? {
          return;
        }
      }
    }

    /** The loop under providers that answer everything and have confirmed `goal`: it ends, and it ends with the
        goal reached or with a fatal error that is explained by the chain or the store. */
    method Run(providers: nat -> Provider, ghost goal: Uint64)
      returns (r: Turn, ghost last: nat, ghost txs: seq<BlobTransaction>)
      requires Valid() && process.status.fatal.None?
      requires forall i: nat :: Honest(providers(i)) && Answered(providers(i)) && Complete(providers(i))
      requires forall i: nat :: providers(i).tip.Some? && goal <= Target(providers(i).tip.value, confirmations)
      modifies lookups, process, process.status, store
      ensures Valid() && (r == Caught || r.Fatal?)
      ensures r == Caught ==> Reached(goal) && process.status.fatal.None?
      ensures r.Fatal? ==> process.status.fatal.Some? && Explained(providers(last), r.cause, txs)
    {
      hide Valid, Honest, Complete, Explained, Waits, Moved;
      var i: nat := 0;
      while true
        invariant Valid() && process.status.fatal.None?
        decreases MAX_UINT64 + 2 - Position(), Undone()
      {
        var p := providers(i);
        r, txs := Round(p);
        last := i;
        NeverWaits(p);
        if r == Caught || r.Fatal? {
          return;
        }
        i := i + 1;
      }
    }

    // -------------------------------------------------------------- what readers see

    /** Every block a reader gets is one that an authorized submission to the Inbox contributed, with the deposits
        that are stored joined into its transactions. */
    method ReadBlock(index: Option<Uint64>) returns (outcome: Store.Outcome, out: Store.BlockResponse)
      requires Valid()
      ensures out.block.Some? <==> out.batch.Some?
      ensures out.block.Some? && index.Some? ==> out.block.value.index == index.value
      ensures out.block.Some? ==> exists ch ::
        && Inbox().BroughtIn(cfg.inboxStart, From(), store.blob.state.cutoff, ch)
        && BlockOf(ch, out.block.value, out.batch.value, store.records)
    {
      hide RunSafety.IsRun, RunSafety.Inv, AuthSync.Lookups.Valid, L1Inbox.Holds, RetainedSet.Valid,
           BlobStore.Represents, L1Inbox.BroughtIn;
      outcome, out := store.GetBlock(index);
      if out.block.Some? {
        var n := if index.None? then store.blob.state.latest else index;
        process.Reached(|process.log|);
        ghost var id := store.blob.pointers[n.value];
        var _ := PublishedBrought(Inbox(), process.State(), id, n.value, outcome, out);
      }
    }
  }

  lemma NothingPut(a: Retained, cutoff: Uint64)
    ensures RetainedSet.Commit(a, [], [], cutoff).Some? <==> Prunable(a, cutoff)
  {
    assert Retained(a.txs, a.channels) == a;
  }

  /** Other actors act, and then a Blob commit gets its turn. */
  method Guarded(process: Node.Process, e: RunSafety.Event, others: seq<RunSafety.Event>) returns (r: Node.Attempt)
    requires process.Valid() && NoRival(others)
    requires (e.CommitRetention? || e.CommitScan?) && e.snapshot == process.store.blob.state
    modifies process, process.status, process.store
    ensures process.Valid() && process.log == old(process.log) + others + [e] && old(process.trace) <= process.trace
    ensures r == Node.Committed ==>
      e.alive && Put(process.store, e, old(process.store.retained), old(process.store.everChannels))
    ensures r != Node.Committed ==>
      && process.store.blob.state == old(process.store.blob.state)
      && process.store.retained == old(process.store.retained)
      && process.store.everChannels == old(process.store.everChannels)
    ensures r == Node.Cancelled ==> !e.alive
    ensures r == Node.Refused ==> process.store.closed || Refusable(e, old(process.store.retained))
    ensures RunSafety.AllPeaceful(others) && e.alive && old(process.status.fatal).None? ==>
      r in {Node.Committed, Node.Refused} && process.status.fatal.None?
        && process.store.closed == old(process.store.closed)
  {
    hide RetainedSet.Commit, Store.Database.Valid, RunSafety.AllPeaceful, RunSafety.LatestOf, RunSafety.DepositsCommit,
         RunSafety.Inv, RunSafety.IsRun;
    process.Interleave(others);
    r := process.CommitBlob(e);
  }

  /** The commit went through: exactly its batch is added under its cutoff. */
  ghost predicate Put(store: Store.Database, e: RunSafety.Event, a: Retained, ever: set<BlobChannel>)
    requires e.CommitRetention? || e.CommitScan?
    reads store
  {
    && RetainedSet.Commit(a, RunSafety.NewTxs(e), RunSafety.NewChannels(e), RunSafety.BlobAfter(e).cutoff) ==
      Some(store.retained)
    && e.snapshot.revision < MAX_UINT64 && !store.closed
    && store.blob.state ==
      RunSafety.BlobAfter(e).(revision := e.snapshot.revision + 1, latest := store.blob.state.latest)
    && store.everChannels == ever + set ch | ch in RunSafety.NewChannels(e)
  }

  /** Why the store itself may refuse a commit on a current snapshot. */
  ghost predicate Refusable(e: RunSafety.Event, a: Retained)
    requires e.CommitRetention? || e.CommitScan?
  {
    || e.snapshot.revision == MAX_UINT64 || RunSafety.BlobAfter(e).cutoff < e.snapshot.cutoff
    || RetainedSet.Commit(a, RunSafety.NewTxs(e), RunSafety.NewChannels(e), RunSafety.BlobAfter(e).cutoff).None?
  }

  /** Not before the old cutoff, and at most a week before `time`. */
  predicate Young(before: Uint64, time: Uint64, t: Uint64) { t >= before && time <= t + 604800 }

  lemma CutoffMeans(before: Uint64, time: Uint64, t: Uint64)
    ensures Young(before, time, t) <==> t >= Raised(before, time)
  {
  }

  lemma WithinMeans(a: Retained, cutoff: Uint64)
    requires Within(a, cutoff)
    ensures forall tx :: tx in a.txs.Values ==> tx.timestamp >= cutoff
    ensures forall ch :: ch in a.channels.Values ==> ch.record.expiresAt >= cutoff
  {
  }

  lemma NothingExpires(a: Retained, cutoff: Uint64)
    requires Within(a, cutoff)
    ensures RetainedSet.Commit(a, [], [], cutoff) == Some(a)
  {
    assert Retained(a.txs, a.channels) == a && Retain(a, cutoff) == a;
  }
}
