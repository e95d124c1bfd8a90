/** The deposit scanner: windows, retries, backward discovery of the first contract address, and
    queries that name only the addresses it believes relevant. */
module DepositSync {
  import opened Prelude
  import opened StoreTypes
  import opened DepositQueue
  import opened ChainLogs
  import opened DepositMeaning
  import opened DepositReplay
  import opened Store
  import RetainedSet
  import Node
  import RunSafety

  datatype Query =
    | ChangeQuery(from: Uint64, end: Uint64)
    | EnqueueQuery(from: Uint64, end: Uint64, addresses: set<Address>)

  predicate Matches(cfg: Config, q: Query, l: Log) {
    match q
    case ChangeQuery(from, end) => Changes(cfg, from, end)(l)
    case EnqueueQuery(from, end, addresses) => IsEnqueue(l) && from <= l.block <= end && l.address in addresses
  }

  /** What the provider answers to log queries during one step: nothing (a transient failure), or the
      matching logs of the chain in any order, with any repetition. */
  type Reply = Query -> Option<seq<Log>>

  /** Everything one step sees of the outside: the tip, whether header requests are answered, the window
      end's hash, log answers, what other actors do before the commit, and whether the step is still wanted
      when it comes to commit. */
  datatype Provider = Provider(tip: Option<Uint64>, headers: bool, endHash: Hash, logs: Reply,
                               others: seq<RunSafety.Event>,
                               alive: bool)

  ghost predicate Honest(cfg: Config, h: seq<Log>, reply: Reply) {
    forall q :: reply(q).Some? ==> forall l :: l in reply(q).value <==> l in h && Matches(cfg, q, l)
  }

  ghost predicate Answers(reply: Reply) { forall q :: reply(q).Some? }

  /** Every request of the step is answered, nobody else stops the process, and the step is still wanted. */
  ghost predicate Responsive(p: Provider) {
    p.tip.Some? && p.headers && p.alive && Answers(p.logs) && RunSafety.AllPeaceful(p.others)
  }

  /** The confirmed height. */
  function Target(tip: Uint64, confirmations: Uint64): (target: Uint64)
    ensures target + confirmations == tip || (tip < confirmations && target == 0)
  {
    if tip >= confirmations then tip - confirmations else 0
  }

  /** Retry: a transient failure. Fatal: an error of this loop. Stopped: an error is already published. */
  datatype Result = Retry | Fatal | Stopped | Stepped(caught: bool)

  /** This loop is the only one to commit deposits. */
  predicate NoRival(others: seq<RunSafety.Event>) { forall e :: e in others ==> RunSafety.LeavesDeposits(e) }

  datatype Bootstrap = Bootstrap(next: Uint64, ready: bool, ctc: Address)

  datatype Discovery = NotYet | Failed | Found(ctc: Address)

  /** The queue a fold's records make, if they are gap-free. */
  function QueueOf(f: Folded): Option<Queue> { if f.Broken? then None else AppendAll(EMPTY_QUEUE, f.records) }

  /** A checkpoint is the one-shot fold of the chain up to its height, deposits included. */
  ghost predicate SyncedAt(cfg: Config, h: seq<Log>, d: DepositState, records: map<Uint64, Record>) {
    match d.height
    case None => d.ctc == ZERO_ADDRESS && Queue(records, d.latest) == EMPTY_QUEUE
    case Some(height) =>
      && cfg.start <= height
      && var f := Replay(cfg, h, height);
         f.At? && f.ctc == d.ctc && QueueOf(f) == Some(Queue(records, d.latest))
  }

  /** A checkpoint says what the chain's logs through its height say: nothing in them is faulty, the contract is the
      one named last, and exactly the deposits of the contracts in force are stored. */
  ghost predicate Exact(cfg: Config, h: seq<Log>, d: DepositState, records: map<Uint64, Record>) {
    if d.height.None? then d.ctc == ZERO_ADDRESS && records == map[]
    else
      var logs := Select(h, Through(d.height.value));
      && (forall k: nat :: !Faulty(Whole(cfg), logs, k))
      && Named(Whole(cfg), logs, d.ctc) && Stored(Whole(cfg), logs, records)
  }

  lemma SyncedExact(cfg: Config, h: seq<Log>, d: DepositState, records: map<Uint64, Record>)
    requires History(h) && SyncedAt(cfg, h, d, records)
    ensures Exact(cfg, h, d, records)
  {
    hide Replay, Select, History, Faulty, Named, DepositMeaning.Stored, RecordsOf, AppendAll;
    if d.height.Some? {
      ReplayMeans(cfg, h, d.height.value);
      QueueStored(Whole(cfg), Select(h, Through(d.height.value)), Replay(cfg, h, d.height.value).records);
    }
  }

  /** The queue that the chain's fold makes up to a checkpoint. */
  ghost function QueueThrough(cfg: Config, h: seq<Log>, height: Option<Uint64>): Option<Queue> {
    if height.None? then Some(EMPTY_QUEUE) else QueueOf(Replay(cfg, h, height.value))
  }

  /** A commit that carries exactly the next stretch of the fold. */
  ghost predicate Good(cfg: Config, h: seq<Log>, e: RunSafety.Event) {
    e.CommitDeposits? ==>
      && cfg.start <= e.height && Replay(cfg, h, e.height).At? && Replay(cfg, h, e.height).ctc == e.ctc
      && QueueThrough(cfg, h, e.before.height).Some?
      && QueueThrough(cfg, h, Some(e.height)) == AppendAll(QueueThrough(cfg, h, e.before.height).value, e.more)
  }

  lemma StepSynced(cfg: Config, h: seq<Log>, s: RunSafety.System, e: RunSafety.Event, t: RunSafety.System)
    requires SyncedAt(cfg, h, s.deposits, s.records) && RunSafety.Next(s, e, t) && Good(cfg, h, e)
    ensures SyncedAt(cfg, h, t.deposits, t.records)
  {
    hide Replay, RunSafety.BlobCommits, RetainedSet.Commit, RunSafety.LatestOf, QueueOf;
  }

  /** In any run whose deposit commits are good, whoever asks for them and whatever else happens, every checkpoint is
      the one-shot fold. */
  lemma {:induction false} RunSynced(cfg: Config, h: seq<Log>, states: seq<RunSafety.System>,
                                     events: seq<RunSafety.Event>, i: nat, j: nat)
    requires RunSafety.IsRun(states, events) && i <= j < |states|
    requires SyncedAt(cfg, h, states[i].deposits, states[i].records)
    requires forall k :: i <= k < j ==> Good(cfg, h, events[k])
    ensures SyncedAt(cfg, h, states[j].deposits, states[j].records)
    decreases j
  {
    hide RunSafety.Next, SyncedAt, Good;
    if i < j {
      RunSynced(cfg, h, states, events, i, j - 1);
      StepSynced(cfg, h, states[j - 1], events[j - 1], states[j]);
    }
  }

  class Syncer {
    const cfg: Config
    const process: Node.Process
    const store: Database
    ghost const history: seq<Log>
    var bootstrap: Option<Bootstrap>

    constructor (cfg: Config, process: Node.Process, ghost history: seq<Log>)
      ensures this.cfg == cfg && this.process == process && this.store == process.store && this.history == history
      ensures bootstrap == None
    {
      this.cfg, this.process, this.store, this.history, bootstrap := cfg, process, process.store, history, None;
    }

    /** The fixed chain: position-unique logs, none from the zero address, address changes before the
        start forming one chain from the zero address. */
    ghost predicate ChainValid() {
      && History(history) && (forall l :: l in history ==> l.address != ZERO_ADDRESS)
      && Initial(cfg, history).At? && cfg.batchSize >= 1
    }

    /** In-memory discovery progress: nothing changed after `next`, and a final address is the right one. */
    ghost predicate BootstrapValid()
      reads this
    {
      bootstrap.Some? ==>
        && 0 <= bootstrap.value.next < cfg.start
        && Select(history, Changes(cfg, bootstrap.value.next + 1, cfg.start - 1)) == []
        && (bootstrap.value.ready ==> Initial(cfg, history) == At(bootstrap.value.ctc, []))
    }

    ghost predicate Synced()
      reads store
    {
      SyncedAt(cfg, history, store.deposits, store.records)
    }

    ghost predicate Valid()
      reads this, process, process.status, process.store, store
    {
      store == process.store && process.Valid() && ChainValid() && BootstrapValid() && Synced()
    }

    // -------------------------------------------------------------- one window

    /** Address changes of the window, then deposits of the current address and every address set in it. */
    method LoadLogs(reply: Reply, ctc: Address, from: Uint64, end: Uint64)
      returns (r: Result, logs: seq<Log>, ghost asked: set<Address>)
      requires Honest(cfg, history, reply)
      ensures r == Retry || r == Fatal || r == Stepped(true)
      ensures Answers(reply) ==> r != Retry
      ensures r == Fatal ==> exists l :: l in history && Changes(cfg, from, end)(l) && l.event.BadAddressSet?
      ensures r.Stepped? ==>
        && (forall l :: l in logs <==> l in history && RelevantIn(cfg, from, end)(l) && Addressed(cfg, asked)(l))
        && (ctc == ZERO_ADDRESS || ctc in asked)
        && Covers(cfg, asked, Select(history, RelevantIn(cfg, from, end)))
    {
      asked := {};
      var changes := reply(ChangeQuery(from, end));
      if changes.None? {
        return Retry, [], asked;
      }
      var addresses: set<Address> := if ctc != ZERO_ADDRESS then {ctc} else {};
      for i := 0 to |changes.value|
        invariant ctc != ZERO_ADDRESS ==> ctc in addresses
        invariant ZERO_ADDRESS !in addresses
        invariant forall j :: 0 <= j < i ==>
          && changes.value[j].event.AddressSet?
          && (changes.value[j].event.next == ZERO_ADDRESS || changes.value[j].event.next in addresses)
      {
        var l := changes.value[i];
        assert l in changes.value;
        if l.event.BadAddressSet? {
          return Fatal, [], asked;
        }
        if l.event.next != ZERO_ADDRESS {
          addresses := addresses + {l.event.next};
        }
      }
      asked := addresses;
      forall l | l in Select(history, RelevantIn(cfg, from, end)) && IsChange(cfg, l) && l.event.AddressSet?
        ensures l.event.next == ZERO_ADDRESS || l.event.next in asked
      {
        assert l in changes.value;
        var j :| 0 <= j < |changes.value| && changes.value[j] == l;
      }
      if addresses == {} {
        return Stepped(true), changes.value, asked;
      }
      var enqueues := reply(EnqueueQuery(from, end, addresses));
      if enqueues.None? {
        return Retry, [], asked;
      }
      return Stepped(true), changes.value + enqueues.value, asked;
    }

    /** Sorts, drops repeats and folds; a repeat that differs would be fatal, but a chain has none. */
    method DecodeLogs(logs: seq<Log>, ctc: Address) returns (f: Folded)
      requires History(history) && forall l :: l in logs ==> l in history
      ensures f == Fold(cfg, At(ctc, []), Dedup(SortLogs(logs)))
      ensures DecodedAs(ctc, logs, f)
    {
      hide SortLogs, Dedup, Apply, Fold, History, DecodedAs;
      DecodedMeans(ctc, logs);
      var sorted := SortLogs(logs);
      f := At(ctc, []);
      FoldNone(cfg, f);
      var seen: map<(Uint64, nat), Log> := map[];
      for i := 0 to |sorted|
        invariant f == Fold(cfg, At(ctc, []), Dedup(sorted[..i]))
        invariant forall l :: l in sorted[..i] ==> (l.block, l.index) in seen
        invariant forall id :: id in seen ==> seen[id] in sorted[..i] && (seen[id].block, seen[id].index) == id
      {
        var l := sorted[i];
        assert sorted[..i + 1] == sorted[..i] + [l] && l in sorted && sorted == sorted[..i + 1] + sorted[i + 1..];
        FoldStep(cfg, At(ctc, []), sorted[..i], l);
        if (l.block, l.index) in seen {
          assert seen[(l.block, l.index)] in sorted;
          PositionTells(history, seen[(l.block, l.index)], l);
          if seen[(l.block, l.index)] != l {
            return Broken;
          }
          continue;
        }
        assert l !in sorted[..i];
        seen := seen[(l.block, l.index) := l];
        f := Apply(cfg, f, l);
        if f.Broken? {
          DedupBroken(cfg, At(ctc, []), sorted, i + 1);
          return Broken;
        }
      }
      assert sorted[..|sorted|] == sorted;
    }

    /** The contract and the deposits that these logs say, in chain order and each log once. */
    ghost predicate DecodedAs(ctc: Address, logs: seq<Log>, f: Folded) {
      (forall l :: l in logs ==> Relevant(cfg, l)) ==> Means(Scope(cfg, 0, ctc), Dedup(SortLogs(logs)), f)
    }

    lemma DecodedMeans(ctc: Address, logs: seq<Log>)
      requires History(history) && forall l :: l in logs ==> l in history
      ensures DecodedAs(ctc, logs, Fold(cfg, At(ctc, []), Dedup(SortLogs(logs))))
    {
      hide SortLogs, Dedup, Fold, History, Means, Relevant;
      if forall l :: l in logs ==> Relevant(cfg, l) {
        WindowMeans(cfg, ctc, Dedup(SortLogs(logs)), 0);
      }
    }

    /** The window's logs fold to what all relevant logs of the window fold to. */
    lemma WindowFold(logs: seq<Log>, asked: set<Address>, ctc: Address, from: Uint64, end: Uint64)
      requires ChainValid()
      requires forall l :: l in logs <==> l in history && RelevantIn(cfg, from, end)(l) && Addressed(cfg, asked)(l)
      requires (ctc == ZERO_ADDRESS || ctc in asked) && Covers(cfg, asked, Select(history, RelevantIn(cfg, from, end)))
      ensures Fold(cfg, At(ctc, []), Dedup(SortLogs(logs))) ==
              Fold(cfg, At(ctc, []), Select(history, RelevantIn(cfg, from, end)))
    {
      var both := (l: Log) => RelevantIn(cfg, from, end)(l) && Addressed(cfg, asked)(l);
      SortedAnswer(history, both, logs);
      SelectSelect(history, RelevantIn(cfg, from, end), Addressed(cfg, asked), both);
      AddressedFold(cfg, asked, At(ctc, []), Select(history, RelevantIn(cfg, from, end)));
    }

    // -------------------------------------------------------------- the first contract address

    /** What is left of the backward search; 0 when the address is known. */
    ghost function Remaining(): nat
      reads this
    {
      if bootstrap.None? then cfg.start + 1
      else if bootstrap.value.ready then 0
      else bootstrap.value.next + 1
    }

    method DecodePage(page: seq<Log>, from: Uint64, end: Uint64) returns (f: Folded)
      requires ChainValid() && forall l :: l in page <==> l in history && Changes(cfg, from, end)(l)
      ensures f == PageResult(cfg, from, Select(history, Changes(cfg, from, end)))
    {
      hide Fold, Dedup, SortLogs, Select, History;
      SortedAnswer(history, Changes(cfg, from, end), page);
      if |page| == 0 {
        NothingSorted();
        return At(ZERO_ADDRESS, []);
      }
      var sorted := SortLogs(page);
      assert page[0] in sorted;
      FirstKept(sorted);
      assert sorted[0] in sorted;
      var first := sorted[0];
      if !first.event.AddressSet? {
        return Broken;
      }
      var initial := first.event.prev;
      if from == 0 {
        initial := ZERO_ADDRESS;
      }
      f := DecodeLogs(page, initial);
    }

    /** One page of the backward search; with every request answered it ends or gets closer to the end. */
    method Discover(p: Provider) returns (d: Discovery)
      requires Valid() && Honest(cfg, history, p.logs) && cfg.start > 0 && store.deposits.height.None?
      modifies this`bootstrap
      ensures Valid() && Remaining() <= old(Remaining())
      ensures d != Failed
      ensures d.Found? ==> Initial(cfg, history) == At(d.ctc, [])
      ensures p.headers && Answers(p.logs) && d == NotYet ==> Remaining() < old(Remaining())
    {
      hide Fold, Select, History, PageResult, Node.Process.Valid, Synced;
      if bootstrap.None? {
        if !p.headers {
          return NotYet;
        }
        SelectNone(history, Changes(cfg, cfg.start, cfg.start - 1));
        bootstrap := Some(Bootstrap(cfg.start - 1, false, ZERO_ADDRESS));
      }
      if !p.headers {
        return NotYet;
      }
      var b := bootstrap.value;
      if b.ready {
        return Found(b.ctc);
      }
      var from: Uint64 := 0;
      if b.next >= cfg.batchSize {
        from := b.next - cfg.batchSize + 1;
      }
      var page := p.logs(ChangeQuery(from, b.next));
      if page.None? {
        return NotYet;
      }
      ghost var selected := Select(history, Changes(cfg, from, b.next));
      assert forall l :: l in page.value <==> l in selected;
      var f := DecodePage(page.value, from, b.next);
      if |page.value| == 0 && from > 0 {
        SelectNone(history, Changes(cfg, from, b.next));
        NothingLater(cfg, history, from, b.next);
        bootstrap := Some(b.(next := from - 1));
        return NotYet;
      }
      if |page.value| > 0 {
        assert page.value[0] in selected;
      }
      BackwardEqualsForward(cfg, history, from, b.next);
      if f.Broken? {
        return Failed;
      }
      ChangesKeepRecords(cfg, At(ZERO_ADDRESS, []), Select(history, Changes(cfg, 0, cfg.start - 1)));
      bootstrap := Some(b.(ready := true, ctc := f.ctc));
      return Found(f.ctc);
    }

    // -------------------------------------------------------------- one step

    /** The chain itself synchronizes through `target`: no broken fold, no gap in the queue, and an active
        contract at the tip. */
    ghost predicate Healthy(target: Uint64) {
      && (forall e: Uint64 :: cfg.start <= e <= target ==> QueueOf(Replay(cfg, history, e)).Some?)
      && Replay(cfg, history, target).At? && Replay(cfg, history, target).ctc != ZERO_ADDRESS
    }

    /** That is: no log through `target` is faulty, the deposits come in sequence, and a contract is named. */
    lemma HealthyMeans(target: Uint64)
      requires ChainValid() && cfg.start <= target
      ensures var logs := Select(history, Through(target));
        Healthy(target) <==>
          && (forall k: nat :: !Faulty(Whole(cfg), logs, k)) && !Named(Whole(cfg), logs, ZERO_ADDRESS)
          && exists rs :: RecordsOf(Whole(cfg), logs, rs) && InSequence(rs)
    {
      hide Replay, Select, History, Faulty, Named, RecordsOf, AppendAll, InSequence;
      var f := Replay(cfg, history, target);
      ReplayMeans(cfg, history, target);
      if f.At? {
        HealthyAtEnd(target);
        QueueIff(f.records);
        forall a | Named(Whole(cfg), Select(history, Through(target)), a) ensures a == f.ctc {
          NamedUnique(Whole(cfg), Select(history, Through(target)), a, f.ctc);
        }
        forall rs | RecordsOf(Whole(cfg), Select(history, Through(target)), rs) ensures rs == f.records {
          RecordsUnique(Whole(cfg), Select(history, Through(target)), rs, f.records);
        }
      }
    }

    /** What synchronizes through `target` did so through every block before. */
    lemma HealthyAtEnd(target: Uint64)
      requires History(history) && cfg.start <= target && Replay(cfg, history, target).At?
      ensures Healthy(target) <==>
        QueueOf(Replay(cfg, history, target)).Some? && Replay(cfg, history, target).ctc != ZERO_ADDRESS
    {
      hide Replay, Select, History, Fold;
      forall e: Uint64 | cfg.start <= e <= target && QueueOf(Replay(cfg, history, target)).Some?
        ensures QueueOf(Replay(cfg, history, e)).Some?
      {
        ReplayExtends(cfg, history, e, target);
        var more, f := Select(history, RelevantIn(cfg, e + 1, target)), Replay(cfg, history, e);
        FoldBroken(cfg, more);
        if f.At? {
          FoldRecords(cfg, f.ctc, f.records, more);
          AppendAllConcat(EMPTY_QUEUE, f.records, Fold(cfg, At(f.ctc, []), more).records);
        }
      }
    }

    ghost function Checkpoint(): Folded
      reads store
    {
      match store.deposits.height
      case None => Initial(cfg, history)
      case Some(height) => Replay(cfg, history, height)
    }

    /** Fetches and folds `[from, end]` on top of the current checkpoint; None when nothing is to be committed. */
    method FoldWindow(p: Provider, ctc: Address, from: Uint64, end: Uint64, target: Uint64)
      returns (r: Result, after: Folded)
      requires Valid() && Honest(cfg, history, p.logs)
      requires cfg.start <= from <= end <= target
      requires from == if store.deposits.height.None? then cfg.start else store.deposits.height.value + 1
      requires Checkpoint().At? && Checkpoint().ctc == ctc && QueueOf(Checkpoint()) == Some(store.DepositRecords())
      ensures r == Retry || r == Fatal || r == Stepped(true)
      ensures r == Fatal ==> !Healthy(target)
      ensures r.Stepped? && end == target ==> after.At? && after.ctc != ZERO_ADDRESS
      ensures Responsive(p) ==> r != Retry
      ensures r.Stepped? ==>
        && after.At? && Replay(cfg, history, end).At? && Replay(cfg, history, end).ctc == after.ctc
        && QueueOf(Replay(cfg, history, end)) == AppendAll(store.DepositRecords(), after.records)
    {
      hide Fold, Select, History, PageResult, Node.Process.Valid;
      after := Broken;
      if !p.headers {
        return Retry, after;
      }
      var loaded, logs, asked := LoadLogs(p.logs, ctc, from, end);
      ghost var window := Select(history, RelevantIn(cfg, from, end));
      ghost var before := Checkpoint();
      assert Replay(cfg, history, end) == Fold(cfg, before, window) by { CheckpointExtends(from, end); }
      FoldRecords(cfg, ctc, before.records, window);
      if loaded != Stepped(true) {
        if loaded == Fatal {
          BadChangeBreaks(cfg, history, At(ctc, []), from, end);
          assert QueueOf(Replay(cfg, history, end)).None?;
        }
        return loaded, after;
      }
      WindowFold(logs, asked, ctc, from, end);
      assert History(history);
      var decoded := DecodeLogs(logs, ctc);
      if decoded.Broken? {
        assert QueueOf(Replay(cfg, history, end)).None?;
        return Fatal, after;
      }
      if end == target && decoded.ctc == ZERO_ADDRESS {
        return Fatal, after;
      }
      AppendAllConcat(EMPTY_QUEUE, before.records, decoded.records);
      return Stepped(true), decoded;
    }

    /** Commits a folded window, whatever other actors did since the step's snapshot. */
    method CommitWindow(p: Provider, after: Folded, end: Uint64, target: Uint64, ghost m: Node.Mark)
      returns (r: Result)
      requires Valid() && Logged(m, p) && NoRival(p.others) && cfg.start <= end <= target
      requires store.deposits.height.Some? ==> store.deposits.height.value < end
      requires after.At? && Replay(cfg, history, end).At? && Replay(cfg, history, end).ctc == after.ctc
      requires QueueOf(Replay(cfg, history, end)) == AppendAll(store.DepositRecords(), after.records)
      modifies process, process.status, store
      ensures Valid() && Logged(m, p)
      ensures r.Stepped? ==> store.deposits.height == Some(end) && r.caught == (end == target)
      ensures r.Stepped? ==> store.deposits.ctc == after.ctc && store.deposits.hash == p.endHash
      ensures r.Stepped? ==> process.status.ready == (r.caught && process.status.fatal.None?)
      ensures !r.Stepped? ==> store.deposits == old(store.deposits) && store.records == old(store.records)
      ensures r == Fatal ==> !Healthy(target) || store.closed
      ensures Responsive(p) && old(process.status.fatal).None? ==>
                r != Retry && r != Stopped && process.status.fatal.None? && store.closed == old(store.closed)
    {
      hide Fold, Select, History, PageResult, Database.BlobValid, Initial, Replay, RunSafety.AllPeaceful,
           BootstrapValid, Logged, RunSafety.IsRun, RunSafety.Inv;
      var e := RunSafety.CommitDeposits(store.deposits, end, p.endHash, after.ctc, after.records, p.alive);
      var attempt := Commit(e, p, m);
      match attempt
      case Halted => return Stopped;
      case Cancelled => return Retry;
      case Refused =>
        assert store.closed || QueueOf(Replay(cfg, history, end)).None?;
        return Fatal;
      case Committed =>
        AppendAllKeeps(EMPTY_QUEUE, Replay(cfg, history, end).records);
        PublishReady(end == target, m, p);
        return Stepped(end == target);
    }

    /** What the other actors do, then a guarded commit on the step's snapshot. */
    method Commit(e: RunSafety.Event, p: Provider, ghost m: Node.Mark) returns (r: Node.Attempt)
      requires store == process.store && process.Valid() && NoRival(p.others) && Logged(m, p)
      requires e.CommitDeposits? && e.before == store.deposits && Own(e)
      modifies process, process.status, store
      ensures process.Valid() && Logged(m, p)
      ensures r == Node.Committed ==>
        && var q := AppendAll(old(store.DepositRecords()), e.more);
        && q.Some? && store.DepositRecords() == q.value
        && store.deposits == DepositState(Some(e.height), e.hash, e.ctc, q.value.latest)
      ensures r != Node.Committed ==> store.deposits == old(store.deposits) && store.records == old(store.records)
      ensures r == Node.Cancelled ==> !e.alive
      ensures r == Node.Refused ==> store.closed || AppendAll(old(store.DepositRecords()), e.more).None?
      ensures RunSafety.AllPeaceful(p.others) && e.alive && old(process.status.fatal).None? ==>
        r in {Node.Committed, Node.Refused} && process.status.fatal.None? && store.closed == old(store.closed)
    {
      hide Database.BlobValid, RunSafety.AllPeaceful, RunSafety.Inv, Good, RunSafety.BlobNext;
      process.Interleave(p.others);
      r := process.CommitDeposits(e);
    }

    /** What this loop does: it leaves the Blob records alone, and its commits progress and carry the fold. */
    ghost predicate Own(e: RunSafety.Event) {
      RunSafety.LeavesBlobs(e) && RunSafety.Progresses(e) && Good(cfg, history, e)
    }

    /** Since the mark the process's run has only been extended, by this loop and by the other actors. */
    ghost predicate Logged(m: Node.Mark, p: Provider)
      reads process
    {
      process.Since(m) && forall k :: |m.log| <= k < |process.log| ==> process.log[k] in p.others || Own(process.log[k])
    }

    lemma Progressing(m: Node.Mark, p: Provider)
      requires Logged(m, p)
      ensures RunSafety.AllProgress(m.log) && RunSafety.AllProgress(p.others) ==> RunSafety.AllProgress(process.log)
    {
      hide RunSafety.Progresses, Good;
      if RunSafety.AllProgress(m.log) && RunSafety.AllProgress(p.others) {
        forall k | 0 <= k < |process.log| ensures RunSafety.Progresses(process.log[k]) {
          if k < |m.log| {
            assert process.log[k] == m.log[k];
          }
        }
      }
    }

    lemma CheckpointExtends(from: Uint64, end: Uint64)
      requires History(history) && cfg.start <= from <= end
      requires from == if store.deposits.height.None? then cfg.start else store.deposits.height.value + 1
      ensures Replay(cfg, history, end) == Fold(cfg, Checkpoint(), Select(history, RelevantIn(cfg, from, end)))
    {
      hide Fold, Select, History;
      ReplayBeforeStart(cfg, history);
      ReplayExtends(cfg, history, from - 1, end);
    }

    /** How many steps a responsive provider needs, at most, to bring the checkpoint to `goal`. */
    ghost function Behind(goal: Uint64): nat
      reads this, store
    {
      match store.deposits.height
      case None => if cfg.start > goal then 0 else Remaining() + goal - cfg.start + 1
      case Some(height) => if height >= goal then 0 else goal - height
    }

    /** One step, under whatever the provider answers. Every checkpoint it commits is the one-shot fold of
        the chain, it is fatal only when the chain itself cannot be synchronized, and when every request is
        answered it gets closer to every confirmed height not reached yet. */
    method Step(p: Provider, confirmations: Uint64) returns (r: Result)
      requires Valid() && Honest(cfg, history, p.logs) && NoRival(p.others)
      modifies this`bootstrap, process, process.status, store
      ensures Valid() && Logged(old(process.Now()), p)
      ensures Exact(cfg, history, store.deposits, store.records)
      ensures !r.Stepped? ==> store.deposits == old(store.deposits) && store.records == old(store.records)
      ensures store.deposits.height != old(store.deposits.height) ==>
        && p.tip.Some? && store.deposits.height.Some?
        && var target, height := Target(p.tip.value, confirmations), old(store.deposits.height);
           var from := if height.Some? then height.value + 1 else cfg.start;
           && from <= target
           && store.deposits.height.value == if target - from >= cfg.batchSize then from + cfg.batchSize - 1 else target
      ensures store.deposits.height != old(store.deposits.height) ==>
        r.Stepped? && store.deposits.hash == p.endHash && (r.caught ==> store.deposits.ctc != ZERO_ADDRESS)
      ensures r.Stepped? && store.deposits.height.Some? ==>
        process.status.ready == (r.caught && process.status.fatal.None?)
      ensures r.Stepped? ==> p.tip.Some? && (r.caught <==> Reached(Target(p.tip.value, confirmations)))
      ensures r == Fatal ==> store.closed || (p.tip.Some? && !Healthy(Target(p.tip.value, confirmations)))
      ensures Responsive(p) && old(process.status.fatal).None? ==>
        && r != Stopped && process.status.fatal.None? && store.closed == old(store.closed)
        && (r != Fatal ==>
              forall goal: Uint64 :: goal <= Target(p.tip.value, confirmations) && old(Behind(goal)) > 0 ==>
              Behind(goal) < old(Behind(goal)))
    {
      hide Fold, Select, History, PageResult, Node.Process.Valid, Logged, Answers, RunSafety.AllPeaceful, Healthy,
           Replay, Initial, RunSafety.IsRun, RunSafety.Inv, Exact, QueueOf;
      forall d, records | SyncedAt(cfg, history, d, records) ensures Exact(cfg, history, d, records) {
        SyncedExact(cfg, history, d, records);
      }
      ghost var m := process.Now();
      process.Ends();
      NothingLogged(m);
      var _, err := process.status.Snapshot();
      if err.Some? {
        return Stopped;
      }
      if store.closed {
        return Fatal;
      }
      var height := store.deposits.height;
      if height.Some? && !p.headers {
        return Retry;
      }
      if p.tip.None? {
        return Retry;
      }
      var target: Uint64 := 0;
      if p.tip.value >= confirmations {
        target := p.tip.value - confirmations;
      }
      var from: Uint64 := cfg.start;
      if height.Some? {
        if height.value >= target {
          PublishReady(true, m, p);
          return Stepped(true);
        }
        from := height.value + 1;
      }
      if from > target {
        return Stepped(true);
      }
      PublishReady(false, m, p);
      var end := target;
      if target - from >= cfg.batchSize {
        end := from + cfg.batchSize - 1;
      }
      r := ScanWindow(p, from, end, target, m);
    }

    /** Finds the contract, fetches and folds the window's logs, and commits what they say. */
    method ScanWindow(p: Provider, from: Uint64, end: Uint64, target: Uint64, ghost m: Node.Mark) returns (r: Result)
      requires Valid() && Honest(cfg, history, p.logs) && NoRival(p.others) && Logged(m, p)
      requires cfg.start <= from <= end <= target
      requires from == if store.deposits.height.None? then cfg.start else store.deposits.height.value + 1
      modifies this`bootstrap, process, process.status, store
      ensures Valid() && Logged(m, p)
      ensures r.Stepped? ==> store.deposits.height == Some(end) && r.caught == (end == target)
      ensures r.Stepped? ==> store.deposits.hash == p.endHash && (r.caught ==> store.deposits.ctc != ZERO_ADDRESS)
      ensures r.Stepped? ==> process.status.ready == (r.caught && process.status.fatal.None?)
      ensures !r.Stepped? ==> store.deposits == old(store.deposits) && store.records == old(store.records)
      ensures r == Fatal ==> !Healthy(target) || store.closed
      ensures Responsive(p) && old(process.status.fatal).None? ==>
        r != Stopped && process.status.fatal.None? && store.closed == old(store.closed)
      ensures Responsive(p) && old(process.status.fatal).None? && r == Retry ==>
        store.deposits.height.None? && Remaining() < old(Remaining())
    {
      hide Fold, Select, History, PageResult, Node.Process.Valid, Logged, Answers, RunSafety.AllPeaceful, Healthy,
           Replay, Initial;
      var d := InitializeCtc(p, from, m);
      if !d.Found? {
        return Retry;
      }
      var folded, after := FoldWindow(p, d.ctc, from, end, target);
      if !folded.Stepped? {
        return folded;
      }
      r := CommitWindow(p, after, end, target, m);
    }

    /** The contract address the window starts from: the checkpoint's, or the one found by the search. */
    method InitializeCtc(p: Provider, from: Uint64, ghost m: Node.Mark) returns (d: Discovery)
      requires Valid() && Honest(cfg, history, p.logs) && Logged(m, p)
      requires from == if store.deposits.height.None? then cfg.start else store.deposits.height.value + 1
      modifies this`bootstrap, process, process.status
      ensures Valid() && Logged(m, p) && process.status.fatal == old(process.status.fatal)
      ensures d != Failed && (store.deposits.height.None? ==> Remaining() <= old(Remaining()))
      ensures d.Found? ==>
        Checkpoint().At? && Checkpoint().ctc == d.ctc && QueueOf(Checkpoint()) == Some(store.DepositRecords())
      ensures p.headers && Answers(p.logs) && d == NotYet ==>
        store.deposits.height.None? && Remaining() < old(Remaining())
    {
      hide Fold, Select, History, PageResult, Node.Process.Valid, Logged, Answers;
      FoldEmpty(cfg, At(ZERO_ADDRESS, []));
      if store.deposits.height.Some? {
        bootstrap := None;
        return Found(store.deposits.ctc);
      }
      if from == 0 {
        SelectNone(history, Changes(cfg, 0, cfg.start - 1));
        return Found(store.deposits.ctc);
      }
      PublishReady(false, m, p);
      d := Discover(p);
    }

    method PublishReady(ready: bool, ghost m: Node.Mark, ghost p: Provider)
      requires Valid() && Logged(m, p)
      modifies process, process.status
      ensures Valid() && Logged(m, p) && process.status.fatal == old(process.status.fatal)
      ensures process.status.ready == (ready && process.status.fatal.None?)
    {
      hide RunSafety.IsRun, RunSafety.Inv, Database.Valid, SyncedAt, ChainValid;
      process.Publish(ready, None);
    }

    /** Nothing is left to do up to `goal`. */
    ghost predicate Reached(goal: Uint64)
      reads store
    {
      match store.deposits.height
      case None => cfg.start > goal
      case Some(height) => height >= goal
    }

    /** Any number of steps against any providers, until an error is published: the checkpoint only moves
        forward, and enough steps with answers bring it to any confirmed height of a chain that can be
        synchronized. */
    method Run(providers: seq<Provider>, confirmations: Uint64, ghost goal: Uint64)
      requires Valid()
      requires forall i :: 0 <= i < |providers| ==>
        Honest(cfg, history, providers[i].logs) && NoRival(providers[i].others)
      modifies this`bootstrap, process, process.status, store
      ensures Valid()
      ensures old(store.deposits.height).Some? ==>
                store.deposits.height.Some? && old(store.deposits.height).value <= store.deposits.height.value
      ensures (forall i :: 0 <= i < |providers| ==> Helpful(providers[i], confirmations, goal))
                && |providers| >= old(Behind(goal)) && !old(store.closed) && old(process.status.fatal).None? ==>
                Reached(goal) && process.status.fatal.None?
      ensures RunSafety.AllProgress(old(process.log))
                && (forall i :: 0 <= i < |providers| ==> RunSafety.AllProgress(providers[i].others)) ==>
                RunSafety.AllProgress(process.log)
    {
      hide Valid, RunSafety.AllProgress, Honest, NoRival, Helpful, Behind, Reached;
      ghost var helpful := (forall i :: 0 <= i < |providers| ==> Helpful(providers[i], confirmations, goal))
                           && !store.closed && process.status.fatal.None?;
      WhenBehind(goal);
      for i := 0 to |providers|
        invariant Valid()
        invariant old(store.deposits.height).Some? ==>
                    store.deposits.height.Some? && old(store.deposits.height).value <= store.deposits.height.value
        invariant helpful ==> !store.closed && process.status.fatal.None?
        invariant helpful ==> Behind(goal) == 0 || Behind(goal) + i <= old(Behind(goal))
        invariant RunSafety.AllProgress(old(process.log))
                    && (forall j :: 0 <= j < i ==> RunSafety.AllProgress(providers[j].others)) ==>
                    RunSafety.AllProgress(process.log)
      {
        ghost var m := process.Now();
        var stop := Turn(providers[i], confirmations, goal);
        Progressing(m, providers[i]);
        if stop {
          return;
        }
      }
      WhenBehind(goal);
    }

    lemma WhenBehind(goal: Uint64)
      ensures Behind(goal) == 0 ==> Reached(goal)
    {
    }

    /** One turn of the loop: a step, and what is published about its outcome. */
    method Turn(p: Provider, confirmations: Uint64, ghost goal: Uint64) returns (stop: bool)
      requires Valid() && Honest(cfg, history, p.logs) && NoRival(p.others)
      modifies this`bootstrap, process, process.status, store
      ensures Valid()
      ensures old(store.deposits.height).Some? ==>
                store.deposits.height.Some? && old(store.deposits.height).value <= store.deposits.height.value
      ensures Helpful(p, confirmations, goal) && !old(store.closed) && old(process.status.fatal).None? ==>
        && !stop && !store.closed && process.status.fatal.None?
        && (Behind(goal) == 0 || Behind(goal) < old(Behind(goal)))
      ensures Logged(old(process.Now()), p)
      ensures stop ==> process.status.fatal.Some?
    {
      hide Valid, Logged, Honest, NoRival, Responsive, Healthy, Reached;
      ghost var m := process.Now();
      var r := Step(p, confirmations);
      var _, err := process.status.Snapshot();
      if err.Some? {
        return true;
      }
      if !r.Stepped? {
        PublishReady(false, m, p);
        if r == Fatal {
          ReportFatal(m, p);
          return true;
        }
      }
      return false;
    }

    method ReportFatal(ghost m: Node.Mark, ghost p: Provider)
      requires Valid() && Logged(m, p)
      modifies process, process.status
      ensures Valid() && Logged(m, p) && process.status.fatal.Some?
    {
      hide RunSafety.IsRun, RunSafety.Inv, Database.Valid, SyncedAt, ChainValid;
      process.Publish(false, Some("synchronization integrity error"));
    }

    lemma NothingLogged(m: Node.Mark)
      requires m == process.Now() && process.Since(m)
      ensures forall p :: Logged(m, p)
    {
    }

    /** The provider answers everything, has confirmed `goal`, and the chain synchronizes that far. */
    ghost predicate Helpful(p: Provider, confirmations: Uint64, goal: Uint64) {
      Responsive(p) && goal <= Target(p.tip.value, confirmations) && Healthy(Target(p.tip.value, confirmations))
    }
  }

  /** An empty page extends the stretch without changes down to its start. */
  lemma NothingLater(cfg: Config, h: seq<Log>, from: int, end: int)
    requires History(h) && from - 1 <= end < cfg.start
    requires Select(h, Changes(cfg, from, end)) == [] && Select(h, Changes(cfg, end + 1, cfg.start - 1)) == []
    ensures Select(h, Changes(cfg, from, cfg.start - 1)) == []
  {
    hide Select, History;
    SplitAt(h, Changes(cfg, from, cfg.start - 1), Changes(cfg, from, end), Changes(cfg, end + 1, cfg.start - 1),
            end + 1);
  }

  lemma FoldEmpty(cfg: Config, f: Folded)
    ensures Fold(cfg, f, []) == f && forall c :: QueueOf(At(c, [])) == Some(EMPTY_QUEUE)
  {
  }

  /** A change that does not decode breaks every window it is in. */
  lemma BadChangeBreaks(cfg: Config, h: seq<Log>, f: Folded, from: int, end: int)
    requires exists l :: l in h && Changes(cfg, from, end)(l) && l.event.BadAddressSet?
    ensures Fold(cfg, f, Select(h, RelevantIn(cfg, from, end))).Broken?
  {
    hide Fold, Select;
    var l :| l in h && Changes(cfg, from, end)(l) && l.event.BadAddressSet?;
    var window := Select(h, RelevantIn(cfg, from, end));
    assert l in window;
    var i :| 0 <= i < |window| && window[i] == l;
    assert window == (window[..i] + [l]) + window[i + 1..];
    BadChangeApplied(cfg, f, window[..i], l);
    FoldConcat(cfg, f, window[..i] + [l], window[i + 1..]);
    FoldBroken(cfg, window[i + 1..]);
  }

  lemma BadChangeApplied(cfg: Config, f: Folded, front: seq<Log>, l: Log)
    requires IsChange(cfg, l) && l.event.BadAddressSet?
    ensures Fold(cfg, f, front + [l]).Broken?
  {
    assert (front + [l])[..|front|] == front;
  }

  lemma NothingSorted()
    ensures Dedup(SortLogs([])) == [] && forall cfg, from :: PageResult(cfg, from, []) == At(ZERO_ADDRESS, [])
  {
  }

  lemma {:induction false} FirstKept(s: seq<Log>)
    ensures s != [] ==> Dedup(s) != [] && Dedup(s)[0] == s[0]
  {
    if |s| > 1 {
      FirstKept(s[..|s| - 1]);
    }
  }

  lemma FoldNone(cfg: Config, f: Folded)
    ensures Fold(cfg, f, Dedup([])) == f
  {
  }

  /** One more log after `done`: a repeat changes nothing, a new one is applied. */
  lemma FoldStep(cfg: Config, f: Folded, done: seq<Log>, l: Log)
    ensures var before := Fold(cfg, f, Dedup(done));
            Fold(cfg, f, Dedup(done + [l])) == if l in done then before else Apply(cfg, before, l)
  {
    assert (done + [l])[..|done|] == done;
    assert (Dedup(done) + [l])[..|Dedup(done)|] == Dedup(done);
  }

  lemma DedupBroken(cfg: Config, f: Folded, s: seq<Log>, k: nat)
    requires k <= |s| && Fold(cfg, f, Dedup(s[..k])).Broken?
    ensures Fold(cfg, f, Dedup(s)).Broken?
  {
    DedupPrefix(s, k);
    var rest := Dedup(s)[|Dedup(s[..k])|..];
    assert Dedup(s) == Dedup(s[..k]) + rest;
    FoldConcat(cfg, f, Dedup(s[..k]), rest);
    FoldBroken(cfg, rest);
  }

  lemma {:induction false} DedupPrefix(s: seq<Log>, k: nat)
    requires k <= |s|
    ensures Dedup(s[..k]) <= Dedup(s)
  {
    if k == |s| {
      assert s[..k] == s;
    } else {
      assert s[..|s| - 1][..k] == s[..k];
      DedupPrefix(s[..|s| - 1], k);
    }
  }
}
