/** The barrier both workers and the HTTP readers share, and what any interleaving of them keeps. */
module RunSafety {
  import opened Prelude
  import opened StoreTypes
  import opened DepositQueue
  import opened RetainedSet
  import opened BlobStore

  // ---------------------------------------------------------------- the shared status

  type Error = string

  /** The halt channel: not made yet, open, or closed. */
  datatype Halt = Unmade | Open | Closed

  datatype StatusState = StatusState(ready: bool, blobEnabled: bool, blobReady: bool, fatal: Option<Error>,
                                     halted: Halt) {
    ghost predicate Valid() { (fatal.Some? <==> halted == Closed) && (fatal.Some? ==> !ready) }

    function Ready(): bool { ready && (!blobEnabled || blobReady) }
  }

  const FRESH_STATUS: StatusState := StatusState(false, false, false, None, Unmade)

  /** The first error is kept and closes the channel; readiness needs that there is none. */
  function Publish(s: StatusState, ready: bool, err: Option<Error>): StatusState {
    var s' := if err.Some? && s.fatal.None? then s.(fatal := err, halted := Closed) else s;
    s'.(ready := ready && s'.fatal.None?)
  }

  class Status {
    var ready: bool
    var blobEnabled: bool
    var blobReady: bool
    var fatal: Option<Error>
    var halted: Halt

    ghost function State(): StatusState
      reads this
    {
      StatusState(ready, blobEnabled, blobReady, fatal, halted)
    }

    constructor ()
      ensures State() == FRESH_STATUS
    {
      ready, blobEnabled, blobReady, fatal, halted := false, false, false, None, Unmade;
    }

    method Snapshot() returns (r: bool, err: Option<Error>)
      ensures r == State().Ready() && err == fatal
      ensures r <==> ready && (blobEnabled ==> blobReady)
      ensures State().Valid() && err.Some? ==> !r
    {
      return ready && (!blobEnabled || blobReady), fatal;
    }

    method EnableBlob()
      modifies this
      ensures State() == old(State()).(blobEnabled := true, blobReady := false)
    {
      blobEnabled := true;
      blobReady := false;
    }

    method SetBlobReady(r: bool)
      modifies this
      ensures State() == old(State()).(blobReady := r && old(fatal).None?)
    {
      blobReady := r && fatal.None?;
    }

    /** Closing a closed channel would panic. */
    method Close()
      requires halted == Open
      modifies this`halted
      ensures halted == Closed
    {
      halted := Closed;
    }

    method Set(r: bool, err: Option<Error>)
      requires State().Valid()
      modifies this
      ensures State() == Publish(old(State()), r, err) && State().Valid()
      ensures fatal == if old(fatal).Some? then old(fatal) else err
      ensures ready == (r && fatal.None?) && blobEnabled == old(blobEnabled) && blobReady == old(blobReady)
      ensures halted == Closed <==> fatal.Some?
    {
      if err.Some? && fatal.None? {
        fatal := err;
        if halted == Unmade {
          halted := Open;
        }
        Close();
      }
      ready := r && fatal.None?;
    }

    method Done() returns (closed: bool)
      requires State().Valid()
      modifies this
      ensures State() == old(State()).(halted := if old(halted) == Unmade then Open else old(halted))
      ensures closed <==> fatal.Some?
    {
      if halted == Unmade {
        halted := Open;
      }
      return halted == Closed;
    }
  }

  // ---------------------------------------------------------------- atomic steps of all actors

  /** Status, deposit checkpoint and queue, Blob checkpoint and retained set; and all that was ever
      committed to the latter. */
  datatype System = System(status: StatusState, deposits: DepositState, records: map<Uint64, Record>,
                           blob: BlobState, retained: Retained,
                           everTxs: set<BlobTransaction>, everChannels: set<BlobChannel>, closed: bool)

  /** What an actor may do next. Commits carry whatever snapshot the actor took earlier, however stale,
      and whether its context is still alive when it gets the lock. */
  datatype Event =
    | CommitDeposits(before: DepositState, height: Uint64, hash: Hash, ctc: Address, more: seq<Record>, alive: bool)
    | CommitRetention(snapshot: BlobState, cutoff: Uint64, height: Uint64, hash: Hash, alive: bool)
    | CommitScan(snapshot: BlobState, height: Uint64, hash: Hash, auth: seq<Byte>, txs: seq<BlobTransaction>,
                 channels: seq<BlobChannel>, alive: bool)
    | PublishStatus(ready: bool, err: Option<Error>)
    | PublishBlobReady(ready: bool)
    | EnableBlob
    | AwaitHalt
    | CloseStore
    | Read

  /** Commits that make progress on their snapshot, as both loops prove of theirs. */
  predicate Progresses(e: Event) {
    match e
    case CommitDeposits(before, height, _, _, _, _) => before.height.Some? ==> before.height.value < height
    case CommitRetention(snapshot, cutoff, _, _, _) => snapshot.cutoff < cutoff
    case CommitScan(snapshot, height, _, _, _, _, _) => snapshot.height.Some? ==> snapshot.height.value < height
    case _ => true
  }

  function BlobAfter(e: Event): BlobState
    requires e.CommitRetention? || e.CommitScan?
  {
    if e.CommitRetention? then
      e.snapshot.(cutoff := e.cutoff, retentionHeight := Some(e.height), retentionHash := e.hash)
    else e.snapshot.(height := Some(e.height), hash := e.hash, auth := e.auth)
  }

  function NewTxs(e: Event): seq<BlobTransaction> { if e.CommitScan? then e.txs else [] }

  function NewChannels(e: Event): seq<BlobChannel> { if e.CommitScan? then e.channels else [] }

  /** Some retained channel has a block at this index. */
  ghost predicate Stored(a: Retained, n: Uint64) { exists id :: id in a.channels && Owns(a.channels[id], n) }

  ghost predicate LatestOf(a: Retained, latest: Option<Uint64>) {
    match latest
    case None => forall n: Uint64 :: !Stored(a, n)
    case Some(n) => Stored(a, n) && forall k: Uint64 :: Stored(a, k) ==> k <= n
  }

  lemma LatestExists(a: Retained) returns (latest: Option<Uint64>)
    ensures LatestOf(a, latest)
  {
    var indexes := set id, n | id in a.channels.Keys && n in a.channels[id].record.blocks :: n;
    forall n: Uint64 ensures n in indexes <==> Stored(a, n) {
      if Stored(a, n) {
        var id :| id in a.channels && Owns(a.channels[id], n);
      }
    }
    if indexes == {} {
      latest := None;
    } else {
      var n := Largest(indexes);
      latest := Some(n);
    }
  }

  /** A Blob commit that gets through: no fatal error yet, the exact snapshot, and a clean batch. */
  ghost predicate BlobCommits(s: System, e: Event) {
    && (e.CommitRetention? || e.CommitScan?) && e.alive && !s.closed
    && s.status.fatal.None? && s.blob == e.snapshot && e.snapshot.revision < MAX_UINT64
    && BlobAfter(e).cutoff >= e.snapshot.cutoff
    && Commit(s.retained, NewTxs(e), NewChannels(e), BlobAfter(e).cutoff).Some?
  }

  ghost predicate DepositsCommit(s: System, e: Event) {
    && e.CommitDeposits? && e.alive && !s.closed
    && s.status.fatal.None? && s.deposits == e.before
    && AppendAll(Queue(s.records, s.deposits.latest), e.more).Some?
  }

  /** One atomic step. The latest index is whatever the new retained set makes it. */
  ghost predicate Next(s: System, e: Event, t: System) {
    match e
    case CommitDeposits(_, height, hash, ctc, more, _) =>
      if DepositsCommit(s, e) then
        var q := AppendAll(Queue(s.records, s.deposits.latest), more).value;
        t == s.(records := q.records, deposits := DepositState(Some(height), hash, ctc, q.latest))
      else t == s
    case CommitRetention(_, _, _, _, _) => BlobNext(s, e, t)
    case CommitScan(_, _, _, _, _, _, _) => BlobNext(s, e, t)
    case PublishStatus(ready, err) => t == s.(status := Publish(s.status, ready, err))
    case PublishBlobReady(ready) => t == s.(status := s.status.(blobReady := ready && s.status.fatal.None?))
    case EnableBlob => t == s.(status := s.status.(blobEnabled := true, blobReady := false))
    case AwaitHalt =>
      t == s.(status := s.status.(halted := if s.status.halted == Unmade then Open else s.status.halted))
    case CloseStore => t == s.(closed := true)
    case Read => t == s
  }

  ghost predicate BlobNext(s: System, e: Event, t: System)
    requires e.CommitRetention? || e.CommitScan?
  {
    if BlobCommits(s, e) then
      var after := BlobAfter(e);
      && t == s.(retained := Commit(s.retained, NewTxs(e), NewChannels(e), after.cutoff).value,
                 blob := after.(revision := e.snapshot.revision + 1, latest := t.blob.latest),
                 everTxs := s.everTxs + (set tx | tx in NewTxs(e)),
                 everChannels := s.everChannels + (set ch | ch in NewChannels(e)))
      && LatestOf(t.retained, t.blob.latest)
    else t == s
  }

  /** Every actor can always take its step: a refused commit is a step that changes nothing. */
  lemma StepExists(s: System, e: Event) returns (t: System)
    ensures Next(s, e, t)
  {
    hide Commit, LatestOf;
    if BlobCommits(s, e) {
      var after, r := BlobAfter(e), Commit(s.retained, NewTxs(e), NewChannels(e), BlobAfter(e).cutoff).value;
      var latest := LatestExists(r);
      t := s.(retained := r, blob := after.(revision := e.snapshot.revision + 1, latest := latest),
              everTxs := s.everTxs + (set tx | tx in NewTxs(e)),
              everChannels := s.everChannels + (set ch | ch in NewChannels(e)));
    } else if DepositsCommit(s, e) {
      var q := AppendAll(Queue(s.records, s.deposits.latest), e.more).value;
      t := s.(records := q.records, deposits := DepositState(Some(e.height), e.hash, e.ctc, q.latest));
    } else {
      match e
      case PublishStatus(ready, err) => t := s.(status := Publish(s.status, ready, err));
      case PublishBlobReady(ready) => t := s.(status := s.status.(blobReady := ready && s.status.fatal.None?));
      case EnableBlob => t := s.(status := s.status.(blobEnabled := true, blobReady := false));
      case AwaitHalt =>
        t := s.(status := s.status.(halted := if s.status.halted == Unmade then Open else s.status.halted));
      case CloseStore => t := s.(closed := true);
      case _ => t := s;
    }
  }

  // ---------------------------------------------------------------- invariants of every reachable state

  ghost predicate Inv(s: System) {
    && s.status.Valid()
    && Queue(s.records, s.deposits.latest).Contiguous()
    && Valid(s.retained) && Within(s.retained, s.blob.cutoff) && LatestOf(s.retained, s.blob.latest)
    && (forall tx :: tx in s.retained.txs.Values <==> tx in s.everTxs && tx.timestamp >= s.blob.cutoff)
    && (forall ch :: ch in s.retained.channels.Values <==> ch in s.everChannels && ch.record.expiresAt >= s.blob.cutoff)
  }

  const START: System := System(FRESH_STATUS, DepositState(None, [], ZERO_ADDRESS, None), map[], INITIAL_STATE,
                                Retained(map[], map[]), {}, {}, false)

  lemma StartInv()
    ensures Inv(START)
  {
  }

  /** A database that is opened again after a stop starts another run from what it holds. */
  function Restarted(s: System): System { s.(status := FRESH_STATUS, closed := false) }

  lemma RestartInv(s: System)
    requires Inv(s)
    ensures Inv(Restarted(s))
  {
    hide Valid, Within, LatestOf, Queue.Contiguous;
  }

  function Later(a: Option<Uint64>, b: Option<Uint64>): bool { a.None? || (b.Some? && a.value <= b.value) }

  /** A height where there was none, or a strictly greater one. */
  predicate Above(a: Option<Uint64>, b: Option<Uint64>) { b.Some? && (a.Some? ==> a.value < b.value) }

  /** One step never takes back what was published or stored, and nothing is written once an error is. */
  ghost predicate Forward(s: System, t: System) {
    && (s.status.fatal.Some? ==>
          && t.status.fatal == s.status.fatal && !t.status.Ready()
          && t.deposits == s.deposits && t.records == s.records && t.blob == s.blob && t.retained == s.retained)
    && s.blob.cutoff <= t.blob.cutoff && s.blob.revision <= t.blob.revision
    && (t.blob != s.blob ==> s.blob.revision < t.blob.revision)
    && (s.closed ==> t.closed)
    && s.everTxs <= t.everTxs && s.everChannels <= t.everChannels
    && (forall n :: n in s.records ==> n in t.records && t.records[n] == s.records[n])
  }

  ghost predicate Climbs(s: System, t: System) {
    Later(s.blob.height, t.blob.height) && Later(s.deposits.height, t.deposits.height)
  }

  /** What a Blob commit writes to the checkpoint: a scan its own height, hash and state, retention its own cutoff,
      height and hash; each leaves what the other writes and counts the revision. */
  ghost predicate Checkpointed(s: BlobState, e: Event, t: BlobState) {
    && t.revision == s.revision + 1
    && (e.CommitScan? ==>
          && t.height == Some(e.height) && t.hash == e.hash && t.auth == e.auth && t.cutoff == s.cutoff
          && t.retentionHeight == s.retentionHeight && t.retentionHash == s.retentionHash)
    && (e.CommitRetention? ==>
          && t.cutoff == e.cutoff && t.retentionHeight == Some(e.height) && t.retentionHash == e.hash
          && t.height == s.height && t.hash == s.hash && t.auth == s.auth)
  }

  lemma StepSafe(s: System, e: Event, t: System)
    requires Inv(s) && Next(s, e, t)
    ensures Inv(t) && Forward(s, t)
    ensures Progresses(e) ==> Climbs(s, t)
    ensures !e.CommitScan? ==> t.blob.height == s.blob.height
    ensures e.CommitScan? ==> t.blob.cutoff == s.blob.cutoff
    ensures e.CommitRetention? && Progresses(e) && BlobCommits(s, e) ==> s.blob.cutoff < t.blob.cutoff
    ensures e.CommitScan? && Progresses(e) && BlobCommits(s, e) ==> Above(s.blob.height, t.blob.height)
    ensures e.CommitDeposits? && Progresses(e) && DepositsCommit(s, e) ==> Above(s.deposits.height, t.deposits.height)
    ensures BlobCommits(s, e) ==> Checkpointed(s.blob, e, t.blob)
    ensures DepositsCommit(s, e) ==>
              t.deposits.height == Some(e.height) && t.deposits.hash == e.hash && t.deposits.ctc == e.ctc
    ensures !BlobCommits(s, e) ==> t.blob == s.blob && t.retained == s.retained
    ensures !DepositsCommit(s, e) ==> t.deposits == s.deposits && t.records == s.records
  {
    hide Commit, Valid, Within, LatestOf, Queue.Contiguous;
    if DepositsCommit(s, e) {
      AppendAllKeeps(Queue(s.records, s.deposits.latest), e.more);
      var q := AppendAll(Queue(s.records, s.deposits.latest), e.more).value;
      assert Queue(q.records, q.latest) == q;
    } else if BlobCommits(s, e) {
      CommitExact(s.retained, NewTxs(e), NewChannels(e), BlobAfter(e).cutoff);
    }
  }

  // ---------------------------------------------------------------- whole runs

  /** `states` is a run of `events` from its first state. */
  ghost predicate IsRun(states: seq<System>, events: seq<Event>) {
    |states| == |events| + 1 && forall i :: 0 <= i < |events| ==> Next(states[i], events[i], states[i + 1])
  }

  lemma {:induction false} RunInv(states: seq<System>, events: seq<Event>, i: nat)
    requires IsRun(states, events) && Inv(states[0]) && i < |states|
    ensures Inv(states[i])
  {
    if i > 0 {
      RunInv(states, events, i - 1);
      StepSafe(states[i - 1], events[i - 1], states[i]);
    }
  }

  lemma ForwardTransitive(a: System, b: System, c: System)
    requires Forward(a, b) && Forward(b, c)
    ensures Forward(a, c)
  {
  }

  /** In any interleaving: nothing is written after the first fatal error, readiness never comes back,
      cutoff and revision never decrease, and no stored deposit changes. */
  lemma {:induction false} RunForward(states: seq<System>, events: seq<Event>, i: nat, j: nat)
    requires IsRun(states, events) && Inv(states[0]) && i < j < |states|
    ensures Forward(states[i], states[j])
    decreases j
  {
    hide Forward, Inv, Next;
    RunInv(states, events, j - 1);
    StepSafe(states[j - 1], events[j - 1], states[j]);
    if i < j - 1 {
      RunForward(states, events, i, j - 1);
      ForwardTransitive(states[i], states[j - 1], states[j]);
    }
  }

  ghost predicate AllProgress(events: seq<Event>) { forall k :: 0 <= k < |events| ==> Progresses(events[k]) }

  /** If the loops ask only for commits that progress, both heights only grow, however stale the snapshots. */
  lemma {:induction false} RunClimbs(states: seq<System>, events: seq<Event>, i: nat, j: nat)
    requires IsRun(states, events) && Inv(states[0]) && i <= j < |states|
    requires AllProgress(events)
    ensures Climbs(states[i], states[j])
    decreases j
  {
    hide Inv, Next, Progresses;
    if i < j {
      RunClimbs(states, events, i, j - 1);
      RunInv(states, events, j - 1);
      StepSafe(states[j - 1], events[j - 1], states[j]);
    }
  }

  /** Of all Blob commits that took the same snapshot, at most one gets through. */
  lemma OneCommitPerSnapshot(states: seq<System>, events: seq<Event>, i: nat, j: nat)
    requires IsRun(states, events) && Inv(states[0]) && i < j < |events|
    requires BlobCommits(states[i], events[i]) && BlobCommits(states[j], events[j])
    ensures events[i].snapshot != events[j].snapshot
  {
    hide Commit, Inv;
    assert states[i + 1].blob.revision == states[i].blob.revision + 1;
    if i + 1 < j {
      RunForward(states, events, i + 1, j);
    }
  }

  // ---------------------------------------------------------------- what the other actors leave alone

  predicate LeavesDeposits(e: Event) { !e.CommitDeposits? }

  predicate LeavesBlobs(e: Event) { !e.CommitRetention? && !e.CommitScan? }

  /** Neither an error nor a closed store. */
  predicate Peaceful(e: Event) { (e.PublishStatus? ==> e.err.None?) && !e.CloseStore? }

  predicate AllPeaceful(events: seq<Event>) { forall e :: e in events ==> Peaceful(e) }

  lemma StepKeeps(s: System, e: Event, t: System)
    requires Next(s, e, t)
    ensures LeavesDeposits(e) ==> t.deposits == s.deposits && t.records == s.records
    ensures LeavesBlobs(e) ==>
              t.blob == s.blob && t.retained == s.retained && t.everTxs == s.everTxs && t.everChannels == s.everChannels
    ensures Peaceful(e) ==> t.status.fatal == s.status.fatal && t.closed == s.closed
  {
    hide BlobCommits, DepositsCommit, LatestOf, Commit;
  }

  lemma {:induction false} OthersKeep(states: seq<System>, events: seq<Event>, i: nat, j: nat)
    requires IsRun(states, events) && i <= j < |states|
    ensures (forall k :: i <= k < j ==> LeavesDeposits(events[k])) ==>
              states[j].deposits == states[i].deposits && states[j].records == states[i].records
    ensures (forall k :: i <= k < j ==> LeavesBlobs(events[k])) ==>
              && states[j].blob == states[i].blob && states[j].retained == states[i].retained
              && states[j].everTxs == states[i].everTxs && states[j].everChannels == states[i].everChannels
    ensures (forall k :: i <= k < j ==> Peaceful(events[k])) ==>
              states[j].status.fatal == states[i].status.fatal && states[j].closed == states[i].closed
    decreases j
  {
    hide Next, LeavesDeposits, LeavesBlobs, Peaceful;
    if i < j {
      OthersKeep(states, events, i, j - 1);
      StepKeeps(states[j - 1], events[j - 1], states[j]);
    }
  }
}
