/** The running process: the shared status and the one database behind it, driven by all actors. */
module Node {
  import opened Prelude
  import opened StoreTypes
  import opened DepositQueue
  import opened RetainedSet
  import opened BlobStore
  import opened Store
  import opened RunSafety

  /** A point of the process's run. */
  datatype Mark = Mark(log: seq<Event>, trace: seq<System>)

  /** What became of a guarded commit. */
  datatype Attempt = Committed | Halted | Cancelled | Refused

  class Process {
    const status: Status
    const store: Database
    /** Every step ever taken, and the states between them. */
    ghost var log: seq<Event>
    ghost var trace: seq<System>

    constructor ()
      ensures Valid() && log == [] && State() == START
      ensures fresh(status) && fresh(store)
    {
      hide Inv, Database.Valid;
      status := new Status();
      store := new Database();
      new;
      log, trace := [], [State()];
      StartInv();
    }

    /** The process started again: a new status over everything the database held. */
    constructor Restart(before: Process)
      requires before.Valid()
      ensures Valid() && log == [] && State() == Restarted(before.State())
      ensures fresh(status) && fresh(store)
    {
      hide Inv, Database.Valid;
      status := new Status();
      store := new Database.Reopen(before.store);
      new;
      log, trace := [], [State()];
      before.Reached(|before.log|);
      RestartInv(before.State());
    }

    /** Every point of the run satisfies the invariant. */
    lemma Reached(i: nat)
      requires Valid() && i <= |log|
      ensures i < |trace| && Inv(trace[i])
    {
      hide Database.Valid, Inv;
      RunInv(trace, log, i);
    }

    /** The run ends where the process is now. */
    lemma Ends()
      requires Valid()
      ensures |trace| == |log| + 1 && trace[|log|] == State() && IsRun(trace, log) && Inv(trace[0])
    {
      hide Database.Valid, Inv;
    }

    ghost function Now(): Mark
      reads this
    {
      Mark(log, trace)
    }

    /** The run has only been extended since. */
    ghost predicate Since(m: Mark)
      reads this
    {
      m.log <= log && m.trace <= trace && |m.trace| == |m.log| + 1
    }

    ghost function State(): System
      reads status, store
    {
      System(status.State(), store.deposits, store.records, store.blob.state, store.retained, store.everTxs,
             store.everChannels, store.closed)
    }

    /** Whatever happened so far is a run of the system that led from a good state to this one. */
    ghost predicate Valid()
      reads this, status, store
    {
      && status.State().Valid() && store.Valid()
      && IsRun(trace, log) && Inv(trace[0]) && trace[|log|] == State()
    }

    /** So whatever both loops and the readers did, nothing was ever taken back; and if the loops only asked for
        commits that progress, both heights only grew. */
    lemma Safe(i: nat, j: nat)
      requires Valid() && i < j < |trace|
      ensures Inv(trace[j]) && Forward(trace[i], trace[j])
      ensures AllProgress(log) ==> Climbs(trace[i], trace[j])
    {
      hide Database.Valid, Inv, Forward, Climbs, Next;
      RunInv(trace, log, j);
      RunForward(trace, log, i, j);
      if AllProgress(log) {
        RunClimbs(trace, log, i, j);
      }
    }

    /** Records the step just taken. */
    ghost method Record(e: Event, before: System)
      requires IsRun(trace, log) && trace[|log|] == before && Next(before, e, State())
      modifies this`log, this`trace
      ensures IsRun(trace, log) && trace[0] == old(trace[0]) && trace[|log|] == State()
      ensures log == old(log) + [e] && trace == old(trace) + [State()]
    {
      hide Next;
      log, trace := log + [e], trace + [State()];
    }

    /** `commitIfHealthy` around a deposit commit: nothing is written once an error is published. */
    method CommitDeposits(e: Event) returns (r: Attempt)
      requires Valid() && e.CommitDeposits?
      modifies this`log, this`trace, store`deposits, store`records
      ensures Valid() && Next(old(State()), e, State()) && log == old(log) + [e] && trace == old(trace) + [State()]
      ensures r == if status.fatal.Some? then Halted else if !e.alive then Cancelled
                   else if DepositsCommit(old(State()), e) then Committed else Refused
      ensures r != Committed ==> State() == old(State())
    {
      hide BlobStore.Represents, RetainedSet.Valid, Within, IsLatest, Queue.Contiguous, IsRun;
      if status.fatal.Some? {
        r := Halted;
      } else if !e.alive {
        r := Cancelled;
      } else {
        var after := DepositState(Some(e.height), e.hash, e.ctc, None);
        var outcome := store.Commit(e.before, after, e.more);
        r := if outcome == Done then Committed else Refused;
      }
      Record(e, old(State()));
    }

    /** `commitIfHealthy` around a Blob commit. */
    method CommitBlob(e: Event) returns (r: Attempt)
      requires Valid() && (e.CommitRetention? || e.CommitScan?)
      modifies this`log, this`trace, store`blob, store`retained, store`everTxs, store`everChannels
      ensures Valid() && Next(old(State()), e, State()) && log == old(log) + [e] && trace == old(trace) + [State()]
      ensures r == if status.fatal.Some? then Halted else if !e.alive then Cancelled
                   else if BlobCommits(old(State()), e) then Committed else Refused
      ensures r != Committed ==> State() == old(State())
    {
      hide BlobStore.Represents, RetainedSet.Valid, Within, IsLatest, Queue.Contiguous, RetainedSet.Commit, LatestOf,
           IsRun;
      if status.fatal.Some? {
        r := Halted;
      } else if !e.alive {
        r := Cancelled;
      } else {
        var outcome := store.CommitBlob(e.snapshot, BlobAfter(e), NewTxs(e), NewChannels(e));
        StoredLatest(store.blob, store.retained);
        r := if outcome == Done then Committed else Refused;
      }
      Record(e, old(State()));
    }

    method Publish(ready: bool, err: Option<Error>)
      requires Valid()
      modifies this`log, this`trace, status
      ensures Valid() && State() == old(State()).(status := RunSafety.Publish(old(status.State()), ready, err))
      ensures log == old(log) + [PublishStatus(ready, err)] && trace == old(trace) + [State()]
    {
      hide Database.Valid, IsRun;
      status.Set(ready, err);
      Record(PublishStatus(ready, err), old(State()));
    }

    method PublishBlob(ready: bool)
      requires Valid()
      modifies this`log, this`trace, status
      ensures Valid()
      ensures State() == old(State()).(status := old(status.State()).(blobReady := ready && old(status.fatal).None?))
      ensures log == old(log) + [PublishBlobReady(ready)] && trace == old(trace) + [State()]
    {
      hide Database.Valid, IsRun;
      status.SetBlobReady(ready);
      Record(PublishBlobReady(ready), old(State()));
    }

    /** Whatever an actor does next is one step of the system. */
    method Perform(e: Event)
      requires Valid()
      modifies this`log, this`trace, status, store
      ensures Valid() && Next(old(State()), e, State()) && log == old(log) + [e] && trace == old(trace) + [State()]
    {
      hide Database.Valid, DepositsCommit, BlobNext, IsRun;
      match e
      case CommitDeposits(_, _, _, _, _, _) => var _ := CommitDeposits(e);
      case CommitRetention(_, _, _, _, _) => var _ := CommitBlob(e);
      case CommitScan(_, _, _, _, _, _, _) => var _ := CommitBlob(e);
      case PublishStatus(ready, err) => Publish(ready, err);
      case PublishBlobReady(ready) => PublishBlob(ready);
      case EnableBlob =>
        status.EnableBlob();
        Record(e, old(State()));
      case AwaitHalt =>
        var _ := status.Done();
        Record(e, old(State()));
      case CloseStore =>
        store.Close();
        Record(e, old(State()));
      case Read => Record(e, old(State()));
    }

    /** What other actors do meanwhile: the run goes on by their steps, and what none of them writes stays. */
    method Interleave(events: seq<Event>)
      requires Valid()
      modifies this`log, this`trace, status, store
      ensures Valid() && log == old(log) + events && old(trace) <= trace
      ensures (forall e :: e in events ==> LeavesDeposits(e)) ==>
        store.deposits == old(store.deposits) && store.records == old(store.records)
      ensures (forall e :: e in events ==> LeavesBlobs(e)) ==>
        && store.blob.state == old(store.blob.state) && store.retained == old(store.retained)
        && store.everTxs == old(store.everTxs) && store.everChannels == old(store.everChannels)
      ensures AllPeaceful(events) ==> status.fatal == old(status.fatal) && store.closed == old(store.closed)
    {
      hide Next, Database.Valid, StatusState.Valid, LeavesDeposits, LeavesBlobs, Peaceful, Inv;
      assert log == old(log) + events[..0];
      for i := 0 to |events|
        invariant Valid() && log == old(log) + events[..i] && old(trace) <= trace
      {
        Perform(events[i]);
        assert events[..i + 1] == events[..i] + [events[i]];
      }
      assert events[..|events|] == events;
      forall k | |old(log)| <= k < |log| ensures log[k] in events {
        assert log[k] == events[k - |old(log)|];
      }
      OthersKeep(trace, log, |old(log)|, |log|);
    }
  }

  /** The newest pointer is the newest stored index of the retained set. */
  lemma StoredLatest(b: BlobDb, a: Retained)
    requires BlobStore.Represents(b, a)
    ensures IsLatest(b.state.latest, b.pointers.Keys) ==> LatestOf(a, b.state.latest)
  {
    forall n: Uint64 ensures n in b.pointers <==> Stored(a, n) {
      if Stored(a, n) {
        var id :| id in a.channels && Owns(a.channels[id], n);
      }
    }
  }
}
