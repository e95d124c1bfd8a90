/** The authorization state a scan carries, and the merge of its events with block transactions. */
module SenderAuth {
  import opened Prelude
  import opened StoreTypes
  import opened LexOrder
  import opened ChainLogs
  import opened SenderMeaning
  import opened SenderReplay

  class Authorization {
    var manager: Address
    var known: map<Address, Schedule>

    function State(): Auth
      reads this
    {
      Auth(manager, known)
    }

    constructor (s: Auth)
      ensures State() == s
    {
      manager, known := s.manager, s.known;
    }

    /** The authorized sender, whatever order the schedule's entries are visited in. */
    method Sender(height: Uint64, blob: bool, fallback: Address) returns (sender: Address)
      ensures manager !in known ==> sender == fallback
      ensures manager in known ==> InForce(Entries(known[manager], blob), height, fallback, sender)
    {
      sender := fallback;
      if manager !in known {
        return;
      }
      var entries := known[manager].batch;
      if blob {
        entries := known[manager].blob;
      }
      var latest: Uint64, found := 0, false;
      var pending := entries.Keys;
      while pending != {}
        invariant pending <= entries.Keys
        invariant !found ==> sender == fallback && forall k :: k in entries && k !in pending ==> k > height
        invariant found ==> latest in entries && latest <= height && entries[latest] == sender
        invariant found ==> forall j :: j in entries && j !in pending && j <= height ==> j <= latest
        decreases |pending|
      {
        var effective :| effective in pending;
        pending := pending - {effective};
        if effective <= height && (!found || effective >= latest) {
          latest, found, sender := effective, true, entries[effective];
        }
      }
    }

    method Apply(registry: Address, l: Log) returns (ok: bool)
      modifies this
      ensures ok <==> ApplyLog(registry, old(State()), l).Some?
      ensures State() == if ok then ApplyLog(registry, old(State()), l).value else old(State())
      ensures ok && l.event.SenderSet? ==>
        && manager == old(manager) && l.address in old(known) && l.event.sender != ZERO_ADDRESS
        && known.Keys == old(known).Keys && (forall m :: m in known && m != l.address ==> known[m] == old(known)[m])
        && var before, after := old(known)[l.address], known[l.address];
        && after.batch == (if l.event.kind == BatchSender then before.batch[l.event.effective := l.event.sender]
                           else before.batch)
        && after.blob == (if l.event.kind == BlobSender then before.blob[l.event.effective := l.event.sender]
                          else before.blob)
      ensures ok && !l.event.SenderSet? ==>
        l.event.AddressSet? && l.event.prev == old(manager) && manager == l.event.next && known == old(known)
    {
      if IsManagerChange(registry, l) {
        if l.event.BadAddressSet? || l.event.prev != manager {
          return false;
        }
        manager := l.event.next;
        return true;
      }
      if !l.event.SenderSet? {
        return false;
      }
      if l.event.sender == ZERO_ADDRESS {
        return false;
      }
      if l.address !in known {
        return false;
      }
      var table := known[l.address];
      if l.event.kind == BatchSender {
        table := table.(batch := table.batch[l.event.effective := l.event.sender]);
      } else {
        table := table.(blob := table.blob[l.event.effective := l.event.sender]);
      }
      known := known[l.address := table];
      return true;
    }
  }

  // ---------------------------------------------------------------- merging events and transactions

  /** Strictly before transaction `tx` of block `height`. */
  function Before(height: int, tx: nat): Log -> bool {
    (l: Log) => l.block < height || (l.block == height && l.tx < tx)
  }

  /** Between the start of block `from` and transaction `tx` of block `height`. */
  function Stretch(from: int, height: int, tx: nat): Log -> bool {
    (l: Log) => from <= l.block && Before(height, tx)(l)
  }

  function AskedIn(registry: Address, known: set<Address>, from: int, end: int): Log -> bool {
    (l: Log) => Asked(registry, known)(l) && from <= l.block <= end
  }

  /** The history a transaction is judged by. */
  function Past(h: seq<Log>, height: int, tx: nat): seq<Log> { Select(h, Before(height, tx)) }

  /** What a scan starts from: a state that agrees with everything before its window, knows every
      manager set in the window, and has the window's events it asked for, in order. */
  ghost predicate ScanReady(h: seq<Log>, registry: Address, a: Auth, logs: seq<Log>, from: int, end: int) {
    && History(h) && Covered(a, Past(h, from, 0), registry)
    && Discovered(registry, a.known.Keys, Select(h, Stretch(from, end + 1, 0)))
    && logs == Select(h, AskedIn(registry, a.known.Keys, from, end))
  }

  lemma InsideWindow(l: Log, from: int, end: int, height: int, tx: nat)
    requires height <= end + 1 && (height == end + 1 ==> tx == 0) && Stretch(from, height, tx)(l)
    ensures Stretch(from, end + 1, 0)(l)
  {
    assert Before(height, tx)(l);
    assert Before(end + 1, 0)(l);
  }

  /** Having applied exactly the asked events before a position, the state agrees with the whole history
      before it. */
  lemma CoveredAt(h: seq<Log>, registry: Address, a: Auth, logs: seq<Log>, from: int, end: int, height: int, tx: nat)
    requires ScanReady(h, registry, a, logs, from, end) && from <= height <= end + 1 && (height == end + 1 ==> tx == 0)
    requires ApplyAll(registry, a, Select(logs, Before(height, tx))).Some?
    ensures var r := ApplyAll(registry, a, Select(logs, Before(height, tx))).value;
            Covered(r, Past(h, height, tx), registry) && r.known.Keys == a.known.Keys
  {
    hide History, Covered, ApplyAll, Select;
    var asked := Asked(registry, a.known.Keys);
    var stretch := Select(h, Stretch(from, height, tx));
    var both := (l: Log) => asked(l) && Stretch(from, height, tx)(l);
    SplitAt(h, Before(height, tx), Before(from, 0), Stretch(from, height, tx), from);
    SelectSelect(h, AskedIn(registry, a.known.Keys, from, end), Before(height, tx), both);
    SelectSelect(h, Stretch(from, height, tx), asked, both);
    forall l | l in stretch && IsManagerChange(registry, l) && l.event.AddressSet?
      ensures l.event.next == ZERO_ADDRESS || l.event.next in a.known
    {
      InsideWindow(l, from, end, height, tx);
      assert l in Select(h, Stretch(from, end + 1, 0));
    }
    CoverAll(registry, a, Past(h, from, 0), stretch);
  }

  lemma AllBefore(h: seq<Log>, height: int, tx: nat)
    requires ChainLogs.Ascending(h) && h != [] && Before(height, tx)(h[|h| - 1])
    ensures forall l :: l in h ==> Before(height, tx)(l)
  {
    hide Precedes;
    forall l | l in h ensures Before(height, tx)(l) {
      var k :| 0 <= k < |h| && h[k] == l;
      if k < |h| - 1 {
        PrecedesIff(h[k], h[|h| - 1]);
      }
    }
  }

  /** The past of a position is a prefix of the chain. */
  lemma {:induction false} PastIsPrefix(h: seq<Log>, height: int, tx: nat)
    requires ChainLogs.Ascending(h)
    ensures Past(h, height, tx) <= h
  {
    hide Precedes, Before, Select;
    if h == [] {
      SelectNone(h, Before(height, tx));
    } else if Before(height, tx)(h[|h| - 1]) {
      AllBefore(h, height, tx);
      SelectAll(h, Before(height, tx));
    } else {
      var front, last := h[..|h| - 1], h[|h| - 1];
      assert h == front + [last];
      PastIsPrefix(front, height, tx);
      SelectSnoc(front, last, Before(height, tx));
    }
  }

  /** On a sound chain a scan's events always apply. */
  lemma ScanApplies(h: seq<Log>, registry: Address, a: Auth, logs: seq<Log>, from: int, end: int)
    requires ScanReady(h, registry, a, logs, from, end) && from <= end + 1
    requires Sound(h, registry) && AllManagers(h, registry, a.known.Keys)
    ensures ApplyAll(registry, a, logs).Some?
  {
    hide Covered, ApplyAll, Select, Sound, AllManagers, Discovered;
    var asked, stretch := Asked(registry, a.known.Keys), Select(h, Stretch(from, end + 1, 0));
    var past, whole := Past(h, from, 0), Past(h, end + 1, 0);
    PastIsPrefix(h, from, 0);
    PastIsPrefix(h, end + 1, 0);
    SplitAt(h, Before(end + 1, 0), Before(from, 0), Stretch(from, end + 1, 0), from);
    assert h[|past|..|whole|] == stretch && h[..|past|] == past;
    SelectSelect(h, Stretch(from, end + 1, 0), asked, AskedIn(registry, a.known.Keys, from, end));
    SoundApplies(h, registry, a, |past|, |whole|);
  }

  /** In ascending logs the ones before a position are a prefix. */
  lemma CutAt(logs: seq<Log>, height: int, tx: nat, position: nat)
    requires position <= |logs|
    requires forall k :: 0 <= k < position ==> Before(height, tx)(logs[k])
    requires forall k :: position <= k < |logs| ==> !Before(height, tx)(logs[k])
    ensures Select(logs, Before(height, tx)) == logs[..position]
  {
    hide Before;
    SelectCut(logs, Before(height, tx), position);
  }

  lemma SelectCut(logs: seq<Log>, p: Log -> bool, position: nat)
    requires position <= |logs|
    requires forall k :: 0 <= k < position ==> p(logs[k])
    requires forall k :: position <= k < |logs| ==> !p(logs[k])
    ensures Select(logs, p) == logs[..position]
  {
    hide Select;
    var front, back := logs[..position], logs[position..];
    assert logs == front + back;
    SelectConcat(front, back, p);
    SelectAll(front, p);
    SelectNone(back, p);
  }

  lemma AscendingCut(logs: seq<Log>, height: int, tx: nat, position: nat)
    requires ChainLogs.Ascending(logs) && position < |logs| && !Before(height, tx)(logs[position])
    ensures forall k :: position <= k < |logs| ==> !Before(height, tx)(logs[k])
  {
    forall k | position < k < |logs| ensures !Before(height, tx)(logs[k]) {
      PrecedesIff(logs[position], logs[k]);
    }
  }

  // ---------------------------------------------------------------- the merge loop

  /** Senders in force for one transaction. */
  datatype Verdict = Verdict(batch: Address, blob: Address)

  datatype Fallbacks = Fallbacks(batch: Address, blob: Address)

  /** The senders that the whole history before the transaction authorizes. */
  ghost function VerdictOf(h: seq<Log>, registry: Address, fallbacks: Fallbacks, height: Uint64, tx: nat): Verdict {
    Verdict(SenderOf(Past(h, height, tx), registry, height, false, fallbacks.batch),
            SenderOf(Past(h, height, tx), registry, height, true, fallbacks.blob))
  }

  lemma PastBefore(h: seq<Log>, height: Uint64, tx: nat)
    requires History(h)
    ensures LogsBefore(h, height, tx, Past(h, height, tx))
  {
    hide Select;
    SelectAscending(h, Before(height, tx));
  }

  /** A verdict names the rightful batch sender and the rightful blob sender of the logs before the transaction. */
  lemma VerdictMeans(h: seq<Log>, registry: Address, fallbacks: Fallbacks, height: Uint64, tx: nat)
    returns (hs: seq<Log>)
    requires History(h)
    ensures LogsBefore(h, height, tx, hs)
    ensures var v := VerdictOf(h, registry, fallbacks, height, tx);
      && Rightful(hs, registry, BatchSender, height, fallbacks.batch, v.batch)
      && Rightful(hs, registry, BlobSender, height, fallbacks.blob, v.blob)
  {
    hide Rightful, LogsBefore, SenderOf, Past;
    hs := Past(h, height, tx);
    PastBefore(h, height, tx);
    SenderMeans(hs, registry, false, height, fallbacks.batch);
    SenderMeans(hs, registry, true, height, fallbacks.blob);
  }

  /** The first `position` logs have been applied, all of them before `(height, tx)`. */
  ghost predicate Merged(registry: Address, a0: Auth, now: Auth, logs: seq<Log>, position: nat, height: int, tx: nat) {
    && position <= |logs|
    && ApplyAll(registry, a0, logs[..position]) == Some(now)
    && (forall k :: 0 <= k < position ==> Before(height, tx)(logs[k]))
  }

  lemma MergedLater(registry: Address, a0: Auth, now: Auth, logs: seq<Log>, position: nat, height: int, tx: nat,
                    height': int, tx': nat)
    requires Merged(registry, a0, now, logs, position, height, tx)
    requires height < height' || (height == height' && tx <= tx')
    ensures Merged(registry, a0, now, logs, position, height', tx')
  {
  }

  lemma {:induction false} ApplyPrefix(registry: Address, a: Auth, logs: seq<Log>, k: nat)
    requires k <= |logs| && ApplyAll(registry, a, logs[..k]).None?
    ensures ApplyAll(registry, a, logs).None?
  {
    if k == |logs| {
      assert logs[..k] == logs;
    } else {
      assert logs[..|logs| - 1][..k] == logs[..k];
      ApplyPrefix(registry, a, logs[..|logs| - 1], k);
    }
  }

  method ApplyOne(a: Authorization, ghost a0: Auth, registry: Address, logs: seq<Log>, position: nat, ghost height: int,
                  ghost tx: nat)
    returns (ok: bool)
    requires Merged(registry, a0, a.State(), logs, position, height, tx)
    requires position < |logs| && Before(height, tx)(logs[position])
    modifies a
    ensures ok ==> Merged(registry, a0, a.State(), logs, position + 1, height, tx)
    ensures !ok ==> ApplyAll(registry, a0, logs).None?
  {
    hide ApplyLog, ApplyAll;
    ApplySnoc(registry, a0, logs[..position], logs[position]);
    assert logs[..position + 1] == logs[..position] + [logs[position]];
    ok := a.Apply(registry, logs[position]);
    if !ok {
      ApplyPrefix(registry, a0, logs, position + 1);
    }
  }

  /** Applies the logs up to, not including, `(height, tx)`. */
  method ApplyUpTo(a: Authorization, ghost a0: Auth, registry: Address, logs: seq<Log>, position: nat, height: Uint64,
                   tx: nat)
    returns (ok: bool, next: nat)
    requires Merged(registry, a0, a.State(), logs, position, height, tx) && ChainLogs.Ascending(logs)
    modifies a
    ensures ok ==> position <= next && Merged(registry, a0, a.State(), logs, next, height, tx)
                   && logs[..next] == Select(logs, Before(height, tx))
    ensures !ok ==> ApplyAll(registry, a0, logs).None?
  {
    hide ApplyAll;
    next := position;
    while next < |logs| && (logs[next].block < height || (logs[next].block == height && logs[next].tx < tx))
      invariant position <= next && Merged(registry, a0, a.State(), logs, next, height, tx)
      decreases |logs| - next
    {
      ok := ApplyOne(a, a0, registry, logs, next, height, tx);
      if !ok {
        return;
      }
      next := next + 1;
    }
    if next < |logs| {
      AscendingCut(logs, height, tx, next);
    }
    CutAt(logs, height, tx, next);
    ok := true;
  }

  /** After a block's last transaction: the rest of its logs. */
  method ApplyBlockEnd(a: Authorization, ghost a0: Auth, registry: Address, logs: seq<Log>, position: nat,
                       height: Uint64)
    returns (ok: bool, next: nat)
    requires Merged(registry, a0, a.State(), logs, position, height + 1, 0) && ChainLogs.Ascending(logs)
    requires forall k :: position <= k < |logs| ==> logs[k].block >= height
    modifies a
    ensures ok ==> Merged(registry, a0, a.State(), logs, next, height + 1, 0)
                   && (forall k :: next <= k < |logs| ==> logs[k].block >= height + 1)
    ensures !ok ==> ApplyAll(registry, a0, logs).None?
  {
    hide ApplyAll;
    next := position;
    while next < |logs| && logs[next].block == height
      invariant position <= next && Merged(registry, a0, a.State(), logs, next, height + 1, 0)
      decreases |logs| - next
    {
      assert Before(height + 1, 0)(logs[next]);
      ok := ApplyOne(a, a0, registry, logs, next, height + 1, 0);
      if !ok {
        return;
      }
      next := next + 1;
    }
    if next < |logs| {
      AscendingCut(logs, height + 1, 0, next);
    }
    ok := true;
  }

  /** The sender in force for a transaction, by the state merged up to it. */
  method Judge(a: Authorization, ghost h: seq<Log>, ghost a0: Auth, registry: Address, fallback: Address, blob: bool,
               ghost logs: seq<Log>, ghost from: Uint64, ghost end: Uint64, height: Uint64, ghost tx: nat)
    returns (sender: Address)
    requires ScanReady(h, registry, a0, logs, from, end) && from <= height <= end
    requires ApplyAll(registry, a0, Select(logs, Before(height, tx))) == Some(a.State())
    ensures sender == SenderOf(Past(h, height, tx), registry, height, blob, fallback)
    ensures var kind := if blob then BlobSender else BatchSender;
      exists hs :: LogsBefore(h, height, tx, hs) && Rightful(hs, registry, kind, height, fallback, sender)
  {
    hide ApplyAll, Select, InForce, ScheduleOf, ManagerOf, ScanReady, SenderOf, Rightful, LogsBefore, Past;
    assert History(h) by { ReadyHistory(h, registry, a0, logs, from, end); }
    PastBefore(h, height, tx);
    SenderMeans(Past(h, height, tx), registry, blob, height, fallback);
    CoveredAt(h, registry, a0, logs, from, end, height, tx);
    sender := a.Sender(height, blob, fallback);
    assert Authorized(Past(h, height, tx), registry, height, blob, fallback, sender);
  }

  lemma ReadyHistory(h: seq<Log>, registry: Address, a: Auth, logs: seq<Log>, from: int, end: int)
    requires ScanReady(h, registry, a, logs, from, end)
    ensures History(h)
  {
  }

  lemma MergedState(registry: Address, a0: Auth, now: Auth, logs: seq<Log>, position: nat, height: int, tx: nat)
    requires Merged(registry, a0, now, logs, position, height, tx)
    ensures position <= |logs| && ApplyAll(registry, a0, logs[..position]) == Some(now)
  {
  }

  lemma MergedNone(registry: Address, a: Auth, logs: seq<Log>, height: int)
    ensures Merged(registry, a, a, logs, 0, height, 0)
  {
    assert logs[..0] == [];
  }

  /** Once every log is merged, all of them have been applied. */
  lemma MergedAll(registry: Address, a0: Auth, now: Auth, logs: seq<Log>, height: int)
    requires Merged(registry, a0, now, logs, |logs|, height, 0)
    ensures ApplyAll(registry, a0, logs) == Some(now) && Select(logs, Before(height, 0)) == logs
  {
    hide ApplyAll, Select, Before;
    assert logs[..|logs|] == logs;
    CutAt(logs, height, 0, |logs|);
  }

  lemma ReadyLogs(h: seq<Log>, registry: Address, a: Auth, logs: seq<Log>, from: int, end: int)
    requires ScanReady(h, registry, a, logs, from, end)
    ensures ChainLogs.Ascending(logs) && forall k :: 0 <= k < |logs| ==> from <= logs[k].block <= end
  {
    SelectAscending(h, AskedIn(registry, a.known.Keys, from, end));
    forall k | 0 <= k < |logs| ensures from <= logs[k].block <= end {
      assert logs[k] in logs;
    }
  }
}
