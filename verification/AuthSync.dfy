/** Lazy sender authorization: managers are discovered from address changes and their past is backfilled
    in pages, yet every committed state agrees with a replay of the whole history. */
module AuthSync {
  import opened Prelude
  import opened StoreTypes
  import opened ChainLogs
  import opened SenderReplay
  import opened SenderAuth

  datatype Config = Config(registry: Address, inboxStart: Uint64, batchSize: Uint64, fallbacks: Fallbacks)

  datatype Query =
    | ManagerQuery(from: Uint64, end: Uint64)
    | SenderQuery(from: Uint64, end: Uint64, addresses: set<Address>)

  predicate Matches(cfg: Config, q: Query, l: Log) {
    match q
    case ManagerQuery(from, end) => IsManagerChange(cfg.registry, l) && from <= l.block <= end
    case SenderQuery(from, end, addresses) => IsSenderLog(l) && l.address in addresses && from <= l.block <= end
  }

  type Reply = Query -> Option<seq<Log>>

  ghost predicate Honest(cfg: Config, h: seq<Log>, reply: Reply) {
    forall q :: reply(q).Some? ==> forall l :: l in reply(q).value <==> l in h && Matches(cfg, q, l)
  }

  /** What one step is answered: header requests and log queries. */
  datatype Provider = Provider(headers: bool, logs: Reply)

  ghost predicate Responsive(p: Provider) { p.headers && forall q :: p.logs(q).Some? }

  datatype Backfill = Backfill(before: Uint64, next: Uint64, schedule: Schedule)

  datatype Bootstrap = Bootstrap(next: Uint64, ready: bool, auth: Auth)

  /** Lost: a transient failure. Pending: more pages to come. Invalid: a fatal event. */
  datatype Progress<+T> = Lost | Pending | Invalid | Complete(value: T)

  /** `orderedLogs`: sorts and drops repeats; a differing repeat would be fatal, but a chain has none. */
  method OrderedLogs(logs: seq<Log>, ghost h: seq<Log>) returns (r: Option<seq<Log>>)
    requires History(h) && forall l :: l in logs ==> l in h
    ensures r == Some(Dedup(SortLogs(logs)))
  {
    hide SortLogs, Dedup, History;
    var sorted := SortLogs(logs);
    var out: seq<Log> := [];
    var seen: map<(Uint64, nat), Log> := map[];
    assert Dedup([]) == [] by { DedupSnoc([], Log(0, 0, 0, [], BadEnqueued)); }
    for i := 0 to |sorted|
      invariant out == Dedup(sorted[..i])
      invariant forall l :: l in sorted[..i] ==> (l.block, l.index) in seen
      invariant forall id :: id in seen ==> seen[id] in sorted[..i] && (seen[id].block, seen[id].index) == id
    {
      var l := sorted[i];
      assert sorted[..i + 1] == sorted[..i] + [l] && l in sorted && sorted == sorted[..i + 1] + sorted[i + 1..];
      DedupSnoc(sorted[..i], l);
      if (l.block, l.index) in seen {
        assert seen[(l.block, l.index)] in sorted;
        PositionTells(h, seen[(l.block, l.index)], l);
        if seen[(l.block, l.index)] != l {
          return None;
        }
        continue;
      }
      assert l !in sorted[..i];
      seen := seen[(l.block, l.index) := l];
      out := out + [l];
    }
    assert sorted[..|sorted|] == sorted;
    return Some(out);
  }

  lemma DedupSnoc(front: seq<Log>, l: Log)
    ensures Dedup([]) == []
    ensures Dedup(front + [l]) == if l in front then Dedup(front) else Dedup(front) + [l]
  {
    assert (front + [l])[..|front|] == front;
  }

  // ---------------------------------------------------------------- how far backfilling has come

  /** Blocks of the manager's past that are done, for a backfill ending before `before`. */
  function NextOf(b: map<Address, Backfill>, m: Address, before: int): nat {
    if m in b && b[m].before == before then b[m].next else 0
  }

  ghost predicate Advanced(b0: map<Address, Backfill>, b: map<Address, Backfill>, before: int) {
    forall m :: NextOf(b0, m, before) <= NextOf(b, m, before)
  }

  function NewManager(l: Log): Address { if l.event.AddressSet? then l.event.next else ZERO_ADDRESS }

  /** Blocks still to be fetched for the managers that these changes name. */
  function Missing(changes: seq<Log>, b: map<Address, Backfill>, before: nat): nat {
    if changes == [] then 0 else
    var done := NextOf(b, NewManager(changes[|changes| - 1]), before);
    Missing(changes[..|changes| - 1], b, before) + if done <= before then before - done else 0
  }

  lemma {:induction false} MissingDrops(changes: seq<Log>, b0: map<Address, Backfill>, b: map<Address, Backfill>,
                                        before: nat)
    requires Advanced(b0, b, before)
    ensures Missing(changes, b, before) <= Missing(changes, b0, before)
    ensures (exists l ::
               l in changes && NextOf(b0, NewManager(l), before) < NextOf(b, NewManager(l), before) <= before) ==>
              Missing(changes, b, before) < Missing(changes, b0, before)
  {
    hide NextOf, NewManager;
    if changes != [] {
      var front, last := changes[..|changes| - 1], changes[|changes| - 1];
      assert changes == front + [last];
      MissingDrops(front, b0, b, before);
      assert NextOf(b0, NewManager(last), before) <= NextOf(b, NewManager(last), before);
    }
  }

  function ManagerIn(registry: Address, from: int, end: int): Log -> bool {
    (l: Log) => IsManagerChange(registry, l) && from <= l.block <= end
  }

  /** A committed checkpoint's state agrees with the full history through its height. */
  ghost predicate Checkpoint(cfg: Config, h: seq<Log>, height: Option<Uint64>, auth: Auth) {
    height.Some? ==>
      && height.value >= cfg.inboxStart && AllManagers(h, cfg.registry, auth.known.Keys) && NamedAuth(auth)
      && Covered(auth, Past(h, height.value + 1, 0), cfg.registry)
  }

  /** Progress in memory that survives transient failures and is never published. */
  class Lookups {
    const cfg: Config
    ghost const history: seq<Log>
    var bootstrap: Option<Bootstrap>
    var backfills: map<Address, Backfill>

    constructor (cfg: Config, ghost history: seq<Log>)
      ensures this.cfg == cfg && this.history == history && bootstrap == None && backfills == map[]
    {
      this.cfg, this.history := cfg, history;
      bootstrap, backfills := None, map[];
    }

    ghost predicate ChainValid() { History(history) && cfg.batchSize >= 1 }

    /** Every page kept so far holds the manager's schedule up to the next page. */
    ghost predicate BackfillsValid()
      reads this
    {
      forall m :: m in backfills ==>
        var b := backfills[m];
        0 <= b.next <= b.before && Named(b.schedule) && b.schedule == ScheduleOf(Past(history, b.next, 0), m)
    }

    /** Every page so far has been replayed. */
    ghost predicate Replayed(b: Bootstrap) {
      && b.next <= cfg.inboxStart && (b.ready <==> b.next == cfg.inboxStart)
      && AllManagers(history, cfg.registry, b.auth.known.Keys) && NamedAuth(b.auth)
      && Covered(b.auth, Past(history, b.next, 0), cfg.registry)
    }

    ghost predicate BootstrapValid()
      reads this
    {
      bootstrap.Some? ==> cfg.inboxStart > 0 && Replayed(bootstrap.value)
    }

    ghost predicate Valid()
      reads this
    {
      ChainValid() && BackfillsValid() && BootstrapValid()
    }

    /** The next block whose events are to be applied, given the committed height. */
    ghost function Position(height: Option<Uint64>): nat
      reads this
    {
      if height.Some? then height.value + 1 else if bootstrap.Some? then bootstrap.value.next else 0
    }

    /** What is still to be backfilled before a window that starts at `from` can be scanned. */
    ghost function Undone(from: nat): nat
      reads this
    {
      Missing(Select(history, ManagerIn(cfg.registry, from, from + cfg.batchSize - 1)), backfills, from)
    }

    // -------------------------------------------------------------- backfilling one manager

    /** Fetches and applies the next page of a manager's past. */
    method NextPage(p: Provider, m: Address, progress: Backfill) returns (r: Progress<Backfill>)
      requires ChainValid() && Honest(cfg, history, p.logs) && progress.next < progress.before
      requires Named(progress.schedule) && progress.schedule == ScheduleOf(Past(history, progress.next, 0), m)
      ensures r != Pending
      ensures (forall q :: p.logs(q).Some?) ==> r != Lost
      ensures Sound(history, cfg.registry) && IsManager(history, cfg.registry, m) ==> r != Invalid
      ensures r.Complete? ==> r.value.before == progress.before && progress.next < r.value.next <= progress.before
                              && r.value.next - progress.next <= cfg.batchSize
                              && Named(r.value.schedule)
                              && r.value.schedule == ScheduleOf(Past(history, r.value.next, 0), m)
    {
      hide ScheduleOf, Select, History, Honest, Dedup, SortLogs, Past, Sound, IsManager, Named;
      var stop := progress.before - 1;
      if stop - progress.next >= cfg.batchSize {
        stop := progress.next + cfg.batchSize - 1;
      }
      var page := p.logs(SenderQuery(progress.next, stop, {m}));
      if page.None? {
        return Lost;
      }
      SenderAnswer(cfg, history, p.logs, progress.next, stop, {m});
      var prior := OrderedLogs(page.value, history);
      if prior.None? {
        return Invalid;
      }
      PageLogs(history, m, progress.next, stop, page.value);
      var s := ApplyPage(m, progress.next, stop, progress.schedule, prior.value);
      if s.None? {
        return Invalid;
      }
      return Complete(Backfill(progress.before, stop + 1, s.value));
    }

    /** One page of a newly found manager's past, from block 0 up to the block before `before`. */
    method BackfillManager(p: Provider, m: Address, before: Uint64) returns (r: Progress<Schedule>)
      requires ChainValid() && BackfillsValid() && Honest(cfg, history, p.logs)
      modifies this`backfills
      ensures BackfillsValid() && Advanced(old(backfills), backfills, before)
      ensures Responsive(p) ==> r != Lost
      ensures Sound(history, cfg.registry) && IsManager(history, cfg.registry, m) ==> r != Invalid
      ensures r == Pending ==> NextOf(old(backfills), m, before) < NextOf(backfills, m, before) <= before
      ensures r.Complete? ==> Named(r.value) && r.value == ScheduleOf(Past(history, before, 0), m)
    {
      hide ScheduleOf, Select, History, Honest, Past, Sound, IsManager, Named;
      assert Named(NO_SCHEDULE) by { NobodyNamed(); }
      NothingBefore(history, m);
      if before == 0 {
        return Complete(NO_SCHEDULE);
      }
      if m !in backfills || backfills[m].before != before {
        if !p.headers {
          return Lost;
        }
        backfills := backfills[m := Backfill(before, 0, NO_SCHEDULE)];
      }
      if !p.headers {
        return Lost;
      }
      var progress := backfills[m];
      if progress.next < before {
        var page := NextPage(p, m, progress);
        if !page.Complete? {
          return if page.Lost? then Lost else Invalid;
        }
        progress := page.value;
        backfills := backfills[m := progress];
      }
      if progress.next < before {
        return Pending;
      }
      return Complete(progress.schedule);
    }

    /** Applies a page of the manager's events on top of its schedule before the page. */
    method ApplyPage(m: Address, next: Uint64, stop: Uint64, schedule: Schedule, page: seq<Log>)
      returns (r: Option<Schedule>)
      requires History(history) && next <= stop
      requires Named(schedule) && schedule == ScheduleOf(Past(history, next, 0), m)
      requires page == Select(history, SenderIn(m, next, stop))
      ensures r.Some? ==> Named(r.value) && r.value == ScheduleOf(Past(history, stop + 1, 0), m)
      ensures Sound(history, cfg.registry) && IsManager(history, cfg.registry, m) ==> r.Some?
    {
      hide ScheduleOf, Select, History, Sound, IsManager, Named;
      var updated := new Authorization(Auth(ZERO_ADDRESS, map[m := schedule]));
      ghost var past := Past(history, next, 0);
      assert past + page[..0] == past;
      for i := 0 to |page|
        invariant updated.State() == Auth(ZERO_ADDRESS, map[m := ScheduleOf(past + page[..i], m)])
        invariant NamedAuth(updated.State())
      {
        assert page[i] in page;
        assert past + page[..i + 1] == (past + page[..i]) + [page[i]];
        OwnEvent(cfg.registry, m, past + page[..i], page[i]);
        ghost var before := updated.State();
        var ok := updated.Apply(cfg.registry, page[i]);
        if !ok {
          if Sound(history, cfg.registry) && IsManager(history, cfg.registry, m) {
            SoundOwnEvent(history, cfg.registry, m, page[i]);
          }
          return None;
        }
        ApplyNamed(cfg.registry, before, page[i]);
      }
      assert page[..|page|] == page;
      PageExtends(history, m, next, stop);
      assert updated.known[m] == updated.State().known[m];
      return Some(updated.known[m]);
    }

    // -------------------------------------------------------------- the events of a window

    /** Discovers the window's new managers, backfills each before its first use, and then asks for the
        events of every known manager. */
    method AuthLogs(p: Provider, a: Authorization, from: Uint64, end: Uint64) returns (r: Progress<seq<Log>>)
      requires ChainValid() && BackfillsValid() && Honest(cfg, history, p.logs) && from <= end < from + cfg.batchSize
      requires Covered(a.State(), Past(history, from, 0), cfg.registry)
      requires AllManagers(history, cfg.registry, a.known.Keys)
      requires NamedAuth(a.State())
      modifies this`backfills, a`known
      ensures BackfillsValid() && Advanced(old(backfills), backfills, from)
      ensures Covered(a.State(), Past(history, from, 0), cfg.registry)
      ensures AllManagers(history, cfg.registry, a.known.Keys)
      ensures NamedAuth(a.State())
      ensures Responsive(p) ==> r != Lost
      ensures Sound(history, cfg.registry) ==> r != Invalid
      ensures r == Pending ==> Undone(from) < old(Undone(from))
      ensures r.Complete? ==> ScanReady(history, cfg.registry, a.State(), r.value, from, end)
    {
      hide ScheduleOf, Select, History, Honest, Dedup, SortLogs, Past, ScanReady, Sound, NextOf, IsManager, Covered,
           Named;
      var changes := p.logs(ManagerQuery(from, end));
      if changes.None? {
        return Lost;
      }
      ManagerAnswer(cfg, history, p.logs, from, end);
      for i := 0 to |changes.value|
        invariant BackfillsValid() && Advanced(old(backfills), backfills, from)
        invariant Covered(a.State(), Past(history, from, 0), cfg.registry)
        invariant AllManagers(history, cfg.registry, a.known.Keys)
        invariant NamedAuth(a.State())
        invariant forall j :: 0 <= j < i ==>
          changes.value[j].event.AddressSet?
          && (changes.value[j].event.next == ZERO_ADDRESS || changes.value[j].event.next in a.known)
      {
        var l := changes.value[i];
        assert l in changes.value;
        if l.event.BadAddressSet? {
          NotSound(history, cfg.registry, l);
          return Invalid;
        }
        var next := l.event.next;
        if next == ZERO_ADDRESS || next in a.known {
          continue;
        }
        assert IsManager(history, cfg.registry, next) by { NamedManager(history, cfg.registry, l); }
        var schedule := BackfillManager(p, next, from);
        if !schedule.Complete? {
          assert l in Select(history, ManagerIn(cfg.registry, from, from + cfg.batchSize - 1));
          MissingDrops(Select(history, ManagerIn(cfg.registry, from, from + cfg.batchSize - 1)), old(backfills),
                       backfills, from);
          return if schedule.Lost? then Lost else if schedule.Pending? then Pending else Invalid;
        }
        CoveredMore(a.State(), Past(history, from, 0), cfg.registry, next, schedule.value);
        a.known := a.known[next := schedule.value];
      }
      var logs := changes.value;
      var addresses := a.known.Keys;
      if addresses != {} {
        var senders := p.logs(SenderQuery(from, end, addresses));
        if senders.None? {
          return Lost;
        }
        SenderAnswer(cfg, history, p.logs, from, end, addresses);
        logs := logs + senders.value;
      }
      forall l ensures l in logs <==> l in history && AskedIn(cfg.registry, addresses, from, end)(l) {
        assert Asked(cfg.registry, addresses)(l) <==>
          IsManagerChange(cfg.registry, l) || (IsSenderLog(l) && l.address in addresses);
      }
      var ordered := OrderedLogs(logs, history);
      if ordered.None? {
        return Invalid;
      }
      forall l | l in changes.value && l.event.AddressSet?
        ensures l.event.next == ZERO_ADDRESS || l.event.next in addresses
      {
        var j :| 0 <= j < |changes.value| && changes.value[j] == l;
      }
      WindowReady(history, cfg.registry, a.State(), logs, changes.value, from, end);
      return Complete(ordered.value);
    }

    /** Applies a page's events outside of a scan. */
    method ApplyLogs(a: Authorization, logs: seq<Log>) returns (ok: bool)
      modifies a
      ensures ok <==> ApplyAll(cfg.registry, old(a.State()), logs).Some?
      ensures ok ==> ApplyAll(cfg.registry, old(a.State()), logs) == Some(a.State())
    {
      hide ApplyLog;
      ghost var a0 := a.State();
      for i := 0 to |logs|
        invariant ApplyAll(cfg.registry, a0, logs[..i]) == Some(a.State())
      {
        assert logs[..i + 1] == logs[..i] + [logs[i]];
        ApplySnoc(cfg.registry, a0, logs[..i], logs[i]);
        var applied := a.Apply(cfg.registry, logs[i]);
        if !applied {
          ApplyPrefix(cfg.registry, a0, logs, i + 1);
          return false;
        }
      }
      assert logs[..|logs|] == logs;
      return true;
    }

    // -------------------------------------------------------------- the state a scan starts from

    /** The next page of the replay before the Inbox start. */
    method ReplayPage(p: Provider, b: Bootstrap) returns (r: Progress<Bootstrap>)
      requires ChainValid() && BackfillsValid() && Honest(cfg, history, p.logs) && Replayed(b)
      requires b.next < cfg.inboxStart
      modifies this`backfills
      ensures BackfillsValid()
      ensures Responsive(p) ==> r != Lost
      ensures Sound(history, cfg.registry) ==> r != Invalid
      ensures r == Pending ==> Undone(b.next) < old(Undone(b.next))
      ensures r.Complete? ==> Replayed(r.value) && b.next < r.value.next
    {
      hide ScheduleOf, Select, History, Honest, Past, Covered, ScanReady, Sound, AllManagers, Advanced, NextOf,
           ApplyAll, NamedAuth;
      var end := cfg.inboxStart - 1;
      var stop := end;
      if end - b.next >= cfg.batchSize {
        stop := b.next + cfg.batchSize - 1;
      }
      var a := new Authorization(b.auth);
      var logs := AuthLogs(p, a, b.next, stop);
      if !logs.Complete? {
        return if logs.Lost? then Lost else if logs.Pending? then Pending else Invalid;
      }
      ghost var a0 := a.State();
      if Sound(history, cfg.registry) {
        ScanApplies(history, cfg.registry, a0, logs.value, b.next, stop);
      }
      var ok := ApplyLogs(a, logs.value);
      if !ok {
        return Invalid;
      }
      WholeWindow(history, cfg.registry, a0, logs.value, b.next, stop);
      SameKnown(cfg.registry, a0, logs.value);
      ApplyAllNamed(cfg.registry, a0, logs.value);
      return Complete(Bootstrap(stop + 1, stop == end, a.State()));
    }

    /** The worker has moved on from `position`, or has less to backfill there than `undone`. */
    ghost predicate Closer(height: Option<Uint64>, position: nat, undone: nat)
      reads this
    {
      Position(height) > position || (Position(height) == position && Undone(position) < undone)
    }

    /** The committed state, or the forward replay of everything before the Inbox start, page by page. */
    method Initialize(p: Provider, height: Option<Uint64>, auth: Auth) returns (r: Progress<Auth>)
      requires Valid() && Checkpoint(cfg, history, height, auth) && Honest(cfg, history, p.logs)
      modifies this`bootstrap, this`backfills
      ensures Valid() && old(Position(height)) <= Position(height)
      ensures Responsive(p) ==> r != Lost
      ensures Sound(history, cfg.registry) ==> r != Invalid
      ensures r == Pending ==> Closer(height, old(Position(height)), old(Undone(Position(height))))
      ensures Position(height) == old(Position(height)) && r.Complete? ==> backfills == old(backfills)
      ensures r.Complete? ==>
        && Covered(r.value, Past(history, if height.Some? then height.value + 1 else cfg.inboxStart, 0), cfg.registry)
        && AllManagers(history, cfg.registry, r.value.known.Keys) && NamedAuth(r.value)
        && Position(height) == if height.Some? then height.value + 1 else cfg.inboxStart
    {
      hide ScheduleOf, Select, History, Honest, Past, Covered, ScanReady, Sound, AllManagers, NamedAuth;
      if height.Some? {
        return Complete(auth);
      }
      NothingCovered(history, cfg.registry);
      if cfg.inboxStart == 0 {
        return Complete(NO_AUTH);
      }
      if !p.headers {
        return Lost;
      }
      if bootstrap.None? {
        bootstrap := Some(Bootstrap(0, false, NO_AUTH));
      }
      if bootstrap.value.ready {
        return Complete(bootstrap.value.auth);
      }
      var page := ReplayPage(p, bootstrap.value);
      if !page.Complete? {
        return if page.Lost? then Lost else if page.Pending? then Pending else Invalid;
      }
      backfills := map[];
      bootstrap := Some(page.value);
      if !page.value.ready {
        return Pending;
      }
      return Complete(page.value.auth);
    }

    /** After a committed scan nothing of this is needed any more. */
    method Forget()
      requires Valid()
      modifies this`bootstrap, this`backfills
      ensures Valid() && bootstrap == None && backfills == map[]
    {
      bootstrap, backfills := None, map[];
    }
  }

  lemma NobodyNamed()
    ensures Named(NO_SCHEDULE)
  {
  }

  lemma CoveredMore(a: Auth, past: seq<Log>, registry: Address, m: Address, schedule: Schedule)
    requires Covered(a, past, registry) && m != ZERO_ADDRESS && m !in a.known && schedule == ScheduleOf(past, m)
    ensures Covered(a.(known := a.known[m := schedule]), past, registry)
  {
  }

  lemma NamedManager(h: seq<Log>, registry: Address, l: Log)
    requires l in h && IsManagerChange(registry, l) && l.event.AddressSet?
    ensures IsManager(h, registry, l.event.next)
  {
  }

  lemma NotSound(h: seq<Log>, registry: Address, l: Log)
    requires l in h && IsManagerChange(registry, l) && l.event.BadAddressSet?
    ensures !Sound(h, registry)
  {
    var k :| 0 <= k < |h| && h[k] == l;
    assert !GoodEvent(h[..k], registry, h[k]);
  }

  /** An event of a manager of a sound chain applies to a state that knows it. */
  lemma SoundOwnEvent(h: seq<Log>, registry: Address, m: Address, l: Log)
    requires Sound(h, registry) && IsManager(h, registry, m) && l in h && SenderBy(m)(l)
    ensures forall a: Auth :: m in a.known ==> ApplyLog(registry, a, l).Some?
  {
    hide IsManager;
    var k :| 0 <= k < |h| && h[k] == l;
    assert GoodEvent(h[..k], registry, h[k]);
  }

  lemma {:induction false} SameKnown(registry: Address, a: Auth, logs: seq<Log>)
    requires ApplyAll(registry, a, logs).Some?
    ensures ApplyAll(registry, a, logs).value.known.Keys == a.known.Keys
  {
    hide SetSender;
    if logs != [] {
      SameKnown(registry, a, logs[..|logs| - 1]);
    }
  }

  lemma ManagerAnswer(cfg: Config, h: seq<Log>, reply: Reply, from: Uint64, end: Uint64)
    requires Honest(cfg, h, reply) && reply(ManagerQuery(from, end)).Some?
    ensures forall l :: l in reply(ManagerQuery(from, end)).value <==>
              l in h && IsManagerChange(cfg.registry, l) && from <= l.block <= end
  {
  }

  lemma NothingCovered(h: seq<Log>, registry: Address)
    ensures Covered(NO_AUTH, Past(h, 0, 0), registry) && AllManagers(h, registry, NO_AUTH.known.Keys)
    ensures NamedAuth(NO_AUTH)
  {
    SelectNone(h, Before(0, 0));
  }

  /** The asked logs, once ordered, are ready to be merged. */
  lemma WindowReady(h: seq<Log>, registry: Address, a: Auth, logs: seq<Log>, changes: seq<Log>, from: Uint64,
                    end: Uint64)
    requires History(h) && Covered(a, Past(h, from, 0), registry) && from <= end
    requires forall l :: l in logs <==> l in h && AskedIn(registry, a.known.Keys, from, end)(l)
    requires forall l :: l in changes <==> l in h && IsManagerChange(registry, l) && from <= l.block <= end
    requires forall l :: l in changes && l.event.AddressSet? ==> l.event.next == ZERO_ADDRESS || l.event.next in a.known
    ensures ScanReady(h, registry, a, Dedup(SortLogs(logs)), from, end)
  {
    hide Covered, Past, Select, Dedup, SortLogs;
    SortedAnswer(h, AskedIn(registry, a.known.Keys, from, end), logs);
    forall l | l in Select(h, Stretch(from, end + 1, 0)) && IsManagerChange(registry, l) && l.event.AddressSet?
      ensures l.event.next == ZERO_ADDRESS || l.event.next in a.known
    {
      assert Stretch(from, end + 1, 0)(l) && Before(end + 1, 0)(l);
      assert l in changes;
    }
  }

  /** Applying all of a window's logs covers the history through the window. */
  lemma WholeWindow(h: seq<Log>, registry: Address, a: Auth, logs: seq<Log>, from: Uint64, end: Uint64)
    requires ScanReady(h, registry, a, logs, from, end) && from <= end && ApplyAll(registry, a, logs).Some?
    ensures Covered(ApplyAll(registry, a, logs).value, Past(h, end + 1, 0), registry)
  {
    hide Covered, Past, Select, ApplyAll, ScanReady;
    ReadyLogs(h, registry, a, logs, from, end);
    forall k | 0 <= k < |logs| ensures Before(end + 1, 0)(logs[k]) {}
    CutAt(logs, end + 1, 0, |logs|);
    assert logs[..|logs|] == logs;
    CoveredAt(h, registry, a, logs, from, end, end + 1, 0);
  }

  function SenderIn(m: Address, from: int, end: int): Log -> bool {
    (l: Log) => IsSenderLog(l) && l.address == m && from <= l.block <= end
  }

  /** The manager's next event either fails or moves a state that knows only this manager one event on. */
  lemma OwnEvent(registry: Address, m: Address, past: seq<Log>, l: Log)
    requires SenderBy(m)(l)
    ensures var r := ApplyLog(registry, Auth(ZERO_ADDRESS, map[m := ScheduleOf(past, m)]), l);
            r.Some? ==> r.value == Auth(ZERO_ADDRESS, map[m := ScheduleOf(past + [l], m)])
  {
    hide ScheduleOf;
    ScheduleSnoc(past, l, m);
  }

  lemma SenderAnswer(cfg: Config, h: seq<Log>, reply: Reply, from: Uint64, end: Uint64, addresses: set<Address>)
    requires Honest(cfg, h, reply) && reply(SenderQuery(from, end, addresses)).Some?
    ensures forall l :: l in reply(SenderQuery(from, end, addresses)).value <==>
              l in h && IsSenderLog(l) && l.address in addresses && from <= l.block <= end
  {
  }

  lemma NothingBefore(h: seq<Log>, m: Address)
    ensures Past(h, 0, 0) == [] && ScheduleOf(Past(h, 0, 0), m) == NO_SCHEDULE
  {
    SelectNone(h, Before(0, 0));
  }

  lemma PageLogs(h: seq<Log>, m: Address, from: Uint64, end: Uint64, logs: seq<Log>)
    requires History(h)
    requires forall l :: l in logs <==> l in h && IsSenderLog(l) && l.address == m && from <= l.block <= end
    ensures Dedup(SortLogs(logs)) == Select(h, SenderIn(m, from, end))
  {
    hide SortLogs, Dedup, Select, History;
    SortedAnswer(h, SenderIn(m, from, end), logs);
  }

  /** The past up to a page plus the page says the same about the manager as the past after the page. */
  lemma PageExtends(h: seq<Log>, m: Address, next: Uint64, stop: Uint64)
    requires History(h) && next <= stop
    ensures ScheduleOf(Past(h, next, 0) + Select(h, SenderIn(m, next, stop)), m) == ScheduleOf(Past(h, stop + 1, 0), m)
  {
    hide ScheduleOf, Select, History;
    var own, page := SenderBy(m), Select(h, SenderIn(m, next, stop));
    var older, newer := Past(h, next, 0), Past(h, stop + 1, 0);
    ScheduleFiltered(older + page, m);
    ScheduleFiltered(newer, m);
    SelectConcat(older, page, own);
    SelectAll(page, own);
    var both, low := (l: Log) => Before(stop + 1, 0)(l) && own(l), (l: Log) => Before(next, 0)(l) && own(l);
    SelectSelect(h, Before(stop + 1, 0), own, both);
    SelectSelect(h, Before(next, 0), own, low);
    SplitAt(h, both, low, SenderIn(m, next, stop), next);
  }
}
