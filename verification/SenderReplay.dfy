/** The meaning of sender authorization: replaying the chain's whole history of manager changes and
    of every manager's own sender events. */
module SenderReplay {
  import opened Prelude
  import opened StoreTypes
  import opened ChainLogs

  /** Authorized sender from an effective block on, for batches and for blobs. */
  datatype Schedule = Schedule(batch: map<Uint64, Address>, blob: map<Uint64, Address>)

  const NO_SCHEDULE: Schedule := Schedule(map[], map[])

  datatype Auth = Auth(manager: Address, known: map<Address, Schedule>)

  const NO_AUTH: Auth := Auth(ZERO_ADDRESS, map[])

  predicate IsManagerChange(registry: Address, l: Log) {
    l.address == registry && (l.event.AddressSet? || l.event.BadAddressSet?) && l.event.name == InboxSenderManager
  }

  predicate IsSenderLog(l: Log) { l.event.SenderSet? || l.event.BadSenderSet? }

  function SetSender(s: Schedule, l: Log): Schedule
    requires l.event.SenderSet?
  {
    if l.event.kind == BatchSender then s.(batch := s.batch[l.event.effective := l.event.sender])
    else s.(blob := s.blob[l.event.effective := l.event.sender])
  }

  // ---------------------------------------------------------------- full replay

  /** Last write wins, over all of the manager's own events. */
  function ScheduleOf(hs: seq<Log>, manager: Address): Schedule {
    if hs == [] then NO_SCHEDULE else
    var before, l := ScheduleOf(hs[..|hs| - 1], manager), hs[|hs| - 1];
    if l.address == manager && l.event.SenderSet? then SetSender(before, l) else before
  }

  /** The manager the last address change names. */
  function ManagerOf(hs: seq<Log>, registry: Address): Address {
    if hs == [] then ZERO_ADDRESS else
    var l := hs[|hs| - 1];
    if IsManagerChange(registry, l) && l.event.AddressSet? then l.event.next else ManagerOf(hs[..|hs| - 1], registry)
  }

  /** The sender in force at a height: the entry with the greatest effective block not above it. */
  ghost predicate InForce(entries: map<Uint64, Address>, height: Uint64, fallback: Address, sender: Address) {
    || ((forall k :: k in entries ==> k > height) && sender == fallback)
    || (exists k :: k in entries && k <= height && entries[k] == sender
          && forall j :: j in entries && j <= height ==> j <= k)
  }

  lemma InForceUnique(entries: map<Uint64, Address>, height: Uint64, fallback: Address, a: Address, b: Address)
    requires InForce(entries, height, fallback, a) && InForce(entries, height, fallback, b)
    ensures a == b
  {
  }

  function Entries(s: Schedule, blob: bool): map<Uint64, Address> { if blob then s.blob else s.batch }

  /** Who may send, according to the whole history `hs`. */
  ghost predicate Authorized(hs: seq<Log>, registry: Address, height: Uint64, blob: bool, fallback: Address,
                             sender: Address) {
    var manager := ManagerOf(hs, registry);
    if manager == ZERO_ADDRESS then sender == fallback
    else InForce(Entries(ScheduleOf(hs, manager), blob), height, fallback, sender)
  }

  lemma NewestInForce(entries: map<Uint64, Address>, height: Uint64, fallback: Address, k: Uint64)
    requires k in entries && k <= height && forall j :: j in entries && j <= height ==> j <= k
    ensures InForce(entries, height, fallback, entries[k])
  {
  }

  lemma InForceExists(entries: map<Uint64, Address>, height: Uint64, fallback: Address)
    ensures exists sender :: InForce(entries, height, fallback, sender)
  {
    var reached := set k: Uint64 | k in entries && k <= height;
    if reached == {} {
      forall k | k in entries ensures k > height {
        assert k !in reached;
      }
      assert InForce(entries, height, fallback, fallback);
    } else {
      var k := Largest(reached);
      assert k in reached;
      forall j: Uint64 | j in entries && j <= height ensures j <= k {
        assert j in reached;
      }
      NewestInForce(entries, height, fallback, k);
    }
  }

  /** The one sender the whole history authorizes. */
  ghost function SenderOf(hs: seq<Log>, registry: Address, height: Uint64, blob: bool, fallback: Address)
    : (sender: Address)
    ensures Authorized(hs, registry, height, blob, fallback, sender)
    ensures forall s :: Authorized(hs, registry, height, blob, fallback, s) ==> s == sender
  {
    var manager := ManagerOf(hs, registry);
    if manager == ZERO_ADDRESS then fallback else
    var entries := Entries(ScheduleOf(hs, manager), blob);
    InForceExists(entries, height, fallback);
    var sender :| InForce(entries, height, fallback, sender);
    sender
  }

  // ---------------------------------------------------------------- what a partial state must say

  /** The state agrees with the history about its manager and about every manager it knows. */
  ghost predicate Covered(a: Auth, hs: seq<Log>, registry: Address) {
    && a.manager == ManagerOf(hs, registry)
    && (a.manager != ZERO_ADDRESS ==> a.manager in a.known)
    && ZERO_ADDRESS !in a.known
    && (forall m :: m in a.known ==> a.known[m] == ScheduleOf(hs, m))
  }

  /** Specification of one event; None is any of the fatal errors. */
  function ApplyLog(registry: Address, a: Auth, l: Log): Option<Auth> {
    if IsManagerChange(registry, l) then
      if l.event.BadAddressSet? || l.event.prev != a.manager then None else Some(a.(manager := l.event.next))
    else if !l.event.SenderSet? || l.event.sender == ZERO_ADDRESS || l.address !in a.known then None
    else Some(a.(known := a.known[l.address := SetSender(a.known[l.address], l)]))
  }

  function ApplyAll(registry: Address, a: Auth, logs: seq<Log>): Option<Auth> {
    if logs == [] then Some(a) else
    var before := ApplyAll(registry, a, logs[..|logs| - 1]);
    if before.None? then None else ApplyLog(registry, before.value, logs[|logs| - 1])
  }

  /** The events a worker that knows `known` asks for. */
  function Asked(registry: Address, known: set<Address>): Log -> bool {
    (l: Log) => IsManagerChange(registry, l) || (IsSenderLog(l) && l.address in known)
  }

  /** Every manager the events switch to is already known. */
  ghost predicate Discovered(registry: Address, known: set<Address>, logs: seq<Log>) {
    forall l :: l in logs && IsManagerChange(registry, l) && l.event.AddressSet? ==>
      l.event.next == ZERO_ADDRESS || l.event.next in known
  }

  lemma ScheduleSnoc(hs: seq<Log>, l: Log, m: Address)
    ensures ScheduleOf(hs + [l], m) ==
            if l.address == m && l.event.SenderSet? then SetSender(ScheduleOf(hs, m), l) else ScheduleOf(hs, m)
  {
    assert (hs + [l])[..|hs|] == hs;
  }

  lemma ManagerSnoc(hs: seq<Log>, l: Log, registry: Address)
    ensures ManagerOf(hs + [l], registry) ==
            if IsManagerChange(registry, l) && l.event.AddressSet? then l.event.next else ManagerOf(hs, registry)
  {
    assert (hs + [l])[..|hs|] == hs;
  }

  /** Applying an asked event, or leaving out one that was not asked for, keeps the agreement. */
  lemma CoverStep(registry: Address, a: Auth, hs: seq<Log>, l: Log)
    requires Covered(a, hs, registry) && Discovered(registry, a.known.Keys, [l])
    ensures Asked(registry, a.known.Keys)(l) && ApplyLog(registry, a, l).Some? ==>
              var a' := ApplyLog(registry, a, l).value;
              Covered(a', hs + [l], registry) && a'.known.Keys == a.known.Keys
    ensures !Asked(registry, a.known.Keys)(l) ==> Covered(a, hs + [l], registry)
  {
    hide ScheduleOf, ManagerOf, SetSender;
    assert l in [l];
    ManagerSnoc(hs, l, registry);
    forall m ensures ScheduleOf(hs + [l], m) ==
                     if l.address == m && l.event.SenderSet? then SetSender(ScheduleOf(hs, m), l) else ScheduleOf(hs, m)
    {
      ScheduleSnoc(hs, l, m);
    }
  }

  /** An asked event fails only if it does not decode, names the zero sender, or breaks the chain of
      manager addresses; the unknown-manager error never happens. */
  lemma ApplyFailsOnlyOnBadEvents(registry: Address, a: Auth, hs: seq<Log>, l: Log)
    requires Covered(a, hs, registry) && Asked(registry, a.known.Keys)(l)
    ensures ApplyLog(registry, a, l).None? <==>
              l.event.BadAddressSet? || l.event.BadSenderSet?
              || (l.event.SenderSet? && l.event.sender == ZERO_ADDRESS)
              || (l.event.AddressSet? && l.event.prev != ManagerOf(hs, registry))
  {
  }

  lemma ApplySnoc(registry: Address, a: Auth, logs: seq<Log>, l: Log)
    ensures ApplyAll(registry, a, logs + [l]) ==
            var before := ApplyAll(registry, a, logs);
            if before.None? then None else ApplyLog(registry, before.value, l)
  {
    assert (logs + [l])[..|logs|] == logs;
  }

  lemma DiscoveredSnoc(registry: Address, known: set<Address>, front: seq<Log>, last: Log)
    requires Discovered(registry, known, front + [last])
    ensures Discovered(registry, known, front) && Discovered(registry, known, [last])
  {
    assert forall l :: l in front ==> l in front + [last];
    assert last in front + [last];
  }

  /** Applying only the asked events of a stretch of history leads to agreement with all of it. */
  lemma {:induction false} CoverAll(registry: Address, a: Auth, hs: seq<Log>, more: seq<Log>)
    requires Covered(a, hs, registry) && Discovered(registry, a.known.Keys, more)
    requires ApplyAll(registry, a, Select(more, Asked(registry, a.known.Keys))).Some?
    ensures var r := ApplyAll(registry, a, Select(more, Asked(registry, a.known.Keys))).value;
            Covered(r, hs + more, registry) && r.known.Keys == a.known.Keys
  {
    hide ApplyLog, Covered, Asked, Select, Discovered;
    if more == [] {
      assert hs + more == hs;
      assert Select(more, Asked(registry, a.known.Keys)) == [] by { SelectNone([], Asked(registry, a.known.Keys)); }
    } else {
      var front, last := more[..|more| - 1], more[|more| - 1];
      assert more == front + [last] && hs + more == (hs + front) + [last];
      DiscoveredSnoc(registry, a.known.Keys, front, last);
      SelectSnoc(front, last, Asked(registry, a.known.Keys));
      ApplySnoc(registry, a, Select(front, Asked(registry, a.known.Keys)), last);
      CoverAll(registry, a, hs, front);
      CoverStep(registry, ApplyAll(registry, a, Select(front, Asked(registry, a.known.Keys))).value, hs + front, last);
    }
  }

  // ---------------------------------------------------------------- a manager's own events

  function SenderBy(m: Address): Log -> bool { (l: Log) => IsSenderLog(l) && l.address == m }

  /** A schedule depends only on its manager's own sender events. */
  lemma {:induction false} ScheduleFiltered(hs: seq<Log>, m: Address)
    ensures ScheduleOf(Select(hs, SenderBy(m)), m) == ScheduleOf(hs, m)
  {
    if hs != [] {
      var front, last := hs[..|hs| - 1], hs[|hs| - 1];
      assert hs == front + [last];
      ScheduleFiltered(front, m);
      SelectSnoc(front, last, SenderBy(m));
      ScheduleSnoc(front, last, m);
      ScheduleSnoc(Select(front, SenderBy(m)), last, m);
    }
  }

  // ---------------------------------------------------------------- chains without fatal events

  /** Some manager change of the chain leads to this address. */
  ghost predicate IsManager(h: seq<Log>, registry: Address, m: Address) {
    exists l :: l in h && IsManagerChange(registry, l) && l.event.AddressSet? && l.event.next == m
  }

  /** The event decodes, names a sender, and a manager change continues from the manager before it. */
  ghost predicate GoodEvent(before: seq<Log>, registry: Address, l: Log) {
    && (l.event.AddressSet? ==> l.event.prev == ManagerOf(before, registry))
    && (l.event.SenderSet? ==> l.event.sender != ZERO_ADDRESS)
    && !l.event.BadAddressSet? && !l.event.BadSenderSet?
  }

  /** Every manager change and every event of a manager is good. */
  ghost predicate Sound(h: seq<Log>, registry: Address) {
    forall k :: 0 <= k < |h| ==>
      IsManagerChange(registry, h[k]) || (IsSenderLog(h[k]) && IsManager(h, registry, h[k].address)) ==>
        GoodEvent(h[..k], registry, h[k])
  }

  ghost predicate AllManagers(h: seq<Log>, registry: Address, known: set<Address>) {
    forall m :: m in known ==> IsManager(h, registry, m)
  }

  /** The asked events of a stretch of a sound chain always apply. */
  lemma {:induction false} SoundApplies(h: seq<Log>, registry: Address, a: Auth, i: nat, j: nat)
    requires Sound(h, registry) && AllManagers(h, registry, a.known.Keys)
    requires i <= j <= |h| && Covered(a, h[..i], registry) && Discovered(registry, a.known.Keys, h[i..j])
    ensures ApplyAll(registry, a, Select(h[i..j], Asked(registry, a.known.Keys))).Some?
  {
    hide ApplyLog, ApplyAll, Covered, Select, Discovered, Sound, AllManagers;
    var asked := Asked(registry, a.known.Keys);
    if i == j {
      SelectNone(h[i..j], asked);
      assert ApplyAll(registry, a, []) == Some(a) by { ApplyNone(registry, a); }
    } else {
      var front, last := h[i..j - 1], h[j - 1];
      assert h[i..j] == front + [last] && h[..i] + front == h[..j - 1];
      DiscoveredSnoc(registry, a.known.Keys, front, last);
      SoundApplies(h, registry, a, i, j - 1);
      CoverAll(registry, a, h[..i], front);
      SelectSnoc(front, last, asked);
      ApplySnoc(registry, a, Select(front, asked), last);
      if asked(last) {
        GoodApplies(h, registry, ApplyAll(registry, a, Select(front, asked)).value, j - 1);
      }
    }
  }

  lemma ApplyNone(registry: Address, a: Auth)
    ensures ApplyAll(registry, a, []) == Some(a)
  {
  }

  lemma GoodApplies(h: seq<Log>, registry: Address, a: Auth, k: nat)
    requires Sound(h, registry) && AllManagers(h, registry, a.known.Keys) && k < |h|
    requires Covered(a, h[..k], registry) && Asked(registry, a.known.Keys)(h[k])
    ensures ApplyLog(registry, a, h[k]).Some?
  {
    hide ApplyLog, Covered, IsManager;
    assert GoodEvent(h[..k], registry, h[k]);
    ApplyFailsOnlyOnBadEvents(registry, a, h[..k], h[k]);
  }

  // ---------------------------------------------------------------- states that can be stored

  predicate AllNamed(entries: map<Uint64, Address>) { forall k :: k in entries ==> entries[k] != ZERO_ADDRESS }

  predicate Named(s: Schedule) { AllNamed(s.batch) && AllNamed(s.blob) }

  /** No schedule names the zero sender. */
  predicate NamedAuth(a: Auth) { forall m :: m in a.known ==> Named(a.known[m]) }

  lemma ApplyNamed(registry: Address, a: Auth, l: Log)
    requires NamedAuth(a) && ApplyLog(registry, a, l).Some?
    ensures NamedAuth(ApplyLog(registry, a, l).value)
  {
    if !IsManagerChange(registry, l) {
      assert Named(a.known[l.address]);
      assert Named(SetSender(a.known[l.address], l));
    }
  }

  lemma {:induction false} ApplyAllNamed(registry: Address, a: Auth, logs: seq<Log>)
    requires NamedAuth(a) && ApplyAll(registry, a, logs).Some?
    ensures NamedAuth(ApplyAll(registry, a, logs).value)
  {
    hide ApplyLog, NamedAuth;
    if logs != [] {
      ApplyAllNamed(registry, a, logs[..|logs| - 1]);
      ApplyNamed(registry, ApplyAll(registry, a, logs[..|logs| - 1]).value, logs[|logs| - 1]);
    }
  }
}
