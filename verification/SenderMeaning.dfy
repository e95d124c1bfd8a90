/** Who may send, said of the chain's logs alone. */
module SenderMeaning {
  import opened Prelude
  import opened StoreTypes
  import opened ChainLogs
  import opened SenderReplay

  // ---------------------------------------------------------------- managers

  /** The registry names another sender manager. */
  predicate Naming(registry: Address, l: Log) {
    l.address == registry && l.event.AddressSet? && l.event.name == InboxSenderManager
  }

  /** The manager that the last naming leads to; the zero address if there was none. */
  ghost predicate Managing(hs: seq<Log>, registry: Address, m: Address) {
    if exists i :: 0 <= i < |hs| && Naming(registry, hs[i]) then ManagingLast(hs, registry, m) else m == ZERO_ADDRESS
  }

  ghost predicate ManagingLast(hs: seq<Log>, registry: Address, m: Address) {
    exists i :: 0 <= i < |hs| && Naming(registry, hs[i]) && hs[i].event.next == m
      && forall j :: i < j < |hs| ==> !Naming(registry, hs[j])
  }

  lemma {:induction false} ManagerMeans(hs: seq<Log>, registry: Address)
    ensures Managing(hs, registry, ManagerOf(hs, registry))
  {
    if hs != [] {
      var front, l := hs[..|hs| - 1], hs[|hs| - 1];
      ManagerMeans(front, registry);
      assert forall i :: 0 <= i < |front| ==> hs[i] == front[i];
      if Naming(registry, l) {
        assert ManagingLast(hs, registry, l.event.next);
      } else if exists i :: 0 <= i < |front| && Naming(registry, front[i]) {
        var i :| 0 <= i < |front| && Naming(registry, front[i]) && front[i].event.next == ManagerOf(front, registry)
          && forall j :: i < j < |front| ==> !Naming(registry, front[j]);
        assert Naming(registry, hs[i]) && hs[i].event.next == ManagerOf(hs, registry);
        assert ManagingLast(hs, registry, ManagerOf(hs, registry));
      }
    }
  }

  // ---------------------------------------------------------------- schedules

  /** The manager sets who may send batches, or name blobs, from a block on. */
  predicate Setting(l: Log, m: Address, kind: SenderKind, effective: Uint64) {
    l.address == m && l.event.SenderSet? && l.event.kind == kind && l.event.effective == effective
  }

  /** The last setting of that kind for that block names this sender. */
  ghost predicate SetLast(hs: seq<Log>, m: Address, kind: SenderKind, effective: Uint64, sender: Address) {
    exists i :: 0 <= i < |hs| && Setting(hs[i], m, kind, effective) && hs[i].event.sender == sender
      && forall j :: i < j < |hs| ==> !Setting(hs[j], m, kind, effective)
  }

  /** The schedule's batch entries are exactly the manager's batch settings, its blob entries the blob settings; of
      several settings for one block the last counts. */
  lemma {:induction false} ScheduleMeans(hs: seq<Log>, m: Address, k: Uint64, sender: Address)
    ensures var s := ScheduleOf(hs, m);
      && (k in s.batch && s.batch[k] == sender <==> SetLast(hs, m, BatchSender, k, sender))
      && (k in s.blob && s.blob[k] == sender <==> SetLast(hs, m, BlobSender, k, sender))
  {
    hide SetLast;
    if hs == [] {
      NothingSet(m, k, sender);
    } else {
      var front, l := hs[..|hs| - 1], hs[|hs| - 1];
      assert hs == front + [l];
      ScheduleMeans(front, m, k, sender);
      SetSnoc(front, l, m, BatchSender, k, sender);
      SetSnoc(front, l, m, BlobSender, k, sender);
    }
  }

  lemma NothingSet(m: Address, k: Uint64, sender: Address)
    ensures forall kind :: !SetLast([], m, kind, k, sender)
  {
  }

  lemma SetSnoc(front: seq<Log>, l: Log, m: Address, kind: SenderKind, k: Uint64, sender: Address)
    ensures SetLast(front + [l], m, kind, k, sender) <==>
            if Setting(l, m, kind, k) then l.event.sender == sender else SetLast(front, m, kind, k, sender)
  {
    var hs := front + [l];
    assert hs[|front|] == l && forall i :: 0 <= i < |front| ==> hs[i] == front[i];
    if !Setting(l, m, kind, k) && SetLast(front, m, kind, k, sender) {
      var i :| 0 <= i < |front| && Setting(front[i], m, kind, k) && front[i].event.sender == sender
        && forall j :: i < j < |front| ==> !Setting(front[j], m, kind, k);
      assert Setting(hs[i], m, kind, k);
    }
  }

  // ---------------------------------------------------------------- who may send at a height

  /** Some setting of this kind has taken effect by then. */
  ghost predicate TakenEffect(hs: seq<Log>, m: Address, kind: SenderKind, height: Uint64) {
    exists i :: 0 <= i < |hs| && hs[i].event.SenderSet? && hs[i].event.effective <= height
      && Setting(hs[i], m, kind, hs[i].event.effective)
  }

  /** Of the settings in effect by then, the last one for the greatest effective block names this sender. */
  ghost predicate Newest(hs: seq<Log>, m: Address, kind: SenderKind, height: Uint64, sender: Address) {
    exists k: Uint64 :: k <= height && SetLast(hs, m, kind, k, sender)
      && forall i, j: Uint64 :: 0 <= i < |hs| && Setting(hs[i], m, kind, j) && j <= height ==> j <= k
  }

  /** Who may send batches, or name blobs, according to the logs: the manager named last decides, and without one, or
      before its first setting takes effect, the configured sender. */
  ghost predicate Rightful(hs: seq<Log>, registry: Address, kind: SenderKind, height: Uint64, fallback: Address,
                           sender: Address)
  {
    exists m :: Managing(hs, registry, m) &&
      if m == ZERO_ADDRESS || !TakenEffect(hs, m, kind, height) then sender == fallback
      else Newest(hs, m, kind, height, sender)
  }

  function KindOf(blob: bool): SenderKind { if blob then BlobSender else BatchSender }

  lemma {:induction false} SettingListed(hs: seq<Log>, m: Address, kind: SenderKind, i: nat)
    requires i < |hs| && hs[i].event.SenderSet? && Setting(hs[i], m, kind, hs[i].event.effective)
    ensures exists sender :: SetLast(hs, m, kind, hs[i].event.effective, sender)
  {
    hide SetLast;
    var front, l, k := hs[..|hs| - 1], hs[|hs| - 1], hs[i].event.effective;
    assert hs == front + [l];
    if Setting(l, m, kind, k) {
      SetSnoc(front, l, m, kind, k, l.event.sender);
    } else {
      assert front[i] == hs[i];
      SettingListed(front, m, kind, i);
      var sender :| SetLast(front, m, kind, k, sender);
      SetSnoc(front, l, m, kind, k, sender);
    }
  }

  /** The entry of a schedule for a block is there exactly when the logs set it. */
  lemma EntryMeans(hs: seq<Log>, m: Address, blob: bool, k: Uint64)
    ensures var entries := Entries(ScheduleOf(hs, m), blob);
      && (k in entries <==> exists i :: 0 <= i < |hs| && Setting(hs[i], m, KindOf(blob), k))
      && (k in entries ==> SetLast(hs, m, KindOf(blob), k, entries[k]))
  {
    hide SetLast, ScheduleOf;
    var entries := Entries(ScheduleOf(hs, m), blob);
    if k in entries {
      ScheduleMeans(hs, m, k, entries[k]);
      SetSomewhere(hs, m, KindOf(blob), k, entries[k]);
    }
    if i :| 0 <= i < |hs| && Setting(hs[i], m, KindOf(blob), k) {
      SettingListed(hs, m, KindOf(blob), i);
      var sender :| SetLast(hs, m, KindOf(blob), k, sender);
      ScheduleMeans(hs, m, k, sender);
    }
  }

  lemma SetSomewhere(hs: seq<Log>, m: Address, kind: SenderKind, k: Uint64, sender: Address)
    requires SetLast(hs, m, kind, k, sender)
    ensures exists i :: 0 <= i < |hs| && Setting(hs[i], m, kind, k)
  {
  }

  /** The sender that the replay authorizes is the rightful one. */
  lemma SenderMeans(hs: seq<Log>, registry: Address, blob: bool, height: Uint64, fallback: Address)
    ensures Rightful(hs, registry, KindOf(blob), height, fallback, SenderOf(hs, registry, height, blob, fallback))
  {
    hide SetLast, ScheduleOf, ManagerOf, Managing, Setting;
    var m, sender := ManagerOf(hs, registry), SenderOf(hs, registry, height, blob, fallback);
    ManagerMeans(hs, registry);
    if m != ZERO_ADDRESS {
      var kind, entries := KindOf(blob), Entries(ScheduleOf(hs, m), blob);
      forall k: Uint64
        ensures k in entries <==> exists i :: 0 <= i < |hs| && Setting(hs[i], m, kind, k)
        ensures k in entries ==> SetLast(hs, m, kind, k, entries[k])
      {
        EntryMeans(hs, m, blob, k);
      }
      EffectMeans(hs, m, kind, height);
      if TakenEffect(hs, m, kind, height) {
        var i, k0: Uint64 :| 0 <= i < |hs| && k0 <= height && Setting(hs[i], m, kind, k0);
        assert k0 in entries;
        var k: Uint64 :| k in entries && k <= height && entries[k] == sender
          && forall j :: j in entries && j <= height ==> j <= k;
        assert SetLast(hs, m, kind, k, sender);
        forall i, j: Uint64 | 0 <= i < |hs| && Setting(hs[i], m, kind, j) && j <= height ensures j <= k {
          assert j in entries;
        }
        assert Newest(hs, m, kind, height, sender);
      }
    }
  }

  lemma EffectMeans(hs: seq<Log>, m: Address, kind: SenderKind, height: Uint64)
    ensures TakenEffect(hs, m, kind, height) <==>
            exists i, k: Uint64 :: 0 <= i < |hs| && k <= height && Setting(hs[i], m, kind, k)
  {
  }

  lemma RightfulUnique(hs: seq<Log>, registry: Address, kind: SenderKind, height: Uint64, fallback: Address,
                       a: Address, b: Address)
    requires Rightful(hs, registry, kind, height, fallback, a) && Rightful(hs, registry, kind, height, fallback, b)
    ensures a == b
  {
    hide TakenEffect;
  }

  /** The chain's logs strictly before a transaction, in order. */
  ghost predicate LogsBefore(h: seq<Log>, height: Uint64, tx: nat, hs: seq<Log>) {
    && Ascending(hs)
    && forall l :: l in hs <==> l in h && (l.block < height || (l.block == height && l.tx < tx))
  }
}
