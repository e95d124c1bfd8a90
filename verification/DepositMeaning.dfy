/** What the deposit fold means, said of the chain's logs alone. */
module DepositMeaning {
  import opened Prelude
  import opened StoreTypes
  import opened DepositQueue
  import opened ChainLogs
  import opened DepositReplay

  // ---------------------------------------------------------------- what counts

  /** Logs read from a contract on, with deposits counting from a block on. */
  datatype Scope = Scope(cfg: Config, from: int, ctc: Address)

  /** All of the chain: no contract yet, and deposits from the configured start on. */
  function Whole(cfg: Config): Scope { Scope(cfg, cfg.start, ZERO_ADDRESS) }

  /** The manager names another deposit contract. */
  predicate Naming(w: Scope, l: Log) {
    l.address == w.cfg.manager && l.event.AddressSet? && l.event.name == CanonicalTransactionChain
  }

  /** The contract that the last naming before leads to; the one before them all if there was none. */
  ghost predicate Named(w: Scope, before: seq<Log>, a: Address) {
    if exists i :: 0 <= i < |before| && Naming(w, before[i]) then NamedLast(w, before, a) else a == w.ctc
  }

  ghost predicate NamedLast(w: Scope, before: seq<Log>, a: Address) {
    exists i :: 0 <= i < |before| && Naming(w, before[i]) && before[i].event.next == a
      && forall j :: i < j < |before| ==> !Naming(w, before[j])
  }

  /** A deposit of this chain, of the blocks that count, by the contract named last before it. */
  ghost predicate Deposit(w: Scope, logs: seq<Log>, k: nat) {
    && k < |logs| && logs[k].block >= w.from
    && logs[k].event.Enqueued? && logs[k].event.chain == w.cfg.l2Chain && Named(w, logs[..k], logs[k].address)
  }

  /** A log that stops synchronization: a naming that does not decode or does not continue from the contract named
      last before it, or a deposit of that contract that does not decode. */
  ghost predicate Faulty(w: Scope, logs: seq<Log>, k: nat) {
    && k < |logs|
    && var l := logs[k];
       || (l.address == w.cfg.manager && l.event.BadAddressSet? && l.event.name == CanonicalTransactionChain)
       || (Naming(w, l) && !Named(w, logs[..k], l.event.prev))
       || (l.block >= w.from && l.event.BadEnqueued? && Named(w, logs[..k], l.address))
  }

  /** The records are those of the deposits, in chain order, and nothing else. */
  ghost predicate RecordsOf(w: Scope, logs: seq<Log>, records: seq<Record>) {
    exists ps: seq<nat> :: Positions(w, logs, records, ps)
  }

  ghost predicate Positions(w: Scope, logs: seq<Log>, records: seq<Record>, ps: seq<nat>) {
    && |ps| == |records|
    && (forall i, j :: 0 <= i < j < |ps| ==> ps[i] < ps[j])
    && (forall k: nat :: k in ps <==> Deposit(w, logs, k))
    && (forall i :: 0 <= i < |ps| ==> Deposit(w, logs, ps[i]) && records[i] == logs[ps[i]].event.record)
  }

  lemma RecordsUnique(w: Scope, logs: seq<Log>, a: seq<Record>, b: seq<Record>)
    requires RecordsOf(w, logs, a) && RecordsOf(w, logs, b)
    ensures a == b
  {
    hide Positions;
    var ps: seq<nat> :| Positions(w, logs, a, ps);
    var qs: seq<nat> :| Positions(w, logs, b, qs);
    SamePositions(w, logs, a, ps, b, qs);
    SameRecords(w, logs, a, b, ps);
  }

  lemma SamePositions(w: Scope, logs: seq<Log>, a: seq<Record>, ps: seq<nat>, b: seq<Record>, qs: seq<nat>)
    requires Positions(w, logs, a, ps) && Positions(w, logs, b, qs)
    ensures ps == qs
  {
    hide Deposit;
    SameAscending(ps, qs);
  }

  lemma SameRecords(w: Scope, logs: seq<Log>, a: seq<Record>, b: seq<Record>, ps: seq<nat>)
    requires Positions(w, logs, a, ps) && Positions(w, logs, b, ps)
    ensures a == b
  {
    hide Deposit;
    DepositsInside(w, logs);
    assert forall i :: 0 <= i < |a| ==> Deposit(w, logs, ps[i]) && a[i] == b[i];
  }

  lemma {:induction false} SameAscending(ps: seq<nat>, qs: seq<nat>)
    requires (forall i, j :: 0 <= i < j < |ps| ==> ps[i] < ps[j]) && forall i, j :: 0 <= i < j < |qs| ==> qs[i] < qs[j]
    requires forall k :: k in ps <==> k in qs
    ensures ps == qs
  {
    assert ps != [] ==> ps[0] in qs;
    assert qs != [] ==> qs[0] in ps;
    if ps != [] && qs != [] {
      var m, n := |ps| - 1, |qs| - 1;
      assert ps[m] in qs && qs[n] in ps;
      assert ps[m] == qs[n];
      forall k ensures k in ps[..m] <==> k in qs[..n] {
        assert k in ps[..m] <==> k in ps && k != ps[m];
        assert k in qs[..n] <==> k in qs && k != qs[n];
      }
      SameAscending(ps[..m], qs[..n]);
    }
  }

  // ---------------------------------------------------------------- one more log

  lemma NamedUnique(w: Scope, before: seq<Log>, a: Address, b: Address)
    requires Named(w, before, a) && Named(w, before, b)
    ensures a == b
  {
  }

  lemma NamedNone(w: Scope)
    ensures Named(w, [], w.ctc)
  {
  }

  lemma NamedSnoc(w: Scope, before: seq<Log>, l: Log, a: Address)
    requires Named(w, before, a)
    ensures Named(w, before + [l], if Naming(w, l) then l.event.next else a)
  {
    var all := before + [l];
    assert all[|before|] == l && forall i :: 0 <= i < |before| ==> all[i] == before[i];
    if Naming(w, l) {
      assert NamedLast(w, all, l.event.next);
    } else if exists i :: 0 <= i < |before| && Naming(w, before[i]) {
      var i :| 0 <= i < |before| && Naming(w, before[i]) && before[i].event.next == a
        && forall j :: i < j < |before| ==> !Naming(w, before[j]);
      assert Naming(w, all[i]) && all[i].event.next == a;
      assert NamedLast(w, all, a);
    }
  }

  lemma SnocKeeps(w: Scope, logs: seq<Log>, l: Log, k: nat)
    requires k < |logs|
    ensures Deposit(w, logs + [l], k) <==> Deposit(w, logs, k)
    ensures Faulty(w, logs + [l], k) <==> Faulty(w, logs, k)
  {
    assert (logs + [l])[..k] == logs[..k];
  }

  lemma SnocLast(w: Scope, logs: seq<Log>, l: Log)
    ensures (logs + [l])[|logs|] == l && (logs + [l])[..|logs|] == logs
  {
  }

  lemma RecordsSnoc(w: Scope, logs: seq<Log>, l: Log, records: seq<Record>)
    requires RecordsOf(w, logs, records)
    ensures var all := logs + [l];
            RecordsOf(w, all, if Deposit(w, all, |logs|) then records + [l.event.record] else records)
  {
    hide Deposit, Positions;
    var all := logs + [l];
    var ps: seq<nat> :| Positions(w, logs, records, ps);
    SnocLast(w, logs, l);
    forall k: nat | k < |logs| ensures Deposit(w, all, k) <==> Deposit(w, logs, k) { SnocKeeps(w, logs, l, k); }
    DepositsInside(w, all);
    if Deposit(w, all, |logs|) {
      OneMorePosition(w, logs, l, records, ps);
    } else {
      NoMorePositions(w, logs, l, records, ps);
    }
  }

  lemma NoMorePositions(w: Scope, logs: seq<Log>, l: Log, records: seq<Record>, ps: seq<nat>)
    requires Positions(w, logs, records, ps) && !Deposit(w, logs + [l], |logs|)
    requires forall k: nat :: k < |logs| ==> (Deposit(w, logs + [l], k) <==> Deposit(w, logs, k))
    ensures Positions(w, logs + [l], records, ps)
  {
    hide Deposit;
    DepositsInside(w, logs);
    DepositsInside(w, logs + [l]);
  }

  lemma OneMorePosition(w: Scope, logs: seq<Log>, l: Log, records: seq<Record>, ps: seq<nat>)
    requires Positions(w, logs, records, ps) && Deposit(w, logs + [l], |logs|) && l.event.Enqueued?
    requires forall k: nat :: k < |logs| ==> (Deposit(w, logs + [l], k) <==> Deposit(w, logs, k))
    ensures Positions(w, logs + [l], records + [l.event.record], ps + [|logs|])
  {
    hide Deposit;
    var all, more := logs + [l], ps + [|logs|];
    DepositsInside(w, logs);
    DepositsInside(w, all);
    forall k: nat ensures k in more <==> Deposit(w, all, k) {
      assert k in more <==> k in ps || k == |logs|;
    }
    forall i | 0 <= i < |more|
      ensures Deposit(w, all, more[i]) && (records + [l.event.record])[i] == all[more[i]].event.record
    {
      if i < |ps| {
        assert more[i] == ps[i] && Deposit(w, logs, ps[i]);
      }
    }
  }

  lemma DepositsInside(w: Scope, logs: seq<Log>)
    ensures forall k: nat :: Deposit(w, logs, k) ==> k < |logs| && logs[k].event.Enqueued?
  {
  }

  // ---------------------------------------------------------------- the fold

  function Through(end: int): Log -> bool { (l: Log) => l.block <= end }

  /** What the fold so far says of the logs so far. */
  ghost predicate Means(w: Scope, logs: seq<Log>, f: Folded) {
    && (f.Broken? <==> exists k: nat :: Faulty(w, logs, k))
    && (f.At? ==> Named(w, logs, f.ctc) && RecordsOf(w, logs, f.records))
  }

  /** What is folded at all: changes from block 0 on, deposits from the start on. */
  predicate Matters(w: Scope, l: Log) { IsChange(w.cfg, l) || (l.block >= w.from && IsEnqueue(l)) }

  /** One log more, folded exactly if it can matter. */
  lemma MeansSnoc(w: Scope, logs: seq<Log>, l: Log, f: Folded)
    requires Means(w, logs, f)
    ensures Means(w, logs + [l],
              if Matters(w, l) then Apply(w.cfg, f, l) else f)
  {
    hide RecordsOf;
    var all := logs + [l];
    SnocLast(w, logs, l);
    forall k: nat | k < |logs| ensures Faulty(w, all, k) <==> Faulty(w, logs, k) { SnocKeeps(w, logs, l, k); }
    if f.At? {
      NamedSnoc(w, logs, l, f.ctc);
      RecordsSnoc(w, logs, l, f.records);
      forall a | Named(w, logs, a) ensures a == f.ctc { NamedUnique(w, logs, a, f.ctc); }
      assert Faulty(w, all, |logs|) <==> Matters(w, l) && Apply(w.cfg, f, l).Broken?;
    } else {
      var k: nat :| Faulty(w, logs, k);
      assert Faulty(w, all, k);
    }
  }

  lemma MeansNothing(w: Scope)
    ensures Means(w, [], At(w.ctc, []))
  {
    NamedNone(w);
    assert Positions(w, [], [], []);
  }

  /** The replay through a block, one log of history at a time. */
  lemma ReplaySnoc(cfg: Config, h: seq<Log>, l: Log, end: int)
    requires History(h + [l]) && cfg.start - 1 <= end
    ensures var before := Replay(cfg, h, end);
      Replay(cfg, h + [l], end) ==
      if l.block <= end && Matters(Whole(cfg), l) then Apply(cfg, before, l) else before
  {
    hide Apply, Fold, Select, History, Relevant;
    var early, late := Changes(cfg, 0, cfg.start - 1), RelevantIn(cfg, cfg.start, end);
    SelectSnoc(h, l, early);
    SelectSnoc(h, l, late);
    var pre, post := Select(h, early), Select(h, late);
    FoldSnoc(cfg, At(ZERO_ADDRESS, []), pre, l);
    FoldSnoc(cfg, Initial(cfg, h), post, l);
    assert late(l) <==> cfg.start <= l.block <= end && Matters(Whole(cfg), l) by { RelevantMatters(cfg, l); }
    if l.block < cfg.start {
      assert early(l) <==> Matters(Whole(cfg), l);
      forall m | m in h ensures !late(m) {
        Earlier(h, l, m);
      }
      SelectNone(h, late);
      FoldNothing(cfg, Initial(cfg, h));
      FoldNothing(cfg, Initial(cfg, h + [l]));
    }
  }

  lemma RelevantMatters(cfg: Config, l: Log)
    ensures l.block >= cfg.start ==> (Relevant(cfg, l) <==> Matters(Whole(cfg), l))
  {
  }

  lemma FoldSnoc(cfg: Config, f: Folded, logs: seq<Log>, l: Log)
    ensures Fold(cfg, f, logs + [l]) == Apply(cfg, Fold(cfg, f, logs), l)
  {
    hide Apply;
    assert (logs + [l])[..|logs|] == logs;
  }

  lemma Earlier(h: seq<Log>, l: Log, m: Log)
    requires History(h + [l]) && m in h
    ensures m.block <= l.block
  {
    var i :| 0 <= i < |h| && h[i] == m;
    assert (h + [l])[i] == m && (h + [l])[|h|] == l;
    PrecedesIff(m, l);
  }

  lemma HistoryFront(h: seq<Log>, l: Log)
    requires History(h + [l])
    ensures History(h)
  {
    assert forall i :: 0 <= i < |h| ==> (h + [l])[i] == h[i];
  }

  /** The replay through a block means just what the logs through that block say. */
  lemma {:induction false} ReplayMeans(cfg: Config, h: seq<Log>, end: int)
    requires History(h) && cfg.start - 1 <= end
    ensures Means(Whole(cfg), Select(h, Through(end)), Replay(cfg, h, end))
  {
    hide Means, Apply, Replay, History;
    if h == [] {
      NothingReplayed(cfg, end);
      MeansNothing(Whole(cfg));
    } else {
      var front, l := h[..|h| - 1], h[|h| - 1];
      assert h == front + [l];
      HistoryFront(front, l);
      ReplayMeans(cfg, front, end);
      ReplaySnoc(cfg, front, l, end);
      SelectSnoc(front, l, Through(end));
      MeansSnoc(Whole(cfg), Select(front, Through(end)), l, Replay(cfg, front, end));
    }
  }

  lemma NothingReplayed(cfg: Config, end: int)
    ensures Replay(cfg, [], end) == At(ZERO_ADDRESS, []) && Select([], Through(end)) == []
  {
    SelectNone([], Changes(cfg, 0, cfg.start - 1));
    SelectNone([], RelevantIn(cfg, cfg.start, end));
    SelectNone([], Through(end));
  }

  /** A window folded from a contract means just what its logs say from there. */
  lemma {:induction false} WindowMeans(cfg: Config, ctc: Address, logs: seq<Log>, from: int)
    requires forall l :: l in logs ==> Relevant(cfg, l) && l.block >= from
    ensures Means(Scope(cfg, from, ctc), logs, Fold(cfg, At(ctc, []), logs))
  {
    hide Means, Apply;
    if logs == [] {
      MeansNothing(Scope(cfg, from, ctc));
    } else {
      var front, l := logs[..|logs| - 1], logs[|logs| - 1];
      assert logs == front + [l] && l in logs;
      WindowMeans(cfg, ctc, front, from);
      FoldSnoc(cfg, At(ctc, []), front, l);
      MeansSnoc(Scope(cfg, from, ctc), front, l, Fold(cfg, At(ctc, []), front));
    }
  }

  // ---------------------------------------------------------------- what is stored

  /** A deposit is stored exactly when such a log exists, and as that log says. */
  ghost predicate Stored(w: Scope, logs: seq<Log>, records: map<Uint64, Record>) {
    && (forall n :: n in records ==> exists k: nat :: Deposit(w, logs, k) && logs[k].event.record == records[n])
    && (forall k: nat :: Deposit(w, logs, k) ==>
          var r := logs[k].event.record; r.enqueue.index in records && records[r.enqueue.index] == r)
  }

  lemma RecordsInside(w: Scope, logs: seq<Log>, rs: seq<Record>)
    requires RecordsOf(w, logs, rs)
    ensures forall r :: r in rs ==> exists k: nat :: Deposit(w, logs, k) && logs[k].event.record == r
    ensures forall k: nat :: Deposit(w, logs, k) ==> logs[k].event.record in rs
  {
    hide Deposit;
    DepositsInside(w, logs);
    var ps: seq<nat> :| Positions(w, logs, rs, ps);
    forall r | r in rs ensures exists k: nat :: Deposit(w, logs, k) && logs[k].event.record == r {
      var i :| 0 <= i < |rs| && rs[i] == r;
      assert Deposit(w, logs, ps[i]);
    }
    forall k: nat | Deposit(w, logs, k) ensures logs[k].event.record in rs {
      var i :| 0 <= i < |ps| && ps[i] == k;
      assert rs[i] == logs[k].event.record;
    }
  }

  lemma QueueStored(w: Scope, logs: seq<Log>, rs: seq<Record>)
    requires RecordsOf(w, logs, rs) && AppendAll(EMPTY_QUEUE, rs).Some?
    ensures Stored(w, logs, AppendAll(EMPTY_QUEUE, rs).value.records)
  {
    hide Deposit, AppendAll, RecordsOf;
    AppendAllKeeps(EMPTY_QUEUE, rs);
    DepositsInside(w, logs);
    RecordsInside(w, logs, rs);
  }

  // ---------------------------------------------------------------- when the queue takes them

  ghost predicate IndexIn(rs: seq<Record>, n: Uint64) { exists j :: 0 <= j < |rs| && rs[j].enqueue.index == n }

  /** Each record repeats an earlier one, or the earlier ones have exactly the smaller indexes. */
  ghost predicate InSequence(rs: seq<Record>) {
    forall i :: 0 <= i < |rs| ==>
      rs[i] in rs[..i] || forall n: Uint64 :: IndexIn(rs[..i], n) <==> n < rs[i].enqueue.index
  }

  lemma SequenceSnoc(front: seq<Record>, last: Record)
    ensures InSequence(front + [last]) <==>
            InSequence(front) && (last in front || forall n: Uint64 :: IndexIn(front, n) <==> n < last.enqueue.index)
  {
    hide IndexIn;
    var rs := front + [last];
    assert rs[..|front|] == front && rs[|front|] == last;
    assert forall i :: 0 <= i < |front| ==> rs[i] == front[i] && rs[..i] == front[..i];
  }

  /** The records make a queue exactly when they come in sequence. */
  lemma {:induction false} QueueIff(rs: seq<Record>)
    ensures AppendAll(EMPTY_QUEUE, rs).Some? <==> InSequence(rs)
  {
    hide Append, InSequence;
    if rs == [] {
      assert InSequence([]) by { NothingInSequence(); }
    } else {
      var front, last := rs[..|rs| - 1], rs[|rs| - 1];
      assert rs == front + [last];
      QueueIff(front);
      SequenceSnoc(front, last);
      if AppendAll(EMPTY_QUEUE, front).Some? {
        QueueHolds(front);
        AppendIff(AppendAll(EMPTY_QUEUE, front).value, last);
      }
    }
  }

  lemma NothingInSequence()
    ensures InSequence([])
  {
  }

  lemma QueueHolds(rs: seq<Record>)
    requires AppendAll(EMPTY_QUEUE, rs).Some?
    ensures var q := AppendAll(EMPTY_QUEUE, rs).value;
      && q.Contiguous() && (forall r :: r in q.records.Values <==> r in rs)
      && (forall n: Uint64 :: n in q.records <==> IndexIn(rs, n))
  {
    hide AppendAll;
    AppendAllKeeps(EMPTY_QUEUE, rs);
    var q := AppendAll(EMPTY_QUEUE, rs).value;
    forall n: Uint64 ensures n in q.records <==> IndexIn(rs, n) {
      if n in q.records {
        var j :| 0 <= j < |rs| && rs[j] == q.records[n];
      }
    }
  }
}
