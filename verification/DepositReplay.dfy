/** The one-shot meaning of deposit synchronization: one left fold over the chain's logs. */
module DepositReplay {
  import opened Prelude
  import opened StoreTypes
  import opened DepositQueue
  import opened ChainLogs

  datatype Config = Config(manager: Address, l2Chain: nat, start: Uint64, batchSize: Uint64)

  datatype Folded = Broken | At(ctc: Address, records: seq<Record>)

  /** An address change of the deposit contract, well-formed or not. */
  predicate IsChange(cfg: Config, l: Log) {
    l.address == cfg.manager && (l.event.AddressSet? || l.event.BadAddressSet?)
      && l.event.name == CanonicalTransactionChain
  }

  predicate IsEnqueue(l: Log) { l.event.Enqueued? || l.event.BadEnqueued? }

  predicate Relevant(cfg: Config, l: Log) { IsChange(cfg, l) || IsEnqueue(l) }

  /** One log: a change must continue from the current address; only the current contract's deposits
      count, and of those only this chain's are kept. */
  function Apply(cfg: Config, f: Folded, l: Log): Folded {
    if f.Broken? then Broken
    else if IsChange(cfg, l) then
      if l.event.BadAddressSet? || l.event.prev != f.ctc then Broken else At(l.event.next, f.records)
    else if l.address != f.ctc then f
    else if !l.event.Enqueued? then Broken
    else if l.event.chain == cfg.l2Chain then At(f.ctc, f.records + [l.event.record])
    else f
  }

  function Fold(cfg: Config, f: Folded, logs: seq<Log>): Folded {
    if logs == [] then f else Apply(cfg, Fold(cfg, f, logs[..|logs| - 1]), logs[|logs| - 1])
  }

  function Changes(cfg: Config, from: int, end: int): Log -> bool {
    (l: Log) => IsChange(cfg, l) && from <= l.block <= end
  }

  function RelevantIn(cfg: Config, from: int, end: int): Log -> bool {
    (l: Log) => Relevant(cfg, l) && from <= l.block <= end
  }

  /** The contract address when the configured start is reached. */
  function Initial(cfg: Config, h: seq<Log>): Folded {
    Fold(cfg, At(ZERO_ADDRESS, []), Select(h, Changes(cfg, 0, cfg.start - 1)))
  }

  /** Everything from the start through block `end`. */
  function Replay(cfg: Config, h: seq<Log>, end: int): Folded {
    Fold(cfg, Initial(cfg, h), Select(h, RelevantIn(cfg, cfg.start, end)))
  }

  // ---------------------------------------------------------------- composing windows

  lemma {:induction false} FoldConcat(cfg: Config, f: Folded, a: seq<Log>, b: seq<Log>)
    ensures Fold(cfg, f, a + b) == Fold(cfg, Fold(cfg, f, a), b)
  {
    if b == [] {
      assert a + b == a;
    } else {
      assert (a + b)[..|a + b| - 1] == a + b[..|b| - 1];
      FoldConcat(cfg, f, a, b[..|b| - 1]);
    }
  }

  lemma {:induction false} FoldBroken(cfg: Config, logs: seq<Log>)
    ensures Fold(cfg, Broken, logs) == Broken
  {
    if logs != [] { FoldBroken(cfg, logs[..|logs| - 1]); }
  }

  /** Records only accumulate, so a later window can be folded from an empty list. */
  lemma {:induction false} FoldRecords(cfg: Config, ctc: Address, records: seq<Record>, logs: seq<Log>)
    ensures Fold(cfg, At(ctc, records), logs) ==
            match Fold(cfg, At(ctc, []), logs) { case Broken => Broken case At(c, rs) => At(c, records + rs) }
  {
    if logs == [] {
      assert records + [] == records;
    } else {
      FoldRecords(cfg, ctc, records, logs[..|logs| - 1]);
      var before, l := Fold(cfg, At(ctc, []), logs[..|logs| - 1]), logs[|logs| - 1];
      if before.At? && l.event.Enqueued? {
        assert records + (before.records + [l.event.record]) == (records + before.records) + [l.event.record];
      }
    }
  }

  /** Folding window by window is folding once. */
  lemma ReplayExtends(cfg: Config, h: seq<Log>, mid: int, end: int)
    requires History(h) && cfg.start - 1 <= mid <= end
    ensures Replay(cfg, h, end) == Fold(cfg, Replay(cfg, h, mid), Select(h, RelevantIn(cfg, mid + 1, end)))
  {
    SplitAt(h, RelevantIn(cfg, cfg.start, end), RelevantIn(cfg, cfg.start, mid), RelevantIn(cfg, mid + 1, end),
            mid + 1);
    FoldConcat(cfg, Initial(cfg, h), Select(h, RelevantIn(cfg, cfg.start, mid)),
               Select(h, RelevantIn(cfg, mid + 1, end)));
  }

  lemma ReplayBeforeStart(cfg: Config, h: seq<Log>)
    ensures Replay(cfg, h, cfg.start - 1) == Initial(cfg, h)
  {
    SelectNone(h, RelevantIn(cfg, cfg.start, cfg.start - 1));
  }

  // ---------------------------------------------------------------- asking only relevant addresses

  ghost predicate Known(addresses: set<Address>, f: Folded) {
    f.At? ==> f.ctc == ZERO_ADDRESS || f.ctc in addresses
  }

  /** The address set holds everything the window's changes lead to. */
  ghost predicate Covers(cfg: Config, addresses: set<Address>, logs: seq<Log>) {
    forall l :: l in logs && IsChange(cfg, l) && l.event.AddressSet? ==>
      l.event.next == ZERO_ADDRESS || l.event.next in addresses
  }

  function Addressed(cfg: Config, addresses: set<Address>): Log -> bool {
    (l: Log) => IsChange(cfg, l) || l.address in addresses
  }

  lemma AddressedApply(cfg: Config, addresses: set<Address>, f: Folded, l: Log)
    requires Known(addresses, f) && Covers(cfg, addresses, [l]) && l.address != ZERO_ADDRESS
    ensures Known(addresses, Apply(cfg, f, l))
    ensures !Addressed(cfg, addresses)(l) ==> Apply(cfg, f, l) == f
  {
    assert l in [l];
  }

  /** Leaving out every other contract's deposits changes neither the result nor its failures. */
  lemma {:induction false} AddressedFold(cfg: Config, addresses: set<Address>, f: Folded, logs: seq<Log>)
    requires Known(addresses, f) && Covers(cfg, addresses, logs) && forall l :: l in logs ==> l.address != ZERO_ADDRESS
    ensures Fold(cfg, f, Select(logs, Addressed(cfg, addresses))) == Fold(cfg, f, logs)
    ensures Known(addresses, Fold(cfg, f, logs))
  {
    hide Apply, Known, Addressed;
    if logs != [] {
      var front, last := logs[..|logs| - 1], logs[|logs| - 1];
      assert logs == front + [last] && last in logs;
      AddressedFold(cfg, addresses, f, front);
      AddressedApply(cfg, addresses, Fold(cfg, f, front), last);
      var kept := Select(front, Addressed(cfg, addresses));
      assert (kept + [last])[..|kept|] == kept && kept + [] == kept;
    }
  }

  // ---------------------------------------------------------------- backward search for the initial address

  lemma {:induction false} ChangesKeepRecords(cfg: Config, f: Folded, logs: seq<Log>)
    requires forall l :: l in logs ==> IsChange(cfg, l)
    ensures var r := Fold(cfg, f, logs); f.At? && r.At? ==> r.records == f.records
  {
    if logs != [] {
      assert logs == logs[..|logs| - 1] + [logs[|logs| - 1]];
      ChangesKeepRecords(cfg, f, logs[..|logs| - 1]);
      FoldBroken(cfg, logs);
    }
  }

  /** The address a page of changes leads to, seeded by the old address of its first change. */
  function PageResult(cfg: Config, from: int, page: seq<Log>): Folded {
    if page == [] then At(ZERO_ADDRESS, [])
    else if page[0].event.BadAddressSet? then Broken
    else if !page[0].event.AddressSet? then Broken
    else Fold(cfg, At(if from == 0 then ZERO_ADDRESS else page[0].event.prev, []), page)
  }

  /** Seeding a page from its own first change is seeding it with what the older pages led to. */
  lemma PageContinues(cfg: Config, from: int, reached: Folded, page: seq<Log>)
    requires reached.At? && reached.records == [] && (from == 0 ==> reached.ctc == ZERO_ADDRESS)
    requires page != [] && IsChange(cfg, page[0]) && Fold(cfg, reached, page).At?
    ensures PageResult(cfg, from, page) == Fold(cfg, reached, page)
  {
    assert page == page[..1] + page[1..];
    FoldConcat(cfg, reached, page[..1], page[1..]);
    FoldBroken(cfg, page[1..]);
    assert page[..1][..0] == [];
    assert Fold(cfg, reached, page[..1]) == Apply(cfg, reached, page[0]);
  }

  /** Pages older than `end` lead to the initial address when nothing happens after `end`. */
  lemma NothingAfter(cfg: Config, h: seq<Log>, from: int, end: int)
    requires History(h) && 0 <= from && from - 1 <= end < cfg.start
    requires Select(h, Changes(cfg, end + 1, cfg.start - 1)) == []
    ensures Initial(cfg, h) ==
            Fold(cfg, Fold(cfg, At(ZERO_ADDRESS, []), Select(h, Changes(cfg, 0, from - 1))),
                 Select(h, Changes(cfg, from, end)))
  {
    hide Fold, Select, History;
    var older, page, all :=
      Select(h, Changes(cfg, 0, from - 1)), Select(h, Changes(cfg, from, end)), Select(h, Changes(cfg, 0, end));
    SplitAt(h, Changes(cfg, 0, cfg.start - 1), Changes(cfg, 0, end), Changes(cfg, end + 1, cfg.start - 1), end + 1);
    SplitAt(h, Changes(cfg, 0, end), Changes(cfg, 0, from - 1), Changes(cfg, from, end), from);
    assert all + [] == all;
    FoldConcat(cfg, At(ZERO_ADDRESS, []), older, page);
  }

  /** The last non-empty page (or the one that reaches block 0) decides the initial address. */
  lemma BackwardEqualsForward(cfg: Config, h: seq<Log>, from: int, end: int)
    requires History(h) && 0 <= from && from - 1 <= end < cfg.start
    requires Select(h, Changes(cfg, end + 1, cfg.start - 1)) == []
    requires Select(h, Changes(cfg, from, end)) != [] || from == 0
    requires Initial(cfg, h).At?
    ensures PageResult(cfg, from, Select(h, Changes(cfg, from, end))) == Initial(cfg, h)
  {
    hide Fold, PageResult, History;
    var older, page := Select(h, Changes(cfg, 0, from - 1)), Select(h, Changes(cfg, from, end));
    NothingAfter(cfg, h, from, end);
    var reached := Fold(cfg, At(ZERO_ADDRESS, []), older);
    FoldBroken(cfg, page);
    ChangesKeepRecords(cfg, At(ZERO_ADDRESS, []), older);
    if from == 0 {
      SelectNone(h, Changes(cfg, 0, from - 1));
      FoldNothing(cfg, At(ZERO_ADDRESS, []));
    }
    if page == [] {
      FoldNothing(cfg, reached);
    } else {
      assert page[0] in page;
      PageContinues(cfg, from, reached, page);
    }
  }

  lemma FoldNothing(cfg: Config, f: Folded)
    ensures Fold(cfg, f, []) == f && forall from :: PageResult(cfg, from, []) == At(ZERO_ADDRESS, [])
  {
  }
}
