/** The walk over a window's blocks: authorization events merged with the transactions of the Inbox, and what
    the authorized submissions among these add to the scan. */
module WindowScan {
  import opened Prelude
  import opened StoreTypes
  import opened ChainLogs
  import opened SenderReplay
  import opened SenderAuth
  import opened InboxScan
  import ChannelDecoding
  import RetainedSet

  /** A transaction of an L1 block: whether it is a Blob submission to the Inbox by target and first byte, its
      signer, whether it is for this chain, whether it succeeded, and what its data commit to. */
  datatype L1Tx = L1Tx(hash: Hash, inbox: bool, sender: Option<Address>, sameChain: bool, succeeded: bool,
                       commitment: Option<Submission>)

  /** What is fixed during a scan: the answers about references, the stored records, the cutoff, the decoder. */
  datatype Context = Context(view: View, stored: map<Hash, BlobTransaction>, cutoff: Uint64,
                             decode: ChannelDecoding.Decoder)

  datatype Rules = Rules(registry: Address, fallbacks: Fallbacks)

  // ---------------------------------------------------------------- what a window contributes

  /** One transaction, judged by `v`. */
  ghost function Handled(ctx: Context, tx: L1Tx, v: Verdict, height: Uint64, index: nat): Answer<seq<BlobChannel>> {
    if !tx.inbox then Got([])
    else if tx.sender.None? then Unsound
    else if tx.sender.value != v.batch then Got([])
    else if !tx.sameChain then Unsound
    else if !ctx.view.receipts(tx.hash) then Stalled
    else if !tx.succeeded then Got([])
    else if tx.commitment.None? then Unsound
    else Contribution(ctx.view, ctx.stored, tx.commitment.value, Committer(v.blob, height, index), ctx.cutoff,
                      ctx.decode)
  }

  /** Others' transactions never matter; the authorized sender's are fatal, waited for or counted as their chain,
      receipt, outcome and commitment demand, in this order. */
  lemma HandledMeans(ctx: Context, tx: L1Tx, v: Verdict, height: Uint64, index: nat)
    ensures var r, who := Handled(ctx, tx, v, height, index), Committer(v.blob, height, index);
      var ours, receipt := tx.inbox && tx.sender == Some(v.batch), ctx.view.receipts(tx.hash);
      var counts := ours && tx.sameChain && receipt && tx.succeeded;
      && (tx.inbox && tx.sender.None? ==> r == Unsound)
      && (!tx.inbox || (tx.sender.Some? && tx.sender.value != v.batch) ==> r == Got([]))
      && (ours && !tx.sameChain ==> r == Unsound)
      && (ours && tx.sameChain && !receipt ==> r == Stalled)
      && (ours && tx.sameChain && receipt && !tx.succeeded ==> r == Got([]))
      && (counts && tx.commitment.None? ==> r == Unsound)
      && (counts && tx.commitment.Some? ==>
            && (r.Stalled? <==> FirstAwaited(ctx.view, ctx.stored, tx.commitment.value.hashes, who, ctx.cutoff))
            && (FirstDenied(ctx.view, ctx.stored, tx.commitment.value.hashes, who, ctx.cutoff) ==> r == Unsound))
  {
    hide FirstAwaited, FirstDenied, SourcesOf, ChannelDecoding.Outcome;
    if tx.commitment.Some? {
      SourcesMean(ctx.view, ctx.stored, tx.commitment.value.hashes, Committer(v.blob, height, index), ctx.cutoff);
    }
  }

  /** The first `n` transactions of a block, each judged by the history before it; the first failure decides. */
  ghost function InBlock(ctx: Context, h: seq<Log>, rules: Rules, height: Uint64, txs: seq<L1Tx>, n: nat)
    : Answer<seq<BlobChannel>>
    requires n <= |txs|
  {
    if n == 0 then Got([]) else
    var before := InBlock(ctx, h, rules, height, txs, n - 1);
    if !before.Got? then before else
    match Handled(ctx, txs[n - 1], VerdictOf(h, rules.registry, rules.fallbacks, height, n - 1), height, n - 1)
    case Stalled => Stalled
    case Unsound => Unsound
    case Got(more) => Got(before.value + more)
  }

  /** The first `k` blocks from `from` on; None is a block that could not be fetched. */
  ghost function InWindow(ctx: Context, h: seq<Log>, rules: Rules, from: Uint64, blocks: seq<Option<seq<L1Tx>>>, k: nat)
    : Answer<seq<BlobChannel>>
    requires k <= |blocks| && from + |blocks| <= MAX_UINT64 + 1
  {
    if k == 0 then Got([]) else
    var before := InWindow(ctx, h, rules, from, blocks, k - 1);
    if !before.Got? then before
    else if blocks[k - 1].None? then Stalled
    else
      match InBlock(ctx, h, rules, from + k - 1, blocks[k - 1].value, |blocks[k - 1].value|)
      case Stalled => Stalled
      case Unsound => Unsound
      case Got(more) => Got(before.value + more)
  }

  lemma {:induction false} BlockStops(ctx: Context, h: seq<Log>, rules: Rules, height: Uint64, txs: seq<L1Tx>, n: nat,
                                      m: nat)
    requires n <= m <= |txs| && !InBlock(ctx, h, rules, height, txs, n).Got?
    ensures InBlock(ctx, h, rules, height, txs, m) == InBlock(ctx, h, rules, height, txs, n)
  {
    hide Handled, VerdictOf;
    if n < m {
      BlockStops(ctx, h, rules, height, txs, n, m - 1);
    }
  }

  lemma {:induction false} WindowStops(ctx: Context, h: seq<Log>, rules: Rules, from: Uint64,
                                       blocks: seq<Option<seq<L1Tx>>>, k: nat, m: nat)
    requires k <= m <= |blocks| && from + |blocks| <= MAX_UINT64 + 1 && !InWindow(ctx, h, rules, from, blocks, k).Got?
    ensures InWindow(ctx, h, rules, from, blocks, m) == InWindow(ctx, h, rules, from, blocks, k)
  {
    hide InBlock;
    if k < m {
      WindowStops(ctx, h, rules, from, blocks, k, m - 1);
    }
  }

  // ---------------------------------------------------------------- the walk

  /** The scan's inputs are usable: the snapshot is the retained set's, and answers carry only valid frames. */
  ghost predicate Usable(ctx: Context, ra: RetainedSet.Retained) {
    && ctx.stored == ra.txs && RetainedSet.Valid(ra) && StoredFramesValid(ra) && ViewFramesValid(ctx.view)
    && Stamps(ctx.decode)
  }

  /** One transaction: only an authorized sender's successful submissions to the Inbox count. */
  method Submission(a: Authorization, ghost h: seq<Log>, ghost a0: Auth, rules: Rules, ghost logs: seq<Log>,
                    ghost from: Uint64, ghost end: Uint64, height: Uint64, index: nat, tx: L1Tx, ctx: Context,
                    ghost ra: RetainedSet.Retained, result: ScanResult)
    returns (r: Answer<seq<BlobChannel>>)
    requires ScanReady(h, rules.registry, a0, logs, from, end) && from <= height <= end
    requires ApplyAll(rules.registry, a0, Select(logs, Before(height, index))) == Some(a.State())
    requires Usable(ctx, ra) && result.Valid(ra, ctx.view, ctx.cutoff)
    modifies result
    ensures result.Valid(ra, ctx.view, ctx.cutoff)
    ensures r == Handled(ctx, tx, VerdictOf(h, rules.registry, rules.fallbacks, height, index), height, index)
    ensures result.channels == old(result.channels) + if r.Got? then r.value else []
  {
    hide ScanReady, ApplyAll, Select, SenderOf, Prepared, Contribution, RetainedSet.Valid, StoredFramesValid,
         ViewFramesValid, Stamps, Content;
    if !tx.inbox {
      return Got([]);
    }
    if tx.sender.None? {
      return Unsound;
    }
    var batchSender := Judge(a, h, a0, rules.registry, rules.fallbacks.batch, false, logs, from, end, height, index);
    if tx.sender.value != batchSender {
      return Got([]);
    }
    if !tx.sameChain {
      return Unsound;
    }
    if !ctx.view.receipts(tx.hash) {
      return Stalled;
    }
    if !tx.succeeded {
      return Got([]);
    }
    if tx.commitment.None? {
      return Unsound;
    }
    var blobSender := Judge(a, h, a0, rules.registry, rules.fallbacks.blob, true, logs, from, end, height, index);
    r := result.Submit(tx.commitment.value, Committer(blobSender, height, index), ctx.view, ctx.decode, ra, ctx.stored,
                       ctx.cutoff);
  }

  /** UnappliedLogs is the program's last check, and never happens. */
  datatype Walk = Scanned | Unavailable | BadEvent | BadSubmission | UnappliedLogs

  /** The transactions of one block, each after the logs that precede it, and then the rest of its logs. */
  method ScanBlock(a: Authorization, ghost h: seq<Log>, ghost a0: Auth, rules: Rules, logs: seq<Log>, position: nat,
                   ghost from: Uint64, ghost end: Uint64, height: Uint64, txs: seq<L1Tx>, ctx: Context,
                   ghost ra: RetainedSet.Retained, result: ScanResult)
    returns (r: Walk, next: nat)
    requires from <= height <= end && ScanReady(h, rules.registry, a0, logs, from, end) && ChainLogs.Ascending(logs)
    requires Merged(rules.registry, a0, a.State(), logs, position, height, 0)
    requires forall k :: position <= k < |logs| ==> logs[k].block >= height
    requires Usable(ctx, ra) && result.Valid(ra, ctx.view, ctx.cutoff)
    modifies a, result
    ensures r in {Scanned, Unavailable, BadEvent, BadSubmission} && result.Valid(ra, ctx.view, ctx.cutoff)
    ensures r == Scanned ==>
      && InBlock(ctx, h, rules, height, txs, |txs|).Got?
      && result.channels == old(result.channels) + InBlock(ctx, h, rules, height, txs, |txs|).value
      && Merged(rules.registry, a0, a.State(), logs, next, height + 1, 0)
      && (forall k :: next <= k < |logs| ==> logs[k].block >= height + 1)
    ensures r == Unavailable ==> InBlock(ctx, h, rules, height, txs, |txs|) == Stalled
    ensures r == BadSubmission ==> InBlock(ctx, h, rules, height, txs, |txs|) == Unsound
    ensures r == BadEvent ==> ApplyAll(rules.registry, a0, logs).None?
  {
    hide ScanReady, ApplyAll, Merged, Select, Handled, VerdictOf, Usable, Prepared, Content;
    next := position;
    var ok;
    ghost var reached: nat := 0;
    for i := 0 to |txs|
      invariant reached <= i && position <= next && Merged(rules.registry, a0, a.State(), logs, next, height, reached)
      invariant result.Valid(ra, ctx.view, ctx.cutoff)
      invariant InBlock(ctx, h, rules, height, txs, i).Got?
      invariant result.channels == old(result.channels) + InBlock(ctx, h, rules, height, txs, i).value
    {
      MergedLater(rules.registry, a0, a.State(), logs, next, height, reached, height, i);
      ok, next := ApplyUpTo(a, a0, rules.registry, logs, next, height, i);
      if !ok {
        return BadEvent, next;
      }
      reached := i;
      MergedState(rules.registry, a0, a.State(), logs, next, height, i);
      var handled := Submission(a, h, a0, rules, logs, from, end, height, i, txs[i], ctx, ra, result);
      if !handled.Got? {
        BlockStops(ctx, h, rules, height, txs, i + 1, |txs|);
        return if handled.Stalled? then Unavailable else BadSubmission, next;
      }
    }
    MergedLater(rules.registry, a0, a.State(), logs, next, height, reached, height + 1, 0);
    ok, next := ApplyBlockEnd(a, a0, rules.registry, logs, next, height);
    r := if ok then Scanned else BadEvent;
  }

  /** Walks the blocks `from..=end`. Every transaction is handled as the history before it demands, every log is
      applied once, and the channels come in chain order. */
  method Scan(a: Authorization, ghost h: seq<Log>, rules: Rules, logs: seq<Log>, from: Uint64, end: Uint64,
              blocks: seq<Option<seq<L1Tx>>>, ctx: Context, ghost ra: RetainedSet.Retained, result: ScanResult)
    returns (r: Walk)
    requires from <= end && |blocks| == end - from + 1
    requires ScanReady(h, rules.registry, a.State(), logs, from, end)
    requires Usable(ctx, ra) && result.Valid(ra, ctx.view, ctx.cutoff)
    modifies a, result
    ensures r != UnappliedLogs && result.Valid(ra, ctx.view, ctx.cutoff)
    ensures r == BadEvent ==> ApplyAll(rules.registry, old(a.State()), logs).None?
    ensures r == Unavailable ==> InWindow(ctx, h, rules, from, blocks, |blocks|) == Stalled
    ensures r == BadSubmission ==> InWindow(ctx, h, rules, from, blocks, |blocks|) == Unsound
    ensures r == Scanned ==>
      && InWindow(ctx, h, rules, from, blocks, |blocks|).Got?
      && result.channels == old(result.channels) + InWindow(ctx, h, rules, from, blocks, |blocks|).value
      && Covered(a.State(), Past(h, end + 1, 0), rules.registry) && a.State().known.Keys == old(a.State()).known.Keys
      && ApplyAll(rules.registry, old(a.State()), logs) == Some(a.State())
  {
    hide Covered, ApplyAll, Select, InBlock, Usable, Prepared, Content, ScanReady, Merged;
    ghost var a0 := a.State();
    ReadyLogs(h, rules.registry, a0, logs, from, end);
    var position: nat, height := 0, from;
    MergedNone(rules.registry, a0, logs, from);
    while true
      invariant from <= height <= end && result.Valid(ra, ctx.view, ctx.cutoff)
      invariant Merged(rules.registry, a0, a.State(), logs, position, height, 0)
      invariant forall k :: position <= k < |logs| ==> logs[k].block >= height
      invariant InWindow(ctx, h, rules, from, blocks, height - from).Got?
      invariant result.channels == old(result.channels) + InWindow(ctx, h, rules, from, blocks, height - from).value
      decreases end - height
    {
      var k := height - from;
      var block := blocks[k];
      if block.None? {
        WindowStops(ctx, h, rules, from, blocks, k + 1, |blocks|);
        return Unavailable;
      }
      var walk;
      walk, position := ScanBlock(a, h, a0, rules, logs, position, from, end, height, block.value, ctx, ra, result);
      if walk != Scanned {
        if walk != BadEvent {
          WindowStops(ctx, h, rules, from, blocks, k + 1, |blocks|);
        }
        return walk;
      }
      assert position <= |logs| by { MergedState(rules.registry, a0, a.State(), logs, position, height + 1, 0); }
      assert position < |logs| ==> height < logs[position].block <= end;
      if height == end {
        break;
      }
      height := height + 1;
    }
    if position != |logs| {
      return UnappliedLogs;
    }
    MergedAll(rules.registry, a0, a.State(), logs, end + 1);
    CoveredAt(h, rules.registry, a0, logs, from, end, end + 1, 0);
    return Scanned;
  }
}
