/** Event logs of one fixed chain, and what an RPC provider may answer a log query with: the matching
    logs in any order, any of them repeated. */
module ChainLogs {
  import opened Prelude
  import opened StoreTypes
  import opened DepositQueue
  import opened LexOrder

  datatype Name = CanonicalTransactionChain | InboxSenderManager

  datatype SenderKind = BatchSender | BlobSender

  /** The events both workers query; `Bad...` carry the topic but do not decode. */
  datatype Event =
    | AddressSet(name: Name, next: Address, prev: Address) | BadAddressSet(name: Name)
    | Enqueued(chain: nat, record: Record) | BadEnqueued
    | SenderSet(effective: Uint64, sender: Address, kind: SenderKind) | BadSenderSet

  datatype Log = Log(block: Uint64, tx: nat, index: nat, address: Address, event: Event)

  function Key(l: Log): seq<int> { [l.block, l.tx, l.index] }

  predicate Precedes(l: Log, m: Log) { Less(Key(l), Key(m)) }

  lemma PrecedesIff(l: Log, m: Log)
    ensures Precedes(l, m) <==>
            l.block < m.block || (l.block == m.block && (l.tx < m.tx || (l.tx == m.tx && l.index < m.index)))
  {
    CommonHead(l.index, [], m.index, []);
    CommonHead(l.tx, [l.index], m.tx, [m.index]);
    CommonHead(l.block, [l.tx, l.index], m.block, [m.tx, m.index]);
    assert Key(l) == [l.block] + [l.tx, l.index] && Key(m) == [m.block] + [m.tx, m.index];
    assert [l.tx, l.index] == [l.tx] + [l.index] && [m.tx, m.index] == [m.tx] + [m.index];
    assert [l.index] == [l.index] + [] && [m.index] == [m.index] + [];
  }

  lemma CommonHead(x: int, a: seq<int>, y: int, b: seq<int>)
    ensures Less([x] + a, [y] + b) <==> x < y || (x == y && Less(a, b))
  {
    assert ([x] + a)[1..] == a && ([y] + b)[1..] == b;
  }

  /** The logs of a chain in order; a block numbers its logs without repetition. */
  ghost predicate History(h: seq<Log>) {
    && (forall i, j :: 0 <= i < j < |h| ==> Precedes(h[i], h[j]))
    && (forall i, j :: 0 <= i < j < |h| && h[i].block == h[j].block ==> h[i].index != h[j].index)
  }

  function Select(h: seq<Log>, p: Log -> bool): (r: seq<Log>)
    ensures forall l :: l in r <==> l in h && p(l)
  {
    if h == [] then [] else
    var front, last := h[..|h| - 1], h[|h| - 1];
    assert h == front + [last];
    Select(front, p) + if p(last) then [last] else []
  }

  lemma {:induction false} SelectConcat(a: seq<Log>, b: seq<Log>, p: Log -> bool)
    ensures Select(a + b, p) == Select(a, p) + Select(b, p)
  {
    if b == [] {
      assert a + b == a;
    } else {
      assert (a + b)[..|a + b| - 1] == a + b[..|b| - 1];
      SelectConcat(a, b[..|b| - 1], p);
    }
  }

  lemma SelectSnoc(h: seq<Log>, l: Log, p: Log -> bool)
    ensures Select(h + [l], p) == if p(l) then Select(h, p) + [l] else Select(h, p)
  {
    assert (h + [l])[..|h|] == h;
  }

  lemma {:induction false} SelectSelect(h: seq<Log>, p: Log -> bool, q: Log -> bool, both: Log -> bool)
    requires forall l :: l in h ==> (both(l) <==> p(l) && q(l))
    ensures Select(Select(h, p), q) == Select(h, both)
  {
    if h != [] {
      var front, last := h[..|h| - 1], h[|h| - 1];
      assert h == front + [last];
      SelectSelect(front, p, q, both);
      SelectConcat(Select(front, p), if p(last) then [last] else [], q);
      assert Select([last], q) == if q(last) then [last] else [] by { assert [last][..0] == []; }
    }
  }

  lemma {:induction false} SelectSame(h: seq<Log>, p: Log -> bool, q: Log -> bool)
    requires forall l :: l in h ==> (p(l) <==> q(l))
    ensures Select(h, p) == Select(h, q)
  {
    if h != [] {
      assert h == h[..|h| - 1] + [h[|h| - 1]];
      SelectSame(h[..|h| - 1], p, q);
    }
  }

  lemma {:induction false} SelectAll(h: seq<Log>, p: Log -> bool)
    requires forall l :: l in h ==> p(l)
    ensures Select(h, p) == h
  {
    if h != [] {
      assert h == h[..|h| - 1] + [h[|h| - 1]];
      SelectAll(h[..|h| - 1], p);
    }
  }

  lemma {:induction false} SelectNone(h: seq<Log>, p: Log -> bool)
    requires forall l :: l in h ==> !p(l)
    ensures Select(h, p) == []
  {
    if h != [] {
      assert h == h[..|h| - 1] + [h[|h| - 1]];
      SelectNone(h[..|h| - 1], p);
    }
  }

  ghost predicate Ascending(s: seq<Log>) { forall i, j :: 0 <= i < j < |s| ==> Precedes(s[i], s[j]) }

  lemma {:induction false} SelectAscending(h: seq<Log>, p: Log -> bool)
    requires Ascending(h)
    ensures Ascending(Select(h, p))
  {
    if h != [] {
      var front, last := h[..|h| - 1], h[|h| - 1];
      SelectAscending(front, p);
      var s := Select(front, p);
      forall i | 0 <= i < |s| ensures Precedes(s[i], last) {
        assert s[i] in front;
        var j :| 0 <= j < |front| && front[j] == s[i];
        assert h[j] == front[j];
      }
    }
  }

  /** An ascending sequence is determined by its elements. */
  lemma {:induction false} AscendingUnique(s: seq<Log>, t: seq<Log>)
    requires Ascending(s) && Ascending(t) && forall l :: l in s <==> l in t
    ensures s == t
  {
    assert s == [] || s[0] in s;
    assert t == [] || t[0] in t;
    if s != [] {
      var a, b := s[0], t[0];
      if a != b {
        var i :| 0 <= i < |t| && t[i] == a;
        var j :| 0 <= j < |s| && s[j] == b;
        Asymmetric(Key(a), Key(b));
        assert false;
      }
      assert s == [a] + s[1..] && t == [a] + t[1..];
      Irreflexive(Key(a));
      assert a !in s[1..] && a !in t[1..];
      forall l ensures l in s[1..] <==> l in t[1..] {
        assert l in s <==> l == a || l in s[1..];
        assert l in t <==> l == a || l in t[1..];
      }
      AscendingUnique(s[1..], t[1..]);
    }
  }

  /** A chain's matching logs split at a block. */
  lemma SplitAt(h: seq<Log>, p: Log -> bool, low: Log -> bool, high: Log -> bool, n: int)
    requires History(h)
    requires forall l :: l in h ==> (low(l) <==> p(l) && l.block < n) && (high(l) <==> p(l) && l.block >= n)
    ensures Select(h, p) == Select(h, low) + Select(h, high)
  {
    var a, b := Select(h, low), Select(h, high);
    SelectAscending(h, p);
    SelectAscending(h, low);
    SelectAscending(h, high);
    forall i, j | 0 <= i < |a| && 0 <= j < |b| ensures Precedes(a[i], b[j]) {
      assert a[i] in a && b[j] in b;
      PrecedesIff(a[i], b[j]);
    }
    assert Ascending(a + b);
    forall l ensures l in Select(h, p) <==> l in a + b {
      assert l in a + b <==> l in a || l in b;
    }
    AscendingUnique(Select(h, p), a + b);
  }

  // ---------------------------------------------------------------- sorting and duplicates

  ghost predicate Sorted(s: seq<Log>) { forall i, j :: 0 <= i < j < |s| ==> !Precedes(s[j], s[i]) }

  function InsertLog(l: Log, s: seq<Log>): (r: seq<Log>)
    requires Sorted(s)
    ensures Sorted(r) && forall m :: m in r <==> m == l || m in s
  {
    if s == [] then [l]
    else if Precedes(l, s[0]) then
      assert Sorted([l] + s) by { FrontSorted(l, s); }
      [l] + s
    else
      var rest := InsertLog(l, s[1..]);
      assert s == [s[0]] + s[1..];
      assert Sorted([s[0]] + rest) by { SecondSorted(l, s, rest); }
      [s[0]] + rest
  }

  lemma FrontSorted(l: Log, s: seq<Log>)
    requires Sorted(s) && s != [] && Precedes(l, s[0])
    ensures Sorted([l] + s)
  {
    forall j | 0 <= j < |s| ensures !Precedes(s[j], l) {
      if Precedes(s[j], l) {
        Transitive(Key(s[j]), Key(l), Key(s[0]));
        Irreflexive(Key(s[0]));
      }
    }
  }

  lemma SecondSorted(l: Log, s: seq<Log>, rest: seq<Log>)
    requires Sorted(s) && s != [] && !Precedes(l, s[0]) && Sorted(rest)
    requires forall m :: m in rest <==> m == l || m in s[1..]
    ensures Sorted([s[0]] + rest)
  {
    forall j | 0 <= j < |rest| ensures !Precedes(rest[j], s[0]) {
      assert rest[j] in rest;
    }
  }

  /** `sort.Slice` by block, transaction index and log index. */
  function SortLogs(logs: seq<Log>): (r: seq<Log>)
    ensures Sorted(r) && forall l :: l in r <==> l in logs
  {
    if logs == [] then [] else
    assert logs == [logs[0]] + logs[1..];
    InsertLog(logs[0], SortLogs(logs[1..]))
  }

  /** First occurrences. */
  function Dedup(s: seq<Log>): (r: seq<Log>)
    ensures forall l :: l in r <==> l in s
  {
    if s == [] then [] else
    var front, last := s[..|s| - 1], s[|s| - 1];
    assert s == front + [last];
    if last in front then Dedup(front) else Dedup(front) + [last]
  }

  lemma PositionTells(h: seq<Log>, l: Log, m: Log)
    requires History(h) && l in h && m in h
    ensures !Precedes(l, m) && !Precedes(m, l) ==> l == m
    ensures l.block == m.block && l.index == m.index ==> l == m
  {
    var i :| 0 <= i < |h| && h[i] == l;
    var j :| 0 <= j < |h| && h[j] == m;
    if i < j {
      assert Precedes(h[i], h[j]);
    } else if j < i {
      assert Precedes(h[j], h[i]);
    }
  }

  lemma {:induction false} DedupAscending(h: seq<Log>, s: seq<Log>)
    requires History(h) && Sorted(s) && forall l :: l in s ==> l in h
    ensures Ascending(Dedup(s))
  {
    if s != [] {
      var front, last := s[..|s| - 1], s[|s| - 1];
      assert s == front + [last];
      DedupAscending(h, front);
      var d := Dedup(front);
      if last !in front {
        forall i | 0 <= i < |d| ensures Precedes(d[i], last) {
          assert d[i] in front;
          var j :| 0 <= j < |front| && front[j] == d[i];
          assert s[j] == d[i] && !Precedes(last, d[i]);
          PositionTells(h, d[i], last);
        }
      }
    }
  }

  /** Whatever order and repetition an answer comes with, sorting and dropping repeats restores the
      chain's own order of the matching logs. */
  lemma SortedAnswer(h: seq<Log>, p: Log -> bool, logs: seq<Log>)
    requires History(h) && forall l :: l in logs <==> l in h && p(l)
    ensures Dedup(SortLogs(logs)) == Select(h, p)
  {
    DedupAscending(h, SortLogs(logs));
    SelectAscending(h, p);
    AscendingUnique(Dedup(SortLogs(logs)), Select(h, p));
  }
}
