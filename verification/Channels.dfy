/** Channel assembly: frames arrive in any order, a closing frame truncates what lies beyond it. */
module Channels {
  import opened Prelude
  import opened Frames
  import opened StoreTypes

  const MAX_CHANNEL_BYTES: nat := 100_000_000
  const FRAME_NUMBERS: nat := 0x1_0000

  /** A frame with the blob transaction it came from. */
  datatype Source = Source(frame: Frame, hash: Hash, timestamp: Uint64) {
    function Number(): nat { frame.number }
  }

  type FrameMap = map<nat, Source>

  function SizeBelow(m: FrameMap, n: nat): nat {
    if n == 0 then 0 else SizeBelow(m, n - 1) + if n - 1 in m then |m[n - 1].frame.data| else 0
  }

  /** Bytes stored in a channel. */
  function SizeOf(m: FrameMap): nat { SizeBelow(m, FRAME_NUMBERS) }

  lemma {:induction false} SizeBelowSet(m: FrameMap, k: nat, s: Source, n: nat)
    requires k !in m
    ensures SizeBelow(m[k := s], n) == SizeBelow(m, n) + if k < n then |s.frame.data| else 0
  {
    if n > 0 { SizeBelowSet(m, k, s, n - 1); }
  }

  /** What a channel has collected: the frames kept, and the number of the closing one. */
  datatype Collected = Collected(frames: FrameMap, end: Option<nat>) {
    /** Numbers are 16-bit, agree with their frames, and never pass the closing one once it is here. */
    ghost predicate Valid() {
      && (forall n :: n in frames ==> n < FRAME_NUMBERS && frames[n].Number() == n)
      && (end.Some? ==> end.value in frames && frames[end.value].frame.last
                        && forall n :: n in frames ==> n <= end.value)
      && (forall n :: n in frames && frames[n].frame.last ==> end == Some(n))
    }
  }

  const EMPTY: Collected := Collected(map[], None)

  function Truncated(frames: FrameMap, end: nat): FrameMap { map n | n in frames && n <= end :: frames[n] }

  /** The three refusals decided by the numbers alone. */
  predicate Refused(c: Collected, s: Source) {
    s.Number() in c.frames || (s.frame.last && c.end.Some?) || (c.end.Some? && s.Number() >= c.end.value)
  }

  function Added(c: Collected, s: Source): Collected {
    if s.frame.last then Collected(Truncated(c.frames, s.Number())[s.Number() := s], Some(s.Number()))
    else Collected(c.frames[s.Number() := s], c.end)
  }

  /** Specification of one arrival. */
  function AddFrame(c: Collected, s: Source): (r: Option<Collected>)
    requires c.Valid() && s.frame.Valid()
    ensures r.Some? ==> r.value.Valid()
  {
    if Refused(c, s) || SizeOf(Added(c, s).frames) > MAX_CHANNEL_BYTES then None else Some(Added(c, s))
  }

  class ChannelInput {
    var frames: FrameMap
    var end: Option<nat>
    var size: nat

    ghost function State(): Collected
      reads this
    {
      Collected(frames, end)
    }

    ghost predicate Valid()
      reads this
    {
      State().Valid() && size == SizeOf(frames)
    }

    constructor ()
      ensures Valid() && State() == EMPTY
    {
      frames, end, size := map[], None, 0;
      new;
      EmptySize(FRAME_NUMBERS);
    }

    /** Drops every frame beyond `n`, keeping the byte count in step. */
    method Truncate(n: nat)
      requires size == SizeOf(frames) && forall k :: k in frames ==> k < FRAME_NUMBERS
      modifies this`frames, this`size
      ensures frames == Truncated(old(frames), n) && size == SizeOf(frames)
    {
      var pending := frames.Keys;
      while pending != {}
        invariant pending <= old(frames).Keys
        invariant frames == map k | k in old(frames) && (k in pending || k <= n) :: old(frames)[k]
        invariant size == SizeOf(frames)
        decreases |pending|
      {
        var number :| number in pending;
        pending := pending - {number};
        if number > n {
          ghost var after := frames - {number};
          assert frames == after[number := frames[number]];
          SizeBelowSet(after, number, frames[number], FRAME_NUMBERS);
          size := size - |frames[number].frame.data|;
          frames := frames - {number};
        }
      }
    }

    method Add(s: Source) returns (ok: bool)
      requires Valid() && s.frame.Valid()
      modifies this
      ensures ok <==> AddFrame(old(State()), s).Some?
      ensures ok ==> Valid() && State() == AddFrame(old(State()), s).value
    {
      if s.frame.number in frames {
        return false;
      }
      if s.frame.last && end.Some? {
        return false;
      }
      if end.Some? && s.frame.number >= end.value {
        return false;
      }
      if s.frame.last {
        end := Some(s.frame.number);
        Truncate(s.frame.number);
      }
      SizeBelowSet(frames, s.frame.number, s, FRAME_NUMBERS);
      size := size + |s.frame.data|;
      if size > MAX_CHANNEL_BYTES {
        return false;
      }
      frames := frames[s.frame.number := s];
      return true;
    }
  }

  lemma {:induction n} EmptySize(n: nat)
    ensures SizeBelow(map[], n) == 0
  {
  }

  // ---------------------------------------------------------------- whole arrival sequences

  ghost predicate WellFormed(ss: seq<Source>) { forall i :: 0 <= i < |ss| ==> ss[i].frame.Valid() }

  /** Every arrival in turn; None once one is refused. */
  function Run(ss: seq<Source>): (r: Option<Collected>)
    requires WellFormed(ss)
    ensures r.Some? ==> r.value.Valid()
  {
    if ss == [] then Some(EMPTY) else
    var before := Run(ss[..|ss| - 1]);
    if before.None? then None else AddFrame(before.value, ss[|ss| - 1])
  }

  /** Numbers never repeat; nothing follows a closing frame but smaller, non-closing ones. */
  ghost predicate Ordered(ss: seq<Source>) {
    forall i, j :: 0 <= i < j < |ss| ==>
      && ss[i].Number() != ss[j].Number()
      && (ss[i].frame.last ==> !ss[j].frame.last && ss[j].Number() < ss[i].Number())
  }

  /** The state the set of arrivals determines: everything up to the closing frame, if there is one. */
  ghost predicate Represents(ss: seq<Source>, c: Collected) {
    && (c.end.Some? ==> exists s :: s in ss && s.frame.last && s.Number() == c.end.value)
    && (forall s :: s in ss && s.frame.last ==> c.end == Some(s.Number()))
    && (forall n :: n in c.frames ==>
          c.frames[n] in ss && c.frames[n].Number() == n && (c.end.Some? ==> n <= c.end.value))
    && (forall s :: s in ss && (c.end.Some? ==> s.Number() <= c.end.value) ==>
          s.Number() in c.frames && c.frames[s.Number()] == s)
  }

  /** Order does not matter: two sequences with the same arrivals represent one state. */
  lemma RepresentsUnique(ss: seq<Source>, tt: seq<Source>, c: Collected, d: Collected)
    requires forall s :: s in ss <==> s in tt
    requires Represents(ss, c) && Represents(tt, d)
    ensures c == d
  {
    assert c.end == d.end;
    forall n | n in c.frames ensures n in d.frames && d.frames[n] == c.frames[n] { assert c.frames[n] in tt; }
    forall n | n in d.frames ensures n in c.frames { assert d.frames[n] in ss; }
    assert c.frames == d.frames;
  }

  lemma AddedRepresents(ss: seq<Source>, s: Source, c: Collected)
    requires Ordered(ss + [s]) && Represents(ss, c)
    ensures !Refused(c, s) && Represents(ss + [s], Added(c, s))
  {
    var all := ss + [s];
    forall t | t in ss ensures t.Number() != s.Number() && (t.frame.last ==> !s.frame.last && s.Number() < t.Number()) {
      var i :| 0 <= i < |ss| && ss[i] == t;
      assert all[i] == t && all[|ss|] == s;
    }
    assert forall t :: t in all <==> t in ss || t == s;
  }

  lemma OrderedSnoc(ss: seq<Source>, s: Source)
    requires Ordered(ss)
    requires forall t :: t in ss ==>
      t.Number() != s.Number() && (t.frame.last ==> !s.frame.last && s.Number() < t.Number())
    ensures Ordered(ss + [s])
  {
    forall i | 0 <= i < |ss| ensures (ss + [s])[i] in ss {}
  }

  lemma {:induction false} RunRepresents(ss: seq<Source>)
    requires WellFormed(ss) && Run(ss).Some?
    ensures Ordered(ss) && Represents(ss, Run(ss).value)
  {
    hide SizeOf;
    if ss != [] {
      var front, s := ss[..|ss| - 1], ss[|ss| - 1];
      RunRepresents(front);
      OrderedSnoc(front, s);
      assert ss == front + [s];
      AddedRepresents(front, s, Run(front).value);
    }
  }

  lemma OrderedPrefix(ss: seq<Source>, k: nat)
    requires Ordered(ss) && k <= |ss|
    ensures Ordered(ss[..k])
  {
  }

  /** The state every prefix determines stays within the channel limit. */
  ghost predicate PrefixesFit(ss: seq<Source>) {
    forall k, c :: 0 <= k <= |ss| && Represents(ss[..k], c) ==> SizeOf(c.frames) <= 100_000_000
  }

  /** Exactly which arrival sequences are accepted. */
  lemma {:induction false} AcceptedIff(ss: seq<Source>)
    requires WellFormed(ss)
    ensures Run(ss).Some? <==> Ordered(ss) && PrefixesFit(ss)
  {
    hide SizeOf, Added, Represents, Ordered;
    if ss == [] {
      EmptyRun();
      forall k, c | 0 <= k <= |ss| && Represents(ss[..k], c) ensures SizeOf(c.frames) <= MAX_CHANNEL_BYTES {
        RepresentsUnique([], [], c, EMPTY);
      }
    } else {
      var front, s := ss[..|ss| - 1], ss[|ss| - 1];
      AcceptedIff(front);
      assert ss == front + [s] && ss[..|ss|] == ss;
      assert forall k :: 0 <= k <= |front| ==> front[..k] == ss[..k];
      if Run(ss).Some? {
        RunRepresents(ss);
        forall k, c | 0 <= k <= |ss| && Represents(ss[..k], c) ensures SizeOf(c.frames) <= MAX_CHANNEL_BYTES {
          if k == |ss| {
            RepresentsUnique(ss, ss, c, Run(ss).value);
          }
        }
      }
      if Ordered(ss) && PrefixesFit(ss) {
        OrderedPrefix(ss, |front|);
        RunRepresents(front);
        AddedRepresents(front, s, Run(front).value);
      }
    }
  }

  lemma EmptyRun()
    ensures Ordered([]) && Represents([], EMPTY) && SizeOf(EMPTY.frames) == 0
  {
    EmptySize(FRAME_NUMBERS);
  }

  /** Two accepted orders of the same frames end in the same state, truncation included. */
  lemma Confluence(ss: seq<Source>, tt: seq<Source>)
    requires WellFormed(ss) && WellFormed(tt) && forall s :: s in ss <==> s in tt
    requires Run(ss).Some? && Run(tt).Some?
    ensures Run(ss) == Run(tt)
  {
    RunRepresents(ss);
    RunRepresents(tt);
    RepresentsUnique(ss, tt, Run(ss).value, Run(tt).value);
  }

  // ---------------------------------------------------------------- complete channels

  /** All frames by number. */
  function ByNumber(ss: seq<Source>): FrameMap {
    if ss == [] then map[] else var last := ss[|ss| - 1]; ByNumber(ss[..|ss| - 1])[last.Number() := last]
  }

  ghost predicate DistinctNumbers(ss: seq<Source>) {
    forall i, j :: 0 <= i < j < |ss| ==> ss[i].Number() != ss[j].Number()
  }

  /** Distinct frames up to `end`, of which exactly the one numbered `end` closes the channel. */
  ghost predicate Complete(ss: seq<Source>, end: nat) {
    && DistinctNumbers(ss)
    && (forall i :: 0 <= i < |ss| ==> ss[i].Number() <= end && (ss[i].frame.last <==> ss[i].Number() == end))
    && (exists i :: 0 <= i < |ss| && ss[i].frame.last)
  }

  lemma DistinctFront(front: seq<Source>, last: Source)
    requires DistinctNumbers(front + [last])
    ensures DistinctNumbers(front) && forall s :: s in front ==> s.Number() != last.Number()
  {
    var ss := front + [last];
    assert forall i :: 0 <= i < |front| ==> ss[i] == front[i];
    assert ss[|front|] == last;
  }

  lemma {:induction false} ByNumberMembers(ss: seq<Source>)
    requires DistinctNumbers(ss)
    ensures |ByNumber(ss)| == |ss|
    ensures forall n :: n in ByNumber(ss) ==> ByNumber(ss)[n] in ss && ByNumber(ss)[n].Number() == n
    ensures forall s :: s in ss ==> s.Number() in ByNumber(ss) && ByNumber(ss)[s.Number()] == s
  {
    hide DistinctNumbers;
    if ss != [] {
      var front, last := ss[..|ss| - 1], ss[|ss| - 1];
      assert ss == front + [last];
      DistinctFront(front, last);
      ByNumberMembers(front);
    }
  }

  lemma {:induction false} SizeMonotone(m: FrameMap, m': FrameMap, n: nat)
    requires forall k :: k in m ==> k in m' && m'[k] == m[k]
    ensures SizeBelow(m, n) <= SizeBelow(m', n)
  {
    if n > 0 { SizeMonotone(m, m', n - 1); }
  }

  /** Whatever order the frames of a complete channel come in, all of them are kept. */
  lemma CompleteAccepted(ss: seq<Source>, end: nat)
    requires WellFormed(ss) && Complete(ss, end) && SizeOf(ByNumber(ss)) <= MAX_CHANNEL_BYTES
    ensures Run(ss) == Some(Collected(ByNumber(ss), Some(end))) && |ByNumber(ss)| == |ss|
  {
    var all := ByNumber(ss);
    ByNumberMembers(ss);
    forall k, c | 0 <= k <= |ss| && Represents(ss[..k], c) ensures SizeOf(c.frames) <= MAX_CHANNEL_BYTES {
      forall n | n in c.frames ensures n in all && all[n] == c.frames[n] {
        assert c.frames[n] in ss;
      }
      SizeMonotone(c.frames, all, FRAME_NUMBERS);
    }
    AcceptedIff(ss);
    RunRepresents(ss);
    assert Represents(ss, Collected(all, Some(end)));
    RepresentsUnique(ss, ss, Run(ss).value, Collected(all, Some(end)));
  }

  /** ...so every other order gives the same state. */
  lemma CompleteOrderIndependent(ss: seq<Source>, tt: seq<Source>, end: nat)
    requires WellFormed(ss) && Complete(ss, end) && SizeOf(ByNumber(ss)) <= MAX_CHANNEL_BYTES
    requires multiset(ss) == multiset(tt)
    ensures WellFormed(tt) && Run(tt) == Run(ss)
  {
    Permuted(ss, tt);
    CompletePermuted(ss, tt, end);
    ByNumberMembers(ss);
    ByNumberMembers(tt);
    assert ByNumber(ss) == ByNumber(tt);
    CompleteAccepted(ss, end);
    CompleteAccepted(tt, end);
  }

  lemma Permuted(ss: seq<Source>, tt: seq<Source>)
    requires multiset(ss) == multiset(tt)
    ensures forall s :: s in ss <==> s in tt
    ensures forall i :: 0 <= i < |tt| ==> tt[i] in ss
  {
    forall s ensures s in ss <==> s in tt {
      assert s in ss <==> s in multiset(ss);
      assert s in tt <==> s in multiset(tt);
    }
  }

  lemma CompletePermuted(ss: seq<Source>, tt: seq<Source>, end: nat)
    requires WellFormed(ss) && Complete(ss, end) && multiset(ss) == multiset(tt)
    ensures WellFormed(tt) && Complete(tt, end)
  {
    Permuted(ss, tt);
    forall i, j | 0 <= i < j < |tt| ensures tt[i].Number() != tt[j].Number() {
      if tt[i].Number() == tt[j].Number() {
        var a :| 0 <= a < |ss| && ss[a] == tt[i];
        var b :| 0 <= b < |ss| && ss[b] == tt[j];
        assert a == b;
        Twice(tt, i, j);
        Once(ss, a);
        assert false;
      }
    }
    var k :| 0 <= k < |ss| && ss[k].frame.last;
    assert ss[k] in tt;
  }

  lemma Twice(tt: seq<Source>, i: nat, j: nat)
    requires i < j < |tt| && tt[i] == tt[j]
    ensures multiset(tt)[tt[i]] >= 2
  {
    assert tt == tt[..j] + tt[j..];
    assert tt[..j][i] in tt[..j] && tt[j..][0] in tt[j..];
  }

  lemma Once(ss: seq<Source>, a: nat)
    requires a < |ss| && DistinctNumbers(ss)
    ensures multiset(ss)[ss[a]] == 1
  {
    assert ss == ss[..a] + [ss[a]] + ss[a + 1..];
    assert ss[a] !in ss[..a] && ss[a] !in ss[a + 1..];
  }

  // ---------------------------------------------------------------- completeness by counting

  lemma {:induction false} Pigeonhole(keys: set<nat>, n: nat)
    requires forall k :: k in keys ==> k < n
    ensures |keys| <= n
    ensures |keys| == n ==> forall k: nat :: k < n ==> k in keys
  {
    if n > 0 {
      Pigeonhole(keys - {n - 1}, n - 1);
    }
  }

  /** Once closed, having as many frames as the closing number demands means having each of them. */
  lemma FullChannelHasNoGap(c: Collected)
    requires c.Valid() && c.end.Some? && |c.frames| == c.end.value + 1
    ensures forall n: nat :: n <= c.end.value <==> n in c.frames
  {
    Pigeonhole(c.frames.Keys, c.end.value + 1);
  }
}
