/** Raising the cutoff commutes with decoding: what survives of a submission's channels is what its younger
    sources alone decode to. */
module Retention {
  import opened Prelude
  import opened Frames
  import opened StoreTypes
  import opened Channels
  import opened ChannelDecoding

  /** The arrivals at or above the cutoff. */
  function Newer(ss: seq<Source>, cutoff: Uint64): seq<Source> {
    if ss == [] then [] else
    var front, last := Newer(ss[..|ss| - 1], cutoff), ss[|ss| - 1];
    if last.timestamp >= cutoff then front + [last] else front
  }

  lemma {:induction false} NewerMembers(ss: seq<Source>, cutoff: Uint64)
    ensures forall s :: s in Newer(ss, cutoff) <==> s in ss && s.timestamp >= cutoff
    ensures WellFormed(ss) ==> WellFormed(Newer(ss, cutoff))
  {
    if ss != [] {
      var front, last := ss[..|ss| - 1], ss[|ss| - 1];
      assert ss == front + [last];
      NewerMembers(front, cutoff);
    }
  }

  lemma {:induction false} NewerConcat(a: seq<Source>, b: seq<Source>, cutoff: Uint64)
    ensures Newer(a + b, cutoff) == Newer(a, cutoff) + Newer(b, cutoff)
  {
    if b == [] {
      assert a + b == a;
    } else {
      assert (a + b)[..|a + b| - 1] == a + b[..|b| - 1];
      NewerConcat(a, b[..|b| - 1], cutoff);
    }
  }

  /** Arrivals of one age stay together. */
  lemma {:induction false} NewerSame(ss: seq<Source>, timestamp: Uint64, cutoff: Uint64)
    requires forall s :: s in ss ==> s.timestamp == timestamp
    ensures Newer(ss, cutoff) == if timestamp >= cutoff then ss else []
  {
    if ss != [] {
      var front, last := ss[..|ss| - 1], ss[|ss| - 1];
      assert ss == front + [last];
      NewerSame(front, timestamp, cutoff);
    }
  }

  lemma {:induction false} NewerOf(ss: seq<Source>, id: FrameId, cutoff: Uint64)
    ensures Of(Newer(ss, cutoff), id) == Newer(Of(ss, id), cutoff)
  {
    if ss != [] {
      var front, last := ss[..|ss| - 1], ss[|ss| - 1];
      NewerOf(front, id, cutoff);
      NewerConcat(Of(front, id), if last.frame.id == id then [last] else [], cutoff);
      OfConcat(Newer(front, cutoff), if last.timestamp >= cutoff then [last] else [], id);
      OfOne(last, id);
      NewerOne(last, cutoff);
    }
  }

  lemma OfOne(s: Source, id: FrameId)
    ensures Of([s], id) == (if s.frame.id == id then [s] else []) && Of([], id) == []
  {
  }

  lemma NewerOne(s: Source, cutoff: Uint64)
    ensures Newer([s], cutoff) == (if s.timestamp >= cutoff then [s] else []) && Newer([], cutoff) == []
  {
  }

  // ---------------------------------------------------------------- one channel

  /** Without some of its older frames, none of which closes it, a channel still accepts the others. */
  lemma {:induction false} YoungerAccepted(mine: seq<Source>, cutoff: Uint64)
    requires WellFormed(mine) && Run(mine).Some?
    requires forall s :: s in mine && s.frame.last ==> s.timestamp >= cutoff
    ensures WellFormed(Newer(mine, cutoff)) && Run(Newer(mine, cutoff)).Some?
    ensures var c, d := Run(Newer(mine, cutoff)).value, Run(mine).value;
      c.end == d.end && forall n :: n in c.frames ==> n in d.frames && c.frames[n] == d.frames[n]
  {
    hide SizeOf;
    NewerMembers(mine, cutoff);
    if mine != [] {
      var front, s := mine[..|mine| - 1], mine[|mine| - 1];
      assert mine == front + [s];
      YoungerAccepted(front, cutoff);
      if s.timestamp >= cutoff {
        RunSnoc(Newer(front, cutoff), s);
        FewerAdded(Run(Newer(front, cutoff)).value, Run(front).value, s);
      }
    }
  }

  lemma FewerAdded(c: Collected, d: Collected, s: Source)
    requires c.Valid() && d.Valid() && s.frame.Valid()
    requires c.end == d.end && forall n :: n in c.frames ==> n in d.frames && c.frames[n] == d.frames[n]
    requires AddFrame(d, s).Some?
    ensures AddFrame(c, s).Some?
    ensures var c', d' := AddFrame(c, s).value, AddFrame(d, s).value;
      c'.end == d'.end && forall n :: n in c'.frames ==> n in d'.frames && c'.frames[n] == d'.frames[n]
  {
    hide SizeBelow;
    SizeMonotone(Added(c, s).frames, Added(d, s).frames, FRAME_NUMBERS);
  }

  /** A whole channel that is young enough is the same channel without the older arrivals... */
  lemma YoungStays(mine: seq<Source>, cutoff: Uint64)
    requires WellFormed(mine) && Run(mine).Some? && Full(Run(mine).value)
    requires forall n :: n in Run(mine).value.frames ==> Run(mine).value.frames[n].timestamp >= cutoff
    ensures WellFormed(Newer(mine, cutoff)) && Run(Newer(mine, cutoff)) == Run(mine)
  {
    hide Run, Full;
    RunRepresents(mine);
    YoungClosing(mine, Run(mine).value, cutoff);
    YoungerAccepted(mine, cutoff);
    NewerMembers(mine, cutoff);
    RunRepresents(Newer(mine, cutoff));
    SameFrames(mine, Newer(mine, cutoff), Run(mine).value, Run(Newer(mine, cutoff)).value);
  }

  lemma YoungClosing(mine: seq<Source>, c: Collected, cutoff: Uint64)
    requires Represents(mine, c) && c.Valid() && forall n :: n in c.frames ==> c.frames[n].timestamp >= cutoff
    ensures forall s :: s in mine && s.frame.last ==> s.timestamp >= cutoff
  {
    forall s | s in mine && s.frame.last ensures s.timestamp >= cutoff {
      assert c.end == Some(s.Number()) && c.frames[s.Number()] == s;
    }
  }

  lemma SameFrames(mine: seq<Source>, young: seq<Source>, c: Collected, d: Collected)
    requires Represents(mine, c) && Represents(young, d) && d.end == c.end
    requires (forall s :: s in young ==> s in mine) && forall n :: n in c.frames ==> c.frames[n] in young
    ensures c == d
  {
    forall n | n in c.frames ensures n in d.frames && d.frames[n] == c.frames[n] {
      assert c.frames[n] in young;
    }
    forall n | n in d.frames ensures n in c.frames {
      assert d.frames[n] in mine;
    }
    assert c.frames == d.frames;
  }

  /** ...and one that is whole without them was so before. */
  lemma YoungWhole(mine: seq<Source>, cutoff: Uint64)
    requires WellFormed(mine) && Run(mine).Some? && WellFormed(Newer(mine, cutoff))
    requires Run(Newer(mine, cutoff)).Some? && Full(Run(Newer(mine, cutoff)).value)
    ensures Run(Newer(mine, cutoff)) == Run(mine)
  {
    hide Run;
    RunRepresents(mine);
    RunRepresents(Newer(mine, cutoff));
    NewerMembers(mine, cutoff);
    WholeIsAll(mine, Newer(mine, cutoff), Run(mine).value, Run(Newer(mine, cutoff)).value);
  }

  lemma WholeIsAll(mine: seq<Source>, young: seq<Source>, c: Collected, d: Collected)
    requires Represents(mine, c) && Represents(young, d) && c.Valid() && d.Valid() && Full(d)
    requires forall s :: s in young ==> s in mine
    ensures c == d
  {
    FullChannelHasNoGap(d);
    assert d.frames[d.end.value] in mine;
    forall n | n in d.frames ensures n in c.frames && c.frames[n] == d.frames[n] {
      assert d.frames[n] in mine;
    }
    assert c.frames == d.frames;
  }

  lemma {:induction false} OldestFrame(frames: FrameMap, n: nat, cutoff: Uint64)
    requires forall k :: 0 <= k < n ==> k in frames
    ensures Assemble(frames, n).oldest >= cutoff <==> forall k :: 0 <= k < n ==> frames[k].timestamp >= cutoff
  {
    if n > 0 {
      OldestFrame(frames, n - 1, cutoff);
    }
  }

  // ---------------------------------------------------------------- a whole submission

  /** One of the submission's channels is whole and decodes to this one. */
  ghost predicate Offers(ss: seq<Source>, batch: BlockBatch, decode: Decoder, ch: BlobChannel) {
    WellFormed(ss) && exists id :: OffersAs(ss, batch, decode, ch, id)
  }

  ghost predicate OffersAs(ss: seq<Source>, batch: BlockBatch, decode: Decoder, ch: BlobChannel, id: FrameId)
    requires WellFormed(ss)
  {
    && id in Ids(ss) && Run(Of(ss, id)).Some?
    && ReadyOf(Run(Of(ss, id)).value, id, batch, decode) == Decoded(ch)
  }

  lemma {:induction false} ResultsOffer(channels: map<FrameId, Collected>, ids: seq<FrameId>, batch: BlockBatch,
                                        decode: Decoder, ch: BlobChannel)
    requires AllCollectedValid(channels) && forall i :: 0 <= i < |ids| ==> ids[i] in channels
    requires Results(channels, ids, batch, decode).Some?
    ensures ch in Results(channels, ids, batch, decode).value <==>
            exists id :: id in ids && ReadyOf(channels[id], id, batch, decode) == Decoded(ch)
  {
    hide ReadyOf;
    if ids != [] {
      var front, last := ids[..|ids| - 1], ids[|ids| - 1];
      assert ids == front + [last];
      ResultsOffer(channels, front, batch, decode, ch);
    }
  }

  /** An accepted submission's outcome is all it offers. */
  lemma OutcomeOffers(ss: seq<Source>, batch: BlockBatch, decode: Decoder, ch: BlobChannel)
    requires WellFormed(ss) && Outcome(ss, batch, decode).Some?
    ensures ch in Outcome(ss, batch, decode).value <==> Offers(ss, batch, decode, ch)
  {
    hide ReadyOf, Run;
    var ids, channels := IdOrder(Ids(ss)), Collection(ss);
    assert forall i :: 0 <= i < |ids| ==> ids[i] in ids;
    ResultsOffer(channels, ids, batch, decode, ch);
    if Offers(ss, batch, decode, ch) {
      var id :| OffersAs(ss, batch, decode, ch, id);
      assert channels[id] == Run(Of(ss, id)).value;
    }
    if ch in Outcome(ss, batch, decode).value {
      var id :| id in ids && ReadyOf(channels[id], id, batch, decode) == Decoded(ch);
      assert OffersAs(ss, batch, decode, ch, id);
    }
  }

  /** The expiry of a decoded channel is its oldest frame's time. */
  lemma DecodedExpiry(c: Collected, id: FrameId, batch: BlockBatch, decode: Decoder, ch: BlobChannel, cutoff: Uint64)
    requires c.Valid() && ReadyOf(c, id, batch, decode) == Decoded(ch)
    ensures Full(c)
    ensures ch.record.expiresAt >= cutoff <==> forall n :: n in c.frames ==> c.frames[n].timestamp >= cutoff
  {
    FullChannelHasNoGap(c);
    OldestFrame(c.frames, c.end.value + 1, cutoff);
  }

  /** What a submission offers without its older sources is exactly what it offered with them and is still young. */
  lemma CutoffCommutes(ss: seq<Source>, batch: BlockBatch, decode: Decoder, cutoff: Uint64, ch: BlobChannel)
    requires WellFormed(ss) && Outcome(ss, batch, decode).Some?
    ensures Offers(Newer(ss, cutoff), batch, decode, ch) <==>
            ch in Outcome(ss, batch, decode).value && ch.record.expiresAt >= cutoff
  {
    hide OffersAs, Run, Outcome;
    OutcomeOffers(ss, batch, decode, ch);
    NewerMembers(ss, cutoff);
    if Offers(Newer(ss, cutoff), batch, decode, ch) {
      var id :| OffersAs(Newer(ss, cutoff), batch, decode, ch, id);
      OfferedBefore(ss, batch, decode, cutoff, ch, id);
    }
    if Offers(ss, batch, decode, ch) && ch.record.expiresAt >= cutoff {
      var id :| OffersAs(ss, batch, decode, ch, id);
      OfferedStill(ss, batch, decode, cutoff, ch, id);
    }
  }

  lemma OfferedBefore(ss: seq<Source>, batch: BlockBatch, decode: Decoder, cutoff: Uint64, ch: BlobChannel, id: FrameId)
    requires WellFormed(ss) && Outcome(ss, batch, decode).Some? && WellFormed(Newer(ss, cutoff))
    requires OffersAs(Newer(ss, cutoff), batch, decode, ch, id)
    ensures OffersAs(ss, batch, decode, ch, id) && ch.record.expiresAt >= cutoff
  {
    hide ReadyOf, Run, Outcome;
    NewerMembers(ss, cutoff);
    AllCollectable(ss, batch, decode);
    NewerOf(ss, id, cutoff);
    DecodedExpiry(Run(Newer(Of(ss, id), cutoff)).value, id, batch, decode, ch, cutoff);
    YoungWhole(Of(ss, id), cutoff);
    YoungFrames(Of(ss, id), cutoff);
  }

  lemma OfferedStill(ss: seq<Source>, batch: BlockBatch, decode: Decoder, cutoff: Uint64, ch: BlobChannel, id: FrameId)
    requires WellFormed(ss) && OffersAs(ss, batch, decode, ch, id) && ch.record.expiresAt >= cutoff
    ensures WellFormed(Newer(ss, cutoff)) && OffersAs(Newer(ss, cutoff), batch, decode, ch, id)
  {
    hide ReadyOf, Run, Full;
    NewerMembers(ss, cutoff);
    NewerOf(ss, id, cutoff);
    DecodedExpiry(Run(Of(ss, id)).value, id, batch, decode, ch, cutoff);
    YoungStays(Of(ss, id), cutoff);
    SomeFrame(Of(Newer(ss, cutoff), id));
  }

  lemma AllCollectable(ss: seq<Source>, batch: BlockBatch, decode: Decoder)
    requires WellFormed(ss) && Outcome(ss, batch, decode).Some?
    ensures forall id :: id in Ids(ss) ==> Run(Of(ss, id)).Some?
  {
    hide Run, Results;
  }

  lemma YoungFrames(mine: seq<Source>, cutoff: Uint64)
    requires WellFormed(mine) && WellFormed(Newer(mine, cutoff)) && Run(Newer(mine, cutoff)).Some?
    ensures var c := Run(Newer(mine, cutoff)).value; forall n :: n in c.frames ==> c.frames[n].timestamp >= cutoff
  {
    hide Run;
    RunRepresents(Newer(mine, cutoff));
    NewerMembers(mine, cutoff);
  }

  lemma SomeFrame(mine: seq<Source>)
    requires WellFormed(mine) && Run(mine).Some? && Full(Run(mine).value)
    ensures mine != [] && mine[0] in mine
  {
  }
}
