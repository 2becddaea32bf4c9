/**
 `window_to_packets` of media/src/window_pipeline.rs: one packet for each frame of a
 window that produced any bytes, stamped 33 ms apart.
 */
module WindowPackets {
  import opened Bytes
  import opened WindowSpec
  import opened WindowRuns

  const MAX_U64 := 0xFFFF_FFFF_FFFF_FFFF

  /** What the encoder produced for one frame, as its NAL units. */
  type Nals = seq<seq<byte>>

  datatype Packet = Packet(pts: nat, data: seq<byte>, isKey: bool)

  function Flat(nals: Nals): seq<byte> {
    if nals == [] then [] else Flat(nals[..|nals| - 1]) + nals[|nals| - 1]
  }

  function Length(nals: Nals): nat {
    if nals == [] then 0 else Length(nals[..|nals| - 1]) + |nals[|nals| - 1]|
  }

  /** A frame's bytes hold all of its units, each behind those before it, and nothing else. */
  lemma {:induction false} FlatHoldsAll(nals: Nals, i: nat)
    requires i < |nals|
    ensures |Flat(nals)| == Length(nals)
    ensures
      var at := Length(nals[..i]);
      at + |nals[i]| <= |Flat(nals)| && Flat(nals)[at..at + |nals[i]|] == nals[i]
  {
    var init := nals[..|nals| - 1];
    FlatLength(nals);
    FlatLength(init);
    if i < |init| {
      FlatHoldsAll(init, i);
      assert init[..i] == nals[..i] && init[i] == nals[i];
      var at := Length(nals[..i]);
      assert Flat(nals)[at..at + |nals[i]|] == Flat(init)[at..at + |nals[i]|];
    }
  }

  lemma {:induction false} FlatLength(nals: Nals)
    ensures |Flat(nals)| == Length(nals)
  {
    if nals != [] {
      FlatLength(nals[..|nals| - 1]);
    }
  }

  function Saturated(x: nat): nat {
    if x > MAX_U64 then MAX_U64 else x
  }

  /** The packets of the first `n` frames. */
  function Packets(frames: seq<Nals>, base: nat, n: nat): seq<Packet>
    requires n <= |frames|
  {
    if n == 0 then []
    else
      var data := Flat(frames[n - 1]);
      Packets(frames, base, n - 1)
      + if data == [] then [] else [Packet(Saturated(base + (n - 1) * 33), data, n == 1)]
  }

  method WindowToPackets(frames: seq<Nals>, base: nat) returns (out: seq<Packet>)
    ensures out == Packets(frames, base, |frames|)
  {
    out := [];
    for i := 0 to |frames|
      invariant out == Packets(frames, base, i)
    {
      var nals := frames[i];
      var data := [];
      for j := 0 to |nals|
        invariant data == Flat(nals[..j])
      {
        assert nals[..j + 1][..j] == nals[..j];
        data := data + nals[j];
      }
      assert nals[..|nals|] == nals;
      if data == [] {
        continue;
      }
      out := out + [Packet(Saturated(base + i * 33), data, i == 0)];
    }
  }

  /** `p` is the packet of frame `i`. */
  ghost predicate PacketOf(frames: seq<Nals>, base: nat, i: nat, p: Packet) {
    i < |frames| && p == Packet(Saturated(base + i * 33), Flat(frames[i]), i == 0) && p.data != []
  }

  /** `index` tells which frame each packet stands for. */
  ghost predicate Stands(frames: seq<Nals>, base: nat, n: nat, packets: seq<Packet>, index: seq<nat>) {
    && |index| == |packets|
    && (forall k | 0 <= k < |index| :: index[k] < n && PacketOf(frames, base, index[k], packets[k]))
    && (forall k, l | 0 <= k < l < |index| :: index[k] < index[l])
  }

  ghost predicate Covers(frames: seq<Nals>, n: nat, index: seq<nat>)
    requires n <= |frames|
  {
    forall i | 0 <= i < n && Flat(frames[i]) != [] :: i in index
  }

  /** Each packet stands for one frame that has bytes, and each such frame has one, in order. */
  lemma {:induction false} PacketsAreTheFrames(frames: seq<Nals>, base: nat, n: nat) returns (index: seq<nat>)
    requires n <= |frames|
    ensures Stands(frames, base, n, Packets(frames, base, n), index) && Covers(frames, n, index)
  {
    if n == 0 {
      index := [];
    } else {
      hide Stands, Covers;
      var before := PacketsAreTheFrames(frames, base, n - 1);
      if Flat(frames[n - 1]) == [] {
        index := before;
        SilentFrame(frames, base, n, Packets(frames, base, n - 1), before);
      } else {
        index := before + [n - 1];
        LoudFrame(frames, base, n, Packets(frames, base, n - 1), before);
      }
    }
  }

  lemma SilentFrame(frames: seq<Nals>, base: nat, n: nat, packets: seq<Packet>, index: seq<nat>)
    requires 0 < n <= |frames| && Flat(frames[n - 1]) == []
    requires Stands(frames, base, n - 1, packets, index) && Covers(frames, n - 1, index)
    ensures Stands(frames, base, n, packets + [], index) && Covers(frames, n, index)
  {
    hide Flat;
    assert packets + [] == packets;
  }

  lemma LoudFrame(frames: seq<Nals>, base: nat, n: nat, packets: seq<Packet>, index: seq<nat>)
    requires 0 < n <= |frames| && Flat(frames[n - 1]) != []
    requires Stands(frames, base, n - 1, packets, index) && Covers(frames, n - 1, index)
    ensures Stands(frames, base, n, packets + [Packet(Saturated(base + (n - 1) * 33), Flat(frames[n - 1]), n == 1)], index + [n - 1])
    ensures Covers(frames, n, index + [n - 1])
  {
    hide Flat;
    forall i | 0 <= i < n && Flat(frames[i]) != [] ensures i in index + [n - 1] {
    }
  }

  /** The stamp of a packet: the base and 33 ms for each frame before, up to the end of 64 bits. */
  lemma StampIs(frames: seq<Nals>, base: nat, packets: seq<Packet>, index: seq<nat>, k: nat)
    requires Stands(frames, base, |frames|, packets, index) && k < |packets|
    ensures
      var at := base + 33 * index[k];
      packets[k].pts == if at <= 0xFFFF_FFFF_FFFF_FFFF then at else 0xFFFF_FFFF_FFFF_FFFF
  {
    assert PacketOf(frames, base, index[k], packets[k]);
  }

  /** Time stamps never run backwards. */
  lemma StampsAreOrdered(frames: seq<Nals>, base: nat, packets: seq<Packet>, index: seq<nat>, k: nat, l: nat)
    requires Stands(frames, base, |frames|, packets, index) && k < l < |packets|
    ensures packets[k].pts <= packets[l].pts
    ensures packets[l].pts < MAX_U64 ==> packets[k].pts + 33 <= packets[l].pts
  {
    assert PacketOf(frames, base, index[k], packets[k]) && PacketOf(frames, base, index[l], packets[l]);
  }

  /** Every packet's flag is what the encoder was told for the frame it stands for. */
  ghost predicate FlagsAreRight(packets: seq<Packet>, index: seq<nat>, calls: seq<Call>)
    requires |index| == |packets|
  {
    forall k | 0 <= k < |packets| && index[k] < |calls| :: packets[k].isKey == calls[index[k]].idr
  }

  /**
   The packet flag says "key" for the first frame of a window only. Given the bytes the
   encoder produced for a window, that is right for all its packets exactly when the first
   frame, if it has a packet, was forced, and after a request no other frame has one. When
   the first frame produced nothing, no packet carries the flag.
   */
  lemma KeyFlagIsRightIff(b: State, luck: Luck, nals: seq<Nals>, base: nat, index: seq<nat>)
    requires b.frames != [] && Encode(b, luck).1.Window? && |nals| == |Encode(b, luck).1.window.frames|
    requires Stands(nals, base, |nals|, Packets(nals, base, |nals|), index) && Covers(nals, |nals|, index)
    ensures
      FlagsAreRight(Packets(nals, base, |nals|), index, Encode(b, luck).1.window.frames) <==>
        && (Flat(nals[0]) != [] ==> b.needsIdr || !b.lowLatency)
        && (b.needsIdr ==> forall i | 1 <= i < |nals| :: Flat(nals[i]) == [])
    ensures Flat(nals[0]) == [] ==> forall p | p in Packets(nals, base, |nals|) :: !p.isKey
  {
    hide Flat, Encode, Packets;
    var (packets, calls) := (Packets(nals, base, |nals|), Encode(b, luck).1.window.frames);
    CallsAreForced(b, luck);
    forall k | 0 <= k < |packets|
      ensures packets[k].isKey <==> index[k] == 0
      ensures Flat(nals[index[k]]) != [] && index[k] < |calls|
    {
      assert PacketOf(nals, base, index[k], packets[k]);
    }
    if FlagsAreRight(packets, index, calls) {
      FlagsTell(b, packets, index, calls, nals);
    }
  }

  /** Which frames of a window are forced. */
  lemma CallsAreForced(b: State, luck: Luck)
    requires b.frames != [] && Encode(b, luck).1.Window?
    ensures
      var calls := Encode(b, luck).1.window.frames;
      calls != [] && forall i | 0 <= i < |calls| :: calls[i].idr == (b.needsIdr || (i == 0 && !b.lowLatency))
  {
    hide View;
    EncodeReplies(b, luck);
    var calls := Encode(b, luck).1.window.frames;
    forall i | 0 <= i < |calls| ensures calls[i].idr == ForceIdr(b, i) {
    }
  }

  lemma FlagsTell(b: State, packets: seq<Packet>, index: seq<nat>, calls: seq<Call>, nals: seq<Nals>)
    requires |nals| == |calls| && calls != [] && |index| == |packets| && Covers(nals, |nals|, index)
    requires forall i | 0 <= i < |calls| :: calls[i].idr == (b.needsIdr || (i == 0 && !b.lowLatency))
    requires forall k | 0 <= k < |packets| :: (packets[k].isKey <==> index[k] == 0) && index[k] < |calls|
    requires FlagsAreRight(packets, index, calls)
    ensures Flat(nals[0]) != [] ==> b.needsIdr || !b.lowLatency
    ensures b.needsIdr ==> forall i | 1 <= i < |nals| :: Flat(nals[i]) == []
  {
    hide Flat;
    forall i | 0 <= i < |nals| && Flat(nals[i]) != [] ensures calls[i].idr == (i == 0) {
      var k :| 0 <= k < |index| && index[k] == i;
      assert packets[k].isKey == calls[index[k]].idr;
    }
    if Flat(nals[0]) != [] {
      assert calls[0].idr;
    }
    forall i | 1 <= i < |nals| && b.needsIdr ensures Flat(nals[i]) == [] {
      assert calls[i].idr;
    }
  }
}
