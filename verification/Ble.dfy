/** Cutting a byte string into numbered segments and putting it together again (ble_iface.rs). */
module Segmentation {
  import opened Bytes

  /** `chunks(n)` of a non-empty slice. */
  function Chunks(data: bytes, n: nat): (cs: seq<bytes>)
    requires n > 0 && data != []
    ensures cs != []
    decreases |data|
  {
    if |data| <= n then [data] else [data[..n]] + Chunks(data[n..], n)
  }

  lemma {:induction false} ChunksJoin(data: bytes, n: nat)
    requires n > 0 && data != []
    ensures Concat(Chunks(data, n)) == data
    ensures forall c :: c in Chunks(data, n) ==> 0 < |c| <= n
    decreases |data|
  {
    if |data| <= n {
      assert Concat([data]) == data + Concat([]) == data;
    } else {
      ChunksJoin(data[n..], n);
      assert Chunks(data, n)[1..] == Chunks(data[n..], n);
      assert data[..n] + data[n..] == data;
    }
  }

  /** `len.div_ceil(n)` as written in the source. */
  function TotalSegments(len: nat, n: nat): nat
    requires n > 0
  {
    (len + n - 1) / n
  }

  lemma {:induction false} ChunksBound(data: bytes, n: nat, k: nat)
    requires n > 0 && data != []
    ensures |Chunks(data, n)| <= k <==> |data| <= k * n
    decreases |data|
  {
    if |data| > n && k > 0 {
      ChunksBound(data[n..], n, k - 1);
      assert (k - 1) * n == k * n - n;
    } else if k > 1 {
      assert (k - 1) * n >= n && k * n == (k - 1) * n + n;
    }
  }

  lemma {:induction false} MulStrict(n: nat, a: nat, b: nat)
    requires a < b
    ensures n * a + n <= n * b
    decreases b
  {
    if a + 1 < b {
      MulStrict(n, a, b - 1);
    }
    assert n * b == n * (b - 1) + n;
  }

  lemma QuotientBounds(x: nat, n: nat)
    requires n > 0
    ensures n * (x / n) <= x < n * (x / n) + n
  {
  }

  lemma QuotientIs(x: nat, n: nat, q: nat)
    requires n > 0 && n * q <= x < n * q + n
    ensures x / n == q
  {
    QuotientBounds(x, n);
    if x / n < q {
      MulStrict(n, x / n, q);
    } else if x / n > q {
      MulStrict(n, q, x / n);
    }
  }

  /** The announced total is the number of chunks. */
  lemma ChunkCount(data: bytes, n: nat)
    requires n > 0 && data != []
    ensures |Chunks(data, n)| == TotalSegments(|data|, n)
  {
    var c := |Chunks(data, n)|;
    ChunksBound(data, n, c);
    ChunksBound(data, n, c - 1);
    assert (c - 1) * n == n * c - n && c * n == n * c;
    QuotientIs(|data| + n - 1, n, c);
  }

  /** A segment: index and total, each cut to a byte, then the payload. */
  function Frame(idx: nat, total: nat, chunk: bytes): (f: bytes)
    ensures |f| == |chunk| + 2
  {
    [idx % 256, total % 256] + chunk
  }

  function Numbered(cs: seq<bytes>, from: nat, total: nat): (fs: seq<bytes>)
    ensures |fs| == |cs| && forall i :: 0 <= i < |cs| ==> fs[i] == Frame(from + i, total, cs[i])
  {
    if cs == [] then [] else [Frame(from, total, cs[0])] + Numbered(cs[1..], from + 1, total)
  }

  /** `segment_with_payload` */
  function SegmentWithPayload(data: bytes, payload: nat): seq<bytes>
    requires payload > 0
  {
    if |data| <= payload then [[0, 1] + data]
    else Numbered(Chunks(data, payload), 0, TotalSegments(|data|, payload))
  }

  /** `segment`, kept for the fixed MTU. */
  function Segment(data: bytes): seq<bytes>
  {
    if |data| <= 244 then [[0, 1] + data]
    else Numbered(Chunks(data, 242), 0, TotalSegments(|data|, 242))
  }

  /** The fixed-MTU variant keeps within 244 bytes exactly when it does not take its single-frame path with the last two
      lengths it accepts there. */
  lemma SegmentFitsIff(data: bytes)
    ensures (forall f :: f in Segment(data) ==> |f| <= 244) <==> |data| !in {243, 244}
  {
    if |data| <= 244 {
      assert [0, 1] + data in Segment(data);
    } else {
      ChunksJoin(data, 242);
      assert forall i :: 0 <= i < |Segment(data)| ==> Chunks(data, 242)[i] in Chunks(data, 242);
    }
  }

  lemma NumberedSmall(cs: seq<bytes>, fs: seq<bytes>, total: nat)
    requires |cs| <= 255 && total <= 255 && fs == Numbered(cs, 0, total)
    ensures forall i :: 0 <= i < |cs| ==> fs[i] == [i, total] + cs[i]
  {
    forall i | 0 <= i < |cs|
      ensures fs[i] == [i, total] + cs[i]
    {
      assert fs[i] == Frame(0 + i, total, cs[i]);
    }
  }

  /** A blob of at most 255 chunks is announced and numbered without truncation. */
  lemma SegmentsAreFaithful(data: bytes, payload: nat)
    requires payload > 0 && data != [] && |Chunks(data, payload)| <= 255
    ensures var cs := Chunks(data, payload); var fs := SegmentWithPayload(data, payload);
            |fs| == |cs| && forall i :: 0 <= i < |cs| ==> fs[i] == [i, |cs|] + cs[i]
  {
    if |data| > payload {
      ChunkCount(data, payload);
      NumberedSmall(Chunks(data, payload), SegmentWithPayload(data, payload), |Chunks(data, payload)|);
    }
  }

  /** Each segment is within `payload` plus the header. */
  lemma SegmentsFit(data: bytes, payload: nat)
    requires payload > 0 && data != []
    ensures forall f :: f in SegmentWithPayload(data, payload) ==> |f| <= payload + 2
  {
    ChunksJoin(data, payload);
    var cs := Chunks(data, payload);
    assert forall i :: 0 <= i < |cs| ==> cs[i] in cs;
  }

  /** Numbers fit a byte exactly up to 255 segments; beyond that the announced total is wrong. */
  lemma TotalFitsIff(data: bytes, payload: nat)
    requires payload > 0 && data != []
    ensures TotalSegments(|data|, payload) <= 255 <==> |data| <= 255 * payload
  {
    ChunkCount(data, payload);
    ChunksBound(data, payload, 255);
  }
}

/** The BLE interface: packets to numbered segments and back, with one reassembly per peer and one deframer for all. */
module BleLink {
  import opened Bytes
  import opened Buffers
  import opened Packets
  import opened Segmentation
  import Feeding
  import HdlcFraming

  const BLE_MAX_PACKET := 500
  const SEG_HEADER := 2

  type Peer = bytes

  // ----- reassembly -------------------------------------------------------------------------------------

  /** `PeerAssembly` */
  datatype Assembly = Assembly(total: byte, slots: seq<Option<bytes>>)

  function Fresh(total: byte): Assembly
  {
    Assembly(total, seq(total, _ => None))
  }

  predicate AllPresent(slots: seq<Option<bytes>>)
  {
    forall i :: 0 <= i < |slots| ==> slots[i].Some?
  }

  function Joined(slots: seq<Option<bytes>>): bytes
    requires AllPresent(slots)
  {
    if slots == [] then [] else slots[0].value + Joined(slots[1..])
  }

  /** `push`: a header index beyond the slots is ignored. */
  function Push(a: Assembly, idx: byte, payload: bytes): (Assembly, Option<bytes>)
  {
    if idx >= |a.slots| then (a, None)
    else
      var b := a.(slots := a.slots[idx := Some(payload)]);
      (b, if AllPresent(b.slots) then Some(Joined(b.slots)) else None)
  }

  type Assemblies = map<Peer, Assembly>

  /** One received frame: the assemblies afterwards, and the blob it completes. */
  function Receive(m: Assemblies, peer: Peer, data: bytes): (Assemblies, Option<bytes>)
  {
    if |data| < SEG_HEADER then (m, None)
    else
      var idx, total, payload := data[0], data[1], data[2..];
      if total == 1 then (m - {peer}, Some(payload))
      else
        var state := if peer in m && m[peer].total == total then m[peer] else Fresh(total);
        var (next, complete) := Push(state, idx, payload);
        (if complete.Some? then m - {peer} else m[peer := next], complete)
  }

  class BleReceiver {
    var assembly: Assemblies
    const deframer: HdlcFraming.HdlcDeframer

    constructor ()
      ensures assembly == map[] && deframer.State() == HdlcFraming.Deframing([], false, false) && fresh(deframer)
    {
      assembly := map[];
      deframer := new HdlcFraming.HdlcDeframer();
    }

    /** One iteration of the receive loop: a frame from `peer`, and the packets it sends to the transport. */
    method OnFrame(peer: Peer, data: bytes) returns (packets: seq<Packet>)
      modifies this, deframer
      ensures var (m, blob) := Receive(old(assembly), peer, data);
              && assembly == m
              && (blob.None? ==> packets == [] && deframer.State() == old(deframer.State()))
              && (blob.Some? ==> var (s, raws) := Feeding.Feed(HdlcFraming.Step, old(deframer.State()), blob.value);
                                 deframer.State() == s && packets == Collect(Parse, raws))
    {
      packets := [];
      var fullHdlc := Assemble(peer, data);
      if fullHdlc.None? {
        return;
      }
      var rawPackets := deframer.Feed(fullHdlc.value);
      packets := ParseAll(rawPackets);
    }

    /** The part of the loop before deframing. */
    method Assemble(peer: Peer, data: bytes) returns (fullHdlc: Option<bytes>)
      modifies this
      ensures (assembly, fullHdlc) == Receive(old(assembly), peer, data)
    {
      if |data| < SEG_HEADER {
        return None;
      }
      var segIdx, totalSeg, payload := data[0], data[1], data[SEG_HEADER..];
      if totalSeg == 1 {
        assembly := assembly - {peer};
        return Some(payload);
      }
      if peer !in assembly {
        assembly := assembly[peer := Fresh(totalSeg)];
      }
      if assembly[peer].total != totalSeg {
        assembly := assembly[peer := Fresh(totalSeg)];
      }
      var (state, complete) := Push(assembly[peer], segIdx, payload);
      assembly := assembly[peer := state];
      assert assembly == old(assembly)[peer := state];
      if complete.Some? {
        assembly := assembly - {peer};
        assert assembly == old(assembly) - {peer};
      }
      return complete;
    }
  }

  /** Deserialise what can be deserialised. */
  method ParseAll(raws: seq<bytes>) returns (packets: seq<Packet>)
    ensures packets == Collect(Parse, raws)
  {
    packets := [];
    for i := 0 to |raws|
      invariant packets == Collect(Parse, raws[..i])
    {
      var input := new InputBuffer(raws[i]);
      var p := Deserialize(input);
      assert raws[..i + 1] == raws[..i] + [raws[i]];
      CollectAppend(Parse, raws[..i], [raws[i]]);
      CollectOne(Parse, raws[i]);
      if p.Some? {
        packets := packets + [p.value];
      }
    }
    assert raws[..|raws|] == raws;
  }

  // ----- the transmitter --------------------------------------------------------------------------------

  /** `peer_mtu` */
  function PeerMtu(limits: map<Peer, nat>, peer: Peer): nat
  {
    if peer in limits then limits[peer] else 247
  }

  /** Payload bytes per segment for a write limit. */
  function SegPayload(limit: nat): (n: nat)
    ensures n > 0
  {
    if limit < SEG_HEADER + 1 then 1 else limit - SEG_HEADER
  }

  type TxFrame = (Peer, bytes)

  function Addressed(peer: Peer, segs: seq<bytes>): seq<TxFrame>
  {
    seq(|segs|, i requires 0 <= i < |segs| => (peer, segs[i]))
  }

  /** What one packet adds to the transmit queue: all its segments for the first peer, then for the next, and so on. */
  function Outgoing(frame: bytes, limits: map<Peer, nat>, peers: seq<Peer>): seq<TxFrame>
  {
    if peers == [] then []
    else
      var last := peers[|peers| - 1];
      Outgoing(frame, limits, peers[..|peers| - 1])
      + Addressed(last, SegmentWithPayload(frame, SegPayload(PeerMtu(limits, last))))
  }

  lemma OutgoingOneMore(before: seq<TxFrame>, frame: bytes, limits: map<Peer, nat>, peers: seq<Peer>, i: nat)
    requires i < |peers|
    ensures (before + Outgoing(frame, limits, peers[..i]))
            + Addressed(peers[i], SegmentWithPayload(frame, SegPayload(PeerMtu(limits, peers[i]))))
            == before + Outgoing(frame, limits, peers[..i + 1])
  {
    assert peers[..i + 1][..i] == peers[..i];
  }

  class BleTransmitter {
    const serializeBuf: array<byte>
    var txQueue: seq<TxFrame>

    ghost predicate Valid()
    {
      serializeBuf.Length == BLE_MAX_PACKET + 64
    }

    constructor ()
      ensures Valid() && txQueue == [] && fresh(serializeBuf)
    {
      serializeBuf := new byte[BLE_MAX_PACKET + 64](_ => 0);
      txQueue := [];
    }

    /** One iteration of the transmit loop: whatever the packet, all its segments are queued for all peers. */
    method SendPacket(packet: Packet, limits: map<Peer, nat>, peers: seq<Peer>)
      requires Valid()
      modifies this, serializeBuf
      ensures txQueue == old(txQueue) + Outgoing(HdlcFraming.Encode(Render(packet)), limits, peers)
    {
      var hdlcFrame := FramePacket(packet);
      if hdlcFrame.None? {
        return;
      }
      if peers == [] {
        assert txQueue + [] == txQueue;
        return;
      }
      Enqueue(hdlcFrame.value, limits, peers);
    }

    /** The segments of one frame for every peer, each by its own limit. */
    method Enqueue(hdlcFrame: bytes, limits: map<Peer, nat>, peers: seq<Peer>)
      modifies this
      ensures txQueue == old(txQueue) + Outgoing(hdlcFrame, limits, peers)
    {
      ghost var before := txQueue;
      assert before + [] == before;
      for i := 0 to |peers|
        invariant txQueue == before + Outgoing(hdlcFrame, limits, peers[..i])
      {
        var segPayload := SegPayload(PeerMtu(limits, peers[i]));
        var segs := SegmentWithPayload(hdlcFrame, segPayload);
        OutgoingOneMore(before, hdlcFrame, limits, peers, i);
        PushAll(peers[i], segs);
      }
      assert peers[..|peers|] == peers;
    }

    /** Serialise and frame. Neither of the two branches that drop the packet can be taken. */
    method FramePacket(packet: Packet) returns (r: Option<bytes>)
      requires Valid()
      modifies serializeBuf
      ensures r == Some(HdlcFraming.Encode(Render(packet)))
    {
      var out := new OutputBuffer(serializeBuf);
      var written := Serialize(packet, out);
      if written.None? {
        return None;
      }
      var serialized := out.AsSlice();
      assert [] + Render(packet) == Render(packet);
      if |serialized| > BLE_MAX_PACKET {
        return None;
      }
      var frame := HdlcFraming.HdlcEncode(serialized);
      return Some(frame);
    }

    method PushAll(peer: Peer, segs: seq<bytes>)
      modifies this
      ensures txQueue == old(txQueue) + Addressed(peer, segs)
    {
      for j := 0 to |segs|
        invariant txQueue == old(txQueue) + Addressed(peer, segs)[..j]
      {
        txQueue := txQueue + [(peer, segs[j])];
      }
      assert Addressed(peer, segs)[..|segs|] == Addressed(peer, segs);
    }
  }

  // ----- reassembly in any order ------------------------------------------------------------------------

  datatype Arrival = Arrival(peer: Peer, data: bytes)

  function RunArrivals(m: Assemblies, evs: seq<Arrival>): Assemblies
  {
    if evs == [] then m
    else
      var last := evs[|evs| - 1];
      Receive(RunArrivals(m, evs[..|evs| - 1]), last.peer, last.data).0
  }

  /** Everything received from one peer. */
  function Heard(evs: seq<Arrival>, peer: Peer): set<bytes>
  {
    if evs == [] then {}
    else
      var last := evs[|evs| - 1];
      Heard(evs[..|evs| - 1], peer) + if last.peer == peer then {last.data} else {}
  }

  /** The segments of one message that needs several. */
  predicate Message(segs: seq<bytes>)
  {
    2 <= |segs| <= 255
    && forall i :: 0 <= i < |segs| ==> |segs[i]| >= 2 && segs[i][0] == i && segs[i][1] == |segs|
  }

  function Payloads(segs: seq<bytes>): seq<bytes>
    requires forall f :: f in segs ==> |f| >= 2
  {
    if segs == [] then [] else [segs[0][2..]] + Payloads(segs[1..])
  }

  /** The slots with which the next segment of a message of this many segments starts: a leftover assembly of the same
      size is continued, any other is replaced. */
  function Base(m: Assemblies, peer: Peer, total: byte): seq<Option<bytes>>
  {
    if peer in m && m[peer].total == total then m[peer].slots else seq(total, _ => None)
  }

  predicate AllHeard(segs: seq<bytes>, got: set<bytes>)
  {
    forall i :: 0 <= i < |segs| ==> segs[i] in got
  }

  /** `slots` is `base` overwritten by the segments in `got`. */
  predicate Covers(slots: seq<Option<bytes>>, base: seq<Option<bytes>>, segs: seq<bytes>, got: set<bytes>)
    requires Message(segs)
  {
    |slots| == |base| == |segs|
    && forall i :: 0 <= i < |segs| ==> slots[i] == if segs[i] in got then Some(segs[i][2..]) else base[i]
  }

  /** A segment of the message arrives. */
  lemma OwnSegment(m: Assemblies, peer: Peer, segs: seq<bytes>, base: seq<Option<bytes>>, got: set<bytes>, data: bytes)
    requires Message(segs) && data in segs && Covers(Base(m, peer, |segs|), base, segs, got)
    ensures var (next, blob) := Receive(m, peer, data);
            var slots := Base(m, peer, |segs|)[data[0] := Some(data[2..])];
            && Covers(slots, base, segs, got + {data})
            && (AllPresent(slots) ==> blob == Some(Joined(slots)) && peer !in next)
            && (!AllPresent(slots) ==> blob == None && Base(next, peer, |segs|) == slots)
  {
    var i :| 0 <= i < |segs| && segs[i] == data;
    var slots := Base(m, peer, |segs|)[i := Some(data[2..])];
    assert forall j :: 0 <= j < |segs| && j != i ==> segs[j] != data;
  }

  /** Other peers do not touch this peer's assembly. */
  lemma ForeignSegment(m: Assemblies, other: Peer, data: bytes, peer: Peer, total: byte)
    requires other != peer
    ensures Base(Receive(m, other, data).0, peer, total) == Base(m, peer, total)
  {
  }

  /** All arrivals from `peer` are segments of the message. */
  ghost predicate OnlyThisMessage(evs: seq<Arrival>, peer: Peer, segs: seq<bytes>)
  {
    forall e :: e in evs && e.peer == peer ==> e.data in segs
  }

  /** Until the slots are full, the assembly holds what has been heard over what was there at the start. */
  lemma {:induction false} Assembling(m: Assemblies, evs: seq<Arrival>, peer: Peer, segs: seq<bytes>,
                                      base: seq<Option<bytes>>, full: seq<Option<bytes>>)
    requires Message(segs) && OnlyThisMessage(evs, peer, segs)
    requires base == Base(m, peer, |segs|) && Covers(full, base, segs, Heard(evs, peer)) && !AllPresent(full)
    ensures Base(RunArrivals(m, evs), peer, |segs|) == full
    decreases |evs|
  {
    if evs == [] {
      assert forall i :: 0 <= i < |segs| ==> full[i] == base[i];
    } else {
      var init, last := evs[..|evs| - 1], evs[|evs| - 1];
      assert OnlyThisMessage(init, peer, segs);
      var before := Under(base, segs, Heard(init, peer));
      assert !AllPresent(before) by {
        var i :| 0 <= i < |full| && full[i].None?;
        assert before[i].None?;
      }
      Assembling(m, init, peer, segs, base, before);
      var mid := RunArrivals(m, init);
      if last.peer == peer {
        OwnSegment(mid, peer, segs, base, Heard(init, peer), last.data);
        assert before[last.data[0] := Some(last.data[2..])] == full;
      } else {
        ForeignSegment(mid, last.peer, last.data, peer, |segs|);
        assert before == full;
      }
    }
  }

  /** The slots themselves. */
  function Under(base: seq<Option<bytes>>, segs: seq<bytes>, got: set<bytes>): (slots: seq<Option<bytes>>)
    requires Message(segs) && |base| == |segs|
    ensures Covers(slots, base, segs, got)
  {
    seq(|segs|, i requires 0 <= i < |segs| => if segs[i] in got then Some(segs[i][2..]) else base[i])
  }

  /** The arrival that fills the last slot yields the joined slots; no arrival before it yields anything. */
  lemma ReassembledWhenFull(m: Assemblies, evs: seq<Arrival>, last: Arrival, segs: seq<bytes>, base: seq<Option<bytes>>)
    requires Message(segs) && OnlyThisMessage(evs, last.peer, segs) && last.data in segs
    requires base == Base(m, last.peer, |segs|) && |base| == |segs|
    requires !AllPresent(Under(base, segs, Heard(evs, last.peer)))
    ensures var blob := Receive(RunArrivals(m, evs), last.peer, last.data).1;
            var slots := Under(base, segs, Heard(evs, last.peer) + {last.data});
            blob == if AllPresent(slots) then Some(Joined(slots)) else None
  {
    var before := Under(base, segs, Heard(evs, last.peer));
    Assembling(m, evs, last.peer, segs, base, before);
    OwnSegment(RunArrivals(m, evs), last.peer, segs, base, Heard(evs, last.peer), last.data);
    assert before[last.data[0] := Some(last.data[2..])] == Under(base, segs, Heard(evs, last.peer) + {last.data});
  }

  lemma {:induction false} JoinedPayloads(slots: seq<Option<bytes>>, segs: seq<bytes>)
    requires |slots| == |segs| && (forall f :: f in segs ==> |f| >= 2)
    requires forall i :: 0 <= i < |segs| ==> slots[i] == Some(segs[i][2..])
    ensures Joined(slots) == Concat(Payloads(segs))
    decreases |segs|
  {
    if segs != [] {
      JoinedPayloads(slots[1..], segs[1..]);
      assert Payloads(segs)[1..] == Payloads(segs[1..]);
    }
  }

  /** Assemblies have as many slots as segments were announced, and whole ones are not kept. */
  predicate Tidy(m: Assemblies)
  {
    forall p :: p in m ==> |m[p].slots| == m[p].total && (m[p].total > 0 ==> !AllPresent(m[p].slots))
  }

  /** The peer has an unfinished assembly of the same size in which something is stored. */
  predicate HasLeftover(m: Assemblies, peer: Peer, total: nat)
  {
    peer in m && m[peer].total == total && exists i :: 0 <= i < |m[peer].slots| && m[peer].slots[i].Some?
  }

  /** With nothing stored in an assembly of the same size left over for the peer, the message comes out exactly with the
      arrival that completes it, whatever the order, the duplicates before that and the traffic of other peers. */
  lemma ReassembledExactly(m: Assemblies, evs: seq<Arrival>, last: Arrival, segs: seq<bytes>)
    requires Message(segs) && OnlyThisMessage(evs, last.peer, segs) && last.data in segs
    requires Tidy(m) && !HasLeftover(m, last.peer, |segs|)
    requires !AllHeard(segs, Heard(evs, last.peer))
    ensures Receive(RunArrivals(m, evs), last.peer, last.data).1
         == if AllHeard(segs, Heard(evs, last.peer) + {last.data}) then Some(Concat(Payloads(segs))) else None
  {
    var base, got := Base(m, last.peer, |segs|), Heard(evs, last.peer);
    var slots := Under(base, segs, got + {last.data});
    assert !AllPresent(Under(base, segs, got)) by {
      var i :| 0 <= i < |segs| && segs[i] !in got;
      assert Under(base, segs, got)[i].None?;
    }
    ReassembledWhenFull(m, evs, last, segs, base);
    assert AllPresent(slots) <==> AllHeard(segs, got + {last.data}) by {
      assert forall i :: 0 <= i < |segs| ==> (slots[i].Some? <==> segs[i] in got + {last.data});
    }
    if AllPresent(slots) {
      JoinedPayloads(slots, segs);
    }
  }

  // ----- leftovers --------------------------------------------------------------------------------------

  lemma ReceiveKeepsTidy(m: Assemblies, peer: Peer, data: bytes)
    requires Tidy(m)
    ensures Tidy(Receive(m, peer, data).0)
  {
    if |data| >= SEG_HEADER && data[1] > 1 {
      assert Fresh(data[1]).slots[0].None?;
    }
  }

  lemma {:induction false} RunKeepsTidy(m: Assemblies, evs: seq<Arrival>)
    requires Tidy(m)
    ensures Tidy(RunArrivals(m, evs))
    decreases |evs|
  {
    if evs != [] {
      var init, last := evs[..|evs| - 1], evs[|evs| - 1];
      RunKeepsTidy(m, init);
      ReceiveKeepsTidy(RunArrivals(m, init), last.peer, last.data);
    }
  }

  /** What the arrival `last` completes behind `evs`. */
  function Yields(m: Assemblies, evs: seq<Arrival>, last: Arrival): Option<bytes>
  {
    Receive(RunArrivals(m, evs), last.peer, last.data).1
  }

  /** In every order of arrivals, with any duplicates before completion and any traffic of other peers, the message comes
      out with the last missing segment, and nothing comes out before. */
  ghost predicate AlwaysExact(m: Assemblies, peer: Peer, segs: seq<bytes>)
    requires Message(segs)
  {
    forall evs, last: Arrival ::
      last.peer == peer && OnlyThisMessage(evs, peer, segs) && last.data in segs && !AllHeard(segs, Heard(evs, peer)) ==>
        Yields(m, evs, last) == if AllHeard(segs, Heard(evs, peer) + {last.data}) then Some(Concat(Payloads(segs))) else None
  }

  /** All segments but two, in order. */
  function AllBut(peer: Peer, segs: seq<bytes>, i: nat, j: nat, n: nat): seq<Arrival>
    requires n <= |segs|
  {
    if n == 0 then []
    else AllBut(peer, segs, i, j, n - 1) + if n - 1 == i || n - 1 == j then [] else [Arrival(peer, segs[n - 1])]
  }

  lemma HeardSnoc(evs: seq<Arrival>, a: Arrival)
    ensures Heard(evs + [a], a.peer) == Heard(evs, a.peer) + {a.data}
  {
    assert (evs + [a])[..|evs|] == evs;
  }

  lemma {:induction false} AllButAreSegments(peer: Peer, segs: seq<bytes>, i: nat, j: nat, n: nat)
    requires n <= |segs|
    ensures OnlyThisMessage(AllBut(peer, segs, i, j, n), peer, segs)
  {
    if n > 0 {
      AllButAreSegments(peer, segs, i, j, n - 1);
    }
  }

  lemma AllButOneMore(peer: Peer, segs: seq<bytes>, i: nat, j: nat, n: nat)
    requires 0 < n <= |segs|
    ensures Heard(AllBut(peer, segs, i, j, n), peer)
            == Heard(AllBut(peer, segs, i, j, n - 1), peer) + if n - 1 == i || n - 1 == j then {} else {segs[n - 1]}
  {
    var init, last := AllBut(peer, segs, i, j, n - 1), Arrival(peer, segs[n - 1]);
    if n - 1 == i || n - 1 == j {
      assert AllBut(peer, segs, i, j, n) == init;
    } else {
      assert AllBut(peer, segs, i, j, n) == init + [last];
      HeardSnoc(init, last);
    }
  }

  lemma {:induction false} AllButHeard(peer: Peer, segs: seq<bytes>, i: nat, j: nat, n: nat, k: nat)
    requires Message(segs) && n <= |segs| && k < |segs|
    ensures segs[k] in Heard(AllBut(peer, segs, i, j, n), peer) <==> k < n && k != i && k != j
  {
    if n > 0 {
      AllButHeard(peer, segs, i, j, n - 1, k);
      AllButOneMore(peer, segs, i, j, n);
      OneMoreSegment(segs, Heard(AllBut(peer, segs, i, j, n - 1), peer), i, j, n, k);
    }
  }

  lemma OneMoreSegment(segs: seq<bytes>, got: set<bytes>, i: nat, j: nat, n: nat, k: nat)
    requires Message(segs) && 0 < n <= |segs| && k < |segs|
    requires segs[k] in got <==> k < n - 1 && k != i && k != j
    ensures segs[k] in got + (if n - 1 == i || n - 1 == j then {} else {segs[n - 1]}) <==> k < n && k != i && k != j
  {
    SegmentsDiffer(segs, n - 1, k);
  }

  lemma SegmentsDiffer(segs: seq<bytes>, i: nat, j: nat)
    requires Message(segs) && i < |segs| && j < |segs|
    ensures segs[i] == segs[j] <==> i == j
  {
    assert segs[i][0] == i && segs[j][0] == j;
  }

  /** A slot filled before stands in for its segment: the others alone complete the slots. */
  lemma CompletedTooEarly(m: Assemblies, peer: Peer, segs: seq<bytes>, i: nat, j: nat)
    requires Message(segs) && peer in m && m[peer].total == |segs| == |m[peer].slots|
    requires i < |segs| && j < |segs| && m[peer].slots[i].Some? && m[peer].slots[j].None?
    ensures !AlwaysExact(m, peer, segs)
  {
    var evs, last, base := AllBut(peer, segs, i, j, |segs|), Arrival(peer, segs[j]), m[peer].slots;
    AllButAreSegments(peer, segs, i, j, |segs|);
    var got := Heard(evs, peer);
    forall k | 0 <= k < |segs|
      ensures segs[k] in got <==> k != i && k != j
    {
      AllButHeard(peer, segs, i, j, |segs|, k);
    }
    SegmentsDiffer(segs, i, j);
    assert Under(base, segs, got)[j].None?;
    ReassembledWhenFull(m, evs, last, segs, base);
    var slots := Under(base, segs, got + {segs[j]});
    assert AllPresent(slots);
    assert segs[i] !in got + {segs[j]};
    assert Yields(m, evs, last).Some?;
  }

  /** Segments carry no message number, so an unfinished assembly of the same size is continued. A message of two or more
      segments comes out right in every order of arrivals if and only if the peer has no such assembly with a filled slot. */
  lemma LeftoverHarmlessIff(m: Assemblies, peer: Peer, segs: seq<bytes>)
    requires Message(segs) && Tidy(m)
    ensures AlwaysExact(m, peer, segs) <==> !HasLeftover(m, peer, |segs|)
  {
    if HasLeftover(m, peer, |segs|) {
      var i :| 0 <= i < |m[peer].slots| && m[peer].slots[i].Some?;
      var j :| 0 <= j < |m[peer].slots| && m[peer].slots[j].None?;
      CompletedTooEarly(m, peer, segs, i, j);
    } else {
      forall evs, last: Arrival | last.peer == peer && OnlyThisMessage(evs, peer, segs) && last.data in segs
                         && !AllHeard(segs, Heard(evs, peer))
        ensures Yields(m, evs, last)
                == if AllHeard(segs, Heard(evs, peer) + {last.data}) then Some(Concat(Payloads(segs))) else None
      {
        ReassembledExactly(m, evs, last, segs);
      }
    }
  }

  lemma JoinedPair(a: bytes, b: bytes)
    ensures Joined([Some(a), Some(b)]) == a + b
  {
    var slots, rest := [Some(a), Some(b)], [Some(b)];
    assert slots[1..] == rest && Joined(rest) == b + Joined(rest[1..]) == b;
  }

  /** A segment of a message of two. */
  function Half(i: byte, payload: bytes): bytes { [i, 2] + payload }

  lemma SecondHalfStays(peer: Peer, a1: bytes)
    ensures Receive(map[], peer, Half(1, a1)) == (map[peer := Assembly(2, [None, Some(a1)])], None)
  {
    var slots := Fresh(2).slots[1 := Some(a1)];
    assert Half(1, a1)[2..] == a1;
    assert slots == [None, Some(a1)];
    assert slots[0].None?;
    assert Push(Fresh(2), 1, a1) == (Assembly(2, slots), None);
  }

  lemma FirstHalfCompletes(peer: Peer, b0: bytes, a1: bytes)
    ensures Receive(map[peer := Assembly(2, [None, Some(a1)])], peer, Half(0, b0)) == (map[], Some(b0 + a1))
  {
    var a := Assembly(2, [None, Some(a1)]);
    assert Half(0, b0)[2..] == b0;
    assert a.slots[0 := Some(b0)] == [Some(b0), Some(a1)];
    JoinedPair(b0, a1);
    assert map[peer := a] - {peer} == map[];
  }

  lemma RunOne(m: Assemblies, a: Arrival)
    ensures RunArrivals(m, [a]) == Receive(m, a.peer, a.data).0
  {
    assert [a][..0] == [];
  }

  /** Two messages of two segments each, sent in order, of which only the very first segment is lost: what comes out is the
      second message's first half with the first message's second half, and the second message never comes out. */
  lemma OneLossMixesTwoMessages(peer: Peer, a1: bytes, b0: bytes, b1: bytes)
    ensures var lost := [Arrival(peer, Half(1, a1))]; var next := lost + [Arrival(peer, Half(0, b0))];
            && Yields(map[], [], lost[0]) == None
            && Yields(map[], lost, Arrival(peer, Half(0, b0))) == Some(b0 + a1)
            && Yields(map[], next, Arrival(peer, Half(1, b1))) == None
  {
    var lost := [Arrival(peer, Half(1, a1))];
    var next := lost + [Arrival(peer, Half(0, b0))];
    SecondHalfStays(peer, a1);
    FirstHalfCompletes(peer, b0, a1);
    SecondHalfStays(peer, b1);
    RunOne(map[], lost[0]);
    assert next[..1] == lost;
  }

  // ----- a packet from end to end -----------------------------------------------------------------------

  function Segments(p: Packet, limit: nat): seq<bytes>
  {
    SegmentWithPayload(HdlcFraming.Encode(Render(p)), SegPayload(limit))
  }

  lemma {:induction false} PayloadsAre(segs: seq<bytes>, cs: seq<bytes>)
    requires |segs| == |cs| && forall i :: 0 <= i < |segs| ==> |segs[i]| >= 2 && segs[i][2..] == cs[i]
    ensures Payloads(segs) == cs
    decreases |segs|
  {
    if segs != [] {
      PayloadsAre(segs[1..], cs[1..]);
    }
  }

  lemma NumberedChunks(cs: seq<bytes>, segs: seq<bytes>)
    requires 2 <= |cs| <= 255 && |segs| == |cs| && forall i :: 0 <= i < |cs| ==> segs[i] == [i, |cs|] + cs[i]
    ensures Message(segs) && Payloads(segs) == cs
  {
    assert forall i :: 0 <= i < |cs| ==> |segs[i]| >= 2 && segs[i][2..] == cs[i];
    PayloadsAre(segs, cs);
  }

  /** The segments of a frame whose numbers fit a byte: either the single one, or a message with the frame's chunks. */
  lemma SegmentsCarry(frame: bytes, n: nat, segs: seq<bytes>)
    requires n > 0 && frame != [] && |frame| <= 255 * n && segs == SegmentWithPayload(frame, n)
    ensures segs == [[0, 1] + frame] || (Message(segs) && Concat(Payloads(segs)) == frame)
  {
    if |frame| > n {
      ChunksBound(frame, n, 255);
      ChunksBound(frame, n, 1);
      SegmentsAreFaithful(frame, n);
      ChunksJoin(frame, n);
      NumberedChunks(Chunks(frame, n), segs);
    }
  }

  /** Every packet, cut for any write limit of at least 6 bytes, makes at most 255 segments within that limit, which carry
      its frame between them. */
  lemma SegmentsCarryTheFrame(p: Packet, limit: nat)
    requires limit >= 6
    ensures var segs := Segments(p, limit); var frame := HdlcFraming.Encode(Render(p));
            && (segs == [[0, 1] + frame] || (Message(segs) && Concat(Payloads(segs)) == frame))
            && (forall f :: f in segs ==> |f| <= limit)
  {
    var raw, n := Render(p), SegPayload(limit);
    var frame := HdlcFraming.Encode(raw);
    assert 0 < |frame| <= 2 * |raw| + 2 <= 1000 <= 255 * n;
    SegmentsFit(frame, n);
    SegmentsCarry(frame, n, Segments(p, limit));
  }

  /** The packets that a completed blob sends to the transport, and the deframer afterwards. */
  function Deframed(s: HdlcFraming.Deframing, blob: bytes): (HdlcFraming.Deframing, seq<Packet>)
  {
    var (next, raws) := Feeding.Feed(HdlcFraming.Step, s, blob);
    (next, Collect(Parse, raws))
  }

  /** A well-formed packet, serialised, framed, segmented for a limit of at least 6, with its segments arriving in any order
      among any other traffic and duplicated before completion, makes its frame whole exactly when the last missing segment
      arrives. */
  lemma PacketReassembled(p: Packet, limit: nat, m: Assemblies, evs: seq<Arrival>, last: Arrival)
    requires limit >= 6
    requires OnlyThisMessage(evs, last.peer, Segments(p, limit)) && last.data in Segments(p, limit)
    requires Tidy(m) && !HasLeftover(m, last.peer, |Segments(p, limit)|)
    requires !AllHeard(Segments(p, limit), Heard(evs, last.peer))
    ensures Receive(RunArrivals(m, evs), last.peer, last.data).1
         == if AllHeard(Segments(p, limit), Heard(evs, last.peer) + {last.data}) then Some(HdlcFraming.Encode(Render(p)))
            else None
  {
    var segs, frame := Segments(p, limit), HdlcFraming.Encode(Render(p));
    SegmentsCarryTheFrame(p, limit);
    if Message(segs) {
      ReassembledExactly(m, evs, last, segs);
    } else {
      assert last.data == [0, 1] + frame;
      assert last.data[2..] == frame;
    }
  }

  /** Deframing and parsing the frame gives the packet with all its fields, after at most one stale frame, from every state
      of the deframer. */
  lemma FrameYieldsPacket(s: HdlcFraming.Deframing, p: Packet)
    requires WellFormed(p)
    ensures Deframed(s, HdlcFraming.Encode(Render(p)))
            == (HdlcFraming.Deframing([], true, false), Collect(Parse, HdlcFraming.Stale(s)) + [p])
  {
    var raw := Render(p);
    HdlcFraming.OneFrame(s, raw);
    var one := [raw];
    assert raw != [] && one[1..] == [];
    assert Feeding.NonEmpty(one) == [raw] + Feeding.NonEmpty([]) == [raw];
    PacketRoundTripIff(p);
    CollectAppend(Parse, HdlcFraming.Stale(s), [raw]);
    CollectOne(Parse, raw);
  }

  /** The shared deframer along a run. */
  function RunDeframer(m: Assemblies, s: HdlcFraming.Deframing, evs: seq<Arrival>): HdlcFraming.Deframing
  {
    if evs == [] then s
    else
      var init, last := evs[..|evs| - 1], evs[|evs| - 1];
      match Receive(RunArrivals(m, init), last.peer, last.data).1
      case None => RunDeframer(m, s, init)
      case Some(blob) => Deframed(RunDeframer(m, s, init), blob).0
  }

  /** Whatever any peer completes in the run is a whole HDLC frame. */
  ghost predicate BlobsAreFrames(m: Assemblies, evs: seq<Arrival>)
  {
    evs == []
    || (var init, last := evs[..|evs| - 1], evs[|evs| - 1];
        && BlobsAreFrames(m, init)
        && match Receive(RunArrivals(m, init), last.peer, last.data).1
           case None => true
           case Some(blob) => exists q :: blob == HdlcFraming.Encode(q))
  }

  lemma {:induction false} DeframerStaysQuiet(m: Assemblies, s: HdlcFraming.Deframing, evs: seq<Arrival>)
    requires HdlcFraming.Stale(s) == [] && BlobsAreFrames(m, evs)
    ensures HdlcFraming.Stale(RunDeframer(m, s, evs)) == []
    decreases |evs|
  {
    if evs != [] {
      var init, last := evs[..|evs| - 1], evs[|evs| - 1];
      DeframerStaysQuiet(m, s, init);
      match Receive(RunArrivals(m, init), last.peer, last.data).1 {
        case None =>
        case Some(blob) =>
          var q :| blob == HdlcFraming.Encode(q);
          HdlcFraming.OneFrame(RunDeframer(m, s, init), q);
      }
    }
  }

  /** Among peers that send whole frames, the packet comes back exactly once: its last missing segment yields precisely this
      packet, and its earlier segments yield no blob at all (`PacketReassembled`). */
  lemma PacketCrossesBle(p: Packet, limit: nat, m: Assemblies, s: HdlcFraming.Deframing, evs: seq<Arrival>, last: Arrival)
    requires WellFormed(p) && limit >= 6
    requires OnlyThisMessage(evs, last.peer, Segments(p, limit)) && last.data in Segments(p, limit)
    requires Tidy(m) && !HasLeftover(m, last.peer, |Segments(p, limit)|)
    requires !AllHeard(Segments(p, limit), Heard(evs, last.peer))
    requires AllHeard(Segments(p, limit), Heard(evs, last.peer) + {last.data})
    requires HdlcFraming.Stale(s) == [] && BlobsAreFrames(m, evs)
    ensures var blob := Receive(RunArrivals(m, evs), last.peer, last.data).1;
            blob.Some? && Deframed(RunDeframer(m, s, evs), blob.value).1 == [p]
  {
    PacketReassembled(p, limit, m, evs, last);
    DeframerStaysQuiet(m, s, evs);
    FrameYieldsPacket(RunDeframer(m, s, evs), p);
  }
}
