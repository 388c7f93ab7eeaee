/** The serial interface (iface/hdlc.rs, iface/serial.rs): frames are located in a growing buffer, decoded and drained. */
module SerialLink {
  import opened Bytes
  import opened Buffers
  import opened Packets
  import HdlcFraming

  const FLAG := HdlcFraming.FLAG
  const ESC := HdlcFraming.ESC

  // ----- encoding into a fixed buffer -------------------------------------------------------------------

  /** `Hdlc::encode`: the frame is written in full exactly when it fits. */
  method Encode(data: bytes, out: OutputBuffer) returns (r: Option<nat>)
    requires out.Valid()
    modifies out, out.buffer
    ensures out.Valid()
    ensures r.Some? <==> old(out.offset) + |HdlcFraming.Encode(data)| <= out.buffer.Length
    ensures r.Some? ==> r.value == out.offset && out.Contents() == old(out.Contents()) + HdlcFraming.Encode(data)
  {
    ghost var before := out.Contents();
    var w := out.Write([FLAG]);
    if w.None? { return None; }
    var ok := EncodeBody(data, out);
    if !ok { return None; }
    w := out.Write([FLAG]);
    if w.None? { return None; }
    assert before + [FLAG] + HdlcFraming.Stuff(data) + [FLAG] == before + HdlcFraming.Encode(data);
    return Some(out.offset);
  }

  /** The loop of `Hdlc::encode`. */
  method EncodeBody(data: bytes, out: OutputBuffer) returns (ok: bool)
    requires out.Valid()
    modifies out, out.buffer
    ensures out.Valid()
    ensures ok <==> old(out.offset) + |HdlcFraming.Stuff(data)| <= out.buffer.Length
    ensures ok ==> out.Contents() == old(out.Contents()) + HdlcFraming.Stuff(data)
  {
    ghost var before := out.Contents();
    assert before + [] == before;
    for i := 0 to |data|
      invariant out.Valid() && out.Contents() == before + HdlcFraming.Stuff(data[..i])
    {
      HdlcFraming.StuffPrefix(data, i);
      ghost var stuffed := HdlcFraming.Stuff(data[..i]);
      var w := out.Write(HdlcFraming.StuffByte(data[i]));
      if w.None? { return false; }
      assert (before + stuffed) + HdlcFraming.StuffByte(data[i]) == before + (stuffed + HdlcFraming.StuffByte(data[i]));
    }
    assert data[..|data|] == data;
    return true;
  }

  /** `serial_wire_buffer_capacity`, short of saturation at the machine word. */
  function WireCapacity(mtu: nat): nat { mtu * 2 + 16 }

  /** The transmit buffer is never too small for a payload within the MTU, however many bytes need escaping. */
  lemma WireCapacitySuffices(mtu: nat, data: bytes)
    requires |data| <= mtu
    ensures |HdlcFraming.Encode(data)| <= WireCapacity(mtu)
  {
  }

  // ----- locating frames --------------------------------------------------------------------------------

  /** Index of the first flag, or the length. */
  function FlagIndex(data: bytes): (i: nat)
    ensures i <= |data|
  {
    if data == [] || data[0] == FLAG then 0 else 1 + FlagIndex(data[1..])
  }

  lemma {:induction false} FlagIndexFinds(data: bytes)
    ensures var i := FlagIndex(data); FLAG !in data[..i] && (i < |data| ==> data[i] == FLAG)
    decreases |data|
  {
    if data != [] && data[0] != FLAG {
      FlagIndexFinds(data[1..]);
      var i := FlagIndex(data);
      assert data[..i] == [data[0]] + data[1..][..i - 1];
    }
  }

  lemma {:induction false} FlagIndexIs(pre: bytes, post: bytes)
    requires FLAG !in pre && (post != [] ==> post[0] == FLAG)
    ensures FlagIndex(pre + post) == |pre|
    decreases |pre|
  {
    if pre == [] {
      assert pre + post == post;
    } else {
      assert (pre + post)[1..] == pre[1..] + post;
      FlagIndexIs(pre[1..], post);
    }
  }

  /** The first two flags. */
  function Find(data: bytes): Option<(nat, nat)>
  {
    var s := FlagIndex(data);
    if s == |data| then None
    else
      var e := s + 1 + FlagIndex(data[s + 1..]);
      if e == |data| then None else Some((s, e))
  }

  lemma FindIs(pre: bytes, mid: bytes, post: bytes)
    requires FLAG !in pre && FLAG !in mid
    ensures Find(pre + ([FLAG] + mid + [FLAG] + post)) == Some((|pre|, |pre| + 1 + |mid|))
  {
    var tail := [FLAG] + mid + [FLAG] + post;
    FlagIndexIs(pre, tail);
    assert (pre + tail)[|pre| + 1..] == mid + ([FLAG] + post);
    FlagIndexIs(mid, [FLAG] + post);
  }

  lemma FindNothing(pre: bytes, mid: bytes)
    requires FLAG !in pre && FLAG !in mid
    ensures Find(pre) == None && Find(pre + ([FLAG] + mid)) == None
  {
    FlagIndexIs(pre, []);
    assert pre + [] == pre && mid + [] == mid;
    FlagIndexIs(pre, [FLAG] + mid);
    assert (pre + ([FLAG] + mid))[|pre| + 1..] == mid;
    FlagIndexIs(mid, []);
  }

  /** `Hdlc::find` */
  method FindFrame(data: bytes) returns (r: Option<(nat, nat)>)
    ensures r == Find(data)
  {
    var start := false;
    var startIndex := 0;
    for i := 0 to |data|
      invariant startIndex <= i
      invariant !start ==> FLAG !in data[..i]
      invariant start ==> startIndex < i && data[startIndex] == FLAG
                          && FLAG !in data[..startIndex] && FLAG !in data[startIndex + 1..i]
    {
      if data[i] != FLAG {
        continue;
      }
      if !start {
        startIndex, start := i, true;
      } else {
        FindIs(data[..startIndex], data[startIndex + 1..i], data[i + 1..]);
        assert data == data[..startIndex] + ([FLAG] + data[startIndex + 1..i] + [FLAG] + data[i + 1..]);
        return Some((startIndex, i));
      }
    }
    if start {
      FindNothing(data[..startIndex], data[startIndex + 1..]);
      assert data == data[..startIndex] + ([FLAG] + data[startIndex + 1..]);
    } else {
      FindNothing(data, []);
    }
    return None;
  }

  // ----- decoding one frame -----------------------------------------------------------------------------

  function Prepend(a: bytes, o: Option<bytes>): Option<bytes>
  {
    if o.None? then None else Some(a + o.value)
  }

  /** What the loop of `decode` writes from here on; None if it ends without the closing flag. */
  function Unstuff(data: bytes, started: bool, escape: bool): Option<bytes>
  {
    if data == [] then None
    else if escape then Prepend([Flip20(data[0])], Unstuff(data[1..], started, false))
    else if data[0] == FLAG then if started then Some([]) else Unstuff(data[1..], true, false)
    else if data[0] == ESC then Unstuff(data[1..], started, true)
    else Prepend([data[0]], Unstuff(data[1..], started, false))
  }

  /** `Hdlc::decode` */
  method Decode(data: bytes, out: OutputBuffer) returns (r: Option<nat>)
    requires out.Valid() && out.offset == 0
    modifies out, out.buffer
    ensures out.Valid()
    ensures var u := Unstuff(data, false, false);
            && (r.Some? <==> u.Some? && |u.value| <= out.buffer.Length)
            && (r.Some? ==> out.Contents() == u.value && r.value == |u.value|)
  {
    var started, finished, escape := false, false, false;
    var i := 0;
    assert data[0..] == data && out.Contents() == [];
    assert forall o: Option<bytes> {:trigger Prepend([], o)} :: o.Some? ==> [] + o.value == o.value;
    while i < |data| && !finished
      invariant out.Valid() && i <= |data|
      invariant !finished ==> Unstuff(data, false, false) == Prepend(out.Contents(), Unstuff(data[i..], started, escape))
      invariant finished ==> Unstuff(data, false, false) == Some(out.Contents())
      decreases |data| - i, !finished
    {
      var b := data[i];
      assert data[i..][0] == b && data[i..][1..] == data[i + 1..];
      ghost var before := out.Contents();
      if escape {
        PrependTwice(before, [Flip20(b)], Unstuff(data[i + 1..], started, false));
        escape := false;
        var w := out.Write([Flip20(b)]);
        if w.None? { return None; }
      } else if b == FLAG {
        if started {
          assert before + [] == before;
          finished := true;
        }
        started := true;
      } else if b == ESC {
        escape := true;
      } else {
        PrependTwice(before, [b], Unstuff(data[i + 1..], started, false));
        var w := out.Write([b]);
        if w.None? { return None; }
      }
      i := i + 1;
    }
    if !finished {
      assert data[i..] == [];
      return None;
    }
    return Some(out.offset);
  }

  lemma PrependTwice(a: bytes, b: bytes, o: Option<bytes>)
    ensures Prepend(a, Prepend(b, o)) == Prepend(a + b, o)
  {
    if o.Some? {
      assert a + (b + o.value) == (a + b) + o.value;
    }
  }

  lemma UnstuffByte(b: byte, rest: bytes)
    ensures Unstuff(HdlcFraming.StuffByte(b) + rest, true, false) == Prepend([b], Unstuff(rest, true, false))
  {
    var whole := HdlcFraming.StuffByte(b) + rest;
    if b == FLAG || b == ESC {
      Flip20Involutive(b);
      assert whole[1..] == [Flip20(b)] + rest && whole[1..][1..] == rest;
    } else {
      assert whole[1..] == rest;
    }
  }

  lemma {:induction false} UnstuffStuff(p: bytes)
    ensures Unstuff(HdlcFraming.Stuff(p) + [FLAG], true, false) == Some(p)
    decreases |p|
  {
    if p != [] {
      UnstuffStuff(p[1..]);
      var rest := HdlcFraming.Stuff(p[1..]) + [FLAG];
      assert HdlcFraming.Stuff(p) + [FLAG] == HdlcFraming.StuffByte(p[0]) + rest;
      UnstuffByte(p[0], rest);
      assert [p[0]] + p[1..] == p;
    }
  }

  /** What the receive loop gets out of one located frame. */
  function DecodeFrame(mtu: nat, frame: bytes): seq<bytes>
  {
    match Unstuff(frame, false, false)
    case Some(x) => if |x| <= mtu then [x] else []
    case None => []
  }

  lemma DecodeEncoded(mtu: nat, p: bytes)
    requires |p| <= mtu
    ensures DecodeFrame(mtu, HdlcFraming.Encode(p)) == [p]
  {
    UnstuffStuff(p);
    assert HdlcFraming.Encode(p) == [FLAG] + (HdlcFraming.Stuff(p) + [FLAG]);
    assert HdlcFraming.Encode(p)[1..] == HdlcFraming.Stuff(p) + [FLAG];
  }

  // ----- the receive loop -------------------------------------------------------------------------------

  /** The inner `while let`: what stays in the buffer, and the payloads that came out. */
  function Drain(mtu: nat, buffer: bytes): (bytes, seq<bytes>)
    decreases |buffer|
  {
    match Find(buffer)
    case None => (buffer, [])
    case Some((s, e)) =>
      var (rest, later) := Drain(mtu, buffer[e + 1..]);
      (rest, DecodeFrame(mtu, buffer[s..e + 1]) + later)
  }

  /** One read: extend, drain, and throw away a buffer that has grown beyond 64 MTUs. */
  function OnChunk(mtu: nat, buffer: bytes, chunk: bytes): (bytes, seq<bytes>)
  {
    var (rest, payloads) := Drain(mtu, buffer + chunk);
    (if |rest| > mtu * 64 then [] else rest, payloads)
  }

  /** The packets among decoded payloads. */
  function Parsed(payloads: seq<bytes>): seq<Packet>
  {
    Collect(Parse, payloads)
  }

  /** Draining `whole` comes to `payloads` followed by draining `buffer`. */
  ghost predicate DrainsBehind(mtu: nat, whole: bytes, buffer: bytes, payloads: seq<bytes>)
  {
    Drain(mtu, whole) == (Drain(mtu, buffer).0, payloads + Drain(mtu, buffer).1)
  }

  lemma DrainedBehind(mtu: nat, whole: bytes, buffer: bytes, payloads: seq<bytes>)
    requires whole == buffer && payloads == []
    ensures DrainsBehind(mtu, whole, buffer, payloads)
  {
    assert payloads + Drain(mtu, buffer).1 == Drain(mtu, buffer).1;
  }

  lemma DrainsOn(mtu: nat, whole: bytes, buffer: bytes, payloads: seq<bytes>, s: nat, e: nat)
    requires DrainsBehind(mtu, whole, buffer, payloads) && Find(buffer) == Some((s, e))
    ensures DrainsBehind(mtu, whole, buffer[e + 1..], payloads + DecodeFrame(mtu, buffer[s..e + 1]))
  {
    DrainStep(mtu, buffer, s, e, buffer[e + 1..], buffer[s..e + 1]);
    FramesAssociate(payloads, DecodeFrame(mtu, buffer[s..e + 1]), Drain(mtu, buffer[e + 1..]).1);
  }

  class SerialReceiver {
    const mtu: nat
    const hdlcRxBuffer: array<byte>
    var frameBuffer: bytes

    ghost predicate Valid()
      reads this
    {
      hdlcRxBuffer.Length == mtu
    }

    constructor (n: nat)
      ensures Valid() && mtu == n && frameBuffer == [] && fresh(hdlcRxBuffer)
    {
      mtu := n;
      hdlcRxBuffer := new byte[n](_ => 0);
      frameBuffer := [];
    }

    /** The branch for a successful read; the packets are those sent to the transport. */
    method OnRead(chunk: bytes) returns (packets: seq<Packet>, ghost payloads: seq<bytes>)
      requires Valid()
      modifies this, hdlcRxBuffer
      ensures Valid()
      ensures (frameBuffer, payloads) == OnChunk(mtu, old(frameBuffer), chunk)
      ensures packets == Parsed(payloads)
    {
      frameBuffer := frameBuffer + chunk;
      packets, payloads := DrainFrames();
      if |frameBuffer| > mtu * 64 {
        frameBuffer := [];
      }
    }

    /** The inner loop. */
    method DrainFrames() returns (packets: seq<Packet>, ghost payloads: seq<bytes>)
      requires Valid()
      modifies this, hdlcRxBuffer
      ensures Valid()
      ensures (frameBuffer, payloads) == Drain(mtu, old(frameBuffer))
      ensures packets == Parsed(payloads)
    {
      ghost var whole := frameBuffer;
      packets, payloads := [], [];
      DrainedBehind(mtu, whole, whole, []);
      var at := FindFrame(frameBuffer);
      while at.Some?
        invariant Valid() && at == Find(frameBuffer) && packets == Parsed(payloads)
        invariant DrainsBehind(mtu, whole, frameBuffer, payloads)
        decreases |frameBuffer|
      {
        var (s, e) := at.value;
        ghost var before := frameBuffer;
        var some, got := HandleFrame(frameBuffer[s..e + 1]);
        DrainsOn(mtu, whole, frameBuffer, payloads, s, e);
        CollectAppend(Parse, payloads, got);
        packets, payloads := packets + some, payloads + got;
        frameBuffer := frameBuffer[e + 1..];
        at := FindFrame(frameBuffer);
      }
      assert payloads + [] == payloads;
    }

    /** Decode one located frame and parse what comes out. */
    method HandleFrame(frame: bytes) returns (packets: seq<Packet>, ghost payloads: seq<bytes>)
      requires Valid()
      modifies hdlcRxBuffer
      ensures payloads == DecodeFrame(mtu, frame) && packets == Parsed(payloads)
    {
      packets, payloads := [], [];
      var got := DecodeInto(frame);
      if got.Some? {
        var input := new InputBuffer(got.value);
        var packet := Deserialize(input);
        if packet.Some? {
          packets := [packet.value];
        }
        payloads := [got.value];
        CollectOne(Parse, got.value);
      }
    }

    /** Decoding a frame into the MTU-sized scratch buffer. */
    method DecodeInto(frame: bytes) returns (r: Option<bytes>)
      requires Valid()
      modifies hdlcRxBuffer
      ensures (if r.Some? then [r.value] else []) == DecodeFrame(mtu, frame)
    {
      var output := new OutputBuffer(hdlcRxBuffer);
      var n := Decode(frame, output);
      if n.None? {
        return None;
      }
      var s := output.AsSlice();
      return Some(s);
    }
  }

  /** A run of reads. */
  function OnChunks(mtu: nat, buffer: bytes, chunks: seq<bytes>): (bytes, seq<bytes>)
    decreases |chunks|
  {
    if chunks == [] then (buffer, [])
    else
      var n := |chunks| - 1;
      var (mid, first) := OnChunks(mtu, buffer, chunks[..n]);
      var (end, later) := OnChunk(mtu, mid, chunks[n]);
      (end, first + later)
  }

  // ----- in phase: everything arrives -------------------------------------------------------------------

  lemma DrainStep(mtu: nat, b: bytes, s: nat, e: nat, rest: bytes, frame: bytes)
    requires Find(b) == Some((s, e)) && rest == b[e + 1..] && frame == b[s..e + 1]
    ensures Drain(mtu, b) == (Drain(mtu, rest).0, DecodeFrame(mtu, frame) + Drain(mtu, rest).1)
  {
  }

  /** The slices of a buffer whose first frame is known. */
  lemma FrameSlices(b: bytes, pre: bytes, mid: bytes, post: bytes)
    requires FLAG !in pre && FLAG !in mid && b == pre + ([FLAG] + mid + [FLAG] + post)
    ensures Find(b) == Some((|pre|, |pre| + 1 + |mid|))
    ensures b[|pre|..|pre| + 1 + |mid| + 1] == [FLAG] + mid + [FLAG] && b[|pre| + 1 + |mid| + 1..] == post
  {
    FindIs(pre, mid, post);
  }

  lemma DrainFrame(mtu: nat, b: bytes, pre: bytes, mid: bytes, post: bytes)
    requires FLAG !in pre && FLAG !in mid && b == pre + ([FLAG] + mid + [FLAG] + post)
    ensures Drain(mtu, b) == (Drain(mtu, post).0, DecodeFrame(mtu, [FLAG] + mid + [FLAG]) + Drain(mtu, post).1)
  {
    FrameSlices(b, pre, mid, post);
    DrainStep(mtu, b, |pre|, |pre| + 1 + |mid|, post, [FLAG] + mid + [FLAG]);
  }

  lemma FindExtends(a: bytes, b: bytes, s: nat, e: nat)
    requires Find(a) == Some((s, e))
    ensures Find(a + b) == Find(a)
  {
    var pre, mid, post := a[..s], a[s + 1..e], a[e + 1..];
    FlagIndexFinds(a);
    FlagIndexFinds(a[s + 1..]);
    assert a[s + 1..][..e - s - 1] == mid;
    Extended(a, b, pre, mid, post);
    FindIs(pre, mid, post + b);
  }

  lemma Extended(a: bytes, b: bytes, pre: bytes, mid: bytes, post: bytes)
    requires |a| >= |pre| + |mid| + 2 && pre == a[..|pre|] && a[|pre|] == FLAG && mid == a[|pre| + 1..|pre| + 1 + |mid|]
    requires a[|pre| + 1 + |mid|] == FLAG && post == a[|pre| + |mid| + 2..]
    ensures a + b == pre + ([FLAG] + mid + [FLAG] + (post + b))
  {
    assert a == pre + ([FLAG] + mid + [FLAG] + post);
  }

  /** What is drained early would have been drained later: reads may be merged. */
  lemma {:induction false} DrainMerges(mtu: nat, a: bytes, b: bytes)
    ensures var (rest, first) := Drain(mtu, a);
            var (end, later) := Drain(mtu, rest + b);
            Drain(mtu, a + b) == (end, first + later)
    decreases |a|
  {
    match Find(a) {
      case None =>
        assert [] + Drain(mtu, a + b).1 == Drain(mtu, a + b).1;
      case Some((s, e)) =>
        var post, frame := a[e + 1..], a[s..e + 1];
        FindExtends(a, b, s, e);
        assert (a + b)[s..e + 1] == frame && (a + b)[e + 1..] == post + b;
        DrainStep(mtu, a, s, e, post, frame);
        DrainStep(mtu, a + b, s, e, post + b, frame);
        DrainMerges(mtu, post, b);
        FramesAssociate(DecodeFrame(mtu, frame), Drain(mtu, post).1, Drain(mtu, Drain(mtu, post).0 + b).1);
    }
  }

  lemma FramesAssociate(a: seq<bytes>, b: seq<bytes>, c: seq<bytes>)
    ensures (a + b) + c == a + (b + c)
  {
  }

  /** The first frame of a wire, behind bytes without a flag. */
  lemma DrainOne(mtu: nat, b: bytes, pre: bytes, p: bytes, rest: bytes)
    requires FLAG !in pre && b == pre + (HdlcFraming.Encode(p) + rest)
    ensures Drain(mtu, b).0 == Drain(mtu, rest).0
    ensures |p| <= mtu ==> Drain(mtu, b).1 == [p] + Drain(mtu, rest).1
  {
    HdlcFraming.StuffHasNoFlag(p);
    DrainFrame(mtu, b, pre, HdlcFraming.Stuff(p), rest);
    if |p| <= mtu {
      DecodeEncoded(mtu, p);
    }
  }

  /** Less than one frame has arrived: all of it stays. */
  lemma PartOfFrameStays(mtu: nat, pre: bytes, p: bytes, part: bytes)
    requires FLAG !in pre && part <= HdlcFraming.Encode(p) && part != HdlcFraming.Encode(p)
    ensures Drain(mtu, pre + part) == (pre + part, [])
  {
    HdlcFraming.StuffHasNoFlag(p);
    if part == [] {
      FindNothing(pre, []);
      assert pre + part == pre;
    } else {
      var mid := part[1..];
      assert part == [FLAG] + mid;
      assert mid == HdlcFraming.Stuff(p)[..|mid|];
      FindNothing(pre, mid);
    }
  }

  lemma PrefixPastOne(one: bytes, wire: bytes, part: bytes)
    requires part <= one + wire && |part| >= |one|
    ensures part == one + part[|one|..] && part[|one|..] <= wire
  {
    assert (one + wire)[..|one|] == one && (one + wire)[|one|..] == wire;
  }

  /** A wire from which payloads within the MTU are being read, any number of whole and possibly one partial frame:
      what stays in the buffer is less than one worst-case frame. */
  lemma {:induction false} PrefixStaysSmall(mtu: nat, ps: seq<bytes>, pre: bytes, part: bytes)
    requires FLAG !in pre && (forall p :: p in ps ==> |p| <= mtu)
    requires part <= HdlcFraming.EncodeAll(ps)
    ensures |Drain(mtu, pre + part).0| <= |pre| + 2 * mtu + 1
    decreases |ps|
  {
    if ps == [] {
      FindNothing(pre, []);
      assert pre + part == pre;
    } else if |part| < |HdlcFraming.Encode(ps[0])| {
      PartOfFrameStays(mtu, pre, ps[0], part);
    } else {
      var rest := part[|HdlcFraming.Encode(ps[0])|..];
      PrefixPastOne(HdlcFraming.Encode(ps[0]), HdlcFraming.EncodeAll(ps[1..]), part);
      PrefixStaysSmall(mtu, ps[1..], [], rest);
      assert [] + rest == rest;
      DrainOne(mtu, pre + part, pre, ps[0], rest);
    }
  }

  lemma {:induction false} DrainAll(mtu: nat, pre: bytes, ps: seq<bytes>)
    requires FLAG !in pre && (forall p :: p in ps ==> |p| <= mtu)
    ensures Drain(mtu, pre + HdlcFraming.EncodeAll(ps)) == (if ps == [] then pre else [], ps)
    decreases |ps|
  {
    if ps == [] {
      FindNothing(pre, []);
      assert pre + HdlcFraming.EncodeAll(ps) == pre;
    } else {
      var rest := HdlcFraming.EncodeAll(ps[1..]);
      DrainAll(mtu, [], ps[1..]);
      DrainOne(mtu, pre + HdlcFraming.EncodeAll(ps), pre, ps[0], rest);
      DrainAllStep(mtu, pre + HdlcFraming.EncodeAll(ps), ps, rest);
    }
  }

  lemma DrainAllStep(mtu: nat, b: bytes, ps: seq<bytes>, rest: bytes)
    requires ps != [] && Drain(mtu, [] + rest) == ([], ps[1..])
    requires Drain(mtu, b) == (Drain(mtu, rest).0, [ps[0]] + Drain(mtu, rest).1)
    ensures Drain(mtu, b) == ([], ps)
  {
    assert [] + rest == rest;
    assert [ps[0]] + ps[1..] == ps;
  }

  lemma ConcatLast(chunks: seq<bytes>)
    requires chunks != []
    ensures Concat(chunks) == Concat(chunks[..|chunks| - 1]) + chunks[|chunks| - 1]
  {
    ConcatSnoc(chunks[..|chunks| - 1], chunks[|chunks| - 1]);
    assert chunks == chunks[..|chunks| - 1] + [chunks[|chunks| - 1]];
  }

  /** However much of the wire has arrived, draining it leaves no more than the loop keeps. */
  ghost predicate NeverFull(mtu: nat, buffer: bytes, wire: bytes)
  {
    forall part :: part <= wire ==> |Drain(mtu, buffer + part).0| <= mtu * 64
  }

  /** One more read, when what it leaves in the buffer is small. */
  lemma OneMoreRead(mtu: nat, buffer: bytes, soFar: bytes, first: seq<bytes>, chunk: bytes)
    requires Drain(mtu, soFar) == (buffer, first) && |Drain(mtu, soFar + chunk).0| <= mtu * 64
    ensures var (end, later) := OnChunk(mtu, buffer, chunk); Drain(mtu, soFar + chunk) == (end, first + later)
  {
    DrainMerges(mtu, soFar, chunk);
  }

  lemma ReadsOn(mtu: nat, pre: bytes, chunks: seq<bytes>, before: bytes, whole: bytes)
    requires chunks != [] && whole == before + chunks[|chunks| - 1] && |Drain(mtu, whole).0| <= mtu * 64
    requires OnChunks(mtu, pre, chunks[..|chunks| - 1]) == Drain(mtu, before)
    ensures OnChunks(mtu, pre, chunks) == Drain(mtu, whole)
  {
    var (mid, first) := Drain(mtu, before);
    OneMoreRead(mtu, mid, before, first, chunks[|chunks| - 1]);
  }

  /** As long as the buffer never gets full, every cut of the bytes into reads gives what one big read would. */
  lemma {:induction false} ReadsMerge(mtu: nat, buffer: bytes, wire: bytes, chunks: seq<bytes>)
    requires Find(buffer) == None && NeverFull(mtu, buffer, wire) && Concat(chunks) <= wire
    ensures OnChunks(mtu, buffer, chunks) == Drain(mtu, buffer + Concat(chunks))
    decreases |chunks|
  {
    if chunks == [] {
      assert buffer + Concat(chunks) == buffer;
    } else {
      var k := |chunks| - 1;
      var before, chunk := Concat(chunks[..k]), chunks[k];
      ConcatLast(chunks);
      assert (buffer + before) + chunk == buffer + Concat(chunks);
      assert before <= wire;
      ReadsMerge(mtu, buffer, wire, chunks[..k]);
      ReadsOn(mtu, buffer, chunks, buffer + before, buffer + Concat(chunks));
    }
  }

  /** Frames within the MTU behind bytes without a flag: the most that has to be kept is those bytes and the first frame up
      to its last byte. */
  lemma KeepsFirstFrame(mtu: nat, ps: seq<bytes>, pre: bytes)
    requires FLAG !in pre && (forall p :: p in ps ==> |p| <= mtu)
    requires ps != [] && mtu > 0 && |pre| + |HdlcFraming.Encode(ps[0])| <= mtu * 64 + 1
    ensures NeverFull(mtu, pre, HdlcFraming.EncodeAll(ps))
  {
    var one, wire := HdlcFraming.Encode(ps[0]), HdlcFraming.EncodeAll(ps[1..]);
    forall part | part <= HdlcFraming.EncodeAll(ps)
      ensures |Drain(mtu, pre + part).0| <= mtu * 64
    {
      if |part| < |one| {
        PartOfFrameStays(mtu, pre, ps[0], part);
      } else {
        PrefixPastOne(one, wire, part);
        DrainOne(mtu, pre + part, pre, ps[0], part[|one|..]);
        PrefixStaysSmall(mtu, ps[1..], [], part[|one|..]);
        assert [] + part[|one|..] == part[|one|..];
      }
    }
  }

  /** Whatever the reads, the loop gets out of the wire what one big read would, since the discard never fires. */
  ghost predicate CutsDoNotMatter(mtu: nat, pre: bytes, ps: seq<bytes>)
  {
    forall chunks ::
      Concat(chunks) <= HdlcFraming.EncodeAll(ps) ==> OnChunks(mtu, pre, chunks) == Drain(mtu, pre + Concat(chunks))
  }

  /** Behind noise without flags, on a wire of frames within the MTU, the discard never fires if and only if the noise and
      the first frame, short of its last byte, are no longer than the buffer may get. */
  lemma DiscardNeverFiresIff(mtu: nat, pre: bytes, ps: seq<bytes>)
    requires mtu > 0 && FLAG !in pre && ps != [] && (forall p :: p in ps ==> |p| <= mtu)
    ensures CutsDoNotMatter(mtu, pre, ps) <==> |pre| + |HdlcFraming.Encode(ps[0])| <= mtu * 64 + 1
  {
    var one := HdlcFraming.Encode(ps[0]);
    if |pre| + |one| <= mtu * 64 + 1 {
      KeepsFirstFrame(mtu, ps, pre);
      FindNothing(pre, []);
      forall chunks | Concat(chunks) <= HdlcFraming.EncodeAll(ps)
        ensures OnChunks(mtu, pre, chunks) == Drain(mtu, pre + Concat(chunks))
      {
        ReadsMerge(mtu, pre, HdlcFraming.EncodeAll(ps), chunks);
      }
    } else {
      var part := one[..|one| - 1];
      PartOfFrameStays(mtu, pre, ps[0], part);
      OneRead(mtu, pre, part);
      assert part <= HdlcFraming.EncodeAll(ps);
      assert OnChunks(mtu, pre, [part]) == ([], []);
    }
  }

  lemma OneRead(mtu: nat, buffer: bytes, chunk: bytes)
    ensures OnChunks(mtu, buffer, [chunk]) == OnChunk(mtu, buffer, chunk) && Concat([chunk]) == chunk
  {
    var one := [chunk];
    assert one[..0] == [] && one[1..] == [];
    assert [] + OnChunk(mtu, buffer, chunk).1 == OnChunk(mtu, buffer, chunk).1;
    assert chunk + [] == chunk;
  }

  /** In phase, the receive loop returns exactly the payloads sent, in order and once each, for every cut into reads. */
  lemma InPhaseDelivers(mtu: nat, pre: bytes, ps: seq<bytes>, chunks: seq<bytes>)
    requires mtu > 0 && FLAG !in pre && ps != [] && (forall p :: p in ps ==> |p| <= mtu)
    requires |pre| + |HdlcFraming.Encode(ps[0])| <= mtu * 64 + 1 && Concat(chunks) == HdlcFraming.EncodeAll(ps)
    ensures OnChunks(mtu, pre, chunks) == ([], ps)
  {
    KeepsFirstFrame(mtu, ps, pre);
    FindNothing(pre, []);
    ReadsMerge(mtu, pre, HdlcFraming.EncodeAll(ps), chunks);
    DrainAll(mtu, pre, ps);
  }

  // ----- out of phase: one stray flag is enough ---------------------------------------------------------

  /** What the rest of the wire yields when the buffer starts with one flag too many: the leftover is decoded as one
      frame, and from then on the closing flag of each payload pairs with the opening flag of the next. */
  function OutOfPhase(mtu: nat, stale: bytes, ps: seq<bytes>): seq<bytes>
    decreases |ps|
  {
    if ps == [] then [] else DecodeFrame(mtu, [FLAG] + stale + [FLAG]) + OutOfPhase(mtu, [], ps[1..])
  }

  lemma {:induction false} OutOfPhaseDrains(mtu: nat, b: bytes, noise: bytes, stale: bytes, ps: seq<bytes>)
    requires FLAG !in noise && FLAG !in stale && b == noise + ([FLAG] + stale) + HdlcFraming.EncodeAll(ps)
    ensures Drain(mtu, b).1 == OutOfPhase(mtu, stale, ps)
    decreases |ps|
  {
    if ps == [] {
      FindNothing(noise, stale);
      assert b == noise + ([FLAG] + stale);
    } else {
      var stuffed, wire := HdlcFraming.Stuff(ps[0]), HdlcFraming.EncodeAll(ps[1..]);
      HdlcFraming.StuffHasNoFlag(ps[0]);
      var post := stuffed + ([FLAG] + []) + wire;
      OutOfPhaseStep(b, noise, stale, stuffed, wire);
      DrainFrame(mtu, b, noise, stale, post);
      OutOfPhaseDrains(mtu, post, stuffed, [], ps[1..]);
    }
  }

  lemma OutOfPhaseStep(b: bytes, noise: bytes, stale: bytes, stuffed: bytes, wire: bytes)
    requires b == noise + ([FLAG] + stale) + ([FLAG] + stuffed + [FLAG] + wire)
    ensures b == noise + ([FLAG] + stale + [FLAG] + (stuffed + ([FLAG] + []) + wire))
  {
  }

  lemma EmptyFrame(mtu: nat)
    ensures DecodeFrame(mtu, [FLAG] + [] + [FLAG]) == [[]]
  {
    var frame := [FLAG] + [] + [FLAG];
    assert frame[1..] == [FLAG] && frame[0] == FLAG;
    assert Unstuff([FLAG], true, false) == Some([]);
    assert Unstuff(frame, false, false) == Some([]);
  }

  function Empties(n: nat): (fs: seq<bytes>)
    ensures |fs| == n && forall f :: f in fs ==> f == []
  {
    if n == 0 then [] else [[]] + Empties(n - 1)
  }

  /** After one stray flag the loop yields an empty frame for each payload sent but the first and never any of the payloads:
      the wire is silent for good, since nothing realigns it. */
  lemma {:induction false} OutOfPhaseYields(mtu: nat, stale: bytes, ps: seq<bytes>)
    requires ps != []
    ensures OutOfPhase(mtu, stale, ps) == DecodeFrame(mtu, [FLAG] + stale + [FLAG]) + Empties(|ps| - 1)
    decreases |ps|
  {
    if |ps| == 1 {
      assert OutOfPhase(mtu, [], ps[1..]) == [] == Empties(0);
    } else {
      EmptyFrame(mtu);
      OutOfPhaseYields(mtu, [], ps[1..]);
      assert [[]] + Empties(|ps| - 2) == Empties(|ps| - 1);
    }
  }

  /** What draining leaves has at most one flag. */
  lemma OneFlag(noise: bytes) returns (before: bytes, stale: bytes)
    requires Find(noise) == None && FLAG in noise
    ensures noise == before + ([FLAG] + stale) && FLAG !in before && FLAG !in stale && |before| == FlagIndex(noise)
  {
    var at := FlagIndex(noise);
    FlagIndexFinds(noise);
    assert noise[..|noise|] == noise;
    before, stale := noise[..at], noise[at + 1..];
    FlagIndexFinds(stale);
    assert stale[..|stale|] == stale;
  }

  lemma {:induction false} DrainedHasNoFrame(mtu: nat, b: bytes)
    ensures Find(Drain(mtu, b).0) == None && |Drain(mtu, b).0| <= |b|
    decreases |b|
  {
    var at := Find(b);
    if at.Some? {
      var s, e := at.value.0, at.value.1;
      DrainStep(mtu, b, s, e, b[e + 1..], b[s..e + 1]);
      DrainedHasNoFrame(mtu, b[e + 1..]);
    }
  }

  /** How many flags there are. */
  function Flags(b: bytes): nat
  {
    if b == [] then 0 else (if b[0] == FLAG then 1 else 0) + Flags(b[1..])
  }

  lemma {:induction false} FlagsAppend(a: bytes, b: bytes)
    ensures Flags(a + b) == Flags(a) + Flags(b)
    decreases |a|
  {
    if a == [] {
      assert a + b == b;
    } else {
      assert (a + b)[1..] == a[1..] + b && (a + b)[0] == a[0];
      FlagsAppend(a[1..], b);
    }
  }

  lemma {:induction false} NoFlags(b: bytes)
    ensures Flags(b) == 0 <==> FLAG !in b
    decreases |b|
  {
    if b != [] {
      NoFlags(b[1..]);
      assert b == [b[0]] + b[1..];
    }
  }

  lemma FlagsOfFrame(pre: bytes, mid: bytes, post: bytes)
    requires FLAG !in pre && FLAG !in mid
    ensures Flags(pre + ([FLAG] + mid + [FLAG] + post)) == 2 + Flags(post)
  {
    NoFlags(pre);
    NoFlags(mid);
    FlagsAppend(pre, [FLAG] + mid + [FLAG] + post);
    FlagsAppend([FLAG] + mid + [FLAG], post);
    FlagsAppend([FLAG] + mid, [FLAG]);
    FlagsAppend([FLAG], mid);
    OneFlagOnly();
  }

  lemma OneFlagOnly()
    ensures Flags([FLAG]) == 1
  {
    var f := [FLAG];
    assert f[1..] == [];
  }

  lemma FlagsOfRest(b: bytes)
    requires Find(b) == None
    ensures Flags(b) == if FLAG in b then 1 else 0
  {
    NoFlags(b);
    if FLAG in b {
      var before, stale := OneFlag(b);
      FlagsAppend(before, [FLAG] + stale);
      FlagsAppend([FLAG], stale);
      NoFlags(before);
      NoFlags(stale);
      OneFlagOnly();
    }
  }

  /** The found frame has two flags. */
  lemma FlagsBehindFrame(b: bytes, s: nat, e: nat)
    requires Find(b) == Some((s, e))
    ensures Flags(b) == 2 + Flags(b[e + 1..])
  {
    FlagIndexFinds(b);
    FlagIndexFinds(b[s + 1..]);
    var pre, mid, post := b[..s], b[s + 1..e], b[e + 1..];
    assert b[s + 1..][..e - s - 1] == mid;
    assert b == pre + ([FLAG] + mid + [FLAG] + post);
    FlagsOfFrame(pre, mid, post);
  }

  /** A flag is left over behind the frames. */
  predicate FlagLeft(mtu: nat, b: bytes)
  {
    FLAG in Drain(mtu, b).0
  }

  lemma FlagLeftStep(mtu: nat, b: bytes, s: nat, e: nat)
    requires Find(b) == Some((s, e))
    ensures FlagLeft(mtu, b) <==> FlagLeft(mtu, b[e + 1..])
  {
    DrainStep(mtu, b, s, e, b[e + 1..], b[s..e + 1]);
  }

  lemma FlagLeftInRest(mtu: nat, b: bytes)
    requires Find(b) == None
    ensures FlagLeft(mtu, b) <==> FLAG in b
  {
  }

  /** That is so exactly when the number of flags is odd. */
  lemma {:induction false} FlagLeftIff(mtu: nat, b: bytes)
    ensures FlagLeft(mtu, b) <==> Flags(b) % 2 == 1
    decreases |b|
  {
    var at := Find(b);
    if at == None {
      FlagsOfRest(b);
      FlagLeftInRest(mtu, b);
    } else {
      var s, e := at.value.0, at.value.1;
      var post := b[e + 1..];
      FlagsBehindFrame(b, s, e);
      FlagLeftStep(mtu, b, s, e);
      FlagLeftIff(mtu, post);
    }
  }

  /** Out of phase, too, what has to be kept is less than a worst-case frame, once the wire goes on. */
  lemma {:induction false} OutOfPhaseStaysSmall(mtu: nat, b: bytes, before: bytes, stale: bytes, ps: seq<bytes>, part: bytes)
    requires FLAG !in before && FLAG !in stale && b == before + ([FLAG] + stale) + part
    requires part <= HdlcFraming.EncodeAll(ps) && forall p :: p in ps ==> |p| <= mtu
    ensures |Drain(mtu, b).0| <= if part == [] then |before| + 1 + |stale| else 2 * mtu + 1
    decreases |ps|
  {
    if part == [] {
      FindNothing(before, stale);
      assert b == before + ([FLAG] + stale);
    } else {
      var stuffed, wire := HdlcFraming.Stuff(ps[0]), HdlcFraming.EncodeAll(ps[1..]);
      var rest := StaleFrameGoes(mtu, b, before, stale, ps, part, stuffed, wire);
      if |rest| <= |stuffed| {
        PartOfStuffedStays(mtu, stuffed, wire, rest);
      } else {
        var tail := RestPastStuffed(stuffed, wire, rest);
        OutOfPhaseStaysSmall(mtu, rest, stuffed, [], ps[1..], tail);
      }
    }
  }

  lemma FirstOnWire(ps: seq<bytes>, part: bytes, stuffed: bytes, wire: bytes) returns (rest: bytes)
    requires part <= HdlcFraming.EncodeAll(ps) && part != [] && ps != []
    requires stuffed == HdlcFraming.Stuff(ps[0]) && wire == HdlcFraming.EncodeAll(ps[1..])
    ensures part == [FLAG] + rest && rest <= stuffed + [FLAG] + wire
  {
    assert HdlcFraming.EncodeAll(ps) == [FLAG] + (stuffed + [FLAG] + wire);
    rest := part[1..];
  }

  /** The first flag of the wire completes the stale frame. */
  lemma StaleFrameGoes(mtu: nat, b: bytes, before: bytes, stale: bytes, ps: seq<bytes>, part: bytes, stuffed: bytes,
                       wire: bytes)
    returns (rest: bytes)
    requires FLAG !in before && FLAG !in stale && b == before + ([FLAG] + stale) + part
    requires part <= HdlcFraming.EncodeAll(ps) && part != [] && ps != []
    requires stuffed == HdlcFraming.Stuff(ps[0]) && wire == HdlcFraming.EncodeAll(ps[1..])
    ensures rest <= stuffed + [FLAG] + wire && FLAG !in stuffed && |stuffed| <= 2 * |ps[0]|
    ensures Drain(mtu, b).0 == Drain(mtu, rest).0
  {
    HdlcFraming.StuffHasNoFlag(ps[0]);
    rest := FirstOnWire(ps, part, stuffed, wire);
    assert b == before + ([FLAG] + stale + [FLAG] + rest);
    DrainFrame(mtu, b, before, stale, rest);
  }

  lemma PartOfStuffedStays(mtu: nat, stuffed: bytes, wire: bytes, rest: bytes)
    requires FLAG !in stuffed && rest <= stuffed + [FLAG] + wire && |rest| <= |stuffed|
    ensures Drain(mtu, rest).0 == rest
  {
    assert rest == stuffed[..|rest|];
    FindNothing(rest, []);
  }

  lemma RestPastStuffed(stuffed: bytes, wire: bytes, rest: bytes) returns (tail: bytes)
    requires rest <= stuffed + [FLAG] + wire && |rest| > |stuffed|
    ensures rest == stuffed + ([FLAG] + []) + tail && tail <= wire
  {
    var head := stuffed + [FLAG];
    tail := rest[|head|..];
    assert (head + wire)[..|head|] == head && (head + wire)[|head|..] == wire;
  }

  /** Behind any noise, if that and the first frame together fit what the buffer may hold, the buffer never gets full. */
  lemma NoiseNeverFull(mtu: nat, noise: bytes, ps: seq<bytes>)
    requires mtu > 0 && ps != [] && (forall p :: p in ps ==> |p| <= mtu)
    requires |noise| + |HdlcFraming.Encode(ps[0])| <= mtu * 64 + 1
    ensures NeverFull(mtu, [], noise + HdlcFraming.EncodeAll(ps))
  {
    var wire := HdlcFraming.EncodeAll(ps);
    forall part | part <= noise + wire
      ensures |Drain(mtu, [] + part).0| <= mtu * 64
    {
      assert [] + part == part;
      if |part| <= |noise| {
        DrainedHasNoFrame(mtu, part);
      } else {
        PrefixPastOne(noise, wire, part);
        DrainMerges(mtu, noise, part[|noise|..]);
        BehindNoise(mtu, noise, ps, part[|noise|..]);
      }
    }
  }

  lemma BehindNoise(mtu: nat, noise: bytes, ps: seq<bytes>, part: bytes)
    requires mtu > 0 && ps != [] && (forall p :: p in ps ==> |p| <= mtu)
    requires |noise| + |HdlcFraming.Encode(ps[0])| <= mtu * 64 + 1 && part <= HdlcFraming.EncodeAll(ps)
    ensures |Drain(mtu, Drain(mtu, noise).0 + part).0| <= mtu * 64
  {
    var rest := Drain(mtu, noise).0;
    DrainedHasNoFrame(mtu, noise);
    if FLAG in rest {
      var before, stale := OneFlag(rest);
      OutOfPhaseStaysSmall(mtu, rest + part, before, stale, ps, part);
    } else {
      KeepsFirstFrame(mtu, ps, rest);
    }
  }

  /** The leftover flag, what stands behind it, and the next flag on the wire make a frame. */
  function Leftover(mtu: nat, noise: bytes): bytes
  {
    var rest := Drain(mtu, noise).0;
    rest[FlagIndex(rest)..] + [FLAG]
  }

  /** Behind noise with an even number of flags the loop recovers every payload; behind an odd number it yields at most one
      piece of junk, then an empty frame for each later payload, and never a payload again. Both for every cut into reads. */
  lemma NoiseThenPayloads(mtu: nat, noise: bytes, ps: seq<bytes>, chunks: seq<bytes>)
    requires mtu > 0 && ps != [] && (forall p :: p in ps ==> |p| <= mtu)
    requires |noise| + |HdlcFraming.Encode(ps[0])| <= mtu * 64 + 1
    requires Concat(chunks) == noise + HdlcFraming.EncodeAll(ps)
    ensures OnChunks(mtu, [], chunks).1
            == Drain(mtu, noise).1
               + if Flags(noise) % 2 == 0 then ps else DecodeFrame(mtu, Leftover(mtu, noise)) + Empties(|ps| - 1)
  {
    var wire := HdlcFraming.EncodeAll(ps);
    FindNothing([], []);
    NoiseNeverFull(mtu, noise, ps);
    ReadsMerge(mtu, [], noise + wire, chunks);
    assert [] + Concat(chunks) == noise + wire;
    DrainMerges(mtu, noise, wire);
    FlagLeftIff(mtu, noise);
    DrainedHasNoFrame(mtu, noise);
    var rest := Drain(mtu, noise).0;
    assert FlagLeft(mtu, noise) <==> FLAG in rest;
    if FLAG in rest {
      var before, stale := OneFlag(rest);
      OutOfPhaseDrains(mtu, rest + wire, before, stale, ps);
      OutOfPhaseYields(mtu, stale, ps);
      assert rest[|before|..] + [FLAG] == [FLAG] + stale + [FLAG];
    } else {
      DrainAll(mtu, rest, ps);
    }
  }

  /** For every cut into reads, the loop recovers the payloads behind noise if and only if the noise has an even number of
      flags, provided a payload other than the first shows the difference by not being empty. */
  lemma RecoversIff(mtu: nat, noise: bytes, ps: seq<bytes>, chunks: seq<bytes>, i: nat)
    requires mtu > 0 && 1 <= i < |ps| && ps[i] != [] && (forall p :: p in ps ==> |p| <= mtu)
    requires |noise| + |HdlcFraming.Encode(ps[0])| <= mtu * 64 + 1
    requires Concat(chunks) == noise + HdlcFraming.EncodeAll(ps)
    ensures OnChunks(mtu, [], chunks).1 == Drain(mtu, noise).1 + ps <==> Flags(noise) % 2 == 0
    ensures FLAG !in Drain(mtu, noise).0 <==> Flags(noise) % 2 == 0
  {
    assert FlagLeft(mtu, noise) <==> FLAG in Drain(mtu, noise).0;
    NoiseThenPayloads(mtu, noise, ps, chunks);
    FlagLeftIff(mtu, noise);
    if Flags(noise) % 2 == 1 {
      SilentDiffers(Drain(mtu, noise).1, DecodeFrame(mtu, Leftover(mtu, noise)), Empties(|ps| - 1), ps, i);
    }
  }

  lemma SilentDiffers(before: seq<bytes>, first: seq<bytes>, later: seq<bytes>, ps: seq<bytes>, i: nat)
    requires |first| <= 1 && 1 <= i < |ps| && ps[i] != [] && (forall f :: f in later ==> f == [])
    ensures before + (first + later) != before + ps
  {
    if |first| + |later| == |ps| {
      assert (before + (first + later))[|before| + i] == later[i - |first|] && later[i - |first|] in later;
      assert (before + ps)[|before| + i] == ps[i];
    }
  }

  // ----- packets over the serial link -------------------------------------------------------------------

  /** Well-formed packets no longer than the MTU, serialised, framed and read in pieces of any sizes, all come out of the
      parser as they went in, in order and once each. */
  lemma PacketsCross(mtu: nat, packets: seq<Packet>, payloads: seq<bytes>, chunks: seq<bytes>)
    requires mtu > 0 && |payloads| == |packets|
    requires forall i :: 0 <= i < |packets| ==>
                           WellFormed(packets[i]) && payloads[i] == Render(packets[i]) && |payloads[i]| <= mtu
    requires Concat(chunks) == HdlcFraming.EncodeAll(payloads)
    ensures Parsed(OnChunks(mtu, [], chunks).1) == packets
  {
    forall i | 0 <= i < |packets|
      ensures Parse(payloads[i]) == Some(packets[i])
    {
      PacketRoundTripIff(packets[i]);
    }
    CollectAll(Parse, payloads, packets);
    if payloads == [] {
      FindNothing([], []);
      assert NeverFull(mtu, [], []);
      ReadsMerge(mtu, [], [], chunks);
    } else {
      InPhaseDelivers(mtu, [], payloads, chunks);
    }
  }
}
