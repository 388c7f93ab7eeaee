/** Byte-at-a-time deframers in general: a step function folded over the input, which arrives in chunks. */
module Feeding {
  import opened Bytes

  /** Final state and frames of feeding `data` one byte at a time. */
  function Feed<S, F>(step: (S, byte) -> (S, seq<F>), s: S, data: bytes): (S, seq<F>)
    decreases |data|
  {
    if data == [] then (s, [])
    else
      var (mid, first) := step(s, data[0]);
      var (end, later) := Feed(step, mid, data[1..]);
      (end, first + later)
  }

  /** The same, chunk by chunk, with the frames of all chunks in order. */
  function FeedChunks<S, F>(step: (S, byte) -> (S, seq<F>), s: S, chunks: seq<bytes>): (S, seq<F>)
  {
    if chunks == [] then (s, [])
    else
      var (mid, first) := Feed(step, s, chunks[0]);
      var (end, later) := FeedChunks(step, mid, chunks[1..]);
      (end, first + later)
  }

  lemma {:induction false} FeedAppend<S, F>(step: (S, byte) -> (S, seq<F>), s: S, a: bytes, b: bytes)
    ensures var (mid, first) := Feed(step, s, a);
            var (end, later) := Feed(step, mid, b);
            Feed(step, s, a + b) == (end, first + later)
    decreases |a|
  {
    if a == [] {
      assert a + b == b;
      var (end, later) := Feed(step, s, b);
      assert [] + later == later;
    } else {
      var (next, f) := step(s, a[0]);
      assert (a + b)[1..] == a[1..] + b;
      FeedAppend(step, next, a[1..], b);
      var (mid, first) := Feed(step, next, a[1..]);
      var (end, later) := Feed(step, mid, b);
      assert f + (first + later) == (f + first) + later;
    }
  }

  /** Two runs in sequence. */
  lemma FeedThen<S, F>(step: (S, byte) -> (S, seq<F>), s: S, a: bytes, b: bytes,
                       mid: S, first: seq<F>, end: S, later: seq<F>)
    requires Feed(step, s, a) == (mid, first) && Feed(step, mid, b) == (end, later)
    ensures Feed(step, s, a + b) == (end, first + later)
  {
    FeedAppend(step, s, a, b);
  }

  /** How the input is cut into chunks makes no difference. */
  lemma {:induction false} ChunkingIsInvisible<S, F>(step: (S, byte) -> (S, seq<F>), s: S, chunks: seq<bytes>)
    ensures FeedChunks(step, s, chunks) == Feed(step, s, Concat(chunks))
    decreases |chunks|
  {
    if chunks != [] {
      var (mid, first) := Feed(step, s, chunks[0]);
      ChunkingIsInvisible(step, mid, chunks[1..]);
      FeedAppend(step, s, chunks[0], Concat(chunks[1..]));
    }
  }

  lemma FeedOne<S, F>(step: (S, byte) -> (S, seq<F>), s: S, b: byte)
    ensures Feed(step, s, [b]) == step(s, b)
  {
    var (mid, first) := step(s, b);
    assert Feed(step, mid, [b][1..]) == (mid, []);
    assert first + [] == first;
  }

  /** One more byte at the end. */
  lemma FeedSnoc<S, F>(step: (S, byte) -> (S, seq<F>), s: S, data: bytes, b: byte)
    ensures var (mid, first) := Feed(step, s, data);
            var (end, later) := step(mid, b);
            Feed(step, s, data + [b]) == (end, first + later)
  {
    FeedAppend(step, s, data, [b]);
    FeedOne(step, Feed(step, s, data).0, b);
  }

  /** The payloads that can be seen at all: an empty one leaves no frame. */
  function NonEmpty(ps: seq<bytes>): seq<bytes>
  {
    if ps == [] then [] else (if ps[0] == [] then [] else [ps[0]]) + NonEmpty(ps[1..])
  }
}

/** HDLC framing of the BLE link (framing.rs): byte stuffing as in section 4.2 of RFC 1662, without a checksum. */
module HdlcFraming {
  import opened Bytes
  import opened Feeding

  const FLAG: byte := 0x7E
  const ESC: byte := 0x7D

  function StuffByte(b: byte): bytes
  {
    if b == FLAG || b == ESC then [ESC, Flip20(b)] else [b]
  }

  function Stuff(data: bytes): (s: bytes)
    ensures |data| <= |s| <= 2 * |data|
  {
    if data == [] then [] else StuffByte(data[0]) + Stuff(data[1..])
  }

  function Encode(data: bytes): (frame: bytes)
    ensures |data| + 2 <= |frame| <= 2 * |data| + 2
  {
    [FLAG] + Stuff(data) + [FLAG]
  }

  lemma {:induction false} StuffAppend(a: bytes, b: bytes)
    ensures Stuff(a + b) == Stuff(a) + Stuff(b)
    decreases |a|
  {
    if a == [] {
      assert a + b == b;
    } else {
      assert (a + b)[1..] == a[1..] + b;
      StuffAppend(a[1..], b);
    }
  }

  lemma StuffSnoc(a: bytes, b: byte)
    ensures Stuff(a + [b]) == Stuff(a) + StuffByte(b)
  {
    StuffAppend(a, [b]);
    assert Stuff([b]) == StuffByte(b) + Stuff([]);
  }

  lemma StuffPrefix(data: bytes, i: nat)
    requires i < |data|
    ensures Stuff(data[..i + 1]) == Stuff(data[..i]) + StuffByte(data[i])
    ensures |Stuff(data[..i + 1])| <= |Stuff(data)|
  {
    StuffSnoc(data[..i], data[i]);
    StuffAppend(data[..i + 1], data[i + 1..]);
    assert data[..i + 1] == data[..i] + [data[i]] && data[..i + 1] + data[i + 1..] == data;
  }

  /** Inside a frame no flag byte occurs. */
  lemma {:induction false} StuffHasNoFlag(data: bytes)
    ensures FLAG !in Stuff(data)
    decreases |data|
  {
    if data != [] {
      StuffHasNoFlag(data[1..]);
    }
  }

  /** `hdlc_encode` */
  method HdlcEncode(data: bytes) returns (frame: bytes)
    ensures frame == Encode(data)
  {
    frame := [FLAG];
    for i := 0 to |data|
      invariant frame == [FLAG] + Stuff(data[..i])
    {
      StuffPrefix(data, i);
      ghost var stuffed := Stuff(data[..i]);
      assert [FLAG] + stuffed + StuffByte(data[i]) == [FLAG] + (stuffed + StuffByte(data[i]));
      if data[i] == FLAG {
        frame := frame + [ESC, 0x5E];
      } else if data[i] == ESC {
        frame := frame + [ESC, 0x5D];
      } else {
        frame := frame + [data[i]];
      }
    }
    assert data[..|data|] == data;
    frame := frame + [FLAG];
  }

  datatype Deframing = Deframing(buf: bytes, inFrame: bool, escapeNext: bool)

  /** One iteration of the loop of `feed`. */
  function Step(s: Deframing, b: byte): (Deframing, seq<bytes>)
  {
    if b == FLAG then (Deframing([], true, false), if s.inFrame && s.buf != [] then [s.buf] else [])
    else if !s.inFrame then (s, [])
    else if s.escapeNext then (Deframing(s.buf + [Flip20(b)], true, false), [])
    else if b == ESC then (s.(escapeNext := true), [])
    else (s.(buf := s.buf + [b]), [])
  }

  class HdlcDeframer {
    var buf: bytes
    var inFrame: bool
    var escapeNext: bool

    ghost function State(): Deframing
      reads this
    {
      Deframing(buf, inFrame, escapeNext)
    }

    constructor ()
      ensures State() == Deframing([], false, false)
    {
      buf, inFrame, escapeNext := [], false, false;
    }

    method Feed(data: bytes) returns (frames: seq<bytes>)
      modifies this
      ensures (State(), frames) == Feeding.Feed(Step, old(State()), data)
    {
      frames := [];
      for i := 0 to |data|
        invariant (State(), frames) == Feeding.Feed(Step, old(State()), data[..i])
      {
        FeedSnoc(Step, old(State()), data[..i], data[i]);
        assert data[..i + 1] == data[..i] + [data[i]];
        var emitted := FeedByte(data[i]);
        frames := frames + emitted;
      }
      assert data[..|data|] == data;
    }

    /** The loop's body for one byte, with the frames it pushes. */
    method FeedByte(b: byte) returns (emitted: seq<bytes>)
      modifies this
      ensures (State(), emitted) == Step(old(State()), b)
    {
      emitted := [];
      if b == FLAG {
        if inFrame && buf != [] {
          emitted := [buf];
        }
        inFrame, escapeNext, buf := true, false, [];
        return;
      }
      if !inFrame {
        return;
      }
      if escapeNext {
        buf := buf + [Flip20(b)];
        escapeNext := false;
      } else if b == ESC {
        escapeNext := true;
      } else {
        buf := buf + [b];
      }
    }

    method Reset()
      modifies this
      ensures State() == Deframing([], false, false)
    {
      buf, inFrame, escapeNext := [], false, false;
    }
  }

  /** A stuffed payload is collected as it was, whatever has been collected before. */
  lemma StuffedByteCollects(buf: bytes, b: byte)
    ensures Feeding.Feed(Step, Deframing(buf, true, false), StuffByte(b)) == (Deframing(buf + [b], true, false), [])
  {
    var s := Deframing(buf, true, false);
    if b == FLAG || b == ESC {
      Flip20Involutive(b);
      var mid := s.(escapeNext := true);
      assert StuffByte(b) == [ESC] + [Flip20(b)];
      FeedAppend(Step, s, [ESC], [Flip20(b)]);
      FeedOne(Step, s, ESC);
      FeedOne(Step, mid, Flip20(b));
    } else {
      FeedOne(Step, s, b);
    }
  }

  lemma {:induction false} StuffingCollects(buf: bytes, data: bytes)
    ensures Feeding.Feed(Step, Deframing(buf, true, false), Stuff(data)) == (Deframing(buf + data, true, false), [])
    decreases |data|
  {
    if data == [] {
      assert buf + data == buf;
    } else {
      var s, b := Deframing(buf, true, false), data[0];
      StuffedByteCollects(buf, b);
      StuffingCollects(buf + [b], data[1..]);
      FeedAppend(Step, s, StuffByte(b), Stuff(data[1..]));
      assert (buf + [b]) + data[1..] == buf + data;
    }
  }

  /** The leftover that the next flag turns into a frame: nothing in the initial state and after every whole frame. */
  function Stale(s: Deframing): seq<bytes>
  {
    if s.inFrame && s.buf != [] then [s.buf] else []
  }

  /** From any state, an encoded payload produces at most one stale frame, then the payload (unless it is empty), and leaves
      nothing behind. */
  lemma OneFrame(s: Deframing, p: bytes)
    ensures Feeding.Feed(Step, s, Encode(p)) == (Deframing([], true, false), Stale(s) + NonEmpty([p]))
  {
    var start := Deframing([], true, false);
    assert Encode(p) == [FLAG] + (Stuff(p) + [FLAG]);
    FeedAppend(Step, s, [FLAG], Stuff(p) + [FLAG]);
    FeedOne(Step, s, FLAG);
    FeedAppend(Step, start, Stuff(p), [FLAG]);
    StuffingCollects([], p);
    assert [] + p == p;
    FeedOne(Step, Deframing(p, true, false), FLAG);
    assert NonEmpty([p]) == (if p == [] then [] else [p]) + NonEmpty([]);
    assert Stale(s) + ([] + Stale(Deframing(p, true, false))) == Stale(s) + NonEmpty([p]);
  }

  /** The wire form of a list of payloads. */
  function EncodeAll(ps: seq<bytes>): bytes
  {
    if ps == [] then [] else Encode(ps[0]) + EncodeAll(ps[1..])
  }

  lemma NonEmptySplit(ps: seq<bytes>)
    requires ps != []
    ensures NonEmpty(ps) == NonEmpty([ps[0]]) + NonEmpty(ps[1..])
  {
    var first := [ps[0]];
    assert |first[1..]| == 0;
  }

  lemma {:induction false} CleanFrames(ps: seq<bytes>)
    ensures Feeding.Feed(Step, Deframing([], true, false), EncodeAll(ps)) == (Deframing([], true, false), NonEmpty(ps))
    decreases |ps|
  {
    if ps != [] {
      var clean := Deframing([], true, false);
      OneFrame(clean, ps[0]);
      assert Stale(clean) + NonEmpty([ps[0]]) == NonEmpty([ps[0]]);
      FeedAppend(Step, clean, Encode(ps[0]), EncodeAll(ps[1..]));
      CleanFrames(ps[1..]);
      NonEmptySplit(ps);
    }
  }

  lemma NonEmptyBehind(stale: seq<bytes>, ps: seq<bytes>)
    requires ps != []
    ensures (stale + NonEmpty([ps[0]])) + NonEmpty(ps[1..]) == stale + NonEmpty(ps)
  {
    NonEmptySplit(ps);
  }

  lemma AllFrames(s: Deframing, ps: seq<bytes>)
    requires ps != []
    ensures Feeding.Feed(Step, s, EncodeAll(ps)) == (Deframing([], true, false), Stale(s) + NonEmpty(ps))
  {
    var clean, one, rest := Deframing([], true, false), Encode(ps[0]), EncodeAll(ps[1..]);
    OneFrame(s, ps[0]);
    CleanFrames(ps[1..]);
    FeedThen(Step, s, one, rest, clean, Stale(s) + NonEmpty([ps[0]]), clean, NonEmpty(ps[1..]));
    NonEmptyBehind(Stale(s), ps);
  }

  /** Deframing inverts encoding for every list of payloads and every way of cutting the bytes into chunks, from every
      state of the deframer, with at most one stale frame in front. */
  lemma Deframed(s: Deframing, ps: seq<bytes>, chunks: seq<bytes>)
    requires ps != [] && Concat(chunks) == EncodeAll(ps)
    ensures FeedChunks(Step, s, chunks) == (Deframing([], true, false), Stale(s) + NonEmpty(ps))
  {
    ChunkingIsInvisible(Step, s, chunks);
    AllFrames(s, ps);
  }
}

/** KISS framing of LoRa modems (framing.rs): as HDLC, with its own escapes and a command byte after each FEND. */
module KissFraming {
  import opened Bytes
  import opened Feeding

  const FEND: byte := 0xC0
  const FESC: byte := 0xDB
  const TFEND: byte := 0xDC
  const TFESC: byte := 0xDD
  const CMD_DATA: byte := 0x00
  const NO_COMMAND: byte := 0xFF

  function StuffByte(b: byte): bytes
  {
    if b == FEND then [FESC, TFEND] else if b == FESC then [FESC, TFESC] else [b]
  }

  function Stuff(data: bytes): bytes
  {
    ConcatMap(StuffByte, data)
  }

  function Encode(data: bytes): bytes
  {
    [FEND, CMD_DATA] + Stuff(data) + [FEND]
  }

  /** `kiss_encode` */
  method KissEncode(data: bytes) returns (frame: bytes)
    ensures frame == Encode(data)
  {
    frame := [FEND, CMD_DATA];
    for i := 0 to |data|
      invariant frame == [FEND, CMD_DATA] + Stuff(data[..i])
    {
      ConcatMapSnoc(StuffByte, data[..i], data[i]);
      assert data[..i + 1] == data[..i] + [data[i]];
      if data[i] == FEND {
        frame := frame + [FESC, TFEND];
      } else if data[i] == FESC {
        frame := frame + [FESC, TFESC];
      } else {
        frame := frame + [data[i]];
      }
    }
    assert data[..|data|] == data;
    frame := frame + [FEND];
  }

  datatype Deframing = Deframing(buf: bytes, inFrame: bool, escapeNext: bool, command: byte)

  type Frame = (byte, bytes)

  function Unescape(b: byte): byte
  {
    if b == TFEND then FEND else if b == TFESC then FESC else b
  }

  /** One iteration of the loop of `feed`. */
  function Step(s: Deframing, b: byte): (Deframing, seq<Frame>)
  {
    if b == FEND then (Deframing([], true, false, NO_COMMAND), Stale(s))
    else if !s.inFrame then (s, [])
    else if s.command == NO_COMMAND then (s.(command := b), [])
    else if s.escapeNext then (s.(buf := s.buf + [Unescape(b)], escapeNext := false), [])
    else if b == FESC then (s.(escapeNext := true), [])
    else (s.(buf := s.buf + [b]), [])
  }

  /** What the next FEND would emit. */
  function Stale(s: Deframing): seq<Frame>
  {
    if s.inFrame && s.buf != [] then [(s.command, s.buf)] else []
  }

  class KissDeframer {
    var buf: bytes
    var inFrame: bool
    var escapeNext: bool
    var command: byte

    ghost function State(): Deframing
      reads this
    {
      Deframing(buf, inFrame, escapeNext, command)
    }

    constructor ()
      ensures State() == Deframing([], false, false, 0)
    {
      buf, inFrame, escapeNext, command := [], false, false, 0;
    }

    method Feed(data: bytes) returns (frames: seq<Frame>)
      modifies this
      ensures (State(), frames) == Feeding.Feed(Step, old(State()), data)
    {
      frames := [];
      for i := 0 to |data|
        invariant (State(), frames) == Feeding.Feed(Step, old(State()), data[..i])
      {
        FeedSnoc(Step, old(State()), data[..i], data[i]);
        assert data[..i + 1] == data[..i] + [data[i]];
        var emitted := FeedByte(data[i]);
        frames := frames + emitted;
      }
      assert data[..|data|] == data;
    }

    /** The loop's body for one byte, with the frames it pushes. */
    method FeedByte(b: byte) returns (emitted: seq<Frame>)
      modifies this
      ensures (State(), emitted) == Step(old(State()), b)
    {
      emitted := [];
      if b == FEND {
        if inFrame && buf != [] {
          emitted := [(command, buf)];
        }
        inFrame, escapeNext, buf, command := true, false, [], NO_COMMAND;
        return;
      }
      if !inFrame {
        return;
      }
      if command == NO_COMMAND {
        command := b;
        return;
      }
      if escapeNext {
        match b {
          case 0xDC => buf := buf + [FEND];
          case 0xDD => buf := buf + [FESC];
          case _ => buf := buf + [b];
        }
        escapeNext := false;
      } else if b == FESC {
        escapeNext := true;
      } else {
        buf := buf + [b];
      }
    }

    /** `reset` leaves the command as it is; no frame can show it before the next FEND replaces it. */
    method Reset()
      modifies this
      ensures State() == Deframing([], false, false, old(command)) && Stale(State()) == []
    {
      buf, inFrame, escapeNext := [], false, false;
    }
  }

  lemma {:induction false} StuffingCollects(buf: bytes, data: bytes)
    ensures Feeding.Feed(Step, Deframing(buf, true, false, CMD_DATA), Stuff(data))
            == (Deframing(buf + data, true, false, CMD_DATA), [])
    decreases |data|
  {
    if data == [] {
      assert buf + data == buf;
    } else {
      var s, b := Deframing(buf, true, false, CMD_DATA), data[0];
      var next := Deframing(buf + [b], true, false, CMD_DATA);
      assert Feeding.Feed(Step, s, StuffByte(b)) == (next, []) by {
        if b == FEND || b == FESC {
          var mid := s.(escapeNext := true);
          var coded := StuffByte(b)[1];
          assert StuffByte(b) == [FESC] + [coded];
          FeedAppend(Step, s, [FESC], [coded]);
          FeedOne(Step, s, FESC);
          FeedOne(Step, mid, coded);
        } else {
          FeedOne(Step, s, b);
        }
      }
      StuffingCollects(buf + [b], data[1..]);
      FeedAppend(Step, s, StuffByte(b), Stuff(data[1..]));
      assert (buf + [b]) + data[1..] == buf + data;
    }
  }

  /** Payloads as the data frames they become. */
  function DataFrames(ps: seq<bytes>): seq<Frame>
  {
    if ps == [] then [] else (if ps[0] == [] then [] else [(CMD_DATA, ps[0])]) + DataFrames(ps[1..])
  }

  const CLEAN := Deframing([], true, false, NO_COMMAND)

  lemma OneFrame(s: Deframing, p: bytes)
    ensures Feeding.Feed(Step, s, Encode(p)) == (CLEAN, Stale(s) + DataFrames([p]))
  {
    var body := Deframing([], true, false, CMD_DATA);
    assert Encode(p) == [FEND] + ([CMD_DATA] + (Stuff(p) + [FEND]));
    FeedAppend(Step, s, [FEND], [CMD_DATA] + (Stuff(p) + [FEND]));
    FeedOne(Step, s, FEND);
    FeedAppend(Step, CLEAN, [CMD_DATA], Stuff(p) + [FEND]);
    FeedOne(Step, CLEAN, CMD_DATA);
    FeedAppend(Step, body, Stuff(p), [FEND]);
    StuffingCollects([], p);
    assert [] + p == p;
    FeedOne(Step, Deframing(p, true, false, CMD_DATA), FEND);
    assert DataFrames([p]) == (if p == [] then [] else [(CMD_DATA, p)]) + DataFrames([]);
    assert Stale(s) + ([] + ([] + Stale(Deframing(p, true, false, CMD_DATA)))) == Stale(s) + DataFrames([p]);
  }

  function EncodeAll(ps: seq<bytes>): bytes
  {
    if ps == [] then [] else Encode(ps[0]) + EncodeAll(ps[1..])
  }

  lemma DataFramesSplit(ps: seq<bytes>)
    requires ps != []
    ensures DataFrames(ps) == DataFrames([ps[0]]) + DataFrames(ps[1..])
  {
    var first := [ps[0]];
    assert |first[1..]| == 0;
  }

  lemma {:induction false} CleanFrames(ps: seq<bytes>)
    ensures Feeding.Feed(Step, CLEAN, EncodeAll(ps)) == (CLEAN, DataFrames(ps))
    decreases |ps|
  {
    if ps != [] {
      var clean := CLEAN;
      OneFrame(clean, ps[0]);
      assert Stale(clean) + DataFrames([ps[0]]) == DataFrames([ps[0]]);
      FeedAppend(Step, clean, Encode(ps[0]), EncodeAll(ps[1..]));
      CleanFrames(ps[1..]);
      DataFramesSplit(ps);
    }
  }

  lemma DataFramesBehind(stale: seq<Frame>, ps: seq<bytes>)
    requires ps != []
    ensures (stale + DataFrames([ps[0]])) + DataFrames(ps[1..]) == stale + DataFrames(ps)
  {
    DataFramesSplit(ps);
  }

  lemma AllFrames(s: Deframing, ps: seq<bytes>)
    requires ps != []
    ensures Feeding.Feed(Step, s, EncodeAll(ps)) == (CLEAN, Stale(s) + DataFrames(ps))
  {
    var clean, one, rest := CLEAN, Encode(ps[0]), EncodeAll(ps[1..]);
    OneFrame(s, ps[0]);
    CleanFrames(ps[1..]);
    FeedThen(Step, s, one, rest, clean, Stale(s) + DataFrames([ps[0]]), clean, DataFrames(ps[1..]));
    DataFramesBehind(Stale(s), ps);
  }

  /** Deframing inverts encoding for every list of payloads, every chunking and every earlier state, with at most one stale
      frame in front; each payload comes back as a data frame. */
  lemma Deframed(s: Deframing, ps: seq<bytes>, chunks: seq<bytes>)
    requires ps != [] && Concat(chunks) == EncodeAll(ps)
    ensures FeedChunks(Step, s, chunks) == (CLEAN, Stale(s) + DataFrames(ps))
  {
    ChunkingIsInvisible(Step, s, chunks);
    AllFrames(s, ps);
  }
}
