/** Data cut piece by piece from the front, and sends that take the pieces until one is refused. */
module Cutting {
  import opened Bytes

  /** The length of the next piece: what `next` says, if that makes sense. */
  function Length(next: bytes -> nat, data: bytes): (n: nat)
    requires data != []
    ensures 0 < n <= |data|
  {
    if 0 < next(data) <= |data| then next(data) else |data|
  }

  function Pieces<T>(next: bytes -> nat, make: bytes -> T, data: bytes): seq<T>
    decreases |data|
  {
    if data == [] then [] else [make(data)] + Pieces(next, make, data[Length(next, data)..])
  }

  /** How much of the data the first `k` pieces take. */
  function Span(next: bytes -> nat, data: bytes, k: nat): (n: nat)
    ensures n <= |data|
    decreases |data|
  {
    if data == [] || k == 0 then 0
    else Length(next, data) + Span(next, data[Length(next, data)..], k - 1)
  }

  lemma {:induction false} SpanMore(next: bytes -> nat, data: bytes, k: nat, rest: bytes)
    requires rest == data[Span(next, data, k)..] && rest != []
    ensures Span(next, data, k + 1) == Span(next, data, k) + Length(next, rest)
    ensures rest[Length(next, rest)..] == data[Span(next, data, k + 1)..]
    decreases |data|
  {
    var n := Length(next, data);
    if k == 0 {
      assert data[0..] == data && Span(next, data[n..], 0) == 0;
    } else {
      assert data[n..][Span(next, data[n..], k - 1)..] == rest;
      SpanMore(next, data[n..], k - 1, rest);
    }
  }

  /** `k` of the pieces are taken, one call for each, and then one that is not, if any. */
  ghost predicate StopsAt<T>(takes: (nat, T) -> bool, ts: seq<T>, k: nat)
  {
    k <= |ts| && (forall i: nat :: i < k ==> takes(i, ts[i])) && (k < |ts| ==> !takes(k, ts[k]))
  }

  /** `calls` sends have taken the first pieces, and `rest` remains to be cut. */
  ghost predicate Progress<T>(next: bytes -> nat, make: bytes -> T, takes: (nat, T) -> bool, ts: seq<T>, rest: bytes,
                              calls: nat)
  {
    calls <= |ts| && ts[calls..] == Pieces(next, make, rest) && forall i: nat :: i < calls ==> takes(i, ts[i])
  }

  lemma ProgressMore<T>(next: bytes -> nat, make: bytes -> T, takes: (nat, T) -> bool, ts: seq<T>, rest: bytes, calls: nat)
    requires Progress(next, make, takes, ts, rest, calls) && rest != [] && takes(calls, make(rest))
    ensures Progress(next, make, takes, ts, rest[Length(next, rest)..], calls + 1)
    ensures ts[..calls + 1] == ts[..calls] + [make(rest)]
  {
    assert ts[calls..][0] == ts[calls] && ts[calls..][1..] == ts[calls + 1..];
  }

  lemma ProgressEnds<T>(next: bytes -> nat, make: bytes -> T, takes: (nat, T) -> bool, ts: seq<T>, rest: bytes, calls: nat)
    requires Progress(next, make, takes, ts, rest, calls) && (rest != [] ==> !takes(calls, make(rest)))
    ensures StopsAt(takes, ts, calls) && (calls == |ts| <==> rest == [])
    ensures rest != [] ==> ts[calls] == make(rest)
  {
    if rest != [] {
      assert ts[calls..][0] == ts[calls];
    }
  }

  /** The first `calls` pieces of the data have been taken, `total` bytes of it, and `rest` remains. */
  ghost predicate Underway<T>(next: bytes -> nat, make: bytes -> T, takes: (nat, T) -> bool, data: bytes, rest: bytes,
                              total: nat, calls: nat)
  {
    && total == Span(next, data, calls) && rest == data[total..]
    && Progress(next, make, takes, Pieces(next, make, data), rest, calls)
  }

  lemma UnderwayMore<T>(next: bytes -> nat, make: bytes -> T, takes: (nat, T) -> bool, data: bytes, rest: bytes, total: nat,
                        calls: nat, n: nat)
    requires Underway(next, make, takes, data, rest, total, calls) && rest != [] && n == Length(next, rest)
    requires takes(calls, make(rest))
    ensures Underway(next, make, takes, data, rest[n..], total + n, calls + 1)
    ensures Pieces(next, make, data)[..calls + 1] == Pieces(next, make, data)[..calls] + [make(rest)]
  {
    ProgressMore(next, make, takes, Pieces(next, make, data), rest, calls);
    SpanMore(next, data, calls, rest);
  }

  /** The pieces up to the `k`-th, and what follows the first of them. */
  lemma FirstPieces<T>(next: bytes -> nat, make: bytes -> T, data: bytes, k: nat, rest: bytes)
    requires data != [] && 0 < k <= |Pieces(next, make, data)| && rest == data[Length(next, data)..]
    ensures k - 1 <= |Pieces(next, make, rest)|
    ensures Pieces(next, make, data)[..k] == [make(data)] + Pieces(next, make, rest)[..k - 1]
    ensures k == |Pieces(next, make, data)| <==> k - 1 == |Pieces(next, make, rest)|
    ensures Span(next, data, k) == Length(next, data) + Span(next, rest, k - 1)
  {
  }
}

/** The byte stream over a channel (channel_buffer.rs): chunking with optional compression, the two-byte header,
    the writer, and the reader's buffer. The compressor (bzip2 in the source) is a parameter. A chunk is cut to the
    length of an unencrypted packet, so a link cannot take the longest ones. */
module Streams {
  import opened Bytes
  import opened Cutting
  import opened Envelopes
  import L = LinkModel

  /** `SystemMessageTypes::StreamData` */
  const STREAM_DATA: u16 := 0xff00

  const STREAM_ID_MAX := 0x3FFF
  const STREAM_DATA_OVERHEAD := 2 + HEADER
  const STREAM_DATA_MAX_LEN := PACKET_MDU - STREAM_DATA_OVERHEAD
  const MAX_CHUNK_LEN := 1024 * 16
  const COMPRESSION_TRIES := 4

  /** `unpack` yields None on malformed input. */
  datatype Compressor = Compressor(pack: bytes -> bytes, unpack: bytes -> Option<bytes>)

  ghost predicate Lossless(c: Compressor)
  {
    forall b: bytes :: c.unpack(c.pack(b)) == Some(b)
  }

  datatype StreamMessage = StreamMessage(streamId: u16, data: bytes, eof: bool, compressed: bool)

  /** `StreamDataMessage::encode` */
  function Encode(m: StreamMessage): bytes
  {
    Be16(m.streamId % 0x4000 + (if m.eof then 0x8000 else 0) + (if m.compressed then 0x4000 else 0)) + m.data
  }

  /** `StreamDataMessage::decode` */
  function Decode(c: Compressor, payload: bytes): Option<StreamMessage>
  {
    if |payload| < 2 then None
    else
      var header := FromBe16(payload[0], payload[1]);
      var eof, compressed, streamId := header / 0x8000 == 1, header / 0x4000 % 2 == 1, header % 0x4000;
      var data := payload[2..];
      if !compressed then Some(StreamMessage(streamId, data, eof, compressed))
      else
        match c.unpack(data)
        case None => None
        case Some(decoded) =>
          if |decoded| > MAX_CHUNK_LEN then None else Some(StreamMessage(streamId, decoded, eof, compressed))
  }

  /** The plain bytes a message carries, where it can be decoded. */
  function Plain(c: Compressor, m: StreamMessage): Option<bytes>
  {
    if !m.compressed then Some(m.data)
    else match c.unpack(m.data)
      case None => None
      case Some(d) => if |d| > MAX_CHUNK_LEN then None else Some(d)
  }

  /** Header packing and unpacking are inverse for every id in range, and the data is what the message carries. */
  lemma DecodeEncode(c: Compressor, m: StreamMessage)
    requires m.streamId <= STREAM_ID_MAX
    ensures Decode(c, Encode(m)) == (match Plain(c, m) case None => None case Some(d) => Some(m.(data := d)))
  {
    var header := m.streamId + (if m.eof then 0x8000 else 0) + (if m.compressed then 0x4000 else 0);
    HeaderBits(m.streamId, if m.eof then 1 else 0, if m.compressed then 1 else 0);
    assert Encode(m) == Be16(header) + m.data;
    DecodeHeader(c, header, m.data, StreamMessage(m.streamId, m.data, m.eof, m.compressed));
  }

  /** What the decoder makes of a header and the data behind it. */
  lemma DecodeHeader(c: Compressor, header: u16, data: bytes, m: StreamMessage)
    requires m.data == data && m.streamId == header % 0x4000
    requires (m.eof <==> header / 0x8000 == 1) && (m.compressed <==> header / 0x4000 % 2 == 1)
    ensures Decode(c, Be16(header) + data) == (match Plain(c, m) case None => None case Some(d) => Some(m.(data := d)))
  {
    var payload := Be16(header) + data;
    Be16RoundTrip(header);
    assert payload[0] == Be16(header)[0] && payload[1] == Be16(header)[1] && payload[2..] == data;
  }

  lemma HeaderBits(id: nat, eof: nat, compressed: nat)
    requires id <= STREAM_ID_MAX && eof <= 1 && compressed <= 1
    ensures var header := id + eof * 0x8000 + compressed * 0x4000;
            header / 0x8000 == eof && header / 0x4000 % 2 == compressed && header % 0x4000 == id
  {
  }

  // ----- chunking ---------------------------------------------------------------------------------------

  /** `chunk_len / attempt` */
  function Segment(chunk: nat, attempt: nat): (n: nat)
    requires 1 <= attempt <= COMPRESSION_TRIES
    ensures n <= chunk && (chunk > 32 ==> n > 0)
  {
    chunk / attempt
  }

  /** Whether the first `chunk / attempt` bytes compress into one message, and by how much less than they are. */
  predicate Fits(c: Compressor, data: bytes, chunk: nat, attempt: nat)
    requires 1 <= attempt <= COMPRESSION_TRIES && chunk <= |data|
  {
    var candidate := c.pack(data[..Segment(chunk, attempt)]);
    |candidate| <= STREAM_DATA_MAX_LEN && |candidate| < Segment(chunk, attempt)
  }

  /** The first attempt, from this one on, that does. */
  function FirstFit(c: Compressor, data: bytes, chunk: nat, attempt: nat): (r: Option<nat>)
    requires 1 <= attempt && chunk <= |data|
    ensures r.Some? ==> attempt <= r.value <= COMPRESSION_TRIES && Segment(chunk, r.value) > 0
    decreases COMPRESSION_TRIES + 1 - attempt
  {
    if attempt > COMPRESSION_TRIES then None
    else if Fits(c, data, chunk, attempt) then Some(attempt)
    else FirstFit(c, data, chunk, attempt + 1)
  }

  lemma {:induction false} FirstFitIs(c: Compressor, data: bytes, chunk: nat, attempt: nat)
    requires 1 <= attempt && chunk <= |data|
    ensures var r := FirstFit(c, data, chunk, attempt);
            && (r.Some? ==> Fits(c, data, chunk, r.value))
            && forall b :: attempt <= b <= COMPRESSION_TRIES && (r.Some? ==> b < r.value) ==> !Fits(c, data, chunk, b)
    decreases COMPRESSION_TRIES + 1 - attempt
  {
    if attempt <= COMPRESSION_TRIES && !Fits(c, data, chunk, attempt) {
      FirstFitIs(c, data, chunk, attempt + 1);
    }
  }

  /** How many bytes the next chunk carries, and whether compressed: the largest attempt that compresses wins, and the plain
      prefix is the last resort. */
  function NextChunk(c: Compressor, data: bytes): (r: (nat, bool))
    ensures r.0 <= |data| && (data != [] ==> r.0 > 0)
  {
    var chunk := Min(|data|, MAX_CHUNK_LEN);
    var fit := if chunk > 32 then FirstFit(c, data, chunk, 1) else None;
    match fit
    case Some(a) => (Segment(chunk, a), true)
    case None => (Min(chunk, STREAM_DATA_MAX_LEN), false)
  }

  function ChunkMessage(c: Compressor, streamId: u16, data: bytes, eof: bool): StreamMessage
  {
    var (n, compressed) := NextChunk(c, data);
    StreamMessage(streamId, if compressed then c.pack(data[..n]) else data[..n], eof, compressed)
  }

  /** All chunks of some data, one after the other. */
  function Chunking(c: Compressor, streamId: u16, data: bytes): seq<StreamMessage>
  {
    Pieces(ChunkLength(c), Chunker(c, streamId), data)
  }

  function ChunkLength(c: Compressor): bytes -> nat
  {
    data => NextChunk(c, data).0
  }

  function Chunker(c: Compressor, streamId: u16): bytes -> StreamMessage
  {
    data => ChunkMessage(c, streamId, data, false)
  }

  /** A chunk the decoder accepts, that carries exactly the first `n` bytes, encodes to at most 458 bytes and makes
      progress. */
  predicate GoodChunk(c: Compressor, streamId: u16, data: bytes, eof: bool, m: StreamMessage, n: nat)
  {
    && n <= |data| && (data != [] ==> n > 0) && n <= MAX_CHUNK_LEN
    && m.streamId == streamId && m.eof == eof && |m.data| <= STREAM_DATA_MAX_LEN
    && Plain(c, m) == Some(data[..n])
    && Decode(c, Encode(m)) == Some(m.(data := data[..n])) && |Encode(m)| <= 458
  }

  lemma ChunkIsGood(c: Compressor, streamId: u16, data: bytes, eof: bool)
    requires Lossless(c) && streamId <= STREAM_ID_MAX
    ensures GoodChunk(c, streamId, data, eof, ChunkMessage(c, streamId, data, eof), NextChunk(c, data).0)
  {
    var chunk := Min(|data|, MAX_CHUNK_LEN);
    FirstFitIs(c, data, chunk, 1);
    DecodeEncode(c, ChunkMessage(c, streamId, data, eof));
  }

  /** `RawChannelWriter::encode_chunk`: the attempts take the whole chunk, a half, a third and a quarter of it. */
  method EncodeChunk(c: Compressor, streamId: u16, data: bytes, eof: bool) returns (r: Option<(StreamMessage, nat)>)
    requires Lossless(c)
    ensures r.None? <==> streamId > STREAM_ID_MAX
    ensures r.Some? ==> r.value == (ChunkMessage(c, streamId, data, eof), NextChunk(c, data).0)
    ensures r.Some? ==> GoodChunk(c, streamId, data, eof, r.value.0, r.value.1)
  {
    if streamId > STREAM_ID_MAX {
      return None;
    }
    ChunkIsGood(c, streamId, data, eof);
    var chunkLen := Min(|data|, MAX_CHUNK_LEN);
    if chunkLen > 32 {
      for attempt := 1 to COMPRESSION_TRIES + 1
        invariant FirstFit(c, data, chunkLen, 1) == FirstFit(c, data, chunkLen, attempt)
      {
        var segmentLen := Segment(chunkLen, attempt);
        var candidate := c.pack(data[..segmentLen]);
        if |candidate| <= STREAM_DATA_MAX_LEN && |candidate| < segmentLen {
          assert Fits(c, data, chunkLen, attempt);
          return Some((StreamMessage(streamId, candidate, eof, true), segmentLen));
        }
      }
    }
    var plainLen := Min(chunkLen, STREAM_DATA_MAX_LEN);
    return Some((StreamMessage(streamId, data[..plainLen], eof, false), plainLen));
  }

  // ----- what a link takes ------------------------------------------------------------------------------

  /** What `send_typed` meets: no link; a link that is gone between opening the channel and sending; or a link in some state,
      with the hash that the packet will have and whether an interface takes it. */
  datatype Channel = NoLink | LostLink | Found(link: L.Link, hash: L.Hash, dispatched: bool, now: real)

  datatype Outcome = Taken | NotReady | TooLarge | NoChannel

  function DraftOf(m: StreamMessage, hash: L.Hash): L.Draft { L.Draft(STREAM_DATA, Encode(m), hash) }

  /** What opening the channel and sending the message comes to. */
  function Answer(ch: Channel, m: StreamMessage): Outcome
  {
    match ch
    case NoLink => NoChannel
    case LostLink => NotReady
    case Found(link, hash, dispatched, now) =>
      if link.iface.None? then NotReady
      else
        match L.SendMessage(link, DraftOf(m, hash), now).1
        case NotReady => NotReady
        case TooLarge => TooLarge
        case Accepted(_, _) => if dispatched then Taken else NotReady
  }

  /** Nothing but the message itself stands in the way. */
  predicate Ready(ch: Channel)
  {
    && ch.Found? && ch.dispatched && ch.link.iface.Some?
    && ch.link.status == L.Active && |ch.link.chan.pending| < ch.link.flow.window
  }

  /** The send fails because of its length, and the link has used up a number for it. */
  predicate FailsAndCounts(ch: Channel, m: StreamMessage)
    requires ch.Found?
  {
    Answer(ch, m) == TooLarge
    && L.SendMessage(ch.link, DraftOf(m, ch.hash), ch.now).0.chan.nextTx == L.Next16(ch.link.chan.nextTx)
  }

  /** A ready link takes a message exactly when it encodes to at most 409 bytes, that is, when it has at most 407 bytes of
      data; any other fails and leaves a hole. */
  lemma ReadyTakesIff(ch: Channel, m: StreamMessage)
    requires Ready(ch)
    ensures Answer(ch, m) == Taken <==> |Encode(m)| <= 409
    ensures Answer(ch, m) == Taken <==> |m.data| <= 407
    ensures Answer(ch, m) != Taken ==> FailsAndCounts(ch, m)
  {
    FitsPacketIff(Encode(m));
  }

  /** In terms of the data: the first attempt that compresses must come to at most 407 bytes; if none does, there must be no
      more data than that. */
  predicate ShortChunk(c: Compressor, data: bytes)
  {
    var chunk := Min(|data|, MAX_CHUNK_LEN);
    if chunk > 32 && FirstFit(c, data, chunk, 1).Some?
    then |c.pack(data[..Segment(chunk, FirstFit(c, data, chunk, 1).value)])| <= 407
    else |data| <= 407
  }

  /** A ready link takes the next chunk of a stream exactly then. */
  lemma NextChunkTakenIff(c: Compressor, streamId: u16, data: bytes, ch: Channel)
    requires Ready(ch)
    ensures Answer(ch, ChunkMessage(c, streamId, data, false)) == Taken <==> ShortChunk(c, data)
    ensures !ShortChunk(c, data) ==> FailsAndCounts(ch, ChunkMessage(c, streamId, data, false))
  {
    ReadyTakesIff(ch, ChunkMessage(c, streamId, data, false));
  }

  /** So a ready link refuses 408 bytes or more that do not get shorter by compression. */
  lemma IncompressibleIsRefused(c: Compressor, streamId: u16, data: bytes, ch: Channel)
    requires Ready(ch) && |data| >= 408
    requires forall a :: 1 <= a <= COMPRESSION_TRIES ==> !Fits(c, data, Min(|data|, MAX_CHUNK_LEN), a)
    ensures FailsAndCounts(ch, ChunkMessage(c, streamId, data, false))
  {
    FirstFitIs(c, data, Min(|data|, MAX_CHUNK_LEN), 1);
    NextChunkTakenIff(c, streamId, data, ch);
  }

  /** For instance 408 zeros, with a compressor that leaves them as they are; 407 of them would go. */
  lemma FourHundredAndEightZeros(streamId: u16, ch: Channel)
    requires Ready(ch)
    ensures var c := Compressor(b => b, b => Some(b));
            && Lossless(c)
            && FailsAndCounts(ch, ChunkMessage(c, streamId, seq(408, _ => 0), false))
            && Answer(ch, ChunkMessage(c, streamId, seq(407, _ => 0), false)) == Taken
  {
    var c := Compressor(b => b, b => Some(b));
    IncompressibleIsRefused(c, streamId, seq(408, _ => 0), ch);
    NextChunkTakenIff(c, streamId, seq(407, _ => 0), ch);
  }

  /** Which messages successive sends take, the i-th of them meeting `channels(i)`. */
  function Takes(channels: nat -> Channel): (nat, StreamMessage) -> bool
  {
    (i: nat, m: StreamMessage) => Answer(channels(i), m) == Taken
  }

  /** Over a link that is ready each time all messages go exactly when none has more than 407 bytes of data. */
  lemma ReadyTakesAllIff(channels: nat -> Channel, ms: seq<StreamMessage>, k: nat)
    requires StopsAt(Takes(channels), ms, k) && forall i: nat :: Ready(channels(i))
    ensures k == |ms| <==> forall m :: m in ms ==> |m.data| <= 407
    ensures k < |ms| ==> |ms[k].data| > 407 && Ready(channels(k)) && FailsAndCounts(channels(k), ms[k])
  {
    forall i: nat | i < |ms|
      ensures Answer(channels(i), ms[i]) == Taken <==> |ms[i].data| <= 407
    {
      ReadyTakesIff(channels(i), ms[i]);
    }
    if k < |ms| {
      assert ms[k] in ms;
      ReadyTakesIff(channels(k), ms[k]);
    }
  }

  // ----- what a list of messages carries ----------------------------------------------------------------

  /** The bytes that messages of stream `id` carry, in order. */
  function Carried(c: Compressor, ms: seq<StreamMessage>, id: u16): bytes
  {
    if ms == [] then []
    else
      var m := ms[|ms| - 1];
      Carried(c, ms[..|ms| - 1], id) + (if m.streamId == id && Plain(c, m).Some? then Plain(c, m).value else [])
  }

  predicate HasEof(ms: seq<StreamMessage>, id: u16)
  {
    exists m :: m in ms && m.streamId == id && m.eof
  }

  lemma CarriedSnoc(c: Compressor, ms: seq<StreamMessage>, m: StreamMessage, id: u16)
    ensures Carried(c, ms + [m], id) ==
            Carried(c, ms, id) + (if m.streamId == id && Plain(c, m).Some? then Plain(c, m).value else [])
  {
    assert (ms + [m])[..|ms|] == ms;
  }

  // ----- the writer -------------------------------------------------------------------------------------

  datatype Written = Wrote(total: nat) | Failed(why: Outcome)

  /** What a write reports. */
  function Report(answer: Outcome, n: nat): Written
  {
    match answer
    case Taken => Wrote(n)
    case NotReady => Wrote(0)
    case _ => Failed(answer)
  }

  /** `after` extends `before` by messages of the stream that carry exactly `data`. */
  ghost predicate Adds(c: Compressor, id: u16, before: seq<StreamMessage>, after: seq<StreamMessage>, data: bytes)
  {
    before <= after && Carried(c, after, id) == Carried(c, before, id) + data
  }

  lemma AddsOne(c: Compressor, id: u16, before: seq<StreamMessage>, m: StreamMessage, data: bytes)
    requires m.streamId == id && Plain(c, m) == Some(data)
    ensures Adds(c, id, before, before + [m], data)
  {
    CarriedSnoc(c, before, m, id);
  }

  /** Two consecutive writes of adjacent parts of `data`. */
  lemma AddsBoth(c: Compressor, id: u16, s0: seq<StreamMessage>, s1: seq<StreamMessage>, s2: seq<StreamMessage>,
                 data: bytes, n: nat, k: nat)
    requires n + k <= |data|
    requires Adds(c, id, s0, s1, data[..n]) && Adds(c, id, s1, s2, data[n..][..k])
    ensures Adds(c, id, s0, s2, data[..n + k])
  {
    TakeTwice(data, n, k);
    Associate(Carried(c, s0, id), data[..n], data[n..][..k]);
  }

  lemma TakeTwice(data: bytes, n: nat, k: nat)
    requires n + k <= |data|
    ensures data[..n] + data[n..][..k] == data[..n + k] && data[n..][k..] == data[n + k..]
  {
  }

  lemma AddsNothing(c: Compressor, id: u16, before: seq<StreamMessage>, data: bytes)
    requires data == []
    ensures Adds(c, id, before, before, data)
  {
    assert Carried(c, before, id) + data == Carried(c, before, id);
  }

  /** One write: a chunk is taken whole or not at all. */
  ghost predicate OneWrite(c: Compressor, id: u16, ch: Channel, before: seq<StreamMessage>, after: seq<StreamMessage>,
                           data: bytes, r: Written)
  {
    var m := ChunkMessage(c, id, data, false);
    var answer := Answer(ch, m);
    r == Report(answer, NextChunk(c, data).0) && after == before + if answer == Taken then [m] else []
  }

  /** A write takes the reported number of bytes into the stream, and none if it fails. */
  lemma OneWriteAdds(c: Compressor, id: u16, ch: Channel, before: seq<StreamMessage>, after: seq<StreamMessage>, data: bytes,
                     r: Written)
    requires Lossless(c) && id <= STREAM_ID_MAX && OneWrite(c, id, ch, before, after, data, r)
    ensures r.Wrote? ==> r.total <= |data| && Adds(c, id, before, after, data[..r.total])
    ensures r.Failed? ==> after == before
    ensures r.Wrote? && data != [] ==> (r.total == 0 <==> Answer(ch, ChunkMessage(c, id, data, false)) == NotReady)
  {
    var m, n := ChunkMessage(c, id, data, false), NextChunk(c, data).0;
    ChunkIsGood(c, id, data, false);
    if Answer(ch, m) == Taken {
      AddsOne(c, id, before, m, data[..n]);
    } else {
      assert before + [] == before;
      AddsNothing(c, id, before, data[..0]);
    }
  }

  /** Each piece is a message of the stream that carries just the bytes cut off with it. */
  ghost predicate Carries(c: Compressor, id: u16, next: bytes -> nat, make: bytes -> StreamMessage)
  {
    forall d: bytes :: d != [] ==> make(d).streamId == id && Plain(c, make(d)) == Some(d[..Length(next, d)])
  }

  lemma {:induction false} PiecesCarry(c: Compressor, id: u16, next: bytes -> nat, make: bytes -> StreamMessage,
                                       before: seq<StreamMessage>, data: bytes, k: nat, taken: seq<StreamMessage>)
    requires Carries(c, id, next, make) && k <= |Pieces(next, make, data)| && taken == Pieces(next, make, data)[..k]
    ensures Adds(c, id, before, before + taken, data[..Span(next, data, k)])
    decreases |data|
  {
    if data == [] || k == 0 {
      assert before + taken == before;
      AddsNothing(c, id, before, data[..Span(next, data, k)]);
    } else {
      var m, n := make(data), Length(next, data);
      var rest := data[n..];
      FirstPieces(next, make, data, k, rest);
      var others := Pieces(next, make, rest)[..k - 1];
      AddsOne(c, id, before, m, data[..n]);
      PiecesCarry(c, id, next, make, before + [m], rest, k - 1, others);
      OneThenOthers(c, id, before, m, others, data, n, Span(next, rest, k - 1));
    }
  }

  /** The first `k` chunks carry the first bytes of the data. */
  lemma ChunksCarry(c: Compressor, id: u16, before: seq<StreamMessage>, data: bytes, k: nat)
    requires Lossless(c) && id <= STREAM_ID_MAX && k <= |Chunking(c, id, data)|
    ensures Adds(c, id, before, before + Chunking(c, id, data)[..k], data[..Span(ChunkLength(c), data, k)])
  {
    var next, make := ChunkLength(c), Chunker(c, id);
    forall d: bytes | d != []
      ensures make(d).streamId == id && Plain(c, make(d)) == Some(d[..Length(next, d)])
    {
      ChunkIsGood(c, id, d, false);
    }
    PiecesCarry(c, id, next, make, before, data, k, Pieces(next, make, data)[..k]);
  }

  lemma {:induction false} AllChunksCarryAll(next: bytes -> nat, make: bytes -> StreamMessage, data: bytes, k: nat)
    requires k <= |Pieces(next, make, data)|
    ensures k == |Pieces(next, make, data)| <==> Span(next, data, k) == |data|
    decreases |data|
  {
    if data != [] && k > 0 {
      FirstPieces(next, make, data, k, data[Length(next, data)..]);
      AllChunksCarryAll(next, make, data[Length(next, data)..], k - 1);
    }
  }

  lemma OneThenOthers(c: Compressor, id: u16, before: seq<StreamMessage>, m: StreamMessage, others: seq<StreamMessage>,
                      data: bytes, n: nat, j: nat)
    requires n + j <= |data|
    requires Adds(c, id, before, before + [m], data[..n]) && Adds(c, id, before + [m], before + [m] + others, data[n..][..j])
    ensures Adds(c, id, before, before + ([m] + others), data[..n + j])
  {
    assert before + ([m] + others) == before + [m] + others;
    AddsBoth(c, id, before, before + [m], before + [m] + others, data, n, j);
  }

  /** What writing everything reports when it stops early: it hands on an error, and what it has written is lost with it. */
  function StopReport(answer: Outcome, carried: nat): Written
  {
    if answer == NotReady then Wrote(carried) else Failed(answer)
  }

  /** What writing all of the data comes to: it sends the chunks one after the other and stops at the first that is not taken;
      `calls` of them have gone then, with `carried` bytes of the data. */
  ghost predicate WholeWrite(c: Compressor, id: u16, channels: nat -> Channel, before: seq<StreamMessage>,
                             after: seq<StreamMessage>, data: bytes, r: Written, carried: nat, calls: nat)
  {
    var chunks := Chunking(c, id, data);
    && StopsAt(Takes(channels), chunks, calls) && after == before + chunks[..calls]
    && carried == Span(ChunkLength(c), data, calls)
    && r == if calls == |chunks| then Wrote(carried) else StopReport(Answer(channels(calls), chunks[calls]), carried)
  }

  /** So the stream has grown by exactly that much of the data, and by all of it if no send was refused. */
  lemma WholeWriteAdds(c: Compressor, id: u16, channels: nat -> Channel, before: seq<StreamMessage>, after: seq<StreamMessage>,
                       data: bytes, r: Written, carried: nat, calls: nat)
    requires Lossless(c) && id <= STREAM_ID_MAX && WholeWrite(c, id, channels, before, after, data, r, carried, calls)
    ensures carried <= |data| && Adds(c, id, before, after, data[..carried])
    ensures calls == |Chunking(c, id, data)| <==> carried == |data|
    ensures r.Wrote? ==> r.total == carried
  {
    ChunksCarry(c, id, before, data, calls);
    AllChunksCarryAll(ChunkLength(c), Chunker(c, id), data, calls);
  }

  /** Over a link that is ready each time, writing succeeds exactly when no chunk has more than 407 bytes; otherwise it fails
      at the first that has, although everything before it has been sent. */
  lemma ReadyWholeWriteIff(c: Compressor, id: u16, channels: nat -> Channel, before: seq<StreamMessage>,
                           after: seq<StreamMessage>, data: bytes, r: Written, carried: nat, calls: nat)
    requires Lossless(c) && id <= STREAM_ID_MAX && WholeWrite(c, id, channels, before, after, data, r, carried, calls)
    requires forall i: nat :: Ready(channels(i))
    ensures r == Wrote(|data|) <==> forall m :: m in Chunking(c, id, data) ==> |m.data| <= 407
    ensures r != Wrote(|data|) ==> r == Failed(TooLarge) && carried < |data|
  {
    ReadyTakesAllIff(channels, Chunking(c, id, data), calls);
    WholeWriteAdds(c, id, channels, before, after, data, r, carried, calls);
  }

  /** The messages sent so far are the first chunks, and `rest` is still to be sent. */
  ghost predicate Writing(c: Compressor, id: u16, channels: nat -> Channel, before: seq<StreamMessage>,
                          after: seq<StreamMessage>, data: bytes, rest: bytes, total: nat, calls: nat)
  {
    && Underway(ChunkLength(c), Chunker(c, id), Takes(channels), data, rest, total, calls)
    && after == before + Chunking(c, id, data)[..calls]
  }

  lemma WritingStarts(c: Compressor, id: u16, channels: nat -> Channel, before: seq<StreamMessage>, data: bytes)
    ensures Writing(c, id, channels, before, before, data, data, 0, 0)
  {
    var chunks := Chunking(c, id, data);
    assert data[0..] == data && chunks[0..] == chunks && before + chunks[..0] == before;
  }

  lemma WritingGoesOn(c: Compressor, id: u16, channels: nat -> Channel, before: seq<StreamMessage>, now: seq<StreamMessage>,
                      data: bytes, rest: bytes, total: nat, calls: nat, m: StreamMessage, n: nat)
    requires Writing(c, id, channels, before, now, data, rest, total, calls) && rest != []
    requires m == ChunkMessage(c, id, rest, false) && n == NextChunk(c, rest).0 && Answer(channels(calls), m) == Taken
    ensures n <= |rest| && Writing(c, id, channels, before, now + [m], data, rest[n..], total + n, calls + 1)
  {
    var next, make, takes := ChunkLength(c), Chunker(c, id), Takes(channels);
    assert make(rest) == m && Length(next, rest) == n && takes(calls, m);
    UnderwayMore(next, make, takes, data, rest, total, calls, n);
    assert before + (Chunking(c, id, data)[..calls] + [m]) == now + [m];
  }

  lemma WritingEnds(c: Compressor, id: u16, channels: nat -> Channel, before: seq<StreamMessage>, after: seq<StreamMessage>,
                    data: bytes, rest: bytes, total: nat, calls: nat, answer: Outcome)
    requires Writing(c, id, channels, before, after, data, rest, total, calls)
    requires rest != [] ==> answer != Taken && answer == Answer(channels(calls), ChunkMessage(c, id, rest, false))
    ensures WholeWrite(c, id, channels, before, after, data, if rest == [] then Wrote(total) else StopReport(answer, total),
                       total, calls)
  {
    var make, takes := Chunker(c, id), Takes(channels);
    if rest != [] {
      assert make(rest) == ChunkMessage(c, id, rest, false) && !takes(calls, make(rest));
    }
    ProgressEnds(ChunkLength(c), make, takes, Chunking(c, id, data), rest, calls);
  }

  /** One write inside it: either the writing goes on behind it, or it has come to its end. */
  lemma AfterOne(c: Compressor, id: u16, channels: nat -> Channel, before: seq<StreamMessage>, now: seq<StreamMessage>,
                 after: seq<StreamMessage>, data: bytes, rest: bytes, total: nat, calls: nat, one: Written)
    requires Writing(c, id, channels, before, now, data, rest, total, calls) && rest != []
    requires OneWrite(c, id, channels(calls), now, after, rest, one)
    ensures one.Failed? ==> WholeWrite(c, id, channels, before, after, data, one, total, calls)
    ensures one == Wrote(0) ==> WholeWrite(c, id, channels, before, after, data, Wrote(total), total, calls)
    ensures one.Wrote? && one.total > 0 ==>
              one.total <= |rest|
              && Writing(c, id, channels, before, after, data, rest[one.total..], total + one.total, calls + 1)
  {
    var m, n := ChunkMessage(c, id, rest, false), NextChunk(c, rest).0;
    var answer := Answer(channels(calls), m);
    if answer == Taken {
      WritingGoesOn(c, id, channels, before, now, data, rest, total, calls, m, n);
    } else {
      assert after == now;
      WritingEnds(c, id, channels, before, after, data, rest, total, calls, answer);
    }
  }

  predicate BelongsTo(c: Compressor, id: u16, m: StreamMessage)
  {
    m.streamId == id && Plain(c, m).Some? && |Encode(m)| <= 458
  }

  /** Everything sent decodes, encodes to at most 458 bytes and belongs to the stream; an EOF message is the last one. */
  ghost predicate WellSent(c: Compressor, id: u16, sent: seq<StreamMessage>, eofSent: bool)
  {
    forall i :: 0 <= i < |sent| ==> BelongsTo(c, id, sent[i]) && (sent[i].eof ==> i == |sent| - 1 && eofSent)
  }

  /** `sent` lists the messages the channel has taken. */
  class Writer {
    const compressor: Compressor
    const streamId: u16
    var eofSent: bool
    var sent: seq<StreamMessage>

    constructor (c: Compressor, id: u16)
      requires id <= STREAM_ID_MAX
      ensures compressor == c && streamId == id && !eofSent && sent == [] && fresh(this)
    {
      compressor, streamId, eofSent, sent := c, id, false, [];
    }

    ghost predicate Valid()
      reads this
    {
      Lossless(compressor) && streamId <= STREAM_ID_MAX && WellSent(compressor, streamId, sent, eofSent)
    }

    /** `write`: one chunk, which either is taken whole or not at all. */
    method Write(data: bytes, ch: Channel) returns (r: Written)
      requires Valid()
      modifies this
      ensures Valid() && eofSent == old(eofSent)
      ensures eofSent ==> r == Wrote(0) && sent == old(sent)
      ensures !eofSent ==> OneWrite(compressor, streamId, ch, old(sent), sent, data, r)
    {
      if eofSent {
        return Wrote(0);
      }
      var chunk := EncodeChunk(compressor, streamId, data, false);
      var message, processed := chunk.value.0, chunk.value.1;
      var answer := Answer(ch, message);
      if answer == Taken {
        sent := sent + [message];
        return Wrote(processed);
      }
      assert sent + [] == sent;
      return Report(answer, processed);
    }

    /** `write_all`: `channels(i)` is what the i-th send of this call meets. */
    method WriteAll(data: bytes, channels: nat -> Channel) returns (r: Written, ghost carried: nat, ghost calls: nat)
      requires Valid()
      modifies this
      ensures Valid() && eofSent == old(eofSent)
      ensures eofSent ==> r == Wrote(0) && sent == old(sent)
      ensures !eofSent ==> WholeWrite(compressor, streamId, channels, old(sent), sent, data, r, carried, calls)
    {
      if eofSent {
        return Wrote(0), 0, 0;
      }
      r, carried, calls := WriteChunks(data, channels);
    }

    /** Its loop. */
    method WriteChunks(data: bytes, channels: nat -> Channel) returns (r: Written, total: nat, calls: nat)
      requires Valid() && !eofSent
      modifies this
      ensures Valid() && !eofSent
      ensures WholeWrite(compressor, streamId, channels, old(sent), sent, data, r, total, calls)
    {
      var remaining := data;
      total, calls := 0, 0;
      ghost var before := sent;
      WritingStarts(compressor, streamId, channels, before, data);
      while remaining != []
        invariant Valid() && !eofSent
        invariant Writing(compressor, streamId, channels, before, sent, data, remaining, total, calls)
        decreases |remaining|
      {
        ghost var now := sent;
        var one := Write(remaining, channels(calls));
        AfterOne(compressor, streamId, channels, before, now, sent, data, remaining, total, calls, one);
        if one.Failed? {
          return one, total, calls;
        }
        if one.total == 0 {
          return Wrote(total), total, calls;
        }
        total := total + one.total;
        remaining := remaining[one.total..];
        calls := calls + 1;
      }
      WritingEnds(compressor, streamId, channels, before, sent, data, remaining, total, calls, Taken);
      return Wrote(total), total, calls;
    }

    /** `close`, after its bounded wait for room: the stream ends with its EOF message exactly when the channel opened and took
        it, which its length never prevents. A writer whose link was gone or not ready counts as closed all the same, and
        then no EOF ever follows. */
    method Close(ch: Channel)
      requires Valid()
      modifies this
      ensures Valid() && eofSent
      ensures var m := StreamMessage(streamId, [], true, false); var gone := !old(eofSent) && Answer(ch, m) == Taken;
              && sent == old(sent) + (if gone then [m] else [])
              && (Ready(ch) && !old(eofSent) ==> gone)
      ensures Adds(compressor, streamId, old(sent), sent, [])
    {
      assert sent + [] == sent;
      if eofSent {
        return;
      }
      var message := StreamMessage(streamId, [], true, false);
      FitsPacketIff(Encode(message));
      if ch.NoLink? {
        eofSent := true;
        return;
      }
      if Answer(ch, message) == Taken {
        AddsOne(compressor, streamId, sent, message, []);
        sent := sent + [message];
      }
      eofSent := true;
    }
  }

  // ----- the reader -------------------------------------------------------------------------------------

  datatype Rx = Rx(buffer: bytes, eof: bool)

  /** The handler of `attach`: a message of another stream, or none, is refused. */
  function Handle(id: u16, rx: Rx, message: Option<StreamMessage>): (Rx, bool)
  {
    match message
    case None => (rx, false)
    case Some(m) =>
      if m.streamId != id then (rx, false)
      else (Rx(rx.buffer + m.data, rx.eof || m.eof), true)
  }

  /** `read` */
  function Take(rx: Rx, max: nat): (Rx, Option<bytes>)
  {
    var n := Min(max, |rx.buffer|);
    if n == 0 then (rx, if rx.eof then Some([]) else None)
    else (rx.(buffer := rx.buffer[n..]), Some(rx.buffer[..n]))
  }

  class Reader {
    const compressor: Compressor
    const streamId: u16
    var buffer: bytes
    var eof: bool

    ghost function State(): Rx
      reads this
    {
      Rx(buffer, eof)
    }

    constructor (c: Compressor, id: u16)
      ensures State() == Rx([], false) && compressor == c && streamId == id
    {
      compressor, streamId, buffer, eof := c, id, [], false;
    }

    method OnMessage(payload: bytes) returns (handled: bool)
      modifies this
      ensures (State(), handled) == Handle(streamId, old(State()), Decode(compressor, payload))
    {
      handled := Accept(Decode(compressor, payload));
    }

    /** The typed handler itself, after decoding. */
    method Accept(message: Option<StreamMessage>) returns (handled: bool)
      modifies this
      ensures (State(), handled) == Handle(streamId, old(State()), message)
    {
      if message.None? || message.value.streamId != streamId {
        return false;
      }
      if message.value.data != [] {
        buffer := buffer + message.value.data;
      } else {
        assert buffer + [] == buffer;
      }
      if message.value.eof {
        eof := true;
      }
      return true;
    }

    method Read(max: nat) returns (out: Option<bytes>)
      modifies this
      ensures (State(), out) == Take(old(State()), max)
    {
      var toRead := Min(max, |buffer|);
      if toRead == 0 {
        if eof {
          return Some([]);
        }
        return None;
      }
      out := Some(buffer[..toRead]);
      buffer := buffer[toRead..];
    }

    method IsEof() returns (r: bool)
      ensures r <==> State().eof && State().buffer == []
    {
      return eof && buffer == [];
    }
  }

  // ----- whole runs of a reader -------------------------------------------------------------------------

  /** A message handed up by the channel, or a read by the application. */
  datatype Use = Deliver(payload: bytes) | Read(max: nat)

  /** The reader's state after a run, and all bytes its reads returned. */
  function RunReader(c: Compressor, id: u16, uses: seq<Use>): (Rx, bytes)
  {
    if uses == [] then (Rx([], false), [])
    else
      var (rx, out) := RunReader(c, id, uses[..|uses| - 1]);
      match uses[|uses| - 1]
      case Deliver(payload) => (Handle(id, rx, Decode(c, payload)).0, out)
      case Read(max) =>
        var (next, got) := Take(rx, max);
        (next, out + if got.Some? then got.value else [])
  }

  /** The run delivers the encodings of the first messages of `ms`, in order: `k` of them. */
  ghost predicate DeliversPrefix(uses: seq<Use>, ms: seq<StreamMessage>, k: nat)
  {
    if uses == [] then k == 0
    else
      match uses[|uses| - 1]
      case Read(_) => DeliversPrefix(uses[..|uses| - 1], ms, k)
      case Deliver(payload) =>
        0 < k <= |ms| && payload == Encode(ms[k - 1]) && DeliversPrefix(uses[..|uses| - 1], ms, k - 1)
  }

  lemma HandleCarries(c: Compressor, id: u16, rx: Rx, m: StreamMessage, before: seq<StreamMessage>, out: bytes,
                      decoded: Option<StreamMessage>)
    requires decoded == (match Plain(c, m) case None => None case Some(d) => Some(m.(data := d)))
    requires out + rx.buffer == Carried(c, before, id)
    ensures out + Handle(id, rx, decoded).0.buffer == Carried(c, before + [m], id)
    ensures Handle(id, rx, decoded).0.eof <==> rx.eof || (m.streamId == id && m.eof && Plain(c, m).Some?)
  {
    CarriedSnoc(c, before, m, id);
    if Plain(c, m).Some? && m.streamId == id {
      assert out + (rx.buffer + Plain(c, m).value) == (out + rx.buffer) + Plain(c, m).value;
    }
  }

  lemma EofSnoc(ms: seq<StreamMessage>, m: StreamMessage, id: u16)
    ensures HasEof(ms + [m], id) <==> HasEof(ms, id) || (m.streamId == id && m.eof)
  {
    assert forall x :: x in ms + [m] <==> x in ms || x == m;
  }

  lemma TakeKeeps(rx: Rx, max: nat, out: bytes)
    ensures var (next, got) := Take(rx, max);
            (out + if got.Some? then got.value else []) + next.buffer == out + rx.buffer && next.eof == rx.eof
  {
    var n := Min(max, |rx.buffer|);
    assert rx.buffer[..n] + rx.buffer[n..] == rx.buffer;
    Associate(out, rx.buffer[..n], rx.buffer[n..]);
    assert out + [] == out;
  }

  /** Whatever the sizes and times of the reads, bytes read and bytes still buffered are together exactly what the
      delivered messages of this stream carry, in order; messages of other streams leave no trace. */
  lemma {:induction false} ReadsAreTheStream(c: Compressor, id: u16, uses: seq<Use>, ms: seq<StreamMessage>, k: nat)
    requires DeliversPrefix(uses, ms, k) && k <= |ms|
    requires forall m :: m in ms ==> m.streamId <= STREAM_ID_MAX && Plain(c, m).Some?
    ensures var (rx, out) := RunReader(c, id, uses); out + rx.buffer == Carried(c, ms[..k], id)
    ensures RunReader(c, id, uses).0.eof <==> HasEof(ms[..k], id)
    decreases |uses|
  {
    if uses != [] {
      var rest := uses[..|uses| - 1];
      match uses[|uses| - 1] {
        case Deliver(payload) =>
          ReadsAreTheStream(c, id, rest, ms, k - 1);
          DeliverStep(c, id, uses, ms, k, payload);
        case Read(max) =>
          ReadsAreTheStream(c, id, rest, ms, k);
          ReadStep(c, id, uses, max);
      }
    }
  }

  lemma DeliverStep(c: Compressor, id: u16, uses: seq<Use>, ms: seq<StreamMessage>, k: nat, payload: bytes)
    requires uses != [] && uses[|uses| - 1] == Deliver(payload) && 0 < k <= |ms| && payload == Encode(ms[k - 1])
    requires ms[k - 1].streamId <= STREAM_ID_MAX && Plain(c, ms[k - 1]).Some?
    requires var (rx, out) := RunReader(c, id, uses[..|uses| - 1]);
             out + rx.buffer == Carried(c, ms[..k - 1], id) && (rx.eof <==> HasEof(ms[..k - 1], id))
    ensures var (rx, out) := RunReader(c, id, uses);
            out + rx.buffer == Carried(c, ms[..k], id) && (rx.eof <==> HasEof(ms[..k], id))
  {
    var (rx, out) := RunReader(c, id, uses[..|uses| - 1]);
    assert ms[..k] == ms[..k - 1] + [ms[k - 1]];
    DecodeEncode(c, ms[k - 1]);
    HandleCarries(c, id, rx, ms[k - 1], ms[..k - 1], out, Decode(c, payload));
    EofSnoc(ms[..k - 1], ms[k - 1], id);
  }

  lemma ReadStep(c: Compressor, id: u16, uses: seq<Use>, max: nat)
    requires uses != [] && uses[|uses| - 1] == Read(max)
    ensures var (rx, out) := RunReader(c, id, uses[..|uses| - 1]); var (next, more) := RunReader(c, id, uses);
            more + next.buffer == out + rx.buffer && next.eof == rx.eof
  {
    var (rx, out) := RunReader(c, id, uses[..|uses| - 1]);
    TakeKeeps(rx, max, out);
  }

  /** An EOF message of the stream is followed by no other message of that stream. */
  ghost predicate EofIsLast(ms: seq<StreamMessage>, id: u16)
  {
    forall i, j :: 0 <= i < j < |ms| && ms[i].streamId == id && ms[j].streamId == id ==> !ms[i].eof
  }

  lemma {:induction false} NothingAfterEof(c: Compressor, ms: seq<StreamMessage>, id: u16, k: nat)
    requires k <= |ms| && HasEof(ms[..k], id) && EofIsLast(ms, id)
    ensures Carried(c, ms, id) == Carried(c, ms[..k], id)
    decreases |ms| - k
  {
    if k == |ms| {
      assert ms[..k] == ms;
    } else {
      var e :| e in ms[..k] && e.streamId == id && e.eof;
      var i :| 0 <= i < k && ms[i] == e;
      assert ms[..k + 1] == ms[..k] + [ms[k]];
      assert ms[k].streamId != id;
      CarriedSnoc(c, ms[..k], ms[k], id);
      assert e in ms[..k + 1];
      NothingAfterEof(c, ms, id, k + 1);
    }
  }

  /** End of stream is visible only after the last byte: when the reader reports it, the reads have returned every byte
      of the whole stream, including messages not delivered yet (there are none with data). */
  lemma EofMeansEverything(c: Compressor, id: u16, uses: seq<Use>, ms: seq<StreamMessage>, k: nat)
    requires DeliversPrefix(uses, ms, k) && k <= |ms| && EofIsLast(ms, id)
    requires forall m :: m in ms ==> m.streamId <= STREAM_ID_MAX && Plain(c, m).Some?
    requires var rx := RunReader(c, id, uses).0; rx.eof && rx.buffer == []
    ensures RunReader(c, id, uses).1 == Carried(c, ms, id)
  {
    ReadsAreTheStream(c, id, uses, ms, k);
    NothingAfterEof(c, ms, id, k);
    var (rx, out) := RunReader(c, id, uses);
    assert out + rx.buffer == out;
  }

  /** What a valid writer has sent meets the conditions of the two theorems above. */
  lemma WritersEndWithEof(c: Compressor, id: u16, sent: seq<StreamMessage>, eofSent: bool)
    requires id <= STREAM_ID_MAX && WellSent(c, id, sent, eofSent)
    ensures EofIsLast(sent, id)
    ensures forall m :: m in sent ==> m.streamId <= STREAM_ID_MAX && Plain(c, m).Some?
  {
  }

  /** `read` answers with an empty result to signal the end. That signal is honest exactly when nothing is buffered;
      a read of length 0 receives it with bytes still waiting once the EOF message is in. */
  lemma EmptyReadSignalsEnd(rx: Rx, max: nat)
    ensures Take(rx, max).1 == Some([]) <==> rx.eof && (rx.buffer == [] || max == 0)
    ensures Take(rx, max).1 == None <==> !rx.eof && (rx.buffer == [] || max == 0)
  {
  }
}
