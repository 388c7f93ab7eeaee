/** The byte streams of channel_buffer.rs on top of a channel session: what is read is what was written. */
module StreamRuns {
  import opened Bytes
  import opened Envelopes
  import opened LinkModel
  import opened InOrder
  import opened EndToEnd
  import Delivery
  import Streams

  type Message = Streams.StreamMessage
  type Compressor = Streams.Compressor

  // ----- writers in a session ---------------------------------------------------------------------------

  /** A session with one writer for each stream id: `written` lists the messages their sends have put into the channel,
      `closed` the ids whose writers are closed. */
  datatype Streaming = Streaming(sys: System, written: seq<Message>, closed: set<u16>)

  /** A writer's `write` or `close`, with what its send meets; or anything else. */
  datatype Act =
    | WriteChunk(id: u16, data: bytes, h: Hash, dispatched: bool, now: real)
    | WriteEnd(id: u16, h: Hash, dispatched: bool, now: real)
    | Other(x: Happening)

  function MessageOf(c: Compressor, a: Act): Message
    requires !a.Other?
  {
    match a
    case WriteChunk(id, data, _, _, _) => Streams.ChunkMessage(c, id, data, false)
    case WriteEnd(id, _, _, _) => Streams.StreamMessage(id, [], true, false)
  }

  function ChannelOf(s: Streaming, a: Act): Streams.Channel
    requires !a.Other?
  {
    Streams.Found(s.sys.tx, a.h, a.dispatched, a.now)
  }

  /** Whether a write or close hands a message to the link at all. */
  predicate Reaches(s: Streaming, a: Act)
    requires !a.Other?
  {
    a.id !in s.closed && s.sys.tx.iface.Some?
  }

  /** What an act is to the session below. */
  function HappeningOf(s: Streaming, a: Act): seq<Happening>
  {
    if a.Other? then [a.x]
    else if Reaches(s, a) then [Send(a.h, a.dispatched, a.now)]
    else []
  }

  /** A message that is taken joins the written ones, just as in `Streams.Writer`. */
  function AfterAct(c: Compressor, s: Streaming, msg: Messages, a: Act): Streaming
  {
    if a.Other? then s.(sys := Happen(s.sys, msg, a.x))
    else
      var m := MessageOf(c, a);
      Streaming(if Reaches(s, a) then AfterSend(s.sys, msg, a.h, a.dispatched, a.now) else s.sys,
                if a.id !in s.closed && Streams.Answer(ChannelOf(s, a), m) == Streams.Taken then s.written + [m] else s.written,
                if a.WriteEnd? then s.closed + {a.id} else s.closed)
  }

  /** The discipline of the session, and `msg` names what is sent: stream messages come from the writers only. */
  predicate Legal(c: Compressor, s: Streaming, msg: Messages, a: Act)
  {
    if a.Other? then
      && Disciplined(s.sys, msg, a.x)
      && (a.x.Send? && !SendAnswer(s.sys, msg, a.x.h, a.x.now).NotReady? ==> msg(s.sys.sent).msgType != Streams.STREAM_DATA)
    else
      && a.id <= Streams.STREAM_ID_MAX
      && (Reaches(s, a) ==>
            && Disciplined(s.sys, msg, Send(a.h, a.dispatched, a.now))
            && (!SendAnswer(s.sys, msg, a.h, a.now).NotReady? ==>
                  NextDraft(s.sys, msg, a.h) == Streams.DraftOf(MessageOf(c, a), a.h)))
  }

  function ActAll(c: Compressor, s: Streaming, msg: Messages, acts: seq<Act>): Streaming
    decreases |acts|
  {
    if acts == [] then s else ActAll(c, AfterAct(c, s, msg, acts[0]), msg, acts[1..])
  }

  predicate AllLegal(c: Compressor, s: Streaming, msg: Messages, acts: seq<Act>)
    decreases |acts|
  {
    acts == [] || (Legal(c, s, msg, acts[0]) && AllLegal(c, AfterAct(c, s, msg, acts[0]), msg, acts[1..]))
  }

  function Happenings(c: Compressor, s: Streaming, msg: Messages, acts: seq<Act>): seq<Happening>
    decreases |acts|
  {
    if acts == [] then [] else HappeningOf(s, acts[0]) + Happenings(c, AfterAct(c, s, msg, acts[0]), msg, acts[1..])
  }

  lemma {:induction false} ActAllJoin(c: Compressor, s: Streaming, msg: Messages, a: seq<Act>, b: seq<Act>)
    ensures ActAll(c, s, msg, a + b) == ActAll(c, ActAll(c, s, msg, a), msg, b)
    ensures AllLegal(c, s, msg, a + b) <==> AllLegal(c, s, msg, a) && AllLegal(c, ActAll(c, s, msg, a), msg, b)
    decreases |a|
  {
    if a == [] {
      assert a + b == b;
    } else {
      assert (a + b)[1..] == a[1..] + b;
      ActAllJoin(c, AfterAct(c, s, msg, a[0]), msg, a[1..], b);
    }
  }

  /** An act is one disciplined happening of the session, or none. */
  lemma ActIsHappening(c: Compressor, s: Streaming, msg: Messages, a: Act, xs: seq<Happening>)
    requires Legal(c, s, msg, a)
    ensures var t := AfterAct(c, s, msg, a).sys;
            && HappenAll(s.sys, msg, HappeningOf(s, a) + xs) == HappenAll(t, msg, xs)
            && (AllDisciplined(t, msg, xs) ==> AllDisciplined(s.sys, msg, HappeningOf(s, a) + xs))
  {
    if HappeningOf(s, a) == [] {
      assert [] + xs == xs;
    } else {
      var x := HappeningOf(s, a)[0];
      assert HappeningOf(s, a) == [x] && ([x] + xs)[1..] == xs;
    }
  }

  /** A run of writers is a disciplined run of the session. */
  lemma {:induction false} ActsAreHappenings(c: Compressor, s: Streaming, msg: Messages, acts: seq<Act>)
    requires AllLegal(c, s, msg, acts)
    ensures ActAll(c, s, msg, acts).sys == HappenAll(s.sys, msg, Happenings(c, s, msg, acts))
    ensures AllDisciplined(s.sys, msg, Happenings(c, s, msg, acts))
    decreases |acts|
  {
    if acts != [] {
      var t := AfterAct(c, s, msg, acts[0]);
      ActsAreHappenings(c, t, msg, acts[1..]);
      ActIsHappening(c, s, msg, acts[0], Happenings(c, t, msg, acts[1..]));
    }
  }

  /** The written messages of one stream. */
  function StreamOf(ms: seq<Message>, id: u16): seq<Message>
  {
    if ms == [] then []
    else
      var last := ms[|ms| - 1];
      StreamOf(ms[..|ms| - 1], id) + if last.streamId == id then [last] else []
  }

  lemma StreamOfSnoc(ms: seq<Message>, m: Message, id: u16)
    ensures StreamOf(ms + [m], id) == StreamOf(ms, id) + if m.streamId == id then [m] else []
  {
    assert (ms + [m])[..|ms|] == ms;
  }

  lemma {:induction false} StreamCarriesSame(c: Compressor, ms: seq<Message>, id: u16)
    ensures Streams.Carried(c, StreamOf(ms, id), id) == Streams.Carried(c, ms, id)
    decreases |ms|
  {
    if ms != [] {
      var init, last := ms[..|ms| - 1], ms[|ms| - 1];
      StreamCarriesSame(c, init, id);
      if last.streamId == id {
        Streams.CarriedSnoc(c, StreamOf(init, id), last, id);
      } else {
        assert StreamOf(ms, id) == StreamOf(init, id);
        assert Streams.Carried(c, ms, id) == Streams.Carried(c, init, id) + [];
      }
    }
  }

  /** An act's effect on the messages of each stream: its own may grow by its message, as `Streams.Writer` says. */
  lemma ActOnStream(c: Compressor, s: Streaming, msg: Messages, a: Act, id: u16)
    ensures var more := !a.Other? && a.id == id && id !in s.closed
                        && Streams.Answer(ChannelOf(s, a), MessageOf(c, a)) == Streams.Taken;
            StreamOf(AfterAct(c, s, msg, a).written, id)
            == StreamOf(s.written, id) + if more then [MessageOf(c, a)] else []
  {
    if !a.Other? {
      StreamOfSnoc(s.written, MessageOf(c, a), id);
    }
  }

  /** The writer of stream `w.streamId` in step with the session. */
  ghost predicate Keeps(w: Streams.Writer, c: Compressor, s: Streaming)
    reads w
  {
    w.Valid() && w.compressor == c && w.sent == StreamOf(s.written, w.streamId) && (w.eofSent <==> w.streamId in s.closed)
  }

  /** A writer object that performs its acts has sent exactly the written messages of its stream. */
  method Perform(w: Streams.Writer, c: Compressor, s: Streaming, ghost msg: Messages, a: Act)
    requires Keeps(w, c, s)
    modifies w
    ensures Keeps(w, c, AfterAct(c, s, msg, a))
  {
    ActOnStream(c, s, msg, a, w.streamId);
    match a
    case WriteChunk(id, data, _, _, _) =>
      if id == w.streamId {
        var r := w.Write(data, ChannelOf(s, a));
      }
    case WriteEnd(id, _, _, _) =>
      if id == w.streamId {
        w.Close(ChannelOf(s, a));
      }
    case Other(_) =>
  }

  // ----- what the channel has accepted ------------------------------------------------------------------

  /** What the handlers of stream messages get out of envelopes that the channel dispatches. */
  function StreamPayloads(es: seq<Envelope>): seq<bytes>
  {
    if es == [] then []
    else
      var last := es[|es| - 1];
      StreamPayloads(es[..|es| - 1]) + if last.msgType == Streams.STREAM_DATA then [last.payload] else []
  }

  /** The stream messages among the first `n` that the sender's channel accepted. */
  function Accepted(msg: Messages, holes: set<nat>, n: nat): seq<bytes>
  {
    if n == 0 then []
    else
      Accepted(msg, holes, n - 1)
      + if n - 1 !in holes && msg(n - 1).msgType == Streams.STREAM_DATA then [msg(n - 1).payload] else []
  }

  function Encodings(ms: seq<Message>): (es: seq<bytes>)
    ensures |es| == |ms| && forall i :: 0 <= i < |ms| ==> es[i] == Streams.Encode(ms[i])
  {
    seq(|ms|, i requires 0 <= i < |ms| => Streams.Encode(ms[i]))
  }

  lemma {:induction false} AcceptedGrows(msg: Messages, holes: set<nat>, k: nat, n: nat)
    requires k <= n
    ensures Accepted(msg, holes, k) <= Accepted(msg, holes, n)
    decreases n
  {
    if k < n {
      AcceptedGrows(msg, holes, k, n - 1);
    }
  }

  lemma {:induction false} AcceptedSame(msg: Messages, holes: set<nat>, more: set<nat>, n: nat)
    requires forall j: nat :: j < n ==> (j in holes <==> j in more)
    ensures Accepted(msg, holes, n) == Accepted(msg, more, n)
  {
    if n > 0 {
      AcceptedSame(msg, holes, more, n - 1);
    }
  }

  /** Up to the first message that failed to be sent, what was accepted is what there is. */
  lemma {:induction false} AcceptedIsSlice(msg: Messages, holes: set<nat>, k: nat)
    requires forall j: nat :: j < k ==> j !in holes
    ensures StreamPayloads(Slice(msg, 0, k)) == Accepted(msg, holes, k)
  {
    if k > 0 {
      AcceptedIsSlice(msg, holes, k - 1);
      var es := Slice(msg, 0, k);
      assert es[..|es| - 1] == Slice(msg, 0, k - 1);
    }
  }

  /** What the receiver of a disciplined session has dispatched of the streams is the beginning of what was accepted. */
  lemma DispatchedOfAccepted(s: System, msg: Messages, xs: seq<Happening>)
    requires Numbered(msg) && Fresh(s) && AllDisciplined(s, msg, xs)
    ensures var t := HappenAll(s, msg, xs);
            && s.rx.chan.dispatched <= t.rx.chan.dispatched
            && StreamPayloads(t.rx.chan.dispatched[|s.rx.chan.dispatched|..]) == Accepted(msg, t.holes, t.r.expected)
            && t.r.expected <= t.sent
  {
    var past := s.rx.chan.dispatched;
    FreshIsSession(s, msg);
    SessionsKeep(s, msg, past, xs);
    var t := HappenAll(s, msg, xs);
    var k := t.r.expected;
    assert forall j: nat :: j < k ==> Has(t.r, j);
    assert k <= t.sent by {
      assert t.sent < k ==> Has(t.r, t.sent);
    }
    assert t.rx.chan.dispatched[|past|..] == Slice(msg, 0, k);
    AcceptedIsSlice(msg, t.holes, k);
  }

  // ----- what was written is what was accepted ----------------------------------------------------------

  /** Written messages can be read, and a stream has ended with its EOF message. */
  ghost predicate Readable(c: Compressor, ms: seq<Message>, closed: set<u16>)
  {
    && (forall i :: 0 <= i < |ms| ==> ms[i].streamId <= Streams.STREAM_ID_MAX && Streams.Plain(c, ms[i]).Some?)
    && (forall i :: 0 <= i < |ms| && ms[i].eof ==> ms[i].streamId in closed)
    && (forall i, j :: 0 <= i < j < |ms| && ms[i].streamId == ms[j].streamId ==> !ms[i].eof)
  }

  /** The messages the writers' sends have put into the channel are those that the channel has accepted. */
  ghost predicate InStep(c: Compressor, s: Streaming, msg: Messages)
  {
    && Readable(c, s.written, s.closed) && Accepted(msg, s.sys.holes, s.sys.sent) == Encodings(s.written)
    && forall j :: j in s.sys.holes ==> j < s.sys.sent
  }

  /** A send uses up no index, or one, which is a hole or not. */
  lemma SendCounts(s: System, msg: Messages, h: Hash, dispatched: bool, now: real)
    ensures var t, answer := AfterSend(s, msg, h, dispatched, now), SendAnswer(s, msg, h, now);
            && t.sent == (if answer.NotReady? then s.sent else s.sent + 1)
            && t.holes == if answer.NotReady? || (answer.Accepted? && dispatched) then s.holes else s.holes + {s.sent}
  {
  }

  lemma AcceptedCounts(msg: Messages, s: System, t: System)
    requires forall j :: j in s.holes ==> j < s.sent
    requires t.sent == s.sent + 1 && t.holes in {s.holes, s.holes + {s.sent}}
    ensures Accepted(msg, t.holes, t.sent) == Accepted(msg, s.holes, s.sent)
              + if t.holes == s.holes && msg(s.sent).msgType == Streams.STREAM_DATA then [msg(s.sent).payload] else []
  {
    AcceptedSame(msg, s.holes, t.holes, s.sent);
    assert t.holes != s.holes ==> s.sent in t.holes;
  }

  /** Whether the link is ready does not depend on the message. */
  lemma ReadyForAny(s: Link, a: Draft, b: Draft, now: real)
    ensures SendMessage(s, a, now).1.NotReady? <==> SendMessage(s, b, now).1.NotReady?
  {
  }

  /** A writer's message is taken exactly when the session below accepts it and an interface takes its packet. */
  lemma TakenIff(c: Compressor, s: Streaming, msg: Messages, a: Act)
    requires !a.Other? && Reaches(s, a) && Legal(c, s, msg, a)
    ensures Streams.Answer(ChannelOf(s, a), MessageOf(c, a)) == Streams.Taken
            <==> SendAnswer(s.sys, msg, a.h, a.now).Accepted? && a.dispatched
  {
    ReadyForAny(s.sys.tx, NextDraft(s.sys, msg, a.h), Streams.DraftOf(MessageOf(c, a), a.h), a.now);
  }

  lemma MessageIsReadable(c: Compressor, a: Act)
    requires Streams.Lossless(c) && !a.Other? && a.id <= Streams.STREAM_ID_MAX
    ensures var m := MessageOf(c, a); m.streamId == a.id && Streams.Plain(c, m).Some? && (m.eof <==> a.WriteEnd?)
  {
    if a.WriteChunk? {
      Streams.ChunkIsGood(c, a.id, a.data, false);
    }
  }

  lemma WrittenStaysReadable(c: Compressor, ms: seq<Message>, closed: set<u16>, m: Message, more: set<u16>)
    requires Readable(c, ms, closed) && closed <= more && m.streamId !in closed
    requires m.streamId <= Streams.STREAM_ID_MAX && Streams.Plain(c, m).Some? && (m.eof ==> m.streamId in more)
    ensures Readable(c, ms + [m], more)
  {
  }

  lemma ActKeepsReadable(c: Compressor, s: Streaming, msg: Messages, a: Act)
    requires Streams.Lossless(c) && Readable(c, s.written, s.closed) && Legal(c, s, msg, a)
    ensures var t := AfterAct(c, s, msg, a); Readable(c, t.written, t.closed)
  {
    if !a.Other? {
      MessageIsReadable(c, a);
      var t := AfterAct(c, s, msg, a);
      if t.written != s.written {
        WrittenStaysReadable(c, s.written, s.closed, MessageOf(c, a), t.closed);
      }
    }
  }

  /** A write or close that reaches the link keeps the two lists alike. */
  lemma SendKeepsLists(c: Compressor, s: Streaming, msg: Messages, a: Act)
    requires !a.Other? && Reaches(s, a) && InStep(c, s, msg) && Legal(c, s, msg, a)
    ensures var t := AfterAct(c, s, msg, a); Accepted(msg, t.sys.holes, t.sys.sent) == Encodings(t.written)
  {
    var t, m := AfterAct(c, s, msg, a), MessageOf(c, a);
    SendCounts(s.sys, msg, a.h, a.dispatched, a.now);
    TakenIff(c, s, msg, a);
    if !SendAnswer(s.sys, msg, a.h, a.now).NotReady? {
      AcceptedCounts(msg, s.sys, t.sys);
      assert s.sys.sent !in s.sys.holes && s.sys.sent in s.sys.holes + {s.sys.sent};
      assert Encodings(s.written + [m]) == Encodings(s.written) + [Streams.Encode(m)];
    }
  }

  lemma OtherKeepsLists(c: Compressor, s: Streaming, msg: Messages, x: Happening)
    requires InStep(c, s, msg) && Legal(c, s, msg, Act.Other(x))
    ensures var t := Happen(s.sys, msg, x); Accepted(msg, t.holes, t.sent) == Encodings(s.written)
  {
    if x.Send? {
      SendCounts(s.sys, msg, x.h, x.dispatched, x.now);
      if !SendAnswer(s.sys, msg, x.h, x.now).NotReady? {
        AcceptedCounts(msg, s.sys, Happen(s.sys, msg, x));
      }
    }
  }

  /** The holes and numbers of an act: nothing below the number reached changes. */
  lemma ActCounts(c: Compressor, s: Streaming, msg: Messages, a: Act)
    ensures var t := AfterAct(c, s, msg, a).sys;
            s.sys.sent <= t.sent <= s.sys.sent + 1 && s.sys.holes <= t.holes
            && (t.holes == s.sys.holes || (t.holes == s.sys.holes + {s.sys.sent} && t.sent == s.sys.sent + 1))
  {
    if a.Other? {
      if a.x.Send? {
        SendCounts(s.sys, msg, a.x.h, a.x.dispatched, a.x.now);
      }
    } else {
      SendCounts(s.sys, msg, a.h, a.dispatched, a.now);
    }
  }

  lemma ActKeepsStep(c: Compressor, s: Streaming, msg: Messages, a: Act)
    requires Streams.Lossless(c) && InStep(c, s, msg) && Legal(c, s, msg, a)
    ensures InStep(c, AfterAct(c, s, msg, a), msg)
  {
    ActKeepsReadable(c, s, msg, a);
    ActCounts(c, s, msg, a);
    if a.Other? {
      OtherKeepsLists(c, s, msg, a.x);
    } else if Reaches(s, a) {
      SendKeepsLists(c, s, msg, a);
    }
  }

  lemma {:induction false} ActsKeepStep(c: Compressor, s: Streaming, msg: Messages, acts: seq<Act>)
    requires Streams.Lossless(c) && InStep(c, s, msg) && AllLegal(c, s, msg, acts)
    ensures InStep(c, ActAll(c, s, msg, acts), msg)
    decreases |acts|
  {
    if acts != [] {
      ActKeepsStep(c, s, msg, acts[0]);
      ActsKeepStep(c, AfterAct(c, s, msg, acts[0]), msg, acts[1..]);
    }
  }

  /** Whatever is done later, nothing becomes a hole, or ceases to be one, below the number reached. */
  lemma {:induction false} ActsKeepHoles(c: Compressor, s: Streaming, msg: Messages, acts: seq<Act>)
    requires forall j :: j in s.sys.holes ==> j < s.sys.sent
    ensures var t := ActAll(c, s, msg, acts).sys;
            s.sys.sent <= t.sent && forall j: nat :: j < s.sys.sent ==> (j in s.sys.holes <==> j in t.holes)
    decreases |acts|
  {
    if acts != [] {
      ActCounts(c, s, msg, acts[0]);
      ActsKeepHoles(c, AfterAct(c, s, msg, acts[0]), msg, acts[1..]);
    }
  }

  // ----- a reader at the other end ----------------------------------------------------------------------

  /** The deliveries of a reader's run. */
  function DeliveredTo(uses: seq<Streams.Use>): seq<bytes>
  {
    if uses == [] then []
    else
      var last := uses[|uses| - 1];
      DeliveredTo(uses[..|uses| - 1]) + if last.Deliver? then [last.payload] else []
  }

  lemma {:induction false} DeliversInOrder(uses: seq<Streams.Use>, ms: seq<Message>)
    requires DeliveredTo(uses) <= Encodings(ms)
    ensures Streams.DeliversPrefix(uses, ms, |DeliveredTo(uses)|)
    decreases |uses|
  {
    if uses != [] {
      var init, last := uses[..|uses| - 1], uses[|uses| - 1];
      if last.Deliver? {
        assert DeliveredTo(uses) == DeliveredTo(init) + [last.payload];
        assert DeliveredTo(init) == DeliveredTo(uses)[..|DeliveredTo(init)|];
      } else {
        assert DeliveredTo(uses) == DeliveredTo(init);
      }
      DeliversInOrder(init, ms);
    }
  }

  lemma {:induction false} CarriedGrows(c: Compressor, ms: seq<Message>, id: u16, k: nat)
    requires k <= |ms|
    ensures Streams.Carried(c, ms[..k], id) <= Streams.Carried(c, ms, id)
    decreases |ms|
  {
    if k < |ms| {
      var init := ms[..|ms| - 1];
      CarriedGrows(c, init, id, k);
      assert init[..k] == ms[..k];
    } else {
      assert ms[..k] == ms;
    }
  }

  /** A reader that is given the first of the written messages. */
  lemma ReadsOfWritten(c: Compressor, id: u16, ms: seq<Message>, closed: set<u16>, uses: seq<Streams.Use>)
    requires Readable(c, ms, closed) && DeliveredTo(uses) <= Encodings(ms)
    ensures var (rx, out) := Streams.RunReader(c, id, uses);
            && out + rx.buffer <= Streams.Carried(c, ms, id)
            && (rx.eof && rx.buffer == [] ==> out == Streams.Carried(c, ms, id))
            && (DeliveredTo(uses) == Encodings(ms) ==>
                  out + rx.buffer == Streams.Carried(c, ms, id) && (rx.eof <==> Streams.HasEof(ms, id)))
  {
    DeliversInOrder(uses, ms);
    var k := |DeliveredTo(uses)|;
    assert forall m :: m in ms ==> m.streamId <= Streams.STREAM_ID_MAX && Streams.Plain(c, m).Some?;
    Streams.ReadsAreTheStream(c, id, uses, ms, k);
    CarriedGrows(c, ms, id, k);
    assert k == |ms| ==> ms[..k] == ms;
    var rx := Streams.RunReader(c, id, uses).0;
    if rx.eof && rx.buffer == [] {
      Streams.EofMeansEverything(c, id, uses, ms, k);
    }
  }

  /** The ends of a fresh session, before anything is written. */
  ghost predicate Starts(s: Streaming)
  {
    Fresh(s.sys) && s.written == [] && s.closed == {}
  }

  /** A reader's run on what its end has dispatched since the start. */
  ghost predicate Reads(s: Streaming, t: Streaming, uses: seq<Streams.Use>)
  {
    var past, all := s.sys.rx.chan.dispatched, t.sys.rx.chan.dispatched;
    past <= all && DeliveredTo(uses) == StreamPayloads(all[|past|..])
  }

  lemma ReadsAccepted(c: Compressor, s: Streaming, msg: Messages, acts: seq<Act>, uses: seq<Streams.Use>)
    requires Streams.Lossless(c) && Numbered(msg) && Starts(s) && AllLegal(c, s, msg, acts)
    requires Reads(s, ActAll(c, s, msg, acts), uses)
    ensures var t := ActAll(c, s, msg, acts);
            InStep(c, t, msg) && t.sys.r.expected <= t.sys.sent
            && DeliveredTo(uses) == Accepted(msg, t.sys.holes, t.sys.r.expected)
  {
    ActsAreHappenings(c, s, msg, acts);
    DispatchedOfAccepted(s.sys, msg, Happenings(c, s, msg, acts));
    ActsKeepStep(c, s, msg, acts);
  }

  /** However messages are lost, repeated and reordered on the way, and whatever the sizes and times of the reads: what a
      reader has read of a stream is a prefix of what its writer has written to it, and all of that once it reports
      the end. */
  lemma ReadsArePrefixOfWrites(c: Compressor, id: u16, s: Streaming, msg: Messages, acts: seq<Act>, uses: seq<Streams.Use>)
    requires Streams.Lossless(c) && Numbered(msg) && Starts(s) && AllLegal(c, s, msg, acts)
    requires Reads(s, ActAll(c, s, msg, acts), uses)
    ensures var t := ActAll(c, s, msg, acts); var (rx, out) := Streams.RunReader(c, id, uses);
            && out + rx.buffer <= Streams.Carried(c, t.written, id)
            && (rx.eof && rx.buffer == [] ==> out == Streams.Carried(c, t.written, id))
  {
    var t := ActAll(c, s, msg, acts);
    ReadsAccepted(c, s, msg, acts, uses);
    AcceptedGrows(msg, t.sys.holes, t.sys.r.expected, t.sys.sent);
    ReadsOfWritten(c, id, t.written, t.closed, uses);
  }

  /** A hole stays, and so does what was accepted before it. */
  lemma HoleStays(c: Compressor, s: Streaming, msg: Messages, before: seq<Act>, a: Act, behind: seq<Act>)
    requires Streams.Lossless(c) && InStep(c, s, msg) && AllLegal(c, s, msg, before + ([a] + behind))
    requires var t := ActAll(c, s, msg, before); t.sys.sent in AfterAct(c, t, msg, a).sys.holes
    ensures var t, end := ActAll(c, s, msg, before).sys, ActAll(c, s, msg, before + ([a] + behind)).sys;
            t.sent in end.holes && Accepted(msg, end.holes, t.sent) == Accepted(msg, t.holes, t.sent)
  {
    var t := ActAll(c, s, msg, before);
    ActAllJoin(c, s, msg, before, [a] + behind);
    assert ([a] + behind)[1..] == behind;
    ActsKeepStep(c, s, msg, before);
    ActCounts(c, t, msg, a);
    ActsKeepHoles(c, t, msg, [a] + behind);
    ActsKeepHoles(c, AfterAct(c, t, msg, a), msg, behind);
    AcceptedSame(msg, t.sys.holes, ActAll(c, t, msg, [a] + behind).sys.holes, t.sys.sent);
  }

  /** A write whose message is too long for the link, or which no interface takes, is the end of every stream of the session:
      of what is written afterwards nothing is ever read. */
  lemma FailedWriteEndsEveryStream(c: Compressor, id: u16, s: Streaming, msg: Messages, before: seq<Act>, a: Act,
                                   behind: seq<Act>, uses: seq<Streams.Use>)
    requires Streams.Lossless(c) && Numbered(msg) && Starts(s) && AllLegal(c, s, msg, before + ([a] + behind))
    requires Reads(s, ActAll(c, s, msg, before + ([a] + behind)), uses)
    requires var t := ActAll(c, s, msg, before); t.sys.sent in AfterAct(c, t, msg, a).sys.holes
    ensures var (rx, out) := Streams.RunReader(c, id, uses);
            out + rx.buffer <= Streams.Carried(c, ActAll(c, s, msg, before).written, id)
  {
    var acts, t, end := before + ([a] + behind), ActAll(c, s, msg, before), ActAll(c, s, msg, before + ([a] + behind));
    ActsKeepStep(c, s, msg, before) by {
      ActAllJoin(c, s, msg, before, [a] + behind);
    }
    HoleStays(c, s, msg, before, a, behind);
    ReadsAccepted(c, s, msg, acts, uses);
    ActsAreHappenings(c, s, msg, acts);
    FailedSendBlocksTheChannel(s.sys, msg, Happenings(c, s, msg, acts), t.sys.sent);
    AcceptedGrows(msg, end.sys.holes, end.sys.r.expected, t.sys.sent);
    ReadsOfWritten(c, id, t.written, t.closed, uses);
  }

  /** Over a ready link a write does that exactly when its chunk has more than 407 bytes or no interface takes the packet. */
  lemma WriteFailsIff(c: Compressor, s: Streaming, msg: Messages, a: Act)
    requires a.WriteChunk? && Reaches(s, a) && InStep(c, s, msg) && Legal(c, s, msg, a)
    requires Streams.Ready(Streams.Found(s.sys.tx, a.h, true, a.now))
    ensures s.sys.sent in AfterAct(c, s, msg, a).sys.holes <==> !Streams.ShortChunk(c, a.data) || !a.dispatched
  {
    var m := MessageOf(c, a);
    Streams.NextChunkTakenIff(c, a.id, a.data, Streams.Found(s.sys.tx, a.h, true, a.now));
    SendCounts(s.sys, msg, a.h, a.dispatched, a.now);
    ReadyForAny(s.sys.tx, NextDraft(s.sys, msg, a.h), Streams.DraftOf(m, a.h), a.now);
  }

  /** And nothing is missing in the end: if the link stayed open, no message left a hole and nothing is outstanding any more,
      then a reader that was given everything its end has dispatched has all that was written, and knows of the end of
      the stream exactly if its EOF message was. */
  lemma WholeStreamsArrive(c: Compressor, id: u16, s: Streaming, msg: Messages, acts: seq<Act>, uses: seq<Streams.Use>)
    requires Streams.Lossless(c) && Numbered(msg) && Starts(s) && AllLegal(c, s, msg, acts)
    requires Delivery.AllUndisturbed(s.sys, msg, Happenings(c, s, msg, acts))
    requires var t := ActAll(c, s, msg, acts);
             Reads(s, t, uses) && t.sys.holes == {} && t.sys.tx.chan.pending == map[]
    ensures var t := ActAll(c, s, msg, acts); var (rx, out) := Streams.RunReader(c, id, uses);
            out + rx.buffer == Streams.Carried(c, t.written, id) && (rx.eof <==> Streams.HasEof(t.written, id))
  {
    var t, past := ActAll(c, s, msg, acts), s.sys.rx.chan.dispatched;
    ActsAreHappenings(c, s, msg, acts);
    ActsKeepStep(c, s, msg, acts);
    Delivery.EverythingIsDelivered(s.sys, msg, Happenings(c, s, msg, acts), t.sys.sent);
    assert t.sys.rx.chan.dispatched[|past|..] == Slice(msg, 0, t.sys.sent);
    AcceptedIsSlice(msg, t.sys.holes, t.sys.sent);
    ReadsOfWritten(c, id, t.written, t.closed, uses);
  }
}
