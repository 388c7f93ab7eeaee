/** What a sender can count on: when its retransmission loop has run, every message it sent is settled, and on a link that
    stayed open without holes all of them were delivered and dispatched. */
module Delivery {
  import opened Bytes
  import opened Envelopes
  import opened LinkModel
  import opened LinkRuns
  import opened InOrder
  import opened EndToEnd
  import Retry

  // ----- the sender's own events ------------------------------------------------------------------------

  /** What one happening means to the sending link. */
  function TxEventsOf(s: System, msg: Messages, x: Happening): seq<Event>
  {
    match x
    case Send(h, dispatched, now) =>
      var answer := SendAnswer(s, msg, h, now);
      [DoSend(NextDraft(s, msg, h), now)]
      + if answer.Accepted? && !dispatched then [DoMarkFailed(answer.sequence, Some(h))] else []
    case FrameArrives(_, _, _) => []
    case ProofArrives(h, iface, now) => if h in s.proofs then [DoPacket(ProofPacket(s.tx.id, h), iface, now)] else []
    case SenderDoes(e) => [e]
    case ReceiverDoes(_) => []
  }

  function TxEvents(s: System, msg: Messages, xs: seq<Happening>): seq<Event>
    decreases |xs|
  {
    if xs == [] then [] else TxEventsOf(s, msg, xs[0]) + TxEvents(Happen(s, msg, xs[0]), msg, xs[1..])
  }

  lemma RunSnoc(s: Link, es: seq<Event>, e: Event)
    ensures Run(s, es + [e]) == Step(Run(s, es), e)
  {
    assert (es + [e])[..|es|] == es;
  }

  lemma {:induction false} RunAppend(s: Link, a: seq<Event>, b: seq<Event>)
    ensures Run(s, a + b) == Run(Run(s, a), b)
    decreases |b|
  {
    if b == [] {
      assert a + b == a;
    } else {
      var init, last := b[..|b| - 1], b[|b| - 1];
      RunAppend(s, a, init);
      RunSnoc(s, a + init, last);
      assert (a + init) + [last] == a + b;
    }
  }

  lemma RunOne(s: Link, e: Event)
    ensures Run(s, [e]) == Step(s, e)
  {
    RunSnoc(s, [], e);
    assert [] + [e] == [e];
  }

  lemma SendRuns(s: System, msg: Messages, h: Hash, dispatched: bool, now: real)
    ensures AfterSend(s, msg, h, dispatched, now).tx == Run(s.tx, TxEventsOf(s, msg, Send(h, dispatched, now)))
  {
    var e, answer := DoSend(NextDraft(s, msg, h), now), SendAnswer(s, msg, h, now);
    RunOne(s.tx, e);
    if answer.Accepted? && !dispatched {
      RunSnoc(s.tx, [e], DoMarkFailed(answer.sequence, Some(h)));
    } else {
      assert [e] + [] == [e];
    }
  }

  lemma HappeningRuns(s: System, msg: Messages, x: Happening)
    ensures Happen(s, msg, x).tx == Run(s.tx, TxEventsOf(s, msg, x))
  {
    match x
    case Send(h, dispatched, now) => SendRuns(s, msg, h, dispatched, now);
    case ProofArrives(h, iface, now) =>
      if h in s.proofs {
        RunOne(s.tx, DoPacket(ProofPacket(s.tx.id, h), iface, now));
      }
    case SenderDoes(e) => RunOne(s.tx, e);
    case _ =>
  }

  /** The sending link of a session goes through a run of its own events. */
  lemma {:induction false} SenderRuns(s: System, msg: Messages, xs: seq<Happening>)
    ensures HappenAll(s, msg, xs).tx == Run(s.tx, TxEvents(s, msg, xs))
    decreases |xs|
  {
    if xs != [] {
      var t := Happen(s, msg, xs[0]);
      HappeningRuns(s, msg, xs[0]);
      SenderRuns(t, msg, xs[1..]);
      RunAppend(s.tx, TxEventsOf(s, msg, xs[0]), TxEvents(t, msg, xs[1..]));
    }
  }

  // ----- nothing is lost sight of -----------------------------------------------------------------------

  /** The link stays open, and no message is given up from outside. */
  predicate Undisturbed(s: System, msg: Messages, x: Happening)
  {
    Happen(s, msg, x).tx.status != Closed && !(x.SenderDoes? && x.e.DoMarkFailed?)
  }

  predicate AllUndisturbed(s: System, msg: Messages, xs: seq<Happening>)
    decreases |xs|
  {
    xs == [] || (Undisturbed(s, msg, xs[0]) && AllUndisturbed(Happen(s, msg, xs[0]), msg, xs[1..]))
  }

  predicate Outstands(s: System, j: nat)
  {
    exists h :: h in s.tx.chan.pending && h in s.frames && s.frames[h] == j
  }

  /** Every message that left no hole is proved or outstanding. */
  ghost predicate Complete(s: System)
  {
    forall j: nat :: j < s.sent && j !in s.holes ==> j in s.delivered || Outstands(s, j)
  }

  lemma QuietKeepsPending(s: Link, e: Event)
    requires s.status in {Active, Stale} && SenderMay(e) && !e.DoMarkFailed? && Step(s, e).status != Closed
    ensures Step(s, e).chan.pending.Keys == s.chan.pending.Keys
  {
    match e
    case DoPacket(p, iface, now) => QuietPacketKeepsPending(s, p, iface, now);
    case DoPoll(now) => PollKeepsPending(s, now);
    case _ =>
  }

  lemma QuietPacketKeepsPending(s: Link, p: Incoming, iface: Iface, now: real)
    requires p.kind != Proof && HandlePacket(s, p, iface, now).0.status != Closed
    ensures HandlePacket(s, p, iface, now).0.chan.pending == s.chan.pending
  {
    NoteInboundOnlyClock(s, p.context, now);
    if p.kind == Data && p.context == ChannelData && p.plain.Some? {
      ReceiveOnlyReceives(s.chan, p.plain.value);
    }
  }

  lemma PollKeepsPending(s: Link, now: real)
    requires Poll(s, now).0.status != Closed
    ensures Poll(s, now).0.chan.pending.Keys == s.chan.pending.Keys
  {
  }

  /** The packets in flight and the indices proved say all there is to know. */
  lemma CompleteStays(s: System, t: System)
    requires Complete(s) && t.sent == s.sent && t.holes == s.holes && t.frames == s.frames && s.delivered <= t.delivered
    requires forall h :: h in s.tx.chan.pending && h in s.frames ==> h in t.tx.chan.pending || s.frames[h] in t.delivered
    ensures Complete(t)
  {
    forall j: nat | j < t.sent && j !in t.holes
      ensures j in t.delivered || Outstands(t, j)
    {
      if j !in s.delivered {
        var h :| h in s.tx.chan.pending && h in s.frames && s.frames[h] == j;
      }
    }
  }

  lemma CompleteBehindSend(s: System, t: System, h: Hash)
    requires Complete(s) && t.sent == s.sent + 1 && t.delivered == s.delivered
    requires || (t.holes == s.holes + {s.sent} && t.frames == s.frames)
             || (t.holes == s.holes && h !in s.frames && t.frames == s.frames[h := s.sent] && h in t.tx.chan.pending)
    requires s.tx.chan.pending.Keys <= t.tx.chan.pending.Keys
    ensures Complete(t)
  {
    forall j: nat | j < t.sent && j !in t.holes
      ensures j in t.delivered || Outstands(t, j)
    {
      if j == s.sent {
        assert h in t.frames && t.frames[h] == j;
      } else if j !in s.delivered {
        var k :| k in s.tx.chan.pending && k in s.frames && s.frames[k] == j;
        assert k in t.frames && t.frames[k] == j;
      }
    }
  }

  lemma SendKeepsComplete(s: System, msg: Messages, h: Hash, dispatched: bool, now: real)
    requires Complete(s) && Disciplined(s, msg, Send(h, dispatched, now))
    ensures Complete(AfterSend(s, msg, h, dispatched, now))
  {
    var t := AfterSend(s, msg, h, dispatched, now);
    SendEffect(s.tx, NextDraft(s, msg, h), now);
    match SendAnswer(s, msg, h, now) {
      case NotReady => CompleteStays(s, t);
      case TooLarge => CompleteBehindSend(s, t, h);
      case Accepted(_, _) =>
        if !dispatched {
          UndispatchedAfter(s, msg, h, now);
        }
        CompleteBehindSend(s, t, h);
    }
  }

  lemma ProofKeepsComplete(s: System, h: Hash, iface: Iface, now: real)
    requires Complete(s) && SenderOk(s)
    ensures Complete(AfterProof(s, h, iface, now))
  {
    if h in s.proofs {
      ProofEffect(s.tx, h, iface, now);
      CompleteStays(s, AfterProof(s, h, iface, now));
    }
  }

  lemma HappenKeepsComplete(s: System, msg: Messages, past: seq<Envelope>, x: Happening)
    requires Session(s, msg, past) && Complete(s) && s.tx.status != Closed
    requires Disciplined(s, msg, x) && Undisturbed(s, msg, x)
    ensures Complete(Happen(s, msg, x))
  {
    match x
    case Send(h, dispatched, now) => SendKeepsComplete(s, msg, h, dispatched, now);
    case FrameArrives(_, _, _) => CompleteStays(s, Happen(s, msg, x));
    case ProofArrives(h, iface, now) => ProofKeepsComplete(s, h, iface, now);
    case SenderDoes(e) =>
      QuietKeepsPending(s.tx, e);
      CompleteStays(s, Happen(s, msg, x));
    case ReceiverDoes(_) => CompleteStays(s, Happen(s, msg, x));
  }

  lemma {:induction false} CompleteKeeps(s: System, msg: Messages, past: seq<Envelope>, xs: seq<Happening>)
    requires Numbered(msg) && Session(s, msg, past) && Complete(s) && s.tx.status != Closed
    requires AllDisciplined(s, msg, xs) && AllUndisturbed(s, msg, xs)
    ensures Complete(HappenAll(s, msg, xs))
    decreases |xs|
  {
    if xs != [] {
      HappenKeepsSession(s, msg, past, xs[0]);
      HappenKeepsComplete(s, msg, past, xs[0]);
      CompleteKeeps(Happen(s, msg, xs[0]), msg, past, xs[1..]);
    }
  }

  /** A link that stayed open and has nothing outstanding has delivered everything up to its first hole, and the receiver
      has dispatched it: all `n` messages, if there is no hole below `n`. */
  lemma EverythingIsDelivered(s: System, msg: Messages, xs: seq<Happening>, n: nat)
    requires Numbered(msg) && Fresh(s) && AllDisciplined(s, msg, xs) && AllUndisturbed(s, msg, xs)
    requires var t := HappenAll(s, msg, xs);
             t.tx.chan.pending == map[] && n <= t.sent && forall j: nat :: j < n ==> j !in t.holes
    ensures var t := HappenAll(s, msg, xs);
            && (forall j: nat :: j < n ==> j in t.delivered)
            && s.rx.chan.dispatched + Slice(msg, 0, n) <= t.rx.chan.dispatched
            && (n == t.sent ==> t.rx.chan.dispatched == s.rx.chan.dispatched + Slice(msg, 0, n))
  {
    var past, t := s.rx.chan.dispatched, HappenAll(s, msg, xs);
    FreshIsSession(s, msg);
    SessionsKeep(s, msg, past, xs);
    CompleteKeeps(s, msg, past, xs);
    assert forall j: nat :: j < n ==> !Outstands(t, j);
    AllHadIsExpected(t, msg, past, n);
    SliceAfter(msg, past, n, t.r.expected);
  }

  lemma AllHadIsExpected(t: System, msg: Messages, past: seq<Envelope>, n: nat)
    requires Session(t, msg, past) && n <= t.sent && forall j: nat :: j < n ==> j in t.delivered
    ensures n <= t.r.expected <= t.sent
  {
    assert !Has(t.r, t.r.expected);
    assert t.sent < t.r.expected ==> Has(t.r, t.sent);
  }

  // ----- every message is settled -----------------------------------------------------------------------

  lemma FreshLedger(s: System)
    requires Fresh(s)
    ensures Ledger(s.tx.chan)
  {
  }

  /** When, after the last send, the retransmission loop has run late enough more often than retries were left, nothing is
      outstanding, and the sender has a verdict on every message it sent, Delivered or Failed. If the link stayed open
      and the messages left no hole, all of them are delivered, and the receiver has dispatched them all, in order. */
  lemma EveryMessageIsSettled(s: System, msg: Messages, xs: seq<Happening>, ys: seq<Happening>)
    requires Numbered(msg) && Fresh(s) && Consistent(s.tx) && AllDisciplined(s, msg, xs + ys)
    requires OwedAll(s.tx, TxEvents(s, msg, xs + ys))
    requires var t := HappenAll(s, msg, xs);
             && Retry.NoNewSends(t.tx, TxEvents(t, msg, ys))
             && Retry.LatePolls(t.tx, TxEvents(t, msg, ys)) > Retry.RetriesLeft(t.tx.chan.pending)
    ensures var u := HappenAll(s, msg, xs + ys);
            && u.tx.chan.pending == map[]
            && (forall q :: q in AcceptedIn(s.tx, TxEvents(s, msg, xs + ys)) ==>
                  q in u.tx.chan.states && u.tx.chan.states[q] in {Delivered, Failed})
            && (AllUndisturbed(s, msg, xs + ys) && u.holes == {} ==>
                  && (forall j: nat :: j < u.sent ==> j in u.delivered)
                  && u.rx.chan.dispatched == s.rx.chan.dispatched + Slice(msg, 0, u.sent))
  {
    var t, u := HappenAll(s, msg, xs), HappenAll(s, msg, xs + ys);
    HappenAllJoin(s, msg, xs, ys);
    SenderRuns(s, msg, xs);
    SenderRuns(t, msg, ys);
    ReachableConsistent(s.tx, TxEvents(s, msg, xs));
    Retry.LatePollsSettle(t.tx, TxEvents(t, msg, ys));
    SenderRuns(s, msg, xs + ys);
    FreshLedger(s);
    forall q | q in AcceptedIn(s.tx, TxEvents(s, msg, xs + ys))
      ensures q in u.tx.chan.states && u.tx.chan.states[q] in {Delivered, Failed}
    {
      AcceptedMessagesAccountedFor(s.tx, TxEvents(s, msg, xs + ys), q);
    }
    if AllUndisturbed(s, msg, xs + ys) && u.holes == {} {
      EverythingIsDelivered(s, msg, xs + ys, u.sent);
    }
  }
}
