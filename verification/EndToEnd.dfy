/** Sender, receiver and a network that loses, repeats and reorders: what a `Delivered` verdict is worth.

    The application sends message `msg(0)`, `msg(1)`, ..; every copy of a frame or proof that was ever put on
    the network stays there, so it may arrive any number of times, in any order, or never. A message that does not fit
    a packet, and one that no interface takes, uses up its index all the same: it leaves a hole. */
module EndToEnd {
  import opened Bytes
  import opened Envelopes
  import opened FlowControl
  import opened LinkModel
  import opened LinkRuns
  import opened InOrder

  /** Both ends and the network. `sent` counts the sequence numbers used up, `holes` those used by failed sends,
      `frames` gives the index of every channel packet on the network, `delivered` the indices proved to the sender. */
  datatype System = System(
    tx: Link, rx: Link, sent: nat, holes: set<nat>, frames: map<Hash, nat>, proofs: set<Hash>, r: Rx, delivered: set<nat>)

  datatype Happening =
    | Send(h: Hash, dispatched: bool, now: real)
    | FrameArrives(h: Hash, iface: Iface, now: real)
    | ProofArrives(h: Hash, iface: Iface, now: real)
    | SenderDoes(e: Event)
    | ReceiverDoes(e: Event)

  function FramePacket(dest: LinkId, h: Hash, e: Envelope): Incoming
  {
    Incoming(dest, Data, ChannelData, h, [], Some(Pack(e)), false, None, None, false)
  }

  function ProofPacket(dest: LinkId, h: Hash): Incoming
  {
    Incoming(dest, Proof, LinkProof, 0, [], None, false, None, Some(h), false)
  }

  function NextDraft(s: System, msg: Messages, h: Hash): Draft
  {
    Draft(msg(s.sent).msgType, msg(s.sent).payload, h)
  }

  /** What the link answers to the next message. */
  function SendAnswer(s: System, msg: Messages, h: Hash, now: real): SendResult
  {
    SendMessage(s.tx, NextDraft(s, msg, h), now).1
  }

  /** The application sends its next message; a packet that no interface takes is marked as failed at once. */
  function AfterSend(s: System, msg: Messages, h: Hash, dispatched: bool, now: real): System
  {
    var t := SendMessage(s.tx, NextDraft(s, msg, h), now);
    match t.1
    case NotReady => s.(tx := t.0)
    case TooLarge => s.(tx := t.0, sent := s.sent + 1, holes := s.holes + {s.sent})
    case Accepted(q, _) =>
      if dispatched then s.(tx := t.0, sent := s.sent + 1, frames := s.frames[h := s.sent])
      else s.(tx := MarkFailed(t.0, q, Some(h)), sent := s.sent + 1, holes := s.holes + {s.sent})
  }

  function AfterFrame(s: System, msg: Messages, h: Hash, iface: Iface, now: real): System
  {
    if h !in s.frames then s
    else
      var t := HandlePacket(s.rx, FramePacket(s.rx.id, h, msg(s.frames[h])), iface, now);
      s.(rx := t.0,
         proofs := if t.1.Proved? then s.proofs + {t.1.hash} else s.proofs,
         r := if t.1.Proved? then Arrive(s.r, s.frames[h]) else s.r)
  }

  function AfterProof(s: System, h: Hash, iface: Iface, now: real): System
  {
    if h !in s.proofs then s
    else
      var t := HandlePacket(s.tx, ProofPacket(s.tx.id, h), iface, now).0;
      s.(tx := t, delivered := if h in s.tx.chan.pending && h !in t.chan.pending && h in s.frames
                               then s.delivered + {s.frames[h]} else s.delivered)
  }

  function Happen(s: System, msg: Messages, x: Happening): System
  {
    match x
    case Send(h, dispatched, now) => AfterSend(s, msg, h, dispatched, now)
    case FrameArrives(h, iface, now) => AfterFrame(s, msg, h, iface, now)
    case ProofArrives(h, iface, now) => AfterProof(s, h, iface, now)
    case SenderDoes(e) => s.(tx := Step(s.tx, e))
    case ReceiverDoes(e) => s.(rx := Step(s.rx, e))
  }

  /** Everything else an open session's sender may do; sends and proofs have their own happenings. */
  predicate SenderMay(e: Event)
  {
    !e.DoSend? && !e.DoRequest? && !e.DoProve? && !e.DoRestart? && !(e.DoPacket? && e.p.kind == Proof)
  }

  /** Everything else the receiver may do short of ending the session. */
  predicate ReceiverMay(s: Link, e: Event)
  {
    && !e.DoRequest? && !e.DoProve? && !e.DoRestart? && !(e.DoPacket? && e.p.context == ChannelData)
    && Step(s, e).status in {Active, Stale}
  }

  /** What the session asks of its environment: fresh packet hashes; each accepted index at most 47 ahead of the
      receiver; no copy so old (65488 indices or more behind) that its number looks as if it were in the window; and for a
      message no interface took, that the number marked as failed is its own. */
  predicate Disciplined(s: System, msg: Messages, x: Happening)
  {
    match x
    case Send(h, dispatched, now) =>
      SendAnswer(s, msg, h, now).Accepted? ==>
        h !in s.frames && if dispatched then s.sent < s.r.expected + RX_WINDOW else FreshSend(s.tx.chan, h)
    case FrameArrives(h, _, _) => h in s.frames ==> Tellable(s.frames[h], s.r.expected)
    case ProofArrives(_, _, _) => true
    case SenderDoes(e) => SenderMay(e)
    case ReceiverDoes(e) => ReceiverMay(s.rx, e)
  }

  ghost predicate SenderOk(s: System)
  {
    && s.tx.status in {Active, Stale, Closed}
    && (s.tx.status != Closed ==> s.tx.chan.nextTx == Key(s.sent))
    && (forall j :: j in s.holes ==> j < s.sent)
    && (forall h :: h in s.frames ==> s.frames[h] < s.sent && s.frames[h] !in s.holes && s.frames[h] < s.r.expected + RX_WINDOW)
    && (forall h :: h in s.tx.chan.pending ==> h in s.frames && s.tx.chan.pending[h].sequence == Key(s.frames[h]))
  }

  ghost predicate ReceiverOk(s: System, msg: Messages, past: seq<Envelope>)
  {
    && s.rx.status in {Active, Stale}
    && Receiving(s.rx.chan, s.r, msg, past) && !Has(s.r, s.r.expected)
    && (forall j: nat :: Has(s.r, j) ==> j < s.sent && j !in s.holes)
  }

  ghost predicate VerdictsOk(s: System)
  {
    && (forall h :: h in s.proofs ==> h in s.frames && Has(s.r, s.frames[h]))
    && (forall j :: j in s.delivered ==> Has(s.r, j))
    && (forall q :: IsDelivered(s.tx.chan.states, q) ==> exists j :: j in s.delivered && Key(j) == q)
  }

  /** Only what fits a packet is on the network. */
  ghost predicate FramesFit(s: System, msg: Messages)
  {
    forall h :: h in s.frames ==> FitsPacket(msg(s.frames[h]).payload)
  }

  ghost predicate Session(s: System, msg: Messages, past: seq<Envelope>)
  {
    SenderOk(s) && ReceiverOk(s, msg, past) && VerdictsOk(s) && FramesFit(s, msg)
  }

  // ----- one happening ----------------------------------------------------------------------------------

  lemma QuietSender(s: Link, e: Event)
    requires s.status in {Active, Stale, Closed} && SenderMay(e)
    ensures var t := Step(s, e);
            && t.status in {Active, Stale, Closed}
            && (t.status != Closed ==> s.status != Closed && t.chan.nextTx == s.chan.nextTx)
            && (forall h :: h in t.chan.pending ==>
                  h in s.chan.pending && t.chan.pending[h].sequence == s.chan.pending[h].sequence)
            && (forall q :: IsDelivered(t.chan.states, q) ==> IsDelivered(s.chan.states, q))
  {
    forall q | IsDelivered(Step(s, e).chan.states, q) ensures IsDelivered(s.chan.states, q) {
      StepVerdict(s, e, q);
    }
    if e.DoPacket? { QuietPacket(s, e.p, e.iface, e.now); }
  }

  lemma QuietPacket(s: Link, p: Incoming, iface: Iface, now: real)
    requires s.status in {Active, Stale, Closed} && p.kind != Proof
    ensures var t := HandlePacket(s, p, iface, now).0;
            && t.status in {Active, Stale, Closed}
            && (t.status != Closed ==> s.status != Closed && t.chan.nextTx == s.chan.nextTx)
            && t.chan.pending in {s.chan.pending, map[]}
  {
    if p.kind == Data {
      var u, t := NoteInbound(s, p.context, now), HandleData(s, p, now).0;
      assert t == Finalize(u) || (t.status == u.status && t.chan.nextTx == u.chan.nextTx && t.chan.pending == u.chan.pending);
    }
  }

  lemma QuietReceiver(s: Link, e: Event)
    requires s.status in {Active, Stale} && ReceiverMay(s, e)
    ensures var c := Step(s, e).chan; c.ring == s.chan.ring && c.nextRx == s.chan.nextRx && c.dispatched == s.chan.dispatched
  {
    match e
    case DoPacket(p, iface, now) => QuietReceiverPacket(s, p, iface, now);
    case DoPoll(now) => QuietReceiverPoll(s, now);
    case DoWatchdog(initiator, built, now) => QuietReceiverWatchdog(s, initiator, built, now);
    case _ =>
  }

  lemma QuietReceiverPacket(s: Link, p: Incoming, iface: Iface, now: real)
    requires p.context != ChannelData && HandlePacket(s, p, iface, now).0.status != Closed
    ensures var c := HandlePacket(s, p, iface, now).0.chan;
            c.ring == s.chan.ring && c.nextRx == s.chan.nextRx && c.dispatched == s.chan.dispatched
  {
    if p.kind == Data {
      QuietReceiverData(s, p, now);
    }
  }

  lemma QuietReceiverData(s: Link, p: Incoming, now: real)
    requires p.context != ChannelData
    ensures var u, t := NoteInbound(s, p.context, now), HandleData(s, p, now).0; t.chan == s.chan || t == Finalize(u)
  {
  }

  lemma QuietReceiverPoll(s: Link, now: real)
    requires Poll(s, now).0.status != Closed
    ensures var c := Poll(s, now).0.chan;
            c.ring == s.chan.ring && c.nextRx == s.chan.nextRx && c.dispatched == s.chan.dispatched
  {
  }

  lemma QuietReceiverWatchdog(s: Link, initiator: bool, built: bool, now: real)
    requires CheckWatchdog(s, initiator, built, now).0.status != Closed
    ensures CheckWatchdog(s, initiator, built, now).0.chan == s.chan
  {
  }

  lemma SendKeepsSession(s: System, msg: Messages, past: seq<Envelope>, h: Hash, dispatched: bool, now: real)
    requires Session(s, msg, past) && Disciplined(s, msg, Send(h, dispatched, now))
    ensures Session(AfterSend(s, msg, h, dispatched, now), msg, past)
  {
    var t := AfterSend(s, msg, h, dispatched, now);
    SendKeepsSender(s, msg, h, dispatched, now);
    SendKeepsReceiver(s, t, msg, past);
    SendVerdicts(s, msg, h, dispatched, now);
    forall q | IsDelivered(t.tx.chan.states, q) ensures exists j :: j in t.delivered && Key(j) == q {
      assert IsDelivered(s.tx.chan.states, q);
    }
  }

  /** A send settles nothing, and puts on the network only what fits. */
  lemma SendVerdicts(s: System, msg: Messages, h: Hash, dispatched: bool, now: real)
    ensures var t := AfterSend(s, msg, h, dispatched, now);
            && (forall q :: IsDelivered(t.tx.chan.states, q) ==> IsDelivered(s.tx.chan.states, q))
            && t.proofs == s.proofs && t.delivered == s.delivered && t.r == s.r && t.rx == s.rx
            && (t.frames == s.frames || (t.frames == s.frames[h := s.sent] && FitsPacket(msg(s.sent).payload)))
  {
    SendEffect(s.tx, NextDraft(s, msg, h), now);
  }

  /** The bookkeeping of a send, apart from how the link computes it. */
  lemma SentKeepsSender(s: System, t: System)
    requires SenderOk(s) && s.tx.status == Active && t.tx.status == Active
    requires t.r == s.r && t.sent == s.sent + 1 && t.tx.chan.nextTx == Key(t.sent)
    requires forall j :: j in t.holes ==> j in s.holes || (j == s.sent && t.frames == s.frames)
    requires forall h :: h in t.frames ==> (h in s.frames && t.frames[h] == s.frames[h])
                                           || (t.frames[h] == s.sent && s.sent < s.r.expected + RX_WINDOW && t.holes == s.holes)
    requires t.tx.chan.pending.Keys <= t.frames.Keys
    requires forall h :: h in t.tx.chan.pending ==>
               || (h in s.tx.chan.pending && t.tx.chan.pending[h] == s.tx.chan.pending[h] && t.frames[h] == s.frames[h])
               || (t.frames[h] == s.sent && t.tx.chan.pending[h].sequence == Key(s.sent))
    ensures SenderOk(t)
  {
  }

  lemma SendKeepsSender(s: System, msg: Messages, h: Hash, dispatched: bool, now: real)
    requires SenderOk(s) && Disciplined(s, msg, Send(h, dispatched, now))
    ensures SenderOk(AfterSend(s, msg, h, dispatched, now))
  {
    var m := NextDraft(s, msg, h);
    SendEffect(s.tx, m, now);
    var t, r := AfterSend(s, msg, h, dispatched, now), SendMessage(s.tx, m, now).1;
    KeyNext(s.sent);
    if r.NotReady? {
      assert t == s.(tx := t.tx);
    } else if r.Accepted? && !dispatched {
      UndispatchedAfter(s, msg, h, now);
      HoleKeepsSender(s, t);
    } else {
      SentKeepsSender(s, t);
    }
  }

  /** What a message that no interface takes leaves behind. */
  lemma UndispatchedAfter(s: System, msg: Messages, h: Hash, now: real)
    requires SendAnswer(s, msg, h, now).Accepted? && FreshSend(s.tx.chan, h)
    ensures var t := AfterSend(s, msg, h, false, now);
            && t == s.(tx := t.tx, sent := s.sent + 1, holes := s.holes + {s.sent})
            && t.tx.status == Active && t.tx.chan.pending == s.tx.chan.pending
            && t.tx.chan.nextTx == Next16(s.tx.chan.nextTx)
            && t.tx.chan.states == s.tx.chan.states[s.tx.chan.nextTx := Failed]
  {
    UndispatchedEffect(s.tx, NextDraft(s, msg, h), now);
  }

  lemma HoleKeepsSender(s: System, t: System)
    requires SenderOk(s) && s.tx.status == Active && t.tx.status == Active
    requires t == s.(tx := t.tx, sent := s.sent + 1, holes := s.holes + {s.sent})
    requires t.tx.chan.pending == s.tx.chan.pending && t.tx.chan.nextTx == Next16(s.tx.chan.nextTx)
    ensures SenderOk(t)
  {
    KeyNext(s.sent);
  }

  lemma SendKeepsReceiver(s: System, t: System, msg: Messages, past: seq<Envelope>)
    requires ReceiverOk(s, msg, past) && t.rx == s.rx && t.r == s.r && s.sent <= t.sent && t.holes <= s.holes + {s.sent}
    ensures ReceiverOk(t, msg, past)
  {
  }

  lemma SendEffect(s: Link, m: Draft, now: real)
    ensures var r := SendMessage(s, m, now); var c, d := s.chan, r.0.chan;
            && r.0.status == s.status
            && (forall q :: IsDelivered(d.states, q) ==> IsDelivered(c.states, q))
            && (!r.1.NotReady? ==> s.status == Active && d.nextTx == Next16(c.nextTx))
            && (r.1.NotReady? ==> d.nextTx == c.nextTx)
            && (!r.1.Accepted? ==> d.pending == c.pending)
            && (r.1.Accepted? ==>
                  && m.hash == r.1.hash && FitsPacket(m.payload) && d.pending.Keys == c.pending.Keys + {m.hash}
                  && d.pending[m.hash].sequence == c.nextTx
                  && forall h :: h in c.pending && h != m.hash ==> d.pending[h] == c.pending[h])
  {
  }

  /** A message that no interface takes is outstanding for a moment only: the search comes upon it, and it leaves nothing
      behind but its number, marked as failed. */
  lemma UndispatchedEffect(s: Link, m: Draft, now: real)
    requires SendMessage(s, m, now).1.Accepted? && FreshSend(s.chan, m.hash)
    ensures var t := SendMessage(s, m, now).0; var u := MarkFailed(t, s.chan.nextTx, Some(m.hash));
            && (forall found :: Finds(t.chan.pending, s.chan.nextTx, found) ==> found == Some(m.hash))
            && u.status == Active && u.chan.pending == s.chan.pending && u.chan.nextTx == Next16(s.chan.nextTx)
            && u.chan.states == s.chan.states[s.chan.nextTx := Failed]
  {
    var t := SendMessage(s, m, now).0;
    assert m.hash in t.chan.pending && t.chan.pending[m.hash].sequence == s.chan.nextTx;
    assert forall k :: k in s.chan.pending ==> s.chan.pending[k].sequence in PendingSequences(s.chan.pending);
    assert t.chan.pending - {m.hash} == s.chan.pending;
  }

  /** A frame that was put within reach of the receiver is dispatched or buffered before its proof goes out. */
  lemma FrameKeepsSession(s: System, msg: Messages, past: seq<Envelope>, h: Hash, iface: Iface, now: real)
    requires Numbered(msg) && Session(s, msg, past) && Disciplined(s, msg, FrameArrives(h, iface, now))
    ensures Session(AfterFrame(s, msg, h, iface, now), msg, past)
  {
    if h in s.frames {
      FrameEffect(s.rx, h, msg(s.frames[h]), iface, now);
      if ChannelIsOpen(s.rx.chan) {
        FittingIsIntact(msg(s.frames[h]));
        FrameRefinesArrive(s.rx.chan, s.r, msg, past, s.frames[h]);
        ArriveGains(s.r, s.frames[h]);
      }
      FrameTakenIn(s, AfterFrame(s, msg, h, iface, now), msg, past, h);
    }
  }

  /** A frame is either ignored, without proof, or taken in and proved. */
  lemma FrameEffect(s: Link, h: Hash, e: Envelope, iface: Iface, now: real)
    requires s.status in {Active, Stale}
    ensures var t := HandlePacket(s, FramePacket(s.id, h, e), iface, now);
            && t.0.status in {Active, Stale}
            && ((t.1 == Nothing && t.0.chan == s.chan)
                || (t.1 == Proved(h) && ChannelIsOpen(s.chan) && t.0.chan == ReceiveFrame(s.chan, Pack(e)).0))
  {
    NoteInboundOnlyClock(s, ChannelData, now);
  }

  lemma FrameTakenIn(s: System, t: System, msg: Messages, past: seq<Envelope>, h: Hash)
    requires Session(s, msg, past) && h in s.frames
    requires t == s.(rx := t.rx, proofs := t.proofs, r := t.r) && t.rx.status in {Active, Stale}
    requires || (t.rx.chan == s.rx.chan && t.proofs == s.proofs && t.r == s.r)
             || (Receiving(t.rx.chan, t.r, msg, past) && t.proofs == s.proofs + {h} && t.r.expected >= s.r.expected
                 && !Has(t.r, t.r.expected)
                 && forall j: nat :: Has(t.r, j) <==> Has(s.r, j) || j == s.frames[h])
    ensures Session(t, msg, past)
  {
  }

  lemma ProofKeepsSession(s: System, msg: Messages, past: seq<Envelope>, h: Hash, iface: Iface, now: real)
    requires Session(s, msg, past)
    ensures Session(AfterProof(s, h, iface, now), msg, past)
  {
    var t := AfterProof(s, h, iface, now);
    if h in s.proofs {
      var u := NoteInbound(s.tx, LinkProof, now);
      assert t.tx == s.tx || t.tx == AcceptProof(u, h);
      if t.tx != s.tx && h in s.tx.chan.pending {
        assert t.delivered == s.delivered + {s.frames[h]};
        forall q | IsDelivered(t.tx.chan.states, q) ensures exists j :: j in t.delivered && Key(j) == q {
          if q == Key(s.frames[h]) {
            assert s.frames[h] in t.delivered;
          } else {
            assert IsDelivered(s.tx.chan.states, q);
            var j :| j in s.delivered && Key(j) == q;
            assert j in t.delivered;
          }
        }
      }
    }
  }

  lemma HappenKeepsSession(s: System, msg: Messages, past: seq<Envelope>, x: Happening)
    requires Numbered(msg) && Session(s, msg, past) && Disciplined(s, msg, x)
    ensures Session(Happen(s, msg, x), msg, past)
  {
    match x
    case Send(h, dispatched, now) => SendKeepsSession(s, msg, past, h, dispatched, now);
    case FrameArrives(h, iface, now) => FrameKeepsSession(s, msg, past, h, iface, now);
    case ProofArrives(h, iface, now) => ProofKeepsSession(s, msg, past, h, iface, now);
    case SenderDoes(e) => QuietSender(s.tx, e);
    case ReceiverDoes(e) => QuietReceiver(s.rx, e);
  }

  // ----- whole sessions ---------------------------------------------------------------------------------

  function HappenAll(s: System, msg: Messages, xs: seq<Happening>): System
    decreases |xs|
  {
    if xs == [] then s else HappenAll(Happen(s, msg, xs[0]), msg, xs[1..])
  }

  predicate AllDisciplined(s: System, msg: Messages, xs: seq<Happening>)
    decreases |xs|
  {
    xs == [] || (Disciplined(s, msg, xs[0]) && AllDisciplined(Happen(s, msg, xs[0]), msg, xs[1..]))
  }

  /** A session between two active ends that have exchanged nothing yet. */
  predicate Fresh(s: System)
  {
    && s.tx.status == Active && s.rx.status == Active
    && s.tx.chan.nextTx == 0 && s.rx.chan.nextRx == 0
    && s.tx.chan.pending == map[] && s.tx.chan.states == map[] && s.rx.chan.ring == map[]
    && s.sent == 0 && s.holes == {} && s.frames == map[] && s.proofs == {} && s.r == Rx(0, {}) && s.delivered == {}
  }

  lemma FreshIsSession(s: System, msg: Messages)
    requires Fresh(s)
    ensures Session(s, msg, s.rx.chan.dispatched)
  {
    assert Slice(msg, 0, 0) == [];
    assert s.rx.chan.dispatched + [] == s.rx.chan.dispatched;
  }

  lemma {:induction false} SessionsKeep(s: System, msg: Messages, past: seq<Envelope>, xs: seq<Happening>)
    requires Numbered(msg) && Session(s, msg, past) && AllDisciplined(s, msg, xs)
    ensures Session(HappenAll(s, msg, xs), msg, past)
    decreases |xs|
  {
    if xs != [] {
      HappenKeepsSession(s, msg, past, xs[0]);
      SessionsKeep(Happen(s, msg, xs[0]), msg, past, xs[1..]);
    }
  }

  // ----- the latest message with a number ---------------------------------------------------------------

  /** No later one of the first `sent` messages, apart from failed ones, has the number of message `j`. */
  ghost predicate NoLater(sent: nat, holes: set<nat>, j: nat)
  {
    forall i: nat :: i < sent && i !in holes && Key(i) == Key(j) ==> i <= j
  }

  /** No later message was accepted with the number of message `j`. */
  ghost predicate IsLatest(s: System, j: nat)
  {
    NoLater(s.sent, s.holes, j)
  }

  /** Outstanding packets carry the latest message with their number, and so did those that were proved. */
  ghost predicate LatestOk(s: System)
  {
    && (forall h, k :: h in s.frames && k in s.frames && s.frames[h] == s.frames[k] ==> h == k)
    && (forall h :: h in s.tx.chan.pending ==> h in s.frames && s.frames[h] !in s.delivered && IsLatest(s, s.frames[h]))
    && (forall q :: IsDelivered(s.tx.chan.states, q) ==> exists j :: j in s.delivered && Key(j) == q && IsLatest(s, j))
  }

  /** A send takes no number that an outstanding packet still carries. */
  predicate FreshNumber(s: System, msg: Messages, x: Happening)
  {
    x.Send? && SendAnswer(s, msg, x.h, x.now).Accepted? ==> FreshSend(s.tx.chan, x.h)
  }

  predicate AllFreshNumbers(s: System, msg: Messages, xs: seq<Happening>)
    decreases |xs|
  {
    xs == [] || (FreshNumber(s, msg, xs[0]) && AllFreshNumbers(Happen(s, msg, xs[0]), msg, xs[1..]))
  }

  /** Nothing is sent, and verdicts only get fewer. */
  lemma LatestStays(s: System, t: System)
    requires LatestOk(s) && t.sent == s.sent && t.holes == s.holes && t.frames == s.frames && t.delivered == s.delivered
    requires t.tx.chan.pending.Keys <= s.tx.chan.pending.Keys
    requires forall q :: IsDelivered(t.tx.chan.states, q) ==> IsDelivered(s.tx.chan.states, q)
    ensures LatestOk(t)
  {
  }

  lemma SendKeepsLatest(s: System, msg: Messages, h: Hash, dispatched: bool, now: real)
    requires SenderOk(s) && VerdictsIndexed(s) && LatestOk(s)
    requires Disciplined(s, msg, Send(h, dispatched, now)) && FreshNumber(s, msg, Send(h, dispatched, now))
    ensures LatestOk(AfterSend(s, msg, h, dispatched, now))
  {
    var m := NextDraft(s, msg, h);
    var t, r := AfterSend(s, msg, h, dispatched, now), SendMessage(s.tx, m, now);
    SendEffect(s.tx, m, now);
    match r.1 {
      case NotReady => LatestStays(s, t);
      case TooLarge => LatestBehindHole(s, t);
      case Accepted(_, _) =>
        if dispatched {
          SendStates(s.tx, m, now);
          LatestBehindSend(s, t, h);
        } else {
          UndispatchedAfter(s, msg, h, now);
          LatestBehindHole(s, t);
        }
    }
  }

  /** Every delivered index was sent. */
  ghost predicate VerdictsIndexed(s: System)
  {
    forall j :: j in s.delivered ==> j < s.sent
  }

  lemma LatestBehindHole(s: System, t: System)
    requires LatestOk(s) && t.sent == s.sent + 1 && t.holes == s.holes + {s.sent}
    requires t.frames == s.frames && t.delivered == s.delivered && t.tx.chan.pending == s.tx.chan.pending
    requires forall q :: IsDelivered(t.tx.chan.states, q) ==> IsDelivered(s.tx.chan.states, q)
    ensures LatestOk(t)
  {
    assert forall j: nat :: IsLatest(s, j) ==> IsLatest(t, j);
  }

  lemma LatestBehindSend(s: System, t: System, h: Hash)
    requires SenderOk(s) && VerdictsIndexed(s) && LatestOk(s) && FreshSend(s.tx.chan, h) && h !in s.frames
    requires s.tx.chan.nextTx == Key(s.sent)
    requires t.sent == s.sent + 1 && t.holes == s.holes && t.frames == s.frames[h := s.sent] && t.delivered == s.delivered
    requires t.tx.chan.pending.Keys == s.tx.chan.pending.Keys + {h}
    requires t.tx.chan.states == s.tx.chan.states[Key(s.sent) := Sent]
    ensures LatestOk(t)
  {
    forall j: nat | IsLatest(s, j) && Key(j) != Key(s.sent)
      ensures IsLatest(t, j)
    {
    }
    forall k | k in t.tx.chan.pending
      ensures k in t.frames && t.frames[k] !in t.delivered && IsLatest(t, t.frames[k])
    {
      if k != h {
        assert s.tx.chan.pending[k].sequence in PendingSequences(s.tx.chan.pending);
      }
    }
    forall q | IsDelivered(t.tx.chan.states, q)
      ensures exists j :: j in t.delivered && Key(j) == q && IsLatest(t, j)
    {
      assert IsDelivered(s.tx.chan.states, q);
      var j :| j in s.delivered && Key(j) == q && IsLatest(s, j);
      assert IsLatest(t, j);
    }
  }

  lemma ProofKeepsLatest(s: System, msg: Messages, h: Hash, iface: Iface, now: real)
    requires SenderOk(s) && LatestOk(s)
    ensures LatestOk(AfterProof(s, h, iface, now))
  {
    var t := AfterProof(s, h, iface, now);
    if h in s.proofs {
      ProofEffect(s.tx, h, iface, now);
      if t.tx.chan == s.tx.chan {
        LatestStays(s, t);
      } else {
        LatestBehindProof(s, t, h);
      }
    }
  }

  lemma ProofEffect(s: Link, h: Hash, iface: Iface, now: real)
    ensures var c, d := s.chan, HandlePacket(s, ProofPacket(s.id, h), iface, now).0.chan;
            d == c || (h in c.pending && d == c.(pending := c.pending - {h},
                                                 states := c.states[c.pending[h].sequence := Delivered]))
  {
    NoteInboundOnlyClock(s, LinkProof, now);
  }

  lemma LatestBehindProof(s: System, t: System, h: Hash)
    requires SenderOk(s) && LatestOk(s) && h in s.tx.chan.pending
    requires t.sent == s.sent && t.holes == s.holes && t.frames == s.frames && t.delivered == s.delivered + {s.frames[h]}
    requires t.tx.chan.pending.Keys == s.tx.chan.pending.Keys - {h}
    requires t.tx.chan.states == s.tx.chan.states[Key(s.frames[h]) := Delivered]
    ensures LatestOk(t)
  {
    forall q | IsDelivered(t.tx.chan.states, q)
      ensures exists j :: j in t.delivered && Key(j) == q && IsLatest(t, j)
    {
      if q == Key(s.frames[h]) {
        assert s.frames[h] in t.delivered;
      } else {
        assert IsDelivered(s.tx.chan.states, q);
        var j :| j in s.delivered && Key(j) == q && IsLatest(s, j);
        assert j in t.delivered;
      }
    }
  }

  lemma HappenKeepsLatest(s: System, msg: Messages, past: seq<Envelope>, x: Happening)
    requires Session(s, msg, past) && LatestOk(s) && Disciplined(s, msg, x) && FreshNumber(s, msg, x)
    ensures LatestOk(Happen(s, msg, x))
  {
    match x
    case Send(h, dispatched, now) => SendKeepsLatest(s, msg, h, dispatched, now);
    case FrameArrives(_, _, _) => LatestStays(s, Happen(s, msg, x));
    case ProofArrives(h, iface, now) => ProofKeepsLatest(s, msg, h, iface, now);
    case SenderDoes(e) =>
      QuietSender(s.tx, e);
      LatestStays(s, Happen(s, msg, x));
    case ReceiverDoes(_) => LatestStays(s, Happen(s, msg, x));
  }

  lemma {:induction false} LatestKeeps(s: System, msg: Messages, past: seq<Envelope>, xs: seq<Happening>)
    requires Numbered(msg) && Session(s, msg, past) && AllDisciplined(s, msg, xs)
    requires LatestOk(s) && AllFreshNumbers(s, msg, xs)
    ensures LatestOk(HappenAll(s, msg, xs))
    decreases |xs|
  {
    if xs != [] {
      HappenKeepsSession(s, msg, past, xs[0]);
      HappenKeepsLatest(s, msg, past, xs[0]);
      LatestKeeps(Happen(s, msg, xs[0]), msg, past, xs[1..]);
    }
  }

  /** End to end, for every run of a disciplined session: the receiver has taken exactly the first k messages off its ring,
      in order; every index proved to the sender, and so every number it marks Delivered, is among them or in the ring. If
      no send takes a number that is still outstanding, that index is the latest one with the number. */
  lemma DeliveredMeansReceived(s: System, msg: Messages, xs: seq<Happening>)
    requires Numbered(msg) && Fresh(s) && AllDisciplined(s, msg, xs)
    ensures var t := HappenAll(s, msg, xs); var k := t.r.expected;
            && t.rx.chan.dispatched == s.rx.chan.dispatched + Slice(msg, 0, k)
            && (forall j :: j in t.delivered ==> j < k || (Key(j) in t.rx.chan.ring && t.rx.chan.ring[Key(j)] == msg(j)))
            && (forall q :: IsDelivered(t.tx.chan.states, q) ==> exists j :: j in t.delivered && Key(j) == q)
            && RingOk(t.rx.chan.ring, t.rx.chan.nextRx)
    ensures AllFreshNumbers(s, msg, xs) ==>
              var t := HappenAll(s, msg, xs);
              forall q :: IsDelivered(t.tx.chan.states, q) ==> exists j :: j in t.delivered && Key(j) == q && IsLatest(t, j)
  {
    FreshIsSession(s, msg);
    SessionsKeep(s, msg, s.rx.chan.dispatched, xs);
    var t := HappenAll(s, msg, xs);
    ReceivingKeepsWindow(t.rx.chan, t.r, msg, s.rx.chan.dispatched);
    if AllFreshNumbers(s, msg, xs) {
      LatestKeeps(s, msg, s.rx.chan.dispatched, xs);
    }
  }

  // ----- a discipline the sender can keep by itself -----------------------------------------------------

  /** The sender lets no unproved number fall 48 behind the next one. Packet hashes must still be fresh, and the rest of the
      discipline stays as it is: no copy so old that its number misleads. */
  ghost predicate Prudent(s: System, msg: Messages, x: Happening)
  {
    match x
    case Send(h, _, now) =>
      SendAnswer(s, msg, h, now).Accepted? ==>
        h !in s.frames && forall j: nat :: j < s.sent && j !in s.delivered ==> s.sent < j + RX_WINDOW
    case _ => Disciplined(s, msg, x)
  }

  ghost predicate AllPrudent(s: System, msg: Messages, xs: seq<Happening>)
    decreases |xs|
  {
    xs == [] || (Prudent(s, msg, xs[0]) && AllPrudent(Happen(s, msg, xs[0]), msg, xs[1..]))
  }

  /** What the receiver still waits for has not been proved, so a prudent sender stays within its window. */
  lemma PrudentIsDisciplined(s: System, msg: Messages, past: seq<Envelope>, x: Happening)
    requires Session(s, msg, past) && LatestOk(s) && Prudent(s, msg, x)
    ensures Disciplined(s, msg, x) && FreshNumber(s, msg, x)
  {
    if x.Send? && SendAnswer(s, msg, x.h, x.now).Accepted? {
      assert !Has(s.r, s.r.expected);
      assert s.r.expected <= s.sent by {
        assert s.sent < s.r.expected ==> Has(s.r, s.sent);
      }
      assert s.sent < s.r.expected + RX_WINDOW;
      forall k | k in s.tx.chan.pending
        ensures s.tx.chan.pending[k].sequence != Key(s.sent)
      {
        SameKeyApart(s.frames[k], s.sent);
      }
    }
  }

  lemma SameKeyApart(i: nat, j: nat)
    requires i < j < i + RX_WINDOW
    ensures Key(i) != Key(j)
  {
  }

  /** A sender with fresh packet hashes that waits for the proof of everything 48 or more behind keeps its part of the
      discipline, without knowing anything about the receiver; the network keeps the other part if it brings no copy so
      old that its number misleads. */
  lemma {:induction false} PrudenceSuffices(s: System, msg: Messages, past: seq<Envelope>, xs: seq<Happening>)
    requires Numbered(msg) && Session(s, msg, past) && LatestOk(s) && AllPrudent(s, msg, xs)
    ensures AllDisciplined(s, msg, xs) && AllFreshNumbers(s, msg, xs)
    decreases |xs|
  {
    if xs != [] {
      PrudentIsDisciplined(s, msg, past, xs[0]);
      HappenKeepsSession(s, msg, past, xs[0]);
      HappenKeepsLatest(s, msg, past, xs[0]);
      PrudenceSuffices(Happen(s, msg, xs[0]), msg, past, xs[1..]);
    }
  }

  /** Hence, in every such run, everything the sender marks Delivered has been received: the latest message with that
      number. */
  lemma PrudentSenderIsNotDeceived(s: System, msg: Messages, xs: seq<Happening>, q: u16)
    requires Numbered(msg) && Fresh(s) && AllPrudent(s, msg, xs) && IsDelivered(HappenAll(s, msg, xs).tx.chan.states, q)
    ensures var t := HappenAll(s, msg, xs);
            exists j: nat :: Key(j) == q && IsLatest(t, j)
                             && ((Key(j) in t.rx.chan.ring && t.rx.chan.ring[Key(j)] == msg(j))
                                 || (j < t.r.expected
                                     && t.rx.chan.dispatched == s.rx.chan.dispatched + Slice(msg, 0, t.r.expected)))
  {
    FreshIsSession(s, msg);
    PrudenceSuffices(s, msg, s.rx.chan.dispatched, xs);
    DeliveredMeansReceived(s, msg, xs);
  }

  // ----- restart ----------------------------------------------------------------------------------------

  /** A restarted link goes on counting (`LinkRuns.FirstNumberAfter`). A peer that starts afresh, hearing its messages from
      number `n` on in any order, takes message `n` if and only if `n` is 0; otherwise it takes nothing at all, until the
      numbers come round again. */
  lemma FreshPeerTakesIff(c: Chan, msg: Messages, arrivals: seq<nat>, n: nat)
    requires Numbered(msg) && ChannelIsOpen(c) && c.nextRx == 0 && c.ring == map[]
    requires n in arrivals && forall i :: i in arrivals ==> n <= i < 0x1_0000 - RX_WINDOW && Intact(msg(i))
    ensures var d, k := ReceiveAll(c, msg, arrivals), ArriveAll(Rx(0, {}), arrivals).expected;
            && d.dispatched == c.dispatched + Slice(msg, 0, k)
            && (n < k <==> n == 0) && (n != 0 ==> d.dispatched == c.dispatched)
  {
    var r := Rx(0, {});
    assert Slice(msg, 0, 0) == [] && c.dispatched + [] == c.dispatched;
    SmallIsTellable(r, arrivals);
    InOrderExactlyOnce(c, r, msg, c.dispatched, arrivals);
    var t := ArriveAll(r, arrivals);
    if n == 0 {
      ZeroIsTimely(r, arrivals);
      OnceHad(r, arrivals, 0);
    } else {
      assert 0 !in arrivals;
      assert Has(t, 0) <==> t.expected > 0 || 0 in t.held;
    }
  }

  lemma {:induction false} SmallIsTellable(r: Rx, arrivals: seq<nat>)
    requires Window(r) && !Has(r, r.expected) && forall j: nat :: Has(r, j) ==> j < 0x1_0000 - RX_WINDOW
    requires forall i :: i in arrivals ==> i < 0x1_0000 - RX_WINDOW
    ensures AllTellable(r, arrivals)
    decreases |arrivals|
  {
    if arrivals != [] {
      assert r.expected <= 0x1_0000 - RX_WINDOW by {
        assert r.expected > 0 ==> Has(r, r.expected - 1);
      }
      assert arrivals[0] in arrivals && forall i :: i in arrivals[1..] ==> i in arrivals;
      TellableNear(arrivals[0], r.expected);
      ArriveGains(r, arrivals[0]);
      SmallIsTellable(Arrive(r, arrivals[0]), arrivals[1..]);
    }
  }

  lemma {:induction false} ZeroIsTimely(r: Rx, arrivals: seq<nat>)
    requires 0 in arrivals
    ensures Timely(r, arrivals, 0)
    decreases |arrivals|
  {
    if arrivals[0] != 0 {
      ZeroIsTimely(Arrive(r, arrivals[0]), arrivals[1..]);
    }
  }

  /** A send that fails because its payload is too large, or because no interface takes it, has used up a number: nothing
      beyond it is ever dispatched. */
  lemma FailedSendBlocksTheChannel(s: System, msg: Messages, xs: seq<Happening>, hole: nat)
    requires Numbered(msg) && Fresh(s) && AllDisciplined(s, msg, xs)
    requires hole in HappenAll(s, msg, xs).holes
    ensures HappenAll(s, msg, xs).r.expected <= hole
  {
    FreshIsSession(s, msg);
    SessionsKeep(s, msg, s.rx.chan.dispatched, xs);
    var t := HappenAll(s, msg, xs);
    assert Has(t.r, hole) ==> hole !in t.holes;
  }

  /** A send leaves such a hole exactly when its payload is longer than 409 bytes or no interface takes its packet. */
  lemma SendLeavesHoleIff(s: System, msg: Messages, h: Hash, dispatched: bool, now: real)
    requires SenderOk(s) && !SendAnswer(s, msg, h, now).NotReady?
    ensures s.sent in AfterSend(s, msg, h, dispatched, now).holes <==> |msg(s.sent).payload| > 409 || !dispatched
  {
    FitsPacketIff(msg(s.sent).payload);
  }

  // ----- where the discipline is needed -----------------------------------------------------------------

  /** The receiver proves every frame it can decrypt; the proof is truthful exactly when the frame's index
      is less than 48 ahead of the index it expects. */
  lemma ProofIsTruthfulIff(c: Link, r: Rx, msg: Messages, past: seq<Envelope>, h: Hash, i: nat, iface: Iface, now: real)
    requires Numbered(msg) && Receiving(c.chan, r, msg, past) && ChannelIsOpen(c.chan) && c.status in {Active, Stale}
    requires c.iface.Some? ==> c.iface.value == iface
    requires Tellable(i, r.expected) && Intact(msg(i))
    ensures var t := HandlePacket(c, FramePacket(c.id, h, msg(i)), iface, now);
            && t.1 == Proved(h)
            && Receiving(t.0.chan, Arrive(r, i), msg, past)
            && (Has(Arrive(r, i), i) <==> i < r.expected + RX_WINDOW)
  {
    FrameRefinesArrive(NoteInbound(c, ChannelData, now).chan, r, msg, past, i);
    ArriveGains(r, i);
    assert Has(r, i) ==> i < r.expected + RX_WINDOW;
  }

  /** The indices 1 .. n. */
  function UpTo(n: nat): (r: set<nat>)
    ensures forall k :: k in r <==> 1 <= k <= n
  {
    if n == 0 then {} else UpTo(n - 1) + {n}
  }

  /** The interfaces over which the two ends hear each other, and a time. */
  datatype Venue = Venue(txIface: Iface, rxIface: Iface, now: real)

  predicate Hears(s: Link, iface: Iface) { s.iface.None? || s.iface.value == iface }

  /** One round of the failing run: message `n` is sent, arrives, and its proof arrives. Hash `n` names its packet. */
  function Round(n: nat, v: Venue): seq<Happening>
  {
    [Send(n, true, v.now), FrameArrives(n, v.rxIface, v.now), ProofArrives(n, v.txIface, v.now)]
  }

  /** Message 0 is sent and lost; then come `n` rounds. */
  function LostThenRounds(n: nat, v: Venue): seq<Happening>
  {
    if n == 0 then [Send(0, true, v.now)] else LostThenRounds(n - 1, v) + Round(n, v)
  }

  /** The ends of a fresh session, with an open receiving channel, and with room for two packets in the send window. */
  predicate FreshAndOpen(s: System, v: Venue)
  {
    && Fresh(s) && ChannelIsOpen(s.rx.chan) && Hears(s.tx, v.txIface) && Hears(s.rx, v.rxIface)
    && FlowOk(s.tx.flow, s.tx.clock.rtt) && s.tx.flow.window >= 2
  }

  ghost predicate AllFit(msg: Messages)
  {
    forall i: nat :: i <= RX_WINDOW ==> FitsPacket(msg(i).payload)
  }

  ghost predicate RxReady(c: Link, r: Rx, msg: Messages, past: seq<Envelope>, v: Venue)
  {
    c.status == Active && Hears(c, v.rxIface) && ChannelIsOpen(c.chan) && Receiving(c.chan, r, msg, past)
  }

  predicate TxReady(s: Link, v: Venue)
  {
    s.status == Active && Hears(s, v.txIface) && FlowOk(s.flow, s.clock.rtt) && s.flow.window >= 2
  }

  ghost predicate AfterRounds(s: System, msg: Messages, past: seq<Envelope>, n: nat, v: Venue)
  {
    && TxReady(s.tx, v) && s.tx.chan.pending.Keys == {0} && s.tx.chan.nextTx == Key(n + 1)
    && RxReady(s.rx, s.r, msg, past, v)
    && s.sent == n + 1 && s.r == Rx(0, UpTo(if n < RX_WINDOW then n else RX_WINDOW - 1)) && s.delivered == UpTo(n)
    && (n > 0 ==> IsDelivered(s.tx.chan.states, Key(n)))
  }

  lemma ReadySend(s: Link, m: Draft, v: Venue) returns (t: Link)
    requires TxReady(s, v) && |s.chan.pending| < 2 && FitsPacket(m.payload)
    ensures (t, Accepted(s.chan.nextTx, m.hash)) == SendMessage(s, m, v.now)
    ensures TxReady(t, v) && t.chan.pending.Keys == s.chan.pending.Keys + {m.hash}
    ensures t.chan.pending[m.hash].sequence == s.chan.nextTx && t.chan.nextTx == Next16(s.chan.nextTx)
  {
    t := SendMessage(s, m, v.now).0;
  }

  lemma AcceptedSend(s: System, msg: Messages, h: Hash, tx: Link, now: real)
    requires (tx, Accepted(s.tx.chan.nextTx, h)) == SendMessage(s.tx, NextDraft(s, msg, h), now)
    ensures AfterSend(s, msg, h, true, now) == s.(tx := tx, sent := s.sent + 1, frames := s.frames[h := s.sent])
  {
  }

  lemma RoundSend(s: System, msg: Messages, n: nat, v: Venue) returns (t: System)
    requires TxReady(s.tx, v) && s.tx.chan.pending.Keys == {0} && s.tx.chan.nextTx == Key(n + 1) && s.sent == n + 1
    requires FitsPacket(msg(n + 1).payload)
    ensures t == AfterSend(s, msg, n + 1, true, v.now)
    ensures && t.tx.chan.pending.Keys == {0, n + 1} && t.tx.chan.pending[n + 1].sequence == Key(n + 1)
            && n + 1 in t.frames && t.frames[n + 1] == n + 1 && t.sent == n + 2
            && t.tx.chan.nextTx == Key(n + 2)
            && t == s.(tx := t.tx, sent := t.sent, frames := t.frames) && TxReady(t.tx, v)
  {
    assert |s.tx.chan.pending| == |s.tx.chan.pending.Keys| == 1;
    var tx := ReadySend(s.tx, NextDraft(s, msg, n + 1), v);
    t := s.(tx := tx, sent := s.sent + 1, frames := s.frames[n + 1 := s.sent]);
    AcceptedSend(s, msg, n + 1, tx, v.now);
    KeyNext(n + 1);
  }

  /** An open active receiver takes a frame in and answers with its proof. */
  lemma ReadyReceiver(c: Link, r: Rx, msg: Messages, past: seq<Envelope>, h: Hash, i: nat, v: Venue) returns (d: Link)
    requires Numbered(msg) && RxReady(c, r, msg, past, v)
    requires Tellable(i, r.expected) && Intact(msg(i))
    ensures (d, Proved(h)) == HandlePacket(c, FramePacket(c.id, h, msg(i)), v.rxIface, v.now)
    ensures RxReady(d, Arrive(r, i), msg, past, v)
  {
    d := HandlePacket(c, FramePacket(c.id, h, msg(i)), v.rxIface, v.now).0;
    FrameRefinesArrive(NoteInbound(c, ChannelData, v.now).chan, r, msg, past, i);
  }

  /** A frame for 1 .. 47 is buffered while 0 is missing; the one for 48 is not. */
  lemma ArriveBehindLoss(n: nat)
    requires n < RX_WINDOW
    ensures Arrive(Rx(0, UpTo(n)), n + 1) == Rx(0, UpTo(if n + 1 < RX_WINDOW then n + 1 else RX_WINDOW - 1))
  {
    assert UpTo(n + 1) == UpTo(n) + {n + 1};
  }

  lemma ProvedFrame(t: System, msg: Messages, h: Hash, rx: Link, v: Venue)
    requires h in t.frames && (rx, Proved(h)) == HandlePacket(t.rx, FramePacket(t.rx.id, h, msg(t.frames[h])), v.rxIface, v.now)
    ensures AfterFrame(t, msg, h, v.rxIface, v.now) == t.(rx := rx, proofs := t.proofs + {h}, r := Arrive(t.r, t.frames[h]))
  {
  }

  lemma RoundFrame(t: System, msg: Messages, past: seq<Envelope>, n: nat, v: Venue) returns (u: System)
    requires Numbered(msg) && n < RX_WINDOW && FitsPacket(msg(n + 1).payload)
    requires n + 1 in t.frames && t.frames[n + 1] == n + 1
    requires RxReady(t.rx, t.r, msg, past, v) && t.r == Rx(0, UpTo(n))
    ensures u == AfterFrame(t, msg, n + 1, v.rxIface, v.now)
    ensures && RxReady(u.rx, u.r, msg, past, v)
            && u.r == Rx(0, UpTo(if n + 1 < RX_WINDOW then n + 1 else RX_WINDOW - 1))
            && n + 1 in u.proofs && u == t.(rx := u.rx, proofs := u.proofs, r := u.r)
  {
    var i := n + 1;
    TellableNear(i, 0);
    FittingIsIntact(msg(i));
    var rx := ReadyReceiver(t.rx, t.r, msg, past, i, i, v);
    ArriveBehindLoss(n);
    u := t.(rx := rx, proofs := t.proofs + {i}, r := Arrive(t.r, i));
    ProvedFrame(t, msg, i, rx, v);
  }

  lemma ReadySender(s: Link, h: Hash, v: Venue)
    requires TxReady(s, v) && h in s.chan.pending
    ensures var t := HandlePacket(s, ProofPacket(s.id, h), v.txIface, v.now).0;
            && TxReady(t, v) && t.chan == s.chan.(pending := s.chan.pending - {h},
                                               states := s.chan.states[s.chan.pending[h].sequence := Delivered])
  {
    FlowDeliveryKeepsBounds(s.flow, s.clock.rtt);
    DeliveryKeepsRoom(s.flow, s.clock.rtt);
  }

  lemma DeliveryKeepsRoom(f: Flow, rtt: real)
    requires FlowOk(f, rtt)
    ensures NoteDelivery(f, rtt).window >= f.window
  {
  }

  lemma RoundProof(u: System, msg: Messages, n: nat, v: Venue) returns (w: System)
    requires TxReady(u.tx, v) && u.tx.chan.pending.Keys == {0, n + 1} && u.tx.chan.pending[n + 1].sequence == Key(n + 1)
    requires n + 1 in u.proofs && n + 1 in u.frames && u.frames[n + 1] == n + 1
    ensures w == AfterProof(u, n + 1, v.txIface, v.now)
    ensures && TxReady(w.tx, v) && w.tx.chan.pending.Keys == {0} && w.tx.chan.nextTx == u.tx.chan.nextTx
            && IsDelivered(w.tx.chan.states, Key(n + 1))
            && w == u.(tx := w.tx, delivered := u.delivered + {n + 1})
  {
    ReadySender(u.tx, n + 1, v);
    assert (u.tx.chan.pending - {n + 1}).Keys == {0};
    w := u.(tx := HandlePacket(u.tx, ProofPacket(u.tx.id, n + 1), v.txIface, v.now).0, delivered := u.delivered + {n + 1});
  }

  lemma RoundIsThree(s: System, t: System, u: System, w: System, msg: Messages, n: nat, v: Venue)
    requires t == AfterSend(s, msg, n, true, v.now)
    requires u == AfterFrame(t, msg, n, v.rxIface, v.now)
    requires w == AfterProof(u, n, v.txIface, v.now)
    ensures w == HappenAll(s, msg, Round(n, v))
  {
    var xs := Round(n, v);
    assert xs[1..] == [xs[1], xs[2]] && xs[1..][1..] == [xs[2]] && xs[1..][1..][1..] == [];
    HappenAllStep(s, msg, xs);
    HappenAllStep(t, msg, xs[1..]);
    HappenAllStep(u, msg, xs[1..][1..]);
  }

  lemma RoundStep(s: System, msg: Messages, past: seq<Envelope>, n: nat, v: Venue) returns (w: System)
    requires Numbered(msg) && AllFit(msg) && AfterRounds(s, msg, past, n, v) && n < RX_WINDOW
    ensures w == HappenAll(s, msg, Round(n + 1, v)) && AfterRounds(w, msg, past, n + 1, v)
  {
    var t := RoundSend(s, msg, n, v);
    var u := RoundFrame(t, msg, past, n, v);
    w := RoundProof(u, msg, n, v);
    RoundIsThree(s, t, u, w, msg, n + 1, v);
    assert UpTo(n + 1) == UpTo(n) + {n + 1};
  }

  lemma HappenAllStep(s: System, msg: Messages, xs: seq<Happening>)
    requires xs != []
    ensures HappenAll(s, msg, xs) == HappenAll(Happen(s, msg, xs[0]), msg, xs[1..])
    ensures |xs| == 1 ==> HappenAll(s, msg, xs) == Happen(s, msg, xs[0])
  {
  }

  lemma {:induction false} HappenAllJoin(s: System, msg: Messages, a: seq<Happening>, b: seq<Happening>)
    ensures HappenAll(s, msg, a + b) == HappenAll(HappenAll(s, msg, a), msg, b)
    decreases |a|
  {
    if a == [] {
      assert a + b == b;
    } else {
      assert (a + b)[1..] == a[1..] + b;
      HappenAllJoin(Happen(s, msg, a[0]), msg, a[1..], b);
    }
  }

  lemma FirstSend(s: System, msg: Messages, v: Venue) returns (t: System)
    requires FreshAndOpen(s, v) && AllFit(msg)
    ensures t == HappenAll(s, msg, LostThenRounds(0, v)) && AfterRounds(t, msg, s.rx.chan.dispatched, 0, v)
  {
    t := AfterSend(s, msg, 0, true, v.now);
    FreshIsSession(s, msg);
    SendEffect(s.tx, NextDraft(s, msg, 0), v.now);
    HappenAllStep(s, msg, LostThenRounds(0, v));
    assert UpTo(0) == {};
  }

  lemma OneMoreRound(s: System, msg: Messages, n: nat, v: Venue)
    requires n > 0
    ensures HappenAll(s, msg, LostThenRounds(n, v))
            == HappenAll(HappenAll(s, msg, LostThenRounds(n - 1, v)), msg, Round(n, v))
  {
    HappenAllJoin(s, msg, LostThenRounds(n - 1, v), Round(n, v));
  }

  lemma {:induction false} RoundsRun(s: System, msg: Messages, n: nat, v: Venue) returns (t: System)
    requires Numbered(msg) && AllFit(msg) && FreshAndOpen(s, v) && n <= RX_WINDOW
    ensures t == HappenAll(s, msg, LostThenRounds(n, v)) && AfterRounds(t, msg, s.rx.chan.dispatched, n, v)
  {
    if n == 0 {
      t := FirstSend(s, msg, v);
    } else {
      var u := RoundsRun(s, msg, n - 1, v);
      t := RoundStep(u, msg, s.rx.chan.dispatched, n - 1, v);
      OneMoreRound(s, msg, n, v);
    }
  }

  /** The discipline cannot be dropped, because the send window counts outstanding packets and not the span of their
      numbers. From every fresh session whose receiver is open and whose window has room for two packets, over whatever
      interfaces, this run, in which only the first packet is lost, ends with message 48 marked Delivered and forgotten by
      the sender, although the receiver neither dispatched nor buffered it. */
  lemma UndisciplinedDeliveryIsLost(s: System, msg: Messages, v: Venue, n: nat)
    requires Numbered(msg) && AllFit(msg) && FreshAndOpen(s, v) && n == RX_WINDOW
    ensures var t := HappenAll(s, msg, LostThenRounds(n, v));
            && n in t.delivered && IsDelivered(t.tx.chan.states, Key(n)) && t.tx.chan.pending.Keys == {0}
            && !Has(t.r, n) && Key(n) !in t.rx.chan.ring && t.rx.chan.dispatched == s.rx.chan.dispatched
  {
    var t := RoundsRun(s, msg, n, v);
    LostForGood(t, msg, s.rx.chan.dispatched, n, v);
  }

  lemma LostForGood(t: System, msg: Messages, past: seq<Envelope>, n: nat, v: Venue)
    requires AfterRounds(t, msg, past, n, v) && n == RX_WINDOW
    ensures n in t.delivered && !Has(t.r, n) && Key(n) !in t.rx.chan.ring && t.rx.chan.dispatched == past
  {
    StoresIff(t.rx.chan.ring, t.r.held, msg, 0, n);
    assert Slice(msg, 0, 0) == [];
  }
}
