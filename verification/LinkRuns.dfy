/** What holds of a link in every state that any run of events reaches. */
module LinkRuns {
  import opened Bytes
  import opened Envelopes
  import opened FlowControl
  import opened LinkModel

  predicate RingOk(ring: map<u16, Envelope>, next: u16)
  {
    forall q :: q in ring ==> 1 <= Distance(q, next) < RX_WINDOW && ring[q].sequence == q
  }

  predicate TriesOk(pending: map<Hash, Outstanding>)
  {
    forall h :: h in pending ==> 1 <= pending[h].tries <= MAX_TRIES
  }

  predicate Consistent(s: Link)
  {
    && FlowOk(s.flow, s.clock.rtt)
    && (s.chan.pending != map[] ==> s.status in {Active, Stale})
    && (s.status == Stale <==> s.clock.staleSince.Some?)
    && TriesOk(s.chan.pending)
    && |s.chan.pending| <= WINDOW_MAX_FAST
    && RingOk(s.chan.ring, s.chan.nextRx)
    && s.clock.rtt >= 0.0
    && s.clock.keepalive >= KEEPALIVE_MIN && s.clock.staleTime == s.clock.keepalive * STALE_FACTOR
  }

  // ----- the receive ring -------------------------------------------------------------------------------

  /** Draining leaves only keys beyond the new expected sequence number, each at its old key. */
  lemma {:induction false} DrainKeepsRing(ring: map<u16, Envelope>, next: u16)
    requires forall q :: q in ring ==> Distance(q, next) < RX_WINDOW && ring[q].sequence == q
    ensures var d := Drain(ring, next);
            && RingOk(d.0, d.1) && d.0.Keys <= ring.Keys
            && (forall q :: q in d.0 ==> d.0[q] == ring[q])
    decreases |ring|
  {
    if next in ring {
      var rest := ring - {next};
      assert rest.Keys == ring.Keys - {next};
      forall q | q in rest ensures Distance(q, Next16(next)) < RX_WINDOW {
        assert q != next && Distance(q, next) != 0;
        DistanceNext(q, next);
      }
      assert |rest.Keys| < |ring.Keys|;
      DrainKeepsRing(rest, Next16(next));
    } else {
      forall q | q in ring ensures 1 <= Distance(q, next) {
        if Distance(q, next) == 0 { DistanceZero(q, next); }
      }
    }
  }

  lemma DistanceZero(q: u16, next: u16)
    requires Distance(q, next) == 0
    ensures q == next
  {
  }

  lemma DistanceNext(q: u16, next: u16)
    requires q != next
    ensures Distance(q, Next16(next)) == Distance(q, next) - 1
  {
  }

  lemma ReceiveKeepsRing(c: Chan, raw: bytes)
    requires RingOk(c.ring, c.nextRx)
    ensures var d := ReceiveFrame(c, raw).0;
            && RingOk(d.ring, d.nextRx)
            && d == c.(ring := d.ring, nextRx := d.nextRx, dispatched := d.dispatched)
  {
    if ChannelIsOpen(c) && Unpack(raw).Some? {
      var e := Unpack(raw).value;
      if Distance(e.sequence, c.nextRx) < RX_WINDOW {
        var ring := c.ring[e.sequence := e];
        DrainKeepsRing(ring, c.nextRx);
      }
    }
  }

  // ----- one event --------------------------------------------------------------------------------------

  lemma FinalizeConsistent(s: Link)
    requires s.clock.rtt >= 0.0 && s.clock.keepalive >= KEEPALIVE_MIN && s.clock.staleTime == s.clock.keepalive * STALE_FACTOR
    ensures Consistent(Finalize(s))
  {
    FlowRefreshEntersClass(s.flow, s.clock.rtt);
  }

  lemma PollConsistent(s: Link, now: real)
    requires Consistent(s)
    ensures Consistent(Poll(s, now).0)
  {
    var pending := s.chan.pending;
    var due := TimedOut(pending, now);
    if s.status in {Active, Stale} && due != {} {
      if Exhausted(pending, due) {
        FinalizeConsistent(s);
      } else {
        var after := BumpAll(pending, due, s.clock.rtt, |pending|, now);
        assert after.Keys == pending.Keys;
        assert |after| == |after.Keys|;
        forall h | h in after ensures 1 <= after[h].tries <= MAX_TRIES {
          if h in due { assert pending[h].tries < MAX_TRIES; }
        }
        FlowTimeoutsKeepBounds(s.flow, s.clock.rtt, |due|);
      }
    }
  }

  lemma HandleDataConsistent(s: Link, p: Incoming, now: real)
    requires Consistent(s)
    ensures Consistent(HandleData(s, p, now).0)
  {
    var t := NoteInbound(s, p.context, now);
    assert Consistent(t);
    match p.context
    case ChannelData =>
      if ChannelIsOpen(t.chan) && p.plain.Some? { ReceiveKeepsRing(t.chan, p.plain.value); }
    case LinkClose => FinalizeConsistent(t);
    case LinkRtt =>
      if p.peerRtt.Some? {
        FlowRefreshEntersClass(t.flow, MaxReal(Since(now, t.clock.requestTime), p.peerRtt.value));
      }
    case _ =>
  }

  lemma AcceptProofConsistent(s: Link, h: Hash)
    requires Consistent(s)
    ensures Consistent(AcceptProof(s, h))
  {
    if h in s.chan.pending {
      var rest := s.chan.pending - {h};
      assert rest.Keys == s.chan.pending.Keys - {h};
      assert |rest| == |rest.Keys| && |s.chan.pending| == |s.chan.pending.Keys|;
      FlowDeliveryKeepsBounds(s.flow, s.clock.rtt);
    }
  }

  lemma HandlePacketConsistent(s: Link, p: Incoming, iface: Iface, now: real)
    requires Consistent(s)
    ensures Consistent(HandlePacket(s, p, iface, now).0)
  {
    match p.kind
    case Data => HandleDataConsistent(s, p, now);
    case Proof =>
      if s.status == Active && p.proves.Some? {
        assert Consistent(NoteInbound(s, p.context, now));
        AcceptProofConsistent(NoteInbound(s, p.context, now), p.proves.value);
      }
      FlowRefreshEntersClass(s.flow, Since(now, s.clock.requestTime));
    case OtherKind =>
  }

  lemma SendConsistent(s: Link, m: Draft, now: real)
    requires Consistent(s)
    ensures Consistent(SendMessage(s, m, now).0)
  {
    if s.status == Active && |s.chan.pending| < s.flow.window && FitsPacket(m.payload) {
      var after := SendMessage(s, m, now).0.chan.pending;
      assert after.Keys == s.chan.pending.Keys + {m.hash};
      assert |after| == |after.Keys| && |s.chan.pending| == |s.chan.pending.Keys|;
    }
  }

  lemma MarkFailedConsistent(s: Link, q: u16, found: Option<Hash>)
    requires Consistent(s)
    ensures Consistent(MarkFailed(s, q, found))
  {
    if found.Some? {
      var rest := s.chan.pending - {found.value};
      assert rest.Keys == s.chan.pending.Keys - {found.value};
      assert |rest| == |rest.Keys| && |s.chan.pending| == |s.chan.pending.Keys|;
    }
  }

  lemma RequestConsistent(s: Link, id: LinkId, now: real)
    requires Consistent(s)
    ensures Consistent(RequestLink(s, id, now))
  {
    FlowRefreshEntersClass(s.flow, s.clock.rtt);
  }

  lemma RestartConsistent(s: Link)
    requires Consistent(s)
    ensures Consistent(Restart(s))
  {
    FlowRefreshEntersClass(s.flow, s.clock.rtt);
  }

  lemma TeardownConsistent(s: Link, built: bool, now: real)
    requires Consistent(s)
    ensures Consistent(Teardown(s, built, now).0)
  {
    FinalizeConsistent(s);
    FinalizeConsistent(NoteOutbound(s, LinkClose, now));
  }

  lemma WatchdogConsistent(s: Link, initiator: bool, built: bool, now: real)
    requires Consistent(s)
    ensures Consistent(CheckWatchdog(s, initiator, built, now).0)
  {
    TeardownConsistent(s, built, now);
  }

  /** Events that touch neither window nor numbers. */
  lemma SettingConsistent(s: Link, e: Event)
    requires Consistent(s)
    requires e.DoProve? || e.DoNoteOutbound? || e.DoSetOpen? || e.DoSetHandlers? || e.DoSetIface?
    ensures Consistent(Step(s, e))
  {
  }

  /** No event of any kind leaves the consistent states. */
  lemma StepConsistent(s: Link, e: Event)
    requires Consistent(s)
    ensures Consistent(Step(s, e))
  {
    match e
    case DoRequest(id, now) => RequestConsistent(s, id, now);
    case DoPacket(p, iface, now) => HandlePacketConsistent(s, p, iface, now);
    case DoSend(m, now) => SendConsistent(s, m, now);
    case DoMarkFailed(q, found) => MarkFailedConsistent(s, q, found);
    case DoPoll(now) => PollConsistent(s, now);
    case DoWatchdog(initiator, built, now) => WatchdogConsistent(s, initiator, built, now);
    case DoTeardown(built, now) => TeardownConsistent(s, built, now);
    case DoRestart => RestartConsistent(s);
    case _ => SettingConsistent(s, e);
  }

  /** Every reachable state is consistent: outstanding packets only while Active or Stale, never more than 48,
      Stale exactly when `stale_since` is set, window bounds in their class, tries in 1..5, ring keys in the window. */
  lemma {:induction false} ReachableConsistent(s: Link, es: seq<Event>)
    requires Consistent(s)
    ensures Consistent(Run(s, es))
  {
    if es != [] {
      ReachableConsistent(s, es[..|es| - 1]);
      StepConsistent(Run(s, es[..|es| - 1]), es[|es| - 1]);
    }
  }

  /** Both ways of creating a link start consistent. */
  lemma NewLinksConsistent(now: real, id: LinkId)
    ensures Consistent(NewLink(now, id)) && Consistent(NewFromRequest(now, id))
  {
  }

  // ----- the ledger of sent messages --------------------------------------------------------------------

  predicate UniqueSequences(pending: map<Hash, Outstanding>)
  {
    forall h, k :: h in pending && k in pending && pending[h].sequence == pending[k].sequence ==> h == k
  }

  predicate IsSent(states: map<u16, MessageState>, q: u16) { q in states && states[q] == Sent }

  /** `Sent` exactly when one outstanding packet carries the number. */
  predicate Ledger(c: Chan)
  {
    && UniqueSequences(c.pending)
    && (forall q :: q in c.states ==> c.states[q] != New)
    && (forall q :: IsSent(c.states, q) <==> q in PendingSequences(c.pending))
  }

  /** The packet hash is new and no outstanding packet still carries the next sequence number. */
  predicate FreshSend(c: Chan, h: Hash)
  {
    h !in c.pending && c.nextTx !in PendingSequences(c.pending)
  }

  /** What the callers of the link owe the ledger: fresh hashes and numbers, and a search that finds what is there. */
  predicate Owed(s: Link, e: Event)
  {
    match e
    case DoSend(m, now) => SendMessage(s, m, now).1.Accepted? ==> FreshSend(s.chan, m.hash)
    case DoMarkFailed(q, found) => Finds(s.chan.pending, q, found)
    case _ => true
  }

  lemma FailAllLedger(c: Chan, d: Chan)
    requires Ledger(c) && d.pending == map[] && d.states == FailAll(c.states, c.pending)
    ensures Ledger(d)
    ensures forall q :: q in c.states ==> q in d.states && d.states[q] == if IsSent(c.states, q) then Failed else c.states[q]
  {
    forall q ensures !IsSent(d.states, q) {
      if q in c.states && q !in PendingSequences(c.pending) { assert !IsSent(c.states, q); }
    }
  }

  lemma RemoveLedger(c: Chan, h: Hash, to: MessageState)
    requires Ledger(c) && h in c.pending && to in {Delivered, Failed}
    ensures Ledger(c.(pending := c.pending - {h}, states := c.states[c.pending[h].sequence := to]))
  {
    var q := c.pending[h].sequence;
    var d := c.(pending := c.pending - {h}, states := c.states[q := to]);
    forall x ensures IsSent(d.states, x) <==> x in PendingSequences(d.pending) {
      if x in PendingSequences(d.pending) {
        var k :| k in d.pending && d.pending[k].sequence == x;
        assert k in c.pending && c.pending[k].sequence == x;
        assert k != h && x != q && IsSent(c.states, x);
      } else {
        assert forall k :: k in c.pending && k != h ==> k in d.pending && d.pending[k].sequence != x;
        assert x == q || x !in PendingSequences(c.pending);
        assert IsSent(c.states, x) <==> x in PendingSequences(c.pending);
      }
    }
  }

  /** A send keeps the ledger exactly when its hash and its sequence number are fresh. */
  lemma SendKeepsLedgerIff(s: Link, m: Draft, now: real)
    requires Ledger(s.chan) && SendMessage(s, m, now).1.Accepted?
    ensures Ledger(SendMessage(s, m, now).0.chan) <==>
            FreshSend(s.chan, m.hash) || (m.hash in s.chan.pending && s.chan.pending[m.hash].sequence == s.chan.nextTx)
  {
    var c, d := s.chan, SendMessage(s, m, now).0.chan;
    var q, h := c.nextTx, m.hash;
    assert h in d.pending && d.pending[h].sequence == q;
    if h in c.pending {
      if c.pending[h].sequence != q {
        var x := c.pending[h].sequence;
        assert IsSent(d.states, x) by { assert IsSent(c.states, x); }
        if x in PendingSequences(d.pending) {
          var k :| k in d.pending && d.pending[k].sequence == x;
          assert k != h && k in c.pending;
        }
      } else {
        SendLedger(c, d, h);
      }
    } else if q in PendingSequences(c.pending) {
      var k :| k in c.pending && c.pending[k].sequence == q;
      assert k in d.pending && k != h;
    } else {
      SendLedger(c, d, h);
    }
  }

  lemma SendLedger(c: Chan, d: Chan, h: Hash)
    requires Ledger(c)
    requires c.nextTx !in PendingSequences(c.pending) || (h in c.pending && c.pending[h].sequence == c.nextTx)
    requires h in c.pending ==> c.pending[h].sequence == c.nextTx
    requires h in d.pending && d.pending[h].sequence == c.nextTx
    requires d.pending == c.pending[h := d.pending[h]] && d.states == c.states[c.nextTx := Sent]
    ensures Ledger(d)
  {
    assert d.pending.Keys == c.pending.Keys + {h};
    forall x ensures IsSent(d.states, x) <==> x in PendingSequences(d.pending) {
      if x == c.nextTx {
        assert d.pending[h].sequence == x;
      } else if IsSent(c.states, x) {
        var k :| k in c.pending && c.pending[k].sequence == x;
        assert k in d.pending && d.pending[k].sequence == x;
      } else {
        assert forall k :: k in d.pending && k != h ==> d.pending[k].sequence != x;
      }
    }
  }

  lemma PollLedger(s: Link, now: real)
    requires Ledger(s.chan)
    ensures Ledger(Poll(s, now).0.chan)
  {
    var c, d := s.chan, Poll(s, now).0.chan;
    var due := TimedOut(c.pending, now);
    if s.status in {Active, Stale} && due != {} {
      if Exhausted(c.pending, due) {
        FailAllLedger(c, d);
      } else {
        assert forall h :: h in d.pending <==> h in c.pending;
        assert forall h :: h in d.pending ==> d.pending[h].sequence == c.pending[h].sequence;
        assert PendingSequences(d.pending) == PendingSequences(c.pending);
      }
    }
  }

  /** A data packet leaves the verdicts alone, unless it closes the link. */
  lemma DataVerdicts(s: Link, p: Incoming, now: real)
    ensures var t, c := NoteInbound(s, p.context, now), HandleData(s, p, now).0.chan;
            || (c.states == s.chan.states && c.pending == s.chan.pending)
            || (c == Finalize(t).chan && p.context == LinkClose)
  {
    var t := NoteInbound(s, p.context, now);
    NoteInboundOnlyClock(s, p.context, now);
    match p.context
    case ChannelData =>
      if p.plain.Some? {
        ReceiveOnlyReceives(t.chan, p.plain.value);
      }
    case _ =>
  }

  lemma NoteInboundOnlyClock(s: Link, context: Context, now: real)
    ensures NoteInbound(s, context, now).chan == s.chan
  {
  }

  lemma ReceiveOnlyReceives(c: Chan, raw: bytes)
    ensures var d := ReceiveFrame(c, raw).0; d == c.(ring := d.ring, nextRx := d.nextRx, dispatched := d.dispatched)
  {
  }

  lemma DataLedger(s: Link, p: Incoming, now: real)
    requires Ledger(s.chan)
    ensures Ledger(HandleData(s, p, now).0.chan)
  {
    var t := NoteInbound(s, p.context, now);
    DataVerdicts(s, p, now);
    FailAllLedger(s.chan, Finalize(t).chan);
  }

  lemma PacketLedger(s: Link, p: Incoming, iface: Iface, now: real)
    requires Ledger(s.chan)
    ensures Ledger(HandlePacket(s, p, iface, now).0.chan)
  {
    match p.kind
    case Data => DataLedger(s, p, now);
    case Proof =>
      if p.proves.Some? && p.proves.value in s.chan.pending {
        RemoveLedger(s.chan, p.proves.value, Delivered);
      }
    case OtherKind =>
  }

  lemma OwedSendLedger(s: Link, m: Draft, now: real)
    requires Ledger(s.chan) && Owed(s, DoSend(m, now))
    ensures Ledger(SendMessage(s, m, now).0.chan)
  {
    if SendMessage(s, m, now).1.Accepted? {
      SendKeepsLedgerIff(s, m, now);
    }
  }

  lemma MarkFailedLedger(s: Link, q: u16, found: Option<Hash>)
    requires Ledger(s.chan) && Finds(s.chan.pending, q, found)
    ensures Ledger(MarkFailed(s, q, found).chan)
  {
    if found.Some? {
      RemoveLedger(s.chan, found.value, Failed);
    } else {
      var d := MarkFailed(s, q, found).chan;
      assert forall x :: x != q ==> (IsSent(d.states, x) <==> IsSent(s.chan.states, x));
    }
  }

  lemma TeardownLedger(s: Link, built: bool, now: real)
    requires Ledger(s.chan)
    ensures Ledger(Teardown(s, built, now).0.chan)
  {
    FailAllLedger(s.chan, Teardown(s, built, now).0.chan);
  }

  lemma WatchdogLedger(s: Link, initiator: bool, built: bool, now: real)
    requires Ledger(s.chan)
    ensures Ledger(CheckWatchdog(s, initiator, built, now).0.chan)
  {
    TeardownLedger(s, built, now);
  }

  lemma RestartLedger(s: Link)
    requires Ledger(s.chan)
    ensures Ledger(Restart(s).chan)
  {
    FailAllLedger(s.chan, Restart(s).chan);
  }

  lemma StepLedger(s: Link, e: Event)
    requires Ledger(s.chan) && Owed(s, e)
    ensures Ledger(Step(s, e).chan)
  {
    match e
    case DoPacket(p, iface, now) => PacketLedger(s, p, iface, now);
    case DoSend(m, now) => OwedSendLedger(s, m, now);
    case DoMarkFailed(q, found) => MarkFailedLedger(s, q, found);
    case DoPoll(now) => PollLedger(s, now);
    case DoWatchdog(initiator, built, now) => WatchdogLedger(s, initiator, built, now);
    case DoTeardown(built, now) => TeardownLedger(s, built, now);
    case DoRestart => RestartLedger(s);
    case _ =>
  }

  predicate OwedAll(s: Link, es: seq<Event>)
    decreases |es|
  {
    es == [] || (OwedAll(s, es[..|es| - 1]) && Owed(Run(s, es[..|es| - 1]), es[|es| - 1]))
  }

  /** In every reachable state a number is `Sent` exactly when a single outstanding packet carries it. */
  lemma {:induction false} ReachableLedger(s: Link, es: seq<Event>)
    requires Ledger(s.chan) && OwedAll(s, es)
    ensures Ledger(Run(s, es).chan)
  {
    if es != [] {
      ReachableLedger(s, es[..|es| - 1]);
      StepLedger(Run(s, es[..|es| - 1]), es[|es| - 1]);
    }
  }

  // ----- verdicts on accepted messages ------------------------------------------------------------------

  /** The sequence numbers accepted since the last link request. */
  function AcceptedIn(s: Link, es: seq<Event>): set<u16>
  {
    if es == [] then {}
    else
      var before, e := es[..|es| - 1], es[|es| - 1];
      var t := Run(s, before);
      match e
      case DoRequest(_, _) => {}
      case DoSend(m, now) =>
        var r := SendMessage(t, m, now).1;
        AcceptedIn(s, before) + if r.Accepted? then {r.sequence} else {}
      case _ => AcceptedIn(s, before)
  }

  /** How the states may move: nothing is forgotten, and nothing becomes Delivered. */
  predicate OnlyFails(before: map<u16, MessageState>, after: map<u16, MessageState>)
  {
    forall q :: q in before ==> q in after && after[q] in {before[q], Failed}
  }

  predicate IsDelivered(states: map<u16, MessageState>, q: u16) { q in states && states[q] == Delivered }

  /** Away from proofs, sends and requests a packet can only fail messages. */
  lemma PacketOnlyFails(s: Link, p: Incoming, iface: Iface, now: real)
    requires p.kind != Proof
    ensures var c := HandlePacket(s, p, iface, now).0.chan;
            && OnlyFails(s.chan.states, c.states)
            && forall q :: q in c.states && q !in s.chan.states ==> c.states[q] == Failed
  {
    if p.kind == Data {
      DataVerdicts(s, p, now);
    }
  }

  /** The one proof that settles the message numbered `q`. */
  predicate Settles(s: Link, e: Event, q: u16)
  {
    && e.DoPacket? && e.p.kind == Proof && s.status == Active && e.p.proves.Some?
    && e.p.proves.value in s.chan.pending && s.chan.pending[e.p.proves.value].sequence == q
  }

  /** How one event can change the verdict on a number: only a new request forgets it, it becomes `Delivered`
      only by a proof of the outstanding packet with that number while Active, and it never goes back to `New`. */
  lemma StepVerdict(s: Link, e: Event, q: u16)
    ensures var c, d := s.chan, Step(s, e).chan;
            && (q in c.states && !e.DoRequest? ==> q in d.states && (d.states[q] != New || c.states[q] == New))
            && (IsDelivered(d.states, q) && !IsDelivered(c.states, q) ==> Settles(s, e, q))
  {
    match e
    case DoPacket(p, iface, now) =>
      if p.kind == Proof {
        ProofVerdict(s, p, iface, now, q);
      } else {
        PacketOnlyFails(s, p, iface, now);
      }
    case _ => OtherVerdict(s, e, q);
  }

  lemma ProofVerdict(s: Link, p: Incoming, iface: Iface, now: real, q: u16)
    requires p.kind == Proof
    ensures var c, d := s.chan, HandlePacket(s, p, iface, now).0.chan;
            && (q in c.states ==> q in d.states && (d.states[q] != New || c.states[q] == New))
            && (IsDelivered(d.states, q) && !IsDelivered(c.states, q) ==> Settles(s, DoPacket(p, iface, now), q))
  {
  }

  lemma OtherVerdict(s: Link, e: Event, q: u16)
    requires !e.DoPacket?
    ensures var c, d := s.chan, Step(s, e).chan;
            && (q in c.states && !e.DoRequest? ==> q in d.states && (d.states[q] != New || c.states[q] == New))
            && (IsDelivered(d.states, q) ==> IsDelivered(c.states, q))
  {
    match e
    case DoWatchdog(initiator, built, now) => WatchdogStates(s, initiator, built, now);
    case DoPoll(now) => PollStates(s, now);
    case DoTeardown(built, now) => TeardownStates(s, built, now);
    case DoSend(m, now) => SendStates(s, m, now);
    case _ =>
  }

  lemma SendStates(s: Link, m: Draft, now: real)
    ensures var (t, answer) := SendMessage(s, m, now);
            t.chan.states == if answer.Accepted? then s.chan.states[s.chan.nextTx := Sent] else s.chan.states
  {
  }

  lemma PollStates(s: Link, now: real)
    ensures Poll(s, now).0.chan.states in {s.chan.states, FailAll(s.chan.states, s.chan.pending)}
  {
  }

  lemma TeardownStates(s: Link, built: bool, now: real)
    ensures Teardown(s, built, now).0.chan.states == FailAll(s.chan.states, s.chan.pending)
  {
  }

  lemma WatchdogStates(s: Link, initiator: bool, built: bool, now: real)
    ensures CheckWatchdog(s, initiator, built, now).0.chan.states in {s.chan.states, FailAll(s.chan.states, s.chan.pending)}
  {
  }

  /** A valid proof of an outstanding packet settles its message exactly when it comes over the link's own interface, to the
      link's own address, while the link is Active. */
  lemma ProofSettlesIff(s: Link, p: Incoming, iface: Iface, now: real, q: u16)
    requires Ledger(s.chan) && p.kind == Proof && p.context == LinkProof && p.proves.Some?
    requires p.proves.value in s.chan.pending && s.chan.pending[p.proves.value].sequence == q
    ensures IsDelivered(HandlePacket(s, p, iface, now).0.chan.states, q)
            <==> s.status == Active && p.dest == s.id && (s.iface.None? || s.iface.value == iface)
  {
    assert q in PendingSequences(s.chan.pending);
    assert IsSent(s.chan.states, q);
  }

  /** Nothing but proofs arrives. */
  predicate OnlyProofs(es: seq<Event>)
  {
    forall e :: e in es ==> e.DoPacket? && e.p.kind == Proof
  }

  lemma {:induction false} StaleIgnoresProofs(s: Link, es: seq<Event>)
    requires s.status == Stale && OnlyProofs(es)
    ensures Run(s, es) == s
  {
    if es != [] {
      StaleIgnoresProofs(s, es[..|es| - 1]);
      assert es[|es| - 1] in es;
    }
  }

  /** A Stale link that hears nothing but proofs, even valid ones of what is outstanding, drops them all; when its grace
      period is over it is closed and every one of its messages has failed. */
  lemma ProofsDoNotSaveStaleLink(s: Link, es: seq<Event>, initiator: bool, built: bool, now: real, q: u16)
    requires Consistent(s) && s.status == Stale && OnlyProofs(es) && q in PendingSequences(s.chan.pending)
    requires Since(now, s.clock.staleSince.value) >= StaleTimeout(s.clock)
    ensures var t := CheckWatchdog(Run(s, es), initiator, built, now).0;
            t.status == Closed && q in t.chan.states && t.chan.states[q] == Failed
  {
    StaleIgnoresProofs(s, es);
    StaleExpires(s, initiator, built, now, q);
  }

  lemma StaleExpires(s: Link, initiator: bool, built: bool, now: real, q: u16)
    requires Consistent(s) && s.status == Stale && q in PendingSequences(s.chan.pending)
    requires Since(now, s.clock.staleSince.value) >= StaleTimeout(s.clock)
    ensures var t := CheckWatchdog(s, initiator, built, now).0;
            t.status == Closed && q in t.chan.states && t.chan.states[q] == Failed
  {
    assert CheckWatchdog(s, initiator, built, now).0 == Teardown(s, built, now).0;
  }

  /** The round-trip time after an RTT packet is the peer's figure: the link's own measurement starts with the arrival of that
      very packet and so is zero. */
  lemma OnlyPeerRttCounts(s: Link, p: Incoming, now: real)
    requires p.context == LinkRtt && p.plain.Some? && p.peerRtt.Some?
    ensures HandleData(s, p, now).0.clock.rtt == MaxReal(0.0, p.peerRtt.value)
  {
  }

  /** The ways in which a link becomes Active. */
  predicate Activates(s: Link, t: Link, now: real)
  {
    t == ProveLink(s, now) || t == Activate(s, now)
  }

  /** A restarted link goes on with the number it had reached, on a channel as open as it was; a link requested anew starts
      with number 0. */
  lemma FirstNumberAfter(s: Link, id: LinkId, restarted: Link, requested: Link, m: Draft, now: real)
    requires Consistent(s) && Activates(Restart(s), restarted, now) && Activates(RequestLink(s, id, now), requested, now)
    ensures restarted.chan.open == s.chan.open && !requested.chan.open
    ensures FitsPacket(m.payload) ==> && SendMessage(restarted, m, now).1 == Accepted(s.chan.nextTx, m.hash)
                                      && SendMessage(requested, m, now).1 == Accepted(0, m.hash)
    ensures !FitsPacket(m.payload) ==> && SendMessage(restarted, m, now).1 == TooLarge
                                       && SendMessage(restarted, m, now).0.chan.nextTx == Next16(s.chan.nextTx)
  {
    RestartConsistent(s);
    RequestConsistent(s, id, now);
    FlowRefreshEntersClass(s.flow, Since(now, s.clock.requestTime));
    FlowRefreshEntersClass(Restart(s).flow, Since(now, s.clock.requestTime));
    FlowRefreshEntersClass(RequestLink(s, id, now).flow, 0.0);
  }

  /** In every reachable state each message accepted in this session is outstanding, Delivered or Failed,
      and it is outstanding exactly when its verdict is still open. */
  lemma {:induction false} AcceptedMessagesAccountedFor(s: Link, es: seq<Event>, q: u16)
    requires Ledger(s.chan) && OwedAll(s, es) && q in AcceptedIn(s, es)
    ensures var c := Run(s, es).chan;
            && q in c.states && c.states[q] in {Sent, Delivered, Failed}
            && (q in PendingSequences(c.pending) <==> c.states[q] == Sent)
  {
    ReachableLedger(s, es);
    var before, e := es[..|es| - 1], es[|es| - 1];
    var t := Run(s, before);
    ReachableLedger(s, before);
    if q in AcceptedIn(s, before) && !e.DoRequest? {
      AcceptedMessagesAccountedFor(s, before, q);
      StepVerdict(t, e, q);
    } else {
      assert q in Step(t, e).chan.states;
    }
  }
}
