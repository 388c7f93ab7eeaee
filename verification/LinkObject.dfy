/** The mutable link of destination/link.rs. Every method is proved to act on the fields
    as the function of the same operation in LinkModel acts on the value, and every operation of
    the link keeps the object valid, whatever has happened to it before. */
module LinkObject {
  import opened Bytes
  import opened Envelopes
  import opened FlowControl
  import opened LinkModel
  import opened LinkRuns

  class ChannelLink {
    var status: Status
    var id: LinkId
    var ingressIface: Option<Iface>

    var clock: Clock
    var chan: Chan
    var flow: Flow

    /** The value this object stands for. */
    function State(): Link
      reads this
    {
      Link(status, id, ingressIface, chan, flow, clock)
    }

    /** What holds of a link between any two operations. */
    ghost predicate Valid()
      reads this
    {
      Consistent(State())
    }

    constructor (now: real, id: LinkId)
      ensures Valid() && State() == NewLink(now, id)
    {
      status, this.id, ingressIface := Pending, id, None;
      clock := Clock(now, 0.0, None, None, None, None, None, None, None, KEEPALIVE_MAX, KEEPALIVE_MAX * STALE_FACTOR);
      chan := Chan(0, 0, false, {}, map[], map[], map[], []);
      flow := Flow(WINDOW_INIT, WINDOW_MAX_SLOW, WINDOW_MIN, WINDOW_FLEXIBILITY, 0, 0);
    }

    // ----- flow control ---------------------------------------------------------------------------------

    method ResetFlowControl()
      modifies this
      ensures State() == old(State()).(flow := Reset(clock.rtt))
    {
      var p := Profile(clock.rtt);
      flow := flow.(window := p.0, max := p.1, min := p.2, flex := p.3);
      flow := flow.(fastRounds := 0, mediumRounds := 0);
    }

    method RefreshFlowControl()
      modifies this
      ensures State() == old(State()).(flow := Refresh(old(flow), clock.rtt))
    {
      var p := Profile(clock.rtt);
      flow := flow.(max := p.1, min := p.2, flex := p.3);
      if flow.window < flow.min || flow.window == 0 {
        flow := flow.(window := if flow.min >= p.0 then flow.min else p.0);
      }
      if flow.window > flow.max {
        flow := flow.(window := flow.max);
      }
    }

    method NoteChannelDelivery()
      requires Valid()
      modifies this
      ensures Valid()
      ensures State() == old(State()).(flow := NoteDelivery(old(flow), clock.rtt))
    {
      FlowDeliveryKeepsBounds(flow, clock.rtt);
      if flow.window < flow.max {
        flow := flow.(window := Add8(flow.window, 1));
      }
      if clock.rtt == 0.0 {
        return;
      }
      if clock.rtt > RTT_FAST {
        flow := flow.(fastRounds := 0);
        if clock.rtt > RTT_MEDIUM {
          flow := flow.(mediumRounds := 0);
        } else {
          flow := flow.(mediumRounds := SatInc8(flow.mediumRounds));
          if flow.max < WINDOW_MAX_MEDIUM && flow.mediumRounds == FAST_RATE_THRESHOLD {
            flow := flow.(max := WINDOW_MAX_MEDIUM, min := WINDOW_MIN_LIMIT_MEDIUM);
            if flow.window < flow.min {
              flow := flow.(window := flow.min);
            }
          }
        }
      } else {
        flow := flow.(fastRounds := SatInc8(flow.fastRounds));
        if flow.max < WINDOW_MAX_FAST && flow.fastRounds == FAST_RATE_THRESHOLD {
          flow := flow.(max := WINDOW_MAX_FAST, min := WINDOW_MIN_LIMIT_FAST);
          if flow.window < flow.min {
            flow := flow.(window := flow.min);
          }
        }
      }
    }

    method NoteChannelTimeout()
      modifies this
      ensures State() == old(State()).(flow := NoteTimeout(old(flow)))
    {
      flow := flow.(fastRounds := 0, mediumRounds := 0);
      if flow.window > flow.min {
        flow := flow.(window := Sub8(flow.window, 1));
      }
      if flow.max > Add8(flow.min, flow.flex) {
        flow := flow.(max := Sub8(flow.max, 1));
      }
      if flow.window > flow.max {
        flow := flow.(window := flow.max);
      }
    }

    // ----- sending --------------------------------------------------------------------------------------

    method SendChannelMessage(m: Draft, now: real) returns (r: SendResult)
      requires Valid()
      modifies this
      ensures Valid()
      ensures (State(), r) == SendMessage(old(State()), m, now)
    {
      SendConsistent(State(), m, now);
      if status != Active {
        return NotReady;
      }
      chan := chan.(open := true);
      if |chan.pending| >= flow.window {
        return NotReady;
      }
      var sequence := chan.nextTx;
      chan := chan.(nextTx := Next16(chan.nextTx));
      var envelope := Envelope(m.msgType, sequence, m.payload);
      PackLength(envelope);
      var raw := Pack(envelope);
      if EncryptedLen(|raw|) > PACKET_MDU {
        return TooLarge;
      }
      var hash := m.hash;
      var timeoutAt := now + RetryTimeout(clock.rtt, 1, |chan.pending| + 1);
      chan := chan.(pending := chan.pending[hash := Outstanding(sequence, 1, timeoutAt)]);
      chan := chan.(states := chan.states[sequence := Sent]);
      return Accepted(sequence, hash);
    }

    /** The search visits the outstanding packets in no particular order. */
    method MarkChannelFailed(sequence: u16) returns (found: Option<Hash>)
      requires Valid()
      modifies this
      ensures Valid() && Finds(old(chan.pending), sequence, found)
      ensures State() == MarkFailed(old(State()), sequence, found)
    {
      found := None;
      var rest := chan.pending.Keys;
      while rest != {} && found.None?
        invariant rest <= chan.pending.Keys && State() == old(State())
        invariant found.Some? ==> found.value in chan.pending && chan.pending[found.value].sequence == sequence
        invariant found.None? ==> forall h :: h in chan.pending && h !in rest ==> chan.pending[h].sequence != sequence
        decreases rest
      {
        var hash :| hash in rest;
        if chan.pending[hash].sequence == sequence {
          found := Some(hash);
        }
        rest := rest - {hash};
      }
      MarkFailedConsistent(State(), sequence, found);
      if found.Some? {
        chan := chan.(pending := chan.pending - {found.value});
      }
      chan := chan.(states := chan.states[sequence := Failed]);
    }

    /** The drain shared by a failed poll, a close and a restart. */
    method FailOutstanding()
      modifies this
      ensures State() == old(State()).(chan := old(chan).(pending := map[],
                                       states := FailAll(old(chan.states), old(chan.pending))))
    {
      while chan.pending != map[]
        invariant State() == old(State()).(chan := old(chan).(pending := chan.pending, states := chan.states))
        invariant FailAll(chan.states, chan.pending) == FailAll(old(chan.states), old(chan.pending))
        decreases |chan.pending|
      {
        var hash :| hash in chan.pending;
        FailOne(chan.states, chan.pending, hash);
        chan := chan.(states := chan.states[chan.pending[hash].sequence := Failed]);
        chan := chan.(pending := chan.pending - {hash});
      }
      NothingToFail(chan.states);
    }

    /** One overdue packet: it is sent again, unless it has no tries left. */
    method ResendOne(hash: Hash, outstanding: nat, now: real) returns (resent: bool)
      requires hash in chan.pending
      modifies this
      ensures resent == (old(chan.pending)[hash].tries < MAX_TRIES)
      ensures State() == old(State()).(
                  flow := NoteTimeout(old(flow)),
                  chan := old(chan).(pending := if !resent then old(chan.pending)
                          else old(chan.pending)[hash := Bump(old(chan.pending)[hash], clock.rtt, outstanding, now)]))
    {
      NoteChannelTimeout();
      if chan.pending[hash].tries >= MAX_TRIES {
        return false;
      }
      var tries := Add8(chan.pending[hash].tries, 1);
      var retryAt := now + RetryTimeout(clock.rtt, tries, outstanding);
      chan := chan.(pending := chan.pending[hash := chan.pending[hash].(tries := tries, nextRetryAt := retryAt)]);
      return true;
    }

    /** The loop of a poll over the overdue packets, in no particular order; it stops at one that has no tries left. */
    method ResendOverdue(due: set<Hash>, now: real) returns (resend: set<Hash>, exhausted: bool)
      requires due <= chan.pending.Keys
      modifies this
      ensures exhausted == Exhausted(old(chan.pending), due) && resend <= due && (!exhausted ==> resend == due)
      ensures State() == old(State()).(flow := flow,
                  chan := old(chan).(pending := BumpAll(old(chan.pending), resend, clock.rtt, |old(chan.pending)|, now)))
      ensures !exhausted ==> flow == NoteTimeouts(old(flow), |due|)
    {
      var outstanding := |chan.pending|;
      resend := {};
      while resend != due
        invariant resend <= due
        invariant flow == NoteTimeouts(old(flow), |resend|)
        invariant State() == old(State()).(flow := flow,
                    chan := old(chan).(pending := BumpAll(old(chan.pending), resend, clock.rtt, outstanding, now)))
        invariant forall h :: h in resend ==> old(chan.pending)[h].tries < MAX_TRIES
        decreases due - resend
      {
        assert due - resend != {};
        var hash :| hash in due - resend;
        BumpOneMore(old(chan.pending), resend, hash, clock.rtt, outstanding, now);
        var resent := ResendOne(hash, outstanding, now);
        if !resent {
          return resend, true;
        }
        assert |resend + {hash}| == |resend| + 1;
        assert chan.pending == BumpAll(old(chan.pending), resend + {hash}, clock.rtt, outstanding, now);
        resend := resend + {hash};
      }
      return resend, false;
    }

    method PollChannelTimeouts(now: real) returns (resend: set<Hash>)
      requires Valid()
      modifies this
      ensures Valid()
      ensures (State(), resend) == Poll(old(State()), now)
    {
      PollConsistent(State(), now);
      if status != Active && status != Stale {
        return {};
      }
      var due := TimedOut(chan.pending, now);
      if due == {} {
        return {};
      }
      resend := ResendOrClose(due, now);
    }

    /** Overdue packets are sent again, or the link is given up. */
    method ResendOrClose(due: set<Hash>, now: real) returns (resend: set<Hash>)
      requires due == TimedOut(chan.pending, now) && due != {} && status in {Active, Stale}
      modifies this
      ensures (State(), resend) == Poll(old(State()), now)
    {
      var exhausted;
      resend, exhausted := ResendOverdue(due, now);
      if exhausted {
        BumpSequences(old(chan.pending), resend, clock.rtt, |old(chan.pending)|, now);
        FailOutstanding();
        FinalizeLocalClose();
        assert chan == Finalize(old(State())).chan;
        return {};
      }
    }

    // ----- receiving ------------------------------------------------------------------------------------

    method HandleChannelFrame(raw: bytes) returns (accepted: bool)
      requires Valid()
      modifies this
      ensures Valid()
      ensures State() == old(State()).(chan := ReceiveFrame(old(chan), raw).0)
      ensures accepted == ReceiveFrame(old(chan), raw).1
    {
      ReceiveKeepsRing(chan, raw);
      if !ChannelIsOpen(chan) {
        return false;
      }
      var unpacked := Unpack(raw);
      if unpacked.None? {
        return false;
      }
      var envelope := unpacked.value;
      var distance := Distance(envelope.sequence, chan.nextRx);
      if distance >= 0x8000 {
        return false;
      }
      if distance >= RX_WINDOW {
        return false;
      }
      var duplicate := envelope.sequence in chan.ring;
      chan := chan.(ring := chan.ring[envelope.sequence := envelope]);
      if duplicate {
        return false;
      }
      var ready := TakeReady();
      Dispatch(ready);
      return true;
    }

    /** The loop that hands envelopes to the handlers of their types. */
    method Dispatch(ready: seq<Envelope>)
      modifies this
      ensures State() == old(State()).(chan := old(chan).(dispatched := old(chan).dispatched + ready))
    {
      for i := 0 to |ready|
        invariant State() == old(State()).(chan := old(chan).(dispatched := old(chan).dispatched + ready[..i]))
      {
        chan := chan.(dispatched := chan.dispatched + [ready[i]]);
        assert ready[..i + 1] == ready[..i] + [ready[i]];
      }
      assert ready[..|ready|] == ready;
    }

    /** The loop that takes consecutive envelopes off the ring. */
    method TakeReady() returns (ready: seq<Envelope>)
      modifies this
      ensures var d := Drain(old(chan.ring), old(chan.nextRx));
              ready == d.2 && State() == old(State()).(chan := old(chan).(ring := d.0, nextRx := d.1))
    {
      ready := [];
      ghost var all := Drain(chan.ring, chan.nextRx);
      assert ready + all.2 == all.2;
      while chan.nextRx in chan.ring
        invariant State() == old(State()).(chan := old(chan).(ring := chan.ring, nextRx := chan.nextRx))
        invariant var d := Drain(chan.ring, chan.nextRx); all == (d.0, d.1, ready + d.2)
        decreases |chan.ring|
      {
        ghost var rest := chan.ring - {chan.nextRx};
        assert rest.Keys == chan.ring.Keys - {chan.nextRx} && |rest.Keys| < |chan.ring.Keys|;
        ghost var later := Drain(rest, Next16(chan.nextRx)).2;
        assert ready + ([chan.ring[chan.nextRx]] + later) == ready + [chan.ring[chan.nextRx]] + later;
        ready := ready + [chan.ring[chan.nextRx]];
        chan := chan.(ring := chan.ring - {chan.nextRx});
        chan := chan.(nextRx := Next16(chan.nextRx));
      }
      assert ready + [] == ready;
    }

    method NoteInboundPacket(context: Context, now: real)
      requires Valid()
      modifies this
      ensures Valid()
      ensures State() == NoteInbound(old(State()), context, now)
    {
      clock := clock.(lastInbound := Some(now));
      if status == Stale {
        status := Active;
        clock := clock.(staleSince := None);
      }
      if context != KeepAlive {
        clock := clock.(lastData := Some(now));
        clock := clock.(requestTime := now);
      }
    }

    method UpdateKeepaliveTiming()
      modifies this
      ensures State() == old(State()).(clock := UpdateKeepalive(old(clock)))
    {
      var secs := Clamp(clock.rtt * (KEEPALIVE_MAX / KEEPALIVE_MAX_RTT), KEEPALIVE_MIN, KEEPALIVE_MAX);
      clock := clock.(keepalive := secs);
      clock := clock.(staleTime := secs * STALE_FACTOR);
    }

    method HandleDataPacket(p: Incoming, now: real) returns (r: Handled)
      requires Valid()
      modifies this
      ensures Valid()
      ensures (State(), r) == HandleData(old(State()), p, now)
      ensures p.context == LinkRtt && p.plain.Some? && p.peerRtt.Some? ==> clock.rtt == MaxReal(0.0, p.peerRtt.value)
    {
      HandleDataConsistent(State(), p, now);
      NoteInboundPacket(p.context, now);
      match p.context {
        case ChannelData =>
          if !ChannelIsOpen(chan) {
            return Nothing;
          }
          if p.plain.Some? {
            var _ := HandleChannelFrame(p.plain.value);
          }
          return Proved(p.hash);
        case Generic =>
          return if p.plain.Some? then Proved(p.hash) else Nothing;
        case KeepAlive =>
          if p.data != [] && p.data[0] == 0xFF {
            clock := clock.(requestTime := now);
            return KeepAliveReply;
          }
          return Nothing;
        case LinkClose =>
          if p.plain.Some? && p.closesThis {
            FinalizeLocalClose();
          }
          return Nothing;
        case LinkRtt =>
          if p.plain.Some? && p.peerRtt.Some? {
            clock := clock.(rtt := MaxReal(Since(now, clock.requestTime), p.peerRtt.value));
            UpdateKeepaliveTiming();
            RefreshFlowControl();
            if clock.activatedAt.None? {
              clock := clock.(activatedAt := Some(now));
            }
          }
          return Nothing;
        case _ =>
          return Nothing;
      }
    }

    method HandleLinkPacket(p: Incoming, iface: Iface, now: real) returns (r: Handled)
      requires Valid()
      modifies this
      ensures Valid()
      ensures (State(), r) == HandlePacket(old(State()), p, iface, now)
      ensures old(status) == Stale && p.kind == Proof ==> State() == old(State()) && r == Nothing
    {
      HandlePacketConsistent(State(), p, iface, now);
      if p.dest != id || (ingressIface.Some? && ingressIface.value != iface) {
        return Nothing;
      }
      if p.kind == Data {
        r := HandleDataPacket(p, now);
        return;
      }
      if p.kind == Proof {
        if status == Active && p.context == LinkProof {
          if p.proves.Some? {
            NoteInboundPacket(p.context, now);
            var hash := p.proves.value;
            if hash in chan.pending {
              var sequence := chan.pending[hash].sequence;
              chan := chan.(pending := chan.pending - {hash});
              chan := chan.(states := chan.states[sequence := Delivered]);
              NoteChannelDelivery();
            }
            return Nothing;
          }
        }
        if status == Pending && p.context == LinkRequestProof && p.acceptsRequest {
          status := Handshake;
          status := Active;
          clock := clock.(rtt := Since(now, clock.requestTime));
          clock := clock.(activatedAt := Some(now));
          clock := clock.(lastProof := clock.activatedAt);
          clock := clock.(staleSince := None);
          UpdateKeepaliveTiming();
          RefreshFlowControl();
          return Activated;
        }
      }
      return Nothing;
    }

    // ----- life cycle -----------------------------------------------------------------------------------

    method Request(newId: LinkId, now: real)
      requires Valid()
      modifies this
      ensures Valid()
      ensures State() == RequestLink(old(State()), newId, now)
    {
      RequestConsistent(State(), newId, now);
      status, id := Pending, newId;
      clock := clock.(requestTime := now);
      ingressIface := None;
      clock := clock.(activatedAt := None, lastInbound := None);
      clock := clock.(lastOutbound := Some(clock.requestTime), lastData := Some(clock.requestTime));
      clock := clock.(lastKeepalive := None, lastProof := None, staleSince := None);
      clock := clock.(keepalive := KEEPALIVE_MAX, staleTime := KEEPALIVE_MAX * STALE_FACTOR);
      chan := chan.(nextTx := 0, nextRx := 0, open := false);
      chan := chan.(pending := map[], states := map[], ring := map[]);
      ResetFlowControl();
    }

    method Prove(now: real)
      requires Valid()
      modifies this
      ensures Valid()
      ensures State() == ProveLink(old(State()), now)
    {
      if status != Active {
        status := Active;
        clock := clock.(activatedAt := Some(now));
        clock := clock.(lastProof := Some(now));
        clock := clock.(staleSince := None);
      }
    }

    /** Also the way out of a poll that has changed the window already. */
    method FinalizeLocalClose()
      modifies this
      ensures old(Valid()) ==> Valid()
      ensures State() == Finalize(old(State()))
    {
      if Valid() {
        FinalizeConsistent(State());
      }
      FailOutstanding();
      chan := chan.(ring := map[]);
      chan := chan.(open := false);
      status := Closed;
      clock := clock.(lastKeepalive := None, lastProof := None, staleSince := None);
      chan := chan.(nextTx := 0, nextRx := 0);
      ResetFlowControl();
    }

    method NoteOutboundPacket(context: Context, now: real)
      requires Valid()
      modifies this
      ensures Valid()
      ensures State() == NoteOutbound(old(State()), context, now)
    {
      clock := clock.(lastOutbound := Some(now));
      if context == KeepAlive {
        clock := clock.(lastKeepalive := Some(now));
      } else {
        clock := clock.(lastData := Some(now));
      }
    }

    method TearDown(built: bool, now: real) returns (sent: bool)
      requires Valid()
      modifies this
      ensures Valid()
      ensures (State(), sent) == Teardown(old(State()), built, now)
    {
      TeardownConsistent(State(), built, now);
      sent := (status == Active || status == Stale) && built;
      if sent {
        NoteOutboundPacket(LinkClose, now);
      }
      FinalizeLocalClose();
    }

    method RestartLink()
      requires Valid()
      modifies this
      ensures Valid()
      ensures State() == Restart(old(State()))
      ensures chan.nextTx == old(chan.nextTx) && chan.open == old(chan.open)
    {
      RestartConsistent(State());
      FailOutstanding();
      chan := chan.(ring := map[]);
      status := Pending;
      ingressIface := None;
      clock := clock.(activatedAt := None, lastInbound := None, lastOutbound := None, lastData := None);
      clock := clock.(lastKeepalive := None, lastProof := None, staleSince := None);
      chan := chan.(nextRx := 0);
      clock := clock.(keepalive := KEEPALIVE_MAX, staleTime := KEEPALIVE_MAX * STALE_FACTOR);
      ResetFlowControl();
    }

    method CheckLinkWatchdog(initiator: bool, built: bool, now: real) returns (action: Watchdog)
      requires Valid()
      modifies this
      ensures Valid()
      ensures (State(), action) == CheckWatchdog(old(State()), initiator, built, now)
    {
      WatchdogConsistent(State(), initiator, built, now);
      if status == Active {
        var anchor := InboundAnchor(clock);
        if Since(now, anchor) >= clock.keepalive {
          if Since(now, anchor) >= clock.staleTime {
            status := Stale;
            clock := clock.(staleSince := Some(now));
          }
          if initiator {
            var keepaliveAnchor := OrElse(clock.lastKeepalive, anchor);
            if Since(now, keepaliveAnchor) >= clock.keepalive {
              return SendKeepAlive;
            }
          }
        }
        return Idle;
      }
      if status == Stale && clock.staleSince.Some? {
        if Since(now, clock.staleSince.value) >= clock.rtt * KEEPALIVE_TIMEOUT_FACTOR + STALE_GRACE {
          var sent := TearDown(built, now);
          return if sent then SendTeardown else Idle;
        }
      }
      return Idle;
    }
  }

  lemma BumpSequences(pending: map<Hash, Outstanding>, due: set<Hash>, rtt: real, n: nat, now: real)
    ensures PendingSequences(BumpAll(pending, due, rtt, n, now)) == PendingSequences(pending)
  {
    var after := BumpAll(pending, due, rtt, n, now);
    assert forall h :: h in after <==> h in pending;
    assert forall h :: h in after ==> after[h].sequence == pending[h].sequence;
  }

  lemma BumpOneMore(pending: map<Hash, Outstanding>, done: set<Hash>, h: Hash, rtt: real, n: nat, now: real)
    requires h in pending && h !in done
    ensures BumpAll(pending, done + {h}, rtt, n, now) == BumpAll(pending, done, rtt, n, now)[h := Bump(pending[h], rtt, n, now)]
    ensures BumpAll(pending, done, rtt, n, now)[h] == pending[h]
  {
  }

  lemma SequencesWithout(pending: map<Hash, Outstanding>, h: Hash)
    requires h in pending
    ensures PendingSequences(pending) == PendingSequences(pending - {h}) + {pending[h].sequence}
  {
    forall q | q in PendingSequences(pending) ensures q in PendingSequences(pending - {h}) + {pending[h].sequence} {
      var k :| k in pending && pending[k].sequence == q;
      if k != h { assert k in pending - {h}; }
    }
  }

  lemma NothingToFail(states: map<u16, MessageState>)
    ensures FailAll(states, map[]) == states
  {
    assert PendingSequences(map[]) == {};
  }

  /** Failing one packet first and the rest after is failing them all. */
  lemma FailOne(states: map<u16, MessageState>, pending: map<Hash, Outstanding>, h: Hash)
    requires h in pending
    ensures |pending - {h}| < |pending|
    ensures FailAll(states[pending[h].sequence := Failed], pending - {h}) == FailAll(states, pending)
  {
    assert (pending - {h}).Keys == pending.Keys - {h};
    assert |(pending - {h}).Keys| < |pending.Keys|;
    SequencesWithout(pending, h);
    FailOneNumber(states, pending[h].sequence, PendingSequences(pending - {h}));
  }

  lemma FailOneNumber(states: map<u16, MessageState>, q: u16, rest: set<u16>)
    ensures FailNumbers(states[q := Failed], rest) == FailNumbers(states, rest + {q})
  {
  }
}
