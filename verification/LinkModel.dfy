/** A link of destination/link.rs as a value, and each of its operations as a function on that value.

    Instants and durations are reals in seconds. What cryptography decides is given: the hash of a packet, what an
    incoming packet decrypts to, which hash a proof proves. Whether a message can be encrypted depends on its length. */
module LinkModel {
  import opened Bytes
  import opened Envelopes
  import opened FlowControl

  const KEEPALIVE_MAX_RTT := 1.75
  const KEEPALIVE_TIMEOUT_FACTOR := 4.0
  const STALE_GRACE := 5.0
  const KEEPALIVE_MAX := 360.0
  const KEEPALIVE_MIN := 5.0
  const STALE_FACTOR := 2.0
  const RX_WINDOW := 48
  const MAX_TRIES := 5

  type Hash = nat
  type LinkId = nat
  type Iface = nat

  datatype Status = Pending | Handshake | Active | Stale | Closed
  datatype MessageState = New | Sent | Delivered | Failed
  datatype Outstanding = Outstanding(sequence: u16, tries: u8, nextRetryAt: real)

  /** Both directions of the channel; `dispatched` lists the envelopes taken off the ring so far, in order. Each of them
      goes to the handlers of its type, and is dropped at that point if there are none. */
  datatype Chan = Chan(
    nextTx: u16, nextRx: u16, open: bool, handlers: set<u16>,
    pending: map<Hash, Outstanding>, states: map<u16, MessageState>,
    ring: map<u16, Envelope>, dispatched: seq<Envelope>)

  datatype Clock = Clock(
    requestTime: real, rtt: real, activatedAt: Option<real>, lastInbound: Option<real>, lastOutbound: Option<real>,
    lastData: Option<real>, lastKeepalive: Option<real>, lastProof: Option<real>, staleSince: Option<real>,
    keepalive: real, staleTime: real)

  datatype Link = Link(status: Status, id: LinkId, iface: Option<Iface>, chan: Chan, flow: Flow, clock: Clock)

  datatype Context = Generic | Request | Response | ChannelData | KeepAlive | LinkIdentify | LinkClose | LinkProof
                   | LinkRtt | LinkRequestProof | Other

  datatype Kind = Data | Proof | OtherKind

  /** An arriving packet. `plain` is its decryption, `proves` the hash a valid link proof names,
      `acceptsRequest` whether a link-request proof validates, `peerRtt` the time an RTT packet carries. */
  datatype Incoming = Incoming(
    dest: LinkId, kind: Kind, context: Context, hash: Hash, data: bytes,
    plain: Option<bytes>, closesThis: bool, peerRtt: Option<real>, proves: Option<Hash>, acceptsRequest: bool)

  /** A message to be sent, and the hash that its packet will have. */
  datatype Draft = Draft(msgType: u16, payload: bytes, hash: Hash)

  datatype Handled = Nothing | Activated | Proved(hash: Hash) | KeepAliveReply
  datatype SendResult = NotReady | TooLarge | Accepted(sequence: u16, hash: Hash)
  datatype Watchdog = Idle | SendKeepAlive | SendTeardown

  // ----- timing helpers ---------------------------------------------------------------------------------

  /** `Instant::duration_since`, which saturates at zero. */
  function Since(now: real, then_: real): real { if now >= then_ then now - then_ else 0.0 }

  function Latest(a: Option<real>, b: Option<real>): Option<real>
  {
    match (a, b)
    case (Some(x), Some(y)) => Some(MaxReal(x, y))
    case (None, _) => b
    case (_, None) => a
  }

  function OrElse(a: Option<real>, d: real): real { if a.Some? then a.value else d }

  function Clamp(x: real, lo: real, hi: real): real { if x < lo then lo else if x > hi then hi else x }

  /** `update_keepalive_timing` */
  function UpdateKeepalive(c: Clock): Clock
  {
    var k := Clamp(c.rtt * (KEEPALIVE_MAX / KEEPALIVE_MAX_RTT), KEEPALIVE_MIN, KEEPALIVE_MAX);
    c.(keepalive := k, staleTime := k * STALE_FACTOR)
  }

  /** `base * 1.5^n` */
  function Backoff(base: real, n: nat): real { if n == 0 then base else 1.5 * Backoff(base, n - 1) }

  /** `x * (n + 1.5)` */
  function Stretch(x: real, n: nat): real { if n == 0 then 1.5 * x else x + Stretch(x, n - 1) }

  /** `channel_retry_timeout_for` */
  function RetryTimeout(rtt: real, tries: u8, outstanding: nat): real
  {
    Stretch(Backoff(MaxReal(rtt * 2.5, 0.025), if tries == 0 then 0 else tries - 1), outstanding)
  }

  // ----- life cycle -------------------------------------------------------------------------------------

  const EmptyChan := Chan(0, 0, false, {}, map[], map[], map[], [])

  function NewClock(now: real): Clock
  {
    Clock(now, 0.0, None, None, None, None, None, None, None, KEEPALIVE_MAX, KEEPALIVE_MAX * STALE_FACTOR)
  }

  /** `Link::new` */
  function NewLink(now: real, id: LinkId): Link
  {
    Link(Pending, id, None, EmptyChan, InitialFlow, NewClock(now))
  }

  /** `Link::new_from_request`, which ends in `handshake`. */
  function NewFromRequest(now: real, id: LinkId): Link { NewLink(now, id).(status := Handshake) }

  /** The sequence numbers carried by outstanding packets. */
  function PendingSequences(pending: map<Hash, Outstanding>): set<u16>
  {
    set h | h in pending :: pending[h].sequence
  }

  function FailNumbers(states: map<u16, MessageState>, failed: set<u16>): map<u16, MessageState>
  {
    map q | q in states.Keys + failed :: if q in failed then Failed else states[q]
  }

  /** The states after every outstanding packet has been drained as failed. */
  function FailAll(states: map<u16, MessageState>, pending: map<Hash, Outstanding>): map<u16, MessageState>
  {
    FailNumbers(states, PendingSequences(pending))
  }

  /** `request` */
  function RequestLink(s: Link, id: LinkId, now: real): Link
  {
    var c := s.clock;
    Link(Pending, id, None,
         s.chan.(nextTx := 0, nextRx := 0, open := false, pending := map[], states := map[], ring := map[]),
         Reset(c.rtt),
         Clock(now, c.rtt, None, None, Some(now), Some(now), None, None, None,
               KEEPALIVE_MAX, KEEPALIVE_MAX * STALE_FACTOR))
  }

  /** `prove` */
  function ProveLink(s: Link, now: real): Link
  {
    if s.status == Active then s
    else s.(status := Active,
            clock := s.clock.(activatedAt := Some(now), lastProof := Some(now), staleSince := None))
  }

  /** `finalize_local_close` */
  function Finalize(s: Link): Link
  {
    s.(status := Closed,
       chan := s.chan.(states := FailAll(s.chan.states, s.chan.pending), pending := map[], ring := map[],
                       open := false, nextTx := 0, nextRx := 0),
       flow := Reset(s.clock.rtt),
       clock := s.clock.(lastKeepalive := None, lastProof := None, staleSince := None))
  }

  /** `restart`: unlike a close it keeps `next_channel_sequence` and `channel_open`. */
  function Restart(s: Link): Link
  {
    var c := s.clock;
    Link(Pending, s.id, None,
         s.chan.(states := FailAll(s.chan.states, s.chan.pending), pending := map[], ring := map[], nextRx := 0),
         Reset(c.rtt),
         Clock(c.requestTime, c.rtt, None, None, None, None, None, None, None,
               KEEPALIVE_MAX, KEEPALIVE_MAX * STALE_FACTOR))
  }

  function NoteOutbound(s: Link, context: Context, now: real): Link
  {
    var c := s.clock.(lastOutbound := Some(now));
    s.(clock := if context == KeepAlive then c.(lastKeepalive := Some(now)) else c.(lastData := Some(now)))
  }

  function NoteInbound(s: Link, context: Context, now: real): Link
  {
    var c := s.clock.(lastInbound := Some(now));
    var d := if context != KeepAlive then c.(lastData := Some(now), requestTime := now) else c;
    if s.status == Stale then s.(status := Active, clock := d.(staleSince := None)) else s.(clock := d)
  }

  /** `teardown`: `built` says whether the close packet could be encrypted. */
  function Teardown(s: Link, built: bool, now: real): (Link, bool)
  {
    var sent := s.status in {Active, Stale} && built;
    (Finalize(if sent then NoteOutbound(s, LinkClose, now) else s), sent)
  }

  // ----- sending ----------------------------------------------------------------------------------------

  function Next16(n: u16): u16 { (n + 1) % 0x1_0000 }

  /** `send_channel_message`: the number is used up before the packed envelope turns out to be too long for a packet. */
  function SendMessage(s: Link, m: Draft, now: real): (Link, SendResult)
  {
    if s.status != Active then (s, NotReady)
    else
      var c := s.chan.(open := true);
      if |c.pending| >= s.flow.window then (s.(chan := c), NotReady)
      else
        var q := c.nextTx;
        var d := c.(nextTx := Next16(q));
        if !FitsPacket(m.payload) then (s.(chan := d), TooLarge)
        else
          var p := Outstanding(q, 1, now + RetryTimeout(s.clock.rtt, 1, |d.pending| + 1));
          (s.(chan := d.(pending := d.pending[m.hash := p], states := d.states[q := Sent])), Accepted(q, m.hash))
  }

  /** `mark_channel_failed`; `found` is the outstanding packet its search comes upon, if any carries `q`. */
  function MarkFailed(s: Link, q: u16, found: Option<Hash>): Link
  {
    var c := s.chan;
    s.(chan := c.(pending := if found.Some? then c.pending - {found.value} else c.pending,
                  states := c.states[q := Failed]))
  }

  /** What that search may return. */
  predicate Finds(pending: map<Hash, Outstanding>, q: u16, found: Option<Hash>)
  {
    match found
    case Some(h) => h in pending && pending[h].sequence == q
    case None => q !in PendingSequences(pending)
  }

  function TimedOut(pending: map<Hash, Outstanding>, now: real): set<Hash>
  {
    set h | h in pending && pending[h].nextRetryAt <= now
  }

  /** One retransmission of a packet. */
  function Bump(p: Outstanding, rtt: real, outstanding: nat, now: real): Outstanding
  {
    var t := Add8(p.tries, 1);
    p.(tries := t, nextRetryAt := now + RetryTimeout(rtt, t, outstanding))
  }

  function BumpAll(pending: map<Hash, Outstanding>, due: set<Hash>, rtt: real, outstanding: nat, now: real)
    : map<Hash, Outstanding>
  {
    map h | h in pending :: if h in due then Bump(pending[h], rtt, outstanding, now) else pending[h]
  }

  predicate Exhausted(pending: map<Hash, Outstanding>, due: set<Hash>)
  {
    exists h :: h in due && h in pending && pending[h].tries >= MAX_TRIES
  }

  /** `poll_channel_timeouts`: the link afterwards and the hashes of the packets to send again. */
  function Poll(s: Link, now: real): (Link, set<Hash>)
  {
    var due := TimedOut(s.chan.pending, now);
    if s.status !in {Active, Stale} || due == {} then (s, {})
    else if Exhausted(s.chan.pending, due) then (Finalize(s), {})
    else (s.(chan := s.chan.(pending := BumpAll(s.chan.pending, due, s.clock.rtt, |s.chan.pending|, now)),
             flow := NoteTimeouts(s.flow, |due|)),
          due)
  }

  // ----- receiving --------------------------------------------------------------------------------------

  predicate ChannelIsOpen(c: Chan) { c.open || c.handlers != {} }

  /** `sequence.wrapping_sub(next)` */
  function Distance(sequence: u16, next: u16): u16 { (sequence - next) % 0x1_0000 }

  /** The `while let` loop of `handle_channel_frame`: take consecutive envelopes off the ring. */
  function Drain(ring: map<u16, Envelope>, next: u16): (r: (map<u16, Envelope>, u16, seq<Envelope>))
    decreases |ring|
  {
    if next !in ring then (ring, next, [])
    else
      var rest := ring - {next};
      assert |rest| < |ring| by { assert rest.Keys == ring.Keys - {next}; assert |rest.Keys| < |ring.Keys|; }
      var d := Drain(rest, Next16(next));
      (d.0, d.1, [ring[next]] + d.2)
  }

  /** `handle_channel_frame` */
  function ReceiveFrame(c: Chan, raw: bytes): (Chan, bool)
  {
    if !ChannelIsOpen(c) then (c, false)
    else
      match Unpack(raw)
      case None => (c, false)
      case Some(e) =>
        var distance := Distance(e.sequence, c.nextRx);
        if distance >= 0x8000 || distance >= RX_WINDOW then (c, false)
        else
          var ring := c.ring[e.sequence := e];
          if e.sequence in c.ring then (c.(ring := ring), false)
          else
            var d := Drain(ring, c.nextRx);
            (c.(ring := d.0, nextRx := d.1, dispatched := c.dispatched + d.2), true)
  }

  /** `handle_data_packet` */
  function HandleData(s0: Link, p: Incoming, now: real): (Link, Handled)
  {
    var s := NoteInbound(s0, p.context, now);
    match p.context
    case ChannelData =>
      if !ChannelIsOpen(s.chan) then (s, Nothing)
      else if p.plain.Some? then (s.(chan := ReceiveFrame(s.chan, p.plain.value).0), Proved(p.hash))
      else (s, Proved(p.hash))
    case Generic => (s, if p.plain.Some? then Proved(p.hash) else Nothing)
    case KeepAlive =>
      if p.data != [] && p.data[0] == 0xFF then (s.(clock := s.clock.(requestTime := now)), KeepAliveReply)
      else (s, Nothing)
    case LinkClose => (if p.plain.Some? && p.closesThis then Finalize(s) else s, Nothing)
    case LinkRtt =>
      if p.plain.Some? && p.peerRtt.Some? then
        var rtt := MaxReal(Since(now, s.clock.requestTime), p.peerRtt.value);
        var c := UpdateKeepalive(s.clock.(rtt := rtt));
        (s.(clock := c.(activatedAt := if c.activatedAt.None? then Some(now) else c.activatedAt),
            flow := Refresh(s.flow, rtt)), Nothing)
      else (s, Nothing)
    case _ => (s, Nothing)
  }

  /** A link proof for one of our packets: the outstanding entry becomes a delivery. */
  function AcceptProof(s: Link, h: Hash): Link
  {
    if h !in s.chan.pending then s
    else
      s.(chan := s.chan.(pending := s.chan.pending - {h},
                         states := s.chan.states[s.chan.pending[h].sequence := Delivered]),
         flow := NoteDelivery(s.flow, s.clock.rtt))
  }

  /** Acceptance of the proof of our own link request. */
  function Activate(s: Link, now: real): Link
  {
    var rtt := Since(now, s.clock.requestTime);
    s.(status := Active, flow := Refresh(s.flow, rtt),
       clock := UpdateKeepalive(s.clock.(rtt := rtt, activatedAt := Some(now), lastProof := Some(now), staleSince := None)))
  }

  /** `handle_packet` */
  function HandlePacket(s: Link, p: Incoming, iface: Iface, now: real): (Link, Handled)
  {
    if p.dest != s.id || (s.iface.Some? && s.iface.value != iface) then (s, Nothing)
    else match p.kind
      case Data => HandleData(s, p, now)
      case Proof =>
        if s.status == Active && p.context == LinkProof && p.proves.Some? then
          (AcceptProof(NoteInbound(s, p.context, now), p.proves.value), Nothing)
        else if s.status == Pending && p.context == LinkRequestProof && p.acceptsRequest then (Activate(s, now), Activated)
        else (s, Nothing)
      case OtherKind => (s, Nothing)
  }

  // ----- watchdog ---------------------------------------------------------------------------------------

  function InboundAnchor(c: Clock): real
  {
    OrElse(Latest(Latest(c.activatedAt, c.lastProof), c.lastInbound), c.requestTime)
  }

  function StaleTimeout(c: Clock): real { c.rtt * KEEPALIVE_TIMEOUT_FACTOR + STALE_GRACE }

  /** `next_watchdog_deadline`, evaluated at `now`. */
  function WatchdogDeadline(s: Link, initiator: bool, now: real): Option<real>
  {
    match s.status
    case Active =>
      var anchor := InboundAnchor(s.clock);
      if anchor + s.clock.keepalive > now then Some(anchor + s.clock.keepalive)
      else
        var staleAt := anchor + s.clock.staleTime;
        if !initiator then Some(staleAt)
        else
          var keepaliveAt := OrElse(s.clock.lastKeepalive, anchor) + s.clock.keepalive;
          Some(if keepaliveAt <= staleAt then keepaliveAt else staleAt)
    case Stale =>
      (match s.clock.staleSince
       case Some(t) => Some(t + StaleTimeout(s.clock))
       case None => None)
    case _ => None
  }

  /** `check_watchdog`; `built` says whether a close packet could be encrypted. */
  function CheckWatchdog(s: Link, initiator: bool, built: bool, now: real): (Link, Watchdog)
  {
    match s.status
    case Active =>
      var anchor := InboundAnchor(s.clock);
      if Since(now, anchor) < s.clock.keepalive then (s, Idle)
      else
        var t := if Since(now, anchor) >= s.clock.staleTime
                 then s.(status := Stale, clock := s.clock.(staleSince := Some(now))) else s;
        (t, if initiator && Since(now, OrElse(s.clock.lastKeepalive, anchor)) >= s.clock.keepalive
            then SendKeepAlive else Idle)
    case Stale =>
      if s.clock.staleSince.Some? && Since(now, s.clock.staleSince.value) >= StaleTimeout(s.clock) then
        var t := Teardown(s, built, now);
        (t.0, if t.1 then SendTeardown else Idle)
      else (s, Idle)
    case _ => (s, Idle)
  }

  // ----- events and runs --------------------------------------------------------------------------------

  /** Everything that can happen to a link. */
  datatype Event =
    | DoRequest(id: LinkId, now: real)
    | DoProve(now: real)
    | DoPacket(p: Incoming, iface: Iface, now: real)
    | DoSend(m: Draft, now: real)
    | DoMarkFailed(q: u16, found: Option<Hash>)
    | DoPoll(now: real)
    | DoWatchdog(initiator: bool, built: bool, now: real)
    | DoNoteOutbound(context: Context, now: real)
    | DoTeardown(built: bool, now: real)
    | DoRestart
    | DoSetOpen(open: bool)
    | DoSetHandlers(types: set<u16>)
    | DoSetIface(iface: Iface)

  function Step(s: Link, e: Event): Link
  {
    match e
    case DoRequest(id, now) => RequestLink(s, id, now)
    case DoProve(now) => ProveLink(s, now)
    case DoPacket(p, iface, now) => HandlePacket(s, p, iface, now).0
    case DoSend(m, now) => SendMessage(s, m, now).0
    case DoMarkFailed(q, found) => MarkFailed(s, q, found)
    case DoPoll(now) => Poll(s, now).0
    case DoWatchdog(initiator, built, now) => CheckWatchdog(s, initiator, built, now).0
    case DoNoteOutbound(context, now) => NoteOutbound(s, context, now)
    case DoTeardown(built, now) => Teardown(s, built, now).0
    case DoRestart => Restart(s)
    case DoSetOpen(open) => s.(chan := s.chan.(open := open))
    case DoSetHandlers(types) => s.(chan := s.chan.(handlers := types))
    case DoSetIface(iface) => s.(iface := Some(iface))
  }

  function Run(s: Link, es: seq<Event>): Link
  {
    if es == [] then s else Step(Run(s, es[..|es| - 1]), es[|es| - 1])
  }
}
