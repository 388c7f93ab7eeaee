/** The receiving half of the channel against absolute message indices: in order, exactly once.

    Index `i` travels as sequence number `i % 65536`; the comparison of such numbers
    is that of serial number arithmetic (RFC 1982, section 3.2). */
module InOrder {
  import opened Bytes
  import opened Envelopes
  import opened LinkModel
  import opened LinkRuns

  /** The messages of one session, by absolute index. */
  type Messages = nat -> Envelope

  /** The sequence number of message `i`. */
  function Key(i: nat): u16 { i % 0x1_0000 }

  ghost predicate Numbered(msg: Messages)
  {
    forall i: nat :: msg(i).sequence == Key(i)
  }

  /** The envelope survives packing. */
  predicate Intact(e: Envelope) { |e.payload| < 0x1_0000 }

  /** Whatever fits a packet does. */
  lemma FittingIsIntact(e: Envelope)
    requires FitsPacket(e.payload)
    ensures Intact(e)
  {
    FitsPacketIff(e.payload);
  }

  /** Messages `a`, `a + 1`, .., `b - 1`. */
  function Slice(msg: Messages, a: nat, b: nat): (r: seq<Envelope>)
    requires a <= b
    ensures |r| == b - a
  {
    seq(b - a, k requires 0 <= k < b - a => msg(a + k))
  }

  lemma SliceJoin(msg: Messages, a: nat, b: nat, c: nat)
    requires a <= b <= c
    ensures Slice(msg, a, b) + Slice(msg, b, c) == Slice(msg, a, c)
  {
  }

  lemma SliceAfter(msg: Messages, past: seq<Envelope>, a: nat, b: nat)
    requires a <= b
    ensures past + Slice(msg, 0, a) + Slice(msg, a, b) == past + Slice(msg, 0, b)
  {
    SliceJoin(msg, 0, a, b);
  }

  lemma SliceFirst(msg: Messages, a: nat, b: nat)
    requires a < b
    ensures Slice(msg, a, b) == [msg(a)] + Slice(msg, a + 1, b)
  {
  }

  lemma KeyNext(i: nat)
    ensures Next16(Key(i)) == Key(i + 1)
  {
  }

  // ----- the simple receiver ----------------------------------------------------------------------------

  /** A receiver that knows absolute indices: the next one it expects and the later ones it already holds. */
  datatype Rx = Rx(expected: nat, held: set<nat>)

  ghost predicate Between(held: set<nat>, lo: nat, hi: nat)
  {
    forall j :: j in held ==> lo <= j < hi
  }

  ghost predicate Window(r: Rx) { Between(r.held, r.expected + 1, r.expected + RX_WINDOW) }

  function Advance(r: Rx): (t: Rx)
    decreases |r.held|
    ensures t.expected >= r.expected && t.expected !in t.held && t.held <= r.held
  {
    if r.expected in r.held then Advance(Rx(r.expected + 1, r.held - {r.expected})) else r
  }

  function Arrive(r: Rx, i: nat): Rx
  {
    if i < r.expected || i >= r.expected + RX_WINDOW || i in r.held then r
    else Advance(Rx(r.expected, r.held + {i}))
  }

  /** Index `j` has been dispatched or waits in the ring. */
  predicate Has(r: Rx, j: nat) { j < r.expected || j in r.held }

  lemma {:induction false} AdvanceKeeps(r: Rx, top: nat)
    requires Between(r.held, r.expected, top)
    ensures var t := Advance(r);
            && Between(t.held, t.expected + 1, top)
            && (forall j: nat :: Has(t, j) <==> Has(r, j))
    decreases |r.held|
  {
    if r.expected in r.held {
      var next := Rx(r.expected + 1, r.held - {r.expected});
      AdvanceKeeps(next, top);
      assert Advance(r) == Advance(next);
      assert forall j: nat :: Has(next, j) <==> Has(r, j);
    } else {
      assert Advance(r) == r && Between(r.held, r.expected + 1, top);
    }
  }

  /** One arrival gains exactly index `i` when that is within 47 of the expected one, and nothing else. */
  lemma ArriveGains(r: Rx, i: nat)
    requires Window(r)
    ensures var t := Arrive(r, i);
            && Window(t) && t.expected >= r.expected && !Has(t, t.expected)
            && (forall j: nat :: Has(t, j) <==> Has(r, j) || (j == i && i < r.expected + RX_WINDOW))
  {
    if r.expected <= i < r.expected + RX_WINDOW && i !in r.held {
      var taken := Rx(r.expected, r.held + {i});
      assert Arrive(r, i) == Advance(taken);
      AdvanceKeeps(taken, r.expected + RX_WINDOW);
      assert forall j: nat :: Has(taken, j) <==> Has(r, j) || j == i;
      var t := Advance(taken);
      assert Between(t.held, t.expected + 1, t.expected + RX_WINDOW);
    } else {
      assert r.expected !in r.held;
    }
  }

  // ----- the channel refines it -------------------------------------------------------------------------

  /** The ring stores each held index under its sequence number, and nothing else. */
  ghost predicate Stores(ring: map<u16, Envelope>, held: set<nat>, msg: Messages)
  {
    && (forall j :: j in held ==> Key(j) in ring && ring[Key(j)] == msg(j))
    && ring.Keys == set j | j in held :: Key(j)
  }

  lemma SameKey(i: nat, j: nat)
    requires Key(i) == Key(j) && i - 0x1_0000 < j < i + 0x1_0000
    ensures i == j
  {
  }

  lemma StoresIff(ring: map<u16, Envelope>, held: set<nat>, msg: Messages, e: nat, i: nat)
    requires Stores(ring, held, msg) && Between(held, e, e + RX_WINDOW) && e <= i <= e + RX_WINDOW
    ensures Key(i) in ring <==> i in held
  {
    if Key(i) in ring {
      var j :| j in held && Key(j) == Key(i);
      SameKey(i, j);
    }
  }

  lemma StoresWithout(ring: map<u16, Envelope>, held: set<nat>, msg: Messages, e: nat, i: nat)
    requires Stores(ring, held, msg) && Between(held, e, e + RX_WINDOW) && i in held
    ensures Stores(ring - {Key(i)}, held - {i}, msg)
  {
    forall j | j in held - {i} ensures Key(j) != Key(i) {
      if Key(j) == Key(i) { SameKey(i, j); }
    }
    var keys := set j | j in held - {i} :: Key(j);
    forall q | q in ring.Keys - {Key(i)} ensures q in keys {
      var j :| j in held && Key(j) == q;
      assert j in held - {i};
    }
  }

  lemma StoresWith(ring: map<u16, Envelope>, held: set<nat>, msg: Messages, e: nat, i: nat)
    requires Stores(ring, held, msg) && Between(held, e, e + RX_WINDOW) && e <= i < e + RX_WINDOW
    ensures Stores(ring[Key(i) := msg(i)], held + {i}, msg)
  {
    forall j | j in held ensures Key(j) == Key(i) ==> j == i {
      if Key(j) == Key(i) { SameKey(i, j); }
    }
    var keys := set j | j in held + {i} :: Key(j);
    forall q | q in ring.Keys + {Key(i)} ensures q in keys {
      if q in ring {
        var j :| j in held && Key(j) == q;
        assert j in held + {i};
      } else {
        assert i in held + {i};
      }
    }
    assert keys == ring.Keys + {Key(i)};
  }

  lemma AdvanceOne(r: Rx)
    requires r.expected in r.held
    ensures Advance(r) == Advance(Rx(r.expected + 1, r.held - {r.expected}))
  {
  }

  lemma DrainOne(ring: map<u16, Envelope>, i: nat)
    requires Key(i) in ring
    ensures Drain(ring, Key(i)) == (var d := Drain(ring - {Key(i)}, Key(i + 1)); (d.0, d.1, [ring[Key(i)]] + d.2))
  {
    KeyNext(i);
  }

  /** A drain that started at index `from` agrees with a receiver that advanced to `t`. */
  ghost predicate DrainedTo(d: (map<u16, Envelope>, u16, seq<Envelope>), from: nat, t: Rx, msg: Messages)
  {
    from <= t.expected && Stores(d.0, t.held, msg) && d.1 == Key(t.expected) && d.2 == Slice(msg, from, t.expected)
  }

  lemma DrainedOneMore(d: (map<u16, Envelope>, u16, seq<Envelope>), from: nat, t: Rx, msg: Messages)
    requires DrainedTo(d, from + 1, t, msg)
    ensures DrainedTo((d.0, d.1, [msg(from)] + d.2), from, t, msg)
  {
    SliceFirst(msg, from, t.expected);
  }

  lemma DrainNothing(ring: map<u16, Envelope>, r: Rx, msg: Messages, e: nat)
    requires Stores(ring, r.held, msg) && Between(r.held, e, e + RX_WINDOW) && e <= r.expected <= e + RX_WINDOW
    requires r.expected !in r.held
    ensures DrainedTo(Drain(ring, Key(r.expected)), r.expected, Advance(r), msg)
  {
    StoresIff(ring, r.held, msg, e, r.expected);
    assert Slice(msg, r.expected, r.expected) == [];
  }

  /** Taking envelopes off the ring while the next number is there is advancing through the held indices. */
  lemma {:induction false} DrainRefinesAdvance(ring: map<u16, Envelope>, r: Rx, msg: Messages, e: nat)
    requires Stores(ring, r.held, msg) && Between(r.held, e, e + RX_WINDOW) && e <= r.expected <= e + RX_WINDOW
    ensures DrainedTo(Drain(ring, Key(r.expected)), r.expected, Advance(r), msg)
    decreases |r.held|
  {
    var i := r.expected;
    if i in r.held {
      StoresWithout(ring, r.held, msg, e, i);
      var next := Rx(i + 1, r.held - {i});
      DrainRefinesAdvance(ring - {Key(i)}, next, msg, e);
      DrainOne(ring, i);
      AdvanceOne(r);
      DrainedOneMore(Drain(ring - {Key(i)}, Key(i + 1)), i, Advance(next), msg);
    } else {
      DrainNothing(ring, r, msg, e);
    }
  }

  /** The channel has dispatched exactly messages 0 .. expected - 1 after `past`, and its ring stores the held ones. */
  ghost predicate Receiving(c: Chan, r: Rx, msg: Messages, past: seq<Envelope>)
  {
    && Window(r)
    && c.nextRx == Key(r.expected)
    && Stores(c.ring, r.held, msg)
    && c.dispatched == past + Slice(msg, 0, r.expected)
  }

  /** What the 16-bit distance says about an index near the expected one. */
  lemma DistanceNear(i: nat, e: nat)
    requires e - 0x1_0000 <= i < e + 0x1_0000
    ensures Distance(Key(i), Key(e)) == if i < e then i - e + 0x1_0000 else i - e
  {
  }

  /** The 16-bit number does not make an index look as if it were in the window when it is not. */
  predicate Tellable(i: nat, e: nat)
  {
    e <= i < e + RX_WINDOW || Distance(Key(i), Key(e)) >= RX_WINDOW
  }

  /** That holds of everything less than 65488 behind or 65536 ahead, and of no index beyond either end by up to 47. */
  lemma TellableNear(i: nat, e: nat)
    ensures e - 0x1_0000 + RX_WINDOW <= i < e + 0x1_0000 ==> Tellable(i, e)
    ensures e - 0x1_0000 <= i < e - 0x1_0000 + RX_WINDOW ==> !Tellable(i, e)
    ensures e + 0x1_0000 <= i < e + 0x1_0000 + RX_WINDOW ==> !Tellable(i, e)
  {
    if e - 0x1_0000 <= i < e + 0x1_0000 {
      DistanceNear(i, e);
    } else if e + 0x1_0000 <= i < e + 0x1_0000 + RX_WINDOW {
      assert Key(i) == Key(i - 0x1_0000);
      DistanceNear(i - 0x1_0000, e);
    }
  }

  /** Every frame of message `i` that arrives, old or new, repeated or not, has on the channel the effect
      that `Arrive` has on absolute indices, provided the number tells where `i` stands. */
  lemma FrameRefinesArrive(c: Chan, r: Rx, msg: Messages, past: seq<Envelope>, i: nat)
    requires Numbered(msg) && Intact(msg(i)) && Receiving(c, r, msg, past) && ChannelIsOpen(c) && Tellable(i, r.expected)
    ensures var d := ReceiveFrame(c, Pack(msg(i))).0;
            && Receiving(d, Arrive(r, i), msg, past)
            && d == c.(ring := d.ring, nextRx := d.nextRx, dispatched := d.dispatched)
  {
    var e := r.expected;
    EnvelopeRoundTripIff(msg(i));
    ArriveGains(r, i);
    if e <= i < e + RX_WINDOW {
      DistanceNear(i, e);
      StoresIff(c.ring, r.held, msg, e, i);
      if i in r.held {
        assert c.ring[Key(i) := msg(i)] == c.ring;
      } else {
        StoresWith(c.ring, r.held, msg, e, i);
        FrameTaken(c, r, msg, past, i);
      }
    }
  }

  lemma FrameTaken(c: Chan, r: Rx, msg: Messages, past: seq<Envelope>, i: nat)
    requires Receiving(c, r, msg, past) && r.expected <= i < r.expected + RX_WINDOW && i !in r.held
    requires Stores(c.ring[Key(i) := msg(i)], r.held + {i}, msg)
    ensures var d := Drain(c.ring[Key(i) := msg(i)], c.nextRx); var t := Arrive(r, i);
            && Stores(d.0, t.held, msg) && d.1 == Key(t.expected)
            && c.dispatched + d.2 == past + Slice(msg, 0, t.expected)
  {
    var e, taken := r.expected, Rx(r.expected, r.held + {i});
    DrainRefinesAdvance(c.ring[Key(i) := msg(i)], taken, msg, e);
    SliceAfter(msg, past, e, Advance(taken).expected);
  }

  /** A frame whose number looks as if it belonged into the window. */
  lemma StrayFrame(c: Chan, r: Rx, msg: Messages, past: seq<Envelope>, i: nat)
    requires Numbered(msg) && Intact(msg(i)) && Receiving(c, r, msg, past) && ChannelIsOpen(c)
    requires Distance(Key(i), Key(r.expected)) < RX_WINDOW && Key(i) !in c.ring
    ensures !Receiving(ReceiveFrame(c, Pack(msg(i))).0, r, msg, past)
  {
    FrameInWindow(c, msg, i, r.expected);
    StrayDrain(c.ring, r, msg, i);
  }

  /** The index in the window that has the same number. */
  function LooksLike(i: nat, e: nat): (j: nat)
    requires Distance(Key(i), Key(e)) < RX_WINDOW
    ensures e <= j < e + RX_WINDOW && Key(j) == Key(i) && (j == e <==> Key(i) == Key(e))
  {
    e + Distance(Key(i), Key(e))
  }

  lemma StrayDrain(ring: map<u16, Envelope>, r: Rx, msg: Messages, i: nat)
    requires Stores(ring, r.held, msg) && Window(r)
    requires Distance(Key(i), Key(r.expected)) < RX_WINDOW && Key(i) !in ring
    ensures var d := Drain(ring[Key(i) := msg(i)], Key(r.expected)); d.2 != [] || !Stores(d.0, r.held, msg)
  {
    var e := r.expected;
    var j := LooksLike(i, e);
    StoresIff(ring, r.held, msg, e, e);
    StoresIff(ring, r.held, msg, e, j);
    if j > e {
      NotStored(ring[Key(i) := msg(i)], r.held, msg, e, j);
    }
  }

  lemma NotStored(ring: map<u16, Envelope>, held: set<nat>, msg: Messages, e: nat, j: nat)
    requires Between(held, e, e + RX_WINDOW) && e <= j <= e + RX_WINDOW && Key(j) in ring && j !in held
    ensures !Stores(ring, held, msg)
  {
    if Stores(ring, held, msg) {
      StoresIff(ring, held, msg, e, j);
    }
  }

  /** What the channel makes of a frame whose number is in the window. */
  lemma FrameInWindow(c: Chan, msg: Messages, i: nat, e: nat)
    requires Numbered(msg) && Intact(msg(i)) && ChannelIsOpen(c) && c.nextRx == Key(e) && Distance(Key(i), Key(e)) < RX_WINDOW
    ensures var ring := c.ring[Key(i) := msg(i)]; var d := Drain(ring, Key(e));
            ReceiveFrame(c, Pack(msg(i))).0 == if Key(i) in c.ring then c.(ring := ring)
                                               else c.(ring := d.0, nextRx := d.1, dispatched := c.dispatched + d.2)
  {
    EnvelopeRoundTripIff(msg(i));
  }

  lemma StoresIffSame(ring: map<u16, Envelope>, after: map<u16, Envelope>, held: set<nat>, msg: Messages, e: nat, j: nat)
    requires Stores(ring, held, msg) && Between(held, e, e + RX_WINDOW) && e <= j < e + RX_WINDOW && Key(j) in ring
    requires Key(j) in after && after == ring[Key(j) := after[Key(j)]]
    ensures Stores(after, held, msg) <==> after[Key(j)] == ring[Key(j)]
  {
    StoresIff(ring, held, msg, e, j);
    assert after.Keys == ring.Keys;
    if after[Key(j)] == ring[Key(j)] {
      assert after == ring;
    }
  }

  /** A frame has the effect of its arrival if and only if its number tells where it stands, or what it overwrites in the
      ring happens to be the same envelope. */
  lemma FrameRefinesArriveIff(c: Chan, r: Rx, msg: Messages, past: seq<Envelope>, i: nat)
    requires Numbered(msg) && Intact(msg(i)) && Receiving(c, r, msg, past) && ChannelIsOpen(c)
    ensures Receiving(ReceiveFrame(c, Pack(msg(i))).0, Arrive(r, i), msg, past)
            <==> (Tellable(i, r.expected) || (Key(i) in c.ring && c.ring[Key(i)] == msg(i)))
  {
    if Tellable(i, r.expected) {
      FrameRefinesArrive(c, r, msg, past, i);
    } else {
      NotTellable(r, i);
      if Key(i) in c.ring {
        FrameOverwrites(c, r, msg, past, i);
      } else {
        StrayFrame(c, r, msg, past, i);
      }
    }
  }

  lemma NotTellable(r: Rx, i: nat)
    requires !Tellable(i, r.expected)
    ensures Arrive(r, i) == r && Distance(Key(i), Key(r.expected)) < RX_WINDOW
  {
  }

  lemma FrameOverwrites(c: Chan, r: Rx, msg: Messages, past: seq<Envelope>, i: nat)
    requires Numbered(msg) && Intact(msg(i)) && Receiving(c, r, msg, past) && ChannelIsOpen(c)
    requires Distance(Key(i), Key(r.expected)) < RX_WINDOW && Key(i) in c.ring
    ensures Receiving(ReceiveFrame(c, Pack(msg(i))).0, r, msg, past) <==> c.ring[Key(i)] == msg(i)
  {
    var j := LooksLike(i, r.expected);
    var after := c.ring[Key(i) := msg(i)];
    FrameInWindow(c, msg, i, r.expected);
    OnlyRing(c, c.(ring := after), r, msg, past);
    StoresIffSame(c.ring, after, r.held, msg, r.expected, j);
  }

  lemma OnlyRing(c: Chan, d: Chan, r: Rx, msg: Messages, past: seq<Envelope>)
    requires Receiving(c, r, msg, past) && d == c.(ring := d.ring)
    ensures Receiving(d, r, msg, past) <==> Stores(d.ring, r.held, msg)
  {
  }

  /** The relation implies the invariant that every reachable ring has. */
  lemma ReceivingKeepsWindow(c: Chan, r: Rx, msg: Messages, past: seq<Envelope>)
    requires Numbered(msg) && Receiving(c, r, msg, past)
    ensures RingOk(c.ring, c.nextRx)
  {
    forall q | q in c.ring ensures 1 <= Distance(q, c.nextRx) < RX_WINDOW && c.ring[q].sequence == q {
      var j :| j in r.held && Key(j) == q;
      DistanceNear(j, r.expected);
    }
  }

  // ----- runs of arrivals -------------------------------------------------------------------------------

  function ReceiveAll(c: Chan, msg: Messages, arrivals: seq<nat>): Chan
    decreases |arrivals|
  {
    if arrivals == [] then c else ReceiveAll(ReceiveFrame(c, Pack(msg(arrivals[0]))).0, msg, arrivals[1..])
  }

  function ArriveAll(r: Rx, arrivals: seq<nat>): Rx
    decreases |arrivals|
  {
    if arrivals == [] then r else ArriveAll(Arrive(r, arrivals[0]), arrivals[1..])
  }

  /** When each arrival comes in, its number tells where it stands. */
  predicate AllTellable(r: Rx, arrivals: seq<nat>)
    decreases |arrivals|
  {
    arrivals == [] || (Tellable(arrivals[0], r.expected) && AllTellable(Arrive(r, arrivals[0]), arrivals[1..]))
  }

  /** Whatever the network loses, repeats or reorders, messages 0, 1, .., k - 1 are taken off the ring: each once, in order,
      across any number of wraps of the 16-bit number. Message k has not been received, and all that is held was. */
  lemma {:induction false} InOrderExactlyOnce(c: Chan, r: Rx, msg: Messages, past: seq<Envelope>, arrivals: seq<nat>)
    requires Numbered(msg) && Receiving(c, r, msg, past) && ChannelIsOpen(c) && r.expected !in r.held
    requires AllTellable(r, arrivals) && forall i :: i in arrivals ==> Intact(msg(i))
    ensures var d := ReceiveAll(c, msg, arrivals); var t := ArriveAll(r, arrivals); var k := t.expected;
            && Receiving(d, t, msg, past) && RingOk(d.ring, d.nextRx)
            && k >= r.expected && d.dispatched == past + Slice(msg, 0, k)
            && !Has(t, k)
            && (forall j: nat :: Has(r, j) ==> Has(t, j))
            && (forall j: nat :: Has(t, j) ==> Has(r, j) || j in arrivals)
    decreases |arrivals|
  {
    if arrivals == [] {
      ReceivingKeepsWindow(c, r, msg, past);
    } else {
      var i := arrivals[0];
      assert i in arrivals;
      FrameRefinesArrive(c, r, msg, past, i);
      ArriveGains(r, i);
      InOrderExactlyOnce(ReceiveFrame(c, Pack(msg(i))).0, Arrive(r, i), msg, past, arrivals[1..]);
      assert forall j: nat :: j in arrivals[1..] ==> j in arrivals;
    }
  }

  /** Index `j` comes in at some time while it is in the window or behind it. */
  predicate Timely(r: Rx, arrivals: seq<nat>, j: nat)
    decreases |arrivals|
  {
    arrivals != []
    && ((arrivals[0] == j && j < r.expected + RX_WINDOW) || Timely(Arrive(r, arrivals[0]), arrivals[1..], j))
  }

  lemma {:induction false} OnceHad(r: Rx, arrivals: seq<nat>, j: nat)
    requires Window(r) && (Has(r, j) || Timely(r, arrivals, j))
    ensures Has(ArriveAll(r, arrivals), j)
    decreases |arrivals|
  {
    if arrivals != [] {
      ArriveGains(r, arrivals[0]);
      OnceHad(Arrive(r, arrivals[0]), arrivals[1..], j);
    }
  }

  /** If every index below `n` comes in at some time while it is in the window, all messages below `n` are dispatched,
      in order, whatever else arrives in between, before and after. */
  lemma EverythingArrivedIsDispatched(c: Chan, r: Rx, msg: Messages, past: seq<Envelope>, arrivals: seq<nat>, n: nat)
    requires Numbered(msg) && Receiving(c, r, msg, past) && ChannelIsOpen(c) && r.expected !in r.held
    requires AllTellable(r, arrivals) && forall i :: i in arrivals ==> Intact(msg(i))
    requires forall j: nat :: r.expected <= j < n ==> Has(r, j) || Timely(r, arrivals, j)
    ensures past + Slice(msg, 0, n) <= ReceiveAll(c, msg, arrivals).dispatched
  {
    InOrderExactlyOnce(c, r, msg, past, arrivals);
    var k := ArriveAll(r, arrivals).expected;
    if k < n {
      OnceHad(r, arrivals, k);
    }
    SliceAfter(msg, past, n, k);
  }
}
