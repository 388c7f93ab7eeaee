/** The adaptive send window of a link channel (link.rs, `note_channel_*`, `*_channel_flow_control`).

    Round-trip times are reals in seconds; u8 arithmetic is written with its wrap-around. */
module FlowControl {
  import opened Bytes

  const WINDOW_INIT := 2
  const WINDOW_MIN := 2
  const WINDOW_MIN_LIMIT_MEDIUM := 5
  const WINDOW_MIN_LIMIT_FAST := 16
  const WINDOW_MAX_SLOW := 5
  const WINDOW_MAX_MEDIUM := 12
  const WINDOW_MAX_FAST := 48
  const FAST_RATE_THRESHOLD := 10
  const WINDOW_FLEXIBILITY := 4
  const RTT_FAST := 0.18
  const RTT_MEDIUM := 0.75
  const RTT_SLOW := 1.45

  datatype Flow = Flow(window: u8, max: u8, min: u8, flex: u8, fastRounds: u8, mediumRounds: u8)

  function Add8(a: u8, b: u8): u8 { (a + b) % 256 }
  function Sub8(a: u8, b: u8): u8 { (a - b) % 256 }
  function SatInc8(a: u8): u8 { if a == 255 then 255 else a + 1 }

  const InitialFlow := Flow(WINDOW_INIT, WINDOW_MAX_SLOW, WINDOW_MIN, WINDOW_FLEXIBILITY, 0, 0)

  /** `channel_window_profile`: window, max, min, flexibility. */
  function Profile(rtt: real): (u8, u8, u8, u8)
  {
    if rtt > RTT_SLOW then (1, 1, 1, 1)
    else (WINDOW_INIT, WINDOW_MAX_SLOW, WINDOW_MIN, WINDOW_FLEXIBILITY)
  }

  /** `reset_channel_flow_control` */
  function Reset(rtt: real): Flow
  {
    var p := Profile(rtt);
    Flow(p.0, p.1, p.2, p.3, 0, 0)
  }

  /** `refresh_channel_flow_control`, called after every change of the round-trip time. */
  function Refresh(f: Flow, rtt: real): Flow
  {
    var p := Profile(rtt);
    var raised := if f.window < p.2 || f.window == 0 then (if p.2 >= p.0 then p.2 else p.0) else f.window;
    var window := if raised > p.1 then p.1 else raised;
    f.(window := window, max := p.1, min := p.2, flex := p.3)
  }

  /** The step up to a faster class: larger bounds, and the window lifted to the new minimum. */
  function Widen(f: Flow, max: u8, min: u8): Flow
  {
    f.(max := max, min := min, window := if f.window < min then min else f.window)
  }

  /** `note_channel_delivery` */
  function NoteDelivery(f: Flow, rtt: real): Flow
  {
    var g := if f.window < f.max then f.(window := Add8(f.window, 1)) else f;
    if rtt == 0.0 then g
    else if rtt > RTT_FAST then
      var h := g.(fastRounds := 0);
      if rtt > RTT_MEDIUM then h.(mediumRounds := 0)
      else
        var m := h.(mediumRounds := SatInc8(h.mediumRounds));
        if m.max < WINDOW_MAX_MEDIUM && m.mediumRounds == FAST_RATE_THRESHOLD
        then Widen(m, WINDOW_MAX_MEDIUM, WINDOW_MIN_LIMIT_MEDIUM) else m
    else
      var m := g.(fastRounds := SatInc8(g.fastRounds));
      if m.max < WINDOW_MAX_FAST && m.fastRounds == FAST_RATE_THRESHOLD
      then Widen(m, WINDOW_MAX_FAST, WINDOW_MIN_LIMIT_FAST) else m
  }

  /** `note_channel_timeout` */
  function NoteTimeout(f: Flow): Flow
  {
    var g := f.(fastRounds := 0, mediumRounds := 0);
    var w := if g.window > g.min then Sub8(g.window, 1) else g.window;
    var m := if g.max > Add8(g.min, g.flex) then Sub8(g.max, 1) else g.max;
    g.(window := if w > m then m else w, max := m)
  }

  /** `n` timeouts in a row, as one poll that finds `n` packets overdue notes them. */
  function NoteTimeouts(f: Flow, n: nat): Flow
  {
    if n == 0 then f else NoteTimeout(NoteTimeouts(f, n - 1))
  }

  /** The four bound classes a link can be in, and which of them a round-trip time forces. */
  predicate BoundClass(min: u8, flex: u8, max: u8)
  {
    || (min == 1 && flex == 1 && max == 1)
    || (min == 2 && flex == 4 && max == 5)
    || (min == 5 && flex == 4 && 9 <= max <= 12)
    || (min == 16 && flex == 4 && 20 <= max <= 48)
  }

  predicate FlowOk(f: Flow, rtt: real)
  {
    && f.min <= f.window <= f.max <= WINDOW_MAX_FAST
    && BoundClass(f.min, f.flex, f.max)
    && (f.min == 1 <==> rtt > RTT_SLOW)
  }

  /** A delivery keeps the invariant. */
  lemma FlowDeliveryKeepsBounds(f: Flow, rtt: real)
    requires FlowOk(f, rtt)
    ensures FlowOk(NoteDelivery(f, rtt), rtt)
  {
    if rtt > RTT_FAST {
      assert NoteDelivery(f, rtt).max == f.max || NoteDelivery(f, rtt).max == WINDOW_MAX_MEDIUM;
    }
  }

  /** A timeout keeps the invariant. */
  lemma FlowTimeoutKeepsBounds(f: Flow, rtt: real)
    requires FlowOk(f, rtt)
    ensures FlowOk(NoteTimeout(f), rtt)
  {
  }

  /** Under the invariant no u8 addition or subtraction of the two operations wraps. */
  lemma FlowArithmeticNeverWraps(f: Flow, rtt: real)
    requires FlowOk(f, rtt)
    ensures f.window < f.max ==> Add8(f.window, 1) == f.window + 1
    ensures f.window > f.min ==> Sub8(f.window, 1) == f.window - 1
    ensures Add8(f.min, f.flex) == f.min + f.flex
    ensures f.max > f.min + f.flex ==> Sub8(f.max, 1) == f.max - 1
  {
  }

  /** A new round-trip time takes any flow state, whatever class it was in, into the class of that time. */
  lemma FlowRefreshEntersClass(f: Flow, rtt: real)
    ensures FlowOk(Refresh(f, rtt), rtt) && FlowOk(Reset(rtt), rtt)
  {
  }

  lemma {:induction false} FlowTimeoutsKeepBounds(f: Flow, rtt: real, n: nat)
    requires FlowOk(f, rtt)
    ensures FlowOk(NoteTimeouts(f, n), rtt)
  {
    if n > 0 {
      FlowTimeoutsKeepBounds(f, rtt, n - 1);
      FlowTimeoutKeepsBounds(NoteTimeouts(f, n - 1), rtt);
    }
  }

  /** What one timeout takes off the window and off its bound. */
  lemma TimeoutEffect(f: Flow, rtt: real)
    requires FlowOk(f, rtt)
    ensures var g := NoteTimeout(f);
            && g.min == f.min && g.flex == f.flex
            && g.max == (if f.max > f.min + f.flex then f.max - 1 else f.max)
            && g.window == Min(if f.window > f.min then f.window - 1 else f.window, g.max)
  {
  }

  /** `n` timeouts take min(n, slack) off the bound and leave the window at most max - min - n above the minimum,
      so max - min of them in a row always end at the smallest window of the class. */
  lemma {:induction false} FlowTimeoutsReachFloor(f: Flow, rtt: real, n: nat)
    requires FlowOk(f, rtt)
    ensures var g := NoteTimeouts(f, n);
            && FlowOk(g, rtt) && g.min == f.min && g.flex == f.flex
            && g.max == (if f.max - n >= f.min + f.flex then f.max - n else Min(f.max, f.min + f.flex))
            && (n <= f.max - f.min ==> g.window - g.min <= f.max - f.min - n)
            && (n >= f.max - f.min ==> g.window == g.min)
  {
    if n > 0 {
      FlowTimeoutsReachFloor(f, rtt, n - 1);
      var before := NoteTimeouts(f, n - 1);
      FlowTimeoutKeepsBounds(before, rtt);
      TimeoutEffect(before, rtt);
    }
  }
}
