/** The link watchdog against its own deadline, and what becomes of a link whose peer falls silent. */
module WatchdogRuns {
  import opened Bytes
  import opened FlowControl
  import opened LinkModel
  import opened LinkRuns

  /** The deadline is sound: a check made later but before it does nothing, and without a deadline no check ever acts. */
  lemma QuietBeforeDeadline(s: Link, initiator: bool, built: bool, now: real, later: real)
    requires Consistent(s) && now <= later
    requires var d := WatchdogDeadline(s, initiator, now); d.Some? ==> later < d.value
    ensures CheckWatchdog(s, initiator, built, later) == (s, Idle)
  {
  }

  /** The deadline is exact: a check made at the instant it was computed acts exactly when it has passed. */
  lemma ActsExactlyWhenDue(s: Link, initiator: bool, built: bool, now: real)
    requires Consistent(s)
    ensures CheckWatchdog(s, initiator, built, now) != (s, Idle) <==>
            var d := WatchdogDeadline(s, initiator, now); d.Some? && d.value <= now
  {
    if s.status == Active {
      assert CheckWatchdog(s, initiator, built, now).0.status == Stale <==>
             Since(now, InboundAnchor(s.clock)) >= s.clock.staleTime;
    } else if s.status == Stale {
      assert s.clock.staleSince.Some?;
    }
  }

  /** One check of a silent link; a keep-alive that the check asks for is sent and noted. */
  function SilentCheck(s: Link, initiator: bool, built: bool, now: real): Link
  {
    var r := CheckWatchdog(s, initiator, built, now);
    if r.1 == SendKeepAlive then NoteOutbound(r.0, KeepAlive, now) else r.0
  }

  function SilentRun(s: Link, initiator: bool, built: bool, times: seq<real>): Link
    decreases |times|
  {
    if times == [] then s else SilentRun(SilentCheck(s, initiator, built, times[0]), initiator, built, times[1..])
  }

  /** Each check happens at or after the deadline computed when the one before it was made. */
  predicate FollowsDeadlines(s: Link, initiator: bool, built: bool, now: real, times: seq<real>)
    decreases |times|
  {
    times == [] ||
    (var d := WatchdogDeadline(s, initiator, now);
     && times[0] >= now && (d.Some? ==> times[0] >= d.value)
     && FollowsDeadlines(SilentCheck(s, initiator, built, times[0]), initiator, built, times[0], times[1..]))
  }

  /** How many checks at its deadlines a link still needs before it is closed. */
  function ChecksToClose(s: Link, initiator: bool, now: real): nat
  {
    match s.status
    case Active =>
      var anchor := InboundAnchor(s.clock);
      if now < anchor + s.clock.keepalive then (if initiator then 4 else 3)
      else if initiator && OrElse(s.clock.lastKeepalive, anchor) < anchor + s.clock.keepalive then 3
      else 2
    case Stale => 1
    case _ => 0
  }

  lemma SilentCheckConsistent(s: Link, initiator: bool, built: bool, t: real)
    requires Consistent(s) && s.status in {Active, Stale}
    ensures var u := SilentCheck(s, initiator, built, t);
            && Consistent(u) && u.status in {Active, Stale, Closed}
            && (u.status != Closed ==> InboundAnchor(u.clock) == InboundAnchor(s.clock))
  {
    var r := CheckWatchdog(s, initiator, built, t);
    WatchdogConsistent(s, initiator, built, t);
    NoteOutboundConsistent(r.0, KeepAlive, t);
    CheckKeepsAnchor(s, initiator, built, t);
  }

  lemma NoteOutboundConsistent(s: Link, context: Context, t: real)
    requires Consistent(s)
    ensures var u := NoteOutbound(s, context, t);
            Consistent(u) && u.status == s.status && InboundAnchor(u.clock) == InboundAnchor(s.clock)
  {
  }

  lemma CheckKeepsAnchor(s: Link, initiator: bool, built: bool, t: real)
    requires s.status in {Active, Stale}
    ensures var u := CheckWatchdog(s, initiator, built, t).0;
            && u.status in {Active, Stale, Closed}
            && (u.status != Closed ==> InboundAnchor(u.clock) == InboundAnchor(s.clock))
  {
  }

  lemma SilentCheckApproachesClose(s: Link, initiator: bool, built: bool, now: real, t: real)
    requires Consistent(s) && s.status in {Active, Stale} && t >= now
    requires WatchdogDeadline(s, initiator, now).Some? ==> t >= WatchdogDeadline(s, initiator, now).value
    ensures ChecksToClose(SilentCheck(s, initiator, built, t), initiator, t) < ChecksToClose(s, initiator, now)
  {
    SilentCheckConsistent(s, initiator, built, t);
    var u := SilentCheck(s, initiator, built, t);
    if s.status == Stale {
      assert u.status == Closed;
    } else if u.status == Active {
      assert t < InboundAnchor(s.clock) + s.clock.staleTime;
    }
  }

  lemma {:induction false} SilentRunCloses(s: Link, initiator: bool, built: bool, now: real, times: seq<real>)
    requires Consistent(s) && s.status in {Active, Stale, Closed}
    requires FollowsDeadlines(s, initiator, built, now, times) && |times| >= ChecksToClose(s, initiator, now)
    ensures SilentRun(s, initiator, built, times).status == Closed
    decreases |times|
  {
    if times != [] {
      if s.status == Closed {
        assert SilentCheck(s, initiator, built, times[0]) == s;
      } else {
        SilentCheckConsistent(s, initiator, built, times[0]);
        SilentCheckApproachesClose(s, initiator, built, now, times[0]);
      }
      SilentRunCloses(SilentCheck(s, initiator, built, times[0]), initiator, built, times[0], times[1..]);
    }
  }

  /** A silent link checked at its deadlines, however late, is closed after at most four checks. */
  lemma SilentLinkEndsClosed(s: Link, initiator: bool, built: bool, now: real, times: seq<real>)
    requires Consistent(s) && s.status in {Active, Stale}
    requires FollowsDeadlines(s, initiator, built, now, times) && |times| >= 4
    ensures SilentRun(s, initiator, built, times).status == Closed
  {
    SilentRunCloses(s, initiator, built, now, times);
  }

  /** The earliest instant at which silence may close a link. */
  function MayCloseAt(s: Link): real
  {
    if s.status == Active then InboundAnchor(s.clock) + s.clock.staleTime + StaleTimeout(s.clock)
    else OrElse(s.clock.staleSince, 0.0) + StaleTimeout(s.clock)
  }

  /** And never early: whatever the check times, no link is closed before the stale time after its last sign of life
      and then the grace period have both gone by. */
  lemma {:induction false} SilentLinkNotClosedEarly(s: Link, initiator: bool, built: bool, times: seq<real>, limit: real)
    requires Consistent(s) && s.status in {Active, Stale} && limit <= MayCloseAt(s)
    requires forall t :: t in times ==> t < limit
    ensures SilentRun(s, initiator, built, times).status in {Active, Stale}
    decreases |times|
  {
    if times != [] {
      var t := times[0];
      assert t in times;
      SilentCheckConsistent(s, initiator, built, t);
      var u := SilentCheck(s, initiator, built, t);
      assert forall x :: x in times[1..] ==> x in times;
      SilentLinkNotClosedEarly(u, initiator, built, times[1..], limit);
    }
  }
}
