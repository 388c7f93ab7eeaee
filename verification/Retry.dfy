/** Retransmission: every poll that finds an overdue packet makes progress, so retries end. */
module Retry {
  import opened Bytes
  import opened FlowControl
  import opened LinkModel
  import opened LinkRuns

  /** The retries still allowed, summed over all outstanding packets. */
  ghost function RetriesLeft(pending: map<Hash, Outstanding>): int
    decreases |pending|
  {
    if pending == map[] then 0
    else
      var h :| h in pending;
      assert (pending - {h}).Keys == pending.Keys - {h};
      assert |(pending - {h}).Keys| < |pending.Keys|;
      MAX_TRIES - pending[h].tries + RetriesLeft(pending - {h})
  }

  /** The sum may be taken apart at any packet. */
  lemma {:induction false} RetriesLeftAt(pending: map<Hash, Outstanding>, h: Hash)
    requires h in pending
    ensures RetriesLeft(pending) == MAX_TRIES - pending[h].tries + RetriesLeft(pending - {h})
    decreases |pending|
  {
    var k :| k in pending && RetriesLeft(pending) == MAX_TRIES - pending[k].tries + RetriesLeft(pending - {k});
    if k != h {
      assert (pending - {k}).Keys == pending.Keys - {k};
      assert (pending - {h}).Keys == pending.Keys - {h};
      assert |(pending - {k}).Keys| < |pending.Keys| && |(pending - {h}).Keys| < |pending.Keys|;
      RetriesLeftAt(pending - {k}, h);
      RetriesLeftAt(pending - {h}, k);
      assert pending - {k} - {h} == pending - {h} - {k};
    }
  }

  lemma {:induction false} RetriesLeftBounds(pending: map<Hash, Outstanding>)
    requires TriesOk(pending)
    ensures 0 <= RetriesLeft(pending) <= 4 * |pending|
    decreases |pending|
  {
    if pending != map[] {
      var h :| h in pending;
      RetriesLeftAt(pending, h);
      assert (pending - {h}).Keys == pending.Keys - {h};
      assert |(pending - {h}).Keys| == |pending.Keys| - 1;
      RetriesLeftBounds(pending - {h});
    }
  }

  lemma BumpWithout(pending: map<Hash, Outstanding>, due: set<Hash>, h: Hash, rtt: real, n: nat, now: real)
    ensures BumpAll(pending, due, rtt, n, now) - {h} == BumpAll(pending - {h}, due - {h}, rtt, n, now)
  {
  }

  /** Sending `due` again costs exactly one retry for each of its packets. */
  lemma {:induction false} BumpCosts(pending: map<Hash, Outstanding>, due: set<Hash>, rtt: real, n: nat, now: real)
    requires due <= pending.Keys && TriesOk(pending) && !Exhausted(pending, due)
    ensures RetriesLeft(BumpAll(pending, due, rtt, n, now)) == RetriesLeft(pending) - |due|
    decreases |pending|
  {
    var after := BumpAll(pending, due, rtt, n, now);
    if pending == map[] {
      assert due == {} && after == map[];
    } else {
      var h :| h in pending;
      var rest := pending - {h};
      assert rest.Keys == pending.Keys - {h};
      assert |rest.Keys| < |pending.Keys|;
      RetriesLeftAt(pending, h);
      RetriesLeftAt(after, h);
      BumpWithout(pending, due, h, rtt, n, now);
      BumpCosts(rest, due - {h}, rtt, n, now);
      BumpCostsOne(pending, due, h, rtt, n, now);
    }
  }

  lemma BumpCostsOne(pending: map<Hash, Outstanding>, due: set<Hash>, h: Hash, rtt: real, n: nat, now: real)
    requires h in pending && TriesOk(pending) && !Exhausted(pending, due)
    ensures BumpAll(pending, due, rtt, n, now)[h].tries == pending[h].tries + |due| - |due - {h}|
  {
    if h in due {
      assert pending[h].tries < MAX_TRIES;
      assert due == (due - {h}) + {h};
    } else {
      assert due - {h} == due;
    }
  }

  predicate Productive(s: Link, now: real)
  {
    s.status in {Active, Stale} && TimedOut(s.chan.pending, now) != {}
  }

  /** A poll that finds something overdue either spends retries, one for each packet it sends again,
      or closes the link with every outstanding message failed and sends nothing. */
  lemma PollMakesProgress(s: Link, now: real)
    requires Consistent(s) && Productive(s, now)
    ensures var r := Poll(s, now); var t := r.0;
            || (t.status == s.status && r.1 != {} && RetriesLeft(t.chan.pending) == RetriesLeft(s.chan.pending) - |r.1|)
            || (t.status == Closed && r.1 == {} && t.chan.pending == map[]
                && forall q :: q in PendingSequences(s.chan.pending) ==> q in t.chan.states && t.chan.states[q] == Failed)
  {
    var due := TimedOut(s.chan.pending, now);
    if !Exhausted(s.chan.pending, due) {
      BumpCosts(s.chan.pending, due, s.clock.rtt, |s.chan.pending|, now);
    }
  }

  lemma {:induction false} RetriesLeftOfPart(part: map<Hash, Outstanding>, pending: map<Hash, Outstanding>)
    requires part.Keys <= pending.Keys && TriesOk(pending) && forall h :: h in part ==> part[h] == pending[h]
    ensures RetriesLeft(part) <= RetriesLeft(pending)
    decreases |pending|
  {
    if pending != map[] {
      var h :| h in pending;
      assert (pending - {h}).Keys == pending.Keys - {h};
      assert |(pending - {h}).Keys| < |pending.Keys|;
      RetriesLeftAt(pending, h);
      if h in part {
        RetriesLeftAt(part, h);
        RetriesLeftOfPart(part - {h}, pending - {h});
      } else {
        RetriesLeftOfPart(part, pending - {h});
      }
    } else {
      assert part == map[];
    }
  }

  predicate AcceptedSend(s: Link, e: Event)
  {
    e.DoSend? && SendMessage(s, e.m, e.now).1.Accepted?
  }

  /** Apart from polls and accepted sends an event can only take packets away. */
  lemma OnlyTakesAway(s: Link, e: Event)
    requires !e.DoPoll? && !AcceptedSend(s, e)
    ensures var p, t := s.chan.pending, Step(s, e).chan.pending; t.Keys <= p.Keys && forall h :: h in t ==> t[h] == p[h]
  {
    match e
    case DoPacket(p, iface, now) => PacketTakesAway(s, p, iface, now);
    case _ =>
  }

  lemma PacketTakesAway(s: Link, p: Incoming, iface: Iface, now: real)
    ensures var t := HandlePacket(s, p, iface, now).0.chan.pending;
            t.Keys <= s.chan.pending.Keys && forall h :: h in t ==> t[h] == s.chan.pending[h]
  {
    NoteInboundOnlyClock(s, p.context, now);
    if p.kind == Data {
      DataVerdicts(s, p, now);
    }
  }

  predicate FindsOverdue(s: Link, e: Event) { e.DoPoll? && Productive(s, e.now) }

  /** A poll that comes upon an overdue packet without tries left. */
  predicate Closes(s: Link, e: Event)
  {
    FindsOverdue(s, e) && Exhausted(s.chan.pending, TimedOut(s.chan.pending, e.now))
  }

  lemma StepSpends(s: Link, e: Event)
    requires Consistent(s) && !AcceptedSend(s, e)
    ensures var t := Step(s, e).chan.pending;
            && RetriesLeft(t) + (if FindsOverdue(s, e) && !Closes(s, e) then 1 else 0) <= RetriesLeft(s.chan.pending)
            && (s.chan.pending == map[] ==> t == map[] && !FindsOverdue(s, e))
            && (Closes(s, e) ==> t == map[])
  {
    if e.DoPoll? {
      PollSpends(s, e.now);
    } else {
      OnlyTakesAway(s, e);
      RetriesLeftOfPart(Step(s, e).chan.pending, s.chan.pending);
    }
  }

  lemma PollSpends(s: Link, now: real)
    requires Consistent(s)
    ensures var t := Poll(s, now).0.chan.pending; var e := DoPoll(now);
            && RetriesLeft(t) + (if FindsOverdue(s, e) && !Closes(s, e) then 1 else 0) <= RetriesLeft(s.chan.pending)
            && (s.chan.pending == map[] ==> t == map[] && !FindsOverdue(s, e))
            && (Closes(s, e) ==> t == map[])
  {
    if Productive(s, now) {
      PollMakesProgress(s, now);
      RetriesLeftBounds(s.chan.pending);
      assert s.chan.pending != map[];
    }
  }

  predicate NoNewSends(s: Link, es: seq<Event>)
    decreases |es|
  {
    es == [] || (NoNewSends(s, es[..|es| - 1]) && !AcceptedSend(Run(s, es[..|es| - 1]), es[|es| - 1]))
  }

  /** How many polls of a run find something overdue, and how many of those close the link. */
  function OverduePolls(s: Link, es: seq<Event>): nat
  {
    if es == [] then 0
    else
      var before, e := es[..|es| - 1], es[|es| - 1];
      OverduePolls(s, before) + if FindsOverdue(Run(s, before), e) then 1 else 0
  }

  function ClosingPolls(s: Link, es: seq<Event>): nat
  {
    if es == [] then 0
    else
      var before, e := es[..|es| - 1], es[|es| - 1];
      ClosingPolls(s, before) + if Closes(Run(s, before), e) then 1 else 0
  }

  /** In any run without a new accepted send, whatever else happens in it, proofs, closes and restarts included, polls that
      find something overdue run out: the retries left at the start bound their number, and the one beyond them closes the
      link. At most 193 polls of any link can be productive between two sends. */
  lemma {:induction false} RetriesTerminate(s: Link, es: seq<Event>)
    requires Consistent(s) && NoNewSends(s, es)
    ensures var n, k, left := OverduePolls(s, es), ClosingPolls(s, es), RetriesLeft(Run(s, es).chan.pending);
            && 0 <= left && n - k + left <= RetriesLeft(s.chan.pending) <= 4 * WINDOW_MAX_FAST
            && k <= 1 && (k == 1 ==> Run(s, es).chan.pending == map[])
            && n <= RetriesLeft(s.chan.pending) + 1 && (n == RetriesLeft(s.chan.pending) + 1 ==> k == 1)
    decreases |es|
  {
    RetriesLeftBounds(s.chan.pending);
    if es != [] {
      var before, e := es[..|es| - 1], es[|es| - 1];
      RetriesTerminate(s, before);
      ReachableConsistent(s, es);
      ReachableConsistent(s, before);
      RetriesLeftBounds(Run(s, es).chan.pending);
      StepSpends(Run(s, before), e);
    }
  }

  /** A poll late enough to find something overdue, if anything is outstanding. */
  predicate Late(s: Link, e: Event)
  {
    e.DoPoll? && (s.chan.pending != map[] ==> TimedOut(s.chan.pending, e.now) != {})
  }

  function LatePolls(s: Link, es: seq<Event>): nat
  {
    if es == [] then 0
    else
      var before, e := es[..|es| - 1], es[|es| - 1];
      LatePolls(s, before) + if Late(Run(s, before), e) then 1 else 0
  }

  /** As long as something stays outstanding, every late poll finds something overdue and none closes the link. */
  lemma {:induction false} LatePollsAreOverdue(s: Link, es: seq<Event>)
    requires Consistent(s) && NoNewSends(s, es) && Run(s, es).chan.pending != map[]
    ensures OverduePolls(s, es) >= LatePolls(s, es) && ClosingPolls(s, es) == 0
    decreases |es|
  {
    if es != [] {
      var before, e := es[..|es| - 1], es[|es| - 1];
      ReachableConsistent(s, before);
      StepSpends(Run(s, before), e);
      LatePollsAreOverdue(s, before);
    }
  }

  /** Once the retransmission loop has run late enough often enough, nothing is outstanding any more. */
  lemma LatePollsSettle(s: Link, es: seq<Event>)
    requires Consistent(s) && NoNewSends(s, es) && LatePolls(s, es) > RetriesLeft(s.chan.pending)
    ensures Run(s, es).chan.pending == map[]
  {
    if Run(s, es).chan.pending != map[] {
      LatePollsAreOverdue(s, es);
      RetriesTerminate(s, es);
    }
  }

  /** How many polls of a run send packet `h` again. */
  function Retransmissions(s: Link, es: seq<Event>, h: Hash): nat
  {
    if es == [] then 0
    else
      var before, e := es[..|es| - 1], es[|es| - 1];
      Retransmissions(s, before, h) + if e.DoPoll? && h in Poll(Run(s, before), e.now).1 then 1 else 0
  }

  predicate Accepts(e: Event, h: Hash) { e.DoSend? && e.m.hash == h }

  /** In any run of events, with proofs, sends, closes and restarts anywhere in it,
      one accepted packet is retransmitted at most as often as it has tries left, hence at most four times. */
  lemma {:induction false} RetransmissionsBounded(s: Link, es: seq<Event>, h: Hash)
    requires Consistent(s) && forall e :: e in es ==> !Accepts(e, h)
    ensures var t := Run(s, es).chan.pending; var n := Retransmissions(s, es, h);
            && (h in t ==> h in s.chan.pending && t[h].tries == s.chan.pending[h].tries + n)
            && n <= (if h in s.chan.pending then MAX_TRIES - s.chan.pending[h].tries else 0) <= 4
  {
    if es != [] {
      var before, e := es[..|es| - 1], es[|es| - 1];
      RetransmissionsBounded(s, before, h);
      ReachableConsistent(s, before);
      var u := Run(s, before);
      StepKeepsTries(u, e, h);
      StepConsistent(u, e);
    }
  }

  /** Only a poll changes the tries of a packet that stays outstanding, and only by one. */
  lemma StepKeepsTries(s: Link, e: Event, h: Hash)
    requires Consistent(s) && !Accepts(e, h)
    ensures var t := Step(s, e).chan.pending; var p := s.chan.pending;
            && (h in t ==> h in p && t[h].tries == p[h].tries + if e.DoPoll? && h in Poll(s, e.now).1 then 1 else 0)
            && (e.DoPoll? && h in Poll(s, e.now).1 ==> h in t)
  {
    if e.DoPoll? {
      PollKeepsTries(s, e.now, h);
    } else if AcceptedSend(s, e) {
      assert Step(s, e).chan.pending.Keys == s.chan.pending.Keys + {e.m.hash};
    } else {
      OnlyTakesAway(s, e);
    }
  }

  lemma PollKeepsTries(s: Link, now: real, h: Hash)
    requires Consistent(s)
    ensures var (u, again) := Poll(s, now); var t, p := u.chan.pending, s.chan.pending;
            && (h in t ==> h in p && t[h].tries == p[h].tries + if h in again then 1 else 0) && (h in again ==> h in t)
  {
    if h in Poll(s, now).1 {
      assert s.chan.pending[h].tries < MAX_TRIES;
    }
  }
}
