/** The cache of path responses by request tag (destination.rs): a map and a queue in order of expiry. Packets are of any
    type; times are seconds. */
module PathCache {
  import opened Bytes

  const WINDOW := 30.0
  const CAP := 64

  type Tag = bytes

  datatype Cache<P> = Cache(responses: map<Tag, (real, P)>, queue: seq<(Tag, real)>)

  /** `prune_path_responses` */
  function Prune<P>(c: Cache<P>, now: real): Cache<P>
    decreases |c.queue|
  {
    if c.queue == [] || (c.queue[0].1 > now && |c.responses| <= CAP) then c
    else Prune(Cache(c.responses - {c.queue[0].0}, c.queue[1..]), now)
  }

  function Inserted<P>(c: Cache<P>, tag: Tag, p: P, now: real): Cache<P>
  {
    Cache(c.responses[tag := (now + WINDOW, p)], c.queue + [(tag, now + WINDOW)])
  }

  /** `path_response_with_tag` after its first pruning. */
  function RespondPruned<P>(c: Cache<P>, now: real, tag: Option<Tag>, announce: Option<P>): (Cache<P>, Option<P>)
  {
    if tag.Some? && tag.value in c.responses then (c, Some(c.responses[tag.value].1))
    else if announce.None? || tag.None? then (c, announce)
    else (Prune(Inserted(c, tag.value, announce.value, now), now), announce)
  }

  /** `path_response_with_tag`; `announce` is the packet that building an announce now would give, or None if that fails. */
  function Respond<P>(c: Cache<P>, now: real, tag: Option<Tag>, announce: Option<P>): (Cache<P>, Option<P>)
  {
    RespondPruned(Prune(c, now), now, tag, announce)
  }

  class Destination<P> {
    var pathResponses: map<Tag, (real, P)>
    var pathResponseQueue: seq<(Tag, real)>

    ghost function State(): Cache<P>
      reads this
    {
      Cache(pathResponses, pathResponseQueue)
    }

    constructor ()
      ensures State() == Cache(map[], [])
    {
      pathResponses, pathResponseQueue := map[], [];
    }

    method PrunePathResponses(now: real)
      modifies this
      ensures State() == Prune(old(State()), now)
    {
      while pathResponseQueue != []
        invariant Prune(State(), now) == Prune(old(State()), now)
        decreases |pathResponseQueue|
      {
        var (tag, expiresAt) := pathResponseQueue[0];
        if expiresAt > now && |pathResponses| <= CAP {
          break;
        }
        pathResponseQueue := pathResponseQueue[1..];
        pathResponses := pathResponses - {tag};
      }
    }

    method PathResponseWithTag(now: real, tag: Option<Tag>, announce: Option<P>) returns (r: Option<P>)
      modifies this
      ensures (State(), r) == Respond(old(State()), now, tag, announce)
    {
      PrunePathResponses(now);
      if tag.Some? {
        if tag.value in pathResponses {
          return Some(pathResponses[tag.value].1);
        }
      }
      if announce.None? {
        return None;
      }
      if tag.Some? {
        var expiresAt := now + WINDOW;
        pathResponses := pathResponses[tag.value := (expiresAt, announce.value)];
        pathResponseQueue := pathResponseQueue + [(tag.value, expiresAt)];
        PrunePathResponses(now);
      }
      return announce;
    }
  }

  // ----- the simple specification -----------------------------------------------------------------------

  /** A tag, the packet it was first answered with, and when. The history lists all of them, oldest first. */
  datatype Answered<P> = Answered(tag: Tag, packet: P, at: real)

  predicate Ordered<P>(h: seq<Answered<P>>, now: real)
  {
    (forall i, j :: 0 <= i < j < |h| ==> h[i].at <= h[j].at) && forall i :: 0 <= i < |h| ==> h[i].at <= now
  }

  /** Fewer than thirty seconds ago, and fewer than 64 others since. */
  predicate Alive<P>(h: seq<Answered<P>>, i: nat, now: real)
    requires i < |h|
  {
    h[i].at + WINDOW > now && |h| - 1 - i < CAP
  }

  /** The queue lists these answers in order, with their expiries. */
  predicate Queued<P>(queue: seq<(Tag, real)>, g: seq<Answered<P>>)
  {
    |queue| == |g| && forall i :: 0 <= i < |g| ==> queue[i] == (g[i].tag, g[i].at + WINDOW)
  }

  predicate Tagged<P>(g: seq<Answered<P>>, t: Tag)
  {
    exists i :: 0 <= i < |g| && g[i].tag == t
  }

  ghost predicate Listed<P>(m: map<Tag, (real, P)>, g: seq<Answered<P>>)
  {
    forall i :: 0 <= i < |g| ==> g[i].tag in m && m[g[i].tag] == (g[i].at + WINDOW, g[i].packet)
  }

  ghost predicate Covered<P(!new)>(m: map<Tag, (real, P)>, g: seq<Answered<P>>)
  {
    forall t :: t in m ==> Tagged(g, t)
  }

  /** The map has exactly these answers. */
  ghost predicate Mapped<P(!new)>(m: map<Tag, (real, P)>, g: seq<Answered<P>>)
  {
    Listed(m, g) && Covered(m, g) && |m| == |g|
  }

  predicate Distinct<P>(g: seq<Answered<P>>)
  {
    forall i, j :: 0 <= i < j < |g| ==> g[i].tag != g[j].tag
  }

  /** The cache holds the history from index `k` on: each tag once, in the queue and in the map. */
  ghost predicate Holds<P(!new)>(c: Cache<P>, h: seq<Answered<P>>, k: nat)
  {
    k <= |h| && Queued(c.queue, h[k..]) && Mapped(c.responses, h[k..]) && Distinct(h[k..])
  }

  /** From `k` on, exactly the living answers. */
  predicate Sharp<P>(h: seq<Answered<P>>, k: nat, now: real)
  {
    k <= |h| && forall i :: 0 <= i < |h| ==> (Alive(h, i, now) <==> i >= k)
  }

  predicate DeadBefore<P>(h: seq<Answered<P>>, k: nat, now: real)
  {
    k <= |h| && forall i :: 0 <= i < k ==> !Alive(h, i, now)
  }

  lemma DropListed<P>(m: map<Tag, (real, P)>, g: seq<Answered<P>>, d: map<Tag, (real, P)>)
    requires g != [] && Listed(m, g) && Distinct(g) && d == m - {g[0].tag}
    ensures Listed(d, g[1..]) && Distinct(g[1..])
  {
    forall i | 0 <= i < |g| - 1
      ensures g[1..][i].tag in d && d[g[1..][i].tag] == (g[1..][i].at + WINDOW, g[1..][i].packet)
    {
      assert g[1..][i] == g[i + 1] && g[0].tag != g[i + 1].tag;
    }
  }

  lemma DropCovered<P(!new)>(m: map<Tag, (real, P)>, g: seq<Answered<P>>, d: map<Tag, (real, P)>)
    requires g != [] && Covered(m, g) && d == m - {g[0].tag}
    ensures Covered(d, g[1..])
  {
    forall t | t in d
      ensures Tagged(g[1..], t)
    {
      assert t in m && t != g[0].tag;
      var i :| 0 <= i < |g| && g[i].tag == t;
      assert g[1..][i - 1].tag == t;
    }
  }

  lemma DropFirst<P(!new)>(m: map<Tag, (real, P)>, g: seq<Answered<P>>, d: map<Tag, (real, P)>)
    requires g != [] && Mapped(m, g) && Distinct(g) && d == m - {g[0].tag}
    ensures Mapped(d, g[1..]) && Distinct(g[1..])
  {
    DropListed(m, g, d);
    DropCovered(m, g, d);
    assert g[0].tag in m;
    MapMinus(m, g[0].tag);
  }

  /** Dropping the oldest. */
  lemma DropOldest<P(!new)>(c: Cache<P>, h: seq<Answered<P>>, k: nat)
    requires Holds(c, h, k) && k < |h|
    ensures Holds(Cache(c.responses - {c.queue[0].0}, c.queue[1..]), h, k + 1)
  {
    var g := h[k..];
    assert c.queue[0].0 == g[0].tag;
    DropFirst(c.responses, g, c.responses - {c.queue[0].0});
    assert Queued(c.queue[1..], g[1..]);
    HoldsFrom(Cache(c.responses - {c.queue[0].0}, c.queue[1..]), h, k + 1, g[1..]);
  }

  lemma MapMinus<K, V>(m: map<K, V>, k: K)
    requires k in m
    ensures |m - {k}| == |m| - 1
  {
    assert (m - {k}).Keys == m.Keys - {k};
    assert |(m - {k}).Keys| == |m - {k}| && |m.Keys| == |m|;
  }

  /** If the front of the queue lives, so does all behind it. */
  lemma FrontDecides<P(!new)>(h: seq<Answered<P>>, k: nat, now: real)
    requires Ordered(h, now) && DeadBefore(h, k, now) && (k < |h| ==> Alive(h, k, now))
    ensures Sharp(h, k, now)
  {
    forall i | k <= i < |h|
      ensures Alive(h, i, now)
    {
      assert h[k].at <= h[i].at;
    }
  }

  lemma FrontIs<P(!new)>(c: Cache<P>, h: seq<Answered<P>>, k: nat, now: real)
    requires Holds(c, h, k)
    ensures c.queue == [] <==> k == |h|
    ensures k < |h| ==> (c.queue[0].1 > now && |c.responses| <= CAP <==> Alive(h, k, now))
  {
    if k < |h| {
      assert c.queue[0] == (h[k..][0].tag, h[k..][0].at + WINDOW);
    }
  }

  /** Pruning leaves exactly the living. */
  lemma {:induction false} PruneIsSharp<P(!new)>(c: Cache<P>, h: seq<Answered<P>>, k: nat, now: real) returns (after: nat)
    requires Ordered(h, now) && Holds(c, h, k) && DeadBefore(h, k, now)
    ensures k <= after && Holds(Prune(c, now), h, after) && Sharp(h, after, now)
    decreases |h| - k
  {
    FrontIs(c, h, k, now);
    if k < |h| && !Alive(h, k, now) {
      DropOldest(c, h, k);
      after := PruneIsSharp(Cache(c.responses - {c.queue[0].0}, c.queue[1..]), h, k + 1, now);
    } else {
      after := k;
      FrontDecides(h, k, now);
    }
  }

  lemma AddLast<P(!new)>(m: map<Tag, (real, P)>, d: map<Tag, (real, P)>, g: seq<Answered<P>>, e: Answered<P>,
                         more: seq<Answered<P>>)
    requires Mapped(m, g) && Distinct(g) && e.tag !in m && more == g + [e] && d == m[e.tag := (e.at + WINDOW, e.packet)]
    ensures Mapped(d, more) && Distinct(more)
  {
    AddListed(m, d, g, e, more);
    AddCovered(m, d, g, e, more);
    MapPlus(m, e.tag, (e.at + WINDOW, e.packet));
  }

  lemma AddListed<P(!new)>(m: map<Tag, (real, P)>, d: map<Tag, (real, P)>, g: seq<Answered<P>>, e: Answered<P>,
                           more: seq<Answered<P>>)
    requires Listed(m, g) && Distinct(g) && e.tag !in m && more == g + [e] && d == m[e.tag := (e.at + WINDOW, e.packet)]
    ensures Listed(d, more) && Distinct(more)
  {
    assert more[|g|] == e;
    assert forall i :: 0 <= i < |g| ==> more[i] == g[i] && g[i].tag != e.tag;
  }

  lemma AddCovered<P(!new)>(m: map<Tag, (real, P)>, d: map<Tag, (real, P)>, g: seq<Answered<P>>, e: Answered<P>,
                            more: seq<Answered<P>>)
    requires Covered(m, g) && more == g + [e] && d == m[e.tag := (e.at + WINDOW, e.packet)]
    ensures Covered(d, more)
  {
    assert more[|g|] == e;
    forall t | t in m
      ensures Tagged(more, t)
    {
      assert Tagged(g, t);
      var i :| 0 <= i < |g| && g[i].tag == t;
      assert more[i].tag == t;
    }
  }

  lemma QueueLast<P>(queue: seq<(Tag, real)>, after: seq<(Tag, real)>, g: seq<Answered<P>>, e: Answered<P>,
                     more: seq<Answered<P>>)
    requires Queued(queue, g) && more == g + [e] && after == queue + [(e.tag, e.at + WINDOW)]
    ensures Queued(after, more)
  {
  }

  /** A new answer joins at the end. */
  lemma InsertHolds<P(!new)>(c: Cache<P>, h: seq<Answered<P>>, k: nat, tag: Tag, p: P, now: real)
    requires Holds(c, h, k) && tag !in c.responses
    ensures Holds(Inserted(c, tag, p, now), h + [Answered(tag, p, now)], k)
  {
    var e, g := Answered(tag, p, now), h[k..];
    var d := Inserted(c, tag, p, now);
    DropOfLonger(h, e, k);
    AddLast(c.responses, d.responses, g, e, g + [e]);
    QueueLast(c.queue, d.queue, g, e, g + [e]);
    HoldsFrom(d, h + [e], k, g + [e]);
  }

  lemma DropOfLonger<T>(h: seq<T>, e: T, k: nat)
    requires k <= |h|
    ensures (h + [e])[k..] == h[k..] + [e]
  {
  }

  lemma HoldsFrom<P(!new)>(c: Cache<P>, h: seq<Answered<P>>, k: nat, g: seq<Answered<P>>)
    requires k <= |h| && h[k..] == g && Queued(c.queue, g) && Mapped(c.responses, g) && Distinct(g)
    ensures Holds(c, h, k)
  {
  }

  lemma MapPlus<K, V>(m: map<K, V>, k: K, v: V)
    requires k !in m
    ensures |m[k := v]| == |m| + 1
  {
    assert m[k := v].Keys == m.Keys + {k};
    assert |m[k := v].Keys| == |m[k := v]| && |m.Keys| == |m|;
  }

  /** Time and newer answers only ever kill. */
  lemma DeadStaysDead<P(!new)>(h: seq<Answered<P>>, more: seq<Answered<P>>, k: nat, earlier: real, now: real)
    requires DeadBefore(h, k, earlier) && earlier <= now
    ensures DeadBefore(h + more, k, now)
  {
    forall i | 0 <= i < k
      ensures !Alive(h + more, i, now)
    {
      assert !Alive(h, i, earlier);
    }
  }

  function Answering<P>(h: seq<Answered<P>>, tag: Tag, now: real): Option<P>
  {
    AnsweringFrom(h, |h|, tag, now)
  }

  /** The packet of the newest living answer among the first `n` with this tag. */
  function AnsweringFrom<P>(h: seq<Answered<P>>, n: nat, tag: Tag, now: real): Option<P>
    requires n <= |h|
  {
    if n == 0 then None
    else if h[n - 1].tag == tag && Alive(h, n - 1, now) then Some(h[n - 1].packet)
    else AnsweringFrom(h, n - 1, tag, now)
  }

  /** Nothing with this tag is alive at or behind `n`. */
  predicate NoneFrom<P>(h: seq<Answered<P>>, n: nat, tag: Tag, now: real)
  {
    forall i :: n <= i < |h| ==> !(h[i].tag == tag && Alive(h, i, now))
  }

  lemma NotFound<P(!new)>(c: Cache<P>, h: seq<Answered<P>>, k: nat, tag: Tag, now: real)
    requires Holds(c, h, k) && Sharp(h, k, now) && NoneFrom(h, 0, tag, now)
    ensures tag !in c.responses
  {
    forall i | 0 <= i < |h| - k
      ensures h[k..][i].tag != tag
    {
      assert h[k..][i] == h[k + i] && Alive(h, k + i, now);
    }
    assert !Tagged(h[k..], tag);
  }

  lemma Found<P(!new)>(c: Cache<P>, h: seq<Answered<P>>, k: nat, i: nat, now: real)
    requires Holds(c, h, k) && Sharp(h, k, now) && i < |h| && Alive(h, i, now)
    ensures h[i].tag in c.responses && c.responses[h[i].tag].1 == h[i].packet
  {
    assert h[k..][i - k] == h[i];
  }

  lemma {:induction false} LookupIsAnswering<P(!new)>(c: Cache<P>, h: seq<Answered<P>>, k: nat, n: nat, tag: Tag, now: real)
    requires Holds(c, h, k) && Sharp(h, k, now) && n <= |h| && NoneFrom(h, n, tag, now)
    ensures AnsweringFrom(h, n, tag, now) == if tag in c.responses then Some(c.responses[tag].1) else None
    decreases n
  {
    if n == 0 {
      NotFound(c, h, k, tag, now);
    } else if h[n - 1].tag == tag && Alive(h, n - 1, now) {
      Found(c, h, k, n - 1, now);
    } else {
      LookupIsAnswering(c, h, k, n - 1, tag, now);
    }
  }

  /** The specification of one request: a tag with a living answer gets that answer again; otherwise a new announce is made
      and, under a tag, remembered. */
  function SpecRespond<P>(h: seq<Answered<P>>, now: real, tag: Option<Tag>, announce: Option<P>): (seq<Answered<P>>, Option<P>)
  {
    var again := if tag.Some? then Answering(h, tag.value, now) else None;
    if again.Some? then (h, again)
    else if announce.None? || tag.None? then (h, announce)
    else (h + [Answered(tag.value, announce.value, now)], announce)
  }

  /** A remembered answer under a new tag. */
  lemma RememberRefines<P(!new)>(pruned: Cache<P>, h: seq<Answered<P>>, k: nat, now: real, tag: Tag, p: P)
    returns (after: nat)
    requires Holds(pruned, h, k) && Sharp(h, k, now) && Ordered(h, now) && tag !in pruned.responses
    ensures InStep(Prune(Inserted(pruned, tag, p, now), now), h + [Answered(tag, p, now)], after, now)
  {
    InsertHolds(pruned, h, k, tag, p, now);
    DeadStaysDead(h, [Answered(tag, p, now)], k, now, now);
    OrderedLast(h, Answered(tag, p, now), now);
    after := PruneIsSharp(Inserted(pruned, tag, p, now), h + [Answered(tag, p, now)], k, now);
  }

  lemma OrderedLast<P>(h: seq<Answered<P>>, e: Answered<P>, now: real)
    requires Ordered(h, now) && e.at == now
    ensures Ordered(h + [e], now)
  {
  }

  /** The cache holds exactly the living answers of the history. */
  ghost predicate InStep<P(!new)>(c: Cache<P>, h: seq<Answered<P>>, k: nat, now: real)
  {
    Holds(c, h, k) && Sharp(h, k, now) && Ordered(h, now)
  }

  /** One request keeps cache and specification together, and both give the same response. */
  lemma RespondRefines<P(!new)>(c: Cache<P>, h: seq<Answered<P>>, k: nat, earlier: real, now: real, tag: Option<Tag>,
                                announce: Option<P>)
    returns (d: Cache<P>, g: seq<Answered<P>>, r: Option<P>, after: nat)
    requires Holds(c, h, k) && DeadBefore(h, k, earlier) && Ordered(h, earlier) && earlier <= now
    ensures (d, r) == Respond(c, now, tag, announce) && (g, r) == SpecRespond(h, now, tag, announce)
    ensures InStep(d, g, after, now)
  {
    DeadStaysDead(h, [], k, earlier, now);
    assert h + [] == h;
    after := PruneIsSharp(c, h, k, now);
    d, g, r, after := PrunedRefines(Prune(c, now), h, after, now, tag, announce);
  }

  lemma PrunedRefines<P(!new)>(pruned: Cache<P>, h: seq<Answered<P>>, k: nat, now: real, tag: Option<Tag>,
                               announce: Option<P>)
    returns (d: Cache<P>, g: seq<Answered<P>>, r: Option<P>, after: nat)
    requires InStep(pruned, h, k, now)
    ensures (d, r) == RespondPruned(pruned, now, tag, announce) && (g, r) == SpecRespond(h, now, tag, announce)
    ensures InStep(d, g, after, now)
  {
    d, g, after := pruned, h, k;
    if tag.None? {
      return d, g, announce, after;
    }
    LookupIsAnswering(pruned, h, k, |h|, tag.value, now);
    if tag.value in pruned.responses {
      r := Some(pruned.responses[tag.value].1);
    } else if announce.None? {
      r := None;
    } else {
      after := RememberRefines(pruned, h, k, now, tag.value, announce.value);
      d := Prune(Inserted(pruned, tag.value, announce.value, now), now);
      g := h + [Answered(tag.value, announce.value, now)];
      r := announce;
    }
  }

  datatype Request<P> = Request(now: real, tag: Option<Tag>, announce: Option<P>)

  function RunCache<P>(rs: seq<Request<P>>): (Cache<P>, seq<Option<P>>)
  {
    if rs == [] then (Cache(map[], []), [])
    else
      var (c, out) := RunCache(rs[..|rs| - 1]);
      var q := rs[|rs| - 1];
      var (d, r) := Respond(c, q.now, q.tag, q.announce);
      (d, out + [r])
  }

  function RunSpec<P>(rs: seq<Request<P>>): (seq<Answered<P>>, seq<Option<P>>)
  {
    if rs == [] then ([], [])
    else
      var (h, out) := RunSpec(rs[..|rs| - 1]);
      var q := rs[|rs| - 1];
      var (g, r) := SpecRespond(h, q.now, q.tag, q.announce);
      (g, out + [r])
  }

  /** The clock never runs backwards. */
  predicate Chronological<P>(rs: seq<Request<P>>)
  {
    forall i, j :: 0 <= i < j < |rs| ==> rs[i].now <= rs[j].now
  }

  /** Over every run of requests under a clock that does not run backwards, the cache gives exactly the responses of the
      specification. After each request it holds exactly the living answers: at most 64, queued once each by expiry. */
  lemma {:induction false} CacheMeetsSpec<P(!new)>(rs: seq<Request<P>>) returns (k: nat)
    requires Chronological(rs)
    ensures RunCache(rs).1 == RunSpec(rs).1
    ensures if rs == [] then RunCache(rs).0 == Cache(map[], []) && RunSpec(rs).0 == [] && k == 0
            else InStep(RunCache(rs).0, RunSpec(rs).0, k, rs[|rs| - 1].now) && |RunCache(rs).0.queue| <= CAP
    decreases |rs|
  {
    k := 0;
    if rs != [] {
      var init, q := rs[..|rs| - 1], rs[|rs| - 1];
      k := CacheMeetsSpec(init);
      var earlier := if init == [] then q.now else init[|init| - 1].now;
      var (c, h) := (RunCache(init).0, RunSpec(init).0);
      var d, g, r;
      d, g, r, k := RespondRefines(c, h, k, earlier, q.now, q.tag, q.announce);
      AtMostCap(RunSpec(rs).0, k, q.now);
    }
  }

  lemma AtMostCap<P>(h: seq<Answered<P>>, k: nat, now: real)
    requires Sharp(h, k, now)
    ensures |h| - k <= CAP
  {
    if k < |h| {
      assert Alive(h, k, now);
    }
  }
}
