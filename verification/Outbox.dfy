/** The persistent outbound queue (store.rs) and the background jobs that work on it (node.rs). */
module Outbox {
  import opened Bytes

  const MAX_ATTEMPTS := 50
  const PENDING_CAP := 1000

  type Dest = b: bytes | |b| == 16 witness seq(16, _ => 0)

  // ----- the table --------------------------------------------------------------------------------------

  datatype Row = Row(seqNo: nat, dest: Dest, payload: bytes, attempts: nat)

  /** `outbound_queue`: the primary key is never used twice. */
  datatype Table = Table(rows: map<nat, Row>, nextId: nat)

  function Inserted(t: Table, seqNo: nat, dest: Dest, payload: bytes): Table
  {
    Table(t.rows[t.nextId := Row(seqNo, dest, payload, 0)], t.nextId + 1)
  }

  function Removed(t: Table, id: nat): Table
  {
    t.(rows := t.rows - {id})
  }

  function Bumped(t: Table, id: nat): Table
  {
    if id in t.rows then t.(rows := t.rows[id := t.rows[id].(attempts := t.rows[id].attempts + 1)]) else t
  }

  function Expired(t: Table, max: nat): set<nat>
  {
    set id | id in t.rows && t.rows[id].attempts >= max
  }

  /** The rows still to be tried, by ascending id, from `id` on. */
  function Loadable(t: Table, id: nat): seq<(nat, Row)>
    decreases t.nextId - id
  {
    if id >= t.nextId then []
    else (if id in t.rows && t.rows[id].attempts < MAX_ATTEMPTS then [(id, t.rows[id])] else []) + Loadable(t, id + 1)
  }

  class MessageStore {
    var rows: map<nat, Row>
    var nextId: nat

    ghost function State(): Table
      reads this
    {
      Table(rows, nextId)
    }

    constructor ()
      ensures State() == Table(map[], 1)
    {
      rows, nextId := map[], 1;
    }

    method EnqueueOutbound(seqNo: nat, dest: Dest, payload: bytes) returns (id: nat)
      modifies this
      ensures State() == Inserted(old(State()), seqNo, dest, payload) && id == old(nextId)
    {
      id := nextId;
      rows := rows[id := Row(seqNo, dest, payload, 0)];
      nextId := nextId + 1;
    }

    method RemoveOutbound(id: nat)
      modifies this
      ensures State() == Removed(old(State()), id)
    {
      rows := rows - {id};
    }

    method BumpOutboundAttempts(id: nat)
      modifies this
      ensures State() == Bumped(old(State()), id)
    {
      if id in rows {
        rows := rows[id := rows[id].(attempts := rows[id].attempts + 1)];
      }
    }

    /** The deletion only runs when the selection found something. */
    method DrainExpiredOutbound(max: nat) returns (gone: set<nat>)
      modifies this
      ensures gone == Expired(old(State()), max)
      ensures State() == old(State()).(rows := old(rows) - gone)
    {
      gone := set id | id in rows && rows[id].attempts >= max;
      if gone != {} {
        rows := rows - gone;
      } else {
        assert rows - gone == rows;
      }
    }

    method AllOutboundQueue() returns (out: seq<(nat, Row)>)
      ensures out == Loadable(State(), 0)
    {
      out := [];
      for id := 0 to nextId
        invariant out + Loadable(State(), id) == Loadable(State(), 0)
      {
        ghost var rest := Loadable(State(), id + 1);
        if id in rows && rows[id].attempts < MAX_ATTEMPTS {
          assert out + ([(id, rows[id])] + rest) == (out + [(id, rows[id])]) + rest;
          out := out + [(id, rows[id])];
        } else {
          assert [] + rest == rest;
        }
      }
      assert out + [] == out;
    }
  }

  // ----- the list in memory -----------------------------------------------------------------------------

  datatype PendingSend = PendingSend(seqNo: nat, dest: Dest, payload: bytes, storeId: Option<nat>)

  /** The entries for one destination, and the others, both in order. */
  function Split(q: seq<PendingSend>, dest: Dest): (seq<PendingSend>, seq<PendingSend>)
  {
    if q == [] then ([], [])
    else
      var (matched, rest) := Split(q[..|q| - 1], dest);
      var e := q[|q| - 1];
      if e.dest == dest then (matched + [e], rest) else (matched, rest + [e])
  }

  /** `retain(|s| s.seq != seq)` */
  function Without(q: seq<PendingSend>, seqNo: nat): seq<PendingSend>
  {
    if q == [] then []
    else
      var init, e := Without(q[..|q| - 1], seqNo), q[|q| - 1];
      if e.seqNo == seqNo then init else init + [e]
  }

  predicate HasSeq(q: seq<PendingSend>, seqNo: nat)
  {
    exists e :: e in q && e.seqNo == seqNo
  }

  /** The rows whose sequence number is not in `known`, as entries. */
  function Fresh(rows: seq<(nat, Row)>, known: seq<PendingSend>): seq<PendingSend>
  {
    if rows == [] then []
    else
      var init, (id, row) := Fresh(rows[..|rows| - 1], known), rows[|rows| - 1];
      if HasSeq(known, row.seqNo) then init else init + [PendingSend(row.seqNo, row.dest, row.payload, Some(id))]
  }

  class PendingList {
    var q: seq<PendingSend>

    constructor ()
      ensures q == []
    {
      q := [];
    }

    /** The announce job takes out what is waiting for the announced destination. */
    method TakeFor(dest: Dest) returns (matched: seq<PendingSend>)
      modifies this
      ensures (matched, q) == Split(old(q), dest)
    {
      matched := [];
      var rest := [];
      for i := 0 to |q|
        invariant q == old(q) && (matched, rest) == Split(q[..i], dest)
      {
        assert q[..i + 1][..i] == q[..i];
        if q[i].dest == dest {
          matched := matched + [q[i]];
        } else {
          rest := rest + [q[i]];
        }
      }
      assert q[..|q|] == q;
      q := rest;
    }

    method Retain(seqNo: nat)
      modifies this
      ensures q == Without(old(q), seqNo)
    {
      var kept := [];
      for i := 0 to |q|
        invariant q == old(q) && kept == Without(q[..i], seqNo)
      {
        assert q[..i + 1][..i] == q[..i];
        if q[i].seqNo != seqNo {
          kept := kept + [q[i]];
        }
      }
      assert q[..|q|] == q;
      q := kept;
    }

    /** `send_to`'s push, with or without the cap. */
    method Push(e: PendingSend, capped: bool)
      modifies this
      ensures q == if capped && |old(q)| >= PENDING_CAP then old(q) else old(q) + [e]
    {
      if !capped || |q| < PENDING_CAP {
        q := q + [e];
      }
    }

    /** Start-up: rows are added unless their sequence number was already in the list before loading. */
    method Load(rows: seq<(nat, Row)>)
      modifies this
      ensures q == old(q) + Fresh(rows, old(q))
    {
      var existing := set e | e in q :: e.seqNo;
      var added := [];
      for i := 0 to |rows|
        invariant q == old(q) + added && added == Fresh(rows[..i], old(q))
      {
        assert rows[..i + 1][..i] == rows[..i];
        var (id, row) := rows[i];
        assert row.seqNo in existing <==> HasSeq(old(q), row.seqNo);
        if row.seqNo !in existing {
          var e := PendingSend(row.seqNo, row.dest, row.payload, Some(id));
          assert q + [e] == old(q) + (added + [e]);
          added := added + [e];
          q := q + [e];
        }
      }
      assert rows[..|rows|] == rows;
    }
  }

  // ----- all jobs together -----------------------------------------------------------------------------

  /** A transmission of `payload` to `dest`, from the announce or the periodic job, for a row if it had one. */
  datatype Attempt = Attempt(dest: Dest, payload: bytes, ok: bool, periodic: bool, id: Option<nat>)

  /** The table; the list; what `send_to` calls have in hand between the table and the list; what the announce job and the
      periodic job have in hand; and, for the record, every transmission so far and every row ever inserted. */
  datatype Node = Node(table: Table, pending: seq<PendingSend>, hands: seq<PendingSend>, batch: seq<PendingSend>,
                       snapshot: seq<PendingSend>, nextSeq: nat, log: seq<Attempt>, born: map<nat, (Dest, bytes)>)

  /** Steps of the jobs, in any interleaving. `stored` says whether the table could be reached, `ok` whether the
      transmission succeeded. */
  datatype Step =
    | Dispatched
    | Enqueue(dest: Dest, body: bytes, stored: bool)
    | PushInHand(i: nat, capped: bool)
    | Announce(announced: Dest)
    | FlushOne(ok: bool, stored: bool)
    | Expire(stored: bool)
    | Snapshot
    | RetryOne(ok: bool, stored: bool)
    | Stop
    | Start(stored: bool)
    | Init

  /** The payload `send_to` builds starts with its destination. */
  function PayloadFor(dest: Dest, body: bytes): bytes { dest + body }

  function Take<T>(s: seq<T>, i: nat): seq<T>
    requires i < |s|
  {
    s[..i] + s[i + 1..]
  }

  function Next(n: Node, step: Step): Node
  {
    match step
    case Dispatched => n.(nextSeq := n.nextSeq + 1)
    case Enqueue(dest, body, stored) =>
      var payload := PayloadFor(dest, body);
      var e := PendingSend(n.nextSeq, dest, payload, if stored then Some(n.table.nextId) else None);
      n.(table := if stored then Inserted(n.table, n.nextSeq, dest, payload) else n.table,
         born := if stored then n.born[n.table.nextId := (dest, payload)] else n.born,
         hands := n.hands + [e], nextSeq := n.nextSeq + 1)
    case PushInHand(i, capped) =>
      if i >= |n.hands| then n
      else n.(hands := Take(n.hands, i),
              pending := if capped && |n.pending| >= PENDING_CAP then n.pending else n.pending + [n.hands[i]])
    case Announce(dest) =>
      var (matched, rest) := Split(n.pending, dest);
      n.(pending := rest, batch := n.batch + matched)
    case FlushOne(ok, stored) =>
      if n.batch == [] then n
      else
        var e := n.batch[0];
        var a := Attempt(if |e.payload| >= 16 then e.payload[..16] else e.dest, e.payload, ok, false, e.storeId);
        n.(batch := n.batch[1..], log := n.log + [a],
           table := if ok && stored && e.storeId.Some? then Removed(n.table, e.storeId.value) else n.table,
           pending := if ok then n.pending else n.pending + [e])
    case Expire(stored) =>
      if stored then n.(table := n.table.(rows := n.table.rows - Expired(n.table, MAX_ATTEMPTS))) else n
    case Snapshot => n.(snapshot := n.pending)
    case RetryOne(ok, stored) =>
      if n.snapshot == [] then n
      else
        var e := n.snapshot[0];
        n.(snapshot := n.snapshot[1..], log := n.log + [Attempt(e.dest, e.payload, ok, true, e.storeId)],
           pending := if ok then Without(n.pending, e.seqNo) else n.pending,
           table := if !stored || e.storeId.None? then n.table
                    else if ok then Removed(n.table, e.storeId.value) else Bumped(n.table, e.storeId.value))
    case Stop => n.(batch := [], snapshot := [])
    case Start(stored) => if stored then n.(pending := n.pending + Fresh(Loadable(n.table, 0), n.pending)) else n
    case Init => n.(pending := [], hands := [], batch := [], snapshot := [], nextSeq := 0)
  }

  function Run(n: Node, steps: seq<Step>): Node
  {
    if steps == [] then n else Next(Run(n, steps[..|steps| - 1]), steps[|steps| - 1])
  }

  // ----- safety -----------------------------------------------------------------------------------------

  /** Failed periodic transmissions on behalf of row `id`. */
  function Failures(log: seq<Attempt>, id: nat): nat
  {
    if log == [] then 0
    else
      var a := log[|log| - 1];
      Failures(log[..|log| - 1], id) + if a.periodic && !a.ok && a.id == Some(id) then 1 else 0
  }

  /** An entry with a store id carries what that row was created with; every entry's payload starts with its destination. */
  predicate Honest(born: map<nat, (Dest, bytes)>, e: PendingSend)
  {
    && |e.payload| >= 16 && e.payload[..16] == e.dest
    && (e.storeId.Some? ==> e.storeId.value in born && born[e.storeId.value] == (e.dest, e.payload))
  }

  ghost predicate AllHonest(born: map<nat, (Dest, bytes)>, es: seq<PendingSend>)
  {
    forall e :: e in es ==> Honest(born, e)
  }

  ghost predicate Careful(n: Node)
  {
    AllHonest(n.born, n.pending) && AllHonest(n.born, n.hands) && AllHonest(n.born, n.batch) && AllHonest(n.born, n.snapshot)
  }

  /** A transmission on behalf of row `id` succeeded. */
  ghost predicate Transmitted(n: Node, id: nat)
  {
    exists a :: a in n.log && a.ok && a.id == Some(id)
  }

  /** Every transmission on behalf of a row was to its destination and with its payload. */
  ghost predicate Labelled(n: Node)
  {
    forall a :: a in n.log && a.id.Some? ==> a.id.value in n.born && n.born[a.id.value] == (a.dest, a.payload)
  }

  /** Rows are as they were created; what has been created and is gone has a reason. */
  ghost predicate Accounted(n: Node)
  {
    && (forall id :: id in n.born <==> 1 <= id < n.table.nextId)
    && (forall id :: id in n.table.rows ==>
          id in n.born && (n.table.rows[id].dest, n.table.rows[id].payload) == n.born[id]
          && |n.table.rows[id].payload| >= 16 && n.table.rows[id].payload[..16] == n.table.rows[id].dest
          && n.table.rows[id].attempts <= Failures(n.log, id))
    && (forall id :: id in n.born && id !in n.table.rows ==> Transmitted(n, id) || Failures(n.log, id) >= MAX_ATTEMPTS)
  }

  ghost predicate Safe(n: Node)
  {
    n.table.nextId >= 1 && Accounted(n) && Careful(n) && Labelled(n)
  }

  const EMPTY := Node(Table(map[], 1), [], [], [], [], 0, [], map[])

  lemma {:induction false} SplitKeeps(q: seq<PendingSend>, dest: Dest)
    ensures var (matched, rest) := Split(q, dest);
            (forall e :: e in matched ==> e in q && e.dest == dest) && (forall e :: e in rest ==> e in q)
    decreases |q|
  {
    if q != [] {
      SplitKeeps(q[..|q| - 1], dest);
    }
  }

  lemma {:induction false} WithoutKeeps(q: seq<PendingSend>, seqNo: nat)
    ensures forall e :: e in Without(q, seqNo) ==> e in q
    decreases |q|
  {
    if q != [] {
      WithoutKeeps(q[..|q| - 1], seqNo);
    }
  }

  lemma {:induction false} FreshFrom(rows: seq<(nat, Row)>, known: seq<PendingSend>)
    ensures forall e :: e in Fresh(rows, known) ==>
              exists r :: r in rows && e == PendingSend(r.1.seqNo, r.1.dest, r.1.payload, Some(r.0))
    decreases |rows|
  {
    if rows != [] {
      var last := rows[|rows| - 1];
      FreshFrom(rows[..|rows| - 1], known);
      forall e | e in Fresh(rows, known)
        ensures exists r :: r in rows && e == PendingSend(r.1.seqNo, r.1.dest, r.1.payload, Some(r.0))
      {
        if e !in Fresh(rows[..|rows| - 1], known) {
          assert last in rows;
        }
      }
    }
  }

  lemma {:induction false} LoadableFrom(t: Table, from: nat)
    ensures forall r :: r in Loadable(t, from) ==> r.0 in t.rows && t.rows[r.0] == r.1 && r.1.attempts < MAX_ATTEMPTS
    decreases t.nextId - from
  {
    if from < t.nextId {
      LoadableFrom(t, from + 1);
    }
  }

  lemma FailuresSnoc(log: seq<Attempt>, a: Attempt, id: nat)
    ensures Failures(log + [a], id) == Failures(log, id) + if a.periodic && !a.ok && a.id == Some(id) then 1 else 0
  {
    assert (log + [a])[..|log|] == log;
  }

  /** More history never takes a reason away. */
  lemma LogGrows(n: Node, a: Attempt, id: nat)
    ensures Transmitted(n, id) ==> Transmitted(n.(log := n.log + [a]), id)
    ensures Failures(n.log + [a], id) >= Failures(n.log, id)
  {
    FailuresSnoc(n.log, a, id);
    if Transmitted(n, id) {
      var b :| b in n.log && b.ok && b.id == Some(id);
      assert b in n.log + [a];
    }
  }

  lemma LoggedKeepsAccounts(n: Node, a: Attempt)
    requires Accounted(n)
    ensures Accounted(n.(log := n.log + [a]))
  {
    forall id
      ensures Transmitted(n, id) ==> Transmitted(n.(log := n.log + [a]), id)
      ensures Failures(n.log + [a], id) >= Failures(n.log, id)
    {
      LogGrows(n, a, id);
    }
  }

  /** A row may go once it has been transmitted. */
  lemma RemovalKeepsAccounts(n: Node, id: nat)
    requires Accounted(n) && Transmitted(n, id)
    ensures Accounted(n.(table := Removed(n.table, id)))
  {
    var after := n.(table := Removed(n.table, id));
    forall i | i in after.born && i !in after.table.rows
      ensures Transmitted(after, i) || Failures(after.log, i) >= MAX_ATTEMPTS
    {
      if i == id {
        assert Transmitted(n, i);
      }
      assert Transmitted(n, i) ==> Transmitted(after, i);
    }
  }

  lemma ExpiryKeepsAccounts(n: Node)
    requires Accounted(n)
    ensures Accounted(n.(table := n.table.(rows := n.table.rows - Expired(n.table, MAX_ATTEMPTS))))
  {
    var after := n.(table := n.table.(rows := n.table.rows - Expired(n.table, MAX_ATTEMPTS)));
    forall i | i in after.born && i !in after.table.rows
      ensures Transmitted(after, i) || Failures(after.log, i) >= MAX_ATTEMPTS
    {
      assert Transmitted(n, i) ==> Transmitted(after, i);
    }
  }

  lemma InsertKeepsAccounts(n: Node, dest: Dest, body: bytes)
    requires Accounted(n) && n.table.nextId >= 1
    ensures Accounted(Next(n, Enqueue(dest, body, true)))
  {
    var after := Next(n, Enqueue(dest, body, true));
    assert PayloadFor(dest, body)[..16] == dest;
    NewRowIsAccounted(n, after, Row(n.nextSeq, dest, PayloadFor(dest, body), 0));
  }

  lemma NewRowIsAccounted(n: Node, after: Node, row: Row)
    requires Accounted(n) && n.table.nextId >= 1 && |row.payload| >= 16 && row.payload[..16] == row.dest && row.attempts == 0
    requires after.table == Table(n.table.rows[n.table.nextId := row], n.table.nextId + 1) && after.log == n.log
    requires after.born == n.born[n.table.nextId := (row.dest, row.payload)]
    ensures Accounted(after)
  {
    forall i | i in after.born && i !in after.table.rows
      ensures Transmitted(after, i) || Failures(after.log, i) >= MAX_ATTEMPTS
    {
      assert i in n.born && i !in n.table.rows;
      assert Transmitted(n, i) ==> Transmitted(after, i);
    }
  }

  /** An entry stays honest when rows are born. */
  lemma HonestStays(born: map<nat, (Dest, bytes)>, after: map<nat, (Dest, bytes)>, es: seq<PendingSend>)
    requires AllHonest(born, es) && forall id :: id in born ==> id in after && after[id] == born[id]
    ensures AllHonest(after, es)
  {
  }

  lemma HonestTail(born: map<nat, (Dest, bytes)>, es: seq<PendingSend>)
    requires es != [] && AllHonest(born, es)
    ensures Honest(born, es[0]) && AllHonest(born, es[1..])
  {
    assert es[0] in es && forall e :: e in es[1..] ==> e in es;
  }

  lemma HonestTake(born: map<nat, (Dest, bytes)>, es: seq<PendingSend>, i: nat)
    requires i < |es| && AllHonest(born, es)
    ensures Honest(born, es[i]) && AllHonest(born, Take(es, i))
  {
    assert es[i] in es && forall e :: e in Take(es, i) ==> e in es;
  }

  lemma FlushKeepsAccounts(n: Node, ok: bool, stored: bool)
    requires Accounted(n) && n.batch != [] && Honest(n.born, n.batch[0])
    ensures Accounted(Next(n, FlushOne(ok, stored)))
  {
    var e := n.batch[0];
    var a := Attempt(e.payload[..16], e.payload, ok, false, e.storeId);
    LoggedKeepsAccounts(n, a);
    var logged := n.(log := n.log + [a]);
    if ok && stored && e.storeId.Some? {
      assert a in logged.log;
      RemovalKeepsAccounts(logged, e.storeId.value);
      OnlyTableAndLog(logged.(table := Removed(logged.table, e.storeId.value)), Next(n, FlushOne(ok, stored)));
    } else {
      OnlyTableAndLog(logged, Next(n, FlushOne(ok, stored)));
    }
  }

  /** The accounts are about the table, the log and the births only. */
  lemma OnlyTableAndLog(a: Node, b: Node)
    requires Accounted(a) && a.table == b.table && a.log == b.log && a.born == b.born
    ensures Accounted(b)
  {
    forall id
      ensures Transmitted(a, id) ==> Transmitted(b, id)
    {
    }
  }

  lemma LabelNext(n: Node, after: Node, a: Attempt)
    requires Labelled(n) && after.log == n.log + [a] && after.born == n.born
    requires a.id.Some? ==> a.id.value in n.born && n.born[a.id.value] == (a.dest, a.payload)
    ensures Labelled(after)
  {
  }

  lemma FlushKeepsSafe(n: Node, ok: bool, stored: bool)
    requires Safe(n)
    ensures Safe(Next(n, FlushOne(ok, stored)))
  {
    if n.batch != [] {
      HonestTail(n.born, n.batch);
      FlushKeepsAccounts(n, ok, stored);
      var e := n.batch[0];
      LabelNext(n, Next(n, FlushOne(ok, stored)), Attempt(e.payload[..16], e.payload, ok, false, e.storeId));
    }
  }

  lemma BumpKeepsAccounts(n: Node, e: PendingSend, a: Attempt)
    requires Accounted(n) && e.storeId.Some? && a == Attempt(e.dest, e.payload, false, true, e.storeId)
    ensures Accounted(n.(log := n.log + [a], table := Bumped(n.table, e.storeId.value)))
  {
    LoggedKeepsAccounts(n, a);
    var logged := n.(log := n.log + [a]);
    var after := logged.(table := Bumped(n.table, e.storeId.value));
    FailuresSnoc(n.log, a, e.storeId.value);
    forall i | i in after.born && i !in after.table.rows
      ensures Transmitted(after, i) || Failures(after.log, i) >= MAX_ATTEMPTS
    {
      assert Transmitted(logged, i) ==> Transmitted(after, i);
    }
  }

  lemma RetryKeepsAccounts(n: Node, ok: bool, stored: bool)
    requires Accounted(n) && n.snapshot != [] && Honest(n.born, n.snapshot[0])
    ensures Accounted(Next(n, RetryOne(ok, stored)))
  {
    var e := n.snapshot[0];
    var a := Attempt(e.dest, e.payload, ok, true, e.storeId);
    var after, logged := Next(n, RetryOne(ok, stored)), n.(log := n.log + [a]);
    LoggedKeepsAccounts(n, a);
    if !stored || e.storeId.None? {
      OnlyTableAndLog(logged, after);
    } else if ok {
      assert a in logged.log;
      RemovalKeepsAccounts(logged, e.storeId.value);
      OnlyTableAndLog(logged.(table := Removed(n.table, e.storeId.value)), after);
    } else {
      BumpKeepsAccounts(n, e, a);
      OnlyTableAndLog(logged.(table := Bumped(n.table, e.storeId.value)), after);
    }
  }

  lemma RetryKeepsSafe(n: Node, ok: bool, stored: bool)
    requires Safe(n)
    ensures Safe(Next(n, RetryOne(ok, stored)))
  {
    if n.snapshot != [] {
      HonestTail(n.born, n.snapshot);
      WithoutKeeps(n.pending, n.snapshot[0].seqNo);
      RetryKeepsAccounts(n, ok, stored);
      var e := n.snapshot[0];
      LabelNext(n, Next(n, RetryOne(ok, stored)), Attempt(e.dest, e.payload, ok, true, e.storeId));
    }
  }

  lemma StartKeepsSafe(n: Node, stored: bool)
    requires Safe(n)
    ensures Safe(Next(n, Start(stored)))
  {
    var rows := Loadable(n.table, 0);
    LoadableFrom(n.table, 0);
    FreshFrom(rows, n.pending);
    var after := Next(n, Start(stored));
    forall e | e in after.pending
      ensures Honest(after.born, e)
    {
      if e !in n.pending {
        var r :| r in rows && e == PendingSend(r.1.seqNo, r.1.dest, r.1.payload, Some(r.0));
        assert r.0 in n.table.rows;
      }
    }
  }

  lemma EnqueueKeepsSafe(n: Node, dest: Dest, body: bytes, stored: bool)
    requires Safe(n)
    ensures Safe(Next(n, Enqueue(dest, body, stored)))
  {
    var after := Next(n, Enqueue(dest, body, stored));
    assert PayloadFor(dest, body)[..16] == dest;
    if stored {
      InsertKeepsAccounts(n, dest, body);
    } else {
      OnlyTableAndLog(n, after);
    }
    HonestStays(n.born, after.born, n.pending);
    HonestStays(n.born, after.born, n.hands);
    HonestStays(n.born, after.born, n.batch);
    HonestStays(n.born, after.born, n.snapshot);
  }

  lemma StepKeepsSafe(n: Node, step: Step)
    requires Safe(n)
    ensures Safe(Next(n, step))
  {
    match step {
      case Enqueue(dest, body, stored) => EnqueueKeepsSafe(n, dest, body, stored);
      case PushInHand(i, _) =>
        if i < |n.hands| {
          HonestTake(n.born, n.hands, i);
        }
        OnlyTableAndLog(n, Next(n, step));
      case Announce(dest) =>
        SplitKeeps(n.pending, dest);
        OnlyTableAndLog(n, Next(n, step));
      case FlushOne(ok, stored) => FlushKeepsSafe(n, ok, stored);
      case Expire(_) => ExpiryKeepsAccounts(n);
      case RetryOne(ok, stored) => RetryKeepsSafe(n, ok, stored);
      case Start(stored) => StartKeepsSafe(n, stored);
      case _ => OnlyTableAndLog(n, Next(n, step));
    }
  }

  lemma {:induction false} RunIsSafe(steps: seq<Step>)
    ensures Safe(Run(EMPTY, steps))
    decreases |steps|
  {
    if steps != [] {
      RunIsSafe(steps[..|steps| - 1]);
      StepKeepsSafe(Run(EMPTY, steps[..|steps| - 1]), steps[|steps| - 1]);
    }
  }

  /** In every interleaving of sends, announces, retries, expiry, restarts and failing stores: a row that was ever inserted
      and is gone was either transmitted successfully or had fifty failed periodic attempts; and all transmissions made on
      its behalf were to the destination and with the payload it was inserted with. */
  lemma RowsDisappearForAReason(steps: seq<Step>, id: nat)
    requires var n := Run(EMPTY, steps); 1 <= id < n.table.nextId && id !in n.table.rows
    ensures var n := Run(EMPTY, steps);
            && (Transmitted(n, id) || Failures(n.log, id) >= MAX_ATTEMPTS)
            && id in n.born && forall a :: a in n.log && a.id == Some(id) ==> (a.dest, a.payload) == n.born[id]
  {
    RunIsSafe(steps);
  }

  /** Sequence numbers are no such key: what a successful periodic transmission leaves in memory is exactly the entries with
      another number, so the entry of another message with the same number goes as well. */
  lemma SequenceNumbersCollide(n: Node, f: PendingSend, stored: bool)
    requires n.snapshot != []
    ensures f in Next(n, RetryOne(true, stored)).pending <==> f in n.pending && f.seqNo != n.snapshot[0].seqNo
  {
    WithoutDrops(n.pending, n.snapshot[0].seqNo);
  }

  /** A message is stored, the node starts anew and loads it, a second message is sent and gets the same number, and the
      periodic job transmits the first. */
  function CollidingRun(d1: Dest, b1: bytes, d2: Dest, b2: bytes): seq<Step>
  {
    [Enqueue(d1, b1, true), Init, Start(true), Enqueue(d2, b2, true), PushInHand(0, false), Snapshot, RetryOne(true, true)]
  }

  lemma {:induction false} RunSnoc(n: Node, steps: seq<Step>, step: Step)
    ensures Run(n, steps + [step]) == Next(Run(n, steps), step)
  {
    assert (steps + [step])[..|steps|] == steps;
  }

  /** Such a run from the empty node drops the second message from memory untransmitted; only its row keeps it. */
  lemma CollisionIsReachable(d1: Dest, b1: bytes, d2: Dest, b2: bytes)
    ensures var n := Run(EMPTY, CollidingRun(d1, b1, d2, b2));
            && n.pending == [] && n.hands == [] && n.batch == []
            && n.log == [Attempt(d1, d1 + b1, true, true, Some(1))]
            && n.table.rows == map[2 := Row(0, d2, d2 + b2, 0)]
  {
    var s3 := [Enqueue(d1, b1, true), Init, Start(true)];
    var s4 := s3 + [Enqueue(d2, b2, true)];
    var s5 := s4 + [PushInHand(0, false)];
    var s6 := s5 + [Snapshot];
    RunSnoc(EMPTY, s3, Enqueue(d2, b2, true));
    RunSnoc(EMPTY, s4, PushInHand(0, false));
    RunSnoc(EMPTY, s5, Snapshot);
    RunSnoc(EMPTY, s6, RetryOne(true, true));
    assert s6 + [RetryOne(true, true)] == CollidingRun(d1, b1, d2, b2);
    CollisionStarts(d1, b1);
    CollisionGoesOn(Run(EMPTY, s3), d1, b1, d2, b2);
  }

  lemma CollisionGoesOn(n: Node, d1: Dest, b1: bytes, d2: Dest, b2: bytes)
    requires n == Node(Table(map[1 := Row(0, d1, d1 + b1, 0)], 2), [PendingSend(0, d1, d1 + b1, Some(1))], [], [], [], 0, [],
                       map[1 := (d1, d1 + b1)])
    ensures var after := Next(Next(Next(Next(n, Enqueue(d2, b2, true)), PushInHand(0, false)), Snapshot), RetryOne(true, true));
            && after.pending == [] && after.hands == [] && after.batch == []
            && after.log == [Attempt(d1, d1 + b1, true, true, Some(1))]
            && after.table.rows == map[2 := Row(0, d2, d2 + b2, 0)]
  {
    var first, second := n.pending[0], PendingSend(0, d2, d2 + b2, Some(2));
    var row1, row2 := Row(0, d1, d1 + b1, 0), Row(0, d2, d2 + b2, 0);
    var n4 := Next(n, Enqueue(d2, b2, true));
    assert n4.hands == [second] && n4.table.rows == map[1 := row1, 2 := row2];
    var n5 := Next(n4, PushInHand(0, false));
    assert n5.hands == [] && n5.pending == [first, second];
    CollisionEnds(Next(n5, Snapshot), first, second, row1, row2);
  }

  lemma CollisionStarts(d1: Dest, b1: bytes)
    ensures Run(EMPTY, [Enqueue(d1, b1, true), Init, Start(true)])
            == Node(Table(map[1 := Row(0, d1, d1 + b1, 0)], 2), [PendingSend(0, d1, d1 + b1, Some(1))], [], [], [], 0, [],
                    map[1 := (d1, d1 + b1)])
  {
    var s1 := [Enqueue(d1, b1, true)];
    var s2 := s1 + [Init];
    assert [] + s1 == s1 && s2 + [Start(true)] == [Enqueue(d1, b1, true), Init, Start(true)];
    RunSnoc(EMPTY, [], Enqueue(d1, b1, true));
    RunSnoc(EMPTY, s1, Init);
    RunSnoc(EMPTY, s2, Start(true));
    OneRowLoads(Run(EMPTY, s2), Row(0, d1, d1 + b1, 0));
  }

  lemma OneRowLoads(n: Node, row: Row)
    requires n.table == Table(map[1 := row], 2) && n.pending == [] && row.attempts == 0
    ensures Next(n, Start(true)) == n.(pending := [PendingSend(row.seqNo, row.dest, row.payload, Some(1))])
  {
    var t, rows := n.table, [(1, row)];
    assert Loadable(t, 2) == [];
    assert Loadable(t, 1) == rows + [] == rows;
    assert Loadable(t, 0) == [] + rows == rows;
    assert rows[..0] == [] && !HasSeq([], row.seqNo);
    assert Fresh(rows, []) == [PendingSend(row.seqNo, row.dest, row.payload, Some(1))];
  }

  lemma CollisionEnds(n: Node, first: PendingSend, second: PendingSend, row1: Row, row2: Row)
    requires n.snapshot == [first, second] && n.pending == [first, second] && first.seqNo == second.seqNo
    requires n.table.rows == map[1 := row1, 2 := row2] && first.storeId == Some(1) && n.log == []
    ensures var after := Next(n, RetryOne(true, true));
            && after.pending == [] && after.table.rows == map[2 := row2] && after.hands == n.hands && after.batch == n.batch
            && after.log == [Attempt(first.dest, first.payload, true, true, Some(1))]
  {
    var q := n.pending;
    WithoutAll(q, first.seqNo);
    assert n.table.rows - {1} == map[2 := row2];
  }

  lemma {:induction false} WithoutAll(q: seq<PendingSend>, seqNo: nat)
    requires forall e :: e in q ==> e.seqNo == seqNo
    ensures Without(q, seqNo) == []
    decreases |q|
  {
    if q != [] {
      assert q[|q| - 1] in q;
      WithoutAll(q[..|q| - 1], seqNo);
    }
  }

  lemma {:induction false} WithoutDrops(q: seq<PendingSend>, seqNo: nat)
    ensures forall e :: e in Without(q, seqNo) <==> e in q && e.seqNo != seqNo
    decreases |q|
  {
    if q != [] {
      WithoutDrops(q[..|q| - 1], seqNo);
      assert q == q[..|q| - 1] + [q[|q| - 1]];
    }
  }
}
