/** The offline queue of go/internal/client/queue.go and the retry loop processQueue of
    go/internal/client/daemon.go. The SQLite table is a map; a send's result and the messages
    that arrive while a pass runs are parameters. */
module Queue {
  import opened Bytes

  const MAX_QUEUE_RETRIES: nat := 20

  datatype Row = Row(peerKey: string, ciphertext: seq<byte>, createdAt: int, retries: nat, lastError: Option<string>)

  /** `nextID` is AUTOINCREMENT: IDs are never reused. */
  datatype Table = Table(rows: map<nat, Row>, nextID: nat)

  predicate Fresh(q: Table) { forall id | id in q.rows :: id < q.nextID }

  function Insert(q: Table, peerKey: string, ciphertext: seq<byte>, now: int): Table {
    Table(q.rows[q.nextID := Row(peerKey, ciphertext, now, 0, None)], q.nextID + 1)
  }

  function Delete(q: Table, id: nat): Table { q.(rows := q.rows - {id}) }

  function Failed(q: Table, id: nat, error: string): Table {
    if id in q.rows then q.(rows := q.rows[id := Retried(q.rows[id], error)]) else q
  }

  function Retried(row: Row, error: string): Row { row.(retries := row.retries + 1, lastError := Some(error)) }

  function Get(q: Table, id: nat): Option<Row> { if id in q.rows then Some(q.rows[id]) else None }

  datatype Queued = Queued(id: nat, row: Row)

  predicate DistinctIDs(ms: seq<Queued>) { forall i, j | 0 <= i < j < |ms| :: ms[i].id != ms[j].id }

  predicate Chronological(ms: seq<Queued>) {
    forall i, j | 0 <= i < j < |ms| :: ms[i].row.createdAt <= ms[j].row.createdAt
  }

  /** All rows, once each, in the order of creation. */
  ghost predicate IsPending(q: Table, ms: seq<Queued>) {
    && (forall m <- ms :: m.id in q.rows && q.rows[m.id] == m.row)
    && (forall id | id in q.rows :: Queued(id, q.rows[id]) in ms)
    && DistinctIDs(ms)
    && Chronological(ms)
  }

  class OfflineQueue {
    var table: Table

    constructor ()
      ensures table == Table(map[], 1)
    {
      table := Table(map[], 1);
    }

    method Enqueue(peerKey: string, ciphertext: seq<byte>, now: int) returns (id: nat)
      modifies this
      ensures table == Insert(old(table), peerKey, ciphertext, now) && id == old(table).nextID
    {
      id := table.nextID;
      table := Table(table.rows[id := Row(peerKey, ciphertext, now, 0, None)], id + 1);
    }

    method Pending() returns (ms: seq<Queued>)
      ensures IsPending(table, ms)
    {
      ms := [];
      var todo := table.rows.Keys;
      while todo != {}
        invariant todo <= table.rows.Keys
        invariant forall m <- ms :: m.id in table.rows && m.id !in todo && table.rows[m.id] == m.row
        invariant forall id | id in table.rows && id !in todo :: Queued(id, table.rows[id]) in ms
        invariant DistinctIDs(ms)
        invariant Chronological(ms)
        invariant forall i, id | 0 <= i < |ms| && id in todo :: ms[i].row.createdAt <= table.rows[id].createdAt
        decreases todo
      {
        var id := Oldest(table.rows, todo);
        todo := todo - {id};
        assert forall i | 0 <= i < |ms| :: ms[i] in ms;
        ms := ms + [Queued(id, table.rows[id])];
      }
    }

    method MarkFailed(id: nat, error: string)
      modifies this
      ensures table == Failed(old(table), id, error)
    {
      if id in table.rows {
        var row := table.rows[id];
        table := table.(rows := table.rows[id := row.(retries := row.retries + 1, lastError := Some(error))]);
      }
    }

    method Remove(id: nat)
      modifies this
      ensures table == Delete(old(table), id)
    {
      table := table.(rows := table.rows - {id});
    }
  }

  method Oldest(rows: map<nat, Row>, ids: set<nat>) returns (id: nat)
    requires ids != {} && ids <= rows.Keys
    ensures id in ids && forall x | x in ids :: rows[id].createdAt <= rows[x].createdAt
  {
    OldestExists(rows, ids);
    id :| id in ids && forall x | x in ids :: rows[id].createdAt <= rows[x].createdAt;
  }

  lemma {:induction false} OldestExists(rows: map<nat, Row>, ids: set<nat>)
    requires ids != {} && ids <= rows.Keys
    ensures exists id :: id in ids && forall x | x in ids :: rows[id].createdAt <= rows[x].createdAt
    decreases ids
  {
    var a :| a in ids;
    if ids == {a} {
      assert forall x | x in ids :: x == a;
    } else {
      var rest := ids - {a};
      assert ids == rest + {a};
      OldestExists(rows, rest);
      var b :| b in rest && forall x | x in rest :: rows[b].createdAt <= rows[x].createdAt;
      var c := if rows[a].createdAt <= rows[b].createdAt then a else b;
      assert c in ids && forall x | x in ids :: rows[c].createdAt <= rows[x].createdAt;
    }
  }

  // ----- one pass -----

  /** A message that another goroutine enqueues. */
  datatype Arrival = Arrival(peerKey: string, ciphertext: seq<byte>, now: int)

  function NewRow(a: Arrival): Row { Row(a.peerKey, a.ciphertext, a.now, 0, None) }

  function InsertAll(q: Table, arrivals: seq<Arrival>): Table {
    if arrivals == [] then q
    else
      var a := arrivals[|arrivals| - 1];
      Insert(InsertAll(q, arrivals[..|arrivals| - 1]), a.peerKey, a.ciphertext, a.now)
  }

  /** Whether the pass hands the message to SendMessage at all. */
  predicate Tried(row: Row) { row.retries < MAX_QUEUE_RETRIES }

  /** The loop body: give up, or send and then remove the row or count the failure. `result` is the
      error of the send, None for success. */
  function Process(q: Table, m: Queued, result: Option<string>): Table {
    if Tried(m.row) && result.Some? then Failed(q, m.id, result.value) else Delete(q, m.id)
  }

  /** One iteration: what arrives meanwhile, and then the message's turn. */
  function Turn(q: Table, arrivals: seq<Arrival>, m: Queued, result: Option<string>): Table {
    Process(InsertAll(q, arrivals), m, result)
  }

  /** The table after the first `k` pending messages; `arrivals(i)` come in before the i-th. */
  function AfterPass(q: Table, ms: seq<Queued>, sends: nat -> Option<string>, arrivals: nat -> seq<Arrival>, k: nat): Table
    requires k <= |ms|
  {
    if k == 0 then q
    else Turn(AfterPass(q, ms, sends, arrivals, k - 1), arrivals(k - 1), ms[k - 1], sends(ms[k - 1].id))
  }

  /** The IDs handed to SendMessage for the first `k` pending messages, in order. */
  function Attempts(ms: seq<Queued>, k: nat): seq<nat>
    requires k <= |ms|
  {
    if k == 0 then []
    else if Tried(ms[k - 1].row) then Attempts(ms, k - 1) + [ms[k - 1].id]
    else Attempts(ms, k - 1)
  }

  /** One turn of processQueue, with the results of the sends and the concurrent arrivals given. */
  method ProcessQueue(queue: OfflineQueue, sends: nat -> Option<string>, arrivals: nat -> seq<Arrival>)
    returns (ms: seq<Queued>, sent: seq<nat>)
    modifies queue
    ensures IsPending(old(queue.table), ms)
    ensures queue.table == AfterPass(old(queue.table), ms, sends, arrivals, |ms|)
    ensures sent == Attempts(ms, |ms|)
  {
    ms := queue.Pending();
    sent := ProcessAll(queue, ms, sends, arrivals);
  }

  method ProcessAll(queue: OfflineQueue, ms: seq<Queued>, sends: nat -> Option<string>, arrivals: nat -> seq<Arrival>)
    returns (sent: seq<nat>)
    modifies queue
    ensures queue.table == AfterPass(old(queue.table), ms, sends, arrivals, |ms|)
    ensures sent == Attempts(ms, |ms|)
  {
    sent := [];
    for k := 0 to |ms|
      invariant queue.table == AfterPass(old(queue.table), ms, sends, arrivals, k)
      invariant sent == Attempts(ms, k)
    {
      EnqueueAll(queue, arrivals(k));
      var tried := ProcessMessage(queue, ms[k], sends(ms[k].id));
      if tried { sent := sent + [ms[k].id]; }
    }
  }

  method ProcessMessage(queue: OfflineQueue, m: Queued, result: Option<string>) returns (tried: bool)
    modifies queue
    ensures queue.table == Process(old(queue.table), m, result)
    ensures tried == Tried(m.row)
  {
    if m.row.retries >= MAX_QUEUE_RETRIES {
      queue.Remove(m.id);
      return false;
    }
    tried := true;
    if result.Some? {
      queue.MarkFailed(m.id, result.value);
      return;
    }
    queue.Remove(m.id);
  }

  method EnqueueAll(queue: OfflineQueue, arrivals: seq<Arrival>)
    modifies queue
    ensures queue.table == InsertAll(old(queue.table), arrivals)
  {
    for i := 0 to |arrivals|
      invariant queue.table == InsertAll(old(queue.table), arrivals[..i])
    {
      assert arrivals[..i + 1][..i] == arrivals[..i];
      var _ := queue.Enqueue(arrivals[i].peerKey, arrivals[i].ciphertext, arrivals[i].now);
    }
    assert arrivals[..|arrivals|] == arrivals;
  }

  // ----- what one pass does to each message -----

  /** What a pass does to a row: gone after a success or when its retries are used up, otherwise one
      failure more. */
  function Outcome(row: Row, result: Option<string>): Option<Row> {
    if Tried(row) && result.Some? then Some(Retried(row, result.value)) else None
  }

  lemma {:induction false} InsertAllKeeps(q: Table, arrivals: seq<Arrival>)
    requires Fresh(q)
    ensures var t := InsertAll(q, arrivals);
      && Fresh(t) && t.nextID == q.nextID + |arrivals|
      && (forall id: nat | id < q.nextID :: Get(t, id) == Get(q, id))
      && (forall i: nat | i < |arrivals| :: Get(t, q.nextID + i) == Some(NewRow(arrivals[i])))
  {
    if arrivals != [] {
      InsertAllKeeps(q, arrivals[..|arrivals| - 1]);
    }
  }

  lemma ProcessOnMessage(q: Table, m: Queued, result: Option<string>, id: nat)
    requires Fresh(q)
    ensures var t := Process(q, m, result);
      && Fresh(t) && t.nextID == q.nextID
      && (id != m.id || id !in q.rows ==> Get(t, id) == Get(q, id))
      && (Get(q, m.id) == Some(m.row) ==> Get(t, m.id) == Outcome(m.row, result))
  {
  }

  lemma TurnOnMessage(q: Table, arrivals: seq<Arrival>, m: Queued, result: Option<string>, id: nat)
    requires Fresh(q)
    ensures var t := Turn(q, arrivals, m, result);
      && Fresh(t) && t.nextID == q.nextID + |arrivals|
      && (id < q.nextID && (id != m.id || id !in q.rows) ==> Get(t, id) == Get(q, id))
      && (m.id < q.nextID && Get(q, m.id) == Some(m.row) ==> Get(t, m.id) == Outcome(m.row, result))
  {
    InsertAllKeeps(q, arrivals);
    ProcessOnMessage(InsertAll(q, arrivals), m, result, id);
  }

  lemma TurnOnOther(q: Table, arrivals: seq<Arrival>, m: Queued, result: Option<string>, id: nat, row: Row)
    requires Fresh(q) && Get(q, id) == Some(row) && id != m.id
    ensures Get(Turn(q, arrivals, m, result), id) == Some(row)
  {
    TurnOnMessage(q, arrivals, m, result, id);
  }

  lemma TurnOnArrival(q: Table, arrivals: seq<Arrival>, m: Queued, result: Option<string>, i: nat)
    requires Fresh(q) && i < |arrivals| && m.id < q.nextID
    ensures Get(Turn(q, arrivals, m, result), q.nextID + i) == Some(NewRow(arrivals[i]))
  {
    InsertAllKeeps(q, arrivals);
    ProcessOnMessage(InsertAll(q, arrivals), m, result, q.nextID + i);
  }

  lemma {:induction false} PassKeepsFresh(q: Table, ms: seq<Queued>, sends: nat -> Option<string>,
                                          arrivals: nat -> seq<Arrival>, k: nat)
    requires Fresh(q) && k <= |ms|
    ensures var t := AfterPass(q, ms, sends, arrivals, k); Fresh(t) && q.nextID <= t.nextID
  {
    if k > 0 {
      PassKeepsFresh(q, ms, sends, arrivals, k - 1);
      TurnOnMessage(AfterPass(q, ms, sends, arrivals, k - 1), arrivals(k - 1), ms[k - 1], sends(ms[k - 1].id), 0);
    }
  }

  predicate AllBelow(ms: seq<Queued>, bound: nat) { forall m <- ms :: m.id < bound }

  lemma {:induction false} ArrivalsUntouched(q: Table, ms: seq<Queued>, sends: nat -> Option<string>,
                                             arrivals: nat -> seq<Arrival>, id: nat, row: Row, j: nat, k: nat)
    requires Fresh(q) && AllBelow(ms, q.nextID) && j <= k <= |ms|
    requires q.nextID <= id && Get(AfterPass(q, ms, sends, arrivals, j), id) == Some(row)
    ensures Get(AfterPass(q, ms, sends, arrivals, k), id) == Some(row)
    decreases k
  {
    if j < k {
      ArrivalsUntouched(q, ms, sends, arrivals, id, row, j, k - 1);
      PassKeepsFresh(q, ms, sends, arrivals, k - 1);
      assert ms[k - 1] in ms;
      TurnOnOther(AfterPass(q, ms, sends, arrivals, k - 1), arrivals(k - 1), ms[k - 1], sends(ms[k - 1].id), id, row);
    }
  }

  lemma ArrivalStored(q: Table, ms: seq<Queued>, sends: nat -> Option<string>, arrivals: nat -> seq<Arrival>,
                      j: nat, i: nat, id: nat)
    requires Fresh(q) && AllBelow(ms, q.nextID) && j < |ms| && i < |arrivals(j)|
    requires id == AfterPass(q, ms, sends, arrivals, j).nextID + i
    ensures q.nextID <= id && Get(AfterPass(q, ms, sends, arrivals, j + 1), id) == Some(NewRow(arrivals(j)[i]))
  {
    assert ms[j] in ms;
    PassKeepsFresh(q, ms, sends, arrivals, j);
    TurnOnArrival(AfterPass(q, ms, sends, arrivals, j), arrivals(j), ms[j], sends(ms[j].id), i);
  }

  lemma PendingBelow(q: Table, ms: seq<Queued>)
    requires Fresh(q) && IsPending(q, ms)
    ensures AllBelow(ms, q.nextID)
  {
  }

  /** A message enqueued while the pass runs gets a new ID, starts with no retries, and is still
      there, untouched, when the pass is over. */
  lemma LateArrivalKept(q: Table, ms: seq<Queued>, sends: nat -> Option<string>, arrivals: nat -> seq<Arrival>,
                        j: nat, i: nat, id: nat)
    requires Fresh(q) && IsPending(q, ms) && j < |ms| && i < |arrivals(j)|
    requires id == AfterPass(q, ms, sends, arrivals, j).nextID + i
    ensures id !in q.rows && Get(AfterPass(q, ms, sends, arrivals, |ms|), id) == Some(NewRow(arrivals(j)[i]))
  {
    PendingBelow(q, ms);
    LateArrivalStays(q, ms, sends, arrivals, j, i, id);
  }

  lemma LateArrivalStays(q: Table, ms: seq<Queued>, sends: nat -> Option<string>, arrivals: nat -> seq<Arrival>,
                         j: nat, i: nat, id: nat)
    requires Fresh(q) && AllBelow(ms, q.nextID) && j < |ms| && i < |arrivals(j)|
    requires id == AfterPass(q, ms, sends, arrivals, j).nextID + i
    ensures q.nextID <= id && Get(AfterPass(q, ms, sends, arrivals, |ms|), id) == Some(NewRow(arrivals(j)[i]))
  {
    ArrivalStored(q, ms, sends, arrivals, j, i, id);
    ArrivalsUntouched(q, ms, sends, arrivals, id, NewRow(arrivals(j)[i]), j + 1, |ms|);
  }

  /** The j-th pending message is untouched until its turn, and then meets its own outcome. */
  lemma {:induction false} PassOnMessage(q: Table, ms: seq<Queued>, sends: nat -> Option<string>,
                                         arrivals: nat -> seq<Arrival>, j: nat, k: nat)
    requires Fresh(q) && DistinctIDs(ms) && j < |ms| && k <= |ms| && Get(q, ms[j].id) == Some(ms[j].row)
    ensures Get(AfterPass(q, ms, sends, arrivals, k), ms[j].id)
         == if j < k then Outcome(ms[j].row, sends(ms[j].id)) else Some(ms[j].row)
  {
    if k > 0 {
      PassOnMessage(q, ms, sends, arrivals, j, k - 1);
      PassKeepsFresh(q, ms, sends, arrivals, k - 1);
      TurnOnMessage(AfterPass(q, ms, sends, arrivals, k - 1), arrivals(k - 1), ms[k - 1], sends(ms[k - 1].id), ms[j].id);
    }
  }

  /** One whole pass, message by message: every message that was in the queue when the pass began
      meets its own outcome, whatever the others and the arrivals do; no deleted message returns. */
  lemma PassEffect(q: Table, ms: seq<Queued>, sends: nat -> Option<string>, arrivals: nat -> seq<Arrival>, id: nat)
    requires Fresh(q) && IsPending(q, ms) && id < q.nextID
    ensures Get(AfterPass(q, ms, sends, arrivals, |ms|), id)
         == if id in q.rows then Outcome(q.rows[id], sends(id)) else None
  {
    if id in q.rows {
      assert Queued(id, q.rows[id]) in ms;
      var j :| 0 <= j < |ms| && ms[j] == Queued(id, q.rows[id]);
      PassOnMessage(q, ms, sends, arrivals, j, |ms|);
    } else {
      DeletedStaysAway(q, ms, sends, arrivals, id, |ms|);
    }
  }

  lemma {:induction false} DeletedStaysAway(q: Table, ms: seq<Queued>, sends: nat -> Option<string>,
                                            arrivals: nat -> seq<Arrival>, id: nat, k: nat)
    requires Fresh(q) && id < q.nextID && id !in q.rows && k <= |ms|
    ensures id !in AfterPass(q, ms, sends, arrivals, k).rows
  {
    if k > 0 {
      DeletedStaysAway(q, ms, sends, arrivals, id, k - 1);
      PassKeepsFresh(q, ms, sends, arrivals, k - 1);
      TurnOnMessage(AfterPass(q, ms, sends, arrivals, k - 1), arrivals(k - 1), ms[k - 1], sends(ms[k - 1].id), id);
    }
  }

  // ----- any number of passes -----

  /** A pass with the snapshot it worked on, and the messages that arrive before the next one. */
  datatype Pass = Pass(ms: seq<Queued>, sends: nat -> Option<string>, arrivals: nat -> seq<Arrival>, between: seq<Arrival>)

  function AfterOne(q: Table, p: Pass): Table {
    InsertAll(AfterPass(q, p.ms, p.sends, p.arrivals, |p.ms|), p.between)
  }

  function TableAfter(q: Table, passes: seq<Pass>, k: nat): Table
    requires k <= |passes|
  {
    if k == 0 then q else AfterOne(TableAfter(q, passes, k - 1), passes[k - 1])
  }

  /** Each of the first `k` passes works on the queue as it finds it. */
  ghost predicate IsRun(q: Table, passes: seq<Pass>, k: nat)
    requires k <= |passes|
  {
    if k == 0 then Fresh(q)
    else IsRun(q, passes, k - 1) && IsPending(TableAfter(q, passes, k - 1), passes[k - 1].ms)
  }

  /** How often the first `k` passes send the message. */
  function TimesSent(passes: seq<Pass>, k: nat, id: nat): nat
    requires k <= |passes|
  {
    if k == 0 then 0
    else TimesSent(passes, k - 1, id) + Times(Attempts(passes[k - 1].ms, |passes[k - 1].ms|), id)
  }

  /** What becomes of one message by its own send results alone. */
  function Fate(row: Row, id: nat, passes: seq<Pass>, k: nat): Option<Row>
    requires k <= |passes|
  {
    if k == 0 then Some(row)
    else match Fate(row, id, passes, k - 1)
      case None => None
      case Some(r) => Outcome(r, passes[k - 1].sends(id))
  }

  predicate AllFail(id: nat, passes: seq<Pass>, k: nat)
    requires k <= |passes|
  {
    forall i | 0 <= i < k :: passes[i].sends(id).Some?
  }

  /** Every message follows its own fate through any run. */
  lemma {:induction false} RunOnMessage(q: Table, passes: seq<Pass>, id: nat, k: nat)
    requires k <= |passes| && IsRun(q, passes, k) && id in q.rows
    ensures Get(TableAfter(q, passes, k), id) == Fate(q.rows[id], id, passes, k)
    ensures Fresh(TableAfter(q, passes, k)) && id < TableAfter(q, passes, k).nextID
  {
    if k > 0 {
      RunOnMessage(q, passes, id, k - 1);
      OneOnMessage(TableAfter(q, passes, k - 1), passes[k - 1], id);
    }
  }

  lemma OneOnMessage(q: Table, p: Pass, id: nat)
    requires Fresh(q) && IsPending(q, p.ms) && id < q.nextID
    ensures var t := AfterOne(q, p);
      && Get(t, id) == (if id in q.rows then Outcome(q.rows[id], p.sends(id)) else None)
      && Fresh(t) && q.nextID <= t.nextID
  {
    PassEffect(q, p.ms, p.sends, p.arrivals, id);
    PassKeepsFresh(q, p.ms, p.sends, p.arrivals, |p.ms|);
    InsertAllKeeps(AfterPass(q, p.ms, p.sends, p.arrivals, |p.ms|), p.between);
  }

  /** The error of the last pass, if there was one. */
  function ErrorAfter(row: Row, id: nat, passes: seq<Pass>, k: nat): Option<string>
    requires k <= |passes|
  {
    if k == 0 then row.lastError else passes[k - 1].sends(id)
  }

  lemma {:induction false} FateInFull(row: Row, id: nat, passes: seq<Pass>, k: nat)
    requires k <= |passes|
    ensures Fate(row, id, passes, k).Some?
       <==> k == 0 || (row.retries + k <= 20 && AllFail(id, passes, k))
    ensures Fate(row, id, passes, k).Some?
        ==> Fate(row, id, passes, k).value == row.(retries := row.retries + k, lastError := ErrorAfter(row, id, passes, k))
  {
    if k > 0 {
      FateInFull(row, id, passes, k - 1);
    }
  }

  /** A message is still queued after `k` passes exactly when every one of them failed to send it and
      it has no more than 20 failures; it then has `k` failures more, records the last of them, and is otherwise unchanged. */
  lemma StaysExactlyWhileFailing(q: Table, passes: seq<Pass>, id: nat, k: nat)
    requires k <= |passes| && IsRun(q, passes, k) && id in q.rows
    ensures var t := TableAfter(q, passes, k); var row := q.rows[id];
      && (id in t.rows <==> k == 0 || (row.retries + k <= 20 && AllFail(id, passes, k)))
      && (id in t.rows ==> t.rows[id] == row.(retries := row.retries + k, lastError := ErrorAfter(row, id, passes, k)))
  {
    RunOnMessage(q, passes, id, k);
    FateInFull(q.rows[id], id, passes, k);
  }

  /** 21 passes drain every message that was in the queue, whatever the sends did and whatever arrived. */
  lemma Drained(q: Table, passes: seq<Pass>, id: nat)
    requires IsRun(q, passes, |passes|) && id in q.rows && |passes| == 21
    ensures id !in TableAfter(q, passes, |passes|).rows
  {
    StaysExactlyWhileFailing(q, passes, id, |passes|);
  }

  lemma {:induction false} NotAttempted(ms: seq<Queued>, k: nat, id: nat)
    requires k <= |ms| && forall j | 0 <= j < k :: ms[j].id != id
    ensures Times(Attempts(ms, k), id) == 0
  {
    if k > 0 {
      NotAttempted(ms, k - 1, id);
      TimesSnoc(Attempts(ms, k - 1), ms[k - 1].id, id);
    }
  }

  /** How often `id` occurs. */
  function Times(ids: seq<nat>, id: nat): nat { multiset(ids)[id] }

  lemma TimesSnoc(ids: seq<nat>, last: nat, id: nat)
    ensures Times(ids + [last], id) == Times(ids, id) + if last == id then 1 else 0
  {}

  lemma {:induction false} AttemptedOnce(ms: seq<Queued>, j: nat, k: nat)
    requires DistinctIDs(ms) && j < k <= |ms|
    ensures Times(Attempts(ms, k), ms[j].id) == if Tried(ms[j].row) then 1 else 0
    decreases k
  {
    TimesSnoc(Attempts(ms, k - 1), ms[k - 1].id, ms[j].id);
    if j == k - 1 {
      NotAttempted(ms, j, ms[j].id);
    } else {
      AttemptedOnce(ms, j, k - 1);
    }
  }

  /** A pass sends a message once if it is queued with retries left, and otherwise not at all. */
  lemma PendingSent(q: Table, ms: seq<Queued>, id: nat)
    requires IsPending(q, ms)
    ensures Times(Attempts(ms, |ms|), id) == if id in q.rows && Tried(q.rows[id]) then 1 else 0
  {
    if id in q.rows {
      assert Queued(id, q.rows[id]) in ms;
      var j :| 0 <= j < |ms| && ms[j] == Queued(id, q.rows[id]);
      AttemptedOnce(ms, j, |ms|);
    } else {
      assert forall j | 0 <= j < |ms| :: ms[j] in ms;
      NotAttempted(ms, |ms|, id);
    }
  }

  lemma StillThere(q: Table, passes: seq<Pass>, id: nat, k: nat)
    requires 0 < k <= |passes| && IsRun(q, passes, k) && id in q.rows
    ensures id in TableAfter(q, passes, k).rows
        ==> id in TableAfter(q, passes, k - 1).rows && q.rows[id].retries + k <= 20
    ensures id in TableAfter(q, passes, k - 1).rows
        ==> TableAfter(q, passes, k - 1).rows[id].retries == q.rows[id].retries + k - 1
  {
    StaysExactlyWhileFailing(q, passes, id, k - 1);
    StaysExactlyWhileFailing(q, passes, id, k);
  }

  /** The sends of one message: one per pass for as long as it stays, and never more than 20. */
  lemma {:induction false} SentAtMostTwentyTimes(q: Table, passes: seq<Pass>, id: nat, k: nat)
    requires k <= |passes| && IsRun(q, passes, k) && id in q.rows
    ensures TimesSent(passes, k, id) <= k
    ensures q.rows[id].retries + TimesSent(passes, k, id) <= 20 || TimesSent(passes, k, id) == 0
    ensures id in TableAfter(q, passes, k).rows ==> TimesSent(passes, k, id) == k
  {
    if k > 0 {
      SentAtMostTwentyTimes(q, passes, id, k - 1);
      StillThere(q, passes, id, k);
      PendingSent(TableAfter(q, passes, k - 1), passes[k - 1].ms, id);
    }
  }
}
