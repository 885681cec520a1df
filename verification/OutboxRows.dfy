/**
 * The table of pending redaction events: its rows, and what each SQL statement of
 * the store does to them. Rows are kept in insertion order.
 */
module OutboxRows {
  import opened CodeUnits
  import opened Prelude
  import Sorting

  type EventId = Text

  datatype Payload = Payload(redactedAt: Text, ruleId: Text, sourceFilePath: Text, byteCount: int)

  datatype Status = Pending | Sent | Archived

  /** What a row is created with and keeps for ever. */
  datatype Identity = Identity(id: EventId, workspace: Text, payload: Payload, createdAt: Text)

  datatype Row = Row(
    identity: Identity,
    attempts: nat,
    lastAttemptAt: Option<Text>,
    lastError: Option<Text>,
    status: Status)
  {
    function Id(): EventId { identity.id }
  }

  predicate UniqueIds(rows: seq<Row>) {
    forall i, j | 0 <= i < j < |rows| :: rows[i].Id() != rows[j].Id()
  }

  function Ids(rows: seq<Row>): (ids: seq<EventId>)
    ensures |ids| == |rows|
  {
    seq(|rows|, i requires 0 <= i < |rows| => rows[i].Id())
  }

  function Find(rows: seq<Row>, id: EventId): (i: Option<nat>)
    ensures i.Some? ==> i.value < |rows| && rows[i.value].Id() == id
    ensures i.None? ==> forall j | 0 <= j < |rows| :: rows[j].Id() != id
  {
    if rows == [] then None
    else if rows[|rows| - 1].Id() == id then Some(|rows| - 1)
    else Find(rows[..|rows| - 1], id)
  }

  // ---------------------------------------------------------------------------
  // SELECT ... WHERE status = 'pending' ORDER BY created_at, event_id LIMIT n
  // ---------------------------------------------------------------------------

  predicate Before(a: Row, b: Row) {
    || Less(a.identity.createdAt, b.identity.createdAt)
    || (a.identity.createdAt == b.identity.createdAt && Less(a.Id(), b.Id()))
  }

  lemma BeforeIsTotal(a: Row, b: Row)
    ensures !(Before(a, b) && Before(b, a))
    ensures a.Id() != b.Id() ==> Before(a, b) || Before(b, a)
  {
    LessTrichotomy(a.identity.createdAt, b.identity.createdAt);
    LessTrichotomy(a.Id(), b.Id());
  }

  lemma BeforeIsTransitive(a: Row, b: Row, c: Row)
    requires Before(a, b) && Before(b, c)
    ensures Before(a, c)
  {
    if Less(a.identity.createdAt, b.identity.createdAt) && Less(b.identity.createdAt, c.identity.createdAt) {
      Sorting.LessTransitive(a.identity.createdAt, b.identity.createdAt, c.identity.createdAt);
    } else if a.identity.createdAt == b.identity.createdAt == c.identity.createdAt {
      Sorting.LessTransitive(a.Id(), b.Id(), c.Id());
    }
  }

  predicate IsPending(r: Row) {
    r.status.Pending?
  }

  function PendingRows(rows: seq<Row>): seq<Row> {
    if rows == [] then []
    else PendingRows(rows[..|rows| - 1]) + if IsPending(rows[|rows| - 1]) then [rows[|rows| - 1]] else []
  }

  function InsertByAge(r: Row, rows: seq<Row>): seq<Row> {
    if rows == [] || Before(r, rows[0]) then [r] + rows else [rows[0]] + InsertByAge(r, rows[1..])
  }

  function OldestFirst(rows: seq<Row>): seq<Row> {
    if rows == [] then [] else InsertByAge(rows[0], OldestFirst(rows[1..]))
  }

  /** A negative LIMIT is no limit. */
  function Limited(rows: seq<Row>, limit: int): seq<Row> {
    if 0 <= limit < |rows| then rows[..limit] else rows
  }

  function ListPending(rows: seq<Row>, limit: int): seq<Row> {
    Limited(OldestFirst(PendingRows(rows)), limit)
  }

  predicate Ordered(rows: seq<Row>) {
    forall i, j | 0 <= i < j < |rows| :: Before(rows[i], rows[j])
  }

  lemma {:induction false} PendingMembers(rows: seq<Row>)
    requires UniqueIds(rows)
    ensures UniqueIds(PendingRows(rows))
    ensures forall r :: r in PendingRows(rows) <==> r in rows && IsPending(r)
  {
    hide Row.Id, IsPending;
    if rows != [] {
      var front, last := rows[..|rows| - 1], rows[|rows| - 1];
      PendingMembers(front);
      assert rows == front + [last];
      forall i | 0 <= i < |PendingRows(front)| ensures PendingRows(front)[i].Id() != last.Id() {
        assert PendingRows(front)[i] in PendingRows(front);
        assert PendingRows(front)[i] in front;
      }
    }
  }

  lemma {:induction false} InsertKeepsOrder(r: Row, rows: seq<Row>)
    requires Ordered(rows) && forall x | x in rows :: x.Id() != r.Id()
    ensures Ordered(InsertByAge(r, rows))
    ensures multiset(InsertByAge(r, rows)) == multiset(rows) + multiset{r}
  {
    hide Before, Row.Id;
    if rows == [] {
    } else if Before(r, rows[0]) {
      forall j | 0 <= j < |rows| ensures Before(r, rows[j]) {
        if j > 0 {
          BeforeIsTransitive(r, rows[0], rows[j]);
        }
      }
    } else {
      BeforeIsTotal(r, rows[0]);
      InsertKeepsOrder(r, rows[1..]);
      var rest := InsertByAge(r, rows[1..]);
      assert rows == [rows[0]] + rows[1..];
      forall j | 0 <= j < |rest| ensures Before(rows[0], rest[j]) {
        assert rest[j] in multiset(rest);
        assert rest[j] == r || rest[j] in rows[1..];
      }
    }
  }

  lemma {:induction false} InsertKeepsUnique(r: Row, rows: seq<Row>)
    requires UniqueIds(rows) && forall x | x in rows :: x.Id() != r.Id()
    ensures UniqueIds(InsertByAge(r, rows))
    ensures forall x | x in InsertByAge(r, rows) :: x == r || x in rows
  {
    hide Before, Row.Id;
    if rows != [] && !Before(r, rows[0]) {
      InsertKeepsUnique(r, rows[1..]);
      var rest := InsertByAge(r, rows[1..]);
      forall j | 0 <= j < |rest| ensures rows[0].Id() != rest[j].Id() {
        assert rest[j] in rest;
      }
    }
  }

  lemma {:induction false} OldestFirstFacts(rows: seq<Row>)
    requires UniqueIds(rows)
    ensures Ordered(OldestFirst(rows)) && UniqueIds(OldestFirst(rows))
    ensures multiset(OldestFirst(rows)) == multiset(rows)
  {
    hide Before, Row.Id;
    if rows != [] {
      OldestFirstFacts(rows[1..]);
      assert rows == [rows[0]] + rows[1..];
      forall x | x in OldestFirst(rows[1..]) ensures x.Id() != rows[0].Id() {
        assert x in multiset(rows[1..]);
      }
      InsertKeepsOrder(rows[0], OldestFirst(rows[1..]));
      InsertKeepsUnique(rows[0], OldestFirst(rows[1..]));
    }
  }

  /**
   * A drain reads pending rows only, each once, oldest first; it leaves a pending row
   * out only when the limit is reached, and then only one younger than all it took.
   */
  lemma {:induction false} ListPendingExact(rows: seq<Row>, limit: int)
    requires UniqueIds(rows)
    ensures var batch := ListPending(rows, limit);
            && Ordered(batch) && UniqueIds(batch)
            && (forall r | r in batch :: r in rows && IsPending(r))
            && (forall r | r in rows && IsPending(r) && r !in batch ::
                  |batch| == limit && forall b | b in batch :: Before(b, r))
            && (limit >= 0 ==> |batch| <= limit)
            && (batch == [] <==> limit == 0 || forall r | r in rows :: !IsPending(r))
  {
    hide Before, IsPending, PendingRows, OldestFirst;
    PendingMembers(rows);
    var pending := PendingRows(rows);
    OldestFirstFacts(pending);
    var all := OldestFirst(pending);
    var batch := ListPending(rows, limit);
    forall r ensures r in all <==> r in pending {
      assert r in multiset(all) <==> r in multiset(pending);
    }
    assert forall k | 0 <= k < |batch| :: batch[k] == all[k] && all[k] in batch;
    forall r | r in all && r !in batch ensures |batch| == limit && forall b | b in batch :: Before(b, r) {
      var k :| 0 <= k < |all| && all[k] == r;
      assert batch == all[..limit] && k >= limit;
    }
    if batch == [] && limit != 0 {
      assert all == [];
      assert forall r | r in rows && IsPending(r) :: r in all;
    } else if batch != [] {
      assert batch[0] in batch;
    }
  }

  /** Oldest first means by creation time, and by id where the times are the same. */
  lemma {:induction false} ListedOldestFirst(rows: seq<Row>, limit: int, i: nat, j: nat)
    requires UniqueIds(rows) && i < j < |ListPending(rows, limit)|
    ensures var a, b := ListPending(rows, limit)[i].identity, ListPending(rows, limit)[j].identity;
            Less(a.createdAt, b.createdAt) || (a.createdAt == b.createdAt && Less(a.id, b.id))
  {
    hide ListPending, UniqueIds;
    ListPendingExact(rows, limit);
  }

  // ---------------------------------------------------------------------------
  // UPDATE statements, row by row
  // ---------------------------------------------------------------------------

  function SentRow(r: Row, ids: seq<EventId>, now: Text): Row {
    if IsPending(r) && r.Id() in ids then r.(status := Sent, lastAttemptAt := Some(now)) else r
  }

  /** One attempt more for every time the id is listed. */
  function FailedRow(r: Row, ids: seq<EventId>, error: Text, now: Text): Row {
    var n := multiset(ids)[r.Id()];
    if IsPending(r) && n > 0
    then r.(attempts := r.attempts + n, lastAttemptAt := Some(now), lastError := Some(Clipped(error)))
    else r
  }

  /** Error texts are stored up to 500 code units. */
  function Clipped(error: Text): Text {
    if |error| <= 500 then error else error[..500]
  }

  predicate Exhausted(r: Row, maxAttempts: int) {
    IsPending(r) && r.attempts >= maxAttempts
  }

  function ArchivedRow(r: Row, maxAttempts: int): Row {
    if Exhausted(r, maxAttempts) then r.(status := Archived) else r
  }

  function MarkSent(rows: seq<Row>, ids: seq<EventId>, now: Text): (rows': seq<Row>)
    ensures |rows'| == |rows|
  {
    seq(|rows|, i requires 0 <= i < |rows| => SentRow(rows[i], ids, now))
  }

  function MarkFailed(rows: seq<Row>, ids: seq<EventId>, error: Text, now: Text): (rows': seq<Row>)
    ensures |rows'| == |rows|
  {
    seq(|rows|, i requires 0 <= i < |rows| => FailedRow(rows[i], ids, error, now))
  }

  function ArchiveExhausted(rows: seq<Row>, maxAttempts: int): (rows': seq<Row>)
    ensures |rows'| == |rows|
  {
    seq(|rows|, i requires 0 <= i < |rows| => ArchivedRow(rows[i], maxAttempts))
  }

  function NewRow(identity: Identity): Row {
    Row(identity, 0, None, None, Pending)
  }

  /** The primary key refuses an id that is already in the table. */
  function Enqueue(rows: seq<Row>, identity: Identity): seq<Row> {
    if Find(rows, identity.id).None? then rows + [NewRow(identity)] else rows
  }

  // ---------------------------------------------------------------------------
  // What no statement undoes
  // ---------------------------------------------------------------------------

  /** A row keeps its identity; it never loses attempts; and sent and archived rows are final. */
  predicate RowKept(r: Row, r': Row) {
    && r'.identity == r.identity
    && r'.attempts >= r.attempts
    && (!IsPending(r) ==> r' == r)
  }

  predicate RowsKept(rows: seq<Row>, rows': seq<Row>) {
    |rows| <= |rows'| && forall i | 0 <= i < |rows| :: RowKept(rows[i], rows'[i])
  }

  lemma RowsKeptTransitive(a: seq<Row>, b: seq<Row>, c: seq<Row>)
    requires RowsKept(a, b) && RowsKept(b, c)
    ensures RowsKept(a, c)
  {
    forall i | 0 <= i < |a| ensures RowKept(a[i], c[i]) {
      assert RowKept(a[i], b[i]) && RowKept(b[i], c[i]);
    }
  }

  lemma StatementsKeepRows(rows: seq<Row>, ids: seq<EventId>, error: Text, now: Text, maxAttempts: int)
    ensures RowsKept(rows, MarkSent(rows, ids, now))
    ensures RowsKept(rows, MarkFailed(rows, ids, error, now))
    ensures RowsKept(rows, ArchiveExhausted(rows, maxAttempts))
  {
    hide IsPending, Clipped;
  }

  lemma KeptStaysUnique(rows: seq<Row>, rows': seq<Row>)
    requires UniqueIds(rows) && RowsKept(rows, rows') && |rows'| == |rows|
    ensures UniqueIds(rows')
  {
    forall i, j | 0 <= i < j < |rows'| ensures rows'[i].Id() != rows'[j].Id() {
      assert RowKept(rows[i], rows'[i]) && RowKept(rows[j], rows'[j]);
    }
  }

  lemma EnqueueKeepsRows(rows: seq<Row>, identity: Identity)
    requires UniqueIds(rows)
    ensures UniqueIds(Enqueue(rows, identity)) && RowsKept(rows, Enqueue(rows, identity))
  {
  }
}
