/** The store of pending redaction events and the worker that drains it, updated in place. */
module RedactionOutbox {
  import opened CodeUnits
  import opened Prelude
  import Rows = OutboxRows
  import opened OutboxRuns
  import opened OutboxDrain

  type EventId = Rows.EventId
  type Row = Rows.Row

  datatype StoreError = DuplicateKey

  function PendingCount(rows: seq<Row>): nat {
    if rows == [] then 0
    else PendingCount(rows[..|rows| - 1]) + if Rows.IsPending(rows[|rows| - 1]) then 1 else 0
  }

  function TotalAttempts(rows: seq<Row>): nat {
    if rows == [] then 0 else TotalAttempts(rows[..|rows| - 1]) + rows[|rows| - 1].attempts
  }

  lemma {:induction false} CountsAfterUpdate(rows: seq<Row>, i: nat, r: Row)
    requires i < |rows|
    ensures PendingCount(rows[i := r]) + (if Rows.IsPending(rows[i]) then 1 else 0) ==
            PendingCount(rows) + (if Rows.IsPending(r) then 1 else 0)
    ensures TotalAttempts(rows[i := r]) + rows[i].attempts == TotalAttempts(rows) + r.attempts
  {
    var n := |rows| - 1;
    if i < n {
      CountsAfterUpdate(rows[..n], i, r);
      assert rows[i := r][..n] == rows[..n][i := r];
    } else {
      assert rows[i := r][..n] == rows[..n];
    }
  }

  /** UPDATE ... SET status = 'sent' WHERE event_id = ? AND status = 'pending'. */
  function UpdateSent(rows: seq<Row>, id: EventId, now: Text): seq<Row> {
    var at := Rows.Find(rows, id);
    if at.Some? && Rows.IsPending(rows[at.value])
    then rows[at.value := rows[at.value].(status := Rows.Sent, lastAttemptAt := Some(now))]
    else rows
  }

  /** UPDATE ... SET attempts = attempts + 1 WHERE event_id = ? AND status = 'pending'. */
  function UpdateFailed(rows: seq<Row>, id: EventId, error: Text, now: Text): seq<Row> {
    var at := Rows.Find(rows, id);
    if at.Some? && Rows.IsPending(rows[at.value])
    then rows[at.value := rows[at.value].(attempts := rows[at.value].attempts + 1,
                                          lastAttemptAt := Some(now), lastError := Some(Rows.Clipped(error)))]
    else rows
  }

  lemma {:induction false} FindIsTheRow(rows: seq<Row>, id: EventId, i: nat)
    requires Rows.UniqueIds(rows) && i < |rows|
    ensures rows[i].Id() == id <==> Rows.Find(rows, id) == Some(i)
  {
  }

  lemma {:induction false} SentOneMore(rows: seq<Row>, ids: seq<EventId>, id: EventId, now: Text)
    requires Rows.UniqueIds(rows)
    ensures Rows.MarkSent(rows, ids + [id], now) == UpdateSent(Rows.MarkSent(rows, ids, now), id, now)
  {
    hide Rows.Find;
    var done := Rows.MarkSent(rows, ids, now);
    Rows.StatementsKeepRows(rows, ids, [], now, 0);
    Rows.KeptStaysUnique(rows, done);
    forall i | 0 <= i < |rows|
      ensures Rows.MarkSent(rows, ids + [id], now)[i] == UpdateSent(done, id, now)[i]
    {
      FindIsTheRow(done, id, i);
    }
  }

  lemma {:induction false} FailedOneMore(rows: seq<Row>, ids: seq<EventId>, id: EventId, error: Text, now: Text)
    requires Rows.UniqueIds(rows)
    ensures Rows.MarkFailed(rows, ids + [id], error, now) ==
            UpdateFailed(Rows.MarkFailed(rows, ids, error, now), id, error, now)
  {
    hide Rows.Find, Rows.Clipped;
    var done := Rows.MarkFailed(rows, ids, error, now);
    Rows.StatementsKeepRows(rows, ids, error, now, 0);
    Rows.KeptStaysUnique(rows, done);
    forall i | 0 <= i < |rows|
      ensures Rows.MarkFailed(rows, ids + [id], error, now)[i] == UpdateFailed(done, id, error, now)[i]
    {
      FindIsTheRow(done, id, i);
      assert multiset(ids + [id]) == multiset(ids) + multiset{id};
    }
  }

  function ExhaustedRows(rows: seq<Row>, maxAttempts: int): seq<Row> {
    if rows == [] then []
    else ExhaustedRows(rows[..|rows| - 1], maxAttempts) +
         if Rows.Exhausted(rows[|rows| - 1], maxAttempts) then [rows[|rows| - 1]] else []
  }

  /** Archiving changes the selected rows and no others. */
  lemma {:induction false} NoneExhausted(rows: seq<Row>, maxAttempts: int)
    requires ExhaustedRows(rows, maxAttempts) == []
    ensures Rows.ArchiveExhausted(rows, maxAttempts) == rows
  {
    hide Rows.Exhausted;
    forall i | 0 <= i < |rows| ensures !Rows.Exhausted(rows[i], maxAttempts) {
      NotExhausted(rows, maxAttempts, i);
    }
  }

  lemma {:induction false} NotExhausted(rows: seq<Row>, maxAttempts: int, i: nat)
    requires ExhaustedRows(rows, maxAttempts) == [] && i < |rows|
    ensures !Rows.Exhausted(rows[i], maxAttempts)
  {
    hide Rows.Exhausted;
    var n := |rows| - 1;
    assert |ExhaustedRows(rows, maxAttempts)| == 0;
    if i < n {
      NotExhausted(rows[..n], maxAttempts, i);
      assert rows[..n][i] == rows[i];
    }
  }

  class RedactionEmitStore {
    var rows: seq<Row>

    predicate Valid()
      reads this
    {
      Rows.UniqueIds(rows)
    }

    constructor ()
      ensures Valid() && rows == []
    {
      rows := [];
    }

    /** `id` is the UUID drawn for the row. */
    method Enqueue(id: EventId, workspace: Text, payload: Rows.Payload, now: Text) returns (r: Result<EventId, StoreError>)
      requires Valid()
      modifies this
      ensures Valid()
      ensures rows == Rows.Enqueue(old(rows), Rows.Identity(id, workspace, payload, now))
      ensures r == if Rows.Find(old(rows), id).None? then Ok(id) else Err(DuplicateKey)
    {
      Rows.EnqueueKeepsRows(rows, Rows.Identity(id, workspace, payload, now));
      if Rows.Find(rows, id).Some? {
        return Err(DuplicateKey);
      }
      rows := rows + [Rows.NewRow(Rows.Identity(id, workspace, payload, now))];
      return Ok(id);
    }

    method ListPending(limit: int) returns (listed: seq<Row>)
      ensures listed == Rows.ListPending(rows, limit)
    {
      listed := Rows.ListPending(rows, limit);
    }

    /** One transaction; `changes` counts the rows that left the pending state. */
    method MarkSent(ids: seq<EventId>, now: Text) returns (changes: nat)
      requires Valid()
      modifies this
      ensures Valid()
      ensures rows == Rows.MarkSent(old(rows), ids, now)
      ensures changes == PendingCount(old(rows)) - PendingCount(rows)
    {
      hide Rows.MarkSent, Rows.UniqueIds, PendingCount;
      ghost var before := rows;
      NothingMarked(before, [], now);
      changes := 0;
      var i := 0;
      while i < |ids|
        invariant 0 <= i <= |ids|
        invariant rows == Rows.MarkSent(before, ids[..i], now)
        invariant changes == PendingCount(before) - PendingCount(rows)
      {
        var at := Rows.Find(rows, ids[i]);
        SentOneMore(before, ids[..i], ids[i], now);
        if at.Some? && Rows.IsPending(rows[at.value]) {
          var row := rows[at.value].(status := Rows.Sent, lastAttemptAt := Some(now));
          CountsAfterUpdate(rows, at.value, row);
          rows := rows[at.value := row];
          changes := changes + 1;
        }
        assert ids[..i + 1] == ids[..i] + [ids[i]];
        i := i + 1;
      }
      assert ids[..i] == ids;
      Rows.StatementsKeepRows(before, ids, [], now, 0);
      Rows.KeptStaysUnique(before, rows);
    }

    /** One transaction; `changes` counts the attempts it added. */
    method MarkFailed(ids: seq<EventId>, error: Text, now: Text) returns (changes: nat)
      requires Valid()
      modifies this
      ensures Valid()
      ensures rows == Rows.MarkFailed(old(rows), ids, error, now)
      ensures changes == TotalAttempts(rows) - TotalAttempts(old(rows))
    {
      hide Rows.MarkFailed, Rows.UniqueIds, TotalAttempts, Rows.Clipped;
      ghost var before := rows;
      NothingFailed(before, error, now);
      changes := 0;
      var i := 0;
      while i < |ids|
        invariant 0 <= i <= |ids|
        invariant rows == Rows.MarkFailed(before, ids[..i], error, now)
        invariant changes == TotalAttempts(rows) - TotalAttempts(before)
      {
        var at := Rows.Find(rows, ids[i]);
        FailedOneMore(before, ids[..i], ids[i], error, now);
        if at.Some? && Rows.IsPending(rows[at.value]) {
          var row := rows[at.value].(attempts := rows[at.value].attempts + 1,
                                     lastAttemptAt := Some(now), lastError := Some(Rows.Clipped(error)));
          CountsAfterUpdate(rows, at.value, row);
          rows := rows[at.value := row];
          changes := changes + 1;
        }
        assert ids[..i + 1] == ids[..i] + [ids[i]];
        i := i + 1;
      }
      assert ids[..i] == ids;
      Rows.StatementsKeepRows(before, ids, error, now, 0);
      Rows.KeptStaysUnique(before, rows);
    }

    /** Returns the ids of the rows it archives. */
    method ArchiveExhausted(maxAttempts: int) returns (ids: seq<EventId>)
      requires Valid()
      modifies this
      ensures Valid()
      ensures rows == Rows.ArchiveExhausted(old(rows), maxAttempts)
      ensures ids == Rows.Ids(ExhaustedRows(old(rows), maxAttempts))
    {
      hide ExhaustedRows, Rows.UniqueIds;
      var exhausted := ExhaustedRows(rows, maxAttempts);
      Rows.StatementsKeepRows(rows, [], [], [], maxAttempts);
      Rows.KeptStaysUnique(rows, Rows.ArchiveExhausted(rows, maxAttempts));
      ids := Rows.Ids(exhausted);
      if exhausted == [] {
        NoneExhausted(rows, maxAttempts);
        return;
      }
      rows := Rows.ArchiveExhausted(rows, maxAttempts);
    }
  }

  lemma NothingMarked(rows: seq<Row>, ids: seq<EventId>, now: Text)
    requires ids == []
    ensures Rows.MarkSent(rows, ids, now) == rows
  {
  }

  lemma NothingFailed(rows: seq<Row>, error: Text, now: Text)
    ensures Rows.MarkFailed(rows, [], error, now) == rows
  {
    assert forall r: Row :: Rows.FailedRow(r, [], error, now) == r;
  }

  const DEFAULT_BASE_MS := 30000
  const DEFAULT_MAX_MS := 300000
  const DEFAULT_MAX_ATTEMPTS := 100

  function Given(option: Option<int>, default: int): int {
    if option.Some? then option.value else default
  }

  class RedactionEmitWorker {
    const store: RedactionEmitStore
    /** False in local mode, where no sink is configured. */
    const online: bool
    const baseMs: int
    const maxMs: int
    const cfg: Config
    var currentMs: int
    var timer: Option<int>
    var stopped: bool

    constructor (store: RedactionEmitStore, online: bool, baseMs: Option<int>, maxMs: Option<int>,
                 maxAttempts: Option<int>, batchSize: Option<int>)
      ensures this.store == store && this.online == online
      ensures this.baseMs == Given(baseMs, DEFAULT_BASE_MS) && this.maxMs == Given(maxMs, DEFAULT_MAX_MS)
      ensures cfg.maxAttempts == Given(maxAttempts, DEFAULT_MAX_ATTEMPTS)
      ensures cfg.batchSize <= BATCH_CAP
      ensures cfg.batchSize == if batchSize.Some? && batchSize.value <= BATCH_CAP then batchSize.value else BATCH_CAP
      ensures currentMs == this.baseMs && timer == None && !stopped
    {
      this.store := store;
      this.online := online;
      this.baseMs := Given(baseMs, DEFAULT_BASE_MS);
      this.maxMs := Given(maxMs, DEFAULT_MAX_MS);
      this.cfg := Config(Given(maxAttempts, DEFAULT_MAX_ATTEMPTS), Min(Given(batchSize, BATCH_CAP), BATCH_CAP));
      this.currentMs := Given(baseMs, DEFAULT_BASE_MS);
      this.timer := None;
      this.stopped := false;
    }

    method ScheduleNext()
      modifies this`timer
      ensures timer == if stopped then old(timer) else Some(currentMs)
    {
      if stopped {
        return;
      }
      timer := Some(currentMs);
    }

    /** The end of every tick that found a sink. */
    method Finish(succeeded: bool)
      modifies this`timer, this`currentMs
      ensures currentMs == NextInterval(baseMs, maxMs, old(currentMs), succeeded)
      ensures timer == if stopped then old(timer) else Some(currentMs)
    {
      if succeeded {
        currentMs := baseMs;
      } else {
        currentMs := Min(currentMs * 2, maxMs);
      }
      ScheduleNext();
    }

    /** What a tick does before it awaits the sink: an empty batch ends it at once. */
    method BeginTick() returns (batch: seq<Row>)
      requires online
      modifies this`timer, this`currentMs
      ensures batch == Rows.ListPending(store.rows, cfg.batchSize)
      ensures currentMs == if batch == [] then baseMs else old(currentMs)
      ensures timer == if batch == [] && !stopped then Some(currentMs) else old(timer)
    {
      batch := store.ListPending(cfg.batchSize);
      if batch == [] {
        Finish(true);
      }
    }

    /** What a tick does with the sink's outcome. */
    method SettleTick(batch: seq<Row>, reply: Reply, now: Text)
      requires store.Valid()
      modifies this`timer, this`currentMs, store
      ensures store.Valid()
      ensures store.rows == match reply
                            case Accepted => Rows.MarkSent(old(store.rows), Rows.Ids(batch), now)
                            case Refused(error) =>
                              Rows.ArchiveExhausted(Rows.MarkFailed(old(store.rows), Rows.Ids(batch), error, now), cfg.maxAttempts)
      ensures currentMs == NextInterval(baseMs, maxMs, old(currentMs), reply.Accepted?)
      ensures timer == if stopped then old(timer) else Some(currentMs)
    {
      hide Rows.MarkSent, Rows.MarkFailed, Rows.ArchiveExhausted;
      match reply {
        case Accepted =>
          var _ := store.MarkSent(Rows.Ids(batch), now);
        case Refused(error) =>
          var _ := store.MarkFailed(Rows.Ids(batch), error, now);
          var _ := store.ArchiveExhausted(cfg.maxAttempts);
      }
      Finish(reply.Accepted?);
    }

    /** A tick during which nothing else runs; `reply` is what the cloud would answer. */
    method Tick(reply: Reply, now: Text)
      requires store.Valid()
      modifies this`timer, this`currentMs, store
      ensures store.Valid()
      ensures !online ==> store.rows == old(store.rows) && currentMs == old(currentMs) && timer == old(timer)
      ensures online ==>
                && store.rows == OutboxDrain.Tick(cfg, old(store.rows), reply, now)
                && currentMs == NextInterval(baseMs, maxMs, old(currentMs), Succeeds(cfg, old(store.rows), reply))
                && timer == if stopped then old(timer) else Some(currentMs)
    {
      if !online {
        return;
      }
      var batch := BeginTick();
      if batch != [] {
        SettleTick(batch, Outcome(batch, reply), now);
      }
    }

    /** The first tick runs at once. */
    method Start(reply: Reply, now: Text)
      requires store.Valid()
      modifies this`timer, this`currentMs, store
      ensures store.Valid()
      ensures store.rows == if online then OutboxDrain.Tick(cfg, old(store.rows), reply, now) else old(store.rows)
      ensures currentMs == if online then NextInterval(baseMs, maxMs, old(currentMs), Succeeds(cfg, old(store.rows), reply))
                           else old(currentMs)
      ensures timer == if online && !stopped then Some(currentMs) else old(timer)
    {
      if online {
        Tick(reply, now);
      }
    }

    method Stop()
      modifies this`timer, this`stopped
      ensures stopped && timer == None
    {
      stopped := true;
      timer := None;
    }
  }
}
