/**
 * One undisturbed tick of the worker as a function of the table, why the outbox drains
 * in finitely many such ticks, and the backoff of the poll interval.
 */
module OutboxDrain {
  import opened CodeUnits
  import opened OutboxRows
  import opened OutboxRuns

  /** A batch over the cap is refused by the sink itself, whatever the cloud would say. */
  function Outcome(batch: seq<Row>, reply: Reply): Reply {
    if |batch| > BATCH_CAP && reply.Accepted? then Refused([]) else reply
  }

  function Tick(cfg: Config, rows: seq<Row>, reply: Reply, now: Text): seq<Row> {
    var batch := ListPending(rows, cfg.batchSize);
    if batch == [] then rows
    else
      match Outcome(batch, reply)
      case Accepted => MarkSent(rows, Ids(batch), now)
      case Refused(error) => ArchiveExhausted(MarkFailed(rows, Ids(batch), error, now), cfg.maxAttempts)
  }

  /** Nothing to send is a success. */
  predicate Succeeds(cfg: Config, rows: seq<Row>, reply: Reply) {
    var batch := ListPending(rows, cfg.batchSize);
    batch == [] || Outcome(batch, reply).Accepted?
  }

  /**
   * The state machine and the function agree: from the moment a batch is posted, a tick
   * that nothing interrupts leaves the table the function gives.
   */
  lemma TickIsARun(cfg: Config, s: State, reply: Reply, now: Text)
    requires ListPending(s.rows, cfg.batchSize) != []
    requires s.phase == Posted(EventsOf(ListPending(s.rows, cfg.batchSize))) && Feasible(s, Answer(reply))
    ensures var marked := After(cfg, After(cfg, s, Answer(reply)), Mark(now));
            && (reply.Accepted? ==> marked.phase == Idle && marked.rows == Tick(cfg, s.rows, reply, now))
            && (reply.Refused? ==>
                  marked.phase == Failing && After(cfg, marked, Archive).rows == Tick(cfg, s.rows, reply, now))
  {
    hide ListPending, MarkSent, MarkFailed, ArchiveExhausted, InCloud;
    var batch := ListPending(s.rows, cfg.batchSize);
    assert EventIds(EventsOf(batch)) == Ids(batch);
  }

  predicate HasPending(rows: seq<Row>) {
    exists i | 0 <= i < |rows| :: IsPending(rows[i])
  }

  /** The attempts a pending row has left; one for a row that is already out of attempts. */
  function Left(r: Row, maxAttempts: int): nat {
    if !IsPending(r) then 0 else if r.attempts < maxAttempts then maxAttempts - r.attempts else 1
  }

  function Potential(rows: seq<Row>, maxAttempts: int): nat {
    if rows == [] then 0 else Potential(rows[..|rows| - 1], maxAttempts) + Left(rows[|rows| - 1], maxAttempts)
  }

  lemma {:induction false} PotentialFalls(rows: seq<Row>, rows': seq<Row>, maxAttempts: int, k: nat)
    requires |rows'| == |rows|
    requires forall i | 0 <= i < |rows| :: Left(rows'[i], maxAttempts) <= Left(rows[i], maxAttempts)
    ensures Potential(rows', maxAttempts) <= Potential(rows, maxAttempts)
    ensures k < |rows| && Left(rows'[k], maxAttempts) < Left(rows[k], maxAttempts) ==>
            Potential(rows', maxAttempts) < Potential(rows, maxAttempts)
  {
    hide Left;
    if rows != [] {
      var n := |rows| - 1;
      PotentialFalls(rows[..n], rows'[..n], maxAttempts, k);
      assert k < n ==> rows[..n][k] == rows[k] && rows'[..n][k] == rows'[k];
    }
  }

  lemma RowTickFalls(r: Row, ids: seq<EventId>, error: Text, now: Text, maxAttempts: int)
    ensures Left(SentRow(r, ids, now), maxAttempts) <= Left(r, maxAttempts)
    ensures Left(ArchivedRow(FailedRow(r, ids, error, now), maxAttempts), maxAttempts) <= Left(r, maxAttempts)
    ensures IsPending(r) && r.Id() in ids ==>
            && Left(SentRow(r, ids, now), maxAttempts) < Left(r, maxAttempts)
            && Left(ArchivedRow(FailedRow(r, ids, error, now), maxAttempts), maxAttempts) < Left(r, maxAttempts)
  {
    hide Clipped;
    assert r.Id() in ids <==> r.Id() in multiset(ids);
  }

  /** Every tick that has work to do lowers the potential, unless its batches are empty. */
  lemma {:induction false} TickLowersPotential(cfg: Config, rows: seq<Row>, reply: Reply, now: Text)
    requires UniqueIds(rows) && HasPending(rows)
    ensures Potential(Tick(cfg, rows, reply, now), cfg.maxAttempts) < Potential(rows, cfg.maxAttempts) <==>
            cfg.batchSize != 0
  {
    hide ListPending, Potential, Left, SentRow, FailedRow, ArchivedRow, Row.Id, IsPending;
    ListPendingExact(rows, cfg.batchSize);
    var batch := ListPending(rows, cfg.batchSize);
    assert batch == [] <==> cfg.batchSize == 0 by {
      var i :| 0 <= i < |rows| && IsPending(rows[i]);
      assert rows[i] in rows;
    }
    if cfg.batchSize != 0 {
      assert batch[0] in batch;
      var k :| 0 <= k < |rows| && rows[k] == batch[0];
      var ids := Ids(batch);
      assert ids[0] == rows[k].Id() && rows[k].Id() in ids;
      var rows' := Tick(cfg, rows, reply, now);
      var outcome := Outcome(batch, reply);
      var error := if outcome.Refused? then outcome.error else [];
      forall i | 0 <= i < |rows| ensures Left(rows'[i], cfg.maxAttempts) <= Left(rows[i], cfg.maxAttempts) {
        RowTickFalls(rows[i], ids, error, now, cfg.maxAttempts);
      }
      RowTickFalls(rows[k], ids, error, now, cfg.maxAttempts);
      PotentialFalls(rows, rows', cfg.maxAttempts, k);
    }
  }

  /** The table after the ticks, one for every reply. */
  function Ticks(cfg: Config, rows: seq<Row>, replies: seq<(Reply, Text)>): seq<Row>
    decreases |replies|
  {
    if replies == [] then rows
    else Ticks(cfg, Tick(cfg, rows, replies[0].0, replies[0].1), replies[1..])
  }

  lemma {:induction false} TickKeepsRows(cfg: Config, rows: seq<Row>, reply: Reply, now: Text)
    requires UniqueIds(rows)
    ensures var rows' := Tick(cfg, rows, reply, now);
            RowsKept(rows, rows') && |rows'| == |rows| && UniqueIds(rows')
  {
    hide ListPending, MarkSent, MarkFailed, ArchiveExhausted;
    var batch := ListPending(rows, cfg.batchSize);
    var outcome := Outcome(batch, reply);
    var error := if outcome.Refused? then outcome.error else [];
    StatementsKeepRows(rows, Ids(batch), error, now, cfg.maxAttempts);
    var failed := MarkFailed(rows, Ids(batch), error, now);
    StatementsKeepRows(failed, [], [], [], cfg.maxAttempts);
    RowsKeptTransitive(rows, failed, ArchiveExhausted(failed, cfg.maxAttempts));
    KeptStaysUnique(rows, Tick(cfg, rows, reply, now));
  }

  lemma {:induction false} IdleTickChangesNothing(cfg: Config, rows: seq<Row>, reply: Reply, now: Text)
    requires UniqueIds(rows) && !HasPending(rows)
    ensures Tick(cfg, rows, reply, now) == rows
  {
    hide ListPending, IsPending;
    ListPendingExact(rows, cfg.batchSize);
    forall r | r in rows ensures !IsPending(r) {
      var i :| 0 <= i < |rows| && rows[i] == r;
    }
  }

  /**
   * Whatever the replies, and with nothing new enqueued, as many ticks as the potential
   * leave no row pending: each has been sent or archived.
   */
  lemma {:induction false} OutboxDrains(cfg: Config, rows: seq<Row>, replies: seq<(Reply, Text)>)
    requires UniqueIds(rows) && cfg.batchSize != 0
    requires |replies| >= Potential(rows, cfg.maxAttempts)
    ensures !HasPending(Ticks(cfg, rows, replies))
    decreases |replies|
  {
    hide Tick, Potential, HasPending;
    if replies == [] {
      NothingLeft(rows, cfg.maxAttempts);
    } else {
      var next := Tick(cfg, rows, replies[0].0, replies[0].1);
      TickKeepsRows(cfg, rows, replies[0].0, replies[0].1);
      if HasPending(rows) {
        TickLowersPotential(cfg, rows, replies[0].0, replies[0].1);
        OutboxDrains(cfg, next, replies[1..]);
      } else {
        IdleTickChangesNothing(cfg, rows, replies[0].0, replies[0].1);
        IdleTicksChangeNothing(cfg, rows, replies);
      }
    }
  }

  lemma {:induction false} IdleTicksChangeNothing(cfg: Config, rows: seq<Row>, replies: seq<(Reply, Text)>)
    requires UniqueIds(rows) && !HasPending(rows)
    ensures Ticks(cfg, rows, replies) == rows
    decreases |replies|
  {
    hide Tick;
    if replies != [] {
      IdleTickChangesNothing(cfg, rows, replies[0].0, replies[0].1);
      IdleTicksChangeNothing(cfg, rows, replies[1..]);
    }
  }

  lemma NothingLeft(rows: seq<Row>, maxAttempts: int)
    requires Potential(rows, maxAttempts) == 0
    ensures !HasPending(rows)
  {
    hide Potential;
    if i :| 0 <= i < |rows| && IsPending(rows[i]) {
      PotentialCounts(rows, maxAttempts, i);
    }
  }

  lemma {:induction false} PotentialCounts(rows: seq<Row>, maxAttempts: int, i: nat)
    requires i < |rows| && IsPending(rows[i])
    ensures Potential(rows, maxAttempts) > 0
  {
    if i < |rows| - 1 {
      assert rows[..|rows| - 1][i] == rows[i];
      PotentialCounts(rows[..|rows| - 1], maxAttempts, i);
    }
  }

  // ---------------------------------------------------------------------------
  // No row outlives its attempts
  // ---------------------------------------------------------------------------

  predicate WithinAttempts(rows: seq<Row>, maxAttempts: int) {
    forall i | 0 <= i < |rows| :: !Exhausted(rows[i], maxAttempts)
  }

  lemma SentStaysWithinAttempts(rows: seq<Row>, ids: seq<EventId>, now: Text, maxAttempts: int)
    requires WithinAttempts(rows, maxAttempts)
    ensures WithinAttempts(MarkSent(rows, ids, now), maxAttempts)
  {
  }

  lemma ArchiveLeavesNoneExhausted(rows: seq<Row>, maxAttempts: int)
    ensures WithinAttempts(ArchiveExhausted(rows, maxAttempts), maxAttempts)
  {
  }

  /**
   * A refused tick leaves no pending row with its attempts used up, and an accepted or
   * idle one leaves none where there was none; a new row starts within its attempts
   * exactly when at least one attempt is allowed.
   */
  lemma {:induction false} TickKeepsWithinAttempts(cfg: Config, rows: seq<Row>, reply: Reply, now: Text)
    ensures WithinAttempts(rows, cfg.maxAttempts) ==> WithinAttempts(Tick(cfg, rows, reply, now), cfg.maxAttempts)
    ensures ListPending(rows, cfg.batchSize) != [] && Outcome(ListPending(rows, cfg.batchSize), reply).Refused? ==>
            WithinAttempts(Tick(cfg, rows, reply, now), cfg.maxAttempts)
    ensures forall x :: !Exhausted(NewRow(x), cfg.maxAttempts) <==> cfg.maxAttempts >= 1
  {
    hide ListPending, MarkFailed, ArchiveExhausted, WithinAttempts;
    var batch := ListPending(rows, cfg.batchSize);
    var outcome := Outcome(batch, reply);
    if batch != [] && outcome.Refused? {
      ArchiveLeavesNoneExhausted(MarkFailed(rows, Ids(batch), outcome.error, now), cfg.maxAttempts);
    } else if WithinAttempts(rows, cfg.maxAttempts) {
      SentStaysWithinAttempts(rows, Ids(batch), now, cfg.maxAttempts);
    }
  }

  // ---------------------------------------------------------------------------
  // Backoff
  // ---------------------------------------------------------------------------

  function Min(a: int, b: int): int {
    if a <= b then a else b
  }

  function Pow2(k: nat): nat {
    if k == 0 then 1 else 2 * Pow2(k - 1)
  }

  /** The poll interval after a tick. */
  function NextInterval(baseMs: int, maxMs: int, current: int, succeeded: bool): int {
    if succeeded then baseMs else Min(current * 2, maxMs)
  }

  function IntervalAfter(baseMs: int, maxMs: int, outcomes: seq<bool>): int {
    if outcomes == [] then baseMs
    else NextInterval(baseMs, maxMs, IntervalAfter(baseMs, maxMs, outcomes[..|outcomes| - 1]), outcomes[|outcomes| - 1])
  }

  /** How many ticks at the end of the history failed in a row. */
  function FailedInARow(outcomes: seq<bool>): nat {
    if outcomes == [] || outcomes[|outcomes| - 1] then 0 else 1 + FailedInARow(outcomes[..|outcomes| - 1])
  }

  /**
   * After any history of ticks the interval is the base interval if the last tick
   * succeeded, and otherwise the base doubled once for every failure since the last
   * success, up to the cap. (A cap below zero is itself doubled by every later failure.)
   */
  lemma {:induction false} BackoffClosedForm(baseMs: int, maxMs: int, outcomes: seq<bool>)
    ensures var k := FailedInARow(outcomes);
            IntervalAfter(baseMs, maxMs, outcomes) ==
            if k == 0 then baseMs
            else Min(baseMs * Pow2(k), if maxMs >= 0 then maxMs else maxMs * Pow2(k - 1))
  {
    if outcomes != [] && !outcomes[|outcomes| - 1] {
      var front := outcomes[..|outcomes| - 1];
      BackoffClosedForm(baseMs, maxMs, front);
      var j := FailedInARow(front);
      TimesPow2(baseMs, j);
      if j > 0 {
        TimesPow2(maxMs, j - 1);
      }
      if maxMs < 0 {
        Pow2Grows(maxMs, j);
      }
      hide Pow2, FailedInARow, IntervalAfter;
    }
  }

  lemma TimesPow2(x: int, k: nat)
    ensures x * Pow2(k + 1) == (x * Pow2(k)) * 2
    ensures x * Pow2(0) == x
  {
    assert Pow2(k + 1) == 2 * Pow2(k) && Pow2(0) == 1;
    hide Pow2;
  }

  lemma {:induction false} Pow2Grows(maxMs: int, k: nat)
    requires maxMs < 0
    ensures maxMs * Pow2(k) <= maxMs
  {
    if k > 0 {
      Pow2Grows(maxMs, k - 1);
      TimesPow2(maxMs, k - 1);
    }
  }
}
