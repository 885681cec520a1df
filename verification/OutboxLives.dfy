/**
 * What becomes of an event: sent once a batch with it is accepted, archived only when
 * its attempts are used up, and one attempt counted for every refused batch with it.
 */
module OutboxLives {
  import opened CodeUnits
  import opened Prelude
  import opened OutboxRows
  import opened OutboxRuns
  import opened OutboxDrain

  /** The batch lists the event. */
  predicate InBatch(batch: seq<Event>, id: EventId) {
    exists j | 0 <= j < |batch| :: batch[j].id == id
  }

  /** No batch under way lists an event twice. */
  predicate BatchDistinct(phase: Phase) {
    phase.Posted? || phase.Answered? ==> NoRepeatedIds(phase.batch)
  }

  lemma {:induction false} BatchStaysDistinct(cfg: Config, s: State, step: Step)
    requires Inv(s) && BatchDistinct(s.phase) && Feasible(s, step)
    ensures BatchDistinct(After(cfg, s, step).phase)
  {
    hide MarkSent, MarkFailed, ArchiveExhausted, Enqueue, ListPending, Insert, InCloud;
    if step.Begin? {
      ListPendingExact(s.rows, cfg.batchSize);
      hide Ordered, Before;
    }
  }

  /** The step is the end of a post that the sink refused, of a batch with this event. */
  predicate Refuses(s: State, step: Step, id: EventId) {
    step.Mark? && s.phase.Answered? && s.phase.reply.Refused? && InBatch(s.phase.batch, id)
  }

  predicate Accepts(s: State, step: Step, id: EventId) {
    step.Mark? && s.phase.Answered? && s.phase.reply.Accepted? && InBatch(s.phase.batch, id)
  }

  /** What a step makes of a pending row. */
  predicate Becomes(cfg: Config, s: State, step: Step, r: Row, r': Row) {
    if Accepts(s, step, r.Id()) then r' == r.(status := Sent, lastAttemptAt := Some(step.now))
    else if Refuses(s, step, r.Id()) then
      && r'.status == Pending && r'.identity == r.identity && r'.attempts == r.attempts + 1
      && r'.lastAttemptAt == Some(step.now) && r'.lastError.Some?
      && r'.lastError.value <= s.phase.reply.error && |r'.lastError.value| <= 500
      && (|s.phase.reply.error| <= 500 || |r'.lastError.value| == 500)
    else if step.Archive? && r.attempts >= cfg.maxAttempts then r' == r.(status := Archived)
    else r' == r
  }

  lemma InIds(batch: seq<Event>, id: EventId)
    ensures id in EventIds(batch) <==> InBatch(batch, id)
    ensures NoRepeatedIds(batch) && InBatch(batch, id) ==> multiset(EventIds(batch))[id] == 1
    ensures !InBatch(batch, id) ==> multiset(EventIds(batch))[id] == 0
  {
    var ids := EventIds(batch);
    if i :| 0 <= i < |batch| && batch[i].id == id {
      assert ids[i] == id;
      assert ids == ids[..i] + [id] + ids[i + 1..];
      if NoRepeatedIds(batch) {
        assert id !in ids[..i] && id !in ids[i + 1..];
        assert multiset(ids) == multiset(ids[..i]) + multiset{id} + multiset(ids[i + 1..]);
      }
    } else {
      assert id !in ids;
    }
  }

  /** Every step leaves sent and archived rows alone and does this to the pending ones. */
  lemma {:induction false} StepMovesRow(cfg: Config, s: State, step: Step, i: nat)
    requires Inv(s) && BatchDistinct(s.phase) && Feasible(s, step) && i < |s.rows|
    ensures var rows' := After(cfg, s, step).rows;
      i < |rows'| && if IsPending(s.rows[i]) then Becomes(cfg, s, step, s.rows[i], rows'[i]) else rows'[i] == s.rows[i]
  {
    hide ListPending, Insert, InCloud, InBatch, NoRepeatedIds, Inv;
    if step.Mark? {
      InIds(s.phase.batch, s.rows[i].Id());
    }
  }

  /** How many refused posts of a batch with this event the run contains. */
  function Refusals(cfg: Config, s: State, steps: seq<Step>, id: EventId): nat
    requires FeasibleRun(cfg, s, steps)
    decreases |steps|
  {
    if steps == [] then 0
    else (if Refuses(s, steps[0], id) then 1 else 0) + Refusals(cfg, After(cfg, s, steps[0]), steps[1..], id)
  }

  predicate WasAccepted(cfg: Config, s: State, steps: seq<Step>, id: EventId)
    requires FeasibleRun(cfg, s, steps)
    decreases |steps|
  {
    steps != [] && (Accepts(s, steps[0], id) || WasAccepted(cfg, After(cfg, s, steps[0]), steps[1..], id))
  }

  lemma {:induction false} SettledForGood(cfg: Config, s: State, steps: seq<Step>, i: nat)
    requires Inv(s) && BatchDistinct(s.phase) && FeasibleRun(cfg, s, steps)
    requires i < |s.rows| && !IsPending(s.rows[i])
    ensures i < |AfterRun(cfg, s, steps).rows| && AfterRun(cfg, s, steps).rows[i] == s.rows[i]
    decreases |steps|
  {
    hide Inv, After, Feasible, BatchDistinct, IsPending;
    if steps != [] {
      StepKeepsInv(cfg, s, steps[0]);
      BatchStaysDistinct(cfg, s, steps[0]);
      StepMovesRow(cfg, s, steps[0], i);
      SettledForGood(cfg, After(cfg, s, steps[0]), steps[1..], i);
    }
  }

  /**
   * What a run, with crashes anywhere, makes of a pending event. If it ends pending, it has
   * one attempt more for each refused batch with it. If it ends archived, it has had as many
   * attempts as are allowed. It ends sent only if a batch with it was accepted.
   */
  lemma {:induction false} FateOfARow(cfg: Config, s: State, steps: seq<Step>, i: nat)
    requires Inv(s) && BatchDistinct(s.phase) && FeasibleRun(cfg, s, steps) && i < |s.rows| && IsPending(s.rows[i])
    ensures var s' := AfterRun(cfg, s, steps);
      && i < |s'.rows| && s'.rows[i].identity == s.rows[i].identity
      && (s'.rows[i].status.Pending? ==> s'.rows[i].attempts == s.rows[i].attempts + Refusals(cfg, s, steps, s.rows[i].Id()))
      && (s'.rows[i].status.Archived? ==> s'.rows[i].attempts >= cfg.maxAttempts)
      && (s'.rows[i].status.Sent? ==> WasAccepted(cfg, s, steps, s.rows[i].Id()))
    decreases |steps|
  {
    hide Inv, After, Feasible, BatchDistinct, Accepts, Refuses;
    if steps != [] {
      var next := After(cfg, s, steps[0]);
      StepKeepsInv(cfg, s, steps[0]);
      BatchStaysDistinct(cfg, s, steps[0]);
      StepMovesRow(cfg, s, steps[0], i);
      if IsPending(next.rows[i]) {
        FateOfARow(cfg, next, steps[1..], i);
      } else {
        SettledForGood(cfg, next, steps[1..], i);
      }
    }
  }

  predicate ArchivedSpent(rows: seq<Row>, maxAttempts: int) {
    forall i | 0 <= i < |rows| && rows[i].status.Archived? :: rows[i].attempts >= maxAttempts
  }

  /** In every run an archived row has used up its attempts. */
  lemma {:induction false} ArchivedUsedUp(cfg: Config, s: State, steps: seq<Step>)
    requires Inv(s) && BatchDistinct(s.phase) && FeasibleRun(cfg, s, steps)
    requires ArchivedSpent(s.rows, cfg.maxAttempts)
    ensures ArchivedSpent(AfterRun(cfg, s, steps).rows, cfg.maxAttempts)
    decreases |steps|
  {
    hide Inv, After, Feasible, BatchDistinct, Becomes;
    if steps != [] {
      var next := After(cfg, s, steps[0]);
      StepKeepsInv(cfg, s, steps[0]);
      BatchStaysDistinct(cfg, s, steps[0]);
      forall i | 0 <= i < |next.rows| && next.rows[i].status.Archived? ensures next.rows[i].attempts >= cfg.maxAttempts {
        if i < |s.rows| {
          StepMovesRow(cfg, s, steps[0], i);
          ArchivedBy(cfg, s, steps[0], s.rows[i], next.rows[i]);
        } else {
          NewRowIsPending(cfg, s, steps[0], i);
        }
      }
      ArchivedUsedUp(cfg, next, steps[1..]);
    }
  }

  lemma ArchivedBy(cfg: Config, s: State, step: Step, r: Row, r': Row)
    requires (IsPending(r) && Becomes(cfg, s, step, r, r')) || r' == r
    ensures r'.status.Archived? ==> r.status.Archived? || r'.attempts >= cfg.maxAttempts
  {
    hide Accepts, Refuses;
  }

  lemma NewRowIsPending(cfg: Config, s: State, step: Step, i: nat)
    requires Feasible(s, step) && |s.rows| <= i < |After(cfg, s, step).rows|
    ensures After(cfg, s, step).rows[i].status.Pending? && After(cfg, s, step).rows[i].attempts == 0
  {
    hide ListPending, Insert, InCloud, Find;
  }

  /** When a post was accepted, every event of the batch that was still pending becomes sent. */
  lemma {:induction false} AcceptedBatchIsSent(cfg: Config, s: State, now: Text, i: nat)
    requires Inv(s) && BatchDistinct(s.phase) && s.phase.Answered? && s.phase.reply.Accepted?
    requires i < |s.rows| && IsPending(s.rows[i])
    ensures var r' := After(cfg, s, Mark(now)).rows[i];
      && (InBatch(s.phase.batch, s.rows[i].Id()) ==> r'.status.Sent? && r'.lastAttemptAt == Some(now) && r'.attempts == s.rows[i].attempts)
      && (!InBatch(s.phase.batch, s.rows[i].Id()) ==> r' == s.rows[i])
  {
    hide After, Inv, InBatch, BatchDistinct;
    StepMovesRow(cfg, s, Mark(now), i);
  }

  // ---------------------------------------------------------------------------
  // A cloud that accepts
  // ---------------------------------------------------------------------------

  predicate AllAccepted(replies: seq<(Reply, Text)>) {
    forall i | 0 <= i < |replies| :: replies[i].0.Accepted?
  }

  lemma {:induction false} AcceptedTick(cfg: Config, rows: seq<Row>, now: Text)
    requires UniqueIds(rows) && 0 <= cfg.batchSize <= BATCH_CAP
    ensures var rows' := Tick(cfg, rows, Accepted, now);
      && |rows'| == |rows|
      && forall i | 0 <= i < |rows| :: rows'[i] == rows[i] || (IsPending(rows[i]) && rows'[i].status.Sent?)
  {
    hide ListPending;
    ListPendingExact(rows, cfg.batchSize);
    hide Ordered, Before;
  }

  /**
   * Against a cloud that accepts, every row that was pending ends as sent, within as many
   * ticks as there are attempts left in the table, and no other row changes.
   */
  lemma {:induction false} AcceptedOutboxIsSent(cfg: Config, rows: seq<Row>, replies: seq<(Reply, Text)>)
    requires UniqueIds(rows) && 0 < cfg.batchSize <= BATCH_CAP && AllAccepted(replies)
    requires |replies| >= Potential(rows, cfg.maxAttempts)
    ensures var rows' := Ticks(cfg, rows, replies);
      && |rows'| == |rows|
      && forall i | 0 <= i < |rows| :: if IsPending(rows[i]) then rows'[i].status.Sent? else rows'[i] == rows[i]
  {
    OutboxDrains(cfg, rows, replies);
    AcceptedTicks(cfg, rows, replies);
    hide Ticks, Potential;
    var rows' := Ticks(cfg, rows, replies);
    forall i | 0 <= i < |rows| ensures if IsPending(rows[i]) then rows'[i].status.Sent? else rows'[i] == rows[i] {
      assert !IsPending(rows'[i]);
    }
  }

  lemma {:induction false} AcceptedTicks(cfg: Config, rows: seq<Row>, replies: seq<(Reply, Text)>)
    requires UniqueIds(rows) && 0 <= cfg.batchSize <= BATCH_CAP && AllAccepted(replies)
    ensures var rows' := Ticks(cfg, rows, replies);
      && |rows'| == |rows|
      && forall i | 0 <= i < |rows| :: rows'[i] == rows[i] || (IsPending(rows[i]) && rows'[i].status.Sent?)
    decreases |replies|
  {
    hide Tick, UniqueIds;
    if replies != [] {
      assert replies[0].0.Accepted?;
      AcceptedTick(cfg, rows, replies[0].1);
      TickKeepsRows(cfg, rows, replies[0].0, replies[0].1);
      AcceptedTicks(cfg, Tick(cfg, rows, replies[0].0, replies[0].1), replies[1..]);
    }
  }

  /** A batch over the cap, which only a negative batch size can list, sends nothing whatever the cloud would say. */
  lemma {:induction false} OversizedSendsNothing(cfg: Config, rows: seq<Row>, reply: Reply, now: Text, i: nat)
    requires i < |rows| && |ListPending(rows, cfg.batchSize)| > BATCH_CAP
    ensures cfg.batchSize < 0 || cfg.batchSize > BATCH_CAP
    ensures Tick(cfg, rows, reply, now)[i].status.Sent? ==> rows[i].status.Sent?
  {
    hide OldestFirst, PendingRows, Clipped;
  }
}
