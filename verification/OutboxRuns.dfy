/**
 * The outbox as a state machine: producers, one worker, the network and the cloud
 * interleave freely, and the process may die between any two store or sink operations.
 */
module OutboxRuns {
  import opened CodeUnits
  import opened OutboxRows

  /** The largest batch the sink will post. */
  const BATCH_CAP := 1000

  /** One event of the request body. */
  datatype Event = Event(id: EventId, payload: Payload)

  datatype Reply = Accepted | Refused(error: Text)

  /** Where the worker is inside a tick. */
  datatype Phase =
    | Idle
    | Posted(batch: seq<Event>)
    | Answered(batch: seq<Event>, reply: Reply)
    | Failing

  /**
   * `accepted` lists the enqueued events in order. `network` keeps every request ever
   * posted: the cloud may act on any of them at any time, even after the worker gave up
   * on it or died. `cloud` is the cloud's table in insertion order.
   */
  datatype State = State(
    rows: seq<Row>,
    accepted: seq<Identity>,
    network: seq<seq<Event>>,
    cloud: seq<Event>,
    phase: Phase)

  datatype Config = Config(maxAttempts: int, batchSize: int)

  datatype Step =
    | Submit(identity: Identity)
    | Begin
    | Deliver(request: nat, position: nat)
    | Answer(reply: Reply)
    | Mark(now: Text)
    | Archive
    | Crash

  function EventOf(r: Row): Event {
    Event(r.Id(), r.identity.payload)
  }

  function EventsOf(rows: seq<Row>): (events: seq<Event>)
    ensures |events| == |rows|
  {
    seq(|rows|, i requires 0 <= i < |rows| => EventOf(rows[i]))
  }

  function EventIds(events: seq<Event>): (ids: seq<EventId>)
    ensures |ids| == |events|
  {
    seq(|events|, i requires 0 <= i < |events| => events[i].id)
  }

  predicate InCloud(cloud: seq<Event>, id: EventId) {
    exists i | 0 <= i < |cloud| :: cloud[i].id == id
  }

  /** INSERT ... ON CONFLICT (daemon_event_id) DO NOTHING. */
  function Insert(cloud: seq<Event>, event: Event): seq<Event> {
    if InCloud(cloud, event.id) then cloud else cloud + [event]
  }

  predicate Feasible(s: State, step: Step) {
    match step
    case Submit(_) => true
    case Begin => s.phase.Idle?
    case Deliver(k, i) => k < |s.network| && i < |s.network[k]|
    case Answer(reply) =>
      s.phase.Posted? &&
      (reply.Accepted? ==>
        |s.phase.batch| <= BATCH_CAP && forall i | 0 <= i < |s.phase.batch| :: InCloud(s.cloud, s.phase.batch[i].id))
    case Mark(_) => s.phase.Answered?
    case Archive => s.phase.Failing?
    case Crash => true
  }

  function After(cfg: Config, s: State, step: Step): State
    requires Feasible(s, step)
  {
    match step
    case Submit(identity) =>
      s.(rows := Enqueue(s.rows, identity),
         accepted := if Find(s.rows, identity.id).None? then s.accepted + [identity] else s.accepted)
    case Begin =>
      var batch := EventsOf(ListPending(s.rows, cfg.batchSize));
      if batch == [] then s
      else s.(phase := Posted(batch), network := if |batch| <= BATCH_CAP then s.network + [batch] else s.network)
    case Deliver(k, i) => s.(cloud := Insert(s.cloud, s.network[k][i]))
    case Answer(reply) => s.(phase := Answered(s.phase.batch, reply))
    case Mark(now) =>
      var ids := EventIds(s.phase.batch);
      (match s.phase.reply
       case Accepted => s.(rows := MarkSent(s.rows, ids, now), phase := Idle)
       case Refused(error) => s.(rows := MarkFailed(s.rows, ids, error, now), phase := Failing))
    case Archive => s.(rows := ArchiveExhausted(s.rows, cfg.maxAttempts), phase := Idle)
    case Crash => s.(phase := Idle)
  }

  predicate FeasibleRun(cfg: Config, s: State, steps: seq<Step>)
    decreases |steps|
  {
    steps == [] || (Feasible(s, steps[0]) && FeasibleRun(cfg, After(cfg, s, steps[0]), steps[1..]))
  }

  function AfterRun(cfg: Config, s: State, steps: seq<Step>): State
    requires FeasibleRun(cfg, s, steps)
    decreases |steps|
  {
    if steps == [] then s else AfterRun(cfg, After(cfg, s, steps[0]), steps[1..])
  }

  // ---------------------------------------------------------------------------
  // The invariant
  // ---------------------------------------------------------------------------

  /** The table holds the accepted events, in order, each in one row. */
  predicate Conserved(rows: seq<Row>, accepted: seq<Identity>) {
    && |rows| == |accepted|
    && forall i | 0 <= i < |rows| :: rows[i].identity == accepted[i]
  }

  predicate Known(rows: seq<Row>, event: Event) {
    exists i | 0 <= i < |rows| :: EventOf(rows[i]) == event
  }

  predicate AllKnown(rows: seq<Row>, events: seq<Event>) {
    forall i | 0 <= i < |events| :: Known(rows, events[i])
  }

  predicate NoRepeatedIds(events: seq<Event>) {
    forall i, j | 0 <= i < j < |events| :: events[i].id != events[j].id
  }

  predicate SentArrived(rows: seq<Row>, cloud: seq<Event>) {
    forall i | 0 <= i < |rows| && rows[i].status.Sent? :: InCloud(cloud, rows[i].Id())
  }

  predicate AllInCloud(cloud: seq<Event>, events: seq<Event>) {
    forall i | 0 <= i < |events| :: InCloud(cloud, events[i].id)
  }

  predicate Inv(s: State) {
    && UniqueIds(s.rows)
    && Conserved(s.rows, s.accepted)
    && SentArrived(s.rows, s.cloud)
    && NoRepeatedIds(s.cloud)
    && AllKnown(s.rows, s.cloud)
    && (forall k | 0 <= k < |s.network| :: AllKnown(s.rows, s.network[k]))
    && (s.phase.Answered? && s.phase.reply.Accepted? ==> AllInCloud(s.cloud, s.phase.batch))
  }

  const EMPTY := State([], [], [], [], Idle)

  lemma {:induction false} KnownAfter(rows: seq<Row>, rows': seq<Row>, events: seq<Event>)
    requires RowsKept(rows, rows') && AllKnown(rows, events)
    ensures AllKnown(rows', events)
  {
    forall i | 0 <= i < |events| ensures Known(rows', events[i]) {
      assert Known(rows, events[i]);
      var j :| 0 <= j < |rows| && EventOf(rows[j]) == events[i];
      assert RowKept(rows[j], rows'[j]);
    }
  }

  lemma EnqueueConserves(rows: seq<Row>, accepted: seq<Identity>, identity: Identity)
    requires Conserved(rows, accepted)
    ensures Conserved(Enqueue(rows, identity),
                      if Find(rows, identity.id).None? then accepted + [identity] else accepted)
  {
  }

  lemma {:induction false} StepKeepsRows(cfg: Config, s: State, step: Step)
    requires Inv(s) && Feasible(s, step)
    ensures RowsKept(s.rows, After(cfg, s, step).rows)
    ensures UniqueIds(After(cfg, s, step).rows)
    ensures Conserved(After(cfg, s, step).rows, After(cfg, s, step).accepted)
  {
    hide MarkSent, MarkFailed, ArchiveExhausted, Enqueue, ListPending, Insert;
    match step {
      case Submit(identity) =>
        EnqueueKeepsRows(s.rows, identity);
        EnqueueConserves(s.rows, s.accepted, identity);
      case Mark(now) =>
        StatementsKeepRows(s.rows, EventIds(s.phase.batch),
          if s.phase.reply.Refused? then s.phase.reply.error else [], now, cfg.maxAttempts);
        SameLengthKept(s, After(cfg, s, step).rows);
      case Archive =>
        StatementsKeepRows(s.rows, [], [], [], cfg.maxAttempts);
        SameLengthKept(s, After(cfg, s, step).rows);
      case _ =>
    }
  }

  lemma SameLengthKept(s: State, rows': seq<Row>)
    requires Inv(s) && RowsKept(s.rows, rows') && |rows'| == |s.rows|
    ensures UniqueIds(rows') && Conserved(rows', s.accepted)
  {
    KeptStaysUnique(s.rows, rows');
    forall i | 0 <= i < |rows'| ensures rows'[i].identity == s.accepted[i] {
      assert RowKept(s.rows[i], rows'[i]);
    }
  }

  lemma {:induction false} StepKeepsRequestsKnown(cfg: Config, s: State, step: Step)
    requires Inv(s) && Feasible(s, step)
    ensures var s' := After(cfg, s, step);
            forall k | 0 <= k < |s'.network| :: AllKnown(s'.rows, s'.network[k])
  {
    hide MarkSent, MarkFailed, ArchiveExhausted, Enqueue, ListPending, Insert, RowsKept, Conserved, UniqueIds;
    StepKeepsRows(cfg, s, step);
    var s' := After(cfg, s, step);
    forall k | 0 <= k < |s.network| ensures AllKnown(s'.rows, s.network[k]) {
      KnownAfter(s.rows, s'.rows, s.network[k]);
    }
    if step.Begin? {
      ListedIsKnown(s.rows, cfg.batchSize);
    }
  }

  lemma {:induction false} ListedIsKnown(rows: seq<Row>, limit: int)
    requires UniqueIds(rows)
    ensures AllKnown(rows, EventsOf(ListPending(rows, limit)))
  {
    hide ListPending;
    ListPendingExact(rows, limit);
    var batch := ListPending(rows, limit);
    forall i | 0 <= i < |batch| ensures Known(rows, EventOf(batch[i])) {
      assert batch[i] in batch && batch[i] in rows;
    }
  }

  lemma {:induction false} StepKeepsCloud(cfg: Config, s: State, step: Step)
    requires Inv(s) && Feasible(s, step)
    ensures var s' := After(cfg, s, step);
            && s.cloud <= s'.cloud
            && NoRepeatedIds(s'.cloud)
            && AllKnown(s'.rows, s'.cloud)
  {
    hide MarkSent, MarkFailed, ArchiveExhausted, Enqueue, ListPending, RowsKept, Conserved, UniqueIds;
    StepKeepsRows(cfg, s, step);
    var s' := After(cfg, s, step);
    KnownAfter(s.rows, s'.rows, s.cloud);
    if step.Deliver? {
      var event := s.network[step.request][step.position];
      assert AllKnown(s.rows, s.network[step.request]);
      assert Known(s.rows, event);
    }
  }

  lemma StillInCloud(cloud: seq<Event>, cloud': seq<Event>, id: EventId)
    requires cloud <= cloud' && InCloud(cloud, id)
    ensures InCloud(cloud', id)
  {
    var i :| 0 <= i < |cloud| && cloud[i].id == id;
    assert cloud'[i].id == id;
  }

  lemma {:induction false} StepKeepsSentArrived(cfg: Config, s: State, step: Step)
    requires Inv(s) && Feasible(s, step)
    ensures SentArrived(After(cfg, s, step).rows, After(cfg, s, step).cloud)
  {
    hide MarkFailed, ListPending, InCloud, Insert, AllKnown, Conserved, UniqueIds, RowsKept;
    StepKeepsCloud(cfg, s, step);
    var s' := After(cfg, s, step);
    forall i | 0 <= i < |s'.rows| && s'.rows[i].status.Sent? ensures InCloud(s'.cloud, s'.rows[i].Id()) {
      if i < |s.rows| && s.rows[i].status.Sent? && s'.rows[i].Id() == s.rows[i].Id() {
        StillInCloud(s.cloud, s'.cloud, s.rows[i].Id());
      } else if step.Mark? && s.phase.reply.Accepted? {
        var ids := EventIds(s.phase.batch);
        assert s'.rows[i] == SentRow(s.rows[i], ids, step.now);
        var j :| 0 <= j < |ids| && ids[j] == s.rows[i].Id();
        assert InCloud(s.cloud, s.phase.batch[j].id);
      } else if step.Mark? {
        assert s.phase.reply.Refused?;
        StatementKeepsNotSent(s, step.now, i);
      }
    }
  }

  lemma StatementKeepsNotSent(s: State, now: Text, i: nat)
    requires s.phase.Answered? && s.phase.reply.Refused? && i < |s.rows|
    ensures var r' := MarkFailed(s.rows, EventIds(s.phase.batch), s.phase.reply.error, now)[i];
            r'.status == s.rows[i].status && r'.Id() == s.rows[i].Id()
  {
    hide Clipped;
  }

  lemma {:induction false} StepKeepsInv(cfg: Config, s: State, step: Step)
    requires Inv(s) && Feasible(s, step)
    ensures Inv(After(cfg, s, step))
  {
    hide MarkSent, MarkFailed, ArchiveExhausted, Enqueue, ListPending, InCloud, Insert, AllKnown, Conserved, UniqueIds,
         RowsKept, SentArrived, NoRepeatedIds;
    StepKeepsRows(cfg, s, step);
    StepKeepsRequestsKnown(cfg, s, step);
    StepKeepsCloud(cfg, s, step);
    StepKeepsSentArrived(cfg, s, step);
    var s' := After(cfg, s, step);
    if s'.phase.Answered? && s'.phase.reply.Accepted? {
      forall i | 0 <= i < |s'.phase.batch| ensures InCloud(s'.cloud, s'.phase.batch[i].id) {
        assert InCloud(s.cloud, s'.phase.batch[i].id);
        StillInCloud(s.cloud, s'.cloud, s'.phase.batch[i].id);
      }
    }
  }

  // ---------------------------------------------------------------------------
  // Over whole runs
  // ---------------------------------------------------------------------------

  lemma {:induction false} RunKeepsInv(cfg: Config, s: State, steps: seq<Step>)
    requires Inv(s) && FeasibleRun(cfg, s, steps)
    ensures Inv(AfterRun(cfg, s, steps))
    ensures RowsKept(s.rows, AfterRun(cfg, s, steps).rows)
    ensures s.cloud <= AfterRun(cfg, s, steps).cloud
    decreases |steps|
  {
    assert RowsKept(s.rows, s.rows);
    hide Inv, After, RowsKept, Feasible;
    if steps != [] {
      var next := After(cfg, s, steps[0]);
      StepKeepsInv(cfg, s, steps[0]);
      StepKeepsRows(cfg, s, steps[0]);
      StepKeepsCloud(cfg, s, steps[0]);
      RunKeepsInv(cfg, next, steps[1..]);
      RowsKeptTransitive(s.rows, next.rows, AfterRun(cfg, s, steps).rows);
    }
  }

  /** The event a step enqueues, unless its id is already in the table. */
  function EnqueuedBy(s: State, step: Step): seq<Identity> {
    if step.Submit? && Find(s.rows, step.identity.id).None? then [step.identity] else []
  }

  function Enqueued(cfg: Config, s: State, steps: seq<Step>): seq<Identity>
    requires FeasibleRun(cfg, s, steps)
    decreases |steps|
  {
    if steps == [] then []
    else EnqueuedBy(s, steps[0]) + Enqueued(cfg, After(cfg, s, steps[0]), steps[1..])
  }

  lemma AcceptedAfter(cfg: Config, s: State, step: Step)
    requires Feasible(s, step)
    ensures After(cfg, s, step).accepted == s.accepted + EnqueuedBy(s, step)
  {
    hide MarkSent, MarkFailed, ArchiveExhausted, Enqueue, ListPending, Insert;
  }

  lemma {:induction false} AcceptedIsEnqueued(cfg: Config, s: State, steps: seq<Step>)
    requires FeasibleRun(cfg, s, steps)
    ensures AfterRun(cfg, s, steps).accepted == s.accepted + Enqueued(cfg, s, steps)
    decreases |steps|
  {
    hide After, Feasible, EnqueuedBy;
    if steps != [] {
      AcceptedAfter(cfg, s, steps[0]);
      AcceptedIsEnqueued(cfg, After(cfg, s, steps[0]), steps[1..]);
    }
  }

  /**
   * In every run from an empty outbox, whatever crashes: the table is exactly the
   * enqueued events, one row and one status each; every sent event is in the cloud with
   * the payload it was enqueued with; and the cloud holds no id twice and nothing that
   * was not enqueued.
   */
  lemma {:induction false} OutboxConservation(cfg: Config, steps: seq<Step>)
    requires FeasibleRun(cfg, EMPTY, steps)
    ensures var s := AfterRun(cfg, EMPTY, steps);
            var enqueued := Enqueued(cfg, EMPTY, steps);
            && UniqueIds(s.rows) && Conserved(s.rows, enqueued)
            && (forall i | 0 <= i < |s.rows| && s.rows[i].status.Sent? :: EventOf(s.rows[i]) in s.cloud)
            && NoRepeatedIds(s.cloud)
            && (forall e | e in s.cloud :: exists x | x in enqueued :: e == Event(x.id, x.payload))
  {
    hide After, Feasible, AfterRun, Enqueued, FeasibleRun;
    RunKeepsInv(cfg, EMPTY, steps);
    AcceptedIsEnqueued(cfg, EMPTY, steps);
    var s := AfterRun(cfg, EMPTY, steps);
    var enqueued := Enqueued(cfg, EMPTY, steps);
    assert s.accepted == enqueued;
    forall e | e in s.cloud ensures exists x | x in enqueued :: e == Event(x.id, x.payload) {
      assert Known(s.rows, e);
      var i :| 0 <= i < |s.rows| && EventOf(s.rows[i]) == e;
      assert enqueued[i] in enqueued;
    }
    forall i | 0 <= i < |s.rows| && s.rows[i].status.Sent? ensures EventOf(s.rows[i]) in s.cloud {
      SentEventArrived(s, i);
    }
  }

  lemma {:induction false} SentEventArrived(s: State, i: nat)
    requires Inv(s) && i < |s.rows| && s.rows[i].status.Sent?
    ensures EventOf(s.rows[i]) in s.cloud
  {
    hide Conserved, NoRepeatedIds;
    var k :| 0 <= k < |s.cloud| && s.cloud[k].id == s.rows[i].Id();
    assert Known(s.rows, s.cloud[k]);
    var j :| 0 <= j < |s.rows| && EventOf(s.rows[j]) == s.cloud[k];
    assert s.rows[j].Id() == s.rows[i].Id();
    assert i == j;
  }
}
