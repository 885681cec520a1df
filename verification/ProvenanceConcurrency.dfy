/**
 * Overlapping append calls, the promise chain that orders them, and the key store that
 * may change between any two of their steps. Each call is cut at its await points:
 * waiting for the lock, writing the line, updating memory.
 */
module ProvenanceConcurrency {
  import opened Prelude
  import opened CodeUnits
  import opened ProvenancePayload
  import opened ProvenanceSpec
  import opened ProvenanceAppend
  import opened ProvenanceContents
  import K = KeyStoreSpec
  import S = ProvenanceSignatures

  /**
   * How far the call with a given ticket has got; the last three have run `finally`. The
   * line of a torn call reached the file, but writing or syncing it was reported as failed.
   */
  datatype Phase =
    | Queued(input: Input)
    | Writing(job: Job, record: Record)
    | Written(job: Job, record: Record)
    | Done(job: Job, record: Record)
    | Torn(job: Job, record: Record)
    | Failed

  /**
   * What acquireLock makes for a ticket: its own promise, which release resolves, and the
   * promise it leaves in writeLock, which settles once the one that was there has settled
   * and then its own is resolved.
   */
  datatype Lock = Lock(released: bool, settled: bool)

  /** Tickets are given out in call order; `calls[k]` and `locks[k]` belong to ticket k. */
  datatype State = State(file: seq<Record>, memory: Memory, store: K.Store, locks: seq<Lock>, calls: seq<Phase>)

  datatype Config = Config(chain: S.Config, base: seq<Record>)

  datatype Event =
    | Call(input: Input)
    | Settle(ticket: nat)
    | Enter(ticket: nat, timestamp: Text)
    | Throw(ticket: nat)
    | WriteOk(ticket: nat)
    | WriteFail(ticket: nat)
    | WriteTorn(ticket: nat)
    | Commit(ticket: nat)
    | KeyEvent(e: K.Event)

  predicate Released(p: Phase) {
    p.Done? || p.Torn? || p.Failed?
  }

  predicate InCriticalSection(p: Phase) {
    p.Writing? || p.Written?
  }

  /** The promise that ticket k awaits: the one it found in writeLock, resolved at the start. */
  predicate PreviousSettled(s: State, k: nat)
    requires k <= |s.locks|
  {
    k == 0 || s.locks[k - 1].settled
  }

  ghost predicate Enabled(s: State, e: Event) {
    match e
    case Call(_) => true
    case Settle(k) => k < |s.locks| && !s.locks[k].settled && PreviousSettled(s, k) && s.locks[k].released
    case Enter(k, _) => k < |s.calls| && k < |s.locks| && s.calls[k].Queued? && PreviousSettled(s, k)
    case Throw(k) => k < |s.calls| && k < |s.locks| && s.calls[k].Queued? && PreviousSettled(s, k)
    case WriteOk(k) => k < |s.calls| && s.calls[k].Writing?
    case WriteFail(k) => k < |s.calls| && k < |s.locks| && s.calls[k].Writing?
    case WriteTorn(k) => k < |s.calls| && k < |s.locks| && s.calls[k].Writing?
    case Commit(k) => k < |s.calls| && k < |s.locks| && s.calls[k].Written?
    case KeyEvent(e) => K.Permitted(s.store, e)
  }

  /** The finally-block: ticket k ends in phase p and its own promise is resolved. */
  function Finish(s: State, k: nat, p: Phase): State
    requires k < |s.calls| && k < |s.locks|
  {
    s.(calls := s.calls[k := p], locks := s.locks[k := s.locks[k].(released := true)])
  }

  /** The record a call builds on entering, signed with the key that is active then. */
  ghost function JobOf(g: Config, s: State, input: Input, timestamp: Text): Job {
    Job(input, timestamp, S.SignerFor(g.chain, s.store))
  }

  ghost function Step(g: Config, s: State, e: Event): State
    requires Enabled(s, e)
  {
    match e
    case Call(input) => s.(calls := s.calls + [Queued(input)], locks := s.locks + [Lock(false, false)])
    case Settle(k) => s.(locks := s.locks[k := s.locks[k].(settled := true)])
    case Enter(k, timestamp) =>
      var job := JobOf(g, s, s.calls[k].input, timestamp);
      s.(calls := s.calls[k := Writing(job, MakeRecord(g.chain.crypto, s.memory, job, g.chain.tenant))])
    case Throw(k) => Finish(s, k, Failed)
    case WriteOk(k) =>
      var p := s.calls[k];
      s.(file := s.file + [p.record], calls := s.calls[k := Written(p.job, p.record)])
    case WriteFail(k) => Finish(s, k, Failed)
    case WriteTorn(k) =>
      var p := s.calls[k];
      Finish(s.(file := s.file + [p.record]), k, Torn(p.job, p.record))
    case Commit(k) =>
      var p := s.calls[k];
      Finish(s.(memory := AfterAppend(s.memory, p.record)), k, Done(p.job, p.record))
    case KeyEvent(e) => s.(store := K.Step(s.store, e))
  }

  ghost predicate Feasible(g: Config, s: State, es: seq<Event>)
    decreases |es|
  {
    es == [] || (Enabled(s, es[0]) && Feasible(g, Step(g, s, es[0]), es[1..]))
  }

  ghost function Final(g: Config, s: State, es: seq<Event>): State
    requires Feasible(g, s, es)
    decreases |es|
  {
    if es == [] then s else Final(g, Step(g, s, es[0]), es[1..])
  }

  // ---------------------------------------------------------------------------
  // The lock
  // ---------------------------------------------------------------------------

  /** A promise in the chain has settled only after the one before it and its own. */
  predicate LockInv(s: State) {
    && |s.locks| == |s.calls|
    && (forall k | 0 <= k < |s.locks| :: s.locks[k].released <==> Released(s.calls[k]))
    && (forall k | 0 <= k < |s.locks| && s.locks[k].settled :: s.locks[k].released && PreviousSettled(s, k))
  }

  /** What a ticket awaits settles only once every earlier ticket has released. */
  lemma {:induction false} SettledMeansReleased(s: State, k: nat)
    requires LockInv(s) && k <= |s.locks| && PreviousSettled(s, k)
    ensures forall j | 0 <= j < k :: s.locks[j].settled && Released(s.calls[j])
  {
    if k > 0 {
      SettledMeansReleased(s, k - 1);
    }
  }

  /** Ticket k moves from phase to phase, its lock as it was or, at the end, released. */
  lemma {:induction false} MoveKeepsLockInv(s: State, s': State, k: nat)
    requires LockInv(s) && k < |s.calls| && !Released(s.calls[k])
    requires |s'.calls| == |s.calls| && |s'.locks| == |s.locks|
    requires s'.calls == s.calls[k := s'.calls[k]]
    requires s'.locks == s.locks[k := s.locks[k].(released := Released(s'.calls[k]))]
    ensures LockInv(s')
  {
    forall j | 0 <= j < |s'.locks| && s'.locks[j].settled ensures s'.locks[j].released && PreviousSettled(s', j) {
      assert s.locks[j].settled && PreviousSettled(s, j);
    }
  }

  lemma {:induction false} SettleKeepsLockInv(g: Config, s: State, k: nat)
    requires LockInv(s) && Enabled(s, Settle(k))
    ensures LockInv(Step(g, s, Settle(k)))
  {
    hide Released;
    var s' := Step(g, s, Settle(k));
    forall j | 0 <= j < |s'.locks| && s'.locks[j].settled ensures s'.locks[j].released && PreviousSettled(s', j) {
      assert j != k ==> s.locks[j].settled;
      assert PreviousSettled(s, j);
    }
  }

  lemma {:induction false} CallKeepsLockInv(g: Config, s: State, input: Input)
    requires LockInv(s)
    ensures LockInv(Step(g, s, Call(input)))
  {
    var s' := Step(g, s, Call(input));
    forall j | 0 <= j < |s'.locks| && s'.locks[j].settled ensures s'.locks[j].released && PreviousSettled(s', j) {
      assert PreviousSettled(s, j);
    }
  }

  lemma {:induction false} StepKeepsLockInv(g: Config, s: State, e: Event)
    requires LockInv(s) && Enabled(s, e)
    ensures LockInv(Step(g, s, e))
  {
    hide MakeRecord, AfterAppend, JobOf, K.Step, K.Permitted;
    match e
    case Call(input) => CallKeepsLockInv(g, s, input);
    case Settle(k) => SettleKeepsLockInv(g, s, k);
    case KeyEvent(_) =>
      hide Released;
      assert forall k | 0 <= k < |s.locks| :: PreviousSettled(s, k) <==> PreviousSettled(Step(g, s, e), k);
    case _ =>
      var k, s' := e.ticket, Step(g, s, e);
      assert s.calls[k] != s'.calls[k];
      hide LockInv;
      assert s.locks[k].(released := false) == s.locks[k] by { Unreleased(s, k); }
      MoveKeepsLockInv(s, s', k);
  }

  lemma Unreleased(s: State, k: nat)
    requires LockInv(s) && k < |s.locks| && !Released(s.calls[k])
    ensures !s.locks[k].released
  {
  }

  // ---------------------------------------------------------------------------
  // The chain
  // ---------------------------------------------------------------------------

  predicate Landed(p: Phase) {
    p.Written? || p.Done? || p.Torn?
  }

  function RecordsLanded(calls: seq<Phase>): seq<Record> {
    if calls == [] then []
    else
      var p := calls[|calls| - 1];
      RecordsLanded(calls[..|calls| - 1]) + (if Landed(p) then [p.record] else [])
  }

  /** The jobs whose line is in the file, in ticket order. */
  function JobsLanded(calls: seq<Phase>): seq<Job> {
    if calls == [] then []
    else
      var p := calls[|calls| - 1];
      JobsLanded(calls[..|calls| - 1]) + (if Landed(p) then [p.job] else [])
  }

  /** The jobs whose call has returned its record. */
  function JobsDone(calls: seq<Phase>): seq<Job> {
    if calls == [] then []
    else
      var p := calls[|calls| - 1];
      JobsDone(calls[..|calls| - 1]) + (if p.Done? then [p.job] else [])
  }

  function FileOf(g: Config, calls: seq<Phase>): seq<Record> {
    g.base + RecordsLanded(calls)
  }

  /** The jobs appended one after the other to the file that was opened. */
  function Run(g: Config, jobs: seq<Job>): seq<Record> {
    SequentialRun(g.chain.crypto, g.chain.tenant, g.base, jobs)
  }

  /** A call that has left the queue has every earlier call behind it, finished. */
  predicate InTicketOrder(calls: seq<Phase>) {
    forall j, k | 0 <= j < k < |calls| :: calls[k].Queued? || Released(calls[j])
  }

  /** A record is made from the memory that the calls done before it left. */
  predicate RecordFits(g: Config, calls: seq<Phase>, k: nat)
    requires k < |calls|
  {
    var p := calls[k];
    p.Writing? || Landed(p) ==>
      p.record == MakeRecord(g.chain.crypto, MemoryOf(Run(g, JobsDone(calls[..k]))), p.job, g.chain.tenant)
  }

  predicate CallsFit(g: Config, calls: seq<Phase>) {
    InTicketOrder(calls) && forall k | 0 <= k < |calls| :: RecordFits(g, calls, k)
  }

  predicate ChainInv(g: Config, s: State) {
    && CallsFit(g, s.calls)
    && s.file == FileOf(g, s.calls)
    && s.memory == MemoryOf(Run(g, JobsDone(s.calls)))
  }

  predicate Inv(g: Config, s: State) {
    LockInv(s) && ChainInv(g, s)
  }

  lemma {:induction false} QueuedAddNothing(calls: seq<Phase>, k: nat)
    requires k <= |calls| && forall j | k <= j < |calls| :: calls[j].Queued?
    ensures RecordsLanded(calls) == RecordsLanded(calls[..k]) && JobsDone(calls) == JobsDone(calls[..k])
  {
    var n := |calls| - 1;
    if k <= n {
      QueuedAddNothing(calls[..n], k);
      assert calls[..n][..k] == calls[..k];
    } else {
      assert calls[..k] == calls;
    }
  }

  /** Only the last call out of the queue moves, so what it adds comes at the end. */
  lemma {:induction false} LastOut(calls: seq<Phase>, k: nat)
    requires k < |calls| && forall j | k < j < |calls| :: calls[j].Queued?
    ensures RecordsLanded(calls) == RecordsLanded(calls[..k]) + if Landed(calls[k]) then [calls[k].record] else []
    ensures JobsDone(calls) == JobsDone(calls[..k]) + if calls[k].Done? then [calls[k].job] else []
  {
    QueuedAddNothing(calls, k + 1);
    assert calls[..k + 1][..k] == calls[..k];
  }

  lemma OthersIdle(g: Config, calls: seq<Phase>, k: nat)
    requires InTicketOrder(calls) && k < |calls| && !Released(calls[k])
    requires calls[k].Queued? ==> forall j | 0 <= j < k :: Released(calls[j])
    ensures forall j | 0 <= j < k :: Released(calls[j])
    ensures forall j | k < j < |calls| :: calls[j].Queued?
  {
  }

  /** What one call's change of phase keeps and adds. */
  lemma {:induction false} MoveKeepsCallsFit(g: Config, calls: seq<Phase>, k: nat, p: Phase)
    requires CallsFit(g, calls) && k < |calls| && !Released(calls[k]) && !p.Queued?
    requires calls[k].Queued? ==> forall j | 0 <= j < k :: Released(calls[j])
    requires p.Writing? || Landed(p) ==>
      p.record == MakeRecord(g.chain.crypto, MemoryOf(Run(g, JobsDone(calls[..k]))), p.job, g.chain.tenant)
    ensures CallsFit(g, calls[k := p])
    ensures RecordsLanded(calls[k := p]) == RecordsLanded(calls[..k]) + if Landed(p) then [p.record] else []
    ensures JobsDone(calls[k := p]) == JobsDone(calls[..k]) + if p.Done? then [p.job] else []
  {
    hide MakeRecord, MemoryOf, Run;
    var calls' := calls[k := p];
    OthersIdle(g, calls, k);
    assert forall j | k < j < |calls'| :: calls'[j] == calls[j];
    LastOut(calls', k);
    assert calls'[..k] == calls[..k];
    forall j | 0 <= j < |calls'| ensures RecordFits(g, calls', j) {
      assert j < k ==> calls'[..j] == calls[..j];
      assert j != k ==> calls'[j] == calls[j] && RecordFits(g, calls, j);
    }
  }

  /** What is in the file and in memory while ticket k is the last one out of the queue. */
  lemma {:induction false} LastOutInv(g: Config, s: State, k: nat)
    requires ChainInv(g, s) && k < |s.calls| && !Released(s.calls[k])
    requires s.calls[k].Queued? ==> forall j | 0 <= j < k :: Released(s.calls[j])
    ensures s.file == g.base + RecordsLanded(s.calls[..k]) + if s.calls[k].Written? then [s.calls[k].record] else []
    ensures s.memory == MemoryOf(Run(g, JobsDone(s.calls[..k])))
    ensures RecordFits(g, s.calls, k)
  {
    hide MakeRecord, MemoryOf, Run;
    OthersIdle(g, s.calls, k);
    LastOut(s.calls, k);
    assert JobsDone(s.calls) == JobsDone(s.calls[..k]);
  }

  lemma {:induction false} CommitKeepsInv(g: Config, s: State, k: nat)
    requires ChainInv(g, s) && Enabled(s, Commit(k))
    ensures ChainInv(g, Step(g, s, Commit(k)))
  {
    hide MakeRecord, MemoryOf, AfterAppend;
    LastOutInv(g, s, k);
    var p, before := s.calls[k], JobsDone(s.calls[..k]);
    SequentialRunStep(g.chain.crypto, g.chain.tenant, g.base, before, p.job);
    assert Run(g, before + [p.job]) == Run(g, before) + [p.record];
    AdoptedMemory(Run(g, before), p.record);
    hide Run, CallsFit, RecordFits, JobsDone, RecordsLanded;
    MoveKeepsCallsFit(g, s.calls, k, Done(p.job, p.record));
  }

  /** A call leaves the queue, or its write ends one way or another. */
  lemma {:induction false} MoveKeepsInv(g: Config, s: State, s': State, k: nat, p: Phase)
    requires ChainInv(g, s) && k < |s.calls| && (s.calls[k].Queued? || s.calls[k].Writing?)
    requires s.calls[k].Queued? ==> forall j | 0 <= j < k :: Released(s.calls[j])
    requires if s.calls[k].Queued?
      then p.Failed? || (p.Writing? && p.record == MakeRecord(g.chain.crypto, s.memory, p.job, g.chain.tenant))
      else p.Failed? || ((p.Written? || p.Torn?) && p.job == s.calls[k].job && p.record == s.calls[k].record)
    requires s'.calls == s.calls[k := p] && s'.memory == s.memory
    requires s'.file == s.file + if Landed(p) then [p.record] else []
    ensures ChainInv(g, s')
  {
    hide MakeRecord, MemoryOf;
    LastOutInv(g, s, k);
    hide Run, CallsFit, JobsDone, RecordsLanded;
    MoveKeepsCallsFit(g, s.calls, k, p);
    assert JobsDone(s'.calls) == JobsDone(s.calls[..k]);
    assert s'.file == FileOf(g, s'.calls);
  }

  /** Adopting a record makes memory describe the chain with it. */
  lemma AdoptedMemory(rs: seq<Record>, r: Record)
    ensures AfterAppend(MemoryOf(rs), r) == MemoryOf(rs + [r])
  {
  }

  lemma {:induction false} CallKeepsInv(g: Config, s: State, input: Input)
    requires ChainInv(g, s)
    ensures ChainInv(g, Step(g, s, Call(input)))
  {
    hide MakeRecord, MemoryOf, Run;
    var s' := Step(g, s, Call(input));
    assert s'.calls[..|s.calls|] == s.calls;
    QueuedAddNothing(s'.calls, |s.calls|);
    forall j | 0 <= j < |s'.calls| ensures RecordFits(g, s'.calls, j) {
      assert j < |s.calls| ==> s'.calls[..j] == s.calls[..j] && RecordFits(g, s.calls, j);
    }
  }

  lemma {:induction false} StepKeepsChainInv(g: Config, s: State, e: Event)
    requires LockInv(s) && ChainInv(g, s) && Enabled(s, e)
    ensures ChainInv(g, Step(g, s, e))
  {
    hide K.Step, K.Permitted, JobOf, MemoryOf, Run;
    match e
    case Call(input) => CallKeepsInv(g, s, input);
    case Commit(k) => CommitKeepsInv(g, s, k);
    case Settle(_) =>
    case KeyEvent(_) =>
    case _ =>
      var k := e.ticket;
      if s.calls[k].Queued? {
        SettledMeansReleased(s, k);
      }
      hide LockInv, ChainInv, MakeRecord;
      MoveKeepsInv(g, s, Step(g, s, e), k, Step(g, s, e).calls[k]);
  }

  lemma {:induction false} StepKeepsInv(g: Config, s: State, e: Event)
    requires Inv(g, s) && Enabled(s, e)
    ensures Inv(g, Step(g, s, e))
  {
    hide Step, Enabled, LockInv, ChainInv;
    StepKeepsLockInv(g, s, e);
    StepKeepsChainInv(g, s, e);
  }

  /** After init on the file `base`, with no append under way. */
  function Started(g: Config, store: K.Store): State {
    State(g.base, MemoryOf(g.base), store, [], [])
  }

  lemma {:induction false} RunsKeepInv(g: Config, s: State, es: seq<Event>)
    requires Inv(g, s) && Feasible(g, s, es)
    ensures Inv(g, Final(g, s, es))
    decreases |es|
  {
    hide Inv, Step, Enabled;
    if es != [] {
      StepKeepsInv(g, s, es[0]);
      RunsKeepInv(g, Step(g, s, es[0]), es[1..]);
    }
  }

  lemma StartedInv(g: Config, store: K.Store)
    ensures Inv(g, Started(g, store))
  {
  }

  /** At most one append is in its critical section. */
  lemma {:induction false} MutualExclusion(g: Config, store: K.Store, es: seq<Event>, j: nat, k: nat)
    requires Feasible(g, Started(g, store), es)
    requires var calls := Final(g, Started(g, store), es).calls;
      j < |calls| && k < |calls| && InCriticalSection(calls[j]) && InCriticalSection(calls[k])
    ensures j == k
  {
    hide Feasible, Final, LockInv, RecordFits, FileOf, Run;
    StartedInv(g, store);
    RunsKeepInv(g, Started(g, store), es);
    var s := Final(g, Started(g, store), es);
    OthersIdle(g, s.calls, j);
    OthersIdle(g, s.calls, k);
  }

  predicate TornIn(calls: seq<Phase>) {
    exists j :: 0 <= j < |calls| && calls[j].Torn?
  }

  /** No line lands after a torn one. */
  predicate TornLandsLast(calls: seq<Phase>) {
    forall j, k | 0 <= j < k < |calls| && calls[j].Torn? :: !Landed(calls[k])
  }

  predicate NoneWritten(calls: seq<Phase>) {
    forall k | 0 <= k < |calls| :: !calls[k].Written?
  }

  lemma {:induction false} EarlierCallsFit(g: Config, calls: seq<Phase>)
    requires calls != [] && CallsFit(g, calls)
    ensures var init := calls[..|calls| - 1];
      && CallsFit(g, init) && (TornLandsLast(calls) ==> TornLandsLast(init))
      && (Landed(calls[|calls| - 1]) ==> NoneWritten(init) && (TornLandsLast(calls) ==> !TornIn(init)))
  {
    hide MakeRecord, MemoryOf, Run;
    var init := calls[..|calls| - 1];
    assert forall k | 0 <= k < |init| :: init[k] == calls[k];
    forall k | 0 <= k < |init| ensures RecordFits(g, init, k) {
      assert init[..k] == calls[..k] && RecordFits(g, calls, k);
    }
  }

  /** What memory lacks of the file while no line has landed after a torn one: the torn line. */
  lemma {:induction false} KeptJobs(g: Config, calls: seq<Phase>)
    requires CallsFit(g, calls) && TornLandsLast(calls) && NoneWritten(calls)
    ensures !TornIn(calls) ==> JobsLanded(calls) == JobsDone(calls)
    ensures TornIn(calls) ==>
      JobsLanded(calls) != [] && JobsDone(calls) == JobsLanded(calls)[..|JobsLanded(calls)| - 1]
  {
    if calls != [] {
      EarlierCallsFit(g, calls);
      LastIn(calls);
      hide CallsFit, TornLandsLast, JobsLanded, JobsDone;
      KeptJobs(g, calls[..|calls| - 1]);
    }
  }

  lemma RunStep(g: Config, jobs: seq<Job>, job: Job)
    ensures Run(g, jobs + [job]) ==
            Run(g, jobs) + [MakeRecord(g.chain.crypto, MemoryOf(Run(g, jobs)), job, g.chain.tenant)]
  {
    SequentialRunStep(g.chain.crypto, g.chain.tenant, g.base, jobs, job);
  }

  /** What the file is while no line has landed after a torn one. */
  lemma {:induction false} FileShape(g: Config, calls: seq<Phase>)
    requires CallsFit(g, calls) && TornLandsLast(calls)
    ensures FileOf(g, calls) == Run(g, JobsLanded(calls))
  {
    if calls == [] {
      assert g.base + [] == g.base;
    } else {
      EarlierCallsFit(g, calls);
      FileShape(g, calls[..|calls| - 1]);
      hide MakeRecord, MemoryOf, Run, CallsFit, FileOf;
      LastLanding(g, calls);
    }
  }

  lemma LastLanding(g: Config, calls: seq<Phase>)
    requires calls != [] && CallsFit(g, calls) && TornLandsLast(calls)
    requires var init := calls[..|calls| - 1]; FileOf(g, init) == Run(g, JobsLanded(init))
    ensures FileOf(g, calls) == Run(g, JobsLanded(calls))
  {
    var n := |calls| - 1;
    var init, p := calls[..n], calls[n];
    EarlierCallsFit(g, calls);
    LastIn(calls);
    assert RecordFits(g, calls, n);
    hide MakeRecord, MemoryOf, Run, CallsFit, TornLandsLast, JobsLanded, JobsDone, RecordsLanded;
    if Landed(p) {
      KeptJobs(g, init);
      RunStep(g, JobsLanded(init), p.job);
      assert FileOf(g, calls) == FileOf(g, init) + [p.record];
    } else {
      assert FileOf(g, calls) == FileOf(g, init);
      assert JobsLanded(calls) == JobsLanded(init);
    }
  }

  lemma LastIn(calls: seq<Phase>)
    requires calls != []
    ensures var init, p := calls[..|calls| - 1], calls[|calls| - 1];
      && RecordsLanded(calls) == RecordsLanded(init) + (if Landed(p) then [p.record] else [])
      && JobsLanded(calls) == JobsLanded(init) + (if Landed(p) then [p.job] else [])
      && JobsDone(calls) == JobsDone(init) + (if p.Done? then [p.job] else [])
      && (TornIn(calls) <==> TornIn(init) || p.Torn?)
      && (NoneWritten(calls) <==> NoneWritten(init) && !p.Written?)
  {
    assert calls == calls[..|calls| - 1] + [calls[|calls| - 1]];
  }

  lemma {:induction false} LinkedExactly(g: Config, calls: seq<Phase>)
    requires CallsFit(g, calls) && Linked(g.chain.crypto, g.base)
    ensures Linked(g.chain.crypto, FileOf(g, calls)) <==> TornLandsLast(calls)
  {
    hide Linked, MakeRecord, MemoryOf;
    if TornLandsLast(calls) {
      FileShape(g, calls);
      SequentialRunLinked(g.chain.crypto, g.chain.tenant, g.base, JobsLanded(calls));
    } else {
      var n := |calls| - 1;
      var init, p := calls[..n], calls[n];
      assert calls == init + [p];
      EarlierCallsFit(g, calls);
      LinkedExactly(g, init);
      assert RecordFits(g, calls, n);
      if Landed(p) {
        assert FileOf(g, calls) == FileOf(g, init) + [p.record];
        LinkedSplit(g.chain.crypto, FileOf(g, init), p.record);
        if TornLandsLast(init) {
          FileShape(g, init);
          KeptJobs(g, init);
          TornIsBuried(g, JobsLanded(init), p.job);
        }
      } else {
        assert FileOf(g, calls) == FileOf(g, init);
      }
    }
  }

  /** A record made from memory that lacks the last line does not fit behind that line. */
  lemma {:induction false} TornIsBuried(g: Config, jobs: seq<Job>, next: Job)
    requires Linked(g.chain.crypto, g.base) && jobs != []
    ensures var kept := Run(g, jobs[..|jobs| - 1]);
      !Linked(g.chain.crypto, Run(g, jobs) + [MakeRecord(g.chain.crypto, MemoryOf(kept), next, g.chain.tenant)])
  {
    hide Linked, MakeRecord, MemoryOf;
    var front, torn := jobs[..|jobs| - 1], jobs[|jobs| - 1];
    SequentialRunLinked(g.chain.crypto, g.chain.tenant, g.base, front);
    TornWriteBreaksTheNextAppend(g.chain.crypto, Run(g, front), torn, next, g.chain.tenant);
  }

  /**
   * However the calls and the key events interleave, memory is that of the appends that
   * returned, run one by one in ticket order. As long as no line lands after a torn one
   * the file is that of the appends that landed; and a file that was linked when it was
   * opened stays linked exactly as long.
   */
  lemma {:induction false} AppendsLinearize(g: Config, store: K.Store, es: seq<Event>)
    requires Feasible(g, Started(g, store), es)
    ensures var s := Final(g, Started(g, store), es);
      && s.memory == MemoryOf(Run(g, JobsDone(s.calls)))
      && (TornLandsLast(s.calls) ==> s.file == Run(g, JobsLanded(s.calls)))
      && (Linked(g.chain.crypto, g.base) ==> (Linked(g.chain.crypto, s.file) <==> TornLandsLast(s.calls)))
  {
    StartedInv(g, store);
    RunsKeepInv(g, Started(g, store), es);
    var s := Final(g, Started(g, store), es);
    hide Feasible, Final, Linked, LockInv, Started, CallsFit, TornLandsLast, MemoryOf, Run, FileOf;
    if TornLandsLast(s.calls) {
      FileShape(g, s.calls);
    }
    if Linked(g.chain.crypto, g.base) {
      LinkedExactly(g, s.calls);
    }
  }

  /**
   * And the file is the one that was opened with the landed records in ticket order, each
   * of which says, key by key, what its call was made with, at the position that the
   * calls done before it left.
   */
  lemma {:induction false} LandedRecordsCarry(g: Config, store: K.Store, es: seq<Event>, k: nat)
    requires Feasible(g, Started(g, store), es)
    ensures var s := Final(g, Started(g, store), es);
      && s.file == g.base + RecordsLanded(s.calls)
      && (k < |s.calls| && Landed(s.calls[k]) ==>
            Carries(s.calls[k].record.payload, MemoryOf(Run(g, JobsDone(s.calls[..k]))),
                    s.calls[k].job.input, s.calls[k].job.timestamp, g.chain.tenant))
  {
    StartedInv(g, store);
    RunsKeepInv(g, Started(g, store), es);
    var s := Final(g, Started(g, store), es);
    hide Feasible, Final, LockInv, Started, MemoryOf, Run, Carries, MakeRecord, InTicketOrder;
    if k < |s.calls| && Landed(s.calls[k]) {
      assert RecordFits(g, s.calls, k);
      RecordCarries(g.chain.crypto, MemoryOf(Run(g, JobsDone(s.calls[..k]))), s.calls[k].job, g.chain.tenant);
    }
  }

  /** The inputs of the calls, in call order. */
  function CalledWith(es: seq<Event>): seq<Input> {
    if es == [] then [] else (if es[0].Call? then [es[0].input] else []) + CalledWith(es[1..])
  }

  function InputOf(p: Phase): Option<Input> {
    match p
    case Queued(input) => Some(input)
    case Failed => None
    case _ => Some(p.job.input)
  }

  /** The tickets that entered the critical section, and when. */
  function Entries(es: seq<Event>): set<(nat, Text)> {
    set e | e in es && e.Enter? :: (e.ticket, e.timestamp)
  }

  /** Every call that has not failed has its own input, and the time at which it entered. */
  ghost predicate CallsMatch(calls: seq<Phase>, inputs: seq<Input>, entries: set<(nat, Text)>) {
    && |calls| == |inputs|
    && (forall k | 0 <= k < |calls| :: InputOf(calls[k]).Some? ==> InputOf(calls[k]) == Some(inputs[k]))
    && (forall k | 0 <= k < |calls| :: calls[k].Queued? || calls[k].Failed? || (k, calls[k].job.timestamp) in entries)
  }

  lemma {:induction false} StepKeepsInputs(g: Config, s: State, e: Event, inputs: seq<Input>, entries: set<(nat, Text)>)
    requires Enabled(s, e) && CallsMatch(s.calls, inputs, entries)
    ensures CallsMatch(Step(g, s, e).calls, inputs + (if e.Call? then [e.input] else []), entries + Entries([e]))
  {
    hide MakeRecord, AfterAppend, S.SignerFor, K.Step, K.Permitted;
    if e.Enter? {
      assert (e.ticket, e.timestamp) in Entries([e]);
    }
  }

  /** Ticket k is the k-th call, and keeps what it was called with until it fails or lands. */
  lemma {:induction false} TicketsAreCalls(g: Config, s: State, es: seq<Event>, inputs: seq<Input>, entries: set<(nat, Text)>)
    requires Feasible(g, s, es) && CallsMatch(s.calls, inputs, entries)
    ensures CallsMatch(Final(g, s, es).calls, inputs + CalledWith(es), entries + Entries(es))
    decreases |es|
  {
    hide Step, Enabled, CallsMatch;
    if es == [] {
      assert inputs + [] == inputs && entries + Entries(es) == entries;
    } else {
      var now := if es[0].Call? then [es[0].input] else [];
      StepKeepsInputs(g, s, es[0], inputs, entries);
      TicketsAreCalls(g, Step(g, s, es[0]), es[1..], inputs + now, entries + Entries([es[0]]));
      assert inputs + now + CalledWith(es[1..]) == inputs + CalledWith(es);
      EntriesSplit(es);
    }
  }

  lemma EntriesSplit(es: seq<Event>)
    requires es != []
    ensures forall entries: set<(nat, Text)> :: entries + Entries([es[0]]) + Entries(es[1..]) == entries + Entries(es)
  {
    assert es == [es[0]] + es[1..];
    assert Entries(es) == Entries([es[0]]) + Entries(es[1..]);
  }

  // ---------------------------------------------------------------------------
  // The lock cannot be lost
  // ---------------------------------------------------------------------------

  /** Once every earlier ticket has released, whether its append worked or not, ticket k gets in. */
  lemma {:induction false} EntersAfterReleases(g: Config, s: State, k: nat, m: nat) returns (es: seq<Event>)
    requires LockInv(s) && m <= k < |s.calls| && s.calls[k].Queued?
    requires forall j | 0 <= j < k :: Released(s.calls[j])
    requires forall j | 0 <= j < m :: s.locks[j].settled
    ensures |es| <= k - m && (forall e | e in es :: e.Settle?)
    ensures Feasible(g, s, es)
    ensures forall t :: Enabled(Final(g, s, es), Enter(k, t))
    decreases k - m
  {
    hide K.Step, K.Permitted, MakeRecord, AfterAppend, JobOf;
    if m == k {
      es := [];
    } else if s.locks[m].settled {
      es := EntersAfterReleases(g, s, k, m + 1);
    } else {
      StepKeepsLockInv(g, s, Settle(m));
      var rest := EntersAfterReleases(g, Step(g, s, Settle(m)), k, m + 1);
      es := [Settle(m)] + rest;
      assert es[1..] == rest;
    }
  }

  /** An event of the calls and the lock themselves. */
  predicate Internal(e: Event) {
    !e.Call? && !e.KeyEvent?
  }

  function PhaseWork(p: Phase): nat {
    match p
    case Queued(_) => 3
    case Writing(_, _) => 2
    case Written(_, _) => 1
    case _ => 0
  }

  function CallWork(calls: seq<Phase>): nat {
    if calls == [] then 0 else CallWork(calls[..|calls| - 1]) + PhaseWork(calls[|calls| - 1])
  }

  function LockWork(locks: seq<Lock>): nat {
    if locks == [] then 0 else LockWork(locks[..|locks| - 1]) + if locks[|locks| - 1].settled then 0 else 1
  }

  /** The steps the calls under way can still take. */
  function Work(s: State): nat {
    CallWork(s.calls) + LockWork(s.locks)
  }

  lemma {:induction false} CallWorkUpdate(calls: seq<Phase>, k: nat, p: Phase)
    requires k < |calls|
    ensures CallWork(calls[k := p]) + PhaseWork(calls[k]) == CallWork(calls) + PhaseWork(p)
  {
    hide PhaseWork;
    var n := |calls| - 1;
    if k < n {
      CallWorkUpdate(calls[..n], k, p);
      assert calls[k := p][..n] == calls[..n][k := p];
    } else {
      assert calls[k := p][..n] == calls[..n];
    }
  }

  lemma {:induction false} LockWorkUpdate(locks: seq<Lock>, k: nat, l: Lock)
    requires k < |locks|
    ensures LockWork(locks[k := l]) + (if locks[k].settled then 0 else 1) == LockWork(locks) + if l.settled then 0 else 1
  {
    var n := |locks| - 1;
    if k < n {
      LockWorkUpdate(locks[..n], k, l);
      assert locks[k := l][..n] == locks[..n][k := l];
    } else {
      assert locks[k := l][..n] == locks[..n];
    }
  }

  lemma {:induction false} InternalStepsWork(g: Config, s: State, e: Event)
    requires Enabled(s, e)
    ensures Internal(e) ==> Work(Step(g, s, e)) < Work(s)
    ensures e.KeyEvent? ==> Work(Step(g, s, e)) == Work(s)
  {
    hide CallWork, LockWork, MakeRecord, AfterAppend, JobOf, K.Step, K.Permitted;
    var s' := Step(g, s, e);
    if Internal(e) {
      var k := e.ticket;
      if !e.Settle? {
        CallWorkUpdate(s.calls, k, s'.calls[k]);
      }
      if k < |s.locks| {
        LockWorkUpdate(s.locks, k, s'.locks[k]);
        assert s.locks[k := s.locks[k]] == s.locks;
      }
    }
  }

  /** As long as a call has not released, some call or the lock can take a step. */
  lemma {:induction false} NeverDeadlocked(g: Config, s: State, k: nat) returns (e: Event)
    requires LockInv(s) && k < |s.calls| && !Released(s.calls[k])
    ensures Internal(e) && Enabled(s, e)
    decreases k
  {
    if j :| 0 <= j < k && !Released(s.calls[j]) {
      e := NeverDeadlocked(g, s, j);
    } else if s.calls[k].Writing? {
      e := WriteFail(k);
    } else if s.calls[k].Written? {
      e := Commit(k);
    } else {
      e := FirstUnsettled(s, k);
    }
  }

  lemma {:induction false} FirstUnsettled(s: State, k: nat) returns (e: Event)
    requires LockInv(s) && k < |s.calls| && s.calls[k].Queued?
    requires forall j | 0 <= j < k :: Released(s.calls[j])
    ensures Internal(e) && Enabled(s, e)
  {
    if PreviousSettled(s, k) {
      e := Enter(k, []);
    } else {
      var j := k - 1;
      while !PreviousSettled(s, j)
        invariant 0 <= j < k && !s.locks[j].settled
        decreases j
      {
        j := j - 1;
      }
      e := Settle(j);
    }
  }

  function InternalCount(es: seq<Event>): nat {
    if es == [] then 0 else (if Internal(es[0]) then 1 else 0) + InternalCount(es[1..])
  }

  /**
   * With no further calls, the appends under way take a bounded number of steps, whatever
   * happens to the keys; and when none of them can take another, all have released.
   */
  lemma {:induction false} AppendsFinish(g: Config, s: State, es: seq<Event>)
    requires LockInv(s) && Feasible(g, s, es) && forall e | e in es :: !e.Call?
    ensures InternalCount(es) + Work(Final(g, s, es)) <= Work(s)
    ensures (forall e | Internal(e) :: !Enabled(Final(g, s, es), e)) ==>
              forall k | 0 <= k < |Final(g, s, es).calls| :: Released(Final(g, s, es).calls[k])
    decreases |es|
  {
    hide Step, Work, LockInv, Enabled;
    if es == [] {
      if k: nat :| k < |s.calls| && !Released(s.calls[k]) {
        var e := NeverDeadlocked(g, s, k);
      }
    } else {
      var s' := Step(g, s, es[0]);
      assert es[0] in es;
      StepKeepsLockInv(g, s, es[0]);
      InternalStepsWork(g, s, es[0]);
      AppendsFinish(g, s', es[1..]);
    }
  }

  // ---------------------------------------------------------------------------
  // Signatures
  // ---------------------------------------------------------------------------

  /** Every record in the file, and the one about to be written, carries the MAC of its key. */
  ghost predicate KeysInv(g: Config, s: State) {
    && K.Inv(s.store)
    && (forall i | 0 <= i < |s.file| :: S.Attested(g.chain, s.store, s.file[i]))
    && (forall k | 0 <= k < |s.calls| && s.calls[k].Writing? :: S.Attested(g.chain, s.store, s.calls[k].record))
  }

  lemma {:induction false} StepKeepsKeysInv(g: Config, s: State, e: Event)
    requires KeysInv(g, s) && Enabled(s, e)
    ensures KeysInv(g, Step(g, s, e))
  {
    hide K.Inv, K.Step, K.Permitted, S.Attested, MakeRecord, AfterAppend, S.SignerFor;
    var s' := Step(g, s, e);
    match e
    case Enter(k, timestamp) => S.NewRecordAttested(g.chain, s.store, s.memory, s.calls[k].input, timestamp);
    case KeyEvent(ke) =>
      K.StepKeepsInv(s.store, ke);
      forall i | 0 <= i < |s'.file| ensures S.Attested(g.chain, s'.store, s'.file[i]) {
        S.AttestedAfterKeyEvent(g.chain, s.store, ke, s.file[i]);
      }
      forall k | 0 <= k < |s'.calls| && s'.calls[k].Writing?
        ensures S.Attested(g.chain, s'.store, s'.calls[k].record)
      {
        S.AttestedAfterKeyEvent(g.chain, s.store, ke, s.calls[k].record);
      }
    case _ =>
  }

  lemma {:induction false} RunsKeepKeysInv(g: Config, s: State, es: seq<Event>)
    requires KeysInv(g, s) && Feasible(g, s, es)
    ensures KeysInv(g, Final(g, s, es))
    decreases |es|
  {
    hide KeysInv, Step, Enabled;
    if es != [] {
      StepKeepsKeysInv(g, s, es[0]);
      RunsKeepKeysInv(g, Step(g, s, es[0]), es[1..]);
    }
  }

  /** The file opened is linked and signed under keys of the store. */
  ghost predicate OpenedWell(g: Config, store: K.Store) {
    S.Inv(g.chain, S.State(store, g.base))
  }

  ghost function KeysOf(g: Config, s: State): Keys {
    Keys(Some(s.store), g.chain.fallback)
  }

  /**
   * Keys may be provisioned, rotated, archived, revoked and re-wrapped between any two
   * steps of overlapping appends: the file is linked exactly while no line lands after a
   * torn one, and verification passes every signature exactly when the key of each
   * record opens under the KEK in force.
   */
  lemma {:induction false} AppendsVerifyExactly(g: Config, store: K.Store, es: seq<Event>)
    requires OpenedWell(g, store) && Feasible(g, Started(g, store), es)
    ensures var s := Final(g, Started(g, store), es);
      && (Linked(g.chain.crypto, s.file) <==> TornLandsLast(s.calls))
      && (AllSigned(g.chain.crypto, KeysOf(g, s), s.file) <==>
          forall i | 0 <= i < |s.file| :: S.KeyOpens(s.store, s.file[i]))
  {
    hide Feasible, Final, Linked, S.Attested, S.KeyOpens, CheckHmac, K.Inv, TornLandsLast, Run, MemoryOf;
    StartedKeysInv(g, store);
    AppendsLinearize(g, store, es);
    RunsKeepKeysInv(g, Started(g, store), es);
    var s := Final(g, Started(g, store), es);
    forall i | 0 <= i < |s.file|
      ensures CheckHmac(g.chain.crypto, KeysOf(g, s), s.file[i]) == if S.KeyOpens(s.store, s.file[i]) then Passes else Throws
    {
      S.AttestedPassesExactly(g.chain, s.store, s.file[i]);
    }
  }

  lemma StartedKeysInv(g: Config, store: K.Store)
    requires OpenedWell(g, store)
    ensures KeysInv(g, Started(g, store)) && Linked(g.chain.crypto, g.base)
  {
    hide K.Inv, Linked, S.Attested;
  }

  /** No KEK rotation takes effect while the store holds a revoked key. */
  ghost predicate NoRotationPastRevocation(g: Config, s: State, es: seq<Event>)
    requires Feasible(g, s, es)
    decreases |es|
  {
    es == [] ||
    (&& (es[0].KeyEvent? && K.RotatesKek(s.store, es[0].e) ==>
           forall k | k in s.store.rows :: s.store.rows[k].state != K.Revoked)
     && NoRotationPastRevocation(g, Step(g, s, es[0]), es[1..]))
  }

  lemma {:induction false} RowsStayOpenOverRuns(g: Config, s: State, es: seq<Event>)
    requires KeysInv(g, s) && Feasible(g, s, es) && S.AllRowsOpen(s.store) && NoRotationPastRevocation(g, s, es)
    ensures S.AllRowsOpen(Final(g, s, es).store)
    decreases |es|
  {
    hide S.AllRowsOpen, S.Attested, K.Inv, K.Step, K.Permitted, MakeRecord, AfterAppend, JobOf, KeysInv;
    if es != [] {
      StepKeepsKeysInv(g, s, es[0]);
      if es[0].KeyEvent? {
        StoreKeptWell(g, s);
        S.RowsStayOpen(s.store, es[0].e);
      }
      RowsStayOpenOverRuns(g, Step(g, s, es[0]), es[1..]);
    }
  }

  lemma StoreKeptWell(g: Config, s: State)
    requires KeysInv(g, s)
    ensures K.Inv(s.store)
  {
  }

  lemma {:induction false} AllKeysOpen(g: Config, store: K.Store, es: seq<Event>)
    requires OpenedWell(g, store) && Feasible(g, Started(g, store), es)
    requires S.AllRowsOpen(store) && NoRotationPastRevocation(g, Started(g, store), es)
    ensures var s := Final(g, Started(g, store), es); forall i | 0 <= i < |s.file| :: S.KeyOpens(s.store, s.file[i])
  {
    hide Feasible, Final, NoRotationPastRevocation, Linked, K.Inv;
    StartedKeysInv(g, store);
    RunsKeepKeysInv(g, Started(g, store), es);
    RowsStayOpenOverRuns(g, Started(g, store), es);
    var s := Final(g, Started(g, store), es);
    forall i | 0 <= i < |s.file| ensures S.KeyOpens(s.store, s.file[i]) {
      assert S.Attested(g.chain, s.store, s.file[i]);
    }
  }

  /**
   * So, as long as no KEK rotation follows a revocation, verify stays ok through any
   * overlapping appends exactly while no line lands after a torn one.
   */
  lemma {:induction false} VerifyStaysOkWhileAppending(g: Config, store: K.Store, es: seq<Event>)
    requires OpenedWell(g, store) && Feasible(g, Started(g, store), es)
    requires S.AllRowsOpen(store) && NoRotationPastRevocation(g, Started(g, store), es)
    ensures var s := Final(g, Started(g, store), es);
      ErrorsIn(g.chain.crypto, KeysOf(g, s), s.file) == [] <==> TornLandsLast(s.calls)
  {
    hide Feasible, Final, NoRotationPastRevocation, Linked, OpenedWell, S.AllRowsOpen, CheckHmac, Started, TornLandsLast;
    AppendsVerifyExactly(g, store, es);
    AllKeysOpen(g, store, es);
    var s := Final(g, Started(g, store), es);
    NoErrorsMeansIntact(g.chain.crypto, KeysOf(g, s), s.file);
  }

  // ---------------------------------------------------------------------------
  // Recovery
  // ---------------------------------------------------------------------------

  predicate AtRest(s: State) {
    forall k | 0 <= k < |s.calls| :: !InCriticalSection(s.calls[k])
  }

  predicate OwnDigests(c: Crypto, r: Record) {
    r.id == IdOf(c, r.payload) && r.chainHash == ChainHashOf(c, r.payload.previousChainHash, r.id)
  }

  lemma MadeRecordOwnDigests(c: Crypto, m: Memory, job: Job, tenant: Option<Text>)
    ensures OwnDigests(c, MakeRecord(c, m, job, tenant))
  {
    hide IdOf, ChainHashOf, SignedText;
  }

  lemma {:induction false} FileOwnDigests(g: Config, calls: seq<Phase>)
    requires CallsFit(g, calls) && Linked(g.chain.crypto, g.base)
    ensures forall r | r in FileOf(g, calls) :: OwnDigests(g.chain.crypto, r)
  {
    hide MakeRecord, MemoryOf, IdOf, ChainHashOf, Run;
    if calls == [] {
      forall i | 0 <= i < |g.base| ensures OwnDigests(g.chain.crypto, g.base[i]) {
        assert LinkedAt(g.chain.crypto, g.base, i);
      }
    } else {
      var n := |calls| - 1;
      EarlierCallsFit(g, calls);
      FileOwnDigests(g, calls[..n]);
      assert RecordFits(g, calls, n);
      if Landed(calls[n]) {
        MadeRecordOwnDigests(g.chain.crypto, MemoryOf(Run(g, JobsDone(calls[..n]))), calls[n].job, g.chain.tenant);
      }
    }
  }

  lemma {:induction false} RunLength(g: Config, jobs: seq<Job>)
    ensures |Run(g, jobs)| == |g.base| + |jobs|
  {
    hide MakeRecord;
    if jobs != [] {
      RunLength(g, jobs[..|jobs| - 1]);
    }
  }

  lemma {:induction false} LandedCount(calls: seq<Phase>)
    ensures |RecordsLanded(calls)| >= |JobsDone(calls)|
    ensures TornIn(calls) ==> |RecordsLanded(calls)| > |JobsDone(calls)|
  {
    if calls != [] {
      var n := |calls| - 1;
      LandedCount(calls[..n]);
      LastIn(calls);
    }
  }

  /** Memory describes the whole file except after a torn write. */
  lemma {:induction false} MemoryAtRest(g: Config, s: State)
    requires ChainInv(g, s) && AtRest(s)
    ensures s.memory == MemoryOf(s.file) <==> !TornIn(s.calls)
  {
    hide CallsFit, AtRest;
    var sized := MemoryOf(s.file);
    assert sized.totalRecords == |s.file| && s.memory.totalRecords == |Run(g, JobsDone(s.calls))|;
    hide MemoryOf, Run;
    RunLength(g, JobsDone(s.calls));
    LandedCount(s.calls);
    RestMeansNoneWritten(s);
    if !TornIn(s.calls) {
      FileShape(g, s.calls);
      KeptJobs(g, s.calls);
    }
  }

  lemma RestMeansNoneWritten(s: State)
    requires AtRest(s)
    ensures NoneWritten(s.calls)
  {
    forall k | 0 <= k < |s.calls| ensures !s.calls[k].Written? {
      assert !InCriticalSection(s.calls[k]);
    }
  }

  /**
   * With no append in its critical section, a fresh init adopts the whole file, unless
   * the key of its last record no longer opens, in which case it refuses. What it adopts
   * is exactly the live memory, whatever failed or overlapped before, unless a line was
   * torn: then it is the file that is right.
   */
  lemma {:induction false} InitRebuildsMemory(g: Config, store: K.Store, es: seq<Event>)
    requires OpenedWell(g, store) && Feasible(g, Started(g, store), es) && AtRest(Final(g, Started(g, store), es))
    ensures var s := Final(g, Started(g, store), es);
      && Recover(g.chain.crypto, KeysOf(g, s), Lines(s.file)) ==
         (if s.file == [] || S.KeyOpens(s.store, s.file[|s.file| - 1]) then Ok(MemoryOf(s.file)) else Err(KeyUnavailable))
      && (MemoryOf(s.file) == s.memory <==> !TornIn(s.calls))
  {
    StartedInv(g, store);
    hide Lines, CheckHmac, Linked, Inv, AtRest, Final, Feasible, Started, S.Attested, S.KeyOpens, OpenedWell, Recover, OwnDigests, FileOf, CallsFit, MemoryOf;
    StartedKeysInv(g, store);
    RunsKeepInv(g, Started(g, store), es);
    RunsKeepKeysInv(g, Started(g, store), es);
    var s := Final(g, Started(g, store), es);
    ChainOf(g, s);
    MemoryAtRest(g, s);
    FileOwnDigests(g, s.calls);
    if s.file != [] {
      S.AttestedPassesExactly(g.chain, s.store, s.file[|s.file| - 1]);
    }
    RecoverOwnDigests(g.chain.crypto, KeysOf(g, s), s.file);
  }

  lemma ChainOf(g: Config, s: State)
    requires Inv(g, s)
    ensures ChainInv(g, s)
  {
  }

  lemma {:induction false} RecoverOwnDigests(c: Crypto, keys: Keys, rs: seq<Record>)
    requires rs != [] ==> OwnDigests(c, rs[|rs| - 1])
    ensures rs == [] || CheckHmac(c, keys, rs[|rs| - 1]) == Passes ==> Recover(c, keys, Lines(rs)) == Ok(MemoryOf(rs))
    ensures rs != [] && CheckHmac(c, keys, rs[|rs| - 1]) == Throws ==> Recover(c, keys, Lines(rs)) == Err(KeyUnavailable)
  {
    hide IdOf, ChainHashOf, CheckHmac, Lines, Parsed;
    ParsedLines(rs);
  }

  /** With no KEK rotation past a revocation it always adopts the file. */
  lemma {:induction false} InitAlwaysRebuilds(g: Config, store: K.Store, es: seq<Event>)
    requires OpenedWell(g, store) && Feasible(g, Started(g, store), es) && AtRest(Final(g, Started(g, store), es))
    requires S.AllRowsOpen(store) && NoRotationPastRevocation(g, Started(g, store), es)
    ensures var s := Final(g, Started(g, store), es);
      && Recover(g.chain.crypto, KeysOf(g, s), Lines(s.file)) == Ok(MemoryOf(s.file))
      && (MemoryOf(s.file) == s.memory <==> !TornIn(s.calls))
  {
    hide Feasible, Final, NoRotationPastRevocation, OpenedWell, S.AllRowsOpen, Started, Recover, AtRest, S.KeyOpens, TornIn, MemoryOf;
    InitRebuildsMemory(g, store, es);
    AllKeysOpen(g, store, es);
  }

  /** A restart in time heals a torn write: the file can be opened well exactly while no line has landed after a torn one. */
  lemma {:induction false} RestartHeals(g: Config, store: K.Store, es: seq<Event>)
    requires OpenedWell(g, store) && Feasible(g, Started(g, store), es)
    ensures var s := Final(g, Started(g, store), es);
      OpenedWell(Config(g.chain, s.file), s.store) <==> TornLandsLast(s.calls)
  {
    hide Feasible, Final, Linked, Started, TornLandsLast, S.Attested, K.Inv, MemoryOf, Run;
    StartedKeysInv(g, store);
    RunsKeepKeysInv(g, Started(g, store), es);
    AppendsLinearize(g, store, es);
  }
}
