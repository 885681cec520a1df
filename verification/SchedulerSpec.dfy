/**
 * What each step of the multi-tenant job scheduler does to its state, and what
 * every run of those steps keeps: bookkeeping, caps, FIFO order, no stall, drain.
 * The class in TenantScheduler.dfy is proved to take exactly these steps.
 */
module SchedulerSpec {

  type Tenant = string

  datatype Job = Job(tenantId: Tenant, batchId: string)

  /** The constructor's options: the global cap and the (constant) cap callback. */
  datatype Config = Config(globalConcurrency: int, cap: Tenant -> int)

  /** What happened to one tenant's jobs so far. */
  datatype Log = Log(accepted: seq<Job>, launched: seq<Job>, running: multiset<Job>, completed: multiset<Job>)

  const NO_LOG := Log([], [], multiset{}, multiset{})

  function LogAccept(l: Log, job: Job): Log {
    l.(accepted := l.accepted + [job])
  }

  function LogLaunch(l: Log, job: Job): Log {
    l.(launched := l.launched + [job], running := l.running + multiset{job})
  }

  function LogComplete(l: Log, job: Job): Log {
    l.(running := l.running - multiset{job}, completed := l.completed + multiset{job})
  }

  /**
   * `paused` is the set the isPaused callback consults. `drainResolvers` holds the
   * callers blocked in drain(), `resolved` those already woken, and `log` is history.
   */
  datatype State = State(
    subqueues: map<Tenant, seq<Job>>,
    tenantOrder: seq<Tenant>,
    rrIndex: nat,
    activeByTenant: map<Tenant, int>,
    globalActive: int,
    stopped: bool,
    drainResolvers: seq<nat>,
    tickScheduled: bool,
    paused: set<Tenant>,
    resolved: seq<nat>,
    log: map<Tenant, Log>)

  const INITIAL := State(map[], [], 0, map[], 0, false, [], false, {}, [], map[])

  function Queue(s: State, t: Tenant): seq<Job> {
    if t in s.subqueues then s.subqueues[t] else []
  }

  function ActiveOf(active: map<Tenant, int>, t: Tenant): int {
    if t in active then active[t] else 0
  }

  function LogOf(s: State, t: Tenant): Log {
    if t in s.log then s.log[t] else NO_LOG
  }

  // ---------------------------------------------------------------------------
  // Steps
  // ---------------------------------------------------------------------------

  function EnqueueStep(s: State, job: Job): State {
    if s.stopped then s
    else
      var t := job.tenantId;
      s.(subqueues := s.subqueues[t := Queue(s, t) + [job]],
         tenantOrder := if t in s.subqueues then s.tenantOrder else s.tenantOrder + [t],
         tickScheduled := true,
         log := s.log[t := LogAccept(LogOf(s, t), job)])
  }

  predicate Eligible(c: Config, s: State, t: Tenant) {
    t !in s.paused && Queue(s, t) != [] && ActiveOf(s.activeByTenant, t) < c.cap(t)
  }

  function Launch(s: State, t: Tenant): State
    requires Queue(s, t) != []
  {
    s.(subqueues := s.subqueues[t := Queue(s, t)[1..]],
       activeByTenant := s.activeByTenant[t := ActiveOf(s.activeByTenant, t) + 1],
       globalActive := s.globalActive + 1,
       log := s.log[t := LogLaunch(LogOf(s, t), Queue(s, t)[0])])
  }

  /** One iteration of the round-robin loop: look at tenant `t`. */
  function Visit(c: Config, s: State, t: Tenant): State {
    if Eligible(c, s, t) then Launch(s, t) else s
  }

  /** The tenant the loop looks at in its k-th iteration. */
  function Slot(s: State, k: nat): Tenant
    requires s.tenantOrder != []
  {
    s.tenantOrder[(s.rrIndex + k) % |s.tenantOrder|]
  }

  /** Slots i, i+1, ... of the round-robin loop, counted from rrIndex. */
  function LaunchFrom(c: Config, s: State, i: nat): State
    decreases |s.tenantOrder| - i
  {
    if i >= |s.tenantOrder| || s.globalActive >= c.globalConcurrency then s
    else LaunchFrom(c, Visit(c, s, Slot(s, i)), i + 1)
  }

  predicate TickLaunches(c: Config, s: State) {
    LaunchFrom(c, s, 0).globalActive > s.globalActive
  }

  predicate Lingers(s: State, t: Tenant) {
    Queue(s, t) != [] || ActiveOf(s.activeByTenant, t) != 0
  }

  function KeepLingering(s: State, ts: seq<Tenant>): seq<Tenant> {
    if ts == [] then []
    else (if Lingers(s, ts[0]) then [ts[0]] else []) + KeepLingering(s, ts[1..])
  }

  function Cleanup(s: State): State {
    var kept := KeepLingering(s, s.tenantOrder);
    s.(tenantOrder := kept,
       subqueues := map t | t in s.subqueues && Lingers(s, t) :: s.subqueues[t],
       activeByTenant := map t | t in s.activeByTenant && Lingers(s, t) :: s.activeByTenant[t],
       rrIndex := if kept == [] then 0 else s.rrIndex % |kept|)
  }

  /** Nothing active and nothing pending. */
  predicate Idle(s: State) {
    s.globalActive == 0 && forall t | t in s.subqueues :: s.subqueues[t] == []
  }

  function CheckDrained(s: State): State {
    if Idle(s) then s.(drainResolvers := [], resolved := s.resolved + s.drainResolvers) else s
  }

  function Advance(c: Config, s: State): State {
    var after := LaunchFrom(c, s, 0);
    if s.tenantOrder != [] && TickLaunches(c, s) then after.(rrIndex := (s.rrIndex + 1) % |s.tenantOrder|) else after
  }

  function ProcessTick(c: Config, s: State): State {
    if s.tenantOrder == [] then s else CheckDrained(Cleanup(Advance(c, s)))
  }

  function TickStep(c: Config, s: State): State {
    ProcessTick(c, s.(tickScheduled := false))
  }

  /** A launched job settles; `?? 1` in the source is the default of the lookup. */
  function CompleteStep(s: State, job: Job): State {
    var t := job.tenantId;
    var prev := if t in s.activeByTenant then s.activeByTenant[t] else 1;
    s.(activeByTenant := s.activeByTenant[t := prev - 1],
       globalActive := s.globalActive - 1,
       tickScheduled := true,
       log := s.log[t := LogComplete(LogOf(s, t), job)])
  }

  function DrainStep(s: State, id: nat): State {
    if Idle(s) then s else s.(drainResolvers := s.drainResolvers + [id])
  }

  /** The caller flips the flag the callback reads, then calls setPaused. */
  function SetPausedStep(s: State, t: Tenant, paused: bool): State {
    if paused then s.(paused := s.paused + {t})
    else s.(paused := s.paused - {t}, tickScheduled := true)
  }

  datatype Event =
    | Enqueue(job: Job)
    | Tick
    | Complete(job: Job)
    | Drain(id: nat)
    | Stop
    | SetPaused(tenant: Tenant, paused: bool)
    | PauseFlags(now: set<Tenant>)  // the flags change without a setPaused call

  predicate Enabled(s: State, e: Event) {
    match e
    case Tick => s.tickScheduled
    case Complete(job) => job in LogOf(s, job.tenantId).running
    case _ => true
  }

  function Step(c: Config, s: State, e: Event): State {
    match e
    case Enqueue(job) => EnqueueStep(s, job)
    case Tick => TickStep(c, s)
    case Complete(job) => CompleteStep(s, job)
    case Drain(id) => DrainStep(s, id)
    case Stop => s.(stopped := true)
    case SetPaused(t, p) => SetPausedStep(s, t, p)
    case PauseFlags(now) => s.(paused := now)
  }

  predicate Feasible(c: Config, s: State, es: seq<Event>)
    decreases |es|
  {
    es == [] || (Enabled(s, es[0]) && Feasible(c, Step(c, s, es[0]), es[1..]))
  }

  function Final(c: Config, s: State, es: seq<Event>): State
    decreases |es|
  {
    if es == [] then s else Final(c, Step(c, s, es[0]), es[1..])
  }

  // ---------------------------------------------------------------------------
  // Invariants
  // ---------------------------------------------------------------------------

  predicate NoDuplicates(ts: seq<Tenant>) {
    forall i, j | 0 <= i < j < |ts| :: ts[i] != ts[j]
  }

  function Max0(n: int): nat {
    if n < 0 then 0 else n
  }

  function SumActive(ts: seq<Tenant>, active: map<Tenant, int>): int {
    if ts == [] then 0 else ActiveOf(active, ts[0]) + SumActive(ts[1..], active)
  }

  /** tenantOrder lists the keys of subqueues once each, and rrIndex points into it. */
  ghost predicate OrderInv(s: State) {
    && NoDuplicates(s.tenantOrder)
    && (forall t :: t in s.tenantOrder <==> t in s.subqueues)
    && s.activeByTenant.Keys <= s.subqueues.Keys
    && (if s.tenantOrder == [] then s.rrIndex == 0 else s.rrIndex < |s.tenantOrder|)
  }

  ghost predicate CapInv(c: Config, s: State) {
    && s.globalActive == SumActive(s.tenantOrder, s.activeByTenant)
    && 0 <= s.globalActive <= Max0(c.globalConcurrency)
    && forall t :: 0 <= ActiveOf(s.activeByTenant, t) <= Max0(c.cap(t))
  }

  /** Per tenant: accepted = launched ++ pending in order, launched = running + completed. */
  predicate Balanced(l: Log, pending: seq<Job>, active: int) {
    && l.accepted == l.launched + pending
    && multiset(l.launched) == l.running + l.completed
    && |l.running| == active
  }

  predicate LogInvFor(s: State, t: Tenant) {
    Balanced(LogOf(s, t), Queue(s, t), ActiveOf(s.activeByTenant, t))
  }

  ghost predicate LogInv(s: State) {
    forall t :: LogInvFor(s, t)
  }

  ghost predicate Books(c: Config, s: State) {
    OrderInv(s) && CapInv(c, s) && LogInv(s)
  }

  ghost predicate Inv(c: Config, s: State) {
    && Books(c, s)
    && (s.drainResolvers != [] ==> s.tenantOrder != [])
  }

  // ---------------------------------------------------------------------------
  // Sums over the tenant list
  // ---------------------------------------------------------------------------

  lemma {:induction false} SumActiveUpdate(ts: seq<Tenant>, active: map<Tenant, int>, t: Tenant, v: int)
    requires NoDuplicates(ts)
    ensures SumActive(ts, active[t := v])
         == SumActive(ts, active) + (if t in ts then v - ActiveOf(active, t) else 0)
  {
    if ts != [] {
      SumActiveUpdate(ts[1..], active, t, v);
      if ts[0] == t {
        assert t !in ts[1..];
      }
    }
  }

  lemma {:induction false} SumActiveBounds(ts: seq<Tenant>, active: map<Tenant, int>)
    requires forall t | t in ts :: 0 <= ActiveOf(active, t)
    ensures 0 <= SumActive(ts, active)
    ensures forall t | t in ts :: ActiveOf(active, t) <= SumActive(ts, active)
  {
    if ts != [] {
      SumActiveBounds(ts[1..], active);
    }
  }

  lemma {:induction false} KeepLingeringMembers(s: State, ts: seq<Tenant>)
    requires NoDuplicates(ts)
    ensures NoDuplicates(KeepLingering(s, ts))
    ensures forall t :: t in KeepLingering(s, ts) <==> t in ts && Lingers(s, t)
  {
    hide Lingers;
    if ts != [] {
      KeepLingeringMembers(s, ts[1..]);
      assert ts == [ts[0]] + ts[1..] && ts[0] !in ts[1..];
    }
  }

  lemma {:induction false} KeepLingeringFacts(s: State, ts: seq<Tenant>)
    requires NoDuplicates(ts)
    ensures var kept := KeepLingering(s, ts);
      && NoDuplicates(kept)
      && |kept| <= |ts|
      && (|kept| == |ts| ==> kept == ts)
      && (forall t :: t in kept <==> t in ts && Lingers(s, t))
      && SumActive(kept, s.activeByTenant) == SumActive(ts, s.activeByTenant)
  {
    KeepLingeringMembers(s, ts);
    KeepLingeringSizes(s, ts);
  }

  /** Dropping tenants with nothing left changes neither the order nor the total. */
  lemma {:induction false} KeepLingeringSizes(s: State, ts: seq<Tenant>)
    ensures var kept := KeepLingering(s, ts);
      && |kept| <= |ts|
      && (|kept| == |ts| ==> kept == ts)
      && SumActive(kept, s.activeByTenant) == SumActive(ts, s.activeByTenant)
  {
    if ts != [] {
      KeepLingeringSizes(s, ts[1..]);
      var rest := KeepLingering(s, ts[1..]);
      assert Lingers(s, ts[0]) || ActiveOf(s.activeByTenant, ts[0]) == 0;
      hide Lingers, ActiveOf;
      assert ts == [ts[0]] + ts[1..];
      var longer := [ts[0]] + rest;
      assert longer[1..] == rest && [] + rest == rest;
      assert SumActive(longer, s.activeByTenant) == ActiveOf(s.activeByTenant, ts[0]) + SumActive(rest, s.activeByTenant);
    }
  }

  lemma {:induction false} SumActiveAgree(ts: seq<Tenant>, a: map<Tenant, int>, b: map<Tenant, int>)
    requires forall t | t in ts :: ActiveOf(a, t) == ActiveOf(b, t)
    ensures SumActive(ts, a) == SumActive(ts, b)
  {
    if ts != [] {
      SumActiveAgree(ts[1..], a, b);
    }
  }

  // ---------------------------------------------------------------------------
  // Every step keeps the invariant
  // ---------------------------------------------------------------------------

  lemma {:induction false} LaunchKeepsOrder(s: State, t: Tenant)
    requires OrderInv(s) && Queue(s, t) != []
    ensures OrderInv(Launch(s, t)) && Launch(s, t).subqueues.Keys == s.subqueues.Keys
  {
    assert t in s.subqueues;
  }

  lemma {:induction false} LaunchKeepsCaps(c: Config, s: State, t: Tenant)
    requires OrderInv(s) && CapInv(c, s) && Eligible(c, s, t) && s.globalActive < c.globalConcurrency
    ensures CapInv(c, Launch(s, t))
  {
    var s' := Launch(s, t);
    assert t in s.subqueues && t in s.tenantOrder;
    SumActiveUpdate(s.tenantOrder, s.activeByTenant, t, ActiveOf(s.activeByTenant, t) + 1);
    forall u ensures 0 <= ActiveOf(s'.activeByTenant, u) <= Max0(c.cap(u)) {
      assert 0 <= ActiveOf(s.activeByTenant, u) <= Max0(c.cap(u));
    }
  }

  lemma BalancedAfterLaunch(l: Log, pending: seq<Job>, active: int)
    requires Balanced(l, pending, active) && pending != []
    ensures Balanced(LogLaunch(l, pending[0]), pending[1..], active + 1)
  {
    assert pending == [pending[0]] + pending[1..];
    assert (l.launched + [pending[0]]) + pending[1..] == l.launched + pending;
  }

  lemma BalancedAfterAccept(l: Log, pending: seq<Job>, active: int, job: Job)
    requires Balanced(l, pending, active)
    ensures Balanced(LogAccept(l, job), pending + [job], active)
  {
    assert l.launched + (pending + [job]) == (l.launched + pending) + [job];
  }

  lemma BalancedAfterComplete(l: Log, pending: seq<Job>, active: int, job: Job)
    requires Balanced(l, pending, active) && job in l.running
    ensures Balanced(LogComplete(l, job), pending, active - 1) && active >= 1
  {
    assert l.running == (l.running - multiset{job}) + multiset{job};
  }

  lemma {:induction false} LaunchKeepsLog(s: State, t: Tenant, u: Tenant)
    requires LogInvFor(s, u) && Queue(s, t) != []
    ensures LogInvFor(Launch(s, t), u)
  {
    hide Balanced, LogLaunch;
    if u == t {
      BalancedAfterLaunch(LogOf(s, t), Queue(s, t), ActiveOf(s.activeByTenant, t));
    }
  }

  lemma {:induction false} LaunchKeepsInv(c: Config, s: State, t: Tenant)
    requires Inv(c, s) && Eligible(c, s, t) && s.globalActive < c.globalConcurrency
    ensures Inv(c, Launch(s, t))
  {
    LaunchKeepsOrder(s, t);
    LaunchKeepsCaps(c, s, t);
    forall u ensures LogInvFor(Launch(s, t), u) {
      assert LogInvFor(s, u);
      LaunchKeepsLog(s, t, u);
    }
  }

  /** What a whole pass of the loop may change, and that it only ever adds launches. */
  ghost predicate Grew(s: State, s': State) {
    && s'.tenantOrder == s.tenantOrder && s'.rrIndex == s.rrIndex && s'.paused == s.paused
    && s'.stopped == s.stopped && s'.tickScheduled == s.tickScheduled
    && s'.drainResolvers == s.drainResolvers && s'.resolved == s.resolved
    && s'.subqueues.Keys == s.subqueues.Keys
    && s.globalActive <= s'.globalActive
    && (s'.globalActive == s.globalActive ==> s' == s)
    && forall t :: LogOf(s, t).launched <= LogOf(s', t).launched && (t in s.paused ==> LogOf(s', t) == LogOf(s, t))
  }

  lemma {:induction false} LaunchGrew(s: State, t: Tenant)
    requires Queue(s, t) != [] && t !in s.paused
    ensures Grew(s, Launch(s, t))
  {
    assert t in s.subqueues;
  }

  lemma {:induction false} GrewTransitive(s: State, s': State, s'': State)
    requires Grew(s, s') && Grew(s', s'')
    ensures Grew(s, s'')
  {
  }

  lemma {:induction false} LaunchFromFacts(c: Config, s: State, i: nat)
    requires Inv(c, s)
    ensures Inv(c, LaunchFrom(c, s, i))
    ensures Grew(s, LaunchFrom(c, s, i))
    decreases |s.tenantOrder| - i
  {
    hide Inv, Balanced, Launch, LogLaunch;
    if i < |s.tenantOrder| && s.globalActive < c.globalConcurrency {
      var t := Slot(s, i);
      var s' := Visit(c, s, t);
      if Eligible(c, s, t) {
        LaunchKeepsInv(c, s, t);
        LaunchGrew(s, t);
      }
      assert Grew(s, s');
      LaunchFromFacts(c, s', i + 1);
      GrewTransitive(s, s', LaunchFrom(c, s', i + 1));
    }
  }

  lemma {:induction false} CleanupKeepsQueues(s: State)
    ensures forall t :: Queue(Cleanup(s), t) == Queue(s, t)
    ensures forall t :: ActiveOf(Cleanup(s).activeByTenant, t) == ActiveOf(s.activeByTenant, t)
  {
  }

  lemma {:induction false} CleanupKeepsOrder(s: State)
    requires OrderInv(s)
    ensures OrderInv(Cleanup(s))
    ensures Cleanup(s).tenantOrder == [] ==> Cleanup(s).subqueues == map[]
  {
    var s' := Cleanup(s);
    KeepLingeringFacts(s, s.tenantOrder);
    if s'.tenantOrder == [] {
      assert forall t | t in s'.subqueues :: t in s'.tenantOrder;
    }
  }

  lemma SumOfNone(active: map<Tenant, int>)
    ensures SumActive([], active) == 0
  {
  }

  lemma {:induction false} CleanupKeepsCaps(c: Config, s: State)
    requires OrderInv(s) && CapInv(c, s)
    ensures CapInv(c, Cleanup(s))
    ensures Cleanup(s).tenantOrder == [] ==> s.globalActive == 0
  {
    hide KeepLingering, Lingers, Queue, SumActive, ActiveOf, NoDuplicates;
    var s' := Cleanup(s);
    CleanupKeepsQueues(s);
    KeepLingeringFacts(s, s.tenantOrder);
    var kept := KeepLingering(s, s.tenantOrder);
    assert s'.tenantOrder == kept && s'.globalActive == s.globalActive;
    hide Cleanup, OrderInv;
    SumOfNone(s'.activeByTenant);
    SumActiveAgree(kept, s.activeByTenant, s'.activeByTenant);
    forall t ensures 0 <= ActiveOf(s'.activeByTenant, t) <= Max0(c.cap(t)) {
      assert 0 <= ActiveOf(s.activeByTenant, t) <= Max0(c.cap(t));
    }
  }

  lemma {:induction false} CleanupKeepsLog(s: State)
    requires LogInv(s)
    ensures LogInv(Cleanup(s))
  {
    hide Balanced;
    var s' := Cleanup(s);
    CleanupKeepsQueues(s);
    assert s'.log == s.log;
    hide Cleanup;
    forall t ensures LogInvFor(s', t) {
      assert LogInvFor(s, t);
    }
  }

  /** Steps that leave queues, actives and history alone keep the books. */
  lemma {:induction false} SameBooks(c: Config, s: State, s': State)
    requires Books(c, s)
    requires s'.log == s.log && s'.subqueues == s.subqueues && s'.activeByTenant == s.activeByTenant
    requires s'.tenantOrder == s.tenantOrder && s'.globalActive == s.globalActive
    requires s'.rrIndex == s.rrIndex || s'.rrIndex < |s.tenantOrder|
    ensures Books(c, s')
  {
    hide Balanced;
    forall t ensures LogInvFor(s', t) {
      assert LogInvFor(s, t);
    }
    hide LogInv;
  }

  lemma {:induction false} CleanupKeepsBooks(c: Config, s: State)
    requires Books(c, s)
    ensures Books(c, Cleanup(s))
    ensures Cleanup(s).tenantOrder == [] ==> Idle(Cleanup(s))
  {
    CleanupKeepsOrder(s);
    CleanupKeepsCaps(c, s);
    CleanupKeepsLog(s);
    assert Cleanup(s).globalActive == s.globalActive;
    hide OrderInv, CapInv, LogInv, Cleanup;
  }

  lemma {:induction false} TickKeepsInv(c: Config, s: State)
    requires Inv(c, s)
    ensures Inv(c, ProcessTick(c, s))
  {
    if s.tenantOrder != [] {
      LaunchFromFacts(c, s, 0);
      var s1 := Advance(c, s);
      hide Books, Cleanup, Idle, LaunchFrom;
      SameBooks(c, LaunchFrom(c, s, 0), s1);
      hide Advance;
      CleanupKeepsBooks(c, s1);
      SameBooks(c, Cleanup(s1), CheckDrained(Cleanup(s1)));
    }
  }

  lemma {:induction false} CompleteKeepsLog(s: State, job: Job)
    requires LogInv(s) && Enabled(s, Complete(job))
    ensures LogInv(CompleteStep(s, job))
    ensures job.tenantId in s.activeByTenant && s.activeByTenant[job.tenantId] >= 1
  {
    hide Balanced, LogComplete;
    var t := job.tenantId;
    assert LogInvFor(s, t);
    BalancedAfterComplete(LogOf(s, t), Queue(s, t), ActiveOf(s.activeByTenant, t), job);
    forall u ensures LogInvFor(CompleteStep(s, job), u) {
      assert LogInvFor(s, u);
    }
  }

  lemma {:induction false} CompleteKeepsCaps(c: Config, s: State, job: Job)
    requires OrderInv(s) && CapInv(c, s) && job.tenantId in s.activeByTenant && s.activeByTenant[job.tenantId] >= 1
    ensures CapInv(c, CompleteStep(s, job))
  {
    hide LogComplete;
    var t := job.tenantId;
    var s' := CompleteStep(s, job);
    assert t in s.tenantOrder;
    SumActiveUpdate(s.tenantOrder, s.activeByTenant, t, ActiveOf(s.activeByTenant, t) - 1);
    SumActiveBounds(s.tenantOrder, s.activeByTenant);
    hide SumActive, NoDuplicates;
    forall u ensures 0 <= ActiveOf(s'.activeByTenant, u) <= Max0(c.cap(u)) {
      assert 0 <= ActiveOf(s.activeByTenant, u) <= Max0(c.cap(u));
    }
  }

  lemma {:induction false} CompleteKeepsInv(c: Config, s: State, job: Job)
    requires Inv(c, s) && Enabled(s, Complete(job))
    ensures Inv(c, CompleteStep(s, job))
  {
    CompleteKeepsLog(s, job);
    CompleteKeepsCaps(c, s, job);
    hide LogInv, CapInv, LogComplete, NoDuplicates;
  }

  lemma {:induction false} EnqueueKeepsLog(s: State, job: Job)
    requires LogInv(s)
    ensures LogInv(EnqueueStep(s, job))
  {
    hide Balanced, LogAccept;
    var t := job.tenantId;
    assert LogInvFor(s, t);
    BalancedAfterAccept(LogOf(s, t), Queue(s, t), ActiveOf(s.activeByTenant, t), job);
    forall u ensures LogInvFor(EnqueueStep(s, job), u) {
      assert LogInvFor(s, u);
    }
  }

  lemma EnqueueKeepsOrder(s: State, job: Job)
    requires OrderInv(s)
    ensures OrderInv(EnqueueStep(s, job))
  {
    hide LogAccept, Queue;
  }

  lemma {:induction false} EnqueueKeepsCaps(c: Config, s: State, job: Job)
    requires OrderInv(s) && CapInv(c, s)
    ensures CapInv(c, EnqueueStep(s, job))
  {
    hide LogAccept, Queue, SumActive, NoDuplicates;
    var t := job.tenantId;
    if !s.stopped && t !in s.subqueues {
      SumActiveAppend(s.tenantOrder, t, s.activeByTenant);
      assert t !in s.activeByTenant;
    }
  }

  lemma {:induction false} EnqueueKeepsInv(c: Config, s: State, job: Job)
    requires Inv(c, s)
    ensures Inv(c, EnqueueStep(s, job))
  {
    EnqueueKeepsLog(s, job);
    EnqueueKeepsOrder(s, job);
    EnqueueKeepsCaps(c, s, job);
    hide LogInv, LogAccept, OrderInv, CapInv, Queue;
  }

  lemma {:induction false} SumActiveAppend(ts: seq<Tenant>, t: Tenant, active: map<Tenant, int>)
    ensures SumActive(ts + [t], active) == SumActive(ts, active) + ActiveOf(active, t)
  {
    if ts != [] {
      SumActiveAppend(ts[1..], t, active);
      assert (ts + [t])[1..] == ts[1..] + [t];
    }
  }

  lemma {:induction false} BusyMeansTenants(c: Config, s: State)
    requires Books(c, s) && s.tenantOrder == []
    ensures Idle(s)
  {
    hide LogInv;
    assert forall t :: t in s.subqueues ==> t in s.tenantOrder;
  }

  lemma {:induction false} StepKeepsInv(c: Config, s: State, e: Event)
    requires Inv(c, s) && Enabled(s, e)
    ensures Inv(c, Step(c, s, e))
  {
    hide Books, Idle, EnqueueStep, ProcessTick, CompleteStep;
    match e
    case Enqueue(job) => EnqueueKeepsInv(c, s, job);
    case Tick =>
      SameBooks(c, s, s.(tickScheduled := false));
      TickKeepsInv(c, s.(tickScheduled := false));
    case Complete(job) => CompleteKeepsInv(c, s, job);
    case Drain(id) =>
      SameBooks(c, s, DrainStep(s, id));
      if s.tenantOrder == [] {
        BusyMeansTenants(c, s);
      }
    case Stop => SameBooks(c, s, s.(stopped := true));
    case SetPaused(t, p) => SameBooks(c, s, SetPausedStep(s, t, p));
    case PauseFlags(now) => SameBooks(c, s, s.(paused := now));
  }

  /** Safety over whole runs, from the freshly constructed scheduler. */
  lemma {:induction false} SafetyOverRuns(c: Config, s: State, es: seq<Event>)
    requires Inv(c, s) && Feasible(c, s, es)
    ensures Inv(c, Final(c, s, es))
    decreases |es|
  {
    if es != [] {
      StepKeepsInv(c, s, es[0]);
      SafetyOverRuns(c, Step(c, s, es[0]), es[1..]);
    }
  }

  lemma InitialInv(c: Config)
    ensures Inv(c, INITIAL)
  {
    forall t ensures LogInvFor(INITIAL, t) {
    }
  }
}
