/**
 * What a tick launches, and what a run adds to the scheduler's history: exactly the
 * eligible tenants nearest to the pointer, one job each, as many as there is room for.
 */
module SchedulerTicks {
  import opened SchedulerSpec
  import opened SchedulerFairness

  // ---------------------------------------------------------------------------
  // Which tenants a tick launches
  // ---------------------------------------------------------------------------

  /** The eligible tenants that the pointer reaches before `t`. */
  ghost function Ahead(c: Config, s: State, t: Tenant): set<Tenant>
    requires t in s.tenantOrder && s.rrIndex < |s.tenantOrder|
  {
    set u | u in s.tenantOrder
            && u !in s.paused && Queue(s, u) != [] && ActiveOf(s.activeByTenant, u) < c.cap(u)
            && Distance(s, u) < Distance(s, t)
  }

  /**
   * The tenant is not paused, has a job pending and is below its cap, and there is room
   * for the job after those of the tenants ahead of which the same is true.
   */
  ghost predicate Picked(c: Config, s: State, t: Tenant) {
    && t in s.tenantOrder && s.rrIndex < |s.tenantOrder|
    && t !in s.paused && Queue(s, t) != [] && ActiveOf(s.activeByTenant, t) < c.cap(t)
    && |Ahead(c, s, t)| < c.globalConcurrency - s.globalActive
  }

  /** The list without repetitions, and a pointer into it. */
  predicate Listed(s: State) {
    NoDuplicates(s.tenantOrder) && s.rrIndex < |s.tenantOrder|
  }

  /** How many of the slots i, ..., d - 1 hold an eligible tenant. */
  function Count(c: Config, s: State, i: nat, d: nat): nat
    requires s.tenantOrder != []
    decreases d - i
  {
    if i >= d then 0 else (if Eligible(c, s, Slot(s, i)) then 1 else 0) + Count(c, s, i + 1, d)
  }

  lemma RoundOffset(n: nat, start: nat, k: nat)
    requires start < n && k < n
    ensures (start + k) % n == if start + k < n then start + k else start + k - n
  {
    if start + k >= n {
      assert (start + k - n) % n == start + k - n;
    }
  }

  lemma {:induction false} PosOfAt(ts: seq<Tenant>, p: nat)
    requires NoDuplicates(ts) && p < |ts|
    ensures PosOf(ts, ts[p]) == p
  {
    var q := PosOf(ts, ts[p]);
    assert ts[q] == ts[p];
  }

  /** The tenant in slot k is at distance k. */
  lemma {:induction false} SlotDistance(s: State, k: nat)
    requires Listed(s) && k < |s.tenantOrder|
    ensures Slot(s, k) in s.tenantOrder && Distance(s, Slot(s, k)) == k
  {
    var n := |s.tenantOrder|;
    RoundOffset(n, s.rrIndex, k);
    PosOfAt(s.tenantOrder, (s.rrIndex + k) % n);
  }

  /** The eligible tenants in the first d slots. */
  ghost function EligibleWithin(c: Config, s: State, d: nat): set<Tenant>
    requires s.rrIndex < |s.tenantOrder|
  {
    set u | u in s.tenantOrder && Eligible(c, s, u) && Distance(s, u) < d
  }

  lemma {:induction false} CountUpTo(c: Config, s: State, i: nat, d: nat)
    requires s.tenantOrder != [] && i <= d
    ensures Count(c, s, i, d + 1) == Count(c, s, i, d) + if Eligible(c, s, Slot(s, d)) then 1 else 0
    decreases d - i
  {
    hide Eligible, Slot;
    if i < d {
      CountUpTo(c, s, i + 1, d);
    } else {
      assert Count(c, s, d, d) == 0 && Count(c, s, d + 1, d + 1) == 0;
    }
  }

  lemma {:induction false} CountIsSize(c: Config, s: State, d: nat)
    requires Listed(s) && d <= |s.tenantOrder|
    ensures Count(c, s, 0, d) == |EligibleWithin(c, s, d)|
  {
    hide Eligible, Slot, Distance, NoDuplicates;
    if d == 0 {
      assert EligibleWithin(c, s, 0) == {};
    } else {
      CountIsSize(c, s, d - 1);
      CountUpTo(c, s, 0, d - 1);
      var t := Slot(s, d - 1);
      SlotDistance(s, d - 1);
      forall u | u in s.tenantOrder && Distance(s, u) == d - 1 ensures u == t {
        SlotMeets(s, u);
      }
      var before := EligibleWithin(c, s, d - 1);
      assert t !in before;
      assert EligibleWithin(c, s, d) == if Eligible(c, s, t) then before + {t} else before;
    }
  }

  /** A launch changes the books of one tenant only. */
  lemma VisitOthers(c: Config, s: State, t: Tenant, u: Tenant)
    requires u != t
    ensures var s' := Visit(c, s, t);
      Eligible(c, s', u) == Eligible(c, s, u) && Queue(s', u) == Queue(s, u)
      && ActiveOf(s'.activeByTenant, u) == ActiveOf(s.activeByTenant, u) && LogOf(s', u) == LogOf(s, u)
  {
  }

  lemma {:induction false} CountAfterVisit(c: Config, s: State, k: nat, i: nat, d: nat)
    requires Listed(s) && k < i && d <= |s.tenantOrder|
    ensures Count(c, Visit(c, s, Slot(s, k)), i, d) == Count(c, s, i, d)
    decreases d - i
  {
    if i < d {
      CountAfterVisit(c, s, k, i + 1, d);
      SlotDistance(s, k);
      SlotDistance(s, i);
      var s' := Visit(c, s, Slot(s, k));
      assert Slot(s', i) == Slot(s, i);
      hide Slot, Distance, Visit, Eligible;
      VisitOthers(c, s, Slot(s, k), Slot(s, i));
    }
  }

  /** The tenant's books after its next job has started, or as they were. */
  predicate Started(s: State, s': State, t: Tenant, yes: bool) {
    if yes then
      && Queue(s, t) != [] && Queue(s', t) == Queue(s, t)[1..]
      && ActiveOf(s'.activeByTenant, t) == ActiveOf(s.activeByTenant, t) + 1
      && LogOf(s', t).launched == LogOf(s, t).launched + [Queue(s, t)[0]]
      && LogOf(s', t).accepted == LogOf(s, t).accepted && LogOf(s', t).completed == LogOf(s, t).completed
    else
      && Queue(s', t) == Queue(s, t) && LogOf(s', t) == LogOf(s, t)
      && ActiveOf(s'.activeByTenant, t) == ActiveOf(s.activeByTenant, t)
  }

  lemma VisitStarts(c: Config, s: State, t: Tenant)
    ensures Started(s, Visit(c, s, t), t, Eligible(c, s, t))
    ensures Visit(c, s, t).globalActive == s.globalActive + if Eligible(c, s, t) then 1 else 0
    ensures Visit(c, s, t).tenantOrder == s.tenantOrder && Visit(c, s, t).rrIndex == s.rrIndex
  {
  }

  /** What the rest of the loop, from slot i on, does for a tenant at distance d. */
  lemma {:induction false} LoopLaunchesExactly(c: Config, s: State, i: nat, t: Tenant)
    requires Listed(s) && t in s.tenantOrder
    ensures var d := Distance(s, t);
      Started(s, LaunchFrom(c, s, i), t,
              i <= d && Eligible(c, s, t) && s.globalActive + Count(c, s, i, d) < c.globalConcurrency)
    decreases |s.tenantOrder| - i
  {
    hide Eligible, Visit, Slot, NoDuplicates;
    var d, n := Distance(s, t), |s.tenantOrder|;
    if i < n && s.globalActive < c.globalConcurrency {
      var u := Slot(s, i);
      var s' := Visit(c, s, u);
      VisitStarts(c, s, u);
      SlotDistance(s, i);
      SlotMeets(s, t);
      LoopLaunchesExactly(c, s', i + 1, t);
      assert Distance(s', t) == d;
      hide Distance, LaunchFrom, Started;
      if i != d {
        VisitOthers(c, s, u, t);
        CountAfterVisit(c, s, i, i + 1, d);
        LoopStep(c, s, s', i, t, d);
      } else {
        LoopMeets(c, s, s', i, t);
      }
    }
  }

  lemma LoopStep(c: Config, s: State, s': State, i: nat, t: Tenant, d: nat)
    requires s.tenantOrder != [] && s'.tenantOrder == s.tenantOrder && i < |s.tenantOrder| && i != d
    requires s' == Visit(c, s, Slot(s, i)) && s.globalActive < c.globalConcurrency
    requires Eligible(c, s', t) == Eligible(c, s, t) && Queue(s', t) == Queue(s, t)
    requires ActiveOf(s'.activeByTenant, t) == ActiveOf(s.activeByTenant, t) && LogOf(s', t) == LogOf(s, t)
    requires s'.globalActive == s.globalActive + if Eligible(c, s, Slot(s, i)) then 1 else 0
    requires Count(c, s', i + 1, d) == Count(c, s, i + 1, d)
    requires Started(s', LaunchFrom(c, s', i + 1), t,
                     i + 1 <= d && Eligible(c, s', t) && s'.globalActive + Count(c, s', i + 1, d) < c.globalConcurrency)
    ensures Started(s, LaunchFrom(c, s, i), t,
                    i <= d && Eligible(c, s, t) && s.globalActive + Count(c, s, i, d) < c.globalConcurrency)
  {
    hide Eligible, Slot, Visit;
  }

  lemma LoopMeets(c: Config, s: State, s': State, i: nat, t: Tenant)
    requires s.tenantOrder != [] && s'.tenantOrder == s.tenantOrder && i < |s.tenantOrder|
    requires t == Slot(s, i) && s' == Visit(c, s, t) && s.globalActive < c.globalConcurrency
    requires Started(s, s', t, Eligible(c, s, t)) && Started(s', LaunchFrom(c, s', i + 1), t, false)
    ensures Started(s, LaunchFrom(c, s, i), t, Eligible(c, s, t) && s.globalActive + Count(c, s, i, i) < c.globalConcurrency)
  {
    hide Eligible, Slot, Visit;
  }

  /** Slots without eligible tenants change nothing, so the loop launches only if it has room and someone to launch. */
  lemma {:induction false} LaunchesExactlyWhen(c: Config, s: State)
    requires Listed(s)
    ensures TickLaunches(c, s) <==> s.globalActive < c.globalConcurrency && exists u | u in s.tenantOrder :: Eligible(c, s, u)
  {
    hide Eligible, Slot, NoDuplicates;
    LaunchFromOnlyGrows(c, s, 0);
    if u :| u in s.tenantOrder && s.globalActive < c.globalConcurrency && Eligible(c, s, u) && !TickLaunches(c, s) {
      SlotMeets(s, u);
      NothingEligible(c, s, 0, Distance(s, u));
    }
    if s.globalActive < c.globalConcurrency && forall u | u in s.tenantOrder :: !Eligible(c, s, u) {
      NobodyLaunched(c, s, 0);
    }
  }

  lemma {:induction false} NobodyLaunched(c: Config, s: State, i: nat)
    requires Listed(s) && forall u | u in s.tenantOrder :: !Eligible(c, s, u)
    ensures LaunchFrom(c, s, i) == s
    decreases |s.tenantOrder| - i
  {
    hide Eligible;
    if i < |s.tenantOrder| && s.globalActive < c.globalConcurrency {
      SlotDistance(s, i);
      NobodyLaunched(c, s, i + 1);
    }
  }

  lemma PosOfTail(ts: seq<Tenant>, t: Tenant)
    requires ts != [] && ts[0] != t && t in ts[1..]
    ensures t in ts && PosOf(ts, t) == 1 + PosOf(ts[1..], t)
  {
  }

  lemma PosOfHead(ts: seq<Tenant>, t: Tenant)
    requires ts != [] && t in ts
    ensures PosOf(ts, t) == 0 <==> t == ts[0]
  {
  }

  /** A tenant's place in the list is that of those kept before it. */
  lemma {:induction false} KeptInOrder(s: State, ts: seq<Tenant>, i: nat, j: nat)
    requires NoDuplicates(ts) && i < j < |KeepLingering(s, ts)|
    ensures var kept := KeepLingering(s, ts);
      kept[i] in ts && kept[j] in ts && PosOf(ts, kept[i]) < PosOf(ts, kept[j])
  {
    hide Lingers, PosOf;
    var rest, kept := KeepLingering(s, ts[1..]), KeepLingering(s, ts);
    KeepLingeringMembers(s, ts);
    KeepLingeringMembers(s, ts[1..]);
    var shift := if Lingers(s, ts[0]) then 1 else 0;
    assert kept == (if Lingers(s, ts[0]) then [ts[0]] else []) + rest;
    assert kept[j] == rest[j - shift];
    PosOfTail(ts, kept[j]);
    if i < shift {
      PosOfHead(ts, kept[i]);
    } else {
      assert kept[i] == rest[i - shift];
      PosOfTail(ts, kept[i]);
      KeptInOrder(s, ts[1..], i - shift, j - shift);
    }
  }

  lemma ListFacts(c: Config, s: State)
    requires Inv(c, s)
    ensures s.tenantOrder == [] || Listed(s)
    ensures forall t | t !in s.tenantOrder :: t !in s.subqueues && t !in s.activeByTenant
  {
    hide LogInv, CapInv;
  }

  /**
   * A tick starts one job, the oldest pending, of every eligible tenant that fewer
   * eligible tenants precede than there is room for, and of no other.
   */
  lemma {:induction false} TickLaunchesExactly(c: Config, s: State, t: Tenant)
    requires Inv(c, s)
    ensures Started(s, TickStep(c, s), t, Picked(c, s, t))
  {
    hide Inv, TickStep, LaunchFrom, Eligible, Distance, Count, NoDuplicates;
    var s0 := s.(tickScheduled := false);
    ListFacts(c, s);
    TickBooks(c, s, t);
    if t in s.tenantOrder {
      LoopLaunchesExactly(c, s0, 0, t);
      CountIsSize(c, s0, Distance(s0, t));
      SamePlace(c, s, s0);
      AheadIsWithin(c, s, s0, t);
      hide EligibleWithin, Ahead, Queue, ActiveOf, Started;
    } else {
      NotListedUntouched(c, s0, 0, t);
    }
  }

  lemma AheadIsWithin(c: Config, s: State, s0: State, t: Tenant)
    requires s0 == s.(tickScheduled := false) && t in s.tenantOrder && s.rrIndex < |s.tenantOrder|
    ensures EligibleWithin(c, s0, Distance(s0, t)) == Ahead(c, s, t)
  {
    SamePlace(c, s, s0);
    hide Eligible, Distance;
  }

  lemma SamePlace(c: Config, s: State, s0: State)
    requires s0 == s.(tickScheduled := false)
    ensures forall u :: Eligible(c, s0, u) == Eligible(c, s, u)
    ensures forall u :: Eligible(c, s, u) <==> u !in s.paused && Queue(s, u) != [] && ActiveOf(s.activeByTenant, u) < c.cap(u)
    ensures s.rrIndex < |s.tenantOrder| ==> forall u | u in s.tenantOrder :: Distance(s0, u) == Distance(s, u)
  {
  }

  lemma {:induction false} NotListedUntouched(c: Config, s: State, i: nat, t: Tenant)
    requires t !in s.tenantOrder
    ensures Started(s, LaunchFrom(c, s, i), t, false)
    decreases |s.tenantOrder| - i
  {
    hide Eligible;
    if i < |s.tenantOrder| && s.globalActive < c.globalConcurrency {
      NotListedUntouched(c, Visit(c, s, Slot(s, i)), i + 1, t);
    }
  }

  /** After the loop a tick changes nobody's books. */
  lemma {:induction false} TickBooks(c: Config, s: State, t: Tenant)
    ensures var s1 := LaunchFrom(c, s.(tickScheduled := false), 0);
      s.tenantOrder != [] ==> Started(s1, TickStep(c, s), t, false)
    ensures s.tenantOrder == [] ==> TickStep(c, s) == s.(tickScheduled := false)
  {
    hide LaunchFrom, Idle;
    if s.tenantOrder != [] {
      var s1 := Advance(c, s.(tickScheduled := false));
      CleanupKeepsQueues(s1);
      CleanupLog();
      hide Cleanup;
    }
  }

  /**
   * The list keeps the tenants with something pending or running, in their order, and
   * the pointer moves on one place exactly when the tick had room and someone to launch.
   */
  lemma {:induction false} TickListExactly(c: Config, s: State)
    requires Inv(c, s) && s.tenantOrder != []
    ensures var s' := TickStep(c, s);
      var n, n' := |s.tenantOrder|, |s'.tenantOrder|;
      && (forall t :: t in s'.tenantOrder <==>
            t in s.tenantOrder && (Queue(s', t) != [] || ActiveOf(s'.activeByTenant, t) != 0))
      && (forall i, j | 0 <= i < j < n' :: PosOf(s.tenantOrder, s'.tenantOrder[i]) < PosOf(s.tenantOrder, s'.tenantOrder[j]))
      && var launches := s.globalActive < c.globalConcurrency && exists u | u in s.tenantOrder :: Eligible(c, s, u);
         s'.rrIndex == if n' == 0 then 0 else (if launches then (s.rrIndex + 1) % n else s.rrIndex) % n'
  {
    hide Inv, TickStep, Advance, TickLaunches, Eligible, KeepLingering, PosOf;
    var s0 := s.(tickScheduled := false);
    var s1 := Advance(c, s0);
    ListFacts(c, s);
    AdvancePlace(c, s, s0);
    LaunchesExactlyWhen(c, s0);
    SamePlace(c, s, s0);
    TickCleans(c, s);
    KeepLingeringMembers(s1, s.tenantOrder);
    var s' := TickStep(c, s);
    forall i, j | 0 <= i < j < |s'.tenantOrder|
      ensures s'.tenantOrder[i] in s.tenantOrder && s'.tenantOrder[j] in s.tenantOrder
      ensures PosOf(s.tenantOrder, s'.tenantOrder[i]) < PosOf(s.tenantOrder, s'.tenantOrder[j])
    {
      KeptInOrder(s1, s.tenantOrder, i, j);
    }
  }

  /** What cleanup makes of the list, told by what is pending and running afterwards. */
  lemma {:induction false} TickCleans(c: Config, s: State)
    requires s.tenantOrder != []
    ensures var s1, s' := Advance(c, s.(tickScheduled := false)), TickStep(c, s);
      && s'.tenantOrder == KeepLingering(s1, s1.tenantOrder)
      && s'.rrIndex == (var n := |s'.tenantOrder|; if n == 0 then 0 else s1.rrIndex % n)
      && forall t :: Lingers(s1, t) <==> Queue(s', t) != [] || ActiveOf(s'.activeByTenant, t) != 0
  {
    hide Advance, Idle;
    var s1 := Advance(c, s.(tickScheduled := false));
    CleanupShape(s1);
    CleanupKeepsQueues(s1);
    hide Cleanup, KeepLingering;
    assert TickStep(c, s).subqueues == Cleanup(s1).subqueues;
    assert TickStep(c, s).activeByTenant == Cleanup(s1).activeByTenant;
  }

  // ---------------------------------------------------------------------------
  // What a run adds to the history
  // ---------------------------------------------------------------------------

  /** The job of `t` that an event hands to a scheduler that is not stopped. */
  function Accepts(stopped: bool, e: Event, t: Tenant): seq<Job> {
    if e.Enqueue? && e.job.tenantId == t && !stopped then [e.job] else []
  }

  function AcceptedIn(stopped: bool, es: seq<Event>, t: Tenant): seq<Job>
    decreases |es|
  {
    if es == [] then [] else Accepts(stopped, es[0], t) + AcceptedIn(stopped || es[0].Stop?, es[1..], t)
  }

  function Completes(e: Event, t: Tenant): multiset<Job> {
    if e.Complete? && e.job.tenantId == t then multiset{e.job} else multiset{}
  }

  function CompletedIn(es: seq<Event>, t: Tenant): multiset<Job> {
    if es == [] then multiset{} else Completes(es[0], t) + CompletedIn(es[1..], t)
  }

  /** Whether the flags pause the tenant after a run; setPaused and silent changes set them. */
  predicate PausedIn(before: bool, es: seq<Event>, t: Tenant) {
    if es == [] then before
    else
      var e := es[|es| - 1];
      if e.SetPaused? && e.tenant == t then e.paused
      else if e.PauseFlags? then t in e.now
      else PausedIn(before, es[..|es| - 1], t)
  }

  function Waits(s: State, e: Event): seq<nat> {
    if e.Drain? && !Idle(s) then [e.id] else []
  }

  /** The callers whose drain() found the scheduler busy. */
  function WaitingIn(c: Config, s: State, es: seq<Event>): seq<nat>
    decreases |es|
  {
    if es == [] then []
    else Waits(s, es[0]) + WaitingIn(c, Step(c, s, es[0]), es[1..])
  }

  lemma {:induction false} StepHistory(c: Config, s: State, e: Event, t: Tenant)
    requires Inv(c, s) && Enabled(s, e)
    ensures var s' := Step(c, s, e);
      && LogOf(s', t).accepted == LogOf(s, t).accepted + Accepts(s.stopped, e, t)
      && LogOf(s', t).completed == LogOf(s, t).completed + Completes(e, t)
      && (s'.stopped <==> s.stopped || e.Stop?)
  {
    hide Inv, EnqueueStep, TickStep, CompleteStep, Idle, LogOf;
    match e
    case Tick => TickHistory(c, s, t);
    case Enqueue(job) => EnqueueHistory(s, job, t);
    case Complete(job) => CompleteHistory(s, job, t);
    case Drain(id) => SameHistory(s, DrainStep(s, id), t);
    case SetPaused(u, p) => SameHistory(s, SetPausedStep(s, u, p), t);
    case Stop => SameHistory(s, s.(stopped := true), t);
    case PauseFlags(now) => SameHistory(s, s.(paused := now), t);
  }

  lemma {:induction false} TickHistory(c: Config, s: State, t: Tenant)
    requires Inv(c, s)
    ensures var s' := TickStep(c, s);
      && LogOf(s', t).accepted == LogOf(s, t).accepted && LogOf(s', t).completed == LogOf(s, t).completed
      && s'.stopped == s.stopped
  {
    hide Inv, TickStep, Picked, LogOf, Queue;
    TickLaunchesExactly(c, s, t);
    TickKeepsStopped(c, s);
  }

  lemma EnqueueHistory(s: State, job: Job, t: Tenant)
    ensures var s' := EnqueueStep(s, job);
      && LogOf(s', t).accepted == LogOf(s, t).accepted + Accepts(s.stopped, Event.Enqueue(job), t)
      && LogOf(s', t).completed == LogOf(s, t).completed && s'.stopped == s.stopped
  {
    hide Queue;
  }

  lemma CompleteHistory(s: State, job: Job, t: Tenant)
    ensures var s' := CompleteStep(s, job);
      && LogOf(s', t).accepted == LogOf(s, t).accepted && s'.stopped == s.stopped
      && LogOf(s', t).completed == LogOf(s, t).completed + Completes(Event.Complete(job), t)
  {
  }

  lemma SameHistory(s: State, s': State, t: Tenant)
    requires s'.log == s.log
    ensures LogOf(s', t) == LogOf(s, t)
    ensures LogOf(s, t).accepted + [] == LogOf(s, t).accepted
    ensures LogOf(s, t).completed + multiset{} == LogOf(s, t).completed
  {
  }

  /** Only a tick moves the list and the pointer; a new tenant joins at the end. */
  lemma {:induction false} PlacesAreHeld(c: Config, s: State, e: Event)
    requires !e.Tick?
    ensures var s' := Step(c, s, e);
      && s.tenantOrder <= s'.tenantOrder && s'.rrIndex == s.rrIndex
      && (s'.tenantOrder == s.tenantOrder || (BringsNewTenant(s, e) && s'.tenantOrder == s.tenantOrder + [e.job.tenantId]))
  {
    hide Idle;
  }

  lemma {:induction false} PausesFollow(c: Config, s: State, es: seq<Event>, t: Tenant)
    requires Inv(c, s) && Feasible(c, s, es)
    ensures t in Final(c, s, es).paused <==> PausedIn(t in s.paused, es, t)
    decreases |es|
  {
    hide Inv, TickStep, EnqueueStep, CompleteStep, Idle;
    if es != [] {
      var s1 := Step(c, s, es[0]);
      StepKeepsInv(c, s, es[0]);
      if es[0].Tick? {
        TickKeepsStopped(c, s);
      }
      EnqueueAndCompleteKeepFlags(s);
      PausesFollow(c, s1, es[1..], t);
      PausedSplit(t in s.paused, es, t);
      assert t in s1.paused <==> PausedIn(t in s.paused, [es[0]], t) by {
        assert [es[0]][..0] == [];
      }
    }
  }

  lemma EnqueueAndCompleteKeepFlags(s: State)
    ensures forall job :: EnqueueStep(s, job).paused == s.paused && CompleteStep(s, job).paused == s.paused
  {
  }

  lemma {:induction false} PausedSplit(before: bool, es: seq<Event>, t: Tenant)
    requires es != []
    ensures PausedIn(before, es, t) == PausedIn(PausedIn(before, [es[0]], t), es[1..], t)
  {
    var n := |es| - 1;
    if n == 0 {
      assert es == [es[0]] && es[1..] == [];
    } else {
      PausedSplit(before, es[..n], t);
      assert es[..n][1..] == es[1..][..n - 1];
    }
  }

  lemma {:induction false} StepWaits(c: Config, s: State, e: Event)
    requires Inv(c, s) && Enabled(s, e)
    ensures var s' := Step(c, s, e);
      s'.resolved + s'.drainResolvers == s.resolved + s.drainResolvers + Waits(s, e)
  {
    hide Inv, TickStep, Idle, Queue, LogOf;
    if e.Tick? {
      TickKeepsStopped(c, s);
    }
  }

  lemma {:induction false} TickKeepsStopped(c: Config, s: State)
    requires Inv(c, s)
    ensures var s' := TickStep(c, s); s'.stopped == s.stopped && s'.paused == s.paused && s'.tickScheduled == false
    ensures var s' := TickStep(c, s);
      (s'.drainResolvers == s.drainResolvers && s'.resolved == s.resolved)
      || (s'.drainResolvers == [] && s'.resolved == s.resolved + s.drainResolvers)
  {
    var s0 := s.(tickScheduled := false);
    SameBooks(c, s, s0);
    hide Books, Idle;
    LaunchFromFacts(c, s0, 0);
    hide LaunchFrom, Inv;
    AfterLoop(c, s0);
  }

  /** What follows the loop leaves the flags alone and wakes all who wait, or none. */
  lemma AfterLoop(c: Config, s: State)
    ensures var s1, s' := LaunchFrom(c, s, 0), ProcessTick(c, s);
      s.tenantOrder != [] ==>
        && s'.stopped == s1.stopped && s'.paused == s1.paused && s'.tickScheduled == s1.tickScheduled
        && ((s'.drainResolvers == s1.drainResolvers && s'.resolved == s1.resolved)
            || (s'.drainResolvers == [] && s'.resolved == s1.resolved + s1.drainResolvers))
  {
    hide LaunchFrom, Idle, Lingers, KeepLingering;
  }

  /**
   * Over every run, a tenant's accepted jobs are those enqueued before any stop, in order,
   * its completed jobs those that settled, and every caller of drain() that found the
   * scheduler busy has been woken or is still waiting, in order.
   */
  lemma {:induction false} HistoryIsTheRun(c: Config, s: State, es: seq<Event>, t: Tenant)
    requires Inv(c, s) && Feasible(c, s, es)
    ensures var s' := Final(c, s, es);
      && LogOf(s', t).accepted == LogOf(s, t).accepted + AcceptedIn(s.stopped, es, t)
      && LogOf(s', t).completed == LogOf(s, t).completed + CompletedIn(es, t)
      && s'.resolved + s'.drainResolvers == s.resolved + s.drainResolvers + WaitingIn(c, s, es)
    decreases |es|
  {
    hide Inv, Step, Idle;
    if es != [] {
      var s1 := Step(c, s, es[0]);
      StepHistory(c, s, es[0], t);
      StepWaits(c, s, es[0]);
      StepKeepsInv(c, s, es[0]);
      HistoryIsTheRun(c, s1, es[1..], t);
      hide Accepts, Completes, Waits, LogOf, Enabled, Feasible;
      Regroup(LogOf(s, t).accepted, Accepts(s.stopped, es[0], t), AcceptedIn(s1.stopped, es[1..], t));
      Regroup(s.resolved + s.drainResolvers, Waits(s, es[0]), WaitingIn(c, s1, es[1..]));
    }
  }

  lemma Regroup<T>(a: seq<T>, b: seq<T>, c: seq<T>)
    ensures a + b + c == a + (b + c)
  {
  }
}
