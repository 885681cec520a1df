/**
 * What the scheduler promises its tenants: a waiting tenant is launched within a
 * bounded number of launching ticks, the scheduler does not stall while it has
 * room, a paused tenant never starts a job, and drain() wakes exactly when idle.
 */
module SchedulerFairness {
  import opened SchedulerSpec

  // ---------------------------------------------------------------------------
  // Pausing
  // ---------------------------------------------------------------------------

  lemma {:induction false} TickLog(c: Config, s: State)
    ensures TickStep(c, s).log == if s.tenantOrder == [] then s.log else LaunchFrom(c, s.(tickScheduled := false), 0).log
  {
    hide LaunchFrom, Cleanup;
    assert forall x: State :: Cleanup(x).log == x.log by {
      CleanupLog();
    }
  }

  lemma CleanupLog()
    ensures forall x: State :: Cleanup(x).log == x.log
  {
  }

  lemma {:induction false} TickLogs(c: Config, s: State, t: Tenant)
    requires Inv(c, s)
    ensures |LogOf(s, t).launched| <= |LogOf(TickStep(c, s), t).launched|
    ensures t in s.paused ==> LogOf(TickStep(c, s), t) == LogOf(s, t)
  {
    var s0 := s.(tickScheduled := false);
    SameBooks(c, s, s0);
    TickLog(c, s);
    hide Books, TickStep;
    LaunchFromFacts(c, s0, 0);
    hide LaunchFrom, Inv;
    assert LogOf(s0, t).launched <= LogOf(LaunchFrom(c, s0, 0), t).launched;
  }

  /** No step launches a job of a tenant that is paused when the step is taken. */
  lemma {:induction false} PausedIsNeverLaunched(c: Config, s: State, e: Event, t: Tenant)
    requires Inv(c, s) && Enabled(s, e) && t in s.paused
    ensures LogOf(Step(c, s, e), t).launched == LogOf(s, t).launched
  {
    hide Inv, TickStep, Idle;
    if e.Tick? {
      TickLogs(c, s, t);
    }
  }

  // ---------------------------------------------------------------------------
  // Drain
  // ---------------------------------------------------------------------------

  /** If callers wait in drain() while the scheduler is idle, a tick is on its way. */
  predicate DrainWillFire(s: State) {
    s.drainResolvers != [] && Idle(s) ==> s.tickScheduled
  }

  /** Resolvers fire only on a tick that ends idle, and then all of them at once. */
  lemma {:induction false} DrainIsExact(c: Config, s: State, e: Event)
    requires Inv(c, s) && Enabled(s, e)
    ensures var s' := Step(c, s, e);
      || (s'.resolved == s.resolved && s.drainResolvers <= s'.drainResolvers)
      || (e.Tick? && Idle(s') && s'.drainResolvers == [] && s'.resolved == s.resolved + s.drainResolvers)
  {
    if e.Tick? {
      var s0 := s.(tickScheduled := false);
      SameBooks(c, s, s0);
      hide Books;
      LaunchFromFacts(c, s0, 0);
      hide LaunchFrom, Inv, Idle;
      if s0.tenantOrder != [] {
        var s2 := Cleanup(Advance(c, s0));
        CheckDrainedIdle(s2);
        assert s2.drainResolvers == s.drainResolvers && s2.resolved == s.resolved;
      }
    }
  }

  lemma CheckDrainedIdle(s: State)
    ensures Idle(CheckDrained(s)) == Idle(s)
  {
  }

  lemma {:induction false} DrainWillFireStep(c: Config, s: State, e: Event)
    requires Inv(c, s) && Enabled(s, e) && DrainWillFire(s)
    ensures DrainWillFire(Step(c, s, e))
  {
    match e
    case Tick =>
      StepKeepsInv(c, s, e);
      var s0 := s.(tickScheduled := false);
      hide Books, Idle, Advance, Cleanup;
      if s0.tenantOrder != [] {
        CheckDrainedIdle(Cleanup(Advance(c, s0)));
      }
    case Drain(_) => CheckIdleAgree(s, Step(c, s, e));
    case Stop => CheckIdleAgree(s, Step(c, s, e));
    case SetPaused(_, _) => CheckIdleAgree(s, Step(c, s, e));
    case PauseFlags(_) => CheckIdleAgree(s, Step(c, s, e));
    case _ =>
      hide Inv, Idle;
  }

  lemma CheckIdleAgree(s: State, s': State)
    requires s'.globalActive == s.globalActive && s'.subqueues == s.subqueues
    ensures Idle(s') == Idle(s)
  {
  }

  lemma {:induction false} DrainWillFireOverRuns(c: Config, s: State, es: seq<Event>)
    requires Inv(c, s) && Feasible(c, s, es) && DrainWillFire(s)
    ensures DrainWillFire(Final(c, s, es))
    decreases |es|
  {
    if es != [] {
      DrainWillFireStep(c, s, es[0]);
      StepKeepsInv(c, s, es[0]);
      DrainWillFireOverRuns(c, Step(c, s, es[0]), es[1..]);
    }
  }

  // ---------------------------------------------------------------------------
  // No stall
  // ---------------------------------------------------------------------------

  predicate Startable(c: Config, s: State, t: Tenant) {
    t !in s.paused && c.cap(t) >= 1 && Queue(s, t) != []
  }

  /** With no tick on its way, startable work means something is running. */
  ghost predicate NotStalled(c: Config, s: State) {
    s.tickScheduled || s.globalActive >= 1 || forall t :: !Startable(c, s, t)
  }

  /** The one way round setPaused that breaks the promise: a flag cleared silently. */
  predicate PausesOpenly(s: State, e: Event) {
    e.PauseFlags? ==> s.paused <= e.now
  }

  /** A pass that launches nothing although there is room found nobody eligible. */
  lemma {:induction false} NothingEligible(c: Config, s: State, i: nat, k: nat)
    requires LaunchFrom(c, s, i).globalActive == s.globalActive < c.globalConcurrency
    requires i <= k < |s.tenantOrder|
    ensures !Eligible(c, s, Slot(s, k))
    decreases |s.tenantOrder| - i
  {
    hide Eligible, Slot, Launch;
    LaunchFromOnlyGrows(c, Visit(c, s, Slot(s, i)), i + 1);
    LaunchCounts(s, Slot(s, i));
    if i < k {
      NothingEligible(c, s, i + 1, k);
    }
  }

  lemma LaunchCounts(s: State, t: Tenant)
    ensures Queue(s, t) != [] ==> Launch(s, t).globalActive == s.globalActive + 1
    ensures forall c :: Eligible(c, s, t) ==> Queue(s, t) != []
  {
  }

  lemma {:induction false} LaunchFromOnlyGrows(c: Config, s: State, i: nat)
    ensures LaunchFrom(c, s, i).globalActive >= s.globalActive
    decreases |s.tenantOrder| - i
  {
    hide Slot;
    if i < |s.tenantOrder| && s.globalActive < c.globalConcurrency {
      LaunchFromOnlyGrows(c, Visit(c, s, Slot(s, i)), i + 1);
    }
  }

  lemma RoundTrip(n: nat, start: nat, pos: nat)
    requires start < n && pos < n
    ensures (start + (if pos >= start then pos - start else pos + n - start)) % n == pos
  {
    if pos < start {
      assert (pos + n) % n == pos;
    }
  }

  function PosOf(ts: seq<Tenant>, t: Tenant): (p: nat)
    requires t in ts
    ensures p < |ts| && ts[p] == t
  {
    if ts[0] == t then 0 else 1 + PosOf(ts[1..], t)
  }

  /** How many slots the pointer is before tenant `t`. */
  function Distance(s: State, t: Tenant): (d: nat)
    requires t in s.tenantOrder && s.rrIndex < |s.tenantOrder|
    ensures d < |s.tenantOrder|
  {
    var p := PosOf(s.tenantOrder, t);
    if p >= s.rrIndex then p - s.rrIndex else p + |s.tenantOrder| - s.rrIndex
  }

  /** Going once round from rrIndex meets every tenant, at its distance. */
  lemma {:induction false} SlotMeets(s: State, t: Tenant)
    requires t in s.tenantOrder && s.rrIndex < |s.tenantOrder|
    ensures Slot(s, Distance(s, t)) == t
  {
    RoundTrip(|s.tenantOrder|, s.rrIndex, PosOf(s.tenantOrder, t));
  }

  /** After a tick that leaves nothing active, nobody startable is left behind. */
  lemma {:induction false} TickLeavesNoneStartable(c: Config, s: State, t: Tenant)
    requires Inv(c, s) && c.globalConcurrency >= 1 && TickStep(c, s).globalActive == 0
    ensures !Startable(c, TickStep(c, s), t)
  {
    var s0 := s.(tickScheduled := false);
    SameBooks(c, s, s0);
    LaunchFromFacts(c, s0, 0);
    TickQueues(c, s, t);
    SumActiveBounds(s0.tenantOrder, s0.activeByTenant);
    if t in s0.tenantOrder {
      SlotMeets(s0, t);
      NothingEligible(c, s0, 0, Distance(s0, t));
    }
    hide LogInv, TickStep, LaunchFrom;
  }

  lemma {:induction false} TickQueues(c: Config, s: State, t: Tenant)
    ensures var s1 := if s.tenantOrder == [] then s else LaunchFrom(c, s.(tickScheduled := false), 0);
      && Queue(TickStep(c, s), t) == Queue(s1, t)
      && TickStep(c, s).globalActive == s1.globalActive
      && TickStep(c, s).paused == s1.paused
  {
    if s.tenantOrder != [] {
      var s1 := Advance(c, s.(tickScheduled := false));
      CleanupKeepsQueues(s1);
      hide LaunchFrom, Idle;
      assert Cleanup(s1).globalActive == s1.globalActive && Cleanup(s1).paused == s1.paused;
      hide Cleanup;
    }
  }

  lemma {:induction false} NotStalledStep(c: Config, s: State, e: Event)
    requires Inv(c, s) && Enabled(s, e) && NotStalled(c, s)
    requires c.globalConcurrency >= 1 && PausesOpenly(s, e)
    ensures NotStalled(c, Step(c, s, e))
  {
    var s' := Step(c, s, e);
    if e.Tick? {
      StepKeepsInv(c, s, e);
      hide LogInv, OrderInv, TickStep, Startable;
      forall t | s'.globalActive == 0 ensures !Startable(c, s', t) {
        TickLeavesNoneStartable(c, s, t);
      }
    } else {
      hide Inv, Idle;
      if !s.tickScheduled && s.globalActive < 1 && !s'.tickScheduled {
        forall t ensures !Startable(c, s', t) {
          assert !Startable(c, s, t);
        }
      }
    }
  }

  ghost predicate AllPauseOpenly(c: Config, s: State, es: seq<Event>)
    decreases |es|
  {
    es == [] || (PausesOpenly(s, es[0]) && AllPauseOpenly(c, Step(c, s, es[0]), es[1..]))
  }

  /** As long as flags are only cleared through setPaused, no run stalls. */
  lemma {:induction false} NeverStalls(c: Config, s: State, es: seq<Event>)
    requires Inv(c, s) && NotStalled(c, s) && Feasible(c, s, es)
    requires c.globalConcurrency >= 1 && AllPauseOpenly(c, s, es)
    ensures NotStalled(c, Final(c, s, es))
    decreases |es|
  {
    if es != [] {
      NotStalledStep(c, s, es[0]);
      StepKeepsInv(c, s, es[0]);
      hide Inv, NotStalled, Step;
      NeverStalls(c, Step(c, s, es[0]), es[1..]);
    }
  }

  /**
   * Clearing flags without calling setPaused stalls the scheduler exactly when it
   * was at rest and a tenant so freed has startable work.
   */
  lemma {:induction false} SilentUnpauseStalls(c: Config, s: State, now: set<Tenant>)
    requires NotStalled(c, s)
    ensures NotStalled(c, Step(c, s, PauseFlags(now))) <==>
      || s.tickScheduled
      || s.globalActive >= 1
      || forall t | t in s.paused - now :: c.cap(t) < 1 || Queue(s, t) == []
  {
    var s' := Step(c, s, PauseFlags(now));
    forall t ensures Startable(c, s', t) <==> t !in now && c.cap(t) >= 1 && Queue(s, t) != [] {
    }
    forall t ensures Startable(c, s, t) <==> t !in s.paused && c.cap(t) >= 1 && Queue(s, t) != [] {
    }
  }

  // ---------------------------------------------------------------------------
  // Bounded waiting
  // ---------------------------------------------------------------------------

  function Triangle(n: nat): nat {
    if n == 0 then 0 else Triangle(n - 1) + n
  }

  lemma {:induction false} TriangleClosed(n: nat)
    ensures 2 * Triangle(n) == n * (n + 1)
  {
    if n > 0 {
      TriangleClosed(n - 1);
    }
  }

  lemma {:induction false} TriangleMonotone(m: nat, n: nat)
    requires m <= n
    ensures Triangle(m) <= Triangle(n)
  {
    if m < n {
      TriangleMonotone(m, n - 1);
    }
  }

  /** An upper bound on the launching ticks tenant `t` may still be skipped by. */
  function Patience(s: State, t: Tenant): nat {
    var n := |s.tenantOrder|;
    if t in s.tenantOrder && s.rrIndex < n then Triangle(n - 1) + Distance(s, t) else 0
  }

  /** At distance zero a launching tick launches the tenant. */
  lemma {:induction false} FirstInLineIsLaunched(c: Config, s: State, t: Tenant)
    requires Inv(c, s) && TickLaunches(c, s) && Eligible(c, s, t)
    requires t in s.tenantOrder && Distance(s, t) == 0
    ensures |LogOf(LaunchFrom(c, s, 0), t).launched| > |LogOf(s, t).launched|
  {
    SlotMeets(s, t);
    var s1 := Launch(s, t);
    assert LogOf(s1, t).launched == LogOf(s, t).launched + [Queue(s, t)[0]];
    assert LaunchFrom(c, s, 0) == LaunchFrom(c, s1, 1);
    LaunchKeepsInv(c, s, t);
    hide Inv, Launch, Distance, Slot, Eligible, LaunchFrom;
    LaunchFromFacts(c, s1, 1);
  }

  lemma ModFacts(x: nat, n: nat)
    requires n > 0
    ensures x % n < n && (x < n ==> x % n == x)
  {
  }

  /** Cutting the list never leaves more patience than a full round at its old length. */
  lemma {:induction false} ShorterListPatience(s: State, s': State, t: Tenant)
    requires |s'.tenantOrder| < |s.tenantOrder|
    requires t in s'.tenantOrder ==> t in s.tenantOrder
    requires t in s.tenantOrder ==> s.rrIndex < |s.tenantOrder|
    ensures Patience(s', t) == 0 || Patience(s', t) < Triangle(|s.tenantOrder| - 1) <= Patience(s, t)
  {
    if t in s'.tenantOrder {
      TriangleMonotone(|s'.tenantOrder|, |s.tenantOrder| - 1);
    }
  }

  lemma CleanupShape(s: State)
    ensures Cleanup(s).tenantOrder == KeepLingering(s, s.tenantOrder)
    ensures var n := |Cleanup(s).tenantOrder|; Cleanup(s).rrIndex == if n == 0 then 0 else s.rrIndex % n
  {
  }

  /** Cleanup either leaves the list as it is or shortens it, and never costs patience. */
  lemma {:induction false} CleanupPatience(s: State, t: Tenant)
    requires NoDuplicates(s.tenantOrder) && s.rrIndex < |s.tenantOrder|
    ensures var p' := Patience(Cleanup(s), t);
      || p' == Patience(s, t)
      || p' < Triangle(|s.tenantOrder| - 1) <= Patience(s, t)
      || p' == 0
  {
    var s' := Cleanup(s);
    CleanupShape(s);
    hide Cleanup, Patience, Lingers;
    KeepLingeringFacts(s, s.tenantOrder);
    hide KeepLingering, SumActive, NoDuplicates;
    if |s'.tenantOrder| < |s.tenantOrder| {
      ShorterListPatience(s, s', t);
    } else {
      ModFacts(s.rrIndex, |s.tenantOrder|);
      SamePlacePatience(s, s', t);
    }
  }

  lemma SamePlacePatience(s: State, s': State, t: Tenant)
    requires s'.tenantOrder == s.tenantOrder && s'.rrIndex == s.rrIndex
    ensures Patience(s', t) == Patience(s, t)
  {
  }

  lemma {:induction false} PointerStep(s: State, t: Tenant)
    requires t in s.tenantOrder && s.rrIndex < |s.tenantOrder|
    ensures var s' := s.(rrIndex := (s.rrIndex + 1) % |s.tenantOrder|);
      Distance(s, t) > 0 ==> Patience(s', t) == Patience(s, t) - 1
  {
    var n := |s.tenantOrder|;
    if s.rrIndex + 1 == n {
      assert (s.rrIndex + 1) % n == 0;
    } else {
      assert (s.rrIndex + 1) % n == s.rrIndex + 1;
    }
  }

  lemma {:induction false} AdvancePlace(c: Config, s: State, s0: State)
    requires Inv(c, s) && s.tenantOrder != [] && s0 == s.(tickScheduled := false)
    ensures var s1 := Advance(c, s0);
      && s1.tenantOrder == s.tenantOrder && NoDuplicates(s.tenantOrder)
      && s1.rrIndex == (if TickLaunches(c, s0) then (s.rrIndex + 1) % |s.tenantOrder| else s.rrIndex) < |s.tenantOrder|
  {
    hide LogInv, CapInv, NoDuplicates, LaunchFrom;
    SameBooks(c, s, s0);
    assert s.rrIndex < |s.tenantOrder| && NoDuplicates(s.tenantOrder);
    hide Books;
    LaunchFromFacts(c, s0, 0);
    ModFacts(s.rrIndex + 1, |s.tenantOrder|);
  }

  /** Where a tick leaves the list and the pointer. */
  lemma {:induction false} TickPlace(c: Config, s: State, t: Tenant)
    requires Inv(c, s) && s.tenantOrder != []
    ensures var n := |s.tenantOrder|;
      var rr := if TickLaunches(c, s.(tickScheduled := false)) then (s.rrIndex + 1) % n else s.rrIndex;
      var p := Patience(s.(rrIndex := rr), t);
      var p' := Patience(TickStep(c, s), t);
      p' == p || p' < Triangle(n - 1) <= p || p' == 0
  {
    hide Inv, TickStep, Patience, Advance, TickLaunches;
    var s0 := s.(tickScheduled := false);
    var s1 := Advance(c, s0);
    AdvancePlace(c, s, s0);
    AfterAdvancePatience(c, s, s1, t);
    hide NoDuplicates;
    SamePlacePatience(s.(rrIndex := s1.rrIndex), s1, t);
  }

  lemma {:induction false} AfterAdvancePatience(c: Config, s: State, s1: State, t: Tenant)
    requires s.tenantOrder != [] && s1 == Advance(c, s.(tickScheduled := false))
    requires NoDuplicates(s1.tenantOrder) && s1.rrIndex < |s1.tenantOrder|
    ensures var p' := Patience(TickStep(c, s), t);
      p' == Patience(s1, t) || p' < Triangle(|s1.tenantOrder| - 1) <= Patience(s1, t) || p' == 0
  {
    hide Advance, Patience, Idle;
    CleanupPatience(s1, t);
    hide Cleanup, NoDuplicates;
    SamePlacePatience(Cleanup(s1), TickStep(c, s), t);
  }

  /** A launching tick that passes over an eligible tenant costs it patience. */
  lemma {:induction false} SkippedMeansCloser(c: Config, s: State, t: Tenant)
    requires Inv(c, s) && TickLaunches(c, s.(tickScheduled := false)) && Eligible(c, s, t)
    ensures
      || |LogOf(TickStep(c, s), t).launched| > |LogOf(s, t).launched|
      || Patience(TickStep(c, s), t) < Patience(s, t)
  {
    hide TickStep, LogInv, CapInv, LaunchFrom;
    var s0 := s.(tickScheduled := false);
    assert t in s.tenantOrder && s.rrIndex < |s.tenantOrder|;
    TickPlace(c, s, t);
    TickLog(c, s);
    if Distance(s, t) == 0 {
      SameBooks(c, s, s0);
      FirstInLineIsLaunched(c, s0, t);
    } else {
      PointerStep(s, t);
      assert Patience(s, t) >= Triangle(|s.tenantOrder| - 1) + 1;
    }
  }

  lemma {:induction false} QuietTickPatience(c: Config, s: State, t: Tenant)
    requires Inv(c, s) && !TickLaunches(c, s.(tickScheduled := false))
    ensures Patience(TickStep(c, s), t) <= Patience(s, t)
  {
    if s.tenantOrder != [] {
      TickPlace(c, s, t);
      hide Books, TickStep, LaunchFrom;
      SamePlacePatience(s, s.(rrIndex := s.rrIndex), t);
    }
  }

  predicate BringsNewTenant(s: State, e: Event) {
    e.Enqueue? && !s.stopped && e.job.tenantId !in s.subqueues
  }

  predicate IsLaunchingTick(c: Config, s: State, e: Event) {
    e.Tick? && TickLaunches(c, s.(tickScheduled := false))
  }

  function LaunchingTicks(c: Config, s: State, es: seq<Event>): nat
    decreases |es|
  {
    if es == [] then 0
    else (if IsLaunchingTick(c, s, es[0]) then 1 else 0) + LaunchingTicks(c, Step(c, s, es[0]), es[1..])
  }

  /** No new tenant arrives, and `t` could run whenever a tick launches anything. */
  predicate WaitsReady(c: Config, s: State, es: seq<Event>, t: Tenant)
    decreases |es|
  {
    es == [] ||
    (&& !BringsNewTenant(s, es[0])
     && (IsLaunchingTick(c, s, es[0]) ==> Eligible(c, s, t))
     && WaitsReady(c, Step(c, s, es[0]), es[1..], t))
  }

  lemma {:induction false} StepPatience(c: Config, s: State, e: Event, t: Tenant)
    requires Inv(c, s) && Enabled(s, e) && !BringsNewTenant(s, e)
    requires IsLaunchingTick(c, s, e) ==> Eligible(c, s, t)
    ensures
      || |LogOf(Step(c, s, e), t).launched| > |LogOf(s, t).launched|
      || Patience(Step(c, s, e), t) + (if IsLaunchingTick(c, s, e) then 1 else 0) <= Patience(s, t)
  {
    if e.Tick? {
      if IsLaunchingTick(c, s, e) {
        SkippedMeansCloser(c, s, t);
      } else {
        QuietTickPatience(c, s, t);
      }
    } else {
      hide Inv, Idle;
      SamePlacePatience(s, Step(c, s, e), t);
    }
  }

  lemma {:induction false} LaunchedOnlyGrows(c: Config, s: State, e: Event, t: Tenant)
    requires Inv(c, s) && Enabled(s, e)
    ensures |LogOf(s, t).launched| <= |LogOf(Step(c, s, e), t).launched|
  {
    hide Inv, TickStep, Idle;
    if e.Tick? {
      TickLogs(c, s, t);
    }
  }

  lemma {:induction false} LaunchedOnlyGrowsOverRuns(c: Config, s: State, es: seq<Event>, t: Tenant)
    requires Inv(c, s) && Feasible(c, s, es)
    ensures |LogOf(s, t).launched| <= |LogOf(Final(c, s, es), t).launched|
    decreases |es|
  {
    if es != [] {
      LaunchedOnlyGrows(c, s, es[0], t);
      StepKeepsInv(c, s, es[0]);
      hide Inv, Step, LogOf;
      LaunchedOnlyGrowsOverRuns(c, Step(c, s, es[0]), es[1..], t);
    }
  }

  lemma {:induction false} LaunchedOrCounted(c: Config, s: State, es: seq<Event>, t: Tenant)
    requires Inv(c, s) && Feasible(c, s, es) && WaitsReady(c, s, es, t)
    ensures
      || |LogOf(Final(c, s, es), t).launched| > |LogOf(s, t).launched|
      || LaunchingTicks(c, s, es) + Patience(Final(c, s, es), t) <= Patience(s, t)
    decreases |es|
  {
    if es != [] {
      var s' := Step(c, s, es[0]);
      StepPatience(c, s, es[0], t);
      StepKeepsInv(c, s, es[0]);
      LaunchedOnlyGrows(c, s, es[0], t);
      hide Inv, Step, LogOf, Patience, IsLaunchingTick, Eligible;
      LaunchedOrCounted(c, s', es[1..], t);
      LaunchedOnlyGrowsOverRuns(c, s', es[1..], t);
    }
  }

  /**
   * Bounded waiting. Over any run that brings no new tenant and in which `t` is
   * eligible whenever a tick launches something, n(n+1)/2 launching ticks are
   * enough for `t` to be launched, n being the number of tenants listed.
   */
  lemma {:induction false} BoundedWaiting(c: Config, s: State, es: seq<Event>, t: Tenant)
    requires Inv(c, s) && Feasible(c, s, es) && WaitsReady(c, s, es, t)
    requires t in s.tenantOrder
    requires 2 * LaunchingTicks(c, s, es) >= |s.tenantOrder| * (|s.tenantOrder| + 1)
    ensures |LogOf(Final(c, s, es), t).launched| > |LogOf(s, t).launched|
  {
    var n := |s.tenantOrder|;
    LaunchedOrCounted(c, s, es, t);
    TriangleClosed(n);
    hide Books, Final, LaunchingTicks, LogOf, WaitsReady, Feasible;
    assert Patience(s, t) < Triangle(n);
  }
}
