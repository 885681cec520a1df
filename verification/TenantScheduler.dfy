/**
 * The scheduler object itself. Every method is proved to take the step that
 * SchedulerSpec describes, so the results about runs hold of it.
 */
module TenantScheduling {
  import opened S = SchedulerSpec
  import T = SchedulerTicks

  lemma {:induction false} KeepLingeringAppend(s: State, a: seq<Tenant>, t: Tenant)
    ensures KeepLingering(s, a + [t]) == KeepLingering(s, a) + (if Lingers(s, t) then [t] else [])
  {
    hide Lingers;
    if a != [] {
      KeepLingeringAppend(s, a[1..], t);
      assert (a + [t])[1..] == a[1..] + [t];
    }
  }

  function SumDepth(ts: seq<Tenant>, queues: map<Tenant, seq<Job>>): nat {
    if ts == [] then 0
    else (if ts[|ts| - 1] in queues then |queues[ts[|ts| - 1]]| else 0) + SumDepth(ts[..|ts| - 1], queues)
  }

  lemma {:induction false} SumDepthZero(ts: seq<Tenant>, queues: map<Tenant, seq<Job>>)
    ensures SumDepth(ts, queues) == 0 <==> forall t | t in ts && t in queues :: queues[t] == []
  {
    if ts != [] {
      var last := ts[|ts| - 1];
      SumDepthZero(ts[..|ts| - 1], queues);
      assert forall t :: t in ts <==> t in ts[..|ts| - 1] || t == last;
    }
  }

  /** `now` is `full` without the tenants of `done` that have nothing left. */
  ghost predicate Swept<V>(s: State, full: map<Tenant, V>, now: map<Tenant, V>, done: seq<Tenant>) {
    now == map t | t in full && (Lingers(s, t) || t !in done) :: full[t]
  }

  lemma SweptNone<V>(s: State, full: map<Tenant, V>)
    ensures Swept(s, full, full, [])
  {
  }

  lemma {:induction false} SweptStep<V>(s: State, full: map<Tenant, V>, now: map<Tenant, V>, done: seq<Tenant>, t: Tenant)
    requires Swept(s, full, now, done) && t !in done
    ensures Swept(s, full, if Lingers(s, t) then now else now - {t}, done + [t])
    ensures t in now <==> t in full
    ensures t in now ==> now[t] == full[t]
  {
    hide Lingers;
  }

  lemma {:induction false} SweptAll<V>(s: State, full: map<Tenant, V>, now: map<Tenant, V>, done: seq<Tenant>)
    requires Swept(s, full, now, done) && forall t | t in full :: t in done
    ensures now == map t | t in full && Lingers(s, t) :: full[t]
  {
    hide Lingers;
  }

  lemma UpdateTwice<V>(m: map<Tenant, V>, t: Tenant, a: V, b: V)
    ensures m[t := a][t := b] == m[t := b]
  {
  }

  lemma OrderFacts(s: State)
    requires OrderInv(s)
    ensures NoDuplicates(s.tenantOrder)
    ensures forall t | t in s.subqueues :: t in s.tenantOrder
    ensures forall t | t in s.activeByTenant :: t in s.tenantOrder
  {
    assert s.activeByTenant.Keys <= s.subqueues.Keys;
  }

  lemma NotYetSeen(ts: seq<Tenant>, i: nat)
    requires NoDuplicates(ts) && i < |ts|
    ensures ts[i] !in ts[..i] && ts[..i + 1] == ts[..i] + [ts[i]]
  {
  }

  class TenantScheduler {
    const config: Config
    var subqueues: map<Tenant, seq<Job>>
    var tenantOrder: seq<Tenant>
    var rrIndex: nat
    var activeByTenant: map<Tenant, int>
    var globalActive: int
    var stopped: bool
    var drainResolvers: seq<nat>
    var tickScheduled: bool
    var pausedTenants: set<Tenant>  // the flags the isPaused callback reads
    ghost var resolved: seq<nat>
    ghost var log: map<Tenant, Log>

    ghost function Model(): State
      reads this
    {
      State(subqueues, tenantOrder, rrIndex, activeByTenant, globalActive, stopped,
            drainResolvers, tickScheduled, pausedTenants, resolved, log)
    }

    ghost predicate Valid()
      reads this
    {
      Inv(config, Model())
    }

    constructor (config: Config)
      ensures Valid() && Model() == INITIAL && this.config == config
    {
      this.config := config;
      subqueues, tenantOrder, rrIndex := map[], [], 0;
      activeByTenant, globalActive, stopped := map[], 0, false;
      drainResolvers, tickScheduled, pausedTenants := [], false, {};
      resolved, log := [], map[];
      new;
      InitialInv(config);
    }

    method Enqueue(job: Job)
      requires Valid()
      modifies this
      ensures Valid() && Model() == Step(config, old(Model()), Event.Enqueue(job))
    {
      ghost var before := Model();
      hide Inv, LogAccept;
      StepKeepsInv(config, before, Event.Enqueue(job));
      if stopped {
        return;
      }
      assert [] + [job] == [job];
      UpdateTwice(subqueues, job.tenantId, [], [job]);
      if job.tenantId !in subqueues {
        subqueues := subqueues[job.tenantId := []];
        tenantOrder := tenantOrder + [job.tenantId];
      }
      subqueues := subqueues[job.tenantId := subqueues[job.tenantId] + [job]];
      log := log[job.tenantId := LogAccept(LogOf(before, job.tenantId), job)];
      ScheduleTick();
    }

    method GetQueueDepth(tenantId: Tenant) returns (depth: nat)
      ensures depth == |Queue(Model(), tenantId)|
    {
      depth := if tenantId in subqueues then |subqueues[tenantId]| else 0;
    }

    /** The Map's insertion order is tenantOrder: keys are added and removed together. */
    method GetTotalQueueDepth() returns (total: nat)
      requires OrderInv(Model())
      ensures total == SumDepth(tenantOrder, subqueues)
      ensures total == 0 <==> forall t | t in subqueues :: subqueues[t] == []
    {
      total := 0;
      for i := 0 to |tenantOrder|
        invariant total == SumDepth(tenantOrder[..i], subqueues)
      {
        total := total + |subqueues[tenantOrder[i]]|;
        assert tenantOrder[..i + 1][..i] == tenantOrder[..i];
      }
      assert tenantOrder[..|tenantOrder|] == tenantOrder;
      SumDepthZero(tenantOrder, subqueues);
    }

    method Drain(id: nat) returns (immediate: bool)
      requires Valid()
      modifies this
      ensures Valid() && Model() == Step(config, old(Model()), Event.Drain(id))
      ensures immediate == Idle(Model())
    {
      ghost var before := Model();
      var depth := GetTotalQueueDepth();
      immediate := globalActive == 0 && depth == 0;
      assert immediate == Idle(before);
      if !immediate {
        drainResolvers := drainResolvers + [id];
      }
      hide Inv;
      StepKeepsInv(config, before, Event.Drain(id));
    }

    method Stop()
      requires Valid()
      modifies this
      ensures Valid() && Model() == Step(config, old(Model()), Event.Stop)
    {
      ghost var before := Model();
      hide Inv;
      stopped := true;
      StepKeepsInv(config, before, Event.Stop);
    }

    /** The caller has just flipped the flag; unpausing asks for a new pass. */
    method SetPaused(tenantId: Tenant, paused: bool)
      requires Valid()
      modifies this
      ensures Valid() && Model() == Step(config, old(Model()), Event.SetPaused(tenantId, paused))
    {
      ghost var before := Model();
      hide Inv;
      pausedTenants := if paused then pausedTenants + {tenantId} else pausedTenants - {tenantId};
      if !paused {
        ScheduleTick();
      }
      StepKeepsInv(config, before, Event.SetPaused(tenantId, paused));
    }

    method ScheduleTick()
      modifies this`tickScheduled
      ensures tickScheduled
    {
      if tickScheduled {
        return;
      }
      tickScheduled := true;
    }

    /** The queued microtask: one job of each tenant picked, and of no other, starts. */
    method RunTick()
      requires Valid() && tickScheduled
      modifies this
      ensures Valid() && Model() == Step(config, old(Model()), Event.Tick)
      ensures forall t :: T.Started(old(Model()), Model(), t, old(T.Picked(config, Model(), t)))
    {
      ghost var before := Model();
      hide LogInv, CapInv, OrderInv, S.ProcessTick;
      tickScheduled := false;
      SameBooks(config, before, Model());
      ProcessTick();
      assert Model() == TickStep(config, before);
      hide TickStep, Inv;
      forall t ensures T.Started(before, Model(), t, T.Picked(config, before, t)) {
        T.TickLaunchesExactly(config, before, t);
      }
    }

    /** One job leaves its queue and starts. */
    method LaunchNext(tenantId: Tenant)
      requires Queue(Model(), tenantId) != []
      modifies this`subqueues, this`activeByTenant, this`globalActive, this`log
      ensures Model() == Launch(old(Model()), tenantId)
    {
      hide LogLaunch;
      var queue := subqueues[tenantId];
      var tenantActive := if tenantId in activeByTenant then activeByTenant[tenantId] else 0;
      subqueues := subqueues[tenantId := queue[1..]];
      activeByTenant := activeByTenant[tenantId := tenantActive + 1];
      globalActive := globalActive + 1;
      log := log[tenantId := LogLaunch(if tenantId in log then log[tenantId] else NO_LOG, queue[0])];
    }

    method ProcessTick()
      requires Valid()
      modifies this
      ensures Valid() && Model() == S.ProcessTick(config, old(Model()))
    {
      ghost var before := Model();
      if |tenantOrder| == 0 {
        return;
      }
      var launched := LaunchLoop();
      hide LaunchFrom, Inv, LogInv, CapInv;
      if launched {
        rrIndex := (rrIndex + 1) % |tenantOrder|;
      }
      assert Model() == Advance(config, before);
      TickStages(config, before);
      CleanupEmptyTenants();
      CheckDrained();
    }

    method LaunchLoop() returns (launched: bool)
      requires Valid() && tenantOrder != []
      modifies this`subqueues, this`activeByTenant, this`globalActive, this`log
      ensures Model() == LaunchFrom(config, old(Model()), 0)
      ensures launched == TickLaunches(config, old(Model()))
    {
      ghost var before := Model();
      hide LogInv, CapInv, Launch;
      launched := false;
      var n := |tenantOrder|;
      for i := 0 to n
        invariant tenantOrder == before.tenantOrder && rrIndex == before.rrIndex
        invariant LaunchFrom(config, Model(), i) == LaunchFrom(config, before, 0)
        invariant globalActive >= before.globalActive
        invariant launched == (globalActive > before.globalActive)
      {
        if globalActive >= config.globalConcurrency {
          break;
        }
        var tenantId := tenantOrder[(rrIndex + i) % n];
        assert tenantId == Slot(Model(), i);
        if tenantId in pausedTenants {
          continue;
        }
        if tenantId !in subqueues || subqueues[tenantId] == [] {
          continue;
        }
        var tenantActive := if tenantId in activeByTenant then activeByTenant[tenantId] else 0;
        if tenantActive >= config.cap(tenantId) {
          continue;
        }
        LaunchNextCounts(Model(), tenantId);
        LaunchNext(tenantId);
        launched := true;
      }
    }

    method CleanupEmptyTenants()
      requires OrderInv(Model())
      modifies this`tenantOrder, this`subqueues, this`activeByTenant, this`rrIndex
      ensures Model() == Cleanup(old(Model()))
    {
      ghost var before := Model();
      var kept := Sweep();
      tenantOrder := kept;
      rrIndex := if |tenantOrder| > 0 then rrIndex % |tenantOrder| else 0;
    }

    /** The filter callback: drop a tenant's entries, or keep its place in the list. */
    method KeepsPlace(ghost before: State, tid: Tenant) returns (keep: bool)
      requires tid in subqueues <==> tid in before.subqueues
      requires tid in subqueues ==> subqueues[tid] == before.subqueues[tid]
      requires tid in activeByTenant <==> tid in before.activeByTenant
      requires tid in activeByTenant ==> activeByTenant[tid] == before.activeByTenant[tid]
      modifies this`subqueues, this`activeByTenant
      ensures keep == Lingers(before, tid)
      ensures subqueues == if keep then old(subqueues) else old(subqueues) - {tid}
      ensures activeByTenant == if keep then old(activeByTenant) else old(activeByTenant) - {tid}
    {
      var active := if tid in activeByTenant then activeByTenant[tid] else 0;
      if (tid !in subqueues || subqueues[tid] == []) && active == 0 {
        subqueues := subqueues - {tid};
        activeByTenant := activeByTenant - {tid};
        return false;
      }
      return true;
    }

    /** The whole filter over tenantOrder. */
    method Sweep() returns (kept: seq<Tenant>)
      requires OrderInv(Model())
      modifies this`subqueues, this`activeByTenant
      ensures kept == Cleanup(old(Model())).tenantOrder
      ensures subqueues == Cleanup(old(Model())).subqueues
      ensures activeByTenant == Cleanup(old(Model())).activeByTenant
    {
      ghost var before := Model();
      OrderFacts(before);
      hide OrderInv, KeepLingering, Swept, NoDuplicates;
      kept := [];
      SweptNone(before, subqueues);
      SweptNone(before, activeByTenant);
      assert tenantOrder[..0] == [] && KeepLingering(before, []) == [];
      for i := 0 to |tenantOrder|
        invariant kept == KeepLingering(before, tenantOrder[..i])
        invariant Swept(before, before.subqueues, subqueues, tenantOrder[..i])
        invariant Swept(before, before.activeByTenant, activeByTenant, tenantOrder[..i])
      {
        var tid := tenantOrder[i];
        NotYetSeen(tenantOrder, i);
        hide Lingers;
        KeepLingeringAppend(before, tenantOrder[..i], tid);
        SweptStep(before, before.subqueues, subqueues, tenantOrder[..i], tid);
        SweptStep(before, before.activeByTenant, activeByTenant, tenantOrder[..i], tid);
        var keep := KeepsPlace(before, tid);
        if keep {
          kept := kept + [tid];
        }
      }
      assert tenantOrder[..|tenantOrder|] == tenantOrder;
      SweptAll(before, before.subqueues, subqueues, tenantOrder);
      SweptAll(before, before.activeByTenant, activeByTenant, tenantOrder);
    }

    method CheckDrained()
      requires OrderInv(Model())
      modifies this`drainResolvers, this`resolved
      ensures Model() == S.CheckDrained(old(Model()))
    {
      ghost var before := Model();
      var depth := GetTotalQueueDepth();
      assert Idle(before) <==> globalActive == 0 && depth == 0;
      if globalActive == 0 && depth == 0 && |drainResolvers| > 0 {
        resolved := resolved + drainResolvers;
        drainResolvers := [];
      }
    }

    /** The finally-handler of a launched job, whether it succeeded or failed. */
    method CompleteJob(job: Job)
      requires Valid() && Enabled(Model(), Event.Complete(job))
      modifies this
      ensures Valid() && Model() == Step(config, old(Model()), Event.Complete(job))
    {
      ghost var before := Model();
      hide Inv, LogComplete;
      var prev := if job.tenantId in activeByTenant then activeByTenant[job.tenantId] else 1;
      activeByTenant := activeByTenant[job.tenantId := prev - 1];
      globalActive := globalActive - 1;
      log := log[job.tenantId := LogComplete(LogOf(before, job.tenantId), job)];
      ScheduleTick();
      StepKeepsInv(config, before, Event.Complete(job));
    }
  }

  lemma LaunchNextCounts(s: State, t: Tenant)
    requires Queue(s, t) != []
    ensures var s' := Launch(s, t);
      s'.globalActive == s.globalActive + 1 && s'.tenantOrder == s.tenantOrder && s'.rrIndex == s.rrIndex
  {
  }

  /** The list stays in order at each stage of a tick, and the whole tick keeps the invariant. */
  lemma {:induction false} TickStages(c: Config, s: State)
    requires Inv(c, s) && s.tenantOrder != []
    ensures OrderInv(Advance(c, s)) && OrderInv(Cleanup(Advance(c, s)))
    ensures Inv(c, S.ProcessTick(c, s))
  {
    hide LogInv, CapInv;
    TickKeepsInv(c, s);
    LaunchFromFacts(c, s, 0);
    SameBooks(c, LaunchFrom(c, s, 0), Advance(c, s));
    hide Cleanup, Advance, LaunchFrom;
    CleanupKeepsBooks(c, Advance(c, s));
  }
}
