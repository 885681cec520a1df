/** The adaptive debounce batcher: coalescing a stream of file events without changing its effect. */
module Debounce {
  import opened CodeUnits
  import opened Prelude
  import opened Sorting

  type Path = Text

  datatype Options = Options(
    initialMs: nat,
    maxMs: int,
    growthFactor: real,
    burstThreshold: int,
    maxBatchSize: int)

  /** One call of the flush handler, as sets. */
  datatype Batch = Batch(adds: set<Path>, deletes: set<Path>)

  /** `timer` holds the delay an armed timer was set to. */
  datatype State = State(
    pending: set<Path>,
    pendingDeletes: set<Path>,
    timer: Option<int>,
    currentWait: int,
    eventsSinceLastFlush: nat,
    stopped: bool,
    flushed: seq<Batch>)

  datatype Event = Push(path: Path) | PushDelete(path: Path) | TimerFires | FlushNow | Stop

  function Size(s: State): nat {
    |s.pending| + |s.pendingDeletes|
  }

  /** Math.round: to the nearest integer, halves upwards. */
  function Round(x: real): int {
    (x + 0.5).Floor
  }

  function Min(a: int, b: int): int {
    if a <= b then a else b
  }

  function Start(o: Options): State {
    State({}, {}, None, o.initialMs, 0, false, [])
  }

  function Flush(o: Options, s: State): State {
    var s' := s.(timer := None);
    if Size(s) == 0 then s'
    else s'.(pending := {}, pendingDeletes := {}, eventsSinceLastFlush := 0, currentWait := o.initialMs,
             flushed := s.flushed + [Batch(s.pending, s.pendingDeletes)])
  }

  function GrownWait(o: Options, wait: int, events: nat): int {
    if events >= o.burstThreshold then Min(o.maxMs, Round(wait as real * o.growthFactor)) else wait
  }

  function Registered(o: Options, s: State): State {
    var n := s.eventsSinceLastFlush + 1;
    var s' := s.(eventsSinceLastFlush := n, currentWait := GrownWait(o, s.currentWait, n));
    if Size(s') >= o.maxBatchSize then Flush(o, s') else s'.(timer := Some(s'.currentWait))
  }

  function After(o: Options, s: State, e: Event): State {
    match e
    case Push(p) =>
      if s.stopped then s
      else Registered(o, s.(pending := s.pending + {p}, pendingDeletes := s.pendingDeletes - {p}))
    case PushDelete(p) =>
      if s.stopped then s
      else Registered(o, s.(pending := s.pending - {p}, pendingDeletes := s.pendingDeletes + {p}))
    case TimerFires => if s.timer.Some? then Flush(o, s) else s
    case FlushNow => Flush(o, s)
    case Stop => s.(stopped := true, timer := None, pending := {}, pendingDeletes := {})
  }

  function Run(o: Options, events: seq<Event>): State {
    if events == [] then Start(o) else After(o, Run(o, events[..|events| - 1]), events[|events| - 1])
  }

  // ---------------------------------------------------------------------------
  // What holds between events
  // ---------------------------------------------------------------------------

  predicate WaitInRange(o: Options, wait: int) {
    o.growthFactor >= 1.0 && o.initialMs <= o.maxMs ==> o.initialMs <= wait <= o.maxMs
  }

  predicate Inv(o: Options, s: State) {
    && s.pending !! s.pendingDeletes
    && (Size(s) == 0 || Size(s) < o.maxBatchSize)
    && (s.timer.Some? <==> Size(s) > 0)
    && (s.timer.Some? ==> s.timer.value == s.currentWait)
    && (s.stopped ==> Size(s) == 0)
    && WaitInRange(o, s.currentWait)
  }

  lemma ProductNotNegative(a: real, b: real)
    requires a >= 0.0 && b >= 0.0
    ensures a * b >= 0.0
  {
  }

  lemma {:induction false} WaitStaysInRange(o: Options, wait: int, events: nat)
    requires o.growthFactor >= 1.0 && o.initialMs <= wait <= o.maxMs
    ensures wait <= GrownWait(o, wait, events) <= o.maxMs
  {
    var grown := wait as real * o.growthFactor;
    assert grown - wait as real == wait as real * (o.growthFactor - 1.0);
    ProductNotNegative(wait as real, o.growthFactor - 1.0);
    assert Round(grown) >= wait;
  }

  lemma FlushKeepsInv(o: Options, s: State)
    requires WaitInRange(o, s.currentWait) && (s.stopped ==> Size(s) == 0)
    ensures Inv(o, Flush(o, s))
  {
  }

  lemma RegisterKeepsInv(o: Options, s: State)
    requires s.pending !! s.pendingDeletes && Size(s) > 0 && !s.stopped && WaitInRange(o, s.currentWait)
    ensures Inv(o, Registered(o, s))
  {
    hide GrownWait, Flush;
    var n := s.eventsSinceLastFlush + 1;
    var s' := s.(eventsSinceLastFlush := n, currentWait := GrownWait(o, s.currentWait, n));
    assert Size(s') == Size(s'.(timer := Some(s'.currentWait))) == Size(s);
    hide Size;
    if o.growthFactor >= 1.0 && o.initialMs <= o.maxMs {
      WaitStaysInRange(o, s.currentWait, n);
    }
    FlushKeepsInv(o, s');
  }

  lemma {:induction false} AfterKeepsInv(o: Options, s: State, e: Event)
    requires Inv(o, s)
    ensures Inv(o, After(o, s, e))
  {
    hide GrownWait, WaitInRange, Registered, Flush;
    match e {
      case Push(p) =>
        var s' := s.(pending := s.pending + {p}, pendingDeletes := s.pendingDeletes - {p});
        assert p in s'.pending;
        if !s.stopped { RegisterKeepsInv(o, s'); }
      case PushDelete(p) =>
        var s' := s.(pending := s.pending - {p}, pendingDeletes := s.pendingDeletes + {p});
        assert p in s'.pendingDeletes;
        if !s.stopped { RegisterKeepsInv(o, s'); }
      case Stop =>
      case _ =>
        FlushKeepsInv(o, s);
    }
  }

  /**
   * After every run: no path is both added and deleted, the buffer is below the batch
   * cap, a timer is armed exactly when something is buffered, and the window lies
   * between its initial and its largest length.
   */
  lemma {:induction false} SafetyOverRuns(o: Options, events: seq<Event>)
    ensures Inv(o, Run(o, events))
  {
    assert Inv(o, Start(o));
    hide Inv, After;
    if events != [] {
      SafetyOverRuns(o, events[..|events| - 1]);
      AfterKeepsInv(o, Run(o, events[..|events| - 1]), events[|events| - 1]);
    }
  }

  // ---------------------------------------------------------------------------
  // Batching preserves the effect of the stream
  // ---------------------------------------------------------------------------

  type Files = set<Path>

  function ReplayEvent(files: Files, e: Event): Files {
    match e
    case Push(p) => files + {p}
    case PushDelete(p) => files - {p}
    case _ => files
  }

  function ReplayStream(files: Files, events: seq<Event>): Files {
    if events == [] then files
    else ReplayEvent(ReplayStream(files, events[..|events| - 1]), events[|events| - 1])
  }

  /** The handler takes the adds first and the deletes after. */
  function ReplayBatch(files: Files, b: Batch): Files {
    files + b.adds - b.deletes
  }

  function ReplayBatches(files: Files, bs: seq<Batch>): Files {
    if bs == [] then files else ReplayBatch(ReplayBatches(files, bs[..|bs| - 1]), bs[|bs| - 1])
  }

  /** What the batches and then the buffer make of a set of files. */
  function Effect(files: Files, s: State): Files {
    ReplayBatch(ReplayBatches(files, s.flushed), Batch(s.pending, s.pendingDeletes))
  }

  lemma {:induction false} FlushKeepsEffect(o: Options, s: State, files: Files)
    ensures Effect(files, Flush(o, s)) == Effect(files, s)
  {
    var b := Batch(s.pending, s.pendingDeletes);
    assert (s.flushed + [b])[..|s.flushed|] == s.flushed;
    if Size(s) == 0 {
      assert s.pending == {} && s.pendingDeletes == {};
    }
  }

  lemma {:induction false} RegisterKeepsEffect(o: Options, s: State, files: Files)
    ensures Effect(files, Registered(o, s)) == Effect(files, s)
  {
    hide Flush, GrownWait, ReplayBatches;
    var n := s.eventsSinceLastFlush + 1;
    FlushKeepsEffect(o, s.(eventsSinceLastFlush := n, currentWait := GrownWait(o, s.currentWait, n)), files);
  }

  lemma StaysRunning(o: Options, s: State, e: Event)
    requires !s.stopped && !e.Stop?
    ensures !After(o, s, e).stopped
  {
  }

  lemma {:induction false} AfterHasEffect(o: Options, s: State, e: Event, files: Files)
    requires !s.stopped && !e.Stop?
    ensures Effect(files, After(o, s, e)) == ReplayEvent(Effect(files, s), e)
    ensures !After(o, s, e).stopped
  {
    hide Flush, Registered, ReplayBatches;
    match e {
      case Push(p) =>
        RegisterKeepsEffect(o, s.(pending := s.pending + {p}, pendingDeletes := s.pendingDeletes - {p}), files);
      case PushDelete(p) =>
        RegisterKeepsEffect(o, s.(pending := s.pending - {p}, pendingDeletes := s.pendingDeletes + {p}), files);
      case _ =>
        FlushKeepsEffect(o, s, files);
    }
    StaysRunning(o, s, e);
  }

  /**
   * Until the batcher is stopped: on any set of files, handing over the batches and
   * then the buffer has the effect of the raw stream of events.
   */
  lemma {:induction false} BatchingPreservesEffect(o: Options, events: seq<Event>, files: Files)
    requires Stop !in events
    ensures Effect(files, Run(o, events)) == ReplayStream(files, events)
    ensures !Run(o, events).stopped
  {
    hide After, ReplayEvent;
    if events == [] {
      assert files + {} - {} == files;
    } else {
      BatchingPreservesEffect(o, events[..|events| - 1], files);
      AfterHasEffect(o, Run(o, events[..|events| - 1]), events[|events| - 1], files);
    }
  }

  /** Once the timer has fired, or flushNow has run, the batches alone have the effect. */
  lemma {:induction false} FlushedIsComplete(o: Options, events: seq<Event>, last: Event, files: Files)
    requires Stop !in events && (last == FlushNow || last == TimerFires)
    ensures ReplayBatches(files, Run(o, events + [last]).flushed) == ReplayStream(files, events)
  {
    hide ReplayBatches;
    var s := Run(o, events);
    SafetyOverRuns(o, events);
    BatchingPreservesEffect(o, events, files);
    FlushKeepsEffect(o, s, files);
    assert (events + [last])[..|events|] == events;
    assert ReplayBatches(files, Flush(o, s).flushed) + {} - {} == ReplayBatches(files, Flush(o, s).flushed);
    assert Size(s) == 0 ==> s.pending == {} && s.pendingDeletes == {};
    if last.TimerFires? && s.timer.None? {
      assert Run(o, events + [last]) == s;
    }
  }

  // ---------------------------------------------------------------------------
  // Exactly when a batch is handed over, and how long the window is
  // ---------------------------------------------------------------------------

  /** What is buffered once the event has been taken in. */
  function Buffered(s: State, e: Event): (set<Path>, set<Path>) {
    match e
    case Push(p) => (s.pending + {p}, s.pendingDeletes - {p})
    case PushDelete(p) => (s.pending - {p}, s.pendingDeletes + {p})
    case _ => (s.pending, s.pendingDeletes)
  }

  /** A push hands over when it fills the batch, a timer or flushNow when there is anything. */
  predicate HandsOver(o: Options, s: State, e: Event) {
    var (adds, deletes) := Buffered(s, e);
    match e
    case Push(_) => !s.stopped && |adds| + |deletes| >= o.maxBatchSize
    case PushDelete(_) => !s.stopped && |adds| + |deletes| >= o.maxBatchSize
    case TimerFires => s.timer.Some? && |adds| + |deletes| > 0
    case FlushNow => |adds| + |deletes| > 0
    case Stop => false
  }

  /** One batch, of all that is buffered, exactly then; and otherwise none. */
  lemma {:induction false} HandsOverExactly(o: Options, s: State, e: Event)
    requires Inv(o, s)
    ensures var (adds, deletes) := Buffered(s, e);
      var s' := After(o, s, e);
      if HandsOver(o, s, e) then s'.flushed == s.flushed + [Batch(adds, deletes)] && s'.pending == s'.pendingDeletes == {}
      else
        && s'.flushed == s.flushed
        && (!e.Stop? && !s.stopped ==> s'.pending == adds && s'.pendingDeletes == deletes)
  {
    hide GrownWait, WaitInRange;
    match e
    case Push(p) => assert p in s.pending + {p};
    case PushDelete(p) => assert p in s.pendingDeletes + {p};
    case _ =>
  }

  /** The events since the last batch, among those that the batcher takes in. */
  function Since(o: Options, events: seq<Event>): nat {
    if events == [] then 0
    else
      var front, e := events[..|events| - 1], events[|events| - 1];
      if HandsOver(o, Run(o, front), e) then 0
      else Since(o, front) + (if (e.Push? || e.PushDelete?) && Stop !in front then 1 else 0)
  }

  /** The window after so many events without a batch. */
  function WindowAfter(o: Options, n: nat): int {
    if n == 0 then o.initialMs
    else
      var before := WindowAfter(o, n - 1);
      if n >= o.burstThreshold then Min(o.maxMs, Round(before as real * o.growthFactor)) else before
  }

  lemma RoundIsNearest(x: real)
    ensures var r := Round(x) as real; r - 0.5 <= x < r + 0.5
  {
  }

  lemma {:induction false} StoppedExactly(o: Options, events: seq<Event>)
    ensures Run(o, events).stopped <==> Stop in events
  {
    hide Registered, Flush;
    if events != [] {
      var front, e := events[..|events| - 1], events[|events| - 1];
      StoppedExactly(o, front);
      assert events == front + [e];
      StopsExactly(o, Run(o, front), e);
    }
  }

  lemma StopsExactly(o: Options, s: State, e: Event)
    ensures After(o, s, e).stopped <==> s.stopped || e == Stop
  {
  }

  /**
   * The window is the initial one until as many events as make a burst have come without
   * a batch; from then on each event multiplies it, rounded, up to the largest; and a batch
   * resets it. An armed timer waits that long.
   */
  lemma {:induction false} WindowFollowsEvents(o: Options, events: seq<Event>)
    ensures var s := Run(o, events);
      && s.eventsSinceLastFlush == Since(o, events) && s.currentWait == WindowAfter(o, Since(o, events))
      && (s.timer.Some? ==> s.timer.value == WindowAfter(o, Since(o, events)))
  {
    SafetyOverRuns(o, events);
    if events != [] {
      var front, e := events[..|events| - 1], events[|events| - 1];
      WindowFollowsEvents(o, front);
      SafetyOverRuns(o, front);
      StoppedExactly(o, front);
      hide Run, Since, WindowAfter, Inv;
      WindowStep(o, events);
    }
  }

  predicate TakesIn(s: State, e: Event) {
    (e.Push? || e.PushDelete?) && !s.stopped
  }

  lemma {:induction false} StepCounts(o: Options, s: State, e: Event)
    requires Inv(o, s)
    ensures var s', n := After(o, s, e), s.eventsSinceLastFlush + 1;
      if HandsOver(o, s, e) then s'.eventsSinceLastFlush == 0 && s'.currentWait == o.initialMs
      else if TakesIn(s, e) then s'.eventsSinceLastFlush == n && s'.currentWait == GrownWait(o, s.currentWait, n)
      else s'.eventsSinceLastFlush == s.eventsSinceLastFlush && s'.currentWait == s.currentWait
  {
    hide GrownWait, WaitInRange;
    match e
    case Push(p) => assert p in s.pending + {p};
    case PushDelete(p) => assert p in s.pendingDeletes + {p};
    case _ =>
  }

  lemma OneMore(o: Options, n: nat)
    ensures WindowAfter(o, 0) == o.initialMs && WindowAfter(o, n + 1) == GrownWait(o, WindowAfter(o, n), n + 1)
  {
    var before, m := WindowAfter(o, n), n + 1;
    assert m - 1 == n;
    assert WindowAfter(o, m) == if m >= o.burstThreshold then Min(o.maxMs, Round(before as real * o.growthFactor)) else before;
  }

  lemma {:induction false} WindowStep(o: Options, events: seq<Event>)
    requires events != []
    requires var s := Run(o, events[..|events| - 1]);
      && Inv(o, s) && (s.stopped <==> Stop in events[..|events| - 1])
      && s.eventsSinceLastFlush == Since(o, events[..|events| - 1])
      && s.currentWait == WindowAfter(o, s.eventsSinceLastFlush)
    ensures var s := Run(o, events);
      s.eventsSinceLastFlush == Since(o, events) && s.currentWait == WindowAfter(o, Since(o, events))
  {
    hide Round, After, HandsOver, Inv, GrownWait, WindowAfter;
    OneMore(o, Since(o, events[..|events| - 1]));
    StepCounts(o, Run(o, events[..|events| - 1]), events[|events| - 1]);
  }

  lemma StoppedStays(o: Options, s: State, e: Event)
    requires s.stopped && s.timer == None && Size(s) == 0
    ensures var s' := After(o, s, e);
            s'.stopped && s'.timer == None && Size(s') == 0 && s'.flushed == s.flushed
  {
    hide Registered;
  }

  lemma StopEmpties(o: Options, s: State)
    ensures var s' := After(o, s, Stop);
            s'.stopped && s'.timer == None && Size(s') == 0 && s'.flushed == s.flushed
  {
  }

  /** Nothing is handed over after a stop, whatever still happens. */
  lemma {:induction false} NothingAfterStop(o: Options, events: seq<Event>, k: nat)
    requires k < |events| && events[k] == Stop
    ensures var s := Run(o, events);
            s.stopped && s.timer == None && Size(s) == 0 && s.flushed == Run(o, events[..k]).flushed
  {
    hide After, Size;
    var n := |events| - 1;
    var before := Run(o, events[..n]);
    if k == n {
      StopEmpties(o, before);
    } else {
      NothingAfterStop(o, events[..n], k);
      assert events[..n][..k] == events[..k];
      StoppedStays(o, before, events[n]);
    }
  }

  // ---------------------------------------------------------------------------
  // The batcher, updated in place
  // ---------------------------------------------------------------------------

  /** The lists one call of the flush handler was given. */
  datatype Handed = Handed(paths: seq<Path>, deletes: seq<Path>)

  function Members(xs: seq<Path>): set<Path> {
    set x | x in xs
  }

  function Batches(handed: seq<Handed>): (bs: seq<Batch>)
    ensures |bs| == |handed|
  {
    seq(|handed|, i requires 0 <= i < |handed| => Batch(Members(handed[i].paths), Members(handed[i].deletes)))
  }

  /** [...paths].sort(): the members in order, whatever order the set is walked in. */
  method SortedPaths(paths: set<Path>) returns (sorted: seq<Path>)
    ensures StrictlySorted(sorted) && Members(sorted) == paths
  {
    var left, walked: seq<Path> := paths, [];
    while left != {}
      invariant NoRepeats(walked) && Members(walked) !! left && Members(walked) + left == paths
      decreases left
    {
      var p :| p in left;
      assert p !in Members(walked);
      walked := walked + [p];
      left := left - {p};
    }
    SortStrict(walked);
    sorted := Sort(walked, Itself);
  }

  class DebounceBatcher {
    const opts: Options
    var pending: set<Path>
    var pendingDeletes: set<Path>
    var timer: Option<int>
    var currentWait: int
    var eventsSinceLastFlush: nat
    var stopped: bool
    /** The calls the flush handler received. */
    var handed: seq<Handed>

    ghost function Model(): State
      reads this
    {
      State(pending, pendingDeletes, timer, currentWait, eventsSinceLastFlush, stopped, Batches(handed))
    }

    /** Every list handed over is sorted and free of repeats. */
    predicate Listed()
      reads this
    {
      forall i | 0 <= i < |handed| :: StrictlySorted(handed[i].paths) && StrictlySorted(handed[i].deletes)
    }

    constructor (opts: Options)
      ensures this.opts == opts && Model() == Start(opts) && Listed()
    {
      this.opts := opts;
      pending, pendingDeletes := {}, {};
      timer := None;
      currentWait := opts.initialMs;
      eventsSinceLastFlush := 0;
      stopped := false;
      handed := [];
    }

    method Push(path: Path)
      requires Listed()
      modifies this
      ensures Listed() && Model() == After(opts, old(Model()), Event.Push(path))
    {
      if stopped {
        return;
      }
      pendingDeletes := pendingDeletes - {path};
      pending := pending + {path};
      RegisterEvent();
    }

    method PushDelete(path: Path)
      requires Listed()
      modifies this
      ensures Listed() && Model() == After(opts, old(Model()), Event.PushDelete(path))
    {
      if stopped {
        return;
      }
      pending := pending - {path};
      pendingDeletes := pendingDeletes + {path};
      RegisterEvent();
    }

    method FlushNow()
      requires Listed()
      modifies this
      ensures Listed() && Model() == Flush(opts, old(Model()))
    {
      timer := None;
      if |pending| == 0 && |pendingDeletes| == 0 {
        return;
      }
      var paths := SortedPaths(pending);
      var deletes := SortedPaths(pendingDeletes);
      pending, pendingDeletes := {}, {};
      eventsSinceLastFlush := 0;
      currentWait := opts.initialMs;
      handed := handed + [Handed(paths, deletes)];
    }

    method Stop()
      requires Listed()
      modifies this
      ensures Listed() && Model() == After(opts, old(Model()), Event.Stop)
    {
      stopped := true;
      timer := None;
      pending, pendingDeletes := {}, {};
    }

    method RegisterEvent()
      requires Listed()
      modifies this
      ensures Listed() && Model() == Registered(opts, old(Model()))
    {
      eventsSinceLastFlush := eventsSinceLastFlush + 1;
      if eventsSinceLastFlush >= opts.burstThreshold {
        currentWait := Min(opts.maxMs, Round(currentWait as real * opts.growthFactor));
      }
      if |pending| + |pendingDeletes| >= opts.maxBatchSize {
        FlushNow();
        return;
      }
      Arm();
    }

    method Arm()
      modifies this`timer
      ensures timer == Some(currentWait)
    {
      timer := Some(currentWait);
    }

    /** The callback of an armed timer. */
    method TimerFires()
      requires Listed() && timer.Some?
      modifies this
      ensures Listed() && Model() == After(opts, old(Model()), Event.TimerFires)
    {
      timer := None;
      FlushNow();
    }
  }
}
