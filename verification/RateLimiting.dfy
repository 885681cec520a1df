/**
 * The token-bucket rate limiter. Times are integer milliseconds, as Date.now() gives;
 * tokens are exact reals.
 */
module RateLimiting {
  import opened CodeUnits

  type Key = Text

  datatype Bucket = Bucket(tokens: real, updatedAt: int)

  type Buckets = map<Key, Bucket>

  const MINUTE_MS := 60000

  function Min(a: real, b: real): real {
    if a <= b then a else b
  }

  /** The tokens that flow in over a number of milliseconds. */
  function Refill(capacity: real, ms: int): real {
    ms as real * (capacity / 60000.0)
  }

  lemma RefillFacts(capacity: real, a: int, b: int)
    requires capacity >= 0.0
    ensures Refill(capacity, a + b) == Refill(capacity, a) + Refill(capacity, b)
    ensures a >= 0 ==> Refill(capacity, a) >= 0.0
    ensures a >= MINUTE_MS ==> Refill(capacity, a) >= capacity
  {
    var rate := capacity / 60000.0;
    assert (a as real + b as real) * rate == a as real * rate + b as real * rate;
    if a >= MINUTE_MS {
      assert Refill(capacity, a) == (a - MINUTE_MS) as real * rate + 60000.0 * rate;
      assert (a - MINUTE_MS) as real * rate >= 0.0;
    }
  }

  // ---------------------------------------------------------------------------
  // The limiter as a function of its buckets
  // ---------------------------------------------------------------------------

  /** What a bucket holds by a given time; a key without a bucket could spend a full one. */
  function Level(capacity: real, buckets: Buckets, key: Key, now: int): real {
    if key in buckets
    then Min(capacity, buckets[key].tokens + Refill(capacity, now - buckets[key].updatedAt))
    else capacity
  }

  function Allows(capacity: real, buckets: Buckets, key: Key, now: int): bool {
    key !in buckets || Level(capacity, buckets, key, now) >= 1.0
  }

  function AfterTake(capacity: real, buckets: Buckets, key: Key, now: int): Buckets {
    var level := Level(capacity, buckets, key, now);
    buckets[key := Bucket(if Allows(capacity, buckets, key, now) then level - 1.0 else level, now)]
  }

  function AfterSweep(buckets: Buckets, maxIdleMs: int, now: int): Buckets {
    map key | key in buckets && !(buckets[key].updatedAt < now - maxIdleMs) :: buckets[key]
  }

  datatype Call =
    | Take(key: Key, at: int)
    | Sweep(maxIdleMs: int, at: int)

  function After(capacity: real, buckets: Buckets, call: Call): Buckets {
    match call
    case Take(key, at) => AfterTake(capacity, buckets, key, at)
    case Sweep(maxIdleMs, at) => AfterSweep(buckets, maxIdleMs, at)
  }

  /** The clock does not run backwards from `since` on, and sweeps spare recent buckets. */
  predicate Orderly(calls: seq<Call>, since: int, spared: int) {
    calls == [] ||
    (calls[0].at >= since && (calls[0].Sweep? ==> calls[0].maxIdleMs >= spared) &&
     Orderly(calls[1..], calls[0].at, spared))
  }

  /** How many takes of this key in the closed interval are allowed. */
  function Admitted(capacity: real, buckets: Buckets, calls: seq<Call>, key: Key, from: int, to: int): nat
    decreases |calls|
  {
    if calls == [] then 0
    else
      var c := calls[0];
      (if c.Take? && c.key == key && from <= c.at <= to && Allows(capacity, buckets, key, c.at) then 1 else 0)
      + Admitted(capacity, After(capacity, buckets, c), calls[1..], key, from, to)
  }

  /** The answers to the takes, in order. */
  function Answers(capacity: real, buckets: Buckets, calls: seq<Call>): seq<bool>
    decreases |calls|
  {
    if calls == [] then []
    else
      (if calls[0].Take? then [Allows(capacity, buckets, calls[0].key, calls[0].at)] else [])
      + Answers(capacity, After(capacity, buckets, calls[0]), calls[1..])
  }

  function WithoutSweeps(calls: seq<Call>): seq<Call> {
    if calls == [] then []
    else (if calls[0].Take? then [calls[0]] else []) + WithoutSweeps(calls[1..])
  }

  // ---------------------------------------------------------------------------
  // The invariant
  // ---------------------------------------------------------------------------

  /** Every bucket holds between nothing and the capacity, and was filled in the past. */
  predicate Sound(capacity: real, buckets: Buckets, now: int) {
    && capacity >= 1.0
    && forall key | key in buckets :: 0.0 <= buckets[key].tokens <= capacity && buckets[key].updatedAt <= now
  }

  lemma {:induction false} LevelFacts(capacity: real, buckets: Buckets, key: Key, since: int, a: int, b: int)
    requires Sound(capacity, buckets, since) && since <= a <= b
    ensures 0.0 <= Level(capacity, buckets, key, a) <= capacity
    ensures Level(capacity, buckets, key, b) <= Level(capacity, buckets, key, a) + Refill(capacity, b - a)
    ensures Refill(capacity, b - a) >= 0.0
  {
    hide Refill;
    RefillFacts(capacity, b - a, 0);
    if key in buckets {
      RefillFacts(capacity, a - buckets[key].updatedAt, b - a);
    }
  }

  lemma {:induction false} AfterKeepsSound(capacity: real, buckets: Buckets, call: Call, since: int)
    requires Sound(capacity, buckets, since) && call.at >= since
    ensures Sound(capacity, After(capacity, buckets, call), call.at)
  {
    assert forall key | key !in buckets :: Level(capacity, buckets, key, call.at) == capacity;
    hide Refill, Level;
    if call.Take? {
      LevelFacts(capacity, buckets, call.key, since, call.at, call.at);
    }
  }

  /** A call spends one token of its own key if it is allowed, and nothing of any other. */
  lemma {:induction false} LevelAfter(capacity: real, buckets: Buckets, call: Call, key: Key, since: int, later: int)
    requires Sound(capacity, buckets, since) && since <= call.at <= later
    requires call.Sweep? ==> call.maxIdleMs >= MINUTE_MS - 1
    ensures Level(capacity, After(capacity, buckets, call), key, later) <= Level(capacity, buckets, key, later)
    ensures (call.Take? && call.key == key && Allows(capacity, buckets, key, call.at) ==>
               Level(capacity, After(capacity, buckets, call), key, call.at) ==
               Level(capacity, buckets, key, call.at) - 1.0)
    ensures call.Sweep? ==>
              Level(capacity, After(capacity, buckets, call), key, later) == Level(capacity, buckets, key, later)
  {
    hide Refill;
    RefillFacts(capacity, 0, 0);
    LevelFacts(capacity, buckets, key, since, call.at, later);
    if key in buckets {
      RefillFacts(capacity, call.at - buckets[key].updatedAt, later - call.at);
      RefillFacts(capacity, later - buckets[key].updatedAt, 0);
    }
  }

  // ---------------------------------------------------------------------------
  // The window bound
  // ---------------------------------------------------------------------------

  function Max(a: int, b: int): int {
    if a >= b then a else b
  }

  lemma {:induction false} AdmittedWithinLevel(capacity: real, buckets: Buckets, calls: seq<Call>, key: Key, since: int, from: int, to: int)
    requires Sound(capacity, buckets, since) && Orderly(calls, since, MINUTE_MS - 1)
    ensures var start := Max(since, from);
            Admitted(capacity, buckets, calls, key, from, to) as real <=
            if start <= to then Level(capacity, buckets, key, start) + Refill(capacity, to - start) else 0.0
    decreases |calls|
  {
    hide Refill, Level, Sound, Allows, After;
    var start := Max(since, from);
    if calls == [] {
      if start <= to {
        LevelFacts(capacity, buckets, key, since, start, to);
      }
    } else {
      var c := calls[0];
      var next := After(capacity, buckets, c);
      var start' := Max(c.at, from);
      AfterKeepsSound(capacity, buckets, c, since);
      AdmittedWithinLevel(capacity, next, calls[1..], key, c.at, from, to);
      if start' <= to {
        LevelAfter(capacity, buckets, c, key, since, start');
        LevelFacts(capacity, buckets, key, since, start, start');
        RefillFacts(capacity, start' - start, to - start');
      } else if start <= to {
        LevelFacts(capacity, buckets, key, since, start, to);
      }
    }
  }

  /**
   * However the calls of all clients interleave, and whatever sweeps run between them,
   * one key is admitted at most C + C * (to - from) / 60000 times in any interval.
   */
  lemma {:induction false} WindowBound(capacity: real, calls: seq<Call>, key: Key, since: int, from: int, to: int)
    requires capacity >= 1.0 && Orderly(calls, since, MINUTE_MS - 1) && from <= to
    ensures Admitted(capacity, map[], calls, key, from, to) as real <=
            capacity + capacity * (to - from) as real / 60000.0
  {
    assert Refill(capacity, to - from) == capacity * (to - from) as real / 60000.0;
    hide Refill, Level, Orderly, Admitted;
    AdmittedWithinLevel(capacity, map[], calls, key, since, from, to);
    var start := Max(since, from);
    RefillFacts(capacity, to - start, start - from);
    RefillFacts(capacity, start - from, 0);
    RefillFacts(capacity, to - from, 0);
    if start <= to {
      LevelFacts(capacity, map[], key, start, start, start);
    }
  }

  // ---------------------------------------------------------------------------
  // Exactly when a take is allowed
  // ---------------------------------------------------------------------------

  function AfterAll(capacity: real, buckets: Buckets, calls: seq<Call>): Buckets {
    if calls == [] then buckets
    else After(capacity, AfterAll(capacity, buckets, calls[..|calls| - 1]), calls[|calls| - 1])
  }

  /** The time of the last call. */
  function Latest(calls: seq<Call>, since: int): int {
    if calls == [] then since else calls[|calls| - 1].at
  }

  function Admits(capacity: real, buckets: Buckets, c: Call, key: Key, from: int, to: int): nat {
    if c.Take? && c.key == key && from <= c.at <= to && Allows(capacity, buckets, key, c.at) then 1 else 0
  }

  lemma {:induction false} AfterAllFront(capacity: real, buckets: Buckets, calls: seq<Call>)
    requires calls != []
    ensures AfterAll(capacity, buckets, calls) == AfterAll(capacity, After(capacity, buckets, calls[0]), calls[1..])
    decreases |calls|
  {
    hide After;
    var n := |calls| - 1;
    if n > 0 {
      AfterAllFront(capacity, buckets, calls[..n]);
      assert calls[..n][1..] == calls[1..][..n - 1];
    } else {
      assert calls[..0] == [] && calls[1..] == [];
    }
  }

  lemma {:induction false} AdmittedLast(capacity: real, buckets: Buckets, calls: seq<Call>, key: Key, from: int, to: int)
    requires calls != []
    ensures var n := |calls| - 1;
            Admitted(capacity, buckets, calls, key, from, to) ==
            Admitted(capacity, buckets, calls[..n], key, from, to)
            + Admits(capacity, AfterAll(capacity, buckets, calls[..n]), calls[n], key, from, to)
    decreases |calls|
  {
    hide After, Allows;
    var n := |calls| - 1;
    if n > 0 {
      var next := After(capacity, buckets, calls[0]);
      AdmittedLast(capacity, next, calls[1..], key, from, to);
      AfterAllFront(capacity, buckets, calls[..n]);
      assert calls[..n][1..] == calls[1..][..n - 1];
    } else {
      assert calls[..0] == [] && calls[1..] == [];
    }
  }

  lemma {:induction false} OrderlyFront(calls: seq<Call>, since: int, spared: int)
    requires calls != [] && Orderly(calls, since, spared)
    ensures var n := |calls| - 1;
            && Orderly(calls[..n], since, spared) && Latest(calls[..n], since) <= calls[n].at
            && (calls[n].Sweep? ==> calls[n].maxIdleMs >= spared)
    decreases |calls|
  {
    var n := |calls| - 1;
    if n > 0 {
      OrderlyFront(calls[1..], calls[0].at, spared);
      assert calls[..n][1..] == calls[1..][..n - 1];
    }
  }

  /** The room left is never more than that of any interval that ends now. */
  predicate RoomBounded(capacity: real, calls: seq<Call>, key: Key, from: int, now: int) {
    Admitted(capacity, map[], calls, key, from, now) as real + Level(capacity, AfterAll(capacity, map[], calls), key, now)
      <= capacity + Refill(capacity, now - from)
  }

  /** And it is that of some interval. */
  predicate RoomReached(capacity: real, calls: seq<Call>, key: Key, from: int, now: int) {
    from <= now &&
    Admitted(capacity, map[], calls, key, from, now) as real + Level(capacity, AfterAll(capacity, map[], calls), key, now)
      == capacity + Refill(capacity, now - from)
  }

  lemma {:induction false} SoundOverRuns(capacity: real, calls: seq<Call>, since: int)
    requires capacity >= 1.0 && Orderly(calls, since, MINUTE_MS - 1)
    ensures Sound(capacity, AfterAll(capacity, map[], calls), Latest(calls, since)) && since <= Latest(calls, since)
  {
    hide After, Orderly;
    if calls != [] {
      var n := |calls| - 1;
      OrderlyFront(calls, since, MINUTE_MS - 1);
      SoundOverRuns(capacity, calls[..n], since);
      AfterKeepsSound(capacity, AfterAll(capacity, map[], calls[..n]), calls[n], Latest(calls[..n], since));
    }
  }

  /** Nothing happens after the last call, or in an interval that begins after it. */
  lemma {:induction false} AdmittedUntil(capacity: real, calls: seq<Call>, key: Key, since: int, from: int, to: int, later: int)
    requires Orderly(calls, since, MINUTE_MS - 1) && Latest(calls, since) <= to <= later
    ensures Admitted(capacity, map[], calls, key, from, later) == Admitted(capacity, map[], calls, key, from, to)
    ensures from > Latest(calls, since) ==> Admitted(capacity, map[], calls, key, from, to) == 0
  {
    hide After, Orderly, Allows, AfterAll;
    if calls != [] {
      OrderlyFront(calls, since, MINUTE_MS - 1);
      AdmittedUntil(capacity, calls[..|calls| - 1], key, since, from, to, later);
      AdmittedLast(capacity, map[], calls, key, from, to);
      AdmittedLast(capacity, map[], calls, key, from, later);
    }
  }

  /** How a call changes what its own key holds at a later time. */
  lemma {:induction false} TakeLevel(capacity: real, buckets: Buckets, key: Key, since: int, at: int, later: int)
    requires Sound(capacity, buckets, since) && since <= at <= later
    ensures var spent := if Allows(capacity, buckets, key, at) then 1.0 else 0.0;
            Level(capacity, AfterTake(capacity, buckets, key, at), key, later) ==
            Min(capacity, Level(capacity, buckets, key, at) - spent + Refill(capacity, later - at))
  {
    hide Refill;
    RefillFacts(capacity, 0, 0);
  }

  lemma OtherLevel(capacity: real, buckets: Buckets, call: Call, key: Key, since: int, later: int)
    requires Sound(capacity, buckets, since) && since <= call.at <= later
    requires (call.Take? && call.key != key) || (call.Sweep? && call.maxIdleMs >= MINUTE_MS - 1)
    ensures Level(capacity, After(capacity, buckets, call), key, later) == Level(capacity, buckets, key, later)
  {
    if call.Sweep? {
      LevelAfter(capacity, buckets, call, key, since, later);
    }
  }

  lemma AfterTaken(capacity: real, buckets: Buckets, c: Call)
    requires c.Take?
    ensures After(capacity, buckets, c) == AfterTake(capacity, buckets, c.key, c.at)
  {
  }

  lemma {:induction false} RoomIsBounded(capacity: real, calls: seq<Call>, key: Key, since: int, from: int, now: int)
    requires capacity >= 1.0 && Orderly(calls, since, MINUTE_MS - 1) && Latest(calls, since) <= now && from <= now
    ensures RoomBounded(capacity, calls, key, from, now)
  {
    hide Refill, Level, Allows, After, Orderly;
    RefillFacts(capacity, now - from, 0);
    if calls == [] {
      LevelFacts(capacity, map[], key, now, now, now);
    } else {
      var n := |calls| - 1;
      var front, c := calls[..n], calls[n];
      var before := AfterAll(capacity, map[], front);
      OrderlyFront(calls, since, MINUTE_MS - 1);
      SoundOverRuns(capacity, front, since);
      AdmittedLast(capacity, map[], calls, key, from, now);
      AdmittedUntil(capacity, front, key, since, from, c.at, now);
      if c.Take? && c.key == key {
        SoundOverRuns(capacity, calls, since);
        AfterTaken(capacity, before, c);
        if from <= c.at {
          RoomIsBounded(capacity, front, key, since, from, c.at);
          TakeBounded(capacity, before, key, Latest(front, since), c.at, from, now, Admitted(capacity, map[], front, key, from, c.at));
        } else {
          LevelFacts(capacity, AfterAll(capacity, map[], calls), key, now, now, now);
        }
      } else {
        RoomIsBounded(capacity, front, key, since, from, now);
        OtherLevel(capacity, before, c, key, Latest(front, since), now);
      }
    }
  }

  lemma {:induction false} RoomIsReached(capacity: real, calls: seq<Call>, key: Key, since: int, now: int) returns (from: int)
    requires capacity >= 1.0 && Orderly(calls, since, MINUTE_MS - 1) && Latest(calls, since) <= now
    requires Level(capacity, AfterAll(capacity, map[], calls), key, now) < capacity
    ensures RoomReached(capacity, calls, key, from, now)
  {
    hide Refill, Level, Allows, After, Orderly;
    if calls == [] {
      NoBucketIsFull(capacity, key, now);
      from := now;
    } else {
      var n := |calls| - 1;
      var front, c := calls[..n], calls[n];
      var before := AfterAll(capacity, map[], front);
      OrderlyFront(calls, since, MINUTE_MS - 1);
      SoundOverRuns(capacity, front, since);
      if c.Take? && c.key == key {
        AfterTaken(capacity, before, c);
        LevelFacts(capacity, before, key, Latest(front, since), c.at, c.at);
        if Level(capacity, before, key, c.at) < capacity {
          from := RoomIsReached(capacity, front, key, since, c.at);
        } else {
          from := c.at;
          RoomIsBounded(capacity, front, key, since, c.at, c.at);
          RefillFacts(capacity, 0, 0);
        }
        AdmittedLast(capacity, map[], calls, key, from, now);
        AdmittedUntil(capacity, front, key, since, from, c.at, now);
        TakeLevel(capacity, before, key, Latest(front, since), c.at, now);
        RefillFacts(capacity, c.at - from, now - c.at);
      } else {
        OtherLevel(capacity, before, c, key, Latest(front, since), now);
        from := RoomIsReached(capacity, front, key, since, now);
        AdmittedLast(capacity, map[], calls, key, from, now);
      }
    }
  }

  lemma NoBucketIsFull(capacity: real, key: Key, now: int)
    ensures Level(capacity, map[], key, now) == capacity
  {
  }

  /** Room for one more in the interval [from, now]. */
  predicate FitsOneMore(capacity: real, calls: seq<Call>, key: Key, from: int, now: int) {
    (Admitted(capacity, map[], calls, key, from, now) + 1) as real <= capacity + capacity * (now - from) as real / 60000.0
  }

  /**
   * After any run a take is allowed exactly when, in every interval that ends with it, it
   * keeps within C + C * length / 60000. So nobody is refused who could be served within
   * the bound, and a client that keeps asking is not set back by being refused.
   */
  lemma {:induction false} AllowsExactly(capacity: real, calls: seq<Call>, key: Key, since: int, now: int)
    requires capacity >= 1.0 && Orderly(calls, since, MINUTE_MS - 1) && Latest(calls, since) <= now
    ensures Allows(capacity, AfterAll(capacity, map[], calls), key, now) <==>
            forall from | from <= now :: FitsOneMore(capacity, calls, key, from, now)
  {
    var buckets := AfterAll(capacity, map[], calls);
    assert Allows(capacity, buckets, key, now) <==> Level(capacity, buckets, key, now) >= 1.0;
    assert forall ms: int :: Refill(capacity, ms) == capacity * ms as real / 60000.0;
    hide Refill, Level, Allows, AfterAll, Admitted, Orderly;
    if Level(capacity, buckets, key, now) >= 1.0 {
      forall from | from <= now ensures FitsOneMore(capacity, calls, key, from, now) {
        RoomIsBounded(capacity, calls, key, since, from, now);
      }
    } else {
      var from := RoomIsReached(capacity, calls, key, since, now);
      assert !FitsOneMore(capacity, calls, key, from, now);
    }
  }

  lemma TakeBounded(capacity: real, before: Buckets, key: Key, since: int, at: int, from: int, now: int, admitted: nat)
    requires Sound(capacity, before, since) && since <= at <= now && from <= at
    requires admitted as real + Level(capacity, before, key, at) <= capacity + Refill(capacity, at - from)
    ensures (admitted + if Allows(capacity, before, key, at) then 1 else 0) as real
            + Level(capacity, AfterTake(capacity, before, key, at), key, now) <= capacity + Refill(capacity, now - from)
  {
    hide Refill, Level, Allows, AfterTake;
    TakeLevel(capacity, before, key, since, at, now);
    RefillFacts(capacity, at - from, now - at);
  }

  // ---------------------------------------------------------------------------
  // Sweeping
  // ---------------------------------------------------------------------------

  /** `swept` is `kept` without some buckets that have been idle for a minute. */
  predicate SweptFrom(swept: Buckets, kept: Buckets, now: int) {
    && (forall key | key in swept :: key in kept && swept[key] == kept[key])
    && (forall key | key in kept && key !in swept :: kept[key].updatedAt + MINUTE_MS <= now)
  }

  lemma {:induction false} SweptTakesAlike(capacity: real, swept: Buckets, kept: Buckets, key: Key, since: int, now: int)
    requires Sound(capacity, kept, since) && SweptFrom(swept, kept, since) && since <= now
    ensures Allows(capacity, swept, key, now) == Allows(capacity, kept, key, now)
    ensures SweptFrom(AfterTake(capacity, swept, key, now), AfterTake(capacity, kept, key, now), now)
  {
    hide Refill;
    if key in kept && key !in swept {
      RefillFacts(capacity, now - kept[key].updatedAt, 0);
      assert Level(capacity, kept, key, now) == capacity;
    }
  }

  lemma SoundLater(capacity: real, buckets: Buckets, since: int, now: int)
    requires Sound(capacity, buckets, since) && since <= now
    ensures Sound(capacity, buckets, now)
  {
  }

  lemma {:induction false} SweepsAreInvisible(capacity: real, swept: Buckets, kept: Buckets, calls: seq<Call>, since: int)
    requires Sound(capacity, kept, since) && SweptFrom(swept, kept, since)
    requires Orderly(calls, since, MINUTE_MS - 1)
    ensures Answers(capacity, swept, calls) == Answers(capacity, kept, WithoutSweeps(calls))
    decreases |calls|
  {
    hide Refill, Level, Sound, Allows, AfterTake;
    if calls != [] {
      var c := calls[0];
      AfterKeepsSound(capacity, kept, c, since);
      SoundLater(capacity, kept, since, c.at);
      match c {
        case Take(key, at) =>
          SweptTakesAlike(capacity, swept, kept, key, since, at);
          SweepsAreInvisible(capacity, AfterTake(capacity, swept, key, at), AfterTake(capacity, kept, key, at), calls[1..], at);
          assert WithoutSweeps(calls) == [c] + WithoutSweeps(calls[1..]);
        case Sweep(maxIdleMs, at) =>
          assert SweptFrom(AfterSweep(swept, maxIdleMs, at), kept, at);
          SweepsAreInvisible(capacity, AfterSweep(swept, maxIdleMs, at), kept, calls[1..], at);
          assert WithoutSweeps(calls) == WithoutSweeps(calls[1..]);
      }
    }
  }

  predicate SameAnswers(capacity: real, calls: seq<Call>) {
    Answers(capacity, map[], calls) == Answers(capacity, map[], WithoutSweeps(calls))
  }

  /** Drained at time 0 and swept as soon as the sweep may take it. */
  function EarlySweep(maxIdleMs: int): seq<Call> {
    var at := Max(0, maxIdleMs + 1);
    [Take([], 0), Sweep(maxIdleMs, at), Take([], at)]
  }

  lemma AnswersTake(capacity: real, buckets: Buckets, key: Key, at: int, rest: seq<Call>)
    ensures Answers(capacity, buckets, [Take(key, at)] + rest) ==
            [Allows(capacity, buckets, key, at)] + Answers(capacity, AfterTake(capacity, buckets, key, at), rest)
    ensures WithoutSweeps([Take(key, at)] + rest) == [Take(key, at)] + WithoutSweeps(rest)
  {
    hide Allows, AfterTake;
    assert ([Take(key, at)] + rest)[1..] == rest;
  }

  lemma AnswersSweep(capacity: real, buckets: Buckets, maxIdleMs: int, at: int, rest: seq<Call>)
    ensures Answers(capacity, buckets, [Sweep(maxIdleMs, at)] + rest) ==
            Answers(capacity, AfterSweep(buckets, maxIdleMs, at), rest)
    ensures WithoutSweeps([Sweep(maxIdleMs, at)] + rest) == WithoutSweeps(rest)
  {
    hide AfterSweep;
    assert ([Sweep(maxIdleMs, at)] + rest)[1..] == rest;
  }

  const DRAINED: Buckets := map[[] := Bucket(0.0, 0)]

  lemma DrainedRefuses(maxIdleMs: int, at: int)
    requires 0 <= at < MINUTE_MS && maxIdleMs < at
    ensures AfterTake(1.0, map[], [], 0) == DRAINED
    ensures AfterSweep(DRAINED, maxIdleMs, at) == map[]
    ensures Allows(1.0, map[], [], at) && !Allows(1.0, DRAINED, [], at)
  {
    assert Refill(1.0, at) < 1.0;
  }

  lemma EarlySweepOrderly(maxIdleMs: int)
    ensures Orderly(EarlySweep(maxIdleMs), 0, maxIdleMs)
  {
    var at := Max(0, maxIdleMs + 1);
    var calls := EarlySweep(maxIdleMs);
    assert calls[1..][1..] == [Take([], at)] && [Take([], at)][1..] == [];
    assert Orderly([Take([], at)], at, maxIdleMs);
  }

  lemma {:induction false} EarlySweepShows(maxIdleMs: int)
    requires maxIdleMs < MINUTE_MS - 1
    ensures Orderly(EarlySweep(maxIdleMs), 0, maxIdleMs) && !SameAnswers(1.0, EarlySweep(maxIdleMs))
  {
    EarlySweepOrderly(maxIdleMs);
    hide Answers, WithoutSweeps, Orderly, AfterTake, AfterSweep, Allows;
    var at := Max(0, maxIdleMs + 1);
    DrainedRefuses(maxIdleMs, at);
    var last := [Take([], at)];
    var rest := [Sweep(maxIdleMs, at)] + last;
    assert EarlySweep(maxIdleMs) == [Take([], 0)] + rest;
    AnswersTake(1.0, map[], [], 0, rest);
    AnswersSweep(1.0, DRAINED, maxIdleMs, at, last);
    AnswersTake(1.0, map[], [], at, []);
    AnswersTake(1.0, map[], [], 0, last);
    AnswersTake(1.0, DRAINED, [], at, []);
    NoSweepsInNothing();
    assert last + [] == last == [Take([], at)] + [];
    var whole, kept := Answers(1.0, map[], EarlySweep(maxIdleMs)), Answers(1.0, map[], [Take([], 0)] + last);
    assert whole[1] && !kept[1];
  }

  lemma NoSweepsInNothing()
    ensures WithoutSweeps([]) == []
  {
  }

  ghost predicate Invisible(spared: int) {
    forall capacity, calls, since {:trigger SameAnswers(capacity, calls), Orderly(calls, since, spared)}
      | capacity >= 1.0 && Orderly(calls, since, spared) :: SameAnswers(capacity, calls)
  }

  /** Sweeping is invisible to every client, in every run, exactly when it spares buckets idle for 59999 ms or less. */
  lemma {:induction false} SweepingIsInvisibleExactly(spared: int)
    ensures Invisible(spared) <==> spared >= MINUTE_MS - 1
  {
    hide Answers, Orderly, WithoutSweeps;
    if spared >= MINUTE_MS - 1 {
      forall capacity, calls, since {:trigger SameAnswers(capacity, calls), Orderly(calls, since, spared)}
        | capacity >= 1.0 && Orderly(calls, since, spared)
        ensures SameAnswers(capacity, calls)
      {
        OrderlyWeaker(calls, since, spared, MINUTE_MS - 1);
        SweepsAreInvisible(capacity, map[], map[], calls, since);
      }
    } else {
      EarlySweepShows(spared);
    }
  }

  lemma {:induction false} OrderlyWeaker(calls: seq<Call>, since: int, spared: int, less: int)
    requires Orderly(calls, since, spared) && less <= spared
    ensures Orderly(calls, since, less)
  {
    if calls != [] {
      OrderlyWeaker(calls[1..], calls[0].at, spared, less);
    }
  }

  // ---------------------------------------------------------------------------
  // The limiter, updated in place
  // ---------------------------------------------------------------------------

  class RateLimiter {
    const capacity: real
    const refillPerMs: real
    var buckets: Buckets

    predicate Valid() {
      capacity >= 1.0 && refillPerMs == capacity / 60000.0
    }

    constructor (ratePerMinute: real)
      ensures Valid() && buckets == map[]
      ensures capacity == if ratePerMinute <= 1.0 then 1.0 else ratePerMinute
    {
      var c := if ratePerMinute <= 1.0 then 1.0 else ratePerMinute;
      capacity := c;
      refillPerMs := c / 60000.0;
      buckets := map[];
    }

    method Take(key: Key, now: int) returns (allowed: bool)
      requires Valid()
      modifies this
      ensures allowed == Allows(capacity, old(buckets), key, now)
      ensures buckets == AfterTake(capacity, old(buckets), key, now)
    {
      if key !in buckets {
        buckets := buckets[key := Bucket(capacity - 1.0, now)];
        return true;
      }
      var elapsed := now - buckets[key].updatedAt;
      var tokens := Min(capacity, buckets[key].tokens + elapsed as real * refillPerMs);
      buckets := buckets[key := Bucket(tokens, now)];
      if tokens < 1.0 {
        return false;
      }
      buckets := buckets[key := Bucket(tokens - 1.0, now)];
      return true;
    }

    method Sweep(maxIdleMs: int, now: int)
      modifies this
      ensures buckets == AfterSweep(old(buckets), maxIdleMs, now)
    {
      var cutoff := now - maxIdleMs;
      var keys := buckets.Keys;
      ghost var before := buckets;
      ghost var stale := set key | key in before && before[key].updatedAt < cutoff;
      ghost var gone: set<Key> := {};
      while keys != {}
        invariant keys <= before.Keys && gone == stale - keys
        invariant buckets == before - gone
        decreases keys
      {
        var key :| key in keys;
        if buckets[key].updatedAt < cutoff {
          buckets := buckets - {key};
          gone := gone + {key};
        }
        keys := keys - {key};
      }
      assert gone == stale;
    }
  }
}
