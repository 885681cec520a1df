/**
 * The cost log and the cached daily total that stands in for scanning it. Amounts are
 * added by whatever addition the caller's numbers have, in the order the code adds
 * them, so the results hold of rounding arithmetic too.
 */
module CostTracking {
  import opened CodeUnits
  import opened Prelude

  type Day = Text

  /** `finite` tells the numbers that survive JSON: the others are written as null. */
  datatype Arithmetic<!F> = Arithmetic(zero: F, add: (F, F) -> F, finite: F -> bool)

  /**
   * White space only, or not a JSON object, or an object with those of the two fields
   * that have the expected type.
   */
  datatype Line<F> =
    | Blank
    | Malformed
    | Record(timestamp: Option<Text>, cost: Option<F>)

  datatype Entry<F> = Entry(timestamp: Text, cost: F)

  /** The first ten code units of a timestamp. */
  function DayOf(timestamp: Text): Day {
    if |timestamp| <= 10 then timestamp else timestamp[..10]
  }

  function Written<F>(arith: Arithmetic<F>, e: Entry<F>): Line<F> {
    Record(Some(e.timestamp), if arith.finite(e.cost) then Some(e.cost) else None)
  }

  predicate CountsFor<F>(line: Line<F>, day: Day) {
    line.Record? && line.timestamp.Some? && DayOf(line.timestamp.value) == day && line.cost.Some?
  }

  /** A line counts for the day that its timestamp begins with, as far as ten code units go. */
  lemma CountsExactly<F>(line: Line<F>, day: Day)
    ensures CountsFor(line, day) <==>
      && line.Record? && line.cost.Some? && line.timestamp.Some? && day <= line.timestamp.value
      && (|day| == 10 || (|day| < 10 && day == line.timestamp.value))
  {
  }

  /** The costs of a day, added in the order of the log. */
  function Scan<F>(arith: Arithmetic<F>, lines: seq<Line<F>>, day: Day): F {
    if lines == [] then arith.zero
    else
      var total, last := Scan(arith, lines[..|lines| - 1], day), lines[|lines| - 1];
      if CountsFor(last, day) then arith.add(total, last.cost.value) else total
  }

  lemma ScanAppend<F>(arith: Arithmetic<F>, lines: seq<Line<F>>, line: Line<F>, day: Day)
    ensures Scan(arith, lines + [line], day) ==
            if CountsFor(line, day) then arith.add(Scan(arith, lines, day), line.cost.value) else Scan(arith, lines, day)
  {
    assert (lines + [line])[..|lines|] == lines;
  }

  // ---------------------------------------------------------------------------
  // The tracker as a function of its history
  // ---------------------------------------------------------------------------

  /** `terminated` says that the file is empty or ends in a newline. */
  datatype State<F> = State(lines: seq<Line<F>>, terminated: bool, cachedDay: Option<Day>, cachedTotal: F)

  /** `today` is the clock's day at the call; a write or a read of the file may fail. */
  datatype Step<F> =
    | Recorded(entry: Entry<F>, today: Day, written: bool)
    | Asked(today: Day, readable: bool)

  /**
   * Appending glues the new text onto a last line that lacks its newline: two texts of
   * which the first is not white space and the second is an object are not JSON.
   */
  function Appended<F>(lines: seq<Line<F>>, terminated: bool, line: Line<F>): seq<Line<F>> {
    if terminated || lines == [] then lines + [line]
    else lines[..|lines| - 1] + [if lines[|lines| - 1].Blank? then line else Malformed]
  }

  /** The next append will spoil the last line. */
  predicate Glues<F>(s: State<F>) {
    !s.terminated && s.lines != [] && !s.lines[|s.lines| - 1].Blank?
  }

  function CacheAfterRecord<F>(arith: Arithmetic<F>, s: State<F>, e: Entry<F>, today: Day): State<F> {
    var entryDay := DayOf(e.timestamp);
    if entryDay == today then
      if s.cachedDay == Some(today) then s.(cachedTotal := arith.add(s.cachedTotal, e.cost))
      else s.(cachedDay := None)
    else if s.cachedDay != Some(entryDay) then s.(cachedDay := None)
    else s
  }

  function AfterRecord<F>(arith: Arithmetic<F>, s: State<F>, e: Entry<F>, today: Day, written: bool): State<F> {
    var cached := CacheAfterRecord(arith, s, e, today);
    if written
    then cached.(lines := Appended(s.lines, s.terminated, Written(arith, e)), terminated := true)
    else cached
  }

  function Answer<F>(arith: Arithmetic<F>, s: State<F>, today: Day, readable: bool): Option<F> {
    if s.cachedDay == Some(today) then Some(s.cachedTotal)
    else if readable then Some(Scan(arith, s.lines, today))
    else None
  }

  function AfterAsk<F>(arith: Arithmetic<F>, s: State<F>, today: Day, readable: bool): State<F> {
    var answer := Answer(arith, s, today, readable);
    if answer.Some? then s.(cachedDay := Some(today), cachedTotal := answer.value) else s
  }

  function After<F>(arith: Arithmetic<F>, s: State<F>, step: Step<F>): State<F> {
    match step
    case Recorded(e, today, written) => AfterRecord(arith, s, e, today, written)
    case Asked(today, readable) => AfterAsk(arith, s, today, readable)
  }

  /** Days do not run backwards, writes succeed, and recorded costs are finite. */
  predicate Orderly<F>(arith: Arithmetic<F>, steps: seq<Step<F>>, since: Day) {
    steps == [] ||
    (AtMost(since, steps[0].today) &&
     (steps[0].Recorded? ==> steps[0].written && arith.finite(steps[0].entry.cost)) &&
     Orderly(arith, steps[1..], steps[0].today))
  }

  /** Every answer the tracker gives is what a scan of the log at that moment gives. */
  predicate Faithful<F(==)>(arith: Arithmetic<F>, s: State<F>, steps: seq<Step<F>>)
    decreases |steps|
  {
    steps == [] ||
    ((steps[0].Asked? ==>
        var answer := Answer(arith, s, steps[0].today, steps[0].readable);
        answer.Some? ==> answer.value == Scan(arith, s.lines, steps[0].today)) &&
     Faithful(arith, After(arith, s, steps[0]), steps[1..]))
  }

  /** The cached total is the scan. */
  predicate CacheRight<F(==)>(arith: Arithmetic<F>, s: State<F>) {
    s.cachedDay.Some? ==> s.cachedTotal == Scan(arith, s.lines, s.cachedDay.value)
  }

  /** A cached total is right, unless its day has already passed. */
  predicate CacheOk<F(==)>(arith: Arithmetic<F>, s: State<F>, since: Day) {
    s.cachedDay.Some? ==>
      && AtMost(s.cachedDay.value, since)
      && (CacheRight(arith, s) || Less(s.cachedDay.value, since))
  }

  /** What one more line does to the scan of a day. */
  lemma ScanAppended<F>(arith: Arithmetic<F>, s: State<F>, line: Line<F>, day: Day)
    ensures Scan(arith, Appended(s.lines, s.terminated, line), day) ==
            (var before := if Glues(s) then Scan(arith, s.lines[..|s.lines| - 1], day) else Scan(arith, s.lines, day);
             if !Glues(s) && CountsFor(line, day) then arith.add(before, line.cost.value) else before)
  {
    hide CountsFor;
    ScanAppend(arith, s.lines, line, day);
    if !s.terminated && s.lines != [] {
      var front, last := s.lines[..|s.lines| - 1], s.lines[|s.lines| - 1];
      assert s.lines == front + [last];
      ScanAppend(arith, front, last, day);
      ScanAppend(arith, front, line, day);
      ScanAppend(arith, front, Malformed, day);
      BlanksDoNotCount<F>(day);
    }
  }

  lemma BlanksDoNotCount<F>(day: Day)
    ensures !CountsFor<F>(Blank, day) && !CountsFor<F>(Malformed, day)
  {
  }

  lemma {:induction false} AfterKeepsCacheOk<F>(arith: Arithmetic<F>, s: State<F>, step: Step<F>, since: Day)
    requires CacheOk(arith, s, since) && AtMost(since, step.today)
    requires step.Recorded? ==> !Glues(s) && step.written && arith.finite(step.entry.cost)
    ensures CacheOk(arith, After(arith, s, step), step.today)
    ensures !Glues(s) ==> !Glues(After(arith, s, step))
    ensures step.Asked? ==>
              var answer := Answer(arith, s, step.today, step.readable);
              answer.Some? ==> answer.value == Scan(arith, s.lines, step.today)
  {
    hide Scan, Less, Appended;
    LessTrichotomy(step.today, step.today);
    if s.cachedDay.Some? {
      var day := s.cachedDay.value;
      AtMostTransitive(day, since, step.today);
      Passed(day, since, step.today);
      LessTrichotomy(day, step.today);
      if step.Recorded? {
        ScanAppended(arith, s, Written(arith, step.entry), day);
      }
    }
  }

  /** A day before `since` is before every later day. */
  lemma Passed(day: Day, since: Day, today: Day)
    requires AtMost(since, today)
    ensures Less(day, since) ==> Less(day, today)
    ensures !Less(today, since)
  {
    hide Less;
    if Less(day, since) && !Less(day, today) {
      AtMostTransitive(since, today, day);
      LessTrichotomy(day, since);
    }
  }

  lemma {:induction false} OrderlyIsFaithful<F>(arith: Arithmetic<F>, s: State<F>, steps: seq<Step<F>>, since: Day)
    requires CacheOk(arith, s, since) && !Glues(s) && Orderly(arith, steps, since)
    ensures Faithful(arith, s, steps)
    decreases |steps|
  {
    hide Scan, Less, CacheOk, After, Answer, Glues;
    if steps != [] {
      AfterKeepsCacheOk(arith, s, steps[0], since);
      OrderlyIsFaithful(arith, After(arith, s, steps[0]), steps[1..], steps[0].today);
    }
  }

  /**
   * Whatever the log held before, as long as its last line is blank or has its newline,
   * through day rollovers and entries dated other days: the cached daily spend is the
   * scan of the log.
   */
  lemma {:induction false} CachedSpendIsTheScan<F>(
    arith: Arithmetic<F>, lines: seq<Line<F>>, terminated: bool, steps: seq<Step<F>>, since: Day)
    requires !Glues(State(lines, terminated, None, arith.zero)) && Orderly(arith, steps, since)
    ensures Faithful(arith, State(lines, terminated, None, arith.zero), steps)
  {
    hide Scan, Orderly, Faithful, Glues;
    OrderlyIsFaithful(arith, State(lines, terminated, None, arith.zero), steps, since);
  }

  // ---------------------------------------------------------------------------
  // Exactly when a right cache stays right
  // ---------------------------------------------------------------------------

  /** The log counts the entry. */
  predicate LogCounts<F>(arith: Arithmetic<F>, e: Entry<F>, written: bool) {
    written && arith.finite(e.cost)
  }

  /** The line that an append is glued onto. */
  function LastLine<F>(s: State<F>): Line<F>
    requires Glues(s)
  {
    s.lines[|s.lines| - 1]
  }

  /**
   * The costs in play make a difference: the entry's to the total, or, if it is glued
   * onto a line, those of that line and the entry to the total of the lines before it.
   */
  predicate Matters<F(==)>(arith: Arithmetic<F>, s: State<F>, e: Entry<F>, written: bool, day: Day) {
    if written && Glues(s) then
      var front, last := Scan(arith, s.lines[..|s.lines| - 1], day), LastLine(s);
      && arith.add(front, e.cost) != front
      && (CountsFor(last, day) ==>
            && arith.add(front, last.cost.value) != front
            && arith.add(arith.add(front, last.cost.value), e.cost) != front)
    else
      arith.add(s.cachedTotal, e.cost) != s.cachedTotal
  }

  /**
   * Any cache, any entry, any clock, any outcome of the write, for costs that make a
   * difference. A right cache stays right, or is dropped, exactly when it has no day, or
   * the entry is dated another day, or cache and log agree on counting it. Glued onto a
   * line without its newline the entry is not counted and that line is lost, so there
   * they agree only if the cache does not count the entry either and never counted the line.
   */
  lemma {:induction false} RecordKeepsRightExactly<F>(
    arith: Arithmetic<F>, s: State<F>, e: Entry<F>, today: Day, written: bool)
    requires CacheRight(arith, s)
    requires s.cachedDay.Some? ==> Matters(arith, s, e, written, s.cachedDay.value)
    ensures var entryDay := DayOf(e.timestamp);
            CacheRight(arith, AfterRecord(arith, s, e, today, written)) <==>
            || s.cachedDay != Some(entryDay)
            || if written && Glues(s)
               then entryDay != today && !CountsFor(LastLine(s), entryDay)
               else entryDay == today <==> LogCounts(arith, e, written)
  {
    hide Scan, Appended;
    if s.cachedDay.Some? {
      var day := s.cachedDay.value;
      ScanAppended(arith, s, Written(arith, e), day);
      if Glues(s) {
        var front := s.lines[..|s.lines| - 1];
        assert s.lines == front + [LastLine(s)];
        ScanAppend(arith, front, LastLine(s), day);
      }
    }
  }

  /** Sums of integers. */
  const COUNTING: Arithmetic<int> := Arithmetic(0, (a: int, b: int) => a + b, (a: int) => true)

  /**
   * A record of today whose newline is missing, a read, and one more entry of today: the
   * cache holds the sum, and the log now shows neither.
   */
  lemma {:induction false} GluedEntriesAreLost(day: Day, a: int, b: int)
    requires DayOf(day) == day && a + b != 0
    ensures var found := State([Record(Some(day), Some(a))], false, None, 0);
            var read := AfterAsk(COUNTING, found, day, true);
            var s := AfterRecord(COUNTING, read, Entry(day, b), day, true);
            && read.cachedTotal == a
            && Answer(COUNTING, s, day, true) == Some(a + b)
            && Scan(COUNTING, s.lines, day) == 0
  {
    ScanOne(COUNTING, Record(Some(day), Some(a)), day);
    ScanOne(COUNTING, Malformed, day);
    assert [Record(Some(day), Some(a))][..0] == [];
    hide Scan, DayOf;
  }

  lemma ScanOne<F>(arith: Arithmetic<F>, line: Line<F>, day: Day)
    ensures Scan(arith, [line], day) == if CountsFor(line, day) then arith.add(arith.zero, line.cost.value) else arith.zero
  {
    assert [line][..0] == [];
  }

  /** The next answer on a day is the scan exactly when the cache is of another day or right. */
  lemma AnswerRightExactly<F>(arith: Arithmetic<F>, s: State<F>, today: Day)
    ensures Answer(arith, s, today, true) == Some(Scan(arith, s.lines, today)) <==>
            (s.cachedDay == Some(today) ==> CacheRight(arith, s))
  {
    hide Scan;
  }

  // ---------------------------------------------------------------------------
  // The tracker, updated in place
  // ---------------------------------------------------------------------------

  datatype ReadError = Unreadable

  /** The loop over the log; a missing file is an empty log. */
  method SumCostsForDay<F>(arith: Arithmetic<F>, lines: seq<Line<F>>, day: Day, readable: bool) returns (r: Result<F, ReadError>)
    ensures r == if readable then Ok(Scan(arith, lines, day)) else Err(Unreadable)
  {
    if !readable {
      return Err(Unreadable);
    }
    var total := arith.zero;
    var i := 0;
    while i < |lines|
      invariant 0 <= i <= |lines|
      invariant total == Scan(arith, lines[..i], day)
    {
      var line := lines[i];
      ScanAppend(arith, lines[..i], line, day);
      assert lines[..i + 1] == lines[..i] + [line];
      if line.Record? {
        if line.timestamp.Some? && DayOf(line.timestamp.value) == day && line.cost.Some? {
          total := arith.add(total, line.cost.value);
        }
      }
      i := i + 1;
    }
    assert lines[..i] == lines;
    return Ok(total);
  }

  class CostTracker<F(==)> {
    const arith: Arithmetic<F>
    /** The lines of the file, and whether the last has its newline. */
    var lines: seq<Line<F>>
    var terminated: bool
    var cachedDay: Option<Day>
    var cachedTotal: F

    function Model(): State<F>
      reads this
    {
      State(lines, terminated, cachedDay, cachedTotal)
    }

    constructor (arith: Arithmetic<F>, lines: seq<Line<F>>, terminated: bool)
      ensures this.arith == arith && Model() == State(lines, terminated, None, arith.zero)
    {
      this.arith := arith;
      this.lines := lines;
      this.terminated := terminated;
      this.cachedDay := None;
      this.cachedTotal := arith.zero;
    }

    method RecordEntry(entry: Entry<F>, today: Day, written: bool)
      modifies this
      ensures Model() == AfterRecord(arith, old(Model()), entry, today, written)
    {
      var entryDay := DayOf(entry.timestamp);
      if entryDay == today {
        if cachedDay == Some(today) {
          cachedTotal := arith.add(cachedTotal, entry.cost);
        } else {
          cachedDay := None;
        }
      } else if Some(entryDay) != cachedDay {
        cachedDay := None;
      }
      if written {
        lines := Appended(lines, terminated, Written(arith, entry));
        terminated := true;
      }
    }

    method SpentToday(today: Day, readable: bool) returns (r: Result<F, ReadError>)
      modifies this`cachedDay, this`cachedTotal
      ensures Model() == AfterAsk(arith, old(Model()), today, readable)
      ensures r == var answer := Answer(arith, old(Model()), today, readable);
                   if answer.Some? then Ok(answer.value) else Err(Unreadable)
    {
      if cachedDay == Some(today) {
        return Ok(cachedTotal);
      }
      r := SumCostsForDay(arith, lines, today, readable);
      match r {
        case Err(_) =>
        case Ok(total) =>
          cachedDay := Some(today);
          cachedTotal := total;
      }
    }
  }
}
