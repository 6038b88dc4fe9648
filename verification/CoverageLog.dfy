/** The coverage log of a whole session, from the campaign loop of blueman-main/btfuzz.c to
    the CSV of blueman-main/coverage_logger/gen_csv.py. */
module CoverageLog {
  import opened CoverageSpec
  import opened Campaign
  import opened CsvTrace
  import opened Fuzzer
  import opened SeedQueue

  /** Entry `j` of a pass that begins after the executions `before` of a session. */
  lemma PassEntry(world: World, clock: Clock, start: State, before: seq<Run>, items: seq<QueueEntry>, j: nat)
    requires WellSized(world) && |start.virgin| == MAP_SIZE && start.execs == 0
    requires Sized(MAP_SIZE, before) && j < |items|
    ensures var s, m := Exec(start, before), TIMES_PER_ROUND * (j + 1);
      var all := before + PassRuns(world, s.execs, items, TIMES_PER_ROUND * |items|);
      && Sized(MAP_SIZE, all)
      && RoundEntry(world, clock, s, items, j) == Entry(clock(|before| + m), Exec(start, all[..|before| + m]).maxTotal)
  {
    hide Exec, PassRuns, WellSized, Sized;
    var s, m := Exec(start, before), TIMES_PER_ROUND * (j + 1);
    RunsPrefix(world, s.execs, items, m);
    ExecPrefix(start, before, PassRuns(world, s.execs, items, TIMES_PER_ROUND * |items|), m);
  }

  lemma ExecPrefix(s: State, a: seq<Run>, b: seq<Run>, n: nat)
    requires Sized(|s.virgin|, a) && Sized(|s.virgin|, b) && n <= |b|
    ensures Sized(|s.virgin|, a + b) && Sized(|s.virgin|, (a + b)[..|a| + n]) && Sized(|s.virgin|, b[..n])
    ensures Exec(s, (a + b)[..|a| + n]) == Exec(Exec(s, a), b[..n])
  {
    hide Exec;
    Front(a, b, |a| + n);
    ExecAppend(s, a, b[..n]);
  }

  /** The `i`-th entry is the total after `10 * (i + 1)` executions, at the time they end. */
  lemma {:induction false} LogEntry(world: World, clock: Clock, files: seq<QueueEntry>, passes: nat, i: nat)
    requires WellSized(world) && i < |SessionLog(world, clock, files, passes)|
    ensures var runs, n := SessionRuns(world, files, passes), 10 * (i + 1);
      && n <= |runs| == 10 * |SessionLog(world, clock, files, passes)|
      && SessionLog(world, clock, files, passes)[i] ==
           Entry(clock(n), Exec(Start(MAP_SIZE, |files|), runs[..n]).maxTotal)
  {
    hide Exec, PassRuns, PassLog, Sized, WellSized, RoundEntry;
    var front, before := SessionLog(world, clock, files, passes - 1), SessionRuns(world, files, passes - 1);
    var s := Exec(Start(MAP_SIZE, |files|), before);
    var items := files + EntriesOf(s.kept);
    var more := PassRuns(world, s.execs, items, TIMES_PER_ROUND * |items|);
    assert SessionRuns(world, files, passes) == before + more;
    assert SessionLog(world, clock, files, passes) == front + PassLog(world, clock, s, items, |items|);
    LogLength(world, clock, files, passes - 1);
    hide SessionRuns, SessionLog, EntriesOf;
    if i < |front| {
      LogEntry(world, clock, files, passes - 1, i);
      Front(before, more, TIMES_PER_ROUND * (i + 1));
    } else {
      PassEntry(world, clock, Start(MAP_SIZE, |files|), before, items, i - |front|);
    }
  }

  lemma Front<T>(a: seq<T>, b: seq<T>, n: nat)
    requires n <= |a| + |b|
    ensures n <= |a| ==> (a + b)[..n] == a[..n]
    ensures n >= |a| ==> (a + b)[..n] == a + b[..n - |a|]
  {
  }

  lemma {:induction false} LogLength(world: World, clock: Clock, files: seq<QueueEntry>, passes: nat)
    requires WellSized(world)
    ensures |SessionRuns(world, files, passes)| == TIMES_PER_ROUND * |SessionLog(world, clock, files, passes)|
  {
    hide Exec, PassRuns, PassLog;
    if passes > 0 { LogLength(world, clock, files, passes - 1); }
  }

  lemma RunsPrefix(world: World, from: nat, items: seq<QueueEntry>, m: nat)
    requires WellSized(world) && m <= TIMES_PER_ROUND * |items|
    ensures PassRuns(world, from, items, TIMES_PER_ROUND * |items|)[..m] == PassRuns(world, from, items, m)
  {
  }

  ghost predicate Monotone(clock: Clock) {
    forall a, b :: 0 <= a <= b ==> clock(a) <= clock(b)
  }

  lemma LaterTotal(size: nat, loaded: nat, runs: seq<Run>, m: nat, n: nat)
    requires Sized(size, runs) && m <= n <= |runs|
    ensures Sized(size, runs[..m]) && Sized(size, runs[..n])
    ensures Exec(Start(size, loaded), runs[..m]).maxTotal <= Exec(Start(size, loaded), runs[..n]).maxTotal
  {
    hide Exec;
    assert runs[..n] == runs[..m] + runs[m..n];
    LoggedTotalsRise(size, loaded, runs[..m], runs[m..n]);
  }

  lemma LaterEntry(world: World, clock: Clock, files: seq<QueueEntry>, passes: nat, i: nat, j: nat)
    requires WellSized(world) && Monotone(clock) && i < j < |SessionLog(world, clock, files, passes)|
    ensures var log := SessionLog(world, clock, files, passes);
      log[i].coverage <= log[j].coverage && log[i].time <= log[j].time
  {
    hide SessionLog, SessionRuns, Exec;
    LogEntry(world, clock, files, passes, i);
    LogEntry(world, clock, files, passes, j);
    var m, n := TIMES_PER_ROUND * (i + 1), TIMES_PER_ROUND * (j + 1);
    LaterTotal(MAP_SIZE, |files|, SessionRuns(world, files, passes), m, n);
  }

  /** The totals a session logs never fall, and its log is in time order if time is. */
  lemma SessionLogRises(world: World, clock: Clock, files: seq<QueueEntry>, passes: nat)
    requires WellSized(world) && Monotone(clock)
    ensures Rising(SessionLog(world, clock, files, passes)) && Sorted(SessionLog(world, clock, files, passes))
  {
    hide SessionLog, SessionRuns, Monotone;
    var log := SessionLog(world, clock, files, passes);
    forall i, j | 0 <= i < j < |log| ensures log[i].coverage <= log[j].coverage && log[i].time <= log[j].time {
      LaterEntry(world, clock, files, passes, i, j);
    }
  }

  lemma OtherEntries(world: World, clock: Clock, files: seq<QueueEntry>, passes: nat, i: nat, end: nat)
    requires WellSized(world) && Monotone(clock) && i < |SessionLog(world, clock, files, passes)|
    requires i + 1 < |SessionLog(world, clock, files, passes)| ==> end <= clock(10 * (i + 2))
    ensures var log := SessionLog(world, clock, files, passes);
      log[i].time == clock(10 * (i + 1)) && forall j :: i < j < |log| ==> end <= log[j].time
  {
    hide SessionLog, SessionRuns, Exec;
    LogEntry(world, clock, files, passes, i);
    forall j | i < j < |SessionLog(world, clock, files, passes)|
      ensures end <= SessionLog(world, clock, files, passes)[j].time
    {
      LogEntry(world, clock, files, passes, j);
      assert clock(10 * (i + 2)) <= clock(10 * (j + 1));
    }
  }

  /** Row `t` of the CSV of any session is the coverage total after the last round, of ten
      executions, that was over before second `t` was. */
  lemma SessionCsvRow(world: World, clock: Clock, files: seq<QueueEntry>, passes: nat, maxTime: int, t: nat, i: nat)
    requires WellSized(world) && Monotone(clock) && t <= maxTime && i < |SessionLog(world, clock, files, passes)|
    requires clock(10 * (i + 1)) < 1_000_000 * (t + 1)
    requires i + 1 < |SessionLog(world, clock, files, passes)| ==> 1_000_000 * (t + 1) <= clock(10 * (i + 2))
    ensures var log, runs := SessionLog(world, clock, files, passes), SessionRuns(world, files, passes);
      && 10 * (i + 1) <= |runs|
      && Latest(Filled(log[..ReadCount(log, maxTime)]), t) ==
           Covered(Exec(Start(MAP_SIZE, |files|), runs[..10 * (i + 1)]).virgin)
  {
    hide SessionLog, SessionRuns, Exec, Latest, Filled, ReadCount, Covered, WellSized, Monotone;
    var log, runs := SessionLog(world, clock, files, passes), SessionRuns(world, files, passes);
    LogEntry(world, clock, files, passes, i);
    SessionLogRises(world, clock, files, passes);
    OtherEntries(world, clock, files, passes, i, 1_000_000 * (t + 1));
    RowReads(log, maxTime, t);
    MaxTotalIsTotal(MAP_SIZE, |files|, runs[..10 * (i + 1)]);
  }

  /** The coverage column of the CSV of any session never falls. */
  lemma SessionCsvRises(world: World, clock: Clock, files: seq<QueueEntry>, passes: nat, maxTime: int, s: nat, t: nat)
    requires WellSized(world) && Monotone(clock) && s <= t <= maxTime
    ensures var log := SessionLog(world, clock, files, passes);
      var trace := Filled(log[..ReadCount(log, maxTime)]);
      Latest(trace, s) <= Latest(trace, t)
  {
    var log := SessionLog(world, clock, files, passes);
    SessionLogRises(world, clock, files, passes);
    hide SessionLog, Latest, LastBy;
    CsvRow(log, maxTime, s);
    CsvRow(log, maxTime, t);
    CsvRises(log, s, t);
  }
}
