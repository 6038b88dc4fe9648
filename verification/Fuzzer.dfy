/** The fuzzer's campaign loop over its seed queue: save_if_interesting of
    blueman-main/coverage.c, and fuzz_one and start_fuzzer of blueman-main/btfuzz.c. */
module Fuzzer {
  import opened IntrusiveList
  import opened Wrappers
  import opened CoverageSpec
  import opened CoverageScan
  import opened Campaign
  import opened SeedQueue
  import opened CsvTrace

  const TIMES_PER_ROUND: nat := 10

  /** What the world makes of the `k`-th execution of a session, when the seed in the
      file of the given name is fuzzed. */
  type World = (nat, string) -> Run

  /** The time, in microseconds since the start, when the `k`-th execution of a session ends. */
  type Clock = nat -> nat

  ghost predicate WellSized(world: World) {
    forall k, fname :: |world(k, fname).trace| == MAP_SIZE
  }

  /** The entry that execution `n` of a pass over `items` fuzzes: ten executions for each
      entry, from the newest to the oldest. */
  function Due(items: seq<QueueEntry>, n: nat): QueueEntry
    requires n < TIMES_PER_ROUND * |items|
  {
    assert n / TIMES_PER_ROUND < |items|;
    items[|items| - 1 - n / TIMES_PER_ROUND]
  }

  /** The nodes of the first `n` executions of a pass over `nodes`: ten for each, from the
      newest to the oldest. */
  ghost function NodesDue(nodes: seq<Node>, n: nat): (r: seq<Node>)
    requires n <= TIMES_PER_ROUND * |nodes|
    ensures |r| == n
  {
    seq(n, i requires 0 <= i < n => nodes[|nodes| - 1 - i / TIMES_PER_ROUND])
  }

  lemma NodesDueSnoc(nodes: seq<Node>, n: nat)
    requires n < TIMES_PER_ROUND * |nodes|
    ensures NodesDue(nodes, n + 1) == NodesDue(nodes, n) + [nodes[|nodes| - 1 - n / TIMES_PER_ROUND]]
  {
  }

  /** Execution `n` of a pass over `items` that starts with execution `from`. */
  ghost function PassRun(world: World, from: nat, items: seq<QueueEntry>, n: nat): (r: Run)
    requires WellSized(world) && n < TIMES_PER_ROUND * |items|
    ensures |r.trace| == MAP_SIZE
  {
    world(from + n, Due(items, n).fname)
  }

  /** The first `n` executions of such a pass. */
  ghost function PassRuns(world: World, from: nat, items: seq<QueueEntry>, n: nat): (runs: seq<Run>)
    requires WellSized(world) && n <= TIMES_PER_ROUND * |items|
    ensures |runs| == n && Sized(MAP_SIZE, runs)
  {
    seq(n, i requires 0 <= i < n => PassRun(world, from, items, i))
  }

  /** The log entry of round `i` of a pass over `items` in a session `s`. */
  ghost function RoundEntry(world: World, clock: Clock, s: State, items: seq<QueueEntry>, i: nat): Entry
    requires WellSized(world) && |s.virgin| == MAP_SIZE && i < |items|
  {
    var n := TIMES_PER_ROUND * (i + 1);
    Entry(clock(s.execs + n), Exec(s, PassRuns(world, s.execs, items, n)).maxTotal)
  }

  /** The log entries of the first rounds of a pass over `items` in a session `s`. */
  ghost function PassLog(world: World, clock: Clock, s: State, items: seq<QueueEntry>, rounds: nat): (log: seq<Entry>)
    requires WellSized(world) && |s.virgin| == MAP_SIZE && rounds <= |items|
    ensures |log| == rounds && forall i :: 0 <= i < rounds ==> log[i] == RoundEntry(world, clock, s, items, i)
  {
    seq(rounds, i requires 0 <= i < rounds => RoundEntry(world, clock, s, items, i))
  }

  function EntryOf(s: Seed): QueueEntry {
    QueueEntry(s.name, s.count, s.len, if s.verdict == 2 then Some(true) else None)
  }

  /** The entries of some saved seeds. */
  function EntriesOf(kept: seq<Seed>): (es: seq<QueueEntry>)
    ensures |es| == |kept|
  {
    seq(|kept|, i requires 0 <= i < |kept| => EntryOf(kept[i]))
  }

  class Session {
    const virgin: array<bv8>
    const trace: array<bv8>
    const queue: Queue
    var totalExecTimes: nat
    var curCoverage: nat
    var totalCoverage: nat
    var maxTotalCoverage: nat
    ghost var kept: seq<Seed>            // the seeds saved in this session, oldest first
    ghost var loaded: seq<QueueEntry>    // the entries that were loaded from disk
    ghost var visits: seq<Node>          // the node fuzzed by each execution so far
    var log: seq<Entry>

    ghost predicate Valid()
      reads this`kept, this`loaded, queue, queue.Repr
    {
      && virgin != trace && virgin.Length == trace.Length == MAP_SIZE
      && queue.Valid() && this !in queue.Repr && {virgin, trace} !! queue.Repr
      && queue.items == loaded + EntriesOf(kept)
    }

    ghost function Abs(): State
      reads this, queue, virgin
    {
      State(virgin[..], kept, queue.queuedPaths, totalExecTimes, curCoverage, maxTotalCoverage)
    }

    /** What a session that loaded some files holds in its queue. */
    lemma Holds()
      requires Valid()
      ensures queue.items == loaded + EntriesOf(kept) && queue.queuedPaths == |loaded| + |kept|
      ensures virgin.Length == MAP_SIZE && this !in queue.Repr
    {
      hide Ring, FrontToBack, Carries, EntriesOf;
    }

    /** `setup_shm` and the static initialisers: an all-ones virgin map, an empty queue. */
    constructor ()
      ensures Valid() && fresh(virgin) && fresh(trace) && fresh(queue.Repr)
      ensures Abs() == Start(MAP_SIZE, 0) && queue.items == [] && visits == [] && log == []
    {
      virgin := new bv8[MAP_SIZE](_ => 0xff);
      trace := new bv8[MAP_SIZE](_ => 0);
      queue := new Queue();
      totalExecTimes, curCoverage, totalCoverage, maxTotalCoverage := 0, 0, 0, 0;
      kept, loaded, visits, log := [], [], [], [];
    }

    /** `load_corpus_to_queue`, with the directory listing and each file's counts given. */
    method LoadCorpus(files: seq<QueueEntry>)
      requires Valid() && kept == [] && loaded == []
      modifies this, queue.Repr
      ensures Valid() && fresh(queue.Repr - old(queue.Repr)) && loaded == files
      ensures Abs() == old(Abs()).(queued := |files|) && visits == old(visits) && log == old(log)
    {
      hide Ring, FrontToBack, Carries;
      for n := 0 to |files|
        invariant Valid() && kept == [] && loaded == files[..n] && visits == old(visits) && log == old(log)
        invariant fresh(queue.Repr - old(queue.Repr))
        invariant Abs() == old(Abs()).(queued := n)
      {
        queue.Add(files[n]);
        loaded := loaded + [files[n]];
      }
    }

    /** The part of `save_if_interesting` that queues the seed it saves. */
    method Enqueue(path: string, count: nat, len: nat, hnb: nat, ghost s: Seed)
      requires Valid() && s.name == path && s.count == count && s.len == len && s.verdict == hnb
      modifies this`kept, queue.Repr
      ensures Valid() && fresh(queue.Repr - old(queue.Repr))
      ensures kept == old(kept) + [s] && queue.queuedPaths == old(queue.queuedPaths) + 1
      ensures Grown(old(queue.Now()), queue.Now()) && |queue.items| == |old(queue.items)| + 1
      ensures var e := queue.items[|old(queue.items)|];
        e.fname == path && e.count == count && e.len == len && e.hasNewCov == if hnb == 2 then Some(true) else None
    {
      queue.Save(QueueEntry(path, count, len, None), hnb == 2);
      kept := kept + [s];
      assert EntriesOf(kept) == EntriesOf(old(kept)) + [EntryOf(s)];
    }

    /** `save_if_interesting` on the trace that a run left in the map. */
    method SaveIfInteresting(count: nat, len: nat, execs: nat) returns (keeping: bool)
      requires Valid()
      modifies this`kept, virgin, queue.Repr
      ensures Valid() && fresh(queue.Repr - old(queue.Repr))
      ensures virgin[..] == Merge(old(virgin[..]), trace[..])
      ensures keeping <==> Verdict(old(virgin[..]), trace[..], MAP_SIZE) != 0
      ensures !keeping ==> kept == old(kept) && queue.queuedPaths == old(queue.queuedPaths)
      ensures keeping ==>
        kept == old(kept) + [Seed(SeedName.Of(EdgeCount(trace[..]), execs % 0x1_0000_0000, old(queue.queuedPaths)),
                                  count, len, Verdict(old(virgin[..]), trace[..], MAP_SIZE), trace[..])]
      ensures keeping ==> queue.queuedPaths == old(queue.queuedPaths) + 1
      ensures !keeping ==> queue.Now() == old(queue.Now())
      ensures Grown(old(queue.Now()), queue.Now())
      ensures keeping ==> |queue.items| == |old(queue.items)| + 1
      ensures keeping ==> var e := queue.items[|old(queue.items)|];
        && e.fname == SeedName.Of(EdgeCount(trace[..]), execs % 0x1_0000_0000, old(queue.queuedPaths))
        && e.count == count && e.len == len
        && (e.hasNewCov == Some(true) <==> Verdict(old(virgin[..]), trace[..], MAP_SIZE) == 2)
    {
      var hnb := HasNewBits(virgin, trace);
      if hnb == 0 {
        return false;
      }
      var covCount := CountBytes(trace);
      var path := SeedName.Of(covCount, execs % 0x1_0000_0000, queue.queuedPaths);
      Enqueue(path, count, len, hnb, Seed(path, count, len, hnb, trace[..]));
      return true;
    }

    /** `clean_trace_bits`, then what the run leaves in the shared map. */
    method Trace(run: Run)
      requires virgin != trace && trace.Length == |run.trace|
      modifies trace
      ensures trace[..] == run.trace && virgin[..] == old(virgin[..])
    {
      forall i | 0 <= i < trace.Length { trace[i] := 0; }
      forall i | 0 <= i < trace.Length { trace[i] := run.trace[i]; }
    }

    /** The counters `start_fuzzer` updates after each execution. */
    method Count()
      requires virgin.Length == trace.Length == MAP_SIZE
      modifies this`curCoverage, this`totalCoverage, this`maxTotalCoverage
      ensures curCoverage == EdgeCount(trace[..])
      ensures maxTotalCoverage == Max(old(maxTotalCoverage), Covered(virgin[..]))
    {
      curCoverage := CountBytes(trace);
      totalCoverage := CountNon255Bytes(virgin);
      if totalCoverage > maxTotalCoverage {
        maxTotalCoverage := totalCoverage;
      }
    }

    /** The end of `fuzz_one`: a run that did not crash is offered to the corpus. */
    method Offer(run: Run, execs: nat)
      requires Valid() && trace[..] == run.trace
      modifies this`kept, virgin, queue.Repr
      ensures Valid() && fresh(queue.Repr - old(queue.Repr)) && trace[..] == run.trace
      ensures virgin[..] == VirginAfter(old(virgin[..]), run)
      ensures queue.queuedPaths == QueuedAfter(old(queue.queuedPaths), old(virgin[..]), run)
      ensures kept == KeptAfter(old(kept), old(virgin[..]), run, execs, old(queue.queuedPaths))
      ensures run.fault == FaultCrash ==>
        virgin[..] == old(virgin[..]) && kept == old(kept) && queue.Now() == old(queue.Now())
      ensures run.fault != FaultCrash ==> virgin[..] == Merge(old(virgin[..]), run.trace)
      ensures Grown(old(queue.Now()), queue.Now())
    {
      if !run.fault.FaultCrash? {
        VerdictZeroIffMergeIsIdentity(virgin[..], trace[..]);
        var keeping := SaveIfInteresting(run.count, run.len, execs);
      }
    }

    /** One execution of the inner loop of `start_fuzzer`: clear the trace map, fuzz the
        seed of the entry `cur` once, and update the counters. */
    method Execute(cur: Node, world: World, ghost e: QueueEntry)
      requires Valid() && WellSized(world) && cur.payload == Some(e)
      modifies this`totalExecTimes, this`curCoverage, this`totalCoverage, this`maxTotalCoverage, this`kept,
               this`visits, virgin, trace, queue.Repr
      ensures Valid() && fresh(queue.Repr - old(queue.Repr))
      ensures Abs() == Step(old(Abs()), world(old(totalExecTimes), e.fname))
      ensures Grown(old(queue.Now()), queue.Now()) && visits == old(visits) + [cur]
    {
      hide Ring, FrontToBack, Carries, RunVerdict, Covered, EdgeCount, EntriesOf, QueuedAfter, KeptAfter, VirginAfter;
      var run := world(totalExecTimes, cur.payload.value.fname);
      totalExecTimes := totalExecTimes + 1;
      visits := visits + [cur];
      Trace(run);
      Offer(run, totalExecTimes);
      Count();
    }

    /** A pass that found the queue `start`, the session `s` and the visits `was` has made `n`
        executions, of the nodes and entries that are due. */
    ghost predicate Underway(world: World, start: View, s: State, was: seq<Node>, n: nat)
      reads this, queue, queue.Repr, virgin
    {
      && Valid() && WellSized(world) && Grown(start, queue.Now())
      && |start.nodes| == |start.items| && n <= TIMES_PER_ROUND * |start.items|
      && |s.virgin| == MAP_SIZE && Abs() == Exec(s, PassRuns(world, s.execs, start.items, n))
      && visits == was + NodesDue(start.nodes, n)
    }

    /** Execution `n` of a pass over the queue `start`. */
    method ExecuteInPass(cur: Node, world: World, ghost start: View, ghost n: nat, ghost s: State,
                         ghost was: seq<Node>)
      requires Underway(world, start, s, was, n) && n < TIMES_PER_ROUND * |start.items|
      requires cur == start.nodes[|start.nodes| - 1 - n / TIMES_PER_ROUND]
      modifies this`totalExecTimes, this`curCoverage, this`totalCoverage, this`maxTotalCoverage, this`kept,
               this`visits, virgin, trace, queue.Repr
      ensures Underway(world, start, s, was, n + 1) && fresh(queue.Repr - old(queue.Repr))
    {
      hide Step, Exec, PassRuns, Ring, FrontToBack, Carries;
      ExecOneMore(s, world, start.items, n);
      NodesDueSnoc(start.nodes, n);
      queue.PayloadAt(|start.nodes| - 1 - n / TIMES_PER_ROUND);
      assert totalExecTimes == s.execs + n;
      Execute(cur, world, Due(start.items, n));
    }

    /** `add_coverage_entry`, as `start_fuzzer` calls it after a round. */
    method AddCoverageEntry(clock: Clock)
      modifies this`log
      ensures log == old(log) + [Entry(clock(totalExecTimes), maxTotalCoverage)]
    {
      log := log + [Entry(clock(totalExecTimes), maxTotalCoverage)];
    }

    /** One round of `start_fuzzer`: the entry `cur`, the `i`-th of the pass, ten times, and a
        log entry. */
    method Round(cur: Node, world: World, clock: Clock, ghost start: View, ghost i: nat, ghost s: State,
                 ghost was: seq<Node>)
      requires Underway(world, start, s, was, TIMES_PER_ROUND * i)
      requires i < |start.nodes| && start.nodes[|start.nodes| - 1 - i] == cur
      modifies this`totalExecTimes, this`curCoverage, this`totalCoverage, this`maxTotalCoverage, this`kept,
               this`visits, this`log, virgin, trace, queue.Repr
      ensures Underway(world, start, s, was, TIMES_PER_ROUND * (i + 1)) && fresh(queue.Repr - old(queue.Repr))
      ensures log == old(log) + [Entry(clock(totalExecTimes), maxTotalCoverage)]
    {
      hide Step, Exec, PassRuns, Ring, FrontToBack, Carries;
      for n := 0 to TIMES_PER_ROUND
        invariant Underway(world, start, s, was, TIMES_PER_ROUND * i + n) && fresh(queue.Repr - old(queue.Repr))
        invariant log == old(log)
      {
        ExecuteInPass(cur, world, start, TIMES_PER_ROUND * i + n, s, was);
      }
      AddCoverageEntry(clock);
    }

    /** A round, and the step to the entry of the next one unless the pass is over. */
    method RoundAndNext(cur: Node, tail: Node, world: World, clock: Clock, ghost start: View, ghost i: nat,
                        ghost s: State, ghost was: seq<Node>)
        returns (done: bool, next: Node)
      requires Underway(world, start, s, was, TIMES_PER_ROUND * i)
      requires i < |start.nodes| && start.nodes[|start.nodes| - 1 - i] == cur && tail == start.nodes[0]
      modifies this`totalExecTimes, this`curCoverage, this`totalCoverage, this`maxTotalCoverage, this`kept,
               this`visits, this`log, virgin, trace, queue.Repr
      ensures Underway(world, start, s, was, TIMES_PER_ROUND * (i + 1)) && fresh(queue.Repr - old(queue.Repr))
      ensures log == old(log) + [Entry(clock(totalExecTimes), maxTotalCoverage)]
      ensures if done then i == |start.nodes| - 1
              else i + 1 < |start.nodes| && next == start.nodes[|start.nodes| - 2 - i]
    {
      hide Step, Exec, PassRuns, Ring, FrontToBack, Carries;
      Round(cur, world, clock, start, i, s, was);
      done, next := queue.Advance(cur, tail, start, |start.nodes| - 1 - i);
    }

    lemma RoundLogged(world: World, clock: Clock, start: View, s: State, was: seq<Node>, i: nat)
      requires i < |start.nodes| && Underway(world, start, s, was, TIMES_PER_ROUND * (i + 1))
      ensures WellSized(world) && |s.virgin| == MAP_SIZE && |start.items| == |start.nodes|
      ensures PassLog(world, clock, s, start.items, i + 1) ==
        PassLog(world, clock, s, start.items, i) + [Entry(clock(totalExecTimes), maxTotalCoverage)]
    {
      hide Step, Exec, PassRuns, Ring, FrontToBack, Carries, NodesDue;
    }

    lemma PassEnds(world: World, start: View, s: State, was: seq<Node>)
      requires Underway(world, start, s, was, TIMES_PER_ROUND * |start.nodes|)
      ensures Valid() && Grown(start, queue.Now()) && WellSized(world)
      ensures |s.virgin| == MAP_SIZE && |start.items| == |start.nodes|
      ensures Abs() == Exec(s, PassRuns(world, s.execs, start.items, TIMES_PER_ROUND * |start.items|))
      ensures visits == was + NodesDue(start.nodes, TIMES_PER_ROUND * |start.nodes|)
    {
      hide Step, Exec, PassRuns, NodesDue, Ring, FrontToBack, Carries;
    }

    lemma PassStarts(world: World)
      requires Valid() && WellSized(world)
      ensures Underway(world, queue.Now(), Abs(), visits, 0)
    {
      hide Step, Exec, Ring, FrontToBack;
      NoRunsYet(Abs(), world, queue.items);
    }

    /** The rounds of a pass, from its first entry to the one that was the tail.  The loop is
        the source's endless one with its break. */
    method Rounds(first: Node, tail: Node, world: World, clock: Clock, ghost start: View, ghost s: State,
                  ghost was: seq<Node>)
      requires Underway(world, start, s, was, 0)
      requires start.nodes != [] && first == start.nodes[|start.nodes| - 1] && tail == start.nodes[0]
      requires WellSized(world) && |s.virgin| == MAP_SIZE && |start.items| == |start.nodes|
      modifies this`totalExecTimes, this`curCoverage, this`totalCoverage, this`maxTotalCoverage, this`kept,
               this`visits, this`log, virgin, trace, queue.Repr
      ensures Underway(world, start, s, was, TIMES_PER_ROUND * |start.nodes|) && fresh(queue.Repr - old(queue.Repr))
      ensures log == old(log) + PassLog(world, clock, s, start.items, |start.items|)
    {
      hide Step, Exec, PassRuns, PassLog, Ring, FrontToBack, Carries, NodesDue;
      var cur := first;
      ghost var i, m := 0, |start.nodes|;
      var done := false;
      while !done
        invariant if done then i == m else i < m && cur == start.nodes[m - 1 - i]
        invariant Underway(world, start, s, was, TIMES_PER_ROUND * i) && fresh(queue.Repr - old(queue.Repr))
        invariant log == old(log) + PassLog(world, clock, s, start.items, i)
        decreases m - i, !done
      {
        done, cur := RoundAndNext(cur, tail, world, clock, start, i, s, was);
        RoundLogged(world, clock, start, s, was, i);
        i := i + 1;
      }
    }

    /** One pass of `start_fuzzer`, from the newest entry to the entry that was oldest when
        the pass began.  Seeds saved meanwhile go in front of the entry being fuzzed, so the
        pass visits exactly the nodes it found and fuzzes their entries, each ten times,
        newest first, and logs once for each. */
    method Pass(world: World, clock: Clock)
      requires Valid() && WellSized(world) && queue.items != []
      modifies this`totalExecTimes, this`curCoverage, this`totalCoverage, this`maxTotalCoverage, this`kept,
               this`visits, this`log, virgin, trace, queue.Repr
      ensures Valid() && fresh(queue.Repr - old(queue.Repr)) && Grown(old(queue.Now()), queue.Now())
      ensures Abs() == Exec(old(Abs()),
        PassRuns(world, old(totalExecTimes), old(queue.items), TIMES_PER_ROUND * |old(queue.items)|))
      ensures visits == old(visits) + NodesDue(old(queue.nodes), TIMES_PER_ROUND * |old(queue.nodes)|)
      ensures log == old(log) + PassLog(world, clock, old(Abs()), old(queue.items), |old(queue.items)|)
    {
      PassStarts(world);
      hide Step, Exec, PassRuns, PassLog, Ring, FrontToBack, Carries, NodesDue, Underway;
      ghost var start, s, was := queue.Now(), Abs(), visits;
      var cur := queue.Head();
      var tail := queue.Tail();
      Rounds(cur, tail, world, clock, start, s, was);
      PassEnds(world, start, s, was);
    }
  }

  /** A pass visits every node it found ten times in a row, the newest node first, and fuzzes
      the seed file that its entry names. */
  lemma TenEach(world: World, from: nat, nodes: seq<Node>, items: seq<QueueEntry>, j: nat)
    requires WellSized(world) && |nodes| == |items| && j < 10 * |items|
    ensures var visits, runs := NodesDue(nodes, TIMES_PER_ROUND * |nodes|),
                                PassRuns(world, from, items, TIMES_PER_ROUND * |items|);
      && |visits| == |runs| == 10 * |items|
      && visits[j] == nodes[|items| - 1 - j / 10]
      && runs[j] == world(from + j, items[|items| - 1 - j / 10].fname)
  {
  }

  lemma NoRunsYet(s: State, world: World, items: seq<QueueEntry>)
    requires WellSized(world) && |s.virgin| == MAP_SIZE
    ensures Exec(s, PassRuns(world, s.execs, items, 0)) == s
  {
  }

  lemma ExecOneMore(s: State, world: World, items: seq<QueueEntry>, n: nat)
    requires WellSized(world) && |s.virgin| == MAP_SIZE && n < TIMES_PER_ROUND * |items|
    ensures Exec(s, PassRuns(world, s.execs, items, n + 1)) ==
      Step(Exec(s, PassRuns(world, s.execs, items, n)), PassRun(world, s.execs, items, n))
  {
    var runs, r := PassRuns(world, s.execs, items, n), PassRun(world, s.execs, items, n);
    assert PassRuns(world, s.execs, items, n + 1) == runs + [r];
    ExecSnoc(s, runs, r);
  }

  /** The executions of the first `passes` passes of a session on the seed directory `files`:
      each pass goes over what was loaded and what the passes before it saved. */
  ghost function SessionRuns(world: World, files: seq<QueueEntry>, passes: nat): (runs: seq<Run>)
    requires WellSized(world)
    ensures Sized(MAP_SIZE, runs)
  {
    if passes == 0 then []
    else
      var before := SessionRuns(world, files, passes - 1);
      var s := Exec(Start(MAP_SIZE, |files|), before);
      var items := files + EntriesOf(s.kept);
      before + PassRuns(world, s.execs, items, TIMES_PER_ROUND * |items|)
  }

  /** What those passes log. */
  ghost function SessionLog(world: World, clock: Clock, files: seq<QueueEntry>, passes: nat): seq<Entry>
    requires WellSized(world)
  {
    if passes == 0 then []
    else
      var s := Exec(Start(MAP_SIZE, |files|), SessionRuns(world, files, passes - 1));
      var items := files + EntriesOf(s.kept);
      SessionLog(world, clock, files, passes - 1) + PassLog(world, clock, s, items, |items|)
  }

  /** `start_fuzzer`, stopped after some number of passes, on a seed directory that is not
      empty.  What a session holds is the fold of the executions of its passes, so all that
      Campaign proves of it holds here. */
  method StartFuzzer(files: seq<QueueEntry>, world: World, clock: Clock, passes: nat) returns (session: Session)
    requires WellSized(world) && files != []
    ensures session.Valid() && session.loaded == files
    ensures |session.queue.items| == |files| + |session.kept| && session.queue.items[..|files|] == files
    ensures forall i :: 0 <= i < |session.kept| ==>
      var e, seed := session.queue.items[|files| + i], session.kept[i];
      && e.fname == seed.name && e.count == seed.count && e.len == seed.len
      && (e.hasNewCov == Some(true) <==> seed.verdict == 2)
    ensures session.Abs() == Exec(Start(MAP_SIZE, |files|), SessionRuns(world, files, passes))
    ensures session.log == SessionLog(world, clock, files, passes)
    ensures PopCount(session.virgin[..]) + |session.kept| <= 8 * MAP_SIZE
    ensures session.queue.queuedPaths == |files| + |session.kept|
    ensures session.maxTotalCoverage == Covered(session.virgin[..])
  {
    hide Step, Exec, PassRuns, PassLog, SessionRuns, Ring, FrontToBack, Carries, NodesDue, EntriesOf, Covered, PopCount;
    hide Session.Valid;
    session := new Session();
    session.LoadCorpus(files);
    ghost var start := session.Abs();
    NoPasses(world, files);
    for n := 0 to passes
      invariant session.Valid() && session.loaded == files && fresh(session.queue.Repr)
      invariant session.Abs() == Exec(start, SessionRuns(world, files, n))
      invariant session.log == SessionLog(world, clock, files, n)
    {
      session.Holds();
      OnePassMore(world, files, n);
      session.Pass(world, clock);
    }
    session.Holds();
    BoundedGrowth(MAP_SIZE, |files|, SessionRuns(world, files, passes));
    MaxTotalIsTotal(MAP_SIZE, |files|, SessionRuns(world, files, passes));
    QueuedAsSaved(files, session.kept);
  }

  lemma QueuedAsSaved(files: seq<QueueEntry>, kept: seq<Seed>)
    ensures var items := files + EntriesOf(kept);
      && |items| == |files| + |kept| && items[..|files|] == files
      && forall i :: 0 <= i < |kept| ==>
        var e, seed := items[|files| + i], kept[i];
        && e.fname == seed.name && e.count == seed.count && e.len == seed.len
        && (e.hasNewCov == Some(true) <==> seed.verdict == 2)
  {
  }

  lemma NoPasses(world: World, files: seq<QueueEntry>)
    requires WellSized(world)
    ensures var s := Start(MAP_SIZE, |files|); Exec(s, SessionRuns(world, files, 0)) == s
  {
  }

  lemma OnePassMore(world: World, files: seq<QueueEntry>, n: nat)
    requires WellSized(world)
    ensures var start := Start(MAP_SIZE, |files|);
      var s := Exec(start, SessionRuns(world, files, n));
      var items := files + EntriesOf(s.kept);
      Exec(start, SessionRuns(world, files, n + 1)) ==
        Exec(s, PassRuns(world, s.execs, items, TIMES_PER_ROUND * |items|))
  {
    hide Exec, PassRuns;
    var start := Start(MAP_SIZE, |files|);
    var s := Exec(start, SessionRuns(world, files, n));
    var items := files + EntriesOf(s.kept);
    ExecAppend(start, SessionRuns(world, files, n), PassRuns(world, s.execs, items, TIMES_PER_ROUND * |items|));
  }
}
