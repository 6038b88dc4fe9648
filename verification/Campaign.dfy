/** What a fuzzing campaign keeps (save_if_interesting in blueman-main/coverage.c and
    its callers fuzz_one and start_fuzzer in blueman-main/btfuzz.c), as a function of
    the runs it makes.  How a run's trace comes about is the run's own business. */
module Campaign {
  import opened CoverageSpec
  import SeedName

  /** How `fuzz_one` classifies the target's end. */
  datatype Fault = FaultNone | FaultCrash | FaultError | FaultTimeout

  /** One execution: the edge trace it left, how it ended, and the sizes of the packet
      record (`count`, and the total length of its packets). */
  datatype Run = Run(trace: Map, fault: Fault, count: nat, len: nat)

  /** A saved seed; `verdict` is what the novelty scan said about it. */
  datatype Seed = Seed(name: string, count: nat, len: nat, verdict: nat, trace: Map)

  /** `virgin_bits`, the seeds saved so far oldest first, `queued_paths`,
      `total_exec_times`, `cur_coverage` and `max_total_coverage`. */
  datatype State = State(virgin: Map, kept: seq<Seed>, queued: nat, execs: nat, cur: nat, maxTotal: nat)

  /** A session that starts with `loaded` seeds found on disk. */
  function Start(size: nat, loaded: nat): State {
    State(seq(size, _ => 0xff as bv8), [], loaded, 0, 0, 0)
  }

  /** Only a crash counts as a fault that bars a run from the corpus. */
  predicate Survived(r: Run) { !r.fault.FaultCrash? }

  function Max(a: nat, b: nat): nat { if a < b then b else a }

  /** What becomes of a run: 0 when it is not kept. */
  ghost function RunVerdict(v: Map, r: Run): nat
    requires |r.trace| == |v|
  {
    if Survived(r) then Verdict(v, r.trace, |v|) else 0
  }

  /** The seed a kept run is saved as. */
  function SeedOf(r: Run, verdict: nat, execs: nat, queued: nat): Seed {
    Seed(SeedName.Of(EdgeCount(r.trace), execs % 0x1_0000_0000, queued), r.count, r.len, verdict, r.trace)
  }

  ghost function VirginAfter(v: Map, r: Run): Map
    requires |r.trace| == |v|
  {
    if RunVerdict(v, r) == 0 then v else Merge(v, r.trace)
  }

  ghost function QueuedAfter(queued: nat, v: Map, r: Run): nat
    requires |r.trace| == |v|
  {
    if RunVerdict(v, r) == 0 then queued else queued + 1
  }

  ghost function KeptAfter(kept: seq<Seed>, v: Map, r: Run, execs: nat, queued: nat): seq<Seed>
    requires |r.trace| == |v|
  {
    if RunVerdict(v, r) == 0 then kept else kept + [SeedOf(r, RunVerdict(v, r), execs, queued)]
  }

  ghost function Step(s: State, r: Run): (s': State)
    requires |r.trace| == |s.virgin|
    ensures |s'.virgin| == |s.virgin| && s'.execs == s.execs + 1
  {
    var virgin := VirginAfter(s.virgin, r);
    State(virgin, KeptAfter(s.kept, s.virgin, r, s.execs + 1, s.queued), QueuedAfter(s.queued, s.virgin, r),
          s.execs + 1, EdgeCount(r.trace), Max(s.maxTotal, Covered(virgin)))
  }

  ghost predicate Sized(size: nat, runs: seq<Run>) {
    forall i :: 0 <= i < |runs| ==> |runs[i].trace| == size
  }

  ghost function Exec(s: State, runs: seq<Run>): (s': State)
    requires Sized(|s.virgin|, runs)
    ensures |s'.virgin| == |s.virgin| && s'.execs == s.execs + |runs|
  {
    if runs == [] then s else Step(Exec(s, runs[..|runs| - 1]), runs[|runs| - 1])
  }

  lemma ExecSnoc(s: State, runs: seq<Run>, r: Run)
    requires Sized(|s.virgin|, runs) && |r.trace| == |s.virgin|
    ensures Sized(|s.virgin|, runs + [r]) && Exec(s, runs + [r]) == Step(Exec(s, runs), r)
  {
    assert (runs + [r])[..|runs|] == runs;
  }

  lemma {:induction false} ExecAppend(s: State, a: seq<Run>, b: seq<Run>)
    requires Sized(|s.virgin|, a) && Sized(|s.virgin|, b)
    ensures Exec(s, a + b) == Exec(Exec(s, a), b)
  {
    hide Step;
    if b == [] {
      assert a + b == a;
    } else {
      ExecAppend(s, a, b[..|b| - 1]);
      assert (a + b)[..|a + b| - 1] == a + b[..|b| - 1];
    }
  }

  // ---------- Lossless corpus ----------

  ghost predicate AllSized(size: nat, traces: seq<Map>) {
    forall k :: 0 <= k < |traces| ==> |traces[k]| == size
  }

  /** Byte `i` of the union of some traces. */
  ghost function Union(size: nat, traces: seq<Map>, i: nat): bv8
    requires AllSized(size, traces) && i < size
  {
    if traces == [] then 0
    else Union(size, traces[..|traces| - 1], i) | traces[|traces| - 1][i]
  }

  /** The traces of the runs that did not crash. */
  ghost function SurvivorTraces(size: nat, runs: seq<Run>): (ts: seq<Map>)
    requires Sized(size, runs)
    ensures AllSized(size, ts)
  {
    if runs == [] then []
    else
      var front := SurvivorTraces(size, runs[..|runs| - 1]);
      if Survived(runs[|runs| - 1]) then front + [runs[|runs| - 1].trace] else front
  }

  ghost function Traces(seeds: seq<Seed>): (ts: seq<Map>)
    ensures |ts| == |seeds| && forall i :: 0 <= i < |seeds| ==> ts[i] == seeds[i].trace
  {
    seq(|seeds|, i requires 0 <= i < |seeds| => seeds[i].trace)
  }

  lemma UnionSnoc(size: nat, traces: seq<Map>, t: Map, i: nat)
    requires AllSized(size, traces) && |t| == size && i < size
    ensures AllSized(size, traces + [t])
    ensures Union(size, traces + [t], i) == Union(size, traces, i) | t[i]
  {
    assert (traces + [t])[..|traces|] == traces;
  }

  predicate Keeps(s: State, s': State) { |s'.kept| != |s.kept| }

  /** A run that is not kept leaves the virgin map and the corpus alone and, unless it
      crashed, has no bit the map has not seen. */
  lemma StepNotKept(s: State, r: Run, i: nat)
    requires |r.trace| == |s.virgin| && i < |s.virgin| && !Keeps(s, Step(s, r))
    ensures Step(s, r).kept == s.kept && Step(s, r).virgin == s.virgin
    ensures Survived(r) ==> !Novel(s.virgin[i], r.trace[i])
  {
  }

  /** A run that is kept did not crash; its trace is merged and its seed appended. */
  lemma StepKept(s: State, r: Run)
    requires |r.trace| == |s.virgin| && Keeps(s, Step(s, r))
    ensures Survived(r) && Step(s, r).virgin == Merge(s.virgin, r.trace)
    ensures Traces(Step(s, r).kept) == Traces(s.kept) + [r.trace]
  {
  }

  /** What one more run adds to the union of the surviving traces, at one byte. */
  ghost function Joined(u: bv8, r: Run, i: nat): bv8
    requires i < |r.trace|
  {
    if Survived(r) then u | r.trace[i] else u
  }

  /** What a run does, by how it ended: a crash leaves map and corpus alone; a run that ended
      in any other way, on a timeout or an error too, is merged, and saved with its own counts
      under the name of its edges, its number and the queue's length if anything in it is new. */
  lemma StepByFault(s: State, r: Run)
    requires |r.trace| == |s.virgin|
    ensures var t := Step(s, r);
      && (r.fault == FaultCrash ==> t.virgin == s.virgin && t.kept == s.kept && t.queued == s.queued)
      && (r.fault != FaultCrash ==> t.virgin == Merge(s.virgin, r.trace))
      && (r.fault != FaultCrash && Merge(s.virgin, r.trace) == s.virgin ==> t.kept == s.kept && t.queued == s.queued)
      && (r.fault != FaultCrash && Merge(s.virgin, r.trace) != s.virgin ==>
            && |t.kept| == |s.kept| + 1 && t.kept[..|s.kept|] == s.kept && t.queued == s.queued + 1
            && var seed := t.kept[|s.kept|];
              && seed.trace == r.trace && seed.count == r.count && seed.len == r.len
              && seed.verdict == Verdict(s.virgin, r.trace, |s.virgin|)
              && seed.name == SeedName.Of(EdgeCount(r.trace), (s.execs + 1) % 0x1_0000_0000, s.queued))
      && t.cur == EdgeCount(r.trace)
  {
    VerdictZeroIffMergeIsIdentity(s.virgin, r.trace);
  }

  lemma StepVirgin(s: State, r: Run, i: nat)
    requires |r.trace| == |s.virgin| && i < |s.virgin|
    ensures Step(s, r).virgin[i] ==
      if Keeps(s, Step(s, r)) then s.virgin[i] & !r.trace[i] else s.virgin[i]
    ensures Keeps(s, Step(s, r)) ==> Survived(r)
    ensures !Keeps(s, Step(s, r)) && Survived(r) ==> !Novel(s.virgin[i], r.trace[i])
  {
    if Keeps(s, Step(s, r)) { StepKept(s, r); } else { StepNotKept(s, r, i); }
  }

  lemma StepByte(v: bv8, v': bv8, t: bv8, u: bv8, survived: bool, keeps: bool)
    requires v == !u && (keeps ==> survived) && (!keeps && survived ==> !Novel(v, t))
    requires v' == if keeps then v & !t else v
    ensures v' == !(if survived then u | t else u)
    ensures !keeps ==> (if survived then u | t else u) == u
  {
  }

  lemma JoinedStep(s: State, r: Run, u: bv8, i: nat)
    requires |r.trace| == |s.virgin| && i < |s.virgin| && s.virgin[i] == !u
    ensures Step(s, r).virgin[i] == !Joined(u, r, i)
    ensures !Keeps(s, Step(s, r)) ==> Joined(u, r, i) == u
  {
    hide Step;
    StepVirgin(s, r, i);
    StepByte(s.virgin[i], Step(s, r).virgin[i], r.trace[i], u, Survived(r), Keeps(s, Step(s, r)));
  }

  lemma SurvivorStep(size: nat, runs: seq<Run>, i: nat)
    requires Sized(size, runs) && i < size && runs != []
    ensures Union(size, SurvivorTraces(size, runs), i) ==
      Joined(Union(size, SurvivorTraces(size, runs[..|runs| - 1]), i), runs[|runs| - 1], i)
  {
    UnionSnoc(size, SurvivorTraces(size, runs[..|runs| - 1]), runs[|runs| - 1].trace, i);
  }

  /** The virgin map is the complement of what the surviving runs together cover. */
  lemma {:induction false} VirginIsComplement(size: nat, loaded: nat, runs: seq<Run>, i: nat)
    requires Sized(size, runs) && i < size
    ensures Exec(Start(size, loaded), runs).virgin[i] == !Union(size, SurvivorTraces(size, runs), i)
  {
    if runs != [] {
      var front, r := runs[..|runs| - 1], runs[|runs| - 1];
      VirginIsComplement(size, loaded, front, i);
      SurvivorStep(size, runs, i);
      JoinedStep(Exec(Start(size, loaded), front), r, Union(size, SurvivorTraces(size, front), i), i);
    }
  }

  lemma KeptStep(size: nat, s: State, r: Run, i: nat)
    requires |r.trace| == |s.virgin| == size && i < size && AllSized(size, Traces(s.kept))
    ensures AllSized(size, Traces(Step(s, r).kept))
    ensures Union(size, Traces(Step(s, r).kept), i) ==
      if Keeps(s, Step(s, r)) then Joined(Union(size, Traces(s.kept), i), r, i) else Union(size, Traces(s.kept), i)
  {
    if Keeps(s, Step(s, r)) {
      StepKept(s, r);
      UnionSnoc(size, Traces(s.kept), r.trace, i);
    } else {
      StepNotKept(s, r, i);
    }
  }

  /** For every byte: the kept seeds together cover exactly what all surviving runs
      together cover. */
  lemma {:induction false} LosslessCorpus(size: nat, loaded: nat, runs: seq<Run>, i: nat)
    requires Sized(size, runs) && i < size
    ensures AllSized(size, Traces(Exec(Start(size, loaded), runs).kept))
    ensures Union(size, Traces(Exec(Start(size, loaded), runs).kept), i) ==
      Union(size, SurvivorTraces(size, runs), i)
  {
    if runs != [] {
      var front, r := runs[..|runs| - 1], runs[|runs| - 1];
      var s := Exec(Start(size, loaded), front);
      LosslessCorpus(size, loaded, front, i);
      VirginIsComplement(size, loaded, front, i);
      SurvivorStep(size, runs, i);
      KeptStep(size, s, r, i);
      JoinedStep(s, r, Union(size, Traces(s.kept), i), i);
    }
  }

  // The same, bit by bit, and by how the runs ended.

  predicate HasBit(b: bv8, mask: bv8) { b & mask != 0 }

  lemma JoinBit(u: bv8, t: bv8, mask: bv8)
    ensures HasBit(u | t, mask) <==> HasBit(u, mask) || HasBit(t, mask)
    ensures !HasBit(0, mask)
  {
  }

  lemma {:induction false} UnionBit(size: nat, traces: seq<Map>, i: nat, mask: bv8)
    requires AllSized(size, traces) && i < size
    ensures HasBit(Union(size, traces, i), mask) <==> exists j :: 0 <= j < |traces| && HasBit(traces[j][i], mask)
  {
    hide HasBit;
    if traces == [] {
      JoinBit(0, 0, mask);
    } else {
      var front, t := traces[..|traces| - 1], traces[|traces| - 1];
      UnionBit(size, front, i, mask);
      JoinBit(Union(size, front, i), t[i], mask);
      if j :| 0 <= j < |traces| && HasBit(traces[j][i], mask) {
        assert j < |front| ==> HasBit(front[j][i], mask);
      }
      if j :| 0 <= j < |front| && HasBit(front[j][i], mask) {
        assert HasBit(traces[j][i], mask);
      }
    }
  }

  /** A trace counts as surviving exactly if some run that did not crash left it. */
  lemma {:induction false} SurvivesIff(size: nat, runs: seq<Run>, t: Map)
    requires Sized(size, runs)
    ensures t in SurvivorTraces(size, runs) <==>
      exists j :: 0 <= j < |runs| && runs[j].fault != FaultCrash && runs[j].trace == t
  {
    if runs != [] {
      var front := runs[..|runs| - 1];
      SurvivesIff(size, front, t);
      if j :| 0 <= j < |runs| && runs[j].fault != FaultCrash && runs[j].trace == t {
        assert j < |front| ==> front[j].fault != FaultCrash && front[j].trace == t;
      }
    }
  }

  lemma SurvivorBit(size: nat, runs: seq<Run>, i: nat, mask: bv8)
    requires Sized(size, runs) && i < size
    ensures HasBit(Union(size, SurvivorTraces(size, runs), i), mask) <==>
      exists j :: 0 <= j < |runs| && runs[j].fault != FaultCrash && HasBit(runs[j].trace[i], mask)
  {
    hide HasBit, SurvivorTraces;
    var ts := SurvivorTraces(size, runs);
    UnionBit(size, ts, i, mask);
    if k :| 0 <= k < |ts| && HasBit(ts[k][i], mask) {
      SurvivesIff(size, runs, ts[k]);
    }
    if j :| 0 <= j < |runs| && runs[j].fault != FaultCrash && HasBit(runs[j].trace[i], mask) {
      SurvivesIff(size, runs, runs[j].trace);
    }
  }

  lemma LosslessHasBits(size: nat, loaded: nat, runs: seq<Run>, i: nat, mask: bv8)
    requires Sized(size, runs) && i < size && mask != 0 && mask & (mask - 1) == 0
    ensures var s := Exec(Start(size, loaded), runs);
      var left := exists j :: 0 <= j < |runs| && runs[j].fault != FaultCrash && HasBit(runs[j].trace[i], mask);
      && AllSized(size, Traces(s.kept))
      && (left <==> exists k :: 0 <= k < |s.kept| && HasBit(Traces(s.kept)[k][i], mask))
      && (left <==> !HasBit(s.virgin[i], mask))
  {
    ComplementBit(Union(size, SurvivorTraces(size, runs), i), mask);
    hide Exec, Survived, HasBit, SurvivorTraces, Union;
    LosslessCorpus(size, loaded, runs, i);
    VirginIsComplement(size, loaded, runs, i);
    SurvivorBit(size, runs, i, mask);
    UnionBit(size, Traces(Exec(Start(size, loaded), runs).kept), i, mask);
  }

  lemma ComplementBit(u: bv8, mask: bv8)
    requires mask != 0 && mask & (mask - 1) == 0
    ensures HasBit(u, mask) <==> !HasBit(!u, mask)
  {
  }

  /** A bit is in some kept seed if and only if some run that did not crash set it, and that
      is if and only if it is no longer virgin. */
  lemma LosslessBits(size: nat, loaded: nat, runs: seq<Run>, i: nat, mask: bv8)
    requires Sized(size, runs) && i < size && mask != 0 && mask & (mask - 1) == 0
    ensures var s := Exec(Start(size, loaded), runs);
      var left := exists j :: 0 <= j < |runs| && runs[j].fault != FaultCrash && runs[j].trace[i] & mask != 0;
      && (forall k :: 0 <= k < |s.kept| ==> |s.kept[k].trace| == size)
      && (left <==> exists k :: 0 <= k < |s.kept| && s.kept[k].trace[i] & mask != 0)
      && (left <==> s.virgin[i] & mask == 0)
  {
    hide Exec;
    LosslessHasBits(size, loaded, runs, i, mask);
    var s := Exec(Start(size, loaded), runs);
    assert forall k :: 0 <= k < |s.kept| ==> Traces(s.kept)[k] == s.kept[k].trace;
    assert forall j :: 0 <= j < |runs| ==> HasBit(runs[j].trace[i], mask) == (runs[j].trace[i] & mask != 0);
    assert forall k :: 0 <= k < |s.kept| ==> HasBit(Traces(s.kept)[k][i], mask) == (s.kept[k].trace[i] & mask != 0);
  }

  /** No kept seed is redundant: when it was saved, its trace had a bit that no seed
      saved before it had. */
  lemma {:induction false} EveryKeptSeedIsNovel(size: nat, loaded: nat, runs: seq<Run>, k: nat)
    requires Sized(size, runs) && k < |Exec(Start(size, loaded), runs).kept|
    ensures var kept := Exec(Start(size, loaded), runs).kept;
      && AllSized(size, Traces(kept[..k])) && |kept[k].trace| == size
      && exists i :: 0 <= i < size && Novel(!Union(size, Traces(kept[..k]), i), kept[k].trace[i])
  {
    var front, r := runs[..|runs| - 1], runs[|runs| - 1];
    var s := Exec(Start(size, loaded), front);
    var kept := Exec(Start(size, loaded), runs).kept;
    if k < |s.kept| {
      EveryKeptSeedIsNovel(size, loaded, front, k);
      assert kept[..k] == s.kept[..k] && kept[k] == s.kept[k];
    } else {
      assert kept[..k] == s.kept && kept[k].trace == r.trace;
      var i := NovelByte(s.virgin, r.trace);
      LosslessCorpus(size, loaded, front, i);
      VirginIsComplement(size, loaded, front, i);
      assert Novel(!Union(size, Traces(kept[..k]), i), kept[k].trace[i]);
    }
  }

  lemma NovelByte(v: Map, t: Map) returns (i: nat)
    requires |v| == |t| && Verdict(v, t, |v|) != 0
    ensures i < |v| && Novel(v[i], t[i])
  {
    if SomeFresh(v, t, 0, |v|) {
      i :| 0 <= i < |v| && Fresh(v[i], t[i]);
      FreshIsNovel(v[i], t[i]);
    } else {
      i :| 0 <= i < |v| && Novel(v[i], t[i]);
    }
  }

  // ---------- Bounded growth ----------

  /** How many of the kept seeds brought a new edge. */
  function NewEdgeSeeds(seeds: seq<Seed>): nat {
    if seeds == [] then 0
    else NewEdgeSeeds(seeds[..|seeds| - 1]) + if seeds[|seeds| - 1].verdict == 2 then 1 else 0
  }

  /** One run spends at least one virgin bit per seed it saves, and one uncovered edge
      per seed of verdict 2. */
  lemma StepSpends(s: State, r: Run)
    requires |r.trace| == |s.virgin|
    ensures var s' := Step(s, r);
      && PopCount(s'.virgin) + |s'.kept| <= PopCount(s.virgin) + |s.kept|
      && Covered(s.virgin) + NewEdgeSeeds(s'.kept) <= Covered(s'.virgin) + NewEdgeSeeds(s.kept)
      && s'.queued - s.queued == |s'.kept| - |s.kept|
  {
    PopCountDropsIffNovel(s.virgin, r.trace);
    CoverageGrowsIffVerdictTwo(s.virgin, r.trace);
    var s' := Step(s, r);
    if Keeps(s, s') {
      assert s'.kept[..|s'.kept| - 1] == s.kept;
    }
  }

  /** The virgin bits left and the seeds saved never exceed the bits of the map, so a
      campaign saves at most `8 * size` seeds; the seeds that brought a new edge never
      outnumber the edges seen; `queued_paths` counts exactly the seeds on the queue. */
  lemma {:induction false} BoundedGrowth(size: nat, loaded: nat, runs: seq<Run>)
    requires Sized(size, runs)
    ensures var s := Exec(Start(size, loaded), runs);
      && PopCount(s.virgin) + |s.kept| <= 8 * size
      && NewEdgeSeeds(s.kept) <= Covered(s.virgin)
      && s.queued == loaded + |s.kept|
  {
    if runs != [] {
      BoundedGrowth(size, loaded, runs[..|runs| - 1]);
      StepSpends(Exec(Start(size, loaded), runs[..|runs| - 1]), runs[|runs| - 1]);
    }
  }

  // ---------- Names ----------

  lemma StepNames(s: State, r: Run)
    requires |r.trace| == |s.virgin|
    ensures s.kept <= Step(s, r).kept && |Step(s, r).kept| <= |s.kept| + 1
    ensures Keeps(s, Step(s, r)) ==>
      Step(s, r).kept[|s.kept|].name == SeedName.Of(EdgeCount(r.trace), (s.execs + 1) % 0x1_0000_0000, s.queued)
  {
  }

  /** Every saved name carries the length the queue had when it was saved. */
  lemma {:induction false} NameCarriesQueueLength(size: nat, loaded: nat, runs: seq<Run>, k: nat)
      returns (cov: nat, round: nat)
    requires Sized(size, runs) && k < |Exec(Start(size, loaded), runs).kept|
    ensures Exec(Start(size, loaded), runs).kept[k].name == SeedName.Of(cov, round, loaded + k)
  {
    hide Step, SeedName.Of;
    var front, r := runs[..|runs| - 1], runs[|runs| - 1];
    var s := Exec(Start(size, loaded), front);
    StepNames(s, r);
    if k < |s.kept| {
      cov, round := NameCarriesQueueLength(size, loaded, front, k);
    } else {
      BoundedGrowth(size, loaded, front);
      cov, round := EdgeCount(r.trace), (s.execs + 1) % 0x1_0000_0000;
    }
  }

  /** No save in a session overwrites another save of that session. */
  lemma NamesDistinct(size: nat, loaded: nat, runs: seq<Run>, j: nat, k: nat)
    requires Sized(size, runs) && j < k < |Exec(Start(size, loaded), runs).kept|
    ensures var kept := Exec(Start(size, loaded), runs).kept; kept[j].name != kept[k].name
  {
    var c, r := NameCarriesQueueLength(size, loaded, runs, j);
    var c', r' := NameCarriesQueueLength(size, loaded, runs, k);
    DifferentNumbers(c, r, loaded + j, c', r', loaded + k);
  }

  lemma DifferentNumbers(c: nat, r: nat, q: nat, c': nat, r': nat, q': nat)
    requires q != q'
    ensures SeedName.Of(c, r, q) != SeedName.Of(c', r', q')
  {
    if SeedName.Of(c, r, q) == SeedName.Of(c', r', q') {
      SeedName.Injective(c, r, q, c', r', q');
    }
  }

  /** Every seed name in a seed directory carries a number below the number of files. */
  ghost predicate Numbered(names: seq<string>) {
    forall c: nat, r: nat, q: nat :: SeedName.Of(c, r, q) in names ==> q < |names|
  }

  function Names(seeds: seq<Seed>): (ns: seq<string>)
    ensures |ns| == |seeds| && forall i :: 0 <= i < |seeds| ==> ns[i] == seeds[i].name
  {
    seq(|seeds|, i requires 0 <= i < |seeds| => seeds[i].name)
  }

  /** Nor does one overwrite a file that was loaded, if the directory is so numbered. */
  lemma NoLoadedOverwritten(size: nat, names: seq<string>, runs: seq<Run>, k: nat)
    requires Numbered(names) && Sized(size, runs) && k < |Exec(Start(size, |names|), runs).kept|
    ensures Exec(Start(size, |names|), runs).kept[k].name !in names
  {
    hide Exec, SeedName.Of;
    var c, r := NameCarriesQueueLength(size, |names|, runs, k);
  }

  /** A session leaves the directory numbered: down any sequence of sessions that start from
      a numbered one (one without seed names, say) nothing is ever overwritten. */
  lemma SessionsStayNumbered(size: nat, names: seq<string>, runs: seq<Run>)
    requires Numbered(names) && Sized(size, runs)
    ensures Numbered(names + Names(Exec(Start(size, |names|), runs).kept))
  {
    hide Exec, SeedName.Of;
    var kept := Exec(Start(size, |names|), runs).kept;
    var saved := Names(kept);
    forall c: nat, r: nat, q: nat | SeedName.Of(c, r, q) in names + saved ensures q < |names| + |saved| {
      if SeedName.Of(c, r, q) !in names {
        var j :| 0 <= j < |saved| && saved[j] == SeedName.Of(c, r, q);
        var c', r' := NameCarriesQueueLength(size, |names|, runs, j);
        SeedName.Injective(c, r, q, c', r', |names| + j);
      }
    }
  }

  /** In a directory that is not numbered a save can overwrite: here its one file has number 1,
      and the first run of a session, if it has any edge, is saved under that name. */
  lemma GapIsOverwritten(r: Run)
    requires Survived(r) && EdgeCount(r.trace) > 0
    ensures var kept := Exec(Start(|r.trace|, 1), [r]).kept;
      |kept| == 1 && kept[0].name == SeedName.Of(EdgeCount(r.trace), 1, 1)
  {
    hide SeedName.Of, EdgeCount;
    var s, runs := Start(|r.trace|, 1), [r];
    FirstRunIsFresh(r.trace);
    assert runs[..0] == [] && Exec(s, runs[..0]) == s;
  }

  lemma FirstRunIsFresh(t: Map)
    requires EdgeCount(t) > 0
    ensures Verdict(seq(|t|, _ => 0xff as bv8), t, |t|) == 2
  {
    var i := SomeEdge(t);
    assert Fresh(seq(|t|, _ => 0xff as bv8)[i], t[i]);
  }

  lemma {:induction false} SomeEdge(t: Map) returns (i: nat)
    requires EdgeCount(t) > 0
    ensures i < |t| && t[i] != 0
  {
    i := |t| - 1;
    if t[i] == 0 { i := SomeEdge(t[..i]); }
  }

  // ---------- What is logged ----------

  /** Total coverage never falls, so the maximum that is logged is the current total;
      and a surviving run's own coverage is within it. */
  lemma {:induction false} MaxTotalIsTotal(size: nat, loaded: nat, runs: seq<Run>)
    requires Sized(size, runs)
    ensures var s := Exec(Start(size, loaded), runs);
      && s.maxTotal == Covered(s.virgin)
      && (runs != [] && Survived(runs[|runs| - 1]) ==> s.cur <= s.maxTotal)
  {
    if runs == [] {
      NothingCovered(size);
    } else {
      var s, r := Exec(Start(size, loaded), runs[..|runs| - 1]), runs[|runs| - 1];
      MaxTotalIsTotal(size, loaded, runs[..|runs| - 1]);
      CoverageGrowsIffVerdictTwo(s.virgin, r.trace);
      RunCoverageWithinTotal(s.virgin, r.trace);
      VerdictZeroIffMergeIsIdentity(s.virgin, r.trace);
    }
  }

  lemma {:induction false} NothingCovered(size: nat)
    ensures Covered(seq(size, _ => 0xff as bv8)) == 0
  {
    if size > 0 {
      NothingCovered(size - 1);
      assert seq(size, _ => 0xff as bv8)[..size - 1] == seq(size - 1, _ => 0xff as bv8);
    }
  }

  /** More runs never lower the logged total. */
  lemma {:induction false} TotalMonotone(s: State, runs: seq<Run>)
    requires Sized(|s.virgin|, runs)
    ensures Covered(s.virgin) <= Covered(Exec(s, runs).virgin)
    ensures s.kept <= Exec(s, runs).kept
  {
    if runs != [] {
      var front, r := runs[..|runs| - 1], runs[|runs| - 1];
      TotalMonotone(s, front);
      CoverageGrowsIffVerdictTwo(Exec(s, front).virgin, r.trace);
    }
  }

  /** The totals that are logged never fall: `a` is a session so far, `b` what follows. */
  lemma LoggedTotalsRise(size: nat, loaded: nat, a: seq<Run>, b: seq<Run>)
    requires Sized(size, a) && Sized(size, b)
    ensures Sized(size, a + b)
    ensures Exec(Start(size, loaded), a).maxTotal <= Exec(Start(size, loaded), a + b).maxTotal
  {
    hide Exec, Step;
    ExecAppend(Start(size, loaded), a, b);
    TotalMonotone(Exec(Start(size, loaded), a), b);
    MaxTotalIsTotal(size, loaded, a);
    MaxTotalIsTotal(size, loaded, a + b);
  }
}
