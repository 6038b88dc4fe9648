/** Collecting the initial corpus (intercept_ble_packet_for_init_corpus in
    blueman-main/btfuzz.c): when it stops, and which packet it takes for the best one. */
module InitCorpus {
  import opened CoverageSpec
  import opened Packet
  import opened Replay
  import opened Recorder

  const STAGNANT_LIMIT: nat := 80

  /** A request from the target, and the coverage sampled when it is handled. */
  datatype Req = Req(pkt: LivePkt, coverage: nat)

  /** The loop's variables.  `samples` is the history of the coverage of recorded packets. */
  datatype Collect = Collect(record: seq<BlePkt>, samples: seq<nat>, cov: nat, cnt: nat,
                             maxDelta: nat, maxDeltaIndex: nat, done: bool)

  function Begun(): Collect { Collect([], [], 0, 0, 0, 0, false) }

  /** One turn of the loop.  The delta is an unsigned 32-bit difference. */
  function Turn(maxNum: nat, s: Collect, q: Req): Collect {
    if q.pkt.deviceId != 1 then s.(done := maxNum <= |s.record|)
    else
      var record := Add(s.record, q.pkt);
      var delta := (q.coverage - s.cov) % 0x1_0000_0000;
      var full := maxNum <= |record|;
      var stagnant := !full && q.coverage <= s.cov;
      var cnt := if stagnant then s.cnt + 1 else s.cnt;
      var done := full || (stagnant && cnt > STAGNANT_LIMIT);
      Collect(record, s.samples + [q.coverage], if done then s.cov else q.coverage, cnt,
              if delta > s.maxDelta then delta else s.maxDelta,
              if delta > s.maxDelta then |record| - 1 else s.maxDeltaIndex, done)
  }

  /** The loop on the requests that arrive; behind the last it waits for more. */
  function Loop(maxNum: nat, reqs: seq<Req>): Collect {
    if reqs == [] then Begun()
    else
      var s := Loop(maxNum, reqs[..|reqs| - 1]);
      if s.done then s else Turn(maxNum, s, reqs[|reqs| - 1])
  }

  // ---------- Samples ----------

  function Before(s: seq<nat>, k: nat): nat
    requires k < |s|
  {
    if k == 0 then 0 else s[k - 1]
  }

  /** How much coverage packet `k` added, and what the program takes for it. */
  function Delta(s: seq<nat>, k: nat): int
    requires k < |s|
  {
    s[k] - Before(s, k)
  }

  function Wrapped(s: seq<nat>, k: nat): nat
    requires k < |s|
  {
    Delta(s, k) % 0x1_0000_0000
  }

  /** How many of the samples did not rise. */
  function Stagnant(s: seq<nat>): nat {
    if s == [] then 0
    else Stagnant(s[..|s| - 1]) + if Delta(s, |s| - 1) <= 0 then 1 else 0
  }

  /** Which of them. */
  function NotRisen(s: seq<nat>): set<nat> {
    set k: nat | k < |s| && Delta(s, k) <= 0
  }

  /** Those that are not above the sample in front, or not above 0 for the first. */
  lemma NotRisenIs(s: seq<nat>, k: nat)
    requires k < |s|
    ensures k in NotRisen(s) <==> s[k] <= if k == 0 then 0 else s[k - 1]
  {
  }

  lemma NotRisenSnoc(s: seq<nat>, n: nat)
    requires |s| == n + 1
    ensures NotRisen(s) == NotRisen(s[..n]) + if Delta(s, n) <= 0 then {n} else {}
  {
    hide Delta;
    forall k | 0 <= k < n ensures Delta(s[..n], k) == Delta(s, k) {
      SnocSamples(s[..n], s[n], k);
      assert s[..n] + [s[n]] == s;
    }
  }

  lemma WithOneMore(r: set<nat>, n: nat)
    requires n !in r
    ensures |r + {n}| == |r| + 1 && r + {} == r
  {
  }

  lemma {:induction false} StagnantCounts(s: seq<nat>)
    ensures Stagnant(s) == |NotRisen(s)|
  {
    if s == [] {
      assert NotRisen(s) == {};
    } else {
      var n := |s| - 1;
      StagnantCounts(s[..n]);
      NotRisenSnoc(s, n);
      WithOneMore(NotRisen(s[..n]), n);
      hide NotRisen, Delta;
    }
  }

  /** No coverage sample exceeds the size of the map. */
  ghost predicate Sampled(reqs: seq<Req>) {
    forall i :: 0 <= i < |reqs| ==> reqs[i].coverage <= MAP_SIZE
  }

  /** What the loop keeps true of its record and counters, and when it has stopped. */
  ghost predicate Counted(maxNum: nat, s: Collect) {
    var n := |s.samples|;
    && |s.record| == n <= maxNum && (forall k :: 0 <= k < n ==> s.samples[k] <= MAP_SIZE)
    && (forall k :: 0 <= k < n ==> s.record[k].deviceId == 1)
    && (!s.done ==> n < maxNum && s.cov == (if n == 0 then 0 else s.samples[n - 1]))
    && (!s.done ==> s.cnt == Stagnant(s.samples) <= STAGNANT_LIMIT)
    && (s.done && n < maxNum ==>
          n > 0 && Stagnant(s.samples) == STAGNANT_LIMIT + 1 && Delta(s.samples, n - 1) <= 0)
  }

  /** `idx` is the first index of the largest wrapped delta, or 0 if all are 0. */
  ghost predicate Largest(samples: seq<nat>, delta: nat, idx: nat) {
    && (forall k :: 0 <= k < |samples| ==> Wrapped(samples, k) <= delta)
    && (if delta == 0 then idx == 0
        else
          && idx < |samples| && Wrapped(samples, idx) == delta
          && forall k :: 0 <= k < idx ==> Wrapped(samples, k) < delta)
  }

  ghost predicate Tracks(maxNum: nat, s: Collect) {
    Counted(maxNum, s) && Largest(s.samples, s.maxDelta, s.maxDeltaIndex)
  }

  lemma SnocSamples(s: seq<nat>, x: nat, k: nat)
    requires k < |s|
    ensures Delta(s + [x], k) == Delta(s, k) && Wrapped(s + [x], k) == Wrapped(s, k)
  {
  }

  lemma NewSample(s: seq<nat>, x: nat)
    ensures var d := x - (if s == [] then 0 else s[|s| - 1]);
      Delta(s + [x], |s|) == d && Wrapped(s + [x], |s|) == d % 0x1_0000_0000
  {
  }

  lemma LargestSnoc(s: seq<nat>, x: nat, delta: nat, idx: nat)
    requires Largest(s, delta, idx)
    ensures var d := (x - (if s == [] then 0 else s[|s| - 1])) % 0x1_0000_0000;
      if d > delta then Largest(s + [x], d, |s|) else Largest(s + [x], delta, idx)
  {
    hide Wrapped, Delta;
    NewSample(s, x);
    forall k | 0 <= k < |s| ensures Wrapped(s + [x], k) == Wrapped(s, k) {
      SnocSamples(s, x, k);
    }
  }

  lemma TurnCounted(maxNum: nat, s: Collect, q: Req)
    requires 0 < maxNum <= MAX_PACKETS && Counted(maxNum, s) && !s.done && q.coverage <= MAP_SIZE
    ensures Counted(maxNum, Turn(maxNum, s, q))
  {
    hide Delta;
    if q.pkt.deviceId == 1 {
      var t := Turn(maxNum, s, q);
      NewSample(s.samples, q.coverage);
      assert t.samples[..|t.samples| - 1] == s.samples;
    }
  }

  lemma TurnTracks(maxNum: nat, s: Collect, q: Req)
    requires 0 < maxNum <= MAX_PACKETS && Tracks(maxNum, s) && !s.done && q.coverage <= MAP_SIZE
    ensures Tracks(maxNum, Turn(maxNum, s, q))
  {
    hide Largest, Stagnant, Delta;
    TurnCounted(maxNum, s, q);
    if q.pkt.deviceId == 1 {
      LargestSnoc(s.samples, q.coverage, s.maxDelta, s.maxDeltaIndex);
    }
  }

  lemma {:induction false} LoopTracks(maxNum: nat, reqs: seq<Req>)
    requires 0 < maxNum <= MAX_PACKETS && Sampled(reqs)
    ensures Tracks(maxNum, Loop(maxNum, reqs))
  {
    if reqs != [] {
      LoopTracks(maxNum, reqs[..|reqs| - 1]);
      var s := Loop(maxNum, reqs[..|reqs| - 1]);
      if !s.done { TurnTracks(maxNum, s, reqs[|reqs| - 1]); }
    }
  }

  // ---------- When it stops ----------

  /** The loop stops with between 1 and `maxNum` packets, all received by the target: at the
      `maxNum`-th packet, or at the 81st whose coverage did not rise.  Until then it has
      fewer of either. */
  lemma StopsAtLimit(maxNum: nat, reqs: seq<Req>)
    requires 0 < maxNum <= MAX_PACKETS && Sampled(reqs)
    ensures var s := Loop(maxNum, reqs);
      && Recorded(s.record) && |s.record| == |s.samples|
      && (s.done <==> |s.record| == maxNum || |NotRisen(s.samples)| >= 81)
      && (s.done ==> 1 <= |s.record| <= maxNum)
      && (s.done && |s.record| < maxNum ==>
            |NotRisen(s.samples)| == 81 && |s.samples| - 1 in NotRisen(s.samples))
  {
    LoopTracks(maxNum, reqs);
    StagnantCounts(Loop(maxNum, reqs).samples);
    hide Loop, Stagnant;
  }

  /** The requests whose packets the target received, in order. */
  function Received(reqs: seq<Req>): seq<Req> {
    if reqs == [] then []
    else
      var front := Received(reqs[..|reqs| - 1]);
      if reqs[|reqs| - 1].pkt.deviceId == 1 then front + [reqs[|reqs| - 1]] else front
  }

  /** Nothing else, and none of them less often. */
  lemma {:induction false} ReceivedAll(reqs: seq<Req>, q: Req)
    ensures multiset(Received(reqs))[q] == if q.pkt.deviceId == 1 then multiset(reqs)[q] else 0
  {
    if reqs != [] {
      ReceivedAll(reqs[..|reqs| - 1], q);
      assert reqs == reqs[..|reqs| - 1] + [reqs[|reqs| - 1]];
    }
  }

  function Packets(rs: seq<Req>): (ps: seq<BlePkt>)
    ensures |ps| == |rs|
  {
    seq(|rs|, i requires 0 <= i < |rs| => rs[i].pkt)
  }

  function Coverages(rs: seq<Req>): (cs: seq<nat>)
    ensures |cs| == |rs|
  {
    seq(|rs|, i requires 0 <= i < |rs| => rs[i].coverage)
  }

  /** The record holds the first receptions, in order, and the samples are theirs; none is
      left out before the loop stops, so it cannot wait for more than `maxNum` of them. */
  lemma {:induction false} FirstReceptions(maxNum: nat, reqs: seq<Req>)
    requires 0 < maxNum <= MAX_PACKETS && Sampled(reqs)
    ensures var s, all := Loop(maxNum, reqs), Received(reqs);
      && |s.record| <= |all| && s.record == Packets(all[..|s.record|]) && s.samples == Coverages(all[..|s.record|])
      && (!s.done ==> |s.record| == |all| < maxNum)
  {
    LoopTracks(maxNum, reqs);
    if reqs != [] {
      var front, q := reqs[..|reqs| - 1], reqs[|reqs| - 1];
      FirstReceptions(maxNum, front);
      LoopTracks(maxNum, front);
      var s, all := Loop(maxNum, front), Received(front);
      assert (all + [q])[..|s.record|] == all[..|s.record|];
      if !s.done {
        assert all[..|s.record|] == all && (all + [q])[..|all| + 1] == all + [q];
        ReceptionSnoc(all, q);
        TurnRecords(maxNum, s, q);
      }
      hide Turn, Tracks, Loop;
    }
  }

  lemma ReceptionSnoc(rs: seq<Req>, q: Req)
    ensures Packets(rs + [q]) == Packets(rs) + [q.pkt] && Coverages(rs + [q]) == Coverages(rs) + [q.coverage]
  {
  }

  lemma TurnRecords(maxNum: nat, s: Collect, q: Req)
    requires |s.record| < MAX_PACKETS
    ensures var t := Turn(maxNum, s, q);
      if q.pkt.deviceId == 1 then t.record == s.record + [q.pkt] && t.samples == s.samples + [q.coverage]
      else t.record == s.record && t.samples == s.samples
  {
  }

  // ---------- Which packet it picks ----------

  /** `idx` is the first packet that added the most coverage, or 0 if none added any. */
  ghost predicate BestDelta(s: seq<nat>, idx: nat) {
    if exists k :: 0 <= k < |s| && Delta(s, k) > 0 then
      && idx < |s| && Delta(s, idx) > 0
      && (forall k :: 0 <= k < |s| ==> Delta(s, k) <= Delta(s, idx))
      && (forall k :: 0 <= k < idx ==> Delta(s, k) < Delta(s, idx))
    else idx == 0
  }

  ghost predicate NeverFalls(s: seq<nat>) {
    forall k :: 0 <= k < |s| ==> Delta(s, k) >= 0
  }

  lemma WrapsIffFalls(s: seq<nat>, k: nat)
    requires k < |s| && s[k] <= MAP_SIZE && Before(s, k) <= MAP_SIZE
    ensures Wrapped(s, k) == if Delta(s, k) >= 0 then Delta(s, k) else Delta(s, k) + 0x1_0000_0000
    ensures Delta(s, k) >= 0 <==> Wrapped(s, k) <= MAP_SIZE
  {
  }

  /** `max_delta_index` is the packet that added the most coverage if and only if coverage
      never fell between the receptions recorded. */
  lemma PicksBestIffNeverFalls(maxNum: nat, reqs: seq<Req>)
    requires 0 < maxNum <= MAX_PACKETS && Sampled(reqs)
    ensures |Loop(maxNum, reqs).record| <= |Received(reqs)|
    ensures var s := Loop(maxNum, reqs);
      var heard := Coverages(Received(reqs)[..|s.record|]);
      BestDelta(heard, s.maxDeltaIndex) <==> NeverFalls(heard)
  {
    FirstReceptions(maxNum, reqs);
    LoopTracks(maxNum, reqs);
    hide Loop;
    BestIffNeverFalls(maxNum, Loop(maxNum, reqs));
  }

  /** A fall wraps around to a delta larger than any rise. */
  lemma BestIffNeverFalls(maxNum: nat, s: Collect)
    requires Tracks(maxNum, s)
    ensures BestDelta(s.samples, s.maxDeltaIndex) <==> NeverFalls(s.samples)
  {
    hide Stagnant;
    forall k | 0 <= k < |s.samples|
      ensures Wrapped(s.samples, k) ==
        if Delta(s.samples, k) >= 0 then Delta(s.samples, k) else Delta(s.samples, k) + 0x1_0000_0000
      ensures Delta(s.samples, k) >= 0 <==> Wrapped(s.samples, k) <= MAP_SIZE
    {
      WrapsIffFalls(s.samples, k);
    }
    hide Wrapped;
    if !NeverFalls(s.samples) {
      var j :| 0 <= j < |s.samples| && Delta(s.samples, j) < 0;
      assert Wrapped(s.samples, j) <= s.maxDelta;
      assert Delta(s.samples, s.maxDeltaIndex) < 0;
    }
  }

  /** So if coverage never falls, no reception recorded added more than the one picked, and
      none in front of it as much. */
  lemma PicksLargestRise(maxNum: nat, reqs: seq<Req>, k: nat)
    requires 0 < maxNum <= MAX_PACKETS && Sampled(reqs) && k < |Loop(maxNum, reqs).record|
    ensures |Loop(maxNum, reqs).record| <= |Received(reqs)|
    ensures var s := Loop(maxNum, reqs);
      var heard, i := Coverages(Received(reqs)[..|s.record|]), s.maxDeltaIndex;
      (forall a, b :: 0 <= a <= b < |heard| ==> heard[a] <= heard[b]) ==>
        && i < |heard|
        && heard[k] - (if k == 0 then 0 else heard[k - 1]) <= heard[i] - (if i == 0 then 0 else heard[i - 1])
        && (k < i ==> heard[k] - (if k == 0 then 0 else heard[k - 1]) < heard[i] - (if i == 0 then 0 else heard[i - 1]))
  {
    PicksBestIffNeverFalls(maxNum, reqs);
    var s := Loop(maxNum, reqs);
    hide Loop, Received, Sampled;
    var heard := Coverages(Received(reqs)[..|s.record|]);
    if forall a, b :: 0 <= a <= b < |heard| ==> heard[a] <= heard[b] {
      BestRise(heard, s.maxDeltaIndex, k);
    }
  }

  lemma BestRise(s: seq<nat>, i: nat, k: nat)
    requires k < |s| && (forall a, b :: 0 <= a <= b < |s| ==> s[a] <= s[b]) && (NeverFalls(s) ==> BestDelta(s, i))
    ensures i < |s| && Delta(s, k) <= Delta(s, i) && (k < i ==> Delta(s, k) < Delta(s, i))
  {
    forall j | 0 <= j < |s| ensures Delta(s, j) >= 0 {
    }
    hide Delta;
    if forall j :: 0 <= j < |s| ==> Delta(s, j) <= 0 {
      assert i == 0 && Delta(s, 0) >= 0;
    }
  }

  /** Two receptions, the second with less coverage: it is taken for the best. */
  lemma FallIsTakenForBest(p: LivePkt)
    requires p.deviceId == 1
    ensures var s := Loop(MAX_PACKETS, [Req(p, 5), Req(p, 3)]);
      s.samples == [5, 3] && s.maxDeltaIndex == 1 && !BestDelta(s.samples, s.maxDeltaIndex)
  {
    var reqs := [Req(p, 5), Req(p, 3)];
    assert reqs[..1] == [Req(p, 5)];
    assert [Req(p, 5)][..0] == [];
    assert Loop(MAX_PACKETS, [Req(p, 5)]) == Collect([p], [5], 5, 0, 5, 0, false);
    assert Delta([5, 3], 0) == 5;
  }

  /** The loop body as the program runs it, recording into its packet recorder. */
  method HandleRequest(q: Req, maxNum: nat, rec: Record, coverage: nat, count: nat, maxDelta: nat, maxDeltaIndex: nat,
                       ghost s: Collect)
      returns (coverage': nat, count': nat, maxDelta': nat, maxDeltaIndex': nat, done: bool)
    requires rec.Valid() && rec.buf.Length == RECORD_SLOTS && rec.count < maxNum <= MAX_PACKETS
    requires s == Collect(rec.Contents(), s.samples, coverage, count, maxDelta, maxDeltaIndex, false)
    modifies rec`count, rec.buf
    ensures rec.Valid()
    ensures Turn(maxNum, s, q) ==
      Collect(rec.Contents(), Turn(maxNum, s, q).samples, coverage', count', maxDelta', maxDeltaIndex', done)
  {
    coverage', count', maxDelta', maxDeltaIndex', done := coverage, count, maxDelta, maxDeltaIndex, false;
    if q.pkt.deviceId == 1 {
      var rc := rec.Add(q.pkt);
      assert rc == 0 && rec.count == |s.record| + 1;
      var delta := (q.coverage - coverage) % 0x1_0000_0000;
      if delta > maxDelta {
        maxDelta', maxDeltaIndex' := delta, rec.count - 1;
      }
    }
    if maxNum <= rec.count {
      done := true;
    } else if q.pkt.deviceId == 1 && q.coverage <= coverage {
      count' := count + 1;
      done := count' > STAGNANT_LIMIT;
    }
    if !done && q.pkt.deviceId == 1 {
      coverage' := q.coverage;
    }
  }

  /** The loop. */
  method InterceptForInitCorpus(reqs: seq<Req>, maxNum: nat, rec: Record) returns (done: bool, maxDeltaIndex: nat)
    requires 0 < maxNum <= MAX_PACKETS && Sampled(reqs)
    requires rec.Valid() && rec.Contents() == [] && rec.buf.Length == RECORD_SLOTS
    modifies rec`count, rec.buf
    ensures rec.Valid()
    ensures var s := Loop(maxNum, reqs);
      rec.Contents() == s.record && done == s.done && maxDeltaIndex == s.maxDeltaIndex
  {
    var i, count, coverage, maxDelta := 0, 0, 0, 0;
    done, maxDeltaIndex := false, 0;
    assert reqs[..0] == [];
    assert Loop(maxNum, reqs[..0]) == Begun();
    hide Loop, Turn, Stagnant, Wrapped;
    while i < |reqs| && !done
      invariant i <= |reqs| && rec.Valid()
      invariant var s := Loop(maxNum, reqs[..i]);
        s == Collect(rec.Contents(), s.samples, coverage, count, maxDelta, maxDeltaIndex, done)
      decreases |reqs| - i
    {
      LoopTracks(maxNum, reqs[..i]);
      LoopStep(maxNum, reqs, i);
      assert rec.count == |rec.Contents()| < maxNum;
      coverage, count, maxDelta, maxDeltaIndex, done :=
        HandleRequest(reqs[i], maxNum, rec, coverage, count, maxDelta, maxDeltaIndex, Loop(maxNum, reqs[..i]));
      i := i + 1;
    }
    StoppedStays(maxNum, reqs, i);
  }

  lemma LoopStep(maxNum: nat, reqs: seq<Req>, i: nat)
    requires i < |reqs| && !Loop(maxNum, reqs[..i]).done
    ensures Loop(maxNum, reqs[..i + 1]) == Turn(maxNum, Loop(maxNum, reqs[..i]), reqs[i])
  {
    assert reqs[..i + 1][..i] == reqs[..i];
  }

  /** Requests behind the stop are not looked at. */
  lemma {:induction false} StoppedStays(maxNum: nat, reqs: seq<Req>, i: nat)
    requires i <= |reqs| && (Loop(maxNum, reqs[..i]).done || i == |reqs|)
    ensures Loop(maxNum, reqs) == Loop(maxNum, reqs[..i])
  {
    if i < |reqs| {
      assert reqs[..|reqs| - 1][..i] == reqs[..i];
      StoppedStays(maxNum, reqs[..|reqs| - 1], i);
    } else {
      assert reqs[..i] == reqs;
    }
  }
}
