/** The coverage log and its conversion to one row a second (add_coverage_entry in
    blueman-main/coverage_logger/coverage_logger.c, rebuild and json_to_csv in
    blueman-main/coverage_logger/gen_csv.py). */
module CsvTrace {

  /** A log entry: microseconds since the start, and total coverage. */
  datatype Entry = Entry(time: nat, coverage: nat)

  function Second(e: Entry): nat { e.time / 1_000_000 }

  /** How many entries the conversion reads: it breaks at the first one behind `maxTime`. */
  function ReadCount(data: seq<Entry>, maxTime: int): (n: nat)
    ensures n <= |data|
    ensures forall i :: 0 <= i < n ==> Second(data[i]) <= maxTime
    ensures n < |data| ==> Second(data[n]) > maxTime
  {
    if data == [] || Second(data[0]) > maxTime then 0 else 1 + ReadCount(data[1..], maxTime)
  }

  /** The dictionary after some entries: per second the coverage of the last entry in it. */
  function Filled(data: seq<Entry>): (m: map<nat, nat>)
    ensures 0 in m
  {
    if data == [] then map[0 := 0]
    else Filled(data[..|data| - 1])[Second(data[|data| - 1]) := data[|data| - 1].coverage]
  }

  /** The value of the latest key at or before `t`, 0 if there is none: the simple form that
      the forward fill is to refine. */
  function Latest(m: map<nat, nat>, t: int): nat
    decreases if t < 0 then 0 else t + 1
  {
    if t < 0 then 0 else if t in m then m[t] else Latest(m, t - 1)
  }

  function SecondsUpTo(maxTime: int): (s: set<nat>)
    ensures forall t: nat :: t in s <==> t <= maxTime
    decreases if maxTime < 0 then 0 else maxTime + 1
  {
    if maxTime < 0 then {} else SecondsUpTo(maxTime - 1) + {maxTime}
  }

  /** The dictionary `rebuild` leaves. */
  function Rebuilt(m: map<nat, nat>, maxTime: int): (r: map<nat, nat>)
    ensures forall t: nat :: t in r <==> t in m || t <= maxTime
    ensures forall t: nat :: t in r ==> r[t] == if t <= maxTime then Latest(m, t) else m[t]
  {
    map t: nat | t in m.Keys + SecondsUpTo(maxTime) :: if t <= maxTime then Latest(m, t) else m[t]
  }

  /** How far `rebuild` has got at second `t`. */
  ghost predicate FilledUpTo(m: map<nat, nat>, entries: map<nat, nat>, t: nat) {
    && (forall k: nat :: k in entries <==> k in m || k < t)
    && (forall k: nat :: k in entries ==> entries[k] == if k < t then Latest(m, k) else m[k])
  }

  lemma FilledIsRebuilt(m: map<nat, nat>, entries: map<nat, nat>, maxTime: int)
    requires FilledUpTo(m, entries, if maxTime < 0 then 0 else maxTime + 1)
    ensures entries == Rebuilt(m, maxTime)
  {
    hide Latest;
  }

  class Trace {
    var entries: map<nat, nat>

    constructor ()
      ensures entries == map[0 := 0]
    {
      entries := map[0 := 0];
    }

    /** `rebuild`, filling the dictionary in place. */
    method Rebuild(maxTime: int)
      modifies this
      ensures entries == Rebuilt(old(entries), maxTime)
    {
      ghost var m := entries;
      var latest := 0;
      var t := 0;
      while t < maxTime + 1
        invariant 0 <= t && (t <= maxTime + 1 || t == 0)
        invariant latest == Latest(m, t - 1) && FilledUpTo(m, entries, t)
        decreases maxTime + 1 - t
      {
        if t in entries {
          latest := entries[t];
        } else {
          entries := entries[t := latest];
        }
        t := t + 1;
      }
      FilledIsRebuilt(m, entries, maxTime);
    }

    /** The loop of `json_to_csv` that builds the dictionary, with its early break. */
    method Load(data: seq<Entry>, maxTime: int)
      requires entries == map[0 := 0]
      modifies this
      ensures entries == Filled(data[..ReadCount(data, maxTime)])
    {
      for i := 0 to |data|
        invariant i <= ReadCount(data, maxTime)
        invariant entries == Filled(data[..i])
      {
        if Second(data[i]) > maxTime {
          ReadStops(data, maxTime, i);
          return;
        }
        ReadGoesOn(data, maxTime, i);
        assert data[..i + 1][..i] == data[..i];
        entries := entries[Second(data[i]) := data[i].coverage];
      }
    }
  }

  lemma ReadStops(data: seq<Entry>, maxTime: int, i: nat)
    requires i < |data| && i <= ReadCount(data, maxTime) && Second(data[i]) > maxTime
    ensures ReadCount(data, maxTime) == i
  {
  }

  lemma ReadGoesOn(data: seq<Entry>, maxTime: int, i: nat)
    requires i < |data| && i <= ReadCount(data, maxTime) && Second(data[i]) <= maxTime
    ensures i + 1 <= ReadCount(data, maxTime)
  {
  }

  /** `json_to_csv` without the files: the rows it writes. */
  method Convert(data: seq<Entry>, maxTime: int) returns (rows: seq<nat>)
    ensures |rows| == if maxTime < 0 then 0 else maxTime + 1
    ensures forall t :: 0 <= t < |rows| ==> rows[t] == Latest(Filled(data[..ReadCount(data, maxTime)]), t)
  {
    var trace := new Trace();
    trace.Load(data, maxTime);
    trace.Rebuild(maxTime);
    rows := [];
    var t := 0;
    while t < maxTime + 1
      invariant 0 <= t == |rows| && (t <= maxTime + 1 || t == 0)
      invariant forall k :: 0 <= k < |rows| ==> rows[k] == Latest(Filled(data[..ReadCount(data, maxTime)]), k)
    {
      rows := rows + [trace.entries[t]];
      t := t + 1;
    }
  }

  // ---------- What a row means ----------

  ghost predicate Sorted(data: seq<Entry>) {
    forall i, j :: 0 <= i < j < |data| ==> data[i].time <= data[j].time
  }

  ghost predicate Rising(data: seq<Entry>) {
    forall i, j :: 0 <= i < j < |data| ==> data[i].coverage <= data[j].coverage
  }

  /** The coverage of the last entry whose second is at most `t`, 0 if there is none. */
  function LastBy(data: seq<Entry>, t: int): nat {
    if data == [] then 0
    else if Second(data[|data| - 1]) <= t then data[|data| - 1].coverage
    else LastBy(data[..|data| - 1], t)
  }

  lemma {:induction false} KeysWithin(data: seq<Entry>, bound: nat)
    requires forall i :: 0 <= i < |data| ==> Second(data[i]) <= bound
    ensures forall k :: k in Filled(data) ==> k <= bound
  {
    if data != [] {
      KeysWithin(data[..|data| - 1], bound);
    }
  }

  /** A key set behind `t` does not matter at `t`; one set at the newest second does. */
  lemma {:induction false} LatestOfUpdate(m: map<nat, nat>, k: nat, v: nat, t: int)
    requires forall j :: j in m ==> j <= k
    ensures Latest(m[k := v], t) == if k <= t then v else Latest(m, t)
    decreases if t < 0 then 0 else t + 1
  {
    if t >= 0 && t != k {
      LatestOfUpdate(m, k, v, t - 1);
    }
  }

  /** For a log in time order, row `t` is the coverage of the last entry by second `t`. */
  lemma {:induction false} RowIsLastBy(data: seq<Entry>, t: int)
    requires Sorted(data)
    ensures Latest(Filled(data), t) == LastBy(data, t)
  {
    if data == [] {
      EmptyTrace(t);
    } else {
      var front, e := data[..|data| - 1], data[|data| - 1];
      RowIsLastBy(front, t);
      SecondsSorted(data);
      KeysWithin(front, Second(e));
      LatestOfUpdate(Filled(front), Second(e), e.coverage, t);
    }
  }

  lemma SecondsSorted(data: seq<Entry>)
    requires Sorted(data) && data != []
    ensures forall i :: 0 <= i < |data| ==> Second(data[i]) <= Second(data[|data| - 1])
  {
    forall i | 0 <= i < |data| ensures Second(data[i]) <= Second(data[|data| - 1]) {
      assert data[i].time <= data[|data| - 1].time;
    }
  }

  lemma {:induction false} EmptyTrace(t: int)
    ensures Latest(map[0 := 0], t) == 0
    decreases if t < 0 then 0 else t + 1
  {
    if t > 0 { EmptyTrace(t - 1); }
  }

  /** Entries the early break leaves out are behind every row, so the break changes nothing. */
  lemma {:induction false} BreakIsHarmless(data: seq<Entry>, maxTime: int, t: int)
    requires Sorted(data) && t <= maxTime
    ensures LastBy(data[..ReadCount(data, maxTime)], t) == LastBy(data, t)
    decreases |data|
  {
    hide Second, ReadCount;
    var n := ReadCount(data, maxTime);
    if n < |data| {
      SecondsSorted(data);
      assert Second(data[n]) <= Second(data[|data| - 1]);
      var front := data[..|data| - 1];
      ReadCountFront(data, maxTime);
      BreakIsHarmless(front, maxTime, t);
      assert front[..n] == data[..n];
    } else {
      assert data[..n] == data;
    }
  }

  lemma ReadCountFront(data: seq<Entry>, maxTime: int)
    requires ReadCount(data, maxTime) < |data|
    ensures ReadCount(data[..|data| - 1], maxTime) == ReadCount(data, maxTime)
  {
    var n, f := ReadCount(data, maxTime), ReadCount(data[..|data| - 1], maxTime);
    var front := data[..|data| - 1];
    assert forall i :: 0 <= i < |front| ==> front[i] == data[i];
  }

  /** The CSV of a log in time order: row `t` is the coverage of the last entry of the whole
      log by second `t`. */
  lemma CsvRow(data: seq<Entry>, maxTime: int, t: nat)
    requires Sorted(data) && t <= maxTime
    ensures Latest(Filled(data[..ReadCount(data, maxTime)]), t) == LastBy(data, t)
  {
    RowIsLastBy(data[..ReadCount(data, maxTime)], t);
    BreakIsHarmless(data, maxTime, t);
  }

  lemma SecondBy(e: Entry, t: nat)
    ensures Second(e) <= t <==> e.time < 1_000_000 * (t + 1)
  {
  }

  /** `LastBy` in microseconds: second `t` ends at `1_000_000 * (t + 1)`. */
  lemma {:induction false} LastByIs(data: seq<Entry>, t: nat, i: nat)
    requires Sorted(data) && i < |data| && data[i].time < 1_000_000 * (t + 1)
    requires i + 1 < |data| ==> 1_000_000 * (t + 1) <= data[i + 1].time
    ensures LastBy(data, t) == data[i].coverage
  {
    hide Second;
    var n := |data| - 1;
    SecondBy(data[n], t);
    if i < n {
      assert data[i + 1].time <= data[n].time;
      LastByIs(data[..n], t, i);
    }
  }

  lemma {:induction false} NoneBy(data: seq<Entry>, t: nat)
    requires Sorted(data) && (data != [] ==> 1_000_000 * (t + 1) <= data[0].time)
    ensures LastBy(data, t) == 0
  {
    hide Second;
    if data != [] {
      var n := |data| - 1;
      SecondBy(data[n], t);
      assert data[0].time <= data[n].time;
      NoneBy(data[..n], t);
    }
  }

  /** Row `t` is the coverage of the last entry that was logged before second `t` was over,
      or 0 if none was. */
  lemma RowReads(data: seq<Entry>, maxTime: int, t: nat)
    requires Sorted(data) && t <= maxTime
    ensures var row, end := Latest(Filled(data[..ReadCount(data, maxTime)]), t), 1_000_000 * (t + 1);
      && (forall i :: 0 <= i < |data| && data[i].time < end && (forall j :: i < j < |data| ==> end <= data[j].time) ==>
            row == data[i].coverage)
      && ((forall i :: 0 <= i < |data| ==> end <= data[i].time) ==> row == 0)
  {
    hide Latest, Filled, ReadCount, LastBy, Sorted;
    CsvRow(data, maxTime, t);
    var end := 1_000_000 * (t + 1);
    if forall i :: 0 <= i < |data| ==> end <= data[i].time { NoneBy(data, t); }
    forall i | 0 <= i < |data| && data[i].time < end && (forall j :: i < j < |data| ==> end <= data[j].time)
      ensures LastBy(data, t) == data[i].coverage
    {
      LastByIs(data, t, i);
    }
  }

  /** If coverage never falls either, the column never falls. */
  lemma {:induction false} CsvRises(data: seq<Entry>, s: int, t: int)
    requires Sorted(data) && Rising(data) && s <= t
    ensures LastBy(data, s) <= LastBy(data, t)
  {
    if data != [] {
      CsvRises(data[..|data| - 1], s, t);
      LastByWithin(data[..|data| - 1], s, data[|data| - 1].coverage);
    }
  }

  lemma {:induction false} LastByWithin(data: seq<Entry>, t: int, bound: nat)
    requires forall i :: 0 <= i < |data| ==> data[i].coverage <= bound
    ensures LastBy(data, t) <= bound
  {
    if data != [] { LastByWithin(data[..|data| - 1], t, bound); }
  }

  /** Rebuilding a rebuilt dictionary changes nothing. */
  lemma RebuildIdempotent(m: map<nat, nat>, maxTime: int)
    ensures Rebuilt(Rebuilt(m, maxTime), maxTime) == Rebuilt(m, maxTime)
  {
    var r := Rebuilt(m, maxTime);
    var rr := Rebuilt(r, maxTime);
    forall t: nat | t in rr ensures rr[t] == r[t] {
      assert t in r;
    }
  }
}
