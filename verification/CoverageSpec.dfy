/** What the edge-coverage maps of blueman-main/coverage.c mean, byte by byte.
    A virgin map starts as all ones; a bit is cleared once some trace has set it. */
module CoverageSpec {

  type Map = seq<bv8>

  /** `MAP_SIZE`: `2 << 16` bytes. */
  const MAP_SIZE: nat := 131072

  /** The trace byte is set where the virgin byte is untouched: a new edge. */
  predicate Fresh(v: bv8, t: bv8) { t != 0 && v == 0xff }

  /** The trace byte has a bit no earlier trace had: a new edge or a new hit count. */
  predicate Novel(v: bv8, t: bv8) { t & v != 0 }

  ghost predicate SomeFresh(v: Map, t: Map, lo: nat, hi: nat)
    requires lo <= hi <= |v| == |t|
  {
    exists i :: lo <= i < hi && Fresh(v[i], t[i])
  }

  ghost predicate SomeNovel(v: Map, t: Map, lo: nat, hi: nat)
    requires lo <= hi <= |v| == |t|
  {
    exists i :: lo <= i < hi && Novel(v[i], t[i])
  }

  /** The verdict on the first `n` bytes: 2 for a new edge, 1 for new hit counts only. */
  ghost function Verdict(v: Map, t: Map, n: nat): nat
    requires n <= |v| == |t|
  {
    if SomeFresh(v, t, 0, n) then 2 else if SomeNovel(v, t, 0, n) then 1 else 0
  }

  /** The virgin map after a trace has been accounted for. */
  function Merge(v: Map, t: Map): (r: Map)
    requires |v| == |t|
    ensures |r| == |v|
  {
    seq(|v|, i requires 0 <= i < |v| => v[i] & !t[i])
  }

  /** How many bytes of a virgin map are no longer 0xff: the edges seen so far. */
  function Covered(v: Map): (n: nat)
    ensures n <= |v|
  {
    if v == [] then 0 else Covered(v[..|v| - 1]) + if v[|v| - 1] != 0xff then 1 else 0
  }

  /** How many bytes of a trace are set: the edges of one run. */
  function EdgeCount(t: Map): (n: nat)
    ensures n <= |t|
  {
    if t == [] then 0 else EdgeCount(t[..|t| - 1]) + if t[|t| - 1] != 0 then 1 else 0
  }

  function BitIf(b: bv8, mask: bv8): nat { if b & mask != 0 then 1 else 0 }

  function Ones(b: bv8): (n: nat)
    ensures n <= 8
  {
    BitIf(b, 0x80) + BitIf(b, 0x40) + BitIf(b, 0x20) + BitIf(b, 0x10) +
    BitIf(b, 0x08) + BitIf(b, 0x04) + BitIf(b, 0x02) + BitIf(b, 0x01)
  }

  /** How many bits of a map are set. */
  function PopCount(v: Map): (n: nat)
    ensures n <= 8 * |v|
  {
    if v == [] then 0 else PopCount(v[..|v| - 1]) + Ones(v[|v| - 1])
  }

  /** The places of the bytes that are not `b`. */
  function Places(s: Map, b: bv8): set<nat> {
    set i: nat | i < |s| && s[i] != b
  }

  lemma PlacesSnoc(s: Map, b: bv8)
    requires s != []
    ensures var n := |s| - 1;
      |Places(s, b)| == |Places(s[..n], b)| + if s[n] != b then 1 else 0
  {
    var n := |s| - 1;
    var front := Places(s[..n], b);
    assert Places(s, b) == front + if s[n] != b then {n} else {};
    OneMore(front, n);
  }

  /** Both counts are of places in the map. */
  lemma {:induction false} CountsPlaces(s: Map)
    ensures EdgeCount(s) == |Places(s, 0)| && Covered(s) == |Places(s, 0xff)|
  {
    if s == [] {
      assert Places(s, 0) == {} == Places(s, 0xff);
    } else {
      CountsPlaces(s[..|s| - 1]);
      PlacesSnoc(s, 0);
      PlacesSnoc(s, 0xff);
      hide Places;
    }
  }

  lemma OneMore(s: set<nat>, n: nat)
    requires forall i :: i in s ==> i < n
    ensures |s + {n}| == |s| + 1 && s + {} == s
  {
  }

  /** 2 exactly if some edge is seen for the first time, 0 exactly if no bit is. */
  lemma VerdictIs(v: Map, t: Map)
    requires |v| == |t|
    ensures Verdict(v, t, |v|) == 2 <==> exists i :: 0 <= i < |v| && v[i] == 0xff && t[i] != 0
    ensures Verdict(v, t, |v|) == 0 <==> forall i :: 0 <= i < |v| ==> t[i] & v[i] == 0
    ensures Verdict(v, t, |v|) <= 2
  {
    forall i | 0 <= i < |v| ensures Fresh(v[i], t[i]) ==> Novel(v[i], t[i]) {
      FreshIsNovel(v[i], t[i]);
    }
    if i :| 0 <= i < |v| && v[i] == 0xff && t[i] != 0 { assert Fresh(v[i], t[i]); }
    if i :| 0 <= i < |v| && t[i] & v[i] != 0 { assert Novel(v[i], t[i]); }
  }

  lemma FreshIsNovel(v: bv8, t: bv8)
    ensures Fresh(v, t) ==> Novel(v, t)
  {
    assert t & 0xff == t;
  }

  lemma MergeByte(v: bv8, t: bv8)
    ensures !Novel(v, t) ==> v & !t == v
    ensures Novel(v, t) ==> v & !t != v
    ensures Fresh(v, t) <==> v == 0xff && v & !t != 0xff
    ensures t != 0 ==> v & !t != 0xff
    ensures v != 0xff ==> v & !t != 0xff
  {
  }

  lemma OnesMerge(v: bv8, t: bv8)
    ensures Ones(v & !t) <= Ones(v)
    ensures Ones(v & !t) < Ones(v) <==> Novel(v, t)
  {
    NovelBits(t & v);
    BitMerge(v, t, 0x80); BitMerge(v, t, 0x40); BitMerge(v, t, 0x20); BitMerge(v, t, 0x10);
    BitMerge(v, t, 0x08); BitMerge(v, t, 0x04); BitMerge(v, t, 0x02); BitMerge(v, t, 0x01);
  }

  lemma BitMerge(v: bv8, t: bv8, mask: bv8)
    requires mask in {0x80, 0x40, 0x20, 0x10, 0x08, 0x04, 0x02, 0x01}
    ensures BitIf(v, mask) == BitIf(v & !t, mask) + BitIf(t & v, mask)
  {
  }

  lemma NovelBits(b: bv8)
    ensures b != 0 <==> Ones(b) > 0
  {
  }

  /** The verdict is 0 exactly when the merge changes nothing. */
  lemma VerdictZeroIffMergeIsIdentity(v: Map, t: Map)
    requires |v| == |t|
    ensures Verdict(v, t, |v|) == 0 <==> Merge(v, t) == v
  {
    forall i | 0 <= i < |v|
      ensures Merge(v, t)[i] == v[i] <==> !Novel(v[i], t[i])
      ensures Fresh(v[i], t[i]) ==> Novel(v[i], t[i])
    {
      MergeByte(v[i], t[i]);
      FreshIsNovel(v[i], t[i]);
    }
    if Verdict(v, t, |v|) != 0 {
      var i :| 0 <= i < |v| && Novel(v[i], t[i]);
      assert Merge(v, t)[i] != v[i];
    }
  }

  lemma MergePrefix(v: Map, t: Map)
    requires |v| == |t| > 0
    ensures Merge(v, t)[..|v| - 1] == Merge(v[..|v| - 1], t[..|v| - 1])
  {
  }

  /** A merge never loses coverage, and gains some exactly on verdict 2. */
  lemma {:induction false} CoverageGrowsIffVerdictTwo(v: Map, t: Map)
    requires |v| == |t|
    ensures Covered(v) <= Covered(Merge(v, t))
    ensures Covered(v) < Covered(Merge(v, t)) <==> Verdict(v, t, |v|) == 2
  {
    if |v| > 0 {
      var n := |v| - 1;
      CoverageGrowsIffVerdictTwo(v[..n], t[..n]);
      MergePrefix(v, t);
      MergeByte(v[n], t[n]);
      assert forall i :: 0 <= i < n ==> v[..n][i] == v[i] && t[..n][i] == t[i];
      if SomeFresh(v, t, 0, |v|) {
        var i :| 0 <= i < |v| && Fresh(v[i], t[i]);
        assert i < n ==> Fresh(v[..n][i], t[..n][i]);
      }
    }
  }

  /** Once a trace has been merged, its own edges are among the edges seen. */
  lemma {:induction false} RunCoverageWithinTotal(v: Map, t: Map)
    requires |v| == |t|
    ensures EdgeCount(t) <= Covered(Merge(v, t))
  {
    if |v| > 0 {
      var n := |v| - 1;
      RunCoverageWithinTotal(v[..n], t[..n]);
      MergePrefix(v, t);
      MergeByte(v[n], t[n]);
    }
  }

  /** A merge clears bits only, and at least one when the verdict is not 0. */
  lemma {:induction false} PopCountDropsIffNovel(v: Map, t: Map)
    requires |v| == |t|
    ensures PopCount(Merge(v, t)) <= PopCount(v)
    ensures PopCount(Merge(v, t)) < PopCount(v) <==> Verdict(v, t, |v|) != 0
  {
    if |v| > 0 {
      var n := |v| - 1;
      PopCountDropsIffNovel(v[..n], t[..n]);
      PopCountStep(v, t);
      VerdictStep(v, t);
    }
  }

  lemma PopCountStep(v: Map, t: Map)
    requires |v| == |t| > 0
    ensures var n := |v| - 1;
      var gone := PopCount(v) - PopCount(Merge(v, t));
      var goneBefore := PopCount(v[..n]) - PopCount(Merge(v[..n], t[..n]));
      goneBefore <= gone && (goneBefore < gone <==> Novel(v[n], t[n]))
  {
    MergePrefix(v, t);
    OnesMerge(v[|v| - 1], t[|v| - 1]);
  }

  lemma VerdictStep(v: Map, t: Map)
    requires |v| == |t| > 0
    ensures var n := |v| - 1;
      Verdict(v, t, |v|) != 0 <==> Verdict(v[..n], t[..n], n) != 0 || Novel(v[n], t[n])
  {
    var n := |v| - 1;
    VerdictZeroIffMergeIsIdentity(v, t);
    VerdictZeroIffMergeIsIdentity(v[..n], t[..n]);
    MergePrefix(v, t);
    MergeByte(v[n], t[n]);
    assert Merge(v, t) == Merge(v, t)[..n] + [Merge(v, t)[n]];
    assert v == v[..n] + [v[n]];
  }
}
