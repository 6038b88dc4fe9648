/** The word-at-a-time scans of blueman-main/coverage.c, proved against the
    byte-level meaning in CoverageSpec.  Maps are byte buffers; a scan reads
    them through little-endian 64-bit loads, or 32-bit loads that the 64-bit
    masks then widen. */
module CoverageScan {
  import opened CoverageSpec

  // ---------- Words and their bytes ----------

  /** The 64-bit word a little-endian load reads from eight bytes. */
  function Pack64(b0: bv8, b1: bv8, b2: bv8, b3: bv8, b4: bv8, b5: bv8, b6: bv8, b7: bv8): bv64 {
    (b0 as bv64) | ((b1 as bv64) << 8) | ((b2 as bv64) << 16) | ((b3 as bv64) << 24) |
    ((b4 as bv64) << 32) | ((b5 as bv64) << 40) | ((b6 as bv64) << 48) | ((b7 as bv64) << 56)
  }

  /** The byte of a word that lies `sh` bits up. */
  function Byte(w: bv64, sh: bv64): bv8
    requires sh <= 56
  {
    ((w >> sh) & 0xff) as bv8
  }

  /** The `FF` macro, with its byte index already turned into a shift. */
  function FF(sh: bv64): bv64
    requires sh <= 56
  {
    0xff << sh
  }

  lemma PackZero(b0: bv8, b1: bv8, b2: bv8, b3: bv8, b4: bv8, b5: bv8, b6: bv8, b7: bv8)
    ensures Pack64(b0, b1, b2, b3, b4, b5, b6, b7) == 0 <==>
      b0 == 0 && b1 == 0 && b2 == 0 && b3 == 0 && b4 == 0 && b5 == 0 && b6 == 0 && b7 == 0
  {
  }

  lemma PackAnd(b0: bv8, b1: bv8, b2: bv8, b3: bv8, b4: bv8, b5: bv8, b6: bv8, b7: bv8,
                c0: bv8, c1: bv8, c2: bv8, c3: bv8, c4: bv8, c5: bv8, c6: bv8, c7: bv8)
    ensures Pack64(b0, b1, b2, b3, b4, b5, b6, b7) & Pack64(c0, c1, c2, c3, c4, c5, c6, c7) ==
      Pack64(b0 & c0, b1 & c1, b2 & c2, b3 & c3, b4 & c4, b5 & c5, b6 & c6, b7 & c7)
  {
  }

  /** The word written back holds the eight merged bytes. */
  lemma MergedBytes(b0: bv8, b1: bv8, b2: bv8, b3: bv8, b4: bv8, b5: bv8, b6: bv8, b7: bv8,
                    c0: bv8, c1: bv8, c2: bv8, c3: bv8, c4: bv8, c5: bv8, c6: bv8, c7: bv8)
    ensures var w := Pack64(b0, b1, b2, b3, b4, b5, b6, b7) & !Pack64(c0, c1, c2, c3, c4, c5, c6, c7);
      Byte(w, 0) == b0 & !c0 && Byte(w, 8) == b1 & !c1 && Byte(w, 16) == b2 & !c2 && Byte(w, 24) == b3 & !c3 &&
      Byte(w, 32) == b4 & !c4 && Byte(w, 40) == b5 & !c5 && Byte(w, 48) == b6 & !c6 && Byte(w, 56) == b7 & !c7
  {
  }

  lemma LowMasks(b0: bv8, b1: bv8, b2: bv8, b3: bv8, b4: bv8, b5: bv8, b6: bv8, b7: bv8)
    ensures var w := Pack64(b0, b1, b2, b3, b4, b5, b6, b7);
      (w & FF(0) != 0 <==> b0 != 0) && (w & FF(8) != 0 <==> b1 != 0) &&
      (w & FF(16) != 0 <==> b2 != 0) && (w & FF(24) != 0 <==> b3 != 0)
  {
  }

  lemma HighMasks(b0: bv8, b1: bv8, b2: bv8, b3: bv8, b4: bv8, b5: bv8, b6: bv8, b7: bv8)
    ensures var w := Pack64(b0, b1, b2, b3, b4, b5, b6, b7);
      (w & FF(32) != 0 <==> b4 != 0) && (w & FF(40) != 0 <==> b5 != 0) &&
      (w & FF(48) != 0 <==> b6 != 0) && (w & FF(56) != 0 <==> b7 != 0)
  {
  }

  lemma FullMasks(b0: bv8, b1: bv8, b2: bv8, b3: bv8)
    ensures var w := Pack64(b0, b1, b2, b3, 0, 0, 0, 0);
      (w & FF(0) != FF(0) <==> b0 != 0xff) && (w & FF(8) != FF(8) <==> b1 != 0xff) &&
      (w & FF(16) != FF(16) <==> b2 != 0xff) && (w & FF(24) != FF(24) <==> b3 != 0xff)
  {
  }

  // ---------- The novelty scan ----------

  /** The guard of the novelty scan on one word of each map. */
  method WordGate(b0: bv8, b1: bv8, b2: bv8, b3: bv8, b4: bv8, b5: bv8, b6: bv8, b7: bv8,
                  c0: bv8, c1: bv8, c2: bv8, c3: bv8, c4: bv8, c5: bv8, c6: bv8, c7: bv8) returns (open: bool)
    ensures open <==>
      b0 & c0 != 0 || b1 & c1 != 0 || b2 & c2 != 0 || b3 & c3 != 0 ||
      b4 & c4 != 0 || b5 & c5 != 0 || b6 & c6 != 0 || b7 & c7 != 0
  {
    var cur, vir := Pack64(b0, b1, b2, b3, b4, b5, b6, b7), Pack64(c0, c1, c2, c3, c4, c5, c6, c7);
    open := cur != 0 && cur & vir != 0;
    PackAnd(b0, b1, b2, b3, b4, b5, b6, b7,
            c0, c1, c2, c3, c4, c5, c6, c7);
    PackZero(b0 & c0, b1 & c1, b2 & c2, b3 & c3, b4 & c4, b5 & c5, b6 & c6, b7 & c7);
    assert cur == 0 ==> cur & vir == 0;
  }

  lemma SomeNovelUnrolled(v: Map, t: Map, o: nat)
    requires |v| == |t| && o + 8 <= |v|
    ensures SomeNovel(v, t, o, o + 8) <==>
      t[o] & v[o] != 0 || t[o + 1] & v[o + 1] != 0 || t[o + 2] & v[o + 2] != 0 || t[o + 3] & v[o + 3] != 0 ||
      t[o + 4] & v[o + 4] != 0 || t[o + 5] & v[o + 5] != 0 || t[o + 6] & v[o + 6] != 0 || t[o + 7] & v[o + 7] != 0
  {
    assert forall i :: o <= i < o + 8 ==> Novel(v[i], t[i]) == (t[i] & v[i] != 0);
  }

  /** The store of the novelty scan, `*virgin &= ~*current`, on one word. */
  method MergeWord(b0: bv8, b1: bv8, b2: bv8, b3: bv8, b4: bv8, b5: bv8, b6: bv8, b7: bv8,
                   c0: bv8, c1: bv8, c2: bv8, c3: bv8, c4: bv8, c5: bv8, c6: bv8, c7: bv8)
    returns (m0: bv8, m1: bv8, m2: bv8, m3: bv8, m4: bv8, m5: bv8, m6: bv8, m7: bv8)
    ensures m0 == b0 & !c0 && m1 == b1 & !c1 && m2 == b2 & !c2 && m3 == b3 & !c3
    ensures m4 == b4 & !c4 && m5 == b5 & !c5 && m6 == b6 & !c6 && m7 == b7 & !c7
  {
    var w := Pack64(b0, b1, b2, b3, b4, b5, b6, b7) & !Pack64(c0, c1, c2, c3, c4, c5, c6, c7);
    MergedBytes(b0, b1, b2, b3, b4, b5, b6, b7,
                c0, c1, c2, c3, c4, c5, c6, c7);
    m0, m1, m2, m3 := Byte(w, 0), Byte(w, 8), Byte(w, 16), Byte(w, 24);
    m4, m5, m6, m7 := Byte(w, 32), Byte(w, 40), Byte(w, 48), Byte(w, 56);
  }

  method Gate(virgin: array<bv8>, trace: array<bv8>, o: nat) returns (open: bool)
    requires virgin.Length == trace.Length && o + 8 <= virgin.Length
    ensures open <==> SomeNovel(virgin[..], trace[..], o, o + 8)
  {
    open := WordGate(trace[o], trace[o + 1], trace[o + 2], trace[o + 3],
                     trace[o + 4], trace[o + 5], trace[o + 6], trace[o + 7],
                     virgin[o], virgin[o + 1], virgin[o + 2], virgin[o + 3],
                     virgin[o + 4], virgin[o + 5], virgin[o + 6], virgin[o + 7]);
    SomeNovelUnrolled(virgin[..], trace[..], o);
  }

  lemma MergedHalf(v: Map, t: Map, w: Map, o: nat)
    requires |v| == |t| == |w| && o + 4 <= |v|
    requires w[o] == v[o] & !t[o] && w[o + 1] == v[o + 1] & !t[o + 1]
    requires w[o + 2] == v[o + 2] & !t[o + 2] && w[o + 3] == v[o + 3] & !t[o + 3]
    ensures forall k :: o <= k < o + 4 ==> w[k] == Merge(v, t)[k]
  {
    forall k | o <= k < o + 4 ensures w[k] == Merge(v, t)[k] {
      if k == o {} else if k == o + 1 {} else if k == o + 2 {} else {}
    }
  }

  method Store(virgin: array<bv8>, trace: array<bv8>, o: nat)
    requires virgin != trace && virgin.Length == trace.Length && o + 8 <= virgin.Length
    modifies virgin
    ensures forall k :: o <= k < o + 8 ==> virgin[k] == Merge(old(virgin[..]), trace[..])[k]
    ensures forall k :: 0 <= k < virgin.Length && !(o <= k < o + 8) ==> virgin[k] == old(virgin[k])
  {
    ghost var v := virgin[..];
    var m0, m1, m2, m3, m4, m5, m6, m7 :=
      MergeWord(virgin[o], virgin[o + 1], virgin[o + 2], virgin[o + 3],
                virgin[o + 4], virgin[o + 5], virgin[o + 6], virgin[o + 7],
                trace[o], trace[o + 1], trace[o + 2], trace[o + 3],
                trace[o + 4], trace[o + 5], trace[o + 6], trace[o + 7]);
    Store64(virgin, o, m0, m1, m2, m3, m4, m5, m6, m7);
    MergedHalf(v, trace[..], virgin[..], o);
    MergedHalf(v, trace[..], virgin[..], o + 4);
  }

  method Store64(a: array<bv8>, o: nat, b0: bv8, b1: bv8, b2: bv8, b3: bv8, b4: bv8, b5: bv8, b6: bv8, b7: bv8)
    requires o + 8 <= a.Length
    modifies a
    ensures a[o] == b0 && a[o + 1] == b1 && a[o + 2] == b2 && a[o + 3] == b3
    ensures a[o + 4] == b4 && a[o + 5] == b5 && a[o + 6] == b6 && a[o + 7] == b7
    ensures forall k :: 0 <= k < a.Length && !(o <= k < o + 8) ==> a[k] == old(a[k])
  {
    a[o] := b0; a[o + 1] := b1; a[o + 2] := b2; a[o + 3] := b3;
    a[o + 4] := b4; a[o + 5] := b5; a[o + 6] := b6; a[o + 7] := b7;
  }

  /** A word without a novel byte keeps its virgin values. */
  lemma UntouchedWord(v: Map, t: Map, o: nat)
    requires |v| == |t| && o + 8 <= |v| && !SomeNovel(v, t, o, o + 8)
    ensures forall k :: o <= k < o + 8 ==> Merge(v, t)[k] == v[k]
  {
    forall k | o <= k < o + 8 ensures Merge(v, t)[k] == v[k] {
      assert !Novel(v[k], t[k]);
      MergeByte(v[k], t[k]);
    }
  }

  lemma VerdictExtends(v: Map, t: Map, o: nat)
    requires |v| == |t| && o + 8 <= |v|
    ensures Verdict(v, t, o + 8) ==
      if SomeFresh(v, t, 0, o) || SomeFresh(v, t, o, o + 8) then 2
      else if SomeNovel(v, t, 0, o) || SomeNovel(v, t, o, o + 8) then 1 else 0
    ensures SomeFresh(v, t, o, o + 8) ==> SomeNovel(v, t, o, o + 8)
  {
    if SomeFresh(v, t, o, o + 8) {
      var i :| o <= i < o + 8 && Fresh(v[i], t[i]);
      FreshIsNovel(v[i], t[i]);
      assert Novel(v[i], t[i]);
    }
  }

  /** The eight-way byte test that tells a new edge from a new hit count. */
  predicate WordFresh(v: Map, t: Map, o: nat)
    requires |v| == |t| && o + 8 <= |v|
  {
    (t[o] != 0 && v[o] == 0xff) || (t[o + 1] != 0 && v[o + 1] == 0xff) ||
    (t[o + 2] != 0 && v[o + 2] == 0xff) || (t[o + 3] != 0 && v[o + 3] == 0xff) ||
    (t[o + 4] != 0 && v[o + 4] == 0xff) || (t[o + 5] != 0 && v[o + 5] == 0xff) ||
    (t[o + 6] != 0 && v[o + 6] == 0xff) || (t[o + 7] != 0 && v[o + 7] == 0xff)
  }

  lemma WordFreshIffSomeFresh(v: Map, t: Map, o: nat)
    requires |v| == |t| && o + 8 <= |v|
    ensures WordFresh(v, t, o) <==> SomeFresh(v, t, o, o + 8)
  {
    assert forall i :: o <= i < o + 8 ==> Fresh(v[i], t[i]) == (t[i] != 0 && v[i] == 0xff);
  }

  /** `has_new_bits`: merges the trace into the virgin map in place, words the gate
      skips included, and returns the verdict on the map as it was. */
  method HasNewBits(virgin: array<bv8>, trace: array<bv8>) returns (ret: nat)
    requires virgin != trace && virgin.Length == trace.Length && virgin.Length % 8 == 0
    modifies virgin
    ensures virgin[..] == Merge(old(virgin[..]), trace[..])
    ensures ret == Verdict(old(virgin[..]), trace[..], virgin.Length)
  {
    ghost var v, t := virgin[..], trace[..];
    ret := 0;
    var i := 0;
    while i < virgin.Length / 8
      invariant i <= virgin.Length / 8
      invariant ret == Verdict(v, t, 8 * i)
      invariant forall k :: 0 <= k < virgin.Length ==> virgin[k] == if k < 8 * i then Merge(v, t)[k] else v[k]
    {
      var o := 8 * i;
      SameWindow(v, virgin[..], t, o);
      VerdictExtends(v, t, o);
      assert forall k :: o <= k < o + 8 ==> Merge(virgin[..], trace[..])[k] == Merge(v, t)[k];
      var open := Gate(virgin, trace, o);
      if open {
        if ret < 2 {
          WordFreshIffSomeFresh(virgin[..], trace[..], o);
          if WordFresh(virgin[..], trace[..], o) { ret := 2; } else { ret := 1; }
        }
        Store(virgin, trace, o);
      } else {
        UntouchedWord(v, t, o);
      }
      i := i + 1;
    }
  }

  lemma SameWindow(v: Map, w: Map, t: Map, o: nat)
    requires |v| == |w| == |t| && o + 8 <= |v|
    requires forall k :: o <= k < |v| ==> w[k] == v[k]
    ensures SomeNovel(w, t, o, o + 8) <==> SomeNovel(v, t, o, o + 8)
    ensures SomeFresh(w, t, o, o + 8) <==> SomeFresh(v, t, o, o + 8)
  {
  }

  // ---------- The counting scans ----------

  function One(b: bool): nat { if b then 1 else 0 }

  /** `count_bytes`: eight bytes at a time, zero words skipped. */
  method CountBytes(mem: array<bv8>) returns (ret: nat)
    requires mem.Length % 8 == 0
    ensures ret == EdgeCount(mem[..])
  {
    ret := 0;
    var i := 0;
    while i < mem.Length / 8
      invariant i <= mem.Length / 8 && ret == EdgeCount(mem[..8 * i])
    {
      var o := 8 * i;
      var n := CountWord(mem[o], mem[o + 1], mem[o + 2], mem[o + 3], mem[o + 4], mem[o + 5], mem[o + 6], mem[o + 7]);
      EdgeCountWord(mem[..], 8 * i);
      assert mem[..][..8 * i] == mem[..8 * i] && mem[..][..8 * i + 8] == mem[..8 * (i + 1)];
      ret := ret + n;
      i := i + 1;
    }
    assert mem[..8 * i] == mem[..];
  }

  method CountWord(b0: bv8, b1: bv8, b2: bv8, b3: bv8, b4: bv8, b5: bv8, b6: bv8, b7: bv8) returns (n: nat)
    ensures n == One(b0 != 0) + One(b1 != 0) + One(b2 != 0) + One(b3 != 0) +
      One(b4 != 0) + One(b5 != 0) + One(b6 != 0) + One(b7 != 0)
  {
    var v := Pack64(b0, b1, b2, b3, b4, b5, b6, b7);
    PackZero(b0, b1, b2, b3, b4, b5, b6, b7);
    if v == 0 {
      return 0;
    }
    var low := CountLow(b0, b1, b2, b3, b4, b5, b6, b7);
    var high := CountHigh(b0, b1, b2, b3, b4, b5, b6, b7);
    n := low + high;
  }

  /** The first and the last four masked tests on a word. */
  method CountLow(b0: bv8, b1: bv8, b2: bv8, b3: bv8, b4: bv8, b5: bv8, b6: bv8, b7: bv8) returns (n: nat)
    ensures n == One(b0 != 0) + One(b1 != 0) + One(b2 != 0) + One(b3 != 0)
  {
    var v := Pack64(b0, b1, b2, b3, b4, b5, b6, b7);
    LowMasks(b0, b1, b2, b3, b4, b5, b6, b7);
    n := One(v & FF(0) != 0) + One(v & FF(8) != 0) + One(v & FF(16) != 0) + One(v & FF(24) != 0);
  }

  method CountHigh(b0: bv8, b1: bv8, b2: bv8, b3: bv8, b4: bv8, b5: bv8, b6: bv8, b7: bv8) returns (n: nat)
    ensures n == One(b4 != 0) + One(b5 != 0) + One(b6 != 0) + One(b7 != 0)
  {
    var v := Pack64(b0, b1, b2, b3, b4, b5, b6, b7);
    HighMasks(b0, b1, b2, b3, b4, b5, b6, b7);
    n := One(v & FF(32) != 0) + One(v & FF(40) != 0) + One(v & FF(48) != 0) + One(v & FF(56) != 0);
  }

  lemma EdgeCountStep(m: Map, n: nat)
    requires n < |m|
    ensures EdgeCount(m[..n + 1]) == EdgeCount(m[..n]) + One(m[n] != 0)
  {
    assert m[..n + 1][..n] == m[..n];
  }

  lemma EdgeCountWord(m: Map, o: nat)
    requires o + 8 <= |m|
    ensures EdgeCount(m[..o + 8]) == EdgeCount(m[..o]) +
      One(m[o] != 0) + One(m[o + 1] != 0) + One(m[o + 2] != 0) + One(m[o + 3] != 0) +
      One(m[o + 4] != 0) + One(m[o + 5] != 0) + One(m[o + 6] != 0) + One(m[o + 7] != 0)
  {
    EdgeCountHalf(m, o);
    EdgeCountHalf(m, o + 4);
  }

  lemma EdgeCountHalf(m: Map, o: nat)
    requires o + 4 <= |m|
    ensures EdgeCount(m[..o + 4]) == EdgeCount(m[..o]) +
      One(m[o] != 0) + One(m[o + 1] != 0) + One(m[o + 2] != 0) + One(m[o + 3] != 0)
  {
    EdgeCountStep(m, o); EdgeCountStep(m, o + 1); EdgeCountStep(m, o + 2); EdgeCountStep(m, o + 3);
  }

  /** `count_non_255_bytes`: four bytes at a time, all-ones words skipped. */
  method CountNon255Bytes(mem: array<bv8>) returns (ret: nat)
    requires mem.Length % 4 == 0
    ensures ret == Covered(mem[..])
  {
    ret := 0;
    var i := 0;
    while i < mem.Length / 4
      invariant i <= mem.Length / 4 && ret == Covered(mem[..4 * i])
    {
      var o := 4 * i;
      var n := CountHalfWord(mem[o], mem[o + 1], mem[o + 2], mem[o + 3]);
      CoveredHalfWord(mem[..], 4 * i);
      assert mem[..][..4 * i] == mem[..4 * i] && mem[..][..4 * i + 4] == mem[..4 * (i + 1)];
      ret := ret + n;
      i := i + 1;
    }
    assert mem[..4 * i] == mem[..];
  }

  method CountHalfWord(b0: bv8, b1: bv8, b2: bv8, b3: bv8) returns (n: nat)
    ensures n == One(b0 != 0xff) + One(b1 != 0xff) + One(b2 != 0xff) + One(b3 != 0xff)
  {
    var v := Pack64(b0, b1, b2, b3, 0, 0, 0, 0);
    FullMasks(b0, b1, b2, b3);
    if v == 0xffff_ffff {
      return 0;
    }
    n := 0;
    if v & FF(0) != FF(0) { n := n + 1; }
    if v & FF(8) != FF(8) { n := n + 1; }
    if v & FF(16) != FF(16) { n := n + 1; }
    if v & FF(24) != FF(24) { n := n + 1; }
  }

  lemma CoveredStep(m: Map, n: nat)
    requires n < |m|
    ensures Covered(m[..n + 1]) == Covered(m[..n]) + One(m[n] != 0xff)
  {
    assert m[..n + 1][..n] == m[..n];
  }

  lemma CoveredHalfWord(m: Map, o: nat)
    requires o + 4 <= |m|
    ensures Covered(m[..o + 4]) == Covered(m[..o]) +
      One(m[o] != 0xff) + One(m[o + 1] != 0xff) + One(m[o + 2] != 0xff) + One(m[o + 3] != 0xff)
  {
    CoveredStep(m, o); CoveredStep(m, o + 1); CoveredStep(m, o + 2); CoveredStep(m, o + 3);
  }
}
