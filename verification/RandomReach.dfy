/** What the random mutator of blueman-main/mutator/mutator_random.c can turn a packet into. */
module RandomReach {
  import opened ByteNumbers
  import opened Packet
  import opened MutateOps
  import opened MutateBytes
  import opened HavocCases
  import opened FieldMutator
  import opened FieldLimits
  import opened RandomMutator
  import opened Reach

  /** One random byte for every edit. */
  function Pairs(edits: seq<Edit>): seq<nat> {
    if edits == [] then [] else [edits[0].at, edits[0].to as nat] + Pairs(edits[1..])
  }

  lemma ByteApplies(k: Machine, base: nat, len: nat, e: Edit)
    requires base + len <= |k.mem| && e.at < len <= 256
    requires Drawn(k, 0) % len == e.at && Drawn(k, 1) == e.to as nat
    ensures var r := RandomByte(k, base, len);
      r.mem == k.mem[base + e.at := e.to] && r.pos == k.pos + 2 && r.draws == k.draws
  {
    RandomByteMeaning(k, base, len);
    CastBack(e.to);
    hide RandomByte, ByteOf;
    SameByte(RandomByte(k, base, len).mem[base + e.at], e.to);
  }

  lemma FirstTwo(draws: nat -> nat, pos: nat, a: nat, b: nat)
    requires Follows(draws, pos, [a, b])
    ensures draws(pos) == a && draws(pos + 1) == b
  {
    assert [a, b][0] == a && [a, b][1] == b;
    assert draws(pos + 0) == a;
  }

  lemma {:induction false} BytesApply(k: Machine, base: nat, len: nat, edits: seq<Edit>)
    requires base + len <= |k.mem| && 0 < len <= 256 && Inside(edits, len)
    requires Follows(k.draws, k.pos, Pairs(edits))
    ensures RandomBytes(k, base, len, |edits|).mem == Applied(k.mem, base, len, edits)
    decreases |edits|
  {
    hide RandomByte, Follows;
    if edits != [] {
      var e := edits[0];
      FollowsOn(k.draws, k.pos, [e.at, e.to as nat], Pairs(edits[1..]));
      FirstTwo(k.draws, k.pos, e.at, e.to as nat);
      SmallRemainder(e.at, len);
      ByteApplies(k, base, len, e);
      BytesApply(RandomByte(k, base, len), base, len, edits[1..]);
    }
  }

  /** The edits of a run, of which there is at least one. */
  function SomeEdits(m: seq<bv8>, at: nat, p: seq<bv8>): (edits: seq<Edit>)
    requires at + |p| <= |m| && p != []
    ensures edits != [] && Inside(edits, |p|)
  {
    var edits := Edits(m, Over(m, at, p), at, |p|);
    if edits == [] then [Edit(0, p[0])] else edits
  }

  lemma SomeEditsApply(m: seq<bv8>, at: nat, p: seq<bv8>)
    requires at + |p| <= |m| && p != []
    ensures Applied(m, at, |p|, SomeEdits(m, at, p)) == Over(m, at, p)
  {
    var t := Over(m, at, p);
    Patched(m, t, at, |p|);
    if Edits(m, t, at, |p|) == [] {
      assert t == m && t[at..at + |p|][0] == t[at];
      AppliedOne(m, at, |p|, Edit(0, p[0]));
    }
  }

  lemma AppliedOne(m: seq<bv8>, base: nat, len: nat, e: Edit)
    requires base + len <= |m| && e.at < len
    ensures Applied(m, base, len, [e]) == m[base + e.at := e.to]
  {
  }

  lemma DrawnCount(t: nat, len: nat)
    requires 0 < t <= (len + 2) / 3
    ensures (3 * (t - 1) % len + 3) / 3 == t
  {
    SmallRemainder(3 * (t - 1), len);
  }

  function ScatterScript(h: bv8, edits: seq<Edit>): seq<nat>
    requires edits != []
  {
    [0, h as nat, 3 * (|edits| - 1)] + Pairs(edits)
  }

  lemma HeaderDrawn(k: Machine, len: nat, h: bv8, t: nat)
    requires |k.mem| == SIZE && 1 <= len && 1 <= t <= (len + 2) / 3
    requires k.draws(k.pos) == 0 && k.draws(k.pos + 1) == h as nat && k.draws(k.pos + 2) == 3 * (t - 1)
    ensures var a := RandomByte(k, LL_HEADER, 1);
      a == Machine(k.mem[LL_HEADER := h], k.draws, k.pos + 2) && (a.Draw() % len + 3) / 3 == t
  {
    DrawnCount(t, len);
    hide RandomByte;
    ByteApplies(k, LL_HEADER, 1, Edit(0, h));
  }

  lemma ScatterIs(k: Machine, len: nat, t: nat, s: seq<bv8>)
    requires |k.mem| == SIZE && 1 <= len <= PKT_MAX - 5 && |s| == SIZE
    requires var a := RandomByte(k, LL_HEADER, 1);
      t == (a.Draw() % len + 3) / 3 && s == RandomBytes(a.Next(), LL_PAYLOAD, len, t).mem
    ensures Scatter(k, len).mem == SetField(s[LL_HEADER + 1 := Low(len)], LEN, len + 5)
  {
    hide RandomByte, RandomBytes, SetField, Low;
  }

  /** The header byte, the edits, and the two stores of the length. */
  lemma ScatterApplies(k: Machine, len: nat, h: bv8, edits: seq<Edit>)
    requires |k.mem| == SIZE && 1 <= len <= PKT_MAX - 5
    requires Inside(edits, len) && 1 <= |edits| <= (len + 2) / 3
    requires Follows(k.draws, k.pos, ScatterScript(h, edits))
    ensures var s := Applied(k.mem[LL_HEADER := h], LL_PAYLOAD, len, edits);
      Scatter(k, len).mem == SetField(s[LL_HEADER + 1 := Low(len)], LEN, len + 5)
  {
    var t := |edits|;
    FollowsOn(k.draws, k.pos, [0, h as nat, 3 * (t - 1)], Pairs(edits));
    FirstThree(k.draws, k.pos, 0, h as nat, 3 * (t - 1));
    var m := k.mem[LL_HEADER := h];
    var a := Machine(m, k.draws, k.pos + 2);
    assert a.Next() == Machine(m, k.draws, k.pos + 3);
    hide *;
    HeaderDrawn(k, len, h, t);
    BytesApply(a.Next(), LL_PAYLOAD, len, edits);
    ScatterIs(k, len, t, Applied(m, LL_PAYLOAD, len, edits));
  }

  /** Edits of the payload and the header do not meet. */
  lemma {:induction false} HeaderAside(m: seq<bv8>, h: bv8, len: nat, edits: seq<Edit>)
    requires |m| == SIZE && LL_PAYLOAD + len <= SIZE && Inside(edits, len)
    ensures Applied(m[LL_HEADER := h], LL_PAYLOAD, len, edits) == Applied(m, LL_PAYLOAD, len, edits)[LL_HEADER := h]
    decreases |edits|
  {
    if edits != [] {
      var e := edits[0];
      HeaderAside(m[LL_PAYLOAD + e.at := e.to], h, len, edits[1..]);
      SwapStores(m, LL_HEADER, h, LL_PAYLOAD + e.at, e.to);
    }
  }

  lemma SwapStores<T>(m: seq<T>, i: nat, a: T, j: nat, b: T)
    requires i < |m| && j < |m| && i != j
    ensures m[i := a][j := b] == m[j := b][i := a]
  {
  }

  /** The stores at the end change neither the header byte nor the payload. */
  lemma StoresAside(o: seq<bv8>, h: bv8, len: nat)
    requires |o| == SIZE && 1 <= len <= PKT_MAX - 5
    ensures var r := SetField(o[LL_HEADER := h][LL_HEADER + 1 := Low(len)], LEN, len + 5);
      |r| == SIZE && r[LL_HEADER] == h && r[LL_PAYLOAD..LL_PAYLOAD + len] == o[LL_PAYLOAD..LL_PAYLOAD + len]
  {
    hide SetField, Low;
    var b := Low(len);
    var r := SetField(o[LL_HEADER := h][LL_HEADER + 1 := b], LEN, len + 5);
    SameSlice(r, o, LL_PAYLOAD, LL_PAYLOAD + len);
  }

  lemma ScatterReaches(k: Machine, h: bv8, p: seq<bv8>)
    requires |k.mem| == SIZE && 1 <= |p| <= PKT_MAX - 5
    requires var edits := SomeEdits(k.mem, LL_PAYLOAD, p);
      |edits| <= (|p| + 2) / 3 && Follows(k.draws, k.pos, ScatterScript(h, edits))
    ensures var r := Scatter(k, |p|).mem; r[LL_HEADER] == h && r[LL_PAYLOAD..LL_PAYLOAD + |p|] == p
  {
    hide Follows, SomeEdits, Scatter, SetField, Low, Over, ScatterScript, Inside, Applied;
    var edits := SomeEdits(k.mem, LL_PAYLOAD, p);
    ScatterApplies(k, |p|, h, edits);
    HeaderAside(k.mem, h, |p|, edits);
    SomeEditsApply(k.mem, LL_PAYLOAD, p);
    StoresAside(Over(k.mem, LL_PAYLOAD, p), h, |p|);
  }

  /** The draws that lead to a header byte and a payload. */
  function RandomHead(m: seq<bv8>, len: nat): seq<nat>
    requires Domain(m) && len > 0
  {
    if IsDataPacket(m) then [0, len - 1] else [0, 50, len - 1]
  }

  lemma LengthChosen(m: seq<bv8>, draws: nat -> nat, len: nat)
    requires Domain(m) && PayloadLen(m) > 0 && 0 < len <= Field(m, MAX_PAYLOAD_LEN)
    requires forall j :: 0 <= j < |RandomHead(m, len)| ==> draws(j) == RandomHead(m, len)[j]
    ensures draws(0) == 0
    ensures var (a, n) := NewLength(Machine(m, draws, 1), IsDataPacket(m));
      n == len && a == Machine(m, draws, |RandomHead(m, len)|)
  {
    hide Field, IsDataPacket;
    var head := RandomHead(m, len);
    SmallRemainder(len - 1, Field(m, MAX_PAYLOAD_LEN));
    assert draws(0) == head[0] && draws(1) == head[1];
    if !IsDataPacket(m) { assert draws(2) == head[2]; }
  }

  lemma Marked(m: seq<bv8>, n: nat)
    requires |m| == SIZE && LL_PAYLOAD + n <= SIZE
    ensures var r := SetField(m, MUTATED, 1);
      |r| == SIZE && r[LL_HEADER] == m[LL_HEADER] && r[LL_PAYLOAD..LL_PAYLOAD + n] == m[LL_PAYLOAD..LL_PAYLOAD + n]
  {
    hide SetField;
    SameSlice(SetField(m, MUTATED, 1), m, LL_PAYLOAD, LL_PAYLOAD + n);
  }

  /** A run that gets to the stores, from the machine `a` with the new length. */
  lemma RandomResult(k: Machine, a: Machine, len: nat)
    requires Domain(k.mem) && PayloadLen(k.mem) > 0 && k.Draw() == 0
    requires (a, len) == NewLength(k.Next(), IsDataPacket(k.mem))
    ensures RandomStrategy(k).ret == len
    ensures RandomStrategy(k).k.mem == SetField(Scatter(a, len).mem, MUTATED, 1)
  {
    hide Field, IsDataPacket, Scatter, SetField, NewLength;
  }

  /** A packet with a payload can become one with any first header byte, any length its
      maximum allows, and any payload of that length that differs in at most a third of its
      bytes, rounded up; it is marked. */
  lemma RandomReaches(m: seq<bv8>, h: bv8, p: seq<bv8>) returns (draws: nat -> nat)
    requires Domain(m) && PayloadLen(m) > 0 && 0 < |p| <= Field(m, MAX_PAYLOAD_LEN)
    requires Differing(m, LL_PAYLOAD, p) <= (|p| + 2) / 3
    ensures var r := RandomStrategy(Machine(m, draws, 0)).k.mem;
      && r[LL_HEADER] == h && r[LL_PAYLOAD..LL_PAYLOAD + |p|] == p
      && Field(r, LEN) == |p| + 5 && Field(r, MUTATED) == 1
  {
    var edits := SomeEdits(m, LL_PAYLOAD, p);
    var head := RandomHead(m, |p|);
    draws := Playing(head + ScatterScript(h, edits));
    Plays(head, ScatterScript(h, edits), draws);
    FewEdits(m, p);
    var k, a := Machine(m, draws, 0), Machine(m, draws, |head|);
    assert k.Next() == Machine(m, draws, 1);
    LengthChosen(m, draws, |p|);
    assert k.Draw() == 0;
    assert PayloadLen(m) > 0;
    hide *;
    RandomResult(k, a, |p|);
    ScatterReaches(a, h, p);
    Marked(Scatter(a, |p|).mem, |p|);
    RandomStrategyFrame(k);
  }

  lemma FewEdits(m: seq<bv8>, p: seq<bv8>)
    requires |m| == SIZE && 0 < |p| <= PKT_MAX - 5 && Differing(m, LL_PAYLOAD, p) <= (|p| + 2) / 3
    ensures |SomeEdits(m, LL_PAYLOAD, p)| <= (|p| + 2) / 3
  {
    hide Edits, Over;
  }
}
