/** What mutate_strategy of blueman-main/mutator/mutator_full_stack2.c can turn a packet into. */
module StrategyReach {
  import opened LittleEndian
  import opened Packet
  import opened MutateOps
  import opened MutateBytes
  import opened HavocCases
  import opened FieldMutator
  import opened FieldFrames
  import opened FieldLimits
  import opened Reach

  /** The part of a script that turns the payload at `at` into `p`. */
  function PayloadScript(m: seq<bv8>, at: nat, p: seq<bv8>): seq<nat>
    requires at + |p| <= |m|
  {
    var edits := Edits(m, Over(m, at, p), at, |p|);
    [|edits|] + Script(edits)
  }

  lemma LLDataReaches(k: Machine, m: seq<bv8>, h: bv8, p: seq<bv8>)
    requires Domain(k.mem) && |m| == SIZE && 0 < |p| == PayloadLen(k.mem)
    requires forall i :: PKT <= i < SIZE ==> k.mem[i] == m[i]
    requires KeepsSequence(m[LL_HEADER], h) && Differing(m, LL_PAYLOAD, p) <= |p| / 2
    requires Drawn(k, 0) % 100 < 30 && Low(Drawn(k, 1)) == TwoOnTop(h) && Low(Drawn(k, 2)) == h
    requires Follows(k.draws, k.pos + 3, PayloadScript(m, LL_PAYLOAD, p))
    ensures var r := LLDataMutator(k); r.ret == 1 && r.k.mem == Over(k.mem[LL_HEADER := h], LL_PAYLOAD, p)
  {
    hide Field, Havoc, LLDataHeader, Over, Edits, Script, Follows;
    DataHeaderReaches(k, h);
    PayloadReaches(LLDataHeader(k), m, LL_PAYLOAD, p);
  }

  lemma LLAdvReaches(k: Machine, m: seq<bv8>, h: bv8, p: seq<bv8>)
    requires Domain(k.mem) && |m| == SIZE && 0 < |p| == PayloadLen(k.mem)
    requires forall i :: PKT <= i < SIZE ==> k.mem[i] == m[i]
    requires KeepsTop(m[LL_HEADER], h) && Differing(m, LL_PAYLOAD, p) <= |p| / 2
    requires Drawn(k, 0) % 100 < 10 && Low(Drawn(k, 1)) == FourOnTop(h)
    requires Follows(k.draws, k.pos + 2, PayloadScript(m, LL_PAYLOAD, p))
    ensures var r := LLAdvertisingMutator(k); r.ret == 1 && r.k.mem == Over(k.mem[LL_HEADER := h], LL_PAYLOAD, p)
  {
    hide Field, Havoc, LLAdvHeader, Over, Edits, Script, Follows;
    AdvHeaderReaches(k, h);
    PayloadReaches(LLAdvHeader(k), m, LL_PAYLOAD, p);
  }

  lemma ListedAt(i: nat)
    requires i < CID_MAPS_LEN
    ensures ListedCid(i) == CID_MAPS[i] < 0x1_0000
  {
  }

  lemma L2CAPHeaderReaches(k: Machine, i: nat)
    requires |k.mem| == SIZE && Drawn(k, 0) == 0 && Drawn(k, 1) == i < CID_MAPS_LEN && ListedCid(i) < 0x1_0000
    ensures var r := L2CAPHeader(k);
      && Word16(r.mem, CID) == ListedCid(i) && Framed(k.mem, r.mem, CID, CID + 2)
      && r.pos == k.pos + 2 && r.draws == k.draws
  {
    hide Word16, PokeWord, ListedCid;
    SmallRemainder(i, CID_MAPS_LEN);
    WordOfStore(k.Next().Next(), CID, ListedCid(i));
  }

  lemma L2CAPReaches(k: Machine, m: seq<bv8>, i: nat, p: seq<bv8>)
    requires Domain(k.mem) && |m| == SIZE && 0 < |p| == PayloadLen(k.mem) - 4 && i < 7
    requires forall j :: PKT <= j < SIZE ==> k.mem[j] == m[j]
    requires Differing(m, L2CAP_PAYLOAD, p) <= |p| / 2
    requires Drawn(k, 0) == 99 && Drawn(k, 1) == 0 && Drawn(k, 2) == i
    requires Follows(k.draws, k.pos + 3, PayloadScript(m, L2CAP_PAYLOAD, p))
    ensures var r := L2CAPMutator(k);
      && r.ret == 1 && Word16(r.k.mem, CID) == CID_MAPS[i]
      && r.k.mem[L2CAP_PAYLOAD..L2CAP_PAYLOAD + |p|] == p
  {
    hide Field, Havoc, L2CAPHeader, Edits, Script, Follows, UnLe;
    ListedAt(i);
    L2CAPHeaderReaches(k.Next(), i);
    var h := L2CAPHeader(k.Next());
    PayloadReaches(h, m, L2CAP_PAYLOAD, p);
    assert Over(h.mem, L2CAP_PAYLOAD, p)[CID..CID + 2] == h.mem[CID..CID + 2];
  }

  // ---------- The whole strategy ----------

  /** The length draw that picks the length of `p`. */
  lemma LengthFirst(m: seq<bv8>, draws: nat -> nat, len: nat)
    requires Domain(m) && draws(0) == 0 && draws(1) == len <= Field(m, MAX_PAYLOAD_LEN)
    ensures var a := LengthDraw(Machine(m, draws, 0));
      && Domain(a.mem) && PayloadLen(a.mem) == len && a.pos == 2 && a.draws == draws
      && (forall i :: PKT <= i < SIZE ==> a.mem[i] == m[i])
      && IsDataPacket(a.mem) == IsDataPacket(m) && UpperLayer(a.mem) == UpperLayer(m)
  {
    hide Field, LengthDraw, UpperLayer, IsDataPacket;
    var k := Machine(m, draws, 0);
    ChosenLength(m, draws, len);
    LengthDrawn(k);
    LengthDrawRoutes(k);
  }

  /** What the strategy has got to before it writes the header and the mark. */
  function Middle(k: Machine): (r: Ran)
    requires Domain(k.mem)
    ensures |r.k.mem| == SIZE
  {
    var a := LengthDraw(k);
    LengthDrawn(k);
    if IsDataPacket(a.mem) then LayerMutator(a) else LLAdvertisingMutator(a)
  }

  /** The packet bytes stay as they are then, all but header byte 1. */
  lemma MiddleStays(k: Machine, i: nat)
    requires Domain(k.mem) && PKT <= i < SIZE && i != LL_HEADER + 1
    ensures MutateStrategy(k).k.mem[i] == Middle(k).k.mem[i]
  {
    hide Field, LengthDraw, IsDataPacket, LLAdvertisingMutator, LayerMutator, Finish;
    FinishKeepsByte(Middle(k).k.mem, Middle(k).ret, Field(LengthDraw(k).mem, LEN), i);
  }

  lemma SameReturn(k: Machine)
    requires Domain(k.mem)
    ensures MutateStrategy(k).ret == Middle(k).ret
  {
    hide Field, LengthDraw, IsDataPacket, LLAdvertisingMutator, LayerMutator, Finish;
  }

  lemma Result(k: Machine, at: nat, len: nat)
    requires Domain(k.mem) && !RunsUpper(k) && Middle(k).ret == 1 && LL_PAYLOAD <= at && at + len <= SIZE
    ensures var r, m := MutateStrategy(k).k.mem, Middle(k).k.mem;
      && r[LL_HEADER] == m[LL_HEADER] && r[at..at + len] == m[at..at + len] && Word16(r, CID) == Word16(m, CID)
      && Field(r, LEN) == Field(LengthDraw(k).mem, LEN) && Field(r, MUTATED) == 1
  {
    hide MutateStrategy, Middle, Field, LengthDraw, RunsUpper, UnLe;
    StrategyFrame(k);
    StrategyMarks(k);
    SameReturn(k);
    var r, m := MutateStrategy(k).k.mem, Middle(k).k.mem;
    forall i | PKT <= i < SIZE && i != LL_HEADER + 1 ensures r[i] == m[i] {
      MiddleStays(k, i);
    }
    SameSlice(r, m, at, at + len);
    SameSlice(r, m, CID, CID + 2);
  }

  lemma DataMiddle(k: Machine, m: seq<bv8>, h: bv8, p: seq<bv8>)
    requires Domain(m) && k == Machine(m, k.draws, 0) && IsDataPacket(m) && 0 < |p| <= Field(m, MAX_PAYLOAD_LEN)
    requires KeepsSequence(m[LL_HEADER], h) && Differing(m, LL_PAYLOAD, p) <= |p| / 2
    requires k.draws(0) == 0 && k.draws(1) == |p| && k.draws(2) == 0
    requires k.draws(3) == 0 && Low(k.draws(4)) == TwoOnTop(h) && Low(k.draws(5)) == h
    requires Follows(k.draws, 6, PayloadScript(m, LL_PAYLOAD, p))
    ensures var r := Middle(k);
      && r.ret == 1 && r.k.mem[LL_HEADER] == h && r.k.mem[LL_PAYLOAD..LL_PAYLOAD + |p|] == p
      && !RunsUpper(k) && Field(LengthDraw(k).mem, LEN) == |p| + 5
  {
    hide Field, LengthDraw, UpperLayer, IsDataPacket, LLDataMutator, Differing, PayloadScript, Follows;
    LengthFirst(m, k.draws, |p|);
    var a := LengthDraw(k);
    LLDataReaches(a.Next(), m, h, p);
  }

  lemma AdvMiddle(k: Machine, m: seq<bv8>, h: bv8, p: seq<bv8>)
    requires Domain(m) && k == Machine(m, k.draws, 0) && !IsDataPacket(m) && 0 < |p| <= Field(m, MAX_PAYLOAD_LEN)
    requires KeepsTop(m[LL_HEADER], h) && Differing(m, LL_PAYLOAD, p) <= |p| / 2
    requires k.draws(0) == 0 && k.draws(1) == |p| && k.draws(2) == 0 && Low(k.draws(3)) == FourOnTop(h)
    requires Follows(k.draws, 4, PayloadScript(m, LL_PAYLOAD, p))
    ensures var r := Middle(k);
      && r.ret == 1 && r.k.mem[LL_HEADER] == h && r.k.mem[LL_PAYLOAD..LL_PAYLOAD + |p|] == p
      && !RunsUpper(k) && Field(LengthDraw(k).mem, LEN) == |p| + 5
  {
    hide Field, LengthDraw, UpperLayer, IsDataPacket, LLAdvertisingMutator, Differing, PayloadScript, Follows;
    LengthFirst(m, k.draws, |p|);
    LLAdvReaches(LengthDraw(k), m, h, p);
  }

  lemma ChannelMiddle(k: Machine, m: seq<bv8>, i: nat, p: seq<bv8>)
    requires Domain(m) && k == Machine(m, k.draws, 0) && IsDataPacket(m) && UpperLayer(m) != LL && i < 7
    requires 0 < |p| && |p| + 4 <= Field(m, MAX_PAYLOAD_LEN) && Differing(m, L2CAP_PAYLOAD, p) <= |p| / 2
    requires k.draws(0) == 0 && k.draws(1) == |p| + 4 && k.draws(2) == 25
    requires k.draws(3) == 99 && k.draws(4) == 0 && k.draws(5) == i
    requires Follows(k.draws, 6, PayloadScript(m, L2CAP_PAYLOAD, p))
    ensures var r := Middle(k);
      && r.ret == 1 && Word16(r.k.mem, CID) == CID_MAPS[i] && r.k.mem[L2CAP_PAYLOAD..L2CAP_PAYLOAD + |p|] == p
      && !RunsUpper(k) && Field(LengthDraw(k).mem, LEN) == |p| + 9
  {
    hide Field, LengthDraw, UpperLayer, IsDataPacket, LLDataMutator, L2CAPMutator, Differing, PayloadScript, Follows;
    hide UnLe;
    LengthFirst(m, k.draws, |p| + 4);
    L2CAPReaches(LengthDraw(k).Next(), m, i, p);
  }

  /** Draws that begin with six numbers and follow a script from there on. */
  function SixAnd(a: nat, b: nat, c: nat, d: nat, e: nat, f: nat, rest: seq<nat>): nat -> nat {
    Playing([a, b, c, d, e, f] + rest)
  }

  lemma SixDraws(a: nat, b: nat, c: nat, d: nat, e: nat, f: nat, rest: seq<nat>)
    ensures var draws := SixAnd(a, b, c, d, e, f, rest);
      && draws(0) == a && draws(1) == b && draws(2) == c
      && draws(3) == d && draws(4) == e && draws(5) == f && Follows(draws, 6, rest)
  {
    Plays([a, b, c, d, e, f], rest, SixAnd(a, b, c, d, e, f, rest));
  }

  /** And with four. */
  function FourAnd(a: nat, b: nat, c: nat, d: nat, rest: seq<nat>): nat -> nat {
    Playing([a, b, c, d] + rest)
  }

  lemma FourDraws(a: nat, b: nat, c: nat, d: nat, rest: seq<nat>)
    ensures var draws := FourAnd(a, b, c, d, rest);
      && draws(0) == a && draws(1) == b && draws(2) == c && draws(3) == d && Follows(draws, 4, rest)
  {
    Plays([a, b, c, d], rest, FourAnd(a, b, c, d, rest));
  }

  lemma DataRun(m: seq<bv8>, h: bv8, p: seq<bv8>, up: nat, low: nat, draws: nat -> nat)
    requires Domain(m) && IsDataPacket(m) && 0 < |p| <= Field(m, MAX_PAYLOAD_LEN)
    requires KeepsSequence(m[LL_HEADER], h) && Differing(m, LL_PAYLOAD, p) <= |p| / 2
    requires Low(up) == TwoOnTop(h) && Low(low) == h
    requires draws == SixAnd(0, |p|, 0, 0, up, low, PayloadScript(m, LL_PAYLOAD, p))
    ensures var r := MutateStrategy(Machine(m, draws, 0)).k.mem;
      && r[LL_HEADER] == h && r[LL_PAYLOAD..LL_PAYLOAD + |p|] == p
      && Field(r, LEN) == |p| + 5 && Field(r, MUTATED) == 1
  {
    var rest := PayloadScript(m, LL_PAYLOAD, p);
    assert LL_PAYLOAD + |p| <= SIZE;
    hide *;
    SixDraws(0, |p|, 0, 0, up, low, rest);
    DataMiddle(Machine(m, draws, 0), m, h, p);
    Result(Machine(m, draws, 0), LL_PAYLOAD, |p|);
  }

  /** A data packet can become one with any header that keeps the two sequence bits, any
      length its maximum allows, and any payload of that length that differs in at most half
      of its bytes; it is marked. */
  lemma DataReaches(m: seq<bv8>, h: bv8, p: seq<bv8>) returns (draws: nat -> nat)
    requires Domain(m) && IsDataPacket(m) && 0 < |p| <= Field(m, MAX_PAYLOAD_LEN)
    requires h & 0x0c == m[LL_HEADER] & 0x0c && Differing(m, LL_PAYLOAD, p) <= |p| / 2
    ensures var r := MutateStrategy(Machine(m, draws, 0)).k.mem;
      && r[LL_HEADER] == h && r[LL_PAYLOAD..LL_PAYLOAD + |p|] == p
      && Field(r, LEN) == |p| + 5 && Field(r, MUTATED) == 1
  {
    assert KeepsSequence(m[LL_HEADER], h);
    var rest := PayloadScript(m, LL_PAYLOAD, p);
    hide *;
    var up, low := LowOf(TwoOnTop(h)), LowOf(h);
    draws := SixAnd(0, |p|, 0, 0, up, low, rest);
    DataRun(m, h, p, up, low, draws);
  }

  lemma AdvRun(m: seq<bv8>, h: bv8, p: seq<bv8>, low: nat, draws: nat -> nat)
    requires Domain(m) && !IsDataPacket(m) && 0 < |p| <= Field(m, MAX_PAYLOAD_LEN)
    requires KeepsTop(m[LL_HEADER], h) && Differing(m, LL_PAYLOAD, p) <= |p| / 2
    requires Low(low) == FourOnTop(h) && draws == FourAnd(0, |p|, 0, low, PayloadScript(m, LL_PAYLOAD, p))
    ensures var r := MutateStrategy(Machine(m, draws, 0)).k.mem;
      && r[LL_HEADER] == h && r[LL_PAYLOAD..LL_PAYLOAD + |p|] == p
      && Field(r, LEN) == |p| + 5 && Field(r, MUTATED) == 1
  {
    var rest := PayloadScript(m, LL_PAYLOAD, p);
    assert LL_PAYLOAD + |p| <= SIZE;
    hide *;
    FourDraws(0, |p|, 0, low, rest);
    AdvMiddle(Machine(m, draws, 0), m, h, p);
    Result(Machine(m, draws, 0), LL_PAYLOAD, |p|);
  }

  /** An advertising packet can become one with any header that keeps its top four bits, and
      length and payload as before. */
  lemma AdvReaches(m: seq<bv8>, h: bv8, p: seq<bv8>) returns (draws: nat -> nat)
    requires Domain(m) && !IsDataPacket(m) && 0 < |p| <= Field(m, MAX_PAYLOAD_LEN)
    requires h & 0xf0 == m[LL_HEADER] & 0xf0 && Differing(m, LL_PAYLOAD, p) <= |p| / 2
    ensures var r := MutateStrategy(Machine(m, draws, 0)).k.mem;
      && r[LL_HEADER] == h && r[LL_PAYLOAD..LL_PAYLOAD + |p|] == p
      && Field(r, LEN) == |p| + 5 && Field(r, MUTATED) == 1
  {
    assert KeepsTop(m[LL_HEADER], h);
    var rest := PayloadScript(m, LL_PAYLOAD, p);
    hide *;
    var low := LowOf(FourOnTop(h));
    draws := FourAnd(0, |p|, 0, low, rest);
    AdvRun(m, h, p, low, draws);
  }

  /** A data packet that has a layer above the link layer can become one with any listed
      channel, any length, and any L2CAP payload that differs in at most half of its bytes. */
  lemma ChannelReaches(m: seq<bv8>, cid: nat, p: seq<bv8>) returns (draws: nat -> nat)
    requires Domain(m) && IsDataPacket(m) && UpperLayer(m) != LL
    requires 0 < |p| && |p| + 4 <= Field(m, MAX_PAYLOAD_LEN) && Differing(m, L2CAP_PAYLOAD, p) <= |p| / 2
    requires cid in {0x4, 0x5, 0x6, 0x25, 0x27, 0x40, 0x41}
    ensures var r := MutateStrategy(Machine(m, draws, 0)).k.mem;
      && Word16(r, CID) == cid && r[L2CAP_PAYLOAD..L2CAP_PAYLOAD + |p|] == p
      && Field(r, LEN) == |p| + 9 && Field(r, MUTATED) == 1
  {
    var i := Listed(cid);
    var rest := PayloadScript(m, L2CAP_PAYLOAD, p);
    draws := SixAnd(0, |p| + 4, 25, 99, 0, i, rest);
    hide *;
    SixDraws(0, |p| + 4, 25, 99, 0, i, rest);
    ChannelMiddle(Machine(m, draws, 0), m, i, p);
    Result(Machine(m, draws, 0), L2CAP_PAYLOAD, |p|);
  }

  lemma Listed(cid: nat) returns (i: nat)
    requires cid in {0x4, 0x5, 0x6, 0x25, 0x27, 0x40, 0x41}
    ensures i < 7 && CID_MAPS[i] == cid
  {
    i := if cid == 0x4 then 0 else if cid == 0x5 then 1 else if cid == 0x6 then 2 else if cid == 0x25 then 3
      else if cid == 0x27 then 4 else if cid == 0x40 then 5 else 6;
  }

  /** In particular every payload byte of a packet with a payload of two bytes or more can
      become any byte, all others and the length as they were. */
  lemma AnyByte(m: seq<bv8>, i: nat, b: bv8) returns (draws: nat -> nat)
    requires Domain(m) && 2 <= PayloadLen(m) && i < PayloadLen(m)
    ensures var r := MutateStrategy(Machine(m, draws, 0)).k.mem;
      && r[LL_PAYLOAD..LL_PAYLOAD + PayloadLen(m)] == m[LL_PAYLOAD..LL_PAYLOAD + PayloadLen(m)][i := b]
      && r[LL_HEADER] == m[LL_HEADER] && Field(r, LEN) == Field(m, LEN)
  {
    hide Field, IsDataPacket, MutateStrategy;
    var p := m[LL_PAYLOAD..LL_PAYLOAD + PayloadLen(m)][i := b];
    OneDiffers(m, LL_PAYLOAD, p, i);
    if IsDataPacket(m) {
      draws := DataReaches(m, m[LL_HEADER], p);
    } else {
      draws := AdvReaches(m, m[LL_HEADER], p);
    }
  }

  /** And every byte of an L2CAP payload of two bytes or more. */
  lemma AnyChannelByte(m: seq<bv8>, i: nat, b: bv8) returns (draws: nat -> nat)
    requires Domain(m) && IsDataPacket(m) && UpperLayer(m) != LL && 6 <= PayloadLen(m) && i < PayloadLen(m) - 4
    ensures var r, n := MutateStrategy(Machine(m, draws, 0)).k.mem, PayloadLen(m) - 4;
      && r[L2CAP_PAYLOAD..L2CAP_PAYLOAD + n] == m[L2CAP_PAYLOAD..L2CAP_PAYLOAD + n][i := b]
      && Field(r, LEN) == Field(m, LEN)
  {
    hide Field, IsDataPacket, UpperLayer, MutateStrategy;
    var n := PayloadLen(m) - 4;
    var p := m[L2CAP_PAYLOAD..L2CAP_PAYLOAD + n][i := b];
    OneDiffers(m, L2CAP_PAYLOAD, p, i);
    draws := ChannelReaches(m, 0x4, p);
  }
}
