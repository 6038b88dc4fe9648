/** Where the field-aware mutator does not do what its structure suggests, and exactly when. */
module FieldLimits {
  import opened ByteNumbers
  import opened LittleEndian
  import opened Packet
  import opened MutateOps
  import opened FieldMutator
  import opened FieldFrames

  ghost predicate KeepsMetadata(m: seq<bv8>)
    requires Domain(m)
  {
    forall draws: nat -> nat :: SameMetadata(m, MutateStrategy(Machine(m, draws, 0)).k.mem)
  }

  /** Draws that take the longest length, reach the upper-layer mutator, replace the byte it
      takes for the opcode by another value, and then run no havoc round. */
  function Overwriting(m: seq<bv8>): nat -> nat
    requires Domain(m)
  {
    var other := if m[UPPER_OPCODE] == 1 then 2 else 1;
    var att := UpperLayer(m) == ATT;
    var max := Field(m, MAX_PAYLOAD_LEN);
    (i: nat) => if i == 1 then max else if i == 2 then 50 else if i == 3 then (if att then 30 else 0)
      else if i == 4 then (if att then other - 1 else other) else 0
  }

  lemma FieldInjective(m: seq<bv8>, m': seq<bv8>, o: nat)
    requires o + 4 <= |m| == |m'| && Field(m', o) == Field(m, o)
    ensures forall i :: o <= i < o + 4 ==> m'[i] == m[i]
  {
    hide UnLe, Le;
    LoadStore(m[o..o + 4]);
    LoadStore(m'[o..o + 4]);
    assert m'[o..o + 4] == m[o..o + 4];
    forall i | o <= i < o + 4 ensures m'[i] == m[i] {
      assert m'[i] == m'[o..o + 4][i - o] && m[i] == m[o..o + 4][i - o];
    }
  }

  lemma NoRounds(k: Machine, base: nat, len: nat)
    requires base + len <= |k.mem| && k.Draw() == 0
    ensures Havoc(k, base, len, PKT_MAX).mem == k.mem
  {
  }

  /** With these draws either upper-layer mutator leaves `v` in the third byte of `device_id`. */
  lemma ATTOverwrites(k: Machine, v: nat)
    requires Domain(k.mem) && PayloadLen(k.mem) > 5 && v in {1, 2}
    requires k.draws(k.pos) == 30 && k.draws(k.pos + 1) == v - 1 && k.draws(k.pos + 2) == 0
    ensures ATTMutator(k).k.mem[UPPER_OPCODE] == ByteOf(v)
  {
    ATTOpcodeSet(k, v);
    NoRounds(ATTOpcode(k), UPPER_PARAMS, PayloadLen(k.mem) - 5);
    hide Field, UnLe, Havoc, ATTOpcode;
  }

  lemma SmallBytes()
    ensures ByteOf(1) == 1 && ByteOf(2) == 2
  {
    assert ByteOf(0) == 0;
  }

  lemma FirstOpcodes()
    ensures ListedOpcode(0) == ByteOf(1) && ListedOpcode(1) == ByteOf(2)
  {
  }

  lemma ATTOpcodeSet(k: Machine, v: nat)
    requires |k.mem| == SIZE && v in {1, 2} && k.draws(k.pos) == 30 && k.draws(k.pos + 1) == v - 1
    ensures var r := ATTOpcode(k); r.mem[UPPER_OPCODE] == ByteOf(v) && r.draws == k.draws && r.pos == k.pos + 2
  {
    FirstOpcodes();
    hide ListedOpcode;
    assert (v - 1) % ATT_OP_MAPS_LEN == v - 1;
  }

  lemma SMOverwrites(k: Machine, v: nat)
    requires Domain(k.mem) && PayloadLen(k.mem) > 5 && v in {1, 2}
    requires k.draws(k.pos) == 0 && k.draws(k.pos + 1) == v && k.draws(k.pos + 2) == 0
    ensures SMMutator(k).k.mem[UPPER_OPCODE] == ByteOf(v)
  {
    NoRounds(SMCode(k), UPPER_PARAMS, PayloadLen(k.mem) - 5);
    hide Field, UnLe, Havoc;
  }

  lemma UpperOverwrites(k: Machine, v: nat)
    requires Domain(k.mem) && PayloadLen(k.mem) > 5 && v in {1, 2} && UpperLayer(k.mem) in {ATT, SM}
    requires k.draws(k.pos) == 50 && k.draws(k.pos + 3) == 0
    requires k.draws(k.pos + 1) == (if UpperLayer(k.mem) == ATT then 30 else 0)
    requires k.draws(k.pos + 2) == (if UpperLayer(k.mem) == ATT then v - 1 else v)
    ensures LayerMutator(k).k.mem[UPPER_OPCODE] == ByteOf(v)
  {
    hide Field, UnLe, UpperLayer, ATTMutator, SMMutator, LLDataMutator, L2CAPMutator;
    if UpperLayer(k.mem) == ATT { ATTOverwrites(k.Next(), v); } else { SMOverwrites(k.Next(), v); }
  }

  lemma FinishKeepsByte(m: seq<bv8>, ret: nat, oldLen: nat, i: nat)
    requires |m| == SIZE && i < SIZE && i != LL_HEADER + 1 && !(MUTATED <= i < MUTATED + 4)
    ensures Finish(m, ret, oldLen)[i] == m[i]
  {
    hide UnLe, Le, Field;
  }

  lemma SmallRemainder(a: nat, b: nat)
    requires a < b
    ensures a % b == a
  {
  }

  /** Draws can pick any length up to the maximum. */
  lemma ChosenLength(m: seq<bv8>, draws: nat -> nat, len: nat)
    requires Domain(m) && draws(0) == 0 && draws(1) == len <= Field(m, MAX_PAYLOAD_LEN)
    ensures var a := LengthDraw(Machine(m, draws, 0));
      Domain(a.mem) && Field(a.mem, LEN) == len + 5 && a.pos == 2 && a.draws == draws
      && a.mem[UPPER_OPCODE] == m[UPPER_OPCODE]
  {
    hide UnLe, Le, Field;
    LengthDrawn(Machine(m, draws, 0));
    SmallRemainder(len, Field(m, MAX_PAYLOAD_LEN) + 1);
    FieldOfStore(m, LEN, len + 5);
    hide SetField;
  }

  lemma MisroutedOverwrites(m: seq<bv8>)
    requires Domain(m) && Misrouted(m)
    ensures !SameMetadata(m, MutateStrategy(Machine(m, Overwriting(m), 0)).k.mem)
  {
    hide UnLe, Le, UpperLayer, LayerMutator, Finish, Field, LengthDraw, IsDataPacket;
    var k := Machine(m, Overwriting(m), 0);
    var v := if m[UPPER_OPCODE] == 1 then 2 else 1;
    var a := LengthDraw(k);
    LengthDrawRoutes(k);
    ChosenLength(m, Overwriting(m), Field(m, MAX_PAYLOAD_LEN));
    assert a.draws(2) == 50 && a.draws(5) == 0;
    UpperOverwrites(a, v);
    SmallBytes();
    var r := LayerMutator(a);
    FinishKeepsByte(r.k.mem, r.ret, Field(a.mem, LEN), UPPER_OPCODE);
    if Field(MutateStrategy(k).k.mem, DEVICE_ID) == Field(m, DEVICE_ID) {
      FieldInjective(m, MutateStrategy(k).k.mem, DEVICE_ID);
    }
  }

  /** The mutator leaves the sequence number, the device, the address and the maximum alone
      for every sequence of draws if and only if the packet cannot be misrouted. */
  lemma MetadataKeptIffNotMisrouted(m: seq<bv8>)
    requires Domain(m)
    ensures KeepsMetadata(m) <==> !Misrouted(m)
  {
    if Misrouted(m) {
      MisroutedOverwrites(m);
    } else {
      forall draws: nat -> nat ensures SameMetadata(m, MutateStrategy(Machine(m, draws, 0)).k.mem) {
        if RunsUpper(Machine(m, draws, 0)) { OnlyMisroutedRunUpper(Machine(m, draws, 0)); }
        StrategyFrame(Machine(m, draws, 0));
      }
    }
  }

  // ---------- The length ----------

  /** The final length is the drawn one, for all draws. */
  ghost predicate KeepsLength(m: seq<bv8>)
    requires Domain(m)
  {
    forall draws: nat -> nat :: var k := Machine(m, draws, 0);
      Field(MutateStrategy(k).k.mem, LEN) == Field(LengthDraw(k).mem, LEN)
  }

  /** A misroutable packet with room for so much that the write reaches the length. */
  predicate LengthOpen(m: seq<bv8>)
    requires |m| == SIZE
  {
    IsDataPacket(m) && UpperLayer(m) in {ATT, SM} && Field(m, MAX_PAYLOAD_LEN) >= 15
  }

  lemma UpperFrame(k: Machine)
    requires Domain(k.mem) && UpperLayer(k.mem) in {ATT, SM} && 50 <= k.Draw() % 100 < 75
    ensures Framed(k.mem, LayerMutator(k).k.mem, UPPER_OPCODE, UPPER_OPCODE + PayloadLen(k.mem) - 4)
  {
    hide Field, UpperLayer, Havoc, ATTOpcode, SMCode;
  }

  lemma FinishKeepsField(m: seq<bv8>, ret: nat, oldLen: nat, o: nat)
    requires |m| == SIZE && o in {LEN, MAX_PAYLOAD_LEN}
    ensures Field(Finish(m, ret, oldLen), o) == Field(m, o)
  {
    forall i | o <= i < o + 4 ensures Finish(m, ret, oldLen)[i] == m[i] {
      FinishKeepsByte(m, ret, oldLen, i);
    }
    FieldKept(m, Finish(m, ret, oldLen), o);
  }

  /** The length and the maximum of any other packet are out of reach of every mutator. */
  lemma LengthOutOfReach(k: Machine)
    requires Domain(k.mem) && !LengthOpen(k.mem)
    ensures var m := MutateStrategy(k).k.mem;
      && Domain(m) && Field(m, LEN) == Field(LengthDraw(k).mem, LEN)
      && Field(m, MAX_PAYLOAD_LEN) == Field(k.mem, MAX_PAYLOAD_LEN)
      && (PayloadLen(k.mem) >= 0 ==> PayloadLen(m) >= 0)
  {
    hide Field, LengthDraw, IsDataPacket, UpperLayer, LayerMutator, Finish;
    if RunsUpper(k) {
      LengthDrawRoutes(k);
      LengthDrawn(k);
      var a := LengthDraw(k);
      UpperFrame(a);
      var r := LayerMutator(a);
      FieldKept(a.mem, r.k.mem, LEN);
      FieldKept(a.mem, r.k.mem, MAX_PAYLOAD_LEN);
      FinishKeepsField(r.k.mem, r.ret, Field(a.mem, LEN), LEN);
      FinishKeepsField(r.k.mem, r.ret, Field(a.mem, LEN), MAX_PAYLOAD_LEN);
    } else {
      StrategyFrame(k);
    }
  }

  /** Draws that take the longest length, reach the upper-layer mutator, keep the opcode, and
      run one havoc round that zeroes the byte nine places on. */
  function Zeroing(m: seq<bv8>): nat -> nat
    requires |m| == SIZE
  {
    var att, max := UpperLayer(m) == ATT, Field(m, MAX_PAYLOAD_LEN);
    (i: nat) => if i == 1 then max else if i == 2 then 50 else if i == 3 then (if att then 0 else 70)
      else if i == 4 then 1 else if i == 6 then 9 else 0
  }

  lemma HavocZeroes(k: Machine, base: nat, len: nat)
    requires base + len <= |k.mem| && 10 <= len <= PKT_MAX
    requires k.draws(k.pos) == 1 && k.draws(k.pos + 1) == 0 && k.draws(k.pos + 2) == 9 && k.draws(k.pos + 3) == 0
    ensures Havoc(k, base, len, PKT_MAX).mem == k.mem[base + 9 := 0]
  {
    SmallRemainder(1, len / 2 + 1);
    OneRound(k.Next(), base, len);
    ByteZeroes(k.Next().Next(), base, len);
    hide HavocRound, HavocRounds, RandomByte;
  }

  lemma OneRound(k: Machine, base: nat, len: nat)
    requires base + len <= |k.mem| && len > 0 && k.Draw() == 0
    ensures HavocRounds(k, base, len, 1) == RandomByte(k.Next(), base, len)
  {
    hide RandomByte, HavocOp;
    var r := HavocRound(k, base, len);
    assert HavocRounds(r, base, len, 0) == r;
  }

  lemma ByteZeroes(k: Machine, base: nat, len: nat)
    requires base + len <= |k.mem| && len >= 10 && k.draws(k.pos) == 9 && k.draws(k.pos + 1) == 0
    ensures RandomByte(k, base, len).mem == k.mem[base + 9 := 0]
  {
    SmallRemainder(9, len);
  }

  lemma UpperZeroes(k: Machine)
    requires Domain(k.mem) && PayloadLen(k.mem) >= 15 && UpperLayer(k.mem) in {ATT, SM}
    requires k.draws(k.pos) == 50 && k.draws(k.pos + 1) == (if UpperLayer(k.mem) == ATT then 0 else 70)
    requires k.draws(k.pos + 2) == 1 && k.draws(k.pos + 3) == 0
    requires k.draws(k.pos + 4) == 9 && k.draws(k.pos + 5) == 0
    ensures LayerMutator(k).k.mem[LEN] == 0
  {
    hide Field, UpperLayer, ATTMutator, SMMutator, LLDataMutator, L2CAPMutator;
    if UpperLayer(k.mem) == ATT { ATTZeroes(k.Next()); } else { SMZeroes(k.Next()); }
  }

  lemma ATTZeroes(k: Machine)
    requires Domain(k.mem) && PayloadLen(k.mem) >= 15
    requires k.draws(k.pos) == 0 && k.draws(k.pos + 1) == 1 && k.draws(k.pos + 2) == 0
    requires k.draws(k.pos + 3) == 9 && k.draws(k.pos + 4) == 0
    ensures ATTMutator(k).k.mem[LEN] == 0
  {
    hide Field, Havoc, ListedOpcode;
    assert ATTOpcode(k) == k.Next();
    HavocZeroes(k.Next(), UPPER_PARAMS, PayloadLen(k.mem) - 5);
  }

  lemma SMZeroes(k: Machine)
    requires Domain(k.mem) && PayloadLen(k.mem) >= 15
    requires k.draws(k.pos) == 70 && k.draws(k.pos + 1) == 1 && k.draws(k.pos + 2) == 0
    requires k.draws(k.pos + 3) == 9 && k.draws(k.pos + 4) == 0
    ensures SMMutator(k).k.mem[LEN] == 0
  {
    hide Field, Havoc;
    assert SMCode(k) == k.Next();
    HavocZeroes(k.Next(), UPPER_PARAMS, PayloadLen(k.mem) - 5);
  }

  lemma LengthOverwritten(m: seq<bv8>)
    requires Domain(m) && LengthOpen(m)
    ensures var k := Machine(m, Zeroing(m), 0);
      && Field(MutateStrategy(k).k.mem, LEN) % 0x100 == 0 && 20 <= Field(LengthDraw(k).mem, LEN) <= PKT_MAX
  {
    hide UnLe, Le, UpperLayer, LayerMutator, Finish, Field, LengthDraw, IsDataPacket;
    var k := Machine(m, Zeroing(m), 0);
    LengthDrawRoutes(k);
    ChosenLength(m, Zeroing(m), Field(m, MAX_PAYLOAD_LEN));
    var a := LengthDraw(k);
    UpperZeroes(a);
    var r := LayerMutator(a);
    FinishKeepsField(r.k.mem, r.ret, Field(a.mem, LEN), LEN);
    LowByteOfField(r.k.mem, LEN);
  }

  /** The length survives every sequence of draws if and only if the packet is not an ATT or
      SM data packet with a maximum of 15 or more. */
  lemma LengthKeptIff(m: seq<bv8>)
    requires Domain(m)
    ensures KeepsLength(m) <==> !LengthOpen(m)
  {
    hide MutateStrategy, LengthDraw, LengthOpen, Field;
    if LengthOpen(m) {
      LengthOverwritten(m);
    } else {
      forall draws: nat -> nat
        ensures var k := Machine(m, draws, 0);
          Field(MutateStrategy(k).k.mem, LEN) == Field(LengthDraw(k).mem, LEN)
      {
        LengthOutOfReach(Machine(m, draws, 0));
      }
    }
  }

  // ---------- The mark ----------

  /** What the comment on the final test promises: a packet whose length has changed is marked. */
  ghost predicate MarksLengthChanges(m: seq<bv8>)
    requires Domain(m)
  {
    forall draws: nat -> nat :: var r := MutateStrategy(Machine(m, draws, 0)).k.mem;
      Field(r, LEN) != Field(m, LEN) ==> Field(r, MUTATED) == 1
  }

  /** Marked before, or without a payload and, if a data packet, without room for one. */
  predicate LengthSettled(m: seq<bv8>)
    requires |m| == SIZE
  {
    || Field(m, MUTATED) == 1
    || (Field(m, LEN) == 5 && (IsDataPacket(m) ==> Field(m, MAX_PAYLOAD_LEN) == 0))
  }

  /** Draws that choose a payload length, and no mutator on a data packet. */
  function Choosing(len: nat): nat -> nat {
    (i: nat) => if i == 1 then len else if i == 2 then 99 else 0
  }

  /** The length that the final test compares with is read after the length draw, so for
      every packet that is not settled some draws change its length and set no mark. */
  lemma LengthChangeUnmarked(m: seq<bv8>) returns (draws: nat -> nat)
    requires Domain(m) && !LengthSettled(m)
    ensures var r := MutateStrategy(Machine(m, draws, 0)).k.mem;
      Field(r, LEN) != Field(m, LEN) && Field(r, MUTATED) != 1
  {
    hide UnLe, Le, UpperLayer, IsDataPacket, Finish, Field, SetField, MutateStrategy;
    var len := if Field(m, LEN) == 5 then 1 else 0;
    draws := Choosing(len);
    var k := Machine(m, draws, 0);
    LengthDrawRoutes(k);
    ChosenLength(m, draws, len);
    hide LengthDraw;
    NoneRuns(k);
    FinishFields(LengthDraw(k).mem, 0);
  }

  lemma NoneRuns(k: Machine)
    requires Domain(k.mem) && Domain(LengthDraw(k).mem)
    requires var a := LengthDraw(k);
      if IsDataPacket(a.mem) then a.Draw() % 100 >= 75 else Field(a.mem, LEN) == 5
    ensures var m := LengthDraw(k).mem; MutateStrategy(k).k.mem == Finish(m, 0, Field(m, LEN))
  {
    NoMutator(LengthDraw(k));
    hide LengthDraw, Field, Finish, LayerMutator, LLAdvertisingMutator, IsDataPacket;
  }

  lemma NoMutator(k: Machine)
    requires Domain(k.mem)
    ensures IsDataPacket(k.mem) && k.Draw() % 100 >= 75 ==> LayerMutator(k) == Ran(k.Next(), 0)
    ensures !IsDataPacket(k.mem) && Field(k.mem, LEN) == 5 ==> LLAdvertisingMutator(k) == Ran(k, 0)
  {
    hide Field, IsDataPacket;
  }

  lemma SettledLength(k: Machine)
    requires Domain(k.mem) && Field(k.mem, LEN) == 5 && Field(k.mem, MAX_PAYLOAD_LEN) == 0
    ensures Field(LengthDraw(k).mem, LEN) == 5
  {
    hide UnLe, Le, Field;
    FieldOfStore(k.mem, LEN, 5);
  }

  /** Every change of length is marked, for all draws, if and only if the packet is settled. */
  lemma MarksIffLengthSettled(m: seq<bv8>)
    requires Domain(m)
    ensures MarksLengthChanges(m) <==> LengthSettled(m)
  {
    hide MutateStrategy, LengthDraw, IsDataPacket, Field;
    if LengthSettled(m) {
      forall draws: nat -> nat
        ensures var r := MutateStrategy(Machine(m, draws, 0)).k.mem;
          Field(r, LEN) != Field(m, LEN) ==> Field(r, MUTATED) == 1
      {
        var k := Machine(m, draws, 0);
        StrategyMarks(k);
        LengthDrawn(k);
        if Field(m, MUTATED) != 1 && IsDataPacket(m) { SettledLength(k); }
      }
    } else {
      var draws := LengthChangeUnmarked(m);
    }
  }
}
