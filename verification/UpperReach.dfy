/** What the ATT and SM mutators of blueman-main/mutator/mutator_full_stack2.c make of the
    structure they write over: which codes, and which bytes behind them. */
module UpperReach {
  import opened ByteNumbers
  import opened Packet
  import opened MutateOps
  import opened FieldMutator
  import opened FieldLimits
  import opened Reach
  import opened StrategyReach

  /** The opcodes of `att_op_maps`. */
  predicate ATTListed(op: nat) {
    1 <= op <= 0x13 || 0x16 <= op <= 0x1b || op in {0x1d, 0x1e, 0xd2, 0xd3} || 0x20 <= op <= 0x24
  }

  lemma ATTIndex(op: bv8) returns (i: nat)
    requires ATTListed(op as nat)
    ensures i < ATT_OP_MAPS_LEN && ListedOpcode(i) == op
  {
    i := IndexOf(op as nat);
    OpcodeAt(i, op);
  }

  lemma IndexOf(op: nat) returns (i: nat)
    requires ATTListed(op)
    ensures i < ATT_OP_MAPS_LEN && ATT_OP_MAPS[i] == op
  {
    i := if op <= 0x13 then op - 1 else if op <= 0x19 then op - 2 else if op == 0x1a then 34
      else if op == 0x1b then 29 else if op == 0x1d then 30 else if op == 0x1e then 31
      else if op <= 0x24 then op - 8 else if op == 0xd2 then 32 else 33;
  }

  lemma OpcodeAt(i: nat, op: bv8)
    requires i < ATT_OP_MAPS_LEN && ATT_OP_MAPS[i] == op as nat
    ensures ListedOpcode(i) == op
  {
    SameByte(ListedOpcode(i), op);
  }

  lemma OpcodesListed(i: nat)
    requires i < ATT_OP_MAPS_LEN
    ensures ATTListed(ListedOpcode(i) as nat)
  {
  }

  /** The ATT mutator leaves the opcode it finds or one of the table, the SM mutator the code
      it finds or one below 15. */
  lemma CodesListed(k: Machine)
    requires |k.mem| == SIZE
    ensures var v := ATTOpcode(k).mem[UPPER_OPCODE]; v == k.mem[UPPER_OPCODE] || ATTListed(v as nat)
    ensures var v := SMCode(k).mem[UPPER_OPCODE]; v == k.mem[UPPER_OPCODE] || v as nat < 15
  {
    hide ListedOpcode, ATTListed, ByteOf;
    OpcodesListed(k.Next().Draw() % ATT_OP_MAPS_LEN);
  }

  lemma ATTCodeReaches(k: Machine, i: nat, op: bv8)
    requires |k.mem| == SIZE && i < ATT_OP_MAPS_LEN && ListedOpcode(i) == op
    requires k.draws(k.pos) == 30 && k.draws(k.pos + 1) == i
    ensures ATTOpcode(k) == Machine(k.mem[UPPER_OPCODE := op], k.draws, k.pos + 2)
  {
    hide ListedOpcode;
    SmallRemainder(i, ATT_OP_MAPS_LEN);
  }

  lemma SMCodeReaches(k: Machine, op: bv8)
    requires |k.mem| == SIZE && op as nat < 15
    requires k.draws(k.pos) == 0 && k.draws(k.pos + 1) == op as nat
    ensures SMCode(k) == Machine(k.mem[UPPER_OPCODE := op], k.draws, k.pos + 2)
  {
    hide ByteOf;
    SmallRemainder(op as nat, 15);
    SameByte(ByteOf(op as nat), op);
  }

  /** Draws with which the ATT or the SM mutator writes `op`, and `p` behind it. */
  ghost predicate Coded(k: Machine, att: bool, op: bv8, p: seq<bv8>)
    requires |k.mem| == SIZE && UPPER_PARAMS + |p| <= SIZE
  {
    && Follows(k.draws, k.pos + 2, PayloadScript(k.mem, UPPER_PARAMS, p))
    && if att
       then k.draws(k.pos) == 30 && k.draws(k.pos + 1) < ATT_OP_MAPS_LEN && ListedOpcode(k.draws(k.pos + 1)) == op
       else k.draws(k.pos) == 0 && k.draws(k.pos + 1) == op as nat < 15
  }

  lemma UpperParams(k: Machine, was: seq<bv8>, op: bv8, p: seq<bv8>)
    requires |k.mem| == |was| == SIZE && k.mem == was[UPPER_OPCODE := op]
    requires UPPER_PARAMS + |p| <= SIZE && 0 < |p| && Differing(was, UPPER_PARAMS, p) <= |p| / 2
    requires Follows(k.draws, k.pos, PayloadScript(was, UPPER_PARAMS, p))
    requires |p| <= PKT_MAX
    ensures Havoc(k, UPPER_PARAMS, |p|, PKT_MAX).mem == Over(k.mem, UPPER_PARAMS, p)
  {
    hide Havoc, Over, Edits, Script, Follows;
    PayloadReaches(k, was, UPPER_PARAMS, p);
  }

  lemma ATTReaches(k: Machine, op: bv8, p: seq<bv8>)
    requires Domain(k.mem) && 0 < |p| == PayloadLen(k.mem) - 5
    requires Differing(k.mem, UPPER_PARAMS, p) <= |p| / 2 && Coded(k, true, op, p)
    ensures var r := ATTMutator(k); r.ret == 1 && r.k.mem == Over(k.mem[UPPER_OPCODE := op], UPPER_PARAMS, p)
  {
    hide Field, Havoc, ATTOpcode, ListedOpcode, Over, Differing, PayloadScript, Follows;
    ATTCodeReaches(k, k.draws(k.pos + 1), op);
    UpperParams(ATTOpcode(k), k.mem, op, p);
  }

  lemma SMReaches(k: Machine, op: bv8, p: seq<bv8>)
    requires Domain(k.mem) && 0 < |p| == PayloadLen(k.mem) - 5
    requires Differing(k.mem, UPPER_PARAMS, p) <= |p| / 2 && Coded(k, false, op, p)
    ensures var r := SMMutator(k); r.ret == 1 && r.k.mem == Over(k.mem[UPPER_OPCODE := op], UPPER_PARAMS, p)
  {
    hide Field, Havoc, SMCode, ListedOpcode, Over, Differing, PayloadScript, Follows;
    SMCodeReaches(k, op);
    UpperParams(SMCode(k), k.mem, op, p);
  }

  lemma LayerTaken(k: Machine)
    requires Domain(k.mem) && UpperLayer(k.mem) in {ATT, SM} && k.Draw() == 50
    ensures LayerMutator(k) == if UpperLayer(k.mem) == ATT then ATTMutator(k.Next()) else SMMutator(k.Next())
  {
    hide Field, UpperLayer, ATTMutator, SMMutator;
  }

  lemma LayerReaches(k: Machine, op: bv8, p: seq<bv8>)
    requires Domain(k.mem) && UpperLayer(k.mem) in {ATT, SM} && k.Draw() == 50 && 0 < |p| == PayloadLen(k.mem) - 5
    requires Differing(k.mem, UPPER_PARAMS, p) <= |p| / 2 && Coded(k.Next(), UpperLayer(k.mem) == ATT, op, p)
    ensures var r := LayerMutator(k); r.ret == 1 && r.k.mem == Over(k.mem[UPPER_OPCODE := op], UPPER_PARAMS, p)
  {
    LayerTaken(k);
    var a := k.Next();
    assert a.mem == k.mem;
    hide *;
    if UpperLayer(k.mem) == ATT { ATTReaches(a, op, p); } else { SMReaches(a, op, p); }
  }

  /** The start of a run that keeps its length. */
  lemma NoLengthDraw(k: Machine)
    requires Domain(k.mem) && k.Draw() == 50
    ensures LengthDraw(k) == k.Next()
  {
  }

  /** On a data packet taken for ATT or SM some draws leave any listed code in byte 6 of the
      structure, and behind it, in place of the structure's fields, any bytes of which at most
      half differ from what was there; only the mark and header byte 1, which are written last,
      can differ. */
  lemma UpperReaches(m: seq<bv8>, op: bv8, p: seq<bv8>) returns (draws: nat -> nat)
    requires Domain(m) && IsDataPacket(m) && UpperLayer(m) in {ATT, SM} && 0 < |p| == PayloadLen(m) - 5
    requires Differing(m, UPPER_PARAMS, p) <= |p| / 2
    requires if UpperLayer(m) == ATT then ATTListed(op as nat) else op as nat < 15
    ensures var r := MutateStrategy(Machine(m, draws, 0)).k.mem;
      && r[6] == op
      && forall i :: 7 <= i < 7 + |p| && i !in {8, 9, 10, 11, 25} ==> r[i] == p[i - 7]
  {
    var rest, code := PayloadScript(m, UPPER_PARAMS, p), op as nat;
    if UpperLayer(m) == ATT {
      code := ATTIndex(op);
    }
    var first := if UpperLayer(m) == ATT then 30 else 0;
    draws := FourAnd(50, 50, first, code, rest);
    FourDraws(50, 50, first, code, rest);
    hide Field, UpperLayer, IsDataPacket, FourAnd, PayloadScript, Differing, Follows, LengthDraw, LayerMutator;
    var k := Machine(m, draws, 0);
    NoLengthDraw(k);
    assert Coded(k.Next().Next(), UpperLayer(m) == ATT, op, p);
    LayerReaches(k.Next(), op, p);
    UpperResult(k, op, p);
  }

  lemma UpperResult(k: Machine, op: bv8, p: seq<bv8>)
    requires Domain(k.mem) && IsDataPacket(k.mem) && LengthDraw(k) == k.Next() && UPPER_PARAMS + |p| <= SIZE
    requires LayerMutator(k.Next()).k.mem == Over(k.mem[UPPER_OPCODE := op], UPPER_PARAMS, p)
    ensures var r := MutateStrategy(k).k.mem;
      && r[6] == op
      && forall i :: 7 <= i < 7 + |p| && i !in {8, 9, 10, 11, 25} ==> r[i] == p[i - 7]
  {
    hide Field, IsDataPacket, LengthDraw, LayerMutator, Finish, Over;
    var r, a := MutateStrategy(k).k.mem, LayerMutator(k.Next());
    var o := Over(k.mem[UPPER_OPCODE := op], UPPER_PARAMS, p);
    FinishKeepsByte(o, a.ret, Field(k.mem, LEN), UPPER_OPCODE);
    forall i | 7 <= i < 7 + |p| && i !in {8, 9, 10, 11, 25} ensures r[i] == p[i - 7] {
      FinishKeepsByte(o, a.ret, Field(k.mem, LEN), i);
      assert o[i] == o[7..7 + |p|][i - 7];
    }
  }
}
