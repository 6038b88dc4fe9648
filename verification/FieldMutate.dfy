/** The field-aware mutator of blueman-main/mutator/mutator_full_stack2.c as it runs: in
    place on a packet structure.  Each method is the function of FieldMutator. */
module FieldMutate {
  import opened ByteNumbers
  import opened LittleEndian
  import opened Packet
  import opened MutateOps
  import opened Mutate
  import opened FieldMutator

  method RunLLData(mem: array<bv8>, rand: Rand) returns (ret: nat)
    requires Domain(mem[..])
    modifies mem, rand
    ensures Ran(Now(mem, rand), ret) == LLDataMutator(old(Now(mem, rand)))
  {
    hide RandBits, Havoc, Field;
    var payloadLen := PayloadLen(mem[..]);
    if payloadLen <= 0 { return 0; }
    var r := rand.Next();
    if r % 100 < 30 {
      MutateRandBits(mem, LL_HEADER, 2, 6, 2, rand);
      MutateRandBits(mem, LL_HEADER, 2, 0, 4, rand);
    }
    MutateHavoc(mem, LL_PAYLOAD, payloadLen, PKT_MAX, rand);
    return 1;
  }

  method RunLLAdvertising(mem: array<bv8>, rand: Rand) returns (ret: nat)
    requires Domain(mem[..])
    modifies mem, rand
    ensures Ran(Now(mem, rand), ret) == LLAdvertisingMutator(old(Now(mem, rand)))
  {
    hide RandBits, Havoc, Field;
    var payloadLen := PayloadLen(mem[..]);
    if payloadLen <= 0 { return 0; }
    var r := rand.Next();
    if r % 100 < 10 {
      MutateRandBits(mem, LL_HEADER, 2, 4, 4, rand);
    }
    MutateHavoc(mem, LL_PAYLOAD, payloadLen, PKT_MAX, rand);
    return 1;
  }

  method RunL2CAPBody(mem: array<bv8>, len: nat, rand: Rand)
    requires mem.Length == SIZE && L2CAP_PAYLOAD + len <= SIZE
    modifies mem, rand
    ensures Now(mem, rand) == L2CAPBody(old(Now(mem, rand)), len)
  {
    hide PokeWord, Havoc, ListedCid;
    if len == 0 { return; }
    var r := rand.Next();
    if r % 100 < 20 {
      r := rand.Next();
      StoreWord(mem, CID, ListedCid(r % CID_MAPS_LEN), rand);
    }
    MutateHavoc(mem, L2CAP_PAYLOAD, len, PKT_MAX, rand);
  }

  method RunL2CAP(mem: array<bv8>, rand: Rand) returns (ret: nat)
    requires Domain(mem[..])
    modifies mem, rand
    ensures Ran(Now(mem, rand), ret) == L2CAPMutator(old(Now(mem, rand)))
  {
    hide L2CAPBody, Field;
    var payloadLen := PayloadLen(mem[..]) - 4;
    if payloadLen <= 0 { return 0; }
    var r := rand.Next();
    var newPayloadLen := payloadLen;
    if r % 100 < 20 {
      r := rand.Next();
      newPayloadLen := r % (payloadLen + 1);
    }
    RunL2CAPBody(mem, newPayloadLen, rand);
    return 1;
  }

  method RunATT(mem: array<bv8>, rand: Rand) returns (ret: nat)
    requires Domain(mem[..])
    modifies mem, rand
    ensures Ran(Now(mem, rand), ret) == ATTMutator(old(Now(mem, rand)))
  {
    hide Havoc, Field, ListedOpcode;
    var paramsLen := PayloadLen(mem[..]) - 5;
    if paramsLen <= 0 { return 1; }
    var r := rand.Next();
    if r % 100 >= 30 {
      r := rand.Next();
      mem[UPPER_OPCODE] := ListedOpcode(r % ATT_OP_MAPS_LEN);
    }
    MutateHavoc(mem, UPPER_PARAMS, paramsLen, PKT_MAX, rand);
    return 1;
  }

  method RunSM(mem: array<bv8>, rand: Rand) returns (ret: nat)
    requires Domain(mem[..])
    modifies mem, rand
    ensures Ran(Now(mem, rand), ret) == SMMutator(old(Now(mem, rand)))
  {
    hide Havoc, Field;
    var dataLen := PayloadLen(mem[..]) - 5;
    if dataLen <= 0 { return 1; }
    var r := rand.Next();
    if r % 100 < 70 {
      r := rand.Next();
      mem[UPPER_OPCODE] := ByteOf(r % 0xf);
    }
    MutateHavoc(mem, UPPER_PARAMS, dataLen, PKT_MAX, rand);
    return 1;
  }

  /** The switch of `mutate_strategy` over the upper layer. */
  method RunLayer(mem: array<bv8>, rand: Rand) returns (ret: nat)
    requires Domain(mem[..])
    modifies mem, rand
    ensures Ran(Now(mem, rand), ret) == LayerMutator(old(Now(mem, rand)))
  {
    hide Field, UpperLayer, LLDataMutator, L2CAPMutator, ATTMutator, SMMutator;
    var topLayer := UpperLayer(mem[..]);
    ret := 0;
    var r := rand.Next();
    r := r % 100;
    match topLayer
    case LL =>
      if r < 25 { ret := RunLLData(mem, rand); }
    case L2CAP =>
      if r < 25 { ret := RunLLData(mem, rand); }
      else if r < 50 { ret := RunL2CAP(mem, rand); }
    case ATT =>
      if r < 25 { ret := RunLLData(mem, rand); }
      else if r < 50 { ret := RunL2CAP(mem, rand); }
      else if r < 75 { ret := RunATT(mem, rand); }
    case SM =>
      if r < 25 { ret := RunLLData(mem, rand); }
      else if r < 50 { ret := RunL2CAP(mem, rand); }
      else if r < 75 { ret := RunSM(mem, rand); }
  }

  method StoreField(mem: array<bv8>, o: nat, v: nat)
    requires o + 4 <= mem.Length
    modifies mem
    ensures mem[..] == SetField(old(mem[..]), o, v)
  {
    var b := Le(v, 4);
    for i := 0 to 4
      invariant forall k :: 0 <= k < mem.Length ==> mem[k] == if o <= k < o + i then b[k - o] else old(mem[k])
    {
      mem[o + i] := b[i];
    }
    hide Le;
    assert mem[..] == old(mem[..o]) + b + old(mem[o + 4..]);
  }

  /** The length draw, and the end, of `mutate_strategy`. */
  method DrawLength(mem: array<bv8>, rand: Rand)
    requires Domain(mem[..])
    modifies mem, rand
    ensures Now(mem, rand) == LengthDraw(old(Now(mem, rand)))
  {
    hide Field, SetField;
    var r := rand.Next();
    if r % 100 < 50 {
      r := rand.Next();
      var max := Field(mem[..], MAX_PAYLOAD_LEN);
      StoreField(mem, LEN, r % (max + 1) + 5);
    }
  }

  method WriteHeaderAndMark(mem: array<bv8>, ret: nat, oldLen: nat)
    requires mem.Length == SIZE
    modifies mem
    ensures mem[..] == Finish(old(mem[..]), ret, oldLen)
  {
    hide Field, SetField, Low;
    var oldPayloadLen := oldLen % 256;
    mem[LL_HEADER + 1] := Low((Field(mem[..], LEN) - 5) % 0x1_0000_0000);
    if ret != 0 || oldPayloadLen != Field(mem[..], LEN) {
      StoreField(mem, MUTATED, 1);
    }
  }

  method RunStrategy(mem: array<bv8>, rand: Rand) returns (ret: nat)
    requires Domain(mem[..])
    modifies mem, rand
    ensures Ran(Now(mem, rand), ret) == MutateStrategy(old(Now(mem, rand)))
  {
    hide Field, SetField, LayerMutator, LLAdvertisingMutator, Finish, LengthDraw, IsDataPacket;
    LengthDrawn(Now(mem, rand));
    DrawLength(mem, rand);
    var len := Field(mem[..], LEN);
    if IsDataPacket(mem[..]) {
      ret := RunLayer(mem, rand);
    } else {
      ret := RunLLAdvertising(mem, rand);
    }
    WriteHeaderAndMark(mem, ret, len);
  }
}
