/** The field-aware mutator of blueman-main/mutator/mutator_full_stack2.c, on the packed
    structure image of a packet (Packet.Encode), with every `rand()` an arbitrary draw. */
module FieldMutator {
  import opened ByteNumbers
  import opened LittleEndian
  import opened Packet
  import opened MutateOps

  // Positions in the image.  The link-layer header and the L2CAP header lie in the packet
  // bytes; the ATT and SM mutators compute theirs from the structure itself.
  const LL_HEADER: nat := PKT
  const LL_PAYLOAD: nat := PKT + 2
  const CID: nat := PKT + 4
  const L2CAP_PAYLOAD: nat := PKT + 6
  const UPPER_OPCODE: nat := 6
  const UPPER_PARAMS: nat := 7

  const ADV_ADDRESS: nat := 0x8E89BED6

  datatype Layer = LL | L2CAP | ATT | SM

  /** A machine after a mutator, and the mutator's return value. */
  datatype Ran = Ran(k: Machine, ret: nat)

  /** What the interceptor hands to the mutator: the packet fits its bytes.  The length may
      be below that of a header and CRC, since a seed's length can have been overwritten. */
  predicate Domain(m: seq<bv8>) {
    |m| == SIZE && Field(m, LEN) <= Field(m, MAX_PAYLOAD_LEN) + 5 <= PKT_MAX
  }

  predicate IsDataPacket(m: seq<bv8>)
    requires |m| == SIZE
  {
    Field(m, ADDRESS) != ADV_ADDRESS
  }

  /** `get_upper_layer_type_for_zephyr`. */
  function UpperLayer(m: seq<bv8>): Layer
    requires |m| == SIZE
  {
    var llid := m[LL_HEADER] & 0x03;
    if llid == 0x03 then LL
    else if (m[LL_HEADER + 1] as int) - 4 < 0 then LL
    else if llid == 0x02 then
      var cid := Word16(m, CID);
      if cid == 0x4 then ATT else if cid == 0x6 then SM else L2CAP
    else L2CAP
  }

  /** The link-layer payload length, `pkt->len - 2 - 3`, a signed number. */
  function PayloadLen(m: seq<bv8>): int
    requires Domain(m)
  {
    Field(m, LEN) - 5
  }

  function LLDataHeader(k: Machine): (r: Machine)
    requires |k.mem| == SIZE
    ensures Framed(k.mem, r.mem, LL_HEADER, LL_HEADER + 2)
  {
    if k.Draw() % 100 < 30 then RandBits(RandBits(k.Next(), LL_HEADER, 2, 6, 2), LL_HEADER, 2, 0, 4) else k.Next()
  }

  function LLDataMutator(k: Machine): (r: Ran)
    requires Domain(k.mem)
    ensures Framed(k.mem, r.k.mem, PKT, PKT + 2 + PayloadLen(k.mem))
  {
    var n := PayloadLen(k.mem);
    if n <= 0 then Ran(k, 0) else Ran(Havoc(LLDataHeader(k), LL_PAYLOAD, n, PKT_MAX), 1)
  }

  function LLAdvHeader(k: Machine): (r: Machine)
    requires |k.mem| == SIZE
    ensures Framed(k.mem, r.mem, LL_HEADER, LL_HEADER + 2)
  {
    if k.Draw() % 100 < 10 then RandBits(k.Next(), LL_HEADER, 2, 4, 4) else k.Next()
  }

  function LLAdvertisingMutator(k: Machine): (r: Ran)
    requires Domain(k.mem)
    ensures Framed(k.mem, r.k.mem, PKT, PKT + 2 + PayloadLen(k.mem))
  {
    var n := PayloadLen(k.mem);
    if n <= 0 then Ran(k, 0) else Ran(Havoc(LLAdvHeader(k), LL_PAYLOAD, n, PKT_MAX), 1)
  }

  /** `cid_maps`. */
  const CID_MAPS: seq<nat> := [0x4, 0x5, 0x6, 0x25, 0x27, 0x40, 0x41]

  const CID_MAPS_LEN: nat := 7

  function ListedCid(i: nat): (cid: nat)
    requires i < CID_MAPS_LEN
    ensures cid in CID_MAPS
  {
    CID_MAPS[i]
  }

  function L2CAPHeader(k: Machine): (r: Machine)
    requires |k.mem| == SIZE
    ensures Framed(k.mem, r.mem, CID, CID + 2)
  {
    if k.Draw() % 100 < 20 then PokeWord(k.Next().Next(), CID, ListedCid(k.Next().Draw() % CID_MAPS_LEN)) else k.Next()
  }

  /** The L2CAP payload length that the mutator works on: often the packet's own. */
  function L2CAPLength(k: Machine, n: nat): (r: (Machine, nat))
    ensures r.1 <= n && r.0.mem == k.mem
  {
    if k.Draw() % 100 < 20 then (k.Next().Next(), k.Next().Draw() % (n + 1)) else (k.Next(), n)
  }

  function L2CAPBody(k: Machine, len: nat): (r: Machine)
    requires |k.mem| == SIZE && L2CAP_PAYLOAD + len <= SIZE
    ensures Framed(k.mem, r.mem, CID, L2CAP_PAYLOAD + len)
  {
    if len == 0 then k else Havoc(L2CAPHeader(k), L2CAP_PAYLOAD, len, PKT_MAX)
  }

  function L2CAPMutator(k: Machine): (r: Ran)
    requires Domain(k.mem)
    ensures Framed(k.mem, r.k.mem, CID, PKT + 2 + PayloadLen(k.mem))
  {
    var n := PayloadLen(k.mem) - 4;
    if n <= 0 then Ran(k, 0)
    else
      var (a, len) := L2CAPLength(k, n);
      Ran(L2CAPBody(a, len), 1)
  }

  /** `att_op_maps`. */
  const ATT_OP_MAPS: seq<nat> :=
    [0x01, 0x02, 0x03, 0x04, 0x05, 0x06, 0x07, 0x08, 0x09, 0x0a, 0x0b, 0x0c, 0x0d, 0x0e,
     0x0f, 0x10, 0x11, 0x12, 0x13, 0x05, 0x16, 0x17, 0x18, 0x19, 0x20, 0x21, 0x22, 0x23,
     0x24, 0x1b, 0x1d, 0x1e, 0xd2, 0xd3, 0x1a]

  const ATT_OP_MAPS_LEN: nat := 35

  function ListedOpcode(i: nat): bv8
    requires i < ATT_OP_MAPS_LEN
  {
    ByteOf(ATT_OP_MAPS[i])
  }

  function ATTOpcode(k: Machine): (r: Machine)
    requires |k.mem| == SIZE
    ensures Framed(k.mem, r.mem, UPPER_OPCODE, UPPER_PARAMS)
  {
    if k.Draw() % 100 >= 30 then k.Next().Next().Poke(UPPER_OPCODE, ListedOpcode(k.Next().Draw() % ATT_OP_MAPS_LEN))
    else k.Next()
  }

  /** `ATT_mutator`: it forms its pointers from the structure, so it writes over the
      structure's fields from byte 6 on instead of the packet bytes. */
  function ATTMutator(k: Machine): (r: Ran)
    requires Domain(k.mem)
    ensures Framed(k.mem, r.k.mem, UPPER_OPCODE, UPPER_OPCODE + PayloadLen(k.mem) - 4)
  {
    var n := PayloadLen(k.mem) - 5;
    if n <= 0 then Ran(k, 1) else Ran(Havoc(ATTOpcode(k), UPPER_PARAMS, n, PKT_MAX), 1)
  }

  function SMCode(k: Machine): (r: Machine)
    requires |k.mem| == SIZE
    ensures Framed(k.mem, r.mem, UPPER_OPCODE, UPPER_PARAMS)
  {
    if k.Draw() % 100 < 70 then k.Next().Next().Poke(UPPER_OPCODE, ByteOf(k.Next().Draw() % 0xf)) else k.Next()
  }

  /** `SM_mutator`, with the same pointers as `ATT_mutator`. */
  function SMMutator(k: Machine): (r: Ran)
    requires Domain(k.mem)
    ensures Framed(k.mem, r.k.mem, UPPER_OPCODE, UPPER_OPCODE + PayloadLen(k.mem) - 4)
  {
    var n := PayloadLen(k.mem) - 5;
    if n <= 0 then Ran(k, 1) else Ran(Havoc(SMCode(k), UPPER_PARAMS, n, PKT_MAX), 1)
  }

  /** The layer switch of `mutate_strategy` on a data packet. */
  function LayerMutator(k: Machine): (r: Ran)
    requires Domain(k.mem)
    ensures |r.k.mem| == SIZE
  {
    var layer, r, a := UpperLayer(k.mem), k.Draw() % 100, k.Next();
    if r < 25 then LLDataMutator(a)
    else if r < 50 && layer != LL then L2CAPMutator(a)
    else if r < 75 && layer == ATT then ATTMutator(a)
    else if r < 75 && layer == SM then SMMutator(a)
    else Ran(a, 0)
  }

  /** The length draw at the head of `mutate_strategy`. */
  function LengthDraw(k: Machine): (r: Machine)
    requires Domain(k.mem)
    ensures |r.mem| == SIZE
  {
    if k.Draw() % 100 < 50 then
      k.Next().Next().(mem := SetField(k.mem, LEN, k.Next().Draw() % (Field(k.mem, MAX_PAYLOAD_LEN) + 1) + 5))
    else k.Next()
  }

  /** The end of `mutate_strategy`: header byte 1, then the mark. */
  function Finish(m: seq<bv8>, ret: nat, oldLen: nat): (r: seq<bv8>)
    requires |m| == SIZE
    ensures |r| == SIZE
  {
    var h := m[LL_HEADER + 1 := Low((Field(m, LEN) - 5) % 0x1_0000_0000)];
    if ret != 0 || oldLen % 256 != Field(h, LEN) then SetField(h, MUTATED, 1) else h
  }

  function MutateStrategy(k: Machine): (r: Ran)
    requires Domain(k.mem)
    ensures |r.k.mem| == SIZE
  {
    var a := LengthDraw(k);
    LengthDrawn(k);
    var r := if IsDataPacket(a.mem) then LayerMutator(a) else LLAdvertisingMutator(a);
    r.(k := r.k.(mem := Finish(r.k.mem, r.ret, Field(a.mem, LEN))))
  }

  /** The drawn length is within the packet's maximum, and nothing else changes. */
  lemma LengthDrawn(k: Machine)
    requires Domain(k.mem)
    ensures Domain(LengthDraw(k).mem) && Framed(k.mem, LengthDraw(k).mem, LEN, LEN + 4)
    ensures PayloadLen(k.mem) >= 0 ==> PayloadLen(LengthDraw(k).mem) >= 0
  {
    hide UnLe, Le;
    if k.Draw() % 100 < 50 {
      var len := k.Next().Draw() % (Field(k.mem, MAX_PAYLOAD_LEN) + 1) + 5;
      FieldOfStore(k.mem, LEN, len);
      FieldKept(k.mem, SetField(k.mem, LEN, len), MAX_PAYLOAD_LEN);
    }
  }
}
