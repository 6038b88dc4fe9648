/** The packet structure `BLE_pkt` of blueman-main/include/interceptor.h, as a value and
    as the packed bytes it occupies. */
module Packet {
  import opened LittleEndian

  /** `BLE_PKT_MAX_LEN`. */
  const PKT_MAX: nat := 255

  type u32 = x: nat | x < 0x1_0000_0000

  type PktBytes = s: seq<bv8> | |s| == 255 witness seq(255, _ => 0 as bv8)

  datatype BlePkt = BlePkt(sid: u32, deviceId: u32, mutated: u32, address: u32, len: u32,
                           maxPayloadLen: u32, pkt: PktBytes)

  /** A packet as the radio hands it over: with the three CRC bytes and the header it fits
      the packet bytes. */
  type LivePkt = p: BlePkt | p.maxPayloadLen + 5 <= PKT_MAX witness BlePkt(0, 0, 0, 0, 0, 0, seq(255, _ => 0 as bv8))

  // Offsets in the packed structure, and its size.
  const SID: nat := 0
  const DEVICE_ID: nat := 4
  const MUTATED: nat := 8
  const ADDRESS: nat := 12
  const LEN: nat := 16
  const MAX_PAYLOAD_LEN: nat := 20
  const PKT: nat := 24
  const SIZE: nat := 279

  function Encode(p: BlePkt): (m: seq<bv8>)
    ensures |m| == SIZE
  {
    Le(p.sid, 4) + Le(p.deviceId, 4) + Le(p.mutated, 4) + Le(p.address, 4) +
    Le(p.len, 4) + Le(p.maxPayloadLen, 4) + p.pkt
  }

  /** The 32-bit field at offset `o`. */
  function Field(m: seq<bv8>, o: nat): u32
    requires o + 4 <= |m|
  {
    LoadBound(m[o..o + 4]);
    Widths();
    UnLe(m[o..o + 4])
  }

  /** A 32-bit store at offset `o`. */
  function SetField(m: seq<bv8>, o: nat, v: nat): (r: seq<bv8>)
    requires o + 4 <= |m|
    ensures |r| == |m|
    ensures forall i :: 0 <= i < |m| && !(o <= i < o + 4) ==> r[i] == m[i]
  {
    m[..o] + Le(v, 4) + m[o + 4..]
  }

  function Decode(m: seq<bv8>): BlePkt
    requires |m| == SIZE
  {
    BlePkt(Field(m, SID), Field(m, DEVICE_ID), Field(m, MUTATED), Field(m, ADDRESS), Field(m, LEN),
           Field(m, MAX_PAYLOAD_LEN), m[PKT..])
  }

  lemma FieldOfStore(m: seq<bv8>, o: nat, v: nat)
    requires o + 4 <= |m| && v < 0x1_0000_0000
    ensures Field(SetField(m, o, v), o) == v
  {
    FieldReads(v, 4);
    assert SetField(m, o, v)[o..o + 4] == Le(v, 4);
  }

  /** A field depends on its own four bytes only. */
  lemma FieldKept(m: seq<bv8>, m': seq<bv8>, o: nat)
    requires o + 4 <= |m| == |m'| && forall i :: o <= i < o + 4 ==> m'[i] == m[i]
    ensures Field(m', o) == Field(m, o)
  {
    assert m'[o..o + 4] == m[o..o + 4];
  }

  lemma LowByteOfField(m: seq<bv8>, o: nat)
    requires o + 4 <= |m|
    ensures Field(m, o) % 0x100 == m[o] as nat
  {
    hide UnLe;
    LowFirst(m[o..o + 4]);
  }

  /** The low half of a field depends on its first two bytes only. */
  lemma LowHalfKept(m: seq<bv8>, m': seq<bv8>, o: nat)
    requires o + 4 <= |m| == |m'| && m'[o] == m[o] && m'[o + 1] == m[o + 1]
    ensures Field(m', o) % 0x1_0000 == Field(m, o) % 0x1_0000
  {
    hide UnLe;
    LowHalf(m[o..o + 4]);
    LowHalf(m'[o..o + 4]);
  }

  /** The packed image of a packet holds the packet, and nothing else. */
  lemma ImageRoundTrip(p: BlePkt)
    ensures Decode(Encode(p)) == p
  {
    var m := Encode(p);
    hide Le, UnLe;
    FieldReads(p.sid, 4); FieldReads(p.deviceId, 4); FieldReads(p.mutated, 4);
    FieldReads(p.address, 4); FieldReads(p.len, 4); FieldReads(p.maxPayloadLen, 4);
    assert m[0..4] == Le(p.sid, 4) && m[4..8] == Le(p.deviceId, 4) && m[8..12] == Le(p.mutated, 4);
    assert m[12..16] == Le(p.address, 4) && m[16..20] == Le(p.len, 4) && m[20..24] == Le(p.maxPayloadLen, 4);
    assert m[24..] == p.pkt;
  }

  /** Where the fields lie: six 32-bit little-endian numbers, then the packet bytes. */
  lemma Layout(p: BlePkt)
    ensures var m := Encode(p);
      && Field(m, 0) == p.sid && Field(m, 4) == p.deviceId && Field(m, 8) == p.mutated
      && Field(m, 12) == p.address && Field(m, 16) == p.len && Field(m, 20) == p.maxPayloadLen
      && |m| == 279 && m[24..] == p.pkt
  {
    ImageRoundTrip(p);
    hide Encode, Field;
  }

  lemma FieldBytes(m: seq<bv8>, o: nat)
    requires o + 4 <= |m|
    ensures Field(m, o) == m[o] as nat + 0x100 * m[o + 1] as nat + 0x1_0000 * m[o + 2] as nat
                                       + 0x100_0000 * m[o + 3] as nat
  {
    var s := m[o..o + 4];
    Unload(s);
    Unload(s[1..]);
    assert s[1..][1..] == s[2..];
    Unload(s[2..]);
    assert s[2..][1..] == s[3..];
    Unload(s[3..]);
  }

  lemma DecodeInjective(m: seq<bv8>)
    requires |m| == SIZE
    ensures Encode(Decode(m)) == m
  {
    hide Le, UnLe;
    LoadStore(m[0..4]); LoadStore(m[4..8]); LoadStore(m[8..12]);
    LoadStore(m[12..16]); LoadStore(m[16..20]); LoadStore(m[20..24]);
    assert m == m[0..4] + m[4..8] + m[8..12] + m[12..16] + m[16..20] + m[20..24] + m[24..];
  }
}
