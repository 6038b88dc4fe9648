/** What the field-aware mutator keeps of a packet, for every sequence of draws. */
module FieldFrames {
  import opened LittleEndian
  import opened Packet
  import opened MutateOps
  import opened MutateBytes
  import opened FieldMutator

  // ---------- Header fields ----------

  lemma KeptBits(b: bv8, r: bv8)
    ensures RandByteIn(b, r, 6, 2) & 0x0c == b & 0x0c
    ensures RandByteIn(b, r, 0, 4) & 0x0c == b & 0x0c
    ensures RandByteIn(b, r, 4, 4) & 0xf0 == b & 0xf0
  {
  }

  /** The data mutator keeps the NESN and SN bits of the link-layer header (Bluetooth Core
      Specification, volume 6 part B, section 2.4), and writes nothing from the last three
      bytes of the recorded length on. */
  lemma DataHeaderKept(k: Machine)
    requires Domain(k.mem)
    ensures var m := LLDataMutator(k).k.mem;
      m[LL_HEADER] & 0x0c == k.mem[LL_HEADER] & 0x0c && Framed(k.mem, m, PKT, PKT + Field(k.mem, LEN) - 3)
  {
    hide Field, UnLe, RandByteIn, Low, HavocRounds;
    if PayloadLen(k.mem) > 0 && k.Draw() % 100 < 30 {
      var a := k.Next();
      var b := RandBits(a, LL_HEADER, 2, 6, 2);
      KeptBits(k.mem[LL_HEADER], Low(a.Draw()));
      KeptBits(b.mem[LL_HEADER], Low(b.Draw()));
    }
  }

  /** The advertising mutator keeps the top four bits of the header's first byte: only the
      PDU type is drawn (volume 6 part B, section 2.3). */
  lemma AdvHeaderKept(k: Machine)
    requires Domain(k.mem)
    ensures var m := LLAdvertisingMutator(k).k.mem;
      m[LL_HEADER] & 0xf0 == k.mem[LL_HEADER] & 0xf0 && Framed(k.mem, m, PKT, PKT + Field(k.mem, LEN) - 3)
  {
    hide Field, UnLe, RandByteIn, Low, HavocRounds;
    if PayloadLen(k.mem) > 0 && k.Draw() % 100 < 10 {
      KeptBits(k.mem[LL_HEADER], Low(k.Next().Draw()));
    }
  }

  /** The L2CAP mutator keeps the link-layer header and the L2CAP length (volume 3 part A,
      section 3.1), and leaves a channel that was there or is in the table. */
  lemma ChannelKeptOrListed(k: Machine)
    requires Domain(k.mem)
    ensures var m := L2CAPMutator(k).k.mem;
      && Framed(k.mem, m, PKT + 4, PKT + 2 + PayloadLen(k.mem))
      && (Word16(m, CID) == Word16(k.mem, CID) || Word16(m, CID) in CID_MAPS)
  {
    hide Field, UnLe, Le, HavocRounds;
    var n := PayloadLen(k.mem) - 4;
    if n > 0 {
      var (a, len) := L2CAPLength(k, n);
      BodyChannel(a, len);
    }
    hide L2CAPLength, L2CAPBody;
  }

  lemma BodyChannel(k: Machine, len: nat)
    requires |k.mem| == SIZE && L2CAP_PAYLOAD + len <= SIZE
    ensures var m := L2CAPBody(k, len).mem;
      Word16(m, CID) == Word16(k.mem, CID) || Word16(m, CID) in CID_MAPS
  {
    hide UnLe, Le, HavocRounds;
    if len > 0 {
      var h, m := L2CAPHeader(k), L2CAPBody(k, len).mem;
      assert Framed(h.mem, m, L2CAP_PAYLOAD, L2CAP_PAYLOAD + len);
      assert m[CID..CID + 2] == h.mem[CID..CID + 2];
      if k.Draw() % 100 < 20 {
        WordOfStore(k.Next().Next(), CID, ListedCid(k.Next().Draw() % CID_MAPS_LEN));
      }
    }
  }

  // ---------- The whole strategy ----------

  /** The fields no mutator has any business with. */
  predicate SameMetadata(m: seq<bv8>, m': seq<bv8>)
    requires |m| == |m'| == SIZE
  {
    && Field(m', SID) == Field(m, SID) && Field(m', DEVICE_ID) == Field(m, DEVICE_ID)
    && Field(m', ADDRESS) == Field(m, ADDRESS) && Field(m', MAX_PAYLOAD_LEN) == Field(m, MAX_PAYLOAD_LEN)
  }

  /** A data packet that parses as ATT or SM and has room for more than the headers: some
      draws send it to a mutator that writes over the structure's fields. */
  predicate Misrouted(m: seq<bv8>)
    requires |m| == SIZE
  {
    IsDataPacket(m) && UpperLayer(m) in {ATT, SM} && Field(m, MAX_PAYLOAD_LEN) >= 6
  }

  /** The draws send the packet to one of those mutators, and leave it something to write. */
  predicate RunsUpper(k: Machine)
    requires Domain(k.mem)
  {
    var a := LengthDraw(k);
    && IsDataPacket(k.mem) && UpperLayer(k.mem) in {ATT, SM}
    && 50 <= a.Draw() % 100 < 75 && Field(a.mem, LEN) > 10
  }

  /** Whatever the draws, they do so with misroutable packets only. */
  lemma OnlyMisroutedRunUpper(k: Machine)
    requires Domain(k.mem) && RunsUpper(k)
    ensures Misrouted(k.mem)
  {
    hide Field, IsDataPacket, UpperLayer, LengthDraw;
    LengthDrawRoutes(k);
    LengthDrawn(k);
  }

  /** The header bits a mutator keeps, by kind of packet. */
  predicate HeaderKept(m: seq<bv8>, m': seq<bv8>)
    requires |m| == |m'| == SIZE
  {
    if IsDataPacket(m) then m'[LL_HEADER] & 0x0c == m[LL_HEADER] & 0x0c
    else m'[LL_HEADER] & 0xf0 == m[LL_HEADER] & 0xf0
  }

  lemma LayerFrame(k: Machine)
    requires Domain(k.mem) && IsDataPacket(k.mem)
    requires UpperLayer(k.mem) !in {ATT, SM} || !(50 <= k.Draw() % 100 < 75) || PayloadLen(k.mem) <= 5
    ensures var r := LayerMutator(k);
      && Framed(k.mem, r.k.mem, PKT, PKT + 2 + PayloadLen(k.mem)) && r.ret <= 1
      && r.k.mem[LL_HEADER] & 0x0c == k.mem[LL_HEADER] & 0x0c
  {
    hide Field, UnLe, Havoc, LLDataHeader, L2CAPHeader, UpperLayer, IsDataPacket;
    DataHeaderKept(k.Next());
    ChannelKeptOrListed(k.Next());
  }

  /** The length draw changes the length only, so the packet is routed as before. */
  lemma LengthDrawRoutes(k: Machine)
    requires Domain(k.mem)
    ensures var m := LengthDraw(k).mem;
      && Domain(m) && IsDataPacket(m) == IsDataPacket(k.mem) && UpperLayer(m) == UpperLayer(k.mem)
      && SameMetadata(k.mem, m) && Field(m, MUTATED) == Field(k.mem, MUTATED)
  {
    hide UnLe, Le;
    LengthDrawn(k);
    var m := LengthDraw(k).mem;
    MetadataOfFrame(k.mem, m, LEN, LEN + 4);
    FieldKept(k.mem, m, MUTATED);
    assert m[CID..CID + 2] == k.mem[CID..CID + 2];
  }

  /** A write that stays inside `MUTATED`, inside `LEN`, or behind the fields, keeps the metadata. */
  lemma MetadataOfFrame(m: seq<bv8>, m': seq<bv8>, lo: nat, hi: nat)
    requires |m| == SIZE && Framed(m, m', lo, hi)
    requires (lo, hi) in {(MUTATED, MUTATED + 4), (LEN, LEN + 4)} || lo >= PKT
    ensures SameMetadata(m, m')
  {
    hide UnLe;
    FieldKept(m, m', SID); FieldKept(m, m', DEVICE_ID);
    FieldKept(m, m', ADDRESS); FieldKept(m, m', MAX_PAYLOAD_LEN);
  }

  lemma LowReads(v: nat)
    ensures Low(v) as nat == v % 256
  {
  }

  /** The byte that announces a payload length: the 32-bit difference cut to a byte. */
  lemma HeaderByte(len: u32)
    requires len <= PKT_MAX
    ensures Low((len - 5) % 0x1_0000_0000) as nat == (len - 5) % 256
  {
    hide Low;
    var y: nat := (len - 5) % 0x1_0000_0000;
    WrapToByte(len - 5);
    LowReads(y);
  }

  lemma WrapToByte(x: int)
    requires -5 <= x <= 250
    ensures x % 0x1_0000_0000 % 256 == x % 256
  {
    if x < 0 {
      assert x % 0x1_0000_0000 == x + 0x1_0000_0000;
      Residue(x + 0x1_0000_0000, 256, 0xff_ffff, x + 256);
      Residue(x + 256, 256, 0, x + 256);
      assert x % 256 == x + 256;
    } else {
      assert x % 0x1_0000_0000 == x;
    }
  }

  lemma HeaderWrite(m: seq<bv8>)
    requires Domain(m)
    ensures var h := m[LL_HEADER + 1 := Low((Field(m, LEN) - 5) % 0x1_0000_0000)];
      && SameMetadata(m, h) && Field(h, LEN) == Field(m, LEN) && Field(h, MUTATED) == Field(m, MUTATED)
      && h[LL_HEADER + 1] as nat == PayloadLen(m) % 256
  {
    hide UnLe, Low, Field, SameMetadata;
    HeaderByte(Field(m, LEN));
    var h := m[LL_HEADER + 1 := Low((Field(m, LEN) - 5) % 0x1_0000_0000)];
    FieldKept(m, h, LEN);
    FieldKept(m, h, MUTATED);
    MetadataOfFrame(m, h, LL_HEADER + 1, LL_HEADER + 2);
  }

  lemma MarkWrite(h: seq<bv8>)
    requires |h| == SIZE
    ensures var r := SetField(h, MUTATED, 1);
      && SameMetadata(h, r) && Field(r, LEN) == Field(h, LEN) && Field(r, MUTATED) == 1
      && Framed(h, r, MUTATED, MUTATED + 4)
  {
    hide UnLe, Le, SetField;
    var r := SetField(h, MUTATED, 1);
    FieldOfStore(h, MUTATED, 1);
    FieldKept(h, r, LEN);
    MetadataOfFrame(h, r, MUTATED, MUTATED + 4);
  }

  /** The end of `mutate_strategy`, when the length is the one it read at the start. */
  lemma FinishFields(m: seq<bv8>, ret: nat)
    requires Domain(m)
    ensures var r := Finish(m, ret, Field(m, LEN));
      && SameMetadata(m, r) && Field(r, LEN) == Field(m, LEN)
      && r[LL_HEADER + 1] as nat == PayloadLen(m) % 256
      && Field(r, MUTATED) == (if ret != 0 then 1 else Field(m, MUTATED))
      && (forall i :: PKT <= i < SIZE && i != LL_HEADER + 1 ==> r[i] == m[i])
  {
    hide Field, SetField, Low;
    HeaderWrite(m);
    MarkWrite(m[LL_HEADER + 1 := Low((Field(m, LEN) - 5) % 0x1_0000_0000)]);
  }

  /** `mutate_strategy` for every packet and every sequence of draws that does not run one of
      the structure-writing mutators: the packet stays in the domain with the drawn length, if
      it had room for header and CRC it keeps it, metadata and the fixed header bits stay,
      header byte 1 ends as the payload length, and nothing from the last three bytes of the
      final length on is written. */
  lemma StrategyFrame(k: Machine)
    requires Domain(k.mem) && !RunsUpper(k)
    ensures var r := MutateStrategy(k);
      && Domain(r.k.mem) && SameMetadata(k.mem, r.k.mem) && HeaderKept(k.mem, r.k.mem)
      && Field(r.k.mem, LEN) == Field(LengthDraw(k).mem, LEN)
      && (PayloadLen(k.mem) >= 0 ==> PayloadLen(r.k.mem) >= 0)
      && r.k.mem[LL_HEADER + 1] as nat == PayloadLen(r.k.mem) % 256
      && (forall i :: LL_PAYLOAD <= i < SIZE && LL_PAYLOAD + PayloadLen(r.k.mem) <= i ==> r.k.mem[i] == k.mem[i])
  {
    hide Field, UnLe, Le, LLDataMutator, LLAdvertisingMutator, LayerMutator, Finish;
    hide LengthDraw, UpperLayer, IsDataPacket;
    var a := LengthDraw(k);
    LengthDrawRoutes(k);
    LengthDrawn(k);
    var r := if IsDataPacket(a.mem) then LayerMutator(a) else LLAdvertisingMutator(a);
    if IsDataPacket(a.mem) { LayerFrame(a); } else { AdvFrame(a); }
    MetadataOfFrame(a.mem, r.k.mem, PKT, PKT + 2 + PayloadLen(a.mem));
    FieldKept(a.mem, r.k.mem, LEN);
    FieldKept(a.mem, r.k.mem, MUTATED);
    FinishFields(r.k.mem, r.ret);
  }

  lemma AdvFrame(k: Machine)
    requires Domain(k.mem)
    ensures var r := LLAdvertisingMutator(k);
      && Framed(k.mem, r.k.mem, PKT, PKT + 2 + PayloadLen(k.mem)) && r.ret <= 1
      && r.k.mem[LL_HEADER] & 0xf0 == k.mem[LL_HEADER] & 0xf0
  {
    hide Field, UnLe, Havoc, LLAdvHeader;
    AdvHeaderKept(k);
  }

  // ---------- What holds of misrouted packets too ----------

  /** A mutator that reports nothing has changed nothing, and none writes to the first six
      bytes of the structure: `sid` and the low half of `device_id`. */
  lemma LayerAlways(k: Machine)
    requires Domain(k.mem)
    ensures var r := if IsDataPacket(k.mem) then LayerMutator(k) else LLAdvertisingMutator(k);
      && r.ret <= 1 && (r.ret == 0 ==> r.k.mem == k.mem) && Framed(k.mem, r.k.mem, UPPER_OPCODE, SIZE)
      && (!IsDataPacket(k.mem) && r.ret == 0 ==> PayloadLen(k.mem) <= 0)
  {
    hide Field, Havoc, LLDataHeader, LLAdvHeader, L2CAPHeader, ATTOpcode, SMCode, UpperLayer, IsDataPacket;
  }

  /** `mutate_strategy` on any packet, for every sequence of draws: it is marked exactly when
      a mutator ran, keeps `sid` and the low half of `device_id`, and its drawn length when
      none ran. */
  lemma StrategyMarks(k: Machine)
    requires Domain(k.mem)
    ensures var r := MutateStrategy(k);
      && r.ret <= 1 && Framed(k.mem, r.k.mem, UPPER_OPCODE, SIZE)
      && Field(r.k.mem, MUTATED) == (if r.ret != 0 then 1 else Field(k.mem, MUTATED))
      && (r.ret == 0 ==> Field(r.k.mem, LEN) == Field(LengthDraw(k).mem, LEN))
      && (!IsDataPacket(k.mem) && r.ret == 0 ==> Field(LengthDraw(k).mem, LEN) <= 5)
  {
    hide Field, SetField, LLAdvertisingMutator, LayerMutator, LengthDraw, UpperLayer, IsDataPacket;
    var a := LengthDraw(k);
    LengthDrawRoutes(k);
    LengthDrawn(k);
    LayerAlways(a);
    var r := if IsDataPacket(a.mem) then LayerMutator(a) else LLAdvertisingMutator(a);
    if r.ret == 0 {
      FinishFields(a.mem, 0);
    }
    MarkWrite(r.k.mem[LL_HEADER + 1 := Low((Field(r.k.mem, LEN) - 5) % 0x1_0000_0000)]);
  }
}
