/** The choices of the two packet mutators, one by one: which draws lead to which, and what
    each leaves (mutator_full_stack2.c and mutator_random.c in blueman-main/mutator). */
module FieldCases {
  import opened Packet
  import opened MutateOps
  import opened MutateBytes
  import opened HavocCases
  import opened FieldMutator
  import opened RandomMutator

  /** Half of the runs draw a length, of the payload up to its maximum. */
  lemma LengthCases(k: Machine)
    requires Domain(k.mem)
    ensures var r := LengthDraw(k);
      && (Drawn(k, 0) % 100 >= 50 ==> r.mem == k.mem && r.pos == k.pos + 1)
      && (Drawn(k, 0) % 100 < 50 ==>
            Field(r.mem, LEN) == 5 + Drawn(k, 1) % (Field(k.mem, MAX_PAYLOAD_LEN) + 1) && r.pos == k.pos + 2)
  {
    hide Field, SetField;
    if k.Draw() % 100 < 50 {
      LengthDrawn(k);
      FieldOfStore(k.mem, LEN, k.Next().Draw() % (Field(k.mem, MAX_PAYLOAD_LEN) + 1) + 5);
    }
  }

  lemma HeaderParts(b: bv8, r: bv8, q: bv8)
    ensures RandByteIn(RandByteIn(b, r, 6, 2), q, 0, 4) == (b & 0x0c) | (r >> 6) | (q & 0xf0)
    ensures RandByteIn(b, r, 4, 4) == (b & 0xf0) | (r >> 4)
  {
  }

  lemma DataHeaderDrawn(k: Machine)
    requires |k.mem| == SIZE
    ensures LLDataHeader(k) ==
      if Drawn(k, 0) % 100 >= 30 then k.Next()
      else
        var b := RandByteIn(RandByteIn(k.mem[LL_HEADER], Low(Drawn(k, 1)), 6, 2), Low(Drawn(k, 2)), 0, 4);
        Machine(k.mem[LL_HEADER := b], k.draws, k.pos + 3)
  {
    BitsDrawn(k.Next(), LL_HEADER, 6, 2);
    BitsDrawn(RandBits(k.Next(), LL_HEADER, 2, 6, 2), LL_HEADER, 0, 4);
    hide RandBits, RandByteIn, Low;
  }

  lemma AdvHeaderDrawn(k: Machine)
    requires |k.mem| == SIZE
    ensures LLAdvHeader(k) ==
      if Drawn(k, 0) % 100 >= 10 then k.Next()
      else Machine(k.mem[LL_HEADER := RandByteIn(k.mem[LL_HEADER], Low(Drawn(k, 1)), 4, 4)], k.draws, k.pos + 2)
  {
    BitsDrawn(k.Next(), LL_HEADER, 4, 4);
    hide RandBits, RandByteIn, Low;
  }

  /** Three runs in ten draw the data header anew, all but its sequence bits. */
  lemma DataHeaderCases(k: Machine)
    requires |k.mem| == SIZE
    ensures var r := LLDataHeader(k);
      && (Drawn(k, 0) % 100 >= 30 ==> r.mem == k.mem && r.pos == k.pos + 1)
      && (Drawn(k, 0) % 100 < 30 ==>
            && r.mem[24] == (k.mem[24] & 0x0c) | (Low(Drawn(k, 1)) >> 6) | (Low(Drawn(k, 2)) & 0xf0)
            && r.mem[25] == k.mem[25] && r.pos == k.pos + 3)
  {
    hide Low, RandByteIn, LLDataHeader;
    DataHeaderDrawn(k);
    HeaderParts(k.mem[LL_HEADER], Low(Drawn(k, 1)), Low(Drawn(k, 2)));
  }

  /** One in ten draws the type in the advertising header. */
  lemma AdvHeaderCases(k: Machine)
    requires |k.mem| == SIZE
    ensures var r := LLAdvHeader(k);
      && (Drawn(k, 0) % 100 >= 10 ==> r.mem == k.mem && r.pos == k.pos + 1)
      && (Drawn(k, 0) % 100 < 10 ==>
            && r.mem[24] == (k.mem[24] & 0xf0) | (Low(Drawn(k, 1)) >> 4)
            && r.mem[25] == k.mem[25] && r.pos == k.pos + 2)
  {
    hide Low, RandByteIn, LLAdvHeader;
    AdvHeaderDrawn(k);
    HeaderParts(k.mem[LL_HEADER], Low(Drawn(k, 1)), 0);
  }

  /** One in five draws the L2CAP length it works on, and one in five a listed channel. */
  lemma ChannelCases(k: Machine, n: nat)
    requires |k.mem| == SIZE
    ensures var (a, len) := L2CAPLength(k, n);
      && a.mem == k.mem && (Drawn(k, 0) % 100 >= 20 ==> len == n && a.pos == k.pos + 1)
      && (Drawn(k, 0) % 100 < 20 ==> len == Drawn(k, 1) % (n + 1) && a.pos == k.pos + 2)
    ensures var r := L2CAPHeader(k);
      && (Drawn(k, 0) % 100 >= 20 ==> r.mem == k.mem && r.pos == k.pos + 1)
      && (Drawn(k, 0) % 100 < 20 ==>
            Word16(r.mem, CID) in {0x4, 0x5, 0x6, 0x25, 0x27, 0x40, 0x41} && r.pos == k.pos + 2)
  {
    hide Word16, PokeWord, ListedCid;
    if k.Draw() % 100 < 20 {
      var i := k.Next().Draw() % CID_MAPS_LEN;
      WordOfStore(k.Next().Next(), CID, ListedCid(i));
      CidListed(i);
    }
  }

  lemma CidListed(i: nat)
    requires i < CID_MAPS_LEN
    ensures ListedCid(i) in {0x4, 0x5, 0x6, 0x25, 0x27, 0x40, 0x41} && ListedCid(i) < 0x1_0000
  {
  }

  /** A quarter of the runs on a data packet goes to each layer it has, from the link layer
      up, and a quarter to none. */
  lemma LayerCases(k: Machine)
    requires Domain(k.mem)
    ensures var r, d, layer := LayerMutator(k), Drawn(k, 0) % 100, UpperLayer(k.mem);
      && (d < 25 ==> r == LLDataMutator(k.Next()))
      && (25 <= d < 50 && layer in {L2CAP, ATT, SM} ==> r == L2CAPMutator(k.Next()))
      && (50 <= d < 75 && layer == ATT ==> r == ATTMutator(k.Next()))
      && (50 <= d < 75 && layer == SM ==> r == SMMutator(k.Next()))
      && (d >= 75 || (d >= 50 && layer == L2CAP) || (d >= 25 && layer == LL) ==> r == Ran(k.Next(), 0))
  {
    hide UpperLayer, LLDataMutator, L2CAPMutator, ATTMutator, SMMutator;
  }

  /** Seven runs in ten of either upper mutator draw the code. */
  lemma CodeCases(k: Machine)
    requires |k.mem| == SIZE
    ensures var r := ATTOpcode(k);
      && (Drawn(k, 0) % 100 < 30 ==> r.mem == k.mem && r.pos == k.pos + 1)
      && (Drawn(k, 0) % 100 >= 30 ==> r.mem[6] == ListedOpcode(Drawn(k, 1) % 35) && r.pos == k.pos + 2)
    ensures var r := SMCode(k);
      && (Drawn(k, 0) % 100 >= 70 ==> r.mem == k.mem && r.pos == k.pos + 1)
      && (Drawn(k, 0) % 100 < 70 ==> r.mem[6] as nat == Drawn(k, 1) % 15 && r.pos == k.pos + 2)
  {
    hide ListedOpcode;
  }

  /** The random mutator leaves two runs in a hundred and all empty packets alone, and marks
      all others; it draws a length for every data packet and for every other advertising one. */
  lemma RandomCases(k: Machine)
    requires Domain(k.mem)
    ensures var r, d := RandomStrategy(k), Drawn(k, 0) % 100;
      && (r.ret == 0 <==> d >= 98 || PayloadLen(k.mem) <= 0) && (r.ret == 0 ==> r.k.mem == k.mem)
      && (r.ret != 0 && (IsDataPacket(k.mem) || Drawn(k, 1) % 100 >= 50) ==>
            r.ret == 1 + Drawn(k, if IsDataPacket(k.mem) then 1 else 2) % Field(k.mem, MAX_PAYLOAD_LEN))
      && (r.ret != 0 && !IsDataPacket(k.mem) && Drawn(k, 1) % 100 < 50 ==> r.ret == PayloadLen(k.mem))
  {
    hide Field, IsDataPacket, Scatter, SetField;
  }
}
