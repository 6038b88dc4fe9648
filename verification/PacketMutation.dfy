/** The two mutators' `mutate_pkt` on packets as values, and what a run that replays a seed
    with them keeps. */
module PacketMutation {
  import opened LittleEndian
  import opened Packet
  import opened MutateOps
  import opened FieldMutator
  import opened FieldFrames
  import opened FieldLimits
  import opened RandomMutator
  import opened Replay

  /** The packet fits its bytes. */
  predicate InDomain(p: BlePkt) { p.len <= p.maxPayloadLen + 5 <= PKT_MAX }

  /** It also has room for header and CRC. */
  predicate Whole(p: BlePkt) { InDomain(p) && 5 <= p.len }

  lemma DomainOfImage(p: BlePkt)
    ensures Decode(Encode(p)) == p
    ensures InDomain(p) <==> Domain(Encode(p))
    ensures Domain(Encode(p)) ==> PayloadLen(Encode(p)) == p.len - 5
  {
    ImageRoundTrip(p);
    hide Field, Encode;
  }

  /** Which mutators the field-aware one chooses from: the advertising one for the advertising
      address, and on data packets the link-layer one alone for control packets (LLID 3) and
      for payloads below four bytes, otherwise the L2CAP one as well; on the start of an L2CAP
      message (LLID 2) the one for channel 4, ATT, or for channel 6, SM. */
  lemma Routes(p: BlePkt)
    ensures var m, llid, cid := Encode(p), p.pkt[0] & 3, p.pkt[4] as nat + 256 * p.pkt[5] as nat;
      && (IsDataPacket(m) <==> p.address != 0x8E89BED6)
      && (UpperLayer(m) == LL <==> llid == 3 || p.pkt[1] as nat < 4)
      && (UpperLayer(m) == ATT <==> llid == 2 && p.pkt[1] as nat >= 4 && cid == 4)
      && (UpperLayer(m) == SM <==> llid == 2 && p.pkt[1] as nat >= 4 && cid == 6)
  {
    ImageRoundTrip(p);
    var m := Encode(p);
    hide Encode, Field;
    assert Decode(m).pkt == m[PKT..] == p.pkt;
    assert m[LL_HEADER] == p.pkt[0] && m[LL_HEADER + 1] == p.pkt[1] && m[CID] == p.pkt[4] && m[CID + 1] == p.pkt[5];
    WordBytes(m, CID);
    hide Word16;
  }

  lemma WordBytes(m: seq<bv8>, i: nat)
    requires i + 2 <= |m|
    ensures Word16(m, i) == m[i] as nat + 256 * m[i + 1] as nat
  {
    var s := m[i..i + 2];
    Unload(s);
    Unload(s[1..]);
  }

  /** `mutate_pkt` of the field-aware mutator; `chosen` is what `should_mutate_packet` said. */
  function MutatePkt(p: BlePkt, chosen: bool, draws: nat -> nat): BlePkt
    requires InDomain(p)
  {
    DomainOfImage(p);
    if p.len == 5 || !chosen then p else Decode(MutateStrategy(Machine(Encode(p), draws, 0)).k.mem)
  }

  /** For every packet, choice and sequence of draws: `sid` and the low half of the device
      are kept, and the mark is kept or becomes 1. */
  lemma FieldMutation(p: BlePkt, chosen: bool, draws: nat -> nat)
    requires InDomain(p)
    ensures var q := MutatePkt(p, chosen, draws);
      && q.sid == p.sid && q.deviceId % 0x1_0000 == p.deviceId % 0x1_0000 && q.mutated in {p.mutated, 1}
      && (!chosen || p.len == 5 ==> q == p)
  {
    hide Field, Encode, MutateStrategy;
    DomainOfImage(p);
    if chosen && p.len != 5 {
      var k := Machine(Encode(p), draws, 0);
      StrategyMarks(k);
      var m := MutateStrategy(k).k.mem;
      FieldKept(k.mem, m, SID);
      LowHalfKept(k.mem, m, DEVICE_ID);
      assert Decode(k.mem) == p;
    }
  }

  /** These draws run one of the structure-writing mutators on the packet. */
  predicate Overwrites(p: BlePkt, chosen: bool, draws: nat -> nat)
    requires InDomain(p)
  {
    DomainOfImage(p);
    chosen && p.len != 5 && RunsUpper(Machine(Encode(p), draws, 0))
  }

  /** Unless they do, the packet stays in the domain, whole if it was, and keeps its metadata;
      if it went through the strategy, header byte 1 announces its payload length. */
  lemma FrameMutation(p: BlePkt, chosen: bool, draws: nat -> nat)
    requires InDomain(p) && !Overwrites(p, chosen, draws)
    ensures var q := MutatePkt(p, chosen, draws);
      && InDomain(q) && (Whole(p) ==> Whole(q)) && q.deviceId == p.deviceId && q.address == p.address
      && q.maxPayloadLen == p.maxPayloadLen
      && (chosen && p.len != 5 ==> q.pkt[1] as nat == (q.len - 5) % 256)
  {
    hide Field, Encode, MutateStrategy, HeaderKept, RunsUpper;
    DomainOfImage(p);
    if chosen && p.len != 5 {
      var k := Machine(Encode(p), draws, 0);
      StrategyFrame(k);
      var m := MutateStrategy(k).k.mem;
      assert Decode(m).pkt[1] == m[LL_HEADER + 1];
      assert Decode(k.mem) == p;
    }
  }

  // ---------- The length ----------

  /** Some draws write over the length of the packet. */
  predicate Exposed(p: BlePkt) { LengthOpen(Encode(p)) }

  /** No choice and no draws make a whole packet anything but whole. */
  ghost predicate StaysWhole(p: BlePkt)
    requires InDomain(p)
  {
    forall chosen, draws :: Whole(MutatePkt(p, chosen, draws))
  }

  lemma UnexposedStaysWhole(p: BlePkt, chosen: bool, draws: nat -> nat)
    requires Whole(p) && !Exposed(p)
    ensures Whole(MutatePkt(p, chosen, draws))
  {
    hide Field, Encode, MutateStrategy, LengthDraw, LengthOpen;
    DomainOfImage(p);
    if chosen && p.len != 5 {
      LengthOutOfReach(Machine(Encode(p), draws, 0));
    }
  }

  /** The length invariant `5 <= len <= max + 5 <= 255` survives `mutate_pkt` for every choice
      and all draws if and only if the packet has no payload or is not an ATT or SM data
      packet with a maximum of 15 or more. */
  lemma StaysWholeIff(p: BlePkt)
    requires Whole(p)
    ensures StaysWhole(p) <==> p.len == 5 || !Exposed(p)
  {
    hide Field, Encode, MutateStrategy, LengthDraw, LengthOpen;
    DomainOfImage(p);
    var m := Encode(p);
    if p.len == 5 {
    } else if Exposed(p) {
      LengthOverwritten(m);
      assert MutatePkt(p, true, Zeroing(m)).len % 0x100 == 0;
      assert !Whole(MutatePkt(p, true, Zeroing(m)));
    } else {
      forall chosen, draws ensures Whole(MutatePkt(p, chosen, draws)) {
        UnexposedStaysWhole(p, chosen, draws);
      }
    }
  }

  /** `mutate_pkt` of the random mutator. */
  function RandomPkt(p: BlePkt, draws: nat -> nat): BlePkt
    requires InDomain(p)
  {
    DomainOfImage(p);
    Decode(RandomStrategy(Machine(Encode(p), draws, 0)).k.mem)
  }

  /** The random mutator does all of this on every packet. */
  lemma RandomMutation(p: BlePkt, draws: nat -> nat)
    requires InDomain(p)
    ensures var q := RandomPkt(p, draws);
      && InDomain(q) && (Whole(p) ==> Whole(q)) && q.sid == p.sid && q.deviceId == p.deviceId
      && q.address == p.address && q.maxPayloadLen == p.maxPayloadLen && q.mutated in {p.mutated, 1}
  {
    hide Field, Encode, RandomStrategy;
    DomainOfImage(p);
    var k := Machine(Encode(p), draws, 0);
    RandomStrategyFrame(k);
    assert Decode(k.mem) == p;
  }

  // ---------- The mark ----------

  /** For all choices and draws, `mutate_pkt` marks a packet whose length it changes. */
  ghost predicate MarksEveryLength(p: BlePkt)
    requires InDomain(p)
  {
    forall chosen, draws :: var q := MutatePkt(p, chosen, draws); q.len != p.len ==> q.mutated == 1
  }

  /** It does if and only if the packet is marked already or has no payload. */
  lemma MarksIffMarkedOrEmpty(p: BlePkt)
    requires InDomain(p)
    ensures MarksEveryLength(p) <==> p.mutated == 1 || p.len == 5
  {
    hide MutateStrategy, Field, Encode, IsDataPacket;
    DomainOfImage(p);
    var m := Encode(p);
    assert Decode(m) == p;
    if p.mutated == 1 || p.len == 5 {
      if p.len != 5 {
        MarksIffLengthSettled(m);
        forall chosen, draws
          ensures var q := MutatePkt(p, chosen, draws); q.len != p.len ==> q.mutated == 1
        {
          assert chosen ==> MutatePkt(p, chosen, draws) == Decode(MutateStrategy(Machine(m, draws, 0)).k.mem);
        }
      }
    } else {
      var draws := LengthChangeUnmarked(m);
      var q := MutatePkt(p, true, draws);
      assert q.len != p.len && q.mutated != 1;
    }
  }

  // ---------- Whole runs ----------

  /** The radio hands over whole packets. */
  ghost predicate Fed(c: Config) {
    forall k :: Whole(c.radio(k))
  }

  ghost predicate FieldMutated(c: Config, chosen: nat -> bool, draws: nat -> nat -> nat) {
    forall k :: 0 <= k < |c.corpus| && InDomain(Replayed(c, k)) ==>
      c.mutate(k, k + 1, Replayed(c, k)) == MutatePkt(Replayed(c, k), chosen(k), draws(k))
  }

  ghost predicate RandomMutated(c: Config, draws: nat -> nat -> nat) {
    forall k :: 0 <= k < |c.corpus| && InDomain(Replayed(c, k)) ==>
      c.mutate(k, k + 1, Replayed(c, k)) == RandomPkt(Replayed(c, k), draws(k))
  }

  /** A packet of any length from the seed is cut to what fits. */
  lemma ReplayedInDomain(c: Config, k: nat)
    requires Fed(c) && k < |c.corpus|
    ensures InDomain(Replayed(c, k)) && (5 <= c.corpus[k].len ==> Whole(Replayed(c, k)))
  {
    assert Whole(c.radio(k));
  }

  lemma ReplayedDevice(c: Config, k: nat)
    requires Hijacked(c) && Receptions(c) && k < |c.corpus|
    ensures Replayed(c, k).deviceId == 1
  {
    assert c.radio(k).deviceId == 1;
  }

  /** Runs with the random mutator, for all draws: it is discreet, so that runs complete and
      lineages hold, and a whole seed packet is recorded as a whole packet again. */
  lemma RandomRun(c: Config, draws: nat -> nat -> nat)
    requires Hijacked(c) && Receptions(c) && Fed(c) && RandomMutated(c, draws)
    ensures Discreet(c)
    ensures forall k :: 0 <= k < |c.corpus| && 5 <= c.corpus[k].len ==> Whole(c.mutate(k, k + 1, Replayed(c, k)))
  {
    hide RandomPkt, InDomain, Whole, Hijacked, Receptions, Fed, Replayed;
    forall k: nat | k < |c.corpus|
      ensures DiscreetAt(c, k) && (5 <= c.corpus[k].len ==> Whole(c.mutate(k, k + 1, Replayed(c, k))))
    {
      ReplayedInDomain(c, k);
      ReplayedDevice(c, k);
      RandomMutation(Replayed(c, k), draws(k));
    }
  }

  /** Packet `k` of the replay keeps its length: it has none to lose, or no draws or not
      these draws write over it. */
  predicate LengthSafe(c: Config, chosen: nat -> bool, draws: nat -> nat -> nat, k: nat)
    requires k < |c.corpus| && InDomain(Replayed(c, k))
  {
    !Exposed(Replayed(c, k)) || !Overwrites(Replayed(c, k), chosen(k), draws(k))
  }

  /** Runs with the field-aware mutator, for all choices and draws: it is discreet on every
      packet, ATT and SM packets included, since the low half of a device identifier of 1
      stays 1 and no stop mark can be forged; and a whole seed packet is recorded as a whole
      one unless it is exposed and these very draws run a structure-writing mutator on it. */
  lemma FieldRun(c: Config, chosen: nat -> bool, draws: nat -> nat -> nat)
    requires Hijacked(c) && Receptions(c) && Fed(c) && FieldMutated(c, chosen, draws)
    ensures Discreet(c)
    ensures forall k :: 0 <= k < |c.corpus| ==> InDomain(Replayed(c, k))
    ensures forall k :: 0 <= k < |c.corpus| && 5 <= c.corpus[k].len && LengthSafe(c, chosen, draws, k) ==>
      Whole(c.mutate(k, k + 1, Replayed(c, k)))
  {
    hide MutatePkt, InDomain, Whole, Hijacked, Receptions, Fed, Replayed, Exposed, Overwrites;
    forall k: nat | k < |c.corpus|
      ensures DiscreetAt(c, k) && InDomain(Replayed(c, k))
      ensures 5 <= c.corpus[k].len && LengthSafe(c, chosen, draws, k) ==> Whole(c.mutate(k, k + 1, Replayed(c, k)))
    {
      ReplayedInDomain(c, k);
      ReplayedDevice(c, k);
      var p := Replayed(c, k);
      FieldMutation(p, chosen(k), draws(k));
      if 5 <= c.corpus[k].len {
        if !Exposed(p) { UnexposedStaysWhole(p, chosen(k), draws(k)); }
        if !Overwrites(p, chosen(k), draws(k)) { FrameMutation(p, chosen(k), draws(k)); }
      }
    }
  }
}
