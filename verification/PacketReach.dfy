/** What the two mutators' `mutate_pkt` can turn a packet into. */
module PacketReach {
  import opened Packet
  import opened MutateOps
  import opened FieldMutator
  import opened RandomMutator
  import opened PacketMutation
  import opened Reach
  import opened StrategyReach
  import opened RandomReach

  lemma ImagePayload(p: BlePkt, n: nat)
    requires n <= 253
    ensures Encode(p)[LL_PAYLOAD..LL_PAYLOAD + n] == p.pkt[2..2 + n] && Encode(p)[LL_HEADER] == p.pkt[0]
  {
    ImageRoundTrip(p);
    DecodedPayload(Encode(p), n);
    hide Encode;
  }

  lemma DecodedPayload(m: seq<bv8>, n: nat)
    requires |m| == SIZE && n <= 253
    ensures Decode(m).pkt[2..2 + n] == m[LL_PAYLOAD..LL_PAYLOAD + n] && Decode(m).pkt[0] == m[LL_HEADER]
  {
    hide Field;
  }

  /** The field-aware mutator, on a packet chosen for mutation: every byte of a payload of two
      or more can become any byte, everything else in header and payload as it was. */
  lemma FieldPktReaches(p: BlePkt, i: nat, b: bv8) returns (draws: nat -> nat)
    requires Whole(p) && 7 <= p.len && i < p.len - 5
    ensures var q, n := MutatePkt(p, true, draws), p.len - 5;
      q.len == p.len && q.pkt[0] == p.pkt[0] && q.pkt[2..2 + n] == p.pkt[2..2 + n][i := b]
  {
    hide Field, Encode, MutateStrategy;
    DomainOfImage(p);
    var m, n := Encode(p), p.len - 5;
    draws := AnyByte(m, i, b);
    ImagePayload(p, n);
    DecodedPayload(MutateStrategy(Machine(m, draws, 0)).k.mem, n);
    assert Decode(m).len == p.len;
  }

  /** The random mutator: any first header byte and any byte in the payload, everything else
      in the payload and the length as they were; the packet is marked. */
  lemma RandomPktReaches(p: BlePkt, h: bv8, i: nat, b: bv8) returns (draws: nat -> nat)
    requires Whole(p) && i < p.len - 5
    ensures var q, n := RandomPkt(p, draws), p.len - 5;
      && q.len == p.len && q.mutated == 1 && q.pkt[0] == h
      && q.pkt[2..2 + n] == p.pkt[2..2 + n][i := b]
  {
    hide Field, Encode, RandomStrategy, Differing;
    DomainOfImage(p);
    var m, n := Encode(p), p.len - 5;
    assert Decode(m) == p;
    ImagePayload(p, n);
    var payload := p.pkt[2..2 + n][i := b];
    OneDiffers(m, LL_PAYLOAD, payload, i);
    draws := RandomReaches(m, h, payload);
    DecodedPayload(RandomStrategy(Machine(m, draws, 0)).k.mem, n);
  }
}
