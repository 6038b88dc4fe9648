/** The random mutator of blueman-main/mutator/mutator_random.c, on the packed structure
    image of a packet: what it computes, how it runs, and what it keeps. */
module RandomMutator {
  import opened LittleEndian
  import opened Packet
  import opened MutateOps
  import opened Mutate
  import opened FieldMutator
  import opened FieldFrames
  import opened FieldMutate

  function RandomBytes(k: Machine, base: nat, len: nat, rounds: nat): (r: Machine)
    requires base + len <= |k.mem| && len > 0
    ensures Framed(k.mem, r.mem, base, base + len)
    decreases rounds
  {
    if rounds == 0 then k else RandomBytes(RandomByte(k, base, len), base, len, rounds - 1)
  }

  /** The new payload length: a fresh one, or for advertising packets as often the old one.
      In the domain a packet with a payload has a positive maximum, so the remainder is
      taken of a positive number. */
  function NewLength(k: Machine, data: bool): (r: (Machine, nat))
    requires Domain(k.mem) && PayloadLen(k.mem) > 0
    ensures r.0.mem == k.mem && 1 <= r.1 <= Field(k.mem, MAX_PAYLOAD_LEN)
  {
    var max := Field(k.mem, MAX_PAYLOAD_LEN);
    if data then (k.Next(), k.Draw() % max + 1)
    else if k.Draw() % 100 >= 50 then (k.Next().Next(), k.Next().Draw() % max + 1)
    else (k.Next(), PayloadLen(k.mem))
  }

  /** The rest of either mutator: a random header byte, scattered random payload bytes, and
      the new length in the header and in the structure. */
  function Scatter(k: Machine, len: nat): (r: Machine)
    requires |k.mem| == SIZE && 1 <= len <= PKT_MAX - 5
    ensures |r.mem| == SIZE
  {
    var h := RandomByte(k, LL_HEADER, 1);
    var s := RandomBytes(h.Next(), LL_PAYLOAD, len, (h.Draw() % len + 3) / 3);
    s.(mem := SetField(s.mem[LL_HEADER + 1 := Low(len)], LEN, len + 5))
  }

  function RandomLL(k: Machine, data: bool): (r: Ran)
    requires Domain(k.mem)
    ensures |r.k.mem| == SIZE
  {
    if PayloadLen(k.mem) <= 0 then Ran(k, 0)
    else
      var (a, len) := NewLength(k, data);
      Ran(Scatter(a, len), len)
  }

  /** `mutate_strategy`, which `mutate_pkt` calls for every packet. */
  function RandomStrategy(k: Machine): (r: Ran)
    requires Domain(k.mem)
    ensures |r.k.mem| == SIZE
  {
    if k.Draw() % 100 >= 98 then Ran(k.Next(), 0)
    else
      var r := RandomLL(k.Next(), IsDataPacket(k.mem));
      if r.ret != 0 then r.(k := r.k.(mem := SetField(r.k.mem, MUTATED, 1))) else r
  }

  // ---------- As it runs ----------

  /** A round of the payload loop after another. */
  method RunScatter(mem: array<bv8>, len: nat, rand: Rand)
    requires mem.Length == SIZE && 1 <= len <= PKT_MAX - 5
    modifies mem, rand
    ensures Now(mem, rand) == Scatter(old(Now(mem, rand)), len)
  {
    hide RandomByte, SetField, Low, Framed;
    MutateRandomByte(mem, LL_HEADER, 1, rand);
    var r := rand.Next();
    var rounds := (r % len + 3) / 3;
    ghost var result := RandomBytes(Now(mem, rand), LL_PAYLOAD, len, rounds);
    for i := 0 to rounds
      invariant RandomBytes(Now(mem, rand), LL_PAYLOAD, len, rounds - i) == result
    {
      MutateRandomByte(mem, LL_PAYLOAD, len, rand);
    }
    mem[LL_HEADER + 1] := Low(len);
    StoreField(mem, LEN, len + 5);
  }

  method DrawNewLength(mem: array<bv8>, data: bool, rand: Rand) returns (len: nat)
    requires Domain(mem[..]) && PayloadLen(mem[..]) > 0
    modifies rand
    ensures (Now(mem, rand), len) == NewLength(old(Now(mem, rand)), data)
  {
    hide Field;
    var max := Field(mem[..], MAX_PAYLOAD_LEN);
    len := PayloadLen(mem[..]);
    var r := rand.Next();
    if data {
      len := r % max + 1;
    } else if r % 100 >= 50 {
      r := rand.Next();
      len := r % max + 1;
    }
  }

  method RunRandomStrategy(mem: array<bv8>, rand: Rand) returns (ret: nat)
    requires Domain(mem[..])
    modifies mem, rand
    ensures Ran(Now(mem, rand), ret) == RandomStrategy(old(Now(mem, rand)))
  {
    hide Scatter, SetField, Field, IsDataPacket, NewLength;
    var r := rand.Next();
    if r % 100 >= 98 { return 0; }
    var data := IsDataPacket(mem[..]);
    if PayloadLen(mem[..]) <= 0 { return 0; }
    ret := DrawNewLength(mem, data, rand);
    RunScatter(mem, ret, rand);
    StoreField(mem, MUTATED, 1);
  }

  // ---------- What it keeps ----------

  /** The two stores at the end of a mutator, on an image `s`. */
  lemma LengthStores(s: seq<bv8>, len: nat)
    requires |s| == SIZE && 1 <= len <= PKT_MAX - 5
    ensures var m := SetField(s[LL_HEADER + 1 := Low(len)], LEN, len + 5);
      && SameMetadata(s, m) && Field(m, LEN) == len + 5 && m[LL_HEADER + 1] as nat == len
      && Field(m, MUTATED) == Field(s, MUTATED)
      && (forall i :: LL_PAYLOAD <= i < SIZE ==> m[i] == s[i])
  {
    hide UnLe, Le, Low, Field, SetField, SameMetadata;
    LowReads(len);
    var b := Low(len);
    assert b as nat == len;
    var t := s[LL_HEADER + 1 := b];
    var m := SetField(t, LEN, len + 5);
    MetadataOfFrame(s, t, LL_HEADER + 1, LL_HEADER + 2);
    MetadataOfFrame(t, m, LEN, LEN + 4);
    MetadataTrans(s, t, m);
    FieldOfStore(t, LEN, len + 5);
    FieldKept(s, m, MUTATED);
  }

  lemma MetadataTrans(a: seq<bv8>, b: seq<bv8>, c: seq<bv8>)
    requires |a| == |b| == |c| == SIZE && SameMetadata(a, b) && SameMetadata(b, c)
    ensures SameMetadata(a, c)
  {
    hide Field;
  }

  lemma ScatterKeeps(k: Machine, len: nat)
    requires |k.mem| == SIZE && 1 <= len <= PKT_MAX - 5
    ensures var m := Scatter(k, len).mem;
      && SameMetadata(k.mem, m) && Field(m, LEN) == len + 5 && m[LL_HEADER + 1] as nat == len
      && Field(m, MUTATED) == Field(k.mem, MUTATED)
      && (forall i :: LL_PAYLOAD + len <= i < SIZE ==> m[i] == k.mem[i])
  {
    hide Low, Field, SetField, RandomByte, RandomBytes;
    var h := RandomByte(k, LL_HEADER, 1);
    var s := RandomBytes(h.Next(), LL_PAYLOAD, len, (h.Draw() % len + 3) / 3).mem;
    MetadataOfFrame(k.mem, s, PKT, SIZE);
    FieldKept(k.mem, s, MUTATED);
    LengthStores(s, len);
  }

  /** For every sequence of draws the packet stays in the domain and keeps its metadata, a
      mutated packet announces its payload length in header byte 1, nothing from the last
      three bytes of the final length on is written, and a packet is marked exactly when it
      was mutated. */
  lemma RandomStrategyFrame(k: Machine)
    requires Domain(k.mem)
    ensures var r := RandomStrategy(k);
      && Domain(r.k.mem) && SameMetadata(k.mem, r.k.mem)
      && (PayloadLen(k.mem) >= 0 ==> PayloadLen(r.k.mem) >= 0)
      && Field(r.k.mem, MUTATED) == (if r.ret != 0 then 1 else Field(k.mem, MUTATED))
      && (r.ret != 0 ==> r.ret == Field(r.k.mem, LEN) - 5 == r.k.mem[LL_HEADER + 1] as nat)
      && (if r.ret == 0 then r.k.mem == k.mem
          else forall i :: LL_PAYLOAD + r.ret <= i < SIZE ==> r.k.mem[i] == k.mem[i])
  {
    hide UnLe, Le, Field, Scatter, IsDataPacket;
    if k.Draw() % 100 < 98 && PayloadLen(k.mem) > 0 {
      var (a, len) := NewLength(k.Next(), IsDataPacket(k.mem));
      ScatterKeeps(a, len);
      MarkWrite(Scatter(a, len).mem);
    }
  }
}
