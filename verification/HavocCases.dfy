/** What one round of mutate_havoc in blueman-main/mutator/mutate_strategy.c does, case by
    case, in terms of the numbers it draws. */
module HavocCases {
  import opened LittleEndian
  import opened MutateOps
  import opened MutateBits
  import opened MutateBytes

  /** Draw `n` of a round. */
  function Drawn(k: Machine, n: nat): nat { k.draws(k.pos + n) }

  lemma BitsDrawn(k: Machine, base: nat, s: nat, n: nat)
    requires base + 2 <= |k.mem| && 1 <= n <= 8 && s + n <= 8
    ensures RandBits(k, base, 2, s, n) ==
      Machine(k.mem[base := RandByteIn(k.mem[base], Low(Drawn(k, 0)), s, n)], k.draws, k.pos + 1)
  {
    hide RandByteIn, Low;
  }

  /** Case 0: one byte, anywhere in the block, becomes a drawn byte. */
  lemma ByteCase(k: Machine, base: nat, len: nat)
    requires base + len <= |k.mem| && len > 0 && Drawn(k, 0) % 6 == 0
    ensures var r, i := HavocRound(k, base, len), base + Drawn(k, 1) % len % 256;
      && r.mem[i] as nat == Drawn(k, 2) % 256 && r.pos == k.pos + 3
      && (forall j :: 0 <= j < |k.mem| && j != i ==> r.mem[j] == k.mem[j])
  {
    hide RandomByte;
    RandomByteMeaning(k.Next(), base, len);
  }

  /** Case 1: one to eight bits, from any bit to at most the end of its byte, become drawn bits. */
  lemma BitsCase(k: Machine, base: nat, len: nat, i: nat)
    requires base + len <= |k.mem| && len > 0 && Drawn(k, 0) % 6 == 1 && i < 8 * len
    ensures var r, s, n := HavocRound(k, base, len), Drawn(k, 1) % (8 * len), Drawn(k, 2) % 8 + 1;
      Bit(r.mem, base, i) == if Reached(len, s, n, i) then BitOf(Low(Drawn(k, 3)), i - s) else Bit(k.mem, base, i)
  {
    hide RandBits, Bit, BitOf, Low;
    RandBitsMeaning(k.Next().Next().Next(), base, len, Drawn(k, 1) % (8 * len), Drawn(k, 2) % 8 + 1, i);
  }

  /** Case 2: up to 31 bytes become drawn bytes, from any byte on: a drawn count that fits the
      block, of which the eight-bit shift leaves the remainder by 32. */
  lemma InsertCase(k: Machine, base: nat, len: nat, j: nat)
    requires base + len <= |k.mem| && len > 0 && Drawn(k, 0) % 6 == 2 && j < |k.mem|
    ensures var r, i := HavocRound(k, base, len), Drawn(k, 1) % len;
      var count := (Drawn(k, 2) % (len - i) + 1) % 32;
      && (base + i <= j < base + i + count ==> r.mem[j] as nat == Drawn(k, 3 + (j - base - i)) % 256)
      && (!(base + i <= j < base + i + count) ==> r.mem[j] == k.mem[j])
  {
    hide RandomBytesInsert;
    var i := Drawn(k, 1) % len;
    var c := Drawn(k, 2) % (len - i) + 1;
    Shifted(c);
    assert 8 * i / 8 == i;
    RandomBytesInserted(k.Next().Next().Next(), base, len, 8 * i, 8 * (c % 256) % 256, j);
  }

  lemma Shifted(c: nat)
    ensures 8 * (c % 256) % 256 / 8 == c % 32 && 8 * (c % 256) % 256 <= 8 * c
  {
    var a, m := c / 256, c % 256;
    var b, r := m / 32, m % 32;
    assert c == 256 * a + m && m == 32 * b + r;
    Residue(c, 32, 8 * a + b, r);
    Residue(8 * m, 256, b, 8 * r);
  }

  /** Case 3: any byte or any word in the block moves by 1 to 50; a word that would begin with
      the last byte stays. */
  lemma ArithmeticCase(k: Machine, base: nat, len: nat)
    requires base + len <= |k.mem| && len > 0 && Drawn(k, 0) % 6 == 3
    ensures var r, i := HavocRound(k, base, len), Drawn(k, 1) % len;
      if Drawn(k, 2) % 2 == 0 then
        && r.mem[base + i] != k.mem[base + i] && Framed(k.mem, r.mem, base + i, base + i + 1)
        && Nudged(k.mem[base + i] as nat, r.mem[base + i] as nat, Distance(k.(pos := k.pos + 3)), 0x100)
      else if i + 1 < len then
        && Word16(r.mem, base + i) != Word16(k.mem, base + i) && Framed(k.mem, r.mem, base + i, base + i + 2)
        && Nudged(Word16(k.mem, base + i), Word16(r.mem, base + i), Distance(k.(pos := k.pos + 3)), 0x1_0000)
      else r.mem == k.mem
  {
    hide Arithmetic, Nudged, Word16, Distance;
    var i := Drawn(k, 1) % len;
    assert 8 * i / 8 == i;
    ArithmeticNudges(k.(pos := k.pos + 3), base, len, 8 * i, 8 * (Drawn(k, 2) % 2 + 1));
  }

  /** Case 4: one to eight bits, from any bit to at most the end of its byte, flip. */
  lemma FlipCase(k: Machine, base: nat, len: nat, i: nat)
    requires base + len <= |k.mem| && len > 0 && Drawn(k, 0) % 6 == 4 && i < 8 * len
    ensures var r, s, n := HavocRound(k, base, len), Drawn(k, 1) % (8 * len), Drawn(k, 2) % 8 + 1;
      Bit(r.mem, base, i) == (Bit(k.mem, base, i) != Reached(len, s, n, i)) && r.pos == k.pos + 3
  {
    hide FlipBits, Bit;
    FlipBitsMeaning(k.Next().Next().Next(), base, len, Drawn(k, 1) % (8 * len), Drawn(k, 2) % 8 + 1, i);
  }

  /** Case 5: any byte or any word becomes the drawn one of the listed values. */
  lemma InterestCase(k: Machine, base: nat, len: nat)
    requires base + len <= |k.mem| && len > 0 && Drawn(k, 0) % 6 == 5
    ensures var r, i := HavocRound(k, base, len), Drawn(k, 1) % len;
      if Drawn(k, 2) % 2 == 0 then
        r.mem[base + i] as nat == INTERESTING_8[Drawn(k, 3) % 9] && Framed(k.mem, r.mem, base + i, base + i + 1)
      else if i + 1 < len then
        Word16(r.mem, base + i) == INTERESTING_16[Drawn(k, 3) % 19] && Framed(k.mem, r.mem, base + i, base + i + 2)
      else r.mem == k.mem
  {
    hide Interest, Word16;
    var i := Drawn(k, 1) % len;
    assert 8 * i / 8 == i;
    InterestListed(k.(pos := k.pos + 3), base, len, 8 * i, 8 * (Drawn(k, 2) % 2 + 1));
  }
}
