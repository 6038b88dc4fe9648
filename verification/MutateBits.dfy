/** What the bit operators of MutateOps do, bit by bit.  Bits are numbered from the start of
    a block, most significant bit of each byte first. */
module MutateBits {
  import opened MutateOps

  function Single(j: nat): bv8
    requires j < 8
  {
    if j == 0 then 0x80 else if j == 1 then 0x40 else if j == 2 then 0x20 else if j == 3 then 0x10
    else if j == 4 then 0x08 else if j == 5 then 0x04 else if j == 6 then 0x02 else 0x01
  }

  /** Bit `j` of a byte. */
  predicate BitOf(b: bv8, j: nat)
    requires j < 8
  {
    Single(j) & b != 0
  }

  /** Bit `i` of the block at `base`. */
  predicate Bit(m: seq<bv8>, base: nat, i: nat)
    requires base + i / 8 < |m|
  {
    BitOf(m[base + i / 8], i % 8)
  }

  /** The bits an operator called with `s` and `n` can reach: none when the range does not
      fit the block, otherwise up to the end of the first byte. */
  predicate Reached(len: nat, s: nat, n: nat, i: nat) {
    n + s <= 8 * len && s <= i < s + n && i / 8 == s / 8
  }

  // ---------- Bytes ----------

  lemma ShrBit(b: bv8, k: nat, j: nat)
    requires k < 8 && j < 8
    ensures BitOf(Shr(b, k), j) == (k <= j && BitOf(b, j - k))
  {
  }

  lemma BitsBit(n: nat, j: nat)
    requires n <= 8 && j < 8
    ensures BitOf(Bits(n), j) == (j < n)
  {
  }

  lemma OneBit(j: nat)
    requires j < 8
    ensures Single(j) & (Single(j) - 1) == 0 && Single(j) != 0
  {
  }

  lemma MaskedBits(x: bv8, y: bv8, m: bv8)
    requires m & (m - 1) == 0 && m != 0
    ensures (m & (x & y) != 0) == (m & x != 0 && m & y != 0)
    ensures (m & (x ^ y) != 0) == ((m & x != 0) != (m & y != 0))
  {
  }

  lemma MaskedOverlay(b: bv8, mask: bv8, fill: bv8, m: bv8)
    requires m & (m - 1) == 0 && m != 0
    ensures (m & Overlaid(b, mask, fill) != 0) == ((m & b != 0 && m & mask == 0) || m & fill != 0)
  {
  }

  lemma AndBit(x: bv8, y: bv8, j: nat)
    requires j < 8
    ensures BitOf(x & y, j) == (BitOf(x, j) && BitOf(y, j))
  {
    OneBit(j);
    hide Single;
    MaskedBits(x, y, Single(j));
  }

  lemma XorBit(x: bv8, y: bv8, j: nat)
    requires j < 8
    ensures BitOf(x ^ y, j) == (BitOf(x, j) != BitOf(y, j))
  {
    OneBit(j);
    hide Single;
    MaskedBits(x, y, Single(j));
  }

  lemma OverlaidBit(b: bv8, mask: bv8, fill: bv8, j: nat)
    requires j < 8
    ensures BitOf(Overlaid(b, mask, fill), j) == ((BitOf(b, j) && !BitOf(mask, j)) || BitOf(fill, j))
  {
    OneBit(j);
    hide Single, Overlaid;
    MaskedOverlay(b, mask, fill, Single(j));
  }

  /** The shifted mask an operator applies to the first byte of its range. */
  lemma MaskBit(s: nat, n: nat, j: nat)
    requires s < 8 && 1 <= n <= 8 && j < 8
    ensures BitOf(Shr(Bits(n), s), j) == (s <= j < s + n)
  {
    hide Shr, Bits, BitOf;
    ShrBit(Bits(n), s, j);
    if s <= j { BitsBit(n, j - s); }
  }

  /** `mutate_rand_bits` on one byte: bits from `s` on take the first bits of the draw. */
  lemma RandByteBits(b: bv8, r: bv8, s: nat, n: nat, j: nat)
    requires s < 8 && 1 <= n <= 8 && j < 8
    ensures BitOf(RandByteIn(b, r, s, n), j) == if s <= j < s + n then BitOf(r, j - s) else BitOf(b, j)
  {
    hide Shr, Bits, BitOf, Overlaid;
    OverlaidBit(b, Shr(Bits(n), s), Shr(r & Bits(n), s), j);
    MaskBit(s, n, j);
    MovedBit(r, s, n, j);
  }

  lemma MovedBit(r: bv8, s: nat, n: nat, j: nat)
    requires s < 8 && 1 <= n <= 8 && j < 8
    ensures BitOf(Shr(r & Bits(n), s), j) == (s <= j < s + n && BitOf(r, j - s))
  {
    hide Shr, Bits, BitOf;
    ShrBit(r & Bits(n), s, j);
    if s <= j {
      AndBit(r, Bits(n), j - s);
      BitsBit(n, j - s);
    }
  }

  lemma FlipByteBits(b: bv8, s: nat, n: nat, j: nat)
    requires s < 8 && 1 <= n <= 8 && j < 8
    ensures BitOf(b ^ Shr(Bits(n), s), j) == (BitOf(b, j) != (s <= j < s + n))
  {
    hide Shr, Bits, BitOf;
    MaskBit(s, n, j);
    XorBit(b, Shr(Bits(n), s), j);
  }

  // ---------- Blocks ----------

  /** `mutate_rand_bits`: the reached bits become the first bits of the low byte of one
      draw, every other bit of the block stays; a range that does not fit draws nothing. */
  lemma RandBitsMeaning(k: Machine, base: nat, len: nat, s: nat, n: nat, i: nat)
    requires base + len <= |k.mem| && 1 <= n <= 8 && i < 8 * len
    ensures var r := RandBits(k, base, len, s, n);
      && Bit(r.mem, base, i) == (if Reached(len, s, n, i) then BitOf(Low(k.Draw()), i - s) else Bit(k.mem, base, i))
      && r.pos == (if n + s <= 8 * len then k.pos + 1 else k.pos)
  {
    hide RandByteIn, BitOf, Low;
    if n + s <= 8 * len && i / 8 == s / 8 {
      RandByteBits(k.mem[base + s / 8], Low(k.Draw()), s % 8, n, i % 8);
    }
  }

  /** `mutate_bits_flip`: the reached bits flip, every other bit of the block stays. */
  lemma FlipBitsMeaning(k: Machine, base: nat, len: nat, s: nat, n: nat, i: nat)
    requires base + len <= |k.mem| && 1 <= n <= 8 && i < 8 * len
    ensures var r := FlipBits(k, base, len, s, n);
      Bit(r.mem, base, i) == (Bit(k.mem, base, i) != Reached(len, s, n, i)) && r.pos == k.pos
  {
    hide BitOf, Shr, Bits;
    if n + s <= 8 * len && i / 8 == s / 8 {
      FlipByteBits(k.mem[base + s / 8], s % 8, n, i % 8);
    }
  }

  /** Flipping twice with the same arguments restores the machine. */
  lemma FlipTwice(k: Machine, base: nat, len: nat, s: nat, n: nat)
    requires base + len <= |k.mem| && 1 <= n <= 8
    ensures FlipBits(FlipBits(k, base, len, s, n), base, len, s, n) == k
  {
    if n + s <= 8 * len {
      var i := base + s / 8;
      XorTwice(k.mem[i], Shr(Bits(n), s % 8));
      hide Shr, Bits;
      assert FlipBits(FlipBits(k, base, len, s, n), base, len, s, n).mem == k.mem[i := k.mem[i]];
    }
  }

  lemma XorTwice(b: bv8, c: bv8)
    ensures (b ^ c) ^ c == b
  {
  }
}
