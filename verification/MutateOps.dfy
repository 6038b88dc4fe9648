/** The byte and bit operators of blueman-main/mutator/mutate_strategy.c.  An operator gets
    a pointer (`base`) into a block of memory and a length, and draws from `rand()`. */
module MutateOps {
  import opened ByteNumbers
  import opened LittleEndian

  /** Memory, and the stream that `rand()` hands out from position `pos` on.  The stream is
      arbitrary, so what holds of a machine holds for every sequence of draws. */
  datatype Machine = Machine(mem: seq<bv8>, draws: nat -> nat, pos: nat) {
    function Draw(): nat { draws(pos) }

    function Next(): Machine { this.(pos := pos + 1) }

    function Poke(i: nat, b: bv8): Machine
      requires i < |mem|
    {
      this.(mem := mem[i := b])
    }
  }

  /** Nothing outside `[lo, hi)` differs. */
  ghost predicate Framed(m: seq<bv8>, m': seq<bv8>, lo: nat, hi: int) {
    |m'| == |m| && forall i :: 0 <= i < |m| && !(lo <= i < hi) ==> m'[i] == m[i]
  }

  /** `bits_arr`: a byte whose first `n` bits, most significant first, are set. */
  function Bits(n: nat): bv8
    requires n <= 8
  {
    if n == 0 then 0x00 else if n == 1 then 0x80 else if n == 2 then 0xc0
    else if n == 3 then 0xe0 else if n == 4 then 0xf0 else if n == 5 then 0xf8
    else if n == 6 then 0xfc else if n == 7 then 0xfe else 0xff
  }

  function Shr(b: bv8, k: nat): bv8
    requires k < 8
  {
    if k == 0 then b else if k == 1 then b >> 1 else if k == 2 then b >> 2
    else if k == 3 then b >> 3 else if k == 4 then b >> 4 else if k == 5 then b >> 5
    else if k == 6 then b >> 6 else b >> 7
  }

  /** The low byte of a draw. */
  function Low(r: nat): bv8 { ByteOf(r % 256) }

  // ---------- Single operators ----------

  /** The bits under the mask replaced by those of `fill`. */
  function Overlaid(b: bv8, mask: bv8, fill: bv8): bv8 { (b & !mask) | fill }

  function RandByteIn(b: bv8, r: bv8, s: nat, n: nat): bv8
    requires s < 8 && n <= 8
  {
    Overlaid(b, Shr(Bits(n), s), Shr(r & Bits(n), s))
  }

  /** `mutate_rand_bits`: `n` bits from bit `s` on, but never past the end of their byte. */
  function RandBits(k: Machine, base: nat, len: nat, s: nat, n: nat): (r: Machine)
    requires base + len <= |k.mem| && 1 <= n <= 8
    ensures Framed(k.mem, r.mem, base, base + len) && r.draws == k.draws
  {
    if n + s > 8 * len then k
    else k.Next().Poke(base + s / 8, RandByteIn(k.mem[base + s / 8], Low(k.Draw()), s % 8, n))
  }

  /** `mutate_bits_flip`, over the same bits; it draws nothing. */
  function FlipBits(k: Machine, base: nat, len: nat, s: nat, n: nat): (r: Machine)
    requires base + len <= |k.mem| && 1 <= n <= 8
    ensures Framed(k.mem, r.mem, base, base + len) && r.draws == k.draws
  {
    if n + s > 8 * len then k
    else k.Poke(base + s / 8, k.mem[base + s / 8] ^ Shr(Bits(n), s % 8))
  }

  /** `mutate_random_byte`; the index goes through a byte. */
  function RandomByte(k: Machine, base: nat, len: nat): (r: Machine)
    requires base + len <= |k.mem| && len > 0
    ensures Framed(k.mem, r.mem, base, base + len) && r.draws == k.draws
  {
    var i := k.Draw() % len % 256;
    k.Next().Next().Poke(base + i, Low(k.Next().Draw()))
  }

  /** `count` fresh bytes from `at` on. */
  function InsertBytes(k: Machine, at: nat, count: nat): (r: Machine)
    requires at + count <= |k.mem|
    ensures Framed(k.mem, r.mem, at, at + count) && r.draws == k.draws
    decreases count
  {
    if count == 0 then k else InsertBytes(k.Next().Poke(at, Low(k.Draw())), at + 1, count - 1)
  }

  /** `mutate_random_bytes_insert`: it overwrites, and moves nothing. */
  function RandomBytesInsert(k: Machine, base: nat, len: nat, s: nat, n: nat): (r: Machine)
    requires base + len <= |k.mem|
    ensures Framed(k.mem, r.mem, base, base + len) && r.draws == k.draws
  {
    if n + s > 8 * len then k else InsertBytes(k, base + s / 8, n / 8)
  }

  /** The 16-bit word at `i`, and a store to it. */
  function Word16(m: seq<bv8>, i: nat): nat
    requires i + 2 <= |m|
  {
    UnLe(m[i..i + 2])
  }

  function PokeWord(k: Machine, i: nat, v: nat): (r: Machine)
    requires i + 2 <= |k.mem|
    ensures Framed(k.mem, r.mem, i, i + 2) && r.draws == k.draws && r.pos == k.pos
  {
    k.Poke(i, Le(v, 2)[0]).Poke(i + 1, Le(v, 2)[1])
  }

  const ARITH_MAX: nat := 50

  /** A byte and a word moved by `d`, modulo their widths. */
  function ByteSum(b: bv8, d: int): bv8 { ByteOf((b as int + d) % 0x100) }

  function WordSum(w: nat, d: int): nat { (w + d) % 0x1_0000 }

  /** `mutate_arithmetic`: adds or subtracts 1 to 50 on a word or a byte, modulo its width. */
  function Arithmetic(k: Machine, base: nat, len: nat, s: nat, n: nat): (r: Machine)
    requires base + len <= |k.mem| && 1 <= n
    ensures Framed(k.mem, r.mem, base, base + len) && r.draws == k.draws
  {
    if n + s > 8 * len then k
    else
      var rnd := k.Draw() % ARITH_MAX + 1;
      var k' := k.Next();
      var d: int := if k'.Draw() % 2 == 1 then rnd else -rnd;
      var i := base + s / 8;
      if n / 8 == 2 then PokeWord(k'.Next(), i, WordSum(Word16(k.mem, i), d))
      else k'.Next().Poke(i, ByteSum(k.mem[i], d))
  }

  /** `interesting_8` and `interesting_16`, as unsigned bytes and words. */
  const INTERESTING_8: seq<nat> := [0x80, 0xff, 0, 1, 16, 32, 64, 100, 127]
  const INTERESTING_16: seq<nat> :=
    [0xff80, 0xffff, 0, 1, 16, 32, 64, 100, 127,
     0x8000, 0xff7f, 128, 255, 256, 512, 1000, 1024, 4096, 32767]

  /** `mutate_interest`. */
  function Interest(k: Machine, base: nat, len: nat, s: nat, n: nat): (r: Machine)
    requires base + len <= |k.mem| && 1 <= n
    ensures Framed(k.mem, r.mem, base, base + len) && r.draws == k.draws
  {
    if n + s > 8 * len then k
    else
      var i := base + s / 8;
      if n / 8 == 2 then PokeWord(k.Next(), i, INTERESTING_16[k.Draw() % |INTERESTING_16|])
      else k.Next().Poke(i, ByteOf(INTERESTING_8[k.Draw() % |INTERESTING_8|]))
  }

  // ---------- Havoc ----------

  /** One of the last five operators of `mutate_havoc`, at a place and of a size drawn.  In
      the second case the byte count is shifted in eight bits, so a count of 32 or more
      shrinks to its remainder by 32. */
  function HavocOp(k: Machine, base: nat, len: nat, op: nat, x: nat, y: nat): (r: Machine)
    requires base + len <= |k.mem| && len > 0
    ensures Framed(k.mem, r.mem, base, base + len) && r.draws == k.draws
  {
    if op == 1 then RandBits(k, base, len, x % (8 * len), y % 8 + 1)
    else if op == 2 then RandomBytesInsert(k, base, len, 8 * (x % len), 8 * ((y % (len - x % len) + 1) % 256) % 256)
    else if op == 3 then Arithmetic(k, base, len, 8 * (x % len), 8 * (y % 2 + 1))
    else if op == 4 then FlipBits(k, base, len, x % (8 * len), y % 8 + 1)
    else Interest(k, base, len, 8 * (x % len), 8 * (y % 2 + 1))
  }

  /** One round of `mutate_havoc`. */
  function HavocRound(k: Machine, base: nat, len: nat): (r: Machine)
    requires base + len <= |k.mem| && len > 0
    ensures Framed(k.mem, r.mem, base, base + len) && r.draws == k.draws
  {
    var op := k.Draw() % 6;
    var a := k.Next();
    if op == 0 then RandomByte(a, base, len)
    else HavocOp(a.Next().Next(), base, len, op, a.Draw(), a.Next().Draw())
  }

  function HavocRounds(k: Machine, base: nat, len: nat, rounds: nat): (r: Machine)
    requires base + len <= |k.mem| && (rounds > 0 ==> len > 0)
    ensures Framed(k.mem, r.mem, base, base + len) && r.draws == k.draws
    decreases rounds
  {
    if rounds == 0 then k else HavocRounds(HavocRound(k, base, len), base, len, rounds - 1)
  }

  /** `mutate_havoc`: at most `len / 2` rounds, so none at all on an empty block. */
  function Havoc(k: Machine, base: nat, len: nat, maxLen: nat): (r: Machine)
    requires base + len <= |k.mem|
    ensures Framed(k.mem, r.mem, base, base + len) && r.draws == k.draws
  {
    if len > maxLen then k else HavocRounds(k.Next(), base, len, k.Draw() % (len / 2 + 1))
  }
}
