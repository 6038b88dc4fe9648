/** The operators of blueman-main/mutator/mutate_strategy.c as the program runs them: in
    place on a byte buffer, drawing from `rand()`.  Each is the function of MutateOps. */
module Mutate {
  import opened ByteNumbers
  import opened LittleEndian
  import opened MutateOps

  class Rand {
    const stream: nat -> nat
    var pos: nat

    constructor (s: nat -> nat)
      ensures stream == s && pos == 0
    {
      stream, pos := s, 0;
    }

    method Next() returns (r: nat)
      modifies this
      ensures r == stream(old(pos)) && pos == old(pos) + 1
    {
      r := stream(pos);
      pos := pos + 1;
    }
  }

  ghost function Now(mem: array<bv8>, rand: Rand): Machine
    reads mem, rand
  {
    Machine(mem[..], rand.stream, rand.pos)
  }

  method MutateRandomByte(mem: array<bv8>, base: nat, len: nat, rand: Rand)
    requires base + len <= mem.Length && len > 0
    modifies mem, rand
    ensures Now(mem, rand) == RandomByte(old(Now(mem, rand)), base, len)
  {
    var r := rand.Next();
    var rnd := r % len % 256;
    r := rand.Next();
    mem[base + rnd] := Low(r);
  }

  method MutateRandBits(mem: array<bv8>, base: nat, len: nat, s: nat, n: nat, rand: Rand)
    requires base + len <= mem.Length && 1 <= n <= 8
    modifies mem, rand
    ensures Now(mem, rand) == RandBits(old(Now(mem, rand)), base, len, s, n)
  {
    if n + s > 8 * len { return; }
    var i := base + s / 8;
    var r := rand.Next();
    mem[i] := RandByteIn(mem[i], Low(r), s % 8, n);
  }

  method DrawByte(mem: array<bv8>, i: nat, rand: Rand)
    requires i < mem.Length
    modifies mem, rand
    ensures Now(mem, rand) == old(Now(mem, rand)).Next().Poke(i, Low(old(Now(mem, rand)).Draw()))
  {
    hide Low;
    var r := rand.Next();
    mem[i] := Low(r);
  }

  lemma InsertOne(k: Machine, at: nat, count: nat)
    requires at + count <= |k.mem|
    ensures if count == 0 then InsertBytes(k, at, count) == k
            else InsertBytes(k, at, count) == InsertBytes(k.Next().Poke(at, Low(k.Draw())), at + 1, count - 1)
  {
    hide Low;
  }

  method MutateRandomBytesInsert(mem: array<bv8>, base: nat, len: nat, s: nat, n: nat, rand: Rand)
    requires base + len <= mem.Length
    modifies mem, rand
    ensures Now(mem, rand) == RandomBytesInsert(old(Now(mem, rand)), base, len, s, n)
  {
    hide Low, InsertBytes;
    if n + s > 8 * len { return; }
    var at := base + s / 8;
    ghost var result := InsertBytes(Now(mem, rand), at, n / 8);
    for i := 0 to n / 8
      invariant InsertBytes(Now(mem, rand), at + i, n / 8 - i) == result
    {
      InsertOne(Now(mem, rand), at + i, n / 8 - i);
      DrawByte(mem, at + i, rand);
    }
    InsertOne(Now(mem, rand), at + n / 8, 0);
  }

  method StoreWord(mem: array<bv8>, i: nat, v: nat, ghost rand: Rand)
    requires i + 2 <= mem.Length
    modifies mem
    ensures Now(mem, rand) == PokeWord(old(Now(mem, rand)), i, v)
  {
    mem[i] := Le(v, 2)[0];
    mem[i + 1] := Le(v, 2)[1];
  }

  method MutateArithmetic(mem: array<bv8>, base: nat, len: nat, s: nat, n: nat, rand: Rand)
    requires base + len <= mem.Length && 1 <= n
    modifies mem, rand
    ensures Now(mem, rand) == Arithmetic(old(Now(mem, rand)), base, len, s, n)
  {
    hide WordSum, ByteSum, UnLe, Le;
    if n + s > 8 * len { return; }
    var i := base + s / 8;
    var r := rand.Next();
    var rnd := r % ARITH_MAX + 1;
    r := rand.Next();
    var d: int := if r % 2 == 1 then rnd else -rnd;
    if n / 8 == 2 {
      StoreWord(mem, i, WordSum(Word16(mem[..], i), d), rand);
    } else {
      mem[i] := ByteSum(mem[i], d);
    }
  }

  method MutateBitsFlip(mem: array<bv8>, base: nat, len: nat, s: nat, n: nat, ghost rand: Rand)
    requires base + len <= mem.Length && 1 <= n <= 8
    modifies mem
    ensures Now(mem, rand) == FlipBits(old(Now(mem, rand)), base, len, s, n)
  {
    if n + s > 8 * len { return; }
    var i := base + s / 8;
    mem[i] := mem[i] ^ Shr(Bits(n), s % 8);
  }

  method MutateInterest(mem: array<bv8>, base: nat, len: nat, s: nat, n: nat, rand: Rand)
    requires base + len <= mem.Length && 1 <= n
    modifies mem, rand
    ensures Now(mem, rand) == Interest(old(Now(mem, rand)), base, len, s, n)
  {
    if n + s > 8 * len { return; }
    var i := base + s / 8;
    var r := rand.Next();
    if n / 8 == 2 {
      StoreWord(mem, i, INTERESTING_16[r % |INTERESTING_16|], rand);
    } else {
      mem[i] := ByteOf(INTERESTING_8[r % |INTERESTING_8|]);
    }
  }

  /** The switch of the havoc loop. */
  method MutateWith(mem: array<bv8>, base: nat, len: nat, op: nat, x: nat, y: nat, rand: Rand)
    requires base + len <= mem.Length && len > 0
    modifies mem, rand
    ensures Now(mem, rand) == HavocOp(old(Now(mem, rand)), base, len, op, x, y)
  {
    hide RandBits, RandomBytesInsert, Arithmetic, FlipBits, Interest, Framed;
    if op == 1 {
      MutateRandBits(mem, base, len, x % (8 * len), y % 8 + 1, rand);
    } else if op == 2 {
      var n := (y % (len - x % len) + 1) % 256;
      n := 8 * n % 256;
      MutateRandomBytesInsert(mem, base, len, 8 * (x % len), n, rand);
    } else if op == 3 {
      MutateArithmetic(mem, base, len, 8 * (x % len), 8 * (y % 2 + 1), rand);
    } else if op == 4 {
      MutateBitsFlip(mem, base, len, x % (8 * len), y % 8 + 1, rand);
    } else {
      MutateInterest(mem, base, len, 8 * (x % len), 8 * (y % 2 + 1), rand);
    }
  }

  /** The body of the havoc loop. */
  method MutateOnce(mem: array<bv8>, base: nat, len: nat, rand: Rand)
    requires base + len <= mem.Length && len > 0
    modifies mem, rand
    ensures Now(mem, rand) == HavocRound(old(Now(mem, rand)), base, len)
  {
    hide RandomByte, HavocOp, Framed;
    var op := rand.Next();
    if op % 6 == 0 {
      MutateRandomByte(mem, base, len, rand);
    } else {
      var x := rand.Next();
      var y := rand.Next();
      MutateWith(mem, base, len, op % 6, x, y, rand);
    }
  }

  method MutateHavoc(mem: array<bv8>, base: nat, len: nat, maxLen: nat, rand: Rand)
    requires base + len <= mem.Length
    modifies mem, rand
    ensures Now(mem, rand) == Havoc(old(Now(mem, rand)), base, len, maxLen)
  {
    hide HavocRound;
    if len > maxLen { return; }
    var r := rand.Next();
    var round := r % (len / 2 + 1);
    ghost var result := HavocRounds(Now(mem, rand), base, len, round);
    for i := 0 to round
      invariant HavocRounds(Now(mem, rand), base, len, round - i) == result
    {
      MutateOnce(mem, base, len, rand);
    }
  }
}
