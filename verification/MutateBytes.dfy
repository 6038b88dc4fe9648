/** What the byte and word operators of MutateOps do to the values in a block, and how far
    a havoc pass can reach. */
module MutateBytes {
  import opened ByteNumbers
  import opened LittleEndian
  import opened MutateOps

  /** `b` is `a` moved by `d`, up or down, around a circle of `width` values. */
  predicate Nudged(a: nat, b: nat, d: int, width: nat)
    requires width > 0
  {
    if d >= 0 then (b - a) % width == d else (a - b) % width == -d
  }

  lemma Around(x: int, width: nat, r: nat)
    requires r < width && width in {0x100, 0x1_0000} && x in {r, r + width, r - width}
    ensures x % width == r
  {
    if width == 0x100 {} else {}
  }

  lemma SumNudges(a: nat, d: int, width: nat)
    requires a < width && width in {0x100, 0x1_0000} && (1 <= d <= ARITH_MAX || 1 <= -d <= ARITH_MAX)
    ensures Nudged(a, (a + d) % width, d, width) && (a + d) % width != a
  {
    var b := if a + d < 0 then a + d + width else if a + d >= width then a + d - width else a + d;
    Around(a + d, width, b);
    if d > 0 { Around(b - a, width, d); } else { Around(a - b, width, -d); }
  }

  /** The draw of `mutate_arithmetic`: a distance up or down. */
  function Distance(k: Machine): int {
    var rnd := k.Draw() % ARITH_MAX + 1;
    if k.Next().Draw() % 2 == 1 then rnd else -rnd
  }

  lemma DistanceDrawn(k: Machine)
    ensures var d, first, second := Distance(k), k.draws(k.pos), k.draws(k.pos + 1);
      && (second % 2 == 1 ==> 1 <= d <= 50 && d == first % 50 + 1)
      && (second % 2 == 0 ==> -50 <= d <= -1 && -d == first % 50 + 1)
  {
  }

  /** `mutate_arithmetic` always changes the byte or the word it picks, by the distance of 1
      to 50 that the first draw gives, up if the second is odd, and nothing else; a range that
      does not fit draws nothing. */
  lemma ArithmeticNudges(k: Machine, base: nat, len: nat, s: nat, n: nat)
    requires base + len <= |k.mem| && 1 <= n
    ensures var r, i, d := Arithmetic(k, base, len, s, n), base + s / 8, Distance(k);
      if n + s > 8 * len then r == k
      else if n / 8 == 2 then
        && Nudged(Word16(k.mem, i), Word16(r.mem, i), d, 0x1_0000) && Word16(r.mem, i) != Word16(k.mem, i)
        && Framed(k.mem, r.mem, i, i + 2) && r.pos == k.pos + 2
      else
        && Nudged(k.mem[i] as nat, r.mem[i] as nat, d, 0x100) && r.mem[i] != k.mem[i]
        && Framed(k.mem, r.mem, i, i + 1) && r.pos == k.pos + 2
  {
    if n + s <= 8 * len {
      var i, d := base + s / 8, Distance(k);
      if n / 8 == 2 {
        WordNudge(k.Next().Next(), i, d);
      } else {
        ByteNudge(k.mem[i], d);
      }
      hide UnLe, Le, ByteSum, WordSum, Word16, PokeWord, Nudged;
    }
  }

  lemma ByteNudge(b: bv8, d: int)
    requires 1 <= d <= ARITH_MAX || 1 <= -d <= ARITH_MAX
    ensures Nudged(b as nat, ByteSum(b, d) as nat, d, 0x100) && ByteSum(b, d) != b
  {
    ByteWrites(b);
    var v := (b as nat + d) % 0x100;
    SumNudges(b as nat, d, 0x100);
    hide Nudged;
  }

  lemma WordNudge(k: Machine, i: nat, d: int)
    requires i + 2 <= |k.mem| && (1 <= d <= ARITH_MAX || 1 <= -d <= ARITH_MAX)
    ensures var w := Word16(k.mem, i);
      var w' := Word16(PokeWord(k, i, WordSum(w, d)).mem, i);
      Nudged(w, w', d, 0x1_0000) && w' != w
  {
    var w := Word16(k.mem, i);
    hide UnLe, Le, Nudged, WordSum;
    LoadBound(k.mem[i..i + 2]);
    Widths();
    WordSumNudges(w, d);
    WordOfStore(k, i, WordSum(w, d));
  }

  lemma WordSumNudges(w: nat, d: int)
    requires w < 0x1_0000 && (1 <= d <= ARITH_MAX || 1 <= -d <= ARITH_MAX)
    ensures Nudged(w, WordSum(w, d), d, 0x1_0000) && WordSum(w, d) != w && WordSum(w, d) < 0x1_0000
  {
    hide Nudged;
    SumNudges(w, d, 0x1_0000);
  }

  lemma WordOfStore(k: Machine, i: nat, v: nat)
    requires i + 2 <= |k.mem| && v < 0x1_0000
    ensures Word16(PokeWord(k, i, v).mem, i) == v
  {
    hide Le, UnLe;
    StoreLoad(v, 2);
    Widths();
    assert PokeWord(k, i, v).mem[i..i + 2] == Le(v, 2);
  }

  /** `mutate_interest` leaves the drawn one of the listed values in the byte or the word it
      picks. */
  lemma InterestListed(k: Machine, base: nat, len: nat, s: nat, n: nat)
    requires base + len <= |k.mem| && 1 <= n
    ensures var r, i, d := Interest(k, base, len, s, n), base + s / 8, k.draws(k.pos);
      if n + s > 8 * len then r == k
      else if n / 8 == 2 then
        Word16(r.mem, i) == INTERESTING_16[d % 19] && Framed(k.mem, r.mem, i, i + 2) && r.pos == k.pos + 1
      else
        r.mem[i] as nat == INTERESTING_8[d % 9] && Framed(k.mem, r.mem, i, i + 1) && r.pos == k.pos + 1
  {
    if n + s <= 8 * len {
      var i, w := base + s / 8, k.Draw() % |INTERESTING_16|;
      hide UnLe, Le, Word16, PokeWord;
      if n / 8 == 2 { ListedWord(k.Next(), i, w); }
    }
  }

  lemma ListedWord(k: Machine, i: nat, w: nat)
    requires i + 2 <= |k.mem| && w < |INTERESTING_16|
    ensures Word16(PokeWord(k, i, INTERESTING_16[w]).mem, i) == INTERESTING_16[w]
  {
    WordOfStore(k, i, INTERESTING_16[w]);
    hide UnLe, Le, Word16, PokeWord;
  }

  /** A byte or a word read as a signed number. */
  function Signed(v: nat, width: nat): int { if 2 * v < width then v else v - width }

  /** The listed values, as signed numbers, are those of the two tables. */
  lemma ListedValues(v: nat)
    ensures v in INTERESTING_8 <==> v < 0x100 && Signed(v, 0x100) in {-128, -1, 0, 1, 16, 32, 64, 100, 127}
    ensures v in INTERESTING_16 <==> (v < 0x1_0000 && Signed(v, 0x1_0000) in
      {-128, -1, 0, 1, 16, 32, 64, 100, 127, -32768, -129, 128, 255, 256, 512, 1000, 1024, 4096, 32767})
  {
  }

  /** `mutate_random_byte` leaves the low byte of its second draw at the place its first one
      gives, and takes no other draw. */
  lemma RandomByteMeaning(k: Machine, base: nat, len: nat)
    requires base + len <= |k.mem| && len > 0
    ensures var r, i := RandomByte(k, base, len), base + k.draws(k.pos) % len % 256;
      && |r.mem| == |k.mem| && r.mem[i] as nat == k.draws(k.pos + 1) % 256
      && (forall j :: 0 <= j < |k.mem| && j != i ==> r.mem[j] == k.mem[j])
      && r.pos == k.pos + 2 && r.draws == k.draws
  {
    hide ByteOf;
  }

  /** `mutate_random_bytes_insert` fills its range with draws in order and moves nothing. */
  lemma {:induction false} InsertedBytes(k: Machine, at: nat, count: nat, i: nat)
    requires at + count <= |k.mem| && i < count
    ensures InsertBytes(k, at, count).mem[at + i] == Low(k.draws(k.pos + i))
    ensures InsertBytes(k, at, count).pos == k.pos + count
    decreases count
  {
    hide Low;
    var k' := k.Next().Poke(at, Low(k.Draw()));
    if i > 0 {
      InsertedBytes(k', at + 1, count - 1, i - 1);
    } else if count > 1 {
      InsertedBytes(k', at + 1, count - 1, 0);
    }
  }

  /** It fills as many whole bytes as the bits asked for, from the byte of the first bit on,
      and changes nothing else; a range that does not fit draws nothing. */
  lemma RandomBytesInserted(k: Machine, base: nat, len: nat, s: nat, n: nat, j: nat)
    requires base + len <= |k.mem| && j < |k.mem|
    ensures var r, at := RandomBytesInsert(k, base, len, s, n), base + s / 8;
      if n + s > 8 * len then r == k
      else
        && r.pos == k.pos + n / 8 && |r.mem| == |k.mem|
        && (at <= j < at + n / 8 ==> r.mem[j] as nat == k.draws(k.pos + (j - at)) % 256)
        && (!(at <= j < at + n / 8) ==> r.mem[j] == k.mem[j])
  {
    hide InsertBytes;
    var at := base + s / 8;
    if n + s <= 8 * len {
      if n / 8 == 0 {
        NothingInserted(k, at);
      } else {
        InsertedBytes(k, at, n / 8, if at <= j < at + n / 8 then j - at else 0);
      }
    }
  }

  lemma NothingInserted(k: Machine, at: nat)
    requires at <= |k.mem|
    ensures InsertBytes(k, at, 0) == k
  {
  }

  // ---------- How far havoc reaches ----------

  /** The most bytes a round can change: the shift of the byte count in eight bits leaves at
      most 31 of the up to 255 bytes that were drawn. */
  const ROUND_REACH: nat := 31

  /** Whatever a round does, it does within a window of 31 bytes inside the block. */
  lemma RoundWindow(k: Machine, base: nat, len: nat) returns (lo: nat)
    requires base + len <= |k.mem| && len > 0
    ensures Framed(k.mem, HavocRound(k, base, len).mem, lo, lo + ROUND_REACH)
  {
    var op, a := k.Draw() % 6, k.Next();
    hide UnLe, Le, Low, Shr, Bits, RandByteIn, PokeWord, ByteSum, WordSum, Word16;
    if op == 0 {
      lo := base + a.Draw() % len % 256;
    } else if op == 1 || op == 4 {
      lo := base + a.Draw() % (8 * len) / 8;
    } else {
      var i := a.Draw() % len;
      lo := base + i;
      assert 8 * i / 8 == i;
    }
  }

  /** How many of the first `n` bytes differ. */
  function Changed(m: seq<bv8>, m': seq<bv8>, n: nat): nat
    requires n <= |m| == |m'|
  {
    if n == 0 then 0 else Changed(m, m', n - 1) + if m[n - 1] != m'[n - 1] then 1 else 0
  }

  lemma {:induction false} ChangedWithin(m: seq<bv8>, m': seq<bv8>, n: nat, lo: nat, hi: nat)
    requires n <= |m| && Framed(m, m', lo, hi) && lo <= hi
    ensures Changed(m, m', n) <= if n < lo then 0 else if n < hi then n - lo else hi - lo
  {
    if n > 0 {
      ChangedWithin(m, m', n - 1, lo, hi);
    }
  }

  lemma {:induction false} ChangedTriangle(a: seq<bv8>, b: seq<bv8>, c: seq<bv8>, n: nat)
    requires n <= |a| == |b| == |c|
    ensures Changed(a, c, n) <= Changed(a, b, n) + Changed(b, c, n)
  {
    if n > 0 {
      ChangedTriangle(a, b, c, n - 1);
    }
  }

  lemma {:induction false} RoundsChange(k: Machine, base: nat, len: nat, rounds: nat)
    requires base + len <= |k.mem| && len > 0
    ensures Changed(k.mem, HavocRounds(k, base, len, rounds).mem, |k.mem|) <= ROUND_REACH * rounds
    decreases rounds
  {
    hide HavocRound;
    if rounds == 0 {
      ChangedWithin(k.mem, k.mem, |k.mem|, 0, 0);
    } else {
      var k' := HavocRound(k, base, len);
      var lo := RoundWindow(k, base, len);
      ChangedWithin(k.mem, k'.mem, |k.mem|, lo, lo + ROUND_REACH);
      RoundsChange(k', base, len, rounds - 1);
      ChangedTriangle(k.mem, k'.mem, HavocRounds(k', base, len, rounds - 1).mem, |k.mem|);
    }
  }

  /** How many rounds `mutate_havoc` draws: at most half the length, so none on a block of
      less than two bytes. */
  function Rounds(k: Machine, len: nat, maxLen: nat): (n: nat)
    ensures n <= len / 2
  {
    if len > maxLen then 0 else k.Draw() % (len / 2 + 1)
  }

  /** `mutate_havoc` changes nothing outside its block, and at most 31 bytes in it for every
      round drawn, however large the block. */
  lemma HavocChanges(k: Machine, base: nat, len: nat, maxLen: nat)
    requires base + len <= |k.mem|
    ensures var m := Havoc(k, base, len, maxLen).mem;
      Framed(k.mem, m, base, base + len) && Changed(k.mem, m, |k.mem|) <= ROUND_REACH * Rounds(k, len, maxLen)
  {
    hide HavocRounds;
    if Rounds(k, len, maxLen) == 0 {
      ChangedWithin(k.mem, k.mem, |k.mem|, 0, 0);
      NoRounds(k.Next(), base, len);
    } else {
      RoundsChange(k.Next(), base, len, Rounds(k, len, maxLen));
    }
  }

  lemma NoRounds(k: Machine, base: nat, len: nat)
    requires base + len <= |k.mem|
    ensures HavocRounds(k, base, len, 0) == k
  {
  }
}
