/** Bytes as numbers below 256. */
module ByteNumbers {

  /** The byte of a number. */
  function ByteOf(n: nat): (b: bv8)
    requires n < 256
    ensures b as nat == n
  {
    if n == 0 then 0
    else
      var before := ByteOf(n - 1);
      NextByte(before);
      before + 1
  }

  lemma NextByte(b: bv8)
    requires b as nat < 255
    ensures (b + 1) as nat == b as nat + 1
  {
  }

  lemma CastBack(b: bv8)
    ensures b as nat < 256 && (b as nat) as bv8 == b
  {
  }

  lemma SameByte(a: bv8, b: bv8)
    requires a as nat == b as nat
    ensures a == b
  {
    CastBack(a);
    CastBack(b);
  }

  lemma ByteWrites(b: bv8)
    ensures b as nat < 256 && ByteOf(b as nat) == b
  {
    CastBack(b);
    SameByte(ByteOf(b as nat), b);
  }
}

/** Little-endian images of unsigned integers, as the x86-64 stores and loads of the
    program make them. */
module LittleEndian {
  import opened ByteNumbers

  function Pow256(n: nat): (p: nat)
    ensures p > 0
  {
    if n == 0 then 1 else 256 * Pow256(n - 1)
  }

  /** The low `n` bytes of `v`. */
  function Le(v: nat, n: nat): (s: seq<bv8>)
    ensures |s| == n
  {
    if n == 0 then [] else [ByteOf(v % 256)] + Le(v / 256, n - 1)
  }

  /** The number some bytes hold. */
  function UnLe(s: seq<bv8>): nat {
    if s == [] then 0 else s[0] as nat + 256 * UnLe(s[1..])
  }

  /** Storing keeps a number up to the width of the store. */
  lemma {:induction false} StoreLoad(v: nat, n: nat)
    ensures UnLe(Le(v, n)) == v % Pow256(n)
  {
    if n > 0 {
      StoreLoad(v / 256, n - 1);
      ModSplit(v, Pow256(n - 1));
      assert Le(v, n)[1..] == Le(v / 256, n - 1);
    }
  }

  lemma ModSplit(v: nat, p: nat)
    requires p > 0
    ensures v % (256 * p) == v % 256 + 256 * (v / 256 % p)
  {
    var q := v / 256;
    assert v == 256 * q + v % 256;
    var a, b := q / p, q % p;
    assert q == p * a + b;
    assert v == (256 * p) * a + (256 * b + v % 256);
    assert 256 * b + v % 256 < 256 * p;
    Residue(v, 256 * p, a, 256 * b + v % 256);
  }

  lemma Residue(v: nat, m: nat, a: nat, r: nat)
    requires m > 0 && v == m * a + r && r < m
    ensures v % m == r
  {
    var d, w: int := v / m - a, m;
    assert v == m * (v / m) + v % m;
    assert m * d == r - v % m by {
      assert m * d == m * (v / m) - m * a;
    }
    assert -w < m * d < w;
  }

  lemma {:induction false} LoadBound(s: seq<bv8>)
    ensures UnLe(s) < Pow256(|s|)
  {
    if s != [] {
      LoadBound(s[1..]);
      CastBack(s[0]);
    }
  }

  lemma LowFirst(s: seq<bv8>)
    requires s != []
    ensures UnLe(s) % 0x100 == s[0] as nat
  {
    CastBack(s[0]);
    Residue(UnLe(s), 0x100, UnLe(s[1..]), s[0] as nat);
  }

  /** The low half of a number lies in its first two bytes. */
  lemma LowHalf(s: seq<bv8>)
    requires |s| >= 2
    ensures UnLe(s) % 0x1_0000 == s[0] as nat + 256 * s[1] as nat
  {
    CastBack(s[0]);
    CastBack(s[1]);
    var a, b, n := s[0] as nat, s[1] as nat, UnLe(s[2..]);
    assert UnLe(s[1..]) == b + 256 * n by { assert s[1..][1..] == s[2..]; }
    assert UnLe(s) == 0x1_0000 * n + (a + 256 * b);
    Residue(UnLe(s), 0x1_0000, n, a + 256 * b);
  }

  lemma LowByte(x: nat, y: nat, n: nat)
    requires x < 256 && n > 0
    ensures Le(x + 256 * y, n) == [ByteOf(x)] + Le(y, n - 1)
  {
    hide ByteOf;
    Residue(x + 256 * y, 256, y, x);
    assert (x + 256 * y) / 256 == y;
  }

  lemma StoreFirst(b: bv8, y: nat, n: nat)
    requires n > 0
    ensures Le(b as nat + 256 * y, n) == [b] + Le(y, n - 1)
  {
    hide Le, ByteOf;
    ByteWrites(b);
    LowByte(b as nat, y, n);
  }

  lemma Unload(s: seq<bv8>)
    requires s != []
    ensures UnLe(s) == s[0] as nat + 256 * UnLe(s[1..])
  {
  }

  /** Loading and storing back writes the bytes that were there. */
  lemma {:induction false} LoadStore(s: seq<bv8>)
    ensures Le(UnLe(s), |s|) == s
  {
    if s != [] {
      hide Le, UnLe;
      LoadStore(s[1..]);
      Unload(s);
      StoreFirst(s[0], UnLe(s[1..]), |s|);
      assert [s[0]] + s[1..] == s;
    }
  }

  lemma Widths()
    ensures Pow256(1) == 0x100 && Pow256(2) == 0x1_0000
    ensures Pow256(4) == 0x1_0000_0000 && Pow256(8) == 0x1_0000_0000_0000_0000
  {
    assert Pow256(3) == 0x100_0000;
    assert Pow256(5) == 0x100_0000_0000;
    assert Pow256(6) == 0x1_0000_0000_0000;
  }

  /** A 32-bit field reads back what was stored in it, whatever the width of the store. */
  lemma FieldReads(v: nat, n: nat)
    requires v < 0x1_0000_0000 && n in {4, 8}
    ensures UnLe(Le(v, n)) == v
  {
    hide Le, UnLe;
    StoreLoad(v, n);
    Widths();
  }
}
