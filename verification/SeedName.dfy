/** The names `save_if_interesting` gives to seed files (blueman-main/coverage.c):
    `<dir>/id_%08u_%016u_%06u` of the run's coverage, the execution number and
    the number of seeds queued so far. */
module SeedName {

  /** `output_seed_path`, as blueman-main/btfuzz.c builds it. */
  const SEED_DIR := "./output/seed/"

  function Digit(d: nat): char
    requires d < 10
  {
    '0' + d as char
  }

  function Decimal(n: nat): (s: string)
    ensures |s| > 0
  {
    if n < 10 then [Digit(n)] else Decimal(n / 10) + [Digit(n % 10)]
  }

  /** `%0<w>u`: zeros in front up to width `w`, never a truncation. */
  function Padded(s: string, w: nat): (r: string)
    ensures |r| == if |s| < w then w else |s|
    decreases w - |s|
  {
    if |s| >= w then s else Padded("0" + s, w)
  }

  function Of(cov: nat, round: nat, queued: nat): string {
    SEED_DIR + "/id_" + Padded(Decimal(cov), 8) + "_" + Padded(Decimal(round), 16) + "_" + Padded(Decimal(queued), 6)
  }

  predicate Digits(s: string) { forall i :: 0 <= i < |s| ==> '0' <= s[i] <= '9' }

  function Value(s: string): nat
    requires Digits(s)
  {
    if s == "" then 0 else 10 * Value(s[..|s| - 1]) + (s[|s| - 1] as nat - '0' as nat)
  }

  lemma {:induction false} DecimalReads(n: nat)
    ensures Digits(Decimal(n)) && Value(Decimal(n)) == n
  {
    if n >= 10 {
      DecimalReads(n / 10);
      assert Decimal(n)[..|Decimal(n)| - 1] == Decimal(n / 10);
    }
  }

  lemma {:induction false} LeadingZero(s: string)
    requires Digits(s)
    ensures Digits("0" + s) && Value("0" + s) == Value(s)
  {
    if s != "" {
      LeadingZero(s[..|s| - 1]);
      assert ("0" + s)[..|s|] == "0" + s[..|s| - 1];
    } else {
      assert "0" + s == "0";
    }
  }

  lemma {:induction false} PaddedReads(s: string, w: nat)
    requires Digits(s)
    ensures Digits(Padded(s, w)) && Value(Padded(s, w)) == Value(s)
    decreases w - |s|
  {
    if |s| < w {
      LeadingZero(s);
      PaddedReads("0" + s, w);
    }
  }

  /** A number field reads back. */
  lemma FieldReads(n: nat, w: nat)
    ensures Digits(Padded(Decimal(n), w)) && Value(Padded(Decimal(n), w)) == n
  {
    DecimalReads(n);
    PaddedReads(Decimal(n), w);
  }

  /** The last underscore splits a name uniquely when only digits follow it. */
  lemma LastField(x: string, a: string, y: string, b: string)
    requires Digits(a) && Digits(b)
    requires x + "_" + a == y + "_" + b
    ensures x == y && a == b
  {
    var s := x + "_" + a;
    assert s[|x|] == '_' && s[|y|] == '_';
    assert |a| == |b|;
    assert a == s[|s| - |a|..] && b == s[|s| - |b|..];
    assert x == s[..|x|] && y == s[..|y|];
  }

  /** Equal names carry equal numbers: names are distinct as soon as any number differs. */
  lemma Injective(c: nat, r: nat, q: nat, c': nat, r': nat, q': nat)
    requires Of(c, r, q) == Of(c', r', q')
    ensures c == c' && r == r' && q == q'
  {
    FieldReads(c, 8); FieldReads(r, 16); FieldReads(q, 6);
    FieldReads(c', 8); FieldReads(r', 16); FieldReads(q', 6);
    var pc, pr, pq := Padded(Decimal(c), 8), Padded(Decimal(r), 16), Padded(Decimal(q), 6);
    var pc', pr', pq' := Padded(Decimal(c'), 8), Padded(Decimal(r'), 16), Padded(Decimal(q'), 6);
    var d := SEED_DIR + "/id_";
    LastField(d + pc + "_" + pr, pq, d + pc' + "_" + pr', pq');
    LastField(d + pc, pr, d + pc', pr');
    assert pc == (d + pc)[|d|..] && pc' == (d + pc')[|d|..];
  }

  /** Where the numbers of a name lie, if each fits its field. */
  lemma Layout(c: nat, r: nat, q: nat)
    requires c < 100_000_000 && r < 10_000_000_000_000_000 && q < 1_000_000
    ensures var n := Of(c, r, q);
      && |n| == 50 && n[..18] == "./output/seed//id_" && n[26] == n[43] == '_'
      && Digits(n[18..26]) && Value(n[18..26]) == c
      && Digits(n[27..43]) && Value(n[27..43]) == r
      && Digits(n[44..]) && Value(n[44..]) == q
  {
    Powers();
    DecimalLength(c, 8); DecimalLength(r, 16); DecimalLength(q, 6);
    FieldReads(c, 8); FieldReads(r, 16); FieldReads(q, 6);
    var pc, pr, pq := Padded(Decimal(c), 8), Padded(Decimal(r), 16), Padded(Decimal(q), 6);
    hide Padded, Decimal, Value, Digits;
    Parts(SEED_DIR + "/id_", pc, pr, pq);
  }

  lemma Parts(d: string, a: string, b: string, c: string)
    requires |d| == 18 && |a| == 8 && |b| == 16 && |c| == 6
    ensures var n := d + a + "_" + b + "_" + c;
      && |n| == 50 && n[..18] == d && n[18..26] == a && n[26] == n[43] == '_' && n[27..43] == b && n[44..] == c
  {
  }

  lemma Powers()
    ensures Pow10(6) == 1_000_000 && Pow10(8) == 100_000_000 && Pow10(10) == 10_000_000_000
    ensures Pow10(16) == 10_000_000_000_000_000
  {
    assert Pow10(5) == 100_000;
    assert Pow10(7) == 10_000_000;
    assert Pow10(9) == 1_000_000_000;
    assert Pow10(11) == 100_000_000_000;
    assert Pow10(12) == 1_000_000_000_000;
    assert Pow10(13) == 10_000_000_000_000;
    assert Pow10(14) == 100_000_000_000_000;
    assert Pow10(15) == 1_000_000_000_000_000;
  }

  /** Digit `k` from the right is the decimal one. */
  lemma {:induction false} DecimalDigits(n: nat, k: nat)
    requires k < |Decimal(n)|
    ensures Decimal(n)[|Decimal(n)| - 1 - k] as nat - '0' as nat == n / Pow10(k) % 10
    decreases k
  {
    if k > 0 {
      DecimalDigits(n / 10, k - 1);
      DivTwice(n, Pow10(k - 1));
    }
  }

  lemma DivTwice(n: nat, p: nat)
    requires p > 0
    ensures n / 10 / p == n / (10 * p)
  {
    var t, q := n / 10, n / 10 / p;
    assert t == p * q + t % p;
    assert n == 10 * t + n % 10;
    assert n == (10 * p) * q + (10 * (t % p) + n % 10);
    Quotient(n, 10 * p, q, 10 * (t % p) + n % 10);
  }

  lemma Quotient(n: nat, m: nat, q: nat, r: nat)
    requires r < m && n == m * q + r
    ensures n / m == q
  {
    var t: int := n % m;
    var p, d: int := n / m, n / m - q;
    assert n == m * p + t;
    assert m * d == m * p - m * q;
    Multiple(m, d);
  }

  lemma Multiple(m: int, d: int)
    requires m > 0
    ensures d == 0 || m * d >= m || m * d <= -m
  {
  }

  lemma {:induction false} DecimalLength(n: nat, w: nat)
    requires w > 0 && n < Pow10(w)
    ensures |Decimal(n)| <= w
    decreases w
  {
    if n >= 10 {
      DecimalLength(n / 10, w - 1);
    }
  }

  function Pow10(w: nat): (p: nat)
    ensures p > 0
  {
    if w == 0 then 1 else 10 * Pow10(w - 1)
  }

  /** With 32-bit numbers a name is far shorter than the 300-byte buffer it is printed
      into, so `snprintf` never cuts it. */
  lemma FitsBuffer(c: nat, r: nat, q: nat)
    requires c < 0x1_0000_0000 && r < 0x1_0000_0000 && q < 0x1_0000_0000
    ensures |Of(c, r, q)| < 300
  {
    Powers();
    DecimalLength(c, 10);
    DecimalLength(r, 10);
    DecimalLength(q, 10);
  }
}
