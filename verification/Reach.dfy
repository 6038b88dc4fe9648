/** What the mutators can do to a packet: that some draws lead to any given result within
    their reach. */
module Reach {
  import opened ByteNumbers
  import opened Packet
  import opened MutateOps
  import opened HavocCases
  import opened FieldCases
  import opened FieldMutator
  import opened FieldLimits

  /** A byte to write, at a place in a block. */
  datatype Edit = Edit(at: nat, to: bv8)

  predicate Inside(edits: seq<Edit>, len: nat) { forall i :: 0 <= i < |edits| ==> edits[i].at < len }

  function Applied(m: seq<bv8>, base: nat, len: nat, edits: seq<Edit>): (r: seq<bv8>)
    requires base + len <= |m| && Inside(edits, len)
    ensures |r| == |m|
    decreases |edits|
  {
    if edits == [] then m else Applied(m[base + edits[0].at := edits[0].to], base, len, edits[1..])
  }

  /** The edits that turn a block of `m` into the one of `t`: one for every byte that differs. */
  function Edits(m: seq<bv8>, t: seq<bv8>, base: nat, len: nat): (edits: seq<Edit>)
    requires base + len <= |m| == |t|
    ensures Inside(edits, len) && |edits| <= len
  {
    if len == 0 then []
    else
      var front := Edits(m, t, base, len - 1);
      if m[base + len - 1] == t[base + len - 1] then front else front + [Edit(len - 1, t[base + len - 1])]
  }

  lemma {:induction false} AppliedSnoc(m: seq<bv8>, base: nat, len: nat, edits: seq<Edit>, e: Edit)
    requires base + len <= |m| && Inside(edits, len) && e.at < len
    ensures Inside(edits + [e], len)
    ensures Applied(m, base, len, edits + [e]) == Applied(m, base, len, edits)[base + e.at := e.to]
    decreases |edits|
  {
    if edits != [] {
      AppliedSnoc(m[base + edits[0].at := edits[0].to], base, len, edits[1..], e);
      assert (edits + [e])[1..] == edits[1..] + [e];
    }
  }

  lemma {:induction false} AppliedWider(m: seq<bv8>, base: nat, len: nat, wide: nat, edits: seq<Edit>)
    requires base + wide <= |m| && Inside(edits, len) && len <= wide
    ensures Applied(m, base, wide, edits) == Applied(m, base, len, edits)
    decreases |edits|
  {
    if edits != [] {
      AppliedWider(m[base + edits[0].at := edits[0].to], base, len, wide, edits[1..]);
    }
  }

  /** An image with a block of another in it. */
  function Grafted<T>(m: seq<T>, t: seq<T>, base: nat, len: nat): (r: seq<T>)
    requires base + len <= |m| == |t|
    ensures |r| == |m|
  {
    m[..base] + t[base..base + len] + m[base + len..]
  }

  lemma LongerGraft<T>(m: seq<T>, t: seq<T>, base: nat, len: nat)
    requires 0 < len && base + len <= |m| == |t|
    ensures Grafted(m, t, base, len) == Grafted(m, t, base, len - 1)[base + len - 1 := t[base + len - 1]]
  {
  }

  lemma SameGraft<T>(m: seq<T>, t: seq<T>, base: nat, len: nat)
    requires 0 < len && base + len <= |m| == |t| && m[base + len - 1] == t[base + len - 1]
    ensures Grafted(m, t, base, len) == Grafted(m, t, base, len - 1)
  {
  }

  lemma NoGraft<T>(m: seq<T>, t: seq<T>, base: nat)
    requires base <= |m| == |t|
    ensures Grafted(m, t, base, 0) == m
  {
  }

  lemma EditsLast(m: seq<bv8>, t: seq<bv8>, base: nat, len: nat)
    requires 0 < len && base + len <= |m| == |t|
    ensures var front, e := Edits(m, t, base, len - 1), Edit(len - 1, t[base + len - 1]);
      Edits(m, t, base, len) == if m[base + len - 1] == t[base + len - 1] then front else front + [e]
  {
  }

  lemma {:induction false} EditsApply(m: seq<bv8>, t: seq<bv8>, base: nat, len: nat)
    requires base + len <= |m| == |t|
    ensures Applied(m, base, len, Edits(m, t, base, len)) == Grafted(m, t, base, len)
  {
    if len == 0 {
      NoGraft(m, t, base);
    } else {
      hide Applied, Edits, Inside, Grafted;
      var front, e := Edits(m, t, base, len - 1), Edit(len - 1, t[base + len - 1]);
      EditsLast(m, t, base, len);
      EditsApply(m, t, base, len - 1);
      FrontInside(front, len);
      AppliedWider(m, base, len - 1, len, front);
      if m[base + len - 1] != t[base + len - 1] {
        AppliedSnoc(m, base, len, front, e);
        LongerGraft(m, t, base, len);
      } else {
        SameGraft(m, t, base, len);
      }
    }
  }

  lemma FrontInside(front: seq<Edit>, len: nat)
    requires len > 0 && Inside(front, len - 1)
    ensures Inside(front, len)
  {
  }

  /** The draws from `pos` on begin with a script. */
  ghost predicate Follows(draws: nat -> nat, pos: nat, script: seq<nat>) {
    forall j :: 0 <= j < |script| ==> draws(pos + j) == script[j]
  }

  /** Draws that follow a script and go on with zeros. */
  function Playing(script: seq<nat>): nat -> nat {
    (i: nat) => if i < |script| then script[i] else 0
  }

  lemma Plays(head: seq<nat>, rest: seq<nat>, draws: nat -> nat)
    requires draws == Playing(head + rest)
    ensures forall j :: 0 <= j < |head| ==> draws(j) == head[j]
    ensures Follows(draws, |head|, rest)
  {
    forall j | 0 <= j < |rest| ensures draws(|head| + j) == rest[j] {
      assert (head + rest)[|head| + j] == rest[j];
    }
  }

  /** One havoc round of the first case for every edit. */
  function Script(edits: seq<Edit>): seq<nat> {
    if edits == [] then [] else [0, edits[0].at, edits[0].to as nat] + Script(edits[1..])
  }

  lemma RoundApplies(k: Machine, base: nat, len: nat, e: Edit)
    requires base + len <= |k.mem| && e.at < len <= 256
    requires Drawn(k, 0) == 0 && Drawn(k, 1) == e.at && Drawn(k, 2) == e.to as nat
    ensures var r := HavocRound(k, base, len);
      r.mem == k.mem[base + e.at := e.to] && r.pos == k.pos + 3 && r.draws == k.draws
  {
    ByteCase(k, base, len);
    SmallRemainder(e.at, len);
    CastBack(e.to);
    hide HavocRound, ByteOf;
    var r := HavocRound(k, base, len);
    SameByte(r.mem[base + e.at], e.to);
  }

  lemma FollowsOn(draws: nat -> nat, pos: nat, a: seq<nat>, b: seq<nat>)
    requires Follows(draws, pos, a + b)
    ensures Follows(draws, pos, a) && Follows(draws, pos + |a|, b)
  {
    forall j | 0 <= j < |a| ensures draws(pos + j) == a[j] {
      assert (a + b)[j] == a[j];
    }
    forall j | 0 <= j < |b| ensures draws(pos + |a| + j) == b[j] {
      assert (a + b)[|a| + j] == b[j];
    }
  }

  lemma {:induction false} RoundsApply(k: Machine, base: nat, len: nat, edits: seq<Edit>)
    requires base + len <= |k.mem| && 0 < len <= 256 && Inside(edits, len)
    requires Follows(k.draws, k.pos, Script(edits))
    ensures HavocRounds(k, base, len, |edits|).mem == Applied(k.mem, base, len, edits)
    decreases |edits|
  {
    hide HavocRound, Follows;
    if edits != [] {
      var e := edits[0];
      FollowsOn(k.draws, k.pos, [0, e.at, e.to as nat], Script(edits[1..]));
      FirstThree(k.draws, k.pos, 0, e.at, e.to as nat);
      RoundApplies(k, base, len, e);
      RoundsApply(HavocRound(k, base, len), base, len, edits[1..]);
    }
  }

  lemma FirstThree(draws: nat -> nat, pos: nat, a: nat, b: nat, c: nat)
    requires Follows(draws, pos, [a, b, c])
    ensures draws(pos) == a && draws(pos + 1) == b && draws(pos + 2) == c
  {
    assert [a, b, c][0] == a && [a, b, c][1] == b && [a, b, c][2] == c;
    assert draws(pos + 0) == a;
  }

  lemma Patched(m: seq<bv8>, t: seq<bv8>, base: nat, len: nat)
    requires base + len <= |m| == |t| && Framed(m, t, base, base + len)
    ensures Applied(m, base, len, Edits(m, t, base, len)) == t
  {
    EditsApply(m, t, base, len);
    hide Applied, Edits;
    assert Grafted(m, t, base, len) == t;
  }

  lemma DrawnRounds(k: Machine, rounds: nat, rest: seq<nat>, base: nat, len: nat)
    requires base + len <= |k.mem| && 0 < len <= PKT_MAX && rounds <= len / 2
    requires Follows(k.draws, k.pos, [rounds] + rest)
    ensures Follows(k.draws, k.pos + 1, rest)
    ensures Havoc(k, base, len, PKT_MAX) == HavocRounds(k.Next(), base, len, rounds)
  {
    FollowsOn(k.draws, k.pos, [rounds], rest);
    assert k.draws(k.pos + 0) == [rounds][0];
    SmallRemainder(rounds, len / 2 + 1);
    hide HavocRounds, Follows;
  }

  /** Havoc can turn a block into any that differs in at most half of its bytes. */
  lemma HavocReaches(k: Machine, t: seq<bv8>, base: nat, len: nat)
    requires base + len <= |k.mem| == |t| && 0 < len <= PKT_MAX && Framed(k.mem, t, base, base + len)
    requires var edits := Edits(k.mem, t, base, len);
      |edits| <= len / 2 && Follows(k.draws, k.pos, [|edits|] + Script(edits))
    ensures Havoc(k, base, len, PKT_MAX).mem == t
  {
    hide HavocRounds, Havoc, Edits, Follows, Script;
    var edits := Edits(k.mem, t, base, len);
    DrawnRounds(k, |edits|, Script(edits), base, len);
    RoundsApply(k.Next(), base, len, edits);
    Patched(k.mem, t, base, len);
  }

  lemma SameSlice<T>(a: seq<T>, b: seq<T>, lo: nat, hi: nat)
    requires lo <= hi <= |a| && hi <= |b| && forall i :: lo <= i < hi ==> a[i] == b[i]
    ensures a[lo..hi] == b[lo..hi]
  {
  }

  // ---------- The field-aware mutator ----------

  /** A byte sequence written over an image. */
  function Over(m: seq<bv8>, at: nat, s: seq<bv8>): (r: seq<bv8>)
    requires at + |s| <= |m|
    ensures |r| == |m| && Framed(m, r, at, at + |s|) && r[at..at + |s|] == s
  {
    m[..at] + s + m[at + |s|..]
  }

  /** How many bytes of an image differ from those written over it. */
  function Differing(m: seq<bv8>, at: nat, s: seq<bv8>): nat
    requires at + |s| <= |m|
  {
    |Edits(m, Over(m, at, s), at, |s|)|
  }

  lemma OneDiffers(m: seq<bv8>, at: nat, p: seq<bv8>, i: nat)
    requires at + |p| <= |m| && i < |p| && p == m[at..at + |p|][i := p[i]]
    ensures Differing(m, at, p) <= 1
  {
    hide Edits;
    var t := Over(m, at, p);
    forall x | at <= x < at + |p| && x != at + i ensures t[x] == m[x] {
      assert t[x] == t[at..at + |p|][x - at] == p[x - at] == m[at + (x - at)];
    }
    EditsOfOne(m, t, at, |p|, at + i);
  }

  lemma {:induction false} EditsOfOne(m: seq<bv8>, t: seq<bv8>, at: nat, len: nat, i: nat)
    requires at + len <= |m| == |t| && forall x :: at <= x < at + len && x != i ==> t[x] == m[x]
    ensures |Edits(m, t, at, len)| <= if i < at + len then 1 else 0
  {
    if len > 0 { EditsOfOne(m, t, at, len - 1, i); }
  }

  /** A data header that keeps the two sequence bits, an advertising one that keeps the top
      four bits, and the draws that lead there from any other. */
  predicate KeepsSequence(b: bv8, h: bv8) { h & 0x0c == b & 0x0c }
  predicate KeepsTop(b: bv8, h: bv8) { h & 0xf0 == b & 0xf0 }
  function TwoOnTop(h: bv8): bv8 { h << 6 }
  function FourOnTop(h: bv8): bv8 { h << 4 }

  lemma HeaderBits(b: bv8, h: bv8)
    ensures KeepsSequence(b, h) ==> RandByteIn(RandByteIn(b, TwoOnTop(h), 6, 2), h, 0, 4) == h
    ensures KeepsTop(b, h) ==> RandByteIn(b, FourOnTop(h), 4, 4) == h
  {
  }

  /** A draw for a byte. */
  function LowOf(b: bv8): (n: nat)
    ensures Low(n) == b
  {
    CastBack(b);
    SameByte(Low(b as nat), b);
    b as nat
  }

  lemma DataHeaderReaches(k: Machine, h: bv8)
    requires |k.mem| == SIZE && KeepsSequence(k.mem[LL_HEADER], h)
    requires Drawn(k, 0) % 100 < 30 && Low(Drawn(k, 1)) == TwoOnTop(h) && Low(Drawn(k, 2)) == h
    ensures var r := LLDataHeader(k); r.mem == k.mem[LL_HEADER := h] && r.pos == k.pos + 3 && r.draws == k.draws
  {
    assert LL_HEADER < |k.mem|;
    hide *;
    HeaderBits(k.mem[LL_HEADER], h);
    DataHeaderDrawn(k);
  }

  lemma AdvHeaderReaches(k: Machine, h: bv8)
    requires |k.mem| == SIZE && KeepsTop(k.mem[LL_HEADER], h)
    requires Drawn(k, 0) % 100 < 10 && Low(Drawn(k, 1)) == FourOnTop(h)
    ensures var r := LLAdvHeader(k); r.mem == k.mem[LL_HEADER := h] && r.pos == k.pos + 2 && r.draws == k.draws
  {
    assert LL_HEADER < |k.mem|;
    hide *;
    HeaderBits(k.mem[LL_HEADER], h);
    AdvHeaderDrawn(k);
  }

  lemma EditsSame(m: seq<bv8>, m': seq<bv8>, t: seq<bv8>, t': seq<bv8>, base: nat, len: nat)
    requires base + len <= |m| == |m'| == |t| == |t'|
    requires forall i :: base <= i < base + len ==> m'[i] == m[i] && t'[i] == t[i]
    ensures Edits(m', t', base, len) == Edits(m, t, base, len)
  {
    if len > 0 { EditsSame(m, m', t, t', base, len - 1); }
  }

  /** Havoc on the payload `p` of an image `m` whose bytes there are still those of `was`. */
  lemma PayloadReaches(k: Machine, was: seq<bv8>, at: nat, p: seq<bv8>)
    requires at + |p| <= |k.mem| == |was| && 0 < |p| <= PKT_MAX
    requires forall i :: at <= i < at + |p| ==> k.mem[i] == was[i]
    requires var edits := Edits(was, Over(was, at, p), at, |p|);
      |edits| <= |p| / 2 && Follows(k.draws, k.pos, [|edits|] + Script(edits))
    ensures Havoc(k, at, |p|, PKT_MAX).mem == Over(k.mem, at, p)
  {
    hide Edits, Follows, Script, Havoc;
    var t := Over(k.mem, at, p);
    forall i | at <= i < at + |p| ensures t[i] == Over(was, at, p)[i] {
      assert t[i] == p[i - at] && Over(was, at, p)[i] == p[i - at];
    }
    hide Over;
    EditsSame(was, k.mem, Over(was, at, p), t, at, |p|);
    HavocReaches(k, t, at, |p|);
  }
}
