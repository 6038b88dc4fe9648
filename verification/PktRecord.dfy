/** The packet recorder of blueman-main/pkt_record.c and its two file formats. */
module PktRecord {
  import opened LittleEndian
  import opened Packet

  // ---------- The field-by-field format ----------

  /** One packet as `save_seq_buf_to_file1` writes it.  The stored payload length is the
      32-bit difference `len - 5`, so it wraps when `len < 5`. */
  function Line(p: BlePkt): (s: seq<bv8>)
    requires p.len <= PKT_MAX
    ensures |s| == 24 + p.len
  {
    Le(p.address, 4) + Le(p.maxPayloadLen, 8) + Le((p.len - 5) % 0x1_0000_0000, 8) + p.pkt[..p.len] + Le(p.deviceId, 4)
  }

  ghost predicate Writable(pkts: seq<BlePkt>) {
    forall i :: 0 <= i < |pkts| ==> pkts[i].len <= PKT_MAX
  }

  function Text(pkts: seq<BlePkt>): seq<bv8>
    requires Writable(pkts)
  {
    if pkts == [] then [] else Line(pkts[0]) + Text(pkts[1..])
  }

  function TotalLen(pkts: seq<BlePkt>): nat {
    if pkts == [] then 0 else pkts[0].len + TotalLen(pkts[1..])
  }

  /** `k` bytes of a mapped file at offset `o`; the mapping reads as zero behind the file. */
  function Bytes(mem: seq<bv8>, o: nat, k: nat): (s: seq<bv8>)
    ensures |s| == k
  {
    seq(k, i requires 0 <= i < k => if o + i < |mem| then mem[o + i] else 0)
  }

  function Word32(mem: seq<bv8>, o: nat): u32 {
    LoadBound(Bytes(mem, o, 4));
    Widths();
    UnLe(Bytes(mem, o, 4))
  }

  /** What the parser leaves: the buffer, the packet count, and whether it ran past the
      end of a packet's bytes or of the buffer (undefined in C; the model stops there). */
  datatype Parsed = Parsed(buf: seq<BlePkt>, count: nat, overrun: bool)

  /** The payload length field as the parser widens it, `(uint32_t)(tmp + 2 + 3)`. */
  function StoredLen(mem: seq<bv8>, n: nat): u32 {
    (UnLe(Bytes(mem, n + 12, 8)) + 5) % 0x1_0000_0000
  }

  /** Slot contents after the four copies that precede the bounds check. */
  function Overlay(slot: BlePkt, mem: seq<bv8>, n: nat): (r: BlePkt)
    requires StoredLen(mem, n) <= PKT_MAX
    ensures r.len == StoredLen(mem, n)
  {
    var len := StoredLen(mem, n);
    slot.(address := Word32(mem, n), maxPayloadLen := UnLe(Bytes(mem, n + 4, 8)) % 0x1_0000_0000,
          len := len, pkt := Bytes(mem, n + 20, len) + slot.pkt[len..])
  }

  /** The loop of `copy_file_to_seq_buf1` from offset `n` with `count` packets read. */
  function ParseFrom(buf: seq<BlePkt>, mem: seq<bv8>, n: nat, count: nat): Parsed
    decreases |mem| - n
  {
    if n >= |mem| then Parsed(buf, count, false)
    else if count >= |buf| || StoredLen(mem, n) > PKT_MAX then Parsed(buf, count, true)
    else
      var slot := Overlay(buf[count], mem, n);
      var n' := n + 20 + slot.len;
      if n' > |mem| then Parsed(buf[count := slot], count, false)
      else ParseFrom(buf[count := slot.(deviceId := Word32(mem, n'))], mem, n' + 4, count + 1)
  }

  /** The slot after one of our own lines has been read into it: the fields the format
      carries come from the file, the others stay. */
  function Refilled(slot: BlePkt, p: BlePkt): BlePkt
    requires p.len <= PKT_MAX
  {
    p.(sid := slot.sid, mutated := slot.mutated, pkt := p.pkt[..p.len] + slot.pkt[p.len..])
  }

  function Fill(buf: seq<BlePkt>, at: nat, pkts: seq<BlePkt>): (r: seq<BlePkt>)
    requires at + |pkts| <= |buf| && Writable(pkts)
    ensures |r| == |buf|
    ensures forall i :: 0 <= i < |r| ==>
      r[i] == (if at <= i < at + |pkts| then Refilled(buf[i], pkts[i - at]) else buf[i])
  {
    seq(|buf|, i requires 0 <= i < |buf| => if at <= i < at + |pkts| then Refilled(buf[i], pkts[i - at]) else buf[i])
  }

  /** The stored length wraps and unwraps to the length written. */
  lemma LengthUnwraps(len: u32)
    ensures ((len - 5) % 0x1_0000_0000 + 5) % 0x1_0000_0000 == len
  {
  }

  /** Where the parts of a line lie. */
  lemma LineParts(p: BlePkt)
    requires p.len <= PKT_MAX
    ensures var t := Line(p);
      && t[0..4] == Le(p.address, 4) && t[4..12] == Le(p.maxPayloadLen, 8)
      && t[12..20] == Le((p.len - 5) % 0x1_0000_0000, 8) && t[20..20 + p.len] == p.pkt[..p.len]
      && t[20 + p.len..24 + p.len] == Le(p.deviceId, 4)
  {
  }

  lemma Window(mem: seq<bv8>, n: nat, t: seq<bv8>, o: nat, k: nat)
    requires n + |t| <= |mem| && mem[n..n + |t|] == t && o + k <= |t|
    ensures Bytes(mem, n + o, k) == t[o..o + k]
  {
    var b, w := Bytes(mem, n + o, k), t[o..o + k];
    forall i | 0 <= i < k ensures b[i] == w[i] {
      assert w[i] == mem[n..n + |t|][o + i];
    }
  }

  /** What the parser sees at offset `n` when a line of ours lies there, up to its device. */
  lemma HeadReads(mem: seq<bv8>, n: nat, p: BlePkt)
    requires p.len <= PKT_MAX && n + 20 + p.len <= |mem| && mem[n..n + 20 + p.len] == Line(p)[..20 + p.len]
    ensures Word32(mem, n) == p.address
    ensures UnLe(Bytes(mem, n + 4, 8)) == p.maxPayloadLen
    ensures StoredLen(mem, n) == p.len
    ensures Bytes(mem, n + 20, p.len) == p.pkt[..p.len]
  {
    hide Le, UnLe, Bytes, Line;
    var t, tmp := Line(p)[..20 + p.len], (p.len - 5) % 0x1_0000_0000;
    LineParts(p);
    assert t[0..4] == Le(p.address, 4) && t[4..12] == Le(p.maxPayloadLen, 8) && t[12..20] == Le(tmp, 8);
    assert t[20..20 + p.len] == p.pkt[..p.len];
    Window(mem, n, t, 0, 4); Window(mem, n, t, 4, 8); Window(mem, n, t, 12, 8); Window(mem, n, t, 20, p.len);
    FieldReads(p.address, 4); FieldReads(p.maxPayloadLen, 8); FieldReads(tmp, 8);
    LengthUnwraps(p.len);
  }

  /** And with it. */
  lemma LineReads(mem: seq<bv8>, n: nat, p: BlePkt)
    requires p.len <= PKT_MAX && n + 24 + p.len <= |mem| && mem[n..n + 24 + p.len] == Line(p)
    ensures Word32(mem, n) == p.address
    ensures UnLe(Bytes(mem, n + 4, 8)) == p.maxPayloadLen
    ensures StoredLen(mem, n) == p.len
    ensures Bytes(mem, n + 20, p.len) == p.pkt[..p.len]
    ensures Word32(mem, n + 20 + p.len) == p.deviceId
  {
    hide Le, UnLe, Bytes, Line;
    assert mem[n..n + 20 + p.len] == mem[n..n + 24 + p.len][..20 + p.len];
    HeadReads(mem, n, p);
    LineParts(p);
    Window(mem, n, Line(p), 20 + p.len, 4);
    FieldReads(p.deviceId, 4);
  }

  lemma LineParses(buf: seq<BlePkt>, mem: seq<bv8>, n: nat, count: nat, p: BlePkt)
    requires p.len <= PKT_MAX && n + 24 + p.len <= |mem| && mem[n..n + 24 + p.len] == Line(p)
    requires count < |buf|
    ensures ParseFrom(buf, mem, n, count) ==
      ParseFrom(buf[count := Refilled(buf[count], p)], mem, n + 24 + p.len, count + 1)
  {
    hide Le, UnLe, Bytes, Line, Word32, StoredLen;
    LineReads(mem, n, p);
    assert Overlay(buf[count], mem, n).(deviceId := p.deviceId) == Refilled(buf[count], p);
  }

  lemma TailSplit<T>(mem: seq<T>, n: nat, line: seq<T>, rest: seq<T>)
    requires n <= |mem| && mem[n..] == line + rest
    ensures n + |line| <= |mem| && mem[n..n + |line|] == line && mem[n + |line|..] == rest
  {
    var tail := mem[n..];
    assert mem[n..n + |line|] == tail[..|line|] && mem[n + |line|..] == tail[|line|..];
  }

  /** A prefix of a file: of its first line, or the line and a prefix of the rest. */
  lemma PrefixSplit<T>(line: seq<T>, rest: seq<T>, k: nat)
    requires k <= |line + rest|
    ensures (line + rest)[..k] == if k < |line| then line[..k] else line + rest[..k - |line|]
  {
  }

  /** Reading back what was written gives the same packets in the same order. */
  lemma {:induction false} TextParses(buf: seq<BlePkt>, mem: seq<bv8>, n: nat, count: nat, pkts: seq<BlePkt>)
    requires Writable(pkts) && count + |pkts| <= |buf|
    requires n <= |mem| && mem[n..] == Text(pkts)
    ensures ParseFrom(buf, mem, n, count) == Parsed(Fill(buf, count, pkts), count + |pkts|, false)
    decreases |pkts|
  {
    hide Le, UnLe, Bytes, Line, Word32, StoredLen, Refilled;
    if pkts == [] {
      assert Fill(buf, count, pkts) == buf;
    } else {
      var p, k := pkts[0], 24 + pkts[0].len;
      TailSplit(mem, n, Line(p), Text(pkts[1..]));
      var buf' := buf[count := Refilled(buf[count], p)];
      LineParses(buf, mem, n, count, p);
      TextParses(buf', mem, n + k, count + 1, pkts[1..]);
      assert Fill(buf', count + 1, pkts[1..]) == Fill(buf, count, pkts);
    }
  }

  /** `q` is `p` as far as the format carries it in front of the device, and the old `slot`
      otherwise. */
  predicate HeadCarried(q: BlePkt, p: BlePkt, slot: BlePkt) {
    && q.address == p.address && q.maxPayloadLen == p.maxPayloadLen && q.len == p.len
    && (p.len <= PKT_MAX ==> q.pkt[..p.len] == p.pkt[..p.len] && q.pkt[p.len..] == slot.pkt[p.len..])
    && q.sid == slot.sid && q.mutated == slot.mutated
  }

  predicate Carried(q: BlePkt, p: BlePkt, slot: BlePkt) {
    HeadCarried(q, p, slot) && q.deviceId == p.deviceId
  }

  /** The round trip of the field-by-field format, into any buffer that is large enough. */
  lemma TextRoundTrip(buf: seq<BlePkt>, pkts: seq<BlePkt>)
    requires Writable(pkts) && |pkts| <= |buf|
    ensures var r := ParseFrom(buf, Text(pkts), 0, 0);
      && !r.overrun && r.count == |pkts| && |r.buf| == |buf|
      && (forall i :: 0 <= i < |pkts| ==> Carried(r.buf[i], pkts[i], buf[i]))
      && (forall i :: |pkts| <= i < |buf| ==> r.buf[i] == buf[i])
  {
    assert Text(pkts)[0..] == Text(pkts);
    TextParses(buf, Text(pkts), 0, 0, pkts);
  }

  lemma {:induction false} TextSize(pkts: seq<BlePkt>)
    requires Writable(pkts)
    ensures |Text(pkts)| == 24 * |pkts| + TotalLen(pkts)
  {
    if pkts != [] {
      TextSize(pkts[1..]);
    }
  }

  lemma {:induction false} TextSnoc(pkts: seq<BlePkt>, p: BlePkt)
    requires Writable(pkts) && p.len <= PKT_MAX
    ensures Writable(pkts + [p]) && Text(pkts + [p]) == Text(pkts) + Line(p)
  {
    hide Line;
    if pkts == [] {
      assert Text([p]) == Line(p) + Text([]);
    } else {
      TextSnoc(pkts[1..], p);
      assert (pkts + [p])[1..] == pkts[1..] + [p];
    }
  }

  lemma {:induction false} TotalLenSnoc(pkts: seq<BlePkt>, p: BlePkt)
    ensures TotalLen(pkts + [p]) == TotalLen(pkts) + p.len
  {
    if pkts != [] {
      TotalLenSnoc(pkts[1..], p);
      assert (pkts + [p])[1..] == pkts[1..] + [p];
    }
  }

  // ---------- Truncated files ----------

  /** How many packets of a file cut to `k` bytes have all of their payload in it. */
  function Complete(pkts: seq<BlePkt>, k: nat): (n: nat)
    ensures n <= |pkts|
  {
    if pkts == [] || k < 20 + pkts[0].len then 0
    else if k < 24 + pkts[0].len then 1
    else 1 + Complete(pkts[1..], k - 24 - pkts[0].len)
  }

  /** How many of them have all of their line in it. */
  function Uncut(pkts: seq<BlePkt>, k: nat): (n: nat)
    ensures n <= Complete(pkts, k) <= n + 1
  {
    if pkts == [] || k < 24 + pkts[0].len then 0 else 1 + Uncut(pkts[1..], k - 24 - pkts[0].len)
  }

  lemma {:induction false} ZeroBytes(n: nat, i: nat)
    requires i < n
    ensures Le(0, n)[i] == 0
  {
    if i > 0 { ZeroBytes(n - 1, i - 1); }
  }

  lemma {:induction false} ZeroLoads(s: seq<bv8>)
    requires forall i :: 0 <= i < |s| ==> s[i] == 0
    ensures UnLe(s) == 0
  {
    if s != [] { ZeroLoads(s[1..]); }
  }

  lemma SmallField(v: nat, i: nat)
    requires v < 256 && 0 < i < 8
    ensures Le(v, 8)[i] == 0
  {
    LeTail(v, 8, i);
    assert v / 256 == 0;
    hide Le;
    ZeroBytes(7, i - 1);
  }

  lemma LeTail(v: nat, n: nat, i: nat)
    requires 0 < i < n
    ensures Le(v, n)[i] == Le(v / 256, n - 1)[i - 1]
  {
  }

  /** Byte `i` of the length field of a line, as the parser sees it in a file that ends early. */
  lemma CutByte(mem: seq<bv8>, n: nat, p: BlePkt, i: nat)
    requires 5 <= p.len <= PKT_MAX && n <= |mem| < n + 24 + p.len && i < 8
    requires mem[n..] == Line(p)[..|mem| - n]
    ensures Bytes(mem, n + 12, 8)[i] == if n + 12 + i < |mem| then Le(p.len - 5, 8)[i] else 0
  {
    hide Line, Le;
    LineParts(p);
    if n + 12 + i < |mem| {
      assert mem[n + 12 + i] == mem[n..][12 + i] == Line(p)[12 + i] == Line(p)[12..20][i];
    }
  }

  /** A payload length fits the low byte of its field, so a field cut off behind that byte
      still reads right, and one cut off before it reads as an empty payload. */
  lemma CutLength(mem: seq<bv8>, n: nat, p: BlePkt)
    requires 5 <= p.len <= PKT_MAX && n <= |mem| < n + 24 + p.len
    requires mem[n..] == Line(p)[..|mem| - n]
    ensures StoredLen(mem, n) == if n + 12 < |mem| then p.len else 5
  {
    hide Line, Bytes, Le, UnLe;
    var b, field := Bytes(mem, n + 12, 8), Le(p.len - 5, 8);
    forall i | 0 <= i < 8 ensures b[i] == if n + 12 < |mem| then field[i] else 0 {
      CutByte(mem, n, p, i);
      if i > 0 { SmallField(p.len - 5, i); }
    }
    if n + 12 < |mem| {
      assert b == field;
      FieldReads(p.len - 5, 8);
    } else {
      ZeroLoads(b);
    }
  }

  lemma ParsedAll(buf: seq<BlePkt>, mem: seq<bv8>, n: nat, count: nat)
    requires n >= |mem|
    ensures ParseFrom(buf, mem, n, count) == Parsed(buf, count, false)
  {
  }

  /** A line that is cut short counts if its payload is complete, and then is read up to its
      device; no other slot is touched. */
  lemma CutParses(buf: seq<BlePkt>, mem: seq<bv8>, n: nat, count: nat, p: BlePkt)
    requires 5 <= p.len <= PKT_MAX && n < |mem| < n + 24 + p.len && count < |buf|
    requires mem[n..] == Line(p)[..|mem| - n]
    ensures var r := ParseFrom(buf, mem, n, count);
      && !r.overrun && r.count == (if |mem| - n < 20 + p.len then count else count + 1)
      && |r.buf| == |buf| && (forall j :: 0 <= j < |buf| && j != count ==> r.buf[j] == buf[j])
      && (r.count == count + 1 ==> HeadCarried(r.buf[count], p, buf[count]))
  {
    hide Le, UnLe, Bytes, Line, Word32, StoredLen;
    CutLength(mem, n, p);
    if |mem| - n >= 20 + p.len {
      assert mem[n..n + 20 + p.len] == mem[n..][..20 + p.len] == Line(p)[..20 + p.len];
      HeadReads(mem, n, p);
      var slot := Overlay(buf[count], mem, n);
      assert HeadCarried(slot, p, buf[count]);
      var slot' := slot.(deviceId := Word32(mem, n + 20 + p.len));
      ParsedAll(buf[count := slot'], mem, n + 24 + p.len, count + 1);
    }
  }

  lemma RefilledCarried(slot: BlePkt, p: BlePkt)
    requires p.len <= PKT_MAX
    ensures Carried(Refilled(slot, p), p, slot)
  {
  }

  /** The buffer `r` holds, from slot `count` on, the packets of a file cut to `k` bytes whose
      payload is complete, each as the format carries it; only the device of the last can be
      cut.  The slots in front are as they were. */
  ghost predicate Salvaged(r: seq<BlePkt>, buf: seq<BlePkt>, count: nat, pkts: seq<BlePkt>, k: nat) {
    && |r| == |buf| && count + |pkts| <= |buf|
    && (forall j :: 0 <= j < count ==> r[j] == buf[j])
    && (forall i :: 0 <= i < Complete(pkts, k) ==> HeadCarried(r[count + i], pkts[i], buf[count + i]))
    && (forall i :: 0 <= i < Uncut(pkts, k) ==> r[count + i].deviceId == pkts[i].deviceId)
  }

  lemma SalvagedCut(r: seq<BlePkt>, buf: seq<BlePkt>, count: nat, pkts: seq<BlePkt>, k: nat)
    requires |r| == |buf| && count + |pkts| <= |buf| && (forall j :: 0 <= j < |buf| && j != count ==> r[j] == buf[j])
    requires pkts != [] ==> k < 24 + pkts[0].len
    requires Complete(pkts, k) == 1 ==> HeadCarried(r[count], pkts[0], buf[count])
    ensures Salvaged(r, buf, count, pkts, k)
  {
    hide HeadCarried;
  }

  /** From the packets behind the first to all of them. */
  lemma SalvagedAll(r: seq<BlePkt>, buf: seq<BlePkt>, slot: BlePkt, count: nat, pkts: seq<BlePkt>, k: nat)
    requires pkts != [] && k >= 24 + pkts[0].len && count + |pkts| <= |buf|
    requires Carried(slot, pkts[0], buf[count])
    requires Salvaged(r, buf[count := slot], count + 1, pkts[1..], k - 24 - pkts[0].len)
    ensures Salvaged(r, buf, count, pkts, k)
  {
    hide HeadCarried;
    var rest, buf' := pkts[1..], buf[count := slot];
    assert r[count] == slot;
    forall i | 0 <= i < Complete(pkts, k) ensures HeadCarried(r[count + i], pkts[i], buf[count + i]) {
      if i > 0 { assert HeadCarried(r[count + 1 + (i - 1)], rest[i - 1], buf'[count + 1 + (i - 1)]); }
    }
    forall i | 0 <= i < Uncut(pkts, k) ensures r[count + i].deviceId == pkts[i].deviceId {
      if i > 0 { assert r[count + 1 + (i - 1)].deviceId == rest[i - 1].deviceId; }
    }
  }

  /** A file cut short anywhere is read without running past anything, and yields exactly
      the packets whose payload is complete. */
  lemma {:induction false} TruncatedFile(buf: seq<BlePkt>, mem: seq<bv8>, n: nat, count: nat, pkts: seq<BlePkt>, k: nat)
    requires Writable(pkts) && (forall i :: 0 <= i < |pkts| ==> 5 <= pkts[i].len) && count + |pkts| <= |buf|
    requires k <= |Text(pkts)| && n <= |mem| && mem[n..] == Text(pkts)[..k]
    ensures var r := ParseFrom(buf, mem, n, count);
      !r.overrun && r.count == count + Complete(pkts, k) && Salvaged(r.buf, buf, count, pkts, k)
    decreases |pkts|
  {
    hide Le, UnLe, Bytes, Line, Refilled, ParseFrom, HeadCarried, Salvaged;
    if k == 0 {
      ParsedAll(buf, mem, n, count);
      SalvagedCut(buf, buf, count, pkts, k);
    } else {
      var p := pkts[0];
      var line, rest := Line(p), Text(pkts[1..]);
      PrefixSplit(line, rest, k);
      if k < |line| {
        CutParses(buf, mem, n, count, p);
        SalvagedCut(ParseFrom(buf, mem, n, count).buf, buf, count, pkts, k);
      } else {
        TailSplit(mem, n, line, rest[..k - |line|]);
        LineParses(buf, mem, n, count, p);
        RefilledCarried(buf[count], p);
        var slot := Refilled(buf[count], p);
        TruncatedFile(buf[count := slot], mem, n + |line|, count + 1, pkts[1..], k - |line|);
        SalvagedAll(ParseFrom(buf, mem, n, count).buf, buf, slot, count, pkts, k);
      }
    }
  }
}
