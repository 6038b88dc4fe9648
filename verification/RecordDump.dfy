/** The raw format of blueman-main/pkt_record.c: `save_seq_buf_to_file2` writes the record
    structure as it lies in memory, and `mmap_seq_buf_file` maps it back. */
module RecordDump {
  import opened LittleEndian
  import opened Packet

  const HEADER: nat := 16

  function Images(pkts: seq<BlePkt>): (s: seq<bv8>)
    ensures |s| == SIZE * |pkts|
  {
    if pkts == [] then [] else Encode(pkts[0]) + Images(pkts[1..])
  }

  /** `count`, `max_count`, and the packets in use. */
  function Dump(pkts: seq<BlePkt>, maxCount: nat): (s: seq<bv8>)
    ensures |s| == HEADER + SIZE * |pkts|
  {
    Le(|pkts|, 8) + Le(maxCount, 8) + Images(pkts)
  }

  function MappedCount(mem: seq<bv8>): nat
    requires |mem| >= HEADER
  {
    UnLe(mem[..8])
  }

  function MappedMax(mem: seq<bv8>): nat
    requires |mem| >= HEADER
  {
    UnLe(mem[8..16])
  }

  function MappedPkt(mem: seq<bv8>, i: nat): BlePkt
    requires HEADER + SIZE * (i + 1) <= |mem|
  {
    Decode(mem[HEADER + SIZE * i..HEADER + SIZE * (i + 1)])
  }

  lemma {:induction false} ImageAt(pkts: seq<BlePkt>, i: nat)
    requires i < |pkts|
    ensures Images(pkts)[SIZE * i..SIZE * (i + 1)] == Encode(pkts[i])
  {
    hide Encode;
    if i > 0 {
      ImageAt(pkts[1..], i - 1);
      var s, t := Images(pkts), Images(pkts[1..]);
      assert s[SIZE..] == t;
      assert s[SIZE * i..SIZE * (i + 1)] == s[SIZE..][SIZE * (i - 1)..SIZE * i];
    }
  }

  /** A mapped dump shows the packet count and every packet, whole: nothing is lost, not
      even the bytes behind a packet's length or its `mutated` mark. */
  lemma DumpRoundTrip(pkts: seq<BlePkt>, maxCount: nat, i: nat)
    requires i < |pkts| < 0x1_0000_0000_0000_0000 && maxCount < 0x1_0000_0000_0000_0000
    ensures |Dump(pkts, maxCount)| == 16 + 279 * |pkts| && MappedMax(Dump(pkts, maxCount)) == maxCount
    ensures MappedCount(Dump(pkts, maxCount)) == |pkts|
    ensures MappedPkt(Dump(pkts, maxCount), i) == pkts[i]
  {
    hide Encode, Le, UnLe, Decode;
    var mem := Dump(pkts, maxCount);
    assert mem[..8] == Le(|pkts|, 8);
    assert mem[8..16] == Le(maxCount, 8);
    StoreLoad(|pkts|, 8);
    StoreLoad(maxCount, 8);
    Widths();
    ImageAt(pkts, i);
    assert mem[HEADER..] == Images(pkts);
    assert mem[HEADER + SIZE * i..HEADER + SIZE * (i + 1)] == mem[HEADER..][SIZE * i..SIZE * (i + 1)];
    ImageRoundTrip(pkts[i]);
  }
}
