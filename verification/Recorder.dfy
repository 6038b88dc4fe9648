/** `pkt_record` as the object the program updates in place (blueman-main/pkt_record.c). */
module Recorder {
  import opened LittleEndian
  import opened Packet
  import opened PktRecord

  const BLANK: BlePkt := BlePkt(0, 0, 0, 0, 0, 0, seq(255, _ => 0 as bv8))

  lemma WrappedSum(a: nat, b: nat)
    ensures (a % 0x1_0000_0000 + b) % 0x1_0000_0000 == (a + b) % 0x1_0000_0000
  {
  }

  class Record {
    const buf: array<BlePkt>
    var count: nat

    ghost predicate Valid()
      reads this
    {
      count <= buf.Length
    }

    ghost function Contents(): seq<BlePkt>
      reads this, buf
      requires Valid()
    {
      buf[..count]
    }

    /** `create_pkt_seq_buf`: `max_count` is the number of slots. */
    constructor (maxCount: nat)
      ensures Valid() && fresh(buf) && buf.Length == maxCount && Contents() == []
    {
      buf := new BlePkt[maxCount](_ => BLANK);
      count := 0;
    }

    method Init()
      modifies this`count
      ensures Valid() && Contents() == []
    {
      count := 0;
    }

    /** `add_pkt_to_seq_buf`: refuses once only the last slot is left. */
    method Add(p: BlePkt) returns (rc: int)
      requires Valid()
      modifies this`count, buf
      ensures Valid() && rc == if old(count) + 1 < buf.Length then 0 else -1
      ensures Contents() == if rc == 0 then old(Contents()) + [p] else old(Contents())
    {
      if buf.Length > count + 1 {
        buf[count] := p;
        count := count + 1;
        return 0;
      }
      return -1;
    }

    /** `get_pkt_seq_total_len`, a 32-bit sum. */
    method PktSeqTotalLen() returns (ret: nat)
      requires Valid()
      ensures ret == TotalLen(Contents()) % 0x1_0000_0000
    {
      ret := 0;
      for i := 0 to count
        invariant ret == TotalLen(buf[..i]) % 0x1_0000_0000
      {
        TotalLenSnoc(buf[..i], buf[i]);
        assert buf[..i + 1] == buf[..i] + [buf[i]];
        WrappedSum(TotalLen(buf[..i]), buf[i].len);
        ret := (ret + buf[i].len) % 0x1_0000_0000;
      }
    }

    /** `save_seq_buf_to_file1`; `file` is what the writes leave. */
    method SaveText() returns (file: seq<bv8>)
      requires Valid() && Writable(Contents())
      ensures file == Text(Contents())
    {
      hide Line, Le;
      file := [];
      for i := 0 to count
        invariant Writable(buf[..i]) && file == Text(buf[..i])
      {
        assert buf[i] == Contents()[i];
        TextSnoc(buf[..i], buf[i]);
        assert buf[..i + 1] == buf[..i] + [buf[i]];
        var line := WriteLine(buf[i]);
        file := file + line;
      }
    }

    /** The writes for one packet. */
    method WriteLine(pkt: BlePkt) returns (line: seq<bv8>)
      requires pkt.len <= PKT_MAX
      ensures line == Line(pkt)
    {
      line := Le(pkt.address, 4);
      var tmp := pkt.maxPayloadLen;
      line := line + Le(tmp, 8);
      tmp := (pkt.len - 5) % 0x1_0000_0000;
      line := line + Le(tmp, 8);
      line := line + pkt.pkt[..pkt.len];
      line := line + Le(pkt.deviceId, 4);
    }

    /** `copy_file_to_seq_buf1` on a mapped file.  On an overrun, which is undefined in C,
        the model stops before the offending copy. */
    method LoadText(mem: seq<bv8>) returns (overrun: bool)
      requires Valid()
      modifies this`count, buf
      ensures Parsed(buf[..], count, overrun) == ParseFrom(old(buf[..]), mem, 0, 0)
    {
      hide Overlay, Word32, StoredLen;
      var n, c := 0, 0;
      overrun := false;
      ghost var result := ParseFrom(buf[..], mem, 0, 0);
      while |mem| > n
        invariant !overrun && ParseFrom(buf[..], mem, n, c) == result
        decreases |mem| - n
      {
        ghost var was := buf[..];
        if c >= buf.Length || StoredLen(mem, n) > PKT_MAX {
          overrun := true;
          break;
        }
        buf[c] := Overlay(buf[c], mem, n);
        assert buf[..] == was[c := Overlay(was[c], mem, n)];
        n := n + 20 + buf[c].len;
        if n > |mem| {
          break;
        }
        buf[c] := buf[c].(deviceId := Word32(mem, n));
        assert buf[..] == was[c := buf[c]];
        n := n + 4;
        c := c + 1;
      }
      count := c;
    }
  }
}
