/** The interceptor of a fuzz run as the program runs it (intercept_ble_packet_for_fuzz in
    blueman-main/btfuzz.c), one request after another. */
module Intercept {
  import opened Packet
  import opened Replay
  import opened Wrappers
  import opened Recorder

  /** What serving request `n` answers and records. */
  lemma ServeStep(c: Config, n: nat)
    requires Hijacked(c) && Receptions(c) && Recorded(c.corpus) && n < Exchanges(c)
    ensures |Serve(c, n).record| == (if n < |c.corpus| then n else |c.corpus|)
    ensures if n < |c.corpus| then
        && c.radio(n).deviceId == 1 && c.corpus[n].deviceId != 0
        && var p := c.mutate(n, n + 1, CopyPkt(c.radio(n), c.corpus[n]));
          Answer(c, n) == Some(p) && Serve(c, n + 1).record == Serve(c, n).record + [p]
      else
        && Answer(c, n) == Some(if n == |c.corpus| then c.radio(n) else c.radio(n).(mutated := 2))
        && Serve(c, n + 1).record == Serve(c, n).record
  {
    ServeCounts(c, n);
  }

  /** One turn of the replay loop up to its ack. */
  method ReplayOne(c: Config, i: nat, rec: Record) returns (i': nat, ack: BlePkt)
    requires Hijacked(c) && Receptions(c) && Recorded(c.corpus) && i < |c.corpus|
    requires rec.Valid() && rec.Contents() == Serve(c, i).record && rec.buf.Length == RECORD_SLOTS
    modifies rec`count, rec.buf
    ensures rec.Valid() && rec.Contents() == Serve(c, i + 1).record
    ensures i' == i + 1 && Answer(c, i) == Some(ack)
  {
    ServeStep(c, i);
    hide Hijacked, Serve, Answer, CopyPkt;
    var pkt := c.radio(i);
    i', ack := i, pkt;
    if pkt.deviceId == 1 {
      if c.corpus[i].deviceId != 0 {
        pkt := CopyPkt(pkt, c.corpus[i]);
        i' := i' + 1;
        ack := c.mutate(i, i', pkt);
        var rc := rec.Add(ack);
      } else {
        assert false;
      }
    }
  }

  /** `acks` answers the first requests, each as serving them one at a time does. */
  ghost predicate AnswersTo(c: Config, acks: seq<BlePkt>) {
    forall k :: 0 <= k < |acks| ==> Answer(c, k) == Some(acks[k])
  }

  lemma AnswersSnoc(c: Config, acks: seq<BlePkt>, ack: BlePkt)
    requires AnswersTo(c, acks) && Answer(c, |acks|) == Some(ack)
    ensures AnswersTo(c, acks + [ack])
  {
  }

  lemma NothingServed(c: Config)
    ensures Serve(c, 0).record == [] && AnswersTo(c, [])
  {
  }

  /** The replay loop: on a recorded seed fed by receptions, one turn per seed packet. */
  method ReplayAll(c: Config, rec: Record) returns (acks: seq<BlePkt>)
    requires Hijacked(c) && Receptions(c) && Recorded(c.corpus)
    requires rec.Valid() && rec.Contents() == [] && rec.buf.Length == RECORD_SLOTS
    modifies rec`count, rec.buf
    ensures rec.Valid() && rec.Contents() == Serve(c, |c.corpus|).record
    ensures |acks| == |c.corpus| && AnswersTo(c, acks)
  {
    hide *;
    NothingServed(c);
    acks := [];
    var i := 0;
    while i < |c.corpus|
      invariant i == |acks| <= |c.corpus| && rec.Valid() && rec.Contents() == Serve(c, i).record
      invariant AnswersTo(c, acks)
    {
      var ack;
      i, ack := ReplayOne(c, i, rec);
      AnswersSnoc(c, acks, ack);
      acks := acks + [ack];
    }
  }

  /** `acks` is what it sends: after the replay come one more request and the one that
      carries the stop mark. */
  method InterceptForFuzz(c: Config, rec: Record) returns (acks: seq<BlePkt>)
    requires Hijacked(c) && Receptions(c) && Recorded(c.corpus)
    requires rec.Valid() && rec.Contents() == [] && rec.buf.Length == RECORD_SLOTS
    modifies rec`count, rec.buf
    ensures rec.Valid() && rec.Contents() == Serve(c, Exchanges(c)).record
    ensures |acks| == Exchanges(c) && AnswersTo(c, acks)
  {
    acks := ReplayAll(c, rec);
    ghost var n := |c.corpus|;
    ServeStep(c, n);
    ServeStep(c, n + 1);
    hide Hijacked, Receptions, Recorded, Serve, Answer, AnswersTo;
    var drained: BlePkt := c.radio(|acks|);
    AnswersSnoc(c, acks, drained);
    acks := acks + [drained];
    var stop: BlePkt := c.radio(|acks|).(mutated := 2);
    AnswersSnoc(c, acks, stop);
    acks := acks + [stop];
  }
}
