/** The interceptor of a fuzz run (intercept_ble_packet_for_fuzz and copy_ble_pkt in
    blueman-main/btfuzz.c) as a sequential program: what it does with one request after
    another.  Protocol shows that every interleaving with the target comes down to this. */
module Replay {
  import opened Packet
  import opened Wrappers

  /** `MAX_PACKET_COUNT_PER_ITER`, and the recorder created for twice as many packets. */
  const MAX_PACKETS: nat := 100
  const RECORD_SLOTS: nat := 200

  /** What a run depends on: the seed being replayed, the packets the radio hijacks in
      order, and what the mutator makes of a packet in the `k`-th exchange. */
  datatype Config = Config(corpus: seq<BlePkt>, radio: nat -> LivePkt, mutate: (nat, nat, LivePkt) -> BlePkt)

  /** The radio hands over unmarked packets. */
  ghost predicate Hijacked(c: Config) {
    forall k :: c.radio(k).mutated == 0
  }

  /** Every hijacked packet was received by the target: the hook on transmission is disabled. */
  ghost predicate Receptions(c: Config) {
    forall k :: c.radio(k).deviceId == 1
  }

  /** A seed as a run records it: every packet has a device. */
  ghost predicate Recorded(pkts: seq<BlePkt>) {
    |pkts| <= MAX_PACKETS && forall j :: 0 <= j < |pkts| ==> pkts[j].deviceId != 0
  }

  /** `copy_ble_pkt`: a mutated seed packet replaces the live one, cut to what fits. */
  function CopyPkt(dst: LivePkt, src: BlePkt): (r: LivePkt)
    ensures 5 <= dst.len <= dst.maxPayloadLen + 5 && 5 <= src.len ==> 5 <= r.len <= r.maxPayloadLen + 5
    ensures r.deviceId == dst.deviceId && r.mutated == if src.mutated == 1 then 1 else dst.mutated
    ensures r.sid == dst.sid && r.address == dst.address && r.maxPayloadLen == dst.maxPayloadLen
  {
    if src.mutated == 1 then
      var len := if src.len > dst.maxPayloadLen + 5 then dst.maxPayloadLen + 5 else src.len;
      dst.(len := len, mutated := 1, pkt := src.pkt[..len] + dst.pkt[len..])
    else dst
  }

  /** The packet that the mutator gets in exchange `k` of the replay. */
  function Replayed(c: Config, k: nat): LivePkt
    requires k < |c.corpus|
  {
    CopyPkt(c.radio(k), c.corpus[k])
  }

  /** There the mutator leaves a device, keeps a mark, and does not forge the stop mark. */
  ghost predicate DiscreetAt(c: Config, k: nat)
    requires k < |c.corpus|
  {
    var p := Replayed(c, k);
    var q := c.mutate(k, k + 1, p);
    q.deviceId != 0 && (p.mutated == 1 ==> q.mutated == 1) && (p.mutated != 2 ==> q.mutated != 2)
  }

  ghost predicate Discreet(c: Config) {
    forall k :: 0 <= k < |c.corpus| ==> DiscreetAt(c, k)
  }

  datatype Phase = Replaying | Draining | Stopping | Finished | Stuck

  datatype Interceptor = Interceptor(phase: Phase, i: nat, served: nat, record: seq<BlePkt>)

  function Begin(c: Config): Interceptor {
    Interceptor(if |c.corpus| == 0 then Draining else Replaying, 0, 0, [])
  }

  /** `add_pkt_to_seq_buf` on the recorder. */
  function Add(record: seq<BlePkt>, p: BlePkt): seq<BlePkt> {
    if RECORD_SLOTS > |record| + 1 then record + [p] else record
  }

  /** The interceptor between receiving `req` and sending its ack, and the ack.  There is
      none when a seed packet has no device: the program then hangs.  (The replay loop runs
      while `i` is below the seed's count, and a finished interceptor receives nothing.) */
  function Take(c: Config, it: Interceptor, req: LivePkt): (r: (Interceptor, Option<BlePkt>))
  {
    var it' := it.(served := it.served + 1);
    match it.phase
    case Replaying =>
      if it.i >= |c.corpus| then (it, None)
      else if req.deviceId == 1 then
        if c.corpus[it.i].deviceId != 0 then
          var p := c.mutate(it.served, it.i + 1, CopyPkt(req, c.corpus[it.i]));
          (it'.(i := it.i + 1, record := Add(it.record, p)), Some(p))
        else (it'.(phase := Stuck), None)
      else (it', Some(req))
    case Draining => (it', Some(req))
    case Stopping => (it', Some(req.(mutated := 2)))
    case _ => (it, None)
  }

  /** After the ack has been sent. */
  function Advance(c: Config, it: Interceptor): Interceptor {
    match it.phase
    case Replaying => if it.i < |c.corpus| then it else it.(phase := Draining)
    case Draining => it.(phase := Stopping)
    case Stopping => it.(phase := Finished)
    case _ => it
  }

  /** The interceptor after serving the first `n` requests, one at a time. */
  function Serve(c: Config, n: nat): (it: Interceptor)
    ensures it.phase.Replaying? ==> it.i < |c.corpus|
  {
    if n == 0 then Begin(c) else Advance(c, Take(c, Serve(c, n - 1), c.radio(n - 1)).0)
  }

  /** What it acks request `n` with. */
  function Answer(c: Config, n: nat): Option<BlePkt>
  {
    Take(c, Serve(c, n), c.radio(n)).1
  }

  /** `corpus->count + 2`: the replayed packets, one more request, and the stop. */
  function Exchanges(c: Config): nat { |c.corpus| + 2 }

  /** What one request of the target does to an interceptor that has recorded what it replayed. */
  lemma TurnCounts(c: Config, it: Interceptor, req: LivePkt)
    requires Recorded(c.corpus) && req.deviceId == 1 && !it.phase.Stuck?
    requires it.i == |it.record| <= |c.corpus| && (it.phase.Replaying? ==> it.i < |c.corpus|)
    ensures var t := Advance(c, Take(c, it, req).0);
      && t.i == |t.record| == it.i + (if it.phase.Replaying? then 1 else 0)
      && t.served == it.served + (if it.phase.Finished? then 0 else 1)
      && t.phase == (match it.phase
                     case Replaying => if it.i + 1 < |c.corpus| then Replaying else Draining
                     case Draining => Stopping
                     case _ => Finished)
  {
    hide CopyPkt;
  }

  /** How far the interceptor is after `n` requests of a well-formed run. */
  lemma {:induction false} ServeCounts(c: Config, n: nat)
    requires Hijacked(c) && Receptions(c) && Recorded(c.corpus)
    ensures var it := Serve(c, n);
      && it.phase == (if n < |c.corpus| then Replaying else if n == |c.corpus| then Draining
                      else if n == |c.corpus| + 1 then Stopping else Finished)
      && it.i == |it.record| == (if n < |c.corpus| then n else |c.corpus|)
      && it.served == (if n < Exchanges(c) then n else Exchanges(c))
  {
    if n > 0 {
      assert c.radio(n - 1).deviceId == 1;
      hide Take, Advance, Recorded, Hijacked, Receptions;
      ServeCounts(c, n - 1);
      TurnCounts(c, Serve(c, n - 1), c.radio(n - 1));
    }
  }

  /** Every request of a run is answered, and only the last answer tells the target to stop. */
  lemma AnswersCome(c: Config, n: nat)
    requires Hijacked(c) && Receptions(c) && Recorded(c.corpus) && Discreet(c) && n < Exchanges(c)
    ensures Answer(c, n).Some? && (Answer(c, n).value.mutated == 2 <==> n == Exchanges(c) - 1)
  {
    ServeCounts(c, n);
    if n < |c.corpus| { assert DiscreetAt(c, n); }
  }

  /** Exchange `n` of the replay records the seed packet copied over the live one, mutated. */
  lemma RecordStep(c: Config, n: nat)
    requires Hijacked(c) && Receptions(c) && Recorded(c.corpus)
    ensures var rec, rec' := Serve(c, n).record, Serve(c, n + 1).record;
      if n >= |c.corpus| then rec' == rec
      else |rec| == n && rec' == rec + [c.mutate(n, n + 1, Replayed(c, n))]
  {
    hide CopyPkt;
    ServeCounts(c, n);
    assert c.radio(n).deviceId == 1;
  }

  /** What a run records of a seed, however far it gets: one packet per replayed packet,
      with a device, and still marked where the seed was marked. */
  lemma {:induction false} RecordInherits(c: Config, n: nat)
    requires Hijacked(c) && Receptions(c) && Recorded(c.corpus) && Discreet(c)
    ensures var rec := Serve(c, n).record;
      && |rec| <= |c.corpus| && Recorded(rec)
      && forall j :: 0 <= j < |rec| && c.corpus[j].mutated == 1 ==> rec[j].mutated == 1
  {
    hide Serve, Discreet, Hijacked, Receptions;
    ServeCounts(c, n);
    if n > 0 {
      RecordInherits(c, n - 1);
      RecordStep(c, n - 1);
      if n <= |c.corpus| { InheritsAt(c, n - 1); }
    }
  }

  lemma InheritsAt(c: Config, k: nat)
    requires Discreet(c) && k < |c.corpus|
    ensures var p := c.mutate(k, k + 1, Replayed(c, k));
      p.deviceId != 0 && (c.corpus[k].mutated == 1 ==> p.mutated == 1)
  {
    assert DiscreetAt(c, k);
  }

  /** Packet `j` of a record is packet `j` of the seed copied over the live one, and mutated. */
  lemma {:induction false} RecordedPacket(c: Config, n: nat, j: nat)
    requires Hijacked(c) && Receptions(c) && Recorded(c.corpus) && j < |Serve(c, n).record|
    ensures j < |c.corpus| && Serve(c, n).record[j] == c.mutate(j, j + 1, Replayed(c, j))
  {
    hide Serve, Recorded, Hijacked, Receptions, Replayed;
    ServeCounts(c, n);
    assert n > 0;
    RecordStep(c, n - 1);
    if j < |Serve(c, n - 1).record| {
      RecordedPacket(c, n - 1, j);
    }
  }

  /** Without further mutation a run reproduces its seed as far as the live packets have room:
      a marked seed packet is sent and recorded again, cut to what fits, in the place of the
      live packet's bytes, and an unmarked one gives way to the live packet.  Everything else
      in the record is the live packet's. */
  lemma ReplayReproduces(c: Config, j: nat)
    requires Hijacked(c) && Receptions(c) && Recorded(c.corpus) && j < |c.corpus|
    requires forall k, i, p: LivePkt :: c.mutate(k, i, p) == p
    ensures |Serve(c, Exchanges(c)).record| == |c.corpus|
    ensures var q, p, src := Serve(c, Exchanges(c)).record[j], c.radio(j), c.corpus[j];
      && q.sid == p.sid && q.deviceId == p.deviceId && q.address == p.address && q.maxPayloadLen == p.maxPayloadLen
      && (src.mutated == 1 ==>
            && q.mutated == 1 && q.len == (if src.len < p.maxPayloadLen + 5 then src.len else p.maxPayloadLen + 5)
            && q.pkt[..q.len] == src.pkt[..q.len] && q.pkt[q.len..] == p.pkt[q.len..])
      && (src.mutated != 1 ==> q == p)
  {
    ServeCounts(c, Exchanges(c));
    RecordedPacket(c, Exchanges(c), j);
  }

  /** What the interceptor does with one packet while it replays, drains and stops: a packet
      that the target sends goes back as it is and uses up no seed packet, one that it receives
      is recorded as it goes back; the packet after the replay goes back as it is, and the next
      one with nothing but the stop mark changed.  A seed packet without a device hangs it. */
  lemma TakeByPhase(c: Config, it: Interceptor, req: LivePkt)
    requires it.phase == Replaying ==> it.i < |c.corpus|
    ensures var (t, ack) := Take(c, it, req);
      && (it.phase == Replaying && req.deviceId != 1 ==>
            ack == Some(req) && t.record == it.record && t.i == it.i && t.phase == Replaying)
      && (it.phase == Replaying && req.deviceId == 1 && c.corpus[it.i].deviceId != 0 ==>
            && ack.Some? && t.i == it.i + 1 && t.phase == Replaying
            && (|it.record| < 199 ==> t.record == it.record + [ack.value])
            && (|it.record| >= 199 ==> t.record == it.record))
      && (it.phase == Replaying && req.deviceId == 1 && c.corpus[it.i].deviceId == 0 ==>
            ack == None && t.phase == Stuck && t.record == it.record)
      && (it.phase == Draining ==> ack == Some(req) && t.record == it.record && t.phase == Draining)
      && (it.phase == Stopping ==>
            ack.Some? && ack.value == req.(mutated := 2) && t.record == it.record && t.phase == Stopping)
  {
    hide CopyPkt;
  }

  /** The recorder never refuses a packet, and the branch for a seed packet without a
      device is never taken. */
  lemma NeverRefusedNorStuck(c: Config, n: nat, p: BlePkt)
    requires Hijacked(c) && Receptions(c) && Recorded(c.corpus)
    ensures Add(Serve(c, n).record, p) == Serve(c, n).record + [p] && !Serve(c, n).phase.Stuck?
  {
    ServeCounts(c, n);
  }

  /** An interceptor that has answered is not hung. */
  lemma AnsweredNotStuck(c: Config, n: nat)
    ensures Answer(c, n).Some? ==> !Serve(c, n + 1).phase.Stuck?
    ensures !Serve(c, 0).phase.Stuck?
  {
  }

  /** `c` with some packets in front of what the radio hands over. */
  function Shift(c: Config, first: seq<LivePkt>): Config {
    c.(radio := (k: nat) => Nth(c, first, k))
  }

  lemma ShiftKeeps(c: Config, first: seq<LivePkt>, k: nat)
    ensures var d := Shift(c, first);
      d.corpus == c.corpus && d.mutate == c.mutate && d.radio(|first| + k) == c.radio(k)
  {
  }

  function Nth(c: Config, first: seq<LivePkt>, k: nat): LivePkt {
    if k < |first| then first[k] else c.radio(k - |first|)
  }

  /** What the interceptor does with a request does not depend on the radio. */
  lemma TakeSame(c: Config, d: Config, it: Interceptor, req: LivePkt)
    requires d.corpus == c.corpus && d.mutate == c.mutate
    ensures Take(d, it, req) == Take(c, it, req) && Advance(d, it) == Advance(c, it)
  {
    hide CopyPkt;
  }

  /** Serving depends on the first requests only. */
  lemma {:induction false} ServeSame(c: Config, d: Config, n: nat)
    requires d.corpus == c.corpus && d.mutate == c.mutate && forall k :: 0 <= k < n ==> d.radio(k) == c.radio(k)
    ensures Serve(d, n) == Serve(c, n)
  {
    hide Take, Advance;
    if n > 0 {
      ServeSame(c, d, n - 1);
      TakeSame(c, d, Serve(c, n - 1), c.radio(n - 1));
      TakeSame(c, d, Take(c, Serve(c, n - 1), c.radio(n - 1)).0, c.radio(n - 1));
    }
  }
}
