/** The request/ack protocol between the simulated radio of the target (patch/bsim.patch)
    and the interceptor (blueman-main/btfuzz.c) over one typed message queue, as interleaved
    steps of the two processes, from whatever an earlier run left on the queue. */
module Protocol {
  import opened Mailbox
  import opened Packet
  import opened Replay
  import opened Wrappers

  type Msg = Mailbox.Message<LivePkt, BlePkt>

  /** The target: running its own code, waiting for an ack, ended by the stop mark, or dead. */
  datatype Target = Running | Waiting | Exited | Dead

  /** `held`: the ack the interceptor is about to send.  `requests` and `replies` are the
      packets the target has sent and has got back, in order. */
  datatype State = State(queue: seq<Msg>, target: Target, alive: bool, it: Interceptor, held: Option<BlePkt>,
                         requests: seq<LivePkt>, replies: seq<BlePkt>)

  datatype Action =
    | Request     // hijack_packet_recorder sends the next packet
    | Receive     // the interceptor's msgrcv, and the work up to its ack
    | Reply       // recv_ble_pkt_ack
    | Deliver     // the target's msgrcv
    | Crash       // the target dies
    | Alarm       // timeouthandler: the target is killed and the interceptor exits

  function Init(c: Config, queue: seq<Msg>): State {
    State(queue, Running, true, Begin(c), None, [], [])
  }

  /** What an action leads to, if it can happen. */
  function Next(c: Config, s: State, a: Action): Option<State>
  {
    match a
    case Request =>
      if s.target != Running then None
      else
        var p := c.radio(|s.requests|);
        Some(s.(queue := s.queue + [RecvPkt(p)], target := Waiting, requests := s.requests + [p]))
    case Receive =>
      var i := First(s.queue, false);
      if !s.alive || s.held.Some? || s.it.phase in {Finished, Stuck} || i == |s.queue| then None
      else
        var (it, ack) := Take(c, s.it, s.queue[i].req);
        Some(s.(queue := Without(s.queue, i), it := it, held := ack))
    case Reply =>
      if !s.alive || s.held.None? then None
      else Some(s.(queue := s.queue + [RecvPktAck(s.held.value)], held := None, it := Advance(c, s.it)))
    case Deliver =>
      var i := First(s.queue, true);
      if s.target != Waiting || i == |s.queue| then None
      else
        var p := s.queue[i].ack;
        Some(s.(queue := Without(s.queue, i), replies := s.replies + [p],
                target := if p.mutated == 2 then Exited else Running))
    case Crash => if s.target in {Running, Waiting} then Some(s.(target := Dead)) else None
    case Alarm =>
      if !s.alive then None
      else Some(s.(target := if s.target in {Running, Waiting} then Dead else s.target, alive := false))
  }

  /** The states some run goes through: `actions` all happen, in order. */
  function After(c: Config, s: State, actions: seq<Action>): Option<State>
  {
    if actions == [] then Some(s)
    else match After(c, s, actions[..|actions| - 1])
      case None => None
      case Some(t) => Next(c, t, actions[|actions| - 1])
  }

  // ---------- Safety ----------

  /** Every ack there has been, in the order the target gets them. */
  function Stream(s: State): seq<BlePkt> { s.replies + Acks(s.queue) }

  /** What the `j`-th of them is: first those left over from an earlier run, then the answers
      a sequential interceptor gives to the requests left over and to the target's own. */
  function Expected(c: Config, q0: seq<Msg>, j: nat): Option<BlePkt> {
    if j < |Acks(q0)| then Some(Acks(q0)[j]) else Answer(Shift(c, Reqs(q0)), j - |Acks(q0)|)
  }

  /** How many requests the interceptor has taken, and how many acks it has sent. */
  function Taken(q0: seq<Msg>, s: State): int { |Reqs(q0)| + |s.requests| - |Reqs(s.queue)| }

  function Answered(q0: seq<Msg>, s: State): int { |Stream(s)| - |Acks(q0)| }

  /** The interceptor, having taken `taken` requests and answered `n`, is where serving them
      one at a time puts it, between two of them or with one in hand. */
  ghost predicate Placed(c: Config, d: Config, taken: int, n: int, it: Interceptor, held: Option<BlePkt>) {
    && n >= 0
    && (if taken == n then held == None && it == Serve(d, n)
        else taken == n + 1 && (it, held) == Take(c, Serve(d, n), d.radio(n)) && (held == None ==> it.phase.Stuck?))
  }

  /** The requests on the queue are the next ones to be served, in order. */
  ghost predicate Pending(d: Config, taken: int, reqs: seq<LivePkt>) {
    taken >= 0 && forall j :: 0 <= j < |reqs| ==> reqs[j] == d.radio(taken + j)
  }

  ghost predicate Ordered(c: Config, q0: seq<Msg>, stream: seq<BlePkt>) {
    forall j :: 0 <= j < |stream| ==> Expected(c, q0, j) == Some(stream[j])
  }

  /** The target's requests are the hijacked packets in order. */
  ghost predicate Asked(c: Config, requests: seq<LivePkt>) {
    forall k :: 0 <= k < |requests| ==> requests[k] == c.radio(k)
  }

  /** The target waits for one ack at a time. */
  predicate InStep(s: State) {
    match s.target
    case Waiting => |s.requests| == |s.replies| + 1
    case Dead => |s.replies| <= |s.requests| <= |s.replies| + 1
    case _ => |s.requests| == |s.replies|
  }

  ghost predicate Inv(c: Config, q0: seq<Msg>, s: State) {
    var d := Shift(c, Reqs(q0));
    && Placed(c, d, Taken(q0, s), Answered(q0, s), s.it, s.held)
    && Pending(d, Taken(q0, s), Reqs(s.queue)) && Asked(c, s.requests)
    && Ordered(c, q0, Stream(s)) && InStep(s)
  }

  lemma InvInit(c: Config, q0: seq<Msg>)
    ensures Inv(c, q0, Init(c, q0))
  {
    assert Stream(Init(c, q0)) == Acks(q0);
    hide Take, Answer, Stream, Reqs, Acks;
  }

  // What each action changes.

  lemma RequestStep(c: Config, s: State)
    requires Next(c, s, Request).Some?
    ensures var t, p := Next(c, s, Request).value, c.radio(|s.requests|);
      && Stream(t) == Stream(s) && Reqs(t.queue) == Reqs(s.queue) + [p] && s.target == Running
      && t == s.(queue := t.queue, target := Waiting, requests := s.requests + [p])
  {
    Sent(s.queue, RecvPkt(c.radio(|s.requests|)));
    hide Reqs, Acks;
  }

  lemma ReceiveStep(c: Config, s: State)
    requires Next(c, s, Receive).Some?
    ensures var t := Next(c, s, Receive).value;
      && Stream(t) == Stream(s) && Reqs(s.queue) != [] && Reqs(t.queue) == Reqs(s.queue)[1..]
      && s.held == None && s.it.phase !in {Finished, Stuck}
      && (t.it, t.held) == Take(c, s.it, Reqs(s.queue)[0])
      && t == s.(queue := t.queue, it := t.it, held := t.held)
  {
    ReceivedReq(s.queue);
    hide Reqs, Acks, First, Take;
  }

  lemma ReplyStep(c: Config, s: State)
    requires Next(c, s, Reply).Some?
    ensures var t := Next(c, s, Reply).value;
      && s.held.Some? && Stream(t) == Stream(s) + [s.held.value] && Reqs(t.queue) == Reqs(s.queue)
      && t == s.(queue := t.queue, held := None, it := Advance(c, s.it))
  {
    Sent(s.queue, RecvPktAck(s.held.value));
    hide Reqs, Acks, Advance;
  }

  lemma DeliverStep(c: Config, s: State)
    requires Next(c, s, Deliver).Some?
    ensures var t := Next(c, s, Deliver).value;
      && Stream(t) == Stream(s) && Reqs(t.queue) == Reqs(s.queue) && s.target == Waiting
      && |t.replies| == |s.replies| + 1 && Acks(s.queue) != [] && t.replies == s.replies + [Acks(s.queue)[0]]
      && t == s.(queue := t.queue, replies := t.replies, target := t.target)
      && t.target == if t.replies[|s.replies|].mutated == 2 then Exited else Running
  {
    ReceivedAck(s.queue);
    hide Reqs, Acks, First;
  }

  lemma EndStep(c: Config, s: State, a: Action)
    requires Next(c, s, a).Some? && a in {Crash, Alarm}
    ensures var t := Next(c, s, a).value;
      && Stream(t) == Stream(s) && t == s.(target := t.target, alive := t.alive)
      && t.target == (if s.target in {Running, Waiting} then Dead else s.target)
      && t.alive == (a == Crash && s.alive)
  {
    hide Reqs, Acks;
  }

  // What that does to the parts of the invariant.

  lemma PendingSnoc(d: Config, taken: int, reqs: seq<LivePkt>, p: LivePkt)
    requires Pending(d, taken, reqs) && p == d.radio(taken + |reqs|)
    ensures Pending(d, taken, reqs + [p])
  {
  }

  lemma PendingPop(d: Config, taken: int, reqs: seq<LivePkt>)
    requires Pending(d, taken, reqs) && reqs != []
    ensures reqs[0] == d.radio(taken) && Pending(d, taken + 1, reqs[1..])
  {
    var rest := reqs[1..];
    forall j | 0 <= j < |rest| ensures rest[j] == d.radio(taken + 1 + j) {
      assert rest[j] == reqs[j + 1];
    }
  }

  lemma AskedSnoc(c: Config, requests: seq<LivePkt>)
    requires Asked(c, requests)
    ensures Asked(c, requests + [c.radio(|requests|)])
  {
  }

  lemma OrderedSnoc(c: Config, q0: seq<Msg>, stream: seq<BlePkt>, p: BlePkt)
    requires Ordered(c, q0, stream) && Expected(c, q0, |stream|) == Some(p)
    ensures Ordered(c, q0, stream + [p])
  {
    hide Expected;
  }

  lemma PlacedTake(c: Config, d: Config, n: int, it: Interceptor)
    requires d.corpus == c.corpus && Placed(c, d, n, n, it, None) && it.phase !in {Finished, Stuck}
    ensures var (it', held) := Take(c, it, d.radio(n)); Placed(c, d, n + 1, n, it', held)
  {
    SilentMeansStuck(c, it, d.radio(n));
    hide Take;
  }

  lemma SilentMeansStuck(c: Config, it: Interceptor, req: LivePkt)
    requires it.phase !in {Finished, Stuck} && (it.phase.Replaying? ==> it.i < |c.corpus|)
    ensures Take(c, it, req).1.None? ==> Take(c, it, req).0.phase.Stuck?
  {
    hide CopyPkt;
  }

  lemma PlacedReply(c: Config, d: Config, taken: int, n: int, it: Interceptor, held: Option<BlePkt>)
    requires d.corpus == c.corpus && d.mutate == c.mutate && Placed(c, d, taken, n, it, held) && held.Some?
    ensures n >= 0 && Placed(c, d, taken, n + 1, Advance(c, it), None) && Answer(d, n) == held
  {
    TakeSame(c, d, Serve(d, n), d.radio(n));
    TakeSame(c, d, it, d.radio(n));
    hide Take, Advance;
  }

  /** The interceptor hangs exactly when it has taken a request and holds no ack for it. */
  lemma HangsIff(c: Config, q0: seq<Msg>, s: State)
    requires Inv(c, q0, s)
    ensures s.it.phase.Stuck? <==> Taken(q0, s) != Answered(q0, s) && s.held == None
  {
    var d, n := Shift(c, Reqs(q0)), Answered(q0, s);
    if n > 0 {
      assert Expected(c, q0, |Stream(s)| - 1).Some?;
      AnsweredNotStuck(d, n - 1);
    } else {
      AnsweredNotStuck(d, 0);
    }
    StuckHoldsNothing(c, Serve(d, n), d.radio(n));
    hide Stream, Reqs, Acks, Serve, Answer, Take;
  }

  lemma StuckHoldsNothing(c: Config, it: Interceptor, req: LivePkt)
    ensures !it.phase.Stuck? && Take(c, it, req).0.phase.Stuck? ==> Take(c, it, req).1 == None
  {
    hide CopyPkt;
  }

  lemma InvRequest(c: Config, q0: seq<Msg>, s: State)
    requires Inv(c, q0, s) && Next(c, s, Request).Some?
    ensures Inv(c, q0, Next(c, s, Request).value)
  {
    hide Next, Stream, Reqs, Acks, Shift, Placed, Pending, Asked, Ordered;
    RequestStep(c, s);
    var d, p := Shift(c, Reqs(q0)), c.radio(|s.requests|);
    ShiftKeeps(c, Reqs(q0), |s.requests|);
    PendingSnoc(d, Taken(q0, s), Reqs(s.queue), p);
    AskedSnoc(c, s.requests);
  }

  lemma InvReceive(c: Config, q0: seq<Msg>, s: State)
    requires Inv(c, q0, s) && Next(c, s, Receive).Some?
    ensures Inv(c, q0, Next(c, s, Receive).value)
  {
    hide Next, Stream, Reqs, Acks, Shift, Placed, Pending, Asked, Ordered, Take;
    ReceiveStep(c, s);
    HangsIff(c, q0, s);
    var d, n := Shift(c, Reqs(q0)), Answered(q0, s);
    ShiftKeeps(c, Reqs(q0), 0);
    PendingPop(d, Taken(q0, s), Reqs(s.queue));
    PlacedTake(c, d, n, s.it);
  }

  lemma InvReply(c: Config, q0: seq<Msg>, s: State)
    requires Inv(c, q0, s) && Next(c, s, Reply).Some?
    ensures Inv(c, q0, Next(c, s, Reply).value)
  {
    hide Next, Stream, Reqs, Acks, Shift, Placed, Pending, Asked, Ordered, Advance, Answer;
    ReplyStep(c, s);
    var d, n := Shift(c, Reqs(q0)), Answered(q0, s);
    ShiftKeeps(c, Reqs(q0), 0);
    PlacedReply(c, d, Taken(q0, s), n, s.it, s.held);
    OrderedSnoc(c, q0, Stream(s), s.held.value);
  }

  lemma InvDeliver(c: Config, q0: seq<Msg>, s: State)
    requires Inv(c, q0, s) && Next(c, s, Deliver).Some?
    ensures Inv(c, q0, Next(c, s, Deliver).value)
  {
    hide Next, Stream, Reqs, Acks, Shift, Placed, Pending, Asked, Ordered;
    DeliverStep(c, s);
  }

  lemma InvEnd(c: Config, q0: seq<Msg>, s: State, a: Action)
    requires Inv(c, q0, s) && Next(c, s, a).Some? && a in {Crash, Alarm}
    ensures Inv(c, q0, Next(c, s, a).value)
  {
    hide Next, Stream, Reqs, Acks, Shift, Placed, Pending, Asked, Ordered;
    EndStep(c, s, a);
  }

  /** Every step of either process, and the death of the target at any moment, keeps it. */
  lemma InvStep(c: Config, q0: seq<Msg>, s: State, a: Action)
    requires Inv(c, q0, s) && Next(c, s, a).Some?
    ensures Inv(c, q0, Next(c, s, a).value)
  {
    hide *;
    match a
    case Request => InvRequest(c, q0, s);
    case Receive => InvReceive(c, q0, s);
    case Reply => InvReply(c, q0, s);
    case Deliver => InvDeliver(c, q0, s);
    case _ => InvEnd(c, q0, s, a);
  }

  lemma {:induction false} InvAlways(c: Config, q0: seq<Msg>, actions: seq<Action>)
    requires After(c, Init(c, q0), actions).Some?
    ensures Inv(c, q0, After(c, Init(c, q0), actions).value)
  {
    hide Inv, Next;
    if actions == [] {
      InvInit(c, q0);
    } else {
      InvAlways(c, q0, actions[..|actions| - 1]);
      InvStep(c, q0, After(c, Init(c, q0), actions[..|actions| - 1]).value, actions[|actions| - 1]);
    }
  }

  function InHand(s: State): nat { if s.held.Some? then 1 else 0 }

  /** Messages are neither lost nor made, in every interleaving and whatever the queue held
      before: with the one in hand there are as many as at the start, and one more exactly
      while a request of the target is outstanding.  (A hung interceptor swallows one.) */
  lemma Conservation(c: Config, q0: seq<Msg>, actions: seq<Action>)
    requires After(c, Init(c, q0), actions).Some?
    ensures var s := After(c, Init(c, q0), actions).value;
      && |s.queue| + InHand(s) + (if s.it.phase.Stuck? then 1 else 0) == |q0| + |s.requests| - |s.replies|
      && (s.target == Waiting ==> |s.requests| == |s.replies| + 1)
      && |s.replies| <= |s.requests| <= |s.replies| + 1
  {
    InvAlways(c, q0, actions);
    var s := After(c, Init(c, q0), actions).value;
    hide After, Take, Answer, Serve;
    Kinds(q0);
    Kinds(s.queue);
    HangsIff(c, q0, s);
  }

  /** The replies, in every interleaving: first the acks that were on the queue, then what a
      sequential interceptor answers to the requests that were on it and to the target's. */
  lemma Replies(c: Config, q0: seq<Msg>, actions: seq<Action>, k: nat)
    requires After(c, Init(c, q0), actions).Some? && k < |After(c, Init(c, q0), actions).value.replies|
    ensures Expected(c, q0, k) == Some(After(c, Init(c, q0), actions).value.replies[k])
  {
    InvAlways(c, q0, actions);
    ReplyExpected(c, q0, After(c, Init(c, q0), actions).value, k);
    hide After, Inv, Expected;
  }

  lemma ReplyExpected(c: Config, q0: seq<Msg>, s: State, k: nat)
    requires Inv(c, q0, s) && k < |s.replies|
    ensures Expected(c, q0, k) == Some(s.replies[k])
  {
    hide Placed, Pending, Asked, Expected, Acks;
    assert Stream(s)[k] == s.replies[k];
  }

  /** The request outstanding is queued, or its answer is in the interceptor's hand, or its
      answer is queued: exactly one of these, and nothing else is anywhere. */
  ghost predicate Awaited(c: Config, s: State) {
    var n := |s.replies|;
    || (s.queue == [RecvPkt(c.radio(n))] && s.held == None)
    || (s.queue == [] && s.held.Some? && s.held == Answer(c, n))
    || (s.held == None && exists p :: s.queue == [RecvPktAck(p)] && Answer(c, n) == Some(p))
  }

  lemma WaitingIsAwaited(c: Config, s: State)
    requires Inv(c, [], s) && s.target == Waiting && !s.it.phase.Stuck?
    ensures Awaited(c, s)
  {
    var d, n := Shift(c, []), |s.replies|;
    HangsIff(c, [], s);
    Kinds(s.queue);
    ExpectedFromEmpty(c, n);
    ShiftKeeps(c, [], n);
    if s.queue == [] {
      HeldAnswer(c, d, n, s.it, s.held);
    } else {
      Single(s.queue);
      if Reqs(s.queue) == [] {
        assert Stream(s)[n] == Acks(s.queue)[0];
      }
    }
    hide Answer, Serve, Take, Shift;
  }

  lemma HeldAnswer(c: Config, d: Config, n: nat, it: Interceptor, held: Option<BlePkt>)
    requires d.corpus == c.corpus && d.mutate == c.mutate && Placed(c, d, n + 1, n, it, held)
    ensures held == Answer(d, n)
  {
    TakeSame(c, d, Serve(d, n), d.radio(n));
    hide Take, Serve;
  }

  /** Safety, in every interleaving that starts on an empty queue: at most one message is in
      flight; a waiting target is matched by exactly one of its request queued, the answer to
      it with the interceptor, or that answer queued (unless the interceptor hangs); and the
      `k`-th ack is the answer to the `k`-th request that serving them one at a time gives. */
  lemma Safety(c: Config, actions: seq<Action>)
    requires After(c, Init(c, []), actions).Some?
    ensures var s := After(c, Init(c, []), actions).value;
      && |s.queue| + InHand(s) <= 1
      && (s.target == Waiting && !s.it.phase.Stuck? ==> |s.requests| == |s.replies| + 1 && Awaited(c, s))
      && (forall k :: 0 <= k < |s.requests| ==> s.requests[k] == c.radio(k))
      && (forall k :: 0 <= k < |s.replies| ==> Answer(c, k) == Some(s.replies[k]))
  {
    InvAlways(c, [], actions);
    Conservation(c, [], actions);
    var s := After(c, Init(c, []), actions).value;
    if s.target == Waiting && !s.it.phase.Stuck? { WaitingIsAwaited(c, s); }
    hide After, Serve, Take, Answer, Placed, Pending, Ordered, Awaited;
    forall k | 0 <= k < |After(c, Init(c, []), actions).value.replies|
      ensures Answer(c, k) == Some(After(c, Init(c, []), actions).value.replies[k])
    {
      ReplyAnswers(c, actions, k);
    }
  }

  lemma ReplyAnswers(c: Config, actions: seq<Action>, k: nat)
    requires After(c, Init(c, []), actions).Some? && k < |After(c, Init(c, []), actions).value.replies|
    ensures Answer(c, k) == Some(After(c, Init(c, []), actions).value.replies[k])
  {
    hide After, Answer, Expected;
    Replies(c, [], actions, k);
    ExpectedFromEmpty(c, k);
  }

  lemma ExpectedFromEmpty(c: Config, k: nat)
    ensures Expected(c, [], k) == Answer(c, k)
  {
    hide Answer;
    AnswerSame(c, Shift(c, []), k);
  }

  lemma AnswerSame(c: Config, d: Config, n: nat)
    requires d.corpus == c.corpus && d.mutate == c.mutate && forall k :: 0 <= k <= n ==> d.radio(k) == c.radio(k)
    ensures Answer(d, n) == Answer(c, n)
  {
    ServeSame(c, d, n);
    TakeSame(c, d, Serve(c, n), c.radio(n));
    hide Take, Serve;
  }
}
