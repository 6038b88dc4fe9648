/** Progress of a fuzz run: it ends by itself after a fixed number of steps, whatever an
    earlier run left on the queue, and what an interrupted run leaves there. */
module Completion {
  import opened Mailbox
  import opened Packet
  import opened Replay
  import opened Wrappers
  import opened Protocol

  /** A run on a seed that an earlier run recorded, fed by the target's receptions, with a
      mutator that keeps devices and marks. */
  ghost predicate WellFormed(c: Config) {
    Hijacked(c) && Receptions(c) && Recorded(c.corpus) && Discreet(c)
  }

  /** The same of a run that finds messages on the queue: requests left over are packets as
      the radio hands them over. */
  ghost predicate WellStarted(c: Config, q0: seq<Msg>) { WellFormed(Shift(c, Reqs(q0))) }

  predicate Disturbance(a: Action) { a in {Crash, Alarm} }

  /** The first ack with the stop mark, or their number if there is none. */
  function FirstStop(acks: seq<BlePkt>): (i: nat)
    ensures i <= |acks| && (i < |acks| ==> acks[i].mutated == 2)
    ensures forall j :: 0 <= j < i ==> acks[j].mutated != 2
  {
    if acks == [] || acks[0].mutated == 2 then 0 else 1 + FirstStop(acks[1..])
  }

  predicate StopLeft(q0: seq<Msg>) { FirstStop(Acks(q0)) < |Acks(q0)| }

  /** How many exchanges the target makes: up to the first stop mark on the queue or, if there
      is none, those of the interceptor and one for every ack that was on the queue. */
  function Rounds(c: Config, q0: seq<Msg>): nat {
    if StopLeft(q0) then FirstStop(Acks(q0)) + 1 else Exchanges(c) + |Acks(q0)|
  }

  /** How many requests the interceptor serves: all of its exchanges if so many come. */
  function Served(c: Config, q0: seq<Msg>): nat {
    if Exchanges(c) <= |Reqs(q0)| + Rounds(c, q0) then Exchanges(c) else |Reqs(q0)| + Rounds(c, q0)
  }

  lemma ServedAll(c: Config, q0: seq<Msg>)
    ensures !StopLeft(q0) ==> Served(c, q0) == Exchanges(c)
    ensures Rounds(c, q0) == Exchanges(c) + |Acks(q0)| <==> !StopLeft(q0)
  {
  }

  /** Not yet cut short: both processes alive, and the target gone only after the last reply. */
  ghost predicate Undisturbed(c: Config, q0: seq<Msg>, s: State) {
    && Inv(c, q0, s) && s.alive && s.target != Dead
    && |s.requests| <= Rounds(c, q0)
    && (s.target == Exited <==> |s.replies| == Rounds(c, q0))
  }

  /** Steps left: every request is sent and taken once, every ack is sent and taken once. */
  function Left(c: Config, q0: seq<Msg>, s: State): int {
    2 * Rounds(c, q0) - |s.requests| - |s.replies| + 2 * Served(c, q0) - Taken(q0, s) - Answered(q0, s)
  }

  /** One thing that can happen next. */
  function Due(s: State): Action {
    if s.target == Running then Request
    else if s.target == Waiting && Acks(s.queue) != [] then Deliver
    else if s.held.Some? then Reply
    else Receive
  }

  /** The interceptor answers no more than its exchanges, and does not hang. */
  lemma Within(c: Config, q0: seq<Msg>, s: State)
    requires WellStarted(c, q0) && Inv(c, q0, s)
    ensures Answered(q0, s) <= Taken(q0, s) <= Exchanges(c) && !s.it.phase.Stuck?
    ensures s.held == None <==> Taken(q0, s) == Answered(q0, s)
    ensures s.held == None ==> (s.it.phase.Finished? <==> Answered(q0, s) == Exchanges(c))
  {
    var d, n := Shift(c, Reqs(q0)), Answered(q0, s);
    ServeCounts(d, n);
    NeverRefusedNorStuck(d, n, d.radio(0));
    HangsIff(c, q0, s);
    if n > Exchanges(c) {
      assert Expected(c, q0, |Acks(q0)| + Exchanges(c)).Some?;
      NoMoreAnswers(d, Exchanges(c));
      assert false;
    }
    Answerable(c, d, n);
    hide Stream, Reqs, Acks, Serve, Answer, Take, WellFormed;
  }

  lemma NoMoreAnswers(d: Config, n: nat)
    requires Hijacked(d) && Receptions(d) && Recorded(d.corpus) && n >= Exchanges(d)
    ensures Answer(d, n) == None
  {
    ServeCounts(d, n);
  }

  /** The interceptor has an ack for each of its requests and takes no more of them. */
  lemma Answerable(c: Config, d: Config, n: nat)
    requires WellFormed(d) && d.corpus == c.corpus && d.mutate == c.mutate
    ensures var (it, held) := Take(c, Serve(d, n), d.radio(n));
      !it.phase.Stuck? && (held.Some? <==> n < Exchanges(c))
  {
    TakeSame(c, d, Serve(d, n), d.radio(n));
    if n < Exchanges(d) { AnswersCome(d, n); } else { NoMoreAnswers(d, n); }
    NeverRefusedNorStuck(d, n + 1, d.radio(0));
    NeverRefusedNorStuck(d, n, d.radio(0));
    ServeCounts(d, n);
    HungAdvance(d, Take(d, Serve(d, n), d.radio(n)).0);
    hide Take, Advance, Hijacked, Receptions, Recorded, Discreet;
  }

  lemma HungAdvance(c: Config, it: Interceptor)
    ensures it.phase.Stuck? ==> Advance(c, it).phase.Stuck?
  {
  }

  /** When an action of the two processes can happen, in terms of what is on the queue. */
  predicate Can(s: State, a: Action) {
    match a
    case Request => s.target == Running
    case Receive => s.alive && s.held == None && s.it.phase !in {Finished, Stuck} && Reqs(s.queue) != []
    case Reply => s.alive && s.held.Some?
    case Deliver => s.target == Waiting && Acks(s.queue) != []
    case _ => false
  }

  lemma NextIffCan(c: Config, s: State, a: Action)
    requires !Disturbance(a)
    ensures Next(c, s, a).Some? <==> Can(s, a)
  {
    ReceivedReq(s.queue);
    ReceivedAck(s.queue);
    hide Take, Advance, Reqs, Acks, First;
  }

  /** Before the end some action of the two processes can happen: no deadlock. */
  lemma NeverStuck(c: Config, q0: seq<Msg>, s: State)
    requires WellStarted(c, q0) && Undisturbed(c, q0, s) && Left(c, q0, s) > 0
    ensures Next(c, s, Due(s)).Some?
  {
    Within(c, q0, s);
    NextIffCan(c, s, Due(s));
    assert |Stream(s)| == |s.replies| + |Acks(s.queue)|;
    hide Next, Reqs, Acks, Stream, FirstStop, WellStarted, Placed, Pending, Asked, Ordered;
  }

  /** Each of their actions brings the run one step closer to its end. */
  lemma StepCountsDown(c: Config, q0: seq<Msg>, s: State, a: Action)
    requires WellStarted(c, q0) && Undisturbed(c, q0, s) && !Disturbance(a) && Next(c, s, a).Some?
    ensures var t := Next(c, s, a).value; Undisturbed(c, q0, t) && Left(c, q0, t) == Left(c, q0, s) - 1
  {
    InvStep(c, q0, s, a);
    Moved(c, q0, s, a);
    if a == Deliver {
      LastReply(c, q0, Next(c, s, a).value);
    }
    hide Inv, Next, Taken, Answered, WellStarted;
  }

  /** What an action of the two processes does to the counts and to the target. */
  lemma Moved(c: Config, q0: seq<Msg>, s: State, a: Action)
    requires Inv(c, q0, s) && !Disturbance(a) && Next(c, s, a).Some?
    ensures var t := Next(c, s, a).value;
      && |t.requests| == |s.requests| + (if a == Request then 1 else 0)
      && |t.replies| == |s.replies| + (if a == Deliver then 1 else 0)
      && Taken(q0, t) == Taken(q0, s) + (if a == Receive then 1 else 0)
      && Answered(q0, t) == Answered(q0, s) + (if a == Reply then 1 else 0)
      && t.alive == s.alive
      && t.target == (if a == Request then Waiting else if a != Deliver then s.target
                      else if t.replies[|s.replies|].mutated == 2 then Exited else Running)
      && (a == Request ==> s.target == Running && |s.requests| == |s.replies|)
      && (a == Deliver ==> s.target == Waiting)
  {
    match a
    case Request => RequestStep(c, s); hide Next, Stream, Reqs, Acks, Placed, Pending, Asked, Ordered;
    case Receive => ReceiveStep(c, s); hide Next, Stream, Reqs, Acks, Inv;
    case Reply => ReplyStep(c, s); hide Next, Stream, Reqs, Acks, Inv;
    case Deliver => DeliverStep(c, s); hide Next, Stream, Reqs, Acks, Inv;
  }

  /** Only the last reply of a run carries the stop mark. */
  lemma LastReply(c: Config, q0: seq<Msg>, s: State)
    requires WellStarted(c, q0) && Inv(c, q0, s) && 0 < |s.replies| <= Rounds(c, q0)
    ensures s.replies[|s.replies| - 1].mutated == 2 <==> |s.replies| == Rounds(c, q0)
  {
    var k := |s.replies| - 1;
    ReplyExpected(c, q0, s, k);
    OnlyLastStops(c, q0, k);
    hide Acks, Expected, WellStarted, Inv;
  }

  lemma OnlyLastStops(c: Config, q0: seq<Msg>, k: nat)
    requires WellStarted(c, q0) && k < Rounds(c, q0) && Expected(c, q0, k).Some?
    ensures Expected(c, q0, k).value.mutated == 2 <==> k == Rounds(c, q0) - 1
  {
    var n := k - |Acks(q0)|;
    if n >= 0 { AnswersCome(Shift(c, Reqs(q0)), n); }
    hide Reqs, Acks, Answer, FirstStop, WellFormed;
  }

  lemma NothingLeft(c: Config, q0: seq<Msg>, s: State)
    requires WellStarted(c, q0) && Undisturbed(c, q0, s) && Left(c, q0, s) <= 0
    ensures |s.requests| == |s.replies| == Rounds(c, q0) && s.target == Exited && s.held == None
    ensures Taken(q0, s) == Answered(q0, s) == Served(c, q0)
  {
    Within(c, q0, s);
    hide Stream, Reqs, Acks, Rounds, WellStarted, Placed, Pending, Asked, Ordered;
  }

  /** When no step is left the target has exited, the interceptor holds nothing and is done,
      or waits for more requests, and the next requests to serve are on the queue. */
  lemma EndState(c: Config, q0: seq<Msg>, s: State)
    requires WellStarted(c, q0) && Undisturbed(c, q0, s) && Left(c, q0, s) <= 0
    ensures s.target == Exited && s.held == None && |s.requests| == |s.replies| == Rounds(c, q0)
    ensures s.it == Serve(Shift(c, Reqs(q0)), Served(c, q0))
    ensures |Reqs(s.queue)| == |Reqs(q0)| + Rounds(c, q0) - Served(c, q0)
    ensures |s.queue| == |q0| && Pending(Shift(c, Reqs(q0)), Served(c, q0), Reqs(s.queue))
  {
    NothingLeft(c, q0, s);
    Kinds(q0);
    Kinds(s.queue);
    assert |Stream(s)| == |s.replies| + |Acks(s.queue)|;
    hide Left, Reqs, Acks, Serve, Rounds, Served, WellStarted, Pending, Asked, Ordered, Stream, Take;
  }

  lemma {:induction false} CountsDown(c: Config, q0: seq<Msg>, actions: seq<Action>)
    requires WellStarted(c, q0) && (forall a :: a in actions ==> !Disturbance(a))
    requires After(c, Init(c, q0), actions).Some?
    ensures var s := After(c, Init(c, q0), actions).value;
      Undisturbed(c, q0, s) && Left(c, q0, s) == 2 * Rounds(c, q0) + 2 * Served(c, q0) - |actions|
  {
    if actions == [] {
      InvInit(c, q0);
      assert Stream(Init(c, q0)) == Acks(q0);
      hide Inv;
    } else {
      hide Next, Undisturbed, Left;
      CountsDown(c, q0, actions[..|actions| - 1]);
      StepCountsDown(c, q0, After(c, Init(c, q0), actions[..|actions| - 1]).value, actions[|actions| - 1]);
    }
  }

  /** Completion from any queue: a run that is not cut short never deadlocks before its last
      step, which is fixed from the start.  Then nothing more can happen: the target has
      exited at the first stop mark, on the queue or the interceptor's, having got the
      left-over acks up to it and after them the answers to the requests, left-over ones
      first.  It gets to the interceptor's stop if and only if no other was on the queue.  As
      many messages are on the queue as the run found there. */
  lemma CompletionFrom(c: Config, q0: seq<Msg>, actions: seq<Action>)
    requires WellStarted(c, q0) && (forall a :: a in actions ==> !Disturbance(a))
    requires After(c, Init(c, q0), actions).Some?
    ensures var s, last := After(c, Init(c, q0), actions).value, 2 * Rounds(c, q0) + 2 * Served(c, q0);
      && |actions| <= last
      && (|actions| < last ==> Next(c, s, Due(s)).Some?)
      && (|actions| == last ==>
            && (forall a :: !Disturbance(a) ==> Next(c, s, a).None?)
            && s.target == Exited && s.held == None && |s.requests| == |s.replies| == Rounds(c, q0)
            && (|s.replies| == Exchanges(c) + |Acks(q0)| <==> !StopLeft(q0))
            && (s.it.phase == Finished <==> Served(c, q0) == Exchanges(c))
            && |s.it.record| == (if Served(c, q0) < |c.corpus| then Served(c, q0) else |c.corpus|)
            && (forall k :: 0 <= k < |s.replies| ==> Expected(c, q0, k) == Some(s.replies[k]))
            && |s.queue| == |q0| && |Reqs(s.queue)| == |Reqs(q0)| + Rounds(c, q0) - Served(c, q0)
            && Pending(Shift(c, Reqs(q0)), Served(c, q0), Reqs(s.queue)))
  {
    CountsDown(c, q0, actions);
    var s := After(c, Init(c, q0), actions).value;
    if Left(c, q0, s) > 0 {
      NeverStuck(c, q0, s);
    } else {
      EndState(c, q0, s);
      ServeCounts(Shift(c, Reqs(q0)), Served(c, q0));
      ServedAll(c, q0);
      forall k | 0 <= k < |s.replies| ensures Expected(c, q0, k) == Some(s.replies[k]) {
        Replies(c, q0, actions, k);
      }
      forall a | !Disturbance(a) ensures Next(c, s, a).None? {
        NextIffCan(c, s, a);
      }
    }
    hide Undisturbed, After, Next, Serve, WellFormed, Answer, Pending, StopLeft;
  }

  /** On an empty queue that is the only thing that can happen next. */
  lemma ExactlyOneDue(c: Config, s: State, a: Action)
    requires WellStarted(c, []) && Undisturbed(c, [], s) && !Disturbance(a)
    ensures Next(c, s, a).Some? <==> a == Due(s) && Left(c, [], s) > 0
  {
    Within(c, [], s);
    if Left(c, [], s) > 0 {
      NeverStuck(c, [], s);
      NextIffCan(c, s, a);
      NextIffCan(c, s, Due(s));
      if Can(s, a) { AtMostOneCan(c, s, a, Due(s)); }
    } else {
      EndState(c, [], s);
      NextIffCan(c, s, a);
    }
    hide Next, Reqs, Acks, WellStarted, Inv;
  }

  lemma AtMostOneCan(c: Config, s: State, a: Action, b: Action)
    requires WellStarted(c, []) && Inv(c, [], s) && Can(s, a) && Can(s, b)
    ensures a == b
  {
    Within(c, [], s);
    Kinds(s.queue);
    assert |Stream(s)| == |s.replies| + |Acks(s.queue)|;
    hide Stream, Reqs, WellStarted, Placed, Pending, Asked, Ordered;
  }

  /** Acks alone do not shift what the radio hands over. */
  lemma StartedWell(c: Config, q0: seq<Msg>)
    requires WellFormed(c) && Reqs(q0) == []
    ensures WellStarted(c, q0)
  {
    var d := Shift(c, []);
    forall k: nat ensures d.radio(k) == c.radio(k) {
    }
    forall k: nat | k < |c.corpus| ensures DiscreetAt(d, k) {
      assert DiscreetAt(c, k);
    }
  }

  /** Completion: from an empty queue a run that is not cut short has exactly one way to go
      until step `4 * (count + 2)`, and at that step it has made exactly `count + 2` exchanges,
      recorded exactly `count` packets, and ended with the target exited and the queue empty. */
  lemma Completion(c: Config, actions: seq<Action>)
    requires WellFormed(c) && (forall a :: a in actions ==> !Disturbance(a))
    requires After(c, Init(c, []), actions).Some?
    ensures var s := After(c, Init(c, []), actions).value;
      && |actions| <= 4 * Exchanges(c)
      && (forall a :: !Disturbance(a) ==> (Next(c, s, a).Some? <==> a == Due(s) && |actions| < 4 * Exchanges(c)))
      && (|actions| == 4 * Exchanges(c) ==>
            && s.target == Exited && s.it.phase == Finished && s.queue == [] && s.held == None
            && |s.requests| == |s.replies| == |c.corpus| + 2 && |s.it.record| == |c.corpus|)
  {
    StartedWell(c, []);
    CompletionFrom(c, [], actions);
    CountsDown(c, [], actions);
    var s := After(c, Init(c, []), actions).value;
    forall a | !Disturbance(a) ensures Next(c, s, a).Some? <==> a == Due(s) && Left(c, [], s) > 0 {
      ExactlyOneDue(c, s, a);
    }
    hide Inv, After, Next;
  }

  // ---------- Runs that are cut short ----------

  /** Whenever a run stops, it leaves a message behind exactly when a request is outstanding
      and the interceptor does not have it in hand. */
  lemma LeavesMessageIff(c: Config, actions: seq<Action>)
    requires After(c, Init(c, []), actions).Some?
    ensures var s := After(c, Init(c, []), actions).value;
      s.queue != [] <==> |s.requests| > |s.replies| && s.held == None && !s.it.phase.Stuck?
  {
    Conservation(c, [], actions);
    InvAlways(c, [], actions);
    HangsIff(c, [], After(c, Init(c, []), actions).value);
    hide After;
  }

  lemma AfterSnoc(c: Config, s: State, actions: seq<Action>, a: Action)
    requires After(c, s, actions).Some?
    ensures After(c, s, actions + [a]) == Next(c, After(c, s, actions).value, a)
  {
    assert (actions + [a])[..|actions|] == actions;
  }

  /** There is an undisturbed run of every length up to the last step. */
  lemma {:induction false} RunExists(c: Config, n: nat) returns (actions: seq<Action>)
    requires WellFormed(c) && n <= 4 * Exchanges(c)
    ensures |actions| == n && (forall a :: a in actions ==> !Disturbance(a)) && After(c, Init(c, []), actions).Some?
  {
    hide After, Next, WellFormed;
    if n == 0 {
      actions := [];
      NothingDone(c, Init(c, []));
    } else {
      var front := RunExists(c, n - 1);
      var a := Due(After(c, Init(c, []), front).value);
      Completion(c, front);
      actions := front + [a];
      AfterSnoc(c, Init(c, []), front, a);
    }
  }

  lemma NothingDone(c: Config, s: State)
    ensures After(c, s, []) == Some(s)
  {
  }

  lemma AlarmNow(c: Config, s: State)
    requires s.alive && s.target == Waiting
    ensures Next(c, s, Alarm) == Some(s.(target := Dead, alive := false))
  {
  }

  /** For every exchange of a well-formed run there is a run that the alarm ends with the ack
      of that exchange on the queue; for the last exchange it is the stop. */
  lemma AlarmLeavesAck(c: Config, k: nat) returns (actions: seq<Action>)
    requires WellFormed(c) && k < Exchanges(c)
    ensures Answer(c, k).Some? && (Answer(c, k).value.mutated == 2 <==> k == Exchanges(c) - 1)
    ensures var s := After(c, Init(c, []), actions);
      s.Some? && !s.value.alive && s.value.target == Dead && s.value.queue == [RecvPktAck(Answer(c, k).value)]
  {
    AnswersCome(c, k);
    StartedWell(c, []);
    var front := RunExists(c, 4 * k + 3);
    CountsDown(c, [], front);
    hide After, Next, WellFormed, WellStarted, Answer;
    var s := After(c, Init(c, []), front).value;
    AckQueued(c, s, k);
    AlarmNow(c, s);
    AfterSnoc(c, Init(c, []), front, Alarm);
    actions := front + [Alarm];
  }

  lemma AckQueued(c: Config, s: State, k: nat)
    requires WellStarted(c, []) && Undisturbed(c, [], s) && Left(c, [], s) == 4 * Exchanges(c) - (4 * k + 3)
    ensures s.target == Waiting && Answer(c, k).Some? && s.queue == [RecvPktAck(Answer(c, k).value)]
  {
    Within(c, [], s);
    Kinds(s.queue);
    assert |Stream(s)| == |s.replies| + |Acks(s.queue)|;
    hide WellStarted, Answer, Serve, Take, Pending, Asked, Placed;
    assert |s.replies| == k && |s.queue| == 1 && Reqs(s.queue) == [];
    Single(s.queue);
    assert Stream(s)[k] == Acks(s.queue)[0];
    ExpectedFromEmpty(c, k);
  }

  /** Such a message is why a run has to start on an empty queue.  When the target finds a
      left-over ack without the stop mark, the whole run is one answer behind: the ack is
      taken for the answer to the first request, every other request gets the answer to the
      one before it, and the last request is left on the queue. */
  lemma StaleAckShifts(c: Config, stale: BlePkt, actions: seq<Action>)
    requires WellFormed(c) && stale.mutated != 2 && (forall a :: a in actions ==> !Disturbance(a))
    requires After(c, Init(c, [RecvPktAck(stale)]), actions).Some?
    ensures var s, last := After(c, Init(c, [RecvPktAck(stale)]), actions).value, 4 * Exchanges(c) + 2;
      && |actions| <= last && (|actions| < last ==> Next(c, s, Due(s)).Some?)
      && (|actions| == last ==>
            && |s.replies| == Exchanges(c) + 1 && s.replies[0] == stale
            && (forall k :: 0 <= k < Exchanges(c) ==> Answer(c, k) == Some(s.replies[k + 1]))
            && s.queue == [RecvPkt(c.radio(Exchanges(c)))])
  {
    var q0: seq<Msg> := [RecvPktAck(stale)];
    OneAck(c, stale);
    StartedWell(c, q0);
    CompletionFrom(c, q0, actions);
    hide After, Next, Due, Reqs, Acks, Expected, Answer, Shift, Pending, WellFormed, WellStarted, Rounds, Served;
    if |actions| == 4 * Exchanges(c) + 2 {
      StaleEnd(c, stale, After(c, Init(c, q0), actions).value);
    }
  }

  lemma StaleEnd(c: Config, stale: BlePkt, s: State)
    requires var q0: seq<Msg> := [RecvPktAck(stale)];
      && stale.mutated != 2 && |s.replies| == Rounds(c, q0) && |s.queue| == 1
      && |Reqs(s.queue)| == Rounds(c, q0) - Served(c, q0)
      && (forall k :: 0 <= k < |s.replies| ==> Expected(c, q0, k) == Some(s.replies[k]))
      && Pending(Shift(c, []), Served(c, q0), Reqs(s.queue))
    ensures |s.replies| == Exchanges(c) + 1 && s.replies[0] == stale && s.queue == [RecvPkt(c.radio(Exchanges(c)))]
    ensures forall k :: 0 <= k < Exchanges(c) ==> Answer(c, k) == Some(s.replies[k + 1])
  {
    var q0: seq<Msg> := [RecvPktAck(stale)];
    OneAck(c, stale);
    Single(s.queue);
    ShiftKeeps(c, [], Exchanges(c));
    hide Reqs, Acks, Answer, Rounds, Served, Shift;
    assert Reqs(s.queue)[0] == Shift(c, []).radio(Served(c, q0) + 0);
    assert Expected(c, q0, 0) == Some(s.replies[0]);
    forall k | 0 <= k < Exchanges(c) ensures Answer(c, k) == Some(s.replies[k + 1]) {
      assert Expected(c, q0, k + 1) == Some(s.replies[k + 1]);
      ExpectedFromEmpty(c, k);
    }
  }

  /** When the ack carries the stop mark, the target exits at its first request.  The
      interceptor has answered that request by then, so the next run finds an ack again. */
  lemma StaleStopEnds(c: Config, stale: BlePkt, actions: seq<Action>)
    requires WellFormed(c) && stale.mutated == 2 && (forall a :: a in actions ==> !Disturbance(a))
    requires After(c, Init(c, [RecvPktAck(stale)]), actions).Some?
    ensures var s := After(c, Init(c, [RecvPktAck(stale)]), actions).value;
      && |actions| <= 4 && (|actions| < 4 ==> Next(c, s, Due(s)).Some?)
      && (|actions| == 4 ==>
            && (forall a :: !Disturbance(a) ==> Next(c, s, a).None?)
            && s.target == Exited && s.replies == [stale] && !s.it.phase.Finished?
            && Answer(c, 0).Some? && s.queue == [RecvPktAck(Answer(c, 0).value)])
  {
    var q0: seq<Msg> := [RecvPktAck(stale)];
    OneAck(c, stale);
    StartedWell(c, q0);
    CompletionFrom(c, q0, actions);
    InvAlways(c, q0, actions);
    hide After, Next, Due, Reqs, Acks, Answer, Shift, Pending, WellFormed, WellStarted, Rounds, Served, Inv;
    if |actions| == 4 {
      StopEnd(c, stale, After(c, Init(c, q0), actions).value);
    }
  }

  lemma StopEnd(c: Config, stale: BlePkt, s: State)
    requires var q0: seq<Msg> := [RecvPktAck(stale)];
      && Inv(c, q0, s) && |s.replies| == 1 && |s.queue| == 1 && Reqs(s.queue) == []
      && Expected(c, q0, 0) == Some(s.replies[0])
    ensures s.replies == [stale] && Answer(c, 0).Some? && s.queue == [RecvPktAck(Answer(c, 0).value)]
  {
    var q0: seq<Msg> := [RecvPktAck(stale)];
    OneAck(c, stale);
    Single(s.queue);
    hide Reqs, Acks, Answer, Shift, Placed, Pending, Asked;
    assert Stream(s)[1] == Acks(s.queue)[0];
    assert Expected(c, q0, 1) == Some(Stream(s)[1]);
    ExpectedFromEmpty(c, 0);
  }

  lemma OneAck(c: Config, p: BlePkt)
    ensures var q: seq<Msg> := [RecvPktAck(p)];
      && Reqs(q) == [] && Acks(q) == [p]
      && (p.mutated != 2 ==> Rounds(c, q) == Exchanges(c) + 1 && Served(c, q) == Exchanges(c))
      && (p.mutated == 2 ==> Rounds(c, q) == 1 && Served(c, q) == 1)
  {
    var q: seq<Msg> := [RecvPktAck(p)];
    assert Reqs(q) == [] && Acks(q) == [p];
    hide Reqs, Acks;
    var acks := [p];
    assert FirstStop(acks[1..]) == 0;
    assert FirstStop(acks) == if p.mutated == 2 then 0 else 1;
  }
}
