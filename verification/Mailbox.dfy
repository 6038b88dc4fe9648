/** A System V message queue with two types of message: sending puts a message at the end,
    receiving by type takes the first message of that type. */
module Mailbox {
  import opened Wrappers

  datatype Message<R, A> = RecvPkt(req: R) | RecvPktAck(ack: A)

  /** Where the first message of a type is. */
  function First<R, A>(q: seq<Message<R, A>>, ack: bool): (i: nat)
    ensures i <= |q| && (i < |q| ==> q[i].RecvPktAck? == ack)
  {
    if q == [] || q[0].RecvPktAck? == ack then 0 else 1 + First(q[1..], ack)
  }

  /** The messages of either type, in order. */
  function Reqs<R, A>(q: seq<Message<R, A>>): seq<R> {
    if q == [] then [] else if q[0].RecvPkt? then [q[0].req] + Reqs(q[1..]) else Reqs(q[1..])
  }

  function Acks<R, A>(q: seq<Message<R, A>>): seq<A> {
    if q == [] then [] else if q[0].RecvPktAck? then [q[0].ack] + Acks(q[1..]) else Acks(q[1..])
  }

  lemma {:induction false} Kinds<R, A>(q: seq<Message<R, A>>)
    ensures |q| == |Reqs(q)| + |Acks(q)|
  {
    if q != [] { Kinds(q[1..]); }
  }

  lemma Single<R, A>(q: seq<Message<R, A>>)
    requires |q| == 1
    ensures if Reqs(q) != [] then q == [RecvPkt(Reqs(q)[0])] && Acks(q) == []
            else Acks(q) != [] && q == [RecvPktAck(Acks(q)[0])]
  {
  }

  /** Sending puts a message at the end of its type's messages. */
  lemma {:induction false} Sent<R, A>(q: seq<Message<R, A>>, m: Message<R, A>)
    ensures Reqs(q + [m]) == if m.RecvPkt? then Reqs(q) + [m.req] else Reqs(q)
    ensures Acks(q + [m]) == if m.RecvPktAck? then Acks(q) + [m.ack] else Acks(q)
  {
    if q == [] {
      assert q + [m] == [m];
    } else {
      Sent(q[1..], m);
      assert (q + [m])[1..] == q[1..] + [m];
    }
  }

  /** Receiving by type takes the head of that type's messages. */
  lemma {:induction false} ReceivedReq<R, A>(q: seq<Message<R, A>>)
    ensures var i := First(q, false);
      if i == |q| then Reqs(q) == []
      else Reqs(q) == [q[i].req] + Reqs(Without(q, i)) && Acks(Without(q, i)) == Acks(q)
  {
    hide Without;
    if q != [] {
      var i := First(q[1..], false);
      LaterWithout(q, i);
      if q[0].RecvPktAck? { ReceivedReq(q[1..]); }
    }
  }

  lemma {:induction false} ReceivedAck<R, A>(q: seq<Message<R, A>>)
    ensures var i := First(q, true);
      if i == |q| then Acks(q) == []
      else Acks(q) == [q[i].ack] + Acks(Without(q, i)) && Reqs(Without(q, i)) == Reqs(q)
  {
    hide Without;
    if q != [] {
      var i := First(q[1..], true);
      LaterWithout(q, i);
      if q[0].RecvPkt? { ReceivedAck(q[1..]); }
    }
  }

  lemma LaterWithout<R, A>(q: seq<Message<R, A>>, i: nat)
    requires q != []
    ensures Without(q, 0) == q[1..]
    ensures i < |q[1..]| ==> var w := Without(q, i + 1); w != [] && w[0] == q[0] && w[1..] == Without(q[1..], i)
  {
  }
}
