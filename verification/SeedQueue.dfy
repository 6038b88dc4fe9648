/** The queue of seeds in blueman-main/coverage.c: an intrusive ring around a sentinel,
    newest seed first. */
module SeedQueue {
  import opened IntrusiveList
  import opened Wrappers

  /** A `struct queue_entry`; `hasNewCov` is None until something is stored in it. */
  datatype QueueEntry = QueueEntry(fname: string, count: nat, len: nat, hasNewCov: Option<bool>)

  type Node = ListHead<QueueEntry>

  /** A queue as a value: the nodes and the entries on it, oldest first.  Seeds are pushed
      in front, so front to back the queue holds them in the opposite order. */
  datatype View = View(nodes: seq<Node>, items: seq<QueueEntry>)

  /** The nodes of a queue front to back. */
  ghost function FrontToBack(nodes: seq<Node>): (r: seq<Node>)
    ensures |r| == |nodes| && forall k :: 0 <= k < |r| ==> r[k] == nodes[|nodes| - 1 - k]
  {
    seq(|nodes|, k requires 0 <= k < |nodes| => nodes[|nodes| - 1 - k])
  }

  lemma PushFront(head: Node, nodes: seq<Node>, q: Node)
    ensures [head, q] + ([head] + FrontToBack(nodes))[1..] == [head] + FrontToBack(nodes + [q])
  {
  }

  /** `after` is `before` with new entries pushed in front. */
  ghost predicate Grown(before: View, after: View) {
    before.nodes <= after.nodes && before.items <= after.items
  }

  /** Distinct nodes, each embedded in the entry of the same position. */
  ghost predicate Carries(nodes: seq<Node>, items: seq<QueueEntry>)
    reads nodes
  {
    && |nodes| == |items|
    && (forall i, j :: 0 <= i < j < |nodes| ==> nodes[i] != nodes[j])
    && (forall i :: 0 <= i < |nodes| ==> nodes[i].payload == Some(items[i]))
  }

  lemma CarriesPush(nodes: seq<Node>, items: seq<QueueEntry>, q: Node, e: QueueEntry)
    requires Carries(nodes, items) && q !in nodes && q.payload == Some(e)
    ensures Carries(nodes + [q], items + [e])
  {
  }

  class Queue {
    const head: Node
    var top: ListHead?<QueueEntry>
    var queuedPaths: nat
    ghost var nodes: seq<Node>           // the entries' nodes, oldest first
    ghost var items: seq<QueueEntry>     // the entries, oldest first
    ghost var Repr: set<object>

    ghost function Now(): View
      reads this
    {
      View(nodes, items)
    }

    ghost predicate Valid()
      reads this, Repr
    {
      && {this, head} <= Repr && (forall i :: 0 <= i < |nodes| ==> nodes[i] in Repr)
      && Ring([head] + FrontToBack(nodes))
      && head.payload == None && Carries(nodes, items)
      && queuedPaths == |nodes| == |items| && (nodes != [] ==> top == nodes[|nodes| - 1])
    }

    lemma PayloadAt(i: nat)
      requires Valid() && i < |nodes|
      ensures nodes[i].payload == Some(items[i])
    {
    }

    /** `LIST_HEAD(queue)`. */
    constructor ()
      ensures Valid() && fresh(Repr) && items == []
    {
      var h: Node := new ListHead<QueueEntry>(None);
      head, top, queuedPaths, nodes, items := h, null, 0, [], [];
      Repr := {this, h};
    }

    /** `add_to_queue`: the new entry becomes the first. */
    method Add(e: QueueEntry)
      requires Valid()
      modifies Repr
      ensures Valid() && fresh(Repr - old(Repr))
      ensures items == old(items) + [e] && old(nodes) <= nodes
    {
      var q := Link(e);
      CarriesPush(nodes, items, q, e);
      hide Ring, Carries, FrontToBack;
      Enlist(q, e);
    }

    /** The bookkeeping of `add_to_queue`. */
    method Enlist(q: Node, ghost e: QueueEntry)
      requires this in Repr && q != head
      modifies this
      ensures top == q && queuedPaths == old(queuedPaths) + 1 && Repr == old(Repr) + {q}
      ensures nodes == old(nodes) + [q] && items == old(items) + [e]
    {
      top, queuedPaths := q, queuedPaths + 1;
      nodes, items, Repr := nodes + [q], items + [e], Repr + {q};
    }

    /** The allocation and the list operation of `add_to_queue`: no other payload changes. */
    method Link(e: QueueEntry) returns (q: Node)
      requires Valid()
      modifies head`next, head`prev, nodes`prev
      ensures fresh(q) && q.payload == Some(e)
      ensures Ring([head] + FrontToBack(nodes + [q])) && Carries(nodes, items)
    {
      q := new ListHead<QueueEntry>(Some(e));
      PushFront(head, nodes, q);
      ListAdd(q, head, [head] + FrontToBack(nodes));
    }

    /** `queue_top->has_new_cov = 1`. */
    method MarkTop()
      requires Valid() && items != []
      modifies Repr
      ensures Valid() && nodes == old(nodes) && Repr == old(Repr)
      ensures items == old(items)[|items| - 1 := old(items)[|items| - 1].(hasNewCov := Some(true))]
    {
      var e := top.payload.value.(hasNewCov := Some(true));
      top.payload := Some(e);
      items := items[|items| - 1 := e];
    }

    /** How `save_if_interesting` uses the two. */
    method Save(e: QueueEntry, isNew: bool)
      requires Valid()
      modifies Repr
      ensures Valid() && fresh(Repr - old(Repr))
      ensures items == old(items) + [if isNew then e.(hasNewCov := Some(true)) else e]
      ensures old(nodes) <= nodes
    {
      Add(e);
      if isNew {
        MarkTop();
      }
    }

    /** `get_queue_head` and `get_queue_tail`: the newest and the oldest entry.  The source
        calls them on a non-empty queue. */
    method Head() returns (n: Node)
      requires Valid() && nodes != []
      ensures n == nodes[|nodes| - 1]
    {
      n := head.next;
      ghost var ring := [head] + FrontToBack(nodes);
      assert ring[0].next == ring[Succ(0, |ring|)];
    }

    method Tail() returns (n: Node)
      requires Valid() && nodes != []
      ensures n == nodes[0]
    {
      n := head.prev;
    }

    /** `get_queue_next` on an entry that is not the oldest: the next older one, never the
        sentinel. */
    method Next(q: Node, ghost i: nat) returns (n: Node)
      requires Valid() && 0 < i < |nodes| && q == nodes[i]
      ensures n == nodes[i - 1]
    {
      n := q.next;
      ghost var ring, j := [head] + FrontToBack(nodes), |nodes| - i;
      assert ring[j].next == ring[Succ(j, |ring|)];
    }

    /** The end of a round: a pass over the queue `start` is over when the entry fuzzed is
        the one that was its tail, and that is the `start`-oldest entry; otherwise the next
        entry is the one that followed it when the pass began, whatever has been pushed in
        front meanwhile. */
    method Advance(cur: Node, tail: Node, ghost start: View, ghost k: nat) returns (done: bool, next: Node)
      requires Valid() && Grown(start, Now())
      requires k < |start.nodes| && cur == start.nodes[k] && tail == start.nodes[0]
      ensures done <==> k == 0
      ensures !done ==> next == start.nodes[k - 1]
    {
      done, next := cur == tail, cur;
      assert nodes[k] == cur && nodes[0] == tail;
      if !done {
        next := Next(cur, k);
      }
    }

    /** `get_queue_length` walks the ring; `queuedPaths` keeps the same number. */
    method Length() returns (n: nat)
      requires Valid()
      ensures n == |items| == queuedPaths
    {
      n := ListLength(head, [head] + FrontToBack(nodes));
    }
  }
}
