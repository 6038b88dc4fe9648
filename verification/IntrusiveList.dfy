/** The intrusive circular doubly linked list of blueman-main/utils.c. */
module IntrusiveList {
  import opened Wrappers

  /** A `struct list_head`.  `payload` stands for the structure the node is
      embedded in (what `container_of` reaches); a bare list head, such as the
      sentinel of a queue, is embedded in nothing and has none. */
  class ListHead<T> {
    var prev: ListHead<T>
    var next: ListHead<T>
    var payload: Option<T>

    /** `INIT_LIST_HEAD` on a freshly allocated node: a ring of one. */
    constructor (p: Option<T>)
      ensures next == this && prev == this && payload == p
      ensures Ring([this])
    {
      prev, next, payload := this, this, p;
    }
  }

  function Succ(i: nat, n: nat): nat { if i + 1 == n then 0 else i + 1 }

  function Pred(i: nat, n: nat): nat
    requires i < n
  {
    if i == 0 then n - 1 else i - 1
  }

  /** `r` lists the nodes of one closed ring in `next` order, starting anywhere. */
  ghost predicate Ring<T>(r: seq<ListHead<T>>)
    reads r
  {
    && |r| > 0
    && (forall i, j :: 0 <= i < j < |r| ==> r[i] != r[j])
    && (forall i {:trigger r[i].next} :: 0 <= i < |r| ==> r[i].next == r[Succ(i, |r|)])
    && (forall i {:trigger r[i].prev} :: 0 < i < |r| ==> r[i].prev == r[i - 1])
    && r[0].prev == r[|r| - 1]
  }

  /** Push-front: `node` goes between `head` and the node after it.  The ring may
      hold the head alone, in which case `head.next` aliases `head`. */
  method ListAdd<T>(node: ListHead<T>, head: ListHead<T>, ghost r: seq<ListHead<T>>)
    requires Ring(r) && r[0] == head && node !in r
    modifies node`next, node`prev, head`next, head.next`prev
    ensures Ring([head, node] + r[1..])
  {
    var next := head.next;
    next.prev := node;
    node.next := next;
    node.prev := head;
    head.next := node;
  }

  /** Push-back: `node` goes between the last node and `head`. */
  method ListAddTail<T>(node: ListHead<T>, head: ListHead<T>, ghost r: seq<ListHead<T>>)
    requires Ring(r) && r[0] == head && node !in r
    modifies node`next, node`prev, head`prev, head.prev`next
    ensures Ring(r + [node])
  {
    var tail := head.prev;
    tail.next := node;
    head.prev := node;
    node.next := head;
    node.prev := tail;
  }

  /** The neighbours of node `i` of a ring of `n` once node `k` is skipped. */
  function SuccBut(i: nat, k: nat, n: nat): (j: nat)
    requires i < n && k < n
    ensures j < n
  {
    if Succ(i, n) == k then Succ(k, n) else Succ(i, n)
  }

  function PredBut(i: nat, k: nat, n: nat): (j: nat)
    requires i < n && k < n
    ensures j < n
  {
    if Pred(i, n) == k then Pred(k, n) else Pred(i, n)
  }

  /** The links of a ring whose `k`-th node is skipped from both sides. */
  ghost predicate Skipping<T>(r: seq<ListHead<T>>, k: nat)
    requires k < |r|
    reads r
  {
    && (forall i, j :: 0 <= i < j < |r| ==> r[i] != r[j])
    && (forall i {:trigger r[i].next} :: 0 <= i < |r| && i != k ==> r[i].next == r[SuccBut(i, k, |r|)])
    && (forall i {:trigger r[i].prev} :: 0 <= i < |r| && i != k ==> r[i].prev == r[PredBut(i, k, |r|)])
  }

  function Old(i: nat, k: nat): nat { if i < k then i else i + 1 }

  lemma OldIndices(i: nat, k: nat, n: nat)
    requires k < n && i < n - 1
    ensures SuccBut(Old(i, k), k, n) == Old(Succ(i, n - 1), k)
    ensures PredBut(Old(i, k), k, n) == Old(Pred(i, n - 1), k)
  {
  }

  lemma SkippingAt<T>(r: seq<ListHead<T>>, k: nat, i: nat)
    requires k < |r| && Skipping(r, k) && i < |r| - 1
    ensures var s := Without(r, k); s[i].next == s[Succ(i, |s|)] && s[i].prev == s[Pred(i, |s|)]
  {
    hide SuccBut, PredBut, Without, Succ, Pred;
    OldIndices(i, k, |r|);
    WithoutElements(r, k);
    var j := Old(i, k);
    assert r[j].next == r[SuccBut(j, k, |r|)] && r[j].prev == r[PredBut(j, k, |r|)];
  }

  ghost predicate Distinct<T>(r: seq<ListHead<T>>) {
    forall i, j :: 0 <= i < j < |r| ==> r[i] != r[j]
  }

  /** Every node's neighbours, the first and the last counting as neighbours. */
  ghost predicate Linked<T>(r: seq<ListHead<T>>)
    reads r
  {
    forall i {:trigger r[i].next} {:trigger r[i].prev} :: 0 <= i < |r| ==>
      r[i].next == r[Succ(i, |r|)] && r[i].prev == r[Pred(i, |r|)]
  }

  lemma LinkedIsRing<T>(r: seq<ListHead<T>>)
    requires |r| > 0 && Distinct(r) && Linked(r)
    ensures Ring(r)
  {
    forall i | 0 <= i < |r| ensures r[i].next == r[Succ(i, |r|)] && r[i].prev == r[Pred(i, |r|)] {
    }
  }

  lemma DistinctWithout<T>(r: seq<ListHead<T>>, k: nat)
    requires k < |r| && Skipping(r, k)
    ensures Distinct(Without(r, k))
  {
    hide Without;
    WithoutElements(r, k);
  }

  lemma SkippingRing<T>(r: seq<ListHead<T>>, k: nat)
    requires k < |r| && |r| > 1 && Skipping(r, k)
    ensures Ring(Without(r, k))
  {
    hide Without, Skipping, Distinct, Ring;
    var s := Without(r, k);
    DistinctWithout(r, k);
    forall i | 0 <= i < |s| ensures s[i].next == s[Succ(i, |s|)] && s[i].prev == s[Pred(i, |s|)] {
      SkippingAt(r, k, i);
    }
    LinkedIsRing(s);
  }

  /** Unlinks the `k`-th node of a ring; the node's own links are left as they were.
      On a ring of one the two stores write what is already there. */
  method ListDel<T>(node: ListHead<T>, ghost r: seq<ListHead<T>>, ghost k: nat)
    requires Ring(r) && k < |r| && r[k] == node
    modifies node.next`prev, node.prev`next
    ensures Ring(if |r| == 1 then r else Without(r, k))
    ensures node.next == old(node.next) && node.prev == old(node.prev)
  {
    hide Without;
    ghost var n := |r|;
    var next := node.next;
    var prev := node.prev;
    assert next == r[Succ(k, n)] && prev == r[Pred(k, n)];
    next.prev := prev;
    prev.next := next;
    if n > 1 {
      forall i | 0 <= i < n && i != k ensures r[i].next == r[SuccBut(i, k, n)] && r[i].prev == r[PredBut(i, k, n)] {
        assert old(r[i].next) == r[Succ(i, n)] && old(r[i].prev) == r[Pred(i, n)];
        assert i != Pred(k, n) ==> r[i] != prev;
        assert i != Succ(k, n) ==> r[i] != next;
      }
      SkippingRing(r, k);
    }
  }

  method InitListHead<T>(node: ListHead<T>)
    modifies node`next, node`prev
    ensures Ring([node])
  {
    node.prev := node;
    node.next := node;
  }

  method ListDelInit<T>(node: ListHead<T>, ghost r: seq<ListHead<T>>, ghost k: nat)
    requires Ring(r) && k < |r| && r[k] == node
    modifies node`next, node`prev, node.next`prev, node.prev`next
    ensures |r| > 1 ==> Ring(Without(r, k))
    ensures Ring([node])
  {
    WithoutOmits(r, k);
    ghost var s := if |r| > 1 then Without(r, k) else [node];
    hide Without, Succ, Pred;
    ListDel(node, r, k);
    assert Ring(s);
    hide Ring;
    InitListHead(node);
    assert |r| > 1 ==> Ring(s);
  }

  lemma WithoutOmits<T>(r: seq<ListHead<T>>, k: nat)
    requires Ring(r) && k < |r|
    ensures r[k] !in Without(r, k)
  {
    hide Without;
    WithoutElements(r, k);
  }

  method ListEmpty<T>(head: ListHead<T>, ghost r: seq<ListHead<T>>) returns (empty: bool)
    requires Ring(r) && r[0] == head
    ensures empty <==> r == [head]
  {
    empty := head.next == head;
    assert r[0].next == r[Succ(0, |r|)];
  }

  /** `list_for_each` from the sentinel of a ring: the `k`-th step stands on the `k`-th
      node, so the loop body runs once for every node but the sentinel. */
  method ListLength<T>(head: ListHead<T>, ghost r: seq<ListHead<T>>) returns (n: nat)
    requires Ring(r) && r[0] == head
    ensures n == |r| - 1
  {
    n := 0;
    var node := head.next;
    assert node == r[Succ(0, |r|)];
    while node != head
      invariant n < |r| && node == r[Succ(n, |r|)]
      decreases |r| - n
    {
      node := node.next;
      n := n + 1;
    }
  }

  /** The links of a ring determine it: two listings that start at one node are equal. */
  lemma {:induction false} RingUnique<T>(r: seq<ListHead<T>>, s: seq<ListHead<T>>)
    requires Ring(r) && Ring(s) && r[0] == s[0]
    ensures r == s
  {
    RingPrefix(r, s, if |r| <= |s| then |r| else |s|);
  }

  lemma {:induction false} RingPrefix<T>(r: seq<ListHead<T>>, s: seq<ListHead<T>>, n: nat)
    requires Ring(r) && Ring(s) && r[0] == s[0] && 0 < n <= |r| && n <= |s|
    ensures r[..n] == s[..n]
  {
    if n > 1 {
      RingPrefix(r, s, n - 1);
      assert r[n - 2] == r[..n - 1][n - 2] == s[..n - 1][n - 2] == s[n - 2];
      assert r[n - 2].next == r[n - 1] && s[n - 2].next == s[n - 1];
    }
  }

  /** Adding a node and deleting it again restores the ring and every link in it. */
  method AddThenDel<T>(node: ListHead<T>, head: ListHead<T>, ghost r: seq<ListHead<T>>)
    requires Ring(r) && r[0] == head && node !in r
    modifies node`next, node`prev, head`next, head.next`prev
    ensures Ring(r)
    ensures forall x :: x in r ==> x.next == old(x.next) && x.prev == old(x.prev)
  {
    hide Without;
    ghost var next := head.next;
    assert next == r[Succ(0, |r|)];
    RingLinks(r);
    ListAdd(node, head, r);
    ghost var s := [head, node] + r[1..];
    SecondOut(node, head, r);
    assert s[1].prev == head && s[1].next == s[Succ(1, |s|)] == next;
    ListDel(node, s, 1);
    RingLinks(r);
    forall i | 0 <= i < |r| ensures r[i].next == old(r[i].next) && r[i].prev == old(r[i].prev) {
      assert r[i].next == r[Succ(i, |r|)] && r[i].prev == r[Pred(i, |r|)];
    }
  }

  lemma RingLinks<T>(r: seq<ListHead<T>>)
    requires Ring(r)
    ensures Linked(r)
  {
  }

  lemma SecondOut<T>(node: ListHead<T>, head: ListHead<T>, r: seq<ListHead<T>>)
    requires r != [] && r[0] == head
    ensures Without([head, node] + r[1..], 1) == r
  {
  }
}
