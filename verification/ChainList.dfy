/** The intrusive lists of list.c: rings of chains through a list head. */
module ChainList {

  class Chain {
    var next: Chain?
    var prev: Chain?

    /** chain_init */
    constructor ()
      ensures next == null && prev == null
    {
      next, prev := null, null;
    }
  }

  /** Place i of the ring: the list head is at both ends. */
  ghost function At(list: Chain, nodes: seq<Chain>, i: int): Chain
    requires 0 <= i <= |nodes| + 1
  {
    if i == 0 || i == |nodes| + 1 then list else nodes[i - 1]
  }

  ghost predicate Distinct(list: Chain, nodes: seq<Chain>) {
    list !in nodes && forall i, j :: 0 <= i < j < |nodes| ==> nodes[i] != nodes[j]
  }

  /** The ring of list goes through these nodes, in both directions. */
  ghost predicate Linked(list: Chain, nodes: seq<Chain>)
    reads list, nodes
  {
    && Distinct(list, nodes)
    && forall i :: 0 <= i <= |nodes| ==>
         At(list, nodes, i).next == At(list, nodes, i + 1) && At(list, nodes, i + 1).prev == At(list, nodes, i)
  }

  /** list_init */
  method ListInit(list: Chain)
    modifies list
    ensures Linked(list, [])
  {
    list.next, list.prev := list, list;
  }

  /** list_empty */
  method ListEmpty(list: Chain, ghost nodes: seq<Chain>) returns (r: bool)
    requires Linked(list, nodes)
    ensures r <==> nodes == []
  {
    assert At(list, nodes, 0).next == At(list, nodes, 1);
    r := list.next == list;
  }

  /** chain_link3 and the like, for the place between nodes i and i + 1. */
  method Insert(left: Chain, chain: Chain, right: Chain, ghost list: Chain, ghost nodes: seq<Chain>, ghost i: nat)
    requires Linked(list, nodes) && i <= |nodes| && left == At(list, nodes, i) && right == At(list, nodes, i + 1)
    requires chain != list && chain !in nodes
    modifies list, nodes, chain
    ensures Linked(list, nodes[..i] + [chain] + nodes[i..])
  {
    left.next := chain;
    chain.prev := left;
    chain.next := right;
    right.prev := chain;
    ghost var more := nodes[..i] + [chain] + nodes[i..];
    forall k | 0 <= k <= |more|
      ensures At(list, more, k).next == At(list, more, k + 1) && At(list, more, k + 1).prev == At(list, more, k)
    {
      InsertedPlaces(list, nodes, chain, i, k);
    }
  }

  lemma InsertedPlaces(list: Chain, nodes: seq<Chain>, chain: Chain, i: nat, k: nat)
    requires Distinct(list, nodes) && chain != list && chain !in nodes && i <= |nodes| && k <= |nodes| + 1
    ensures var more := nodes[..i] + [chain] + nodes[i..];
            && Distinct(list, more)
            && At(list, more, k) == (if k <= i then At(list, nodes, k) else if k == i +
                 1 then chain else At(list, nodes, k - 1))
            && At(list, more, k + 1) == (if k < i then At(list, nodes, k +
                 1) else if k == i then chain else At(list, nodes, k))
  {
  }

  /** list_push_tail; its assertion is that the chain is on no list. */
  method PushTail(list: Chain, chain: Chain, ghost nodes: seq<Chain>)
    requires Linked(list, nodes) && chain != list && chain !in nodes && chain.next == null
    modifies list, nodes, chain
    ensures Linked(list, nodes + [chain])
  {
    assert At(list, nodes, |nodes| + 1).prev == At(list, nodes, |nodes|);
    Insert(list.prev, chain, list, list, nodes, |nodes|);
    assert nodes[..|nodes|] + [chain] + nodes[|nodes|..] == nodes + [chain];
  }

  /** list_push_head */
  method PushHead(list: Chain, chain: Chain, ghost nodes: seq<Chain>)
    requires Linked(list, nodes) && chain != list && chain !in nodes && chain.next == null
    modifies list, nodes, chain
    ensures Linked(list, [chain] + nodes)
  {
    assert At(list, nodes, 0).next == At(list, nodes, 1);
    Insert(list, chain, list.next, list, nodes, 0);
    assert nodes[..0] + [chain] + nodes[0..] == [chain] + nodes;
  }

  /** chain_unlink, wherever in whichever list the chain is. */
  method Unlink(chain: Chain, ghost list: Chain, ghost nodes: seq<Chain>, ghost i: nat)
    requires Linked(list, nodes) && i < |nodes| && nodes[i] == chain
    modifies list, nodes
    ensures Linked(list, nodes[..i] + nodes[i + 1..]) && chain.next == null && chain.prev == null
  {
    assert At(list, nodes, i).next == At(list, nodes, i + 1) && At(list, nodes, i + 1).prev == At(list, nodes, i);
    assert At(list, nodes, i + 1).next == At(list, nodes, i + 2) &&
        At(list, nodes, i + 2).prev == At(list, nodes, i + 1);
    chain.prev.next := chain.next;
    chain.next.prev := chain.prev;
    chain.next := null;
    chain.prev := null;
    ghost var fewer := nodes[..i] + nodes[i + 1..];
    forall k | 0 <= k <= |fewer|
      ensures At(list, fewer, k).next == At(list, fewer, k + 1) && At(list, fewer, k + 1).prev == At(list, fewer, k)
    {
      UnlinkedPlaces(list, nodes, i, k);
    }
  }

  lemma UnlinkedPlaces(list: Chain, nodes: seq<Chain>, i: nat, k: nat)
    requires Distinct(list, nodes) && i < |nodes| && k < |nodes|
    ensures var fewer := nodes[..i] + nodes[i + 1..];
            && Distinct(list, fewer) && nodes[i] !in fewer
            && At(list, fewer, k) == (if k <= i then At(list, nodes, k) else At(list, nodes, k + 1))
            && At(list, fewer, k + 1) == (if k < i then At(list, nodes, k + 1) else At(list, nodes, k + 2))
  {
  }

  lemma EndsAre(list: Chain, nodes: seq<Chain>)
    requires Linked(list, nodes) && nodes != []
    ensures list.next == nodes[0] && list.prev == nodes[|nodes| - 1]
  {
    var n := |nodes|;
    assert At(list, nodes, 0).next == At(list, nodes, 1) && At(list, nodes, n + 1).prev == At(list, nodes, n);
  }

  /** list_pop_head */
  method PopHead(list: Chain, ghost nodes: seq<Chain>) returns (head: Chain?)
    requires Linked(list, nodes)
    modifies list, nodes
    ensures nodes == [] ==> head == null && Linked(list, [])
    ensures nodes != [] ==> head == nodes[0] && Linked(list, nodes[1..]) && head.next == null && head.prev == null
  {
    hide *;
    var empty := ListEmpty(list, nodes);
    if empty {
      return null;
    }
    EndsAre(list, nodes);
    head := list.next;
    assert nodes[..0] + nodes[1..] == nodes[1..];
    Unlink(head, list, nodes, 0);
  }

  /** list_pop_tail */
  method PopTail(list: Chain, ghost nodes: seq<Chain>) returns (tail: Chain?)
    requires Linked(list, nodes)
    modifies list, nodes
    ensures nodes == [] ==> tail == null && Linked(list, [])
    ensures nodes != [] ==>
            tail == nodes[|nodes| - 1] && Linked(list, nodes[..|nodes| - 1]) && tail.next == null && tail.prev == null
  {
    hide *;
    var empty := ListEmpty(list, nodes);
    if empty {
      return null;
    }
    ghost var n := |nodes| - 1;
    EndsAre(list, nodes);
    tail := list.prev;
    assert nodes[..n] + nodes[n + 1..] == nodes[..n];
    Unlink(tail, list, nodes, n);
  }

  /** In a ring, the first node after the head is the first, and so the order is
      determined: two accounts of the same ring agree. */
  lemma {:induction false} OneOrder(list: Chain, a: seq<Chain>, b: seq<Chain>, k: nat)
    requires Linked(list, a) && Linked(list, b) && k <= |a| + 1 && k <= |b| + 1
    ensures k <= |a| && k <= |b| ==> At(list, a, k) == At(list, b, k)
    decreases k
  {
    if k > 0 {
      OneOrder(list, a, b, k - 1);
    }
  }

  lemma Determined(list: Chain, a: seq<Chain>, b: seq<Chain>)
    requires Linked(list, a) && Linked(list, b)
    ensures a == b
  {
    var n := if |a| <= |b| then |a| else |b|;
    OneOrder(list, a, b, n);
    assert At(list, a, n).next == At(list, a, n + 1) && At(list, b, n).next == At(list, b, n + 1);
    forall k: nat | k < n ensures a[k] == b[k] {
      OneOrder(list, a, b, k + 1);
      assert At(list, a, k + 1) == a[k] && At(list, b, k + 1) == b[k];
    }
  }
}
