/**
 Intrusive circular doubly linked lists.  A list is given by its head node; `IsList(head, q)` says that
 the pointers reachable from `head` represent the sequence `q`.  Every operation is stated on that
 sequence; because each one only writes nodes of its own list and the node it links, all other lists
 keep what they represent.
 */
module Lists {

  class ListNode {
    /** Identifies the structure that contains the node: it stands for the node's address. */
    const slot: nat
    var next: ListNode?
    var prev: ListNode?

    /** A node inside a zero-initialised structure. */
    constructor (slot: nat)
      ensures this.slot == slot && next == null && prev == null
    {
      this.slot := slot;
      next, prev := null, null;
    }

    /** The head of an empty list. */
    constructor Head(slot: nat)
      ensures this.slot == slot && IsList(this, [])
    {
      this.slot := slot;
      next, prev := this, this;
    }
  }

  /** The nodes in the order in which `next` visits them, from the head around to the head. */
  ghost function Cycle(head: ListNode, q: seq<ListNode>): seq<ListNode> {
    [head] + q + [head]
  }

  ghost predicate Distinct(head: ListNode, q: seq<ListNode>) {
    head !in q && forall j, k :: 0 <= j < k < |q| ==> q[j] != q[k]
  }

  /** `next` and `prev` are inverse to each other along the cycle through `head` and `q`. */
  ghost predicate IsList(head: ListNode, q: seq<ListNode>)
    reads head, q
  {
    var c := Cycle(head, q);
    && Distinct(head, q)
    && forall i :: 0 <= i <= |q| ==> c[i].next == c[i + 1] && c[i + 1].prev == c[i]
  }

  method IsEmpty(head: ListNode, ghost q: seq<ListNode>) returns (empty: bool)
    requires IsList(head, q)
    ensures empty <==> q == []
  {
    assert Cycle(head, q)[0] == head && Cycle(head, q)[1] == if q == [] then head else q[0];
    empty := head == head.next;
  }

  method GetFirst(head: ListNode, ghost q: seq<ListNode>) returns (first: ListNode?)
    requires IsList(head, q)
    ensures first == if q == [] then null else q[0]
  {
    var empty := IsEmpty(head, q);
    if empty {
      return null;
    }
    assert Cycle(head, q)[0] == head && Cycle(head, q)[1] == q[0];
    first := head.next;
  }

  method GetLast(head: ListNode, ghost q: seq<ListNode>) returns (last: ListNode?)
    requires IsList(head, q)
    ensures last == if q == [] then null else q[|q| - 1]
  {
    var empty := IsEmpty(head, q);
    if empty {
      return null;
    }
    assert Cycle(head, q)[|q| + 1] == head && Cycle(head, q)[|q|] == q[|q| - 1];
    last := head.prev;
  }

  /** Links `node` in behind `prev`. */
  method AddAfter(node: ListNode, prev: ListNode)
    requires prev.next != null && node != prev && node != prev.next
    modifies node`next, node`prev, prev`next, prev.next`prev
    ensures node.prev == prev && node.next == old(prev.next)
    ensures prev.next == node && old(prev.next).prev == node
  {
    node.prev := prev;
    node.next := prev.next;
    prev.next.prev := node;
    prev.next := node;
  }

  method AddFirst(head: ListNode, node: ListNode, ghost q: seq<ListNode>)
    requires IsList(head, q) && node != head && node !in q
    modifies head, q, node
    ensures IsList(head, [node] + q)
  {
    ghost var c, c' := Cycle(head, q), Cycle(head, [node] + q);
    assert c[0] == head && c[1] == (if q == [] then head else q[0]) && head.next == c[1];
    AddAfter(node, head);
    assert c'[0] == head && c'[1] == node;
    forall i | 2 <= i <= |q| + 1
      ensures c'[i].next == c'[i + 1] && c'[i + 1].prev == c'[i]
    {
      assert c'[i] == c[i - 1] && c'[i + 1] == c[i];
    }
    assert c'[2] == c[1];
  }

  method AddLast(head: ListNode, node: ListNode, ghost q: seq<ListNode>)
    requires IsList(head, q) && node != head && node !in q
    modifies head, q, node
    ensures IsList(head, q + [node])
  {
    ghost var c, c' := Cycle(head, q), Cycle(head, q + [node]);
    assert c[|q| + 1] == head && c[|q|].next == head;
    AddAfter(node, head.prev);
    assert forall i :: 0 <= i <= |q| ==> c'[i] == c[i];
    assert c'[|q| + 1] == node && c'[|q| + 2] == head;
  }

  /** Unlinks `node` from its neighbours; its own pointers stay as they are. */
  method Unlink(node: ListNode)
    requires node.prev != null && node.next != null
    modifies node.prev`next, node.next`prev
    ensures old(node.prev).next == old(node.next) && old(node.next).prev == old(node.prev)
  {
    node.prev.next := node.next;
    node.next.prev := node.prev;
  }

  /** Unlinks the k-th node of the list. */
  method UnlinkAt(head: ListNode, node: ListNode, ghost q: seq<ListNode>, ghost k: nat)
    requires IsList(head, q) && k < |q| && node == q[k]
    modifies head, q
    ensures IsList(head, q[..k] + q[k + 1..])
    ensures node.next == old(node.next) && node.prev == old(node.prev)
  {
    ghost var c, c' := Cycle(head, q), Cycle(head, q[..k] + q[k + 1..]);
    assert c[k + 1] == node && c[k].next == node && c[k + 2].prev == node;
    Unlink(node);
    assert forall i :: 0 <= i <= k ==> c'[i] == c[i];
    assert forall i :: k < i <= |q| ==> c'[i] == c[i + 1];
  }

  method RemoveFirst(head: ListNode, ghost q: seq<ListNode>) returns (del: ListNode?)
    requires IsList(head, q)
    modifies head, q
    ensures q == [] ==> del == null && IsList(head, q)
    ensures q != [] ==> del == q[0] && IsList(head, q[1..])
  {
    var empty := IsEmpty(head, q);
    if empty {
      return null;
    }
    assert Cycle(head, q)[0] == head && Cycle(head, q)[1] == q[0];
    del := head.next;
    UnlinkAt(head, del, q, 0);
    assert IsList(head, q[..0] + q[1..]) && q[..0] + q[1..] == q[1..];
  }

  method RemoveLast(head: ListNode, ghost q: seq<ListNode>) returns (del: ListNode?)
    requires IsList(head, q)
    modifies head, q
    ensures q == [] ==> del == null && IsList(head, q)
    ensures q != [] ==> del == q[|q| - 1] && IsList(head, q[..|q| - 1])
  {
    var empty := IsEmpty(head, q);
    if empty {
      return null;
    }
    ghost var k := |q| - 1;
    assert Cycle(head, q)[|q| + 1] == head && Cycle(head, q)[|q|] == q[k];
    del := head.prev;
    UnlinkAt(head, del, q, k);
    assert IsList(head, q[..k] + q[k + 1..]) && q[..k] + q[k + 1..] == q[..k];
  }

  /** Searches the list for `rem`; the search visits each node at most once. */
  method Remove(head: ListNode, rem: ListNode, ghost q: seq<ListNode>) returns (found: ListNode?, ghost k: nat)
    requires IsList(head, q)
    modifies head, q
    ensures rem !in q ==> found == null && IsList(head, q)
    ensures rem in q ==> found == rem && k < |q| && q[k] == rem && IsList(head, q[..k] + q[k + 1..])
    ensures rem.next == old(rem.next) || rem == head || rem !in q
  {
    k := 0;
    assert Cycle(head, q)[0] == head && Cycle(head, q)[1] == if q == [] then head else q[0];
    var curr := head.next;
    while curr != head
      invariant k <= |q| && curr == Cycle(head, q)[k + 1]
      invariant rem !in q[..k]
      invariant IsList(head, q)
      decreases |q| - k
    {
      if curr == rem {
        UnlinkAt(head, curr, q, k);
        return curr, k;
      }
      assert Cycle(head, q)[k + 1] == q[k] && q[..k + 1] == q[..k] + [q[k]];
      curr := curr.next;
      k := k + 1;
    }
    assert k == |q| && q[..k] == q;
    found := null;
  }
}
