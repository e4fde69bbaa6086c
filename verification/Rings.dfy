/** The circular doubly linked list of src/common/list.c and the queue macros of src/common/queue.h.

    A list variable of the C code is a pointer to its first node, or NULL; here it is the field `head` of a
    `Ring`. The ghost fields give the abstract value: `nodes` is the order in which the ring is walked from the
    head, `items` what those nodes carry. */
module Rings {
  import opened Seqs

  class Node<T> {
    var prev: Node<T>
    var next: Node<T>
    const item: T  // written once, when the node is allocated

    constructor (item: T)
      ensures this.item == item && prev == this && next == this
    {
      this.item := item;
      prev := this;
      next := this;
    }
  }

  // Slot j comes right after slot i on a circle of n slots.
  predicate Adjacent(i: int, j: int, n: nat) {
    0 <= i < n && 0 <= j < n && j == if i + 1 == n then 0 else i + 1
  }

  // The slot of p in a duplicate-free walk
  ghost function SlotOf<X>(s: seq<X>, p: X): (k: nat)
    requires p in s
    ensures k < |s| && s[k] == p
  {
    var k :| 0 <= k < |s| && s[k] == p;
    k
  }

  // Where list_insert_before puts the new node. Before the head node means after the last one: the head pointer
  // is moved only when the position is NULL.
  ghost function BeforeSlot<T>(ns: seq<Node<T>>, position: Node?<T>): (k: nat)
    requires position != null ==> ns == [] || position in ns
    ensures k <= |ns|
  {
    if ns == [] || position == null then 0
    else if position == ns[0] then |ns|
    else SlotOf(ns, position)
  }

  // Where list_insert_after puts the new node
  ghost function AfterSlot<T>(ns: seq<Node<T>>, position: Node?<T>): (k: nat)
    requires position != null ==> ns == [] || position in ns
    ensures k <= |ns|
  {
    if ns == [] then 0
    else if position == null then |ns|
    else SlotOf(ns, position) + 1
  }

  // The nodes of adjacent slots name each other.
  ghost predicate Linked<T>(ns: seq<Node<T>>)
    reads ns
  {
    forall i, j {:trigger Adjacent(i, j, |ns|)} :: Adjacent(i, j, |ns|) ==> ns[i].next == ns[j] && ns[j].prev == ns[i]
  }

  // The slots between which slot k of a circle of n opens: slot n opens at the same place as slot 0.
  function LeftOf(k: nat, n: nat): (j: nat)
    requires 0 < n && k <= n
    ensures j < n
  {
    if k == 0 then n - 1 else k - 1
  }

  function RightOf(k: nat, n: nat): (j: nat)
    requires 0 < n && k <= n
    ensures j < n
    ensures Adjacent(LeftOf(k, n), j, n)
  {
    if k == n then 0 else k
  }

  // Slot i of Spliced(s, k, x) holds slot SplicedFrom(i, k) of s when i is not k.
  function SplicedFrom(i: nat, k: nat): nat
    requires i != k
  {
    if i < k then i else i - 1
  }

  // Slot i of Without(s, k) holds slot WithoutFrom(i, k) of s.
  function WithoutFrom(i: nat, k: nat): nat {
    if i < k then i else i + 1
  }

  lemma SplicedAdjacent(n: nat, k: nat, i: nat, j: nat)
    requires 0 < n && k <= n && Adjacent(i, j, n + 1)
    ensures i != j
    ensures i == k ==> SplicedFrom(j, k) == RightOf(k, n)
    ensures j == k ==> SplicedFrom(i, k) == LeftOf(k, n)
    ensures i != k && j != k ==> Adjacent(SplicedFrom(i, k), SplicedFrom(j, k), n)
    ensures i != k && j != k ==> SplicedFrom(i, k) != LeftOf(k, n) && SplicedFrom(j, k) != RightOf(k, n)
  {
  }

  lemma WithoutAdjacent(n: nat, k: nat, i: nat, j: nat)
    requires 1 < n && k < n && Adjacent(i, j, n - 1)
    ensures var p, q := WithoutFrom(i, k), WithoutFrom(j, k);
      || (Adjacent(p, q, n) && p != LeftOf(k, n) && q != RightOf(k + 1, n))
      || (p == LeftOf(k, n) && q == RightOf(k + 1, n))
  {
  }

  ghost function ItemsOf<T>(ns: seq<Node<T>>): seq<T> {
    seq(|ns|, i requires 0 <= i < |ns| => ns[i].item)
  }

  class Ring<T> {
    var head: Node?<T>
    ghost var nodes: seq<Node<T>>

    ghost predicate Valid()
      reads this, nodes
    {
      && (head == null <==> nodes == [])
      && (nodes != [] ==> head == nodes[0])
      && Distinct(nodes)
      && Linked(nodes)
    }

    ghost function Items(): seq<T>
      reads this
    {
      ItemsOf(nodes)
    }

    constructor ()
      ensures Valid() && nodes == []
    {
      head := null;
      nodes := [];
    }

    // Links n between two neighbours: the pointer writes that list_insert_before and list_insert_after share.
    method Link(n: Node<T>, at: Node<T>, ghost k: nat)
      requires nodes != [] && k <= |nodes| && Distinct(nodes) && Linked(nodes) && n !in nodes
      requires at == nodes[RightOf(k, |nodes|)]
      modifies n`prev, n`next, nodes
      ensures Linked(Spliced(nodes, k, n))
      ensures n.next == at && n.prev == old(at.prev)
    {
      ghost var l, r := LeftOf(k, |nodes|), RightOf(k, |nodes|);
      n.prev := at.prev;
      n.next := at;
      at.prev.next := n;
      at.prev := n;
      ghost var s := Spliced(nodes, k, n);
      forall i, j | Adjacent(i, j, |s|)
        ensures s[i].next == s[j] && s[j].prev == s[i]
      {
        SplicedAdjacent(|nodes|, k, i, j);
        if i != k {
          OneSlotEach(nodes, SplicedFrom(i, k), l);
        }
        if j != k {
          OneSlotEach(nodes, SplicedFrom(j, k), r);
        }
      }
    }

    method InsertBefore(position: Node?<T>, item: T) returns (n: Node<T>)
      requires Valid()
      requires position != null ==> nodes == [] || position in nodes
      modifies this, nodes
      ensures Valid() && fresh(n)
      ensures nodes == Spliced(old(nodes), BeforeSlot(old(nodes), position), n)
      ensures Items() == Spliced(old(Items()), BeforeSlot(old(nodes), position), item)
      ensures head == if old(head) == null || position == null then n else old(head)
      ensures old(head) != null ==>
        n.next == (if position == null then old(head) else position)
        && n.prev == old((if position == null then head else position).prev)
    {
      n := new Node(item);
      ghost var k := BeforeSlot(nodes, position);
      if head == null {
        n.prev := n;
        n.next := n;
        head := n;
      } else if position == null {
        Link(n, head, k);
        head := n;
      } else {
        Link(n, position, k);
      }
      SplicedIsDistinct(nodes, k, n);
      nodes := Spliced(nodes, k, n);
    }

    method InsertAfter(position: Node?<T>, item: T) returns (n: Node<T>)
      requires Valid()
      requires position != null ==> nodes == [] || position in nodes
      modifies this, nodes
      ensures Valid() && fresh(n)
      ensures nodes == Spliced(old(nodes), AfterSlot(old(nodes), position), n)
      ensures Items() == Spliced(old(Items()), AfterSlot(old(nodes), position), item)
      ensures head == if old(head) == null then n else old(head)
      ensures old(head) != null ==>
        n.prev == (if position == null then old(head.prev) else position)
        && n.next == old((if position == null then head.prev else position).next)
    {
      n := new Node(item);
      ghost var k := AfterSlot(nodes, position);
      if head == null {
        n.prev := n;
        n.next := n;
        head := n;
      } else {
        var p: Node<T> := if position == null then head.prev else position;
        assert Adjacent(|nodes| - 1, 0, |nodes|);
        assert Adjacent(k - 1, RightOf(k, |nodes|), |nodes|);
        Link(n, p.next, k);
      }
      SplicedIsDistinct(nodes, k, n);
      nodes := Spliced(nodes, k, n);
    }

    // Takes p out of its circle: the pointer writes at the end of list_remove
    method Unlink(p: Node<T>, ghost k: nat)
      requires 1 < |nodes| && k < |nodes| && p == nodes[k] && Distinct(nodes) && Linked(nodes)
      modifies nodes
      ensures Linked(Without(nodes, k))
    {
      ghost var l, r := LeftOf(k, |nodes|), RightOf(k + 1, |nodes|);
      assert Adjacent(l, k, |nodes|) && Adjacent(k, r, |nodes|);
      OneSlotEach(nodes, l, k);
      OneSlotEach(nodes, k, r);
      p.prev.next := p.next;
      p.next.prev := p.prev;
      ghost var s := Without(nodes, k);
      forall i, j | Adjacent(i, j, |s|)
        ensures s[i].next == s[j] && s[j].prev == s[i]
      {
        WithoutAdjacent(|nodes|, k, i, j);
        OneSlotEach(nodes, WithoutFrom(i, k), l);
        OneSlotEach(nodes, WithoutFrom(j, k), r);
      }
    }

    method Remove(p: Node<T>)
      requires Valid()
      requires nodes == [] || p in nodes
      modifies this, nodes
      ensures Valid()
      ensures old(nodes) == [] ==> nodes == []
      ensures old(nodes) != [] ==> nodes == Without(old(nodes), SlotOf(old(nodes), p))
      ensures old(nodes) != [] ==> Items() == Without(old(Items()), SlotOf(old(nodes), p))
      ensures |old(nodes)| > 1 ==> head == old(if head == p then p.next else head)
    {
      if head == null {
        return;
      }
      ghost var k := SlotOf(nodes, p);
      if head == p {
        OneSlotEach(nodes, 0, k);
        assert Adjacent(|nodes| - 1, 0, |nodes|) && Adjacent(0, RightOf(1, |nodes|), |nodes|);
        OneSlotEach(nodes, 0, |nodes| - 1);
        if p.prev == p {
          assert |nodes| == 1;
          head := null;
          nodes := [];
          return;
        } else {
          head := p.next;
        }
      }
      Unlink(p, k);
      WithoutIsDistinct(nodes, k);
      nodes := Without(nodes, k);
    }

    // Empties the ring from the head; `visited` is the order in which the destructor callback sees the items.
    method Destroy() returns (ghost visited: seq<T>, steps: nat)
      requires Valid()
      modifies this, nodes
      ensures Valid() && nodes == []
      ensures visited == old(Items()) && steps == |visited|
    {
      visited, steps := [], 0;
      while head != null
        invariant Valid() && steps <= |old(nodes)|
        invariant nodes == old(nodes)[steps..]
        invariant visited == old(Items())[..steps]
        decreases |nodes|
      {
        var first: Node<T> := head;
        visited := visited + [first.item];
        OneSlotEach(nodes, 0, SlotOf(nodes, first));
        ghost var before := nodes;
        Remove(first);
        assert nodes == before[1..];
        steps := steps + 1;
      }
    }

    // queue_front, queue_back, queue_push and queue_pop

    method Push(item: T)
      requires Valid()
      modifies this, nodes
      ensures Valid() && Items() == old(Items()) + [item]
      ensures |nodes| == |old(nodes)| + 1 && nodes[..|old(nodes)|] == old(nodes) && fresh(nodes[|old(nodes)|])
    {
      var n := InsertAfter(null, item);
    }

    method Pop() returns (item: T)
      requires Valid() && head != null
      modifies this, nodes
      ensures Valid() && [item] + Items() == old(Items()) && nodes == old(nodes)[1..]
    {
      var first: Node<T> := head;
      item := first.item;
      OneSlotEach(nodes, 0, SlotOf(nodes, first));
      Remove(first);
      assert nodes == old(nodes)[1..];
    }
  }

  // Walking `steps` times along next
  ghost function Walk<T>(n: Node<T>, steps: nat): Node<T>
    reads *
    decreases steps
  {
    if steps == 0 then n else Walk(n, steps - 1).next
  }

  // Following next from the head visits the nodes in order and comes back to the head after the last one.
  lemma {:induction false} WalkVisitsEachNodeOnce<T>(r: Ring<T>, steps: nat)
    requires r.Valid() && r.head != null && steps <= |r.nodes|
    ensures Walk(r.head, steps) == if steps == |r.nodes| then r.head else r.nodes[steps]
  {
    if steps > 0 {
      WalkVisitsEachNodeOnce(r, steps - 1);
      assert Adjacent(steps - 1, RightOf(steps, |r.nodes|), |r.nodes|);
    }
  }

  // prev and next undo each other on every node of the ring.
  lemma PrevInvertsNext<T>(r: Ring<T>, n: Node<T>)
    requires r.Valid() && n in r.nodes
    ensures n.next in r.nodes && n.prev in r.nodes
    ensures n.next.prev == n && n.prev.next == n
  {
    var i, m := SlotOf(r.nodes, n), |r.nodes|;
    assert Adjacent(i, RightOf(i + 1, m), m) && Adjacent(LeftOf(i, m), i, m);
  }

  // One step of a do-while walk from the head: the walk is back at the head exactly after the last node.
  lemma WalkOn<T>(r: Ring<T>, k: nat)
    requires r.Valid() && k < |r.nodes|
    ensures r.nodes[k].next == r.head <==> k + 1 == |r.nodes|
    ensures k + 1 < |r.nodes| ==> r.nodes[k].next == r.nodes[k + 1]
  {
    var n := |r.nodes|;
    assert Adjacent(k, RightOf(k + 1, n), n);
    OneSlotEach(r.nodes, 0, RightOf(k + 1, n));
  }

  // list_get_node_by_item: the first node that carries the item
  method FindByItem<T(==)>(r: Ring<T>, item: T) returns (p: Node?<T>)
    requires r.Valid()
    ensures p == null <==> item !in r.Items()
    ensures p != null ==> exists k ::
      0 <= k < |r.nodes| && p == r.nodes[k] && r.Items()[k] == item && item !in r.Items()[..k]
  {
    if r.head == null {
      return null;
    }
    p := r.head;
    ghost var k := 0;
    while true
      invariant k < |r.nodes| && p == r.nodes[k] && item !in r.Items()[..k]
      decreases |r.nodes| - k
    {
      if p.item == item {
        assert r.Items()[k] == item;
        return;
      }
      assert r.Items()[k] == p.item;
      WalkOn(r, k);
      p := p.next;
      k := k + 1;
      if p == r.head {
        break;
      }
    }
    return null;
  }
}
