/**
 The intrusive doubly linked list of libs/common/include/list.h. A list head and
 its elements form a ring; the ring stands for the sequence of the elements.
 */
module List {
  import opened Common

  /** `struct list_head`, as a list or as an element's link. */
  class Link {
    var prev: Link?
    var next: Link?

    /** list_init(): the empty list. */
    constructor ()
      ensures IsList(this, [])
    {
      prev, next := this, this;
      new;
      assert Linked([this], 0);
    }
  }

  /** The i-th link and the one after it point at each other. */
  ghost predicate Linked(ring: seq<Link>, i: nat)
    requires i < |ring|
    reads ring
  {
    var after := ring[if i + 1 < |ring| then i + 1 else 0];
    ring[i].next == after && after.prev == ring[i]
  }

  ghost predicate IsRing(ring: seq<Link>)
    reads ring
  {
    NoDup(ring) && forall i {:trigger Linked(ring, i)} :: 0 <= i < |ring| ==> Linked(ring, i)
  }

  /** The list holds exactly these elements, in this order. */
  ghost predicate IsList(list: Link, elems: seq<Link>)
    reads [list] + elems
  {
    IsRing([list] + elems)
  }

  /** list_is_empty() */
  method IsEmpty(list: Link, ghost elems: seq<Link>) returns (empty: bool)
    requires IsList(list, elems)
    ensures empty <==> elems == []
  {
    assert Linked([list] + elems, 0);
    empty := list.next == list;
  }

  /** list_len() */
  method Len(list: Link, ghost elems: seq<Link>) returns (n: nat)
    requires IsList(list, elems)
    ensures n == |elems|
  {
    ghost var ring := [list] + elems;
    assert Linked(ring, 0);
    n := 0;
    var node := list.next;
    while node != list
      invariant n <= |elems| && node == ring[if n + 1 < |ring| then n + 1 else 0]
      decreases |elems| - n
    {
      assert Linked(ring, n + 1);
      n, node := n + 1, node.next;
    }
  }

  /** list_contains() */
  method Contains(list: Link, elem: Link, ghost elems: seq<Link>) returns (found: bool)
    requires IsList(list, elems)
    ensures found <==> elem in elems
  {
    ghost var ring := [list] + elems;
    assert Linked(ring, 0);
    ghost var n := 0;
    var node := list.next;
    while node != list
      invariant n <= |elems| && node == ring[if n + 1 < |ring| then n + 1 else 0] && elem !in elems[..n]
      decreases |elems| - n
    {
      if node == elem { return true; }
      assert Linked(ring, n + 1);
      n, node := n + 1, node.next;
    }
    return false;
  }

  /** list_push_back() of an element that is in no list. */
  method PushBack(list: Link, elem: Link, ghost elems: seq<Link>)
    requires IsList(list, elems) && elem != list && elem !in elems
    modifies list, elem, if elems == [] then list else elems[|elems| - 1]
    ensures IsList(list, elems + [elem])
  {
    ghost var ring := [list] + elems;
    assert Linked(ring, |elems|);
    var last := list.prev;
    elem.prev := last;
    elem.next := list;
    list.prev := elem;
    last.next := elem;
    ghost var longer := [list] + (elems + [elem]);
    assert longer == ring + [elem];
    forall i | 0 <= i < |longer| ensures Linked(longer, i) {
      if i < |elems| { assert old(Linked(ring, i)); }
    }
  }

  /** Leaving out one element keeps the others apart. */
  lemma WithoutDistinct(list: Link, elems: seq<Link>, k: nat)
    requires NoDup([list] + elems) && k < |elems|
    ensures NoDup([list] + (elems[..k] + elems[k + 1..])) && elems[k] !in [list] + (elems[..k] + elems[k + 1..])
  {
    var ring, rest := [list] + elems, [list] + (elems[..k] + elems[k + 1..]);
    assert forall i :: 0 <= i < |rest| ==> rest[i] == ring[if i <= k then i else i + 1];
    assert ring[k + 1] == elems[k];
  }

  /** list_pop_front() */
  method PopFront(list: Link, ghost elems: seq<Link>) returns (head: Link?)
    requires IsList(list, elems)
    modifies list, elems
    ensures elems == [] ==> head == null && IsList(list, elems)
    ensures elems != [] ==>
            head == elems[0] && IsList(list, elems[1..]) && elems[0].next == null && elems[0].prev == null
  {
    ghost var ring := [list] + elems;
    assert Linked(ring, 0);
    head := list.next;
    if head == list { return null; }
    assert Linked(ring, 1);
    WithoutDistinct(list, elems, 0);
    assert elems[..0] + elems[1..] == elems[1..];
    var next := head.next;
    list.next := next;
    next.prev := list;
    head.prev, head.next := null, null;
    ghost var rest := [list] + elems[1..];
    forall i | 0 <= i < |rest| ensures Linked(rest, i) {
      if i > 0 { assert old(Linked(ring, i + 1)); }
    }
  }

  /** list_remove(): of an element wherever it is in a list, or of a link that is in none. */
  method Remove(elem: Link, ghost list: Link, ghost elems: seq<Link>, ghost k: nat)
    requires elem.next != null ==> IsList(list, elems) && k < |elems| && elem == elems[k]
    modifies list, elems
    ensures old(elem.next) == null ==> unchanged(elem) && unchanged(list) && unchanged(elems)
    ensures old(elem.next) != null ==>
            IsList(list, elems[..k] + elems[k + 1..]) && elem.next == null && elem.prev == null
  {
    if elem.next == null { return; }
    ghost var ring := [list] + elems;
    WithoutDistinct(list, elems, k);
    assert Linked(ring, k) && Linked(ring, k + 1);
    elem.prev.next := elem.next;
    elem.next.prev := elem.prev;
    elem.prev, elem.next := null, null;
    ghost var rest := [list] + (elems[..k] + elems[k + 1..]);
    forall i | 0 <= i < |rest| ensures Linked(rest, i) {
      if i < k { assert old(Linked(ring, i)); } else if i > k { assert old(Linked(ring, i + 1)); }
    }
  }
}
