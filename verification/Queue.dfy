/** The circular doubly linked queues of ngx_queue.h and ngx_queue.c: the macros act on the nodes as
    insertion, removal, cutting and joining act on sequences, and the sort is a stable sort. */
module Queue {
  import opened QueueOrder

  class Node {
    var prev: Node
    var next: Node

    /** ngx_queue_init */
    constructor ()
      ensures prev == this && next == this
    {
      prev := this;
      next := this;
    }
  }

  /** The node after position `k - 1`, the first one again after the last. */
  function At(ring: seq<Node>, k: nat): Node
    requires 0 < |ring| && k <= |ring|
  {
    if k == |ring| then ring[0] else ring[k]
  }

  ghost predicate Distinct(ring: seq<Node>) {
    forall i, j :: 0 <= i < j < |ring| ==> ring[i] != ring[j]
  }

  /** `ring` is the sentinel followed by the queue's nodes, linked both ways. */
  ghost predicate Linked(ring: seq<Node>)
    reads ring
  {
    && ring != []
    && Distinct(ring)
    && forall i {:trigger ring[i]} :: 0 <= i < |ring| ==> ring[i].next == At(ring, i + 1) && At(ring, i + 1).prev == ring[i]
  }

  /** The neighbours of a position. */
  lemma Neighbours(ring: seq<Node>, i: nat)
    requires Linked(ring) && i < |ring|
    ensures ring[i] in ring && ring[i].next == At(ring, i + 1) && At(ring, i + 1) in ring
    ensures i > 0 ==> ring[i].prev == ring[i - 1] && ring[i - 1] in ring
    ensures i == 0 ==> ring[i].prev == ring[|ring| - 1] && ring[|ring| - 1] in ring
  {
    var before := if i == 0 then |ring| - 1 else i - 1;
    assert ring[before].next == At(ring, before + 1);
  }

  /** ngx_queue_insert_head on a sentinel, ngx_queue_insert_after on any node. */
  method InsertAfter(h: Node, x: Node, ghost ring: seq<Node>, ghost i: nat)
    requires Linked(ring) && i < |ring| && ring[i] == h && x !in ring
    modifies ring, x
    ensures Linked(Inserted(ring, i, x))
  {
    Neighbours(ring, i);
    x.next := h.next;
    x.next.prev := x;
    x.prev := h;
    h.next := x;
    InsertedAt(ring, i, x);
    ghost var all := Inserted(ring, i, x);
    forall k | 0 <= k < |all| ensures all[k].next == At(all, k + 1) && At(all, k + 1).prev == all[k] {
      if k < i {
        assert old(ring[k].next) == At(ring, k + 1);
      } else if k > i + 1 {
        assert old(ring[k - 1].next) == At(ring, k);
      }
    }
  }

  function Inserted(ring: seq<Node>, i: nat, x: Node): seq<Node>
    requires i < |ring|
  {
    ring[..i + 1] + [x] + ring[i + 1..]
  }

  lemma InsertedAt(ring: seq<Node>, i: nat, x: Node)
    requires Distinct(ring) && i < |ring| && x !in ring
    ensures var all := Inserted(ring, i, x);
            && Distinct(all) && |all| == |ring| + 1
            && (forall k :: 0 <= k <= i ==> all[k] == ring[k])
            && all[i + 1] == x
            && (forall k :: i + 1 < k < |all| ==> all[k] == ring[k - 1])
            && (forall k :: i + 1 < k <= |all| ==> At(all, k) == At(ring, k - 1))
  {
  }

  /** ngx_queue_insert_tail */
  method InsertTail(h: Node, x: Node, ghost ring: seq<Node>)
    requires Linked(ring) && ring[0] == h && x !in ring
    modifies ring, x
    ensures Linked(ring + [x])
  {
    Neighbours(ring, 0);
    x.prev := h.prev;
    x.prev.next := x;
    x.next := h;
    h.prev := x;
    ghost var all := ring + [x];
    forall k | 0 <= k < |all| ensures all[k].next == At(all, k + 1) && At(all, k + 1).prev == all[k] {
      if k < |ring| - 1 {
        assert old(ring[k].next) == At(ring, k + 1);
      }
    }
  }

  /** ngx_queue_remove */
  method Remove(x: Node, ghost ring: seq<Node>, ghost i: nat)
    requires Linked(ring) && 0 < i < |ring| && ring[i] == x
    modifies ring
    ensures Linked(ring[..i] + ring[i + 1..])
  {
    Neighbours(ring, i);
    x.next.prev := x.prev;
    x.prev.next := x.next;
    ghost var all := ring[..i] + ring[i + 1..];
    assert Distinct(all);
    forall k | 0 <= k < |all| ensures all[k].next == At(all, k + 1) && At(all, k + 1).prev == all[k] {
      if k < i - 1 {
        assert old(ring[k].next) == At(ring, k + 1);
      } else {
        assert At(all, k + 1) == At(ring, k + 2);
        assert k >= i ==> old(ring[k + 1].next) == At(ring, k + 2);
      }
    }
  }

  lemma SplitDistinct(ring: seq<Node>, i: nat, n: Node)
    requires Distinct(ring) && i <= |ring| && n !in ring
    ensures Distinct(ring[..i]) && Distinct([n] + ring[i..])
  {
  }

  /** The nodes that follow and precede position k when the ring has been cut at position i. */
  ghost function NextCut(ring: seq<Node>, i: nat, n: Node, k: nat): Node
    requires 0 < i < |ring| && k < |ring|
  {
    if k == i - 1 then ring[0] else if k == |ring| - 1 then n else ring[k + 1]
  }

  ghost function PrevCut(ring: seq<Node>, i: nat, n: Node, k: nat): Node
    requires 0 < i < |ring| && k < |ring|
  {
    if k == i then n else if k == 0 then ring[i - 1] else ring[k - 1]
  }

  lemma CutLinked(ring: seq<Node>, i: nat, n: Node)
    requires Distinct(ring) && 0 < i < |ring| && n !in ring
    requires n.next == ring[i] && n.prev == ring[|ring| - 1]
    requires forall k {:trigger NextCut(ring, i, n, k)} :: 0 <= k < |ring| ==> ring[k].next == NextCut(ring, i, n, k)
    requires forall k {:trigger PrevCut(ring, i, n, k)} :: 0 <= k < |ring| ==> ring[k].prev == PrevCut(ring, i, n, k)
    ensures Linked(ring[..i]) && Linked([n] + ring[i..])
  {
    hide Distinct;
    SplitDistinct(ring, i, n);
    var left, right := ring[..i], [n] + ring[i..];
    forall k | 0 <= k < |left| ensures left[k].next == At(left, k + 1) && At(left, k + 1).prev == left[k] {
      assert ring[k].next == NextCut(ring, i, n, k);
      var j := if k + 1 == i then 0 else k + 1;
      assert At(left, k + 1) == ring[j] && ring[j].prev == PrevCut(ring, i, n, j);
    }
    forall k | 0 <= k < |right| ensures right[k].next == At(right, k + 1) && At(right, k + 1).prev == right[k] {
      var j := i + k;
      if k > 0 {
        assert right[k] == ring[j - 1] && ring[j - 1].next == NextCut(ring, i, n, j - 1);
      }
      if j < |ring| {
        assert At(right, k + 1) == ring[j] && ring[j].prev == PrevCut(ring, i, n, j);
      }
    }
  }

  /** ngx_queue_split: the nodes from `q` on go to the new queue `n`. */
  method Split(h: Node, q: Node, n: Node, ghost ring: seq<Node>, ghost i: nat)
    requires Linked(ring) && ring[0] == h && 0 < i < |ring| && ring[i] == q && n !in ring
    modifies ring, n
    ensures Linked(ring[..i]) && Linked([n] + ring[i..])
  {
    Neighbours(ring, 0);
    Neighbours(ring, i);
    n.prev := h.prev;
    n.prev.next := n;
    n.next := q;
    h.prev := q.prev;
    h.prev.next := h;
    q.prev := n;
    forall k | 0 <= k < |ring| ensures ring[k].next == NextCut(ring, i, n, k) {
      assert old(ring[k].next) == At(ring, k + 1);
    }
    forall k | 0 <= k < |ring| ensures ring[k].prev == PrevCut(ring, i, n, k) {
      if k > 0 {
        assert old(ring[k - 1].next) == At(ring, k);
      }
    }
    CutLinked(ring, i, n);
  }

  /** ngx_queue_add: the nodes of `n` go to the end of `h`, also if either is empty. */
  method Add(h: Node, n: Node, ghost ring: seq<Node>, ghost other: seq<Node>)
    requires Linked(ring) && ring[0] == h && Linked(other) && other[0] == n
    requires forall x :: x in ring ==> x !in other
    modifies ring, other
    ensures Linked(ring + other[1..])
  {
    Neighbours(ring, 0);
    Neighbours(other, 0);
    h.prev.next := n.next;
    n.next.prev := h.prev;
    h.prev := n.prev;
    h.prev.next := h;
    ghost var all := ring + other[1..];
    DistinctJoin(ring, other[1..]);
    forall k | 0 <= k < |all| ensures all[k].next == At(all, k + 1) && At(all, k + 1).prev == all[k] {
      if k < |ring| - 1 {
        assert old(ring[k].next) == At(ring, k + 1);
      } else if k >= |ring| {
        assert old(other[k - |ring| + 1].next) == At(other, k - |ring| + 2);
      }
    }
  }

  lemma DistinctJoin(a: seq<Node>, b: seq<Node>)
    requires Distinct(a) && Distinct(b) && forall x :: x in a ==> x !in b
    ensures Distinct(a + b)
  {
    var all := a + b;
    forall i, j | 0 <= i < j < |all| ensures all[i] != all[j] {
      if i < |a| && j >= |a| {
        assert a[i] in a && b[j - |a|] in b;
      }
    }
  }

  /** Only the last position holds the last node, and only the first the sentinel. */
  lemma Ends(ring: seq<Node>, k: nat)
    requires Distinct(ring) && 0 < k <= |ring|
    ensures k < |ring| ==> (ring[k] == ring[|ring| - 1] <==> k == |ring| - 1)
    ensures At(ring, k) == ring[0] <==> k == |ring|
  {
  }

  /** Inside the ring `next` leads to the next position, and only the last one is the sentinel's `prev`. */
  lemma Walk(ring: seq<Node>, k: nat)
    requires Linked(ring) && k < |ring|
    ensures k + 1 < |ring| ==> ring[k].next == ring[k + 1]
    ensures ring[k] == ring[0].prev <==> k == |ring| - 1
  {
    Neighbours(ring, 0);
  }

  /** ngx_queue_middle: the middle one of an odd number of nodes, or the first of the second half. */
  method Middle(h: Node, ghost ring: seq<Node>) returns (middle: Node)
    requires Linked(ring) && ring[0] == h
    ensures middle == if |ring| == 1 then h else ring[1 + (|ring| - 1) / 2]
  {
    hide Distinct, At;
    Neighbours(ring, 0);
    Walk(ring, 0);
    middle := h.next;
    if |ring| > 1 {
      Walk(ring, 1);
    } else {
      assert middle == h by {
        Alone(ring);
      }
    }
    if middle == h.prev {
      return;
    }
    var next := h.next;
    ghost var k := 0;
    ghost var last := |ring| - 1;
    hide Linked();
    while true
      invariant 2 * k + 1 < last
      invariant middle == ring[1 + k] && next == ring[1 + 2 * k]
      decreases |ring| - k
    {
      Walk(ring, 1 + k);
      Walk(ring, 1 + 2 * k);
      Walk(ring, 2 + 2 * k);
      middle := middle.next;
      next := next.next;
      if next == h.prev {
        return;
      }
      next := next.next;
      k := k + 1;
      Walk(ring, 1 + 2 * k);
      if next == h.prev {
        return;
      }
    }
  }

  lemma Alone(ring: seq<Node>)
    requires Linked(ring) && |ring| == 1
    ensures ring[0].next == ring[0]
  {
    Neighbours(ring, 0);
  }

  lemma {:induction false} InsertBack(s: seq<Node>, j: nat, q: Node, cmp: (Node, Node) -> int)
    requires 0 < j <= |s| && cmp(s[j - 1], q) > 0
    ensures Insert(s[..j], q, cmp) + s[j..] == Insert(s[..j - 1], q, cmp) + s[j - 1..]
  {
    assert s[..j][..j - 1] == s[..j - 1];
    assert [s[j - 1]] + s[j..] == s[j - 1..];
  }

  /** Back from the end of `s` to the node that `q` goes after, `h` if it goes first. */
  method FindPlace(h: Node, q: Node, last: Node, cmp: (Node, Node) -> int, ghost ring: seq<Node>, ghost s: seq<Node>)
    returns (prev: Node, ghost j: nat)
    requires Linked(ring) && 0 < |s| < |ring| && ring[0] == h && s == ring[1..|s| + 1] && last == ring[|s|]
    ensures j <= |s| && prev == ring[j]
    ensures Insert(s, q, cmp) == s[..j] + [q] + s[j..]
  {
    LinkedDistinct(ring);
    hide Linked();
    j := |s|;
    prev := last;
    assert s[..j] == s && s[j..] == [];
    while true
      invariant 0 < j <= |s| && prev == ring[j]
      invariant Insert(s, q, cmp) == Insert(s[..j], q, cmp) + s[j..]
      decreases j
    {
      if cmp(prev, q) <= 0 {
        return;
      }
      InsertBack(s, j, q, cmp);
      Neighbours(ring, j);
      prev := prev.prev;
      j := j - 1;
      if j > 0 {
        Ends(ring, j);
      }
      if prev == h {
        return;
      }
    }
  }

  /** Removes a node and says what was around it. */
  method TakeOut(q: Node, ghost ring: seq<Node>, ghost i: nat) returns (prev: Node, next: Node)
    requires Linked(ring) && 0 < i < |ring| && ring[i] == q
    modifies ring
    ensures Linked(ring[..i] + ring[i + 1..]) && q !in ring[..i] + ring[i + 1..]
    ensures prev == ring[i - 1] && next == At(ring, i + 1)
  {
    hide Linked();
    LinkedDistinct(ring);
    NotElsewhere(ring, i);
    Neighbours(ring, i);
    prev := q.prev;
    next := q.next;
    Remove(q, ring, i);
  }

  lemma InsertedInside(h: Node, s: seq<Node>, tail: seq<Node>, j: nat, q: Node)
    requires j <= |s|
    ensures Inserted([h] + s + tail, j, q) == [h] + (s[..j] + [q] + s[j..]) + tail
  {
    var ring := [h] + s + tail;
    assert ring[..j + 1] == [h] + s[..j];
    assert ring[j + 1..] == s[j..] + tail;
  }

  /** One round of the sort: `q` moves back past the nodes that compare greater. */
  method SortOne(h: Node, q: Node, cmp: (Node, Node) -> int, ghost now: seq<Node>, ghost s: seq<Node>,
                 ghost rest: seq<Node>) returns (next: Node)
    requires Linked(now) && now == [h] + s + rest && s != [] && rest != [] && rest[0] == q
    modifies now
    ensures Linked([h] + Insert(s, q, cmp) + rest[1..])
    ensures next == if |rest| == 1 then h else rest[1]
  {
    hide Linked(), Insert();
    ghost var i := |s| + 1;
    var last;
    last, next := TakeOut(q, now, i);
    ghost var without := [h] + s + rest[1..];
    assert now[..i] + now[i + 1..] == without;
    var prev;
    ghost var j;
    prev, j := FindPlace(h, q, last, cmp, without, s);
    InsertAfter(prev, q, without, j);
    InsertedInside(h, s, rest[1..], j, q);
  }

  /** The queue when the first `k` of its nodes are sorted. */
  ghost function HalfSorted(h: Node, es: seq<Node>, k: nat, cmp: (Node, Node) -> int): seq<Node>
    requires k <= |es|
  {
    [h] + Sort(es[..k], cmp) + es[k..]
  }

  lemma SameNodes(h: Node, es: seq<Node>, k: nat, cmp: (Node, Node) -> int)
    requires k <= |es|
    ensures var now := HalfSorted(h, es, k, cmp);
            && |now| == |es| + 1 && now[0] == h
            && (forall x :: x in now ==> x in [h] + es)
            && (k < |es| ==> now[k + 1] == es[k])
  {
    SortContents(es[..k], cmp);
    forall x | x in Sort(es[..k], cmp) ensures x in es {
      assert x in multiset(Sort(es[..k], cmp));
      assert x in es[..k];
    }
  }

  method SortRound(h: Node, q: Node, cmp: (Node, Node) -> int, ghost ring: seq<Node>, ghost es: seq<Node>, ghost k: nat)
    returns (next: Node)
    requires ring == [h] + es && 1 <= k < |es| && q == es[k] && Linked(HalfSorted(h, es, k, cmp))
    modifies ring
    ensures Linked(HalfSorted(h, es, k + 1, cmp))
    ensures next == if k + 1 < |es| then es[k + 1] else h
  {
    hide Linked(), Sort();
    ghost var now := HalfSorted(h, es, k, cmp);
    SameNodes(h, es, k, cmp);
    SortContents(es[..k], cmp);
    assert forall i :: 0 <= i < |now| ==> now[i] in ring;
    next := SortOne(h, q, cmp, now, Sort(es[..k], cmp), es[k..]);
    SortNext(es, k, cmp);
    assert es[k..][1..] == es[k + 1..];
  }

  /** ngx_queue_sort: the nodes are linked in their sorted order, equal ones as they were. */
  method SortQueue(h: Node, cmp: (Node, Node) -> int, ghost ring: seq<Node>) returns (ghost sorted: seq<Node>)
    requires Linked(ring) && ring[0] == h
    modifies ring
    ensures Linked([h] + sorted) && multiset(sorted) == multiset(ring[1..])
    ensures Order(ring[1..], cmp) ==> StableSort(ring[1..], sorted, cmp)
  {
    hide Linked(), Sort(), HalfSorted(), Order(), StableSort();
    LinkedDistinct(ring);
    ghost var es := ring[1..];
    sorted := Sort(es, cmp);
    SortContents(es, cmp);
    if Order(es, cmp) {
      SortIsStable(es, cmp);
    }
    Neighbours(ring, 0);
    assert ring == [h] + es;
    var q := h.next;
    if q == h.prev {
      if |ring| > 1 {
        Ends(ring, 1);
      }
      SortShort(es, cmp);
      return;
    }
    ghost var k := 1;
    SortBegins(h, es, cmp);
    Neighbours(ring, 1);
    q := q.next;
    while q != h
      invariant 1 <= k <= |es|
      invariant Linked(HalfSorted(h, es, k, cmp))
      invariant q == if k < |es| then es[k] else h
      decreases |es| - k
    {
      q := SortRound(h, q, cmp, ring, es, k);
      k := k + 1;
    }
    if k < |es| {
      Ends(ring, k + 1);
    }
    SortEnds(h, es, cmp);
  }

  lemma SortBegins(h: Node, es: seq<Node>, cmp: (Node, Node) -> int)
    requires es != []
    ensures HalfSorted(h, es, 1, cmp) == [h] + es
  {
    assert es[..1] + es[1..] == es;
  }

  lemma {:induction false} SortEnds(h: Node, es: seq<Node>, cmp: (Node, Node) -> int)
    ensures HalfSorted(h, es, |es|, cmp) == [h] + Sort(es, cmp)
  {
    assert es[..|es|] == es;
  }

  lemma {:induction false} SortShort(es: seq<Node>, cmp: (Node, Node) -> int)
    requires |es| <= 1
    ensures Sort(es, cmp) == es
  {
  }

  lemma SortNext(es: seq<Node>, k: nat, cmp: (Node, Node) -> int)
    requires 1 <= k < |es|
    ensures Sort(es[..k + 1], cmp) == Insert(Sort(es[..k], cmp), es[k], cmp)
  {
    assert es[..k + 1][..k] == es[..k];
  }

  lemma NotElsewhere(ring: seq<Node>, i: nat)
    requires Distinct(ring) && i < |ring|
    ensures ring[i] !in ring[..i] + ring[i + 1..]
  {
  }

  lemma LinkedDistinct(ring: seq<Node>)
    requires Linked(ring)
    ensures ring != [] && Distinct(ring)
  {
  }
}
