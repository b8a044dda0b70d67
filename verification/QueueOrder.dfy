/** Insertion sort on sequences: sorted, a permutation, and stable. */
module QueueOrder {

  /** `q` goes after the last element that does not compare greater. */
  function Insert<T>(s: seq<T>, q: T, cmp: (T, T) -> int): seq<T> {
    if s == [] || cmp(s[|s| - 1], q) <= 0 then s + [q]
    else Insert(s[..|s| - 1], q, cmp) + [s[|s| - 1]]
  }

  function Sort<T>(s: seq<T>, cmp: (T, T) -> int): seq<T> {
    if |s| <= 1 then s else Insert(Sort(s[..|s| - 1], cmp), s[|s| - 1], cmp)
  }

  /** What a comparison has to be on the elements it sorts: transitive, and total. */
  ghost predicate Order<T>(s: seq<T>, cmp: (T, T) -> int) {
    && (forall a, b, c :: a in s && b in s && c in s && cmp(a, b) <= 0 && cmp(b, c) <= 0 ==> cmp(a, c) <= 0)
    && (forall a, b :: a in s && b in s && cmp(a, b) > 0 ==> cmp(b, a) <= 0)
  }

  ghost predicate Sorted<T>(s: seq<T>, cmp: (T, T) -> int) {
    forall i, j :: 0 <= i < j < |s| ==> cmp(s[i], s[j]) <= 0
  }

  predicate Alike<T>(a: T, b: T, cmp: (T, T) -> int) { cmp(a, b) <= 0 && cmp(b, a) <= 0 }

  /** The elements of `s` that compare equal to `e`, in their order. */
  function Equals<T>(s: seq<T>, e: T, cmp: (T, T) -> int): seq<T> {
    if s == [] then []
    else Equals(s[..|s| - 1], e, cmp) + if Alike(s[|s| - 1], e, cmp) then [s[|s| - 1]] else []
  }

  /** `t` is `s` sorted, elements that compare equal keeping their order. */
  ghost predicate StableSort<T>(s: seq<T>, t: seq<T>, cmp: (T, T) -> int) {
    && multiset(t) == multiset(s)
    && Sorted(t, cmp)
    && forall e :: e in s ==> Equals(t, e, cmp) == Equals(s, e, cmp)
  }

  lemma {:induction false} InsertContents<T>(s: seq<T>, q: T, cmp: (T, T) -> int)
    ensures multiset(Insert(s, q, cmp)) == multiset(s) + multiset{q}
  {
    if s != [] && cmp(s[|s| - 1], q) > 0 {
      InsertContents(s[..|s| - 1], q, cmp);
      assert s == s[..|s| - 1] + [s[|s| - 1]];
    }
  }

  lemma {:induction false} SortContents<T>(s: seq<T>, cmp: (T, T) -> int)
    ensures multiset(Sort(s, cmp)) == multiset(s) && |Sort(s, cmp)| == |s|
  {
    if |s| > 1 {
      SortContents(s[..|s| - 1], cmp);
      InsertContents(Sort(s[..|s| - 1], cmp), s[|s| - 1], cmp);
      assert s == s[..|s| - 1] + [s[|s| - 1]];
    }
    assert |multiset(Sort(s, cmp))| == |Sort(s, cmp)|;
  }

  lemma SameElement<T>(s: seq<T>, t: seq<T>, x: T)
    requires multiset(s) == multiset(t)
    ensures x in s <==> x in t
  {
    assert x in s <==> x in multiset(s);
    assert x in t <==> x in multiset(t);
  }

  lemma OrderWithin<T>(s: seq<T>, t: seq<T>, cmp: (T, T) -> int)
    requires Order(s, cmp) && forall x :: x in t ==> x in s
    ensures Order(t, cmp)
  {
  }

  lemma Ordered3<T>(s: seq<T>, a: T, b: T, c: T, cmp: (T, T) -> int)
    requires Order(s, cmp) && a in s && b in s && c in s
    ensures cmp(a, b) <= 0 && cmp(b, c) <= 0 ==> cmp(a, c) <= 0
    ensures cmp(a, b) > 0 ==> cmp(b, a) <= 0
  {
  }

  /** Sorting the front of a sequence brings nothing new. */
  lemma FrontWithin<T>(s: seq<T>, more: seq<T>, cmp: (T, T) -> int)
    requires s != [] && Order(s + more, cmp)
    ensures Order(Sort(s[..|s| - 1], cmp) + [s[|s| - 1]] + more, cmp)
    ensures Order(s[..|s| - 1] + more, cmp)
  {
    hide Order(), Sort();
    var front, last := s[..|s| - 1], s[|s| - 1];
    SortContents(front, cmp);
    assert last in s && forall x :: x in front ==> x in s;
    forall x | x in Sort(front, cmp) + [last] + more ensures x in s + more {
      SameElement(Sort(front, cmp), front, x);
    }
    OrderWithin(s + more, Sort(front, cmp) + [last] + more, cmp);
    OrderWithin(s + more, front + more, cmp);
  }

  lemma {:induction false} InsertSorted<T>(s: seq<T>, q: T, cmp: (T, T) -> int)
    requires Order(s + [q], cmp) && Sorted(s, cmp)
    ensures Sorted(Insert(s, q, cmp), cmp)
  {
    hide Order();
    var all := s + [q];
    if s != [] {
      var front, last := s[..|s| - 1], s[|s| - 1];
      forall i | 0 <= i < |s| ensures cmp(s[i], q) <= 0 || cmp(last, q) > 0 {
        assert s[i] in all && last in all && q in all;
        Ordered3(all, s[i], last, q, cmp);
      }
      if cmp(last, q) > 0 {
        OrderWithin(all, front + [q], cmp);
        InsertSorted(front, q, cmp);
        InsertContents(front, q, cmp);
        Ordered3(all, last, q, q, cmp);
        InsertBelow(front, q, last, cmp);
      }
    }
  }

  /** What was below `last`, and `q` too, stays below it. */
  lemma {:induction false} InsertBelow<T>(s: seq<T>, q: T, last: T, cmp: (T, T) -> int)
    requires cmp(q, last) <= 0 && forall x :: x in s ==> cmp(x, last) <= 0
    ensures forall x :: x in Insert(s, q, cmp) ==> cmp(x, last) <= 0
  {
    hide Insert();
    InsertContents(s, q, cmp);
    assert multiset(s + [q]) == multiset(s) + multiset{q};
    forall x | x in Insert(s, q, cmp) ensures cmp(x, last) <= 0 {
      SameElement(Insert(s, q, cmp), s + [q], x);
    }
  }

  lemma {:induction false} SortSorted<T>(s: seq<T>, cmp: (T, T) -> int)
    requires Order(s, cmp)
    ensures Sorted(Sort(s, cmp), cmp)
  {
    hide Insert(), Order();
    if |s| > 1 {
      var front, last := s[..|s| - 1], s[|s| - 1];
      assert s + [] == s && front + [] == front && Sort(front, cmp) + [last] + [] == Sort(front, cmp) + [last];
      FrontWithin(s, [], cmp);
      SortSorted(front, cmp);
      InsertSorted(Sort(front, cmp), last, cmp);
    }
  }

  lemma {:induction false} EqualsJoin<T>(s: seq<T>, t: seq<T>, e: T, cmp: (T, T) -> int)
    ensures Equals(s + t, e, cmp) == Equals(s, e, cmp) + Equals(t, e, cmp)
    decreases |t|
  {
    if t == [] {
      assert s + t == s;
    } else {
      assert (s + t)[..|s + t| - 1] == s + t[..|t| - 1];
      EqualsJoin(s, t[..|t| - 1], e, cmp);
    }
  }

  /** An element passes only such as do not compare equal to it. */
  lemma {:induction false} InsertStable<T>(s: seq<T>, q: T, e: T, cmp: (T, T) -> int)
    requires Order(s + [q] + [e], cmp)
    ensures Equals(Insert(s, q, cmp), e, cmp) == Equals(s + [q], e, cmp)
  {
    hide Order(), Equals();
    if s != [] && cmp(s[|s| - 1], q) > 0 {
      var front, last := s[..|s| - 1], s[|s| - 1];
      var all := s + [q] + [e];
      assert last in all && q in all && e in all;
      Ordered3(all, last, e, q, cmp);
      OrderWithin(all, front + [q] + [e], cmp);
      InsertStable(front, q, e, cmp);
      EqualsJoin(Insert(front, q, cmp), [last], e, cmp);
      EqualsJoin(s, [q], e, cmp);
      EqualsJoin(front, [q], e, cmp);
      EqualsJoin(front, [last], e, cmp);
      OneEqual(last, e, cmp);
      OneEqual(q, e, cmp);
      assert s == front + [last];
    }
  }

  lemma OneEqual<T>(a: T, e: T, cmp: (T, T) -> int)
    ensures Equals([a], e, cmp) == if Alike(a, e, cmp) then [a] else []
  {
  }

  lemma {:induction false} SortStable<T>(s: seq<T>, e: T, cmp: (T, T) -> int)
    requires Order(s + [e], cmp)
    ensures Equals(Sort(s, cmp), e, cmp) == Equals(s, e, cmp)
  {
    hide Insert(), Equals(), Order();
    if |s| > 1 {
      var front, last := s[..|s| - 1], s[|s| - 1];
      FrontWithin(s, [e], cmp);
      SortStable(front, e, cmp);
      InsertStable(Sort(front, cmp), last, e, cmp);
      EqualsJoin(Sort(front, cmp), [last], e, cmp);
      EqualsJoin(front, [last], e, cmp);
      assert s == front + [last];
    }
  }

  /** The sort is a stable sort. */
  lemma {:induction false} SortIsStable<T>(s: seq<T>, cmp: (T, T) -> int)
    requires Order(s, cmp)
    ensures StableSort(s, Sort(s, cmp), cmp)
  {
    SortContents(s, cmp);
    SortSorted(s, cmp);
    forall e | e in s ensures Equals(Sort(s, cmp), e, cmp) == Equals(s, e, cmp) {
      OrderWithin(s, s + [e], cmp);
      SortStable(s, e, cmp);
    }
  }
}
