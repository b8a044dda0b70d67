/** The orders in which the insert functions keep their trees. */
module RbOrder {
  import opened RbShape

  /** What an insert function looks at: the key, and for the file cache the name behind it. */
  datatype Label = Label(key: Key, name: seq<nat>)

  /** The three insert functions differ only in their comparison. */
  datatype Order = ByKey | ByTimer | ByKeyAndName

  /** strcmp(a, b) < 0 */
  predicate NameLess(a: seq<nat>, b: seq<nat>) {
    if b == [] then false
    else if a == [] then true
    else a[0] < b[0] || (a[0] == b[0] && NameLess(a[1..], b[1..]))
  }

  /** (ngx_rbtree_key_int_t) (a - b) < 0, with the subtraction wrapping around. */
  predicate TimerLess(a: Key, b: Key) {
    (a - b) % KEY_RANGE >= KEY_RANGE / 2
  }

  /** Does the descent turn left at `b` when it inserts `a`? */
  predicate Less(order: Order, a: Label, b: Label) {
    match order
    case ByKey => a.key < b.key
    case ByTimer => TimerLess(a.key, b.key)
    case ByKeyAndName => a.key < b.key || (a.key == b.key && NameLess(a.name, b.name))
  }

  /** No label sorts before an earlier one; ties may stand either way round. */
  ghost predicate SortedBy(order: Order, s: seq<Label>) {
    forall i, j :: 0 <= i < j < |s| ==> !Less(order, s[j], s[i])
  }

  ghost predicate Consistent(order: Order, a: Label, b: Label, c: Label) {
    Less(order, a, b) ==> !Less(order, b, a) && (Less(order, a, c) || Less(order, c, b))
  }

  /** The comparison is a strict weak order on the labels in `s`. */
  ghost predicate StrictWeakOrder(order: Order, s: seq<Label>) {
    forall a, b, c {:trigger Consistent(order, a, b, c)} :: a in s && b in s && c in s ==> Consistent(order, a, b, c)
  }

  /** `x` belongs behind the first `i` labels and before those from `j` on. */
  ghost predicate Brackets(order: Order, s: seq<Label>, i: nat, j: nat, x: Label)
    requires i <= j <= |s|
  {
    && (forall k :: 0 <= k < i ==> !Less(order, x, s[k]))
    && (forall k :: j <= k < |s| ==> Less(order, x, s[k]))
  }

  /** As far as `order` sorts the labels, `x` belongs between places `i` and `j`. */
  ghost predicate Narrowed(order: Order, s: seq<Label>, i: nat, j: nat, x: Label) {
    i <= j <= |s| && (SortedBy(order, s) && StrictWeakOrder(order, s + [x]) ==> Brackets(order, s, i, j, x))
  }

  /** Comparing with the label at `m` narrows the bracket to one side of it. */
  lemma Narrow(order: Order, s: seq<Label>, i: nat, m: nat, j: nat, x: Label)
    requires i <= m < j && Narrowed(order, s, i, j, x)
    ensures if Less(order, x, s[m]) then Narrowed(order, s, i, m, x) else Narrowed(order, s, m + 1, j, x)
  {
    if SortedBy(order, s) && StrictWeakOrder(order, s + [x]) {
      assert x in s + [x];
      if Less(order, x, s[m]) {
        forall k | m <= k < |s| ensures Less(order, x, s[k]) {
          assert Consistent(order, x, s[m], s[k]);
        }
      } else {
        forall k | 0 <= k < m + 1 ensures !Less(order, x, s[k]) {
          assert Consistent(order, x, s[k], s[m]);
        }
      }
    }
  }

  /** Inserting `x` where the descent ends keeps the labels sorted. */
  lemma SortedWith(order: Order, s: seq<Label>, k: nat, x: Label)
    requires k <= |s| && Narrowed(order, s, k, k, x)
    requires SortedBy(order, s) && StrictWeakOrder(order, s + [x])
    ensures SortedBy(order, s[..k] + [x] + s[k..])
  {
    var v := s[..k] + [x] + s[k..];
    assert x in s + [x];
    forall i, j | 0 <= i < j < |v| ensures !Less(order, v[j], v[i]) {
      if i == k {
        assert v[j] == s[j - 1] && v[j] in s + [x];
        assert Consistent(order, x, v[j], x);
      }
    }
  }

  /** Every label equal to `x` is at a place from `i` on and before `j`. */
  ghost predicate OnlyWithin(s: seq<Label>, i: nat, j: nat, x: Label) {
    i <= j <= |s| && forall k :: 0 <= k < |s| && s[k] == x ==> i <= k < j
  }

  /** A comparison during a search rules out one side. */
  lemma {:induction false} SearchStep(s: seq<Label>, i: nat, m: nat, j: nat, hash: Key, name: seq<nat>, key: Key, other: seq<nat>)
    requires SortedBy(ByKeyAndName, s) && i <= m < j && OnlyWithin(s, i, j, Label(hash, name)) && s[m] == Label(key, other)
    ensures hash < key || (hash == key && NameLess(name, other)) ==> OnlyWithin(s, i, m, Label(hash, name))
    ensures hash > key || (hash == key && name != other && !NameLess(name, other)) ==> OnlyWithin(s, m + 1, j, Label(hash, name))
  {
    NamesAreOrdered(name, other, name);
    NamesAreOrdered(other, name, name);
  }

  lemma SortedWithout(order: Order, s: seq<Label>, k: nat)
    requires k < |s| && SortedBy(order, s)
    ensures SortedBy(order, s[..k] + s[k + 1..])
  {
    var v := s[..k] + s[k + 1..];
    forall i, j | 0 <= i < j < |v| ensures !Less(order, v[j], v[i]) {
      var i', j' := if i < k then i else i + 1, if j < k then j else j + 1;
      assert v[i] == s[i'] && v[j] == s[j'];
    }
  }

  // ---------------------------------------------------------------- orders that hold everywhere

  lemma KeysAreOrdered(s: seq<Label>)
    ensures StrictWeakOrder(ByKey, s)
  {
    forall a, b, c | a in s && b in s && c in s ensures Consistent(ByKey, a, b, c) {}
  }

  lemma {:induction false} NamesAreOrdered(a: seq<nat>, b: seq<nat>, c: seq<nat>)
    ensures NameLess(a, b) ==> !NameLess(b, a)
    ensures NameLess(a, b) ==> NameLess(a, c) || NameLess(c, b)
    ensures !NameLess(a, b) && !NameLess(b, a) ==> a == b
  {
    if a != [] && b != [] && a[0] == b[0] {
      NamesAreOrdered(a[1..], b[1..], if c != [] && c[0] == a[0] then c[1..] else c);
    }
  }

  lemma KeysAndNamesAreOrdered(s: seq<Label>)
    ensures StrictWeakOrder(ByKeyAndName, s)
  {
    forall a, b, c | a in s && b in s && c in s ensures Consistent(ByKeyAndName, a, b, c) {
      NamesAreOrdered(a.name, b.name, c.name);
    }
  }

  lemma AlwaysOrdered(order: Order, s: seq<Label>)
    ensures order != ByTimer ==> StrictWeakOrder(order, s)
  {
    if order == ByKey {
      KeysAreOrdered(s);
    } else if order == ByKeyAndName {
      KeysAndNamesAreOrdered(s);
    }
  }

  // ---------------------------------------------------------------- what the orders mean

  /** Up to position k the names are the same; there `a` has ended, or has the smaller character. */
  predicate DiffersAt(a: seq<nat>, b: seq<nat>, k: nat) {
    k <= |a| && k < |b| && a[..k] == b[..k] && (k == |a| || a[k] < b[k])
  }

  /** `a` stands before `b` in a dictionary. */
  ghost predicate Sooner(a: seq<nat>, b: seq<nat>) {
    exists k: nat :: DiffersAt(a, b, k)
  }

  lemma {:induction false} NameLessIsSooner(a: seq<nat>, b: seq<nat>)
    ensures NameLess(a, b) <==> Sooner(a, b)
  {
    if a == [] || b == [] || a[0] != b[0] {
      assert NameLess(a, b) ==> DiffersAt(a, b, 0);
    } else {
      NameLessIsSooner(a[1..], b[1..]);
      if k: nat :| DiffersAt(a[1..], b[1..], k) {
        assert a[..k + 1] == [a[0]] + a[1..][..k] && b[..k + 1] == [b[0]] + b[1..][..k];
        assert DiffersAt(a, b, k + 1);
      }
      if k: nat :| DiffersAt(a, b, k) {
        assert k > 0 && a[1..][..k - 1] == a[..k][1..] && b[1..][..k - 1] == b[..k][1..];
        assert DiffersAt(a[1..], b[1..], k - 1);
      }
    }
  }

  /** `a` may stand before `b`. */
  ghost predicate InOrder(order: Order, a: Label, b: Label) {
    match order
    case ByKey => a.key <= b.key
    case ByTimer => true
    case ByKeyAndName => a.key < b.key || (a.key == b.key && !Sooner(b.name, a.name))
  }

  /** `a` must stand before `b`. */
  ghost predicate Ahead(order: Order, a: Label, b: Label) {
    match order
    case ByKey => a.key < b.key
    case ByTimer => true
    case ByKeyAndName => a.key < b.key || (a.key == b.key && Sooner(a.name, b.name))
  }

  /** Keys ascend, and the names of equal keys, if they count. */
  ghost predicate Ascends(order: Order, s: seq<Label>) {
    forall i, j :: 0 <= i < j < |s| ==> InOrder(order, s[i], s[j])
  }

  /** `x` belongs behind the first k labels, and before the others. */
  ghost predicate Belongs(order: Order, s: seq<Label>, k: nat, x: Label) {
    forall i :: 0 <= i < |s| ==> if i < k then InOrder(order, s[i], x) else Ahead(order, x, s[i])
  }

  /** Sorted by key, or by key and name, means that these ascend. */
  lemma {:induction false} SortedAscends(order: Order, s: seq<Label>)
    requires order != ByTimer
    ensures SortedBy(order, s) <==> Ascends(order, s)
  {
    hide NameLess, Sooner;
    forall i, j | 0 <= i < j < |s| ensures NameLess(s[j].name, s[i].name) <==> Sooner(s[j].name, s[i].name) {
      NameLessIsSooner(s[j].name, s[i].name);
    }
  }

  lemma {:induction false} BracketsBelongs(order: Order, s: seq<Label>, k: nat, x: Label)
    requires k <= |s| && Brackets(order, s, k, k, x)
    ensures Belongs(order, s, k, x)
  {
    hide NameLess, Sooner;
    forall i | 0 <= i < |s| ensures NameLess(x.name, s[i].name) <==> Sooner(x.name, s[i].name) {
      NameLessIsSooner(x.name, s[i].name);
    }
  }

  // ---------------------------------------------------------------- timers

  /** Two times less than half the key range apart compare as their wrapped keys do. */
  lemma TimerLessIsEarlier(s: int, t: int)
    requires -(KEY_RANGE / 2) < s - t < KEY_RANGE / 2
    ensures TimerLess(s % KEY_RANGE, t % KEY_RANGE) <==> s < t
  {
    WrappedDifference(s, t);
  }

  lemma WrappedDifference(s: int, t: int)
    ensures (s % KEY_RANGE - t % KEY_RANGE) % KEY_RANGE == (s - t) % KEY_RANGE
  {
    var q, r := s / KEY_RANGE, t / KEY_RANGE;
    assert s == q * KEY_RANGE + s % KEY_RANGE && t == r * KEY_RANGE + t % KEY_RANGE;
    var d := s % KEY_RANGE - t % KEY_RANGE;
    assert s - t == (q - r) * KEY_RANGE + d;
    ModuloShift(d, q - r);
  }

  lemma ModuloShift(d: int, k: int)
    ensures (k * KEY_RANGE + d) % KEY_RANGE == d % KEY_RANGE
  {
    var x := k * KEY_RANGE + d;
    assert d == (d / KEY_RANGE) * KEY_RANGE + d % KEY_RANGE;
    assert x == (k + d / KEY_RANGE) * KEY_RANGE + d % KEY_RANGE;
  }

  /** Of two times less than a key range apart the wrapped keys compare as the times do, whichever
      is asked of which, exactly if they are less than half the range apart. */
  lemma TimerOrderIff(s: int, t: int)
    requires s - t < KEY_RANGE && t - s < KEY_RANGE
    ensures (TimerLess(s % KEY_RANGE, t % KEY_RANGE) <==> s < t) && (TimerLess(t % KEY_RANGE, s % KEY_RANGE) <==> t < s)
            <==> -(KEY_RANGE / 2) < s - t < KEY_RANGE / 2
  {
    WrappedDifference(s, t);
    WrappedDifference(t, s);
  }

  /** At half the range the later timer sorts first, and the earlier one too. */
  lemma TimerOrderBreaks(t: int)
    ensures TimerLess((t + KEY_RANGE / 2) % KEY_RANGE, t % KEY_RANGE)
    ensures TimerLess(t % KEY_RANGE, (t + KEY_RANGE / 2) % KEY_RANGE)
  {
    WrappedDifference(t + KEY_RANGE / 2, t);
    WrappedDifference(t, t + KEY_RANGE / 2);
  }

  ghost predicate InWindow(times: seq<int>) {
    forall i, j :: 0 <= i < |times| && 0 <= j < |times| ==> times[i] - times[j] < KEY_RANGE / 2
  }

  ghost predicate KeysOf(labels: seq<Label>, times: seq<int>) {
    |labels| == |times| && forall i :: 0 <= i < |times| ==> labels[i].key == times[i] % KEY_RANGE
  }

  ghost predicate Ascending(times: seq<int>) {
    forall i, j :: 0 <= i < j < |times| ==> times[i] <= times[j]
  }

  /** Within the window the timer tree is sorted by wrapped keys exactly if it is by time. */
  lemma TimersSorted(labels: seq<Label>, times: seq<int>)
    requires KeysOf(labels, times) && InWindow(times)
    ensures SortedBy(ByTimer, labels) <==> Ascending(times)
    ensures StrictWeakOrder(ByTimer, labels)
  {
    forall i, j | 0 <= i < |times| && 0 <= j < |times|
      ensures Less(ByTimer, labels[i], labels[j]) <==> times[i] < times[j]
    {
      assert times[j] - times[i] < KEY_RANGE / 2;
      TimerLessIsEarlier(times[i], times[j]);
    }
    forall a, b, c | a in labels && b in labels && c in labels ensures Consistent(ByTimer, a, b, c) {
      var i :| 0 <= i < |labels| && labels[i] == a;
      var j :| 0 <= j < |labels| && labels[j] == b;
      var k :| 0 <= k < |labels| && labels[k] == c;
    }
  }

  /** No two times are a whole key range apart. */
  ghost predicate InRange(times: seq<int>) {
    forall i, j :: 0 <= i < |times| && 0 <= j < |times| ==> times[i] - times[j] < KEY_RANGE
  }

  /** The timers in the order of time are in the order of the tree exactly if all of them lie
      within the window. */
  lemma AscendingSortedIff(labels: seq<Label>, times: seq<int>)
    requires KeysOf(labels, times) && InRange(times) && Ascending(times)
    ensures SortedBy(ByTimer, labels) <==> InWindow(times)
  {
    if InWindow(times) {
      TimersSorted(labels, times);
    } else {
      var i, j :| 0 <= i < |times| && 0 <= j < |times| && times[i] - times[j] >= KEY_RANGE / 2;
      assert j < i;
      WrappedDifference(times[i], times[j]);
      assert Less(ByTimer, labels[i], labels[j]);
    }
  }

  predicate Places(q: seq<nat>, n: nat) {
    forall i :: 0 <= i < |q| ==> q[i] < n
  }

  function Picked<T>(s: seq<T>, q: seq<nat>): (r: seq<T>)
    requires Places(q, |s|)
    ensures |r| == |q| && forall i :: 0 <= i < |q| ==> r[i] == s[q[i]]
  {
    if q == [] then [] else [s[q[0]]] + Picked(s, q[1..])
  }

  ghost predicate AgreesAt(labels: seq<Label>, times: seq<int>, q: seq<nat>)
    requires |labels| == |times| && Places(q, |times|)
  {
    SortedBy(ByTimer, Picked(labels, q)) <==> Ascending(Picked(times, q))
  }

  /** Whatever timers are picked and however they are arranged, the tree's order tells whether they
      are in the order of time: exactly if all of them lie within the window. */
  lemma TimersAgreeIff(labels: seq<Label>, times: seq<int>)
    requires KeysOf(labels, times) && InRange(times)
    ensures InWindow(times) <==> forall q: seq<nat> :: Places(q, |times|) ==> AgreesAt(labels, times, q)
  {
    if InWindow(times) {
      forall q: seq<nat> | Places(q, |times|) ensures AgreesAt(labels, times, q) {
        TimersSorted(Picked(labels, q), Picked(times, q));
      }
    } else {
      var i, j :| 0 <= i < |times| && 0 <= j < |times| && times[i] - times[j] >= KEY_RANGE / 2;
      var q: seq<nat> := [j, i];
      assert Places(q, |times|);
      AscendingSortedIff(Picked(labels, q), Picked(times, q));
      var r := Picked(times, q);
      assert r[1] - r[0] >= KEY_RANGE / 2;
      assert !AgreesAt(labels, times, q);
    }
  }
}
