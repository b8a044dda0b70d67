/** The timers of ngx_event_timer.c and ngx_event_timer.h: a tree of wrapped keys that behaves as a
    map from events to deadlines, while all deadlines fit into half of the key range. */
module EventTimers {
  import opened RbShape
  import opened RbOrder
  import opened RedBlackTree

  const LazyDelay := 300         // NGX_TIMER_LAZY_DELAY
  const Infinite := KEY_RANGE - 1 // NGX_TIMER_INFINITE

  type Deadlines = map<Node, int>

  /** (ngx_msec_int_t) (a - b) */
  function Signed(a: Key, b: Key): int {
    var d := (a - b) % KEY_RANGE;
    if d < KEY_RANGE / 2 then d else d - KEY_RANGE
  }

  /** Times less than half the key range apart differ as their wrapped keys do. */
  lemma SignedDifference(s: int, t: int)
    requires -(KEY_RANGE / 2) < s - t < KEY_RANGE / 2
    ensures Signed(s % KEY_RANGE, t % KEY_RANGE) == s - t
  {
    WrappedDifference(s, t);
  }

  /** No two times, `now` included, are half the key range apart. */
  ghost predicate Window(d: Deadlines, now: int) {
    && (forall n :: n in d ==> -(KEY_RANGE / 2) < d[n] - now < KEY_RANGE / 2)
    && Close(d)
  }

  ghost predicate Close(d: Deadlines) {
    forall n, m :: n in d && m in d ==> d[n] - d[m] < KEY_RANGE / 2
  }

  ghost function Times(d: Deadlines, s: seq<Node>): (r: seq<int>)
    requires forall n :: n in s ==> n in d
    ensures |r| == |s| && forall i :: 0 <= i < |s| ==> r[i] == d[s[i]]
  {
    if s == [] then [] else [d[s[0]]] + Times(d, s[1..])
  }

  /** `n` has the earliest deadline. */
  ghost predicate Earliest(d: Deadlines, n: Node) {
    n in d && forall m :: m in d ==> d[n] <= d[m]
  }

  /** The tree keeps the deadlines: as wrapped keys, and in order. */
  ghost predicate Keeps(d: Deadlines, s: seq<Node>, labels: seq<Label>) {
    && (forall n :: n in s ==> n in d) && (forall n :: n in d ==> n in s)
    && KeysOf(labels, Times(d, s)) && Ascending(Times(d, s)) && InWindow(Times(d, s))
  }

  /** What stands first in the tree is earliest. */
  lemma FirstIsEarliest(d: Deadlines, s: seq<Node>, labels: seq<Label>)
    requires Keeps(d, s, labels) && s != []
    ensures Earliest(d, s[0])
  {
    forall m | m in d ensures d[s[0]] <= d[m] {
      var i :| 0 <= i < |s| && s[i] == m;
      assert Times(d, s)[0] <= Times(d, s)[i];
    }
  }

  lemma {:induction false} WindowOfTimes(d: Deadlines, s: seq<Node>)
    requires Close(d) && forall n :: n in s ==> n in d
    ensures InWindow(Times(d, s))
  {
    var r := Times(d, s);
    forall i, j | 0 <= i < |r| && 0 <= j < |r| ensures r[i] - r[j] < KEY_RANGE / 2 {
      assert s[i] in d && s[j] in d;
    }
  }

  /** A new timer in its place: the tree keeps the deadlines with the new one. */
  lemma Added(d: Deadlines, s: seq<Node>, labels: seq<Label>, k: nat, n: Node, x: Label, t: int)
    requires Keeps(d, s, labels) && n !in d && k <= |s| && x.key == t % KEY_RANGE
    requires Close(d[n := t])
    requires SortedBy(ByTimer, labels[..k] + [x] + labels[k..])
    ensures Keeps(d[n := t], s[..k] + [n] + s[k..], labels[..k] + [x] + labels[k..])
  {
    hide Ascending(), InWindow(), Times(), SortedBy(), Close(), StrictWeakOrder();
    var d', s', labels' := d[n := t], s[..k] + [n] + s[k..], labels[..k] + [x] + labels[k..];
    SameNodes(s, k, n);
    var r, was := Times(d', s'), Times(d, s);
    forall i | 0 <= i < |r| ensures r[i] == (was[..k] + [t] + was[k..])[i] {
      assert s'[i] == if i < k then s[i] else if i == k then n else s[i - 1];
      assert i != k ==> s'[i] in s;
    }
    assert r == was[..k] + [t] + was[k..];
    KeysJoin(labels, was, labels', r, k, x, t);
    WindowOfTimes(d', s');
    TimersSorted(labels', r);
  }

  lemma SameNodes(s: seq<Node>, k: nat, n: Node)
    requires k <= |s|
    ensures forall m :: m in s[..k] + [n] + s[k..] ==> m in s || m == n
    ensures forall m :: m in s ==> m in s[..k] + [n] + s[k..]
    ensures n in s[..k] + [n] + s[k..]
  {
    assert s == s[..k] + s[k..];
    forall m | m in s ensures m in s[..k] + [n] + s[k..] {
      assert m in s[..k] || m in s[k..];
    }
    forall m | m in s[..k] + [n] + s[k..] ensures m in s || m == n {
      assert m in s[..k] || m == n || m in s[k..];
    }
  }

  lemma KeysJoin(labels: seq<Label>, was: seq<int>, labels': seq<Label>, r: seq<int>, k: nat, x: Label, t: int)
    requires KeysOf(labels, was) && k <= |was| && |r| == |was| + 1 && x.key == t % KEY_RANGE
    requires r == was[..k] + [t] + was[k..] && labels' == labels[..k] + [x] + labels[k..]
    ensures KeysOf(labels', r)
  {
    forall i | 0 <= i < |r| ensures labels'[i].key == r[i] % KEY_RANGE {
      if i < k {
        assert labels'[i] == labels[i] && r[i] == was[i];
      } else if i > k {
        assert labels'[i] == labels[i - 1] && r[i] == was[i - 1];
      }
    }
  }

  /** The hypotheses under which the tree inserts in order. */
  lemma InsertsInOrder(d: Deadlines, s: seq<Node>, labels: seq<Label>, n: Node, x: Label, t: int)
    requires Keeps(d, s, labels) && n !in d && x.key == t % KEY_RANGE
    requires Close(d[n := t])
    ensures SortedBy(ByTimer, labels) && StrictWeakOrder(ByTimer, labels + [x])
  {
    var d', s' := d[n := t], s + [n];
    TimersSorted(labels, Times(d, s));
    var r := Times(d', s');
    forall i | 0 <= i < |r| ensures (labels + [x])[i].key == r[i] % KEY_RANGE {
      if i < |s| {
        assert s'[i] == s[i] && s[i] in d && labels[i].key == Times(d, s)[i] % KEY_RANGE;
      }
    }
    WindowOfTimes(d', s');
    TimersSorted(labels + [x], r);
  }

  /** A timer less. */
  lemma Removed(d: Deadlines, s: seq<Node>, labels: seq<Label>, k: nat)
    requires Keeps(d, s, labels) && NoDuplicates(s) && k < |s|
    ensures Keeps(d - {s[k]}, s[..k] + s[k + 1..], labels[..k] + labels[k + 1..])
  {
    hide Ascending(), InWindow(), Times();
    var d', s', labels' := d - {s[k]}, s[..k] + s[k + 1..], labels[..k] + labels[k + 1..];
    OtherNodes(s, k);
    var r, was := Times(d', s'), Times(d, s);
    forall i | 0 <= i < |r| ensures r[i] == was[if i < k then i else i + 1] {
      assert s'[i] in d' && s'[i] == s[if i < k then i else i + 1];
    }
    OthersKept(was, r, labels, labels', k);
  }

  lemma OtherNodes(s: seq<Node>, k: nat)
    requires NoDuplicates(s) && k < |s|
    ensures forall m :: m in s[..k] + s[k + 1..] ==> m in s && m != s[k]
    ensures forall m :: m in s && m != s[k] ==> m in s[..k] + s[k + 1..]
  {
    assert s == s[..k] + [s[k]] + s[k + 1..];
    forall m | m in s && m != s[k] ensures m in s[..k] + s[k + 1..] {
      assert m in s[..k] || m in s[k + 1..];
    }
  }

  lemma OthersKept(was: seq<int>, r: seq<int>, labels: seq<Label>, labels': seq<Label>, k: nat)
    requires KeysOf(labels, was) && Ascending(was) && InWindow(was) && k < |was| == |r| + 1
    requires forall i :: 0 <= i < |r| ==> r[i] == was[if i < k then i else i + 1]
    requires labels' == labels[..k] + labels[k + 1..]
    ensures KeysOf(labels', r) && Ascending(r) && InWindow(r)
  {
  }

  class Timers {
    const tree: RbTree
    var timerSet: set<Node>         // the events whose flag timer_set is on
    ghost var deadlines: Deadlines

    ghost predicate Valid()
      reads this, tree, tree.sentinel, tree.nodes
    {
      && tree.Valid() && tree.insert == ByTimer && deadlines.Keys == tree.nodes == timerSet
      && (forall n :: n in tree.Contents() ==> n in tree.nodes)
      && Keeps(deadlines, tree.Contents(), Labels(tree.Contents()))
    }

    /** ngx_event_timer_init */
    constructor (sentinel: Node)
      modifies sentinel`red
      ensures Valid() && deadlines == map[] && fresh(tree)
    {
      tree := new RbTree(sentinel, ByTimer);
      deadlines, timerSet := map[], {};
      new;
      tree.NodesOnce();
    }

    /** ngx_event_del_timer */
    method Del(ev: Node)
      requires Valid() && ev in deadlines
      modifies this, tree, tree.sentinel, tree.nodes
      ensures Valid() && deadlines == old(deadlines) - {ev}
      ensures tree.sentinel == old(tree.sentinel) && tree.nodes == old(tree.nodes) - {ev}
    {
      hide Keeps(), SortedBy(), RbTree.Valid, RbTree.Rep, RbTree.Memory, RbTree.Contents, Labels();
      tree.NodesOnce();
      ghost var s, labels := tree.Contents(), Labels(tree.Contents());
      ghost var k, turns := tree.Delete(ev);
      Removed(deadlines, s, labels, k);
      deadlines, timerSet := deadlines - {ev}, timerSet - {ev};
    }

    /** ngx_event_add_timer: a timer that is set less than 300 ms away is left alone. */
    method Add(ev: Node, nowKey: Key, timer: Key, ghost now: int)
      requires Valid() && ev != tree.sentinel && nowKey == now % KEY_RANGE
      requires Close(deadlines[ev := now + timer])
      requires ev in deadlines ==> -(KEY_RANGE / 2) < now + timer - deadlines[ev] < KEY_RANGE / 2
      modifies this, tree, tree.sentinel, tree.nodes, ev
      ensures Valid() && tree.sentinel == old(tree.sentinel) && tree.nodes <= old(tree.nodes) + {ev}
      ensures var d := old(deadlines);
              deadlines == if ev in d && -300 < now + timer - d[ev] < 300 then d else d[ev := now + timer]
    {
      hide Keeps(), RbTree.Valid, RbTree.Rep, RbTree.Memory, RbTree.Contents, Labels();
      var key := (nowKey + timer) % KEY_RANGE;
      KeyOfSum(now, timer);
      if ev in timerSet {
        KeyOf(ev);
        SignedDifference(now + timer, deadlines[ev]);
        var diff := Signed(key, ev.key);
        if -LazyDelay < diff < LazyDelay {
          return;
        }
        Del(ev);
      }
      assert deadlines[ev := now + timer] == old(deadlines)[ev := now + timer];
      Set(ev, key, now + timer);
    }

    /** The lines that set a timer. */
    method Set(ev: Node, key: Key, ghost t: int)
      requires Valid() && ev !in deadlines && ev != tree.sentinel && key == t % KEY_RANGE && Close(deadlines[ev := t])
      modifies this, tree, tree.sentinel, tree.nodes, ev
      ensures Valid() && tree.sentinel == old(tree.sentinel) && deadlines == old(deadlines)[ev := t]
      ensures tree.nodes == old(tree.nodes) + {ev}
    {
      hide Keeps(), SortedBy(), StrictWeakOrder(), Brackets(), Close();
      hide RbTree.Valid, RbTree.Rep, RbTree.Memory, RbTree.Contents, Labels();
      tree.NodesOnce();
      ev.key := key;
      ghost var s, labels := tree.Contents(), Labels(tree.Contents());
      InsertsInOrder(deadlines, s, labels, ev, LabelOf(ev), t);
      ghost var k, down, up := tree.Insert(ev);
      Added(deadlines, s, labels, k, ev, LabelOf(ev), t);
      deadlines, timerSet := deadlines[ev := t], timerSet + {ev};
    }

    lemma KeyOf(ev: Node)
      requires Valid() && ev in deadlines
      ensures ev.key == deadlines[ev] % KEY_RANGE
    {
      var s := tree.Contents();
      var i :| 0 <= i < |s| && s[i] == ev;
      assert Labels(s)[i].key == Times(deadlines, s)[i] % KEY_RANGE;
    }

    static lemma KeyOfSum(now: int, timer: Key)
      ensures (now % KEY_RANGE + timer) % KEY_RANGE == (now + timer) % KEY_RANGE
    {
      ModuloShift(now % KEY_RANGE + timer, now / KEY_RANGE);
    }

    /** ngx_event_find_timer: the time until the earliest deadline, across wrap-around. */
    method FindTimer(nowKey: Key, ghost now: int) returns (timer: nat)
      requires Valid() && nowKey == now % KEY_RANGE && Window(deadlines, now)
      ensures deadlines == map[] ==> timer == Infinite
      ensures deadlines != map[] ==> exists n :: Earliest(deadlines, n)
      ensures forall n :: Earliest(deadlines, n) ==> timer == if deadlines[n] > now then deadlines[n] - now else 0
    {
      hide Keeps(), RbTree.Valid, RbTree.Rep, RbTree.Memory, RbTree.Contents, Labels();
      var node := Peek();
      if node == null {
        return Infinite;
      }
      SignedDifference(deadlines[node], now);
      var diff := Signed(node.key, nowKey);
      timer := if diff > 0 then diff else 0;
    }

    /** ngx_rbtree_min on the timers, unless there are none. */
    method Peek() returns (node: Node?)
      requires Valid()
      ensures node == null <==> deadlines == map[]
      ensures node != null ==> Earliest(deadlines, node) && node.key == deadlines[node] % KEY_RANGE
    {
      hide Keeps(), RbTree.Rep, RbTree.Memory, Labels();
      Head();
      node := null;
      if tree.root != tree.sentinel {
        node := tree.First();
      }
    }

    /** The first node of the tree, if there is one, is the timer with the earliest deadline. */
    lemma Head()
      requires Valid()
      ensures tree.root == tree.sentinel <==> deadlines == map[]
      ensures tree.root != tree.sentinel ==> tree.Contents() != []
      ensures tree.Contents() != [] ==> Earliest(deadlines, tree.Contents()[0])
      ensures tree.Contents() != [] ==> tree.Contents()[0].key == deadlines[tree.Contents()[0]] % KEY_RANGE
    {
      hide RbTree.Memory, Labels(), Keeps();
      tree.NodesOnce();
      RootOrNothing();
      if tree.Contents() != [] {
        FirstIsEarliest(deadlines, tree.Contents(), Labels(tree.Contents()));
        assert tree.Contents()[0] in tree.Contents();
        KeyOf(tree.Contents()[0]);
      }
    }

    lemma RootOrNothing()
      requires Valid()
      ensures tree.root != tree.sentinel <==> tree.Contents() != []
      ensures tree.Contents() == [] <==> deadlines == map[]
    {
      hide Labels();
      tree.NodesOnce();
      assert tree.Contents() == [] ==> tree.nodes == {};
      assert tree.Contents() != [] ==> tree.Contents()[0] in tree.nodes;
      if deadlines == map[] {
        assert deadlines.Keys == {};
      }
    }

    /** One round of the loop that expires timers: the earliest timer, if it is due, is unset. */
    method TakeDue(nowKey: Key, ghost now: int) returns (node: Node?)
      requires Valid() && nowKey == now % KEY_RANGE && Window(deadlines, now)
      modifies this, tree, tree.sentinel, tree.nodes
      ensures Valid() && tree.sentinel == old(tree.sentinel) && tree.nodes <= old(tree.nodes)
      ensures node == null ==> deadlines == old(deadlines) && forall n :: n in deadlines ==> deadlines[n] > now
      ensures node != null ==> Earliest(old(deadlines), node) && old(deadlines)[node] <= now
      ensures node != null ==> deadlines == old(deadlines) - {node}
    {
      hide Valid, Keeps(), RbTree.Valid, RbTree.Rep, RbTree.Memory, RbTree.Contents, Labels();
      node := Peek();
      if node == null {
        return;
      }
      SignedDifference(deadlines[node], now);
      if Signed(node.key, nowKey) > 0 {
        return null;
      }
      Del(node);
    }

    /** What a handler does: it sets and deletes timers. */
    method Handle(calls: seq<Call>, nowKey: Key, ghost now: int, ghost events: set<Node>)
      requires Valid() && nowKey == now % KEY_RANGE && tree.sentinel !in events
      requires Near(deadlines, now) && Modest(calls, events)
      modifies this, tree, tree.sentinel, tree.nodes, events
      ensures Valid() && tree.sentinel == old(tree.sentinel) && tree.nodes <= old(tree.nodes) + events
      ensures deadlines == AllCalled(old(deadlines), calls, now) && Near(deadlines, now)
    {
      hide Valid, Near(), Called();
      assert calls[0..] == calls;
      for i := 0 to |calls|
        invariant Valid() && tree.sentinel == old(tree.sentinel) && tree.nodes <= old(tree.nodes) + events
        invariant Near(deadlines, now) && AllCalled(deadlines, calls[i..], now) == AllCalled(old(deadlines), calls, now)
      {
        assert calls[i..][0] == calls[i] && calls[i..][1..] == calls[i + 1..];
        CallIsNear(deadlines, calls[i], now);
        One(calls[i], nowKey, now, events);
      }
    }

    method One(call: Call, nowKey: Key, ghost now: int, ghost events: set<Node>)
      requires Valid() && nowKey == now % KEY_RANGE && tree.sentinel !in events && call.ev in events
      requires Near(deadlines, now) && (call.Arm? ==> call.timer < KEY_RANGE / 4)
      modifies this, tree, tree.sentinel, tree.nodes, events
      ensures Valid() && tree.sentinel == old(tree.sentinel) && tree.nodes <= old(tree.nodes) + events
      ensures deadlines == Called(old(deadlines), call, now)
    {
      hide Keeps(), RbTree.Valid, RbTree.Rep, RbTree.Memory, RbTree.Contents, Labels();
      match call {
        case Arm(ev, timer) =>
          NearIsClose(deadlines, ev, timer, now);
          Add(ev, nowKey, timer, now);
        case Disarm(ev) =>
          if ev in timerSet {
            Del(ev);
          }
      }
    }

    /** ngx_event_expire_timers: as long as the earliest timer is due it is unset and its handler runs,
        which may set and delete timers; no timer is due in the end.  If the handlers do neither,
        exactly the timers that are due fire, each once, in the order of their deadlines. */
    method ExpireTimers(nowKey: Key, script: seq<seq<Call>>, ghost now: int, ghost events: set<Node>)
      returns (fired: seq<Node>, ghost ds: seq<Deadlines>)
      requires Valid() && nowKey == now % KEY_RANGE && Window(deadlines, now) && tree.sentinel !in events
      requires script != [] ==> Near(deadlines, now) && forall calls :: calls in script ==> Modest(calls, events)
      modifies this, tree, tree.sentinel, tree.nodes, events
      ensures Valid() && Fires(old(deadlines), ds, fired, script, now) && deadlines == ds[|fired|]
      ensures forall n :: n in deadlines ==> deadlines[n] > now
      ensures script == [] ==> DueFired(old(deadlines), deadlines, fired, now)
    {
      hide Valid, Expiring(), Window(), Near(), Fires(), DueFired(), AllCalled(), Modest();
      ghost var d0 := deadlines;
      fired, ds := [], [deadlines];
      NoneFired(d0, now);
      NoFires(d0, script, now);
      while true
        invariant Valid() && tree.sentinel == old(tree.sentinel) && tree.nodes <= old(tree.nodes) + events
        invariant Window(deadlines, now) && (script != [] ==> Near(deadlines, now))
        invariant |ds| == |fired| + 1 && ds[|fired|] == deadlines && Fires(d0, ds, fired, script, now)
        invariant script == [] ==> Expiring(d0, deadlines, fired, now)
        decreases if |fired| < |script| then |script| - |fired| else 0, |deadlines|
      {
        ghost var d := deadlines;
        var node := TakeDue(nowKey, now);
        if node == null {
          break;
        }
        TakenStays(d, node, now);
        if script == [] {
          OneMore(d0, d, fired, node, now);
        }
        if |fired| < |script| {
          Handle(script[|fired|], nowKey, now, events);
          NearIsWindow(deadlines, now);
        } else {
          NoCalls(deadlines, now);
        }
        OneFires(d0, ds, fired, script, now, d, node, deadlines);
        fired, ds := fired + [node], ds + [deadlines];
      }
      if script == [] {
        AllFired(d0, deadlines, fired, now);
      }
    }
  }

  // ---------------------------------------------------------------- handlers

  /** What a handler may do with a timer; it looks at timer_set before it deletes one. */
  datatype Call = Arm(ev: Node, timer: Key) | Disarm(ev: Node)

  ghost function Called(d: Deadlines, call: Call, now: int): Deadlines {
    match call
    case Arm(ev, timer) => if ev in d && -LazyDelay < now + timer - d[ev] < LazyDelay then d else d[ev := now + timer]
    case Disarm(ev) => d - {ev}
  }

  ghost function AllCalled(d: Deadlines, calls: seq<Call>, now: int): Deadlines
    decreases |calls|
  {
    if calls == [] then d else AllCalled(Called(d, calls[0], now), calls[1..], now)
  }

  lemma {:induction false} NoCalls(d: Deadlines, now: int)
    ensures AllCalled(d, [], now) == d
  {
  }

  /** All deadlines lie within a quarter of the key range of now. */
  ghost predicate Near(d: Deadlines, now: int) {
    forall n :: n in d ==> -(KEY_RANGE / 4) < d[n] - now < KEY_RANGE / 4
  }

  ghost predicate Modest(calls: seq<Call>, events: set<Node>) {
    forall c :: c in calls ==> c.ev in events && (c.Arm? ==> c.timer < KEY_RANGE / 4)
  }

  lemma CallIsNear(d: Deadlines, call: Call, now: int)
    requires Near(d, now) && (call.Arm? ==> call.timer < KEY_RANGE / 4)
    ensures Near(Called(d, call, now), now)
  {
  }

  lemma NearIsWindow(d: Deadlines, now: int)
    requires Near(d, now)
    ensures Window(d, now)
  {
  }

  lemma NearIsClose(d: Deadlines, ev: Node, timer: Key, now: int)
    requires Near(d, now) && timer < KEY_RANGE / 4
    ensures Close(d[ev := now + timer])
    ensures ev in d ==> -(KEY_RANGE / 2) < now + timer - d[ev] < KEY_RANGE / 2
  {
  }

  lemma TakenStays(d: Deadlines, n: Node, now: int)
    requires Window(d, now)
    ensures Window(d - {n}, now) && (Near(d, now) ==> Near(d - {n}, now))
  {
  }

  function CallsAt(script: seq<seq<Call>>, k: nat): seq<Call> { if k < |script| then script[k] else [] }

  /** `ds` are the deadlines before and after each timer that fires: it is the earliest and due, and
      then its handler has run. */
  ghost predicate Fires(d0: Deadlines, ds: seq<Deadlines>, fired: seq<Node>, script: seq<seq<Call>>, now: int) {
    && |ds| == |fired| + 1 && ds[0] == d0
    && forall k {:trigger fired[k]} :: 0 <= k < |fired| ==>
         && Earliest(ds[k], fired[k]) && ds[k][fired[k]] <= now
         && ds[k + 1] == AllCalled(ds[k] - {fired[k]}, CallsAt(script, k), now)
  }

  lemma NoFires(d0: Deadlines, script: seq<seq<Call>>, now: int)
    ensures Fires(d0, [d0], [], script, now)
  {
  }

  lemma {:induction false} OneFires(d0: Deadlines, ds: seq<Deadlines>, fired: seq<Node>, script: seq<seq<Call>>, now: int,
                 d: Deadlines, n: Node, d': Deadlines)
    requires Fires(d0, ds, fired, script, now) && ds[|fired|] == d && Earliest(d, n) && d[n] <= now
    requires d' == AllCalled(d - {n}, CallsAt(script, |fired|), now)
    ensures Fires(d0, ds + [d'], fired + [n], script, now)
  {
    hide AllCalled();
  }

  /** Exactly the timers that were due have fired, each once and in order, and all others stayed. */
  ghost predicate DueFired(d0: Deadlines, d: Deadlines, fired: seq<Node>, now: int) {
    && (forall n :: n in fired ==> n in d0 && d0[n] <= now)
    && (forall n :: n in d0 && d0[n] <= now ==> n in fired)
    && d == (map n | n in d0 && d0[n] > now :: d0[n])
    && NoDuplicates(fired)
    && forall i, j :: 0 <= i < j < |fired| ==> d0[fired[i]] <= d0[fired[j]]
  }

  lemma NoneFired(d0: Deadlines, now: int)
    ensures Expiring(d0, d0, [], now)
  {
  }

  lemma AllFired(d0: Deadlines, d: Deadlines, fired: seq<Node>, now: int)
    requires Expiring(d0, d, fired, now) && forall n :: n in d ==> d[n] > now
    ensures DueFired(d0, d, fired, now)
  {
  }

  lemma OneMore(d0: Deadlines, d: Deadlines, fired: seq<Node>, n: Node, now: int)
    requires Expiring(d0, d, fired, now) && Earliest(d, n) && d[n] <= now
    ensures Expiring(d0, d - {n}, fired + [n], now)
  {
  }

  /** The timers that have fired, in order, are due, and all others are later. */
  ghost predicate Expiring(d0: Deadlines, d: Deadlines, fired: seq<Node>, now: int) {
    && (forall n :: n in d0 ==> n in d || n in fired)
    && (forall n :: n in d ==> n !in fired && n in d0 && d[n] == d0[n])
    && (forall n :: n in fired ==> n in d0 && d0[n] <= now)
    && (forall n, m :: n in fired && m in d ==> d0[n] <= d0[m])
    && NoDuplicates(fired)
    && forall i, j :: 0 <= i < j < |fired| ==> d0[fired[i]] <= d0[fired[j]]
  }
}
