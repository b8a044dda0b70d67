/** Red-black tree nodes, and the mathematical trees that the heap of nodes represents.

    A `Tree` records the node objects, their colours and their arrangement.  A `Path` is a
    tree with one hole; `Plug` fills the hole.  The loops of the red-black tree code walk
    along parent pointers, and the pair (path to the current node, subtree at the current
    node) is the value those loops transform. */
module RbShape {

  /** ngx_uint_t on the 64-bit build: the key type of the tree. */
  const KEY_RANGE: nat := 0x1_0000_0000_0000_0000

  type Key = k: nat | k < KEY_RANGE

  /** A tree node, together with the `name` of the structure that embeds it: the file
      cache's insert function reaches that name by casting the node pointer. */
  class Node {
    var key: Key
    var left: Node?
    var right: Node?
    var parent: Node?
    var red: bool
    const name: seq<nat>

    constructor (key: Key, name: seq<nat>)
      ensures this.key == key && this.name == name && !this.red
    {
      this.key := key;
      this.name := name;
      left, right, parent, red := null, null, null, false;
    }
  }

  datatype Tree = Leaf | Branch(l: Tree, n: Node, red: bool, r: Tree)

  datatype Path =
    | Top
    | InLeft(up: Path, n: Node, red: bool, r: Tree)
    | InRight(up: Path, l: Tree, n: Node, red: bool)

  // ---------------------------------------------------------------- nodes and order

  ghost function Nodes(t: Tree): set<Node> {
    match t
    case Leaf => {}
    case Branch(l, n, _, r) => Nodes(l) + {n} + Nodes(r)
  }

  ghost function PathNodes(p: Path): set<Node> {
    match p
    case Top => {}
    case InLeft(up, n, _, r) => PathNodes(up) + {n} + Nodes(r)
    case InRight(up, l, n, _) => PathNodes(up) + {n} + Nodes(l)
  }

  /** The nodes in symmetric order. */
  ghost function Elems(t: Tree): seq<Node> {
    match t
    case Leaf => []
    case Branch(l, n, _, r) => Elems(l) + [n] + Elems(r)
  }

  ghost function Before(p: Path): seq<Node> {
    match p
    case Top => []
    case InLeft(up, _, _, _) => Before(up)
    case InRight(up, l, n, _) => Before(up) + Elems(l) + [n]
  }

  ghost function After(p: Path): seq<Node> {
    match p
    case Top => []
    case InLeft(up, n, _, r) => [n] + Elems(r) + After(up)
    case InRight(up, _, _, _) => After(up)
  }

  ghost function Plug(p: Path, t: Tree): Tree {
    match p
    case Top => t
    case InLeft(up, n, c, r) => Plug(up, Branch(t, n, c, r))
    case InRight(up, l, n, c) => Plug(up, Branch(l, n, c, t))
  }

  ghost function Depth(p: Path): nat {
    match p
    case Top => 0
    case InLeft(up, _, _, _) => 1 + Depth(up)
    case InRight(up, _, _, _) => 1 + Depth(up)
  }

  lemma Regrouped(a: seq<Node>, b: seq<Node>, c: seq<Node>, d: seq<Node>, e: seq<Node>)
    ensures a + (b + c + d) + e == a + b + (c + d + e) == a + b + c + d + e
  {
  }

  lemma {:induction false} PlugElems(p: Path, t: Tree)
    ensures Elems(Plug(p, t)) == Before(p) + Elems(t) + After(p)
  {
    match p
    case Top =>
    case InLeft(up, n, c, r) =>
      PlugElems(up, Branch(t, n, c, r));
      Regrouped(Before(up), Elems(t), [n], Elems(r), After(up));
    case InRight(up, l, n, c) =>
      PlugElems(up, Branch(l, n, c, t));
      Regrouped(Before(up), Elems(l), [n], Elems(t), After(up));
  }

  /** Where the focused node stands in the symmetric order, before and after one more step down. */
  lemma {:induction false} FocusIndex(p: Path, t: Tree)
    requires t.Branch?
    ensures var i, m, j := |Before(p)|, |Before(p)| + |Elems(t.l)|, |Before(p)| + |Elems(t)|;
      var lower, upper := InLeft(p, t.n, t.red, t.r), InRight(p, t.l, t.n, t.red);
      && i <= m < j <= |Elems(Plug(p, t))| && Elems(Plug(p, t))[m] == t.n
      && |Before(lower)| == i && |Before(lower)| + |Elems(t.l)| == m
      && |Before(upper)| == m + 1 && |Before(upper)| + |Elems(t.r)| == j
  {
    PlugElems(p, t);
  }

  lemma CutOut(a: seq<Node>, l: seq<Node>, n: Node, r: seq<Node>, b: seq<Node>)
    ensures var s, k := a + (l + [n] + r) + b, |a| + |l|;
      k < |s| && s[k] == n && s[..k] + s[k + 1..] == a + l + r + b
  {
    var s, k := a + (l + [n] + r) + b, |a| + |l|;
    assert s == a + l + [n] + (r + b);
    assert s[..k] == a + l;
    assert s[k + 1..] == r + b;
    assert a + l + (r + b) == a + l + r + b;
  }

  lemma Regroup(a: seq<Node>, n: Node, u: seq<Node>, m: seq<Node>, b: seq<Node>)
    ensures (a + [n]) + u + (m + b) == a + ([] + ([] + [n] + u) + m) + b
  {}

  lemma {:induction false} PlugNodes(p: Path, t: Tree)
    ensures Nodes(Plug(p, t)) == PathNodes(p) + Nodes(t)
  {
    match p
    case Top =>
    case InLeft(up, n, c, r) => PlugNodes(up, Branch(t, n, c, r));
    case InRight(up, l, n, c) => PlugNodes(up, Branch(l, n, c, t));
  }

  lemma {:induction false} ElemsAreNodes(t: Tree)
    ensures forall n :: n in Elems(t) ==> n in Nodes(t)
    ensures forall n :: n in Nodes(t) ==> n in Elems(t)
  {
    match t
    case Leaf =>
    case Branch(l, _, _, r) => ElemsAreNodes(l); ElemsAreNodes(r);
  }

  /** `t` with its root repainted. */
  ghost function Painted(t: Tree, red: bool): Tree {
    if t.Leaf? then Leaf else t.(red := red)
  }

  /** The tree seen from one step further up. */
  ghost function Fill(p: Path, t: Tree): (f: Tree)
    requires !p.Top?
    ensures f.Branch?
  {
    match p
    case InLeft(_, n, c, r) => Branch(t, n, c, r)
    case InRight(_, l, n, c) => Branch(l, n, c, t)
  }

  /** Path `m`, whose top is the hole of `base`. */
  ghost function Append(m: Path, base: Path): Path {
    match m
    case Top => base
    case InLeft(up, n, c, r) => InLeft(Append(up, base), n, c, r)
    case InRight(up, l, n, c) => InRight(Append(up, base), l, n, c)
  }

  /** The path of a leftmost descent: nothing comes before it. */
  ghost predicate Spine(m: Path) {
    m.Top? || (m.InLeft? && Spine(m.up))
  }

  lemma {:induction false} SpineElems(m: Path, base: Path)
    requires Spine(m)
    ensures Before(Append(m, base)) == Before(base)
    ensures After(Append(m, base)) == After(m) + After(base)
    ensures Before(m) == []
  {
    hide Elems;
    if !m.Top? {
      SpineElems(m.up, base);
      assert [m.n] + Elems(m.r) + (After(m.up) + After(base)) == [m.n] + Elems(m.r) + After(m.up) + After(base);
    }
  }

  lemma {:induction false} AppendTop(m: Path)
    ensures Append(m, Top) == m
  {
    if !m.Top? { AppendTop(m.up); }
  }

  lemma {:induction false} PlugBranch(p: Path, t: Tree)
    requires t.Branch?
    ensures Plug(p, t).Branch?
  {
    if !p.Top? { PlugBranch(p.up, Fill(p, t)); }
  }

  // ---------------------------------------------------------------- no node occurs twice

  ghost predicate Separate(t: Tree) {
    match t
    case Leaf => true
    case Branch(l, n, _, r) =>
      && Separate(l) && Separate(r)
      && n !in Nodes(l) && n !in Nodes(r) && Nodes(l) !! Nodes(r)
  }

  ghost predicate PathSeparate(p: Path) {
    match p
    case Top => true
    case InLeft(up, n, _, r) =>
      && PathSeparate(up) && Separate(r)
      && n !in PathNodes(up) && n !in Nodes(r) && Nodes(r) !! PathNodes(up)
    case InRight(up, l, n, _) =>
      && PathSeparate(up) && Separate(l)
      && n !in PathNodes(up) && n !in Nodes(l) && Nodes(l) !! PathNodes(up)
  }

  ghost predicate NoDuplicates(s: seq<Node>) {
    forall i, j :: 0 <= i < j < |s| ==> s[i] != s[j]
  }

  lemma JoinNoDuplicates(a: seq<Node>, n: Node, b: seq<Node>)
    requires NoDuplicates(a) && NoDuplicates(b)
    requires n !in a && n !in b && forall m :: m in a ==> m !in b
    ensures NoDuplicates(a + [n] + b)
  {
    var s := a + [n] + b;
    forall i, j | 0 <= i < j < |s|
      ensures s[i] != s[j]
    {
      assert i < |a| ==> s[i] == a[i] && s[i] in a;
      assert j > |a| ==> s[j] == b[j - |a| - 1] && s[j] in b;
    }
  }

  lemma {:induction false} SeparateElems(t: Tree)
    requires Separate(t)
    ensures NoDuplicates(Elems(t))
  {
    match t
    case Leaf =>
    case Branch(l, n, _, r) =>
      SeparateElems(l);
      SeparateElems(r);
      ElemsAreNodes(l);
      ElemsAreNodes(r);
      forall m | m in Elems(l) ensures m !in Elems(r) { assert m in Nodes(l); }
      JoinNoDuplicates(Elems(l), n, Elems(r));
  }

  // ---------------------------------------------------------------- the red-black rules

  ghost predicate Red(t: Tree) { t.Branch? && t.red }

  ghost predicate HolderRed(p: Path) { !p.Top? && p.red }

  /** Number of black nodes from the root of `t` down its left spine. */
  ghost function BlackHeight(t: Tree): nat {
    match t
    case Leaf => 0
    case Branch(l, _, red, _) => BlackHeight(l) + if red then 0 else 1
  }

  /** Equal black heights everywhere, and no red node with a red child. */
  ghost predicate Coloured(t: Tree) {
    match t
    case Leaf => true
    case Branch(l, _, red, r) =>
      && Coloured(l) && Coloured(r) && BlackHeight(l) == BlackHeight(r)
      && (red ==> !Red(l) && !Red(r))
  }

  /** The red-black rules for everything but the hole, when a subtree of black height `h`
      is about to fill it; the colours of the hole's root and of its holder are not compared. */
  ghost predicate PathColoured(p: Path, h: nat) {
    match p
    case Top => true
    case InLeft(up, _, red, r) =>
      && Coloured(r) && BlackHeight(r) == h
      && (red ==> !Red(r) && !up.Top? && !HolderRed(up))
      && PathColoured(up, if red then h else h + 1)
    case InRight(up, l, _, red) =>
      && Coloured(l) && BlackHeight(l) == h
      && (red ==> !Red(l) && !up.Top? && !HolderRed(up))
      && PathColoured(up, if red then h else h + 1)
  }

  /** The rules for a whole subtree, read at a place inside it. */
  lemma {:induction false} UnplugColoured(m: Path, base: Path, t: Tree)
    requires Coloured(Plug(m, t)) && PathColoured(base, BlackHeight(Plug(m, t)))
    requires Red(Plug(m, t)) ==> !base.Top? && !HolderRed(base)
    ensures Coloured(t) && PathColoured(Append(m, base), BlackHeight(t))
    ensures Red(t) ==> !Append(m, base).Top? && !HolderRed(Append(m, base))
  {
    if !m.Top? { UnplugColoured(m.up, base, Fill(m, t)); }
  }

  /** Which node object holds a place does not matter to the colours. */
  lemma {:induction false} AppendColoured(m: Path, up: Path, l: Tree, n: Node, n': Node, red: bool, h: nat)
    requires PathColoured(Append(m, InRight(up, l, n, red)), h)
    ensures PathColoured(Append(m, InRight(up, l, n', red)), h)
    ensures HolderRed(Append(m, InRight(up, l, n, red))) == HolderRed(Append(m, InRight(up, l, n', red)))
  {
    if !m.Top? {
      AppendColoured(m.up, up, l, n, n', red, if m.red then h else h + 1);
    }
  }

  ghost predicate RedBlack(t: Tree) { Coloured(t) && !Red(t) }

  lemma {:induction false} AppendTopOrNot(m: Path, base: Path)
    ensures Append(m, base).Top? <==> m.Top? && base.Top?
    ensures PathNodes(Append(m, base)) == PathNodes(m) + PathNodes(base)
  {
    if !m.Top? { AppendTopOrNot(m.up, base); }
  }

  /** What the fix-up loops rely on when they stop. */
  lemma {:induction false} PlugColoured(p: Path, t: Tree)
    requires Coloured(t) && PathColoured(p, BlackHeight(t))
    requires Red(t) ==> !p.Top? && !HolderRed(p)
    ensures RedBlack(Plug(p, t))
  {
    match p
    case Top =>
    case InLeft(up, n, c, r) => PlugColoured(up, Branch(t, n, c, r));
    case InRight(up, l, n, c) => PlugColoured(up, Branch(l, n, c, t));
  }

  // ---------------------------------------------------------------- height

  ghost function Height(t: Tree): nat {
    match t
    case Leaf => 0
    case Branch(l, _, _, r) => 1 + if Height(l) < Height(r) then Height(r) else Height(l)
  }

  ghost function Pow2(k: nat): nat {
    if k == 0 then 1 else 2 * Pow2(k - 1)
  }

  lemma {:induction false} HeightByBlackHeight(t: Tree)
    requires Coloured(t)
    ensures Height(t) <= 2 * BlackHeight(t) + if Red(t) then 1 else 0
    ensures |Elems(t)| + 1 >= Pow2(BlackHeight(t))
  {
    match t
    case Leaf =>
    case Branch(l, _, red, r) =>
      HeightByBlackHeight(l);
      HeightByBlackHeight(r);
  }

  lemma {:induction false} Pow2Monotone(a: nat, b: nat)
    requires a <= b
    ensures Pow2(a) <= Pow2(b)
  {
    if a < b { Pow2Monotone(a, b - 1); }
  }

  lemma {:induction false} Pow2Double(k: nat)
    ensures Pow2(2 * k) == Pow2(k) * Pow2(k)
  {
    if k > 0 {
      Pow2Double(k - 1);
      assert Pow2(2 * k) == 2 * Pow2(2 * k - 1) == 4 * Pow2(2 * (k - 1));
    }
  }

  /** Height at most 2 log2(n + 1), stated without logarithms. */
  lemma {:induction false} RedBlackHeight(t: Tree)
    requires RedBlack(t)
    ensures Pow2(Height(t)) <= (|Elems(t)| + 1) * (|Elems(t)| + 1)
  {
    HeightByBlackHeight(t);
    var b := BlackHeight(t);
    Pow2Monotone(Height(t), 2 * b);
    Pow2Double(b);
    SquareMonotone(Pow2(b), |Elems(t)| + 1);
  }

  lemma SquareMonotone(a: nat, b: nat)
    requires a <= b
    ensures a * a <= b * b
  {
    assert b * b == a * a + (b - a) * (b + a);
  }

  /** So many steps are at most 2 log2(n + 1). */
  ghost predicate Logarithmic(steps: nat, n: nat) {
    Pow2(steps) <= (n + 1) * (n + 1)
  }

  lemma {:induction false} DepthWithin(p: Path, t: Tree)
    ensures Depth(p) + Height(t) <= Height(Plug(p, t))
  {
    if !p.Top? { DepthWithin(p.up, Fill(p, t)); }
  }

  /** No path in a red-black tree is longer. */
  lemma {:induction false} DepthIsLogarithmic(shape: Tree, p: Path, t: Tree)
    requires RedBlack(shape) && Plug(p, t) == shape
    ensures forall steps: nat :: steps <= Depth(p) + Height(t) ==> Logarithmic(steps, |Elems(shape)|)
  {
    DepthWithin(p, t);
    RedBlackHeight(shape);
    forall steps: nat | steps <= Depth(p) + Height(t) ensures Logarithmic(steps, |Elems(shape)|) {
      Pow2Monotone(steps, Height(shape));
    }
  }

  lemma {:induction false} SuccessorDepth(p: Path, t: Tree, m: Path, u: Tree, n: Node)
    requires t.Branch? && u.Branch? && Plug(m, u) == t.r
    ensures Depth(Append(m, InRight(p, t.l, n, t.red))) <= Depth(p) + Height(t)
  {
    AppendDepth(m, InRight(p, t.l, n, t.red));
    DepthWithin(m, u);
  }

  lemma {:induction false} AppendDepth(m: Path, base: Path)
    ensures Depth(Append(m, base)) == Depth(m) + Depth(base)
  {
    if !m.Top? { AppendDepth(m.up, base); }
  }
}
