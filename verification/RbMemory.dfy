/** What the nodes hold, as a map, and when that map represents a tree with a focus.

    Rotations and repaintings are stated cell by cell; the lemmas here lift each of them to
    the tree it produces. */
module RbMemory {
  import opened RbShape

  // ---------------------------------------------------------------- memory and shape agree

  /** The pointers and the colour of one node. */
  datatype Cell = Cell(left: Node?, right: Node?, parent: Node?, red: bool)

  type Memory = map<Node, Cell>

  ghost function PtrTo(t: Tree, s: Node): Node {
    if t.Leaf? then s else t.n
  }

  ghost predicate ChildOf(m: Memory, t: Tree, n: Node) {
    t.Branch? ==> t.n in m && m[t.n].parent == n
  }

  ghost predicate HeldBy(m: Memory, n: Node, p: Path) {
    !p.Top? ==> n in m && m[n].parent == p.n
  }

  ghost predicate Linked(m: Memory, t: Tree, s: Node) {
    match t
    case Leaf => true
    case Branch(l, n, red, r) =>
      && n in m && m[n].red == red && m[n].left == PtrTo(l, s) && m[n].right == PtrTo(r, s)
      && ChildOf(m, l, n) && ChildOf(m, r, n)
      && Linked(m, l, s) && Linked(m, r, s)
  }

  ghost predicate PathLinked(m: Memory, p: Path, child: Node, root: Node, s: Node) {
    match p
    case Top => root == child
    case InLeft(up, n, red, r) =>
      && n in m && m[n].red == red && m[n].left == child && m[n].right == PtrTo(r, s)
      && ChildOf(m, r, n) && Linked(m, r, s)
      && HeldBy(m, n, up) && PathLinked(m, up, n, root, s)
    case InRight(up, l, n, red) =>
      && n in m && m[n].red == red && m[n].right == child && m[n].left == PtrTo(l, s)
      && ChildOf(m, l, n) && Linked(m, l, s)
      && HeldBy(m, n, up) && PathLinked(m, up, n, root, s)
  }

  ghost predicate Apart(p: Path, t: Tree, s: Node) {
    && Separate(t) && PathSeparate(p) && Nodes(t) !! PathNodes(p)
    && s !in Nodes(t) && s !in PathNodes(p)
  }

  /** All but the parent pointer of the focused subtree's root. */
  ghost predicate LooseRep(m: Memory, p: Path, t: Tree, root: Node, s: Node) {
    && Apart(p, t, s)
    && Linked(m, t, s) && PathLinked(m, p, PtrTo(t, s), root, s)
  }

  /** The memory reached from `root` is `Plug(p, t)`; the parent of its root is exempt. */
  ghost predicate MemRep(m: Memory, p: Path, t: Tree, root: Node, s: Node) {
    LooseRep(m, p, t, root, s) && (t.Branch? ==> HeldBy(m, t.n, p))
  }

  /** Within `region`, `m'` differs from `m` only at the nodes in `touched`. */
  ghost predicate Agree(m: Memory, m': Memory, region: set<Node>, touched: set<Node>) {
    forall n :: n in region && n !in touched && n in m ==> n in m' && m'[n] == m[n]
  }

  lemma {:induction false} LinkedFrame(m: Memory, m': Memory, t: Tree, s: Node)
    requires Linked(m, t, s)
    requires Agree(m, m', Nodes(t), {})
    ensures Linked(m', t, s)
  {
    match t
    case Leaf =>
    case Branch(l, n, _, r) =>
      LinkedFrame(m, m', l, s);
      LinkedFrame(m, m', r, s);
  }

  lemma {:induction false} PathLinkedFrame(m: Memory, m': Memory, p: Path, child: Node, root: Node, s: Node)
    requires PathLinked(m, p, child, root, s)
    requires Agree(m, m', PathNodes(p), {})
    ensures PathLinked(m', p, child, root, s)
  {
    match p
    case Top =>
    case InLeft(up, n, _, r) =>
      LinkedFrame(m, m', r, s);
      PathLinkedFrame(m, m', up, n, root, s);
    case InRight(up, l, n, _) =>
      LinkedFrame(m, m', l, s);
      PathLinkedFrame(m, m', up, n, root, s);
  }

  lemma {:induction false} RootOnPath(m: Memory, p: Path, child: Node, root: Node, s: Node)
    requires PathLinked(m, p, child, root, s) && !p.Top?
    ensures root in PathNodes(p)
  {
    if !p.up.Top? { RootOnPath(m, p.up, p.n, root, s); }
  }

  lemma Ascend(m: Memory, p: Path, t: Tree, root: Node, s: Node)
    requires MemRep(m, p, t, root, s) && !p.Top?
    ensures MemRep(m, p.up, Fill(p, t), root, s)
  {}

  lemma DescendLeft(m: Memory, p: Path, t: Tree, root: Node, s: Node)
    requires MemRep(m, p, t, root, s) && t.Branch?
    ensures MemRep(m, InLeft(p, t.n, t.red, t.r), t.l, root, s)
  {}

  lemma DescendRight(m: Memory, p: Path, t: Tree, root: Node, s: Node)
    requires MemRep(m, p, t, root, s) && t.Branch?
    ensures MemRep(m, InRight(p, t.l, t.n, t.red), t.r, root, s)
  {}

  lemma {:induction false} Zip(m: Memory, q: Path, base: Path, t: Tree, root: Node, s: Node)
    requires MemRep(m, Append(q, base), t, root, s)
    ensures MemRep(m, base, Plug(q, t), root, s)
  {
    if !q.Top? {
      Ascend(m, Append(q, base), t, root, s);
      assert Fill(Append(q, base), t) == Fill(q, t);
      Zip(m, q.up, base, Fill(q, t), root, s);
    }
  }

  lemma {:induction false} Unzip(m: Memory, q: Path, base: Path, t: Tree, root: Node, s: Node)
    requires MemRep(m, base, Plug(q, t), root, s)
    ensures MemRep(m, Append(q, base), t, root, s)
  {
    match q
    case Top =>
    case InLeft(up, n, c, r) =>
      Unzip(m, up, base, Branch(t, n, c, r), root, s);
      DescendLeft(m, Append(up, base), Branch(t, n, c, r), root, s);
    case InRight(up, l, n, c) =>
      Unzip(m, up, base, Branch(l, n, c, t), root, s);
      DescendRight(m, Append(up, base), Branch(l, n, c, t), root, s);
  }

  // ---------------------------------------------------------------- rotations

  ghost function RotatedLeft(t: Tree): Tree
    requires t.Branch? && t.r.Branch?
  {
    Branch(Branch(t.l, t.n, t.red, t.r.l), t.r.n, t.r.red, t.r.r)
  }

  ghost function RotatedRight(t: Tree): Tree
    requires t.Branch? && t.l.Branch?
  {
    Branch(t.l.l, t.l.n, t.l.red, Branch(t.l.r, t.n, t.red, t.r))
  }

  ghost function RootNode(t: Tree): set<Node> {
    if t.Leaf? then {} else {t.n}
  }

  ghost function Holder(p: Path): set<Node> {
    if p.Top? then {} else {p.n}
  }

  /** The pointer that led to the focus now leads to `child`. */
  ghost predicate Repointed(m: Memory, m': Memory, p: Path, child: Node, root: Node, root': Node) {
    match p
    case Top => root' == child
    case InLeft(_, n, _, _) => root' == root && n in m && n in m' && m'[n] == m[n].(left := child)
    case InRight(_, _, n, _) => root' == root && n in m && n in m' && m'[n] == m[n].(right := child)
  }

  lemma {:induction false} RepointedPath(m: Memory, m': Memory, p: Path, old_: Node, child: Node, root: Node, root': Node, s: Node)
    requires PathLinked(m, p, old_, root, s) && PathSeparate(p) && Repointed(m, m', p, child, root, root')
    requires Agree(m, m', PathNodes(p), Holder(p))
    ensures PathLinked(m', p, child, root', s)
  {
    match p
    case Top =>
    case InLeft(up, n, _, r) =>
      LinkedFrame(m, m', r, s);
      PathLinkedFrame(m, m', up, n, root, s);
    case InRight(up, l, n, _) =>
      LinkedFrame(m, m', l, s);
      PathLinkedFrame(m, m', up, n, root, s);
  }

  /** A subtree whose root got a new parent pointer. */
  lemma {:induction false} Reparented(m: Memory, m': Memory, t: Tree, n: Node, s: Node)
    requires Linked(m, t, s) && Separate(t)
    requires Agree(m, m', Nodes(t), RootNode(t))
    requires t.Branch? ==> t.n in m' && m'[t.n] == m[t.n].(parent := n)
    ensures Linked(m', t, s) && ChildOf(m', t, n)
  {
    if t.Branch? {
      LinkedFrame(m, m', t.l, s);
      LinkedFrame(m, m', t.r, s);
    }
  }

  lemma {:induction false} RotatedLeftApart(p: Path, t: Tree, s: Node)
    requires Apart(p, t, s) && t.Branch? && t.r.Branch?
    ensures Apart(p, RotatedLeft(t), s)
    ensures Nodes(RotatedLeft(t)) == Nodes(t)
  {
    assert Nodes(t.r) == Nodes(t.r.l) + {t.r.n} + Nodes(t.r.r) && Separate(t.r);
  }

  /** The cells of a rotated subtree; `h` is the parent pointer that moves up. */
  ghost predicate LeftCells(m: Memory, m': Memory, t: Tree, s: Node)
    requires t.Branch? && t.r.Branch?
  {
    && t.n in m && t.r.n in m && t.n in m' && t.r.n in m'
    && m'[t.n] == m[t.n].(right := PtrTo(t.r.l, s), parent := t.r.n)
    && m'[t.r.n] == m[t.r.n].(left := t.n, parent := m[t.n].parent)
    && (t.r.l.Branch? ==> t.r.l.n in m && t.r.l.n in m' && m'[t.r.l.n] == m[t.r.l.n].(parent := t.n))
  }

  lemma {:induction false} RotatedLeftLinked(m: Memory, m': Memory, t: Tree, s: Node)
    requires Linked(m, t, s) && Separate(t) && t.Branch? && t.r.Branch?
    requires Agree(m, m', Nodes(t), {t.n, t.r.n} + RootNode(t.r.l)) && LeftCells(m, m', t, s)
    ensures Linked(m', RotatedLeft(t), s)
  {
    assert Linked(m, t.r, s) && Separate(t.r);
    assert RootNode(t.r.l) <= Nodes(t.r.l) && Nodes(t.r) == Nodes(t.r.l) + {t.r.n} + Nodes(t.r.r);
    LinkedFrame(m, m', t.l, s);
    LinkedFrame(m, m', t.r.r, s);
    Reparented(m, m', t.r.l, t.n, s);
    var lower := Branch(t.l, t.n, t.red, t.r.l);
    assert Linked(m', lower, s);
  }

  /** What a left rotation at `x` dereferences is there, and no two of these nodes coincide. */
  ghost predicate RotatesLeft(m: Memory, x: Node, root: Node, s: Node) {
    && x in m && m[x].right != null && m[x].right in m && m[m[x].right].left != null
    && (m[m[x].right].left != s ==> m[m[x].right].left in m)
    && (x != root ==> m[x].parent != null && m[x].parent in m)
    && AllDifferent(x, m[x].right, m[m[x].right].left, if x == root then null else m[x].parent)
  }

  /** The effect of a left rotation at `x`, cell by cell. */
  ghost predicate LeftRotation(m: Memory, m': Memory, x: Node, root: Node, root': Node, s: Node)
    requires RotatesLeft(m, x, root, s)
  {
    var y := m[x].right;
    var b := m[y].left;
    var h := m[x].parent;
    && m'.Keys == m.Keys
    && (forall n :: n in m && n != x && n != y && (b == s || n != b) && (x == root || n != h) ==> m'[n] == m[n])
    && m'[x] == m[x].(right := b, parent := y)
    && m'[y] == m[y].(left := x, parent := h)
    && (b != s ==> m'[b] == m[b].(parent := x))
    && (x == root ==> root' == y)
    && (x != root ==> root' == root && m'[h] == if m[h].left == x then m[h].(left := y) else m[h].(right := y))
  }

  ghost predicate AllDifferent(x: Node, y: Node, b: Node?, h: Node?) {
    x != y && x != b && y != b && h != x && h != y && (h == null || h != b)
  }

  lemma LeftRotatable(m: Memory, p: Path, t: Tree, root: Node, s: Node)
    requires MemRep(m, p, t, root, s) && t.Branch? && t.r.Branch?
    ensures t.n in m && m[t.n].right == t.r.n && t.r.n in m && m[t.r.n].left == PtrTo(t.r.l, s)
    ensures t.r.l.Branch? ==> t.r.l.n in m
    ensures p.Top? <==> t.n == root
    ensures RotatesLeft(m, t.n, root, s)
  {
    assert Linked(m, t.r, s) && RootNode(t.r.l) <= Nodes(t.r.l) <= Nodes(t.r);
    if !p.Top? { RootOnPath(m, p, t.n, root, s); }
  }

  lemma {:induction false} LeftRotationCells(m: Memory, m': Memory, p: Path, t: Tree, root: Node, root': Node, s: Node)
    requires MemRep(m, p, t, root, s) && t.Branch? && t.r.Branch?
    requires RotatesLeft(m, t.n, root, s) && LeftRotation(m, m', t.n, root, root', s)
    ensures Agree(m, m', Nodes(t), {t.n, t.r.n} + RootNode(t.r.l)) && LeftCells(m, m', t, s)
    ensures Agree(m, m', PathNodes(p), Holder(p)) && Repointed(m, m', p, t.r.n, root, root')
  {
    LeftRotatable(m, p, t, root, s);
    assert RootNode(t.r.l) <= Nodes(t.r.l) <= Nodes(t.r) && t.r.n in Nodes(t.r);
    assert Holder(p) <= PathNodes(p);
  }

  lemma RotateLeftRep(m: Memory, m': Memory, p: Path, t: Tree, root: Node, root': Node, s: Node)
    requires MemRep(m, p, t, root, s) && t.Branch? && t.r.Branch?
    requires RotatesLeft(m, t.n, root, s) && LeftRotation(m, m', t.n, root, root', s)
    ensures MemRep(m', p, RotatedLeft(t), root', s)
  {
    LeftRotationCells(m, m', p, t, root, root', s);
    LeftRotatable(m, p, t, root, s);
    RotatedLeftApart(p, t, s);
    RotatedLeftLinked(m, m', t, s);
    RepointedPath(m, m', p, t.n, t.r.n, root, root', s);
  }

  lemma {:induction false} RotatedRightApart(p: Path, t: Tree, s: Node)
    requires Apart(p, t, s) && t.Branch? && t.l.Branch?
    ensures Apart(p, RotatedRight(t), s)
    ensures Nodes(RotatedRight(t)) == Nodes(t)
  {
    assert Nodes(t.l) == Nodes(t.l.l) + {t.l.n} + Nodes(t.l.r) && Separate(t.l);
  }

  ghost predicate RightCells(m: Memory, m': Memory, t: Tree, s: Node)
    requires t.Branch? && t.l.Branch?
  {
    && t.n in m && t.l.n in m && t.n in m' && t.l.n in m'
    && m'[t.n] == m[t.n].(left := PtrTo(t.l.r, s), parent := t.l.n)
    && m'[t.l.n] == m[t.l.n].(right := t.n, parent := m[t.n].parent)
    && (t.l.r.Branch? ==> t.l.r.n in m && t.l.r.n in m' && m'[t.l.r.n] == m[t.l.r.n].(parent := t.n))
  }

  lemma {:induction false} RotatedRightLinked(m: Memory, m': Memory, t: Tree, s: Node)
    requires Linked(m, t, s) && Separate(t) && t.Branch? && t.l.Branch?
    requires Agree(m, m', Nodes(t), {t.n, t.l.n} + RootNode(t.l.r)) && RightCells(m, m', t, s)
    ensures Linked(m', RotatedRight(t), s)
  {
    assert Linked(m, t.l, s) && Separate(t.l);
    assert RootNode(t.l.r) <= Nodes(t.l.r) && Nodes(t.l) == Nodes(t.l.l) + {t.l.n} + Nodes(t.l.r);
    LinkedFrame(m, m', t.r, s);
    LinkedFrame(m, m', t.l.l, s);
    Reparented(m, m', t.l.r, t.n, s);
    var lower := Branch(t.l.r, t.n, t.red, t.r);
    assert Linked(m', lower, s);
  }

  /** What a right rotation at `x` dereferences is there, and no two of these nodes coincide. */
  ghost predicate RotatesRight(m: Memory, x: Node, root: Node, s: Node) {
    && x in m && m[x].left != null && m[x].left in m && m[m[x].left].right != null
    && (m[m[x].left].right != s ==> m[m[x].left].right in m)
    && (x != root ==> m[x].parent != null && m[x].parent in m)
    && AllDifferent(x, m[x].left, m[m[x].left].right, if x == root then null else m[x].parent)
  }

  /** The effect of a right rotation at `x`, cell by cell. */
  ghost predicate RightRotation(m: Memory, m': Memory, x: Node, root: Node, root': Node, s: Node)
    requires RotatesRight(m, x, root, s)
  {
    var y := m[x].left;
    var b := m[y].right;
    var h := m[x].parent;
    && m'.Keys == m.Keys
    && (forall n :: n in m && n != x && n != y && (b == s || n != b) && (x == root || n != h) ==> m'[n] == m[n])
    && m'[x] == m[x].(left := b, parent := y)
    && m'[y] == m[y].(right := x, parent := h)
    && (b != s ==> m'[b] == m[b].(parent := x))
    && (x == root ==> root' == y)
    && (x != root ==> root' == root && m'[h] == if m[h].right == x then m[h].(right := y) else m[h].(left := y))
  }

  lemma RightRotatable(m: Memory, p: Path, t: Tree, root: Node, s: Node)
    requires MemRep(m, p, t, root, s) && t.Branch? && t.l.Branch?
    ensures t.n in m && m[t.n].left == t.l.n && t.l.n in m && m[t.l.n].right == PtrTo(t.l.r, s)
    ensures t.l.r.Branch? ==> t.l.r.n in m
    ensures p.Top? <==> t.n == root
    ensures RotatesRight(m, t.n, root, s)
  {
    assert Linked(m, t.l, s) && RootNode(t.l.r) <= Nodes(t.l.r) <= Nodes(t.l);
    if !p.Top? { RootOnPath(m, p, t.n, root, s); }
  }

  lemma {:induction false} RightRotationCells(m: Memory, m': Memory, p: Path, t: Tree, root: Node, root': Node, s: Node)
    requires MemRep(m, p, t, root, s) && t.Branch? && t.l.Branch?
    requires RotatesRight(m, t.n, root, s) && RightRotation(m, m', t.n, root, root', s)
    ensures Agree(m, m', Nodes(t), {t.n, t.l.n} + RootNode(t.l.r)) && RightCells(m, m', t, s)
    ensures Agree(m, m', PathNodes(p), Holder(p)) && Repointed(m, m', p, t.l.n, root, root')
  {
    RightRotatable(m, p, t, root, s);
    assert RootNode(t.l.r) <= Nodes(t.l.r) <= Nodes(t.l) && t.l.n in Nodes(t.l);
    assert Holder(p) <= PathNodes(p);
  }

  lemma RotateRightRep(m: Memory, m': Memory, p: Path, t: Tree, root: Node, root': Node, s: Node)
    requires MemRep(m, p, t, root, s) && t.Branch? && t.l.Branch?
    requires RotatesRight(m, t.n, root, s) && RightRotation(m, m', t.n, root, root', s)
    ensures MemRep(m', p, RotatedRight(t), root', s)
  {
    RightRotationCells(m, m', p, t, root, root', s);
    RightRotatable(m, p, t, root, s);
    RotatedRightApart(p, t, s);
    RotatedRightLinked(m, m', t, s);
    RepointedPath(m, m', p, t.n, t.l.n, root, root', s);
  }

  lemma {:induction false} PaintRep(m: Memory, m': Memory, p: Path, t: Tree, root: Node, s: Node, red: bool)
    requires MemRep(m, p, t, root, s) && t.Branch?
    requires Agree(m, m', PathNodes(p) + Nodes(t), {t.n}) && t.n in m' && m'[t.n] == m[t.n].(red := red)
    ensures MemRep(m', p, t.(red := red), root, s)
  {
    LinkedFrame(m, m', t.l, s);
    LinkedFrame(m, m', t.r, s);
    PathLinkedFrame(m, m', p, t.n, root, s);
  }

  // ---------------------------------------------------------------- a new leaf

  lemma {:induction false} AttachRep(m: Memory, m': Memory, p: Path, node: Node, root: Node, s: Node)
    requires MemRep(m, p, Leaf, root, s) && !p.Top?
    requires node !in PathNodes(p) && node != s
    requires Agree(m, m', PathNodes(p), Holder(p)) && Repointed(m, m', p, node, root, root)
    requires node in m' && m'[node] == Cell(s, s, p.n, true)
    ensures MemRep(m', p, Branch(Leaf, node, true, Leaf), root, s)
  {
    RepointedPath(m, m', p, s, node, root, root, s);
  }

  // ---------------------------------------------------------------- taking a node out

  /** A node with one child (or none) gives its place to that child. */
  ghost predicate OnlyChild(t: Tree, child: Tree) {
    t.Branch? && ((t.l.Leaf? && child == t.r) || (t.r.Leaf? && child == t.l))
  }

  lemma {:induction false} SpliceRep(m: Memory, m': Memory, p: Path, t: Tree, child: Tree, root: Node, root': Node, s: Node)
    requires MemRep(m, p, t, root, s) && OnlyChild(t, child)
    requires Agree(m, m', PathNodes(p) + Nodes(child), Holder(p)) && Repointed(m, m', p, PtrTo(child, s), root, root')
    ensures LooseRep(m', p, child, root', s)
    ensures t.n !in PathNodes(p) && t.n !in Nodes(child)
  {
    assert Nodes(child) <= Nodes(t) && Holder(p) <= PathNodes(p);
    LinkedFrame(m, m', child, s);
    RepointedPath(m, m', p, t.n, PtrTo(child, s), root, root', s);
  }

  /** The parent pointer of the focused subtree's root is free. */
  lemma {:induction false} LooseReparent(m: Memory, m': Memory, p: Path, child: Tree, holder: Node, root: Node, s: Node)
    requires LooseRep(m, p, child, root, s)
    requires Agree(m, m', PathNodes(p) + Nodes(child), RootNode(child))
    requires child.Branch? ==> child.n in m' && m'[child.n] == m[child.n].(parent := holder)
    ensures LooseRep(m', p, child, root, s)
    ensures !p.Top? && holder == p.n ==> MemRep(m', p, child, root, s)
  {
    assert RootNode(child) <= Nodes(child);
    Reparented(m, m', child, holder, s);
    PathLinkedFrame(m, m', p, PtrTo(child, s), root, s);
  }

  /** What replacing `x` by `y` dereferences is there, and no two of these nodes coincide. */
  ghost predicate Replaceable(m: Memory, x: Node, y: Node, root: Node, s: Node) {
    && x in m && y in m && x != y && y != s
    && (m[x].left != s ==> m[x].left != null && m[x].left in m && m[x].left != x && m[x].left != y && m[x].left != m[x].right)
    && (m[x].right != s ==> m[x].right != null && m[x].right in m && m[x].right != x && m[x].right != y)
    && (x != root ==> m[x].parent != null && m[x].parent in m && m[x].parent != x && m[x].parent != y)
    && (x != root ==> m[x].parent != m[x].left && m[x].parent != m[x].right)
  }

  /** The effect of replacing `x` by `y`, cell by cell; `x` itself is left as it was. */
  ghost predicate Replaced(m: Memory, m': Memory, x: Node, y: Node, root: Node, root': Node, s: Node)
    requires Replaceable(m, x, y, root, s)
  {
    var l := m[x].left;
    var r := m[x].right;
    var h := m[x].parent;
    && m'.Keys == m.Keys
    && (forall n :: n in m && n != y && (l == s || n != l) && (r == s || n != r) && (x == root || n != h) ==> m'[n] == m[n])
    && m'[y] == m[x]
    && (l != s ==> m'[l] == m[l].(parent := y))
    && (r != s ==> m'[r] == m[r].(parent := y))
    && (x == root ==> root' == y)
    && (x != root ==> root' == root && m'[h] == if m[h].left == x then m[h].(left := y) else m[h].(right := y))
  }

  lemma {:induction false} ReplaceableHere(m: Memory, p: Path, l: Tree, x: Node, red: bool, r: Tree, y: Node, root: Node, s: Node)
    requires LooseRep(m, InRight(p, l, x, red), r, root, s)
    requires x in m && y in m && x != y && y != s && PathNodes(p) + Nodes(l) + Nodes(r) <= m.Keys
    requires y !in PathNodes(p) && y !in Nodes(l) && y !in Nodes(r)
    ensures Replaceable(m, x, y, root, s)
    ensures m[x].left == PtrTo(l, s) && m[x].right == PtrTo(r, s) && m[x].red == red
    ensures (p.Top? <==> x == root) && (!p.Top? ==> m[x].parent == p.n && (p.InLeft? <==> m[p.n].left == x))
  {
    assert RootNode(l) <= Nodes(l) && RootNode(r) <= Nodes(r) && Holder(p) <= PathNodes(p);
    assert PathLinked(m, p, x, root, s) && HeldBy(m, x, p);
    if !p.Top? { RootOnPath(m, p, x, root, s); }
  }

  lemma {:induction false} ReplacedCells(m: Memory, m': Memory, k: Memory, p: Path, l: Tree, x: Node, red: bool, r: Tree, y: Node, root: Node, root': Node, s: Node)
    requires LooseRep(m, InRight(p, l, x, red), r, root, s)
    requires x in m && y in m && x != y && y != s && PathNodes(p) + Nodes(l) + Nodes(r) <= m.Keys
    requires y !in PathNodes(p) && y !in Nodes(l) && y !in Nodes(r)
    requires Replaceable(m, x, y, root, s) && Replaced(m, m', x, y, root, root', s)
    requires k == m' - {x}
    ensures Replacement(m, k, p, l, x, r, y, root, root')
  {
    ReplaceableHere(m, p, l, x, red, r, y, root, s);
    assert RootNode(l) <= Nodes(l) && RootNode(r) <= Nodes(r) && Holder(p) <= PathNodes(p);
  }

  /** The effect of `subst` taking over the place, the children and the colour of `node`. */
  ghost predicate Replacement(m: Memory, m': Memory, p: Path, l: Tree, node: Node, r: Tree, subst: Node, root: Node, root': Node) {
    && Agree(m, m', PathNodes(p) + Nodes(l) + Nodes(r), Holder(p) + RootNode(l) + RootNode(r))
    && node in m && subst in m' && m'[subst] == m[node]
    && (l.Branch? ==> l.n in m && l.n in m' && m'[l.n] == m[l.n].(parent := subst))
    && (r.Branch? ==> r.n in m && r.n in m' && m'[r.n] == m[r.n].(parent := subst))
    && Repointed(m, m', p, subst, root, root')
  }

  lemma {:induction false} RootsInside(p: Path, l: Tree, r: Tree)
    ensures RootNode(l) <= Nodes(l) && RootNode(r) <= Nodes(r) && Holder(p) <= PathNodes(p)
  {
  }

  lemma {:induction false} ReplacedApart(p: Path, l: Tree, node: Node, red: bool, r: Tree, subst: Node, s: Node)
    requires Apart(InRight(p, l, node, red), r, s)
    requires subst !in PathNodes(p) && subst !in Nodes(l) && subst !in Nodes(r) && subst != s
    ensures Apart(p, Branch(l, subst, red, r), s)
  {
  }

  lemma {:induction false} ReplaceRep(m: Memory, m': Memory, p: Path, l: Tree, node: Node, red: bool, r: Tree, subst: Node, root: Node, root': Node, s: Node)
    requires LooseRep(m, InRight(p, l, node, red), r, root, s)
    requires subst !in PathNodes(p) && subst !in Nodes(l) && subst !in Nodes(r) && subst != s
    requires Replacement(m, m', p, l, node, r, subst, root, root')
    ensures MemRep(m', p, Branch(l, subst, red, r), root', s)
  {
    RootsInside(p, l, r);
    Reparented(m, m', l, subst, s);
    Reparented(m, m', r, subst, s);
    RepointedPath(m, m', p, node, subst, root, root', s);
    ReplacedApart(p, l, node, red, r, subst, s);
    hide Separate, PathSeparate, PathLinked;
  }

  lemma {:induction false} ReplacedRep(m: Memory, m': Memory, k: Memory, p: Path, l: Tree, x: Node, red: bool, r: Tree, y: Node, root: Node, root': Node, s: Node)
    requires LooseRep(m, InRight(p, l, x, red), r, root, s)
    requires x in m && y in m && x != y && y != s && PathNodes(p) + Nodes(l) + Nodes(r) <= m.Keys
    requires y !in PathNodes(p) && y !in Nodes(l) && y !in Nodes(r)
    requires Replaceable(m, x, y, root, s) && Replaced(m, m', x, y, root, root', s)
    requires k == m' - {x}
    ensures MemRep(k, p, Branch(l, y, red, r), root', s)
    ensures {x} + PathNodes(p) + Nodes(Branch(l, y, red, r)) == PathNodes(p) + Nodes(l) + {x} + Nodes(r) + {y}
    ensures x !in PathNodes(p) && x !in Nodes(Branch(l, y, red, r))
  {
    ReplacedCells(m, m', k, p, l, x, red, r, y, root, root', s);
    ReplaceRep(m, k, p, l, x, red, r, y, root, root', s);
  }
}
