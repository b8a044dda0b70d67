/** The shape of the radix tree of ngx_radix_tree.c: its nodes by the bits that lead to them. */
module RadixShape {

  type Bits = seq<bool>

  /** A 32-bit word, the most significant bit first. */
  type Word = w: seq<bool> | |w| == 32 witness seq(32, _ => false)

  datatype Option = None | Some(v: nat)

  /** ngx_radix_node_t; no value is NGX_RADIX_NO_VALUE. */
  class Node {
    var right: Node?
    var left: Node?
    var parent: Node?
    var value: Option

    /** What freshly allocated memory holds is not known. */
    constructor () {
    }
  }

  /** The fields of a node. */
  datatype Cell = Cell(right: Node?, left: Node?, parent: Node?, value: Option)

  type Memory = map<Node, Cell>

  ghost function Kid(c: Cell, b: bool): Node? { if b then c.right else c.left }

  ghost function WithKid(c: Cell, b: bool, n: Node?): Cell { if b then c.(right := n) else c.(left := n) }

  ghost function Up(p: Bits): Bits
    requires p != []
  {
    p[..|p| - 1]
  }

  ghost function Down(p: Bits, b: bool): Bits { p + [b] }

  lemma UpDown(p: Bits, b: bool)
    ensures Up(Down(p, b)) == p
  {
  }

  lemma DownUp(p: Bits)
    requires p != []
    ensures Down(Up(p), p[|p| - 1]) == p
  {
  }

  ghost function NodeAt(nodes: map<Bits, Node>, p: Bits): Node? { if p in nodes then nodes[p] else null }

  // ---------------------------------------------------------------- the invariant

  ghost predicate Rooted(m: Memory, nodes: map<Bits, Node>) {
    [] in nodes && nodes[[]] in m && m[nodes[[]]].parent == null
  }

  ghost predicate InMemory(m: Memory, nodes: map<Bits, Node>) {
    forall p :: p in nodes ==> nodes[p] in m && |p| <= 32
  }

  /** Every node but the root hangs below another, which it knows as its parent. */
  ghost predicate Parents(m: Memory, nodes: map<Bits, Node>) {
    forall p :: p in nodes && p != [] ==> nodes[p] in m && Up(p) in nodes && m[nodes[p]].parent == nodes[Up(p)]
  }

  ghost predicate KidFits(m: Memory, nodes: map<Bits, Node>, p: Bits, b: bool)
    requires p in nodes
  {
    nodes[p] in m && Kid(m[nodes[p]], b) == NodeAt(nodes, Down(p, b))
  }

  /** A node points to the nodes one bit below it, and to no others. */
  ghost predicate Kids(m: Memory, nodes: map<Bits, Node>) {
    forall p, b :: p in nodes ==> KidFits(m, nodes, p, b)
  }

  ghost predicate Distinct(nodes: map<Bits, Node>) {
    forall p, q :: p in nodes && q in nodes && nodes[p] == nodes[q] ==> p == q
  }

  ghost predicate Shape(m: Memory, nodes: map<Bits, Node>) {
    Rooted(m, nodes) && InMemory(m, nodes) && Parents(m, nodes) && Kids(m, nodes) && Distinct(nodes)
  }

  ghost predicate Leaf(nodes: map<Bits, Node>, p: Bits) { Down(p, false) !in nodes && Down(p, true) !in nodes }

  /** Every leaf but the root carries a value. */
  ghost predicate Pruned(m: Memory, nodes: map<Bits, Node>)
    requires InMemory(m, nodes)
  {
    forall p :: p in nodes && p != [] && Leaf(nodes, p) ==> m[nodes[p]].value.Some?
  }

  /** The prefixes that are stored, with their values. */
  ghost function Contents(m: Memory, nodes: map<Bits, Node>): map<Bits, nat>
    requires InMemory(m, nodes)
  {
    map p | p in nodes && m[nodes[p]].value.Some? :: m[nodes[p]].value.v
  }

  /** The shape depends on the cells of the nodes only. */
  lemma ShapeFrame(m: Memory, m': Memory, nodes: map<Bits, Node>)
    requires Shape(m, nodes)
    requires forall p :: p in nodes ==> nodes[p] in m' && m'[nodes[p]] == m[nodes[p]]
    ensures Shape(m', nodes) && Contents(m', nodes) == Contents(m, nodes)
  {
    forall p, b | p in nodes ensures KidFits(m', nodes, p, b) {
      assert KidFits(m, nodes, p, b);
    }
  }

  // ---------------------------------------------------------------- one node more

  lemma NothingBelow(m: Memory, nodes: map<Bits, Node>, q: Bits)
    requires Parents(m, nodes) && q !in nodes
    ensures Leaf(nodes, q)
  {
    UpDown(q, false);
    UpDown(q, true);
  }

  ghost predicate New(nodes: map<Bits, Node>, n: Node) {
    forall q :: q in nodes ==> nodes[q] != n
  }

  ghost function Added(m: Memory, at: Node, b: bool, n: Node): Memory
    requires at in m
  {
    m[n := Cell(null, null, at, None)][at := WithKid(m[at], b, n)]
  }

  lemma AddKids(m: Memory, nodes: map<Bits, Node>, p: Bits, b: bool, n: Node)
    requires Kids(m, nodes) && Distinct(nodes) && p in nodes && nodes[p] in m && New(nodes, n)
    requires Down(p, b) !in nodes && Leaf(nodes, Down(p, b))
    ensures Kids(Added(m, nodes[p], b, n), nodes[Down(p, b) := n])
  {
    var q := Down(p, b);
    var m', nodes' := Added(m, nodes[p], b, n), nodes[q := n];
    UpDown(p, b);
    UpDown(q, b);
    forall r, c | r in nodes' ensures KidFits(m', nodes', r, c) {
      LastBit(r, c, p, b);
      if r == q {
        assert Down(q, c) == Down(q, if c then true else false);
        assert Down(q, c) !in nodes;
      } else if r == p {
        assert KidFits(m, nodes, p, c);
      } else {
        assert nodes[r] != nodes[p];
        assert KidFits(m, nodes, r, c);
      }
    }
  }

  lemma LastBit(r: Bits, c: bool, p: Bits, b: bool)
    ensures Down(r, c) == Down(p, b) <==> r == p && c == b
  {
    UpDown(r, c);
    UpDown(p, b);
    assert Down(r, c)[|r|] == c && Down(p, b)[|p|] == b;
  }

  lemma AddParents(m: Memory, nodes: map<Bits, Node>, p: Bits, b: bool, n: Node)
    requires Parents(m, nodes) && p in nodes && nodes[p] in m && New(nodes, n) && Down(p, b) !in nodes
    ensures Parents(Added(m, nodes[p], b, n), nodes[Down(p, b) := n])
  {
    UpDown(p, b);
    var nodes' := nodes[Down(p, b) := n];
    forall r | r in nodes' && r != []
      ensures nodes'[r] in Added(m, nodes[p], b, n) && Up(r) in nodes'
              && Added(m, nodes[p], b, n)[nodes'[r]].parent == nodes'[Up(r)]
    {
      if r != Down(p, b) {
        assert r in nodes && Up(r) in nodes;
      }
    }
  }

  lemma AddContents(m: Memory, nodes: map<Bits, Node>, p: Bits, b: bool, n: Node)
    requires InMemory(m, nodes) && p in nodes && New(nodes, n) && Down(p, b) !in nodes && |p| < 32
    ensures InMemory(Added(m, nodes[p], b, n), nodes[Down(p, b) := n])
    ensures Contents(Added(m, nodes[p], b, n), nodes[Down(p, b) := n]) == Contents(m, nodes)
  {
  }

  /** A new node below p on side b, without value. */
  lemma AddLeaf(m: Memory, nodes: map<Bits, Node>, p: Bits, b: bool, n: Node)
    requires Shape(m, nodes) && p in nodes && Down(p, b) !in nodes && |p| < 32 && New(nodes, n)
    ensures Shape(Added(m, nodes[p], b, n), nodes[Down(p, b) := n])
    ensures Contents(Added(m, nodes[p], b, n), nodes[Down(p, b) := n]) == Contents(m, nodes)
    ensures Leaf(nodes[Down(p, b) := n], Down(p, b))
  {
    hide Contents, Leaf;
    NothingBelow(m, nodes, Down(p, b));
    AddContents(m, nodes, p, b, n);
    AddParents(m, nodes, p, b, n);
    AddKids(m, nodes, p, b, n);
    StillLeaf(nodes, Down(p, b), n);
  }

  lemma StillLeaf(nodes: map<Bits, Node>, q: Bits, n: Node)
    requires Leaf(nodes, q)
    ensures Leaf(nodes[q := n], q)
  {
  }

  // ---------------------------------------------------------------- one node less

  /** A leaf is taken off its parent; its own fields may then hold anything. */
  ghost function Removed(m: Memory, at: Node, b: bool, n: Node, c: Cell): Memory
    requires at in m
  {
    m[at := WithKid(m[at], b, null)][n := c]
  }

  lemma RemoveKids(m: Memory, nodes: map<Bits, Node>, p: Bits, b: bool, c: Cell)
    requires Kids(m, nodes) && Distinct(nodes) && p in nodes && nodes[p] in m
    requires Down(p, b) in nodes
    ensures Kids(Removed(m, nodes[p], b, nodes[Down(p, b)], c), nodes - {Down(p, b)})
  {
    var q := Down(p, b);
    var m', nodes' := Removed(m, nodes[p], b, nodes[q], c), nodes - {q};
    UpDown(p, b);
    forall r, d | r in nodes' ensures KidFits(m', nodes', r, d) {
      LastBit(r, d, p, b);
      assert KidFits(m, nodes, r, d);
      assert nodes[r] == nodes[p] ==> r == p;
      assert nodes[r] != nodes[q];
    }
  }

  lemma RemoveParents(m: Memory, nodes: map<Bits, Node>, p: Bits, b: bool, c: Cell)
    requires Parents(m, nodes) && Distinct(nodes) && p in nodes && nodes[p] in m
    requires Down(p, b) in nodes && Leaf(nodes, Down(p, b))
    ensures Parents(Removed(m, nodes[p], b, nodes[Down(p, b)], c), nodes - {Down(p, b)})
  {
    var q := Down(p, b);
    UpDown(p, b);
    forall r | r in nodes - {q} && r != [] ensures Up(r) in nodes - {q} {
      DownUp(r);
    }
  }

  lemma RemoveContents(m: Memory, nodes: map<Bits, Node>, p: Bits, b: bool, c: Cell)
    requires InMemory(m, nodes) && Distinct(nodes) && p in nodes && Down(p, b) in nodes
    ensures InMemory(Removed(m, nodes[p], b, nodes[Down(p, b)], c), nodes - {Down(p, b)})
    ensures Contents(Removed(m, nodes[p], b, nodes[Down(p, b)], c), nodes - {Down(p, b)})
            == Contents(m, nodes) - {Down(p, b)}
  {
    hide Sound;
  }

  lemma RemoveLeaf(m: Memory, nodes: map<Bits, Node>, p: Bits, b: bool, c: Cell)
    requires Shape(m, nodes) && p in nodes && Down(p, b) in nodes && Leaf(nodes, Down(p, b))
    ensures var m' := Removed(m, nodes[p], b, nodes[Down(p, b)], c);
            Shape(m', nodes - {Down(p, b)})
            && Contents(m', nodes - {Down(p, b)}) == Contents(m, nodes) - {Down(p, b)}
  {
    hide Contents, Leaf;
    UpDown(p, b);
    RemoveKids(m, nodes, p, b, c);
    RemoveParents(m, nodes, p, b, c);
    RemoveContents(m, nodes, p, b, c);
    RootNotBelow(m, nodes, p, b);
  }

  lemma RootNotBelow(m: Memory, nodes: map<Bits, Node>, p: Bits, b: bool)
    requires Rooted(m, nodes) && Distinct(nodes) && Down(p, b) in nodes
    ensures nodes[Down(p, b)] != nodes[[]]
  {
    assert |Down(p, b)| > 0;
  }

  // ---------------------------------------------------------------- a value set or cleared

  ghost function Valued(m: Memory, n: Node, v: Option): Memory
    requires n in m
  {
    m[n := m[n].(value := v)]
  }

  lemma ValueShape(m: Memory, nodes: map<Bits, Node>, p: Bits, v: Option)
    requires Shape(m, nodes) && p in nodes
    ensures Shape(Valued(m, nodes[p], v), nodes)
  {
    var m' := Valued(m, nodes[p], v);
    forall r, d | r in nodes ensures KidFits(m', nodes, r, d) {
      assert KidFits(m, nodes, r, d);
    }
  }

  lemma ValueContents(m: Memory, nodes: map<Bits, Node>, p: Bits, v: Option)
    requires InMemory(m, nodes) && Distinct(nodes) && p in nodes
    ensures InMemory(Valued(m, nodes[p], v), nodes)
    ensures Contents(Valued(m, nodes[p], v), nodes)
            == if v.Some? then Contents(m, nodes)[p := v.v] else Contents(m, nodes) - {p}
  {
  }

  // ---------------------------------------------------------------- the free list

  /** The free list, linked through `right`. */
  ghost predicate SpareList(m: Memory, from: Node?, s: seq<Node>) {
    if s == [] then from == null
    else from == s[0] && s[0] in m && SpareList(m, m[s[0]].right, s[1..])
  }

  lemma {:induction false} SpareFrame(m: Memory, m': Memory, from: Node?, s: seq<Node>)
    requires SpareList(m, from, s)
    requires forall n :: n in s ==> n in m && n in m' && m'[n].right == m[n].right
    ensures SpareList(m', from, s)
  {
    if s != [] {
      assert s[0] in s;
      SpareFrame(m, m', m[s[0]].right, s[1..]);
    }
  }

  ghost predicate InTree(nodes: map<Bits, Node>, n: Node) { exists p :: p in nodes && nodes[p] == n }

  /** Of all nodes, each is in the tree, or in the free list, or held by an operation, and in
      one of them only. */
  ghost predicate Separate(nodes: map<Bits, Node>, spare: seq<Node>, all: set<Node>, held: set<Node>) {
    && held <= all
    && (forall p :: p in nodes ==> nodes[p] in all && nodes[p] !in spare && nodes[p] !in held)
    && (forall i, j :: 0 <= i < j < |spare| ==> spare[i] != spare[j])
    && (forall n :: n in spare ==> n in all && n !in held)
    && (forall n :: n in all && n !in held && n !in spare ==> InTree(nodes, n))
  }

  ghost predicate Sound(m: Memory, nodes: map<Bits, Node>, root: Node, free: Node?, spare: seq<Node>, all: set<Node>, held: set<Node>) {
    && m.Keys == all && Shape(m, nodes) && nodes[[]] == root
    && SpareList(m, free, spare) && Separate(nodes, spare, all, held)
  }

  lemma SoundShape(m: Memory, nodes: map<Bits, Node>, root: Node, free: Node?, spare: seq<Node>, all: set<Node>, held: set<Node>)
    requires Sound(m, nodes, root, free, spare, all, held)
    ensures InMemory(m, nodes)
  {
  }

  /** The first node of the free list is taken. */
  lemma SpareSound(m: Memory, nodes: map<Bits, Node>, root: Node, free: Node, spare: seq<Node>, all: set<Node>)
    requires Sound(m, nodes, root, free, spare, all, {})
    ensures spare != [] && free == spare[0] && free in all
    ensures Sound(m, nodes, root, m[free].right, spare[1..], all, {free})
  {
    assert spare == [spare[0]] + spare[1..];
  }

  /** A node is new. */
  lemma NewSound(m: Memory, nodes: map<Bits, Node>, root: Node, free: Node?, spare: seq<Node>, all: set<Node>, n: Node, c: Cell)
    requires Sound(m, nodes, root, free, spare, all, {}) && n !in all
    ensures Sound(m[n := c], nodes, root, free, spare, all + {n}, {n}) && SameCells(m, m[n := c], nodes)
    ensures Contents(m[n := c], nodes) == Contents(m, nodes)
  {
    ShapeFrame(m, m[n := c], nodes);
    SpareFrame(m, m[n := c], free, spare);
  }

  /** The held node is hung below p. */
  lemma HangSound(m: Memory, nodes: map<Bits, Node>, root: Node, free: Node?, spare: seq<Node>, all: set<Node>, n: Node, p: Bits, b: bool)
    requires Sound(m, nodes, root, free, spare, all, {n}) && p in nodes && Down(p, b) !in nodes && |p| < 32
    ensures Sound(Added(m, nodes[p], b, n), nodes[Down(p, b) := n], root, free, spare, all, {})
    ensures Contents(Added(m, nodes[p], b, n), nodes[Down(p, b) := n]) == Contents(m, nodes)
    ensures Leaf(nodes[Down(p, b) := n], Down(p, b))
  {
    hide Contents, Leaf, Shape;
    HangSeparate(nodes, spare, all, n, Down(p, b));
    SpareFrame(m, Added(m, nodes[p], b, n), free, spare);
    AddLeaf(m, nodes, p, b, n);
    RootStays(m, nodes, p, b);
  }

  lemma RootStays(m: Memory, nodes: map<Bits, Node>, p: Bits, b: bool)
    requires Shape(m, nodes)
    ensures Down(p, b) != [] && [] in nodes
  {
    assert |Down(p, b)| > 0;
  }

  lemma HangSeparate(nodes: map<Bits, Node>, spare: seq<Node>, all: set<Node>, n: Node, q: Bits)
    requires Separate(nodes, spare, all, {n}) && q !in nodes
    ensures Separate(nodes[q := n], spare, all, {})
  {
    var nodes' := nodes[q := n];
    forall x | x in all && x !in spare ensures InTree(nodes', x) {
      if x == n {
        assert nodes'[q] == x;
      } else {
        assert InTree(nodes, x);
        var p :| p in nodes && nodes[p] == x;
        assert nodes'[p] == x;
      }
    }
  }

  /** A leaf goes from the tree to the head of the free list. */
  ghost function Unlinked(m: Memory, at: Node, b: bool, n: Node, free: Node?): Memory
    requires at in m && n in m
  {
    Removed(m, at, b, n, m[n].(right := free))
  }

  lemma UnlinkSound(m: Memory, nodes: map<Bits, Node>, root: Node, free: Node?, spare: seq<Node>, all: set<Node>, p: Bits, b: bool)
    requires Sound(m, nodes, root, free, spare, all, {}) && p in nodes && Down(p, b) in nodes && Leaf(nodes, Down(p, b))
    ensures var q := Down(p, b);
            var m' := Unlinked(m, nodes[p], b, nodes[q], free);
            Sound(m', nodes - {q}, root, nodes[q], [nodes[q]] + spare, all, {})
            && Contents(m', nodes - {q}) == Contents(m, nodes) - {q}
  {
    hide Contents, Leaf, Shape;
    var q := Down(p, b);
    var n := nodes[q];
    var m' := Unlinked(m, nodes[p], b, n, free);
    RemoveLeaf(m, nodes, p, b, m[n].(right := free));
    UnlinkSeparate(m, nodes, spare, all, q);
    SpareFrame(m, m', free, spare);
    RootStays(m, nodes, p, b);
  }

  lemma UnlinkSeparate(m: Memory, nodes: map<Bits, Node>, spare: seq<Node>, all: set<Node>, q: Bits)
    requires Separate(nodes, spare, all, {}) && Shape(m, nodes) && q in nodes
    ensures Separate(nodes - {q}, [nodes[q]] + spare, all, {})
  {
    var nodes' := nodes - {q};
    forall x | x in all && x !in [nodes[q]] + spare ensures InTree(nodes', x) {
      assert x !in spare;
      assert InTree(nodes, x);
      var p :| p in nodes && nodes[p] == x;
      assert p != q;
      assert nodes'[p] == x;
    }
  }

  lemma ValueSound(m: Memory, nodes: map<Bits, Node>, root: Node, free: Node?, spare: seq<Node>, all: set<Node>, p: Bits, v: Option)
    requires Sound(m, nodes, root, free, spare, all, {}) && p in nodes
    ensures Sound(Valued(m, nodes[p], v), nodes, root, free, spare, all, {})
    ensures Contents(Valued(m, nodes[p], v), nodes)
            == if v.Some? then Contents(m, nodes)[p := v.v] else Contents(m, nodes) - {p}
  {
    hide Contents;
    ValueShape(m, nodes, p, v);
    ValueContents(m, nodes, p, v);
    SpareFrame(m, Valued(m, nodes[p], v), free, spare);
  }

  ghost predicate SameCells(m: Memory, m': Memory, nodes: map<Bits, Node>) {
    forall p :: p in nodes ==> nodes[p] in m && nodes[p] in m' && m'[nodes[p]] == m[nodes[p]]
  }

  lemma SoundCells(m: Memory, nodes: map<Bits, Node>, root: Node, free: Node?, spare: seq<Node>, all: set<Node>)
    requires Sound(m, nodes, root, free, spare, all, {})
    ensures SameCells(m, m, nodes)
  {
  }

  lemma RootThere(m: Memory, nodes: map<Bits, Node>, root: Node, free: Node?, spare: seq<Node>, all: set<Node>)
    requires Sound(m, nodes, root, free, spare, all, {})
    ensures [] in nodes && nodes[[]] == root && root in all
  {
  }

  /** Where a pointer leads. */
  lemma KidOf(m: Memory, nodes: map<Bits, Node>, root: Node, free: Node?, spare: seq<Node>, all: set<Node>, p: Bits, b: bool)
    requires Sound(m, nodes, root, free, spare, all, {}) && p in nodes
    ensures nodes[p] in m && nodes[p] in all && Kid(m[nodes[p]], b) == NodeAt(nodes, Down(p, b))
    ensures Down(p, b) in nodes ==> nodes[Down(p, b)] in all
  {
    assert KidFits(m, nodes, p, b);
  }

  /** What a node that is held is known to be. */
  lemma SoundAdd(m: Memory, nodes: map<Bits, Node>, root: Node, free: Node?, spare: seq<Node>, all: set<Node>, n: Node, p: Bits)
    requires Sound(m, nodes, root, free, spare, all, {n}) && p in nodes
    ensures Shape(m, nodes) && New(nodes, n) && n in all && nodes[p] in all && nodes[p] != n
  {
  }

  // ---------------------------------------------------------------- pruning

  lemma PrunedFrame(m: Memory, m': Memory, nodes: map<Bits, Node>, q: Bits)
    requires InMemory(m, nodes) && PrunedBut(m, nodes, q) && SameCells(m, m', nodes)
    ensures InMemory(m', nodes) && PrunedBut(m', nodes, q)
  {
  }

  /** Every leaf but the root and q carries a value. */
  ghost predicate PrunedBut(m: Memory, nodes: map<Bits, Node>, q: Bits)
    requires InMemory(m, nodes)
  {
    forall p :: p in nodes && p != [] && p != q && Leaf(nodes, p) ==> m[nodes[p]].value.Some?
  }

  lemma ValueCell(m: Memory, nodes: map<Bits, Node>, root: Node, free: Node?, spare: seq<Node>, all: set<Node>, p: Bits)
    requires Sound(m, nodes, root, free, spare, all, {}) && p in nodes
    ensures nodes[p] in all && nodes[p] in m && InMemory(m, nodes) && m.Keys == all
  {
  }

  lemma ValuePruned(m: Memory, nodes: map<Bits, Node>, p: Bits, v: Option)
    requires InMemory(m, nodes) && p in nodes && v.Some? && PrunedBut(m, nodes, p)
    ensures InMemory(Valued(m, nodes[p], v), nodes) && Pruned(Valued(m, nodes[p], v), nodes)
  {
  }

  lemma InContents(m: Memory, nodes: map<Bits, Node>, p: Bits)
    requires InMemory(m, nodes)
    ensures p in Contents(m, nodes) <==> p in nodes && m[nodes[p]].value.Some?
  {
  }

  lemma PrunedImplies(m: Memory, nodes: map<Bits, Node>, q: Bits)
    requires InMemory(m, nodes)
    ensures Pruned(m, nodes) ==> PrunedBut(m, nodes, q)
  {
  }

  lemma SamePruned(m: Memory, m': Memory, nodes: map<Bits, Node>)
    requires InMemory(m, nodes) && InMemory(m', nodes) && Contents(m, nodes) == Contents(m', nodes)
    ensures Pruned(m, nodes) <==> Pruned(m', nodes)
  {
    forall p | p in nodes ensures m[nodes[p]].value.Some? <==> m'[nodes[p]].value.Some? {
      InContents(m, nodes, p);
      InContents(m', nodes, p);
    }
  }

  lemma Unpruned(m: Memory, nodes: map<Bits, Node>, p: Bits)
    requires InMemory(m, nodes) && p in nodes && p != [] && Leaf(nodes, p) && p !in Contents(m, nodes)
    ensures !Pruned(m, nodes)
  {
  }

  /** Beyond a node that is not there, no node is. */
  lemma Beyond(m: Memory, nodes: map<Bits, Node>, root: Node, free: Node?, spare: seq<Node>, all: set<Node>, key: Word, d: nat)
    requires Sound(m, nodes, root, free, spare, all, {}) && d < 32 && Down(key[..d], key[d]) !in nodes
    ensures forall e :: d < e <= 32 ==> key[..e] !in nodes
  {
    assert key[..d + 1] == Down(key[..d], key[d]);
    forall e | d < e <= 32 ensures key[..e] !in nodes {
      assert key[..e][..d + 1] == key[..d + 1];
      if key[..e] in nodes {
        PrefixClosed(m, nodes, key[..e], d + 1);
      }
    }
  }

  /** A leaf of a pruned tree is stored, unless it is the root. */
  lemma LeafStored(m: Memory, nodes: map<Bits, Node>, p: Bits)
    requires InMemory(m, nodes) && p in nodes && p != [] && Leaf(nodes, p)
    ensures Pruned(m, nodes) ==> p in Contents(m, nodes)
  {
  }

  /** A node with nodes below it may lose its value. */
  lemma InnerPruned(m: Memory, m': Memory, nodes: map<Bits, Node>, p: Bits)
    requires InMemory(m, nodes) && InMemory(m', nodes) && p in nodes && !Leaf(nodes, p)
    requires Contents(m', nodes) == Contents(m, nodes) - {p}
    ensures Pruned(m, nodes) ==> Pruned(m', nodes)
  {
    if Pruned(m, nodes) {
      forall q | q in nodes && q != [] && Leaf(nodes, q) ensures m'[nodes[q]].value.Some? {
        InContents(m, nodes, q);
        InContents(m', nodes, q);
      }
    }
  }

  lemma PrunedAt(m: Memory, nodes: map<Bits, Node>, q: Bits)
    requires InMemory(m, nodes) && q in nodes && (!Leaf(nodes, q) || q in Contents(m, nodes) || q == [])
    ensures PrunedBut(m, nodes, q) ==> Pruned(m, nodes)
  {
  }

  lemma ParentThere(m: Memory, nodes: map<Bits, Node>, root: Node, free: Node?, spare: seq<Node>, all: set<Node>, p: Bits, b: bool)
    requires Sound(m, nodes, root, free, spare, all, {}) && Down(p, b) in nodes
    ensures p in nodes
  {
    UpDown(p, b);
  }

  /** Where the nodes of an unlinking stand. */
  lemma UnlinkPlaces(m: Memory, nodes: map<Bits, Node>, root: Node, free: Node?, spare: seq<Node>, all: set<Node>, p: Bits, b: bool)
    requires Sound(m, nodes, root, free, spare, all, {}) && p in nodes && Down(p, b) in nodes
    ensures var n, at := nodes[Down(p, b)], nodes[p];
            n in m && at in m && n != at && m[n].parent == at && at in all
            && (m[at].right == n <==> b) && InMemory(m, nodes) && m.Keys == all
  {
    UpDown(p, b);
    LastBit(p, true, p, b);
    assert KidFits(m, nodes, p, true);
    assert Down(p, b) != p;
  }

  lemma UnlinkPruned(m: Memory, nodes: map<Bits, Node>, root: Node, free: Node?, spare: seq<Node>, all: set<Node>, p: Bits, b: bool)
    requires Sound(m, nodes, root, free, spare, all, {}) && p in nodes && Down(p, b) in nodes
    ensures var q := Down(p, b);
            InMemory(m, nodes) && InMemory(Unlinked(m, nodes[p], b, nodes[q], free), nodes - {q})
            && (PrunedBut(m, nodes, q) ==> PrunedBut(Unlinked(m, nodes[p], b, nodes[q], free), nodes - {q}, p))
  {
    if PrunedBut(m, nodes, Down(p, b)) {
      RemovePruned(m, nodes, p, b, m[nodes[Down(p, b)]].(right := free));
    } else {
      RemoveContents(m, nodes, p, b, m[nodes[Down(p, b)]].(right := free));
    }
  }

  lemma AddPruned(m: Memory, nodes: map<Bits, Node>, p: Bits, b: bool, n: Node)
    requires Shape(m, nodes) && p in nodes && Down(p, b) !in nodes && |p| < 32 && New(nodes, n)
    requires PrunedBut(m, nodes, p)
    ensures InMemory(Added(m, nodes[p], b, n), nodes[Down(p, b) := n])
    ensures PrunedBut(Added(m, nodes[p], b, n), nodes[Down(p, b) := n], Down(p, b))
  {
    var nodes' := nodes[Down(p, b) := n];
    assert !Leaf(nodes', p) by {
      assert Down(p, b) in nodes';
    }
    forall r | r in nodes && Leaf(nodes', r) ensures Leaf(nodes, r) {
    }
  }

  lemma RemovePruned(m: Memory, nodes: map<Bits, Node>, p: Bits, b: bool, c: Cell)
    requires Shape(m, nodes) && p in nodes && Down(p, b) in nodes && PrunedBut(m, nodes, Down(p, b))
    ensures InMemory(Removed(m, nodes[p], b, nodes[Down(p, b)], c), nodes - {Down(p, b)})
    ensures PrunedBut(Removed(m, nodes[p], b, nodes[Down(p, b)], c), nodes - {Down(p, b)}, p)
  {
    var q := Down(p, b);
    forall r | r in nodes - {q} && r != p && Leaf(nodes - {q}, r) ensures Leaf(nodes, r) {
      LastBit(r, false, p, b);
      LastBit(r, true, p, b);
    }
  }

  // ---------------------------------------------------------------- longest prefix

  /** `v` is the value of the longest stored prefix of `key`, or none if none is stored. */
  ghost predicate LongestPrefix(contents: map<Bits, nat>, key: Bits, v: Option) {
    match v
    case None => forall p :: p in contents ==> !(p <= key)
    case Some(x) =>
      exists p :: p in contents && p <= key && contents[p] == x && NoLonger(contents, key, p)
  }

  ghost predicate NoLonger(contents: map<Bits, nat>, key: Bits, p: Bits) {
    forall q :: q in contents && q <= key ==> |q| <= |p|
  }

  /** The value at the longest stored prefix shorter than d. */
  ghost function Best(contents: map<Bits, nat>, key: Bits, d: nat): Option
    requires d <= |key| + 1
  {
    if d == 0 then None
    else if key[..d - 1] in contents then Some(contents[key[..d - 1]])
    else Best(contents, key, d - 1)
  }

  lemma {:induction false} BestIsLongest(contents: map<Bits, nat>, key: Bits, d: nat)
    requires d <= |key| + 1
    requires forall q :: q in contents && q <= key ==> |q| < d
    ensures LongestPrefix(contents, key, Best(contents, key, d))
  {
    if d > 0 {
      var p := key[..d - 1];
      if p in contents {
        assert p <= key && NoLonger(contents, key, p);
      } else {
        forall q | q in contents && q <= key ensures |q| < d - 1 {
          assert q == key[..|q|];
        }
        BestIsLongest(contents, key, d - 1);
      }
    }
  }

  lemma {:induction false} PrefixClosed(m: Memory, nodes: map<Bits, Node>, q: Bits, d: nat)
    requires Parents(m, nodes) && q in nodes && d <= |q|
    ensures q[..d] in nodes
    decreases |q|
  {
    if d == |q| {
      assert q[..d] == q;
    } else {
      PrefixClosed(m, nodes, Up(q), d);
      assert Up(q)[..d] == q[..d];
    }
  }

  /** Where the way down along a key ends, no prefix of the key goes on. */
  lemma NoneBeyond(m: Memory, nodes: map<Bits, Node>, key: Bits, d: nat)
    requires Parents(m, nodes) && InMemory(m, nodes) && |key| == 32 && d <= 33
    requires d == 33 || key[..d] !in nodes
    ensures forall q :: q in Contents(m, nodes) && q <= key ==> |q| < d
  {
    forall q | q in Contents(m, nodes) && q <= key ensures |q| < d {
      assert d <= |q| ==> q[..d] == key[..d];
      if d <= |q| {
        PrefixClosed(m, nodes, q, d);
      }
    }
  }

  lemma {:induction false} NothingYet(contents: map<Bits, nat>, key: Bits)
    ensures Best(contents, key, 0) == None
  {
  }

  /** The node met after d bits has the value of that prefix, if it is stored. */
  lemma ValueMet(m: Memory, nodes: map<Bits, Node>, key: Bits, d: nat)
    requires InMemory(m, nodes) && d <= |key| && key[..d] in nodes
    ensures Best(Contents(m, nodes), key, d + 1)
         == if m[nodes[key[..d]]].value.Some? then m[nodes[key[..d]]].value else Best(Contents(m, nodes), key, d)
  {
  }

  lemma ParentsOf(m: Memory, nodes: map<Bits, Node>, root: Node, free: Node?, spare: seq<Node>, all: set<Node>)
    requires Sound(m, nodes, root, free, spare, all, {})
    ensures Parents(m, nodes) && InMemory(m, nodes)
  {
  }

  /** How many leading bits of a mask are set. */
  function Lead(mask: Bits): (n: nat)
    ensures n <= |mask| && (forall k :: 0 <= k < n ==> mask[k]) && (n < |mask| ==> !mask[n])
  {
    if mask == [] || !mask[0] then 0 else 1 + Lead(mask[1..])
  }

  /** The prefix that a key and a mask stand for. */
  function Prefix(key: Word, mask: Word): Bits { key[..Lead(mask)] }

  // ---------------------------------------------------------------- what an insertion needs

  /** How many nodes the tree lacks for a prefix. */
  ghost function Missing(nodes: map<Bits, Node>, p: Bits): nat
    decreases |p|
  {
    if p == [] || p in nodes then 0 else 1 + Missing(nodes, Up(p))
  }

  lemma {:induction false} MissingAfter(nodes: map<Bits, Node>, key: Bits, d: nat, n: nat)
    requires d <= n <= |key| && key[..d] in nodes
    requires forall k :: d < k <= n ==> key[..k] !in nodes
    ensures Missing(nodes, key[..n]) == n - d
    decreases n
  {
    if d < n {
      assert Up(key[..n]) == key[..n - 1];
      MissingAfter(nodes, key, d, n - 1);
    }
  }

  lemma {:induction false} MissingAll(nodes: map<Bits, Node>, p: Bits)
    requires nodes.Keys == {[]}
    ensures Missing(nodes, p) == |p|
    decreases |p|
  {
    if p != [] {
      MissingAll(nodes, Up(p));
    }
  }

  /** The tree goes down a prefix as far as d bits, and lacks all the rest. */
  lemma {:induction false} MissingFrom(m: Memory, nodes: map<Bits, Node>, root: Node, free: Node?, spare: seq<Node>, all: set<Node>, key: Word, d: nat, n: nat)
    requires Sound(m, nodes, root, free, spare, all, {}) && d <= n <= 32 && key[..d] in nodes
    requires d < n ==> Down(key[..d], key[d]) !in nodes
    ensures Missing(nodes, key[..n]) == n - d
  {
    if d < n {
      Beyond(m, nodes, root, free, spare, all, key, d);
    }
    MissingAfter(nodes, key, d, n);
  }

  lemma SpareThere(m: Memory, nodes: map<Bits, Node>, root: Node, free: Node?, spare: seq<Node>, all: set<Node>)
    requires Sound(m, nodes, root, free, spare, all, {})
    ensures free == null <==> spare == []
  {
  }
}
