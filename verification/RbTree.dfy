/** The red-black tree of ngx_rbtree.c and ngx_rbtree.h: nodes on the heap, parent pointers,
    one shared black sentinel whose parent field is scratch space, and a root whose own
    parent field is not maintained. */
module RedBlackTree {
  import opened RbMemory
  import opened RbOrder
  import opened RbRules
  import opened RbShape

  function LabelOf(n: Node): Label
    reads n`key
  {
    Label(n.key, n.name)
  }

  ghost function Labels(s: seq<Node>): (r: seq<Label>)
    reads s`key
    ensures |r| == |s| && forall i :: 0 <= i < |s| ==> r[i] == LabelOf(s[i])
  {
    if s == [] then [] else [LabelOf(s[0])] + Labels(s[1..])
  }

  class RbTree {
    var root: Node
    var sentinel: Node
    var insert: Order
    ghost var nodes: set<Node>
    ghost var shape: Tree

    ghost function Memory(): Memory
      reads this`nodes, nodes`left, nodes`right, nodes`parent, nodes`red
    {
      map n | n in nodes :: Cell(n.left, n.right, n.parent, n.red)
    }

    ghost predicate Rep(p: Path, t: Tree)
      reads this`nodes, this`root, this`sentinel, nodes`left, nodes`right, nodes`parent, nodes`red
    {
      nodes == PathNodes(p) + Nodes(t) && MemRep(Memory(), p, t, root, sentinel)
    }

    ghost predicate Valid()
      reads this, sentinel, nodes
    {
      Rep(Top, shape) && RedBlack(shape) && !sentinel.red
    }

    /** The nodes of the tree in symmetric order. */
    ghost function Contents(): seq<Node>
      reads this
    {
      Elems(shape)
    }

    /** ngx_rbtree_init */
    constructor (s: Node, order: Order)
      modifies s`red
      ensures Valid() && Contents() == []
      ensures sentinel == s && insert == order
    {
      root, sentinel, insert := s, s, order;
      shape, nodes := Leaf, {};
      new;
      s.red := false;
    }

    // -------------------------------------------------------------- one store at a time

    method LeftRotate(node: Node)
      requires RotatesLeft(Memory(), node, root, sentinel)
      modifies this`root, nodes`left, nodes`right, nodes`parent
      ensures RotatesLeft(old(Memory()), node, old(root), sentinel)
      ensures LeftRotation(old(Memory()), Memory(), node, old(root), root, sentinel)
    {
      assert node in nodes && node.right in nodes;
      var temp := node.right;
      node.right := temp.left;
      if temp.left != sentinel {
        temp.left.parent := node;
      }
      temp.parent := node.parent;
      if node == root {
        root := temp;
      } else if node == node.parent.left {
        node.parent.left := temp;
      } else {
        node.parent.right := temp;
      }
      temp.left := node;
      node.parent := temp;
    }

    method RotateLeftAt(node: Node, ghost p: Path, ghost t: Tree)
      requires Rep(p, t) && t.Branch? && t.n == node && t.r.Branch?
      modifies this`root, nodes`left, nodes`right, nodes`parent
      ensures Rep(p, RotatedLeft(t))
    {
      ghost var m, root0 := Memory(), root;
      LeftRotatable(m, p, t, root, sentinel);
      LeftRotate(node);
      RotateLeftRep(m, Memory(), p, t, root0, root, sentinel);
      RotatedLeftApart(p, t, sentinel);
    }

    method RightRotate(node: Node)
      requires RotatesRight(Memory(), node, root, sentinel)
      modifies this`root, nodes`left, nodes`right, nodes`parent
      ensures RotatesRight(old(Memory()), node, old(root), sentinel)
      ensures RightRotation(old(Memory()), Memory(), node, old(root), root, sentinel)
    {
      assert node in nodes && node.left in nodes;
      var temp := node.left;
      node.left := temp.right;
      if temp.right != sentinel {
        temp.right.parent := node;
      }
      temp.parent := node.parent;
      if node == root {
        root := temp;
      } else if node == node.parent.right {
        node.parent.right := temp;
      } else {
        node.parent.left := temp;
      }
      temp.right := node;
      node.parent := temp;
    }

    method RotateRightAt(node: Node, ghost p: Path, ghost t: Tree)
      requires Rep(p, t) && t.Branch? && t.n == node && t.l.Branch?
      modifies this`root, nodes`left, nodes`right, nodes`parent
      ensures Rep(p, RotatedRight(t))
    {
      ghost var m, root0 := Memory(), root;
      RightRotatable(m, p, t, root, sentinel);
      RightRotate(node);
      RotateRightRep(m, Memory(), p, t, root0, root, sentinel);
      RotatedRightApart(p, t, sentinel);
    }

    /** ngx_rbt_red and ngx_rbt_black */
    method Paint(n: Node, red: bool, ghost p: Path, ghost t: Tree)
      requires Rep(p, t) && t.Branch? && t.n == n
      modifies n`red
      ensures Rep(p, Painted(t, red))
    {
      ghost var m := Memory();
      n.red := red;
      PaintRep(m, Memory(), p, t, root, sentinel, red);
    }

    lemma Up(p: Path, t: Tree)
      requires Rep(p, t) && !p.Top?
      ensures Rep(p.up, Fill(p, t))
    {
      Ascend(Memory(), p, t, root, sentinel);
    }

    lemma DownLeft(p: Path, t: Tree)
      requires Rep(p, t) && t.Branch?
      ensures Rep(InLeft(p, t.n, t.red, t.r), t.l)
    {
      DescendLeft(Memory(), p, t, root, sentinel);
    }

    lemma DownRight(p: Path, t: Tree)
      requires Rep(p, t) && t.Branch?
      ensures Rep(InRight(p, t.l, t.n, t.red), t.r)
    {
      DescendRight(Memory(), p, t, root, sentinel);
    }

    // -------------------------------------------------------------- insert

    ghost predicate Inserting(p: Path, t: Tree)
      reads this`nodes, this`root, this`sentinel, sentinel`red
      reads nodes`left, nodes`right, nodes`parent, nodes`red
    {
      Rep(p, t) && !sentinel.red && RedFocus(p, t)
    }

    /** The parent is a left child and the uncle is red. */
    method RecolourUncleRight(node: Node, ghost p: Path, ghost t: Tree) returns (node': Node)
      requires Rep(p, t) && t.Branch? && node == t.n && !p.Top? && p.up.InLeft? && p.up.r.Branch?
      modifies nodes`red
      ensures Rep(p.up.up, Branch(Painted(Fill(p, t), false), p.up.n, true, Painted(p.up.r, false)))
      ensures node' == p.up.n
    {
      ghost var up, g, gc, u := p.up.up, p.up.n, p.up.red, p.up.r;
      ghost var t1, u1 := Painted(Fill(p, t), false), Painted(u, false);
      Up(p, t);
      var parent := node.parent;
      var temp := parent.parent.right;
      node' := parent.parent;
      Paint(parent, false, p.up, Fill(p, t));
      Up(p.up, t1);
      DownRight(up, Branch(t1, g, gc, u));
      Paint(temp, false, InRight(up, t1, g, gc), u);
      Up(InRight(up, t1, g, gc), u1);
      Paint(node', true, up, Branch(t1, g, gc, u1));
    }

    /** The parent is a left child, the uncle is black and `node` is an outer grandchild. */
    method LiftLeft(node: Node, ghost p: Path, ghost t: Tree)
      requires Rep(p, t) && t.Branch? && node == t.n && p.InLeft? && p.up.InLeft?
      modifies this`root, nodes`left, nodes`right, nodes`parent, nodes`red
      ensures Rep(InLeft(p.up.up, p.n, false, Branch(p.r, p.up.n, true, p.up.r)), t)
    {
      ghost var up, g, gc, u := p.up.up, p.up.n, p.up.red, p.up.r;
      ghost var t1 := Painted(Fill(p, t), false);
      Up(p, t);
      Paint(node.parent, false, p.up, Fill(p, t));
      Up(p.up, t1);
      Paint(node.parent.parent, true, up, Branch(t1, g, gc, u));
      RotateRightAt(node.parent.parent, up, Branch(t1, g, true, u));
      DownLeft(up, Branch(t, p.n, false, Branch(p.r, g, true, u)));
    }

    /** The parent is a left child: a right child of it is rotated into its place. */
    method TurnOutLeft(node: Node, ghost p: Path, ghost t: Tree) returns (node': Node, ghost p': Path, ghost t': Tree)
      requires Inserting(p, t) && node == t.n && HolderRed(p) && p.up.InLeft?
      modifies this`root, nodes`left, nodes`right, nodes`parent
      ensures Inserting(p', t') && node' == t'.n && p'.InLeft? && p'.red && p'.up == p.up
      ensures Elems(Plug(p', t')) == Elems(Plug(p, t))
    {
      node', p', t' := node, p, t;
      Up(p, t);
      if node == node.parent.right {
        node' := node.parent;
        RotateLeftAt(node', p.up, Fill(p, t));
        InnerLeft(p, t);
        p', t' := InLeft(p.up, t.n, true, t.r), Branch(p.l, p.n, true, t.l);
        DownLeft(p'.up, Fill(p', t'));
      }
    }

    /** The parent is a left child and the uncle is black: at most two rotations finish. */
    method BlackUncleLeft(node: Node, ghost p: Path, ghost t: Tree) returns (node': Node, ghost p': Path, ghost t': Tree)
      requires Inserting(p, t) && node == t.n && HolderRed(p) && p.up.InLeft? && !Red(p.up.r)
      modifies this`root, nodes`left, nodes`right, nodes`parent, nodes`red
      ensures Inserting(p', t') && node' == t'.n && !HolderRed(p')
      ensures Elems(Plug(p', t')) == Elems(Plug(p, t))
    {
      node', p', t' := TurnOutLeft(node, p, t);
      OuterLeft(p', t');
      LiftLeft(node', p', t');
      p' := InLeft(p.up.up, p'.n, false, Branch(p'.r, p.up.n, true, p.up.r));
    }

    /** One turn of the rebalancing loop when the parent is a left child. */
    method InsertFixLeft(node: Node, ghost p: Path, ghost t: Tree) returns (node': Node, ghost p': Path, ghost t': Tree)
      requires Inserting(p, t) && node == t.n && HolderRed(p) && p.up.InLeft?
      modifies this`root, nodes`left, nodes`right, nodes`parent, nodes`red
      ensures Inserting(p', t') && node' == t'.n
      ensures Elems(Plug(p', t')) == Elems(Plug(p, t))
      ensures HolderRed(p') ==> Depth(p') < Depth(p)
    {
      node', p', t' := node, p, t;
      Up(p, t);
      Up(p.up, Fill(p, t));
      if node.parent.parent.right.red {
        RecolourLeft(p, t);
        node' := RecolourUncleRight(node, p, t);
        p', t' := p.up.up, Branch(Painted(Fill(p, t), false), p.up.n, true, Painted(p.up.r, false));
      } else {
        node', p', t' := BlackUncleLeft(node, p, t);
      }
    }

    /** The parent is a right child and the uncle is red. */
    method RecolourUncleLeft(node: Node, ghost p: Path, ghost t: Tree) returns (node': Node)
      requires Rep(p, t) && t.Branch? && node == t.n && !p.Top? && p.up.InRight? && p.up.l.Branch?
      modifies nodes`red
      ensures Rep(p.up.up, Branch(Painted(p.up.l, false), p.up.n, true, Painted(Fill(p, t), false)))
      ensures node' == p.up.n
    {
      ghost var up, g, gc, u := p.up.up, p.up.n, p.up.red, p.up.l;
      ghost var t1, u1 := Painted(Fill(p, t), false), Painted(u, false);
      Up(p, t);
      var parent := node.parent;
      var temp := parent.parent.left;
      node' := parent.parent;
      Paint(parent, false, p.up, Fill(p, t));
      Up(p.up, t1);
      DownLeft(up, Branch(u, g, gc, t1));
      Paint(temp, false, InLeft(up, g, gc, t1), u);
      Up(InLeft(up, g, gc, t1), u1);
      Paint(node', true, up, Branch(u1, g, gc, t1));
    }

    /** The parent is a right child, the uncle is black and `node` is an outer grandchild. */
    method LiftRight(node: Node, ghost p: Path, ghost t: Tree)
      requires Rep(p, t) && t.Branch? && node == t.n && p.InRight? && p.up.InRight?
      modifies this`root, nodes`left, nodes`right, nodes`parent, nodes`red
      ensures Rep(InRight(p.up.up, Branch(p.up.l, p.up.n, true, p.l), p.n, false), t)
    {
      ghost var up, g, gc, u := p.up.up, p.up.n, p.up.red, p.up.l;
      ghost var t1 := Painted(Fill(p, t), false);
      Up(p, t);
      Paint(node.parent, false, p.up, Fill(p, t));
      Up(p.up, t1);
      Paint(node.parent.parent, true, up, Branch(u, g, gc, t1));
      RotateLeftAt(node.parent.parent, up, Branch(u, g, true, t1));
      DownRight(up, Branch(Branch(u, g, true, p.l), p.n, false, t));
    }

    /** The parent is a right child: a left child of it is rotated into its place. */
    method TurnOutRight(node: Node, ghost p: Path, ghost t: Tree) returns (node': Node, ghost p': Path, ghost t': Tree)
      requires Inserting(p, t) && node == t.n && HolderRed(p) && p.up.InRight?
      modifies this`root, nodes`left, nodes`right, nodes`parent
      ensures Inserting(p', t') && node' == t'.n && p'.InRight? && p'.red && p'.up == p.up
      ensures Elems(Plug(p', t')) == Elems(Plug(p, t))
    {
      node', p', t' := node, p, t;
      Up(p, t);
      if node == node.parent.left {
        node' := node.parent;
        RotateRightAt(node', p.up, Fill(p, t));
        InnerRight(p, t);
        p', t' := InRight(p.up, t.l, t.n, true), Branch(t.r, p.n, true, p.r);
        DownRight(p'.up, Fill(p', t'));
      }
    }

    /** The parent is a right child and the uncle is black: at most two rotations finish. */
    method BlackUncleRight(node: Node, ghost p: Path, ghost t: Tree) returns (node': Node, ghost p': Path, ghost t': Tree)
      requires Inserting(p, t) && node == t.n && HolderRed(p) && p.up.InRight? && !Red(p.up.l)
      modifies this`root, nodes`left, nodes`right, nodes`parent, nodes`red
      ensures Inserting(p', t') && node' == t'.n && !HolderRed(p')
      ensures Elems(Plug(p', t')) == Elems(Plug(p, t))
    {
      node', p', t' := TurnOutRight(node, p, t);
      OuterRight(p', t');
      LiftRight(node', p', t');
      p' := InRight(p.up.up, Branch(p.up.l, p.up.n, true, p'.l), p'.n, false);
    }

    /** One turn of the rebalancing loop when the parent is a right child. */
    method InsertFixRight(node: Node, ghost p: Path, ghost t: Tree) returns (node': Node, ghost p': Path, ghost t': Tree)
      requires Inserting(p, t) && node == t.n && HolderRed(p) && p.up.InRight?
      modifies this`root, nodes`left, nodes`right, nodes`parent, nodes`red
      ensures Inserting(p', t') && node' == t'.n
      ensures Elems(Plug(p', t')) == Elems(Plug(p, t))
      ensures HolderRed(p') ==> Depth(p') < Depth(p)
    {
      node', p', t' := node, p, t;
      Up(p, t);
      Up(p.up, Fill(p, t));
      if node.parent.parent.left.red {
        RecolourRight(p, t);
        node' := RecolourUncleLeft(node, p, t);
        p', t' := p.up.up, Branch(Painted(p.up.l, false), p.up.n, true, Painted(Fill(p, t), false));
      } else {
        node', p', t' := BlackUncleRight(node, p, t);
      }
    }

    /** `t` is the subtree of the valid tree that `q` leads to. */
    ghost predicate Descending(q: Path, t: Tree)
      reads this, nodes
    {
      && Rep(q, t) && Plug(q, t) == shape
      && Coloured(t) && PathColoured(q, BlackHeight(t)) && (Red(t) ==> !q.Top? && !HolderRed(q))
    }

    /** The descent shared by ngx_rbtree_insert_value, ngx_rbtree_insert_timer_value and the
        insert function of the file cache: the last node met, and on which side to hang `node`. */
    method FindPlace(node: Node, ghost labels: seq<Label>) returns (temp: Node, goesLeft: bool, ghost q: Path, ghost turns: nat)
      requires Valid() && root != sentinel && labels == Labels(Contents())
      ensures Descending(q, Leaf) && InPlace(labels, q, Leaf, LabelOf(node))
      ensures !q.Top? && q.n == temp && (goesLeft <==> q.InLeft?)
      ensures turns == Depth(q)
    {
      temp, turns := root, 0;
      ghost var t: Tree;
      ghost var x := LabelOf(node);
      q, t := Top, shape;
      while true
        invariant Descending(q, t) && t.Branch? && t.n == temp
        invariant InPlace(labels, q, t, x) && labels == Labels(Contents()) && x == LabelOf(node)
        invariant turns == Depth(q)
        decreases t
      {
        turns := turns + 1;
        goesLeft := Less(insert, LabelOf(node), LabelOf(temp));
        var next := if goesLeft then temp.left else temp.right;
        Descend(q, t);
        NarrowStep(labels, q, t, x);
        if goesLeft {
          q, t := InLeft(q, t.n, t.red, t.r), t.l;
        } else {
          q, t := InRight(q, t.l, t.n, t.red), t.r;
        }
        if next == sentinel {
          return;
        }
        temp := next;
      }
    }

    ghost predicate InPlace(labels: seq<Label>, q: Path, t: Tree, x: Label)
      reads this`insert
    {
      Narrowed(insert, labels, |Before(q)|, |Before(q)| + |Elems(t)|, x)
    }

    lemma {:induction false} NarrowStep(labels: seq<Label>, q: Path, t: Tree, x: Label)
      requires t.Branch? && Plug(q, t) == shape && labels == Labels(Contents()) && InPlace(labels, q, t, x)
      ensures if Less(insert, x, LabelOf(t.n))
        then InPlace(labels, InLeft(q, t.n, t.red, t.r), t.l, x)
        else InPlace(labels, InRight(q, t.l, t.n, t.red), t.r, x)
    {
      FocusIndex(q, t);
      Narrow(insert, labels, |Before(q)|, |Before(q)| + |Elems(t.l)|, |Before(q)| + |Elems(t)|, x);
    }

    lemma {:induction false} Descend(q: Path, t: Tree)
      requires Descending(q, t) && t.Branch?
      ensures Descending(InLeft(q, t.n, t.red, t.r), t.l)
      ensures Descending(InRight(q, t.l, t.n, t.red), t.r)
      ensures t.n.left == PtrTo(t.l, sentinel) && t.n.right == PtrTo(t.r, sentinel)
      ensures nodes == PathNodes(q) + Nodes(t)
      ensures t.l.Branch? ==> t.l.n != sentinel
      ensures t.r.Branch? ==> t.r.n != sentinel
    {
      DownLeft(q, t);
      DownRight(q, t);
    }

    /** The stores that end the insert functions. */
    method Attach(temp: Node, node: Node, goesLeft: bool, ghost q: Path)
      requires Rep(q, Leaf) && node !in nodes && node != sentinel
      requires !q.Top? && q.n == temp && (goesLeft <==> q.InLeft?)
      modifies this`nodes, node`parent, node`left, node`right, node`red, temp`left, temp`right
      ensures nodes == old(nodes) + {node} && Rep(q, Branch(Leaf, node, true, Leaf))
    {
      ghost var m := Memory();
      if goesLeft {
        temp.left := node;
      } else {
        temp.right := node;
      }
      node.parent := temp;
      node.left := sentinel;
      node.right := sentinel;
      node.red := true;
      nodes := nodes + {node};
      AttachRep(m, Memory(), q, node, root, sentinel);
    }

    /** The rebalancing loop of ngx_rbtree_insert. */
    method InsertFix(node0: Node, ghost p0: Path, ghost t0: Tree) returns (ghost turns: nat)
      requires Inserting(p0, t0) && node0 == t0.n
      modifies this`root, this`shape, nodes`left, nodes`right, nodes`parent, nodes`red
      ensures Valid() && Contents() == Elems(Plug(p0, t0))
      ensures turns <= Depth(p0)
    {
      hide Nodes, PathNodes, Elems;
      var node := node0;
      turns := 0;
      ghost var p, t := p0, t0;
      RootIsTop(p, t);
      while node != root && node.parent.red
        invariant Inserting(p, t) && node == t.n
        invariant Elems(Plug(p, t)) == Elems(Plug(p0, t0))
        invariant p.Top? <==> node == root
        invariant turns + (if HolderRed(p) then Depth(p) else 0) <= Depth(p0)
        decreases if HolderRed(p) then Depth(p) else 0
      {
        turns := turns + 1;
        GrandparentThere(p, t);
        if node.parent == node.parent.parent.left {
          node, p, t := InsertFixLeft(node, p, t);
        } else {
          node, p, t := InsertFixRight(node, p, t);
        }
        RootIsTop(p, t);
      }
      BlackenRoot(p, t);
    }

    lemma RootIsTop(p: Path, t: Tree)
      requires Rep(p, t) && t.Branch?
      ensures p.Top? <==> t.n == root
    {
      if !p.Top? { RootOnPath(Memory(), p, t.n, root, sentinel); }
    }

    /** A red parent is not the root, and tells which side it is on. */
    lemma GrandparentThere(p: Path, t: Tree)
      requires Inserting(p, t) && HolderRed(p)
      ensures t.n.parent == p.n && !p.up.Top? && p.n.parent == p.up.n
      ensures p.up.InLeft? <==> p.up.n.left == p.n
    {
      Up(p, t);
    }

    /** ngx_rbt_black(*root) */
    method BlackenRoot(ghost p: Path, ghost t: Tree)
      requires Inserting(p, t) && (p.Top? || !HolderRed(p))
      modifies this`shape, nodes`red
      ensures Valid() && Contents() == Elems(Plug(p, t))
    {
      ghost var whole := Plug(p, t);
      WholeRep(p, t);
      if !p.Top? { PlugColoured(p, t); }
      PlugBranch(p, t);
      Paint(root, false, Top, whole);
      shape := Painted(whole, false);
      PaintedElems(whole, false);
    }

    /** ngx_rbtree_insert: `node` becomes element `k` of the contents.  When the comparison
        orders the labels involved and the tree was sorted, it is still sorted, and `node`
        stands behind every node that does not sort after it and before all others.  The descent
        takes `down` turns and the rebalancing `up`, at most twice the logarithm of the size. */
    method Insert(node: Node) returns (ghost k: nat, ghost down: nat, ghost up: nat)
      requires Valid() && node !in nodes && node != sentinel
      modifies this`root, this`nodes, this`shape
      modifies node`left, node`right, node`parent, node`red, nodes`left, nodes`right, nodes`parent, nodes`red
      ensures Valid() && nodes == old(nodes) + {node}
      ensures k <= |old(Contents())| && Contents() == old(Contents())[..k] + [node] + old(Contents())[k..]
      ensures Labels(Contents()) == old(Labels(Contents()))[..k] + [LabelOf(node)] + old(Labels(Contents()))[k..]
      ensures var labels, x := old(Labels(Contents())), LabelOf(node);
        SortedBy(insert, labels) && StrictWeakOrder(insert, labels + [x]) ==>
          SortedBy(insert, Labels(Contents())) && Brackets(insert, labels, k, k, x)
      ensures insert != ByTimer && Ascends(insert, old(Labels(Contents()))) ==>
        Ascends(insert, Labels(Contents())) && Belongs(insert, old(Labels(Contents())), k, LabelOf(node))
      ensures up <= down && Logarithmic(down, |old(Contents())|)
    {
      hide SortedBy, Ascends, Belongs, Brackets, StrictWeakOrder;
      ghost var labels, x := Labels(Contents()), LabelOf(node);
      AlwaysOrdered(insert, labels + [x]);
      if root == sentinel {
        OneInOrder(insert, labels, x);
        InsertFirst(node);
        k, down, up := 0, 0, 0;
        assert Labels(Contents()) == [x];
      } else {
        k, down, up := InsertBelow(node);
      }
      KeepsAscending(insert, labels, k, x, Labels(Contents()));
    }

    static lemma OneInOrder(order: Order, labels: seq<Label>, x: Label)
      ensures SortedBy(order, [x])
      ensures labels == [] ==> Brackets(order, labels, 0, 0, x)
    {
    }

    /** What the insertion keeps, told by keys and names. */
    static lemma KeepsAscending(order: Order, labels: seq<Label>, k: nat, x: Label, labels': seq<Label>)
      requires k <= |labels|
      requires order != ByTimer && SortedBy(order, labels) ==> SortedBy(order, labels') && Brackets(order, labels, k, k, x)
      ensures order != ByTimer && Ascends(order, labels) ==> Ascends(order, labels') && Belongs(order, labels, k, x)
    {
      hide SortedBy, Ascends, Belongs, Brackets;
      if order != ByTimer {
        SortedAscends(order, labels);
        SortedAscends(order, labels');
        if SortedBy(order, labels) {
          BracketsBelongs(order, labels, k, x);
        }
      }
    }

    method InsertFirst(node: Node)
      requires Valid() && root == sentinel && node != sentinel
      modifies this`root, this`nodes, this`shape, node`left, node`right, node`parent, node`red
      ensures Valid() && nodes == old(nodes) + {node}
      ensures old(Contents()) == [] && Contents() == [node]
    {
      assert shape.Leaf?;
      node.parent := null;
      node.left := sentinel;
      node.right := sentinel;
      node.red := false;
      root := node;
      nodes, shape := {node}, Branch(Leaf, node, false, Leaf);
      assert Memory()[node] == Cell(sentinel, sentinel, null, false);
      assert Linked(Memory(), shape, sentinel) && PathLinked(Memory(), Top, node, root, sentinel);
    }

    method InsertBelow(node: Node) returns (ghost k: nat, ghost down: nat, ghost up: nat)
      requires Valid() && node !in nodes && node != sentinel && root != sentinel
      modifies this`root, this`nodes, this`shape
      modifies node`left, node`right, node`parent, node`red, nodes`left, nodes`right, nodes`parent, nodes`red
      ensures Valid() && nodes == old(nodes) + {node}
      ensures k <= |old(Contents())| && Contents() == old(Contents())[..k] + [node] + old(Contents())[k..]
      ensures Labels(Contents()) == old(Labels(Contents()))[..k] + [LabelOf(node)] + old(Labels(Contents()))[k..]
      ensures var labels, x := old(Labels(Contents())), LabelOf(node);
        SortedBy(insert, labels) && StrictWeakOrder(insert, labels + [x]) ==>
          SortedBy(insert, Labels(Contents())) && Brackets(insert, labels, k, k, x)
      ensures up <= down && Logarithmic(down, |old(Contents())|)
    {
      var temp, goesLeft;
      ghost var q;
      ghost var labels, x := Labels(Contents()), LabelOf(node);
      temp, goesLeft, q, down := FindPlace(node, labels);
      PlugElems(q, Leaf);
      DepthIsLogarithmic(shape, q, Leaf);
      k := |Before(q)|;
      up := HangAndFix(temp, node, goesLeft, q);
      assert Before(q) == old(Contents())[..k] && After(q) == old(Contents())[k..];
      LabelsWith(old(Contents()), node, k, labels);
      if SortedBy(insert, labels) && StrictWeakOrder(insert, labels + [x]) {
        SortedWith(insert, labels, k, x);
      }
    }

    lemma LabelsWith(was: seq<Node>, node: Node, k: nat, labels: seq<Label>)
      requires k <= |was| == |labels| && forall i :: 0 <= i < |was| ==> labels[i] == LabelOf(was[i])
      requires Contents() == was[..k] + [node] + was[k..]
      ensures Labels(Contents()) == labels[..k] + [LabelOf(node)] + labels[k..]
    {
      var now, v := Labels(Contents()), labels[..k] + [LabelOf(node)] + labels[k..];
      forall i | 0 <= i < |v| ensures now[i] == v[i] {
        assert now[i] == LabelOf(Contents()[i]);
      }
    }

    /** tree->insert(*root, node, sentinel) and the rebalancing. */
    method HangAndFix(temp: Node, node: Node, goesLeft: bool, ghost q: Path) returns (ghost turns: nat)
      requires Descending(q, Leaf) && !q.Top? && q.n == temp && (goesLeft <==> q.InLeft?)
      requires node !in nodes && node != sentinel && !sentinel.red
      modifies this`root, this`nodes, this`shape
      modifies node`left, node`right, node`parent, node`red, nodes`left, nodes`right, nodes`parent, nodes`red
      ensures Valid() && nodes == old(nodes) + {node}
      ensures Contents() == Before(q) + [node] + After(q) && turns <= Depth(q)
    {
      ghost var t := Branch(Leaf, node, true, Leaf);
      Attach(temp, node, goesLeft, q);
      PlugElems(q, t);
      assert Elems(t) == [node];
      turns := InsertFix(node, q, t);
    }

    // -------------------------------------------------------------- delete

    /** ngx_rbtree_min */
    method Min(node: Node, ghost p: Path, ghost t: Tree) returns (min: Node, ghost m: Path, ghost u: Tree)
      requires Rep(p, t) && t.Branch? && t.n == node
      ensures Spine(m) && Plug(m, u) == t && Rep(Append(m, p), u)
      ensures u.Branch? && u.l.Leaf? && u.n == min && Elems(t)[0] == min
    {
      PlugElems(Top, t);
      min, m, u := node, Top, t;
      while min.left != sentinel
        invariant Spine(m) && Plug(m, u) == t && Rep(Append(m, p), u)
        invariant u.Branch? && u.n == min
        decreases u
      {
        DownLeft(Append(m, p), u);
        min := min.left;
        m, u := InLeft(m, u.n, u.red, u.r), u.l;
      }
      PlugElems(m, u);
      SpineElems(m, p);
    }

    lemma {:induction false} Locate(q: Path, t: Tree, node: Node) returns (q': Path, t': Tree)
      requires Descending(q, t) && node in Nodes(t)
      ensures Descending(q', t') && t'.Branch? && t'.n == node
      decreases t
    {
      q', t' := q, t;
      if t.n != node {
        Descend(q, t);
        if node in Nodes(t.l) {
          q', t' := Locate(InLeft(q, t.n, t.red, t.r), t.l, node);
        } else {
          q', t' := Locate(InRight(q, t.l, t.n, t.red), t.r, node);
        }
      }
    }

    ghost predicate Loose(p: Path, t: Tree)
      reads this`nodes, this`root, this`sentinel, nodes`left, nodes`right, nodes`parent, nodes`red
    {
      LooseRep(Memory(), p, t, root, sentinel)
    }

    /** The parent of `subst` points at `temp` instead. */
    method Splice(subst: Node, temp: Node, ghost p: Path, ghost t: Tree, ghost child: Tree)
      requires Rep(p, t) && OnlyChild(t, child) && t.n == subst && !p.Top? && temp == PtrTo(child, sentinel)
      modifies p.n`left, p.n`right
      ensures Loose(p, child) && subst !in PathNodes(p) && subst !in Nodes(child)
      ensures subst.parent == p.n && p.n in nodes && subst in nodes
      ensures nodes == PathNodes(p) + Nodes(child) + {subst}
    {
      assert nodes == PathNodes(p) + Nodes(child) + {subst};
      hide Linked, Apart, Repointed;
      ghost var m := Memory();
      HolderThere(p, t);
      SplicePointer(subst, temp, p);
      SpliceRep(m, Memory(), p, t, child, root, root, sentinel);
    }

    lemma HolderThere(p: Path, t: Tree)
      requires Rep(p, t) && t.Branch? && !p.Top?
      ensures p.n in nodes && t.n in nodes && t.n.parent == p.n
      ensures if p.InLeft? then p.n.left == t.n else p.n.right == t.n && p.n.left != t.n
    {
      RootOnPath(Memory(), p, t.n, root, sentinel);
      Up(p, t);
    }

    /** The store of a splice. */
    method SplicePointer(subst: Node, temp: Node, ghost p: Path)
      requires !p.Top? && p.n in nodes && subst in nodes && subst.parent == p.n
      requires if p.InLeft? then p.n.left == subst else p.n.left != subst
      modifies p.n`left, p.n`right
      ensures Repointed(old(Memory()), Memory(), p, temp, root, root)
      ensures forall n :: n in nodes && n != p.n ==> Memory()[n] == old(Memory())[n]
    {
      if subst == subst.parent.left {
        subst.parent.left := temp;
      } else {
        subst.parent.right := temp;
      }
    }

    /** temp->parent = holder, once the node that is leaving has been spliced out */
    method Adopt(temp: Node, holder: Node, ghost p: Path, ghost child: Tree)
      requires Loose(p, child) && !p.Top? && holder == p.n && temp == PtrTo(child, sentinel)
      requires sentinel !in nodes && PathNodes(p) + Nodes(child) <= nodes
      modifies this`nodes, temp`parent
      ensures Rep(p, child) && nodes == PathNodes(p) + Nodes(child) && temp.parent == holder
    {
      ghost var m := Memory();
      temp.parent := holder;
      nodes := PathNodes(p) + Nodes(child);
      LooseReparent(m, Memory(), p, child, holder, root, sentinel);
    }

    method Unlink(node: Node, temp: Node, ghost p: Path, ghost t: Tree, ghost child: Tree)
      requires Rep(p, t) && OnlyChild(t, child) && t.n == node && !p.Top? && temp == PtrTo(child, sentinel)
      modifies this`nodes, p.n`left, p.n`right, temp`parent
      ensures Rep(p, child) && nodes == old(nodes) - {node} && temp.parent == p.n
    {
      Splice(node, temp, p, t, child);
      Adopt(temp, node.parent, p, child);
    }

    /** `temp` is where the tree is one black node short; it may be the sentinel, and then its
        parent field says where it hangs. */
    ghost predicate Deleting(temp: Node, p: Path, t: Tree)
      reads this`nodes, this`root, this`sentinel, nodes`left, nodes`right, nodes`parent, nodes`red
      reads sentinel`red, temp`parent
    {
      && Rep(p, t) && !sentinel.red && ShortFocus(p, t)
      && temp == PtrTo(t, sentinel) && (!p.Top? ==> temp.parent == p.n)
    }

    lemma ToSiblingLeft(p: Path, t: Tree)
      requires Rep(p, t) && p.InLeft?
      ensures Rep(InRight(p.up, t, p.n, p.red), p.r)
    {
      Up(p, t);
      DownRight(p.up, Fill(p, t));
    }

    lemma FromSiblingLeft(p: Path, t: Tree)
      requires p.InLeft? && Rep(InRight(p.up, t, p.n, p.red), p.r)
      ensures Rep(p, t)
    {
      Up(InRight(p.up, t, p.n, p.red), p.r);
      DownLeft(p.up, Fill(p, t));
    }

    lemma ToSiblingRight(p: Path, t: Tree)
      requires Rep(p, t) && p.InRight?
      ensures Rep(InLeft(p.up, p.n, p.red, t), p.l)
    {
      Up(p, t);
      DownLeft(p.up, Fill(p, t));
    }

    lemma FromSiblingRight(p: Path, t: Tree)
      requires p.InRight? && Rep(InLeft(p.up, p.n, p.red, t), p.l)
      ensures Rep(p, t)
    {
      Up(InLeft(p.up, p.n, p.red, t), p.l);
      DownRight(p.up, Fill(p, t));
    }

    /** temp is a left child: a red sibling is rotated above the parent. */
    method RedSiblingLeft(temp: Node, ghost p: Path, ghost t: Tree) returns (ghost p': Path)
      requires Rep(p, t) && p.InLeft? && Red(p.r) && temp == PtrTo(t, sentinel) && temp.parent == p.n
      modifies this`root, nodes`left, nodes`right, nodes`parent, nodes`red
      ensures Rep(p', t) && p' == InLeft(InLeft(p.up, p.r.n, false, p.r.r), p.n, true, p.r.l)
    {
      ghost var w := Painted(p.r, false);
      ToSiblingLeft(p, t);
      var parent := temp.parent;
      Paint(parent.right, false, InRight(p.up, t, p.n, p.red), p.r);
      Up(InRight(p.up, t, p.n, p.red), w);
      Paint(parent, true, p.up, Branch(t, p.n, p.red, w));
      RotateLeftAt(parent, p.up, Branch(t, p.n, true, w));
      p' := InLeft(p.up, p.r.n, false, p.r.r);
      DownLeft(p.up, Branch(Branch(t, p.n, true, p.r.l), p.r.n, false, p.r.r));
      DownLeft(p', Branch(t, p.n, true, p.r.l));
      p' := InLeft(p', p.n, true, p.r.l);
    }

    /** temp is a left child and both nephews are black: the sibling turns red. */
    method BlackNephewsLeft(temp: Node, ghost p: Path, ghost t: Tree) returns (temp': Node, ghost t': Tree)
      requires Deleting(temp, p, t) && !Red(t) && p.InLeft? && p.r.Branch? && !p.r.red && !Red(p.r.l) && !Red(p.r.r)
      modifies nodes`red
      ensures Deleting(temp', p.up, t') && t' == Branch(t, p.n, p.red, Painted(p.r, true))
    {
      BlackNephewsLeftRules(p, t);
      ToSiblingLeft(p, t);
      temp' := temp.parent;
      Paint(temp'.right, true, InRight(p.up, t, p.n, p.red), p.r);
      Up(InRight(p.up, t, p.n, p.red), Painted(p.r, true));
      t' := Branch(t, p.n, p.red, Painted(p.r, true));
    }

    /** temp is a left child and only the inner nephew is red: it is rotated outwards. */
    method InnerNephewLeft(temp: Node, ghost p: Path, ghost t: Tree) returns (ghost p': Path)
      requires Rep(p, t) && p.InLeft? && p.r.Branch? && p.r.l.Branch? && temp == PtrTo(t, sentinel) && temp.parent == p.n
      modifies this`root, nodes`left, nodes`right, nodes`parent, nodes`red
      ensures Rep(p', t)
      ensures p' == p.(r := Branch(p.r.l.l, p.r.l.n, false, Branch(p.r.l.r, p.r.n, true, p.r.r)))
    {
      ghost var w := p.r;
      ghost var q, n1 := InRight(p.up, t, p.n, p.red), Painted(w.l, false);
      ToSiblingLeft(p, t);
      var sibling := temp.parent.right;
      DownLeft(q, w);
      Paint(sibling.left, false, InLeft(q, w.n, w.red, w.r), w.l);
      Up(InLeft(q, w.n, w.red, w.r), n1);
      Paint(sibling, true, q, Branch(n1, w.n, w.red, w.r));
      RotateRightAt(sibling, q, Branch(n1, w.n, true, w.r));
      p' := p.(r := Branch(w.l.l, w.l.n, false, Branch(w.l.r, w.n, true, w.r)));
      FromSiblingLeft(p', t);
    }

    /** The paint of the final case: the sibling takes the parent's colour. */
    method PaintOuterLeft(temp: Node, ghost p: Path, ghost t: Tree) returns (ghost w: Tree)
      requires Rep(p, t) && p.InLeft? && p.r.Branch? && p.r.r.Branch? && temp == PtrTo(t, sentinel) && temp.parent == p.n
      modifies nodes`red
      ensures w == Branch(p.r.l, p.r.n, p.red, Painted(p.r.r, false)) && Rep(p.up, Branch(t, p.n, false, w))
    {
      ghost var w0, q := Painted(p.r, p.red), InRight(p.up, t, p.n, p.red);
      w := Branch(p.r.l, p.r.n, p.red, Painted(p.r.r, false));
      Up(p, t);
      DownRight(p.up, Fill(p, t));
      var parent := temp.parent;
      var sibling := parent.right;
      Paint(sibling, parent.red, q, p.r);
      DownRight(q, w0);
      Paint(sibling.right, false, InRight(q, w0.l, w0.n, w0.red), w0.r);
      Up(InRight(q, w0.l, w0.n, w0.red), w.r);
      Up(q, w);
      Paint(parent, false, p.up, Branch(t, p.n, p.red, w));
    }

    /** temp is a left child and the outer nephew is red: one rotation repairs the tree. */
    method OuterNephewLeft(temp: Node, ghost p: Path, ghost t: Tree) returns (ghost t': Tree)
      requires Rep(p, t) && p.InLeft? && p.r.Branch? && p.r.r.Branch? && temp == PtrTo(t, sentinel) && temp.parent == p.n
      modifies this`root, nodes`left, nodes`right, nodes`parent, nodes`red
      ensures Rep(p.up, t')
      ensures t' == Branch(Branch(t, p.n, false, p.r.l), p.r.n, p.red, Painted(p.r.r, false))
    {
      ghost var w := PaintOuterLeft(temp, p, t);
      RotateLeftAt(temp.parent, p.up, Branch(t, p.n, false, w));
      t' := Branch(Branch(t, p.n, false, p.r.l), p.r.n, p.red, Painted(p.r.r, false));
    }

    /** temp is a right child: a red sibling is rotated above the parent. */
    method RedSiblingRight(temp: Node, ghost p: Path, ghost t: Tree) returns (ghost p': Path)
      requires Rep(p, t) && p.InRight? && Red(p.l) && temp == PtrTo(t, sentinel) && temp.parent == p.n
      modifies this`root, nodes`left, nodes`right, nodes`parent, nodes`red
      ensures Rep(p', t) && p' == InRight(InRight(p.up, p.l.l, p.l.n, false), p.l.r, p.n, true)
    {
      ghost var w := Painted(p.l, false);
      ToSiblingRight(p, t);
      var parent := temp.parent;
      Paint(parent.left, false, InLeft(p.up, p.n, p.red, t), p.l);
      Up(InLeft(p.up, p.n, p.red, t), w);
      Paint(parent, true, p.up, Branch(w, p.n, p.red, t));
      RotateRightAt(parent, p.up, Branch(w, p.n, true, t));
      p' := InRight(p.up, p.l.l, p.l.n, false);
      DownRight(p.up, Branch(p.l.l, p.l.n, false, Branch(p.l.r, p.n, true, t)));
      DownRight(p', Branch(p.l.r, p.n, true, t));
      p' := InRight(p', p.l.r, p.n, true);
    }

    /** temp is a right child and both nephews are black: the sibling turns red. */
    method BlackNephewsRight(temp: Node, ghost p: Path, ghost t: Tree) returns (temp': Node, ghost t': Tree)
      requires Deleting(temp, p, t) && !Red(t) && p.InRight? && p.l.Branch? && !p.l.red && !Red(p.l.l) && !Red(p.l.r)
      modifies nodes`red
      ensures Deleting(temp', p.up, t') && t' == Branch(Painted(p.l, true), p.n, p.red, t)
    {
      BlackNephewsRightRules(p, t);
      ToSiblingRight(p, t);
      temp' := temp.parent;
      Paint(temp'.left, true, InLeft(p.up, p.n, p.red, t), p.l);
      Up(InLeft(p.up, p.n, p.red, t), Painted(p.l, true));
      t' := Branch(Painted(p.l, true), p.n, p.red, t);
    }

    /** temp is a right child and only the inner nephew is red: it is rotated outwards. */
    method InnerNephewRight(temp: Node, ghost p: Path, ghost t: Tree) returns (ghost p': Path)
      requires Rep(p, t) && p.InRight? && p.l.Branch? && p.l.r.Branch? && temp == PtrTo(t, sentinel) && temp.parent == p.n
      modifies this`root, nodes`left, nodes`right, nodes`parent, nodes`red
      ensures Rep(p', t)
      ensures p' == p.(l := Branch(Branch(p.l.l, p.l.n, true, p.l.r.l), p.l.r.n, false, p.l.r.r))
    {
      ghost var w := p.l;
      ghost var q, n1 := InLeft(p.up, p.n, p.red, t), Painted(w.r, false);
      ToSiblingRight(p, t);
      var sibling := temp.parent.left;
      DownRight(q, w);
      Paint(sibling.right, false, InRight(q, w.l, w.n, w.red), w.r);
      Up(InRight(q, w.l, w.n, w.red), n1);
      Paint(sibling, true, q, Branch(w.l, w.n, w.red, n1));
      RotateLeftAt(sibling, q, Branch(w.l, w.n, true, n1));
      p' := p.(l := Branch(Branch(w.l, w.n, true, w.r.l), w.r.n, false, w.r.r));
      FromSiblingRight(p', t);
    }

    method PaintOuterRight(temp: Node, ghost p: Path, ghost t: Tree) returns (ghost w: Tree)
      requires Rep(p, t) && p.InRight? && p.l.Branch? && p.l.l.Branch? && temp == PtrTo(t, sentinel) && temp.parent == p.n
      modifies nodes`red
      ensures w == Branch(Painted(p.l.l, false), p.l.n, p.red, p.l.r) && Rep(p.up, Branch(w, p.n, false, t))
    {
      ghost var w0, q := Painted(p.l, p.red), InLeft(p.up, p.n, p.red, t);
      w := Branch(Painted(p.l.l, false), p.l.n, p.red, p.l.r);
      Up(p, t);
      DownLeft(p.up, Fill(p, t));
      var parent := temp.parent;
      var sibling := parent.left;
      Paint(sibling, parent.red, q, p.l);
      DownLeft(q, w0);
      Paint(sibling.left, false, InLeft(q, w0.n, w0.red, w0.r), w0.l);
      Up(InLeft(q, w0.n, w0.red, w0.r), w.l);
      Up(q, w);
      Paint(parent, false, p.up, Branch(w, p.n, p.red, t));
    }

    /** temp is a right child and the outer nephew is red: one rotation repairs the tree. */
    method OuterNephewRight(temp: Node, ghost p: Path, ghost t: Tree) returns (ghost t': Tree)
      requires Rep(p, t) && p.InRight? && p.l.Branch? && p.l.l.Branch? && temp == PtrTo(t, sentinel) && temp.parent == p.n
      modifies this`root, nodes`left, nodes`right, nodes`parent, nodes`red
      ensures Rep(p.up, t')
      ensures t' == Branch(Painted(p.l.l, false), p.l.n, p.red, Branch(p.l.r, p.n, false, t))
    {
      ghost var w := PaintOuterRight(temp, p, t);
      RotateRightAt(temp.parent, p.up, Branch(w, p.n, false, t));
      t' := Branch(Painted(p.l.l, false), p.l.n, p.red, Branch(p.l.r, p.n, false, t));
    }

    /** temp = *root, once the whole tree is in order again */
    method AtRoot(ghost p: Path, ghost t: Tree) returns (temp: Node, ghost whole: Tree)
      requires Rep(p, t) && !sentinel.red && RedBlack(Plug(p, t))
      ensures whole == Plug(p, t) && Deleting(temp, Top, whole)
    {
      whole := Plug(p, t);
      WholeRep(p, t);
      temp := root;
    }

    /** One turn of the fix-up loop when temp is a left child. */
    method DeleteFixLeft(temp: Node, ghost p: Path, ghost t: Tree) returns (temp': Node, ghost p': Path, ghost t': Tree)
      requires Deleting(temp, p, t) && p.InLeft? && !Red(t)
      modifies this`root, nodes`left, nodes`right, nodes`parent, nodes`red
      ensures Deleting(temp', p', t') && Elems(Plug(p', t')) == Elems(Plug(p, t))
      ensures p'.Top? || Red(t') || Depth(p') < Depth(p)
    {
      ghost var p1 := p;
      SiblingBranches(p, t);
      ToSiblingLeft(p, t);
      if temp.parent.right.red {
        RedSiblingLeftRules(p, t);
        p1 := RedSiblingLeft(temp, p, t);
      }
      temp', p', t' := BlackSiblingLeft(temp, p1, t);
    }

    method BlackSiblingLeft(temp: Node, ghost p: Path, ghost t: Tree) returns (temp': Node, ghost p': Path, ghost t': Tree)
      requires Deleting(temp, p, t) && p.InLeft? && !Red(t) && !Red(p.r)
      modifies this`root, nodes`left, nodes`right, nodes`parent, nodes`red
      ensures Deleting(temp', p', t') && Elems(Plug(p', t')) == Elems(Plug(p, t))
      ensures p'.Top? || (p' == p.up && (p.red ==> Red(t')))
    {
      SiblingBranches(p, t);
      ToSiblingLeft(p, t);
      NephewsLeft(p, t);
      var w := temp.parent.right;
      if !w.left.red && !w.right.red {
        BlackNephewsLeftRules(p, t);
        temp', t' := BlackNephewsLeft(temp, p, t);
        p' := p.up;
      } else {
        temp', t' := RedNephewLeft(temp, p, t);
        p' := Top;
      }
    }

    /** temp is a left child with a black sibling and a red nephew: the loop ends at the root. */
    method RedNephewLeft(temp: Node, ghost p: Path, ghost t: Tree) returns (temp': Node, ghost t': Tree)
      requires Deleting(temp, p, t) && p.InLeft? && !Red(t) && p.r.Branch? && !p.r.red && (Red(p.r.l) || Red(p.r.r))
      modifies this`root, nodes`left, nodes`right, nodes`parent, nodes`red
      ensures Deleting(temp', Top, t') && Elems(t') == Elems(Plug(p, t))
    {
      ghost var p2 := p;
      ToSiblingLeft(p, t);
      NephewsLeft(p, t);
      if !temp.parent.right.right.red {
        InnerNephewLeftRules(p, t);
        p2 := InnerNephewLeft(temp, p, t);
      }
      OuterNephewLeftRules(p2, t);
      t' := OuterNephewLeft(temp, p2, t);
      temp', t' := AtRoot(p.up, t');
    }

    lemma NephewsLeft(p: Path, t: Tree)
      requires Rep(p, t) && p.InLeft? && p.r.Branch? && !sentinel.red
      ensures p.r.n in nodes && p.n.right == p.r.n
      ensures p.r.n.left == PtrTo(p.r.l, sentinel) && p.r.n.left.red == Red(p.r.l)
      ensures p.r.n.right == PtrTo(p.r.r, sentinel) && p.r.n.right.red == Red(p.r.r)
    {
      ToSiblingLeft(p, t);
      DownLeft(InRight(p.up, t, p.n, p.red), p.r);
      DownRight(InRight(p.up, t, p.n, p.red), p.r);
    }

    /** One turn of the fix-up loop when temp is a right child. */
    method DeleteFixRight(temp: Node, ghost p: Path, ghost t: Tree) returns (temp': Node, ghost p': Path, ghost t': Tree)
      requires Deleting(temp, p, t) && p.InRight? && !Red(t)
      modifies this`root, nodes`left, nodes`right, nodes`parent, nodes`red
      ensures Deleting(temp', p', t') && Elems(Plug(p', t')) == Elems(Plug(p, t))
      ensures p'.Top? || Red(t') || Depth(p') < Depth(p)
    {
      ghost var p1 := p;
      SiblingBranches(p, t);
      ToSiblingRight(p, t);
      if temp.parent.left.red {
        RedSiblingRightRules(p, t);
        p1 := RedSiblingRight(temp, p, t);
      }
      temp', p', t' := BlackSiblingRight(temp, p1, t);
    }

    method BlackSiblingRight(temp: Node, ghost p: Path, ghost t: Tree) returns (temp': Node, ghost p': Path, ghost t': Tree)
      requires Deleting(temp, p, t) && p.InRight? && !Red(t) && !Red(p.l)
      modifies this`root, nodes`left, nodes`right, nodes`parent, nodes`red
      ensures Deleting(temp', p', t') && Elems(Plug(p', t')) == Elems(Plug(p, t))
      ensures p'.Top? || (p' == p.up && (p.red ==> Red(t')))
    {
      SiblingBranches(p, t);
      ToSiblingRight(p, t);
      NephewsRight(p, t);
      var w := temp.parent.left;
      if !w.left.red && !w.right.red {
        BlackNephewsRightRules(p, t);
        temp', t' := BlackNephewsRight(temp, p, t);
        p' := p.up;
      } else {
        temp', t' := RedNephewRight(temp, p, t);
        p' := Top;
      }
    }

    /** temp is a right child with a black sibling and a red nephew: the loop ends at the root. */
    method RedNephewRight(temp: Node, ghost p: Path, ghost t: Tree) returns (temp': Node, ghost t': Tree)
      requires Deleting(temp, p, t) && p.InRight? && !Red(t) && p.l.Branch? && !p.l.red && (Red(p.l.l) || Red(p.l.r))
      modifies this`root, nodes`left, nodes`right, nodes`parent, nodes`red
      ensures Deleting(temp', Top, t') && Elems(t') == Elems(Plug(p, t))
    {
      ghost var p2 := p;
      ToSiblingRight(p, t);
      NephewsRight(p, t);
      if !temp.parent.left.left.red {
        InnerNephewRightRules(p, t);
        p2 := InnerNephewRight(temp, p, t);
      }
      OuterNephewRightRules(p2, t);
      t' := OuterNephewRight(temp, p2, t);
      temp', t' := AtRoot(p.up, t');
    }

    lemma NephewsRight(p: Path, t: Tree)
      requires Rep(p, t) && p.InRight? && p.l.Branch? && !sentinel.red
      ensures p.l.n in nodes && p.n.left == p.l.n
      ensures p.l.n.left == PtrTo(p.l.l, sentinel) && p.l.n.left.red == Red(p.l.l)
      ensures p.l.n.right == PtrTo(p.l.r, sentinel) && p.l.n.right.red == Red(p.l.r)
    {
      ToSiblingRight(p, t);
      DownLeft(InLeft(p.up, p.n, p.red, t), p.l);
      DownRight(InLeft(p.up, p.n, p.red, t), p.l);
    }

    /** The fix-up loop of ngx_rbtree_delete. */
    method DeleteFix(temp0: Node, ghost p0: Path, ghost t0: Tree) returns (ghost turns: nat)
      requires Deleting(temp0, p0, t0)
      modifies this`root, this`shape, sentinel`red, nodes`left, nodes`right, nodes`parent, nodes`red
      ensures Valid() && Contents() == Elems(Plug(p0, t0)) && turns <= Depth(p0)
    {
      var temp := temp0;
      turns := 0;
      ghost var p, t := p0, t0;
      TempAtRoot(temp, p, t);
      while temp != root && !temp.red
        invariant Deleting(temp, p, t)
        invariant Elems(Plug(p, t)) == Elems(Plug(p0, t0))
        invariant (p.Top? <==> temp == root) && temp.red == Red(t)
        invariant turns + (if p.Top? || Red(t) then 0 else Depth(p)) <= Depth(p0)
        decreases if p.Top? || Red(t) then 0 else Depth(p)
      {
        turns := turns + 1;
        SideOfTemp(temp, p, t);
        if temp == temp.parent.left {
          temp, p, t := DeleteFixLeft(temp, p, t);
        } else {
          temp, p, t := DeleteFixRight(temp, p, t);
        }
        TempAtRoot(temp, p, t);
      }
      BlackenTemp(temp, p, t);
    }

    lemma TempAtRoot(temp: Node, p: Path, t: Tree)
      requires Deleting(temp, p, t)
      ensures p.Top? <==> temp == root
      ensures temp.red == Red(t)
    {
      if !p.Top? { RootOnPath(Memory(), p, temp, root, sentinel); }
    }

    /** Even when temp is the sentinel, comparing it with its parent's left child tells its side. */
    lemma SideOfTemp(temp: Node, p: Path, t: Tree)
      requires Deleting(temp, p, t) && !p.Top?
      ensures p.InLeft? <==> temp == p.n.left
    {
      SiblingBranches(p, t);
    }

    /** ngx_rbt_black(temp) */
    method BlackenTemp(temp: Node, ghost p: Path, ghost t: Tree)
      requires Deleting(temp, p, t) && (p.Top? || Red(t))
      modifies this`shape, temp`red
      ensures Valid() && Contents() == Elems(Plug(p, t))
    {
      ghost var m := Memory();
      temp.red := false;
      if t.Branch? {
        PaintRep(m, Memory(), p, t, root, sentinel, false);
      }
      ShortFocusDone(p, t);
      PaintedElems(t, false);
      SameElems(p, t, Painted(t, false));
      WholeRep(p, Painted(t, false));
      shape := Plug(p, Painted(t, false));
    }

    lemma {:induction false} WholeRep(p: Path, t: Tree)
      requires Rep(p, t)
      ensures Rep(Top, Plug(p, t))
    {
      AppendTop(p);
      Zip(Memory(), p, Top, t, root, sentinel);
      PlugNodes(p, t);
    }

    /** `subst` takes over the place, the children and the colour of `node`. */
    method Replace(node: Node, subst: Node)
      requires Replaceable(Memory(), node, subst, root, sentinel)
      modifies this`root, nodes`left, nodes`right, nodes`parent, subst`red
      ensures Replaceable(old(Memory()), node, subst, old(root), sentinel)
      ensures Replaced(old(Memory()), Memory(), node, subst, old(root), root, sentinel)
    {
      assert node in nodes && subst in nodes;
      subst.left := node.left;
      subst.right := node.right;
      subst.parent := node.parent;
      subst.red := node.red;
      if node == root {
        root := subst;
      } else if node == node.parent.left {
        node.parent.left := subst;
      } else {
        node.parent.right := subst;
      }
      if subst.left != sentinel {
        subst.left.parent := subst;
      }
      if subst.right != sentinel {
        subst.right.parent := subst;
      }
    }

    /** The same, where `subst` has already been spliced out of the subtree to the right of `node`. */
    method ReplaceAt(node: Node, subst: Node, ghost p: Path, ghost l: Tree, ghost red: bool, ghost r: Tree)
      requires Loose(InRight(p, l, node, red), r)
      requires node in nodes && subst in nodes && node != subst && subst != sentinel
      requires nodes == PathNodes(p) + Nodes(l) + {node} + Nodes(r) + {subst}
      requires subst !in PathNodes(p) && subst !in Nodes(l) && subst !in Nodes(r)
      modifies this`root, this`nodes, nodes`left, nodes`right, nodes`parent, subst`red
      ensures Rep(p, Branch(l, subst, red, r)) && nodes == old(nodes) - {node}
    {
      hide Linked, Apart, Replaceable, Replaced;
      ghost var m, root0, s := Memory(), root, sentinel;
      ReplaceableHere(m, p, l, node, red, r, subst, root, s);
      ghost var m' := ReplaceAndForget(node, subst);
      ReplacedRep(m, m', Memory(), p, l, node, red, r, subst, root0, root, s);
    }

    method ReplaceAndForget(node: Node, subst: Node) returns (ghost m': Memory)
      requires Replaceable(Memory(), node, subst, root, sentinel)
      modifies this`root, this`nodes, nodes`left, nodes`right, nodes`parent, subst`red
      ensures Replaceable(old(Memory()), node, subst, old(root), sentinel)
      ensures Replaced(old(Memory()), m', node, subst, old(root), root, sentinel)
      ensures nodes == old(nodes) - {node} && Memory() == m' - {node}
    {
      Replace(node, subst);
      m' := Memory();
      nodes := nodes - {node};
    }

    /** The parent pointer of the successor's child, before the successor moves. */
    method Reattach(node: Node, subst: Node, temp: Node, ghost m: Path, ghost base: Path, ghost child: Tree)
      requires Loose(Append(m, base), child) && base.InRight? && base.n == node && temp == PtrTo(child, sentinel)
      requires nodes == PathNodes(Append(m, base)) + Nodes(child) + {subst}
      requires subst.parent == Append(m, base).n && subst in nodes && sentinel !in nodes && temp != subst
      modifies temp`parent
      ensures Loose(base, Plug(m, child))
      ensures temp.parent == if m.Top? then subst else Append(m, base).n
    {
      ghost var mem, q := Memory(), Append(m, base);
      AppendTopOrNot(m, base);
      HolderOfAppend(m, base, child);
      if subst.parent == node {
        temp.parent := subst;
        LooseReparent(mem, Memory(), q, child, subst, root, sentinel);
      } else {
        temp.parent := subst.parent;
        LooseReparent(mem, Memory(), q, child, q.n, root, sentinel);
        Zip(Memory(), m, base, child, root, sentinel);
      }
    }

    lemma {:induction false} HolderOfAppend(m: Path, base: Path, child: Tree)
      requires PathSeparate(Append(m, base)) && base.InRight?
      ensures m.Top? <==> Append(m, base).n == base.n
    {
      if !m.Top? { AppendTopOrNot(m.up, base); }
    }

    /** The successor `subst` of `node` leaves its place to its child `temp`. */
    method SpliceSuccessor(node: Node, subst: Node, temp: Node, ghost m: Path, ghost base: Path, ghost u: Tree)
      requires base.InRight? && base.n == node && Rep(base, Plug(m, u))
      requires u.Branch? && u.l.Leaf? && u.n == subst && temp == PtrTo(u.r, sentinel)
      modifies temp`parent, nodes`left, nodes`right
      ensures Loose(base, Plug(m, u.r)) && subst in nodes && subst != sentinel
      ensures subst !in PathNodes(base) && subst !in Nodes(Plug(m, u.r))
      ensures nodes == PathNodes(base) + Nodes(Plug(m, u.r)) + {subst}
      ensures temp.parent == if m.Top? then subst else m.n
    {
      Below(m, base, u);
      Splice(subst, temp, Append(m, base), u, u.r);
      SpineNodes(m, base, u.r);
      Reattach(node, subst, temp, m, base, u.r);
    }

    lemma {:induction false} SpineNodes(m: Path, base: Path, t: Tree)
      ensures PathNodes(Append(m, base)) + Nodes(t) == PathNodes(base) + Nodes(Plug(m, t))
      ensures Append(m, base).Top? <==> m.Top? && base.Top?
      ensures !m.Top? ==> Append(m, base).n == m.n
    {
      AppendTopOrNot(m, base);
      PlugNodes(m, t);
    }

    /** A node with two children: its successor `subst`, the leftmost node to its right, leaves
        its own place to its child `temp` and takes over the place of `node`. */
    method ReplaceBySuccessor(node: Node, subst: Node, temp: Node, ghost p: Path, ghost t: Tree, ghost m: Path, ghost u: Tree)
        returns (ghost p': Path)
      requires Rep(p, t) && t.Branch? && t.n == node && Plug(m, u) == t.r
      requires u.Branch? && u.l.Leaf? && u.n == subst && temp == PtrTo(u.r, sentinel)
      modifies this`root, this`nodes, temp`parent, nodes`left, nodes`right, nodes`parent, nodes`red
      ensures nodes == old(nodes) - {node} && Rep(p', u.r)
      ensures p' == Append(m, InRight(p, t.l, subst, t.red)) && !p'.Top? && temp.parent == p'.n
    {
      hide PathNodes, Plug;
      ghost var r1 := Plug(m, u.r);
      p' := Append(m, InRight(p, t.l, subst, t.red));
      DownRight(p, t);
      SpliceSuccessor(node, subst, temp, m, InRight(p, t.l, node, t.red), u);
      ReplaceAt(node, subst, p, t.l, t.red, r1);
      BelowRight(p, t.l, subst, t.red, m, u.r);
    }

    lemma {:induction false} BelowRight(p: Path, l: Tree, n: Node, red: bool, m: Path, t: Tree)
      requires Rep(p, Branch(l, n, red, Plug(m, t)))
      ensures Rep(Append(m, InRight(p, l, n, red)), t) && !Append(m, InRight(p, l, n, red)).Top?
    {
      DownRight(p, Branch(l, n, red, Plug(m, t)));
      Below(m, InRight(p, l, n, red), t);
    }

    lemma {:induction false} Below(m: Path, base: Path, t: Tree)
      requires Rep(base, Plug(m, t))
      ensures Rep(Append(m, base), t)
    {
      Unzip(Memory(), m, base, t, root, sentinel);
      AppendTopOrNot(m, base);
      PlugNodes(m, t);
    }

    /** ngx_rbtree_delete: exactly this node object leaves the contents, whatever keys it shares
        with others.  Its fields are cleared; the other nodes keep their keys.  The fix-up takes
        `turns` turns, at most twice the logarithm of the size. */
    method Delete(node: Node) returns (ghost k: nat, ghost turns: nat)
      requires Valid() && node in nodes
      modifies this`root, this`nodes, this`shape, sentinel`red, sentinel`parent
      modifies node`key, nodes`left, nodes`right, nodes`parent, nodes`red
      ensures Valid() && nodes == old(nodes) - {node}
      ensures k < |old(Contents())| && old(Contents())[k] == node
      ensures Contents() == old(Contents())[..k] + old(Contents())[k + 1..]
      ensures Labels(Contents()) == old(Labels(Contents()))[..k] + old(Labels(Contents()))[k + 1..]
      ensures SortedBy(insert, old(Labels(Contents()))) ==> SortedBy(insert, Labels(Contents()))
      ensures insert != ByTimer && Ascends(insert, old(Labels(Contents()))) ==> Ascends(insert, Labels(Contents()))
      ensures node.left == null && node.right == null && node.parent == null && node.key == 0
      ensures Logarithmic(turns, |old(Contents())|)
    {
      hide SortedBy, Ascends, RbTree.Memory, MemRep, Nodes, RedBlack, Elems;
      ghost var labels := Labels(Contents());
      k, turns := Remove(node);
      Clear(node);
      ElemsAreNodes(shape);
      LabelsWithout(old(Contents()), k, old(Labels(Contents())));
      if SortedBy(insert, labels) {
        SortedWithout(insert, labels, k);
      }
      if insert != ByTimer {
        SortedAscends(insert, labels);
        SortedAscends(insert, Labels(Contents()));
      }
    }

    /** Every node is in the contents, once. */
    lemma NodesOnce()
      requires Valid()
      ensures NoDuplicates(Contents()) && forall n :: n in Contents() <==> n in nodes
    {
      SeparateElems(shape);
      ElemsAreNodes(shape);
    }

    method Clear(node: Node)
      requires Valid() && node !in nodes && node != sentinel
      modifies node`left, node`right, node`parent, node`key
      ensures Valid()
      ensures node.left == null && node.right == null && node.parent == null && node.key == 0
    {
      node.left := null;
      node.right := null;
      node.parent := null;
      node.key := 0;
    }

    lemma LabelsWithout(was: seq<Node>, k: nat, labels: seq<Label>)
      requires k < |was| == |labels| && Contents() == was[..k] + was[k + 1..]
      requires forall i :: 0 <= i < |was| && was[i] in Contents() ==> labels[i] == LabelOf(was[i])
      ensures Labels(Contents()) == labels[..k] + labels[k + 1..]
    {
      var now, v := Labels(Contents()), labels[..k] + labels[k + 1..];
      forall i | 0 <= i < |v| ensures now[i] == v[i] {
        assert now[i] == LabelOf(Contents()[i]) && Contents()[i] in Contents();
      }
    }

    method Remove(node: Node) returns (ghost k: nat, ghost turns: nat)
      requires Valid() && node in nodes
      modifies this`root, this`nodes, this`shape, sentinel`red, sentinel`parent
      modifies nodes`left, nodes`right, nodes`parent, nodes`red
      ensures Valid() && nodes == old(nodes) - {node} && node != sentinel
      ensures k < |old(Contents())| && old(Contents())[k] == node
      ensures Contents() == old(Contents())[..k] + old(Contents())[k + 1..]
      ensures Logarithmic(turns, |old(Contents())|)
    {
      assert node != sentinel;
      ghost var p, t := Locate(Top, shape, node);
      k := |Before(p)| + |Elems(t.l)|;
      WithoutFocus(p, t, k);
      assert old(Contents())[k] == node;
      DepthIsLogarithmic(shape, p, t);
      if node.left == sentinel {
        turns := DeleteOnlyChild(node, node.right, p, t, t.r);
      } else if node.right == sentinel {
        turns := DeleteOnlyChild(node, node.left, p, t, t.l);
      } else {
        turns := DeleteTwoChildren(node, p, t);
      }
    }

    lemma {:induction false} WithoutFocus(p: Path, t: Tree, k: nat)
      requires t.Branch? && Plug(p, t) == shape && k == |Before(p)| + |Elems(t.l)|
      ensures k < |Contents()| && Contents()[k] == t.n
      ensures Contents()[..k] + Contents()[k + 1..] == Before(p) + Elems(t.l) + Elems(t.r) + After(p)
    {
      assert Elems(t) == Elems(t.l) + [t.n] + Elems(t.r);
      hide Plug, Elems, Before, After;
      PlugElems(p, t);
      CutOut(Before(p), Elems(t.l), t.n, Elems(t.r), After(p));
    }

    method DeleteOnlyChild(node: Node, temp: Node, ghost p: Path, ghost t: Tree, ghost child: Tree) returns (ghost turns: nat)
      requires Descending(p, t) && !sentinel.red && OnlyChild(t, child) && t.n == node && temp == PtrTo(child, sentinel)
      modifies this`root, this`nodes, this`shape, sentinel`red, sentinel`parent
      modifies nodes`left, nodes`right, nodes`parent, nodes`red
      ensures Valid() && nodes == old(nodes) - {node}
      ensures Contents() == Before(p) + Elems(t.l) + Elems(t.r) + After(p) && turns <= Depth(p)
    {
      RemovedColours(p, t, child);
      turns := 0;
      OnlyChildElems(p, t, child);
      RootIsTop(p, t);
      if node == root {
        MoveChildToRoot(node, temp, t, child);
      } else {
        turns := UnlinkAndFinish(node, temp, p, t, child);
      }
    }

    method UnlinkAndFinish(node: Node, temp: Node, ghost p: Path, ghost t: Tree, ghost child: Tree) returns (ghost turns: nat)
      requires Rep(p, t) && !sentinel.red && OnlyChild(t, child) && t.n == node && temp == PtrTo(child, sentinel)
      requires !p.Top? && if t.red then RedBlack(Plug(p, child)) else ShortFocus(p, child)
      modifies this`root, this`nodes, this`shape, sentinel`red, sentinel`parent
      modifies nodes`left, nodes`right, nodes`parent, nodes`red
      ensures Valid() && nodes == old(nodes) - {node} && Contents() == Elems(Plug(p, child)) && turns <= Depth(p)
    {
      var red := node.red;
      Unlink(node, temp, p, t, child);
      turns := FinishDelete(red, temp, p, child);
    }

    lemma {:induction false} OnlyChildElems(p: Path, t: Tree, child: Tree)
      requires OnlyChild(t, child)
      ensures Elems(Plug(p, child)) == Before(p) + Elems(t.l) + Elems(t.r) + After(p)
    {
      PlugElems(p, child);
      assert Elems(child) == Elems(t.l) + Elems(t.r);
    }

    /** The node to delete is the root and has at most one child. */
    method MoveChildToRoot(node: Node, temp: Node, ghost t: Tree, ghost child: Tree)
      requires Rep(Top, t) && RedBlack(t) && OnlyChild(t, child) && t.n == node && temp == PtrTo(child, sentinel)
      requires !sentinel.red
      modifies this`root, this`nodes, this`shape, temp`red
      ensures Valid() && nodes == old(nodes) - {node} && Contents() == Elems(child)
    {
      RemovedColours(Top, t, child);
      ghost var m := Memory();
      root := temp;
      nodes := Nodes(child);
      SpliceRep(m, Memory(), Top, t, child, node, root, sentinel);
      assert Rep(Top, child);
      BlackenTemp(temp, Top, child);
    }

    method FinishDelete(red: bool, temp: Node, ghost p: Path, ghost child: Tree) returns (ghost turns: nat)
      requires Rep(p, child) && temp == PtrTo(child, sentinel) && !p.Top? && temp.parent == p.n && !sentinel.red
      requires if red then RedBlack(Plug(p, child)) else ShortFocus(p, child)
      modifies this`root, this`shape, sentinel`red, nodes`left, nodes`right, nodes`parent, nodes`red
      ensures Valid() && Contents() == Elems(Plug(p, child)) && turns <= Depth(p)
    {
      turns := 0;
      if red {
        WholeRep(p, child);
        shape := Plug(p, child);
      } else {
        turns := DeleteFix(temp, p, child);
      }
    }

    method DeleteTwoChildren(node: Node, ghost p: Path, ghost t: Tree) returns (ghost turns: nat)
      requires Descending(p, t) && !sentinel.red && t.Branch? && t.n == node && t.l.Branch? && t.r.Branch?
      modifies this`root, this`nodes, this`shape, sentinel`red, sentinel`parent
      modifies nodes`left, nodes`right, nodes`parent, nodes`red
      ensures Valid() && nodes == old(nodes) - {node}
      ensures Contents() == Before(p) + Elems(t.l) + Elems(t.r) + After(p)
      ensures turns <= Depth(p) + Height(t)
    {
      hide PathLinked, Before, Depth, Height, RedBlack, ShortFocus;
      var subst, temp, red;
      ghost var m, u;
      subst, temp, red, m, u := Successor(node, p, t);
      ghost var p' := ReplaceBySuccessor(node, subst, temp, p, t, m, u);
      turns := FinishDelete(red, temp, p', u.r);
    }

    /** The leftmost node to the right of `node`, its only child and its colour; and what the tree
        will be when it has taken over the place of `node`. */
    method Successor(node: Node, ghost p: Path, ghost t: Tree)
        returns (subst: Node, temp: Node, red: bool, ghost m: Path, ghost u: Tree)
      requires Descending(p, t) && t.Branch? && t.n == node && t.l.Branch? && t.r.Branch?
      ensures Plug(m, u) == t.r && u.Branch? && u.l.Leaf? && u.n == subst
      ensures temp == PtrTo(u.r, sentinel) && red == u.red && (temp == sentinel || temp in nodes)
      ensures var p' := Append(m, InRight(p, t.l, subst, t.red));
        && (if red then RedBlack(Plug(p', u.r)) else ShortFocus(p', u.r))
        && Elems(Plug(p', u.r)) == Before(p) + Elems(t.l) + Elems(t.r) + After(p)
        && Depth(p') <= Depth(p) + Height(t)
    {
      hide Before, Depth, Height, RedBlack, ShortFocus;
      DownRight(p, t);
      subst, m, u := Min(node.right, InRight(p, t.l, node, t.red), t.r);
      var left, right := subst.left, subst.right;
      var child := if left != sentinel then left else right;
      temp, red := child, subst.red;
      SuccessorColours(p, t, m, u);
      SuccessorElems(p, t, m, u);
      SuccessorDepth(p, t, m, u, subst);
    }

    lemma {:induction false} SuccessorColours(p: Path, t: Tree, m: Path, u: Tree)
      requires t.Branch? && Coloured(t) && PathColoured(p, BlackHeight(t)) && (Red(t) ==> !p.Top? && !HolderRed(p))
      requires Plug(m, u) == t.r && u.Branch? && u.l.Leaf?
      ensures var p' := Append(m, InRight(p, t.l, u.n, t.red));
        if u.red then RedBlack(Plug(p', u.r)) else ShortFocus(p', u.r)
    {
      var base := InRight(p, t.l, t.n, t.red);
      UnplugColoured(m, base, u);
      AppendColoured(m, p, t.l, t.n, u.n, t.red, BlackHeight(u));
      RemovedColours(Append(m, InRight(p, t.l, u.n, t.red)), u, u.r);
    }

    lemma {:induction false} SuccessorElems(p: Path, t: Tree, m: Path, u: Tree)
      requires t.Branch? && Plug(m, u) == t.r && Spine(m) && u.Branch? && u.l.Leaf?
      ensures Elems(Plug(Append(m, InRight(p, t.l, u.n, t.red)), u.r)) == Before(p) + Elems(t.l) + Elems(t.r) + After(p)
    {
      var base := InRight(p, t.l, u.n, t.red);
      PlugElems(m, u);
      SpineElems(m, base);
      PlugElems(Append(m, base), u.r);
      Regroup(Before(p) + Elems(t.l), u.n, Elems(u.r), After(m), After(p));
    }

    // -------------------------------------------------------------- search

    /** ngx_rbtree_min on the whole tree */
    method First() returns (first: Node)
      requires Valid() && root != sentinel
      ensures Contents() != [] && first == Contents()[0]
      ensures insert == ByKey && Ascends(ByKey, Labels(Contents())) ==> forall n :: n in nodes ==> first.key <= n.key
    {
      ghost var m, u;
      first, m, u := Min(root, Top, shape);
      ElemsAreNodes(shape);
      if insert == ByKey && Ascends(ByKey, Labels(Contents())) {
        FirstIsLeast(Contents());
      }
    }

    static lemma {:induction false} FirstIsLeast(s: seq<Node>)
      requires s != [] && Ascends(ByKey, Labels(s))
      ensures forall n :: n in s ==> s[0].key <= n.key
    {
      forall n | n in s ensures s[0].key <= n.key {
        var i :| 0 <= i < |s| && s[i] == n;
        assert Labels(s)[0] == LabelOf(s[0]) && Labels(s)[i] == LabelOf(n);
        assert i > 0 ==> InOrder(ByKey, Labels(s)[0], Labels(s)[i]);
      }
    }

    /** ngx_open_file_lookup: descends like the file cache's insert function. */
    method Lookup(hash: Key, name: seq<nat>) returns (found: Node?)
      requires Valid() && Ascends(ByKeyAndName, Labels(Contents()))
      ensures found != null ==> found in nodes && LabelOf(found) == Label(hash, name)
      ensures found == null ==> Label(hash, name) !in Labels(Contents())
    {
      hide SortedBy, Ascends, NameLess, InReach;
      SortedAscends(ByKeyAndName, Labels(Contents()));
      var node := root;
      ghost var q, t := Top, shape;
      ghost var labels, x := Labels(Contents()), Label(hash, name);
      assert InReach(labels, Top, shape, x) by {
        WholeInReach(x);
      }
      while node != sentinel
        invariant Descending(q, t) && PtrTo(t, sentinel) == node && labels == Labels(Contents())
        invariant InReach(labels, q, t, x)
        decreases t
      {
        var left := hash < node.key || (hash == node.key && NameLess(name, node.name));
        LookupStep(labels, q, t, hash, name, left);
        Descend(q, t);
        if hash == node.key && name == node.name {
          return node;
        }
        if left {
          node := node.left;
          q, t := InLeft(q, t.n, t.red, t.r), t.l;
        } else {
          node := node.right;
          q, t := InRight(q, t.l, t.n, t.red), t.r;
        }
      }
      NothingInReach(labels, q, x);
      return null;
    }

    /** If the label is in the tree at all, then in the focused subtree. */
    ghost predicate InReach(labels: seq<Label>, q: Path, t: Tree, x: Label) {
      OnlyWithin(labels, |Before(q)|, |Before(q)| + |Elems(t)|, x)
    }

    lemma WholeInReach(x: Label)
      ensures InReach(Labels(Contents()), Top, shape, x)
    {
    }

    lemma NothingInReach(labels: seq<Label>, q: Path, x: Label)
      requires InReach(labels, q, Leaf, x)
      ensures x !in labels
    {
    }

    /** A comparison with the focused node leaves one side to search. */
    lemma {:induction false} LookupStep(labels: seq<Label>, q: Path, t: Tree, hash: Key, name: seq<nat>, left: bool)
      requires t.Branch? && Plug(q, t) == shape && labels == Labels(Contents()) && SortedBy(ByKeyAndName, labels)
      requires InReach(labels, q, t, Label(hash, name))
      requires left <==> Less(ByKeyAndName, Label(hash, name), LabelOf(t.n))
      ensures left ==> InReach(labels, InLeft(q, t.n, t.red, t.r), t.l, Label(hash, name))
      ensures !left && Label(hash, name) != LabelOf(t.n) ==>
                InReach(labels, InRight(q, t.l, t.n, t.red), t.r, Label(hash, name))
    {
      hide Nodes, Labels;
      hide Plug, SortedBy, NameLess, OnlyWithin, Before, Elems;
      FocusLabel(labels, q, t);
      SearchStep(labels, |Before(q)|, |Before(q)| + |Elems(t.l)|, |Before(q)| + |Elems(t)|, hash, name, t.n.key, t.n.name);
    }

    lemma {:induction false} FocusLabel(labels: seq<Label>, q: Path, t: Tree)
      requires t.Branch? && Plug(q, t) == shape && labels == Labels(Contents())
      ensures var i, m, j := |Before(q)|, |Before(q)| + |Elems(t.l)|, |Before(q)| + |Elems(t)|;
        && i <= m < j <= |labels| && labels[m] == LabelOf(t.n)
        && |Before(InLeft(q, t.n, t.red, t.r))| == i
        && |Before(InRight(q, t.l, t.n, t.red))| == m + 1 && m + 1 + |Elems(t.r)| == j
    {
      FocusIndex(q, t);
      assert Contents()[|Before(q)| + |Elems(t.l)|] == t.n;
    }
  }
}
