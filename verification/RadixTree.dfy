/** The radix tree of ngx_radix_tree.c: insertion, deletion and search over linked nodes with
    parent pointers and a free list. */
module RadixTree {
  import opened RadixShape

  datatype Code = Ok | Busy | Error

  class RadixTree {
    const root: Node
    var free: Node?
    var room: nat                     // nodes that the pool can still give
    ghost var nodes: map<Bits, Node>  // the tree
    ghost var spare: seq<Node>        // the free list
    ghost var all: set<Node>          // every node ever allocated

    ghost function Memory(): Memory
      reads `all, all`right, all`left, all`parent, all`value
    {
      map n | n in all :: Cell(n.right, n.left, n.parent, n.value)
    }

    ghost predicate Valid()
      reads this, all
    {
      Sound(Memory(), nodes, root, free, spare, all, {})
    }

    /** Valid but for the node p, which is in nobody's hands but the caller's. */
    ghost predicate Holding(p: Node)
      reads this, all
    {
      Sound(Memory(), nodes, root, free, spare, all, {p})
    }

    ghost function Stored(): map<Bits, nat>
      requires InMemory(Memory(), nodes)
      reads this, all
    {
      Contents(Memory(), nodes)
    }

    /** How many nodes ngx_radix_alloc can still give. */
    ghost function Supply(): nat
      reads `spare, `room
    {
      |spare| + room
    }

    /** ngx_radix_tree_create with preallocate 0, once the root has been allocated. */
    constructor (room: nat)
      ensures Valid() && Pruned(Memory(), nodes) && Stored() == map[]
      ensures fresh(all) && nodes == map[[] := root] && Supply() == room
    {
      var r := new Node();
      r.right, r.left, r.parent, r.value := null, null, null, None;
      root := r;
      free := null;
      this.room := room;
      nodes, spare, all := map[[] := r], [], {r};
      new;
      var m := Memory();
      forall p, b | p in nodes ensures KidFits(m, nodes, p, b) {
      }
      assert Shape(m, nodes);
    }

    // -------------------------------------------------------------- the free list

    /** A node off the free list. */
    method TakeSpare() returns (p: Node)
      requires Valid() && free != null
      modifies `free, `spare
      ensures Holding(p) && p in all && Supply() == old(Supply()) - 1
      ensures SameCells(old(Memory()), Memory(), nodes)
    {
      hide Shape, SpareList, Separate;
      SoundCells(Memory(), nodes, root, free, spare, all);
      SpareSound(Memory(), nodes, root, free, spare, all);
      p := free;
      free := free.right;
      spare := spare[1..];
    }

    /** A node out of the memory of the pool. */
    method NewNode() returns (p: Node)
      requires Valid() && room > 0
      modifies `room, `all
      ensures fresh(p) && all == old(all) + {p} && Holding(p) && room == old(room) - 1
      ensures Stored() == old(Stored()) && SameCells(old(Memory()), Memory(), nodes)
    {
      hide Shape, SpareList, Separate, Contents;
      room := room - 1;
      p := new Node();
      ghost var m := Memory();
      all := all + {p};
      assert Memory() == m[p := Memory()[p]];
      NewSound(m, nodes, root, free, spare, all - {p}, p, Memory()[p]);
      assert all - {p} + {p} == all;
    }

    /** ngx_radix_alloc: a node off the free list, or a new one while the pool has room. */
    method Alloc() returns (p: Node?)
      requires Valid()
      modifies `free, `room, `spare, `all
      ensures p == null <==> old(Supply()) == 0
      ensures Supply() == if p == null then 0 else old(Supply()) - 1
      ensures p == null ==> Valid() && all == old(all)
      ensures p != null ==> Holding(p) && (p in old(all) || fresh(p)) && all == old(all) + {p}
      ensures InMemory(Memory(), nodes) && Stored() == old(Stored())
      ensures SameCells(old(Memory()), Memory(), nodes)
    {
      hide Shape, SpareList, Separate, Contents;
      SoundShape(Memory(), nodes, root, free, spare, all, {});
      SpareThere(Memory(), nodes, root, free, spare, all);
      if free != null {
        p := TakeSpare();
      } else if room == 0 {
        p := null;
      } else {
        p := NewNode();
      }
      SoundShape(Memory(), nodes, root, free, spare, all, if p == null then {} else {p});
    }

    // -------------------------------------------------------------- insertion

    /** The lines that hang a fresh node below another. */
    method Hang(node: Node, b: bool, next: Node, ghost p: Bits)
      requires node in all && next in all && next != node
      modifies `nodes, next, node
      ensures nodes == old(nodes)[Down(p, b) := next] && all == old(all)
      ensures Memory() == Added(old(Memory()), node, b, next)
    {
      next.right := null;
      next.left := null;
      next.parent := node;
      next.value := None;
      if b {
        node.right := next;
      } else {
        node.left := next;
      }
      nodes := nodes[Down(p, b) := next];
    }

    /** A node is allocated and hung below `node`, or memory runs out. */
    method Grow(node: Node, b: bool, ghost p: Bits) returns (next: Node?)
      requires Valid() && p in nodes && node == nodes[p] && Down(p, b) !in nodes && |p| < 32
      modifies this, all
      ensures Valid() && InMemory(Memory(), nodes) && Stored() == old(Stored())
      ensures old(all) <= all && fresh(all - old(all))
      ensures next == null <==> old(Supply()) == 0
      ensures Supply() == if next == null then 0 else old(Supply()) - 1
      ensures next == null ==> nodes == old(nodes)
      ensures next != null ==> nodes == old(nodes)[Down(p, b) := next] && Leaf(nodes, Down(p, b))
      ensures next != null && old(PrunedBut(Memory(), nodes, p)) ==> PrunedBut(Memory(), nodes, Down(p, b))
      ensures next == null && old(PrunedBut(Memory(), nodes, p)) ==> PrunedBut(Memory(), nodes, p)
    {
      hide Leaf, Added;
      hide Sound, Contents, PrunedBut;
      next := Alloc();
      if next == null {
        return;
      }
      ghost var m, nodes0 := Memory(), nodes;
      SoundAdd(m, nodes0, root, free, spare, all, next, p);
      Hang(node, b, next, p);
      HangSound(m, nodes0, root, free, spare, all, next, p, b);
      if old(PrunedBut(Memory(), nodes, p)) {
        PrunedFrame(old(Memory()), m, nodes0, p);
        AddPruned(m, nodes0, p, b, next);
      }
    }

    /** The way down as far as the tree goes along the prefix. */
    method Descend(key: Word, mask: Word) returns (node: Node, next: Node?, d: nat)
      requires Valid()
      ensures d <= Lead(mask) && key[..d] in nodes && node == nodes[key[..d]] && node in all
      ensures next != null ==> d == Lead(mask)
      ensures next == null ==> d < Lead(mask) && Down(key[..d], key[d]) !in nodes
    {
      hide Sound;
      ghost var m := Memory();
      d, node, next := 0, root, root;
      RootThere(m, nodes, root, free, spare, all);
      while d < 32 && mask[d]
        invariant d <= 32 && key[..d] in nodes && node == nodes[key[..d]] && next != null && node in all
        invariant forall k :: 0 <= k < d ==> mask[k]
      {
        KidOf(m, nodes, root, free, spare, all, key[..d], key[d]);
        assert key[..d + 1] == Down(key[..d], key[d]);
        next := if key[d] then node.right else node.left;
        if next == null {
          LeadBeyond(mask, d);
          return;
        }
        d := d + 1;
        node := next;
      }
      LeadIs(mask, d);
    }

    static lemma {:induction false} LeadBeyond(mask: Word, d: nat)
      requires d < 32 && forall k :: 0 <= k <= d ==> mask[k]
      ensures d < Lead(mask)
    {
    }

    static lemma {:induction false} LeadIs(mask: Word, d: nat)
      requires d <= 32 && (forall k :: 0 <= k < d ==> mask[k]) && (d < 32 ==> !mask[d])
      ensures d == Lead(mask)
    {
    }

    method SetNodeValue(node: Node, v: Option, ghost p: Bits)
      requires Valid() && p in nodes && node == nodes[p]
      modifies node`value
      ensures Valid() && InMemory(old(Memory()), nodes) && InMemory(Memory(), nodes)
      ensures Stored() == if v.Some? then old(Stored())[p := v.v] else old(Stored()) - {p}
      ensures v.Some? && old(PrunedBut(Memory(), nodes, p)) ==> Pruned(Memory(), nodes)
    {
      hide Contents, PrunedBut, Pruned, Shape, SpareList, Separate;
      ghost var m := Memory();
      ValueSound(m, nodes, root, free, spare, all, p, v);
      ValueCell(m, nodes, root, free, spare, all, p);
      node.value := v;
      assert Memory() == Valued(m, node, v);
      if v.Some? && old(PrunedBut(Memory(), nodes, p)) {
        ValuePruned(m, nodes, p, v);
      }
    }

    /** The same for the next bit of a key. */
    method GrowAlong(node: Node, key: Word, e: nat) returns (next: Node?)
      requires Valid() && e < 32 && key[..e] in nodes && node == nodes[key[..e]] && Down(key[..e], key[e]) !in nodes
      modifies this, all
      ensures Valid() && InMemory(Memory(), nodes) && Stored() == old(Stored())
      ensures old(all) <= all && fresh(all - old(all))
      ensures next == null <==> old(Supply()) == 0
      ensures Supply() == if next == null then 0 else old(Supply()) - 1
      ensures next == null ==> nodes == old(nodes)
      ensures next != null ==> key[..e + 1] in nodes && nodes[key[..e + 1]] == next && Leaf(nodes, key[..e + 1])
      ensures next != null && e + 1 < 32 ==> Down(key[..e + 1], key[e + 1]) !in nodes
      ensures old(PrunedBut(Memory(), nodes, key[..e])) ==>
                PrunedBut(Memory(), nodes, key[..if next == null then e else e + 1])
    {
      hide Sound, Contents, PrunedBut, Leaf;
      assert key[..e + 1] == Down(key[..e], key[e]);
      next := Grow(node, key[e], key[..e]);
      if next != null && e + 1 < 32 {
        LeafHasNoKid(nodes, key[..e + 1], key[e + 1]);
      }
    }

    /** New nodes for the rest of the prefix; null if memory runs out on the way. */
    method GrowChain(from: Node, d0: nat, key: Word, mask: Word) returns (node: Node?, ghost d: nat)
      requires Valid() && d0 < Lead(mask) && key[..d0] in nodes && from == nodes[key[..d0]]
      requires Down(key[..d0], key[d0]) !in nodes
      modifies this, all
      ensures Valid() && InMemory(Memory(), nodes) && Stored() == old(Stored())
      ensures old(all) <= all && fresh(all - old(all))
      ensures d0 <= d <= Lead(mask) && key[..d] in nodes && (d == d0 ==> nodes == old(nodes))
      ensures d > d0 ==> Leaf(nodes, key[..d])
      ensures old(PrunedBut(Memory(), nodes, key[..d0])) ==> PrunedBut(Memory(), nodes, key[..d])
      ensures node != null ==> d == Lead(mask) && node == nodes[key[..d]]
      ensures node == null <==> old(Supply()) < Lead(mask) - d0
      ensures d == if node == null then d0 + old(Supply()) else Lead(mask)
      ensures Supply() == old(Supply()) - (d - d0)
    {
      hide Sound, Contents, PrunedBut, Leaf;
      SoundShape(Memory(), nodes, root, free, spare, all, {});
      node := from;
      var e := d0;
      d := d0;
      while e < 32 && mask[e]
        invariant d0 <= e <= Lead(mask) && d == e
        invariant Valid() && InMemory(Memory(), nodes) && Stored() == old(Stored())
        invariant old(all) <= all && fresh(all - old(all))
        invariant key[..e] in nodes && node == nodes[key[..e]] && (e == d0 ==> nodes == old(nodes))
        invariant e > d0 ==> Leaf(nodes, key[..e])
        invariant e < 32 ==> Down(key[..e], key[e]) !in nodes
        invariant Supply() == old(Supply()) - (e - d0)
        invariant old(PrunedBut(Memory(), nodes, key[..d0])) ==> PrunedBut(Memory(), nodes, key[..e])
      {
        var next := GrowAlong(node, key, e);
        if next == null {
          node := null;
          return;
        }
        e := e + 1;
        d := e;
        node := next;
      }
    }

    static lemma LeafHasNoKid(nodes: map<Bits, Node>, p: Bits, b: bool)
      requires Leaf(nodes, p)
      ensures Down(p, b) !in nodes
    {
    }

    /** ngx_radix32tree_insert: busy exactly if the prefix is stored already; otherwise it is stored,
        unless it needs more nodes than there are.  Then nothing is stored, but all nodes there were
        hang along the prefix, without a value: a pruned tree stays pruned exactly if there were
        enough of them, or none. */
    method Insert(key: Word, mask: Word, value: nat) returns (rc: Code)
      requires Valid()
      modifies this, all
      ensures Valid() && InMemory(old(Memory()), old(nodes)) && InMemory(Memory(), nodes)
      ensures rc == Busy <==> Prefix(key, mask) in old(Stored())
      ensures Stored() == if rc == Ok then old(Stored())[Prefix(key, mask) := value] else old(Stored())
      ensures rc == Error <==> Missing(old(nodes), Prefix(key, mask)) > old(Supply())
      ensures Supply() == if rc == Error then 0 else old(Supply()) - Missing(old(nodes), Prefix(key, mask))
      ensures old(all) <= all && fresh(all - old(all))
      ensures old(Pruned(Memory(), nodes)) ==>
                (Pruned(Memory(), nodes) <==> Missing(old(nodes), Prefix(key, mask)) <= old(Supply()) || old(Supply()) == 0)
      ensures rc == Error && old(Supply()) > 0 ==>
                var e := Lead(mask) - Missing(old(nodes), Prefix(key, mask)) + old(Supply());
                0 <= e <= Lead(mask) && key[..e] in nodes && Leaf(nodes, key[..e])
    {
      hide Sound, Contents, Pruned, PrunedBut, Leaf, Missing;
      ghost var m, nodes0 := Memory(), nodes;
      SoundShape(m, nodes, root, free, spare, all, {});
      var node, next, d := Descend(key, mask);
      InContents(m, nodes, Prefix(key, mask));
      PrunedImplies(m, nodes, key[..d]);
      MissingFrom(m, nodes, root, free, spare, all, key, d, Lead(mask));
      if next != null {
        if node.value.Some? {
          return Busy;
        }
        SetNodeValue(node, Some(value), key[..d]);
        return Ok;
      }
      Beyond(m, nodes, root, free, spare, all, key, d);
      var last;
      ghost var e;
      last, e := GrowChain(node, d, key, mask);
      PrunedImplies(Memory(), nodes, key[..e]);
      InContents(m, nodes0, key[..e]);
      if last == null {
        if e > d {
          Unpruned(Memory(), nodes, key[..e]);
        } else {
          SamePruned(m, Memory(), nodes);
        }
        return Error;
      }
      SetNodeValue(last, Some(value), key[..e]);
      rc := Ok;
    }

    // -------------------------------------------------------------- deletion

    /** The way down the whole prefix; null if the tree does not go that far. */
    method Locate(key: Word, mask: Word) returns (node: Node?)
      requires Valid()
      ensures node == NodeAt(nodes, Prefix(key, mask))
      ensures node != null ==> node in all
    {
      hide Sound;
      ghost var m := Memory();
      RootThere(m, nodes, root, free, spare, all);
      var d := 0;
      node := root;
      while node != null && d < 32 && mask[d]
        invariant d <= 32 && node == NodeAt(nodes, key[..d]) && (node != null ==> node in all)
        invariant forall k :: 0 <= k < d ==> mask[k]
        invariant node == null ==> 0 < d && key[..d - 1] in nodes
      {
        KidOf(m, nodes, root, free, spare, all, key[..d], key[d]);
        assert key[..d + 1] == Down(key[..d], key[d]);
        node := if key[d] then node.right else node.left;
        d := d + 1;
      }
      if node == null {
        assert key[..d] == Down(key[..d - 1], key[d - 1]);
        Beyond(m, nodes, root, free, spare, all, key, d - 1);
        LeadAtLeast(mask, d);
      } else {
        LeadIs(mask, d);
      }
    }

    static lemma {:induction false} LeadAtLeast(mask: Word, d: nat)
      requires d <= 32 && forall k :: 0 <= k < d ==> mask[k]
      ensures d <= Lead(mask)
    {
    }

    /** A leaf goes to the free list; the result is its parent. */
    method UnlinkLeaf(node: Node, ghost p: Bits, ghost b: bool) returns (parent: Node)
      requires Valid() && p in nodes && Down(p, b) in nodes && Leaf(nodes, Down(p, b)) && node == nodes[Down(p, b)]
      requires node in all
      modifies `nodes, `free, `spare, all`right, all`left
      ensures Valid() && nodes == old(nodes) - {Down(p, b)} && p in nodes && parent == nodes[p] && parent in all
      ensures InMemory(old(Memory()), old(nodes)) && InMemory(Memory(), nodes)
      ensures Stored() == old(Stored()) - {Down(p, b)}
      ensures old(PrunedBut(Memory(), nodes, Down(p, b))) ==> PrunedBut(Memory(), nodes, p)
    {
      hide Unlinked, Down;
      hide Sound, Contents, PrunedBut, Leaf, InMemory;
      ghost var m, n, f := Memory(), nodes, free;
      UnlinkPlaces(m, nodes, root, free, spare, all, p, b);
      parent := node.parent;
      Detach(node, parent, b);
      nodes := nodes - {Down(p, b)};
      spare := [node] + spare;
      UnlinkSound(m, n, root, f, old(spare), all, p, b);
      UnlinkPruned(m, n, root, f, old(spare), all, p, b);
    }

    /** The lines that do it. */
    method Detach(node: Node, parent: Node, ghost b: bool)
      requires node in all && parent in all && node != parent && (parent.right == node <==> b)
      modifies `free, node`right, parent`right, parent`left
      ensures Memory() == Unlinked(old(Memory()), parent, b, node, old(free)) && free == node
    {
      if parent.right == node {
        parent.right := null;
      } else {
        parent.left := null;
      }
      node.right := free;
      free := node;
    }

    /** Whether the node is a leaf, as its pointers say. */
    lemma LeafSeen(p: Bits)
      requires Valid() && p in nodes
      ensures nodes[p] in all && InMemory(Memory(), nodes)
      ensures Leaf(nodes, p) <==> nodes[p].right == null && nodes[p].left == null
      ensures p in Stored() <==> nodes[p].value.Some?
      ensures nodes[p].parent == null <==> p == []
    {
      KidOf(Memory(), nodes, root, free, spare, all, p, false);
      KidOf(Memory(), nodes, root, free, spare, all, p, true);
    }

    /** The loop that takes off a leaf and then the ancestors that have become useless. */
    method Prune(leaf: Node, ghost key: Word, ghost d: nat)
      requires Valid() && InMemory(Memory(), nodes) && 0 < d <= 32 && key[..d] in nodes && leaf == nodes[key[..d]]
      requires Leaf(nodes, key[..d])
      modifies `nodes, `free, `spare, all`right, all`left
      ensures Valid() && InMemory(Memory(), nodes) && Stored() == old(Stored()) - {key[..d]}
      ensures old(PrunedBut(Memory(), nodes, key[..d])) ==> Pruned(Memory(), nodes)
    {
      hide Sound, Contents, PrunedBut, Leaf;
      var node := leaf;
      ghost var k := d;
      LeafSeen(key[..k]);
      while true
        invariant 0 < k <= d && key[..k] in nodes && node == nodes[key[..k]] && node in all
        invariant Valid() && InMemory(Memory(), nodes) && Leaf(nodes, key[..k])
        invariant k == d ==> Stored() == old(Stored())
        invariant k < d ==> Stored() == old(Stored()) - {key[..d]} && key[..k] !in Stored()
        invariant old(PrunedBut(Memory(), nodes, key[..d])) ==> PrunedBut(Memory(), nodes, key[..k])
        decreases k
      {
        assert key[..k] == Down(key[..k - 1], key[k - 1]);
        ParentThere(Memory(), nodes, root, free, spare, all, key[..k - 1], key[k - 1]);
        ghost var s := Stored();
        node := UnlinkLeaf(node, key[..k - 1], key[k - 1]);
        assert s - {key[..k]} == old(Stored()) - {key[..d]};
        k := k - 1;
        LeafSeen(key[..k]);
        if node.right != null || node.left != null {
          break;
        }
        if node.value.Some? {
          break;
        }
        if node.parent == null {
          break;
        }
      }
      PrunedAt(Memory(), nodes, key[..k]);
    }

    /** ngx_radix32tree_delete: the prefix is stored no longer; useless nodes go to the free list.
        The answer is "ok" if the prefix was stored, and for a leaf without value, which only an
        insertion that ran out of memory can have left.  The root must not be deleted as a leaf. */
    method Delete(key: Word, mask: Word) returns (rc: Code)
      requires Valid() && (Prefix(key, mask) == [] ==> !Leaf(nodes, []))
      modifies `nodes, `free, `spare, all
      ensures Valid() && InMemory(old(Memory()), old(nodes)) && InMemory(Memory(), nodes)
      ensures Stored() == old(Stored()) - {Prefix(key, mask)}
      ensures rc == if old(Prefix(key, mask) in Stored() || (Prefix(key, mask) in nodes && Leaf(nodes, Prefix(key, mask)))) then Ok else Error
      ensures old(Pruned(Memory(), nodes)) ==> Pruned(Memory(), nodes)
      ensures old(Pruned(Memory(), nodes)) ==> (rc == Ok <==> Prefix(key, mask) in old(Stored()))
    {
      hide Sound, Contents, Pruned, PrunedBut, Leaf;
      ghost var p, m := Prefix(key, mask), Memory();
      SoundShape(m, nodes, root, free, spare, all, {});
      InContents(m, nodes, p);
      PrunedImplies(m, nodes, p);
      var node := Locate(key, mask);
      if node == null {
        return Error;
      }
      LeafSeen(p);
      if node.right != null || node.left != null {
        if node.value.Some? {
          SetNodeValue(node, None, p);
          InnerPruned(m, Memory(), nodes, p);
          return Ok;
        }
        return Error;
      }
      LeafStored(m, nodes, p);
      Prune(node, key, Lead(mask));
      rc := Ok;
    }

    // -------------------------------------------------------------- search

    /** ngx_radix32tree_find: the value of the longest stored prefix of the key. */
    method Find(key: Word) returns (value: Option)
      requires Valid()
      ensures InMemory(Memory(), nodes) && LongestPrefix(Stored(), key, value)
    {
      hide Sound, Contents, Best, LongestPrefix, Shape;
      ghost var m := Memory();
      SoundShape(m, nodes, root, free, spare, all, {});
      RootThere(m, nodes, root, free, spare, all);
      var node: Node? := root;
      var d := 0;
      value := None;
      NothingYet(Stored(), key);
      while node != null
        invariant d <= 33 && value == Best(Stored(), key, d)
        invariant if node == null then d == 33 || key[..d] !in nodes
                  else d <= 32 && key[..d] in nodes && node == nodes[key[..d]] && node in all
        decreases 33 - d
      {
        ValueMet(m, nodes, key, d);
        if node.value.Some? {
          value := node.value;
        }
        if d < 32 {
          KidOf(m, nodes, root, free, spare, all, key[..d], key[d]);
          assert key[..d + 1] == Down(key[..d], key[d]);
          node := if key[d] then node.right else node.left;
        } else {
          KidOf(m, nodes, root, free, spare, all, key[..d], false);
          node := node.left;  // the bit has been shifted out
        }
        d := d + 1;
      }
      ParentsOf(m, nodes, root, free, spare, all);
      NoneBeyond(m, nodes, key, d);
      BestIsLongest(Stored(), key, d);
    }
  }

  /** After a failed insertion a leaf without value is deleted with the answer "ok", although it is
      not stored: here for every key, with room for one node and a prefix of at least two bits. */
  method DeletesWhatIsNotStored(key: Word, mask: Word, first: Word, value: nat)
      returns (inserted: Code, ghost stored: map<Bits, nat>, deleted: Code)
    requires Lead(mask) >= 2 && Lead(first) == 1
    ensures inserted == Error && stored == map[] && deleted == Ok
  {
    hide Sound, Contents, Pruned, PrunedBut, Leaf, Missing;
    var tree := new RadixTree(1);
    ghost var p := Prefix(key, mask);
    MissingAll(tree.nodes, p);
    inserted := tree.Insert(key, mask, value);
    stored := tree.Stored();
    deleted := tree.Delete(key, first);
  }
}
