/** When the open file cache is in order: tree, queue, counters, descriptors and users agree. */
module FileCacheInvariant {
  import opened OpenFileCache

  type Files = map<Id, File>
  type Tree = map<Name, Id>

  // ---------------------------------------------------------------- the invariant

  /** The tree holds node `i`, under its own name. */
  predicate Linked(files: Files, tree: Tree, i: Id) {
    i in files && files[i].name in tree && tree[files[i].name] == i
  }

  /** A linked node that caches an error or a directory has no descriptor and no users; an
      orphan lives only because it has users. */
  predicate NodeOk(f: File, linked: bool) {
    if linked then
      && f.count >= 0
      && (f.err == 0 ==> !f.close)
      && (f.err != 0 || f.isDir ==> f.count == 0 && f.fd == INVALID_FILE)
      && (f.fd == INVALID_FILE ==> f.count == 0)
    else
      f.close && f.err == 0 && !f.isDir && f.count > 0 && f.fd != INVALID_FILE
  }

  ghost predicate NodesOk(files: Files, tree: Tree) {
    forall i :: i in files ==> NodeOk(files[i], Linked(files, tree, i))
  }

  ghost predicate TreeOk(files: Files, tree: Tree) {
    forall n :: n in tree ==> tree[n] in files && files[tree[n]].name == n
  }

  ghost predicate NoDup(q: seq<Id>) {
    forall a, b :: 0 <= a < b < |q| ==> q[a] != q[b]
  }

  /** The queue links exactly the nodes of the tree, once each, except those in `out`, which an
      operation has taken off it; `current` counts the tree. */
  ghost predicate QueueOk(files: Files, tree: Tree, q: seq<Id>, current: int, out: set<Id>) {
    && NoDup(q)
    && (forall i :: i in q ==> Linked(files, tree, i) && i !in out)
    && (forall i :: Linked(files, tree, i) && i !in out ==> i in q)
    && (forall i :: i in out ==> Linked(files, tree, i))
    && current == |q| + |out|
  }

  ghost predicate Owns(files: Files, i: Id, fd: int) {
    i in files && files[i].fd == fd
  }

  ghost predicate Owned(files: Files, fd: int) {
    exists i :: Owns(files, i, fd)
  }

  /** Every open descriptor has exactly one owner: a node, or the operation under way, which has
      those in `hand`. */
  ghost predicate FdsOk(files: Files, fds: set<int>, hand: set<int>) {
    && INVALID_FILE !in fds
    && hand <= fds
    && (forall i :: i in files && files[i].fd != INVALID_FILE ==> files[i].fd in fds && files[i].fd !in hand)
    && (forall i, j :: i in files && j in files && files[i].fd == files[j].fd != INVALID_FILE ==> i == j)
    && (forall fd :: fd in fds && fd !in hand ==> Owned(files, fd))
  }

  /** The registered cleanups of node `i` are as many as its count, and all for its descriptor. */
  ghost predicate ClaimsOk(files: Files, claims: multiset<Claim>) {
    forall i: Id, fd: int {:trigger claims[Claim(i, fd)]} ::
      claims[Claim(i, fd)] == if Owns(files, i, fd) then files[i].count else 0
  }

  ghost predicate Inv(c: Cache, out: set<Id>, hand: set<int>) {
    match c
    case Cache(files, tree, queue, current, _, _, fds, claims, ok) =>
      && ok
      && TreeOk(files, tree)
      && NodesOk(files, tree)
      && QueueOk(files, tree, queue, current, out)
      && FdsOk(files, fds, hand)
      && ClaimsOk(files, claims)
  }

  /** Most recently used first, and nothing used after time `t`. */
  ghost predicate Ordered(files: Files, q: seq<Id>, t: int) {
    && (forall a :: 0 <= a < |q| ==> q[a] in files && files[q[a]].accessed <= t)
    && (forall a, b :: 0 <= a < b < |q| ==> files[q[a]].accessed >= files[q[b]].accessed)
  }

  /** A cache between two operations, at a time not before `t`. */
  ghost predicate Valid(c: Cache, t: int) {
    Inv(c, {}, {}) && Ordered(c.files, c.queue, t) && (c.current <= c.max || c.current <= 1)
  }
}
