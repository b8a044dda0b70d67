/** What every operation of the open file cache keeps, and what it must not meet. */
module FileCacheSafety {
  import opened OpenFileCache
  import opened FileCacheInvariant

  // ---------------------------------------------------------------- the queue

  lemma {:induction false} RemovedFrom(q: seq<Id>, id: Id, x: Id)
    requires x in Remove(q, id)
    ensures x in q
  {
    if q[0] != id && x != q[0] {
      RemovedFrom(q[1..], id, x);
    }
  }

  lemma {:induction false} RemoveIsRemoval(q: seq<Id>, id: Id)
    requires NoDup(q) && id in q
    ensures NoDup(Remove(q, id))
    ensures |Remove(q, id)| == |q| - 1
    ensures forall x :: x in Remove(q, id) <==> x in q && x != id
  {
    assert q == [q[0]] + q[1..];
    if q[0] != id {
      RemoveIsRemoval(q[1..], id);
      var r := Remove(q[1..], id);
      assert q[0] !in r;
      assert Remove(q, id) == [q[0]] + r;
    }
  }

  lemma {:induction false} RemoveKeepsOrder(files: Files, q: seq<Id>, id: Id, t: int)
    requires Ordered(files, q, t)
    ensures Ordered(files, Remove(q, id), t)
  {
    if q != [] && q[0] != id {
      RemoveKeepsOrder(files, q[1..], id, t);
      var r := Remove(q[1..], id);
      assert Remove(q, id) == [q[0]] + r;
      forall b | 0 <= b < |r| ensures files[q[0]].accessed >= files[r[b]].accessed {
        RemovedFrom(q[1..], id, r[b]);
      }
    }
  }

  lemma {:induction false} RemoveLast(q: seq<Id>)
    requires NoDup(q) && q != []
    ensures Remove(q, q[|q| - 1]) == q[..|q| - 1]
  {
    if |q| > 1 {
      assert q[1..][|q| - 2] == q[|q| - 1];
      RemoveLast(q[1..]);
      assert q[..|q| - 1] == [q[0]] + q[1..][..|q| - 2];
    }
  }

  lemma UnqueueInv(c: Cache, out: set<Id>, hand: set<int>, id: Id, t: int)
    requires Inv(c, out, hand) && Ordered(c.files, c.queue, t)
    requires Linked(c.files, c.tree, id) && id !in out
    ensures Inv(Unqueue(c, id), out + {id}, hand)
    ensures Ordered(c.files, Unqueue(c, id).queue, t)
  {
    RemoveIsRemoval(c.queue, id);
    RemoveKeepsOrder(c.files, c.queue, id, t);
  }

  lemma UnqueuePut(c: Cache, id: Id, g: File)
    ensures Unqueue(Put(c, id, g), id) == Put(Unqueue(c, id), id, g)
  {
  }

  lemma EnqueueInv(c: Cache, out: set<Id>, hand: set<int>, id: Id, t: int)
    requires Inv(c, out, hand) && id in out && Ordered(c.files, c.queue, t)
    requires c.files[id].accessed == t
    ensures Inv(Enqueue(c, id), out - {id}, hand)
    ensures Ordered(c.files, Enqueue(c, id).queue, t)
  {
    hide NodesOk, FdsOk, TreeOk;
    assert out == (out - {id}) + {id};
  }

  // ---------------------------------------------------------------- changing one node

  /** A node changes nothing but its times, its uses and what it has learnt. */
  predicate SameCore(f: File, g: File) {
    && g.name == f.name && g.fd == f.fd && g.count == f.count
    && g.close == f.close && g.err == f.err && g.isDir == f.isDir
  }

  lemma PutKeepsTree(files: Files, tree: Tree, id: Id, g: File)
    requires id in files && g.name == files[id].name
    ensures forall i :: Linked(files[id := g], tree, i) == Linked(files, tree, i)
    ensures TreeOk(files, tree) ==> TreeOk(files[id := g], tree)
    ensures forall q, current, out :: QueueOk(files, tree, q, current, out) ==> QueueOk(files[id := g], tree, q, current, out)
  {
  }

  lemma PutKeepsFds(files: Files, fds: set<int>, hand: set<int>, id: Id, g: File)
    requires id in files && g.fd == files[id].fd && FdsOk(files, fds, hand)
    ensures FdsOk(files[id := g], fds, hand)
  {
    forall fd | fd in fds && fd !in hand ensures Owned(files[id := g], fd) {
      var i :| Owns(files, i, fd);
      assert Owns(files[id := g], i, fd);
    }
  }

  lemma TouchInv(c: Cache, out: set<Id>, hand: set<int>, id: Id, g: File, t: int)
    requires Inv(c, out, hand) && id in out && SameCore(c.files[id], g)
    requires Ordered(c.files, c.queue, t)
    ensures Inv(Put(c, id, g), out, hand)
    ensures Ordered(Put(c, id, g).files, c.queue, t)
  {
    PutKeepsTree(c.files, c.tree, id, g);
    PutKeepsFds(c.files, c.fds, hand, id, g);
  }

  /** A node is changed and taken off the queue. */
  lemma TakeOffInv(c: Cache, d: Cache, id: Id, g: File, t: int)
    requires Inv(c, {}, {}) && Ordered(c.files, c.queue, t) && Linked(c.files, c.tree, id)
    requires SameCore(c.files[id], g) && d == Unqueue(Put(c, id, g), id)
    ensures Inv(d, {id}, {})
    ensures Ordered(d.files, d.queue, t)
  {
    UnqueuePut(c, id, g);
    UnqueueInv(c, {}, {}, id, t);
    assert {} + {id} == {id};
    TouchInv(Unqueue(c, id), {id}, {}, id, g, t);
  }

  // ---------------------------------------------------------------- nodes that leave

  /** A node off the queue with users leaves the tree and becomes an orphan. */
  function Orphaned(c: Cache, id: Id): Cache
    requires id in c.files
  {
    Put(Unlink(c, id), id, c.files[id].(close := true))
  }

  /** A node off the queue without users leaves the tree, and its descriptor and itself go. */
  function Dropped(c: Cache, id: Id): Cache
    requires id in c.files
  {
    var fd := c.files[id].fd;
    Free(if fd != INVALID_FILE then CloseFd(Unlink(c, id), fd) else Unlink(c, id), id)
  }

  function Departed(c: Cache, id: Id): Cache
    requires id in c.files
  {
    if c.files[id].count == 0 then Dropped(c, id) else Orphaned(c, id)
  }

  lemma OrphanedInv(c: Cache, out: set<Id>, hand: set<int>, id: Id, t: int)
    requires Inv(c, out, hand) && id in out && c.files[id].count != 0
    requires Ordered(c.files, c.queue, t)
    ensures Inv(Orphaned(c, id), out - {id}, hand)
    ensures Ordered(Orphaned(c, id).files, c.queue, t)
  {
    var g := c.files[id].(close := true);
    PutKeepsTree(c.files, c.tree, id, g);
    PutKeepsFds(c.files, c.fds, hand, id, g);
    UnlinkQueue(c.files[id := g], c.tree, c.queue, c.current, out, id);
    OrphanNodes(c.files, c.tree, c.claims, id);
  }

  lemma OrphanNodes(files: Files, tree: Tree, claims: multiset<Claim>, id: Id)
    requires NodesOk(files, tree) && ClaimsOk(files, claims) && Linked(files, tree, id) && files[id].count != 0
    ensures NodesOk(files[id := files[id].(close := true)], tree - {files[id].name})
    ensures ClaimsOk(files[id := files[id].(close := true)], claims)
  {
    UnlinkNodes(files, tree, id);
    PutKeepsTree(files, tree - {files[id].name}, id, files[id].(close := true));
  }

  lemma UnlinkQueue(files: Files, tree: Tree, q: seq<Id>, current: int, out: set<Id>, id: Id)
    requires TreeOk(files, tree) && QueueOk(files, tree, q, current, out) && id in out
    ensures TreeOk(files, tree - {files[id].name})
    ensures QueueOk(files, tree - {files[id].name}, q, current - 1, out - {id})
  {
    assert out == (out - {id}) + {id};
    UnlinkNodes(files, tree, id);
  }

  lemma UnlinkNodes(files: Files, tree: Tree, id: Id)
    requires Linked(files, tree, id)
    ensures forall i :: Linked(files, tree - {files[id].name}, i) == (Linked(files, tree, i) && i != id)
  {
  }

  lemma DroppedInv(c: Cache, out: set<Id>, hand: set<int>, id: Id, t: int)
    requires Inv(c, out, hand) && id in out && c.files[id].count == 0
    requires Ordered(c.files, c.queue, t)
    ensures Inv(Dropped(c, id), out - {id}, hand)
    ensures Ordered(Dropped(c, id).files, c.queue, t)
  {
    hide NodesOk, TreeOk;
    var fd := c.files[id].fd;
    var d := c.(tree := c.tree - {c.files[id].name}, current := c.current - 1,
                files := c.files - {id}, fds := c.fds - {fd});
    assert c.fds - {INVALID_FILE} == c.fds;
    assert Linked(c.files, c.tree, id);
    assert Dropped(c, id) == d;
    UnlinkQueue(c.files, c.tree, c.queue, c.current, out, id);
    assert Inv(d, out - {id}, hand) by {
      UnlinkNodes(c.files, c.tree, id);
      FreeFds(c.files, c.fds, hand, id);
      FreeTree(c.files, d.tree, c.queue, d.current, out - {id}, id);
      FreeNodes(c.files, c.tree, d.tree, c.claims, id);
    }
  }

  lemma FreeNodes(files: Files, tree: Tree, tree': Tree, claims: multiset<Claim>, id: Id)
    requires NodesOk(files, tree) && ClaimsOk(files, claims) && id in files && files[id].count == 0
    requires forall i :: i != id ==> Linked(files, tree', i) == Linked(files, tree, i)
    ensures NodesOk(files - {id}, tree') && ClaimsOk(files - {id}, claims)
  {
  }

  lemma FreeTree(files: Files, tree: Tree, q: seq<Id>, current: int, out: set<Id>, id: Id)
    requires TreeOk(files, tree) && QueueOk(files, tree, q, current, out) && id in files
    requires !Linked(files, tree, id)
    ensures TreeOk(files - {id}, tree) && QueueOk(files - {id}, tree, q, current, out)
    ensures forall i :: Linked(files - {id}, tree, i) == Linked(files, tree, i)
  {
  }

  lemma FreeFds(files: Files, fds: set<int>, hand: set<int>, id: Id)
    requires FdsOk(files, fds, hand) && id in files
    ensures FdsOk(files - {id}, fds - {files[id].fd}, hand)
  {
    forall fd | fd in fds - {files[id].fd} && fd !in hand ensures Owned(files - {id}, fd) {
      var i :| Owns(files, i, fd);
      assert Owns(files - {id}, i, fd);
    }
  }

  lemma DepartedInv(c: Cache, out: set<Id>, hand: set<int>, id: Id, t: int)
    requires Inv(c, out, hand) && id in out && Ordered(c.files, c.queue, t)
    ensures Inv(Departed(c, id), out - {id}, hand)
    ensures Ordered(Departed(c, id).files, c.queue, t)
    ensures Departed(c, id).queue == c.queue && Departed(c, id).current == c.current - 1
  {
    if c.files[id].count == 0 {
      DroppedInv(c, out, hand, id, t);
    } else {
      OrphanedInv(c, out, hand, id, t);
    }
  }

  // ---------------------------------------------------------------- expiring

  /** An eviction takes the node off the queue and lets it depart. */
  lemma EvictIsDeparture(c: Cache, out: set<Id>, hand: set<int>, id: Id, now: int)
    requires Inv(c, out, hand) && id in c.queue
    ensures Evict(c, id, now) == Departed(Unqueue(c, id), id)
  {
    assert Linked(c.files, c.tree, id);
    var f := c.files[id];
    if f.err == 0 && !f.isDir {
      var c1 := Put(Unlink(Unqueue(c, id), id), id, f.(close := true));
      if f.count == 0 && f.fd != INVALID_FILE {
        var c2 := CloseFd(c1, f.fd);
        assert c2.files[id := f.(close := true, fd := INVALID_FILE)] - {id} == c.files - {id};
      } else if f.count == 0 {
        assert c1.files - {id} == c.files - {id};
      }
    }
  }

  lemma EvictInv(c: Cache, out: set<Id>, hand: set<int>, now: int, t: int)
    requires Inv(c, out, hand) && c.queue != [] && Ordered(c.files, c.queue, t)
    ensures c.queue[|c.queue| - 1] in c.files
    ensures var d := Evict(c, c.queue[|c.queue| - 1], now);
            Inv(d, out, hand) && Ordered(d.files, d.queue, t) && d.queue == c.queue[..|c.queue| - 1]
  {
    var id := c.queue[|c.queue| - 1];
    assert Linked(c.files, c.tree, id);
    EvictIsDeparture(c, out, hand, id, now);
    RemoveLast(c.queue);
    UnqueueInv(c, out, hand, id, t);
    DepartedInv(Unqueue(c, id), out + {id}, hand, id, t);
    assert out + {id} - {id} == out;
  }

  /** One cache has nothing that the other has not. */
  predicate Within(d: Cache, c: Cache) {
    d.max == c.max && d.tree.Keys <= c.tree.Keys && d.files.Keys <= c.files.Keys && d.fds <= c.fds
  }

  lemma EvictShrinks(c: Cache, id: Id, now: int)
    requires id in c.files
    ensures Within(Evict(c, id, now), c)
  {
  }

  /** Expiring adds nothing. */
  lemma {:induction false} ExpireShrinks(c: Cache, n: nat, now: int)
    ensures Within(Expire(c, n, now), c)
    decreases 3 - n
  {
    hide Evict;
    if n < 3 && c.queue != [] {
      var id := c.queue[|c.queue| - 1];
      if id in c.files && (n == 0 || now - c.files[id].accessed > c.inactive) {
        EvictShrinks(c, id, now);
        ExpireShrinks(Evict(c, id, now), n + 1, now);
      }
    }
  }

  /** ngx_expire_old_cached_files keeps the invariant; it takes at most 3 - n nodes, all from
      the end of the queue. */
  lemma {:induction false} ExpireInv(c: Cache, out: set<Id>, hand: set<int>, n: nat, now: int, t: int)
    requires Inv(c, out, hand) && Ordered(c.files, c.queue, t)
    ensures var d := Expire(c, n, now);
            Inv(d, out, hand) && Ordered(d.files, d.queue, t) && |d.queue| <= |c.queue|
            && (n == 0 && c.queue != [] ==> |d.queue| < |c.queue|)
    decreases 3 - n
  {
    hide QueueOk, FdsOk, ClaimsOk, NodesOk;
    hide Evict;
    if n < 3 && c.queue != [] {
      EvictInv(c, out, hand, now, t);
      var id := c.queue[|c.queue| - 1];
      if n == 0 || now - c.files[id].accessed > c.inactive {
        var d := Evict(c, id, now);
        ExpireInv(d, out, hand, n + 1, now, t);
        assert Expire(c, n, now) == Expire(d, n + 1, now);
      } else {
        assert Expire(c, n, now) == c;
      }
    }
  }

  // ---------------------------------------------------------------- a user leaves

  lemma ReleasedInv(c: Cache, claim: Claim)
    requires Inv(c, {}, {}) && claim in c.claims
    requires Linked(c.files, c.tree, claim.id) || c.files[claim.id].count > 1
    ensures Owns(c.files, claim.id, claim.fd)
    ensures Inv(Released(c, claim), {}, {})
  {
    hide FdsOk, TreeOk;
    assert c.claims[Claim(claim.id, claim.fd)] > 0;
    var f := c.files[claim.id];
    var g := f.(count := f.count - 1);
    PutKeepsTree(c.files, c.tree, claim.id, g);
    PutKeepsFds(c.files, c.fds, {}, claim.id, g);
    ReleasedClaims(c.files, c.claims, claim);
    PutNodes(c.files, c.tree, claim.id, g);
  }

  lemma PutNodes(files: Files, tree: Tree, id: Id, g: File)
    requires NodesOk(files, tree) && id in files && g.name == files[id].name
    requires NodeOk(g, Linked(files, tree, id))
    ensures NodesOk(files[id := g], tree)
  {
    PutKeepsTree(files, tree, id, g);
  }

  lemma ReleasedClaims(files: Files, claims: multiset<Claim>, claim: Claim)
    requires ClaimsOk(files, claims) && claim in claims && Owns(files, claim.id, claim.fd)
    ensures ClaimsOk(files[claim.id := files[claim.id].(count := files[claim.id].count - 1)], claims - multiset{claim})
  {
    assert claim == Claim(claim.id, claim.fd);
  }

  /** The last user of an orphan takes the orphan and its descriptor along. */
  lemma LastUserInv(c: Cache, claim: Claim, minUses: nat, now: int, t: int)
    requires Inv(c, {}, {}) && claim in c.claims && Ordered(c.files, c.queue, t)
    requires claim.id in c.files && !Linked(c.files, c.tree, claim.id) && c.files[claim.id].count == 1
    ensures var d := CloseCached(Released(c, claim), claim.id, minUses, now);
            Inv(d, {}, {}) && Ordered(d.files, d.queue, t)
            && claim.id !in d.files && claim.fd !in d.fds
  {
    var id, fd := claim.id, claim.fd;
    assert c.claims[Claim(id, fd)] > 0;
    assert Owns(c.files, id, fd);
    var d := c.(files := c.files - {id}, fds := c.fds - {fd}, claims := c.claims - multiset{claim});
    var c2 := CloseFd(Released(c, claim), fd);
    assert c2.files[id := c2.files[id].(fd := INVALID_FILE)] - {id} == d.files;
    assert CloseCached(Released(c, claim), id, minUses, now) == d;
    FreeFds(c.files, c.fds, {}, id);
    FreeTree(c.files, c.tree, c.queue, c.current, {}, id);
    LastClaim(c.files, c.claims, claim);
  }

  lemma LastClaim(files: Files, claims: multiset<Claim>, claim: Claim)
    requires ClaimsOk(files, claims) && Owns(files, claim.id, claim.fd) && files[claim.id].count == 1
    ensures ClaimsOk(files - {claim.id}, claims - multiset{claim})
  {
    assert claims[Claim(claim.id, claim.fd)] == 1;
  }

  /** A linked node without users may lose its descriptor. */
  lemma ShutInv(c: Cache, out: set<Id>, hand: set<int>, id: Id)
    requires Inv(c, out, hand) && Linked(c.files, c.tree, id)
    requires c.files[id].count == 0 && c.files[id].fd != INVALID_FILE
    ensures Inv(Put(CloseFd(c, c.files[id].fd), id, c.files[id].(fd := INVALID_FILE)), out, hand)
  {
    var f := c.files[id];
    var g := f.(fd := INVALID_FILE);
    PutKeepsTree(c.files, c.tree, id, g);
    ShutFds(c.files, c.fds, hand, id);
    ShutClaims(c.files, c.claims, id, g);
  }

  lemma ShutFds(files: Files, fds: set<int>, hand: set<int>, id: Id)
    requires FdsOk(files, fds, hand) && id in files
    ensures FdsOk(files[id := files[id].(fd := INVALID_FILE)], fds - {files[id].fd}, hand)
  {
    var files' := files[id := files[id].(fd := INVALID_FILE)];
    forall fd | fd in fds - {files[id].fd} && fd !in hand ensures Owned(files', fd) {
      var i :| Owns(files, i, fd);
      assert Owns(files', i, fd);
    }
  }

  lemma ShutClaims(files: Files, claims: multiset<Claim>, id: Id, g: File)
    requires ClaimsOk(files, claims) && id in files && files[id].count == g.count == 0
    ensures ClaimsOk(files[id := g], claims)
  {
  }

  /** A linked node that is released moves to the head of the queue. */
  function Moved(c: Cache, id: Id, now: int): Cache
    requires id in c.files
  {
    Enqueue(Unqueue(Put(c, id, c.files[id].(accessed := now)), id), id)
  }

  lemma MovedInv(c: Cache, id: Id, now: int)
    requires Inv(c, {}, {}) && Linked(c.files, c.tree, id) && Ordered(c.files, c.queue, now)
    ensures Inv(Moved(c, id, now), {}, {})
    ensures Ordered(Moved(c, id, now).files, Moved(c, id, now).queue, now)
    ensures Moved(c, id, now).current == c.current
  {
    var g := c.files[id].(accessed := now);
    var c1 := Unqueue(Put(c, id, g), id);
    TakeOffInv(c, c1, id, g, now);
    EnqueueInv(c1, {id}, {}, id, now);
    assert {id} - {id} == {};
  }

  lemma CloseKeepsCount(c: Cache, id: Id, minUses: nat, now: int)
    requires id in c.files
    ensures CloseCached(c, id, minUses, now).current == c.current && CloseCached(c, id, minUses, now).max == c.max
  {
  }

  lemma CloseLinkedInv(c: Cache, id: Id, minUses: nat, now: int)
    requires Inv(c, {}, {}) && Linked(c.files, c.tree, id) && !c.files[id].close
    requires Ordered(c.files, c.queue, now)
    ensures var d := CloseCached(c, id, minUses, now);
            Inv(d, {}, {}) && Ordered(d.files, d.queue, now)
  {
    hide QueueOk, FdsOk, NodesOk, TreeOk;
    MovedInv(c, id, now);
    var c1 := Moved(c, id, now);
    var f := c1.files[id];
    if f.uses < minUses && f.count == 0 && f.fd != INVALID_FILE {
      ShutInv(c1, {}, {}, id);
      assert CloseCached(c, id, minUses, now) == Put(CloseFd(c1, f.fd), id, f.(fd := INVALID_FILE));
    } else {
      assert CloseCached(c, id, minUses, now) == c1;
    }
  }

  /** A node with a cleanup registered is an open file with a user. */
  lemma ClaimantOk(c: Cache, claim: Claim)
    requires Inv(c, {}, {}) && claim in c.claims
    ensures Owns(c.files, claim.id, claim.fd) && c.files[claim.id].count > 0
    ensures c.files[claim.id].close != Linked(c.files, c.tree, claim.id)
    ensures claim.fd in c.fds
  {
    assert c.claims[Claim(claim.id, claim.fd)] > 0;
    assert NodeOk(c.files[claim.id], Linked(c.files, c.tree, claim.id));
  }

  lemma ReleaseAndClose(c: Cache, claim: Claim, minUses: nat, now: int)
    requires Inv(c, {}, {}) && Ordered(c.files, c.queue, now) && claim in c.claims
    ensures claim.id in c.files
    ensures var d := CloseCached(Released(c, claim), claim.id, minUses, now);
            Inv(d, {}, {}) && Ordered(d.files, d.queue, now)
  {
    hide QueueOk, FdsOk, ClaimsOk, NodesOk, TreeOk;
    var id := claim.id;
    ClaimantOk(c, claim);
    if Linked(c.files, c.tree, id) {
      ReleasedInv(c, claim);
      CloseLinkedInv(Released(c, claim), id, minUses, now);
    } else if c.files[id].count > 1 {
      ReleasedInv(c, claim);
    } else {
      LastUserInv(c, claim, minUses, now, now);
    }
  }

  /** ngx_open_file_cleanup keeps the cache valid. */
  lemma CleanupValid(c: Cache, claim: Claim, minUses: nat, now: int)
    requires Valid(c, now) && claim in c.claims
    ensures Valid(Cleanup(c, claim, minUses, now), now)
  {
    ReleaseAndClose(c, claim, minUses, now);
    assert c.current == |c.queue|;
    var d := CloseCached(Released(c, claim), claim.id, minUses, now);
    CloseKeepsCount(Released(c, claim), claim.id, minUses, now);
    ExpireInv(d, {}, {}, 1, now, now);
    ExpireShrinks(d, 1, now);
  }

  // ---------------------------------------------------------------- asking the file system

  function Hand(of: OpenInfo): set<int> {
    if of.fd == INVALID_FILE then {} else {of.fd}
  }

  /** Addresses and descriptors come from the system only while they are free. */
  predicate Sane(c: Cache, env: Environment) {
    (env.open.Opened? ==> env.open.fd !in c.fds) && (env.node ==> env.id !in c.files)
  }

  /** A record from which a node can be filled in: exactly an open file has a descriptor. */
  predicate Settled(of: OpenInfo) {
    if of.err != 0 then of.fd == INVALID_FILE else of.isDir <==> of.fd == INVALID_FILE
  }

  /** The descriptor of a retested node stands for the same file, so no other is opened. */
  predicate Kept(of: OpenInfo, env: Environment) {
    of.fd != INVALID_FILE && env.stat.StatOk? && env.stat.stat.uniq == of.uniq
  }

  lemma TakeInHand(c: Cache, out: set<Id>, fd: int)
    requires Inv(c, out, {}) && fd !in c.fds && fd != INVALID_FILE
    ensures Inv(c.(fds := c.fds + {fd}), out, {fd})
  {
    forall x | x in c.fds + {fd} && x !in {fd} ensures Owned(c.files, x) {
      assert x in c.fds;
    }
  }

  /** Unless the old descriptor is kept, only what is handed to the caller stays open. */
  lemma OpenAndStatForm(c: Cache, of: OpenInfo, env: Environment)
    requires c.ok && of.err == 0 && Sane(c, env) && !Kept(of, env)
    ensures var o := OpenAndStat(c, of, env);
            o.cache == c.(fds := c.fds + Hand(o.of)) && Hand(o.of) !! c.fds
            && (Hopeless(o) ==> o.of.fd == INVALID_FILE) && (!Hopeless(o) ==> Settled(o.of))
  {
    assert c.fds + {} == c.fds;
    if env.open.Opened? {
      assert c.fds + {env.open.fd} - {env.open.fd} == c.fds;
    }
  }

  /** ngx_open_and_stat_file keeps the invariant; a new descriptor is in the caller's hand. */
  lemma OpenAndStatInv(c: Cache, out: set<Id>, of: OpenInfo, env: Environment)
    requires Inv(c, out, {}) && of.err == 0 && Sane(c, env) && !Kept(of, env)
    ensures var o := OpenAndStat(c, of, env);
            o.cache == c.(fds := c.fds + Hand(o.of)) && Inv(o.cache, out, Hand(o.of))
            && (Hopeless(o) ==> o.of.fd == INVALID_FILE) && (!Hopeless(o) ==> Settled(o.of))
  {
    OpenAndStatForm(c, of, env);
    var o := OpenAndStat(c, of, env);
    if o.of.fd != INVALID_FILE {
      TakeInHand(c, out, o.of.fd);
    } else {
      assert c.fds + {} == c.fds;
    }
  }

  /** What is in hand can be closed again. */
  lemma FailedInv(c: Cache, out: set<Id>, of: OpenInfo)
    requires Inv(c, out, Hand(of))
    ensures Inv(Failed(c, of).cache, out, {})
  {
    if of.fd != INVALID_FILE {
      forall x | x in c.fds - {of.fd} ensures Owned(c.files, x) {
        assert x in c.fds && x !in Hand(of);
      }
    }
  }

  // ---------------------------------------------------------------- filling in a node

  function NewClaims(id: Id, of: OpenInfo): multiset<Claim> {
    if of.err == 0 && !of.isDir then multiset{Claim(id, of.fd)} else multiset{}
  }

  lemma AdoptFds(files: Files, fds: set<int>, of: OpenInfo, id: Id, g: File)
    requires FdsOk(files, fds, Hand(of)) && g.fd == of.fd
    requires id in files ==> files[id].fd == INVALID_FILE
    ensures FdsOk(files[id := g], fds, {})
  {
    var files' := files[id := g];
    forall fd | fd in fds ensures Owned(files', fd) {
      if fd in Hand(of) {
        assert Owns(files', id, fd);
      } else {
        var i :| Owns(files, i, fd);
        assert Owns(files', i, fd);
      }
    }
  }

  lemma AdoptClaims(files: Files, claims: multiset<Claim>, of: OpenInfo, id: Id, g: File)
    requires ClaimsOk(files, claims) && g.fd == of.fd
    requires id in files ==> files[id].count == 0
    requires g.count == if of.err == 0 && !of.isDir then 1 else 0
    ensures ClaimsOk(files[id := g], claims + NewClaims(id, of))
  {
  }

  /** The node at `id`, complete. */
  function Filled(f: File, of: OpenInfo, now: int): File {
    Updated(f, of, now).(accessed := now)
  }

  lemma UpdateForm(c: Cache, id: Id, of: OpenInfo, now: int)
    requires id in c.files
    ensures var r := Update(c, id, of, now);
            r.of == of && r.rc == (of.err == 0)
            && r.cache == Enqueue(Put(c, id, Filled(c.files[id], of, now)).(claims := c.claims + NewClaims(id, of)), id)
  {
    var f := c.files[id];
    assert c.files[id := Updated(f, of, now)][id := Filled(f, of, now)] == c.files[id := Filled(f, of, now)];
    assert c.claims + multiset{} == c.claims;
  }

  /** A node without descriptor and users takes what is in hand. */
  lemma UpdateInv(c: Cache, id: Id, of: OpenInfo, now: int)
    requires Inv(c, {id}, Hand(of)) && Settled(of) && Ordered(c.files, c.queue, now)
    requires c.files[id].fd == INVALID_FILE && c.files[id].count == 0
    ensures var d := Update(c, id, of, now).cache;
            Inv(d, {}, {}) && Ordered(d.files, d.queue, now) && d.current == c.current && d.max == c.max
  {
    hide FdsOk, ClaimsOk, TreeOk;
    var g := Filled(c.files[id], of, now);
    UpdateForm(c, id, of, now);
    var d := Put(c, id, g).(claims := c.claims + NewClaims(id, of));
    PutKeepsTree(c.files, c.tree, id, g);
    AdoptFds(c.files, c.fds, of, id, g);
    AdoptClaims(c.files, c.claims, of, id, g);
    EnqueueInv(d, {id}, {}, id, now);
    assert {id} - {id} == {};
  }

  /** One more user shares the descriptor of a node. */
  lemma ShareInv(c: Cache, id: Id, g: File, now: int)
    requires Inv(c, {id}, {}) && Ordered(c.files, c.queue, now)
    requires c.files[id].fd != INVALID_FILE
    requires SameCore(c.files[id].(count := c.files[id].count + 1), g) && g.accessed == now
    ensures var d := Enqueue(Put(c, id, g).(claims := c.claims + multiset{Claim(id, g.fd)}), id);
            Inv(d, {}, {}) && Ordered(d.files, d.queue, now)
  {
    hide FdsOk, ClaimsOk, TreeOk;
    PutKeepsTree(c.files, c.tree, id, g);
    PutKeepsFds(c.files, c.fds, {}, id, g);
    ShareClaims(c.files, c.claims, id, g);
    var d := Put(c, id, g).(claims := c.claims + multiset{Claim(id, g.fd)});
    EnqueueInv(d, {id}, {}, id, now);
    assert {id} - {id} == {};
  }

  lemma ShareClaims(files: Files, claims: multiset<Claim>, id: Id, g: File)
    requires ClaimsOk(files, claims) && id in files
    requires g.fd == files[id].fd && g.count == files[id].count + 1
    ensures ClaimsOk(files[id := g], claims + multiset{Claim(id, g.fd)})
  {
  }

  // ---------------------------------------------------------------- creating a node

  lemma LinkTree(files: Files, tree: Tree, q: seq<Id>, current: int, id: Id, g: File)
    requires TreeOk(files, tree) && QueueOk(files, tree, q, current, {})
    requires id !in files && g.name !in tree
    ensures TreeOk(files[id := g], tree[g.name := id])
    ensures QueueOk(files[id := g], tree[g.name := id], q, current + 1, {id})
    ensures forall i :: Linked(files[id := g], tree[g.name := id], i) == (Linked(files, tree, i) || i == id)
  {
    LinkedAfter(files, tree, id, g);
  }

  lemma LinkedAfter(files: Files, tree: Tree, id: Id, g: File)
    requires id !in files && g.name !in tree
    ensures forall i :: Linked(files[id := g], tree[g.name := id], i) == (Linked(files, tree, i) || i == id)
  {
  }

  lemma InsertForm(c: Cache, id: Id, f: File, of: OpenInfo, now: int)
    ensures var g := Filled(f, of, now);
            Update(Link(Put(c, id, f), id), id, of, now).cache
            == Enqueue(Link(Put(c, id, g), id).(claims := c.claims + NewClaims(id, of)), id)
  {
    var c1 := Link(Put(c, id, f), id);
    UpdateForm(c1, id, of, now);
    assert c1.files[id := Filled(f, of, now)] == c.files[id := Filled(f, of, now)];
  }

  /** A new node under a new name takes what is in hand. */
  lemma InsertInv(c: Cache, id: Id, f: File, of: OpenInfo, now: int)
    requires Inv(c, {}, Hand(of)) && Settled(of) && Ordered(c.files, c.queue, now)
    requires id !in c.files && f.name !in c.tree && f.count == 0
    ensures var d := Update(Link(Put(c, id, f), id), id, of, now).cache;
            Inv(d, {}, {}) && Ordered(d.files, d.queue, now) && d.current == c.current + 1 && d.max == c.max
  {
    hide FdsOk, ClaimsOk, NodesOk, TreeOk;
    var g := Filled(f, of, now);
    var d := Link(Put(c, id, g), id).(claims := c.claims + NewClaims(id, of));
    InsertForm(c, id, f, of, now);
    LinkTree(c.files, c.tree, c.queue, c.current, id, g);
    AdoptFds(c.files, c.fds, of, id, g);
    AdoptClaims(c.files, c.claims, of, id, g);
    InsertNodes(c.files, c.tree, id, g);
    EnqueueInv(d, {id}, {}, id, now);
    assert {id} - {id} == {};
  }

  lemma InsertNodes(files: Files, tree: Tree, id: Id, g: File)
    requires NodesOk(files, tree) && id !in files && g.name !in tree && NodeOk(g, true)
    ensures NodesOk(files[id := g], tree[g.name := id])
  {
    LinkedAfter(files, tree, id, g);
  }

  /** The label `create` keeps the invariant and the limit. */
  lemma CreateValid(c: Cache, name: Name, of: OpenInfo, env: Environment, now: int)
    requires Inv(c, {}, Hand(of)) && Settled(of) && Ordered(c.files, c.queue, now)
    requires name !in c.tree && (env.node ==> env.id !in c.files)
    requires c.current <= c.max || c.current <= 1
    ensures Valid(Create(c, name, of, env, now).cache, now)
  {
    ExpireInv(c, {}, Hand(of), 0, now, now);
    ExpireShrinks(c, 0, now);
    var c1 := if c.current >= c.max then Expire(c, 0, now) else c;
    assert c.current == |c.queue| && c1.current == |c1.queue|;
    if env.node {
      InsertInv(c1, env.id, env.junk.(name := name, uses := 1, count := 0), of, now);
    } else {
      FailedInv(c1, {}, of);
    }
  }

  // ---------------------------------------------------------------- opening

  /** The node is an open file, and not one that caches an error or a directory. */
  predicate IsOpenFile(f: File) {
    f.err == 0 && !f.isDir && f.fd != INVALID_FILE
  }

  /** The file system misleads the test of an open file by its number `uniq`: a directory has got
      the number of the file, or the name changes back to the file between stat() and open(). */
  predicate Misled(f: File, env: Environment) {
    env.stat.StatOk? &&
    if env.stat.stat.uniq == f.uniq then env.stat.stat.isDir
    else env.open.Opened? && env.fstat.FstatOk? && !env.fstat.stat.isDir && env.fstat.stat.uniq == f.uniq
  }

  lemma GiveUpValid(c: Cache, id: Id, of: OpenInfo, now: int)
    requires Inv(c, {id}, {}) && Ordered(c.files, c.queue, now) && of.fd == INVALID_FILE
    requires c.current <= c.max || c.current <= 1
    ensures Valid(Failed(GiveUp(c, id), of).cache, now)
  {
    assert GiveUp(c, id) == Departed(c, id);
    DepartedInv(c, {id}, {}, id, now);
    assert {id} - {id} == {};
  }

  /** A retested node that was no open file. */
  lemma RetestOtherValid(c: Cache, id: Id, name: Name, of: OpenInfo, env: Environment, now: int)
    requires Inv(c, {id}, {}) && Ordered(c.files, c.queue, now) && Sane(c, env) && of.err == 0
    requires c.current <= c.max || c.current <= 1
    requires c.files[id].err != 0 || c.files[id].isDir
    ensures Valid(Retest(c, id, name, of, env, now).cache, now)
  {
    var f := c.files[id];
    assert NodeOk(f, Linked(c.files, c.tree, id));
    OpenAndStatInv(c, {id}, RetestInfo(f, of), env);
    var o := OpenAndStat(c, RetestInfo(f, of), env);
    if Hopeless(o) {
      GiveUpValid(o.cache, id, o.of, now);
    } else {
      UpdateInv(o.cache, id, o.of, now);
    }
  }

  /** A retested open file whose descriptor still stands for it. */
  lemma RetestKeptValid(c: Cache, id: Id, name: Name, of: OpenInfo, env: Environment, now: int)
    requires Inv(c, {id}, {}) && Ordered(c.files, c.queue, now) && of.err == 0
    requires c.current <= c.max || c.current <= 1
    requires IsOpenFile(c.files[id]) && Kept(RetestInfo(c.files[id], of), env) && !Misled(c.files[id], env)
    ensures Valid(Retest(c, id, name, of, env, now).cache, now)
  {
    var f := c.files[id];
    var o := OpenAndStat(c, RetestInfo(f, of), env);
    assert NodeOk(f, Linked(c.files, c.tree, id));
    UpdateForm(c, id, o.of, now);
    ShareInv(c, id, Filled(f, o.of, now), now);
  }

  /** What a node had as its descriptor does not matter once it is overwritten. */
  lemma UpdateIgnoresFd(c: Cache, id: Id, o: OpenInfo, now: int)
    requires id in c.files
    ensures Update(Put(c, id, c.files[id].(fd := INVALID_FILE)), id, o, now) == Update(c, id, o, now)
  {
    var f := c.files[id];
    var c2 := Put(c, id, f.(fd := INVALID_FILE));
    assert Filled(c2.files[id], o, now) == Filled(f, o, now);
    assert c2.files[id := Filled(f, o, now)] == c.files[id := Filled(f, o, now)];
    UpdateForm(c, id, o, now);
    UpdateForm(c2, id, o, now);
  }

  /** A retested open file whose descriptor is out of date, with nobody using it. */
  lemma RetestUnusedValid(c: Cache, id: Id, o: OpenInfo, now: int)
    requires Inv(c, {id}, Hand(o)) && Settled(o) && Ordered(c.files, c.queue, now)
    requires c.current <= c.max || c.current <= 1
    requires c.files[id].fd != INVALID_FILE && c.files[id].count == 0
    ensures Valid(Update(CloseFd(c, c.files[id].fd), id, o, now).cache, now)
  {
    var f := c.files[id];
    var c1 := CloseFd(c, f.fd);
    var c2 := Put(c1, id, f.(fd := INVALID_FILE));
    assert Inv(c2, {id}, Hand(o)) && Ordered(c2.files, c2.queue, now) by {
      ShutInv(c, {id}, Hand(o), id);
    }
    UpdateInv(c2, id, o, now);
    UpdateIgnoresFd(c1, id, o, now);
  }

  /** A retested open file whose descriptor is out of date. */
  lemma RetestChangedValid(c: Cache, id: Id, name: Name, of: OpenInfo, env: Environment, now: int)
    requires Inv(c, {id}, {}) && Ordered(c.files, c.queue, now) && Sane(c, env) && of.err == 0
    requires c.current <= c.max || c.current <= 1
    requires name == c.files[id].name
    requires IsOpenFile(c.files[id]) && !Kept(RetestInfo(c.files[id], of), env) && !Misled(c.files[id], env)
    ensures Valid(Retest(c, id, name, of, env, now).cache, now)
  {
    var f := c.files[id];
    var o := OpenAndStat(c, RetestInfo(f, of), env);
    OpenAndStatInv(c, {id}, RetestInfo(f, of), env);
    if Hopeless(o) {
      GiveUpValid(o.cache, id, o.of, now);
    } else {
      assert !SameKind(f, o.of);
      if f.count == 0 {
        RetestUnusedValid(o.cache, id, o.of, now);
      } else {
        OrphanedInv(o.cache, {id}, Hand(o.of), id, now);
        assert {id} - {id} == {};
        CreateValid(Orphaned(o.cache, id), name, o.of, env, now);
      }
    }
  }

  /** Whether a cached node answers and is then misled. */
  predicate HitMisled(f: File, of: OpenInfo, env: Environment, now: int) {
    IsOpenFile(f) && !Fresh(f, of, now) && Misled(f, env)
  }

  lemma FreshValid(c: Cache, id: Id, of: OpenInfo, now: int)
    requires Inv(c, {id}, {}) && Ordered(c.files, c.queue, now)
    requires c.files[id].fd != INVALID_FILE && of.err == 0 && !of.isDir && of.fd == c.files[id].fd
    requires c.current <= c.max || c.current <= 1
    ensures Valid(Found(Put(c, id, c.files[id].(count := c.files[id].count + 1)), id, of, now).cache, now)
  {
    var f := c.files[id].(count := c.files[id].count + 1);
    assert c.files[id := f][id := f.(accessed := now)] == c.files[id := f.(accessed := now)];
    ShareInv(c, id, f.(accessed := now), now);
  }

  lemma FoundValid(c: Cache, id: Id, of: OpenInfo, now: int)
    requires Inv(c, {id}, {}) && Ordered(c.files, c.queue, now)
    requires of.err != 0 || of.isDir
    requires c.current <= c.max || c.current <= 1
    ensures Valid(Found(c, id, of, now).cache, now)
  {
    var g := c.files[id].(accessed := now);
    TouchInv(c, {id}, {}, id, g, now);
    EnqueueInv(Put(c, id, g), {id}, {}, id, now);
    assert {id} - {id} == {};
  }

  /** A hit keeps the cache valid unless the file system misleads it. */
  lemma HitValid(c: Cache, id: Id, name: Name, of: OpenInfo, env: Environment, now: int)
    requires Inv(c, {id}, {}) && Ordered(c.files, c.queue, now) && Sane(c, env) && of.err == 0 && of.fd == INVALID_FILE
    requires c.current <= c.max || c.current <= 1
    requires name == c.files[id].name && !HitMisled(c.files[id], of, env, now)
    ensures Valid(HitOn(c, id, name, of, env, now).cache, now)
  {
    hide FdsOk, ClaimsOk, TreeOk;
    var f := c.files[id];
    assert NodeOk(f, Linked(c.files, c.tree, id));
    if f.fd == INVALID_FILE && f.err == 0 && !f.isDir {
      OpenAndStatInv(c, {id}, of, env);
      var o := OpenAndStat(c, of, env);
      if Hopeless(o) {
        GiveUpValid(o.cache, id, o.of, now);
      } else {
        UpdateInv(o.cache, id, o.of, now);
      }
    } else if Fresh(f, of, now) {
      if f.err != 0 {
        FoundValid(c, id, of.(err := f.err), now);
      } else {
        var of1 := of.(fd := f.fd, uniq := f.uniq, info := f.info, isDir := f.isDir);
        if f.isDir {
          FoundValid(c, id, of1, now);
        } else {
          FreshValid(c, id, of1, now);
        }
      }
    } else if f.err != 0 || f.isDir {
      RetestOtherValid(c, id, name, of, env, now);
    } else if Kept(RetestInfo(f, of), env) {
      RetestKeptValid(c, id, name, of, env, now);
    } else {
      RetestChangedValid(c, id, name, of, env, now);
    }
  }

  /** The node and the file system for which ngx_open_cached_file breaks the cache. */
  predicate OpenMisled(c: Cache, name: Name, info: OpenInfo, env: Environment, now: int) {
    env.pool && name in c.tree && c.tree[name] in c.files && HitMisled(c.files[c.tree[name]], info, env, now)
  }

  /** A found node is off the queue and counted as used once more. */
  lemma CountedInv(c: Cache, id: Id, now: int)
    requires Inv(c, {}, {}) && Ordered(c.files, c.queue, now) && Linked(c.files, c.tree, id)
    ensures var d := Counted(c, id);
            Inv(d, {id}, {}) && Ordered(d.files, d.queue, now) && d.current == c.current
  {
    TakeOffInv(c, Counted(c, id), id, c.files[id].(uses := c.files[id].uses + 1), now);
  }

  lemma MissValid(c: Cache, name: Name, of: OpenInfo, env: Environment, now: int)
    requires Valid(c, now) && Sane(c, env) && name !in c.tree && of.fd == INVALID_FILE && of.err == 0
    ensures var o := OpenAndStat(c, of, env);
            Valid((if Hopeless(o) then Failed(o.cache, o.of) else Create(o.cache, name, o.of, env, now)).cache, now)
  {
    OpenAndStatInv(c, {}, of, env);
    var o := OpenAndStat(c, of, env);
    if Hopeless(o) {
      FailedInv(o.cache, {}, o.of);
    } else {
      CreateValid(o.cache, name, o.of, env, now);
    }
  }

  lemma HitIsValid(c: Cache, name: Name, of: OpenInfo, env: Environment, now: int)
    requires Valid(c, now) && Sane(c, env) && name in c.tree && of.fd == INVALID_FILE && of.err == 0
    requires c.tree[name] in c.files && !HitMisled(c.files[c.tree[name]], of, env, now)
    ensures Valid(Hit(c, c.tree[name], name, of, env, now).cache, now)
  {
    var id := c.tree[name];
    CountedInv(c, id, now);
    var d := Counted(c, id);
    assert d.files[id].name == name;
    HitValid(d, id, name, of, env, now);
    var r := Hit(c, id, name, of, env, now);
    assert r == HitOn(d, id, name, of, env, now);
    assert Valid(r.cache, now);
  }

  /** ngx_open_cached_file keeps the cache valid unless the file system misleads it. */
  lemma OpenKeepsValid(c: Cache, name: Name, info: OpenInfo, env: Environment, now: int)
    requires Valid(c, now) && Sane(c, env) && !OpenMisled(c, name, info, env, now)
    ensures Valid(Open(c, name, info, env, now).cache, now)
  {
    var of := info.(fd := INVALID_FILE, err := 0);
    assert name in c.tree ==> c.tree[name] in c.files;
    if env.pool && name in c.tree {
      assert Fresh(c.files[c.tree[name]], of, now) == Fresh(c.files[c.tree[name]], info, now);
      HitIsValid(c, name, of, env, now);
    } else if env.pool {
      MissValid(c, name, of, env, now);
    }
  }
}
