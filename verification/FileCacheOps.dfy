/** The operations of ngx_open_file_cache.c in place: each method runs the steps of its C function
    and is proved to do to the cache what module `OpenFileCache` says. */
module FileCacheOps {
  import opened OpenFileCache
  import opened FileCacheInvariant
  import opened FileCacheSafety
  import opened FileCacheRuns
  import opened FileCacheAnswers
  import opened FileCacheHistory

  class FileCache {
    var files: map<Id, File>
    var tree: map<Name, Id>
    var queue: seq<Id>
    var current: int
    const max: nat
    const inactive: int
    ghost var fds: set<int>
    ghost var claims: multiset<Claim>
    ghost var ok: bool

    ghost function State(): Cache
      reads this
    {
      Cache(files, tree, queue, current, max, inactive, fds, claims, ok)
    }

    /** ngx_open_file_cache_init */
    constructor (max: nat, inactive: int, ghost t: int)
      ensures Empty(State()) && Valid(State(), t)
      ensures this.max == max && this.inactive == inactive
    {
      this.max, this.inactive := max, inactive;
      files, tree, queue, current := map[], map[], [], 0;
      fds, claims, ok := {}, multiset{}, true;
      new;
      EmptyValid(State(), t);
    }

    // -------------------------------------------------------------- primitive steps

    /** ngx_close_file */
    method CloseFile(fd: int)
      modifies `fds, `ok
      ensures State() == CloseFd(old(State()), fd)
    {
      ok := ok && fd in fds;
      fds := fds - {fd};
    }

    method QueueRemove(id: Id)
      modifies `queue, `ok
      ensures State() == Unqueue(old(State()), id)
    {
      ok := ok && id in queue;
      queue := Remove(queue, id);
    }

    method QueueInsertHead(id: Id)
      modifies `queue
      ensures State() == Enqueue(old(State()), id)
    {
      queue := [id] + queue;
    }

    method TreeInsert(id: Id)
      requires id in files
      modifies `tree, `current, `ok
      ensures State() == Link(old(State()), id)
    {
      ok := ok && files[id].name !in tree;
      tree := tree[files[id].name := id];
      current := current + 1;
    }

    method TreeDelete(id: Id)
      requires id in files
      modifies `tree, `current, `ok
      ensures State() == Unlink(old(State()), id)
    {
      ok := ok && files[id].name in tree && tree[files[id].name] == id;
      tree := tree - {files[id].name};
      current := current - 1;
    }

    method FreeNode(id: Id)
      modifies `files, `ok
      ensures State() == Free(old(State()), id)
    {
      ok := ok && id in files;
      files := files - {id};
    }

    // -------------------------------------------------------------- closing and expiring

    /** ngx_close_cached_file: the node is freed exactly if it is off the tree and has no users; its
        descriptor is closed exactly then, or if the node has no users and was used too seldom; and a
        node that stays in the tree is now the most recently used. */
    method CloseCachedFile(id: Id, minUses: nat, now: int)
      requires id in files
      modifies `files, `queue, `fds, `ok
      ensures State() == CloseCached(old(State()), id, minUses, now)
      ensures id !in files <==> old(files)[id].close && old(files)[id].count == 0
      ensures fds == if Closes(old(files)[id], minUses) then old(fds) - {old(files)[id].fd} else old(fds)
      ensures id in files ==> files[id].fd == if Closes(old(files)[id], minUses) then INVALID_FILE else old(files)[id].fd
      ensures id in files ==> files[id].count == old(files)[id].count && files[id].close == old(files)[id].close
      ensures files.Keys + {id} == old(files).Keys && forall i :: i in files && i != id ==> files[i] == old(files)[i]
      ensures if old(files)[id].close then queue == old(queue) else queue != [] && queue[0] == id && files[id].accessed == now
    {
      if !files[id].close {
        files := files[id := files[id].(accessed := now)];
        QueueRemove(id);
        QueueInsertHead(id);
        if files[id].uses >= minUses || files[id].count != 0 {
          return;
        }
      }
      if files[id].count != 0 {
        return;
      }
      if files[id].fd != INVALID_FILE {
        CloseFile(files[id].fd);
        files := files[id := files[id].(fd := INVALID_FILE)];
      }
      if !files[id].close {
        return;
      }
      FreeNode(id);
    }

    /** The node has an open descriptor that nobody reads from or will ask for again. */
    predicate Closes(f: File, minUses: nat) {
      f.fd != INVALID_FILE && f.count == 0 && (f.close || f.uses < minUses)
    }

    /** One round of the loop of ngx_expire_old_cached_files. */
    method EvictNode(id: Id, now: int)
      requires id in files
      modifies this
      ensures State() == Evict(old(State()), id, now)
    {
      QueueRemove(id);
      TreeDelete(id);
      if files[id].err == 0 && !files[id].isDir {
        files := files[id := files[id].(close := true)];
        CloseCachedFile(id, 0, now);
      } else {
        FreeNode(id);
      }
    }

    /** ngx_expire_old_cached_files: keeps the cache in order and takes only the least recently
        used nodes. */
    method ExpireOldCachedFiles(n0: nat, now: int, ghost hand: set<int>, ghost t: int)
      requires Inv(State(), {}, hand) && Ordered(files, queue, t)
      modifies this
      ensures State() == Expire(old(State()), n0, now)
      ensures Inv(State(), {}, hand) && Ordered(files, queue, t)
      ensures TakesOldest(old(State()), State(), n0, now)
    {
      hide Evict;
      hide Inv;
      ghost var before := State();
      var n: int := n0;
      while n < 3
        invariant 0 <= n
        invariant Inv(State(), {}, hand) && Ordered(files, queue, t)
        invariant Expire(State(), n, now) == Expire(before, n0, now)
        decreases 3 - n
      {
        if queue == [] {
          break;
        }
        var id := queue[|queue| - 1];
        EvictInv(State(), {}, hand, now, t);
        n := n + 1;
        if n != 1 && now - files[id].accessed <= inactive {
          break;
        }
        EvictNode(id, now);
      }
      ExpireTakesOldest(before, hand, n0, now, t);
    }

    /** ngx_open_file_cleanup */
    method OpenFileCleanup(claim: Claim, minUses: nat, now: int)
      requires Valid(State(), now) && claim in claims
      modifies this
      ensures State() == Cleanup(old(State()), claim, minUses, now)
      ensures Valid(State(), now)
    {
      CleanupValid(State(), claim, minUses, now);
      ReleaseAndClose(State(), claim, minUses, now);
      ghost var released := Released(State(), claim);
      files := files[claim.id := files[claim.id].(count := files[claim.id].count - 1)];
      claims := claims - multiset{claim};
      assert State() == released;
      CloseCachedFile(claim.id, minUses, now);
      ExpireOldCachedFiles(1, now, {}, now);
    }

    // -------------------------------------------------------------- opening

    /** The part of ngx_open_and_stat_file that opens the name. */
    method OpenName(of: OpenInfo, env: Environment) returns (of': OpenInfo, done: bool)
      modifies `fds, `ok
      ensures Opening(State(), of', done) == OpenNew(old(State()), of, env)
    {
      if env.open.OpenFailed? {
        return of.(fd := INVALID_FILE, err := env.open.errno), false;
      }
      var fd := env.open.fd;
      fds := fds + {fd};
      if env.fstat.FstatFailed? {
        CloseFile(fd);
        return of.(fd := INVALID_FILE), false;
      }
      if env.fstat.stat.isDir {
        CloseFile(fd);
        of' := of.(fd := INVALID_FILE);
      } else {
        of' := of.(fd := fd);
      }
      of', done := Learn(of', env.fstat.stat), true;
    }

    /** ngx_open_and_stat_file: if the old descriptor stands for the same file, it is kept and none is
        opened; otherwise what is open afterwards and was not before is the descriptor that is
        handed out.  An error that is not to be cached hands out none; all else is a record from
        which a node can be filled in. */
    method OpenAndStatFile(of: OpenInfo, env: Environment) returns (of': OpenInfo, done: bool)
      modifies `fds, `ok
      ensures Opening(State(), of', done) == OpenAndStat(old(State()), of, env)
      ensures Kept(of, env) ==> done && of'.fd == of.fd && fds == old(fds) && ok == old(ok)
      ensures of.err == 0 && old(ok) && Sane(old(State()), env) && !Kept(of, env) ==>
                && ok && fds == old(fds) + Hand(of') && Hand(of') !! old(fds)
                && if !done && (of'.err == 0 || !of'.errors) then of'.fd == INVALID_FILE else Settled(of')
    {
      if of.err == 0 && ok && Sane(State(), env) && !Kept(of, env) {
        OpenAndStatForm(State(), of, env);
      }
      if of.fd != INVALID_FILE {
        if env.stat.StatFailed? {
          return of.(fd := INVALID_FILE, err := env.stat.errno), false;
        }
        if of.uniq == env.stat.stat.uniq {
          return Learn(of, env.stat.stat), true;
        }
      } else if of.testDir {
        if env.stat.StatFailed? {
          return of.(fd := INVALID_FILE, err := env.stat.errno), false;
        }
        if env.stat.stat.isDir {
          return Learn(of, env.stat.stat), true;
        }
      }
      of', done := OpenName(of, env);
    }

    /** The label `found`. */
    method FoundNode(id: Id, of: OpenInfo, now: int) returns (rc: bool)
      requires id in files
      modifies `files, `queue, `claims
      ensures Result(State(), of, rc) == Found(old(State()), id, of, now)
    {
      files := files[id := files[id].(accessed := now)];
      QueueInsertHead(id);
      if of.err == 0 {
        if !of.isDir {
          claims := claims + multiset{Claim(id, of.fd)};
        }
        return true;
      }
      return false;
    }

    /** The label `update`. */
    method UpdateNode(id: Id, of: OpenInfo, now: int) returns (rc: bool)
      requires id in files
      modifies `files, `queue, `claims
      ensures Result(State(), of, rc) == Update(old(State()), id, of, now)
    {
      var file := files[id].(fd := of.fd, err := of.err, symlinks := of.symlinks);
      if of.err == 0 {
        file := file.(uniq := of.uniq, info := of.info, close := false, isDir := of.isDir);
        if !of.isDir {
          file := file.(count := file.count + 1);
        }
      }
      files := files[id := file.(created := now)];
      rc := FoundNode(id, of, now);
    }

    /** The label `failed` without a node. */
    method Fail(of: OpenInfo) returns (rc: bool)
      modifies `fds, `ok
      ensures Result(State(), of, rc) == Failed(old(State()), of)
    {
      if of.fd != INVALID_FILE {
        CloseFile(of.fd);
      }
      return false;
    }

    /** The label `failed` with a node. */
    method FailNode(id: Id, of: OpenInfo) returns (rc: bool)
      requires id in files
      modifies `files, `tree, `current, `fds, `ok
      ensures Result(State(), of, rc) == Failed(GiveUp(old(State()), id), of)
    {
      TreeDelete(id);
      if files[id].count == 0 {
        if files[id].fd != INVALID_FILE {
          CloseFile(files[id].fd);
        }
        FreeNode(id);
      } else {
        files := files[id := files[id].(close := true)];
      }
      rc := Fail(of);
    }

    /** The label `create`. */
    method CreateNode(name: Name, of: OpenInfo, env: Environment, now: int, ghost hand: set<int>)
      returns (rc: bool)
      requires Inv(State(), {}, hand) && Ordered(files, queue, now)
      modifies this
      ensures Result(State(), of, rc) == Create(old(State()), name, of, env, now)
    {
      if current >= max {
        ExpireOldCachedFiles(0, now, hand, now);
      }
      if !env.node {
        rc := Fail(of);
        return;
      }
      var id := env.id;
      files := files[id := env.junk.(name := name, uses := 1, count := 0)];
      TreeInsert(id);
      rc := UpdateNode(id, of, now);
    }

    /** A node whose file changed under its users is replaced by a new one. */
    method ReplaceNode(id: Id, name: Name, of: OpenInfo, env: Environment, now: int, ghost hand: set<int>)
      returns (rc: bool)
      requires Inv(State(), {id}, hand) && Ordered(files, queue, now)
      requires id in files && files[id].count != 0
      modifies this
      ensures Result(State(), of, rc) == Create(Orphaned(old(State()), id), name, of, env, now)
    {
      OrphanedInv(State(), {id}, hand, id, now);
      assert {id} - {id} == {};
      ghost var orphaned := Orphaned(State(), id);
      TreeDelete(id);
      files := files[id := files[id].(close := true)];
      assert State() == orphaned;
      rc := CreateNode(name, of, env, now, hand);
    }

    /** A found node is looked at again. */
    method RetestNode(id: Id, name: Name, of: OpenInfo, env: Environment, now: int)
      returns (of': OpenInfo, rc: bool)
      requires Inv(State(), {id}, {}) && Ordered(files, queue, now) && Sane(State(), env) && of.err == 0
      requires id in files
      modifies this
      ensures Result(State(), of', rc) == Retest(old(State()), id, name, of, env, now)
    {
      hide Inv;
      ghost var before := State();
      var f := files[id];
      var of1 := of.(fd := f.fd, uniq := f.uniq);
      if f.isDir {
        of1 := of1.(testDir := true);
      }
      assert of1 == RetestInfo(f, of);
      ghost var hand := HandAfter(before, {id}, of1, env);
      var done;
      of', done := OpenAndStatFile(of1, env);
      if !done && (of'.err == 0 || !of'.errors) {
        rc := FailNode(id, of');
      } else if SameKind(f, of') {
        rc := UpdateNode(id, of', now);
      } else if f.count == 0 {
        CloseFile(f.fd);
        rc := UpdateNode(id, of', now);
      } else {
        rc := ReplaceNode(id, name, of', env, now, hand);
      }
    }

    /** What is in hand after the file system was asked. */
    static ghost method HandAfter(c: Cache, out: set<Id>, of: OpenInfo, env: Environment) returns (hand: set<int>)
      requires Inv(c, out, {}) && of.err == 0 && Sane(c, env)
      ensures Inv(OpenAndStat(c, of, env).cache, out, hand)
      ensures OpenAndStat(c, of, env).cache.queue == c.queue && OpenAndStat(c, of, env).cache.files == c.files
    {
      AskingKeepsNodes(c, of, env);
      if Kept(of, env) {
        hand := {};
      } else {
        OpenAndStatInv(c, out, of, env);
        hand := Hand(OpenAndStat(c, of, env).of);
      }
    }

    /** A node was found in the tree. */
    method UseNode(id: Id, name: Name, of: OpenInfo, env: Environment, now: int)
      returns (of': OpenInfo, rc: bool)
      requires Inv(State(), {id}, {}) && Ordered(files, queue, now) && Sane(State(), env) && of.err == 0
      requires id in files
      modifies this
      ensures Result(State(), of', rc) == HitOn(old(State()), id, name, of, env, now)
    {
      hide Retest, Update, Found, OpenAndStat, Failed, GiveUp, Inv;
      var f := files[id];
      if f.fd == INVALID_FILE && f.err == 0 && !f.isDir {
        var done;
        of', done := OpenAndStatFile(of, env);
        if !done && (of'.err == 0 || !of'.errors) {
          rc := FailNode(id, of');
        } else {
          rc := UpdateNode(id, of', now);
        }
      } else if Fresh(f, of, now) {
        if f.err == 0 {
          of' := of.(fd := f.fd, uniq := f.uniq, info := f.info, isDir := f.isDir);
          if !f.isDir {
            files := files[id := f.(count := f.count + 1)];
          }
        } else {
          of' := of.(err := f.err);
        }
        rc := FoundNode(id, of', now);
      } else {
        of', rc := RetestNode(id, name, of, env, now);
      }
    }

    /** ngx_open_cached_file: the file system is asked exactly if there is no entry that is good for an
        answer, one made less than `valid` ago; the caller is told what the cache has of the name
        afterwards; and the cache is in order exactly when the file system did not mislead it. */
    method OpenCachedFile(name: Name, info: OpenInfo, env: Environment, now: int)
      returns (of: OpenInfo, rc: bool)
      requires Valid(State(), now) && Sane(State(), env)
      modifies this
      ensures Result(State(), of, rc) == Open(old(State()), name, info, env, now)
      ensures env.pool ==> Answers(Result(State(), of, rc), name, now)
      ensures env.pool ==> Used(old(State()), Result(State(), of, rc), name)
      ensures env.pool ==>
                if Has(old(State()), name) && Recent(Entry(old(State()), name), info, now)
                then Unasked(old(State()), name, info, env, now) && Remembers(State(), old(State()))
                else !Unasked(old(State()), name, info, env, now) && Stamped(Result(State(), of, rc), name, info, env, now)
      ensures Valid(State(), now) <==> !OpenMisled(old(State()), name, info, env, now)
    {
      OpenValidIff(State(), name, info, env, now);
      if env.pool {
        OpenAnswers(State(), now, name, info, env, now);
        AskedOrNot(State(), name, info, env, now);
        OpenUses(State(), now, name, info, env, now);
      }
      of, rc := OpenFile(name, info, env, now);
    }

    static lemma AskedOrNot(c: Cache, name: Name, info: OpenInfo, env: Environment, now: int)
      requires Valid(c, now) && env.pool
      ensures var r := Open(c, name, info, env, now);
              if Has(c, name) && Recent(Entry(c, name), info, now)
              then Unasked(c, name, info, env, now) && Remembers(r.cache, c)
              else !Unasked(c, name, info, env, now) && Stamped(r, name, info, env, now)
    {
      hide Open, Valid, Unasked, Stamped, Remembers;
      UnaskedIff(c, now, name, info, env, now);
      if Has(c, name) && Recent(Entry(c, name), info, now) {
        RecentRemembers(c, name, info, env, now);
      } else {
        OpenStamps(c, now, name, info, env, now);
      }
    }

    /** A found node is used once more and taken off the queue. */
    method CountUse(id: Id)
      requires id in files
      modifies `files, `queue, `ok
      ensures State() == Counted(old(State()), id)
    {
      files := files[id := files[id].(uses := files[id].uses + 1)];
      QueueRemove(id);
    }

    /** The name is in the tree. */
    method UseName(name: Name, of0: OpenInfo, env: Environment, now: int)
      returns (of: OpenInfo, rc: bool)
      requires Inv(State(), {}, {}) && Ordered(files, queue, now) && Sane(State(), env) && of0.err == 0
      requires name in tree
      modifies this
      ensures old(tree[name] in files)
      ensures Result(State(), of, rc) == Hit(old(State()), old(tree[name]), name, of0, env, now)
    {
      hide HitOn;
      var id := tree[name];
      CountedInv(State(), id, now);
      CountUse(id);
      of, rc := UseNode(id, name, of0, env, now);
    }

    /** The name is not in the tree. */
    method AddName(name: Name, of0: OpenInfo, env: Environment, now: int)
      returns (of: OpenInfo, rc: bool)
      requires Inv(State(), {}, {}) && Ordered(files, queue, now) && Sane(State(), env) && of0.err == 0
      modifies this
      ensures var o := OpenAndStat(old(State()), of0, env);
              Result(State(), of, rc)
              == if Hopeless(o) then Failed(o.cache, o.of) else Create(o.cache, name, o.of, env, now)
    {
      hide Create, Failed, Inv;
      ghost var hand := HandAfter(State(), {}, of0, env);
      var done;
      of, done := OpenAndStatFile(of0, env);
      if !done && (of.err == 0 || !of.errors) {
        rc := Fail(of);
      } else {
        rc := CreateNode(name, of, env, now, hand);
      }
    }

    /** The steps of ngx_open_cached_file. */
    method OpenFile(name: Name, info: OpenInfo, env: Environment, now: int)
      returns (of: OpenInfo, rc: bool)
      requires Inv(State(), {}, {}) && Ordered(files, queue, now) && Sane(State(), env)
      modifies this
      ensures Result(State(), of, rc) == Open(old(State()), name, info, env, now)
    {
      of := info.(fd := INVALID_FILE, err := 0);
      if !env.pool {
        rc := false;
      } else if name in tree {
        of, rc := UseName(name, of, env, now);
      } else {
        of, rc := AddName(name, of, env, now);
      }
    }
  }
}
