/** The open file cache agrees with a map from names to what is known of them. */
module FileCacheAnswers {
  import opened OpenFileCache
  import opened FileCacheInvariant
  import opened FileCacheSafety
  import opened FileCacheRuns

  /** The cache knows of the file what the caller is told. */
  predicate SameKnowledge(f: File, of: OpenInfo) {
    f.err == of.err &&
    (of.err == 0 ==> f.fd == of.fd && f.uniq == of.uniq && f.info == of.info && f.isDir == of.isDir)
  }

  /** What ngx_open_cached_file reports of `name` is what the cache has of it afterwards, as its
      most recently used entry; an error that is not cached leaves no entry. */
  predicate Answers(r: Result, name: Name, now: int) {
    && r.rc == (name in r.cache.tree && r.of.err == 0)
    && (name in r.cache.tree ==>
          var id := r.cache.tree[name];
          && id in r.cache.files && SameKnowledge(r.cache.files[id], r.of)
          && r.cache.files[id].accessed == now && r.cache.queue != [] && r.cache.queue[0] == id)
  }

  lemma FoundAnswers(c: Cache, id: Id, name: Name, of: OpenInfo, now: int)
    requires id in c.files && name in c.tree && c.tree[name] == id && SameKnowledge(c.files[id], of)
    ensures Answers(Found(c, id, of, now), name, now)
  {
  }

  lemma UpdateAnswers(c: Cache, id: Id, name: Name, of: OpenInfo, now: int)
    requires id in c.files && name in c.tree && c.tree[name] == id
    ensures Answers(Update(c, id, of, now), name, now)
  {
    UpdateForm(c, id, of, now);
  }

  lemma CreateAnswers(c: Cache, name: Name, of: OpenInfo, env: Environment, now: int)
    requires name !in c.tree
    ensures Answers(Create(c, name, of, env, now), name, now)
  {
    ExpireShrinks(c, 0, now);
    var c1 := if c.current >= c.max then Expire(c, 0, now) else c;
    if env.node {
      var f := env.junk.(name := name, uses := 1, count := 0);
      UpdateAnswers(Link(Put(c1, env.id, f), env.id), env.id, name, of, now);
    }
  }

  lemma GiveUpAnswers(c: Cache, id: Id, name: Name, of: OpenInfo, now: int)
    requires id in c.files && c.files[id].name == name
    ensures Answers(Failed(GiveUp(c, id), of), name, now)
  {
    assert name !in GiveUp(c, id).tree;
  }

  lemma RetestAnswers(c: Cache, id: Id, name: Name, of: OpenInfo, env: Environment, now: int)
    requires id in c.files && name in c.tree && c.tree[name] == id && c.files[id].name == name
    ensures Answers(Retest(c, id, name, of, env, now), name, now)
  {
    var f := c.files[id];
    var o := OpenAndStat(c, RetestInfo(f, of), env);
    AskingKeepsNodes(c, RetestInfo(f, of), env);
    if Hopeless(o) {
      GiveUpAnswers(o.cache, id, name, o.of, now);
    } else if SameKind(f, o.of) {
      UpdateAnswers(o.cache, id, name, o.of, now);
    } else if f.count == 0 {
      UpdateAnswers(CloseFd(o.cache, f.fd), id, name, o.of, now);
    } else {
      CreateAnswers(Orphaned(o.cache, id), name, o.of, env, now);
    }
  }

  lemma HitOnAnswers(c: Cache, id: Id, name: Name, of: OpenInfo, env: Environment, now: int)
    requires id in c.files && name in c.tree && c.tree[name] == id && c.files[id].name == name
    requires of.err == 0
    ensures Answers(HitOn(c, id, name, of, env, now), name, now)
  {
    var f := c.files[id];
    if f.fd == INVALID_FILE && f.err == 0 && !f.isDir {
      var o := OpenAndStat(c, of, env);
      AskingKeepsNodes(c, of, env);
      if Hopeless(o) {
        GiveUpAnswers(o.cache, id, name, o.of, now);
      } else {
        UpdateAnswers(o.cache, id, name, o.of, now);
      }
    } else if !Fresh(f, of, now) {
      RetestAnswers(c, id, name, of, env, now);
    } else if f.err != 0 {
      FoundAnswers(c, id, name, of.(err := f.err), now);
    } else {
      var of1 := of.(fd := f.fd, uniq := f.uniq, info := f.info, isDir := f.isDir);
      FoundAnswers(if f.isDir then c else Put(c, id, f.(count := f.count + 1)), id, name, of1, now);
    }
  }

  /** The caller is told what the cache then has under that name. */
  lemma OpenAnswers(c: Cache, t: int, name: Name, info: OpenInfo, env: Environment, now: int)
    requires Valid(c, t) && env.pool
    ensures Answers(Open(c, name, info, env, now), name, now)
  {
    var of := info.(fd := INVALID_FILE, err := 0);
    if name in c.tree {
      var id := c.tree[name];
      HitOnAnswers(Counted(c, id), id, name, of, env, now);
      assert Open(c, name, info, env, now) == HitOn(Counted(c, id), id, name, of, env, now);
    } else {
      var o := OpenAndStat(c, of, env);
      AskingKeepsNodes(c, of, env);
      if Hopeless(o) {
        assert name !in Failed(o.cache, o.of).cache.tree;
      } else {
        CreateAnswers(o.cache, name, o.of, env, now);
      }
    }
  }

  // ---------------------------------------------------------------- the other names

  /** Of the names other than `name`, `d` has only what `c` has. */
  ghost predicate OthersFrom(d: Cache, c: Cache, name: Name) {
    forall n :: n in d.tree && n != name ==>
      && n in c.tree && d.tree[n] == c.tree[n]
      && (c.tree[n] in c.files ==> c.tree[n] in d.files && d.files[c.tree[n]] == c.files[c.tree[n]])
  }

  /** One of the last three of the queue: the last one, or one unused for longer than `inactive`. */
  ghost predicate Expirable(c: Cache, i: Id, now: int) {
    exists j :: 0 <= j < |c.queue| && |c.queue| - 3 <= j && c.queue[j] == i
             && (j == |c.queue| - 1 || (i in c.files && now - c.files[i].accessed > c.inactive))
  }

  /** Of the names other than `name`, `d` lacks only such as a full cache may expire. */
  ghost predicate Gone(d: Cache, c: Cache, name: Name, now: int) {
    forall n :: n in c.tree && n != name && n !in d.tree ==> c.current >= c.max && Expirable(c, c.tree[n], now)
  }

  /** ngx_expire_old_cached_files takes at most 3 - n nodes, all from the end of the queue; except
      the one taken by force they have been unused for longer than `inactive`, and it takes fewer only
      if the next one has not, or there is none. */
  ghost predicate TakesOldest(c: Cache, d: Cache, n: nat, now: int) {
    && d.queue <= c.queue
    && |c.queue| - |d.queue| <= (if n < 3 then 3 - n else 0)
    && (n == 0 && c.queue != [] ==> d.queue != c.queue)
    && (forall j :: |d.queue| <= j < |c.queue| && !(n == 0 && j == |c.queue| - 1) ==>
          c.queue[j] in c.files && now - c.files[c.queue[j]].accessed > c.inactive)
    && (d.queue == [] || n >= 3 || |c.queue| - |d.queue| == 3 - n || Stays(c, d.queue[|d.queue| - 1], now))
  }

  predicate Stays(c: Cache, i: Id, now: int) {
    i in c.files && now - c.files[i].accessed <= c.inactive
  }

  lemma {:induction false} ExpireTakesOldest(c: Cache, hand: set<int>, n: nat, now: int, t: int)
    requires Inv(c, {}, hand) && Ordered(c.files, c.queue, t)
    ensures TakesOldest(c, Expire(c, n, now), n, now)
    decreases 3 - n
  {
    hide FdsOk, NodesOk, TreeOk;
    hide Evict;
    if n < 3 && c.queue != [] {
      var id := c.queue[|c.queue| - 1];
      EvictInv(c, {}, hand, now, t);
      if n == 0 || now - c.files[id].accessed > c.inactive {
        var d := Evict(c, id, now);
        ExpireTakesOldest(d, hand, n + 1, now, t);
        EvictKeepsQueued(c, hand, id, now, t);
        TakesOneMore(c, d, Expire(d, n + 1, now), n, now);
      }
    }
  }

  lemma TakesOneMore(c: Cache, d: Cache, e: Cache, n: nat, now: int)
    requires n < 3 && c.queue != [] && d.queue == c.queue[..|c.queue| - 1] && d.inactive == c.inactive
    requires TakesOldest(d, e, n + 1, now)
    requires c.queue[|c.queue| - 1] in c.files
    requires n == 0 || now - c.files[c.queue[|c.queue| - 1]].accessed > c.inactive
    requires forall i :: i in d.queue ==> i in c.files && i in d.files && d.files[i] == c.files[i]
    ensures TakesOldest(c, e, n, now)
  {
    forall j | |e.queue| <= j < |c.queue| - 1
      ensures c.queue[j] in c.files && now - c.files[c.queue[j]].accessed > c.inactive
    {
      assert d.queue[j] == c.queue[j];
    }
  }

  lemma EvictKeepsQueued(c: Cache, hand: set<int>, id: Id, now: int, t: int)
    requires Inv(c, {}, hand) && Ordered(c.files, c.queue, t) && c.queue != [] && id == c.queue[|c.queue| - 1]
    ensures id in c.files && Evict(c, id, now).inactive == c.inactive
    ensures forall i :: i in c.queue && i != id ==>
      i in c.files && i in Evict(c, id, now).files && Evict(c, id, now).files[i] == c.files[i]
  {
    assert Linked(c.files, c.tree, id);
    EvictIsDeparture(c, {}, hand, id, now);
  }

  lemma {:induction false} ExpireOthers(c: Cache, hand: set<int>, n: nat, now: int, t: int, name: Name)
    requires Inv(c, {}, hand) && Ordered(c.files, c.queue, t)
    ensures OthersFrom(Expire(c, n, now), c, name)
    decreases 3 - n
  {
    hide NodesOk, FdsOk;
    hide Evict;
    if n < 3 && c.queue != [] {
      var id := c.queue[|c.queue| - 1];
      EvictInv(c, {}, hand, now, t);
      if n == 0 || now - c.files[id].accessed > c.inactive {
        EvictOthers(c, hand, id, now, name);
        ExpireOthers(Evict(c, id, now), hand, n + 1, now, t, name);
      }
    }
  }

  lemma EvictOthers(c: Cache, hand: set<int>, id: Id, now: int, name: Name)
    requires Inv(c, {}, hand) && id in c.queue
    ensures id in c.files && OthersFrom(Evict(c, id, now), c, name)
  {
    assert Linked(c.files, c.tree, id);
    EvictIsDeparture(c, {}, hand, id, now);
  }

  /** A name is gone after an expiration only if its node has been taken from the queue's end. */
  lemma {:induction false} ExpireGone(c: Cache, hand: set<int>, now: int, n: Name)
    requires Inv(c, {}, hand) && Ordered(c.files, c.queue, now) && n in c.tree && n !in Expire(c, 0, now).tree
    ensures Expirable(c, c.tree[n], now)
  {
    hide Expire, Ordered;
    var d, i := Expire(c, 0, now), c.tree[n];
    ExpireTakesOldest(c, hand, 0, now, now);
    ExpireOthers(c, hand, 0, now, now, n);
    ExpireInv(c, {}, hand, 0, now, now);
    assert Linked(c.files, c.tree, i);
    assert i in c.queue;
    forall j | 0 <= j < |d.queue| ensures c.queue[j] != i {
      assert d.queue[j] == c.queue[j] && d.queue[j] in d.queue;
      assert Linked(d.files, d.tree, d.queue[j]);
    }
  }

  lemma UpdateOthers(c: Cache, id: Id, name: Name, of: OpenInfo, now: int)
    requires TreeOk(c.files, c.tree) && name in c.tree && c.tree[name] == id
    ensures OthersFrom(Update(c, id, of, now).cache, c, name) && Gone(Update(c, id, of, now).cache, c, name, now)
  {
    UpdateForm(c, id, of, now);
  }

  lemma CreateOthers(c: Cache, name: Name, of: OpenInfo, env: Environment, now: int)
    requires Inv(c, {}, Hand(of)) && Ordered(c.files, c.queue, now)
    requires name !in c.tree && (env.node ==> env.id !in c.files)
    ensures OthersFrom(Create(c, name, of, env, now).cache, c, name) && Gone(Create(c, name, of, env, now).cache, c, name, now)
  {
    hide Expire, Expirable;
    var c1 := if c.current >= c.max then Expire(c, 0, now) else c;
    forall n | n in c.tree && n !in c1.tree ensures c.current >= c.max && Expirable(c, c.tree[n], now) {
      ExpireGone(c, Hand(of), now, n);
    }
    ExpireShrinks(c, 0, now);
    ExpireOthers(c, Hand(of), 0, now, now, name);
    if env.node {
      InsertOthers(c1, c, env.id, env.junk.(name := name, uses := 1, count := 0), of, now);
    }
  }

  lemma InsertOthers(c1: Cache, c: Cache, id: Id, f: File, of: OpenInfo, now: int)
    requires OthersFrom(c1, c, f.name) && id !in c.files && TreeOk(c.files, c.tree) && Gone(c1, c, f.name, now)
    ensures OthersFrom(Update(Link(Put(c1, id, f), id), id, of, now).cache, c, f.name)
    ensures Gone(Update(Link(Put(c1, id, f), id), id, of, now).cache, c, f.name, now)
  {
    InsertForm(c1, id, f, of, now);
  }

  /** The node that no longer fits gives way to a new one. */
  lemma ReplaceOthers(c: Cache, id: Id, name: Name, of: OpenInfo, env: Environment, now: int)
    requires Inv(c, {id}, Hand(of)) && Ordered(c.files, c.queue, now) && (env.node ==> env.id !in c.files)
    requires name in c.tree && c.tree[name] == id && c.files[id].count != 0
    ensures OthersFrom(Create(Orphaned(c, id), name, of, env, now).cache, c, name)
    ensures Gone(Create(Orphaned(c, id), name, of, env, now).cache, c, name, now)
  {
    hide Create;
    OrphanedInv(c, {id}, Hand(of), id, now);
    assert {id} - {id} == {};
    CreateOthers(Orphaned(c, id), name, of, env, now);
    OrphanGone(Create(Orphaned(c, id), name, of, env, now).cache, c, id, name, now);
  }

  lemma OrphanGone(d: Cache, c: Cache, id: Id, name: Name, now: int)
    requires id in c.files && id !in c.queue && TreeOk(c.files, c.tree) && name in c.tree && c.tree[name] == id
    requires Gone(d, Orphaned(c, id), name, now)
    ensures Gone(d, c, name, now)
  {
    forall n | n in c.tree && n != name && n !in d.tree ensures c.current >= c.max && Expirable(c, c.tree[n], now) {
      assert Expirable(Orphaned(c, id), c.tree[n], now);
    }
  }

  lemma RetestOthers(c: Cache, id: Id, name: Name, of: OpenInfo, env: Environment, now: int)
    requires Inv(c, {id}, {}) && Ordered(c.files, c.queue, now) && Sane(c, env) && of.err == 0
    requires name in c.tree && c.tree[name] == id && !HitMisled(c.files[id], of, env, now)
    requires !Fresh(c.files[id], of, now) && (c.files[id].fd != INVALID_FILE || c.files[id].err != 0 || c.files[id].isDir)
    ensures OthersFrom(Retest(c, id, name, of, env, now).cache, c, name)
    ensures Gone(Retest(c, id, name, of, env, now).cache, c, name, now)
  {
    hide NodesOk, FdsOk, ClaimsOk;
    var f := c.files[id];
    var of1 := RetestInfo(f, of);
    var o := OpenAndStat(c, of1, env);
    if !Hopeless(o) && !SameKind(f, o.of) && f.count != 0 {
      assert !Kept(of1, env);
      OpenAndStatInv(c, {id}, of1, env);
    }
    AskingKeepsNodes(c, of1, env);
    RetestedOthers(c, o.cache, id, name, o, env, now);
  }

  /** The same once the file system has been asked. */
  lemma RetestedOthers(c: Cache, c1: Cache, id: Id, name: Name, o: Opening, env: Environment, now: int)
    requires c1 == o.cache && SameNodes(c1, c)
    requires TreeOk(c.files, c.tree) && name in c.tree && c.tree[name] == id && id in c.files
    requires Ordered(c.files, c.queue, now) && (env.node ==> env.id !in c.files)
    requires !Hopeless(o) && !SameKind(c.files[id], o.of) && c.files[id].count != 0 ==> Inv(c1, {id}, Hand(o.of))
    ensures OthersFrom(Retested(o, id, name, env, now).cache, c, name) && Gone(Retested(o, id, name, env, now).cache, c, name, now)
  {
    hide OthersFrom, Gone, Update, Create, Hopeless, SameKind, Inv, Ordered, TreeOk;
    var f := c.files[id];
    var d := Retested(o, id, name, env, now).cache;
    if Hopeless(o) {
      GiveUpOthers(c1, id, name, o.of, now);
    } else if SameKind(f, o.of) {
      UpdateOthers(c1, id, name, o.of, now);
    } else if f.count == 0 {
      UpdateOthers(CloseFd(c1, f.fd), id, name, o.of, now);
      OthersFromSame(d, CloseFd(c1, f.fd), c, name, now);
    } else {
      ReplaceOthers(c1, id, name, o.of, env, now);
    }
    OthersFromSame(d, c1, c, name, now);
  }

  predicate SameNodes(b: Cache, c: Cache) {
    b.tree == c.tree && b.files == c.files && b.queue == c.queue && b.current == c.current && b.max == c.max && b.inactive == c.inactive
  }

  lemma OthersFromSame(d: Cache, b: Cache, c: Cache, name: Name, now: int)
    requires SameNodes(b, c)
    ensures OthersFrom(d, b, name) ==> OthersFrom(d, c, name)
    ensures Gone(d, b, name, now) ==> Gone(d, c, name, now)
  {
    if Gone(d, b, name, now) {
      forall n | n in c.tree && n != name && n !in d.tree ensures c.current >= c.max && Expirable(c, c.tree[n], now) {
        assert Expirable(b, b.tree[n], now);
      }
    }
  }

  lemma GiveUpOthers(c: Cache, id: Id, name: Name, of: OpenInfo, now: int)
    requires TreeOk(c.files, c.tree) && name in c.tree && c.tree[name] == id
    ensures OthersFrom(Failed(GiveUp(c, id), of).cache, c, name) && Gone(Failed(GiveUp(c, id), of).cache, c, name, now)
  {
  }

  /** A node that is used as it is. */
  lemma FreshOthers(c: Cache, id: Id, name: Name, of: OpenInfo, env: Environment, now: int)
    requires id in c.files && Fresh(c.files[id], of, now) && TreeOk(c.files, c.tree) && name in c.tree && c.tree[name] == id
    requires c.files[id].fd != INVALID_FILE || c.files[id].err != 0 || c.files[id].isDir
    ensures OthersFrom(HitOn(c, id, name, of, env, now).cache, c, name) && Gone(HitOn(c, id, name, of, env, now).cache, c, name, now)
  {
  }

  lemma HitOnOthers(c: Cache, id: Id, name: Name, of: OpenInfo, env: Environment, now: int)
    requires Inv(c, {id}, {}) && Ordered(c.files, c.queue, now) && Sane(c, env) && of.err == 0
    requires name in c.tree && c.tree[name] == id && !HitMisled(c.files[id], of, env, now)
    ensures OthersFrom(HitOn(c, id, name, of, env, now).cache, c, name) && Gone(HitOn(c, id, name, of, env, now).cache, c, name, now)
  {
    hide OthersFrom, Gone, Update, Retest, OpenAndStat, Ordered, NodesOk, QueueOk, FdsOk, ClaimsOk;
    var f := c.files[id];
    if f.fd == INVALID_FILE && f.err == 0 && !f.isDir {
      var o := OpenAndStat(c, of, env);
      AskingKeepsNodes(c, of, env);
      if Hopeless(o) {
        GiveUpOthers(o.cache, id, name, o.of, now);
      } else {
        UpdateOthers(o.cache, id, name, o.of, now);
      }
      OthersFromSame(HitOn(c, id, name, of, env, now).cache, o.cache, c, name, now);
    } else if Fresh(f, of, now) {
      FreshOthers(c, id, name, of, env, now);
    } else {
      RetestOthers(c, id, name, of, env, now);
    }
  }

  /** The cache when the name has been looked up: its node is off the queue. */
  ghost function LookedUp(c: Cache, name: Name): Cache {
    if name in c.tree && c.tree[name] in c.files then Counted(c, c.tree[name]) else c
  }

  /** Opening one name changes no other entry of the cache; only a full cache loses some, of the
      last three of the queue the last one and those that have not been used for long. */
  lemma OpenKeepsOthers(c: Cache, name: Name, info: OpenInfo, env: Environment, now: int)
    requires Valid(c, now) && Sane(c, env) && !OpenMisled(c, name, info, env, now)
    ensures OthersFrom(Open(c, name, info, env, now).cache, c, name)
    ensures Gone(Open(c, name, info, env, now).cache, LookedUp(c, name), name, now)
  {
    hide NodesOk, QueueOk, FdsOk;
    hide Ordered;
    hide HitOn;
    hide Create;
    var of := info.(fd := INVALID_FILE, err := 0);
    if env.pool && name in c.tree {
      var id := c.tree[name];
      CountedInv(c, id, now);
      HitOnOthers(Counted(c, id), id, name, of, env, now);
      assert Open(c, name, info, env, now) == HitOn(Counted(c, id), id, name, of, env, now);
    } else if env.pool {
      var o := OpenAndStat(c, of, env);
      AskingKeepsNodes(c, of, env);
      if !Hopeless(o) {
        OpenAndStatInv(c, {}, of, env);
        CreateOthers(o.cache, name, o.of, env, now);
      }
    }
  }
}
