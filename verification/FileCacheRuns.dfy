/** What holds of the open file cache over all runs, and the two answers of the file system that
    break it. */
module FileCacheRuns {
  import opened OpenFileCache
  import opened FileCacheInvariant
  import opened FileCacheSafety

  // ---------------------------------------------------------------- when the cache breaks

  /** Expiring does not touch a node off the queue. */
  lemma {:induction false} ExpireKeepsOrphan(c: Cache, n: nat, now: int, id: Id)
    requires id in c.files && id !in c.queue
    ensures id in Expire(c, n, now).files && Expire(c, n, now).files[id] == c.files[id]
    decreases 3 - n
  {
    hide Evict;
    if n < 3 && c.queue != [] {
      var x := c.queue[|c.queue| - 1];
      if x in c.files && (n == 0 || now - c.files[x].accessed > c.inactive) {
        EvictKeepsOthers(c, x, now, id);
        ExpireKeepsOrphan(Evict(c, x, now), n + 1, now, id);
      }
    }
  }

  lemma EvictKeepsOthers(c: Cache, x: Id, now: int, id: Id)
    requires x in c.files && id in c.files && id !in c.queue && x != id
    ensures var d := Evict(c, x, now); id in d.files && d.files[id] == c.files[id] && id !in d.queue
  {
    if id in Remove(c.queue, x) {
      RemovedFrom(c.queue, x, id);
    }
  }

  /** An open file without users whose number went to a directory: the node keeps a descriptor
      that has just been closed. */
  lemma UnusedBecomesDirectory(c: Cache, id: Id, o: OpenInfo, now: int)
    requires id in c.files && o.fd == c.files[id].fd != INVALID_FILE
    ensures !Valid(Update(CloseFd(c, o.fd), id, o, now).cache, now)
  {
    var c1 := CloseFd(c, o.fd);
    UpdateForm(c1, id, o, now);
    var d := Update(c1, id, o, now).cache;
    assert d.files[id].fd == o.fd && o.fd !in d.fds;
  }

  /** An open file in use whose number went to a directory: two nodes own its descriptor, or
      the descriptor is closed under its users. */
  lemma UsedBecomesDirectory(c: Cache, id: Id, name: Name, o: OpenInfo, env: Environment, now: int)
    requires id in c.files && id !in c.queue && o.fd == c.files[id].fd != INVALID_FILE
    requires env.node ==> env.id !in c.files
    ensures !Valid(Create(c, name, o, env, now).cache, now)
  {
    var c1 := if c.current >= c.max then Expire(c, 0, now) else c;
    ExpireKeepsOrphan(c, 0, now, id);
    var d := Create(c, name, o, env, now).cache;
    if env.node {
      InsertForm(c1, env.id, env.junk.(name := name, uses := 1, count := 0), o, now);
      assert d.files[id].fd == d.files[env.id].fd;
    } else {
      assert d.files[id].fd == o.fd && o.fd !in d.fds;
    }
  }

  /** The name changed back to the cached file between stat() and open(): the old descriptor is
      overwritten and never closed. */
  lemma ChangedBack(c: Cache, id: Id, o: OpenInfo, now: int)
    requires id in c.files && c.files[id].fd in c.fds && o.fd != c.files[id].fd
    requires forall i :: i in c.files && c.files[i].fd == c.files[id].fd ==> i == id
    ensures !Valid(Update(c, id, o, now).cache, now)
  {
    UpdateForm(c, id, o, now);
    var d := Update(c, id, o, now).cache;
    assert c.files[id].fd in d.fds;
    assert !Owned(d.files, c.files[id].fd);
  }

  lemma MisledHit(c: Cache, id: Id, name: Name, of: OpenInfo, env: Environment, now: int)
    requires Inv(c, {id}, {}) && of.err == 0 && Sane(c, env)
    requires HitMisled(c.files[id], of, env, now)
    ensures !Valid(HitOn(c, id, name, of, env, now).cache, now)
  {
    var f := c.files[id];
    var of1 := RetestInfo(f, of);
    var o := OpenAndStat(c, of1, env);
    if Kept(of1, env) {
      if f.count == 0 {
        UnusedBecomesDirectory(c, id, o.of, now);
      } else {
        UsedBecomesDirectory(Orphaned(c, id), id, name, o.of, env, now);
      }
    } else {
      ChangedBack(o.cache, id, o.of, now);
    }
  }

  lemma MisledOpen(c: Cache, name: Name, info: OpenInfo, env: Environment, now: int)
    requires Valid(c, now) && Sane(c, env) && OpenMisled(c, name, info, env, now)
    ensures !Valid(Open(c, name, info, env, now).cache, now)
  {
    var of := info.(fd := INVALID_FILE, err := 0);
    var id := c.tree[name];
    CountedInv(c, id, now);
    MisledHit(Counted(c, id), id, name, of, env, now);
    assert Open(c, name, info, env, now) == HitOn(Counted(c, id), id, name, of, env, now);
  }

  /** ngx_open_cached_file keeps the cache in order exactly when the file system does not
      mislead it about an open file. */
  lemma OpenValidIff(c: Cache, name: Name, info: OpenInfo, env: Environment, now: int)
    requires Valid(c, now) && Sane(c, env)
    ensures Valid(Open(c, name, info, env, now).cache, now) <==> !OpenMisled(c, name, info, env, now)
  {
    if OpenMisled(c, name, info, env, now) {
      MisledOpen(c, name, info, env, now);
    } else {
      OpenKeepsValid(c, name, info, env, now);
    }
  }

  /** One open file named [47], number 7, descriptor 3, no users, last looked at at time 0. */
  function OneFile(): Cache {
    var f := File([47], 0, 0, 3, 7, 0, 0, 1, 0, false, false, 0);
    Cache(map[5 := f], map[[47] := 5], [5], 1, 10, 20, {3}, multiset{}, true)
  }

  function Asking(): OpenInfo {
    OpenInfo(INVALID_FILE, 0, false, 0, 0, false, 60, false, 0)
  }

  /** At time 60 a directory has the number of the file: the cache closes descriptor 3 and goes on
      using it. */
  lemma DirectoryWithSameNumber(env: Environment)
    requires env.pool && env.stat == StatOk(Stat(7, true, 0)) && Sane(OneFile(), env)
    ensures Valid(OneFile(), 60)
    ensures var r := Open(OneFile(), [47], Asking(), env, 60);
            r.rc && r.cache.files[5].fd == 3 && 3 !in r.cache.fds && !Valid(r.cache, 60)
  {
    OneFileValid();
    OpenValidIff(OneFile(), [47], Asking(), env, 60);
  }

  /** At time 60 stat() sees another file, and open() the old one again: descriptor 3 leaks. */
  lemma FileChangesBack(env: Environment)
    requires env.pool && env.stat == StatOk(Stat(8, false, 0)) && env.open == Opened(4)
    requires env.fstat == FstatOk(Stat(7, false, 0)) && Sane(OneFile(), env)
    ensures Valid(OneFile(), 60)
    ensures var r := Open(OneFile(), [47], Asking(), env, 60);
            r.rc && 3 in r.cache.fds && !Owned(r.cache.files, 3) && !Valid(r.cache, 60)
  {
    OneFileValid();
    OpenValidIff(OneFile(), [47], Asking(), env, 60);
  }

  lemma OneFileValid()
    ensures Valid(OneFile(), 60)
  {
    assert Owns(OneFile().files, 5, 3);
  }

  // ---------------------------------------------------------------- runs

  datatype Event =
    | OpenCall(name: Name, info: OpenInfo, env: Environment, now: int)
    | CleanupCall(claim: Claim, minUses: nat, now: int)

  /** What may happen next: time does not go back, the system hands out what is free, a cleanup
      runs that was registered, and the file system does not mislead. */
  predicate Possible(c: Cache, t: int, e: Event) {
    t <= e.now &&
    match e
    case OpenCall(name, info, env, now) => Sane(c, env) && !OpenMisled(c, name, info, env, now)
    case CleanupCall(claim, _, _) => claim in c.claims
  }

  function Next(c: Cache, e: Event): Cache {
    match e
    case OpenCall(name, info, env, now) => Open(c, name, info, env, now).cache
    case CleanupCall(claim, minUses, now) => Cleanup(c, claim, minUses, now)
  }

  predicate Empty(c: Cache) {
    c.files == map[] && c.tree == map[] && c.queue == [] && c.current == 0
    && c.fds == {} && c.claims == multiset{} && c.ok
  }

  function Time(es: seq<Event>, k: nat, start: int): int
    requires k <= |es|
  {
    if k == 0 then start else es[k - 1].now
  }

  predicate Step(c: Cache, t: int, e: Event, d: Cache) {
    Possible(c, t, e) && d == Next(c, e)
  }

  /** A run from an empty cache: `cs` are the caches before, between and after the events. */
  predicate Run(cs: seq<Cache>, es: seq<Event>, start: int) {
    |cs| == |es| + 1 && Empty(cs[0])
    && forall k :: 0 <= k < |es| ==> Step(cs[k], Time(es, k, start), es[k], cs[k + 1])
  }

  /** The cache of the examples is reached: the file is opened once, and its only user leaves. */
  lemma OneFileReached() returns (cs: seq<Cache>, es: seq<Event>)
    ensures Run(cs, es, 0) && Time(es, |es|, 0) == 0 && cs[|es|] == OneFile()
  {
    var junk := File([], 0, 0, 0, 0, 0, 0, 0, 0, false, false, 0);
    var env := Environment(StatFailed(2), Opened(3), FstatOk(Stat(7, false, 0)), true, true, 5, junk);
    var c0 := Cache(map[], map[], [], 0, 10, 20, {}, multiset{}, true);
    var ask, leave := OpenCall([47], Asking(), env, 0), CleanupCall(Claim(5, 3), 1, 0);
    var c1 := Next(c0, ask);
    es, cs := [ask, leave], [c0, c1, OneFile()];
    assert c1 == OneFile().(files := map[5 := OneFile().files[5].(count := 1)], claims := multiset{Claim(5, 3)}) by {
      FirstOpen(c0, env);
    }
    assert Step(cs[0], 0, es[0], cs[1]);
    FirstCleanup(c1);
    assert Step(cs[1], 0, es[1], cs[2]);
  }

  lemma FirstOpen(c: Cache, env: Environment)
    requires c == Cache(map[], map[], [], 0, 10, 20, {}, multiset{}, true)
    requires env.open == Opened(3) && env.fstat == FstatOk(Stat(7, false, 0)) && env.pool && env.node && env.id == 5
    ensures Open(c, [47], Asking(), env, 0).cache
         == OneFile().(files := map[5 := OneFile().files[5].(count := 1)], claims := multiset{Claim(5, 3)})
  {
    var of := Asking().(fd := 3, uniq := 7);
    var o := OpenAndStat(c, Asking(), env);
    assert o.of == of && o.cache == c.(fds := {3}) && !Hopeless(o);
    var f := env.junk.(name := [47], uses := 1, count := 0);
    InsertForm(o.cache, 5, f, of, 0);
  }

  lemma FirstCleanup(c: Cache)
    requires c == OneFile().(files := map[5 := OneFile().files[5].(count := 1)], claims := multiset{Claim(5, 3)})
    ensures Cleanup(c, Claim(5, 3), 1, 0) == OneFile()
  {
    var d := Released(c, Claim(5, 3));
    assert d.claims == multiset{};
    assert d == OneFile();
    assert CloseCached(d, 5, 1, 0) == OneFile() by {
      assert Remove([5], 5) == [];
    }
    assert Expire(OneFile(), 1, 0) == OneFile();
  }

  lemma NextValid(c: Cache, t: int, e: Event)
    requires Valid(c, t) && Possible(c, t, e)
    ensures Valid(Next(c, e), e.now)
  {
    assert Valid(c, e.now);
    match e
    case OpenCall(name, info, env, now) => OpenKeepsValid(c, name, info, env, now);
    case CleanupCall(claim, minUses, now) => CleanupValid(c, claim, minUses, now);
  }

  /** Over every run: the cache is in order at every moment. */
  lemma {:induction false} RunValid(cs: seq<Cache>, es: seq<Event>, start: int, k: nat)
    requires Run(cs, es, start) && k <= |es|
    ensures Valid(cs[k], Time(es, k, start))
  {
    hide Valid, Step;
    if k == 0 {
      EmptyValid(cs[0], start);
    } else {
      RunValid(cs, es, start, k - 1);
      RunStepValid(cs, es, start, k - 1);
    }
  }

  lemma RunStep(cs: seq<Cache>, es: seq<Event>, start: int, k: nat)
    requires Run(cs, es, start) && k < |es|
    ensures Step(cs[k], Time(es, k, start), es[k], cs[k + 1])
  {
  }

  lemma RunStepValid(cs: seq<Cache>, es: seq<Event>, start: int, k: nat)
    requires Run(cs, es, start) && k < |es| && Valid(cs[k], Time(es, k, start))
    ensures Valid(cs[k + 1], Time(es, k + 1, start))
  {
    RunStep(cs, es, start, k);
    StepValid(cs[k], Time(es, k, start), es[k], cs[k + 1]);
  }

  lemma StepValid(c: Cache, t: int, e: Event, d: Cache)
    requires Valid(c, t) && Step(c, t, e, d)
    ensures Valid(d, e.now)
  {
    NextValid(c, t, e);
  }

  lemma EmptyValid(c: Cache, t: int)
    requires Empty(c)
    ensures Valid(c, t)
  {
  }

  // ---------------------------------------------------------------- what it means for users

  /** Only its own cleanup ends a user. */
  lemma OnlyCleanupEndsUser(c: Cache, e: Event, claim: Claim)
    requires e.CleanupCall? ==> e.claim.id in c.files
    ensures Next(c, e).claims[claim] + (if e.CleanupCall? && e.claim == claim then 1 else 0) >= c.claims[claim]
  {
    match e
    case OpenCall(name, info, env, now) => OpenKeepsUsers(c, name, info, env, now);
    case CleanupCall(cl, minUses, now) =>
      ExpireKeepsUsers(CloseCached(Released(c, cl), cl.id, minUses, now), 1, now);
  }

  lemma {:induction false} ExpireKeepsUsers(c: Cache, n: nat, now: int)
    ensures Expire(c, n, now).claims == c.claims
    decreases 3 - n
  {
    if n < 3 && c.queue != [] {
      var id := c.queue[|c.queue| - 1];
      if id in c.files && (n == 0 || now - c.files[id].accessed > c.inactive) {
        assert Evict(c, id, now).claims == c.claims;
        ExpireKeepsUsers(Evict(c, id, now), n + 1, now);
      }
    }
  }

  lemma CreateKeepsUsers(c: Cache, name: Name, of: OpenInfo, env: Environment, now: int)
    ensures c.claims <= Create(c, name, of, env, now).cache.claims
  {
    ExpireKeepsUsers(c, 0, now);
  }

  lemma AskingKeepsNodes(c: Cache, of: OpenInfo, env: Environment)
    ensures OpenAndStat(c, of, env).cache.files == c.files && OpenAndStat(c, of, env).cache.tree == c.tree
    ensures OpenAndStat(c, of, env).cache.claims == c.claims && OpenAndStat(c, of, env).cache.queue == c.queue
    ensures var d := OpenAndStat(c, of, env).cache; d.current == c.current && d.max == c.max && d.inactive == c.inactive
  {
  }

  lemma UpdateKeepsUsers(c: Cache, id: Id, of: OpenInfo, now: int)
    requires id in c.files
    ensures c.claims <= Update(c, id, of, now).cache.claims
  {
  }

  lemma RetestKeepsUsers(c: Cache, id: Id, name: Name, of: OpenInfo, env: Environment, now: int)
    requires id in c.files
    ensures c.claims <= Retest(c, id, name, of, env, now).cache.claims
  {
    var f := c.files[id];
    var o := OpenAndStat(c, RetestInfo(f, of), env);
    AskingKeepsNodes(c, RetestInfo(f, of), env);
    if !Hopeless(o) {
      UpdateKeepsUsers(o.cache, id, o.of, now);
      UpdateKeepsUsers(CloseFd(o.cache, f.fd), id, o.of, now);
      CreateKeepsUsers(Orphaned(o.cache, id), name, o.of, env, now);
    }
  }

  lemma FoundKeepsUsers(c: Cache, id: Id, of: OpenInfo, now: int)
    requires id in c.files
    ensures c.claims <= Found(c, id, of, now).cache.claims
  {
  }

  lemma HitOnKeepsUsers(c: Cache, id: Id, name: Name, of: OpenInfo, env: Environment, now: int)
    requires id in c.files
    ensures c.claims <= HitOn(c, id, name, of, env, now).cache.claims
  {
    hide OpenAndStat, Update, Retest, Found;
    var f := c.files[id];
    if f.fd == INVALID_FILE && f.err == 0 && !f.isDir {
      var o := OpenAndStat(c, of, env);
      AskingKeepsNodes(c, of, env);
      UpdateKeepsUsers(o.cache, id, o.of, now);
    } else if Fresh(f, of, now) {
      var of1 := of.(fd := f.fd, uniq := f.uniq, info := f.info, isDir := f.isDir);
      FoundKeepsUsers(c, id, of.(err := f.err), now);
      FoundKeepsUsers(c, id, of1, now);
      FoundKeepsUsers(Put(c, id, f.(count := f.count + 1)), id, of1, now);
    } else {
      RetestKeepsUsers(c, id, name, of, env, now);
    }
  }

  lemma OpenKeepsUsers(c: Cache, name: Name, info: OpenInfo, env: Environment, now: int)
    ensures c.claims <= Open(c, name, info, env, now).cache.claims
  {
    var of := info.(fd := INVALID_FILE, err := 0);
    if env.pool && name in c.tree {
      var id := c.tree[name];
      if id in c.files {
        HitOnKeepsUsers(Counted(c, id), id, name, of, env, now);
        assert Open(c, name, info, env, now) == HitOn(Counted(c, id), id, name, of, env, now);
      }
    } else if env.pool {
      var o := OpenAndStat(c, of, env);
      AskingKeepsNodes(c, of, env);
      CreateKeepsUsers(o.cache, name, o.of, env, now);
    }
  }

  /** While a user has not been cleaned up, the descriptor it reads from is open, exactly one
      node owns it, and that node counts its users. */
  lemma UserReadsOpenDescriptor(c: Cache, t: int, claim: Claim)
    requires Valid(c, t) && claim in c.claims
    ensures claim.fd in c.fds
    ensures Owns(c.files, claim.id, claim.fd) && c.files[claim.id].count == c.claims[claim]
    ensures forall i :: Owns(c.files, i, claim.fd) ==> i == claim.id
  {
    ClaimantOk(c, claim);
    assert claim == Claim(claim.id, claim.fd);
  }

  /** No descriptor is open without a node that will close it. */
  lemma NoLeak(c: Cache, t: int, fd: int)
    requires Valid(c, t)
    ensures fd in c.fds <==> fd != INVALID_FILE && Owned(c.files, fd)
  {
  }

  /** `current` is the number of names in the tree. */
  lemma CurrentCountsTree(c: Cache, t: int)
    requires Valid(c, t)
    ensures c.current == |c.tree|
  {
    NamesOfQueue(c.files, c.tree, c.queue);
  }

  lemma {:induction false} NamesOfQueue(files: Files, tree: Tree, q: seq<Id>)
    requires NoDup(q) && (forall i :: i in q ==> Linked(files, tree, i))
    requires forall n :: n in tree ==> tree[n] in files && files[tree[n]].name == n && tree[n] in q
    ensures |q| == |tree|
  {
    if q == [] {
      assert tree.Keys == {};
    } else {
      assert q == [q[0]] + q[1..];
      assert Linked(files, tree, q[0]);
      var n := files[q[0]].name;
      var rest := tree - {n};
      forall i | i in q[1..] ensures Linked(files, rest, i) {
        assert i in q && Linked(files, tree, i);
        assert i != q[0];
      }
      NamesOfQueue(files, rest, q[1..]);
      assert tree.Keys == rest.Keys + {n};
    }
  }

  /** Forced eviction takes a least recently used node off the tree. */
  lemma {:induction false} EvictsLeastRecentlyUsed(c: Cache, t: int, now: int, i: Id)
    requires Valid(c, t) && c.queue != [] && Linked(c.files, c.tree, i)
    ensures var last := c.queue[|c.queue| - 1];
            last in c.files && c.files[last].accessed <= c.files[i].accessed <= t
            && c.files[last].name !in Expire(c, 0, now).tree
  {
    hide ClaimsOk, NodesOk, Evict;
    var last := c.queue[|c.queue| - 1];
    assert i in c.queue;
    assert Linked(c.files, c.tree, last);
    EvictIsDeparture(c, {}, {}, last, now);
    assert c.files[last].name !in Evict(c, last, now).tree;
    ExpireShrinks(Evict(c, last, now), 1, now);
  }

  // ---------------------------------------------------------------- the end

  /** When no user is left, ngx_open_file_cache_cleanup closes every descriptor and frees every
      node; neither of its two alerts is raised. */
  lemma {:induction false} ShutdownClosesAll(c: Cache, t: int, now: int)
    requires Valid(c, t) && c.claims == multiset{}
    ensures var d := Shutdown(c, now);
            d.ok && d.files == map[] && d.tree == map[] && d.current == 0 && d.fds == {}
  {
    ShutdownInv(c, now, t);
    var d := Shutdown(c, now);
    NothingLeft(d);
  }

  lemma NoUsers(c: Cache, out: set<Id>, id: Id)
    requires Inv(c, out, {}) && c.claims == multiset{} && id in c.files
    ensures c.files[id].count == 0
  {
    assert c.claims[Claim(id, c.files[id].fd)] == 0;
    assert Owns(c.files, id, c.files[id].fd);
  }

  lemma NothingLeft(c: Cache)
    requires Inv(c, {}, {}) && c.claims == multiset{} && c.queue == []
    ensures c.files == map[] && c.tree == map[] && c.current == 0 && c.fds == {}
  {
    forall i | i in c.files ensures c.files[i].count == 0 {
      NoUsers(c, {}, i);
    }
    assert forall i :: !Linked(c.files, c.tree, i);
    assert c.files == map[];
    NoDescriptors(c.files, c.fds);
  }

  lemma NoDescriptors(files: Files, fds: set<int>)
    requires FdsOk(files, fds, {}) && files == map[]
    ensures fds == {}
  {
    forall fd ensures fd !in fds {
      assert fd in fds ==> Owned(files, fd);
    }
  }

  lemma {:induction false} ShutdownInv(c: Cache, now: int, t: int)
    requires Inv(c, {}, {}) && Ordered(c.files, c.queue, t) && c.claims == multiset{}
    ensures var d := Shutdown(c, now); Inv(d, {}, {}) && d.claims == multiset{} && d.queue == []
    decreases |c.queue|
  {
    if c.queue != [] {
      var id := c.queue[|c.queue| - 1];
      EvictInv(c, {}, {}, now, t);
      NoUsers(c, {}, id);
      var d := Evict(c, id, now);
      var f := c.files[id];
      assert f.(close := true, count := 0) == f.(close := true);
      assert d.claims == c.claims;
      ShutdownInv(d, now, t);
      assert Shutdown(c, now) == Shutdown(d, now);
    }
  }
}
