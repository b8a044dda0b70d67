/** The open file cache of ngx_open_file_cache.c: one set of nodes held both in a red-black tree
    and in an LRU queue, with reference counts, orphaned nodes and file descriptors.

    This module says what each operation does to the whole cache, as a function on values;
    module `FileCacheOps` has the statements that do it in place.  Nodes are records at
    addresses, the queue is the sequence of the addresses it links, head first, and the tree is
    the map from file names to addresses that module `RedBlackTree` justifies.  The file system
    and the allocator are parameters of each call.

    `ok` turns false when a step does what the code must never do: close a descriptor that is
    not open, unlink a node that is not linked, link a name twice, or touch a freed node. */
module OpenFileCache {

  type Id = nat
  type Name = seq<nat>

  const INVALID_FILE: int := -1

  /** What stat() and fstat() tell about a file; `info` stands for the fields that are only copied. */
  datatype Stat = Stat(uniq: nat, isDir: bool, info: nat)

  datatype File = File(
    name: Name, created: int, accessed: int, fd: int, uniq: nat, info: nat, err: nat,
    uses: nat, count: int, close: bool, isDir: bool, symlinks: nat)

  /** A pool cleanup registered for one user: it will release node `id`, and until then the user
      reads from descriptor `fd`. */
  datatype Claim = Claim(id: Id, fd: int)

  datatype Cache = Cache(
    files: map<Id, File>,      // allocated nodes
    tree: map<Name, Id>,       // nodes linked into the red-black tree
    queue: seq<Id>,            // nodes linked into expire_queue
    current: int,
    max: nat,
    inactive: int,
    fds: set<int>,             // descriptors the cache has opened and not closed
    claims: multiset<Claim>,   // registered pool cleanups that have not run
    ok: bool)

  /** The in- and output record of ngx_open_cached_file. */
  datatype OpenInfo = OpenInfo(
    fd: int, uniq: nat, isDir: bool, info: nat, err: nat,
    testDir: bool, valid: int, errors: bool, symlinks: nat)

  datatype StatResult = StatFailed(errno: nat) | StatOk(stat: Stat)
  datatype OpenResult = OpenFailed(errno: nat) | Opened(fd: nat)
  datatype FstatResult = FstatFailed | FstatOk(stat: Stat)

  /** What the surroundings answer during one call, as far as they are asked: the file system,
      whether the pool and the heap have memory, and the address and old contents of that memory. */
  datatype Environment = Environment(
    stat: StatResult, open: OpenResult, fstat: FstatResult,
    pool: bool, node: bool, id: Id, junk: File)

  // ---------------------------------------------------------------- primitive steps

  function CloseFd(c: Cache, fd: int): Cache {
    c.(fds := c.fds - {fd}, ok := c.ok && fd in c.fds)
  }

  function Remove(q: seq<Id>, id: Id): (r: seq<Id>)
    ensures |r| == if id in q then |q| - 1 else |q|
  {
    if q == [] then [] else if q[0] == id then q[1..] else [q[0]] + Remove(q[1..], id)
  }

  /** ngx_queue_remove */
  function Unqueue(c: Cache, id: Id): Cache {
    c.(queue := Remove(c.queue, id), ok := c.ok && id in c.queue)
  }

  /** ngx_queue_insert_head */
  function Enqueue(c: Cache, id: Id): Cache {
    c.(queue := [id] + c.queue)
  }

  /** ngx_rbtree_insert and cache->current++ */
  function Link(c: Cache, id: Id): Cache
    requires id in c.files
  {
    var n := c.files[id].name;
    c.(tree := c.tree[n := id], current := c.current + 1, ok := c.ok && n !in c.tree)
  }

  /** ngx_rbtree_delete and cache->current-- */
  function Unlink(c: Cache, id: Id): Cache
    requires id in c.files
  {
    var n := c.files[id].name;
    c.(tree := c.tree - {n}, current := c.current - 1, ok := c.ok && n in c.tree && c.tree[n] == id)
  }

  /** ngx_free(file->name); ngx_free(file) */
  function Free(c: Cache, id: Id): Cache {
    c.(files := c.files - {id}, ok := c.ok && id in c.files)
  }

  function Put(c: Cache, id: Id, f: File): Cache {
    c.(files := c.files[id := f])
  }

  // ---------------------------------------------------------------- ngx_open_and_stat_file

  function Learn(of: OpenInfo, st: Stat): OpenInfo {
    of.(uniq := st.uniq, isDir := st.isDir, info := st.info)
  }

  datatype Opening = Opening(cache: Cache, of: OpenInfo, ok: bool)

  function OpenNew(c: Cache, of: OpenInfo, env: Environment): Opening {
    match env.open
    case OpenFailed(e) => Opening(c, of.(fd := INVALID_FILE, err := e), false)
    case Opened(fd) =>
      var c1 := c.(fds := c.fds + {fd});
      match env.fstat
      case FstatFailed => Opening(CloseFd(c1, fd), of.(fd := INVALID_FILE), false)
      case FstatOk(st) =>
        if st.isDir then Opening(CloseFd(c1, fd), Learn(of.(fd := INVALID_FILE), st), true)
        else Opening(c1, Learn(of.(fd := fd), st), true)
  }

  function OpenAndStat(c: Cache, of: OpenInfo, env: Environment): Opening {
    if of.fd != INVALID_FILE then
      match env.stat
      case StatFailed(e) => Opening(c, of.(fd := INVALID_FILE, err := e), false)
      case StatOk(st) => if of.uniq == st.uniq then Opening(c, Learn(of, st), true) else OpenNew(c, of, env)
    else if of.testDir then
      match env.stat
      case StatFailed(e) => Opening(c, of.(fd := INVALID_FILE, err := e), false)
      case StatOk(st) => if st.isDir then Opening(c, Learn(of, st), true) else OpenNew(c, of, env)
    else
      OpenNew(c, of, env)
  }

  // ---------------------------------------------------------------- closing and expiring

  /** ngx_close_cached_file */
  function CloseCached(c: Cache, id: Id, minUses: nat, now: int): Cache
    requires id in c.files
  {
    var f := c.files[id];
    var c1 := if f.close then c else Enqueue(Unqueue(Put(c, id, f.(accessed := now)), id), id);
    if !f.close && (f.uses >= minUses || f.count != 0) then c1
    else if f.count != 0 then c1
    else
      var g := c1.files[id];
      var c2 := if g.fd != INVALID_FILE then Put(CloseFd(c1, g.fd), id, g.(fd := INVALID_FILE)) else c1;
      if !f.close then c2 else Free(c2, id)
  }

  /** One round of ngx_expire_old_cached_files. */
  function Evict(c: Cache, id: Id, now: int): Cache
    requires id in c.files
  {
    var f := c.files[id];
    var c1 := Unlink(Unqueue(c, id), id);
    if f.err == 0 && !f.isDir then CloseCached(Put(c1, id, f.(close := true)), id, 0, now)
    else Free(c1, id)
  }

  /** ngx_expire_old_cached_files: with n == 0 the last node of the queue goes by force. */
  function Expire(c: Cache, n: nat, now: int): Cache
    decreases 3 - n
  {
    if n >= 3 || c.queue == [] then c
    else
      var id := c.queue[|c.queue| - 1];
      if id !in c.files then c.(ok := false)
      else if n != 0 && now - c.files[id].accessed <= c.inactive then c
      else Expire(Evict(c, id, now), n + 1, now)
  }

  /** ngx_open_file_cleanup, run when the pool of a user is destroyed */
  function Cleanup(c: Cache, claim: Claim, minUses: nat, now: int): Cache {
    if claim.id !in c.files then c.(ok := false)
    else Expire(CloseCached(Released(c, claim), claim.id, minUses, now), 1, now)
  }

  /** The node has one user less. */
  function Released(c: Cache, claim: Claim): Cache
    requires claim.id in c.files
  {
    var f := c.files[claim.id];
    Put(c, claim.id, f.(count := f.count - 1)).(claims := c.claims - multiset{claim})
  }

  /** ngx_open_file_cache_cleanup, run when the pool of the cache itself is destroyed */
  function Shutdown(c: Cache, now: int): Cache
    decreases |c.queue|
  {
    if c.queue == [] then c
    else
      var id := c.queue[|c.queue| - 1];
      if id !in c.files then c.(ok := false)
      else
        var f := c.files[id];
        var c1 := Unlink(Unqueue(c, id), id);
        if f.err == 0 && !f.isDir then
          Shutdown(CloseCached(Put(c1, id, f.(close := true, count := 0)), id, 0, now), now)
        else Shutdown(Free(c1, id), now)
  }

  // ---------------------------------------------------------------- ngx_open_cached_file

  datatype Result = Result(cache: Cache, of: OpenInfo, rc: bool)

  /** The label `found`. */
  function Found(c: Cache, id: Id, of: OpenInfo, now: int): Result
    requires id in c.files
  {
    var c1 := Enqueue(Put(c, id, c.files[id].(accessed := now)), id);
    if of.err == 0 then
      Result(if of.isDir then c1 else c1.(claims := c1.claims + multiset{Claim(id, of.fd)}), of, true)
    else
      Result(c1, of, false)
  }

  /** The node as the label `update` leaves it. */
  function Updated(f: File, of: OpenInfo, now: int): File {
    var g := f.(fd := of.fd, err := of.err, symlinks := of.symlinks, created := now);
    if of.err != 0 then g
    else g.(uniq := of.uniq, info := of.info, close := false, isDir := of.isDir,
            count := if of.isDir then g.count else g.count + 1)
  }

  /** The label `update`; the step `add_event` before it does nothing without kqueue. */
  function Update(c: Cache, id: Id, of: OpenInfo, now: int): Result
    requires id in c.files
  {
    Found(Put(c, id, Updated(c.files[id], of, now)), id, of, now)
  }

  /** The label `failed` once its `file` is dealt with. */
  function Failed(c: Cache, of: OpenInfo): Result {
    Result(if of.fd != INVALID_FILE then CloseFd(c, of.fd) else c, of, false)
  }

  /** What the label `failed` does to a `file` that is not null. */
  function GiveUp(c: Cache, id: Id): Cache
    requires id in c.files
  {
    var f := c.files[id];
    var c1 := Unlink(c, id);
    if f.count == 0 then Free(if f.fd != INVALID_FILE then CloseFd(c1, f.fd) else c1, id)
    else Put(c1, id, f.(close := true))
  }

  /** The label `create`. */
  function Create(c: Cache, name: Name, of: OpenInfo, env: Environment, now: int): Result {
    var c1 := if c.current >= c.max then Expire(c, 0, now) else c;
    if !env.node then Failed(c1, of)
    else Update(Link(Put(c1, env.id, env.junk.(name := name, uses := 1, count := 0)), env.id), env.id, of, now)
  }

  /** Whether an answer of the file system is an error that is not to be cached. */
  predicate Hopeless(o: Opening) {
    !o.ok && (o.of.err == 0 || !o.of.errors)
  }

  /** Whether the cached node may answer without asking the file system. */
  predicate Fresh(f: File, of: OpenInfo, now: int) {
    (of.uniq == 0 || of.uniq == f.uniq) && now - f.created < of.valid && of.symlinks == f.symlinks
  }

  /** The record `of` as it is before a cached node is retested. */
  function RetestInfo(f: File, of: OpenInfo): OpenInfo {
    of.(testDir := of.testDir || f.isDir, fd := f.fd, uniq := f.uniq)
  }

  /** Whether a retested node is updated in place without closing anything. */
  predicate SameKind(f: File, of: OpenInfo) {
    if of.isDir then f.isDir || f.err != 0
    else if of.err == 0 then f.isDir || f.err != 0 || of.uniq == f.uniq
    else f.err != 0 || f.isDir
  }

  /** A found node whose answer is too old. */
  function Retest(c: Cache, id: Id, name: Name, of: OpenInfo, env: Environment, now: int): Result
    requires id in c.files
  {
    Retested(OpenAndStat(c, RetestInfo(c.files[id], of), env), id, name, env, now)
  }

  /** What becomes of the node by what the file system answered. */
  function Retested(o: Opening, id: Id, name: Name, env: Environment, now: int): Result
    requires id in o.cache.files
  {
    var f := o.cache.files[id];
    if Hopeless(o) then Failed(GiveUp(o.cache, id), o.of)
    else if SameKind(f, o.of) then Update(o.cache, id, o.of, now)
    else if f.count == 0 then Update(CloseFd(o.cache, f.fd), id, o.of, now)
    else Create(Put(Unlink(o.cache, id), id, f.(close := true)), name, o.of, env, now)
  }

  /** A found node, counted as used once more and taken off the queue. */
  function HitOn(c: Cache, id: Id, name: Name, of: OpenInfo, env: Environment, now: int): Result
    requires id in c.files
  {
    var f := c.files[id];
    if f.fd == INVALID_FILE && f.err == 0 && !f.isDir then
      var o := OpenAndStat(c, of, env);
      if Hopeless(o) then Failed(GiveUp(o.cache, id), o.of) else Update(o.cache, id, o.of, now)
    else if Fresh(f, of, now) then
      if f.err != 0 then Found(c, id, of.(err := f.err), now)
      else
        var of1 := of.(fd := f.fd, uniq := f.uniq, info := f.info, isDir := f.isDir);
        Found(if f.isDir then c else Put(c, id, f.(count := f.count + 1)), id, of1, now)
    else
      Retest(c, id, name, of, env, now)
  }

  /** A found node is counted as used once more and taken off the queue. */
  function Counted(c: Cache, id: Id): Cache
    requires id in c.files
  {
    Unqueue(Put(c, id, c.files[id].(uses := c.files[id].uses + 1)), id)
  }

  /** A node was found in the tree. */
  function Hit(c: Cache, id: Id, name: Name, of: OpenInfo, env: Environment, now: int): Result
    requires id in c.files
  {
    HitOn(Counted(c, id), id, name, of, env, now)
  }

  /** ngx_open_cached_file with a cache */
  function Open(c: Cache, name: Name, info: OpenInfo, env: Environment, now: int): Result
  {
    var of := info.(fd := INVALID_FILE, err := 0);
    if !env.pool then Result(c, of, false)
    else if name in c.tree then
      if c.tree[name] !in c.files then Result(c.(ok := false), of, false) else Hit(c, c.tree[name], name, of, env, now)
    else
      var o := OpenAndStat(c, of, env);
      if Hopeless(o) then Failed(o.cache, o.of) else Create(o.cache, name, o.of, env, now)
  }
}
