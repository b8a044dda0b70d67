/** When ngx_open_cached_file asks the file system, and what it answers when it does not: what it was
    told the last time, and how long ago that was. */
module FileCacheHistory {
  import opened OpenFileCache
  import opened FileCacheInvariant
  import opened FileCacheSafety
  import opened FileCacheRuns
  import opened FileCacheAnswers

  // ---------------------------------------------------------------- one call

  function Answering(env: Environment, a: StatResult, b: OpenResult, f: FstatResult): Environment {
    env.(stat := a, open := b, fstat := f)
  }

  /** Whatever the file system would answer, the call does the same. */
  ghost predicate Unasked(c: Cache, name: Name, info: OpenInfo, env: Environment, now: int) {
    forall a, b, f :: Open(c, name, info, Answering(env, a, b, f), now) == Open(c, name, info, env, now)
  }

  /** The entry is good for an answer: it has a descriptor, an error or a directory, was made less than
      `valid` ago, and suits the number and the settings that are asked for. */
  predicate Recent(f: File, info: OpenInfo, now: int) {
    && (f.fd != INVALID_FILE || f.err != 0 || f.isDir)
    && now - f.created < info.valid
    && (info.uniq == 0 || info.uniq == f.uniq) && info.symlinks == f.symlinks
  }

  ghost predicate Has(c: Cache, name: Name) { name in c.tree && c.tree[name] in c.files }

  function Entry(c: Cache, name: Name): File
    requires Has(c, name)
  {
    c.files[c.tree[name]]
  }

  /** The answer is one that the file system gave to this call. */
  predicate Told(env: Environment, a: OpenInfo) {
    || (a.err == 0 && env.stat.StatOk? && Shows(a, env.stat.stat))
    || (a.err == 0 && env.open.Opened? && env.fstat.FstatOk? && Shows(a, env.fstat.stat))
    || env.stat == StatFailed(a.err) || env.open == OpenFailed(a.err)
    || (a.err == 0 && env.open.Opened? && env.fstat.FstatFailed?)
  }

  predicate Shows(a: OpenInfo, st: Stat) {
    a.uniq == st.uniq && a.isDir == st.isDir && a.info == st.info
  }

  lemma AskingTells(c: Cache, of: OpenInfo, env: Environment)
    requires of.err == 0
    ensures var o := OpenAndStat(c, of, env); Told(env, o.of) && o.of.symlinks == of.symlinks && o.of.errors == of.errors
    ensures OpenAndStat(c, of, env).ok ==> OpenAndStat(c, of, env).of.err == 0
    ensures !OpenAndStat(c, of, env).ok && OpenAndStat(c, of, env).of.err == 0 ==>
              env.fstat.FstatFailed? || env.stat == StatFailed(0) || env.open == OpenFailed(0)
  {
  }

  /** What a call that asks leaves: an entry made now with the answer, unless that is an error that is
      not to be kept, or memory is short. */
  predicate Stamped(r: Result, name: Name, info: OpenInfo, env: Environment, now: int) {
    && Told(env, r.of)
    && (name in r.cache.tree ==>
          var id := r.cache.tree[name];
          && id in r.cache.files && r.cache.files[id].created == now && r.cache.files[id].symlinks == info.symlinks
          && (r.of.err == 0 || info.errors))
    && (name !in r.cache.tree ==>
          || !env.node || (r.of.err != 0 && !info.errors)
          || (r.of.err == 0 && (env.fstat.FstatFailed? || env.stat == StatFailed(0) || env.open == OpenFailed(0))))
  }

  lemma UpdateStamps(c: Cache, id: Id, name: Name, o: Opening, info: OpenInfo, env: Environment, now: int)
    requires id in c.files && name in c.tree && c.tree[name] == id && !Hopeless(o)
    requires Told(env, o.of) && o.of.symlinks == info.symlinks && o.of.errors == info.errors && (o.ok ==> o.of.err == 0)
    ensures Stamped(Update(c, id, o.of, now), name, info, env, now)
  {
    UpdateForm(c, id, o.of, now);
  }

  lemma CreateStamps(c: Cache, name: Name, o: Opening, info: OpenInfo, env: Environment, now: int)
    requires name !in c.tree && !Hopeless(o)
    requires Told(env, o.of) && o.of.symlinks == info.symlinks && o.of.errors == info.errors && (o.ok ==> o.of.err == 0)
    ensures Stamped(Create(c, name, o.of, env, now), name, info, env, now)
  {
    hide Expire, Update;
    ExpireShrinks(c, 0, now);
    var c1 := if c.current >= c.max then Expire(c, 0, now) else c;
    if env.node {
      var f := env.junk.(name := name, uses := 1, count := 0);
      UpdateStamps(Link(Put(c1, env.id, f), env.id), env.id, name, o, info, env, now);
    }
  }

  lemma GiveUpStamps(c: Cache, id: Id, name: Name, o: Opening, info: OpenInfo, env: Environment, now: int)
    requires id in c.files && c.files[id].name == name && Hopeless(o)
    requires Told(env, o.of) && o.of.errors == info.errors
    requires o.of.err == 0 ==> env.fstat.FstatFailed? || env.stat == StatFailed(0) || env.open == OpenFailed(0)
    ensures Stamped(Failed(GiveUp(c, id), o.of), name, info, env, now)
  {
    assert name !in GiveUp(c, id).tree;
  }

  lemma RetestStamps(c: Cache, id: Id, name: Name, of: OpenInfo, env: Environment, now: int)
    requires id in c.files && name in c.tree && c.tree[name] == id && c.files[id].name == name && of.err == 0
    ensures Stamped(Retest(c, id, name, of, env, now), name, of, env, now)
  {
    hide OpenAndStat, Stamped, Told, Update, Create, Failed, GiveUp;
    var f := c.files[id];
    var of1 := RetestInfo(f, of);
    var o := OpenAndStat(c, of1, env);
    AskingKeepsNodes(c, of1, env);
    AskingTells(c, of1, env);
    if Hopeless(o) {
      GiveUpStamps(o.cache, id, name, o, of, env, now);
    } else if SameKind(f, o.of) {
      UpdateStamps(o.cache, id, name, o, of, env, now);
    } else if f.count == 0 {
      UpdateStamps(CloseFd(o.cache, f.fd), id, name, o, of, env, now);
    } else {
      CreateStamps(Orphaned(o.cache, id), name, o, of, env, now);
    }
  }

  /** The call when the entry is no good for an answer. */
  lemma HitStamps(c: Cache, id: Id, name: Name, of: OpenInfo, env: Environment, now: int)
    requires id in c.files && name in c.tree && c.tree[name] == id && c.files[id].name == name && of.err == 0
    requires !Recent(c.files[id], of, now)
    ensures Stamped(HitOn(c, id, name, of, env, now), name, of, env, now)
  {
    hide OpenAndStat, Stamped, Told, Update, Retest, Failed, GiveUp;
    var f := c.files[id];
    if f.fd == INVALID_FILE && f.err == 0 && !f.isDir {
      var o := OpenAndStat(c, of, env);
      AskingKeepsNodes(c, of, env);
      AskingTells(c, of, env);
      if Hopeless(o) {
        GiveUpStamps(o.cache, id, name, o, of, env, now);
      } else {
        UpdateStamps(o.cache, id, name, o, of, env, now);
      }
    } else {
      RetestStamps(c, id, name, of, env, now);
    }
  }

  lemma MissStamps(c: Cache, name: Name, of: OpenInfo, env: Environment, now: int)
    requires name !in c.tree && of.err == 0
    ensures var o := OpenAndStat(c, of, env);
            Stamped(if Hopeless(o) then Failed(o.cache, o.of) else Create(o.cache, name, o.of, env, now), name, of, env, now)
  {
    hide OpenAndStat, Told, Create;
    var o := OpenAndStat(c, of, env);
    AskingKeepsNodes(c, of, env);
    AskingTells(c, of, env);
    if !Hopeless(o) {
      CreateStamps(o.cache, name, o, of, env, now);
    }
  }

  lemma OpenStamps(c: Cache, t: int, name: Name, info: OpenInfo, env: Environment, now: int)
    requires Valid(c, t) && env.pool && !(Has(c, name) && Recent(Entry(c, name), info, now))
    ensures Stamped(Open(c, name, info, env, now), name, info, env, now)
  {
    hide HitOn, Create, OpenAndStat;
    var of := info.(fd := INVALID_FILE, err := 0);
    if name in c.tree {
      var id := c.tree[name];
      HitStamps(Counted(c, id), id, name, of, env, now);
      assert Open(c, name, info, env, now) == HitOn(Counted(c, id), id, name, of, env, now);
    } else {
      MissStamps(c, name, of, env, now);
    }
  }

  /** The call asks exactly if there is no entry that is good for an answer. */
  lemma UnaskedIff(c: Cache, t: int, name: Name, info: OpenInfo, env: Environment, now: int)
    requires Valid(c, t) && env.pool
    ensures Unasked(c, name, info, env, now) <==> Has(c, name) && Recent(Entry(c, name), info, now)
  {
    hide Valid;
    if Has(c, name) && Recent(Entry(c, name), info, now) {
      forall a, b, f ensures Open(c, name, info, Answering(env, a, b, f), now) == Open(c, name, info, env, now) {
        RecentIgnores(c, name, info, env, Answering(env, a, b, f), now);
      }
    } else {
      var one := Answering(env, StatFailed(1), OpenFailed(1), FstatFailed);
      var two := Answering(env, StatFailed(2), OpenFailed(2), FstatFailed);
      OpenStamps(c, t, name, info, one, now);
      OpenStamps(c, t, name, info, two, now);
      assert Open(c, name, info, one, now) != Open(c, name, info, two, now);
    }
  }

  lemma RecentIgnores(c: Cache, name: Name, info: OpenInfo, env: Environment, env': Environment, now: int)
    requires Has(c, name) && Recent(Entry(c, name), info, now) && env.pool && env'.pool
    ensures Open(c, name, info, env', now) == Open(c, name, info, env, now)
  {
    hide Retest, OpenAndStat, Found;
  }

  // ---------------------------------------------------------------- how often an entry was used

  /** The entry has been used once more, or for the first time. */
  predicate Used(c: Cache, r: Result, name: Name) {
    name in r.cache.tree ==>
      var id := r.cache.tree[name];
      && id in r.cache.files
      && if name in c.tree && c.tree[name] == id then id in c.files && r.cache.files[id].uses == c.files[id].uses + 1
         else id !in c.files && r.cache.files[id].uses == 1
  }

  lemma CreateUses(c: Cache, name: Name, of: OpenInfo, env: Environment, now: int)
    requires name !in c.tree
    ensures var d := Create(c, name, of, env, now).cache;
            name in d.tree ==> env.node && d.tree[name] == env.id && env.id in d.files && d.files[env.id].uses == 1
  {
    hide Expire;
    ExpireShrinks(c, 0, now);
    var c1 := if c.current >= c.max then Expire(c, 0, now) else c;
    if env.node {
      InsertForm(c1, env.id, env.junk.(name := name, uses := 1, count := 0), of, now);
    }
  }

  lemma UpdateUses(c: Cache, id: Id, of: OpenInfo, now: int)
    requires id in c.files
    ensures var d := Update(c, id, of, now).cache; d.tree == c.tree && id in d.files && d.files[id].uses == c.files[id].uses
  {
    UpdateForm(c, id, of, now);
  }

  /** The same number of uses, or the first one. */
  predicate StillUsed(c: Cache, d: Cache, name: Name) {
    name in d.tree ==>
      var id := d.tree[name];
      && id in d.files
      && if name in c.tree && c.tree[name] == id then id in c.files && d.files[id].uses == c.files[id].uses
         else id !in c.files && d.files[id].uses == 1
  }

  lemma RetestUses(c: Cache, id: Id, name: Name, of: OpenInfo, env: Environment, now: int)
    requires id in c.files && name in c.tree && c.tree[name] == id && c.files[id].name == name && (env.node ==> env.id !in c.files)
    ensures StillUsed(c, Retest(c, id, name, of, env, now).cache, name)
  {
    hide OpenAndStat, Update, Create;
    var f := c.files[id];
    var o := OpenAndStat(c, RetestInfo(f, of), env);
    AskingKeepsNodes(c, RetestInfo(f, of), env);
    UpdateUses(o.cache, id, o.of, now);
    UpdateUses(CloseFd(o.cache, f.fd), id, o.of, now);
    CreateUses(Orphaned(o.cache, id), name, o.of, env, now);
  }

  lemma HitUses(c: Cache, id: Id, name: Name, of: OpenInfo, env: Environment, now: int)
    requires id in c.files && name in c.tree && c.tree[name] == id && c.files[id].name == name && (env.node ==> env.id !in c.files)
    ensures StillUsed(c, HitOn(c, id, name, of, env, now).cache, name)
  {
    hide OpenAndStat, Update, Retest;
    var o := OpenAndStat(c, of, env);
    AskingKeepsNodes(c, of, env);
    UpdateUses(o.cache, id, o.of, now);
    RetestUses(c, id, name, of, env, now);
  }

  lemma OpenUses(c: Cache, t: int, name: Name, info: OpenInfo, env: Environment, now: int)
    requires Valid(c, t) && env.pool && Sane(c, env)
    ensures Used(c, Open(c, name, info, env, now), name)
  {
    hide HitOn, Create, OpenAndStat;
    var of := info.(fd := INVALID_FILE, err := 0);
    if name in c.tree {
      var id := c.tree[name];
      HitUses(Counted(c, id), id, name, of, env, now);
      assert Open(c, name, info, env, now) == HitOn(Counted(c, id), id, name, of, env, now);
    } else {
      var o := OpenAndStat(c, of, env);
      AskingKeepsNodes(c, of, env);
      CreateUses(o.cache, name, o.of, env, now);
    }
  }

  // ---------------------------------------------------------------- what an entry remembers

  /** What is remembered of a file: the facts, and when and with which settings it was asked for. */
  predicate SameMemory(f: File, g: File) {
    f.created == g.created && f.symlinks == g.symlinks && f.err == g.err
    && f.uniq == g.uniq && f.info == g.info && f.isDir == g.isDir
  }

  /** Of every name in `d`, `d` remembers what `c` does. */
  ghost predicate Remembers(d: Cache, c: Cache) {
    forall n :: Has(d, n) ==> Has(c, n) && SameMemory(Entry(d, n), Entry(c, n))
  }

  lemma CloseRemembers(c: Cache, id: Id, minUses: nat, now: int)
    requires id in c.files
    ensures Remembers(CloseCached(c, id, minUses, now), c)
  {
    var d := CloseCached(c, id, minUses, now);
    assert d.tree == c.tree;
    forall i | i in d.files ensures i in c.files && SameMemory(d.files[i], c.files[i]) {
    }
  }

  lemma EvictRemembers(c: Cache, id: Id, now: int)
    requires id in c.files
    ensures Remembers(Evict(c, id, now), c)
  {
    hide CloseCached;
    var f := c.files[id];
    var c1 := Unlink(Unqueue(c, id), id);
    if f.err == 0 && !f.isDir {
      CloseRemembers(Put(c1, id, f.(close := true)), id, 0, now);
    }
  }

  lemma {:induction false} ExpireRemembers(c: Cache, n: nat, now: int)
    ensures Remembers(Expire(c, n, now), c)
    decreases 3 - n
  {
    hide Evict;
    if n < 3 && c.queue != [] {
      var id := c.queue[|c.queue| - 1];
      if id in c.files && (n == 0 || now - c.files[id].accessed > c.inactive) {
        EvictRemembers(c, id, now);
        ExpireRemembers(Evict(c, id, now), n + 1, now);
      }
    }
  }

  lemma CleanupRemembers(c: Cache, claim: Claim, minUses: nat, now: int)
    requires claim.id in c.files
    ensures Remembers(Cleanup(c, claim, minUses, now), c)
  {
    hide CloseCached, Expire;
    var c1 := Released(c, claim);
    CloseRemembers(c1, claim.id, minUses, now);
    ExpireRemembers(CloseCached(c1, claim.id, minUses, now), 1, now);
  }

  /** A call that does not ask remembers what was remembered. */
  lemma RecentRemembers(c: Cache, name: Name, info: OpenInfo, env: Environment, now: int)
    requires Has(c, name) && Recent(Entry(c, name), info, now) && env.pool
    ensures var r := Open(c, name, info, env, now);
            Remembers(r.cache, c) && r.of.err == Entry(c, name).err
            && (r.of.err == 0 ==> r.of.uniq == Entry(c, name).uniq && r.of.info == Entry(c, name).info && r.of.isDir == Entry(c, name).isDir)
  {
    hide Retest, OpenAndStat;
  }

  // ---------------------------------------------------------------- over a run

  /** The k-th event is a call for `name`, and asks the file system. */
  ghost predicate Asks(cs: seq<Cache>, es: seq<Event>, k: nat, name: Name)
    requires |cs| == |es| + 1 && k < |es|
  {
    var e := es[k];
    e.OpenCall? && e.name == name && e.env.pool && !Unasked(cs[k], name, e.info, e.env, e.now)
  }

  /** Before the k-th event the file system was last asked for `name` by the j-th. */
  ghost predicate LastAsked(cs: seq<Cache>, es: seq<Event>, j: nat, k: nat, name: Name)
    requires |cs| == |es| + 1 && k <= |es|
  {
    j < k && Asks(cs, es, j, name) && forall m :: j < m < k ==> !Asks(cs, es, m, name)
  }

  /** What the caller of the k-th event is told. */
  function Answer(cs: seq<Cache>, es: seq<Event>, k: nat): OpenInfo
    requires |cs| == |es| + 1 && k < |es| && es[k].OpenCall?
  {
    Open(cs[k], es[k].name, es[k].info, es[k].env, es[k].now).of
  }

  /** The entry has what the j-th event was told. */
  predicate FromEvent(f: File, e: Event, a: OpenInfo)
    requires e.OpenCall?
  {
    f.created == e.now && f.symlinks == e.info.symlinks && f.err == a.err
    && (f.err == 0 ==> f.uniq == a.uniq && f.info == a.info && f.isDir == a.isDir)
  }

  /** Every entry has what the file system told when it was last asked for that name. */
  ghost predicate Dated(cs: seq<Cache>, es: seq<Event>, k: nat)
    requires |cs| == |es| + 1 && k <= |es|
  {
    forall n :: Has(cs[k], n) ==>
      exists j: nat :: LastAsked(cs, es, j, k, n) && FromEvent(Entry(cs[k], n), es[j], Answer(cs, es, j))
  }

  lemma {:induction false} RunDated(cs: seq<Cache>, es: seq<Event>, start: int, k: nat)
    requires Run(cs, es, start) && k <= |es|
    ensures Dated(cs, es, k)
  {
    hide *;
    RunLength(cs, es, start);
    if k == 0 {
      NothingDated(cs, es, start);
    } else {
      RunDated(cs, es, start, k - 1);
      NextDated(cs, es, start, k - 1);
    }
  }

  lemma NextDated(cs: seq<Cache>, es: seq<Event>, start: int, k: nat)
    requires |cs| == |es| + 1 && Run(cs, es, start) && k < |es|
    ensures Dated(cs, es, k) ==> Dated(cs, es, k + 1)
  {
    hide *;
    RunValid(cs, es, start, k);
    RunStep(cs, es, start, k);
    if Dated(cs, es, k) {
      StepDated(cs, es, Time(es, k, start), k);
    }
  }

  lemma RunLength(cs: seq<Cache>, es: seq<Event>, start: int)
    requires Run(cs, es, start)
    ensures |cs| == |es| + 1
  {
  }

  lemma NothingDated(cs: seq<Cache>, es: seq<Event>, start: int)
    requires Run(cs, es, start)
    ensures Dated(cs, es, 0)
  {
  }

  lemma StepDated(cs: seq<Cache>, es: seq<Event>, t: int, k: nat)
    requires |cs| == |es| + 1 && k < |es| && Dated(cs, es, k) && Valid(cs[k], t) && Step(cs[k], t, es[k], cs[k + 1])
    ensures Dated(cs, es, k + 1)
  {
    hide Valid, Unasked, OpenMisled, Sane;
    var c, d, e := cs[k], cs[k + 1], es[k];
    forall n | Has(d, n)
      ensures exists j: nat :: LastAsked(cs, es, j, k + 1, n) && FromEvent(Entry(d, n), es[j], Answer(cs, es, j))
    {
      if Asks(cs, es, k, n) {
        AskedEntry(c, t, n, e, d);
        assert LastAsked(cs, es, k, k + 1, n) && FromEvent(Entry(d, n), es[k], Answer(cs, es, k));
      } else {
        OtherEntry(c, t, e, d, n);
        var j: nat :| LastAsked(cs, es, j, k, n) && FromEvent(Entry(c, n), es[j], Answer(cs, es, j));
        assert LastAsked(cs, es, j, k + 1, n) && FromEvent(Entry(d, n), es[j], Answer(cs, es, j));
      }
    }
  }

  lemma AskedEntry(c: Cache, t: int, n: Name, e: Event, d: Cache)
    requires Valid(c, t) && Step(c, t, e, d) && Has(d, n)
    requires e.OpenCall? && e.name == n && e.env.pool && !Unasked(c, n, e.info, e.env, e.now)
    ensures FromEvent(Entry(d, n), e, Open(c, n, e.info, e.env, e.now).of)
  {
    hide Valid, Unasked, OpenMisled, Sane, Open, Told;
    UnaskedIff(c, t, n, e.info, e.env, e.now);
    OpenStamps(c, t, n, e.info, e.env, e.now);
    OpenAnswers(c, t, n, e.info, e.env, e.now);
  }

  /** An entry that this event did not ask about. */
  lemma OtherEntry(c: Cache, t: int, e: Event, d: Cache, n: Name)
    requires Valid(c, t) && Step(c, t, e, d) && Has(d, n)
    requires !(e.OpenCall? && e.name == n && e.env.pool && !Unasked(c, n, e.info, e.env, e.now))
    ensures Has(c, n) && SameMemory(Entry(d, n), Entry(c, n))
  {
    hide Unasked, OpenMisled, Sane, Open, Cleanup;
    match e
    case CleanupCall(claim, minUses, now) =>
      assert claim.id in c.files by {
        ClaimantOk(c, claim);
      }
      CleanupRemembers(c, claim, minUses, now);
    case OpenCall(name, info, env, now) =>
      if name != n {
        OpenKeepsOthers(c, name, info, env, now);
        assert n in c.tree;
      } else if env.pool {
        UnaskedIff(c, t, n, info, env, now);
        RecentRemembers(c, n, info, env, now);
      } else {
        NoPool(c, name, info, env, now);
      }
  }

  lemma NoPool(c: Cache, name: Name, info: OpenInfo, env: Environment, now: int)
    requires !env.pool
    ensures Open(c, name, info, env, now).cache == c
  {
  }

  /** The same answer, as far as it comes from the file system. */
  predicate SameAnswer(a: OpenInfo, b: OpenInfo) {
    a.err == b.err && (a.err == 0 ==> a.uniq == b.uniq && a.info == b.info && a.isDir == b.isDir)
  }

  /** Every call of every run: one that asks tells what the file system answers to it; any other tells
      what the file system answered when it was last asked for this name, less than `valid` ago and
      with the same settings about symlinks. */
  lemma AnswerIsRecent(cs: seq<Cache>, es: seq<Event>, start: int, k: nat)
    requires Run(cs, es, start) && k < |es| && es[k].OpenCall? && es[k].env.pool
    ensures var e, a := es[k], Answer(cs, es, k);
            if Asks(cs, es, k, e.name) then Told(e.env, a)
            else exists j: nat ::
              && LastAsked(cs, es, j, k, e.name) && SameAnswer(a, Answer(cs, es, j))
              && e.now - es[j].now < e.info.valid && es[j].info.symlinks == e.info.symlinks
  {
    RunLength(cs, es, start);
    hide Run, Valid, Unasked, Told, Dated;
    var e := es[k];
    RunValid(cs, es, start, k);
    UnaskedIff(cs[k], Time(es, k, start), e.name, e.info, e.env, e.now);
    if Asks(cs, es, k, e.name) {
      OpenStamps(cs[k], Time(es, k, start), e.name, e.info, e.env, e.now);
    } else {
      RunDated(cs, es, start, k);
      var j := WhenAsked(cs, es, k, e.name);
      RecentRemembers(cs[k], e.name, e.info, e.env, e.now);
      assert LastAsked(cs, es, j, k, e.name) && SameAnswer(Answer(cs, es, k), Answer(cs, es, j));
    }
  }

  lemma WhenAsked(cs: seq<Cache>, es: seq<Event>, k: nat, n: Name) returns (j: nat)
    requires |cs| == |es| + 1 && k <= |es| && Dated(cs, es, k) && Has(cs[k], n)
    ensures LastAsked(cs, es, j, k, n) && FromEvent(Entry(cs[k], n), es[j], Answer(cs, es, j))
  {
    hide Unasked;
    j :| LastAsked(cs, es, j, k, n) && FromEvent(Entry(cs[k], n), es[j], Answer(cs, es, j));
  }

  /** And conversely: as long as the entry is there and has its descriptor, an error or a directory, a
      call with the same settings does not ask before `valid` is over. */
  lemma RecentIsUnasked(cs: seq<Cache>, es: seq<Event>, start: int, k: nat, j: nat)
    requires Run(cs, es, start) && k < |es| && es[k].OpenCall? && es[k].env.pool
    requires LastAsked(cs, es, j, k, es[k].name) && Has(cs[k], es[k].name)
    requires var f, info := Entry(cs[k], es[k].name), es[k].info;
             (f.fd != INVALID_FILE || f.err != 0 || f.isDir) && (info.uniq == 0 || info.uniq == f.uniq)
    ensures !Asks(cs, es, k, es[k].name)
            <==> es[k].now - es[j].now < es[k].info.valid && es[j].info.symlinks == es[k].info.symlinks
  {
    RunLength(cs, es, start);
    hide Run, Valid, Unasked, Dated;
    var e := es[k];
    RunValid(cs, es, start, k);
    UnaskedIff(cs[k], Time(es, k, start), e.name, e.info, e.env, e.now);
    RunDated(cs, es, start, k);
    var i := WhenAsked(cs, es, k, e.name);
    OnlyOneLast(cs, es, i, j, k, e.name);
  }

  lemma OnlyOneLast(cs: seq<Cache>, es: seq<Event>, i: nat, j: nat, k: nat, n: Name)
    requires |cs| == |es| + 1 && k <= |es| && LastAsked(cs, es, i, k, n) && LastAsked(cs, es, j, k, n)
    ensures i == j
  {
    hide Asks;
  }
}
