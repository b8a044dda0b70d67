/** ngx_hash_init and ngx_hash_find over the bytes of one memory area: the walk of a bucket finds
    what was written there, and nothing is written or read outside the area. */
module HashTable {
  import opened HashLayout

  const Null := -1

  /** Where the buckets start: each has its own room inside the area. */
  ghost predicate Apart(starts: seq<int>, keys: seq<Key>, size: nat, room: nat)
    requires size > 0
  {
    && |starts| == size
    && (forall i: nat {:trigger starts[i]} :: i < size ==>
          Bucket(keys, size, i) != [] ==>
            && 0 <= starts[i] && starts[i] % Pointer == 0
            && starts[i] + Size(Bucket(keys, size, i)) + Pointer <= room)
    && (forall i: nat, j: nat {:trigger starts[i], starts[j]} :: i < j < size ==>
          Bucket(keys, size, i) != [] && Bucket(keys, size, j) != [] ==>
            starts[i] + Size(Bucket(keys, size, i)) + Pointer <= starts[j])
    && (forall i: nat {:trigger starts[i]} :: i < size ==>
          Bucket(keys, size, i) == [] ==> starts[i] == Null)
  }

  /** The first `n` keys are in memory. */
  ghost predicate Stored(m: seq<byte>, starts: seq<int>, keys: seq<Key>, size: nat, n: nat)
    requires size > 0 && n <= |keys| && |starts| == size
  {
    forall i: nat {:trigger starts[i]} :: i < size && 0 <= starts[i] ==>
      Filled(m, starts[i], Bucket(keys[..n], size, i))
  }

  predicate Closed(m: seq<byte>, at: nat) {
    at + Pointer <= |m| && m[at..at + Pointer] == Bytes(0, Pointer)
  }

  ghost predicate Ready(m: seq<byte>, starts: seq<int>, keys: seq<Key>, size: nat)
    requires size > 0
  {
    && (forall i: nat :: i < size ==> Size(Bucket(keys, size, i)) < Short)
    && Apart(starts, keys, size, |m|)
    && Stored(m, starts, keys, size, |keys|)
    && (forall i: nat {:trigger starts[i]} :: i < size && 0 <= starts[i] ==>
          Closed(m, starts[i] + Size(Bucket(keys, size, i))))
  }

  /** What the source asks of keys: values are not null and are pointers. */
  ghost predicate Sound(keys: seq<Key>) {
    forall k :: k in keys ==> 0 < k.value < Power(Pointer)
  }

  lemma {:induction false} EntriesSound(keys: seq<Key>, size: nat, i: nat)
    requires size > 0 && Sound(keys)
    ensures forall e :: e in Bucket(keys, size, i) ==> 0 < e.value < Power(Pointer)
  {
    if keys != [] {
      EntriesSound(keys[..|keys| - 1], size, i);
    }
  }

  /** `w` is `m` with one element written at `at`. */
  predicate OnlyElement(m: seq<byte>, w: seq<byte>, at: nat, e: Entry) {
    Written(w, at, e) && Agree(m, w, 0, at) && Agree(m, w, at + EltSize(|e.name|), |m|)
  }

  /** Writing one more element leaves every bucket as it was but its own, which gets the element. */
  lemma {:induction false} StoredOneMore(m: seq<byte>, w: seq<byte>, starts: seq<int>, keys: seq<Key>, size: nat, n: nat)
    requires size > 0 && n < |keys| && keys[n].present
    requires Apart(starts, keys, size, |m|) && Stored(m, starts, keys, size, n)
    requires var i := keys[n].hash % size;
             && 0 <= starts[i]
             && OnlyElement(m, w, starts[i] + Size(Bucket(keys[..n], size, i)), EntryOf(keys[n]))
    ensures Stored(w, starts, keys, size, n + 1)
  {
    hide Written(), Bucket(), Size(), EltSize();
    assert keys[..n + 1][..n] == keys[..n];
    var own := keys[n].hash % size;
    var e := EntryOf(keys[n]);
    forall i: nat | i < size && 0 <= starts[i]
      ensures Filled(w, starts[i], Bucket(keys[..n + 1], size, i))
    {
      BucketGrows(keys[..n + 1], size, i);
      BucketBegins(keys, n, size, i);
      BucketBegins(keys, n + 1, size, i);
      var es := Bucket(keys[..n], size, i);
      RoomTaken(starts, keys, size, n, own, i, |m|);
      FilledAgrees(m, w, starts[i], es);
      if i == own {
        FilledGrows(w, starts[i], es, e);
      }
    }
  }

  /** What the next key does to the size of a bucket. */
  predicate Grown(keys: seq<Key>, size: nat, n: nat, i: nat)
    requires size > 0 && n < |keys|
  {
    && Size(Bucket(keys[..n + 1], size, i))
         == Size(Bucket(keys[..n], size, i)) + (if Falls(keys[n], size, i) then EltSize(|keys[n].name|) else 0)
    && Size(Bucket(keys[..n + 1], size, i)) <= Size(Bucket(keys, size, i))
  }

  lemma BucketStep(keys: seq<Key>, size: nat, n: nat, i: nat)
    requires size > 0 && n < |keys|
    ensures Grown(keys, size, n, i)
  {
    assert keys[..n + 1][..n] == keys[..n];
    BucketGrows(keys[..n + 1], size, i);
    BucketBegins(keys, n + 1, size, i);
  }

  ghost predicate Counted(used: seq<nat>, keys: seq<Key>, size: nat, n: nat)
    requires size > 0 && n <= |keys| && size <= |used|
  {
    forall i: nat {:trigger used[i]} :: i < size ==> used[i] == Size(Bucket(keys[..n], size, i))
  }

  lemma {:induction false} CountedNext(used: seq<nat>, next: seq<nat>, keys: seq<Key>, size: nat, n: nat)
    requires size > 0 && n < |keys| && size <= |used| == |next|
    requires Counted(used, keys, size, n)
    requires forall i: nat :: i < size ==> Size(Bucket(keys, size, i)) < Short
    requires forall i: nat :: i < size ==>
      next[i] == if Falls(keys[n], size, i) then (used[i] + EltSize(|keys[n].name|)) % Short else used[i]
    ensures Counted(next, keys, size, n + 1)
  {
    hide EltSize(), Size(), Bucket();
    forall i: nat | i < size ensures next[i] == Size(Bucket(keys[..n + 1], size, i)) {
      BucketStep(keys, size, n, i);
      assert used[i] == Size(Bucket(keys[..n], size, i));
    }
  }

  /** The 16-bit counters after `n` keys, begun at `base`. */
  ghost predicate Tallied(test: seq<nat>, keys: seq<Key>, size: nat, n: nat, base: nat)
    requires size > 0 && n <= |keys| && size <= |test|
  {
    forall i: nat {:trigger test[i]} :: i < size ==> test[i] == (base + Size(Bucket(keys[..n], size, i))) % Short
  }

  lemma CutTwice(x: nat, y: nat)
    ensures (x % Short + y) % Short == (x + y) % Short
  {
  }

  lemma NothingTallied(test: seq<nat>, keys: seq<Key>, size: nat, base: nat)
    requires 0 < size <= |test| && base < Short && forall i: nat :: i < size ==> test[i] == base
    ensures Tallied(test, keys, size, 0, base)
  {
    assert keys[..0] == [];
  }

  lemma TalliedNext(test: seq<nat>, next: seq<nat>, keys: seq<Key>, size: nat, n: nat, base: nat)
    requires size > 0 && n < |keys| && size <= |test| == |next|
    requires Tallied(test, keys, size, n, base)
    requires forall i: nat :: i < size ==>
      next[i] == if Falls(keys[n], size, i) then (test[i] + EltSize(|keys[n].name|)) % Short else test[i]
    ensures Tallied(next, keys, size, n + 1, base)
  {
    hide EltSize(), Size(), Bucket();
    forall i: nat | i < size ensures next[i] == (base + Size(Bucket(keys[..n + 1], size, i))) % Short {
      BucketStep(keys, size, n, i);
      assert test[i] == (base + Size(Bucket(keys[..n], size, i))) % Short;
      CutTwice(base + Size(Bucket(keys[..n], size, i)), EltSize(|keys[n].name|));
    }
  }

  lemma {:induction false} OverfullStays(keys: seq<Key>, n: nat, size: nat, limit: nat)
    requires size > 0 && n <= |keys| && Overfull(keys[..n], size, limit)
    ensures Overfull(keys, size, limit)
    decreases |keys|
  {
    hide Bucket(), Counter();
    if n == |keys| {
      assert keys[..n] == keys;
    } else {
      assert keys[..|keys| - 1][..n] == keys[..n];
      OverfullStays(keys[..|keys| - 1], n, size, limit);
    }
  }

  lemma StoredNone(m: seq<byte>, starts: seq<int>, keys: seq<Key>, size: nat, n: nat)
    requires size > 0 && n < |keys| && !keys[n].present && |starts| == size
    requires Stored(m, starts, keys, size, n)
    ensures Stored(m, starts, keys, size, n + 1)
  {
    hide Filled();
    assert keys[..n + 1][..n] == keys[..n];
    forall i: nat | i < size && 0 <= starts[i]
      ensures Filled(m, starts[i], Bucket(keys[..n + 1], size, i))
    {
      BucketGrows(keys[..n + 1], size, i);
    }
  }

  /** A bucket that gets a key has its room. */
  lemma BucketFound(starts: seq<int>, keys: seq<Key>, size: nat, n: nat, room: nat)
    requires size > 0 && n < |keys| && keys[n].present && Apart(starts, keys, size, room)
    ensures 0 <= starts[keys[n].hash % size]
  {
    var i := keys[n].hash % size;
    assert keys[..n + 1][..n] == keys[..n];
    BucketGrows(keys[..n + 1], size, i);
    BucketBegins(keys, n + 1, size, i);
    assert Bucket(keys, size, i) != [];
    assert starts[i] >= 0;
  }

  /** The elements written so far lie apart from where the next one goes. */
  lemma {:induction false} RoomTaken(starts: seq<int>, keys: seq<Key>, size: nat, n: nat, own: nat, i: nat, room: nat)
    requires size > 0 && n < |keys| && keys[n].present && own == keys[n].hash % size && i < size
    requires Apart(starts, keys, size, room) && 0 <= starts[own] && 0 <= starts[i]
    ensures var at := starts[own] + Size(Bucket(keys[..n], size, own));
            var es := EltSize(|keys[n].name|);
            && at + es + Pointer <= starts[own] + Size(Bucket(keys, size, own)) + Pointer <= room
            && (starts[i] + Size(Bucket(keys[..n], size, i)) <= at
                || at + es <= starts[i])
            && starts[i] + Size(Bucket(keys[..n], size, i)) <= room
  {
    hide Bucket(), Size(), EltSize();
    assert keys[..n + 1][..n] == keys[..n];
    BucketGrows(keys[..n + 1], size, own);
    BucketBegins(keys, n + 1, size, own);
    BucketBegins(keys, n, size, i);
    assert starts[own] >= 0;
    assert starts[i] >= 0;
  }

  /** Closing a bucket after its last element touches no element and no other closing null. */
  lemma {:induction false} StoredStays(m: seq<byte>, w: seq<byte>, starts: seq<int>, keys: seq<Key>, size: nat, own: nat, i: nat)
    requires size > 0 && own < size && i < size
    requires Apart(starts, keys, size, |m|) && 0 <= starts[own] && 0 <= starts[i]
    requires Filled(m, starts[i], Bucket(keys, size, i))
    requires var at := starts[own] + Size(Bucket(keys, size, own));
             Agree(m, w, 0, at) && Agree(m, w, at + Pointer, |m|)
    ensures Filled(w, starts[i], Bucket(keys, size, i))
    ensures i != own && Closed(m, starts[i] + Size(Bucket(keys, size, i))) ==>
              Closed(w, starts[i] + Size(Bucket(keys, size, i)))
  {
    hide Bytes(), Bucket(), Size(), Filled();
    assert starts[own] >= 0;
    assert starts[i] >= 0;
    FilledAgrees(m, w, starts[i], Bucket(keys, size, i));
    var at := starts[i] + Size(Bucket(keys, size, i));
    if i != own {
      assert m[at..at + Pointer] == w[at..at + Pointer];
    }
  }

  /** All elements are in memory and the first `n` buckets are closed. */
  ghost predicate Intact(m: seq<byte>, starts: seq<int>, keys: seq<Key>, size: nat, n: nat)
    requires size > 0
  {
    && n <= size == |starts|
    && (forall i: nat {:trigger starts[i]} :: i < size && 0 <= starts[i] ==>
          Filled(m, starts[i], Bucket(keys, size, i)))
    && (forall i: nat {:trigger starts[i]} :: i < n && 0 <= starts[i] ==>
          Closed(m, starts[i] + Size(Bucket(keys, size, i))))
  }

  lemma NothingStored(m: seq<byte>, starts: seq<int>, keys: seq<Key>, size: nat)
    requires size > 0 && |starts| == size
    ensures Stored(m, starts, keys, size, 0)
  {
    assert keys[..0] == [];
  }

  lemma AllStored(m: seq<byte>, starts: seq<int>, keys: seq<Key>, size: nat)
    requires size > 0 && |starts| == size && Stored(m, starts, keys, size, |keys|)
    ensures Intact(m, starts, keys, size, 0)
  {
    assert keys[..|keys|] == keys;
  }

  lemma {:induction false} IntactIsReady(m: seq<byte>, starts: seq<int>, keys: seq<Key>, size: nat)
    requires size > 0 && forall i: nat :: i < size ==> Size(Bucket(keys, size, i)) < Short
    requires Apart(starts, keys, size, |m|) && Intact(m, starts, keys, size, size)
    ensures Ready(m, starts, keys, size)
  {
    assert keys[..|keys|] == keys;
  }

  lemma IntactSkip(m: seq<byte>, starts: seq<int>, keys: seq<Key>, size: nat, n: nat)
    requires size > 0 && n < size && Intact(m, starts, keys, size, n) && starts[n] < 0
    ensures Intact(m, starts, keys, size, n + 1)
  {
    hide Filled(), Closed(), Size(), Bucket();
  }

  lemma {:induction false} IntactNext(m: seq<byte>, w: seq<byte>, starts: seq<int>, keys: seq<Key>, size: nat, n: nat)
    requires size > 0 && n < size && Apart(starts, keys, size, |m|) && Intact(m, starts, keys, size, n)
    requires 0 <= starts[n]
    requires var at := starts[n] + Size(Bucket(keys, size, n));
             Agree(m, w, 0, at) && Agree(m, w, at + Pointer, |m|) && Closed(w, at)
    ensures Intact(w, starts, keys, size, n + 1)
  {
    hide Apart(), Filled(), Closed(), Size(), Bucket();
    forall i: nat | i < size && 0 <= starts[i]
      ensures Filled(w, starts[i], Bucket(keys, size, i))
      ensures i <= n ==> Closed(w, starts[i] + Size(Bucket(keys, size, i)))
    {
      StoredStays(m, w, starts, keys, size, n, i);
    }
  }

  // ---------------------------------------------------------------- where the buckets go

  /** The bytes set aside for the buckets below `i`. */
  function Offset(keys: seq<Key>, size: nat, line: nat, i: nat): nat
    requires size > 0 && line > 0
  {
    if i == 0 then 0 else Offset(keys, size, line, i - 1) + Reserved(Bucket(keys, size, i - 1), line)
  }

  /** The counters below `n` after rounding. */
  ghost predicate Rounded(test: seq<nat>, keys: seq<Key>, size: nat, line: nat, n: nat)
    requires size > 0 && line > 0
  {
    && n <= |test|
    && forall i: nat {:trigger test[i]} :: i < n ==>
         var es := Bucket(keys, size, i);
         && (test[i] == Pointer <==> es == [])
         && Reserved(es, line) == if es == [] then 0 else test[i]
  }

  /** What the second count and its rounding say of a bucket that fits. */
  lemma {:induction false} CountOf(test: seq<nat>, keys: seq<Key>, size: nat, line: nat, i: nat)
    requires 0 < size <= |test| && i < size && 0 < line <= Short && AllFit(keys, size, line)
    requires Tallied(test, keys, size, |keys|, Pointer)
    ensures var es := Bucket(keys, size, i);
            && (test[i] == Pointer <==> es == [])
            && (es != [] ==> Pointer < Reserved(es, line) == Align(test[i], line) % Short)
            && (es == [] ==> Reserved(es, line) == 0)
  {
    hide Bucket(), Align();
    assert keys[..|keys|] == keys;
    var es := Bucket(keys, size, i);
    assert test[i] == (Pointer + Size(es)) % Short;
    if es == [] {
      assert Size(es) == 0;
    } else {
      assert Size(es) > 0;
      RoomIffFits(es, line);
    }
  }

  ghost predicate Placed(starts: seq<int>, keys: seq<Key>, size: nat, line: nat, n: nat)
    requires size > 0 && line > 0
  {
    && n <= |starts|
    && forall i: nat {:trigger starts[i]} :: i < n ==>
         starts[i] == if Bucket(keys, size, i) == [] then Null else Offset(keys, size, line, i)
  }

  lemma {:induction false} OffsetsGrow(keys: seq<Key>, size: nat, line: nat, i: nat, j: nat)
    requires size > 0 && line > 0 && i < j
    ensures Offset(keys, size, line, i) + Reserved(Bucket(keys, size, i), line) <= Offset(keys, size, line, j)
    decreases j
  {
    if i < j - 1 {
      OffsetsGrow(keys, size, line, i, j - 1);
    }
  }

  lemma {:induction false} OffsetsAligned(keys: seq<Key>, size: nat, line: nat, i: nat)
    requires size > 0 && 0 < line <= Short && line % Pointer == 0 && AllFit(keys, size, line) && i <= size
    ensures Offset(keys, size, line, i) % Pointer == 0
  {
    hide Reserved(), Bucket(), Size(), Fits();
    if i > 0 {
      OffsetsAligned(keys, size, line, i - 1);
      ReservedAligned(Bucket(keys, size, i - 1), line);
    }
  }

  lemma ReservedAligned(es: seq<Entry>, line: nat)
    requires 0 < line <= Short && line % Pointer == 0 && Fits(es, line)
    ensures Reserved(es, line) % Pointer == 0
  {
    if es != [] {
      hide Size(), Align(), Reserved();
      RoomIffFits(es, line);
      LineAligned(Reserved(es, line), line);
    }
  }

  lemma LineAligned(r: nat, line: nat)
    requires line > 0 && line % Pointer == 0 && r % line == 0
    ensures r % Pointer == 0
  {
    var q := r / line;
    assert r == line * q;
    MultipleOfEight(line, q);
  }

  lemma MultipleOfEight(a: nat, k: nat)
    requires a % Pointer == 0
    ensures a * k % Pointer == 0
  {
    assert a * k == 8 * (a / 8 * k);
  }

  lemma {:induction false} PlacedApart(starts: seq<int>, keys: seq<Key>, size: nat, line: nat)
    requires size > 0 && 0 < line <= Short && line % Pointer == 0 && AllFit(keys, size, line)
    requires |starts| == size && Placed(starts, keys, size, line, size)
    ensures Apart(starts, keys, size, Offset(keys, size, line, size))
  {
    hide Reserved(), Bucket(), Size(), Fits(), Offset();
    forall i: nat | i < size && Bucket(keys, size, i) != []
      ensures 0 <= starts[i] && starts[i] % Pointer == 0
      ensures starts[i] + Size(Bucket(keys, size, i)) + Pointer <= Offset(keys, size, line, size)
    {
      OffsetsAligned(keys, size, line, i);
      RoomIffFits(Bucket(keys, size, i), line);
      OffsetsGrow(keys, size, line, i, size);
    }
    forall i: nat, j: nat | i < j < size && Bucket(keys, size, i) != [] && Bucket(keys, size, j) != []
      ensures starts[i] + Size(Bucket(keys, size, i)) + Pointer <= starts[j]
    {
      RoomIffFits(Bucket(keys, size, i), line);
      OffsetsGrow(keys, size, line, i, j);
    }
  }

  /** No key is larger than a bucket with its closing null. */
  ghost predicate AllSmall(keys: seq<Key>, bucketSize: nat)
    ensures AllSmall(keys, bucketSize) && keys != [] ==> bucketSize >= 3 * Pointer
  {
    assert keys != [] ==> keys[0] in keys;
    forall k :: k in keys ==> EltSize(|k.name|) + Pointer <= bucketSize
  }

  lemma {:induction false} ShortBuckets(keys: seq<Key>, size: nat, line: nat)
    requires size > 0 && line > 0 && AllFit(keys, size, line)
    ensures forall i: nat :: i < size ==> Size(Bucket(keys, size, i)) < Short
  {
    hide Bucket(), Align();
    forall i: nat | i < size ensures Size(Bucket(keys, size, i)) < Short {
      assert Fits(Bucket(keys, size, i), line);
    }
  }

  // ---------------------------------------------------------------- reading a bucket

  /** The bucket holds these elements, and they can be read. */
  ghost predicate Readable(m: seq<byte>, at: nat, es: seq<Entry>) {
    && at % Pointer == 0 && Size(es) < Short && Filled(m, at, es) && Closed(m, at + Size(es))
    && forall e :: e in es ==> 0 < e.value < Power(Pointer)
  }

  lemma {:induction false} OneBucket(m: seq<byte>, starts: seq<int>, keys: seq<Key>, size: nat, i: nat)
    requires size > 0 && i < size && Ready(m, starts, keys, size) && Sound(keys)
    ensures var es := Bucket(keys, size, i);
            if starts[i] == Null then es == [] else 0 <= starts[i] && Readable(m, starts[i], es)
  {
    hide Bucket(), Size(), Filled(), Closed();
    assert keys[..|keys|] == keys;
    EntriesSound(keys, size, i);
    assert starts[i] == starts[i];
  }

  lemma EmptySize()
    ensures Size([]) == 0
  {
  }

  /** What the walk reads at the end of the first `j` elements: the next element, or null. */
  lemma ElementAt(m: seq<byte>, at: nat, es: seq<Entry>, j: nat)
    requires Readable(m, at, es) && j <= |es|
    ensures var here := at + Size(es[..j]);
            && here + Pointer <= |m|
            && (j == |es| ==> Number(m[here..here + Pointer]) == 0)
            && (j < |es| ==> ReadsAs(m, here, es[j]) && es[j].value > 0)
            && (j < |es| ==> Align(here + Pointer + 2 + |es[j].name|, Pointer) == at + Size(es[..j + 1]))
  {
    hide Filled(), Size(), Bytes(), Number(), Align();
    var here := at + Size(es[..j]);
    if j == |es| {
      assert es[..j] == es;
      NumberComesBack(0, Pointer);
    } else {
      FilledAt(m, at, es, j);
      assert es[j] in es;
      SizeBegins(es, j);
      NumberComesBack(es[j].value, Pointer);
      PowerOfTwo();
      NumberComesBack(|es[j].name|, 2);
      SizesAligned(es[..j]);
      WalkStep(here, |es[j].name|);
      NextSize(es, j);
    }
  }

  predicate ReadsAs(m: seq<byte>, here: nat, e: Entry) {
    && here + Pointer + 2 + |e.name| <= |m|
    && Number(m[here..here + Pointer]) == e.value
    && Number(m[here + Pointer..here + Pointer + 2]) == |e.name|
    && m[here + Pointer + 2..here + Pointer + 2 + |e.name|] == e.name
  }

  lemma FilledAt(m: seq<byte>, at: nat, es: seq<Entry>, j: nat)
    requires Filled(m, at, es) && j < |es|
    ensures Written(m, at + Size(es[..j]), es[j])
  {
  }

  lemma PowerOfTwo()
    ensures Power(2) == Short
  {
  }

  lemma NextSize(es: seq<Entry>, j: nat)
    requires j < |es|
    ensures Size(es[..j + 1]) == Size(es[..j]) + EltSize(|es[j].name|)
  {
    assert es[..j + 1][..j] == es[..j];
  }

  class Table {
    var mem: array<byte>
    var buckets: array<int>
    var size: nat

    ghost predicate Built(keys: seq<Key>)
      reads this, mem, buckets
    {
      size > 0 && Ready(mem[..], buckets[..], keys, size)
    }

    // -------------------------------------------------------------- writing

    method PutNumber(at: nat, v: nat, n: nat)
      requires at + n <= mem.Length
      modifies mem
      ensures mem[at..at + n] == Bytes(v, n)
      ensures forall k :: 0 <= k < mem.Length && (k < at || at + n <= k) ==> mem[k] == old(mem[k])
      decreases n
    {
      if n > 0 {
        mem[at] := v % 256;
        PutNumber(at + 1, v / 256, n - 1);
        assert mem[at..at + n] == [mem[at]] + mem[at + 1..at + n];
      }
    }

    /** ngx_strlow. */
    method PutLower(at: nat, name: seq<byte>)
      requires at + |name| <= mem.Length
      modifies mem
      ensures mem[at..at + |name|] == Lower(name)
      ensures forall k :: 0 <= k < mem.Length && (k < at || at + |name| <= k) ==> mem[k] == old(mem[k])
    {
      var n := 0;
      assert name[..0] == [];
      while n < |name|
        invariant n <= |name|
        invariant mem[at..at + n] == Lower(name[..n])
        invariant forall k :: 0 <= k < mem.Length && (k < at || at + n <= k) ==> mem[k] == old(mem[k])
      {
        mem[at + n] := LowerByte(name[n]);
        assert name[..n + 1][..n] == name[..n];
        assert mem[at..at + n + 1] == mem[at..at + n] + [LowerByte(name[n])];
        n := n + 1;
      }
      assert name[..n] == name;
    }

    method PutElement(at: nat, k: Key)
      requires at + EltSize(|k.name|) <= mem.Length
      modifies mem
      ensures OnlyElement(old(mem[..]), mem[..], at, EntryOf(k))
    {
      hide Bytes(), Lower(), LowerByte();
      PutNumber(at, k.value, Pointer);
      ghost var value := mem[at..at + Pointer];
      PutNumber(at + Pointer, |k.name|, 2);
      ghost var length := mem[at + Pointer..at + Pointer + 2];
      assert mem[at..at + Pointer] == value;
      PutLower(at + Pointer + 2, k.name);
      assert mem[at..at + Pointer] == value;
      assert mem[at + Pointer..at + Pointer + 2] == length;
    }

    /** The keys go, in their order, to the ends of their buckets. */
    method PutAll(keys: seq<Key>, used: array<nat>)
      requires size > 0 && used.Length >= size && buckets.Length == size
      requires Apart(buckets[..], keys, size, mem.Length)
      requires forall i: nat :: i < size ==> Size(Bucket(keys, size, i)) < Short
      requires forall i: nat :: i < size ==> used[i] == 0
      modifies mem, used
      ensures Stored(mem[..], buckets[..], keys, size, |keys|)
      ensures Counted(used[..], keys, size, |keys|)
    {
      hide Apart(), Written(), Filled();
      forall i: nat | i < size
        ensures Bucket(keys[..0], size, i) == [] && used[..][i] == 0 == Size(Bucket(keys[..0], size, i))
      {
        assert keys[..0] == [];
        EmptyBucket(size, i);
      }
      NothingStored(mem[..], buckets[..], keys, size);
      var n := 0;
      while n < |keys|
        invariant n <= |keys|
        invariant Stored(mem[..], buckets[..], keys, size, n)
        invariant Counted(used[..], keys, size, n)
      {
        if keys[n].present {
          PutKey(keys, n, used);
        } else {
          StoredNone(mem[..], buckets[..], keys, size, n);
          CountedNext(used[..], used[..], keys, size, n);
        }
        n := n + 1;
      }
    }

    method PutKey(keys: seq<Key>, n: nat, used: array<nat>)
      requires size > 0 && used.Length >= size && buckets.Length == size
      requires Apart(buckets[..], keys, size, mem.Length)
      requires forall i: nat :: i < size ==> Size(Bucket(keys, size, i)) < Short
      requires n < |keys| && keys[n].present
      requires Stored(mem[..], buckets[..], keys, size, n) && Counted(used[..], keys, size, n)
      modifies mem, used
      ensures Stored(mem[..], buckets[..], keys, size, n + 1) && Counted(used[..], keys, size, n + 1)
    {
      hide Apart(), OnlyElement(), Stored(), EltSize(), Size(), Bucket();
      var k := keys[n];
      var i := k.hash % size;
      BucketFound(buckets[..], keys, size, n, mem.Length);
      RoomTaken(buckets[..], keys, size, n, i, i, mem.Length);
      ghost var before := mem[..];
      ghost var counts := used[..];
      assert counts[i] == Size(Bucket(keys[..n], size, i));
      PutElement(buckets[i] + used[i], k);
      StoredOneMore(before, mem[..], buckets[..], keys, size, n);
      used[i] := (used[i] + EltSize(|k.name|)) % Short;
      CountedNext(counts, used[..], keys, size, n);
    }

    /** Closes every bucket that has elements. */
    method CloseAll(keys: seq<Key>, used: array<nat>)
      requires size > 0 && used.Length >= size && buckets.Length == size
      requires Apart(buckets[..], keys, size, mem.Length)
      requires Stored(mem[..], buckets[..], keys, size, |keys|)
      requires forall i: nat :: i < size ==> Size(Bucket(keys, size, i)) < Short
      requires forall i: nat :: i < size ==> used[i] == Size(Bucket(keys, size, i))
      modifies mem
      ensures Built(keys)
    {
      hide Apart(), Intact(), Size(), Bucket();
      var i := 0;
      AllStored(mem[..], buckets[..], keys, size);
      while i < size
        invariant i <= size
        invariant Intact(mem[..], buckets[..], keys, size, i)
      {
        if buckets[i] != Null {
          CloseBucket(keys, i, used[i]);
        } else {
          IntactSkip(mem[..], buckets[..], keys, size, i);
        }
        i := i + 1;
      }
      IntactIsReady(mem[..], buckets[..], keys, size);
    }

    method CloseBucket(keys: seq<Key>, i: nat, used: nat)
      requires size > 0 && i < size == buckets.Length && buckets[i] != Null
      requires Apart(buckets[..], keys, size, mem.Length)
      requires Intact(mem[..], buckets[..], keys, size, i)
      requires used == Size(Bucket(keys, size, i))
      modifies mem
      ensures Intact(mem[..], buckets[..], keys, size, i + 1)
    {
      hide Filled(), Bytes(), Size(), Bucket();
      assert buckets[..][i] == buckets[i];
      ghost var before := mem[..];
      PutNumber(buckets[i] + used, 0, Pointer);
      IntactNext(before, mem[..], buckets[..], keys, size, i);
    }

    // -------------------------------------------------------------- choosing a size

    /** One round of the test loop. */
    static method TrySize(keys: seq<Key>, s: nat, limit: nat, test: array<nat>) returns (over: bool)
      requires 0 < s <= test.Length
      modifies test
      ensures over <==> Overfull(keys, s, limit)
    {
      hide EltSize(), Bucket(), Size();
      for i := 0 to s
        invariant forall j: nat :: j < i ==> test[j] == 0
      {
        test[i] := 0;
      }
      NothingTallied(test[..], keys, s, 0);
      var n := 0;
      while n < |keys|
        invariant n <= |keys|
        invariant Tallied(test[..], keys, s, n, 0)
        invariant !Overfull(keys[..n], s, limit)
      {
        assert keys[..n + 1][..n] == keys[..n];
        ghost var before := test[..];
        if keys[n].present {
          var key := keys[n].hash % s;
          test[key] := (test[key] + EltSize(|keys[n].name|)) % Short;
          TalliedNext(before, test[..], keys, s, n, 0);
          assert test[..][key] == Counter(Bucket(keys[..n + 1], s, key));
          if test[key] > limit % Short {
            OverfullStays(keys, n + 1, s, limit);
            return true;
          }
        } else {
          TalliedNext(before, test[..], keys, s, n, 0);
        }
        n := n + 1;
      }
      assert keys[..n] == keys;
      over := false;
    }

    static method ChooseSize(keys: seq<Key>, limit: nat, maxSize: nat, test: array<nat>) returns (s: nat)
      requires limit >= 2 * Pointer && 0 < maxSize <= test.Length
      modifies test
      ensures s == ChosenSize(keys, limit, maxSize)
    {
      hide Overfull();
      var start: nat := |keys| / (limit / (2 * Pointer));
      start := if start != 0 then start else 1;
      if maxSize > 10000 && |keys| > 0 && maxSize / |keys| < 100 {
        start := maxSize - 1000;
      }
      s := start;
      while s <= maxSize
        invariant 0 < s
        invariant FirstRoomy(keys, s, limit, maxSize) == ChosenSize(keys, limit, maxSize)
        decreases maxSize + 1 - s
      {
        var over := TrySize(keys, s, limit, test);
        if !over {
          return;
        }
        s := s + 1;
      }
      s := maxSize;
    }

    // -------------------------------------------------------------- building

    /** The second count: the closing null and all the elements of each bucket. */
    static method Measure(keys: seq<Key>, s: nat, test: array<nat>)
      requires 0 < s <= test.Length
      modifies test
      ensures Tallied(test[..], keys, s, |keys|, Pointer)
    {
      hide EltSize(), Bucket(), Size();
      for i := 0 to s
        invariant forall j: nat :: j < i ==> test[j] == Pointer
      {
        test[i] := Pointer;
      }
      NothingTallied(test[..], keys, s, Pointer);
      for n := 0 to |keys|
        invariant Tallied(test[..], keys, s, n, Pointer)
      {
        ghost var before := test[..];
        if keys[n].present {
          var key := keys[n].hash % s;
          test[key] := (test[key] + EltSize(|keys[n].name|)) % Short;
        }
        TalliedNext(before, test[..], keys, s, n, Pointer);
      }
    }

    /** Rounds the buckets up to cache lines and adds them up. */
    static method RoundUp(keys: seq<Key>, s: nat, line: nat, test: array<nat>) returns (len: nat)
      requires 0 < s <= test.Length && 0 < line <= Short && AllFit(keys, s, line)
      requires Tallied(test[..], keys, s, |keys|, Pointer)
      modifies test
      ensures len == Offset(keys, s, line, s)
      ensures Rounded(test[..], keys, s, line, s)
    {
      hide Bucket(), Size(), Align();
      len := 0;
      ghost var counts := test[..];
      for i := 0 to s
        invariant len == Offset(keys, s, line, i)
        invariant Rounded(test[..], keys, s, line, i)
        invariant forall j: nat :: i <= j < s ==> test[j] == counts[j]
      {
        CountOf(counts, keys, s, line, i);
        if test[i] != Pointer {
          test[i] := Align(test[i], line) % Short;
          len := len + test[i];
        }
      }
    }

    /** Gives each bucket with elements its place in the area. */
    method Place(keys: seq<Key>, line: nat, test: array<nat>)
      requires 0 < size <= test.Length && size == buckets.Length && 0 < line <= Short
      requires Rounded(test[..], keys, size, line, size)
      modifies buckets
      ensures Placed(buckets[..], keys, size, line, size)
    {
      hide Bucket(), Reserved();
      var at := 0;
      for i := 0 to size
        invariant at == Offset(keys, size, line, i)
        invariant Placed(buckets[..], keys, size, line, i)
      {
        assert test[..][i] == test[i];
        if test[i] == Pointer {
          buckets[i] := Null;
        } else {
          buckets[i] := at;
          at := at + test[i];
        }
      }
    }

    /** ngx_hash_init: refuses keys larger than a bucket, otherwise builds the table. */
    method Init(keys: seq<Key>, maxSize: nat, bucketSize: nat, line: nat) returns (ok: bool)
      requires 0 < maxSize && 0 < line <= Short && line % Pointer == 0
      requires keys == [] ==> bucketSize >= 3 * Pointer
      requires AllSmall(keys, bucketSize) ==>
                 AllFit(keys, ChosenSize(keys, bucketSize - Pointer, maxSize), line)
      modifies this
      ensures ok <==> AllSmall(keys, bucketSize)
      ensures ok ==> size == ChosenSize(keys, bucketSize - Pointer, maxSize) && Built(keys)
      ensures ok ==> fresh(mem) && fresh(buckets) && mem.Length == Offset(keys, size, line, size)
      ensures !ok ==> mem == old(mem) && buckets == old(buckets) && size == old(size)
    {
      hide Apart(), Stored(), Ready(), Tallied(), Rounded(), Placed(), Offset(), AllFit(), ChosenSize();
      hide Bucket(), Size();
      for n := 0 to |keys|
        invariant AllSmall(keys[..n], bucketSize)
      {
        if bucketSize < EltSize(|keys[n].name|) + Pointer {
          return false;
        }
      }
      assert keys[..|keys|] == keys;
      ok := true;
      var test := new nat[maxSize];
      var s := ChooseSize(keys, bucketSize - Pointer, maxSize, test);
      Measure(keys, s, test);
      var len := RoundUp(keys, s, line, test);
      size := s;
      buckets := new int[s];
      mem := new byte[len];
      Build(keys, line, test);
    }

    method Build(keys: seq<Key>, line: nat, test: array<nat>)
      requires 0 < size <= test.Length && size == buckets.Length
      requires 0 < line <= Short && line % Pointer == 0 && AllFit(keys, size, line)
      requires mem.Length == Offset(keys, size, line, size)
      requires Rounded(test[..], keys, size, line, size)
      modifies buckets, mem, test
      ensures Built(keys)
    {
      hide Apart(), Stored(), Ready(), Rounded(), Placed(), Offset(), Bucket(), Size();
      Place(keys, line, test);
      PlacedApart(buckets[..], keys, size, line);
      ShortBuckets(keys, size, line);
      ghost var starts := buckets[..];
      for i := 0 to size
        modifies test
        invariant buckets[..] == starts
        invariant forall j: nat :: j < i ==> test[j] == 0
      {
        test[i] := 0;
      }
      PutAll(keys, test);
      assert keys[..|keys|] == keys;
      forall i: nat | i < size ensures test[i] == Size(Bucket(keys, size, i)) {
        assert test[..][i] == test[i];
      }
      CloseAll(keys, test);
    }

    // -------------------------------------------------------------- finding

    method SameName(at: nat, name: seq<byte>) returns (same: bool)
      requires at + |name| <= mem.Length
      ensures same <==> mem[at..at + |name|] == name
    {
      for i := 0 to |name|
        invariant mem[at..at + i] == name[..i]
      {
        if name[i] != mem[at + i] {
          assert mem[at..at + |name|][i] != name[i];
          return false;
        }
      }
      assert name[..|name|] == name;
      same := true;
    }

    /** ngx_hash_find: each key's name gives its value, and any other name gives null, which is 0.
        The keys and the name must have been hashed alike, and no two keys spell the name. */
    method Find(ghost keys: seq<Key>, ghost h: seq<byte> -> nat, key: nat, name: seq<byte>) returns (value: nat)
      requires Built(keys) && Sound(keys)
      requires HashedBy(keys, h) && key == h(name)
      ensures value == Meaning(keys, name)
      ensures SpelledOnce(keys, name) ==> IsValueOf(keys, name, value)
    {
      value := Walk(keys, key, name);
      BucketMeans(keys, size, h, name);
      if SpelledOnce(keys, name) {
        MeaningIsMap(keys, name);
      }
    }

    /** The walk over the bytes of a bucket finds what its elements say. */
    method Walk(ghost keys: seq<Key>, key: nat, name: seq<byte>) returns (value: nat)
      requires Built(keys) && Sound(keys)
      ensures value == Lookup(Bucket(keys, size, key % size), name)
    {
      hide Bucket(), Size(), Filled(), Number(), Align(), Bytes();
      ghost var es := Bucket(keys, size, key % size);
      var at := buckets[key % size];
      OneBucket(mem[..], buckets[..], keys, size, key % size);
      if at == Null {
        return 0;
      }
      ghost var start, j := at, 0;
      assert es[..0] == [] && es[0..] == es;
      EmptySize();
      while true
        invariant 0 <= j <= |es| && at == start + Size(es[..j])
        invariant Lookup(es, name) == Lookup(es[j..], name)
        decreases |es| - j
      {
        ElementAt(mem[..], start, es, j);
        assert mem[..][at..at + Pointer] == mem[at..at + Pointer];
        value := Number(mem[at..at + Pointer]);
        if value == 0 {
          return;
        }
        assert mem[..][at + Pointer..at + Pointer + 2] == mem[at + Pointer..at + Pointer + 2];
        var len := Number(mem[at + Pointer..at + Pointer + 2]);
        if |name| == len {
          assert mem[..][at + Pointer + 2..at + Pointer + 2 + len] == mem[at + Pointer + 2..at + Pointer + 2 + len];
          var same := SameName(at + Pointer + 2, name);
          if same {
            return;
          }
        }
        at := Align(at + Pointer + 2 + len, Pointer);
        j := j + 1;
      }
    }
  }
}
