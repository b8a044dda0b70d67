/** The byte layout of the tables that ngx_hash_init builds: elements of a pointer, a 16-bit length
    and a name, padded to the pointer size, one after another in each bucket, closed by a null. */
module HashLayout {
  type byte = x: int | 0 <= x < 256

  /** ngx_hash_key_t; a key whose data pointer is null is not `present`. */
  datatype Key = Key(present: bool, name: seq<byte>, hash: nat, value: nat)

  datatype Entry = Entry(name: seq<byte>, value: nat)

  const Pointer := 8
  const Short := 0x1_0000

  function Align(d: nat, a: nat): (r: nat)
    requires a > 0
    ensures d <= r < d + a && r % a == 0
  {
    MultipleHasNoRest((d + a - 1) / a, a);
    (d + a - 1) / a * a
  }

  lemma MultipleHasNoRest(k: nat, a: nat)
    requires a > 0
    ensures k * a % a == 0
  {
    if k > 0 {
      MultipleHasNoRest(k - 1, a);
      assert k * a == (k - 1) * a + a;
      SameRest((k - 1) * a, a);
    }
  }

  lemma SameRest(x: nat, a: nat)
    requires a > 0
    ensures (x + a) % a == x % a
  {
    var y := x + a;
    var t := y / a - x / a - 1;
    assert a * t == a * (y / a) - a * (x / a) - a == x % a - y % a;
    FarMultiples(a, t);
  }

  lemma FarMultiples(a: int, t: int)
    requires a >= 0
    ensures t > 0 ==> a * t >= a
    ensures t < 0 ==> a * t <= -a
  {
  }

  /** NGX_HASH_ELT_SIZE. */
  function EltSize(len: nat): nat {
    Pointer + Align(len + 2, Pointer)
  }

  /** Rounding the end of a name up is the same step as adding the size of the element. */
  lemma WalkStep(at: nat, len: nat)
    requires at % Pointer == 0
    ensures Align(at + Pointer + 2 + len, Pointer) == at + EltSize(len)
    ensures (at + EltSize(len)) % Pointer == 0
  {
    hide Align();
    var x, y := Align(at + Pointer + 2 + len, Pointer), Align(len + 2, Pointer);
    assert x % 8 == 0 && y % 8 == 0 && at % 8 == 0;
  }

  function LowerByte(c: byte): byte {
    if 'A' as int <= c <= 'Z' as int then c + 32 else c
  }

  function Lower(s: seq<byte>): (r: seq<byte>)
    ensures |r| == |s|
  {
    if s == [] then [] else Lower(s[..|s| - 1]) + [LowerByte(s[|s| - 1])]
  }

  predicate Capital(a: byte, b: byte) { 'A' as int <= a <= 'Z' as int && b == a - 'A' as int + 'a' as int }

  /** The same characters, but for the case of letters. */
  predicate SameButCase(s: seq<byte>, t: seq<byte>) {
    |s| == |t| && forall k :: 0 <= k < |s| ==> s[k] == t[k] || Capital(s[k], t[k]) || Capital(t[k], s[k])
  }

  lemma LowerByteIff(a: byte, b: byte)
    ensures LowerByte(a) == LowerByte(b) <==> a == b || Capital(a, b) || Capital(b, a)
  {
  }

  lemma {:induction false} LowerIff(s: seq<byte>, t: seq<byte>)
    ensures Lower(s) == Lower(t) <==> SameButCase(s, t)
  {
    if |s| == |t| > 0 {
      var n := |s| - 1;
      LowerByteIff(s[n], t[n]);
      hide LowerByte, Capital;
      LowerIff(s[..n], t[..n]);
      assert Lower(s)[n] == LowerByte(s[n]) && Lower(t)[n] == LowerByte(t[n]);
      assert Lower(s)[..n] == Lower(s[..n]) && Lower(t)[..n] == Lower(t[..n]);
      assert s == s[..n] + [s[n]] && t == t[..n] + [t[n]];
    }
  }

  // ---------------------------------------------------------------- numbers in memory

  function Bytes(v: nat, n: nat): (r: seq<byte>)
    ensures |r| == n
  {
    if n == 0 then [] else [v % 256] + Bytes(v / 256, n - 1)
  }

  function Number(s: seq<byte>): nat {
    if s == [] then 0 else s[0] + 256 * Number(s[1..])
  }

  function Power(n: nat): nat {
    if n == 0 then 1 else 256 * Power(n - 1)
  }

  lemma {:induction false} NumberComesBack(v: nat, n: nat)
    requires v < Power(n)
    ensures Number(Bytes(v, n)) == v
  {
    if n > 0 {
      NumberComesBack(v / 256, n - 1);
      assert Bytes(v, n)[1..] == Bytes(v / 256, n - 1);
    }
  }

  // ---------------------------------------------------------------- buckets

  function EntryOf(k: Key): Entry {
    Entry(Lower(k.name), k.value)
  }

  predicate Falls(k: Key, size: nat, i: nat)
    requires size > 0
  {
    k.present && k.hash % size == i
  }

  /** The elements of a bucket, in the order of the keys. */
  function Bucket(keys: seq<Key>, size: nat, i: nat): seq<Entry>
    requires size > 0
  {
    if keys == [] then []
    else
      var front := Bucket(keys[..|keys| - 1], size, i);
      if Falls(keys[|keys| - 1], size, i) then front + [EntryOf(keys[|keys| - 1])] else front
  }

  function Size(es: seq<Entry>): nat {
    if es == [] then 0 else Size(es[..|es| - 1]) + EltSize(|es[|es| - 1].name|)
  }

  lemma {:induction false} BucketGrows(keys: seq<Key>, size: nat, i: nat)
    requires size > 0 && keys != []
    ensures var front := Bucket(keys[..|keys| - 1], size, i); var k := keys[|keys| - 1];
            && (Falls(k, size, i) ==> Bucket(keys, size, i) == front + [EntryOf(k)])
            && (Falls(k, size, i) ==> Size(Bucket(keys, size, i)) == Size(front) + EltSize(|k.name|))
            && (!Falls(k, size, i) ==> Bucket(keys, size, i) == front)
  {
    var front := Bucket(keys[..|keys| - 1], size, i);
    var k := keys[|keys| - 1];
    if Falls(k, size, i) {
      var es := front + [EntryOf(k)];
      assert es[..|es| - 1] == front;
    }
  }

  lemma {:induction false} BucketBegins(keys: seq<Key>, n: nat, size: nat, i: nat)
    requires size > 0 && n <= |keys|
    ensures Bucket(keys[..n], size, i) <= Bucket(keys, size, i)
    ensures Size(Bucket(keys[..n], size, i)) <= Size(Bucket(keys, size, i))
    decreases |keys|
  {
    if n == |keys| {
      assert keys[..n] == keys;
    } else {
      var front := keys[..|keys| - 1];
      assert front[..n] == keys[..n];
      BucketBegins(front, n, size, i);
      BucketGrows(keys, size, i);
    }
  }

  lemma {:induction false} SizeBegins(es: seq<Entry>, j: nat)
    requires j < |es|
    ensures Size(es[..j]) + EltSize(|es[j].name|) <= Size(es)
    decreases |es|
  {
    var front := es[..|es| - 1];
    if j < |es| - 1 {
      assert front[..j] == es[..j];
      SizeBegins(front, j);
    } else {
      assert front == es[..j];
    }
  }

  lemma {:induction false} SizesAligned(es: seq<Entry>)
    ensures Size(es) % Pointer == 0
  {
    if es != [] {
      SizesAligned(es[..|es| - 1]);
      WalkStep(Size(es[..|es| - 1]), |es[|es| - 1].name|);
      hide EltSize();
    }
  }

  // ---------------------------------------------------------------- 16-bit counters

  /** The counter of a bucket after the test loop has added the keys one by one. */
  function Counter(es: seq<Entry>): nat {
    Size(es) % Short
  }

  /** The test loop gives a size up: a counter passes the limit, itself cut to 16 bits. */
  predicate Overfull(keys: seq<Key>, size: nat, limit: nat)
    requires size > 0
  {
    && keys != []
    && (|| Overfull(keys[..|keys| - 1], size, limit)
        || (&& keys[|keys| - 1].present
            && Counter(Bucket(keys, size, keys[|keys| - 1].hash % size)) > limit % Short))
  }

  /** While the limit is at most 32767 no counter wraps: a size is given up exactly when some bucket
      is larger than the limit. */
  lemma {:induction false} OverfullIsTooLarge(keys: seq<Key>, size: nat, limit: nat)
    requires size > 0 && limit < Short / 2
    requires forall k :: k in keys ==> EltSize(|k.name|) <= limit
    ensures Overfull(keys, size, limit) <==>
            exists i: nat :: i < size && Size(Bucket(keys, size, i)) > limit
  {
    if Overfull(keys, size, limit) {
      LargeIfOverfull(keys, size, limit);
    } else {
      forall i: nat | i < size ensures Size(Bucket(keys, size, i)) <= limit {
        SmallUnlessOverfull(keys, size, limit, i);
      }
    }
  }

  lemma {:induction false} SmallUnlessOverfull(keys: seq<Key>, size: nat, limit: nat, i: nat)
    requires size > 0 && limit < Short / 2 && !Overfull(keys, size, limit)
    requires forall k :: k in keys ==> EltSize(|k.name|) <= limit
    ensures Size(Bucket(keys, size, i)) <= limit
  {
    hide EltSize(), Bucket();
    if keys != [] {
      var k := keys[|keys| - 1];
      SmallUnlessOverfull(keys[..|keys| - 1], size, limit, i);
      BucketGrows(keys, size, i);
      assert k in keys;
      if Falls(k, size, i) {
        CounterFits(Bucket(keys, size, i));
      }
    } else {
      EmptyBucket(size, i);
    }
  }

  lemma {:induction false} CounterFits(es: seq<Entry>)
    requires Size(es) < Short
    ensures Counter(es) == Size(es)
  {
    hide Size();
  }

  lemma {:induction false} EmptyBucket(size: nat, i: nat)
    requires size > 0
    ensures Bucket([], size, i) == [] && Size([]) == 0
  {
  }

  lemma {:induction false} LargeIfOverfull(keys: seq<Key>, size: nat, limit: nat)
    requires size > 0 && limit < Short && Overfull(keys, size, limit)
    ensures exists i: nat :: i < size && Size(Bucket(keys, size, i)) > limit
  {
    hide Bucket, Size;
    var front := keys[..|keys| - 1];
    if Overfull(front, size, limit) {
      LargeIfOverfull(front, size, limit);
      var i: nat :| i < size && Size(Bucket(front, size, i)) > limit;
      BucketBegins(keys, |keys| - 1, size, i);
      assert Size(Bucket(keys, size, i)) > limit;
    } else {
      var i := keys[|keys| - 1].hash % size;
      assert Size(Bucket(keys, size, i)) > limit;
    }
  }

  /** Where the search for a size begins. */
  function StartSize(nelts: nat, limit: nat, maxSize: nat): nat
    requires limit >= 2 * Pointer && maxSize > 0
  {
    var start: nat := nelts / (limit / (2 * Pointer));
    if maxSize > 10000 && nelts > 0 && maxSize / nelts < 100 then maxSize - 1000
    else if start == 0 then 1 else start
  }

  /** The first size from `from` on that is not given up, or the largest allowed one. */
  function FirstRoomy(keys: seq<Key>, from: nat, limit: nat, maxSize: nat): (size: nat)
    requires 0 < from && maxSize > 0
    ensures 0 < size
    ensures size <= maxSize
    decreases maxSize - from
  {
    if from > maxSize then maxSize
    else if !Overfull(keys, from, limit) then from
    else FirstRoomy(keys, from + 1, limit, maxSize)
  }

  function ChosenSize(keys: seq<Key>, limit: nat, maxSize: nat): (size: nat)
    requires limit >= 2 * Pointer && maxSize > 0
    ensures 0 < size <= maxSize
  {
    FirstRoomy(keys, StartSize(|keys|, limit, maxSize), limit, maxSize)
  }

  lemma {:induction false} RoomyIsFirst(keys: seq<Key>, from: nat, limit: nat, maxSize: nat)
    requires 0 < from && maxSize > 0
    ensures var size := FirstRoomy(keys, from, limit, maxSize);
            && (forall s :: from <= s < size ==> Overfull(keys, s, limit))
            && (Overfull(keys, size, limit) ==>
                  size == maxSize && forall s :: from <= s <= maxSize ==> Overfull(keys, s, limit))
    decreases maxSize - from
  {
    if from <= maxSize && Overfull(keys, from, limit) {
      RoomyIsFirst(keys, from + 1, limit, maxSize);
    }
  }

  // ---------------------------------------------------------------- room in the area

  /** The bytes set aside for a bucket, counted in 16 bits; none for a bucket without elements. */
  function Reserved(es: seq<Entry>, line: nat): nat
    requires line > 0
  {
    var count := (Pointer + Size(es)) % Short;
    if count == Pointer then 0 else Align(count, line) % Short
  }

  predicate Fits(es: seq<Entry>, line: nat)
    requires line > 0
  {
    es == [] || Align(Pointer + Size(es), line) < Short
  }

  /** What is set aside holds the elements and the closing null exactly when the rounded size of
      the bucket is below 65536. */
  lemma {:induction false} RoomIffFits(es: seq<Entry>, line: nat)
    requires 0 < line <= Short && es != []
    ensures Pointer + Size(es) <= Reserved(es, line) <==> Fits(es, line)
    ensures Fits(es, line) ==> Reserved(es, line) == Align(Pointer + Size(es), line)
  {
    assert Size(es) > 0;
    hide Size();
    AlignCut(Pointer + Size(es), line);
  }

  lemma AlignCut(total: nat, line: nat)
    requires 0 < line <= Short && Pointer < total
    ensures var count := total % Short;
            var room := if count == Pointer then 0 else Align(count, line) % Short;
            if Align(total, line) < Short then room == Align(total, line) else room < total
  {
    var a := Align(total, line);
    hide Align();
    if total < Short {
      assert total % Short == total;
    }
  }

  ghost predicate AllFit(keys: seq<Key>, size: nat, line: nat)
    requires size > 0 && line > 0
  {
    forall i: nat :: i < size ==> Fits(Bucket(keys, size, i), line)
  }

  /** A size that was not given up under a limit of at most 32767 always fits. */
  lemma {:induction false} RoomyFits(keys: seq<Key>, size: nat, limit: nat, line: nat)
    requires size > 0 && 0 < line && Pointer + limit + line <= Short && limit < Short / 2
    requires !Overfull(keys, size, limit)
    requires forall k :: k in keys ==> EltSize(|k.name|) <= limit
    ensures AllFit(keys, size, line)
  {
    forall i: nat | i < size ensures Fits(Bucket(keys, size, i), line) {
      SmallUnlessOverfull(keys, size, limit, i);
    }
  }

  /** Beyond that the counters deceive: two names of 40000 bytes pass for one bucket of 64992, and
      what is then set aside is too small. */
  lemma WrapDeceives(a: seq<byte>, b: seq<byte>)
    requires |a| == |b| == 40000
    ensures var keys := [Key(true, a, 0, 1), Key(true, b, 0, 1)];
            && !Overfull(keys, 1, 64992)
            && ChosenSize(keys, 64992, 512) == 1
            && !Fits(Bucket(keys, 1, 0), 64)
  {
    var one, keys := [Key(true, a, 0, 1)], [Key(true, a, 0, 1), Key(true, b, 0, 1)];
    assert keys[..1] == one && one[..0] == [];
    BucketGrows(one, 1, 0);
    BucketGrows(keys, 1, 0);
    assert Size(Bucket(one, 1, 0)) == 40016 && Size(Bucket(keys, 1, 0)) == 80032;
    assert !Overfull(one, 1, 64992);
    assert StartSize(2, 64992, 512) == 1;
  }

  // ---------------------------------------------------------------- elements in memory

  predicate Written(m: seq<byte>, at: nat, e: Entry) {
    && at + Pointer + 2 + |e.name| <= |m|
    && m[at..at + Pointer] == Bytes(e.value, Pointer)
    && m[at + Pointer..at + Pointer + 2] == Bytes(|e.name|, 2)
    && m[at + Pointer + 2..at + Pointer + 2 + |e.name|] == e.name
  }

  ghost predicate Filled(m: seq<byte>, at: nat, es: seq<Entry>) {
    forall j {:trigger es[j]} :: 0 <= j < |es| ==> Written(m, at + Size(es[..j]), es[j])
  }

  /** The two memories agree on [lo, hi). */
  predicate Agree(m: seq<byte>, w: seq<byte>, lo: nat, hi: nat) {
    |m| == |w| && hi <= |m| && forall k :: lo <= k < hi ==> m[k] == w[k]
  }

  lemma WrittenAgrees(m: seq<byte>, w: seq<byte>, at: nat, e: Entry, lo: nat, hi: nat)
    requires Agree(m, w, lo, hi) && Written(m, at, e)
    requires lo <= at && at + EltSize(|e.name|) <= hi
    ensures Written(w, at, e)
  {
    hide Bytes();
    assert at + Pointer + 2 + |e.name| <= hi;
    assert w[at..at + Pointer] == m[at..at + Pointer];
    assert w[at + Pointer..at + Pointer + 2] == m[at + Pointer..at + Pointer + 2];
    assert w[at + Pointer + 2..at + Pointer + 2 + |e.name|] == m[at + Pointer + 2..at + Pointer + 2 + |e.name|];
  }

  lemma {:induction false} FilledAgrees(m: seq<byte>, w: seq<byte>, at: nat, es: seq<Entry>)
    requires at + Size(es) <= |m| && Agree(m, w, at, at + Size(es)) && Filled(m, at, es)
    ensures Filled(w, at, es)
  {
    hide Written(), EltSize(), Agree(), Size();
    forall j | 0 <= j < |es| ensures Written(w, at + Size(es[..j]), es[j]) {
      SizeBegins(es, j);
      WrittenAgrees(m, w, at + Size(es[..j]), es[j], at, at + Size(es));
    }
  }

  lemma {:induction false} FilledGrows(w: seq<byte>, at: nat, es: seq<Entry>, e: Entry)
    requires Filled(w, at, es) && Written(w, at + Size(es), e)
    ensures Filled(w, at, es + [e])
  {
    hide Written(), EltSize(), Size();
    var all := es + [e];
    assert all[..|es|] == es;
    forall j | 0 <= j < |all| ensures Written(w, at + Size(all[..j]), all[j]) {
      if j < |es| {
        assert all[..j] == es[..j] && all[j] == es[j];
      }
    }
  }

  // ---------------------------------------------------------------- the map

  /** The value of the first element with this name, or 0. */
  function Lookup(es: seq<Entry>, name: seq<byte>): nat {
    if es == [] then 0
    else if es[0].name == name then es[0].value
    else Lookup(es[1..], name)
  }

  lemma {:induction false} LookupSteps(es: seq<Entry>, e: Entry, name: seq<byte>)
    requires forall x :: x in es ==> x.value != 0
    ensures Lookup(es + [e], name)
         == if Lookup(es, name) != 0 then Lookup(es, name) else if e.name == name then e.value else 0
  {
    var all := es + [e];
    if es == [] {
      assert all[1..] == [];
    } else {
      assert all[1..] == es[1..] + [e];
      assert es[0] in es;
      LookupSteps(es[1..], e, name);
    }
  }

  /** What the keys say of a name, without buckets: the value of the first key that spells it. */
  function Meaning(keys: seq<Key>, name: seq<byte>): nat {
    if keys == [] then 0
    else if keys[0].present && Lower(keys[0].name) == name then keys[0].value
    else Meaning(keys[1..], name)
  }

  predicate Spells(k: Key, name: seq<byte>) {
    k.present && Lower(k.name) == name
  }

  /** A key is found under a name in lower case exactly if it is that name in whatever case. */
  lemma {:induction false} SpellsAnyCase(k: Key, name: seq<byte>)
    ensures Spells(k, Lower(name)) <==> k.present && SameButCase(k.name, name)
  {
    LowerIff(k.name, name);
  }

  ghost predicate SpelledOnce(keys: seq<Key>, name: seq<byte>) {
    forall i, j :: 0 <= i < j < |keys| && Spells(keys[i], name) ==> !Spells(keys[j], name)
  }

  /** `value` belongs to every key that spells the name, and is 0 if there is none. */
  ghost predicate IsValueOf(keys: seq<Key>, name: seq<byte>, value: nat) {
    && (forall i :: 0 <= i < |keys| && Spells(keys[i], name) ==> value == keys[i].value)
    && ((forall i :: 0 <= i < |keys| ==> !Spells(keys[i], name)) ==> value == 0)
  }

  lemma {:induction false} MeaningSteps(keys: seq<Key>, k: Key, name: seq<byte>)
    requires forall x :: x in keys ==> x.value != 0
    ensures Meaning(keys + [k], name)
         == if Meaning(keys, name) != 0 then Meaning(keys, name) else if Spells(k, name) then k.value else 0
  {
    var all := keys + [k];
    if keys == [] {
      assert all[1..] == [];
    } else {
      assert all[1..] == keys[1..] + [k];
      assert keys[0] in keys;
      MeaningSteps(keys[1..], k, name);
    }
  }

  /** Every key was hashed from its lower-cased name. */
  ghost predicate HashedBy(keys: seq<Key>, h: seq<byte> -> nat) {
    forall k :: k in keys ==> k.hash == h(Lower(k.name))
  }

  lemma {:induction false} BucketValues(keys: seq<Key>, size: nat, i: nat)
    requires size > 0 && forall k :: k in keys ==> k.value != 0
    ensures forall e :: e in Bucket(keys, size, i) ==> e.value != 0
  {
    if keys != [] {
      BucketValues(keys[..|keys| - 1], size, i);
    }
  }

  /** The bucket of a name's hash says of the name what the keys say, whatever the size. */
  lemma {:induction false} BucketMeans(keys: seq<Key>, size: nat, h: seq<byte> -> nat, name: seq<byte>)
    requires size > 0 && HashedBy(keys, h) && forall k :: k in keys ==> k.value != 0
    ensures Lookup(Bucket(keys, size, h(name) % size), name) == Meaning(keys, name)
  {
    if keys != [] {
      var i := h(name) % size;
      var front := keys[..|keys| - 1];
      var k := keys[|keys| - 1];
      assert k in keys && keys == front + [k];
      BucketMeans(front, size, h, name);
      BucketValues(front, size, i);
      MeaningSteps(front, k, name);
      LookupSteps(Bucket(front, size, i), EntryOf(k), name);
    }
  }

  /** With names told apart, each key's name means its value, and a name no key spells means null. */
  lemma {:induction false} MeaningIsMap(keys: seq<Key>, name: seq<byte>)
    requires SpelledOnce(keys, name)
    ensures IsValueOf(keys, name, Meaning(keys, name))
  {
    if keys != [] && !Spells(keys[0], name) {
      MeaningIsMap(keys[1..], name);
    } else if keys != [] {
      assert forall i :: 0 < i < |keys| ==> !Spells(keys[i], name);
    }
  }
}
