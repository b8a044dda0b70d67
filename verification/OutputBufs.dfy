/** Buffers and chains of ngx_buf.h and ngx_buf.c, and the bytes that they stand for. */
module OutputBufs {

  type Id = nat
  type Byte = b: int | 0 <= b < 256
  type Bytes = seq<Byte>

  /** ngx_buf_t; `flags` is whether one of flush, last_buf and sync is set, `mem` the memory from
      start to end, and `own` whether the tag is that of the output chain. */
  datatype Buf = Buf(
    mem: Bytes, pos: nat, last: nat, temporary: bool, memory: bool, mmap: bool,
    inFile: bool, file: Bytes, filePos: nat, fileLast: nat,
    flags: bool, lastInChain: bool, own: bool)

  /** ngx_buf_in_memory */
  predicate InMemory(b: Buf) { b.temporary || b.memory || b.mmap }

  /** ngx_buf_special */
  predicate Special(b: Buf) { b.flags && !InMemory(b) && !b.inFile }

  /** ngx_buf_size */
  function Size(b: Buf): int { if InMemory(b) then b.last - b.pos else b.fileLast - b.filePos }

  predicate MemoryOk(b: Buf) { b.pos <= b.last <= |b.mem| }

  predicate FileOk(b: Buf) { b.filePos <= b.fileLast <= |b.file| }

  /** A buffer that is both in memory and in a file holds the same bytes in both; one that is in
      neither holds none.  Those of the output chain are in memory. */
  predicate BufOk(b: Buf) {
    && (InMemory(b) ==> MemoryOk(b))
    && (b.inFile ==> FileOk(b))
    && (InMemory(b) && b.inFile ==> b.mem[b.pos..b.last] == b.file[b.filePos..b.fileLast])
    && (!InMemory(b) && !b.inFile ==> b.fileLast == b.filePos)
    && (b.own ==> b.temporary && |b.mem| > 0)
  }

  /** The bytes still in the buffer. */
  function Data(b: Buf): (d: Bytes)
    requires BufOk(b)
    ensures |d| == Size(b)
  {
    if InMemory(b) then b.mem[b.pos..b.last] else if b.inFile then b.file[b.filePos..b.fileLast] else []
  }

  type Heap = map<Id, Buf>

  ghost predicate ChainOk(h: Heap, c: seq<Id>) {
    forall i :: i in c ==> i in h && BufOk(h[i])
  }

  /** The bytes of a chain, in order. */
  ghost function ChainData(h: Heap, c: seq<Id>): Bytes
    requires ChainOk(h, c)
  {
    if c == [] then [] else Data(h[c[0]]) + ChainData(h, c[1..])
  }

  lemma {:induction false} DataAppend(h: Heap, a: seq<Id>, b: seq<Id>)
    requires ChainOk(h, a) && ChainOk(h, b)
    ensures ChainOk(h, a + b) && ChainData(h, a + b) == ChainData(h, a) + ChainData(h, b)
  {
    if a == [] {
      assert a + b == b;
    } else {
      hide BufOk, Data;
      assert (a + b)[0] == a[0] && (a + b)[1..] == a[1..] + b;
      DataAppend(h, a[1..], b);
      var d, e, f := Data(h[a[0]]), ChainData(h, a[1..]), ChainData(h, b);
      assert d + (e + f) == d + e + f;
    }
  }

  lemma {:induction false} DataFrame(h: Heap, h': Heap, c: seq<Id>)
    requires ChainOk(h, c)
    requires forall i :: i in c ==> i in h' && BufOk(h'[i]) && Data(h'[i]) == Data(h[i])
    ensures ChainOk(h', c) && ChainData(h', c) == ChainData(h, c)
  {
    if c != [] {
      DataFrame(h, h', c[1..]);
    }
  }

  lemma {:induction false} DataOne(h: Heap, i: Id)
    requires i in h && BufOk(h[i])
    ensures ChainOk(h, [i]) && ChainData(h, [i]) == Data(h[i])
  {
    assert [i][1..] == [];
  }

  /** No buffer is twice in a chain. */
  ghost predicate NoDup(c: seq<Id>) {
    forall a, b :: 0 <= a < b < |c| ==> c[a] != c[b]
  }

  lemma NoDupParts(a: seq<Id>, b: seq<Id>)
    requires NoDup(a + b)
    ensures NoDup(a) && NoDup(b) && (forall i :: i in a ==> i !in b)
  {
    forall k, l | 0 <= k < l < |a| ensures a[k] != a[l] {
      assert (a + b)[k] == a[k] && (a + b)[l] == a[l];
    }
    forall k, l | 0 <= k < l < |b| ensures b[k] != b[l] {
      assert (a + b)[|a| + k] == b[k] && (a + b)[|a| + l] == b[l];
    }
    forall k, l | 0 <= k < |a| && 0 <= l < |b| ensures a[k] != b[l] {
      assert (a + b)[k] == a[k] && (a + b)[|a| + l] == b[l];
    }
  }

  lemma NoDupJoin(a: seq<Id>, b: seq<Id>)
    requires NoDup(a) && NoDup(b) && forall i :: i in a ==> i !in b
    ensures NoDup(a + b)
  {
    var c := a + b;
    forall k, l | 0 <= k < l < |c| ensures c[k] != c[l] {
      assert c[k] == if k < |a| then a[k] else b[k - |a|];
      assert c[l] == if l < |a| then a[l] else b[l - |a|];
      assert k < |a| ==> a[k] in a;
      assert l >= |a| ==> b[l - |a|] in b;
    }
  }

  // ---------------------------------------------------------------- consuming from a chain

  /** The first n bytes of a buffer are gone. */
  function Advanced(b: Buf, n: nat): Buf {
    var c := if InMemory(b) then b.(pos := b.pos + n) else b;
    if b.inFile then c.(filePos := c.filePos + n) else c
  }

  lemma AdvancedData(b: Buf, n: nat)
    requires BufOk(b) && n <= Size(b)
    ensures BufOk(Advanced(b, n)) && Data(Advanced(b, n)) == Data(b)[n..]
  {
    if InMemory(b) && b.inFile {
      assert b.mem[b.pos..b.last][n..] == b.mem[b.pos + n..b.last];
      assert b.file[b.filePos..b.fileLast][n..] == b.file[b.filePos + n..b.fileLast];
    }
  }

  /** How many of n bytes come out of a buffer. */
  function Used(b: Buf, n: nat): (u: nat)
    ensures u <= n
  {
    if n <= Size(b) then n else if Size(b) >= 0 then Size(b) else 0
  }

  /** The chain after n bytes have been taken from its front. */
  function Consumed(h: Heap, c: seq<Id>, n: nat): Heap
    requires forall i :: i in c ==> i in h
    decreases |c|
  {
    if c == [] then h
    else
      var u := Used(h[c[0]], n);
      Consumed(h[c[0] := Advanced(h[c[0]], u)], c[1..], n - u)
  }

  /** What does not change in a buffer when bytes are taken from it. */
  predicate SameBuf(b: Buf, c: Buf) {
    c == b.(pos := c.pos, filePos := c.filePos)
  }

  lemma {:induction false} ConsumedFrame(h: Heap, c: seq<Id>, n: nat)
    requires forall i :: i in c ==> i in h
    ensures var h' := Consumed(h, c, n);
            h'.Keys == h.Keys && (forall i :: i in h && i !in c ==> h'[i] == h[i])
            && (forall i :: i in h ==> SameBuf(h[i], h'[i]))
    decreases |c|
  {
    if c != [] {
      var u := Used(h[c[0]], n);
      ConsumedFrame(h[c[0] := Advanced(h[c[0]], u)], c[1..], n - u);
    }
  }

  lemma {:induction false} ConsumeNothing(h: Heap, c: seq<Id>)
    requires ChainOk(h, c)
    ensures Consumed(h, c, 0) == h
    decreases |c|
  {
    if c != [] {
      assert h[c[0] := h[c[0]]] == h;
      ConsumeNothing(h, c[1..]);
    }
  }

  lemma {:induction false} ChainCons(h: Heap, c: seq<Id>)
    requires ChainOk(h, c) && c != []
    ensures ChainOk(h, c[1..]) && c[0] in h && BufOk(h[c[0]])
    ensures ChainData(h, c) == Data(h[c[0]]) + ChainData(h, c[1..])
  {
  }

  /** What is left of bytes when n have been taken. */
  function Cut(x: Bytes, n: nat): Bytes { if n <= |x| then x[n..] else [] }

  /** Taking n bytes leaves the others, in order. */
  lemma {:induction false} ConsumedData(h: Heap, c: seq<Id>, n: nat)
    requires ChainOk(h, c) && NoDup(c)
    ensures ChainOk(Consumed(h, c, n), c) && ChainData(Consumed(h, c, n), c) == Cut(ChainData(h, c), n)
    decreases |c|
  {
    hide Consumed, Used;
    if c != [] {
      var u := Used(h[c[0]], n);
      RestReady(h, c, u);
      ConsumedData(h[c[0] := Advanced(h[c[0]], u)], c[1..], n - u);
      ConsumedJoin(h, c, n);
    } else {
      EmptyChain(h);
    }
  }

  /** Taking bytes from the first buffer leaves the rest of the chain as it is. */
  lemma RestReady(h: Heap, c: seq<Id>, u: nat)
    requires ChainOk(h, c) && NoDup(c) && c != []
    ensures c[0] in h && c[0] !in c[1..] && NoDup(c[1..])
    ensures var h1 := h[c[0] := Advanced(h[c[0]], u)];
            ChainOk(h1, c[1..]) && ChainData(h1, c[1..]) == ChainData(h, c[1..])
  {
    hide NoDup, Advanced, BufOk, Data, ChainData, ChainOk;
    ChainCons(h, c);
    assert c == [c[0]] + c[1..];
    NoDupParts([c[0]], c[1..]);
    RestSame(h, h[c[0] := Advanced(h[c[0]], u)], c[1..], c[0]);
  }

  lemma ConsumedJoin(h: Heap, c: seq<Id>, n: nat)
    requires ChainOk(h, c) && c != [] && c[0] !in c[1..]
    requires var u := Used(h[c[0]], n);
             var h2 := Consumed(h[c[0] := Advanced(h[c[0]], u)], c[1..], n - u);
             ChainOk(h2, c[1..]) && ChainData(h2, c[1..]) == Cut(ChainData(h, c[1..]), n - u)
    ensures ChainOk(Consumed(h, c, n), c) && ChainData(Consumed(h, c, n), c) == Cut(ChainData(h, c), n)
  {
    hide Advanced, BufOk, Data;
    var b, rest := h[c[0]], c[1..];
    var u := Used(b, n);
    var h1 := h[c[0] := Advanced(b, u)];
    TakeSome(b, n);
    ConsumedFrame(h1, rest, n - u);
    SliceOfSum(Data(b), ChainData(h, rest), n, u);
  }

  lemma {:induction false} EmptyChain(h: Heap)
    ensures ChainOk(h, []) && ChainData(h, []) == []
  {
  }

  lemma {:induction false} RestSame(h: Heap, h': Heap, c: seq<Id>, x: Id)
    requires ChainOk(h, c) && x !in c && h.Keys <= h'.Keys && forall i :: i in h && i != x ==> h'[i] == h[i]
    ensures ChainOk(h', c) && ChainData(h', c) == ChainData(h, c)
  {
    DataFrame(h, h', c);
  }

  lemma TakeSome(b: Buf, n: nat)
    requires BufOk(b)
    ensures BufOk(Advanced(b, Used(b, n))) && Used(b, n) <= |Data(b)| && Data(Advanced(b, Used(b, n))) == Data(b)[Used(b, n)..]
    ensures Used(b, n) == if n <= |Data(b)| then n else |Data(b)|
  {
    AdvancedData(b, Used(b, n));
  }

  lemma SliceOfSum(x: Bytes, y: Bytes, n: nat, u: nat)
    requires u == if n <= |x| then n else |x|
    ensures Cut(x + y, n) == x[u..] + Cut(y, n - u)
  {
  }

  lemma {:induction false} ConsumeStep(h: Heap, c: seq<Id>, k: nat, n: nat)
    requires ChainOk(h, c) && k < |c|
    ensures var b := h[c[k]];
            var u := Used(b, n);
            ChainOk(h[c[k] := Advanced(b, u)], c)
            && Consumed(h, c[k..], n) == Consumed(h[c[k] := Advanced(b, u)], c[k + 1..], n - u)
  {
    assert c[k..][0] == c[k] && c[k..][1..] == c[k + 1..];
    TakeSome(h[c[k]], n);
  }

  lemma SpecialUnused(b: Buf, n: nat)
    requires BufOk(b) && Special(b)
    ensures Used(b, n) == 0 && Advanced(b, 0) == b
  {
  }

  /** ngx_chain_update_sent: `sent` bytes are taken from the front of a chain; the result is
      where to go on: behind buffers that are empty, at one that is not special. */
  method UpdateSent(h0: Heap, chain: seq<Id>, sent0: nat) returns (h: Heap, k: nat)
    requires ChainOk(h0, chain)
    ensures h == Consumed(h0, chain, sent0) && k <= |chain| && ChainOk(h, chain)
    ensures (forall j :: 0 <= j < k ==> Size(h[chain[j]]) == 0) && (k < |chain| ==> !Special(h[chain[k]]))
  {
    hide Consumed, Advanced, Data, ChainData;
    h, k := h0, 0;
    var sent: nat := sent0;
    assert chain[0..] == chain;
    while k < |chain|
      invariant 0 <= k <= |chain| && ChainOk(h, chain)
      invariant Consumed(h, chain[k..], sent) == Consumed(h0, chain, sent0)
      invariant forall j :: 0 <= j < k ==> Size(h[chain[j]]) == 0
    {
      var b := h[chain[k]];
      ConsumeStep(h, chain, k, sent);
      if Special(b) {
        SpecialUnused(b, sent);
        assert h[chain[k] := b] == h;
        k := k + 1;
        continue;
      }
      if sent == 0 {
        ConsumeNothing(h, chain[k..]);
        return;
      }
      if sent >= Size(b) {
        sent := sent - Size(b);
        b := Emptied(b);
        h := h[chain[k] := b];
        k := k + 1;
        continue;
      }
      b := Partly(b, sent);
      h := h[chain[k] := b];
      ConsumeNothing(h, chain[k + 1..]);
      return;
    }
    assert chain[|chain|..] == [];
    ConsumeNone(h, sent);
  }

  lemma {:induction false} ConsumeNone(h: Heap, n: nat)
    ensures Consumed(h, [], n) == h
  {
  }

  /** A buffer that has been sent in part. */
  method Partly(b0: Buf, sent: nat) returns (b: Buf)
    ensures b == Advanced(b0, sent) && Special(b) == Special(b0)
  {
    b := b0;
    if InMemory(b) {
      b := b.(pos := b.pos + sent);
    }
    if b.inFile {
      b := b.(filePos := b.filePos + sent);
    }
  }

  /** A buffer that has been sent. */
  method Emptied(b0: Buf) returns (b: Buf)
    requires BufOk(b0)
    ensures b == Advanced(b0, Size(b0)) && Size(b) == 0
  {
    b := b0;
    if InMemory(b) {
      b := b.(pos := b.last);
    }
    if b.inFile {
      b := b.(filePos := b.fileLast);
    }
    if InMemory(b0) && b0.inFile {
      assert |b0.mem[b0.pos..b0.last]| == |b0.file[b0.filePos..b0.fileLast]|;
    }
  }
}
