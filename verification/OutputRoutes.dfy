/** Which buffers of the output chain go to the filter themselves and which are copied, and what the
    filter is handed. */
module OutputRoutes {
  import opened OutputBufs

  /** What the next filter needs, as in ngx_output_chain_ctx_t. */
  datatype Needs = Needs(sendfile: bool, inMemory: bool, inTemp: bool)

  /** The next filter can take the buffer: it says nothing but a flag, or it need not be read into
      memory, nor be copied because its memory must not be written to. */
  predicate Takes(n: Needs, b: Buf) {
    var inMemory := b.temporary || b.memory || b.mmap;
    || (b.flags && !inMemory && !b.inFile)
    || ((n.inMemory || !n.sendfile ==> inMemory) && (n.inTemp ==> !b.memory && !b.mmap))
  }

  /** What the filter may be handed: without sendfile it must not look into the file either. */
  predicate Fits(n: Needs, b: Buf) {
    Takes(n, b) && (!n.sendfile ==> !b.inFile)
  }

  /** It has no bytes, and is not a mere flag either. */
  predicate SaysNothing(b: Buf) {
    var inMemory := b.temporary || b.memory || b.mmap;
    (if inMemory then b.pos == b.last else b.filePos == b.fileLast) && (!b.flags || inMemory || b.inFile)
  }

  /** A buffer that came as `a`, while it waits: of one that may pass, all is left but perhaps the mark
      that it is in a file too. */
  predicate Waits(n: Needs, a: Buf, b: Buf) {
    && b.temporary == a.temporary && b.memory == a.memory && b.mmap == a.mmap && b.flags == a.flags && b.own == a.own
    && (b.inFile == a.inFile || (!b.inFile && InMemory(a)))
    && (Takes(n, a) ==> b == a.(inFile := b.inFile))
  }

  /** Of the buffers that came, those that the filter can take are still waiting, go out themselves or
      have gone, unless they say nothing; the others never go.  Everything that goes out fits. */
  ghost predicate Routes(n: Needs, h: Heap, inn: seq<Id>, out: seq<Id>, came: Heap, given: seq<Id>) {
    && (forall i :: i in came ==> i in h && !h[i].own)
    && (forall i :: i in h && h[i].own ==> !h[i].memory && !h[i].mmap)
    && (forall i :: i in inn ==> i in came && i in h && Waits(n, came[i], h[i]))
    && (forall i :: i in out ==> i in h && Fits(n, h[i]))
    && (forall i :: i in came && Takes(n, came[i]) ==> i in inn || i in out || i in given || SaysNothing(came[i]))
    && (forall i :: i in came && !Takes(n, came[i]) ==> i !in out && i !in given)
  }

  lemma WaitsTakes(n: Needs, a: Buf, b: Buf)
    requires Waits(n, a, b)
    ensures Takes(n, a) == Takes(n, b) && (Takes(n, a) ==> Size(b) == Size(a)) && Special(a) == Special(b)
  {
  }

  /** The first waiting buffer has been looked at: if it may pass, it may lose the mark of the file. */
  lemma RoutesTest(n: Needs, h: Heap, h': Heap, inn: seq<Id>, out: seq<Id>, came: Heap, given: seq<Id>, i: Id)
    requires Routes(n, h, inn, out, came, given) && i in inn && i !in out && i in h && i in h' && h' == h[i := h'[i]]
    requires h'[i] == h[i].(inFile := h'[i].inFile) && (h'[i].inFile == h[i].inFile || (!h'[i].inFile && InMemory(h[i])))
    ensures Routes(n, h', inn, out, came, given) && i in came && Takes(n, h[i]) == Takes(n, came[i])
  {
    WaitsTakes(n, came[i], h[i]);
  }

  lemma RoutesPass(n: Needs, h: Heap, inn: seq<Id>, out: seq<Id>, came: Heap, given: seq<Id>)
    requires Routes(n, h, inn, out, came, given) && inn != [] && inn[0] in h && Fits(n, h[inn[0]])
    ensures Routes(n, h, inn[1..], out + [inn[0]], came, given)
  {
    var i := inn[0];
    WaitsTakes(n, came[i], h[i]);
    assert inn == [i] + inn[1..];
  }

  /** The first waiting buffer is dropped: it says nothing, or has been copied. */
  lemma RoutesSkip(n: Needs, h: Heap, inn: seq<Id>, out: seq<Id>, came: Heap, given: seq<Id>)
    requires Routes(n, h, inn, out, came, given) && inn != [] && inn[0] in h && inn[0] in came
    requires Takes(n, came[inn[0]]) ==> SaysNothing(h[inn[0]])
    ensures Routes(n, h, inn[1..], out, came, given)
  {
    WaitsTakes(n, came[inn[0]], h[inn[0]]);
    assert inn == [inn[0]] + inn[1..];
  }

  /** Elsewhere in the heap, buffers change that neither wait nor go out. */
  lemma RoutesElsewhere(n: Needs, h: Heap, h': Heap, inn: seq<Id>, out: seq<Id>, came: Heap, given: seq<Id>)
    requires Routes(n, h, inn, out, came, given) && h.Keys <= h'.Keys
    requires forall i :: i in inn || i in out ==> i in h && h'[i] == h[i]
    requires forall i :: i in h ==> h'[i].own == h[i].own && h'[i].memory == h[i].memory && h'[i].mmap == h[i].mmap
    requires forall i :: i in h' && i !in h ==> !h'[i].memory && !h'[i].mmap
    ensures Routes(n, h', inn, out, came, given)
  {
  }

  /** A part of the first waiting buffer has been copied, and the copy goes out. */
  lemma RoutesCopy(n: Needs, h: Heap, h': Heap, inn: seq<Id>, out: seq<Id>, came: Heap, given: seq<Id>, s: Id, d: Id, k: nat)
    requires Routes(n, h, inn, out, came, given) && s in inn && s in h && d in h && h'.Keys == h.Keys
    requires s != d && s !in out && d !in inn && d !in out && s in came && !Takes(n, came[s])
    requires (forall i :: i in h && i != s && i != d ==> h'[i] == h[i]) && h'[s] == Advanced(h[s], k)
    requires h[d].own && h'[d].own && h'[d].temporary && h'[d].memory == h[d].memory && h'[d].mmap == h[d].mmap
    requires !n.sendfile ==> !h'[d].inFile
    ensures Routes(n, h', inn, out + [d], came, given)
  {
    hide SaysNothing;
    assert d !in came;
    assert Fits(n, h'[d]);
    forall i | i in inn ensures Waits(n, came[i], h'[i]) {
    }
  }

  /** What has gone out has been handed over. */
  lemma RoutesGiven(n: Needs, h: Heap, inn: seq<Id>, out: seq<Id>, came: Heap, given: seq<Id>)
    requires Routes(n, h, inn, out, came, given)
    ensures Routes(n, h, inn, [], came, given + out)
  {
  }

  lemma RoutesCame(n: Needs, h: Heap, inn: seq<Id>, came: Heap, given: seq<Id>, i: Id, b: Buf)
    requires Routes(n, h, inn, [], came, given) && i !in h && !b.own && (forall j :: j in given ==> j in h)
    ensures Routes(n, h[i := b], inn + [i], [], came[i := b], given)
  {
  }

  // ---------------------------------------------------------------- what the filter was handed

  /** The buffers of a chain as they are. */
  ghost function Values(h: Heap, c: seq<Id>): (v: seq<Buf>)
    requires forall i :: i in c ==> i in h
    ensures |v| == |c| && forall k :: 0 <= k < |c| ==> v[k] == h[c[k]]
  {
    if c == [] then [] else [h[c[0]]] + Values(h, c[1..])
  }

  /** The bytes of buffers, in order. */
  ghost function BufsData(v: seq<Buf>): Bytes
    requires forall b :: b in v ==> BufOk(b)
  {
    if v == [] then [] else Data(v[0]) + BufsData(v[1..])
  }

  lemma {:induction false} BufsDataJoin(v: seq<Buf>, w: seq<Buf>)
    requires (forall b :: b in v ==> BufOk(b)) && forall b :: b in w ==> BufOk(b)
    ensures (forall b :: b in v + w ==> BufOk(b)) && BufsData(v + w) == BufsData(v) + BufsData(w)
  {
    if v == [] {
      assert v + w == w;
    } else {
      hide BufOk, Data;
      assert (v + w)[0] == v[0] && (v + w)[1..] == v[1..] + w;
      BufsDataJoin(v[1..], w);
      assert Data(v[0]) + (BufsData(v[1..]) + BufsData(w)) == Data(v[0]) + BufsData(v[1..]) + BufsData(w);
    }
  }

  lemma {:induction false} ValuesData(h: Heap, c: seq<Id>)
    requires ChainOk(h, c)
    ensures (forall b :: b in Values(h, c) ==> BufOk(b)) && BufsData(Values(h, c)) == ChainData(h, c)
  {
    hide BufOk, Data;
    if c != [] {
      ValuesData(h, c[1..]);
      assert Values(h, c)[0] == h[c[0]] && Values(h, c)[1..] == Values(h, c[1..]);
    }
  }
}
