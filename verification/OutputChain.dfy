/** The output chain of ngx_output_chain.c on its synchronous path: buffers pass through as they
    are or are copied into recycled ones, and go to a filter that consumes them as it likes. */
module OutputChain {
  import opened OutputBufs
  import opened OutputRoutes

  datatype Code = Ok | Again | Error | Done

  datatype Option<T> = None | Some(v: T)

  /** What the filter does in one call: how many bytes it gets rid of, and its return code. */
  datatype Answer = Answer(taken: nat, rc: Code)

  /** In which chain a buffer is. */
  datatype Place = Direct | Busy | Out | In | Free | Current

  // ---------------------------------------------------------------- the invariant

  /** A chain without repetitions, whose buffers are all in their place. */
  ghost predicate Holds(h: Heap, place: map<Id, Place>, c: seq<Id>, p: Place) {
    NoDup(c) && ChainOk(h, c) && forall i :: i in c ==> i in place && place[i] == p
  }

  /** A buffer that may be written: empty, with room, and one of the chain's own. */
  predicate Blank(b: Buf) {
    b.own && b.temporary && b.pos == 0 && b.last == 0 && |b.mem| > 0
  }

  ghost predicate AllBlank(h: Heap, c: seq<Id>)
    requires ChainOk(h, c)
  {
    forall i :: i in c ==> Blank(h[i])
  }

  /** The same bytes, and fit for the same uses. */
  predicate SameBytes(b: Buf, c: Buf) {
    BufOk(b) && BufOk(c) && Data(b) == Data(c) && b.own == c.own && Blank(b) == Blank(c)
  }

  ghost predicate SameHeap(h: Heap, h': Heap) {
    forall i :: i in h ==> i in h' && (BufOk(h[i]) ==> SameBytes(h[i], h'[i]))
  }

  lemma {:induction false} HoldsFrame(h: Heap, h': Heap, place: map<Id, Place>, c: seq<Id>, p: Place)
    requires Holds(h, place, c, p) && SameHeap(h, h')
    ensures ChainOk(h, c) && Holds(h', place, c, p) && ChainData(h', c) == ChainData(h, c)
    ensures AllBlank(h, c) ==> AllBlank(h', c)
  {
    DataFrame(h, h', c);
  }

  /** A buffer comes to the end of a chain. */
  lemma {:induction false} HoldsPush(h: Heap, place: map<Id, Place>, c: seq<Id>, p: Place, i: Id)
    requires Holds(h, place, c, p) && i in h && BufOk(h[i]) && i !in c
    ensures Holds(h, place[i := p], c + [i], p) && ChainOk(h, c) && ChainOk(h, c + [i])
    ensures ChainData(h, c + [i]) == ChainData(h, c) + Data(h[i])
  {
    DataOne(h, i);
    DataAppend(h, c, [i]);
    NoDupJoin(c, [i]);
  }

  /** A buffer leaves from the front of a chain. */
  lemma {:induction false} HoldsPop(h: Heap, place: map<Id, Place>, c: seq<Id>, p: Place, q: Place)
    requires Holds(h, place, c, p) && c != []
    ensures Holds(h, place[c[0] := q], c[1..], p) && c[0] !in c[1..]
    ensures ChainOk(h, c) && ChainOk(h, c[1..])
    ensures ChainData(h, c) == Data(h[c[0]]) + ChainData(h, c[1..])
    ensures AllBlank(h, c) ==> AllBlank(h, c[1..])
  {
    assert c == [c[0]] + c[1..];
    NoDupParts([c[0]], c[1..]);
  }

  lemma Regroup(a: Bytes, b: Bytes, c: Bytes, d: Bytes)
    ensures a + b + (c + d) == a + (b + c) + d
  {
  }

  lemma EmptyData(b: Buf)
    requires BufOk(b) && Size(b) == 0
    ensures Data(b) == []
  {
  }

  lemma NoneHeld(h: Heap, place: map<Id, Place>, p: Place)
    ensures Holds(h, place, [], p) && ChainOk(h, []) && AllBlank(h, [])
  {
  }

  lemma BlankOne(h: Heap, c: seq<Id>, i: Id)
    requires ChainOk(h, c) && AllBlank(h, c) && i in c
    ensures ChainOk(h, [i]) && AllBlank(h, [i])
  {
  }

  lemma NewBlank(h: Heap, i: Id, b: Buf)
    requires i !in h && b == Buf(b.mem, 0, 0, true, false, false, false, [], 0, 0, false, false, true) && |b.mem| > 0
    ensures BufOk(b) && Blank(b) && SameHeap(h, h[i := b])
  {
  }

  /** A new buffer is in no chain. */
  lemma NewElsewhere(h: Heap, place: map<Id, Place>, c: seq<Id>, p: Place, i: Id, b: Buf, q: Place)
    requires Holds(h, place, c, p) && i !in h
    ensures ChainOk(h, c) && Holds(h[i := b], place[i := q], c, p) && ChainOk(h[i := b], c)
    ensures ChainData(h[i := b], c) == ChainData(h, c) && (AllBlank(h, c) ==> AllBlank(h[i := b], c))
  {
    DataFrame(h, h[i := b], c);
  }

  lemma OneBlank(h: Heap, i: Id)
    requires i in h && BufOk(h[i]) && Blank(h[i])
    ensures ChainOk(h, [i]) && AllBlank(h, [i])
  {
  }

  predicate SameMemory(b: Buf, c: Buf) {
    c.mem == b.mem && c.pos == b.pos && c.last == b.last && c.own == b.own
    && c.temporary == b.temporary && c.memory == b.memory && c.mmap == b.mmap
  }

  lemma Bounds(b: Buf)
    requires BufOk(b)
    ensures (InMemory(b) ==> MemoryOk(b)) && (b.inFile ==> FileOk(b)) && (Size(b) > 0 ==> InMemory(b) || b.inFile)
  {
  }

  lemma SliceOfSlice(s: Bytes, a: nat, b: nat, n: nat)
    requires a + n <= b <= |s|
    ensures s[a..b][..n] == s[a..a + n]
  {
  }

  lemma SameLengths(b: Buf)
    requires BufOk(b) && InMemory(b) && b.inFile
    ensures b.last - b.pos == b.fileLast - b.filePos
  {
    assert |b.mem[b.pos..b.last]| == |b.file[b.filePos..b.fileLast]|;
  }

  lemma CopiedBytes(src: Buf, dst: Buf, n: nat)
    requires BufOk(src) && 0 < n <= Size(src) && n <= |dst.mem| && dst.temporary && dst.pos == 0 && dst.last == n
    requires if InMemory(src) then dst.mem[..n] == src.mem[src.pos..src.pos + n]
             else dst.mem[..n] == src.file[src.filePos..src.filePos + n]
    requires dst.inFile ==> src.inFile && dst.file == src.file && dst.filePos == src.filePos && dst.fileLast == src.filePos + n
    ensures BufOk(dst) && Data(dst) == Data(src)[..n]
  {
    Bounds(src);
    if InMemory(src) {
      SliceOfSlice(src.mem, src.pos, src.last, n);
      if src.inFile {
        SameLengths(src);
        SliceOfSlice(src.file, src.filePos, src.fileLast, n);
      }
    } else {
      SliceOfSlice(src.file, src.filePos, src.fileLast, n);
    }
  }

  /** n bytes of buffer s have gone to buffer d; nothing else has changed. */
  ghost predicate Copied(h: Heap, h': Heap, s: Id, d: Id, n: nat)
    requires s in h && d in h
  {
    && h'.Keys == h.Keys && (forall i :: i in h && i != s && i != d ==> h'[i] == h[i])
    && BufOk(h[s]) && n <= Size(h[s]) && h'[s] == Advanced(h[s], n) && h'[d].own && h'[d].temporary
    && BufOk(h'[d]) && Data(h'[d]) == Data(h[s])[..n]
  }

  lemma CopiedTo(h: Heap, h': Heap, s: Id, d: Id, n: nat)
    requires s in h && d in h && Copied(h, h', s, d, n)
    ensures s in h' && d in h' && BufOk(h[s]) && BufOk(h'[d]) && n <= |Data(h[s])| && Data(h'[d]) == Data(h[s])[..n]
    ensures h'[s] == Advanced(h[s], n) && BufOk(h'[s]) && h'.Keys == h.Keys
  {
    AdvancedData(h[s], n);
  }

  lemma {:induction false} CopyElsewhere(h: Heap, h': Heap, place: map<Id, Place>, c: seq<Id>, p: Place, s: Id, d: Id, n: nat, q: Place)
    requires s in h && d in h && Copied(h, h', s, d, n) && Holds(h, place, c, p)
    requires s in place && d in place && place[s] == In && place[d] == Place.Current && p != In && p != Place.Current
    ensures ChainOk(h, c) && Holds(h', place[d := q], c, p) && ChainData(h', c) == ChainData(h, c)
    ensures AllBlank(h, c) ==> AllBlank(h', c)
  {
    DataFrame(h, h', c);
  }

  lemma {:induction false} CopySource(h: Heap, h': Heap, place: map<Id, Place>, c: seq<Id>, s: Id, d: Id, n: nat)
    requires c != [] && s == c[0] && s in h && d in h && Copied(h, h', s, d, n) && Holds(h, place, c, In)
    requires d in place && place[d] == Place.Current
    ensures ChainOk(h, c) && ChainOk(h, c[1..]) && Holds(h', place[d := Out], c, In)
    ensures ChainData(h', c) == Data(h[s])[n..] + ChainData(h, c[1..])
    ensures (forall i :: i in c ==> !h[i].own) ==> forall i :: i in c ==> i in h' && !h'[i].own
  {
    assert c == [c[0]] + c[1..];
    NoDupParts([c[0]], c[1..]);
    AdvancedData(h[s], n);
    DataFrame(h, h', c[1..]);
  }

  /** The first incoming buffer is not the current one. */
  lemma Apart(h: Heap, place: map<Id, Place>, c: seq<Id>, s: Id, d: Id)
    requires Holds(h, place, c, In) && Holds(h, place, [d], Place.Current) && s in c && AllBlank(h, [d])
    ensures s != d && s in h && d in h && BufOk(h[s]) && Blank(h[d])
  {
    assert d in [d];
  }

  lemma Divided(a: Bytes, o: Bytes, x: Bytes, n: nat, r: Bytes)
    requires n <= |x|
    ensures a + o + (x + r) == a + (o + x[..n]) + (x[n..] + r)
  {
  }

  lemma SameSize(b: Buf, c: Buf)
    requires SameBytes(b, c)
    ensures Size(b) == Size(c)
  {
    assert |Data(b)| == |Data(c)|;
  }

  /** What the filter has, oldest first. */
  lemma {:induction false} Downstream(h: Heap, place: map<Id, Place>, direct: seq<Id>, busy: seq<Id>, out: seq<Id>)
    requires Holds(h, place, direct, Direct) && Holds(h, place, busy, Busy) && Holds(h, place, out, Out)
    ensures ChainOk(h, direct) && ChainOk(h, busy) && ChainOk(h, out)
    ensures ChainOk(h, direct + busy + out) && NoDup(direct + busy + out)
    ensures ChainData(h, direct + busy + out) == ChainData(h, direct) + ChainData(h, busy) + ChainData(h, out)
  {
    NoDupJoin(direct, busy);
    NoDupJoin(direct + busy, out);
    DataAppend(h, direct, busy);
    DataAppend(h, direct + busy, out);
  }

  lemma {:induction false} FilterElsewhere(h: Heap, place: map<Id, Place>, chain: seq<Id>, n: nat, c: seq<Id>, p: Place,
                        direct: seq<Id>, busy: seq<Id>, out: seq<Id>)
    requires Holds(h, place, direct, Direct) && Holds(h, place, busy, Busy) && Holds(h, place, out, Out)
    requires Holds(h, place, c, p) && p != Direct && p != Busy && p != Out
    requires chain == direct + busy + out && forall i :: i in chain ==> i in h
    ensures var h' := Consumed(h, chain, n);
            h'.Keys == h.Keys && ChainOk(h, c) && Holds(h', place, c, p) && ChainData(h', c) == ChainData(h, c)
            && (AllBlank(h, c) ==> AllBlank(h', c)) && forall i :: i in c ==> i in h && i in h' && h'[i] == h[i]
  {
    ConsumedFrame(h, chain, n);
    forall i | i in c ensures i !in chain {
      assert place[i] == p;
    }
    DataFrame(h, Consumed(h, chain, n), c);
  }

  lemma HoldsAgain(h: Heap, h': Heap, place: map<Id, Place>, c: seq<Id>, p: Place, chain: seq<Id>)
    requires Holds(h, place, c, p) && ChainOk(h', chain) && forall i :: i in c ==> i in chain
    ensures Holds(h', place, c, p) && ChainOk(h', c)
  {
  }

  /** The first n bytes, or all. */
  function Taken(x: Bytes, n: nat): Bytes { if n <= |x| then x[..n] else x }

  /** What the filter had is what is gone and what it has left. */
  lemma Accounts(sent: Bytes, d: Bytes, b: Bytes, o: Bytes, x: Bytes, n: nat, d': Bytes, b': Bytes, o': Bytes)
    requires x == d + b + o && d' + b' + o' == Cut(x, n)
    ensures sent + Taken(x, n) + d' + b' + o' == sent + d + b + o && sent <= sent + Taken(x, n)
  {
    var y := Taken(x, n);
    assert y + Cut(x, n) == x;
    assert sent + y + d' + b' + o' == sent + (y + (d' + b' + o'));
    assert sent + d + b + o == sent + (d + b + o);
  }

  lemma ResetBuf(b: Buf)
    requires BufOk(b) && b.own && Size(b) == 0
    ensures var c := b.(pos := 0, last := 0); BufOk(c) && Blank(c) && Data(c) == []
  {
    assert |b.mem[b.pos..b.last]| == 0;
  }

  lemma {:induction false} RecycleElsewhere(h: Heap, h': Heap, place: map<Id, Place>, c: seq<Id>, i: Id)
    requires ChainOk(h, c) && i !in c && i in h' && h' == h[i := h'[i]]
    ensures ChainOk(h', c) && ChainData(h', c) == ChainData(h, c) && (AllBlank(h, c) ==> AllBlank(h', c))
    ensures forall j :: j in c ==> j in h && h'[j] == h[j]
  {
    DataFrame(h, h', c);
  }

  /** What the filter does in its n-th call; after the script it does nothing. */
  function Nth(script: seq<Answer>, n: nat): Answer {
    if n < |script| then script[n] else Answer(0, Again)
  }

  /** Of so many calls none but the last one ended with an error or "done", and the code is that of the
      last one, or "again" if input is left. */
  ghost predicate Ends(script: seq<Answer>, calls: nat, rc: Code, left: bool) {
    && calls > 0 && (forall k: nat :: k < calls - 1 ==> GoesOn(script, k))
    && rc == if GoesOn(script, calls - 1) && left then Again else Nth(script, calls - 1).rc
  }

  predicate GoesOn(script: seq<Answer>, k: nat) { Nth(script, k).rc != Error && Nth(script, k).rc != Done }

  function WithDirect(place: map<Id, Place>, out: seq<Id>): map<Id, Place> {
    map i | i in place :: if i in out then Direct else place[i]
  }

  lemma {:induction false} DirectJoin(h: Heap, place: map<Id, Place>, direct: seq<Id>, out: seq<Id>)
    requires Holds(h, place, direct, Direct) && Holds(h, place, out, Out)
    ensures ChainOk(h, direct) && ChainOk(h, out)
    ensures Holds(h, WithDirect(place, out), direct + out, Direct)
    ensures ChainData(h, direct + out) == ChainData(h, direct) + ChainData(h, out)
  {
    DataAppend(h, direct, out);
    NoDupJoin(direct, out);
  }

  lemma {:induction false} DirectOther(h: Heap, place: map<Id, Place>, c: seq<Id>, p: Place, out: seq<Id>)
    requires Holds(h, place, out, Out) && Holds(h, place, c, p) && p != Out
    ensures Holds(h, WithDirect(place, out), c, p)
  {
  }

  function Joined(place: map<Id, Place>, out: seq<Id>): map<Id, Place> {
    map i | i in place :: if i in out then Busy else place[i]
  }

  lemma {:induction false} JoinBusy(h: Heap, place: map<Id, Place>, busy: seq<Id>, out: seq<Id>)
    requires Holds(h, place, busy, Busy) && Holds(h, place, out, Out)
    ensures ChainOk(h, busy) && ChainOk(h, out)
    ensures Holds(h, Joined(place, out), busy + out, Busy)
    ensures ChainData(h, busy + out) == ChainData(h, busy) + ChainData(h, out)
  {
    DataAppend(h, busy, out);
    NoDupJoin(busy, out);
  }

  lemma {:induction false} JoinOther(h: Heap, place: map<Id, Place>, c: seq<Id>, p: Place, out: seq<Id>)
    requires Holds(h, place, out, Out) && Holds(h, place, c, p) && p != Out
    ensures Holds(h, Joined(place, out), c, p)
  {
  }

  lemma Append3(a: Bytes, b: Bytes, c: Bytes, d: Bytes)
    ensures a + b + c + d == a + b + (c + d)
  {
  }

  lemma HoldsIn(h: Heap, place: map<Id, Place>, c: seq<Id>, p: Place, i: Id)
    requires Holds(h, place, c, p) && i in c
    ensures i in h && BufOk(h[i]) && i in place && place[i] == p
  {
  }

  lemma NotIn(h: Heap, place: map<Id, Place>, c: seq<Id>, p: Place, i: Id)
    requires Holds(h, place, c, p) && i in place && place[i] != p
    ensures i !in c
  {
  }

  /** A buffer moves between two other places. */
  lemma HoldsOther(h: Heap, place: map<Id, Place>, c: seq<Id>, p: Place, i: Id, q: Place)
    requires Holds(h, place, c, p) && i !in c
    ensures Holds(h, place[i := q], c, p)
  {
  }

  /** What came in, and what has been handed over and is gone. */
  datatype Log = Record(supplied: Bytes, handed: Bytes, sent: Bytes, came: Heap, given: seq<Id>, shown: seq<Buf>)

  /** More has been handed over, and nothing has come in. */
  predicate Extends(a: Log, b: Log) {
    && b.supplied == a.supplied && b.came == a.came
    && a.handed <= b.handed && a.sent <= b.sent && a.given <= b.given && a.shown <= b.shown
  }

  lemma ExtendsSelf(a: Log)
    ensures Extends(a, a)
  {
  }

  lemma ExtendsOn(a: Log, b: Log, c: Log)
    requires Extends(a, b) && Extends(b, c)
    ensures Extends(a, c)
  {
  }

  class OutputChain {
    const sendfile: bool
    const needInMemory: bool
    const needInTemp: bool
    const num: nat                  // bufs.num
    const size: nat                 // bufs.size
    var bufs: Heap                  // every buffer
    var next: Id                    // addresses from here on are free
    var inn: seq<Id>                // ctx->in
    var busy: seq<Id>
    var free: seq<Id>
    var buf: Option<Id>
    var made: nat              // buffers of its own that it has made
    ghost var place: map<Id, Place>
    var direct: seq<Id>             // buffers that the filter has and nobody else keeps track of
    ghost var supplied: Bytes       // all that ever came in
    ghost var handed: Bytes         // all that ever went to the filter
    ghost var sent: Bytes           // all that the filter got rid of
    ghost var came: Heap            // the buffers that came in, as they came
    ghost var given: seq<Id>        // the buffers that ever went to the filter
    ghost var shown: seq<Buf>       // what they were like then

    ghost function Current(): seq<Id>
      reads `buf
    {
      if buf.Some? then [buf.v] else []
    }

    /** Every buffer is in one place only. */
    ghost predicate Places(out: seq<Id>)
      reads `bufs, `next, `inn, `busy, `free, `buf, `made, `place, `direct
    {
      && Holds(bufs, place, direct, Direct) && Holds(bufs, place, busy, Busy)
      && Holds(bufs, place, out, Out) && Holds(bufs, place, inn, In)
      && Holds(bufs, place, free, Free) && Holds(bufs, place, Current(), Place.Current)
      && AllBlank(bufs, free) && AllBlank(bufs, Current())
      && (forall i :: i in inn ==> !bufs[i].own)
      && (forall i :: i in bufs ==> i < next)
      && made <= num && size > 0
    }

    /** What came in is what went to the filter and what is still in the chain; what went to the
        filter is what it got rid of and what is still in the buffers it has. */
    ghost predicate Books(out: seq<Id>, given: bool)
      reads `bufs, `inn, `busy, `direct, `supplied, `handed, `sent
      requires ChainOk(bufs, direct) && ChainOk(bufs, busy) && ChainOk(bufs, out) && ChainOk(bufs, inn)
    {
      var o := ChainData(bufs, out);
      && supplied == handed + (if given then [] else o) + ChainData(bufs, inn)
      && handed == sent + ChainData(bufs, direct) + ChainData(bufs, busy) + (if given then o else [])
    }

    ghost predicate Valid(out: seq<Id>, given: bool)
      reads `bufs, `next, `inn, `busy, `free, `buf, `made, `place, `direct, `supplied, `handed, `sent
    {
      Places(out) && Books(out, given)
    }

    function Needs(): Needs { OutputRoutes.Needs.Needs(sendfile, needInMemory, needInTemp) }

    /** What goes to the filter and what is copied, and that it fits all that the filter was handed. */
    ghost predicate Routed(out: seq<Id>)
      reads `bufs, `inn, `next, `came, `given, `shown
    {
      && Routes(Needs(), bufs, inn, out, came, given)
      && |given| == |shown| && (forall b :: b in shown ==> Fits(Needs(), b))
      && (forall i :: i in given ==> i in bufs) && (forall i :: i in bufs ==> i < next)
    }

    /** The bytes that the filter was handed are those of the buffers it was shown. */
    ghost predicate Tallied()
      reads `shown, `handed
    {
      (forall b :: b in shown ==> BufOk(b)) && handed == BufsData(shown)
    }

    /** All that has been recorded so far. */
    ghost function Log(): Log
      reads `supplied, `handed, `sent, `came, `given, `shown
    {
      Record(supplied, handed, sent, came, given, shown)
    }

    /** How much there is still to do. */
    ghost function Work(): nat
      reads `bufs, `inn
      requires ChainOk(bufs, inn)
    {
      |inn| + |ChainData(bufs, inn)|
    }

    lemma InOk(out: seq<Id>, given: bool)
      requires Valid(out, given)
      ensures ChainOk(bufs, inn)
    {
    }

    constructor (sendfile: bool, needInMemory: bool, needInTemp: bool, num: nat, size: nat)
      requires size > 0
      ensures Valid([], false) && Routed([]) && Tallied() && supplied == [] && handed == [] && sent == []
    {
      this.sendfile, this.needInMemory, this.needInTemp, this.num, this.size := sendfile, needInMemory, needInTemp, num, size;
      bufs, next, inn, busy, free, buf, made := map[], 0, [], [], [], None, 0;
      place, direct, supplied, handed, sent := map[], [], [], [], [];
      came, given, shown := map[], [], [];
    }

    // -------------------------------------------------------------- buffers that pass as they are

    /** ngx_output_chain_as_is: exactly the buffers that the next filter can take pass; one that
        goes from memory is no longer in a file. */
    method AsIs(i: Id) returns (asIs: bool)
      requires i in bufs && BufOk(bufs[i])
      modifies `bufs
      ensures i in bufs && SameBytes(old(bufs[i]), bufs[i]) && bufs == old(bufs)[i := bufs[i]]
      ensures asIs <==> Takes(Needs(), old(bufs[i]))
      ensures if asIs then Fits(Needs(), bufs[i]) else !Special(old(bufs[i]))
      ensures bufs[i] == old(bufs[i]).(inFile := bufs[i].inFile)
      ensures bufs[i].inFile == (old(bufs[i]).inFile && (sendfile || !InMemory(old(bufs[i]))))
    {
      if Special(bufs[i]) {
        return true;
      }
      if !sendfile {
        if !InMemory(bufs[i]) {
          return false;
        }
        bufs := bufs[i := bufs[i].(inFile := false)];
      }
      if needInMemory && !InMemory(bufs[i]) {
        return false;
      }
      if needInTemp && (bufs[i].memory || bufs[i].mmap) {
        return false;
      }
      return true;
    }

    /** The first buffer of ctx->in moves to the output as it is. */
    method PassOn(out: seq<Id>) returns (out': seq<Id>)
      requires Valid(out, false) && Routed(out) && inn != [] && inn[0] in bufs && Fits(Needs(), bufs[inn[0]])
      modifies `inn, `place
      ensures Valid(out', false) && Routed(out') && inn == old(inn[1..]) && out' == out + [old(inn[0])]
      ensures ChainOk(old(bufs), old(inn)) && Work() < old(Work())
    {
      hide Holds, ChainData, Data, Blank, AllBlank, Routes, Fits;
      var i := inn[0];
      RoutesPass(Needs(), bufs, inn, out, came, given);
      HoldsIn(bufs, place, inn, In, i);
      HoldsPop(bufs, place, inn, In, Out);
      NotIn(bufs, place, out, Out, i);
      HoldsPush(bufs, place, out, Out, i);
      Unmoved(i, Out);
      Regroup(handed, ChainData(bufs, out), Data(bufs[i]), ChainData(bufs, inn[1..]));
      inn := inn[1..];
      place := place[i := Out];
      out' := out + [i];
    }

    /** The chains that a moving buffer is not in. */
    lemma Unmoved(i: Id, q: Place)
      requires i in place
      requires Holds(bufs, place, direct, Direct) && Holds(bufs, place, busy, Busy)
      requires Holds(bufs, place, free, Free) && Holds(bufs, place, Current(), Place.Current)
      ensures place[i] != Direct ==> Holds(bufs, place[i := q], direct, Direct)
      ensures place[i] != Busy ==> Holds(bufs, place[i := q], busy, Busy)
      ensures place[i] != Free ==> Holds(bufs, place[i := q], free, Free)
      ensures place[i] != Place.Current ==> Holds(bufs, place[i := q], Current(), Place.Current)
    {
    }

    /** A buffer without bytes is dropped. */
    method Skip(out: seq<Id>)
      requires Valid(out, false) && Routed(out) && inn != [] && Size(bufs[inn[0]]) == 0 && inn[0] in came
      requires Takes(Needs(), came[inn[0]]) ==> SaysNothing(bufs[inn[0]])
      modifies `inn
      ensures Valid(out, false) && Routed(out) && inn == old(inn[1..])
      ensures ChainOk(bufs, old(inn)) && Work() < old(Work())
    {
      hide Holds, ChainData, Data, Blank, AllBlank, Routes, Takes, Fits;
      var i := inn[0];
      HoldsIn(bufs, place, inn, In, i);
      RoutesSkip(Needs(), bufs, inn, out, came, given);
      HoldsPop(bufs, place, inn, In, In);
      assert place[i := In] == place;
      EmptyData(bufs[i]);
      assert ChainData(bufs, inn) == ChainData(bufs, inn[1..]);
      inn := inn[1..];
    }

    /** A recycled buffer becomes the current one. */
    method TakeFree(out: seq<Id>)
      requires Valid(out, false) && buf.None? && free != []
      modifies `free, `buf, `place
      ensures Valid(out, false) && buf.Some? && ChainOk(bufs, inn) && free == old(free)[1..]
    {
      hide Holds, ChainData, Data, Blank;
      var i := free[0];
      InOk(out, false);
      HoldsIn(bufs, place, free, Free, i);
      HoldsPop(bufs, place, free, Free, Place.Current);
      NoneHeld(bufs, place, Place.Current);
      HoldsPush(bufs, place, [], Place.Current, i);
      Unmoved(i, Place.Current);
      NotIn(bufs, place, out, Out, i);
      NotIn(bufs, place, inn, In, i);
      HoldsOther(bufs, place, out, Out, i, Place.Current);
      HoldsOther(bufs, place, inn, In, i, Place.Current);
      BlankOne(bufs, free, i);
      free := free[1..];
      buf := Some(i);
      place := place[i := Place.Current];
      assert Current() == [] + [i];
    }

    /** ngx_output_chain_get_buf: how large a new buffer is. */
    method NewSize(bsize: nat, lastInChain: bool) returns (n: nat)
      requires size > 0 && bsize > 0
      ensures 0 < n && (n == size || (lastInChain && n == bsize))
    {
      n := size;
      if lastInChain {
        if bsize < size {
          n := bsize;
        } else if num == 1 && bsize < size + size / 4 {
          n := bsize;
        }
      }
    }

    /** ngx_output_chain_get_buf: a new buffer becomes the current one. */
    method GetBuf(out: seq<Id>, bsize: nat)
      requires Valid(out, false) && Routed(out) && inn != [] && buf.None? && bsize > 0 && made < num
      modifies `bufs, `next, `buf, `made, `place
      ensures Valid(out, false) && Routed(out) && buf.Some? && made == old(made) + 1
      ensures ChainOk(old(bufs), inn) && Work() == old(Work()) && inn[0] in bufs && bufs[inn[0]] == old(bufs)[inn[0]]
    {
      hide Valid, Routed;
      FirstIn(out);
      var n := NewSize(bsize, bufs[inn[0]].lastInChain);
      NewBuf(out, Buf(Zeros(n), 0, 0, true, false, false, false, [], 0, 0, false, false, true));
    }

    method NewBuf(out: seq<Id>, b: Buf)
      requires Valid(out, false) && Routed(out) && inn != [] && buf.None? && made < num
      requires b == Buf(b.mem, 0, 0, true, false, false, false, [], 0, 0, false, false, true) && |b.mem| > 0
      modifies `bufs, `next, `buf, `made, `place
      ensures Valid(out, false) && Routed(out) && buf.Some? && made == old(made) + 1
      ensures ChainOk(old(bufs), inn) && Work() == old(Work())
      ensures inn[0] in old(bufs) && inn[0] in bufs && bufs[inn[0]] == old(bufs)[inn[0]]
    {
      hide Holds, ChainData, Data, Blank, AllBlank, Routes, Fits;
      var i := next;
      InOk(out, false);
      NewBlank(bufs, i, b);
      NewPlace(out, i, b);
      RoutedNew(out, i, b);
      bufs := bufs[i := b];
      next := next + 1;
      buf := Some(i);
      made := made + 1;
      place := place[i := Place.Current];
    }

    lemma RoutedNew(out: seq<Id>, i: Id, b: Buf)
      requires Routed(out) && i == next && !b.memory && !b.mmap
      ensures Routes(Needs(), bufs[i := b], inn, out, came, given)
    {
      RoutesElsewhere(Needs(), bufs, bufs[i := b], inn, out, came, given);
    }

    function Zeros(n: nat): (z: Bytes)
      ensures |z| == n
    {
      seq(n, _ => 0)
    }

    /** Nothing but the current buffer changes when one is made. */
    lemma {:induction false} NewPlace(out: seq<Id>, i: Id, b: Buf)
      requires Valid(out, false) && buf.None? && i == next && SameHeap(bufs, bufs[i := b])
      requires BufOk(b) && Blank(b)
      ensures var h, pl := bufs[i := b], place[i := Place.Current];
              Holds(h, pl, direct, Direct) && Holds(h, pl, busy, Busy) && Holds(h, pl, out, Out)
              && Holds(h, pl, inn, In) && Holds(h, pl, free, Free) && Holds(h, pl, [i], Place.Current)
      ensures AllBlank(bufs[i := b], free) && AllBlank(bufs[i := b], [i])
      ensures forall j :: j in inn ==> !bufs[i := b][j].own
      ensures var h := bufs[i := b];
              ChainData(h, direct) == ChainData(bufs, direct) && ChainData(h, busy) == ChainData(bufs, busy)
              && ChainData(h, out) == ChainData(bufs, out) && ChainData(h, inn) == ChainData(bufs, inn)
    {
      hide ChainData, Data, Blank, Holds, AllBlank;
      var h := bufs[i := b];
      NewElsewhere(bufs, place, direct, Direct, i, b, Place.Current);
      NewElsewhere(bufs, place, busy, Busy, i, b, Place.Current);
      NewElsewhere(bufs, place, out, Out, i, b, Place.Current);
      NewElsewhere(bufs, place, inn, In, i, b, Place.Current);
      NewElsewhere(bufs, place, free, Free, i, b, Place.Current);
      NoneHeld(h, place, Place.Current);
      HoldsPush(h, place, [], Place.Current, i);
      assert [] + [i] == [i];
      OneBlank(h, i);
      forall j | j in inn ensures j in bufs && j != i {
        HoldsIn(bufs, place, inn, In, j);
      }
    }

    // -------------------------------------------------------------- buffers that are copied

    /** Whether the copy may still be sent from the file, in which it has the same place. */
    method MarkFile(src: Buf, dst0: Buf, n: nat) returns (dst: Buf)
      ensures SameMemory(dst0, dst)
      ensures dst.inFile ==> src.inFile && dst.file == src.file && dst.filePos == src.filePos && dst.fileLast == src.filePos + n
      ensures dst.inFile ==> sendfile
    {
      if src.inFile && sendfile {
        dst := dst0.(inFile := true, file := src.file, filePos := src.filePos, fileLast := src.filePos + n);
      } else {
        dst := dst0.(inFile := false);
      }
    }

    /** The marks of the source go along with its last byte. */
    method MarkLast(src: Buf, dst0: Buf, drained: bool) returns (dst: Buf)
      ensures SameMemory(dst0, dst) && dst.inFile == dst0.inFile && dst.file == dst0.file
      ensures dst.filePos == dst0.filePos && dst.fileLast == dst0.fileLast
    {
      dst := dst0;
      if drained {
        dst := dst.(flags := src.flags, lastInChain := src.lastInChain);
      }
    }

    /** n bytes go from memory or from the file into the memory of the copy. */
    method CopyBytes(src: Buf, dst0: Buf, n: nat) returns (dst: Buf)
      requires BufOk(src) && 0 < n <= Size(src) && Blank(dst0) && n <= |dst0.mem|
      ensures BufOk(dst) && Data(dst) == Data(src)[..n]
      ensures dst.own && dst.temporary && dst.memory == dst0.memory && dst.mmap == dst0.mmap && (!sendfile ==> !dst.inFile)
    {
      hide Data, BufOk;
      Bounds(src);
      var bytes := if InMemory(src) then src.mem[src.pos..src.pos + n] else src.file[src.filePos..src.filePos + n];
      dst := dst0.(mem := bytes + dst0.mem[n..], last := dst0.last + n);
      assert dst.mem[..n] == bytes;
      dst := MarkFile(src, dst, n);
      dst := MarkLast(src, dst, n == Size(src));
      CopiedBytes(src, dst, n);
    }

    /** The source moves on, in memory and in the file. */
    method MoveOn(src0: Buf, n: nat) returns (src: Buf)
      ensures src == Advanced(src0, n)
    {
      src := src0;
      if InMemory(src) {
        src := src.(pos := src.pos + n);
      }
      if src.inFile {
        src := src.(filePos := src.filePos + n);
      }
    }

    /** ngx_output_chain_copy_buf: as many bytes as fit go from the first buffer of ctx->in into the
        current one; no other buffer changes. */
    method CopyBuf() returns (n: nat)
      requires inn != [] && buf.Some? && inn[0] in bufs && buf.v in bufs && inn[0] != buf.v
      requires BufOk(bufs[inn[0]]) && Size(bufs[inn[0]]) > 0 && Blank(bufs[buf.v])
      modifies `bufs
      ensures 0 < n <= Size(old(bufs[inn[0]]))
      ensures var size, room := Size(old(bufs[inn[0]])), |old(bufs[buf.v]).mem|; n == if size < room then size else room
      ensures Copied(old(bufs), bufs, inn[0], buf.v, n)
      ensures bufs[buf.v].memory == old(bufs)[buf.v].memory && bufs[buf.v].mmap == old(bufs)[buf.v].mmap
      ensures !sendfile ==> !bufs[buf.v].inFile
    {
      var src, dst := bufs[inn[0]], bufs[buf.v];
      n := Size(src);
      if n > |dst.mem| - dst.pos {
        n := |dst.mem| - dst.pos;
      }
      dst := CopyBytes(src, dst, n);
      src := MoveOn(src, n);
      bufs := bufs[inn[0] := src][buf.v := dst];
    }

    /** What a copy leaves as it was, and what it makes of the source. */
    lemma {:induction false} AfterCopy(h: Heap, out: seq<Id>, s: Id, d: Id, n: nat)
      requires inn != [] && s == inn[0] && Current() == [d] && s in h && d in h && Copied(h, bufs, s, d, n)
      requires Holds(h, place, direct, Direct) && Holds(h, place, busy, Busy) && Holds(h, place, out, Out)
      requires Holds(h, place, inn, In) && Holds(h, place, free, Free) && Holds(h, place, [d], Place.Current)
      requires AllBlank(h, free) && forall i :: i in inn ==> !h[i].own
      ensures var pl := place[d := Out];
              Holds(bufs, pl, direct, Direct) && Holds(bufs, pl, busy, Busy) && Holds(bufs, pl, out + [d], Out)
              && Holds(bufs, pl, inn, In) && Holds(bufs, pl, free, Free)
      ensures AllBlank(bufs, free) && forall i :: i in inn ==> i in bufs && !bufs[i].own
      ensures ChainOk(h, out) && ChainOk(h, inn[1..]) && BufOk(h[s]) && n <= |Data(h[s])|
      ensures ChainData(bufs, direct) == ChainData(h, direct) && ChainData(bufs, busy) == ChainData(h, busy)
      ensures ChainData(bufs, out + [d]) == ChainData(h, out) + Data(h[s])[..n]
      ensures ChainData(bufs, inn) == Data(h[s])[n..] + ChainData(h, inn[1..])
    {
      hide ChainData, Data, Blank, Holds, AllBlank, Copied;
      HoldsIn(h, place, inn, In, s);
      assert d in [d];
      HoldsIn(h, place, [d], Place.Current, d);
      CopyElsewhere(h, bufs, place, direct, Direct, s, d, n, Out);
      CopyElsewhere(h, bufs, place, busy, Busy, s, d, n, Out);
      CopyElsewhere(h, bufs, place, free, Free, s, d, n, Out);
      CopyElsewhere(h, bufs, place, out, Out, s, d, n, Place.Current);
      CopySource(h, bufs, place, inn, s, d, n);
      NotIn(h, place, out, Out, d);
      CopiedTo(h, bufs, s, d, n);
      assert place[d := Place.Current] == place;
      HoldsPush(bufs, place, out, Out, d);
    }

    /** The first buffer of ctx->in is copied, or as much of it as fits, and the copy goes to the
        output. */
    method CopyOut(out: seq<Id>) returns (out': seq<Id>)
      requires Valid(out, false) && Routed(out) && inn != [] && buf.Some?
      requires Size(bufs[inn[0]]) > 0 && inn[0] in came && !Takes(Needs(), came[inn[0]])
      modifies `bufs, `inn, `buf, `place
      ensures Valid(out', false) && Routed(out') && out' != [] && buf.None?
      ensures ChainOk(old(bufs), old(inn)) && Work() < old(Work())
    {
      hide Valid, Routed, Takes;
      out' := CopyPart(out);
      if Size(bufs[inn[0]]) == 0 {
        Skip(out');
      }
    }

    method CopyPart(out: seq<Id>) returns (out': seq<Id>)
      requires Valid(out, false) && Routed(out) && inn != [] && buf.Some?
      requires Size(bufs[inn[0]]) > 0 && inn[0] in came && !Takes(Needs(), came[inn[0]])
      modifies `bufs, `buf, `place
      ensures Valid(out', false) && Routed(out') && out' != [] && buf.None? && inn[0] in bufs
      ensures ChainOk(old(bufs), inn) && Work() < old(Work())
    {
      hide NoDup, Advanced;
      hide Holds, ChainData, Data, Blank, AllBlank, Copied, Routes, Takes, Fits;
      var s, d := inn[0], buf.v;
      ghost var h := bufs;
      Apart(bufs, place, inn, s, d);
      HoldsPop(bufs, place, inn, In, In);
      var n := CopyBuf();
      AfterCopy(h, out, s, d, n);
      CopiedTo(h, bufs, s, d, n);
      RoutedCopy(h, out, s, d, n);
      Divided(handed, ChainData(h, out), Data(h[s]), n, ChainData(h, inn[1..]));
      out' := out + [d];
      buf := None;
      place := place[d := Out];
      NoneHeld(bufs, place, Place.Current);
    }

    /** The copy goes out, and the source goes on waiting. */
    lemma {:induction false} RoutedCopy(h: Heap, out: seq<Id>, s: Id, d: Id, k: nat)
      requires inn != [] && s == inn[0] && Current() == [d] && s in h && d in h && Copied(h, bufs, s, d, k) && s != d
      requires Holds(h, place, out, Out) && Holds(h, place, inn, In) && Holds(h, place, [d], Place.Current) && AllBlank(h, [d])
      requires Routes(Needs(), h, inn, out, came, given) && s in came && !Takes(Needs(), came[s])
      requires bufs[d].memory == h[d].memory && bufs[d].mmap == h[d].mmap && (!sendfile ==> !bufs[d].inFile)
      ensures Routes(Needs(), bufs, inn, out + [d], came, given)
    {
      hide Routes, Takes, Fits;
      assert d in [d];
      HoldsIn(h, place, inn, In, s);
      HoldsIn(h, place, [d], Place.Current, d);
      NotIn(h, place, out, Out, s);
      NotIn(h, place, out, Out, d);
      NotIn(h, place, inn, In, d);
      RoutesCopy(Needs(), h, bufs, inn, out, came, given, s, d, k);
    }

    // -------------------------------------------------------------- the inner loop

    /** Whether the first buffer of ctx->in may pass as it is. */
    method Test(out: seq<Id>) returns (asIs: bool)
      requires Valid(out, false) && Routed(out) && inn != []
      modifies `bufs
      ensures Valid(out, false) && Routed(out) && ChainOk(old(bufs), inn) && Work() == old(Work())
      ensures inn[0] in came && (asIs <==> Takes(Needs(), came[inn[0]]))
      ensures asIs ==> inn[0] in bufs && Fits(Needs(), bufs[inn[0]])
      ensures !asIs ==> Size(bufs[inn[0]]) == Size(old(bufs[inn[0]])) && !Special(old(bufs[inn[0]]))
    {
      hide Valid, Holds, ChainData, Data, Blank, AllBlank, Routes, Fits, Takes;
      ghost var h := bufs;
      var i := inn[0];
      InOk(out, false);
      WaitsOnly(out, i);
      asIs := AsIs(i);
      RoutesTest(Needs(), h, bufs, inn, out, came, given, i);
      AfterTest(h, out, i);
      SameSize(h[i], bufs[i]);
    }

    lemma WaitsOnly(out: seq<Id>, i: Id)
      requires Valid(out, false) && i in inn
      ensures i in bufs && BufOk(bufs[i]) && i !in out && Placed(bufs, out)
    {
      hide AllBlank, ChainData;
      HoldsIn(bufs, place, inn, In, i);
      NotIn(bufs, place, out, Out, i);
    }

    /** Valid, for another heap than the present one. */
    ghost predicate Placed(h: Heap, out: seq<Id>)
      reads `next, `inn, `busy, `free, `buf, `made, `place, `direct, `supplied, `handed, `sent
    {
      && Holds(h, place, direct, Direct) && Holds(h, place, busy, Busy) && Holds(h, place, out, Out)
      && Holds(h, place, inn, In) && Holds(h, place, free, Free) && Holds(h, place, Current(), Place.Current)
      && AllBlank(h, free) && AllBlank(h, Current()) && (forall i :: i in inn ==> !h[i].own)
      && (forall i :: i in h ==> i < next) && made <= num && size > 0
      && supplied == handed + ChainData(h, out) + ChainData(h, inn)
      && handed == sent + ChainData(h, direct) + ChainData(h, busy)
    }

    /** A buffer that has been looked at is where it was, with its bytes. */
    lemma {:induction false} AfterTest(h: Heap, out: seq<Id>, i: Id)
      requires Placed(h, out) && i in h && i in bufs && bufs == h[i := bufs[i]] && SameBytes(h[i], bufs[i])
      ensures Valid(out, false) && ChainOk(h, inn) && ChainData(bufs, inn) == ChainData(h, inn)
    {
      hide Holds, ChainData, Data, Blank, AllBlank;
      assert SameHeap(h, bufs);
      HoldsFrame(h, bufs, place, direct, Direct);
      HoldsFrame(h, bufs, place, busy, Busy);
      HoldsFrame(h, bufs, place, out, Out);
      HoldsFrame(h, bufs, place, inn, In);
      HoldsFrame(h, bufs, place, free, Free);
      HoldsFrame(h, bufs, place, Current(), Place.Current);
    }

    /** The loop over ctx->in: buffers pass or are copied until there are no more, or no buffer to
        copy into.  At most one buffer is made, and only if there is no free one. */
    method Fill() returns (out: seq<Id>)
      requires Valid([], false) && Routed([])
      modifies `bufs, `next, `inn, `free, `buf, `made, `place
      ensures Valid(out, false) && Routed(out)
      ensures out != [] ==> Work() < old(Work())
      ensures out == [] ==> Work() <= old(Work())
      ensures inn != [] ==> buf.None? && free == [] && (out != [] || made == num)
      ensures made != old(made) ==> made == old(made) + 1 && free == []
    {
      hide Valid, Routed, Takes, Fits;
      out := [];
      InOk(out, false);
      while inn != []
        invariant Valid(out, false) && Routed(out) && ChainOk(bufs, inn)
        invariant out != [] ==> Work() < old(Work())
        invariant out == [] ==> Work() <= old(Work())
        invariant made == old(made) || (made == old(made) + 1 && free == [] && out != [])
        decreases Work()
      {
        FirstIn(out);
        FirstCame(out);
        if Size(bufs[inn[0]]) == 0 && !Special(bufs[inn[0]]) {
          Skip(out);
          InOk(out, false);
          continue;
        }
        var bsize := Size(bufs[inn[0]]);
        var asIs := Test(out);
        if asIs {
          out := PassOn(out);
          InOk(out, false);
          continue;
        }
        var ready := MakeReady(out, bsize);
        if !ready {
          break;
        }
        out := CopyOut(out);
        InOk(out, false);
      }
    }

    /** A buffer to copy into: the current one, a free one, or if nothing goes out yet a new one. */
    method MakeReady(out: seq<Id>, bsize: nat) returns (ready: bool)
      requires Valid(out, false) && Routed(out) && inn != [] && bsize > 0 && made <= num
      modifies `bufs, `next, `free, `buf, `made, `place
      ensures Valid(out, false) && Routed(out) && ChainOk(old(bufs), inn) && Work() == old(Work())
      ensures inn[0] in bufs && inn[0] in old(bufs) && bufs[inn[0]] == old(bufs)[inn[0]]
      ensures ready == buf.Some? && (!ready ==> free == [] && (out != [] || made == num) && made == old(made))
      ensures made != old(made) ==> made == old(made) + 1 && free == old(free) == [] && out == []
      ensures old(free) == [] ==> free == []
    {
      hide Valid, Routed;
      FirstIn(out);
      ready := true;
      if buf.None? {
        if free != [] {
          TakeFree(out);
        } else if out != [] || made == num {
          ready := false;
        } else {
          GetBuf(out, bsize);
        }
      }
    }

    lemma FirstCame(out: seq<Id>)
      requires Routed(out) && inn != []
      ensures inn[0] in came && inn[0] in bufs
    {
    }

    lemma FirstIn(out: seq<Id>)
      requires Valid(out, false) && inn != []
      ensures inn[0] in bufs && BufOk(bufs[inn[0]]) && ChainOk(bufs, inn) && made <= num && size > 0
      ensures Size(bufs[inn[0]]) >= 0
    {
    }


    // -------------------------------------------------------------- the filter

    /** ctx->output_filter: the output is handed over, and shown to the filter as it is; the filter gets
        rid of as many bytes as it likes of all that it has, the oldest first. */
    method OutputFilter(out: seq<Id>, a: Answer) returns (rc: Code)
      requires Valid(out, false) && Routed(out) && Tallied()
      modifies `bufs, `handed, `sent, `given, `shown
      ensures Valid(out, true) && Routed([]) && Tallied() && rc == a.rc && Extends(old(Log()), Log())
      ensures given == old(given) + out
      ensures ChainOk(old(bufs), out) && shown == old(shown) + Values(old(bufs), out)
      ensures ChainOk(old(bufs), inn) && Work() == old(Work())
    {
      hide Holds, ChainData;
      hide Valid, Tallied, Values, Consumed, Routes, Fits;
      ghost var h, shown0, handed0 := bufs, shown, handed;
      OutOk(out);
      WasTallied();
      Show(out);
      rc := Consume(out, a);
      RoutedAfter(h, out, a.taken);
      ShownToo(shown0, h, out, handed0);
    }

    lemma WasTallied()
      requires Tallied()
      ensures (forall b :: b in shown ==> BufOk(b)) && handed == BufsData(shown)
    {
    }

    lemma OutOk(out: seq<Id>)
      requires Valid(out, false)
      ensures Holds(bufs, place, direct, Direct) && Holds(bufs, place, busy, Busy) && Holds(bufs, place, out, Out)
      ensures Holds(bufs, place, inn, In) && ChainOk(bufs, out) && forall i :: i in direct + busy + out ==> i in bufs
    {
    }

    /** What the filter does with the bytes. */
    method Consume(out: seq<Id>, a: Answer) returns (rc: Code)
      requires Valid(out, false)
      modifies `bufs, `handed, `sent
      ensures Valid(out, true) && rc == a.rc
      ensures (forall i :: i in direct + busy + out ==> i in old(bufs)) && bufs == Consumed(old(bufs), direct + busy + out, a.taken)
      ensures ChainOk(old(bufs), out) && handed == old(handed) + ChainData(old(bufs), out)
      ensures old(sent) <= sent && ChainOk(old(bufs), inn) && Work() == old(Work())
    {
      hide NoDup, Special, Holds, ChainData, Data, Blank, AllBlank, Consumed, Taken, Cut;
      InOk(out, false);
      ghost var h := bufs;
      var chain := direct + busy + out;
      Downstream(h, place, direct, busy, out);
      ghost var x := ChainData(h, chain);
      ghost var k;
      bufs, k := UpdateSent(bufs, chain, a.taken);
      AfterFilter(h, out, a.taken);
      handed := handed + ChainData(h, out);
      sent := sent + Taken(x, a.taken);
      Accounts(old(sent), ChainData(h, direct), ChainData(h, busy), ChainData(h, out), x, a.taken,
               ChainData(bufs, direct), ChainData(bufs, busy), ChainData(bufs, out));
      rc := a.rc;
    }

    /** The output is shown to the filter as it is. */
    ghost method Show(out: seq<Id>)
      requires Routed(out)
      modifies `given, `shown
      ensures Routed([]) && given == old(given) + out && shown == old(shown) + Values(bufs, out)
    {
      hide Routes;
      RoutesGiven(Needs(), bufs, inn, out, came, given);
      ShownFits(out);
      given, shown := given + out, shown + Values(bufs, out);
    }

    lemma {:induction false} ShownFits(out: seq<Id>)
      requires Routes(Needs(), bufs, inn, out, came, given)
      ensures (forall i :: i in out ==> i in bufs) && forall b :: b in Values(bufs, out) ==> Fits(Needs(), b)
    {
    }

    lemma {:induction false} ShownToo(shown0: seq<Buf>, h: Heap, out: seq<Id>, handed0: Bytes)
      requires ChainOk(h, out) && shown == shown0 + Values(h, out) && handed == handed0 + ChainData(h, out)
      requires (forall b :: b in shown0 ==> BufOk(b)) && handed0 == BufsData(shown0)
      ensures Tallied()
    {
      hide BufOk, Data, ChainData, BufsData, Values;
      ValuesData(h, out);
      BufsDataJoin(shown0, Values(h, out));
    }

    /** The buffers that the filter has do not wait. */
    lemma {:induction false} RoutedAfter(h: Heap, out: seq<Id>, n: nat)
      requires Holds(h, place, direct, Direct) && Holds(h, place, busy, Busy) && Holds(h, place, out, Out)
      requires Holds(h, place, inn, In) && forall i :: i in direct + busy + out ==> i in h
      requires Routes(Needs(), h, inn, [], came, given) && bufs == Consumed(h, direct + busy + out, n)
      ensures Routes(Needs(), bufs, inn, [], came, given) && bufs.Keys == h.Keys
    {
      hide Consumed, Routes, Holds;
      FilterElsewhere(h, place, direct + busy + out, n, inn, In, direct, busy, out);
      ConsumedFrame(h, direct + busy + out, n);
      RoutesElsewhere(Needs(), h, bufs, inn, [], came, given);
    }

    /** The filter has changed nothing but what it had. */
    lemma {:induction false} AfterFilter(h: Heap, out: seq<Id>, n: nat)
      requires Holds(h, place, direct, Direct) && Holds(h, place, busy, Busy) && Holds(h, place, out, Out)
      requires Holds(h, place, inn, In) && Holds(h, place, free, Free) && Holds(h, place, Current(), Place.Current)
      requires AllBlank(h, free) && AllBlank(h, Current()) && forall i :: i in inn ==> !h[i].own
      requires ChainOk(h, direct + busy + out) && NoDup(direct + busy + out)
      requires bufs == Consumed(h, direct + busy + out, n)
      ensures bufs.Keys == h.Keys
      ensures Holds(bufs, place, direct, Direct) && Holds(bufs, place, busy, Busy) && Holds(bufs, place, out, Out)
      ensures Holds(bufs, place, inn, In) && Holds(bufs, place, free, Free) && Holds(bufs, place, Current(), Place.Current)
      ensures AllBlank(bufs, free) && AllBlank(bufs, Current()) && forall i :: i in inn ==> i in bufs && !bufs[i].own
      ensures ChainData(bufs, inn) == ChainData(h, inn)
      ensures ChainOk(bufs, direct) && ChainOk(bufs, busy) && ChainOk(bufs, out)
      ensures ChainData(bufs, direct) + ChainData(bufs, busy) + ChainData(bufs, out)
              == Cut(ChainData(h, direct + busy + out), n)
    {
      hide ChainData, Data, Blank, Consumed, NoDup, Holds;
      var chain := direct + busy + out;
      ConsumedData(h, chain, n);
      FilterElsewhere(h, place, chain, n, inn, In, direct, busy, out);
      FilterElsewhere(h, place, chain, n, free, Free, direct, busy, out);
      FilterElsewhere(h, place, chain, n, Current(), Place.Current, direct, busy, out);
      HoldsAgain(h, bufs, place, direct, Direct, chain);
      HoldsAgain(h, bufs, place, busy, Busy, chain);
      HoldsAgain(h, bufs, place, out, Out, chain);
      DataAppend(bufs, direct, busy);
      DataAppend(bufs, direct + busy, out);
    }

    // -------------------------------------------------------------- recycling

    /** The first busy buffer has been sent: it is recycled if it is the chain's own. */
    method Retire()
      requires Valid([], false) && Routed([]) && busy != [] && Size(bufs[busy[0]]) == 0
      modifies `bufs, `busy, `free, `place
      ensures Valid([], false) && Routed([]) && busy == old(busy[1..])
      ensures ChainOk(old(bufs), inn) && Work() == old(Work())
      ensures var i := old(busy[0]);
              i in old(bufs) && bufs.Keys == old(bufs).Keys
              && (forall j :: j in bufs && j != i ==> bufs[j] == old(bufs)[j])
              && i in bufs && bufs[i].own == old(bufs)[i].own
              && free == if old(bufs)[i].own then [i] + old(free) else old(free)
    {
      hide Holds, ChainData, Data, Blank, AllBlank, Routes, Fits;
      InOk([], false);
      var i := busy[0];
      HoldsIn(bufs, place, busy, Busy, i);
      EmptyData(bufs[i]);
      if !bufs[i].own {
        HoldsPop(bufs, place, busy, Busy, Busy);
        assert place[i := Busy] == place;
        assert ChainData(bufs, busy[1..]) == ChainData(bufs, busy);
        busy := busy[1..];
        return;
      }
      ghost var h := bufs;
      HoldsPop(bufs, place, busy, Busy, Free);
      ResetBuf(bufs[i]);
      NotIn(bufs, place, inn, In, i);
      bufs := bufs[i := bufs[i].(pos := 0, last := 0)];
      RoutedRecycled(h, i);
      Recycled(h, i);
      EmptyChain(h);
      EmptyChain(bufs);
      busy := busy[1..];
      free := [i] + free;
      place := place[i := Free];
    }

    lemma RoutedRecycled(h: Heap, i: Id)
      requires Routes(Needs(), h, inn, [], came, given) && i in h && i !in inn && bufs == h[i := h[i].(pos := 0, last := 0)]
      requires forall j :: j in inn ==> j in h
      ensures Routes(Needs(), bufs, inn, [], came, given)
    {
      RoutesElsewhere(Needs(), h, bufs, inn, [], came, given);
    }

    /** A buffer that was sent comes to the front of the free chain. */
    lemma {:induction false} Recycled(h: Heap, i: Id)
      requires busy != [] && i == busy[0] && i in h && BufOk(h[i]) && Data(h[i]) == []
      requires i in bufs && bufs == h[i := bufs[i]] && BufOk(bufs[i]) && Blank(bufs[i]) && Data(bufs[i]) == []
      requires Holds(h, place, direct, Direct) && Holds(h, place, busy, Busy) && Holds(h, place, [], Out)
      requires Holds(h, place, inn, In) && Holds(h, place, free, Free) && Holds(h, place, Current(), Place.Current)
      requires AllBlank(h, free) && AllBlank(h, Current()) && forall j :: j in inn ==> !h[j].own
      ensures var pl := place[i := Free];
              Holds(bufs, pl, direct, Direct) && Holds(bufs, pl, busy[1..], Busy) && Holds(bufs, pl, [], Out)
              && Holds(bufs, pl, inn, In) && Holds(bufs, pl, [i] + free, Free) && Holds(bufs, pl, Current(), Place.Current)
      ensures AllBlank(bufs, [i] + free) && AllBlank(bufs, Current()) && forall j :: j in inn ==> j in bufs && !bufs[j].own
      ensures ChainData(bufs, direct) == ChainData(h, direct) && ChainData(bufs, busy[1..]) == ChainData(h, busy)
      ensures ChainData(bufs, inn) == ChainData(h, inn)
    {
      hide BufOk;
      hide ChainData, Data, Blank;
      assert busy == [i] + busy[1..];
      NoDupParts([i], busy[1..]);
      ChainCons(h, busy);
      RecycleElsewhere(h, bufs, place, direct, i);
      RecycleElsewhere(h, bufs, place, busy[1..], i);
      RecycleElsewhere(h, bufs, place, inn, i);
      RecycleElsewhere(h, bufs, place, free, i);
      RecycleElsewhere(h, bufs, place, Current(), i);
      NoDupJoin([i], free);
    }

    /** ngx_chain_update_chains: the output joins the busy chain; the empty buffers at its front leave
        it, and those of the chain's own come to the front of the free chain, the last one first. */
    method UpdateChains(out: seq<Id>) returns (ghost k: nat)
      requires Valid(out, true) && Routed([])
      modifies `bufs, `busy, `free, `place
      ensures Valid([], false) && Routed([]) && ChainOk(old(bufs), inn) && Work() == old(Work())
      ensures busy != [] ==> busy[0] in bufs && Size(bufs[busy[0]]) != 0
      ensures Left(old(bufs), bufs, old(busy) + out, k) && busy == (old(busy) + out)[k..]
      ensures free == OwnOf(old(bufs), (old(busy) + out)[..k]) + old(free)
    {
      hide ChainOk;
      hide Valid, Routed, Left, OwnOf;
      InOk(out, true);
      Join(out);
      InOk([], false);
      ghost var all, h, free0 := busy, bufs, free;
      k := 0;
      BusyDistinct();
      NothingLeft(h, all);
      assert all[0..] == all;
      while busy != []
        invariant Valid([], false) && Routed([]) && ChainOk(bufs, inn) && Work() == old(Work())
        invariant k <= |all| && busy == all[k..] && Left(h, bufs, all, k)
        invariant free == OwnOf(h, all[..k]) + free0
        decreases |busy|
      {
        BusyOk();
        if Size(bufs[busy[0]]) != 0 {
          break;
        }
        RetireNext(h, all, k, free0);
        k := k + 1;
      }
    }

    method RetireNext(ghost h: Heap, ghost all: seq<Id>, ghost k: nat, ghost free0: seq<Id>)
      requires Valid([], false) && Routed([]) && busy != [] && Size(bufs[busy[0]]) == 0
      requires k <= |all| && busy == all[k..] && Left(h, bufs, all, k) && free == OwnOf(h, all[..k]) + free0
      modifies `bufs, `busy, `free, `place
      ensures Valid([], false) && Routed([]) && ChainOk(old(bufs), inn) && ChainOk(bufs, inn) && Work() == old(Work())
      ensures k < |all| && busy == all[k + 1..] && Left(h, bufs, all, k + 1)
      ensures free == OwnOf(h, all[..k + 1]) + free0 && |busy| < old(|busy|)
    {
      hide Valid, Routed, Left, OwnOf, ChainOk;
      ghost var b := bufs;
      BusyOk();
      Retire();
      InOk([], false);
      OneLeft(h, b, bufs, all, k, free0);
    }

    /** The first k buffers of a chain were empty and have left it; all others are what they were. */
    static ghost predicate Left(h: Heap, h': Heap, all: seq<Id>, k: nat) {
      && k <= |all| && NoDup(all) && h'.Keys == h.Keys && (forall j :: 0 <= j < |all| ==> all[j] in h)
      && (forall j :: 0 <= j < k ==> Size(h[all[j]]) == 0)
      && (forall i :: i in h && i !in all[..k] ==> h'[i] == h[i])
      && (forall i :: i in h ==> h'[i].own == h[i].own)
    }

    /** Those of the chain's own, the last one first. */
    static ghost function OwnOf(h: Heap, c: seq<Id>): seq<Id>
      requires forall j :: 0 <= j < |c| ==> c[j] in h
    {
      if c == [] then [] else (if h[c[|c| - 1]].own then [c[|c| - 1]] else []) + OwnOf(h, c[..|c| - 1])
    }

    static lemma {:induction false} NothingLeft(h: Heap, all: seq<Id>)
      requires NoDup(all) && forall j :: 0 <= j < |all| ==> all[j] in h
      ensures Left(h, h, all, 0) && OwnOf(h, all[..0]) == []
    {
    }

    static lemma {:induction false} OneLeft(h: Heap, b: Heap, b': Heap, all: seq<Id>, k: nat, free0: seq<Id>)
      requires Left(h, b, all, k) && k < |all| && all[k] in b && Size(b[all[k]]) == 0
      requires b'.Keys == b.Keys && (forall j :: j in b && j != all[k] ==> b'[j] == b[j]) && b'[all[k]].own == b[all[k]].own
      ensures Left(h, b', all, k + 1)
      ensures OwnOf(h, all[..k + 1]) + free0
           == (if b[all[k]].own then [all[k]] else []) + (OwnOf(h, all[..k]) + free0)
      ensures all[k..] != [] && all[k..][0] == all[k] && all[k..][1..] == all[k + 1..]
    {
      hide OwnOf, Left;
      LeftNext(h, b, b', all, k);
      OwnNext(h, all, k);
      SameSum(if h[all[k]].own then [all[k]] else [], OwnOf(h, all[..k]), free0);
    }

    static lemma SameSum(x: seq<Id>, y: seq<Id>, z: seq<Id>)
      ensures x + y + z == x + (y + z)
    {
    }

    static lemma LeftNext(h: Heap, b: Heap, b': Heap, all: seq<Id>, k: nat)
      requires Left(h, b, all, k) && k < |all| && all[k] in b && Size(b[all[k]]) == 0
      requires b'.Keys == b.Keys && (forall j :: j in b && j != all[k] ==> b'[j] == b[j]) && b'[all[k]].own == b[all[k]].own
      ensures Left(h, b', all, k + 1) && b[all[k]].own == h[all[k]].own && forall j :: 0 <= j < |all| ==> all[j] in h
    {
      hide NoDup;
      NotBefore(all, k);
    }

    static lemma NotBefore(all: seq<Id>, k: nat)
      requires NoDup(all) && k < |all|
      ensures all[k] !in all[..k]
      ensures forall i :: i !in all[..k + 1] ==> i !in all[..k] && i != all[k]
    {
      assert all[..k + 1] == all[..k] + [all[k]];
    }

    static lemma {:induction false} OwnNext(h: Heap, all: seq<Id>, k: nat)
      requires k < |all| && forall j :: 0 <= j < |all| ==> all[j] in h
      ensures OwnOf(h, all[..k + 1]) == (if h[all[k]].own then [all[k]] else []) + OwnOf(h, all[..k])
    {
      assert all[..k + 1][..k] == all[..k];
    }

    lemma BusyDistinct()
      requires Valid([], false)
      ensures NoDup(busy) && forall j :: 0 <= j < |busy| ==> busy[j] in bufs
    {
    }

    /** Without output it makes no difference whether it has been handed over. */
    lemma Given()
      ensures Valid([], false) <==> Valid([], true)
    {
      EmptyChain(bufs);
    }

    /** With nothing left in ctx->in everything has been handed over. */
    lemma AllHanded(out: seq<Id>)
      requires Valid(out, true)
      ensures inn == [] ==> handed == supplied
    {
    }

    lemma BusyOk()
      requires Valid([], false) && busy != []
      ensures busy[0] in bufs && BufOk(bufs[busy[0]])
    {
    }

    /** The output comes behind what is busy already. */
    method Join(out: seq<Id>)
      requires Valid(out, true)
      modifies `busy, `place
      ensures Valid([], false) && ChainOk(bufs, inn) && busy == old(busy) + out
    {
      hide Holds, ChainData, Data, Blank, AllBlank;
      InOk(out, true);
      JoinBusy(bufs, place, busy, out);
      JoinOther(bufs, place, direct, Direct, out);
      JoinOther(bufs, place, inn, In, out);
      JoinOther(bufs, place, free, Free, out);
      JoinOther(bufs, place, Current(), Place.Current, out);
      NoneHeld(bufs, Joined(place, out), Out);
      EmptyChain(bufs);
      Append3(sent, ChainData(bufs, direct), ChainData(bufs, busy), ChainData(bufs, out));
      busy := busy + out;
      place := Joined(place, out);
    }

    // -------------------------------------------------------------- ngx_output_chain

    /** One more buffer at the end of ctx->in. */
    method AddOne(b: Buf)
      requires Valid([], false) && Routed([]) && BufOk(b) && !b.own
      modifies `bufs, `next, `inn, `place, `supplied, `came
      ensures Valid([], false) && Routed([]) && |inn| == old(|inn|) + 1 && supplied == old(supplied) + Data(b)
      ensures came == old(came)[old(next) := b] && next == old(next) + 1
    {
      hide Holds, ChainData, Data, Blank, AllBlank, Routes, Fits;
      var i := next;
      ghost var h := bufs;
      InOk([], false);
      ghost var d := ChainData(bufs, inn);
      AddBuf(i, b);
      RoutesCame(Needs(), bufs, inn, came, given, i, b);
      came := came[i := b];
      bufs := bufs[i := b];
      next := next + 1;
      inn := inn + [i];
      place := place[i := In];
      Append3(handed, [], d, Data(b));
      EmptyChain(h);
      EmptyChain(bufs);
      supplied := supplied + Data(b);
    }

    lemma {:induction false} AddBuf(i: Id, b: Buf)
      requires Valid([], false) && BufOk(b) && !b.own && i == next
      ensures var h, pl := bufs[i := b], place[i := In];
              Holds(h, pl, direct, Direct) && Holds(h, pl, busy, Busy) && Holds(h, pl, [], Out)
              && Holds(h, pl, inn + [i], In) && Holds(h, pl, free, Free) && Holds(h, pl, Current(), Place.Current)
      ensures AllBlank(bufs[i := b], free) && AllBlank(bufs[i := b], Current())
      ensures forall j :: j in inn + [i] ==> !bufs[i := b][j].own
      ensures var h := bufs[i := b];
              ChainData(h, direct) == ChainData(bufs, direct) && ChainData(h, busy) == ChainData(bufs, busy)
              && ChainData(h, inn + [i]) == ChainData(bufs, inn) + Data(b)
    {
      hide ChainData, Data, Blank, Holds, AllBlank;
      var h := bufs[i := b];
      NewElsewhere(bufs, place, direct, Direct, i, b, In);
      NewElsewhere(bufs, place, busy, Busy, i, b, In);
      NewElsewhere(bufs, place, inn, In, i, b, In);
      NewElsewhere(bufs, place, free, Free, i, b, In);
      NewElsewhere(bufs, place, Current(), Place.Current, i, b, In);
      NoneHeld(h, place[i := In], Out);
      forall j | j in inn ensures j in bufs && j != i {
        HoldsIn(bufs, place, inn, In, j);
      }
      HoldsPush(h, place[i := In], inn, In, i);
      assert place[i := In][i := In] == place[i := In];
    }

    static lemma NothingCame(came: Heap, i: Id)
      ensures CameToo(came, came, i, []) && BufsData([]) == []
    {
    }

    static lemma OneCame(before: Heap, mid: Heap, i: Id, input: seq<Buf>, k: nat)
      requires k < |input| && CameToo(before, mid, i, input[..k])
      ensures CameToo(before, mid[i + k := input[k]], i, input[..k + 1])
    {
    }

    static lemma InputNext(input: seq<Buf>, k: nat)
      requires k < |input| && forall b :: b in input ==> BufOk(b)
      ensures BufsData(input[..k + 1]) == BufsData(input[..k]) + Data(input[k])
    {
      hide Data, BufOk;
      assert input[..k + 1] == input[..k] + [input[k]] && [input[k]][1..] == [];
      BufsDataJoin(input[..k], [input[k]]);
    }

    /** The input has come, at the addresses from i on. */
    static ghost predicate CameToo(before: Heap, after: Heap, i: Id, input: seq<Buf>) {
      && (forall j :: i <= j < i + |input| ==> j in after && after[j] == input[j - i])
      && (forall j :: j in before && j < i ==> j in after && after[j] == before[j])
    }

    /** ngx_output_chain_add_copy: the incoming chain joins ctx->in. */
    method AddCopy(input: seq<Buf>)
      requires Valid([], false) && Routed([]) && forall b :: b in input ==> BufOk(b) && !b.own
      modifies `bufs, `next, `inn, `place, `supplied, `came
      ensures Valid([], false) && Routed([]) && |inn| == old(|inn|) + |input| && supplied == old(supplied) + BufsData(input)
      ensures CameToo(old(came), came, old(next), input)
    {
      hide Valid, Routed, CameToo, BufsData, Data;
      var k := 0;
      NothingCame(came, next);
      assert input[..0] == [];
      while k < |input|
        invariant 0 <= k <= |input| && Valid([], false) && |inn| == old(|inn|) + k
        invariant Routed([]) && next == old(next) + k
        invariant CameToo(old(came), came, old(next), input[..k])
        invariant supplied == old(supplied) + BufsData(input[..k])
      {
        assert input[k] in input;
        ghost var mid := came;
        AddOne(input[k]);
        InputNext(input, k);
        OneCame(old(came), mid, old(next), input, k);
        Append3(old(supplied), [], BufsData(input[..k]), Data(input[k]));
        k := k + 1;
      }
      assert input[..|input|] == input;
    }

    /** A single buffer that needs no copy, while nothing else is under way, goes straight to the
        filter. */
    method ShortPath(answer: Answer) returns (done: bool, rc: Code)
      requires Valid([], false) && Routed([]) && Tallied() && |inn| == 1 && busy == []
      modifies this
      ensures Valid([], false) && Routed([]) && Tallied() && Extends(old(Log()), Log())
      ensures done ==> inn == [] && rc == answer.rc
      ensures !done ==> |inn| == 1 && busy == [] && handed == old(handed)
    {
      hide Valid, Routed, Tallied, Takes, Fits;
      rc := Ok;
      done := Test([]);
      if done {
        var out := PassOn([]);
        rc := OutputFilter(out, answer);
        GoDirect(out);
      }
    }

    /** What went straight to the filter is the filter's concern. */
    method GoDirect(out: seq<Id>)
      requires Valid(out, true) && busy == []
      modifies `direct, `place
      ensures Valid([], false)
    {
      hide Holds, ChainData, Data, Blank, AllBlank;
      DirectJoin(bufs, place, direct, out);
      DirectOther(bufs, place, busy, Busy, out);
      DirectOther(bufs, place, inn, In, out);
      DirectOther(bufs, place, free, Free, out);
      DirectOther(bufs, place, Current(), Place.Current, out);
      NoneHeld(bufs, WithDirect(place, out), Out);
      EmptyChain(bufs);
      assert sent + ChainData(bufs, direct) + [] + ChainData(bufs, out) == sent + (ChainData(bufs, direct) + ChainData(bufs, out)) + [];
      direct := direct + out;
      place := WithDirect(place, out);
    }

    /** ngx_output_chain, for any incoming buffers and anything the filter may do: no byte is lost,
        doubled or reordered.  Everything that ever came in is what the filter has been handed and
        what is still in ctx->in, and what the filter has been handed is what it got rid of and
        what it still holds, in the buffers `lost` too if it ended with an error.  "ok" means that
        everything has been handed over.  The filter is shown only what it can take, and of all
        buffers that ever came those that it can take are handed over themselves. */
    method Output(input: seq<Buf>, script: seq<Answer>) returns (rc: Code, ghost lost: seq<Id>, ghost calls: nat)
      requires Valid([], false) && Routed([]) && Tallied() && forall b :: b in input ==> BufOk(b) && !b.own
      modifies this
      ensures Routed([]) && Tallied() && CameToo(old(came), came, old(next), input)
      ensures old(given) <= given && old(shown) <= shown && Ends(script, calls, rc, inn != [])
      ensures Valid(lost, true) && (rc != Error && rc != Done ==> lost == [])
      ensures supplied == old(supplied) + BufsData(input) && old(handed) <= handed && old(sent) <= sent
      ensures rc == Ok ==> inn == [] && handed == supplied
      ensures rc == Again && inn != [] ==> made == num && free == []
    {
      hide Valid, Routed, Tallied;
      lost, calls := [], 1;
      var short := inn == [] && busy == [];
      AddCopy(input);
      if short && input == [] {
        rc := OutputFilter([], Nth(script, 0));
        AllHanded([]);
        return;
      }
      if short && |input| == 1 {
        var done;
        done, rc := ShortPath(Nth(script, 0));
        Given();
        if done {
          AllHanded([]);
          return;
        }
      }
      rc, lost, calls := Drain(script);
    }

    /** The loop of ngx_output_chain. */
    method Drain(script: seq<Answer>) returns (rc: Code, ghost lost: seq<Id>, ghost n: nat)
      requires Valid([], false) && Routed([]) && Tallied()
      modifies this
      ensures Valid(lost, true) && Routed([]) && Tallied() && Extends(old(Log()), Log())
      ensures Ends(script, n, rc, inn != []) && (rc != Error && rc != Done ==> lost == [])
      ensures rc == Ok ==> inn == [] && handed == supplied
      ensures rc == Again && inn != [] ==> made == num && free == []
    {
      hide ChainData, ChainOk, BufOk, Blank;
      hide Valid, Routed, Tallied, Extends;
      var last: Option<Code> := None;
      var calls := 0;
      InOk([], false);
      ExtendsSelf(Log());
      while true
        invariant (forall k: nat :: k < calls ==> GoesOn(script, k)) && (last.Some? ==> calls > 0 && last.v == Nth(script, calls - 1).rc)
        invariant last.None? ==> calls == 0
        invariant Valid([], false) && ChainOk(bufs, inn) && Routed([]) && Tallied() && Extends(old(Log()), Log())
        decreases Work(), if last.None? then 1 else 0
      {
        var out := Fill();
        if out == [] && last.Some? {
          Given();
          lost := [];
          AllHanded(lost);
          rc, n := if inn != [] then Again else last.v, calls;
          return;
        }
        ghost var log := Log();
        rc := HandOn(out, Nth(script, calls));
        ExtendsOn(old(Log()), log, Log());
        calls := calls + 1;
        last := Some(rc);
        if rc == Error || rc == Done {
          lost, n := out, calls;
          return;
        }
      }
    }

    /** One call of the filter, and unless it ends the loop the update of the chains. */
    method HandOn(out: seq<Id>, a: Answer) returns (rc: Code)
      requires Valid(out, false) && Routed(out) && Tallied()
      modifies this
      ensures rc == a.rc && Routed([]) && Tallied() && Extends(old(Log()), Log())
      ensures ChainOk(old(bufs), inn) && ChainOk(bufs, inn) && Work() == old(Work())
      ensures if rc == Error || rc == Done then Valid(out, true) else Valid([], false)
    {
      hide Valid, Routed, Tallied, Extends, ChainOk, Left, OwnOf, Values;
      rc := OutputFilter(out, a);
      InOk(out, true);
      if rc != Error && rc != Done {
        ghost var left := UpdateChains(out);
        InOk([], false);
      }
    }
  }
}
