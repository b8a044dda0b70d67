/** ngx_array.c: an array in a pool that grows in place, by moving the end of the pool's first block,
    or moves to a larger piece; its elements, and everybody else's bytes, keep their values. */
module PoolArray {
  import opened PoolSpace
  import opened Pool

  type byte = x: int | 0 <= x < 256

  /** Every piece is where it was, no shorter, with its bytes. */
  ghost predicate Kept(live: seq<Piece>, m: seq<byte>, live': seq<Piece>, m': seq<byte>) {
    && |live| <= |live'| && |m| == |m'|
    && forall i {:trigger live[i]} :: 0 <= i < |live| ==>
         && live'[i].start == live[i].start && live[i].len <= live'[i].len
         && SameBytes(m, m', live[i].start, live[i].len)
  }

  /** No piece but `id` has changed at all. */
  ghost predicate OthersSame(live: seq<Piece>, live': seq<Piece>, id: nat) {
    |live| <= |live'| && forall i :: 0 <= i < |live| && i != id ==> live'[i] == live[i]
  }

  predicate SameBytes(m: seq<byte>, m': seq<byte>, at: nat, n: nat) {
    forall a :: at <= a < at + n && a < |m| && a < |m'| ==> m[a] == m'[a]
  }

  /** Any interleaving of operations that keep pieces keeps them. */
  lemma KeptThrough(live: seq<Piece>, m: seq<byte>, live': seq<Piece>, m': seq<byte>, live'': seq<Piece>, m'': seq<byte>)
    requires Kept(live, m, live', m') && Kept(live', m', live'', m'')
    ensures Kept(live, m, live'', m'')
  {
    forall i | 0 <= i < |live|
      ensures live''[i].start == live[i].start && live[i].len <= live''[i].len
      ensures SameBytes(m, m'', live[i].start, live[i].len)
    {
      assert SameBytes(m, m', live[i].start, live[i].len);
      assert SameBytes(m', m'', live'[i].start, live'[i].len);
    }
  }

  /** Writing inside one piece keeps all the others. */
  lemma WriteKeepsOthers(blocks: seq<Block>, live: seq<Piece>, limit: nat, id: nat, m: seq<byte>, m': seq<byte>)
    requires PiecesSound(blocks, live, limit) && id < |live| && |m| == |m'|
    requires forall a :: 0 <= a < |m| && !(live[id].start <= a < live[id].start + live[id].len) ==> m[a] == m'[a]
    ensures forall k :: 0 <= k < |live| && k != id ==> SameBytes(m, m', live[k].start, live[k].len)
  {
    forall k | 0 <= k < |live| && k != id ensures SameBytes(m, m', live[k].start, live[k].len) {
      Both(live, k, id);
    }
  }

  lemma PieceInside(blocks: seq<Block>, current: nat, max: nat, large: seq<Large>, owner: seq<nat>,
                    live: seq<Piece>, limit: nat, id: nat)
    requires Sound(blocks, current, max, large, owner, live, limit) && id < |live|
    ensures live[id].start + live[id].len <= limit
  {
    assert AtHome(blocks, live[id], limit);
    if live[id].home.InBlock? {
      var i := live[id].home.i;
      assert SoundBlock(blocks[i], HeadOf(i), limit);
    }
  }

  /** `n` bytes of elements, at their old and their new place. */
  predicate SameElements(m: seq<byte>, at: nat, m': seq<byte>, at': nat, n: nat) {
    at + n <= |m| && at' + n <= |m'| && m[at..at + n] == m'[at'..at' + n]
  }

  /** The bytes of `n` elements. */
  function Room(size: nat, n: nat): nat {
    size * n
  }

  lemma RoomAdds(size: nat, n: nat, k: nat)
    ensures Room(size, n + k) == Room(size, n) + Room(size, k) && Room(size, 1) == size
  {
  }

  /** The slots of `n` elements lie in the room for `most`. */
  lemma SlotsInside(size: nat, n: nat, most: nat)
    requires n <= most
    ensures Room(size, n) <= Room(size, most)
  {
    RoomAdds(size, n, most - n);
  }

  lemma NothingMoved(live: seq<Piece>, m: seq<byte>)
    ensures Kept(live, m, live, m)
  {
  }

  /** The newest piece lies apart from all others. */
  lemma NewApart(blocks: seq<Block>, current: nat, max: nat, large: seq<Large>, owner: seq<nat>,
                 live: seq<Piece>, limit: nat)
    requires Sound(blocks, current, max, large, owner, live, limit) && |live| > 0
    ensures var p := live[|live| - 1];
            forall k {:trigger live[k]} :: 0 <= k < |live| - 1 ==> Apart(p.start, p.len, live[k].start, live[k].len)
  {
    var last := |live| - 1;
    assert forall k {:trigger live[k]} :: 0 <= k < last ==> Apart(live[k].start, live[k].len, live[last].start, live[last].len);
  }

  /** Bytes copied into the newest piece are written over no other. */
  lemma CopyKeeps(live: seq<Piece>, live': seq<Piece>, m: seq<byte>, m': seq<byte>)
    requires |live| < |live'| && live <= live' && |m| == |m'|
    requires var p := live'[|live'| - 1];
             && (forall k {:trigger live'[k]} :: 0 <= k < |live'| - 1 ==>
                   Apart(p.start, p.len, live'[k].start, live'[k].len))
             && forall a :: 0 <= a < |m| && !(p.start <= a < p.start + p.len) ==> m'[a] == m[a]
    ensures Kept(live, m, live', m')
  {
    forall i | 0 <= i < |live| ensures live'[i] == live[i] && SameBytes(m, m', live[i].start, live[i].len) {
      assert Apart(live'[i].start, live'[i].len, live'[i].start, 0);
    }
  }

  class GrowArray {
    var elts: nat
    var nelts: nat
    var size: nat
    var nalloc: nat
    const pool: Pool
    const ram: array<byte>
    ghost var id: nat       // the piece that holds the elements

    /** The array holds a piece of the pool, large enough for `nalloc` elements. */
    ghost predicate Holds()
      reads this, pool
    {
      && pool.Valid() && pool.limit <= ram.Length
      && id < |pool.live| && pool.live[id].start == elts && pool.live[id].len == Room(size, nalloc)
      && elts + Room(size, nalloc) <= pool.limit
    }

    ghost predicate Valid()
      reads this, pool
    {
      Holds() && size > 0 && nelts <= nalloc
    }

    constructor (pool: Pool, ram: array<byte>)
      ensures this.pool == pool && this.ram == ram
    {
      this.pool := pool;
      this.ram := ram;
    }

    /** ngx_array_init. */
    method Init(n: nat, size: nat, big: Option<nat>, answer: Option<nat>) returns (ok: bool)
      requires size > 0 && pool.Valid() && pool.limit <= ram.Length
      requires Answers(pool.blocks, pool.live, pool.limit, Room(size, n), big, answer)
      modifies this, pool
      ensures pool.Valid()
      ensures ok ==> Valid() && nelts == 0 && nalloc == n && this.size == size && elts % Word == 0
      ensures ok ==> Obtained(old(pool.live), pool.live, elts, Room(size, n)) && id == |pool.live| - 1
      ensures !ok ==> pool.live == old(pool.live)
      ensures old(pool.current) <= |old(pool.blocks)| && pool.max == old(pool.max)
      ensures Room(size, n) <= pool.max ==>
                && Given(old(pool.blocks), old(pool.current), old(pool.live), Room(size, n), true, answer, pool.blocks, pool.live,
                         if ok then Some(elts) else None)
                && (FirstRoom(old(pool.blocks), old(pool.current), Room(size, n), true) < |old(pool.blocks)| ==>
                      pool.current == old(pool.current))
    {
      hide Room(), Sound(), Given(), Answers();
      nelts := 0;
      this.size := size;
      nalloc := n;
      var m := pool.Palloc(Room(size, n), true, big, answer);
      if m == None {
        return false;
      }
      elts := m.value;
      id := |pool.live| - 1;
      PieceInside(pool.blocks, pool.current, pool.max, pool.large, pool.owner, pool.live, pool.limit, id);
      ok := true;
    }

    /** memcpy. */
    method Copy(dst: nat, src: nat, n: nat)
      requires dst + n <= ram.Length && src + n <= ram.Length && Apart(dst, n, src, n)
      modifies ram
      ensures ram[dst..dst + n] == old(ram[src..src + n])
      ensures forall a :: 0 <= a < ram.Length && !(dst <= a < dst + n) ==> ram[a] == old(ram[a])
    {
      for i := 0 to n
        invariant ram[dst..dst + i] == old(ram[src..src + n])[..i]
        invariant forall a :: 0 <= a < ram.Length && !(dst <= a < dst + i) ==> ram[a] == old(ram[a])
      {
        assert ram[src + i] == old(ram[src..src + n])[i];
        ram[dst + i] := ram[src + i];
        assert ram[dst..dst + i + 1] == ram[dst..dst + i] + [ram[dst + i]];
      }
    }

    /** The elements end where the first block stands, and `more` bytes are left in it. */
    predicate EndsPool(more: nat)
      reads this, pool
      requires |pool.blocks| > 0
    {
      elts + Room(size, nalloc) == pool.blocks[0].last && pool.blocks[0].last + more <= pool.blocks[0].end
    }

    /** The pool has no aligned piece of so many bytes. */
    predicate CannotGet(bytes: nat, big: Option<nat>, answer: Option<nat>)
      reads pool
      requires pool.current <= |pool.blocks|
    {
      Refused(pool.blocks, pool.current, pool.max, pool.large, bytes, true, big, answer)
    }

    method GrowInPlace(k: nat)
      requires Holds() && |pool.blocks| > 0 && EndsPool(Room(size, k))
      modifies this`nalloc, pool`blocks, pool`live
      ensures Holds() && nalloc == old(nalloc) + k
      ensures Kept(old(pool.live), ram[..], pool.live, ram[..])
      ensures OthersSame(old(pool.live), pool.live, old(id))
    {
      hide Room(), Sound();
      var b := pool.blocks[0];
      ghost var before := pool.live;
      SoundGrown(pool.blocks, pool.current, pool.max, pool.large, pool.owner, pool.live, pool.limit, id, Room(size, k));
      RoomAdds(size, nalloc, k);
      pool.blocks := pool.blocks[0 := b.(last := b.last + Room(size, k))];
      pool.live := pool.live[id := Piece(elts, Room(size, nalloc + k), InBlock(0))];
      nalloc := nalloc + k;
      PieceInside(pool.blocks, pool.current, pool.max, pool.large, pool.owner, pool.live, pool.limit, id);
    }

    /** A new piece for `n` elements takes over the first `keep` bytes. */
    method Move(n: nat, keep: nat, big: Option<nat>, answer: Option<nat>) returns (ok: bool)
      requires Holds() && keep <= Room(size, nalloc) && keep <= Room(size, n)
      requires Answers(pool.blocks, pool.live, pool.limit, Room(size, n), big, answer)
      modifies this, pool, ram
      ensures Holds() && nelts == old(nelts) && size == old(size)
      ensures !ok ==> elts == old(elts) && nalloc == old(nalloc) && pool.live == old(pool.live)
      ensures !ok ==> ram[..] == old(ram[..])
      ensures old(pool.current) <= |old(pool.blocks)| && (!ok <==> old(CannotGet(Room(size, n), big, answer)))
      ensures ok ==> nalloc == n && elts % Word == 0
      ensures ok ==> SameElements(old(ram[..]), old(elts), ram[..], elts, keep)
      ensures Kept(old(pool.live), old(ram[..]), pool.live, ram[..])
      ensures OthersSame(old(pool.live), pool.live, old(id))
    {
      hide Room(), Sound(), Given(), Answers();
      ghost var before := pool.live;
      var m := pool.Palloc(Room(size, n), true, big, answer);
      if m == None {
        return false;
      }
      var next := |pool.live| - 1;
      PieceInside(pool.blocks, pool.current, pool.max, pool.large, pool.owner, pool.live, pool.limit, next);
      NewApart(pool.blocks, pool.current, pool.max, pool.large, pool.owner, pool.live, pool.limit);
      assert pool.live[id] == before[id];
      Copy(m.value, elts, keep);
      CopyKeeps(before, pool.live, old(ram[..]), ram[..]);
      assert ram[..][m.value..m.value + keep] == ram[m.value..m.value + keep];
      assert old(ram[..])[elts..elts + keep] == old(ram[elts..elts + keep]);
      elts := m.value;
      nalloc := n;
      id := next;
      ok := true;
    }

    /** ngx_array_push.  The slot lies in the array's piece exactly when the array had an element's
        room to begin with, or grew in place. */
    method Push(big: Option<nat>, answer: Option<nat>) returns (elt: Option<nat>)
      requires Valid() && |pool.blocks| > 0
      requires Answers(pool.blocks, pool.live, pool.limit, Room(size, 2 * nalloc), big, answer)
      modifies this, pool, ram
      ensures Holds() && size == old(size)
      ensures old(pool.current) <= |old(pool.blocks)|
              && (elt == None <==> old(nelts == nalloc && !EndsPool(Room(size, 1)) && CannotGet(Room(size, 2 * nalloc), big, answer)))
      ensures elt == None ==> Valid() && nelts == old(nelts) && elts == old(elts) && nalloc == old(nalloc)
      ensures elt == None ==> ram[..] == old(ram[..]) && pool.live == old(pool.live)
      ensures elt.Some? ==> nelts == old(nelts) + 1 && elt.value == elts + Room(size, old(nelts))
      ensures elt.Some? ==> SameElements(old(ram[..]), old(elts), ram[..], elts, Room(size, old(nelts)))
      ensures elt.Some? ==> (Valid() <==> old(nalloc) > 0 || old(EndsPool(Room(size, 1))))
      ensures elt.Some? && Valid() ==> elt.value + Room(size, 1) <= elts + Room(size, nalloc)
      ensures Kept(old(pool.live), old(ram[..]), pool.live, ram[..])
      ensures OthersSame(old(pool.live), pool.live, old(id))
    {
      hide Room(), Sound(), Answers(), Kept();
      CurrentInside(pool.blocks, pool.current, pool.max, pool.large, pool.owner, pool.live, pool.limit);
      NothingMoved(pool.live, ram[..]);
      SlotsInside(size, nelts, nalloc);
      if nelts == nalloc {
        if elts + Room(size, nalloc) == pool.blocks[0].last && pool.blocks[0].last + Room(size, 1) <= pool.blocks[0].end {
          GrowInPlace(1);
        } else {
          SlotsInside(size, nalloc, 2 * nalloc);
          var ok := Move(2 * nalloc, Room(size, nalloc), big, answer);
          if !ok {
            return None;
          }
        }
      }
      RoomAdds(size, nelts, 1);
      if nelts < nalloc {
        SlotsInside(size, nelts + 1, nalloc);
      }
      elt := Some(elts + Room(size, nelts));
      nelts := nelts + 1;
    }

    /** ngx_array_push_n. */
    method PushN(n: nat, big: Option<nat>, answer: Option<nat>) returns (elt: Option<nat>)
      requires Valid() && |pool.blocks| > 0
      requires Answers(pool.blocks, pool.live, pool.limit, Room(size, 2 * if n >= nalloc then n else nalloc), big, answer)
      modifies this, pool, ram
      ensures Valid() && size == old(size)
      ensures old(pool.current) <= |old(pool.blocks)|
              && (elt == None <==> old(nelts + n > nalloc && !EndsPool(Room(size, n))
                                       && CannotGet(Room(size, 2 * if n >= nalloc then n else nalloc), big, answer)))
      ensures elt == None ==> nelts == old(nelts) && elts == old(elts) && nalloc == old(nalloc)
      ensures elt == None ==> ram[..] == old(ram[..]) && pool.live == old(pool.live)
      ensures elt.Some? ==> nelts == old(nelts) + n && elt.value == elts + Room(size, old(nelts))
      ensures elt.Some? ==> SameElements(old(ram[..]), old(elts), ram[..], elts, Room(size, old(nelts)))
      ensures Kept(old(pool.live), old(ram[..]), pool.live, ram[..])
      ensures OthersSame(old(pool.live), pool.live, old(id))
    {
      hide Room(), Sound(), Answers(), Kept();
      CurrentInside(pool.blocks, pool.current, pool.max, pool.large, pool.owner, pool.live, pool.limit);
      NothingMoved(pool.live, ram[..]);
      SlotsInside(size, nelts, nalloc);
      if nelts + n > nalloc {
        if elts + Room(size, nalloc) == pool.blocks[0].last && pool.blocks[0].last + Room(size, n) <= pool.blocks[0].end {
          GrowInPlace(n);
        } else {
          var more := 2 * if n >= nalloc then n else nalloc;
          SlotsInside(size, nelts, more);
          var ok := Move(more, Room(size, nelts), big, answer);
          if !ok {
            return None;
          }
        }
      }
      SlotsInside(size, old(nelts), nalloc);
      elt := Some(elts + Room(size, nelts));
      nelts := nelts + n;
    }
  }

  /** A fresh pool of one block gives the next bytes of it. */
  lemma {:induction false} OneBlock(last: nat, size: nat)
    requires last % Word == 0 && last + size <= 1024
    ensures var b := Block(0, last, 1024, 0);
            Place(b, true) == last && HasRoom(b, size, true) && FirstRoom([b], 0, size, true) == 0
  {
  }

  lemma NothingAnswered(blocks: seq<Block>, live: seq<Piece>, limit: nat, size: nat)
    requires |blocks| > 0 && blocks[0].base <= blocks[0].end
    ensures Answers(blocks, live, limit, size, None, None)
  {
  }

  /** An array without room, and another allocation behind it: the slot that is pushed lies outside of
      the array's piece. */
  method PushIntoNothing(ram: array<byte>) returns (a: GrowArray, elt: Option<nat>)
    requires 4096 <= ram.Length < Wide - Word
    modifies ram
    ensures fresh(a) && elt.Some? && a.Holds() && a.nelts == 1 && a.nalloc == 0 && elt.value == a.elts
  {
    hide Sound(), Kept(), OthersSame(), Answers(), FirstRoom(), HasRoom(), Place(), SameElements();
    var pool := new Pool(0, 1024, ram.Length);
    a := new GrowArray(pool, ram);
    NothingAnswered(pool.blocks, pool.live, pool.limit, 0);
    OneBlock(80, 0);
    OneBlock(80, 8);
    OneBlock(88, 0);
    var ok := a.Init(0, 8, None, None);
    assert ok && pool.blocks == [Block(0, 80, 1024, 0)] && a.elts == 80;
    NothingAnswered(pool.blocks, pool.live, pool.limit, 8);
    var other := pool.Palloc(8, true, None, None);
    assert pool.blocks == [Block(0, 88, 1024, 0)];
    NothingAnswered(pool.blocks, pool.live, pool.limit, 0);
    elt := a.Push(None, None);
  }
}
