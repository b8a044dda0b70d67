/** The address space of a pool of ngx_palloc.c: blocks, what was handed out of them, and the large
    allocations beside them. */
module PoolSpace {
  const Word := 8                     // NGX_ALIGNMENT
  const PoolAlignment := 16
  const HeadSize := 80                // sizeof(ngx_pool_t)
  const DataSize := 32                // sizeof(ngx_pool_data_t)
  const LargeSize := 16               // sizeof(ngx_pool_large_t)
  const MaxFromPool := 4095           // NGX_MAX_ALLOC_FROM_POOL with pages of 4096 bytes
  const MinPoolSize := 112            // NGX_MIN_POOL_SIZE
  const Wide := 0x1_0000_0000_0000_0000

  datatype Option<T> = None | Some(value: T)

  datatype Block = Block(base: nat, last: nat, end: nat, failed: nat)

  datatype Home = InBlock(i: nat) | Outside

  /** An allocation that is still the client's; one that was freed has length 0. */
  datatype Piece = Piece(start: nat, len: nat, home: Home)

  predicate Apart(a: int, n: int, b: int, m: int) {
    n == 0 || m == 0 || a + n <= b || b + m <= a
  }

  function Align(a: nat): (r: nat)
    ensures a <= r < a + Word && r % Word == 0
  {
    (a + Word - 1) / Word * Word
  }

  /** The cast of a difference of pointers to size_t. */
  function Unsigned(d: int): nat {
    d % Wide
  }

  predicate HasRoom(b: Block, size: nat, aligned: bool) {
    Unsigned(b.end - Place(b, aligned)) >= size
  }

  function Place(b: Block, aligned: bool): nat {
    if aligned then Align(b.last) else b.last
  }

  /** The place is the first one behind what is used already, or the first aligned one. */
  lemma PlaceIsLeast(b: Block, aligned: bool)
    ensures b.last <= Place(b, aligned) && (aligned ==> Place(b, aligned) % Word == 0)
    ensures forall m: nat :: b.last <= m && (aligned ==> m % Word == 0) ==> Place(b, aligned) <= m
  {
  }

  function HeadOf(i: nat): nat {
    if i == 0 then HeadSize else DataSize
  }

  predicate SoundBlock(b: Block, head: nat, limit: nat) {
    && b.base % PoolAlignment == 0 && b.end % PoolAlignment == 0
    && b.base + head <= b.last <= b.end <= limit
  }

  /** Rounding up stays inside every block whose end is rounded, and only there: with another end
      the cast makes a negative rest look like room. */
  lemma RoundedEndIffInside(end: nat)
    requires end < Wide - Word
    ensures (forall last: nat :: last <= end ==> Align(last) <= end) <==> end % Word == 0
    ensures forall last: nat, size: nat :: last <= end < Align(last) && size < Wide - Word ==>
              HasRoom(Block(0, last, end, 0), size, true)
  {
    if end % Word != 0 {
      assert Align(end) > end;
    }
    forall last: nat, size: nat | last <= end < Align(last) && size < Wide - Word
      ensures HasRoom(Block(0, last, end, 0), size, true)
    {
      var d := end - Align(last);
      assert -8 < d < 0;
      assert d % Wide == d + Wide;
    }
  }

  lemma RoomIsReal(b: Block, head: nat, limit: nat, size: nat, aligned: bool)
    requires SoundBlock(b, head, limit) && limit < Wide
    ensures HasRoom(b, size, aligned) <==> Place(b, aligned) + size <= b.end
  {
    AlignInside(b.last, b.end);
    CastKeeps(b.end - Place(b, aligned));
  }

  lemma AlignInside(last: nat, end: nat)
    requires last <= end && end % PoolAlignment == 0
    ensures last <= Align(last) <= end
  {
    var a := Align(last);
    hide Align();
    var q, r := end / 16, a / 8;
    assert end == 16 * q && a == 8 * r;
    assert r <= 2 * q;
  }

  lemma CastKeeps(d: int)
    requires 0 <= d < Wide
    ensures Unsigned(d) == d
  {
  }

  // ---------------------------------------------------------------- the invariant

  ghost predicate BlocksSound(blocks: seq<Block>, limit: nat) {
    && |blocks| > 0
    && (forall i {:trigger blocks[i]} :: 0 <= i < |blocks| ==> SoundBlock(blocks[i], HeadOf(i), limit))
    && (forall i, j {:trigger blocks[i], blocks[j]} :: 0 <= i < j < |blocks| ==>
          blocks[i].end <= blocks[j].base || blocks[j].end <= blocks[i].base)
  }

  predicate AtHome(blocks: seq<Block>, p: Piece, limit: nat) {
    match p.home
    case InBlock(i) =>
      i < |blocks| && blocks[i].base + HeadOf(i) <= p.start && p.start + p.len <= blocks[i].last
    case Outside =>
      p.start + p.len <= limit && AwayFromBlocks(blocks, p.start, p.len)
  }

  predicate AwayFromBlocks(blocks: seq<Block>, start: nat, len: nat) {
    forall i :: 0 <= i < |blocks| ==> Apart(start, len, blocks[i].base, blocks[i].end - blocks[i].base)
  }

  ghost predicate PiecesSound(blocks: seq<Block>, live: seq<Piece>, limit: nat) {
    && (forall k {:trigger live[k]} :: 0 <= k < |live| ==> AtHome(blocks, live[k], limit))
    && (forall k, l {:trigger live[k], live[l]} :: 0 <= k < l < |live| ==>
          Apart(live[k].start, live[k].len, live[l].start, live[l].len))
  }

  /** Blocks before `current` are exactly those that failed six times, and failures only fall. */
  ghost predicate Passed(blocks: seq<Block>, current: nat) {
    && current < |blocks|
    && (forall i :: 0 <= i < |blocks| ==> (i < current <==> blocks[i].failed > 5))
    && (forall i, j :: 0 <= i < j < |blocks| ==> blocks[i].failed >= blocks[j].failed)
    && blocks[|blocks| - 1].failed == 0
  }

  /** What the system's allocator answers: room away from everything that is in use. */
  ghost predicate Grants(answer: Option<nat>, size: nat, blocks: seq<Block>, live: seq<Piece>, limit: nat) {
    answer.Some? ==>
      && answer.value % PoolAlignment == 0
      && answer.value + size <= limit
      && AwayFromBlocks(blocks, answer.value, size)
      && forall k :: 0 <= k < |live| ==> Apart(answer.value, size, live[k].start, live[k].len)
  }

  // ---------------------------------------------------------------- handing out

  /** The first block from `i` on with room, or the number of blocks. */
  function FirstRoom(blocks: seq<Block>, i: nat, size: nat, aligned: bool): (r: nat)
    requires i <= |blocks|
    ensures i <= r <= |blocks|
    decreases |blocks| - i
  {
    if i == |blocks| || HasRoom(blocks[i], size, aligned) then i
    else FirstRoom(blocks, i + 1, size, aligned)
  }

  /** Pieces stay at home when a block hands out more. */
  lemma StillAtHome(blocks: seq<Block>, i: nat, last: nat, p: Piece, limit: nat)
    requires i < |blocks| && blocks[i].last <= last && AtHome(blocks, p, limit)
    ensures AtHome(blocks[i := blocks[i].(last := last)], p, limit)
  {
  }

  /** What lies past the end of what a block handed out is nobody's. */
  lemma RestIsFree(blocks: seq<Block>, i: nat, start: nat, len: nat, p: Piece, limit: nat)
    requires BlocksSound(blocks, limit) && i < |blocks| && AtHome(blocks, p, limit)
    requires blocks[i].last <= start && start + len <= blocks[i].end
    ensures Apart(start, len, p.start, p.len)
  {
    if p.home == Outside {
      assert Apart(p.start, p.len, blocks[i].base, blocks[i].end - blocks[i].base);
    } else {
      BlocksDisjoint(blocks, i, p.home.i, limit);
    }
  }

  lemma BlockHandsOut(blocks: seq<Block>, i: nat, last: nat, limit: nat)
    requires BlocksSound(blocks, limit) && i < |blocks| && blocks[i].last <= last <= blocks[i].end
    ensures BlocksSound(blocks[i := blocks[i].(last := last)], limit)
  {
    var next := blocks[i := blocks[i].(last := last)];
    assert forall j :: 0 <= j < |next| ==> next[j].base == blocks[j].base && next[j].end == blocks[j].end;
  }

  lemma PieceAdded(blocks: seq<Block>, live: seq<Piece>, p: Piece, limit: nat)
    requires PiecesSound(blocks, live, limit) && AtHome(blocks, p, limit)
    requires forall k :: 0 <= k < |live| ==> Apart(p.start, p.len, live[k].start, live[k].len)
    ensures PiecesSound(blocks, live + [p], limit)
  {
    hide AtHome();
    var all := live + [p];
    forall k | 0 <= k < |all| ensures AtHome(blocks, all[k], limit) {
      assert k < |live| ==> all[k] == live[k];
    }
  }

  /** Handing out `len` bytes at `start` of block `i`. */
  lemma HandedOut(blocks: seq<Block>, live: seq<Piece>, i: nat, start: nat, len: nat, limit: nat)
    requires BlocksSound(blocks, limit) && PiecesSound(blocks, live, limit) && i < |blocks|
    requires blocks[i].last <= start && start + len <= blocks[i].end
    ensures var next := blocks[i := blocks[i].(last := start + len)];
            && BlocksSound(next, limit)
            && PiecesSound(next, live + [Piece(start, len, InBlock(i))], limit)
  {
    var last := start + len;
    var next := blocks[i := blocks[i].(last := last)];
    assert SoundBlock(blocks[i], HeadOf(i), limit);
    BlockHandsOut(blocks, i, last, limit);
    forall k | 0 <= k < |live|
      ensures AtHome(next, live[k], limit) && Apart(start, len, live[k].start, live[k].len)
    {
      StillAtHome(blocks, i, last, live[k], limit);
      RestIsFree(blocks, i, start, len, live[k], limit);
    }
    PieceAdded(next, live, Piece(start, len, InBlock(i)), limit);
  }

  lemma BlocksDisjoint(blocks: seq<Block>, i: nat, j: nat, limit: nat)
    requires BlocksSound(blocks, limit) && i < |blocks| && j < |blocks|
    ensures SoundBlock(blocks[i], HeadOf(i), limit) && SoundBlock(blocks[j], HeadOf(j), limit)
    ensures i != j ==> blocks[i].end <= blocks[j].base || blocks[j].end <= blocks[i].base
  {
    assert i < j ==> blocks[i].end <= blocks[j].base || blocks[j].end <= blocks[i].base;
    assert j < i ==> blocks[j].end <= blocks[i].base || blocks[i].end <= blocks[j].base;
  }

  /** A piece that ends where the first block stands lies in that block, or is empty. */
  lemma EndsInFirst(blocks: seq<Block>, p: Piece, limit: nat)
    requires BlocksSound(blocks, limit) && AtHome(blocks, p, limit)
    requires p.start + p.len == blocks[0].last
    ensures blocks[0].base + HeadSize <= p.start
    ensures p.len > 0 ==> p.home == InBlock(0)
  {
    assert SoundBlock(blocks[0], HeadOf(0), limit);
    if p.home == Outside {
      assert Apart(p.start, p.len, blocks[0].base, blocks[0].end - blocks[0].base);
    } else {
      var j := p.home.i;
      BlocksDisjoint(blocks, 0, j, limit);
    }
  }

  /** A piece that ends where the first block grows into the rest of the block. */
  lemma Grown(blocks: seq<Block>, live: seq<Piece>, id: nat, more: nat, limit: nat)
    requires BlocksSound(blocks, limit) && PiecesSound(blocks, live, limit) && id < |live|
    requires live[id].start + live[id].len == blocks[0].last && blocks[0].last + more <= blocks[0].end
    ensures var next := blocks[0 := blocks[0].(last := blocks[0].last + more)];
            && BlocksSound(next, limit)
            && PiecesSound(next, live[id := Piece(live[id].start, live[id].len + more, InBlock(0))], limit)
  {
    hide AtHome();
    var last := blocks[0].last + more;
    var next := blocks[0 := blocks[0].(last := last)];
    var p := Piece(live[id].start, live[id].len + more, InBlock(0));
    var pieces := live[id := p];
    BlockHandsOut(blocks, 0, last, limit);
    EndsInFirst(blocks, live[id], limit);
    GrownAtHome(blocks, p, more, limit);
    forall k | 0 <= k < |live|
      ensures AtHome(next, pieces[k], limit)
      ensures k != id ==> Apart(p.start, p.len, live[k].start, live[k].len)
    {
      StillAtHome(blocks, 0, last, live[k], limit);
      RestIsFree(blocks, 0, blocks[0].last, more, live[k], limit);
      if k != id {
        Both(live, k, id);
        TwoApart(live[id].start, live[id].len, more, live[k].start, live[k].len);
      }
    }
    forall k, l | 0 <= k < l < |live| ensures Apart(pieces[k].start, pieces[k].len, pieces[l].start, pieces[l].len) {
      if k != id && l != id {
        Both(live, k, l);
      }
    }
  }

  lemma GrownAtHome(blocks: seq<Block>, p: Piece, more: nat, limit: nat)
    requires |blocks| > 0 && blocks[0].base + HeadSize <= p.start && p.home == InBlock(0)
    requires p.start + p.len == blocks[0].last + more
    ensures AtHome(blocks[0 := blocks[0].(last := blocks[0].last + more)], p, limit)
  {
  }

  lemma Both(live: seq<Piece>, k: nat, l: nat)
    requires k < |live| && l < |live| && k != l
    requires forall k, l {:trigger live[k], live[l]} :: 0 <= k < l < |live| ==>
               Apart(live[k].start, live[k].len, live[l].start, live[l].len)
    ensures Apart(live[l].start, live[l].len, live[k].start, live[k].len)
  {
    assert k < l ==> Apart(live[k].start, live[k].len, live[l].start, live[l].len);
    assert l < k ==> Apart(live[l].start, live[l].len, live[k].start, live[k].len);
  }

  lemma TwoApart(a: nat, n: nat, more: nat, b: nat, m: nat)
    requires Apart(a, n, b, m) && Apart(a + n, more, b, m)
    ensures Apart(a, n + more, b, m)
  {
  }
}
