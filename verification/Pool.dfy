/** ngx_palloc.c: a pool hands memory out of its blocks, and large pieces out of the system's. */
module Pool {
  import opened PoolSpace

  /** ngx_pool_large_t: its place in the pool, and what it frees. */
  datatype Large = Large(header: nat, alloc: Option<nat>)

  /** Every large allocation in the list is the client's, each only once, and all of them are there. */
  ghost predicate Owned(large: seq<Large>, owner: seq<nat>, live: seq<Piece>) {
    && |owner| == |large|
    && (forall k {:trigger large[k]} :: 0 <= k < |large| && large[k].alloc.Some? ==>
          && owner[k] < |live|
          && live[owner[k]].home == Outside && live[owner[k]].len > 0
          && live[owner[k]].start == large[k].alloc.value)
    && (forall k, l {:trigger large[k], large[l]} :: 0 <= k < l < |large| ==>
          large[k].alloc.Some? && large[l].alloc.Some? ==> owner[k] != owner[l])
    && (forall id {:trigger live[id]} :: 0 <= id < |live| && live[id].home == Outside && live[id].len > 0 ==>
          exists k :: 0 <= k < |large| && large[k].alloc.Some? && owner[k] == id)
  }

  ghost predicate Sound(blocks: seq<Block>, current: nat, max: nat, large: seq<Large>, owner: seq<nat>,
                        live: seq<Piece>, limit: nat)
  {
    && limit < Wide - Word
    && BlocksSound(blocks, limit)
    && PiecesSound(blocks, live, limit)
    && Passed(blocks, current)
    && Owned(large, owner, live)
    && LargeSize <= max <= blocks[0].end - blocks[0].base - HeadSize
  }

  lemma OwnedMore(large: seq<Large>, owner: seq<nat>, live: seq<Piece>, p: Piece)
    requires Owned(large, owner, live) && p.home != Outside
    ensures Owned(large, owner, live + [p])
  {
    var all := live + [p];
    forall id | 0 <= id < |all| && all[id].home == Outside && all[id].len > 0
      ensures exists k :: 0 <= k < |large| && large[k].alloc.Some? && owner[k] == id
    {
      assert all[id] == live[id];
    }
  }

  lemma CurrentInside(blocks: seq<Block>, current: nat, max: nat, large: seq<Large>, owner: seq<nat>,
                      live: seq<Piece>, limit: nat)
    requires Sound(blocks, current, max, large, owner, live, limit)
    ensures current < |blocks|
  {
  }

  function BlockSize(blocks: seq<Block>): nat
    requires |blocks| > 0 && blocks[0].base <= blocks[0].end
  {
    blocks[0].end - blocks[0].base
  }

  /** The blocks from `from` up to `p` have one failure more; nothing else differs. */
  ghost predicate MissedTo(before: seq<Block>, from: nat, blocks: seq<Block>, p: nat) {
    && |blocks| == |before|
    && forall i :: 0 <= i < |blocks| ==>
         blocks[i] == if from <= i < p then before[i].(failed := before[i].failed + 1) else before[i]
  }

  /** Every block from `from` on, but the last, has one failure more. */
  ghost predicate Missed(before: seq<Block>, from: nat, blocks: seq<Block>) {
    |before| > 0 && MissedTo(before, from, blocks, |before| - 1)
  }

  lemma AlignedAlready(base: nat)
    requires base % PoolAlignment == 0
    ensures Align(base + DataSize) == base + DataSize
  {
    var a := Align(base + DataSize);
    hide Align();
    assert (base + 32) % 8 == 0;
  }

  lemma PassedOf(blocks: seq<Block>, current: nat, max: nat, large: seq<Large>, owner: seq<nat>,
                 live: seq<Piece>, limit: nat)
    requires Sound(blocks, current, max, large, owner, live, limit)
    ensures |blocks| > 0 && blocks[0].base <= blocks[0].end && BlocksSound(blocks, limit) && limit < Wide
    ensures Passed(blocks, current) && LargeSize <= max <= BlockSize(blocks) - HeadSize
  {
    assert SoundBlock(blocks[0], HeadOf(0), limit);
  }

  lemma PassedNext(before: seq<Block>, from: nat, blocks: seq<Block>, current: nat, b: Block)
    requires Passed(before, from) && Missed(before, from, blocks) && b.failed == 0
    requires from <= current < |blocks|
    requires forall i :: 0 <= i < |blocks| - 1 ==> (i < current <==> blocks[i].failed > 5)
    ensures Passed(blocks + [b], current)
  {
    var last := |before| - 1;
    var all := blocks + [b];
    forall i, j | 0 <= i < j < |all| ensures all[i].failed >= all[j].failed {
      if j < |blocks| {
        assert before[i].failed >= before[j].failed;
        assert i < from <==> before[i].failed > 5;
        assert j < from <==> before[j].failed > 5;
      }
    }
  }

  /** Counting failures moves no block. */
  lemma MissedInPlace(before: seq<Block>, from: nat, blocks: seq<Block>, live: seq<Piece>, limit: nat)
    requires BlocksSound(before, limit) && PiecesSound(before, live, limit) && Missed(before, from, blocks)
    ensures BlocksSound(blocks, limit) && PiecesSound(blocks, live, limit)
  {
    assert forall i {:trigger blocks[i]} :: 0 <= i < |blocks| ==>
      blocks[i].base == before[i].base && blocks[i].last == before[i].last && blocks[i].end == before[i].end;
    forall k | 0 <= k < |live| ensures AtHome(blocks, live[k], limit) {
      assert AtHome(before, live[k], limit);
    }
  }

  /** A block that the system answered joins the chain, its first bytes handed out. */
  lemma BlockJoins(blocks: seq<Block>, live: seq<Piece>, b: Block, size: nat, limit: nat)
    requires BlocksSound(blocks, limit) && PiecesSound(blocks, live, limit)
    requires SoundBlock(b, DataSize, limit) && b.last == b.base + DataSize + size
    requires AwayFromBlocks(blocks, b.base, b.end - b.base)
    requires forall k :: 0 <= k < |live| ==> Apart(b.base, b.end - b.base, live[k].start, live[k].len)
    ensures BlocksSound(blocks + [b], limit)
    ensures PiecesSound(blocks + [b], live + [Piece(b.base + DataSize, size, InBlock(|blocks|))], limit)
  {
    var all := blocks + [b];
    var p := Piece(b.base + DataSize, size, InBlock(|blocks|));
    JoinedSound(blocks, b, limit);
    forall k | 0 <= k < |live|
      ensures AtHome(all, live[k], limit) && Apart(p.start, p.len, live[k].start, live[k].len)
    {
      assert Apart(b.base, b.end - b.base, live[k].start, live[k].len);
      StaysHome(blocks, b, live[k], limit);
    }
    PieceAdded(all, live, p, limit);
  }

  lemma JoinedSound(blocks: seq<Block>, b: Block, limit: nat)
    requires BlocksSound(blocks, limit) && SoundBlock(b, DataSize, limit)
    requires AwayFromBlocks(blocks, b.base, b.end - b.base)
    ensures BlocksSound(blocks + [b], limit)
  {
    var all := blocks + [b];
    forall i, j | 0 <= i < j < |all| ensures all[i].end <= all[j].base || all[j].end <= all[i].base {
      if j == |blocks| {
        assert SoundBlock(blocks[i], HeadOf(i), limit);
        assert Apart(b.base, b.end - b.base, blocks[i].base, blocks[i].end - blocks[i].base);
      }
    }
  }

  lemma StaysHome(blocks: seq<Block>, b: Block, p: Piece, limit: nat)
    requires AtHome(blocks, p, limit) && Apart(b.base, b.end - b.base, p.start, p.len)
    ensures AtHome(blocks + [b], p, limit)
  {
    var all := blocks + [b];
    if p.home == Outside {
      forall i | 0 <= i < |all| ensures Apart(p.start, p.len, all[i].base, all[i].end - all[i].base) {
        assert i < |blocks| ==> Apart(p.start, p.len, blocks[i].base, blocks[i].end - blocks[i].base);
      }
    }
  }

  /** The block that the system answered, with its first bytes handed out. */
  lemma NewBlockFits(before: seq<Block>, live: seq<Piece>, limit: nat, from: nat, blocks: seq<Block>, base: nat, size: nat)
    requires BlocksSound(before, limit) && Missed(before, from, blocks)
    requires before[0].base <= before[0].end && size <= BlockSize(before) - HeadSize
    requires Grants(Some(base), BlockSize(before), before, live, limit)
    ensures var b := Block(base, base + DataSize + size, base + BlockSize(before), 0);
            && SoundBlock(b, DataSize, limit)
            && AwayFromBlocks(blocks, b.base, b.end - b.base)
            && |blocks| == |before| && blocks[0].base == before[0].base && blocks[0].end == before[0].end
  {
    assert SoundBlock(before[0], HeadOf(0), limit);
  }

  lemma FirstStays(blocks: seq<Block>, b: Block)
    requires |blocks| > 0
    ensures (blocks + [b])[0] == blocks[0]
  {
  }

  lemma SoundNewBlock(before: seq<Block>, from: nat, max: nat, large: seq<Large>, owner: seq<nat>,
                      live: seq<Piece>, limit: nat, blocks: seq<Block>, current: nat, answer: Option<nat>, size: nat)
    requires Sound(before, from, max, large, owner, live, limit)
    requires Missed(before, from, blocks) && from <= current < |blocks|
    requires forall i :: 0 <= i < |blocks| - 1 ==> (i < current <==> blocks[i].failed > 5)
    requires |before| > 0 && before[0].base <= before[0].end
    requires answer.Some? && Grants(answer, BlockSize(before), before, live, limit)
    requires size <= BlockSize(before) - HeadSize
    ensures var place := answer.value + DataSize;
            var b := Block(answer.value, place + size, answer.value + BlockSize(before), 0);
            Sound(blocks + [b], current, max, large, owner, live + [Piece(place, size, InBlock(|before|))], limit)
  {
    hide PiecesSound(), Owned(), Passed(), Missed(), SoundBlock(), AwayFromBlocks();
    var place := answer.value + DataSize;
    var b := Block(answer.value, place + size, answer.value + BlockSize(before), 0);
    MissedInPlace(before, from, blocks, live, limit);
    PassedNext(before, from, blocks, current, b);
    NewBlockFits(before, live, limit, from, blocks, answer.value, size);
    BlockJoins(blocks, live, b, size, limit);
    OwnedMore(large, owner, live, Piece(place, size, InBlock(|before|)));
    FirstStays(blocks, b);
  }

  // ---------------------------------------------------------------- what allocation answers

  /** The system's two answers, each away from what is in use and from the other. */
  ghost predicate Answers(blocks: seq<Block>, live: seq<Piece>, limit: nat, size: nat, big: Option<nat>,
                          answer: Option<nat>)
  {
    && |blocks| > 0 && blocks[0].base <= blocks[0].end
    && Grants(big, size, blocks, live, limit)
    && Grants(answer, BlockSize(blocks), blocks, live, limit)
    && (big.Some? && answer.Some? ==> Apart(big.value, size, answer.value, BlockSize(blocks)))
  }

  /** A small allocation is first fit from the current block on, else a new block. */
  ghost predicate Given(before: seq<Block>, current: nat, live: seq<Piece>, size: nat, aligned: bool,
                        answer: Option<nat>, blocks: seq<Block>, live': seq<Piece>, m: Option<nat>)
  {
    && current < |before|
    && before[0].base <= before[0].end
    && var j := FirstRoom(before, current, size, aligned);
       if j < |before| then
         && m == Some(Place(before[j], aligned))
         && blocks == before[j := before[j].(last := m.value + size)]
         && live' == live + [Piece(m.value, size, InBlock(j))]
       else if answer == None then m == None && blocks == before && live' == live
       else
         && m == Some(answer.value + DataSize)
         && |blocks| == |before| + 1
         && Missed(before, current, blocks[..|before|])
         && blocks[|before|] == Block(answer.value, m.value + size, answer.value + (before[0].end - before[0].base), 0)
         && live' == live + [Piece(m.value, size, InBlock(|before|))]
  }

  /** The first unused entry among the first five of the list, from entry l on. */
  function Unused(large: seq<Large>, l: nat): (r: Option<nat>)
    ensures r.Some? ==> l <= r.value < |large| && r.value < 5 && large[r.value].alloc == None
    ensures r.Some? ==> forall k :: l <= k < r.value ==> large[k].alloc.Some?
    ensures r.None? ==> forall k :: l <= k < |large| && k < 5 ==> large[k].alloc.Some?
    decreases |large| - l
  {
    if l >= |large| || l >= 5 then None
    else if large[l].alloc == None then Some(l)
    else Unused(large, l + 1)
  }

  /** A large piece cannot be had: the system has none, or no entry can be made for it. */
  predicate NoLargePiece(blocks: seq<Block>, current: nat, large: seq<Large>, big: Option<nat>, answer: Option<nat>)
    requires current <= |blocks|
  {
    big == None || (Unused(large, 0) == None && FirstRoom(blocks, current, LargeSize, true) == |blocks| && answer == None)
  }

  /** An allocation fails. */
  predicate Refused(blocks: seq<Block>, current: nat, max: nat, large: seq<Large>, size: nat, aligned: bool,
                    big: Option<nat>, answer: Option<nat>)
    requires current <= |blocks|
  {
    if size <= max then FirstRoom(blocks, current, size, aligned) == |blocks| && answer == None
    else NoLargePiece(blocks, current, large, big, answer)
  }

  /** What the list is afterwards: the unused entry notes the piece, else a new one in front. */
  ghost predicate Noted(large: seq<Large>, large': seq<Large>, big: Option<nat>) {
    match Unused(large, 0)
    case Some(l) => large' == large[l := large[l].(alloc := big)]
    case None => |large'| == |large| + 1 && large'[1..] == large && large'[0].alloc == big
  }

  /** The client's pieces are what they were, and the last one is new. */
  predicate Obtained(live: seq<Piece>, live': seq<Piece>, start: nat, size: nat) {
    && |live| < |live'| && live <= live'
    && live'[|live'| - 1].start == start && live'[|live'| - 1].len == size
  }

  predicate IsLarge(p: Piece, start: nat) {
    p.home == Outside && p.len > 0 && p.start == start
  }

  lemma GrantAligned(answer: Option<nat>, size: nat, blocks: seq<Block>, live: seq<Piece>, limit: nat)
    requires Grants(answer, size, blocks, live, limit)
    ensures answer.Some? ==> answer.value % Word == 0 && (answer.value + DataSize) % Word == 0
  {
  }

  lemma NoLarge(blocks: seq<Block>, live: seq<Piece>, limit: nat, answer: Option<nat>)
    requires |blocks| > 0 && blocks[0].base <= blocks[0].end && Grants(answer, BlockSize(blocks), blocks, live, limit)
    ensures Answers(blocks, live, limit, LargeSize, None, answer)
  {
  }

  /** Room outside stays free of what the pool takes inside its blocks. */
  lemma StillGranted(before: seq<Block>, current: nat, live: seq<Piece>, size: nat, aligned: bool,
                     answer: Option<nat>, blocks: seq<Block>, live': seq<Piece>, m: Option<nat>, limit: nat,
                     big: Option<nat>, length: nat)
    requires BlocksSound(before, limit) && limit < Wide
    requires Given(before, current, live, size, aligned, answer, blocks, live', m) && m.Some?
    requires Answers(before, live, limit, length, big, answer) && size <= BlockSize(before) - HeadSize
    ensures Grants(big, length, blocks, live', limit)
  {
    if big.Some? {
      var j := FirstRoom(before, current, size, aligned);
      if j < |before| {
        RoomFound(before, current, size, aligned);
        assert SoundBlock(before[j], HeadOf(j), limit);
        RoomIsReal(before[j], HeadOf(j), limit, size, aligned);
        assert Apart(big.value, length, before[j].base, before[j].end - before[j].base);
        forall i | 0 <= i < |blocks| ensures Apart(big.value, length, blocks[i].base, blocks[i].end - blocks[i].base) {
          assert Apart(big.value, length, before[i].base, before[i].end - before[i].base);
        }
      } else {
        forall i | 0 <= i < |blocks| ensures Apart(big.value, length, blocks[i].base, blocks[i].end - blocks[i].base) {
          if i < |before| {
            assert blocks[..|before|][i] == blocks[i];
            assert Apart(big.value, length, before[i].base, before[i].end - before[i].base);
          }
        }
      }
      forall k | 0 <= k < |live'| ensures Apart(big.value, length, live'[k].start, live'[k].len) {
        assert k < |live| ==> live'[k] == live[k];
      }
    }
  }

  /** A small piece cannot be had exactly if no block has room and the system has none. */
  lemma {:induction false} GivenOrNot(before: seq<Block>, current: nat, live: seq<Piece>, size: nat, aligned: bool,
                   answer: Option<nat>, blocks: seq<Block>, live': seq<Piece>, m: Option<nat>)
    requires Given(before, current, live, size, aligned, answer, blocks, live', m)
    ensures current <= |before|
    ensures m == None <==> FirstRoom(before, current, size, aligned) == |before| && answer == None
  {
  }

  lemma {:induction false} RoomFound(blocks: seq<Block>, i: nat, size: nat, aligned: bool)
    requires i <= |blocks|
    ensures var j := FirstRoom(blocks, i, size, aligned); j < |blocks| ==> HasRoom(blocks[j], size, aligned)
    decreases |blocks| - i
  {
    if i < |blocks| && !HasRoom(blocks[i], size, aligned) {
      RoomFound(blocks, i + 1, size, aligned);
    }
  }

  lemma OutsideAdded(blocks: seq<Block>, live: seq<Piece>, start: nat, size: nat, limit: nat)
    requires PiecesSound(blocks, live, limit) && Grants(Some(start), size, blocks, live, limit)
    ensures PiecesSound(blocks, live + [Piece(start, size, Outside)], limit)
  {
    PieceAdded(blocks, live, Piece(start, size, Outside), limit);
  }

  /** An unused entry notes the new piece. */
  lemma SoundReuse(blocks: seq<Block>, current: nat, max: nat, large: seq<Large>, owner: seq<nat>,
                   live: seq<Piece>, limit: nat, l: nat, start: nat, size: nat)
    requires Sound(blocks, current, max, large, owner, live, limit)
    requires Grants(Some(start), size, blocks, live, limit) && size > max
    requires l < |large| && large[l].alloc == None
    ensures |owner| == |large|
    ensures Sound(blocks, current, max, large[l := large[l].(alloc := Some(start))], owner[l := |live|],
                  live + [Piece(start, size, Outside)], limit)
  {
    hide PiecesSound(), Grants(), Passed(), BlocksSound();
    OutsideAdded(blocks, live, start, size, limit);
    OwnedReuse(large, owner, live, l, start, size);
  }

  lemma OwnedReuse(large: seq<Large>, owner: seq<nat>, live: seq<Piece>, l: nat, start: nat, size: nat)
    requires Owned(large, owner, live) && l < |large| && large[l].alloc == None && size > 0
    ensures Owned(large[l := large[l].(alloc := Some(start))], owner[l := |live|],
                  live + [Piece(start, size, Outside)])
  {
    var noted := large[l := large[l].(alloc := Some(start))];
    var owners := owner[l := |live|];
    var all := live + [Piece(start, size, Outside)];
    forall k | 0 <= k < |noted| && noted[k].alloc.Some?
      ensures owners[k] < |all| && IsLarge(all[owners[k]], noted[k].alloc.value)
      ensures k != l ==> owners[k] < |live|
    {
      assert k != l ==> large[k] == noted[k];
    }
    forall id | 0 <= id < |all| && all[id].home == Outside && all[id].len > 0
      ensures exists k :: 0 <= k < |noted| && noted[k].alloc.Some? && owners[k] == id
    {
      if id < |live| {
        assert live[id] == all[id];
        var k :| 0 <= k < |large| && large[k].alloc.Some? && owner[k] == id;
        assert noted[k].alloc.Some? && owners[k] == id;
      } else {
        assert noted[l].alloc.Some? && owners[l] == id;
      }
    }
  }

  /** A new entry at the front notes the new piece. */
  lemma SoundNoted(blocks: seq<Block>, current: nat, max: nat, large: seq<Large>, owner: seq<nat>,
                   live: seq<Piece>, limit: nat, header: nat, start: nat, size: nat)
    requires Sound(blocks, current, max, large, owner, live, limit)
    requires Grants(Some(start), size, blocks, live, limit) && size > max
    ensures Sound(blocks, current, max, [Large(header, Some(start))] + large, [|live|] + owner,
                  live + [Piece(start, size, Outside)], limit)
  {
    hide PiecesSound(), Grants(), Passed(), BlocksSound();
    OutsideAdded(blocks, live, start, size, limit);
    OwnedNoted(large, owner, live, header, start, size);
  }

  lemma OwnedNoted(large: seq<Large>, owner: seq<nat>, live: seq<Piece>, header: nat, start: nat, size: nat)
    requires Owned(large, owner, live) && size > 0
    ensures Owned([Large(header, Some(start))] + large, [|live|] + owner, live + [Piece(start, size, Outside)])
  {
    var empty := [Large(header, None)] + large;
    var owners := [0] + owner;
    forall k | 0 <= k < |empty| && empty[k].alloc.Some?
      ensures owners[k] < |live| && IsLarge(live[owners[k]], empty[k].alloc.value)
    {
      assert large[k - 1] == empty[k];
    }
    forall k, l | 0 <= k < l < |empty| && empty[k].alloc.Some? && empty[l].alloc.Some?
      ensures owners[k] != owners[l]
    {
      assert large[k - 1] == empty[k] && large[l - 1] == empty[l];
    }
    forall id | 0 <= id < |live| && live[id].home == Outside && live[id].len > 0
      ensures exists k :: 0 <= k < |empty| && empty[k].alloc.Some? && owners[k] == id
    {
      var k :| 0 <= k < |large| && large[k].alloc.Some? && owner[k] == id;
      assert empty[k + 1].alloc.Some? && owners[k + 1] == id;
    }
    OwnedReuse(empty, owners, live, 0, start, size);
    assert empty[0 := empty[0].(alloc := Some(start))] == [Large(header, Some(start))] + large;
    assert owners[0 := |live|] == [|live|] + owner;
  }

  /** Freeing empties the piece that the entry noted. */
  lemma SoundFreed(blocks: seq<Block>, current: nat, max: nat, large: seq<Large>, owner: seq<nat>,
                   live: seq<Piece>, limit: nat, l: nat)
    requires Sound(blocks, current, max, large, owner, live, limit)
    requires l < |large| && large[l].alloc.Some?
    ensures |owner| == |large| && owner[l] < |live| && IsLarge(live[owner[l]], large[l].alloc.value)
    ensures Sound(blocks, current, max, large[l := large[l].(alloc := None)], owner,
                  live[owner[l] := live[owner[l]].(len := 0)], limit)
  {
    hide Passed(), BlocksSound();
    var id := owner[l];
    assert large[l].alloc.Some?;
    PieceEmptied(blocks, live, id, limit);
    OwnedFreed(large, owner, live, l);
  }

  lemma PieceEmptied(blocks: seq<Block>, live: seq<Piece>, id: nat, limit: nat)
    requires PiecesSound(blocks, live, limit) && id < |live| && live[id].home == Outside
    ensures PiecesSound(blocks, live[id := live[id].(len := 0)], limit)
  {
    var all := live[id := live[id].(len := 0)];
    assert AtHome(blocks, live[id], limit);
    forall k | 0 <= k < |all| ensures AtHome(blocks, all[k], limit) {
      assert k != id ==> AtHome(blocks, live[k], limit);
    }
    forall k, l | 0 <= k < l < |all| ensures Apart(all[k].start, all[k].len, all[l].start, all[l].len) {
      assert Apart(live[k].start, live[k].len, live[l].start, live[l].len);
    }
  }

  lemma OwnedFreed(large: seq<Large>, owner: seq<nat>, live: seq<Piece>, l: nat)
    requires Owned(large, owner, live) && l < |large| && large[l].alloc.Some?
    ensures owner[l] < |live|
    ensures Owned(large[l := large[l].(alloc := None)], owner, live[owner[l] := live[owner[l]].(len := 0)])
  {
    var id := owner[l];
    assert large[l].alloc.Some?;
    var noted := large[l := large[l].(alloc := None)];
    var all := live[id := live[id].(len := 0)];
    forall k | 0 <= k < |noted| && noted[k].alloc.Some?
      ensures owner[k] < |all| && IsLarge(all[owner[k]], noted[k].alloc.value)
    {
      OwnersDiffer(large, owner, live, k, l);
    }
    forall i | 0 <= i < |all| && all[i].home == Outside && all[i].len > 0
      ensures exists k :: 0 <= k < |noted| && noted[k].alloc.Some? && owner[k] == i
    {
      assert live[i] == all[i];
      var k :| 0 <= k < |large| && large[k].alloc.Some? && owner[k] == i;
      assert noted[k].alloc.Some?;
    }
  }

  lemma OwnersDiffer(large: seq<Large>, owner: seq<nat>, live: seq<Piece>, k: nat, l: nat)
    requires Owned(large, owner, live) && k < |large| && l < |large| && k != l
    requires large[k].alloc.Some? && large[l].alloc.Some?
    ensures owner[k] != owner[l] && owner[k] < |live| && IsLarge(live[owner[k]], large[k].alloc.value)
  {
    assert large[k] == large[k] && large[l] == large[l];
  }

  lemma NotLarge(blocks: seq<Block>, current: nat, max: nat, large: seq<Large>, owner: seq<nat>,
                 live: seq<Piece>, limit: nat, p: nat)
    requires Sound(blocks, current, max, large, owner, live, limit)
    requires forall k :: 0 <= k < |large| ==> large[k].alloc != Some(p)
    ensures forall id :: 0 <= id < |live| ==> !IsLarge(live[id], p)
  {
    hide PiecesSound(), BlocksSound(), Passed();
    forall id | 0 <= id < |live| && live[id].home == Outside && live[id].len > 0 ensures live[id].start != p {
      var k :| 0 <= k < |large| && large[k].alloc.Some? && owner[k] == id;
      assert live[owner[k]].start == large[k].alloc.value;
    }
  }

  // ---------------------------------------------------------------- keeping the pool sound

  /** The piece that ends where the first block stands grows. */
  lemma SoundGrown(blocks: seq<Block>, current: nat, max: nat, large: seq<Large>, owner: seq<nat>,
                   live: seq<Piece>, limit: nat, id: nat, more: nat)
    requires Sound(blocks, current, max, large, owner, live, limit) && id < |live|
    requires live[id].start + live[id].len == blocks[0].last && blocks[0].last + more <= blocks[0].end
    ensures Sound(blocks[0 := blocks[0].(last := blocks[0].last + more)], current, max, large, owner,
                  live[id := Piece(live[id].start, live[id].len + more, InBlock(0))], limit)
  {
    hide PiecesSound();
    assert SoundBlock(blocks[0], HeadOf(0), limit);
    Grown(blocks, live, id, more, limit);
    IdAtHome(blocks, live, id, limit);
    EndsInFirst(blocks, live[id], limit);
    OwnedGrown(large, owner, live, id, more);
  }

  lemma IdAtHome(blocks: seq<Block>, live: seq<Piece>, id: nat, limit: nat)
    requires PiecesSound(blocks, live, limit) && id < |live|
    ensures AtHome(blocks, live[id], limit)
  {
  }

  lemma OwnedGrown(large: seq<Large>, owner: seq<nat>, live: seq<Piece>, id: nat, more: nat)
    requires Owned(large, owner, live) && id < |live| && (live[id].len > 0 ==> live[id].home == InBlock(0))
    ensures Owned(large, owner, live[id := Piece(live[id].start, live[id].len + more, InBlock(0))])
  {
    var all := live[id := Piece(live[id].start, live[id].len + more, InBlock(0))];
    forall i | 0 <= i < |all| && all[i].home == Outside && all[i].len > 0
      ensures exists k :: 0 <= k < |large| && large[k].alloc.Some? && owner[k] == i
    {
      assert live[i] == all[i];
    }
  }

  /** A block with room gives the next bytes. */
  lemma SoundTaking(blocks: seq<Block>, current: nat, max: nat, large: seq<Large>, owner: seq<nat>,
                    live: seq<Piece>, limit: nat, p: nat, size: nat, aligned: bool)
    requires Sound(blocks, current, max, large, owner, live, limit)
    requires p < |blocks| && HasRoom(blocks[p], size, aligned)
    ensures var place := Place(blocks[p], aligned);
            Sound(blocks[p := blocks[p].(last := place + size)], current, max, large, owner,
                  live + [Piece(place, size, InBlock(p))], limit)
  {
    hide PiecesSound(), Owned();
    var b := blocks[p];
    var place := Place(b, aligned);
    assert SoundBlock(b, HeadOf(p), limit);
    RoomIsReal(b, HeadOf(p), limit, size, aligned);
    HandedOut(blocks, live, p, place, size, limit);
    OwnedMore(large, owner, live, Piece(place, size, InBlock(p)));
  }

  class Pool {
    var blocks: seq<Block>    // linked by d.next, the pool itself first
    var current: nat
    var max: nat
    var large: seq<Large>     // linked by next
    const limit: nat          // addresses are below it
    ghost var live: seq<Piece>
    ghost var owner: seq<nat>

    ghost predicate Valid()
      reads this
    {
      Sound(blocks, current, max, large, owner, live, limit)
    }

    /** ngx_create_pool on the block that the system answered. */
    constructor (base: nat, size: nat, limit: nat)
      requires limit < Wide - Word && base + size <= limit
      requires base % PoolAlignment == 0 && size % PoolAlignment == 0 && size >= MinPoolSize
      ensures Valid() && live == [] && this.limit == limit
      ensures blocks == [Block(base, base + HeadSize, base + size, 0)]
      ensures max == if size - HeadSize < MaxFromPool then size - HeadSize else MaxFromPool
    {
      blocks := [Block(base, base + HeadSize, base + size, 0)];
      max := if size - HeadSize < MaxFromPool then size - HeadSize else MaxFromPool;
      current := 0;
      large := [];
      this.limit := limit;
      live := [];
      owner := [];
    }

    /** The loop of ngx_palloc, or without alignment of ngx_pnalloc. */
    method Scan(size: nat, aligned: bool) returns (m: Option<nat>)
      requires Valid()
      modifies this`blocks, this`live
      ensures Valid()
      ensures var j := FirstRoom(old(blocks), current, size, aligned);
              if j < |old(blocks)| then
                var b := old(blocks)[j];
                && m == Some(Place(b, aligned))
                && blocks == old(blocks)[j := b.(last := m.value + size)]
                && live == old(live) + [Piece(m.value, size, InBlock(j))]
              else m == None && blocks == old(blocks) && live == old(live)
    {
      hide Sound(), Align(), Unsigned();
      CurrentInside(blocks, current, max, large, owner, live, limit);
      var p := current;
      while p < |blocks|
        invariant p <= |blocks| && blocks == old(blocks) && live == old(live)
        invariant FirstRoom(blocks, current, size, aligned) == FirstRoom(blocks, p, size, aligned)
      {
        var b := blocks[p];
        var place := Place(b, aligned);
        if Unsigned(b.end - place) >= size {
          SoundTaking(blocks, current, max, large, owner, live, limit, p, size, aligned);
          blocks := blocks[p := b.(last := place + size)];
          live := live + [Piece(place, size, InBlock(p))];
          return Some(place);
        }
        p := p + 1;
      }
      m := None;
    }

    /** ngx_palloc_block: a new block like the first; the others count a failure. */
    method PallocBlock(size: nat, answer: Option<nat>) returns (m: Option<nat>)
      requires Valid() && size <= BlockSize(blocks) - HeadSize
      requires Grants(answer, BlockSize(blocks), blocks, live, limit)
      modifies this`blocks, this`current, this`live
      ensures Valid()
      ensures answer == None ==> m == None && blocks == old(blocks) && current == old(current) && live == old(live)
      ensures answer.Some? ==>
                && m == Some(answer.value + DataSize) && |blocks| == |old(blocks)| + 1
                && live == old(live) + [Piece(m.value, size, InBlock(|old(blocks)|))]
                && Missed(old(blocks), old(current), blocks[..|blocks| - 1])
                && blocks[|blocks| - 1]
                     == Block(answer.value, m.value + size, answer.value + (old(blocks)[0].end - old(blocks)[0].base), 0)
    {
      hide Sound(), BlocksSound(), PiecesSound(), Owned(), Align();
      PassedOf(blocks, current, max, large, owner, live, limit);
      var psize := blocks[0].end - blocks[0].base;
      if answer == None {
        return None;
      }
      var place := Align(answer.value + DataSize);
      AlignedAlready(answer.value);
      var added := Block(answer.value, place + size, answer.value + psize, 0);
      ghost var before, from := blocks, current;
      var p := current;
      while p + 1 < |blocks|
        invariant p < |blocks| == |before| && from <= current <= p
        invariant MissedTo(before, from, blocks, p) && live == old(live)
        invariant forall i :: 0 <= i < p ==> (i < current <==> blocks[i].failed > 5)
      {
        blocks := blocks[p := blocks[p].(failed := blocks[p].failed + 1)];
        if blocks[p].failed - 1 > 4 {
          current := p + 1;
        }
        p := p + 1;
      }
      SoundNewBlock(before, from, max, large, owner, live, limit, blocks, current, answer, size);
      assert (blocks + [added])[..|blocks|] == blocks;
      blocks := blocks + [added];
      live := live + [Piece(place, size, InBlock(|before|))];
      m := Some(place);
    }

    /** ngx_palloc, or without alignment ngx_pnalloc.  `big` and `answer` are what the system answers
        when asked for a large piece and for a block. */
    method Palloc(size: nat, aligned: bool, big: Option<nat>, answer: Option<nat>) returns (m: Option<nat>)
      requires Valid() && Answers(blocks, live, limit, size, big, answer)
      modifies this`blocks, this`current, this`live, this`large, this`owner
      ensures Valid()
      ensures size <= max ==>
                && Given(old(blocks), old(current), old(live), size, aligned, answer, blocks, live, m)
                && (FirstRoom(old(blocks), old(current), size, aligned) < |old(blocks)| ==> current == old(current))
                && large == old(large) && owner == old(owner)
      ensures old(current) <= |old(blocks)|
              && (m == None <==> Refused(old(blocks), old(current), max, old(large), size, aligned, big, answer))
      ensures size > max ==> m == None || m == big
      ensures size > max && m.Some? ==> Noted(old(large), large, big)
      ensures m == None ==> live == old(live) && large == old(large)
      ensures m.Some? ==> Obtained(old(live), live, m.value, size)
      ensures m.Some? && (aligned || size > max) ==> m.value % Word == 0
      decreases if size > max then 2 else 0
    {
      hide Sound(), BlocksSound(), PiecesSound(), Owned(), Grants(), Missed();
      PassedOf(blocks, current, max, large, owner, live, limit);
      CurrentInside(blocks, current, max, large, owner, live, limit);
      if size > max {
        m := PallocLarge(size, big, answer);
        return;
      }
      GrantAligned(answer, BlockSize(blocks), blocks, live, limit);
      m := Scan(size, aligned);
      if m == None {
        m := PallocBlock(size, answer);
      }
    }

    /** ngx_palloc_large: the system's piece is noted in the first unused of the first five entries of
        the list, or in a new entry in front, which the pool itself holds.  It fails exactly if the
        system has no piece, or such an entry is needed and cannot be had. */
    method PallocLarge(size: nat, big: Option<nat>, answer: Option<nat>) returns (m: Option<nat>)
      requires Valid() && size > max && Answers(blocks, live, limit, size, big, answer)
      modifies this`blocks, this`current, this`live, this`large, this`owner
      ensures Valid()
      ensures old(current) <= |old(blocks)|
              && m == if NoLargePiece(old(blocks), old(current), old(large), big, answer) then None else big
      ensures m.Some? ==> Noted(old(large), large, big)
      ensures m == None ==> live == old(live) && large == old(large)
      ensures m.Some? ==> Obtained(old(live), live, m.value, size) && m.value % Word == 0
      decreases 1
    {
      hide Sound(), BlocksSound(), PiecesSound(), Owned(), Grants(), Missed(), Given();
      CurrentInside(blocks, current, max, large, owner, live, limit);
      if big == None {
        return None;
      }
      GrantAligned(big, size, blocks, live, limit);
      var n, l := 0, 0;
      while l < |large|
        invariant l <= |large| && blocks == old(blocks) && current == old(current)
        invariant live == old(live) && large == old(large) && owner == old(owner)
        invariant n == l <= 4 && Unused(large, l) == Unused(large, 0)
      {
        if large[l].alloc == None {
          SoundReuse(blocks, current, max, large, owner, live, limit, l, big.value, size);
          large := large[l := large[l].(alloc := big)];
          owner := owner[l := |live|];
          live := live + [Piece(big.value, size, Outside)];
          return big;
        }
        if n > 3 {
          assert Unused(large, 5) == None;
          break;
        }
        n := n + 1;
        l := l + 1;
      }
      PassedOf(blocks, current, max, large, owner, live, limit);
      NoLarge(blocks, live, limit, answer);
      var header := Palloc(LargeSize, true, None, answer);
      GivenOrNot(old(blocks), old(current), old(live), LargeSize, true, answer, blocks, live, header);
      if header == None {
        return None;
      }
      StillGranted(old(blocks), old(current), old(live), LargeSize, true, answer, blocks, live, header, limit, big, size);
      SoundNoted(blocks, current, max, large, owner, live, limit, header.value, big.value, size);
      large := [Large(header.value, big)] + large;
      owner := [|live|] + owner;
      live := live + [Piece(big.value, size, Outside)];
      m := big;
    }

    /** ngx_pfree. */
    method Pfree(p: nat) returns (found: bool, ghost id: nat)
      requires Valid()
      modifies this`large, this`live
      ensures Valid()
      ensures found <==> exists k :: 0 <= k < |old(live)| && IsLarge(old(live)[k], p)
      ensures found ==> id < |old(live)| && IsLarge(old(live)[id], p)
      ensures found ==> live == old(live)[id := old(live)[id].(len := 0)]
      ensures !found ==> live == old(live) && large == old(large)
    {
      hide Sound(), BlocksSound(), PiecesSound(), Owned();
      id := 0;
      var l := 0;
      while l < |large|
        invariant l <= |large| && large == old(large) && live == old(live)
        invariant forall k :: 0 <= k < l ==> large[k].alloc != Some(p)
      {
        if large[l].alloc == Some(p) {
          SoundFreed(blocks, current, max, large, owner, live, limit, l);
          id := owner[l];
          large := large[l := large[l].(alloc := None)];
          live := live[id := live[id].(len := 0)];
          return true, id;
        }
        l := l + 1;
      }
      NotLarge(blocks, current, max, large, owner, live, limit, p);
      found := false;
    }
  }
}
