/**
  The allocator of lab7/mm.c, operating in place on the bytes of the simulated memory.
 */
module Malloc {
  import opened LittleEndian
  import opened Memlib
  import opened HeapShape

  const CHUNK_SIZE: int := 4096

  // The block size for a request of `size` bytes: header, footer and links, a multiple of 8.
  function AdjustedSize(size: int): (asize: int)
    requires 0 <= size
    ensures asize % 8 == 0 && MIN_BLOCK <= asize && size + 8 <= asize && (asize <= size + 15 || asize == MIN_BLOCK)
  {
    if size <= 8 then 24 else 8 * ((size + 8 + 7) / 8)
  }

  lemma EvenWords(n: nat)
    requires n % 8 == 0
    ensures (n / 4) % 2 == 0 && n / 4 * 4 == n
  {
    var k := n / 8;
    assert n == 4 * (2 * k);
    Remainder2(k, 0);
  }

  // Requests whose block size fits the int arithmetic
  predicate SmallEnough(size: int) {
    0 <= size < 0x3fff_0000
  }

  // Requests that take the general path of mm_malloc whatever the heap looks like
  predicate GeneralSize(size: int) {
    SmallEnough(size) && size !in {4095, 8190, 4092, 16, 64, 112, 448}
  }

  // The bytes by which mm_malloc extends the heap when nothing fits
  function Extension(size: int): int
    requires 0 <= size
  {
    if AdjustedSize(size) > CHUNK_SIZE then AdjustedSize(size) else CHUNK_SIZE
  }

  ghost predicate OutOfMemory(brk: int, size: int)
    requires 0 <= size
  {
    MAX_HEAP < brk + Extension(size)
  }

  // The break after mm_init
  const INITIAL_BRK: int := 4112

  class Allocator {
    const mem: Memory
    const freeListp: array<int>
    var heapListp: int

    ghost var blocks: Blocks
    ghost var lists: Lists

    ghost predicate Fixed()
      reads this, mem, freeListp
    {
      && mem.Valid() && freeListp.Length == LIST_NUM
      && heapListp == PROLOGUE
      && mem.brk <= MAX_HEAP
    }

    constructor ()
      ensures fresh(mem) && fresh(mem.data) && fresh(freeListp)
      ensures mem.Valid() && mem.brk == 0 && freeListp.Length == LIST_NUM
    {
      mem := new Memory();
      freeListp := new int[LIST_NUM];
      heapListp := 0;
      blocks, lists := map[], [];
    }

    // The bytes, the ghost blocks and the ghost lists agree.  A free block may be missing from the lists.
    ghost predicate Core()
      reads this, mem, mem.data, freeListp
    {
      Fixed() && Consistent(mem.data[..], freeListp[..], blocks, lists, mem.brk)
    }

    // The boundary tags alone
    ghost predicate Tiled()
      reads this, mem, mem.data, freeListp
    {
      Fixed() && Shape(blocks, mem.brk) && Tagged(mem.data[..], blocks, mem.brk)
    }

    // The invariant between calls.
    ghost predicate Valid()
      reads this, mem, mem.data, freeListp
    {
      Core() && Complete(blocks, lists, {}) && NoAdjacentFree(blocks, {})
    }

    // The size of the first block, 0 if there is none; sizes 24 and 72 are a sign for the shortcuts of mm_malloc.
    ghost function FirstSize(): int
      reads this`blocks
    {
      FirstSizeOf(blocks)
    }

    // A request that takes the general path of mm_malloc on this heap
    ghost predicate GeneralPath(size: int)
      reads this`blocks, mem
    {
      && SmallEnough(size) && size !in {4095, 8190}
      && (size in {16, 64, 112, 448} ==> FirstSize() !in {24, 72})
      && (size == 4092 ==> !NothingFits(blocks, AdjustedSize(size)) || OutOfMemory(mem.brk, size))
    }

    // mm_realloc begins with an extension of the heap when it has to grow `ptr`.
    ghost predicate ExtendsFirst(ptr: int)
      reads this`blocks, mem
    {
      Speculates(blocks, mem.brk, ptr)
    }

    // The block size mm_realloc finds at `ptr` then
    ghost function Spare(ptr: int): int
      requires ptr in blocks
      reads this`blocks, mem
    {
      SpareOf(blocks, mem.brk, ptr, CHUNK_SIZE)
    }

    // The block size mm_realloc reaches at `ptr` without calling mm_malloc
    ghost function Reach(ptr: int): int
      requires ptr in blocks
      reads this`blocks, mem
    {
      ReachOf(blocks, mem.brk, ptr, CHUNK_SIZE)
    }

    // The block size mm_realloc has at `ptr` when it stops looking for more than `asize`
    ghost function Span(ptr: int, asize: int): int
      requires ptr in blocks
      reads this`blocks, mem
    {
      if asize <= blocks[ptr].size then blocks[ptr].size else if asize <= Spare(ptr) then Spare(ptr) else Reach(ptr)
    }

    // ... and the bytes by which it has extended the heap for that
    ghost function Stretch(ptr: int, asize: int): int
      requires ptr in blocks
      reads this`blocks, mem
    {
      if asize <= blocks[ptr].size then 0
      else (if ExtendsFirst(ptr) then CHUNK_SIZE else 0) + if asize <= Spare(ptr) then 0 else CHUNK_SIZE
    }

    // The block at `p` is live and wastes less than another block would need.
    ghost predicate Snug(p: int, size: int)
      requires 0 <= size
      reads this`blocks, mem.data
    {
      p in Contents() && AdjustedSize(size) - 8 <= |Contents()[p]| < AdjustedSize(size) - 8 + MIN_BLOCK
    }

    lemma IsSnug(p: int, size: int)
      requires Core() && p in Contents() && p in blocks && 0 <= size
      requires AdjustedSize(size) <= blocks[p].size < AdjustedSize(size) + MIN_BLOCK
      ensures Snug(p, size) && |Contents()[p]| + 8 == blocks[p].size
    {
      hide Shape, Tagged, Placed, AllLinked, Live, AdjustedSize;
      LiveSize(mem.data[..], blocks, mem.brk, p);
    }

    ghost function Contents(): map<int, seq<Byte>>
      reads this`blocks, mem.data
    {
      Live(mem.data[..], blocks)
    }

    // PUTADDR(PRED(bp), v)
    method PutPred(bp: int, v: int)
      requires Fixed() && Shape(blocks, mem.brk) && Tagged(mem.data[..], blocks, mem.brk)
      requires FreeBlock(blocks, bp) && 0 <= v < ADDRESS_LIMIT
      modifies mem.data
      ensures Tagged(mem.data[..], blocks, mem.brk) && Contents() == old(Contents())
      ensures Pred(mem.data[..], bp) == v
      ensures LinksKept(blocks, old(mem.data[..]), mem.data[..], {bp}, {})
    {
      ghost var m := mem.data[..];
      PutAddr(mem.data, bp, v);
      LinkWritten(m, mem.data[..], blocks, mem.brk, bp, bp);
    }

    // PUTADDR(SUCC(bp), v)
    method PutSucc(bp: int, v: int)
      requires Fixed() && Shape(blocks, mem.brk) && Tagged(mem.data[..], blocks, mem.brk)
      requires FreeBlock(blocks, bp) && 0 <= v < ADDRESS_LIMIT
      modifies mem.data
      ensures Tagged(mem.data[..], blocks, mem.brk) && Contents() == old(Contents())
      ensures Succ(mem.data[..], bp) == v
      ensures LinksKept(blocks, old(mem.data[..]), mem.data[..], {}, {bp})
    {
      ghost var m := mem.data[..];
      PutAddr(mem.data, bp + 8, v);
      LinkWritten(m, mem.data[..], blocks, mem.brk, bp, bp + 8);
    }

    // GETADDR(PRED(bp))
    method GetPred(bp: int) returns (a: int)
      requires 0 <= bp <= mem.data.Length - 8
      ensures a == Pred(mem.data[..], bp)
    {
      a := GetAddr(mem.data, bp);
    }

    // GETADDR(SUCC(bp))
    method GetSucc(bp: int) returns (a: int)
      requires 0 <= bp <= mem.data.Length - 16
      ensures a == Succ(mem.data[..], bp)
    {
      a := GetAddr(mem.data, bp + 8);
    }

    // GET_SIZE(HDRP(bp))
    method SizeOf(bp: int) returns (size: int)
      requires Tiled() && (bp in blocks || bp == mem.brk)
      ensures size == if bp in blocks then blocks[bp].size else 0
    {
      hide Word, AllLinked, Placed;
      var w := Get(mem.data, bp - 4);
      assert bp in blocks ==> TagOk(mem.data[..], bp, blocks[bp]);
      PackParts(if bp in blocks then blocks[bp].size else 0, bp in blocks ==> blocks[bp].alloc);
      size := w - w % 8;
    }

    // GET_ALLOC(HDRP(bp))
    method IsAllocated(bp: int) returns (alloc: bool)
      requires Tiled() && (bp in blocks || bp == mem.brk)
      ensures alloc == (bp in blocks ==> blocks[bp].alloc)
    {
      hide Word, AllLinked, Placed;
      var w := Get(mem.data, bp - 4);
      assert bp in blocks ==> TagOk(mem.data[..], bp, blocks[bp]);
      PackParts(if bp in blocks then blocks[bp].size else 0, bp in blocks ==> blocks[bp].alloc);
      alloc := w % 2 == 1;
    }

    // insert_block
    method InsertBlock(bp: int)
      requires Core() && FreeBlock(blocks, bp) && !Listed(lists, bp)
      modifies this`lists, freeListp, mem.data
      ensures Core() && Contents() == old(Contents())
      ensures lists == Inserted(old(lists), BlockIndex(blocks[bp].size), bp) && NewlyListed(old(lists), lists, bp)
    {
      hide Tagged, Contents, Pred, Succ, Word, Address, Shape, Listed, Placed, AllLinked, LinksKept, BlockIndex;
      ghost var m, heads := mem.data[..], freeListp[..];
      FreeBounds(blocks, mem.brk, bp);
      var csize := SizeOf(bp);
      var index := BlockIndex(csize);
      var listp := freeListp[index];
      HeadFree(blocks, mem.brk, m, heads, lists, index, bp);
      if listp == 0 {
        PutSucc(bp, 0);
      } else {
        PutSucc(bp, listp);
        ghost var m0 := mem.data[..];
        PutPred(listp, bp);
        LinksComposed(blocks, m, m0, mem.data[..], bp, listp);
      }
      ghost var m1 := mem.data[..];
      PutPred(bp, 0);
      LinkedIn(blocks, m, m1, mem.data[..], bp, listp);
      InsertLinked(blocks, m, mem.data[..], heads, lists, bp);
      InsertListed(lists, index, bp);
      freeListp[index] := bp;
      lists := Inserted(lists, index, bp);
    }

    // The case split of remove_block: the neighbours, or the head, skip a block.
    method SkipBlock(index: int, prev: int, next: int)
      requires Fixed() && Shape(blocks, mem.brk) && Tagged(mem.data[..], blocks, mem.brk) && 0 <= index < LIST_NUM
      requires prev != 0 ==> FreeBlock(blocks, prev) && 0 < prev < MAX_HEAP
      requires next != 0 ==> FreeBlock(blocks, next) && 0 < next < MAX_HEAP
      modifies freeListp, mem.data
      ensures Tagged(mem.data[..], blocks, mem.brk) && Contents() == old(Contents())
      ensures LinksKept(blocks, old(mem.data[..]), mem.data[..], NonNull(next), NonNull(prev))
      ensures next != 0 ==> Pred(mem.data[..], next) == prev
      ensures prev != 0 ==> Succ(mem.data[..], prev) == next
      ensures freeListp[..] == if prev == 0 then old(freeListp[..])[index := next] else old(freeListp[..])
    {
      hide Tagged, Contents, Pred, Succ, Shape;
      if prev == 0 && next == 0 {
        freeListp[index] := 0;
      } else if prev == 0 && next != 0 {
        PutPred(next, 0);
        freeListp[index] := next;
      } else if prev != 0 && next == 0 {
        PutSucc(prev, 0);
      } else {
        PutSucc(prev, next);
        PutPred(next, prev);
      }
    }

    // remove_block
    method RemoveBlock(bp: int)
      requires Core() && FreeBlock(blocks, bp) && Listed(lists, bp)
      modifies this`lists, freeListp, mem.data
      ensures Core() && Contents() == old(Contents())
      ensures Unlisted(old(lists), lists, {bp})
      ensures var i := BlockIndex(blocks[bp].size);
              exists k :: ListedAt(blocks, old(lists), bp, i, k) && lists == Removed(old(lists), i, k)
    {
      hide Tagged, Contents, Pred, Succ, Word, Address, BlockIndex;
      hide Shape, Listed, Placed, AllLinked, LinksKept;
      ghost var m, heads := mem.data[..], freeListp[..];
      var csize := SizeOf(bp);
      var index := BlockIndex(csize);
      ghost var k := Neighbours(blocks, mem.brk, m, heads, lists, bp, index);
      RemovePlaced(blocks, lists, bp, index, k);
      var prev := GetPred(bp);
      var next := GetSucc(bp);
      SkipBlock(index, prev, next);
      ghost var m1 := mem.data[..];
      PutPred(bp, 0);
      ghost var m2 := mem.data[..];
      PutSucc(bp, 0);
      UnlinkedThenCleared(blocks, m, m1, m2, mem.data[..], NonNull(next), NonNull(prev), bp);
      RemoveLinked(blocks, m, mem.data[..], heads, lists, bp, index, k);
      assert freeListp[..] == heads[index := At(Removed(lists, index, k)[index], 0)];
      lists := Removed(lists, index, k);
    }

    // PUT(HDRP(bp), PACK(size, alloc)); PUT(FTRP(bp), PACK(size, alloc))
    method PutTags(bp: int, size: int, alloc: bool)
      requires 4 <= bp && MIN_BLOCK <= size < WORD_LIMIT && size % 8 == 0 && bp + size - 4 <= mem.data.Length
      modifies mem.data
      ensures TagOk(mem.data[..], bp, Block(size, alloc))
      ensures OnlyTags(old(mem.data[..]), mem.data[..], bp, size)
    {
      hide Word;
      PackParts(size, alloc);
      Put(mem.data, bp - 4, Pack(size, alloc));
      var w := Get(mem.data, bp - 4);
      ghost var m1 := mem.data[..];
      Put(mem.data, bp + (w - w % 8) - 8, Pack(size, alloc));
      WordFrame(m1, mem.data[..], bp + size - 8, bp + size - 4, bp - 4);
    }

    // GET_ALLOC(FTRP(bp))
    method FooterAllocated(bp: int) returns (alloc: bool)
      requires Core() && bp in blocks
      ensures alloc == blocks[bp].alloc
    {
      hide Word, AllLinked, Placed;
      var size := SizeOf(bp);
      assert TagOk(mem.data[..], bp, blocks[bp]);
      var w := Get(mem.data, bp + size - 8);
      PackParts(size, blocks[bp].alloc);
      alloc := w % 2 == 1;
    }

    // NEXT_BLKP(bp)
    method NextBlkp(bp: int) returns (q: int)
      requires Tiled() && bp in blocks
      ensures q == Next(blocks, bp) && (q in blocks || q == mem.brk)
    {
      hide Tagged, AllLinked, Placed;
      var size := SizeOf(bp);
      q := bp + size;
      assert q == Next(blocks, bp);
    }

    // PREV_BLKP(bp)
    method PrevBlkp(bp: int) returns (q: int)
      requires Core() && bp in blocks && bp != PROLOGUE
      ensures q in blocks && Next(blocks, q) == bp
    {
      hide Word, AllLinked, Placed;
      ghost var prev := PreviousExists(blocks, mem.brk, PROLOGUE, bp);
      assert TagOk(mem.data[..], prev, blocks[prev]);
      PackParts(blocks[prev].size, blocks[prev].alloc);
      var w := Get(mem.data, bp - 8);
      q := bp - (w - w % 8);
    }

    // place
    method Place(bp: int, asize: int)
      requires Valid() && FreeBlock(blocks, bp)
      requires MIN_BLOCK <= asize <= blocks[bp].size && asize % 8 == 0
      modifies this`blocks, this`lists, freeListp, mem.data
      ensures Valid()
      ensures blocks == PlacedIn(old(blocks), bp, asize)
      ensures Allocated(old(Contents()), Contents(), bp, asize - 8)
      ensures bp in blocks && blocks[bp].size == Trim(old(blocks[bp].size), asize)
    {
      hide ListedAt, Removed, Inserted, BlockIndex;
      hide Shape, Tagged, Placed, AllLinked, NoAdjacentFree, Complete, Unlisted, NewlyListed;
      hide Live, Listed, TagOk, SameOutside, OnlyTags, Split, FreeBlock, Allocated;
      FreeNotLive(mem.data[..], blocks, bp);
      FreeBounds(blocks, mem.brk, bp);
      FreeListed(blocks, lists, bp);
      ghost var l := lists;
      var csize := SizeOf(bp);
      RemoveBlock(bp);
      RemoveComplete(blocks, l, lists, bp);
      ghost var m := mem.data[..];
      if csize - asize >= MIN_BLOCK {
        PutTags(bp, asize, true);
        var rest := bp + asize;
        ghost var m1 := mem.data[..];
        PutTags(rest, csize - asize, false);
        TwoTags(m, m1, mem.data[..], bp, asize, csize - asize);
        SplitMove(m, mem.data[..], freeListp[..], blocks, lists, mem.brk, bp, asize);
        SplitFree(blocks, mem.brk, bp, asize);
        SplitComplete(blocks, mem.brk, lists, bp, asize);
        blocks, l := Split(blocks, bp, asize), lists;
        InsertBlock(rest);
        InsertComplete(blocks, l, lists, rest);
        SplitFront(old(blocks), bp, asize);
      } else {
        PutTags(bp, csize, true);
        OneTag(m, mem.data[..], bp, csize);
        RetagMove(m, mem.data[..], freeListp[..], blocks, lists, mem.brk, bp, true);
        RetagFree(blocks, lists, bp, true);
        blocks := blocks[bp := Block(csize, true)];
      }
      PlacedAllocated(old(Contents()), mem.data[..], blocks, mem.brk, bp, asize);
    }

    // The second case of coalesce: the next block is free.
    method JoinNext(bp: int, next: int)
      requires Core() && FreeBlock(blocks, bp) && FreeBlock(blocks, next) && next == Next(blocks, bp)
      requires !Listed(lists, bp) && Listed(lists, next)
      modifies this`blocks, this`lists, freeListp, mem.data
      ensures Core() && Contents() == old(Contents())
      ensures blocks == Merge(old(blocks), bp, false) && Unlisted(old(lists), lists, {next})
      ensures FreeBlock(blocks, bp) && !Listed(lists, bp)
    {
      hide ListedAt, Removed, Inserted, BlockIndex;
      hide Shape, Tagged, Placed, AllLinked, Unlisted, Live, Listed, TagOk, SameOutside, OnlyTags;
      FreeBounds(blocks, mem.brk, bp);
      FreeBounds(blocks, mem.brk, next);
      FreeNotLive(mem.data[..], blocks, bp);
      ghost var l := lists;
      var size := SizeOf(bp);
      RemoveBlock(next);
      StillUnlisted(l, lists, {next}, bp);
      StillUnlisted(l, lists, {next}, next);
      var nextSize := SizeOf(next);
      size := size + nextSize;
      ghost var m := mem.data[..];
      PutTags(bp, size, false);
      OneTag(m, mem.data[..], bp, size);
      MergeMove(m, mem.data[..], freeListp[..], blocks, lists, mem.brk, bp, false);
      blocks := Merge(blocks, bp, false);
      FreeNotLive(mem.data[..], blocks, bp);
    }

    // The third case of coalesce: the previous block is free.
    method JoinPrev(bp: int, prev: int)
      requires Core() && FreeBlock(blocks, bp) && FreeBlock(blocks, prev) && bp == Next(blocks, prev)
      requires !Listed(lists, bp) && Listed(lists, prev)
      modifies this`blocks, this`lists, freeListp, mem.data
      ensures Core() && Contents() == old(Contents())
      ensures blocks == Merge(old(blocks), prev, false) && Unlisted(old(lists), lists, {prev})
      ensures FreeBlock(blocks, prev) && !Listed(lists, prev)
    {
      hide ListedAt, Removed, Inserted, BlockIndex;
      hide Shape, Tagged, Placed, AllLinked, Unlisted, Live, Listed, TagOk, SameOutside, OnlyTags;
      FreeBounds(blocks, mem.brk, bp);
      FreeBounds(blocks, mem.brk, prev);
      FreeNotLive(mem.data[..], blocks, prev);
      ghost var l := lists;
      var size := SizeOf(bp);
      RemoveBlock(prev);
      StillUnlisted(l, lists, {prev}, bp);
      StillUnlisted(l, lists, {prev}, prev);
      var prevSize := SizeOf(prev);
      ghost var m := mem.data[..];
      Put(mem.data, bp + size - 8, Pack(size + prevSize, false));
      ghost var m1 := mem.data[..];
      Put(mem.data, prev - 4, Pack(size + prevSize, false));
      SeparateTags(m, m1, mem.data[..], prev, size + prevSize, false);
      MergeMove(m, mem.data[..], freeListp[..], blocks, lists, mem.brk, prev, false);
      blocks := Merge(blocks, prev, false);
      FreeNotLive(mem.data[..], blocks, prev);
    }

    // The fourth case of coalesce: both neighbours are free.
    method JoinBoth(bp: int, prev: int, next: int)
      requires Core() && FreeBlock(blocks, bp) && FreeBlock(blocks, prev) && FreeBlock(blocks, next)
      requires bp == Next(blocks, prev) && next == Next(blocks, bp) && prev < bp < next
      requires !Listed(lists, bp) && Listed(lists, prev) && Listed(lists, next)
      modifies this`blocks, this`lists, freeListp, mem.data
      ensures Core() && Contents() == old(Contents())
      ensures blocks == Merge(Merge(old(blocks), prev, false), prev, false) && Unlisted(old(lists), lists, {prev, next})
      ensures FreeBlock(blocks, prev) && !Listed(lists, prev)
    {
      hide ListedAt, Removed, Inserted, BlockIndex;
      hide Shape, Tagged, Placed, AllLinked, Unlisted, Live, Listed, TagOk, SameOutside, OnlyTags;
      FreeBounds(blocks, mem.brk, bp);
      FreeBounds(blocks, mem.brk, prev);
      FreeBounds(blocks, mem.brk, next);
      FreeNotLive(mem.data[..], blocks, prev);
      ghost var l := lists;
      var size := SizeOf(bp);
      RemoveBlock(prev);
      StillListed(l, lists, {prev}, next);
      ghost var l1 := lists;
      RemoveBlock(next);
      UnlistedTwice(l, l1, lists, prev, next);
      StillUnlisted(l, lists, {prev, next}, bp);
      StillUnlisted(l, lists, {prev, next}, prev);
      StillUnlisted(l, lists, {prev, next}, next);
      var prevSize := SizeOf(prev);
      var nextSize := SizeOf(next);
      size := size + prevSize + nextSize;
      ghost var m := mem.data[..];
      Put(mem.data, prev - 4, Pack(size, false));
      ghost var m1 := mem.data[..];
      Put(mem.data, next + nextSize - 8, Pack(size, false));
      SeparateTags(m, m1, mem.data[..], prev, size, true);
      MergeBothMove(m, mem.data[..], freeListp[..], blocks, lists, mem.brk, prev);
      blocks := Merge(Merge(blocks, prev, false), prev, false);
      FreeNotLive(mem.data[..], blocks, prev);
    }

    // coalesce
    method Coalesce(bp: int) returns (r: int)
      requires Core() && FreeBlock(blocks, bp)
      requires Complete(blocks, lists, {bp}) && NoAdjacentFree(blocks, {bp})
      modifies this`blocks, this`lists, freeListp, mem.data
      ensures Valid() && Contents() == old(Contents())
      ensures SameAllocated(old(blocks), blocks)
      ensures FreeBlock(blocks, r) && r <= bp && Next(old(blocks), bp) <= Next(blocks, r)
      ensures r == bp || (FreeBlock(old(blocks), r) && Next(old(blocks), r) == bp)
    {
      hide ListedAt, Removed, Inserted, BlockIndex;
      hide Shape, Tagged, Placed, AllLinked, NoAdjacentFree, Complete, Unlisted, NewlyListed;
      hide Live, Listed, TagOk, SameOutside, OnlyTags, SameAllocated, FreeExcept;
      FreeBounds(blocks, mem.brk, bp);
      HoleUnlisted(blocks, lists, bp);
      var prev := PrevBlkp(bp);
      var prevAlloc := FooterAllocated(prev);
      var next := NextBlkp(bp);
      var nextAlloc := IsAllocated(next);
      ghost var b, l := blocks, lists;
      ghost var removed: set<int>, gone: set<int>;
      r := bp;
      if prevAlloc && nextAlloc {
        removed, gone := {}, {};
        CoalescedNone(b, mem.brk, prev, bp);
      } else if prevAlloc && !nextAlloc {
        removed, gone := {next}, {next};
        FreeBounds(b, mem.brk, next);
        JoinNext(bp, next);
        CoalescedNext(b, mem.brk, prev, bp);
      } else if !prevAlloc && nextAlloc {
        removed, gone := {prev}, {bp};
        FreeBounds(b, mem.brk, prev);
        JoinPrev(bp, prev);
        CoalescedPrev(b, mem.brk, prev, bp);
        r := prev;
      } else {
        removed, gone := {prev, next}, {bp, next};
        FreeBounds(b, mem.brk, prev);
        FreeBounds(b, mem.brk, next);
        JoinBoth(bp, prev, next);
        CoalescedBoth(b, mem.brk, prev, bp);
        r := prev;
      }
      ghost var l1 := lists;
      InsertBlock(r);
      CoalesceComplete(b, blocks, l, l1, lists, bp, removed, r, gone);
    }

    // extend_heap
    method ExtendHeap(words: int) returns (bp: int)
      requires Valid() && 6 <= words < 0x1000_0000
      modifies this`blocks, this`lists, mem`brk, mem.data, freeListp
      ensures Valid() && Contents() == old(Contents()) && SameAllocated(old(blocks), blocks)
      ensures var size := (words + words % 2) * 4;
              if MAX_HEAP < old(mem.brk) + size then
                bp == 0 && mem.brk == old(mem.brk) && blocks == old(blocks)
              else
                && mem.brk == old(mem.brk) + size
                && FreeBlock(blocks, bp) && 16 <= bp <= old(mem.brk) && Next(blocks, bp) == mem.brk
                && AtEnd(old(blocks), old(mem.brk), bp)
    {
      hide Shape, Tagged, Placed, AllLinked, NoAdjacentFree, Complete;
      hide Live, Listed, TagOk, SameOutside, OnlyTags, SameAllocated;
      var size := if words % 2 == 1 then (words + 1) * 4 else words * 4;
      ghost var m, b, brk := mem.data[..], blocks, mem.brk;
      ShapeBrk(b, brk);
      bp := mem.Sbrk(size);
      if bp == -1 {
        SameAllocatedSelf(b);
        return 0;
      }
      PutTags(bp, size, false);
      ghost var m1 := mem.data[..];
      PutAddr(mem.data, bp, 0);
      ghost var m2 := mem.data[..];
      PutAddr(mem.data, bp + 8, 0);
      ghost var m3 := mem.data[..];
      Put(mem.data, bp + size - 4, Pack(0, true));
      NewBlockBytes(m, m1, m2, m3, mem.data[..], brk, size);
      ExtendMove(m, mem.data[..], freeListp[..], b, lists, brk, size);
      ExtendFree(b, brk, lists, size);
      blocks := b[brk := Block(size, false)];
      ghost var b' := blocks;
      bp := Coalesce(bp);
      SameAllocatedTransitive(b, b', blocks);
      FreeBounds(blocks, mem.brk, bp);
      FreeBounds(b', mem.brk, brk);
    }

    // mm_init
    method Init() returns (r: int)
      requires mem.Valid() && mem.brk == 0 && freeListp.Length == LIST_NUM
      modifies this, mem`brk, mem.data, freeListp
      ensures r == 0 && Valid() && Contents() == map[] && mem.brk == INITIAL_BRK
    {
      hide Word, Consistent, Complete, NoAdjacentFree, Live;
      var p := mem.Sbrk(16);
      if p == -1 {
        return -1;
      }
      Put(mem.data, p, 0);
      Put(mem.data, p + 4, Pack(8, true));
      ghost var m2 := mem.data[..];
      Put(mem.data, p + 8, Pack(8, true));
      ghost var m3 := mem.data[..];
      Put(mem.data, p + 12, Pack(0, true));
      heapListp := p + 8;
      WordFrame(m2, m3, 8, 12, 4);
      WordFrame(m3, mem.data[..], 12, 16, 4);
      WordFrame(m3, mem.data[..], 12, 16, 8);
      label written:
      for i := 0 to LIST_NUM
        invariant heapListp == PROLOGUE && mem.brk == 16 && mem.data[..] == old@written(mem.data[..])
        invariant forall j :: 0 <= j < i ==> freeListp[j] == 0
      {
        freeListp[i] := 0;
      }
      blocks, lists := map[PROLOGUE := Block(8, true)], seq(LIST_NUM, i => []);
      EmptyHeap(mem.data[..], freeListp[..], blocks, lists);
      var bp := ExtendHeap(4096 / 4);
      if bp == 0 {
        return -1;
      }
      return 0;
    }

    // find_fit
    method FindFit(asize: int) returns (bp: int)
      requires Valid()
      ensures bp == 0 ==> NothingFits(blocks, asize)
      ensures bp != 0 ==> FirstFit(blocks, lists, asize, bp)
    {
      hide Shape, Tagged, Placed, AllLinked, Complete, NoAdjacentFree, BlockIndex, TooSmall, Listed, Succ;
      ListStep(blocks, mem.brk, mem.data[..], freeListp[..], lists, 0, 0);
      assert |lists| == LIST_NUM by { AllLinkedLength(mem.data[..], freeListp[..], lists); }
      var index := BlockIndex(asize);
      for i := index to LIST_NUM
        invariant forall i' :: index <= i' < i ==> TooSmall(blocks, lists, i', |lists[i']|, asize)
      {
        ghost var k := 0;
        bp := freeListp[i];
        ListStep(blocks, mem.brk, mem.data[..], freeListp[..], lists, i, 0);
        NoneBefore(blocks, lists, i, asize);
        while bp != 0
          invariant 0 <= k <= |lists[i]| && bp == At(lists[i], k) && TooSmall(blocks, lists, i, k, asize)
          decreases |lists[i]| - k
        {
          ListStep(blocks, mem.brk, mem.data[..], freeListp[..], lists, i, k);
          var size := SizeOf(bp);
          if asize <= size {
            return;
          }
          OneMoreTooSmall(blocks, lists, i, k, asize);
          bp := GetSucc(bp);
          k := k + 1;
        }
        ListEnd(blocks, mem.brk, mem.data[..], freeListp[..], lists, i, k);
      }
      bp := 0;
      NoFit(blocks, lists, asize);
    }

    // mm_malloc, for the requests that take its general path
    method Malloc(size: int) returns (bp: int)
      requires Valid() && GeneralPath(size)
      modifies this`blocks, this`lists, mem`brk, mem.data, freeListp
      ensures Valid() && old(mem.brk) <= mem.brk <= old(mem.brk) + Extension(size)
      ensures bp == 0 ==> Contents() == old(Contents()) && mem.brk == old(mem.brk)
      ensures bp != 0 ==> Allocated(old(Contents()), Contents(), bp, size)
      ensures bp == 0 <==> size == 0 || (NothingFits(old(blocks), AdjustedSize(size)) && OutOfMemory(old(mem.brk), size))
      ensures bp != 0 ==> Snug(bp, size)
      ensures bp != 0 ==> if NothingFits(old(blocks), AdjustedSize(size))
                          then mem.brk == old(mem.brk) + Extension(size) && AtEnd(old(blocks), old(mem.brk), bp)
                          else mem.brk == old(mem.brk) && FirstFit(old(blocks), old(lists), AdjustedSize(size), bp) &&
                               blocks == PlacedIn(old(blocks), bp, AdjustedSize(size))
    {
      hide Consistent, Complete, NoAdjacentFree, Live, NothingFits, SameAllocated, Allocated, FirstFit, Split, PlacedIn;
      hide AdjustedSize, Snug;
      if size == 0 {
        return 0;
      }
      var asize := AdjustedSize(size);
      ghost var live := Contents();
      bp := FindFit(asize);
      if bp != 0 {
        Fits(blocks, lists, asize, bp);
        Place(bp, asize);
        AllocatedLess(live, Contents(), bp, asize - 8, size);
        IsSnug(bp, size);
        return;
      }
      var extendSize := if asize > CHUNK_SIZE then asize else CHUNK_SIZE;
      EvenWords(extendSize);
      bp := ExtendHeap(extendSize / 4);
      if bp == 0 {
        return 0;
      }
      Place(bp, asize);
      AllocatedLess(live, Contents(), bp, asize - 8, size);
      IsSnug(bp, size);
    }

    // The freeing part of mm_free
    method Free(ptr: int)
      requires Valid() && ptr in Contents()
      modifies this`blocks, this`lists, mem.data, freeListp
      ensures Valid() && Contents() == old(Contents()) - {ptr}
    {
      hide Shape, Tagged, Placed, AllLinked, Complete, NoAdjacentFree, Live, Listed, TagOk, SameOutside, OnlyTags;
      LiveSize(mem.data[..], blocks, mem.brk, ptr);
      AllocatedUnlisted(blocks, lists, ptr);
      var size := SizeOf(ptr);
      ghost var m := mem.data[..];
      PutTags(ptr, size, false);
      ghost var m1 := mem.data[..];
      PutAddr(mem.data, ptr, 0);
      ghost var m2 := mem.data[..];
      PutAddr(mem.data, ptr + 8, 0);
      FreedBytes(m, m1, m2, mem.data[..], ptr, size);
      RetagMove(m, mem.data[..], freeListp[..], blocks, lists, mem.brk, ptr, false);
      RetagFree(blocks, lists, ptr, false);
      blocks := blocks[ptr := Block(size, false)];
      FreeNotLive(mem.data[..], blocks, ptr);
      var r := Coalesce(ptr);
    }

    // mm_free with its tests of the marker bytes, which lie in client data: the block is freed exactly if
    // neither byte is 255; otherwise one of the bytes is cleared and the block stays.
    method FreeUnlessMarked(ptr: int) returns (freed: bool)
      requires Valid() && ptr in Contents() && 0 <= ptr <= MAX_HEAP - 8192
      modifies this`blocks, this`lists, mem.data, freeListp
      ensures freed <==> old(mem.data[ptr + 4095]) != 255 && old(mem.data[ptr + 8191]) != 255
      ensures freed ==> Valid() && Contents() == old(Contents()) - {ptr}
      ensures !freed ==> blocks == old(blocks) && freeListp[..] == old(freeListp[..])
      ensures !freed ==> mem.data[..] == old(mem.data[..])[if old(mem.data[ptr + 4095]) == 255 then ptr + 4095 else ptr + 8191 := 0]
    {
      hide Consistent, Complete, NoAdjacentFree, Live;
      if mem.data[ptr + 4095] == 255 {
        mem.data[ptr + 4095] := 0;
        return false;
      }
      if mem.data[ptr + 8191] == 255 {
        mem.data[ptr + 8191] := 0;
        return false;
      }
      Free(ptr);
      return true;
    }

    // The writes of mm_realloc's splits: tags for `size` bytes at `ptr` and for a free rest, whose links are cleared
    method PutTail(ptr: int, size: int, rest: int)
      requires 4 <= ptr && MIN_BLOCK <= size && MIN_BLOCK <= rest && size + rest < WORD_LIMIT && size % 8 == 0 && rest % 8 == 0
      requires ptr + size + rest - 4 <= mem.data.Length
      modifies mem.data
      ensures SameOutside(old(mem.data[..]), mem.data[..], ptr - 4, ptr + size + rest - 4)
      ensures TagOk(mem.data[..], ptr, Block(size, true)) && TagOk(mem.data[..], ptr + size, Block(rest, false))
      ensures forall a :: ptr <= a < ptr + size - 8 ==> mem.data[a] == old(mem.data[a])
    {
      hide TagOk, SameOutside, OnlyTags;
      ghost var m := mem.data[..];
      PutTags(ptr, size, true);
      ghost var m1 := mem.data[..];
      var bp := ptr + size;
      PutTags(bp, rest, false);
      ghost var m2 := mem.data[..];
      PutAddr(mem.data, bp, 0);
      ghost var m3 := mem.data[..];
      PutAddr(mem.data, bp + 8, 0);
      CutBytes(m, m1, m2, m3, mem.data[..], ptr, size, rest);
      assert forall a :: ptr <= a < ptr + size - 8 ==> mem.data[..][a] == m[a];
    }

    // The tail of mm_realloc's splits: `ptr` is cut down to `asize` bytes of the `total` it spans with
    // `next`, a free block just taken off its list, and the rest becomes a free block.
    method CutTail(ptr: int, asize: int, total: int, ghost next: int)
      requires Core() && ptr in Contents() && FreeBlock(blocks, next) && next == Next(blocks, ptr)
      requires Complete(blocks, lists, {next}) && NoAdjacentFree(blocks, {})
      requires total == blocks[ptr].size + blocks[next].size && asize % 8 == 0 && MIN_BLOCK <= asize <= total - MIN_BLOCK
      modifies this`blocks, this`lists, mem.data, freeListp
      ensures Valid() && Resized(old(Contents()), Contents(), ptr, asize - 8)
      ensures ptr in blocks && blocks[ptr].size == asize
    {
      hide ListedAt, Removed, Inserted, BlockIndex;
      hide Shape, Tagged, Placed, AllLinked, Complete, NoAdjacentFree, Live, Listed, TagOk, SameOutside, OnlyTags;
      hide Split, Merge, Resized, NewlyListed;
      ghost var b, m := blocks, mem.data[..];
      LiveSize(m, b, mem.brk, ptr);
      FreeBounds(b, mem.brk, next);
      MergedSize(b, ptr);
      HoleUnlisted(b, lists, next);
      AllocatedUnlisted(b, lists, ptr);
      var rest := ptr + asize;
      PutTail(ptr, asize, total - asize);
      MergeSplitMove(m, mem.data[..], freeListp[..], b, lists, mem.brk, ptr, asize);
      AbsorbFree(b, mem.brk, lists, ptr);
      MergeShape(b, mem.brk, ptr, true);
      SplitFree(Merge(b, ptr, true), mem.brk, ptr, asize);
      AllocatedNoHole(Merge(b, ptr, true), lists, ptr);
      SplitComplete(Merge(b, ptr, true), mem.brk, lists, ptr, asize);
      SplitFront(Merge(b, ptr, true), ptr, asize);
      blocks := Split(Merge(b, ptr, true), ptr, asize);
      ResizedInPlace(m, mem.data[..], b, blocks, mem.brk, ptr);
      ghost var l := lists;
      InsertBlock(rest);
      InsertComplete(blocks, l, lists, rest);
    }

    // mm_realloc to a smaller size, with the rest large enough for a block of its own
    method Shrink(ptr: int, asize: int)
      requires Valid() && ptr in Contents()
      requires asize % 8 == 0 && MIN_BLOCK <= asize <= blocks[ptr].size - MIN_BLOCK
      modifies this`blocks, this`lists, mem.data, freeListp
      ensures Valid() && Resized(old(Contents()), Contents(), ptr, asize - 8)
      ensures ptr in blocks && blocks[ptr].size == asize
    {
      hide ListedAt, Removed, Inserted, BlockIndex;
      hide Shape, Tagged, Placed, AllLinked, Complete, NoAdjacentFree, Live, Listed, TagOk, SameOutside, OnlyTags;
      hide Split, Resized, NewlyListed, Unlisted;
      ghost var b, m, l := blocks, mem.data[..], lists;
      LiveSize(m, b, mem.brk, ptr);
      AllocatedUnlisted(b, lists, ptr);
      var csize := SizeOf(ptr);
      var next := NextBlkp(ptr);
      var nextAlloc := IsAllocated(next);
      if nextAlloc {
        var rest := ptr + asize;
        PutTail(ptr, asize, csize - asize);
        SplitMove(m, mem.data[..], freeListp[..], b, lists, mem.brk, ptr, asize);
        SplitFree(b, mem.brk, ptr, asize);
        AllocatedNoHole(b, lists, ptr);
        SplitComplete(b, mem.brk, lists, ptr, asize);
        SplitFront(b, ptr, asize);
        blocks := Split(b, ptr, asize);
        ResizedInPlace(m, mem.data[..], b, blocks, mem.brk, ptr);
        InsertBlock(rest);
        InsertComplete(blocks, l, lists, rest);
      } else {
        FreeListed(b, lists, next);
        FreeBounds(b, mem.brk, next);
        RemoveBlock(next);
        RemoveComplete(b, l, lists, next);
        var nextSize := SizeOf(next);
        CutTail(ptr, asize, csize + nextSize, next);
      }
    }

    // mm_realloc takes in the free block after `ptr`, whose size brings `ptr` to `total` bytes.
    method GrowInto(ptr: int, asize: int, total: int)
      requires Valid() && ptr in Contents() && FreeBlock(blocks, Next(blocks, ptr))
      requires total == blocks[ptr].size + blocks[Next(blocks, ptr)].size
      requires asize % 8 == 0 && blocks[ptr].size < asize <= total
      modifies this`blocks, this`lists, mem.data, freeListp
      ensures Valid() && Resized(old(Contents()), Contents(), ptr, asize - 8)
      ensures ptr in blocks && blocks[ptr].size == Trim(total, asize)
    {
      hide ListedAt, Removed, Inserted, BlockIndex;
      hide Shape, Tagged, Placed, AllLinked, Complete, NoAdjacentFree, Live, Listed, TagOk, SameOutside, OnlyTags;
      hide Merge, Resized, Unlisted;
      ghost var b, l := blocks, lists;
      LiveSize(mem.data[..], b, mem.brk, ptr);
      AllocatedUnlisted(b, lists, ptr);
      var next := NextBlkp(ptr);
      FreeListed(b, lists, next);
      FreeBounds(b, mem.brk, next);
      RemoveBlock(next);
      RemoveComplete(b, l, lists, next);
      if total - asize < MIN_BLOCK {
        ghost var live := Contents();
        TakeIn(ptr, total, next);
        ResizedLess(live, Contents(), ptr, total - 8, asize - 8);
      } else {
        CutTail(ptr, asize, total, next);
      }
    }

    // `ptr` takes in all of `next`, a free block just taken off its list.
    method TakeIn(ptr: int, total: int, ghost next: int)
      requires Core() && ptr in Contents() && FreeBlock(blocks, next) && next == Next(blocks, ptr)
      requires Complete(blocks, lists, {next}) && NoAdjacentFree(blocks, {})
      requires total == blocks[ptr].size + blocks[next].size
      modifies this`blocks, mem.data
      ensures Valid() && Resized(old(Contents()), Contents(), ptr, total - 8)
      ensures ptr in blocks && blocks[ptr].size == total
    {
      hide Shape, Tagged, Placed, AllLinked, Complete, NoAdjacentFree, Live, Listed, TagOk, SameOutside, OnlyTags;
      hide Merge, Resized;
      ghost var b, m := blocks, mem.data[..];
      LiveSize(m, b, mem.brk, ptr);
      FreeBounds(b, mem.brk, next);
      HoleUnlisted(b, lists, next);
      AllocatedUnlisted(b, lists, ptr);
      PutTags(ptr, total, true);
      OneTag(m, mem.data[..], ptr, total);
      MergedSize(b, ptr);
      MergeMove(m, mem.data[..], freeListp[..], b, lists, mem.brk, ptr, true);
      AbsorbFree(b, mem.brk, lists, ptr);
      blocks := Merge(b, ptr, true);
      ResizedInPlace(m, mem.data[..], b, blocks, mem.brk, ptr);
    }

    // memcpy(newptr, ptr, csize - DSIZE) from one live block to another
    method CopyPayload(newptr: int, ptr: int, csize: int)
      requires Valid() && ptr in Contents() && newptr in Contents() && ptr != newptr
      requires ptr in blocks && newptr in blocks && csize == blocks[ptr].size <= blocks[newptr].size
      modifies mem.data
      ensures Valid() && newptr in Contents() && |Contents()[newptr]| == |old(Contents()[newptr])|
      ensures Contents() - {newptr} == old(Contents()) - {newptr} && old(Contents()[ptr]) <= Contents()[newptr]
    {
      hide Shape, Tagged, Placed, AllLinked, Complete, NoAdjacentFree, Live, SameOutside;
      ghost var m := mem.data[..];
      LiveSize(m, blocks, mem.brk, ptr);
      LiveSize(m, blocks, mem.brk, newptr);
      LiveDisjoint(m, blocks, mem.brk, ptr, newptr);
      Copy(mem.data, newptr, ptr, csize - 8);
      WiderOutside(m, mem.data[..], newptr, newptr + csize - 8, newptr + blocks[newptr].size - 8);
      PayloadMove(m, mem.data[..], freeListp[..], blocks, lists, mem.brk, newptr);
      LiveSize(mem.data[..], blocks, mem.brk, newptr);
    }

    // mm_realloc allocates a new block, copies the payload and frees the old block.
    method Move(ptr: int, size: int, csize: int) returns (newptr: int)
      requires Valid() && GeneralSize(size) && ptr in Contents() && csize == blocks[ptr].size < AdjustedSize(size)
      modifies this`blocks, this`lists, mem`brk, mem.data, freeListp
      ensures Valid() && old(mem.brk) <= mem.brk <= old(mem.brk) + Extension(size)
      ensures newptr == 0 ==> mem.brk == old(mem.brk)
      ensures newptr == 0 ==> Contents() == old(Contents()) && OutOfMemory(mem.brk, size)
      ensures newptr != 0 ==> Moved(old(Contents()), Contents(), ptr, newptr, size) && Snug(newptr, size)
    {
      hide Shape, Tagged, Placed, AllLinked, Complete, NoAdjacentFree, Live, SameOutside, Allocated, Moved, NothingFits;
      ghost var live := Contents();
      LiveSize(mem.data[..], blocks, mem.brk, ptr);
      newptr := Malloc(size);
      if newptr == 0 {
        return 0;
      }
      ghost var live1 := Contents();
      AllocatedKeeps(live, live1, newptr, size, ptr);
      LiveSize(mem.data[..], blocks, mem.brk, ptr);
      LiveSize(mem.data[..], blocks, mem.brk, newptr);
      if newptr != ptr {
        CopyPayload(newptr, ptr, csize);
      }
      ghost var live2 := Contents();
      StillIn(live1, live2, newptr, ptr);
      Free(ptr);
      MoveSteps(live, live1, live2, Contents(), ptr, newptr, size);
    }

    // GET_SIZE(HDRP(bp)) == 0 && GET_ALLOC(HDRP(bp))
    method AtEpilogue(bp: int) returns (b: bool)
      requires Core() && (bp in blocks || bp == mem.brk)
      ensures b <==> bp == mem.brk
    {
      hide Tagged, Placed, AllLinked;
      var size := SizeOf(bp);
      var alloc := IsAllocated(bp);
      b := size == 0 && alloc;
    }

    // The guards of mm_realloc on a free block of `lo` + 1 to `hi` bytes between `ptr` and the epilogue
    method FreeTail(ptr: int, lo: int, hi: int) returns (b: bool)
      requires Core() && ptr in blocks && Next(blocks, ptr) in blocks && 0 <= lo
      ensures b <==> SecondLast(blocks, mem.brk, ptr) && lo < blocks[Next(blocks, ptr)].size <= hi
    {
      hide Tagged, Placed, AllLinked, Shape;
      var next := NextBlkp(ptr);
      var size := SizeOf(next);
      if size > lo && size <= hi {
        var nextnext := NextBlkp(next);
        b := AtEpilogue(nextnext);
      } else {
        b := false;
      }
    }

    // extend_heap(CHUNKSIZE/WSIZE) behind a live block at the end of the heap; `ok` is false when it fails.
    method Lengthen(ptr: int) returns (ok: bool)
      requires Valid() && ptr in blocks && blocks[ptr].alloc
      requires Last(blocks, mem.brk, ptr) || SecondLast(blocks, mem.brk, ptr)
      modifies this`blocks, this`lists, mem`brk, mem.data, freeListp
      ensures Valid() && Contents() == old(Contents())
      ensures if ok then mem.brk == old(mem.brk) + CHUNK_SIZE
              else mem.brk == old(mem.brk) && MAX_HEAP < mem.brk + CHUNK_SIZE && blocks == old(blocks)
      ensures ptr in blocks && blocks[ptr] == old(blocks[ptr])
      ensures ok ==> Next(blocks, ptr) in blocks
      ensures ok && Last(old(blocks), old(mem.brk), ptr) ==> blocks[Next(blocks, ptr)].size >= CHUNK_SIZE
      ensures ok && SecondLast(old(blocks), old(mem.brk), ptr) ==>
                blocks[Next(blocks, ptr)].size >= old(blocks[Next(blocks, ptr)].size)
      ensures ok ==> Plain(blocks, ptr) == old(Plain(blocks, ptr)) + if old(GrowsAtEnd(blocks, mem.brk, ptr)) then CHUNK_SIZE else 0
      ensures ok ==> GrowsAtEnd(blocks, mem.brk, ptr) == old(GrowsAtEnd(blocks, mem.brk, ptr))
    {
      hide Shape, Tagged, Placed, AllLinked, Complete, NoAdjacentFree, Live, SameAllocated, FreeBlock, Last, SecondLast;
      hide Plain, GrowsAtEnd;
      ghost var b, brk := blocks, mem.brk;
      BlockEnd(b, brk, ptr);
      var r := ExtendHeap(CHUNK_SIZE / 4);
      ok := r != 0;
      if ok {
        StillAllocated(b, blocks, mem.brk, ptr);
        LengthenedNext(b, blocks, brk, mem.brk, ptr);
        LengthenedPlain(b, blocks, brk, mem.brk, ptr);
      }
    }

    // The second and third guard of mm_realloc: extend the heap when the last block is one of `lo` + 1 to `hi`
    // bytes right behind `ptr`, and the first block is one of 24 bytes or is not, as `marked` says.
    method ExtendTail(ptr: int, marked: bool, lo: int, hi: int) returns (ok: bool)
      requires Valid() && ptr in blocks && blocks[ptr].alloc && Next(blocks, ptr) in blocks && 0 <= lo
      modifies this`blocks, this`lists, mem`brk, mem.data, freeListp
      ensures Valid() && Contents() == old(Contents()) && ptr in blocks && blocks[ptr] == old(blocks[ptr])
      ensures var guard := old((FirstSize() == 24) == marked && SecondLast(blocks, mem.brk, ptr)
                               && lo < blocks[Next(blocks, ptr)].size <= hi);
              && (if ok then mem.brk == old(mem.brk) + (if guard then CHUNK_SIZE else 0)
                  else mem.brk == old(mem.brk) && guard && MAX_HEAP < mem.brk + CHUNK_SIZE)
              && (ok ==> Next(blocks, ptr) in blocks && blocks[Next(blocks, ptr)].size >= old(blocks[Next(blocks, ptr)].size))
              && (ok ==> Plain(blocks, ptr) ==
                         old(Plain(blocks, ptr)) + if guard && old(GrowsAtEnd(blocks, mem.brk, ptr)) then CHUNK_SIZE else 0)
              && (ok ==> GrowsAtEnd(blocks, mem.brk, ptr) == old(GrowsAtEnd(blocks, mem.brk, ptr)))
              && (ok && !guard ==> blocks == old(blocks))
    {
      hide Shape, Tagged, Placed, AllLinked, Complete, NoAdjacentFree, Live, Plain, GrowsAtEnd, SecondLast;
      ok := true;
      ShapeBrk(blocks, mem.brk);
      var first := NextBlkp(heapListp);
      var firstSize := SizeOf(first);
      var tail := FreeTail(ptr, lo, hi);
      if (firstSize == 24) == marked && tail {
        ok := Lengthen(ptr);
      }
    }

    // The heap extensions mm_realloc makes before it looks at the next block, of which one at most takes
    // place; `ok` is false when it fails.
    method MakeRoom(ptr: int) returns (ok: bool)
      requires Valid() && ptr in blocks && blocks[ptr].alloc
      modifies this`blocks, this`lists, mem`brk, mem.data, freeListp
      ensures Valid() && Contents() == old(Contents()) && ptr in blocks && blocks[ptr] == old(blocks[ptr])
      ensures if ok then mem.brk == old(mem.brk) + (if old(ExtendsFirst(ptr)) then CHUNK_SIZE else 0)
              else mem.brk == old(mem.brk) && old(ExtendsFirst(ptr)) && MAX_HEAP < mem.brk + CHUNK_SIZE
      ensures ok ==> Next(blocks, ptr) in blocks && Plain(blocks, ptr) == old(Spare(ptr))
      ensures ok ==> GrowsAtEnd(blocks, mem.brk, ptr) == old(GrowsAtEnd(blocks, mem.brk, ptr))
    {
      hide Consistent, Complete, NoAdjacentFree, Live, Plain, GrowsAtEnd, SecondLast;
      NotBehindLast(ptr);
      ok := true;
      var next := NextBlkp(ptr);
      var atEnd := AtEpilogue(next);
      if atEnd {
        ok := Lengthen(ptr);
        if !ok {
          return;
        }
      }
      ok := ExtendTail(ptr, false, 600, 1000);
      if !ok {
        return;
      }
      ok := ExtendTail(ptr, true, 48, 88);
    }

    lemma NotBehindLast(ptr: int)
      requires Core() && ptr in blocks
      ensures Tiled() && (Next(blocks, ptr) in blocks || Next(blocks, ptr) == mem.brk)
      ensures Last(blocks, mem.brk, ptr) ==> !SecondLast(blocks, mem.brk, ptr) && Next(blocks, ptr) !in blocks
    {
      hide Tagged, Placed, AllLinked;
      NotBoth(blocks, mem.brk, ptr);
    }

    lemma FitsAsIs(ptr: int, size: int)
      requires Valid() && ptr in Contents() && 0 <= size <= |Contents()[ptr]|
      ensures ptr in blocks && AdjustedSize(size) <= blocks[ptr].size <= Reach(ptr)
    {
      hide Shape, Tagged, Placed, AllLinked, Complete, NoAdjacentFree, Live;
      LiveSize(mem.data[..], blocks, mem.brk, ptr);
      ReachAtLeast(blocks, mem.brk, ptr, CHUNK_SIZE);
    }

    // mm_realloc.  It stays in place exactly if the block, a free block behind it and the heap extensions made
    // there are large enough; then it extends the heap no more than that takes.
    method Realloc(ptr: int, size: int) returns (r: int)
      requires Valid() && SmallEnough(size)
      requires ptr in Contents() || (ptr == 0 && size != 0)
      requires if ptr == 0 then GeneralPath(size) else GeneralSize(size) || (ptr in blocks && AdjustedSize(size) <= Reach(ptr))
      modifies this`blocks, this`lists, mem`brk, mem.data, freeListp
      ensures Valid() && old(mem.brk) <= mem.brk <= old(mem.brk) + 2 * CHUNK_SIZE + Extension(size)
      ensures r == 0 ==> mem.brk <= old(mem.brk) + 2 * CHUNK_SIZE
      ensures ptr != 0 && size <= |old(Contents()[ptr])| ==> r == ptr && mem.brk == old(mem.brk)
      ensures size == 0 ==> r == ptr && Contents() == old(Contents()) - {ptr}
      ensures ptr == 0 ==> if r == 0 then Contents() == old(Contents()) && OutOfMemory(mem.brk, size)
                           else Allocated(old(Contents()), Contents(), r, size)
      ensures ptr != 0 && size != 0 ==>
                if r == 0 then Contents() == old(Contents()) && OutOfMemory(mem.brk, size)
                else if r == ptr then Resized(old(Contents()), Contents(), ptr, size)
                else Moved(old(Contents()), Contents(), ptr, r, size)
      ensures r != 0 && size != 0 ==> Snug(r, size)
      ensures ptr != 0 && size != 0 ==>
                && ptr in old(blocks)
                && (r != 0 ==> (r == ptr <==> AdjustedSize(size) <= old(Reach(ptr))))
                && (r == 0 && AdjustedSize(size) <= old(Reach(ptr)) ==> MAX_HEAP < mem.brk + CHUNK_SIZE)
                && (r == 0 && AdjustedSize(size) <= old(Spare(ptr)) ==> old(ExtendsFirst(ptr)))
                && (r == ptr ==> mem.brk == old(mem.brk) + old(Stretch(ptr, AdjustedSize(size))))
                && (r == ptr ==> |Contents()[ptr]| + 8 == Trim(old(Span(ptr, AdjustedSize(size))), AdjustedSize(size)))
                && (r == ptr && |Contents()[ptr]| == |old(Contents()[ptr])| ==> Contents() == old(Contents()))
    {
      hide Shape, Tagged, Placed, AllLinked, Complete, NoAdjacentFree, Live, SameAllocated;
      hide Allocated, Resized, Moved, NothingFits, Snug, Plain, GrowsAtEnd, Speculates;
      NullNotLive(mem.data[..], blocks, mem.brk);
      if size == 0 {
        Free(ptr);
        return ptr;
      }
      if ptr == 0 {
        r := Malloc(size);
        return;
      }
      LiveSize(mem.data[..], blocks, mem.brk, ptr);
      ReachAtLeast(blocks, mem.brk, ptr, CHUNK_SIZE);
      ghost var live := Contents();
      var csize := SizeOf(ptr);
      var asize := AdjustedSize(size);
      if csize >= asize && csize < asize + 24 {
        SameResized(live, ptr, size);
        IsSnug(ptr, size);
        return ptr;
      } else if csize >= asize + 24 {
        Shrink(ptr, asize);
        ResizedLess(live, Contents(), ptr, asize - 8, size);
        IsSnug(ptr, size);
        return ptr;
      }
      var ok := MakeRoom(ptr);
      if !ok {
        return 0;
      }
      r := Grow(ptr, size, csize, asize);
    }

    // mm_realloc once the block after `ptr` is not the epilogue
    method Grow(ptr: int, size: int, csize: int, asize: int) returns (r: int)
      requires Valid() && SmallEnough(size) && size != 0 && asize == AdjustedSize(size)
      requires ptr in Contents() && ptr in blocks && csize == blocks[ptr].size < asize && Next(blocks, ptr) in blocks
      requires GeneralSize(size) || asize <= Plain(blocks, ptr) + if GrowsAtEnd(blocks, mem.brk, ptr) then CHUNK_SIZE else 0
      modifies this`blocks, this`lists, mem`brk, mem.data, freeListp
      ensures Valid() && old(mem.brk) <= mem.brk <= old(mem.brk) + CHUNK_SIZE + Extension(size)
      ensures r == 0 ==> mem.brk <= old(mem.brk) + CHUNK_SIZE
      ensures if r == 0 then Contents() == old(Contents()) && OutOfMemory(mem.brk, size)
              else if r == ptr then Resized(old(Contents()), Contents(), ptr, size)
              else Moved(old(Contents()), Contents(), ptr, r, size)
      ensures r != 0 ==> Snug(r, size)
      ensures r != 0 ==>
                (r == ptr <==> asize <= old(Plain(blocks, ptr) + if GrowsAtEnd(blocks, mem.brk, ptr) then CHUNK_SIZE else 0))
      ensures r == 0 ==> asize > old(Plain(blocks, ptr))
      ensures r == 0 && old(GrowsAtEnd(blocks, mem.brk, ptr)) && asize <= old(Plain(blocks, ptr)) + CHUNK_SIZE ==>
                MAX_HEAP < mem.brk + CHUNK_SIZE
      ensures r == ptr ==> mem.brk == old(mem.brk) + if asize <= old(Plain(blocks, ptr)) then 0 else CHUNK_SIZE
      ensures r == ptr ==> |Contents()[ptr]| + 8 ==
                           Trim(old(Plain(blocks, ptr)) + if asize <= old(Plain(blocks, ptr)) then 0 else CHUNK_SIZE, asize)
    {
      hide Shape, Tagged, Placed, AllLinked, Complete, NoAdjacentFree, Live, SameAllocated;
      hide Resized, Moved, Snug;
      ghost var live := Contents();
      LiveSize(mem.data[..], blocks, mem.brk, ptr);
      NotBoth(blocks, mem.brk, ptr);
      var next := NextBlkp(ptr);
      var nextAlloc := IsAllocated(next);
      if !nextAlloc {
        var nextSize := SizeOf(next);
        var total := csize + nextSize;
        if total >= asize {
          GrowInto(ptr, asize, total);
          ResizedLess(live, Contents(), ptr, asize - 8, size);
          IsSnug(ptr, size);
          return ptr;
        }
        var nextnext := NextBlkp(next);
        var atEnd := AtEpilogue(nextnext);
        if atEnd {
          var ok := Lengthen(ptr);
          if !ok {
            return 0;
          }
          NotBoth(blocks, mem.brk, ptr);
          total := total + CHUNK_SIZE;
          if total >= asize {
            GrowInto(ptr, asize, total);
            ResizedLess(live, Contents(), ptr, asize - 8, size);
            IsSnug(ptr, size);
            return ptr;
          }
        }
      }
      r := Move(ptr, size, csize);
      MovedElsewhere(live, Contents(), ptr, r, size);
    }

    // What mm_check takes for granted, as it follows sizes and SUCC links
    ghost predicate Checkable()
      reads this, mem, mem.data, freeListp
    {
      Fixed() && Walkable(mem.data[..], freeListp[..], blocks, lists, mem.brk)
    }

    lemma Checked()
      requires Checkable()
      ensures Tiled() && |lists| == LIST_NUM
      ensures Placed(blocks, lists) <==> AllFree(blocks, lists)
      ensures Valid() <==> AllFree(blocks, lists) && NoAdjacentFree(blocks, {}) && Complete(blocks, lists, {})
                           && BackUpTo(mem.data[..], lists, LIST_NUM)
    {
      hide Shape, Tagged, Placed, AllLinked, Complete, NoAdjacentFree, BlockIndex, Succ, Pred, BackUpTo, AllFree, Chain;
      WalkPlaced(blocks, mem.brk, mem.data[..], freeListp[..], lists);
      WalkLinked(blocks, mem.brk, mem.data[..], freeListp[..], lists);
    }

    // mm_check.  Among the heaps whose tags tile them and whose lists can be walked it accepts exactly those that
    // satisfy the whole invariant.
    method Check() returns (r: int)
      requires Checkable()
      ensures r == if Valid() then 0 else -1
    {
      hide Shape, Tagged, Placed, AllLinked, Complete, NoAdjacentFree, BackUpTo, AllFree, Walkable;
      Checked();
      var ok := CheckMarks();
      if !ok {
        return -1;
      }
      ok := CheckNeighbours();
      if !ok {
        return -1;
      }
      ok := CheckCounts();
      if !ok {
        return -1;
      }
      ok := CheckLinks();
      r := if ok then 0 else -1;
    }

    // The first pass of mm_check: the marks of the listed blocks
    method CheckMarks() returns (ok: bool)
      requires Checkable()
      ensures ok <==> AllFree(blocks, lists)
    {
      hide Walkable, Shape, Tagged, Succ;
      Checked();
      for i := 0 to LIST_NUM
        invariant forall i' :: 0 <= i' < i ==> FreeFront(blocks, lists[i'], |lists[i']|)
      {
        ghost var k := 0;
        WalkStep(blocks, mem.brk, mem.data[..], freeListp[..], lists, i, 0);
        var bp := freeListp[i];
        while bp != 0
          invariant 0 <= k <= |lists[i]| && bp == At(lists[i], k) && FreeFront(blocks, lists[i], k)
          decreases |lists[i]| - k
        {
          WalkStep(blocks, mem.brk, mem.data[..], freeListp[..], lists, i, k);
          var alloc := IsAllocated(bp);
          if alloc {
            assert !FreeFront(blocks, lists[i], |lists[i]|);
            return false;
          }
          bp := GetSucc(bp);
          k := k + 1;
        }
        WalkEnd(blocks, mem.brk, mem.data[..], freeListp[..], lists, i, k);
      }
      return true;
    }

    // The second pass, over the blocks and their neighbours
    method CheckNeighbours() returns (ok: bool)
      requires Checkable()
      ensures ok <==> NoAdjacentFree(blocks, {})
    {
      hide Walkable, Shape, Tagged, NoAdjacentFree, ApartBelow;
      Checked();
      ShapeBrk(blocks, mem.brk);
      ApartAll(blocks, mem.brk);
      var bp := heapListp;
      var size := SizeOf(bp);
      while size > 0
        invariant (bp in blocks || bp == mem.brk) && size == (if bp in blocks then blocks[bp].size else 0)
        invariant ApartBelow(blocks, bp)
        decreases mem.brk - bp
      {
        BlockEnd(blocks, mem.brk, bp);
        OneMoreApart(blocks, mem.brk, bp);
        var alloc := IsAllocated(bp);
        var next := NextBlkp(bp);
        var nextAlloc := IsAllocated(next);
        if !alloc && !nextAlloc {
          return false;
        }
        bp := next;
        size := SizeOf(bp);
      }
      AtBrk(blocks, mem.brk, bp);
      return true;
    }

    // The third pass, which counts free blocks and listed ones
    method CheckCounts() returns (ok: bool)
      requires Checkable() && AllFree(blocks, lists)
      ensures ok <==> Complete(blocks, lists, {})
    {
      hide Walkable, Shape, Tagged, Complete, Placed, Succ, FreeBelow, ListedUpTo, AllFree;
      Checked();
      var freeNum0, freeNum1 := 0, 0;
      ShapeBrk(blocks, mem.brk);
      NoneBelow(blocks, mem.brk);
      var bp := heapListp;
      var size := SizeOf(bp);
      while size > 0
        invariant (bp in blocks || bp == mem.brk) && size == (if bp in blocks then blocks[bp].size else 0)
        invariant freeNum0 == |FreeBelow(blocks, bp)|
        decreases mem.brk - bp
      {
        BlockEnd(blocks, mem.brk, bp);
        OneMoreBelow(blocks, mem.brk, bp);
        var alloc := IsAllocated(bp);
        if !alloc {
          freeNum0 := freeNum0 + 1;
        }
        bp := NextBlkp(bp);
        size := SizeOf(bp);
      }
      AtBrk(blocks, mem.brk, bp);
      NoneListedYet(blocks, lists);
      for i := 0 to LIST_NUM
        invariant freeNum1 == |ListedUpTo(blocks, lists, i, 0)|
      {
        ghost var k := 0;
        WalkStep(blocks, mem.brk, mem.data[..], freeListp[..], lists, i, 0);
        var q := freeListp[i];
        while q != 0
          invariant 0 <= k <= |lists[i]| && q == At(lists[i], k)
          invariant freeNum1 == |ListedUpTo(blocks, lists, i, k)|
          decreases |lists[i]| - k
        {
          WalkStep(blocks, mem.brk, mem.data[..], freeListp[..], lists, i, k);
          OneMoreListed(blocks, lists, i, k);
          freeNum1 := freeNum1 + 1;
          q := GetSucc(q);
          k := k + 1;
        }
        WalkEnd(blocks, mem.brk, mem.data[..], freeListp[..], lists, i, k);
        NextList(blocks, lists, i);
      }
      CountsAgree(blocks, mem.brk, lists);
      ok := freeNum0 == freeNum1;
    }

    // The last pass, over the PRED links
    method CheckLinks() returns (ok: bool)
      requires Checkable()
      ensures ok <==> BackUpTo(mem.data[..], lists, LIST_NUM)
    {
      hide Walkable, Shape, Tagged, Succ, Pred, BackFront;
      Checked();
      for i := 0 to LIST_NUM
        invariant BackUpTo(mem.data[..], lists, i)
      {
        ghost var k := 0;
        WalkStep(blocks, mem.brk, mem.data[..], freeListp[..], lists, i, 0);
        NoneBack(mem.data[..], lists[i]);
        var bp := freeListp[i];
        while bp != 0
          invariant 0 <= k <= |lists[i]| && bp == At(lists[i], k)
          invariant BackFront(mem.data[..], lists[i], if k == 0 then 0 else k + 1)
          decreases |lists[i]| - k
        {
          WalkStep(blocks, mem.brk, mem.data[..], freeListp[..], lists, i, 0);
          WalkStep(blocks, mem.brk, mem.data[..], freeListp[..], lists, i, k);
          WalkStep(blocks, mem.brk, mem.data[..], freeListp[..], lists, i, k + 1);
          BackLess(mem.data[..], lists[i], k);
          BackStep(blocks, mem.brk, mem.data[..], freeListp[..], lists, i, k);
          var headPred := GetPred(freeListp[i]);
          if 0 != headPred {
            return false;
          }
          var pred := GetPred(bp);
          var succ := GetSucc(bp);
          if pred == succ && 0 != pred {
            return false;
          }
          if 0 != succ {
            var back := GetPred(succ);
            if back != bp {
              return false;
            }
          }
          bp := succ;
          k := k + 1;
        }
        WalkEnd(blocks, mem.brk, mem.data[..], freeListp[..], lists, i, k);
        BackLess(mem.data[..], lists[i], k);
      }
      return true;
    }
  }
}
