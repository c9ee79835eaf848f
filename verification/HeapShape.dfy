/**
  What the bytes of the allocator's heap (lab7/mm.c) mean: a tiling by blocks with boundary tags,
  16 doubly linked lists threaded through the free blocks, and the payloads of the allocated ones.
  A block is named by its payload address.  Everything here is about values; the class
  Malloc.Allocator keeps such values as ghost fields next to the bytes.
 */
module HeapShape {
  import opened LittleEndian

  const LIST_NUM: int := 16
  const PROLOGUE: int := 8
  const MIN_BLOCK: int := 24

  datatype Block = Block(size: int, alloc: bool)

  type Blocks = map<int, Block>

  type Lists = seq<seq<int>>

  // PACK(size, alloc); `size` is a multiple of 8, so `|` is `+`.
  function Pack(size: int, alloc: bool): int {
    size + if alloc then 1 else 0
  }

  // get_block_index
  function BlockIndex(size: int): (i: int)
    ensures 0 <= i < LIST_NUM
  {
    if size <= 40 then 0
    else if size <= 128 then 1
    else if size <= 256 then 2
    else if size <= 512 then 3
    else if size <= 1024 then 4
    else if size <= 2048 then 5
    else if size <= 4096 then 6
    else if size <= 8192 then 7
    else if size <= 16384 then 8
    else if size <= 32768 then 9
    else if size <= 65536 then 10
    else if size <= 131072 then 11
    else if size <= 262144 then 12
    else if size <= 524288 then 13
    else if size <= 1048576 then 14
    else 15
  }

  ghost predicate FreeBlock(b: Blocks, p: int) {
    p in b && !b[p].alloc
  }

  // NEXT_BLKP
  ghost function Next(b: Blocks, p: int): int
    requires p in b
  {
    p + b[p].size
  }

  ghost predicate Aligned(b: Blocks, brk: int) {
    && 16 <= brk && brk % 8 == 0
    && PROLOGUE in b && b[PROLOGUE] == Block(8, true)
    && forall p :: p in b ==>
         && p % 8 == 0 && PROLOGUE <= p && p + b[p].size <= brk
         && b[p].size % 8 == 0 && (p == PROLOGUE || MIN_BLOCK <= b[p].size)
  }

  ghost predicate Apart(b: Blocks) {
    forall p, q :: p in b && q in b && p < q ==> p + b[p].size <= q
  }

  ghost predicate Chained(b: Blocks, brk: int) {
    forall p {:trigger Next(b, p)} :: p in b ==> Next(b, p) == brk || Next(b, p) in b
  }

  // The blocks tile PROLOGUE..brk: none overlaps another, and each ends where another starts or at
  // the epilogue.
  ghost predicate Shape(b: Blocks, brk: int) {
    Aligned(b, brk) && Apart(b) && Chained(b, brk)
  }

  // No two neighbours are free, unless one of them is among `holes`.
  ghost predicate NoAdjacentFree(b: Blocks, holes: set<int>) {
    forall p {:trigger Next(b, p)} :: FreeBlock(b, p) && FreeBlock(b, Next(b, p)) ==> p in holes || Next(b, p) in holes
  }

  // Header and footer of one block.
  ghost predicate TagOk(m: seq<Byte>, p: int, block: Block) {
    && 4 <= p && 8 <= block.size && p + block.size - 4 <= |m|
    && Word(m, p - 4) == Word(m, p + block.size - 8) == Pack(block.size, block.alloc)
  }

  // Every boundary tag in the heap, the epilogue's header included.
  ghost predicate Tagged(m: seq<Byte>, b: Blocks, brk: int) {
    && 4 <= brk <= |m| && Word(m, brk - 4) == Pack(0, true)
    && forall p :: p in b ==> TagOk(m, p, b[p])
  }

  // PRED(bp) and SUCC(bp), read as pointers.
  ghost function Pred(m: seq<Byte>, p: int): int {
    if 0 <= p <= |m| - 8 then Address(m, p) else 0
  }

  ghost function Succ(m: seq<Byte>, p: int): int {
    Pred(m, p + 8)
  }

  ghost function At(l: seq<int>, k: int): int {
    if 0 <= k < |l| then l[k] else 0
  }

  // The doubly linked list that starts at `head` is `l`.
  ghost predicate Linked(m: seq<Byte>, head: int, l: seq<int>) {
    && head == At(l, 0)
    && forall k :: 0 <= k < |l| ==> Pred(m, l[k]) == At(l, k - 1) && Succ(m, l[k]) == At(l, k + 1)
  }

  ghost predicate AllLinked(m: seq<Byte>, heads: seq<int>, lists: Lists) {
    && |heads| == |lists| == LIST_NUM
    && forall i :: 0 <= i < LIST_NUM ==> Linked(m, heads[i], lists[i])
  }

  // Every listed block is a free block of the class of its list, listed once.
  ghost predicate Placed(b: Blocks, lists: Lists) {
    && |lists| == LIST_NUM
    && (forall i, k :: 0 <= i < LIST_NUM && 0 <= k < |lists[i]| ==>
          lists[i][k] in b && !b[lists[i][k]].alloc && BlockIndex(b[lists[i][k]].size) == i)
    && (forall i, j, k :: 0 <= i < LIST_NUM && 0 <= j < k < |lists[i]| ==> lists[i][j] != lists[i][k])
  }

  ghost predicate Listed(lists: Lists, p: int) {
    exists i :: 0 <= i < |lists| && p in lists[i]
  }

  // The lists hold exactly the free blocks that are not among `holes`.
  ghost predicate Complete(b: Blocks, lists: Lists, holes: set<int>) {
    forall p :: Listed(lists, p) <==> FreeBlock(b, p) && p !in holes
  }

  // Bytes, blocks and lists agree.
  ghost predicate Consistent(m: seq<Byte>, heads: seq<int>, b: Blocks, lists: Lists, brk: int) {
    Shape(b, brk) && Tagged(m, b, brk) && Placed(b, lists) && AllLinked(m, heads, lists)
  }

  ghost predicate NewlyListed(lists: Lists, lists': Lists, p: int) {
    forall q :: Listed(lists', q) == (Listed(lists, q) || q == p)
  }

  ghost predicate Unlisted(lists: Lists, lists': Lists, removed: set<int>) {
    forall q :: Listed(lists', q) == (Listed(lists, q) && q !in removed)
  }

  ghost function Slice(m: seq<Byte>, lo: int, hi: int): seq<Byte> {
    if 0 <= lo <= hi <= |m| then m[lo..hi] else []
  }

  // What the allocator's clients see: each live pointer with the bytes of its payload.
  ghost function Live(m: seq<Byte>, b: Blocks): map<int, seq<Byte>> {
    map p | p in b && b[p].alloc && p != PROLOGUE :: Slice(m, p, p + b[p].size - 8)
  }

  lemma BlockIndexMonotone(small: int, large: int)
    ensures small <= large ==> BlockIndex(small) <= BlockIndex(large)
  {
  }

  // The largest size of a class but the last: 40 bytes, and then 128 doubled from class to class
  function ClassLimit(i: nat): int {
    if i == 0 then 40 else if i == 1 then 128 else 2 * ClassLimit(i - 1)
  }

  lemma ClassLimits(size: int, i: nat)
    requires i < LIST_NUM - 1
    ensures BlockIndex(size) <= i <==> size <= ClassLimit(i)
  {
    assert ClassLimit(4) == 1024;
    assert ClassLimit(7) == 8192;
    assert ClassLimit(10) == 65536;
    assert ClassLimit(13) == 524288;
  }

  // ---------- the tiling ----------

  // Every block but the prologue has a predecessor.
  lemma {:induction false} PreviousExists(b: Blocks, brk: int, from: int, p: int) returns (q: int)
    requires Shape(b, brk)
    requires from in b && (p in b || p == brk) && from < p
    ensures q in b && from <= q < p && Next(b, q) == p
    decreases p - from
  {
    if Next(b, from) == p {
      q := from;
    } else {
      q := PreviousExists(b, brk, Next(b, from), p);
    }
  }

  ghost predicate Within(b: Blocks, p: int, a: int) {
    p in b && p <= a < p + b[p].size
  }

  // The blocks cover the heap without overlap: every address from the prologue to the end of the heap, each
  // standing for the byte 4 before it, lies in exactly one block.
  lemma TilesHeap(b: Blocks, brk: int, a: int)
    requires Shape(b, brk) && PROLOGUE <= a < brk
    ensures exists p :: Within(b, p, a) && forall q :: Within(b, q, a) ==> q == p
  {
    var p := BlockAt(b, brk, PROLOGUE, a);
    forall q | Within(b, q, a) ensures q == p {
      assert Within(b, p, a);
    }
  }

  lemma {:induction false} BlockAt(b: Blocks, brk: int, from: int, a: int) returns (p: int)
    requires Shape(b, brk) && from in b && from <= a < brk
    ensures Within(b, p, a)
    decreases brk - from
  {
    if a < Next(b, from) {
      p := from;
    } else {
      p := BlockAt(b, brk, Next(b, from), a);
    }
  }

  ghost function Split(b: Blocks, p: int, size: int): Blocks
    requires p in b
  {
    b[p := Block(size, true)][p + size := Block(b[p].size - size, false)]
  }

  // The size of a block of `asize` bytes made where `total` are to be had: the rest is cut off if it makes a block.
  function Trim(total: int, asize: int): int {
    if total - asize >= MIN_BLOCK then asize else total
  }

  // place
  ghost function PlacedIn(b: Blocks, p: int, asize: int): Blocks
    requires p in b
  {
    if b[p].size - asize >= MIN_BLOCK then Split(b, p, asize) else b[p := Block(b[p].size, true)]
  }

  ghost function Merge(b: Blocks, p: int, alloc: bool): Blocks
    requires p in b && Next(b, p) in b
  {
    (b - {Next(b, p)})[p := Block(b[p].size + b[Next(b, p)].size, alloc)]
  }

  // What splitting and merging do to each block
  ghost predicate SplitInto(b: Blocks, b': Blocks, p: int, size: int) {
    && p in b && 0 < size < b[p].size
    && p in b' && b'[p] == Block(size, true) && p + size in b' && b'[p + size] == Block(b[p].size - size, false)
    && (forall q :: q in b && q != p ==> q in b' && (q != p + size ==> b'[q] == b[q]))
    && (forall q :: q in b' && q != p + size ==> q in b)
  }

  ghost predicate MergedInto(b: Blocks, b': Blocks, p: int, n: int, alloc: bool) {
    && p in b && n in b && p < n == Next(b, p)
    && p in b' && b'[p] == Block(b[p].size + b[n].size, alloc) && n !in b'
    && (forall q :: q in b && q != p && q != n ==> q in b' && b'[q] == b[q])
    && (forall q :: q in b' ==> q in b)
  }

  lemma SplitIs(b: Blocks, p: int, size: int)
    requires p in b && 0 < size < b[p].size
    ensures SplitInto(b, Split(b, p, size), p, size)
  {
  }

  lemma MergeIs(b: Blocks, p: int, alloc: bool)
    requires p in b && Next(b, p) in b && 0 < b[p].size
    ensures MergedInto(b, Merge(b, p, alloc), p, Next(b, p), alloc)
  {
  }

  // A block and the address where the next one starts
  lemma Alone(b: Blocks, brk: int, p: int, q: int)
    requires Shape(b, brk) && p in b && q in b
    ensures p < Next(b, p) && q < Next(b, q)
    ensures p <= q < Next(b, p) ==> q == p
    ensures q < p ==> Next(b, q) <= p
    ensures Next(b, p) == Next(b, q) ==> p == q
  {
    hide Chained;
  }

  lemma SplitApart(b: Blocks, p: int, size: int)
    requires Apart(b) && p in b && 0 < size < b[p].size
    ensures Apart(Split(b, p, size))
  {
  }

  lemma MergeApart(b: Blocks, p: int, alloc: bool)
    requires Apart(b) && p in b && Next(b, p) in b && 0 < b[p].size && 0 < b[Next(b, p)].size
    ensures Apart(Merge(b, p, alloc))
  {
  }

  lemma SplitAligned(b: Blocks, brk: int, p: int, size: int)
    requires Aligned(b, brk) && p in b && p != PROLOGUE
    requires size % 8 == 0 && MIN_BLOCK <= size <= b[p].size - MIN_BLOCK
    ensures Aligned(Split(b, p, size), brk)
  {
    hide Split;
    SplitIs(b, p, size);
    Multiples(p, size);
    Multiples(b[p].size, -size);
  }

  lemma Multiples(a: int, c: int)
    requires a % 8 == 0 && c % 8 == 0
    ensures (a + c) % 8 == 0
  {
  }

  lemma SplitChained(b: Blocks, brk: int, p: int, size: int)
    requires Chained(b, brk) && p in b && 0 < size < b[p].size
    ensures Chained(Split(b, p, size), brk)
  {
    var b' := Split(b, p, size);
    forall q {:trigger Next(b', q)} | q in b' ensures Next(b', q) == brk || Next(b', q) in b' {
      assert if q == p + size then Next(b', q) == Next(b, p) else q != p ==> Next(b', q) == Next(b, q);
    }
  }

  lemma SplitShape(b: Blocks, brk: int, p: int, size: int)
    requires Shape(b, brk) && p in b && p != PROLOGUE
    requires size % 8 == 0 && MIN_BLOCK <= size <= b[p].size - MIN_BLOCK
    ensures p + size !in b
    ensures Shape(Split(b, p, size), brk)
  {
    hide Aligned, Chained, Split;
    SplitAligned(b, brk, p, size);
    SplitApart(b, p, size);
    SplitChained(b, brk, p, size);
  }

  lemma MergeAligned(b: Blocks, brk: int, p: int, alloc: bool)
    requires Aligned(b, brk) && p in b && p != PROLOGUE && Next(b, p) in b && Next(b, p) != PROLOGUE
    ensures Aligned(Merge(b, p, alloc), brk)
  {
    hide Merge;
    assert b[p].size > 0;
    MergeIs(b, p, alloc);
    Multiples(b[p].size, b[Next(b, p)].size);
  }

  lemma MergeChained(b: Blocks, brk: int, p: int, alloc: bool)
    requires Shape(b, brk) && p in b && Next(b, p) in b && Next(b, p) > p
    ensures Chained(Merge(b, p, alloc), brk)
  {
    var b' := Merge(b, p, alloc);
    forall q {:trigger Next(b', q)} | q in b' ensures Next(b', q) == brk || Next(b', q) in b' {
      assert if q == p then Next(b', q) == Next(b, Next(b, p)) else Next(b', q) == Next(b, q);
    }
  }

  lemma MergeShape(b: Blocks, brk: int, p: int, alloc: bool)
    requires Shape(b, brk) && p in b && p != PROLOGUE && Next(b, p) in b
    ensures Shape(Merge(b, p, alloc), brk)
  {
    hide Apart, Chained, Merge;
    assert b[p].size > 0 && b[Next(b, p)].size > 0 && p > PROLOGUE;
    MergeAligned(b, brk, p, alloc);
    MergeApart(b, p, alloc);
    MergeChained(b, brk, p, alloc);
  }

  lemma RetagShape(b: Blocks, brk: int, p: int, alloc: bool)
    requires Shape(b, brk) && p in b && p != PROLOGUE
    ensures Shape(b[p := Block(b[p].size, alloc)], brk)
  {
    var b' := b[p := Block(b[p].size, alloc)];
    forall q {:trigger Next(b', q)} | q in b' ensures Next(b', q) == brk || Next(b', q) in b' {
      assert Next(b', q) == Next(b, q);
    }
  }

  lemma ExtendShape(b: Blocks, brk: int, size: int)
    requires Shape(b, brk)
    requires size % 8 == 0 && MIN_BLOCK <= size
    ensures Shape(b[brk := Block(size, false)], brk + size)
  {
    var b' := b[brk := Block(size, false)];
    forall q {:trigger Next(b', q)} | q in b' ensures Next(b', q) == brk + size || Next(b', q) in b' {
      if q != brk { assert Next(b', q) == Next(b, q); }
    }
  }

  // ---------- rewriting a region of the heap ----------

  // `b` and `b'` have the same blocks outside lo..hi, and no block of either straddles its ends.
  ghost predicate AgreeOutside(b: Blocks, b': Blocks, lo: int, hi: int) {
    && (forall q :: q in b && !(lo <= q < hi) ==> q in b' && b'[q] == b[q])
    && (forall q :: q in b' && !(lo <= q < hi) ==> q in b)
    && (forall q :: q in b ==> q + b[q].size <= lo || hi <= q || lo <= q < hi)
  }

  ghost predicate NoneListed(lists: Lists, lo: int, hi: int) {
    forall i, k :: 0 <= i < |lists| && 0 <= k < |lists[i]| ==> !(lo <= lists[i][k] < hi)
  }

  // Bytes of the region lo-4..hi-4 may change, provided the tags of the blocks put there are right.
  lemma RegionTagged(m: seq<Byte>, m': seq<Byte>, b: Blocks, b': Blocks, brk: int, lo: int, hi: int)
    requires Shape(b, brk) && Tagged(m, b, brk)
    requires lo <= hi <= brk && SameOutside(m, m', lo - 4, hi - 4) && AgreeOutside(b, b', lo, hi)
    requires forall q :: q in b' && lo <= q < hi ==> TagOk(m', q, b'[q])
    ensures Tagged(m', b', brk)
  {
    WordFrame(m, m', lo - 4, hi - 4, brk - 4);
    forall q | q in b' && !(lo <= q < hi) ensures TagOk(m', q, b'[q]) {
      assert TagOk(m, q, b[q]);
      WordFrame(m, m', lo - 4, hi - 4, q - 4);
      WordFrame(m, m', lo - 4, hi - 4, q + b[q].size - 8);
    }
  }

  lemma AddressFrame(m: seq<Byte>, m': seq<Byte>, lo: int, hi: int, p: int)
    requires SameOutside(m, m', lo, hi) && (p + 8 <= lo || hi <= p)
    ensures Pred(m', p) == Pred(m, p)
  {
    if 0 <= p <= |m| - 8 {
      WordFrame(m, m', lo, hi, p);
      WordFrame(m, m', lo, hi, p + 4);
    }
  }

  lemma RegionLinked(m: seq<Byte>, m': seq<Byte>, b: Blocks, brk: int, heads: seq<int>, lists: Lists, lo: int, hi: int)
    requires Shape(b, brk) && Placed(b, lists) && AllLinked(m, heads, lists)
    requires lo <= hi && SameOutside(m, m', lo - 4, hi - 4)
    requires forall q :: q in b ==> q + b[q].size <= lo || hi <= q || lo <= q < hi
    requires NoneListed(lists, lo, hi)
    ensures AllLinked(m', heads, lists)
  {
    forall i | 0 <= i < LIST_NUM ensures Linked(m', heads[i], lists[i]) {
      assert Linked(m, heads[i], lists[i]);
      forall k | 0 <= k < |lists[i]|
        ensures Pred(m', lists[i][k]) == Pred(m, lists[i][k]) && Succ(m', lists[i][k]) == Succ(m, lists[i][k])
      {
        AddressFrame(m, m', lo - 4, hi - 4, lists[i][k]);
        AddressFrame(m, m', lo - 4, hi - 4, lists[i][k] + 8);
      }
    }
  }

  lemma RegionPlaced(b: Blocks, b': Blocks, lists: Lists, lo: int, hi: int)
    requires Placed(b, lists) && AgreeOutside(b, b', lo, hi) && NoneListed(lists, lo, hi)
    ensures Placed(b', lists)
  {
  }

  // Payloads outside the region stay what they were.
  lemma RegionLive(m: seq<Byte>, m': seq<Byte>, b: Blocks, b': Blocks, lo: int, hi: int)
    requires forall q :: q in b ==> PROLOGUE <= q && 8 <= b[q].size && q + b[q].size <= |m|
    requires lo <= hi && SameOutside(m, m', lo - 4, hi - 4) && AgreeOutside(b, b', lo, hi)
    ensures forall q :: !(lo <= q < hi) ==>
              (q in Live(m', b') <==> q in Live(m, b)) && (q in Live(m, b) ==> Live(m', b')[q] == Live(m, b)[q])
  {
    forall q | !(lo <= q < hi) && q in b
      ensures Slice(m', q, q + b[q].size - 8) == Slice(m, q, q + b[q].size - 8)
    {
    }
  }

  // Only the boundary tags of a block of `size` bytes at `p` may differ.
  ghost predicate OnlyTags(m: seq<Byte>, m': seq<Byte>, p: int, size: int) {
    && |m'| == |m|
    && forall a :: 0 <= a < |m| && !(p - 4 <= a < p) && !(p + size - 8 <= a < p + size - 4) ==> m'[a] == m[a]
  }

  // The links of every free block outside `preds`, respectively `succs`, are what they were.
  ghost predicate LinksKept(b: Blocks, m: seq<Byte>, m': seq<Byte>, preds: set<int>, succs: set<int>) {
    && (forall q :: FreeBlock(b, q) && q !in preds ==> Pred(m', q) == Pred(m, q))
    && (forall q :: FreeBlock(b, q) && q !in succs ==> Succ(m', q) == Succ(m, q))
  }

  // ---------- rewriting one link ----------

  // Writing the PRED (at = p) or SUCC (at = p + 8) slot of a free block changes no other slot of a
  // free block, no tag and no payload.
  lemma LinkWritten(m: seq<Byte>, m': seq<Byte>, b: Blocks, brk: int, p: int, at: int)
    requires Shape(b, brk) && Tagged(m, b, brk) && brk <= |m|
    requires FreeBlock(b, p) && (at == p || at == p + 8) && SameOutside(m, m', at, at + 8)
    ensures Tagged(m', b, brk) && Live(m', b) == Live(m, b)
    ensures LinksKept(b, m, m', if at == p then {p} else {}, if at == p then {} else {p})
  {
    LinkKeepsTags(m, m', b, brk, p, at);
    LinkKeepsPayloads(m, m', b, brk, p, at);
    hide Word, Address, Tagged, Live;
    forall q | FreeBlock(b, q) && (at != p || q != p) ensures Pred(m', q) == Pred(m, q) {
      AddressFrame(m, m', at, at + 8, q);
    }
    forall q | FreeBlock(b, q) && (at == p || q != p) ensures Succ(m', q) == Succ(m, q) {
      AddressFrame(m, m', at, at + 8, q + 8);
    }
  }

  lemma LinkKeepsTags(m: seq<Byte>, m': seq<Byte>, b: Blocks, brk: int, p: int, at: int)
    requires Shape(b, brk) && Tagged(m, b, brk) && brk <= |m|
    requires FreeBlock(b, p) && (at == p || at == p + 8) && SameOutside(m, m', at, at + 8)
    ensures Tagged(m', b, brk)
  {
    hide Word;
    WordFrame(m, m', at, at + 8, brk - 4);
    forall q | q in b ensures TagOk(m', q, b[q]) {
      assert TagOk(m, q, b[q]);
      WordFrame(m, m', at, at + 8, q - 4);
      WordFrame(m, m', at, at + 8, q + b[q].size - 8);
    }
  }

  lemma LinkKeepsPayloads(m: seq<Byte>, m': seq<Byte>, b: Blocks, brk: int, p: int, at: int)
    requires Shape(b, brk) && brk <= |m|
    requires FreeBlock(b, p) && (at == p || at == p + 8) && SameOutside(m, m', at, at + 8)
    ensures Live(m', b) == Live(m, b)
  {
    hide Slice;
    forall q | q in b && b[q].alloc
      ensures Slice(m', q, q + b[q].size - 8) == Slice(m, q, q + b[q].size - 8)
    {
      SliceFrame(m, m', at, at + 8, q, q + b[q].size - 8);
    }
  }

  lemma SliceFrame(m: seq<Byte>, m': seq<Byte>, lo: int, hi: int, from: int, to: int)
    requires SameOutside(m, m', lo, hi) && (to <= lo || hi <= from)
    ensures Slice(m', from, to) == Slice(m, from, to)
  {
  }

  lemma PackParts(size: int, alloc: bool)
    requires size % 8 == 0
    ensures Pack(size, alloc) - Pack(size, alloc) % 8 == size
    ensures (Pack(size, alloc) % 2 == 1) == alloc
  {
    var k := size / 8;
    Remainders(k, if alloc then 1 else 0);
  }

  lemma Remainders(k: int, a: int)
    requires 0 <= a <= 1
    ensures (8 * k + a) % 8 == a && (8 * k + a) % 2 == a
  {
    Remainder8(k, a);
    Remainder2(4 * k, a);
  }

  lemma Remainder8(k: int, a: int)
    requires 0 <= a < 8
    ensures (8 * k + a) % 8 == a
  {
    var x := 8 * k + a;
    assert x == 8 * (x / 8) + x % 8;
  }

  lemma Remainder2(k: int, a: int)
    requires 0 <= a < 2
    ensures (2 * k + a) % 2 == a
  {
    var x := 2 * k + a;
    assert x == 2 * (x / 2) + x % 2;
  }

  // ---------- the free lists ----------

  ghost function NonNull(p: int): set<int> {
    if p == 0 then {} else {p}
  }

  ghost function Inserted(lists: Lists, i: int, p: int): Lists
    requires 0 <= i < |lists|
  {
    lists[i := [p] + lists[i]]
  }

  ghost function Removed(lists: Lists, i: int, k: int): Lists
    requires 0 <= i < |lists| && 0 <= k < |lists[i]|
  {
    lists[i := lists[i][..k] + lists[i][k + 1..]]
  }

  lemma OtherListsLinked(b: Blocks, m: seq<Byte>, m': seq<Byte>, heads: seq<int>, lists: Lists,
                         i: int, preds: set<int>, succs: set<int>)
    requires Placed(b, lists) && AllLinked(m, heads, lists) && 0 <= i < LIST_NUM
    requires LinksKept(b, m, m', preds, succs)
    requires forall p :: p in preds + succs && FreeBlock(b, p) ==> BlockIndex(b[p].size) == i
    ensures forall j :: 0 <= j < LIST_NUM && j != i ==> Linked(m', heads[j], lists[j])
  {
    hide Pred, Succ;
    forall j | 0 <= j < LIST_NUM && j != i ensures Linked(m', heads[j], lists[j]) {
      assert Linked(m, heads[j], lists[j]);
      forall k | 0 <= k < |lists[j]|
        ensures Pred(m', lists[j][k]) == Pred(m, lists[j][k]) && Succ(m', lists[j][k]) == Succ(m, lists[j][k])
      {
        assert FreeBlock(b, lists[j][k]);
      }
    }
  }

  lemma InsertLinked(b: Blocks, m: seq<Byte>, m': seq<Byte>, heads: seq<int>, lists: Lists, p: int)
    requires Placed(b, lists) && AllLinked(m, heads, lists)
    requires FreeBlock(b, p) && !Listed(lists, p) && 0 !in b
    requires var i := BlockIndex(b[p].size);
             && Pred(m', p) == 0 && Succ(m', p) == heads[i]
             && (lists[i] != [] ==> Pred(m', heads[i]) == p)
             && LinksKept(b, m, m', {p} + NonNull(heads[i]), {p})
    ensures var i := BlockIndex(b[p].size);
            && Placed(b, Inserted(lists, i, p))
            && AllLinked(m', heads[i := p], Inserted(lists, i, p))
  {
    hide Pred, Succ;
    var i := BlockIndex(b[p].size);
    var l, l' := lists[i], [p] + lists[i];
    assert Linked(m, heads[i], l);
    OtherListsLinked(b, m, m', heads, lists, i, {p} + NonNull(heads[i]), {p});
    forall k | 0 <= k < |l'| ensures Pred(m', l'[k]) == At(l', k - 1) && Succ(m', l'[k]) == At(l', k + 1) {
      if k > 0 {
        assert FreeBlock(b, l[k - 1]);
      }
    }
  }

  // Block `p` is element `k` of list `i`.
  ghost predicate ListedAt(b: Blocks, lists: Lists, p: int, i: int, k: int) {
    && FreeBlock(b, p) && i == BlockIndex(b[p].size)
    && 0 <= i < |lists| && 0 <= k < |lists[i]| && lists[i][k] == p
  }

  lemma InsertListed(lists: Lists, i: int, p: int)
    requires 0 <= i < |lists|
    ensures NewlyListed(lists, Inserted(lists, i, p), p)
  {
    var lists' := Inserted(lists, i, p);
    forall q ensures Listed(lists', q) == (Listed(lists, q) || q == p) {
      if Listed(lists, q) {
        var j :| 0 <= j < |lists| && q in lists[j];
        assert q in lists'[j];
      }
      assert lists'[i][0] == p;
    }
  }

  lemma RemovePlaced(b: Blocks, lists: Lists, p: int, i: int, k: int)
    requires Placed(b, lists) && ListedAt(b, lists, p, i, k)
    ensures Placed(b, Removed(lists, i, k))
    ensures Unlisted(lists, Removed(lists, i, k), {p})
  {
    hide BlockIndex;
    var lists' := Removed(lists, i, k);
    forall q ensures Listed(lists', q) == (Listed(lists, q) && q != p) {
      if Listed(lists, q) && q != p {
        var j :| 0 <= j < LIST_NUM && q in lists[j];
        assert q in lists'[j];
      }
    }
  }

  lemma RemoveLinked(b: Blocks, m: seq<Byte>, m': seq<Byte>, heads: seq<int>, lists: Lists, p: int, i: int, k: int)
    requires Placed(b, lists) && AllLinked(m, heads, lists) && ListedAt(b, lists, p, i, k) && 0 !in b
    requires var l := lists[i];
             && LinksKept(b, m, m', {p} + NonNull(At(l, k + 1)), {p} + NonNull(At(l, k - 1)))
             && (k + 1 < |l| ==> Pred(m', l[k + 1]) == At(l, k - 1))
             && (k > 0 ==> Succ(m', l[k - 1]) == At(l, k + 1))
    ensures AllLinked(m', heads[i := At(Removed(lists, i, k)[i], 0)], Removed(lists, i, k))
  {
    hide Pred, Succ, BlockIndex, LinksKept, Linked;
    var l := lists[i];
    RelinkedList(b, m, m', heads[i], l, k);
    OtherListsLinked(b, m, m', heads, lists, i, {p} + NonNull(At(l, k + 1)), {p} + NonNull(At(l, k - 1)));
  }

  lemma RelinkedList(b: Blocks, m: seq<Byte>, m': seq<Byte>, head: int, l: seq<int>, k: int)
    requires Linked(m, head, l) && 0 <= k < |l|
    requires forall i :: 0 <= i < |l| ==> FreeBlock(b, l[i]) && l[i] != 0
    requires forall i, j :: 0 <= i < j < |l| ==> l[i] != l[j]
    requires LinksKept(b, m, m', {l[k]} + NonNull(At(l, k + 1)), {l[k]} + NonNull(At(l, k - 1)))
    requires k + 1 < |l| ==> Pred(m', l[k + 1]) == At(l, k - 1)
    requires k > 0 ==> Succ(m', l[k - 1]) == At(l, k + 1)
    ensures var l' := l[..k] + l[k + 1..]; Linked(m', At(l', 0), l')
  {
    hide Pred, Succ, LinksKept, Linked;
    var l' := l[..k] + l[k + 1..];
    forall j | 0 <= j < |l'| ensures Pred(m', l'[j]) == At(l', j - 1) && Succ(m', l'[j]) == At(l', j + 1) {
      RelinkedAt(b, m, m', head, l, k, if j < k then j else j + 1);
    }
    IsLinked(m', At(l', 0), l');
  }

  lemma IsLinked(m: seq<Byte>, head: int, l: seq<int>)
    requires head == At(l, 0)
    requires forall k :: 0 <= k < |l| ==> Pred(m, l[k]) == At(l, k - 1) && Succ(m, l[k]) == At(l, k + 1)
    ensures Linked(m, head, l)
  {
  }

  lemma RelinkedAt(b: Blocks, m: seq<Byte>, m': seq<Byte>, head: int, l: seq<int>, k: int, j: int)
    requires Linked(m, head, l) && 0 <= k < |l| && 0 <= j < |l| && j != k
    requires forall i :: 0 <= i < |l| ==> FreeBlock(b, l[i]) && l[i] != 0
    requires forall i, j :: 0 <= i < j < |l| ==> l[i] != l[j]
    requires LinksKept(b, m, m', {l[k]} + NonNull(At(l, k + 1)), {l[k]} + NonNull(At(l, k - 1)))
    requires k + 1 < |l| ==> Pred(m', l[k + 1]) == At(l, k - 1)
    requires k > 0 ==> Succ(m', l[k - 1]) == At(l, k + 1)
    ensures Pred(m', l[j]) == if j == k + 1 then At(l, k - 1) else At(l, j - 1)
    ensures Succ(m', l[j]) == if j == k - 1 then At(l, k + 1) else At(l, j + 1)
  {
    hide Pred, Succ;
    assert FreeBlock(b, l[j]);
  }

  ghost predicate InBounds(b: Blocks, brk: int, p: int)
    requires p in b
  {
    16 <= p && p % 8 == 0 && MIN_BLOCK <= b[p].size && b[p].size % 8 == 0 && p + b[p].size <= brk
  }

  // Where a listed block is, and its neighbours there as its links give them.
  lemma Neighbours(b: Blocks, brk: int, m: seq<Byte>, heads: seq<int>, lists: Lists, p: int, i: int) returns (k: int)
    requires Shape(b, brk) && Placed(b, lists) && AllLinked(m, heads, lists)
    requires FreeBlock(b, p) && Listed(lists, p) && i == BlockIndex(b[p].size)
    ensures ListedAt(b, lists, p, i, k) && 0 !in b && InBounds(b, brk, p)
    ensures Pred(m, p) == At(lists[i], k - 1) && Succ(m, p) == At(lists[i], k + 1) && heads[i] == At(lists[i], 0)
    ensures var q := At(lists[i], k - 1); if k > 0 then IsNeighbour(b, p, q, brk) else q == 0
    ensures var q := At(lists[i], k + 1); if k + 1 < |lists[i]| then IsNeighbour(b, p, q, brk) else q == 0
  {
    hide Pred, Succ, BlockIndex, Shape, AllLinked, Placed;
    k := PlaceOf(b, lists, p);
    FreeBounds(b, brk, p);
    NullIsNoBlock(b, brk);
    LinksAt(m, heads, lists, i, k);
    if k > 0 {
      OtherListed(b, brk, lists, i, k, k - 1);
    }
    if k + 1 < |lists[i]| {
      OtherListed(b, brk, lists, i, k, k + 1);
    }
  }

  lemma PlaceOf(b: Blocks, lists: Lists, p: int) returns (k: int)
    requires Placed(b, lists) && FreeBlock(b, p) && Listed(lists, p)
    ensures ListedAt(b, lists, p, BlockIndex(b[p].size), k)
  {
    hide BlockIndex;
    var i :| 0 <= i < LIST_NUM && p in lists[i];
    k :| 0 <= k < |lists[i]| && lists[i][k] == p;
  }

  lemma NullIsNoBlock(b: Blocks, brk: int)
    requires Shape(b, brk)
    ensures 0 !in b
  {
  }

  lemma LinksAt(m: seq<Byte>, heads: seq<int>, lists: Lists, i: int, k: int)
    requires AllLinked(m, heads, lists) && 0 <= i < LIST_NUM && 0 <= k < |lists[i]|
    ensures Pred(m, lists[i][k]) == At(lists[i], k - 1) && Succ(m, lists[i][k]) == At(lists[i], k + 1)
    ensures |heads| == LIST_NUM && heads[i] == At(lists[i], 0)
  {
    hide Pred, Succ;
    assert Linked(m, heads[i], lists[i]);
  }

  lemma OtherListed(b: Blocks, brk: int, lists: Lists, i: int, k: int, j: int)
    requires Shape(b, brk) && Placed(b, lists) && 0 <= i < LIST_NUM && 0 <= j < |lists[i]| && 0 <= k < |lists[i]| && j != k
    ensures IsNeighbour(b, lists[i][k], lists[i][j], brk)
  {
    hide BlockIndex, Chained, Apart;
  }

  ghost predicate IsNeighbour(b: Blocks, p: int, q: int, brk: int) {
    FreeBlock(b, q) && q != p && 16 <= q < brk
  }

  // The memory of remove_block: the neighbours' links, then those of the removed block itself.
  lemma UnlinkedThenCleared(b: Blocks, m: seq<Byte>, m1: seq<Byte>, m2: seq<Byte>, m3: seq<Byte>,
                            preds: set<int>, succs: set<int>, p: int)
    requires LinksKept(b, m, m1, preds, succs) && LinksKept(b, m1, m2, {p}, {}) && LinksKept(b, m2, m3, {}, {p})
    ensures LinksKept(b, m, m3, {p} + preds, {p} + succs)
    ensures forall q :: FreeBlock(b, q) && q != p ==> Pred(m3, q) == Pred(m1, q) && Succ(m3, q) == Succ(m1, q)
  {
    hide Pred, Succ;
  }

  // ---------- the moves of the allocator ----------

  lemma RegionConsistent(m: seq<Byte>, m': seq<Byte>, heads: seq<int>, b: Blocks, b': Blocks, lists: Lists,
                         brk: int, lo: int, hi: int)
    requires Consistent(m, heads, b, lists, brk) && Shape(b', brk)
    requires lo <= hi <= brk && SameOutside(m, m', lo - 4, hi - 4) && AgreeOutside(b, b', lo, hi)
    requires NoneListed(lists, lo, hi)
    requires forall q :: q in b' && lo <= q < hi ==> TagOk(m', q, b'[q])
    ensures Consistent(m', heads, b', lists, brk)
  {
    hide Shape, Tagged, Placed, AllLinked, NoneListed, SameOutside, TagOk;
    RegionTagged(m, m', b, b', brk, lo, hi);
    RegionLinked(m, m', b, brk, heads, lists, lo, hi);
    RegionPlaced(b, b', lists, lo, hi);
  }

  // Of the blocks in lo..hi none but `p` is allocated, before or after.
  ghost predicate OnlyLive(b: Blocks, lo: int, hi: int, p: int) {
    forall q :: q in b && lo <= q < hi && q != p ==> !b[q].alloc
  }

  lemma RegionContents(m: seq<Byte>, m': seq<Byte>, b: Blocks, b': Blocks, brk: int, lo: int, hi: int, p: int)
    requires Shape(b, brk) && brk <= |m|
    requires lo <= hi && SameOutside(m, m', lo - 4, hi - 4) && AgreeOutside(b, b', lo, hi)
    requires OnlyLive(b, lo, hi, p) && OnlyLive(b', lo, hi, p)
    ensures Live(m', b') - {p} == Live(m, b) - {p}
  {
    hide SameOutside, AgreeOutside, Live, Chained, Apart;
    RegionLive(m, m', b, b', lo, hi);
    var live, live' := Live(m, b), Live(m', b');
    forall q | q != p ensures (q in live' <==> q in live) && (q in live ==> live'[q] == live[q]) {
      LiveAllocated(m, b, q);
      LiveAllocated(m', b', q);
    }
    SameWithout(live, live', p);
  }

  lemma SameWithout(live: map<int, seq<Byte>>, live': map<int, seq<Byte>>, p: int)
    requires forall q :: q != p ==> (q in live' <==> q in live) && (q in live ==> live'[q] == live[q])
    ensures live' - {p} == live - {p}
  {
    var l, l' := live - {p}, live' - {p};
    assert forall q :: q in l' <==> q in l;
    assert forall q :: q in l' ==> l'[q] == l[q];
  }

  lemma LiveAllocated(m: seq<Byte>, b: Blocks, q: int)
    ensures q in Live(m, b) ==> q in b && b[q].alloc
  {
  }

  lemma UnlistedRegion(b: Blocks, lists: Lists, lo: int, hi: int)
    requires Placed(b, lists)
    requires forall q :: q in b && lo <= q < hi ==> !Listed(lists, q)
    ensures NoneListed(lists, lo, hi)
  {
    forall i, k | 0 <= i < |lists| && 0 <= k < |lists[i]| ensures !(lo <= lists[i][k] < hi) {
      assert lists[i][k] in lists[i];
      assert Listed(lists, lists[i][k]);
    }
  }

  // The region lo..hi, where no block is listed, is rewritten so that `b'` describes it.  Apart from
  // `p` no block of the region is or was allocated.
  ghost predicate Rewritten(m: seq<Byte>, m': seq<Byte>, b: Blocks, b': Blocks, lists: Lists, lo: int, hi: int, p: int) {
    && SameOutside(m, m', lo - 4, hi - 4) && AgreeOutside(b, b', lo, hi)
    && OnlyLive(b, lo, hi, p) && OnlyLive(b', lo, hi, p)
    && (forall q :: q in b && lo <= q < hi ==> !Listed(lists, q))
    && (forall q :: q in b' && lo <= q < hi ==> TagOk(m', q, b'[q]))
  }

  lemma RewrittenConsistent(m: seq<Byte>, m': seq<Byte>, heads: seq<int>, b: Blocks, b': Blocks, lists: Lists,
                            brk: int, lo: int, hi: int, p: int)
    requires Consistent(m, heads, b, lists, brk) && Shape(b', brk) && brk <= |m|
    requires lo <= hi <= brk && Rewritten(m, m', b, b', lists, lo, hi, p)
    ensures Consistent(m', heads, b', lists, brk)
    ensures Live(m', b') - {p} == Live(m, b) - {p}
  {
    hide Shape, Tagged, Placed, AllLinked, NoneListed, SameOutside, TagOk, AgreeOutside, OnlyLive, Live;
    UnlistedRegion(b, lists, lo, hi);
    RegionConsistent(m, m', heads, b, b', lists, brk, lo, hi);
    RegionContents(m, m', b, b', brk, lo, hi, p);
  }

  lemma GapUnlisted(b: Blocks, brk: int, lists: Lists, p: int, size: int)
    requires Shape(b, brk) && Placed(b, lists) && p in b && 0 < size < b[p].size
    ensures p + size !in b && !Listed(lists, p + size)
  {
    hide Aligned, Chained, BlockIndex;
  }

  // Two adjacent blocks retagged one after the other, and one block retagged.
  lemma TwoTags(m: seq<Byte>, m1: seq<Byte>, m2: seq<Byte>, p: int, size: int, size': int)
    requires MIN_BLOCK <= size && MIN_BLOCK <= size' && TagOk(m1, p, Block(size, true))
    requires OnlyTags(m, m1, p, size) && OnlyTags(m1, m2, p + size, size')
    ensures TagOk(m2, p, Block(size, true)) && SameOutside(m, m2, p - 4, p + size + size' - 4)
    ensures forall a :: p <= a < p + size - 8 && a < |m| ==> m2[a] == m[a]
  {
    WordKept(m1, m2, p - 4);
    WordKept(m1, m2, p + size - 8);
  }

  // Header and footer of a block written separately.
  lemma SeparateTags(m: seq<Byte>, m1: seq<Byte>, m2: seq<Byte>, p: int, size: int, headerFirst: bool)
    requires 4 <= p && MIN_BLOCK <= size && p + size - 4 <= |m|
    requires var h, f := p - 4, p + size - 8;
             && |m1| == |m2| == |m|
             && SameOutside(m, m1, if headerFirst then h else f, (if headerFirst then h else f) + 4)
             && SameOutside(m1, m2, if headerFirst then f else h, (if headerFirst then f else h) + 4)
             && Word(m1, if headerFirst then h else f) == Pack(size, false) == Word(m2, if headerFirst then f else h)
    ensures TagOk(m2, p, Block(size, false)) && SameOutside(m, m2, p - 4, p + size - 4)
  {
    hide Word;
    var h, f := p - 4, p + size - 8;
    if headerFirst {
      WordFrame(m1, m2, f, f + 4, h);
    } else {
      WordFrame(m1, m2, h, h + 4, f);
    }
  }

  lemma OneTag(m: seq<Byte>, m': seq<Byte>, p: int, size: int)
    requires MIN_BLOCK <= size && OnlyTags(m, m', p, size)
    ensures SameOutside(m, m', p - 4, p + size - 4)
    ensures forall a :: 0 <= p <= a < p + size - 8 && a < |m| ==> m'[a] == m[a]
  {
  }

  lemma WordKept(m: seq<Byte>, m': seq<Byte>, p: int)
    requires |m'| == |m| && 0 <= p <= |m| - 4 && m'[p..p + 4] == m[p..p + 4]
    ensures Word(m', p) == Word(m, p)
  {
    var s, s' := m[p..p + 4], m'[p..p + 4];
    assert s[0] == s'[0] && s[1] == s'[1] && s[2] == s'[2] && s[3] == s'[3];
  }

  // The region of one block, and of a block with the one or two behind it
  lemma SplitRegion(b: Blocks, brk: int, b': Blocks, p: int, size: int)
    requires Shape(b, brk) && SplitInto(b, b', p, size)
    ensures p + size !in b && AgreeOutside(b, b', p, Next(b, p))
    ensures OnlyLive(b, p, Next(b, p), p) && OnlyLive(b', p, Next(b, p), p)
    ensures forall q :: q in b && p <= q < Next(b, p) ==> q == p
    ensures forall q :: q in b' && p <= q < Next(b, p) ==> q == p || q == p + size
  {
    hide Shape;
    forall q | q in b ensures (p <= q < Next(b, p) ==> q == p) && (q < p ==> Next(b, q) <= p) {
      Alone(b, brk, p, q);
    }
    if p + size in b {
      Alone(b, brk, p, p + size);
    }
  }

  lemma MergeRegion(b: Blocks, brk: int, b': Blocks, p: int, n: int, alloc: bool)
    requires Shape(b, brk) && MergedInto(b, b', p, n, alloc) && !b[n].alloc
    ensures AgreeOutside(b, b', p, Next(b, n)) && Next(b', p) == Next(b, n) > n
    ensures OnlyLive(b, p, Next(b, n), p) && OnlyLive(b', p, Next(b, n), p)
    ensures forall q :: q in b && p <= q < Next(b, n) ==> q == p || q == n
    ensures forall q :: q in b' && p <= q < Next(b, n) ==> q == p
  {
    hide Shape;
    Alone(b, brk, n, n);
    forall q | q in b ensures (p <= q < Next(b, n) ==> q == p || q == n) && (q < p ==> Next(b, q) <= p) {
      Alone(b, brk, p, q);
      Alone(b, brk, n, q);
    }
  }

  lemma AgreeTwice(b: Blocks, b1: Blocks, b2: Blocks, lo: int, mid: int, hi: int)
    requires lo <= mid <= hi && AgreeOutside(b, b1, lo, mid) && AgreeOutside(b1, b2, lo, hi)
    ensures AgreeOutside(b, b2, lo, hi)
  {
  }

  lemma SplitMove(m: seq<Byte>, m': seq<Byte>, heads: seq<int>, b: Blocks, lists: Lists, brk: int, p: int, size: int)
    requires Consistent(m, heads, b, lists, brk) && brk <= |m|
    requires p in b && p != PROLOGUE && !Listed(lists, p)
    requires size % 8 == 0 && MIN_BLOCK <= size <= b[p].size - MIN_BLOCK
    requires SameOutside(m, m', p - 4, p + b[p].size - 4)
    requires TagOk(m', p, Block(size, true)) && TagOk(m', p + size, Block(b[p].size - size, false))
    ensures Consistent(m', heads, Split(b, p, size), lists, brk)
    ensures Live(m', Split(b, p, size)) - {p} == Live(m, b) - {p}
    ensures p + size !in b && !Listed(lists, p + size)
  {
    hide Shape, Tagged, Placed, AllLinked, SameOutside, TagOk, Live, Listed, Split, AgreeOutside, OnlyLive;
    var b' := Split(b, p, size);
    GapUnlisted(b, brk, lists, p, size);
    SplitShape(b, brk, p, size);
    BlockEnd(b, brk, p);
    SplitIs(b, p, size);
    SplitRegion(b, brk, b', p, size);
    RewrittenConsistent(m, m', heads, b, b', lists, brk, p, Next(b, p), p);
  }

  lemma MergeMove(m: seq<Byte>, m': seq<Byte>, heads: seq<int>, b: Blocks, lists: Lists, brk: int, p: int, alloc: bool)
    requires Consistent(m, heads, b, lists, brk) && brk <= |m|
    requires p in b && p != PROLOGUE && FreeBlock(b, Next(b, p)) && !Listed(lists, p) && !Listed(lists, Next(b, p))
    requires var b' := Merge(b, p, alloc);
             SameOutside(m, m', p - 4, p + b'[p].size - 4) && TagOk(m', p, b'[p])
    ensures Consistent(m', heads, Merge(b, p, alloc), lists, brk)
    ensures Live(m', Merge(b, p, alloc)) - {p} == Live(m, b) - {p}
  {
    hide Shape, Tagged, Placed, AllLinked, SameOutside, TagOk, Live, Listed, Merge, AgreeOutside, OnlyLive;
    var b', n := Merge(b, p, alloc), Next(b, p);
    MergeShape(b, brk, p, alloc);
    Alone(b, brk, p, n);
    BlockEnd(b, brk, n);
    MergeIs(b, p, alloc);
    MergeRegion(b, brk, b', p, n, alloc);
    RewrittenConsistent(m, m', heads, b, b', lists, brk, p, Next(b, n), p);
  }

  // Grow block `p` into its free successor and cut the rest off again.
  lemma MergeSplitMove(m: seq<Byte>, m': seq<Byte>, heads: seq<int>, b: Blocks, lists: Lists, brk: int, p: int, size: int)
    requires Consistent(m, heads, b, lists, brk) && brk <= |m|
    requires p in b && p != PROLOGUE && FreeBlock(b, Next(b, p)) && !Listed(lists, p) && !Listed(lists, Next(b, p))
    requires var b1 := Merge(b, p, true);
             && size % 8 == 0 && MIN_BLOCK <= size <= b1[p].size - MIN_BLOCK
             && SameOutside(m, m', p - 4, p + b1[p].size - 4)
             && TagOk(m', p, Block(size, true)) && TagOk(m', p + size, Block(b1[p].size - size, false))
    ensures var b' := Split(Merge(b, p, true), p, size);
            && Consistent(m', heads, b', lists, brk)
            && Live(m', b') - {p} == Live(m, b) - {p}
            && p + size !in Merge(b, p, true) && !Listed(lists, p + size)
  {
    hide Shape, Tagged, Placed, AllLinked, SameOutside, TagOk, Live, Listed, Merge, Split, AgreeOutside, OnlyLive;
    var b1, n := Merge(b, p, true), Next(b, p);
    MergeShape(b, brk, p, true);
    Alone(b, brk, p, n);
    BlockEnd(b, brk, n);
    MergeIs(b, p, true);
    MergeRegion(b, brk, b1, p, n, true);
    var b' := Split(b1, p, size);
    SplitShape(b1, brk, p, size);
    SplitIs(b1, p, size);
    SplitRegion(b1, brk, b', p, size);
    AgreeTwice(b, b1, b', p, Next(b, n), Next(b, n));
    RewrittenConsistent(m, m', heads, b, b', lists, brk, p, Next(b, n), p);
    GapOfTwo(b, lists, p, n, size);
  }

  // Inside two blocks that are not listed, nothing is.
  lemma GapOfTwo(b: Blocks, lists: Lists, p: int, n: int, size: int)
    requires Placed(b, lists) && !Listed(lists, p) && !Listed(lists, n)
    requires p in b && n in b && p < p + size < Next(b, n)
    requires forall q :: q in b && p <= q < Next(b, n) ==> q == p || q == n
    ensures !Listed(lists, p + size)
  {
    hide BlockIndex;
  }

  lemma MergeBothMove(m: seq<Byte>, m': seq<Byte>, heads: seq<int>, b: Blocks, lists: Lists, brk: int, p: int)
    requires Consistent(m, heads, b, lists, brk) && brk <= |m|
    requires FreeBlock(b, p) && FreeBlock(b, Next(b, p)) && FreeBlock(b, Next(b, Next(b, p)))
    requires !Listed(lists, p) && !Listed(lists, Next(b, p)) && !Listed(lists, Next(b, Next(b, p)))
    requires var b' := Merge(Merge(b, p, false), p, false);
             SameOutside(m, m', p - 4, p + b'[p].size - 4) && TagOk(m', p, b'[p])
    ensures var b' := Merge(Merge(b, p, false), p, false);
            Consistent(m', heads, b', lists, brk) && Live(m', b') - {p} == Live(m, b) - {p}
  {
    hide Shape, Tagged, Placed, AllLinked, SameOutside, TagOk, Live, Listed, Merge, AgreeOutside, OnlyLive;
    var b1, n := Merge(b, p, false), Next(b, p);
    var nn := Next(b, n);
    FreeBounds(b, brk, p);
    MergeShape(b, brk, p, false);
    Alone(b, brk, p, n);
    Alone(b, brk, n, nn);
    BlockEnd(b, brk, nn);
    MergeIs(b, p, false);
    MergeRegion(b, brk, b1, p, n, false);
    var b' := Merge(b1, p, false);
    MergeShape(b1, brk, p, false);
    MergeIs(b1, p, false);
    MergeRegion(b1, brk, b', p, nn, false);
    AgreeTwice(b, b1, b', p, nn, Next(b, nn));
    ThreeBlocks(b, brk, p, n, nn);
    RewrittenConsistent(m, m', heads, b, b', lists, brk, p, Next(b, nn), p);
  }

  lemma ThreeBlocks(b: Blocks, brk: int, p: int, n: int, nn: int)
    requires Shape(b, brk) && FreeBlock(b, p) && FreeBlock(b, n) && FreeBlock(b, nn) && Next(b, p) == n && Next(b, n) == nn
    ensures OnlyLive(b, p, Next(b, nn), p)
    ensures forall q :: q in b && p <= q < Next(b, nn) ==> q == p || q == n || q == nn
  {
    hide Shape;
    forall q | q in b && p <= q < Next(b, nn) ensures q == p || q == n || q == nn {
      Alone(b, brk, p, q);
      Alone(b, brk, n, q);
      Alone(b, brk, nn, q);
    }
  }

  lemma RetagMove(m: seq<Byte>, m': seq<Byte>, heads: seq<int>, b: Blocks, lists: Lists, brk: int, p: int, alloc: bool)
    requires Consistent(m, heads, b, lists, brk) && brk <= |m|
    requires p in b && p != PROLOGUE && !Listed(lists, p)
    requires SameOutside(m, m', p - 4, p + b[p].size - 4) && TagOk(m', p, Block(b[p].size, alloc))
    ensures Consistent(m', heads, b[p := Block(b[p].size, alloc)], lists, brk)
    ensures Live(m', b[p := Block(b[p].size, alloc)]) - {p} == Live(m, b) - {p}
  {
    hide Tagged, Placed, AllLinked, SameOutside, TagOk, Live, Listed;
    RetagShape(b, brk, p, alloc);
    RewrittenConsistent(m, m', heads, b, b[p := Block(b[p].size, alloc)], lists, brk, p, p + b[p].size, p);
  }

  // sbrk moved the epilogue up by `size`; the old epilogue became the header of a new free block.
  lemma ExtendMove(m: seq<Byte>, m': seq<Byte>, heads: seq<int>, b: Blocks, lists: Lists, brk: int, size: int)
    requires Consistent(m, heads, b, lists, brk) && size % 8 == 0 && MIN_BLOCK <= size && brk + size <= |m|
    requires SameOutside(m, m', brk - 4, brk + size) && TagOk(m', brk, Block(size, false))
    requires Word(m', brk + size - 4) == Pack(0, true)
    ensures Consistent(m', heads, b[brk := Block(size, false)], lists, brk + size)
    ensures Live(m', b[brk := Block(size, false)]) == Live(m, b)
    ensures brk !in b && !Listed(lists, brk)
  {
    hide Word, Shape, Tagged, TagOk, Live, AllLinked, Placed, Listed, SameOutside, AgreeOutside, OnlyLive, NoneListed;
    var b', hi := b[brk := Block(size, false)], brk + size + 4;
    ExtendShape(b, brk, size);
    ExtendTagged(m, m', b, brk, size);
    ExtendRegion(b, brk, size, hi);
    ExtendPlaced(b, lists, brk, size);
    UnlistedRegion(b, lists, brk, hi);
    RegionLinked(m, m', b, brk, heads, lists, brk, hi);
    RegionContents(m, m', b, b', brk, brk, hi, brk);
    FreeNotLive(m', b', brk);
    NotLive(m, b, brk);
  }

  lemma ExtendRegion(b: Blocks, brk: int, size: int, hi: int)
    requires Shape(b, brk) && brk < hi
    ensures var b' := b[brk := Block(size, false)];
            brk !in b && AgreeOutside(b, b', brk, hi) && OnlyLive(b, brk, hi, brk) && OnlyLive(b', brk, hi, brk)
    ensures forall q :: q in b ==> q < brk && q + b[q].size <= brk
  {
    hide Apart, Chained;
  }

  lemma ExtendPlaced(b: Blocks, lists: Lists, brk: int, size: int)
    requires Placed(b, lists) && brk !in b
    ensures Placed(b[brk := Block(size, false)], lists) && !Listed(lists, brk)
  {
    hide BlockIndex;
  }

  lemma NotLive(m: seq<Byte>, b: Blocks, p: int)
    requires p !in b
    ensures Live(m, b) - {p} == Live(m, b)
  {
  }

  lemma ExtendTagged(m: seq<Byte>, m': seq<Byte>, b: Blocks, brk: int, size: int)
    requires Shape(b, brk) && Tagged(m, b, brk) && size % 8 == 0 && MIN_BLOCK <= size && brk + size <= |m|
    requires SameOutside(m, m', brk - 4, brk + size) && TagOk(m', brk, Block(size, false))
    requires Word(m', brk + size - 4) == Pack(0, true)
    ensures Tagged(m', b[brk := Block(size, false)], brk + size)
  {
    hide Word;
    forall q | q in b ensures TagOk(m', q, b[q]) {
      assert TagOk(m, q, b[q]);
      WordFrame(m, m', brk - 4, brk + size, q - 4);
      WordFrame(m, m', brk - 4, brk + size, q + b[q].size - 8);
    }
  }

  // ---------- which blocks are free ----------

  // `b'` has the free blocks of `b` that are not among `gone`.
  ghost predicate FreeExcept(b: Blocks, b': Blocks, gone: set<int>) {
    forall q :: FreeBlock(b', q) <==> FreeBlock(b, q) && q !in gone
  }

  // The allocated blocks of `b` and `b'` are the same.
  ghost predicate SameAllocated(b: Blocks, b': Blocks) {
    forall q :: (q in b && b[q].alloc <==> q in b' && b'[q].alloc) && (q in b && b[q].alloc ==> b'[q] == b[q])
  }

  lemma FreeBounds(b: Blocks, brk: int, p: int)
    requires Shape(b, brk) && FreeBlock(b, p)
    ensures p in b && InBounds(b, brk, p)
  {
  }

  lemma FreeListed(b: Blocks, lists: Lists, p: int)
    requires Complete(b, lists, {}) && FreeBlock(b, p)
    ensures Listed(lists, p)
  {
  }

  lemma FreeNotLive(m: seq<Byte>, b: Blocks, p: int)
    requires FreeBlock(b, p)
    ensures p !in Live(m, b) && Live(m, b) - {p} == Live(m, b)
  {
  }

  lemma RemoveComplete(b: Blocks, lists: Lists, lists': Lists, p: int)
    requires Complete(b, lists, {}) && Unlisted(lists, lists', {p})
    ensures Complete(b, lists', {p}) && !Listed(lists', p)
  {
    hide Listed;
    forall q ensures Listed(lists', q) <==> FreeBlock(b, q) && q !in {p} {
      assert Listed(lists', q) == (Listed(lists, q) && q !in {p});
    }
  }

  lemma InsertComplete(b: Blocks, lists: Lists, lists': Lists, p: int)
    requires Complete(b, lists, {p}) && NewlyListed(lists, lists', p) && FreeBlock(b, p)
    ensures Complete(b, lists', {})
  {
    hide Listed;
    forall q ensures Listed(lists', q) <==> FreeBlock(b, q) {
      assert Listed(lists', q) == (Listed(lists, q) || q == p);
    }
  }

  // place and the splits of mm_realloc
  lemma SplitFree(b: Blocks, brk: int, p: int, size: int)
    requires Shape(b, brk) && p in b && MIN_BLOCK <= size <= b[p].size - MIN_BLOCK
    requires NoAdjacentFree(b, {}) && (FreeBlock(b, p) || !FreeBlock(b, Next(b, p)))
    ensures NoAdjacentFree(Split(b, p, size), {}) && FreeBlock(Split(b, p, size), p + size)
  {
    hide Shape, Split, NoAdjacentFree;
    var b' := Split(b, p, size);
    SplitIs(b, p, size);
    SplitRegion(b, brk, b', p, size);
    forall q {:trigger Next(b', q)} | FreeBlock(b', q) ensures !FreeBlock(b', Next(b', q)) {
      NotAdjacent(b, p);
      if q != p + size {
        NotAdjacent(b, q);
        Alone(b, brk, q, p);
      }
    }
    NoneAdjacent(b');
  }

  lemma NotAdjacent(b: Blocks, q: int)
    requires NoAdjacentFree(b, {}) && q in b
    ensures FreeBlock(b, q) ==> !FreeBlock(b, Next(b, q))
  {
  }

  lemma NotAdjacentBut(b: Blocks, holes: set<int>, q: int)
    requires NoAdjacentFree(b, holes) && q in b
    ensures FreeBlock(b, q) && FreeBlock(b, Next(b, q)) ==> q in holes || Next(b, q) in holes
  {
  }

  lemma NoneAdjacent(b: Blocks)
    requires forall q {:trigger Next(b, q)} :: FreeBlock(b, q) ==> !FreeBlock(b, Next(b, q))
    ensures NoAdjacentFree(b, {})
  {
  }

  lemma SplitComplete(b: Blocks, brk: int, lists: Lists, p: int, size: int)
    requires Shape(b, brk) && p in b && MIN_BLOCK <= size <= b[p].size - MIN_BLOCK
    requires Complete(b, lists, {p})
    ensures Complete(Split(b, p, size), lists, {p + size})
  {
    hide Listed;
  }

  lemma RetagFree(b: Blocks, lists: Lists, p: int, alloc: bool)
    requires p in b && NoAdjacentFree(b, {}) && Complete(b, lists, if alloc then {p} else {})
    requires alloc == FreeBlock(b, p)
    ensures var b' := b[p := Block(b[p].size, alloc)];
            NoAdjacentFree(b', if alloc then {} else {p}) && Complete(b', lists, if alloc then {} else {p})
  {
    hide Listed;
    var b' := b[p := Block(b[p].size, alloc)];
    assert forall q :: FreeBlock(b', q) <==> (FreeBlock(b, q) && q != p) || (q == p && !alloc);
    forall q {:trigger Next(b', q)} | FreeBlock(b', q) && FreeBlock(b', Next(b', q))
      ensures !alloc && (q == p || Next(b', q) == p)
    {
      assert Next(b', q) == Next(b, q);
    }
  }

  // mm_realloc takes in the free block after `p`
  lemma AbsorbFree(b: Blocks, brk: int, lists: Lists, p: int)
    requires Shape(b, brk) && p in b && b[p].alloc && FreeBlock(b, Next(b, p))
    requires NoAdjacentFree(b, {}) && Complete(b, lists, {Next(b, p)})
    ensures var b' := Merge(b, p, true);
            && NoAdjacentFree(b', {}) && Complete(b', lists, {})
            && !FreeBlock(b', Next(b', p))
  {
    hide Listed, Shape, Merge, NoAdjacentFree;
    var b', n := Merge(b, p, true), Next(b, p);
    Alone(b, brk, p, n);
    MergeIs(b, p, true);
    NotAdjacent(b, n);
    forall q {:trigger Next(b', q)} | FreeBlock(b', q) ensures !FreeBlock(b', Next(b', q)) {
      NotAdjacent(b, q);
    }
    NoneAdjacent(b');
  }

  // ---------- the four cases of coalesce ----------

  // `p` is the one free block that may have free neighbours; `prev` is the block before it.
  ghost predicate Coalescing(b: Blocks, brk: int, prev: int, p: int) {
    Shape(b, brk) && FreeBlock(b, p) && prev in b && Next(b, prev) == p && NoAdjacentFree(b, {p})
  }

  ghost predicate Coalesced(b: Blocks, b': Blocks, gone: set<int>) {
    NoAdjacentFree(b', {}) && SameAllocated(b, b') && FreeExcept(b, b', gone)
  }

  lemma CoalescedNone(b: Blocks, brk: int, prev: int, p: int)
    requires Coalescing(b, brk, prev, p) && !FreeBlock(b, prev) && !FreeBlock(b, Next(b, p))
    ensures Coalesced(b, b, {})
  {
  }

  lemma CoalescedNext(b: Blocks, brk: int, prev: int, p: int)
    requires Coalescing(b, brk, prev, p) && !FreeBlock(b, prev) && FreeBlock(b, Next(b, p))
    ensures Coalesced(b, Merge(b, p, false), {Next(b, p)})
  {
    hide Shape, Merge, NoAdjacentFree;
    var b', n := Merge(b, p, false), Next(b, p);
    Alone(b, brk, p, n);
    MergeIs(b, p, false);
    forall q {:trigger Next(b', q)} | FreeBlock(b', q) ensures !FreeBlock(b', Next(b', q)) {
      NotAdjacentBut(b, {p}, if q == p then n else q);
      Alone(b, brk, q, prev);
    }
    NoneAdjacent(b');
  }

  lemma CoalescedPrev(b: Blocks, brk: int, prev: int, p: int)
    requires Coalescing(b, brk, prev, p) && FreeBlock(b, prev) && !FreeBlock(b, Next(b, p))
    ensures Coalesced(b, Merge(b, prev, false), {p})
  {
    hide Shape, Merge, NoAdjacentFree;
    var b' := Merge(b, prev, false);
    Alone(b, brk, prev, p);
    MergeIs(b, prev, false);
    forall q {:trigger Next(b', q)} | FreeBlock(b', q) ensures !FreeBlock(b', Next(b', q)) {
      NotAdjacentBut(b, {p}, q);
      Alone(b, brk, q, prev);
    }
    NoneAdjacent(b');
  }

  lemma CoalescedBoth(b: Blocks, brk: int, prev: int, p: int)
    requires Coalescing(b, brk, prev, p) && FreeBlock(b, prev) && FreeBlock(b, Next(b, p))
    ensures Coalesced(b, Merge(Merge(b, prev, false), prev, false), {p, Next(b, p)})
  {
    hide Shape, Merge, NoAdjacentFree;
    var b1, n := Merge(b, prev, false), Next(b, p);
    Alone(b, brk, prev, p);
    Alone(b, brk, p, n);
    MergeIs(b, prev, false);
    var b' := Merge(b1, prev, false);
    MergeIs(b1, prev, false);
    forall q {:trigger Next(b', q)} | FreeBlock(b', q) ensures !FreeBlock(b', Next(b', q)) {
      NotAdjacentBut(b, {p}, if q == prev then n else q);
      Alone(b, brk, q, prev);
    }
    NoneAdjacent(b');
  }

  lemma CoalesceComplete(b: Blocks, b': Blocks, l: Lists, l1: Lists, l2: Lists, p: int, removed: set<int>, r: int, gone: set<int>)
    requires Complete(b, l, {p}) && Unlisted(l, l1, removed) && NewlyListed(l1, l2, r) && FreeExcept(b, b', gone)
    requires removed + {p} == gone + {r} && r !in gone && FreeBlock(b, r)
    ensures Complete(b', l2, {})
  {
    hide Listed, FreeBlock;
    forall q ensures Listed(l2, q) <==> FreeBlock(b', q) {
      assert q in removed + {p} <==> q in gone + {r};
      assert Listed(l1, q) == (Listed(l, q) && q !in removed);
      assert Listed(l2, q) == (Listed(l1, q) || q == r);
    }
  }

  lemma HoleUnlisted(b: Blocks, lists: Lists, p: int)
    requires Complete(b, lists, {p})
    ensures !Listed(lists, p) && Unlisted(lists, lists, {})
    ensures forall q :: FreeBlock(b, q) && q != p ==> Listed(lists, q)
  {
  }

  lemma StillUnlisted(l: Lists, l1: Lists, removed: set<int>, p: int)
    requires Unlisted(l, l1, removed) && (p in removed || !Listed(l, p))
    ensures !Listed(l1, p)
  {
  }

  lemma StillListed(l: Lists, l1: Lists, removed: set<int>, p: int)
    requires Unlisted(l, l1, removed) && p !in removed && Listed(l, p)
    ensures Listed(l1, p)
  {
  }

  lemma UnlistedTwice(l: Lists, l1: Lists, l2: Lists, p: int, q: int)
    requires Unlisted(l, l1, {p}) && Unlisted(l1, l2, {q})
    ensures Unlisted(l, l2, {p, q})
  {
    hide Listed;
    forall x ensures Listed(l2, x) == (Listed(l, x) && x !in {p, q}) {
      assert Listed(l1, x) == (Listed(l, x) && x !in {p});
    }
  }

  lemma ShapeBrk(b: Blocks, brk: int)
    requires Shape(b, brk)
    ensures 16 <= brk && brk % 8 == 0 && brk !in b && PROLOGUE in b && Next(b, PROLOGUE) == 16
  {
    assert Next(b, PROLOGUE) == 16;
  }

  lemma SameAllocatedSelf(b: Blocks)
    ensures SameAllocated(b, b)
  {
  }

  lemma HeadFree(b: Blocks, brk: int, m: seq<Byte>, heads: seq<int>, lists: Lists, i: int, p: int)
    requires Shape(b, brk) && Placed(b, lists) && AllLinked(m, heads, lists) && 0 <= i < LIST_NUM && !Listed(lists, p)
    ensures if lists[i] == [] then heads[i] == 0 else IsNeighbour(b, p, heads[i], brk)
    ensures 0 !in b && |lists| == LIST_NUM
  {
    hide Pred, Succ, BlockIndex;
    assert Linked(m, heads[i], lists[i]);
    assert lists[i] != [] ==> lists[i][0] in lists[i];
  }

  // The memory of insert_block: the new block's SUCC, the old head's PRED, the new block's PRED.
  lemma LinksComposed(b: Blocks, m: seq<Byte>, m0: seq<Byte>, m1: seq<Byte>, p: int, head: int)
    requires LinksKept(b, m, m0, {}, {p}) && LinksKept(b, m0, m1, {head}, {})
    ensures LinksKept(b, m, m1, {head}, {p}) && (FreeBlock(b, p) ==> Succ(m1, p) == Succ(m0, p))
  {
    hide Pred, Succ, FreeBlock;
  }

  lemma LinkedIn(b: Blocks, m: seq<Byte>, m1: seq<Byte>, m2: seq<Byte>, p: int, head: int)
    requires LinksKept(b, m, m1, NonNull(head), {p}) && LinksKept(b, m1, m2, {p}, {})
    ensures LinksKept(b, m, m2, {p} + NonNull(head), {p})
    ensures FreeBlock(b, p) ==> Succ(m2, p) == Succ(m1, p)
    ensures FreeBlock(b, head) && head != p ==> Pred(m2, head) == Pred(m1, head)
  {
    hide Pred, Succ, FreeBlock;
  }

  lemma SameAllocatedTransitive(b: Blocks, b1: Blocks, b2: Blocks)
    requires SameAllocated(b, b1) && SameAllocated(b1, b2)
    ensures SameAllocated(b, b2)
  {
  }

  lemma ExtendFree(b: Blocks, brk: int, lists: Lists, size: int)
    requires Shape(b, brk) && Complete(b, lists, {}) && NoAdjacentFree(b, {})
    requires size % 8 == 0 && MIN_BLOCK <= size
    ensures var b' := b[brk := Block(size, false)];
            && Complete(b', lists, {brk}) && NoAdjacentFree(b', {brk})
            && FreeBlock(b', brk) && Next(b', brk) == brk + size && SameAllocated(b, b')
  {
    hide Listed;
    var b' := b[brk := Block(size, false)];
    assert forall q :: q in b ==> Next(b', q) == Next(b, q);
  }

  lemma NewBlockBytes(m: seq<Byte>, m1: seq<Byte>, m2: seq<Byte>, m3: seq<Byte>, m4: seq<Byte>, brk: int, size: int)
    requires 16 <= brk && MIN_BLOCK <= size && brk + size <= |m|
    requires OnlyTags(m, m1, brk, size) && TagOk(m1, brk, Block(size, false))
    requires SameOutside(m1, m2, brk, brk + 8) && SameOutside(m2, m3, brk + 8, brk + 16)
    requires SameOutside(m3, m4, brk + size - 4, brk + size)
    ensures SameOutside(m, m4, brk - 4, brk + size) && TagOk(m4, brk, Block(size, false))
  {
    hide Word;
    assert SameOutside(m1, m3, brk, brk + 16);
    WordFrame(m1, m3, brk, brk + 16, brk - 4);
    WordFrame(m1, m3, brk, brk + 16, brk + size - 8);
    WordFrame(m3, m4, brk + size - 4, brk + size, brk - 4);
    WordFrame(m3, m4, brk + size - 4, brk + size, brk + size - 8);
  }

  lemma EmptyHeap(m: seq<Byte>, heads: seq<int>, b: Blocks, lists: Lists)
    requires 16 <= |m| && Word(m, 4) == Word(m, 8) == Pack(8, true) && Word(m, 12) == Pack(0, true)
    requires |heads| == |lists| == LIST_NUM && b == map[PROLOGUE := Block(8, true)]
    requires forall i :: 0 <= i < LIST_NUM ==> heads[i] == 0 && lists[i] == []
    ensures Consistent(m, heads, b, lists, 16) && Complete(b, lists, {}) && NoAdjacentFree(b, {})
    ensures Live(m, b) == map[]
  {
    hide Word;
  }

  // ---------- searching the free lists ----------

  ghost predicate InHeap(b: Blocks, brk: int, p: int) {
    FreeBlock(b, p) && 16 <= p && p + MIN_BLOCK <= brk
  }

  lemma ListStep(b: Blocks, brk: int, m: seq<Byte>, heads: seq<int>, lists: Lists, i: int, k: int)
    requires Consistent(m, heads, b, lists, brk) && 0 <= i < LIST_NUM && 0 <= k <= |lists[i]|
    ensures heads[i] == At(lists[i], 0)
    ensures if k == |lists[i]| then At(lists[i], k) == 0
            else InHeap(b, brk, lists[i][k]) && Succ(m, lists[i][k]) == At(lists[i], k + 1)
                 && BlockIndex(b[lists[i][k]].size) == i
  {
    hide Succ, Pred, BlockIndex, Tagged;
    assert Linked(m, heads[i], lists[i]);
  }

  // No block of list `i` before position `k` is large enough.
  ghost predicate TooSmall(b: Blocks, lists: Lists, i: int, k: int, asize: int)
    requires 0 <= i < |lists|
  {
    forall j :: 0 <= j < k && j < |lists[i]| ==> lists[i][j] in b && b[lists[i][j]].size < asize
  }

  lemma AllLinkedLength(m: seq<Byte>, heads: seq<int>, lists: Lists)
    requires AllLinked(m, heads, lists)
    ensures |heads| == |lists| == LIST_NUM
  {
  }

  lemma NoneBefore(b: Blocks, lists: Lists, i: int, asize: int)
    requires 0 <= i < |lists|
    ensures TooSmall(b, lists, i, 0, asize)
  {
  }

  lemma OneMoreTooSmall(b: Blocks, lists: Lists, i: int, k: int, asize: int)
    requires 0 <= i < |lists| && 0 <= k < |lists[i]| && TooSmall(b, lists, i, k, asize)
    requires FreeBlock(b, lists[i][k]) && b[lists[i][k]].size < asize
    ensures TooSmall(b, lists, i, k + 1, asize)
  {
  }

  lemma ListEnd(b: Blocks, brk: int, m: seq<Byte>, heads: seq<int>, lists: Lists, i: int, k: int)
    requires Consistent(m, heads, b, lists, brk) && 0 <= i < LIST_NUM && 0 <= k <= |lists[i]| && At(lists[i], k) == 0
    ensures k == |lists[i]|
  {
    ListStep(b, brk, m, heads, lists, i, k);
  }

  // `p` is what a first-fit search through the lists, from the class of `asize` up, finds.
  ghost predicate FirstFit(b: Blocks, lists: Lists, asize: int, p: int)
  {
    && |lists| == LIST_NUM && FreeBlock(b, p) && asize <= b[p].size
    && var i := BlockIndex(b[p].size);
       && (exists k :: 0 <= k < |lists[i]| && lists[i][k] == p && TooSmall(b, lists, i, k, asize))
       && (forall i' :: BlockIndex(asize) <= i' < i ==> TooSmall(b, lists, i', |lists[i']|, asize))
  }

  // A free block that is large enough is in one of the lists find_fit looks at.
  lemma NoFit(b: Blocks, lists: Lists, asize: int)
    requires Placed(b, lists) && Complete(b, lists, {})
    requires forall i :: BlockIndex(asize) <= i < LIST_NUM ==> TooSmall(b, lists, i, |lists[i]|, asize)
    ensures forall q :: FreeBlock(b, q) ==> b[q].size < asize
  {
    hide BlockIndex;
    forall q | FreeBlock(b, q) ensures b[q].size < asize {
      var k := Position(b, lists, q);
      BlockIndexMonotone(asize, b[q].size);
      assert BlockIndex(asize) <= BlockIndex(b[q].size) ==> b[lists[BlockIndex(b[q].size)][k]].size < asize;
    }
  }

  lemma Position(b: Blocks, lists: Lists, q: int) returns (k: int)
    requires Placed(b, lists) && Complete(b, lists, {}) && FreeBlock(b, q)
    ensures ListedAt(b, lists, q, BlockIndex(b[q].size), k)
  {
    hide BlockIndex;
    assert Listed(lists, q);
    var i :| 0 <= i < LIST_NUM && q in lists[i];
    k :| 0 <= k < |lists[i]| && lists[i][k] == q;
  }

  // The search is good-fit: no smaller class holds a block that is large enough.
  lemma FirstFitSmallestClass(b: Blocks, lists: Lists, asize: int, p: int, q: int)
    requires Placed(b, lists) && Complete(b, lists, {}) && FirstFit(b, lists, asize, p)
    requires FreeBlock(b, q) && asize <= b[q].size
    ensures BlockIndex(b[p].size) <= BlockIndex(b[q].size)
  {
    hide BlockIndex;
    BlockIndexMonotone(asize, b[q].size);
    var k := Position(b, lists, q);
    assert lists[BlockIndex(b[q].size)][k] == q;
  }

  // ---------- payloads ----------

  lemma LiveSize(m: seq<Byte>, b: Blocks, brk: int, p: int)
    requires Shape(b, brk) && brk <= |m|
    ensures p in Live(m, b) <==> p in b && b[p].alloc && p != PROLOGUE
    ensures p in Live(m, b) ==> |Live(m, b)[p]| == b[p].size - 8 && Live(m, b)[p] == m[p..p + b[p].size - 8]
    ensures p in Live(m, b) ==> 16 <= p && p % 8 == 0 && MIN_BLOCK <= b[p].size && b[p].size % 8 == 0 && p + b[p].size <= brk
  {
  }

  // The client writes inside one live payload.
  lemma PayloadMove(m: seq<Byte>, m': seq<Byte>, heads: seq<int>, b: Blocks, lists: Lists, brk: int, p: int)
    requires Consistent(m, heads, b, lists, brk) && brk <= |m|
    requires p in Live(m, b) && SameOutside(m, m', p, p + b[p].size - 8)
    ensures Consistent(m', heads, b, lists, brk)
    ensures Live(m', b) - {p} == Live(m, b) - {p} && p in Live(m', b)
  {
    hide AllLinked, Placed, Listed, TagOk, Live;
    LiveSize(m, b, brk, p);
    LiveSize(m', b, brk, p);
    PayloadTag(m, m', p, b[p]);
    AllocatedUnlisted(b, lists, p);
    RewrittenConsistent(m, m', heads, b, b, lists, brk, p, p + b[p].size, p);
  }

  lemma PayloadTag(m: seq<Byte>, m': seq<Byte>, p: int, block: Block)
    requires TagOk(m, p, block) && SameOutside(m, m', p, p + block.size - 8)
    ensures TagOk(m', p, block)
  {
    hide Word;
    if block.size > 8 {
      WordFrame(m, m', p, p + block.size - 8, p - 4);
      WordFrame(m, m', p, p + block.size - 8, p + block.size - 8);
    } else {
      assert m' == m;
    }
  }

  lemma AllocatedUnlisted(b: Blocks, lists: Lists, p: int)
    requires Placed(b, lists) && p in b && b[p].alloc
    ensures !Listed(lists, p)
  {
  }

  ghost predicate SharePrefix(s: seq<Byte>, t: seq<Byte>) {
    if |s| <= |t| then s == t[..|s|] else t == s[..|t|]
  }

  // mm_free: header, footer and links of the freed block.
  lemma FreedBytes(m: seq<Byte>, m1: seq<Byte>, m2: seq<Byte>, m3: seq<Byte>, p: int, size: int)
    requires 4 <= p && MIN_BLOCK <= size && p + size - 4 <= |m|
    requires OnlyTags(m, m1, p, size) && TagOk(m1, p, Block(size, false))
    requires SameOutside(m1, m2, p, p + 8) && SameOutside(m2, m3, p + 8, p + 16)
    ensures SameOutside(m, m3, p - 4, p + size - 4) && TagOk(m3, p, Block(size, false))
  {
    hide Word;
    assert SameOutside(m1, m3, p, p + 16);
    WordFrame(m1, m3, p, p + 16, p - 4);
    WordFrame(m1, m3, p, p + 16, p + size - 8);
  }

  // The place that becomes the tail of the heap when it grows: the old break, or a free block that ended there
  ghost predicate AtEnd(b: Blocks, brk: int, p: int) {
    p == brk || (FreeBlock(b, p) && Next(b, p) == brk)
  }

  // What mm_malloc and the growing paths of mm_realloc rely on: an allocated block stays where it is
  // when the heap grows, and a free tail of the heap grows with it.
  lemma GrownNext(b: Blocks, b': Blocks, brk: int, brk': int, p: int)
    requires Shape(b, brk) && Shape(b', brk') && brk < brk' && SameAllocated(b, b') && NoAdjacentFree(b', {})
    requires p in b && b[p].alloc
    requires Next(b, p) == brk || (FreeBlock(b, Next(b, p)) && Next(b, Next(b, p)) == brk)
    ensures p in b' && b'[p] == b[p]
    ensures FreeBlock(b', Next(b, p)) && Next(b', Next(b, p)) == brk'
  {
    var n := Next(b, p);
    assert Next(b', p) == n;
    assert n in b' && !b'[n].alloc;
    assert Next(b', n) == brk';
  }

  // One new live pointer, with room for `size` bytes; nothing else changed.
  ghost predicate Allocated(live: map<int, seq<Byte>>, live': map<int, seq<Byte>>, p: int, size: int) {
    p !in live && p in live' && size <= |live'[p]| && live' == live[p := live'[p]]
  }

  lemma PlacedAllocated(live: map<int, seq<Byte>>, m: seq<Byte>, b: Blocks, brk: int, p: int, asize: int)
    requires Shape(b, brk) && brk <= |m| && p in b && b[p].alloc && p != PROLOGUE && asize <= b[p].size
    requires p !in live && Live(m, b) - {p} == live
    ensures Allocated(live, Live(m, b), p, asize - 8)
  {
    hide Live, Shape;
    LiveSize(m, b, brk, p);
    OneAdded(live, Live(m, b), p);
  }

  lemma OneAdded(live: map<int, seq<Byte>>, live': map<int, seq<Byte>>, p: int)
    requires live' - {p} == live && p !in live && p in live'
    ensures live' == live[p := live'[p]]
  {
    forall q | q != p ensures (q in live <==> q in live') && (q in live ==> live'[q] == live[q]) {
      assert q in live <==> q in live' - {p};
    }
  }

  lemma SplitFront(b: Blocks, p: int, size: int)
    requires p in b && size > 0
    ensures p in Split(b, p, size) && Split(b, p, size)[p] == Block(size, true)
  {
  }

  lemma AllocatedLess(live: map<int, seq<Byte>>, live': map<int, seq<Byte>>, p: int, size: int, size': int)
    requires Allocated(live, live', p, size) && size' <= size
    ensures Allocated(live, live', p, size')
  {
  }

  ghost predicate NothingFits(b: Blocks, asize: int) {
    forall q :: FreeBlock(b, q) ==> b[q].size < asize
  }

  lemma Fits(b: Blocks, lists: Lists, asize: int, p: int)
    requires FirstFit(b, lists, asize, p)
    ensures FreeBlock(b, p) && asize <= b[p].size && !NothingFits(b, asize)
  {
  }

  // ---------- mm_realloc ----------

  // `p` is live before and after, now with room for `size` bytes, and keeps its bytes as far as both go;
  // nothing else changed.
  ghost predicate Resized(live: map<int, seq<Byte>>, live': map<int, seq<Byte>>, p: int, size: int) {
    && p in live && p in live' && size <= |live'[p]| && live' == live[p := live'[p]]
    && SharePrefix(live[p], live'[p])
  }

  lemma ResizedLess(live: map<int, seq<Byte>>, live': map<int, seq<Byte>>, p: int, size: int, size': int)
    requires Resized(live, live', p, size) && size' <= size
    ensures Resized(live, live', p, size')
  {
  }

  lemma ResizedInPlace(m: seq<Byte>, m': seq<Byte>, b: Blocks, b': Blocks, brk: int, p: int)
    requires Shape(b, brk) && Shape(b', brk) && brk <= |m| == |m'| && p in Live(m, b)
    requires p in b' && b'[p].alloc && Live(m', b') - {p} == Live(m, b) - {p}
    requires forall a :: p <= a < p + b[p].size - 8 && a < p + b'[p].size - 8 ==> m'[a] == m[a]
    ensures Resized(Live(m, b), Live(m', b'), p, b'[p].size - 8)
  {
    hide Live, Shape, SharePrefix;
    LiveSize(m, b, brk, p);
    LiveSize(m', b', brk, p);
    PrefixKept(m, m', p, b[p].size - 8, b'[p].size - 8);
    OneChanged(Live(m, b), Live(m', b'), p);
  }

  lemma PrefixKept(m: seq<Byte>, m': seq<Byte>, p: int, n: int, n': int)
    requires 0 <= p && 0 <= n && 0 <= n' && p + n <= |m| && p + n' <= |m'|
    requires forall a :: p <= a < p + n && a < p + n' ==> m'[a] == m[a]
    ensures SharePrefix(m[p..p + n], m'[p..p + n'])
  {
  }

  lemma OneChanged(live: map<int, seq<Byte>>, live': map<int, seq<Byte>>, p: int)
    requires live' - {p} == live - {p} && p in live && p in live'
    ensures live' == live[p := live'[p]]
  {
    forall q | q != p ensures (q in live <==> q in live') && (q in live ==> live'[q] == live[q]) {
      assert q in live - {p} <==> q in live' - {p};
      assert q in live ==> (live - {p})[q] == (live' - {p})[q];
    }
  }

  // A block retagged, and behind it a free block tagged with its links cleared.
  lemma CutBytes(m: seq<Byte>, m1: seq<Byte>, m2: seq<Byte>, m3: seq<Byte>, m4: seq<Byte>, p: int, size: int, size': int)
    requires 4 <= p && MIN_BLOCK <= size && MIN_BLOCK <= size' && p + size + size' - 4 <= |m|
    requires OnlyTags(m, m1, p, size) && TagOk(m1, p, Block(size, true))
    requires OnlyTags(m1, m2, p + size, size') && TagOk(m2, p + size, Block(size', false))
    requires SameOutside(m2, m3, p + size, p + size + 8) && SameOutside(m3, m4, p + size + 8, p + size + 16)
    ensures SameOutside(m, m4, p - 4, p + size + size' - 4)
    ensures TagOk(m4, p, Block(size, true)) && TagOk(m4, p + size, Block(size', false))
    ensures forall a :: p <= a < p + size - 8 ==> m4[a] == m[a]
  {
    hide TagOk, Word;
    TwoTags(m, m1, m2, p, size, size');
    FreedBytes(m1, m2, m3, m4, p + size, size');
    TagKept(m1, m4, p, size, p + size, size');
  }

  lemma TagKept(m: seq<Byte>, m': seq<Byte>, p: int, size: int, q: int, size': int)
    requires TagOk(m, p, Block(size, true)) && SameOutside(m, m', q - 4, q + size' - 4) && q == p + size
    ensures TagOk(m', p, Block(size, true))
  {
    hide Word;
    WordFrame(m, m', q - 4, q + size' - 4, p - 4);
    WordFrame(m, m', q - 4, q + size' - 4, p + size - 8);
  }

  lemma AllocatedNoHole(b: Blocks, lists: Lists, p: int)
    requires Complete(b, lists, {}) && p in b && b[p].alloc
    ensures Complete(b, lists, {p})
  {
    hide Listed;
  }

  lemma MergedSize(b: Blocks, p: int)
    requires p in b && Next(b, p) in b && Next(b, p) != p
    ensures p in Merge(b, p, true) && Merge(b, p, true)[p] == Block(b[p].size + b[Next(b, p)].size, true)
  {
  }

  // The bytes of `p` now are the first bytes of the new pointer `q`; nothing else changed.
  ghost predicate Moved(live: map<int, seq<Byte>>, live': map<int, seq<Byte>>, p: int, q: int, size: int) {
    && p in live && q !in live && q in live' && size <= |live'[q]|
    && live' == (live - {p})[q := live'[q]]
    && live[p] <= live'[q]
  }

  // Two live payloads do not overlap, and both lie inside the heap.
  lemma LiveDisjoint(m: seq<Byte>, b: Blocks, brk: int, p: int, q: int)
    requires Shape(b, brk) && brk <= |m| && p in Live(m, b) && q in Live(m, b) && p != q
    ensures p + |Live(m, b)[p]| <= q || q + |Live(m, b)[q]| <= p
    ensures 16 <= p && p % 8 == 0 && p + |Live(m, b)[p]| <= brk - 8
  {
    LiveSize(m, b, brk, p);
    LiveSize(m, b, brk, q);
  }

  // The steps of mm_realloc's last resort: allocate `q`, copy the payload of `p`, free `p`.
  lemma MoveSteps(live: map<int, seq<Byte>>, live1: map<int, seq<Byte>>, live2: map<int, seq<Byte>>,
                  live3: map<int, seq<Byte>>, p: int, q: int, size: int)
    requires p in live && Allocated(live, live1, q, size)
    requires q in live2 && live2 - {q} == live1 - {q} && |live2[q]| == |live1[q]| && live[p] <= live2[q]
    requires live3 == live2 - {p}
    ensures Moved(live, live3, p, q, size)
  {
    forall x ensures x != q ==> (x in live2 <==> x in live) && (x in live ==> live2[x] == live[x]) {
      assert x in live2 - {q} <==> x in live1 - {q};
      assert x != q && x in live ==> (live2 - {q})[x] == (live1 - {q})[x];
    }
  }

  lemma StillIn(live: map<int, seq<Byte>>, live': map<int, seq<Byte>>, p: int, q: int)
    requires live' - {p} == live - {p} && q in live && q != p
    ensures q in live' && live'[q] == live[q]
  {
    assert q in live' - {p};
  }

  lemma AllocatedKeeps(live: map<int, seq<Byte>>, live': map<int, seq<Byte>>, p: int, size: int, q: int)
    requires Allocated(live, live', p, size) && q in live
    ensures q in live' && live'[q] == live[q] && q != p && p in live' && size <= |live'[p]|
  {
  }

  // A live block is where it was, and is not the last one of a heap that has grown.
  lemma StillAllocated(b: Blocks, b': Blocks, brk': int, p: int)
    requires Shape(b', brk') && SameAllocated(b, b') && p in b && b[p].alloc && Next(b, p) < brk'
    ensures p in b' && b'[p] == b[p] && Next(b', p) in b'
  {
    assert Next(b', p) == Next(b, p);
  }

  // The block before the epilogue, and the one before that
  ghost predicate Last(b: Blocks, brk: int, p: int) {
    p in b && Next(b, p) == brk
  }

  ghost predicate SecondLast(b: Blocks, brk: int, p: int) {
    p in b && Last(b, brk, Next(b, p))
  }

  // The size of the first block, 0 if there is none
  ghost function FirstSizeOf(b: Blocks): int {
    if PROLOGUE + 8 in b then b[PROLOGUE + 8].size else 0
  }

  // The block size to be had at `p` from itself and a free block behind it
  ghost function Plain(b: Blocks, p: int): int
    requires p in b
  {
    b[p].size + if FreeBlock(b, Next(b, p)) then b[Next(b, p)].size else 0
  }

  // A larger heap means more room behind `p`.
  ghost predicate GrowsAtEnd(b: Blocks, brk: int, p: int) {
    Last(b, brk, p) || (SecondLast(b, brk, p) && FreeBlock(b, Next(b, p)))
  }

  // The guards under which mm_realloc extends the heap before it looks for room behind `p`
  ghost predicate Speculates(b: Blocks, brk: int, p: int) {
    || Last(b, brk, p)
    || (SecondLast(b, brk, p) && Next(b, p) in b &&
        var size := b[Next(b, p)].size; if FirstSizeOf(b) == 24 then 48 < size <= 88 else 600 < size <= 1000)
  }

  // The block size to be had once that has happened
  ghost function SpareOf(b: Blocks, brk: int, p: int, chunk: int): int
    requires p in b
  {
    Plain(b, p) + if Speculates(b, brk, p) && GrowsAtEnd(b, brk, p) then chunk else 0
  }

  // ... and with one more extension, made when it is not enough
  ghost function ReachOf(b: Blocks, brk: int, p: int, chunk: int): int
    requires p in b
  {
    SpareOf(b, brk, p, chunk) + if GrowsAtEnd(b, brk, p) then chunk else 0
  }

  lemma LengthenedPlain(b: Blocks, b': Blocks, brk: int, brk': int, p: int)
    requires Shape(b, brk) && Shape(b', brk') && brk < brk' && SameAllocated(b, b') && NoAdjacentFree(b', {})
    requires p in b && b[p].alloc && p in b' && b'[p] == b[p] && (Last(b, brk, p) || SecondLast(b, brk, p))
    ensures Plain(b', p) == Plain(b, p) + if GrowsAtEnd(b, brk, p) then brk' - brk else 0
    ensures GrowsAtEnd(b', brk', p) == GrowsAtEnd(b, brk, p) && Next(b, p) in b'
  {
    hide Aligned, Apart, Chained, NoAdjacentFree;
    NotBoth(b, brk, p);
    NotBoth(b', brk', p);
    if GrowsAtEnd(b, brk, p) {
      GrownNext(b, b', brk, brk', p);
      ShapeBrk(b, brk);
    }
  }

  lemma ReachAtLeast(b: Blocks, brk: int, p: int, chunk: int)
    requires Shape(b, brk) && p in b && 0 <= chunk
    ensures ReachOf(b, brk, p, chunk) >= b[p].size
  {
  }

  lemma NotBoth(b: Blocks, brk: int, p: int)
    requires Shape(b, brk) && p in b
    ensures Next(b, p) in b ==> !Last(b, brk, p)
  {
  }

  // The block behind a live block at the end of the heap does not shrink when the heap grows.
  lemma LengthenedNext(b: Blocks, b': Blocks, brk: int, brk': int, p: int)
    requires Shape(b, brk) && Shape(b', brk') && brk < brk' && SameAllocated(b, b') && NoAdjacentFree(b', {})
    requires p in b && b[p].alloc && p in b' && b'[p] == b[p]
    ensures Last(b, brk, p) ==> Next(b, p) in b' && b'[Next(b, p)].size == brk' - brk
    ensures SecondLast(b, brk, p) ==> Next(b, p) in b' && b'[Next(b, p)].size >= b[Next(b, p)].size
  {
    if Last(b, brk, p) || (SecondLast(b, brk, p) && FreeBlock(b, Next(b, p))) {
      GrownNext(b, b', brk, brk', p);
    }
  }

  lemma BlockEnd(b: Blocks, brk: int, p: int)
    requires Shape(b, brk) && p in b
    ensures Next(b, p) <= brk
  {
  }

  lemma NullNotLive(m: seq<Byte>, b: Blocks, brk: int)
    requires Shape(b, brk)
    ensures 0 !in Live(m, b)
  {
  }

  lemma SameResized(live: map<int, seq<Byte>>, p: int, size: int)
    requires p in live && size <= |live[p]|
    ensures Resized(live, live, p, size)
  {
  }

  lemma MovedElsewhere(live: map<int, seq<Byte>>, live': map<int, seq<Byte>>, p: int, q: int, size: int)
    ensures Moved(live, live', p, q, size) ==> p != q
  {
  }

  // ---------- mm_check ----------

  // The list that starts at `head` and is followed through SUCC is `l`; PRED may be anything.
  ghost predicate Chain(m: seq<Byte>, head: int, l: seq<int>) {
    head == At(l, 0) && forall k :: 0 <= k < |l| ==> Succ(m, l[k]) == At(l, k + 1)
  }

  // What mm_check takes for granted: tags that tile the heap, and lists that end, each with blocks of its class.
  ghost predicate Walkable(m: seq<Byte>, heads: seq<int>, b: Blocks, lists: Lists, brk: int) {
    && Shape(b, brk) && Tagged(m, b, brk) && |heads| == |lists| == LIST_NUM
    && (forall i :: 0 <= i < LIST_NUM ==> Chain(m, heads[i], lists[i]))
    && (forall i, k :: 0 <= i < LIST_NUM && 0 <= k < |lists[i]| ==>
          lists[i][k] in b && BlockIndex(b[lists[i][k]].size) == i)
    && (forall i, j, k :: 0 <= i < LIST_NUM && 0 <= j < k < |lists[i]| ==> lists[i][j] != lists[i][k])
  }

  lemma WalkStep(b: Blocks, brk: int, m: seq<Byte>, heads: seq<int>, lists: Lists, i: int, k: int)
    requires Walkable(m, heads, b, lists, brk) && 0 <= i < LIST_NUM && 0 <= k <= |lists[i]|
    ensures |heads| == |lists| == LIST_NUM && heads[i] == At(lists[i], 0)
    ensures if k == |lists[i]| then At(lists[i], k) == 0
            else lists[i][k] in b && Succ(m, lists[i][k]) == At(lists[i], k + 1)
                 && (lists[i][k] == PROLOGUE || PROLOGUE <= lists[i][k] <= brk - MIN_BLOCK)
  {
    hide Succ, BlockIndex, Tagged, Chained, Apart;
    assert Chain(m, heads[i], lists[i]);
  }

  lemma WalkEnd(b: Blocks, brk: int, m: seq<Byte>, heads: seq<int>, lists: Lists, i: int, k: int)
    requires Walkable(m, heads, b, lists, brk) && 0 <= i < LIST_NUM && 0 <= k <= |lists[i]| && At(lists[i], k) == 0
    ensures k == |lists[i]|
  {
    WalkStep(b, brk, m, heads, lists, i, k);
  }

  // The first `k` blocks of list `l` are free.
  ghost predicate FreeFront(b: Blocks, l: seq<int>, k: int) {
    forall j :: 0 <= j < k && j < |l| ==> FreeBlock(b, l[j])
  }

  ghost predicate AllFree(b: Blocks, lists: Lists) {
    forall i :: 0 <= i < |lists| ==> FreeFront(b, lists[i], |lists[i]|)
  }

  lemma WalkPlaced(b: Blocks, brk: int, m: seq<Byte>, heads: seq<int>, lists: Lists)
    requires Walkable(m, heads, b, lists, brk)
    ensures Placed(b, lists) <==> AllFree(b, lists)
  {
    hide Succ, BlockIndex, Tagged, Shape;
    if AllFree(b, lists) {
      forall i, k | 0 <= i < LIST_NUM && 0 <= k < |lists[i]| ensures FreeBlock(b, lists[i][k]) {
        assert FreeFront(b, lists[i], |lists[i]|);
      }
    }
  }

  // No two free blocks touch, as far as the first of them lies below `at`.
  ghost predicate ApartBelow(b: Blocks, at: int) {
    forall q {:trigger Next(b, q)} :: q in b && q < at && FreeBlock(b, q) ==> !FreeBlock(b, Next(b, q))
  }

  lemma OneMoreApart(b: Blocks, brk: int, p: int)
    requires Shape(b, brk) && p in b && ApartBelow(b, p)
    ensures ApartBelow(b, Next(b, p)) <==> !(FreeBlock(b, p) && FreeBlock(b, Next(b, p)))
    ensures !ApartBelow(b, Next(b, p)) ==> !NoAdjacentFree(b, {})
  {
    hide Aligned, Chained;
    BlockEnd(b, brk, p);
    assert 0 < b[p].size by { Alone(b, brk, p, p); }
  }

  lemma ApartAll(b: Blocks, brk: int)
    requires Shape(b, brk)
    ensures ApartBelow(b, PROLOGUE)
    ensures ApartBelow(b, brk) <==> NoAdjacentFree(b, {})
  {
    hide Chained;
    assert forall q :: q in b ==> PROLOGUE <= q < brk;
  }

  // The free blocks below `at`, and those in the first `i` lists and among the first `k` of list `i`
  ghost function FreeBelow(b: Blocks, at: int): set<int> {
    set p | p in b && !b[p].alloc && p < at
  }

  ghost function ListedUpTo(b: Blocks, lists: Lists, i: int, k: int): set<int> {
    set p | p in b && !b[p].alloc && InLists(lists, i, k, BlockIndex(b[p].size), p)
  }

  ghost predicate InLists(lists: Lists, i: int, k: int, c: int, p: int) {
    0 <= c < |lists| && if c < i then p in lists[c] else c == i && 0 <= k <= |lists[c]| && p in lists[c][..k]
  }

  lemma NoneBelow(b: Blocks, brk: int)
    requires Shape(b, brk)
    ensures FreeBelow(b, PROLOGUE) == {}
  {
  }

  lemma OneMoreBelow(b: Blocks, brk: int, p: int)
    requires Shape(b, brk) && p in b
    ensures |FreeBelow(b, Next(b, p))| == |FreeBelow(b, p)| + if b[p].alloc then 0 else 1
  {
    var s := FreeBelow(b, p);
    assert FreeBelow(b, Next(b, p)) == if b[p].alloc then s else s + {p};
  }

  lemma AtBrk(b: Blocks, brk: int, p: int)
    requires Shape(b, brk) && (p in b || p == brk) && (p in b ==> b[p].size <= 0)
    ensures p == brk
  {
  }

  lemma NoneListedYet(b: Blocks, lists: Lists)
    ensures ListedUpTo(b, lists, 0, 0) == {}
  {
  }

  lemma OneMoreListed(b: Blocks, lists: Lists, i: int, k: int)
    requires Placed(b, lists) && 0 <= i < LIST_NUM && 0 <= k < |lists[i]|
    ensures |ListedUpTo(b, lists, i, k + 1)| == |ListedUpTo(b, lists, i, k)| + 1
  {
    hide BlockIndex;
    var s, p := ListedUpTo(b, lists, i, k), lists[i][k];
    assert lists[i][..k + 1] == lists[i][..k] + [p];
    assert ListedUpTo(b, lists, i, k + 1) == s + {p};
    assert p !in s;
  }

  lemma NextList(b: Blocks, lists: Lists, i: int)
    requires 0 <= i < LIST_NUM == |lists|
    ensures ListedUpTo(b, lists, i + 1, 0) == ListedUpTo(b, lists, i, |lists[i]|)
  {
    hide BlockIndex;
    assert lists[i][..|lists[i]|] == lists[i];
  }

  // As many free blocks as listed ones: every free block is listed.
  lemma CountsAgree(b: Blocks, brk: int, lists: Lists)
    requires Shape(b, brk) && Placed(b, lists)
    ensures |ListedUpTo(b, lists, LIST_NUM, 0)| == |FreeBelow(b, brk)| <==> Complete(b, lists, {})
  {
    hide BlockIndex, Chained, Apart;
    var s, t := ListedUpTo(b, lists, LIST_NUM, 0), FreeBelow(b, brk);
    assert forall p :: p in b ==> p < brk;
    assert s <= t;
    SameCount(s, t);
    if s == t {
      forall p ensures Listed(lists, p) <==> FreeBlock(b, p) {
        assert FreeBlock(b, p) ==> p in s;
      }
    }
    if Complete(b, lists, {}) {
      forall p | p in t ensures p in s {
        var k := Position(b, lists, p);
        assert lists[BlockIndex(b[p].size)][k] == p;
      }
    }
  }

  lemma SameCount(s: set<int>, t: set<int>)
    requires s <= t
    ensures |s| == |t| <==> s == t
  {
    assert t == s + (t - s);
    assert |t| == |s| + |t - s|;
    if |s| == |t| {
      assert t - s == {};
    }
  }

  // The first `k` blocks of list `l` point back to the ones before them.
  ghost predicate BackFront(m: seq<Byte>, l: seq<int>, k: int) {
    forall j :: 0 <= j < k && j < |l| ==> Pred(m, l[j]) == At(l, j - 1)
  }

  ghost predicate BackUpTo(m: seq<Byte>, lists: Lists, i: int) {
    forall i' :: 0 <= i' < i && i' < |lists| ==> BackFront(m, lists[i'], |lists[i']|)
  }

  lemma WalkLinked(b: Blocks, brk: int, m: seq<Byte>, heads: seq<int>, lists: Lists)
    requires Walkable(m, heads, b, lists, brk)
    ensures AllLinked(m, heads, lists) <==> BackUpTo(m, lists, LIST_NUM)
  {
    hide Succ, Pred, BlockIndex, Tagged, Shape;
    if BackUpTo(m, lists, LIST_NUM) {
      forall i | 0 <= i < LIST_NUM ensures Linked(m, heads[i], lists[i]) {
        assert Chain(m, heads[i], lists[i]) && BackFront(m, lists[i], |lists[i]|);
      }
    }
    if AllLinked(m, heads, lists) {
      forall i | 0 <= i < LIST_NUM ensures BackFront(m, lists[i], |lists[i]|) {
        assert Linked(m, heads[i], lists[i]);
      }
    }
  }

  // The tests of the last pass of mm_check at block `k` of a list: the head's PRED, the block's own links, and
  // the PRED of the block behind it
  lemma BackStep(b: Blocks, brk: int, m: seq<Byte>, heads: seq<int>, lists: Lists, i: int, k: int)
    requires Walkable(m, heads, b, lists, brk) && 0 <= i < LIST_NUM && 0 <= k < |lists[i]|
    requires BackFront(m, lists[i], k) && (k > 0 ==> BackFront(m, lists[i], k + 1))
    ensures Pred(m, lists[i][0]) != 0 || (Pred(m, lists[i][k]) == Succ(m, lists[i][k]) && Pred(m, lists[i][k]) != 0) ==>
              !BackFront(m, lists[i], |lists[i]|)
    ensures k + 1 < |lists[i]| && Pred(m, lists[i][k + 1]) != lists[i][k] ==> !BackFront(m, lists[i], |lists[i]|)
    ensures Pred(m, lists[i][0]) == 0 ==> BackFront(m, lists[i], k + 1)
    ensures Pred(m, lists[i][0]) == 0 && (k + 1 < |lists[i]| ==> Pred(m, lists[i][k + 1]) == lists[i][k]) ==>
              BackFront(m, lists[i], k + 2)
  {
    hide Succ, Pred, BlockIndex, Tagged, Shape;
    assert Chain(m, heads[i], lists[i]);
  }

  lemma NoneBack(m: seq<Byte>, l: seq<int>)
    ensures BackFront(m, l, 0)
  {
  }

  lemma BackLess(m: seq<Byte>, l: seq<int>, k: int)
    ensures BackFront(m, l, k + 1) ==> BackFront(m, l, k)
  {
  }
}
