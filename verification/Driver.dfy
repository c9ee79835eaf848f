/**
  The judge of the allocator, lab7/mdriver.c: the range list, and the two evaluations that run a trace
  of requests against mm_malloc, mm_free and mm_realloc.
 */
module Driver {
  import opened LittleEndian
  import opened Memlib
  import opened HeapShape
  import opened Malloc
  import opened Wrappers

  // ---------- traces ----------

  datatype Kind = Alloc | Free | Realloc

  datatype TraceOp = TraceOp(kind: Kind, index: int, size: int)

  // trace_t: the requests, and for each id the pointer and the size of its last block.
  class Trace {
    const ops: seq<TraceOp>
    const blocks: array<int>
    const blockSizes: array<int>

    constructor (ops: seq<TraceOp>, numIds: nat)
      ensures this.ops == ops && fresh(blocks) && fresh(blockSizes) && blocks != blockSizes
      ensures blocks.Length == blockSizes.Length == numIds
    {
      this.ops := ops;
      blocks := new int[numIds];
      blockSizes := new int[numIds];
    }
  }

  // The requested size of every id that is live.
  type Sizes = map<int, int>

  ghost function Step(live: Sizes, op: TraceOp): Sizes {
    match op.kind
    case Free => live - {op.index}
    case _ => live[op.index := op.size]
  }

  ghost function LiveAfter(ops: seq<TraceOp>, n: nat): Sizes
    requires n <= |ops|
  {
    if n == 0 then map[] else Step(LiveAfter(ops, n - 1), ops[n - 1])
  }

  // A request that makes sense when `live` are the live ids.
  ghost predicate Sensible(live: Sizes, op: TraceOp, numIds: int) {
    && 0 <= op.index < numIds
    && (op.kind == Alloc <==> op.index !in live)
    && (op.kind != Free ==> 0 < op.size && SmallEnough(op.size))
    && (op.kind != Free ==> GeneralSize(op.size) || (op.kind == Realloc && op.index in live && op.size <= live[op.index]))
  }

  ghost predicate WellFormed(ops: seq<TraceOp>, numIds: int) {
    forall n :: 0 <= n < |ops| ==> Sensible(LiveAfter(ops, n), ops[n], numIds)
  }

  // ---------- how much heap a trace may take ----------

  // The most by which a request moves the break when `live` are the sizes of the live ids
  ghost function Growth(live: Sizes, op: TraceOp): int {
    match op.kind
    case Free => 0
    case Alloc => Extended(op.size)
    case Realloc => if op.index in live && op.size <= live[op.index] then 0 else 2 * CHUNK_SIZE + Extended(op.size)
  }

  function Extended(size: int): (n: int)
    ensures n >= 0
  {
    if size < 0 then 0 else Extension(size)
  }

  // The most the break can be after `n` requests
  ghost function Demand(ops: seq<TraceOp>, n: nat): int
    requires n <= |ops|
  {
    if n == 0 then INITIAL_BRK else Demand(ops, n - 1) + Growth(LiveAfter(ops, n - 1), ops[n - 1])
  }

  lemma {:induction false} DemandGrows(ops: seq<TraceOp>, n: nat, k: nat)
    requires n <= k <= |ops|
    ensures Demand(ops, n) <= Demand(ops, k)
    decreases k
  {
    hide Extended, LiveAfter;
    if n < k {
      DemandGrows(ops, n, k - 1);
    }
  }

  // ---------- the range list ----------

  datatype Range = Range(lo: int, hi: int)

  ghost predicate Touches(lo: int, hi: int, p: Range) {
    p.lo <= lo <= p.hi || p.lo <= hi <= p.hi
  }

  ghost predicate Overlaps(lo: int, hi: int, p: Range) {
    lo <= p.hi && p.lo <= hi
  }

  // add_range's test misses exactly the old ranges that lie strictly inside the new one.
  lemma TouchesOrInside(lo: int, hi: int, p: Range)
    requires lo <= hi && p.lo <= p.hi
    ensures Overlaps(lo, hi, p) <==> Touches(lo, hi, p) || (lo < p.lo && p.hi < hi)
  {
  }

  ghost predicate InsideHeap(a: int, brk: int) {
    0 <= a <= brk - 1
  }

  // The list without its first range that starts at `lo`.
  ghost function Without(ranges: seq<Range>, lo: int): seq<Range> {
    if ranges == [] then [] else if ranges[0].lo == lo then ranges[1..] else [ranges[0]] + Without(ranges[1..], lo)
  }

  ghost function RangeOf(live: Sizes, blocks: seq<int>, id: int): Range {
    if id in live && 0 <= id < |blocks| then Range(blocks[id], blocks[id] + live[id] - 1) else Range(0, 0)
  }

  // `r` is the range of a live id.
  ghost predicate RangeOfLive(live: Sizes, blocks: seq<int>, r: Range) {
    exists id :: id in live && r == RangeOf(live, blocks, id)
  }

  // The ranges are those of the live ids, each once.
  ghost predicate Recorded(ranges: seq<Range>, live: Sizes, blocks: seq<int>) {
    && (forall id :: id in live ==> 0 <= id < |blocks| && RangeOf(live, blocks, id) in ranges)
    && (forall k :: 0 <= k < |ranges| ==> RangeOfLive(live, blocks, ranges[k]))
    && (forall j, k :: 0 <= j < k < |ranges| ==> ranges[j].lo != ranges[k].lo)
  }

  lemma {:induction false} WithoutAt(ranges: seq<Range>, lo: int, k: int)
    requires 0 <= k < |ranges| && ranges[k].lo == lo && forall j :: 0 <= j < k ==> ranges[j].lo != lo
    ensures Without(ranges, lo) == ranges[..k] + ranges[k + 1..]
  {
    if k > 0 {
      WithoutAt(ranges[1..], lo, k - 1);
      assert ranges[..k] == [ranges[0]] + ranges[1..][..k - 1];
      assert ranges[1..][k..] == ranges[k + 1..];
    }
  }

  lemma {:induction false} WithoutNone(ranges: seq<Range>, lo: int)
    requires forall j :: 0 <= j < |ranges| ==> ranges[j].lo != lo
    ensures Without(ranges, lo) == ranges
  {
    if ranges != [] {
      WithoutNone(ranges[1..], lo);
    }
  }

  // ---------- ids and live pointers ----------

  // Every live id has a live pointer of its own, with room for what was requested.
  ghost predicate Held(contents: map<int, seq<Byte>>, live: Sizes, blocks: seq<int>, sizes: seq<int>) {
    && |blocks| == |sizes|
    && (forall id :: id in live ==>
          && 0 <= id < |blocks| && sizes[id] == live[id]
          && blocks[id] in contents && 0 < live[id] <= |contents[blocks[id]]|)
    && (forall id, id' :: id in live && id' in live && id != id' ==> blocks[id] != blocks[id'])
  }

  // ... filled with the low byte of the id.
  ghost predicate Filled(contents: map<int, seq<Byte>>, live: Sizes, blocks: seq<int>) {
    forall id, k :: id in live && 0 <= id < |blocks| && blocks[id] in contents && 0 <= k < live[id] && k < |contents[blocks[id]]| ==>
      contents[blocks[id]][k] == id % 256
  }

  // The live payloads lie apart from each other, 8-aligned, inside the heap.
  ghost predicate Spread(contents: map<int, seq<Byte>>, brk: int) {
    && (forall p :: p in contents ==> p % 8 == 0 && 16 <= p && p + |contents[p]| <= brk - 8)
    && (forall p, q :: p in contents && q in contents && p < q ==> p + |contents[p]| <= q)
  }

  lemma LiveSpread(m: seq<Byte>, b: Blocks, brk: int)
    requires Shape(b, brk) && brk <= |m|
    ensures Spread(Live(m, b), brk)
  {
    hide Live, Shape;
    forall p | p in Live(m, b) ensures p % 8 == 0 && 16 <= p && p + |Live(m, b)[p]| <= brk - 8 {
      LiveSize(m, b, brk, p);
    }
    forall p, q | p in Live(m, b) && q in Live(m, b) && p < q ensures p + |Live(m, b)[p]| <= q {
      LiveDisjoint(m, b, brk, p, q);
    }
  }

  // A new pointer `p`, and what the live ids had before: add_range accepts it.
  ghost predicate Fresh(contents: map<int, seq<Byte>>, contents': map<int, seq<Byte>>, live: Sizes, blocks: seq<int>,
                        p: int, size: int) {
    && p in contents' && 0 < size <= |contents'[p]|
    && forall id :: id in live && 0 <= id < |blocks| && blocks[id] in contents ==>
         blocks[id] != p && blocks[id] in contents' && contents'[blocks[id]] == contents[blocks[id]]
  }

  lemma RangeAccepted(contents: map<int, seq<Byte>>, contents': map<int, seq<Byte>>, brk: int, live: Sizes,
                      blocks: seq<int>, sizes: seq<int>, ranges: seq<Range>, p: int, size: int)
    requires Spread(contents', brk) && Held(contents, live, blocks, sizes) && Recorded(ranges, live, blocks)
    requires Fresh(contents, contents', live, blocks, p, size)
    ensures p % 8 == 0 && InsideHeap(p, brk) && InsideHeap(p + size - 1, brk)
    ensures forall k :: 0 <= k < |ranges| ==> !Touches(p, p + size - 1, ranges[k])
  {
  }

  // The new pointer becomes the block of `id`.
  lemma Attached(contents: map<int, seq<Byte>>, contents': map<int, seq<Byte>>, live: Sizes,
                 blocks: seq<int>, sizes: seq<int>, ranges: seq<Range>, id: int, p: int, size: int)
    requires Held(contents, live, blocks, sizes) && Recorded(ranges, live, blocks) && Filled(contents, live, blocks)
    requires Fresh(contents, contents', live, blocks, p, size)
    requires 0 <= id < |blocks| && id !in live
    requires forall k :: 0 <= k < size ==> contents'[p][k] == id % 256
    ensures Held(contents', live[id := size], blocks[id := p], sizes[id := size])
    ensures Filled(contents', live[id := size], blocks[id := p])
    ensures Recorded([Range(p, p + size - 1)] + ranges, live[id := size], blocks[id := p])
  {
    AttachedRange(contents, live, blocks, sizes, ranges, id, p, size);
  }

  lemma AttachedRange(contents: map<int, seq<Byte>>, live: Sizes, blocks: seq<int>, sizes: seq<int>, ranges: seq<Range>,
                      id: int, p: int, size: int)
    requires Held(contents, live, blocks, sizes) && Recorded(ranges, live, blocks)
    requires 0 <= id < |blocks| && id !in live && forall x :: x in live ==> blocks[x] != p
    ensures Recorded([Range(p, p + size - 1)] + ranges, live[id := size], blocks[id := p])
  {
    var live', blocks', ranges' := live[id := size], blocks[id := p], [Range(p, p + size - 1)] + ranges;
    assert RangeOf(live', blocks', id) == ranges'[0];
    assert forall x :: x in live ==> RangeOf(live', blocks', x) == RangeOf(live, blocks, x);
    hide RangeOf, Held;
    forall x | x in live ensures RangeOf(live', blocks', x) in ranges' {
      assert RangeOf(live, blocks, x) in ranges;
    }
    forall k | 0 <= k < |ranges| ensures RangeOfLive(live', blocks', ranges[k]) {
      assert RangeOfLive(live, blocks, ranges[k]);
      var x :| x in live && ranges[k] == RangeOf(live, blocks, x);
      assert x in live';
    }
  }

  // An id is given up, and its range with it.
  lemma Detached(contents: map<int, seq<Byte>>, live: Sizes, blocks: seq<int>, sizes: seq<int>, ranges: seq<Range>, id: int)
    requires Held(contents, live, blocks, sizes) && Recorded(ranges, live, blocks) && Filled(contents, live, blocks)
    requires id in live
    ensures Held(contents, live - {id}, blocks, sizes) && Filled(contents, live - {id}, blocks)
    ensures Recorded(Without(ranges, blocks[id]), live - {id}, blocks)
  {
    var k :| 0 <= k < |ranges| && ranges[k] == RangeOf(live, blocks, id);
    WithoutAt(ranges, blocks[id], k);
    DetachedRange(live, blocks, ranges, id, k);
  }

  // The ranges but number `k`
  ghost function Cut(ranges: seq<Range>, k: int): (ranges': seq<Range>)
    requires 0 <= k < |ranges|
    ensures |ranges'| == |ranges| - 1
    ensures forall i :: 0 <= i < |ranges'| ==> ranges'[i] == ranges[if i < k then i else i + 1]
  {
    ranges[..k] + ranges[k + 1..]
  }

  lemma CutKeeps(ranges: seq<Range>, k: int, j: int)
    requires 0 <= k < |ranges| && 0 <= j < |ranges| && j != k
    ensures ranges[j] in Cut(ranges, k)
  {
    hide Cut;
    assert Cut(ranges, k)[if j < k then j else j - 1] == ranges[j];
  }

  lemma DetachedRange(live: Sizes, blocks: seq<int>, ranges: seq<Range>, id: int, k: int)
    requires Recorded(ranges, live, blocks) && id in live && 0 <= k < |ranges| && ranges[k] == RangeOf(live, blocks, id)
    requires forall x :: x in live && x != id ==> blocks[x] != blocks[id]
    ensures Recorded(ranges[..k] + ranges[k + 1..], live - {id}, blocks)
  {
    hide Cut, RangeOfLive;
    var ranges', live' := Cut(ranges, k), live - {id};
    CutIs(ranges, k);
    assert forall x :: x in live' ==> RangeOf(live', blocks, x) == RangeOf(live, blocks, x) != ranges[k];
    forall x | x in live' ensures RangeOf(live', blocks, x) in ranges' {
      var j :| 0 <= j < |ranges| && ranges[j] == RangeOf(live, blocks, x);
      CutKeeps(ranges, k, j);
    }
    forall i | 0 <= i < |ranges'| ensures RangeOfLive(live', blocks, ranges'[i]) {
      StillOfLive(live, blocks, ranges, id, k, if i < k then i else i + 1);
    }
  }

  lemma CutIs(ranges: seq<Range>, k: int)
    requires 0 <= k < |ranges|
    ensures Cut(ranges, k) == ranges[..k] + ranges[k + 1..]
  {
  }

  lemma StillOfLive(live: Sizes, blocks: seq<int>, ranges: seq<Range>, id: int, k: int, j: int)
    requires Recorded(ranges, live, blocks) && id in live && 0 <= k < |ranges| && ranges[k] == RangeOf(live, blocks, id)
    requires 0 <= j < |ranges| && j != k
    ensures RangeOfLive(live - {id}, blocks, ranges[j])
  {
    assert RangeOfLive(live, blocks, ranges[j]);
    var x :| x in live && ranges[j] == RangeOf(live, blocks, x);
    assert x in live - {id} && RangeOf(live - {id}, blocks, x) == RangeOf(live, blocks, x);
  }

  // The payload bytes kept by mm_realloc, whichever way it went.
  ghost predicate Reallocated(contents: map<int, seq<Byte>>, contents': map<int, seq<Byte>>, p: int, q: int, size: int) {
    if q == p then Resized(contents, contents', p, size) else Moved(contents, contents', p, q, size)
  }

  lemma ReallocatedFresh(contents: map<int, seq<Byte>>, contents': map<int, seq<Byte>>, brk: int, live: Sizes,
                         blocks: seq<int>, sizes: seq<int>, id: int, q: int, size: int)
    requires Held(contents, live, blocks, sizes) && id in live && 0 < size
    requires Reallocated(contents, contents', blocks[id], q, size)
    ensures Fresh(contents, contents', live - {id}, blocks, q, size)
    ensures Filled(contents, live, blocks) ==> forall k :: 0 <= k < size && k < live[id] ==> contents'[q][k] == id % 256
  {
  }

  lemma AllocatedFresh(contents: map<int, seq<Byte>>, contents': map<int, seq<Byte>>, live: Sizes, blocks: seq<int>,
                       sizes: seq<int>, p: int, size: int)
    requires Held(contents, live, blocks, sizes) && Allocated(contents, contents', p, size) && 0 < size
    ensures Fresh(contents, contents', live, blocks, p, size)
  {
  }

  // memset changes one live payload only.
  ghost predicate Set(contents: map<int, seq<Byte>>, contents': map<int, seq<Byte>>, p: int, c: int, size: int) {
    && p in contents && p in contents' && |contents'[p]| == |contents[p]|
    && contents' == contents[p := contents'[p]]
    && forall k :: 0 <= k < size && k < |contents'[p]| ==> contents'[p][k] == c
  }

  lemma FreshSet(contents: map<int, seq<Byte>>, contents1: map<int, seq<Byte>>, contents2: map<int, seq<Byte>>,
                 live: Sizes, blocks: seq<int>, p: int, c: int, size: int)
    requires Fresh(contents, contents1, live, blocks, p, size) && Set(contents1, contents2, p, c, size)
    ensures Fresh(contents, contents2, live, blocks, p, size)
    ensures forall k :: 0 <= k < size ==> contents2[p][k] == c
  {
  }

  lemma FreedHeld(contents: map<int, seq<Byte>>, live: Sizes, blocks: seq<int>, sizes: seq<int>, id: int)
    requires Held(contents, live, blocks, sizes) && Filled(contents, live, blocks) && id in live
    ensures Held(contents - {blocks[id]}, live - {id}, blocks, sizes) && Filled(contents - {blocks[id]}, live - {id}, blocks)
  {
  }

  lemma FreshRoom(contents: map<int, seq<Byte>>, contents': map<int, seq<Byte>>, live: Sizes, blocks: seq<int>, p: int, size: int)
    requires Fresh(contents, contents', live, blocks, p, size)
    ensures p in contents' && 0 < size <= |contents'[p]|
  {
  }

  lemma HeldLengths(contents: map<int, seq<Byte>>, live: Sizes, blocks: seq<int>, sizes: seq<int>)
    requires Held(contents, live, blocks, sizes)
    ensures |blocks| == |sizes|
  {
  }

  lemma HeldAt(contents: map<int, seq<Byte>>, live: Sizes, blocks: seq<int>, sizes: seq<int>, id: int)
    requires Held(contents, live, blocks, sizes) && id in live
    ensures 0 <= id < |blocks| == |sizes| && sizes[id] == live[id] > 0 && blocks[id] in contents
  {
  }

  lemma HeldLarge(contents: map<int, seq<Byte>>, live: Sizes, blocks: seq<int>, sizes: seq<int>, id: int)
    requires Held(contents, live, blocks, sizes) && id in live
    ensures 0 <= id < |blocks| && blocks[id] in contents && live[id] <= |contents[blocks[id]]|
  {
  }

  lemma ReallocatedEither(contents: map<int, seq<Byte>>, contents': map<int, seq<Byte>>, p: int, q: int, size: int)
    requires if q == p then Resized(contents, contents', p, size) else Moved(contents, contents', p, q, size)
    ensures Reallocated(contents, contents', p, q, size)
  {
  }

  lemma NothingYet(contents: map<int, seq<Byte>>, blocks: seq<int>, sizes: seq<int>)
    requires contents == map[] && |blocks| == |sizes|
    ensures Held(contents, map[], blocks, sizes) && Filled(contents, map[], blocks) && Recorded([], map[], blocks)
  {
  }

  lemma KeptInData(m: seq<Byte>, payload: seq<Byte>, p: int, n: int, c: int)
    requires 0 <= n <= |payload| && 0 <= p && p + |payload| <= |m| && payload == m[p..p + |payload|]
    requires forall k :: 0 <= k < n ==> payload[k] == c
    ensures forall a :: p <= a < p + n ==> m[a] == c
  {
    forall a | p <= a < p + n ensures m[a] == c {
      assert m[a] == payload[a - p];
    }
  }

  // ---------- utilization ----------

  // The sum of the requested sizes.
  ghost function Total(live: Sizes): int {
    if exists id :: id in live then var id :| id in live; live[id] + Total(live - {id}) else 0
  }

  lemma {:induction false} TotalWithout(live: Sizes, id: int)
    requires id in live
    ensures Total(live) == live[id] + Total(live - {id})
    decreases live
  {
    var x :| x in live && Total(live) == live[x] + Total(live - {x});
    if x != id {
      TotalWithout(live - {x}, id);
      TotalWithout(live - {id}, x);
      assert live - {x} - {id} == live - {id} - {x};
    }
  }

  // The high water mark of the live requested sizes over the first `n` requests.
  ghost function Peak(ops: seq<TraceOp>, n: nat): int
    requires n <= |ops|
  {
    if n == 0 then 0 else
      var before, now := Peak(ops, n - 1), Total(LiveAfter(ops, n));
      if now > before then now else before
  }

  // It is at least the sum after each request and is that sum after one of them, or before the first.
  lemma {:induction false} PeakIsHighest(ops: seq<TraceOp>, n: nat)
    requires n <= |ops|
    ensures forall i :: 0 <= i <= n ==> Total(LiveAfter(ops, i)) <= Peak(ops, n)
    ensures exists i :: 0 <= i <= n && Peak(ops, n) == Total(LiveAfter(ops, i))
  {
    hide Total, Step;
    if n == 0 {
      EmptyTotal();
      assert LiveAfter(ops, 0) == map[];
    } else {
      PeakIsHighest(ops, n - 1);
    }
  }

  lemma HighestBlock(live: Sizes, blocks: seq<int>) returns (top: int)
    requires exists id :: id in live
    requires forall id :: id in live ==> 0 <= id < |blocks|
    ensures top in live && forall id :: id in live ==> blocks[id] <= blocks[top]
    decreases live
  {
    var x :| x in live;
    assert forall id :: id in live && id != x ==> id in live - {x};
    if !exists id :: id in live - {x} {
      top := x;
    } else {
      top := HighestBlock(live - {x}, blocks);
      if blocks[top] < blocks[x] {
        top := x;
      }
    }
  }

  // Disjoint payloads that end by `end` do not add up to more than `end`.
  lemma {:induction false} TotalBelow(contents: map<int, seq<Byte>>, brk: int, live: Sizes, blocks: seq<int>, sizes: seq<int>, end: int)
    requires Spread(contents, brk) && Held(contents, live, blocks, sizes) && 16 <= end
    requires forall id :: id in live ==> blocks[id] + live[id] <= end
    ensures Total(live) <= end - 16
    decreases live
  {
    if exists id :: id in live {
      var top := HighestBlock(live, blocks);
      TotalBelow(contents, brk, live - {top}, blocks, sizes, blocks[top]);
      TotalWithout(live, top);
    }
  }

  lemma HeldAttached(contents: map<int, seq<Byte>>, contents': map<int, seq<Byte>>, live: Sizes,
                     blocks: seq<int>, sizes: seq<int>, id: int, p: int, size: int)
    requires Held(contents, live, blocks, sizes) && Fresh(contents, contents', live, blocks, p, size)
    requires 0 <= id < |blocks| && id !in live
    ensures Held(contents', live[id := size], blocks[id := p], sizes[id := size])
  {
  }

  lemma HeldDetached(contents: map<int, seq<Byte>>, live: Sizes, blocks: seq<int>, sizes: seq<int>, id: int)
    requires Held(contents, live, blocks, sizes) && id in live
    ensures Held(contents, live - {id}, blocks, sizes) && Held(contents - {blocks[id]}, live - {id}, blocks, sizes)
  {
  }

  lemma TotalAttached(live: Sizes, id: int, size: int)
    ensures Total(live[id := size]) == Total(live) - (if id in live then live[id] else 0) + size
  {
    TotalWithout(live[id := size], id);
    assert live[id := size] - {id} == live - {id};
    if id in live {
      TotalWithout(live, id);
    } else {
      assert live - {id} == live;
    }
  }

  lemma EmptyTotal()
    ensures Total(map[]) == 0
  {
  }

  lemma RatioBounds(a: int, b: int)
    requires 0 <= a <= b && 0 < b
    ensures 0.0 <= a as real / b as real <= 1.0
  {
  }

  // A request that eval_mm_valid turns down although the allocator served it: the kept bytes are read
  // back through a signed char and compared with a value of 128 or more.
  predicate ReadBackSigned(op: TraceOp) {
    op.kind == Realloc && op.index % 256 >= 128
  }

  // A request for which there was no room.
  ghost predicate RanOut(op: TraceOp, brk: int) {
    op.kind != Free && 0 <= op.size && OutOfMemory(brk, op.size)
  }

  // The value of a plain (signed) char
  function SignedChar(b: Byte): int {
    if b < 128 then b as int else b as int - 256
  }

  class Judge {
    const alloc: Allocator
    var ranges: seq<Range>

    constructor ()
      ensures fresh(alloc) && fresh(alloc.mem) && fresh(alloc.mem.data) && fresh(alloc.freeListp)
      ensures alloc.mem.Valid() && alloc.freeListp.Length == LIST_NUM
    {
      alloc := new Allocator();
      ranges := [];
    }

    // The arrays of a trace are none of the allocator's.
    predicate Separate(trace: Trace) {
      && trace.blocks != trace.blockSizes
      && trace.blocks != alloc.freeListp && trace.blockSizes != alloc.freeListp
      && trace.blocks.Length == trace.blockSizes.Length
    }

    // What holds between two requests.
    ghost predicate Running(trace: Trace, live: Sizes)
      reads this, alloc, alloc.mem, alloc.mem.data, alloc.freeListp, trace.blocks, trace.blockSizes
    {
      && Separate(trace) && alloc.Valid()
      && Held(alloc.Contents(), live, trace.blocks[..], trace.blockSizes[..])
      && Filled(alloc.Contents(), live, trace.blocks[..])
      && Recorded(ranges, live, trace.blocks[..])
    }

    // add_range
    method AddRange(lo: int, size: int) returns (ok: bool)
      requires 0 < size
      modifies this`ranges
      ensures ok <==> lo % 8 == 0 && InsideHeap(lo, alloc.mem.brk) && InsideHeap(lo + size - 1, alloc.mem.brk)
                      && forall k :: 0 <= k < |old(ranges)| ==> !Touches(lo, lo + size - 1, old(ranges)[k])
      ensures ranges == if ok then [Range(lo, lo + size - 1)] + old(ranges) else old(ranges)
    {
      var hi := lo + size - 1;
      if lo % 8 != 0 {
        return false;
      }
      if lo < alloc.mem.HeapLo() || lo > alloc.mem.HeapHi() || hi < alloc.mem.HeapLo() || hi > alloc.mem.HeapHi() {
        return false;
      }
      for k := 0 to |ranges|
        invariant forall j :: 0 <= j < k ==> !Touches(lo, hi, ranges[j])
      {
        var p := ranges[k];
        if (lo >= p.lo && lo <= p.hi) || (hi >= p.lo && hi <= p.hi) {
          return false;
        }
      }
      ranges := [Range(lo, hi)] + ranges;
      return true;
    }

    // remove_range
    method RemoveRange(lo: int)
      modifies this`ranges
      ensures ranges == Without(old(ranges), lo)
    {
      for k := 0 to |ranges|
        invariant ranges == old(ranges)
        invariant forall j :: 0 <= j < k ==> ranges[j].lo != lo
      {
        if ranges[k].lo == lo {
          WithoutAt(ranges, lo, k);
          ranges := ranges[..k] + ranges[k + 1..];
          return;
        }
      }
      WithoutNone(ranges, lo);
    }

    // memset(p, c, size), as the client of the allocator
    method Memset(p: int, c: Byte, size: int)
      requires alloc.Valid() && p in alloc.Contents() && 0 <= size <= |alloc.Contents()[p]|
      modifies alloc.mem.data
      ensures alloc.Valid() && Set(old(alloc.Contents()), alloc.Contents(), p, c, size)
    {
      hide Shape, Tagged, Placed, AllLinked, Complete, NoAdjacentFree, Live, SameOutside;
      ghost var m := alloc.mem.data[..];
      LiveSize(m, alloc.blocks, alloc.mem.brk, p);
      Fill(alloc.mem.data, p, c, size);
      WiderOutside(m, alloc.mem.data[..], p, p + size, p + alloc.blocks[p].size - 8);
      PayloadMove(m, alloc.mem.data[..], alloc.freeListp[..], alloc.blocks, alloc.lists, alloc.mem.brk, p);
      LiveSize(alloc.mem.data[..], alloc.blocks, alloc.mem.brk, p);
      OneChanged(Live(m, alloc.blocks), alloc.Contents(), p);
    }

    // The end of the ALLOC and REALLOC cases of eval_mm_valid: fill the block and remember it.
    method Remember(trace: Trace, index: int, p: int, size: int, ghost live: Sizes, ghost before: map<int, seq<Byte>>)
      requires Separate(trace) && alloc.Valid() && 0 <= index < trace.blocks.Length && index !in live
      requires Held(before, live, trace.blocks[..], trace.blockSizes[..]) && Filled(before, live, trace.blocks[..])
      requires ranges != [] && ranges[0] == Range(p, p + size - 1) && Recorded(ranges[1..], live, trace.blocks[..])
      requires Fresh(before, alloc.Contents(), live, trace.blocks[..], p, size)
      modifies alloc.mem.data, trace.blocks, trace.blockSizes
      ensures Running(trace, live[index := size])
    {
      hide Shape, Tagged, Placed, AllLinked, Complete, NoAdjacentFree, Live, Set, Fresh, Held, Filled, Recorded;
      ghost var c1, blocks, sizes := alloc.Contents(), trace.blocks[..], trace.blockSizes[..];
      FreshRoom(before, c1, live, blocks, p, size);
      Memset(p, index % 256, size);
      FreshSet(before, c1, alloc.Contents(), live, blocks, p, index % 256, size);
      Attached(before, alloc.Contents(), live, blocks, sizes, ranges[1..], index, p, size);
      trace.blocks[index] := p;
      trace.blockSizes[index] := size;
      assert trace.blocks[..] == blocks[index := p] && trace.blockSizes[..] == sizes[index := size];
      assert ranges == [Range(p, p + size - 1)] + ranges[1..];
    }

    // The ALLOC case of eval_mm_valid
    method ServeAlloc(trace: Trace, index: int, size: int, ghost live: Sizes) returns (ok: bool)
      requires Running(trace, live) && Sensible(live, TraceOp(Alloc, index, size), trace.blocks.Length)
      modifies this`ranges, alloc`blocks, alloc`lists, alloc.mem`brk, alloc.mem.data, alloc.freeListp
      modifies trace.blocks, trace.blockSizes
      ensures ok ==> Running(trace, live[index := size])
      ensures !ok ==> alloc.mem.brk == old(alloc.mem.brk) && OutOfMemory(alloc.mem.brk, size)
      ensures old(alloc.mem.brk) <= alloc.mem.brk <= old(alloc.mem.brk) + Extension(size)
    {
      hide Shape, Tagged, Placed, AllLinked, Complete, NoAdjacentFree, Live, NothingFits, Allocated, Set, Fresh;
      hide Held, Filled, Recorded, Spread, Touches;
      ghost var c0, blocks, sizes := alloc.Contents(), trace.blocks[..], trace.blockSizes[..];
      var p := alloc.Malloc(size);
      if p == 0 {
        return false;
      }
      ghost var c1 := alloc.Contents();
      AllocatedFresh(c0, c1, live, blocks, sizes, p, size);
      LiveSpread(alloc.mem.data[..], alloc.blocks, alloc.mem.brk);
      RangeAccepted(c0, c1, alloc.mem.brk, live, blocks, sizes, ranges, p, size);
      ghost var rest := ranges;
      var accepted := AddRange(p, size);
      if !accepted {
        return false;
      }
      assert ranges[1..] == rest;
      Remember(trace, index, p, size, live, c0);
      return true;
    }

    // The comparison loop of eval_mm_valid
    method CheckKept(newp: int, n: int, index: int) returns (ok: bool)
      requires 0 <= n && 0 <= newp && newp + n <= alloc.mem.data.Length
      ensures ok <==> forall a :: newp <= a < newp + n ==> SignedChar(alloc.mem.data[a]) == index % 256
    {
      for j := 0 to n
        invariant forall a :: newp <= a < newp + j ==> SignedChar(alloc.mem.data[a]) == index % 256
      {
        if SignedChar(alloc.mem.data[newp + j]) != index % 256 {
          return false;
        }
      }
      return true;
    }

    // ... which comes out right for kept bytes below 128 only
    method CheckCopied(newp: int, n: int, index: int) returns (ok: bool)
      requires alloc.Valid() && newp in alloc.Contents() && 0 < n <= |alloc.Contents()[newp]|
      requires forall k :: 0 <= k < n ==> alloc.Contents()[newp][k] == index % 256
      ensures ok <==> index % 256 < 128
    {
      hide Shape, Tagged, Placed, AllLinked, Complete, NoAdjacentFree, Live;
      LiveSize(alloc.mem.data[..], alloc.blocks, alloc.mem.brk, newp);
      KeptInData(alloc.mem.data[..], alloc.Contents()[newp], newp, n, index % 256);
      ok := CheckKept(newp, n, index);
      assert SignedChar(alloc.mem.data[newp]) == index % 256 <==> index % 256 < 128;
    }

    // The REALLOC case of eval_mm_valid
    method ServeRealloc(trace: Trace, index: int, size: int, ghost live: Sizes) returns (ok: bool)
      requires Running(trace, live) && Sensible(live, TraceOp(Realloc, index, size), trace.blocks.Length)
      modifies this`ranges, alloc`blocks, alloc`lists, alloc.mem`brk, alloc.mem.data, alloc.freeListp
      modifies trace.blocks, trace.blockSizes
      ensures ok ==> Running(trace, live[index := size])
      ensures ok ==> index % 256 < 128
      ensures !ok ==> index % 256 >= 128 || (OutOfMemory(alloc.mem.brk, size) && size > live[index]
                                             && alloc.mem.brk <= old(alloc.mem.brk) + 2 * CHUNK_SIZE)
      ensures old(alloc.mem.brk) <= alloc.mem.brk <=
              old(alloc.mem.brk) + if size <= live[index] then 0 else 2 * CHUNK_SIZE + Extension(size)
    {
      hide Shape, Tagged, Placed, AllLinked, Complete, NoAdjacentFree, Live, Reallocated, Set, Fresh, Resized, Moved;
      hide Held, Filled, Recorded, Spread, Touches, OutOfMemory;
      ghost var c0, blocks, sizes := alloc.Contents(), trace.blocks[..], trace.blockSizes[..];
      HeldAt(c0, live, blocks, sizes, index);
      var oldp := trace.blocks[index];
      if size <= live[index] {
        HeldLarge(c0, live, blocks, sizes, index);
        alloc.FitsAsIs(oldp, size);
      }
      NullNotLive(alloc.mem.data[..], alloc.blocks, alloc.mem.brk);
      var newp := alloc.Realloc(oldp, size);
      if newp == 0 {
        return false;
      }
      ghost var c1 := alloc.Contents();
      ReallocatedEither(c0, c1, oldp, newp, size);
      ReallocatedFresh(c0, c1, alloc.mem.brk, live, blocks, sizes, index, newp, size);
      Detached(c0, live, blocks, sizes, ranges, index);
      RemoveRange(oldp);
      LiveSpread(alloc.mem.data[..], alloc.blocks, alloc.mem.brk);
      RangeAccepted(c0, c1, alloc.mem.brk, live - {index}, blocks, sizes, ranges, newp, size);
      ghost var rest := ranges;
      var accepted := AddRange(newp, size);
      if !accepted {
        return false;
      }
      assert ranges[1..] == rest;
      var oldSize := trace.blockSizes[index];
      if size < oldSize {
        oldSize := size;
      }
      FreshRoom(c0, c1, live - {index}, blocks, newp, size);
      var kept := CheckCopied(newp, oldSize, index);
      if !kept {
        return false;
      }
      Remember(trace, index, newp, size, live - {index}, c0);
      assert (live - {index})[index := size] == live[index := size];
      return true;
    }

    // The FREE case of eval_mm_valid
    method ServeFree(trace: Trace, index: int, ghost live: Sizes)
      requires Running(trace, live) && index in live
      modifies this`ranges, alloc`blocks, alloc`lists, alloc.mem`brk, alloc.mem.data, alloc.freeListp
      ensures Running(trace, live - {index}) && alloc.mem.brk == old(alloc.mem.brk)
    {
      hide Shape, Tagged, Placed, AllLinked, Complete, NoAdjacentFree, Live;
      hide Held, Filled, Recorded;
      ghost var c0, blocks, sizes := alloc.Contents(), trace.blocks[..], trace.blockSizes[..];
      HeldAt(c0, live, blocks, sizes, index);
      var p := trace.blocks[index];
      Detached(c0, live, blocks, sizes, ranges, index);
      FreedHeld(c0, live, blocks, sizes, index);
      RemoveRange(p);
      alloc.Free(p);
    }

    // The switch of eval_mm_valid
    method Serve(trace: Trace, op: TraceOp, ghost live: Sizes) returns (ok: bool)
      requires Running(trace, live) && Sensible(live, op, trace.blocks.Length)
      modifies this`ranges, alloc`blocks, alloc`lists, alloc.mem`brk, alloc.mem.data, alloc.freeListp
      modifies trace.blocks, trace.blockSizes
      ensures ok ==> Running(trace, Step(live, op)) && !ReadBackSigned(op)
      ensures ok ==> old(alloc.mem.brk) <= alloc.mem.brk <= old(alloc.mem.brk) + Growth(live, op)
      ensures !ok ==> ReadBackSigned(op) || (RanOut(op, alloc.mem.brk) && MAX_HEAP < old(alloc.mem.brk) + Growth(live, op))
    {
      hide Running, GeneralSize, Extension;
      ok := true;
      match op.kind {
        case Alloc => ok := ServeAlloc(trace, op.index, op.size, live);
        case Realloc => ok := ServeRealloc(trace, op.index, op.size, live);
        case Free => ServeFree(trace, op.index, live);
      }
    }

    lemma NowRunning(trace: Trace)
      requires Metering(trace, map[]) && ranges == []
      requires Filled(alloc.Contents(), map[], trace.blocks[..]) && Recorded([], map[], trace.blocks[..])
      ensures Running(trace, map[])
    {
    }

    // eval_mm_valid accepts a well-formed trace unless the heap runs out at the next request, or that request
    // reallocates an id with a low byte of 128 or more; then it reports an error although the bytes were
    // kept.  `served` is the number of requests that went through.  In particular a trace whose demand fits
    // the heap is accepted exactly if it makes no such reallocation.
    method EvalValid(trace: Trace) returns (ok: bool, ghost served: nat)
      requires alloc.mem.Valid() && alloc.freeListp.Length == LIST_NUM && Separate(trace)
      requires WellFormed(trace.ops, trace.blocks.Length)
      modifies this, alloc, alloc.mem, alloc.mem.data, alloc.freeListp, trace.blocks, trace.blockSizes
      ensures served <= |trace.ops| && (ok <==> served == |trace.ops|)
      ensures ok ==> Running(trace, LiveAfter(trace.ops, |trace.ops|))
      ensures forall i :: 0 <= i < served ==> !ReadBackSigned(trace.ops[i])
      ensures !ok ==> ReadBackSigned(trace.ops[served]) ||
                      (RanOut(trace.ops[served], alloc.mem.brk) && MAX_HEAP < Demand(trace.ops, served + 1))
      ensures Demand(trace.ops, |trace.ops|) <= MAX_HEAP ==>
                (ok <==> forall i :: 0 <= i < |trace.ops| ==> !ReadBackSigned(trace.ops[i]))
    {
      hide Running, Metering, Filled, Recorded, RanOut, ReadBackSigned, Step, Sensible, Growth;
      ranges := [];
      ok, served := false, 0;
      var status := Start(trace);
      if status < 0 {
        return;
      }
      NowRunning(trace);
      for i := 0 to |trace.ops|
        invariant served == i && Running(trace, LiveAfter(trace.ops, i))
        invariant alloc.mem.brk <= Demand(trace.ops, i)
        invariant forall j :: 0 <= j < i ==> !ReadBackSigned(trace.ops[j])
      {
        ghost var live := LiveAfter(trace.ops, i);
        assert Sensible(live, trace.ops[i], trace.blocks.Length);
        ok := Serve(trace, trace.ops[i], live);
        if !ok {
          DemandGrows(trace.ops, i + 1, |trace.ops|);
          return;
        }
        served := served + 1;
      }
      return true, served;
    }

    // What eval_mm_util keeps up between two requests.
    ghost predicate Metering(trace: Trace, live: Sizes)
      reads this, alloc, alloc.mem, alloc.mem.data, alloc.freeListp, trace.blocks, trace.blockSizes
    {
      Separate(trace) && alloc.Valid() && Held(alloc.Contents(), live, trace.blocks[..], trace.blockSizes[..])
    }

    lemma TotalFits(trace: Trace, live: Sizes)
      requires Metering(trace, live)
      ensures Total(live) <= alloc.mem.brk
    {
      hide Shape, Live;
      LiveSpread(alloc.mem.data[..], alloc.blocks, alloc.mem.brk);
      ShapeBrk(alloc.blocks, alloc.mem.brk);
      TotalBelow(alloc.Contents(), alloc.mem.brk, live, trace.blocks[..], trace.blockSizes[..], alloc.mem.brk);
    }

    // The ALLOC case of eval_mm_util; `total` is total_size.
    method MeterAlloc(trace: Trace, index: int, size: int, total: int, ghost live: Sizes) returns (ok: bool, total': int)
      requires Metering(trace, live) && Sensible(live, TraceOp(Alloc, index, size), trace.blocks.Length) && total == Total(live)
      modifies alloc`blocks, alloc`lists, alloc.mem`brk, alloc.mem.data, alloc.freeListp
      modifies trace.blocks, trace.blockSizes
      ensures old(alloc.mem.brk) <= alloc.mem.brk <= old(alloc.mem.brk) + Extension(size)
      ensures ok ==> Metering(trace, live[index := size]) && total' == Total(live[index := size])
      ensures !ok ==> alloc.mem.brk == old(alloc.mem.brk) && OutOfMemory(alloc.mem.brk, size)
    {
      hide Shape, Tagged, Placed, AllLinked, Complete, NoAdjacentFree, Live, NothingFits, Allocated, Fresh, Held, Extension;
      ghost var c0, blocks, sizes := alloc.Contents(), trace.blocks[..], trace.blockSizes[..];
      HeldLengths(c0, live, blocks, sizes);
      var p := alloc.Malloc(size);
      if p == 0 {
        return false, total;
      }
      AllocatedFresh(c0, alloc.Contents(), live, blocks, sizes, p, size);
      HeldAttached(c0, alloc.Contents(), live, blocks, sizes, index, p, size);
      TotalAttached(live, index, size);
      trace.blocks[index] := p;
      trace.blockSizes[index] := size;
      assert trace.blocks[..] == blocks[index := p] && trace.blockSizes[..] == sizes[index := size];
      return true, total + size;
    }

    // The REALLOC case of eval_mm_util
    method MeterRealloc(trace: Trace, index: int, newSize: int, total: int, ghost live: Sizes) returns (ok: bool, total': int)
      requires Metering(trace, live) && Sensible(live, TraceOp(Realloc, index, newSize), trace.blocks.Length)
      requires total == Total(live)
      modifies alloc`blocks, alloc`lists, alloc.mem`brk, alloc.mem.data, alloc.freeListp
      modifies trace.blocks, trace.blockSizes
      ensures old(alloc.mem.brk) <= alloc.mem.brk <=
              old(alloc.mem.brk) + if newSize <= live[index] then 0 else 2 * CHUNK_SIZE + Extension(newSize)
      ensures ok ==> Metering(trace, live[index := newSize]) && total' == Total(live[index := newSize])
      ensures !ok ==> OutOfMemory(alloc.mem.brk, newSize) && newSize > live[index]
                      && alloc.mem.brk <= old(alloc.mem.brk) + 2 * CHUNK_SIZE
    {
      hide Shape, Tagged, Placed, AllLinked, Complete, NoAdjacentFree, Live, Fresh, Held, Extension, OutOfMemory;
      hide Resized, Moved, Reallocated;
      ghost var c0, blocks, sizes := alloc.Contents(), trace.blocks[..], trace.blockSizes[..];
      HeldAt(c0, live, blocks, sizes, index);
      var oldSize := trace.blockSizes[index];
      var oldp := trace.blocks[index];
      if newSize <= live[index] {
        HeldLarge(c0, live, blocks, sizes, index);
        alloc.FitsAsIs(oldp, newSize);
      }
      NullNotLive(alloc.mem.data[..], alloc.blocks, alloc.mem.brk);
      var newp := alloc.Realloc(oldp, newSize);
      if newp == 0 {
        return false, total;
      }
      ReallocatedEither(c0, alloc.Contents(), oldp, newp, newSize);
      ReallocatedFresh(c0, alloc.Contents(), alloc.mem.brk, live, blocks, sizes, index, newp, newSize);
      HeldDetached(c0, live, blocks, sizes, index);
      HeldAttached(c0, alloc.Contents(), live - {index}, blocks, sizes, index, newp, newSize);
      assert (live - {index})[index := newSize] == live[index := newSize];
      TotalAttached(live, index, newSize);
      trace.blocks[index] := newp;
      trace.blockSizes[index] := newSize;
      assert trace.blocks[..] == blocks[index := newp] && trace.blockSizes[..] == sizes[index := newSize];
      return true, total + (newSize - oldSize);
    }

    // The FREE case of eval_mm_util
    method MeterFree(trace: Trace, index: int, total: int, ghost live: Sizes) returns (total': int)
      requires Metering(trace, live) && index in live && total == Total(live)
      modifies alloc`blocks, alloc`lists, alloc.mem.data, alloc.freeListp
      ensures Metering(trace, live - {index}) && total' == Total(live - {index}) <= total
    {
      hide Shape, Tagged, Placed, AllLinked, Complete, NoAdjacentFree, Live, Held;
      ghost var c0, blocks, sizes := alloc.Contents(), trace.blocks[..], trace.blockSizes[..];
      HeldAt(c0, live, blocks, sizes, index);
      HeldDetached(c0, live, blocks, sizes, index);
      TotalWithout(live, index);
      var size := trace.blockSizes[index];
      alloc.Free(trace.blocks[index]);
      return total - size;
    }

    // The switch of eval_mm_util
    method Meter(trace: Trace, op: TraceOp, total: int, ghost live: Sizes) returns (ok: bool, total': int)
      requires Metering(trace, live) && Sensible(live, op, trace.blocks.Length) && total == Total(live)
      modifies alloc`blocks, alloc`lists, alloc.mem`brk, alloc.mem.data, alloc.freeListp
      modifies trace.blocks, trace.blockSizes
      ensures old(alloc.mem.brk) <= alloc.mem.brk
      ensures ok ==> alloc.mem.brk <= old(alloc.mem.brk) + Growth(live, op)
      ensures ok ==> Metering(trace, Step(live, op)) && total' == Total(Step(live, op))
      ensures ok && op.kind == Free ==> total' <= total
      ensures !ok ==> RanOut(op, alloc.mem.brk) && MAX_HEAP < old(alloc.mem.brk) + Growth(live, op)
    {
      hide Metering, GeneralSize, Extension, Total;
      ok := true;
      match op.kind {
        case Alloc => ok, total' := MeterAlloc(trace, op.index, op.size, total, live);
        case Realloc => ok, total' := MeterRealloc(trace, op.index, op.size, total, live);
        case Free => total' := MeterFree(trace, op.index, total, live);
      }
    }

    // The start of both evaluations: an empty heap, and mm_init
    method Start(trace: Trace) returns (status: int)
      requires alloc.mem.Valid() && alloc.freeListp.Length == LIST_NUM && Separate(trace)
      modifies alloc, alloc.mem, alloc.mem.data, alloc.freeListp
      ensures status == 0 && alloc.mem.brk == INITIAL_BRK && Metering(trace, map[])
      ensures Filled(alloc.Contents(), map[], trace.blocks[..]) && Recorded([], map[], trace.blocks[..])
    {
      hide Consistent, Complete, NoAdjacentFree, Held, Filled, Recorded, Live;
      alloc.mem.ResetBrk();
      status := alloc.Init();
      NothingYet(alloc.Contents(), trace.blocks[..], trace.blockSizes[..]);
    }

    // eval_mm_util: None stands for app_error, which ends the program; the heap has run out at the request
    // after the first `served`.
    method EvalUtil(trace: Trace) returns (util: Option<real>, ghost served: nat)
      requires alloc.mem.Valid() && alloc.freeListp.Length == LIST_NUM && Separate(trace)
      requires WellFormed(trace.ops, trace.blocks.Length)
      modifies alloc, alloc.mem, alloc.mem.data, alloc.freeListp, trace.blocks, trace.blockSizes
      ensures served <= |trace.ops| && (util.Some? <==> served == |trace.ops|)
      ensures match util
              case Some(u) => 0 < alloc.mem.brk && 0.0 <= u <= 1.0 &&
                              u == Peak(trace.ops, |trace.ops|) as real / alloc.mem.brk as real
              case None => RanOut(trace.ops[served], alloc.mem.brk) && MAX_HEAP < Demand(trace.ops, served + 1)
      ensures Demand(trace.ops, |trace.ops|) <= MAX_HEAP ==> util.Some?
    {
      hide Metering, RanOut, Step, Sensible, Growth, Total;
      util, served := None, 0;
      var status := Start(trace);
      if status < 0 {
        return;
      }
      EmptyTotal();
      var maxTotal, total := 0, 0;
      for i := 0 to |trace.ops|
        invariant served == i && Metering(trace, LiveAfter(trace.ops, i)) && total == Total(LiveAfter(trace.ops, i))
        invariant total <= maxTotal == Peak(trace.ops, i) <= alloc.mem.brk <= Demand(trace.ops, i)
        invariant 0 < alloc.mem.brk && 0 <= maxTotal
      {
        ghost var live := LiveAfter(trace.ops, i);
        assert Sensible(live, trace.ops[i], trace.blocks.Length);
        var ok;
        ok, total := Meter(trace, trace.ops[i], total, live);
        if !ok {
          DemandGrows(trace.ops, i + 1, |trace.ops|);
          return None, served;
        }
        served := served + 1;
        TotalFits(trace, LiveAfter(trace.ops, i + 1));
        if trace.ops[i].kind != Free {
          maxTotal := if total > maxTotal then total else maxTotal;
        }
      }
      RatioBounds(maxTotal, alloc.mem.brk);
      var u := maxTotal as real / alloc.mem.HeapSize() as real;
      return Some(u), served;
    }
  }

  // ---------- where the judge goes wrong ----------

  // A well-formed trace that fits the heap and is turned down although mm_realloc keeps the bytes: id 128 is
  // allocated and reallocated.
  const TURNED_DOWN: seq<TraceOp> := [TraceOp(Alloc, 128, 24), TraceOp(Realloc, 128, 32)]

  lemma TurnedDownTrace()
    ensures WellFormed(TURNED_DOWN, 129) && Demand(TURNED_DOWN, 2) <= MAX_HEAP && ReadBackSigned(TURNED_DOWN[1])
  {
    var ops := TURNED_DOWN;
    assert LiveAfter(ops, 0) == map[];
    assert LiveAfter(ops, 1) == map[128 := 24];
    assert Demand(ops, 1) == INITIAL_BRK + Growth(map[], ops[0]);
    assert Demand(ops, 2) == Demand(ops, 1) + Growth(map[128 := 24], ops[1]);
  }

  // A range that overlaps another without touching either of its ends
  lemma SurroundingRange()
    ensures Overlaps(0, 31, Range(8, 15)) && !Touches(0, 31, Range(8, 15))
  {
    assert 0 <= 8 <= 31;
  }
}
