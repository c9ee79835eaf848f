/**
  The simulated memory system of lab7/memlib.c, and the macros with which lab7/mm.c reads and
  writes it: a byte array of MAX_HEAP cells and a break pointer.  Addresses are offsets from
  `mem_start_brk`; the null pointer is 0.
 */
module Memlib {
  import opened LittleEndian

  const MAX_HEAP: int := 20 * 1048576

  // PUT(p, val)
  method Put(data: array<Byte>, p: int, v: int)
    requires 0 <= p <= data.Length - 4 && 0 <= v < WORD_LIMIT
    modifies data
    ensures Word(data[..], p) == v
    ensures SameOutside(old(data[..]), data[..], p, p + 4)
  {
    var v1 := v / 256;
    var v2 := v1 / 256;
    data[p], data[p + 1], data[p + 2], data[p + 3] := v % 256, v1 % 256, v2 % 256, v2 / 256;
  }

  // GET(p)
  method Get(data: array<Byte>, p: int) returns (w: int)
    requires 0 <= p <= data.Length - 4
    ensures w == Word(data[..], p)
  {
    w := data[p] as int + 256 * data[p + 1] as int + 65536 * data[p + 2] as int + 16777216 * data[p + 3] as int;
  }

  // PUTADDR(p, val)
  method PutAddr(data: array<Byte>, p: int, v: int)
    requires 0 <= p <= data.Length - 8 && 0 <= v < ADDRESS_LIMIT
    modifies data
    ensures Address(data[..], p) == v
    ensures SameOutside(old(data[..]), data[..], p, p + 8)
  {
    Put(data, p, v % WORD_LIMIT);
    ghost var m := data[..];
    Put(data, p + 4, v / WORD_LIMIT);
    WordFrame(m, data[..], p + 4, p + 8, p);
  }

  // GETADDR(p)
  method GetAddr(data: array<Byte>, p: int) returns (a: int)
    requires 0 <= p <= data.Length - 8
    ensures a == Address(data[..], p)
  {
    var lo := Get(data, p);
    var hi := Get(data, p + 4);
    a := lo + WORD_LIMIT * hi;
  }

  // memcpy(dst, src, n) between areas that do not overlap
  method Copy(data: array<Byte>, dst: int, src: int, n: int)
    requires 0 <= n && 0 <= dst <= data.Length - n && 0 <= src <= data.Length - n
    requires dst + n <= src || src + n <= dst
    modifies data
    ensures data[dst..dst + n] == old(data[src..src + n])
    ensures SameOutside(old(data[..]), data[..], dst, dst + n)
  {
    ghost var m := data[..];
    for i := 0 to n
      invariant data[dst..dst + i] == m[src..src + i]
      invariant SameOutside(m, data[..], dst, dst + i)
    {
      assert data[src + i] == m[src + i];
      data[dst + i] := data[src + i];
      assert data[dst..dst + i + 1] == data[dst..dst + i] + [m[src + i]];
    }
  }

  // memset(p, c, n)
  method Fill(data: array<Byte>, p: int, c: Byte, n: int)
    requires 0 <= n && 0 <= p <= data.Length - n
    modifies data
    ensures forall k :: p <= k < p + n ==> data[k] == c
    ensures SameOutside(old(data[..]), data[..], p, p + n)
  {
    for i := 0 to n
      invariant forall k :: p <= k < p + i ==> data[k] == c
      invariant forall a :: 0 <= a < data.Length && !(p <= a < p + n) ==> data[a] == old(data[a])
    {
      data[p + i] := c;
    }
  }

  class Memory {
    const data: array<Byte>
    var brk: int

    ghost predicate Valid()
      reads this
    {
      data.Length == MAX_HEAP && 0 <= brk <= MAX_HEAP
    }

    // mem_init
    constructor ()
      ensures Valid() && brk == 0 && fresh(data)
    {
      data := new Byte[MAX_HEAP];
      brk := 0;
    }

    // mem_reset_brk
    method ResetBrk()
      requires Valid()
      modifies this`brk
      ensures Valid() && brk == 0
    {
      brk := 0;
    }

    // mem_sbrk: the old break, or -1 when the heap cannot grow by `incr`.
    method Sbrk(incr: int) returns (p: int)
      requires Valid()
      modifies this`brk
      ensures Valid()
      ensures incr < 0 || MAX_HEAP < old(brk) + incr ==> p == -1 && brk == old(brk)
      ensures 0 <= incr <= MAX_HEAP - old(brk) ==> p == old(brk) && brk == old(brk) + incr
    {
      if incr < 0 || brk + incr > MAX_HEAP {
        return -1;
      }
      p := brk;
      brk := brk + incr;
    }

    // mem_heap_lo, mem_heap_hi and mem_heapsize
    function HeapLo(): int { 0 }

    function HeapHi(): int
      reads this
    {
      brk - 1
    }

    function HeapSize(): int
      reads this
    {
      brk
    }
  }
}
