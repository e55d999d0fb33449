// The bump allocator behind sbrk.

module Heap {
  import opened CArithmetic

  const FAILED: nat := 0xFFFF_FFFF

  datatype Block = Block(base: nat, size: nat)

  predicate Apart(a: Block, b: Block) {
    a.base + a.size <= b.base || b.base + b.size <= a.base
  }

  // (p + 3) & ~3 in 32 bits
  function WordAligned(p: nat): (q: nat)
    ensures q % 4 == 0
    ensures p + 3 < TWO_TO_THE_32 ==> p <= q <= p + 3
  {
    (p + 3) % TWO_TO_THE_32 / 4 * 4
  }

  // All blocks given out are word-aligned, inside the heap, and do not overlap.
  ghost predicate Separate(blocks: seq<Block>, start: nat, end: nat) {
    && (forall i :: 0 <= i < |blocks| ==>
          blocks[i].base % 4 == 0 && start <= blocks[i].base && blocks[i].base + blocks[i].size <= end)
    && (forall i, j :: 0 <= i < j < |blocks| ==> Apart(blocks[i], blocks[j]))
  }

  class Heap {
    const start: nat
    const limit: nat
    var heapEnd: nat
    // The blocks given out so far.
    ghost var blocks: seq<Block>

    // A heap that ends low enough for no request to carry a pointer past 2^32.
    ghost predicate Valid()
      reads this
    {
      && start <= heapEnd <= WordAligned(limit) && limit < 0x7FFF_FFF0
      && Separate(blocks, start, Min(heapEnd, limit))
    }

    constructor (start: nat, limit: nat)
      requires start <= limit < 0x7FFF_FFF0
      ensures Valid() && this.start == start && this.limit == limit && blocks == [] && heapEnd == start
    {
      this.start, this.limit := start, limit;
      heapEnd, blocks := start, [];
    }

    ghost predicate HasRoom(incr: nat)
      reads this
    {
      WordAligned(heapEnd) + incr <= limit
    }

    // Every later block starts at or past the present end, so what lies below it
    // stays apart from them.
    method Sbrk(incr: nat) returns (p: nat)
      requires Valid() && incr < 0x8000_0000
      modifies this
      ensures Valid() && heapEnd >= old(heapEnd)
      ensures if old(HasRoom(incr)) then p == WordAligned(old(heapEnd)) && blocks == old(blocks) + [Block(p, incr)]
                                         && heapEnd == p + incr
              else p == FAILED && blocks == old(blocks) && heapEnd == WordAligned(old(heapEnd))
    {
      heapEnd := WordAligned(heapEnd);
      if (heapEnd + incr) % TWO_TO_THE_32 > limit {
        return FAILED;
      }
      p := heapEnd;
      heapEnd := (heapEnd + incr) % TWO_TO_THE_32;
      blocks := blocks + [Block(p, incr)];
    }
  }
}
