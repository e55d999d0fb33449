// The cache maintenance loops over a direct-mapped data cache with write-back and a
// direct-mapped instruction cache.  Lines of memory are numbered by address / 32.

module Cache {
  import opened CArithmetic

  // NIOS2_DCACHE_LINE_SIZE and NIOS2_ICACHE_LINE_SIZE
  const LINE_SIZE: nat := 32

  datatype Slot = Empty | Line(number: nat, dirty: bool, data: int)

  // The slot line number goes to.
  function Index(number: nat, slots: nat): (i: nat)
    requires slots > 0
    ensures i < slots
  {
    number % slots
  }

  // Every slot holds a line of memory that belongs there.
  ghost predicate Placed(slots: seq<Slot>, mem: seq<int>) {
    && |slots| > 0
    && forall i :: 0 <= i < |slots| && slots[i].Line? ==>
         slots[i].number < |mem| && Index(slots[i].number, |slots|) == i
  }

  predicate Cached(slots: seq<Slot>, number: nat)
    requires |slots| > 0
  {
    var s := slots[Index(number, |slots|)];
    s.Line? && s.number == number
  }

  // What the processor reads from a line.
  function View(slots: seq<Slot>, mem: seq<int>, number: nat): int
    requires |slots| > 0 && number < |mem|
  {
    if Cached(slots, number) then slots[Index(number, |slots|)].data else mem[number]
  }

  // What memory is to hold once the line is written back.
  function WrittenBack(slots: seq<Slot>, mem: seq<int>, number: nat): int
    requires |slots| > 0 && number < |mem|
  {
    var s := slots[Index(number, |slots|)];
    if Cached(slots, number) && s.dirty then s.data else mem[number]
  }

  // Only dirty lines differ from memory.
  ghost predicate Coherent(slots: seq<Slot>, mem: seq<int>) {
    forall i :: 0 <= i < |slots| && slots[i].Line? && !slots[i].dirty && slots[i].number < |mem|
                ==> slots[i].data == mem[slots[i].number]
  }

  // The state after the lines in lo..hi, and no others, were written back and dropped.
  ghost predicate FlushedLines(slots: seq<Slot>, mem: seq<int>, slots1: seq<Slot>, mem1: seq<int>, lo: nat, hi: nat)
    requires |slots| > 0
  {
    && |slots1| == |slots| && |mem1| == |mem|
    && (forall i :: 0 <= i < |slots| ==>
          slots1[i] == if slots[i].Line? && lo <= slots[i].number < hi then Empty else slots[i])
    && (forall n :: 0 <= n < |mem| ==>
          mem1[n] == if lo <= n < hi then WrittenBack(slots, mem, n) else mem[n])
  }

  // The state after slots lo..hi were written back and emptied.
  ghost predicate FlushedSlots(slots: seq<Slot>, mem: seq<int>, slots1: seq<Slot>, mem1: seq<int>, hi: nat)
    requires |slots| > 0
  {
    && |slots1| == |slots| && |mem1| == |mem|
    && (forall i :: 0 <= i < |slots| ==> slots1[i] == if i < hi then Empty else slots[i])
    && (forall n :: 0 <= n < |mem| ==>
          mem1[n] == if Index(n, |slots|) < hi then WrittenBack(slots, mem, n) else mem[n])
  }

  class DataCache {
    const slots: array<Slot>
    const mem: array<int>

    ghost predicate Valid()
      reads this, slots, mem
    {
      Placed(slots[..], mem[..])
    }

    constructor (slots: array<Slot>, mem: array<int>)
      requires Placed(slots[..], mem[..])
      ensures this.slots == slots && this.mem == mem && Valid()
    {
      this.slots, this.mem := slots, mem;
    }

    // Write slot i back if it is dirty, and empty it.
    method Drop(i: nat)
      requires Valid() && i < slots.Length
      modifies slots, mem
      ensures Valid()
      ensures slots[..] == old(slots[..])[i := Empty]
      ensures forall n :: 0 <= n < mem.Length ==>
                mem[n] == if Index(n, slots.Length) == i then WrittenBack(old(slots[..]), old(mem[..]), n)
                          else old(mem[n])
    {
      var s := slots[i];
      if s.Line? && s.dirty {
        mem[s.number] := s.data;
      }
      slots[i] := Empty;
    }

    // flushda: flush the line of the address if it is in the cache.
    method FlushDa(address: nat)
      requires Valid()
      modifies slots, mem
      ensures Valid()
      ensures FlushedLines(old(slots[..]), old(mem[..]), slots[..], mem[..],
                           address / LINE_SIZE, address / LINE_SIZE + 1)
    {
      var number := address / LINE_SIZE;
      if Cached(slots[..], number) {
        Drop(Index(number, slots.Length));
      }
    }

    // flushd: flush whatever line is in the slot of the address.
    method FlushD(address: nat)
      requires Valid()
      modifies slots, mem
      ensures Valid()
      ensures slots[..] == old(slots[..])[Index(address / LINE_SIZE, slots.Length) := Empty]
      ensures forall n :: 0 <= n < mem.Length ==>
                mem[n] == if Index(n, slots.Length) == Index(address / LINE_SIZE, slots.Length)
                          then WrittenBack(old(slots[..]), old(mem[..]), n) else old(mem[n])
    {
      Drop(Index(address / LINE_SIZE, slots.Length));
    }

    // alt_dcache_flush.  The pointers must not wrap.
    method DcacheFlush(start: nat, len: nat)
      requires Valid() && start + len + LINE_SIZE <= TWO_TO_THE_32
      modifies slots, mem
      ensures Valid()
      ensures FlushedLines(old(slots[..]), old(mem[..]), slots[..], mem[..],
                           start / LINE_SIZE, start / LINE_SIZE + LinesTouched(start, len))
    {
      hide FlushedLines, WrittenBack;
      var i, end := start, start + len;
      ghost var k, slots0, mem0 := 0, slots[..], mem[..];
      NothingFlushed(slots[..], mem[..], start / LINE_SIZE);
      while i < end
        invariant Valid() && k >= 0 && i == start + LINE_SIZE * k && i < end + LINE_SIZE
        invariant FlushedLines(slots0, mem0, slots[..], mem[..], start / LINE_SIZE, start / LINE_SIZE + k)
      {
        FlushStep(i, slots0, mem0, start, k);
        i, k := i + LINE_SIZE, k + 1;
      }
      if start % LINE_SIZE != 0 {
        FlushStep(i, slots0, mem0, start, k);
      }
    }

    // One flushda of the loop, the k-th.
    method FlushStep(i: nat, ghost slots0: seq<Slot>, ghost mem0: seq<int>, ghost start: nat, ghost k: nat)
      requires Valid() && |slots0| > 0 && i == start + LINE_SIZE * k
      requires FlushedLines(slots0, mem0, slots[..], mem[..], start / LINE_SIZE, start / LINE_SIZE + k)
      modifies slots, mem
      ensures Valid()
      ensures FlushedLines(slots0, mem0, slots[..], mem[..], start / LINE_SIZE, start / LINE_SIZE + k + 1)
    {
      hide Placed, FlushedLines, WrittenBack;
      ghost var slots1, mem1 := slots[..], mem[..];
      FlushDa(i);
      OneMoreLine(slots0, mem0, slots1, mem1, slots[..], mem[..], start / LINE_SIZE, start / LINE_SIZE + k);
    }

    // alt_dcache_flush_all
    method DcacheFlushAll()
      requires Valid()
      modifies slots, mem
      ensures Valid()
      ensures FlushedSlots(old(slots[..]), old(mem[..]), slots[..], mem[..], slots.Length)
    {
      hide Index, FlushedSlots, WrittenBack;
      var i := 0;
      ghost var k, slots0, mem0 := 0, slots[..], mem[..];
      NoSlotFlushed(slots0, mem0);
      while i < slots.Length * LINE_SIZE
        invariant Valid() && 0 <= k <= slots.Length && i == LINE_SIZE * k
        invariant FlushedSlots(slots0, mem0, slots[..], mem[..], k)
      {
        SmallIndex(k, slots.Length);
        ghost var slots1, mem1 := slots[..], mem[..];
        FlushD(i);
        OneMoreSlot(slots0, mem0, slots1, mem1, slots[..], mem[..], k);
        i, k := i + LINE_SIZE, k + 1;
      }
    }
  }

  lemma NoSlotFlushed(slots: seq<Slot>, mem: seq<int>)
    requires |slots| > 0
    ensures FlushedSlots(slots, mem, slots, mem, 0)
  {
  }

  // How many flushes a range takes.
  function LinesTouched(start: nat, len: nat): nat {
    (len + LINE_SIZE - 1) / LINE_SIZE + if start % LINE_SIZE != 0 then 1 else 0
  }

  // They reach the line of every byte of the range, and at most one line beyond.
  lemma RangeIsTouched(start: nat, len: nat)
    ensures forall a: nat :: start <= a < start + len
                        ==> start / LINE_SIZE <= a / LINE_SIZE < start / LINE_SIZE + LinesTouched(start, len)
    ensures len > 0 ==> start / LINE_SIZE + LinesTouched(start, len) <= (start + len - 1) / LINE_SIZE + 2
  {
  }

  lemma NothingFlushed(slots: seq<Slot>, mem: seq<int>, lo: nat)
    requires |slots| > 0
    ensures FlushedLines(slots, mem, slots, mem, lo, lo)
  {
  }

  lemma OneMoreLine(slots: seq<Slot>, mem: seq<int>, slots1: seq<Slot>, mem1: seq<int>,
                    slots2: seq<Slot>, mem2: seq<int>, lo: nat, m: nat)
    requires |slots| > 0 && lo <= m
    requires FlushedLines(slots, mem, slots1, mem1, lo, m) && FlushedLines(slots1, mem1, slots2, mem2, m, m + 1)
    ensures FlushedLines(slots, mem, slots2, mem2, lo, m + 1)
  {
    hide Index;
    if m < |mem| {
      assert WrittenBack(slots1, mem1, m) == WrittenBack(slots, mem, m);
    }
  }

  lemma OneMoreSlot(slots: seq<Slot>, mem: seq<int>, slots1: seq<Slot>, mem1: seq<int>,
                    slots2: seq<Slot>, mem2: seq<int>, i: nat)
    requires i < |slots| && FlushedSlots(slots, mem, slots1, mem1, i)
    requires slots2 == slots1[i := Empty] && |mem2| == |mem1|
    requires forall n :: 0 <= n < |mem1| ==>
               mem2[n] == if Index(n, |slots|) == i then WrittenBack(slots1, mem1, n) else mem1[n]
    ensures FlushedSlots(slots, mem, slots2, mem2, i + 1)
  {
    hide Index;
  }

  lemma SmallIndex(number: nat, slots: nat)
    requires number < slots
    ensures Index(number, slots) == number
  {
  }

  // ---------- what the flushes are for ----------

  // After the flush of a range the processor reads what it read before, everywhere,
  // and memory holds just that throughout the range.
  lemma FlushMakesMemoryTrue(slots: seq<Slot>, mem: seq<int>, slots1: seq<Slot>, mem1: seq<int>, lo: nat, hi: nat)
    requires Placed(slots, mem) && Coherent(slots, mem) && FlushedLines(slots, mem, slots1, mem1, lo, hi)
    ensures Coherent(slots1, mem1)
    ensures forall n :: 0 <= n < |mem| ==> View(slots1, mem1, n) == View(slots, mem, n)
    ensures forall n :: 0 <= n < |mem| && lo <= n < hi ==> mem1[n] == View(slots, mem, n) && !Cached(slots1, n)
  {
    hide Index;
  }

  lemma FlushAllMakesMemoryTrue(slots: seq<Slot>, mem: seq<int>, slots1: seq<Slot>, mem1: seq<int>)
    requires Placed(slots, mem) && Coherent(slots, mem) && FlushedSlots(slots, mem, slots1, mem1, |slots|)
    ensures forall n :: 0 <= n < |mem| ==> mem1[n] == View(slots, mem, n) == View(slots1, mem1, n)
    ensures forall n :: 0 <= n < |mem| ==> !Cached(slots1, n)
  {
    hide Index;
  }

  // Byte by byte, for the range as the caller gave it.
  lemma RangeIsTrue(slots: seq<Slot>, mem: seq<int>, slots1: seq<Slot>, mem1: seq<int>, start: nat, len: nat, a: nat)
    requires Placed(slots, mem) && Coherent(slots, mem)
    requires FlushedLines(slots, mem, slots1, mem1, start / LINE_SIZE, start / LINE_SIZE + LinesTouched(start, len))
    requires start <= a < start + len <= |mem| * LINE_SIZE
    ensures a / LINE_SIZE < |mem| && mem1[a / LINE_SIZE] == View(slots, mem, a / LINE_SIZE)
  {
    hide Index, Placed, Coherent, FlushedLines, View, LinesTouched;
    RangeIsTouched(start, len);
    FlushMakesMemoryTrue(slots, mem, slots1, mem1, start / LINE_SIZE, start / LINE_SIZE + LinesTouched(start, len));
  }

  // ---------- the instruction cache ----------

  datatype Tag = Invalid | Holds(number: nat)

  ghost predicate Fetchable(tags: seq<Tag>, number: nat)
    requires |tags| > 0
  {
    tags[Index(number, |tags|)] == Holds(number)
  }

  // The slots of lines lo..hi are invalid, all others are as before.
  ghost predicate Invalidated(tags: seq<Tag>, tags1: seq<Tag>, lo: nat, hi: nat)
    requires |tags| > 0
  {
    && |tags1| == |tags|
    && (forall n :: lo <= n < hi ==> tags1[Index(n, |tags|)] == Invalid)
    && (forall i :: 0 <= i < |tags| ==>
          tags1[i] == tags[i] || (tags1[i] == Invalid && exists n :: lo <= n < hi && Index(n, |tags|) == i))
  }

  class InstructionCache {
    const tags: array<Tag>

    constructor (tags: array<Tag>)
      requires tags.Length > 0
      ensures this.tags == tags
    {
      this.tags := tags;
    }

    // flushi: invalidate the slot of the address.
    method FlushI(address: nat)
      requires tags.Length > 0
      modifies tags
      ensures tags[..] == old(tags[..])[Index(address / LINE_SIZE, tags.Length) := Invalid]
    {
      tags[Index(address / LINE_SIZE, tags.Length)] := Invalid;
    }

    // alt_icache_flush.  A range longer than the cache is cut to its size; no line
    // of the whole range can be fetched from the cache afterwards.
    method IcacheFlush(start: nat, len0: nat)
      requires tags.Length > 0 && start + Min(len0, tags.Length * LINE_SIZE) + LINE_SIZE <= TWO_TO_THE_32
      modifies tags
      ensures Invalidated(old(tags[..]), tags[..], start / LINE_SIZE,
                          start / LINE_SIZE + LinesTouched(start, Min(len0, tags.Length * LINE_SIZE)))
      ensures forall a: nat :: start <= a < start + len0 ==> !Fetchable(tags[..], a / LINE_SIZE)
    {
      hide Index, Invalidated, Fetchable;
      var len := len0;
      if len > tags.Length * LINE_SIZE {
        len := tags.Length * LINE_SIZE;
      }
      var i, end := start, start + len;
      ghost var lo, k := start / LINE_SIZE, 0;
      NothingInvalidated(tags[..], lo);
      while i < end
        invariant k >= 0 && i == start + LINE_SIZE * k && i < end + LINE_SIZE
        invariant Invalidated(old(tags[..]), tags[..], lo, lo + k)
      {
        OneMoreInvalid(old(tags[..]), tags[..], lo, lo + k);
        FlushI(i);
        i, k := i + LINE_SIZE, k + 1;
      }
      if start % LINE_SIZE != 0 {
        OneMoreInvalid(old(tags[..]), tags[..], lo, lo + k);
        FlushI(i);
      }
      WholeRangeInvalid(old(tags[..]), tags[..], start, len0);
    }
  }

  lemma NothingInvalidated(tags: seq<Tag>, lo: nat)
    requires |tags| > 0
    ensures Invalidated(tags, tags, lo, lo)
  {
  }

  lemma OneMoreInvalid(tags: seq<Tag>, tags1: seq<Tag>, lo: nat, hi: nat)
    requires |tags| > 0 && lo <= hi && Invalidated(tags, tags1, lo, hi)
    ensures Invalidated(tags, tags1[Index(hi, |tags|) := Invalid], lo, hi + 1)
  {
    hide Index;
  }

  // A window as long as the cache meets every slot.
  lemma WindowMeetsSlot(number: nat, lo: nat, slots: nat) returns (n: nat)
    requires slots > 0 && number >= lo
    ensures lo <= n < lo + slots && Index(n, slots) == Index(number, slots)
  {
    hide Index;
    var q, r := Divide(number - lo, slots);
    n := lo + r;
    SameIndex(n, q, slots, number);
  }

  lemma SameIndex(n: nat, q: nat, slots: nat, number: nat)
    requires slots > 0 && number == slots * q + n
    ensures Index(number, slots) == Index(n, slots)
  {
    var a, b := Divide(n, slots);
    DivUnique(n, slots, a, b);
    Distribute(slots, q, a);
    DivUnique(number, slots, q + a, b);
  }

  lemma Distribute(m: nat, q: nat, a: nat)
    ensures m * (q + a) == m * q + m * a
  {
  }

  lemma WholeRangeInvalid(tags: seq<Tag>, tags1: seq<Tag>, start: nat, len0: nat)
    requires |tags| > 0
    requires Invalidated(tags, tags1, start / LINE_SIZE,
                         start / LINE_SIZE + LinesTouched(start, Min(len0, |tags| * LINE_SIZE)))
    ensures forall a: nat :: start <= a < start + len0 ==> !Fetchable(tags1, a / LINE_SIZE)
  {
    hide Index;
    var lo := start / LINE_SIZE;
    RangeIsTouched(start, len0);
    forall a: nat | start <= a < start + len0
      ensures !Fetchable(tags1, a / LINE_SIZE)
    {
      if len0 > |tags| * LINE_SIZE {
        var n := WindowMeetsSlot(a / LINE_SIZE, lo, |tags|);
        assert tags1[Index(n, |tags|)] == Invalid;
      }
    }
  }
}
