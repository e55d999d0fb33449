// The call graph profiler: mcount's hash table of functions and their arcs, built in
// memory taken from sbrk a slab at a time.

module Profiler {
  import opened CArithmetic
  import H = Heap

  const HASH_BUCKETS: nat := 64
  const MCOUNT_SLAB_INCREMENT: nat := 1020
  // sizeof(struct mcount_fn_entry) == sizeof(struct mcount_fn_arc)
  const ENTRY_SIZE: nat := 12

  datatype FnEntry = FnEntry(next: nat, selfPc: nat, arcHead: nat)
  datatype ArcEntry = ArcEntry(next: nat, fromPc: nat, count: nat)

  type Fns = map<nat, FnEntry>
  type Arcs = map<nat, ArcEntry>

  // Bits 5 up of the address choose the bucket.
  function Bucket(pc: nat): (b: nat)
    ensures b < HASH_BUCKETS
  {
    pc / 32 % HASH_BUCKETS
  }

  // The byte offset of the list head in its table of words: the address shifted right by
  // three, and of that the bits of 0xFC.
  lemma BucketOffset(pc: nat)
    ensures 4 * Bucket(pc) == pc / 8 % 0x100 - pc / 8 % 4
  {
    ShiftInSteps(pc);
    MaskLow(pc / 8);
  }

  lemma ShiftInSteps(pc: nat)
    ensures pc / 32 == pc / 8 / 4
  {
  }

  lemma MaskLow(x: nat)
    ensures 4 * (x / 4 % 64) == x % 0x100 - x % 4
  {
    var k := x / 4 / 64;
    assert x == 0x100 * k + (4 * (x / 4 % 64) + x % 4);
  }

  // A list in the order its entries were put in: each entry points to the one before
  // it, and the head to the last.
  function HeadOf(chain: seq<nat>): nat {
    if chain == [] then 0 else chain[|chain| - 1]
  }

  // chain is the function list of bucket b: no pointer is null, each function is in
  // its bucket, none is there twice.
  ghost predicate FnChain(fns: Fns, b: nat, chain: seq<nat>) {
    && (forall k :: 0 <= k < |chain| ==>
          chain[k] != 0 && chain[k] in fns && Bucket(fns[chain[k]].selfPc) == b)
    && (chain != [] ==> fns[chain[0]].next == 0)
    && (forall j, k :: 0 <= j < k == j + 1 < |chain| ==> fns[chain[k]].next == chain[j])
    && (forall j, k :: 0 <= j < k < |chain| ==> fns[chain[j]].selfPc != fns[chain[k]].selfPc)
  }

  // chain is the arc list of function f.
  ghost predicate ArcChain(arcs: Arcs, owner: map<nat, nat>, f: nat, chain: seq<nat>) {
    && (forall k :: 0 <= k < |chain| ==>
          chain[k] != 0 && chain[k] in arcs && chain[k] in owner && owner[chain[k]] == f)
    && (chain != [] ==> arcs[chain[0]].next == 0)
    && (forall j, k :: 0 <= j < k == j + 1 < |chain| ==> arcs[chain[k]].next == chain[j])
    && (forall j, k :: 0 <= j < k < |chain| ==> arcs[chain[j]].fromPc != arcs[chain[k]].fromPc)
  }

  // The function lists.
  ghost predicate FnsListed(heads: seq<nat>, fns: Fns, chains: seq<seq<nat>>) {
    && |heads| == |chains| == HASH_BUCKETS
    && (forall b :: 0 <= b < HASH_BUCKETS ==> heads[b] == HeadOf(chains[b]) && FnChain(fns, b, chains[b]))
    && (forall f :: f in fns ==> f in chains[Bucket(fns[f].selfPc)])
  }

  // The arc list of every function.
  ghost predicate ArcsListed(fns: Fns, arcs: Arcs, owner: map<nat, nat>, arcChains: map<nat, seq<nat>>) {
    && arcChains.Keys == fns.Keys
    && (forall f :: f in fns ==> fns[f].arcHead == HeadOf(arcChains[f]) && ArcChain(arcs, owner, f, arcChains[f]))
    && (forall a :: a in arcs ==> a in owner && owner[a] in fns && a in arcChains[owner[a]])
  }

  // arcOf finds the one arc of each pair of callee and caller.
  ghost predicate Indexed(fns: Fns, arcs: Arcs, owner: map<nat, nat>, arcOf: map<(nat, nat), nat>) {
    && (forall a :: a in arcs ==> a in owner && owner[a] in fns
                                  && (fns[owner[a]].selfPc, arcs[a].fromPc) in arcOf
                                  && arcOf[(fns[owner[a]].selfPc, arcs[a].fromPc)] == a)
    && (forall key :: key in arcOf ==>
          && arcOf[key] in arcs && arcOf[key] in owner && owner[arcOf[key]] in fns
          && fns[owner[arcOf[key]]].selfPc == key.0 && arcs[arcOf[key]].fromPc == key.1)
  }

  predicate IsEntry(fns: Fns, arcs: Arcs, p: nat) {
    p in fns || p in arcs
  }

  // Entries lie below end, and no two of them overlap.
  ghost predicate Placed(fns: Fns, arcs: Arcs, end: nat) {
    && (forall p: nat :: IsEntry(fns, arcs, p) ==> 0 < p && p + ENTRY_SIZE <= end && !(p in fns && p in arcs))
    && (forall p: nat, q: nat :: IsEntry(fns, arcs, p) && IsEntry(fns, arcs, q) && p < q ==> p + ENTRY_SIZE <= q)
  }

  // Every function has been called, so no arc list is empty.
  ghost predicate AllCalled(arcChains: map<nat, seq<nat>>) {
    forall f :: f in arcChains ==> arcChains[f] != []
  }

  ghost predicate AllCalledBut(arcChains: map<nat, seq<nat>>, f: nat) {
    forall g :: g in arcChains && g != f ==> arcChains[g] != []
  }

  // How often the profile says the caller called the callee.
  ghost function Seen(arcs: Arcs, arcOf: map<(nat, nat), nat>, key: (nat, nat)): nat {
    if key in arcOf && arcOf[key] in arcs then arcs[arcOf[key]].count else 0
  }

  // ---------- one function, one arc ----------

  lemma FnIsUnique(heads: seq<nat>, fns: Fns, chains: seq<seq<nat>>, f: nat, g: nat)
    requires FnsListed(heads, fns, chains) && f in fns && g in fns && fns[f].selfPc == fns[g].selfPc
    ensures f == g
  {
    hide Bucket;
    var chain := chains[Bucket(fns[f].selfPc)];
    var j :| 0 <= j < |chain| && chain[j] == f;
    var k :| 0 <= k < |chain| && chain[k] == g;
  }

  // A pair no arc was found for was never seen.
  lemma NoSuchFn(fns: Fns, arcs: Arcs, owner: map<nat, nat>, arcOf: map<(nat, nat), nat>, key: (nat, nat))
    requires Indexed(fns, arcs, owner, arcOf) && forall g :: g in fns ==> fns[g].selfPc != key.0
    ensures key !in arcOf
  {
  }

  lemma NoSuchArc(heads: seq<nat>, fns: Fns, chains: seq<seq<nat>>, arcs: Arcs, owner: map<nat, nat>,
                  arcOf: map<(nat, nat), nat>, f: nat, key: (nat, nat))
    requires FnsListed(heads, fns, chains) && Indexed(fns, arcs, owner, arcOf) && f in fns && fns[f].selfPc == key.0
    requires forall c :: c in arcs && owner[c] == f ==> arcs[c].fromPc != key.1
    ensures key !in arcOf
  {
    hide FnsListed;
    if key in arcOf {
      FnIsUnique(heads, fns, chains, f, owner[arcOf[key]]);
      assert false;
    }
  }

  // The call of one pair is counted, in 32 bits, and nothing else changes.
  ghost predicate CountsOne(arcs: Arcs, arcOf: map<(nat, nat), nat>, arcs1: Arcs, arcOf1: map<(nat, nat), nat>,
                            key: (nat, nat)) {
    forall k :: Seen(arcs1, arcOf1, k)
                == if k == key then (Seen(arcs, arcOf, k) + 1) % TWO_TO_THE_32 else Seen(arcs, arcOf, k)
  }

  lemma CountsOneMore(fns: Fns, arcs: Arcs, owner: map<nat, nat>, arcOf: map<(nat, nat), nat>, a: nat)
    requires Indexed(fns, arcs, owner, arcOf) && a in arcs
    ensures CountsOne(arcs, arcOf, arcs[a := arcs[a].(count := (arcs[a].count + 1) % TWO_TO_THE_32)], arcOf,
                      (fns[owner[a]].selfPc, arcs[a].fromPc))
  {
  }

  lemma CountsFirst(fns: Fns, arcs: Arcs, owner: map<nat, nat>, arcOf: map<(nat, nat), nat>, a: nat, e: ArcEntry,
                    key: (nat, nat))
    requires Indexed(fns, arcs, owner, arcOf) && a !in arcs && key !in arcOf && e.count == 1
    ensures CountsOne(arcs, arcOf, arcs[a := e], arcOf[key := a], key)
  {
  }

  // ---------- putting entries in ----------

  lemma FnAdded(heads: seq<nat>, fns: Fns, chains: seq<seq<nat>>, p: nat, selfPc: nat)
    requires FnsListed(heads, fns, chains) && p !in fns && p != 0
    requires forall f :: f in fns ==> fns[f].selfPc != selfPc
    ensures var b := Bucket(selfPc);
            FnsListed(heads[b := p], fns[p := FnEntry(heads[b], selfPc, 0)], chains[b := chains[b] + [p]])
  {
    hide Bucket;
    var b := Bucket(selfPc);
    var fns1 := fns[p := FnEntry(heads[b], selfPc, 0)];
    ChainGrows(fns, b, chains[b], p, selfPc);
    forall c | 0 <= c < HASH_BUCKETS && c != b
      ensures FnChain(fns1, c, chains[c])
    {
    }
  }

  lemma ChainGrows(fns: Fns, b: nat, chain: seq<nat>, p: nat, selfPc: nat)
    requires FnChain(fns, b, chain) && p !in fns && p != 0 && Bucket(selfPc) == b
    requires forall f :: f in fns ==> fns[f].selfPc != selfPc
    ensures FnChain(fns[p := FnEntry(HeadOf(chain), selfPc, 0)], b, chain + [p])
  {
    hide Bucket;
  }

  lemma ArcHeadChanged(heads: seq<nat>, fns: Fns, chains: seq<seq<nat>>, f: nat, a: nat)
    requires FnsListed(heads, fns, chains) && f in fns
    ensures FnsListed(heads, fns[f := fns[f].(arcHead := a)], chains)
  {
    hide Bucket;
    var fns1 := fns[f := fns[f].(arcHead := a)];
    forall c | 0 <= c < HASH_BUCKETS
      ensures FnChain(fns1, c, chains[c])
    {
    }
  }

  lemma ArcChainGrows(arcs: Arcs, owner: map<nat, nat>, f: nat, chain: seq<nat>, a: nat, fromPc: nat)
    requires ArcChain(arcs, owner, f, chain) && a !in arcs && a != 0
    requires forall k :: 0 <= k < |chain| ==> arcs[chain[k]].fromPc != fromPc
    ensures ArcChain(arcs[a := ArcEntry(HeadOf(chain), fromPc, 1)], owner[a := f], f, chain + [a])
  {
  }

  lemma OtherChainKept(arcs: Arcs, owner: map<nat, nat>, g: nat, chain: seq<nat>, a: nat, f: nat, e: ArcEntry)
    requires ArcChain(arcs, owner, g, chain) && a !in arcs
    ensures ArcChain(arcs[a := e], owner[a := f], g, chain)
  {
  }

  lemma ArcAdded(fns: Fns, arcs: Arcs, owner: map<nat, nat>, arcChains: map<nat, seq<nat>>, f: nat, a: nat, fromPc: nat)
    requires ArcsListed(fns, arcs, owner, arcChains) && f in fns && a !in arcs && a != 0
    requires forall k :: k in arcs && owner[k] == f ==> arcs[k].fromPc != fromPc
    ensures ArcsListed(fns[f := fns[f].(arcHead := a)], arcs[a := ArcEntry(fns[f].arcHead, fromPc, 1)],
                       owner[a := f], arcChains[f := arcChains[f] + [a]])
  {
    hide ArcChain;
    var arcs1 := arcs[a := ArcEntry(fns[f].arcHead, fromPc, 1)];
    ArcsOfChain(arcs, owner, f, arcChains[f]);
    ArcChainGrows(arcs, owner, f, arcChains[f], a, fromPc);
    forall g | g in fns && g != f
      ensures ArcChain(arcs1, owner[a := f], g, arcChains[g])
    {
      OtherChainKept(arcs, owner, g, arcChains[g], a, f, arcs1[a]);
    }
  }

  lemma ArcsOfChain(arcs: Arcs, owner: map<nat, nat>, f: nat, chain: seq<nat>)
    requires ArcChain(arcs, owner, f, chain)
    ensures forall k :: 0 <= k < |chain| ==> chain[k] in arcs && chain[k] in owner && owner[chain[k]] == f
  {
  }

  lemma ArcIndexed(fns: Fns, arcs: Arcs, owner: map<nat, nat>, arcOf: map<(nat, nat), nat>, f: nat, a: nat, e: ArcEntry)
    requires Indexed(fns, arcs, owner, arcOf) && f in fns && a !in arcs
    requires (fns[f].selfPc, e.fromPc) !in arcOf
    ensures Indexed(fns[f := fns[f].(arcHead := a)], arcs[a := e], owner[a := f],
                    arcOf[(fns[f].selfPc, e.fromPc) := a])
  {
  }

  class Profiler {
    const heap: H.Heap
    var slabPtr: nat
    var slabSize: nat
    var heads: seq<nat>
    var fns: Fns
    var arcs: Arcs
    ghost var chains: seq<seq<nat>>
    ghost var owner: map<nat, nat>
    ghost var arcChains: map<nat, seq<nat>>
    ghost var arcOf: map<(nat, nat), nat>

    ghost predicate SlabOk()
      reads this, heap
    {
      && heap.Valid() && heap.start > 0
      && slabPtr + slabSize <= heap.heapEnd && slabSize <= MCOUNT_SLAB_INCREMENT
      && (slabSize > 0 ==> slabPtr > 0)
    }

    ghost predicate Valid()
      reads this, heap
    {
      && SlabOk()
      && FnsListed(heads, fns, chains) && ArcsListed(fns, arcs, owner, arcChains)
      && Indexed(fns, arcs, owner, arcOf)
      && Placed(fns, arcs, slabPtr) && AllCalled(arcChains)
    }

    constructor (heap: H.Heap)
      requires heap.Valid() && heap.start > 0
      ensures Valid() && arcOf == map[] && this.heap == heap
    {
      this.heap := heap;
      slabPtr, slabSize, fns, arcs := 0, 0, map[], map[];
      heads, chains := seq(HASH_BUCKETS, i => 0), seq(HASH_BUCKETS, i => []);
      owner, arcChains, arcOf := map[], map[], map[];
    }

    // The memory mcount still needs, the source does not check that it gets it.
    ghost predicate HasMemory(size: nat)
      reads this, heap
    {
      slabSize >= size || heap.HasRoom(MCOUNT_SLAB_INCREMENT)
    }

    // mcount_allocate: the piece starts at or past everything given out before.
    method Allocate(size: nat) returns (p: nat)
      requires SlabOk() && HasMemory(size) && 0 < size <= MCOUNT_SLAB_INCREMENT
      modifies `slabPtr, `slabSize, heap
      ensures SlabOk()
      ensures old(slabPtr) <= p && 0 < p && p + size == slabPtr
      ensures slabSize == (if old(slabSize) >= size then old(slabSize) else MCOUNT_SLAB_INCREMENT) - size
      ensures old(slabSize) >= size ==> unchanged(heap)
    {
      if size > slabSize {
        slabPtr := heap.Sbrk(MCOUNT_SLAB_INCREMENT);
        slabSize := MCOUNT_SLAB_INCREMENT;
      }
      p := slabPtr;
      slabPtr := slabPtr + size;
      slabSize := slabSize - size;
    }

    // Memory taken by others leaves the profile alone and lies past its slab.
    method SbrkElsewhere(incr: nat) returns (p: nat)
      requires Valid() && incr < 0x8000_0000
      modifies heap
      ensures Valid()
      ensures p == H.FAILED || slabPtr + slabSize <= p
    {
      p := heap.Sbrk(incr);
    }

    // mcount: look for the entry of the function.
    method FindFn(selfPc: nat) returns (f: nat)
      requires FnsListed(heads, fns, chains)
      ensures if f != 0 then f in fns && fns[f].selfPc == selfPc
              else forall g :: g in fns ==> fns[g].selfPc != selfPc
    {
      hide Bucket;
      f := heads[Bucket(selfPc)];
      ghost var chain := chains[Bucket(selfPc)];
      ghost var k := |chain| - 1;
      while f != 0 && fns[f].selfPc != selfPc
        invariant -1 <= k < |chain| && f == if k < 0 then 0 else chain[k]
        invariant forall j :: k < j < |chain| ==> fns[chain[j]].selfPc != selfPc
        decreases k
      {
        assert k > 0 ==> fns[chain[k]].next == chain[k - 1];
        f, k := fns[f].next, k - 1;
      }
    }

    // mcount: look for the arc of a known function.
    method FindArc(f: nat, fromPc: nat) returns (a: nat)
      requires ArcsListed(fns, arcs, owner, arcChains) && AllCalled(arcChains) && f in fns
      ensures if a != 0 then a in arcs && owner[a] == f && arcs[a].fromPc == fromPc
              else forall c :: c in arcs && owner[c] == f ==> arcs[c].fromPc != fromPc
    {
      a := fns[f].arcHead;
      ghost var chain := arcChains[f];
      ghost var k := |chain| - 1;
      while arcs[a].fromPc != fromPc
        invariant 0 <= k < |chain| && a == chain[k] && a in arcs && owner[a] == f
        invariant forall j :: k < j < |chain| ==> arcs[chain[j]].fromPc != fromPc
        decreases k
      {
        assert k > 0 ==> arcs[chain[k]].next == chain[k - 1];
        a, k := arcs[a].next, k - 1;
        if a == 0 {
          assert forall j :: 0 <= j < |chain| ==> arcs[chain[j]].fromPc != fromPc;
          return;
        }
      }
    }

    // __mcount_record for a function not seen before.
    method AddFn(selfPc: nat) returns (f: nat)
      requires Valid() && HasMemory(2 * ENTRY_SIZE)
      requires forall g :: g in fns ==> fns[g].selfPc != selfPc
      modifies this, heap
      ensures SlabOk() && HasMemory(ENTRY_SIZE)
      ensures FnsListed(heads, fns, chains) && ArcsListed(fns, arcs, owner, arcChains)
      ensures Indexed(fns, arcs, owner, arcOf) && Placed(fns, arcs, slabPtr)
      ensures f in fns && f !in old(fns) && fns[f].selfPc == selfPc && AllCalledBut(arcChains, f)
      ensures forall a :: a in arcs ==> owner[a] != f
      ensures f != 0 && |old(heads)| == HASH_BUCKETS && heads == old(heads)[Bucket(selfPc) := f]
      ensures fns == old(fns)[f := FnEntry(old(heads)[Bucket(selfPc)], selfPc, 0)]
      ensures arcs == old(arcs) && owner == old(owner) && arcOf == old(arcOf)
    {
      hide Bucket, FnsListed, ArcsListed, Indexed, Placed, AllCalled;
      f := Allocate(ENTRY_SIZE);
      NewPlace(fns, arcs, old(slabPtr), f);
      ListsAreWide(heads, fns, chains);
      FnAdded(heads, fns, chains, f, selfPc);
      NoArcsYet(fns, arcs, owner, arcChains, f);
      EmptyArcs(fns, arcs, owner, arcChains, arcOf, f, FnEntry(heads[Bucket(selfPc)], selfPc, 0));
      FnPlaced(fns, arcs, old(slabPtr), f, FnEntry(heads[Bucket(selfPc)], selfPc, 0));
      var b := Bucket(selfPc);
      fns := fns[f := FnEntry(heads[b], selfPc, 0)];
      heads := heads[b := f];
      chains := chains[b := chains[b] + [f]];
      arcChains := arcChains[f := []];
    }

    // __mcount_record for the arc, put first in the list of its function.
    method AddArc(f: nat, fromPc: nat) returns (a: nat)
      requires SlabOk() && HasMemory(ENTRY_SIZE)
      requires FnsListed(heads, fns, chains) && ArcsListed(fns, arcs, owner, arcChains)
      requires Indexed(fns, arcs, owner, arcOf) && Placed(fns, arcs, slabPtr)
      requires f in fns && AllCalledBut(arcChains, f)
      requires forall a :: a in arcs && owner[a] == f ==> arcs[a].fromPc != fromPc
      requires (fns[f].selfPc, fromPc) !in arcOf
      modifies this, heap
      ensures Valid()
      ensures a !in old(arcs) && arcs == old(arcs)[a := ArcEntry(old(fns[f].arcHead), fromPc, 1)]
      ensures arcOf == old(arcOf)[(old(fns[f].selfPc), fromPc) := a]
      ensures heads == old(heads) && fns == old(fns)[f := old(fns[f]).(arcHead := a)]
    {
      hide Bucket, FnsListed, ArcsListed, Indexed, Placed, AllCalled;
      a := Allocate(ENTRY_SIZE);
      var e := ArcEntry(fns[f].arcHead, fromPc, 1);
      NewPlace(fns, arcs, old(slabPtr), a);
      ArcPlaced(fns, arcs, old(slabPtr), a, e);
      HeadPlaced(fns, arcs[a := e], slabPtr, f, a);
      ArcHeadChanged(heads, fns, chains, f, a);
      ArcAdded(fns, arcs, owner, arcChains, f, a, fromPc);
      ArcIndexed(fns, arcs, owner, arcOf, f, a, e);
      NowCalled(fns, arcs, owner, arcChains, f, a);
      arcs, owner := arcs[a := e], owner[a := f];
      arcOf := arcOf[(fns[f].selfPc, fromPc) := a];
      fns := fns[f := fns[f].(arcHead := a)];
      arcChains := arcChains[f := arcChains[f] + [a]];
    }

    // Count an arc there is already, in 32 bits.
    method CountArc(a: nat)
      requires Valid() && a in arcs
      modifies this`arcs
      ensures Valid()
      ensures arcs == old(arcs)[a := old(arcs[a]).(count := (old(arcs[a].count) + 1) % TWO_TO_THE_32)]
    {
      hide Bucket, FnsListed, ArcsListed, Indexed, Placed;
      var e := arcs[a].(count := (arcs[a].count + 1) % TWO_TO_THE_32);
      CountKeepsLists(fns, arcs, owner, arcChains, arcOf, a, e);
      CountKeepsPlaces(fns, arcs, slabPtr, a, e);
      arcs := arcs[a := e];
    }

    // __mcount_record: an arc not seen before.  f0 is its function, or null.  The new
    // arc goes in front of the arcs of its function, a new function in front of its
    // bucket, and no other entry changes.
    method Record(selfPc: nat, fromPc: nat, f0: nat) returns (f: nat, a: nat)
      requires Valid() && HasMemory(2 * ENTRY_SIZE) && (selfPc, fromPc) !in arcOf
      requires if f0 == 0 then forall g :: g in fns ==> fns[g].selfPc != selfPc
               else f0 in fns && fns[f0].selfPc == selfPc
      requires f0 != 0 ==> forall c :: c in arcs && owner[c] == f0 ==> arcs[c].fromPc != fromPc
      modifies this, heap
      ensures Valid() && CountsOne(old(arcs), old(arcOf), arcs, arcOf, (selfPc, fromPc))
      ensures f != 0 && a !in old(arcs)
      ensures arcs == old(arcs)[a := ArcEntry(if f0 == 0 then 0 else old(fns[f0].arcHead), fromPc, 1)]
      ensures f0 != 0 ==> f == f0 && heads == old(heads) && fns == old(fns)[f := old(fns[f0]).(arcHead := a)]
      ensures |old(heads)| == HASH_BUCKETS
      ensures f0 == 0 ==> && f !in old(fns) && heads == old(heads)[Bucket(selfPc) := f]
                          && fns == old(fns)[f := FnEntry(old(heads)[Bucket(selfPc)], selfPc, a)]
    {
      hide Bucket, FnsListed, ArcsListed, Indexed, Placed, AllCalled, CountsOne;
      ghost var fns0, owner0 := fns, owner;
      ListsAreWide(heads, fns, chains);
      f := f0;
      if f == 0 {
        f := AddFn(selfPc);
      } else {
        OneUncalled(arcChains, f);
      }
      a := AddArc(f, fromPc);
      CountsFirst(fns0, old(arcs), owner0, old(arcOf), a, arcs[a], (selfPc, fromPc));
    }

    // mcount: one call of the function at selfPc from fromPc is counted, and no
    // other count changes.
    method Mcount(selfPc: nat, fromPc: nat)
      requires Valid() && HasMemory(2 * ENTRY_SIZE)
      modifies this, heap
      ensures Valid() && CountsOne(old(arcs), old(arcOf), arcs, arcOf, (selfPc, fromPc))
    {
      hide Bucket, FnsListed, ArcsListed, Placed, AllCalled, CountsOne;
      var f := FindFn(selfPc);
      if f != 0 {
        var a := FindArc(f, fromPc);
        if a != 0 {
          CountsOneMore(fns, arcs, owner, arcOf, a);
          CountArc(a);
          return;
        }
        NoSuchArc(heads, fns, chains, arcs, owner, arcOf, f, (selfPc, fromPc));
      } else {
        NoSuchFn(fns, arcs, owner, arcOf, (selfPc, fromPc));
      }
      var _, _ := Record(selfPc, fromPc, f);
    }
  }

  lemma NowCalled(fns: Fns, arcs: Arcs, owner: map<nat, nat>, arcChains: map<nat, seq<nat>>, f: nat, a: nat)
    requires ArcsListed(fns, arcs, owner, arcChains) && f in fns && AllCalledBut(arcChains, f)
    ensures f in arcChains && AllCalled(arcChains[f := arcChains[f] + [a]])
  {
  }

  lemma NoArcsYet(fns: Fns, arcs: Arcs, owner: map<nat, nat>, arcChains: map<nat, seq<nat>>, f: nat)
    requires ArcsListed(fns, arcs, owner, arcChains) && f !in fns && AllCalled(arcChains)
    ensures AllCalledBut(arcChains[f := []], f)
    ensures forall a :: a in arcs ==> a in owner && owner[a] != f
  {
    hide ArcChain;
  }

  lemma OneUncalled(arcChains: map<nat, seq<nat>>, f: nat)
    requires AllCalled(arcChains)
    ensures AllCalledBut(arcChains, f)
  {
  }

  lemma ListsAreWide(heads: seq<nat>, fns: Fns, chains: seq<seq<nat>>)
    requires FnsListed(heads, fns, chains)
    ensures |heads| == |chains| == HASH_BUCKETS
  {
  }

  // A piece past all entries is not one of them.
  lemma NewPlace(fns: Fns, arcs: Arcs, end: nat, p: nat)
    requires Placed(fns, arcs, end) && end <= p
    ensures p !in fns && p !in arcs
  {
    assert !IsEntry(fns, arcs, p);
  }

  lemma FnPlaced(fns: Fns, arcs: Arcs, end: nat, p: nat, e: FnEntry)
    requires Placed(fns, arcs, end) && end <= p && p > 0
    ensures Placed(fns[p := e], arcs, p + ENTRY_SIZE)
  {
    assert !IsEntry(fns, arcs, p);
    forall q: nat | IsEntry(fns[p := e], arcs, q)
      ensures q == p || IsEntry(fns, arcs, q)
      ensures 0 < q && q + ENTRY_SIZE <= p + ENTRY_SIZE && !(q in fns[p := e] && q in arcs)
    {
    }
  }

  lemma ArcPlaced(fns: Fns, arcs: Arcs, end: nat, p: nat, e: ArcEntry)
    requires Placed(fns, arcs, end) && end <= p && p > 0
    ensures Placed(fns, arcs[p := e], p + ENTRY_SIZE)
  {
    assert !IsEntry(fns, arcs, p);
    forall q: nat | IsEntry(fns, arcs[p := e], q)
      ensures q == p || IsEntry(fns, arcs, q)
      ensures 0 < q && q + ENTRY_SIZE <= p + ENTRY_SIZE && !(q in fns && q in arcs[p := e])
    {
    }
  }

  // A function without arcs changes nothing for the arcs there are.
  lemma EmptyArcs(fns: Fns, arcs: Arcs, owner: map<nat, nat>, arcChains: map<nat, seq<nat>>,
                  arcOf: map<(nat, nat), nat>, p: nat, e: FnEntry)
    requires ArcsListed(fns, arcs, owner, arcChains) && Indexed(fns, arcs, owner, arcOf)
    requires p !in fns && e.arcHead == 0
    ensures ArcsListed(fns[p := e], arcs, owner, arcChains[p := []])
    ensures Indexed(fns[p := e], arcs, owner, arcOf)
  {
    hide ArcChain;
    EmptyChain(arcs, owner, p);
  }

  lemma EmptyChain(arcs: Arcs, owner: map<nat, nat>, f: nat)
    ensures ArcChain(arcs, owner, f, [])
  {
  }

  lemma HeadPlaced(fns: Fns, arcs: Arcs, end: nat, f: nat, a: nat)
    requires Placed(fns, arcs, end) && f in fns
    ensures Placed(fns[f := fns[f].(arcHead := a)], arcs, end)
  {
    forall q: nat | IsEntry(fns[f := fns[f].(arcHead := a)], arcs, q)
      ensures IsEntry(fns, arcs, q)
    {
    }
  }

  lemma CountKeepsPlaces(fns: Fns, arcs: Arcs, end: nat, a: nat, e: ArcEntry)
    requires Placed(fns, arcs, end) && a in arcs
    ensures Placed(fns, arcs[a := e], end)
  {
    forall q: nat | IsEntry(fns, arcs[a := e], q)
      ensures IsEntry(fns, arcs, q)
    {
    }
  }

  lemma CountKeepsLists(fns: Fns, arcs: Arcs, owner: map<nat, nat>, arcChains: map<nat, seq<nat>>,
                        arcOf: map<(nat, nat), nat>, a: nat, e: ArcEntry)
    requires ArcsListed(fns, arcs, owner, arcChains) && Indexed(fns, arcs, owner, arcOf)
    requires a in arcs && e.next == arcs[a].next && e.fromPc == arcs[a].fromPc
    ensures ArcsListed(fns, arcs[a := e], owner, arcChains) && Indexed(fns, arcs[a := e], owner, arcOf)
  {
    hide ArcChain;
    forall f | f in fns
      ensures ArcChain(arcs[a := e], owner, f, arcChains[f])
    {
      CountKeepsChain(arcs, owner, f, arcChains[f], a, e);
    }
  }

  lemma CountKeepsChain(arcs: Arcs, owner: map<nat, nat>, f: nat, chain: seq<nat>, a: nat, e: ArcEntry)
    requires ArcChain(arcs, owner, f, chain) && a in arcs && e.next == arcs[a].next && e.fromPc == arcs[a].fromPc
    ensures ArcChain(arcs[a := e], owner, f, chain)
  {
  }
}
