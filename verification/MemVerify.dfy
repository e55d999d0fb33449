// TMEM_Verify: fill a range of memory with a pattern 257 words long, then read it
// back.  Memory is a set of storage cells and an address decoder that may be
// faulty: two word addresses may decode to one cell.

module MemVerify {
  import opened CArithmetic
  import opened TestPattern

  class Memory {
    const decode: nat -> nat   // the cell of a word address
    const cells: array<nat>

    constructor (decode: nat -> nat, size: nat)
      ensures this.decode == decode && cells.Length == size && fresh(cells)
    {
      this.decode := decode;
      cells := new nat[size](i => 0);
    }

    // Words base .. base + n have storage.
    ghost predicate Decodes(base: nat, n: nat) {
      forall w :: base <= w < base + n ==> decode(w) < cells.Length
    }

    // What word address w of a range that begins at base should hold.
    function Expected(base: nat, w: nat, init: nat): nat
      requires base <= w
    {
      Word(init, (w - base) % ITEMS)
    }

    // Words of the range that share a cell should hold the same.
    ghost predicate SharersAgree(base: nat, n: nat, init: nat) {
      forall a, b | base <= a < base + n && base <= b < base + n :: decode(a) == decode(b) ==>
        Expected(base, a, init) == Expected(base, b, init)
    }

    // Words base .. w read back as expected.
    ghost predicate ReadsBack(base: nat, w: nat, init: nat)
      requires base <= w && Decodes(base, w - base)
      reads cells
    {
      forall a :: base <= a < w ==> cells[decode(a)] == Expected(base, a, init)
    }

    // szData
    method Pattern(init: nat) returns (data: array<nat>)
      requires init < TWO_TO_THE_32
      ensures fresh(data) && data.Length == ITEMS
      ensures forall i :: 0 <= i < ITEMS ==> data[i] == Word(init, i)
    {
      data := new nat[ITEMS];
      for i := 0 to ITEMS
        invariant forall k :: 0 <= k < i ==> data[k] == Chain(init, k)
      {
        if i == 0 {
          data[i] := init;
        } else {
          data[i] := data[i - 1] * 13 % TWO_TO_THE_32;
        }
      }
      data[ITEMS - 1] := 0xAAAA_AAAA;
      data[ITEMS - 2] := 0x5555_5555;
      data[ITEMS - 3] := 0x0000_0000;
      data[ITEMS - 4] := 0xFFFF_FFFF;
    }

    // A chunk begins at a multiple of the pattern length.
    lemma ExpectedInChunk(base: nat, w: nat, i: nat, init: nat)
      requires base <= w && (w - base) % ITEMS == 0 && i < ITEMS
      ensures Expected(base, w + i, init) == Word(init, i)
    {
      hide Word;
      assert (w + i - base) % ITEMS == i;
    }

    lemma SharersAgreeWith(base: nat, n: nat, b: nat, init: nat)
      requires base <= b < base + n
      ensures SharersAgree(base, n, init) ==>
                forall a | base <= a < base + n :: decode(a) == decode(b) ==>
                  Expected(base, a, init) == Expected(base, b, init)
    {
      hide Expected;
    }

    // memcpy of n whole words to word address w.
    method CopyIn(base: nat, w: nat, n: nat, data: array<nat>, init: nat)
      requires n <= ITEMS == data.Length && data != cells && base <= w && (w - base) % ITEMS == 0
      requires forall i :: 0 <= i < ITEMS ==> data[i] == Word(init, i)
      requires Decodes(base, w + n - base)
      modifies cells
      ensures SharersAgree(base, w + n - base, init) && old(ReadsBack(base, w, init)) ==>
                ReadsBack(base, w + n, init)
    {
      hide Word, SharersAgree, Expected;
      for i := 0 to n
        invariant SharersAgree(base, w + n - base, init) && old(ReadsBack(base, w, init)) ==>
                    ReadsBack(base, w + i, init)
      {
        ExpectedInChunk(base, w, i, init);
        SharersAgreeWith(base, w + n - base, w + i, init);
        cells[decode(w + i)] := data[i];
      }
    }

    // memcpy of the first k bytes of a word, k < 4.
    method CopyTail(w: nat, k: nat, word: nat)
      requires decode(w) < cells.Length && k < 4
      modifies cells
    {
      var m := if k == 0 then 1 else if k == 1 then 0x100 else if k == 2 then 0x1_0000 else 0x100_0000;
      cells[decode(w)] := cells[decode(w)] - cells[decode(w)] % m + word % m;
    }

    // The arithmetic of one chunk of accessLen bytes at byte pos of the range.
    lemma Chunk(pos: nat, accessLen: nat, byteLen: nat)
      requires pos % (4 * ITEMS) == 0
      requires accessLen == if byteLen - pos < 4 * ITEMS then byteLen - pos else 4 * ITEMS
      requires pos < byteLen
      ensures pos / 4 % ITEMS == 0 && pos % 4 == 0 && accessLen / 4 <= ITEMS
      ensures (pos + accessLen) / 4 == pos / 4 + accessLen / 4 <= byteLen / 4
      ensures accessLen % 4 != 0 ==> accessLen / 4 < ITEMS && pos / 4 + accessLen / 4 < (byteLen + 3) / 4
      ensures byteLen % 4 == 0 ==> accessLen % 4 == 0
      ensures pos + accessLen < byteLen ==> (pos + accessLen) % (4 * ITEMS) == 0
    {
      var q := pos / (4 * ITEMS);
      assert pos == 4 * (ITEMS * q) && (pos + 4 * ITEMS) == 4 * ITEMS * (q + 1);
    }

    // The write loop; pos counts bytes.
    method WriteAll(base: nat, byteLen: nat, data: array<nat>, init: nat)
      requires data.Length == ITEMS && data != cells
      requires forall i :: 0 <= i < ITEMS ==> data[i] == Word(init, i)
      requires Decodes(base, (byteLen + 3) / 4)
      modifies cells
      ensures byteLen % 4 == 0 && SharersAgree(base, byteLen / 4, init) ==>
                ReadsBack(base, base + byteLen / 4, init)
    {
      hide SharersAgree, ReadsBack, Word;
      StartsEmpty(base, init);
      var accessLen := 4 * ITEMS;
      var pos := 0;
      while pos < byteLen
        invariant 0 <= pos <= byteLen
        invariant pos < byteLen ==> pos % (4 * ITEMS) == 0 && accessLen == 4 * ITEMS
        invariant byteLen % 4 == 0 && SharersAgree(base, byteLen / 4, init) ==>
                    ReadsBack(base, base + pos / 4, init)
      {
        var remainedLen := byteLen - pos;
        if accessLen > remainedLen {
          accessLen := remainedLen;
        }
        Chunk(pos, accessLen, byteLen);
        SharersOfPrefix(base, pos / 4 + accessLen / 4, byteLen / 4, init);
        CopyIn(base, base + pos / 4, accessLen / 4, data, init);
        if accessLen % 4 != 0 {
          CopyTail(base + pos / 4 + accessLen / 4, accessLen % 4, data[accessLen / 4]);
        }
        pos := pos + accessLen;
      }
    }

    lemma StartsEmpty(base: nat, init: nat)
      ensures ReadsBack(base, base, init)
    {
    }

    lemma SharersOfPrefix(base: nat, m: nat, n: nat, init: nat)
      requires m <= n
      ensures SharersAgree(base, n, init) ==> SharersAgree(base, m, init)
    {
    }

    // The read loop over one chunk of n words at word address w.
    method VerifyChunk(base: nat, w: nat, n: nat, data: array<nat>, init: nat) returns (pass: bool)
      requires n <= ITEMS == data.Length && base <= w && (w - base) % ITEMS == 0
      requires forall i :: 0 <= i < ITEMS ==> data[i] == Word(init, i)
      requires Decodes(base, w + n - base) && ReadsBack(base, w, init)
      ensures pass <==> ReadsBack(base, w + n, init)
    {
      hide Word, Expected;
      var src, i := w, 0;
      pass := true;
      while i < n && pass
        invariant 0 <= i <= n && src == w + i
        invariant if pass then ReadsBack(base, src, init) else !ReadsBack(base, w + n, init)
      {
        ExpectedInChunk(base, w, i, init);
        if cells[decode(src)] != data[i] {
          pass := false;
        }
        src := src + 1;
        i := i + 1;
      }
    }

    // The read loop: stops at the first word that is not as expected.
    method VerifyAll(base: nat, byteLen: nat, data: array<nat>, init: nat) returns (pass: bool)
      requires data.Length == ITEMS && data != cells
      requires forall i :: 0 <= i < ITEMS ==> data[i] == Word(init, i)
      requires Decodes(base, (byteLen + 3) / 4)
      ensures pass <==> ReadsBack(base, base + byteLen / 4, init)
    {
      hide ReadsBack, Word;
      StartsEmpty(base, init);
      pass := true;
      var accessLen, pos := 4 * ITEMS, 0;
      while pass && pos < byteLen
        invariant 0 <= pos <= byteLen
        invariant pos < byteLen ==> pos % (4 * ITEMS) == 0 && accessLen == 4 * ITEMS
        invariant if pass then ReadsBack(base, base + pos / 4, init)
                  else !ReadsBack(base, base + byteLen / 4, init)
        decreases byteLen - pos
      {
        var remainedLen := byteLen - pos;
        if accessLen > remainedLen {
          accessLen := remainedLen;
        }
        Chunk(pos, accessLen, byteLen);
        PrefixReadsBack(base, base + pos / 4 + accessLen / 4, base + byteLen / 4, init);
        pass := VerifyChunk(base, base + pos / 4, accessLen / 4, data, init);
        pos := pos + accessLen;
      }
    }

    lemma PrefixReadsBack(base: nat, v: nat, w: nat, init: nat)
      requires base <= v <= w && Decodes(base, w - base)
      ensures ReadsBack(base, w, init) ==> ReadsBack(base, v, init)
    {
    }

    // TMEM_Verify
    method Verify(base: nat, byteLen: nat, init: nat) returns (pass: bool)
      requires init < TWO_TO_THE_32 && byteLen < 0x8000_0000 && Decodes(base, (byteLen + 3) / 4)
      modifies cells
      ensures pass <==> ReadsBack(base, base + byteLen / 4, init)
      ensures pass ==> SharersAgree(base, byteLen / 4, init)
      ensures byteLen % 4 == 0 ==> (pass <==> SharersAgree(base, byteLen / 4, init))
    {
      var data := Pattern(init);
      WriteAll(base, byteLen, data, init);
      pass := VerifyAll(base, byteLen, data, init);
    }

    // With the pattern that starts at 1, words that share a cell agree exactly if
    // they are a multiple of 257 words apart.
    lemma SharersAgreeMeansDistance(base: nat, n: nat)
      ensures SharersAgree(base, n, 1) <==>
                forall a, b | base <= a <= b < base + n :: decode(a) == decode(b) ==> (b - a) % ITEMS == 0
    {
      forall a, b | base <= a <= b < base + n && decode(a) == decode(b)
        ensures Expected(base, a, 1) == Expected(base, b, 1) <==> (b - a) % ITEMS == 0
        ensures Expected(base, b, 1) == Expected(base, a, 1) <==> (b - a) % ITEMS == 0
      {
        var i, j := (a - base) % ITEMS, (b - base) % ITEMS;
        if i < j {
          WordsAreDistinct(i, j);
        } else if j < i {
          WordsAreDistinct(j, i);
        }
      }
    }

    // So a stuck or missing address line is always found: two words of the range a
    // power of two apart never share a cell in a memory that passes.
    lemma StuckAddressLineIsFound(base: nat, n: nat, a: nat, k: nat)
      requires SharersAgree(base, n, 1) && base <= a && a + Pow(2, k) < base + n
      ensures decode(a) != decode(a + Pow(2, k))
    {
      SharersAgreeMeansDistance(base, n);
      NoPowerOfTwoIsMultiple(k);
    }
  }
}
