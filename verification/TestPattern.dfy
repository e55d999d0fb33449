// The words TMEM_Verify writes: 253 powers of 13 modulo 2^32 and four sentinels.

module TestPattern {
  import opened CArithmetic

  const ITEMS: nat := 257

  // Word i of the pattern, as the source computes it from its predecessor.
  function Chain(init: nat, i: nat): (w: nat)
    ensures w < TWO_TO_THE_32
  {
    (if i == 0 then init else Chain(init, i - 1) * 13) % TWO_TO_THE_32
  }

  function Word(init: nat, i: nat): (w: nat)
    requires i < ITEMS
    ensures w < TWO_TO_THE_32
  {
    if i == 256 then 0xAAAA_AAAA
    else if i == 255 then 0x5555_5555
    else if i == 254 then 0
    else if i == 253 then 0xFFFF_FFFF
    else Chain(init, i)
  }

  // The pattern, word by word: powers of 13 from the initial value on, then the sentinels.
  lemma PatternIs(init: nat)
    requires init < TWO_TO_THE_32
    ensures Word(init, 0) == init
    ensures forall i :: 0 < i < ITEMS - 4 ==> Word(init, i) == Word(init, i - 1) * 13 % TWO_TO_THE_32
    ensures Word(init, ITEMS - 4) == 0xFFFF_FFFF && Word(init, ITEMS - 3) == 0
    ensures Word(init, ITEMS - 2) == 0x5555_5555 && Word(init, ITEMS - 1) == 0xAAAA_AAAA
  {
  }

  // A product, named so that proofs can leave it alone.
  function Times(x: int, y: int): int {
    x * y
  }

  lemma {:induction false} PowAdd(b: nat, j: nat, k: nat)
    ensures Pow(b, j + k) == Times(Pow(b, j), Pow(b, k))
    decreases j
  {
    if j > 0 {
      PowAdd(b, j - 1, k);
      assert b * (Pow(b, j - 1) * Pow(b, k)) == (b * Pow(b, j - 1)) * Pow(b, k);
    }
  }

  lemma {:induction false} ChainIsPower(i: nat)
    ensures Chain(1, i) == Pow(13, i) % TWO_TO_THE_32
  {
    if i > 0 {
      ChainIsPower(i - 1);
      ModTimes(Pow(13, i - 1), 13, TWO_TO_THE_32);
    }
  }

  lemma ModTimes(x: nat, y: nat, m: nat)
    requires m > 0
    ensures (x % m) * y % m == x * y % m
  {
    var q := x / m;
    assert x * y == (x % m) * y + m * (q * y) by {
      assert x == m * q + x % m;
      assert (m * q) * y == m * (q * y);
    }
    AddMultiple((x % m) * y, q * y, m);
  }

  lemma AddMultiple(r: int, q: int, m: nat)
    requires m > 0
    ensures (r + m * q) % m == r % m
  {
    var d := (r + m * q) / m - r / m - q;
    assert m * d == r % m - (r + m * q) % m;
    assert (d >= 1 ==> m * d >= m) && (d <= -1 ==> m * d <= 0 - m);
  }

  lemma OddTimesOdd(x: int, y: int)
    requires x % 2 == 1 && y % 2 == 1
    ensures x * y % 2 == 1
  {
    var h, o := x / 2, y / 2;
    assert (2 * h + 1) * (2 * o + 1) == 2 * (2 * (h * o) + h + o) + 1;
  }

  lemma Associate(x: int, y: int, z: int)
    ensures x * (y * z) == (x * y) * z
  {
  }

  // An odd factor has nothing to do with powers of two.
  lemma {:induction false} OddCancels(x: int, odd: int, e: nat, c: int) returns (q: int)
    requires odd % 2 == 1 && Times(x, odd) == Times(Pow(2, e), c)
    ensures x == Times(Pow(2, e), q)
    decreases e
  {
    if e == 0 {
      q := x;
    } else {
      var p := Pow(2, e - 1);
      Associate(2, p, c);
      assert x * odd == 2 * (p * c);
      if x % 2 == 1 {
        OddTimesOdd(x, odd);
      }
      var h := x / 2;
      Associate(2, h, odd);
      q := OddCancels(h, odd, e - 1, c);
      Associate(2, p, q);
    }
  }

  // Powers of 13 are 1 or 5 modulo 8.
  lemma PowMod8(k: nat)
    ensures Pow(13, k) % 8 == if k % 2 == 0 then 1 else 5
  {
    hide Pow;
    var q := PowByEights(k);
  }

  lemma {:induction false} PowByEights(k: nat) returns (q: nat)
    ensures Pow(13, k) == 8 * q + if k % 2 == 0 then 1 else 5
  {
    hide Pow;
    PowStep(13, k);
    if k == 0 {
      q := 0;
    } else {
      var q' := PowByEights(k - 1);
      q := 13 * q' + if k % 2 == 0 then 8 else 1;
    }
  }

  // A power of 13 plus one is twice an odd number.
  lemma HalfOfNext(j: nat) returns (odd: nat)
    ensures Pow(13, j) + 1 == 2 * odd && odd % 2 == 1
  {
    hide Pow;
    PowMod8(j);
    odd := (Pow(13, j) + 1) / 2;
  }

  // 13 has order 2^(e-2) modulo 2^e: no smaller positive power is 1.
  lemma {:induction false} OrderOf13(k: nat, e: nat, c: int)
    requires k > 0 && e >= 2 && Pow(13, k) - 1 == Times(Pow(2, e), c)
    ensures k >= Pow(2, e - 2)
    decreases e
  {
    hide Pow, Times;
    PowStep(2, e - 2);
    if e > 2 {
      var q := HalveExponent(k, e, c);
      OrderOf13(k / 2, e - 1, q);
    }
  }

  lemma HalveExponent(k: nat, e: nat, c: int) returns (q: int)
    requires e > 2 && Pow(13, k) - 1 == Times(Pow(2, e), c)
    ensures k % 2 == 0 && Pow(13, k / 2) - 1 == Times(Pow(2, e - 1), q)
  {
    hide Pow, Times;
    EvenExponent(k, e, c);
    PowStep(2, e);
    var odd := HalfOfNext(k / 2);
    PowAdd(13, k / 2, k / 2);
    SplitSquare(Pow(13, k / 2), odd, Pow(13, k), Pow(2, e), Pow(2, e - 1), c);
    q := OddCancels(Pow(13, k / 2) - 1, odd, e - 1, c);
  }

  lemma SplitSquare(y: int, odd: int, y2: int, m: int, p: int, c: int)
    requires y2 == Times(y, y) && y2 - 1 == Times(m, c) && m == 2 * p && y + 1 == 2 * odd
    ensures Times(y - 1, odd) == Times(p, c)
  {
    assert (y - 1) * (2 * odd) == 2 * ((y - 1) * odd);
    assert (y - 1) * (y + 1) == y * y - 1;
    Associate(2, p, c);
  }

  lemma PowStep(b: nat, k: nat)
    ensures Pow(b, k) == if k == 0 then 1 else b * Pow(b, k - 1)
  {
  }

  lemma EvenExponent(k: nat, e: nat, c: int)
    requires e > 2 && Pow(13, k) - 1 == Times(Pow(2, e), c)
    ensures k % 2 == 0
  {
    var p := Pow(2, e - 3);
    assert Pow(2, e) == 2 * Pow(2, e - 1) == 4 * Pow(2, e - 2) == 8 * p;
    Associate(8, p, c);
    PowMod8(k);
  }

  lemma Distribute(z: int, x: int)
    ensures Times(z - 1, x) == Times(x, z) - x
  {
  }

  predicate Congruent(x: int, y: int, m: nat)
    requires m > 0
  {
    x % m == y % m
  }

  // Powers of 13 that agree modulo 2^e are 2^(e-2) apart or the same.
  lemma PowersDiffer(i: nat, j: nat, e: nat)
    requires i < j && e >= 2 && Congruent(Pow(13, i), Pow(13, j), Pow(2, e))
    ensures j - i >= Pow(2, e - 2)
  {
    hide Pow, Times, Congruent;
    var x, y, z, m := Pow(13, i), Pow(13, j), Pow(13, j - i), Pow(2, e);
    PowAdd(13, i, j - i);
    PowMod8(i);
    var c := SameResidue(x, y, m);
    Distribute(z, x);
    assert x % 2 == 1;
    assert Times(z - 1, x) == Times(m, c);
    var q := OddCancels(z - 1, x, e, c);
    OrderOf13(j - i, e, q);
  }

  lemma SameResidue(x: int, y: int, m: nat) returns (c: int)
    requires m > 0 && Congruent(x, y, m)
    ensures y - x == Times(m, c)
  {
    c := y / m - x / m;
  }

  // Square and multiply: the exponent doubled, plus one if odd.
  lemma PowModDouble(k: nat, r: nat, odd: nat, r': nat)
    requires odd <= 1 && Pow(13, k) % 2048 == r
    requires r' == (if odd == 1 then 13 * (r * r % 2048) else r * r) % 2048
    ensures Pow(13, 2 * k + odd) % 2048 == r'
  {
    var p := Pow(13, k);
    PowAdd(13, k, k);
    ModTimes(p, p, 2048);
    ModTimes(p, p % 2048, 2048);
    if odd == 1 {
      ModTimes(p * p, 13, 2048);
      assert Pow(13, 2 * k + 1) == 13 * Pow(13, 2 * k);
    }
  }

  lemma Power371()
    ensures Pow(13, 371) % 2048 == 1365
  {
    hide Pow;
    PowStep(13, 1);
    PowStep(13, 0);
    PowModDouble(1, 13, 0, 169);
    PowModDouble(2, 169, 1, 605);
    PowModDouble(5, 605, 1, 821);
    PowModDouble(11, 821, 1, 1189);
    PowModDouble(23, 1189, 0, 601);
    PowModDouble(46, 601, 0, 753);
    PowModDouble(92, 753, 1, 365);
    PowModDouble(185, 365, 1, 1365);
  }

  // 0x55555555 is 13 to the 371 modulo 2048, and so no smaller power of 13 at all.
  lemma AlternatingIsNoEarlyPower(k: nat)
    requires k < 371
    ensures Pow(13, k) % TWO_TO_THE_32 != 0x5555_5555
  {
    hide Pow;
    if Pow(13, k) % TWO_TO_THE_32 == 0x5555_5555 {
      ResidueOfResidue(Pow(13, k));
      Power371();
      PowersOfTwo();
      PowersDiffer(k, 371, 11);
    }
  }

  lemma ResidueOfResidue(x: nat)
    ensures x % TWO_TO_THE_32 % 2048 == x % 2048
  {
    AddMultiple(x % TWO_TO_THE_32, x / TWO_TO_THE_32 * 0x20_0000, 2048);
  }

  lemma PowersOfTwo()
    ensures Pow(2, 9) == 512 && Pow(2, 11) == 2048 && Pow(2, 30) == 0x4000_0000 && Pow(2, 32) == TWO_TO_THE_32
  {
    PowAdd(2, 8, 1);
    PowAdd(2, 8, 3);
    PowAdd(2, 8, 8);
    PowAdd(2, 16, 14);
    PowAdd(2, 8, 6);
    PowAdd(2, 16, 16);
    assert Pow(2, 8) == 256 by {
      PowAdd(2, 4, 4);
    }
  }

  // The words TMEM_Verify is called with are pairwise different.
  lemma WordsAreDistinct(i: nat, j: nat)
    requires i < j < ITEMS
    ensures Word(1, i) != Word(1, j)
  {
    if i < 253 {
      ChainIsPower(i);
      PowMod8(i);
      LastBits(Pow(13, i));
      AlternatingIsNoEarlyPower(i);
    }
    if j < 253 {
      ChainIsPower(j);
      PowersOfTwo();
      if Word(1, i) == Word(1, j) {
        PowersDiffer(i, j, 32);
      }
    }
  }

  lemma LastBits(x: nat)
    ensures x % TWO_TO_THE_32 % 8 == x % 8
  {
    AddMultiple(x % TWO_TO_THE_32, x / TWO_TO_THE_32 * 0x2000_0000, 8);
  }

  // 257 is prime to 2: no power of two is a multiple of it.
  lemma {:induction false} NoPowerOfTwoIsMultiple(k: nat)
    ensures Pow(2, k) % ITEMS != 0
  {
    hide Pow;
    PowStep(2, k);
    if k > 0 {
      NoPowerOfTwoIsMultiple(k - 1);
    }
  }
}
