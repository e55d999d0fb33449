// Integer printing: the conversion of alt_log_printf, with sign, padding, width
// and base, and the hexadecimal conversion of alt_printf.

module NumberFormat {
  import opened CArithmetic

  // ---------- what is printed ----------

  predicate IsBase(base: nat) {
    base == 8 || base == 10 || base == 16
  }

  // The character of a digit.  The source adds the digit to '0' and, past '9',
  // moves on to the letters.
  function DigitChar(d: nat, upper: bool): char
    requires d < 16
  {
    if d <= 9 then ['0', '1', '2', '3', '4', '5', '6', '7', '8', '9'][d]
    else if upper then ['A', 'B', 'C', 'D', 'E', 'F'][d - 10]
    else ['a', 'b', 'c', 'd', 'e', 'f'][d - 10]
  }

  // The usual representation of v.
  function Digits(v: nat, base: nat, upper: bool): (s: string)
    requires IsBase(base)
    ensures |s| == NumDigits(v, base)
  {
    if v < base then [DigitChar(v, upper)]
    else Digits(v / base, base, upper) + [DigitChar(v % base, upper)]
  }

  function NumDigits(v: nat, base: nat): (n: nat)
    requires IsBase(base)
    ensures n > 0
  {
    if v < base then 1 else NumDigits(v / base, base) + 1
  }

  function Repeat(c: char, n: int): (s: string)
    ensures |s| == Max(0, n)
  {
    if n <= 0 then "" else [c] + Repeat(c, n - 1)
  }

  // Sign and padding in the order the conversion puts them before count digits.
  function Lead(negative: bool, count: nat, leadingZero: bool, width: int): (s: string)
    ensures |s| + count == Max(width, count + if negative then 1 else 0)
  {
    var sign := if negative then "-" else "";
    var pad := width - count - |sign|;
    if leadingZero then sign + Repeat('0', pad) else Repeat(' ', pad) + sign
  }

  function Layout(negative: bool, digits: string, leadingZero: bool, width: int): (s: string)
    ensures |s| == Max(width, |digits| + if negative then 1 else 0)
  {
    Lead(negative, |digits|, leadingZero, width) + digits
  }

  // ---------- what it means ----------

  function DigitValue(c: char): nat {
    if '0' <= c <= '9' then c as nat - '0' as nat
    else if 'a' <= c <= 'f' then c as nat - 'a' as nat + 10
    else if 'A' <= c <= 'F' then c as nat - 'A' as nat + 10
    else 0
  }

  function Value(s: string, base: nat): nat {
    if s == "" then 0 else Value(s[..|s| - 1], base) * base + DigitValue(s[|s| - 1])
  }

  // How a reader takes the text: spaces, a sign, digits.
  function Parse(s: string, base: nat): int {
    if s == "" then 0
    else if s[0] == ' ' then Parse(s[1..], base)
    else if s[0] == '-' then -(Value(s[1..], base) as int)
    else Value(s, base)
  }

  lemma ValueOfAppend(s: string, c: char, base: nat)
    ensures Value(s + [c], base) == Value(s, base) * base + DigitValue(c)
  {
    assert (s + [c])[..|s|] == s;
  }

  lemma DigitCharMeansDigit(d: nat, upper: bool)
    requires d < 16
    ensures DigitValue(DigitChar(d, upper)) == d
  {
  }

  lemma {:induction false} DigitsMeanValue(v: nat, base: nat, upper: bool)
    requires IsBase(base)
    ensures Value(Digits(v, base, upper), base) == v
    decreases v
  {
    hide Value, DigitValue, DigitChar, Digits, NumDigits;
    DigitsSplit(v, base, upper);
    if v >= base {
      DigitCharMeansDigit(v % base, upper);
      DigitsMeanValue(v / base, base, upper);
      ValueOfAppend(Digits(v / base, base, upper), DigitChar(v % base, upper), base);
    } else {
      DigitCharMeansDigit(v, upper);
      ValueOfAppend("", DigitChar(v, upper), base);
      ValueOfEmpty(base);
      assert "" + [DigitChar(v, upper)] == [DigitChar(v, upper)];
    }
  }

  lemma DigitsSplit(v: nat, base: nat, upper: bool)
    requires IsBase(base)
    ensures v < base ==> Digits(v, base, upper) == [DigitChar(v, upper)]
    ensures v >= base ==> v / base < v && v / base * base + v % base == v
                          && Digits(v, base, upper) == Digits(v / base, base, upper) + [DigitChar(v % base, upper)]
  {
    hide DigitChar;
  }

  lemma ValueOfEmpty(base: nat)
    ensures Value("", base) == 0
  {
  }

  lemma {:induction false} ZerosMeanNothing(n: int, s: string, base: nat)
    ensures Value(Repeat('0', n) + s, base) == Value(s, base)
    decreases |s|, n
  {
    var t := Repeat('0', n) + s;
    if s == "" {
      if n > 0 {
        ZerosAtEnd(n);
        assert t[..|t| - 1] == Repeat('0', n - 1) + "";
        ZerosMeanNothing(n - 1, "", base);
      }
    } else {
      assert t[..|t| - 1] == Repeat('0', n) + s[..|s| - 1];
      ZerosMeanNothing(n, s[..|s| - 1], base);
    }
  }

  lemma {:induction false} ZerosAtEnd(n: int)
    requires n > 0
    ensures Repeat('0', n) == Repeat('0', n - 1) + ['0']
  {
    if n > 1 {
      ZerosAtEnd(n - 1);
      assert ['0'] + (Repeat('0', n - 2) + ['0']) == (['0'] + Repeat('0', n - 2)) + ['0'];
    }
  }

  lemma {:induction false} SpacesAreSkipped(n: int, s: string, base: nat)
    ensures Parse(Repeat(' ', n) + s, base) == Parse(s, base)
    decreases n
  {
    if n > 0 {
      assert (Repeat(' ', n) + s)[1..] == Repeat(' ', n - 1) + s;
      SpacesAreSkipped(n - 1, s, base);
    } else {
      assert Repeat(' ', n) + s == s;
    }
  }

  // Reading back what is printed gives the number, whatever the width and padding.
  lemma LayoutParses(v: nat, base: nat, upper: bool, negative: bool, leadingZero: bool, width: int)
    requires IsBase(base)
    ensures Parse(Layout(negative, Digits(v, base, upper), leadingZero, width), base)
            == if negative then 0 - v else v
  {
    hide Value, Digits, Repeat;
    var digits := Digits(v, base, upper);
    var pad := width - |digits| - if negative then 1 else 0;
    DigitsMeanValue(v, base, upper);
    LeadingDigit(v, base, upper);
    if leadingZero {
      ZerosMeanNothing(pad, digits, base);
      ZeroesLead(pad);
      var s := Repeat('0', pad) + digits;
      assert "" + Repeat('0', pad) + digits == s && ("-" + Repeat('0', pad) + digits)[1..] == s;
    } else {
      SpacesAreSkipped(pad, "-" + digits, base);
      SpacesAreSkipped(pad, digits, base);
      assert ("-" + digits)[1..] == digits;
      assert Repeat(' ', pad) + "" + digits == Repeat(' ', pad) + digits;
      assert Repeat(' ', pad) + "-" + digits == Repeat(' ', pad) + ("-" + digits);
    }
  }

  lemma ZeroesLead(n: int)
    ensures n > 0 ==> Repeat('0', n)[0] == '0'
  {
  }

  lemma {:induction false} LeadingDigit(v: nat, base: nat, upper: bool)
    requires IsBase(base)
    ensures Digits(v, base, upper)[0] != ' ' && Digits(v, base, upper)[0] != '-'
  {
    if v >= base {
      LeadingDigit(v / base, base, upper);
    }
  }

  // ---------- how it is computed ----------

  // The digit of v in the place of value p.
  function Digit(v: nat, p: nat): (d: nat)
    requires p > 0
    ensures d < 16
  {
    v / p % 16
  }

  // The digits of v from place k down.
  function DigitsFrom(v: nat, k: nat, base: nat, upper: bool): string
    requires base > 0
    decreases k
  {
    var p := Pow(base, k);
    [DigitChar(Digit(v, p), upper)] + if k == 0 then "" else DigitsFrom(v % p, k - 1, base, upper)
  }

  lemma SmallQuotient(v: nat, p: nat, b: nat)
    requires p > 0 && b > 0 && v < b * p
    ensures v / p < b
  {
    TimesMonotone(p, b, v / p);
  }

  lemma TimesMonotone(p: nat, b: nat, q: nat)
    ensures q >= b ==> p * q >= b * p
  {
    if q >= b {
      assert p * q == b * p + p * (q - b);
    }
  }

  lemma Regroup(b: nat, p: nat, a: nat, t: nat, r: nat)
    ensures b * (p * a + t) + r == (b * p) * a + (b * t + r)
  {
    assert b * (p * a + t) == b * (p * a) + b * t;
    assert b * (p * a) == (b * p) * a;
  }

  lemma LowPart(b: nat, p: nat, t: nat, r: nat)
    requires t < p && r < b
    ensures b * t + r < b * p
  {
    TimesMonotone(b, t + 1, p);
    assert b * (t + 1) == b * t + b;
  }

  // Dividing by b and then by p is dividing by b * p.
  lemma NestedDivision(v: nat, b: nat, p: nat, m: nat)
    requires b > 0 && p > 0 && m == b * p
    ensures m > 0
    ensures v / m == v / b / p && v % m / b == v / b % p && v % m % b == v % b
  {
    hide IsDivision;
    var q, r := Divide(v, b);
    var a, t := Divide(q, p);
    Reassemble(v, b, p, m, q, r, a, t);
  }

  lemma Reassemble(v: nat, b: nat, p: nat, m: nat, q: nat, r: nat, a: nat, t: nat)
    requires m == b * p
    requires IsDivision(v, b, q, r) && IsDivision(q, p, a, t)
    ensures m > 0 && v / m == a && v % m / b == t && v % m % b == r
  {
    Regroup(b, p, a, t, r);
    LowPart(b, p, t, r);
    var low := b * t + r;
    DivUnique(v, m, a, low);
    DivUnique(low, b, t, r);
  }

  lemma DigitSplit(v: nat, b: nat, p: nat, m: nat)
    requires b > 0 && p > 0 && m == b * p
    ensures m > 0 && Digit(v, m) == Digit(v / b, p)
    ensures v % m / b == v / b % p && v % m % b == v % b
  {
    NestedDivision(v, b, p, m);
  }

  lemma DigitOfOne(v: nat)
    requires v < 16
    ensures Digit(v, 1) == v
  {
  }

  // The last digit splits off.
  lemma {:induction false} DigitsFromSplit(v: nat, k: nat, base: nat, upper: bool)
    requires IsBase(base)
    ensures DigitsFrom(v, k + 1, base, upper)
            == DigitsFrom(v / base, k, base, upper) + [DigitChar(v % base, upper)]
    decreases k
  {
    hide DigitChar, Digit, DigitsFrom, Pow;
    var p, m := Pow(base, k), Pow(base, k + 1);
    PowNext(base, k);
    DigitSplit(v, base, p, m);
    DigitsFromStep(v, m, k + 1, base, upper);
    DigitsFromStep(v / base, p, k, base, upper);
    if k == 0 {
      PowZero(base);
      DigitsFromStep(v % m, p, 0, base, upper);
      DigitOfOne(v % base);
    } else {
      DigitsFromSplit(v % m, k - 1, base, upper);
    }
  }

  // From the place of its leading digit down, these are the digits of v.
  lemma {:induction false} DigitsFromTop(v: nat, base: nat, upper: bool)
    requires IsBase(base)
    ensures v < Pow(base, NumDigits(v, base))
    ensures DigitsFrom(v, NumDigits(v, base) - 1, base, upper) == Digits(v, base, upper)
  {
    hide DigitChar, Pow, DigitsFrom;
    if v < base {
      OneDigit(v, base, upper);
    } else {
      DigitsFromTop(v / base, base, upper);
      var k := NumDigits(v / base, base);
      TopDigits(v, base, k);
      DigitsFromSplit(v, k - 1, base, upper);
    }
  }

  lemma OneDigit(v: nat, base: nat, upper: bool)
    requires IsBase(base) && v < base
    ensures v < Pow(base, 1) && DigitsFrom(v, 0, base, upper) == [DigitChar(v, upper)]
  {
    hide Pow, DigitChar, Digit, DigitsFrom;
    PowZero(base);
    PowNext(base, 0);
    DigitsFromStep(v, 1, 0, base, upper);
    DigitOfOne(v);
  }

  lemma TopDigits(v: nat, base: nat, k: nat)
    requires IsBase(base) && k > 0 && v / base < Pow(base, k)
    ensures v < Pow(base, k + 1)
  {
    LowPart(base, Pow(base, k), v / base, v % base);
  }

  // Place values up to that of the leading digit fit in the number.
  lemma {:induction false} PlaceFits(v: nat, base: nat, j: nat)
    requires IsBase(base) && j < NumDigits(v, base)
    ensures j > 0 ==> Pow(base, j) <= v
    decreases j
  {
    hide Pow;
    if j > 0 {
      PlaceFits(v / base, base, j - 1);
      PlaceUp(v, base, j);
    }
  }

  lemma PlaceUp(v: nat, base: nat, j: nat)
    requires IsBase(base) && v >= base && j > 0 && (j == 1 || Pow(base, j - 1) <= v / base)
    ensures Pow(base, j) <= v
  {
    assert Pow(base, 0) == 1;
    TimesMonotone(base, Pow(base, j - 1), v / base);
  }

  lemma PlaceDown(base: nat, k: nat)
    requires IsBase(base)
    ensures Pow(base, k) / base == if k == 0 then 0 else Pow(base, k - 1)
  {
    if k > 0 {
      DivUnique(Pow(base, k), base, Pow(base, k - 1), 0);
    }
  }

  // One turn of the digit loop.
  lemma DigitsFromStep(v: nat, p: nat, k: nat, base: nat, upper: bool)
    requires IsBase(base) && p == Pow(base, k)
    ensures DigitsFrom(v, k, base, upper)
            == [DigitChar(Digit(v, p), upper)] + if k == 0 then "" else DigitsFrom(v % p, k - 1, base, upper)
  {
    hide DigitChar, Pow, Digit;
  }

  lemma SmallDigit(v: nat, p: nat, k: nat, base: nat)
    requires IsBase(base) && p == Pow(base, k) && v < Pow(base, k + 1)
    ensures v / p < base && v / p == Digit(v, p) && v % p < p
  {
    hide Pow;
    PowNext(base, k);
    SmallQuotient(v, p, base);
  }

  // One turn of the counting loop.
  lemma NumDigitsStep(v: nat, base: nat)
    requires IsBase(base)
    ensures v / base > 0 <==> v >= base
    ensures NumDigits(v, base) == 1 + if v / base > 0 then NumDigits(v / base, base) else 0
  {
  }

  lemma Shrinks(v: nat, base: nat)
    requires IsBase(base) && v > 0
    ensures v / base < v
  {
  }

  // The place value of one more digit still fits in 32 bits.
  lemma NextPlace(v: nat, base: nat, j: nat)
    requires IsBase(base) && j + 1 < NumDigits(v, base) && v < TWO_TO_THE_32
    ensures Pow(base, j) * base % TWO_TO_THE_32 == Pow(base, j + 1)
  {
    hide Pow, NumDigits;
    PlaceFits(v, base, j + 1);
    PowNext(base, j);
  }

  lemma PowZero(b: nat)
    ensures Pow(b, 0) == 1
  {
  }

  lemma PowNext(b: nat, k: nat)
    ensures Pow(b, k + 1) == b * Pow(b, k)
  {
  }

  // ---------- nibbles ----------

  // (v & (0xF << (4 * k))) >> (4 * k)
  function Nibble(v: nat, k: nat): (d: nat)
    ensures d < 16
  {
    v / Pow(16, k) % 16
  }

  // A number whose top nibble is place k has k + 1 digits.
  lemma {:induction false} TopNibble(v: nat, k: nat)
    requires v < Pow(16, k + 1) && Nibble(v, k) != 0
    ensures NumDigits(v, 16) == k + 1
    decreases k
  {
    hide Pow;
    PowZero(16);
    PowNext(16, k);
    if k == 0 {
      assert v < 16;
    } else {
      PowNext(16, k - 1);
      NestedDivision(v, 16, Pow(16, k - 1), Pow(16, k));
      SmallQuotient(v, 16, Pow(16, k));
      PowUp(k);
      TopNibble(v / 16, k - 1);
      assert v >= 16;
    }
  }

  lemma PowUp(k: nat)
    ensures Pow(16, k) > 0
  {
  }

  // A clear nibble in place k leaves the number below that place.
  lemma ClearNibble(v: nat, k: nat)
    requires v < Pow(16, k + 1) && Nibble(v, k) == 0
    ensures v < Pow(16, k)
  {
    hide Pow;
    PowNext(16, k);
    SmallQuotient(v, Pow(16, k), 16);
  }

  // What lies below place k.
  function Below(v: nat, k: nat): (low: nat)
    ensures low < Pow(16, k)
  {
    PowUp(k);
    v % Pow(16, k)
  }

  // Masking out a nibble is dividing what lies below the next place.
  lemma NibbleIsDigit(v: nat, k: nat)
    ensures Pow(16, k) > 0
    ensures Digit(Below(v, k + 1), Pow(16, k)) == Nibble(v, k)
    ensures Below(v, k + 1) % Pow(16, k) == Below(v, k)
  {
    hide Pow;
    PowNext(16, k);
    NestedDivision(v, Pow(16, k), 16, Pow(16, k + 1));
  }

  // One turn of the nibble loop.
  lemma NibbleStep(v: nat, k: nat)
    ensures DigitsFrom(Below(v, k + 1), k, 16, false)
            == [DigitChar(Nibble(v, k), false)] + if k == 0 then "" else DigitsFrom(Below(v, k), k - 1, 16, false)
  {
    hide Below, Nibble, Digit, DigitChar, DigitsFrom, Pow;
    NibbleIsDigit(v, k);
    DigitsFromStep(Below(v, k + 1), Pow(16, k), k, 16, false);
  }

  // The number an argument word stands for.
  function Meaning(word: nat, signed: bool): int {
    if signed && word >= 0x8000_0000 then word - TWO_TO_THE_32 else word
  }

  // The port characters go out on.
  class Port {
    var out: string

    constructor ()
      ensures out == ""
    {
      out := "";
    }

    // alt_log_txchar
    method TxChar(c: char)
      modifies this
      ensures out == old(out) + [c]
    {
      out := out + [c];
    }

    // alt_log_repchar
    method RepChar(c: char, r: int)
      modifies this
      ensures out == old(out) + Repeat(c, r)
    {
      var left := r;
      while left > 0
        invariant out + Repeat(c, left) == old(out) + Repeat(c, r)
        decreases left
      {
        assert out + Repeat(c, left) == (out + [c]) + Repeat(c, left - 1);
        TxChar(c);
        left := left - 1;
      }
    }

    // Count the digits of v and find the place value of the first.  The place
    // value never overflows its word.
    method CountDigits(v: nat, base: nat) returns (digitCount: nat, p: nat)
      requires IsBase(base) && v < TWO_TO_THE_32
      ensures digitCount == NumDigits(v, base) && p == Pow(base, digitCount - 1)
    {
      hide Pow, NumDigits;
      PowZero(base);
      NumDigitsStep(v, base);
      var vShrink := v / base;
      p, digitCount := 1, 1;
      while vShrink > 0
        invariant digitCount > 0 && p == Pow(base, digitCount - 1)
        invariant NumDigits(v, base) == digitCount + if vShrink > 0 then NumDigits(vShrink, base) else 0
        decreases vShrink
      {
        NumDigitsStep(vShrink, base);
        Shrinks(vShrink, base);
        NextPlace(v, base, digitCount - 1);
        digitCount := digitCount + 1;
        p := p * base % TWO_TO_THE_32;
        vShrink := vShrink / base;
      }
    }

    // Sign and leading characters.
    method PrintLead(sign: bool, digitCount: nat, leadingZero: bool, width: int)
      modifies this
      ensures out == old(out) + Lead(sign, digitCount, leadingZero, width)
    {
      hide Repeat;
      var before := width - digitCount;
      if leadingZero {
        if sign {
          TxChar('-');
          before := before - 1;
        }
        RepChar('0', before);
      } else {
        if sign {
          before := before - 1;
        }
        RepChar(' ', before);
        if sign {
          TxChar('-');
        }
      }
    }

    // Put out the digits of v from place value p down.
    method PutDigits(v0: nat, p0: nat, ghost k0: nat, base: nat, upper: bool)
      requires IsBase(base) && p0 == Pow(base, k0) && v0 < Pow(base, k0 + 1)
      modifies this
      ensures out == old(out) + DigitsFrom(v0, k0, base, upper)
    {
      hide Pow, DigitChar, DigitsFrom;
      var v: nat, p: nat := v0, p0;
      ghost var k: int, goal := k0, out + DigitsFrom(v0, k0, base, upper);
      while p != 0
        invariant k >= -1
        invariant k >= 0 ==> p == Pow(base, k) && v < Pow(base, k + 1)
        invariant k >= 0 ==> out + DigitsFrom(v, k, base, upper) == goal
        invariant k < 0 ==> p == 0 && out == goal
        decreases k
      {
        DigitsFromStep(v, p, k, base, upper);
        PlaceDown(base, k);
        SmallDigit(v, p, k, base);
        TxChar(DigitChar(v / p, upper));
        v, p, k := v % p, p / base, k - 1;
      }
    }

    // The integer conversion of alt_log_private_printf.
    method PrintInteger(word: nat, signed: bool, base: nat, upper: bool, leadingZero: bool, width: int)
      requires IsBase(base) && word < TWO_TO_THE_32
      modifies this
      ensures out == old(out) + Printed(Meaning(word, signed), base, upper, leadingZero, width)
    {
      hide Pow, Digits, DigitsFrom, Lead, NumDigits;
      var v, sign := word, false;
      if signed && v >= 0x8000_0000 {
        v := (TWO_TO_THE_32 - 1 - v + 1) % TWO_TO_THE_32;
        sign := true;
      }
      var digitCount, p := CountDigits(v, base);
      DigitsFromTop(v, base, upper);
      PrintLead(sign, digitCount, leadingZero, width);
      PutDigits(v, p, digitCount - 1, base, upper);
    }

    // The %x conversion of alt_printf: skip the leading clear nibbles, then put out
    // the rest.  The shift distance is 4 * k.
    method PrintHex(v: nat)
      requires v < TWO_TO_THE_32
      modifies this
      ensures out == old(out) + Digits(v, 16, false)
    {
      hide Pow, DigitChar, Digits, DigitsFrom, Nibble;
      if v == 0 {
        ZeroHex();
        TxChar('0');
        return;
      }
      var k := FirstNibble(v);
      TopNibble(v, k);
      DigitsFromTop(v, 16, false);
      PutNibbles(v, k);
    }

    // Find the first nibble that is not clear.
    method FirstNibble(v: nat) returns (k: nat)
      requires 0 < v < TWO_TO_THE_32
      ensures Nibble(v, k) != 0 && v < Pow(16, k + 1)
    {
      EightNibbles();
      hide Pow, Nibble;
      k := 7;
      PowZero(16);
      while Nibble(v, k) == 0
        invariant v < Pow(16, k + 1)
        decreases k
      {
        ClearNibble(v, k);
        k := k - 1;
      }
    }

    // Put out the nibbles of v from place k0 down.
    method PutNibbles(v: nat, k0: nat)
      requires v < Pow(16, k0 + 1)
      modifies this
      ensures out == old(out) + DigitsFrom(v, k0, 16, false)
    {
      hide Pow, DigitChar, DigitsFrom, Nibble, Below;
      AllBelow(v, k0 + 1);
      var k: int := k0;
      ghost var goal := out + DigitsFrom(v, k0, 16, false);
      while k >= 0
        invariant k >= -1
        invariant out + (if k >= 0 then DigitsFrom(Below(v, k + 1), k, 16, false) else "") == goal
      {
        NibbleStep(v, k);
        TxChar(DigitChar(Nibble(v, k), false));
        k := k - 1;
      }
    }
  }

  lemma AllBelow(v: nat, k: nat)
    requires v < Pow(16, k)
    ensures Below(v, k) == v
  {
    hide Pow;
    DivUnique(v, Pow(16, k), 0, v);
  }

  lemma ZeroHex()
    ensures Digits(0, 16, false) == "0"
  {
  }

  lemma EightNibbles()
    ensures Pow(16, 8) == TWO_TO_THE_32
  {
    assert Pow(16, 4) == 0x1_0000;
  }

  // ---------- what the two conversions promise ----------

  // What the integer conversion prints for the number n.
  function Printed(n: int, base: nat, upper: bool, leadingZero: bool, width: int): string
    requires IsBase(base)
  {
    Layout(n < 0, Digits(if n < 0 then -n else n, base, upper), leadingZero, width)
  }

  // It reads back as the number, INT_MIN included, and is as long as it should be.
  lemma PrintedParses(word: nat, signed: bool, base: nat, upper: bool, leadingZero: bool, width: int)
    requires IsBase(base) && word < TWO_TO_THE_32
    ensures var n := Meaning(word, signed);
            var s := Printed(n, base, upper, leadingZero, width);
            && Parse(s, base) == n
            && |s| == Max(width, NumDigits(if n < 0 then -n else n, base) + if n < 0 then 1 else 0)
  {
    hide Parse, Digits, Lead;
    var n := Meaning(word, signed);
    LayoutParses(if n < 0 then -n else n, base, upper, n < 0, leadingZero, width);
  }

  // What stands where: the digits last; before them zeros, after the sign if there is
  // one, with leadingZero, and otherwise spaces, before the sign.
  lemma PaddingIs(n: int, base: nat, upper: bool, leadingZero: bool, width: int)
    requires IsBase(base)
    ensures var digits := Digits(if n < 0 then -n else n, base, upper);
            var s := Printed(n, base, upper, leadingZero, width);
            var before := |s| - |digits|;
            && before >= (if n < 0 then 1 else 0) && s[before..] == digits
            && (leadingZero ==>
                  && (n < 0 ==> s[0] == '-')
                  && forall i :: (if n < 0 then 1 else 0) <= i < before ==> s[i] == '0')
            && (!leadingZero ==>
                  && (n < 0 ==> s[before - 1] == '-')
                  && forall i :: 0 <= i < before - (if n < 0 then 1 else 0) ==> s[i] == ' ')
  {
    hide Digits, Repeat;
    var pad := width - |Digits(if n < 0 then -n else n, base, upper)| - if n < 0 then 1 else 0;
    RepeatIs('0', pad);
    RepeatIs(' ', pad);
  }

  lemma {:induction false} RepeatIs(c: char, n: int)
    ensures forall i :: 0 <= i < n ==> Repeat(c, n)[i] == c
  {
    if n > 0 {
      RepeatIs(c, n - 1);
    }
  }

  // Letters are upper case if asked for and else lower case.
  lemma {:induction false} LettersAre(v: nat, base: nat, upper: bool, i: nat)
    requires IsBase(base) && i < |Digits(v, base, upper)|
    ensures var c := Digits(v, base, upper)[i];
            '0' <= c <= '9' || (if upper then 'A' <= c <= 'F' else 'a' <= c <= 'f')
  {
    hide NumDigits;
    if v >= base && i < |Digits(v / base, base, upper)| {
      LettersAre(v / base, base, upper, i);
    }
  }

  // %x of alt_log_printf prints what %x of alt_printf prints exactly when the width
  // given, -1 without one, does not exceed the number of digits.
  lemma HexAgrees(word: nat, leadingZero: bool, width: int)
    requires word < TWO_TO_THE_32
    ensures Printed(Meaning(word, false), 16, false, leadingZero, width) == Digits(word, 16, false)
            <==> width <= NumDigits(word, 16)
  {
    hide Digits;
  }
}
