/** How addresses and sizes are rounded up: by adding and masking in 64-bit words. */
module AlignMask {
  import opened Arena

  const WORD: nat := 0x1_0000_0000_0000_0000

  /** Bitwise and, bit by bit. */
  function And(x: nat, y: nat): nat
    decreases x
  {
    if x == 0 then 0 else (x % 2) * (y % 2) + 2 * And(x / 2, y / 2)
  }

  /** Bitwise complement of a 64-bit word. */
  function Not(x: nat): nat
    requires x < WORD
  {
    WORD - 1 - x
  }

  /** The address rounded up as the code does it: (p + align - 1) & (~align + 1). */
  function AlignToByMask(p: nat, align: nat): nat
    requires align < WORD
  {
    And((p + align - 1) % WORD, (Not(align) + 1) % WORD)
  }

  /** The size rounded up as the code does it: (n + 7) & -8. */
  function AlignUpTo8ByMask(n: nat): nat {
    And((n + 7) % WORD, WORD - 8)
  }

  lemma {:induction false} PowerTimesPower(a: nat, b: nat)
    requires PowerOfTwo(a) && PowerOfTwo(b)
    ensures PowerOfTwo(a * b)
    decreases b
  {
    if b == 1 {
      assert a * b == a;
    } else {
      PowerTimesPower(a, b / 2);
      PowerTwice(a * (b / 2));
      assert a * b == 2 * (a * (b / 2));
    }
  }

  lemma {:induction false} PowerTwice(n: nat)
    requires PowerOfTwo(n)
    ensures PowerOfTwo(2 * n)
  {
    assert 2 * n / 2 == n;
  }

  lemma {:induction false} WordIsPower()
    ensures PowerOfTwo(WORD)
  {
    assert PowerOfTwo(4) && PowerOfTwo(16);
    PowerTimesPower(16, 16);
    PowerTimesPower(256, 256);
    PowerTimesPower(0x1_0000, 0x1_0000);
    PowerTimesPower(0x1_0000_0000, 0x1_0000_0000);
  }

  lemma {:induction false} AndOnes(x: nat, word: nat)
    requires PowerOfTwo(word) && x < word
    ensures And(x, word - 1) == x
    decreases x
  {
    if x > 0 {
      assert (word - 1) % 2 == 1 && (word - 1) / 2 == word / 2 - 1;
      AndOnes(x / 2, word / 2);
    }
  }

  lemma {:induction false} HalfRemainder(x: nat, half: nat)
    requires half > 0
    ensures x % (2 * half) == x % 2 + 2 * ((x / 2) % half)
  {
    var d, m := (x / 2) / half, (x / 2) % half;
    assert x / 2 == d * half + m;
    assert x == d * (2 * half) + (x % 2 + 2 * m);
    QuotientUnique(x, 2 * half, d, x % 2 + 2 * m);
  }

  /** Masking with the negative of a power of two clears the low bits. */
  lemma {:induction false} AndClearsLowBits(x: nat, align: nat, word: nat)
    requires PowerOfTwo(align) && PowerOfTwo(word) && align <= word && x < word
    ensures And(x, word - align) == x - x % align
    decreases align
  {
    if align == 1 {
      AndOnes(x, word);
    } else {
      HalfBits(word, align);
      AndClearsLowBits(x / 2, align / 2, word / 2);
      AndEven(x, word - align);
      HalfRemainder(x, align / 2);
      HalfSum(x, And(x / 2, word / 2 - align / 2), (x / 2) % (align / 2));
    }
  }

  lemma {:induction false} AndEven(x: nat, y: nat)
    requires y % 2 == 0
    ensures And(x, y) == 2 * And(x / 2, y / 2)
  {
  }

  lemma {:induction false} HalfSum(x: nat, and: nat, rest: nat)
    requires and == x / 2 - rest
    ensures 2 * and == x - (x % 2 + 2 * rest)
  {
  }

  lemma {:induction false} HalfBits(word: nat, align: nat)
    requires word % 2 == 0 && align % 2 == 0 && align <= word
    ensures (word - align) % 2 == 0 && (word - align) / 2 == word / 2 - align / 2
  {
  }

  lemma {:induction false} WrappedIsSmall(p: nat, align: nat)
    requires 0 < align < WORD && p < WORD <= p + align - 1
    ensures (p + align - 1) % WORD == p + align - 1 - WORD
  {
  }

  /** Rounding down from p + align - 1 is rounding p up. */
  lemma {:induction false} RoundDownIsUp(p: nat, align: nat)
    requires align > 0
    ensures (p + align - 1) - (p + align - 1) % align == AlignTo(p, align)
  {
    var x, r := p + align - 1, AlignTo(p, align);
    AlignToIsMultiple(p, align);
    if p == 0 {
      QuotientUnique(x, align, 0, x);
    } else {
      var d := r / align;
      assert r == d * align;
      QuotientUnique(x, align, d, x - r);
    }
  }

  lemma {:induction false} ClearedInWord(x: nat, align: nat)
    requires PowerOfTwo(align) && align < WORD && x < WORD
    ensures And(x, (Not(align) + 1) % WORD) == x - x % align
  {
    WordIsPower();
    AndClearsLowBits(x, align, WORD);
  }

  lemma {:induction false} Small(x: nat)
    requires x < WORD
    ensures x % WORD == x
  {
  }

  lemma {:induction false} MaskFits(p: nat, align: nat)
    requires PowerOfTwo(align) && align < WORD && p + align - 1 < WORD
    ensures AlignToByMask(p, align) == AlignTo(p, align)
  {
    Small(p + align - 1);
    ClearedInWord(p + align - 1, align);
    RoundDownIsUp(p, align);
  }

  lemma {:induction false} MaskWraps(p: nat, align: nat)
    requires PowerOfTwo(align) && align < WORD && p < WORD <= p + align - 1
    ensures AlignToByMask(p, align) == 0 < AlignTo(p, align)
  {
    var x := p + align - 1 - WORD;
    WrappedIsSmall(p, align);
    ClearedInWord(x, align);
    QuotientUnique(x, align, 0, x);
  }

  /** The masks round to the least multiple of a power of two that is not below the address, exactly when the
      sum does not wrap around. */
  lemma {:induction false} MaskIsAlignTo(p: nat, align: nat)
    requires PowerOfTwo(align) && align < WORD && p < WORD
    ensures AlignToByMask(p, align) == AlignTo(p, align) <==> p + align - 1 < WORD
  {
    if p + align - 1 < WORD { MaskFits(p, align); } else { MaskWraps(p, align); }
  }

  lemma {:induction false} EightIsPower()
    ensures PowerOfTwo(8) && Not(8) + 1 == WORD - 8
  {
    assert PowerOfTwo(4);
  }

  /** Rounding a size is rounding an address to 8, whatever the size. */
  lemma {:induction false} SizesLikeAddresses(n: nat)
    ensures AlignUpTo8ByMask(n) == AlignToByMask(n, 8) && AlignUpTo8(n) == AlignTo(n, 8)
    decreases n
  {
    EightIsPower();
    Small(WORD - 8);
    if n > 8 { SizesLikeAddresses(n - 8); }
  }

  lemma {:induction false} MaskIsAlignUpTo8(n: nat)
    requires n < WORD
    ensures AlignUpTo8ByMask(n) == AlignUpTo8(n) <==> n + 7 < WORD
  {
    EightIsPower();
    SizesLikeAddresses(n);
    MaskIsAlignTo(n, 8);
  }

  lemma {:induction false} MultiplesApart(m: int, r: int, n: nat)
    requires n > 0 && m % n == 0 && r % n == 0 && m < r
    ensures m + n <= r
  {
    var a, b := r / n, m / n;
    assert r == a * n;
    assert m == b * n;
    assert (a - b) * n == r - m;
    MultipleBounds(a - b, n);
  }

  /** No number below is a multiple that would do. */
  lemma {:induction false} AlignToIsLeast(p: nat, align: nat, m: nat)
    requires align > 0 && p <= m && m % align == 0
    ensures AlignTo(p, align) % align == 0 && p <= AlignTo(p, align) <= m
  {
    AlignToIsMultiple(p, align);
    if m < AlignTo(p, align) { MultiplesApart(m, AlignTo(p, align), align); }
  }
}
