/** Machine words as natural numbers, read and written one bit at a time. */
module Words {

  const WORD_BITS: nat := 64
  const ALL_ONES: nat := 0xffff_ffff_ffff_ffff

  function Pow2(n: nat): (p: nat)
    ensures p > 0
  {
    if n == 0 then 1 else 2 * Pow2(n - 1)
  }

  // w & (1 << i)
  predicate Bit(w: nat, i: nat) {
    if i == 0 then w % 2 == 1 else Bit(w / 2, i - 1)
  }

  ghost predicate NoBits(w: nat, a: nat, b: nat) {
    forall i: nat :: a <= i < b ==> !Bit(w, i)
  }

  ghost predicate AllBits(w: nat, a: nat, b: nat) {
    forall i: nat :: a <= i < b ==> Bit(w, i)
  }

  // w | (1 << i)
  function SetBit(w: nat, i: nat): nat {
    if i == 0 then w / 2 * 2 + 1 else SetBit(w / 2, i - 1) * 2 + w % 2
  }

  // w & ~(1 << i)
  function ClearBit(w: nat, i: nat): nat {
    if i == 0 then w / 2 * 2 else ClearBit(w / 2, i - 1) * 2 + w % 2
  }

  // w >> k
  function Shr(w: nat, k: nat): nat {
    if k == 0 then w else Shr(w / 2, k - 1)
  }

  // w << k
  function Shl(w: nat, k: nat): nat {
    if k == 0 then w else Shl(w, k - 1) * 2
  }

  // w & ((1 << k) - 1)
  function Low(w: nat, k: nat): nat {
    if k == 0 then 0 else Low(w / 2, k - 1) * 2 + w % 2
  }

  // w & ~((1 << k) - 1)
  function ClearLow(w: nat, k: nat): nat {
    if k == 0 then w else ClearLow(w / 2, k - 1) * 2
  }

  lemma {:induction false} BitOfSet(w: nat, i: nat, j: nat)
    ensures Bit(SetBit(w, i), j) <==> j == i || Bit(w, j)
    decreases i + j
  {
    if i > 0 && j > 0 {
      BitOfSet(w / 2, i - 1, j - 1);
      assert SetBit(w, i) / 2 == SetBit(w / 2, i - 1);
    } else if i == 0 && j > 0 {
      assert SetBit(w, 0) / 2 == w / 2;
    }
  }

  lemma {:induction false} BitOfClear(w: nat, i: nat, j: nat)
    ensures Bit(ClearBit(w, i), j) <==> j != i && Bit(w, j)
    decreases i + j
  {
    if i > 0 && j > 0 {
      BitOfClear(w / 2, i - 1, j - 1);
      assert ClearBit(w, i) / 2 == ClearBit(w / 2, i - 1);
    } else if i == 0 && j > 0 {
      assert ClearBit(w, 0) / 2 == w / 2;
    }
  }

  lemma {:induction false} SetBitFits(w: nat, i: nat, k: nat)
    requires i < k && w < Pow2(k)
    ensures SetBit(w, i) < Pow2(k)
  {
    if i > 0 {
      SetBitFits(w / 2, i - 1, k - 1);
    }
  }

  lemma {:induction false} ClearBitFits(w: nat, i: nat)
    ensures ClearBit(w, i) <= w
  {
    if i > 0 {
      ClearBitFits(w / 2, i - 1);
    }
  }

  /** A low bit is cleared anyway. */
  lemma {:induction false} ClearLowAfterClear(w: nat, i: nat, k: nat)
    requires i < k
    ensures ClearLow(ClearBit(w, i), k) == ClearLow(w, k)
  {
    if i > 0 {
      ClearLowAfterClear(w / 2, i - 1, k - 1);
      assert ClearBit(w, i) / 2 == ClearBit(w / 2, i - 1);
    }
  }

  /** (1 << k) - 1 has exactly the bits below k. */
  lemma {:induction false} BitsOfMask(k: nat, i: nat)
    ensures Bit(Pow2(k) - 1, i) <==> i < k
  {
    if k == 0 {
      BitsOfZero(i);
    } else if i > 0 {
      assert (Pow2(k) - 1) / 2 == Pow2(k - 1) - 1;
      BitsOfMask(k - 1, i - 1);
    }
  }

  lemma {:induction false} BitsOfZero(i: nat)
    ensures !Bit(0, i)
  {
    if i > 0 {
      BitsOfZero(i - 1);
    }
  }

  lemma {:induction false} SomeBit(w: nat, k: nat) returns (i: nat)
    requires w != 0 && w < Pow2(k)
    ensures i < k && Bit(w, i)
  {
    if w % 2 == 1 {
      i := 0;
    } else {
      i := SomeBit(w / 2, k - 1);
      i := i + 1;
    }
  }

  lemma {:induction false} SomeHole(w: nat, k: nat) returns (i: nat)
    requires w < Pow2(k) - 1
    ensures i < k && !Bit(w, i)
  {
    if w % 2 == 0 {
      i := 0;
    } else {
      i := SomeHole(w / 2, k - 1);
      i := i + 1;
    }
  }

  /** A k-bit word is zero exactly when it has no bit. */
  lemma ZeroBits(w: nat, k: nat)
    requires w < Pow2(k)
    ensures w == 0 <==> NoBits(w, 0, k)
  {
    forall i | w == 0 && 0 <= i < k
      ensures !Bit(w, i)
    {
      BitsOfZero(i);
    }
    if w != 0 {
      var i := SomeBit(w, k);
    }
  }

  /** A k-bit word is 2^k - 1 exactly when it has every bit. */
  lemma FullBits(w: nat, k: nat)
    requires w < Pow2(k)
    ensures w == Pow2(k) - 1 <==> AllBits(w, 0, k)
  {
    if w != Pow2(k) - 1 {
      var i := SomeHole(w, k);
    } else {
      forall i | 0 <= i < k
        ensures Bit(w, i)
      {
        BitsOfMask(k, i);
      }
    }
  }

  lemma {:induction false} BitShift(w: nat, k: nat, i: nat)
    ensures Bit(w, k + i) == Bit(Shr(w, k), i)
  {
    if k > 0 {
      BitShift(w / 2, k - 1, i);
    }
  }

  lemma {:induction false} ShrFits(w: nat, k: nat, n: nat)
    requires k <= n && w < Pow2(n)
    ensures Shr(w, k) < Pow2(n - k)
  {
    if k > 0 {
      ShrFits(w / 2, k - 1, n - 1);
    }
  }

  lemma {:induction false} LowOfSet(w: nat, i: nat, k: nat)
    requires k <= i
    ensures Low(SetBit(w, i), k) == Low(w, k)
  {
    if k > 0 {
      LowOfSet(w / 2, i - 1, k - 1);
      assert SetBit(w, i) / 2 == SetBit(w / 2, i - 1);
    }
  }

  lemma {:induction false} LowOfClear(w: nat, i: nat, k: nat)
    requires k <= i
    ensures Low(ClearBit(w, i), k) == Low(w, k)
  {
    if k > 0 {
      LowOfClear(w / 2, i - 1, k - 1);
      assert ClearBit(w, i) / 2 == ClearBit(w / 2, i - 1);
    }
  }

  lemma {:induction false} LowFits(w: nat, k: nat)
    requires w < Pow2(k)
    ensures Low(w, k) == w
  {
    if k > 0 {
      LowFits(w / 2, k - 1);
    }
  }

  lemma {:induction false} LowOfLow(w: nat, a: nat, b: nat)
    requires a <= b
    ensures Low(Low(w, b), a) == Low(w, a)
  {
    if a > 0 {
      LowOfLow(w / 2, a - 1, b - 1);
      assert Low(w, b) / 2 == Low(w / 2, b - 1);
    }
  }

  /** Masking the low bits away keeps exactly the high part. */
  lemma {:induction false} ClearLowIsHigh(w: nat, k: nat)
    ensures ClearLow(w, k) == Shl(Shr(w, k), k)
  {
    if k > 0 {
      ClearLowIsHigh(w / 2, k - 1);
    }
  }

  lemma {:induction false} ShlInjective(v: nat, w: nat, k: nat)
    ensures Shl(v, k) == Shl(w, k) <==> v == w
  {
    if k > 0 {
      ShlInjective(v, w, k - 1);
    }
  }

  /** What is left above bit k is zero exactly when no bit from k on is set. */
  lemma HighBits(w: nat, k: nat, n: nat)
    requires k <= n && w < Pow2(n)
    ensures ClearLow(w, k) == 0 <==> NoBits(w, k, n)
  {
    ShrFits(w, k, n);
    ZeroBits(Shr(w, k), n - k);
    ClearLowIsHigh(w, k);
    ShlOfZero(k);
    ShlInjective(Shr(w, k), 0, k);
    if Shr(w, k) == 0 {
      forall i | k <= i < n
        ensures !Bit(w, i)
      {
        BitShift(w, k, i - k);
      }
    } else {
      var i := SomeBit(Shr(w, k), n - k);
      BitShift(w, k, i);
      assert Bit(w, k + i);
    }
  }

  lemma {:induction false} ShlOfZero(k: nat)
    ensures Shl(0, k) == 0
  {
    if k > 0 {
      ShlOfZero(k - 1);
    }
  }

  /** The bits from bit k on are all set exactly when the high part equals ((1 << m) - 1) << k. */
  lemma HighBitsFull(w: nat, k: nat, m: nat)
    requires w < Pow2(k + m)
    ensures ClearLow(w, k) == Shl(Pow2(m) - 1, k) <==> AllBits(w, k, k + m)
  {
    ShrFits(w, k, k + m);
    ClearLowIsHigh(w, k);
    ShlInjective(Shr(w, k), Pow2(m) - 1, k);
    if Shr(w, k) == Pow2(m) - 1 {
      forall i | k <= i < k + m
        ensures Bit(w, i)
      {
        BitShift(w, k, i - k);
        BitsOfMask(m, i - k);
      }
    } else {
      var i := SomeHole(Shr(w, k), m);
      BitShift(w, k, i);
      assert !Bit(w, k + i);
    }
  }

  lemma {:induction false} PowSplit(a: nat, b: nat)
    ensures Pow2(a + b) == Pow2(a) * Pow2(b)
  {
    if a > 0 {
      PowSplit(a - 1, b);
      assert Pow2(a) * Pow2(b) == 2 * (Pow2(a - 1) * Pow2(b));
    }
  }

  lemma WordSize()
    ensures Pow2(64) == ALL_ONES + 1
  {
    assert Pow2(4) == 16;
    hide Pow2;
    PowSplit(4, 4);
    assert Pow2(8) == 0x100;
    PowSplit(8, 8);
    assert Pow2(16) == 0x1_0000;
    PowSplit(16, 16);
    assert Pow2(32) == 0x1_0000_0000;
    PowSplit(32, 32);
  }

  // ----- the operations in numbers -----

  lemma Halves(w: nat, p: nat)
    requires p > 0
    ensures w / 2 / p == w / (2 * p)
    ensures w % (2 * p) == w / 2 % p * 2 + w % 2
  {
    var q, r := w / 2 / p, w / 2 % p;
    assert w == 2 * (q * p + r) + w % 2;
    assert w == q * (2 * p) + (2 * r + w % 2) && 0 <= 2 * r + w % 2 < 2 * p;
    Divided(w, 2 * p, q, 2 * r + w % 2);
  }

  lemma Divided(w: nat, d: nat, q: nat, r: nat)
    requires d > 0 && w == q * d + r && r < d
    ensures w / d == q && w % d == r
  {
    var x := w / d - q;
    assert w == w / d * d + w % d;
    assert x * d == r - w % d;
    assert x > 0 ==> x * d >= d;
    assert x < 0 ==> x * d + d <= 0;
  }

  /** Bit i is the digit of 2^i. */
  lemma {:induction false} BitInNumbers(w: nat, i: nat)
    ensures Bit(w, i) <==> w / Pow2(i) % 2 == 1
  {
    if i > 0 {
      BitInNumbers(w / 2, i - 1);
      Halves(w, Pow2(i - 1));
    }
  }

  /** Setting and clearing a bit. */
  lemma {:induction false} SetInNumbers(w: nat, i: nat)
    ensures SetBit(w, i) == w + if Bit(w, i) then 0 else Pow2(i)
    ensures ClearBit(w, i) == w - if Bit(w, i) then Pow2(i) else 0
  {
    if i > 0 {
      SetInNumbers(w / 2, i - 1);
    }
  }

  /** Shifts are quotients and products, and the low bits are the remainder. */
  lemma {:induction false} ShiftInNumbers(w: nat, k: nat)
    ensures Shr(w, k) == w / Pow2(k) && Shl(w, k) == w * Pow2(k)
    ensures Low(w, k) == w % Pow2(k) && ClearLow(w, k) == w - w % Pow2(k)
  {
    ShlInNumbers(w, k);
    hide Shl;
    if k > 0 {
      ShiftInNumbers(w / 2, k - 1);
      Halves(w, Pow2(k - 1));
    }
  }

  lemma {:induction false} ShlInNumbers(w: nat, k: nat)
    ensures Shl(w, k) == w * Pow2(k)
  {
    if k > 0 {
      ShlInNumbers(w, k - 1);
      Twofold(w, Pow2(k - 1));
    }
  }

  lemma Twofold(w: nat, p: nat)
    ensures w * (2 * p) == 2 * (w * p)
  {
  }

  lemma {:induction false} BitsOfShl(w: nat, k: nat, i: nat)
    ensures Bit(Shl(w, k), i) <==> i >= k && Bit(w, i - k)
  {
    if k > 0 && i > 0 {
      BitsOfShl(w, k - 1, i - 1);
    }
  }

  /** Words of `n` bits with the same bits are the same. */
  lemma {:induction false} SameBits(v: nat, w: nat, n: nat)
    requires v < Pow2(n) && w < Pow2(n) && forall i: nat :: i < n ==> Bit(v, i) == Bit(w, i)
    ensures v == w
  {
    if n > 0 {
      assert Bit(v, 0) == Bit(w, 0);
      forall i: nat | i < n - 1
        ensures Bit(v / 2, i) == Bit(w / 2, i)
      {
        assert Bit(v, i + 1) == Bit(w, i + 1);
      }
      SameBits(v / 2, w / 2, n - 1);
    }
  }
}
