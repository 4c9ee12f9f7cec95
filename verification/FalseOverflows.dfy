/**
 Exactly which operands the low-precision division rejects although their quotient
 fits, told by their leading and dropped bits.
 */
module FalseOverflows {
  import opened Bits
  import opened LowPrecisionDivision
  import opened DivisionAccuracy
  import opened DivisionVerdict

  /** The leading 32 bits of a number that has more. */
  function Top32(n: nat): nat
    requires BitLen(n) >= 32
  {
    Shr(n, BitLen(n) - 32)
  }

  /** What follows the leading 32 bits. */
  function Below32(n: nat): int
    requires BitLen(n) >= 32
  {
    n - Top32(n) * Pow2(BitLen(n) - 32)
  }

  /**
   The divisor loses bits, the dividend is 79 places longer with the same leading 32
   bits, and what follows them is less in the dividend than in the divisor. This can be
   told before dividing.
   */
  predicate FalseOverflowShape(an: nat, bn: nat) {
    && BitLen(bn) > 32
    && BitLen(an) == BitLen(bn) + 79
    && Top32(an) == Top32(bn)
    && Below32(an) < Below32(bn) * 0x8000_0000_0000_0000_0000
  }

  // ---------- the leading bits of the scaled dividend ----------

  /** The leading 32 bits of the dividend are those of the scaled dividend. */
  lemma TopOfScaled(an: Magnitude)
    requires BitLen(an) >= 32
    ensures Floor(Top32(an), ScaledDividend(an), 0x1_0000_0000)
  {
    DividendBounds(an);
    ShrFloor(an, BitLen(an) - 32);
    Last32Places(BitLen(an));
    TopFloor(Top32(an), ScaledDividend(an), an, Pow2(BitLen(an) - 32));
  }

  lemma Last32Places(l: nat)
    requires l >= 32
    ensures Pow2(l) == Pow2(l - 32) * 0x1_0000_0000
  {
    Pow2Of32();
    Pow2Add(l - 32, 32);
  }

  lemma TopFloor(t: nat, ar: nat, an: nat, p: nat)
    requires p > 0 && Floor(t, an, p) && Floor(ar, an * 0x1_0000_0000_0000_0000, p * 0x1_0000_0000)
    ensures Floor(t, ar, 0x1_0000_0000)
  {
    CancelLt(t * 0x1_0000_0000, ar + 1, p);
    CancelLt(ar, (t + 1) * 0x1_0000_0000, p);
  }

  /** A divisor that loses bits keeps its leading 32. */
  lemma DivisorTop(bn: Magnitude)
    requires BitLen(bn) > 32
    ensures DivisorDrop(bn) == BitLen(bn) - 32
    ensures ScaledDivisor(bn) == Top32(bn) && 0x8000_0000 <= Top32(bn)
    ensures Floor(Top32(bn), bn, Pow2(BitLen(bn) - 32))
  {
    MagnitudeLength(bn);
    DivisorBounds(bn);
    TopFits(bn);
  }

  lemma TopFits(bn: Magnitude)
    requires BitLen(bn) > 32
    ensures AsU64(Top32(bn)) == Top32(bn)
  {
    var k := BitLen(bn) - 32;
    ShrFloor(bn, k);
    BitLenBounds(bn);
    Last32Places(BitLen(bn));
    CancelLt(Top32(bn), 0x1_0000_0000, Pow2(k));
    AsU64Exact(Top32(bn));
  }

  // ---------- the exact quotient ----------

  lemma Pow2Of79()
    ensures Pow2(79) == 0x8000_0000_0000_0000_0000
  {
    Pow2Of16();
    Pow2Of63();
    Pow2Sum(16, 63, 0x1_0000, 0x8000_0000_0000_0000);
  }

  /** The exact quotient fits if the dividend is less than `2^79` divisors. */
  lemma FitsBelow(a: I80F48, b: I80F48)
    ensures ExactOverflow(a, b) <==> Abs(a) >= Abs(b) * 0x8000_0000_0000_0000_0000
  {
  }

  lemma ScaledPlaces(lb: nat)
    requires lb >= 32
    ensures Pow2(lb + 79 - 32) == Pow2(lb - 32) * 0x8000_0000_0000_0000_0000
  {
    Pow2Of79();
    Pow2Add(lb - 32, 79);
  }

  /** With the same leading bits, what follows them decides. */
  lemma FollowingBitsDecide(an: Magnitude, bn: Magnitude)
    requires BitLen(bn) > 32 && BitLen(an) == BitLen(bn) + 79 && Top32(an) == Top32(bn)
    ensures an < bn * 0x8000_0000_0000_0000_0000
       <==> Below32(an) < Below32(bn) * 0x8000_0000_0000_0000_0000
  {
    ScaledPlaces(BitLen(bn));
    MulAssoc(Top32(bn), Pow2(BitLen(bn) - 32), 0x8000_0000_0000_0000_0000);
  }

  /** A dividend that is 80 places longer overflows for certain. */
  lemma LongerOverflows(an: Magnitude, bn: Magnitude)
    requires bn > 0 && BitLen(an) >= BitLen(bn) + 80
    ensures an >= bn * 0x8000_0000_0000_0000_0000
  {
    BitLenBounds(an);
    BitLenBounds(bn);
    Pow2Of79();
    Pow2Add(BitLen(bn), 79);
    Pow2Mono(BitLen(bn) + 79, BitLen(an) - 1);
    MulMono(bn, Pow2(BitLen(bn)), 0x8000_0000_0000_0000_0000);
  }

  // ---------- both directions ----------

  lemma DivisorLosesBits(a: I80F48, b: I80F48)
    requires Regular(a, b) && CheckedDiv30(a, b).NoResult? && !ExactOverflow(a, b)
    ensures BitLen(Abs(b)) > 32
  {
    if BitLen(Abs(b)) <= 32 {
      ShortDivisor(Abs(b));
      ExactForShortDivisor(a, b);
    }
  }

  /** The truncated operands only overflow with a final shift of at least 95. */
  lemma LargeShift(a: I80F48, b: I80F48)
    requires Regular(a, b) && BitLen(Abs(b)) > 32 && a != 0 && TruncatedOverflow(a, b)
    ensures FinalShift(Abs(a), Abs(b)) >= 95
  {
    var s := FinalShift(Abs(a), Abs(b));
    DividendBounds(Abs(a));
    DivisorTop(Abs(b));
    if s < 95 {
      Pow2Of32();
      Pow2Mono(32, 127 - s);
      MulMono(0x8000_0000, ScaledDivisor(Abs(b)), Pow2(127 - s));
    }
  }

  /** The shape has the routine report overflow. */
  lemma ShapeOverflows(a: I80F48, b: I80F48)
    requires Regular(a, b) && FalseOverflowShape(Abs(a), Abs(b))
    ensures CheckedDiv30(a, b).NoResult?
  {
    DivisorTop(Abs(b));
    TopOfScaled(Abs(a));
    Pow2Of32();
    GuardTestsTruncated(a, b);
  }

  lemma SameTop(an: Magnitude, bn: Magnitude)
    requires BitLen(bn) > 32 && BitLen(an) == BitLen(bn) + 79
    requires an < bn * 0x8000_0000_0000_0000_0000 && ScaledDivisor(bn) * 0x1_0000_0000 <= ScaledDividend(an)
    ensures Top32(an) == Top32(bn)
  {
    DivisorTop(bn);
    TopOfScaled(an);
    ShrFloor(an, BitLen(an) - 32);
    ScaledPlaces(BitLen(bn));
    TopsMeet(Top32(an), Top32(bn), an, bn, Pow2(BitLen(bn) - 32), ScaledDividend(an));
  }

  lemma TopsMeet(t: nat, u: nat, an: nat, bn: nat, p: nat, ar: nat)
    requires p > 0 && t * (p * 0x8000_0000_0000_0000_0000) <= an < bn * 0x8000_0000_0000_0000_0000
    requires bn < (u + 1) * p && u * 0x1_0000_0000 <= ar < (t + 1) * 0x1_0000_0000
    ensures t == u
  {
    MulAssoc(t, p, 0x8000_0000_0000_0000_0000);
    CancelLt(t, u + 1, p);
  }

  lemma ShapeNecessary(a: I80F48, b: I80F48)
    requires Regular(a, b) && CheckedDiv30(a, b).NoResult? && !ExactOverflow(a, b)
    ensures FalseOverflowShape(Abs(a), Abs(b))
  {
    FitsBelow(a, b);
    GuardTestsTruncated(a, b);
    DivisorLosesBits(a, b);
    DivisorTop(Abs(b));
    if a == 0 {
      Outcome(a, b);
      ZeroDividend(Abs(b));
    } else {
      LargeShift(a, b);
      if BitLen(Abs(a)) >= BitLen(Abs(b)) + 80 {
        LongerOverflows(Abs(a), Abs(b));
      }
      Pow2Of32();
      SameTop(Abs(a), Abs(b));
      FollowingBitsDecide(Abs(a), Abs(b));
    }
  }

  lemma ShapeFits(a: I80F48, b: I80F48)
    requires FalseOverflowShape(Abs(a), Abs(b)) && Regular(a, b)
    ensures !ExactOverflow(a, b)
  {
    FitsBelow(a, b);
    FollowingBitsDecide(Abs(a), Abs(b));
  }

  lemma NoMissedOverflow(a: I80F48, b: I80F48)
    requires Regular(a, b) && ExactOverflow(a, b)
    ensures CheckedDiv30(a, b).NoResult?
  {
    PanicsOnlyOnMinimum(a, b);
    VerdictBounds(a, b);
  }

  /**
   The routine reports overflow for a quotient that fits if and only if the operands
   have the shape above; it never misses an overflow.
   */
  lemma VerdictDisagreesIff(a: I80F48, b: I80F48)
    requires Regular(a, b)
    ensures (CheckedDiv30(a, b).NoResult? <==> ExactOverflow(a, b)) <==> !FalseOverflowShape(Abs(a), Abs(b))
    ensures ExactOverflow(a, b) ==> CheckedDiv30(a, b).NoResult?
  {
    if ExactOverflow(a, b) {
      NoMissedOverflow(a, b);
    }
    if FalseOverflowShape(Abs(a), Abs(b)) {
      ShapeOverflows(a, b);
      ShapeFits(a, b);
    } else if CheckedDiv30(a, b).NoResult? && !ExactOverflow(a, b) {
      ShapeNecessary(a, b);
    }
  }

  /** With a divisor of at least one the verdict is that of exact division. */
  lemma ExactVerdictFromOneUp(a: I80F48, b: I80F48)
    requires Regular(a, b) && Abs(b) >= 0x1_0000_0000_0000
    ensures CheckedDiv30(a, b).NoResult? <==> ExactOverflow(a, b)
  {
    VerdictDisagreesIff(a, b);
    MagnitudeLength(Abs(a));
    Pow2Of48();
    BitLenBelow(Abs(b), 48);
  }
}
