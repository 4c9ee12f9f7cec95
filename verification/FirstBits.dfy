/** When the first 30 bits of the low-precision quotient are those of the exact one. */
module FirstBits {
  import opened Bits
  import opened LowPrecisionDivision
  import opened DivisionAccuracy
  import opened DivisionVerdict

  function Exact(a: I80F48, b: I80F48): int
    requires b != 0
  {
    Signed(a, b, ExactMagnitude(a, b))
  }

  /** The numbers are equal, or have the same sign and first differ 30 places on. */
  predicate SameFirstBits(actual: int, expected: int) {
    || actual == expected
    || (BitLen(Abs(expected)) - BitLen(Abs(actual - expected)) >= 30 && (actual < 0 <==> expected < 0))
  }

  /** 2^-48 / (1 + 2^-48): the exact quotient rounds to nothing, the routine returns the last bit. */
  lemma FirstBitsWrong()
    ensures var a, b := 1, 0x1_0000_0000_0001;
            CheckedDiv30(a, b) == Quotient(1) && Exact(a, b) == 0 && !SameFirstBits(1, 0)
  {
    var a, b := 1, 0x1_0000_0000_0001;
    ScaledOne();
    ScaledOneAndABit();
    Outcome(a, b);
    Pow2Of32();
    assert ScaledQuotient(a, b) == 0x1_0000_0000;
    assert FinalShift(a, b) == -32;
    DivUnique(0x1_0000_0000, 0x1_0000_0000, 1);
    DivUnique(0x1_0000_0000_0000, b, 0);
  }

  lemma ScaledOne()
    ensures BitLen(1) == 1 && ScaledDividend(1) == 0x8000_0000_0000_0000
  {
    Pow2Of63();
    ShortForm(1, 0x8000_0000_0000_0000);
  }

  lemma ScaledOneAndABit()
    ensures DivisorDrop(0x1_0000_0000_0001) == 17 && ScaledDivisor(0x1_0000_0000_0001) == 0x8000_0000
  {
    FortyNineBits();
    Pow2Of16();
    Pow2Sum(16, 1, 0x1_0000, 2);
    LongDivisor(0x1_0000_0000_0001);
    FloorIs(ScaledDivisor(0x1_0000_0000_0001), 0x1_0000_0000_0001, 0x2_0000, 0x8000_0000);
  }

  lemma FloorIs(q: nat, x: nat, d: nat, p: nat)
    requires Floor(q, x, d) && p * d <= x < (p + 1) * d
    ensures q == p
  {
    DivUnique(x, d, q);
    DivUnique(x, d, p);
  }

  lemma FortyNineBits()
    ensures BitLen(0x1_0000_0000_0001) == 49
  {
    Pow2Of48();
    Pow2Sum(48, 1, 0x1_0000_0000_0000, 2);
    BitLenUnique(0x1_0000_0000_0001, 49);
  }

  /** With a quotient of at least 31 bits the first 30 are right. */
  lemma FirstBitsFrom31(a: I80F48, b: I80F48)
    requires Regular(a, b) && CheckedDiv30(a, b).Quotient? && BitLen(ExactMagnitude(a, b)) >= 31
    ensures SameFirstBits(CheckedDiv30(a, b).bits, Exact(a, b))
  {
    ThirtyBitsOrLastBit(a, b);
    var e := ExactMagnitude(a, b);
    BitLenBounds(e);
    Pow2Mono(1, BitLen(e) - 1);
  }

  // ---------- short quotients ----------

  lemma ShortIsSmall(e: nat)
    requires BitLen(e) <= 30
    ensures e < 0x4000_0000
  {
    Pow2Of31();
    BitLenBelow(e, 30);
    Pow2Sum(30, 1, Pow2(30), 2);
  }

  /** A quotient shifted to the left has more than 30 bits. */
  lemma LeftShiftIsLong(rr: nat, up: nat, x: nat, bn: nat, e: nat)
    requires rr >= 0x8000_0000 && up >= 1 && ((rr * up) * bn) * 0x8000_0000 <= x * 0x8000_0001 && e < 0x4000_0000
    ensures (e + 1) * bn <= x
  {
    MulMono(1, up, rr);
    MulMono(0x8000_0000, rr * up, bn);
    MulMono(e + 1, 0x4000_0000, bn);
  }

  /** A quotient of at most 30 bits is only produced by a right shift. */
  lemma ShortNeedsRightShift(an: Magnitude, bn: Magnitude, e: nat)
    requires an > 0 && bn > 0 && an * 0x1_0000_0000_0000 < (e + 1) * bn && e < 0x4000_0000
    ensures FinalShift(an, bn) < 0
  {
    ScaledError(an, bn);
    if FinalShift(an, bn) >= 0 {
      LeftShiftIsLong(ScaledQuotient(an, bn), LeftFactor(FinalShift(an, bn)), an * 0x1_0000_0000_0000, bn, e);
    }
  }

  /** A short result is never too small. */
  lemma ShortNotBelow(an: Magnitude, bn: Magnitude, e: nat)
    requires an > 0 && bn > 0 && FinalShift(an, bn) < 0 && Floor(e, an * 0x1_0000_0000_0000, bn)
    ensures e <= Rounded(ScaledQuotient(an, bn), FinalShift(an, bn))
  {
    var rr, s := ScaledQuotient(an, bn), FinalShift(an, bn);
    ScaledError(an, bn);
    ShrFloor(rr, -s);
    FloorDownUpper(rr, Shr(rr, -s), an * 0x1_0000_0000_0000, RightFactor(s), bn);
    CancelLt(e, Shr(rr, -s) + 1, bn);
  }

  lemma QuotientAtMost(ar: nat, br: nat, rr: nat, down: nat, r: nat, e: nat)
    requires br > 0 && down > 0 && Floor(rr, ar, br) && Floor(r, rr, down)
    ensures r <= e <==> ar < ((e + 1) * down) * br
  {
    if r <= e {
      MulMono(r + 1, e + 1, down);
      MulMono(rr + 1, (e + 1) * down, br);
    } else {
      MulMono(e + 1, r, down);
      MulMono((e + 1) * down, rr, br);
    }
  }

  /** The truncated operands have no larger whole quotient than the operands. */
  predicate TruncationHarmless(an: nat, bn: nat, e: nat) {
    ScaledDividend(an) < ((e + 1) * RightFactor(FinalShift(an, bn))) * ScaledDivisor(bn)
  }

  lemma ZeroExact(bn: Magnitude, e: nat)
    requires bn > 0 && Floor(e, 0, bn)
    ensures Rounded(ScaledQuotient(0, bn), FinalShift(0, bn)) == 0 == e && TruncationHarmless(0, bn, e)
  {
    ZeroDividend(bn);
    ZeroRounded(FinalShift(0, bn));
    ZeroScaled();
    CancelLt(e, 1, bn);
    DivisorBounds(bn);
    MulMono(1, RightFactor(FinalShift(0, bn)), ScaledDivisor(bn));
  }

  lemma ShiftedExactIff(an: Magnitude, bn: Magnitude, e: nat)
    requires bn > 0 && FinalShift(an, bn) < 0 && e <= Rounded(ScaledQuotient(an, bn), FinalShift(an, bn))
    ensures Rounded(ScaledQuotient(an, bn), FinalShift(an, bn)) == e <==> TruncationHarmless(an, bn, e)
  {
    var rr, s := ScaledQuotient(an, bn), FinalShift(an, bn);
    DivisorBounds(bn);
    DividesAsFloor(an, bn);
    ShrFloor(rr, -s);
    QuotientAtMost(ScaledDividend(an), ScaledDivisor(bn), rr, RightFactor(s), Shr(rr, -s), e);
  }

  lemma ShortExactIff(an: Magnitude, bn: Magnitude, e: nat)
    requires bn > 0 && Floor(e, an * 0x1_0000_0000_0000, bn) && e < 0x4000_0000
    ensures Rounded(ScaledQuotient(an, bn), FinalShift(an, bn)) == e <==> TruncationHarmless(an, bn, e)
  {
    if an == 0 {
      ZeroExact(bn, e);
    } else {
      ShortNeedsRightShift(an, bn, e);
      ShortNotBelow(an, bn, e);
      ShiftedExactIff(an, bn, e);
    }
  }

  // ---------- told from the operands ----------

  /** What the divisor loses: its bits below the leading 32. */
  function Dropped(bn: nat): int {
    bn - Kept(bn)
  }

  /** The leading 32 bits of the divisor, in their place. */
  function Kept(bn: nat): nat {
    ScaledDivisor(bn) * Pow2(DivisorDrop(bn))
  }

  /** What exact division leaves over. */
  function Remainder(a: I80F48, b: I80F48): int
    requires b != 0
  {
    Widened(a) - ExactMagnitude(a, b) * Abs(b)
  }

  /**
   The kept part of the divisor goes into the dividend no more often than the divisor: the
   remainder and what the dropped bits free in each of the quotient's steps stay below it.
   */
  predicate DroppedBitsHarmless(a: I80F48, b: I80F48)
    requires b != 0
  {
    LeavesRoom(Remainder(a, b), ExactMagnitude(a, b), Dropped(Abs(b)), Abs(b))
  }

  predicate LeavesRoom(remainder: int, quotient: nat, dropped: int, divisor: nat) {
    remainder + quotient * dropped < divisor - dropped
  }

  lemma FloorBelow(q: nat, y: nat, d: nat, n: nat)
    requires d > 0 && Floor(q, y, d)
    ensures q < n <==> y < n * d
  {
    if q < n {
      MulMono(q + 1, n, d);
    } else {
      MulMono(n, q, d);
    }
  }

  lemma SameSteps(e: nat, down: nat, br: nat, k: nat)
    ensures (((e + 1) * down) * br) * k == ((e + 1) * (br * k)) * down
  {
  }

  lemma ScaledBelow(ar: nat, x: nat, down: nat, k: nat, br: nat, e: nat)
    requires down > 0 && k > 0 && Floor(ar, x * down, k)
    ensures ar < ((e + 1) * down) * br <==> x < (e + 1) * (br * k)
  {
    FloorBelow(ar, x * down, k, ((e + 1) * down) * br);
    SameSteps(e, down, br, k);
    Crosses(x, (e + 1) * (br * k), down);
  }

  lemma DividendFloor(an: Magnitude, bn: Magnitude)
    requires an > 0 && FinalShift(an, bn) < 0
    ensures Floor(ScaledDividend(an), (an * 0x1_0000_0000_0000) * RightFactor(FinalShift(an, bn)), Pow2(DivisorDrop(bn)))
  {
    DividendBounds(an);
    Scalings(BitLen(an), DivisorDrop(bn), FinalShift(an, bn));
    UnscaleDividend(an, ScaledDividend(an), Pow2(BitLen(an)), RightFactor(FinalShift(an, bn)), Pow2(DivisorDrop(bn)));
  }

  /** Truncating the dividend never matters. */
  lemma HarmlessByDivisor(an: Magnitude, bn: Magnitude, e: nat)
    requires an > 0 && bn > 0 && FinalShift(an, bn) < 0
    ensures TruncationHarmless(an, bn, e)
       <==> an * 0x1_0000_0000_0000 < (e + 1) * Kept(bn)
  {
    DividendFloor(an, bn);
    ScaledBelow(ScaledDividend(an), an * 0x1_0000_0000_0000, RightFactor(FinalShift(an, bn)),
                Pow2(DivisorDrop(bn)), ScaledDivisor(bn), e);
  }

  lemma StepsAsRemainder(x: nat, bn: nat, e: nat, kept: nat)
    ensures x < (e + 1) * kept <==> LeavesRoom(x - e * bn, e, bn - kept, bn)
  {
  }

  lemma HarmlessIff(a: I80F48, b: I80F48)
    requires Regular(a, b) && a != 0 && FinalShift(Abs(a), Abs(b)) < 0
    ensures TruncationHarmless(Abs(a), Abs(b), ExactMagnitude(a, b)) <==> DroppedBitsHarmless(a, b)
  {
    var kept := Kept(Abs(b));
    HarmlessByDivisor(Abs(a), Abs(b), ExactMagnitude(a, b));
    StepsAsRemainder(Widened(a), Abs(b), ExactMagnitude(a, b), kept);
  }

  lemma ZeroHarmless(b: I80F48)
    requires Regular(0, b)
    ensures TruncationHarmless(0, Abs(b), ExactMagnitude(0, b)) && DroppedBitsHarmless(0, b)
  {
    ExactFloor(0, b);
    ZeroExact(Abs(b), ExactMagnitude(0, b));
    KeptPositive(Abs(b));
    StepsAsRemainder(0, Abs(b), 0, Kept(Abs(b)));
  }

  lemma KeptPositive(bn: Magnitude)
    requires bn > 0
    ensures Kept(bn) > 0
  {
    DivisorBounds(bn);
    MulMono(1, Pow2(DivisorDrop(bn)), ScaledDivisor(bn));
  }

  lemma ShortFirstBitsIff(a: I80F48, b: I80F48)
    requires Regular(a, b) && CheckedDiv30(a, b).Quotient? && BitLen(ExactMagnitude(a, b)) <= 30
    ensures SameFirstBits(CheckedDiv30(a, b).bits, Exact(a, b))
       <==> TruncationHarmless(Abs(a), Abs(b), ExactMagnitude(a, b))
  {
    var e := ExactMagnitude(a, b);
    Outcome(a, b);
    ExactFloor(a, b);
    ShortIsSmall(e);
    ShortExactIff(Abs(a), Abs(b), e);
    var r := Rounded(ScaledQuotient(Abs(a), Abs(b)), FinalShift(Abs(a), Abs(b)));
    SignedMagnitude(a, b, r, e);
  }

  lemma ShortHarmlessIff(a: I80F48, b: I80F48)
    requires Regular(a, b) && BitLen(ExactMagnitude(a, b)) <= 30
    ensures TruncationHarmless(Abs(a), Abs(b), ExactMagnitude(a, b)) <==> DroppedBitsHarmless(a, b)
  {
    if a == 0 {
      ZeroHarmless(b);
    } else {
      ExactFloor(a, b);
      ShortIsSmall(ExactMagnitude(a, b));
      ShortNeedsRightShift(Abs(a), Abs(b), ExactMagnitude(a, b));
      HarmlessIff(a, b);
    }
  }

  /**
   The first 30 bits are right if and only if the exact quotient has at least 31 bits or the
   bits dropped from the divisor do not make up for another step. What is dropped from the
   dividend never matters.
   */
  lemma FirstBitsIff(a: I80F48, b: I80F48)
    requires Regular(a, b) && CheckedDiv30(a, b).Quotient?
    ensures SameFirstBits(CheckedDiv30(a, b).bits, Exact(a, b))
       <==> BitLen(ExactMagnitude(a, b)) >= 31 || DroppedBitsHarmless(a, b)
  {
    if BitLen(ExactMagnitude(a, b)) >= 31 {
      FirstBitsFrom31(a, b);
    } else {
      ShortFirstBitsIff(a, b);
      ShortHarmlessIff(a, b);
    }
  }

  /** A divisor that loses no bits gives the right first bits for every dividend. */
  lemma FirstBitsOfShortDivisor(a: I80F48, b: I80F48)
    requires Regular(a, b) && CheckedDiv30(a, b).Quotient? && DivisorFits(Abs(b))
    ensures SameFirstBits(CheckedDiv30(a, b).bits, Exact(a, b))
  {
    ExactFloor(a, b);
    FirstBitsIff(a, b);
    NothingDropped(Remainder(a, b), ExactMagnitude(a, b), Abs(b));
  }

  lemma NothingDropped(remainder: int, quotient: nat, divisor: nat)
    requires remainder < divisor
    ensures LeavesRoom(remainder, quotient, 0, divisor)
  {
  }

  /** Short numbers only share their first bits if they are equal. */
  lemma SignedMagnitude(a: I80F48, b: I80F48, r: nat, e: nat)
    requires BitLen(e) <= 30
    ensures SameFirstBits(Signed(a, b, r), Signed(a, b, e)) <==> r == e
  {
    var err := Abs(Signed(a, b, r) - Signed(a, b, e));
    assert BitLen(err) == 0 <==> err == 0;
    assert Abs(Signed(a, b, e)) == e;
  }
}
