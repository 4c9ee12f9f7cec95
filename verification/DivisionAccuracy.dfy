/**
 What the low-precision division guarantees: accuracy, sign, the overflow verdict
 and the operands on which it is exact.
 */
module DivisionAccuracy {
  import opened Bits
  import opened LowPrecisionDivision

  /** Neither operand is the minimum bit pattern, the divisor is not zero. */
  predicate Regular(a: I80F48, b: I80F48) {
    b != 0 && a != I128_MIN && b != I128_MIN
  }

  /** The dividend carries 48 more fraction bits than the result needs. */
  function Widened(a: I80F48): nat {
    Abs(a) * 0x1_0000_0000_0000
  }

  /** The exact quotient's magnitude, rounded down to a bit pattern. */
  function ExactMagnitude(a: I80F48, b: I80F48): nat
    requires b != 0
  {
    Div(Widened(a), Abs(b))
  }

  function Signed(a: I80F48, b: I80F48, r: nat): int {
    if (a < 0) != (b < 0) then 0 - r else r
  }

  function Rounded(rr: nat, s: int): nat {
    if s >= 0 then rr * LeftFactor(s) else Shr(rr, -s)
  }

  // ---------- the outcome in terms of the scaled quotient ----------

  /** The final shift stays below the word size in both directions. */
  lemma ShiftRange(an: Magnitude, bn: Magnitude)
    ensures -111 <= FinalShift(an, bn) <= 111
  {
    MagnitudeLength(an);
    MagnitudeLength(bn);
  }

  /** The leading-zeros test asks whether the shifted quotient reaches the sign bit. */
  lemma OverflowTest(rr: nat, s: int)
    requires rr < 0x1_0000_0000_0000_0000 && s <= 111
    ensures 63 + (64 - BitLen(rr)) < s
       <==> rr * LeftFactor(s) >= 0x8000_0000_0000_0000_0000_0000_0000_0000
  {
    Pow2Of127();
    if s >= 0 {
      BitLenBelow(rr, 127 - s);
      Pow2Add(127 - s, s);
      Crosses(rr, Pow2(127 - s), Pow2(s));
    } else {
      assert BitLen(rr) <= 64 by {
        Pow2Of64();
        BitLenBelow(rr, 64);
      }
    }
  }

  lemma Crosses(x: nat, y: nat, c: nat)
    requires c > 0
    ensures x < y <==> x * c < y * c
  {
  }

  lemma Outcome(a: I80F48, b: I80F48)
    requires Regular(a, b)
    ensures -111 <= FinalShift(Abs(a), Abs(b)) <= 111
    ensures var rr, s := ScaledQuotient(Abs(a), Abs(b)), FinalShift(Abs(a), Abs(b));
            CheckedDiv30(a, b) ==
              if rr * LeftFactor(s) >= 0x8000_0000_0000_0000_0000_0000_0000_0000 then NoResult
              else Quotient(Signed(a, b, Rounded(rr, s)))
  {
    var an: Magnitude, bn: Magnitude := Abs(a), Abs(b);
    var rr, s := ScaledQuotient(an, bn), FinalShift(an, bn);
    DivisorBounds(bn);
    assert rr < 0x1_0000_0000_0000_0000 by {
      if an == 0 {
        ZeroDividend(bn);
      } else {
        ScaledError(an, bn);
      }
    }
    ShiftRange(an, bn);
    OverflowTest(rr, s);
    if s >= 0 && rr * LeftFactor(s) < 0x8000_0000_0000_0000_0000_0000_0000_0000 {
      Shl128Exact(rr, s, LeftFactor(s));
    }
  }

  lemma ZeroDividend(bn: nat)
    ensures ScaledQuotient(0, bn) == 0
  {
    ZeroScaled();
    var br := ScaledDivisor(bn);
    if br != 0 {
      DivZero(br);
    }
  }

  lemma ZeroScaled()
    ensures ScaledDividend(0) == 0
  {
  }

  // ---------- accuracy ----------

  /** At most `2^-31` too large; too small by at most `2^-31` or by less than one unit. */
  ghost predicate Close(r: nat, x: nat, bn: nat) {
    && (r * bn) * 0x8000_0000 <= x * 0x8000_0001
    && (x * 0x8000_0000 < (r * bn) * 0x8000_0001 || x < (r + 1) * bn)
  }

  lemma LeftShiftClose(rr: nat, up: nat, bn: nat, x: nat)
    requires 0x8000_0000 <= rr
    requires ((rr * up) * bn) * 0x8000_0000 <= x * 0x8000_0001 && x < ((rr + 1) * up) * bn
    ensures Close(rr * up, x, bn)
  {
  }

  lemma RightShiftClose(rr: nat, down: nat, bn: nat, x: nat, r: nat)
    requires down > 0 && Floor(r, rr, down)
    requires (rr * bn) * 0x8000_0000 <= (x * down) * 0x8000_0001 && x * down < (rr + 1) * bn
    ensures Close(r, x, bn)
  {
    MulMono(r * down, rr, bn);
    RightShiftUpper(r, down, bn, x);
    MulMono(rr + 1, (r + 1) * down, bn);
    RightShiftLower(r + 1, down, bn, x);
  }

  lemma RightShiftUpper(r: nat, down: nat, bn: nat, x: nat)
    requires down > 0 && ((r * down) * bn) * 0x8000_0000 <= (x * down) * 0x8000_0001
    ensures (r * bn) * 0x8000_0000 <= x * 0x8000_0001
  {
  }

  lemma RightShiftLower(r: nat, down: nat, bn: nat, x: nat)
    requires down > 0 && x * down < (r * down) * bn
    ensures x < r * bn
  {
  }

  lemma ShiftClose(rr: nat, s: int, bn: nat, x: nat)
    requires 0x8000_0000 <= rr
    requires ((rr * LeftFactor(s)) * bn) * 0x8000_0000 <= (x * RightFactor(s)) * 0x8000_0001
    requires x * RightFactor(s) < ((rr + 1) * LeftFactor(s)) * bn
    ensures Close(Rounded(rr, s), x, bn)
  {
    if s >= 0 {
      LeftShiftClose(rr, LeftFactor(s), bn, x);
    } else {
      ShrFloor(rr, -s);
      RightShiftClose(rr, RightFactor(s), bn, x, Shr(rr, -s));
    }
  }

  lemma ResultClose(an: Magnitude, bn: Magnitude)
    requires bn > 0
    ensures Close(Rounded(ScaledQuotient(an, bn), FinalShift(an, bn)), an * 0x1_0000_0000_0000, bn)
  {
    var rr, s := ScaledQuotient(an, bn), FinalShift(an, bn);
    if an == 0 {
      ZeroDividend(bn);
      ZeroRounded(s);
    } else {
      ScaledError(an, bn);
      ShiftClose(rr, s, bn, an * 0x1_0000_0000_0000);
    }
  }

  lemma ZeroRounded(s: int)
    ensures Rounded(0, s) == 0
  {
  }

  /**
   Accuracy, for every dividend and every nonzero divisor. In units of the result's
   last place, the error is at most `q * 2^-31 + 1` where `q` is the exact quotient,
   and the result never has the wrong sign.
   */
  lemma Accuracy(a: I80F48, b: I80F48)
    requires Regular(a, b) && CheckedDiv30(a, b).Quotient?
    ensures var r, x, bn := CheckedDiv30(a, b).bits, Widened(a), Abs(b);
            && I128_MIN < r < -I128_MIN
            && (r != 0 ==> a != 0 && (r < 0 <==> (a < 0) != (b < 0)))
            && 0x8000_0000 * Abs(Abs(r) * bn - x) <= x + 0x8000_0000 * bn
  {
    Outcome(a, b);
    ResultRange(Abs(a), Abs(b));
    ResultClose(Abs(a), Abs(b));
    CloseError(Rounded(ScaledQuotient(Abs(a), Abs(b)), FinalShift(Abs(a), Abs(b))), Widened(a), Abs(b));
  }

  lemma CloseError(r: nat, x: nat, bn: nat)
    requires Close(r, x, bn)
    ensures 0x8000_0000 * Abs(r * bn - x) <= x + 0x8000_0000 * bn
  {
  }

  lemma ResultRange(an: Magnitude, bn: Magnitude)
    requires bn > 0
    ensures var rr, s := ScaledQuotient(an, bn), FinalShift(an, bn);
            && (an == 0 ==> Rounded(rr, s) == 0)
            && (rr * LeftFactor(s) < 0x8000_0000_0000_0000_0000_0000_0000_0000 ==>
                  Rounded(rr, s) < 0x8000_0000_0000_0000_0000_0000_0000_0000)
  {
    var rr, s := ScaledQuotient(an, bn), FinalShift(an, bn);
    if an == 0 {
      ZeroDividend(bn);
      ZeroRounded(s);
    }
    if rr * LeftFactor(s) < 0x8000_0000_0000_0000_0000_0000_0000_0000 {
      RoundedFits(rr, s);
    }
  }

  lemma RoundedFits(rr: nat, s: int)
    requires rr * LeftFactor(s) < 0x8000_0000_0000_0000_0000_0000_0000_0000
    ensures Rounded(rr, s) < 0x8000_0000_0000_0000_0000_0000_0000_0000
  {
  }

  /**
   The promise of the routine's own test, for every operand pair: the result agrees
   with exact division in the first 30 bits, or differs by at most the last bit.
   */
  lemma ThirtyBitsOrLastBit(a: I80F48, b: I80F48)
    requires Regular(a, b) && CheckedDiv30(a, b).Quotient?
    ensures var actual, expected := CheckedDiv30(a, b).bits, Signed(a, b, ExactMagnitude(a, b));
            var err := Abs(actual - expected);
            || err <= 1
            || (BitLen(Abs(expected)) - BitLen(err) >= 30 && (actual < 0 <==> expected < 0))
  {
    Outcome(a, b);
    var r := Rounded(ScaledQuotient(Abs(a), Abs(b)), FinalShift(Abs(a), Abs(b)));
    ResultClose(Abs(a), Abs(b));
    ExactFloor(a, b);
    MagnitudePrecision(r, Widened(a), Abs(b), ExactMagnitude(a, b));
  }

  lemma ExactFloor(a: I80F48, b: I80F48)
    requires b != 0
    ensures Floor(ExactMagnitude(a, b), Widened(a), Abs(b))
  {
  }

  lemma MagnitudePrecision(r: nat, x: nat, bn: nat, e: nat)
    requires bn > 0 && Close(r, x, bn) && Floor(e, x, bn)
    ensures || Abs(r - e) <= 1
            || (BitLen(e) - BitLen(Abs(r - e)) >= 30 && r > 0 && e > 0)
  {
    BitLenBounds(e);
    if r > e + 1 {
      AboveFloor(r, x, bn, e, Pow2(BitLen(e)));
      ManyBits(r - e, e);
    } else if r + 1 < e {
      BelowFloor(r, x, bn, e);
      ManyBits(e - r, e);
    }
  }

  lemma AboveFloor(r: nat, x: nat, bn: nat, e: nat, p: nat)
    requires bn > 0 && (r * bn) * 0x8000_0000 <= x * 0x8000_0001 && x < (e + 1) * bn && e < p
    ensures r * 0x8000_0000 < (e + 1) * 0x8000_0000 + p
  {
    MulMono(e + 1, p, bn);
    CancelSum(r, e + 1, p, bn, x);
  }

  lemma CancelSum(r: nat, e1: nat, p: nat, bn: nat, x: nat)
    requires bn > 0 && (r * bn) * 0x8000_0000 <= x * 0x8000_0001 && x < e1 * bn && x < p * bn
    ensures r * 0x8000_0000 < e1 * 0x8000_0000 + p
  {
  }

  lemma BelowFloor(r: nat, x: nat, bn: nat, e: nat)
    requires bn > 0 && Close(r, x, bn) && e * bn <= x && r + 1 < e
    ensures e * 0x8000_0000 < r * 0x8000_0001
  {
    MulMono(r + 1, e, bn);
    if e * 0x8000_0000 >= r * 0x8000_0001 {
      MulMono(r * 0x8000_0001, e * 0x8000_0000, bn);
    }
  }

  lemma ManyBits(err: nat, e: nat)
    requires err * 0x4000_0000 < Pow2(BitLen(e)) && err > 0
    ensures BitLen(e) - BitLen(err) >= 30
  {
    var n := BitLen(e);
    assert Pow2(30) == 0x4000_0000 by {
      Pow2Of31();
      Pow2Sum(30, 1, Pow2(30), 2);
    }
    if n < 30 {
      Pow2Mono(n, 30);
    } else {
      Pow2Sum(n - 30, 30, Pow2(n - 30), 0x4000_0000);
      BitLenBelow(err, n - 30);
    }
  }
}
