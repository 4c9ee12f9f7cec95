/**
 When the low-precision division reports overflow, and when it is exact.
 */
module DivisionVerdict {
  import opened Bits
  import opened LowPrecisionDivision
  import opened DivisionAccuracy

  /** The exact quotient needs the sign bit or more. */
  predicate ExactOverflow(a: I80F48, b: I80F48) {
    Widened(a) >= 0x8000_0000_0000_0000_0000_0000_0000_0000 * Abs(b)
  }

  /** The routine fails loudly only on the minimum bit pattern. */
  lemma PanicsOnlyOnMinimum(a: I80F48, b: I80F48)
    ensures CheckedDiv30(a, b).Panic? <==> b != 0 && (a == I128_MIN || b == I128_MIN)
    ensures b == 0 ==> CheckedDiv30(a, b) == NoResult
  {
    if Regular(a, b) {
      Outcome(a, b);
    }
  }

  /**
   The verdict. A value is only returned when the exact quotient fits; "no result" is
   only returned when the exact quotient is within `2^-31` of not fitting.
   */
  lemma VerdictBounds(a: I80F48, b: I80F48)
    requires Regular(a, b)
    ensures CheckedDiv30(a, b).Quotient? ==> !ExactOverflow(a, b)
    ensures CheckedDiv30(a, b).NoResult? ==>
              0x8000_0000_0000_0000_0000_0000_0000_0000 * Abs(b) * 0x8000_0000 <= Widened(a) * 0x8000_0001
  {
    Outcome(a, b);
    var an: Magnitude, bn: Magnitude := Abs(a), Abs(b);
    var rr, s := ScaledQuotient(an, bn), FinalShift(an, bn);
    if an == 0 {
      ZeroDividend(bn);
      assert rr * LeftFactor(s) == 0;
    } else {
      ScaledError(an, bn);
      ShiftRange(an, bn);
      ScaledVerdict(rr, s, bn, Widened(a));
    }
  }

  lemma ScaledVerdict(rr: nat, s: int, bn: nat, x: nat)
    requires rr < 0x1_0000_0000_0000_0000 && s <= 111 && bn > 0
    requires ((rr * LeftFactor(s)) * bn) * 0x8000_0000 <= (x * RightFactor(s)) * 0x8000_0001
    requires x * RightFactor(s) < ((rr + 1) * LeftFactor(s)) * bn
    ensures if rr * LeftFactor(s) < 0x8000_0000_0000_0000_0000_0000_0000_0000
            then x < 0x8000_0000_0000_0000_0000_0000_0000_0000 * bn
            else 0x8000_0000_0000_0000_0000_0000_0000_0000 * bn * 0x8000_0000 <= x * 0x8000_0001
  {
    if s >= 0 {
      if rr * LeftFactor(s) < 0x8000_0000_0000_0000_0000_0000_0000_0000 {
        NextFits(rr, s);
        MulMono((rr + 1) * LeftFactor(s), 0x8000_0000_0000_0000_0000_0000_0000_0000, bn);
      } else {
        MulMono(0x8000_0000_0000_0000_0000_0000_0000_0000, rr * LeftFactor(s), bn);
      }
    } else {
      MulMono(1, RightFactor(s), x);
      MulMono(rr + 1, 0x1_0000_0000_0000_0000, bn);
    }
  }

  /** Left shifts step over the limit exactly, so the next scaled quotient still fits. */
  lemma NextFits(rr: nat, s: int)
    requires 0 <= s <= 111 && rr * LeftFactor(s) < 0x8000_0000_0000_0000_0000_0000_0000_0000
    ensures (rr + 1) * LeftFactor(s) <= 0x8000_0000_0000_0000_0000_0000_0000_0000
  {
    var top := Pow2(127 - s);
    assert top * LeftFactor(s) == 0x8000_0000_0000_0000_0000_0000_0000_0000 by {
      Pow2Of127();
      Pow2Add(127 - s, s);
    }
    CancelLt(rr, top, LeftFactor(s));
    MulMono(rr + 1, top, LeftFactor(s));
  }

  /** The truncated operands reach the sign bit; what the leading-zeros guard tests. */
  predicate TruncatedOverflow(a: I80F48, b: I80F48) {
    var s := FinalShift(Abs(a), Abs(b));
    0 <= s <= 127 && ScaledDivisor(Abs(b)) * Pow2(127 - s) <= ScaledDividend(Abs(a))
  }

  lemma GuardTestsTruncated(a: I80F48, b: I80F48)
    requires Regular(a, b)
    ensures CheckedDiv30(a, b).NoResult? <==> TruncatedOverflow(a, b)
  {
    Outcome(a, b);
    DivisorBounds(Abs(b));
    DividesAsFloor(Abs(a), Abs(b));
    var rr, s := ScaledQuotient(Abs(a), Abs(b)), FinalShift(Abs(a), Abs(b));
    if s >= 0 {
      Reaches(ScaledDividend(Abs(a)), ScaledDivisor(Abs(b)), rr, s);
    } else {
      QuotientSmall(Abs(a), Abs(b));
    }
  }

  lemma QuotientSmall(an: Magnitude, bn: Magnitude)
    requires bn > 0
    ensures ScaledQuotient(an, bn) < 0x1_0000_0000_0000_0000
  {
  }

  lemma TopFactor(s: int)
    requires 0 <= s <= 111
    ensures Pow2(127 - s) * LeftFactor(s) == 0x8000_0000_0000_0000_0000_0000_0000_0000
  {
    Pow2Of127();
    Pow2Add(127 - s, s);
  }

  lemma FloorReaches(rr: nat, ar: nat, br: nat, top: nat)
    requires br > 0 && Floor(rr, ar, br)
    ensures rr >= top <==> br * top <= ar
  {
  }

  lemma Reaches(ar: nat, br: nat, rr: nat, s: int)
    requires 0 <= s <= 111 && br > 0 && Floor(rr, ar, br)
    ensures rr * LeftFactor(s) >= 0x8000_0000_0000_0000_0000_0000_0000_0000 <==> br * Pow2(127 - s) <= ar
  {
    TopFactor(s);
    Crosses(rr, Pow2(127 - s), LeftFactor(s));
    FloorReaches(rr, ar, br, Pow2(127 - s));
  }

  /** 2^126 / (2^47 + 2^16 - 1): the exact quotient fits, the routine reports overflow. */
  lemma FalseOverflow()
    ensures var a, b := 0x4000_0000_0000_0000_0000_0000_0000_0000, 0x8000_0000_FFFF;
            CheckedDiv30(a, b) == NoResult && !ExactOverflow(a, b)
  {
    var a, b := 0x4000_0000_0000_0000_0000_0000_0000_0000, 0x8000_0000_FFFF;
    ScaledTop();
    ScaledHalf();
    assert TruncatedOverflow(a, b) by {
      Pow2Of32();
    }
    GuardTestsTruncated(a, b);
  }

  lemma ScaledTop()
    ensures BitLen(0x4000_0000_0000_0000_0000_0000_0000_0000) == 127
    ensures ScaledDividend(0x4000_0000_0000_0000_0000_0000_0000_0000) == 0x8000_0000_0000_0000
  {
    var a := 0x4000_0000_0000_0000_0000_0000_0000_0000;
    Pow2Of127();
    Pow2Sum(126, 1, Pow2(126), 2);
    BitLenUnique(a, 127);
    LongDividend(a);
  }

  lemma ScaledHalf()
    ensures DivisorDrop(0x8000_0000_FFFF) == 16
    ensures ScaledDivisor(0x8000_0000_FFFF) == 0x8000_0000
  {
    var b := 0x8000_0000_FFFF;
    Pow2Of48();
    Pow2Sum(47, 1, Pow2(47), 2);
    BitLenUnique(b, 48);
    LongDivisor(b);
    Pow2Of16();
  }

  // ---------- exact results ----------

  /** Nothing is lost from the divisor: its top 32 bits are all of it. */
  predicate DivisorFits(bn: nat) {
    ScaledDivisor(bn) * Pow2(DivisorDrop(bn)) == bn
  }

  /** With nothing lost from the divisor the scaled quotient is a true floor. */
  lemma ExactScaled(an: Magnitude, bn: Magnitude)
    requires an > 0 && bn > 0 && DivisorFits(bn)
    ensures var rr, s := ScaledQuotient(an, bn), FinalShift(an, bn);
            Floor(rr, (an * 0x1_0000_0000_0000) * RightFactor(s), LeftFactor(s) * bn)
  {
    var ar, br, rr := ScaledDividend(an), ScaledDivisor(bn), ScaledQuotient(an, bn);
    var s, l, k := FinalShift(an, bn), Pow2(BitLen(an)), Pow2(DivisorDrop(bn));
    DividendBounds(an);
    DivisorBounds(bn);
    DividesAsFloor(an, bn);
    Scalings(BitLen(an), DivisorDrop(bn), s);
    CombineExact(an, ar, br, rr, l, k, LeftFactor(s), RightFactor(s));
  }

  lemma CombineExact(an: nat, ar: nat, br: nat, rr: nat, l: nat, k: nat, up: nat, down: nat)
    requires up > 0 && down > 0 && k > 0 && (up * k) * 0x1_0000 == l * down
    requires Floor(ar, an * 0x1_0000_0000_0000_0000, l) && Floor(rr, ar, br)
    ensures Floor(rr, (an * 0x1_0000_0000_0000) * down, up * (br * k))
  {
    UnscaleDividend(an, ar, l, down, up * k);
    FloorOfFloor(rr, ar, br, (an * 0x1_0000_0000_0000) * down, up, k);
  }

  lemma FloorOfFloor(rr: nat, ar: nat, br: nat, x: nat, up: nat, k: nat)
    requires up > 0 && k > 0 && Floor(ar, x, up * k) && Floor(rr, ar, br)
    ensures Floor(rr, x, up * (br * k))
  {
    var e := up * k;
    MulMono(rr * br, ar, e);
    MulMono(ar + 1, (rr + 1) * br, e);
    assert rr * (up * (br * k)) == (rr * br) * e;
    assert (rr + 1) * (up * (br * k)) == ((rr + 1) * br) * e;
  }

  /** The bits below a left shift by `s` cleared. */
  function Cleared(e: nat, s: int): nat {
    Div(e, LeftFactor(s)) * LeftFactor(s)
  }

  /**
   If the divisor has at most 32 significant bits the verdict is that of exact
   division, and the magnitude is the exact one with the bits below the final left
   shift cleared; without a left shift it is the exact one.
   */
  lemma ExactForShortDivisor(a: I80F48, b: I80F48)
    requires Regular(a, b) && DivisorFits(Abs(b))
    ensures CheckedDiv30(a, b) ==
              if ExactOverflow(a, b) then NoResult
              else Quotient(Signed(a, b, Cleared(ExactMagnitude(a, b), FinalShift(Abs(a), Abs(b)))))
  {
    Outcome(a, b);
    VerdictBounds(a, b);
    ExactFloor(a, b);
    ExactRounded(Abs(a), Abs(b), ExactMagnitude(a, b));
  }

  lemma ExactRounded(an: Magnitude, bn: Magnitude, e: nat)
    requires bn > 0 && DivisorFits(bn) && Floor(e, an * 0x1_0000_0000_0000, bn)
    ensures var rr, s := ScaledQuotient(an, bn), FinalShift(an, bn);
            && Rounded(rr, s) == Cleared(e, s)
            && (rr * LeftFactor(s) >= 0x8000_0000_0000_0000_0000_0000_0000_0000 ==>
                  an * 0x1_0000_0000_0000 >= 0x8000_0000_0000_0000_0000_0000_0000_0000 * bn)
  {
    var rr, s := ScaledQuotient(an, bn), FinalShift(an, bn);
    QuotientSmall(an, bn);
    if an == 0 {
      ZeroDividend(bn);
      ZeroRounded(s);
      CancelLt(e, 1, bn);
      DivZero(LeftFactor(s));
    } else {
      ExactScaled(an, bn);
      ExactShift(rr, s, bn, an * 0x1_0000_0000_0000, e);
    }
  }

  lemma ExactShift(rr: nat, s: int, bn: nat, x: nat, e: nat)
    requires bn > 0 && Floor(rr, x * RightFactor(s), LeftFactor(s) * bn) && Floor(e, x, bn)
    ensures Rounded(rr, s) == Cleared(e, s)
    ensures rr * LeftFactor(s) >= 0x8000_0000_0000_0000_0000_0000_0000_0000 && s >= 0 ==>
              x >= 0x8000_0000_0000_0000_0000_0000_0000_0000 * bn
  {
    if s >= 0 {
      var up := LeftFactor(s);
      FloorSplit(rr, x, up, bn, e);
      DivUnique(e, up, rr);
      MulAssoc(rr, up, bn);
      if rr * up >= 0x8000_0000_0000_0000_0000_0000_0000_0000 {
        MulMono(0x8000_0000_0000_0000_0000_0000_0000_0000, rr * up, bn);
      }
    } else {
      var r := Shr(rr, -s);
      ShrFloor(rr, -s);
      FloorDown(rr, r, x, RightFactor(s), bn, e);
    }
  }

  lemma FloorSplit(rr: nat, x: nat, up: nat, bn: nat, e: nat)
    requires up > 0 && bn > 0 && Floor(rr, x, up * bn) && Floor(e, x, bn)
    ensures Floor(rr, e, up)
  {
    MulAssoc(rr, up, bn);
    MulAssoc(rr + 1, up, bn);
    CancelLt(rr * up, e + 1, bn);
    CancelLt(e, (rr + 1) * up, bn);
  }

  lemma FloorDown(rr: nat, r: nat, x: nat, down: nat, bn: nat, e: nat)
    requires down > 0 && bn > 0 && Floor(rr, x * down, 1 * bn) && Floor(r, rr, down) && Floor(e, x, bn)
    ensures r == e
  {
    FloorDownLower(rr, r, x, down, bn);
    FloorDownUpper(rr, r, x, down, bn);
    CancelLt(r, e + 1, bn);
    CancelLt(e, r + 1, bn);
  }

  lemma FloorDownLower(rr: nat, r: nat, x: nat, down: nat, bn: nat)
    requires down > 0 && rr * bn <= x * down && r * down <= rr
    ensures r * bn <= x
  {
  }

  lemma FloorDownUpper(rr: nat, r: nat, x: nat, down: nat, bn: nat)
    requires down > 0 && x * down < (rr + 1) * bn && rr < (r + 1) * down
    ensures x < (r + 1) * bn
  {
    MulMono(rr + 1, (r + 1) * down, bn);
    SwapFactors(r + 1, down, bn);
    CancelLt(x, (r + 1) * bn, down);
  }

  lemma SwapFactors(a: nat, b: nat, c: nat)
    ensures (a * b) * c == (a * c) * b
  {
  }

  /** Powers of two divide exactly: the table of the routine's sanity test. */
  lemma PowersOfTwo(i: nat, j: nat)
    requires i < 127 && j < 127
    ensures I128_MIN < Pow2(i) < -I128_MIN && I128_MIN < Pow2(j) < -I128_MIN
    ensures CheckedDiv30(Pow2(i), Pow2(j)) ==
              if i + 48 - j >= 127 then NoResult
              else if i + 48 - j >= 0 then Quotient(Pow2(i + 48 - j))
              else Quotient(0)
  {
    PowerFits(i);
    PowerFits(j);
    PowerDivisor(j);
    var a, b: I80F48 := Pow2(i), Pow2(j);
    ExactForShortDivisor(a, b);
    WidenedPower(i);
    if i + 48 >= j {
      PowerQuotient(i + 48 - j, j);
      KeptByShift(i + 48 - j, FinalShift(a, b));
    } else {
      Pow2Mono(i + 48, j);
      SmallPower(Widened(a), b, LeftFactor(FinalShift(a, b)));
    }
  }

  lemma PowerFits(i: nat)
    requires i < 127
    ensures Pow2(i) < -I128_MIN && BitLen(Pow2(i)) == i + 1
  {
    Pow2Of127();
    Pow2Mono(i, 127);
    BitLenUnique(Pow2(i), i + 1);
  }

  lemma PowerDivisor(j: nat)
    requires j < 127
    ensures DivisorFits(Pow2(j))
    ensures DivisorDrop(Pow2(j)) == if j <= 31 then 0 else j - 31
  {
    PowerFits(j);
    DivisorBounds(Pow2(j));
    var k := DivisorDrop(Pow2(j));
    Pow2Add(j - k, k);
    SameFloor(Pow2(j), Pow2(k), Pow2(j - k), ScaledDivisor(Pow2(j)));
  }

  lemma SameFloor(x: nat, d: nat, p: nat, q: nat)
    requires d > 0 && p * d == x && Floor(q, x, d)
    ensures q == p
  {
  }

  lemma PowerQuotient(n: nat, j: nat)
    ensures Div(Pow2(n + j), Pow2(j)) == Pow2(n)
    ensures Pow2(n + j) >= 0x8000_0000_0000_0000_0000_0000_0000_0000 * Pow2(j) <==> n >= 127
  {
    Pow2Add(n, j);
    DivUnique(Pow2(n + j), Pow2(j), Pow2(n));
    LargePower(n, Pow2(j));
  }

  lemma SmallPower(x: nat, b: nat, up: nat)
    requires x < b && up > 0
    ensures Div(Div(x, b), up) * up == 0
  {
  }

  lemma WidenedPower(i: nat)
    ensures Pow2(i) * 0x1_0000_0000_0000 == Pow2(i + 48)
  {
    Pow2Of48();
    Pow2Add(i, 48);
  }

  lemma LargePower(n: nat, b: nat)
    requires b > 0
    ensures Pow2(n) * b >= 0x8000_0000_0000_0000_0000_0000_0000_0000 * b <==> n >= 127
  {
    Pow2Of127();
    if n >= 127 {
      Pow2Mono(127, n);
      MulMono(0x8000_0000_0000_0000_0000_0000_0000_0000, Pow2(n), b);
    } else {
      Pow2Mono(n, 127);
      StrictMono(Pow2(n), 0x8000_0000_0000_0000_0000_0000_0000_0000, b);
    }
  }

  lemma KeptByShift(n: nat, s: int)
    requires s <= n
    ensures Cleared(Pow2(n), s) == Pow2(n)
  {
    var up := LeftFactor(s);
    var q := if s >= 0 then Pow2(n - s) else Pow2(n);
    assert Pow2(n) == q * up by {
      if s >= 0 {
        Pow2Add(n - s, s);
      }
    }
    DivExact(Pow2(n), up, q);
  }

  lemma DivExact(x: nat, d: nat, q: nat)
    requires d > 0 && x == q * d
    ensures Div(x, d) == q
  {
    DivUnique(x, d, q);
  }
}
