/**
 Low-precision division of I80F48 numbers.

 An I80F48 is its 128-bit two's complement bit pattern, an integer that stands for
 `bits / 2^48`. The routine keeps the top 64 bits of the dividend and the top 32 bits
 of the divisor, divides those as u64 and shifts the quotient back.
 */
module LowPrecisionDivision {
  import opened Bits

  const I128_MIN: int := -0x8000_0000_0000_0000_0000_0000_0000_0000

  type I80F48 = x: int | I128_MIN <= x < -I128_MIN

  /** `Panic` is the negation of the minimum bit pattern, trapped by overflow checks. */
  datatype DivResult = Panic | NoResult | Quotient(bits: int)

  function Abs(x: int): nat {
    if x < 0 then -x else x
  }

  /** Dividend with its top bit moved to bit 63. */
  function ScaledDividend(n: nat): nat {
    var zeros := 128 - BitLen(n);
    if zeros >= 64 then AsU64(Shl128(n, zeros - 64))
    else if zeros >= 0 then AsU64(Shr(n, 64 - zeros))
    else 0
  }

  /** Places dropped from the divisor so that it fits 32 bits. */
  function DivisorDrop(n: nat): nat {
    var zeros := 128 - BitLen(n);
    if zeros >= 96 then 0 else 96 - zeros
  }

  function ScaledDivisor(n: nat): nat {
    AsU64(Shr(n, DivisorDrop(n)))
  }

  /** Final shift, positive to the left. */
  function FinalShift(an: nat, bn: nat): int {
    48 - DivisorDrop(bn) - (64 - BitLen(an))
  }

  function CheckedDiv30(a: I80F48, b: I80F48): DivResult {
    if b == 0 then NoResult
    else if a == I128_MIN || b == I128_MIN then Panic
    else
      var rNeg := (a < 0) != (b < 0);
      var an, bn := Abs(a), Abs(b);
      var br := ScaledDivisor(bn);
      if br == 0 then Panic
      else
        var rr := Div(ScaledDividend(an), br);
        var s := FinalShift(an, bn);
        var rrZeros := 64 - BitLen(rr);
        if 63 + rrZeros < s then NoResult
        else
          var r := if s >= 0 then Shl128(rr, s) else Shr(rr, -s);
          Quotient(if rNeg then -r else r)
  }

  // ---------- the scaled operands ----------

  /** Magnitudes other than that of the minimum bit pattern. */
  type Magnitude = n: nat | n < 0x8000_0000_0000_0000_0000_0000_0000_0000

  lemma MagnitudeLength(n: Magnitude)
    ensures BitLen(n) <= 127
  {
    Pow2Of127();
    BitLenBelow(n, 127);
  }

  /** `q` is `x / d` rounded down. */
  ghost predicate Floor(q: nat, x: nat, d: nat) {
    q * d <= x < (q + 1) * d
  }

  /** Up to rounding down, the scaled dividend is `n * 2^64 / 2^BitLen(n)`. */
  lemma DividendBounds(n: Magnitude)
    requires n > 0
    ensures 0x8000_0000_0000_0000 <= ScaledDividend(n) < 0x1_0000_0000_0000_0000
    ensures Floor(ScaledDividend(n), n * 0x1_0000_0000_0000_0000, Pow2(BitLen(n)))
  {
    MagnitudeLength(n);
    BitLenBounds(n);
    if BitLen(n) <= 64 {
      ShortDividend(n);
    } else {
      LongDividend(n);
    }
  }

  lemma ShortDividend(n: nat)
    requires 0 < n && BitLen(n) <= 64
    ensures 0x8000_0000_0000_0000 <= ScaledDividend(n) < 0x1_0000_0000_0000_0000
    ensures Floor(ScaledDividend(n), n * 0x1_0000_0000_0000_0000, Pow2(BitLen(n)))
  {
    var l := BitLen(n);
    var p, half := Pow2(64 - l), Pow2(l - 1);
    assert p * half == 0x8000_0000_0000_0000 by {
      Pow2Of63();
      Pow2Add(64 - l, l - 1);
    }
    BitLenBounds(n);
    ShortProduct(n, p, half);
    ShortForm(n, p);
  }

  lemma ShortForm(n: nat, p: nat)
    requires BitLen(n) <= 64 && p == Pow2(64 - BitLen(n)) && n * p < 0x1_0000_0000_0000_0000
    ensures ScaledDividend(n) == n * p
  {
    var y := n * p;
    Shl128Exact(n, 64 - BitLen(n), p);
    assert ScaledDividend(n) == AsU64(Shl128(n, 64 - BitLen(n)));
    AsU64Exact(y);
  }

  lemma ShortProduct(n: nat, p: nat, half: nat)
    requires p * half == 0x8000_0000_0000_0000 && half <= n < 2 * half
    ensures 0x8000_0000_0000_0000 <= n * p < 0x1_0000_0000_0000_0000
    ensures Floor(n * p, n * 0x1_0000_0000_0000_0000, 2 * half)
  {
  }

  lemma LongDividend(n: nat)
    requires 64 < BitLen(n) <= 127
    ensures 0x8000_0000_0000_0000 <= ScaledDividend(n) < 0x1_0000_0000_0000_0000
    ensures Floor(ScaledDividend(n), n * 0x1_0000_0000_0000_0000, Pow2(BitLen(n)))
  {
    var s := BitLen(n) - 64;
    var q := Shr(n, s);
    ShrFloor(n, s);
    assert Pow2(s) * 0x8000_0000_0000_0000 <= n < 2 * (Pow2(s) * 0x8000_0000_0000_0000) by {
      Pow2Of63();
      BitLenBounds(n);
      Pow2Add(s, 63);
    }
    TopBits(n, Pow2(s), q, 0x8000_0000_0000_0000);
    assert ScaledDividend(n) == q by {
      assert ScaledDividend(n) == AsU64(q);
      AsU64Exact(q);
    }
    ScaleFloor(n, Pow2(s), q);
    assert Pow2(s + 64) == Pow2(s) * 0x1_0000_0000_0000_0000 by {
      Pow2Of64();
      Pow2Add(s, 64);
    }
  }

  lemma ShrFloor(n: nat, s: nat)
    ensures Floor(Shr(n, s), n, Pow2(s))
  {
  }

  /** Keeping the top bits of a number of known length. */
  lemma TopBits(n: nat, p: nat, q: nat, top: nat)
    requires p > 0 && p * top <= n < 2 * (p * top) && Floor(q, n, p)
    ensures top <= q < 2 * top
  {
  }

  lemma ScaleFloor(n: nat, p: nat, q: nat)
    requires Floor(q, n, p)
    ensures Floor(q, n * 0x1_0000_0000_0000_0000, p * 0x1_0000_0000_0000_0000)
  {
  }

  /** The scaled divisor keeps at least 31 bits unless nothing was dropped. */
  lemma DivisorBounds(n: Magnitude)
    requires n > 0
    ensures 0 < ScaledDivisor(n) < 0x1_0000_0000
    ensures Floor(ScaledDivisor(n), n, Pow2(DivisorDrop(n)))
    ensures DivisorDrop(n) == 0 ==> ScaledDivisor(n) == n
    ensures DivisorDrop(n) > 0 ==> 0x8000_0000 <= ScaledDivisor(n)
  {
    MagnitudeLength(n);
    if DivisorDrop(n) == 0 {
      ShortDivisor(n);
    } else {
      LongDivisor(n);
    }
  }

  lemma ShortDivisor(n: nat)
    requires BitLen(n) <= 32
    ensures ScaledDivisor(n) == n < 0x1_0000_0000 && DivisorDrop(n) == 0
  {
    Pow2Of32();
    BitLenBelow(n, 32);
    assert Shr(n, 0) == n;
    AsU64Exact(n);
  }

  lemma LongDivisor(n: nat)
    requires 32 < BitLen(n) <= 127
    ensures 0x8000_0000 <= ScaledDivisor(n) < 0x1_0000_0000
    ensures Floor(ScaledDivisor(n), n, Pow2(DivisorDrop(n)))
  {
    var k := BitLen(n) - 32;
    var q := Shr(n, k);
    ShrFloor(n, k);
    assert Pow2(k) * 0x8000_0000 <= n < 2 * (Pow2(k) * 0x8000_0000) by {
      Pow2Of31();
      BitLenBounds(n);
      Pow2Add(k, 31);
    }
    TopBits(n, Pow2(k), q, 0x8000_0000);
    assert ScaledDivisor(n) == q by {
      assert DivisorDrop(n) == k;
      AsU64Exact(q);
    }
  }

  /** Dropping bits makes the divisor at most `2^-31` too small. */
  lemma DivisorRelative(n: nat, br: nat, k: nat)
    requires Floor(br, n, k) && (k == 1 || 0x8000_0000 <= br)
    ensures n * 0x8000_0000 <= (br * k) * 0x8000_0001
  {
  }

  lemma QuotientRange(ar: nat, br: nat, rr: nat)
    requires 0x8000_0000_0000_0000 <= ar < 0x1_0000_0000_0000_0000 && 0 < br < 0x1_0000_0000
    requires Floor(rr, ar, br)
    ensures 0x8000_0000 <= rr < 0x1_0000_0000_0000_0000
  {
  }

  // ---------- error of the scaled quotient ----------

  function LeftFactor(s: int): (r: nat) ensures r > 0 { if s >= 0 then Pow2(s) else 1 }

  function RightFactor(s: int): (r: nat) ensures r > 0 { if s >= 0 then 1 else Pow2(-s) }

  /** The 64-by-32-bit quotient; the divisor is positive for every nonzero magnitude. */
  function ScaledQuotient(an: nat, bn: nat): nat {
    var br := ScaledDivisor(bn);
    if br == 0 then 0 else Div(ScaledDividend(an), br)
  }

  /** The scalings of the operands are undone by the final shift and the 48 fraction bits. */
  lemma Scalings(l: nat, k: nat, s: int)
    requires s == 48 - k - (64 - l)
    ensures (LeftFactor(s) * Pow2(k)) * 0x1_0000 == Pow2(l) * RightFactor(s)
  {
    if s >= 0 {
      Pow2Product(s, k);
    } else {
      Pow2Product(0, k);
      Pow2Add(l, -s);
    }
  }

  lemma Pow2Product(m: nat, n: nat)
    ensures (Pow2(m) * Pow2(n)) * 0x1_0000 == Pow2(m + n + 16)
  {
    Pow2Of16();
    Pow2Add(m, n);
    Pow2Add(m + n, 16);
  }

  /** Undoing the scaling of the dividend. */
  lemma UnscaleDividend(an: nat, ar: nat, l: nat, down: nat, e: nat)
    requires Floor(ar, an * 0x1_0000_0000_0000_0000, l) && e * 0x1_0000 == l * down && down > 0
    ensures Floor(ar, (an * 0x1_0000_0000_0000) * down, e)
  {
  }

  lemma Regroup(a: nat, b: nat, c: nat, d: nat)
    ensures (a * b) * (c * d) == (a * c) * (b * d)
  {
  }

  lemma Upper(y: nat, bn: nat, cut: nat, x: nat)
    requires bn * 0x8000_0000 <= cut * 0x8000_0001 && y * cut <= x
    ensures (y * bn) * 0x8000_0000 <= x * 0x8000_0001
  {
  }

  /** Rounding dividend, divisor and quotient down, combined. */
  lemma RoundingChain(x: nat, bn: nat, ar: nat, br: nat, rr: nat, up: nat, k: nat)
    requires up > 0 && k > 0
    requires Floor(ar, x, up * k) && Floor(rr, ar, br)
    requires br * k <= bn && bn * 0x8000_0000 <= (br * k) * 0x8000_0001
    ensures ((rr * up) * bn) * 0x8000_0000 <= x * 0x8000_0001
    ensures x < ((rr + 1) * up) * bn
  {
    var e, cut := up * k, br * k;
    MulMono(rr * br, ar, e);
    Regroup(rr, up, br, k);
    Upper(rr * up, bn, cut, x);
    MulMono(ar + 1, (rr + 1) * br, e);
    Regroup(rr + 1, up, br, k);
    MulMono(cut, bn, (rr + 1) * up);
  }

  /**
   With `q = an * 2^48 / bn` the exact quotient and `rr * 2^s` the computed one,
   `rr * 2^s <= q * (1 + 2^-31)` and `q < (rr + 1) * 2^s`.
   */
  lemma ScaledError(an: Magnitude, bn: Magnitude)
    requires an > 0 && bn > 0
    ensures var rr, s := ScaledQuotient(an, bn), FinalShift(an, bn);
            var x := (an * 0x1_0000_0000_0000) * RightFactor(s);
            && 0x8000_0000 <= rr < 0x1_0000_0000_0000_0000
            && ((rr * LeftFactor(s)) * bn) * 0x8000_0000 <= x * 0x8000_0001
            && x < ((rr + 1) * LeftFactor(s)) * bn
  {
    var ar, br, rr := ScaledDividend(an), ScaledDivisor(bn), ScaledQuotient(an, bn);
    var s, l, k := FinalShift(an, bn), Pow2(BitLen(an)), Pow2(DivisorDrop(bn));
    DividendBounds(an);
    DivisorBounds(bn);
    DividesAsFloor(an, bn);
    Scalings(BitLen(an), DivisorDrop(bn), s);
    Combine(an, bn, ar, br, rr, l, k, LeftFactor(s), RightFactor(s));
  }

  lemma DividesAsFloor(an: nat, bn: nat)
    requires ScaledDivisor(bn) > 0
    ensures Floor(ScaledQuotient(an, bn), ScaledDividend(an), ScaledDivisor(bn))
  {
    DivBounds(ScaledDividend(an), ScaledDivisor(bn));
  }

  lemma Combine(an: nat, bn: nat, ar: nat, br: nat, rr: nat, l: nat, k: nat, up: nat, down: nat)
    requires 0x8000_0000_0000_0000 <= ar < 0x1_0000_0000_0000_0000 && 0 < br < 0x1_0000_0000
    requires up > 0 && down > 0 && k > 0 && (up * k) * 0x1_0000 == l * down
    requires Floor(ar, an * 0x1_0000_0000_0000_0000, l) && Floor(rr, ar, br)
    requires Floor(br, bn, k) && (k == 1 || 0x8000_0000 <= br)
    ensures 0x8000_0000 <= rr < 0x1_0000_0000_0000_0000
    ensures ((rr * up) * bn) * 0x8000_0000 <= ((an * 0x1_0000_0000_0000) * down) * 0x8000_0001
    ensures (an * 0x1_0000_0000_0000) * down < ((rr + 1) * up) * bn
  {
    QuotientRange(ar, br, rr);
    UnscaleDividend(an, ar, l, down, up * k);
    DivisorRelative(bn, br, k);
    RoundingChain((an * 0x1_0000_0000_0000) * down, bn, ar, br, rr, up, k);
  }
}
