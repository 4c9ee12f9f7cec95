/** Powers of two, bit lengths and the unsigned shifts of a 128-bit machine word. */
module Bits {

  function Pow2(n: nat): (r: nat)
    ensures r >= 1
  {
    if n == 0 then 1 else 2 * Pow2(n - 1)
  }

  lemma {:induction false} Pow2Add(m: nat, n: nat)
    ensures Pow2(m + n) == Pow2(m) * Pow2(n)
  {
    if m > 0 {
      Pow2Add(m - 1, n);
      assert Pow2(m + n) == 2 * Pow2(m - 1 + n);
      MulAssoc(2, Pow2(m - 1), Pow2(n));
    }
  }

  lemma {:induction false} Pow2Mono(m: nat, n: nat)
    requires m <= n
    ensures Pow2(m) <= Pow2(n)
    ensures m < n ==> 2 * Pow2(m) <= Pow2(n)
  {
    if m < n {
      Pow2Mono(m, n - 1);
    }
  }

  lemma MulAssoc(a: int, b: int, c: int)
    ensures (a * b) * c == a * (b * c)
  {
  }

  /** Number of binary digits: the width minus the leading zeros. */
  function BitLen(x: nat): nat {
    if x == 0 then 0 else 1 + BitLen(x / 2)
  }

  lemma {:induction false} BitLenBounds(x: nat)
    ensures x < Pow2(BitLen(x))
    ensures x > 0 ==> BitLen(x) > 0 && Pow2(BitLen(x) - 1) <= x
  {
    if x > 0 {
      BitLenBounds(x / 2);
    }
  }

  lemma {:induction false} BitLenUnique(x: nat, n: nat)
    requires x < Pow2(n) && (n == 0 || Pow2(n - 1) <= x)
    ensures BitLen(x) == n
  {
    BitLenBounds(x);
    if BitLen(x) < n {
      Pow2Mono(BitLen(x), n - 1);
    } else if n < BitLen(x) {
      Pow2Mono(n, BitLen(x) - 1);
    }
  }

  /** Fewer than `n` digits is the same as being below the power of two. */
  lemma BitLenBelow(x: nat, n: nat)
    ensures BitLen(x) <= n <==> x < Pow2(n)
  {
  }

  // The powers of two the word sizes use.

  lemma Pow2Of16()
    ensures Pow2(16) == 0x1_0000
  {
    assert Pow2(4) == 0x10;
    Pow2Sum(4, 4, 0x10, 0x10);
    Pow2Sum(8, 8, 0x100, 0x100);
  }

  lemma Pow2Of32()
    ensures Pow2(32) == 0x1_0000_0000
  {
    Pow2Of16();
    Pow2Sum(16, 16, 0x1_0000, 0x1_0000);
  }

  lemma Pow2Of31()
    ensures Pow2(31) == 0x8000_0000
  {
    Pow2Of32();
    Pow2Sum(31, 1, Pow2(31), 2);
  }

  lemma Pow2Of48()
    ensures Pow2(48) == 0x1_0000_0000_0000
  {
    Pow2Of16();
    Pow2Of32();
    Pow2Sum(16, 32, 0x1_0000, 0x1_0000_0000);
  }

  lemma Pow2Of63()
    ensures Pow2(63) == 0x8000_0000_0000_0000
  {
    Pow2Of31();
    Pow2Of32();
    Pow2Sum(31, 32, 0x8000_0000, 0x1_0000_0000);
  }

  lemma Pow2Of64()
    ensures Pow2(64) == 0x1_0000_0000_0000_0000
  {
    Pow2Of32();
    Pow2Sum(32, 32, 0x1_0000_0000, 0x1_0000_0000);
  }

  lemma Pow2Of127()
    ensures Pow2(127) == 0x8000_0000_0000_0000_0000_0000_0000_0000
  {
    Pow2Of63();
    Pow2Of64();
    Pow2Sum(63, 64, 0x8000_0000_0000_0000, 0x1_0000_0000_0000_0000);
  }

  lemma Pow2Sum(m: nat, n: nat, x: nat, y: nat)
    requires Pow2(m) == x && Pow2(n) == y
    ensures Pow2(m + n) == x * y
  {
    Pow2Add(m, n);
  }

  function Div(x: nat, d: nat): nat
    requires d > 0
  {
    x / d
  }

  /** A left shift of a u128 drops what leaves the word. */
  function Shl128(x: nat, s: nat): nat {
    (x * Pow2(s)) % 0x1_0000_0000_0000_0000_0000_0000_0000_0000
  }

  function Shr(x: nat, s: nat): nat {
    Div(x, Pow2(s))
  }

  function AsU64(x: nat): nat {
    x % 0x1_0000_0000_0000_0000
  }

  lemma Shl128Exact(x: nat, s: nat, p: nat)
    requires p == Pow2(s) && x * p < 0x1_0000_0000_0000_0000_0000_0000_0000_0000
    ensures Shl128(x, s) == x * p
  {
  }

  lemma AsU64Exact(x: nat)
    requires x < 0x1_0000_0000_0000_0000
    ensures AsU64(x) == x
  {
  }

  /** Floor division, spelled out. */
  lemma DivBounds(x: nat, d: nat)
    requires d > 0
    ensures Div(x, d) * d <= x < (Div(x, d) + 1) * d
  {
  }

  lemma DivUnique(x: nat, d: nat, q: nat)
    requires d > 0 && q * d <= x < (q + 1) * d
    ensures Div(x, d) == q
  {
    DivBounds(x, d);
    var p := Div(x, d);
    if p < q {
      MulMono(p + 1, q, d);
    } else if q < p {
      MulMono(q + 1, p, d);
    }
  }

  lemma DivZero(d: nat)
    requires d > 0
    ensures Div(0, d) == 0
  {
  }

  lemma MulMono(a: nat, b: nat, c: nat)
    requires a <= b
    ensures a * c <= b * c
  {
  }

  lemma StrictMono(a: nat, b: nat, c: nat)
    requires a < b && c > 0
    ensures a * c < b * c
  {
  }

  lemma CancelLt(a: nat, b: nat, c: nat)
    requires c > 0 && a * c < b * c
    ensures a < b
  {
  }
}
