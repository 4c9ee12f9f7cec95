/**
 The largest conditional swap an account can execute under the banks' net borrow and
 deposit limits. Amounts are native token units; positions, prices and remaining limits
 are I80F48 bit patterns, integers that stand for `bits / 2^48`.
 */
module TcsLimits {

  import Bits
  import opened Common

  type U64 = n: nat | n <= 0xFFFF_FFFF_FFFF_FFFF

  datatype Mode = BorrowBuyToken | SwapSellIntoBuy | SwapCollateralIntoBuy

  /** What one bank still allows: net borrows in quote value, deposits in tokens. */
  datatype Bank = Bank(remainingBorrowsQuote: int, remainingDeposits: int, price: int)

  datatype Request = Request(
    mode: Mode,
    buyIsCollateral: bool,
    maxBuy: U64,       // limits aside, from the order and the account's buy position
    maxSell: U64,      // limits aside, from the order and the account's health
    buyPosition: int,
    sellPosition: int,
    buyBank: Bank,
    sellBank: Bank)

  /** Prices are positive; dividing by a zero price would abort. */
  ghost predicate Priced(r: Request) {
    r.buyBank.price > 0 && r.sellBank.price > 0
  }

  /** The nearest u64 of a fixed-point number, fractions dropped. */
  function ClampToU64(bits: int): (r: U64)
    ensures bits <= 0 ==> r == 0
    ensures bits > 0 ==> r * 0x1_0000_0000_0000 <= bits
    ensures 0 < bits < 0xFFFF_FFFF_FFFF_FFFF * 0x1_0000_0000_0000 ==> bits < (r + 1) * 0x1_0000_0000_0000
    ensures bits >= 0xFFFF_FFFF_FFFF_FFFF * 0x1_0000_0000_0000 ==> r == 0xFFFF_FFFF_FFFF_FFFF
  {
    if bits <= 0 then 0
    else if bits >= 0xFFFF_FFFF_FFFF_FFFF * 0x1_0000_0000_0000 then 0xFFFF_FFFF_FFFF_FFFF
    else bits / 0x1_0000_0000_0000
  }

  /** Rounds up to a whole number, still as a bit pattern. */
  function Ceil(bits: int): (r: int)
    ensures bits <= r < bits + 0x1_0000_0000_0000 && r % 0x1_0000_0000_0000 == 0
  {
    -((-bits) / 0x1_0000_0000_0000) * 0x1_0000_0000_0000
  }

  /** Whole units of a nonnegative position. */
  function Whole(bits: int): int {
    bits / 0x1_0000_0000_0000
  }

  /** Fixed-point division of nonnegative numbers, saturating at the largest bit pattern. */
  function SaturatingDiv(a: nat, b: nat): nat
    requires b > 0
  {
    Min((a * 0x1_0000_0000_0000) / b, 0x7FFF_FFFF_FFFF_FFFF_FFFF_FFFF_FFFF_FFFF)
  }

  /** Tokens that may still be borrowed; an exhausted limit allows none. */
  function AvailableBorrows(bank: Bank): U64
    requires bank.price > 0
  {
    if bank.remainingBorrowsQuote <= 0 then 0
    else ClampToU64(SaturatingDiv(bank.remainingBorrowsQuote, bank.price))
  }

  function AvailableDeposits(bank: Bank): U64 {
    ClampToU64(bank.remainingDeposits)
  }

  // ---------- what an execution of a given size creates ----------

  /** New borrows when the account gives `x` sell tokens; the liquidator deposits as many. */
  function SellBorrows(x: nat, sellPosition: int): U64 {
    ClampToU64(Ceil(x * 0x1_0000_0000_0000 - if sellPosition > 0 then sellPosition else 0))
  }

  /** What remains of `x` new buy tokens after repaying the account's borrow. */
  function BeyondRepay(x: nat, buyPosition: int): U64 {
    ClampToU64(Ceil(x * 0x1_0000_0000_0000 + if buyPosition < 0 then buyPosition else 0))
  }

  /** Buy tokens the liquidator has to borrow to deliver `x`. */
  function LiqorBorrows(r: Request, x: nat): nat {
    if r.mode.BorrowBuyToken? && !r.buyIsCollateral then x else 0
  }

  function BuyBorrows(r: Request, x: nat): U64 {
    BeyondRepay(LiqorBorrows(r, x), r.buyPosition)
  }

  /** Deposits only grow by what the liquidator borrowed. */
  function BuyDeposits(r: Request, x: nat): nat {
    Min(BeyondRepay(x, r.buyPosition), LiqorBorrows(r, x))
  }

  predicate SellWithinLimits(r: Request, x: nat)
    requires r.sellBank.price > 0
  {
    && SellBorrows(x, r.sellPosition) <= AvailableBorrows(r.sellBank)
    && SellBorrows(x, r.sellPosition) <= AvailableDeposits(r.sellBank)
  }

  predicate BuyWithinLimits(r: Request, x: nat)
    requires r.buyBank.price > 0
  {
    && BuyBorrows(r, x) <= AvailableBorrows(r.buyBank)
    && BuyDeposits(r, x) <= AvailableDeposits(r.buyBank)
  }

  // ---------- the computation ----------

  /** Takes off what exceeds the limit; the excess never exceeds the amount. */
  function Reduce(amount: nat, used: nat, available: nat): nat
    requires used <= amount
  {
    amount - (used - Min(used, available))
  }

  /** The part of `x` beyond `free`. */
  function Excess(x: nat, free: nat): nat {
    if x > free then x - free else 0
  }

  /** Whole tokens the account can give before it borrows. */
  function FreeToSell(sellPosition: int): nat {
    Whole(if sellPosition > 0 then sellPosition else 0)
  }

  /** Whole tokens of the account's borrow that bought tokens repay. */
  function Repayable(buyPosition: int): nat {
    Whole(if buyPosition < 0 then -buyPosition else 0)
  }

  lemma SellBorrowsForm(x: U64, sellPosition: int)
    ensures SellBorrows(x, sellPosition) == Excess(x, FreeToSell(sellPosition))
  {
  }

  lemma BeyondRepayForm(x: U64, buyPosition: int)
    ensures BeyondRepay(x, buyPosition) == Excess(x, Repayable(buyPosition))
  {
  }

  /** Both stages in turn leave the largest amount whose excess respects both limits. */
  lemma TwoStages(amount: nat, free: nat, borrows: nat, deposits: nat, x: nat)
    requires x <= amount
    ensures var net := Reduce(amount, Excess(amount, free), borrows);
            var final := Reduce(net, Excess(net, free), deposits);
            && final <= amount
            && (Excess(x, free) <= borrows && Excess(x, free) <= deposits <==> x <= final)
  {
  }

  function MaxSell(r: Request): nat
    requires r.sellBank.price > 0
  {
    SellBorrowsForm(r.maxSell, r.sellPosition);
    var net: U64 := Reduce(r.maxSell, SellBorrows(r.maxSell, r.sellPosition), AvailableBorrows(r.sellBank));
    SellBorrowsForm(net, r.sellPosition);
    Reduce(net, SellBorrows(net, r.sellPosition), AvailableDeposits(r.sellBank))
  }

  function MaxBuy(r: Request): nat
    requires r.buyBank.price > 0
  {
    var liqorBorrows: U64 := LiqorBorrows(r, r.maxBuy);
    BeyondRepayForm(liqorBorrows, r.buyPosition);
    var net: U64 := Reduce(r.maxBuy, BeyondRepay(liqorBorrows, r.buyPosition), AvailableBorrows(r.buyBank));
    var liqorBorrows' := Min(liqorBorrows, net);
    BeyondRepayForm(net, r.buyPosition);
    var deposits := Min(BeyondRepay(net, r.buyPosition), liqorBorrows');
    Reduce(net, deposits, AvailableDeposits(r.buyBank))
  }

  /** One dollar's worth of a token, as a bit pattern. */
  function Threshold(price: int): nat
    requires price > 0
  {
    (1_000_000 * 0x1_0000_0000_0000 * 0x1_0000_0000_0000) / price
  }

  /** An amount the limits pushed below a dollar. */
  predicate TinyDueToLimit(limited: nat, unlimited: nat, price: int)
    requires price > 0
  {
    limited * 0x1_0000_0000_0000 < Threshold(price) < unlimited * 0x1_0000_0000_0000
  }

  /** The viable (buy, sell) amounts, or nothing if the limits make the execution tiny. */
  function MaxLiqeeExecution(r: Request): Option<(nat, nat)>
    requires r.buyBank.price > 0 && r.sellBank.price > 0
  {
    var buy, sell := MaxBuy(r), MaxSell(r);
    if TinyDueToLimit(buy, r.maxBuy, r.buyBank.price) || TinyDueToLimit(sell, r.maxSell, r.sellBank.price) then None
    else Some((buy, sell))
  }

  // ---------- what the computed amounts are ----------

  /** The sell amount is the largest one both limits of the sell bank allow. */
  lemma MaxSellExact(r: Request, x: nat)
    requires Priced(r) && x <= r.maxSell
    ensures MaxSell(r) <= r.maxSell
    ensures SellWithinLimits(r, x) <==> x <= MaxSell(r)
  {
    var free, borrows := FreeToSell(r.sellPosition), AvailableBorrows(r.sellBank);
    SellBorrowsForm(r.maxSell, r.sellPosition);
    SellBorrowsForm(Reduce(r.maxSell, Excess(r.maxSell, free), borrows), r.sellPosition);
    SellBorrowsForm(x, r.sellPosition);
    TwoStages(r.maxSell, free, borrows, AvailableDeposits(r.sellBank), x);
  }

  /** The buy amount is the largest one both limits of the buy bank allow. */
  lemma MaxBuyExact(r: Request, x: nat)
    requires Priced(r) && x <= r.maxBuy
    ensures MaxBuy(r) <= r.maxBuy
    ensures BuyWithinLimits(r, x) <==> x <= MaxBuy(r)
  {
    BeyondRepayForm(0, r.buyPosition);
    if r.mode.BorrowBuyToken? && !r.buyIsCollateral {
      BorrowedBuyExact(r, x);
    }
  }

  lemma BorrowedBuyExact(r: Request, x: nat)
    requires Priced(r) && x <= r.maxBuy && r.mode.BorrowBuyToken? && !r.buyIsCollateral
    ensures MaxBuy(r) <= r.maxBuy
    ensures BuyWithinLimits(r, x) <==> x <= MaxBuy(r)
  {
    var free, borrows := Repayable(r.buyPosition), AvailableBorrows(r.buyBank);
    var net := Reduce(r.maxBuy, Excess(r.maxBuy, free), borrows);
    BeyondRepayForm(r.maxBuy, r.buyPosition);
    BeyondRepayForm(net, r.buyPosition);
    BeyondRepayForm(x, r.buyPosition);
    assert BuyDeposits(r, x) == BuyBorrows(r, x) == Excess(x, free);
    assert MaxBuy(r) == Reduce(net, Excess(net, free), AvailableDeposits(r.buyBank));
    TwoStages(r.maxBuy, free, borrows, AvailableDeposits(r.buyBank), x);
  }

  // ---------- in quote value and tokens ----------

  /** `n` new tokens of borrows fit the remaining quote value; none always do. */
  ghost predicate BorrowsFit(bank: Bank, n: nat) {
    n == 0 || n * bank.price <= bank.remainingBorrowsQuote
  }

  /** `n` new tokens of deposits fit what the bank still takes; none always do. */
  ghost predicate DepositsFit(bank: Bank, n: nat) {
    n == 0 || n * 0x1_0000_0000_0000 <= bank.remainingDeposits
  }

  /** Tokens are counted as available exactly as far as the remaining quote value covers them. */
  lemma AvailableBorrowsExact(bank: Bank, n: U64)
    requires bank.price > 0
    ensures n <= AvailableBorrows(bank) <==> BorrowsFit(bank, n)
  {
    if bank.remainingBorrowsQuote > 0 {
      var q, available := bank.remainingBorrowsQuote, AvailableBorrows(bank);
      var d := (q * 0x1_0000_0000_0000) / bank.price;
      if n <= available {
        DivCovered(q, bank.price, d, available);
        Bits.MulMono(n, available, bank.price);
      } else {
        DivExceeded(q, bank.price, d, available);
        Bits.MulMono(available + 1, n, bank.price);
      }
    } else if n > 0 {
      Bits.MulMono(1, n, bank.price);
    }
  }

  lemma DivCovered(q: nat, price: nat, d: nat, n: nat)
    requires price > 0 && d <= (q * 0x1_0000_0000_0000) / price && n * 0x1_0000_0000_0000 <= d
    ensures n * price <= q
  {
  }

  lemma DivExceeded(q: nat, price: nat, d: nat, n: nat)
    requires price > 0 && d == (q * 0x1_0000_0000_0000) / price && d < (n + 1) * 0x1_0000_0000_0000
    ensures q < (n + 1) * price
  {
    Bits.DivBounds(q * 0x1_0000_0000_0000, price);
    Bits.MulMono(d + 1, (n + 1) * 0x1_0000_0000_0000, price);
    assert ((n + 1) * 0x1_0000_0000_0000) * price == ((n + 1) * price) * 0x1_0000_0000_0000;
  }

  function QuoteLeft(bank: Bank): nat {
    if bank.remainingBorrowsQuote > 0 then bank.remainingBorrowsQuote else 0
  }

  /**
   The tokens counted as available are worth no more than the remaining quote value, and
   one more would be worth more unless the count is at its largest.
   */
  lemma AvailableBorrowsCovered(bank: Bank)
    requires bank.price > 0
    ensures AvailableBorrows(bank) * bank.price <= QuoteLeft(bank)
    ensures AvailableBorrows(bank) < 0xFFFF_FFFF_FFFF_FFFF ==>
              QuoteLeft(bank) < (AvailableBorrows(bank) + 1) * bank.price
  {
    var n := AvailableBorrows(bank);
    AvailableBorrowsExact(bank, n);
    if n < 0xFFFF_FFFF_FFFF_FFFF {
      AvailableBorrowsExact(bank, n + 1);
      Bits.MulMono(1, n + 1, bank.price);
    }
  }

  lemma AvailableDepositsExact(bank: Bank, n: U64)
    ensures n <= AvailableDeposits(bank) <==> DepositsFit(bank, n)
  {
  }

  /** Giving `x` sell tokens: what goes beyond the account's own tokens is borrowed and deposited. */
  ghost predicate SellAllowed(r: Request, x: nat) {
    var beyond := Excess(x, FreeToSell(r.sellPosition));
    BorrowsFit(r.sellBank, beyond) && DepositsFit(r.sellBank, beyond)
  }

  /**
   Receiving `x` buy tokens: only a liquidator that borrows them creates borrows and
   deposits, for what goes beyond repaying the account's borrow.
   */
  ghost predicate BuyAllowed(r: Request, x: nat) {
    var beyond := Excess(x, Repayable(r.buyPosition));
    r.mode.BorrowBuyToken? && !r.buyIsCollateral ==> BorrowsFit(r.buyBank, beyond) && DepositsFit(r.buyBank, beyond)
  }

  lemma SellAllowedExact(r: Request, x: U64)
    requires Priced(r)
    ensures SellWithinLimits(r, x) <==> SellAllowed(r, x)
  {
    SellBorrowsForm(x, r.sellPosition);
    AvailableBorrowsExact(r.sellBank, SellBorrows(x, r.sellPosition));
    AvailableDepositsExact(r.sellBank, SellBorrows(x, r.sellPosition));
  }

  lemma BuyAllowedExact(r: Request, x: U64)
    requires Priced(r)
    ensures BuyWithinLimits(r, x) <==> BuyAllowed(r, x)
  {
    BeyondRepayForm(x, r.buyPosition);
    BeyondRepayForm(0, r.buyPosition);
    if r.mode.BorrowBuyToken? && !r.buyIsCollateral {
      AvailableBorrowsExact(r.buyBank, BeyondRepay(x, r.buyPosition));
      AvailableDepositsExact(r.buyBank, BeyondRepay(x, r.buyPosition));
    }
  }

  /** The largest amount the buy bank's limits allow, up to what the order asks for. */
  ghost predicate LargestBuy(r: Request, buy: nat) {
    && buy <= r.maxBuy && BuyAllowed(r, buy)
    && forall x :: buy < x <= r.maxBuy ==> !BuyAllowed(r, x)
  }

  ghost predicate LargestSell(r: Request, sell: nat) {
    && sell <= r.maxSell && SellAllowed(r, sell)
    && forall x :: sell < x <= r.maxSell ==> !SellAllowed(r, x)
  }

  lemma BuySide(r: Request)
    requires Priced(r)
    ensures LargestBuy(r, MaxBuy(r))
  {
    var buy := MaxBuy(r);
    MaxBuyExact(r, 0);
    MaxBuyExact(r, buy);
    BuyAllowedExact(r, buy);
    forall x | buy < x <= r.maxBuy ensures !BuyAllowed(r, x) {
      MaxBuyExact(r, x);
      BuyAllowedExact(r, x);
    }
  }

  lemma SellSide(r: Request)
    requires Priced(r)
    ensures LargestSell(r, MaxSell(r))
  {
    var sell := MaxSell(r);
    MaxSellExact(r, 0);
    MaxSellExact(r, sell);
    SellAllowedExact(r, sell);
    forall x | sell < x <= r.maxSell ensures !SellAllowed(r, x) {
      MaxSellExact(r, x);
      SellAllowedExact(r, x);
    }
  }

  /**
   The limits leave `limited` of `unlimited` tokens, with a dollar's worth in between.
   Values are in quote units at scale 2^96; the amount left is below a dollar by at least
   the last bit of a token.
   */
  ghost predicate CutBelowDollar(limited: nat, unlimited: nat, price: int) {
    && (limited * 0x1_0000_0000_0000 + 1) * price <= 1_000_000 * 0x1_0000_0000_0000 * 0x1_0000_0000_0000
    && 1_000_000 * 0x1_0000_0000_0000 * 0x1_0000_0000_0000 < unlimited * 0x1_0000_0000_0000 * price
  }

  lemma BelowQuotient(n: nat, dollar: nat, price: nat)
    requires price > 0
    ensures n < dollar / price <==> (n + 1) * price <= dollar
    ensures dollar / price < n <==> dollar < n * price
  {
    var t := dollar / price;
    assert t * price <= dollar < (t + 1) * price;
    if n < t {
      Bits.MulMono(n + 1, t, price);
    } else if n == t {
    } else {
      Bits.MulMono(t + 1, n, price);
    }
  }

  lemma TinyExact(limited: nat, unlimited: nat, price: int)
    requires price > 0
    ensures TinyDueToLimit(limited, unlimited, price) <==> CutBelowDollar(limited, unlimited, price)
  {
    var dollar := 1_000_000 * 0x1_0000_0000_0000 * 0x1_0000_0000_0000;
    BelowQuotient(limited * 0x1_0000_0000_0000, dollar, price);
    BelowQuotient(unlimited * 0x1_0000_0000_0000, dollar, price);
  }

  /**
   For every request there is one largest buy and one largest sell amount the limits
   allow, in quote value and tokens. Exactly those are returned, and nothing is returned
   if and only if the limits cut one of them from above a dollar to below it.
   */
  lemma ExecutionRespectsLimits(r: Request, buy: nat, sell: nat)
    requires Priced(r) && LargestBuy(r, buy) && LargestSell(r, sell)
    ensures match MaxLiqeeExecution(r)
            case Some(amounts) => amounts == (buy, sell)
            case None => CutBelowDollar(buy, r.maxBuy, r.buyBank.price) || CutBelowDollar(sell, r.maxSell, r.sellBank.price)
    ensures MaxLiqeeExecution(r).Some? ==>
              !CutBelowDollar(buy, r.maxBuy, r.buyBank.price) && !CutBelowDollar(sell, r.maxSell, r.sellBank.price)
  {
    BuySide(r);
    SellSide(r);
    assert buy == MaxBuy(r) && sell == MaxSell(r);
    TinyExact(buy, r.maxBuy, r.buyBank.price);
    TinyExact(sell, r.maxSell, r.sellBank.price);
  }

  lemma LargestExist(r: Request) returns (buy: nat, sell: nat)
    requires Priced(r)
    ensures LargestBuy(r, buy) && LargestSell(r, sell)
  {
    BuySide(r);
    SellSide(r);
    buy, sell := MaxBuy(r), MaxSell(r);
  }

  /** An execution is only withheld when a limit made one of the amounts smaller. */
  lemma WithheldOnlyByLimits(r: Request)
    requires Priced(r) && MaxLiqeeExecution(r).None?
    ensures !BuyAllowed(r, r.maxBuy) || !SellAllowed(r, r.maxSell)
  {
    MaxBuyExact(r, r.maxBuy);
    MaxSellExact(r, r.maxSell);
    BuyAllowedExact(r, r.maxBuy);
    SellAllowedExact(r, r.maxSell);
  }
}
