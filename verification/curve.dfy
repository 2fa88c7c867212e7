/** Constant-product swap arithmetic of the Raydium CPMM pool, as computed
    off-chain by the integration (cpmm/curve/calcualtor.ts). All amounts
    are unbounded integers (BN); every BN division truncates toward zero. */
module Curve {
  import opened Solana
  import opened Outcomes
  import opened BnMath

  /** FEE_RATE_DENOMINATOR_VALUE: trade fee rates are parts per million. */
  const FeeRateDenominator: int := 1_000_000

  /** `q` is the ceiling of `x / d` (for a positive `d`). */
  predicate IsCeil(q: int, x: int, d: int) {
    (q - 1) * d < x <= q * d
  }

  /** `q` is the floor of `x / d` (for a positive `d`). */
  predicate IsFloor(q: int, x: int, d: int) {
    q * d <= x < (q + 1) * d
  }

  /** The Euclidean quotient of `x + d - 1` by a positive `d` is the
      ceiling of `x / d`. */
  lemma CeilByOffset(x: int, d: int)
    requires d > 0
    ensures IsCeil((x + d - 1) / d, x, d)
  {
    FloorDivBounds(x + d - 1, d);
  }

  /** `ceilDiv`: (tokenAmount * feeNumerator + feeDenominator - 1) divided
      by feeDenominator. On a non-negative product and a positive
      denominator this is the exact ceiling, so a fee is never rounded in
      the payer's favour. BN throws on a zero divisor. */
  function CeilDiv(tokenAmount: int, feeNumerator: int, feeDenominator: int): (r: Result<int>)
    ensures r.Ok? <==> feeDenominator != 0
    ensures r.Err? ==> r.error == DivisorIsZero
    ensures r.Ok? && feeDenominator > 0 && tokenAmount * feeNumerator >= 0 ==>
              IsCeil(r.value, tokenAmount * feeNumerator, feeDenominator)
  {
    if feeDenominator == 0 then Err(DivisorIsZero)
    else
      var x := tokenAmount * feeNumerator + feeDenominator - 1;
      assert feeDenominator > 0 && tokenAmount * feeNumerator >= 0 ==>
               IsCeil(Div(x, feeDenominator), tokenAmount * feeNumerator, feeDenominator) by {
        if feeDenominator > 0 && tokenAmount * feeNumerator >= 0 {
          DivIsEuclidean(x, feeDenominator);
          CeilByOffset(tokenAmount * feeNumerator, feeDenominator);
        }
      }
      Ok(Div(x, feeDenominator))
  }

  /** `tradingFee`: the fee charged on `amount` at `tradeFeeRate` parts per
      million, rounded up; with a rate of at most 100% it never exceeds the
      amount. */
  function TradingFee(amount: int, tradeFeeRate: int): (fee: int)
    ensures amount * tradeFeeRate >= 0 ==> IsCeil(fee, amount * tradeFeeRate, FeeRateDenominator)
    ensures 0 <= amount && 0 <= tradeFeeRate <= FeeRateDenominator ==> 0 <= fee <= amount
  {
    var fee := CeilDiv(amount, tradeFeeRate, FeeRateDenominator).value;
    assert 0 <= amount && 0 <= tradeFeeRate <= FeeRateDenominator ==>
             amount * tradeFeeRate <= amount * FeeRateDenominator by {
      if 0 <= amount && 0 <= tradeFeeRate <= FeeRateDenominator {
        assert amount * tradeFeeRate <= amount * FeeRateDenominator;
      }
    }
    fee
  }

  /** The floor quotient plus one for an inexact division is the ceiling. */
  lemma CeilFromFloor(x: int, d: int)
    requires d > 0
    ensures IsCeil(x / d + (if x % d == 0 then 0 else 1), x, d)
  {
    assert x == d * (x / d) + x % d;
  }

  /** `checkedCeilDiv`: fails on a zero divisor and on a zero floor
      quotient; when the division is inexact it increments the quotient and
      re-derives a second component from it, which the callers discard. */
  function CheckedCeilDiv(dividend: int, rhs: int): (r: Result<(int, int)>)
    ensures rhs == 0 ==> r == Err(DivisorIsZero)
    ensures rhs != 0 && Div(dividend, rhs) == 0 ==> r == Err(QuotientIsZero)
  {
    if rhs == 0 then Err(DivisorIsZero)
    else
      var quotient := Div(dividend, rhs);
      if quotient == 0 then Err(QuotientIsZero)
      else
        var remainder := Rem(dividend, rhs);
        if remainder > 0 then
          var quotient' := quotient + 1;
          // BN.js rejects the division by a zero quotient before checkedRem runs
          if quotient' == 0 then Err(DivisorIsZero)
          else
            var rhs' := Div(dividend, quotient');
            var remainder' := Rem(dividend, quotient');
            Ok((quotient', if remainder' > 0 then rhs' + 1 else rhs'))
        else
          Ok((quotient, rhs))
  }

  /** On a non-negative dividend and a positive divisor, `checkedCeilDiv`
      succeeds exactly when the dividend is at least the divisor; its first
      component is then the ceiling of dividend / rhs (the floor quotient,
      plus one exactly when a remainder is left) and its second component
      is rhs for an exact division and otherwise the ceiling of dividend
      divided by that first component. */
  lemma CheckedCeilDivIsCeiling(dividend: int, rhs: int)
    requires dividend >= 0 && rhs > 0
    ensures CheckedCeilDiv(dividend, rhs).Ok? <==> dividend >= rhs
    ensures CheckedCeilDiv(dividend, rhs).Err? ==> CheckedCeilDiv(dividend, rhs).error == QuotientIsZero
    ensures CheckedCeilDiv(dividend, rhs).Ok? ==>
              var (q, d) := CheckedCeilDiv(dividend, rhs).value;
              && IsCeil(q, dividend, rhs)
              && q == dividend / rhs + (if dividend % rhs == 0 then 0 else 1)
              && (dividend % rhs == 0 ==> d == rhs)
              && (dividend % rhs != 0 ==> IsCeil(d, dividend, q))
  {
    DivIsEuclidean(dividend, rhs);
    CeilFromFloor(dividend, rhs);
    FloorDivBounds(dividend, rhs);
    QuotientPositive(dividend, rhs);
    var q := dividend / rhs;
    if q != 0 {
      if dividend % rhs != 0 {
        DivIsEuclidean(dividend, q + 1);
        CeilFromFloor(dividend, q + 1);
      }
    }
  }

  /** `swapWithoutFees`: the constant-product exact-in swap. The new
      destination reserve is the ceiling of S * D / (S + a); the amount
      swapped out is what that leaves of D, and a zero result is an error. */
  function SwapWithoutFees(sourceAmount: int, swapSourceAmount: int, swapDestinationAmount: int): (r: Result<int>)
    ensures swapSourceAmount + sourceAmount == 0 ==> r == Err(DivisorIsZero)
    ensures r.Ok? ==> r.value != 0
  {
    var product := swapSourceAmount * swapDestinationAmount;
    var newSwapSourceAmount := swapSourceAmount + sourceAmount;
    var quotients :- CheckedCeilDiv(product, newSwapSourceAmount);
    var destinationAmountSwapped := swapDestinationAmount - quotients.0;
    if destinationAmountSwapped == 0 then Err(DestinationAmountSwappedIsZero)
    else Ok(destinationAmountSwapped)
  }

  /** On non-negative reserves and input, with S + a > 0: the swap succeeds
      exactly when S * D >= S + a (the ceiling quotient is non-zero) and
      D * a >= S + a (the output is non-zero); the output is then the floor
      of D * a / (S + a), strictly between 0 and D, and the constant product
      of the new reserves is at least the old one. */
  lemma SwapWithoutFeesIsFloor(a: int, s: int, d: int)
    requires s >= 0 && d >= 0 && a >= 0 && s + a > 0
    ensures SwapWithoutFees(a, s, d).Ok? <==> s * d >= s + a && d * a >= s + a
    ensures SwapWithoutFees(a, s, d).Ok? ==>
              var out := SwapWithoutFees(a, s, d).value;
              && IsFloor(out, d * a, s + a)
              && 0 < out < d
              && (s + a) * (d - out) >= s * d
  {
    var m, k := s + a, s * d;
    assert k >= 0 by { MulMonoLe(0, s, d); }
    CheckedCeilDivIsCeiling(k, m);
    if k >= m {
      var q := CheckedCeilDiv(k, m).value.0;
      QuotientPositive(k, m);
      FloorOfComplement(s, a, d, q);
      var out := d - q;
      assert d * a >= 0 by { MulMonoLe(0, d, a); }
      FloorUnique(d * a, m, out);
      QuotientPositive(d * a, m);
    }
  }

  /** If q is the ceiling of S * D / (S + a), then D - q is the floor of
      D * a / (S + a). */
  lemma FloorOfComplement(s: int, a: int, d: int, q: int)
    requires s + a > 0 && IsCeil(q, s * d, s + a)
    ensures IsFloor(d - q, d * a, s + a)
    ensures (s + a) * q >= s * d
  {
    var m := s + a;
    assert d * m == s * d + d * a;
    assert (d - q) * m == d * m - q * m;
    assert (d - q + 1) * m == d * m - (q - 1) * m;
  }

  datatype SwapResult = SwapResult(
    newSwapDestinationAmount: int,
    sourceAmountSwapped: int,
    destinationAmountSwapped: int,
    tradeFee: int)

  /** `curveSwap`: charge the trade fee on the input, swap the rest along
      the constant-product curve, and report the whole input as swapped. */
  function CurveSwap(sourceAmount: int, swapSourceAmount: int, swapDestinationAmount: int, tradeFeeRate: int): (r: Result<SwapResult>)
    ensures r.Ok? ==> r.value.sourceAmountSwapped == sourceAmount
    ensures r.Ok? ==> r.value.tradeFee == TradingFee(sourceAmount, tradeFeeRate)
    ensures r.Ok? ==> r.value.newSwapDestinationAmount + r.value.destinationAmountSwapped == swapDestinationAmount
    ensures
      var s, d, a := swapSourceAmount, swapDestinationAmount, sourceAmount - TradingFee(sourceAmount, tradeFeeRate);
      s >= 0 && d >= 0 && sourceAmount >= 0 && 0 <= tradeFeeRate <= FeeRateDenominator ==>
        && (r.Ok? <==> s + a > 0 && s * d >= s + a && d * a >= s + a)
        && (r.Ok? ==>
              && IsFloor(r.value.destinationAmountSwapped, d * a, s + a)
              && 0 < r.value.destinationAmountSwapped < d
              && 0 < r.value.newSwapDestinationAmount
              && (s + a) * r.value.newSwapDestinationAmount >= s * d)
  {
    var tradeFee := TradingFee(sourceAmount, tradeFeeRate);
    var sourceAmountLessFees := sourceAmount - tradeFee;
    var s, d := swapSourceAmount, swapDestinationAmount;
    if s >= 0 && d >= 0 && sourceAmount >= 0 && 0 <= tradeFeeRate <= FeeRateDenominator && s + sourceAmountLessFees > 0 then
      SwapWithoutFeesIsFloor(sourceAmountLessFees, s, d);
      var destinationAmountSwapped :- SwapWithoutFees(sourceAmountLessFees, s, d);
      Ok(SwapResult(d - destinationAmountSwapped, sourceAmount, destinationAmountSwapped, tradeFee))
    else
      var destinationAmountSwapped :- SwapWithoutFees(sourceAmountLessFees, s, d);
      Ok(SwapResult(d - destinationAmountSwapped, sourceAmount, destinationAmountSwapped, tradeFee))
  }

  /** A higher fee rate never yields more output: for the same input and
      reserves, the output at `lowRate` is at least the output at
      `highRate` (in particular the fee-free output bounds every other). */
  lemma OutputNonIncreasingInFeeRate(amount: int, s: int, d: int, lowRate: int, highRate: int)
    requires s >= 0 && d >= 0 && amount >= 0
    requires 0 <= lowRate <= highRate <= FeeRateDenominator
    ensures CurveSwap(amount, s, d, lowRate).Ok? && CurveSwap(amount, s, d, highRate).Ok? ==>
      CurveSwap(amount, s, d, lowRate).value.destinationAmountSwapped
            >= CurveSwap(amount, s, d, highRate).value.destinationAmountSwapped
  {
    if CurveSwap(amount, s, d, lowRate).Ok? && CurveSwap(amount, s, d, highRate).Ok? {
      var lowFee, highFee := TradingFee(amount, lowRate), TradingFee(amount, highRate);
      MulMonoLe(lowRate, highRate, amount);
      assert amount * lowRate <= amount * highRate;
      assert (lowFee - 1) * FeeRateDenominator < highFee * FeeRateDenominator;
      MulCancelLt(lowFee - 1, highFee, FeeRateDenominator);
      FloorMonotone(s, d, amount - lowFee, amount - highFee,
        CurveSwap(amount, s, d, lowRate).value.destinationAmountSwapped,
        CurveSwap(amount, s, d, highRate).value.destinationAmountSwapped);
    }
  }

  /** floor(D * a / (S + a)) does not decrease as a grows. */
  lemma FloorMonotone(s: int, d: int, big: int, small: int, outBig: int, outSmall: int)
    requires s >= 0 && d >= 0 && 0 <= small <= big && s + small > 0
    requires IsFloor(outBig, d * big, s + big) && IsFloor(outSmall, d * small, s + small)
    ensures outSmall <= outBig
  {
    MulMonoLe(small, s + small, d);
    assert outSmall * (s + small) < (d + 1) * (s + small);
    MulCancelLt(outSmall, d + 1, s + small);
    MulMonoLe(outSmall, d, big - small);
    assert outSmall * (s + big) == outSmall * (s + small) + outSmall * (big - small);
    assert d * big == d * small + d * (big - small);
    assert outSmall * (s + big) < (outBig + 1) * (s + big);
    MulCancelLt(outSmall, outBig + 1, s + big);
  }

  /** A worked example: 10 000 in against reserves of 1 000 000 and
      2 000 000 at 0.25% pays a fee of 25 and receives 19 752. */
  lemma WorkedExample()
    ensures CurveSwap(10_000, 1_000_000, 2_000_000, 2_500) == Ok(SwapResult(1_980_248, 10_000, 19_752, 25))
  {
    assert TradingFee(10_000, 2_500) == 25;
    assert CheckedCeilDiv(2_000_000_000_000, 1_009_975) == Ok((1_980_248, 1_009_975));
  }

  /** A positive fee rate need not lower the output: with reserves 10 and 3
      and an input of 10, both 0.25% and no fee at all yield 1. */
  lemma FeeCanLeaveOutputUnchanged()
    ensures CurveSwap(10, 10, 3, 2_500) == Ok(SwapResult(2, 10, 1, 1))
    ensures CurveSwap(10, 10, 3, 0) == Ok(SwapResult(2, 10, 1, 0))
  {
    assert TradingFee(10, 2_500) == 1 && TradingFee(10, 0) == 0;
    assert CheckedCeilDiv(30, 19) == Ok((2, 15));
    assert CheckedCeilDiv(30, 20) == Ok((2, 15));
  }

  /** `BNDivCeil` (Raydium SDK): the exact ceiling of a / b; BN rejects a
      zero divisor. */
  function DivCeil(a: int, b: int): (r: Result<int>)
    ensures r.Ok? <==> b != 0
    ensures r.Err? ==> r.error == DivisorIsZero
    ensures b > 0 && r.Ok? ==> IsCeil(r.value, a, b)
    ensures b < 0 && r.Ok? ==> IsCeil(r.value, -a, -b)
  {
    if b == 0 then Err(DivisorIsZero)
    else if b > 0 then
      CeilByOffset(a, b);
      Ok((a + b - 1) / b)
    else
      CeilByOffset(-a, -b);
      Ok((-a - b - 1) / -b)
  }

  /** The fixed parts-per-million scale `swapBaseOut` writes as a literal. */
  const FeeScale: int := 1_000_000

  datatype BaseOutQuote = BaseOutQuote(
    amountRealOut: int,
    amountIn: int,
    amountInWithoutFee: int,
    tradeFee: int)

  /** The (input, output) reserves of a swap: base to quote when the
      requested output mint is the pool's mint B, quote to base otherwise. */
  function OrientReserves(outputIsMintB: bool, baseReserve: int, quoteReserve: int): (int, int) {
    if outputIsMintB then (baseReserve, quoteReserve) else (quoteReserve, baseReserve)
  }

  /** `swapBaseOut` (integer part): the input needed to receive
      `outputAmount`. The request is clamped below the output reserve, so
      the pool is never drained and the divisor is at least 1; the input is
      the ceiling of Rin * out / (Rout - out) grossed up for the fee as
      the ceiling of that times 10^6 / (10^6 - rate). */
  function SwapBaseOut(poolMintB: PublicKey, outputMint: PublicKey, tradeFeeRate: int,
                       baseReserve: int, quoteReserve: int, outputAmount: int): (r: Result<BaseOutQuote>)
    ensures r.Err? <==> tradeFeeRate == FeeScale
    ensures
      var (reserveIn, reserveOut) := OrientReserves(poolMintB == outputMint, baseReserve, quoteReserve);
      r.Ok? ==>
        var q := r.value;
        && q.amountRealOut < reserveOut
        && (outputAmount < reserveOut ==> q.amountRealOut == outputAmount)
        && (outputAmount >= reserveOut ==> q.amountRealOut == reserveOut - 1)
        && IsCeil(q.amountInWithoutFee, reserveIn * q.amountRealOut, reserveOut - q.amountRealOut)
        && (reserveIn >= 0 && q.amountRealOut >= 0 ==>
              (reserveIn + q.amountInWithoutFee) * (reserveOut - q.amountRealOut) >= reserveIn * reserveOut)
        && (tradeFeeRate < FeeScale ==> IsCeil(q.amountIn, q.amountInWithoutFee * FeeScale, FeeScale - tradeFeeRate))
        && q.tradeFee + q.amountInWithoutFee == q.amountIn
        && (0 <= tradeFeeRate < FeeScale && q.amountInWithoutFee >= 0 ==> q.tradeFee >= 0)
  {
    var (reserveIn, reserveOut) := OrientReserves(poolMintB == outputMint, baseReserve, quoteReserve);
    var amountRealOut := if outputAmount >= reserveOut then reserveOut - 1 else outputAmount;
    var denominator := reserveOut - amountRealOut;
    var amountInWithoutFee := DivCeil(reserveIn * amountRealOut, denominator).value;
    var amountIn :- DivCeil(amountInWithoutFee * FeeScale, FeeScale - tradeFeeRate);
    var fee := amountIn - amountInWithoutFee;
    BaseOutBounds(reserveIn, reserveOut, amountRealOut, amountInWithoutFee, tradeFeeRate, amountIn);
    Ok(BaseOutQuote(amountRealOut, amountIn, amountInWithoutFee, fee))
  }

  lemma BaseOutBounds(reserveIn: int, reserveOut: int, out: int, x: int, rate: int, amountIn: int)
    requires out < reserveOut
    requires IsCeil(x, reserveIn * out, reserveOut - out)
    requires rate < FeeScale ==> IsCeil(amountIn, x * FeeScale, FeeScale - rate)
    ensures reserveIn >= 0 && out >= 0 ==> (reserveIn + x) * (reserveOut - out) >= reserveIn * reserveOut
    ensures 0 <= rate < FeeScale && x >= 0 ==> amountIn - x >= 0
  {
    var den := reserveOut - out;
    assert (reserveIn + x) * den == reserveIn * reserveOut - reserveIn * out + x * den;
    if 0 <= rate < FeeScale && x >= 0 {
      MulMonoLe(FeeScale - rate, FeeScale, x);
      assert x * (FeeScale - rate) <= amountIn * (FeeScale - rate);
      assert (x - 1) * (FeeScale - rate) < amountIn * (FeeScale - rate);
      MulCancelLt(x - 1, amountIn, FeeScale - rate);
    }
  }
}
