/** The service and referral fees of the trading adapters (src/index.ts):
    the fee every `*WithFees` method charges, and `addFeeToTx`, which
    splits a fee into compounding referral shares and a service remainder
    and appends one lamport transfer per payee. Percentages arrive as
    floating-point numbers and are floored to basis points before any
    integer arithmetic; the model takes the basis points as inputs. */
module Fees {
  import opened Solana
  import opened Outcomes
  import opened BnMath
  import opened Bytes
  import opened Curve
  import AmmInstruction

  /** `PERCENT_BPS`: basis points in a whole. */
  const PercentBps: int := 10_000

  /** The lamports added for every referral, in the fee and in each
      referral transfer. */
  const ReferralLamports: int := 890_880

  /** Half of `PercentBps`. */
  const HalfBps: int := 5_000

  /** A fee recipient: its wallet and its share, `Math.floor(percent * 100)`
      basis points. */
  datatype Payee = Payee(wallet: PublicKey, bps: int)

  /** `SystemProgram.transfer({fromPubkey, toPubkey, lamports})`. */
  datatype Transfer = Transfer(from: PublicKey, to: PublicKey, lamports: int)

  // ----- the fee of the *WithFees methods -----

  /** `feeAmount`: the service share of `base`, BigInt division truncating
      toward zero, plus a fixed amount per referral. */
  function ServiceFeeAmount(base: int, serviceBps: int, referralCount: nat): (fee: int)
    ensures base * serviceBps >= 0 ==> IsFloor(fee - ReferralLamports * referralCount, base * serviceBps, PercentBps)
    ensures base * serviceBps < 0 ==> IsCeil(fee - ReferralLamports * referralCount, base * serviceBps, PercentBps)
  {
    var share := Div(base * serviceBps, PercentBps);
    assert base * serviceBps < 0 ==> IsCeil(share, base * serviceBps, PercentBps) by {
      if base * serviceBps < 0 {
        assert -PercentBps < base * serviceBps - PercentBps * share <= 0;
      }
    }
    share + ReferralLamports * referralCount
  }

  /** `base - feeAmount`: the minimum output the sell and swap paths
      request (src/index.ts, after each `feeAmount`) and the input the
      PumpSwap buy path keeps. Nothing clamps it at zero. */
  function AfterServiceFee(base: int, serviceBps: int, referralCount: nat): (r: int)
    ensures r + ServiceFeeAmount(base, serviceBps, referralCount) == base
    ensures 0 <= base && 0 <= serviceBps <= PercentBps ==> r >= -ReferralLamports * referralCount
    ensures 0 <= base && 0 <= serviceBps ==> r <= base - ReferralLamports * referralCount
  {
    var fee := ServiceFeeAmount(base, serviceBps, referralCount);
    assert 0 <= base && 0 <= serviceBps ==>
             Div(base * serviceBps, PercentBps) >= 0
             && (serviceBps <= PercentBps ==> Div(base * serviceBps, PercentBps) <= base) by {
      if 0 <= base && 0 <= serviceBps {
        ScaledShareBounds(base, serviceBps, PercentBps);
      }
    }
    base - fee
  }

  /** With a referral on the trade, a quote smaller than the per-referral
      amount leaves a negative minimum output, which the AMM v4 swap
      builder rejects: such a swap cannot be assembled at all. */
  lemma SmallQuoteCannotBeEncoded(quote: int, serviceBps: int, referralCount: nat,
                                  a: AmmInstruction.SwapBaseInAccounts, amountIn: int)
    requires 0 <= quote < ReferralLamports * referralCount && 0 <= serviceBps
    ensures AfterServiceFee(quote, serviceBps, referralCount) < 0
    ensures AmmInstruction.CreateRayV4SwapBaseInInstruction(a, amountIn, AfterServiceFee(quote, serviceBps, referralCount))
         == Err(ValueOutOfRange)
  {
  }

  // ----- addFeeToTx -----

  function Sum(xs: seq<int>): int {
    if |xs| == 0 then 0 else Sum(xs[..|xs| - 1]) + xs[|xs| - 1]
  }

  lemma {:induction false} SumCons(x: int, xs: seq<int>)
    ensures Sum([x] + xs) == x + Sum(xs)
    decreases |xs|
  {
    if |xs| > 0 {
      var ys := [x] + xs;
      assert ys[..|ys| - 1] == [x] + xs[..|xs| - 1];
      SumCons(x, xs[..|xs| - 1]);
    }
  }

  /** The referral shares: the first is the referral's basis points of
      `prev`, each later one the next referral's basis points of the share
      before it, each truncated toward zero. */
  function Shares(prev: int, referrals: seq<Payee>): (r: seq<int>)
    ensures |r| == |referrals|
    ensures |r| > 0 ==> r[0] == Div(prev * referrals[0].bps, PercentBps)
    ensures forall i :: 0 < i < |r| ==> r[i] == Div(r[i - 1] * referrals[i].bps, PercentBps)
    decreases |referrals|
  {
    if |referrals| == 0 then []
    else
      var share := Div(prev * referrals[0].bps, PercentBps);
      var rest := Shares(share, referrals[1..]);
      assert forall i :: 0 < i < |referrals| ==> referrals[i] == referrals[1..][i - 1];
      [share] + rest
  }

  /** The referral transfers: one per positive share, in referral order,
      paying the share plus the per-referral amount. */
  function ReferralTransfers(from: PublicKey, referrals: seq<Payee>, shares: seq<int>): (r: seq<Transfer>)
    requires |shares| == |referrals|
    decreases |referrals|
  {
    if |referrals| == 0 then []
    else
      var n := |referrals| - 1;
      ReferralTransfers(from, referrals[..n], shares[..n])
        + (if shares[n] > 0 then [Transfer(from, referrals[n].wallet, shares[n] + ReferralLamports)] else [])
  }

  /** What `addFeeToTx` appends: nothing for a fee that is not positive;
      otherwise the referral transfers, then the service transfer of what
      the shares left of the fee, if anything is left. */
  function FeeTransfers(from: PublicKey, feeAmount: int, service: PublicKey, referrals: seq<Payee>): seq<Transfer> {
    if feeAmount <= 0 then []
    else
      var shares := Shares(feeAmount, referrals);
      var remainder := feeAmount - Sum(shares);
      ReferralTransfers(from, referrals, shares)
        + (if remainder > 0 then [Transfer(from, service, remainder)] else [])
  }

  /** One more referral in the prefix adds its share to the sum and its
      transfer, if any, to the end. */
  lemma PrefixStep(from: PublicKey, referrals: seq<Payee>, shares: seq<int>, i: nat)
    requires |shares| == |referrals| && i < |referrals|
    ensures Sum(shares[..i + 1]) == Sum(shares[..i]) + shares[i]
    ensures ReferralTransfers(from, referrals[..i + 1], shares[..i + 1])
         == ReferralTransfers(from, referrals[..i], shares[..i])
            + (if shares[i] > 0 then [Transfer(from, referrals[i].wallet, shares[i] + ReferralLamports)] else [])
  {
    assert shares[..i + 1][..i] == shares[..i];
    assert referrals[..i + 1][..i] == referrals[..i];
  }

  /** The referral loop of `addFeeToTx`: appends the referral transfers
      and returns what the shares leave of the fee. */
  method PayReferrals(tx: seq<Transfer>, from: PublicKey, feeAmount: int, referrals: seq<Payee>)
    returns (out: seq<Transfer>, fee: int)
    ensures out == tx + ReferralTransfers(from, referrals, Shares(feeAmount, referrals))
    ensures fee == feeAmount - Sum(Shares(feeAmount, referrals))
  {
    var shares := Shares(feeAmount, referrals);
    out := tx;
    fee := feeAmount;
    var amount := feeAmount;
    var i := 0;
    while i < |referrals|
      invariant 0 <= i <= |referrals|
      invariant amount == if i == 0 then feeAmount else shares[i - 1]
      invariant fee == feeAmount - Sum(shares[..i])
      invariant out == tx + ReferralTransfers(from, referrals[..i], shares[..i])
    {
      amount := Div(amount * referrals[i].bps, PercentBps);
      fee := fee - amount;
      if amount > 0 {
        out := out + [Transfer(from, referrals[i].wallet, amount + ReferralLamports)];
      }
      PrefixStep(from, referrals, shares, i);
      i := i + 1;
    }
    assert shares[..i] == shares && referrals[..i] == referrals;
  }

  /** `addFeeToTx`: the transaction with the fee transfers appended. */
  method AddFeeToTx(tx: seq<Transfer>, from: PublicKey, feeAmount: int, service: PublicKey, referrals: seq<Payee>)
    returns (out: seq<Transfer>)
    ensures out == tx + FeeTransfers(from, feeAmount, service, referrals)
  {
    out := tx;
    if feeAmount > 0 {
      var fee;
      out, fee := PayReferrals(tx, from, feeAmount, referrals);
      if fee > 0 {
        out := out + [Transfer(from, service, fee)];
      }
    }
  }

  // ----- what the fee transfers pay -----

  function TotalLamports(ts: seq<Transfer>): int {
    if |ts| == 0 then 0 else TotalLamports(ts[..|ts| - 1]) + ts[|ts| - 1].lamports
  }

  lemma {:induction false} TotalLamportsAppend(a: seq<Transfer>, b: seq<Transfer>)
    ensures TotalLamports(a + b) == TotalLamports(a) + TotalLamports(b)
    decreases |b|
  {
    if |b| > 0 {
      var ab := a + b;
      assert ab[..|ab| - 1] == a + b[..|b| - 1];
      TotalLamportsAppend(a, b[..|b| - 1]);
    } else {
      assert a + b == a;
    }
  }

  /** There is at most one referral transfer per referral, and each comes
      from the payer and carries more than the per-referral amount. */
  lemma {:induction false} ReferralTransfersShape(from: PublicKey, referrals: seq<Payee>, shares: seq<int>)
    requires |shares| == |referrals|
    ensures |ReferralTransfers(from, referrals, shares)| <= |referrals|
    ensures forall t :: t in ReferralTransfers(from, referrals, shares) ==> t.from == from && t.lamports > ReferralLamports
    decreases |referrals|
  {
    if |referrals| > 0 {
      var n := |referrals| - 1;
      ReferralTransfersShape(from, referrals[..n], shares[..n]);
    }
  }

  /** With non-negative shares the referral transfers together pay every
      share plus the per-referral amount once per transfer. */
  lemma {:induction false} ReferralTransfersTotal(from: PublicKey, referrals: seq<Payee>, shares: seq<int>)
    requires |shares| == |referrals|
    requires forall i :: 0 <= i < |shares| ==> shares[i] >= 0
    ensures TotalLamports(ReferralTransfers(from, referrals, shares))
         == Sum(shares) + ReferralLamports * |ReferralTransfers(from, referrals, shares)|
    decreases |referrals|
  {
    if |referrals| > 0 {
      var n := |referrals| - 1;
      var prefix := ReferralTransfers(from, referrals[..n], shares[..n]);
      ReferralTransfersTotal(from, referrals[..n], shares[..n]);
      var last := if shares[n] > 0 then [Transfer(from, referrals[n].wallet, shares[n] + ReferralLamports)] else [];
      assert ReferralTransfers(from, referrals, shares) == prefix + last;
      TotalLamportsAppend(prefix, last);
      assert TotalLamports(last) == if shares[n] > 0 then shares[n] + ReferralLamports else 0 by {
        if shares[n] > 0 {
          assert last[..0] == [];
        }
      }
      assert Sum(shares) == Sum(shares[..n]) + shares[n];
    }
  }

  /** With non-negative basis points every share of a non-negative amount
      is non-negative. */
  lemma {:induction false} SharesNonNegative(prev: int, referrals: seq<Payee>)
    requires prev >= 0
    requires forall i :: 0 <= i < |referrals| ==> referrals[i].bps >= 0
    ensures forall i :: 0 <= i < |referrals| ==> Shares(prev, referrals)[i] >= 0
    decreases |referrals|
  {
    if |referrals| > 0 {
      var share := Div(prev * referrals[0].bps, PercentBps);
      ScaledShareBounds(prev, referrals[0].bps, PercentBps);
      assert forall i :: 0 < i < |referrals| ==> referrals[i] == referrals[1..][i - 1];
      SharesNonNegative(share, referrals[1..]);
      assert Shares(prev, referrals) == [share] + Shares(share, referrals[1..]);
    }
  }

  /** The fee is paid out in full: with non-negative basis points and a
      positive fee, the transfers carry the larger of the fee and the sum
      of the referral shares, plus the per-referral amount once per
      referral transfer. They carry more than the fee exactly when the
      compounding shares add up to more than it, and then the service gets
      nothing. */
  lemma FeePaidOut(from: PublicKey, feeAmount: int, service: PublicKey, referrals: seq<Payee>)
    requires feeAmount > 0
    requires forall i :: 0 <= i < |referrals| ==> referrals[i].bps >= 0
    ensures |FeeTransfers(from, feeAmount, service, referrals)| <= |referrals| + 1
    ensures forall t :: t in FeeTransfers(from, feeAmount, service, referrals) ==> t.from == from && t.lamports > 0
    ensures var shares := Shares(feeAmount, referrals);
      TotalLamports(FeeTransfers(from, feeAmount, service, referrals))
      == (if Sum(shares) < feeAmount then feeAmount else Sum(shares))
         + ReferralLamports * |ReferralTransfers(from, referrals, shares)|
  {
    var shares := Shares(feeAmount, referrals);
    SharesNonNegative(feeAmount, referrals);
    ReferralTransfersShape(from, referrals, shares);
    ReferralTransfersTotal(from, referrals, shares);
    var referralTransfers := ReferralTransfers(from, referrals, shares);
    var remainder := feeAmount - Sum(shares);
    var tail := if remainder > 0 then [Transfer(from, service, remainder)] else [];
    assert FeeTransfers(from, feeAmount, service, referrals) == referralTransfers + tail;
    TotalLamportsAppend(referralTransfers, tail);
    assert TotalLamports(tail) == if remainder > 0 then remainder else 0 by {
      if remainder > 0 {
        assert tail[..0] == [];
      }
    }
  }

  /** When no referral takes more than half of what it is a share of, the
      shares never add up to more than the amount they start from, so the
      fee is never overpaid. */
  lemma {:induction false} HalfSharesNeverOverpay(prev: int, referrals: seq<Payee>)
    requires prev >= 0
    requires forall i :: 0 <= i < |referrals| ==> 0 <= referrals[i].bps <= HalfBps
    ensures Sum(Shares(prev, referrals)) <= prev
    decreases |referrals|
  {
    if |referrals| > 0 {
      var bps := referrals[0].bps;
      var share := Div(prev * bps, PercentBps);
      ScaledShareBounds(prev, bps, PercentBps);
      DivIsEuclidean(prev * bps, PercentBps);
      FloorDivBounds(prev * bps, PercentBps);
      MulMonoLe(bps, HalfBps, prev);
      assert 2 * share <= prev;
      assert forall i :: 0 < i < |referrals| ==> referrals[i] == referrals[1..][i - 1];
      HalfSharesNeverOverpay(share, referrals[1..]);
      assert Shares(prev, referrals) == [share] + Shares(share, referrals[1..]);
      SumCons(share, Shares(share, referrals[1..]));
    }
  }

  /** Two referrals at 100% and 80% take 1000 and 800 lamports of a
      1000-lamport fee: the referrals are paid 1800 plus their fixed amounts
      and the service transfer is dropped. */
  lemma CompoundingCanOverpay(from: PublicKey, service: PublicKey, first: PublicKey, second: PublicKey)
    ensures FeeTransfers(from, 1000, service, [Payee(first, 10_000), Payee(second, 8_000)])
         == [Transfer(from, first, 1000 + ReferralLamports), Transfer(from, second, 800 + ReferralLamports)]
  {
    var refs := [Payee(first, 10_000), Payee(second, 8_000)];
    var shares := Shares(1000, refs);
    assert shares[0] == 1000 && shares[1] == 800;
    assert shares == [1000, 800];
    assert Sum([1000, 800]) == Sum([1000]) + 800 by {
      assert [1000, 800][..1] == [1000];
    }
    assert Sum([1000]) == Sum([]) + 1000 by {
      assert [1000][..0] == [];
    }
    var t1 := Transfer(from, first, 1000 + ReferralLamports);
    var t2 := Transfer(from, second, 800 + ReferralLamports);
    assert ReferralTransfers(from, refs, shares) == ReferralTransfers(from, refs[..1], [1000]) + [t2] by {
      assert shares[..1] == [1000];
    }
    assert ReferralTransfers(from, refs[..1], [1000]) == ReferralTransfers(from, [], []) + [t1] by {
      assert refs[..1][..0] == [] && [1000][..0] == [];
    }
  }
}
