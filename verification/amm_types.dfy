/** Records of the Raydium AMM v4 integration (amm/src/types.ts). */
module AmmTypes {
  import opened Solana

  datatype Fees = Fees(
    minSeparateNumerator: nat,
    minSeparateDenominator: nat,
    tradeFeeNumerator: nat,
    tradeFeeDenominator: nat)

  /** The swap counters; the first four are u128 on chain (only their low
      64 bits are kept). */
  datatype OutPutData = OutPutData(
    swapBaseInAmount: nat,
    swapQuoteOutAmount: nat,
    swapBase2QuoteFee: nat,
    swapQuoteInAmount: nat,
    swapBaseOutAmount: nat,
    swapQuote2BaseFee: nat)

  /** The decoded AMM v4 pool account (`AmmInfo`), fields in layout order. */
  datatype AmmInfo = AmmInfo(
    status: nat,
    nonce: nat,
    orderNum: nat,
    depth: nat,
    coinDecimals: nat,
    pcDecimals: nat,
    state: nat,
    resetFlag: nat,
    minSize: nat,
    volMaxCutRatio: nat,
    amountWave: nat,
    coinLotSize: nat,
    pcLotSize: nat,
    minPriceMultiplier: nat,
    maxPriceMultiplier: nat,
    sysDecimalValue: nat,
    fees: Fees,
    pnlNumerator: nat,
    pnlDenominator: nat,
    swapFeeNumerator: nat,
    swapFeeDenominator: nat,
    baseNeedTakePnl: nat,
    quoteNeedTakePnl: nat,
    quoteTotalPnl: nat,
    baseTotalPnl: nat,
    poolOpenTime: nat,
    punishPcAmount: nat,
    punishCoinAmount: nat,
    orderbookToInitTime: nat,
    outPut: OutPutData,
    baseVault: PublicKey,
    quoteVault: PublicKey,
    baseMint: PublicKey,
    quoteMint: PublicKey,
    lpMint: PublicKey,
    openOrders: PublicKey,
    marketId: PublicKey,
    marketProgramId: PublicKey,
    targetOrders: PublicKey,
    withdrawQueue: PublicKey,
    lpVault: PublicKey,
    ammOwner: PublicKey,
    lpAmount: nat,
    clientOrderId: nat,
    padding: (nat, nat))

  /** The caller-supplied accounts of an AMM v4 swap. */
  datatype RaydiumV4SwapAccount = RaydiumV4SwapAccount(
    amm: PublicKey,
    ammCoinVault: PublicKey,
    ammPcVault: PublicKey,
    ammProgram: PublicKey,
    inputMint: PublicKey,
    userSourceOwner: PublicKey)
}
