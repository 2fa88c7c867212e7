# Raydium trade adapter core, modelled in Dafny

This project models the integer core of a Solana DEX trade adapter for Raydium pools.

- **CPMM curve.** The constant-product (CPMM) swap arithmetic that the adapter computes off-chain: `ceilDiv`, `tradingFee`, `checkedCeilDiv`, `swapWithoutFees`, `curveSwap` and the integer part of `swapBaseOut`.
- **CPMM pool view.** How `getRpcPoolInfos` derives pool reserves from the vault balances less the protocol and fund fees owed, and in which order it fails on a missing account. The integer path of `computeSwapAmount`: the output amount, the fee and the slippage-scaled minimum output.
- **CPMM instructions.** The two builders: `initialize` (create pool) and `swapBaseInput` (swap). Each writes an 8-byte Anchor discriminator, then little-endian u64 arguments, then positional accounts with signer and writable flags.
- **AMM v4 decoder.** `parseAmmInfo` reads a 752-byte pool account with a running offset: u64 fields take 8 bytes; u128 fields advance 16 bytes but keep only the low 8; public keys take 32 bytes.
- **AMM v4 swap.** The `swap_base_in` builder (tag 9, two u64 amounts, 18 accounts) and `getSwapInstruction`, which wires a pool into it.
- **Service and referral fees.** The fee every `*WithFees` adapter method deducts, and `addFeeToTx`. That function splits a fee into compounding referral shares plus a service remainder, and appends one lamport transfer per payee.

Amounts are unbounded integers. BN.js and BigInt division truncate toward zero, so `BnMath.Div` and `BnMath.Rem` model that explicitly; Dafny's own `/` is Euclidean. Bytes are a `byte` newtype and keys are 32-byte sequences. Every throw in the source is an `Err` of the `Outcomes.Result` type.

Modules, in dependency order:

| file | module | models |
|---|---|---|
| solana.dfy | Solana | keys, account metas, instructions, program ids |
| outcomes.dfy | Outcomes | `Result`/`Option` and the error cases |
| bn_math.dfy | BnMath | truncating division |
| bytes.dfy | Bytes | little-endian u64 encoding |
| curve.dfy | Curve | calcualtor.ts |
| layout.dfy | Layout | the running-offset field readers of parse.ts |
| amm_types.dfy | AmmTypes | the AMM v4 records |
| amm_parse.dfy | AmmParse | `parseAmmInfo` and its inverse |
| amm_instruction.dfy | AmmInstruction | `createRayV4SwapBaseInInstruction` |
| amm_swap.dfy | AmmSwap | `getSwapInstruction` |
| cpmm_instruction.dfy | CpmmInstruction | `anchorDataBuf` and the CPMM builders |
| cpmm_pool.dfy | CpmmPool | `getRpcPoolInfos`, `getRpcPoolInfo`, `computeSwapAmount` |
| fees.dfy | Fees | the service fee and `addFeeToTx` |

Source paths below are relative to the repository root.

## Model

| member | source | states |
|---|---|---|
| BnMath.Div | src/blockchain/raydium/cpmm/curve/calcualtor.ts:26 | BN division truncates: the remainder has the dividend's sign and is smaller than the divisor in magnitude |
| BnMath.Rem | src/blockchain/raydium/cpmm/curve/calcualtor.ts:14-19 | `checkedRem` returns the truncating remainder: dividend = divisor × quotient + remainder, with the remainder carrying the dividend's sign |
| Curve.CeilDiv | src/blockchain/raydium/cpmm/curve/calcualtor.ts:6-8 | fails exactly on a zero denominator; on a non-negative product and a positive denominator, the result is the exact ceiling of amount × numerator / denominator |
| Curve.TradingFee | src/blockchain/raydium/cpmm/curve/calcualtor.ts:10-12 | the fee is the ceiling of amount × rate / 10^6, and at a rate of at most 100% it lies between 0 and the amount |
| Curve.CheckedCeilDiv | src/blockchain/raydium/cpmm/curve/calcualtor.ts:23-28 | a zero divisor and a zero floor quotient are the two errors |
| Curve.CheckedCeilDivIsCeiling | src/blockchain/raydium/cpmm/curve/calcualtor.ts:23-42 | for a non-negative dividend and a positive divisor: succeeds iff dividend ≥ divisor; the first component is then the ceiling quotient; the second is the divisor when the division is exact, else the ceiling of dividend / first component |
| Curve.SwapWithoutFees | src/blockchain/raydium/cpmm/curve/calcualtor.ts:44-56 | an empty new source reserve fails on the zero divisor; a zero output is an error, so any success is non-zero |
| Curve.SwapWithoutFeesIsFloor | src/blockchain/raydium/cpmm/curve/calcualtor.ts:44-56 | on non-negative reserves and input: succeeds iff S·D ≥ S+a and D·a ≥ S+a; the output is then floor(D·a/(S+a)), strictly between 0 and D, and the reserves' product does not shrink |
| Curve.CurveSwap | src/blockchain/raydium/cpmm/curve/calcualtor.ts:58-75 | the whole input counts as swapped and the fee is `TradingFee`; the new destination reserve plus the output equals the old reserve; within range, success and the output are those of the fee-free swap on the input less the fee |
| Curve.OutputNonIncreasingInFeeRate | src/blockchain/raydium/cpmm/curve/calcualtor.ts:58-75 | for the same input and reserves, a higher fee rate never yields more output |
| Curve.WorkedExample | src/blockchain/raydium/cpmm/curve/calcualtor.ts:58-75 | 10 000 in against reserves 1 000 000 / 2 000 000 at 0.25% pays a fee of 25 and receives 19 752 |
| Curve.FeeCanLeaveOutputUnchanged | src/blockchain/raydium/cpmm/curve/calcualtor.ts:58-75 | with reserves 10 / 3 and an input of 10, the output is 1 at both 0.25% and 0%: rounding can absorb the fee entirely |
| Curve.DivCeil | src/blockchain/raydium/cpmm/curve/calcualtor.ts:110-111 | `BNDivCeil` fails exactly on a zero divisor and is otherwise the exact ceiling |
| Curve.SwapBaseOut | src/blockchain/raydium/cpmm/curve/calcualtor.ts:100-112 | fails iff the fee rate is 100%; the real output is the request clamped below the output reserve; the fee-free input is the ceiling that keeps the product from shrinking; the input is grossed up by the fee rate; and fee + fee-free input = input |
| Bytes.WriteU64 | src/blockchain/raydium/amm/src/instructions.ts:53-56 | `writeBigUInt64LE` accepts exactly [0, 2^64) and writes 8 bytes whose little-endian value is the number |
| Bytes.ReadU64 | src/blockchain/raydium/amm/src/parse.ts:9-13 | `readBigUInt64LE` succeeds iff 8 bytes remain; the value is below 2^64 and its encoding is those bytes |
| Bytes.ReadWriteU64 | src/blockchain/raydium/amm/src/parse.ts:9-13 | reading back a written u64, wherever it sits in a buffer, gives the number |
| Bytes.WriteReadU64 | src/blockchain/raydium/amm/src/instructions.ts:53-56 | writing the value of any 8 bytes gives those bytes back |
| Layout.ReadField | src/blockchain/raydium/amm/src/parse.ts:9-26 | the u64 and u128 readers succeed exactly when `readBigUInt64LE` at the offset does, and return its value, so a u128 keeps only its low 8 bytes; a key is the 32-byte slice at the offset |
| Layout.ReadFieldsCharacterized | src/blockchain/raydium/amm/src/parse.ts:6-26 | reading fields with a running offset succeeds iff every field fits at its offset, and then yields each field read at that offset |
| Layout.ReadWriteFields | src/blockchain/raydium/amm/src/parse.ts:6-26 | the running-offset reader inverts the field writer, whatever bytes surround the written block |
| Layout.ReadFieldsLocal | src/blockchain/raydium/amm/src/parse.ts:6-26 | two buffers that agree on every byte a reader looks at decode to the same fields |
| AmmParse.ParseAmmInfo | src/blockchain/raydium/amm/src/parse.ts:5-96 | succeeds iff the buffer holds at least 752 bytes; then each of the 54 fields is the value read at its running offset, and every number fits in a u64 |
| AmmParse.ParsedFieldOffsets | src/blockchain/raydium/amm/src/parse.ts:29-93 | the trade and swap fee ratios sit at bytes 144, 152, 176 and 184; pool open time at 224; the vaults and mints from 336; the market accounts from 496; the LP amount at 720 |
| AmmParse.ParseEncode | src/blockchain/raydium/amm/src/parse.ts:5-96 | decoding the account image of any u64-bounded record, whatever follows it, gives the record back |
| AmmParse.ParseIgnoresU128HighBytes | src/blockchain/raydium/amm/src/parse.ts:15-19 | buffers that differ only in the high 8 bytes of the four u128 counters decode alike |
| AmmParse.ParseIgnoresTail | src/blockchain/raydium/amm/src/parse.ts:5-96 | the decoded record depends only on the first 752 bytes |
| AmmInstruction.CreateRayV4SwapBaseInInstruction | src/blockchain/raydium/amm/src/instructions.ts:51-86 | fails iff an amount is outside the u64 range; otherwise the data is tag 9 followed by both amounts little-endian, and the 18 accounts are those given, in order, with only the owner signing and five read-only slots |
| AmmInstruction.DecodeCreate | src/blockchain/raydium/amm/src/instructions.ts:52-85 | decoding a built instruction gives back its accounts and amounts |
| AmmInstruction.CreateDecode | src/blockchain/raydium/amm/src/instructions.ts:52-85 | every well-formed `swap_base_in` instruction is the one the builder makes from its decoded contents |
| AmmSwap.OutputMintAsWritten | src/blockchain/raydium/amm/index.ts:259-264 | the identity test agrees with the by-value output mint unless the input is a separate key object equal to the quote mint, and then the output is the input mint itself |
| AmmSwap.GetSwapInstruction | src/blockchain/raydium/amm/index.ts:245-296 | a missing pool record fails; otherwise the call fails iff an amount leaves the u64 range, and the instruction wires: the AMM into its own slot and all eight serum slots; the pool vaults; the authority derived under the cluster's program; the user's source account; and the destination account of the chosen output mint |
| AmmSwap.FreshInputMintSwapsIntoSource | src/blockchain/raydium/amm/index.ts:259-267 | with a freshly built input key equal to the quote mint, the destination token account equals the source token account |
| AmmSwap.OutputMint | src/blockchain/raydium/amm/index.ts:259-264 | compared by value, the output is one of the pool's mints, and for an input that is one of two distinct pool mints, it is the other one |
| AmmSwap.GetSwapInstructionByValue | src/blockchain/raydium/amm/index.ts:245-296 | a missing pool record is an error; otherwise it fails, with a range error, exactly when an amount is outside the u64 range; a built instruction carries both amounts unchanged, the fixed wiring, and delivers into the user's account of the by-value output mint |
| AmmSwap.ByValueSwapsToOtherMint | src/blockchain/raydium/amm/index.ts:259-267 | compared by value, a swap from either of two distinct pool mints delivers into the account of the other mint |
| AmmSwap.AsWrittenAgreesUnlessFreshQuote | src/blockchain/raydium/amm/index.ts:259-264 | the as-written and by-value versions agree except when a fresh key equal to the quote mint is passed |
| CpmmInstruction.DiscriminatorsDistinct | src/blockchain/raydium/cpmm/index.ts:11-19 | the seven Anchor discriminators are 8 bytes each and pairwise distinct |
| CpmmInstruction.MakeSwapCpmmBaseInInstruction | src/blockchain/raydium/cpmm/index.ts:322-373 | fails iff an amount is outside the u64 range; otherwise the data is the `swapBaseInput` discriminator followed by both amounts little-endian, and the 13 accounts are those given, in order, with only the payer signing |
| CpmmInstruction.DecodeMakeSwap | src/blockchain/raydium/cpmm/index.ts:322-373 | decoding a built swap instruction gives back its accounts and amounts |
| CpmmInstruction.MakeSwapDecode | src/blockchain/raydium/cpmm/index.ts:322-373 | every well-formed swap instruction is the one the builder makes from its decoded contents |
| CpmmInstruction.MakeCreateCpmmPoolInInstruction | src/blockchain/raydium/cpmm/index.ts:21-87 | fails iff an argument is outside the u64 range; otherwise the data is the `initialize` discriminator and three u64s; the creator signs; the pool account signs exactly when it is not the derived pool address; the fixed program slots and the writable set are as listed |
| CpmmInstruction.DecodeMakeCreate | src/blockchain/raydium/cpmm/index.ts:21-87 | the accounts of a built `initialize` instruction, read back by position, are those it was built from |
| CpmmPool.FirstAbsent | src/blockchain/raydium/cpmm/index.ts:109-111 | a batch lookup reports nothing iff every key is present, and otherwise the first missing key in request order |
| CpmmPool.FirstAbsentDistinct | src/blockchain/raydium/cpmm/index.ts:117-135 | collecting the config ids into a set first does not change which missing config is reported |
| CpmmPool.VaultsPresent | src/blockchain/raydium/cpmm/index.ts:140-150 | all fetched vaults exist iff both vaults of every pool exist |
| CpmmPool.GetRpcPoolInfos | src/blockchain/raydium/cpmm/index.ts:93-171 | succeeds iff every pool, every config (when requested) and every vault exists. Failures report, in this order: the first missing pool; then the first missing config, in pool order; then the first missing vault (A before B, pool by pool). On success the keys are exactly the requested ids, with reserves = vault balance − protocol fees − fund fees |
| CpmmPool.GetRpcPoolInfo | src/blockchain/raydium/cpmm/index.ts:89-91 | a single pool loads iff its accounts exist, and an absent pool is reported by id |
| CpmmPool.BatchAgreesWithSingle | src/blockchain/raydium/cpmm/index.ts:89-91 | a pool loaded in a batch has the record it gets when loaded alone |
| CpmmPool.ComputeSwapAmount | src/blockchain/raydium/cpmm/index.ts:277-320 | fails on a missing config, and otherwise exactly when `curveSwap` does, on the reserves oriented by whether the output is mint B; the output and fee are the curve's, the whole input is traded, and the minimum output is floor(output × keep / 10 000), between 0 and the output |
| CpmmPool.QuoteFromVaults | src/blockchain/raydium/cpmm/index.ts:154-167 | a quote on a freshly loaded pool is the curve on the vault balances less the fees owed, oriented by the output mint, at the fee rate of the pool's own config; a pool loaded without its config cannot be quoted |
| CpmmPool.MinAmountOutBounds | src/blockchain/raydium/cpmm/index.ts:309 | the slippage-scaled minimum output is the floor quotient and never exceeds the output |
| CpmmPool.QuoteEncodes | src/blockchain/raydium/cpmm/index.ts:309-366 | for a u64 input on a pool whose output reserve fits in a u64, the quote's minimum output is accepted by the swap builder |
| Fees.ServiceFeeAmount | src/index.ts:190-192 | the fee is the service's basis points of the base, truncated toward zero (floor for a non-negative product, ceiling for a negative one), plus 890 880 lamports per referral |
| Fees.AfterServiceFee | src/index.ts:1040-1044 | the amount left plus the fee is the base; for basis points up to 100% it is at least −890 880 per referral and at most the base less that amount |
| Fees.SmallQuoteCannotBeEncoded | src/index.ts:342-350 | a quote below 890 880 lamports per referral leaves a negative minimum output, which the swap builder rejects |
| Fees.Shares | src/index.ts:1400-1406 | the first referral share is its basis points of the fee; each later share is its basis points of the previous share, truncated |
| Fees.PayReferrals | src/index.ts:1400-1417 | the referral loop appends one transfer of share + 890 880 per positive share and leaves the fee less the sum of all shares |
| Fees.AddFeeToTx | src/index.ts:1384-1429 | the transaction gains exactly the fee transfers: nothing for a non-positive fee; otherwise the referral transfers, then the positive remainder to the service |
| Fees.ReferralTransfersShape | src/index.ts:1408-1416 | at most one referral transfer per referral, each from the payer and above 890 880 lamports |
| Fees.SharesNonNegative | src/index.ts:1403-1404 | non-negative basis points give non-negative shares of a non-negative fee |
| Fees.FeePaidOut | src/index.ts:1399-1427 | with a positive fee: at most one transfer per referral plus one; all transfers are positive and from the payer; together they carry max(fee, sum of shares) plus 890 880 per referral transfer |
| Fees.HalfSharesNeverOverpay | src/index.ts:1402-1406 | when no referral takes more than 50%, the compounding shares sum to at most the fee |
| Fees.CompoundingCanOverpay | src/index.ts:1399-1427 | referrals at 100% and 80% of a 1 000-lamport fee receive 1 000 and 800 (plus 890 880 each), and the service receives nothing |

## Left out

- I/O is not modelled: RPC connections, `getMultipleAccountsInfoWithCustomFlags`, transaction sending, logging. The three batched fetches of `getRpcPoolInfos` are maps from address to decoded account, and an absent address is a null account.
- Account decoding by the SDK layouts (`CpmmPoolInfoLayout`, `CpmmConfigInfoLayout`, the SPL `AccountLayout`) is foreign, so the maps hold decoded records.
- Floating-point and `Decimal` values are not modelled: `poolPrice`, `executionPrice`, `priceImpact`, `currentPrice` and the decimals of `swapBaseOut`. They feed no integer result.
- `getPoolInfoFromRpc` only reshapes `getRpcPoolInfo`'s record into API records with decimal amounts. It has no integer logic of its own.
- Program-address and associated-token-account derivation (`findProgramAddressSync`, `getAssociatedTokenAddressSync`, `getCpmmPdaPoolId`) are hashes outside this code, and enter as function parameters.
- The `mashmallow` u64 layout is not part of this model. The CPMM builders assume it rejects values outside [0, 2^64) as `writeBigUInt64LE` does.
- Layout.ReadField: `readPublicKey` slices without a bounds check, so near the end of the buffer it yields a slice shorter than 32 bytes rather than failing. The model reports an out-of-range read there instead.
- AmmParse.ParseAmmInfo: on a buffer too short for a public key, the source passes a short slice to the `PublicKey` constructor (foreign). The model reports an out-of-range read there instead. The overall verdict is the same, because a later u64 read fails on such a buffer anyway.
- AmmSwap.GetSwapInstruction: the amounts arrive as JavaScript numbers converted with `BigInt`. The model takes integers, so a non-integer or imprecise number (above 2^53) is not modelled.
- CpmmPool.ComputeSwapAmount: the factor `(1 - slippage) * 10000` is a floating-point product. It enters as the integer `keepBps`, the value `new BN` would receive.
- Fees.ServiceFeeAmount: `Math.floor(percent * 100)` is computed in floating point. The basis points enter as an integer.
- Fees.Shares: as for the service fee, referral basis points enter as integers.
- Curve.SwapBaseOut: `BNDivCeil` belongs to the Raydium SDK, outside this code. It is modelled as the exact ceiling with a zero-divisor error. `priceImpact` is left out as above.
- Curve.CheckedCeilDiv: its own contract states only the two error cases. The success value is stated by Curve.CheckedCeilDivIsCeiling, for a non-negative dividend and a positive divisor.
- The remaining adapter methods (`buy`, `sell` and their variants) sequence the modelled operations with RPC calls and token-account creation. Only their fee formula and fee deduction are modelled.

## Findings

| source | as written | input that shows it | evidently intended | confidence | as-written member | corrected member |
|---|---|---|---|---|---|---|
| src/blockchain/raydium/amm/index.ts:260 | `inputMint == poolInfo.quoteMint` compares two `PublicKey` objects by identity | every caller passes `inputMint: new PublicKey(...)` (src/index.ts:355, 428, 500, 635, 721, 794, 866), so selling into the quote mint gives quote as the output mint, and the destination token account equals the source account | compare by value (`inputMint.equals(poolInfo.quoteMint)`), so the output is the pool's other mint | high, not executed | AmmSwap.GetSwapInstruction, AmmSwap.FreshInputMintSwapsIntoSource | AmmSwap.GetSwapInstructionByValue, AmmSwap.ByValueSwapsToOtherMint |
