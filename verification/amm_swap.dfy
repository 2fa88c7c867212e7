/** `getSwapInstruction` of the AMM v4 integration (amm/index.ts): picks
    the output mint, derives the user token accounts and the AMM
    authority, and wires the pool into a `swap_base_in` instruction. The
    associated-token-account and program-address derivations are foreign
    and enter as parameters. */
module AmmSwap {
  import opened Solana
  import opened Outcomes
  import opened AmmTypes
  import opened AmmInstruction

  /** `getAssociatedTokenAddressSync(mint, owner)`. */
  type AtaFn = (PublicKey, PublicKey) -> PublicKey

  /** The address half of `PublicKey.findProgramAddressSync(seeds, program)`. */
  type PdaFn = (seq<seq<byte>>, PublicKey) -> PublicKey

  /** The program the AMM authority is derived under. */
  function AuthorityProgram(cluster: string): PublicKey {
    if cluster == "mainnet" then RaydiumV4MainnetProgram else RaydiumV4DevnetProgram
  }

  /** The accounts of the swap once the output mint is known. */
  function SwapWiring(info: AmmInfo, acct: RaydiumV4SwapAccount, outputMint: PublicKey, cluster: string,
                      ata: AtaFn, pda: PdaFn): SwapBaseInAccounts
  {
    var amm := acct.amm;
    SwapBaseInAccounts(
      programId := acct.ammProgram,
      tokenProgram := TokenProgramId,
      amm := amm,
      ammAuthority := pda([RayV4AuthSeed], AuthorityProgram(cluster)),
      ammOpenOrders := amm,
      ammTargetOrders := amm,
      poolCoinTokenAccount := acct.ammCoinVault,
      poolPcTokenAccount := acct.ammPcVault,
      serumProgram := amm,
      serumMarket := amm,
      serumBids := amm,
      serumAsks := amm,
      serumEventQueue := amm,
      serumCoinVaultAccount := amm,
      serumPcVaultAccount := amm,
      serumVaultSigner := amm,
      userSourceTokenAccount := ata(acct.inputMint, acct.userSourceOwner),
      userDestinationTokenAccount := ata(outputMint, acct.userSourceOwner),
      userSourceOwner := acct.userSourceOwner)
  }

  /** What every swap instruction built for `acct` looks like, whatever the
      output mint: the AMM program of `acct`, the token program, the AMM
      address in its own slot, the open-orders and target-orders slots and
      all eight serum slots, the pool vaults, the authority derived from
      the authority seed under the cluster's program, and the user's
      source account. */
  predicate WiredFor(ix: Instruction, acct: RaydiumV4SwapAccount, cluster: string, ata: AtaFn, pda: PdaFn) {
    var d := DecodeSwapBaseIn(ix);
    d.Some? &&
    var a := d.value.0;
    a.programId == acct.ammProgram
    && a.tokenProgram == TokenProgramId
    && a.ammAuthority == pda([RayV4AuthSeed], AuthorityProgram(cluster))
    && a.amm == acct.amm && a.ammOpenOrders == acct.amm && a.ammTargetOrders == acct.amm
    && a.serumProgram == acct.amm && a.serumMarket == acct.amm && a.serumBids == acct.amm
    && a.serumAsks == acct.amm && a.serumEventQueue == acct.amm && a.serumCoinVaultAccount == acct.amm
    && a.serumPcVaultAccount == acct.amm && a.serumVaultSigner == acct.amm
    && a.poolCoinTokenAccount == acct.ammCoinVault && a.poolPcTokenAccount == acct.ammPcVault
    && a.userSourceTokenAccount == ata(acct.inputMint, acct.userSourceOwner)
    && a.userSourceOwner == acct.userSourceOwner
  }

  /** The output mint as written: `inputMint == poolInfo.quoteMint` compares
      two key objects by identity, so `sameObject` says whether the caller
      passed the pool record's own `quoteMint` object. Identity implies
      equal values; equal values do not imply identity. It agrees with the
      by-value choice unless a separate key object equal to the quote mint
      is passed, and then the output is the input mint itself. */
  function OutputMintAsWritten(info: AmmInfo, inputMint: PublicKey, sameObject: bool): (m: PublicKey)
    requires sameObject ==> inputMint == info.quoteMint
    ensures m == info.baseMint || m == info.quoteMint
    ensures sameObject || inputMint != info.quoteMint ==> m == OutputMint(info, inputMint)
    ensures !sameObject && inputMint == info.quoteMint ==> m == inputMint
  {
    if sameObject then info.baseMint else info.quoteMint
  }

  /** `getSwapInstruction` as written. A missing pool record is an error;
      otherwise the result is the `swap_base_in` instruction for the
      wired accounts and the two amounts unchanged, and fails only when an
      amount is outside the u64 range. */
  function GetSwapInstruction(poolInfo: Option<AmmInfo>, amountIn: int, minAmountOut: int,
                              acct: RaydiumV4SwapAccount, cluster: string, sameObject: bool,
                              ata: AtaFn, pda: PdaFn): (r: Result<Instruction>)
    requires poolInfo.Some? && sameObject ==> acct.inputMint == poolInfo.value.quoteMint
    ensures poolInfo.None? ==> r == Err(PoolInfoNotLoaded)
    ensures poolInfo.Some? ==> (r.Ok? <==> 0 <= amountIn < Bytes.U64Limit && 0 <= minAmountOut < Bytes.U64Limit)
    ensures r.Err? && poolInfo.Some? ==> r.error == ValueOutOfRange
    ensures r.Ok? ==> WiredFor(r.value, acct, cluster, ata, pda)
    ensures r.Ok? ==> var (a, x, y) := DecodeSwapBaseIn(r.value).value;
      x == amountIn && y == minAmountOut
      && a.userDestinationTokenAccount
         == ata(OutputMintAsWritten(poolInfo.value, acct.inputMint, sameObject), acct.userSourceOwner)
  {
    if poolInfo.None? then Err(PoolInfoNotLoaded)
    else
      var info := poolInfo.value;
      var outputMint := OutputMintAsWritten(info, acct.inputMint, sameObject);
      var wiring := SwapWiring(info, acct, outputMint, cluster, ata, pda);
      var r := CreateRayV4SwapBaseInInstruction(wiring, amountIn, minAmountOut);
      assert r.Ok? ==> DecodeSwapBaseIn(r.value) == Some((wiring, amountIn, minAmountOut)) by {
        if r.Ok? { DecodeCreate(wiring, amountIn, minAmountOut); }
      }
      r
  }

  /** The callers build `inputMint` as a fresh key object, so the identity
      test never holds: a swap whose input is the pool's quote mint gets
      the quote mint as its output too, and the destination account is the
      source account. */
  lemma FreshInputMintSwapsIntoSource(info: AmmInfo, amountIn: int, minAmountOut: int,
                                      acct: RaydiumV4SwapAccount, cluster: string, ata: AtaFn, pda: PdaFn)
    requires acct.inputMint == info.quoteMint
    requires GetSwapInstruction(Some(info), amountIn, minAmountOut, acct, cluster, false, ata, pda).Ok?
    ensures var ix := GetSwapInstruction(Some(info), amountIn, minAmountOut, acct, cluster, false, ata, pda).value;
      ix.keys[15].pubkey == ix.keys[16].pubkey
  {
    var ix := GetSwapInstruction(Some(info), amountIn, minAmountOut, acct, cluster, false, ata, pda).value;
    assert DecodeSwapBaseIn(ix).Some?;
  }

  /** The output mint by key value: one of the pool's mints, and for an
      input that is one of two distinct pool mints, the other one. */
  function OutputMint(info: AmmInfo, inputMint: PublicKey): (m: PublicKey)
    ensures m == info.baseMint || m == info.quoteMint
    ensures info.baseMint != info.quoteMint && (inputMint == info.baseMint || inputMint == info.quoteMint) ==>
      m != inputMint
  {
    if inputMint == info.quoteMint then info.baseMint else info.quoteMint
  }

  /** `getSwapInstruction` with the mints compared by value. */
  function GetSwapInstructionByValue(poolInfo: Option<AmmInfo>, amountIn: int, minAmountOut: int,
                                     acct: RaydiumV4SwapAccount, cluster: string,
                                     ata: AtaFn, pda: PdaFn): (r: Result<Instruction>)
    ensures poolInfo.None? ==> r == Err(PoolInfoNotLoaded)
    ensures poolInfo.Some? ==> (r.Ok? <==> 0 <= amountIn < Bytes.U64Limit && 0 <= minAmountOut < Bytes.U64Limit)
    ensures r.Err? && poolInfo.Some? ==> r.error == ValueOutOfRange
    ensures r.Ok? ==> WiredFor(r.value, acct, cluster, ata, pda)
    ensures r.Ok? ==> var (a, x, y) := DecodeSwapBaseIn(r.value).value;
      x == amountIn && y == minAmountOut
      && a.userDestinationTokenAccount == ata(OutputMint(poolInfo.value, acct.inputMint), acct.userSourceOwner)
  {
    if poolInfo.None? then Err(PoolInfoNotLoaded)
    else
      var info := poolInfo.value;
      var wiring := SwapWiring(info, acct, OutputMint(info, acct.inputMint), cluster, ata, pda);
      var r := CreateRayV4SwapBaseInInstruction(wiring, amountIn, minAmountOut);
      assert r.Ok? ==> DecodeSwapBaseIn(r.value) == Some((wiring, amountIn, minAmountOut)) by {
        if r.Ok? { DecodeCreate(wiring, amountIn, minAmountOut); }
      }
      r
  }

  /** Compared by value, a swap from one of the pool's two distinct mints
      delivers into the account of the other mint. */
  lemma ByValueSwapsToOtherMint(info: AmmInfo, amountIn: int, minAmountOut: int,
                                acct: RaydiumV4SwapAccount, cluster: string, ata: AtaFn, pda: PdaFn)
    requires info.baseMint != info.quoteMint
    requires acct.inputMint == info.baseMint || acct.inputMint == info.quoteMint
    requires GetSwapInstructionByValue(Some(info), amountIn, minAmountOut, acct, cluster, ata, pda).Ok?
    ensures var ix := GetSwapInstructionByValue(Some(info), amountIn, minAmountOut, acct, cluster, ata, pda).value;
      var m := if acct.inputMint == info.baseMint then info.quoteMint else info.baseMint;
      m != acct.inputMint && ix.keys[16].pubkey == ata(m, acct.userSourceOwner)
  {
    var wiring := SwapWiring(info, acct, OutputMint(info, acct.inputMint), cluster, ata, pda);
    DecodeCreate(wiring, amountIn, minAmountOut);
  }

  /** The two agree whenever the caller passes the pool record's own quote
      mint object, and whenever the input is not the quote mint at all. */
  lemma AsWrittenAgreesUnlessFreshQuote(poolInfo: Option<AmmInfo>, amountIn: int, minAmountOut: int,
                                        acct: RaydiumV4SwapAccount, cluster: string, sameObject: bool,
                                        ata: AtaFn, pda: PdaFn)
    requires poolInfo.Some? && sameObject ==> acct.inputMint == poolInfo.value.quoteMint
    requires poolInfo.Some? ==> sameObject || acct.inputMint != poolInfo.value.quoteMint
    ensures GetSwapInstruction(poolInfo, amountIn, minAmountOut, acct, cluster, sameObject, ata, pda)
         == GetSwapInstructionByValue(poolInfo, amountIn, minAmountOut, acct, cluster, ata, pda)
  {
  }
}
