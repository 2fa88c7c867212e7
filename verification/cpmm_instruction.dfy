/** Instruction builders of the Raydium CPMM program (cpmm/index.ts): an
    eight-byte Anchor discriminator followed by u64 little-endian
    arguments, and positional account lists. The argument layout comes
    from an unseen `struct`/`u64` helper, modelled as the eight-byte
    little-endian writer with a range error. */
module CpmmInstruction {
  import opened Solana
  import opened Outcomes
  import opened Bytes

  // The instruction discriminators (`anchorDataBuf`).
  const Initialize: seq<byte> := [175, 175, 109, 31, 13, 152, 155, 237]
  const Deposit: seq<byte> := [242, 35, 198, 137, 82, 225, 242, 182]
  const Withdraw: seq<byte> := [183, 18, 70, 156, 148, 109, 161, 34]
  const SwapBaseInput: seq<byte> := [143, 190, 90, 218, 196, 30, 51, 222]
  const SwapBaseOutput: seq<byte> := [55, 217, 98, 86, 163, 74, 180, 173]
  const LockCpLiquidity: seq<byte> := [216, 157, 29, 78, 38, 51, 31, 26]
  const CollectCpFee: seq<byte> := [8, 30, 51, 199, 209, 184, 247, 133]

  function Discriminators(): seq<seq<byte>> {
    [Initialize, Deposit, Withdraw, SwapBaseInput, SwapBaseOutput, LockCpLiquidity, CollectCpFee]
  }

  /** The first byte of each discriminator, in `Discriminators()` order. */
  const FirstBytes: seq<int> := [175, 242, 183, 143, 55, 216, 8]

  lemma DiscriminatorShapes()
    ensures |Discriminators()| == |FirstBytes|
    ensures forall i :: 0 <= i < |Discriminators()| ==> |Discriminators()[i]| == 8
    ensures forall i :: 0 <= i < |Discriminators()| ==> Discriminators()[i][0] as int == FirstBytes[i]
  {
  }

  /** The seven discriminators are eight bytes each and already differ in
      their first byte, so the first eight bytes of a payload name its
      instruction. */
  lemma DiscriminatorsDistinct()
    ensures forall i :: 0 <= i < |Discriminators()| ==> |Discriminators()[i]| == 8
    ensures forall i, j :: 0 <= i < j < |Discriminators()| ==> Discriminators()[i] != Discriminators()[j]
  {
    DiscriminatorShapes();
    var ds := Discriminators();
    forall i, j | 0 <= i < j < |ds|
      ensures ds[i] != ds[j]
    {
      assert FirstBytes[i] != FirstBytes[j];
      assert ds[i][0] != ds[j][0];
    }
  }

  // ----- swap_base_input -----

  /** The accounts `makeSwapCpmmBaseInInstruction` is given. */
  datatype SwapAccounts = SwapAccounts(
    programId: PublicKey,
    payer: PublicKey,
    authority: PublicKey,
    configId: PublicKey,
    poolId: PublicKey,
    userInputAccount: PublicKey,
    userOutputAccount: PublicKey,
    inputVault: PublicKey,
    outputVault: PublicKey,
    inputTokenProgram: PublicKey,
    outputTokenProgram: PublicKey,
    inputMint: PublicKey,
    outputMint: PublicKey,
    observationId: PublicKey)

  const SwapAccountCount: nat := 13

  /** The positions the swap writes: the pool, both user token accounts,
      both vaults and the observation account. */
  predicate SwapWritableSlot(i: int) {
    3 <= i <= 7 || i == 12
  }

  /** Flags of the swap: the payer (position 0) is the only signer, and
      is read-only. */
  predicate SwapFlags(keys: seq<AccountMeta>) {
    |keys| == SwapAccountCount
    && (forall i :: 0 <= i < |keys| ==> (keys[i].isSigner <==> i == 0))
    && (forall i :: 0 <= i < |keys| ==> (keys[i].isWritable <==> SwapWritableSlot(i)))
  }

  function SwapMetas(a: SwapAccounts): seq<AccountMeta> {
    [ AccountMeta(a.payer, true, false),
      AccountMeta(a.authority, false, false),
      AccountMeta(a.configId, false, false),
      AccountMeta(a.poolId, false, true),
      AccountMeta(a.userInputAccount, false, true),
      AccountMeta(a.userOutputAccount, false, true),
      AccountMeta(a.inputVault, false, true),
      AccountMeta(a.outputVault, false, true),
      AccountMeta(a.inputTokenProgram, false, false),
      AccountMeta(a.outputTokenProgram, false, false),
      AccountMeta(a.inputMint, false, false),
      AccountMeta(a.outputMint, false, false),
      AccountMeta(a.observationId, false, true) ]
  }

  function SwapAccountsOf(programId: PublicKey, keys: seq<AccountMeta>): SwapAccounts
    requires |keys| == SwapAccountCount
  {
    SwapAccounts(
      programId, keys[0].pubkey, keys[1].pubkey, keys[2].pubkey, keys[3].pubkey,
      keys[4].pubkey, keys[5].pubkey, keys[6].pubkey, keys[7].pubkey, keys[8].pubkey,
      keys[9].pubkey, keys[10].pubkey, keys[11].pubkey, keys[12].pubkey)
  }

  /** `makeSwapCpmmBaseInInstruction`: the `swapBaseInput` discriminator,
      then `amountIn` and `amounOutMin`, over the given accounts in order. */
  function MakeSwapCpmmBaseInInstruction(a: SwapAccounts, amountIn: int, amounOutMin: int): (r: Result<Instruction>)
    ensures r.Ok? <==> 0 <= amountIn < U64Limit && 0 <= amounOutMin < U64Limit
    ensures r.Err? ==> r.error == ValueOutOfRange
    ensures r.Ok? ==> r.value.programId == a.programId
    ensures r.Ok? ==> |r.value.data| == 24 && r.value.data[..8] == SwapBaseInput
    ensures r.Ok? ==> LeValue(r.value.data[8..16]) == amountIn && LeValue(r.value.data[16..24]) == amounOutMin
    ensures r.Ok? ==> SwapFlags(r.value.keys) && SwapAccountsOf(a.programId, r.value.keys) == a
  {
    var amountInBuf :- WriteU64(amountIn);
    var amounOutMinBuf :- WriteU64(amounOutMin);
    var data := SwapBaseInput + amountInBuf + amounOutMinBuf;
    assert data[8..16] == amountInBuf && data[16..24] == amounOutMinBuf;
    Ok(Instruction(a.programId, SwapMetas(a), data))
  }

  function DecodeSwap(ix: Instruction): Option<(SwapAccounts, nat, nat)> {
    if |ix.data| == 24 && ix.data[..8] == SwapBaseInput && SwapFlags(ix.keys) then
      Some((SwapAccountsOf(ix.programId, ix.keys), LeValue(ix.data[8..16]), LeValue(ix.data[16..24])))
    else
      None
  }

  lemma DecodeMakeSwap(a: SwapAccounts, amountIn: int, amounOutMin: int)
    requires MakeSwapCpmmBaseInInstruction(a, amountIn, amounOutMin).Ok?
    ensures DecodeSwap(MakeSwapCpmmBaseInInstruction(a, amountIn, amounOutMin).value) == Some((a, amountIn, amounOutMin))
  {
  }

  lemma SwapMetasOfAccounts(programId: PublicKey, keys: seq<AccountMeta>)
    requires SwapFlags(keys)
    ensures SwapMetas(SwapAccountsOf(programId, keys)) == keys
  {
    var built := SwapMetas(SwapAccountsOf(programId, keys));
    forall i | 0 <= i < SwapAccountCount
      ensures built[i] == keys[i]
    {
      assert keys[i].isSigner <==> i == 0;
      assert keys[i].isWritable <==> SwapWritableSlot(i);
    }
  }

  /** Every well-formed swap instruction is the one the builder makes from
      its decoded accounts and amounts. */
  lemma MakeSwapDecode(ix: Instruction)
    requires DecodeSwap(ix).Some?
    ensures var (a, amountIn, amounOutMin) := DecodeSwap(ix).value;
      MakeSwapCpmmBaseInInstruction(a, amountIn, amounOutMin) == Ok(ix)
  {
    WriteReadU64(ix.data[8..16]);
    WriteReadU64(ix.data[16..24]);
    SwapMetasOfAccounts(ix.programId, ix.keys);
    assert ix.data == ix.data[..8] + ix.data[8..16] + ix.data[16..24];
  }

  // ----- initialize -----

  /** The accounts `makeCreateCpmmPoolInInstruction` is given. */
  datatype CreateAccounts = CreateAccounts(
    programId: PublicKey,
    creator: PublicKey,
    configId: PublicKey,
    authority: PublicKey,
    poolId: PublicKey,
    mintA: PublicKey,
    mintB: PublicKey,
    lpMint: PublicKey,
    userVaultA: PublicKey,
    userVaultB: PublicKey,
    userLpAccount: PublicKey,
    vaultA: PublicKey,
    vaultB: PublicKey,
    createPoolFeeAccount: PublicKey,
    mintProgramA: PublicKey,
    mintProgramB: PublicKey,
    observationId: PublicKey)

  /** `getCpmmPdaPoolId(programId, configId, mintA, mintB).publicKey`. */
  type PoolPdaFn = (PublicKey, PublicKey, PublicKey, PublicKey) -> PublicKey

  const CreateAccountCount: nat := 20

  /** The positions `initialize` writes: the pool, the LP mint, the
      creator's three token accounts, both vaults, the fee account and the
      observation account. */
  predicate CreateWritableSlot(i: int) {
    i == 3 || 6 <= i <= 13
  }

  function CreateMetas(a: CreateAccounts, pdaPoolId: PublicKey): seq<AccountMeta> {
    [ AccountMeta(a.creator, true, false),
      AccountMeta(a.configId, false, false),
      AccountMeta(a.authority, false, false),
      AccountMeta(a.poolId, a.poolId != pdaPoolId, true),
      AccountMeta(a.mintA, false, false),
      AccountMeta(a.mintB, false, false),
      AccountMeta(a.lpMint, false, true),
      AccountMeta(a.userVaultA, false, true),
      AccountMeta(a.userVaultB, false, true),
      AccountMeta(a.userLpAccount, false, true),
      AccountMeta(a.vaultA, false, true),
      AccountMeta(a.vaultB, false, true),
      AccountMeta(a.createPoolFeeAccount, false, true),
      AccountMeta(a.observationId, false, true),
      AccountMeta(TokenProgramId, false, false),
      AccountMeta(a.mintProgramA, false, false),
      AccountMeta(a.mintProgramB, false, false),
      AccountMeta(AssociatedTokenProgramId, false, false),
      AccountMeta(SystemProgramId, false, false),
      AccountMeta(RentProgramId, false, false) ]
  }

  lemma CreateMetasFlags(a: CreateAccounts, pdaPoolId: PublicKey)
    ensures var keys := CreateMetas(a, pdaPoolId);
      && |keys| == CreateAccountCount
      && (forall i :: 0 <= i < |keys| ==> (keys[i].isWritable <==> CreateWritableSlot(i)))
      && (forall i :: 0 <= i < |keys| && i != 0 && i != 3 ==> !keys[i].isSigner)
  {
  }

  /** `makeCreateCpmmPoolInInstruction`: the `initialize` discriminator,
      then `amountMaxA`, `amountMaxB` and `openTime`. The creator signs and
      is read-only; the pool account is writable and signs exactly when it
      is not the program-derived pool address; the program accounts come
      last and are read-only. */
  function MakeCreateCpmmPoolInInstruction(a: CreateAccounts, pda: PoolPdaFn,
                                           amountMaxA: int, amountMaxB: int, openTime: int): (r: Result<Instruction>)
    ensures r.Ok? <==> 0 <= amountMaxA < U64Limit && 0 <= amountMaxB < U64Limit && 0 <= openTime < U64Limit
    ensures r.Err? ==> r.error == ValueOutOfRange
    ensures r.Ok? ==> r.value.programId == a.programId
    ensures r.Ok? ==> |r.value.data| == 32 && r.value.data[..8] == Initialize
    ensures r.Ok? ==> LeValue(r.value.data[8..16]) == amountMaxA && LeValue(r.value.data[16..24]) == amountMaxB
                      && LeValue(r.value.data[24..32]) == openTime
    ensures r.Ok? ==> var keys := r.value.keys;
      && |keys| == CreateAccountCount
      && (forall i :: 0 <= i < |keys| ==> (keys[i].isWritable <==> CreateWritableSlot(i)))
      && (forall i :: 0 <= i < |keys| && i != 0 && i != 3 ==> !keys[i].isSigner)
      && keys[0] == AccountMeta(a.creator, true, false)
      && keys[3] == AccountMeta(a.poolId, a.poolId != pda(a.programId, a.configId, a.mintA, a.mintB), true)
      && keys[14].pubkey == TokenProgramId && keys[17].pubkey == AssociatedTokenProgramId
      && keys[18].pubkey == SystemProgramId && keys[19].pubkey == RentProgramId
  {
    var amountMaxABuf :- WriteU64(amountMaxA);
    var amountMaxBBuf :- WriteU64(amountMaxB);
    var openTimeBuf :- WriteU64(openTime);
    var data := Initialize + amountMaxABuf + amountMaxBBuf + openTimeBuf;
    assert data[8..16] == amountMaxABuf && data[16..24] == amountMaxBBuf && data[24..32] == openTimeBuf;
    var pdaPoolId := pda(a.programId, a.configId, a.mintA, a.mintB);
    CreateMetasFlags(a, pdaPoolId);
    Ok(Instruction(a.programId, CreateMetas(a, pdaPoolId), data))
  }

  /** The accounts of an `initialize` instruction, read back by position. */
  function CreateAccountsOf(programId: PublicKey, keys: seq<AccountMeta>): CreateAccounts
    requires |keys| == CreateAccountCount
  {
    CreateAccounts(
      programId, keys[0].pubkey, keys[1].pubkey, keys[2].pubkey, keys[3].pubkey,
      keys[4].pubkey, keys[5].pubkey, keys[6].pubkey, keys[7].pubkey, keys[8].pubkey,
      keys[9].pubkey, keys[10].pubkey, keys[11].pubkey, keys[12].pubkey,
      keys[15].pubkey, keys[16].pubkey, keys[13].pubkey)
  }

  /** The accounts of a built `initialize` instruction, read back by
      position, are those it was built from. */
  lemma DecodeMakeCreate(a: CreateAccounts, pda: PoolPdaFn, amountMaxA: int, amountMaxB: int, openTime: int)
    requires MakeCreateCpmmPoolInInstruction(a, pda, amountMaxA, amountMaxB, openTime).Ok?
    ensures var ix := MakeCreateCpmmPoolInInstruction(a, pda, amountMaxA, amountMaxB, openTime).value;
      CreateAccountsOf(ix.programId, ix.keys) == a
  {
    var ix := MakeCreateCpmmPoolInInstruction(a, pda, amountMaxA, amountMaxB, openTime).value;
    var pdaPoolId := pda(a.programId, a.configId, a.mintA, a.mintB);
    assert ix.programId == a.programId && ix.keys == CreateMetas(a, pdaPoolId);
    CreateAccountsOfMetas(a, pdaPoolId);
  }

  lemma CreateAccountsOfMetas(a: CreateAccounts, pdaPoolId: PublicKey)
    ensures |CreateMetas(a, pdaPoolId)| == CreateAccountCount
    ensures CreateAccountsOf(a.programId, CreateMetas(a, pdaPoolId)) == a
  {
  }
}
