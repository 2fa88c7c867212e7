/** The AMM v4 `swap_base_in` instruction builder
    (amm/src/instructions.ts): a one-byte tag, two little-endian u64
    amounts, and eighteen positional accounts. */
module AmmInstruction {
  import opened Solana
  import opened Outcomes
  import opened Bytes

  /** The `swap_base_in` instruction tag. */
  const SwapBaseInTag: byte := 9

  const SwapBaseInDataSize: nat := 17

  const SwapBaseInAccountCount: nat := 18

  /** The accounts `createRayV4SwapBaseInInstruction` is given. */
  datatype SwapBaseInAccounts = SwapBaseInAccounts(
    programId: PublicKey,
    tokenProgram: PublicKey,
    amm: PublicKey,
    ammAuthority: PublicKey,
    ammOpenOrders: PublicKey,
    ammTargetOrders: PublicKey,
    poolCoinTokenAccount: PublicKey,
    poolPcTokenAccount: PublicKey,
    serumProgram: PublicKey,
    serumMarket: PublicKey,
    serumBids: PublicKey,
    serumAsks: PublicKey,
    serumEventQueue: PublicKey,
    serumCoinVaultAccount: PublicKey,
    serumPcVaultAccount: PublicKey,
    serumVaultSigner: PublicKey,
    userSourceTokenAccount: PublicKey,
    userDestinationTokenAccount: PublicKey,
    userSourceOwner: PublicKey)

  /** The positions of the accounts the program only reads: the token
      program, the AMM authority, the serum program, the vault signer and
      the owner. */
  predicate ReadOnlySlot(i: int) {
    i == 0 || i == 2 || i == 7 || i == 14 || i == 17
  }

  /** The position of the only signer, the owner of the source account. */
  const OwnerSlot: nat := 17

  /** Signer and writable flags as `swap_base_in` requires them. */
  predicate SwapBaseInFlags(keys: seq<AccountMeta>) {
    |keys| == SwapBaseInAccountCount
    && (forall i :: 0 <= i < |keys| ==> (keys[i].isSigner <==> i == OwnerSlot))
    && (forall i :: 0 <= i < |keys| ==> (keys[i].isWritable <==> !ReadOnlySlot(i)))
  }

  function SwapBaseInMetas(a: SwapBaseInAccounts): seq<AccountMeta> {
    [ AccountMeta(a.tokenProgram, false, false),
      AccountMeta(a.amm, false, true),
      AccountMeta(a.ammAuthority, false, false),
      AccountMeta(a.ammOpenOrders, false, true),
      AccountMeta(a.ammTargetOrders, false, true),
      AccountMeta(a.poolCoinTokenAccount, false, true),
      AccountMeta(a.poolPcTokenAccount, false, true),
      AccountMeta(a.serumProgram, false, false),
      AccountMeta(a.serumMarket, false, true),
      AccountMeta(a.serumBids, false, true),
      AccountMeta(a.serumAsks, false, true),
      AccountMeta(a.serumEventQueue, false, true),
      AccountMeta(a.serumCoinVaultAccount, false, true),
      AccountMeta(a.serumPcVaultAccount, false, true),
      AccountMeta(a.serumVaultSigner, false, false),
      AccountMeta(a.userSourceTokenAccount, false, true),
      AccountMeta(a.userDestinationTokenAccount, false, true),
      AccountMeta(a.userSourceOwner, true, false) ]
  }

  /** The accounts named by an instruction, read back by position. */
  function AccountsOf(programId: PublicKey, keys: seq<AccountMeta>): SwapBaseInAccounts
    requires |keys| == SwapBaseInAccountCount
  {
    SwapBaseInAccounts(
      programId, keys[0].pubkey, keys[1].pubkey, keys[2].pubkey, keys[3].pubkey,
      keys[4].pubkey, keys[5].pubkey, keys[6].pubkey, keys[7].pubkey, keys[8].pubkey,
      keys[9].pubkey, keys[10].pubkey, keys[11].pubkey, keys[12].pubkey, keys[13].pubkey,
      keys[14].pubkey, keys[15].pubkey, keys[16].pubkey, keys[17].pubkey)
  }

  /** `createRayV4SwapBaseInInstruction`. The u64 writer rejects either
      amount outside [0, 2^64); otherwise the payload is the tag followed by
      both amounts, and the accounts are the given ones, in order, flagged
      as `swap_base_in` requires. */
  function CreateRayV4SwapBaseInInstruction(a: SwapBaseInAccounts, amountIn: int, minimumAmountOut: int)
    : (r: Result<Instruction>)
    ensures r.Ok? <==> 0 <= amountIn < U64Limit && 0 <= minimumAmountOut < U64Limit
    ensures r.Err? ==> r.error == ValueOutOfRange
    ensures r.Ok? ==> r.value.programId == a.programId
    ensures r.Ok? ==> |r.value.data| == SwapBaseInDataSize && r.value.data[0] == SwapBaseInTag
    ensures r.Ok? ==> LeValue(r.value.data[1..9]) == amountIn && LeValue(r.value.data[9..17]) == minimumAmountOut
    ensures r.Ok? ==> SwapBaseInFlags(r.value.keys) && AccountsOf(a.programId, r.value.keys) == a
  {
    var amountInBuf :- WriteU64(amountIn);
    var minimumAmountOutBuf :- WriteU64(minimumAmountOut);
    var data := [SwapBaseInTag] + amountInBuf + minimumAmountOutBuf;
    assert data[1..9] == amountInBuf && data[9..17] == minimumAmountOutBuf;
    SwapBaseInMetasShape(a);
    Ok(Instruction(a.programId, SwapBaseInMetas(a), data))
  }

  lemma SwapBaseInMetasShape(a: SwapBaseInAccounts)
    ensures SwapBaseInFlags(SwapBaseInMetas(a))
    ensures AccountsOf(a.programId, SwapBaseInMetas(a)) == a
  {
    var keys := SwapBaseInMetas(a);
    forall i | 0 <= i < |keys|
      ensures (keys[i].isSigner <==> i == OwnerSlot) && (keys[i].isWritable <==> !ReadOnlySlot(i))
    {
    }
  }

  /** Recovers the accounts and amounts of a well-formed `swap_base_in`
      instruction. */
  function DecodeSwapBaseIn(ix: Instruction): Option<(SwapBaseInAccounts, nat, nat)> {
    if |ix.data| == SwapBaseInDataSize && ix.data[0] == SwapBaseInTag && SwapBaseInFlags(ix.keys) then
      Some((AccountsOf(ix.programId, ix.keys), LeValue(ix.data[1..9]), LeValue(ix.data[9..17])))
    else
      None
  }

  /** Decoding a built instruction gives back what it was built from. */
  lemma DecodeCreate(a: SwapBaseInAccounts, amountIn: int, minimumAmountOut: int)
    requires CreateRayV4SwapBaseInInstruction(a, amountIn, minimumAmountOut).Ok?
    ensures DecodeSwapBaseIn(CreateRayV4SwapBaseInInstruction(a, amountIn, minimumAmountOut).value)
         == Some((a, amountIn, minimumAmountOut))
  {
  }

  lemma MetasOfAccounts(programId: PublicKey, keys: seq<AccountMeta>)
    requires SwapBaseInFlags(keys)
    ensures SwapBaseInMetas(AccountsOf(programId, keys)) == keys
  {
    var built := SwapBaseInMetas(AccountsOf(programId, keys));
    forall i | 0 <= i < SwapBaseInAccountCount
      ensures built[i] == keys[i]
    {
      assert keys[i].isSigner <==> i == OwnerSlot;
      assert keys[i].isWritable <==> !ReadOnlySlot(i);
    }
  }

  /** Every well-formed `swap_base_in` instruction is the one the builder
      makes from its decoded accounts and amounts. */
  lemma CreateDecode(ix: Instruction)
    requires DecodeSwapBaseIn(ix).Some?
    ensures var (a, amountIn, minimumAmountOut) := DecodeSwapBaseIn(ix).value;
      CreateRayV4SwapBaseInInstruction(a, amountIn, minimumAmountOut) == Ok(ix)
  {
    WriteReadU64(ix.data[1..9]);
    WriteReadU64(ix.data[9..17]);
    MetasOfAccounts(ix.programId, ix.keys);
    assert ix.data == [SwapBaseInTag] + ix.data[1..9] + ix.data[9..17];
  }
}
