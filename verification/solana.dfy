/** Solana vocabulary shared by the decoders and instruction builders:
    32-byte public keys, account metas, instructions, and the fixed
    program ids the Raydium integration refers to. */
module Solana {

  /** An unsigned 8-bit value, as held by a Node `Buffer`. */
  newtype byte = x: int | 0 <= x < 256

  /** A public key is an opaque 32-byte value; two keys are the same
      account exactly when their bytes are equal. */
  type PublicKey = s: seq<byte> | |s| == 32 witness seq(32, _ => 0)

  /** One entry of an instruction's positional account list. */
  datatype AccountMeta = AccountMeta(pubkey: PublicKey, isSigner: bool, isWritable: bool)

  /** A single instruction: the program it invokes, its ordered account
      list and its raw payload. */
  datatype Instruction = Instruction(programId: PublicKey, keys: seq<AccountMeta>, data: seq<byte>)

  /** Seed of the AMM v4 authority address: the bytes of "amm authority". */
  const RayV4AuthSeed: seq<byte> :=
    [0x61, 0x6d, 0x6d, 0x20, 0x61, 0x75, 0x74, 0x68, 0x6f, 0x72, 0x69, 0x74, 0x79]

  /** Raydium AMM v4 program on mainnet (675kPX9MHTjS2zt1qfr1NYHuzeLXfQM9H24wFSUt1Mp8) */
  const RaydiumV4MainnetProgram: PublicKey :=
    [0x4b, 0xd9, 0x49, 0xc4, 0x36, 0x02, 0xc3, 0x3f, 0x20, 0x77, 0x90, 0xed, 0x16, 0xa3, 0x52, 0x4c,
     0xa1, 0xb9, 0x97, 0x5c, 0xf1, 0x21, 0xa2, 0xa9, 0x0c, 0xff, 0xec, 0x7d, 0xf8, 0xb6, 0x8a, 0xcd]

  /** Raydium AMM v4 program on devnet (HWy1jotHpo6UqeQxx49dpYYdQB8wj9Qk9MdxwjLvDHB8) */
  const RaydiumV4DevnetProgram: PublicKey :=
    [0xf5, 0x68, 0x2b, 0x06, 0xfc, 0xcb, 0xdb, 0xa6, 0xb4, 0x0d, 0x23, 0x4a, 0x14, 0xb1, 0xf7, 0xde,
     0x9d, 0x8b, 0x5e, 0x11, 0xe4, 0x5a, 0x72, 0xbc, 0xaa, 0x92, 0x62, 0x3f, 0x3e, 0x67, 0x7a, 0x1b]

  /** SPL token program (TokenkegQfeZyiNwAJbNbGKPFXCWuBvf9Ss623VQ5DA) */
  const TokenProgramId: PublicKey :=
    [0x06, 0xdd, 0xf6, 0xe1, 0xd7, 0x65, 0xa1, 0x93, 0xd9, 0xcb, 0xe1, 0x46, 0xce, 0xeb, 0x79, 0xac,
     0x1c, 0xb4, 0x85, 0xed, 0x5f, 0x5b, 0x37, 0x91, 0x3a, 0x8c, 0xf5, 0x85, 0x7e, 0xff, 0x00, 0xa9]

  /** SPL associated-token-account program (ATokenGPvbdGVxr1b2hvZbsiqW5xWH25efTNsLJA8knL) */
  const AssociatedTokenProgramId: PublicKey :=
    [0x8c, 0x97, 0x25, 0x8f, 0x4e, 0x24, 0x89, 0xf1, 0xbb, 0x3d, 0x10, 0x29, 0x14, 0x8e, 0x0d, 0x83,
     0x0b, 0x5a, 0x13, 0x99, 0xda, 0xff, 0x10, 0x84, 0x04, 0x8e, 0x7b, 0xd8, 0xdb, 0xe9, 0xf8, 0x59]

  /** system program (11111111111111111111111111111111) */
  const SystemProgramId: PublicKey :=
    [0x00, 0x00, 0x00, 0x00, 0x00, 0x00, 0x00, 0x00, 0x00, 0x00, 0x00, 0x00, 0x00, 0x00, 0x00, 0x00,
     0x00, 0x00, 0x00, 0x00, 0x00, 0x00, 0x00, 0x00, 0x00, 0x00, 0x00, 0x00, 0x00, 0x00, 0x00, 0x00]

  /** rent sysvar (SysvarRent111111111111111111111111111111111) */
  const RentProgramId: PublicKey :=
    [0x06, 0xa7, 0xd5, 0x17, 0x19, 0x2c, 0x5c, 0x51, 0x21, 0x8c, 0xc9, 0x4c, 0x3d, 0x4a, 0xf1, 0x7f,
     0x58, 0xda, 0xee, 0x08, 0x9b, 0xa1, 0xfd, 0x44, 0xe3, 0xdb, 0xd9, 0x8a, 0x00, 0x00, 0x00, 0x00]
}
