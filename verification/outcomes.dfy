/** The error values the core reports, and a Result type usable with `:-`.
    Every `throw` on the modelled paths becomes one of these values. */
module Outcomes {
  import opened Solana

  datatype Error =
    | DivisorIsZero                 // "rhs is zero", "divisor is zero", or a BN division by zero
    | QuotientIsZero                // "quotient is zero"
    | DestinationAmountSwappedIsZero
    | BufferOutOfRange              // a fixed-width read past the end of an account buffer
    | ValueOutOfRange               // a u64 writer given a value outside [0, 2^64)
    | PoolInfoNotLoaded             // "Pool info not loaded."
    | PoolNotFound(pool: PublicKey)       // "fetch pool info error: ..."
    | ConfigNotFound(config: PublicKey)   // "fetch pool config error: ..."
    | VaultNotFound(vault: PublicKey)     // "fetch vault info error: ..."
    | ConfigInfoMissing             // dereferencing an absent pool configuration

  datatype Result<+T> = Ok(value: T) | Err(error: Error) {

    predicate IsFailure() {
      Err?
    }

    function PropagateFailure<U>(): Result<U>
      requires Err?
    {
      Err(error)
    }

    function Extract(): T
      requires Ok?
    {
      value
    }
  }

  datatype Option<+T> = None | Some(value: T)
}
