/** Entities shared by the verifier and the submitter: the signed Ethereum
    transaction the relay schedules, its action, and the fixed-width integers
    the transaction's fields use. */
module Types {

  /** Largest value of a 256-bit unsigned integer (U256::max_value()). */
  const U256_MAX: nat := 0xFFFF_FFFF_FFFF_FFFF_FFFF_FFFF_FFFF_FFFF_FFFF_FFFF_FFFF_FFFF_FFFF_FFFF_FFFF_FFFF

  /** Largest value of a u64. */
  const U64_MAX: nat := 0xFFFF_FFFF_FFFF_FFFF

  /** A 256-bit unsigned integer: balances, nonces, gas, gas price and value. */
  type u256 = x: nat | x <= U256_MAX

  /** One byte of a transaction's payload. */
  type byte = x: nat | x < 256

  /** A 160-bit account address, kept abstract. */
  type Address = nat

  /** What the transaction does: deploy a contract or call an existing address. */
  datatype Action = Create | Call(to: Address)

  /** A transaction whose signature has been checked; `sender` is the address
      recovered from that signature. Never changed after creation. */
  datatype Transaction = Transaction(
    sender: Address,
    nonce: u256,
    gasPrice: u256,
    gas: u256,
    action: Action,
    value: u256,
    data: seq<byte>)

  datatype Option<T> = None | Some(value: T)

  datatype Result<T, E> = Ok(value: T) | Err(error: E)
}
