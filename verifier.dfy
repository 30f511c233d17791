/** The admission gate of the relay (server/src/verifier.rs): decides, from a
    requested block number, what the chain and the schedule store report, and
    the decoded transaction, whether the transaction may be scheduled. The
    checks run in a fixed order and the first failing one decides the
    rejection. The source's Verifier only reads; so does this model. */
module Verifier {
  import opened Types

  const CHAIN_ID: nat := 42
  /** 4 gwei. */
  const MIN_GAS_PRICE: nat := 4_000_000_000
  const MAX_FUTURE_BLOCK: nat := 1_000_000

  // Intrinsic gas constants (pre-EIP-2028 values of the Yellow Paper's g0).
  const TX_CREATE_GAS: nat := 53_000
  const TX_GAS: nat := 21_000
  const TX_DATA_ZERO_GAS: nat := 4
  const TX_DATA_NON_ZERO_GAS: nat := 68

  /** What RLP decoding and signer recovery made of the raw bytes. Both are
      library calls outside this model, so their outcome is an input:
      `chainId` is the EIP-155 chain id carried by the signature (None for
      an unprotected signature) and `signatureValid` says whether the
      signature passed the library's basic checks (low `s`, not empty). */
  datatype Decoded =
    | NotRlp
    | Unrecoverable
    | Signed(tx: Transaction, chainId: Option<nat>, signatureValid: bool)

  datatype Account = Account(balance: u256, nonce: u256)

  /** What the chain reports at verification time: the latest block height
      and, per address, balance and nonce. An address missing from `accounts`
      stands for a balance/nonce lookup that failed. */
  datatype ChainState = ChainState(latestBlock: nat, accounts: map<Address, Account>)

  /** Why a request was rejected, in place of the source's message strings. */
  datatype Rejection =
    | InvalidBlockNumber
    | MalformedRlp
    | InvalidSignature
    | InvalidChainId
    | GasTooLow(requiredGas: nat)
    | GasPriceTooLow(requiredPrice: nat)
    | SenderAlreadyScheduled
    | ChainStateUnavailable
    | InsufficientBalance(required: u256, got: u256)
    | InvalidNonce(expected: u256, got: u256)

  /** A read of outside state made while verifying. */
  datatype Read = LatestBlock | HasSender(sender: Address) | BalanceAndNonce(account: Address)

  datatype Admitted = Admitted(blockNumber: nat, tx: Transaction)

  /** The result of one verification, with the reads it made, in order. */
  datatype Verdict = Verdict(outcome: Result<Admitted, Rejection>, lookups: seq<Read>)

  function Min(a: int, b: int): int { if a <= b then a else b }

  // ---------------------------------------------------------------------------
  // Intrinsic gas

  function BaseGas(action: Action): nat {
    match action
    case Create => TX_CREATE_GAS
    case Call(_) => TX_GAS
  }

  function DataGas(b: byte): nat {
    if b == 0 then TX_DATA_ZERO_GAS else TX_DATA_NON_ZERO_GAS
  }

  /** The fold in minimal_gas: adds each payload byte's cost to `acc`, front
      to back. Every byte costs between 4 and 68. */
  function FoldGas(acc: nat, data: seq<byte>): (g: nat)
    ensures acc + TX_DATA_ZERO_GAS * |data| <= g <= acc + TX_DATA_NON_ZERO_GAS * |data|
    decreases |data|
  {
    if data == [] then acc else FoldGas(acc + DataGas(data[0]), data[1..])
  }

  /** minimal_gas: the base cost of the action folded with the payload bytes. */
  function MinimalGas(tx: Transaction): (g: nat)
    ensures BaseGas(tx.action) + TX_DATA_ZERO_GAS * |tx.data| <= g
    ensures g <= BaseGas(tx.action) + TX_DATA_NON_ZERO_GAS * |tx.data|
  {
    FoldGas(BaseGas(tx.action), tx.data)
  }

  /** Reference definition: g0 of the Yellow Paper (section 6.2) with these
      constants, counting the zero and the non-zero bytes of the payload. */
  function IntrinsicGas(tx: Transaction): int {
    var zeros := multiset(tx.data)[0];
    BaseGas(tx.action) + TX_DATA_ZERO_GAS * zeros + TX_DATA_NON_ZERO_GAS * (|tx.data| - zeros)
  }

  lemma {:induction false} FoldGasClosedForm(acc: nat, data: seq<byte>)
    ensures FoldGas(acc, data)
      == acc + TX_DATA_ZERO_GAS * multiset(data)[0]
             + TX_DATA_NON_ZERO_GAS * (|data| - multiset(data)[0])
    decreases |data|
  {
    if data != [] {
      assert data == [data[0]] + data[1..];
      assert multiset(data) == multiset{data[0]} + multiset(data[1..]);
      FoldGasClosedForm(acc + DataGas(data[0]), data[1..]);
    }
  }

  /** minimal_gas computes g0: base plus 4 per zero byte plus 68 per other byte. */
  lemma MinimalGasIsIntrinsic(tx: Transaction)
    ensures MinimalGas(tx) == IntrinsicGas(tx)
  {
    FoldGasClosedForm(BaseGas(tx.action), tx.data);
  }

  /** An empty call costs 21000, an empty create 53000. */
  lemma EmptyPayloadGas(tx: Transaction)
    requires tx.data == []
    ensures tx.action.Call? ==> MinimalGas(tx) == 21_000
    ensures tx.action.Create? ==> MinimalGas(tx) == 53_000
  {
  }

  /** Appending one byte raises minimal_gas by exactly 4 (zero byte) or 68. */
  lemma AppendByteGas(tx: Transaction, b: byte)
    ensures MinimalGas(tx.(data := tx.data + [b]))
      == MinimalGas(tx) + (if b == 0 then 4 else 68)
  {
    var tx' := tx.(data := tx.data + [b]);
    MinimalGasIsIntrinsic(tx);
    MinimalGasIsIntrinsic(tx');
    assert multiset(tx'.data) == multiset(tx.data) + multiset{b};
  }

  /** minimal_gas never decreases as the payload grows. */
  lemma MinimalGasMonotone(tx: Transaction, n: nat)
    requires n <= |tx.data|
    ensures MinimalGas(tx.(data := tx.data[..n])) <= MinimalGas(tx)
  {
    var short := tx.(data := tx.data[..n]);
    MinimalGasIsIntrinsic(tx);
    MinimalGasIsIntrinsic(short);
    assert tx.data == tx.data[..n] + tx.data[n..];
    var rest := multiset(tx.data[n..]);
    assert multiset(tx.data) == multiset(short.data) + rest;
    assert rest[0] <= |rest|;
  }

  // ---------------------------------------------------------------------------
  // Cost with saturating U256 arithmetic

  /** U256::saturating_add: the exact sum, or U256::MAX when the sum does
      not fit; it never wraps to something below either operand. */
  function SaturatingAdd(a: u256, b: u256): (r: u256)
    ensures a <= r && b <= r
    ensures r == a + b || (r == U256_MAX && a + b > U256_MAX)
  {
    if a + b > U256_MAX then U256_MAX else a + b
  }

  /** U256::saturating_mul: the exact product, or U256::MAX when the
      product does not fit. */
  function SaturatingMul(a: u256, b: u256): (r: u256)
    ensures r == a * b || (r == U256_MAX && a * b > U256_MAX)
  {
    if a * b > U256_MAX then U256_MAX else a * b
  }

  /** The balance the sender must hold: value + gas * gas_price, saturating.
      It is the exact cost, or U256::MAX when the cost does not fit. */
  function Required(tx: Transaction): (r: u256)
    ensures tx.value <= r
    ensures r == tx.value + tx.gas * tx.gasPrice || (r == U256_MAX && tx.value + tx.gas * tx.gasPrice > U256_MAX)
  {
    SaturatingAdd(tx.value, SaturatingMul(tx.gas, tx.gasPrice))
  }

  /** The saturating sum is the true cost capped at U256::MAX: it never wraps
      to a smaller value. */
  lemma RequiredIsCappedCost(tx: Transaction)
    ensures Required(tx) == Min(tx.value + tx.gas * tx.gasPrice, U256_MAX)
  {
    var p := tx.gas * tx.gasPrice;
    if p > U256_MAX {
      assert SaturatingMul(tx.gas, tx.gasPrice) == U256_MAX;
      assert tx.value + p > U256_MAX;
    }
  }

  // ---------------------------------------------------------------------------
  // The checks

  /** The chain-id rule of EIP-155 signatures: an unprotected signature is let
      through, a protected one must name CHAIN_ID. */
  predicate ChainIdAccepted(chainId: Option<nat>) {
    chainId.None? || chainId.value == CHAIN_ID
  }

  /** verify_transaction: the checks that need only the transaction, in
      order: decoding, signature, chain id, minimal gas, minimal gas price. */
  function VerifyTransaction(d: Decoded): (r: Result<Transaction, Rejection>)
    ensures r.Ok? ==> d.Signed? && r.value == d.tx
    ensures r.Ok? ==> r.value.gas >= MinimalGas(r.value) && r.value.gasPrice >= MIN_GAS_PRICE
  {
    match d
    case NotRlp => Err(MalformedRlp)
    case Unrecoverable => Err(InvalidSignature)
    case Signed(tx, chainId, signatureValid) =>
      if !signatureValid then Err(InvalidSignature)
      else if !ChainIdAccepted(chainId) then Err(InvalidChainId)
      else if tx.gas < MinimalGas(tx) then Err(GasTooLow(MinimalGas(tx)))
      else if tx.gasPrice < MIN_GAS_PRICE then Err(GasPriceTooLow(MIN_GAS_PRICE))
      else Ok(tx)
  }

  /** Verifier::verify. The latest block is read first; the store is asked
      about the sender only once the transaction itself passed; the chain is
      asked for balance and nonce only once the sender is known not to be
      scheduled. */
  function Verify(chain: ChainState, scheduled: set<Address>, blockNumber: nat, d: Decoded): (v: Verdict)
    ensures |v.lookups| > 0 && v.lookups[0] == LatestBlock
    ensures v.outcome.Ok? ==> d.Signed? && v.outcome.value == Admitted(blockNumber, d.tx)
    ensures v.outcome.Ok? ==> chain.latestBlock < blockNumber <= chain.latestBlock + MAX_FUTURE_BLOCK
  {
    if blockNumber <= chain.latestBlock then
      Verdict(Err(InvalidBlockNumber), [LatestBlock])
    else if blockNumber > chain.latestBlock + MAX_FUTURE_BLOCK then
      Verdict(Err(InvalidBlockNumber), [LatestBlock])
    else
      match VerifyTransaction(d)
      case Err(e) => Verdict(Err(e), [LatestBlock])
      case Ok(tx) =>
        if tx.sender in scheduled then
          Verdict(Err(SenderAlreadyScheduled), [LatestBlock, HasSender(tx.sender)])
        else
          var lookups := [LatestBlock, HasSender(tx.sender), BalanceAndNonce(tx.sender)];
          if tx.sender !in chain.accounts then
            Verdict(Err(ChainStateUnavailable), lookups)
          else
            var account := chain.accounts[tx.sender];
            var required := Required(tx);
            if account.balance < required then
              Verdict(Err(InsufficientBalance(required, account.balance)), lookups)
            else if tx.nonce != account.nonce then
              Verdict(Err(InvalidNonce(account.nonce, tx.nonce)), lookups)
            else
              Verdict(Ok(Admitted(blockNumber, tx)), lookups)
  }

  /** Reference definition of an admissible request, every condition stated
      on its own and in no particular order, with the cost and the intrinsic
      gas as mathematical values. */
  predicate Admissible(chain: ChainState, scheduled: set<Address>, blockNumber: nat, d: Decoded) {
    && chain.latestBlock < blockNumber <= chain.latestBlock + MAX_FUTURE_BLOCK
    && d.Signed? && d.signatureValid && ChainIdAccepted(d.chainId)
    && d.tx.gas >= IntrinsicGas(d.tx)
    && d.tx.gasPrice >= MIN_GAS_PRICE
    && d.tx.sender !in scheduled
    && d.tx.sender in chain.accounts
    && chain.accounts[d.tx.sender].balance >= Min(d.tx.value + d.tx.gas * d.tx.gasPrice, U256_MAX)
    && d.tx.nonce == chain.accounts[d.tx.sender].nonce
  }

  /** verify accepts exactly the admissible requests, and then returns the
      requested block number and the decoded transaction unchanged. */
  lemma VerifyAcceptsIff(chain: ChainState, scheduled: set<Address>, blockNumber: nat, d: Decoded)
    ensures Verify(chain, scheduled, blockNumber, d).outcome.Ok?
      <==> Admissible(chain, scheduled, blockNumber, d)
    ensures Verify(chain, scheduled, blockNumber, d).outcome.Ok?
      ==> Verify(chain, scheduled, blockNumber, d).outcome.value == Admitted(blockNumber, d.tx)
  {
    if d.Signed? {
      MinimalGasIsIntrinsic(d.tx);
      RequiredIsCappedCost(d.tx);
    }
  }

  /** A block number at or below the latest block is rejected whatever the
      transaction, and nothing but the latest block is read. */
  lemma PastBlockRejected(chain: ChainState, scheduled: set<Address>, blockNumber: nat, d: Decoded)
    requires blockNumber <= chain.latestBlock
    ensures Verify(chain, scheduled, blockNumber, d) == Verdict(Err(InvalidBlockNumber), [LatestBlock])
  {
  }

  /** The boundary case: latest block 100, requested block 100. */
  lemma CurrentBlockRejected(chain: ChainState, scheduled: set<Address>, d: Decoded)
    requires chain.latestBlock == 100
    ensures Verify(chain, scheduled, 100, d).outcome == Err(InvalidBlockNumber)
  {
    PastBlockRejected(chain, scheduled, 100, d);
  }

  /** A block number more than MAX_FUTURE_BLOCK ahead is rejected likewise. */
  lemma FarFutureBlockRejected(chain: ChainState, scheduled: set<Address>, blockNumber: nat, d: Decoded)
    requires blockNumber > chain.latestBlock + MAX_FUTURE_BLOCK
    ensures Verify(chain, scheduled, blockNumber, d) == Verdict(Err(InvalidBlockNumber), [LatestBlock])
  {
  }

  /** Gas below the intrinsic gas is rejected before the gas price is looked
      at; only a transaction with enough gas is rejected for its price. */
  lemma GasCheckedBeforeGasPrice(tx: Transaction, chainId: Option<nat>)
    requires ChainIdAccepted(chainId)
    ensures tx.gas < IntrinsicGas(tx)
      ==> VerifyTransaction(Signed(tx, chainId, true)) == Err(GasTooLow(IntrinsicGas(tx)))
    ensures tx.gas >= IntrinsicGas(tx) && tx.gasPrice < MIN_GAS_PRICE
      ==> VerifyTransaction(Signed(tx, chainId, true)) == Err(GasPriceTooLow(4_000_000_000))
  {
    MinimalGasIsIntrinsic(tx);
  }

  /** A sender that already has a scheduled transaction is rejected, and its
      balance and nonce are never looked up. */
  lemma DuplicateSenderRejectedBeforeLookup(chain: ChainState, scheduled: set<Address>, blockNumber: nat, d: Decoded)
    requires chain.latestBlock < blockNumber <= chain.latestBlock + MAX_FUTURE_BLOCK
    requires VerifyTransaction(d).Ok?
    requires d.tx.sender in scheduled
    ensures Verify(chain, scheduled, blockNumber, d).outcome == Err(SenderAlreadyScheduled)
    ensures forall a :: BalanceAndNonce(a) !in Verify(chain, scheduled, blockNumber, d).lookups
  {
  }

  /** Balance and nonce are read only for a request whose block number,
      transaction and sender all passed, and only for that sender. */
  lemma ChainStateReadLast(chain: ChainState, scheduled: set<Address>, blockNumber: nat, d: Decoded, a: Address)
    requires BalanceAndNonce(a) in Verify(chain, scheduled, blockNumber, d).lookups
    ensures chain.latestBlock < blockNumber <= chain.latestBlock + MAX_FUTURE_BLOCK
    ensures VerifyTransaction(d) == Ok(d.tx)
    ensures a == d.tx.sender && a !in scheduled
  {
  }

  /** An accepted sender can pay: its balance covers value + gas * gas_price,
      or, when that exceeds U256::MAX, the balance is U256::MAX itself. */
  lemma AcceptedCoversCost(chain: ChainState, scheduled: set<Address>, blockNumber: nat, d: Decoded)
    requires Verify(chain, scheduled, blockNumber, d).outcome.Ok?
    ensures d.Signed? && d.tx.sender in chain.accounts
    ensures var cost := d.tx.value + d.tx.gas * d.tx.gasPrice;
            var balance := chain.accounts[d.tx.sender].balance;
            if cost <= U256_MAX then balance >= cost else balance == U256_MAX
  {
    RequiredIsCappedCost(d.tx);
  }

  /** Even at gas = gas_price = u64::MAX the product does not saturate, so
      the required balance is the exact cost, capped only by the value. */
  lemma MaximalGasNotWrapped(tx: Transaction)
    requires tx.gas == U64_MAX && tx.gasPrice == U64_MAX
    ensures SaturatingMul(tx.gas, tx.gasPrice) == U64_MAX * U64_MAX
    ensures Required(tx) == Min(tx.value + U64_MAX * U64_MAX, U256_MAX)
  {
    RequiredIsCappedCost(tx);
  }

  /** The balance is checked before the nonce: a balance below the required
      amount is rejected as such whatever the nonce, reporting the required
      amount and the balance. */
  lemma BalanceCheckedBeforeNonce(chain: ChainState, scheduled: set<Address>, blockNumber: nat, tx: Transaction, chainId: Option<nat>)
    requires chain.latestBlock < blockNumber <= chain.latestBlock + MAX_FUTURE_BLOCK
    requires VerifyTransaction(Signed(tx, chainId, true)).Ok?
    requires tx.sender !in scheduled && tx.sender in chain.accounts
    requires chain.accounts[tx.sender].balance < Required(tx)
    ensures Verify(chain, scheduled, blockNumber, Signed(tx, chainId, true)).outcome
      == Err(InsufficientBalance(Required(tx), chain.accounts[tx.sender].balance))
  {
  }

  /** The nonce must match the account nonce exactly: with every other check
      passing, any other nonce, larger or smaller, is rejected. */
  lemma NonceMustMatch(chain: ChainState, scheduled: set<Address>, blockNumber: nat, tx: Transaction, chainId: Option<nat>)
    requires chain.latestBlock < blockNumber <= chain.latestBlock + MAX_FUTURE_BLOCK
    requires VerifyTransaction(Signed(tx, chainId, true)).Ok?
    requires tx.sender !in scheduled && tx.sender in chain.accounts
    requires chain.accounts[tx.sender].balance >= Required(tx)
    requires tx.nonce != chain.accounts[tx.sender].nonce
    ensures Verify(chain, scheduled, blockNumber, Signed(tx, chainId, true)).outcome
      == Err(InvalidNonce(chain.accounts[tx.sender].nonce, tx.nonce))
  {
  }
}
