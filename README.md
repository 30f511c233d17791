# Transaction scheduler: admission gate and ordered fan-out

A model of the core of the delayed-transaction relay (transaction-scheduler).
The relay accepts signed Ethereum transactions that are to be sent in a
future block (or at a future time). It stores them and, when that block is
seen, hands each stored transaction to every configured endpoint.

- `Types` (types.dfy) holds the signed transaction, its action and the
  U256 and byte ranges of its fields.
- `Verifier` (verifier.dfy) models `server/src/verifier.rs` with pure
  functions:
  - `Verify` is `Verifier::verify`: the block-number window, the
    transaction checks, the duplicate-sender check, then the balance and
    nonce checks. It returns the outcome and the reads it made, in order.
  - `VerifyTransaction` is `verify_transaction`.
  - `MinimalGas` is `minimal_gas`.
  - The constants are `CHAIN_ID` = 42, `MIN_GAS_PRICE` = 4 gwei and
    `MAX_FUTURE_BLOCK` = 1 000 000.
  - `Admissible` and `IntrinsicGas` are independent reference definitions.
    `IntrinsicGas` is g0 of the Ethereum Yellow Paper, section 6.2, with
    the pre-EIP-2028 byte costs. Lemmas tie the functions to them.
- `Submission` (submission.dfy) models the `Submitter` future of
  `server/src/submitter.rs` as a class:
  - The `Sinks` object holds the channel of every endpoint. Each channel
    is a queue of handed-over transactions and an open/closed flag.
  - `Submitter.Poll` pulls one transaction at a time, sends it to every
    sink, and pulls the next one only after all those sends succeeded.
  - A ghost log of the sends records their order. Lemmas about that log
    state the ordering guarantees.
- `Scheduler` (scheduler.dfy) models the two drivers of
  `server/src/submitter.rs`:
  - `OnBlock` and `RunBlock` model `run_block`: key `block + submit_earlier`,
    skip absent keys, drain, submit.
  - `OnTick` models one iteration of `run_timestamp`.
  - `RunBlocks` is the driver as a function over a sequence of observed
    blocks. `RunBlocksDeliversEachKeyOnce` ties it to a reference
    definition.

Assumptions:
- Decoding, signature recovery and the EIP-155 chain-id check are ethcore
  code and are not part of this model. They are an input value of type
  `Decoded`: not RLP, signature not recoverable, or a signed transaction
  with its chain id and a signature-validity flag. The chain-id rule is the
  one of EIP-155: a signature without a chain id passes, and one with a
  chain id passes only when that id is 42.
- The `Blockchain` and `Database` implementations are not part of this
  model. `Verify` receives a `ChainState` value (latest block and
  accounts; a missing account stands for a failed lookup) and the set of
  already-scheduled senders. The drivers use a `Database` class whose
  `Drain` hands out and removes the batch at a key. This is a modelling
  assumption about the store, not a proved property.

A failed submission panics in both drivers: `run_block` maps the error to
`unreachable!()` (server/src/submitter.rs:47), and `run_timestamp` calls
`.expect` (server/src/submitter.rs:68). The model ends both drivers with
`Aborted` / `Panicked`.

## Model

| member | source | states |
|---|---|---|
| Verifier.FoldGas | server/src/verifier.rs:124-127 | the fold adds between 4 and 68 per payload byte to its start value |
| Verifier.MinimalGas | server/src/verifier.rs:112-128 | minimal gas lies between base + 4·len and base + 68·len, base 53000 for a create and 21000 for a call |
| Verifier.FoldGasClosedForm | server/src/verifier.rs:124-127 | the fold equals its start value plus 4 per zero byte plus 68 per non-zero byte |
| Verifier.MinimalGasIsIntrinsic | server/src/verifier.rs:112-128 | minimal_gas equals the Yellow Paper g0 with these constants |
| Verifier.EmptyPayloadGas | server/src/verifier.rs:114-125 | an empty call needs 21000 gas and an empty create 53000 |
| Verifier.AppendByteGas | server/src/verifier.rs:124-127 | appending a byte raises minimal_gas by exactly 4 (zero byte) or 68 |
| Verifier.MinimalGasMonotone | server/src/verifier.rs:124-127 | minimal_gas of a payload prefix is never more than that of the payload |
| Verifier.SaturatingAdd | server/src/verifier.rs:73 | saturating_add is the exact sum when it fits in U256 and U256::MAX otherwise, and never less than either operand |
| Verifier.SaturatingMul | server/src/verifier.rs:73 | saturating_mul is the exact product when it fits in U256 and U256::MAX otherwise |
| Verifier.Required | server/src/verifier.rs:73 | the required balance is value + gas·gas_price when that fits in U256 and U256::MAX otherwise, and never less than the value |
| Verifier.RequiredIsCappedCost | server/src/verifier.rs:73 | the saturating value + gas·gas_price equals the true cost capped at U256::MAX |
| Verifier.MaximalGasNotWrapped | server/src/verifier.rs:73 | at gas = gas_price = u64::MAX the product is exact and only the sum can saturate |
| Verifier.VerifyTransaction | server/src/verifier.rs:92-110 | an accepted transaction is the decoded one, has gas at least minimal_gas and gas price at least 4 gwei |
| Verifier.Verify | server/src/verifier.rs:37-89 | the latest block is read first; an accepted request returns the requested block number and the decoded transaction, and the block number lies in (latest, latest + 1 000 000] |
| Verifier.VerifyAcceptsIff | server/src/verifier.rs:37-110 | verify accepts exactly the requests meeting every condition of the order-free reference, and returns them unchanged |
| Verifier.PastBlockRejected | server/src/verifier.rs:41-45 | a block number at or below the latest is rejected as an invalid block number after reading only the latest block |
| Verifier.CurrentBlockRejected | server/src/verifier.rs:42 | with latest block 100 a request for block 100 is rejected |
| Verifier.FarFutureBlockRejected | server/src/verifier.rs:47-50 | a block number beyond latest + 1 000 000 is rejected after reading only the latest block |
| Verifier.GasCheckedBeforeGasPrice | server/src/verifier.rs:97-107 | too little gas is reported as such whatever the price; the price is rejected only when the gas suffices |
| Verifier.DuplicateSenderRejectedBeforeLookup | server/src/verifier.rs:62-65 | an already-scheduled sender is rejected and its balance and nonce are never looked up |
| Verifier.ChainStateReadLast | server/src/verifier.rs:61-70 | balance and nonce are read only for the sender of a request that passed the window, transaction and sender checks |
| Verifier.AcceptedCoversCost | server/src/verifier.rs:73-79 | an accepted sender's balance covers value + gas·gas_price, or is U256::MAX when that cost exceeds it |
| Verifier.BalanceCheckedBeforeNonce | server/src/verifier.rs:74-85 | a balance below the required amount is rejected as insufficient, reporting required and actual balance, whatever the nonce |
| Verifier.NonceMustMatch | server/src/verifier.rs:80-85 | with every other check passing, any nonce other than the account's is rejected, reporting both nonces |
| Submission.Sinks.constructor | server/src/submitter.rs:115-118 | new channels start empty and open |
| Submission.Sinks.Send | server/src/submitter.rs:163 | a send appends the transaction to that endpoint's queue when the channel is open, fails and changes nothing when closed |
| Submission.Reach | server/src/submitter.rs:192 | the sends of one transaction reach the channels before the first closed one: every channel before that index is open, and it is either the number of channels or a closed one |
| Submission.Submitter.constructor | server/src/submitter.rs:155-173 | a new submitter has pulled the first transaction into its state, or holds None for an empty batch |
| Submission.Submitter.SendToAll | server/src/submitter.rs:189-194 | the transaction reaches every sink in order up to the first closed one; success iff every channel is open |
| Submission.Submitter.Advance | server/src/submitter.rs:189-198 | the next transaction is pulled from the batch and the position moves by one |
| Submission.Submitter.Step | server/src/submitter.rs:184-198 | one turn of the loop: success iff every channel is open, and then every sink has gained the current transaction and the next one has been pulled; otherwise nothing is pulled and only the sinks before the first closed one have it |
| Submission.Submitter.Poll | server/src/submitter.rs:180-200 | Ready leaves state None and every sink's queue grown by exactly the remaining batch in order, with one send per item and sink; Failed iff items remained and a channel is closed, and then nothing further is pulled |
| Submission.Submit | server/src/submitter.rs:35 | a submission either appends the whole batch, in order, to every sink, or fails, when the batch is non-empty and a channel is closed, after handing its first item to the sinks before the closed one |
| Submission.FanOutLogLength | server/src/submitter.rs:185-198 | a completed run makes exactly one send per item and sink |
| Submission.FanOutLogPosition | server/src/submitter.rs:185-198 | item k of a completed run reaches sink j as send number (k - first)·N + j, with N the number of sinks |
| Submission.FanOutLogComplete | server/src/submitter.rs:189-194 | every item of the run is sent to every sink, and nothing else is sent |
| Submission.FanOutLogOrdered | server/src/submitter.rs:185-194 | the sends go out in batch order |
| Submission.AllSinksAcceptBeforeNext | server/src/submitter.rs:185-194 | before any sink is handed item k + 1, every sink has accepted item k |
| Scheduler.DrainResult | server/src/submitter.rs:34 | a drain fails exactly at unreadable keys, finds nothing exactly at absent readable keys, and otherwise returns the batch stored at the key |
| Scheduler.AfterDrain | server/src/submitter.rs:34 | after a drain the store holds the same batches and has lost the key, unless the read failed |
| Scheduler.Database.Drain | server/src/submitter.rs:34 | draining returns the batch at the key, nothing, or a read error, and removes the key unless the read failed |
| Scheduler.DrainTwice | server/src/submitter.rs:34 | right after a drain the same key drains to nothing (or fails again when unreadable) |
| Scheduler.BlockEffect | server/src/submitter.rs:29-44 | one block step delivers the batch at the key exactly when it is present and readable, and leaves the store as after the drain (untouched for an absent key) |
| Scheduler.TickEffect | server/src/submitter.rs:63-73 | one tick delivers the batch at the current second exactly when it is present and readable, and leaves the store as after the drain |
| Scheduler.TickMatchesBlockStep | server/src/submitter.rs:63-73 | draining without the existence check delivers the same batch and leaves the same store as the block driver's step |
| Scheduler.RunBlocks | server/src/submitter.rs:29-45 | the driver over observed blocks never adds a key to the store |
| Scheduler.RunBlocksDeliversEachKeyOnce | server/src/submitter.rs:29-45 | over observed blocks the driver delivers exactly the batches of the distinct readable keys, in first-seen order, and removes exactly those keys |
| Scheduler.RunBlocksPrefix | server/src/submitter.rs:29-45 | what earlier blocks delivered is a prefix of what the whole stream delivers |
| Scheduler.SubmitEarlierExample | server/src/submitter.rs:30-31 | with submit_earlier 2 a batch stored at 12 goes out when block 10 is seen and blocks 11 and 12 add nothing |
| Scheduler.OnBlock | server/src/submitter.rs:30-47 | one block step leaves the store as the block step function says, skips iff the key is absent, reports a read error iff the key is present and unreadable, never finds nothing, and aborts iff the delivered batch is non-empty and a channel is closed; otherwise every queue grows by that batch, and on an abort only the sinks before the first closed one have gained its first transaction |
| Scheduler.PanicAfterStep | server/src/submitter.rs:29-47 | a failing block step after blocks that delivered nothing leaves the store drained through that block and only the sinks before the first closed one holding its first transaction, and the whole stream then delivers something |
| Scheduler.RunBlock | server/src/submitter.rs:21-48 | the driver panics iff the blocks deliver something and a channel is closed; on a panic the failing block is the first that delivers anything, the store is as the run through that block leaves it, and only the sinks before the first closed one have gained its first transaction; otherwise the store and every queue end as the run function says |
| Scheduler.OnTick | server/src/submitter.rs:63-74 | one tick drains the current second's key without an existence check, reports a read error iff the key is unreadable and nothing found iff it is readable and absent, and aborts iff the drained batch is non-empty and a channel is closed; otherwise every queue grows by that batch, and on an abort only the sinks before the first closed one have gained its first transaction |

## Left out

- Decoding, signature recovery and `verify_basic` (server/src/verifier.rs:93-95) are ethcore and rlp code. They are the input datatype `Decoded`, and the chain-id rule is taken from EIP-155.
- The `Blockchain` and `Database` implementations are not part of this model. Their reads are inputs to `Verify`, and the store is the `Database` class with an assumed atomic drain.
- The certification check is a TODO in the source and is not modelled.
- Overflow: `latest_block + MAX_FUTURE_BLOCK`, the u64 fold in `minimal_gas` and `block + submit_earlier` are computed on unbounded naturals. In the source, overflow there panics in debug builds and wraps in release builds.
- Web3 transports, event loops, `init_transports`, `Sink::new_sink` / `Sink::run` and `send_raw_transaction` (server/src/submitter.rs:86-141) are network I/O. A send is an append to the endpoint's queue that fails once its worker is gone. Whether the endpoint then accepts the raw transaction is not modelled.
- Futures plumbing: the model has no `NotReady` and no re-poll. It also leaves out backpressure from the 1024-slot channels and the interleaving of the sends inside one `join_all`. One `Poll` runs the submitter to completion. The sends for one transaction go out one after another in sink order and stop at the first failure, and channels do not close during a poll.
- Submission.Sinks: all channels are one object holding one queue per endpoint. Cloning the sender list and aliasing between individual channel handles are not modelled.
- Submission.Submitter.Poll: on the first failed send the source's `join_all` drops every send future of that transaction, accepted and pending alike, so the submitter keeps no sender at all, and a later poll would run on with zero sinks. The model does not model any poll after a failure, because both drivers panic then.
- `run_timestamp`'s endless loop, the wall-clock read, the one-second sleep and the `thread::panicking()` exit (server/src/submitter.rs:62-81) are not modelled. `OnTick` is one iteration for a given second.
- `RunBlock` takes a finite sequence of blocks in place of the block subscription stream.
- Logging and the human-readable error texts are not modelled. Rejections are the `Rejection` datatype, carrying the numbers the messages report.
- Scheduler.OnBlock: the source's `Ok(None)` branch after `has` (server/src/submitter.rs:36-39) cannot be reached in the model, because a key found by `Has` is drained by the same driver before anyone else can drain it.
