# Monmouth: a verified model

This project models the parts of the Monmouth repository where a mistake would lose money or
identity, and proves what they guarantee:

* **Codecs** (`Positional`, `Base58Alphabet`, `ArrayBase58`, `BigIntBase58`, `Base58Agreement`,
  `Hex`, `Addresses`, `Dids`, `TokenAmounts`, `JsText`): the three base58 encoders and two decoders,
  the hex codec, addresses of both chains, `did:key` identifiers and decimal token amounts. Every
  codec is proved equal to one reference, a change of base that keeps the leading zero digits
  (the Encoding Algorithm and Decoding Algorithm sections of draft-msporny-base58).
* **The L2 sequencer** (`Messages`, `MessageQueues`, `BlockProduction`, `ScanCursor`,
  `DepositPipeline`, `DepositRestarts`, `L1Contracts`, `BatchSubmission`, `BatchAccounting`, `BatchRecovery`,
  `SequencerTasks`, `SubmitTask`): the
  deduplicating message queue, greedy block packing, the L1 scan cursor, the deposit tasks
  interleaved lock region by lock region, and batch submission step by step against the L1
  contracts' own rules: calls that fail, revert unread, land although an error was reported or land
  late, crashes, and restarts whose reads fail.
* **Spending guardrails** (`Guardrails`, `SpendingRuns`, `WalletRestart`): the policy enforcer, the
  budget over runs with several payments in flight, and wallet reloads.
* **Escrows and activity sync** (`Escrows`, `ActivityLogs`, `ActivitySync`): the escrow book over
  whole runs, and an activity log whose background syncs overlap each other and every change.

Loops and objects of the source are methods and classes; each is proved against a function that
says what it computes, and the laws are lemmas about those functions. Interleaved tasks are step
functions over events, and the laws are invariants of every run.

keccak is an arbitrary function assumed collision-free where a lemma says so. Calls to L1, payments,
clocks and the answers of a sync server are events or parameters. A transaction may fail, be
included, revert with its receipt taken for a success, be included while an error is reported, or be
included any time after the error.

## What the proofs found

* `encodeBase58` and `bytesToBase58` disagree on input without a nonzero byte: n zeros give n + 1
  and n '1's. The decoders return one zero byte too many on '1's alone, so the display of the
  all-zero Solana address does not parse, while thirty-one '1's do.
* `formatTokenAmount` and `parseTokenAmount` round-trip on every nonnegative amount; a negative
  amount with a fraction survives only if the fraction's units have exactly `decimals - 1` digits.
* The gas counter of `produce_block` is a wrapping u64: the block gas limit holds for all pools of
  admissible transactions exactly when twice the limit stays below 2^64, or blocks take fewer than
  two transactions.
* A restart forgets cursor, queue and processed hashes. Blocks are skipped exactly when the head has
  moved more than ten blocks since the last scan; but the cursor is written before the logs are
  enqueued, so deposits waiting in memory are lost with fewer, and deposits already counted are counted
  again if their blocks are rescanned. Over two lives every deposit is counted once exactly when the
  first life counted just those of the blocks before the first one the second life scans.
* The client awaits a receipt without reading its status, so a reverted batch counts as submitted.
  The submitter then moves past L1's index, nothing lands until a restart, and, if all roots were
  committed, it commits a root for a batch that does not exist. Without such a revert committed roots
  and payouts always match the batches, late inclusions and restarts included; with enough of them
  after a failed sync any root at all gets committed.
* A batch that landed although the call reported an error, or a start whose reads failed, leaves the
  submitter disagreeing with L1: unless a batch is still in transit or a revert goes unread, nothing
  more lands until a restart. A state root that is neither about to be committed nor in transit when its
  turn has passed stops all later commitments, restarts included, until a revert goes unread.
* The submitter leaves the message hash of every withdrawal zero: no run pays out more than one, none
  at all unless some request really hashes to zero, and the withdrawals root depends only on their
  number.
* A clear is safe exactly when no sync is awaiting its answer: otherwise the answer can mark an entry
  the server has never seen.
* The list of actions shown for a locked escrow depends on its expiry; the methods do not. An overdue
  escrow can still be released until a sweep finds it; after that its payer can no longer be refunded.

## Model

| member | source | states |
|---|---|---|
| Positional.TranscodeKeeps | wallet-sdk/src/core/utils.ts:38-84 | The reference change of base keeps the number denoted, the count of leading zero digits, and whether any digit is nonzero. |
| Positional.TranscodeBack | wallet-sdk/src/core/utils.ts:38-84 | Changing the base back restores every digit string: the reference codec is a bijection in any two bases. |
| Positional.CanonicalUnique | wallet-sdk/src/core/utils.ts:49-52 | A numeral without a leading zero is the only one of its value. |
| Positional.CanonicalLength | wallet-sdk/src/core/utils.ts:49-52 | The digit loop yields at most k digits exactly when the number is below base^k. |
| Base58Alphabet.AlphabetPositions | wallet-sdk/src/core/utils.ts:71-72 | `indexOf` in the alphabet string is the digit of the character, or -1 outside the alphabet, for every character. |
| Base58Alphabet.EncodeDigits | wallet-sdk/src/core/utils.ts:38-57 | The encoding's digits are the base change of the bytes, leading zeros included. |
| Base58Alphabet.DecodeOfEncode | wallet-sdk/src/core/utils.ts:38-84 | Decoding an encoding restores the bytes if and only if one is nonzero; n zero bytes come back as n + 1. |
| Base58Alphabet.EncodeOfDecode | wallet-sdk/src/core/utils.ts:60-84 | Encoding what a base58 string decodes to restores the string if and only if it has a character other than '1'. |
| ArrayBase58.MulAddLittle | wallet-sdk/src/identity/AgentIdentity.ts:49-60 | One carry pass over the digits of n gives exactly the digits of n * mul + carry, with no leading zero. |
| ArrayBase58.DivMod58 | wallet-sdk/src/identity/AgentIdentity.ts:52-59 | On a carry below 58 * 256 the 32-bit division truncates nothing: digit and next carry are remainder and quotient, the carry below 256. |
| ArrayBase58.LowByteAndRest | wallet-sdk/src/identity/AgentIdentity.ts:92-100 | On a carry below 58 * 256 the mask and the shift give remainder and quotient by 256, the next carry below 58. |
| ArrayBase58.ConsumeByte | wallet-sdk/src/identity/AgentIdentity.ts:50-60 | The inner loops multiply the digit array by 256 and add the byte, every intermediate within 32 bits. |
| ArrayBase58.ConsumeBytes | wallet-sdk/src/identity/AgentIdentity.ts:47-61 | After every byte the array holds the base-58 digits of the value consumed so far. |
| ArrayBase58.ConsumeChars | wallet-sdk/src/identity/AgentIdentity.ts:84-102 | After every character the array holds the base-256 digits of the value consumed so far; the first foreign character is an error. |
| ArrayBase58.EncodeBase58 | wallet-sdk/src/identity/AgentIdentity.ts:46-78 | Returns the reference encoding, or n + 1 '1's on n bytes without a nonzero one. |
| ArrayBase58.DecodeBase58 | wallet-sdk/src/identity/AgentIdentity.ts:83-121 | Returns the reference decoding of a base58 string, with one more zero byte on '1's alone, and an error on any other string. |
| ArrayBase58.ArrayRoundTrip | wallet-sdk/src/identity/AgentIdentity.ts:46-121 | Decoding the array form restores the bytes if and only if one is nonzero; n zero bytes come back as n + 2. |
| Hex.BytesToHex | wallet-sdk/src/core/utils.ts:16-22 | Returns 0x and the two lower-case digits of every byte. |
| Hex.HexToBytes | wallet-sdk/src/core/utils.ts:25-35 | Returns the bytes read pair by pair as `parseInt` reads them, prefix optional, and an error on odd length. |
| Hex.HexRoundTrip | wallet-sdk/src/core/utils.ts:16-35 | Reading back the hex text of any bytes restores them. |
| Hex.HexTextRoundTrip | wallet-sdk/src/core/utils.ts:16-35 | On an even number of hex digits, with or without prefix, writing what was read restores the text in lower case. |
| Hex.PairUpValue | wallet-sdk/src/core/utils.ts:47 | A hex text and the bytes it spells denote the same number, which is how the encoder gets its BigInt. |
| BigIntBase58.BytesToBase58 | wallet-sdk/src/core/utils.ts:38-57 | Returns the reference encoding; the empty array is a syntax error. |
| BigIntBase58.Base58ToBytes | wallet-sdk/src/core/utils.ts:60-84 | Returns the same as the array decoder on every string, through `toString(16)`, padding and the hex decoder. |
| BigIntBase58.NumberThroughHex | wallet-sdk/src/core/utils.ts:77-78 | A number written in hex, padded to even length and read back becomes its base-256 digits; zero becomes one zero byte. |
| BigIntBase58.Base58Encode | wallet-sdk/src/wallet/AgentWallet.ts:234-254 | The fold and the prepending loops return the reference encoding on every array, empty included. |
| BigIntBase58.RoundTrip | wallet-sdk/src/core/utils.ts:38-84 | Encoding and decoding with the utility codec restores the bytes if and only if one is nonzero; n >= 1 zero bytes come back as n + 1, and on no bytes the encoder throws. |
| Base58Agreement.CompareEncoders | wallet-sdk/src/identity/AgentIdentity.ts:46-78 | The three encoders return one string if and only if some byte is nonzero; otherwise n and n + 1 '1's, and the utility encoder throws on no bytes. |
| Base58Agreement.CrossRoundTrip | wallet-sdk/src/identity/AgentIdentity.ts:83-121 | Each of the three encoders followed by each of the two decoders restores the bytes if and only if one is nonzero; on other input the results, and the utility encoder's throw on none, are given. |
| Base58Agreement.EncodeInjective | wallet-sdk/src/wallet/AgentWallet.ts:234-254 | No two byte arrays share an encoding. |
| Addresses.CreateAddress | wallet-sdk/src/core/utils.ts:89-95 | Displays raw bytes as hex or base58 by chain; a base58 address of no bytes throws. |
| Addresses.ParseAddress | wallet-sdk/src/core/utils.ts:98-114 | Accepts 20 bytes of hex or 32 bytes of base58 and rejects everything else with the error of the step that fails. |
| Addresses.ParseEvm | wallet-sdk/src/core/utils.ts:98-106 | An EVM address parses exactly when it has 42 characters, starts with 0x or 0X and goes on with hex digits in either case; it has 20 bytes and displays in lower case. |
| Addresses.ParseDisplayEvm | wallet-sdk/src/core/utils.ts:89-114 | Parsing the display of any 20 bytes gives the same address. |
| Addresses.ParseDisplaySvm | wallet-sdk/src/core/utils.ts:89-114 | Parsing the display of 32 bytes gives the same address if and only if one byte is nonzero; the all-zero address is rejected. |
| Addresses.ParseThenDisplaySvm | wallet-sdk/src/core/utils.ts:107-113 | A parsed base58 address displays as written except that thirty-one '1's parse as the all-zero address. |
| Addresses.Base58Room | wallet-sdk/src/tokens/types.ts:354-357 | 58^(44-z) is at least 256^(32-z) for each count z of leading zero bytes. |
| Addresses.SolanaDisplay | wallet-sdk/src/tokens/types.ts:354-357 | The display of every 32-byte array has 32 to 44 base58 characters, so the address pattern accepts it. |
| Dids.GenerateFromAddress | wallet-sdk/src/identity/AgentIdentity.ts:229-246 | Returns the did:key identifier of the bytes spelled by the address. |
| Dids.ExtractAddress | wallet-sdk/src/identity/AgentIdentity.ts:251-277 | Returns the 0x-text of the key bytes behind the secp256k1 prefix, and null on anything else. |
| Dids.GenerateFromUniversal | wallet-sdk/src/wallet/AgentIdentityManager.ts:181-195 | Returns the identifier of the raw bytes under the prefix of the chain. |
| Dids.ParseDid | wallet-sdk/src/wallet/AgentIdentityManager.ts:200-238 | Returns the address whose prefix the identifier carries, and null where any step throws. |
| Dids.GetWalletDid | wallet-sdk/src/wallet/AgentWallet.ts:214-232 | The agent wallet's identifier is that of the manager. |
| Dids.ParseUndoesGenerate | wallet-sdk/src/wallet/AgentIdentityManager.ts:181-238 | Parsing a generated identifier restores raw bytes, display and chain for every key, all-zero included; only an empty Solana key does not parse. |
| Dids.ExtractUndoesGenerate | wallet-sdk/src/identity/AgentIdentity.ts:229-277 | Extracting from the identifier of any address of whole bytes returns the address in lower case, all-zero included. |
| Dids.DidInjective | wallet-sdk/src/wallet/AgentIdentityManager.ts:181-195 | Distinct pairs of chain and key have distinct identifiers. |
| Dids.GenerateUndoesParse | wallet-sdk/src/wallet/AgentIdentityManager.ts:181-238 | Every identifier that parses is the one generated from what it parses to. |
| Dids.CompareEvmDids | wallet-sdk/src/wallet/AgentIdentityManager.ts:181-195 | Both managers and the agent wallet give the same EVM identifier, from text and from bytes. |
| TokenAmounts.TruncIsTruncating | wallet-sdk/src/core/utils.ts:153-156 | The quotient and remainder used are those of truncation toward zero. |
| TokenAmounts.ParseIntText | wallet-sdk/src/core/utils.ts:167-176 | `BigInt` of a printed integer is that integer, sign included. |
| TokenAmounts.FormatRoundTrip | wallet-sdk/src/core/utils.ts:153-176 | Parsing a formatted amount restores it on every nonnegative amount and, among negative ones, exactly on those without a fraction or with a fraction of decimals - 1 digits. |
| TokenAmounts.FormatCanonical | wallet-sdk/src/core/utils.ts:153-164 | The printed form has no dangling point and no trailing zero after the point, and at most `decimals` digits there. |
| TokenAmounts.ParseAtFewerDecimals | wallet-sdk/src/core/utils.ts:167-176 | On digits and points, parsing at d decimals is parsing at d + k divided by 10^k and rounded down. |
| Messages.PreimageInjective | primitives/src/message_queue.rs:88-102 | No two messages share the byte string that is hashed, although its middle field has no length prefix. |
| Messages.PreimageLayout | primitives/src/message_queue.rs:88-102 | Where each field stands in that byte string: kind byte, sender, recipient, value, data, nonce and timestamp, numbers most significant byte first. |
| MessageQueues.MessageQueue.ComputeMessageHash | primitives/src/message_queue.rs:88-102 | The buffer built field by field is that byte string. |
| MessageQueues.MessageQueue.Enqueue | primitives/src/message_queue.rs:27-55 | Refuses exactly the hashes already marked; otherwise a deposit joins the deposit deque, a withdrawal or cross-layer call the withdrawal deque and a state root its own, at the end, and the other deques stay as they are; the processed hashes stay those of the accepted messages and each deque the accepted ones of its kinds minus a taken prefix. |
| MessageQueues.LanesByKind | primitives/src/message_queue.rs:35-48 | What has passed through a deque, over any history, is exactly the accepted messages of its kinds, told by type. |
| MessageQueues.MessageQueue.AcceptedDistinct | primitives/src/message_queue.rs:27-55 | No message is accepted twice. |
| MessageQueues.MessageQueue.DequeueWithdrawal | primitives/src/message_queue.rs:58-60 | Takes the oldest waiting withdrawal, or nothing exactly when none waits. |
| MessageQueues.MessageQueue.DequeueDeposit | primitives/src/message_queue.rs:63-65 | Takes the oldest waiting deposit, or nothing exactly when none waits. |
| MessageQueues.RefusedIffAccepted | primitives/src/message_queue.rs:83-85 | Without hash collisions a message is refused if and only if that very message was accepted before. |
| MessageQueues.Replay | primitives/src/message_queue.rs:27-65 | Over any sequence of offers and dequeues the accepted messages are the first offers of each, in order. |
| BlockProduction.BlockProducer.ProduceBlock | engine/src/sequencer.rs:226-261 | Takes the prefix both limits allow and loses, repeats or reorders nothing: blocks followed by the pool are always what was submitted. |
| BlockProduction.BlockIsLongest | engine/src/sequencer.rs:226-261 | While the counter cannot wrap, a block is the longest prefix of the pool within both limits. |
| BlockProduction.GreedyIsOptimal | engine/src/sequencer.rs:226-261 | Repeated production uses no more blocks than any order-preserving partition within the limits. |
| BlockProduction.DrainsIff | engine/src/sequencer.rs:226-261 | Production drains every pool of transactions within the gas limit when blocks take at least one, even where the counter wraps; and, apart from the empty pool, only those while it cannot wrap. |
| BlockProduction.OnlyAdmissibleDrainIff | engine/src/sequencer.rs:236-246 | Only pools of transactions within the gas limit drain if and only if blocks take fewer than two transactions or the limit is zero or the largest u64; otherwise a wrapped counter admits an oversized one. |
| BlockProduction.GasLimitHoldsIff | engine/src/sequencer.rs:236-246 | On all pools of admissible transactions the gas limit holds if and only if twice the limit is below 2^64 or blocks take fewer than two transactions. |
| BlockProduction.RunUntilIdle | engine/src/sequencer.rs:226-261 | Ticks until nothing is produced make exactly the greedy blocks. |
| ScanCursor.L1Client.PollL1Deposits | engine/src/sequencer.rs:402-431 | One poll scans exactly when the head is read, has passed the cursor and the query succeeds; it scans from the block after the cursor, or from nine below the head on a fresh cursor, ten blocks at most, and moves the cursor to their end. |
| ScanCursor.ScansAreContiguous | engine/src/l1_client.rs:317-366 | For all heads, falling ones too, and all failures, scanned ranges follow one another without gap or overlap, at most ten blocks each. |
| ScanCursor.CursorNeverFalls | engine/src/l1_client.rs:362-363 | The cursor never decreases. |
| ScanCursor.FixedHeadProgress | engine/src/sequencer.rs:413-429 | At a fixed head H, k successful polls among any failed ones move a cursor at last > 0 to exactly min(H, last + 10k). |
| ScanCursor.RestartMissesNothingIff | engine/src/sequencer.rs:419-426 | Over all polls after a restart, every block between the old cursor and the head first seen is scanned if and only if the head has moved at most ten blocks: skipped blocks are never scanned later. |
| ScanCursor.Replay | engine/src/sequencer.rs:402-431 | A client polled any number of times has scanned exactly the ranges of the run. |
| DepositPipeline.NoncesRise | engine/src/sequencer.rs:522-536 | Block number times a million plus log index rises strictly along the chain, so no two logs share a nonce. |
| DepositPipeline.NextIsNew | engine/src/sequencer.rs:441-460 | The deduplication never refuses a deposit. |
| DepositPipeline.DepositsExactlyOnce | engine/src/sequencer.rs:402-519 | In every interleaving of poller and processor at lock granularity the i-th accepted message is a deposit with sender, recipient, value, data and nonce of the i-th scanned log, none is refused, messages leave in order, and accepted = counted + waiting + at most one in hand. |
| DepositPipeline.CountedCreditsDeposited | engine/src/sequencer.rs:475-536 | In every interleaving and for every address, the counted messages with that recipient add up to what the first logs, as many, deposit to it. |
| DepositPipeline.CanFinish | engine/src/sequencer.rs:475-519 | From every reachable state the tasks can finish, and then the counter equals the number of logs in the scanned blocks. |
| DepositRestarts.TwoLivesIff | engine/src/l1_client.rs:362-363 | Over a stop at any point and a finished second life, every deposit of the blocks concerned is counted exactly once, in order, if and only if the first life counted exactly those before the first block of the second. |
| DepositRestarts.CleanStopIff | engine/src/sequencer.rs:419-426 | If the first life had counted all it scanned, that holds if and only if no log lies in blocks scanned by both lives or by neither. |
| DepositRestarts.StopLosesScanned | engine/src/l1_client.rs:362-363 | A stop right after a poll has counted nothing, and once the head is ten blocks on the next life scans no block up to the old head. |
| L1Contracts.LastHashFixesHistory | contracts/src/SequencerInbox.sol:66-94 | Two chains of headers that agree on the last hash agree on every header. |
| BatchSubmission.BatchesChained | engine/src/sequencer.rs:315-399 | In every run, whatever L1 answers, batches have consecutive indices and name the hash of their predecessor; and as long as every submission reported as a success landed, committed roots are those of the first batches and a withdrawal is paid out only for a committed batch that carries it. |
| BatchSubmission.AtMostOnePayout | contracts/src/L1StandardBridge.sol:116-161 | No run pays out more than one withdrawal, for any hash function, and only for a committed index. |
| BatchSubmission.PayableIff | engine/src/sequencer.rs:281-294 | Some run pays a withdrawal if and only if the request of some message hashes to zero. |
| BatchSubmission.LandedHeader | engine/src/sequencer.rs:315-349 | The header a landing submission adds to L1 has the submitter's index and parent hash and the epoch, time and roots it was submitted with. |
| BatchSubmission.PayoutsRequested | engine/src/sequencer.rs:281-294 | While every reported success landed, each payout goes to the recipient of a message in the batch it names, from its sender and of its value and data. |
| BatchRecovery.NeverRejected | engine/src/sequencer.rs:351-363 | If a submission's error means that nothing landed, its Ok that it did not revert, and restarts read both values, then local index and parent are L1's whenever a submission may start, and no batch is refused, through failures and crashes anywhere. |
| BatchRecovery.DisagreementFreezesIff | engine/src/sequencer.rs:315-363 | Once index or parent differ from L1's nothing lands before a restart, barring unread reverts, if and only if no batch in transit would be accepted. |
| BatchRecovery.UnseenFreezes | engine/src/sequencer.rs:351-397 | In a run without unread reverts, a landing reported as an error is such a disagreement with nothing acceptable in transit: barring unread reverts, nothing more lands until a restart. |
| BatchRecovery.RootsMatchAfterOkIff | engine/src/l1_client.rs:218-236 | After a submission reported as a success and its commitment the roots match the batches if and only if the batch landed, its index was not the next to commit, or the batch with that index has the same root. |
| BatchRecovery.UnreadRevertRunsAhead | engine/src/l1_client.rs:218-236 | After a reverted batch taken for a success nothing lands until a restart unless something acceptable was in transit, and if all roots were committed there is now a root without a batch. |
| BatchRecovery.AheadFreezes | contracts/src/SequencerInbox.sol:66-76 | An index ahead of L1's, with nothing acceptable in transit, lands nothing before a restart however many reverts go unread. |
| BatchRecovery.StallsForeverIff | contracts/src/StateCommitmentChain.sol:60-79 | While a batch lacks its root, no later root is ever committed, restarts included and barring unread reverts, if and only if the missing root is neither about to be committed nor in transit. |
| BatchRecovery.StalledForever | contracts/src/StateCommitmentChain.sol:60-79 | While no further revert goes unread, no withdrawal behind such a stall is paid out. |
| BatchRecovery.StallEndsByRevert | engine/src/l1_client.rs:240-272 | Every stall can end, and only through an unread revert. |
| BatchRecovery.RevertsCommitAnything | contracts/src/StateCommitmentChain.sol:60-79 | From every run, a start with failed reads and unread reverts can commit any root as the next one, without a batch. |
| BatchAccounting.WithdrawalsAccounted | engine/src/sequencer.rs:273-313 | Accepted withdrawals are, in order, those that left the queue, those in hand and those waiting; batches carry exactly the withdrawals of the attempts that landed, and in the order of acceptance as long as every reported success landed. |
| BatchAccounting.NothingLostIff | engine/src/sequencer.rs:305-313 | Batches, hand and queue hold all accepted withdrawals if and only if no attempt with a withdrawal failed, found no client, crashed, reverted or is in transit; in the order of acceptance, as long as every reported success landed. |
| BatchRecovery.FirstSubmissionLandsIff | engine/src/sequencer.rs:74-97 | The first submission after a start lands if and only if the inbox is empty, or the index was read and so was the last hash (or that hash is zero). |
| BatchRecovery.BadStartFreezes | engine/src/sequencer.rs:74-97 | After any other start nothing lands until the next one, barring unread reverts, if and only if no batch in transit would be accepted. |
| SequencerTasks.EnqueueDeposits | engine/src/sequencer.rs:441-460 | The loop accepts, in order, the logs whose message was not accepted before and skips the others; each accepted message carries the fields of some log, each log has its message accepted now or before, and with rising new nonces they correspond one to one. All join the deposit deque and the other deques stay. |
| SequencerTasks.ProcessPendingDeposits | engine/src/sequencer.rs:475-519 | The loop empties the deposit deque in order and counts each. |
| SequencerTasks.EnqueueThenProcess | engine/src/sequencer.rs:441-519 | Enqueueing logs and then processing counts exactly the deposits already waiting plus those newly accepted, and leaves none waiting and the withdrawals untouched. |
| SequencerTasks.DrainWithdrawals | engine/src/sequencer.rs:273-302 | The loop turns all waiting withdrawals, in order, into requests from the sender to the recipient of each, with its nonce, value and data and the fixed gas limit. |
| SequencerTasks.ComputeWithdrawalsRoot | engine/src/l1_client.rs:387-398 | The root is zero for no withdrawals and otherwise the hash of their message hashes end to end. |
| SequencerTasks.RootBytesLayout | engine/src/l1_client.rs:387-398 | In the bytes hashed for the root the i-th withdrawal's message hash stands at byte 32 * i. |
| SequencerTasks.CompareRoots | engine/src/l1_client.rs:387-398 | Two batches have the same withdrawals root if and only if they carry equally many withdrawals. |
| SubmitTask.RunContinues | engine/src/sequencer.rs:263-399 | A stretch of steps after a run is a longer run, so the run invariants hold of it. |
| SubmitTask.SubmitRun | engine/src/sequencer.rs:263-399 | The protocol's stretch for one submission, for every combination of answers, ends idle with the queue drained and with index, parent and L1 as the code leaves them; an unread revert is recorded like a landing. |
| SubmitTask.L2Sequencer.SubmitBatch | engine/src/sequencer.rs:263-399 | One uninterrupted execution, for every combination of answers, ends in the state the protocol's steps reach. A header that lands has the sequencer's index and parent, the context's epoch, time, state and transactions roots, and the root of the drained withdrawals; index and parent move on exactly after a reported success, its root is committed exactly if the commitment arrives in turn, and nothing is paid unless that is reported as a success, too. |
| SubmitTask.FinalizeTriesAll | engine/src/l1_client.rs:485-498 | For every batch, L1 state and payment outcomes, finalizing changes nothing but the payouts, pays only payable requests of the batch and no hash twice, and leaves no payable request's hash unpaid. |
| SubmitTask.L2Sequencer.FinalizeWithdrawals | engine/src/l1_client.rs:485-498 | Tries every withdrawal of the batch once, in order, and goes on after a failure: only payable requests of the batch are paid, under its index and never a hash twice, and every payable request's hash is paid afterwards. |
| SubmitTask.L2Sequencer.Start | engine/src/sequencer.rs:74-97 | Takes over L1's batch count as the index if that read succeeds, and L1's last hash if both do; otherwise each keeps its value. |
| Guardrails.PolicyEnforcer.Validate | wallet-sdk/src/guardrails/PolicyEnforcer.ts:37-109 | Allows exactly the unexpired, permitted, unblocked, listed payments within both limits, said of the policy's fields; reports each rule exactly when it is the first one violated; and resets the day only when the daily limit is reached and the day has changed. |
| Guardrails.VerdictReports | wallet-sdk/src/guardrails/PolicyEnforcer.ts:37-109 | The verdict function behind every run law meets that field-by-field specification for every policy, intent, ledger and time. |
| Guardrails.PolicyEnforcer.RecordSpend | wallet-sdk/src/guardrails/PolicyEnforcer.ts:114-117 | Adds to the day's spending, a due reset first. |
| Guardrails.PolicyEnforcer.GetRemainingDaily | wallet-sdk/src/guardrails/PolicyEnforcer.ts:122-126 | Returns the limit minus the day's spending, never below zero. |
| Guardrails.RemainingIsSpendable | wallet-sdk/src/guardrails/PolicyEnforcer.ts:86-126 | A payment of a positive amount that passes the other rules is allowed if and only if it is at most what is said to remain. |
| Guardrails.SaveAndRebuild | wallet-sdk/src/guardrails/PolicyEnforcer.ts:230-255 | An enforcer written to its JSON form and rebuilt has the same policy and spending. |
| SpendingRuns.BudgetHolds | wallet-sdk/src/payments/PaymentRouter.ts:167-230 | With at most k payments in flight and a clock that does not fall, reloads of the wallet included, spent plus in flight and each UTC day's recorded total stay within maxPerDay + (k-1) * the smaller limit (zero if maxPerTransaction is zero), and any 24 hours within twice that. |
| SpendingRuns.BoundIsReached | wallet-sdk/src/payments/PaymentRouter.ts:368-412 | For all nonnegative limits, wherever destination and session pass, some run with at most k in flight records exactly that bound in one day. |
| SpendingRuns.OnlyPermittedRecorded | wallet-sdk/src/payments/PaymentRouter.ts:167-230 | In every run, reloads included, each recorded payment went to an address that is not blocked and, where there is an allowlist, is on it, letter case aside, and was within both limits. |
| WalletRestart.PayDirect | wallet-sdk/src/payments/PaymentRouter.ts:368-412 | A payment to anything but an address is refused as such, and otherwise blocked exactly as the policy's fields have it; blocked and failed payments record nothing; a successful one is recorded at the later time and what is persisted restores the resulting spending. |
| WalletRestart.MonmouthWallet.constructor | wallet-sdk/src/MonmouthWallet.ts:54-72 | A new wallet takes the configured policy; on anything that was saved it has exactly the spending saved, and it starts at zero when nothing readable is stored. |
| WalletRestart.MonmouthWallet.RecordTransaction | wallet-sdk/src/MonmouthWallet.ts:228-232 | Records the spend and persists a state that restores it. |
| WalletRestart.RecordThenReload | wallet-sdk/src/MonmouthWallet.ts:275-326 | Recording a transaction and constructing a wallet from what was saved gives the spending of the first wallet and its verdict on every intent at every time. |
| WalletRestart.RestartsUnobservable | wallet-sdk/src/MonmouthWallet.ts:275-326 | A wallet reloaded at any points of a run shows the same spending, remaining budget and verdicts as one never reloaded, although validation's day reset is not persisted. |
| WalletRestart.ClockMustNotFall | wallet-sdk/src/guardrails/PolicyEnforcer.ts:175-181 | For any two clock readings, a reload at the second makes a difference if and only if a validation or a query at the first reset the day, the second is no later than the day last spent on, and something was spent then. |
| Escrows.EscrowClient.CreateEscrow | wallet-sdk/src/commerce/EscrowClient.ts:90-160 | Only a connected wallet within its guardrails creates an escrow; its payer is the connected address and recipient, amount, token, expiry, arbiter and the rest are those of the call; it starts locked, no other escrow changes, and the amount counts as spent. |
| Escrows.CreatorControls | wallet-sdk/src/commerce/EscrowClient.ts:90-254 | Right after its creation an escrow is released and refunded by the creating wallet's address and nobody else, and disputed by it and the recipient. |
| Escrows.EscrowClient.ReleaseEscrow | wallet-sdk/src/commerce/EscrowClient.ts:167-207 | Only the payer releases, letter case aside, only a locked escrow, with the errors in the order of the checks; that record becomes released at that time with the placeholder hash, and nothing else changes. |
| Escrows.EscrowClient.RefundEscrow | wallet-sdk/src/commerce/EscrowClient.ts:214-254 | Only the payer refunds, letter case aside, only a locked escrow; that record becomes refunded at that time with the placeholder hash, and nothing else changes. |
| Escrows.EscrowClient.DisputeEscrow | wallet-sdk/src/commerce/EscrowClient.ts:261-307 | Only payer or recipient dispute, only a locked escrow; that record becomes disputed with the reason given, and nothing else changes. |
| Escrows.EscrowClient.ResolveDispute | wallet-sdk/src/commerce/EscrowClient.ts:312-362 | Only the arbiter, or anyone connected if there is none, resolves, and only a disputed escrow; that record becomes resolved with the resolution given, and nothing else changes. |
| Escrows.EscrowClient.CheckExpiredEscrows | wallet-sdk/src/commerce/EscrowClient.ts:409-427 | Exactly the locked escrows strictly past their expiry become expired, the others stay as they are, and those are returned in insertion order. |
| Escrows.LifecycleHolds | wallet-sdk/src/commerce/EscrowClient.ts:90-427 | Over every continuation of every run with fresh ids an escrow stays in the book, its state only moves locked to released, refunded, expired or disputed, and disputed to resolved, and its terms never change. |
| Escrows.AllDocumented | wallet-sdk/src/commerce/EscrowClient.ts:167-362 | In every run a record is past pending and carries a release time, refund time, dispute reason and resolution exactly as its state requires. |
| Escrows.SweepForfeitsRefund | wallet-sdk/src/commerce/EscrowClient.ts:409-427 | The payer of an overdue escrow may refund it right before a sweep; afterwards, in every continuation, it stays expired and every release, refund, dispute and resolution is refused. |
| Escrows.ReloadKeepsBook | wallet-sdk/src/commerce/EscrowClient.ts:480-523 | After every run, a client started on what was persisted has the same book in the same order, amounts written and read as decimal text. |
| Escrows.EscrowClient.RestoreEscrows | wallet-sdk/src/commerce/EscrowClient.ts:502-523 | Restores the stored escrows up to the first unreadable one. |
| Escrows.AmountsConserved | wallet-sdk/src/commerce/EscrowClient.ts:90-427 | Amounts partitioned by state always sum to all amounts successfully escrowed. |
| Escrows.CreationAddsIff | wallet-sdk/src/commerce/EscrowClient.ts:90-160 | A creation adds exactly its amount if and only if its id is new or the overwritten record held nothing. |
| Escrows.GetAvailableActions | wallet-sdk/src/commerce/types.ts:238-266 | Offers exactly the actions of the user's roles in the state and time of the escrow; a payer who is also the recipient is offered the dispute twice. |
| Escrows.OfferedActionsAreAccepted | wallet-sdk/src/commerce/types.ts:238-266 | An action is offered to a user if and only if the matching method accepts it from that user and the expiry is ahead (for a refund: reached). |
| Escrows.ExpiredAfterSweep | wallet-sdk/src/commerce/types.ts:231-233 | After a sweep an escrow still counts as expired if and only if it is locked and expires at that very moment: the sweep compares strictly, the predicate does not. |
| ActivityLogs.ActivityLog.LogActivity | wallet-sdk/src/memory/ActivityLog.ts:149-167 | Appends a pending entry at version 1 with the given fields under the next id. |
| ActivityLogs.ActivityLog.Import | wallet-sdk/src/memory/ActivityLog.ts:293-322 | Keeps the log and appends under the next ids entries taken over field by field from imported ones, a missing status pending and a missing version 1; none repeats agent, time and action of an earlier entry, and afterwards every imported one is matched. |
| ActivityLogs.ActivityLog.DeleteEntry | wallet-sdk/src/memory/ActivityLog.ts:356-367 | Removes the first entry of that id and no other, and says whether there was one. |
| ActivityLogs.ActivityLog.DeleteOlderThan | wallet-sdk/src/memory/ActivityLog.ts:372-394 | Removes exactly the entries before the cutoff that agent and status filters select, keeps the others in order, and returns the number removed. |
| ActivityLogs.ActivityLog.UpdateSyncStatus | wallet-sdk/src/memory/ActivityLog.ts:235-249 | Sets the status of the first entry of that id and raises its version exactly when it becomes synced; nothing else changes. |
| ActivityLogs.MemoryClient.SyncBegin | wallet-sdk/src/memory/MemoryClient.ts:212-241 | Sends exactly the pending entries, or nothing when there are none. |
| ActivityLogs.MemoryClient.SyncEnd | wallet-sdk/src/memory/MemoryClient.ts:243-256 | Acknowledges the sent entries without a conflict, by id, and keeps the new token. |
| ActivitySync.MarkAllEffect | wallet-sdk/src/memory/ActivityLog.ts:268-272 | Marking a list of distinct ids changes each listed entry still present once, and nothing else. |
| ActivitySync.SyncIsTruthful | wallet-sdk/src/memory/MemoryClient.ts:212-264 | In every run with overlapping syncs and no clear in flight ids stay unique and below nextId; an entry turns synced exactly when an answered request carried that entry without conflict, others keep their status, and its version counts those answers. |
| ActivitySync.ClearInFlightConfuses | wallet-sdk/src/memory/ActivityLog.ts:329-338 | After any run, a clear with a request awaiting its answer has a continuation that marks an entry no answered request carried. |
| ActivitySync.ClearIsSafeIff | wallet-sdk/src/memory/ActivityLog.ts:329-338 | A clear after any run is safe for every continuation if and only if no request is awaiting its answer. |
| ActivitySync.ImportTwice | wallet-sdk/src/memory/ActivityLog.ts:293-322 | Importing the same entries again changes nothing. |

## Left out

- DepositPipeline.Step: the tasks are a step function over values, one step per lock region; the loops that run them are the methods of SequencerTasks, proved without interference.
- BatchSubmission.Step: likewise one step per await; transactions in transit are included in any order or never, nonces aside; SubmitTask.L2Sequencer.SubmitBatch is the same code as a method and is proved to follow the steps when nothing intervenes.
- MessageQueues.MessageQueue.Enqueue: two concurrent enqueuers are not modelled, since check and mark are separate lock regions in the source; one enqueuer with concurrent dequeues is (DepositPipeline).
- L1Contracts.SubmitBatch: only the index, parent, order and finalization rules of the three contracts; access control (`onlySequencer`, `setSequencer`), other callers of the bridge, deposits and events are not part of this model.
- BatchSubmission.BatchesChained: L1 never takes back a batch, root or payout it included; reorganisations are not part of this model.
- L1Contracts.LastHashFixesHistory: keccak and the ABI encoding of headers and withdrawals are one abstract function to digests; collision freedom is an explicit assumption.
- DepositPipeline.DepositsExactlyOnce: one life of the process (two are in DepositRestarts); assumes no reorganisation of L1, log indices below 1,000,000 and nonces below 2^64.
- ScanCursor.L1Client.PollL1Deposits: L1 block numbers are unbounded, not u64.
- Addresses.ParseAddress: `toLowerCase` is modelled on ASCII; other characters are left as they are.
- ArrayBase58.DecodeBase58: strings are sequences of characters; surrogate pairs are not joined.
- TokenAmounts.FormatRoundTrip: `decimals` is a natural number; a negative or fractional one throws in the source.
- SpendingRuns.BudgetHolds: one fixed policy and native-token payments of nonnegative amounts; x402 token payments (validated as zero, recorded as the amount) and escrow payments are not in the budget, and a payment in flight at a reload counts as never recorded.
- WalletRestart.PayDirect: the direct route only; protocol detection, x402 and escrow routing, failing storage writes and changes of the policy between restarts are not part of this model.
- Guardrails.SaveAndRebuild: JSON itself is taken as lossless; only the decimal text of the big integer is written and read.
- Escrows.EscrowClient.CreateEscrow: the generated identifier is a parameter; its freshness is an assumption of the run lemmas that need it, and the code does not check it.
- ActivitySync.SyncIsTruthful: `reload()`, the IndexedDB store and failing writes are not part of this model, nor are `queryAsync` and its filters.
- Listeners, logging, metrics, HTTP, gRPC, signatures, DID documents, token registry, protocol detection, transaction classification, engine driver and ExEx streaming: plumbing or one-branch facts.
- `isValidAddress`, `addressEquals`, queue counts, exports and query filters: each says no more than its body.
