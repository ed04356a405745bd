/** The L1 contracts the sequencer talks to (contracts/src): batch inbox, state commitments and
    bridge. Every function is one transaction; None is a revert. */
module L1Contracts {
  import opened Messages
  import opened Outcomes
  import opened Positional

  const ZERO: Digest := 0

  datatype BatchHeader = BatchHeader(
    batchIndex: nat, parentBatchHash: Digest, epochNum: nat, epochHash: Digest, timestamp: nat,
    stateRoot: Digest, withdrawalsRoot: Digest, transactionsRoot: Digest)

  datatype WithdrawalRequest = WithdrawalRequest(
    nonce: nat, sender: Address, target: Address, value: nat, gasLimit: nat, data: seq<Byte>,
    l2BlockNumber: nat, messageHash: Digest)

  // keccak256 of the ABI encodings of a header (with its transactions' hash) and of a withdrawal
  // without its hash field.
  datatype Hashing = Hashing(batch: BatchHeader -> Digest, withdrawal: WithdrawalRequest -> Digest)

  datatype L1 = L1(
    headers: seq<BatchHeader>,       // SequencerInbox.batchHeaders
    batchHashes: seq<Digest>,        // SequencerInbox.batchHashes
    stateRoots: seq<Digest>,         // StateCommitmentChain.stateRoots
    finalized: seq<(WithdrawalRequest, nat)>)  // withdrawals paid out, with the batch index given

  const GENESIS := L1([], [], [], [])

  function LatestBatchIndex(l1: L1): nat { |l1.batchHashes| }

  function LatestCommittedBatch(l1: L1): nat { |l1.stateRoots| }

  /** The hash a header must name as its parent; the contract does not look at the first one's. */
  function ParentHash(l1: L1): Digest {
    if l1.batchHashes == [] then ZERO else l1.batchHashes[|l1.batchHashes| - 1]
  }

  /** The inbox's two tests of a header. */
  predicate Accepts(l1: L1, index: nat, parent: Digest) {
    index == LatestBatchIndex(l1) && (index > 0 ==> parent == ParentHash(l1))
  }

  /** SequencerInbox.submitBatch by the sequencer. */
  function SubmitBatch(h: Hashing, l1: L1, header: BatchHeader): Option<L1> {
    if !Accepts(l1, header.batchIndex, header.parentBatchHash) then None
    else Some(l1.(headers := l1.headers + [header], batchHashes := l1.batchHashes + [h.batch(header)]))
  }

  /** StateCommitmentChain.commitStateRoot by the sequencer. */
  function CommitStateRoot(l1: L1, batchIndex: nat, stateRoot: Digest): Option<L1> {
    if batchIndex != LatestCommittedBatch(l1) then None
    else Some(l1.(stateRoots := l1.stateRoots + [stateRoot]))
  }

  /** A committed root of zero counts as not committed. */
  predicate IsCommitted(l1: L1, batchIndex: nat) {
    batchIndex < |l1.stateRoots| && l1.stateRoots[batchIndex] != ZERO
  }

  predicate IsFinalized(l1: L1, messageHash: Digest) {
    exists i :: 0 <= i < |l1.finalized| && l1.finalized[i].0.messageHash == messageHash
  }

  /** L1StandardBridge.finalizeWithdrawal; `paid` says whether the call to the target succeeds. */
  function FinalizeWithdrawal(h: Hashing, l1: L1, w: WithdrawalRequest, batchIndex: nat, paid: bool): Option<L1> {
    if IsFinalized(l1, w.messageHash) || !IsCommitted(l1, batchIndex) then None
    else if w.messageHash != h.withdrawal(w) || !paid then None
    else Some(l1.(finalized := l1.finalized + [(w, batchIndex)]))
  }

  // What the contracts themselves keep, whoever calls them.

  predicate IsChain(h: Hashing, headers: seq<BatchHeader>, hashes: seq<Digest>) {
    && |headers| == |hashes|
    && (forall i :: 0 <= i < |headers| ==> headers[i].batchIndex == i && hashes[i] == h.batch(headers[i]))
    && (forall i :: 0 < i < |headers| ==> headers[i].parentBatchHash == hashes[i - 1])
  }

  ghost predicate UnsharedBatch(h: Hashing, x: BatchHeader) {
    forall y :: h.batch(y) == h.batch(x) ==> y == x
  }

  /** A batch hash fixes the whole history behind it: two chains that agree on their last hash
      agree on every header. */
  lemma {:induction false} LastHashFixesHistory(h: Hashing, headers1: seq<BatchHeader>, hashes1: seq<Digest>,
                                                headers2: seq<BatchHeader>, hashes2: seq<Digest>)
    requires forall x :: UnsharedBatch(h, x)
    requires IsChain(h, headers1, hashes1) && IsChain(h, headers2, hashes2) && headers1 != [] && headers2 != []
    requires hashes1[|hashes1| - 1] == hashes2[|hashes2| - 1]
    ensures headers1 == headers2
  {
    var n := |headers1| - 1;
    assert UnsharedBatch(h, headers1[n]);
    assert headers1[n] == headers2[|headers2| - 1];
    assert |headers2| - 1 == headers2[|headers2| - 1].batchIndex == n;
    if n > 0 {
      assert IsChain(h, headers1[..n], hashes1[..n]) && IsChain(h, headers2[..n], hashes2[..n]);
      LastHashFixesHistory(h, headers1[..n], hashes1[..n], headers2[..n], hashes2[..n]);
    }
    assert headers1 == headers1[..n] + [headers1[n]] && headers2 == headers2[..n] + [headers2[n]];
  }
}
