/** The loops of the sequencer's tasks, run without interruption on the message queue
    (engine/src/sequencer.rs, engine/src/l1_client.rs). */
module SequencerTasks {
  import opened BatchSubmission
  import opened DepositPipeline
  import opened L1Contracts
  import opened MessageQueues
  import opened Messages
  import opened Positional

  function MessagesFor(logs: seq<DepositLog>, clock: seq<U64>): (ms: seq<L2Message>)
    requires |clock| == |logs|
    ensures |ms| == |logs| && forall i :: 0 <= i < |logs| ==> ms[i] == ToMessage(logs[i], clock[i])
  {
    seq(|logs|, i requires 0 <= i < |logs| => ToMessage(logs[i], clock[i]))
  }

  predicate NoncesBelow(ms: seq<L2Message>, n: nat) {
    forall i :: 0 <= i < |ms| ==> ms[i].nonce < n
  }

  /** Each message is unseen when its turn comes. */
  predicate NewInTurn(before: seq<L2Message>, ms: seq<L2Message>) {
    forall i :: 0 <= i < |ms| ==> ms[i] !in before + ms[..i]
  }

  lemma DepositsNewInTurn(before: seq<L2Message>, logs: seq<DepositLog>, clock: seq<U64>)
    requires |clock| == |logs| && RisingNonces(logs) && (logs != [] ==> NoncesBelow(before, NonceOf(logs[0])))
    ensures NewInTurn(before, MessagesFor(logs, clock))
  {
    forall i | 0 <= i < |logs| ensures MessagesFor(logs, clock)[i] !in before + MessagesFor(logs, clock)[..i] {
      NonceIsFresh(before, logs, clock, i);
    }
  }

  lemma NonceIsFresh(before: seq<L2Message>, logs: seq<DepositLog>, clock: seq<U64>, i: nat)
    requires |clock| == |logs| && i < |logs| && RisingNonces(logs) && NoncesBelow(before, NonceOf(logs[0]))
    ensures ToMessage(logs[i], clock[i]) !in before + MessagesFor(logs, clock)[..i]
  {
    var n := NonceOf(logs[i]);
    assert NonceOf(logs[0]) <= n < TWO_64;
    forall k | 0 <= k < i ensures MessagesFor(logs, clock)[k].nonce < n {
      assert NonceOf(logs[k]) < n;
    }
  }

  /** What the poller's loop leaves accepted: a message accepted before is skipped. */
  function Offered(before: seq<L2Message>, ms: seq<L2Message>): seq<L2Message> {
    if ms == [] then before
    else
      var front := Offered(before, ms[..|ms| - 1]);
      if ms[|ms| - 1] in front then front else front + [ms[|ms| - 1]]
  }

  lemma {:induction false} OfferedNew(before: seq<L2Message>, ms: seq<L2Message>)
    requires NewInTurn(before, ms)
    ensures Offered(before, ms) == before + ms
  {
    if ms == [] {
      assert before + ms == before;
    } else {
      var n := |ms| - 1;
      assert NewInTurn(before, ms[..n]) by {
        assert forall i :: 0 <= i < n ==> ms[..n][i] == ms[i] && ms[..n][..i] == ms[..i];
      }
      OfferedNew(before, ms[..n]);
      assert ms == ms[..n] + [ms[n]];
    }
  }

  /** The messages the loop accepts. */
  function Fresh(before: seq<L2Message>, ms: seq<L2Message>): (added: seq<L2Message>)
    ensures Offered(before, ms) == before + added
  {
    if ms == [] then []
    else
      var front, m := Fresh(before, ms[..|ms| - 1]), ms[|ms| - 1];
      if m in before + front then front else front + [m]
  }

  /** One turn of the poller's loop. */
  method Offer(q: MessageQueue, m: L2Message)
    requires q.Valid() && CollisionFree(q.keccak) && m.msgType == Deposit
    modifies q
    ensures q.Valid() && q.accepted == if m in old(q.accepted) then old(q.accepted) else old(q.accepted) + [m]
    ensures q.pendingDeposits ==
      if m in old(q.accepted) then old(q.pendingDeposits) else old(q.pendingDeposits) + [m]
    ensures q.pendingWithdrawals == old(q.pendingWithdrawals) && q.stateRoots == old(q.stateRoots)
    ensures q.takenDeposits == old(q.takenDeposits) && q.takenWithdrawals == old(q.takenWithdrawals)
  {
    RefusedIffAccepted(q.keccak, q.accepted, m);
    var r := q.Enqueue(m);
  }

  lemma FreshSnoc(before: seq<L2Message>, ms: seq<L2Message>, i: nat)
    requires i < |ms|
    ensures Fresh(before, ms[..i + 1]) == Fresh(before, ms[..i]) +
      if ms[i] in before + Fresh(before, ms[..i]) then [] else [ms[i]]
  {
    assert ms[..i + 1][..i] == ms[..i];
  }

  method OfferAll(q: MessageQueue, ms: seq<L2Message>)
    requires q.Valid() && CollisionFree(q.keccak) && forall i :: 0 <= i < |ms| ==> ms[i].msgType == Deposit
    modifies q
    ensures q.Valid() && q.accepted == old(q.accepted) + Fresh(old(q.accepted), ms)
    ensures q.pendingDeposits == old(q.pendingDeposits) + Fresh(old(q.accepted), ms)
    ensures q.pendingWithdrawals == old(q.pendingWithdrawals) && q.stateRoots == old(q.stateRoots)
    ensures q.takenDeposits == old(q.takenDeposits) && q.takenWithdrawals == old(q.takenWithdrawals)
  {
    ghost var before, waiting, added := q.accepted, q.pendingDeposits, [];
    for i := 0 to |ms|
      invariant q.Valid() && added == Fresh(before, ms[..i])
      invariant q.accepted == before + added && q.pendingDeposits == waiting + added
      invariant q.pendingWithdrawals == old(q.pendingWithdrawals) && q.stateRoots == old(q.stateRoots)
      invariant q.takenDeposits == old(q.takenDeposits) && q.takenWithdrawals == old(q.takenWithdrawals)
    {
      FreshSnoc(before, ms, i);
      AddLast(before, added, ms[i]);
      AddLast(waiting, added, ms[i]);
      if ms[i] !in q.accepted { added := added + [ms[i]]; }
      Offer(q, ms[i]);
    }
    assert ms[..|ms|] == ms;
  }

  /** Each message is one some log asks for, and each log's message was accepted now or before. */
  predicate Credits(ms: seq<L2Message>, logs: seq<DepositLog>) {
    forall i :: 0 <= i < |ms| ==> exists j :: 0 <= j < |logs| && CreditsLog(ms[i], logs[j])
  }

  predicate Accounts(accepted: seq<L2Message>, logs: seq<DepositLog>) {
    forall j :: 0 <= j < |logs| ==> exists i :: 0 <= i < |accepted| && CreditsLog(accepted[i], logs[j])
  }

  lemma {:induction false} FreshIsAmong(before: seq<L2Message>, ms: seq<L2Message>)
    ensures forall m :: m in Fresh(before, ms) ==> m in ms
    ensures forall m :: m in ms ==> m in before + Fresh(before, ms)
  {
    if ms != [] {
      FreshIsAmong(before, ms[..|ms| - 1]);
      assert ms == ms[..|ms| - 1] + [ms[|ms| - 1]];
    }
  }

  lemma FreshCredits(before: seq<L2Message>, logs: seq<DepositLog>, clock: seq<U64>)
    requires |clock| == |logs|
    ensures var ms := Fresh(before, MessagesFor(logs, clock));
      Credits(ms, logs) && Accounts(before + ms, logs)
  {
    var all := MessagesFor(logs, clock);
    var ms := Fresh(before, all);
    FreshIsAmong(before, all);
    forall i | 0 <= i < |ms| ensures exists j :: 0 <= j < |logs| && CreditsLog(ms[i], logs[j]) {
      assert ms[i] in all;
      var j :| 0 <= j < |all| && all[j] == ms[i];
      MessageCredits(all[j], logs[j]);
    }
    forall j | 0 <= j < |logs| ensures exists i :: 0 <= i < |before + ms| && CreditsLog((before + ms)[i], logs[j]) {
      assert all[j] in before + ms;
      var i :| 0 <= i < |before + ms| && (before + ms)[i] == all[j];
      MessageCredits(all[j], logs[j]);
    }
  }

  lemma AllFreshCredit(before: seq<L2Message>, logs: seq<DepositLog>, clock: seq<U64>)
    requires |clock| == |logs| && RisingNonces(logs) && (logs != [] ==> NoncesBelow(before, NonceOf(logs[0])))
    ensures var ms := Fresh(before, MessagesFor(logs, clock));
      |ms| == |logs| && forall i :: 0 <= i < |logs| ==> CreditsLog(ms[i], logs[i])
  {
    var all := MessagesFor(logs, clock);
    DepositsNewInTurn(before, logs, clock);
    OfferedNew(before, all);
    assert Fresh(before, all) == (before + Fresh(before, all))[|before|..] == all;
    forall i | 0 <= i < |logs| ensures CreditsLog(all[i], logs[i]) {
      MessageCredits(all[i], logs[i]);
    }
  }

  /** What a poll added credits what its logs report: each message some log, and each log is
      accounted for, by one message each if the nonces are new and rising. */
  predicate AddedFor(before: seq<L2Message>, added: seq<L2Message>, logs: seq<DepositLog>) {
    && Credits(added, logs) && Accounts(before + added, logs)
    && (RisingNonces(logs) && (logs != [] ==> NoncesBelow(before, NonceOf(logs[0]))) ==>
          |added| == |logs| && forall i :: 0 <= i < |logs| ==> CreditsLog(added[i], logs[i]))
  }

  lemma FreshAddedFor(before: seq<L2Message>, logs: seq<DepositLog>, clock: seq<U64>)
    requires |clock| == |logs|
    ensures AddedFor(before, Fresh(before, MessagesFor(logs, clock)), logs)
  {
    FreshCredits(before, logs, clock);
    if RisingNonces(logs) && (logs != [] ==> NoncesBelow(before, NonceOf(logs[0]))) {
      AllFreshCredit(before, logs, clock);
    }
  }

  /** The tail of `poll_l1_deposits`: every log that was returned is converted and offered to the
      queue, which skips what it accepted before. The newly accepted messages join the deposit deque
      alone; each credits what some log reports, and each log's message is accepted now or was
      before. With rising nonces above those of all earlier messages there is one for every log. */
  method EnqueueDeposits(q: MessageQueue, logs: seq<DepositLog>, clock: seq<U64>) returns (ghost added: seq<L2Message>)
    requires q.Valid() && CollisionFree(q.keccak) && |clock| == |logs|
    modifies q
    ensures q.Valid() && q.accepted == old(q.accepted) + added && AddedFor(old(q.accepted), added, logs)
    ensures q.accepted == Offered(old(q.accepted), MessagesFor(logs, clock))
    ensures q.pendingDeposits == old(q.pendingDeposits) + added
    ensures q.pendingWithdrawals == old(q.pendingWithdrawals) && q.stateRoots == old(q.stateRoots)
    ensures q.takenDeposits == old(q.takenDeposits) && q.takenWithdrawals == old(q.takenWithdrawals)
  {
    added := Fresh(q.accepted, MessagesFor(logs, clock));
    FreshAddedFor(q.accepted, logs, clock);
    OfferAll(q, MessagesFor(logs, clock));
  }

  /** A poll's deposits, enqueued and processed at once: those newly accepted are counted, after
      those already waiting, and no withdrawal is touched. */
  method EnqueueThenProcess(q: MessageQueue, logs: seq<DepositLog>, clock: seq<U64>)
    returns (processed: nat, ghost added: seq<L2Message>)
    requires q.Valid() && CollisionFree(q.keccak) && |clock| == |logs|
    modifies q
    ensures q.Valid() && q.accepted == old(q.accepted) + added && AddedFor(old(q.accepted), added, logs)
    ensures processed == |old(q.pendingDeposits)| + |added|
    ensures q.takenDeposits == old(q.takenDeposits) + (old(q.pendingDeposits) + added) && q.pendingDeposits == []
    ensures q.pendingWithdrawals == old(q.pendingWithdrawals) && q.takenWithdrawals == old(q.takenWithdrawals)
  {
    added := EnqueueDeposits(q, logs, clock);
    processed := ProcessPendingDeposits(q);
  }

  /** `process_pending_deposits`: empties the deposit deque in order, counting. */
  method ProcessPendingDeposits(q: MessageQueue) returns (processed: nat)
    requires q.Valid()
    modifies q`pendingDeposits, q`takenDeposits
    ensures q.Valid() && q.pendingDeposits == [] && processed == |old(q.pendingDeposits)|
    ensures q.takenDeposits == old(q.takenDeposits) + old(q.pendingDeposits)
  {
    processed := 0;
    if q.pendingDeposits == [] {
      return;
    }
    var more := true;
    while more
      invariant q.Valid()
      invariant q.takenDeposits + q.pendingDeposits == old(q.takenDeposits) + old(q.pendingDeposits)
      invariant processed + |q.pendingDeposits| == |old(q.pendingDeposits)|
      invariant !more ==> q.pendingDeposits == []
      decreases |q.pendingDeposits|, more
    {
      ghost var taken, pending := q.takenDeposits, q.pendingDeposits;
      var m := q.DequeueDeposit();
      assert (taken + m) + q.pendingDeposits == taken + (m + q.pendingDeposits);
      more := m != [];
      processed := processed + |m|;
    }
  }

  function Withdrawals(ms: seq<L2Message>): (ws: seq<WithdrawalRequest>)
    ensures |ws| == |ms| && forall i :: 0 <= i < |ms| ==> ws[i] == ToWithdrawal(ms[i])
  {
    seq(|ms|, i requires 0 <= i < |ms| => ToWithdrawal(ms[i]))
  }

  /** The first loop of `submit_batch`: all waiting withdrawals, in order, become requests. */
  method DrainWithdrawals(q: MessageQueue) returns (withdrawals: seq<WithdrawalRequest>)
    requires q.Valid()
    modifies q`pendingWithdrawals, q`takenWithdrawals
    ensures q.Valid() && q.pendingWithdrawals == [] && withdrawals == Withdrawals(old(q.pendingWithdrawals))
    ensures |withdrawals| == |old(q.pendingWithdrawals)|
    ensures forall i :: 0 <= i < |withdrawals| ==> Requests(withdrawals[i], old(q.pendingWithdrawals)[i])
    ensures q.takenWithdrawals == old(q.takenWithdrawals) + old(q.pendingWithdrawals)
  {
    withdrawals := [];
    if q.pendingWithdrawals == [] {
      return;
    }
    ghost var hand: seq<L2Message> := [];
    var more := true;
    while more
      invariant q.Valid() && withdrawals == Withdrawals(hand)
      invariant hand + q.pendingWithdrawals == old(q.pendingWithdrawals)
      invariant q.takenWithdrawals == old(q.takenWithdrawals) + hand
      invariant !more ==> q.pendingWithdrawals == []
      decreases |q.pendingWithdrawals|, more
    {
      ghost var pending := q.pendingWithdrawals;
      var m := q.DequeueWithdrawal();
      more := m != [];
      if more {
        withdrawals := withdrawals + [ToWithdrawal(m[0])];
        assert m == [m[0]];
        assert (hand + m) + q.pendingWithdrawals == hand + pending;
        hand := hand + m;
      }
    }
  }

  /** The bytes hashed for the withdrawals root: one 32-byte message hash each. */
  function RootBytes(ws: seq<WithdrawalRequest>): (s: seq<Byte>)
    ensures |s| == 32 * |ws|
  {
    if ws == [] then [] else RootBytes(ws[..|ws| - 1]) + BigEndian(ws[|ws| - 1].messageHash, 32)
  }

  /** The hash of the i-th withdrawal is at byte 32 * i. */
  lemma {:induction false} RootBytesLayout(ws: seq<WithdrawalRequest>, i: nat)
    requires i < |ws| && ws[i].messageHash < TWO_256
    ensures Value(RootBytes(ws)[32 * i..32 * i + 32], 256) == ws[i].messageHash
  {
    var n := |ws| - 1;
    var front, last := RootBytes(ws[..n]), BigEndian(ws[n].messageHash, 32);
    assert RootBytes(ws) == front + last;
    if i < n {
      RootBytesLayout(ws[..n], i);
      SlotInFront(front, last, 32 * i);
    } else {
      WidthsFit();
      BigEndianDenotes(ws[n].messageHash, 32);
      assert (front + last)[32 * n..32 * n + 32] == last;
    }
  }

  lemma SlotInFront(front: seq<Byte>, last: seq<Byte>, at: nat)
    requires at + 32 <= |front|
    ensures (front + last)[at..at + 32] == front[at..at + 32]
  {}

  function RootOf(keccak: HashFunction, ws: seq<WithdrawalRequest>): Digest {
    if ws == [] then ZERO else keccak(RootBytes(ws))
  }

  method ComputeWithdrawalsRoot(keccak: HashFunction, ws: seq<WithdrawalRequest>) returns (root: Digest)
    ensures root == RootOf(keccak, ws)
    ensures ws == [] ==> root == 0
    ensures ws != [] ==> root == keccak(RootBytes(ws))
  {
    if ws == [] {
      return ZERO;
    }
    var data: seq<Byte> := [];
    for i := 0 to |ws|
      invariant data == RootBytes(ws[..i])
    {
      assert ws[..i + 1][..i] == ws[..i];
      data := data + BigEndian(ws[i].messageHash, 32);
    }
    assert ws[..|ws|] == ws;
    root := keccak(data);
  }

  lemma {:induction false} RootBytesOfCount(a: seq<L2Message>, b: seq<L2Message>)
    requires |a| == |b|
    ensures RootBytes(Withdrawals(a)) == RootBytes(Withdrawals(b))
  {
    if a != [] {
      var n := |a| - 1;
      RootBytesOfCount(a[..n], b[..n]);
      assert Withdrawals(a)[..n] == Withdrawals(a[..n]) && Withdrawals(b)[..n] == Withdrawals(b[..n]);
    }
  }

  /** The root of a batch's withdrawals depends on their number alone: all their message hashes
      are zero. Different numbers do give different roots. */
  method CompareRoots(keccak: HashFunction, a: seq<L2Message>, b: seq<L2Message>) returns (ra: Digest, rb: Digest)
    requires CollisionFree(keccak) && forall x :: keccak(x) != ZERO
    ensures ra == rb <==> |a| == |b|
  {
    ra := ComputeWithdrawalsRoot(keccak, Withdrawals(a));
    rb := ComputeWithdrawalsRoot(keccak, Withdrawals(b));
    if |a| == |b| {
      RootBytesOfCount(a, b);
    } else {
      assert Unshared(keccak, RootBytes(Withdrawals(a)));
      assert |RootBytes(Withdrawals(a))| != |RootBytes(Withdrawals(b))|;
    }
  }
}
