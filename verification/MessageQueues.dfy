/** The deduplicating message queue (primitives/src/message_queue.rs). */
module MessageQueues {
  import opened Messages
  import opened Positional
  import opened Sequences

  datatype EnqueueResult = Accepted(hash: Digest) | AlreadyProcessed

  function MessageHash(keccak: HashFunction, m: L2Message): Digest {
    keccak(Preimage(m))
  }

  function Hashes(keccak: HashFunction, ms: seq<L2Message>): (hs: seq<Digest>)
    ensures |hs| == |ms| && forall i :: 0 <= i < |ms| ==> hs[i] == MessageHash(keccak, ms[i])
  {
    seq(|ms|, i requires 0 <= i < |ms| => MessageHash(keccak, ms[i]))
  }

  datatype Lane = DepositLane | WithdrawalLane | StateRootLane

  /** Which deque a message goes to; cross-layer calls travel with the withdrawals. */
  function LaneOf(t: MessageType): Lane {
    match t
    case Deposit => DepositLane
    case StateRoot => StateRootLane
    case Withdrawal => WithdrawalLane
    case CrossLayerCall => WithdrawalLane
  }

  function InLane(ms: seq<L2Message>, lane: Lane): seq<L2Message> {
    if ms == [] then []
    else
      var m := ms[|ms| - 1];
      InLane(ms[..|ms| - 1], lane) + if LaneOf(m.msgType) == lane then [m] else []
  }

  lemma InLaneSnoc(ms: seq<L2Message>, m: L2Message, lane: Lane)
    ensures InLane(ms + [m], lane) == InLane(ms, lane) + if LaneOf(m.msgType) == lane then [m] else []
  {
    assert (ms + [m])[..|ms|] == ms;
  }

  /** Deposits wait in the deposit deque, withdrawals and cross-layer calls in the withdrawal deque,
      state roots in their own. */
  lemma {:induction false} LanesByKind(ms: seq<L2Message>, m: L2Message)
    ensures m in InLane(ms, DepositLane) <==> m in ms && m.msgType == Deposit
    ensures m in InLane(ms, WithdrawalLane) <==> m in ms && (m.msgType == Withdrawal || m.msgType == CrossLayerCall)
    ensures m in InLane(ms, StateRootLane) <==> m in ms && m.msgType == StateRoot
  {
    if ms != [] {
      var front, last := ms[..|ms| - 1], ms[|ms| - 1];
      LanesByKind(front, m);
      assert ms == front + [last];
    }
  }

  lemma TakeFirst<T>(taken: seq<T>, pending: seq<T>)
    requires pending != []
    ensures (taken + pending[..1]) + pending[1..] == taken + pending && pending[..1] + pending[1..] == pending
  {}

  lemma AddLast<T>(taken: seq<T>, pending: seq<T>, x: T)
    ensures (taken + pending) + [x] == taken + (pending + [x])
  {}

  lemma DistinctSnoc<T>(s: seq<T>, x: T)
    requires Distinct(s) && x !in s
    ensures Distinct(s + [x])
  {}

  lemma HashesSnoc(keccak: HashFunction, ms: seq<L2Message>, m: L2Message)
    ensures Hashes(keccak, ms + [m]) == Hashes(keccak, ms) + [MessageHash(keccak, m)]
  {}

  /** The queue's fields agree with the history: the processed hashes are those of the accepted
      messages, without repetition, and each deque is its lane less what was taken. */
  ghost predicate Consistent(keccak: HashFunction, accepted: seq<L2Message>, processed: seq<Digest>,
                             deposits: seq<L2Message>, withdrawals: seq<L2Message>, roots: seq<L2Message>)
  {
    && processed == Hashes(keccak, accepted)
    && Distinct(processed)
    && InLane(accepted, DepositLane) == deposits
    && InLane(accepted, WithdrawalLane) == withdrawals
    && InLane(accepted, StateRootLane) == roots
  }

  lemma ConsistentAfterPush(keccak: HashFunction, accepted: seq<L2Message>, processed: seq<Digest>,
                            deposits: seq<L2Message>, withdrawals: seq<L2Message>, roots: seq<L2Message>,
                            takenD: seq<L2Message>, takenW: seq<L2Message>, m: L2Message)
    requires Consistent(keccak, accepted, processed, takenD + deposits, takenW + withdrawals, roots)
    requires MessageHash(keccak, m) !in processed
    ensures var lane := LaneOf(m.msgType);
            Consistent(keccak, accepted + [m], processed + [MessageHash(keccak, m)],
                       takenD + (deposits + if lane == DepositLane then [m] else []),
                       takenW + (withdrawals + if lane == WithdrawalLane then [m] else []),
                       roots + if lane == StateRootLane then [m] else [])
  {
    AddLast(takenD, deposits, m);
    AddLast(takenW, withdrawals, m);
    InLaneSnoc(accepted, m, DepositLane);
    InLaneSnoc(accepted, m, WithdrawalLane);
    InLaneSnoc(accepted, m, StateRootLane);
    DistinctSnoc(processed, MessageHash(keccak, m));
    HashesSnoc(keccak, accepted, m);
  }

  class MessageQueue {
    const keccak: HashFunction
    var pendingWithdrawals: seq<L2Message>
    var pendingDeposits: seq<L2Message>
    var stateRoots: seq<L2Message>
    var processedMessages: seq<Digest>

    // Everything ever accepted, and what has left each deque.
    ghost var accepted: seq<L2Message>
    ghost var takenDeposits: seq<L2Message>
    ghost var takenWithdrawals: seq<L2Message>

    ghost predicate Valid()
      reads this
    {
      Consistent(keccak, accepted, processedMessages,
                 takenDeposits + pendingDeposits, takenWithdrawals + pendingWithdrawals, stateRoots)
    }

    constructor (keccak: HashFunction)
      ensures Valid() && this.keccak == keccak && accepted == [] && takenDeposits == [] && takenWithdrawals == []
    {
      this.keccak := keccak;
      pendingWithdrawals, pendingDeposits, stateRoots, processedMessages := [], [], [], [];
      accepted, takenDeposits, takenWithdrawals := [], [], [];
    }

    /** The buffer grows field by field; every field is appended whole. */
    method ComputeMessageHash(m: L2Message) returns (hash: Digest)
      ensures hash == MessageHash(keccak, m)
    {
      var data: seq<Byte> := [];
      data := data + [TypeByte(m.msgType)];
      data := data + m.sender;
      data := data + m.recipient;
      data := data + BigEndian(m.value, 32);
      data := data + m.data;
      data := data + BigEndian(m.nonce, 8);
      data := data + BigEndian(m.timestamp, 8);
      assert data == Preimage(m);
      hash := keccak(data);
    }

    /** The routing step: the message joins the deque of its lane. */
    method Push(m: L2Message)
      modifies `pendingDeposits, `pendingWithdrawals, `stateRoots, `accepted
      ensures var lane := LaneOf(m.msgType);
              && pendingDeposits == old(pendingDeposits) + (if lane == DepositLane then [m] else [])
              && pendingWithdrawals == old(pendingWithdrawals) + (if lane == WithdrawalLane then [m] else [])
              && stateRoots == old(stateRoots) + (if lane == StateRootLane then [m] else [])
      ensures accepted == old(accepted) + [m]
    {
      match m.msgType {
        case Deposit => pendingDeposits := pendingDeposits + [m];
        case Withdrawal => pendingWithdrawals := pendingWithdrawals + [m];
        case StateRoot => stateRoots := stateRoots + [m];
        case CrossLayerCall => pendingWithdrawals := pendingWithdrawals + [m];
      }
      accepted := accepted + [m];
    }

    method Enqueue(m: L2Message) returns (r: EnqueueResult)
      requires Valid()
      modifies this
      ensures Valid() && takenDeposits == old(takenDeposits) && takenWithdrawals == old(takenWithdrawals)
      ensures r == if MessageHash(keccak, m) in old(processedMessages) then AlreadyProcessed
                   else Accepted(MessageHash(keccak, m))
      ensures accepted == if r.Accepted? then old(accepted) + [m] else old(accepted)
      ensures pendingDeposits ==
        if r.Accepted? && m.msgType == Deposit then old(pendingDeposits) + [m] else old(pendingDeposits)
      ensures pendingWithdrawals ==
        if r.Accepted? && (m.msgType == Withdrawal || m.msgType == CrossLayerCall) then old(pendingWithdrawals) + [m]
        else old(pendingWithdrawals)
      ensures stateRoots == if r.Accepted? && m.msgType == StateRoot then old(stateRoots) + [m] else old(stateRoots)
    {
      var hash := ComputeMessageHash(m);
      if hash in processedMessages {
        return AlreadyProcessed;
      }
      ConsistentAfterPush(keccak, accepted, processedMessages, pendingDeposits, pendingWithdrawals, stateRoots,
                          takenDeposits, takenWithdrawals, m);
      Push(m);
      processedMessages := processedMessages + [hash];
      r := Accepted(hash);
    }

    lemma AcceptedDistinct()
      requires Valid()
      ensures Distinct(accepted)
    {
      forall i, j | 0 <= i < j < |accepted| ensures accepted[i] != accepted[j] {
        assert processedMessages[i] != processedMessages[j];
      }
    }

    method DequeueWithdrawal() returns (m: seq<L2Message>)
      requires Valid()
      modifies `pendingWithdrawals, `takenWithdrawals
      ensures Valid()
      ensures |m| <= 1 && (m == [] <==> old(pendingWithdrawals) == [])
      ensures takenWithdrawals == old(takenWithdrawals) + m && m + pendingWithdrawals == old(pendingWithdrawals)
    {
      if pendingWithdrawals == [] {
        return [];
      }
      TakeFirst(takenWithdrawals, pendingWithdrawals);
      m := pendingWithdrawals[..1];
      pendingWithdrawals := pendingWithdrawals[1..];
      takenWithdrawals := takenWithdrawals + m;
    }

    method DequeueDeposit() returns (m: seq<L2Message>)
      requires Valid()
      modifies `pendingDeposits, `takenDeposits
      ensures Valid()
      ensures |m| <= 1 && (m == [] <==> old(pendingDeposits) == [])
      ensures takenDeposits == old(takenDeposits) + m && m + pendingDeposits == old(pendingDeposits)
    {
      if pendingDeposits == [] {
        return [];
      }
      TakeFirst(takenDeposits, pendingDeposits);
      m := pendingDeposits[..1];
      pendingDeposits := pendingDeposits[1..];
      takenDeposits := takenDeposits + m;
    }
  }

  /** Without hash collisions the duplicate test is exact: a message is refused if and only if
      that very message was accepted before. */
  lemma RefusedIffAccepted(keccak: HashFunction, accepted: seq<L2Message>, m: L2Message)
    requires CollisionFree(keccak)
    ensures MessageHash(keccak, m) in Hashes(keccak, accepted) <==> m in accepted
  {
    assert Unshared(keccak, Preimage(m));
    if MessageHash(keccak, m) in Hashes(keccak, accepted) {
      var i :| 0 <= i < |accepted| && MessageHash(keccak, m) == MessageHash(keccak, accepted[i]);
      PreimageInjective(m, accepted[i]);
    }
    if m in accepted {
      var i :| 0 <= i < |accepted| && accepted[i] == m;
      assert Hashes(keccak, accepted)[i] == MessageHash(keccak, m);
    }
  }

  // Runs of one enqueuer with dequeuers, over any history.

  datatype Op = EnqueueOp(m: L2Message) | TakeDeposit | TakeWithdrawal

  /** What one enqueuer's attempts amount to: each message counts the first time it is offered. */
  function FirstOffers(ops: seq<Op>): seq<L2Message> {
    if ops == [] then []
    else
      var before := FirstOffers(ops[..|ops| - 1]);
      match ops[|ops| - 1]
      case EnqueueOp(m) => if m in before then before else before + [m]
      case _ => before
  }

  lemma FirstOffersStep(ops: seq<Op>, i: nat)
    requires i < |ops|
    ensures FirstOffers(ops[..i + 1])
         == match ops[i]
            case EnqueueOp(m) => if m in FirstOffers(ops[..i]) then FirstOffers(ops[..i])
              else FirstOffers(ops[..i]) + [m]
            case _ => FirstOffers(ops[..i])
  {
    assert ops[..i + 1][..i] == ops[..i];
  }

  /** Any sequence of operations accepts the first offer of every message and nothing else; what
      has been taken from a lane followed by what waits there is the lane's first offers in order. */
  method Replay(keccak: HashFunction, ops: seq<Op>) returns (q: MessageQueue)
    requires CollisionFree(keccak)
    ensures fresh(q) && q.Valid() && q.accepted == FirstOffers(ops) && Distinct(q.accepted)
    ensures q.takenDeposits + q.pendingDeposits == InLane(FirstOffers(ops), DepositLane)
    ensures q.takenWithdrawals + q.pendingWithdrawals == InLane(FirstOffers(ops), WithdrawalLane)
  {
    q := new MessageQueue(keccak);
    for i := 0 to |ops|
      invariant fresh(q) && q.Valid() && q.keccak == keccak
      invariant q.accepted == FirstOffers(ops[..i])
    {
      FirstOffersStep(ops, i);
      match ops[i] {
        case EnqueueOp(m) =>
          RefusedIffAccepted(keccak, q.accepted, m);
          var r := q.Enqueue(m);
        case TakeDeposit =>
          var d := q.DequeueDeposit();
        case TakeWithdrawal =>
          var w := q.DequeueWithdrawal();
      }
    }
    assert ops[..|ops|] == ops;
    q.AcceptedDistinct();
  }
}
