/** Deposits end to end: the poller task and the processor task interleaved at lock granularity
    over the message queue (engine/src/sequencer.rs, primitives/src/message_queue.rs). */
module DepositPipeline {
  import opened MessageQueues
  import opened Messages
  import opened Positional
  import opened ScanCursor

  datatype DepositLog = DepositLog(from: Address, to: Address, value: U256, data: seq<Byte>, block: nat, logIndex: nat)

  /** The logs of each L1 block, fixed for good: no reorganisation. */
  type Chain = nat -> seq<DepositLog>

  const LOGS_PER_BLOCK: nat := 1_000_000

  /** A block's logs name the block, have rising indices below a million, and nonces that fit
      in a u64. */
  predicate BlockWellFormed(logs: seq<DepositLog>, b: nat) {
    && (forall i :: 0 <= i < |logs| ==> logs[i].block == b && logs[i].logIndex < LOGS_PER_BLOCK)
    && (forall i, j :: 0 <= i < j < |logs| ==> logs[i].logIndex < logs[j].logIndex)
    && (logs != [] ==> (b + 1) * LOGS_PER_BLOCK <= TWO_64)
  }

  ghost predicate WellFormed(chain: Chain) {
    forall b: nat :: BlockWellFormed(chain(b), b)
  }

  function NonceOf(log: DepositLog): nat {
    log.block * LOGS_PER_BLOCK + log.logIndex
  }

  /** `deposit_to_l2_message`; the timestamp is the clock's when the message is built. */
  function ToMessage(log: DepositLog, now: U64): L2Message {
    L2Message(Deposit, log.from, log.to, log.value, log.data, NonceOf(log) % TWO_64, now)
  }

  /** The logs of blocks `from` up to but not including `end`, in order. */
  function LogsIn(chain: Chain, from: nat, end: nat): seq<DepositLog>
    decreases end
  {
    if end <= from then [] else LogsIn(chain, from, end - 1) + chain(end - 1)
  }

  // The poller holds what is left of its batch and, between the queue's lock regions, the
  // message it is enqueueing; the processor holds at most one message.
  datatype Poller =
    | Idle
    | Enqueueing(rest: seq<DepositLog>)
    | Pushing(m: L2Message, rest: seq<DepositLog>)
    | Marking(m: L2Message, rest: seq<DepositLog>)
  datatype Processor = Waiting | Draining | InHand(m: L2Message)

  datatype State = State(
    cursor: nat, processed: seq<Digest>, deposits: seq<L2Message>, counted: nat,
    poller: Poller, processor: Processor,
    first: nat, scanned: seq<DepositLog>, accepted: seq<L2Message>, delivered: seq<L2Message>, refused: nat)

  const INITIAL := State(0, [], [], 0, Idle, Waiting, 0, [], [], [], 0)

  // One lock region or one completed await per event; an event that is not enabled does nothing.
  datatype Event =
    | PollLogs(poll: Poll)       // head and logs read, cursor written
    | CheckProcessed(now: U64)   // message built, hash looked up
    | PushBack                   // message joins the deque
    | MarkProcessed              // hash recorded
    | SeePending                 // deposit_count() is not zero
    | PopFront                   // dequeue_deposit()
    | CountDeposit               // processed_deposits += 1

  function Step(chain: Chain, keccak: HashFunction, s: State, e: Event): State {
    match e
    case PollLogs(poll) =>
      if s.poller != Idle then s
      else
        (match Scanned(s.cursor, poll)
         case None => s
         case Some(r) =>
           var logs := LogsIn(chain, r.from, r.to + 1);
           s.(cursor := r.to, poller := Enqueueing(logs), first := if s.cursor == 0 then r.from else s.first,
              scanned := s.scanned + logs))
    case CheckProcessed(now) =>
      (match s.poller
       case Enqueueing(rest) =>
         if rest == [] then s.(poller := Idle)
         else
           var m := ToMessage(rest[0], now);
           if MessageHash(keccak, m) in s.processed then s.(poller := Enqueueing(rest[1..]), refused := s.refused + 1)
           else s.(poller := Pushing(m, rest[1..]))
       case _ => s)
    case PushBack =>
      (match s.poller
       case Pushing(m, rest) =>
         s.(deposits := s.deposits + [m], accepted := s.accepted + [m], poller := Marking(m, rest))
       case _ => s)
    case MarkProcessed =>
      (match s.poller
       case Marking(m, rest) => s.(processed := s.processed + [MessageHash(keccak, m)], poller := Enqueueing(rest))
       case _ => s)
    case SeePending =>
      if s.processor == Waiting && s.deposits != [] then s.(processor := Draining) else s
    case PopFront =>
      if s.processor != Draining then s
      else if s.deposits == [] then s.(processor := Waiting)
      else
        s.(deposits := s.deposits[1..], delivered := s.delivered + [s.deposits[0]],
           processor := InHand(s.deposits[0]))
    case CountDeposit =>
      if s.processor.InHand? then s.(counted := s.counted + 1, processor := Draining) else s
  }

  function Run(chain: Chain, keccak: HashFunction, events: seq<Event>): State {
    if events == [] then INITIAL
    else Step(chain, keccak, Run(chain, keccak, events[..|events| - 1]), events[|events| - 1])
  }

  function Remaining(p: Poller): seq<DepositLog> {
    match p
    case Idle => []
    case Enqueueing(rest) => rest
    case Pushing(_, rest) => rest
    case Marking(_, rest) => rest
  }

  /** `m` is the message of `log`, built at some time. */
  predicate MessageOf(m: L2Message, log: DepositLog) {
    m == ToMessage(log, m.timestamp)
  }

  predicate RisingNonces(logs: seq<DepositLog>) {
    && (forall i, j :: 0 <= i < j < |logs| ==> NonceOf(logs[i]) < NonceOf(logs[j]))
    && (forall i :: 0 <= i < |logs| ==> NonceOf(logs[i]) < TWO_64)
  }

  /** The cursor, the scanned logs and what is left of the last batch. */
  ghost predicate ScanInv(chain: Chain, cursor: nat, first: nat, scanned: seq<DepositLog>, poller: Poller) {
    && (if cursor == 0 then scanned == [] && poller == Idle
        else first <= cursor && scanned == LogsIn(chain, first, cursor + 1))
    && Remaining(poller) == scanned[Sent(scanned, poller)..]
  }

  /** How many scanned logs have left the poller's batch for the queue, or are on their way. */
  function Sent(scanned: seq<DepositLog>, poller: Poller): nat {
    if |Remaining(poller)| <= |scanned| then |scanned| - |Remaining(poller)| else 0
  }

  /** Accepted messages are those of the logs sent, in order. */
  predicate SentInv(scanned: seq<DepositLog>, poller: Poller, accepted: seq<L2Message>) {
    var sent := Sent(scanned, poller);
    && |accepted| == (if poller.Pushing? then sent - 1 else sent)
    && (forall i :: 0 <= i < |accepted| ==> MessageOf(accepted[i], scanned[i]))
    && (poller.Pushing? ==> sent > 0 && MessageOf(poller.m, scanned[sent - 1]))
  }

  ghost predicate HashInv(keccak: HashFunction, processed: seq<Digest>, poller: Poller, accepted: seq<L2Message>) {
    if poller.Marking? then
      accepted != [] && accepted[|accepted| - 1] == poller.m && processed == Hashes(keccak, accepted[..|accepted| - 1])
    else processed == Hashes(keccak, accepted)
  }

  predicate FlowInv(accepted: seq<L2Message>, delivered: seq<L2Message>, deposits: seq<L2Message>,
                    counted: nat, processor: Processor)
  {
    && accepted == delivered + deposits
    && |delivered| == counted + (if processor.InHand? then 1 else 0)
    && (processor.InHand? ==> processor.m == delivered[|delivered| - 1])
  }

  ghost predicate Inv(chain: Chain, keccak: HashFunction, s: State) {
    && ScanInv(chain, s.cursor, s.first, s.scanned, s.poller)
    && SentInv(s.scanned, s.poller, s.accepted)
    && HashInv(keccak, s.processed, s.poller, s.accepted)
    && FlowInv(s.accepted, s.delivered, s.deposits, s.counted, s.processor)
    && s.refused == 0
  }

  lemma {:induction false} LogsConcat(chain: Chain, from: nat, mid: nat, end: nat)
    requires from <= mid <= end
    ensures LogsIn(chain, from, mid) + LogsIn(chain, mid, end) == LogsIn(chain, from, end)
    decreases end
  {
    if mid < end {
      LogsConcat(chain, from, mid, end - 1);
    }
  }

  predicate NoncesBetween(logs: seq<DepositLog>, lo: nat, hi: nat) {
    forall i :: 0 <= i < |logs| ==> lo * LOGS_PER_BLOCK <= NonceOf(logs[i]) < hi * LOGS_PER_BLOCK
  }

  lemma BlockNonces(logs: seq<DepositLog>, b: nat)
    requires BlockWellFormed(logs, b)
    ensures RisingNonces(logs) && NoncesBetween(logs, b, b + 1)
  {
    forall i | 0 <= i < |logs| ensures b * LOGS_PER_BLOCK <= NonceOf(logs[i]) < (b + 1) * LOGS_PER_BLOCK {}
  }

  lemma JoinRising(s: seq<DepositLog>, t: seq<DepositLog>, lo: nat, mid: nat, hi: nat)
    requires RisingNonces(s) && RisingNonces(t) && lo <= mid <= hi
    requires NoncesBetween(s, lo, mid) && NoncesBetween(t, mid, hi)
    ensures RisingNonces(s + t) && NoncesBetween(s + t, lo, hi)
  {}

  /** Block number times a million plus log index rises along the chain: no two logs share a nonce. */
  lemma {:induction false} NoncesRise(chain: Chain, from: nat, end: nat)
    requires WellFormed(chain) && from <= end
    ensures RisingNonces(LogsIn(chain, from, end)) && NoncesBetween(LogsIn(chain, from, end), from, end)
    decreases end
  {
    if from < end {
      NoncesRise(chain, from, end - 1);
      assert BlockWellFormed(chain(end - 1), end - 1);
      BlockNonces(chain(end - 1), end - 1);
      JoinRising(LogsIn(chain, from, end - 1), chain(end - 1), from, end - 1, end);
    }
  }

  lemma ScanOnPoll(chain: Chain, cursor: nat, first: nat, scanned: seq<DepositLog>, r: Range)
    requires ScanInv(chain, cursor, first, scanned, Idle)
    requires r.from <= r.to && (cursor > 0 ==> r.from == cursor + 1) && r.to > 0
    ensures var logs := LogsIn(chain, r.from, r.to + 1);
            ScanInv(chain, r.to, if cursor == 0 then r.from else first, scanned + logs, Enqueueing(logs))
  {
    var logs := LogsIn(chain, r.from, r.to + 1);
    if cursor > 0 { LogsConcat(chain, first, cursor + 1, r.to + 1); }
    assert (scanned + logs)[|scanned|..] == logs;
  }

  lemma PollPreserves(chain: Chain, keccak: HashFunction, s: State, poll: Poll)
    requires Inv(chain, keccak, s)
    ensures Inv(chain, keccak, Step(chain, keccak, s, PollLogs(poll)))
  {
    if s.poller == Idle && Scanned(s.cursor, poll).Some? {
      ScanOnPoll(chain, s.cursor, s.first, s.scanned, Scanned(s.cursor, poll).value);
    }
  }

  lemma NotAmongEarlier(scanned: seq<DepositLog>, accepted: seq<L2Message>, n: nat, now: U64)
    requires RisingNonces(scanned) && |accepted| == n < |scanned|
    requires forall i :: 0 <= i < |accepted| ==> MessageOf(accepted[i], scanned[i])
    ensures ToMessage(scanned[n], now) !in accepted
  {
    forall i | 0 <= i < |accepted| ensures accepted[i].nonce != ToMessage(scanned[n], now).nonce {
      assert MessageOf(accepted[i], scanned[i]);
      assert NonceOf(scanned[i]) < NonceOf(scanned[n]);
    }
  }

  lemma NextNotAccepted(chain: Chain, cursor: nat, first: nat, scanned: seq<DepositLog>, rest: seq<DepositLog>,
                        accepted: seq<L2Message>, now: U64)
    requires WellFormed(chain) && ScanInv(chain, cursor, first, scanned, Enqueueing(rest))
    requires SentInv(scanned, Enqueueing(rest), accepted) && rest != []
    ensures ToMessage(rest[0], now) !in accepted
  {
    var n := Sent(scanned, Enqueueing(rest));
    assert rest[0] == scanned[n..][0] == scanned[n];
    NoncesRise(chain, first, cursor + 1);
    NotAmongEarlier(scanned, accepted, n, now);
  }

  /** The nonce of a log not yet sent exceeds those of all accepted messages, so without hash
      collisions the duplicate test never refuses a deposit. */
  lemma NextIsNew(chain: Chain, keccak: HashFunction, s: State, now: U64)
    requires WellFormed(chain) && CollisionFree(keccak) && Inv(chain, keccak, s)
    requires s.poller.Enqueueing? && s.poller.rest != []
    ensures MessageHash(keccak, ToMessage(s.poller.rest[0], now)) !in s.processed
  {
    NextNotAccepted(chain, s.cursor, s.first, s.scanned, s.poller.rest, s.accepted, now);
    RefusedIffAccepted(keccak, s.accepted, ToMessage(s.poller.rest[0], now));
  }

  lemma SentOnTake(scanned: seq<DepositLog>, rest: seq<DepositLog>, accepted: seq<L2Message>, now: U64)
    requires rest != [] && rest == scanned[Sent(scanned, Enqueueing(rest))..]
      && SentInv(scanned, Enqueueing(rest), accepted)
    ensures var p := Pushing(ToMessage(rest[0], now), rest[1..]);
            rest[1..] == scanned[Sent(scanned, p)..] && SentInv(scanned, p, accepted)
  {
    var n := Sent(scanned, Enqueueing(rest));
    assert scanned[n..][0] == scanned[n] && scanned[n..][1..] == scanned[n + 1..];
  }

  lemma CheckPreserves(chain: Chain, keccak: HashFunction, s: State, now: U64)
    requires WellFormed(chain) && CollisionFree(keccak) && Inv(chain, keccak, s)
    ensures Inv(chain, keccak, Step(chain, keccak, s, CheckProcessed(now)))
  {
    if s.poller.Enqueueing? && s.poller.rest != [] {
      NextIsNew(chain, keccak, s, now);
      SentOnTake(s.scanned, s.poller.rest, s.accepted, now);
    }
  }

  lemma SentOnPush(scanned: seq<DepositLog>, m: L2Message, rest: seq<DepositLog>, accepted: seq<L2Message>)
    requires SentInv(scanned, Pushing(m, rest), accepted)
    ensures SentInv(scanned, Marking(m, rest), accepted + [m])
  {
    assert Sent(scanned, Marking(m, rest)) == Sent(scanned, Pushing(m, rest));
  }

  lemma HashOnPush(keccak: HashFunction, processed: seq<Digest>, m: L2Message, rest: seq<DepositLog>,
    accepted: seq<L2Message>)
    requires HashInv(keccak, processed, Pushing(m, rest), accepted)
    ensures HashInv(keccak, processed, Marking(m, rest), accepted + [m])
  {
    assert (accepted + [m])[..|accepted|] == accepted;
  }

  lemma PushPreserves(chain: Chain, keccak: HashFunction, s: State)
    requires Inv(chain, keccak, s)
    ensures Inv(chain, keccak, Step(chain, keccak, s, PushBack))
  {
    if s.poller.Pushing? {
      var m := s.poller.m;
      AddLast(s.delivered, s.deposits, m);
      SentOnPush(s.scanned, m, s.poller.rest, s.accepted);
      HashOnPush(keccak, s.processed, m, s.poller.rest, s.accepted);
    }
  }

  lemma HashOnMark(keccak: HashFunction, processed: seq<Digest>, m: L2Message, rest: seq<DepositLog>,
    accepted: seq<L2Message>)
    requires HashInv(keccak, processed, Marking(m, rest), accepted)
    ensures HashInv(keccak, processed + [MessageHash(keccak, m)], Enqueueing(rest), accepted)
  {
    var front := accepted[..|accepted| - 1];
    assert accepted == front + [m];
    HashesSnoc(keccak, front, m);
  }

  lemma SentOnMark(scanned: seq<DepositLog>, m: L2Message, rest: seq<DepositLog>, accepted: seq<L2Message>)
    requires SentInv(scanned, Marking(m, rest), accepted)
    ensures SentInv(scanned, Enqueueing(rest), accepted)
    ensures Sent(scanned, Enqueueing(rest)) == Sent(scanned, Marking(m, rest))
  {}

  lemma MarkPreserves(chain: Chain, keccak: HashFunction, s: State)
    requires Inv(chain, keccak, s)
    ensures Inv(chain, keccak, Step(chain, keccak, s, MarkProcessed))
  {
    if s.poller.Marking? {
      HashOnMark(keccak, s.processed, s.poller.m, s.poller.rest, s.accepted);
      SentOnMark(s.scanned, s.poller.m, s.poller.rest, s.accepted);
    }
  }

  lemma FlowOnPop(accepted: seq<L2Message>, delivered: seq<L2Message>, deposits: seq<L2Message>, counted: nat)
    requires FlowInv(accepted, delivered, deposits, counted, Draining) && deposits != []
    ensures FlowInv(accepted, delivered + [deposits[0]], deposits[1..], counted, InHand(deposits[0]))
  {
    TakeFirst(delivered, deposits);
    assert deposits[..1] == [deposits[0]];
  }

  lemma ProcessorPreserves(chain: Chain, keccak: HashFunction, s: State, e: Event)
    requires Inv(chain, keccak, s) && (e.SeePending? || e.PopFront? || e.CountDeposit?)
    ensures Inv(chain, keccak, Step(chain, keccak, s, e))
  {
    if e.PopFront? && s.processor == Draining && s.deposits != [] {
      FlowOnPop(s.accepted, s.delivered, s.deposits, s.counted);
    }
  }

  lemma StepPreserves(chain: Chain, keccak: HashFunction, s: State, e: Event)
    requires WellFormed(chain) && CollisionFree(keccak) && Inv(chain, keccak, s)
    ensures Inv(chain, keccak, Step(chain, keccak, s, e))
  {
    match e
    case PollLogs(poll) => PollPreserves(chain, keccak, s, poll);
    case CheckProcessed(now) => CheckPreserves(chain, keccak, s, now);
    case PushBack => PushPreserves(chain, keccak, s);
    case MarkProcessed => MarkPreserves(chain, keccak, s);
    case _ => ProcessorPreserves(chain, keccak, s, e);
  }

  lemma {:induction false} RunKeepsInv(chain: Chain, keccak: HashFunction, events: seq<Event>)
    requires WellFormed(chain) && CollisionFree(keccak)
    ensures Inv(chain, keccak, Run(chain, keccak, events))
  {
    if events != [] {
      var front := events[..|events| - 1];
      RunKeepsInv(chain, keccak, front);
      StepPreserves(chain, keccak, Run(chain, keccak, front), events[|events| - 1]);
    } else {
      assert Hashes(keccak, []) == [];
    }
  }

  /** `m` tells L2 to credit what the log reports: from, to, value and data are the log's, and the
      nonce is a million times its block plus its index, in 64 bits. */
  predicate CreditsLog(m: L2Message, log: DepositLog) {
    && m.msgType == Deposit && m.sender == log.from && m.recipient == log.to
    && m.value == log.value && m.data == log.data && m.nonce == (log.block * 1_000_000 + log.logIndex) % TWO_64
  }

  lemma MessageCredits(m: L2Message, log: DepositLog)
    requires MessageOf(m, log)
    ensures CreditsLog(m, log)
  {}

  /** In every interleaving: no deposit is refused; the i-th accepted message is the i-th log of
      the scanned blocks, which are consecutive; messages leave in the order they came; and
      accepted = counted + waiting + at most one in hand. */
  lemma {:induction false} DepositsExactlyOnce(chain: Chain, keccak: HashFunction, events: seq<Event>)
    requires WellFormed(chain) && CollisionFree(keccak)
    ensures var s := Run(chain, keccak, events);
      && s.refused == 0
      && (s.cursor > 0 ==> s.scanned == LogsIn(chain, s.first, s.cursor + 1))
      && RisingNonces(s.scanned)
      && |s.accepted| <= |s.scanned| && (forall i :: 0 <= i < |s.accepted| ==> MessageOf(s.accepted[i], s.scanned[i]))
      && (forall i :: 0 <= i < |s.accepted| ==> CreditsLog(s.accepted[i], s.scanned[i]))
      && (s.poller == Idle ==> |s.accepted| == |s.scanned|)
      && s.accepted == s.delivered + s.deposits
      && |s.accepted| == s.counted + |s.deposits| + (if s.processor.InHand? then 1 else 0)
  {
    RunKeepsInv(chain, keccak, events);
    var s := Run(chain, keccak, events);
    if s.cursor > 0 { NoncesRise(chain, s.first, s.cursor + 1); }
    forall i | 0 <= i < |s.accepted| ensures CreditsLog(s.accepted[i], s.scanned[i]) {
      MessageCredits(s.accepted[i], s.scanned[i]);
    }
  }

  /** What messages credit to an address. */
  function Credited(ms: seq<L2Message>, a: Address): nat {
    if ms == [] then 0
    else Credited(ms[..|ms| - 1], a) + if ms[|ms| - 1].recipient == a then ms[|ms| - 1].value else 0
  }

  /** What logs report as deposited to an address. */
  function Deposited(logs: seq<DepositLog>, a: Address): nat {
    if logs == [] then 0
    else Deposited(logs[..|logs| - 1], a) + if logs[|logs| - 1].to == a then logs[|logs| - 1].value else 0
  }

  lemma {:induction false} CreditsAddUp(ms: seq<L2Message>, logs: seq<DepositLog>, a: Address)
    requires |ms| == |logs| && forall i :: 0 <= i < |ms| ==> CreditsLog(ms[i], logs[i])
    ensures Credited(ms, a) == Deposited(logs, a)
  {
    if ms != [] { CreditsAddUp(ms[..|ms| - 1], logs[..|logs| - 1], a); }
  }

  /** In every interleaving and for every address, the deposits counted so far credit to it exactly
      what the first logs, as many, report as deposited to it. */
  lemma {:induction false} CountedCreditsDeposited(chain: Chain, keccak: HashFunction, events: seq<Event>, a: Address)
    requires WellFormed(chain) && CollisionFree(keccak)
    ensures var s := Run(chain, keccak, events);
      && s.counted <= |s.delivered| && s.counted <= |s.scanned|
      && Credited(s.delivered[..s.counted], a) == Deposited(s.scanned[..s.counted], a)
  {
    DepositsExactlyOnce(chain, keccak, events);
    var s := Run(chain, keccak, events);
    var ms, logs := s.delivered[..s.counted], s.scanned[..s.counted];
    forall i | 0 <= i < s.counted ensures CreditsLog(ms[i], logs[i]) {
      assert ms[i] == s.accepted[i] && logs[i] == s.scanned[i];
    }
    CreditsAddUp(ms, logs, a);
  }

  // Completion.

  function PollerWork(p: Poller): nat {
    match p
    case Idle => 0
    case Enqueueing(rest) => 1 + 3 * |rest|
    case Pushing(_, rest) => 3 + 3 * |rest|
    case Marking(_, rest) => 2 + 3 * |rest|
  }

  function ProcessorWork(s: State): nat {
    2 * |s.deposits| + match s.processor
                       case Waiting => if s.deposits == [] then 0 else 2
                       case Draining => 1
                       case InHand(_) => 2
  }

  function NextEvent(s: State): Event {
    match s.poller
    case Enqueueing(_) => CheckProcessed(0)
    case Pushing(_, _) => PushBack
    case Marking(_, _) => MarkProcessed
    case Idle => match s.processor case Waiting => SeePending case Draining => PopFront case InHand(_) => CountDeposit
  }

  predicate Finished(s: State) {
    s.poller == Idle && s.processor == Waiting && s.deposits == []
  }

  lemma PollerProgress(chain: Chain, keccak: HashFunction, s: State)
    requires WellFormed(chain) && CollisionFree(keccak) && Inv(chain, keccak, s) && s.poller != Idle
    ensures var t := Step(chain, keccak, s, NextEvent(s));
      t.scanned == s.scanned && t.cursor == s.cursor && t.first == s.first
        && PollerWork(t.poller) < PollerWork(s.poller)
  {
    if s.poller.Enqueueing? && s.poller.rest != [] { NextIsNew(chain, keccak, s, 0); }
  }

  lemma NextEventProgress(chain: Chain, keccak: HashFunction, s: State)
    requires WellFormed(chain) && CollisionFree(keccak) && Inv(chain, keccak, s) && !Finished(s)
    ensures var t := Step(chain, keccak, s, NextEvent(s));
      && t.scanned == s.scanned && t.cursor == s.cursor && t.first == s.first
      && (if s.poller != Idle then PollerWork(t.poller) < PollerWork(s.poller)
          else t.poller == Idle && ProcessorWork(t) < ProcessorWork(s))
  {
    if s.poller != Idle { PollerProgress(chain, keccak, s); }
  }

  /** Nothing gets stuck: from every reachable state the two tasks, polling no further, can finish,
      and then the counter equals the number of logs in the scanned blocks. */
  lemma CanFinish(chain: Chain, keccak: HashFunction, events: seq<Event>) returns (more: seq<Event>)
    requires WellFormed(chain) && CollisionFree(keccak)
    ensures events <= more
    ensures var s, t := Run(chain, keccak, events), Run(chain, keccak, more);
      t.scanned == s.scanned && t.cursor == s.cursor && t.first == s.first && Finished(t) && t.counted == |s.scanned|
    decreases PollerWork(Run(chain, keccak, events).poller), ProcessorWork(Run(chain, keccak, events))
  {
    var s := Run(chain, keccak, events);
    RunKeepsInv(chain, keccak, events);
    if Finished(s) {
      more := events;
    } else {
      var next := events + [NextEvent(s)];
      assert next[..|events|] == events;
      NextEventProgress(chain, keccak, s);
      more := CanFinish(chain, keccak, next);
    }
  }
}
