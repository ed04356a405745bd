/** The batch submitter task against the L1 contracts: withdrawals drained from the queue, batch
    headers chained by hash, state roots committed, withdrawals finalized; with failing, reverted
    and late transactions, crashes and restarts (engine/src/sequencer.rs, engine/src/l1_client.rs). */
module BatchSubmission {
  import opened L1Contracts
  import opened Messages
  import opened Sequences

  /** The withdrawal built from a drained message: its message hash is left zero. */
  function ToWithdrawal(m: L2Message): WithdrawalRequest {
    WithdrawalRequest(m.nonce, m.sender, m.recipient, m.value, 100_000, m.data, 0, ZERO)
  }

  /** A request for the message's withdrawal: from its sender to its recipient, of its value and data,
      with the fixed gas limit and neither block number nor hash. */
  predicate Requests(w: WithdrawalRequest, m: L2Message) {
    && w.nonce == m.nonce && w.sender == m.sender && w.target == m.recipient && w.value == m.value && w.data == m.data
    && w.gasLimit == 100_000 && w.l2BlockNumber == 0 && w.messageHash == 0
  }

  // Where the submitter is between its awaits. `batch` is the header whose submission was
  // reported as a success and `messages` the withdrawals it carries.
  datatype Phase =
    | Stopped
    | Idle
    | Draining(hand: seq<L2Message>)
    | Ready(hand: seq<L2Message>)
    | Reported(batch: BatchHeader, messages: seq<L2Message>)       // Ok received, nothing recorded yet
    | IndexWritten(batch: BatchHeader, messages: seq<L2Message>)
    | Committing(batch: BatchHeader, messages: seq<L2Message>)
    | Finalizing(batch: BatchHeader, messages: seq<L2Message>, next: nat)

  // Withdrawals that left the queue together, and what became of them.
  datatype Fate = Batched | Lost | InTransit
  datatype Attempt = Attempt(messages: seq<L2Message>, fate: Fate)

  // Transactions reported as errors that L1 may still include.
  datatype Tx =
    | BatchTx(header: BatchHeader, attempt: nat)
    | RootTx(batchIndex: nat, root: Digest)
    | PayTx(w: WithdrawalRequest, batchIndex: nat)

  datatype State = State(
    l1: L1, index: nat, parent: Digest, phase: Phase, pending: seq<L2Message>,
    accepted: seq<L2Message>,              // withdrawals the queue accepted
    attempts: seq<Attempt>,                // those that left it, in order
    transit: seq<Tx>,
    batches: seq<seq<L2Message>>,          // withdrawals of each batch that landed
    rejected: nat,                         // batches the inbox refused
    reverted: nat)                         // batches reported as a success that did not land

  const INITIAL := State(GENESIS, 0, ZERO, Idle, [], [], [], [], [], 0, 0)

  /** How a transaction turns out for the client, which awaits the receipt without reading its
      status: an error with no effect; inclusion, reported as a success whether the contract accepts
      or refuses; a revert for another reason, also reported as a success; inclusion, but an error is
      reported; an error now and inclusion later, if ever. */
  datatype Answer = Fails | Lands | Reverts | LandsUnseen | LandsLater

  predicate ReportsOk(a: Answer) { a == Lands || a == Reverts }

  predicate ArrivesNow(a: Answer) { a == Lands || a == LandsUnseen }

  datatype Event =
    | Accept(m: L2Message)                 // a withdrawal joins the queue
    | Begin                                // the tick; withdrawal_count() read
    | Dequeue                              // one turn of the draining loop
    | Submit(epochNum: nat, epochHash: Digest, timestamp: nat, stateRoot: Digest, withdrawalsRoot: Digest,
             transactionsRoot: Digest, answer: Answer)
    | NoClient                             // no L1 client configured
    | WriteIndex
    | WriteParent
    | Commit(answer: Answer)
    | Finalize(answer: Answer, paid: bool) // the next withdrawal of the batch
    | Include(i: nat, paid: bool)          // L1 includes a transaction in transit
    | Crash
    | Restart(indexRead: bool, hashRead: bool)

  /** Messages held by the submitter and not yet sent. */
  function Hand(p: Phase): seq<L2Message> {
    match p
    case Draining(hand) => hand
    case Ready(hand) => hand
    case _ => []
  }

  // A transaction takes effect on L1.

  function ExecBatch(h: Hashing, s: State, header: BatchHeader, ms: seq<L2Message>): State {
    match SubmitBatch(h, s.l1, header)
    case None => s.(rejected := s.rejected + 1)
    case Some(l1) => s.(l1 := l1, batches := s.batches + [ms])
  }

  function ExecRoot(l1: L1, batchIndex: nat, root: Digest): L1 {
    var after := CommitStateRoot(l1, batchIndex, root);
    if after.Some? then after.value else l1
  }

  function ExecPay(h: Hashing, l1: L1, w: WithdrawalRequest, batchIndex: nat, paid: bool): L1 {
    var after := FinalizeWithdrawal(h, l1, w, batchIndex, paid);
    if after.Some? then after.value else l1
  }

  predicate Takes(l1: L1, header: BatchHeader) {
    Accepts(l1, header.batchIndex, header.parentBatchHash)
  }

  function FateOnArrival(l1: L1, header: BatchHeader): Fate {
    if Takes(l1, header) then Batched else Lost
  }

  /** What becomes at once of the withdrawals of a submission. */
  function FateOf(l1: L1, header: BatchHeader, answer: Answer): Fate {
    if ArrivesNow(answer) then FateOnArrival(l1, header) else if answer == LandsLater then InTransit else Lost
  }

  function OnSubmit(h: Hashing, s: State, hand: seq<L2Message>, header: BatchHeader, answer: Answer): State {
    var fate := FateOf(s.l1, header, answer);
    var t := if ArrivesNow(answer) then ExecBatch(h, s, header, hand) else s;
    t.(attempts := s.attempts + [Attempt(hand, fate)],
       transit := if answer == LandsLater then s.transit + [BatchTx(header, |s.attempts|)] else s.transit,
       phase := if ReportsOk(answer) then Reported(header, hand) else Idle,
       reverted := if ReportsOk(answer) && fate != Batched then s.reverted + 1 else s.reverted)
  }

  function OnInclude(h: Hashing, s: State, i: nat, paid: bool): State
    requires i < |s.transit|
  {
    var r := s.(transit := Without(s.transit, i));
    match s.transit[i]
    case BatchTx(header, a) =>
      if a >= |s.attempts| then r
      else
        var ms := s.attempts[a].messages;
        ExecBatch(h, r, header, ms).(attempts := s.attempts[a := Attempt(ms, FateOnArrival(s.l1, header))])
    case RootTx(batchIndex, root) => r.(l1 := ExecRoot(s.l1, batchIndex, root))
    case PayTx(w, batchIndex) => r.(l1 := ExecPay(h, s.l1, w, batchIndex, paid))
  }

  /** Index and parent after a start whose two reads may fail, each independently. */
  function SyncOnStart(l1: L1, indexRead: bool, hashRead: bool): (nat, Digest) {
    if !indexRead then (0, ZERO)
    else (LatestBatchIndex(l1), if LatestBatchIndex(l1) > 0 && hashRead then ParentHash(l1) else ZERO)
  }

  function OnCommit(s: State, b: BatchHeader, messages: seq<L2Message>, answer: Answer): State {
    s.(l1 := if ArrivesNow(answer) then ExecRoot(s.l1, b.batchIndex, b.stateRoot) else s.l1,
       transit := if answer == LandsLater then s.transit + [RootTx(b.batchIndex, b.stateRoot)] else s.transit,
       phase := if ReportsOk(answer) then Finalizing(b, messages, 0) else Idle)
  }

  function OnFinalize(h: Hashing, s: State, w: WithdrawalRequest, b: nat, next: Phase, answer: Answer,
    paid: bool): State {
    s.(l1 := if ArrivesNow(answer) then ExecPay(h, s.l1, w, b, paid) else s.l1,
       transit := if answer == LandsLater then s.transit + [PayTx(w, b)] else s.transit,
       phase := next)
  }

  function HeaderOn(s: State, e: Event): BatchHeader
    requires e.Submit?
  {
    BatchHeader(s.index, s.parent, e.epochNum, e.epochHash, e.timestamp, e.stateRoot, e.withdrawalsRoot,
      e.transactionsRoot)
  }

  function Step(h: Hashing, s: State, e: Event): State {
    match e
    case Accept(m) => if s.phase == Stopped then s else s.(pending := s.pending + [m], accepted := s.accepted + [m])
    case Begin =>
      if s.phase != Idle then s else s.(phase := if s.pending != [] then Draining([]) else Ready([]))
    case Dequeue =>
      if !s.phase.Draining? then s
      else if s.pending == [] then s.(phase := Ready(s.phase.hand))
      else s.(phase := Draining(s.phase.hand + [s.pending[0]]), pending := s.pending[1..])
    case NoClient =>
      if !s.phase.Ready? then s else s.(attempts := s.attempts + [Attempt(s.phase.hand, Lost)], phase := Idle)
    case Submit(_, _, _, _, _, _, answer) =>
      if !s.phase.Ready? then s else OnSubmit(h, s, s.phase.hand, HeaderOn(s, e), answer)
    case WriteIndex =>
      if !s.phase.Reported? then s
      else s.(index := s.phase.batch.batchIndex + 1, phase := IndexWritten(s.phase.batch, s.phase.messages))
    case WriteParent =>
      if !s.phase.IndexWritten? then s
      else s.(parent := h.batch(s.phase.batch), phase := Committing(s.phase.batch, s.phase.messages))
    case Commit(answer) =>
      if !s.phase.Committing? then s else OnCommit(s, s.phase.batch, s.phase.messages, answer)
    case Finalize(answer, paid) =>
      if !s.phase.Finalizing? then s
      else if s.phase.next >= |s.phase.messages| then s.(phase := Idle)
      else OnFinalize(h, s, ToWithdrawal(s.phase.messages[s.phase.next]), s.phase.batch.batchIndex,
                      s.phase.(next := s.phase.next + 1), answer, paid)
    case Include(i, paid) => if i >= |s.transit| then s else OnInclude(h, s, i, paid)
    case Crash =>
      s.(index := 0, parent := ZERO, phase := Stopped, pending := [],
         attempts := s.attempts + [Attempt(Hand(s.phase) + s.pending, Lost)])
    case Restart(indexRead, hashRead) =>
      if s.phase != Stopped then s
      else
        var sync := SyncOnStart(s.l1, indexRead, hashRead);
        s.(index := sync.0, parent := sync.1, phase := Idle)
  }

  function Run(h: Hashing, events: seq<Event>): State {
    if events == [] then INITIAL
    else Step(h, Run(h, events[..|events| - 1]), events[|events| - 1])
  }

  // The chain on L1, in every run.

  predicate ChainInv(h: Hashing, s: State) {
    IsChain(h, s.l1.headers, s.l1.batchHashes) && |s.batches| == |s.l1.headers|
  }

  lemma ChainExtends(h: Hashing, s: State, header: BatchHeader, ms: seq<L2Message>)
    requires ChainInv(h, s)
    ensures var t := ExecBatch(h, s, header, ms);
      && ChainInv(h, t) && t.l1.stateRoots == s.l1.stateRoots && t.l1.finalized == s.l1.finalized
      && t.l1.headers == (if Takes(s.l1, header) then s.l1.headers + [header] else s.l1.headers)
      && t.batches == (if Takes(s.l1, header) then s.batches + [ms] else s.batches)
      && (Takes(s.l1, header) ==> header.batchIndex == |s.l1.headers|)
  {}

  /** What a submission does to the parts the invariants speak of. */
  lemma SubmitEffect(h: Hashing, s: State, hand: seq<L2Message>, header: BatchHeader, answer: Answer)
    requires ChainInv(h, s)
    ensures var t, lands := OnSubmit(h, s, hand, header, answer), ArrivesNow(answer) && Takes(s.l1, header);
      && ChainInv(h, t) && t.l1.stateRoots == s.l1.stateRoots && t.l1.finalized == s.l1.finalized
      && t.l1.headers == (if lands then s.l1.headers + [header] else s.l1.headers)
      && t.batches == (if lands then s.batches + [hand] else s.batches)
      && (lands ==> header.batchIndex == |s.l1.headers|)
      && t.index == s.index && t.parent == s.parent && t.pending == s.pending && t.accepted == s.accepted
      && (t.reverted == s.reverted && ReportsOk(answer) ==> lands) && t.reverted >= s.reverted
      && (ReportsOk(answer) && lands ==> t.reverted == s.reverted)
  {
    ChainExtends(h, s, header, hand);
  }

  lemma IncludeEffect(h: Hashing, s: State, i: nat, paid: bool)
    requires ChainInv(h, s) && i < |s.transit|
    ensures var t, x := OnInclude(h, s, i, paid), s.transit[i];
      var lands := x.BatchTx? && x.attempt < |s.attempts| && Takes(s.l1, x.header);
      && ChainInv(h, t) && t.transit == Without(s.transit, i)
      && t.l1.headers == (if lands then s.l1.headers + [x.header] else s.l1.headers)
      && t.batches == (if lands then s.batches + [s.attempts[x.attempt].messages] else s.batches)
      && (lands ==> x.header.batchIndex == |s.l1.headers|)
      && t.l1.stateRoots
        == (if x.RootTx? && x.batchIndex == |s.l1.stateRoots| then s.l1.stateRoots + [x.root] else s.l1.stateRoots)
      && (!x.PayTx? ==> t.l1.finalized == s.l1.finalized)
      && t.index == s.index && t.parent == s.parent && t.phase == s.phase && t.pending == s.pending
      && t.accepted == s.accepted && t.reverted == s.reverted
  {
    if s.transit[i].BatchTx? && s.transit[i].attempt < |s.attempts| {
      ChainExtends(h, s.(transit := Without(s.transit, i)), s.transit[i].header,
        s.attempts[s.transit[i].attempt].messages);
    }
  }

  /** The events that neither submit nor include leave the batches alone. */
  lemma OtherEffect(h: Hashing, s: State, e: Event)
    requires !e.Submit? && !e.Include?
    ensures var t := Step(h, s, e);
      && t.l1.headers == s.l1.headers && t.l1.batchHashes == s.l1.batchHashes && t.batches == s.batches
      && t.reverted == s.reverted
      && (!e.Commit? ==> t.l1.stateRoots == s.l1.stateRoots) && (!e.Finalize? ==> t.l1.finalized == s.l1.finalized)
      && (!e.Commit? && !e.Finalize? ==> t.transit == s.transit)
      && s.l1.stateRoots <= t.l1.stateRoots
  {}

  lemma ChainPreserved(h: Hashing, s: State, e: Event)
    requires ChainInv(h, s)
    ensures var t := Step(h, s, e);
      && ChainInv(h, t) && s.l1.headers <= t.l1.headers && s.batches <= t.batches && s.l1.stateRoots <= t.l1.stateRoots
      && s.reverted <= t.reverted
  {
    if e.Submit? {
      if s.phase.Ready? { SubmitEffect(h, s, s.phase.hand, HeaderOn(s, e), e.answer); }
    } else if e.Include? {
      if e.i < |s.transit| { IncludeEffect(h, s, e.i, e.paid); }
    } else {
      OtherEffect(h, s, e);
    }
  }

  lemma {:induction false} RunKeepsChain(h: Hashing, events: seq<Event>)
    ensures ChainInv(h, Run(h, events))
  {
    if events != [] {
      RunKeepsChain(h, events[..|events| - 1]);
      ChainPreserved(h, Run(h, events[..|events| - 1]), events[|events| - 1]);
    }
  }

  // What holds as long as every submission reported as a success has landed.

  predicate HasBatch(p: Phase) {
    p.Reported? || p.IndexWritten? || p.Committing? || p.Finalizing?
  }

  predicate OnChain(l1: L1, batches: seq<seq<L2Message>>, b: BatchHeader, ms: seq<L2Message>) {
    b.batchIndex < |l1.headers| == |batches| && l1.headers[b.batchIndex] == b && batches[b.batchIndex] == ms
  }

  predicate RootsMatch(l1: L1) {
    && |l1.stateRoots| <= |l1.headers|
    && (forall i :: 0 <= i < |l1.stateRoots| ==> l1.stateRoots[i] == l1.headers[i].stateRoot)
  }

  predicate Carries(batches: seq<seq<L2Message>>, w: WithdrawalRequest, i: nat) {
    i < |batches| && exists k :: 0 <= k < |batches[i]| && ToWithdrawal(batches[i][k]) == w
  }

  /** A withdrawal was paid out for a committed batch that carries it. */
  predicate PaidFor(s: State, w: WithdrawalRequest, i: nat) {
    IsCommitted(s.l1, i) && Carries(s.batches, w, i)
  }

  /** A transaction in transit is about a batch that landed. */
  predicate Backed(l1: L1, batches: seq<seq<L2Message>>, x: Tx) {
    match x
    case BatchTx(_, _) => true
    case RootTx(i, root) => i < |l1.headers| && l1.headers[i].stateRoot == root
    case PayTx(w, i) => Carries(batches, w, i)
  }

  predicate TransitBacked(l1: L1, batches: seq<seq<L2Message>>, transit: seq<Tx>) {
    forall i :: 0 <= i < |transit| ==> Backed(l1, batches, transit[i])
  }

  predicate PaidInv(s: State) {
    forall j :: 0 <= j < |s.l1.finalized| ==> PaidFor(s, s.l1.finalized[j].0, s.l1.finalized[j].1)
  }

  predicate Sound(s: State) {
    && (HasBatch(s.phase) ==> OnChain(s.l1, s.batches, s.phase.batch, s.phase.messages))
    && RootsMatch(s.l1) && TransitBacked(s.l1, s.batches, s.transit) && PaidInv(s)
  }

  lemma CarriesGrows(b: seq<seq<L2Message>>, c: seq<seq<L2Message>>, w: WithdrawalRequest, i: nat)
    requires Carries(b, w, i) && b <= c
    ensures Carries(c, w, i)
  {
    assert c[i] == b[i];
  }

  lemma BackedGrows(s: State, t: State)
    requires TransitBacked(s.l1, s.batches, s.transit) && s.l1.headers <= t.l1.headers && s.batches <= t.batches
    ensures TransitBacked(t.l1, t.batches, s.transit)
  {
    forall i | 0 <= i < |s.transit| ensures Backed(t.l1, t.batches, s.transit[i]) {
      assert Backed(s.l1, s.batches, s.transit[i]);
      if s.transit[i].PayTx? { CarriesGrows(s.batches, t.batches, s.transit[i].w, s.transit[i].batchIndex); }
    }
  }

  lemma PaidGrows(s: State, t: State)
    requires PaidInv(s) && s.l1.stateRoots <= t.l1.stateRoots && s.batches <= t.batches
      && t.l1.finalized == s.l1.finalized
    ensures PaidInv(t)
  {
    forall j | 0 <= j < |t.l1.finalized| ensures PaidFor(t, t.l1.finalized[j].0, t.l1.finalized[j].1) {
      assert PaidFor(s, s.l1.finalized[j].0, s.l1.finalized[j].1);
      CarriesGrows(s.batches, t.batches, s.l1.finalized[j].0, s.l1.finalized[j].1);
    }
  }

  lemma SoundOnSubmit(h: Hashing, s: State, e: Event)
    requires ChainInv(h, s) && Sound(s) && e.Submit? && s.phase.Ready? && Step(h, s, e).reverted == s.reverted
    ensures Sound(Step(h, s, e))
  {
    var t := Step(h, s, e);
    SubmitEffect(h, s, s.phase.hand, HeaderOn(s, e), e.answer);
    BackedGrows(s, t);
    PaidGrows(s, t);
  }

  lemma RootsExtend(l1: L1, i: nat, root: Digest)
    requires RootsMatch(l1) && i < |l1.headers| && l1.headers[i].stateRoot == root
    ensures var t := ExecRoot(l1, i, root);
      && RootsMatch(t) && t.headers == l1.headers && l1.stateRoots <= t.stateRoots && t.finalized == l1.finalized
  {}

  lemma PayExtends(h: Hashing, s: State, t: State, w: WithdrawalRequest, i: nat, paid: bool)
    requires PaidInv(s) && Carries(s.batches, w, i) && t.l1 == ExecPay(h, s.l1, w, i, paid) && t.batches == s.batches
    ensures PaidInv(t)
  {
    forall j | 0 <= j < |t.l1.finalized| ensures PaidFor(t, t.l1.finalized[j].0, t.l1.finalized[j].1) {
      if j < |s.l1.finalized| { assert PaidFor(s, s.l1.finalized[j].0, s.l1.finalized[j].1); }
    }
  }

  lemma SoundOnInclude(h: Hashing, s: State, i: nat, paid: bool)
    requires ChainInv(h, s) && Sound(s) && i < |s.transit|
    ensures Sound(OnInclude(h, s, i, paid))
  {
    var t, x := OnInclude(h, s, i, paid), s.transit[i];
    IncludeEffect(h, s, i, paid);
    BackedGrows(s, t);
    assert Backed(s.l1, s.batches, x);
    match x
    case BatchTx(_, _) => PaidGrows(s, t);
    case RootTx(b, root) =>
      RootsExtend(s.l1, b, root);
      PaidGrows(s, t);
    case PayTx(w, b) => PayExtends(h, s, t, w, b, paid);
  }

  lemma SoundOnCommit(s: State, b: BatchHeader, ms: seq<L2Message>, answer: Answer)
    requires Sound(s) && OnChain(s.l1, s.batches, b, ms)
    ensures Sound(OnCommit(s, b, ms, answer))
  {
    var t := OnCommit(s, b, ms, answer);
    RootsExtend(s.l1, b.batchIndex, b.stateRoot);
    BackedGrows(s, t);
    PaidGrows(s, t);
  }

  lemma SoundOnFinalize(h: Hashing, s: State, answer: Answer, paid: bool)
    requires Sound(s) && s.phase.Finalizing? && s.phase.next < |s.phase.messages|
    ensures Sound(Step(h, s, Finalize(answer, paid)))
  {
    var t, b, k := Step(h, s, Finalize(answer, paid)), s.phase.batch.batchIndex, s.phase.next;
    var w := ToWithdrawal(s.phase.messages[k]);
    assert ToWithdrawal(s.batches[b][k]) == w;
    BackedGrows(s, t);
    if ArrivesNow(answer) { PayExtends(h, s, t, w, b, paid); } else { PaidGrows(s, t); }
  }

  lemma SoundLocally(h: Hashing, s: State, e: Event)
    requires Sound(s) && !e.Submit? && !e.Include? && !e.Commit?
      && (e.Finalize? && s.phase.Finalizing? ==> s.phase.next >= |s.phase.messages|)
    ensures Sound(Step(h, s, e))
  {
    OtherEffect(h, s, e);
    var t := Step(h, s, e);
    assert t.l1 == s.l1 && t.batches == s.batches && t.transit == s.transit;
    assert HasBatch(t.phase) ==>
      HasBatch(s.phase) && t.phase.batch == s.phase.batch && t.phase.messages == s.phase.messages;
  }

  lemma SoundPreserved(h: Hashing, s: State, e: Event)
    requires ChainInv(h, s) && Sound(s) && Step(h, s, e).reverted == s.reverted
    ensures Sound(Step(h, s, e))
  {
    if e.Submit? && s.phase.Ready? {
      SoundOnSubmit(h, s, e);
    } else if e.Include? && e.i < |s.transit| {
      SoundOnInclude(h, s, e.i, e.paid);
    } else if e.Commit? && s.phase.Committing? {
      SoundOnCommit(s, s.phase.batch, s.phase.messages, e.answer);
    } else if e.Finalize? && s.phase.Finalizing? && s.phase.next < |s.phase.messages| {
      SoundOnFinalize(h, s, e.answer, e.paid);
    } else if !e.Submit? && !e.Include? && !e.Commit? {
      SoundLocally(h, s, e);
    }
  }

  lemma {:induction false} RunKeepsSound(h: Hashing, events: seq<Event>)
    requires Run(h, events).reverted == 0
    ensures Sound(Run(h, events))
  {
    if events != [] {
      var front := events[..|events| - 1];
      RunKeepsChain(h, front);
      ChainPreserved(h, Run(h, front), events[|events| - 1]);
      RunKeepsSound(h, front);
      SoundPreserved(h, Run(h, front), events[|events| - 1]);
    }
  }

  /** In every run, whatever L1 answers, the batches on L1 have consecutive indices and each names
      the hash of the one before it. As long as every submission reported as a success has landed,
      the committed roots are those of the first batches, and a withdrawal is paid out only for a
      batch that carries it and whose nonzero root was committed before. */
  lemma {:induction false} BatchesChained(h: Hashing, events: seq<Event>)
    ensures var s := Run(h, events);
      && IsChain(h, s.l1.headers, s.l1.batchHashes) && |s.batches| == |s.l1.headers|
      && (s.reverted == 0 ==>
            && RootsMatch(s.l1)
            && forall j :: 0 <= j < |s.l1.finalized| ==> PaidFor(s, s.l1.finalized[j].0, s.l1.finalized[j].1))
  {
    RunKeepsChain(h, events);
    if Run(h, events).reverted == 0 { RunKeepsSound(h, events); }
  }

  /** As long as every submission reported as a success has landed, each payout goes to the recipient
      of some message of the batch it names, from its sender and of its value. */
  lemma {:induction false} PayoutsRequested(h: Hashing, events: seq<Event>, j: nat)
    requires j < |Run(h, events).l1.finalized| && Run(h, events).reverted == 0
    ensures var s := Run(h, events);
      var (w, i) := s.l1.finalized[j];
      i < |s.batches| && exists m :: m in s.batches[i] && Requests(w, m)
  {
    RunKeepsSound(h, events);
    var s := Run(h, events);
    var (w, i) := s.l1.finalized[j];
    assert PaidFor(s, s.l1.finalized[j].0, s.l1.finalized[j].1);
    var k :| 0 <= k < |s.batches[i]| && ToWithdrawal(s.batches[i][k]) == w;
    assert s.batches[i][k] in s.batches[i];
  }

  /** The header of a batch that lands: the submitter's index and parent, and what it was submitted
      with. */
  lemma LandedHeader(h: Hashing, s: State, e: Event)
    requires ChainInv(h, s) && e.Submit? && |Step(h, s, e).l1.headers| > |s.l1.headers|
    ensures var t := Step(h, s, e);
      var b := t.l1.headers[|s.l1.headers|];
      && |t.l1.headers| == |s.l1.headers| + 1
      && b.batchIndex == s.index == |s.l1.headers| && b.parentBatchHash == s.parent
      && b.epochNum == e.epochNum && b.epochHash == e.epochHash && b.timestamp == e.timestamp
      && b.stateRoot == e.stateRoot && b.withdrawalsRoot == e.withdrawalsRoot
      && b.transactionsRoot == e.transactionsRoot
  {
    if s.phase.Ready? { SubmitEffect(h, s, s.phase.hand, HeaderOn(s, e), e.answer); }
  }

  // Payouts. Every request carries the zero hash.

  predicate PayoutInv(s: State) {
    && |s.l1.finalized| <= 1
    && (forall j :: 0 <= j < |s.l1.finalized| ==> s.l1.finalized[j].0.messageHash == ZERO)
    && (forall j :: 0 <= j < |s.l1.finalized| ==> s.l1.finalized[j].1 < |s.l1.stateRoots|)
    && (forall i :: 0 <= i < |s.transit| && s.transit[i].PayTx? ==> s.transit[i].w.messageHash == ZERO)
  }

  lemma OnePayout(h: Hashing, l1: L1, w: WithdrawalRequest, i: nat, paid: bool)
    requires w.messageHash == ZERO && (forall j :: 0 <= j < |l1.finalized| ==> l1.finalized[j].0.messageHash == ZERO)
    ensures var t := ExecPay(h, l1, w, i, paid);
      t.finalized == if |l1.finalized| == 0 && IsCommitted(l1, i) && h.withdrawal(w) == ZERO && paid then [(w, i)]
                     else l1.finalized
  {
    if |l1.finalized| > 0 { assert l1.finalized[0].0.messageHash == ZERO; }
  }

  lemma PayoutOnFinalize(h: Hashing, s: State, answer: Answer, paid: bool)
    requires PayoutInv(s) && s.phase.Finalizing? && s.phase.next < |s.phase.messages|
    ensures PayoutInv(Step(h, s, Finalize(answer, paid)))
  {
    OnePayout(h, s.l1, ToWithdrawal(s.phase.messages[s.phase.next]), s.phase.batch.batchIndex, paid);
  }

  lemma PayoutOnInclude(h: Hashing, s: State, i: nat, paid: bool)
    requires ChainInv(h, s) && PayoutInv(s) && i < |s.transit|
    ensures PayoutInv(OnInclude(h, s, i, paid))
  {
    IncludeEffect(h, s, i, paid);
    var x := s.transit[i];
    if x.PayTx? { OnePayout(h, s.l1, x.w, x.batchIndex, paid); }
  }

  lemma PayoutElsewhere(s: State, t: State)
    requires PayoutInv(s) && t.l1.finalized == s.l1.finalized && s.l1.stateRoots <= t.l1.stateRoots
    requires s.transit <= t.transit && forall i :: |s.transit| <= i < |t.transit| ==> !t.transit[i].PayTx?
    ensures PayoutInv(t)
  {}

  lemma PayoutOnStep(h: Hashing, s: State, e: Event)
    requires ChainInv(h, s) && PayoutInv(s)
    ensures PayoutInv(Step(h, s, e))
  {
    if e.Finalize? && s.phase.Finalizing? && s.phase.next < |s.phase.messages| {
      PayoutOnFinalize(h, s, e.answer, e.paid);
    } else if e.Include? {
      if e.i < |s.transit| { PayoutOnInclude(h, s, e.i, e.paid); }
    } else {
      if e.Submit? && s.phase.Ready? {
        SubmitEffect(h, s, s.phase.hand, HeaderOn(s, e), e.answer);
      } else if !e.Submit? {
        OtherEffect(h, s, e);
      }
      PayoutElsewhere(s, Step(h, s, e));
    }
  }

  /** No run pays out more than one withdrawal, whatever the hash function: all requests carry the
      same zero hash, and a second one counts as already finalized. */
  lemma {:induction false} AtMostOnePayout(h: Hashing, events: seq<Event>)
    ensures PayoutInv(Run(h, events)) && |Run(h, events).l1.finalized| <= 1
  {
    if events != [] {
      AtMostOnePayout(h, events[..|events| - 1]);
      RunKeepsChain(h, events[..|events| - 1]);
      PayoutOnStep(h, Run(h, events[..|events| - 1]), events[|events| - 1]);
    }
  }

  /** The shortest run that pays a withdrawal of `m`, if anything lets it be paid. */
  function PayingRun(m: L2Message): seq<Event> {
    [Accept(m), Begin, Dequeue, Dequeue, Submit(0, ZERO, 0, 1, ZERO, ZERO, Lands), WriteIndex, WriteParent,
     Commit(Lands), Finalize(Lands, true)]
  }

  lemma RunStep(h: Hashing, events: seq<Event>, k: nat)
    requires k < |events|
    ensures Run(h, events[..k + 1]) == Step(h, Run(h, events[..k]), events[k])
  {
    assert events[..k + 1][..k] == events[..k];
  }

  const PAYING_HEADER := BatchHeader(0, ZERO, 0, ZERO, 0, 1, ZERO, ZERO)

  lemma PayingRunCollects(h: Hashing, m: L2Message)
    ensures Run(h, PayingRun(m)[..4]) == INITIAL.(phase := Ready([m]), accepted := [m])
  {
    var e := PayingRun(m);
    RunStep(h, e, 0);
    RunStep(h, e, 1);
    RunStep(h, e, 2);
    RunStep(h, e, 3);
    assert [] + [m] == [m] && [m][1..] == [];
  }

  lemma PayingRunSubmits(h: Hashing, m: L2Message)
    ensures var s := Run(h, PayingRun(m)[..5]);
      s.phase == Reported(PAYING_HEADER, [m]) && s.l1 == L1([PAYING_HEADER], [h.batch(PAYING_HEADER)], [], [])
  {
    PayingRunCollects(h, m);
    RunStep(h, PayingRun(m), 4);
  }

  lemma PayingRunCommits(h: Hashing, m: L2Message)
    ensures var s := Run(h, PayingRun(m)[..8]);
      s.phase == Finalizing(PAYING_HEADER, [m], 0) && s.l1 == L1([PAYING_HEADER], [h.batch(PAYING_HEADER)], [1], [])
  {
    PayingRunSubmits(h, m);
    RunStep(h, PayingRun(m), 5);
    RunStep(h, PayingRun(m), 6);
    RunStep(h, PayingRun(m), 7);
  }

  lemma PayingRunPays(h: Hashing, m: L2Message)
    requires h.withdrawal(ToWithdrawal(m)) == ZERO
    ensures Run(h, PayingRun(m)).l1.finalized == [(ToWithdrawal(m), 0)]
  {
    PayingRunCommits(h, m);
    RunStep(h, PayingRun(m), 8);
    assert PayingRun(m)[..9] == PayingRun(m);
    OnePayout(h, Run(h, PayingRun(m)[..8]).l1, ToWithdrawal(m), 0, true);
  }

  /** Every request in transit is that of some message. */
  ghost predicate PaysRequests(transit: seq<Tx>) {
    forall i :: 0 <= i < |transit| && transit[i].PayTx? ==> exists m :: transit[i].w == ToWithdrawal(m)
  }

  lemma NoPayout(h: Hashing, l1: L1, m: L2Message, i: nat, paid: bool)
    requires h.withdrawal(ToWithdrawal(m)) != ZERO
    ensures ExecPay(h, l1, ToWithdrawal(m), i, paid) == l1
  {}

  lemma NoPayoutOnStep(h: Hashing, s: State, e: Event)
    requires ChainInv(h, s) && s.l1.finalized == [] && PaysRequests(s.transit)
    requires forall m :: h.withdrawal(ToWithdrawal(m)) != ZERO
    ensures Step(h, s, e).l1.finalized == [] && PaysRequests(Step(h, s, e).transit)
  {
    if e.Finalize? && s.phase.Finalizing? && s.phase.next < |s.phase.messages| {
      NoPayout(h, s.l1, s.phase.messages[s.phase.next], s.phase.batch.batchIndex, e.paid);
    } else if e.Include? {
      if e.i < |s.transit| {
        IncludeEffect(h, s, e.i, e.paid);
        if s.transit[e.i].PayTx? {
          var m :| s.transit[e.i].w == ToWithdrawal(m);
          NoPayout(h, s.l1, m, s.transit[e.i].batchIndex, e.paid);
        }
      }
    } else if e.Submit? && s.phase.Ready? {
      SubmitEffect(h, s, s.phase.hand, HeaderOn(s, e), e.answer);
    } else if !e.Submit? {
      OtherEffect(h, s, e);
    }
  }

  lemma {:induction false} PayoutNeedsZeroHash(h: Hashing, events: seq<Event>)
    requires forall m :: h.withdrawal(ToWithdrawal(m)) != ZERO
    ensures Run(h, events).l1.finalized == [] && PaysRequests(Run(h, events).transit)
  {
    if events != [] {
      PayoutNeedsZeroHash(h, events[..|events| - 1]);
      RunKeepsChain(h, events[..|events| - 1]);
      NoPayoutOnStep(h, Run(h, events[..|events| - 1]), events[|events| - 1]);
    }
  }

  /** Some run pays a withdrawal exactly when the request of some message hashes to zero. */
  lemma PayableIff(h: Hashing)
    ensures (exists events :: Run(h, events).l1.finalized != [])
      <==> (exists m :: h.withdrawal(ToWithdrawal(m)) == ZERO)
  {
    if m :| h.withdrawal(ToWithdrawal(m)) == ZERO {
      PayingRunPays(h, m);
    } else {
      forall events ensures Run(h, events).l1.finalized == [] {
        PayoutNeedsZeroHash(h, events);
      }
    }
  }
}
