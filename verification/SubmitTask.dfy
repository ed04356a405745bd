/** `submit_batch` as the sequencer runs it, and the start-up sync: each uninterrupted execution is
    a stretch of a run of the step protocol (engine/src/sequencer.rs, engine/src/l1_client.rs). */
module SubmitTask {
  import opened BatchSubmission
  import opened L1Contracts
  import opened MessageQueues
  import opened Messages
  import opened Positional
  import opened SequencerTasks

  /** What L1 answers during one execution: to the batch, to its state root, and to the i-th
      withdrawal, with whether the payment goes through if that call takes effect. */
  datatype Answers = Answers(submission: Answer, commit: Answer, payment: nat -> (Answer, bool))

  /** What the header is built from besides the sequencer's own state. */
  datatype Context = Context(epochNum: nat, epochHash: Digest, timestamp: nat, stateRoot: Digest,
    transactionsRoot: Digest)

  function RunFrom(h: Hashing, s: State, events: seq<Event>): State
    decreases events
  {
    if events == [] then s else RunFrom(h, Step(h, s, events[0]), events[1..])
  }

  lemma {:induction false} RunFromConcat(h: Hashing, s: State, first: seq<Event>, second: seq<Event>)
    ensures RunFrom(h, s, first + second) == RunFrom(h, RunFrom(h, s, first), second)
    decreases first
  {
    if first == [] {
      assert first + second == second;
    } else {
      assert (first + second)[1..] == first[1..] + second;
      RunFromConcat(h, Step(h, s, first[0]), first[1..], second);
    }
  }

  /** A stretch after a run is a longer run. */
  lemma {:induction false} RunContinues(h: Hashing, events: seq<Event>, more: seq<Event>)
    ensures Run(h, events + more) == RunFrom(h, Run(h, events), more)
    decreases more
  {
    if more == [] {
      assert events + more == events;
    } else {
      assert events + more == (events + [more[0]]) + more[1..];
      assert (events + [more[0]])[..|events|] == events;
      RunContinues(h, events + [more[0]], more[1..]);
    }
  }

  function FinalizeEvents(payment: nat -> (Answer, bool), from: nat, n: nat): seq<Event>
    requires from <= n
    decreases n - from
  {
    [Finalize(payment(from).0, payment(from).1)] + if from == n then [] else FinalizeEvents(payment, from + 1, n)
  }

  /** The steps of one execution with n withdrawals waiting; steps past a failure change nothing. */
  function SubmitEvents(n: nat, client: bool, c: Context, withdrawalsRoot: Digest, a: Answers): seq<Event> {
    ([Begin] + Repeat(Dequeue, n + 1)) +
    if !client then [NoClient]
    else [Submit(c.epochNum, c.epochHash, c.timestamp, c.stateRoot, withdrawalsRoot, c.transactionsRoot, a.submission)]
         + ([WriteIndex, WriteParent, Commit(a.commit)] + FinalizeEvents(a.payment, 0, n))
  }

  // Draining.

  lemma {:induction false} DequeueWhenReady(h: Hashing, s: State, k: nat)
    requires s.phase.Ready?
    ensures RunFrom(h, s, Repeat(Dequeue, k)) == s
  {
    if k > 0 {
      assert Repeat<Event>(Dequeue, k)[1..] == Repeat<Event>(Dequeue, k - 1);
      DequeueWhenReady(h, s, k - 1);
    }
  }

  lemma {:induction false} DrainRun(h: Hashing, s: State)
    requires s.phase.Draining?
    ensures RunFrom(h, s, Repeat(Dequeue, |s.pending| + 1))
      == s.(phase := Ready(s.phase.hand + s.pending), pending := [])
    decreases |s.pending|
  {
    var n := |s.pending|;
    assert Repeat<Event>(Dequeue, n + 1)[1..] == Repeat<Event>(Dequeue, n);
    var t := Step(h, s, Dequeue);
    if n == 0 {
      assert Repeat<Event>(Dequeue, 0) == [];
      assert s.phase.hand + s.pending == s.phase.hand && s.pending == [];
    } else {
      DrainRun(h, t);
      assert t.phase.hand + t.pending == s.phase.hand + s.pending;
    }
  }

  lemma CollectRun(h: Hashing, s: State)
    requires s.phase == Idle
    ensures RunFrom(h, s, [Begin] + Repeat(Dequeue, |s.pending| + 1)) == s.(phase := Ready(s.pending), pending := [])
  {
    var events := [Begin] + Repeat<Event>(Dequeue, |s.pending| + 1);
    assert events[1..] == Repeat<Event>(Dequeue, |s.pending| + 1);
    var t := Step(h, s, Begin);
    if s.pending == [] {
      DequeueWhenReady(h, t, 1);
    } else {
      DrainRun(h, t);
      assert [] + s.pending == s.pending;
    }
  }

  // Finalizing.

  function TryFinalize(h: Hashing, l1: L1, w: WithdrawalRequest, batchIndex: nat, answer: (Answer, bool)): L1 {
    if ArrivesNow(answer.0) then ExecPay(h, l1, w, batchIndex, answer.1) else l1
  }

  function FinalizeAll(h: Hashing, l1: L1, ws: seq<WithdrawalRequest>, batchIndex: nat,
    payment: nat -> (Answer, bool)): L1 {
    if ws == [] then l1
    else
      var n := |ws| - 1;
      TryFinalize(h, FinalizeAll(h, l1, ws[..n], batchIndex, payment), ws[n], batchIndex, payment(n))
  }

  /** A call that reaches L1 and that the bridge has no reason of its own to refuse. */
  predicate Payable(h: Hashing, l1: L1, w: WithdrawalRequest, batchIndex: nat, answer: (Answer, bool)) {
    && answer.0 in [Lands, LandsUnseen] && answer.1 && w.messageHash == h.withdrawal(w)
    && batchIndex < |l1.stateRoots| && l1.stateRoots[batchIndex] != 0
  }

  /** What finalizing a batch does to L1: nothing but payouts, each of a payable request, under the
      batch's index, and of a hash not paid before; */
  predicate OnlyPays(h: Hashing, l1: L1, after: L1, ws: seq<WithdrawalRequest>, batchIndex: nat,
                     payment: nat -> (Answer, bool))
  {
    && after.(finalized := []) == l1.(finalized := []) && l1.finalized <= after.finalized
    && (forall j :: |l1.finalized| <= j < |after.finalized| ==> after.finalized[j].1 == batchIndex)
    && (forall j :: |l1.finalized| <= j < |after.finalized| ==>
          exists k :: 0 <= k < |ws| && after.finalized[j].0 == ws[k] && Payable(h, l1, ws[k], batchIndex, payment(k)))
    && forall i, j :: 0 <= i < j && |l1.finalized| <= j < |after.finalized| ==>
         after.finalized[i].0.messageHash != after.finalized[j].0.messageHash
  }

  /** and whatever happened to the others, each payable request's hash is paid afterwards. */
  predicate PaysAll(h: Hashing, l1: L1, after: L1, ws: seq<WithdrawalRequest>, batchIndex: nat,
                    payment: nat -> (Answer, bool))
  {
    forall k :: 0 <= k < |ws| && Payable(h, l1, ws[k], batchIndex, payment(k)) ==>
      exists j :: 0 <= j < |after.finalized| && after.finalized[j].0.messageHash == ws[k].messageHash
  }

  lemma TryPays(h: Hashing, l1: L1, s: L1, ws: seq<WithdrawalRequest>, batchIndex: nat,
                payment: nat -> (Answer, bool))
    requires ws != [] && OnlyPays(h, l1, s, ws[..|ws| - 1], batchIndex, payment)
    ensures var n := |ws| - 1;
      OnlyPays(h, l1, TryFinalize(h, s, ws[n], batchIndex, payment(n)), ws, batchIndex, payment)
  {
    var n := |ws| - 1;
    var t := TryFinalize(h, s, ws[n], batchIndex, payment(n));
    forall j | |l1.finalized| <= j < |t.finalized|
      ensures exists k :: 0 <= k < |ws| && t.finalized[j].0 == ws[k] && Payable(h, l1, ws[k], batchIndex, payment(k))
    {
      if j < |s.finalized| {
        var k :| 0 <= k < n && s.finalized[j].0 == ws[..n][k] && Payable(h, l1, ws[..n][k], batchIndex, payment(k));
        assert t.finalized[j].0 == ws[k];
      } else {
        assert t.finalized[j].0 == ws[n] && Payable(h, l1, ws[n], batchIndex, payment(n));
      }
    }
  }

  lemma TryPaysAll(h: Hashing, l1: L1, s: L1, ws: seq<WithdrawalRequest>, batchIndex: nat,
                   payment: nat -> (Answer, bool))
    requires ws != [] && s.stateRoots == l1.stateRoots && PaysAll(h, l1, s, ws[..|ws| - 1], batchIndex, payment)
    ensures var n := |ws| - 1;
      PaysAll(h, l1, TryFinalize(h, s, ws[n], batchIndex, payment(n)), ws, batchIndex, payment)
  {
    var n := |ws| - 1;
    var t := TryFinalize(h, s, ws[n], batchIndex, payment(n));
    assert s.finalized <= t.finalized;
    forall k | 0 <= k < |ws| && Payable(h, l1, ws[k], batchIndex, payment(k))
      ensures exists j :: 0 <= j < |t.finalized| && t.finalized[j].0.messageHash == ws[k].messageHash
    {
      if k < n {
        assert ws[..n][k] == ws[k];
        var j :| 0 <= j < |s.finalized| && s.finalized[j].0.messageHash == ws[k].messageHash;
        assert t.finalized[j] == s.finalized[j];
      } else if !IsFinalized(s, ws[n].messageHash) {
        assert t.finalized[|s.finalized|].0 == ws[n];
      } else {
        assert t == s;
      }
    }
  }

  /** Every request of the batch is tried, past any that fail. */
  lemma {:induction false} FinalizeTriesAll(h: Hashing, l1: L1, ws: seq<WithdrawalRequest>, batchIndex: nat,
                                            payment: nat -> (Answer, bool))
    ensures var after := FinalizeAll(h, l1, ws, batchIndex, payment);
      OnlyPays(h, l1, after, ws, batchIndex, payment) && PaysAll(h, l1, after, ws, batchIndex, payment)
  {
    if ws != [] {
      var n := |ws| - 1;
      FinalizeTriesAll(h, l1, ws[..n], batchIndex, payment);
      TryPays(h, l1, FinalizeAll(h, l1, ws[..n], batchIndex, payment), ws, batchIndex, payment);
      TryPaysAll(h, l1, FinalizeAll(h, l1, ws[..n], batchIndex, payment), ws, batchIndex, payment);
    }
  }

  lemma FinalizeAllSnoc(h: Hashing, l1: L1, ms: seq<L2Message>, k: nat, batchIndex: nat, payment: nat -> (Answer, bool))
    requires k < |ms|
    ensures FinalizeAll(h, l1, Withdrawals(ms[..k + 1]), batchIndex, payment)
         == TryFinalize(h, FinalizeAll(h, l1, Withdrawals(ms[..k]), batchIndex, payment), ToWithdrawal(ms[k]),
                        batchIndex, payment(k))
  {
    assert Withdrawals(ms[..k + 1])[..k] == Withdrawals(ms[..k]);
  }

  lemma {:induction false} FinalizeRun(h: Hashing, s: State, l1: L1, payment: nat -> (Answer, bool))
    requires s.phase.Finalizing? && s.phase.next <= |s.phase.messages|
    requires s.l1 == FinalizeAll(h, l1, Withdrawals(s.phase.messages[..s.phase.next]), s.phase.batch.batchIndex,
      payment)
    ensures var t := RunFrom(h, s, FinalizeEvents(payment, s.phase.next, |s.phase.messages|));
      && t.l1 == FinalizeAll(h, l1, Withdrawals(s.phase.messages), s.phase.batch.batchIndex, payment) && t.phase == Idle
      && t.index == s.index && t.parent == s.parent && t.pending == s.pending
    decreases |s.phase.messages| - s.phase.next
  {
    var ms, k := s.phase.messages, s.phase.next;
    var events := FinalizeEvents(payment, k, |ms|);
    if k == |ms| {
      assert events[1..] == [] && ms[..k] == ms;
    } else {
      assert events[1..] == FinalizeEvents(payment, k + 1, |ms|);
      FinalizeAllSnoc(h, l1, ms, k, s.phase.batch.batchIndex, payment);
      FinalizeRun(h, Step(h, s, events[0]), l1, payment);
    }
  }

  lemma {:induction false} FinalizeWhenIdle(h: Hashing, s: State, payment: nat -> (Answer, bool), from: nat, n: nat)
    requires s.phase == Idle && from <= n
    ensures RunFrom(h, s, FinalizeEvents(payment, from, n)) == s
    decreases n - from
  {
    var events := FinalizeEvents(payment, from, n);
    if from == n {
      assert events[1..] == [];
    } else {
      assert events[1..] == FinalizeEvents(payment, from + 1, n);
      FinalizeWhenIdle(h, s, payment, from + 1, n);
    }
  }

  // The three writes after a submission.

  function Committed(l1: L1, header: BatchHeader, answer: Answer): L1 {
    if ArrivesNow(answer) then ExecRoot(l1, header.batchIndex, header.stateRoot) else l1
  }

  lemma RunThree(h: Hashing, s: State, a: Event, b: Event, c: Event)
    ensures RunFrom(h, s, [a, b, c]) == Step(h, Step(h, Step(h, s, a), b), c)
  {
    assert [a, b, c][1..] == [b, c] && [b, c][1..] == [c] && [c][1..] == [];
    var t := Step(h, s, a);
    assert RunFrom(h, t, [b, c]) == RunFrom(h, Step(h, t, b), [c]);
  }

  lemma ReportedRun(h: Hashing, s: State, a: Answers)
    requires s.phase.Reported?
    ensures var b, ms := s.phase.batch, s.phase.messages;
      var events := [WriteIndex, WriteParent, Commit(a.commit)] + FinalizeEvents(a.payment, 0, |ms|);
      var l1, t := Committed(s.l1, b, a.commit), RunFrom(h, s, events);
      && t.index == b.batchIndex + 1 && t.parent == h.batch(b) && t.phase == Idle && t.pending == s.pending
      && t.l1 == (if ReportsOk(a.commit) then FinalizeAll(h, l1, Withdrawals(ms), b.batchIndex, a.payment) else l1)
  {
    var b, ms := s.phase.batch, s.phase.messages;
    var three := [WriteIndex, WriteParent, Commit(a.commit)];
    RunThree(h, s, WriteIndex, WriteParent, Commit(a.commit));
    var t := RunFrom(h, s, three);
    RunFromConcat(h, s, three, FinalizeEvents(a.payment, 0, |ms|));
    if ReportsOk(a.commit) {
      assert Withdrawals(ms[..0]) == [];
      FinalizeRun(h, t, t.l1, a.payment);
    } else {
      FinalizeWhenIdle(h, t, a.payment, 0, |ms|);
    }
  }

  lemma NotReportedRun(h: Hashing, s: State, a: Answers, n: nat)
    requires s.phase == Idle
    ensures RunFrom(h, s, [WriteIndex, WriteParent, Commit(a.commit)] + FinalizeEvents(a.payment, 0, n)) == s
  {
    var three := [WriteIndex, WriteParent, Commit(a.commit)];
    RunThree(h, s, WriteIndex, WriteParent, Commit(a.commit));
    RunFromConcat(h, s, three, FinalizeEvents(a.payment, 0, n));
    FinalizeWhenIdle(h, s, a.payment, 0, n);
  }

  function HeaderOf(index: nat, parent: Digest, c: Context, withdrawalsRoot: Digest): BatchHeader {
    BatchHeader(index, parent, c.epochNum, c.epochHash, c.timestamp, c.stateRoot, withdrawalsRoot, c.transactionsRoot)
  }

  /** From the collected withdrawals on. */
  lemma AfterCollecting(h: Hashing, s: State, c: Context, root: Digest, a: Answers)
    requires s.phase.Ready?
    ensures var header := HeaderOf(s.index, s.parent, c, root);
      var o := OnSubmit(h, s, s.phase.hand, header, a.submission);
      var submit := Submit(c.epochNum, c.epochHash, c.timestamp, c.stateRoot, root, c.transactionsRoot, a.submission);
      var tail := [WriteIndex, WriteParent, Commit(a.commit)] + FinalizeEvents(a.payment, 0, |s.phase.hand|);
      RunFrom(h, s, [submit] + tail) == RunFrom(h, o, tail)
        && (o.phase.Idle? || o.phase == Reported(header, s.phase.hand))
  {
    var submit := Submit(c.epochNum, c.epochHash, c.timestamp, c.stateRoot, root, c.transactionsRoot, a.submission);
    var tail := [WriteIndex, WriteParent, Commit(a.commit)] + FinalizeEvents(a.payment, 0, |s.phase.hand|);
    assert ([submit] + tail)[1..] == tail;
  }

  /** L1, the index and the parent after one execution. */
  function AfterSubmit(h: Hashing, l1: L1, header: BatchHeader, ws: seq<WithdrawalRequest>, a: Answers,
                       index: nat, parent: Digest): (L1, nat, Digest)
  {
    var sent := SubmitBatch(h, l1, header);
    var included := if ArrivesNow(a.submission) && sent.Some? then sent.value else l1;
    if !ReportsOk(a.submission) then (included, index, parent)
    else
      var committed := Committed(included, header, a.commit);
      (if ReportsOk(a.commit) then FinalizeAll(h, committed, ws, header.batchIndex, a.payment) else committed,
       header.batchIndex + 1, h.batch(header))
  }

  /** A header added to L1 names index and parent of the sequencer, the context and the root. */
  predicate HeaderAdded(l1: L1, after: L1, index: nat, parent: Digest, c: Context, root: Digest) {
    after.headers == l1.headers
    || (|after.headers| == |l1.headers| + 1 && l1.headers <= after.headers
        && var b := after.headers[|l1.headers|];
           && b.batchIndex == index && b.parentBatchHash == parent && b.epochNum == c.epochNum
           && b.epochHash == c.epochHash && b.timestamp == c.timestamp && b.stateRoot == c.stateRoot
           && b.transactionsRoot == c.transactionsRoot && b.withdrawalsRoot == root)
  }

  lemma SubmitAddsHeader(h: Hashing, l1: L1, index: nat, parent: Digest, c: Context, root: Digest,
                         ws: seq<WithdrawalRequest>, a: Answers)
    ensures var after := AfterSubmit(h, l1, HeaderOf(index, parent, c, root), ws, a, index, parent).0;
      HeaderAdded(l1, after, index, parent, c, root)
  {
    var header := HeaderOf(index, parent, c, root);
    var sent := SubmitBatch(h, l1, header);
    var included := if ArrivesNow(a.submission) && sent.Some? then sent.value else l1;
    FinalizeTriesAll(h, Committed(included, header, a.commit), ws, index, a.payment);
  }

  /** Which answers let the execution go on: without a reported success index, parent, roots and payouts
      stay; with one index and parent move past the batch whether or not it landed, its root is committed if
      the commitment arrives in turn, and payouts need that commitment reported as a success, too. */
  predicate GoesOn(h: Hashing, l1: L1, after: L1, index: nat, newIndex: nat, parent: Digest, newParent: Digest,
                   c: Context, root: Digest, a: Answers)
  {
    && (a.submission !in [Lands, Reverts] ==>
          newIndex == index && newParent == parent && after.stateRoots == l1.stateRoots
          && after.finalized == l1.finalized)
    && (a.submission in [Lands, Reverts] ==>
          && newIndex == index + 1
          && newParent == h.batch(BatchHeader(index, parent, c.epochNum, c.epochHash, c.timestamp, c.stateRoot, root,
                                              c.transactionsRoot))
          && after.stateRoots == (if a.commit in [Lands, LandsUnseen] && index == |l1.stateRoots|
                                  then l1.stateRoots + [c.stateRoot] else l1.stateRoots)
          && (a.commit !in [Lands, Reverts] ==> after.finalized == l1.finalized)
          && forall j :: |l1.finalized| <= j < |after.finalized| ==> after.finalized[j].1 == index)
  }

  lemma SubmitGoesOn(h: Hashing, l1: L1, index: nat, parent: Digest, c: Context, root: Digest,
                     ws: seq<WithdrawalRequest>, a: Answers)
    ensures var (after, newIndex, newParent) :=
        AfterSubmit(h, l1, HeaderOf(index, parent, c, root), ws, a, index, parent);
      GoesOn(h, l1, after, index, newIndex, parent, newParent, c, root, a)
  {
    var header := HeaderOf(index, parent, c, root);
    var sent := SubmitBatch(h, l1, header);
    var included := if ArrivesNow(a.submission) && sent.Some? then sent.value else l1;
    FinalizeTriesAll(h, Committed(included, header, a.commit), ws, index, a.payment);
  }

  /** The same three values at the end of the protocol's stretch. */
  lemma SubmitRun(h: Hashing, s: State, c: Context, root: Digest, a: Answers)
    requires s.phase == Idle
    ensures var t := RunFrom(h, s, SubmitEvents(|s.pending|, true, c, root, a));
      && t.phase == Idle && t.pending == []
      && (t.l1, t.index, t.parent)
         == AfterSubmit(h, s.l1, HeaderOf(s.index, s.parent, c, root), Withdrawals(s.pending), a, s.index, s.parent)
  {
    var n := |s.pending|;
    var collected := s.(phase := Ready(s.pending), pending := []);
    var submit := Submit(c.epochNum, c.epochHash, c.timestamp, c.stateRoot, root, c.transactionsRoot, a.submission);
    var tail := [WriteIndex, WriteParent, Commit(a.commit)] + FinalizeEvents(a.payment, 0, n);
    CollectRun(h, s);
    RunFromConcat(h, s, [Begin] + Repeat(Dequeue, n + 1), [submit] + tail);
    AfterCollecting(h, collected, c, root, a);
    var o := OnSubmit(h, collected, s.pending, HeaderOf(s.index, s.parent, c, root), a.submission);
    if o.phase.Reported? { ReportedRun(h, o, a); } else { NotReportedRun(h, o, a, n); }
  }

  lemma NoClientRun(h: Hashing, s: State, c: Context, root: Digest, a: Answers)
    requires s.phase == Idle
    ensures var t := RunFrom(h, s, SubmitEvents(|s.pending|, false, c, root, a));
      && t.phase == Idle && t.pending == [] && t.l1 == s.l1 && t.index == s.index && t.parent == s.parent
  {
    CollectRun(h, s);
    RunFromConcat(h, s, [Begin] + Repeat(Dequeue, |s.pending| + 1), [NoClient]);
    assert [NoClient][1..] == [];
  }

  class L2Sequencer {
    const messageQueue: MessageQueue
    const hashing: Hashing
    var batchIndex: nat
    var parentBatchHash: Digest

    constructor (messageQueue: MessageQueue, hashing: Hashing)
      ensures this.messageQueue == messageQueue && this.hashing == hashing
      ensures batchIndex == 0 && parentBatchHash == ZERO
    {
      this.messageQueue, this.hashing := messageQueue, hashing;
      batchIndex, parentBatchHash := 0, ZERO;
    }

    /** The protocol state of an idle sequencer. */
    function Protocol(l1: L1): State
      reads this, messageQueue
    {
      INITIAL.(l1 := l1, index := batchIndex, parent := parentBatchHash, pending := messageQueue.pendingWithdrawals)
    }

    /** The sync of `start`; either read may fail. */
    method Start(l1: L1, indexRead: bool, hashRead: bool)
      modifies this
      ensures old(batchIndex) == 0 && old(parentBatchHash) == ZERO ==>
                (batchIndex, parentBatchHash) == SyncOnStart(l1, indexRead, hashRead)
      ensures indexRead ==> batchIndex == |l1.batchHashes|
      ensures indexRead && hashRead && batchIndex > 0 ==> parentBatchHash == l1.batchHashes[batchIndex - 1]
      ensures !indexRead ==> batchIndex == old(batchIndex)
      ensures !(indexRead && hashRead) ==> parentBatchHash == old(parentBatchHash)
    {
      if indexRead {
        batchIndex := LatestBatchIndex(l1);
        if batchIndex > 0 && hashRead {
          parentBatchHash := ParentHash(l1);
        }
      }
    }

    method FinalizeWithdrawals(l1: L1, withdrawals: seq<WithdrawalRequest>, index: nat, payment: nat -> (Answer, bool))
      returns (after: L1)
      ensures after == FinalizeAll(hashing, l1, withdrawals, index, payment)
      ensures OnlyPays(hashing, l1, after, withdrawals, index, payment)
      ensures PaysAll(hashing, l1, after, withdrawals, index, payment)
    {
      FinalizeTriesAll(hashing, l1, withdrawals, index, payment);
      after := l1;
      for k := 0 to |withdrawals|
        invariant after == FinalizeAll(hashing, l1, withdrawals[..k], index, payment)
      {
        assert withdrawals[..k + 1][..k] == withdrawals[..k];
        after := TryFinalize(hashing, after, withdrawals[k], index, payment(k));
      }
      assert withdrawals[..|withdrawals|] == withdrawals;
    }

    /** One execution of `submit_batch` ends where the protocol's steps end. */
    method SubmitBatch(l1: L1, client: bool, c: Context, a: Answers) returns (after: L1)
      requires messageQueue.Valid()
      modifies this, messageQueue`pendingWithdrawals, messageQueue`takenWithdrawals
      ensures messageQueue.Valid() && messageQueue.pendingWithdrawals == []
      ensures var root := RootOf(messageQueue.keccak, Withdrawals(old(messageQueue.pendingWithdrawals)));
        var t := RunFrom(hashing, old(Protocol(l1)),
                         SubmitEvents(|old(messageQueue.pendingWithdrawals)|, client, c, root, a));
        t.phase == Idle && t.pending == [] && after == t.l1 && batchIndex == t.index && parentBatchHash == t.parent
      ensures var root := RootOf(messageQueue.keccak, Withdrawals(old(messageQueue.pendingWithdrawals)));
        HeaderAdded(l1, after, old(batchIndex), old(parentBatchHash), c, root)
      ensures !client ==> after == l1 && batchIndex == old(batchIndex) && parentBatchHash == old(parentBatchHash)
      ensures client ==>
        var root := RootOf(messageQueue.keccak, Withdrawals(old(messageQueue.pendingWithdrawals)));
        GoesOn(hashing, l1, after, old(batchIndex), batchIndex, old(parentBatchHash), parentBatchHash, c, root, a)
    {
      ghost var before := Protocol(l1);
      var withdrawals := DrainWithdrawals(messageQueue);
      var root := ComputeWithdrawalsRoot(messageQueue.keccak, withdrawals);
      after := l1;
      if !client {
        NoClientRun(hashing, before, c, root, a);
        return;
      }
      SubmitRun(hashing, before, c, root, a);
      SubmitAddsHeader(hashing, l1, batchIndex, parentBatchHash, c, root, withdrawals, a);
      SubmitGoesOn(hashing, l1, batchIndex, parentBatchHash, c, root, withdrawals, a);
      var header := HeaderOf(batchIndex, parentBatchHash, c, root);
      if ArrivesNow(a.submission) {
        var sent := L1Contracts.SubmitBatch(hashing, after, header);
        if sent.Some? { after := sent.value; }
      }
      if !ReportsOk(a.submission) {
        return;
      }
      // The receipt's status is not looked at.
      batchIndex := header.batchIndex + 1;
      parentBatchHash := hashing.batch(header);
      after := Committed(after, header, a.commit);
      if ReportsOk(a.commit) {
        after := FinalizeWithdrawals(after, withdrawals, header.batchIndex, a.payment);
      }
    }
  }
}
