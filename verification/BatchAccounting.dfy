/** Where the withdrawals go, over every run of the submitter. */
module BatchAccounting {
  import opened BatchSubmission
  import opened L1Contracts
  import opened Messages
  import opened Sequences

  function MessagesOf(attempts: seq<Attempt>): seq<L2Message> {
    if attempts == [] then [] else MessagesOf(attempts[..|attempts| - 1]) + attempts[|attempts| - 1].messages
  }

  /** The withdrawals of the attempts with one fate. */
  function Kept(attempts: seq<Attempt>, fate: Fate): seq<L2Message> {
    if attempts == [] then []
    else
      var last := attempts[|attempts| - 1];
      Kept(attempts[..|attempts| - 1], fate) + if last.fate == fate then last.messages else []
  }

  /** Each batch in transit is one attempt in transit. */
  predicate TransitInv(attempts: seq<Attempt>, transit: seq<Tx>) {
    && (forall i :: 0 <= i < |transit| && transit[i].BatchTx? ==>
          transit[i].attempt < |attempts| && attempts[transit[i].attempt].fate == InTransit)
    && (forall i, j :: 0 <= i < j < |transit| && transit[i].BatchTx? && transit[j].BatchTx? ==>
          transit[i].attempt != transit[j].attempt)
  }

  predicate AccountInv(accepted: seq<L2Message>, attempts: seq<Attempt>, hand: seq<L2Message>, pending: seq<L2Message>,
                       batches: seq<seq<L2Message>>)
  {
    && accepted == MessagesOf(attempts) + hand + pending
    && multiset(Concat(batches)) == multiset(Kept(attempts, Batched))
  }

  predicate Accounted(s: State) {
    AccountInv(s.accepted, s.attempts, Hand(s.phase), s.pending, s.batches) && TransitInv(s.attempts, s.transit)
  }

  lemma Snoc(attempts: seq<Attempt>, x: Attempt, fate: Fate)
    ensures MessagesOf(attempts + [x]) == MessagesOf(attempts) + x.messages
    ensures Kept(attempts + [x], fate) == Kept(attempts, fate) + if x.fate == fate then x.messages else []
  {
    assert (attempts + [x])[..|attempts|] == attempts;
  }

  function Settle(attempts: seq<Attempt>, a: nat, fate: Fate): seq<Attempt>
    requires a < |attempts|
  {
    attempts[a := Attempt(attempts[a].messages, fate)]
  }

  lemma {:induction false} SettleKeepsMessages(attempts: seq<Attempt>, a: nat, fate: Fate)
    requires a < |attempts|
    ensures MessagesOf(Settle(attempts, a, fate)) == MessagesOf(attempts)
  {
    var n := |attempts| - 1;
    var t := Settle(attempts, a, fate);
    if a < n {
      SettleKeepsMessages(attempts[..n], a, fate);
      assert t[..n] == Settle(attempts[..n], a, fate);
    } else {
      assert t[..n] == attempts[..n];
    }
  }

  predicate NoneBatchedAfter(attempts: seq<Attempt>, a: nat) {
    forall q :: a < q < |attempts| ==> attempts[q].fate != Batched
  }

  lemma {:induction false} SettleInOrder(attempts: seq<Attempt>, a: nat)
    requires a < |attempts| && attempts[a].fate == InTransit && NoneBatchedAfter(attempts, a)
    ensures Kept(Settle(attempts, a, Batched), Batched) == Kept(attempts, Batched) + attempts[a].messages
  {
    var n := |attempts| - 1;
    var t := Settle(attempts, a, Batched);
    if a < n {
      SettleInOrder(attempts[..n], a);
      assert t[..n] == Settle(attempts[..n], a, Batched);
    } else {
      assert t[..n] == attempts[..n];
    }
  }

  lemma CountThrough<T>(a: seq<T>, b: seq<T>, m: seq<T>, l: seq<T>)
    requires multiset(a) == multiset(b) + multiset(m)
    ensures multiset(a + l) == multiset(b + l) + multiset(m)
  {}

  lemma {:induction false} SettleAdds(attempts: seq<Attempt>, a: nat)
    requires a < |attempts| && attempts[a].fate == InTransit
    ensures multiset(Kept(Settle(attempts, a, Batched), Batched))
      == multiset(Kept(attempts, Batched)) + multiset(attempts[a].messages)
  {
    var n := |attempts| - 1;
    var t := Settle(attempts, a, Batched);
    if a < n {
      SettleAdds(attempts[..n], a);
      assert t[..n] == Settle(attempts[..n], a, Batched) && t[n] == attempts[n];
      CountThrough(Kept(t[..n], Batched), Kept(attempts[..n], Batched), attempts[a].messages,
                   if t[n].fate == Batched then t[n].messages else []);
    } else {
      SettleInOrder(attempts, a);
    }
  }

  lemma {:induction false} SettleOther(attempts: seq<Attempt>, a: nat)
    requires a < |attempts| && attempts[a].fate == InTransit
    ensures Kept(Settle(attempts, a, Lost), Batched) == Kept(attempts, Batched)
  {
    var n := |attempts| - 1;
    var t := Settle(attempts, a, Lost);
    if a < n {
      SettleOther(attempts[..n], a);
      assert t[..n] == Settle(attempts[..n], a, Lost);
    } else {
      assert t[..n] == attempts[..n];
    }
  }

  // Accounting, step by step.

  lemma AddAttempt(accepted: seq<L2Message>, attempts: seq<Attempt>, hand: seq<L2Message>, left: seq<L2Message>,
                   batches: seq<seq<L2Message>>, fate: Fate)
    requires AccountInv(accepted, attempts, hand, left, batches)
    ensures AccountInv(accepted, attempts + [Attempt(hand, fate)], [], left,
                       if fate == Batched then batches + [hand] else batches)
  {
    Snoc(attempts, Attempt(hand, fate), Batched);
    ConcatSnoc(batches, hand);
    assert MessagesOf(attempts) + hand + left == MessagesOf(attempts + [Attempt(hand, fate)]) + [] + left;
  }

  lemma TransitExtends(attempts: seq<Attempt>, more: seq<Attempt>, transit: seq<Tx>, txs: seq<Tx>)
    requires TransitInv(attempts, transit) && attempts <= more && transit <= txs
    requires forall i :: |transit| <= i < |txs| ==> !txs[i].BatchTx?
    ensures TransitInv(more, txs)
  {}

  lemma TransitOnSend(attempts: seq<Attempt>, transit: seq<Tx>, hand: seq<L2Message>, header: BatchHeader)
    requires TransitInv(attempts, transit)
    ensures TransitInv(attempts + [Attempt(hand, InTransit)], transit + [BatchTx(header, |attempts|)])
  {}

  lemma AccountOnSubmit(h: Hashing, s: State, e: Event)
    requires ChainInv(h, s) && Accounted(s) && e.Submit? && s.phase.Ready?
    ensures Accounted(Step(h, s, e))
  {
    var t, header := Step(h, s, e), HeaderOn(s, e);
    var fate := FateOf(s.l1, header, e.answer);
    SubmitEffect(h, s, s.phase.hand, header, e.answer);
    assert t.attempts == s.attempts + [Attempt(s.phase.hand, fate)] && Hand(t.phase) == [];
    assert t.batches == if fate == Batched then s.batches + [s.phase.hand] else s.batches;
    AddAttempt(s.accepted, s.attempts, s.phase.hand, s.pending, s.batches, fate);
    if e.answer == LandsLater {
      TransitOnSend(s.attempts, s.transit, s.phase.hand, header);
    } else {
      TransitExtends(s.attempts, t.attempts, s.transit, t.transit);
    }
  }

  lemma TransitOnSettle(attempts: seq<Attempt>, transit: seq<Tx>, i: nat, fate: Fate)
    requires TransitInv(attempts, transit) && i < |transit| && transit[i].BatchTx?
    ensures TransitInv(Settle(attempts, transit[i].attempt, fate), Without(transit, i))
  {
    forall j | 0 <= j < |Without(transit, i)| && Without(transit, i)[j].BatchTx?
      ensures Without(transit, i)[j].attempt != transit[i].attempt
    {}
  }

  lemma AccountOnInclude(h: Hashing, s: State, i: nat, paid: bool)
    requires ChainInv(h, s) && Accounted(s) && i < |s.transit|
    ensures Accounted(OnInclude(h, s, i, paid))
  {
    IncludeEffect(h, s, i, paid);
    var x := s.transit[i];
    if x.BatchTx? {
      var fate := FateOnArrival(s.l1, x.header);
      TransitOnSettle(s.attempts, s.transit, i, fate);
      SettleKeepsMessages(s.attempts, x.attempt, fate);
      if fate == Batched { SettleAdds(s.attempts, x.attempt); } else { SettleOther(s.attempts, x.attempt); }
      ConcatSnoc(s.batches, s.attempts[x.attempt].messages);
    }
  }

  lemma AccountOnCrash(s: State)
    requires Accounted(s)
    ensures AccountInv(s.accepted, s.attempts + [Attempt(Hand(s.phase) + s.pending, Lost)], [], [], s.batches)
  {
    assert MessagesOf(s.attempts) + (Hand(s.phase) + s.pending) + [] == s.accepted;
    AddAttempt(s.accepted, s.attempts, Hand(s.phase) + s.pending, [], s.batches, Lost);
  }

  lemma AccountOnDequeue(s: State)
    requires Accounted(s) && s.phase.Draining? && s.pending != []
    ensures AccountInv(s.accepted, s.attempts, s.phase.hand + [s.pending[0]], s.pending[1..], s.batches)
  {
    assert s.phase.hand + s.pending == s.phase.hand + [s.pending[0]] + s.pending[1..];
  }

  /** Only a missing client and a crash add an attempt without a submission. */
  lemma AttemptsElsewhere(h: Hashing, s: State, e: Event)
    requires !e.Submit? && !e.Include?
    ensures var t := Step(h, s, e);
      && (t.attempts == s.attempts || exists ms :: t.attempts == s.attempts + [Attempt(ms, Lost)])
      && s.transit <= t.transit && (forall i :: |s.transit| <= i < |t.transit| ==> !t.transit[i].BatchTx?)
  {
    if e.NoClient? && s.phase.Ready? { assert Step(h, s, e).attempts == s.attempts + [Attempt(s.phase.hand, Lost)]; }
    if e.Crash? { assert Step(h, s, e).attempts == s.attempts + [Attempt(Hand(s.phase) + s.pending, Lost)]; }
  }

  lemma AccountUntouched(h: Hashing, s: State, e: Event)
    requires e.Begin? || e.WriteIndex? || e.WriteParent? || e.Commit? || e.Finalize? || e.Restart?
    ensures var t := Step(h, s, e);
      && t.accepted == s.accepted && t.attempts == s.attempts && t.pending == s.pending && t.batches == s.batches
      && Hand(t.phase) == Hand(s.phase)
  {}

  lemma AccountPreserved(h: Hashing, s: State, e: Event)
    requires ChainInv(h, s) && Accounted(s)
    ensures Accounted(Step(h, s, e))
  {
    if e.Submit? {
      if s.phase.Ready? { AccountOnSubmit(h, s, e); }
    } else if e.Include? {
      if e.i < |s.transit| { AccountOnInclude(h, s, e.i, e.paid); }
    } else {
      OtherEffect(h, s, e);
      AccountElsewhere(h, s, e);
    }
  }

  lemma AccountElsewhere(h: Hashing, s: State, e: Event)
    requires Accounted(s) && !e.Submit? && !e.Include?
    ensures Accounted(Step(h, s, e))
  {
    var t := Step(h, s, e);
    AttemptsElsewhere(h, s, e);
    TransitExtends(s.attempts, t.attempts, s.transit, t.transit);
    match e
    case Accept(m) =>
      assert MessagesOf(s.attempts) + Hand(s.phase) + (s.pending + [m])
        == MessagesOf(s.attempts) + Hand(s.phase) + s.pending + [m];
    case Dequeue => if s.phase.Draining? && s.pending != [] { AccountOnDequeue(s); }
    case NoClient =>
      if s.phase.Ready? { AddAttempt(s.accepted, s.attempts, s.phase.hand, s.pending, s.batches, Lost); }
    case Crash => AccountOnCrash(s);
    case _ => AccountUntouched(h, s, e);
  }

  lemma {:induction false} RunAccounts(h: Hashing, events: seq<Event>)
    ensures Accounted(Run(h, events))
  {
    if events != [] {
      RunAccounts(h, events[..|events| - 1]);
      RunKeepsChain(h, events[..|events| - 1]);
      AccountPreserved(h, Run(h, events[..|events| - 1]), events[|events| - 1]);
    }
  }

  // The order of the batches.

  /** A batch that could still land was drained after every batch that has landed. */
  predicate OrderInv(count: nat, index: nat, attempts: seq<Attempt>, transit: seq<Tx>, batches: seq<seq<L2Message>>) {
    && Concat(batches) == Kept(attempts, Batched) && index <= count
    && forall i :: 0 <= i < |transit| && transit[i].BatchTx? ==>
         && transit[i].header.batchIndex <= count
         && (transit[i].header.batchIndex == count ==> NoneBatchedAfter(attempts, transit[i].attempt))
  }

  predicate Ordered(s: State) {
    OrderInv(|s.l1.headers|, s.index, s.attempts, s.transit, s.batches)
  }

  lemma OrderOnSend(count: nat, index: nat, attempts: seq<Attempt>, transit: seq<Tx>, batches: seq<seq<L2Message>>,
                    hand: seq<L2Message>, header: BatchHeader, fate: Fate)
    requires OrderInv(count, index, attempts, transit, batches) && TransitInv(attempts, transit)
      && header.batchIndex == index
    ensures var more := attempts + [Attempt(hand, fate)];
      && (fate == Batched ==> OrderInv(count + 1, index, more, transit, batches + [hand]))
      && (fate == InTransit ==> OrderInv(count, index, more, transit + [BatchTx(header, |attempts|)], batches))
      && (fate == Lost ==> OrderInv(count, index, more, transit, batches))
  {
    Snoc(attempts, Attempt(hand, fate), Batched);
    ConcatSnoc(batches, hand);
  }

  lemma OrderOnSubmit(h: Hashing, s: State, e: Event)
    requires ChainInv(h, s) && Accounted(s) && Ordered(s) && e.Submit? && s.phase.Ready?
    ensures Ordered(Step(h, s, e))
  {
    var t, header := Step(h, s, e), HeaderOn(s, e);
    SubmitEffect(h, s, s.phase.hand, header, e.answer);
    OrderOnSend(|s.l1.headers|, s.index, s.attempts, s.transit, s.batches, s.phase.hand, header,
                FateOf(s.l1, header, e.answer));
  }

  lemma OrderOnInclude(h: Hashing, s: State, i: nat, paid: bool)
    requires ChainInv(h, s) && Accounted(s) && Ordered(s) && i < |s.transit|
    ensures Ordered(OnInclude(h, s, i, paid))
  {
    var t, x := OnInclude(h, s, i, paid), s.transit[i];
    IncludeEffect(h, s, i, paid);
    if x.BatchTx? {
      if Takes(s.l1, x.header) {
        SettleInOrder(s.attempts, x.attempt);
        ConcatSnoc(s.batches, s.attempts[x.attempt].messages);
      } else {
        SettleOther(s.attempts, x.attempt);
      }
    }
  }

  lemma IndexElsewhere(h: Hashing, s: State, e: Event)
    requires ChainInv(h, s) && Sound(s) && s.index <= |s.l1.headers| && !e.Submit? && !e.Include?
    ensures Step(h, s, e).index <= |s.l1.headers|
  {}

  lemma OrderExtends(count: nat, index: nat, later: nat, attempts: seq<Attempt>, transit: seq<Tx>, txs: seq<Tx>,
                     batches: seq<seq<L2Message>>)
    requires OrderInv(count, index, attempts, transit, batches) && later <= count && transit <= txs
    requires forall i :: |transit| <= i < |txs| ==> !txs[i].BatchTx?
    ensures OrderInv(count, later, attempts, txs, batches)
  {}

  lemma OrderOnLoss(count: nat, index: nat, attempts: seq<Attempt>, ms: seq<L2Message>, transit: seq<Tx>,
                    batches: seq<seq<L2Message>>)
    requires OrderInv(count, index, attempts, transit, batches)
    ensures OrderInv(count, index, attempts + [Attempt(ms, Lost)], transit, batches)
  {
    Snoc(attempts, Attempt(ms, Lost), Batched);
  }

  lemma OrderElsewhere(h: Hashing, s: State, e: Event)
    requires ChainInv(h, s) && Accounted(s) && Ordered(s) && Sound(s) && !e.Submit? && !e.Include?
    ensures Ordered(Step(h, s, e))
  {
    var t := Step(h, s, e);
    OtherEffect(h, s, e);
    AttemptsElsewhere(h, s, e);
    IndexElsewhere(h, s, e);
    OrderExtends(|s.l1.headers|, s.index, t.index, s.attempts, s.transit, t.transit, s.batches);
    if t.attempts != s.attempts {
      var ms :| t.attempts == s.attempts + [Attempt(ms, Lost)];
      OrderOnLoss(|s.l1.headers|, t.index, s.attempts, ms, t.transit, s.batches);
    }
  }

  lemma OrderOnStep(h: Hashing, s: State, e: Event)
    requires ChainInv(h, s) && Accounted(s) && Ordered(s) && Sound(s)
    ensures Ordered(Step(h, s, e))
  {
    if e.Submit? {
      if s.phase.Ready? { OrderOnSubmit(h, s, e); }
    } else if e.Include? {
      if e.i < |s.transit| { OrderOnInclude(h, s, e.i, e.paid); }
    } else {
      OrderElsewhere(h, s, e);
    }
  }

  lemma {:induction false} RunKeepsOrder(h: Hashing, events: seq<Event>)
    requires Run(h, events).reverted == 0
    ensures Ordered(Run(h, events))
  {
    if events != [] {
      var front, e := events[..|events| - 1], events[|events| - 1];
      var s := Run(h, front);
      RunKeepsChain(h, front);
      assert s.reverted == 0 by { ChainPreserved(h, s, e); }
      RunKeepsOrder(h, front);
      RunKeepsSound(h, front);
      RunAccounts(h, front);
      OrderOnStep(h, s, e);
    }
  }

  /** In every run the accepted withdrawals are, in order, those that left the queue, those in hand
      and those waiting; the batches carry exactly the withdrawals of the attempts that landed, each
      as often as it was accepted; and as long as every submission reported as a success has landed
      they carry them in the order of acceptance, late inclusions among them. */
  lemma {:induction false} WithdrawalsAccounted(h: Hashing, events: seq<Event>)
    ensures var s := Run(h, events);
      && s.accepted == MessagesOf(s.attempts) + Hand(s.phase) + s.pending
      && multiset(Concat(s.batches)) == multiset(Kept(s.attempts, Batched))
      && (s.reverted == 0 ==> Concat(s.batches) == Kept(s.attempts, Batched))
  {
    RunAccounts(h, events);
    if Run(h, events).reverted == 0 { RunKeepsOrder(h, events); }
  }

  predicate AllBatched(attempts: seq<Attempt>) {
    forall k :: 0 <= k < |attempts| && attempts[k].fate != Batched ==> attempts[k].messages == []
  }

  lemma {:induction false} AllBatchedIff(attempts: seq<Attempt>)
    ensures AllBatched(attempts) ==> Kept(attempts, Batched) == MessagesOf(attempts)
    ensures |Kept(attempts, Batched)| <= |MessagesOf(attempts)|
    ensures !AllBatched(attempts) ==> |Kept(attempts, Batched)| < |MessagesOf(attempts)|
  {
    if attempts != [] {
      var n := |attempts| - 1;
      AllBatchedIff(attempts[..n]);
      if AllBatched(attempts[..n]) && (attempts[n].fate == Batched || attempts[n].messages == []) {
        assert AllBatched(attempts);
      }
    }
  }

  /** Batches, hand and queue hold all accepted withdrawals exactly when no attempt with a
      withdrawal failed, found no client, crashed, reverted or is still in transit; and in the order
      of acceptance as long as every submission reported as a success has landed. */
  lemma {:induction false} NothingLostIff(h: Hashing, events: seq<Event>)
    ensures var s := Run(h, events);
      multiset(s.accepted) == multiset(Concat(s.batches)) + multiset(Hand(s.phase)) + multiset(s.pending)
      <==> AllBatched(s.attempts)
    ensures var s := Run(h, events);
      s.reverted == 0 ==> (s.accepted == Concat(s.batches) + Hand(s.phase) + s.pending <==> AllBatched(s.attempts))
  {
    var s := Run(h, events);
    RunAccounts(h, events);
    AllBatchedIff(s.attempts);
    WithdrawalsAccounted(h, events);
    var all, kept := MessagesOf(s.attempts), Kept(s.attempts, Batched);
    assert multiset(s.accepted) == multiset(all) + multiset(Hand(s.phase)) + multiset(s.pending);
    if multiset(s.accepted) == multiset(Concat(s.batches)) + multiset(Hand(s.phase)) + multiset(s.pending) {
      assert |multiset(s.accepted)| == |kept| + |Hand(s.phase)| + |s.pending|;
    }
  }
}
