/** What failures, unread reverts, crashes and restarts do to the batches still to come. */
module BatchRecovery {
  import opened BatchAccounting
  import opened BatchSubmission
  import opened L1Contracts
  import opened Messages
  import opened Sequences

  // When every answer is true.

  /** An error means that nothing lands, an Ok is no revert, and every restart reads index and hash. */
  predicate Truthful(events: seq<Event>) {
    forall i :: 0 <= i < |events| ==>
      && (events[i].Submit? ==> events[i].answer == Fails || events[i].answer == Lands)
      && (events[i].Restart? ==> events[i].indexRead && events[i].hashRead)
  }

  predicate LocalAgrees(s: State) {
    s.index == LatestBatchIndex(s.l1) && s.parent == ParentHash(s.l1)
  }

  predicate InStep(h: Hashing, s: State) {
    && s.rejected == 0 && s.reverted == 0
    && (forall i :: 0 <= i < |s.transit| ==> !s.transit[i].BatchTx?)
    && (s.phase.Reported? || s.phase.IndexWritten? ==>
          && s.phase.batch.batchIndex + 1 == LatestBatchIndex(s.l1) && h.batch(s.phase.batch) == ParentHash(s.l1)
          && (s.phase.IndexWritten? ==> s.index == LatestBatchIndex(s.l1)))
    && (!s.phase.Stopped? && !s.phase.Reported? && !s.phase.IndexWritten? ==> LocalAgrees(s))
  }

  lemma InStepOnSubmit(h: Hashing, s: State, e: Event)
    requires ChainInv(h, s) && InStep(h, s) && e.Submit? && s.phase.Ready? && (e.answer == Fails || e.answer == Lands)
    ensures InStep(h, Step(h, s, e))
  {
    assert Takes(s.l1, HeaderOn(s, e));
  }

  lemma InStepElsewhere(h: Hashing, s: State, e: Event)
    requires ChainInv(h, s) && InStep(h, s) && !e.Submit? && !e.Include? && (e.Restart? ==> e.indexRead && e.hashRead)
    ensures InStep(h, Step(h, s, e))
  {
    OtherEffect(h, s, e);
  }

  lemma InStepOnInclude(h: Hashing, s: State, i: nat, paid: bool)
    requires ChainInv(h, s) && InStep(h, s) && i < |s.transit|
    ensures InStep(h, OnInclude(h, s, i, paid))
  {
    IncludeEffect(h, s, i, paid);
  }

  /** When an error of a submission means that nothing lands, an Ok means it was not reverted, and
      restarts read both values, the submitter's index and parent are L1's whenever it may submit,
      through failures and crashes at any point, and the inbox never refuses a batch. Commitments
      and payments may turn out any way. */
  lemma {:induction false} NeverRejected(h: Hashing, events: seq<Event>)
    requires Truthful(events)
    ensures var s := Run(h, events);
      InStep(h, s) && s.rejected == 0 && s.reverted == 0 && (s.phase.Ready? ==> LocalAgrees(s))
  {
    if events != [] {
      var front, e := events[..|events| - 1], events[|events| - 1];
      var s := Run(h, front);
      NeverRejected(h, front);
      RunKeepsChain(h, front);
      if e.Submit? {
        if s.phase.Ready? { InStepOnSubmit(h, s, e); }
      } else if e.Include? {
        if e.i < |s.transit| { InStepOnInclude(h, s, e.i, e.paid); }
      } else {
        InStepElsewhere(h, s, e);
      }
    }
  }

  // When the submitter's view and L1 have come apart.

  predicate NoRestart(events: seq<Event>) {
    forall i :: 0 <= i < |events| ==> !events[i].Restart?
  }

  predicate Disagrees(s: State) {
    !s.phase.Reported? && !s.phase.IndexWritten? && !Accepts(s.l1, s.index, s.parent)
  }

  predicate NoneTaken(l1: L1, transit: seq<Tx>) {
    forall i :: 0 <= i < |transit| && transit[i].BatchTx? ==> !Takes(l1, transit[i].header)
  }

  predicate NoneAcceptable(s: State) {
    NoneTaken(s.l1, s.transit)
  }

  lemma NoneTakenWithout(l1: L1, later: L1, transit: seq<Tx>, i: nat)
    requires NoneTaken(l1, transit) && i < |transit| && later.headers == l1.headers
      && later.batchHashes == l1.batchHashes
    ensures NoneTaken(later, Without(transit, i))
  {
    var rest := Without(transit, i);
    forall k | 0 <= k < |rest| && rest[k].BatchTx? ensures !Takes(later, rest[k].header) {
      assert rest[k] == transit[if k < i then k else k + 1];
    }
  }

  /** Including a transaction when no batch in transit is acceptable lands nothing. */
  lemma IncludeLandsNothing(h: Hashing, s: State, i: nat, paid: bool)
    requires ChainInv(h, s) && NoneAcceptable(s) && i < |s.transit|
    ensures var t := OnInclude(h, s, i, paid);
      NoneAcceptable(t) && SameBatches(s, t) && t.phase == s.phase && t.index == s.index && t.parent == s.parent
  {
    IncludeEffect(h, s, i, paid);
    var t := OnInclude(h, s, i, paid);
    assert t.l1.headers == s.l1.headers && t.l1.batchHashes == s.l1.batchHashes by { SameHashes(h, s, t); }
    NoneTakenWithout(s.l1, t.l1, s.transit, i);
  }

  lemma SameHashes(h: Hashing, s: State, t: State)
    requires ChainInv(h, s) && ChainInv(h, t) && t.l1.headers == s.l1.headers
    ensures t.l1.batchHashes == s.l1.batchHashes
  {}

  predicate SameBatches(s: State, t: State) {
    t.l1.headers == s.l1.headers && t.l1.batchHashes == s.l1.batchHashes && t.batches == s.batches
  }

  /** `t` is where a disagreeing `s` has got to. */
  predicate Frozen(s: State, t: State) {
    && SameBatches(s, t) && NoneAcceptable(t) && !t.phase.Reported? && !t.phase.IndexWritten?
    && (t.phase.Stopped? || (t.index == s.index && t.parent == s.parent))
  }

  lemma AcceptsSame(s: State, t: State, index: nat, parent: Digest)
    requires SameBatches(s, t)
    ensures Accepts(s.l1, index, parent) == Accepts(t.l1, index, parent)
  {}

  lemma FrozenOnSubmit(h: Hashing, s: State, t: State, e: Event)
    requires ChainInv(h, t) && Disagrees(s) && Frozen(s, t) && e.Submit? && t.phase.Ready?
      && Step(h, t, e).reverted == t.reverted
    ensures Frozen(s, Step(h, t, e))
  {
    AcceptsSame(s, t, t.index, t.parent);
    assert !Takes(t.l1, HeaderOn(t, e));
  }

  lemma FrozenOnInclude(h: Hashing, s: State, t: State, i: nat, paid: bool)
    requires ChainInv(h, t) && Frozen(s, t) && i < |t.transit|
    ensures Frozen(s, OnInclude(h, t, i, paid))
  {
    IncludeLandsNothing(h, t, i, paid);
  }

  lemma FrozenElsewhere(h: Hashing, s: State, t: State, e: Event)
    requires Frozen(s, t) && !e.Submit? && !e.Include? && !e.Restart?
    ensures Frozen(s, Step(h, t, e))
  {
    OtherEffect(h, t, e);
    AttemptsElsewhere(h, t, e);
  }

  lemma FrozenOnStep(h: Hashing, s: State, t: State, e: Event)
    requires ChainInv(h, t) && Disagrees(s) && Frozen(s, t) && !e.Restart? && Step(h, t, e).reverted == t.reverted
    ensures Frozen(s, Step(h, t, e))
  {
    if e.Submit? {
      if t.phase.Ready? { FrozenOnSubmit(h, s, t, e); }
    } else if e.Include? {
      if e.i < |t.transit| { FrozenOnInclude(h, s, t, e.i, e.paid); }
    } else {
      FrozenElsewhere(h, s, t, e);
    }
  }

  lemma {:induction false} StaysFrozen(h: Hashing, events: seq<Event>, more: seq<Event>)
    requires Disagrees(Run(h, events)) && NoneAcceptable(Run(h, events))
    requires NoRestart(more) && Run(h, events + more).reverted == Run(h, events).reverted
    ensures Frozen(Run(h, events), Run(h, events + more))
  {
    if more == [] {
      assert events + more == events;
    } else {
      var front, e := more[..|more| - 1], more[|more| - 1];
      assert (events + more)[..|events + more| - 1] == events + front;
      var s, t := Run(h, events), Run(h, events + front);
      var u := Step(h, t, e);
      assert u == Run(h, events + more) && NoRestart(front) && !e.Restart?;
      RunKeepsChain(h, events + front);
      assert t.reverted <= u.reverted by { ChainPreserved(h, t, e); }
      assert s.reverted <= t.reverted by { RevertedRises(h, events, front); }
      StaysFrozen(h, events, front);
      FrozenOnStep(h, s, t, e);
    }
  }

  lemma {:induction false} RevertedRises(h: Hashing, events: seq<Event>, more: seq<Event>)
    ensures Run(h, events).reverted <= Run(h, events + more).reverted
  {
    if more == [] {
      assert events + more == events;
    } else {
      var front := more[..|more| - 1];
      assert (events + more)[..|events + more| - 1] == events + front;
      RevertedRises(h, events, front);
      RunKeepsChain(h, events + front);
      ChainPreserved(h, Run(h, events + front), more[|more| - 1]);
    }
  }

  ghost predicate LandsNothing(h: Hashing, events: seq<Event>) {
    forall more :: NoRestart(more) && Run(h, events + more).reverted == Run(h, events).reverted ==>
      Run(h, events + more).batches == Run(h, events).batches
  }

  lemma RunSnoc(h: Hashing, events: seq<Event>, e: Event)
    ensures Run(h, events + [e]) == Step(h, Run(h, events), e)
  {
    assert (events + [e])[..|events|] == events;
  }

  lemma AcceptableOnInclude(h: Hashing, s: State, i: nat)
    requires ChainInv(h, s) && i < |s.transit| && s.transit[i].BatchTx? && Takes(s.l1, s.transit[i].header)
    requires s.transit[i].attempt < |s.attempts|
    ensures var t := Step(h, s, Include(i, false));
      t.reverted == s.reverted && |t.batches| == |s.batches| + 1
  {
    IncludeEffect(h, s, i, false);
  }

  lemma AcceptableLands(h: Hashing, events: seq<Event>, i: nat)
    requires var s := Run(h, events); i < |s.transit| && s.transit[i].BatchTx? && Takes(s.l1, s.transit[i].header)
    ensures var s, t := Run(h, events), Run(h, events + [Include(i, false)]);
      t.reverted == s.reverted && |t.batches| == |s.batches| + 1
  {
    RunAccounts(h, events);
    RunKeepsChain(h, events);
    AcceptableOnInclude(h, Run(h, events), i);
    RunSnoc(h, events, Include(i, false));
  }

  /** Once index or parent differ from L1's (after a landing reported as an error, a start whose
      reads failed, a revert reported as a success), nothing lands before a restart, barring further
      unread reverts, exactly when no batch in transit would be accepted now. */
  lemma {:induction false} DisagreementFreezesIff(h: Hashing, events: seq<Event>)
    requires Disagrees(Run(h, events))
    ensures LandsNothing(h, events) <==> NoneAcceptable(Run(h, events))
  {
    var s := Run(h, events);
    if NoneAcceptable(s) {
      forall more | NoRestart(more) && Run(h, events + more).reverted == s.reverted
        ensures Run(h, events + more).batches == s.batches
      {
        StaysFrozen(h, events, more);
      }
    } else {
      var i :| 0 <= i < |s.transit| && s.transit[i].BatchTx? && Takes(s.l1, s.transit[i].header);
      AcceptableLands(h, events, i);
      assert NoRestart([Include(i, false)]);
    }
  }

  /** A landing reported as an error is such a disagreement: until a restart nothing more lands. */
  lemma {:induction false} UnseenFreezes(h: Hashing, events: seq<Event>, e: Event)
    requires Run(h, events).phase.Ready? && Run(h, events).reverted == 0 && e.Submit? && e.answer == LandsUnseen
    requires Takes(Run(h, events).l1, HeaderOn(Run(h, events), e))
    ensures Disagrees(Run(h, events + [e])) && LandsNothing(h, events + [e])
  {
    var s := Run(h, events);
    RunSnoc(h, events, e);
    RunKeepsChain(h, events);
    RunKeepsOrder(h, events);
    SubmitEffect(h, s, s.phase.hand, HeaderOn(s, e), e.answer);
    DisagreementFreezesIff(h, events + [e]);
  }

  // A revert reported as a success.

  /** The index the submitter will use next. */
  function NextIndex(s: State): nat {
    if s.phase.Reported? then s.phase.batch.batchIndex + 1 else s.index
  }

  predicate Ahead(s: State) {
    (s.phase.Stopped? || NextIndex(s) > |s.l1.headers|) && NoneAcceptable(s)
  }

  lemma AheadOnSubmit(h: Hashing, s: State, e: Event)
    requires ChainInv(h, s) && Ahead(s) && e.Submit? && s.phase.Ready?
    ensures Ahead(Step(h, s, e)) && SameBatches(s, Step(h, s, e))
  {
    assert !Takes(s.l1, HeaderOn(s, e));
  }

  lemma AheadOnInclude(h: Hashing, s: State, i: nat, paid: bool)
    requires ChainInv(h, s) && Ahead(s) && i < |s.transit|
    ensures Ahead(OnInclude(h, s, i, paid)) && SameBatches(s, OnInclude(h, s, i, paid))
  {
    IncludeLandsNothing(h, s, i, paid);
  }

  lemma NoneAcceptableElsewhere(h: Hashing, s: State, e: Event)
    requires NoneAcceptable(s) && !e.Submit? && !e.Include?
    ensures NoneAcceptable(Step(h, s, e)) && SameBatches(s, Step(h, s, e))
  {
    OtherEffect(h, s, e);
    AttemptsElsewhere(h, s, e);
  }

  lemma NextIndexElsewhere(h: Hashing, s: State, e: Event)
    requires !e.Submit? && !e.Include? && !e.Restart?
    ensures var t := Step(h, s, e); t.phase.Stopped? || (!s.phase.Stopped? && NextIndex(t) == NextIndex(s))
  {}

  lemma AheadOnStep(h: Hashing, s: State, e: Event)
    requires ChainInv(h, s) && Ahead(s) && !e.Restart?
    ensures Ahead(Step(h, s, e)) && SameBatches(s, Step(h, s, e))
  {
    if e.Submit? {
      if s.phase.Ready? { AheadOnSubmit(h, s, e); }
    } else if e.Include? {
      if e.i < |s.transit| { AheadOnInclude(h, s, e.i, e.paid); }
    } else {
      NoneAcceptableElsewhere(h, s, e);
      NextIndexElsewhere(h, s, e);
    }
  }

  /** An index ahead of L1's, with nothing acceptable in transit, lands nothing before a restart,
      however many reverts go unread. */
  lemma {:induction false} AheadFreezes(h: Hashing, events: seq<Event>, more: seq<Event>)
    requires Ahead(Run(h, events)) && NoRestart(more)
    ensures Ahead(Run(h, events + more)) && SameBatches(Run(h, events), Run(h, events + more))
  {
    if more == [] {
      assert events + more == events;
    } else {
      var front := more[..|more| - 1];
      assert (events + more)[..|events + more| - 1] == events + front;
      AheadFreezes(h, events, front);
      RunKeepsChain(h, events + front);
      AheadOnStep(h, Run(h, events + front), more[|more| - 1]);
    }
  }

  function ThreeWrites(commit: Answer): seq<Event> { [WriteIndex, WriteParent, Commit(commit)] }

  lemma RunThreeWrites(h: Hashing, events: seq<Event>, commit: Answer)
    ensures Run(h, events + ThreeWrites(commit))
         == Step(h, Step(h, Step(h, Run(h, events), WriteIndex), WriteParent), Commit(commit))
  {
    RunSnoc(h, events, WriteIndex);
    RunSnoc(h, events + [WriteIndex], WriteParent);
    RunSnoc(h, events + [WriteIndex] + [WriteParent], Commit(commit));
    assert events + ThreeWrites(commit) == events + [WriteIndex] + [WriteParent] + [Commit(commit)];
  }

  lemma CommitsWhatIsReported(h: Hashing, s: State)
    requires HasBatch(s.phase) && !s.phase.Finalizing?
    ensures var t := Step(h, Step(h, Step(h, s, WriteIndex), WriteParent), Commit(Lands));
      && t.l1 == ExecRoot(s.l1, s.phase.batch.batchIndex, s.phase.batch.stateRoot) && t.transit == s.transit
      && (s.phase.Reported? ==> t.index == s.phase.batch.batchIndex + 1 && t.parent == h.batch(s.phase.batch))
      && t.phase == Finalizing(s.phase.batch, s.phase.messages, 0) && t.reverted == s.reverted
  {}

  /** A submission reported as a success is followed by the commitment of its root. That leaves the
      committed roots those of the batches exactly when the batch landed, its index was not the next
      one to commit, or the batch that has the index has the same root. */
  lemma RootsMatchAfterOkIff(h: Hashing, events: seq<Event>, e: Event)
    requires Run(h, events).phase.Ready? && RootsMatch(Run(h, events).l1) && e.Submit? && ReportsOk(e.answer)
    ensures var s, t := Run(h, events), Run(h, events + [e] + ThreeWrites(Lands));
      var landed := e.answer == Lands && Takes(s.l1, HeaderOn(s, e));
      && t.index == s.index + 1
      && (RootsMatch(t.l1) <==>
            || landed || s.index != |s.l1.stateRoots|
            || (s.index < |s.l1.headers| && s.l1.headers[s.index].stateRoot == e.stateRoot))
  {
    var s := Run(h, events);
    RunSnoc(h, events, e);
    RunThreeWrites(h, events + [e], Lands);
    RunKeepsChain(h, events);
    SubmitEffect(h, s, s.phase.hand, HeaderOn(s, e), e.answer);
    CommitsWhatIsReported(h, Step(h, s, e));
    RootAppended(Step(h, s, e).l1, s.index, e.stateRoot);
  }

  lemma RootAppended(l1: L1, i: nat, root: Digest)
    requires RootsMatch(l1)
    ensures RootsMatch(ExecRoot(l1, i, root)) <==>
              i != |l1.stateRoots| || (i < |l1.headers| && l1.headers[i].stateRoot == root)
  {
    if i == |l1.stateRoots| {
      assert ExecRoot(l1, i, root).stateRoots[i] == root;
    }
  }

  lemma RevertOnSubmit(h: Hashing, s: State, e: Event)
    requires ChainInv(h, s) && s.phase.Ready? && e.Submit? && e.answer == Reverts
    requires Takes(s.l1, HeaderOn(s, e)) && NoneAcceptable(s)
    ensures var t := Step(h, Step(h, Step(h, Step(h, s, e), WriteIndex), WriteParent), Commit(Lands));
      && Ahead(t) && SameBatches(s, t) && t.reverted > 0
      && (|s.l1.stateRoots| == |s.l1.headers| ==> |t.l1.stateRoots| > |t.l1.headers|)
  {
    SubmitEffect(h, s, s.phase.hand, HeaderOn(s, e), e.answer);
    CommitsWhatIsReported(h, Step(h, s, e));
  }

  lemma UnreadRevert(h: Hashing, events: seq<Event>, e: Event)
    requires Run(h, events).phase.Ready? && e.Submit? && e.answer == Reverts
    requires Takes(Run(h, events).l1, HeaderOn(Run(h, events), e)) && NoneAcceptable(Run(h, events))
    ensures var s, t := Run(h, events), Run(h, events + [e] + ThreeWrites(Lands));
      && Ahead(t) && SameBatches(s, t) && t.reverted > 0
      && (|s.l1.stateRoots| == |s.l1.headers| ==> |t.l1.stateRoots| > |t.l1.headers|)
  {
    RunSnoc(h, events, e);
    RunThreeWrites(h, events + [e], Lands);
    RunKeepsChain(h, events);
    RevertOnSubmit(h, Run(h, events), e);
  }

  /** One revert of an acceptable batch reported as a success: the submitter's index moves
      past L1's, and nothing lands until a restart unless a batch still in transit does. If all roots
      were committed, a root is now committed for a batch that does not exist. */
  lemma UnreadRevertRunsAhead(h: Hashing, events: seq<Event>, e: Event, more: seq<Event>)
    requires Run(h, events).phase.Ready? && e.Submit? && e.answer == Reverts
    requires Takes(Run(h, events).l1, HeaderOn(Run(h, events), e)) && NoneAcceptable(Run(h, events)) && NoRestart(more)
    ensures var s, t := Run(h, events), Run(h, events + [e] + ThreeWrites(Lands) + more);
      && SameBatches(s, t) && t.reverted > 0
      && (|s.l1.stateRoots| == |s.l1.headers| ==> |t.l1.stateRoots| > |t.l1.headers| && !RootsMatch(t.l1))
  {
    var first := events + [e] + ThreeWrites(Lands);
    UnreadRevert(h, events, e);
    AheadFreezes(h, first, more);
    RevertedRises(h, first, more);
    RootsGrow(h, first, more);
  }

  lemma {:induction false} RootsGrow(h: Hashing, events: seq<Event>, more: seq<Event>)
    ensures Run(h, events).l1.stateRoots <= Run(h, events + more).l1.stateRoots
  {
    if more == [] {
      assert events + more == events;
    } else {
      var front := more[..|more| - 1];
      assert (events + more)[..|events + more| - 1] == events + front;
      RootsGrow(h, events, front);
      RunKeepsChain(h, events + front);
      ChainPreserved(h, Run(h, events + front), more[|more| - 1]);
    }
  }

  // A missed commitment.

  predicate AwaitsCommit(p: Phase) {
    p.Reported? || p.IndexWritten? || p.Committing?
  }

  /** Neither the phase nor anything in transit is about to commit the next root in turn. */
  predicate Stalled(s: State) {
    && |s.l1.stateRoots| < |s.l1.headers|
    && (AwaitsCommit(s.phase) ==> s.phase.batch.batchIndex != |s.l1.stateRoots|)
    && (forall i :: 0 <= i < |s.transit| && s.transit[i].RootTx? ==> s.transit[i].batchIndex != |s.l1.stateRoots|)
  }

  predicate StillStalled(s: State, t: State) {
    Stalled(t) && t.l1.stateRoots == s.l1.stateRoots
  }

  lemma StalledOnCommit(s: State, answer: Answer)
    requires Stalled(s) && s.phase.Committing?
    ensures StillStalled(s, OnCommit(s, s.phase.batch, s.phase.messages, answer))
  {}

  lemma StalledElsewhere(h: Hashing, s: State, e: Event)
    requires Stalled(s) && !e.Submit? && !e.Include? && !e.Commit?
    ensures StillStalled(s, Step(h, s, e))
  {
    OtherEffect(h, s, e);
  }

  lemma StalledOnStep(h: Hashing, s: State, e: Event)
    requires ChainInv(h, s) && Stalled(s) && Step(h, s, e).reverted == s.reverted
    ensures StillStalled(s, Step(h, s, e))
  {
    if e.Submit? {
      if s.phase.Ready? { SubmitEffect(h, s, s.phase.hand, HeaderOn(s, e), e.answer); }
    } else if e.Include? {
      if e.i < |s.transit| { IncludeEffect(h, s, e.i, e.paid); }
    } else if e.Commit? {
      if s.phase.Committing? { StalledOnCommit(s, e.answer); }
    } else {
      StalledElsewhere(h, s, e);
    }
  }

  lemma StalledTwice(s: State, t: State, u: State)
    requires StillStalled(s, t) && StillStalled(t, u)
    ensures StillStalled(s, u)
  {}

  lemma {:induction false} StaysStalled(h: Hashing, events: seq<Event>, more: seq<Event>)
    requires Stalled(Run(h, events)) && Run(h, events + more).reverted == Run(h, events).reverted
    ensures StillStalled(Run(h, events), Run(h, events + more))
  {
    if more == [] {
      assert events + more == events;
    } else {
      var front, e := more[..|more| - 1], more[|more| - 1];
      assert (events + more)[..|events + more| - 1] == events + front;
      var s, t := Run(h, events), Run(h, events + front);
      var u := Step(h, t, e);
      assert u == Run(h, events + more);
      RunKeepsChain(h, events + front);
      assert t.reverted <= u.reverted by { ChainPreserved(h, t, e); }
      RevertedRises(h, events, front);
      StaysStalled(h, events, front);
      StalledOnStep(h, t, e);
      StalledTwice(s, t, u);
    }
  }

  ghost predicate CommitsNothing(h: Hashing, events: seq<Event>) {
    forall more :: Run(h, events + more).reverted == Run(h, events).reverted ==>
      Run(h, events + more).l1.stateRoots == Run(h, events).l1.stateRoots
  }

  /** A batch without its root stalls the commitments for good, restarts included and barring unread
      reverts, exactly when its root is neither about to be committed nor in transit: commitments
      go in order, and the submitter never repeats one. */
  lemma {:induction false} StallsForeverIff(h: Hashing, events: seq<Event>)
    requires |Run(h, events).l1.stateRoots| < |Run(h, events).l1.headers|
    ensures CommitsNothing(h, events) <==> Stalled(Run(h, events))
  {
    var s := Run(h, events);
    if Stalled(s) {
      forall more | Run(h, events + more).reverted == s.reverted
        ensures Run(h, events + more).l1.stateRoots == s.l1.stateRoots
      {
        StaysStalled(h, events, more);
      }
    } else if AwaitsCommit(s.phase) && s.phase.batch.batchIndex == |s.l1.stateRoots| {
      RunThreeWrites(h, events, Lands);
      CommitsWhatIsReported(h, s);
      assert Run(h, events + ThreeWrites(Lands)).l1.stateRoots != s.l1.stateRoots;
    } else {
      var i :| 0 <= i < |s.transit| && s.transit[i].RootTx? && s.transit[i].batchIndex == |s.l1.stateRoots|;
      RunKeepsChain(h, events);
      IncludeEffect(h, s, i, false);
      RunSnoc(h, events, Include(i, false));
      assert Run(h, events + [Include(i, false)]).l1.stateRoots != s.l1.stateRoots;
    }
  }

  /** While no further revert goes unread, no withdrawal of a batch behind the stall is paid out. */
  lemma StalledForever(h: Hashing, events: seq<Event>, more: seq<Event>)
    requires Stalled(Run(h, events)) && Run(h, events + more).reverted == Run(h, events).reverted
    ensures var s, t := Run(h, events), Run(h, events + more);
      && t.l1.stateRoots == s.l1.stateRoots
      && (forall j :: 0 <= j < |t.l1.finalized| ==> t.l1.finalized[j].1 < |s.l1.stateRoots|)
  {
    StaysStalled(h, events, more);
    AtMostOnePayout(h, events + more);
  }

  /** A batch that reverts unread, with its commitment turning out as `commit`. */
  function RevertedBatch(root: Digest, commit: Answer): seq<Event> {
    [Begin, Submit(0, ZERO, 0, root, ZERO, ZERO, Reverts)] + ThreeWrites(commit)
  }

  lemma SplitRevertedBatch(events: seq<Event>, root: Digest, commit: Answer)
    ensures events + RevertedBatch(root, commit)
      == events + [Begin] + [Submit(0, ZERO, 0, root, ZERO, ZERO, Reverts)] + ThreeWrites(commit)
  {}

  /** It moves the index on, and its root is committed if the index is the next one in turn. */
  lemma RunRevertedBatch(h: Hashing, events: seq<Event>, root: Digest, commit: Answer)
    requires Run(h, events).phase == Idle && Run(h, events).pending == [] && (commit == Fails || commit == Lands)
    ensures var s, t := Run(h, events), Run(h, events + RevertedBatch(root, commit));
      && t.index == s.index + 1 && t.pending == []
      && t.l1 == (if commit == Lands then ExecRoot(s.l1, s.index, root) else s.l1)
      && (commit == Fails ==> t.phase == Idle)
  {
    var submit := Submit(0, ZERO, 0, root, ZERO, ZERO, Reverts);
    RunSnoc(h, events, Begin);
    RunSnoc(h, events + [Begin], submit);
    RunThreeWrites(h, events + [Begin] + [submit], commit);
    SplitRevertedBatch(events, root, commit);
  }

  lemma {:induction false} WalkIndex(h: Hashing, events: seq<Event>, n: nat) returns (more: seq<Event>)
    requires Run(h, events).phase == Idle && Run(h, events).pending == []
    ensures var s, t := Run(h, events), Run(h, events + more);
      t.phase == Idle && t.pending == [] && t.index == s.index + n && t.l1 == s.l1
  {
    more := [];
    if n == 0 {
      assert events + [] == events;
    } else {
      var front := WalkIndex(h, events, n - 1);
      RunRevertedBatch(h, events + front, ZERO, Fails);
      more := front + RevertedBatch(ZERO, Fails);
      assert events + more == events + front + RevertedBatch(ZERO, Fails);
    }
  }

  lemma RunBlindStart(h: Hashing, events: seq<Event>) returns (blind: seq<Event>)
    ensures var s, t := Run(h, events), Run(h, events + blind);
      t.phase == Idle && t.pending == [] && t.index == 0 && t.l1 == s.l1
  {
    blind := [Crash, Restart(false, false)];
    RunSnoc(h, events, Crash);
    RunSnoc(h, events + [Crash], Restart(false, false));
    assert events + blind == events + [Crash] + [Restart(false, false)];
  }

  lemma RootInTurn(l1: L1, root: Digest)
    ensures ExecRoot(l1, |l1.stateRoots|, root) == l1.(stateRoots := l1.stateRoots + [root])
  {}

  lemma BlindWalk(h: Hashing, events: seq<Event>) returns (walk: seq<Event>)
    ensures var s, t := Run(h, events), Run(h, events + walk);
      t.phase == Idle && t.pending == [] && t.index == |s.l1.stateRoots| && t.l1 == s.l1
  {
    var blind := RunBlindStart(h, events);
    var start := events + blind;
    var rest := WalkIndex(h, start, |Run(h, events).l1.stateRoots|);
    walk := blind + rest;
    Regroup(events, blind, rest);
  }

  /** From every run, a start whose reads fail and enough unread reverts commit any root at all as
      the next one, without a batch. */
  lemma RevertsCommitAnything(h: Hashing, events: seq<Event>, root: Digest) returns (more: seq<Event>)
    ensures var s, t := Run(h, events), Run(h, events + more);
      t.l1 == s.l1.(stateRoots := s.l1.stateRoots + [root])
  {
    var walk := BlindWalk(h, events);
    RunRevertedBatch(h, events + walk, root, Lands);
    RootInTurn(Run(h, events).l1, root);
    more := walk + RevertedBatch(root, Lands);
    assert events + more == events + walk + RevertedBatch(root, Lands);
  }

  ghost predicate Resumes(h: Hashing, events: seq<Event>, more: seq<Event>) {
    Run(h, events + more).l1.stateRoots != Run(h, events).l1.stateRoots
  }

  /** Every stall can end, and only through an unread revert. */
  lemma {:induction false} StallEndsByRevert(h: Hashing, events: seq<Event>)
    requires Stalled(Run(h, events))
    ensures exists more :: Resumes(h, events, more)
    ensures forall more :: Resumes(h, events, more) ==> Run(h, events + more).reverted > Run(h, events).reverted
  {
    var more := RevertsCommitAnything(h, events, ZERO);
    assert Resumes(h, events, more);
    forall more | Resumes(h, events, more) ensures Run(h, events + more).reverted > Run(h, events).reverted {
      RevertedRises(h, events, more);
      if Run(h, events + more).reverted == Run(h, events).reverted { StaysStalled(h, events, more); }
    }
  }

  // Restarts.

  lemma {:induction false} StoppedQueueEmpty(h: Hashing, events: seq<Event>)
    ensures Run(h, events).phase.Stopped? ==> Run(h, events).pending == []
  {
    if events != [] {
      StoppedQueueEmpty(h, events[..|events| - 1]);
      StoppedOnStep(h, Run(h, events[..|events| - 1]), events[|events| - 1]);
    }
  }

  lemma StoppedOnStep(h: Hashing, s: State, e: Event)
    requires s.phase.Stopped? ==> s.pending == []
    ensures Step(h, s, e).phase.Stopped? ==> Step(h, s, e).pending == []
  {}

  /** Whether the reads of a start leave the sequencer able to submit. */
  predicate SyncSuffices(l1: L1, indexRead: bool, hashRead: bool) {
    LatestBatchIndex(l1) == 0 || (indexRead && (hashRead || ParentHash(l1) == ZERO))
  }

  /** The first submission after a start lands exactly when the inbox is empty, or the index was
      read and so was the last hash (or that hash is zero). */
  lemma FirstSubmissionLandsIff(h: Hashing, events: seq<Event>, indexRead: bool, hashRead: bool, e: Event)
    requires Run(h, events).phase.Stopped? && e.Submit? && e.answer == Lands
    ensures var s := Run(h, events);
      Run(h, events + [Restart(indexRead, hashRead)] + [Begin] + [e]).batches != s.batches
      <==> SyncSuffices(s.l1, indexRead, hashRead)
  {
    var s := Run(h, events);
    var started := events + [Restart(indexRead, hashRead)];
    StoppedQueueEmpty(h, events);
    RunKeepsChain(h, events);
    RunSnoc(h, events, Restart(indexRead, hashRead));
    RunSnoc(h, started, Begin);
    RunSnoc(h, started + [Begin], e);
    var t := Run(h, started + [Begin]);
    assert t.phase == Ready([]) && SameBatches(s, t);
    SubmitEffect(h, t, [], HeaderOn(t, e), Lands);
  }

  /** After a start whose reads do not suffice nothing lands until the next one, barring batches
      still in transit and unread reverts. */
  lemma BadStartFreezes(h: Hashing, events: seq<Event>, indexRead: bool, hashRead: bool)
    requires Run(h, events).phase.Stopped? && !SyncSuffices(Run(h, events).l1, indexRead, hashRead)
    ensures var started := events + [Restart(indexRead, hashRead)];
      && Disagrees(Run(h, started))
      && (LandsNothing(h, started) <==> NoneAcceptable(Run(h, events)))
  {
    RunSnoc(h, events, Restart(indexRead, hashRead));
    DisagreementFreezesIff(h, events + [Restart(indexRead, hashRead)]);
  }
}
