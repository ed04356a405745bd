/** The wallet around the enforcer: what is persisted, and what a reload restores
    (wallet-sdk/src/MonmouthWallet.ts). */
module WalletRestart {
  import opened Guardrails
  import opened Outcomes
  import TokenAmounts

  class MonmouthWallet {
    var enforcer: PolicyEnforcer
    var connectedAddress: Option<string>

    /** A fresh enforcer under the configured policy takes over the stored spending, if any. */
    constructor (policy: SpendingPolicy, storage: Option<Saved>, storedAddress: Option<string>, now: int)
      ensures fresh(enforcer) && enforcer.policy == policy
      ensures enforcer.State() == RestoredLedger(storage, now)
      ensures forall p, l :: storage == Some(SavedOf(p, l)) ==> enforcer.State() == l
      ensures storage == None ==> enforcer.dailySpent == 0 && enforcer.lastSpendDay == now / 86_400_000
      ensures connectedAddress == if storage.Some? && LedgerOf(storage.value).Ok? then storedAddress else None
    {
      var ledger := None;
      connectedAddress := None;
      if storage.Some? {
        var parsed := LedgerOf(storage.value);
        if parsed.Ok? {
          ledger := Some(parsed.value);
          connectedAddress := storedAddress;
        }
      }
      enforcer := new PolicyEnforcer(policy, ledger, now);
      new;
      forall p, l | storage == Some(SavedOf(p, l)) ensures enforcer.State() == l {
        SavedReadsBack(p, l);
      }
    }

    method ValidateTransaction(intent: TransactionIntent, now: int) returns (violated: Option<Rule>)
      modifies enforcer
      ensures enforcer.policy == old(enforcer.policy)
      ensures violated == Verdict(enforcer.policy, intent, old(enforcer.State()), now)
      ensures var spentToday := if now / 86_400_000 > old(enforcer.lastSpendDay) then 0 else old(enforcer.dailySpent);
        Reports(enforcer.policy, intent, spentToday, now, violated)
      ensures enforcer.State() == AfterValidate(enforcer.policy, intent, old(enforcer.State()), now)
    {
      violated := enforcer.Validate(intent, now);
    }

    /** Records the spend and persists; `saved` is what reaches the storage. */
    method RecordTransaction(value: int, now: int) returns (saved: Saved)
      modifies enforcer
      ensures enforcer.policy == old(enforcer.policy)
      ensures enforcer.State() == AfterRecord(old(enforcer.State()), value, now)
      ensures if now / 86_400_000 > old(enforcer.lastSpendDay)
              then enforcer.State() == Ledger(value, now / 86_400_000)
              else enforcer.State() == Ledger(old(enforcer.dailySpent) + value, old(enforcer.lastSpendDay))
      ensures saved == SavedOf(enforcer.policy, enforcer.State()) && LedgerOf(saved) == Ok(enforcer.State())
    {
      enforcer.RecordSpend(value, now);
      saved := enforcer.ToJson();
      SavedReadsBack(enforcer.policy, enforcer.State());
    }
  }

  /** A wallet reloaded right after a transaction was recorded, under the same policy, has spent what
      the first one has, and gives the same verdict on every intent at every time. */
  method RecordThenReload(w: MonmouthWallet, value: int, now: int, address: Option<string>, later: int)
    returns (reloaded: MonmouthWallet)
    modifies w.enforcer
    ensures fresh(reloaded) && reloaded.enforcer.policy == w.enforcer.policy == old(w.enforcer.policy)
    ensures reloaded.enforcer.dailySpent == w.enforcer.dailySpent
    ensures reloaded.enforcer.lastSpendDay == w.enforcer.lastSpendDay
    ensures forall intent: TransactionIntent, at: int ::
      Verdict(reloaded.enforcer.policy, intent, reloaded.enforcer.State(), at)
      == Verdict(w.enforcer.policy, intent, w.enforcer.State(), at)
  {
    var saved := w.RecordTransaction(value, now);
    reloaded := new MonmouthWallet(w.enforcer.policy, Some(saved), address, later);
    assert reloaded.enforcer.State() == w.enforcer.State();
  }

  datatype PaymentResult = Paid | Blocked(rule: Rule) | NotAnAddress | SendFailed

  /** `extractAddress`: 0x and forty more characters. */
  predicate IsRecipient(s: string) {
    |s| == 42 && s[..2] == "0x"
  }

  /** A direct payment (PaymentRouter.pay): validated at `now`; once the send has succeeded at
      `later` the amount is recorded and persisted. */
  method PayDirect(w: MonmouthWallet, recipient: string, amount: int, now: int, sendSucceeds: bool, later: int)
    returns (r: PaymentResult, saved: Option<Saved>)
    modifies w.enforcer
    ensures w.enforcer.policy == old(w.enforcer.policy)
    ensures r == NotAnAddress <==> !(|recipient| == 42 && recipient[0] == '0' && recipient[1] == 'x')
    ensures r != NotAnAddress ==>
      var spentToday := if now / 86_400_000 > old(w.enforcer.lastSpendDay) then 0 else old(w.enforcer.dailySpent);
      Reports(w.enforcer.policy, TransactionIntent(recipient, amount, "", false), spentToday, now,
              match r case Blocked(rule) => Some(rule) case _ => None)
    ensures r == Paid <==> saved.Some?
    ensures var intent := TransactionIntent(recipient, amount, "", false);
            var before := old(w.enforcer.State());
            var verdict := Verdict(w.enforcer.policy, intent, before, now);
            var validated := AfterValidate(w.enforcer.policy, intent, before, now);
            if !IsRecipient(recipient) then r == NotAnAddress && w.enforcer.State() == before && saved == None
            else if verdict.Some? then r == Blocked(verdict.value) && w.enforcer.State() == validated && saved == None
            else if !sendSucceeds then r == SendFailed && w.enforcer.State() == validated && saved == None
            else (r == Paid && w.enforcer.State() == AfterRecord(validated, amount, later) && saved.Some?
                  && LedgerOf(saved.value) == Ok(w.enforcer.State()))
  {
    saved := None;
    if IsRecipient(recipient) {
      var violated := w.ValidateTransaction(TransactionIntent(recipient, amount, "", false), now);
      if violated.Some? {
        return Blocked(violated.value), None;
      }
    } else {
      return NotAnAddress, None;
    }
    if !sendSucceeds {
      return SendFailed, None;
    }
    var written := w.RecordTransaction(amount, later);
    r, saved := Paid, Some(written);
  }

  function RestoredLedger(storage: Option<Saved>, now: int): Ledger {
    if storage.Some? && LedgerOf(storage.value).Ok? then LedgerOf(storage.value).value else Ledger(0, Day(now))
  }

  lemma SavedRestores(policy: SpendingPolicy, l: Ledger, now: int)
    ensures RestoredLedger(Some(SavedOf(policy, l)), now) == l
  {
    SavedReadsBack(policy, l);
  }

  // Two wallets side by side: `live` is restarted now and then, `twin` never.

  datatype State = State(live: Ledger, stored: Option<Saved>, twin: Ledger, clock: int)

  datatype Event =
    | Tick(elapsed: nat)
    | Validate(intent: TransactionIntent)
    | Record(value: int)
    | Query
    | Persist       // any other write of the state: connection and session changes
    | Restart

  function Step(policy: SpendingPolicy, s: State, e: Event): State {
    match e
    case Tick(elapsed) => s.(clock := s.clock + elapsed)
    case Validate(intent) =>
      s.(live := AfterValidate(policy, intent, s.live, s.clock), twin := AfterValidate(policy, intent, s.twin, s.clock))
    case Record(value) =>
      var l := AfterRecord(s.live, value, s.clock);
      s.(live := l, stored := Some(SavedOf(policy, l)), twin := AfterRecord(s.twin, value, s.clock))
    case Query => s.(live := Reset(s.live, s.clock), twin := Reset(s.twin, s.clock))
    case Persist => s.(stored := Some(SavedOf(policy, s.live)))
    case Restart => s.(live := RestoredLedger(s.stored, s.clock))
  }

  function Run(policy: SpendingPolicy, now: int, events: seq<Event>): State {
    if events == [] then State(Ledger(0, Day(now)), None, Ledger(0, Day(now)), now)
    else Step(policy, Run(policy, now, events[..|events| - 1]), events[|events| - 1])
  }

  /** Ledger and storage may differ only by a day reset that is due. */
  predicate Same(a: Ledger, b: Ledger, now: int) {
    a.lastSpendDay <= Day(now) && b.lastSpendDay <= Day(now) && Reset(a, now) == Reset(b, now)
  }

  predicate Inv(s: State) {
    && Same(s.live, s.twin, s.clock)
    && (s.stored.Some? ==> LedgerOf(s.stored.value).Ok?)
    && Same(s.live, RestoredLedger(s.stored, s.clock), s.clock)
  }

  lemma SameLater(a: Ledger, b: Ledger, now: int, later: int)
    requires Same(a, b, now) && now <= later
    ensures Same(a, b, later)
  {
    assert Day(now) <= Day(later);
  }

  lemma TickPreserves(s: State, elapsed: nat)
    requires Inv(s)
    ensures Inv(s.(clock := s.clock + elapsed))
  {
    SameLater(s.live, s.twin, s.clock, s.clock + elapsed);
    SameLater(s.live, RestoredLedger(s.stored, s.clock), s.clock, s.clock + elapsed);
    assert Day(s.clock) <= Day(s.clock + elapsed);
  }

  lemma StepPreserves(policy: SpendingPolicy, s: State, e: Event)
    requires Inv(s)
    ensures Inv(Step(policy, s, e))
  {
    match e
    case Tick(elapsed) => TickPreserves(s, elapsed);
    case Record(value) => SavedReadsBack(policy, AfterRecord(s.live, value, s.clock));
    case Persist => SavedReadsBack(policy, s.live);
    case _ =>
  }

  lemma {:induction false} RunKeepsInv(policy: SpendingPolicy, now: int, events: seq<Event>)
    ensures Inv(Run(policy, now, events))
  {
    if events != [] {
      var front := events[..|events| - 1];
      RunKeepsInv(policy, now, front);
      StepPreserves(policy, Run(policy, now, front), events[|events| - 1]);
    }
  }

  /** Reloading the wallet at any points of a run changes nothing a caller can see: spent amount,
      remaining budget and every verdict are those of the wallet never reloaded, although the day
      reset of a validation is not persisted. */
  lemma RestartsUnobservable(policy: SpendingPolicy, now: int, events: seq<Event>, intent: TransactionIntent)
    ensures var s := Run(policy, now, events);
      && Reset(s.live, s.clock).dailySpent == Reset(s.twin, s.clock).dailySpent
      && Remaining(policy, s.live, s.clock) == Remaining(policy, s.twin, s.clock)
      && Verdict(policy, intent, s.live, s.clock) == Verdict(policy, intent, s.twin, s.clock)
  {
    RunKeepsInv(policy, now, events);
  }

  /** With a clock that falls a reload is observable in exactly these cases: at `high` a validation
      that got as far as the daily limit, or a query of the budget, reset the day without its being
      persisted; the clock then reads `low`, no later than the day last spent on; and something was
      spent on that day. */
  lemma ClockMustNotFall(policy: SpendingPolicy, intent: TransactionIntent, stored: Ledger, high: int, low: int)
    ensures var live := AfterValidate(policy, intent, stored, high);
      Reset(live, low).dailySpent != Reset(stored, low).dailySpent
      <==> Gate(policy, intent, high) == None && Day(low) <= stored.lastSpendDay < Day(high) && stored.dailySpent != 0
    ensures var live := Reset(stored, high);
      Reset(live, low).dailySpent != Reset(stored, low).dailySpent
      <==> Day(low) <= stored.lastSpendDay < Day(high) && stored.dailySpent != 0
  {}
}
