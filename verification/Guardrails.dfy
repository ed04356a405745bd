/** Spending guardrails (wallet-sdk/src/guardrails/PolicyEnforcer.ts). */
module Guardrails {
  import opened JsText
  import opened Outcomes
  import TokenAmounts

  const DAY_MS: int := 24 * 60 * 60 * 1000

  datatype SpendingPolicy = SpendingPolicy(
    maxPerTransaction: int, maxPerDay: int, allowedAddresses: seq<string>, blockedAddresses: seq<string>,
    allowedSelectors: seq<string>, sessionExpiry: int, canDeployContracts: bool)

  // An absent destination or absent data is the empty string.
  datatype TransactionIntent = TransactionIntent(to: string, value: int, data: string, isContractDeploy: bool)

  datatype Rule =
    | SessionExpired | NoContractDeploy | BlockedAddress | NotAllowedAddress | NotAllowedSelector
    | MaxPerTransaction | MaxPerDay

  datatype Ledger = Ledger(dailySpent: int, lastSpendDay: int)

  function Day(now: int): int { now / DAY_MS }

  /** `maybeResetDaily` */
  function Reset(l: Ledger, now: int): Ledger {
    if Day(now) > l.lastSpendDay then Ledger(0, Day(now)) else l
  }

  predicate Lists(addresses: seq<string>, a: string) {
    exists i :: 0 <= i < |addresses| && Lower(addresses[i]) == Lower(a)
  }

  /** Everything but the daily limit, in the order the rules are checked. */
  function Gate(policy: SpendingPolicy, intent: TransactionIntent, now: int): Option<Rule> {
    if now >= policy.sessionExpiry then Some(SessionExpired)
    else if intent.isContractDeploy && !policy.canDeployContracts then Some(NoContractDeploy)
    else if intent.to != "" && Lists(policy.blockedAddresses, intent.to) then Some(BlockedAddress)
    else if intent.to != "" && policy.allowedAddresses != [] && !Lists(policy.allowedAddresses, intent.to) then
      Some(NotAllowedAddress)
    else if |intent.data| >= 10 && policy.allowedSelectors != []
      && !Lists(policy.allowedSelectors, intent.data[..10]) then
      Some(NotAllowedSelector)
    else if intent.value > policy.maxPerTransaction then Some(MaxPerTransaction)
    else None
  }

  /** The violated rule, if any. */
  function Verdict(policy: SpendingPolicy, intent: TransactionIntent, l: Ledger, now: int): Option<Rule> {
    var gate := Gate(policy, intent, now);
    if gate.Some? then gate
    else if Reset(l, now).dailySpent + intent.value > policy.maxPerDay then Some(MaxPerDay)
    else None
  }

  /** What a validation reports, said of the policy's fields, what was spent today, and the verdict. */
  ghost predicate Reports(policy: SpendingPolicy, intent: TransactionIntent, spentToday: int, now: int,
                          violated: Option<Rule>)
  {
    var session := now < policy.sessionExpiry;
    var deploy := intent.isContractDeploy ==> policy.canDeployContracts;
    var notBlocked := intent.to != "" ==> forall a :: a in policy.blockedAddresses ==> Lower(a) != Lower(intent.to);
    var allowed := intent.to != "" && policy.allowedAddresses != [] ==>
      exists a :: a in policy.allowedAddresses && Lower(a) == Lower(intent.to);
    var selector := |intent.data| >= 10 && policy.allowedSelectors != [] ==>
      exists x :: x in policy.allowedSelectors && Lower(x) == Lower(intent.data[..10]);
    var small := intent.value <= policy.maxPerTransaction;
    var withinDay := spentToday + intent.value <= policy.maxPerDay;
    && (violated == None <==> session && deploy && notBlocked && allowed && selector && small && withinDay)
    && (violated == Some(SessionExpired) <==> !session)
    && (violated == Some(NoContractDeploy) <==> session && !deploy)
    && (violated == Some(BlockedAddress) <==> session && deploy && !notBlocked)
    && (violated == Some(NotAllowedAddress) <==> session && deploy && notBlocked && !allowed)
    && (violated == Some(NotAllowedSelector) <==> session && deploy && notBlocked && allowed && !selector)
    && (violated == Some(MaxPerTransaction) <==> session && deploy && notBlocked && allowed && selector && !small)
    && (violated == Some(MaxPerDay) <==>
          session && deploy && notBlocked && allowed && selector && small && !withinDay)
  }

  lemma ListsMember(addresses: seq<string>, a: string)
    ensures Lists(addresses, a) <==> exists x :: x in addresses && Lower(x) == Lower(a)
  {
    if Lists(addresses, a) {
      var i :| 0 <= i < |addresses| && Lower(addresses[i]) == Lower(a);
      assert addresses[i] in addresses;
    }
  }

  /** The verdict is what the rules say. */
  lemma VerdictReports(policy: SpendingPolicy, intent: TransactionIntent, l: Ledger, now: int)
    ensures Reports(policy, intent, if now / 86_400_000 > l.lastSpendDay then 0 else l.dailySpent, now,
                    Verdict(policy, intent, l, now))
  {
    ListsMember(policy.blockedAddresses, intent.to);
    ListsMember(policy.allowedAddresses, intent.to);
    if |intent.data| >= 10 { ListsMember(policy.allowedSelectors, intent.data[..10]); }
  }

  /** What is left of the budget is what a payment may still take, as far as the day goes. */
  lemma RemainingIsSpendable(policy: SpendingPolicy, intent: TransactionIntent, l: Ledger, now: int)
    requires Gate(policy, intent, now) == None && intent.value > 0
    ensures Verdict(policy, intent, l, now) == None <==> intent.value <= Remaining(policy, l, now)
  {}

  /** The ledger after validation: the day is reset only if the daily limit was reached. */
  function AfterValidate(policy: SpendingPolicy, intent: TransactionIntent, l: Ledger, now: int): Ledger {
    if Gate(policy, intent, now).Some? then l else Reset(l, now)
  }

  function AfterRecord(l: Ledger, amount: int, now: int): Ledger {
    var r := Reset(l, now);
    r.(dailySpent := r.dailySpent + amount)
  }

  function Remaining(policy: SpendingPolicy, l: Ledger, now: int): int {
    var rest := policy.maxPerDay - Reset(l, now).dailySpent;
    if rest > 0 then rest else 0
  }

  // The serialised form; `dailySpent` is a decimal string.
  datatype Saved = Saved(policy: SpendingPolicy, dailySpent: string, lastSpendDay: int)

  function SavedOf(policy: SpendingPolicy, l: Ledger): Saved {
    Saved(policy, TokenAmounts.IntText(l.dailySpent), l.lastSpendDay)
  }

  function LedgerOf(saved: Saved): Outcome<Ledger> {
    match TokenAmounts.ParseBigInt(saved.dailySpent)
    case Ok(n) => Ok(Ledger(n, saved.lastSpendDay))
    case Err(e) => Err(e)
  }

  lemma SavedReadsBack(policy: SpendingPolicy, l: Ledger)
    ensures LedgerOf(SavedOf(policy, l)) == Ok(l)
  {
    TokenAmounts.ParseIntText(l.dailySpent);
  }

  class PolicyEnforcer {
    var policy: SpendingPolicy
    var dailySpent: int
    var lastSpendDay: int

    function State(): Ledger
      reads this
    {
      Ledger(dailySpent, lastSpendDay)
    }

    constructor (policy: SpendingPolicy, ledger: Option<Ledger>, now: int)
      ensures this.policy == policy
      ensures State() == if ledger.Some? then ledger.value else Ledger(0, Day(now))
    {
      this.policy := policy;
      dailySpent := if ledger.Some? then ledger.value.dailySpent else 0;
      lastSpendDay := if ledger.Some? then ledger.value.lastSpendDay else Day(now);
    }

    method IsListed(addresses: seq<string>, a: string) returns (b: bool)
      ensures b == Lists(addresses, a)
    {
      var normalized := Lower(a);
      for i := 0 to |addresses|
        invariant forall j :: 0 <= j < i ==> Lower(addresses[j]) != normalized
      {
        if Lower(addresses[i]) == normalized { return true; }
      }
      b := false;
    }

    method MaybeResetDaily(now: int)
      modifies `dailySpent, `lastSpendDay
      ensures State() == Reset(old(State()), now)
    {
      if Day(now) > lastSpendDay {
        dailySpent := 0;
        lastSpendDay := Day(now);
      }
    }

    method Validate(intent: TransactionIntent, now: int) returns (violated: Option<Rule>)
      modifies `dailySpent, `lastSpendDay
      ensures violated == Verdict(policy, intent, old(State()), now)
      ensures var spentToday := if now / 86_400_000 > old(lastSpendDay) then 0 else old(dailySpent);
        Reports(policy, intent, spentToday, now, violated)
      ensures State() == AfterValidate(policy, intent, old(State()), now)
      ensures if now / 86_400_000 > old(lastSpendDay) && violated in [None, Some(MaxPerDay)]
              then dailySpent == 0 && lastSpendDay == now / 86_400_000
              else dailySpent == old(dailySpent) && lastSpendDay == old(lastSpendDay)
    {
      VerdictReports(policy, intent, State(), now);
      if now >= policy.sessionExpiry { return Some(SessionExpired); }
      if intent.isContractDeploy && !policy.canDeployContracts { return Some(NoContractDeploy); }
      var blocked := IsListed(policy.blockedAddresses, intent.to);
      if intent.to != "" && blocked { return Some(BlockedAddress); }
      var listed := IsListed(policy.allowedAddresses, intent.to);
      if intent.to != "" && policy.allowedAddresses != [] && !listed { return Some(NotAllowedAddress); }
      if |intent.data| >= 10 {
        var selector := IsListed(policy.allowedSelectors, intent.data[..10]);
        if policy.allowedSelectors != [] && !selector { return Some(NotAllowedSelector); }
      }
      if intent.value > policy.maxPerTransaction { return Some(MaxPerTransaction); }
      MaybeResetDaily(now);
      if dailySpent + intent.value > policy.maxPerDay { return Some(MaxPerDay); }
      violated := None;
    }

    method RecordSpend(amount: int, now: int)
      modifies `dailySpent, `lastSpendDay
      ensures State() == AfterRecord(old(State()), amount, now)
      ensures if now / 86_400_000 > old(lastSpendDay) then dailySpent == amount && lastSpendDay == now / 86_400_000
              else dailySpent == old(dailySpent) + amount && lastSpendDay == old(lastSpendDay)
    {
      MaybeResetDaily(now);
      dailySpent := dailySpent + amount;
    }

    method GetRemainingDaily(now: int) returns (r: int)
      modifies `dailySpent, `lastSpendDay
      ensures r == Remaining(policy, old(State()), now) && State() == Reset(old(State()), now)
      ensures var left := policy.maxPerDay - if now / 86_400_000 > old(lastSpendDay) then 0 else old(dailySpent);
        r == if left < 0 then 0 else left
    {
      MaybeResetDaily(now);
      r := policy.maxPerDay - dailySpent;
      if r <= 0 { r := 0; }
    }

    method GetDailySpent(now: int) returns (r: int)
      modifies `dailySpent, `lastSpendDay
      ensures r == Reset(old(State()), now).dailySpent && State() == Reset(old(State()), now)
    {
      MaybeResetDaily(now);
      r := dailySpent;
    }

    method ToJson() returns (saved: Saved)
      ensures saved == SavedOf(policy, State())
    {
      saved := Saved(policy, TokenAmounts.IntText(dailySpent), lastSpendDay);
    }
  }

  /** An enforcer saved and rebuilt has the ledger it had. */
  method SaveAndRebuild(e: PolicyEnforcer, now: int) returns (r: Outcome<PolicyEnforcer>)
    ensures r.Ok? && fresh(r.value) && r.value.policy == e.policy && r.value.State() == e.State()
  {
    var saved := e.ToJson();
    SavedReadsBack(e.policy, e.State());
    var ledger := LedgerOf(saved);
    var built := new PolicyEnforcer(saved.policy, Some(ledger.value), now);
    r := Ok(built);
  }
}
