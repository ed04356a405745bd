/** The budget over whole runs: payments are validated, sent, and recorded when the send has
    succeeded, several at a time, with reloads of the wallet (wallet-sdk/src/payments/PaymentRouter.ts,
    wallet-sdk/src/MonmouthWallet.ts). */
module SpendingRuns {
  import opened Guardrails
  import opened JsText
  import opened Outcomes
  import opened Positional
  import opened Sequences
  import WalletRestart

  datatype Payment = Payment(to: string, amount: nat)

  datatype Spend = Spend(time: int, to: string, amount: nat)

  // Payments validated and not yet recorded wait in `inFlight`; `records` is what was recorded.
  datatype State = State(
    ledger: Ledger, stored: Option<Saved>, clock: int, inFlight: seq<Payment>, records: seq<Spend>)

  datatype Event =
    | Tick(elapsed: nat)
    | Begin(to: string, amount: nat)   // validateTransaction, then the send is awaited
    | End(i: nat)                      // the send succeeded: recordTransaction
    | Fail(i: nat)                     // the send threw
    | Query                            // getRemainingDaily or getDailySpent
    | Persist                          // any other write of the state
    | Reload                           // the wallet starts anew from what is stored

  function Intent(to: string, amount: nat): TransactionIntent {
    TransactionIntent(to, amount, "", false)
  }

  /** `k` bounds the payments in flight. */
  function Step(policy: SpendingPolicy, k: nat, s: State, e: Event): State {
    match e
    case Tick(elapsed) => s.(clock := s.clock + elapsed)
    case Begin(to, amount) =>
      if |s.inFlight| >= k then s
      else
        var t := s.(ledger := AfterValidate(policy, Intent(to, amount), s.ledger, s.clock));
        if Verdict(policy, Intent(to, amount), s.ledger, s.clock) != None then t
        else t.(inFlight := s.inFlight + [Payment(to, amount)])
    case End(i) =>
      if i >= |s.inFlight| then s
      else
        var l := AfterRecord(s.ledger, s.inFlight[i].amount, s.clock);
        s.(ledger := l, stored := Some(SavedOf(policy, l)), inFlight := Without(s.inFlight, i),
           records := s.records + [Spend(s.clock, s.inFlight[i].to, s.inFlight[i].amount)])
    case Fail(i) => if i >= |s.inFlight| then s else s.(inFlight := Without(s.inFlight, i))
    case Query => s.(ledger := Reset(s.ledger, s.clock))
    case Persist => s.(stored := Some(SavedOf(policy, s.ledger)))
    case Reload => s.(ledger := WalletRestart.RestoredLedger(s.stored, s.clock), inFlight := [])
  }

  function Start(now: int): State {
    State(Ledger(0, Day(now)), None, now, [], [])
  }

  function Run(policy: SpendingPolicy, k: nat, now: int, events: seq<Event>): State {
    if events == [] then Start(now)
    else Step(policy, k, Run(policy, k, now, events[..|events| - 1]), events[|events| - 1])
  }

  function Sum(s: seq<Payment>): nat {
    if s == [] then 0 else Sum(s[..|s| - 1]) + s[|s| - 1].amount
  }

  /** What was recorded on one UTC day. */
  function DayTotal(records: seq<Spend>, d: int): nat {
    if records == [] then 0
    else
      var r := records[|records| - 1];
      DayTotal(records[..|records| - 1], d) + if Day(r.time) == d then r.amount else 0
  }

  /** What was recorded from `from` on, before `end`. */
  function WindowTotal(records: seq<Spend>, from: int, end: int): nat {
    if records == [] then 0
    else
      var r := records[|records| - 1];
      WindowTotal(records[..|records| - 1], from, end) + if from <= r.time < end then r.amount else 0
  }

  /** The largest amount a payment may have under both limits. */
  function Largest(policy: SpendingPolicy): int {
    if policy.maxPerTransaction < policy.maxPerDay then policy.maxPerTransaction else policy.maxPerDay
  }

  /** The daily limit plus one largest payment for every further payment in flight; nothing, if
      payments of nothing only are allowed. */
  function Bound(policy: SpendingPolicy, k: nat): int {
    if policy.maxPerTransaction == 0 then 0 else policy.maxPerDay + (k - 1) * Largest(policy)
  }

  predicate Sane(policy: SpendingPolicy, k: nat) {
    policy.maxPerDay >= 0 && policy.maxPerTransaction >= 0 && k > 0
  }

  /** The ledger holds the total of its day, which is that of the last record or later. */
  predicate Tells(l: Ledger, records: seq<Spend>, clock: int) {
    && l.lastSpendDay <= Day(clock)
    && (forall i :: 0 <= i < |records| ==> Day(records[i].time) <= l.lastSpendDay)
    && DayTotal(records, l.lastSpendDay) == l.dailySpent
  }

  ghost predicate Inv(policy: SpendingPolicy, k: nat, s: State) {
    && |s.inFlight| <= k
    && (forall i :: 0 <= i < |s.inFlight| ==> s.inFlight[i].amount <= Largest(policy))
    && s.ledger.dailySpent + Sum(s.inFlight) <= Bound(policy, k)
    && Tells(s.ledger, s.records, s.clock)
    && (if s.stored.Some? then
          LedgerOf(s.stored.value).Ok? && Tells(LedgerOf(s.stored.value).value, s.records, s.clock)
        else s.records == [])
    && (forall d :: DayTotal(s.records, d) <= Bound(policy, k))
  }

  lemma {:induction false} SumWithout(s: seq<Payment>, i: nat)
    requires i < |s|
    ensures Sum(Without(s, i)) == Sum(s) - s[i].amount
  {
    var n := |s| - 1;
    if i < n {
      SumWithout(s[..n], i);
      assert Without(s, i)[..n - 1] == Without(s[..n], i);
    } else {
      assert Without(s, i) == s[..n];
    }
  }

  lemma {:induction false} SumAtMost(s: seq<Payment>, limit: nat)
    requires forall i :: 0 <= i < |s| ==> s[i].amount <= limit
    ensures Sum(s) <= |s| * limit
  {
    if s != [] { SumAtMost(s[..|s| - 1], limit); }
  }

  lemma SumSnoc(s: seq<Payment>, x: Payment)
    ensures Sum(s + [x]) == Sum(s) + x.amount
  {
    assert (s + [x])[..|s|] == s;
  }

  lemma {:induction false} NoRecordsLater(records: seq<Spend>, last: int, d: int)
    requires d > last && forall i :: 0 <= i < |records| ==> Day(records[i].time) <= last
    ensures DayTotal(records, d) == 0
  {
    if records != [] { NoRecordsLater(records[..|records| - 1], last, d); }
  }

  lemma DayMonotone(a: int, b: int)
    requires a <= b
    ensures Day(a) <= Day(b)
  {}

  lemma ResetPreserves(policy: SpendingPolicy, k: nat, s: State)
    requires Inv(policy, k, s)
    ensures Inv(policy, k, s.(ledger := Reset(s.ledger, s.clock)))
    ensures Reset(s.ledger, s.clock).lastSpendDay == Day(s.clock)
  {
    if Day(s.clock) > s.ledger.lastSpendDay {
      NoRecordsLater(s.records, s.ledger.lastSpendDay, Day(s.clock));
    }
  }

  lemma InFlightFit(policy: SpendingPolicy, k: nat, inFlight: seq<Payment>)
    requires Sane(policy, k) && |inFlight| < k && policy.maxPerTransaction > 0
    requires forall i :: 0 <= i < |inFlight| ==> inFlight[i].amount <= Largest(policy)
    ensures policy.maxPerDay + Sum(inFlight) <= Bound(policy, k)
  {
    SumAtMost(inFlight, Largest(policy));
    MulBoth(|inFlight|, k - 1, Largest(policy), Largest(policy));
  }

  lemma BeginFits(policy: SpendingPolicy, k: nat, inFlight: seq<Payment>, p: Payment, spent: nat)
    requires Sane(policy, k) && |inFlight| < k && spent + p.amount <= policy.maxPerDay
      && p.amount <= policy.maxPerTransaction
    requires (forall i :: 0 <= i < |inFlight| ==> inFlight[i].amount <= Largest(policy))
      && spent + Sum(inFlight) <= Bound(policy, k)
    ensures spent + Sum(inFlight + [p]) <= Bound(policy, k) && p.amount <= Largest(policy)
  {
    SumSnoc(inFlight, p);
    if policy.maxPerTransaction > 0 { InFlightFit(policy, k, inFlight); }
  }

  lemma BeginPreserves(policy: SpendingPolicy, k: nat, s: State, to: string, amount: nat)
    requires Sane(policy, k) && Inv(policy, k, s)
    ensures Inv(policy, k, Step(policy, k, s, Begin(to, amount)))
  {
    ResetPreserves(policy, k, s);
    if |s.inFlight| < k && Verdict(policy, Intent(to, amount), s.ledger, s.clock) == None {
      BeginFits(policy, k, s.inFlight, Payment(to, amount), Reset(s.ledger, s.clock).dailySpent);
    }
  }

  lemma EndPreserves(policy: SpendingPolicy, k: nat, s: State, i: nat)
    requires Inv(policy, k, s)
    ensures Inv(policy, k, Step(policy, k, s, End(i)))
  {
    if i < |s.inFlight| {
      var r := s.(ledger := Reset(s.ledger, s.clock));
      ResetPreserves(policy, k, s);
      var t := Step(policy, k, s, End(i));
      SumWithout(s.inFlight, i);
      SavedReadsBack(policy, t.ledger);
      assert t.records[..|s.records|] == s.records;
      assert forall d ::
        DayTotal(t.records, d) == DayTotal(s.records, d) + if d == Day(s.clock) then s.inFlight[i].amount else 0;
    }
  }

  lemma StepPreserves(policy: SpendingPolicy, k: nat, s: State, e: Event)
    requires Sane(policy, k) && Inv(policy, k, s)
    ensures Inv(policy, k, Step(policy, k, s, e))
  {
    match e
    case Tick(elapsed) => DayMonotone(s.clock, s.clock + elapsed);
    case Begin(to, amount) => BeginPreserves(policy, k, s, to, amount);
    case End(i) => EndPreserves(policy, k, s, i);
    case Fail(i) => if i < |s.inFlight| { SumWithout(s.inFlight, i); }
    case Query => ResetPreserves(policy, k, s);
    case Persist => SavedReadsBack(policy, s.ledger);
    case Reload => assert DayTotal([], Day(s.clock)) == 0;
  }

  lemma {:induction false} RunKeepsInv(policy: SpendingPolicy, k: nat, now: int, events: seq<Event>)
    requires Sane(policy, k)
    ensures Inv(policy, k, Run(policy, k, now, events))
  {
    if events == [] {
      MulBoth(0, k - 1, policy.maxPerTransaction, policy.maxPerTransaction);
      assert forall d :: DayTotal([], d) == 0;
    } else {
      var front := events[..|events| - 1];
      RunKeepsInv(policy, k, now, front);
      StepPreserves(policy, k, Run(policy, k, now, front), events[|events| - 1]);
    }
  }

  lemma {:induction false} WindowWithinTwoDays(records: seq<Spend>, from: int)
    ensures WindowTotal(records, from, from + DAY_MS) <= DayTotal(records, Day(from)) + DayTotal(records, Day(from) + 1)
  {
    if records != [] {
      WindowWithinTwoDays(records[..|records| - 1], from);
      var t := records[|records| - 1].time;
      if from <= t < from + DAY_MS { assert Day(t) == Day(from) || Day(t) == Day(from) + 1; }
    }
  }

  /** With at most k payments in flight at a time and a clock that does not go back, reloads at any
      points included, spent plus in flight never exceeds the daily limit by more than k - 1 largest
      payments; neither does the total recorded on any UTC day; and any 24 hours see at most twice
      that. */
  lemma BudgetHolds(policy: SpendingPolicy, k: nat, now: int, events: seq<Event>, d: int, from: int)
    requires Sane(policy, k)
    ensures var s := Run(policy, k, now, events);
      && s.ledger.dailySpent + Sum(s.inFlight) <= Bound(policy, k)
      && DayTotal(s.records, d) <= Bound(policy, k)
      && WindowTotal(s.records, from, from + DAY_MS) <= 2 * Bound(policy, k)
  {
    RunKeepsInv(policy, k, now, events);
    WindowWithinTwoDays(Run(policy, k, now, events).records, from);
  }

  // Who is paid.

  /** Address and amount as the policy's fields have it. */
  ghost predicate Permitted(policy: SpendingPolicy, to: string, amount: nat) {
    && (to != "" ==> forall a :: a in policy.blockedAddresses ==> Lower(a) != Lower(to))
    && (to != "" && policy.allowedAddresses != [] ==>
          exists a :: a in policy.allowedAddresses && Lower(a) == Lower(to))
    && amount <= policy.maxPerTransaction && amount <= policy.maxPerDay
  }

  ghost predicate PermittedInv(policy: SpendingPolicy, s: State) {
    && s.ledger.dailySpent >= 0 && (s.stored.Some? ==> LedgerOf(s.stored.value).Ok?)
    && (s.stored.Some? ==> LedgerOf(s.stored.value).value.dailySpent >= 0)
    && (forall i :: 0 <= i < |s.inFlight| ==> Permitted(policy, s.inFlight[i].to, s.inFlight[i].amount))
    && (forall i :: 0 <= i < |s.records| ==> Permitted(policy, s.records[i].to, s.records[i].amount))
  }

  lemma PermittedOnStep(policy: SpendingPolicy, k: nat, s: State, e: Event)
    requires PermittedInv(policy, s)
    ensures PermittedInv(policy, Step(policy, k, s, e))
  {
    match e
    case Begin(to, amount) => VerdictReports(policy, Intent(to, amount), s.ledger, s.clock);
    case End(i) =>
      if i < |s.inFlight| { SavedReadsBack(policy, AfterRecord(s.ledger, s.inFlight[i].amount, s.clock)); }
    case Persist => SavedReadsBack(policy, s.ledger);
    case _ =>
  }

  /** In every run each recorded payment went to an address that is not blocked and, where there is
      an allowlist, is on it, letter case aside, and was within both limits. */
  lemma {:induction false} OnlyPermittedRecorded(policy: SpendingPolicy, k: nat, now: int, events: seq<Event>)
    ensures PermittedInv(policy, Run(policy, k, now, events))
    ensures var s := Run(policy, k, now, events);
      forall i :: 0 <= i < |s.records| ==> Permitted(policy, s.records[i].to, s.records[i].amount)
  {
    if events != [] {
      OnlyPermittedRecorded(policy, k, now, events[..|events| - 1]);
      PermittedOnStep(policy, k, Run(policy, k, now, events[..|events| - 1]), events[|events| - 1]);
    }
  }

  // The bound is reached.

  lemma RunSnoc(policy: SpendingPolicy, k: nat, now: int, events: seq<Event>, e: Event)
    ensures Run(policy, k, now, events + [e]) == Step(policy, k, Run(policy, k, now, events), e)
  {
    assert (events + [e])[..|events|] == events;
  }

  /** Destination and session pass; amounts up to the transaction limit then pass every rule but
      the daily one. */
  predicate Open(policy: SpendingPolicy, to: string, now: int) {
    Gate(policy, Intent(to, 0), now) == None && policy.maxPerTransaction >= 0
  }

  /** One payment after another spends any amount within the daily limit. */
  lemma {:induction false} PayOneByOne(policy: SpendingPolicy, k: nat, now: int, to: string, target: nat)
    returns (events: seq<Event>)
    requires k > 0 && policy.maxPerTransaction > 0 && Open(policy, to, now) && target <= policy.maxPerDay
    ensures var s := Run(policy, k, now, events);
      s.ledger == Ledger(target, Day(now)) && s.clock == now && s.inFlight == []
  {
    events := [];
    if target > 0 {
      var x := if target < policy.maxPerTransaction then target else policy.maxPerTransaction;
      var before := PayOneByOne(policy, k, now, to, target - x);
      RunSnoc(policy, k, now, before, Begin(to, x));
      RunSnoc(policy, k, now, before + [Begin(to, x)], End(0));
      events := before + [Begin(to, x)] + [End(0)];
    }
  }

  lemma {:induction false} BeginMany(policy: SpendingPolicy, k: nat, now: int, to: string, n: nat)
    returns (events: seq<Event>)
    requires n <= k && k > 0 && 0 < policy.maxPerTransaction && 0 <= policy.maxPerDay && Open(policy, to, now)
    ensures var s := Run(policy, k, now, events);
      && s.ledger == Ledger(policy.maxPerDay - Largest(policy), Day(now)) && s.clock == now
      && s.inFlight == Repeat<Payment>(Payment(to, Largest(policy)), n)
  {
    if n == 0 {
      events := PayOneByOne(policy, k, now, to, policy.maxPerDay - Largest(policy));
    } else {
      var before := BeginMany(policy, k, now, to, n - 1);
      RunSnoc(policy, k, now, before, Begin(to, Largest(policy)));
      events := before + [Begin(to, Largest(policy))];
    }
  }

  lemma EndFirst(policy: SpendingPolicy, k: nat, s: State, to: string, n: nat)
    requires Largest(policy) >= 0 && n > 0 && s.ledger.lastSpendDay == Day(s.clock)
    requires s.inFlight == Repeat<Payment>(Payment(to, Largest(policy)), n)
    ensures var t := Step(policy, k, s, End(0));
      && t.clock == s.clock && t.ledger == Ledger(s.ledger.dailySpent + Largest(policy), Day(s.clock))
      && t.inFlight == Repeat<Payment>(Payment(to, Largest(policy)), n - 1)
  {
    assert Without(s.inFlight, 0) == Repeat<Payment>(Payment(to, Largest(policy)), n - 1);
  }

  lemma {:induction false} EndMany(policy: SpendingPolicy, k: nat, now: int, events: seq<Event>, to: string, n: nat)
    returns (more: seq<Event>)
    requires Largest(policy) >= 0
    requires var s := Run(policy, k, now, events);
      s.clock == now && s.ledger.lastSpendDay == Day(now)
        && s.inFlight == Repeat<Payment>(Payment(to, Largest(policy)), n)
    ensures var s, t := Run(policy, k, now, events), Run(policy, k, now, more);
      t.ledger == Ledger(s.ledger.dailySpent + n * Largest(policy), Day(now)) && t.inFlight == []
    decreases n
  {
    more := events;
    if n > 0 {
      RunSnoc(policy, k, now, events, End(0));
      EndFirst(policy, k, Run(policy, k, now, events), to, n);
      more := EndMany(policy, k, now, events + [End(0)], to, n - 1);
      assert n * Largest(policy) == (n - 1) * Largest(policy) + Largest(policy);
    }
  }

  /** The bound is exact for every policy of nonnegative limits: wherever destination and session
      pass, some run with at most k in flight records precisely that much in one day. */
  lemma {:induction false} BoundIsReached(policy: SpendingPolicy, k: nat, now: int, to: string)
    returns (events: seq<Event>)
    requires Sane(policy, k) && Open(policy, to, now)
    ensures var s := Run(policy, k, now, events);
      s.ledger.dailySpent == Bound(policy, k) && DayTotal(s.records, Day(now)) == Bound(policy, k)
  {
    if policy.maxPerTransaction == 0 {
      events := [];
    } else {
      var begun := BeginMany(policy, k, now, to, k);
      events := EndMany(policy, k, now, begun, to, k);
      RunKeepsInv(policy, k, now, events);
      assert k * Largest(policy) == (k - 1) * Largest(policy) + Largest(policy);
    }
  }
}
