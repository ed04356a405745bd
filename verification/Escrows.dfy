/** Escrows between agents (wallet-sdk/src/commerce/EscrowClient.ts, wallet-sdk/src/commerce/types.ts). */
module Escrows {
  import opened Guardrails
  import opened JsText
  import opened Outcomes
  import opened Positional
  import opened Sequences
  import TokenAmounts
  import WalletRestart

  datatype EscrowState = Pending | Locked | Released | Refunded | Disputed | Resolved | Expired

  datatype Party = Payer | Recipient

  datatype Resolution = Resolution(winner: Party, amount: int, reason: string)

  datatype EscrowRecord = EscrowRecord(
    id: string, payer: string, recipient: string, amount: int, token: string, description: string,
    state: EscrowState, createdAt: int, expiresAt: int, releasedAt: Option<int>, refundedAt: Option<int>,
    txHash: Option<string>, serviceId: Option<string>, arbiter: Option<string>, disputeReason: Option<string>,
    resolution: Option<Resolution>)

  datatype CreateParams = CreateParams(
    recipient: string, amount: int, token: Option<string>, description: string, durationSeconds: int,
    serviceId: Option<string>, arbiter: Option<string>)

  datatype EscrowError = NotFound | Unauthorized | InvalidState | NotAllowed(rule: Rule)

  // A JavaScript Map: the keys in insertion order, and the records.
  datatype Book = Book(ids: seq<string>, records: map<string, EscrowRecord>)

  predicate BookValid(b: Book) {
    && (forall i :: 0 <= i < |b.ids| ==> b.ids[i] in b.records && b.records[b.ids[i]].id == b.ids[i])
    && Distinct(b.ids)
    && (forall id :: id in b.records ==> id in b.ids)
  }

  /** `escrows.set(id, record)` */
  function Put(b: Book, r: EscrowRecord): Book {
    Book(if r.id in b.records then b.ids else b.ids + [r.id], b.records[r.id := r])
  }

  predicate SameAddress(a: string, b: string) { Lower(a) == Lower(b) }

  function PlaceholderHash(c: char): Option<string> { Some("0x" + Repeat(c, 64)) }

  /** `||` and `&&` on an optional string: the empty one counts as absent. */
  function Given(x: Option<string>): Option<string> {
    if x == Some("") then None else x
  }

  function NewRecord(id: string, payer: string, p: CreateParams, defaultArbiter: Option<string>,
    now: int): EscrowRecord {
    EscrowRecord(id, payer, p.recipient, p.amount, if Given(p.token).Some? then p.token.value else "ETH", p.description,
                 Locked, now, now + p.durationSeconds * 1000, None, None, None, p.serviceId,
                 if Given(p.arbiter).Some? then p.arbiter else defaultArbiter, None, None)
  }

  // Whether a caller may release, refund, dispute or resolve, in the order of the checks.

  function PayerCheck(b: Book, id: string, caller: Option<string>): Option<EscrowError> {
    if id !in b.records then Some(NotFound)
    else if caller.None? || !SameAddress(caller.value, b.records[id].payer) then Some(Unauthorized)
    else if b.records[id].state != Locked then Some(InvalidState)
    else None
  }

  function DisputeCheck(b: Book, id: string, caller: Option<string>): Option<EscrowError> {
    if id !in b.records then Some(NotFound)
    else if caller.None? then Some(Unauthorized)
    else if !SameAddress(caller.value, b.records[id].payer) && !SameAddress(caller.value, b.records[id].recipient) then
      Some(Unauthorized)
    else if b.records[id].state != Locked then Some(InvalidState)
    else None
  }

  function ResolveCheck(b: Book, id: string, caller: Option<string>): Option<EscrowError> {
    if id !in b.records then Some(NotFound)
    else if caller.None? then Some(Unauthorized)
    else if Given(b.records[id].arbiter).Some? && !SameAddress(caller.value, b.records[id].arbiter.value) then
      Some(Unauthorized)
    else if b.records[id].state != Disputed then Some(InvalidState)
    else None
  }

  // One operation of any client of the book. An escrow creation carries whether the guardrails
  // allowed it.
  datatype Op =
    | Create(id: string, caller: Option<string>, params: CreateParams, defaultArbiter: Option<string>, allowed: bool,
      now: int)
    | Release(id: string, caller: Option<string>, now: int)
    | Refund(id: string, caller: Option<string>, now: int)
    | Dispute(id: string, caller: Option<string>, reason: string)
    | Resolve(id: string, caller: Option<string>, resolution: Resolution)
    | CheckExpired(now: int)

  predicate Succeeds(b: Book, op: Op) {
    match op
    case Create(_, caller, _, _, allowed, _) => caller.Some? && allowed
    case Release(id, caller, _) => PayerCheck(b, id, caller) == None
    case Refund(id, caller, _) => PayerCheck(b, id, caller) == None
    case Dispute(id, caller, _) => DisputeCheck(b, id, caller) == None
    case Resolve(id, caller, _) => ResolveCheck(b, id, caller) == None
    case CheckExpired(_) => true
  }

  /** Locked past its expiry, strictly. */
  predicate Overdue(r: EscrowRecord, now: int) { r.state == Locked && r.expiresAt < now }

  function Sweep(r: EscrowRecord, now: int): EscrowRecord {
    if Overdue(r, now) then r.(state := Expired) else r
  }

  function Swept(b: Book, now: int): Book {
    b.(records := map id | id in b.records :: Sweep(b.records[id], now))
  }

  function Step(b: Book, op: Op): Book {
    if !Succeeds(b, op) then b
    else
      match op
      case Create(id, caller, p, arbiter, _, now) => Put(b, NewRecord(id, caller.value, p, arbiter, now))
      case Release(id, _, now) =>
        b.(records := b.records[id := b.records[id].(state := Released, releasedAt := Some(now),
                                                     txHash := PlaceholderHash('r'))])
      case Refund(id, _, now) =>
        b.(records := b.records[id := b.records[id].(state := Refunded, refundedAt := Some(now),
                                                     txHash := PlaceholderHash('f'))])
      case Dispute(id, _, reason) =>
        b.(records := b.records[id := b.records[id].(state := Disputed, disputeReason := Some(reason))])
      case Resolve(id, _, resolution) =>
        b.(records := b.records[id := b.records[id].(state := Resolved, resolution := Some(resolution),
                                                     txHash := PlaceholderHash('d'))])
      case CheckExpired(now) => Swept(b, now)
  }

  // What is persisted: amounts are decimal text, the other fields as they are.
  datatype Stored = Stored(record: EscrowRecord, amount: string, awarded: string)

  const EMPTY := Book([], map[])

  function Texted(r: EscrowRecord): Stored {
    Stored(r, TokenAmounts.IntText(r.amount),
           if r.resolution.Some? then TokenAmounts.IntText(r.resolution.value.amount) else "")
  }

  function Persisted(b: Book): seq<Stored>
    requires BookValid(b)
  {
    seq(|b.ids|, i requires 0 <= i < |b.ids| => Texted(b.records[b.ids[i]]))
  }

  /** One stored escrow read back; the amounts come from their texts. */
  function Revived(st: Stored): Outcome<EscrowRecord> {
    match TokenAmounts.ParseBigInt(st.amount)
    case Err(e) => Err(e)
    case Ok(amount) =>
      var r := st.record.(amount := amount);
      if st.record.resolution.None? then Ok(r)
      else
        match TokenAmounts.ParseBigInt(st.awarded)
        case Err(e) => Err(e)
        case Ok(awarded) => Ok(r.(resolution := Some(st.record.resolution.value.(amount := awarded))))
  }

  function RestoredFrom(b: Book, stored: seq<Stored>): Book
    decreases stored
  {
    if stored == [] then b
    else
      match Revived(stored[0])
      case Err(_) => b
      case Ok(r) => RestoredFrom(Put(b, r), stored[1..])
  }

  /** The book `b` is where restoring from `start` has got to. */
  predicate RestoreInv(start: Book, b: Book, stored: seq<Stored>, k: int, readable: bool) {
    && 0 <= k <= |stored|
    && RestoredFrom(start, stored) == if readable then RestoredFrom(b, stored[k..]) else b
  }

  lemma RestoreTurn(start: Book, b: Book, stored: seq<Stored>, k: nat)
    requires k < |stored| && RestoreInv(start, b, stored, k, true)
    ensures match Revived(stored[k])
      case Err(_) => RestoreInv(start, b, stored, k, false)
      case Ok(r) => RestoreInv(start, Put(b, r), stored, k + 1, true)
  {
    assert stored[k..][0] == stored[k] && stored[k..][1..] == stored[k + 1..];
  }

  lemma RestoreEnds(start: Book, b: Book, stored: seq<Stored>, k: nat, readable: bool)
    requires RestoreInv(start, b, stored, k, readable) && (k < |stored| ==> !readable)
    ensures b == RestoredFrom(start, stored)
  {
    assert k == |stored| ==> stored[k..] == [];
  }

  lemma ReviveUndoesText(r: EscrowRecord)
    ensures Revived(Texted(r)) == Ok(r)
  {
    TokenAmounts.ParseIntText(r.amount);
    if r.resolution.Some? { TokenAmounts.ParseIntText(r.resolution.value.amount); }
  }

  /** The first n escrows of a book. */
  function Front(b: Book, n: nat): Book
    requires n <= |b.ids|
  {
    Book(b.ids[..n], map id | id in b.records && id in b.ids[..n] :: b.records[id])
  }

  lemma FrontGrows(b: Book, n: nat)
    requires BookValid(b) && n < |b.ids|
    ensures Put(Front(b, n), b.records[b.ids[n]]) == Front(b, n + 1)
  {
    assert b.ids[..n + 1] == b.ids[..n] + [b.ids[n]];
    assert b.ids[n] !in b.ids[..n];
  }

  lemma {:induction false} RestoreRest(b: Book, n: nat)
    requires BookValid(b) && n <= |b.ids|
    ensures RestoredFrom(Front(b, n), Persisted(b)[n..]) == b
    decreases |b.ids| - n
  {
    if n == |b.ids| {
      assert b.ids[..n] == b.ids;
      assert Front(b, n).records == b.records;
    } else {
      var rest := Persisted(b)[n..];
      ReviveUndoesText(b.records[b.ids[n]]);
      FrontGrows(b, n);
      assert rest[0] == Texted(b.records[b.ids[n]]) && rest[1..] == Persisted(b)[n + 1..];
      RestoreRest(b, n + 1);
    }
  }

  /** A client started anew on what was persisted has the book it had, in the same order. */
  lemma {:induction false} RestoreUndoesPersist(b: Book)
    requires BookValid(b)
    ensures RestoredFrom(EMPTY, Persisted(b)) == b
  {
    RestoreRest(b, 0);
    assert Front(b, 0) == EMPTY;
  }

  /** A record just created, said of the wallet's address and the parameters of the call. */
  predicate IsCreated(r: EscrowRecord, id: string, connected: string, p: CreateParams, defaultArbiter: Option<string>,
                      now: int)
  {
    && r.id == id && r.payer == connected && r.recipient == p.recipient && r.amount == p.amount
    && r.token == (if p.token.Some? && p.token.value != "" then p.token.value else "ETH")
    && r.arbiter == (if p.arbiter.Some? && p.arbiter.value != "" then p.arbiter else defaultArbiter)
    && r.description == p.description && r.serviceId == p.serviceId
    && r.state == Locked && r.createdAt == now && r.expiresAt == now + 1000 * p.durationSeconds
    && r.releasedAt == None && r.refundedAt == None && r.txHash == None && r.disputeReason == None
    && r.resolution == None
  }

  predicate OthersKept(before: map<string, EscrowRecord>, after: map<string, EscrowRecord>, id: string) {
    && (forall x :: x in after && x != id ==> x in before)
    && (forall x :: x in before && x != id ==> x in after && after[x] == before[x])
  }

  lemma CreationStored(b: Book, id: string, connected: Option<string>, p: CreateParams, defaultArbiter: Option<string>,
                       now: int)
    ensures connected.Some? ==>
      var c := Put(b, NewRecord(id, connected.value, p, defaultArbiter, now));
      && id in c.records && IsCreated(c.records[id], id, connected.value, p, defaultArbiter, now)
      && OthersKept(b.records, c.records, id)
  {}

  /** Right after its creation an escrow is released and refunded by the wallet that created it and by
      nobody else, and disputed by that wallet and the recipient. */
  lemma CreatorControls(b: Book, op: Op, caller: Option<string>)
    requires op.Create? && Succeeds(b, op)
    ensures var c, payer := Step(b, op), op.caller.value;
      && op.id in c.records && IsCreated(c.records[op.id], op.id, payer, op.params, op.defaultArbiter, op.now)
      && (Succeeds(c, Release(op.id, caller, op.now)) <==> caller.Some? && Lower(caller.value) == Lower(payer))
      && (Succeeds(c, Refund(op.id, caller, op.now)) <==> caller.Some? && Lower(caller.value) == Lower(payer))
      && (Succeeds(c, Dispute(op.id, caller, "")) <==>
            caller.Some? && Lower(caller.value) in [Lower(payer), Lower(op.params.recipient)])
  {}

  class EscrowClient {
    const defaultArbiter: Option<string>
    var ids: seq<string>
    var records: map<string, EscrowRecord>

    function Contents(): Book
      reads this
    {
      Book(ids, records)
    }

    /** Starts from the stored escrows, if any; the first unreadable one ends the restoring. */
    constructor (defaultArbiter: Option<string>, stored: Option<seq<Stored>>)
      ensures this.defaultArbiter == defaultArbiter
      ensures Contents() == RestoredFrom(EMPTY, if stored.Some? then stored.value else [])
    {
      this.defaultArbiter := defaultArbiter;
      ids, records := [], map[];
      new;
      if stored.Some? { RestoreEscrows(stored.value); }
    }

    method RestoreEscrows(stored: seq<Stored>)
      modifies this
      ensures Contents() == RestoredFrom(old(Contents()), stored)
    {
      ghost var start := Contents();
      var k, readable := 0, true;
      assert stored[0..] == stored;
      while k < |stored| && readable
        invariant RestoreInv(start, Contents(), stored, k, readable)
        decreases |stored| - k, readable
      {
        RestoreTurn(start, Contents(), stored, k);
        var r := Revived(stored[k]);
        if r.Ok? {
          Set(r.value);
          k := k + 1;
        } else {
          readable := false;
        }
      }
      RestoreEnds(start, Contents(), stored, k, readable);
    }

    method Set(r: EscrowRecord)
      modifies this
      ensures Contents() == Put(old(Contents()), r)
    {
      if r.id !in records { ids := ids + [r.id]; }
      records := records[r.id := r];
    }

    /** Validates against the guardrails, stores the record, and records the spend. `id` is the
        generated identifier. */
    method CreateEscrow(w: WalletRestart.MonmouthWallet, p: CreateParams, id: string, now: int)
      returns (error: Option<EscrowError>)
      modifies this, w.enforcer
      ensures w.enforcer.policy == old(w.enforcer.policy)
      ensures var intent := TransactionIntent(p.recipient, p.amount, "", false);
              var before := old(w.enforcer.State());
              var verdict := Verdict(w.enforcer.policy, intent, before, now);
              && Contents() == Step(old(Contents()),
                Create(id, w.connectedAddress, p, defaultArbiter, verdict == None, now))
              && error == (if w.connectedAddress.None? then Some(Unauthorized)
                           else if verdict.Some? then Some(NotAllowed(verdict.value)) else None)
              && w.enforcer.State() == (if w.connectedAddress.None? then before
                                        else if verdict.Some? then AfterValidate(w.enforcer.policy, intent, before, now)
                                        else AfterRecord(before, p.amount, now))
      ensures error == None ==>
        && w.connectedAddress.Some? && id in records
        && IsCreated(records[id], id, w.connectedAddress.value, p, defaultArbiter, now)
      ensures error != None ==> records == old(records)
      ensures OthersKept(old(records), records, id)
    {
      CreationStored(Contents(), id, w.connectedAddress, p, defaultArbiter, now);
      if w.connectedAddress.None? {
        return Some(Unauthorized);
      }
      var violated := w.ValidateTransaction(TransactionIntent(p.recipient, p.amount, "", false), now);
      if violated.Some? {
        return Some(NotAllowed(violated.value));
      }
      Set(NewRecord(id, w.connectedAddress.value, p, defaultArbiter, now));
      var saved := w.RecordTransaction(p.amount, now);
      error := None;
    }

    method ReleaseEscrow(id: string, caller: Option<string>, now: int) returns (error: Option<EscrowError>)
      requires BookValid(Contents())
      modifies this
      ensures error == PayerCheck(old(Contents()), id, caller)
      ensures Contents() == Step(old(Contents()), Release(id, caller, now))
      ensures error == Some(NotFound) <==> id !in old(records)
      ensures error == Some(Unauthorized) <==>
        id in old(records) && (caller == None || Lower(caller.value) != Lower(old(records)[id].payer))
      ensures error == Some(InvalidState) <==>
        id in old(records) && caller.Some? && Lower(caller.value) == Lower(old(records)[id].payer)
        && old(records)[id].state != Locked
      ensures error in [None, Some(NotFound), Some(Unauthorized), Some(InvalidState)] && ids == old(ids)
      ensures records == if error != None then old(records)
        else old(records)[id := old(records)[id].(state := Released, releasedAt := Some(now),
                                                  txHash := Some("0x" + Repeat('r', 64)))]
    {
      if id !in records { return Some(NotFound); }
      var escrow := records[id];
      if caller.None? || Lower(caller.value) != Lower(escrow.payer) { return Some(Unauthorized); }
      if escrow.state != Locked { return Some(InvalidState); }
      escrow := escrow.(state := Released);
      escrow := escrow.(releasedAt := Some(now));
      escrow := escrow.(txHash := PlaceholderHash('r'));
      assert escrow.id == id;
      Set(escrow);
      error := None;
    }

    method RefundEscrow(id: string, caller: Option<string>, now: int) returns (error: Option<EscrowError>)
      requires BookValid(Contents())
      modifies this
      ensures error == PayerCheck(old(Contents()), id, caller)
      ensures Contents() == Step(old(Contents()), Refund(id, caller, now))
      ensures error == Some(NotFound) <==> id !in old(records)
      ensures error == Some(Unauthorized) <==>
        id in old(records) && (caller == None || Lower(caller.value) != Lower(old(records)[id].payer))
      ensures error == Some(InvalidState) <==>
        id in old(records) && caller.Some? && Lower(caller.value) == Lower(old(records)[id].payer)
        && old(records)[id].state != Locked
      ensures error in [None, Some(NotFound), Some(Unauthorized), Some(InvalidState)] && ids == old(ids)
      ensures records == if error != None then old(records)
        else old(records)[id := old(records)[id].(state := Refunded, refundedAt := Some(now),
                                                  txHash := Some("0x" + Repeat('f', 64)))]
    {
      if id !in records { return Some(NotFound); }
      var escrow := records[id];
      if caller.None? || Lower(caller.value) != Lower(escrow.payer) { return Some(Unauthorized); }
      if escrow.state != Locked { return Some(InvalidState); }
      escrow := escrow.(state := Refunded);
      escrow := escrow.(refundedAt := Some(now));
      escrow := escrow.(txHash := PlaceholderHash('f'));
      assert escrow.id == id;
      Set(escrow);
      error := None;
    }

    method DisputeEscrow(id: string, caller: Option<string>, reason: string) returns (error: Option<EscrowError>)
      requires BookValid(Contents())
      modifies this
      ensures error == DisputeCheck(old(Contents()), id, caller)
      ensures Contents() == Step(old(Contents()), Dispute(id, caller, reason))
      ensures error == Some(NotFound) <==> id !in old(records)
      ensures error == Some(Unauthorized) <==>
        id in old(records) && (caller == None ||
          (Lower(caller.value) != Lower(old(records)[id].payer)
            && Lower(caller.value) != Lower(old(records)[id].recipient)))
      ensures error == Some(InvalidState) <==>
        && id in old(records) && caller.Some? && old(records)[id].state != Locked
        && Lower(caller.value) in [Lower(old(records)[id].payer), Lower(old(records)[id].recipient)]
      ensures error in [None, Some(NotFound), Some(Unauthorized), Some(InvalidState)] && ids == old(ids)
      ensures records == if error != None then old(records)
        else old(records)[id := old(records)[id].(state := Disputed, disputeReason := Some(reason))]
    {
      if id !in records { return Some(NotFound); }
      var escrow := records[id];
      if caller.None? { return Some(Unauthorized); }
      var isParty := Lower(caller.value) == Lower(escrow.payer) || Lower(caller.value) == Lower(escrow.recipient);
      if !isParty { return Some(Unauthorized); }
      if escrow.state != Locked { return Some(InvalidState); }
      escrow := escrow.(state := Disputed, disputeReason := Some(reason));
      assert escrow.id == id;
      Set(escrow);
      error := None;
    }

    method ResolveDispute(id: string, caller: Option<string>, resolution: Resolution)
      returns (error: Option<EscrowError>)
      requires BookValid(Contents())
      modifies this
      ensures error == ResolveCheck(old(Contents()), id, caller)
      ensures Contents() == Step(old(Contents()), Resolve(id, caller, resolution))
      ensures error == Some(NotFound) <==> id !in old(records)
      ensures error == Some(Unauthorized) <==>
        id in old(records) &&
        (caller == None || (old(records)[id].arbiter.Some? && old(records)[id].arbiter.value != ""
                            && Lower(caller.value) != Lower(old(records)[id].arbiter.value)))
      ensures error == Some(InvalidState) <==>
        && id in old(records) && caller.Some? && old(records)[id].state != Disputed
        && (old(records)[id].arbiter.Some? && old(records)[id].arbiter.value != "" ==>
              Lower(caller.value) == Lower(old(records)[id].arbiter.value))
      ensures error in [None, Some(NotFound), Some(Unauthorized), Some(InvalidState)] && ids == old(ids)
      ensures records == if error != None then old(records)
        else old(records)[id := old(records)[id].(state := Resolved, resolution := Some(resolution),
                                                  txHash := Some("0x" + Repeat('d', 64)))]
    {
      if id !in records { return Some(NotFound); }
      var escrow := records[id];
      if caller.None? { return Some(Unauthorized); }
      if Given(escrow.arbiter).Some? && Lower(caller.value) != Lower(escrow.arbiter.value) {
        return Some(Unauthorized);
      }
      if escrow.state != Disputed { return Some(InvalidState); }
      escrow := escrow.(state := Resolved, resolution := Some(resolution));
      escrow := escrow.(txHash := PlaceholderHash('d'));
      assert escrow.id == id;
      Set(escrow);
      error := None;
    }

    /** The body of the sweep's loop. */
    method ExpireIfOverdue(id: string, now: int) returns (due: bool)
      requires id in records
      modifies `records
      ensures due == Overdue(old(records)[id], now)
      ensures records == old(records)[id := Sweep(old(records)[id], now)]
    {
      due := records[id].state == Locked && records[id].expiresAt < now;
      if due { records := records[id := records[id].(state := Expired)]; }
    }

    /** Walks the map in insertion order; returns the escrows it expired, in that order. */
    method CheckExpiredEscrows(now: int) returns (expired: seq<string>)
      requires BookValid(Contents())
      modifies this
      ensures Contents() == Swept(old(Contents()), now)
      ensures expired == OverdueIds(old(Contents()), old(ids), now)
      ensures ids == old(ids) && ExpiresOverdue(old(records), records, expired, now)
      ensures Subsequence(expired, ids)
    {
      expired := [];
      ghost var before := Contents();
      SweepStart(before, now);
      for i := 0 to |ids|
        invariant ids == before.ids && SweepInv(before, i, records, expired, now)
      {
        SweepTurn(before, i, records, expired, now);
        var due := ExpireIfOverdue(ids[i], now);
        if due { expired := expired + [ids[i]]; }
      }
      SweepEnd(before, records, expired, now);
      SweptExpires(before, now);
      OverdueInOrder(before, ids, now);
    }
  }

  /** The records once the first n entries have been swept. */
  function SweptPrefix(b: Book, n: nat, now: int): map<string, EscrowRecord>
    requires n <= |b.ids|
  {
    map id | id in b.records :: if id in b.ids[..n] then Sweep(b.records[id], now) else b.records[id]
  }

  /** The ids of the overdue escrows among some, in their order. */
  function OverdueIds(b: Book, ids: seq<string>, now: int): seq<string> {
    if ids == [] then []
    else
      var last := ids[|ids| - 1];
      OverdueIds(b, ids[..|ids| - 1], now) + if last in b.records && Overdue(b.records[last], now) then [last] else []
  }

  predicate SweepInv(b: Book, n: nat, records: map<string, EscrowRecord>, expired: seq<string>, now: int) {
    n <= |b.ids| && records == SweptPrefix(b, n, now) && expired == OverdueIds(b, b.ids[..n], now)
  }

  lemma SweepStart(b: Book, now: int)
    ensures SweepInv(b, 0, b.records, [], now)
  {
    assert b.ids[..0] == [];
  }

  lemma SweepStep(b: Book, n: nat, now: int)
    requires BookValid(b) && n < |b.ids|
    ensures var id, before := b.ids[n], SweptPrefix(b, n, now);
      id in before && before[id] == b.records[id]
        && SweptPrefix(b, n + 1, now) == before[id := Sweep(b.records[id], now)]
  {
    var id := b.ids[n];
    assert b.ids[..n + 1] == b.ids[..n] + [id];
    assert id !in b.ids[..n];
  }

  lemma OverdueSnoc(b: Book, n: nat, now: int)
    requires n < |b.ids| && b.ids[n] in b.records
    ensures OverdueIds(b, b.ids[..n + 1], now)
         == OverdueIds(b, b.ids[..n], now) + if Overdue(b.records[b.ids[n]], now) then [b.ids[n]] else []
  {
    assert b.ids[..n + 1][..n] == b.ids[..n];
  }

  lemma SweepTurn(b: Book, n: nat, records: map<string, EscrowRecord>, expired: seq<string>, now: int)
    requires BookValid(b) && n < |b.ids| && SweepInv(b, n, records, expired, now)
    ensures var id := b.ids[n];
      && id in records
      && SweepInv(b, n + 1, records[id := Sweep(records[id], now)],
                  expired + if Overdue(records[id], now) then [id] else [], now)
  {
    SweepStep(b, n, now);
    OverdueSnoc(b, n, now);
  }

  lemma SweepEnd(b: Book, records: map<string, EscrowRecord>, expired: seq<string>, now: int)
    requires BookValid(b) && SweepInv(b, |b.ids|, records, expired, now)
    ensures Book(b.ids, records) == Swept(b, now) && expired == OverdueIds(b, b.ids, now)
  {
    assert b.ids[..|b.ids|] == b.ids;
  }

  /** Exactly the locked escrows strictly past their expiry become expired and are reported. */
  predicate ExpiresOverdue(before: map<string, EscrowRecord>, after: map<string, EscrowRecord>, expired: seq<string>,
                           now: int)
  {
    && after.Keys == before.Keys
    && (forall x :: x in after && x in before ==>
          after[x] == if before[x].state == Locked && before[x].expiresAt < now then before[x].(state := Expired)
                      else before[x])
    && (forall x :: x in before ==> (x in expired <==> before[x].state == Locked && before[x].expiresAt < now))
    && (forall x :: x in expired ==> x in before)
  }

  lemma {:induction false} OverdueMembers(b: Book, ids: seq<string>, now: int, x: string)
    ensures x in OverdueIds(b, ids, now) <==> x in ids && x in b.records && Overdue(b.records[x], now)
  {
    if ids != [] {
      OverdueMembers(b, ids[..|ids| - 1], now, x);
      assert ids == ids[..|ids| - 1] + [ids[|ids| - 1]];
    }
  }

  lemma {:induction false} OverdueInOrder(b: Book, ids: seq<string>, now: int)
    ensures Subsequence(OverdueIds(b, ids, now), ids)
  {
    if ids == [] {
      EmptySubsequence(ids);
    } else {
      var front, last := ids[..|ids| - 1], ids[|ids| - 1];
      OverdueInOrder(b, front, now);
      SubsequenceSnoc(OverdueIds(b, front, now), front, last, last in b.records && Overdue(b.records[last], now));
      assert ids == front + [last];
    }
  }

  lemma SweptExpires(b: Book, now: int)
    requires BookValid(b)
    ensures ExpiresOverdue(b.records, Swept(b, now).records, OverdueIds(b, b.ids, now), now)
  {
    forall x ensures x in OverdueIds(b, b.ids, now) <==> x in b.ids && x in b.records && Overdue(b.records[x], now) {
      OverdueMembers(b, b.ids, now, x);
    }
  }

  // Whole runs.

  function Run(ops: seq<Op>): Book {
    if ops == [] then EMPTY else Step(Run(ops[..|ops| - 1]), ops[|ops| - 1])
  }

  /** Generated identifiers are new when they are used; the client does not check. */
  predicate FreshIds(ops: seq<Op>) {
    ops != [] ==>
      && FreshIds(ops[..|ops| - 1])
      && (ops[|ops| - 1].Create? ==> ops[|ops| - 1].id !in Run(ops[..|ops| - 1]).records)
  }

  lemma PutValid(b: Book, r: EscrowRecord)
    requires BookValid(b)
    ensures BookValid(Put(b, r))
  {}

  lemma {:induction false} RunValid(ops: seq<Op>)
    ensures BookValid(Run(ops))
  {
    if ops != [] {
      var b, op := Run(ops[..|ops| - 1]), ops[|ops| - 1];
      RunValid(ops[..|ops| - 1]);
      if op.Create? && Succeeds(b, op) {
        PutValid(b, NewRecord(op.id, op.caller.value, op.params, op.defaultArbiter, op.now));
      }
    }
  }

  /** Starting the client anew after any run changes nothing. */
  lemma {:induction false} ReloadKeepsBook(ops: seq<Op>)
    ensures BookValid(Run(ops)) && RestoredFrom(EMPTY, Persisted(Run(ops))) == Run(ops)
  {
    RunValid(ops);
    RestoreUndoesPersist(Run(ops));
  }

  /** The one-step transitions. */
  predicate Leads(s: EscrowState, t: EscrowState) {
    || s == t
    || (s == Locked && t in {Released, Refunded, Expired, Disputed})
    || (s == Disputed && t == Resolved)
  }

  /** What may be seen later. */
  predicate Follows(s: EscrowState, t: EscrowState) {
    Leads(s, t) || (s == Locked && t == Resolved)
  }

  predicate SameTerms(r: EscrowRecord, q: EscrowRecord) {
    && r.id == q.id && r.payer == q.payer && r.recipient == q.recipient && r.amount == q.amount && r.token == q.token
    && r.arbiter == q.arbiter && r.createdAt == q.createdAt && r.expiresAt == q.expiresAt && r.serviceId == q.serviceId
  }

  /** The optional fields tell the state. */
  predicate Documented(r: EscrowRecord) {
    && r.state != Pending
    && (r.releasedAt.Some? <==> r.state == Released)
    && (r.refundedAt.Some? <==> r.state == Refunded)
    && (r.disputeReason.Some? <==> r.state in {Disputed, Resolved})
    && (r.resolution.Some? <==> r.state == Resolved)
  }

  lemma StepLifecycle(b: Book, op: Op, id: string)
    requires id in b.records && !(op.Create? && op.id == id) && Documented(b.records[id])
    ensures var c := Step(b, op);
      && id in c.records && SameTerms(b.records[id], c.records[id]) && Leads(b.records[id].state, c.records[id].state)
      && Documented(c.records[id])
  {}

  lemma {:induction false} AllDocumented(ops: seq<Op>, id: string)
    requires id in Run(ops).records
    ensures Documented(Run(ops).records[id])
  {
    if ops != [] {
      var b, op := Run(ops[..|ops| - 1]), ops[|ops| - 1];
      if op.Create? && op.id == id && Succeeds(b, op) {
        assert Run(ops).records[id].state == Locked;
      } else {
        assert id in b.records;
        AllDocumented(ops[..|ops| - 1], id);
        if !Succeeds(b, op) { assert Run(ops) == b; } else { StepLifecycle(b, op, id); }
      }
    }
  }

  /** Over any continuation of any run an escrow keeps its terms and moves only along the
      lifecycle: locked to released, refunded, expired or disputed, and disputed to resolved. */
  lemma {:induction false} LifecycleHolds(ops: seq<Op>, more: seq<Op>, id: string)
    requires FreshIds(ops + more) && id in Run(ops).records
    ensures id in Run(ops + more).records
    ensures var r, q := Run(ops).records[id], Run(ops + more).records[id];
            SameTerms(r, q) && Follows(r.state, q.state) && Documented(q)
  {
    AllDocumented(ops, id);
    if more == [] {
      assert ops + more == ops;
    } else {
      var front := more[..|more| - 1];
      assert (ops + more)[..|ops + more| - 1] == ops + front;
      LifecycleHolds(ops, front, id);
      StepLifecycle(Run(ops + front), more[|more| - 1], id);
    }
  }

  /** A sweep takes the refund away: the payer of an overdue escrow may refund it right before, and
      in no continuation afterwards does anyone get it refunded, released or disputed. */
  lemma SweepForfeitsRefund(ops: seq<Op>, id: string, now: int, more: seq<Op>, caller: Option<string>)
    requires FreshIds(ops + [CheckExpired(now)] + more)
    requires id in Run(ops).records && Overdue(Run(ops).records[id], now)
    ensures PayerCheck(Run(ops), id, Some(Run(ops).records[id].payer)) == None
    ensures var b := Run(ops + [CheckExpired(now)] + more);
      && id in b.records && b.records[id].state == Expired
      && PayerCheck(b, id, caller) != None && DisputeCheck(b, id, caller) != None && ResolveCheck(b, id, caller) != None
  {
    var swept := ops + [CheckExpired(now)];
    assert swept[..|ops|] == ops;
    assert Run(swept) == Swept(Run(ops), now);
    LifecycleHolds(swept, more, id);
  }

  // Conservation.

  function Total(b: Book, ids: seq<string>): int
    requires forall i :: 0 <= i < |ids| ==> ids[i] in b.records
  {
    if ids == [] then 0 else Total(b, ids[..|ids| - 1]) + b.records[ids[|ids| - 1]].amount
  }

  function TotalIn(b: Book, ids: seq<string>, st: EscrowState): int
    requires forall i :: 0 <= i < |ids| ==> ids[i] in b.records
  {
    if ids == [] then 0
    else
      var r := b.records[ids[|ids| - 1]];
      TotalIn(b, ids[..|ids| - 1], st) + if r.state == st then r.amount else 0
  }

  function Escrowed(ops: seq<Op>): int {
    if ops == [] then 0
    else
      var op := ops[|ops| - 1];
      Escrowed(ops[..|ops| - 1]) + if op.Create? && Succeeds(Run(ops[..|ops| - 1]), op) then op.params.amount else 0
  }

  lemma {:induction false} Partition(b: Book, ids: seq<string>)
    requires forall i :: 0 <= i < |ids| ==> ids[i] in b.records
    ensures Total(b, ids) == TotalIn(b, ids, Pending) + TotalIn(b, ids, Locked) + TotalIn(b, ids, Released)
                           + TotalIn(b, ids, Refunded) + TotalIn(b, ids, Disputed) + TotalIn(b, ids, Resolved)
                           + TotalIn(b, ids, Expired)
  {
    if ids != [] { Partition(b, ids[..|ids| - 1]); }
  }

  lemma {:induction false} TotalSameAmounts(b: Book, c: Book, ids: seq<string>)
    requires forall i :: 0 <= i < |ids| ==>
      ids[i] in b.records && ids[i] in c.records && b.records[ids[i]].amount == c.records[ids[i]].amount
    ensures Total(b, ids) == Total(c, ids)
  {
    if ids != [] { TotalSameAmounts(b, c, ids[..|ids| - 1]); }
  }

  lemma TotalSnoc(b: Book, ids: seq<string>, id: string)
    requires id in b.records && forall i :: 0 <= i < |ids| ==> ids[i] in b.records
    ensures Total(b, ids + [id]) == Total(b, ids) + b.records[id].amount
  {
    assert (ids + [id])[..|ids|] == ids;
  }

  lemma {:induction false} TotalOverwritten(b: Book, r: EscrowRecord, ids: seq<string>)
    requires forall i :: 0 <= i < |ids| ==> ids[i] in b.records
    requires forall i, j :: 0 <= i < j < |ids| ==> ids[i] != ids[j]
    requires r.id in ids
    ensures Total(b.(records := b.records[r.id := r]), ids) == Total(b, ids) - b.records[r.id].amount + r.amount
  {
    var n := |ids| - 1;
    var c := b.(records := b.records[r.id := r]);
    if ids[n] == r.id {
      TotalSameAmounts(b, c, ids[..n]);
    } else {
      TotalOverwritten(b, r, ids[..n]);
    }
  }

  lemma OthersKeepAmounts(b: Book, op: Op)
    requires !op.Create? || !Succeeds(b, op)
    ensures var c := Step(b, op);
      c.ids == b.ids && c.records.Keys == b.records.Keys
      && forall id :: id in b.records ==>
           c.records[id].amount == b.records[id].amount && c.records[id].id == b.records[id].id
  {}

  lemma CreateTotal(b: Book, r: EscrowRecord)
    requires BookValid(b) && r.id !in b.records
    ensures BookValid(Put(b, r)) && Total(Put(b, r), Put(b, r).ids) == Total(b, b.ids) + r.amount
  {
    PutValid(b, r);
    TotalSameAmounts(b, Put(b, r), b.ids);
    TotalSnoc(Put(b, r), b.ids, r.id);
  }

  lemma OtherTotal(b: Book, op: Op)
    requires BookValid(b) && (!op.Create? || !Succeeds(b, op))
    ensures BookValid(Step(b, op)) && Total(Step(b, op), Step(b, op).ids) == Total(b, b.ids)
  {
    OthersKeepAmounts(b, op);
    TotalSameAmounts(b, Step(b, op), b.ids);
  }

  lemma {:induction false} TotalIsEscrowed(ops: seq<Op>)
    requires FreshIds(ops)
    ensures BookValid(Run(ops)) && Total(Run(ops), Run(ops).ids) == Escrowed(ops)
  {
    if ops != [] {
      TotalIsEscrowed(ops[..|ops| - 1]);
      var b, op := Run(ops[..|ops| - 1]), ops[|ops| - 1];
      if op.Create? && Succeeds(b, op) {
        CreateTotal(b, NewRecord(op.id, op.caller.value, op.params, op.defaultArbiter, op.now));
      } else {
        OtherTotal(b, op);
      }
    }
  }

  /** The amounts in the seven states always add up to everything ever escrowed. */
  lemma {:induction false} AmountsConserved(ops: seq<Op>)
    requires FreshIds(ops)
    ensures BookValid(Run(ops))
    ensures var b := Run(ops);
      Escrowed(ops) == TotalIn(b, b.ids, Pending) + TotalIn(b, b.ids, Locked) + TotalIn(b, b.ids, Released)
                     + TotalIn(b, b.ids, Refunded) + TotalIn(b, b.ids, Disputed) + TotalIn(b, b.ids, Resolved)
                     + TotalIn(b, b.ids, Expired)
  {
    TotalIsEscrowed(ops);
    Partition(Run(ops), Run(ops).ids);
  }

  /** A creation adds its amount to the total exactly when the identifier was not taken, or by
      an escrow of amount zero. */
  lemma CreationAddsIff(b: Book, op: Op)
    requires BookValid(b) && op.Create? && Succeeds(b, op)
    ensures BookValid(Step(b, op))
    ensures Total(Step(b, op), Step(b, op).ids) == Total(b, b.ids) + op.params.amount
       <==> op.id !in b.records || b.records[op.id].amount == 0
  {
    var r := NewRecord(op.id, op.caller.value, op.params, op.defaultArbiter, op.now);
    PutValid(b, r);
    if op.id !in b.records {
      CreateTotal(b, r);
    } else {
      TotalOverwritten(b, r, b.ids);
    }
  }

  // The actions offered to a user.

  datatype Action = DoRelease | DoRefund | DoDispute

  /** Two for the payer, one for the recipient. */
  function Roles(r: EscrowRecord, user: string): nat {
    (if SameAddress(user, r.payer) then 2 else 0) + if SameAddress(user, r.recipient) then 1 else 0
  }

  method GetAvailableActions(r: EscrowRecord, user: string, now: int) returns (actions: seq<Action>)
    ensures DoRelease in actions <==> r.state == Locked && SameAddress(user, r.payer) && now < r.expiresAt
    ensures DoRefund in actions <==> r.state == Locked && SameAddress(user, r.payer) && now >= r.expiresAt
    ensures DoDispute in actions
       <==> r.state == Locked && (SameAddress(user, r.payer) || SameAddress(user, r.recipient)) && now < r.expiresAt
    ensures actions != [] ==>
      |actions| == if now >= r.expiresAt then 1 else Roles(r, user)
  {
    actions := [];
    if r.state != Locked {
      return;
    }
    if now >= r.expiresAt {
      if Lower(user) == Lower(r.payer) {
        actions := actions + [DoRefund];
      }
      return;
    }
    if Lower(user) == Lower(r.payer) {
      actions := actions + [DoRelease, DoDispute];
    }
    if Lower(user) == Lower(r.recipient) {
      actions := actions + [DoDispute];
    }
  }

  /** Every action offered is accepted by its operation. The operations accept more: an action is
      offered exactly when it is accepted and, besides, the expiry is ahead (refund: behind). */
  method OfferedActionsAreAccepted(b: Book, id: string, user: string, now: int) returns (actions: seq<Action>)
    requires BookValid(b) && id in b.records
    ensures DoRelease in actions <==> PayerCheck(b, id, Some(user)) == None && now < b.records[id].expiresAt
    ensures DoRefund in actions <==> PayerCheck(b, id, Some(user)) == None && now >= b.records[id].expiresAt
    ensures DoDispute in actions <==> DisputeCheck(b, id, Some(user)) == None && now < b.records[id].expiresAt
  {
    actions := GetAvailableActions(b.records[id], user, now);
  }

  /** `isEscrowExpired` and the sweep differ at one instant: an escrow that still counts as
      expired after a sweep is locked and expires at that very moment. */
  lemma ExpiredAfterSweep(b: Book, id: string, now: int)
    requires id in b.records
    ensures var r := Step(b, CheckExpired(now)).records[id];
      (now >= r.expiresAt && r.state == Locked) <==> (b.records[id].state == Locked && b.records[id].expiresAt == now)
  {}
}
