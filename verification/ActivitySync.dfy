/** Background sync over whole runs: requests overlap with each other and with every change of the
    log (wallet-sdk/src/memory/MemoryClient.ts, wallet-sdk/src/memory/ActivityLog.ts). */
module ActivitySync {
  import opened ActivityLogs
  import opened Positional
  import opened Sequences

  // A request that came back: the entries it carried and the ids answered as conflicts.
  datatype Request = Request(pending: seq<Entry>, conflicts: seq<nat>)

  datatype State = State(
    log: Log,
    flights: map<nat, seq<Entry>>,   // requests awaiting their answer
    created: map<nat, Entry>,        // every entry as it was logged or imported, by id
    acked: seq<Request>)             // successful answers

  datatype Event =
    | LogEntry(agentId: string, actionType: ActionType, data: string, now: int)
    | ImportEntries(imports: seq<Imported>)
    | DeleteEntry(id: nat)
    | DeleteOlder(cutoff: int, agentId: string, onlySynced: bool)
    | ClearAgent(agentId: string)
    | ClearAll
    | SyncBegin(flight: nat)
    | SyncEnd(flight: nat, conflicts: seq<nat>)
    | SyncFail(flight: nat)

  function CreateImported(s: State, i: Imported): State {
    if HasDuplicate(s.log.entries, i) then s
    else s.(log := ImportOne(s.log, i), created := s.created[s.log.nextId := FromImport(s.log.nextId, i)])
  }

  function CreateAll(s: State, imports: seq<Imported>): State {
    if imports == [] then s else CreateImported(CreateAll(s, imports[..|imports| - 1]), imports[|imports| - 1])
  }

  function Keep(s: State, keep: Entry -> bool): State {
    s.(log := s.log.(entries := Filter(s.log.entries, keep)))
  }

  function Step(s: State, e: Event): State {
    match e
    case LogEntry(agentId, actionType, data, now) =>
      var l := Append(s.log, agentId, actionType, data, now);
      s.(log := l, created := s.created[s.log.nextId := l.entries[|l.entries| - 1]])
    case ImportEntries(imports) => CreateAll(s, imports)
    case DeleteEntry(id) => s.(log := Delete(s.log, id))
    case DeleteOlder(cutoff, agentId, onlySynced) => Keep(s, KeepsNewer(cutoff, agentId, onlySynced))
    case ClearAgent(agentId) => Keep(s, NotOfAgent(agentId))
    case ClearAll => s.(log := Log([], 1), created := map[], acked := [])
    case SyncBegin(flight) =>
      var pending := Filter(s.log.entries, IsPending());
      if pending == [] || flight in s.flights then s else s.(flights := s.flights[flight := pending])
    case SyncEnd(flight, conflicts) =>
      if flight !in s.flights then s
      else
        var pending := s.flights[flight];
        s.(log := MarkAll(s.log, Minus(Ids(pending), conflicts)), flights := s.flights - {flight},
           acked := s.acked + [Request(pending, conflicts)])
    case SyncFail(flight) => s.(flights := s.flights - {flight})
  }

  const INITIAL := State(Log([], 1), map[], map[], [])

  function Run(events: seq<Event>): State {
    if events == [] then INITIAL else Step(Run(events[..|events| - 1]), events[|events| - 1])
  }

  predicate Acknowledges(r: Request, id: nat) {
    id in Ids(r.pending) && id !in r.conflicts
  }

  /** How many answered requests acknowledged an id. */
  function AckCount(acked: seq<Request>, id: nat): nat {
    if acked == [] then 0
    else AckCount(acked[..|acked| - 1], id) + if Acknowledges(acked[|acked| - 1], id) then 1 else 0
  }

  predicate SameActivity(a: Entry, b: Entry) {
    a.id == b.id && a.agentId == b.agentId && a.actionType == b.actionType && a.timestamp == b.timestamp
      && a.data == b.data
  }

  predicate Rising(entries: seq<Entry>) {
    forall i, j :: 0 <= i < j < |entries| ==> entries[i].id < entries[j].id
  }

  /** What an entry has become after n acknowledgements. */
  function Acknowledged(e: Entry, n: nat): Entry {
    e.(syncStatus := if n > 0 then Synced else e.syncStatus, version := e.version + n)
  }

  /** Entries in a request are entries that were created, with their contents. */
  predicate Genuine(pending: seq<Entry>, created: map<nat, Entry>) {
    && Rising(pending)
    && forall p :: p in pending ==> p.id in created && SameActivity(p, created[p.id])
  }

  predicate LogInv(l: Log, created: map<nat, Entry>, acked: seq<Request>) {
    && Rising(l.entries)
    && (forall e :: e in l.entries ==> e.id in created && e == Acknowledged(created[e.id], AckCount(acked, e.id)))
    && l.nextId >= 1 && (forall id :: id in created ==> 1 <= id < l.nextId && created[id].id == id)
  }

  predicate Inv(s: State) {
    && LogInv(s.log, s.created, s.acked)
    && (forall f :: f in s.flights ==> s.flights[f] != [] && Genuine(s.flights[f], s.created))
    && (forall k :: 0 <= k < |s.acked| ==> Genuine(s.acked[k].pending, s.created))
  }

  lemma {:induction false} UncreatedUnacked(acked: seq<Request>, created: map<nat, Entry>, id: nat)
    requires forall k :: 0 <= k < |acked| ==> Genuine(acked[k].pending, created)
    requires id !in created
    ensures AckCount(acked, id) == 0
  {
    if acked != [] {
      UncreatedUnacked(acked[..|acked| - 1], created, id);
      var r := acked[|acked| - 1];
      assert Genuine(r.pending, created);
      assert forall i :: 0 <= i < |r.pending| ==> r.pending[i] in r.pending && r.pending[i].id != id;
      assert id !in Ids(r.pending);
    }
  }

  lemma AddEntry(s: State, e: Entry)
    requires Inv(s) && e.id == s.log.nextId
    ensures Inv(s.(log := Log(s.log.entries + [e], s.log.nextId + 1), created := s.created[e.id := e]))
  {
    UncreatedUnacked(s.acked, s.created, e.id);
    var created := s.created[e.id := e];
    forall f | f in s.flights ensures Genuine(s.flights[f], created) {}
    forall k | 0 <= k < |s.acked| ensures Genuine(s.acked[k].pending, created) {}
  }

  lemma {:induction false} CreateAllPreserves(s: State, imports: seq<Imported>)
    requires Inv(s)
    ensures Inv(CreateAll(s, imports)) && CreateAll(s, imports).log == ImportAll(s.log, imports)
  {
    if imports != [] {
      var front, last := imports[..|imports| - 1], imports[|imports| - 1];
      CreateAllPreserves(s, front);
      var t := CreateAll(s, front);
      if !HasDuplicate(t.log.entries, last) { AddEntry(t, FromImport(t.log.nextId, last)); }
    }
  }

  lemma {:induction false} FilterKeeps(entries: seq<Entry>, keep: Entry -> bool)
    requires Rising(entries)
    ensures Rising(Filter(entries, keep)) && forall e :: e in Filter(entries, keep) <==> e in entries && keep(e)
  {
    if entries != [] {
      var front, last := entries[..|entries| - 1], entries[|entries| - 1];
      FilterKeeps(front, keep);
      var kept := Filter(front, keep);
      forall i | 0 <= i < |kept| ensures kept[i].id < last.id {
        assert kept[i] in kept;
        assert kept[i] in front;
      }
    }
  }

  lemma KeepPreserves(s: State, keep: Entry -> bool)
    requires Inv(s)
    ensures Inv(Keep(s, keep))
  {
    FilterKeeps(s.log.entries, keep);
  }

  /** `markSynced` acknowledges each listed entry that is still there once, and no other. */
  lemma {:induction false} MarkAllEffect(l: Log, ids: seq<nat>)
    requires Rising(l.entries) && Distinct(ids)
    ensures var t := MarkAll(l, ids);
      t.nextId == l.nextId && |t.entries| == |l.entries|
      && forall k :: 0 <= k < |l.entries| ==>
        t.entries[k] == if l.entries[k].id in ids then Acknowledge(l.entries[k]) else l.entries[k]
  {
    if ids != [] {
      var front, id := ids[..|ids| - 1], ids[|ids| - 1];
      MarkAllEffect(l, front);
      assert ids == front + [id];
    }
  }

  lemma {:induction false} MinusDistinct(ids: seq<nat>, conflicts: seq<nat>)
    requires Distinct(ids)
    ensures Distinct(Minus(ids, conflicts))
    ensures forall id :: id in Minus(ids, conflicts) <==> id in ids && id !in conflicts
  {
    if ids != [] {
      var n := |ids| - 1;
      MinusDistinct(ids[..n], conflicts);
      assert ids[n] !in ids[..n];
    }
  }

  lemma AckCountSnoc(acked: seq<Request>, r: Request, id: nat)
    ensures AckCount(acked + [r], id) == AckCount(acked, id) + if Acknowledges(r, id) then 1 else 0
  {
    assert (acked + [r])[..|acked|] == acked;
  }

  lemma MarkAllKeepsLog(l: Log, created: map<nat, Entry>, acked: seq<Request>, r: Request)
    requires LogInv(l, created, acked) && Distinct(Ids(r.pending))
    ensures LogInv(MarkAll(l, Minus(Ids(r.pending), r.conflicts)), created, acked + [r])
  {
    var ids := Minus(Ids(r.pending), r.conflicts);
    MinusDistinct(Ids(r.pending), r.conflicts);
    MarkAllEffect(l, ids);
    var t := MarkAll(l, ids);
    forall k | 0 <= k < |t.entries|
      ensures var e := t.entries[k];
        e.id == l.entries[k].id && e.id in created && e == Acknowledged(created[e.id], AckCount(acked + [r], e.id))
    {
      assert l.entries[k] in l.entries;
      AckCountSnoc(acked, r, l.entries[k].id);
    }
  }

  lemma EndPreserves(s: State, flight: nat, conflicts: seq<nat>)
    requires Inv(s)
    ensures Inv(Step(s, SyncEnd(flight, conflicts)))
  {
    if flight in s.flights {
      assert Genuine(s.flights[flight], s.created);
      MarkAllKeepsLog(s.log, s.created, s.acked, Request(s.flights[flight], conflicts));
    }
  }

  lemma BeginPreserves(s: State, flight: nat)
    requires Inv(s)
    ensures Inv(Step(s, SyncBegin(flight)))
  {
    FilterKeeps(s.log.entries, IsPending());
  }

  lemma DeletePreserves(s: State, id: nat)
    requires Inv(s)
    ensures Inv(Step(s, DeleteEntry(id)))
  {}

  /** `clear()` only while no request is awaiting its answer. */
  predicate ClearsWhenIdle(events: seq<Event>) {
    events != [] ==>
      && ClearsWhenIdle(events[..|events| - 1])
      && (events[|events| - 1].ClearAll? ==> Run(events[..|events| - 1]).flights == map[])
  }

  lemma StepPreserves(s: State, e: Event)
    requires Inv(s) && (e.ClearAll? ==> s.flights == map[])
    ensures Inv(Step(s, e))
  {
    match e
    case LogEntry(agentId, actionType, data, now) =>
      AddEntry(s, Entry(s.log.nextId, agentId, actionType, now, data, PendingSync, 1));
    case ImportEntries(imports) => CreateAllPreserves(s, imports);
    case DeleteEntry(id) => DeletePreserves(s, id);
    case DeleteOlder(cutoff, agentId, onlySynced) => KeepPreserves(s, KeepsNewer(cutoff, agentId, onlySynced));
    case ClearAgent(agentId) => KeepPreserves(s, NotOfAgent(agentId));
    case ClearAll =>
    case SyncBegin(flight) => BeginPreserves(s, flight);
    case SyncEnd(flight, conflicts) => EndPreserves(s, flight, conflicts);
    case SyncFail(flight) =>
  }

  lemma {:induction false} RunKeepsInv(events: seq<Event>)
    requires ClearsWhenIdle(events)
    ensures Inv(Run(events))
  {
    if events != [] {
      RunKeepsInv(events[..|events| - 1]);
      StepPreserves(Run(events[..|events| - 1]), events[|events| - 1]);
    }
  }

  lemma {:induction false} SomeAcknowledgement(acked: seq<Request>, id: nat)
    ensures AckCount(acked, id) > 0 <==> exists k :: 0 <= k < |acked| && Acknowledges(acked[k], id)
  {
    if acked != [] {
      var n := |acked| - 1;
      SomeAcknowledgement(acked[..n], id);
      if Acknowledges(acked[n], id) {
      } else if exists k :: 0 <= k < |acked| && Acknowledges(acked[k], id) {
        var k :| 0 <= k < |acked| && Acknowledges(acked[k], id);
        assert acked[..n][k] == acked[k];
      }
    }
  }

  /** In every run ids stay unique and below `nextId`. An entry is synced exactly when it was
      imported so or an answered request carried that very entry without a conflict; all others
      keep their status; and its version counts those answers. */
  lemma SyncIsTruthful(events: seq<Event>, e: Entry)
    requires ClearsWhenIdle(events) && e in Run(events).log.entries
    ensures var s := Run(events);
      && Rising(s.log.entries) && e.id < s.log.nextId && e.id in s.created && SameActivity(e, s.created[e.id])
      && e.version == s.created[e.id].version + AckCount(s.acked, e.id)
      && (AckCount(s.acked, e.id) == 0 ==> e.syncStatus == s.created[e.id].syncStatus)
      && (AckCount(s.acked, e.id) > 0 ==>
            e.syncStatus == Synced
            && exists k, p :: 0 <= k < |s.acked| && p in s.acked[k].pending && SameActivity(p, e)
                              && e.id !in s.acked[k].conflicts)
  {
    var s := Run(events);
    RunKeepsInv(events);
    SomeAcknowledgement(s.acked, e.id);
    if AckCount(s.acked, e.id) > 0 {
      var k :| 0 <= k < |s.acked| && Acknowledges(s.acked[k], e.id);
      var i :| 0 <= i < |s.acked[k].pending| && Ids(s.acked[k].pending)[i] == e.id;
      var p := s.acked[k].pending[i];
      assert p in s.acked[k].pending && Genuine(s.acked[k].pending, s.created);
      assert SameActivity(p, e);
    }
  }

  /** An entry marked synced, not imported so, although no answered request carried it. */
  predicate SyncedUncarried(s: State, e: Entry) {
    && e in s.log.entries && e.syncStatus == Synced && e.id in s.created && s.created[e.id].syncStatus != Synced
    && forall k, p :: 0 <= k < |s.acked| && p in s.acked[k].pending ==> !SameActivity(p, e)
  }

  ghost predicate Truthful(s: State) {
    forall e :: !SyncedUncarried(s, e)
  }

  /** Every `clear()` among `more`, which follows `events`, waits until no request is under way. */
  predicate LaterClearsIdle(events: seq<Event>, more: seq<Event>) {
    more != [] ==>
      && LaterClearsIdle(events, more[..|more| - 1])
      && (more[|more| - 1].ClearAll? ==> Run(events + more[..|more| - 1]).flights == map[])
  }

  lemma {:induction false} ClearsWhenIdleConcat(events: seq<Event>, more: seq<Event>)
    requires ClearsWhenIdle(events) && LaterClearsIdle(events, more)
    ensures ClearsWhenIdle(events + more)
  {
    if more == [] {
      assert events + more == events;
    } else {
      ClearsWhenIdleConcat(events, more[..|more| - 1]);
      assert (events + more)[..|events + more| - 1] == events + more[..|more| - 1];
    }
  }

  lemma IdleClearsAreTruthful(events: seq<Event>)
    requires ClearsWhenIdle(events)
    ensures Truthful(Run(events))
  {
    var s := Run(events);
    RunKeepsInv(events);
    forall e ensures !SyncedUncarried(s, e) {
      if e in s.log.entries { SyncIsTruthful(events, e); }
    }
  }

  // A request that outlives a clear.

  const AGENT := "agent"

  function Fresh(id: nat, data: string): Entry {
    Entry(id, AGENT, Transaction, 0, data, PendingSync, 1)
  }

  function FreshLog(n: nat, data: string): seq<Entry> {
    seq(n, i requires 0 <= i < n => Fresh(i + 1, data))
  }

  lemma RunSnoc(events: seq<Event>, e: Event)
    ensures Run(events + [e]) == Step(Run(events), e)
  {
    assert (events + [e])[..|events|] == events;
  }

  function Logging(data: string): Event { LogEntry(AGENT, Transaction, data, 0) }

  lemma LogOne(s: State, data: string, n: nat)
    requires s.log == Log(FreshLog(n, data), n + 1)
    ensures var t := Step(s, Logging(data));
      && t.log == Log(FreshLog(n + 1, data), n + 2) && t.flights == s.flights && t.acked == s.acked
      && t.created == s.created[n + 1 := Fresh(n + 1, data)]
  {
    assert FreshLog(n + 1, data) == FreshLog(n, data) + [Fresh(n + 1, data)];
  }

  lemma RepeatSnoc(events: seq<Event>, e: Event, n: nat)
    ensures events + Repeat(e, n + 1) == events + Repeat(e, n) + [e]
  {}

  /** Logging n entries on a cleared log uses the ids 1 to n. */
  lemma {:induction false} LogMany(events: seq<Event>, data: string, n: nat)
    requires Run(events).log == Log([], 1)
    ensures var s, t := Run(events), Run(events + Repeat(Logging(data), n));
      && t.log == Log(FreshLog(n, data), n + 1) && t.flights == s.flights && t.acked == s.acked
      && (n > 0 ==> n in t.created && t.created[n] == Fresh(n, data))
  {
    if n == 0 {
      assert events + Repeat(Logging(data), 0) == events;
    } else {
      LogMany(events, data, n - 1);
      var before := events + Repeat(Logging(data), n - 1);
      RepeatSnoc(events, Logging(data), n - 1);
      RunSnoc(before, Logging(data));
      LogOne(Run(before), data, n - 1);
    }
  }

  lemma {:induction false} NoClearAmong(events: seq<Event>, more: seq<Event>)
    requires forall i :: 0 <= i < |more| ==> !more[i].ClearAll?
    ensures LaterClearsIdle(events, more)
  {
    if more != [] { NoClearAmong(events, more[..|more| - 1]); }
  }

  lemma MarksFresh(pending: seq<Entry>, k: nat, data: string)
    requires Rising(pending) && k < |pending| && pending[k].id >= 1
    ensures var id := pending[k].id;
      var t := MarkAll(Log(FreshLog(id, data), id + 1), Minus(Ids(pending), []));
      |t.entries| == id && t.entries[id - 1] == Acknowledge(Fresh(id, data))
  {
    var l, ids := Log(FreshLog(pending[k].id, data), pending[k].id + 1), Minus(Ids(pending), []);
    assert Ids(pending)[k] == pending[k].id;
    MinusDistinct(Ids(pending), []);
    MarkAllEffect(l, ids);
    assert l.entries[pending[k].id - 1] == Fresh(pending[k].id, data);
  }

  lemma NotAmong(pending: seq<Entry>, k: nat, e: Entry)
    requires Rising(pending) && k < |pending| && e.id == pending[k].id && e.data != pending[k].data
    ensures forall q :: q in pending ==> !SameActivity(q, e)
  {
    forall q | q in pending ensures !SameActivity(q, e) {
      var j :| 0 <= j < |pending| && pending[j] == q;
    }
  }

  /** The answer to a request marks an entry logged since under an id the request carried. */
  lemma AnswerMarksStranger(s: State, f: nat, k: nat, data: string)
    requires f in s.flights && Rising(s.flights[f]) && k < |s.flights[f]| && s.acked == []
    requires var p := s.flights[f][k];
      && p.id >= 1 && data != p.data && s.log == Log(FreshLog(p.id, data), p.id + 1)
      && p.id in s.created && s.created[p.id] == Fresh(p.id, data)
    ensures SyncedUncarried(Step(s, SyncEnd(f, [])), Acknowledge(Fresh(s.flights[f][k].id, data)))
  {
    var pending := s.flights[f];
    MarksFresh(pending, k, data);
    NotAmong(pending, k, Acknowledge(Fresh(pending[k].id, data)));
    assert Step(s, SyncEnd(f, [])).acked == [Request(pending, [])];
  }

  lemma FirstCarried(events: seq<Event>, f: nat)
    requires ClearsWhenIdle(events) && f in Run(events).flights
    ensures var pending := Run(events).flights[f]; pending != [] && Rising(pending) && pending[0].id >= 1
  {
    RunKeepsInv(events);
    assert Run(events).flights[f][0] in Run(events).flights[f];
  }

  /** The continuation that goes wrong after a clear with request f under way. */
  lemma ClearInFlightConfuses(events: seq<Event>, f: nat) returns (more: seq<Event>, e: Entry)
    requires ClearsWhenIdle(events) && f in Run(events).flights
    ensures LaterClearsIdle(events + [ClearAll], more) && SyncedUncarried(Run(events + [ClearAll] + more), e)
  {
    FirstCarried(events, f);
    RunSnoc(events, ClearAll);
    var cleared, pending := events + [ClearAll], Run(events).flights[f];
    var id, data := pending[0].id, pending[0].data + "!";
    assert |data| != |pending[0].data|;
    var logged := Repeat(Logging(data), id);
    LogMany(cleared, data, id);
    AnswerMarksStranger(Run(cleared + logged), f, 0, data);
    RunSnoc(cleared + logged, SyncEnd(f, []));
    more, e := logged + [SyncEnd(f, [])], Acknowledge(Fresh(id, data));
    assert cleared + more == cleared + logged + [SyncEnd(f, [])];
    NoClearAmong(cleared, more);
  }

  lemma BeginsWithPending(s: State, e: Entry, f: nat)
    requires Rising(s.log.entries) && e in s.log.entries && e.syncStatus == PendingSync
    ensures f in Step(s, SyncBegin(f)).flights
  {
    FilterKeeps(s.log.entries, IsPending());
    assert e in Filter(s.log.entries, IsPending());
  }

  lemma OneUnderWay(start: seq<Event>) returns (more: seq<Event>)
    requires Run(start).log == Log([], 1)
    ensures LaterClearsIdle(start, more) && 0 in Run(start + more).flights
  {
    var logged := Repeat(Logging(""), 1);
    LogMany(start, "", 1);
    assert Run(start + logged).log.entries[0] == Fresh(1, "");
    BeginsWithPending(Run(start + logged), Fresh(1, ""), 0);
    RunSnoc(start + logged, SyncBegin(0));
    more := logged + [SyncBegin(0)];
    assert start + more == start + logged + [SyncBegin(0)];
    NoClearAmong(start, more);
  }

  /** Some run does go wrong. */
  lemma SomeClearConfuses()
    ensures exists events, e :: SyncedUncarried(Run(events), e)
  {
    var begun := OneUnderWay([]);
    ClearsWhenIdleConcat([], begun);
    var events := [] + begun;
    var more, e := ClearInFlightConfuses(events, 0);
  }

  /** A `clear()` at some point of a run is safe, whatever follows, exactly when no request is
      awaiting its answer then: otherwise the ids it reuses let an answer mark an entry that no
      request carried. */
  lemma ClearIsSafeIff(events: seq<Event>)
    requires ClearsWhenIdle(events)
    ensures (forall more :: LaterClearsIdle(events + [ClearAll], more) ==> Truthful(Run(events + [ClearAll] + more)))
       <==> Run(events).flights == map[]
  {
    if Run(events).flights == map[] {
      assert (events + [ClearAll])[..|events|] == events;
      forall more | LaterClearsIdle(events + [ClearAll], more) ensures Truthful(Run(events + [ClearAll] + more)) {
        ClearsWhenIdleConcat(events + [ClearAll], more);
        IdleClearsAreTruthful(events + [ClearAll] + more);
      }
    } else {
      var f :| f in Run(events).flights;
      var more, e := ClearInFlightConfuses(events, f);
    }
  }

  lemma {:induction false} ImportedPresent(l: Log, imports: seq<Imported>, i: nat)
    requires i < |imports|
    ensures HasDuplicate(ImportAll(l, imports).entries, imports[i])
  {
    var n := |imports| - 1;
    var before := ImportAll(l, imports[..n]);
    if i < n { ImportedPresent(l, imports[..n], i); }
    var after := ImportOne(before, imports[n]);
    if !HasDuplicate(before.entries, imports[n]) {
      assert SameKey(after.entries[|before.entries|], imports[n]);
    }
    if i < n {
      var k :| 0 <= k < |before.entries| && SameKey(before.entries[k], imports[i]);
      assert after.entries[k] == before.entries[k];
    }
  }

  lemma {:induction false} ImportPresent(l: Log, imports: seq<Imported>)
    requires forall i :: 0 <= i < |imports| ==> HasDuplicate(l.entries, imports[i])
    ensures ImportAll(l, imports) == l
  {
    if imports != [] { ImportPresent(l, imports[..|imports| - 1]); }
  }

  /** Importing the same entries again adds nothing. */
  lemma ImportTwice(l: Log, imports: seq<Imported>)
    ensures ImportAll(ImportAll(l, imports), imports) == ImportAll(l, imports)
  {
    var t := ImportAll(l, imports);
    forall i | 0 <= i < |imports| ensures HasDuplicate(t.entries, imports[i]) { ImportedPresent(l, imports, i); }
    ImportPresent(t, imports);
  }
}
