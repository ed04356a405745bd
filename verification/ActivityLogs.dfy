/** The activity log and its background sync (wallet-sdk/src/memory/ActivityLog.ts,
    wallet-sdk/src/memory/MemoryClient.ts). */
module ActivityLogs {
  import opened Outcomes
  import opened Sequences

  datatype SyncStatus = PendingSync | Synced | Conflict

  datatype ActionType = Transaction | Signature | Decision | ErrorAction

  datatype Entry = Entry(id: nat, agentId: string, actionType: ActionType, timestamp: int, data: string,
                         syncStatus: SyncStatus, version: int)

  // An entry handed to `import`; its own id is ignored, status and version may be missing.
  datatype Imported = Imported(agentId: string, actionType: ActionType, timestamp: int, data: string,
                               syncStatus: Option<SyncStatus>, version: Option<int>)

  datatype Log = Log(entries: seq<Entry>, nextId: nat)

  predicate SameKey(e: Entry, i: Imported) {
    e.agentId == i.agentId && e.timestamp == i.timestamp && e.actionType == i.actionType
  }

  predicate HasDuplicate(entries: seq<Entry>, i: Imported) {
    exists k :: 0 <= k < |entries| && SameKey(entries[k], i)
  }

  function FromImport(id: nat, i: Imported): Entry {
    Entry(id, i.agentId, i.actionType, i.timestamp, i.data,
          if i.syncStatus.Some? then i.syncStatus.value else PendingSync,
          if i.version.Some? then i.version.value else 1)
  }

  function Append(l: Log, agentId: string, actionType: ActionType, data: string, now: int): Log {
    Log(l.entries + [Entry(l.nextId, agentId, actionType, now, data, PendingSync, 1)], l.nextId + 1)
  }

  function ImportOne(l: Log, i: Imported): Log {
    if HasDuplicate(l.entries, i) then l else Log(l.entries + [FromImport(l.nextId, i)], l.nextId + 1)
  }

  function ImportAll(l: Log, imports: seq<Imported>): Log {
    if imports == [] then l else ImportOne(ImportAll(l, imports[..|imports| - 1]), imports[|imports| - 1])
  }

  function Filter(entries: seq<Entry>, keep: Entry -> bool): seq<Entry> {
    if entries == [] then []
    else
      var last := entries[|entries| - 1];
      Filter(entries[..|entries| - 1], keep) + if keep(last) then [last] else []
  }

  /** Filtering keeps each entry that qualifies as often as it was there, and no other. */
  lemma {:induction false} FilterCounts(entries: seq<Entry>, keep: Entry -> bool, e: Entry)
    ensures multiset(Filter(entries, keep))[e] == if keep(e) then multiset(entries)[e] else 0
  {
    if entries != [] {
      var front, last := entries[..|entries| - 1], entries[|entries| - 1];
      FilterCounts(front, keep, e);
      assert entries == front + [last];
    }
  }

  lemma {:induction false} FilterInOrder(entries: seq<Entry>, keep: Entry -> bool)
    ensures Subsequence(Filter(entries, keep), entries)
  {
    if entries == [] {
      EmptySubsequence(entries);
    } else {
      var front, last := entries[..|entries| - 1], entries[|entries| - 1];
      FilterInOrder(front, keep);
      SubsequenceSnoc(Filter(front, keep), front, last, keep(last));
      assert entries == front + [last];
    }
  }

  /** What remains of a log from which some entries were removed: those that stay, in their order and as
      often as they were there. */
  ghost predicate Keeps(before: seq<Entry>, after: seq<Entry>) {
    && Subsequence(after, before)
    && forall e :: e in after ==> e in before && multiset(after)[e] == multiset(before)[e]
  }

  lemma FilterMembers(entries: seq<Entry>, keep: Entry -> bool)
    ensures Keeps(entries, Filter(entries, keep)) && forall e :: e in Filter(entries, keep) <==> e in entries && keep(e)
  {
    FilterInOrder(entries, keep);
    forall e ensures multiset(Filter(entries, keep))[e] == if keep(e) then multiset(entries)[e] else 0 {
      FilterCounts(entries, keep, e);
    }
    forall e ensures e in Filter(entries, keep) <==> multiset(Filter(entries, keep))[e] > 0 {}
    forall e ensures e in entries <==> multiset(entries)[e] > 0 {}
  }

  /** Index of the first entry with an id, or the length. */
  function Find(entries: seq<Entry>, id: nat): (k: nat)
    ensures k <= |entries| && (k < |entries| ==> entries[k].id == id)
    ensures forall j :: 0 <= j < k ==> entries[j].id != id
  {
    if entries == [] then 0
    else if entries[0].id == id then 0
    else 1 + Find(entries[1..], id)
  }

  function Delete(l: Log, id: nat): Log {
    var k := Find(l.entries, id);
    if k == |l.entries| then l else l.(entries := l.entries[..k] + l.entries[k + 1..])
  }

  /** Whether a retention sweep keeps an entry. */
  function KeepsNewer(cutoff: int, agentId: string, onlySynced: bool): Entry -> bool {
    (e: Entry) => e.timestamp >= cutoff || (agentId != "" && e.agentId != agentId)
      || (onlySynced && e.syncStatus != Synced)
  }

  function NotOfAgent(agentId: string): Entry -> bool {
    (e: Entry) => e.agentId != agentId
  }

  function IsPending(): Entry -> bool {
    (e: Entry) => e.syncStatus == PendingSync
  }

  function Acknowledge(e: Entry): Entry {
    e.(syncStatus := Synced, version := e.version + 1)
  }

  function MarkOne(l: Log, id: nat): Log {
    var k := Find(l.entries, id);
    if k == |l.entries| then l else l.(entries := l.entries[k := Acknowledge(l.entries[k])])
  }

  function MarkAll(l: Log, ids: seq<nat>): Log {
    if ids == [] then l else MarkOne(MarkAll(l, ids[..|ids| - 1]), ids[|ids| - 1])
  }

  function Ids(entries: seq<Entry>): (ids: seq<nat>)
    ensures |ids| == |entries| && forall i :: 0 <= i < |ids| ==> ids[i] == entries[i].id
  {
    seq(|entries|, i requires 0 <= i < |entries| => entries[i].id)
  }

  function Minus(ids: seq<nat>, conflicts: seq<nat>): (r: seq<nat>)
    ensures forall x :: x in r <==> x in ids && x !in conflicts
  {
    if ids == [] then []
    else
      var last := ids[|ids| - 1];
      Minus(ids[..|ids| - 1], conflicts) + if last in conflicts then [] else [last]
  }

  predicate IsFirst(entries: seq<Entry>, k: nat, id: nat) {
    k < |entries| && entries[k].id == id && forall j :: 0 <= j < k ==> entries[j].id != id
  }

  /** A version rises when its entry becomes synced. */
  function Bump(status: SyncStatus): int {
    if status == Synced then 1 else 0
  }

  /** Entry `e` is the imported entry under a new id; a missing status is pending, a missing version 1. */
  predicate TakenOver(e: Entry, i: Imported) {
    && e.agentId == i.agentId && e.actionType == i.actionType && e.timestamp == i.timestamp && e.data == i.data
    && (i.syncStatus.Some? ==> e.syncStatus == i.syncStatus.value)
      && (i.syncStatus == None ==> e.syncStatus == PendingSync)
    && (i.version.Some? ==> e.version == i.version.value) && (i.version == None ==> e.version == 1)
  }

  predicate SameMoment(a: Entry, agentId: string, timestamp: int, actionType: ActionType) {
    a.agentId == agentId && a.timestamp == timestamp && a.actionType == actionType
  }

  /** An import keeps what was there and appends under the next ids, */
  predicate Appends(before: Log, after: Log) {
    && before.entries <= after.entries && after.nextId == before.nextId + |after.entries| - |before.entries|
    && forall k :: |before.entries| <= k < |after.entries| ==>
         after.entries[k].id == before.nextId + k - |before.entries|
  }

  /** entries taken over from the imported ones, */
  predicate AllTakenOver(before: Log, imports: seq<Imported>, after: Log) {
    forall k :: |before.entries| <= k < |after.entries| ==> exists i :: i in imports && TakenOver(after.entries[k], i)
  }

  /** none of the agent, time and action of an earlier entry; */
  predicate NoneRepeats(before: Log, after: Log) {
    forall j, k :: 0 <= j < k && |before.entries| <= k < |after.entries| ==>
      !SameMoment(after.entries[j], after.entries[k].agentId, after.entries[k].timestamp, after.entries[k].actionType)
  }

  /** and afterwards each imported one is matched. */
  predicate AllMatched(imports: seq<Imported>, after: Log) {
    forall i :: i in imports ==> Matched(after.entries, i)
  }

  predicate Matched(entries: seq<Entry>, i: Imported) {
    exists k :: 0 <= k < |entries| && SameMoment(entries[k], i.agentId, i.timestamp, i.actionType)
  }

  /** Entry `k`, the first with this id, has the new status, and nothing else differs but its version. */
  predicate UpdatedAt(before: seq<Entry>, after: seq<Entry>, k: nat, id: nat, status: SyncStatus) {
    && IsFirst(before, k, id) && |after| == |before|
    && after == before[k := before[k].(syncStatus := status, version := before[k].version + Bump(status))]
  }

  lemma {:induction false} ImportAppends(l: Log, imports: seq<Imported>)
    ensures Appends(l, ImportAll(l, imports))
  {
    if imports != [] { ImportAppends(l, imports[..|imports| - 1]); }
  }

  lemma {:induction false} ImportTakesOver(l: Log, imports: seq<Imported>)
    ensures AllTakenOver(l, imports, ImportAll(l, imports))
  {
    if imports != [] {
      var front, last := imports[..|imports| - 1], imports[|imports| - 1];
      ImportTakesOver(l, front);
      var s, t := ImportAll(l, front), ImportAll(l, imports);
      forall k | |l.entries| <= k < |t.entries| ensures exists i :: i in imports && TakenOver(t.entries[k], i) {
        if k < |s.entries| {
          var i :| i in front && TakenOver(s.entries[k], i);
          assert i in imports;
        } else {
          assert last in imports && TakenOver(t.entries[k], last);
        }
      }
    }
  }

  lemma {:induction false} ImportRepeatsNone(l: Log, imports: seq<Imported>)
    ensures NoneRepeats(l, ImportAll(l, imports))
  {
    if imports != [] {
      var front, last := imports[..|imports| - 1], imports[|imports| - 1];
      ImportRepeatsNone(l, front);
      var s, t := ImportAll(l, front), ImportAll(l, imports);
      if !HasDuplicate(s.entries, last) {
        forall j | 0 <= j < |s.entries|
          ensures !SameMoment(t.entries[j], last.agentId, last.timestamp, last.actionType)
        {
          assert !SameKey(s.entries[j], last);
        }
      }
    }
  }

  lemma MatchedStays(s: Log, last: Imported, i: Imported)
    requires Matched(s.entries, i)
    ensures Matched(ImportOne(s, last).entries, i)
  {
    var k :| 0 <= k < |s.entries| && SameMoment(s.entries[k], i.agentId, i.timestamp, i.actionType);
    assert ImportOne(s, last).entries[k] == s.entries[k];
  }

  lemma LastMatched(s: Log, last: Imported)
    ensures Matched(ImportOne(s, last).entries, last)
  {
    var t := ImportOne(s, last);
    if HasDuplicate(s.entries, last) {
      var k :| 0 <= k < |s.entries| && SameKey(s.entries[k], last);
      assert SameMoment(t.entries[k], last.agentId, last.timestamp, last.actionType);
    } else {
      assert SameMoment(t.entries[|s.entries|], last.agentId, last.timestamp, last.actionType);
    }
  }

  lemma {:induction false} ImportMatchesAll(l: Log, imports: seq<Imported>)
    ensures AllMatched(imports, ImportAll(l, imports))
  {
    if imports != [] {
      var front, last := imports[..|imports| - 1], imports[|imports| - 1];
      ImportMatchesAll(l, front);
      assert imports == front + [last];
      LastMatched(ImportAll(l, front), last);
      forall i | i in front ensures Matched(ImportAll(l, imports).entries, i) {
        MatchedStays(ImportAll(l, front), last, i);
      }
    }
  }

  class ActivityLog {
    var entries: seq<Entry>
    var nextId: nat

    function Contents(): Log
      reads this
    {
      Log(entries, nextId)
    }

    constructor ()
      ensures Contents() == Log([], 1)
    {
      entries, nextId := [], 1;
    }

    method LogActivity(agentId: string, actionType: ActionType, data: string, now: int) returns (e: Entry)
      modifies this
      ensures Contents() == Append(old(Contents()), agentId, actionType, data, now)
      ensures entries == old(entries) + [e] && nextId == old(nextId) + 1
      ensures e.id == old(nextId) && e.agentId == agentId && e.actionType == actionType && e.timestamp == now
      ensures e.data == data && e.syncStatus == PendingSync && e.version == 1
    {
      e := Entry(nextId, agentId, actionType, now, data, PendingSync, 1);
      nextId := nextId + 1;
      entries := entries + [e];
    }

    method Import(imports: seq<Imported>) returns (imported: nat)
      modifies this
      ensures Contents() == ImportAll(old(Contents()), imports) && imported == |entries| - |old(entries)|
      ensures Appends(old(Contents()), Contents()) && AllTakenOver(old(Contents()), imports, Contents())
      ensures NoneRepeats(old(Contents()), Contents()) && AllMatched(imports, Contents())
    {
      ghost var before := Contents();
      imported := ImportEach(imports);
      ImportAppends(before, imports);
      ImportTakesOver(before, imports);
      ImportRepeatsNone(before, imports);
      ImportMatchesAll(before, imports);
    }

    method ImportEach(imports: seq<Imported>) returns (imported: nat)
      modifies this
      ensures Contents() == ImportAll(old(Contents()), imports)
      ensures imported == |entries| - |old(entries)|
    {
      imported := 0;
      for k := 0 to |imports|
        invariant Contents() == ImportAll(old(Contents()), imports[..k])
        invariant |entries| == |old(entries)| + imported
      {
        assert imports[..k + 1][..k] == imports[..k];
        var duplicate := false;
        for j := 0 to |entries|
          invariant duplicate <==> exists m :: 0 <= m < j && SameKey(entries[m], imports[k])
        {
          if SameKey(entries[j], imports[k]) { duplicate := true; }
        }
        if !duplicate {
          entries := entries + [FromImport(nextId, imports[k])];
          nextId := nextId + 1;
          imported := imported + 1;
        }
      }
      assert imports[..|imports|] == imports;
    }

    method FindIndex(id: nat) returns (k: nat)
      ensures k == Find(entries, id)
    {
      k := 0;
      while k < |entries| && entries[k].id != id
        invariant k <= |entries| && Find(entries, id) == k + Find(entries[k..], id)
      {
        assert entries[k..][1..] == entries[k + 1..];
        k := k + 1;
      }
    }

    method DeleteEntry(id: nat) returns (found: bool)
      modifies this
      ensures Contents() == Delete(old(Contents()), id)
      ensures found <==> exists k :: 0 <= k < |old(entries)| && old(entries)[k].id == id
      ensures !found ==> entries == old(entries)
      ensures found ==> exists k :: 0 <= k < |old(entries)| && IsFirst(old(entries), k, id)
                                    && entries == old(entries)[..k] + old(entries)[k + 1..]
      ensures nextId == old(nextId)
    {
      var k := FindIndex(id);
      if k == |entries| { return false; }
      assert IsFirst(entries, k, id);
      entries := entries[..k] + entries[k + 1..];
      found := true;
    }

    method KeepOnly(keep: Entry -> bool)
      modifies this
      ensures Contents() == old(Contents()).(entries := Filter(old(entries), keep))
    {
      var kept: seq<Entry> := [];
      for k := 0 to |entries|
        invariant Contents() == old(Contents()) && kept == Filter(entries[..k], keep)
      {
        assert entries[..k + 1][..k] == entries[..k];
        if keep(entries[k]) { kept := kept + [entries[k]]; }
      }
      assert entries[..|entries|] == entries;
      entries := kept;
    }

    method Clear()
      modifies this
      ensures Contents() == Log([], 1)
    {
      entries, nextId := [], 1;
    }

    method ClearAgent(agentId: string)
      modifies this
      ensures Contents() == old(Contents()).(entries := Filter(old(entries), NotOfAgent(agentId)))
      ensures Keeps(old(entries), entries) && nextId == old(nextId)
      ensures forall e :: e in entries <==> e in old(entries) && e.agentId != agentId
    {
      FilterMembers(entries, NotOfAgent(agentId));
      KeepOnly(NotOfAgent(agentId));
    }

    method DeleteOlderThan(maxAge: int, agentId: string, onlySynced: bool, now: int) returns (deleted: int)
      modifies this
      ensures Contents()
        == old(Contents()).(entries := Filter(old(entries), KeepsNewer(now - maxAge, agentId, onlySynced)))
      ensures deleted == |old(entries)| - |entries|
      ensures Keeps(old(entries), entries) && nextId == old(nextId)
      ensures forall e :: e in old(entries) ==>
        (e !in entries <==> e.timestamp < now - maxAge && (agentId == "" || e.agentId == agentId)
                            && (onlySynced ==> e.syncStatus == Synced))
    {
      FilterMembers(entries, KeepsNewer(now - maxAge, agentId, onlySynced));
      var before := |entries|;
      KeepOnly(KeepsNewer(now - maxAge, agentId, onlySynced));
      deleted := before - |entries|;
    }

    method GetPendingSync() returns (pending: seq<Entry>)
      ensures pending == Filter(entries, IsPending())
      ensures Keeps(entries, pending)
      ensures forall e :: e in pending <==> e in entries && e.syncStatus == PendingSync
    {
      FilterMembers(entries, IsPending());
      pending := [];
      for k := 0 to |entries|
        invariant pending == Filter(entries[..k], IsPending())
      {
        assert entries[..k + 1][..k] == entries[..k];
        if entries[k].syncStatus == PendingSync { pending := pending + [entries[k]]; }
      }
      assert entries[..|entries|] == entries;
    }

    method UpdateSyncStatus(id: nat, status: SyncStatus) returns (found: bool)
      modifies this
      ensures found <==> exists k :: 0 <= k < |old(entries)| && old(entries)[k].id == id
      ensures !found ==> entries == old(entries)
      ensures found ==> exists k :: UpdatedAt(old(entries), entries, k, id, status)
      ensures nextId == old(nextId)
      ensures status == Synced ==> Contents() == MarkOne(old(Contents()), id)
      ensures status != Synced && !found ==> Contents() == old(Contents())
      ensures status != Synced && found ==>
        var k := Find(old(entries), id);
        Contents() == old(Contents()).(entries := old(entries)[k := old(entries)[k].(syncStatus := status)])
    {
      var k := FindIndex(id);
      if k == |entries| { return false; }
      assert IsFirst(entries, k, id);
      var e := entries[k].(syncStatus := status);
      if status == Synced { e := e.(version := e.version + 1); }
      entries := entries[k := e];
      assert UpdatedAt(old(entries), entries, k, id, status);
      found := true;
    }

    method MarkSynced(ids: seq<nat>)
      modifies this
      ensures Contents() == MarkAll(old(Contents()), ids)
    {
      for k := 0 to |ids|
        invariant Contents() == MarkAll(old(Contents()), ids[..k])
      {
        assert ids[..k + 1][..k] == ids[..k];
        var found := UpdateSyncStatus(ids[k], Synced);
      }
      assert ids[..|ids|] == ids;
    }
  }

  /** The two halves of a background sync, before and after the answer is awaited. */
  class MemoryClient {
    const activityLog: ActivityLog
    var lastSyncToken: Option<string>

    constructor (activityLog: ActivityLog, stored: Option<string>)
      ensures this.activityLog == activityLog && lastSyncToken == stored
    {
      this.activityLog, lastSyncToken := activityLog, stored;
    }

    /** None when there is nothing to send. */
    method SyncBegin() returns (request: Option<seq<Entry>>)
      ensures var pending := Filter(activityLog.entries, IsPending());
        request == if pending == [] then None else Some(pending)
      ensures request == None <==> forall e :: e in activityLog.entries ==> e.syncStatus != PendingSync
      ensures request.Some? ==>
        forall e :: e in request.value <==> e in activityLog.entries && e.syncStatus == PendingSync
    {
      var pending := activityLog.GetPendingSync();
      assert pending == [] <==> forall e :: e in activityLog.entries ==> e.syncStatus != PendingSync by {
        if pending != [] { assert pending[0] in pending; }
      }
      request := if |pending| == 0 then None else Some(pending);
    }

    method SyncEnd(pending: seq<Entry>, conflicts: seq<nat>, syncToken: string)
      modifies this, activityLog
      ensures activityLog.Contents() == MarkAll(old(activityLog.Contents()), Minus(Ids(pending), conflicts))
      ensures lastSyncToken == Some(syncToken)
    {
      var syncedIds: seq<nat> := [];
      for k := 0 to |pending|
        invariant activityLog.Contents() == old(activityLog.Contents())
        invariant syncedIds == Minus(Ids(pending)[..k], conflicts)
      {
        assert Ids(pending)[..k + 1][..k] == Ids(pending)[..k];
        if pending[k].id !in conflicts { syncedIds := syncedIds + [pending[k].id]; }
      }
      assert Ids(pending)[..|pending|] == Ids(pending);
      activityLog.MarkSynced(syncedIds);
      lastSyncToken := Some(syncToken);
    }
  }
}
