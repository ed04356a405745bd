/** The L1 scan cursor of the deposit poller (engine/src/sequencer.rs, engine/src/l1_client.rs). */
module ScanCursor {
  import opened Outcomes

  const MAX_BLOCK_RANGE: nat := 10

  datatype Range = Range(from: nat, to: nat)

  function Min(a: nat, b: nat): nat { if a < b then a else b }

  /** The block range one poll asks for, if the head has moved past the cursor; a cursor at 0
      means nothing was scanned yet, and scanning starts near the head. */
  function NextRange(last: nat, head: nat): Option<Range> {
    if head <= last then None
    else
      var from :=
        if last != 0 then last + 1
        else if head >= MAX_BLOCK_RANGE - 1 then head - (MAX_BLOCK_RANGE - 1)
        else 0;
      Some(Range(from, Min(head, from + MAX_BLOCK_RANGE - 1)))
  }

  /** One poll: the head that was read, if any, and whether the log query succeeded. */
  datatype Poll = Poll(head: Option<nat>, queryOk: bool)

  function Scanned(last: nat, poll: Poll): Option<Range> {
    if poll.head.None? || !poll.queryOk then None else NextRange(last, poll.head.value)
  }

  class L1Client {
    var lastScannedBlock: nat
    ghost var ranges: seq<Range>

    constructor ()
      ensures lastScannedBlock == 0 && ranges == []
    {
      lastScannedBlock, ranges := 0, [];
    }

    /** `poll_l1_deposits` up to the returned logs: the cursor is written by a successful query. */
    method PollL1Deposits(poll: Poll) returns (scanned: Option<Range>)
      modifies this
      ensures scanned == Scanned(old(lastScannedBlock), poll)
      ensures scanned.Some? <==> poll.queryOk && poll.head.Some? && poll.head.value > old(lastScannedBlock)
      ensures scanned.Some? ==>
        var head, first := poll.head.value, scanned.value.from;
        && first == (if old(lastScannedBlock) > 0 then old(lastScannedBlock) + 1 else if head > 9 then head - 9 else 0)
        && scanned.value.to == if head > first + 9 then first + 9 else head
      ensures lastScannedBlock == if scanned.Some? then scanned.value.to else old(lastScannedBlock)
      ensures ranges == if scanned.Some? then old(ranges) + [scanned.value] else old(ranges)
    {
      if poll.head.None? {
        return None;
      }
      var currentBlock := poll.head.value;
      if currentBlock <= lastScannedBlock {
        return None;
      }
      var fromBlock;
      if lastScannedBlock == 0 {
        fromBlock := if currentBlock >= MAX_BLOCK_RANGE - 1 then currentBlock - (MAX_BLOCK_RANGE - 1) else 0;
      } else {
        fromBlock := lastScannedBlock + 1;
      }
      var toBlock := Min(currentBlock, fromBlock + MAX_BLOCK_RANGE - 1);
      if !poll.queryOk {
        return None;
      }
      lastScannedBlock := toBlock;
      ranges := ranges + [Range(fromBlock, toBlock)];
      scanned := Some(Range(fromBlock, toBlock));
    }
  }

  /** The ranges scanned by a run of polls, from a cursor. */
  function ScannedBy(last: nat, polls: seq<Poll>): seq<Range>
    decreases polls
  {
    if polls == [] then []
    else
      match Scanned(last, polls[0])
      case None => ScannedBy(last, polls[1..])
      case Some(r) => [r] + ScannedBy(r.to, polls[1..])
  }

  /** Disjoint and gap-free: each range starts right after the one before it. */
  predicate Contiguous(ranges: seq<Range>) {
    && (forall i :: 0 <= i < |ranges| ==> ranges[i].from <= ranges[i].to < ranges[i].from + MAX_BLOCK_RANGE)
    && (forall i :: 0 < i < |ranges| ==> ranges[i].from == ranges[i - 1].to + 1)
  }

  /** Whatever heads are seen, rising or falling, and whichever polls fail, the scanned ranges
      follow one another without overlap or gap, ten blocks at most each. */
  lemma {:induction false} ScansAreContiguous(last: nat, polls: seq<Poll>)
    ensures Contiguous(ScannedBy(last, polls))
    ensures last > 0 && ScannedBy(last, polls) != [] ==> ScannedBy(last, polls)[0].from == last + 1
    decreases polls
  {
    if polls != [] {
      match Scanned(last, polls[0])
      case None => ScansAreContiguous(last, polls[1..]);
      case Some(r) => ScansAreContiguous(r.to, polls[1..]);
    }
  }

  /** The cursor after a run. */
  function CursorAfter(last: nat, polls: seq<Poll>): nat {
    var ranges := ScannedBy(last, polls);
    if ranges == [] then last else ranges[|ranges| - 1].to
  }

  lemma {:induction false} CursorNeverFalls(last: nat, polls: seq<Poll>)
    ensures last <= CursorAfter(last, polls)
    decreases polls
  {
    if polls != [] {
      match Scanned(last, polls[0])
      case None => CursorNeverFalls(last, polls[1..]);
      case Some(r) =>
        CursorNeverFalls(r.to, polls[1..]);
        ScansAreContiguous(r.to, polls[1..]);
    }
  }

  predicate Succeeds(poll: Poll) { poll.head.Some? && poll.queryOk }

  function Successes(polls: seq<Poll>): nat {
    if polls == [] then 0 else (if Succeeds(polls[0]) then 1 else 0) + Successes(polls[1..])
  }

  /** At a fixed head k successful polls, among any failed ones, advance the cursor by ten blocks
      each, up to the head. */
  lemma {:induction false} FixedHeadProgress(last: nat, head: nat, polls: seq<Poll>)
    requires 0 < last <= head
    requires forall i :: 0 <= i < |polls| && Succeeds(polls[i]) ==> polls[i].head == Some(head)
    ensures CursorAfter(last, polls) == Min(head, last + MAX_BLOCK_RANGE * Successes(polls))
    decreases polls
  {
    if polls != [] {
      match Scanned(last, polls[0])
      case None => FixedHeadProgress(last, head, polls[1..]);
      case Some(r) => FixedHeadProgress(r.to, head, polls[1..]);
    }
  }

  predicate Covers(r: Range, b: nat) { r.from <= b <= r.to }

  predicate CoveredBy(ranges: seq<Range>, b: nat) {
    exists i :: 0 <= i < |ranges| && Covers(ranges[i], b)
  }

  lemma {:induction false} NoneBefore(ranges: seq<Range>, i: nat)
    requires Contiguous(ranges) && i < |ranges|
    ensures ranges[0].from <= ranges[i].from
  {
    if i > 0 { NoneBefore(ranges, i - 1); }
  }

  lemma {:induction false} FailuresScanNothing(last: nat, failures: seq<Poll>, polls: seq<Poll>)
    requires forall i :: 0 <= i < |failures| ==> !Succeeds(failures[i])
    ensures ScannedBy(last, failures + polls) == ScannedBy(last, polls)
  {
    if failures == [] {
      assert failures + polls == polls;
    } else {
      assert (failures + polls)[1..] == failures[1..] + polls;
      FailuresScanNothing(last, failures[1..], polls);
    }
  }

  /** A restart forgets the cursor. Of the blocks between the old cursor and the head first seen
      after it, all are scanned sooner or later exactly when the head has moved at most ten blocks:
      blocks skipped by the first scan are in no later one either. */
  lemma RestartMissesNothingIff(cursor: nat, head: nat, failures: seq<Poll>, later: seq<Poll>)
    requires cursor < head && forall i :: 0 <= i < |failures| ==> !Succeeds(failures[i])
    ensures (forall b: nat :: cursor < b <= head ==>
               CoveredBy(ScannedBy(0, failures + ([Poll(Some(head), true)] + later)), b))
       <==> head <= cursor + MAX_BLOCK_RANGE
  {
    var polls := [Poll(Some(head), true)] + later;
    var ranges := ScannedBy(0, failures + polls);
    FailuresScanNothing(0, failures, polls);
    ScansAreContiguous(0, polls);
    assert polls[1..] == later && ranges[0] == NextRange(0, head).value;
    if head <= cursor + MAX_BLOCK_RANGE {
      forall b: nat | cursor < b <= head ensures CoveredBy(ranges, b) {
        assert Covers(ranges[0], b);
      }
    } else {
      forall i | 0 <= i < |ranges| ensures !Covers(ranges[i], cursor + 1) {
        NoneBefore(ranges, i);
      }
      assert !CoveredBy(ranges, cursor + 1);
    }
  }

  /** What a client has scanned, with what remains of a run, makes up the run. */
  predicate ReplayInv(ranges: seq<Range>, last: nat, polls: seq<Poll>, i: nat) {
    && i <= |polls| && ranges + ScannedBy(last, polls[i..]) == ScannedBy(0, polls)
    && last == (if ranges == [] then 0 else ranges[|ranges| - 1].to)
  }

  lemma ReplayTurn(ranges: seq<Range>, last: nat, polls: seq<Poll>, i: nat)
    requires i < |polls| && ReplayInv(ranges, last, polls, i)
    ensures match Scanned(last, polls[i])
      case None => ReplayInv(ranges, last, polls, i + 1)
      case Some(r) => ReplayInv(ranges + [r], r.to, polls, i + 1)
  {
    assert polls[i..][1..] == polls[i + 1..] && polls[i..][0] == polls[i];
    var rest := polls[i + 1..];
    match Scanned(last, polls[i])
    case None =>
    case Some(r) => assert ranges + ([r] + ScannedBy(r.to, rest)) == (ranges + [r]) + ScannedBy(r.to, rest);
  }

  lemma ReplayEnds(ranges: seq<Range>, last: nat, polls: seq<Poll>)
    requires ReplayInv(ranges, last, polls, |polls|)
    ensures ranges == ScannedBy(0, polls) && last == CursorAfter(0, polls) && Contiguous(ranges)
  {
    assert polls[|polls|..] == [];
    ScansAreContiguous(0, polls);
  }

  /** Replays a run of polls on a fresh client. */
  method Replay(polls: seq<Poll>) returns (client: L1Client)
    ensures fresh(client) && client.ranges == ScannedBy(0, polls) && client.lastScannedBlock == CursorAfter(0, polls)
    ensures Contiguous(client.ranges)
  {
    client := new L1Client();
    assert polls[0..] == polls;
    for i := 0 to |polls|
      invariant fresh(client) && ReplayInv(client.ranges, client.lastScannedBlock, polls, i)
    {
      ReplayTurn(client.ranges, client.lastScannedBlock, polls, i);
      var r := client.PollL1Deposits(polls[i]);
    }
    ReplayEnds(client.ranges, client.lastScannedBlock, polls);
  }
}
