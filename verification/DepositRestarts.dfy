/** Deposits over a stop and a restart of the process. Queue, processed hashes and cursor live in
    memory, so a restart is a fresh run (engine/src/sequencer.rs, primitives/src/message_queue.rs). */
module DepositRestarts {
  import opened DepositPipeline
  import opened Messages
  import opened Outcomes
  import opened ScanCursor

  /** The logs whose deposits a life of the process has counted. */
  function Counted(s: State): seq<DepositLog> {
    if s.counted <= |s.scanned| then s.scanned[..s.counted] else []
  }

  lemma CountedByFinished(chain: Chain, keccak: HashFunction, events: seq<Event>)
    requires WellFormed(chain) && CollisionFree(keccak)
    requires Finished(Run(chain, keccak, events)) && Run(chain, keccak, events).cursor > 0
    ensures var s := Run(chain, keccak, events); Counted(s) == s.scanned == LogsIn(chain, s.first, s.cursor + 1)
    ensures Run(chain, keccak, events).first <= Run(chain, keccak, events).cursor
  {
    DepositsExactlyOnce(chain, keccak, events);
    RunKeepsInv(chain, keccak, events);
    var s := Run(chain, keccak, events);
    assert s.counted == |s.scanned| && s.scanned[..|s.scanned|] == s.scanned;
  }

  /** Over a stop at any point and a second life that finishes, every deposit from the first block
      scanned to the last is counted exactly once, in order, if and only if the first life counted
      exactly those of the blocks before the first one the second life scans. */
  lemma {:induction false} TwoLivesIff(chain: Chain, keccak: HashFunction, before: seq<Event>, after: seq<Event>)
    requires WellFormed(chain) && CollisionFree(keccak) && Finished(Run(chain, keccak, after))
    requires Run(chain, keccak, before).cursor > 0 && Run(chain, keccak, after).cursor > 0
    requires Run(chain, keccak, before).first <= Run(chain, keccak, after).first
    ensures var s, t := Run(chain, keccak, before), Run(chain, keccak, after);
      Counted(s) + Counted(t) == LogsIn(chain, s.first, t.cursor + 1) <==> Counted(s) == LogsIn(chain, s.first, t.first)
  {
    var s, t := Run(chain, keccak, before), Run(chain, keccak, after);
    CountedByFinished(chain, keccak, after);
    LogsConcat(chain, s.first, t.first, t.cursor + 1);
    if Counted(s) + Counted(t) == LogsIn(chain, s.first, t.cursor + 1) {
      SplitFront(Counted(s), Counted(t), LogsIn(chain, s.first, t.first), Counted(t));
    }
  }

  /** Two stretches of blocks with the same start hold the same logs exactly when there are none
      between their ends. */
  lemma SameLogsIff(chain: Chain, from: nat, a: nat, b: nat)
    requires from <= a && from <= b
    ensures LogsIn(chain, from, a) == LogsIn(chain, from, b) <==> LogsIn(chain, a, b) == [] && LogsIn(chain, b, a) == []
  {
    if a <= b { LogsConcat(chain, from, a, b); } else { LogsConcat(chain, from, b, a); }
  }

  /** If the first life had counted all it scanned, exactly-once holds if and only if no log lies in
      the blocks scanned by both lives, where it would be counted twice, or by neither. */
  lemma {:induction false} CleanStopIff(chain: Chain, keccak: HashFunction, before: seq<Event>, after: seq<Event>)
    requires WellFormed(chain) && CollisionFree(keccak)
    requires Finished(Run(chain, keccak, before)) && Finished(Run(chain, keccak, after))
    requires Run(chain, keccak, before).cursor > 0 && Run(chain, keccak, after).cursor > 0
    requires Run(chain, keccak, before).first <= Run(chain, keccak, after).first
    ensures var s, t := Run(chain, keccak, before), Run(chain, keccak, after);
      Counted(s) + Counted(t) == LogsIn(chain, s.first, t.cursor + 1)
      <==> LogsIn(chain, t.first, s.cursor + 1) == [] && LogsIn(chain, s.cursor + 1, t.first) == []
  {
    var s, t := Run(chain, keccak, before), Run(chain, keccak, after);
    TwoLivesIff(chain, keccak, before, after);
    CountedByFinished(chain, keccak, before);
    SameLogsIff(chain, s.first, s.cursor + 1, t.first);
  }

  predicate NoneCovered(ranges: seq<Range>, head: nat) {
    forall b: nat :: b <= head ==> !CoveredBy(ranges, b)
  }

  /** The cursor is written before the logs are enqueued: a process that stops right after its first
      poll at a head has counted nothing, yet once the head is ten blocks on, the next life scans no
      block up to the old head, now or later. */
  lemma StopLosesScanned(chain: Chain, keccak: HashFunction, head: nat, later: seq<Poll>)
    requires head > 0
    ensures var s := Run(chain, keccak, [PollLogs(Poll(Some(head), true))]);
      && s.cursor == head && s.first <= head && s.scanned == LogsIn(chain, s.first, head + 1) && Counted(s) == []
    ensures NoneCovered(ScannedBy(0, [Poll(Some(head + MAX_BLOCK_RANGE), true)] + later), head)
  {
    var events := [PollLogs(Poll(Some(head), true))];
    assert events[..0] == [];
    assert Run(chain, keccak, events) == Step(chain, keccak, INITIAL, events[0]);
    assert Scanned(0, Poll(Some(head), true)) == NextRange(0, head);
    var r := NextRange(0, head).value;
    assert [] + LogsIn(chain, r.from, r.to + 1) == LogsIn(chain, r.from, r.to + 1);
    var polls := [Poll(Some(head + MAX_BLOCK_RANGE), true)] + later;
    var ranges := ScannedBy(0, polls);
    ScansAreContiguous(0, polls);
    assert polls[1..] == later && ranges[0] == NextRange(0, head + MAX_BLOCK_RANGE).value;
    forall b: nat | b <= head ensures !CoveredBy(ranges, b) {
      forall i | 0 <= i < |ranges| ensures !Covers(ranges[i], b) {
        NoneBefore(ranges, i);
      }
    }
  }
}
