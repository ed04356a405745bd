/** Block production: greedy packing of the pending transactions under a gas and a size limit
    (engine/src/sequencer.rs). */
module BlockProduction {
  import opened Positional
  import opened Sequences

  /** u64 addition, wrapping around as a release build does. */
  function Add64(a: nat, b: nat): nat {
    if a + b < TWO_64 then a + b else (a + b) % TWO_64
  }

  datatype Tx = Tx(id: nat, gasLimit: nat)

  datatype Config = Config(maxBlockSize: nat, maxBlockGas: nat)

  function GasOf(txs: seq<Tx>): nat {
    if txs == [] then 0 else GasOf(txs[..|txs| - 1]) + txs[|txs| - 1].gasLimit
  }

  /** A block both limits allow. */
  predicate Fits(block: seq<Tx>, cfg: Config) {
    |block| <= cfg.maxBlockSize && GasOf(block) <= cfg.maxBlockGas
  }

  /** The u64 addition of the gas counter cannot wrap around on these transactions. */
  predicate NoWrap(txs: seq<Tx>, cfg: Config) {
    forall i :: 0 <= i < |txs| ==> cfg.maxBlockGas + txs[i].gasLimit < TWO_64
  }

  class BlockProducer {
    const cfg: Config
    var pendingTransactions: seq<Tx>

    // History: what was submitted, and the blocks made of it.
    ghost var submitted: seq<Tx>
    ghost var blocks: seq<seq<Tx>>

    ghost predicate Valid()
      reads this
    {
      submitted == Concat(blocks) + pendingTransactions
    }

    constructor (cfg: Config)
      ensures Valid() && this.cfg == cfg && submitted == [] && blocks == []
    {
      this.cfg := cfg;
      pendingTransactions, submitted, blocks := [], [], [];
    }

    method AddTransaction(tx: Tx)
      requires Valid()
      modifies this
      ensures Valid() && submitted == old(submitted) + [tx] && blocks == old(blocks)
    {
      pendingTransactions := pendingTransactions + [tx];
      submitted := submitted + [tx];
    }

    /** Takes transactions from the front while the size limit and the wrapping u64 gas counter
        allow the next one. */
    method ProduceBlock() returns (block: seq<Tx>)
      requires Valid()
      modifies this
      ensures Valid() && submitted == old(submitted)
      ensures block == old(pendingTransactions)[..WrappingPrefix(old(pendingTransactions), cfg, 0, 0)]
      ensures block + pendingTransactions == old(pendingTransactions)
      ensures blocks == if block == [] then old(blocks) else old(blocks) + [block]
    {
      block := [];
      var totalGas: nat := 0;
      ghost var queue, made := pendingTransactions, blocks;
      while pendingTransactions != [] && |block| < cfg.maxBlockSize
        invariant |block| <= |queue| && block == queue[..|block|] && pendingTransactions == queue[|block|..]
        invariant submitted == old(submitted) && blocks == made
        invariant |block| + WrappingPrefix(pendingTransactions, cfg, |block|, totalGas)
          == WrappingPrefix(queue, cfg, 0, 0)
        decreases |pendingTransactions|
      {
        var tx := pendingTransactions[0];
        if Add64(totalGas, tx.gasLimit) <= cfg.maxBlockGas {
          block := block + [tx];
          pendingTransactions := pendingTransactions[1..];
          totalGas := Add64(totalGas, tx.gasLimit);
        } else {
          break;
        }
      }
      if block != [] {
        ConcatSnoc(blocks, block);
        blocks := blocks + [block];
      }
    }
  }

  /** How many transactions the loop still takes with `count` taken and the counter at `total`. */
  function WrappingPrefix(txs: seq<Tx>, cfg: Config, count: nat, total: nat): (k: nat)
    ensures k <= |txs|
  {
    if txs == [] || count >= cfg.maxBlockSize || Add64(total, txs[0].gasLimit) > cfg.maxBlockGas then 0
    else 1 + WrappingPrefix(txs[1..], cfg, count + 1, Add64(total, txs[0].gasLimit))
  }

  function FirstBlock(txs: seq<Tx>, cfg: Config): seq<Tx> {
    txs[..WrappingPrefix(txs, cfg, 0, 0)]
  }

  /** The blocks made by producing until nothing more is taken. */
  function Greedy(txs: seq<Tx>, cfg: Config): seq<seq<Tx>> {
    var k := WrappingPrefix(txs, cfg, 0, 0);
    if k == 0 then [] else [txs[..k]] + Greedy(txs[k..], cfg)
  }

  /** Any way to cut the queue, in order, into blocks both limits allow. */
  predicate IsPartition(parts: seq<seq<Tx>>, txs: seq<Tx>, cfg: Config) {
    Concat(parts) == txs && forall i :: 0 <= i < |parts| ==> Fits(parts[i], cfg)
  }

  lemma {:induction false} GasConcat(s: seq<Tx>, t: seq<Tx>)
    ensures GasOf(s + t) == GasOf(s) + GasOf(t)
  {
    if t == [] {
      assert s + t == s;
    } else {
      GasConcat(s, t[..|t| - 1]);
      assert (s + t)[..|s + t| - 1] == s + t[..|t| - 1];
    }
  }

  lemma GasMonotone(txs: seq<Tx>, i: nat, j: nat)
    requires i <= j <= |txs|
    ensures GasOf(txs[..i]) <= GasOf(txs[..j])
  {
    assert txs[..j] == txs[..i] + txs[i..j];
    GasConcat(txs[..i], txs[i..j]);
  }

  lemma GasCons(txs: seq<Tx>, j: nat)
    requires 0 < j <= |txs|
    ensures GasOf(txs[..j]) == txs[0].gasLimit + GasOf(txs[1..][..j - 1])
  {
    assert txs[..j] == [txs[0]] + txs[1..][..j - 1];
    GasConcat([txs[0]], txs[1..][..j - 1]);
    assert [txs[0]][..0] == [];
  }

  lemma {:induction false} PrefixFrom(txs: seq<Tx>, cfg: Config, count: nat, total: nat)
    requires NoWrap(txs, cfg) && count <= cfg.maxBlockSize && total <= cfg.maxBlockGas
    ensures var k := WrappingPrefix(txs, cfg, count, total);
            && count + k <= cfg.maxBlockSize && total + GasOf(txs[..k]) <= cfg.maxBlockGas
            && (k < |txs| ==> count + k == cfg.maxBlockSize || total + GasOf(txs[..k + 1]) > cfg.maxBlockGas)
  {
    var k := WrappingPrefix(txs, cfg, count, total);
    if k > 0 {
      assert Add64(total, txs[0].gasLimit) == total + txs[0].gasLimit;
      assert NoWrap(txs[1..], cfg);
      PrefixFrom(txs[1..], cfg, count + 1, total + txs[0].gasLimit);
      GasCons(txs, k);
      if k < |txs| { GasCons(txs, k + 1); }
    } else if txs != [] {
      assert txs[0].gasLimit + total < TWO_64;
      GasCons(txs, 1);
    }
  }

  /** While the counter cannot wrap, one block is the longest prefix of the queue that fits. */
  lemma BlockIsLongest(txs: seq<Tx>, cfg: Config)
    requires NoWrap(txs, cfg)
    ensures Fits(FirstBlock(txs, cfg), cfg)
    ensures forall j :: 0 <= j <= |txs| && Fits(txs[..j], cfg) ==> j <= |FirstBlock(txs, cfg)|
  {
    var k := WrappingPrefix(txs, cfg, 0, 0);
    PrefixFrom(txs, cfg, 0, 0);
    forall j | k < j <= |txs| && Fits(txs[..j], cfg) ensures false {
      GasMonotone(txs, k + 1, j);
    }
  }

  function DropParts(parts: seq<seq<Tx>>, n: nat): seq<seq<Tx>> {
    if parts == [] then []
    else if n >= |parts[0]| then DropParts(parts[1..], n - |parts[0]|)
    else [parts[0][n..]] + parts[1..]
  }

  lemma DropWithinFirst(p0: seq<Tx>, others: seq<seq<Tx>>, n: nat, cfg: Config)
    requires Fits(p0, cfg) && IsPartition(others, Concat(others), cfg) && n < |p0|
    ensures IsPartition([p0[n..]] + others, p0[n..] + Concat(others), cfg)
  {
    ConcatCons(p0[n..], others);
    assert p0 == p0[..n] + p0[n..];
    GasConcat(p0[..n], p0[n..]);
  }

  /** Dropping transactions from the front of a partition never needs more blocks. */
  lemma {:induction false} DropPartsPartitions(parts: seq<seq<Tx>>, txs: seq<Tx>, n: nat, cfg: Config)
    requires IsPartition(parts, txs, cfg) && n <= |txs|
    ensures IsPartition(DropParts(parts, n), txs[n..], cfg) && |DropParts(parts, n)| <= |parts|
  {
    if parts != [] {
      var p0 := parts[0];
      assert parts == [p0] + parts[1..];
      ConcatCons(p0, parts[1..]);
      var rest := Concat(parts[1..]);
      assert txs == p0 + rest;
      if n >= |p0| {
        assert IsPartition(parts[1..], rest, cfg);
        DropPartsPartitions(parts[1..], rest, n - |p0|, cfg);
        assert txs[n..] == rest[n - |p0|..];
      } else {
        DropWithinFirst(p0, parts[1..], n, cfg);
        assert txs[n..] == p0[n..] + rest;
      }
    }
  }

  /** After one greedy block the rest still partitions into one block less. */
  lemma PartitionAfterBlock(parts: seq<seq<Tx>>, txs: seq<Tx>, cfg: Config) returns (rest: seq<seq<Tx>>)
    requires NoWrap(txs, cfg) && IsPartition(parts, txs, cfg) && parts != [] && parts[0] != []
    ensures var k := WrappingPrefix(txs, cfg, 0, 0);
            k > 0 && |rest| < |parts| && IsPartition(rest, txs[k..], cfg) && NoWrap(txs[k..], cfg)
  {
    var p0, k := parts[0], WrappingPrefix(txs, cfg, 0, 0);
    assert parts == [p0] + parts[1..];
    ConcatCons(p0, parts[1..]);
    assert txs[..|p0|] == p0;
    BlockIsLongest(txs, cfg);
    var tail := txs[|p0|..];
    assert IsPartition(parts[1..], tail, cfg);
    DropPartsPartitions(parts[1..], tail, k - |p0|, cfg);
    assert tail[k - |p0|..] == txs[k..];
    rest := DropParts(parts[1..], k - |p0|);
  }

  lemma PartitionCons(rest: seq<seq<Tx>>, txs: seq<Tx>, k: nat, cfg: Config)
    requires k <= |txs| && Fits(txs[..k], cfg) && IsPartition(rest, txs[k..], cfg)
    ensures IsPartition([txs[..k]] + rest, txs, cfg)
  {
    ConcatCons(txs[..k], rest);
    assert txs == txs[..k] + txs[k..];
  }

  lemma BlockThenRest(txs: seq<Tx>, cfg: Config)
    requires NoWrap(txs, cfg) && WrappingPrefix(txs, cfg, 0, 0) > 0
    requires var k := WrappingPrefix(txs, cfg, 0, 0); IsPartition(Greedy(txs[k..], cfg), txs[k..], cfg)
    ensures IsPartition(Greedy(txs, cfg), txs, cfg)
  {
    var k := WrappingPrefix(txs, cfg, 0, 0);
    BlockIsLongest(txs, cfg);
    PartitionCons(Greedy(txs[k..], cfg), txs, k, cfg);
  }

  /** Greedy packing drains every queue that can be packed at all, in the least number of blocks
      over all order-preserving partitions. */
  lemma {:induction false} GreedyIsOptimal(parts: seq<seq<Tx>>, txs: seq<Tx>, cfg: Config)
    requires NoWrap(txs, cfg) && IsPartition(parts, txs, cfg)
    ensures IsPartition(Greedy(txs, cfg), txs, cfg) && |Greedy(txs, cfg)| <= |parts|
    decreases |parts|
  {
    if parts == [] {
      assert txs == [];
    } else if parts[0] == [] {
      assert parts == [parts[0]] + parts[1..];
      ConcatCons(parts[0], parts[1..]);
      GreedyIsOptimal(parts[1..], txs, cfg);
    } else {
      var rest := PartitionAfterBlock(parts, txs, cfg);
      GreedyIsOptimal(rest, txs[WrappingPrefix(txs, cfg, 0, 0)..], cfg);
      BlockThenRest(txs, cfg);
    }
  }

  predicate AllWithin(txs: seq<Tx>, cfg: Config) {
    forall i :: 0 <= i < |txs| ==> txs[i].gasLimit <= cfg.maxBlockGas
  }

  lemma {:induction false} PartitionMembersFit(parts: seq<seq<Tx>>, txs: seq<Tx>, cfg: Config)
    requires IsPartition(parts, txs, cfg)
    ensures AllWithin(txs, cfg) && (txs != [] ==> cfg.maxBlockSize > 0)
  {
    if parts != [] {
      var n := |parts| - 1;
      var front := Concat(parts[..n]);
      assert IsPartition(parts[..n], front, cfg);
      PartitionMembersFit(parts[..n], front, cfg);
      MembersFit(parts[n], cfg.maxBlockGas);
      assert txs == front + parts[n];
      assert forall i :: |front| <= i < |txs| ==> txs[i] == parts[n][i - |front|];
    }
  }

  lemma {:induction false} MembersFit(txs: seq<Tx>, limit: nat)
    requires GasOf(txs) <= limit
    ensures forall i :: 0 <= i < |txs| ==> txs[i].gasLimit <= limit
  {
    if txs != [] { MembersFit(txs[..|txs| - 1], limit); }
  }

  lemma {:induction false} GreedyDrains(txs: seq<Tx>, cfg: Config)
    requires cfg.maxBlockGas < TWO_64 && cfg.maxBlockSize > 0 && AllWithin(txs, cfg)
    ensures Concat(Greedy(txs, cfg)) == txs
  {
    if txs != [] {
      var k := WrappingPrefix(txs, cfg, 0, 0);
      assert k > 0 && AllWithin(txs[k..], cfg);
      GreedyDrains(txs[k..], cfg);
      ConcatCons(txs[..k], Greedy(txs[k..], cfg));
    }
  }

  /** The queue drains if each transaction fits a block of its own, even where the counter wraps;
      and only then while it cannot wrap. */
  lemma DrainsIff(txs: seq<Tx>, cfg: Config)
    ensures cfg.maxBlockGas < TWO_64 && cfg.maxBlockSize > 0 && AllWithin(txs, cfg) ==> Concat(Greedy(txs, cfg)) == txs
    ensures NoWrap(txs, cfg) ==>
      (Concat(Greedy(txs, cfg)) == txs <==> txs == [] || (cfg.maxBlockSize > 0 && AllWithin(txs, cfg)))
  {
    if cfg.maxBlockGas < TWO_64 && cfg.maxBlockSize > 0 && AllWithin(txs, cfg) {
      GreedyDrains(txs, cfg);
    }
    if NoWrap(txs, cfg) && Concat(Greedy(txs, cfg)) == txs {
      GreedyFits(txs, cfg);
      PartitionMembersFit(Greedy(txs, cfg), txs, cfg);
    }
  }

  predicate AllU64(txs: seq<Tx>) {
    forall i :: 0 <= i < |txs| ==> txs[i].gasLimit < TWO_64
  }

  /** Limits under which a wrapped counter lets no oversized transaction in. */
  predicate Tight(cfg: Config) {
    cfg.maxBlockSize < 2 || cfg.maxBlockGas == 0
  }

  lemma {:induction false} TakenWithin(txs: seq<Tx>, cfg: Config, count: nat, total: nat)
    requires AllU64(txs) && Tight(cfg) && (cfg.maxBlockSize < 2 ==> count > 0 || total == 0) && total <= cfg.maxBlockGas
    ensures AllWithin(txs[..WrappingPrefix(txs, cfg, count, total)], cfg)
  {
    var k := WrappingPrefix(txs, cfg, count, total);
    if k > 0 {
      TakenWithin(txs[1..], cfg, count + 1, Add64(total, txs[0].gasLimit));
      assert txs[..k] == [txs[0]] + txs[1..][..k - 1];
    }
  }

  lemma {:induction false} DrainedWithin(txs: seq<Tx>, cfg: Config)
    requires AllU64(txs) && Tight(cfg) && Concat(Greedy(txs, cfg)) == txs
    ensures AllWithin(txs, cfg)
  {
    var k := WrappingPrefix(txs, cfg, 0, 0);
    if k > 0 {
      var rest := txs[k..];
      TakenWithin(txs, cfg, 0, 0);
      ConcatCons(txs[..k], Greedy(rest, cfg));
      assert Concat(Greedy(rest, cfg)) == (txs[..k] + Concat(Greedy(rest, cfg)))[k..] == rest;
      DrainedWithin(rest, cfg);
      assert forall i :: k <= i < |txs| ==> txs[i] == rest[i - k];
      assert forall i :: 0 <= i < k ==> txs[i] == txs[..k][i];
    } else {
      assert Concat<Tx>([]) == [];
    }
  }

  /** Only queues of admissible transactions drain exactly under these limits: blocks of fewer than
      two transactions, no gas at all, or all the gas a u64 can hold. Under any other a wrapped
      counter takes a transaction above the block gas limit. */
  lemma OnlyAdmissibleDrainIff(cfg: Config)
    requires cfg.maxBlockGas < TWO_64
    ensures (forall txs :: AllU64(txs) && Concat(Greedy(txs, cfg)) == txs ==> AllWithin(txs, cfg))
       <==> cfg.maxBlockSize < 2 || cfg.maxBlockGas == 0 || cfg.maxBlockGas == TWO_64 - 1
  {
    if Tight(cfg) {
      forall txs | AllU64(txs) && Concat(Greedy(txs, cfg)) == txs ensures AllWithin(txs, cfg) {
        DrainedWithin(txs, cfg);
      }
    } else if cfg.maxBlockGas < TWO_64 - 1 {
      var t := Tx(1, TWO_64 - 1);
      var txs := [Tx(0, 1), t];
      assert txs[1..] == [t] && [t][1..] == [];
      assert WrappingPrefix([t], cfg, 1, 1) == 1 + WrappingPrefix([], cfg, 2, 0);
      assert WrappingPrefix(txs, cfg, 0, 0) == 2 && txs[..2] == txs && txs[2..] == [];
      assert WrappingPrefix([], cfg, 0, 0) == 0 && Greedy([], cfg) == [];
      ConcatCons(txs, []);
      assert [txs] + [] == [txs] && Concat<Tx>([]) == [] && txs + [] == txs;
      assert Concat(Greedy(txs, cfg)) == txs && !AllWithin(txs, cfg);
    }
  }

  lemma {:induction false} GreedyFits(txs: seq<Tx>, cfg: Config)
    requires NoWrap(txs, cfg)
    ensures forall i :: 0 <= i < |Greedy(txs, cfg)| ==> Fits(Greedy(txs, cfg)[i], cfg)
  {
    var k := WrappingPrefix(txs, cfg, 0, 0);
    BlockIsLongest(txs, cfg);
    if k > 0 {
      assert NoWrap(txs[k..], cfg);
      GreedyFits(txs[k..], cfg);
    }
  }

  /** With transactions within the block gas limit the limit holds of every first block exactly
      when twice the limit stays below 2^64 or a block never takes a second transaction. */
  lemma GasLimitHoldsIff(cfg: Config)
    requires cfg.maxBlockGas < TWO_64
    ensures (forall txs :: AllWithin(txs, cfg) ==> Fits(FirstBlock(txs, cfg), cfg))
       <==> 2 * cfg.maxBlockGas < TWO_64 || cfg.maxBlockSize < 2
  {
    if 2 * cfg.maxBlockGas < TWO_64 || cfg.maxBlockSize < 2 {
      forall txs | AllWithin(txs, cfg) ensures Fits(FirstBlock(txs, cfg), cfg) {
        if 2 * cfg.maxBlockGas < TWO_64 {
          BlockIsLongest(txs, cfg);
        } else {
          ShortBlockFits(txs, cfg);
        }
      }
    } else {
      var t := Tx(0, cfg.maxBlockGas);
      var txs := [t, t];
      assert txs[1..] == [t];
      assert WrappingPrefix([t], cfg, 1, cfg.maxBlockGas)
        == 1 + WrappingPrefix([t][1..], cfg, 2, 2 * cfg.maxBlockGas - TWO_64);
      assert FirstBlock(txs, cfg) == txs;
      GasConcat([t], [t]);
      assert txs == [t] + [t] && [t][..0] == [];
      assert !Fits(FirstBlock(txs, cfg), cfg);
    }
  }

  lemma ShortBlockFits(txs: seq<Tx>, cfg: Config)
    requires AllWithin(txs, cfg) && cfg.maxBlockSize < 2 && cfg.maxBlockGas < TWO_64
    ensures Fits(FirstBlock(txs, cfg), cfg)
  {
    var b := FirstBlock(txs, cfg);
    if b != [] {
      assert WrappingPrefix(txs[1..], cfg, 1, txs[0].gasLimit) == 0;
      assert b == [txs[0]] && b[..0] == [];
    }
  }

  /** Ticks without new submissions, until a tick produces nothing. */
  method RunUntilIdle(p: BlockProducer)
    requires p.Valid()
    modifies p
    ensures p.Valid() && p.submitted == old(p.submitted)
    ensures p.blocks == old(p.blocks) + Greedy(old(p.pendingTransactions), p.cfg)
    ensures FirstBlock(p.pendingTransactions, p.cfg) == []
  {
    var more := true;
    while more
      invariant p.Valid() && p.submitted == old(p.submitted)
      invariant p.blocks + Greedy(p.pendingTransactions, p.cfg)
        == old(p.blocks) + Greedy(old(p.pendingTransactions), p.cfg)
      invariant !more ==> FirstBlock(p.pendingTransactions, p.cfg) == []
      decreases more, |p.pendingTransactions|
    {
      ghost var before, pending := p.blocks, p.pendingTransactions;
      var block := p.ProduceBlock();
      more := block != [];
      if more {
        GreedyStep(before, pending, block, p.pendingTransactions, p.cfg);
      }
    }
  }

  lemma GreedyStep(blocks: seq<seq<Tx>>, pending: seq<Tx>, block: seq<Tx>, rest: seq<Tx>, cfg: Config)
    requires block == FirstBlock(pending, cfg) && block != [] && block + rest == pending
    ensures (blocks + [block]) + Greedy(rest, cfg) == blocks + Greedy(pending, cfg)
  {
    assert rest == pending[|block|..];
    assert (blocks + [block]) + Greedy(rest, cfg) == blocks + ([block] + Greedy(rest, cfg));
  }
}
