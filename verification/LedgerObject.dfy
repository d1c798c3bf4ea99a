/** The ledger as one object: its tables, its cached counters, and every operation that changes them. */
module LedgerObject {
  import opened Types
  import opened LedgerStore
  import opened Cementing
  import opened Pruning
  import opened PruningScan
  import opened PruningRun

  /** The operations of a run. */
  datatype Operation =
    | AppendBlock(hash: Hash, now: U64)
    | RollBackBlock(hash: Hash)
    | ConfirmBlock(target: Hash, maxBlocks: nat, refreshes: nat -> Option<seq<WriterStep>>)
    | PruneBlocks(batchSize: nat, lim: Limits, stopAfter: Option<nat>)

  /** The number of confirmed blocks grows by exactly the number of blocks returned. */
  lemma ProgressCounts(cat: Catalog, t0: Tables, t: Tables, target: Hash, result: seq<Hash>, n: nat, m: nat)
    requires Progress(cat, t0, t, target, result) && Counted(cat, t0, n, m)
    ensures Counted(cat, t, n + |result|, m)
  {
    DistinctFits(cat, t0, target, result);
    forall h | h in Elements(result)
      ensures h !in ConfirmedSet(cat, t0)
    {
      var i :| 0 <= i < |result| && result[i] == h;
      assert InOrder(cat, t0, target, result[..i], result[i]);
    }
    assert ConfirmedSet(cat, t0) !! Elements(result);
  }

  lemma SameProgressCounts(cat: Catalog, t: Tables, t': Tables, n: nat, m: nat)
    requires SameProgress(cat, t, t') && Counted(cat, t, n, m)
    ensures Counted(cat, t', n, m)
  {
  }

  lemma PrunedKeepsConsistent(cat: Catalog, t0: Tables, t: Tables, rank: map<Hash, nat>, gone: set<Hash>, n: nat, m: nat)
    requires Consistent(cat, t0, rank) && Counted(cat, t0, n, m) && gone <= t0.blocks.Keys && t == Without(t0, gone)
    requires Sound(cat, t) && FrontiersStored(t)
    ensures Consistent(cat, t, rank) && Counted(cat, t, n, m + |gone|)
    ensures ConfirmedSet(cat, t) == ConfirmedSet(cat, t0)
  {
    WithoutKeepsSets(cat, t0, gone);
    assert forall h :: Known(t, h) <==> Known(t0, h);
  }

  /** What a bounded search from `t0` to `t` promises about its target, if it is still stored. */
  ghost predicate Searched(cat: Catalog, t0: Tables, t: Tables, target: Hash, maxBlocks: nat, result: seq<Hash>) {
    && |result| <= (if maxBlocks == 0 then 1 else maxBlocks)
    && (target in t.blocks && !LedgerStore.Confirmed(cat, t0, target) ==>
          (result != [] <==> maxBlocks > 0 || Ready(cat, t0, target)))
    && (target in t.blocks && 2 * |UnconfirmedCone(cat, t0, target)| <= maxBlocks + 1 ==> target in ConfirmedSet(cat, t))
  }

  /** Cementing in a transaction, together with the cached count. */
  method ConfirmCounted(cat: Catalog, t0: Tables, ghost rank0: map<Hash, nat>, count0: nat, ghost pruned: nat,
                        target: Hash, maxBlocks: nat, refreshes: nat -> Option<seq<WriterStep>>)
    returns (t: Tables, ghost rank: map<Hash, nat>, count: nat, result: seq<Hash>)
    requires Consistent(cat, t0, rank0) && Counted(cat, t0, count0, pruned) && target in t0.blocks
    ensures Consistent(cat, t, rank) && Counted(cat, t, count, pruned)
    ensures Progress(cat, t0, t, target, result) && count == count0 + |result|
    ensures Searched(cat, t0, t, target, maxBlocks, result)
  {
    var gone;
    t, result, gone, rank := Confirm(cat, t0, rank0, target, maxBlocks, refreshes);
    ProgressCounts(cat, t0, t, target, result, count0, pruned);
    count := count0 + |result|;
  }

  /** A pruning run in a transaction, together with the cached count. */
  method PruneCounted(cat: Catalog, t0: Tables, ghost rank: map<Hash, nat>, ghost cemented: nat, count0: nat,
                      batchSize: nat, lim: Limits, stopAfter: Option<nat>)
    returns (t: Tables, count: nat, pruned: nat, ghost handled: set<nat>)
    requires Consistent(cat, t0, rank) && Counted(cat, t0, cemented, count0) && batchSize > 0 && lim.maxDepth > 0
    ensures Consistent(cat, t, rank) && Counted(cat, t, cemented, count) && count == count0 + pruned
    ensures ConfirmedSet(cat, t) == ConfirmedSet(cat, t0)
    ensures handled <= Scanned(t0) && (stopAfter.None? ==> handled == Scanned(t0))
    ensures t == Without(t0, DoomedOf(cat, t0, lim, handled))
  {
    t, pruned, handled := LedgerPruning(cat, t0, batchSize, lim, stopAfter);
    PrunedKeepsConsistent(cat, t0, t, rank, DoomedOf(cat, t0, lim, handled), cemented, count0);
    count := count0 + pruned;
  }

  class Ledger {
    const cat: Catalog
    var tables: Tables
    var cementedCount: nat
    var prunedCount: nat

    /** The order in which the known blocks were saved. */
    ghost var rank: map<Hash, nat>

    ghost predicate Valid()
      reads this
    {
      && Consistent(cat, tables, rank)
      && Counted(cat, tables, cementedCount, prunedCount)
    }

    /** The blocks that are stored or pruned and at or below the confirmation height of their account. */
    ghost function Confirmed(): set<Hash>
      reads this
    {
      ConfirmedSet(cat, tables)
    }

    /** A new ledger holds the genesis block alone, already confirmed. */
    constructor (catalog: Catalog, now: U64)
      requires catalog.constants.genesisHash != 0 && catalog.constants.genesisHash in catalog.blocks
      requires var g := catalog.blocks[catalog.constants.genesisHash];
               g.block.body.LegacyOpen? && g.Account() == catalog.constants.genesisAccount && g.Height() == 1
      ensures Valid() && cat == catalog
      ensures KnownSet(tables) == {catalog.constants.genesisHash} == Confirmed()
      ensures cementedCount == 1 && prunedCount == 0
    {
      var hash := catalog.constants.genesisHash;
      var account := catalog.constants.genesisAccount;
      cat := catalog;
      tables := Tables(
        map[hash := catalog.blocks[hash].SavedAt(now)],
        map[account := hash],
        map[account := ConfirmationHeight(1, hash)],
        {});
      cementedCount := 1;
      prunedCount := 0;
      rank := map[hash := 0];
      GenesisSound(catalog, now);
    }

    /** Saves the block named `hash` if validation lets it through. */
    method Append(hash: Hash, now: U64) returns (ok: bool)
      requires Valid()
      modifies this
      ensures Valid() && Confirmed() == old(Confirmed())
      ensures ok <==> CanAppend(cat, old(tables), hash)
      ensures tables == if ok then AppendTo(cat, old(tables), hash, now) else old(tables)
      ensures cementedCount == old(cementedCount) && prunedCount == old(prunedCount)
    {
      hide Consistent, Counted;
      var t;
      ghost var r;
      ok, t, r := AppendRow(cat, tables, rank, hash, now);
      SameProgressCounts(cat, tables, t, cementedCount, prunedCount);
      tables, rank := t, r;
    }

    /** Rolls back the block named `hash` if it is an unconfirmed head on which nothing depends. */
    method RollBack(hash: Hash) returns (ok: bool)
      requires Valid()
      modifies this
      ensures Valid() && Confirmed() == old(Confirmed())
      ensures ok <==> CanRollBack(cat, old(tables), hash)
      ensures tables == if ok then RollBackFrom(old(tables), hash) else old(tables)
      ensures cementedCount == old(cementedCount) && prunedCount == old(prunedCount)
    {
      hide Consistent, Counted;
      var t;
      ok, t := RollBackRow(cat, tables, rank, hash);
      SameProgressCounts(cat, tables, t, cementedCount, prunedCount);
      tables := t;
    }

    /**
      Cements as much of the cone of `target` as `maxBlocks` allows and counts the cemented blocks. Unless
      the target is rolled back meanwhile, some block is cemented, and with enough room the target itself.
     */
    method ConfirmMax(target: Hash, maxBlocks: nat, refreshes: nat -> Option<seq<WriterStep>>) returns (result: seq<Hash>)
      requires Valid() && target in tables.blocks
      modifies this
      ensures Valid() && Progress(cat, old(tables), tables, target, result)
      ensures Searched(cat, old(tables), tables, target, maxBlocks, result)
      ensures cementedCount == old(cementedCount) + |result| && prunedCount == old(prunedCount)
    {
      hide Consistent, Counted, Progress, Searched;
      var t, count;
      ghost var r;
      t, r, count, result := ConfirmCounted(cat, tables, rank, cementedCount, prunedCount, target, maxBlocks, refreshes);
      tables, rank, cementedCount := t, r, count;
    }

    /** A pruning run deletes confirmed rows without changing what is known or confirmed. */
    method Prune(batchSize: nat, lim: Limits, stopAfter: Option<nat>) returns (count: nat, ghost handled: set<nat>)
      requires Valid() && batchSize > 0 && lim.maxDepth > 0
      modifies this
      ensures Valid() && Confirmed() == old(Confirmed())
      ensures handled <= Scanned(old(tables)) && (stopAfter.None? ==> handled == Scanned(old(tables)))
      ensures tables == Without(old(tables), DoomedOf(cat, old(tables), lim, handled))
      ensures cementedCount == old(cementedCount) && prunedCount == old(prunedCount) + count
    {
      hide Consistent, Counted, Scanned, DoomedOf, Without;
      var t, total;
      t, total, count, handled := PruneCounted(cat, tables, rank, cementedCount, prunedCount, batchSize, lim, stopAfter);
      tables, prunedCount := t, total;
    }

    /** The height of the confirmed frontier, read from the frontier block itself, which is always stored. */
    method AccountHeight(a: Account) returns (height: nat)
      requires Valid()
      ensures height == if a in tables.heights then tables.heights[a].height else 0
    {
      if a !in tables.heights {
        return 0;
      }
      var head := tables.heights[a].frontier;
      assert FrontierPlaced(cat, tables, a);
      var block := ConfirmedBlock(tables, head);
      height := block.value.Height();
    }

    /**
      Any run of operations, in any order and with any arguments: the invariant holds throughout, the
      counters stay right, and a block that is confirmed once stays confirmed.
     */
    method Run(operations: seq<Operation>)
      requires Valid()
      modifies this
      ensures Valid()
      ensures old(Confirmed()) <= Confirmed()
      ensures cementedCount == HeightTotal(tables.heights) == |Confirmed()| && prunedCount == |tables.pruned|
    {
      for i := 0 to |operations|
        invariant Valid()
        invariant old(Confirmed()) <= Confirmed()
      {
        Step(operations[i]);
      }
    }

    method Step(operation: Operation)
      requires Valid()
      modifies this
      ensures Valid()
      ensures old(Confirmed()) <= Confirmed()
    {
      match operation
      case AppendBlock(hash, now) =>
        var _ := Append(hash, now);
      case RollBackBlock(hash) =>
        var _ := RollBack(hash);
      case ConfirmBlock(target, maxBlocks, refreshes) =>
        if target in tables.blocks {
          var _ := ConfirmMax(target, maxBlocks, refreshes);
        }
      case PruneBlocks(batchSize, lim, stopAfter) =>
        if batchSize > 0 && lim.maxDepth > 0 {
          var _, _ := Prune(batchSize, lim, stopAfter);
        }
    }
  }
}
