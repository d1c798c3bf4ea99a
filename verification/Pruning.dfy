/**
  Pruning: deleting confirmed blocks from the bottom of their chains, and the resumable scan that
  chooses where to start in each account.
 */
module Pruning {
  import opened Types
  import opened Blocks
  import opened LedgerStore

  // ---------------------------------------------------------------------------------------------
  // Deleting one block

  function PruneIn(t: Tables, h: Hash): Tables {
    t.(blocks := t.blocks - {h}, pruned := t.pruned + {h})
  }

  /** `h` is the confirmed frontier of its account. */
  predicate IsFrontier(cat: Catalog, t: Tables, h: Hash) {
    h in cat.blocks && cat.blocks[h].Account() in t.heights && t.heights[cat.blocks[h].Account()].frontier == h
  }

  lemma PruneKeepsShape(cat: Catalog, t: Tables, h: Hash)
    requires Shape(cat, t) && h in t.blocks && Confirmed(cat, t, h) && h != cat.constants.genesisHash
    ensures Shape(cat, PruneIn(t, h))
  {
    var t' := PruneIn(t, h);
    assert forall x :: Known(t', x) <==> Known(t, x);
    assert forall x :: Confirmed(cat, t', x) <==> Confirmed(cat, t, x);
    forall a | a in t'.heights ensures FrontierPlaced(cat, t', a) { assert FrontierPlaced(cat, t, a); }
  }

  /** Every pruned block has nothing stored right below it, except that `current` is still to be deleted. */
  ghost predicate PrunedDownTo(cat: Catalog, t: Tables, current: Hash)
    requires RowsMatch(cat, t)
  {
    forall h {:trigger AbovePruned(cat, t.pruned, h)} | h in t.pruned ::
      AbovePruned(cat, t.pruned, h) || cat.blocks[h].Previous() == current
  }

  /** The stored blocks of `a` at the heights from `low + 1` to `high`, without the genesis block. */
  ghost function Segment(cat: Catalog, t: Tables, a: Account, low: nat, high: nat): set<Hash>
    requires RowsMatch(cat, t)
  {
    set h | h in t.blocks && InSegment(cat, h, a, low, high)
  }

  predicate InSegment(cat: Catalog, h: Hash, a: Account, low: nat, high: nat) {
    && h in cat.blocks
    && h != cat.constants.genesisHash
    && cat.blocks[h].Account() == a
    && low < cat.blocks[h].Height() <= high
  }

  /** Everything of the chain of `h` up to and including `h`. */
  ghost function DownFrom(cat: Catalog, t: Tables, h: Hash): set<Hash>
    requires RowsMatch(cat, t) && h in cat.blocks
  {
    Segment(cat, t, cat.blocks[h].Account(), 0, cat.blocks[h].Height())
  }

  lemma SegmentStep(cat: Catalog, t: Tables, h: Hash, high: nat)
    requires Shape(cat, t) && h in t.blocks && h != cat.constants.genesisHash && cat.blocks[h].Height() <= high
    ensures cat.blocks[h].Height() > 0
    ensures var a, low := cat.blocks[h].Account(), cat.blocks[h].Height();
            Segment(cat, t, a, low - 1, high) == Segment(cat, t, a, low, high) + {h}
  {
    assert Placed(cat, h);
    var a, low := cat.blocks[h].Account(), cat.blocks[h].Height();
    forall x | x in Segment(cat, t, a, low - 1, high)
      ensures x in Segment(cat, t, a, low, high) + {h}
    {
      if cat.blocks[x].Height() == low { assert cat.SamePlace(x, h); }
    }
  }

  /** Below a pruned block of an account nothing but the genesis block is stored. */
  lemma {:induction false} NothingBelowPruned(cat: Catalog, t: Tables, p: Hash, x: Hash)
    requires Sound(cat, t) && p in t.pruned && x in t.blocks && x != cat.constants.genesisHash
    requires cat.blocks[x].Account() == cat.blocks[p].Account()
    ensures cat.blocks[x].Height() > cat.blocks[p].Height()
    decreases cat.blocks[p].Height()
  {
    assert Placed(cat, p) && Placed(cat, x) && AbovePruned(cat, t.pruned, p);
    assert !cat.SamePlace(x, p);
    var q := cat.blocks[p].Previous();
    if q == cat.constants.genesisHash && q != 0 {
      assert Placed(cat, q) && !cat.SamePlace(x, q);
    } else if q != 0 {
      NothingBelowPruned(cat, t, q, x);
    }
  }

  lemma SegmentBottom(cat: Catalog, t: Tables, p: Hash, high: nat)
    requires Sound(cat, t) && (p in t.pruned || p == cat.constants.genesisHash)
    ensures var a, low := cat.blocks[p].Account(), cat.blocks[p].Height();
            Segment(cat, t, a, low, high) == Segment(cat, t, a, 0, high)
  {
    var a, low := cat.blocks[p].Account(), cat.blocks[p].Height();
    forall x | x in Segment(cat, t, a, 0, high)
      ensures x in Segment(cat, t, a, low, high)
    {
      if p in t.pruned {
        NothingBelowPruned(cat, t, p, x);
      } else {
        assert Placed(cat, p) && Placed(cat, x) && !cat.SamePlace(x, p);
      }
    }
  }

  // ---------------------------------------------------------------------------------------------
  // Deleting a chain downwards

  function Low(cat: Catalog, current: Hash): nat {
    if current in cat.blocks && current != 0 then cat.blocks[current].Height() else 0
  }

  function Without(t: Tables, gone: set<Hash>): Tables {
    t.(blocks := t.blocks - gone, pruned := t.pruned + gone)
  }

  /** `current` can be next in line when the chain of `a` is deleted from height `high` down. */
  ghost predicate NextInLine(cat: Catalog, t0: Tables, a: Account, high: nat, current: Hash) {
    current != 0 ==>
      && current in cat.blocks && Known(t0, current) && Confirmed(cat, t0, current)
      && cat.blocks[current].Account() == a && cat.blocks[current].Height() <= high
  }

  /** The chain of `a` has been deleted from height `high` down to, but not including, `current`. */
  ghost predicate Descending(cat: Catalog, t0: Tables, t: Tables, a: Account, high: nat, current: Hash, count: nat)
    requires RowsMatch(cat, t0)
  {
    && t == Without(t0, Segment(cat, t0, a, Low(cat, current), high))
    && count == |Segment(cat, t0, a, Low(cat, current), high)|
    && Shape(cat, t) && PrunedDownTo(cat, t, current)
    && NextInLine(cat, t0, a, high, current)
  }

  lemma PruneKeepsDownTo(cat: Catalog, t: Tables, current: Hash)
    requires Shape(cat, t) && PrunedDownTo(cat, t, current)
    requires current in t.blocks && Confirmed(cat, t, current) && current != cat.constants.genesisHash
    ensures Shape(cat, PruneIn(t, current)) && PrunedDownTo(cat, PruneIn(t, current), cat.blocks[current].Previous())
  {
    PruneKeepsShape(cat, t, current);
    var t', next := PruneIn(t, current), cat.blocks[current].Previous();
    forall h | h in t'.pruned
      ensures AbovePruned(cat, t'.pruned, h) || cat.blocks[h].Previous() == next
    {
      if h != current { assert AbovePruned(cat, t.pruned, h) || cat.blocks[h].Previous() == current; }
    }
  }

  lemma DescendOne(cat: Catalog, t0: Tables, t: Tables, a: Account, high: nat, current: Hash, count: nat)
    requires Sound(cat, t0) && Descending(cat, t0, t, a, high, current, count)
    requires current != 0 && current != cat.constants.genesisHash && current in t.blocks
    ensures Descending(cat, t0, PruneIn(t, current), a, high, cat.blocks[current].Previous(), count + 1)
  {
    DescendPrevious(cat, t0, current);
    SegmentStep(cat, t0, current, high);
    var next := cat.blocks[current].Previous();
    var gone := Segment(cat, t0, a, Low(cat, current), high);
    assert Segment(cat, t0, a, Low(cat, next), high) == gone + {current};
    assert current !in gone;
    assert PruneIn(t, current).blocks == t0.blocks - (gone + {current});
    assert PruneIn(t, current).pruned == t0.pruned + (gone + {current});
    assert Confirmed(cat, t, current);
    PruneKeepsDownTo(cat, t, current);
  }

  lemma DescendPrevious(cat: Catalog, t: Tables, h: Hash)
    requires Shape(cat, t) && Known(t, h) && Confirmed(cat, t, h)
    ensures var p := cat.blocks[h].Previous();
            && Low(cat, p) == cat.blocks[h].Height() - 1
            && (p != 0 ==> Known(t, p) && Confirmed(cat, t, p) && cat.blocks[p].Account() == cat.blocks[h].Account())
  {
    assert Placed(cat, h);
    if cat.blocks[h].Previous() != 0 {
      DependsOnPrevious(cat.blocks[h], cat.constants, 0);
      assert cat.Depends(h, cat.blocks[h].Previous());
    }
  }

  lemma DescendDone(cat: Catalog, t0: Tables, t: Tables, a: Account, high: nat, current: Hash, count: nat)
    requires Sound(cat, t0) && Descending(cat, t0, t, a, high, current, count)
    requires current != 0 && (current == cat.constants.genesisHash || current !in t.blocks)
    ensures Descending(cat, t0, t, a, high, 0, count)
    ensures current == cat.constants.genesisHash || current in t.pruned
  {
    assert current !in t.blocks ==> current in t0.pruned;
    SegmentBottom(cat, t0, current, high);
    assert PrunedDownTo(cat, t, 0) by {
      forall h | h in t.pruned
        ensures AbovePruned(cat, t.pruned, h)
      {
        var here := AbovePruned(cat, t.pruned, h);
      }
    }
  }

  /** A frontier is only lost if the deletion starts at it. */
  lemma FrontierKept(cat: Catalog, t0: Tables, h: Hash)
    requires Sound(cat, t0) && FrontiersStored(t0) && h in t0.blocks && h != cat.constants.genesisHash
    requires Confirmed(cat, t0, h)
    ensures FrontiersStored(Without(t0, DownFrom(cat, t0, h))) <==> !IsFrontier(cat, t0, h)
  {
    var t := Without(t0, DownFrom(cat, t0, h));
    assert Placed(cat, h);
    FrontierTops(cat, t0, h);
    forall a | a in t0.heights
      ensures t.heights[a].frontier in t.blocks <==> t0.heights[a].frontier != h
      ensures t0.heights[a].frontier == h ==> IsFrontier(cat, t0, h)
    {
      assert FrontierPlaced(cat, t0, a);
      assert t0.heights[a].frontier in DownFrom(cat, t0, h) <==> t0.heights[a].frontier == h;
    }
    if IsFrontier(cat, t0, h) {
      assert t.heights[cat.blocks[h].Account()].frontier !in t.blocks;
    }
  }

  lemma DownFromSelf(cat: Catalog, t: Tables, h: Hash)
    requires Shape(cat, t) && h in t.blocks && h != cat.constants.genesisHash
    ensures h in DownFrom(cat, t, h) && |DownFrom(cat, t, h)| > 0
  {
    assert Placed(cat, h);
    assert h in DownFrom(cat, t, h);
  }

  /** Moving stored blocks to the pruned ones changes neither what is known nor what is confirmed. */
  lemma WithoutKeepsSets(cat: Catalog, t: Tables, gone: set<Hash>)
    requires gone <= t.blocks.Keys && t.blocks.Keys !! t.pruned
    ensures KnownSet(Without(t, gone)) == KnownSet(t)
    ensures ConfirmedSet(cat, Without(t, gone)) == ConfirmedSet(cat, t)
    ensures |Without(t, gone).pruned| == |t.pruned| + |gone|
  {
  }

  /** What the deletion amounts to. */
  ghost predicate Pruned(cat: Catalog, t0: Tables, start: Hash, t: Tables, count: nat)
    requires RowsMatch(cat, t0)
  {
    if start in t0.blocks && start != cat.constants.genesisHash then
      t == Without(t0, DownFrom(cat, t0, start)) && count == |DownFrom(cat, t0, start)| > 0
    else
      t == t0 && count == 0
  }

  lemma PrunedFacts(cat: Catalog, t0: Tables, start: Hash, t: Tables, count: nat)
    requires Sound(cat, t0) && (start == 0 || ConfirmedExistsOrPruned(t0, start)) && Pruned(cat, t0, start, t, count)
    ensures KnownSet(t) == KnownSet(t0) && ConfirmedSet(cat, t) == ConfirmedSet(cat, t0)
    ensures |t.pruned| == |t0.pruned| + count
    ensures FrontiersStored(t0) ==> (FrontiersStored(t) <==> !StartsAtFrontier(cat, t0, start))
  {
    ConfirmedReadsBack(cat, t0, start);
    if start in t0.blocks && start != cat.constants.genesisHash {
      WithoutKeepsSets(cat, t0, DownFrom(cat, t0, start));
      if FrontiersStored(t0) { FrontierKept(cat, t0, start); }
    }
  }

  /** The rows that go, told by account and height: the start and what lies below it in its chain, but not genesis. */
  lemma PrunedRows(cat: Catalog, t0: Tables, start: Hash, t: Tables, count: nat, h: Hash)
    requires Sound(cat, t0) && Pruned(cat, t0, start, t, count) && h in t0.blocks
    ensures t.heights == t0.heights && t.heads == t0.heads && t.blocks.Keys <= t0.blocks.Keys
    ensures h in t.blocks ==> t.blocks[h] == t0.blocks[h] && (h in t.pruned <==> h in t0.pruned)
    ensures h !in t.blocks ==> h in t.pruned
    ensures h !in t.blocks <==>
              && start in t0.blocks && start != cat.constants.genesisHash && h != cat.constants.genesisHash
              && t0.blocks[h].Account() == t0.blocks[start].Account()
              && t0.blocks[h].sideband.height <= t0.blocks[start].sideband.height
  {
    if start in t0.blocks {
      assert Placed(cat, h);
      assert t0.blocks[h].Account() == cat.blocks[h].Account() && t0.blocks[start].Account() == cat.blocks[start].Account();
    }
  }

  /** The caller asks to delete a stored confirmed frontier other than the genesis block. */
  predicate StartsAtFrontier(cat: Catalog, t: Tables, start: Hash) {
    start in t.blocks && start != cat.constants.genesisHash && IsFrontier(cat, t, start)
  }

  lemma DescendEnd(cat: Catalog, t0: Tables, t: Tables, start: Hash, count: nat)
    requires Sound(cat, t0) && start in cat.blocks && Known(t0, start)
    requires Descending(cat, t0, t, cat.blocks[start].Account(), cat.blocks[start].Height(), 0, count)
    ensures Sound(cat, t) && Pruned(cat, t0, start, t, count)
  {
    if start in t0.blocks && start != cat.constants.genesisHash {
      DownFromSelf(cat, t0, start);
    } else {
      SegmentBottom(cat, t0, start, cat.blocks[start].Height());
      assert DownFrom(cat, t0, start) == {};
      assert t.blocks == t0.blocks && t.pruned == t0.pruned;
    }
  }

  /**
    Deletes `start` and everything below it in its chain, and remembers the hashes. The batch size
    only decides how often the transaction is committed in between; the code divides by it.
   */
  method PruningAction(cat: Catalog, t0: Tables, start: Hash, batchSize: nat)
    returns (t: Tables, prunedCount: nat)
    requires Sound(cat, t0) && batchSize > 0
    requires start == 0 || ConfirmedExistsOrPruned(t0, start)
    ensures Sound(cat, t)
    ensures Pruned(cat, t0, start, t, prunedCount)
    ensures KnownSet(t) == KnownSet(t0) && ConfirmedSet(cat, t) == ConfirmedSet(cat, t0)
    ensures |t.pruned| == |t0.pruned| + prunedCount
    // no confirmed frontier is lost, unless the caller starts at one
    ensures FrontiersStored(t0) ==> (FrontiersStored(t) <==> !StartsAtFrontier(cat, t0, start))
  {
    t, prunedCount := t0, 0;
    if start != 0 {
      ConfirmedReadsBack(cat, t0, start);
      t, prunedCount := PruneChain(cat, t0, start);
    }
    PrunedFacts(cat, t0, start, t, prunedCount);
  }

  method PruneChain(cat: Catalog, t0: Tables, start: Hash)
    returns (t: Tables, prunedCount: nat)
    requires Sound(cat, t0) && start != 0 && Known(t0, start) && Confirmed(cat, t0, start)
    ensures Sound(cat, t) && Pruned(cat, t0, start, t, prunedCount)
  {
    t, prunedCount := t0, 0;
    var hash := start;
    ghost var a, high := cat.blocks[start].Account(), cat.blocks[start].Height();
    while hash != 0 && hash != cat.constants.genesisHash
      invariant Descending(cat, t0, t, a, high, hash, prunedCount)
      decreases Low(cat, hash)
    {
      DescendPrevious(cat, t0, hash);
      if hash in t.blocks {
        ConfirmedReadsBack(cat, t, hash);
        assert ConfirmedExistsOrPruned(t, hash);
        DescendOne(cat, t0, t, a, high, hash, prunedCount);
        var block := t.blocks[hash];
        t, hash, prunedCount := PruneIn(t, hash), block.Previous(), prunedCount + 1;
      } else {
        DescendDone(cat, t0, t, a, high, hash, prunedCount);
        assert hash in t.pruned;
        hash := 0;
      }
    }
    if hash != 0 { DescendDone(cat, t0, t, a, high, hash, prunedCount); }
    DescendEnd(cat, t0, t, start, prunedCount);
  }
}
