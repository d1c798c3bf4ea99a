/**
  The stored tables of the ledger and the invariant that cementing and pruning keep.

  A hash names one block, so every block a run ever meets is listed in a fixed `Catalog`. Whether
  a block is confirmed is never stored: it is read back by comparing its height with the
  confirmation height of its account.
 */
module LedgerStore {
  import opened Types
  import opened Blocks
  import MapSums

  datatype ConfirmationHeight = ConfirmationHeight(height: nat, frontier: Hash)

  datatype Tables = Tables(
    blocks: map<Hash, SavedBlock>,
    heads: map<Account, Hash>,
    heights: map<Account, ConfirmationHeight>,
    pruned: set<Hash>)

  datatype Catalog = Catalog(constants: Constants, blocks: map<Hash, SavedBlock>) {

    predicate Depends(h: Hash, d: Hash) {
      h in blocks && blocks[h].DependsOn(constants, d)
    }

    /** `h` and `g` would take the same place in the same account chain. */
    predicate SamePlace(h: Hash, g: Hash)
      requires h in blocks && g in blocks
    {
      blocks[h].Account() == blocks[g].Account() && blocks[h].Height() == blocks[g].Height()
    }
  }

  // ---------------------------------------------------------------------------------------------
  // What the code reads back from the tables

  /** A block that is stored or was pruned. */
  predicate Known(t: Tables, h: Hash) { h in t.pruned || h in t.blocks }

  function KnownSet(t: Tables): set<Hash> { t.blocks.Keys + t.pruned }

  /** The block, if it is stored and at or below the confirmation height of its account. */
  function ConfirmedBlock(t: Tables, h: Hash): Option<SavedBlock> {
    if h in t.blocks && t.blocks[h].Account() in t.heights &&
       t.blocks[h].Height() <= t.heights[t.blocks[h].Account()].height
    then Some(t.blocks[h]) else None
  }

  predicate ConfirmedExists(t: Tables, h: Hash) { ConfirmedBlock(t, h).Some? }

  predicate ConfirmedExistsOrPruned(t: Tables, h: Hash) {
    h in t.pruned || ConfirmedExists(t, h)
  }

  // ---------------------------------------------------------------------------------------------
  // The reference notions, which also make sense for a block whose row was pruned

  predicate Confirmed(cat: Catalog, t: Tables, h: Hash) {
    h in cat.blocks &&
    cat.blocks[h].Account() in t.heights &&
    cat.blocks[h].Height() <= t.heights[cat.blocks[h].Account()].height
  }

  function ConfirmedSet(cat: Catalog, t: Tables): set<Hash> {
    set h | h in KnownSet(t) && Confirmed(cat, t, h)
  }

  // ---------------------------------------------------------------------------------------------
  // The invariant

  /** Every row holds the block its hash names, and no block is both stored and pruned. */
  ghost predicate RowsMatch(cat: Catalog, t: Tables) {
    && t.blocks.Keys !! t.pruned
    && (forall h {:trigger h in cat.blocks} | h in t.pruned :: h in cat.blocks)
    && (forall h {:trigger h in cat.blocks} {:trigger t.blocks[h]} | h in t.blocks ::
          h in cat.blocks && t.blocks[h] == cat.blocks[h].SavedAt(t.blocks[h].sideband.timestamp))
  }

  /** Every dependency of a known block is known. */
  ghost predicate KnownClosed(cat: Catalog, t: Tables) {
    && !Known(t, 0)
    && forall h, d {:trigger cat.Depends(h, d)} | Known(t, h) && cat.Depends(h, d) :: Known(t, d)
  }

  /** The known blocks of an account are numbered 1, 2, 3, ... along `previous`, without forks. */
  ghost predicate Chained(cat: Catalog, t: Tables)
    requires RowsMatch(cat, t)
  {
    && (forall h {:trigger Placed(cat, h)} | Known(t, h) :: Placed(cat, h))
    && (forall h, g {:trigger cat.SamePlace(h, g)} | Known(t, h) && Known(t, g) && cat.SamePlace(h, g) :: h == g)
  }

  predicate Placed(cat: Catalog, h: Hash)
    requires h in cat.blocks
  {
    var b := cat.blocks[h];
    var p := b.Previous();
    if p == 0 then b.Height() == 1
    else p in cat.blocks && cat.blocks[p].Account() == b.Account() && b.Height() == cat.blocks[p].Height() + 1
  }

  /** An account head is the last known block of its chain. */
  ghost predicate HeadsMatch(cat: Catalog, t: Tables)
    requires RowsMatch(cat, t)
  {
    && (forall a | a in t.heads :: Known(t, t.heads[a]) && cat.blocks[t.heads[a]].Account() == a)
    && (forall h {:trigger BelowHead(cat, t.heads, h)} | Known(t, h) :: BelowHead(cat, t.heads, h))
  }

  predicate BelowHead(cat: Catalog, heads: map<Account, Hash>, h: Hash)
    requires h in cat.blocks
  {
    var a := cat.blocks[h].Account();
    a in heads && heads[a] in cat.blocks && cat.blocks[h].Height() <= cat.blocks[heads[a]].Height()
  }

  /** A confirmation height names a known block of that account at that height. */
  ghost predicate HeightsMatch(cat: Catalog, t: Tables)
    requires RowsMatch(cat, t)
  {
    forall a {:trigger FrontierPlaced(cat, t, a)} | a in t.heights :: FrontierPlaced(cat, t, a)
  }

  predicate FrontierPlaced(cat: Catalog, t: Tables, a: Account)
    requires a in t.heights
  {
    var f := t.heights[a].frontier;
    Known(t, f) && f in cat.blocks && cat.blocks[f].Account() == a && cat.blocks[f].Height() == t.heights[a].height
  }

  /** Every dependency of a confirmed block is confirmed. */
  ghost predicate ConfirmedClosed(cat: Catalog, t: Tables) {
    forall h, d {:trigger cat.Depends(h, d)} | Known(t, h) && Confirmed(cat, t, h) && cat.Depends(h, d) ::
      Confirmed(cat, t, d)
  }

  /** Only confirmed blocks are pruned, and never the genesis block. */
  ghost predicate PrunedConfirmed(cat: Catalog, t: Tables)
    requires RowsMatch(cat, t)
  {
    && cat.constants.genesisHash in t.blocks
    && cat.blocks[cat.constants.genesisHash].Previous() == 0
    && Confirmed(cat, t, cat.constants.genesisHash)
    && (forall h {:trigger Confirmed(cat, t, h)} | h in t.pruned :: Confirmed(cat, t, h))
  }

  /** Blocks are pruned from the bottom of a chain upwards. */
  ghost predicate PrunedBottom(cat: Catalog, t: Tables)
    requires RowsMatch(cat, t)
  {
    forall h {:trigger AbovePruned(cat, t.pruned, h)} | h in t.pruned :: AbovePruned(cat, t.pruned, h)
  }

  /** The block before `h` is not stored any more, unless it is the genesis block. */
  predicate AbovePruned(cat: Catalog, pruned: set<Hash>, h: Hash)
    requires h in cat.blocks
  {
    var p := cat.blocks[h].Previous();
    p == 0 || p == cat.constants.genesisHash || p in pruned
  }

  ghost predicate Shape(cat: Catalog, t: Tables) {
    && RowsMatch(cat, t)
    && KnownClosed(cat, t)
    && Chained(cat, t)
    && HeadsMatch(cat, t)
    && HeightsMatch(cat, t)
    && ConfirmedClosed(cat, t)
    && PrunedConfirmed(cat, t)
  }

  /** The part of the invariant that survives even the pruning of a confirmed frontier. */
  ghost predicate Sound(cat: Catalog, t: Tables) {
    Shape(cat, t) && PrunedBottom(cat, t)
  }

  /** No confirmed frontier was pruned. */
  ghost predicate FrontiersStored(t: Tables) {
    forall a | a in t.heights :: t.heights[a].frontier in t.blocks
  }

  /** Dependencies were saved before the blocks that depend on them. */
  ghost predicate Ranked(cat: Catalog, t: Tables, rank: map<Hash, nat>) {
    && (forall h | Known(t, h) :: h in rank)
    && forall h, d {:trigger cat.Depends(h, d)} | Known(t, h) && Known(t, d) && cat.Depends(h, d) ::
         rank[d] < rank[h]
  }

  /** What a restart would recompute as the cemented count. */
  ghost function HeightTotal(heights: map<Account, ConfirmationHeight>): nat {
    MapSums.Sum(HeightColumn(heights))
  }

  function HeightColumn(heights: map<Account, ConfirmationHeight>): map<nat, nat> {
    map a: nat | a in heights :: heights[a].height
  }

  lemma HeightTotalPut(heights: map<Account, ConfirmationHeight>, a: Account, info: ConfirmationHeight)
    ensures HeightTotal(heights[a := info]) ==
            HeightTotal(heights) - (if a in heights then heights[a].height else 0) + info.height
  {
    MapSums.SumPut(HeightColumn(heights), a, info.height);
    assert HeightColumn(heights[a := info]) == HeightColumn(heights)[a := info.height];
  }

  ghost predicate Consistent(cat: Catalog, t: Tables, rank: map<Hash, nat>) {
    Sound(cat, t) && FrontiersStored(t) && Ranked(cat, t, rank)
  }

  /** The counters equal what a restart recomputes, and the cemented count the number of confirmed blocks. */
  ghost predicate Counted(cat: Catalog, t: Tables, cemented: nat, pruned: nat) {
    && cemented == HeightTotal(t.heights)
    && cemented == |ConfirmedSet(cat, t)|
    && pruned == |t.pruned|
  }

  // ---------------------------------------------------------------------------------------------
  // Consequences

  /** The test the code performs on the tables agrees with the reference notion. */
  lemma ConfirmedReadsBack(cat: Catalog, t: Tables, h: Hash)
    requires Shape(cat, t)
    ensures ConfirmedExistsOrPruned(t, h) <==> Known(t, h) && Confirmed(cat, t, h)
  {
  }

  /** Confirmation is closed downwards in an account chain. */
  lemma FrontierTops(cat: Catalog, t: Tables, h: Hash)
    requires Shape(cat, t) && Known(t, h) && Confirmed(cat, t, h)
    ensures var info := t.heights[cat.blocks[h].Account()];
            cat.blocks[h].Height() < info.height || h == info.frontier
  {
    var a := cat.blocks[h].Account();
    assert FrontierPlaced(cat, t, a);
    var f := t.heights[a].frontier;
    if cat.blocks[h].Height() == t.heights[a].height {
      assert cat.SamePlace(h, f);
    }
  }

  // ---------------------------------------------------------------------------------------------
  // Saving and rolling back a block, by contract

  /** What block validation guarantees of a block before it is saved. */
  predicate CanAppend(cat: Catalog, t: Tables, hash: Hash) {
    && hash != 0
    && hash in cat.blocks
    && !Known(t, hash)
    && var b := cat.blocks[hash];
       && (b.DependentBlocks(cat.constants).0 == 0 || Known(t, b.DependentBlocks(cat.constants).0))
       && (b.DependentBlocks(cat.constants).1 == 0 || Known(t, b.DependentBlocks(cat.constants).1))
       && if b.Account() in t.heads then
            && b.Previous() == t.heads[b.Account()]
            && b.Previous() in t.blocks
            && b.Height() == t.blocks[b.Previous()].Height() + 1
          else
            b.Previous() == 0 && b.Height() == 1
  }

  function AppendTo(cat: Catalog, t: Tables, hash: Hash, now: U64): Tables
    requires hash in cat.blocks
  {
    t.(blocks := t.blocks[hash := cat.blocks[hash].SavedAt(now)],
       heads := t.heads[cat.blocks[hash].Account() := hash])
  }

  lemma AppendKnown(cat: Catalog, t: Tables, hash: Hash, now: U64)
    requires hash in cat.blocks
    ensures forall h :: Known(AppendTo(cat, t, hash, now), h) <==> Known(t, h) || h == hash
    ensures forall h :: Confirmed(cat, AppendTo(cat, t, hash, now), h) <==> Confirmed(cat, t, h)
  {
  }

  lemma AppendNotConfirmed(cat: Catalog, t: Tables, hash: Hash)
    requires Sound(cat, t) && CanAppend(cat, t, hash)
    ensures !Confirmed(cat, t, hash)
  {
    var b := cat.blocks[hash];
    var a := b.Account();
    if a in t.heights {
      var f := t.heights[a].frontier;
      assert FrontierPlaced(cat, t, a);
      assert BelowHead(cat, t.heads, f);
    }
  }

  lemma AppendKeepsChains(cat: Catalog, t: Tables, hash: Hash, now: U64)
    requires Sound(cat, t) && CanAppend(cat, t, hash)
    ensures var t' := AppendTo(cat, t, hash, now);
            RowsMatch(cat, t') && Chained(cat, t') && HeadsMatch(cat, t')
  {
    var t' := AppendTo(cat, t, hash, now);
    AppendKnown(cat, t, hash, now);
    var b := cat.blocks[hash];
    var a := b.Account();
    assert Placed(cat, hash);
    forall h | Known(t, h)
      ensures !cat.SamePlace(h, hash)
    {
      assert BelowHead(cat, t.heads, h);
    }
    forall h | Known(t', h)
      ensures BelowHead(cat, t'.heads, h)
    {
      if h != hash { assert BelowHead(cat, t.heads, h); }
    }
  }

  lemma AppendKeepsSound(cat: Catalog, t: Tables, hash: Hash, now: U64)
    requires Sound(cat, t) && CanAppend(cat, t, hash)
    ensures var t' := AppendTo(cat, t, hash, now);
            Sound(cat, t') && (FrontiersStored(t) ==> FrontiersStored(t'))
    ensures ConfirmedSet(cat, AppendTo(cat, t, hash, now)) == ConfirmedSet(cat, t)
  {
    var t' := AppendTo(cat, t, hash, now);
    AppendKnown(cat, t, hash, now);
    AppendKeepsChains(cat, t, hash, now);
    AppendNotConfirmed(cat, t, hash);
    forall x | x in t'.heights
      ensures FrontierPlaced(cat, t', x)
    {
      assert FrontierPlaced(cat, t, x);
    }
  }

  /** A roll back removes an unconfirmed account head that nothing stored depends on. */
  predicate CanRollBack(cat: Catalog, t: Tables, hash: Hash) {
    && hash in t.blocks
    && !ConfirmedExists(t, hash)
    && t.blocks[hash].Account() in t.heads
    && t.heads[t.blocks[hash].Account()] == hash
    && forall h | h in t.blocks :: !t.blocks[h].DependsOn(cat.constants, hash)
  }

  function RollBackFrom(t: Tables, hash: Hash): Tables
    requires hash in t.blocks
  {
    var b := t.blocks[hash];
    t.(blocks := t.blocks - {hash},
       heads := if b.Previous() == 0 then t.heads - {b.Account()} else t.heads[b.Account() := b.Previous()])
  }

  lemma RollBackKnown(cat: Catalog, t: Tables, hash: Hash)
    requires Sound(cat, t) && CanRollBack(cat, t, hash)
    ensures hash in cat.blocks && !Confirmed(cat, t, hash)
    ensures forall h :: Known(RollBackFrom(t, hash), h) <==> Known(t, h) && h != hash
    ensures forall h :: Confirmed(cat, RollBackFrom(t, hash), h) <==> Confirmed(cat, t, h)
    ensures forall h | Known(t, h) :: !cat.Depends(h, hash)
  {
  }

  lemma RollBackKeepsHeads(cat: Catalog, t: Tables, hash: Hash)
    requires Sound(cat, t) && CanRollBack(cat, t, hash)
    ensures RowsMatch(cat, RollBackFrom(t, hash)) && HeadsMatch(cat, RollBackFrom(t, hash))
  {
    var t' := RollBackFrom(t, hash);
    RollBackKnown(cat, t, hash);
    var b := cat.blocks[hash];
    var a := b.Account();
    assert Placed(cat, hash);
    if b.Previous() != 0 { DependsOnPrevious(b, cat.constants, 0); assert cat.Depends(hash, b.Previous()); }
    forall h | Known(t', h)
      ensures BelowHead(cat, t'.heads, h)
    {
      assert BelowHead(cat, t.heads, h);
      if cat.blocks[h].Account() == a {
        assert !cat.SamePlace(h, hash);
        assert Placed(cat, h);
      }
    }
  }

  lemma RollBackKeepsSound(cat: Catalog, t: Tables, hash: Hash)
    requires Sound(cat, t) && CanRollBack(cat, t, hash)
    ensures var t' := RollBackFrom(t, hash);
            Sound(cat, t') && (FrontiersStored(t) ==> FrontiersStored(t'))
    ensures ConfirmedSet(cat, RollBackFrom(t, hash)) == ConfirmedSet(cat, t)
  {
    var t' := RollBackFrom(t, hash);
    RollBackKnown(cat, t, hash);
    RollBackKeepsHeads(cat, t, hash);
    forall x | x in t'.heights
      ensures FrontierPlaced(cat, t', x) && t'.heights[x].frontier != hash
    {
      assert FrontierPlaced(cat, t, x);
    }
  }

  /** A block just saved is there with its time, and can be rolled back; then nothing has happened. */
  lemma AppendThenRollBack(cat: Catalog, t: Tables, hash: Hash, now: U64)
    requires Sound(cat, t) && CanAppend(cat, t, hash)
    ensures var t' := AppendTo(cat, t, hash, now);
            && t'.blocks[hash] == SavedBlock(cat.blocks[hash].block, cat.blocks[hash].sideband.(timestamp := now))
            && CanRollBack(cat, t', hash) && RollBackFrom(t', hash) == t
  {
    var t' := AppendTo(cat, t, hash, now);
    var b := cat.blocks[hash];
    AppendNotConfirmed(cat, t, hash);
    forall h | h in t'.blocks
      ensures !t'.blocks[h].DependsOn(cat.constants, hash)
    {
      DependsOnPrevious(cat.blocks[h], cat.constants, t'.blocks[h].sideband.timestamp);
      assert cat.Depends(h, hash) ==> h == hash;
    }
    assert t'.blocks - {hash} == t.blocks;
    assert b.Previous() == 0 ==> t'.heads - {b.Account()} == t.heads;
    assert b.Previous() != 0 ==> t'.heads[b.Account() := b.Previous()] == t.heads;
  }

  /** A block just rolled back can be saved again, and saved at its old time it leaves the tables as they were. */
  lemma RollBackThenAppend(cat: Catalog, t: Tables, rank: map<Hash, nat>, hash: Hash)
    requires Consistent(cat, t, rank) && CanRollBack(cat, t, hash)
    ensures var t' := RollBackFrom(t, hash);
            CanAppend(cat, t', hash) && AppendTo(cat, t', hash, t.blocks[hash].sideband.timestamp) == t
  {
    var t', b := RollBackFrom(t, hash), cat.blocks[hash];
    RollBackKnown(cat, t, hash);
    DependsOnPrevious(b, cat.constants, t.blocks[hash].sideband.timestamp);
    assert Placed(cat, hash);
    var p := b.Previous();
    if p != 0 {
      assert cat.Depends(hash, p);
      if p in t.pruned {
        FrontierTops(cat, t, p);
      }
    }
    forall d | cat.Depends(hash, d) ensures Known(t', d) { }
    hide Consistent, Sound;
    assert t'.blocks[hash := t.blocks[hash]] == t.blocks;
    assert t'.heads[b.Account() := hash] == t.heads;
  }

  // ---------------------------------------------------------------------------------------------
  // Cementing one block

  function CementIn(t: Tables, h: Hash): Tables
    requires h in t.blocks
  {
    var b := t.blocks[h];
    t.(heights := t.heights[b.Account() := ConfirmationHeight(b.Height(), h)])
  }

  /** The height of the account before `h` is cemented is exactly one less. */
  lemma CementRaisesByOne(cat: Catalog, t: Tables, h: Hash)
    requires Sound(cat, t) && h in t.blocks && !Confirmed(cat, t, h)
    requires forall d | cat.Depends(h, d) :: Confirmed(cat, t, d)
    ensures var b := cat.blocks[h];
            if b.Account() in t.heights then b.Height() == t.heights[b.Account()].height + 1 else b.Height() == 1
  {
    var b := cat.blocks[h];
    assert Placed(cat, h);
    if b.Previous() != 0 {
      DependsOnPrevious(b, cat.constants, 0);
      assert cat.Depends(h, b.Previous());
    } else if b.Account() in t.heights {
      assert FrontierPlaced(cat, t, b.Account());
      assert Placed(cat, t.heights[b.Account()].frontier);
    }
  }

  lemma CementConfirms(cat: Catalog, t: Tables, h: Hash)
    requires Sound(cat, t) && h in t.blocks && !Confirmed(cat, t, h)
    requires forall d | cat.Depends(h, d) :: Confirmed(cat, t, d)
    ensures forall x | Known(t, x) :: Confirmed(cat, CementIn(t, h), x) <==> Confirmed(cat, t, x) || x == h
    ensures ConfirmedSet(cat, CementIn(t, h)) == ConfirmedSet(cat, t) + {h}
    ensures h !in ConfirmedSet(cat, t)
  {
    CementRaisesByOne(cat, t, h);
    forall x | Known(t, x)
      ensures Confirmed(cat, CementIn(t, h), x) <==> Confirmed(cat, t, x) || x == h
    {
      assert Placed(cat, x);
      if x != h { assert !cat.SamePlace(x, h); }
    }
  }

  lemma CementKeepsShape(cat: Catalog, t: Tables, h: Hash)
    requires Sound(cat, t) && h in t.blocks
    ensures var t' := CementIn(t, h);
            && RowsMatch(cat, t') && KnownClosed(cat, t') && Chained(cat, t')
            && HeadsMatch(cat, t') && HeightsMatch(cat, t')
            && (FrontiersStored(t) ==> FrontiersStored(t'))
  {
    var t' := CementIn(t, h);
    assert forall x :: Known(t', x) <==> Known(t, x);
    forall x | x in t'.heights
      ensures FrontierPlaced(cat, t', x)
    {
      if x != t.blocks[h].Account() { assert FrontierPlaced(cat, t, x); }
    }
  }

  lemma CementKeepsSound(cat: Catalog, t: Tables, h: Hash)
    requires Sound(cat, t) && h in t.blocks && !Confirmed(cat, t, h)
    requires forall d | cat.Depends(h, d) :: Confirmed(cat, t, d)
    ensures Sound(cat, CementIn(t, h))
  {
    var t' := CementIn(t, h);
    CementConfirms(cat, t, h);
    CementKeepsShape(cat, t, h);
    assert ConfirmedClosed(cat, t') by {
      forall x, d | Known(t', x) && Confirmed(cat, t', x) && cat.Depends(x, d)
        ensures Confirmed(cat, t', d)
      {
        assert Known(t, x) && Known(t, d);
      }
    }
    assert PrunedConfirmed(cat, t') by {
      forall x | x in t'.pruned ensures Confirmed(cat, t', x) { assert Known(t, x); }
    }
  }

  lemma CementHeights(cat: Catalog, t: Tables, h: Hash)
    requires Sound(cat, t) && h in t.blocks && !Confirmed(cat, t, h)
    requires forall d | cat.Depends(h, d) :: Confirmed(cat, t, d)
    ensures HeightTotal(CementIn(t, h).heights) == HeightTotal(t.heights) + 1
  {
    CementRaisesByOne(cat, t, h);
    var b := t.blocks[h];
    HeightTotalPut(t.heights, b.Account(), ConfirmationHeight(b.Height(), h));
  }

  /** Cementing a block raises the total of all heights and the number of confirmed blocks by exactly one. */
  lemma CementCounts(cat: Catalog, t: Tables, h: Hash)
    requires Sound(cat, t) && h in t.blocks && !Confirmed(cat, t, h)
    requires forall d | cat.Depends(h, d) :: Confirmed(cat, t, d)
    ensures HeightTotal(CementIn(t, h).heights) == HeightTotal(t.heights) + 1
    ensures |ConfirmedSet(cat, CementIn(t, h))| == |ConfirmedSet(cat, t)| + 1
  {
    CementHeights(cat, t, h);
    CementConfirms(cat, t, h);
    assert h !in ConfirmedSet(cat, t);
  }

  // ---------------------------------------------------------------------------------------------
  // Write transactions: each works on the tables it is given and hands back the new ones

  /** What other writers may do while a transaction is being refreshed. */
  datatype WriterStep = Save(hash: Hash, now: U64) | Undo(hash: Hash)

  /** From `t` to `t'` nothing was cemented or pruned; in particular every counter stays right. */
  ghost predicate SameProgress(cat: Catalog, t: Tables, t': Tables) {
    && ConfirmedSet(cat, t') == ConfirmedSet(cat, t)
    && t'.heights == t.heights
    && t'.pruned == t.pruned
  }

  method AppendRow(cat: Catalog, t: Tables, ghost rank: map<Hash, nat>, hash: Hash, now: U64)
    returns (ok: bool, t': Tables, ghost rank': map<Hash, nat>)
    requires Consistent(cat, t, rank)
    ensures Consistent(cat, t', rank') && SameProgress(cat, t, t')
    ensures ok <==> CanAppend(cat, t, hash)
    ensures t' == if ok then AppendTo(cat, t, hash, now) else t
  {
    ok, t', rank' := CanAppend(cat, t, hash), t, rank;
    if ok {
      AppendKeepsConsistent(cat, t, hash, now, rank);
      t', rank' := AppendTo(cat, t, hash, now), rank[hash := NextRank(rank)];
    }
  }

  method RollBackRow(cat: Catalog, t: Tables, ghost rank: map<Hash, nat>, hash: Hash)
    returns (ok: bool, t': Tables)
    requires Consistent(cat, t, rank)
    ensures Consistent(cat, t', rank) && SameProgress(cat, t, t')
    ensures ok <==> CanRollBack(cat, t, hash)
    ensures t' == if ok then RollBackFrom(t, hash) else t
  {
    ok, t' := CanRollBack(cat, t, hash), t;
    if ok {
      RollBackKeepsConsistent(cat, t, hash, rank);
      t' := RollBackFrom(t, hash);
    }
  }

  /** A refresh commits the transaction and lets other writers save and roll back blocks. */
  method Refresh(cat: Catalog, t: Tables, ghost rank: map<Hash, nat>, steps: seq<WriterStep>)
    returns (t': Tables, ghost rank': map<Hash, nat>)
    requires Consistent(cat, t, rank)
    ensures Consistent(cat, t', rank') && SameProgress(cat, t, t')
  {
    t', rank' := t, rank;
    for i := 0 to |steps|
      invariant Consistent(cat, t', rank') && SameProgress(cat, t, t')
    {
      var ok;
      match steps[i]
      case Save(hash, now) => ok, t', rank' := AppendRow(cat, t', rank', hash, now);
      case Undo(hash) => ok, t' := RollBackRow(cat, t', rank', hash);
    }
  }

  // ---------------------------------------------------------------------------------------------
  // Where the ranks come from, and the first state

  /** A number above every rank given so far. */
  ghost function NextRank(rank: map<Hash, nat>): (r: nat)
    ensures forall h | h in rank :: rank[h] < r
    decreases |rank|
  {
    if rank == map[] then 0
    else
      var k :| k in rank;
      var rest := NextRank(rank - {k});
      assert forall h | h in rank && h != k :: h in rank - {k};
      if rank[k] < rest then rest else rank[k] + 1
  }

  lemma AppendKeepsConsistent(cat: Catalog, t: Tables, hash: Hash, now: U64, rank: map<Hash, nat>)
    requires Consistent(cat, t, rank) && CanAppend(cat, t, hash)
    ensures Consistent(cat, AppendTo(cat, t, hash, now), rank[hash := NextRank(rank)])
    ensures SameProgress(cat, t, AppendTo(cat, t, hash, now))
  {
    AppendKeepsSound(cat, t, hash, now);
    AppendKnown(cat, t, hash, now);
  }

  lemma RollBackKeepsConsistent(cat: Catalog, t: Tables, hash: Hash, rank: map<Hash, nat>)
    requires Consistent(cat, t, rank) && CanRollBack(cat, t, hash)
    ensures Consistent(cat, RollBackFrom(t, hash), rank)
    ensures SameProgress(cat, t, RollBackFrom(t, hash))
  {
    RollBackKeepsSound(cat, t, hash);
    RollBackKnown(cat, t, hash);
  }

  lemma GenesisSound(cat: Catalog, now: U64)
    requires cat.constants.genesisHash != 0 && cat.constants.genesisHash in cat.blocks
    requires var g := cat.blocks[cat.constants.genesisHash];
             g.block.body.LegacyOpen? && g.Account() == cat.constants.genesisAccount && g.Height() == 1
    ensures var hash, account := cat.constants.genesisHash, cat.constants.genesisAccount;
            var t := Tables(map[hash := cat.blocks[hash].SavedAt(now)], map[account := hash],
                            map[account := ConfirmationHeight(1, hash)], {});
            Sound(cat, t) && HeightTotal(t.heights) == 1 && ConfirmedSet(cat, t) == {hash} == KnownSet(t)
  {
    var hash, account := cat.constants.genesisHash, cat.constants.genesisAccount;
    var t := Tables(map[hash := cat.blocks[hash].SavedAt(now)], map[account := hash],
                    map[account := ConfirmationHeight(1, hash)], {});
    assert forall x :: Known(t, x) <==> x == hash;
    assert Placed(cat, hash) && BelowHead(cat, t.heads, hash) && FrontierPlaced(cat, t, account);
    HeightTotalPut(map[], account, ConfirmationHeight(1, hash));
    assert t.heights == map[][account := ConfirmationHeight(1, hash)];
  }
}
