/** A whole pruning run: the scan and the deletions take turns until both are finished. */
module PruningRun {
  import opened Types
  import opened LedgerStore
  import opened Pruning
  import opened PruningScan
  import opened Cursor

  // ---------------------------------------------------------------------------------------------
  // Accounts do not disturb each other

  /** Nothing of the chain of `a` is in `gone`. */
  ghost predicate Spares(cat: Catalog, gone: set<Hash>, a: nat) {
    forall h | h in gone :: h in cat.blocks && cat.blocks[h].Account() != a
  }

  lemma {:induction false} AncestorSame(cat: Catalog, t: Tables, gone: set<Hash>, a: Account, n: nat)
    requires Shape(cat, t) && a in t.heights && Spares(cat, gone, a)
    ensures Ancestor(Without(t, gone), t.heights[a].frontier, n) == Ancestor(t, t.heights[a].frontier, n)
  {
    if n > 0 {
      AncestorSame(cat, t, gone, a, n - 1);
      AncestorInChain(cat, t, a, n - 1);
    }
  }

  lemma StopsSame(cat: Catalog, t: Tables, gone: set<Hash>, a: Account, lim: Limits, i: nat)
    requires Shape(cat, t) && a in t.heights && Spares(cat, gone, a)
    ensures StopsAt(Without(t, gone), t.heights[a].frontier, lim, i) <==> StopsAt(t, t.heights[a].frontier, lim, i)
  {
    forall j: nat | j <= i
      ensures var x := Ancestor(t, t.heights[a].frontier, j);
              x == Ancestor(Without(t, gone), t.heights[a].frontier, j) &&
              (x in t.blocks <==> x in Without(t, gone).blocks)
    {
      AncestorSame(cat, t, gone, a, j);
      AncestorInChain(cat, t, a, j);
    }
  }

  lemma AccountTargetSame(cat: Catalog, t: Tables, gone: set<Hash>, a: nat, lim: Limits)
    requires Shape(cat, t) && Spares(cat, gone, a)
    ensures AccountTarget(Without(t, gone), a, lim) == AccountTarget(t, a, lim)
  {
    if a in t.heights {
      var f := t.heights[a].frontier;
      forall i: nat { StopsSame(cat, t, gone, a, lim, i); }
      if i: nat :| StopsAt(t, f, lim, i) {
        TargetFound(t, f, lim, i);
        TargetFound(Without(t, gone), f, lim, i);
        AncestorSame(cat, t, gone, a, i);
      }
    }
  }

  // ---------------------------------------------------------------------------------------------
  // What a run deletes

  /** `h` lies at or below the pruning target of its account. */
  ghost predicate Doomed(cat: Catalog, t: Tables, lim: Limits, h: Hash) {
    && h in cat.blocks && h != cat.constants.genesisHash
    && var a := cat.blocks[h].Account();
       var target := AccountTarget(t, a, lim);
       target != 0 && target in cat.blocks && cat.blocks[h].Height() <= cat.blocks[target].Height()
  }

  /** The confirmed accounts, without the burn account 0. */
  ghost function Scanned(t: Tables): set<nat> { set a | a in t.heights.Keys && a >= 1 }

  ghost function DoomedOf(cat: Catalog, t: Tables, lim: Limits, accounts: set<nat>): set<Hash>
    requires RowsMatch(cat, t)
  {
    set h | h in t.blocks && cat.blocks[h].Account() in accounts && Doomed(cat, t, lim, h)
  }

  lemma DoomedSpares(cat: Catalog, t: Tables, lim: Limits, accounts: set<nat>, a: nat)
    requires RowsMatch(cat, t) && a !in accounts
    ensures Spares(cat, DoomedOf(cat, t, lim, accounts), a)
    ensures DoomedOf(cat, t, lim, accounts + {a}) == DoomedOf(cat, t, lim, accounts) + DoomedOf(cat, t, lim, {a})
  {
  }

  lemma HeightsPositive(cat: Catalog, t: Tables)
    requires Shape(cat, t)
    ensures forall h | h in t.blocks :: h in cat.blocks && cat.blocks[h].Height() > 0
  {
    forall h | h in t.blocks ensures h in cat.blocks && cat.blocks[h].Height() > 0 { assert Placed(cat, h); }
  }

  lemma DoomedIsDownFrom(cat: Catalog, t: Tables, lim: Limits, gone: set<Hash>, a: Account)
    requires Sound(cat, t) && a in t.heights && AccountTarget(t, a, lim) != 0 && Spares(cat, gone, a)
    requires RowsMatch(cat, Without(t, gone))
    ensures AccountTarget(t, a, lim) in cat.blocks
    ensures DownFrom(cat, Without(t, gone), AccountTarget(t, a, lim)) == DoomedOf(cat, t, lim, {a})
  {
    TargetBelowFrontier(cat, t, a, lim);
    HeightsPositive(cat, t);
  }

  lemma DoomedNone(cat: Catalog, t: Tables, lim: Limits, a: Account)
    requires Sound(cat, t) && a in t.heights && AccountTarget(t, a, lim) != 0
    requires AccountTarget(t, a, lim) !in t.blocks || AccountTarget(t, a, lim) == cat.constants.genesisHash
    ensures DoomedOf(cat, t, lim, {a}) == {}
  {
    var target := AccountTarget(t, a, lim);
    TargetBelowFrontier(cat, t, a, lim);
    HeightsPositive(cat, t);
    SegmentBottom(cat, t, target, cat.blocks[target].Height());
    assert DoomedOf(cat, t, lim, {a}) <= Segment(cat, t, a, 0, cat.blocks[target].Height());
  }

  lemma WithoutTwice(t: Tables, gone: set<Hash>, more: set<Hash>)
    ensures Without(Without(t, gone), more) == Without(t, gone + more)
  {
  }

  /** Deleting from the target of one more account down removes exactly its doomed blocks. */
  lemma DeleteAccount(cat: Catalog, t: Tables, lim: Limits, handled: set<nat>, a: Account, t': Tables, count: nat)
    requires Sound(cat, t) && a in t.heights && a !in handled && AccountTarget(t, a, lim) != 0
    requires RowsMatch(cat, Without(t, DoomedOf(cat, t, lim, handled)))
    requires Pruned(cat, Without(t, DoomedOf(cat, t, lim, handled)), AccountTarget(t, a, lim), t', count)
    ensures t' == Without(t, DoomedOf(cat, t, lim, handled + {a}))
  {
    var gone := DoomedOf(cat, t, lim, handled);
    var target := AccountTarget(t, a, lim);
    DoomedSpares(cat, t, lim, handled, a);
    TargetBelowFrontier(cat, t, a, lim);
    if target in t.blocks && target != cat.constants.genesisHash {
      assert target !in gone;
      DoomedIsDownFrom(cat, t, lim, gone, a);
      WithoutTwice(t, gone, DoomedOf(cat, t, lim, {a}));
    } else {
      DoomedNone(cat, t, lim, a);
      assert gone + DoomedOf(cat, t, lim, {a}) == gone;
    }
  }

  /**
    What the deleted blocks have in common: each lies at or below a target `i` steps under the confirmed
    frontier of its account, and that target was saved by the cutoff or lies at the depth limit.
   */
  lemma DeletedBelowTarget(cat: Catalog, t: Tables, lim: Limits, accounts: set<nat>, h: Hash) returns (a: Account, i: nat)
    requires Sound(cat, t) && h in DoomedOf(cat, t, lim, accounts)
    ensures h != cat.constants.genesisHash && h in t.blocks && a == cat.blocks[h].Account() && a in t.heights
    ensures 1 <= i <= lim.maxDepth && cat.blocks[h].Height() + i <= t.heights[a].height
    ensures var target := Ancestor(t, t.heights[a].frontier, i);
            target != 0 && (SavedAfter(t, target, lim.cutoff) ==> i == lim.maxDepth)
    ensures forall j | 1 <= j < i :: SavedAfter(t, Ancestor(t, t.heights[a].frontier, j), lim.cutoff)
  {
    a := cat.blocks[h].Account();
    i := TargetAge(t, t.heights[a].frontier, lim);
    AncestorInChain(cat, t, a, i);
    assert FrontierPlaced(cat, t, a);
  }

  /** Blocks higher up in a chain were not saved earlier. */
  ghost predicate TimesAscend(cat: Catalog, t: Tables)
    requires RowsMatch(cat, t)
  {
    forall h, g | h in t.blocks && g in t.blocks && cat.blocks[h].Account() == cat.blocks[g].Account() &&
                  cat.blocks[h].Height() <= cat.blocks[g].Height() ::
      t.blocks[h].sideband.timestamp <= t.blocks[g].sideband.timestamp
  }

  /** So in a chain saved in order, a deleted block was saved by the cutoff or lies at least the depth limit down. */
  lemma DeletedAge(cat: Catalog, t: Tables, lim: Limits, accounts: set<nat>, h: Hash)
    requires Sound(cat, t) && TimesAscend(cat, t) && h in DoomedOf(cat, t, lim, accounts)
    ensures h in t.blocks && cat.blocks[h].Account() in t.heights
    ensures t.blocks[h].sideband.timestamp <= lim.cutoff ||
            cat.blocks[h].Height() + lim.maxDepth <= t.heights[cat.blocks[h].Account()].height
  {
    var a, i := DeletedBelowTarget(cat, t, lim, accounts, h);
    var target := Ancestor(t, t.heights[a].frontier, i);
    AncestorInChain(cat, t, a, i);
    assert FrontierPlaced(cat, t, a);
    if target in t.pruned { NothingBelowPruned(cat, t, target, h); }
  }

  /** Conversely the first old enough ancestor, or the one at the depth limit, goes, with all below it. */
  lemma OldBlocksGo(cat: Catalog, t: Tables, lim: Limits, a: Account, i: nat, h: Hash)
    requires Sound(cat, t) && a in Scanned(t) && 1 <= i <= lim.maxDepth
    requires var f := t.heights[a].frontier;
             && Ancestor(t, f, i) in t.blocks
             && (forall j | 1 <= j < i :: SavedAfter(t, Ancestor(t, f, j), lim.cutoff))
             && (i == lim.maxDepth || !SavedAfter(t, Ancestor(t, f, i), lim.cutoff))
    requires h in t.blocks && h != cat.constants.genesisHash && cat.blocks[h].Account() == a
    requires cat.blocks[h].Height() + i <= t.heights[a].height
    ensures h in DoomedOf(cat, t, lim, Scanned(t))
  {
    OldIsTarget(t, t.heights[a].frontier, lim, i);
    AncestorInChain(cat, t, a, i);
    assert FrontierPlaced(cat, t, a);
  }

  // ---------------------------------------------------------------------------------------------
  // The queue of targets

  /** Those of the accounts that have a target. */
  ghost function WithTarget(t: Tables, accounts: seq<nat>, lim: Limits): seq<nat> {
    if accounts == [] then []
    else
      var a := accounts[|accounts| - 1];
      WithTarget(t, accounts[..|accounts| - 1], lim) + (if AccountTarget(t, a, lim) != 0 then [a] else [])
  }

  ghost predicate Distinct(s: seq<nat>) {
    forall i, j | 0 <= i < j < |s| :: s[i] != s[j]
  }

  /** `queue` holds the targets of the accounts `owners`, one each. */
  ghost predicate Owned(t: Tables, lim: Limits, queue: seq<Hash>, owners: seq<nat>) {
    && |queue| == |owners|
    && forall i | 0 <= i < |owners| :: queue[i] != 0 && queue[i] == AccountTarget(t, owners[i], lim)
  }

  lemma {:induction false} TargetsOwned(t: Tables, accounts: seq<nat>, lim: Limits)
    ensures Owned(t, lim, TargetsFor(t, accounts, lim), WithTarget(t, accounts, lim))
  {
    if accounts != [] {
      TargetsOwned(t, accounts[..|accounts| - 1], lim);
    }
  }

  lemma {:induction false} WithTargetMember(t: Tables, accounts: seq<nat>, lim: Limits, a: nat)
    ensures a in WithTarget(t, accounts, lim) <==> a in accounts && AccountTarget(t, a, lim) != 0
  {
    if accounts != [] {
      var front, last := accounts[..|accounts| - 1], accounts[|accounts| - 1];
      WithTargetMember(t, front, lim, a);
      assert accounts == front + [last];
    }
  }

  lemma {:induction false} WithTargetDistinct(t: Tables, accounts: seq<nat>, lim: Limits)
    requires Distinct(accounts)
    ensures Distinct(WithTarget(t, accounts, lim))
  {
    if accounts != [] {
      var front, last := accounts[..|accounts| - 1], accounts[|accounts| - 1];
      WithTargetDistinct(t, front, lim);
      WithTargetMember(t, front, lim, last);
      assert last !in front;
    }
  }

  lemma {:induction false} TargetsSame(cat: Catalog, t: Tables, gone: set<Hash>, accounts: seq<nat>, lim: Limits)
    requires Shape(cat, t) && forall a | a in accounts :: Spares(cat, gone, a)
    ensures TargetsFor(Without(t, gone), accounts, lim) == TargetsFor(t, accounts, lim)
  {
    if accounts != [] {
      AccountTargetSame(cat, t, gone, accounts[|accounts| - 1], lim);
      TargetsSame(cat, t, gone, accounts[..|accounts| - 1], lim);
    }
  }

  /** The confirmed accounts from 1 on that are neither queued nor still to be read. */
  ghost function Handled(t: Tables, owners: seq<nat>, rest: seq<nat>): set<nat> {
    set a | a in t.heights.Keys && a >= 1 && a !in owners && a !in rest
  }

  ghost predicate Running(cat: Catalog, t0: Tables, t: Tables, lim: Limits, queue: seq<Hash>, owners: seq<nat>, rest: seq<nat>)
    requires RowsMatch(cat, t0)
  {
    && t == Without(t0, DoomedOf(cat, t0, lim, Handled(t0, owners, rest)))
    && Owned(t0, lim, queue, owners)
    && Distinct(owners) && Distinct(rest)
    && (forall a | a in owners || a in rest :: a in t0.heights && a >= 1)
    && (forall a | a in owners :: a !in rest)
  }

  /** Accounts without a target change nothing. */
  lemma DoomedOnlyWithTarget(cat: Catalog, t: Tables, lim: Limits, xs: set<nat>, ys: set<nat>)
    requires RowsMatch(cat, t)
    requires forall a | a in t.heights.Keys && AccountTarget(t, a, lim) != 0 :: a in xs <==> a in ys
    ensures DoomedOf(cat, t, lim, xs) == DoomedOf(cat, t, lim, ys)
  {
  }

  /** The newly read accounts with a target join the queue. */
  lemma OwnersGrow(t: Tables, lim: Limits, owners: seq<nat>, rest: seq<nat>, more: seq<nat>, rest': seq<nat>)
    requires Distinct(owners) && Distinct(rest) && rest == more + rest' && forall a | a in owners :: a !in rest
    ensures var owners' := owners + WithTarget(t, more, lim);
            && Distinct(owners') && Distinct(rest')
            && (forall a :: a in owners' <==> a in owners || (a in more && AccountTarget(t, a, lim) != 0))
            && (forall a | a in owners' :: a !in rest')
  {
    forall a: nat { WithTargetMember(t, more, lim, a); }
    assert forall i | 0 <= i < |more| :: more[i] == rest[i];
    assert forall i | 0 <= i < |rest'| :: rest'[i] == rest[i + |more|];
    forall i, j | 0 <= i < j < |rest'| ensures rest'[i] != rest'[j] { assert rest[i + |more|] != rest[j + |more|]; }
    WithTargetDistinct(t, more, lim);
    assert forall a | a in more :: a in rest;
    var owners' := owners + WithTarget(t, more, lim);
    forall i, j | 0 <= i < j < |owners'|
      ensures owners'[i] != owners'[j]
    {
      if i < |owners| <= j { assert owners'[i] in owners && owners'[j] in WithTarget(t, more, lim); }
    }
    assert forall a | a in rest' :: a in rest;
  }

  lemma OwnedAppend(t: Tables, lim: Limits, queue: seq<Hash>, owners: seq<nat>, queue': seq<Hash>, owners': seq<nat>)
    requires Owned(t, lim, queue, owners) && Owned(t, lim, queue', owners')
    ensures Owned(t, lim, queue + queue', owners + owners')
  {
  }

  lemma CollectKeepsRunning(cat: Catalog, t0: Tables, t: Tables, lim: Limits, queue: seq<Hash>, owners: seq<nat>,
                            rest: seq<nat>, more: seq<nat>, rest': seq<nat>)
    requires Sound(cat, t0) && Running(cat, t0, t, lim, queue, owners, rest) && rest == more + rest'
    ensures Running(cat, t0, t, lim, queue + TargetsFor(t, more, lim), owners + WithTarget(t0, more, lim), rest')
  {
    var gone := DoomedOf(cat, t0, lim, Handled(t0, owners, rest));
    forall a | a in more ensures Spares(cat, gone, a) { assert a in rest; }
    TargetsSame(cat, t0, gone, more, lim);
    TargetsOwned(t0, more, lim);
    OwnedAppend(t0, lim, queue, owners, TargetsFor(t0, more, lim), WithTarget(t0, more, lim));
    OwnersGrow(t0, lim, owners, rest, more, rest');
    var owners' := owners + WithTarget(t0, more, lim);
    assert forall a :: a in rest <==> a in more || a in rest';
    DoomedOnlyWithTarget(cat, t0, lim, Handled(t0, owners, rest), Handled(t0, owners', rest'));
  }

  lemma OwnersShrink(t: Tables, lim: Limits, queue: seq<Hash>, owners: seq<nat>, rest: seq<nat>)
    requires Owned(t, lim, queue, owners) && Distinct(owners) && queue != []
    requires owners[0] in t.heights && owners[0] >= 1 && owners[0] !in rest
    ensures Owned(t, lim, queue[1..], owners[1..]) && Distinct(owners[1..])
    ensures Handled(t, owners[1..], rest) == Handled(t, owners, rest) + {owners[0]}
    ensures owners[0] !in Handled(t, owners, rest)
  {
  }

  lemma PopKeepsRunning(cat: Catalog, t0: Tables, t: Tables, lim: Limits, queue: seq<Hash>, owners: seq<nat>, rest: seq<nat>,
                        t': Tables, count: nat)
    requires Sound(cat, t0) && RowsMatch(cat, t) && Running(cat, t0, t, lim, queue, owners, rest) && queue != []
    requires Pruned(cat, t, queue[0], t', count)
    ensures Running(cat, t0, t', lim, queue[1..], owners[1..], rest)
  {
    OwnersShrink(t0, lim, queue, owners, rest);
    DeleteAccount(cat, t0, lim, Handled(t0, owners, rest), owners[0], t', count);
    assert forall a | a in owners[1..] :: a in owners;
  }

  // ---------------------------------------------------------------------------------------------
  // The run

  /** The stop flag is set once, between two looks at it, and stays set. */
  predicate Stopped(stopAfter: Option<nat>, looks: nat) {
    stopAfter.Some? && looks >= stopAfter.value
  }

  /** The search step: collects targets until there are enough for a batch or the scan is finished. */
  method FillQueue(cat: Catalog, ghost t0: Tables, t: Tables, batchSize: nat, lim: Limits, stopAfter: Option<nat>, looks0: nat,
                   queue0: seq<Hash>, last0: Account, finished0: bool, ghost owners0: seq<nat>, ghost rest0: seq<nat>)
    returns (looks: nat, queue: seq<Hash>, last: Account, finished: bool, ghost owners: seq<nat>, ghost rest: seq<nat>)
    requires Sound(cat, t0) && Sound(cat, t) && FrontiersStored(t) && lim.maxDepth > 0 && batchSize > 0
    requires Running(cat, t0, t, lim, queue0, owners0, rest0)
    requires rest0 == if finished0 then [] else AccountsFrom(t, last0)
    ensures Running(cat, t0, t, lim, queue, owners, rest)
    ensures rest == if finished then [] else AccountsFrom(t, last)
    ensures |queue| >= batchSize || finished || Stopped(stopAfter, looks)
    ensures |queue| + |rest| <= |queue0| + |rest0| && (finished0 ==> finished) && looks0 <= looks
  {
    looks, queue, last, finished, owners, rest := looks0, queue0, last0, finished0, owners0, rest0;
    while |queue| < batchSize && !finished && !Stopped(stopAfter, looks)
      invariant Running(cat, t0, t, lim, queue, owners, rest)
      invariant rest == if finished then [] else AccountsFrom(t, last)
      invariant |queue| + |rest| <= |queue0| + |rest0| && (finished0 ==> finished) && looks0 <= looks
      decreases |rest|, if finished then 0 else 1
    {
      looks := looks + 1;
      ghost var before, from: nat := queue, last;
      queue, last, finished := CollectTargets(t, queue, last, batchSize * 2, lim);
      ghost var more, rest' := Examined(t, from, last, finished), Left(t, last, finished);
      assert rest == more + rest';
      CollectKeepsRunning(cat, t0, t, lim, before, owners, rest, more, rest');
      TargetsFewer(t, more, lim);
      owners, rest := owners + WithTarget(t0, more, lim), rest';
    }
  }

  lemma {:induction false} TargetsFewer(t: Tables, accounts: seq<nat>, lim: Limits)
    ensures |TargetsFor(t, accounts, lim)| <= |accounts|
  {
    if accounts != [] { TargetsFewer(t, accounts[..|accounts| - 1], lim); }
  }

  /** The write step: deletes below queued targets until about `batchSize` blocks are gone. */
  method PruneBatch(cat: Catalog, ghost t0: Tables, t: Tables, batchSize: nat, ghost lim: Limits, stopAfter: Option<nat>,
                    looks: nat, queue: seq<Hash>, ghost owners: seq<nat>, ghost rest: seq<nat>)
    returns (looks': nat, t': Tables, queue': seq<Hash>, count: nat, ghost owners': seq<nat>)
    requires Sound(cat, t0) && Sound(cat, t) && FrontiersStored(t) && batchSize > 0
    requires Running(cat, t0, t, lim, queue, owners, rest)
    ensures Sound(cat, t') && FrontiersStored(t') && Running(cat, t0, t', lim, queue', owners', rest)
    ensures |t'.pruned| == |t.pruned| + count
    ensures |queue'| <= |queue| && looks <= looks'
    ensures queue != [] ==> |queue'| < |queue| || Stopped(stopAfter, looks')
    ensures count == 0 ==> queue' == [] || Stopped(stopAfter, looks')
  {
    looks', t', queue', count, owners' := looks, t, queue, 0, owners;
    while queue' != [] && count < batchSize && !Stopped(stopAfter, looks')
      invariant Sound(cat, t') && FrontiersStored(t') && Running(cat, t0, t', lim, queue', owners', rest)
      invariant |t'.pruned| == |t.pruned| + count
      invariant |queue'| <= |queue| && (queue' == queue ==> count == 0)
      invariant (queue' != queue ==> |queue'| < |queue|) && looks <= looks'
      decreases |queue'|
    {
      looks' := looks' + 1;
      QueuedTarget(cat, t0, t', lim, queue', owners', rest);
      var pruned, n := PruningAction(cat, t', queue'[0], batchSize);
      PopKeepsRunning(cat, t0, t', lim, queue', owners', rest, pruned, n);
      t', queue', count, owners' := pruned, queue'[1..], count + n, owners'[1..];
    }
  }

  lemma QueuedTarget(cat: Catalog, t0: Tables, t: Tables, lim: Limits, queue: seq<Hash>, owners: seq<nat>, rest: seq<nat>)
    requires Sound(cat, t0) && Sound(cat, t) && Running(cat, t0, t, lim, queue, owners, rest) && queue != []
    ensures ConfirmedExistsOrPruned(t, queue[0]) && !StartsAtFrontier(cat, t, queue[0])
  {
    var gone := DoomedOf(cat, t0, lim, Handled(t0, owners, rest));
    var a: Account := owners[0];
    AccountTargetSame(cat, t0, gone, a, lim);
    TargetBelowFrontier(cat, t, a, lim);
  }

  /**
    A whole run: exactly the blocks at or below the target of each handled account are deleted, and the
    number reported is the number of blocks that went. Unless it is stopped, all scanned accounts are handled.
   */
  method LedgerPruning(cat: Catalog, t0: Tables, batchSize: nat, lim: Limits, stopAfter: Option<nat>)
    returns (t: Tables, prunedCount: nat, ghost handled: set<nat>)
    requires Sound(cat, t0) && FrontiersStored(t0) && lim.maxDepth > 0 && batchSize > 0
    ensures Sound(cat, t) && FrontiersStored(t)
    ensures handled <= Scanned(t0) && (stopAfter.None? ==> handled == Scanned(t0))
    ensures t == Without(t0, DoomedOf(cat, t0, lim, handled))
    ensures prunedCount == |DoomedOf(cat, t0, lim, handled)|
    ensures stopAfter == Some(0) ==> t == t0
    // a deleted row was saved by the cutoff or lies deep enough, given that chains were saved in order
    ensures TimesAscend(cat, t0) ==> forall h | h in t0.blocks && h !in t.blocks ::
              && ConfirmedExists(t0, h)
              && (t0.blocks[h].sideband.timestamp <= lim.cutoff ||
                  t0.blocks[h].sideband.height + lim.maxDepth <= t0.heights[t0.blocks[h].Account()].height)
  {
    t, prunedCount := t0, 0;
    var writeCount, looks := 0, 0;
    var last: Account := 1;
    var queue: seq<Hash> := [];
    var finished := false;
    ghost var owners: seq<nat>, rest := [], AccountsFrom(t0, 1);
    StartsRunning(cat, t0, lim);
    while (writeCount != 0 || !finished) && !Stopped(stopAfter, looks)
      invariant Sound(cat, t) && FrontiersStored(t) && Running(cat, t0, t, lim, queue, owners, rest)
      invariant rest == if finished then [] else AccountsFrom(t, last)
      invariant |t.pruned| == |t0.pruned| + prunedCount
      invariant finished && writeCount == 0 ==> queue == [] || Stopped(stopAfter, looks)
      invariant stopAfter == Some(0) ==> t == t0
      decreases if Stopped(stopAfter, looks) then 0 else 1,
                |queue| + |rest|, if finished then 0 else 1, if writeCount != 0 then 1 else 0
    {
      looks, queue, last, finished, owners, rest :=
        FillQueue(cat, t0, t, batchSize, lim, stopAfter, looks + 1, queue, last, finished, owners, rest);
      writeCount := 0;
      if queue != [] && !Stopped(stopAfter, looks) {
        looks, t, queue, writeCount, owners := PruneBatch(cat, t0, t, batchSize, lim, stopAfter, looks, queue, owners, rest);
        prunedCount := prunedCount + writeCount;
      }
    }
    handled := Handled(t0, owners, rest);
    RunEnds(cat, t0, t, lim, queue, owners, rest, prunedCount);
    if TimesAscend(cat, t0) { DeletedRows(cat, t0, lim, handled); }
  }

  lemma DeletedRows(cat: Catalog, t: Tables, lim: Limits, handled: set<nat>)
    requires Sound(cat, t) && TimesAscend(cat, t)
    ensures forall h | h in t.blocks && h !in Without(t, DoomedOf(cat, t, lim, handled)).blocks ::
              && ConfirmedExists(t, h)
              && (t.blocks[h].sideband.timestamp <= lim.cutoff ||
                  t.blocks[h].sideband.height + lim.maxDepth <= t.heights[t.blocks[h].Account()].height)
  {
    forall h | h in t.blocks && h in DoomedOf(cat, t, lim, handled)
      ensures ConfirmedExists(t, h)
      ensures t.blocks[h].sideband.timestamp <= lim.cutoff ||
              t.blocks[h].sideband.height + lim.maxDepth <= t.heights[t.blocks[h].Account()].height
    {
      DeletedAge(cat, t, lim, handled, h);
      var a, i := DeletedBelowTarget(cat, t, lim, handled, h);
    }
  }

  lemma RunEnds(cat: Catalog, t0: Tables, t: Tables, lim: Limits, queue: seq<Hash>, owners: seq<nat>, rest: seq<nat>, count: nat)
    requires Sound(cat, t0) && Running(cat, t0, t, lim, queue, owners, rest) && |t.pruned| == |t0.pruned| + count
    ensures var handled := Handled(t0, owners, rest);
            && handled <= Scanned(t0) && (queue == [] && rest == [] ==> handled == Scanned(t0))
            && t == Without(t0, DoomedOf(cat, t0, lim, handled)) && count == |DoomedOf(cat, t0, lim, handled)|
  {
    var handled := Handled(t0, owners, rest);
    assert handled <= Scanned(t0) && (queue == [] && rest == [] ==> handled == Scanned(t0));
    DoomedCount(cat, t0, t, lim, handled, count);
  }

  lemma DoomedCount(cat: Catalog, t0: Tables, t: Tables, lim: Limits, handled: set<nat>, count: nat)
    requires Sound(cat, t0) && t == Without(t0, DoomedOf(cat, t0, lim, handled)) && |t.pruned| == |t0.pruned| + count
    ensures count == |DoomedOf(cat, t0, lim, handled)|
  {
    var gone := DoomedOf(cat, t0, lim, handled);
    assert gone <= t0.blocks.Keys;
    hide DoomedOf;
    assert t.pruned == t0.pruned + gone && t0.pruned !! gone;
  }

  lemma StartsRunning(cat: Catalog, t: Tables, lim: Limits)
    requires Sound(cat, t)
    ensures Running(cat, t, t, lim, [], [], AccountsFrom(t, 1))
  {
    var all := AccountsFrom(t, 1);
    AllAccounts(t, all);
    assert Handled(t, [], all) == {};
    assert DoomedOf(cat, t, lim, {}) == {};
    assert Without(t, {}) == t;
  }

  lemma AllAccounts(t: Tables, all: seq<nat>)
    requires all == AccountsFrom(t, 1)
    ensures Distinct(all) && forall a :: a in all <==> a in t.heights && a >= 1
  {
    KeysFromAscending(t.heights.Keys, 1);
    assert all == KeysFrom(t.heights.Keys, 1);
    forall a: nat ensures a in all <==> a in t.heights && a >= 1 { KeysFromComplete(t.heights.Keys, 1, a); }
  }
}
