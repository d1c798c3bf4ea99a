/**
  The search for pruning targets and the whole pruning run. The search reads the confirmation heights
  in account order, a bounded number of blocks at a time, and remembers where to resume.
 */
module PruningScan {
  import opened Types
  import opened LedgerStore
  import opened Pruning
  import opened Cursor

  /** How far back and how old blocks must be before they are pruned. */
  datatype Limits = Limits(maxDepth: nat, cutoff: nat)

  // ---------------------------------------------------------------------------------------------
  // The target of one account

  /** The block `n` steps before `h`, as far as the stored rows tell. */
  function Ancestor(t: Tables, h: Hash, n: nat): Hash {
    if n == 0 then h
    else
      var x := Ancestor(t, h, n - 1);
      if x in t.blocks then t.blocks[x].Previous() else 0
  }

  predicate TooYoung(t: Tables, h: Hash, cutoff: nat) {
    h in t.blocks && t.blocks[h].Timestamp() > cutoff
  }

  /** `i` steps below the frontier is the first block that is old enough, or the depth limit. */
  ghost predicate StopsAt(t: Tables, frontier: Hash, lim: Limits, i: nat) {
    && 1 <= i <= lim.maxDepth
    && Ancestor(t, frontier, i) != 0
    && (forall j | 1 <= j < i :: TooYoung(t, Ancestor(t, frontier, j), lim.cutoff))
    && (i < lim.maxDepth ==>
          Ancestor(t, frontier, i) in t.blocks && !TooYoung(t, Ancestor(t, frontier, i), lim.cutoff))
  }

  /** The pruning target below `frontier`, or 0 if there is none. */
  ghost function TargetOf(t: Tables, frontier: Hash, lim: Limits): Hash {
    if exists i :: StopsAt(t, frontier, lim, i) then
      var i :| StopsAt(t, frontier, lim, i);
      Ancestor(t, frontier, i)
    else 0
  }

  lemma TargetFound(t: Tables, frontier: Hash, lim: Limits, i: nat)
    requires 0 !in t.blocks && StopsAt(t, frontier, lim, i)
    ensures TargetOf(t, frontier, lim) == Ancestor(t, frontier, i)
  {
  }

  lemma TargetMissing(t: Tables, frontier: Hash, lim: Limits, depth: nat)
    requires 0 !in t.blocks && depth > 0 && Ancestor(t, frontier, depth) == 0
    requires forall j | 1 <= j < depth :: j < lim.maxDepth && (Ancestor(t, frontier, j) in t.blocks ==>
               TooYoung(t, Ancestor(t, frontier, j), lim.cutoff))
    ensures TargetOf(t, frontier, lim) == 0
  {
  }

  /** The walk down from the frontier ends after `d` steps: at the target, or at the end of the stored rows. */
  ghost predicate WalkedTo(t: Tables, frontier: Hash, lim: Limits, d: nat) {
    || StopsAt(t, frontier, lim, d)
    || (&& 1 <= d <= lim.maxDepth && Ancestor(t, frontier, d) == 0
        && forall j | 1 <= j < d ::
             Ancestor(t, frontier, j) != 0 &&
             (Ancestor(t, frontier, j) in t.blocks ==> TooYoung(t, Ancestor(t, frontier, j), lim.cutoff)))
  }

  lemma WalkEndsOnce(t: Tables, frontier: Hash, lim: Limits, d: nat, e: nat)
    requires 0 !in t.blocks && WalkedTo(t, frontier, lim, d) && WalkedTo(t, frontier, lim, e)
    ensures d == e
  {
    assert d < e ==> TooYoung(t, Ancestor(t, frontier, d), lim.cutoff) || Ancestor(t, frontier, d) !in t.blocks;
    assert e < d ==> TooYoung(t, Ancestor(t, frontier, e), lim.cutoff) || Ancestor(t, frontier, e) !in t.blocks;
  }

  /** The number of rows read below a frontier. */
  ghost function RowsBelow(t: Tables, frontier: Hash, lim: Limits): nat {
    if exists d :: WalkedTo(t, frontier, lim, d) then
      var d: nat :| WalkedTo(t, frontier, lim, d);
      d
    else 0
  }

  /** Walks down from the frontier; `depth` tells how many blocks were read. */
  method FindTarget(t: Tables, frontier: Hash, lim: Limits) returns (hash: Hash, depth: nat)
    requires frontier in t.blocks && 0 !in t.blocks && lim.maxDepth > 0
    ensures hash == TargetOf(t, frontier, lim)
    ensures depth == RowsBelow(t, frontier, lim) <= lim.maxDepth
  {
    hash, depth := frontier, 0;
    while hash != 0 && depth < lim.maxDepth
      invariant depth <= lim.maxDepth && hash == Ancestor(t, frontier, depth)
      invariant forall j | 1 <= j < depth :: Ancestor(t, frontier, j) in t.blocks ==>
                  TooYoung(t, Ancestor(t, frontier, j), lim.cutoff)
      invariant hash != 0 ==> forall j | 1 <= j < depth :: Ancestor(t, frontier, j) in t.blocks
      invariant forall j | 1 <= j < depth :: Ancestor(t, frontier, j) != 0
      decreases lim.maxDepth - depth
    {
      if hash in t.blocks {
        var block := t.blocks[hash];
        if block.Timestamp() > lim.cutoff || depth == 0 {
          hash := block.Previous();
        } else {
          break;
        }
      } else {
        assert depth != 0;
        hash := 0;
      }
      depth := depth + 1;
    }
    if hash != 0 {
      assert StopsAt(t, frontier, lim, depth);
      TargetFound(t, frontier, lim, depth);
    } else {
      TargetMissing(t, frontier, lim, depth);
    }
    assert WalkedTo(t, frontier, lim, depth);
    WalkEndsOnce(t, frontier, lim, depth, RowsBelow(t, frontier, lim));
  }

  // ---------------------------------------------------------------------------------------------
  // The target in terms of the rows' times

  /** The row of `h` was saved after the cutoff. */
  predicate SavedAfter(t: Tables, h: Hash, cutoff: nat) {
    h in t.blocks && t.blocks[h].sideband.timestamp > cutoff
  }

  /**
    A target lies `i` steps below the frontier, within the depth limit. Everything between was saved after
    the cutoff, and so was the target itself only if it lies at the depth limit.
   */
  lemma TargetAge(t: Tables, frontier: Hash, lim: Limits) returns (i: nat)
    requires 0 !in t.blocks && TargetOf(t, frontier, lim) != 0
    ensures 1 <= i <= lim.maxDepth && TargetOf(t, frontier, lim) == Ancestor(t, frontier, i)
    ensures forall j | 1 <= j < i :: SavedAfter(t, Ancestor(t, frontier, j), lim.cutoff)
    ensures SavedAfter(t, TargetOf(t, frontier, lim), lim.cutoff) ==> i == lim.maxDepth
  {
    i :| StopsAt(t, frontier, lim, i) && TargetOf(t, frontier, lim) == Ancestor(t, frontier, i);
    forall j | 1 <= j < i
      ensures SavedAfter(t, Ancestor(t, frontier, j), lim.cutoff)
    {
      assert TooYoung(t, Ancestor(t, frontier, j), lim.cutoff);
    }
  }

  /** Conversely, the first ancestor saved by the cutoff, or the one at the depth limit, is the target. */
  lemma OldIsTarget(t: Tables, frontier: Hash, lim: Limits, i: nat)
    requires 0 !in t.blocks && 1 <= i <= lim.maxDepth && Ancestor(t, frontier, i) in t.blocks
    requires forall j | 1 <= j < i :: SavedAfter(t, Ancestor(t, frontier, j), lim.cutoff)
    requires i == lim.maxDepth || !SavedAfter(t, Ancestor(t, frontier, i), lim.cutoff)
    ensures TargetOf(t, frontier, lim) == Ancestor(t, frontier, i)
  {
    assert StopsAt(t, frontier, lim, i);
    TargetFound(t, frontier, lim, i);
  }

  /** An ancestor is reached by following the predecessors recorded in the rows. */
  lemma AncestorFields(t: Tables, h: Hash, n: nat)
    ensures Ancestor(t, h, 0) == h
    ensures Ancestor(t, h, n) in t.blocks ==>
              Ancestor(t, h, n + 1) ==
              var body := t.blocks[Ancestor(t, h, n)].block.body; if body.LegacyOpen? then 0 else body.previous
  {
  }

  // ---------------------------------------------------------------------------------------------
  // The resumable scan

  ghost function AccountTarget(t: Tables, a: nat, lim: Limits): Hash {
    if a in t.heights then TargetOf(t, t.heights[a].frontier, lim) else 0
  }

  /** The targets of a list of accounts, in that order; an account contributes at most one. */
  ghost function TargetsFor(t: Tables, accounts: seq<nat>, lim: Limits): seq<Hash> {
    if accounts == [] then []
    else
      var target := AccountTarget(t, accounts[|accounts| - 1], lim);
      TargetsFor(t, accounts[..|accounts| - 1], lim) + (if target != 0 then [target] else [])
  }

  /** The rows read for a list of accounts: the confirmation height of each, and the walk below it. */
  ghost function RowsRead(t: Tables, accounts: seq<nat>, lim: Limits): nat {
    if accounts == [] then 0
    else
      var a := accounts[|accounts| - 1];
      RowsRead(t, accounts[..|accounts| - 1], lim) + 1 + (if a in t.heights then RowsBelow(t, t.heights[a].frontier, lim) else 0)
  }

  lemma {:induction false} TargetsForAppend(t: Tables, xs: seq<nat>, ys: seq<nat>, lim: Limits)
    ensures TargetsFor(t, xs + ys, lim) == TargetsFor(t, xs, lim) + TargetsFor(t, ys, lim)
  {
    if ys == [] {
      assert xs + ys == xs;
    } else {
      var n := |ys| - 1;
      assert (xs + ys)[..|xs| + n] == xs + ys[..n];
      TargetsForAppend(t, xs, ys[..n], lim);
    }
  }

  /** The confirmed accounts from `from` upwards, in key order. */
  ghost function AccountsFrom(t: Tables, from: nat): seq<nat> {
    KeysFrom(t.heights.Keys, from)
  }

  /** The accounts left for the next call. */
  ghost function Left(t: Tables, last: nat, done: bool): seq<nat> {
    if done then [] else AccountsFrom(t, last)
  }

  /** The accounts from `last0` on that come before those left. */
  ghost function Examined(t: Tables, last0: nat, last: nat, done: bool): seq<nat> {
    var all, left := AccountsFrom(t, last0), Left(t, last, done);
    if |left| <= |all| then all[..|all| - |left|] else []
  }

  /**
    One call of the scan: reads accounts from `last0` on until about `batchReadSize` rows were read. The
    store is taken as unchanged although the transaction is refreshed now and then.
   */
  method CollectTargets(t: Tables, targets0: seq<Hash>, last0: Account, batchReadSize: nat, lim: Limits)
    returns (targets: seq<Hash>, last: Account, done: bool)
    requires FrontiersStored(t) && 0 !in t.blocks && lim.maxDepth > 0 && batchReadSize > 0
    ensures targets == targets0 + TargetsFor(t, Examined(t, last0, last, done), lim)
    ensures AccountsFrom(t, last0) == Examined(t, last0, last, done) + Left(t, last, done)
    ensures !done ==> Examined(t, last0, last, done) != []
    // it stops at the first account that makes up the batch
    ensures var examined := Examined(t, last0, last, done);
            && (!done ==> RowsRead(t, examined, lim) >= batchReadSize)
            && (examined != [] ==> RowsRead(t, examined[..|examined| - 1], lim) < batchReadSize)
  {
    targets, last := targets0, last0;
    ghost var examined: seq<nat> := [];
    NothingRead(t, lim);
    hide TargetsFor, RowsRead, TargetOf, RowsBelow;
    var readOperations := 0;
    var finish := false;
    var it := LowerBound(t.heights.Keys, last0);
    ghost var from: nat := last0;
    while it.Some? && !finish
      invariant targets == targets0 + TargetsFor(t, examined, lim)
      invariant AccountsFrom(t, last0) == examined + AccountsFrom(t, from)
      invariant !finish ==> it == LowerBound(t.heights.Keys, from)
      invariant readOperations == RowsRead(t, examined, lim) && (finish <==> readOperations >= batchReadSize)
      invariant examined != [] ==> RowsRead(t, examined[..|examined| - 1], lim) < batchReadSize
      invariant finish ==> from > 0 && examined != [] && (last == from || (last == 0 && AccountsFrom(t, from) == []))
      decreases |AccountsFrom(t, from)|, if finish then 0 else 1
    {
      var account: Account := it.value;
      var target, depth := FindTarget(t, t.heights[account].frontier, lim);
      ExamineNext(t, last0, examined, from, account);
      TargetsForOne(t, examined, account, lim);
      if target != 0 {
        targets := targets + [target];
      }
      RowsReadOne(t, examined, account, lim);
      examined, from := examined + [account], account + 1;
      readOperations := readOperations + 1 + depth;
      if readOperations >= batchReadSize {
        last := match Inc(account) case Some(next) => next case None => 0;
        finish := true;
        if account + 1 == TWO_256 { NoAccountBeyond(t); }
      } else {
        it := LowerBound(t.heights.Keys, account + 1);
      }
    }
    done := !finish || last == 0;
    KeysFromStep(t.heights.Keys, from);
    assert AccountsFrom(t, last0) == examined + Left(t, last, done);
    assert Examined(t, last0, last, done) == examined;
  }

  lemma NoAccountBeyond(t: Tables)
    ensures AccountsFrom(t, TWO_256) == []
  {
  }

  lemma ExamineNext(t: Tables, last0: nat, examined: seq<nat>, from: nat, account: nat)
    requires LowerBound(t.heights.Keys, from) == Some(account)
    requires AccountsFrom(t, last0) == examined + AccountsFrom(t, from)
    ensures AccountsFrom(t, from) == [account] + AccountsFrom(t, account + 1)
    ensures AccountsFrom(t, last0) == (examined + [account]) + AccountsFrom(t, account + 1)
  {
  }

  lemma NothingRead(t: Tables, lim: Limits)
    ensures RowsRead(t, [], lim) == 0 && TargetsFor(t, [], lim) == []
  {
  }

  lemma RowsReadOne(t: Tables, examined: seq<nat>, account: nat, lim: Limits)
    requires account in t.heights
    ensures RowsRead(t, examined + [account], lim) ==
            RowsRead(t, examined, lim) + 1 + RowsBelow(t, t.heights[account].frontier, lim)
    ensures (examined + [account])[..|examined|] == examined
  {
  }

  lemma TargetsForOne(t: Tables, examined: seq<nat>, account: nat, lim: Limits)
    ensures TargetsFor(t, examined + [account], lim) ==
            TargetsFor(t, examined, lim) +
            (if AccountTarget(t, account, lim) != 0 then [AccountTarget(t, account, lim)] else [])
  {
  }

  /** The list of all accounts splits into those examined so far and the rest, which a call shortens. */
  lemma ExaminedMore(all: seq<nat>, examined: seq<nat>, rest: seq<nat>, more: seq<nat>, rest': seq<nat>)
    requires all == examined + rest && rest == more + rest'
    ensures all == (examined + more) + rest'
    ensures more != [] ==> |rest'| < |rest|
  {
  }

  /**
    Calling the scan until it reports the end, against an unchanged store: every confirmed account from 1
    upwards is examined exactly once, in key order, whatever the batch size.
   */
  method ScanTargets(t: Tables, batchReadSize: nat, lim: Limits) returns (targets: seq<Hash>)
    requires FrontiersStored(t) && 0 !in t.blocks && lim.maxDepth > 0 && batchReadSize > 0
    ensures targets == TargetsFor(t, AccountsFrom(t, 1), lim)
  {
    targets := [];
    var last: Account := 1;
    var done := false;
    ghost var all := AccountsFrom(t, 1);
    ghost var examined: seq<nat>, rest := [], all;
    while !done
      invariant targets == TargetsFor(t, examined, lim)
      invariant all == examined + rest
      invariant rest == Left(t, last, done)
      decreases |rest|, if done then 0 else 1
    {
      ghost var before: nat := last;
      targets, last, done := CollectTargets(t, targets, last, batchReadSize, lim);
      ghost var more, rest' := Examined(t, before, last, done), Left(t, last, done);
      TargetsForAppend(t, examined, more, lim);
      ExaminedMore(all, examined, rest, more, rest');
      examined, rest := examined + more, rest';
    }
    assert all == examined;
  }

  // ---------------------------------------------------------------------------------------------
  // What a target is in terms of the chain

  lemma {:induction false} AncestorInChain(cat: Catalog, t: Tables, a: Account, n: nat)
    requires Shape(cat, t) && a in t.heights
    ensures var f, x := t.heights[a].frontier, Ancestor(t, t.heights[a].frontier, n);
            x != 0 ==>
              && f in cat.blocks && x in cat.blocks && Known(t, x) && Confirmed(cat, t, x)
              && cat.blocks[x].Account() == a && cat.blocks[x].Height() + n == cat.blocks[f].Height()
  {
    assert FrontierPlaced(cat, t, a);
    if n > 0 {
      AncestorInChain(cat, t, a, n - 1);
      var y := Ancestor(t, t.heights[a].frontier, n - 1);
      if y in t.blocks {
        DescendPrevious(cat, t, y);
      }
    }
  }

  /** A target is a confirmed strict ancestor of the frontier, so deleting from it down never reaches the frontier. */
  lemma TargetBelowFrontier(cat: Catalog, t: Tables, a: Account, lim: Limits)
    requires Sound(cat, t) && a in t.heights && AccountTarget(t, a, lim) != 0
    ensures var h := AccountTarget(t, a, lim);
            && h in cat.blocks && Known(t, h) && Confirmed(cat, t, h) && cat.blocks[h].Account() == a
            && ConfirmedExistsOrPruned(t, h) && !StartsAtFrontier(cat, t, h)
  {
    var i: nat :| StopsAt(t, t.heights[a].frontier, lim, i) &&
                  AccountTarget(t, a, lim) == Ancestor(t, t.heights[a].frontier, i);
    AncestorInChain(cat, t, a, i);
    assert FrontierPlaced(cat, t, a);
    ConfirmedReadsBack(cat, t, AccountTarget(t, a, lim));
  }
}
