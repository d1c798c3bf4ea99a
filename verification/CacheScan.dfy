/**
  Filling the caches at startup. A table is cut into key ranges, one per thread; each thread walks a
  cursor over its range and adds what it found to the shared totals. Threads finish in any order.
 */
module CacheScan {
  import opened Types
  import opened MapSums
  import opened Cursor
  import opened RepWeights
  import LedgerStore

  // ---------------------------------------------------------------------------------------------
  // The key ranges

  function Split(threads: nat): nat
    requires threads > 0
  {
    (TWO_256 - 1) / threads
  }

  /** Thread `i` covers the keys from `i * split`, up to the next range or, for the last one, to the end. */
  predicate InRange(threads: nat, i: nat, k: nat)
    requires i < threads
  {
    Split(threads) * i <= k && (i < threads - 1 ==> k < Split(threads) * (i + 1))
  }

  /** The one thread that covers `k`. */
  function Owner(threads: nat, k: nat): (i: nat)
    requires threads > 0
    ensures i < threads
  {
    if Split(threads) == 0 || k / Split(threads) >= threads then threads - 1 else k / Split(threads)
  }

  lemma DivBounds(k: nat, d: nat)
    requires d > 0
    ensures d * (k / d) <= k < d * (k / d + 1)
  {
  }

  lemma MulMono(d: nat, x: nat, y: nat)
    requires x <= y
    ensures d * x <= d * y
  {
  }

  /** The ranges cover every key exactly once. */
  lemma RangesPartition(threads: nat, i: nat, k: nat)
    requires i < threads
    ensures InRange(threads, i, k) <==> Owner(threads, k) == i
  {
    var d := Split(threads);
    if d > 0 {
      DivBounds(k, d);
      var q := k / d;
      if i < q { MulMono(d, i + 1, q); }
      if q < i { MulMono(d, q + 1, i); }
      if q >= threads { MulMono(d, threads - 1, q); }
    }
  }

  /** The keys of the threads in `done`. */
  ghost function KeysOf(keys: set<nat>, threads: nat, done: set<nat>): set<nat>
    requires threads > 0
  {
    set k | k in keys && Owner(threads, k) in done
  }

  // ---------------------------------------------------------------------------------------------
  // Sums over parts of a table

  function Restrict(column: map<nat, nat>, s: set<nat>): map<nat, nat> {
    map k | k in column && k in s :: column[k]
  }

  ghost function SumOver(column: map<nat, nat>, s: set<nat>): nat {
    Sum(Restrict(column, s))
  }

  lemma SumOverAdd(column: map<nat, nat>, s: set<nat>, k: nat)
    requires k !in s
    ensures SumOver(column, s + {k}) == SumOver(column, s) + (if k in column then column[k] else 0)
  {
    var part, part' := Restrict(column, s), Restrict(column, s + {k});
    if k in column {
      assert part' == part[k := column[k]];
      SumPut(part, k, column[k]);
    } else {
      assert part' == part;
    }
  }

  lemma {:induction false} SumOverUnion(column: map<nat, nat>, a: set<nat>, b: set<nat>)
    requires a !! b
    ensures SumOver(column, a + b) == SumOver(column, a) + SumOver(column, b)
    decreases |b|
  {
    if b == {} {
      assert a + b == a;
      assert Restrict(column, b) == map[];
    } else {
      var k :| k in b;
      SumOverUnion(column, a, b - {k});
      assert a + b == (a + (b - {k})) + {k};
      assert b == (b - {k}) + {k};
      SumOverAdd(column, a + (b - {k}), k);
      SumOverAdd(column, b - {k}, k);
    }
  }

  /** Taking less from a smaller column gives no more. */
  lemma {:induction false} SumOverLe(part: map<nat, nat>, column: map<nat, nat>, a: set<nat>, b: set<nat>)
    requires a <= b && forall k | k in part :: k in column && part[k] == column[k]
    ensures SumOver(part, a) <= SumOver(column, b)
    decreases |b|
  {
    if b == {} {
      assert Restrict(part, a) == map[];
    } else {
      var k :| k in b;
      SumOverLe(part, column, a - {k}, b - {k});
      assert b == (b - {k}) + {k};
      SumOverAdd(column, b - {k}, k);
      if k in a {
        assert a == (a - {k}) + {k};
        SumOverAdd(part, a - {k}, k);
      } else {
        assert a == a - {k};
      }
    }
  }

  // ---------------------------------------------------------------------------------------------
  // A cursor walk over one range

  /** Where the walk of a thread ends: at the first key of the next range, or at the end of the table. */
  function StopKey(keys: set<nat>, threads: nat, i: nat): Option<nat>
    requires i < threads
  {
    if i < threads - 1 then LowerBound(keys, Split(threads) * (i + 1)) else None
  }

  /** The walk of thread `i` has visited exactly its keys below `from`. */
  ghost predicate Walking(keys: set<nat>, threads: nat, i: nat, from: nat, it: Option<nat>, visited: set<nat>)
    requires i < threads
  {
    && it == LowerBound(keys, from)
    && Split(threads) * i <= from
    && visited == (set k | k in keys && InRange(threads, i, k) && k < from)
    && (StopKey(keys, threads, i).Some? ==> from <= StopKey(keys, threads, i).value)
  }

  lemma WalkStarts(keys: set<nat>, threads: nat, i: nat)
    requires i < threads
    ensures Walking(keys, threads, i, Split(threads) * i, LowerBound(keys, Split(threads) * i), {})
  {
    MulMono(Split(threads), i, i + 1);
  }

  lemma WalkSteps(keys: set<nat>, threads: nat, i: nat, from: nat, it: Option<nat>, visited: set<nat>)
    requires i < threads && Walking(keys, threads, i, from, it, visited) && it != StopKey(keys, threads, i)
    ensures it.Some? && it.value in keys && it.value !in visited && from <= it.value
    ensures Walking(keys, threads, i, it.value + 1, LowerBound(keys, it.value + 1), visited + {it.value})
  {
  }

  lemma WalkEnds(keys: set<nat>, threads: nat, i: nat, from: nat, it: Option<nat>, visited: set<nat>)
    requires i < threads && Walking(keys, threads, i, from, it, visited) && it == StopKey(keys, threads, i)
    ensures visited == KeysOf(keys, threads, {i})
  {
    forall k | k in keys
      ensures k in visited <==> Owner(threads, k) in {i}
    {
      RangesPartition(threads, i, k);
    }
  }

  // ---------------------------------------------------------------------------------------------
  // The cemented count

  /** The walk of one thread over the confirmation heights. */
  method SumHeights(heights: map<nat, nat>, threads: nat, i: nat) returns (count: nat)
    requires i < threads
    ensures count == SumOver(heights, KeysOf(heights.Keys, threads, {i}))
  {
    hide SumOver, Split, KeysOf, Walking, StopKey, AtOrAfter, LmdbIterator.Remaining, KeysFrom;
    var it := new LmdbIterator(heights.Keys, Split(threads) * i);
    var end := StopKey(heights.Keys, threads, i);
    ghost var from: nat, visited: set<nat> := Split(threads) * i, {};
    count := 0;
    WalkStarts(heights.Keys, threads, i);
    NothingSummed(heights);
    while it.current != end
      invariant it.keys == heights.Keys && Walking(heights.Keys, threads, i, from, it.current, visited)
      invariant count == SumOver(heights, visited)
      decreases |AtOrAfter(heights.Keys, from)|
    {
      WalkSteps(heights.Keys, threads, i, from, it.current, visited);
      var key := it.current.value;
      SumOverAdd(heights, visited, key);
      FewerFrom(heights.Keys, from, key);
      count := count + heights[key];
      visited, from := visited + {key}, key + 1;
      it.Next();
    }
    WalkEnds(heights.Keys, threads, i, from, it.current, visited);
  }

  lemma NothingSummed(column: map<nat, nat>)
    ensures SumOver(column, {}) == 0
  {
    assert Restrict(column, {}) == map[];
  }

  lemma FewerFrom(keys: set<nat>, from: nat, k: nat)
    requires k in keys && from <= k
    ensures |AtOrAfter(keys, k + 1)| < |AtOrAfter(keys, from)|
  {
    FewerAfter(keys, from, k);
  }

  lemma KeysOfAdd(keys: set<nat>, threads: nat, done: set<nat>, i: nat)
    requires threads > 0 && i !in done
    ensures KeysOf(keys, threads, done + {i}) == KeysOf(keys, threads, done) + KeysOf(keys, threads, {i})
    ensures KeysOf(keys, threads, done) !! KeysOf(keys, threads, {i})
  {
  }

  /** The threads in the order in which they add their results. */
  ghost predicate IsOrder(order: seq<nat>, threads: nat) {
    && (forall j | 0 <= j < |order| :: order[j] < threads)
    && (forall i, j | 0 <= i < j < |order| :: order[i] != order[j])
    && (forall i: nat | i < threads :: i in order)
  }

  function Finished(order: seq<nat>): set<nat> { set i | i in order }

  lemma FinishedNext(order: seq<nat>, threads: nat, j: nat)
    requires IsOrder(order, threads) && j < |order|
    ensures order[j] !in Finished(order[..j]) && Finished(order[..j + 1]) == Finished(order[..j]) + {order[j]}
  {
  }

  lemma KeysOfAll(keys: set<nat>, threads: nat, order: seq<nat>)
    requires threads > 0 && IsOrder(order, threads)
    ensures KeysOf(keys, threads, Finished(order[..|order|])) == keys
  {
    assert order[..|order|] == order;
  }

  /** Whatever the number of threads and the order in which they finish, the total is the plain sum of the heights. */
  method CountCemented(heights: map<Account, LedgerStore.ConfirmationHeight>, threads: nat, order: seq<nat>)
    returns (count: nat)
    requires threads > 0 && IsOrder(order, threads)
    ensures count == LedgerStore.HeightTotal(heights)
  {
    var column: map<nat, nat> := LedgerStore.HeightColumn(heights);
    count := 0;
    PartsBounds(column, threads, order);
    hide SumOver, KeysOf, Finished;
    for j := 0 to |order|
      invariant count == SumOver(column, KeysOf(column.Keys, threads, Finished(order[..j])))
    {
      var part := SumHeights(column, threads, order[j]);
      FinishedNext(order, threads, j);
      AddPart(column, threads, Finished(order[..j]), order[j]);
      count := count + part;
    }
  }

  /** No part before the first thread has finished, everything after the last one. */
  lemma PartsBounds(column: map<nat, nat>, threads: nat, order: seq<nat>)
    requires threads > 0 && IsOrder(order, threads)
    ensures SumOver(column, KeysOf(column.Keys, threads, Finished(order[..0]))) == 0
    ensures SumOver(column, KeysOf(column.Keys, threads, Finished(order[..|order|]))) == Sum(column)
  {
    assert KeysOf(column.Keys, threads, Finished(order[..0])) == {} && Restrict(column, {}) == map[];
    KeysOfAll(column.Keys, threads, order);
    assert Restrict(column, column.Keys) == column;
  }

  lemma AddPart(column: map<nat, nat>, threads: nat, done: set<nat>, i: nat)
    requires threads > 0 && i !in done
    ensures SumOver(column, KeysOf(column.Keys, threads, done + {i})) ==
            SumOver(column, KeysOf(column.Keys, threads, done)) + SumOver(column, KeysOf(column.Keys, threads, {i}))
  {
    KeysOfAdd(column.Keys, threads, done, i);
    SumOverUnion(column, KeysOf(column.Keys, threads, done), KeysOf(column.Keys, threads, {i}));
  }

  // ---------------------------------------------------------------------------------------------
  // Block count, account count and representative weights

  datatype AccountRow = AccountRow(blockCount: nat, representative: PublicKey, balance: Amount)

  type AccountTable = map<nat, AccountRow>

  function BlockColumn(table: AccountTable): map<nat, nat> {
    map k | k in table :: table[k].blockCount
  }

  function BalanceColumn(table: AccountTable): map<nat, nat> {
    map k | k in table :: table[k].balance
  }

  function RepColumn(table: AccountTable, rep: PublicKey): map<nat, nat> {
    map k | k in table && table[k].representative == rep :: table[k].balance
  }

  /** The sum of the balances of the accounts that chose `rep`. */
  ghost function WeightOf(table: AccountTable, rep: PublicKey): nat {
    Sum(RepColumn(table, rep))
  }

  /** `weights` holds the balances of the visited accounts, by representative. */
  ghost predicate Tallied(table: AccountTable, visited: set<nat>, weights: Weights) {
    forall rep: PublicKey :: Get(weights, rep) == SumOver(RepColumn(table, rep), visited)
  }

  lemma TallyFits(table: AccountTable, rep: PublicKey, s: set<nat>)
    requires s <= table.Keys
    ensures SumOver(RepColumn(table, rep), s) <= Sum(BalanceColumn(table))
  {
    SumOverLe(RepColumn(table, rep), BalanceColumn(table), s, table.Keys);
    assert Restrict(BalanceColumn(table), table.Keys) == BalanceColumn(table);
  }

  /** One more account: only the entry of its representative changes. */
  method Tally(table: AccountTable, ghost visited: set<nat>, weights: Weights, k: nat) returns (weights': Weights)
    requires Tallied(table, visited, weights) && visited <= table.Keys && k in table && k !in visited
    requires Sum(BalanceColumn(table)) < TWO_128
    ensures Tallied(table, visited + {k}, weights')
  {
    var row := table[k];
    forall rep: PublicKey
      ensures SumOver(RepColumn(table, rep), visited + {k}) ==
              SumOver(RepColumn(table, rep), visited) + (if rep == row.representative then row.balance else 0)
    {
      SumOverAdd(RepColumn(table, rep), visited, k);
    }
    TallyFits(table, row.representative, visited + {k});
    weights' := weights;
    if row.balance != 0 {
      weights' := weights[row.representative := Get(weights, row.representative) + row.balance];
    }
  }

  /** The walk of one thread over the accounts. */
  method ScanAccounts(table: AccountTable, threads: nat, i: nat)
    returns (blockCount: nat, accountCount: nat, weights: Weights)
    requires i < threads && Sum(BalanceColumn(table)) < TWO_128
    ensures blockCount == SumOver(BlockColumn(table), KeysOf(table.Keys, threads, {i}))
    ensures accountCount == |KeysOf(table.Keys, threads, {i})|
    ensures Tallied(table, KeysOf(table.Keys, threads, {i}), weights)
  {
    hide SumOver, Split, KeysOf, Walking, StopKey, AtOrAfter, Tallied, BlockColumn, LmdbIterator.Remaining, KeysFrom;
    var it := new LmdbIterator(table.Keys, Split(threads) * i);
    var end := StopKey(table.Keys, threads, i);
    ghost var from: nat, visited: set<nat> := Split(threads) * i, {};
    blockCount, accountCount, weights := 0, 0, map[];
    WalkStarts(table.Keys, threads, i);
    NothingVisited(table);
    while it.current != end
      invariant it.keys == table.Keys && Walking(table.Keys, threads, i, from, it.current, visited)
      invariant blockCount == SumOver(BlockColumn(table), visited)
      invariant accountCount == |visited|
      invariant Tallied(table, visited, weights)
      decreases |AtOrAfter(table.Keys, from)|
    {
      WalkSteps(table.Keys, threads, i, from, it.current, visited);
      var key := it.current.value;
      BlockAdd(table, visited, key);
      FewerFrom(table.Keys, from, key);
      blockCount := blockCount + table[key].blockCount;
      accountCount := accountCount + 1;
      weights := Tally(table, visited, weights, key);
      visited, from := visited + {key}, key + 1;
      it.Next();
    }
    WalkEnds(table.Keys, threads, i, from, it.current, visited);
  }

  lemma BlockAdd(table: AccountTable, visited: set<nat>, k: nat)
    requires k in table && k !in visited
    ensures SumOver(BlockColumn(table), visited + {k}) == SumOver(BlockColumn(table), visited) + table[k].blockCount
  {
    SumOverAdd(BlockColumn(table), visited, k);
  }

  lemma NothingVisited(table: AccountTable)
    ensures SumOver(BlockColumn(table), {}) == 0 && Tallied(table, {}, map[])
  {
  }

  /** What thread `i` found for `rep`. */
  ghost function Share(table: AccountTable, threads: nat, rep: PublicKey, i: nat): nat
    requires threads > 0
  {
    SumOver(RepColumn(table, rep), KeysOf(table.Keys, threads, {i}))
  }

  /** What each thread found for `rep`, in the order in which the threads finish. */
  ghost function Shares(table: AccountTable, threads: nat, rep: PublicKey, order: seq<nat>): seq<nat>
    requires threads > 0
  {
    seq(|order|, j requires 0 <= j < |order| => Share(table, threads, rep, order[j]))
  }

  /** What the table and the number of threads must be for the cached weight not to depend on the order. */
  ghost predicate NoShareLost(table: AccountTable, threads: nat, rep: PublicKey, minWeight: Amount)
    requires threads > 0
  {
    || WeightOf(table, rep) < minWeight
    || forall i: nat | i < threads :: Share(table, threads, rep, i) == 0 || Share(table, threads, rep, i) >= minWeight
  }

  lemma {:induction false} SharesTotal(table: AccountTable, threads: nat, rep: PublicKey, order: seq<nat>, n: nat)
    requires threads > 0 && IsOrder(order, threads) && n <= |order|
    ensures SumShares(Shares(table, threads, rep, order[..n])) ==
            SumOver(RepColumn(table, rep), KeysOf(table.Keys, threads, Finished(order[..n])))
  {
    if n == 0 {
      assert KeysOf(table.Keys, threads, Finished(order[..0])) == {};
      assert Restrict(RepColumn(table, rep), {}) == map[];
    } else {
      SharesTotal(table, threads, rep, order, n - 1);
      SharesNext(table, threads, rep, order, n - 1);
      FinishedNext(order, threads, n - 1);
      KeysOfAdd(table.Keys, threads, Finished(order[..n - 1]), order[n - 1]);
      SumOverUnion(RepColumn(table, rep), KeysOf(table.Keys, threads, Finished(order[..n - 1])),
                   KeysOf(table.Keys, threads, {order[n - 1]}));
    }
  }

  lemma SharesNext(table: AccountTable, threads: nat, rep: PublicKey, order: seq<nat>, j: nat)
    requires threads > 0 && j < |order|
    ensures Shares(table, threads, rep, order[..j + 1]) ==
            Shares(table, threads, rep, order[..j]) + [Share(table, threads, rep, order[j])]
  {
  }

  /** The cache after the first `n` threads. */
  ghost predicate Merged(table: AccountTable, threads: nat, order: seq<nat>, n: nat, minWeight: Amount, cache: Weights)
    requires threads > 0 && n <= |order|
  {
    forall rep: PublicKey :: Get(cache, rep) == AddShares(minWeight, Shares(table, threads, rep, order[..n]))
  }

  lemma MergeNext(table: AccountTable, threads: nat, order: seq<nat>, j: nat, minWeight: Amount, rep: PublicKey,
                  before: nat, share: nat)
    requires threads > 0 && IsOrder(order, threads) && j < |order| && Sum(BalanceColumn(table)) < TWO_128
    requires before == AddShares(minWeight, Shares(table, threads, rep, order[..j]))
    requires share == SumOver(RepColumn(table, rep), KeysOf(table.Keys, threads, {order[j]}))
    ensures before + share < TWO_128
    ensures AddShares(minWeight, Shares(table, threads, rep, order[..j + 1])) == Kept(minWeight, before + share)
    ensures share == 0 ==> Kept(minWeight, before) == before
  {
    SharesNext(table, threads, rep, order, j);
    SharesTotal(table, threads, rep, order, j + 1);
    AddSharesExact(minWeight, Shares(table, threads, rep, order[..j]));
    TallyFits(table, rep, KeysOf(table.Keys, threads, Finished(order[..j + 1])));
  }

  /**
    Filling all caches from the account table. Counts are exact. The cache owes each weight that reaches the
    minimum. It never holds more, and holds just that if and only if the first share that was added reaches
    the minimum or no weight is due; no thread's share below the minimum makes that certain beforehand.
   */
  method FillCaches(table: AccountTable, threads: nat, order: seq<nat>, minWeight: Amount)
    returns (blockCount: nat, accountCount: nat, cache: Weights)
    requires threads > 0 && IsOrder(order, threads) && Sum(BalanceColumn(table)) < TWO_128
    ensures blockCount == Sum(BlockColumn(table))
    ensures accountCount == |table|
    ensures forall rep: PublicKey :: CacheFilled(table, threads, order, minWeight, cache, rep)
    ensures forall rep: PublicKey | NoShareLost(table, threads, rep, minWeight) ::
              Get(cache, rep) == Kept(minWeight, WeightOf(table, rep))
    ensures minWeight == 0 ==> forall rep: PublicKey :: Get(cache, rep) == WeightOf(table, rep)
  {
    blockCount, accountCount, cache := 0, 0, map[];
    assert BlockColumn(table).Keys == table.Keys;
    PartsBounds(BlockColumn(table), threads, order);
    CountBounds(table.Keys, threads, order);
    MergeStarts(table, threads, order, minWeight);
    hide SumOver, KeysOf, Finished, Merged, Shares, AddShares, Get, Sum, IsOrder, BlockColumn, BalanceColumn, WeightOf,
         NoShareLost, CacheFilled, Kept;
    for j := 0 to |order|
      invariant blockCount == SumOver(BlockColumn(table), KeysOf(table.Keys, threads, Finished(order[..j])))
      invariant accountCount == |KeysOf(table.Keys, threads, Finished(order[..j]))|
      invariant Merged(table, threads, order, j, minWeight, cache)
    {
      blockCount, accountCount, cache := AddThread(table, threads, order, j, minWeight, blockCount, accountCount, cache);
    }
    MergeEnds(table, threads, order, minWeight, cache);
  }

  lemma MergeStarts(table: AccountTable, threads: nat, order: seq<nat>, minWeight: Amount)
    requires threads > 0
    ensures Merged(table, threads, order, 0, minWeight, map[])
  {
  }

  /** The cached weight of `rep`, compared with the one that is due. */
  ghost predicate CacheFilled(table: AccountTable, threads: nat, order: seq<nat>, minWeight: Amount, cache: Weights,
                              rep: PublicKey)
    requires threads > 0
  {
    var shares, weight := Shares(table, threads, rep, order), WeightOf(table, rep);
    && Get(cache, rep) == AddShares(minWeight, shares)
    && Get(cache, rep) <= Kept(minWeight, weight)
    && (Get(cache, rep) == Kept(minWeight, weight) <==>
          FirstShare(shares) == 0 || FirstShare(shares) >= minWeight || weight < minWeight)
  }

  lemma MergeEnds(table: AccountTable, threads: nat, order: seq<nat>, minWeight: Amount, cache: Weights)
    requires threads > 0 && IsOrder(order, threads) && Merged(table, threads, order, |order|, minWeight, cache)
    ensures forall rep: PublicKey ::
              && CacheFilled(table, threads, order, minWeight, cache, rep)
              && (NoShareLost(table, threads, rep, minWeight) ==> Get(cache, rep) == Kept(minWeight, WeightOf(table, rep)))
              && (minWeight == 0 ==> Get(cache, rep) == WeightOf(table, rep))
  {
    assert order[..|order|] == order;
    forall rep: PublicKey
      ensures CacheFilled(table, threads, order, minWeight, cache, rep)
      ensures NoShareLost(table, threads, rep, minWeight) ==> Get(cache, rep) == Kept(minWeight, WeightOf(table, rep))
      ensures minWeight == 0 ==> Get(cache, rep) == WeightOf(table, rep)
    {
      hide Merged;
      MergedAt(table, threads, order, |order|, minWeight, cache, rep);
      AllShares(table, threads, rep, order);
      AddSharesExact(minWeight, Shares(table, threads, rep, order));
      FirstIsSome(Shares(table, threads, rep, order));
    }
  }

  lemma MergedAt(table: AccountTable, threads: nat, order: seq<nat>, n: nat, minWeight: Amount, cache: Weights, rep: PublicKey)
    requires threads > 0 && n <= |order| && Merged(table, threads, order, n, minWeight, cache)
    ensures Get(cache, rep) == AddShares(minWeight, Shares(table, threads, rep, order[..n]))
  {
  }

  lemma AllShares(table: AccountTable, threads: nat, rep: PublicKey, order: seq<nat>)
    requires threads > 0 && IsOrder(order, threads)
    ensures SumShares(Shares(table, threads, rep, order)) == WeightOf(table, rep)
  {
    assert order[..|order|] == order;
    KeysOfAll(table.Keys, threads, order);
    SharesTotal(table, threads, rep, order, |order|);
    assert Restrict(RepColumn(table, rep), table.Keys) == RepColumn(table, rep);
  }

  /** One more account adds its blocks to the count and its balance to the weight of its representative alone. */
  lemma AccountAdds(table: AccountTable, k: nat, row: AccountRow, rep: PublicKey)
    requires k !in table
    ensures Sum(BlockColumn(table[k := row])) == Sum(BlockColumn(table)) + row.blockCount
    ensures WeightOf(table[k := row], rep) == WeightOf(table, rep) + (if rep == row.representative then row.balance else 0)
    ensures WeightOf(map[], rep) == 0
  {
    assert BlockColumn(table[k := row]) == BlockColumn(table)[k := row.blockCount];
    SumPut(BlockColumn(table), k, row.blockCount);
    assert RepColumn(table[k := row], rep) ==
           if rep == row.representative then RepColumn(table, rep)[k := row.balance] else RepColumn(table, rep);
    SumPut(RepColumn(table, rep), k, row.balance);
  }

  // ---------------------------------------------------------------------------------------------
  // When the order does not matter

  /** The first share is one of the shares, unless all are zero. */
  lemma {:induction false} FirstIsSome(shares: seq<nat>)
    ensures FirstShare(shares) == 0 || FirstShare(shares) in shares
  {
    if shares != [] { FirstIsSome(shares[..|shares| - 1]); }
  }

  lemma {:induction false} FirstOfAll(shares: seq<nat>)
    requires shares != [] && shares[0] != 0
    ensures FirstShare(shares) == shares[0]
  {
    if |shares| > 1 { FirstOfAll(shares[..|shares| - 1]); }
  }

  /** An order in which thread `i` finishes first. */
  ghost function OrderFrom(threads: nat, i: nat): seq<nat>
    requires i < threads
  {
    seq(threads, j requires 0 <= j => if j == 0 then i else if j <= i then j - 1 else j)
  }

  lemma OrderFromIsOrder(threads: nat, i: nat)
    requires i < threads
    ensures IsOrder(OrderFrom(threads, i), threads) && OrderFrom(threads, i)[0] == i
  {
    var order := OrderFrom(threads, i);
    forall k: nat | k < threads
      ensures k in order
    {
      assert order[if k == i then 0 else if k < i then k + 1 else k] == k;
    }
  }

  /** The cached weight is the one due in every order of the threads if and only if no thread's share is lost. */
  lemma EveryOrderAgrees(table: AccountTable, threads: nat, rep: PublicKey, minWeight: Amount)
    requires threads > 0
    ensures (forall order | IsOrder(order, threads) ::
               AddShares(minWeight, Shares(table, threads, rep, order)) == Kept(minWeight, WeightOf(table, rep)))
            <==> NoShareLost(table, threads, rep, minWeight)
  {
    hide WeightOf, Share, AddShares;
    forall order | IsOrder(order, threads)
      ensures AddShares(minWeight, Shares(table, threads, rep, order)) == Kept(minWeight, WeightOf(table, rep)) <==>
              FirstShare(Shares(table, threads, rep, order)) == 0 ||
              FirstShare(Shares(table, threads, rep, order)) >= minWeight || WeightOf(table, rep) < minWeight
      ensures FirstShare(Shares(table, threads, rep, order)) == 0 ||
              FirstShare(Shares(table, threads, rep, order)) in Shares(table, threads, rep, order)
    {
      AllShares(table, threads, rep, order);
      AddSharesExact(minWeight, Shares(table, threads, rep, order));
      FirstIsSome(Shares(table, threads, rep, order));
    }
    if !NoShareLost(table, threads, rep, minWeight) {
      var i: nat :| i < threads && 0 < Share(table, threads, rep, i) < minWeight;
      OrderFromIsOrder(threads, i);
      FirstOfAll(Shares(table, threads, rep, OrderFrom(threads, i)));
    }
  }

  lemma CountBounds(keys: set<nat>, threads: nat, order: seq<nat>)
    requires threads > 0 && IsOrder(order, threads)
    ensures KeysOf(keys, threads, Finished(order[..0])) == {}
    ensures KeysOf(keys, threads, Finished(order[..|order|])) == keys
  {
    KeysOfAll(keys, threads, order);
  }

  /** One thread scans its range and adds its results to the shared ones. */
  method AddThread(table: AccountTable, threads: nat, order: seq<nat>, j: nat, minWeight: Amount,
                   blockCount: nat, accountCount: nat, cache: Weights)
    returns (blockCount': nat, accountCount': nat, cache': Weights)
    requires threads > 0 && IsOrder(order, threads) && j < |order| && Sum(BalanceColumn(table)) < TWO_128
    requires blockCount == SumOver(BlockColumn(table), KeysOf(table.Keys, threads, Finished(order[..j])))
    requires accountCount == |KeysOf(table.Keys, threads, Finished(order[..j]))|
    requires Merged(table, threads, order, j, minWeight, cache)
    ensures blockCount' == SumOver(BlockColumn(table), KeysOf(table.Keys, threads, Finished(order[..j + 1])))
    ensures accountCount' == |KeysOf(table.Keys, threads, Finished(order[..j + 1]))|
    ensures Merged(table, threads, order, j + 1, minWeight, cache')
  {
    hide SumOver, Finished, Shares, AddShares, Sum, BlockColumn, BalanceColumn, RepColumn;
    var blocks, accounts, weights := ScanAccounts(table, threads, order[j]);
    FinishedNext(order, threads, j);
    KeysOfAdd(table.Keys, threads, Finished(order[..j]), order[j]);
    SumOverUnion(BlockColumn(table), KeysOf(table.Keys, threads, Finished(order[..j])), KeysOf(table.Keys, threads, {order[j]}));
    blockCount', accountCount' := blockCount + blocks, accountCount + accounts;
    cache' := CopyFrom(cache, minWeight, weights);
    forall rep: PublicKey
      ensures Get(cache', rep) == AddShares(minWeight, Shares(table, threads, rep, order[..j + 1]))
    {
      MergeNext(table, threads, order, j, minWeight, rep, Get(cache, rep), Get(weights, rep));
    }
  }
}
