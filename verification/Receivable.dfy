/**
  Iterating over receivable entries. The pending table is ordered by receiving account and then by the
  hash of the send block: a key is the 64-byte number made of both.
 */
module Receivable {
  import opened Types
  import opened Cursor
  import opened LedgerStore
  import CacheScan

  function Key(account: Account, hash: Hash): nat { account * TWO_256 + hash }
  function AccountOf(k: nat): nat { k / TWO_256 }
  function HashOf(k: nat): U256 { k % TWO_256 }

  /** Keys are ordered by account first and by hash within an account. */
  lemma KeyOrder(a: Account, h: Hash, k: nat)
    ensures AccountOf(Key(a, h)) == a && HashOf(Key(a, h)) == h
    ensures Key(a, h) <= k <==> a < AccountOf(k) || (a == AccountOf(k) && h <= HashOf(k))
    ensures k == AccountOf(k) * TWO_256 + HashOf(k)
  {
  }

  lemma AccountMono(k: nat, k': nat)
    requires k <= k'
    ensures AccountOf(k) <= AccountOf(k')
  {
  }

  // ---------------------------------------------------------------------------------------------
  // The entries of one account

  function Of(keys: set<nat>, account: nat): set<nat> {
    set k | k in keys && AccountOf(k) == account
  }

  /** From `start` on: the entries of the first account met there. */
  ghost function FirstRun(keys: set<nat>, start: nat): seq<nat> {
    match LowerBound(keys, start)
    case None => []
    case Some(k) => KeysFrom(Of(keys, AccountOf(k)), start)
  }

  /** All entries of the first account from `account` on that has any. */
  ghost function FirstAccountEntries(keys: set<nat>, account: nat): seq<nat> {
    match LowerBound(keys, account * TWO_256)
    case None => []
    case Some(k) => KeysFrom(Of(keys, AccountOf(k)), 0)
  }

  lemma FirstRunIsAccount(keys: set<nat>, account: Account)
    ensures FirstRun(keys, Key(account, 0)) == FirstAccountEntries(keys, account)
  {
  }

  /** The cursor meets an entry of the account: it is the account's next one. */
  lemma NextOfAccount(keys: set<nat>, account: nat, from: nat, k: nat)
    requires LowerBound(keys, from) == Some(k) && AccountOf(k) == account
    ensures KeysFrom(Of(keys, account), from) == [k] + KeysFrom(Of(keys, account), k + 1)
  {
    LeastIsLowerBound(Of(keys, account), from, k);
    KeysFromStep(Of(keys, account), from);
  }

  /** The cursor meets a later account or the end: the account has no more entries. */
  lemma NoneOfAccount(keys: set<nat>, account: nat, from: nat)
    requires AccountOf(from) >= account
    requires LowerBound(keys, from).None? || AccountOf(LowerBound(keys, from).value) != account
    ensures KeysFrom(Of(keys, account), from) == []
  {
  }

  /** The highest hash is the last entry of its account. */
  lemma NothingAfterLastHash(keys: set<nat>, k: nat)
    requires HashOf(k) == TWO_256 - 1
    ensures KeysFrom(Of(keys, AccountOf(k)), k + 1) == []
  {
  }

  // ---------------------------------------------------------------------------------------------
  // The iterator that keeps its cursor

  class AnyReceivableIterator {
    const keys: set<nat>
    const requested: Account
    var actual: Option<nat>
    var nextHash: Option<Hash>
    var isFirst: bool
    var position: nat // the key under the cursor

    ghost predicate Valid()
      reads this
    {
      !isFirst ==>
        && actual == Some(AccountOf(position))
        && (nextHash.None? ==> HashOf(position) == TWO_256 - 1)
    }

    /** What the iterator will yield before its first `None`. */
    ghost function Remaining(): seq<nat>
      reads this
      requires Valid()
    {
      if !isFirst then KeysFrom(Of(keys, AccountOf(position)), position + 1)
      else if nextHash.None? then []
      else if actual.Some? then KeysFrom(Of(keys, actual.value), Key(requested, nextHash.value))
      else FirstRun(keys, Key(requested, nextHash.value))
    }

    /** The entries of `account` with a hash greater than `hash`. */
    constructor AccountUpperBound(keys: set<nat>, account: Account, hash: Hash)
      ensures Valid() && Remaining() == KeysFrom(Of(keys, account), Key(account, hash) + 1)
      ensures actual.Some? ==> actual.value == requested
    {
      this.keys, requested, actual, nextHash, isFirst, position := keys, account, Some(account), Inc(hash), true, 0;
      KeyOrder(account, hash, Key(account, hash));
      if hash == TWO_256 - 1 { NothingAfterLastHash(keys, Key(account, hash)); }
    }

    /** The entries of the first account greater than `account` that has any. */
    constructor UpperBound(keys: set<nat>, account: Account)
      ensures Valid() && actual.None?
      ensures Remaining() == if account == TWO_256 - 1 then [] else FirstAccountEntries(keys, account + 1)
    {
      this.keys, actual, isFirst, position := keys, None, true, 0;
      match Inc(account) {
        case None => requested, nextHash := 0, None;
        case Some(next) => requested, nextHash := next, Some(0); FirstRunIsAccount(keys, next);
      }
    }

    /** The entries of the first account greater than or equal to `account` that has any. */
    constructor LowerBound(keys: set<nat>, account: Account)
      ensures Valid() && actual.None?
      ensures Remaining() == FirstAccountEntries(keys, account)
    {
      this.keys, requested, actual, nextHash, isFirst, position := keys, account, None, Some(0), true, 0;
      FirstRunIsAccount(keys, account);
    }

    method Next() returns (r: Option<nat>)
      requires Valid() && (isFirst && actual.Some? ==> actual.value == requested)
      modifies this
      ensures old(Remaining()) == [] ==> r.None?
      ensures old(Remaining()) != [] ==> r == Some(old(Remaining())[0]) && Valid() && Remaining() == old(Remaining())[1..]
      ensures r.Some? ==> !isFirst
    {
      hide KeysFrom, Of, AccountOf, HashOf, Key;
      if nextHash.None? {
        if !isFirst { NothingAfterLastHash(keys, position); }
        return None;
      }
      if isFirst {
        isFirst := false;
        var start := Key(requested, nextHash.value);
        KeyOrder(requested, nextHash.value, start);
        match Cursor.LowerBound(keys, start) {
          case None =>
            if actual.Some? { NoneOfAccount(keys, actual.value, start); }
            return None;
          case Some(key) =>
            if actual.Some? && actual.value != AccountOf(key) {
              NoneOfAccount(keys, actual.value, start);
              return None;
            }
            NextOfAccount(keys, AccountOf(key), start, key);
            position, actual := key, Some(AccountOf(key));
            return Some(key);
        }
      }
      AccountMono(position, position + 1);
      match Cursor.LowerBound(keys, position + 1) {
        case None =>
          NoneOfAccount(keys, AccountOf(position), position + 1);
          return None;
        case Some(key) =>
          if AccountOf(key) == actual.value {
            NextOfAccount(keys, AccountOf(key), position + 1, key);
            position, nextHash := key, Inc(HashOf(key));
            return Some(key);
          }
          NoneOfAccount(keys, AccountOf(position), position + 1);
          return None;
      }
    }
  }

  /** The whole iteration, up to the first `None`. */
  method CollectAny(it: AnyReceivableIterator) returns (all: seq<nat>)
    requires it.Valid() && (it.isFirst && it.actual.Some? ==> it.actual.value == it.requested)
    modifies it
    ensures all == old(it.Remaining())
  {
    hide *;
    all := [];
    ghost var rest := it.Remaining();
    var next := it.Next();
    while next.Some?
      invariant next.None? ==> rest == []
      invariant next.Some? ==> rest != [] && next.value == rest[0]
      invariant next.Some? ==> it.Valid() && !it.isFirst && it.Remaining() == rest[1..]
      invariant all + rest == old(it.Remaining())
      decreases |rest|
    {
      assert rest == [next.value] + rest[1..];
      all, rest := all + [next.value], rest[1..];
      next := it.Next();
    }
  }

  // ---------------------------------------------------------------------------------------------
  // The iterator that seeks again on every call and skips unconfirmed sends

  /** The entries whose send block is stored and confirmed. */
  function OfConfirmed(keys: set<nat>, t: Tables): set<nat> {
    set k | k in keys && ConfirmedExists(t, HashOf(k))
  }

  method FirstReceivableLowerBound(keys: set<nat>, t: Tables, account: Account, hash: Hash) returns (r: Option<nat>)
    ensures r == LowerBound(OfConfirmed(keys, t), Key(account, hash))
  {
    hide Key, HashOf, ConfirmedExists;
    var it := LowerBound(keys, Key(account, hash));
    ghost var from: nat := Key(account, hash);
    while it.Some? && !ConfirmedExists(t, HashOf(it.value))
      invariant it == LowerBound(keys, from)
      invariant Key(account, hash) <= from
      invariant forall y | y in OfConfirmed(keys, t) :: y < Key(account, hash) || from <= y
      decreases |AtOrAfter(keys, from)|
    {
      FewerAfter(keys, from, it.value);
      from := it.value + 1;
      it := LowerBound(keys, it.value + 1);
    }
    r := it;
    if it.Some? { LeastIsLowerBound(OfConfirmed(keys, t), Key(account, hash), it.value); }
  }

  class ConfirmedReceivableIterator {
    const keys: set<nat>
    const tables: Tables
    const requested: Account
    var actual: Option<Account>
    var nextHash: Option<Hash>

    /** What the iterator will yield before its first `None`. */
    ghost function Remaining(): seq<nat>
      reads this
    {
      if nextHash.None? then []
      else if actual.Some? then KeysFrom(Of(OfConfirmed(keys, tables), actual.value), Key(actual.value, nextHash.value))
      else FirstRun(OfConfirmed(keys, tables), Key(requested, nextHash.value))
    }

    /** The confirmed entries of the first account from `account` on that has one. */
    constructor LowerBound(keys: set<nat>, tables: Tables, account: Account)
      ensures Remaining() == FirstAccountEntries(OfConfirmed(keys, tables), account)
      ensures this.keys == keys
    {
      this.keys, this.tables, requested, actual, nextHash := keys, tables, account, None, Some(0);
      FirstRunIsAccount(OfConfirmed(keys, tables), account);
    }

    method Next() returns (r: Option<nat>)
      requires forall k | k in keys :: AccountOf(k) < TWO_256
      modifies this
      ensures old(Remaining()) == [] ==> r.None?
      ensures old(Remaining()) != [] ==> r == Some(old(Remaining())[0]) && Remaining() == old(Remaining())[1..]
    {
      hide KeysFrom, Of, AccountOf, HashOf, Key;
      if nextHash.None? { return None; }
      var account := if actual.Some? then actual.value else requested;
      ghost var start, confirmed := Key(account, nextHash.value), OfConfirmed(keys, tables);
      KeyOrder(account, nextHash.value, start);
      var found := FirstReceivableLowerBound(keys, tables, account, nextHash.value);
      if found.None? {
        if actual.Some? { NoneOfAccount(confirmed, account, start); }
        return None;
      }
      var key := found.value;
      if actual.Some? && AccountOf(key) != account {
        NoneOfAccount(confirmed, account, start);
        return None;
      }
      NextOfAccount(confirmed, AccountOf(key), start, key);
      if actual.None? { actual := Some(AccountOf(key)); }
      nextHash := Inc(HashOf(key));
      AfterHash(confirmed, key);
      return Some(key);
    }
  }

  /** Seeking from the next hash continues just after `k`, also when there is no next hash. */
  lemma AfterHash(keys: set<nat>, k: nat)
    requires AccountOf(k) < TWO_256
    ensures KeysFrom(Of(keys, AccountOf(k)), k + 1) ==
            if Inc(HashOf(k)).None? then [] else KeysFrom(Of(keys, AccountOf(k)), Key(AccountOf(k), HashOf(k) + 1))
  {
    KeyOrder(AccountOf(k), HashOf(k), k);
    assert Inc(HashOf(k)).Some? ==> Key(AccountOf(k), HashOf(k) + 1) == k + 1;
    hide KeysFrom, Of, Key;
    if Inc(HashOf(k)).None? { NothingAfterLastHash(keys, k); }
  }

  method CollectConfirmed(it: ConfirmedReceivableIterator) returns (all: seq<nat>)
    requires forall k | k in it.keys :: AccountOf(k) < TWO_256
    modifies it
    ensures all == old(it.Remaining())
  {
    hide *;
    all := [];
    ghost var rest := it.Remaining();
    var next := it.Next();
    while next.Some?
      invariant next.None? ==> rest == []
      invariant next.Some? ==> rest != [] && next.value == rest[0] && it.Remaining() == rest[1..]
      invariant all + rest == old(it.Remaining())
      decreases |rest|
    {
      assert rest == [next.value] + rest[1..];
      all, rest := all + [next.value], rest[1..];
      next := it.Next();
    }
  }

  // ---------------------------------------------------------------------------------------------
  // The two iterators compared

  function OnlyConfirmed(list: seq<nat>, t: Tables): seq<nat> {
    if list == [] then []
    else (if ConfirmedExists(t, HashOf(list[0])) then [list[0]] else []) + OnlyConfirmed(list[1..], t)
  }

  /** Visiting the confirmed entries is visiting all entries and dropping the others. */
  lemma {:induction false} ConfirmedIsFiltered(keys: set<nat>, t: Tables, from: nat)
    ensures KeysFrom(OfConfirmed(keys, t), from) == OnlyConfirmed(KeysFrom(keys, from), t)
    decreases |AtOrAfter(keys, from)|
  {
    hide ConfirmedExists, HashOf;
    KeysFromStep(keys, from);
    match LowerBound(keys, from)
    case None => KeysFromStep(OfConfirmed(keys, t), from);
    case Some(k) =>
      FewerAfter(keys, from, k);
      ConfirmedIsFiltered(keys, t, k + 1);
      assert ([k] + KeysFrom(keys, k + 1))[1..] == KeysFrom(keys, k + 1);
      if ConfirmedExists(t, HashOf(k)) {
        LeastIsLowerBound(OfConfirmed(keys, t), from, k);
        KeysFromStep(OfConfirmed(keys, t), from);
      } else {
        KeysFromSkip(OfConfirmed(keys, t), from, k + 1);
      }
  }

  /** What the confirmed iterator yields, in terms of the other one: one account's entries, filtered. */
  lemma ConfirmedEntries(keys: set<nat>, t: Tables, account: Account)
    ensures match LowerBound(OfConfirmed(keys, t), Key(account, 0))
            case None => FirstAccountEntries(OfConfirmed(keys, t), account) == []
            case Some(k) => FirstAccountEntries(OfConfirmed(keys, t), account) ==
                            OnlyConfirmed(KeysFrom(Of(keys, AccountOf(k)), 0), t)
  {
    match LowerBound(OfConfirmed(keys, t), Key(account, 0))
    case None =>
    case Some(k) =>
      ConfirmedIsFiltered(Of(keys, AccountOf(k)), t, 0);
      assert OfConfirmed(Of(keys, AccountOf(k)), t) == Of(OfConfirmed(keys, t), AccountOf(k));
  }

  /** When every send is stored and confirmed the two iterators yield the same entries. */
  lemma IteratorsAgree(keys: set<nat>, t: Tables, account: Account)
    requires forall k | k in keys :: ConfirmedExists(t, HashOf(k))
    ensures FirstAccountEntries(OfConfirmed(keys, t), account) == FirstAccountEntries(keys, account)
  {
    assert OfConfirmed(keys, t) == keys;
  }

  /** The entries of the first account that has any, told by membership. */
  lemma FirstAccountContent(keys: set<nat>, account: nat, k: nat)
    ensures k in FirstAccountEntries(keys, account) <==>
              k in keys && AccountOf(k) >= account && forall y | y in keys && AccountOf(y) >= account :: AccountOf(k) <= AccountOf(y)
  {
    match LowerBound(keys, account * TWO_256)
    case None =>
      assert forall y | y in keys :: AccountOf(y) < account;
    case Some(first) =>
      KeysFromComplete(Of(keys, AccountOf(first)), 0, k);
      forall y | y in keys && AccountOf(y) >= account ensures AccountOf(first) <= AccountOf(y) { AccountMono(first, y); }
  }

  /** What the confirmed iterator may yield: entries whose send is stored at or below its confirmation height. */
  lemma ConfirmedContent(keys: set<nat>, t: Tables, k: nat)
    ensures k in OfConfirmed(keys, t) <==>
              && k in keys && HashOf(k) in t.blocks
              && t.blocks[HashOf(k)].Account() in t.heights
              && t.blocks[HashOf(k)].sideband.height <= t.heights[t.blocks[HashOf(k)].Account()].height
  {
  }

  // ---------------------------------------------------------------------------------------------
  // The receivable balance

  /** The entries that count: those of the account with a non-zero hash and, if asked, a confirmed or pruned send. */
  function Receivables(pending: map<nat, nat>, t: Tables, account: Account, onlyConfirmed: bool): set<nat> {
    set k | k in pending && AccountOf(k) == account && HashOf(k) != 0 &&
            (onlyConfirmed ==> ConfirmedExistsOrPruned(t, HashOf(k)))
  }

  /** Which entries count: the account's own; of a send that is neither pruned nor confirmed only if unasked. */
  lemma ReceivablesContent(pending: map<nat, nat>, t: Tables, account: Account, onlyConfirmed: bool, hash: Hash)
    ensures Key(account, hash) in Receivables(pending, t, account, onlyConfirmed) <==>
              && Key(account, hash) in pending && hash != 0
              && (|| !onlyConfirmed || hash in t.pruned
                  || (&& hash in t.blocks && t.blocks[hash].Account() in t.heights
                      && t.blocks[hash].sideband.height <= t.heights[t.blocks[hash].Account()].height))
    ensures forall k | k in Receivables(pending, t, account, onlyConfirmed) :: k / TWO_256 == account
  {
    KeyOrder(account, hash, Key(account, hash));
  }

  /** Adding up the entries visited from `start` on. */
  method SumEntries(pending: map<nat, nat>, ghost own: set<nat>, start: nat, entries: seq<nat>, t: Tables, onlyConfirmed: bool)
    returns (total: nat)
    requires own <= pending.Keys && entries == KeysFrom(own, start)
    ensures total == CacheScan.SumOver(pending, ToSum(own, start, t, onlyConfirmed))
  {
    hide HashOf, ConfirmedExistsOrPruned;
    total := 0;
    ghost var from: nat, seen: set<nat> := start, {};
    assert CacheScan.Restrict(pending, {}) == map[];
    for i := 0 to |entries|
      invariant start <= from && entries[i..] == KeysFrom(own, from)
      invariant seen == set k | k in ToSum(own, start, t, onlyConfirmed) && k < from
      invariant total == CacheScan.SumOver(pending, seen)
    {
      var key := entries[i];
      KeysFromStep(own, from);
      assert entries[i..][1..] == entries[i + 1..];
      if !onlyConfirmed || ConfirmedExistsOrPruned(t, HashOf(key)) {
        CacheScan.SumOverAdd(pending, seen, key);
        total := total + pending[key];
        seen := seen + {key};
      }
      from := key + 1;
    }
    KeysFromStep(own, from);
    assert seen == ToSum(own, start, t, onlyConfirmed);
  }

  function ToSum(own: set<nat>, start: nat, t: Tables, onlyConfirmed: bool): set<nat> {
    set k | k in own && start <= k && (onlyConfirmed ==> ConfirmedExistsOrPruned(t, HashOf(k)))
  }

  method AccountReceivable(pending: map<nat, nat>, t: Tables, account: Account, onlyConfirmed: bool) returns (total: nat)
    ensures total == CacheScan.SumOver(pending, Receivables(pending, t, account, onlyConfirmed))
  {
    var it := new AnyReceivableIterator.AccountUpperBound(pending.Keys, account, 0);
    var entries := CollectAny(it);
    total := SumEntries(pending, Of(pending.Keys, account), Key(account, 0) + 1, entries, t, onlyConfirmed);
    assert ToSum(Of(pending.Keys, account), Key(account, 0) + 1, t, onlyConfirmed) ==
           Receivables(pending, t, account, onlyConfirmed);
  }
}
