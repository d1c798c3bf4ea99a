/**
  Database cursors. A table is ordered by its keys, read as big-endian numbers: a cursor is placed on
  the first key at or after a given one and moves on to the next key.
 */
module Cursor {
  import opened Types

  predicate IsLeast(keys: set<nat>, from: nat, k: nat) {
    k in keys && from <= k && forall y | y in keys && from <= y :: k <= y
  }

  lemma {:induction false} LeastExists(keys: set<nat>, from: nat, some: nat)
    requires some in keys && from <= some
    ensures exists k :: IsLeast(keys, from, k)
    decreases some
  {
    if !IsLeast(keys, from, some) {
      var y :| y in keys && from <= y && y < some;
      LeastExists(keys, from, y);
    }
  }

  /** The first key at or after `from`, if there is one. */
  function LowerBound(keys: set<nat>, from: nat): (r: Option<nat>)
    ensures r.Some? ==> IsLeast(keys, from, r.value)
    ensures r.None? ==> forall y | y in keys :: y < from
  {
    if exists y | y in keys :: from <= y then
      ghost var y :| y in keys && from <= y;
      LeastExists(keys, from, y);
      var k :| IsLeast(keys, from, k);
      Some(k)
    else None
  }

  ghost function AtOrAfter(keys: set<nat>, from: nat): set<nat> {
    set y | y in keys && from <= y
  }

  /** All keys at or after `from`, in the order a cursor visits them. */
  ghost function KeysFrom(keys: set<nat>, from: nat): seq<nat>
    decreases |AtOrAfter(keys, from)|
  {
    match LowerBound(keys, from)
    case None => []
    case Some(k) =>
      FewerAfter(keys, from, k);
      [k] + KeysFrom(keys, k + 1)
  }

  lemma FewerAfter(keys: set<nat>, from: nat, k: nat)
    requires k in keys && from <= k
    ensures |AtOrAfter(keys, k + 1)| < |AtOrAfter(keys, from)|
  {
    var rest := AtOrAfter(keys, from) - {k};
    assert rest == AtOrAfter(keys, k + 1) + (rest - AtOrAfter(keys, k + 1));
    assert k in AtOrAfter(keys, from);
  }

  /** Moving a cursor on from `k` skips exactly `k`. */
  lemma KeysFromStep(keys: set<nat>, from: nat)
    ensures LowerBound(keys, from).None? ==> KeysFrom(keys, from) == []
    ensures LowerBound(keys, from).Some? ==>
              KeysFrom(keys, from) == [LowerBound(keys, from).value] + KeysFrom(keys, LowerBound(keys, from).value + 1)
  {
  }

  lemma {:induction false} KeysFromComplete(keys: set<nat>, from: nat, y: nat)
    ensures y in KeysFrom(keys, from) <==> y in keys && from <= y
    decreases |AtOrAfter(keys, from)|
  {
    KeysFromStep(keys, from);
    match LowerBound(keys, from)
    case None =>
    case Some(k) =>
      FewerAfter(keys, from, k);
      KeysFromComplete(keys, k + 1, y);
  }

  /** The visit is in strictly ascending order. */
  lemma {:induction false} KeysFromAscending(keys: set<nat>, from: nat)
    ensures var s := KeysFrom(keys, from); forall i, j | 0 <= i < j < |s| :: s[i] < s[j]
    decreases |AtOrAfter(keys, from)|
  {
    KeysFromStep(keys, from);
    match LowerBound(keys, from)
    case None =>
    case Some(k) =>
      FewerAfter(keys, from, k);
      KeysFromAscending(keys, k + 1);
      var rest := KeysFrom(keys, k + 1);
      forall j | 0 <= j < |rest|
        ensures k < rest[j]
      {
        KeysFromComplete(keys, k + 1, rest[j]);
      }
  }

  lemma LeastIsLowerBound(keys: set<nat>, from: nat, k: nat)
    requires IsLeast(keys, from, k)
    ensures LowerBound(keys, from) == Some(k)
  {
  }

  /** A gap without keys can be skipped. */
  lemma KeysFromSkip(keys: set<nat>, from: nat, to: nat)
    requires from <= to && forall y | y in keys :: y < from || to <= y
    ensures KeysFrom(keys, from) == KeysFrom(keys, to)
  {
  }

  // ---------------------------------------------------------------------------------------------
  // The cursor as an object

  class LmdbIterator {
    const keys: set<nat>
    var current: Option<nat>

    /** The key under the cursor and all that follow. */
    ghost function Remaining(): seq<nat>
      reads this
    {
      if current.None? then [] else [current.value] + KeysFrom(keys, current.value + 1)
    }

    /** Placed on the first key at or after `from`. */
    constructor (keys: set<nat>, from: nat)
      ensures Remaining() == KeysFrom(keys, from) && this.keys == keys && current == LowerBound(keys, from)
    {
      this.keys, current := keys, LowerBound(keys, from);
      KeysFromStep(keys, from);
    }

    method Next()
      modifies this
      ensures Remaining() == if old(Remaining()) == [] then [] else old(Remaining())[1..]
      ensures current == if old(current).None? then None else LowerBound(keys, old(current).value + 1)
    {
      if current.Some? {
        KeysFromStep(keys, current.value + 1);
        current := LowerBound(keys, current.value + 1);
      }
    }
  }
}
