/** The voting weights of representatives: a stored table and an in-memory cache of the larger entries. */
module RepWeights {
  import opened Types
  import opened MapSums

  type Weights = map<PublicKey, Amount>

  function Get(w: Weights, rep: PublicKey): Amount {
    if rep in w then w[rep] else 0
  }

  /** Addition modulo 2^128; a decrease is written as the addition of its complement. */
  function WrappingAdd(a: Amount, b: Amount): Amount {
    if a + b < TWO_128 then a + b else a + b - TWO_128
  }

  /** An entry of zero is never kept. */
  function Set(w: Weights, rep: PublicKey, weight: Amount): Weights {
    if weight == 0 then w - {rep} else w[rep := weight]
  }

  function Added(w: Weights, rep: PublicKey, amount: Amount): Weights {
    Set(w, rep, WrappingAdd(Get(w, rep), amount))
  }

  /** The entries the cache may hold. */
  function Cached(w: Weights, minWeight: Amount): Weights {
    map rep | rep in w && w[rep] >= minWeight && w[rep] != 0 :: w[rep]
  }

  function CachePut(cache: Weights, minWeight: Amount, rep: PublicKey, weight: Amount): Weights {
    if weight < minWeight || weight == 0 then cache - {rep} else cache[rep := weight]
  }

  /** Writing an entry through to the cache keeps it the restriction of the stored table. */
  lemma CachedSet(w: Weights, minWeight: Amount, rep: PublicKey, weight: Amount)
    ensures Cached(Set(w, rep, weight), minWeight) == CachePut(Cached(w, minWeight), minWeight, rep, weight)
  {
  }

  ghost predicate NoZero(w: Weights) { forall rep | rep in w :: w[rep] != 0 }

  ghost function Total(w: Weights): nat { Sum(w) }

  class RepWeightsUpdater {
    const minWeight: Amount
    var store: Weights
    var cache: Weights

    /** The cache is the stored table restricted to weights at or above the minimum. */
    ghost predicate Valid()
      reads this
    {
      NoZero(store) && cache == Cached(store, minWeight)
    }

    constructor (minWeight: Amount)
      ensures Valid() && store == map[] && this.minWeight == minWeight
    {
      this.minWeight := minWeight;
      store := map[];
      cache := map[];
    }

    method RepresentationAdd(rep: PublicKey, amount: Amount)
      requires Valid()
      modifies this
      ensures Valid() && store == Added(old(store), rep, amount)
    {
      var previousWeight := Get(store, rep);
      var newWeight := WrappingAdd(previousWeight, amount);
      CachedSet(store, minWeight, rep, newWeight);
      PutStore(rep, previousWeight, newWeight);
      PutCache(rep, newWeight);
    }

    method PutStore(rep: PublicKey, previousWeight: Amount, newWeight: Amount)
      requires NoZero(store) && previousWeight == Get(store, rep)
      modifies `store
      ensures NoZero(store) && store == Set(old(store), rep, newWeight)
    {
      if newWeight == 0 {
        if previousWeight != 0 {
          store := store - {rep};
        }
      } else {
        store := store[rep := newWeight];
      }
    }

    method PutCache(rep: PublicKey, newWeight: Amount)
      modifies `cache
      ensures cache == CachePut(old(cache), minWeight, rep, newWeight)
    {
      if newWeight < minWeight || newWeight == 0 {
        cache := cache - {rep};
      } else {
        cache := cache[rep := newWeight];
      }
    }

    /** Two changes at once; both previous weights are read before either entry is written. */
    method RepresentationAddDual(rep1: PublicKey, amount1: Amount, rep2: PublicKey, amount2: Amount)
      requires Valid()
      modifies this
      ensures Valid()
      ensures store == Added(Added(old(store), rep1, amount1), rep2, amount2)
      ensures store == Added(Added(old(store), rep2, amount2), rep1, amount1)
    {
      DualEqualsSingles(store, rep1, amount1, rep2, amount2);
      if rep1 != rep2 {
        var previousWeight1 := Get(store, rep1);
        var previousWeight2 := Get(store, rep2);
        var newWeight1 := WrappingAdd(previousWeight1, amount1);
        var newWeight2 := WrappingAdd(previousWeight2, amount2);
        AddedGet(store, rep1, amount1, rep2);
        hide Set, Cached, CachePut, WrappingAdd, Get, NoZero;
        CachedSet(store, minWeight, rep1, newWeight1);
        CachedSet(Set(store, rep1, newWeight1), minWeight, rep2, newWeight2);
        PutStore(rep1, previousWeight1, newWeight1);
        PutStore(rep2, previousWeight2, newWeight2);
        PutCache(rep1, newWeight1);
        PutCache(rep2, newWeight2);
      } else {
        RepresentationAdd(rep1, WrappingAdd(amount1, amount2));
      }
    }

    /** Any run of changes keeps the cache in step and moves the total by the amounts added, modulo 2^128. */
    method Run(changes: seq<Change>) returns (ghost wraps: nat)
      requires Valid()
      modifies this
      ensures Valid()
      ensures store == AllChanged(old(store), changes)
      ensures Total(store) + wraps * TWO_128 == old(Total(store)) + Amounts(changes)
    {
      wraps := 0;
      for i := 0 to |changes|
        invariant Valid()
        invariant store == AllChanged(old(store), changes[..i])
        invariant Total(store) + wraps * TWO_128 == old(Total(store)) + Amounts(changes[..i])
      {
        assert changes[..i + 1][..i] == changes[..i];
        ghost var more := ChangedTotal(store, changes[i]);
        wraps := wraps + more;
        match changes[i]
        case Single(rep, amount) => RepresentationAdd(rep, amount);
        case Dual(rep1, amount1, rep2, amount2) => RepresentationAddDual(rep1, amount1, rep2, amount2);
      }
      assert changes[..|changes|] == changes;
    }
  }

  /** One call of either operation. */
  datatype Change =
    | Single(rep: PublicKey, amount: Amount)
    | Dual(rep1: PublicKey, amount1: Amount, rep2: PublicKey, amount2: Amount)
  {
    function Amount(): nat { if Single? then amount else amount1 + amount2 }

    function Apply(w: Weights): Weights {
      if Single? then Added(w, rep, amount) else Added(Added(w, rep1, amount1), rep2, amount2)
    }
  }

  function Amounts(changes: seq<Change>): nat {
    if changes == [] then 0 else Amounts(changes[..|changes| - 1]) + changes[|changes| - 1].Amount()
  }

  function AllChanged(w: Weights, changes: seq<Change>): Weights {
    if changes == [] then w else changes[|changes| - 1].Apply(AllChanged(w, changes[..|changes| - 1]))
  }

  lemma ChangedTotal(w: Weights, change: Change) returns (wraps: nat)
    ensures Total(change.Apply(w)) + wraps * TWO_128 == Total(w) + change.Amount()
  {
    match change
    case Single(rep, amount) =>
      AddedTotal(w, rep, amount);
      wraps := Wraps(w, rep, amount);
    case Dual(rep1, amount1, rep2, amount2) =>
      AddedTotal(w, rep1, amount1);
      AddedTotal(Added(w, rep1, amount1), rep2, amount2);
      wraps := Wraps(w, rep1, amount1) + Wraps(Added(w, rep1, amount1), rep2, amount2);
  }

  /** Whether an addition wraps around, as a number. */
  function Wraps(w: Weights, rep: PublicKey, amount: Amount): nat {
    if Get(w, rep) + amount < TWO_128 then 0 else 1
  }

  /** An addition moves the total by exactly the amount, unless the weight wraps around. */
  lemma AddedTotal(w: Weights, rep: PublicKey, amount: Amount)
    ensures Total(Added(w, rep, amount)) == Total(w) + amount - Wraps(w, rep, amount) * TWO_128
  {
    var after := WrappingAdd(Get(w, rep), amount);
    if rep in w { SumRemove(w, rep); } else { assert w - {rep} == w; }
    if after != 0 { SumPut(w, rep, after); }
  }

  lemma WrappingAddLaws(a: Amount, b: Amount, c: Amount)
    ensures WrappingAdd(WrappingAdd(a, b), c) == WrappingAdd(a, WrappingAdd(b, c))
    ensures WrappingAdd(a, b) == WrappingAdd(b, a)
  {
  }

  lemma AddedGet(w: Weights, rep: PublicKey, amount: Amount, other: PublicKey)
    ensures Get(Added(w, rep, amount), other) == if other == rep then WrappingAdd(Get(w, rep), amount) else Get(w, other)
  {
  }

  /** Two additions commute, and for one representative they add up. */
  lemma DualEqualsSingles(w: Weights, rep1: PublicKey, amount1: Amount, rep2: PublicKey, amount2: Amount)
    ensures Added(Added(w, rep1, amount1), rep2, amount2) == Added(Added(w, rep2, amount2), rep1, amount1)
    ensures rep1 == rep2 ==>
              Added(Added(w, rep1, amount1), rep2, amount2) == Added(w, rep1, WrappingAdd(amount1, amount2))
  {
    if rep1 == rep2 {
      WrappingAddLaws(Get(w, rep1), amount1, amount2);
      WrappingAddLaws(Get(w, rep1), amount2, amount1);
      WrappingAddLaws(amount1, amount2, 0);
      hide WrappingAdd;
      AddedGet(w, rep1, amount1, rep1);
      AddedGet(w, rep1, amount2, rep1);
      SetTwice(w, rep1, WrappingAdd(Get(w, rep1), amount1), WrappingAdd(Get(w, rep1), WrappingAdd(amount1, amount2)));
      SetTwice(w, rep1, WrappingAdd(Get(w, rep1), amount2), WrappingAdd(Get(w, rep1), WrappingAdd(amount1, amount2)));
    }
  }

  lemma SetTwice(w: Weights, rep: PublicKey, a: Amount, b: Amount)
    ensures Set(Set(w, rep, a), rep, b) == Set(w, rep, b)
  {
  }

  // ---------------------------------------------------------------------------------------------
  // Filling the cache from partial weights

  /** A weight below the minimum is dropped. */
  function Kept(minWeight: Amount, weight: nat): nat {
    if weight < minWeight then 0 else weight
  }

  /** Adds the entries of `other` to the cache, in whatever order they come. */
  method CopyFrom(cache: Weights, minWeight: Amount, other: Weights) returns (cache': Weights)
    ensures forall rep: PublicKey :: Get(cache', rep) ==
              if rep in other then Kept(minWeight, WrappingAdd(Get(cache, rep), other[rep])) else Get(cache, rep)
  {
    cache' := cache;
    var pending := other.Keys;
    while pending != {}
      invariant pending <= other.Keys
      invariant forall rep: PublicKey :: Get(cache', rep) ==
                  if rep in other.Keys - pending then Kept(minWeight, WrappingAdd(Get(cache, rep), other[rep])) else Get(cache, rep)
      decreases |pending|
    {
      var rep :| rep in pending;
      var weight := WrappingAdd(Get(cache', rep), other[rep]);
      cache' := CachePut(cache', minWeight, rep, weight);
      pending := pending - {rep};
    }
  }

  /** The weight that results from adding shares one after the other, dropping it whenever it is below the minimum. */
  function AddShares(minWeight: Amount, shares: seq<nat>): nat {
    if shares == [] then 0
    else Kept(minWeight, AddShares(minWeight, shares[..|shares| - 1]) + shares[|shares| - 1])
  }

  function SumShares(shares: seq<nat>): nat {
    if shares == [] then 0 else SumShares(shares[..|shares| - 1]) + shares[|shares| - 1]
  }

  /** The first share that is not zero, or zero if there is none. */
  function FirstShare(shares: seq<nat>): nat {
    if shares == [] then 0
    else
      var first := FirstShare(shares[..|shares| - 1]);
      if first != 0 then first else shares[|shares| - 1]
  }

  /**
    The cache owes the true weight if it reaches the minimum and nothing otherwise. It never holds more, and
    it holds just that if and only if no weight is due or the first share that is added reaches the minimum.
   */
  lemma {:induction false} AddSharesExact(minWeight: Amount, shares: seq<nat>)
    ensures AddShares(minWeight, shares) <= Kept(minWeight, SumShares(shares))
    ensures AddShares(minWeight, shares) == 0 || AddShares(minWeight, shares) >= minWeight
    ensures AddShares(minWeight, shares) == Kept(minWeight, SumShares(shares)) <==>
              FirstShare(shares) == 0 || FirstShare(shares) >= minWeight || SumShares(shares) < minWeight
    ensures FirstShare(shares) <= SumShares(shares) && (FirstShare(shares) == 0 <==> SumShares(shares) == 0)
  {
    if shares != [] { AddSharesExact(minWeight, shares[..|shares| - 1]); }
  }

  /** Two shares of 3 and 10 under a minimum of 5: the first is dropped and missing from the sum. */
  lemma ShareLost()
    ensures AddShares(5, [3, 10]) == 10 && Kept(5, SumShares([3, 10])) == 13
    ensures AddShares(5, [10, 3]) == 13
  {
    assert [3, 10][..1] == [3] && [10, 3][..1] == [10] && [3][..0] == [] == [10][..0];
    assert AddShares(5, [3]) == 0 && SumShares([3]) == 3 && AddShares(5, [10]) == 10;
  }

  /** The cached weight of a table entry is what is kept of it. */
  lemma CachedIsKept(w: Weights, minWeight: Amount, rep: PublicKey)
    ensures Get(Cached(w, minWeight), rep) == Kept(minWeight, Get(w, rep))
  {
  }
}
