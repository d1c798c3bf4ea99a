/** Exclusive or on 256-bit keys, the stream cipher built from it, and the fan that spreads a key out. */
module RawKeys {
  import opened Types

  type RawKey = U256

  /** Bitwise exclusive or. */
  function Xor(a: nat, b: nat): nat
    decreases a + b
  {
    if a == 0 && b == 0 then 0 else 2 * Xor(a / 2, b / 2) + (a + b) % 2
  }

  ghost function Pow2(n: nat): nat {
    if n == 0 then 1 else 2 * Pow2(n - 1)
  }

  lemma {:induction false} PowAdd(m: nat, n: nat)
    ensures Pow2(m + n) == Pow2(m) * Pow2(n)
  {
    if m != 0 { PowAdd(m - 1, n); }
  }

  lemma HalfWord()
    ensures Pow2(32) == 0x1_0000_0000
  {
    assert Pow2(2) == 4;
    PowAdd(2, 2);
    PowAdd(4, 4);
    PowAdd(8, 8);
    PowAdd(16, 16);
  }

  lemma Width()
    ensures Pow2(256) == TWO_256
  {
    HalfWord();
    hide Pow2;
    PowAdd(32, 32);
    PowAdd(64, 64);
    PowAdd(128, 128);
  }

  lemma XorHalves(a: nat, b: nat)
    ensures Xor(a, b) / 2 == Xor(a / 2, b / 2) && Xor(a, b) % 2 == (a + b) % 2
  {
  }

  lemma {:induction false} XorComm(a: nat, b: nat)
    ensures Xor(a, b) == Xor(b, a)
    decreases a + b
  {
    if a + b != 0 { XorComm(a / 2, b / 2); }
  }

  lemma {:induction false} XorZero(a: nat)
    ensures Xor(a, 0) == a && Xor(0, a) == a
  {
    if a != 0 { XorZero(a / 2); }
  }

  lemma {:induction false} XorSelf(a: nat)
    ensures Xor(a, a) == 0
  {
    if a != 0 { XorSelf(a / 2); }
  }

  lemma {:induction false} XorAssoc(a: nat, b: nat, c: nat)
    ensures Xor(Xor(a, b), c) == Xor(a, Xor(b, c))
    decreases a + b + c
  {
    hide Xor;
    if a + b + c == 0 {
      XorZero(0);
    } else {
      XorAssoc(a / 2, b / 2, c / 2);
      XorHalves(a, b);
      XorHalves(b, c);
      XorHalves(Xor(a, b), c);
      XorHalves(a, Xor(b, c));
      SameParity(Xor(a, b), a, b, c, Xor(b, c));
    }
  }

  lemma SameParity(ab: nat, a: nat, b: nat, c: nat, bc: nat)
    requires ab % 2 == (a + b) % 2 && bc % 2 == (b + c) % 2
    ensures (ab + c) % 2 == (a + bc) % 2
  {
  }

  lemma {:induction false} XorBound(a: nat, b: nat, n: nat)
    requires a < Pow2(n) && b < Pow2(n)
    ensures Xor(a, b) < Pow2(n)
    decreases n
  {
    if n != 0 { XorBound(a / 2, b / 2, n - 1); }
  }

  function XorKey(a: RawKey, b: RawKey): RawKey {
    Width();
    XorBound(a, b, 256);
    Xor(a, b)
  }

  /** Whatever is mixed in twice cancels out. */
  lemma XorTwice(a: nat, b: nat)
    ensures Xor(Xor(a, b), b) == a && Xor(b, Xor(b, a)) == a
  {
    XorAssoc(a, b, b);
    XorAssoc(b, b, a);
    XorSelf(b);
    XorZero(a);
  }

  // ---------------------------------------------------------------------------------------------
  // The fan

  function XorAll(values: seq<RawKey>): RawKey {
    if values == [] then 0 else XorKey(values[0], XorAll(values[1..]))
  }

  lemma {:induction false} XorAllPush(values: seq<RawKey>, v: RawKey)
    ensures XorAll(values + [v]) == XorKey(v, XorAll(values))
  {
    if values == [] {
      assert XorAll([v]) == XorKey(v, XorAll([v][1..]));
    } else {
      var rest := XorAll(values[1..]);
      assert (values + [v])[1..] == values[1..] + [v];
      XorAllPush(values[1..], v);
      XorAssoc(values[0], v, rest);
      XorAssoc(v, values[0], rest);
      XorComm(v, values[0]);
    }
  }

  class Fan {
    var values: seq<RawKey>

    ghost predicate Valid()
      reads this
    {
      values != []
    }

    ghost function Key(): RawKey
      reads this
    {
      XorAll(values)
    }

    /** The key is hidden behind random `shares`, all but one of the values. */
    constructor (key: RawKey, shares: seq<RawKey>)
      ensures Valid() && Key() == key && |values| == |shares| + 1
    {
      var first := key;
      var mixed: seq<RawKey> := [];
      XorZero(key);
      for i := 0 to |shares|
        invariant |mixed| == i && XorKey(first, XorAll(mixed)) == key
      {
        var entry := shares[i];
        XorAllPush(mixed, entry);
        Remix(first, entry, XorAll(mixed));
        first := XorKey(first, entry);
        mixed := mixed + [entry];
      }
      XorAllPush(mixed, first);
      values := mixed + [first];
    }

    method Value() returns (key: RawKey)
      ensures key == Key()
    {
      key := 0;
      XorZero(XorAll(values));
      for i := 0 to |values|
        invariant XorKey(key, XorAll(values[i..])) == XorAll(values)
      {
        assert values[i..][1..] == values[i + 1..];
        XorAssoc(key, values[i], XorAll(values[i + 1..]));
        key := XorKey(key, values[i]);
      }
      XorZero(key);
    }

    method ValueSet(newValue: RawKey)
      requires Valid()
      modifies this
      ensures Valid() && Key() == newValue && |values| == |old(values)|
    {
      var oldValue := Value();
      ghost var rest := XorAll(values[1..]);
      var mixed := XorKey(XorKey(values[0], oldValue), newValue);
      Replaced(values[0], rest, newValue);
      values := values[0 := mixed];
      assert values[1..] == old(values)[1..];
    }
  }

  lemma Remix(first: RawKey, entry: RawKey, rest: RawKey)
    ensures XorKey(XorKey(first, entry), XorKey(entry, rest)) == XorKey(first, rest)
  {
    XorAssoc(first, entry, Xor(entry, rest));
    XorTwice(rest, entry);
  }

  lemma Replaced(first: RawKey, rest: RawKey, newValue: RawKey)
    ensures XorKey(XorKey(XorKey(first, XorKey(first, rest)), newValue), rest) == newValue
  {
    XorTwice(rest, first);
    XorComm(rest, newValue);
    XorTwice(newValue, rest);
  }
}
