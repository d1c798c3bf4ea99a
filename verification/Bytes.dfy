/** Fixed-width numbers as bytes, and reading them back from the front of a buffer. */
module Bytes {
  import opened Types

  function Pow256(n: nat): (p: nat)
    ensures p > 0
  {
    if n == 0 then 1 else 256 * Pow256(n - 1)
  }

  lemma {:induction false} PowAdd(a: nat, b: nat)
    ensures Pow256(a + b) == Pow256(a) * Pow256(b)
  {
    if a > 0 { PowAdd(a - 1, b); }
  }

  lemma Widths()
    ensures Pow256(1) == 0x100 && Pow256(2) == 0x1_0000
    ensures Pow256(8) == TWO_64 && Pow256(16) == TWO_128 && Pow256(32) == TWO_256
  {
    assert Pow256(1) == 0x100;
    PowAdd(1, 1);
    PowAdd(2, 2);
    PowAdd(4, 4);
    PowAdd(8, 8);
    PowAdd(16, 16);
  }

  // ---------------------------------------------------------------------------------------------
  // Numbers

  /** Big-endian, `len` bytes. */
  function ToBytes(n: nat, len: nat): (b: seq<Byte>)
    ensures |b| == len
  {
    if len == 0 then [] else ToBytes(n / 256, len - 1) + [n % 256]
  }

  function FromBytes(b: seq<Byte>): (n: nat)
    ensures n < Pow256(|b|)
  {
    if b == [] then 0 else FromBytes(b[..|b| - 1]) * 256 + b[|b| - 1]
  }

  lemma {:induction false} NumberRoundTrip(n: nat, len: nat)
    requires n < Pow256(len)
    ensures FromBytes(ToBytes(n, len)) == n
  {
    if len > 0 {
      NumberRoundTrip(n / 256, len - 1);
      assert ToBytes(n, len)[..len - 1] == ToBytes(n / 256, len - 1);
    }
  }

  lemma ByteBack(v: nat, d: Byte)
    ensures (v * 256 + d) / 256 == v && (v * 256 + d) % 256 == d
  {
  }

  lemma {:induction false} BytesRoundTrip(b: seq<Byte>)
    ensures ToBytes(FromBytes(b), |b|) == b
  {
    if b != [] {
      var front, last := b[..|b| - 1], b[|b| - 1];
      BytesRoundTrip(front);
      ByteBack(FromBytes(front), last);
      assert b == front + [last];
    }
  }

  /** Little-endian is the same read from the other end. */
  function Reversed(b: seq<Byte>): (r: seq<Byte>)
    ensures |r| == |b|
    ensures forall i | 0 <= i < |b| :: r[i] == b[|b| - 1 - i]
  {
    seq(|b|, i requires 0 <= i < |b| => b[|b| - 1 - i])
  }

  lemma ReversedTwice(b: seq<Byte>)
    ensures Reversed(Reversed(b)) == b
  {
  }

  // ---------------------------------------------------------------------------------------------
  // Reading from the front of a buffer

  datatype Read<+T> = Failed | Got(value: T, rest: seq<Byte>) {
    predicate IsFailure() { Failed? }
    function PropagateFailure<U>(): Read<U>
      requires Failed?
    {
      Failed
    }
    function Extract(): (T, seq<Byte>)
      requires Got?
    {
      (value, rest)
    }
  }

  function ReadBytes(s: seq<Byte>, len: nat): (r: Read<seq<Byte>>)
    ensures r.Got? ==> |r.value| == len && s == r.value + r.rest
    ensures r.Failed? <==> |s| < len
  {
    if |s| < len then Failed else Got(s[..len], s[len..])
  }

  function ReadNumber(s: seq<Byte>, len: nat): (r: Read<nat>)
    ensures r.Got? ==> r.value < Pow256(len) && s == ToBytes(r.value, len) + r.rest
    ensures r.Failed? <==> |s| < len
  {
    if |s| < len then Failed
    else
      BytesRoundTrip(s[..len]);
      Got(FromBytes(s[..len]), s[len..])
  }

  lemma ReadsBackNumber(n: nat, len: nat, rest: seq<Byte>)
    requires n < Pow256(len)
    ensures ReadNumber(ToBytes(n, len) + rest, len) == Got(n, rest)
  {
  }

  lemma ReadsBackBytes(b: seq<Byte>, rest: seq<Byte>)
    ensures ReadBytes(b + rest, |b|) == Got(b, rest)
  {
  }

  function Bytes8(n: U64): (b: seq<Byte>) ensures |b| == 8 { ToBytes(n, 8) }
  function Bytes16(n: U128): (b: seq<Byte>) ensures |b| == 16 { ToBytes(n, 16) }
  function Bytes32(n: U256): (b: seq<Byte>) ensures |b| == 32 { ToBytes(n, 32) }
  function Bytes8Le(n: U64): (b: seq<Byte>) ensures |b| == 8 { Reversed(ToBytes(n, 8)) }

  function Read8(s: seq<Byte>): (r: Read<U64>)
    ensures r.Got? ==> s == Bytes8(r.value) + r.rest
    ensures r.Failed? <==> |s| < 8
  {
    Widths();
    var (n, rest) :- ReadNumber(s, 8);
    Got(n, rest)
  }

  function Read16(s: seq<Byte>): (r: Read<U128>)
    ensures r.Got? ==> s == Bytes16(r.value) + r.rest
    ensures r.Failed? <==> |s| < 16
  {
    Widths();
    var (n, rest) :- ReadNumber(s, 16);
    Got(n, rest)
  }

  function Read32(s: seq<Byte>): (r: Read<U256>)
    ensures r.Got? ==> s == Bytes32(r.value) + r.rest
    ensures r.Failed? <==> |s| < 32
  {
    Widths();
    var (n, rest) :- ReadNumber(s, 32);
    Got(n, rest)
  }

  function Read8Le(s: seq<Byte>): (r: Read<U64>)
    ensures r.Got? ==> s == Bytes8Le(r.value) + r.rest
    ensures r.Failed? <==> |s| < 8
  {
    Widths();
    if |s| < 8 then Failed
    else
      BytesRoundTrip(Reversed(s[..8]));
      ReversedTwice(s[..8]);
      Got(FromBytes(Reversed(s[..8])), s[8..])
  }

  lemma ReadsBack8(n: U64, rest: seq<Byte>)
    ensures Read8(Bytes8(n) + rest) == Got(n, rest)
  {
    Widths();
    ReadsBackNumber(n, 8, rest);
  }

  lemma ReadsBack16(n: U128, rest: seq<Byte>)
    ensures Read16(Bytes16(n) + rest) == Got(n, rest)
  {
    Widths();
    ReadsBackNumber(n, 16, rest);
  }

  lemma ReadsBack32(n: U256, rest: seq<Byte>)
    ensures Read32(Bytes32(n) + rest) == Got(n, rest)
  {
    Widths();
    ReadsBackNumber(n, 32, rest);
  }

  lemma ReadsBack8Le(n: U64, rest: seq<Byte>)
    ensures Read8Le(Bytes8Le(n) + rest) == Got(n, rest)
  {
    Widths();
    NumberRoundTrip(n, 8);
    ReversedTwice(ToBytes(n, 8));
    assert (Bytes8Le(n) + rest)[..8] == Bytes8Le(n);
    assert (Bytes8Le(n) + rest)[8..] == rest;
  }

  /** Numbers are written with the highest byte first, except where the name says little-endian. */
  lemma Endianness(n: U64, m: U256)
    ensures Bytes8(n)[7] == n % 256 && Bytes8(n)[..7] == ToBytes(n / 256, 7)
    ensures Bytes32(m)[31] == m % 256 && Bytes32(m)[..31] == ToBytes(m / 256, 31)
    ensures forall i | 0 <= i < 8 :: Bytes8Le(n)[i] == Bytes8(n)[7 - i]
    ensures Bytes8Le(n)[0] == n % 256
  {
  }
}
