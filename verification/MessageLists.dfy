/**
  The variable-length lists inside messages. Some are counted by the header, some run to the end of the
  payload and some end with a sentinel.
 */
module MessageLists {
  import opened Types
  import opened Bytes
  import opened Blocks
  import BlockCodec

  /** A hash with its root, or an account with its frontier hash. */
  datatype Pair = Pair(first: U256, second: U256)

  const ZERO_PAIR: Pair := Pair(0, 0)

  function PutPair(p: Pair, tail: seq<Byte>): seq<Byte> {
    Bytes32(p.first) + (Bytes32(p.second) + tail)
  }

  function ReadPair(s: seq<Byte>): Read<Pair> {
    var (first, s) :- Read32(s);
    var (second, s) :- Read32(s);
    Got(Pair(first, second), s)
  }

  lemma PairRoundTrip(p: Pair, tail: seq<Byte>)
    ensures ReadPair(PutPair(p, tail)) == Got(p, tail) && |PutPair(p, tail)| == 64 + |tail|
  {
    ReadsBack32(p.first, Bytes32(p.second) + tail);
    ReadsBack32(p.second, tail);
  }

  function PutPairs(pairs: seq<Pair>, tail: seq<Byte>): seq<Byte> {
    if pairs == [] then tail else PutPair(pairs[0], PutPairs(pairs[1..], tail))
  }

  lemma {:induction false} PutPairsSize(pairs: seq<Pair>, tail: seq<Byte>)
    ensures |PutPairs(pairs, tail)| == 64 * |pairs| + |tail|
  {
    if pairs != [] {
      PairRoundTrip(pairs[0], PutPairs(pairs[1..], tail));
      PutPairsSize(pairs[1..], tail);
    }
  }

  /** Writing pair after pair to a stream. */
  method SerializePairs(pairs: seq<Pair>, tail: seq<Byte>) returns (s: seq<Byte>)
    ensures s == PutPairs(pairs, tail)
  {
    s := [];
    for i := 0 to |pairs|
      invariant s + PutPairs(pairs[i..], tail) == PutPairs(pairs, tail)
    {
      ghost var rest := PutPairs(pairs[i + 1..], tail);
      assert pairs[i..][1..] == pairs[i + 1..];
      assert s + (Bytes32(pairs[i].first) + (Bytes32(pairs[i].second) + rest)) ==
             (s + Bytes32(pairs[i].first) + Bytes32(pairs[i].second)) + rest;
      s := s + Bytes32(pairs[i].first);
      s := s + Bytes32(pairs[i].second);
    }
    s := s + tail;
  }

  // ---------------------------------------------------------------------------------------------
  // A read that goes on after some elements

  function Continued<T>(done: seq<T>, r: Read<seq<T>>): Read<seq<T>> {
    match r
    case Failed => Failed
    case Got(more, rest) => Got(done + more, rest)
  }

  lemma ContinuedNone<T>(r: Read<seq<T>>)
    ensures Continued([], r) == r
  {
    if r.Got? { assert [] + r.value == r.value; }
  }

  lemma ContinuedTwice<T>(a: seq<T>, b: seq<T>, r: Read<seq<T>>)
    ensures Continued(a, Continued(b, r)) == Continued(a + b, r)
  {
    if r.Got? { assert a + (b + r.value) == (a + b) + r.value; }
  }

  // ---------------------------------------------------------------------------------------------
  // A counted list

  function ReadPairs(s: seq<Byte>, count: nat): Read<seq<Pair>>
    decreases count
  {
    if count == 0 then Got([], s)
    else
      var (p, s) :- ReadPair(s);
      var (pairs, s) :- ReadPairs(s, count - 1);
      Got([p] + pairs, s)
  }

  lemma {:induction false} PairsRoundTrip(pairs: seq<Pair>, tail: seq<Byte>)
    ensures ReadPairs(PutPairs(pairs, tail), |pairs|) == Got(pairs, tail)
  {
    hide ReadPair, PutPair;
    if pairs != [] {
      PairRoundTrip(pairs[0], PutPairs(pairs[1..], tail));
      PairsRoundTrip(pairs[1..], tail);
      assert [pairs[0]] + pairs[1..] == pairs;
    }
  }

  /** What a list of roots must be to be accepted. */
  predicate Acceptable(pairs: seq<Pair>) { pairs != [] && ZERO_PAIR !in pairs }

  function ParseRoots(s: seq<Byte>, count: nat): Option<seq<Pair>> {
    match ReadPairs(s, count)
    case Got(pairs, _) => if Acceptable(pairs) then Some(pairs) else None
    case Failed => None
  }

  /** Zero pairs are skipped, which shows in the length at the end. */
  method DeserializeRoots(s: seq<Byte>, count: nat) returns (r: Option<seq<Pair>>)
    ensures r == ParseRoots(s, count)
  {
    hide ReadPair;
    var stream, roots: seq<Pair> := s, [];
    ghost var seen: seq<Pair> := [];
    ContinuedNone(ReadPairs(s, count));
    for i := 0 to count
      invariant |seen| == i && ZERO_PAIR !in roots
      invariant |roots| <= i && (|roots| == i <==> ZERO_PAIR !in seen) && (|roots| == i ==> roots == seen)
      invariant ReadPairs(s, count) == Continued(seen, ReadPairs(stream, count - i))
    {
      match ReadPair(stream) {
        case Failed => return None;
        case Got(p, rest) =>
          assert ReadPairs(stream, count - i) == Continued([p], ReadPairs(rest, count - i - 1));
          ContinuedTwice(seen, [p], ReadPairs(rest, count - i - 1));
          seen, stream := seen + [p], rest;
          if p.first != 0 || p.second != 0 {
            roots := roots + [p];
          }
      }
    }
    assert ReadPairs(s, count) == Got(seen, stream) by { assert seen + [] == seen; }
    if roots == [] || |roots| != count { return None; }
    return Some(roots);
  }

  // ---------------------------------------------------------------------------------------------
  // A list that runs to the end of the payload

  function PutHashes(hashes: seq<Hash>): seq<Byte> {
    if hashes == [] then [] else Bytes32(hashes[0]) + PutHashes(hashes[1..])
  }

  function ReadHashes(s: seq<Byte>, room: nat): Read<seq<Hash>>
    decreases room
  {
    if s == [] || room == 0 then Got([], s)
    else
      var (h, s) :- Read32(s);
      var (hashes, s) :- ReadHashes(s, room - 1);
      Got([h] + hashes, s)
  }

  lemma {:induction false} HashesRoundTrip(hashes: seq<Hash>, room: nat)
    requires |hashes| <= room
    ensures ReadHashes(PutHashes(hashes), room) == Got(hashes, []) && |PutHashes(hashes)| == 32 * |hashes|
  {
    if hashes != [] {
      HashesRoundTrip(hashes[1..], room - 1);
      ReadsBack32(hashes[0], PutHashes(hashes[1..]));
      hide Bytes32, Read32;
      assert [hashes[0]] + hashes[1..] == hashes;
    }
  }

  method SerializeHashes(hashes: seq<Hash>) returns (s: seq<Byte>)
    ensures s == PutHashes(hashes)
  {
    hide Bytes32;
    s := [];
    for i := 0 to |hashes|
      invariant s + PutHashes(hashes[i..]) == PutHashes(hashes)
    {
      assert hashes[i..][1..] == hashes[i + 1..];
      assert s + (Bytes32(hashes[i]) + PutHashes(hashes[i + 1..])) == s + Bytes32(hashes[i]) + PutHashes(hashes[i + 1..]);
      s := s + Bytes32(hashes[i]);
    }
  }

  method DeserializeHashes(s: seq<Byte>, room: nat) returns (r: Read<seq<Hash>>)
    ensures r == ReadHashes(s, room)
  {
    hide Read32;
    var stream, hashes: seq<Hash> := s, [];
    ContinuedNone(ReadHashes(s, room));
    while |stream| > 0 && |hashes| < room
      invariant |hashes| <= room
      invariant ReadHashes(s, room) == Continued(hashes, ReadHashes(stream, room - |hashes|))
      decreases room - |hashes|
    {
      match Read32(stream) {
        case Failed => return Failed;
        case Got(h, rest) =>
          assert ReadHashes(stream, room - |hashes|) == Continued([h], ReadHashes(rest, room - |hashes| - 1));
          ContinuedTwice(hashes, [h], ReadHashes(rest, room - |hashes| - 1));
          hashes, stream := hashes + [h], rest;
      }
    }
    assert hashes + [] == hashes;
    return Got(hashes, stream);
  }

  // ---------------------------------------------------------------------------------------------
  // Frontiers, ended by a zero pair

  const MAX_FRONTIERS: nat := 1000

  function PutFrontiers(frontiers: seq<Pair>): seq<Byte> {
    PutPairs(frontiers, PutPair(ZERO_PAIR, []))
  }

  /** One pair is read ahead, also when there is no room for it. */
  function ReadFrontiers(s: seq<Byte>, room: nat): Read<seq<Pair>>
    decreases room
  {
    var (current, s) :- ReadPair(s);
    if current == ZERO_PAIR || room == 0 then Got([], s)
    else
      var (frontiers, s) :- ReadFrontiers(s, room - 1);
      Got([current] + frontiers, s)
  }

  /** A list survives exactly when it fits and has no zero pair in it. */
  lemma {:induction false} FrontiersRoundTrip(frontiers: seq<Pair>, room: nat)
    ensures var r := ReadFrontiers(PutFrontiers(frontiers), room);
            r.Got? && (r.value == frontiers <==> |frontiers| <= room && ZERO_PAIR !in frontiers)
  {
    hide ReadPair, PutPair;
    if frontiers == [] {
      PairRoundTrip(ZERO_PAIR, []);
    } else {
      PairRoundTrip(frontiers[0], PutFrontiers(frontiers[1..]));
      if frontiers[0] != ZERO_PAIR && room > 0 { FrontiersRoundTrip(frontiers[1..], room - 1); }
      assert [frontiers[0]] + frontiers[1..] == frontiers;
    }
  }

  /** A zero pair in front ends the list at once. */
  lemma FrontiersCut(rest: seq<Pair>)
    ensures ReadFrontiers(PutFrontiers([ZERO_PAIR] + rest), MAX_FRONTIERS) == Got([], PutFrontiers(rest))
  {
    hide ReadPair, PutPair;
    assert ([ZERO_PAIR] + rest)[1..] == rest;
    PairRoundTrip(ZERO_PAIR, PutFrontiers(rest));
  }

  method DeserializeFrontiers(s: seq<Byte>, room: nat) returns (r: Read<seq<Pair>>)
    ensures r == ReadFrontiers(s, room)
  {
    hide ReadPair;
    var frontiers: seq<Pair> := [];
    var current, stream;
    match ReadPair(s) {
      case Failed => return Failed;
      case Got(p, rest) => current, stream := p, rest;
    }
    ghost var ahead := s;
    ContinuedNone(ReadFrontiers(s, room));
    while current != ZERO_PAIR && |frontiers| < room
      invariant |frontiers| <= room && ReadPair(ahead) == Got(current, stream)
      invariant ReadFrontiers(s, room) == Continued(frontiers, ReadFrontiers(ahead, room - |frontiers|))
      decreases room - |frontiers|
    {
      ContinuedTwice(frontiers, [current], ReadFrontiers(stream, room - |frontiers| - 1));
      frontiers := frontiers + [current];
      match ReadPair(stream) {
        case Failed => return Failed;
        case Got(p, rest) => ahead, current, stream := stream, p, rest;
      }
    }
    assert frontiers + [] == frontiers;
    return Got(frontiers, stream);
  }

  // ---------------------------------------------------------------------------------------------
  // Blocks, ended by a type that is no block

  const MAX_BLOCKS: nat := 128
  const NOT_A_BLOCK: Byte := 1

  function PutBlocks(blocks: seq<Block>): seq<Byte> {
    if blocks == [] then [NOT_A_BLOCK] else BlockCodec.PutBlock(blocks[0], PutBlocks(blocks[1..]))
  }

  /** Whatever is not a block ends the list; one block too many is an error. */
  function ReadBlocks(s: seq<Byte>, room: nat): Option<seq<Block>>
    decreases room
  {
    match BlockCodec.ReadBlock(s)
    case Failed => Some([])
    case Got(b, rest) =>
      if room == 0 then None
      else
        match ReadBlocks(rest, room - 1)
        case None => None
        case Some(blocks) => Some([b] + blocks)
  }

  lemma NoBlock()
    ensures BlockCodec.ReadBlock([NOT_A_BLOCK]).Failed?
  {
  }

  lemma {:induction false} BlocksRoundTrip(blocks: seq<Block>, room: nat)
    ensures ReadBlocks(PutBlocks(blocks), room) == if |blocks| <= room then Some(blocks) else None
  {
    hide BlockCodec.ReadBlock, BlockCodec.PutBlock;
    if blocks == [] {
      NoBlock();
    } else {
      BlockCodec.BlockRoundTrip(blocks[0], PutBlocks(blocks[1..]));
      if room > 0 { BlocksRoundTrip(blocks[1..], room - 1); }
      assert [blocks[0]] + blocks[1..] == blocks;
    }
  }

  method SerializeBlocks(blocks: seq<Block>) returns (s: seq<Byte>)
    ensures s == PutBlocks(blocks)
  {
    hide BlockCodec.PutBlock;
    s := [];
    for i := 0 to |blocks|
      invariant s + PutBlocks(blocks[i..]) == PutBlocks(blocks)
    {
      ghost var rest := PutBlocks(blocks[i + 1..]);
      assert blocks[i..][1..] == blocks[i + 1..];
      BlockCodec.PutBlockAppends(blocks[i], rest);
      assert s + (BlockCodec.PutBlock(blocks[i], []) + rest) == s + BlockCodec.PutBlock(blocks[i], []) + rest;
      s := s + BlockCodec.PutBlock(blocks[i], []);
    }
    s := s + [NOT_A_BLOCK];
  }

  method DeserializeBlocks(s: seq<Byte>, room: nat) returns (r: Option<seq<Block>>)
    ensures r == ReadBlocks(s, room)
  {
    hide BlockCodec.ReadBlock;
    var stream, blocks: seq<Block> := s, [];
    var current := BlockCodec.ReadBlock(stream);
    assert forall r: seq<Block> :: [] + r == r;
    while current.Got?
      invariant current == BlockCodec.ReadBlock(stream) && |blocks| <= room
      invariant ReadBlocks(s, room) == Following(blocks, ReadBlocks(stream, room - |blocks|))
      decreases room - |blocks|, current.Got?
    {
      if |blocks| >= room { return None; }
      ghost var more := ReadBlocks(current.rest, room - |blocks| - 1);
      assert more.Some? ==> blocks + ([current.value] + more.value) == (blocks + [current.value]) + more.value;
      blocks, stream := blocks + [current.value], current.rest;
      current := BlockCodec.ReadBlock(stream);
    }
    assert blocks + [] == blocks;
    return Some(blocks);
  }

  function Following(done: seq<Block>, r: Option<seq<Block>>): Option<seq<Block>> {
    if r.None? then None else Some(done + r.value)
  }

  // ---------------------------------------------------------------------------------------------
  // The layout of the lists, and what is accepted

  lemma {:induction false} PairsFrom(pairs: seq<Pair>, tail: seq<Byte>, i: nat)
    requires i <= |pairs|
    ensures |PutPairs(pairs, tail)| == 64 * |pairs| + |tail| && PutPairs(pairs, tail)[64 * i..] == PutPairs(pairs[i..], tail)
    decreases i
  {
    hide Bytes32;
    PutPairsSize(pairs, tail);
    if i > 0 {
      var s, rest := PutPairs(pairs, tail), PutPairs(pairs[1..], tail);
      assert s[64..] == rest;
      PairsFrom(pairs[1..], tail, i - 1);
      assert s[64 * i..] == s[64..][64 * (i - 1)..];
      assert pairs[1..][i - 1..] == pairs[i..];
    }
  }

  /** Pairs follow each other, 64 bytes each. */
  lemma PairsLayout(pairs: seq<Pair>, tail: seq<Byte>, i: nat)
    requires i < |pairs|
    ensures var s := PutPairs(pairs, tail);
            && |s| == 64 * |pairs| + |tail| && s[64 * |pairs|..] == tail
            && s[64 * i..64 * i + 32] == Bytes32(pairs[i].first) && s[64 * i + 32..64 * i + 64] == Bytes32(pairs[i].second)
  {
    hide Bytes32;
    var s, here := PutPairs(pairs, tail), PutPairs(pairs[i..], tail);
    PairsFrom(pairs, tail, |pairs|);
    PairsFrom(pairs, tail, i);
    assert here == Bytes32(pairs[i].first) + (Bytes32(pairs[i].second) + PutPairs(pairs[i..][1..], tail));
    hide PutPairs;
    assert s[64 * i..64 * i + 32] == here[..32] && s[64 * i + 32..64 * i + 64] == here[32..64];
  }

  lemma {:induction false} HashesFrom(hashes: seq<Hash>, i: nat)
    requires i <= |hashes|
    ensures |PutHashes(hashes)| == 32 * |hashes| && PutHashes(hashes)[32 * i..] == PutHashes(hashes[i..])
    decreases i
  {
    hide Bytes32;
    HashesRoundTrip(hashes, |hashes|);
    if i > 0 {
      var s, rest := PutHashes(hashes), PutHashes(hashes[1..]);
      assert s[32..] == rest;
      HashesFrom(hashes[1..], i - 1);
      assert s[32 * i..] == s[32..][32 * (i - 1)..];
      assert hashes[1..][i - 1..] == hashes[i..];
    }
  }

  lemma HashesLayout(hashes: seq<Hash>, i: nat)
    requires i < |hashes|
    ensures var s := PutHashes(hashes); |s| == 32 * |hashes| && s[32 * i..32 * i + 32] == Bytes32(hashes[i])
  {
    hide Bytes32;
    var s, here := PutHashes(hashes), PutHashes(hashes[i..]);
    HashesFrom(hashes, i);
    assert here[..32] == Bytes32(hashes[i]);
    hide PutHashes;
    assert s[32 * i..32 * i + 32] == here[..32];
  }

  /** A counted list is read exactly from enough bytes, and is what is written there. */
  lemma {:induction false} PairsAccepted(s: seq<Byte>, count: nat)
    ensures ReadPairs(s, count).Got? <==> |s| >= 64 * count
    ensures ReadPairs(s, count).Got? ==>
              |ReadPairs(s, count).value| == count && s == PutPairs(ReadPairs(s, count).value, ReadPairs(s, count).rest)
    decreases count
  {
    hide Bytes32, Read32;
    if count > 0 && ReadPair(s).Got? {
      PairsAccepted(ReadPair(s).rest, count - 1);
      if ReadPairs(s, count).Got? {
        var p, more := ReadPair(s).value, ReadPairs(ReadPair(s).rest, count - 1);
        assert ([p] + more.value)[1..] == more.value;
      }
    }
  }

  /** A list to the end is read exactly if no part of a hash is left over, as far as there is room. */
  lemma {:induction false} HashesAccepted(s: seq<Byte>, room: nat)
    ensures ReadHashes(s, room).Got? <==> |s| % 32 == 0 || |s| >= 32 * room
    ensures ReadHashes(s, room).Got? ==> s == PutHashes(ReadHashes(s, room).value) + ReadHashes(s, room).rest
    ensures ReadHashes(s, room).Got? ==> |ReadHashes(s, room).value| == room || ReadHashes(s, room).rest == []
    decreases room
  {
    hide Bytes32, Read32;
    if s != [] && room > 0 && Read32(s).Got? {
      var h, rest := Read32(s).value, Read32(s).rest;
      HashesAccepted(rest, room - 1);
      assert |s| == |rest| + 32;
      if ReadHashes(s, room).Got? {
        var more := ReadHashes(rest, room - 1);
        assert ([h] + more.value)[1..] == more.value;
        assert Bytes32(h) + (PutHashes(more.value) + more.rest) == (Bytes32(h) + PutHashes(more.value)) + more.rest;
      }
    }
  }

  /** A frontier list is read up to the first zero pair, or until there is no more room; no pair before that is zero. */
  lemma {:induction false} FrontiersAccepted(s: seq<Byte>, room: nat)
    requires ReadFrontiers(s, room).Got?
    ensures var r := ReadFrontiers(s, room);
            && |r.value| <= room && ZERO_PAIR !in r.value
            && exists last :: (last == ZERO_PAIR || |r.value| == room) && s == PutPairs(r.value, PutPair(last, r.rest))
    decreases room
  {
    hide Bytes32, Read32;
    var current, rest := ReadPair(s).value, ReadPair(s).rest;
    assert s == PutPair(current, rest);
    if current == ZERO_PAIR || room == 0 {
      assert s == PutPairs([], PutPair(current, rest));
    } else {
      FrontiersAccepted(rest, room - 1);
      var more := ReadFrontiers(rest, room - 1);
      var last :| (last == ZERO_PAIR || |more.value| == room - 1) && rest == PutPairs(more.value, PutPair(last, more.rest));
      assert ([current] + more.value)[1..] == more.value;
      assert s == PutPairs([current] + more.value, PutPair(last, more.rest));
    }
  }

  /** The limits and sentinels as they are on the wire. */
  lemma ListConstants()
    ensures MAX_FRONTIERS == 1000 && MAX_BLOCKS == 128
    ensures PutBlocks([]) == [1] && PutFrontiers([]) == Bytes32(0) + Bytes32(0)
  {
    assert Bytes32(0) + [] == Bytes32(0);
  }

  /** Blocks are written one after the other and end with the byte 1. */
  lemma {:induction false} BlocksLayout(blocks: seq<Block>)
    ensures PutBlocks(blocks) != [] && PutBlocks(blocks)[|PutBlocks(blocks)| - 1] == 1
    ensures blocks != [] ==> PutBlocks(blocks) == BlockCodec.PutBlock(blocks[0], []) + PutBlocks(blocks[1..])
  {
    hide BlockCodec.PutBlock;
    if blocks != [] {
      BlockCodec.PutBlockAppends(blocks[0], PutBlocks(blocks[1..]));
      BlocksLayout(blocks[1..]);
    }
  }

  /** A block list ends at the first bytes that are no block; only a block beyond the room is an error. */
  lemma {:induction false} BlocksAccepted(s: seq<Byte>, room: nat)
    ensures ReadBlocks(s, room).Some? ==> |ReadBlocks(s, room).value| <= room
    ensures ReadBlocks(s, room) == Some([]) <==> BlockCodec.ReadBlock(s).Failed?
    ensures BlockCodec.ReadBlock(s).Got? ==>
              var b := BlockCodec.ReadBlock(s);
              && (room == 0 ==> ReadBlocks(s, room).None?)
              && (room > 0 ==> (ReadBlocks(s, room).None? <==> ReadBlocks(b.rest, room - 1).None?))
              && (ReadBlocks(s, room).Some? ==> ReadBlocks(s, room).value[0] == b.value)
    decreases room
  {
    hide BlockCodec.ReadBlock;
    if BlockCodec.ReadBlock(s).Got? && room > 0 { BlocksAccepted(BlockCodec.ReadBlock(s).rest, room - 1); }
  }
}
