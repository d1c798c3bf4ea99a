/**
  Network messages: a header of eight bytes whose extension bits say how long the payload is, and the
  payload. The extension bits are one 16-bit number; setting disjoint bits is adding.
 */
module Messages {
  import opened Types
  import opened Bytes
  import opened Blocks
  import opened MessageLists
  import BlockCodec

  type U16 = n: nat | n < 0x1_0000
  type Block32 = b: seq<Byte> | |b| == 32 witness seq(32, _ => 0)

  datatype Vote = Vote(account: PublicKey, signature: Signature, timestamp: U64, hashes: seq<Hash>)

  datatype V2Payload = V2Payload(salt: Block32, genesis: Hash)

  datatype Response = Response(nodeId: PublicKey, signature: Signature, v2: Option<V2Payload>)

  datatype AccountInfo = AccountInfo(
    account: Account, open: Hash, head: Hash, blockCount: U64, confFrontier: Hash, confHeight: U64)

  datatype Pull = PullBlocks(blocks: seq<Block>) | PullAccountInfo(info: AccountInfo) | PullFrontiers(frontiers: seq<Pair>)

  datatype Message =
    | ConfirmReq(roots: seq<Pair>)
    | ConfirmAck(vote: Vote, rebroadcasted: bool)
    | Handshake(query: Option<Block32>, response: Option<Response>, isV2: bool)
    | PullAck(id: U64, pull: Pull)

  const HASHES_MAX: nat := 255

  /** The limits that constructing a message enforces. */
  predicate Constructible(m: Message) {
    match m
    case ConfirmReq(roots) => |roots| <= HASHES_MAX
    case ConfirmAck(vote, _) => |vote.hashes| <= HASHES_MAX
    case Handshake(_, _, _) => true
    case PullAck(_, pull) => pull.PullBlocks? ==> |pull.blocks| <= MAX_BLOCKS
  }

  // ---------------------------------------------------------------------------------------------
  // Extension bits

  function Bit(extensions: U16, position: nat): bool
    requires position < 3
  {
    match position
    case 0 => extensions % 2 == 1
    case 1 => extensions / 2 % 2 == 1
    case _ => extensions / 4 % 2 == 1
  }

  function BlockType(extensions: U16): nat { extensions / 0x100 % 0x10 }

  /** Up to 15 fits in the four high bits; a greater count sets the V2 flag and uses four low bits too. */
  function CountBits(count: Byte): U16 {
    if count < 16 then count * 0x1000 else count / 16 * 0x1000 + count % 16 * 0x10 + 1
  }

  function Count(extensions: U16): Byte {
    if Bit(extensions, 0) then extensions / 0x1000 * 16 + extensions / 0x10 % 0x10 else extensions / 0x1000
  }

  /** The count can be read back whatever the block type and the rebroadcast flag beside it. */
  lemma CountReadsBack(count: Byte, blockType: nat, flag: bool)
    requires blockType < 16
    ensures var extensions := CountBits(count) + blockType * 0x100 + (if flag then 4 else 0);
            && extensions < 0x1_0000 && Count(extensions) == count
            && BlockType(extensions) == blockType && Bit(extensions, 2) == flag
  {
    var flags := if flag then 4 else 0;
    if count < 16 {
      Nibbles(count, blockType, 0, flags);
    } else {
      Nibbles(count / 16, blockType, count % 16, flags + 1);
    }
  }

  lemma Nibbles(high: nat, blockType: nat, low: nat, flags: nat)
    requires high < 16 && blockType < 16 && low < 16 && flags < 8
    ensures var extensions := high * 0x1000 + blockType * 0x100 + low * 0x10 + flags;
            && extensions < 0x1_0000 && extensions / 0x1000 == high && extensions / 0x10 % 0x10 == low
            && BlockType(extensions) == blockType
            && Bit(extensions, 0) == (flags % 2 == 1) && Bit(extensions, 2) == (flags >= 4)
  {
    Fourfold(high * 0x10 + blockType, low, flags);
    Sixteenfold(high, blockType, low * 0x10 + flags);
  }

  lemma Fourfold(rest: nat, low: nat, flags: nat)
    requires rest < 0x100 && low < 16 && flags < 8
    ensures var extensions := rest * 0x100 + low * 0x10 + flags;
            && extensions / 0x10 % 0x10 == low
            && Bit(extensions, 0) == (flags % 2 == 1) && Bit(extensions, 2) == (flags >= 4)
  {
    LowNibble(rest, low, flags);
    FlagsBelow(rest * 0x10 + low, flags);
  }

  lemma LowNibble(rest: nat, low: nat, flags: nat)
    requires low < 16 && flags < 8
    ensures (rest * 0x100 + low * 0x10 + flags) / 0x10 % 0x10 == low
  {
    assert (rest * 0x100 + low * 0x10 + flags) / 0x10 == rest * 0x10 + low;
  }

  lemma FlagsBelow(rest: nat, flags: nat)
    requires rest < 0x1000 && flags < 8
    ensures Bit(rest * 0x10 + flags, 0) == (flags % 2 == 1) && Bit(rest * 0x10 + flags, 2) == (flags >= 4)
  {
    LowestBit(rest * 8, flags);
    ThirdBit(rest, flags);
  }

  lemma LowestBit(half: nat, flags: nat)
    ensures (half * 2 + flags) % 2 == flags % 2
  {
  }

  lemma ThirdBit(rest: nat, flags: nat)
    requires flags < 8
    ensures (rest * 0x10 + flags) / 4 % 2 == if flags >= 4 then 1 else 0
  {
    var n := rest * 0x10 + flags;
    assert n / 4 == rest * 4 + flags / 4;
    LowestBit(rest * 2, flags / 4);
  }

  lemma Sixteenfold(high: nat, blockType: nat, rest: nat)
    requires high < 16 && blockType < 16 && rest < 0x100
    ensures var extensions := high * 0x1000 + blockType * 0x100 + rest;
            extensions < 0x1_0000 && extensions / 0x1000 == high && BlockType(extensions) == blockType
  {
    var extensions := high * 0x1000 + blockType * 0x100 + rest;
    assert extensions / 0x100 == high * 0x10 + blockType;
  }

  function Extensions(m: Message, payloadLen: U16): U16 {
    match m
    case ConfirmReq(roots) =>
      CountReadsBack(|roots| % 0x100, NOT_A_BLOCK, false);
      CountBits(|roots| % 0x100) + NOT_A_BLOCK * 0x100
    case ConfirmAck(vote, rebroadcasted) =>
      CountReadsBack(|vote.hashes| % 0x100, 0, rebroadcasted);
      CountBits(|vote.hashes| % 0x100) + (if rebroadcasted then 4 else 0)
    case Handshake(query, response, isV2) =>
      (if query.Some? then 1 else 0) + (if response.Some? then 2 else 0) + (if isV2 then 4 else 0)
    case PullAck(_, _) =>
      if payloadLen < 9 then payloadLen + 0x1_0000 - 9 else payloadLen - 9
  }

  // ---------------------------------------------------------------------------------------------
  // Payloads

  function PutVote(v: Vote): seq<Byte> {
    Bytes32(v.account) + (v.signature + (Bytes8Le(v.timestamp) + PutHashes(v.hashes)))
  }

  function ReadVote(s: seq<Byte>): Read<Vote> {
    var (account, s) :- Read32(s);
    var (signature, s) :- ReadBytes(s, 64);
    var (timestamp, s) :- Read8Le(s);
    var (hashes, s) :- ReadHashes(s, HASHES_MAX);
    Got(Vote(account, signature, timestamp, hashes), s)
  }

  lemma VoteRoundTrip(v: Vote)
    requires |v.hashes| <= HASHES_MAX
    ensures ReadVote(PutVote(v)) == Got(v, []) && |PutVote(v)| == 104 + 32 * |v.hashes|
  {
    HashesRoundTrip(v.hashes, HASHES_MAX);
    var s2 := Bytes8Le(v.timestamp) + PutHashes(v.hashes);
    ReadsBack8Le(v.timestamp, PutHashes(v.hashes));
    ReadsBackBytes(v.signature, s2);
    ReadsBack32(v.account, v.signature + s2);
    hide Bytes32, Bytes8Le, Read32, Read8Le, ReadBytes, ReadHashes, PutHashes;
  }

  function PutResponse(r: Response, tail: seq<Byte>): seq<Byte> {
    match r.v2
    case Some(v2) => Bytes32(r.nodeId) + (v2.salt + (Bytes32(v2.genesis) + (r.signature + tail)))
    case None => Bytes32(r.nodeId) + (r.signature + tail)
  }

  function ReadResponse(s: seq<Byte>, isV2: bool): Read<Response> {
    if isV2 then
      var (nodeId, s) :- Read32(s);
      var (salt, s) :- ReadBytes(s, 32);
      var (genesis, s) :- Read32(s);
      var (signature, s) :- ReadBytes(s, 64);
      Got(Response(nodeId, signature, Some(V2Payload(salt, genesis))), s)
    else
      var (nodeId, s) :- Read32(s);
      var (signature, s) :- ReadBytes(s, 64);
      Got(Response(nodeId, signature, None), s)
  }

  lemma ResponseRoundTrip(r: Response, tail: seq<Byte>)
    ensures ReadResponse(PutResponse(r, tail), r.v2.Some?) == Got(r, tail)
    ensures |PutResponse(r, tail)| == (if r.v2.Some? then 160 else 96) + |tail|
  {
    ReadsBackBytes(r.signature, tail);
    match r.v2 {
      case Some(v2) =>
        var s1 := Bytes32(v2.genesis) + (r.signature + tail);
        ReadsBack32(v2.genesis, r.signature + tail);
        ReadsBackBytes(v2.salt, s1);
        ReadsBack32(r.nodeId, v2.salt + s1);
      case None =>
        ReadsBack32(r.nodeId, r.signature + tail);
    }
    hide Bytes32, Read32, ReadBytes;
  }

  lemma ResponseForm(s: seq<Byte>, isV2: bool)
    ensures ReadResponse(s, isV2).Got? ==> ReadResponse(s, isV2).value.v2.Some? == isV2
  {
  }

  function PutInfo(i: AccountInfo): seq<Byte> {
    Bytes32(i.account) + (Bytes32(i.open) + (Bytes32(i.head) + (Bytes8(i.blockCount) +
      (Bytes32(i.confFrontier) + Bytes8(i.confHeight)))))
  }

  function ReadInfo(s: seq<Byte>): Read<AccountInfo> {
    var (account, s) :- Read32(s);
    var (open, s) :- Read32(s);
    var (head, s) :- Read32(s);
    var (blockCount, s) :- Read8(s);
    var (confFrontier, s) :- Read32(s);
    var (confHeight, s) :- Read8(s);
    Got(AccountInfo(account, open, head, blockCount, confFrontier, confHeight), s)
  }

  lemma InfoRoundTrip(i: AccountInfo)
    ensures ReadInfo(PutInfo(i)) == Got(i, []) && |PutInfo(i)| == 144
  {
    var s4 := Bytes32(i.confFrontier) + Bytes8(i.confHeight);
    var s3 := Bytes8(i.blockCount) + s4;
    var s2 := Bytes32(i.head) + s3;
    ReadsBack8(i.confHeight, []);
    assert Bytes8(i.confHeight) + [] == Bytes8(i.confHeight);
    ReadsBack32(i.confFrontier, Bytes8(i.confHeight));
    ReadsBack8(i.blockCount, s4);
    ReadsBack32(i.head, s3);
    ReadsBack32(i.open, s2);
    ReadsBack32(i.account, Bytes32(i.open) + s2);
    hide Bytes32, Bytes8, Read32, Read8;
  }

  function PullCode(pull: Pull): Byte {
    match pull
    case PullBlocks(_) => 1
    case PullAccountInfo(_) => 2
    case PullFrontiers(_) => 3
  }

  function PutPull(pull: Pull): seq<Byte> {
    match pull
    case PullBlocks(blocks) => PutBlocks(blocks)
    case PullAccountInfo(info) => PutInfo(info)
    case PullFrontiers(frontiers) => PutFrontiers(frontiers)
  }

  function ParsePull(code: Byte, s: seq<Byte>): Option<Pull> {
    match code
    case 1 => (match ReadBlocks(s, MAX_BLOCKS) case Some(blocks) => Some(PullBlocks(blocks)) case None => None)
    case 2 => (match ReadInfo(s) case Got(info, _) => Some(PullAccountInfo(info)) case Failed => None)
    case 3 => (match ReadFrontiers(s, MAX_FRONTIERS) case Got(fs, _) => Some(PullFrontiers(fs)) case Failed => None)
    case _ => None
  }

  lemma PullRoundTrip(pull: Pull)
    ensures ParsePull(PullCode(pull), PutPull(pull)) == Some(pull) <==> WellFormedPull(pull)
  {
    hide ReadBlocks, PutBlocks, ReadInfo, PutInfo, ReadFrontiers, PutFrontiers;
    match pull
    case PullBlocks(blocks) => BlocksRoundTrip(blocks, MAX_BLOCKS);
    case PullAccountInfo(info) => InfoRoundTrip(info);
    case PullFrontiers(frontiers) => FrontiersRoundTrip(frontiers, MAX_FRONTIERS);
  }

  // ---------------------------------------------------------------------------------------------
  // Messages

  function Payload(m: Message): seq<Byte> {
    match m
    case ConfirmReq(roots) => PutPairs(roots, [])
    case ConfirmAck(vote, _) => PutVote(vote)
    case Handshake(query, response, _) =>
      (if query.Some? then query.value else []) + (if response.Some? then PutResponse(response.value, []) else [])
    case PullAck(id, pull) => [PullCode(pull)] + (Bytes8(id) + PutPull(pull))
  }

  const CONFIRM_REQ: Byte := 4
  const CONFIRM_ACK: Byte := 5
  const NODE_ID_HANDSHAKE: Byte := 10
  const ASC_PULL_ACK: Byte := 15

  function TypeOf(m: Message): Byte {
    match m
    case ConfirmReq(_) => CONFIRM_REQ
    case ConfirmAck(_, _) => CONFIRM_ACK
    case Handshake(_, _, _) => NODE_ID_HANDSHAKE
    case PullAck(_, _) => ASC_PULL_ACK
  }

  predicate Modelled(messageType: Byte) {
    messageType in {CONFIRM_REQ, CONFIRM_ACK, NODE_ID_HANDSHAKE, ASC_PULL_ACK}
  }

  /** The bytes of a block of the given type, without the type. */
  function BlockSize(blockType: nat): nat {
    match blockType
    case 2 => 152
    case 3 => 136
    case 4 => 168
    case 5 => 136
    case 6 => 216
    case _ => 0
  }

  function PayloadLength(messageType: Byte, extensions: U16): nat
    requires Modelled(messageType)
  {
    if messageType == CONFIRM_REQ then
      if BlockType(extensions) == NOT_A_BLOCK then Count(extensions) * 64 else BlockSize(BlockType(extensions))
    else if messageType == CONFIRM_ACK then 104 + 32 * Count(extensions)
    else if messageType == NODE_ID_HANDSHAKE then
      (if Bit(extensions, 0) then 32 else 0) + (if !Bit(extensions, 1) then 0 else if Bit(extensions, 2) then 160 else 96)
    else 9 + extensions
  }

  function ParseHandshake(extensions: U16, s: seq<Byte>): Read<Message> {
    var (query, s) :- if Bit(extensions, 0) then ReadQuery(s) else Got(None, s);
    var (response, s) :- if Bit(extensions, 1) then ReadSomeResponse(s, Bit(extensions, 2)) else Got(None, s);
    Got(Handshake(query, response, Bit(extensions, 2)), s)
  }

  function ReadQuery(s: seq<Byte>): Read<Option<Block32>> {
    var (cookie, s) :- ReadBytes(s, 32);
    Got(Some(cookie), s)
  }

  function ReadSomeResponse(s: seq<Byte>, isV2: bool): Read<Option<Response>> {
    var (response, s) :- ReadResponse(s, isV2);
    Got(Some(response), s)
  }

  function ParsePullAck(s: seq<Byte>): Option<Message> {
    match ReadBytes(s, 1)
    case Failed => None
    case Got(code, s) =>
      match Read8(s)
      case Failed => None
      case Got(id, s) =>
        match ParsePull(code[0], s)
        case None => None
        case Some(pull) => Some(PullAck(id, pull))
  }

  function Parse(messageType: Byte, extensions: U16, s: seq<Byte>): Option<Message>
    requires Modelled(messageType)
  {
    if messageType == CONFIRM_REQ then
      match ParseRoots(s, Count(extensions))
      case Some(roots) => Some(ConfirmReq(roots))
      case None => None
    else if messageType == CONFIRM_ACK then
      match ReadVote(s)
      case Got(vote, _) => Some(ConfirmAck(vote, Bit(extensions, 2)))
      case Failed => None
    else if messageType == NODE_ID_HANDSHAKE then
      match ParseHandshake(extensions, s)
      case Got(m, _) => Some(m)
      case Failed => None
    else ParsePullAck(s)
  }

  predicate WellFormedPull(pull: Pull) {
    match pull
    case PullBlocks(blocks) => |blocks| <= MAX_BLOCKS
    case PullAccountInfo(_) => true
    case PullFrontiers(frontiers) => |frontiers| <= MAX_FRONTIERS && ZERO_PAIR !in frontiers
  }

  predicate WellFormed(m: Message) {
    match m
    case ConfirmReq(roots) => Acceptable(roots)
    case ConfirmAck(_, _) => true
    case Handshake(_, response, isV2) => response.Some? ==> response.value.v2.Some? == isV2
    case PullAck(_, pull) => WellFormedPull(pull)
  }

  function HeaderBits(m: Message): U16 { Extensions(m, |Payload(m)| % 0x1_0000) }

  lemma ConfirmReqRoundTrip(roots: seq<Pair>)
    requires |roots| <= HASHES_MAX
    ensures var m := ConfirmReq(roots);
            && PayloadLength(CONFIRM_REQ, HeaderBits(m)) == |Payload(m)|
            && Parse(CONFIRM_REQ, HeaderBits(m), Payload(m)) == if Acceptable(roots) then Some(m) else None
  {
    hide Count, CountBits, BlockType, ReadPairs, PutPairs, Acceptable;
    CountReadsBack(|roots|, NOT_A_BLOCK, false);
    PairsRoundTrip(roots, []);
    PutPairsSize(roots, []);
  }

  lemma ConfirmAckRoundTrip(vote: Vote, rebroadcasted: bool)
    requires |vote.hashes| <= HASHES_MAX
    ensures var m := ConfirmAck(vote, rebroadcasted);
            && PayloadLength(CONFIRM_ACK, HeaderBits(m)) == |Payload(m)|
            && Parse(CONFIRM_ACK, HeaderBits(m), Payload(m)) == Some(m)
  {
    hide Count, CountBits, Bit, ReadVote, PutVote;
    CountReadsBack(|vote.hashes|, 0, rebroadcasted);
    VoteRoundTrip(vote);
  }

  lemma FlagBits(a: bool, b: bool, c: bool)
    ensures var e := (if a then 1 else 0) + (if b then 2 else 0) + (if c then 4 else 0);
            Bit(e, 0) == a && Bit(e, 1) == b && Bit(e, 2) == c
  {
  }

  lemma HandshakeRoundTrip(query: Option<Block32>, response: Option<Response>, isV2: bool)
    ensures var m := Handshake(query, response, isV2);
            && (WellFormed(m) ==> PayloadLength(NODE_ID_HANDSHAKE, HeaderBits(m)) == |Payload(m)|)
            && (Parse(NODE_ID_HANDSHAKE, HeaderBits(m), Payload(m)) == Some(m) <==> WellFormed(m))
  {
    hide Bit, ReadBytes, ReadResponse, PutResponse;
    FlagBits(query.Some?, response.Some?, isV2);
    var tail := if response.Some? then PutResponse(response.value, []) else [];
    if query.Some? { ReadsBackBytes(query.value, tail); } else { assert [] + tail == tail; }
    if response.Some? {
      ResponseRoundTrip(response.value, []);
      ResponseForm(tail, isV2);
    }
  }

  /** A V2 response without the flag is read as a V1 response, with salt and genesis hash for a signature. */
  lemma HandshakeMistaken(nodeId: PublicKey, signature: Signature, v2: V2Payload)
    ensures var m := Handshake(None, Some(Response(nodeId, signature, Some(v2))), false);
            Parse(NODE_ID_HANDSHAKE, HeaderBits(m), Payload(m)) ==
            Some(Handshake(None, Some(Response(nodeId, v2.salt + Bytes32(v2.genesis), None)), false))
  {
    FlagBits(false, true, false);
    ResponseMistaken(nodeId, signature, v2);
    hide Bit, ReadResponse, PutResponse;
    assert [] + PutResponse(Response(nodeId, signature, Some(v2)), []) == PutResponse(Response(nodeId, signature, Some(v2)), []);
  }

  lemma ResponseMistaken(nodeId: PublicKey, signature: Signature, v2: V2Payload)
    ensures ReadResponse(PutResponse(Response(nodeId, signature, Some(v2)), []), false) ==
            Got(Response(nodeId, v2.salt + Bytes32(v2.genesis), None), signature)
  {
    hide ReadBytes, Read32, Bytes32;
    var mistaken := v2.salt + Bytes32(v2.genesis);
    assert signature + [] == signature;
    assert v2.salt + (Bytes32(v2.genesis) + signature) == mistaken + signature;
    ReadsBack32(nodeId, mistaken + signature);
    ReadsBackBytes(mistaken, signature);
  }

  /** Whatever may be pulled fits the 16 bits of the header. */
  lemma PullSize(pull: Pull)
    requires WellFormedPull(pull)
    ensures |PutPull(pull)| < 0x1_0000 - 9
  {
    match pull
    case PullBlocks(blocks) => PutBlocksSize(blocks);
    case PullAccountInfo(info) => InfoRoundTrip(info);
    case PullFrontiers(frontiers) =>
      PairRoundTrip(ZERO_PAIR, []);
      PutPairsSize(frontiers, PutPair(ZERO_PAIR, []));
  }

  lemma {:induction false} PutBlocksSize(blocks: seq<Block>)
    ensures |PutBlocks(blocks)| <= 217 * |blocks| + 1
  {
    if blocks != [] {
      PutBlocksSize(blocks[1..]);
      PutBlockSize(blocks[0], PutBlocks(blocks[1..]));
    }
  }

  lemma PutBlockSize(b: Block, tail: seq<Byte>)
    ensures |BlockCodec.PutBlock(b, tail)| == 1 + BlockSize(BlockCodec.TypeCode(b.body)) + |tail| <= 217 + |tail|
  {
  }

  lemma PullAckRoundTrip(id: U64, pull: Pull)
    ensures var m := PullAck(id, pull);
            && (WellFormedPull(pull) ==> PayloadLength(ASC_PULL_ACK, HeaderBits(m)) == |Payload(m)|)
            && (Parse(ASC_PULL_ACK, HeaderBits(m), Payload(m)) == Some(m) <==> WellFormedPull(pull))
  {
    hide Bytes8, Read8, ReadBytes, PutPull, ParsePull, PullCode, WellFormedPull;
    var tail := Bytes8(id) + PutPull(pull);
    ReadsBackBytes([PullCode(pull)], tail);
    ReadsBack8(id, PutPull(pull));
    PullRoundTrip(pull);
    if WellFormedPull(pull) { PullSize(pull); }
  }

  /**
    For every message that can be constructed, parsing its payload under the bits of its header gives the
    message back exactly when it is well-formed, and then the header predicts the length of the payload.
   */
  lemma MessageRoundTrip(m: Message)
    requires Constructible(m)
    ensures WellFormed(m) ==> PayloadLength(TypeOf(m), HeaderBits(m)) == |Payload(m)|
    ensures Parse(TypeOf(m), HeaderBits(m), Payload(m)) == Some(m) <==> WellFormed(m)
  {
    match m {
      case ConfirmReq(roots) => ConfirmReqRoundTrip(roots);
      case ConfirmAck(vote, rebroadcasted) => ConfirmAckRoundTrip(vote, rebroadcasted);
      case Handshake(query, response, isV2) => HandshakeRoundTrip(query, response, isV2);
      case PullAck(id, pull) => PullAckRoundTrip(id, pull);
    }
    hide HeaderBits, Payload, Parse, PayloadLength;
  }

  /** Writing a payload, element by element. */
  method Serialize(m: Message) returns (s: seq<Byte>)
    ensures s == Payload(m)
  {
    hide PutPairs, PutHashes, PutBlocks, PutInfo, PutResponse;
    match m {
      case ConfirmReq(roots) =>
        s := SerializePairs(roots, []);
      case ConfirmAck(vote, _) =>
        var hashes := SerializeHashes(vote.hashes);
        s := Bytes32(vote.account) + (vote.signature + (Bytes8Le(vote.timestamp) + hashes));
      case Handshake(query, response, _) =>
        s := if query.Some? then query.value else [];
        s := s + if response.Some? then PutResponse(response.value, []) else [];
      case PullAck(id, pull) =>
        var tail;
        match pull {
          case PullBlocks(blocks) => tail := SerializeBlocks(blocks);
          case PullAccountInfo(info) => tail := PutInfo(info);
          case PullFrontiers(frontiers) => tail := SerializePairs(frontiers, PutPair(ZERO_PAIR, []));
        }
        s := [PullCode(pull)] + (Bytes8(id) + tail);
    }
  }

  method DeserializeVote(s: seq<Byte>) returns (r: Read<Vote>)
    ensures r == ReadVote(s)
  {
    hide Read32, ReadBytes, Read8Le, ReadHashes;
    var account := Read32(s);
    if account.Failed? { return Failed; }
    var signature := ReadBytes(account.rest, 64);
    if signature.Failed? { return Failed; }
    var timestamp := Read8Le(signature.rest);
    if timestamp.Failed? { return Failed; }
    var hashes := DeserializeHashes(timestamp.rest, HASHES_MAX);
    if hashes.Failed? { return Failed; }
    return Got(Vote(account.value, signature.value, timestamp.value, hashes.value), hashes.rest);
  }

  method DeserializePullAck(s: seq<Byte>) returns (r: Option<Message>)
    ensures r == ParsePullAck(s)
  {
    hide ReadBytes, Read8, ReadBlocks, ReadInfo, ReadFrontiers;
    var code := ReadBytes(s, 1);
    if code.Failed? { return None; }
    var id := Read8(code.rest);
    if id.Failed? { return None; }
    match code.value[0] {
      case 1 =>
        var blocks := DeserializeBlocks(id.rest, MAX_BLOCKS);
        if blocks.None? { return None; }
        return Some(PullAck(id.value, PullBlocks(blocks.value)));
      case 2 =>
        var info := ReadInfo(id.rest);
        if info.Failed? { return None; }
        return Some(PullAck(id.value, PullAccountInfo(info.value)));
      case 3 =>
        var frontiers := DeserializeFrontiers(id.rest, MAX_FRONTIERS);
        if frontiers.Failed? { return None; }
        return Some(PullAck(id.value, PullFrontiers(frontiers.value)));
      case _ => return None;
    }
  }

  method Deserialize(messageType: Byte, extensions: U16, s: seq<Byte>) returns (r: Option<Message>)
    requires Modelled(messageType)
    ensures r == Parse(messageType, extensions, s)
  {
    hide Count, Bit, ParseRoots, ReadVote, ParseHandshake, ParsePullAck;
    if messageType == CONFIRM_REQ {
      var roots := DeserializeRoots(s, Count(extensions));
      if roots.None? { return None; }
      return Some(ConfirmReq(roots.value));
    } else if messageType == CONFIRM_ACK {
      var vote := DeserializeVote(s);
      if vote.Failed? { return None; }
      return Some(ConfirmAck(vote.value, Bit(extensions, 2)));
    } else if messageType == NODE_ID_HANDSHAKE {
      var handshake := ParseHandshake(extensions, s);
      if handshake.Failed? { return None; }
      return Some(handshake.value);
    } else {
      r := DeserializePullAck(s);
    }
  }

  // ---------------------------------------------------------------------------------------------
  // The header

  datatype Protocol = Protocol(network: U16, versionMax: Byte, versionUsing: Byte, versionMin: Byte)

  datatype Header = Header(protocol: Protocol, messageType: Byte, extensions: U16)

  predicate KnownNetwork(network: U16) { network in {0, 0x4241, 0x4242, 0x4258, 0x4243} }

  predicate KnownType(messageType: Byte) { messageType <= 15 && messageType != 9 }

  /** The network is big-endian, the extensions are little-endian. */
  function PutHeader(h: Header, tail: seq<Byte>): seq<Byte> {
    [h.protocol.network / 0x100, h.protocol.network % 0x100,
     h.protocol.versionMax, h.protocol.versionUsing, h.protocol.versionMin, h.messageType,
     h.extensions % 0x100, h.extensions / 0x100] + tail
  }

  function ReadHeader(s: seq<Byte>): Read<Header> {
    var (b, s) :- ReadBytes(s, 8);
    var network: nat := b[0] as nat * 0x100 + b[1];
    if !KnownNetwork(network) || !KnownType(b[5]) then Failed
    else Got(Header(Protocol(network, b[2], b[3], b[4]), b[5], b[6] + b[7] as nat * 0x100), s)
  }

  lemma HeaderRoundTrip(h: Header, tail: seq<Byte>)
    ensures ReadHeader(PutHeader(h, tail)) ==
            if KnownNetwork(h.protocol.network) && KnownType(h.messageType) then Got(h, tail) else Failed
  {
  }

  lemma PutHeaderAppends(h: Header, tail: seq<Byte>, next: seq<Byte>)
    ensures PutHeader(h, tail) + next == PutHeader(h, tail + next)
  {
  }

  function Wire(m: Message, protocol: Protocol): seq<Byte> {
    PutHeader(Header(protocol, TypeOf(m), HeaderBits(m)), Payload(m))
  }

  /** Receiving: the header, then as many bytes as it announces. */
  function Receive(s: seq<Byte>): Read<Message> {
    var (h, s) :- ReadHeader(s);
    if !Modelled(h.messageType) then Failed
    else
      var (payload, s) :- ReadBytes(s, PayloadLength(h.messageType, h.extensions));
      match Parse(h.messageType, h.extensions, payload)
      case Some(m) => Got(m, s)
      case None => Failed
  }

  /** A message on a stream is received whole, and what follows it is left for the next one. */
  lemma WireRoundTrip(m: Message, protocol: Protocol, next: seq<Byte>)
    requires Constructible(m) && WellFormed(m) && KnownNetwork(protocol.network)
    ensures Receive(Wire(m, protocol) + next) == Got(m, next)
  {
    hide ReadHeader, PutHeader, HeaderBits, Payload, Parse, PayloadLength, ReadBytes;
    var h := Header(protocol, TypeOf(m), HeaderBits(m));
    PutHeaderAppends(h, Payload(m), next);
    HeaderRoundTrip(h, Payload(m) + next);
    MessageRoundTrip(m);
    ReadsBackBytes(Payload(m), next);
  }

  // ---------------------------------------------------------------------------------------------
  // The wire format in literal bytes and bits

  /** Message types, limits and kinds of pull. */
  lemma Codes(m: Message)
    ensures TypeOf(m) == match m case ConfirmReq(_) => 4 case ConfirmAck(_, _) => 5 case Handshake(_, _, _) => 10 case PullAck(_, _) => 15
    ensures m.PullAck? ==> PullCode(m.pull) == if m.pull.PullBlocks? then 1 else if m.pull.PullAccountInfo? then 2 else 3
    ensures HASHES_MAX == 255
    ensures m.ConfirmReq? ==> (Constructible(m) <==> |m.roots| <= 255)
    ensures m.ConfirmAck? ==> (Constructible(m) <==> |m.vote.hashes| <= 255)
    ensures m.PullAck? && m.pull.PullBlocks? ==> (Constructible(m) <==> |m.pull.blocks| <= 128)
  {
    hide Payload;
  }

  lemma CountBitsValue(count: Byte)
    ensures CountBits(count) == if count < 16 then 0x1000 * count else 0x1000 * (count / 16) + 0x10 * (count % 16) + 1
  {
  }

  /** The bits of a confirm request: type 1 in the third nibble, the count around it. */
  lemma ConfirmReqBits(roots: seq<Pair>)
    requires |roots| <= 255
    ensures |roots| < 16 ==> HeaderBits(ConfirmReq(roots)) == 0x1000 * |roots| + 0x100
    ensures |roots| >= 16 ==> HeaderBits(ConfirmReq(roots)) == 0x1000 * (|roots| / 16) + 0x100 + 0x10 * (|roots| % 16) + 1
    ensures |roots| == 1 ==> HeaderBits(ConfirmReq(roots)) == 0x1100
    ensures |roots| == 15 ==> HeaderBits(ConfirmReq(roots)) == 0xF100
    ensures |roots| == 16 ==> HeaderBits(ConfirmReq(roots)) == 0x1101
    ensures |roots| == 255 ==> HeaderBits(ConfirmReq(roots)) == 0xF1F1
  {
    hide Payload, CountBits;
    CountBitsValue(|roots|);
    assert |roots| % 0x100 == |roots|;
  }

  /** The bits of a confirm ack: the count alone, and 4 for a rebroadcast. */
  lemma ConfirmAckBits(vote: Vote, rebroadcasted: bool)
    requires |vote.hashes| <= 255
    ensures var flag := if rebroadcasted then 4 else 0;
            && (|vote.hashes| < 16 ==> HeaderBits(ConfirmAck(vote, rebroadcasted)) == 0x1000 * |vote.hashes| + flag)
            && (|vote.hashes| >= 16 ==>
                  (HeaderBits(ConfirmAck(vote, rebroadcasted)) ==
                   0x1000 * (|vote.hashes| / 16) + 0x10 * (|vote.hashes| % 16) + 1 + flag))
  {
    hide Payload, CountBits;
    CountBitsValue(|vote.hashes|);
    assert |vote.hashes| % 0x100 == |vote.hashes|;
  }

  /** The bits of a handshake: 1 for a query, 2 for a response, 4 for V2. */
  lemma HandshakeBits(query: Option<Block32>, response: Option<Response>, isV2: bool)
    ensures HeaderBits(Handshake(query, response, isV2)) ==
            (if query.Some? then 1 else 0) + (if response.Some? then 2 else 0) + (if isV2 then 4 else 0)
  {
    hide Payload;
  }

  /** The bits of a pull ack are the length of what follows type and id. */
  lemma PullAckBits(id: U64, pull: Pull)
    requires WellFormedPull(pull)
    ensures HeaderBits(PullAck(id, pull)) == |PutPull(pull)| == |Payload(PullAck(id, pull))| - 9
  {
    hide PutPull, WellFormedPull, Payload;
    PullSize(pull);
    PullAckLayout(id, pull);
  }

  /** A request is its pairs, hash before root. */
  lemma ConfirmReqLayout(roots: seq<Pair>, i: nat)
    requires i < |roots|
    ensures var s := Payload(ConfirmReq(roots));
            && |s| == 64 * |roots|
            && s[64 * i..64 * i + 32] == Bytes32(roots[i].first) && s[64 * i + 32..64 * i + 64] == Bytes32(roots[i].second)
  {
    PairsLayout(roots, [], i);
  }

  /** An ack is its vote: account, signature, little-endian timestamp, hashes. */
  lemma ConfirmAckLayout(vote: Vote, rebroadcasted: bool, i: nat)
    requires i < |vote.hashes|
    ensures var s := Payload(ConfirmAck(vote, rebroadcasted));
            && |s| == 104 + 32 * |vote.hashes|
            && s[..32] == Bytes32(vote.account) && s[32..96] == vote.signature && s[96..104] == Bytes8Le(vote.timestamp)
            && s[104 + 32 * i..136 + 32 * i] == Bytes32(vote.hashes[i])
  {
    hide Bytes32, Bytes8Le, PutHashes;
    HashesLayout(vote.hashes, i);
    var hashes := PutHashes(vote.hashes);
    var s := Payload(ConfirmAck(vote, rebroadcasted));
    assert s[104..] == hashes;
    assert s[104 + 32 * i..136 + 32 * i] == hashes[32 * i..32 * i + 32];
  }

  /** A handshake is the cookie asked about, then node id, for V2 salt and genesis hash, and the signature. */
  lemma HandshakeLayout(query: Option<Block32>, response: Option<Response>, isV2: bool)
    ensures var s := Payload(Handshake(query, response, isV2));
            var from := if query.Some? then 32 else 0;
            && |s| == from + (if response.None? then 0 else if response.value.v2.Some? then 160 else 96)
            && (query.Some? ==> s[..32] == query.value)
            && (response.Some? ==> s[from..from + 32] == Bytes32(response.value.nodeId))
            && (response.Some? && response.value.v2.None? ==> s[from + 32..] == response.value.signature)
            && (response.Some? && response.value.v2.Some? ==>
                  && s[from + 32..from + 64] == response.value.v2.value.salt
                  && s[from + 64..from + 96] == Bytes32(response.value.v2.value.genesis)
                  && s[from + 96..] == response.value.signature)
  {
    hide Bytes32, PutResponse;
    if response.Some? {
      ResponseLayout(response.value);
      var s, r := Payload(Handshake(query, response, isV2)), PutResponse(response.value, []);
      var from := if query.Some? then 32 else 0;
      assert s[from..] == r;
      assert forall a, b | 0 <= a <= b <= |r| :: s[from + a..from + b] == r[a..b];
      assert s[from..from + 32] == s[from + 0..from + 32] && s[from + 96..] == s[from + 96..from + |r|];
      assert s[from + 32..] == s[from + 32..from + |r|];
    }
  }

  lemma ResponseLayout(r: Response)
    ensures var s := PutResponse(r, []);
            && |s| == (if r.v2.Some? then 160 else 96) && s[0..32] == Bytes32(r.nodeId)
            && (r.v2.None? ==> s[32..96] == r.signature)
            && (r.v2.Some? ==> s[32..64] == r.v2.value.salt && s[64..96] == Bytes32(r.v2.value.genesis) && s[96..160] == r.signature)
  {
    hide Bytes32;
  }

  /** A pull ack is its kind, the big-endian id and the list or record. */
  lemma PullAckLayout(id: U64, pull: Pull)
    ensures var s := Payload(PullAck(id, pull));
            && |s| == 9 + |PutPull(pull)| && s[0] == PullCode(pull) && s[1..9] == Bytes8(id) && s[9..] == PutPull(pull)
  {
    hide Bytes8, PutPull, PullCode;
  }

  lemma InfoLayout(i: AccountInfo)
    ensures var s := PutPull(PullAccountInfo(i));
            && |s| == 144 && s[..32] == Bytes32(i.account) && s[32..64] == Bytes32(i.open) && s[64..96] == Bytes32(i.head)
            && s[96..104] == Bytes8(i.blockCount) && s[104..136] == Bytes32(i.confFrontier) && s[136..] == Bytes8(i.confHeight)
  {
    hide Bytes32, Bytes8;
  }

  /** Frontiers are account and hash, and end with 64 zero bytes. */
  lemma FrontiersLayout(frontiers: seq<Pair>, i: nat)
    requires i < |frontiers|
    ensures var s := PutPull(PullFrontiers(frontiers));
            && |s| == 64 * |frontiers| + 64 && s[64 * |frontiers|..] == Bytes32(0) + Bytes32(0)
            && s[64 * i..64 * i + 32] == Bytes32(frontiers[i].first)
            && s[64 * i + 32..64 * i + 64] == Bytes32(frontiers[i].second)
  {
    hide Bytes32;
    assert PutPair(ZERO_PAIR, []) == Bytes32(0) + Bytes32(0);
    PairsLayout(frontiers, PutPair(ZERO_PAIR, []), i);
  }

  /** The header: network, versions, type, and the bits with the low byte first. */
  lemma HeaderLayout(h: Header, tail: seq<Byte>)
    ensures var s := PutHeader(h, tail);
            && |s| == 8 + |tail| && s[8..] == tail
            && 256 * s[0] as nat + s[1] == h.protocol.network && s[2] == h.protocol.versionMax
            && s[3] == h.protocol.versionUsing && s[4] == h.protocol.versionMin && s[5] == h.messageType
            && s[6] as nat + 256 * s[7] as nat == h.extensions
    ensures KnownNetwork(h.protocol.network) <==>
              || h.protocol.network == 0 || h.protocol.network == 0x4241 || h.protocol.network == 0x4242
              || h.protocol.network == 0x4243 || h.protocol.network == 0x4258
    ensures KnownType(h.messageType) <==> h.messageType < 9 || 9 < h.messageType < 16
  {
  }

  /** The payload length for each type of message, told by the bits. */
  lemma AnnouncedLengths(extensions: U16)
    ensures PayloadLength(4, extensions) ==
            match extensions / 0x100 % 0x10
            case 1 => 64 * Count(extensions)
            case 2 => 152 case 3 => 136 case 4 => 168 case 5 => 136 case 6 => 216
            case _ => 0
    ensures PayloadLength(5, extensions) == 104 + 32 * Count(extensions)
    ensures PayloadLength(10, extensions) ==
            (if extensions % 2 == 1 then 32 else 0) +
            (if extensions / 2 % 2 == 0 then 0 else if extensions / 4 % 2 == 1 then 160 else 96)
    ensures PayloadLength(15, extensions) == 9 + extensions
    ensures Count(extensions) == if extensions % 2 == 1 then extensions / 0x1000 * 16 + extensions / 0x10 % 0x10
                                 else extensions / 0x1000
  {
  }

  /** Which payloads are accepted, and that they are encodings of what is returned. */
  lemma VoteAccepted(s: seq<Byte>)
    ensures ReadVote(s).Got? <==> |s| >= 104 && ((|s| - 104) % 32 == 0 || |s| >= 104 + 32 * 255)
    ensures ReadVote(s).Got? ==> s == PutVote(ReadVote(s).value) + ReadVote(s).rest
  {
    hide Bytes32, Bytes8Le, Read32, Read8Le, ReadHashes, PutHashes;
    if |s| >= 104 {
      var account := Read32(s);
      var signature := ReadBytes(account.rest, 64);
      var timestamp := Read8Le(signature.rest);
      HashesAccepted(timestamp.rest, HASHES_MAX);
      assert |timestamp.rest| == |s| - 104;
    }
  }

  lemma ResponseAccepted(s: seq<Byte>, isV2: bool)
    ensures ReadResponse(s, isV2).Got? <==> |s| >= if isV2 then 160 else 96
    ensures ReadResponse(s, isV2).Got? ==> s == PutResponse(ReadResponse(s, isV2).value, ReadResponse(s, isV2).rest)
  {
    hide Bytes32, Read32;
  }

  lemma InfoAccepted(s: seq<Byte>)
    ensures ReadInfo(s).Got? <==> |s| >= 144
    ensures ReadInfo(s).Got? ==> s == PutInfo(ReadInfo(s).value) + ReadInfo(s).rest
  {
    hide Bytes32, Bytes8, Read32, Read8;
  }
}
