/**
  The stored form of a block: its type, its fields, and a sideband that leaves out whatever the block
  itself already says. Each encoder writes in front of a given `tail`.
 */
module BlockCodec {
  import opened Types
  import opened Bytes
  import opened Blocks

  // ---------------------------------------------------------------------------------------------
  // Blocks

  function TypeCode(body: Body): Byte {
    match body
    case LegacySend(_, _, _) => 2
    case LegacyReceive(_, _) => 3
    case LegacyOpen(_, _, _) => 4
    case LegacyChange(_, _) => 5
    case State(_, _, _, _, _) => 6
  }

  function PutBody(body: Body, tail: seq<Byte>): seq<Byte> {
    match body
    case LegacySend(previous, destination, balance) =>
      Bytes32(previous) + (Bytes32(destination) + (Bytes16(balance) + tail))
    case LegacyReceive(previous, source) =>
      Bytes32(previous) + (Bytes32(source) + tail)
    case LegacyOpen(source, representative, account) =>
      Bytes32(source) + (Bytes32(representative) + (Bytes32(account) + tail))
    case LegacyChange(previous, representative) =>
      Bytes32(previous) + (Bytes32(representative) + tail)
    case State(account, previous, representative, balance, link) =>
      Bytes32(account) + (Bytes32(previous) + (Bytes32(representative) + (Bytes16(balance) + (Bytes32(link) + tail))))
  }

  /** The work of a state block is big-endian, that of the older blocks little-endian. */
  function WorkBytes(b: Block): seq<Byte> {
    if b.body.State? then Bytes8(b.work) else Bytes8Le(b.work)
  }

  function PutBlock(b: Block, tail: seq<Byte>): seq<Byte> {
    [TypeCode(b.body)] + PutBody(b.body, b.signature + (WorkBytes(b) + tail))
  }

  function ReadBody(code: Byte, s: seq<Byte>): Read<Body> {
    match code
    case 2 =>
      var (previous, s) :- Read32(s);
      var (destination, s) :- Read32(s);
      var (balance, s) :- Read16(s);
      Got(LegacySend(previous, destination, balance), s)
    case 3 =>
      var (previous, s) :- Read32(s);
      var (source, s) :- Read32(s);
      Got(LegacyReceive(previous, source), s)
    case 4 =>
      var (source, s) :- Read32(s);
      var (representative, s) :- Read32(s);
      var (account, s) :- Read32(s);
      Got(LegacyOpen(source, representative, account), s)
    case 5 =>
      var (previous, s) :- Read32(s);
      var (representative, s) :- Read32(s);
      Got(LegacyChange(previous, representative), s)
    case 6 =>
      var (account, s) :- Read32(s);
      var (previous, s) :- Read32(s);
      var (representative, s) :- Read32(s);
      var (balance, s) :- Read16(s);
      var (link, s) :- Read32(s);
      Got(State(account, previous, representative, balance, link), s)
    case _ => Failed
  }

  function ReadBlock(s: seq<Byte>): Read<Block> {
    var (code, s) :- ReadBytes(s, 1);
    var (body, s) :- ReadBody(code[0], s);
    var (signature, s) :- ReadBytes(s, 64);
    var (work, s) :- if body.State? then Read8(s) else Read8Le(s);
    Got(Block(body, signature, work), s)
  }

  lemma BodyRoundTrip(body: Body, tail: seq<Byte>)
    ensures ReadBody(TypeCode(body), PutBody(body, tail)) == Got(body, tail)
  {
    hide Bytes32, Bytes16, Read32, Read16;
    match body
    case LegacySend(previous, destination, balance) =>
      ReadsBack32(previous, Bytes32(destination) + (Bytes16(balance) + tail));
      ReadsBack32(destination, Bytes16(balance) + tail);
      ReadsBack16(balance, tail);
    case LegacyReceive(previous, source) =>
      ReadsBack32(previous, Bytes32(source) + tail);
      ReadsBack32(source, tail);
    case LegacyOpen(source, representative, account) =>
      ReadsBack32(source, Bytes32(representative) + (Bytes32(account) + tail));
      ReadsBack32(representative, Bytes32(account) + tail);
      ReadsBack32(account, tail);
    case LegacyChange(previous, representative) =>
      ReadsBack32(previous, Bytes32(representative) + tail);
      ReadsBack32(representative, tail);
    case State(account, previous, representative, balance, link) =>
      ReadsBack32(account, Bytes32(previous) + (Bytes32(representative) + (Bytes16(balance) + (Bytes32(link) + tail))));
      ReadsBack32(previous, Bytes32(representative) + (Bytes16(balance) + (Bytes32(link) + tail)));
      ReadsBack32(representative, Bytes16(balance) + (Bytes32(link) + tail));
      ReadsBack16(balance, Bytes32(link) + tail);
      ReadsBack32(link, tail);
  }

  lemma BlockRoundTrip(b: Block, tail: seq<Byte>)
    ensures ReadBlock(PutBlock(b, tail)) == Got(b, tail)
  {
    var afterSignature := WorkBytes(b) + tail;
    var afterBody := b.signature + afterSignature;
    ReadsBackBytes([TypeCode(b.body)], PutBody(b.body, afterBody));
    BodyRoundTrip(b.body, afterBody);
    ReadsBackBytes(b.signature, afterSignature);
    if b.body.State? { ReadsBack8(b.work, tail); } else { ReadsBack8Le(b.work, tail); }
  }

  // ---------------------------------------------------------------------------------------------
  // Details and epochs

  function EpochCode(e: Epoch): Byte {
    match e
    case Invalid => 0
    case Unspecified => 1
    case Epoch0 => 2
    case Epoch1 => 3
    case Epoch2 => 4
  }

  function EpochOf(code: Byte): (e: Option<Epoch>)
    ensures e.Some? ==> EpochCode(e.value) == code
    ensures e.None? <==> code > 4
  {
    match code
    case 0 => Some(Invalid)
    case 1 => Some(Unspecified)
    case 2 => Some(Epoch0)
    case 3 => Some(Epoch1)
    case 4 => Some(Epoch2)
    case _ => None
  }

  /** One byte: the epoch in the low five bits, three flags above it. */
  function Packed(d: Details): Byte {
    EpochCode(d.epoch) + (if d.isEpoch then 0x20 else 0) + (if d.isReceive then 0x40 else 0) + (if d.isSend then 0x80 else 0)
  }

  function Unpack(v: Byte): Option<Details> {
    match EpochOf(v % 0x20)
    case None => None
    case Some(epoch) => Some(Details(epoch, v / 0x80 % 2 == 1, v / 0x40 % 2 == 1, v / 0x20 % 2 == 1))
  }

  lemma DetailsRoundTrip(d: Details)
    ensures Unpack(Packed(d)) == Some(d)
  {
    var code := EpochCode(d.epoch);
    var flags := (if d.isEpoch then 1 else 0) + (if d.isReceive then 2 else 0) + (if d.isSend then 4 else 0);
    assert Packed(d) == code + 0x20 * flags && code < 5;
    assert Packed(d) % 0x20 == code && Packed(d) / 0x20 == flags;
  }

  /** Only packed details unpack. */
  lemma UnpackedIsPacked(v: Byte)
    requires Unpack(v).Some?
    ensures Packed(Unpack(v).value) == v
  {
  }

  // ---------------------------------------------------------------------------------------------
  // The sideband

  predicate HasAccount(body: Body) { !body.State? && !body.LegacyOpen? }
  predicate HasHeight(body: Body) { !body.LegacyOpen? }
  predicate HasBalance(body: Body) { body.LegacyReceive? || body.LegacyChange? || body.LegacyOpen? }

  /** The bytes of a sideband; which fields are written depends on the kind of block. */
  function PutSideband(sb: Sideband, body: Body, tail: seq<Byte>): seq<Byte> {
    var last := if body.State? then [Packed(sb.details), EpochCode(sb.sourceEpoch)] + tail else tail;
    var timestamp := Bytes8(sb.timestamp) + last;
    var balance := if HasBalance(body) then Bytes16(sb.balance) + timestamp else timestamp;
    var height := if HasHeight(body) then Bytes8(sb.height) + balance else balance;
    var account := if HasAccount(body) then Bytes32(sb.account) + height else height;
    Bytes32(sb.successor) + account
  }

  const EMPTY_SIDEBAND := Sideband(0, 0, 0, 0, 0, Details(Epoch0, false, false, false), Epoch0)

  function ReadSideband(s: seq<Byte>, body: Body): Read<Sideband> {
    var (successor, s) :- Read32(s);
    var (account, s) :- if HasAccount(body) then Read32(s) else Got(0, s);
    var (height, s) :- if HasHeight(body) then Read8(s) else Got(1, s);
    var (balance, s) :- if HasBalance(body) then Read16(s) else Got(0, s);
    var (timestamp, s) :- Read8(s);
    var partial := EMPTY_SIDEBAND.(
      successor := successor, account := account, height := height, balance := balance, timestamp := timestamp);
    if body.State? then
      var (codes, s) :- ReadBytes(s, 2);
      match (Unpack(codes[0]), EpochOf(codes[1]))
      case (Some(details), Some(epoch)) => Got(partial.(details := details, sourceEpoch := epoch), s)
      case _ => Failed
    else Got(partial, s)
  }

  /** What reading back yields before the fields that were left out are filled in again. */
  function Written(sb: Sideband, body: Body): Sideband {
    Sideband(
      if HasHeight(body) then sb.height else 1,
      sb.timestamp,
      sb.successor,
      if HasAccount(body) then sb.account else 0,
      if HasBalance(body) then sb.balance else 0,
      if body.State? then sb.details else EMPTY_SIDEBAND.details,
      if body.State? then sb.sourceEpoch else Epoch0)
  }

  lemma SidebandRoundTrip(sb: Sideband, body: Body, tail: seq<Byte>)
    ensures ReadSideband(PutSideband(sb, body, tail), body) == Got(Written(sb, body), tail)
  {
    hide Bytes32, Bytes16, Bytes8, Read32, Read16, Read8, ReadBytes, Packed, Unpack;
    var codes := [Packed(sb.details), EpochCode(sb.sourceEpoch)];
    var last := if body.State? then codes + tail else tail;
    var timestamp := Bytes8(sb.timestamp) + last;
    var balance := if HasBalance(body) then Bytes16(sb.balance) + timestamp else timestamp;
    var height := if HasHeight(body) then Bytes8(sb.height) + balance else balance;
    var account := if HasAccount(body) then Bytes32(sb.account) + height else height;
    ReadsBack32(sb.successor, account);
    ReadsBack32(sb.account, height);
    ReadsBack8(sb.height, balance);
    ReadsBack16(sb.balance, timestamp);
    ReadsBack8(sb.timestamp, last);
    ReadsBackBytes(codes, tail);
    DetailsRoundTrip(sb.details);
    assert EpochOf(EpochCode(sb.sourceEpoch)) == Some(sb.sourceEpoch);
  }

  /** Writing a sideband field by field. */
  method SerializeSideband(sb: Sideband, body: Body) returns (s: seq<Byte>)
    ensures s == PutSideband(sb, body, [])
  {
    hide Bytes32, Bytes16, Bytes8, Packed, EpochCode;
    s := Bytes32(sb.successor);
    if !body.State? && !body.LegacyOpen? {
      s := s + Bytes32(sb.account);
    }
    if !body.LegacyOpen? {
      s := s + Bytes8(sb.height);
    }
    if body.LegacyReceive? || body.LegacyChange? || body.LegacyOpen? {
      s := s + Bytes16(sb.balance);
    }
    s := s + Bytes8(sb.timestamp);
    if body.State? {
      s := s + [Packed(sb.details)];
      s := s + [EpochCode(sb.sourceEpoch)];
    }
  }

  /** Filling an empty sideband field by field. */
  method DeserializeSideband(s: seq<Byte>, body: Body) returns (r: Read<Sideband>)
    ensures r == ReadSideband(s, body)
  {
    hide Read32, Read16, Read8, Unpack, EpochOf;
    var sb := EMPTY_SIDEBAND;
    var successor := Read32(s);
    if successor.Failed? { return Failed; }
    sb := sb.(successor := successor.value);
    var stream := successor.rest;
    if !body.State? && !body.LegacyOpen? {
      var account := Read32(stream);
      if account.Failed? { return Failed; }
      sb, stream := sb.(account := account.value), account.rest;
    }
    if !body.LegacyOpen? {
      var height := Read8(stream);
      if height.Failed? { return Failed; }
      sb, stream := sb.(height := height.value), height.rest;
    } else {
      sb := sb.(height := 1);
    }
    if body.LegacyReceive? || body.LegacyChange? || body.LegacyOpen? {
      var balance := Read16(stream);
      if balance.Failed? { return Failed; }
      sb, stream := sb.(balance := balance.value), balance.rest;
    }
    var timestamp := Read8(stream);
    if timestamp.Failed? { return Failed; }
    sb, stream := sb.(timestamp := timestamp.value), timestamp.rest;
    if body.State? {
      var codes := ReadBytes(stream, 2);
      if codes.Failed? { return Failed; }
      match (Unpack(codes.value[0]), EpochOf(codes.value[1])) {
        case (Some(details), Some(epoch)) => sb := sb.(details := details, sourceEpoch := epoch);
        case _ => return Failed;
      }
      stream := codes.rest;
    }
    return Got(sb, stream);
  }

  // ---------------------------------------------------------------------------------------------
  // Saved blocks

  function SavedBytes(b: SavedBlock): seq<Byte> {
    PutBlock(b.block, PutSideband(b.sideband, b.block.body, []))
  }

  /** The sideband with everything the kind of block leaves out taken from the block again. */
  function Refill(b: SavedBlock): SavedBlock {
    var sb := Written(b.sideband, b.block.body);
    b.(sideband :=
      match b.block.body
      case LegacySend(_, _, balance) => sb.(balance := balance, details := Details(Epoch0, true, false, false))
      case LegacyOpen(_, _, account) => sb.(account := account, details := Details(Epoch0, false, true, false))
      case LegacyReceive(_, _) => sb.(details := Details(Epoch0, false, true, false))
      case LegacyChange(_, _) => sb.(details := Details(Epoch0, false, false, false))
      case State(account, _, _, balance, _) => sb.(account := account, balance := balance))
  }

  function ReadSaved(s: seq<Byte>): Read<SavedBlock> {
    var (block, s) :- ReadBlock(s);
    var (sideband, s) :- ReadSideband(s, block.body);
    Got(Refill(SavedBlock(block, sideband)), s)
  }

  /** The sideband says about the left-out fields what the block says. */
  predicate Canonical(b: SavedBlock) {
    var sb := b.sideband;
    match b.block.body
    case LegacySend(_, _, balance) =>
      sb.balance == balance && sb.details == Details(Epoch0, true, false, false) && sb.sourceEpoch == Epoch0
    case LegacyOpen(_, _, account) =>
      sb.account == account && sb.height == 1 && sb.details == Details(Epoch0, false, true, false) && sb.sourceEpoch == Epoch0
    case LegacyReceive(_, _) => sb.details == Details(Epoch0, false, true, false) && sb.sourceEpoch == Epoch0
    case LegacyChange(_, _) => sb.details == Details(Epoch0, false, false, false) && sb.sourceEpoch == Epoch0
    case State(account, _, _, balance, _) => sb.account == account && sb.balance == balance
  }

  /** Saving and loading refills the sideband; it returns the very same block exactly for canonical ones. */
  lemma SavedRoundTrip(b: SavedBlock)
    ensures ReadSaved(SavedBytes(b)) == Got(Refill(b), [])
    ensures ReadSaved(SavedBytes(b)) == Got(b, []) <==> Canonical(b)
  {
    RefillFacts(b);
    hide PutBlock, PutSideband, ReadBlock, ReadSideband, Refill, Written, Canonical;
    BlockRoundTrip(b.block, PutSideband(b.sideband, b.block.body, []));
    SidebandRoundTrip(b.sideband, b.block.body, []);
  }

  lemma RefillFacts(b: SavedBlock)
    ensures Refill(SavedBlock(b.block, Written(b.sideband, b.block.body))) == Refill(b)
    ensures Refill(b) == b <==> Canonical(b)
  {
  }

  lemma ReadBodyIsWritten(code: Byte, s: seq<Byte>)
    requires ReadBody(code, s).Got?
    ensures var r := ReadBody(code, s); TypeCode(r.value) == code && s == PutBody(r.value, r.rest)
  {
    hide Bytes32, Bytes16, Read32, Read16;
  }

  lemma ReadBlockIsWritten(s: seq<Byte>)
    requires ReadBlock(s).Got?
    ensures s == PutBlock(ReadBlock(s).value, ReadBlock(s).rest)
  {
    hide Bytes8, Bytes8Le, Read8, Read8Le, ReadBody, PutBody;
    ReadBodyIsWritten(s[0], s[1..]);
    assert s == [s[0]] + s[1..];
  }

  lemma ReadSidebandIsWritten(s: seq<Byte>, body: Body)
    requires ReadSideband(s, body).Got?
    ensures s == PutSideband(ReadSideband(s, body).value, body, ReadSideband(s, body).rest)
  {
    hide Bytes32, Bytes16, Bytes8, Read32, Read16, Read8, Packed, Unpack;
    forall v: Byte | Unpack(v).Some? ensures Packed(Unpack(v).value) == v { UnpackedIsPacked(v); }
  }

  /** Whatever is accepted as a saved block is the encoding of what is returned, which is canonical. */
  lemma ReadSavedIsWritten(s: seq<Byte>)
    requires ReadSaved(s).Got?
    ensures var r := ReadSaved(s); Canonical(r.value) && s == SavedBytes(r.value) + r.rest
  {
    hide PutBlock, PutSideband, ReadBlock, ReadSideband, Refill, Canonical;
    var block := ReadBlock(s);
    var sideband := ReadSideband(block.rest, block.value.body);
    ReadBlockIsWritten(s);
    ReadSidebandIsWritten(block.rest, block.value.body);
    SavedBytesRefill(SavedBlock(block.value, sideband.value));
    SidebandAppends(sideband.value, block.value.body, sideband.rest);
    PutBlockAppends(block.value, PutSideband(sideband.value, block.value.body, []));
    PutBlockAppends(block.value, PutSideband(sideband.value, block.value.body, sideband.rest));
  }

  lemma SidebandAppends(sb: Sideband, body: Body, tail: seq<Byte>)
    ensures PutSideband(sb, body, tail) == PutSideband(sb, body, []) + tail
  {
    hide Bytes32, Bytes16, Bytes8, Packed;
  }

  /** Two saved blocks have the same bytes exactly if they agree on everything that is not left out. */
  lemma SavedBytesInjective(a: SavedBlock, b: SavedBlock)
    ensures SavedBytes(a) == SavedBytes(b) <==> Refill(a) == Refill(b)
  {
    SavedRoundTrip(a);
    SavedRoundTrip(b);
    SavedBytesRefill(a);
    SavedBytesRefill(b);
  }

  lemma SavedBytesRefill(b: SavedBlock)
    ensures SavedBytes(Refill(b)) == SavedBytes(b) && Canonical(Refill(b))
  {
  }

  /** The genesis block is saved with no flag set, but an open block is loaded as a receive. */
  lemma GenesisIsNotCanonical(source: Hash, representative: PublicKey, account: Account, signature: Signature, work: U64, now: U64)
    ensures var b := SavedBlock(
                Block(LegacyOpen(source, representative, account), signature, work),
                Sideband(1, now, 0, account, TWO_128 - 1, Details(Epoch0, false, false, false), Epoch0));
            !Canonical(b) && ReadSaved(SavedBytes(b)) == Got(b.(sideband := b.sideband.(details := Details(Epoch0, false, true, false))), [])
  {
    SavedRoundTrip(SavedBlock(
      Block(LegacyOpen(source, representative, account), signature, work),
      Sideband(1, now, 0, account, TWO_128 - 1, Details(Epoch0, false, false, false), Epoch0)));
  }

  // ---------------------------------------------------------------------------------------------
  // Sizes

  /** The number of sideband bytes for a kind of block, given by its type code. */
  method SidebandSize(code: Byte) returns (size: nat)
    ensures forall body, sb | TypeCode(body) == code :: |PutSideband(sb, body, [])| == size
    ensures size >= 32
  {
    size := 32; // successor
    if code != 6 && code != 4 {
      size := size + 32; // account
    }
    if code != 4 {
      size := size + 8; // height
    }
    if code == 3 || code == 5 || code == 4 {
      size := size + 16; // balance
    }
    size := size + 8; // timestamp
    if code == 6 {
      size := size + 1 + 1; // details and source epoch
    }
  }

  lemma PutBlockAppends(b: Block, tail: seq<Byte>)
    ensures PutBlock(b, tail) == PutBlock(b, []) + tail
  {
    var rest := b.signature + (WorkBytes(b) + []);
    assert b.signature + (WorkBytes(b) + tail) == rest + tail;
    PutBodyAppends(b.body, rest, tail);
    hide PutBody, WorkBytes;
  }

  lemma PutBodyAppends(body: Body, rest: seq<Byte>, tail: seq<Byte>)
    ensures PutBody(body, rest + tail) == PutBody(body, rest) + tail
  {
    hide Bytes32, Bytes16;
  }

  // ---------------------------------------------------------------------------------------------
  // The layout, byte by byte

  lemma LegacySendLayout(b: Block, tail: seq<Byte>)
    requires b.body.LegacySend?
    ensures var s := PutBlock(b, tail);
            && |s| == 153 + |tail| && s[0] == 2 && s[153..] == tail
            && s[1..33] == Bytes32(b.body.previous)
            && s[33..65] == Bytes32(b.body.destination)
            && s[65..81] == Bytes16(b.body.balance)
            && s[81..145] == b.signature
            && s[145..153] == Bytes8Le(b.work)
  {
    hide Bytes32, Bytes16, Bytes8, Bytes8Le;
  }

  lemma LegacyReceiveLayout(b: Block, tail: seq<Byte>)
    requires b.body.LegacyReceive?
    ensures var s := PutBlock(b, tail);
            && |s| == 137 + |tail| && s[0] == 3 && s[137..] == tail
            && s[1..33] == Bytes32(b.body.previous)
            && s[33..65] == Bytes32(b.body.source)
            && s[65..129] == b.signature
            && s[129..137] == Bytes8Le(b.work)
  {
    hide Bytes32, Bytes16, Bytes8, Bytes8Le;
  }

  lemma LegacyOpenLayout(b: Block, tail: seq<Byte>)
    requires b.body.LegacyOpen?
    ensures var s := PutBlock(b, tail);
            && |s| == 169 + |tail| && s[0] == 4 && s[169..] == tail
            && s[1..33] == Bytes32(b.body.source)
            && s[33..65] == Bytes32(b.body.representative)
            && s[65..97] == Bytes32(b.body.account)
            && s[97..161] == b.signature
            && s[161..169] == Bytes8Le(b.work)
  {
    hide Bytes32, Bytes16, Bytes8, Bytes8Le;
  }

  lemma LegacyChangeLayout(b: Block, tail: seq<Byte>)
    requires b.body.LegacyChange?
    ensures var s := PutBlock(b, tail);
            && |s| == 137 + |tail| && s[0] == 5 && s[137..] == tail
            && s[1..33] == Bytes32(b.body.previous)
            && s[33..65] == Bytes32(b.body.representative)
            && s[65..129] == b.signature
            && s[129..137] == Bytes8Le(b.work)
  {
    hide Bytes32, Bytes16, Bytes8, Bytes8Le;
  }

  lemma StateLayout(b: Block, tail: seq<Byte>)
    requires b.body.State?
    ensures var s := PutBlock(b, tail);
            && |s| == 217 + |tail| && s[0] == 6 && s[217..] == tail
            && s[1..33] == Bytes32(b.body.account)
            && s[33..65] == Bytes32(b.body.previous)
            && s[65..97] == Bytes32(b.body.representative)
            && s[97..113] == Bytes16(b.body.balance)
            && s[113..145] == Bytes32(b.body.link)
            && s[145..209] == b.signature
            && s[209..217] == Bytes8(b.work)
  {
    hide Bytes32, Bytes16, Bytes8, Bytes8Le;
  }

  /** Where the parts of a concatenation are. */
  lemma Parts(a: seq<Byte>, b: seq<Byte>, c: seq<Byte>, d: seq<Byte>, e: seq<Byte>)
    ensures var s := a + (b + (c + (d + e)));
            && |s| == |a| + |b| + |c| + |d| + |e|
            && s[..|a|] == a && s[|a|..|a| + |b|] == b && s[|a| + |b|..|a| + |b| + |c|] == c
            && s[|a| + |b| + |c|..|a| + |b| + |c| + |d|] == d && s[|a| + |b| + |c| + |d|..] == e
  {
  }

  /** The sideband fields of each kind of block, in order. */
  lemma SidebandLayout(sb: Sideband, body: Body)
    ensures var s := PutSideband(sb, body, []);
            && |s| >= 40 && s[..32] == Bytes32(sb.successor)
            && (body.LegacySend? ==>
                  |s| == 80 && s[32..64] == Bytes32(sb.account) && s[64..72] == Bytes8(sb.height) &&
                  s[72..] == Bytes8(sb.timestamp))
            && (body.LegacyReceive? || body.LegacyChange? ==>
                  |s| == 96 && s[32..64] == Bytes32(sb.account) && s[64..72] == Bytes8(sb.height) &&
                  s[72..88] == Bytes16(sb.balance) && s[88..] == Bytes8(sb.timestamp))
            && (body.LegacyOpen? ==> |s| == 56 && s[32..48] == Bytes16(sb.balance) && s[48..] == Bytes8(sb.timestamp))
            && (body.State? ==>
                  |s| == 50 && s[32..40] == Bytes8(sb.height) && s[40..48] == Bytes8(sb.timestamp) &&
                  s[48..] == [Packed(sb.details), EpochCode(sb.sourceEpoch)])
  {
    hide Bytes32, Bytes16, Bytes8, Packed, EpochCode;
    var successor, account, height := Bytes32(sb.successor), Bytes32(sb.account), Bytes8(sb.height);
    var balance, timestamp := Bytes16(sb.balance), Bytes8(sb.timestamp);
    match body
    case LegacySend(_, _, _) =>
      Parts(successor, account, height, timestamp, []);
    case LegacyReceive(_, _) =>
      Parts(successor, account, height, balance, timestamp + []);
    case LegacyChange(_, _) =>
      Parts(successor, account, height, balance, timestamp + []);
    case LegacyOpen(_, _, _) =>
      Parts(successor, balance, timestamp, [], []);
    case State(_, _, _, _, _) =>
      Parts(successor, height, timestamp, [Packed(sb.details), EpochCode(sb.sourceEpoch)] + [], []);
  }

  /** One byte of details: the epoch in the low bits, then the flags. */
  lemma DetailsByte(d: Details)
    ensures Packed(d) == EpochCode(d.epoch) + (if d.isSend then 128 else 0) + (if d.isReceive then 64 else 0) +
                         (if d.isEpoch then 32 else 0)
    ensures EpochCode(Invalid) == 0 && EpochCode(Unspecified) == 1 && EpochCode(Epoch0) == 2
    ensures EpochCode(Epoch1) == 3 && EpochCode(Epoch2) == 4
  {
  }

  /** What is filled in for each kind of block when it is loaded. */
  lemma RefilledFields(b: SavedBlock)
    ensures var was, now := b.sideband, Refill(b).sideband;
            && Refill(b).block == b.block && now.timestamp == was.timestamp && now.successor == was.successor
            && now.height == (if b.block.body.LegacyOpen? then 1 else was.height)
            && (match b.block.body
                case LegacySend(_, _, balance) =>
                  now.account == was.account && now.balance == balance && now.sourceEpoch == Epoch0 &&
                  now.details.epoch == Epoch0 && now.details.isSend && !now.details.isReceive && !now.details.isEpoch
                case LegacyOpen(_, _, account) =>
                  now.account == account && now.balance == was.balance && now.sourceEpoch == Epoch0 &&
                  now.details.epoch == Epoch0 && !now.details.isSend && now.details.isReceive && !now.details.isEpoch
                case LegacyReceive(_, _) =>
                  now.account == was.account && now.balance == was.balance && now.sourceEpoch == Epoch0 &&
                  now.details.epoch == Epoch0 && !now.details.isSend && now.details.isReceive && !now.details.isEpoch
                case LegacyChange(_, _) =>
                  now.account == was.account && now.balance == was.balance && now.sourceEpoch == Epoch0 &&
                  now.details.epoch == Epoch0 && !now.details.isSend && !now.details.isReceive && !now.details.isEpoch
                case State(account, _, _, balance, _) =>
                  now.account == account && now.balance == balance && now.details == was.details &&
                  now.sourceEpoch == was.sourceEpoch)
  {
  }

  /** A block is read exactly from enough bytes behind a known type. */
  lemma ReadBlockAccepts(s: seq<Byte>)
    ensures ReadBlock(s).Got? <==>
              |s| > 0 && (|| (s[0] == 2 && |s| >= 153) || (s[0] == 3 && |s| >= 137) || (s[0] == 4 && |s| >= 169)
                          || (s[0] == 5 && |s| >= 137) || (s[0] == 6 && |s| >= 217))
  {
    hide Read32, Read16, Read8, Read8Le, Bytes32, Bytes16, Bytes8, Bytes8Le;
  }

  /** So is a sideband, if the details and the epoch of a state block are known codes. */
  lemma ReadSidebandAccepts(s: seq<Byte>, body: Body)
    ensures ReadSideband(s, body).Got? <==>
              match body
              case LegacySend(_, _, _) => |s| >= 80
              case LegacyReceive(_, _) => |s| >= 96
              case LegacyChange(_, _) => |s| >= 96
              case LegacyOpen(_, _, _) => |s| >= 56
              case State(_, _, _, _, _) => |s| >= 50 && s[48] % 32 <= 4 && s[49] <= 4
  {
    hide Read32, Read16, Read8, Bytes32, Bytes16, Bytes8;
  }

  // ---------------------------------------------------------------------------------------------
  // Patching the successor

  function WithSuccessor(b: SavedBlock, h: Hash): SavedBlock {
    b.(sideband := b.sideband.(successor := h))
  }

  /** 32 bytes at `offset` replaced by those of `h`. */
  function Overwritten(data: seq<Byte>, offset: nat, h: Hash): seq<Byte>
    requires offset + 32 <= |data|
  {
    data[..offset] + Bytes32(h) + data[offset + 32..]
  }

  /** The successor sits at the very start of the sideband. */
  lemma SuccessorPlace(b: SavedBlock, size: nat)
    requires |PutSideband(b.sideband, b.block.body, [])| == size && size >= 32
    ensures |SavedBytes(b)| >= size && SavedBytes(b)[0] == TypeCode(b.block.body)
    ensures var offset := |SavedBytes(b)| - size;
            SavedBytes(b)[offset..offset + 32] == Bytes32(b.sideband.successor)
    ensures forall h: Hash ::
              Overwritten(SavedBytes(b), |SavedBytes(b)| - size, h) == SavedBytes(WithSuccessor(b, h))
  {
    var head := PutBlock(b.block, []);
    PutBlockAppends(b.block, PutSideband(b.sideband, b.block.body, []));
    var side := PutSideband(b.sideband, b.block.body, []);
    var data := SavedBytes(b);
    assert data == head + side && |head| == |data| - size;
    assert side[..32] == Bytes32(b.sideband.successor);
    assert data[|head|..|head| + 32] == side[..32];
    forall h: Hash
      ensures Overwritten(data, |head|, h) == SavedBytes(WithSuccessor(b, h))
    {
      var side' := PutSideband(WithSuccessor(b, h).sideband, b.block.body, []);
      PutBlockAppends(b.block, side');
      assert side' == Bytes32(h) + side[32..];
      assert data[..|head|] == head && data[|head| + 32..] == side[32..];
    }
  }
}
