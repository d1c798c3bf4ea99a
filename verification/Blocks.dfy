/** Blocks of the block lattice, their sideband, and the blocks they depend on. */
module Blocks {
  import opened Types

  datatype Epoch = Invalid | Unspecified | Epoch0 | Epoch1 | Epoch2

  /** The hashed part of a block. */
  datatype Body =
    | LegacySend(previous: Hash, destination: Account, balance: Amount)
    | LegacyReceive(previous: Hash, source: Hash)
    | LegacyOpen(source: Hash, representative: PublicKey, account: Account)
    | LegacyChange(previous: Hash, representative: PublicKey)
    | State(account: Account, previous: Hash, representative: PublicKey, balance: Amount, link: U256)

  type Signature = s: seq<Byte> | |s| == 64 witness seq(64, _ => 0)

  datatype Block = Block(body: Body, signature: Signature, work: U64)

  datatype Details = Details(epoch: Epoch, isSend: bool, isReceive: bool, isEpoch: bool)

  /** What the ledger records beside a block when it saves it. */
  datatype Sideband = Sideband(
    height: U64,
    timestamp: U64,
    successor: Hash,
    account: Account,
    balance: Amount,
    details: Details,
    sourceEpoch: Epoch)

  /** The network constants that decide which links name a block. */
  datatype Constants = Constants(genesisHash: Hash, genesisAccount: Account, epochLinks: set<U256>)

  datatype SavedBlock = SavedBlock(block: Block, sideband: Sideband) {

    function Account(): Account {
      match block.body
      case LegacyOpen(_, _, account) => account
      case State(account, _, _, _, _) => account
      case _ => sideband.account
    }

    function Height(): nat { sideband.height }

    function Timestamp(): nat { sideband.timestamp }

    function Previous(): Hash {
      if block.body.LegacyOpen? then 0 else block.body.previous
    }

    function IsSend(): bool {
      match block.body
      case LegacySend(_, _, _) => true
      case State(_, _, _, _, _) => sideband.details.isSend
      case _ => false
    }

    /** At most two blocks: the previous one and the one the link or source names; 0 for none. */
    function DependentBlocks(c: Constants): (Hash, Hash) {
      match block.body
      case LegacySend(previous, _, _) => (previous, 0)
      case LegacyChange(previous, _) => (previous, 0)
      case LegacyReceive(previous, source) => (previous, source)
      case LegacyOpen(source, _, account) => if account == c.genesisAccount then (0, 0) else (source, 0)
      case State(_, previous, _, _, link) =>
        (previous, if !IsSend() && link !in c.epochLinks then link else 0)
    }

    predicate DependsOn(c: Constants, d: Hash) {
      d != 0 && (d == DependentBlocks(c).0 || d == DependentBlocks(c).1)
    }

    /** The same block, saved at another time. */
    function SavedAt(now: U64): SavedBlock {
      this.(sideband := sideband.(timestamp := now))
    }
  }

  /** A block always depends on the block before it in its chain, and saving it later changes no dependency. */
  lemma DependsOnPrevious(b: SavedBlock, c: Constants, now: U64)
    ensures b.Previous() != 0 ==> b.DependsOn(c, b.Previous())
    ensures b.SavedAt(now).DependentBlocks(c) == b.DependentBlocks(c)
  {
  }

  /** A block depends on its predecessor and, if it receives, on the block that sent; on nothing else. */
  lemma DependencyFields(b: SavedBlock, c: Constants, d: Hash)
    ensures b.DependsOn(c, d) <==>
              d != 0 &&
              match b.block.body
              case LegacySend(previous, destination, balance) => d == previous
              case LegacyChange(previous, representative) => d == previous
              case LegacyReceive(previous, source) => d == previous || d == source
              case LegacyOpen(source, representative, account) => d == source && account != c.genesisAccount
              case State(account, previous, representative, balance, link) =>
                d == previous || (d == link && !b.sideband.details.isSend && link !in c.epochLinks)
  {
  }

  /** Where the account, the predecessor, the height and the time of a block are found. */
  lemma FieldsOf(b: SavedBlock)
    ensures b.Height() == b.sideband.height && b.Timestamp() == b.sideband.timestamp
    ensures b.block.body.LegacyOpen? ==> b.Previous() == 0 && b.Account() == b.block.body.account
    ensures !b.block.body.LegacyOpen? ==> b.Previous() == b.block.body.previous
    ensures b.block.body.State? ==> b.Account() == b.block.body.account
    ensures !b.block.body.State? && !b.block.body.LegacyOpen? ==> b.Account() == b.sideband.account
  {
  }
}
