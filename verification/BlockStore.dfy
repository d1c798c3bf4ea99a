/**
  The block table. Rows are bytes; the link to the next block of a chain is patched into the stored
  bytes without decoding them. `blocks` is the table of records that the rows stand for.
 */
module BlockStore {
  import opened Types
  import opened Bytes
  import opened Blocks
  import opened BlockCodec

  /** What saving `b` under `hash` does to the table of records. */
  function PutRecord(blocks: map<Hash, SavedBlock>, hash: Hash, b: SavedBlock): map<Hash, SavedBlock>
    requires b.Previous() == 0 || b.Previous() in blocks || b.Previous() == hash
  {
    var saved := blocks[hash := Refill(b)];
    if b.Previous() == 0 then saved
    else saved[b.Previous() := WithSuccessor(saved[b.Previous()], hash)]
  }

  /** Every row is the encoding of its record, and the record is what decoding gives back. */
  ghost predicate Encodes(rows: map<Hash, seq<Byte>>, blocks: map<Hash, SavedBlock>) {
    && rows.Keys == blocks.Keys
    && forall h | h in rows :: rows[h] == SavedBytes(blocks[h]) && Canonical(blocks[h])
  }

  lemma EncodesPut(rows: map<Hash, seq<Byte>>, blocks: map<Hash, SavedBlock>, hash: Hash, b: SavedBlock)
    requires Encodes(rows, blocks)
    ensures Encodes(rows[hash := SavedBytes(b)], blocks[hash := Refill(b)])
  {
    SavedBytesRefill(b);
  }

  lemma EncodesPatch(rows: map<Hash, seq<Byte>>, blocks: map<Hash, SavedBlock>, hash: Hash, h: Hash, size: nat)
    requires Encodes(rows, blocks) && hash in rows && size >= 32
    requires |PutSideband(blocks[hash].sideband, blocks[hash].block.body, [])| == size
    ensures |rows[hash]| >= size
    ensures Encodes(rows[hash := Overwritten(rows[hash], |rows[hash]| - size, h)], blocks[hash := WithSuccessor(blocks[hash], h)])
  {
    hide SavedBytes, Canonical, PutSideband, Overwritten, WithSuccessor;
    SuccessorPlace(blocks[hash], size);
    SuccessorKeepsCanonical(blocks[hash], h);
  }

  /** Saving in terms of the records' fields. */
  lemma PutRecordFields(blocks: map<Hash, SavedBlock>, hash: Hash, b: SavedBlock)
    requires b.Previous() == 0 || b.Previous() in blocks || b.Previous() == hash
    ensures var saved, p := PutRecord(blocks, hash, b), b.Previous();
            && saved.Keys == blocks.Keys + {hash} && saved[hash].block == b.block
            && (p != 0 ==> saved[p].sideband.successor == hash)
            && (p != 0 && p != hash ==>
                  saved[p].block == blocks[p].block &&
                  saved[p].sideband.(successor := blocks[p].sideband.successor) == blocks[p].sideband)
            && (forall h | h in blocks && h != hash && h != p :: saved[h] == blocks[h])
            && (p != hash ==> ReadSaved(SavedBytes(b)) == Got(saved[hash], []))
            && saved == if p == 0 then blocks[hash := Refill(b)]
                        else blocks[hash := Refill(b)][p := WithSuccessor(blocks[hash := Refill(b)][p], hash)]
  {
    hide ReadSaved, SavedBytes, Refill, Canonical;
    SavedRoundTrip(b);
    RefilledFields(b);
  }

  lemma SuccessorKeepsCanonical(b: SavedBlock, h: Hash)
    requires Canonical(b)
    ensures Canonical(WithSuccessor(b, h))
  {
  }

  class LmdbBlockStore {
    var rows: map<Hash, seq<Byte>>
    ghost var blocks: map<Hash, SavedBlock>

    ghost predicate Valid()
      reads this
    {
      Encodes(rows, blocks)
    }

    constructor ()
      ensures Valid() && blocks == map[]
    {
      rows := map[];
      blocks := map[];
    }

    /** Saves a block and links its predecessor to it. The predecessor must be there. */
    method Put(hash: Hash, b: SavedBlock)
      requires Valid() && (b.Previous() == 0 || b.Previous() in blocks || b.Previous() == hash)
      modifies this
      ensures Valid() && blocks == PutRecord(old(blocks), hash, b)
      // the predecessor is linked to the new block and otherwise as before, and so is every other record
      ensures blocks.Keys == old(blocks).Keys + {hash}
      ensures b.Previous() != 0 ==> blocks[b.Previous()].sideband.successor == hash
      ensures b.Previous() != 0 && b.Previous() != hash ==>
                var was, now := old(blocks)[b.Previous()], blocks[b.Previous()];
                now.block == was.block && now.sideband.(successor := was.sideband.successor) == was.sideband
      ensures forall h | h in old(blocks) && h != hash && h != b.Previous() :: blocks[h] == old(blocks)[h]
      // the new block reads back as it was saved, with the fields its kind leaves out filled in
      ensures blocks[hash].block == b.block && (b.Previous() != hash ==> ReadSaved(SavedBytes(b)) == Got(blocks[hash], []))
    {
      PutRecordFields(blocks, hash, b);
      hide PutRecord, WithSuccessor, ReadSaved, SavedBytes, Canonical, Refill;
      EncodesPut(rows, blocks, hash, b);
      rows, blocks := rows[hash := SavedBytes(b)], blocks[hash := Refill(b)];
      if b.Previous() != 0 {
        Patch(b.Previous(), hash);
      }
    }

    /** Overwrites the successor of a row in place. */
    method Patch(hash: Hash, successor: Hash)
      requires Valid() && hash in blocks
      modifies this
      ensures Valid() && blocks == old(blocks)[hash := WithSuccessor(old(blocks)[hash], successor)]
      ensures blocks[hash].sideband.successor == successor && blocks[hash].block == old(blocks)[hash].block
    {
      hide SavedBytes, Canonical, PutSideband, Overwritten, TypeCode;
      var data := rows[hash];
      ghost var b := blocks[hash];
      RowStart(rows, blocks, hash);
      var size := SidebandSize(data[0]);
      EncodesPatch(rows, blocks, hash, successor, size);
      rows := rows[hash := Overwritten(data, |data| - size, successor)];
      blocks := blocks[hash := WithSuccessor(b, successor)];
    }

    method SuccessorClear(hash: Hash)
      requires Valid() && hash in blocks
      modifies this
      ensures Valid() && blocks == old(blocks)[hash := WithSuccessor(old(blocks)[hash], 0)]
      ensures blocks[hash].sideband.successor == 0
    {
      Patch(hash, 0);
    }

    /** The successor read straight from the bytes is the one of the decoded record. */
    method Successor(hash: Hash) returns (r: Option<Hash>)
      requires Valid()
      ensures r == if hash in blocks && blocks[hash].sideband.successor != 0 then Some(blocks[hash].sideband.successor) else None
    {
      hide SavedBytes, Canonical, PutSideband, Overwritten, TypeCode;
      if hash !in rows {
        return None;
      }
      var data := rows[hash];
      RowStart(rows, blocks, hash);
      var size := SidebandSize(data[0]);
      SuccessorPlace(blocks[hash], size);
      var offset := |data| - size;
      ReadsBack32(blocks[hash].sideband.successor, []);
      assert Bytes32(blocks[hash].sideband.successor) + [] == data[offset..offset + 32];
      var successor := Read32(data[offset..offset + 32]).value;
      r := if successor == 0 then None else Some(successor);
    }

    method Get(hash: Hash) returns (r: Option<SavedBlock>)
      requires Valid()
      ensures r == if hash in blocks then Some(blocks[hash]) else None
    {
      if hash !in rows {
        return None;
      }
      SavedRoundTrip(blocks[hash]);
      r := Some(ReadSaved(rows[hash]).value);
    }

    method Del(hash: Hash)
      requires Valid() && hash in blocks
      modifies this
      ensures Valid() && blocks == old(blocks) - {hash}
    {
      rows, blocks := rows - {hash}, blocks - {hash};
    }
  }

  lemma RowStart(rows: map<Hash, seq<Byte>>, blocks: map<Hash, SavedBlock>, hash: Hash)
    requires Encodes(rows, blocks) && hash in rows
    ensures |rows[hash]| > 0 && rows[hash][0] == TypeCode(blocks[hash].block.body)
  {
  }
}
