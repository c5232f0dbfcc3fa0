/** Metablocks of the v0.2.0 format: their bytes, their checksum and the choice between the two
    slots when a file is opened. */
module MetaBlocks {
  import opened Messages
  import opened Wire

  const SECTOR: nat := 512
  const META_BLOCK_POSITION: nat := 14
  const META_BLOCK_SIZE: nat := 56
  const HASH_SIZE: nat := 20
  const MAGIC: Bytes := [0x23, 0x17, 0x23, 0x17]

  datatype MetaBlock = MetaBlock(txid: nat, numRows: nat, indexOffset: nat, indexSize: nat, fileSize: nat)

  /** The fields fit the widths they are written with. */
  predicate InRange(mb: MetaBlock) {
    mb.txid < TWO_64 && mb.numRows < TWO_64 && mb.indexOffset < TWO_64 && mb.indexSize < TWO_32 && mb.fileSize < TWO_64
  }

  type Hash = Bytes -> Bytes

  /** A checksum of the right size under which the block of zeros is not valid. */
  ghost predicate Sane(hash: Hash) {
    (forall bs :: |hash(bs)| == HASH_SIZE) && hash(Zeros(META_BLOCK_SIZE - HASH_SIZE)) != Zeros(HASH_SIZE)
  }

  lemma {:induction false} SomeHashIsSane()
    ensures Sane((bs: Bytes) => seq(20, _ => 1))
  {
    var h := seq(20, _ => 1 as Byte);
    assert h[0] == 1 && Zeros(20)[0] == 0;
  }

  function Fields(mb: MetaBlock): (r: Bytes)
    ensures |r| == 36
  {
    UIntBytes(mb.txid, 8) + UIntBytes(mb.numRows, 8) + UIntBytes(mb.indexOffset, 8) + UIntBytes(mb.indexSize, 4) + UIntBytes(mb.fileSize, 8)
  }

  function WriteMetaBlock(mb: MetaBlock, hash: Hash): Bytes {
    Fields(mb) + hash(Fields(mb))
  }

  function ReadMetaBlock(bs: Bytes, hash: Hash): Option<MetaBlock>
    requires |bs| == META_BLOCK_SIZE
  {
    if hash(bs[..36]) != bs[36..] then None
    else Some(MetaBlock(UIntOf(bs[..8]), UIntOf(bs[8..16]), UIntOf(bs[16..24]), UIntOf(bs[24..28]), UIntOf(bs[28..36])))
  }

  /** The bytes of a metablock: transaction id, number of rows, offset and size of the index page,
      file size, and the checksum of these 36 bytes. */
  lemma {:induction false} BlockBytes(mb: MetaBlock, hash: Hash)
    requires InRange(mb)
    ensures var bs := WriteMetaBlock(mb, hash);
            && |bs| >= 36
            && UIntOf(bs[..8]) == mb.txid && UIntOf(bs[8..16]) == mb.numRows && UIntOf(bs[16..24]) == mb.indexOffset
            && UIntOf(bs[24..28]) == mb.indexSize && UIntOf(bs[28..36]) == mb.fileSize && bs[36..] == hash(bs[..36])
  {
    hide UIntBytes, UIntOf, Pow256;
    var bs := WriteMetaBlock(mb, hash);
    Pow256Values();
    assert bs[..36] == Fields(mb) && bs[36..] == hash(Fields(mb));
    assert bs[..8] == UIntBytes(mb.txid, 8) && bs[8..16] == UIntBytes(mb.numRows, 8) && bs[16..24] == UIntBytes(mb.indexOffset, 8);
    assert bs[24..28] == UIntBytes(mb.indexSize, 4) && bs[28..36] == UIntBytes(mb.fileSize, 8);
    UIntRoundTrip(mb.txid, 8);
    UIntRoundTrip(mb.numRows, 8);
    UIntRoundTrip(mb.indexOffset, 8);
    UIntRoundTrip(mb.indexSize, 4);
    UIntRoundTrip(mb.fileSize, 8);
  }

  lemma {:induction false} MetaBlockRoundTrip(mb: MetaBlock, hash: Hash)
    requires Sane(hash) && InRange(mb)
    ensures |WriteMetaBlock(mb, hash)| == 56
    ensures ReadMetaBlock(WriteMetaBlock(mb, hash), hash) == Some(mb)
  {
    hide UIntBytes, UIntOf;
    BlockBytes(mb, hash);
    assert WriteMetaBlock(mb, hash)[..36] == Fields(mb);
  }

  lemma {:induction false} ZeroBlockInvalid(bs: Bytes, hash: Hash)
    requires Sane(hash) && bs == Zeros(META_BLOCK_SIZE)
    ensures ReadMetaBlock(bs, hash) == None
  {
    assert bs[..36] == Zeros(36) && bs[36..] == Zeros(20);
  }

  /** Byte position of the slot for a transaction id. */
  function SlotOffset(txid: nat): nat {
    META_BLOCK_POSITION + META_BLOCK_SIZE * (txid % 2)
  }

  /** The block that opening a file selects from the valid ones: the only one, or the one with
      the larger transaction id. */
  function Choose(a: Option<MetaBlock>, b: Option<MetaBlock>): Option<MetaBlock> {
    match (a, b)
    case (None, _) => b
    case (_, None) => a
    case (Some(x), Some(y)) => if x.txid > y.txid then a else b
  }
}
