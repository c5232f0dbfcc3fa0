/** What opening the file finds after a crash at any point of any run of the commit protocol. */
module Recovery {
  import opened Messages
  import opened Wire
  import opened MetaBlocks
  import opened CrashSafety

  function BlockOf(c: Option<Commit>): Option<MetaBlock> {
    if c.None? then None else Some(c.value.mb)
  }

  /** Opening the file finds this commit (or none), and all its page data is there. */
  ghost predicate Finds(img: Image, c: Option<Commit>, hash: Hash) {
    Recover(img, hash) == BlockOf(c) && (c.Some? ==> Holds(img, c.value.pages))
  }

  // ---------------------------------------------------------------------------
  // What opening a file accepts
  // ---------------------------------------------------------------------------

  /** The slot at this offset holds 36 bytes and behind them their checksum. */
  predicate SlotValid(img: Image, off: nat, hash: Hash) {
    hash(ImageBytes(img, off, 36)) == ImageBytes(img, off + 36, 20)
  }

  /** The block found is read from the slot at this offset. */
  predicate ReadFrom(img: Image, off: nat, mb: MetaBlock) {
    && mb.txid == UIntOf(ImageBytes(img, off, 8)) && mb.numRows == UIntOf(ImageBytes(img, off + 8, 8))
    && mb.indexOffset == UIntOf(ImageBytes(img, off + 16, 8)) && mb.indexSize == UIntOf(ImageBytes(img, off + 24, 4))
    && mb.fileSize == UIntOf(ImageBytes(img, off + 28, 8))
  }

  lemma {:induction false} SlotRead(img: Image, off: nat, hash: Hash)
    ensures var r := ReadMetaBlock(ImageBytes(img, off, 56), hash);
            (r.Some? <==> SlotValid(img, off, hash)) && (r.Some? ==> ReadFrom(img, off, r.value))
  {
    hide UIntOf;
    var bs := ImageBytes(img, off, 56);
    assert bs[..36] == ImageBytes(img, off, 36) && bs[36..] == ImageBytes(img, off + 36, 20);
    assert bs[..8] == ImageBytes(img, off, 8) && bs[8..16] == ImageBytes(img, off + 8, 8);
    assert bs[16..24] == ImageBytes(img, off + 16, 8) && bs[24..28] == ImageBytes(img, off + 24, 4);
    assert bs[28..36] == ImageBytes(img, off + 28, 8);
  }

  /** Any file is opened exactly when it begins with the magic bytes and version 2 and one of the
      slots, at 14 and 70, is valid; the block found is read from a valid slot, and from the one
      with the larger transaction id when both are. */
  lemma {:induction false} OpensIff(img: Image, hash: Hash)
    ensures Recover(img, hash).Some? <==>
      img(0) == 0x23 && img(1) == 0x17 && img(2) == 0x23 && img(3) == 0x17 && img(4) == 2
      && (SlotValid(img, 14, hash) || SlotValid(img, 70, hash))
    ensures Recover(img, hash).Some? ==>
      var mb := Recover(img, hash).value;
      || (ReadFrom(img, 14, mb) && SlotValid(img, 14, hash)
          && (SlotValid(img, 70, hash) ==> mb.txid > UIntOf(ImageBytes(img, 70, 8))))
      || (ReadFrom(img, 70, mb) && SlotValid(img, 70, hash)
          && (SlotValid(img, 14, hash) ==> mb.txid >= UIntOf(ImageBytes(img, 14, 8))))
  {
    hide UIntOf, ReadMetaBlock, SlotValid;
    SlotsApart();
    SlotRead(img, 14, hash);
    SlotRead(img, 70, hash);
    var bs := ImageBytes(img, 0, 4);
    assert bs == [img(0), img(1), img(2), img(3)];
  }

  // ---------------------------------------------------------------------------
  // Reading a crash image
  // ---------------------------------------------------------------------------

  lemma {:induction false} CrashByte(disk: Disk, img: Image, i: nat, b: Byte)
    requires CrashImage(disk, img) && Pinned(disk, i, b)
    ensures img(i) == b
  {
    var keep :| |keep| == |disk.pending| && (forall j: nat :: img(j) == PutSome(disk.durable, disk.pending, keep)(j));
    PinnedSurvives(disk.durable, disk.pending, keep, i, b);
  }

  lemma {:induction false} CrashSlot(disk: Disk, img: Image, k: nat, c: Option<Commit>, hash: Hash)
    requires CrashImage(disk, img) && SlotSettled(disk, k, c, hash) && Sane(hash) && (c.Some? ==> InRange(c.value.mb))
    ensures ReadMetaBlock(ImageBytes(img, SlotOffset(k), META_BLOCK_SIZE), hash) == BlockOf(c)
  {
    var bs, read := SlotBytes(c, hash), ImageBytes(img, SlotOffset(k), META_BLOCK_SIZE);
    forall i | 0 <= i < META_BLOCK_SIZE ensures read[i] == bs[i] {
      CrashByte(disk, img, SlotOffset(k) + i, bs[i]);
    }
    assert read == bs;
    if c.Some? {
      MetaBlockRoundTrip(c.value.mb, hash);
    } else {
      ZeroBlockInvalid(bs, hash);
    }
  }

  lemma {:induction false} CrashPages(disk: Disk, img: Image, pages: Pages)
    requires CrashImage(disk, img) && PagesSettled(disk, pages)
    ensures Holds(img, pages)
  {
    forall off, i | off in pages && 0 <= i < |pages[off].data| ensures img(off + i) == pages[off].data[i] {
      CrashByte(disk, img, off + i, pages[off].data[i]);
    }
  }

  lemma {:induction false} CrashHeader(disk: Disk, img: Image, header: Bytes)
    requires CrashImage(disk, img) && HeaderSettled(disk, header) && GoodHeader(header)
    ensures ImageBytes(img, 0, 4) == MAGIC && img(4) == 2
  {
    forall i | 0 <= i < 5 ensures img(i) == header[i] {
      CrashByte(disk, img, i, header[i]);
    }
    assert ImageBytes(img, 0, 4) == header[..4];
  }

  /** A disk whose slots and header are settled is opened at the newest commit. */
  lemma {:induction false} OpensAtNewest(disk: Disk, img: Image, header: Bytes, slots: seq<Option<Commit>>, last: Option<Commit>, hash: Hash)
    requires CrashImage(disk, img) && Sane(hash) && SlotsSettled(disk, slots, hash) && GoodHeader(header) && LastIsNewest(last, slots)
    requires forall k :: 0 <= k < 2 && slots[k].Some? ==> InRange(slots[k].value.mb)
    requires last.Some? ==> HeaderSettled(disk, header)
    ensures Recover(img, hash) == BlockOf(last)
  {
    hide CrashImage, SlotSettled, HeaderSettled, GoodHeader, Sane, ReadMetaBlock, ImageBytes, SlotOffset, InRange;
    CrashSlot(disk, img, 0, slots[0], hash);
    CrashSlot(disk, img, 1, slots[1], hash);
    if last.Some? {
      CrashHeader(disk, img, header);
    }
  }

  // ---------------------------------------------------------------------------
  // Crash safety of every reachable state
  // ---------------------------------------------------------------------------

  /** After a crash anywhere, opening the file finds the last completed commit or the one whose
      metablock was in flight, complete with its page data; never an older one. */
  lemma {:induction false} CrashSafe(s: State, img: Image, hash: Hash)
    requires Inv(s, hash) && Sane(hash) && CrashImage(s.disk, img)
    ensures Finds(img, s.last, hash) || (s.phase.Issued? && Finds(img, Some(s.phase.tx), hash))
  {
    hide SlotsSettled, HeaderSettled, CrashImage, GoodHeader, Cached, Laid, Extends, Finds, Sane, PagesSettled, WriteMetaBlock;
    if s.phase.Issued? {
      CrashIssued(s, img, hash);
    } else {
      CrashSettled(s, s.disk, img, hash);
    }
  }

  lemma {:induction false} CrashSettled(s: State, disk: Disk, img: Image, hash: Hash)
    requires Inv(s, hash) && Sane(hash) && CrashImage(disk, img) && SlotsSettled(disk, s.slots, hash)
    requires s.last.Some? ==> HeaderSettled(disk, s.header) && PagesSettled(disk, s.last.value.pages)
    ensures Finds(img, s.last, hash)
  {
    hide SlotsSettled, HeaderSettled, PagesSettled, CrashImage, GoodHeader, Cached, Laid, Extends, Recover;
    OpensAtNewest(disk, img, s.header, s.slots, s.last, hash);
    if s.last.Some? {
      CrashPages(disk, img, s.last.value.pages);
    }
  }

  lemma {:induction false} CrashIssued(s: State, img: Image, hash: Hash)
    requires Inv(s, hash) && Sane(hash) && CrashImage(s.disk, img) && s.phase.Issued?
    ensures Finds(img, s.last, hash) || Finds(img, Some(s.phase.tx), hash)
  {
    hide SlotsSettled, HeaderSettled, CrashImage, GoodHeader, Cached, Laid, Extends, Sane, PagesSettled, WriteMetaBlock, Fsync, Recover, Holds, SlotOffset;
    var tx := s.phase.tx;
    var keep := IssuedImage(s, img, hash);
    if !keep {
      LastStillThere(s);
      CrashSettled(s, s.disk.(pending := []), img, hash);
    } else {
      BlockSized(s, tx, hash);
      SlotWritten(s.disk.durable, s.slots, tx, hash);
      FsyncKeepsHeader(s.disk, s.header);
      OpensAtNewest(Fsync(s.disk), img, s.header, s.slots[tx.mb.txid % 2 := Some(tx)], Some(tx), hash);
      CrashPages(s.disk, img, tx.pages);
    }
  }

  /** The only pending write is the metablock, in one sector: it is there or it is not. */
  lemma {:induction false} IssuedImage(s: State, img: Image, hash: Hash) returns (keep: bool)
    requires Inv(s, hash) && CrashImage(s.disk, img) && s.phase.Issued?
    ensures CrashImage(if keep then Fsync(s.disk) else s.disk.(pending := []), img)
  {
    hide SlotsSettled, HeaderSettled, PagesSettled, GoodHeader, Cached, Laid, Extends, CommitSettled, WriteMetaBlock, PutAll, PutSome;
    var w := s.disk.pending[0];
    assert s.disk.pending == [w];
    keep := OnePending(s.disk.durable, w, img);
    PutOne(s.disk.durable, w);
  }

  lemma {:induction false} OnePending(durable: Image, w: Write, img: Image) returns (keep: bool)
    requires CrashImage(Disk(durable, [w]), img)
    ensures CrashImage(Disk(if keep then Put(durable, w) else durable, []), img)
  {
    var kept :| |kept| == |[w]| && (forall j: nat :: img(j) == PutSome(durable, [w], kept)(j));
    keep := kept[0];
    var d := if keep then Put(durable, w) else durable;
    assert kept[1..] == [] && [w][1..] == [];
    var none: seq<bool> := [];
    assert PutSome(durable, [w], kept) == PutSome(d, [], none);
    assert forall j: nat :: img(j) == PutSome(d, [], none)(j);
  }

  lemma {:induction false} LastStillThere(s: State)
    requires |s.slots| == 2 && SlotFits(s, 0) && SlotFits(s, 1) && LastIsNewest(s.last, s.slots)
    requires s.last.Some? ==> HeaderSettled(s.disk, s.header)
    ensures s.last.Some? ==> HeaderSettled(s.disk.(pending := []), s.header) && PagesSettled(s.disk.(pending := []), s.last.value.pages)
  {
  }

  // ---------------------------------------------------------------------------
  // Whole runs
  // ---------------------------------------------------------------------------

  ghost predicate Runs(s: State, actions: seq<Action>, hash: Hash)
    decreases |actions|
  {
    |s.slots| == 2 && (actions != [] ==> Enabled(s, actions[0]) && Runs(Step(s, actions[0], hash), actions[1..], hash))
  }

  ghost function After(s: State, actions: seq<Action>, hash: Hash): State
    requires Runs(s, actions, hash)
    decreases |actions|
  {
    if actions == [] then s else After(Step(s, actions[0], hash), actions[1..], hash)
  }

  lemma {:induction false} RunInv(s: State, actions: seq<Action>, hash: Hash)
    requires Inv(s, hash) && Sane(hash) && Runs(s, actions, hash)
    ensures Inv(After(s, actions, hash), hash)
    decreases |actions|
  {
    if actions != [] {
      StepInv(s, actions[0], hash);
      RunInv(Step(s, actions[0], hash), actions[1..], hash);
    }
  }

  /** Every run from a newly created file, crashed after any step with any part of the unsynced
      writes surviving, is opened at the last completed commit or at the one in flight. */
  lemma {:induction false} EveryRunCrashSafe(header: Bytes, actions: seq<Action>, img: Image, hash: Hash)
    requires GoodHeader(header) && Sane(hash) && Runs(Init(header), actions, hash)
    requires CrashImage(After(Init(header), actions, hash).disk, img)
    ensures var s := After(Init(header), actions, hash);
            Finds(img, s.last, hash) || (s.phase.Issued? && Finds(img, Some(s.phase.tx), hash))
  {
    InitInv(header, hash);
    RunInv(Init(header), actions, hash);
    CrashSafe(After(Init(header), actions, hash), img, hash);
  }

  // ---------------------------------------------------------------------------
  // When a commit becomes visible
  // ---------------------------------------------------------------------------

  /** The disk after a commit, whatever its id. */
  ghost function Committed(disk: Disk, mb: MetaBlock, hash: Hash): Disk {
    Fsync(Pwrite(Fsync(disk), SlotOffset(mb.txid), WriteMetaBlock(mb, hash)))
  }

  /** A completed commit is the one that opening the file finds exactly when its id exceeds the
      id in the other slot; otherwise the older block in that slot is found. */
  lemma {:induction false} VisibleIffNewer(s: State, mb: MetaBlock, img: Image, hash: Hash)
    requires Inv(s, hash) && s.phase.Idle? && Sane(hash) && InRange(mb)
    requires CrashImage(Committed(s.disk, mb, hash), img)
    ensures Recover(img, hash) == Some(mb) <==> Newer(mb.txid, s.slots)
    ensures !Newer(mb.txid, s.slots) ==> Recover(img, hash) == BlockOf(s.slots[1 - mb.txid % 2])
  {
    hide SlotSettled, HeaderSettled, GoodHeader, Cached, Extends, Sane, PagesSettled, CrashImage, Committed, Laid, ReadMetaBlock, ImageBytes, SlotOffset;
    var tx := Commit(mb, map[]);
    var slots', done := s.slots[mb.txid % 2 := Some(tx)], Committed(s.disk, mb, hash);
    CommittedDisk(s, mb, hash);
    CrashHeader(done, img, s.header);
    CrashSlot(done, img, 0, slots'[0], hash);
    CrashSlot(done, img, 1, slots'[1], hash);
  }

  lemma {:induction false} CommittedDisk(s: State, mb: MetaBlock, hash: Hash)
    requires Inv(s, hash) && s.phase.Idle? && Sane(hash) && InRange(mb)
    ensures SlotsSettled(Committed(s.disk, mb, hash), s.slots[mb.txid % 2 := Some(Commit(mb, map[]))], hash)
    ensures HeaderSettled(Committed(s.disk, mb, hash), s.header)
  {
    hide SlotsSettled, HeaderSettled, GoodHeader, Cached, Extends, Sane, PagesSettled, Laid, ReadMetaBlock, WriteMetaBlock, Fsync;
    var off, bs, synced := SlotOffset(mb.txid), WriteMetaBlock(mb, hash), Fsync(s.disk);
    MetaBlockRoundTrip(mb, hash);
    SameSlot(mb.txid);
    SlotsApart();
    OnePiece(off, bs);
    FsyncKeepsSlots(s.disk, s.slots, hash);
    FsyncSettles(s.disk, s.header, s.pages);
    NothingPending(s.disk);
    SlotWritten(synced.durable, s.slots, Commit(mb, map[]), hash);
    assert Pwrite(synced, off, bs) == Disk(synced.durable, [Write(off, bs)]);
    PwriteKeepsHeader(synced, s.header, off, bs);
    FsyncKeepsHeader(Pwrite(synced, off, bs), s.header);
  }

  lemma {:induction false} NothingPending(disk: Disk)
    ensures Fsync(disk) == Disk(Fsync(disk).durable, [])
  {
  }

  /** Consecutive ids, and reissuing the last id, always satisfy the condition. */
  lemma {:induction false} ConsecutiveIsNewer(s: State, hash: Hash, txid: nat)
    requires Inv(s, hash)
    requires s.last.Some? ==> txid == s.last.value.mb.txid + 1 || txid == s.last.value.mb.txid
    ensures Newer(txid, s.slots)
  {
    hide SlotsSettled, HeaderSettled, GoodHeader, Cached, Extends, PagesSettled, Laid, WriteMetaBlock;
  }

  lemma {:induction false} ThreeSteps(s: State, mb: MetaBlock, hash: Hash)
    requires |s.slots| == 2 && Enabled(s, BeginCommit(mb))
    ensures var actions := [BeginCommit(mb), IssueMetaBlock, EndCommit];
            Runs(s, actions, hash) &&
            After(s, actions, hash) == Step(Step(Step(s, BeginCommit(mb), hash), IssueMetaBlock, hash), EndCommit, hash)
  {
    var a := [BeginCommit(mb), IssueMetaBlock, EndCommit];
    var s1 := Step(s, a[0], hash);
    var s2 := Step(s1, a[1], hash);
    var s3 := Step(s2, a[2], hash);
    assert a[1..] == [a[1], a[2]] && a[1..][1..] == [a[2]] && a[1..][1..][1..] == [];
    assert Runs(s3, [], hash) && After(s3, [], hash) == s3;
    assert Runs(s2, [a[2]], hash) && After(s2, [a[2]], hash) == s3;
    assert Runs(s1, [a[1], a[2]], hash) && After(s1, [a[1], a[2]], hash) == s3;
  }

  /** A concrete run that fails the condition: publish id 2, then commit id 1. The second commit
      completes and is never found. */
  lemma {:induction false} OlderIdHidden(header: Bytes, hash: Hash, img: Image)
    requires GoodHeader(header) && |header| < TWO_64 && Sane(hash)
    ensures var first, second := MetaBlock(2, 0, 0, 0, |header|), MetaBlock(1, 1, 0, 0, |header|);
            var actions := [BeginCommit(first), IssueMetaBlock, EndCommit];
            Runs(Init(header), actions, hash) &&
            var s := After(Init(header), actions, hash);
            s.phase.Idle? && |s.slots| == 2 && !Newer(second.txid, s.slots)
            && (CrashImage(Committed(s.disk, second, hash), img) ==> Recover(img, hash) == Some(first))
  {
    hide Inv, CrashImage, Recover, Committed, Sane, GoodHeader, WriteMetaBlock, Pwrite, Fsync;
    var first, second := MetaBlock(2, 0, 0, 0, |header|), MetaBlock(1, 1, 0, 0, |header|);
    var actions := [BeginCommit(first), IssueMetaBlock, EndCommit];
    ThreeSteps(Init(header), first, hash);
    InitInv(header, hash);
    RunInv(Init(header), actions, hash);
    var s := After(Init(header), actions, hash);
    assert s.slots == [Some(Commit(first, map[])), None];
    if CrashImage(Committed(s.disk, second, hash), img) {
      VisibleIffNewer(s, second, img, hash);
    }
  }
}
