/** `cstable::PageManager`, `PageIndex::write` and `CSTableWriter::commitV2` as methods over a
    file, each proved to be a run of the commit protocol. `None` stands for an exception. */
module PageManager {
  import opened Messages
  import opened Wire
  import opened MetaBlocks
  import opened CrashSafety
  import opened Recovery
  import opened Restart

  const INDEX_PAGE_SIZE: nat := 512 * 1024
  const INDEX_PAGE_OVERHEAD: nat := 16

  datatype PageRef = PageRef(offset: nat, size: nat)

  class Manager {
    var disk: Disk
    var offset: nat
    const hash: Hash
    ghost var state: State

    ghost predicate Valid()
      reads this
    {
      Sane(hash) && Good(state, hash) && state.disk == disk && state.offset == offset
    }

    /** A newly created file: the header is written, nothing is synced yet. */
    constructor (header: Bytes, hash: Hash)
      requires GoodHeader(header) && Sane(hash)
      ensures Valid() && state == Init(header) && this.hash == hash
    {
      disk := Pwrite(Disk((i: nat) => 0, []), 0, header);
      offset := |header|;
      this.hash := hash;
      state := Init(header);
      new;
      InitGood(header, hash);
    }

    /** A manager on an existing file, allocating from `offset` on. */
    constructor Resume(img: Image, offset: nat, hash: Hash, ghost resumed: State)
      requires Sane(hash) && Good(resumed, hash) && resumed.disk == Disk(img, []) && resumed.offset == offset
      ensures Valid() && state == resumed && this.hash == hash && this.offset == offset
    {
      this.disk, this.offset, this.hash, this.state := Disk(img, []), offset, hash, resumed;
    }

    method AllocPage(size: nat) returns (page: PageRef)
      requires Valid() && state.phase.Idle?
      modifies this`offset, this`state
      ensures Valid() && state == Step(old(state), Alloc(size), hash)
      ensures page == PageRef(old(offset), PageSize(size)) && offset == page.offset + page.size
      ensures page.size > 0 ==> page.offset in state.pages && state.pages[page.offset] == Page(page.size, [])
    {
      hide Good, Sane;
      InvFacts();
      StepGood(state, Alloc(size), hash);
      state := Step(state, Alloc(size), hash);
      page := PageRef(offset, PageSize(size));
      offset := offset + page.size;
    }

    /** Pad to the page size and write; data beyond the page is cut off. */
    method WritePage(page: PageRef, data: Bytes)
      requires Valid() && state.phase.Idle?
      requires page.size > 0 ==>
        page.offset in state.pages && state.pages[page.offset].size == page.size
        && Enabled(state, Action.WritePage(page.offset, data))
      modifies this`disk, this`state
      ensures Valid()
      ensures state == if page.size == 0 then old(state) else Step(old(state), Action.WritePage(page.offset, data), hash)
    {
      hide Good, Sane;
      InvFacts();
      if page.size == 0 {
        NothingWritten(disk, page.offset);
      } else {
        StepGood(state, Action.WritePage(page.offset, data), hash);
        state := Step(state, Action.WritePage(page.offset, data), hash);
      }
      var buf := data;
      if |data| < page.size {
        buf := data + Zeros(page.size - |data|);
      }
      assert buf[..page.size] == Padded(data, page.size);
      assert page.size == 0 ==> buf[..page.size] == [];
      disk := Pwrite(disk, page.offset, buf[..page.size]);
    }

    /** Sync the data, write the metablock to its slot, sync again. */
    method WriteTransaction(mb: MetaBlock)
      requires Valid() && Enabled(state, BeginCommit(mb))
      modifies this`disk, this`state
      ensures Valid() && Runs(old(state), [BeginCommit(mb), IssueMetaBlock, EndCommit], hash)
      ensures state == After(old(state), [BeginCommit(mb), IssueMetaBlock, EndCommit], hash)
      ensures state.phase.Idle? && state.last == Some(Commit(mb, old(state.pages))) && state.pages == old(state.pages)
      ensures state.slots == old(state.slots)[mb.txid % 2 := state.last]
    {
      hide Good, Sane;
      InvFacts();
      ghost var s0 := state;
      StepGood(s0, BeginCommit(mb), hash);
      ghost var s1 := Step(s0, BeginCommit(mb), hash);
      disk := Fsync(disk);

      var buf := WriteMetaBlock(mb, hash);
      StepGood(s1, IssueMetaBlock, hash);
      ghost var s2 := Step(s1, IssueMetaBlock, hash);
      disk := Pwrite(disk, SlotOffset(mb.txid), buf);

      StepGood(s2, EndCommit, hash);
      state := Step(s2, EndCommit, hash);
      disk := Fsync(disk);
      ThreeSteps(s0, mb, hash);
    }

    lemma {:induction false} InvFacts()
      requires Valid()
      ensures |state.slots| == 2
    {
    }

    /** Write the page index in a single page of its own. Writing it into the pages of an older
        index is not implemented in the source, which raises. */
    method WriteIndex(buf: Bytes, head: Option<PageRef>) returns (r: Option<PageRef>)
      requires Valid() && state.phase.Idle? && 0 < |buf| <= TWO_32 - SECTOR - INDEX_PAGE_OVERHEAD
      modifies this`disk, this`offset, this`state
      ensures Valid() && state.phase.Idle? && state.slots == old(state.slots) && state.last == old(state.last)
      ensures r.None? <==> head.Some?
      ensures r.None? ==> state == old(state)
      ensures r.Some? ==>
        r.value.offset == old(offset) && offset == r.value.offset + r.value.size && r.value.size == PaddedIndex(|buf|)
        && r.value.offset in state.pages && EndsChain(state.pages[r.value.offset].data, buf)
        && state.pages == old(state.pages)[r.value.offset := Page(r.value.size, state.pages[r.value.offset].data)]
    {
      hide Good, Sane, PageSize, UIntBytes, EndsChain, PaddedIndex;
      InvFacts();
      IndexFits(|buf|);
      IndexPageIs(buf);
      if head.Some? {
        return None;
      }
      NewPage(state, IndexSize(buf));
      var page := AllocPage(IndexSize(buf));
      var used := Min(Wrap32(page.size - INDEX_PAGE_OVERHEAD), Wrap32(|buf|));
      var data := UIntBytes(0, 8) + UIntBytes(0, 4) + UIntBytes(used, 4) + buf[..used];
      assert used == |buf| && buf[..used] == buf;
      WritePage(page, data);
      r := Some(page);
    }
  }

  /** The writer's side of a commit: the index pages of the last commit and of the one before.
      The transaction id is never advanced, so every commit carries the same one. */
  class TableWriter {
    const manager: Manager
    const currentTxid: nat := 0
    var numRows: nat
    var curIdx: Option<PageRef>
    var freeIdx: Option<PageRef>
    ghost var commits: nat

    ghost predicate Valid()
      reads this, manager
    {
      manager.Valid() && manager.state.phase.Idle?
      && |manager.state.slots| == 2 && manager.state.slots[0].None?
      && (curIdx.Some? <==> commits >= 1) && (freeIdx.Some? <==> commits >= 2)
    }

    /** A writer on a newly created file. */
    constructor (manager: Manager)
      requires manager.Valid() && manager.state.phase.Idle? && manager.state.slots == [None, None]
      ensures Valid() && this.manager == manager && commits == 0 && numRows == 0
    {
      this.manager, numRows, curIdx, freeIdx, commits := manager, 0, None, None, 0;
    }

    method AddRow()
      requires Valid()
      modifies this`numRows
      ensures Valid() && numRows == old(numRows) + 1
    {
      numRows := numRows + 1;
    }

    /** Commit: write the index, then publish it with a new metablock. It raises exactly when two
        commits went before, and then changes nothing. */
    method CommitV2(index: Bytes) returns (raised: bool)
      requires Valid() && 0 < |index| <= TWO_32 - SECTOR - INDEX_PAGE_OVERHEAD
      requires numRows < TWO_64 && manager.offset + TWO_32 < TWO_64
      modifies this, manager`disk, manager`offset, manager`state
      ensures Valid() && numRows == old(numRows)
      ensures raised <==> old(commits) >= 2
      ensures raised ==> commits == old(commits) && manager.state == old(manager.state)
      ensures !raised ==> commits == old(commits) + 1 && manager.state.last.Some?
      ensures !raised ==>
        var c := manager.state.last.value;
        && c.mb.txid == currentTxid + 1 && c.mb.numRows == numRows && c.mb.fileSize == manager.offset
        && c.mb.indexOffset == old(manager.offset) && c.mb.indexSize == PaddedIndex(|index|)
        && c.mb.fileSize == c.mb.indexOffset + c.mb.indexSize && Indexes(c, index)
        && c.pages == old(manager.state.pages)[c.mb.indexOffset := Page(c.mb.indexSize, c.pages[c.mb.indexOffset].data)]
    {
      hide Good, Sane, EndsChain, PaddedIndex;
      IndexFits(|index|);
      var head := manager.WriteIndex(index, freeIdx);
      raised := head.None?;
      if raised {
        return;
      }
      var mb := MetaBlock(currentTxid + 1, numRows, head.value.offset, head.value.size, manager.offset);
      manager.WriteTransaction(mb);
      freeIdx, curIdx := curIdx, head;
      commits := commits + 1;
    }
  }

  /** Open a file after a crash: the newest metablock says where the manager goes on. */
  method OpenFile(img: Image, hash: Hash, ghost before: State) returns (manager: Option<Manager>)
    requires Sane(hash) && Good(before, hash) && CrashImage(before.disk, img)
    ensures manager.Some? <==> Recover(img, hash).Some?
    ensures manager.Some? ==>
      var m := manager.value;
      fresh(m) && m.Valid() && m.hash == hash && m.offset == Recover(img, hash).value.fileSize
      && m.state == Follow(before, Reopen(img), hash)
  {
    hide Good, Sane, CrashImage, Recover, Resumed;
    var mb := Recover(img, hash);
    if mb.None? {
      return None;
    }
    GoodSlots(before, hash);
    ResumeGood(before, img, hash);
    ResumedAt(before, img, hash);
    var m := new Manager.Resume(img, mb.value.fileSize, hash, Resumed(before, img, hash));
    manager := Some(m);
  }

  lemma {:induction false} GoodSlots(s: State, hash: Hash)
    requires Good(s, hash)
    ensures |s.slots| == 2
  {
    hide Inv;
  }

  lemma {:induction false} ResumedAt(s: State, img: Image, hash: Hash)
    requires Good(s, hash) && Found(s, img, hash).Some?
    ensures var r := Resumed(s, img, hash); r.disk == Disk(img, []) && r.offset == Found(s, img, hash).value.mb.fileSize
  {
    hide Inv;
  }

  lemma {:induction false} StepGood(s: State, a: Action, hash: Hash)
    requires Good(s, hash) && Enabled(s, a) && Sane(hash)
    ensures Good(Step(s, a, hash), hash)
  {
    hide Inv, Nested, Step, Enabled, Sane;
    StepInv(s, a, hash);
    StepNested(s, a, hash);
  }

  lemma {:induction false} NothingWritten(disk: Disk, off: nat)
    ensures Pwrite(disk, off, []) == disk
  {
    assert Pieces(off, []) == [];
  }

  /** A page just allocated is part of no commit, so any data may be written to it. */
  lemma {:induction false} NewPage(s: State, size: nat)
    requires exists hash :: Good(s, hash)
    ensures forall k, data :: 0 <= k < 2 ==> KeepsData(s.slots[k], s.offset, data)
  {
    var hash :| Good(s, hash);
    hide SlotsSettled, HeaderSettled, GoodHeader, Cached, PagesSettled;
    assert SlotFits(s, 0) && SlotFits(s, 1);
  }

  function Min(a: nat, b: nat): nat {
    if a < b then a else b
  }

  /** Conversion to a 32-bit unsigned integer. */
  function Wrap32(n: int): nat {
    n % TWO_32
  }

  function IndexSize(buf: Bytes): nat {
    if INDEX_PAGE_SIZE < |buf| + INDEX_PAGE_OVERHEAD then |buf| + INDEX_PAGE_OVERHEAD else INDEX_PAGE_SIZE
  }

  function IndexPage(buf: Bytes): Bytes {
    UIntBytes(0, 8) + UIntBytes(0, 4) + UIntBytes(|buf|, 4) + buf
  }

  /** The size of the page for an index of `n` bytes: half a megabyte, or the sectors needed. */
  function PaddedIndex(n: nat): nat {
    if n + 16 <= 524288 then 524288 else (n + 16 + 511) / 512 * 512
  }

  /** An index page without a successor, field by field: next offset, next size, bytes used, and
      the index itself. */
  predicate EndsChain(page: Bytes, index: Bytes) {
    && |page| == 16 + |index|
    && UIntOf(page[..8]) == 0 && UIntOf(page[8..12]) == 0 && UIntOf(page[12..16]) == |index| && page[16..] == index
  }

  /** The metablock of a commit points to a page that holds this index. */
  predicate Indexes(c: Commit, index: Bytes) {
    c.mb.indexOffset in c.pages && EndsChain(c.pages[c.mb.indexOffset].data, index)
  }

  lemma {:induction false} IndexPageIs(buf: Bytes)
    requires |buf| < TWO_32
    ensures EndsChain(IndexPage(buf), buf)
  {
    hide UIntBytes, UIntOf, Pow256;
    Pow256Values();
    var page := IndexPage(buf);
    assert page[..8] == UIntBytes(0, 8) && page[8..12] == UIntBytes(0, 4) && page[12..16] == UIntBytes(|buf|, 4) && page[16..] == buf;
    UIntRoundTrip(0, 8);
    UIntRoundTrip(0, 4);
    UIntRoundTrip(|buf|, 4);
  }

  /** The index page holds the whole index exactly when its padded size still fits 32 bits, and
      then the size is the one padded to whole sectors. */
  lemma {:induction false} IndexFits(n: nat)
    ensures var size := if INDEX_PAGE_SIZE < n + INDEX_PAGE_OVERHEAD then n + INDEX_PAGE_OVERHEAD else INDEX_PAGE_SIZE;
            && (PageSize(size) >= n + 16 <==> n + 16 <= TWO_32 - SECTOR)
            && (n + 16 <= TWO_32 - SECTOR ==> PageSize(size) == PaddedIndex(n) >= size)
  {
    PageHoldsRequest(n + INDEX_PAGE_OVERHEAD);
    PageHoldsRequest(INDEX_PAGE_SIZE);
  }

  // ---------------------------------------------------------------------------
  // The index after a crash
  // ---------------------------------------------------------------------------

  /** The bytes of a file at an offset are an index page without a successor. */
  predicate IndexOnDisk(img: Image, off: nat, index: Bytes) {
    && UIntOf(ImageBytes(img, off, 8)) == 0 && UIntOf(ImageBytes(img, off + 8, 4)) == 0
    && UIntOf(ImageBytes(img, off + 12, 4)) == |index| && ImageBytes(img, off + 16, |index|) == index
  }

  lemma {:induction false} HeldIndex(img: Image, c: Commit, index: Bytes)
    requires Holds(img, c.pages) && Indexes(c, index)
    ensures IndexOnDisk(img, c.mb.indexOffset, index)
  {
    hide UIntOf;
    var off := c.mb.indexOffset;
    var page := c.pages[off].data;
    forall i | 0 <= i < |page| ensures img(off + i) == page[i] {
    }
    assert ImageBytes(img, off, 8) == page[..8];
    assert ImageBytes(img, off + 8, 4) == page[8..12];
    assert ImageBytes(img, off + 12, 4) == page[12..16];
    assert ImageBytes(img, off + 16, |index|) == page[16..];
  }

  /** After any history of steps, crashes and reopenings: where the metablock found says that the
      index is, the file holds the index of the commit found, byte for byte. */
  lemma {:induction false} RecoveredIndex(header: Bytes, events: seq<Event>, img: Image, hash: Hash, index: Bytes, next: Bytes)
    requires GoodHeader(header) && Sane(hash) && History(Init(header), events, hash)
    requires var s := Later(Init(header), events, hash);
             CrashImage(s.disk, img) && (s.last.Some? ==> Indexes(s.last.value, index)) && (s.phase.Issued? ==> Indexes(s.phase.tx, next))
    requires Recover(img, hash).Some?
    ensures var s, mb := Later(Init(header), events, hash), Recover(img, hash).value;
            || (s.last.Some? && mb == s.last.value.mb && IndexOnDisk(img, mb.indexOffset, index))
            || (s.phase.Issued? && mb == s.phase.tx.mb && IndexOnDisk(img, mb.indexOffset, next))
  {
    hide Inv, Sane, History, Later, CrashImage, Recover, Holds, Indexes, IndexOnDisk, GoodHeader;
    var s := Later(Init(header), events, hash);
    EveryHistoryCrashSafe(header, events, img, hash);
    if Finds(img, s.last, hash) {
      HeldIndex(img, s.last.value, index);
    } else {
      HeldIndex(img, s.phase.tx, next);
    }
  }

  /** A committed index stays on disk through everything that happens later. */
  lemma {:induction false} IndexForGood(s: State, events: seq<Event>, img: Image, hash: Hash, index: Bytes)
    requires Good(s, hash) && Sane(hash) && History(s, events, hash) && s.last.Some? && Indexes(s.last.value, index)
    requires CrashImage(Later(s, events, hash).disk, img)
    ensures IndexOnDisk(img, s.last.value.mb.indexOffset, index)
  {
    hide Good, Sane, History, Later, CrashImage, Holds, Indexes, IndexOnDisk;
    CommittedForGood(s, events, img, hash);
    HeldIndex(img, s.last.value, index);
  }
}
