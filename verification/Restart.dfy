/** The commit protocol over histories: runs of steps, crashes, and files opened again at the
    committed file size. */
module Restart {
  import opened Messages
  import opened Wire
  import opened MetaBlocks
  import opened CrashSafety
  import opened Recovery

  // ---------------------------------------------------------------------------
  // Commits within commits
  // ---------------------------------------------------------------------------

  /** The later commit holds all pages of the earlier one, in a file at least as long. */
  ghost predicate Within(earlier: Commit, later: Commit) {
    earlier.mb.fileSize <= later.mb.fileSize && Extends(later.pages, earlier.pages)
  }

  /** Pages that are not part of a commit lie above its file size. */
  ghost predicate Above(pages: Pages, c: Commit) {
    forall off :: off in pages && off !in c.pages ==> off >= c.mb.fileSize
  }

  ghost predicate SizeAligned(c: Commit, header: nat) { header <= c.mb.fileSize && c.mb.fileSize % SECTOR == 0 }

  ghost predicate SlotWithin(slot: Option<Commit>, last: Option<Commit>) {
    slot.Some? ==> last.Some? && Within(slot.value, last.value)
  }

  /** The commits on disk are nested, so that the newest one is a state to resume from. */
  ghost predicate Nested(s: State) {
    |s.slots| == 2
    && SlotWithin(s.slots[0], s.last) && SlotWithin(s.slots[1], s.last)
    && (s.last.Some? ==> SizeAligned(s.last.value, |s.header|) && Above(s.pages, s.last.value))
    && (!s.phase.Idle? ==>
          SizeAligned(s.phase.tx, |s.header|) && s.phase.tx.pages == s.pages && s.phase.tx.mb.fileSize == s.offset
          && (s.last.Some? ==> Within(s.last.value, s.phase.tx)))
  }

  ghost predicate Good(s: State, hash: Hash) { Inv(s, hash) && Nested(s) }

  lemma {:induction false} WithinTrans(a: Commit, b: Commit, c: Commit)
    requires Within(a, b) && Within(b, c)
    ensures Within(a, c)
  {
  }

  lemma {:induction false} WithinSelf(a: Commit)
    ensures Within(a, a)
  {
  }

  lemma {:induction false} InvOutline(s: State, hash: Hash)
    requires Inv(s, hash)
    ensures |s.slots| == 2 && Laid(s.pages, |s.header|, s.offset) && |s.header| <= s.offset && s.offset % SECTOR == 0
    ensures s.last.Some? ==>
      Extends(s.pages, s.last.value.pages) && s.last.value.mb.fileSize <= s.offset
      && Laid(s.last.value.pages, |s.header|, s.last.value.mb.fileSize) && PagesSettled(s.disk, s.last.value.pages)
  {
    hide SlotsSettled, HeaderSettled, GoodHeader, Cached, PagesSettled, Laid, Extends, WriteMetaBlock, SlotOffset, Newer, InRange, Ready;
  }

  lemma {:induction false} StepNested(s: State, a: Action, hash: Hash)
    requires Good(s, hash) && Enabled(s, a)
    ensures Nested(Step(s, a, hash))
  {
    hide Inv, Laid, PagesSettled, Within, Above;
    InvOutline(s, hash);
    match a
    case Alloc(size) => AllocAbove(s, size);
    case WritePage(off, data) => WriteAbove(s, off, data);
    case BeginCommit(mb) => BeginWithin(s, mb);
    case IssueMetaBlock =>
    case EndCommit =>
      var tx := s.phase.tx;
      WithinSelf(tx);
      EndAbove(s.pages, tx);
      var other := s.slots[1 - tx.mb.txid % 2];
      if other.Some? {
        WithinTrans(other.value, s.last.value, tx);
      }
  }

  lemma {:induction false} AllocAbove(s: State, size: nat)
    requires s.last.Some? ==> Above(s.pages, s.last.value) && s.last.value.mb.fileSize <= s.offset
    ensures s.last.Some? ==> Above(s.pages[s.offset := Page(PageSize(size), [])], s.last.value)
  {
  }

  lemma {:induction false} WriteAbove(s: State, off: nat, data: Bytes)
    requires off in s.pages && (s.last.Some? ==> Above(s.pages, s.last.value))
    ensures s.last.Some? ==> Above(s.pages[off := Written(data, s.pages[off])], s.last.value)
  {
  }

  lemma {:induction false} BeginWithin(s: State, mb: MetaBlock)
    requires s.last.Some? ==> Extends(s.pages, s.last.value.pages) && s.last.value.mb.fileSize <= s.offset
    requires mb.fileSize == s.offset
    ensures s.last.Some? ==> Within(s.last.value, Commit(mb, s.pages))
  {
  }

  lemma {:induction false} EndAbove(pages: Pages, tx: Commit)
    requires tx.pages == pages
    ensures Above(pages, tx)
  {
  }

  // ---------------------------------------------------------------------------
  // Opening a file again
  // ---------------------------------------------------------------------------

  /** The image holds the metablock that was in flight. */
  ghost predicate BlockKept(s: State, img: Image, hash: Hash) {
    s.phase.Issued?
    && forall i :: 0 <= i < |WriteMetaBlock(s.phase.tx.mb, hash)| ==>
         img(SlotOffset(s.phase.tx.mb.txid) + i) == WriteMetaBlock(s.phase.tx.mb, hash)[i]
  }

  /** The commit a crashed file opens at. */
  ghost function Found(s: State, img: Image, hash: Hash): Option<Commit> {
    if BlockKept(s, img, hash) then Some(s.phase.tx) else s.last
  }

  ghost function FoundSlots(s: State, img: Image, hash: Hash): seq<Option<Commit>>
    requires |s.slots| == 2
  {
    if BlockKept(s, img, hash) then s.slots[s.phase.tx.mb.txid % 2 := Some(s.phase.tx)] else s.slots
  }

  /** A page manager on the image, at the file size of the commit found. Pages that were not
      committed are forgotten, and their space is allocated again. */
  ghost function Resumed(s: State, img: Image, hash: Hash): State
    requires |s.slots| == 2
  {
    match Found(s, img, hash)
    case None => s
    case Some(c) =>
      State(Disk(img, []), s.header, c.mb.fileSize, c.pages, Idle, FoundSlots(s, img, hash), Some(c))
  }

  lemma {:induction false} PagesInImage(disk: Disk, img: Image, pages: Pages)
    requires CrashImage(disk, img) && PagesSettled(disk, pages)
    ensures PagesSettled(Disk(img, []), pages) && Holds(img, pages)
  {
    hide CrashImage;
    CrashPages(disk, img, pages);
  }

  lemma {:induction false} HeaderInImage(disk: Disk, img: Image, header: Bytes)
    requires CrashImage(disk, img) && HeaderSettled(disk, header)
    ensures HeaderSettled(Disk(img, []), header)
    ensures forall i :: 0 <= i < |header| && Fixed(i) ==> img(i) == header[i]
  {
    hide CrashImage;
    forall i | 0 <= i < |header| && Fixed(i) ensures img(i) == header[i] {
      CrashByte(disk, img, i, header[i]);
    }
  }

  lemma {:induction false} SlotInImage(disk: Disk, img: Image, k: nat, c: Option<Commit>, hash: Hash)
    requires CrashImage(disk, img) && SlotSettled(disk, k, c, hash)
    ensures SlotSettled(Disk(img, []), k, c, hash)
  {
    hide CrashImage, SlotBytes, SlotOffset;
    var bs := SlotBytes(c, hash);
    forall i | 0 <= i < |bs| ensures img(SlotOffset(k) + i) == bs[i] {
      CrashByte(disk, img, SlotOffset(k) + i, bs[i]);
    }
  }

  lemma {:induction false} SlotsInImage(s: State, img: Image, hash: Hash)
    requires Inv(s, hash) && Sane(hash) && CrashImage(s.disk, img)
    ensures SlotsSettled(Disk(img, []), FoundSlots(s, img, hash), hash)
  {
    hide CrashImage, SlotSettled, HeaderSettled, GoodHeader, Cached, Laid, Extends, Sane, PagesSettled, WriteMetaBlock, Fsync;
    if s.phase.Issued? {
      IssuedSlots(s, img, hash);
    } else {
      SlotInImage(s.disk, img, 0, s.slots[0], hash);
      SlotInImage(s.disk, img, 1, s.slots[1], hash);
    }
  }

  lemma {:induction false} IssuedSlots(s: State, img: Image, hash: Hash)
    requires Inv(s, hash) && Sane(hash) && CrashImage(s.disk, img) && s.phase.Issued?
    ensures SlotsSettled(Disk(img, []), FoundSlots(s, img, hash), hash)
  {
    hide CrashImage, SlotSettled, HeaderSettled, GoodHeader, Cached, Laid, Extends, Sane, PagesSettled, WriteMetaBlock, Fsync, SlotOffset, BlockKept;
    var tx := s.phase.tx;
    var t := tx.mb.txid % 2;
    BlockSized(s, tx, hash);
    var keep := IssuedImage(s, img, hash);
    if keep {
      SlotWritten(s.disk.durable, s.slots, tx, hash);
      var slots' := s.slots[t := Some(tx)];
      SlotInImage(Fsync(s.disk), img, 0, slots'[0], hash);
      SlotInImage(Fsync(s.disk), img, 1, slots'[1], hash);
      KeptBlock(s, img, hash);
    } else {
      SlotInImage(s.disk.(pending := []), img, 0, s.slots[0], hash);
      SlotInImage(s.disk.(pending := []), img, 1, s.slots[1], hash);
      if BlockKept(s, img, hash) {
        KeptSlot(s, img, hash);
      }
    }
  }

  lemma {:induction false} KeptBlock(s: State, img: Image, hash: Hash)
    requires s.phase.Issued? && SlotSettled(Disk(img, []), s.phase.tx.mb.txid % 2, Some(s.phase.tx), hash)
    requires |WriteMetaBlock(s.phase.tx.mb, hash)| == META_BLOCK_SIZE
    ensures BlockKept(s, img, hash)
  {
    hide WriteMetaBlock;
    SameSlot(s.phase.tx.mb.txid);
  }

  lemma {:induction false} KeptSlot(s: State, img: Image, hash: Hash)
    requires BlockKept(s, img, hash) && |WriteMetaBlock(s.phase.tx.mb, hash)| == META_BLOCK_SIZE
    ensures SlotSettled(Disk(img, []), s.phase.tx.mb.txid % 2, Some(s.phase.tx), hash)
  {
    hide WriteMetaBlock;
    SameSlot(s.phase.tx.mb.txid);
  }

  lemma {:induction false} SameImage(img: Image)
    ensures CrashImage(Disk(img, []), img)
  {
    var none: seq<bool> := [];
    assert forall i: nat :: img(i) == PutSome(img, [], none)(i);
  }

  /** What is known of one slot of the resumed state. */
  ghost predicate SlotSound(s: State, k: nat, slot: Option<Commit>, c: Commit) {
    slot.Some? ==>
      slot.value.mb.txid % 2 == k && Within(slot.value, c)
      && CommitSettled(s.disk, s.pages, s.offset, |s.header|, slot.value)
  }

  lemma {:induction false} FoundSound(s: State, img: Image, hash: Hash)
    requires Good(s, hash) && Found(s, img, hash).Some?
    ensures var c, slots := Found(s, img, hash).value, FoundSlots(s, img, hash);
      |slots| == 2
      && CommitSettled(s.disk, s.pages, s.offset, |s.header|, c) && SizeAligned(c, |s.header|) && HeaderSettled(s.disk, s.header)
      && SlotSound(s, 0, slots[0], c) && SlotSound(s, 1, slots[1], c) && LastIsNewest(Some(c), slots)
  {
    hide SlotsSettled, CommitSettled, HeaderSettled, GoodHeader, Cached, Laid, Extends, PagesSettled, WriteMetaBlock, Within, Above;
    if BlockKept(s, img, hash) {
      var tx := s.phase.tx;
      WithinSelf(tx);
      var other := s.slots[1 - tx.mb.txid % 2];
      if other.Some? {
        WithinTrans(other.value, s.last.value, tx);
      }
    }
  }

  lemma {:induction false} NothingFound(s: State, img: Image, hash: Hash)
    requires Inv(s, hash) && Sane(hash) && CrashImage(s.disk, img) && Found(s, img, hash).None?
    ensures Recover(img, hash) == None
  {
    hide SlotsSettled, SlotSettled, HeaderSettled, CrashImage, Cached, Laid, Extends, Sane, PagesSettled, WriteMetaBlock, Recover, GoodHeader;
    SlotsInImage(s, img, hash);
    SameImage(img);
    OpensAtNewest(Disk(img, []), img, s.header, s.slots, None, hash);
  }

  lemma {:induction false} SettledInImage(s: State, img: Image, slot: Commit, c: Commit)
    requires CommitSettled(s.disk, s.pages, s.offset, |s.header|, slot) && Within(slot, c) && CrashImage(s.disk, img)
    ensures CommitSettled(Disk(img, []), c.pages, c.mb.fileSize, |s.header|, slot)
  {
    hide CrashImage, Extends, Laid, PagesSettled;
    PagesInImage(s.disk, img, slot.pages);
  }

  lemma {:induction false} CachedInImage(img: Image, header: Bytes, pages: Pages)
    requires Holds(img, pages) && forall i :: 0 <= i < |header| && Fixed(i) ==> img(i) == header[i]
    ensures Cached(Disk(img, []), header, pages)
  {
    assert PutAll(img, []) == img;
  }

  /** A file opened again after a crash is in a state of the protocol: the commit found is the
      last one, and its file size is where allocation goes on. */
  lemma {:induction false} ResumeGood(s: State, img: Image, hash: Hash)
    requires Good(s, hash) && Sane(hash) && CrashImage(s.disk, img) && Recover(img, hash).Some?
    ensures var r := Resumed(s, img, hash);
      Good(r, hash) && r.phase.Idle? && Found(s, img, hash).Some? && r.last == Found(s, img, hash)
      && Recover(img, hash) == Some(r.last.value.mb) && Holds(img, r.last.value.pages)
  {
    hide SlotsSettled, SlotSettled, CommitSettled, HeaderSettled, CrashImage, Cached, Laid, Extends, Sane, PagesSettled, WriteMetaBlock, Recover, GoodHeader, Holds, Found, FoundSlots, Within;
    if Found(s, img, hash).None? {
      NothingFound(s, img, hash);
      assert false;
    }
    var c, slots := Found(s, img, hash).value, FoundSlots(s, img, hash);
    FoundSound(s, img, hash);
    SlotsInImage(s, img, hash);
    HeaderInImage(s.disk, img, s.header);
    CommitParts(s.disk, s.pages, s.offset, |s.header|, c);
    PagesInImage(s.disk, img, c.pages);
    CachedInImage(img, s.header, c.pages);
    SameImage(img);
    forall k | 0 <= k < 2 && slots[k].Some? ensures CommitSettled(Disk(img, []), c.pages, c.mb.fileSize, |s.header|, slots[k].value) {
      SettledInImage(s, img, slots[k].value, c);
    }
    forall k | 0 <= k < 2 && slots[k].Some? ensures InRange(slots[k].value.mb) {
      CommitParts(s.disk, s.pages, s.offset, |s.header|, slots[k].value);
    }
    OpensAtNewest(Disk(img, []), img, s.header, slots, Some(c), hash);
    EndAbove(c.pages, c);
  }

  lemma {:induction false} CommitParts(disk: Disk, pages: Pages, offset: nat, header: nat, c: Commit)
    requires CommitSettled(disk, pages, offset, header, c)
    ensures InRange(c.mb) && Laid(c.pages, header, c.mb.fileSize) && c.mb.fileSize <= offset
    ensures Extends(pages, c.pages) && PagesSettled(disk, c.pages)
  {
  }

  // ---------------------------------------------------------------------------
  // Histories
  // ---------------------------------------------------------------------------

  /** A step of the protocol, or a crash that leaves `img` and the file opened again. */
  datatype Event = Work(a: Action) | Reopen(img: Image)

  ghost predicate Possible(s: State, e: Event, hash: Hash)
    requires |s.slots| == 2
  {
    match e
    case Work(a) => Enabled(s, a)
    case Reopen(img) => CrashImage(s.disk, img) && Recover(img, hash).Some?
  }

  ghost function Follow(s: State, e: Event, hash: Hash): State
    requires |s.slots| == 2 && Possible(s, e, hash)
  {
    match e
    case Work(a) => Step(s, a, hash)
    case Reopen(img) => Resumed(s, img, hash)
  }

  ghost predicate History(s: State, events: seq<Event>, hash: Hash)
    decreases |events|
  {
    |s.slots| == 2
    && (events != [] ==> Possible(s, events[0], hash) && History(Follow(s, events[0], hash), events[1..], hash))
  }

  ghost function Later(s: State, events: seq<Event>, hash: Hash): State
    requires History(s, events, hash)
    decreases |events|
  {
    if events == [] then s else Later(Follow(s, events[0], hash), events[1..], hash)
  }

  lemma {:induction false} FollowGood(s: State, e: Event, hash: Hash)
    requires Good(s, hash) && Sane(hash) && Possible(s, e, hash)
    ensures Good(Follow(s, e, hash), hash)
  {
    hide Inv, Nested, Step, Enabled, Sane;
    match e
    case Work(a) =>
      StepInv(s, a, hash);
      StepNested(s, a, hash);
    case Reopen(img) =>
      ResumeGood(s, img, hash);
  }

  lemma {:induction false} HistoryGood(s: State, events: seq<Event>, hash: Hash)
    requires Good(s, hash) && Sane(hash) && History(s, events, hash)
    ensures Good(Later(s, events, hash), hash)
    decreases |events|
  {
    hide Good, Sane, Possible, Follow;
    if events != [] {
      FollowGood(s, events[0], hash);
      HistoryGood(Follow(s, events[0], hash), events[1..], hash);
    }
  }

  lemma {:induction false} InitGood(header: Bytes, hash: Hash)
    requires GoodHeader(header) && Sane(hash)
    ensures Good(Init(header), hash)
  {
    hide Inv;
    InitInv(header, hash);
  }

  /** Every history from a newly created file, with any number of crashes and reopenings, crashed
      once more: the file opens at the last completed commit or at the one in flight. */
  lemma {:induction false} EveryHistoryCrashSafe(header: Bytes, events: seq<Event>, img: Image, hash: Hash)
    requires GoodHeader(header) && Sane(hash) && History(Init(header), events, hash)
    requires CrashImage(Later(Init(header), events, hash).disk, img)
    ensures var s := Later(Init(header), events, hash);
            Finds(img, s.last, hash) || (s.phase.Issued? && Finds(img, Some(s.phase.tx), hash))
  {
    hide Inv, Nested, Sane, History, Later, CrashImage, Finds;
    InitGood(header, hash);
    HistoryGood(Init(header), events, hash);
    CrashSafe(Later(Init(header), events, hash), img, hash);
  }

  // ---------------------------------------------------------------------------
  // Snapshots
  // ---------------------------------------------------------------------------

  /** The state has not moved behind the commit: the last commit contains it, and everything
      allocated since lies above its file size. */
  ghost predicate Onward(s: State, c: Commit) {
    s.last.Some? && Within(c, s.last.value) && Above(s.pages, c) && c.mb.fileSize <= s.offset
  }

  lemma {:induction false} FollowOnward(s: State, e: Event, hash: Hash, c: Commit)
    requires Good(s, hash) && Sane(hash) && Possible(s, e, hash) && Onward(s, c)
    ensures Onward(Follow(s, e, hash), c)
  {
    hide Inv, CrashImage, Recover, Sane, Within, Above, Laid, PagesSettled, KeepsData, Newer;
    InvOutline(s, hash);
    match e
    case Work(a) =>
      match a {
        case Alloc(size) => AllocOnward(s, size, c);
        case WritePage(off, data) => WriteOnward(s, off, data, c);
        case BeginCommit(mb) =>
        case IssueMetaBlock =>
        case EndCommit => WithinTrans(c, s.last.value, s.phase.tx);
      }
    case Reopen(img) =>
      ResumeGood(s, img, hash);
      if BlockKept(s, img, hash) {
        WithinTrans(c, s.last.value, s.phase.tx);
      }
      FoundOnward(s.pages, Found(s, img, hash).value, c, s, img, hash);
  }

  lemma {:induction false} AllocOnward(s: State, size: nat, c: Commit)
    requires Above(s.pages, c) && c.mb.fileSize <= s.offset
    ensures Above(s.pages[s.offset := Page(PageSize(size), [])], c)
  {
  }

  lemma {:induction false} WriteOnward(s: State, off: nat, data: Bytes, c: Commit)
    requires off in s.pages && Above(s.pages, c)
    ensures Above(s.pages[off := Written(data, s.pages[off])], c)
  {
  }

  lemma {:induction false} FoundOnward(pages: Pages, found: Commit, c: Commit, s: State, img: Image, hash: Hash)
    requires Good(s, hash) && Found(s, img, hash) == Some(found) && pages == s.pages
    requires Above(pages, c) && Within(c, found)
    ensures Above(found.pages, c) && c.mb.fileSize <= found.mb.fileSize
  {
    hide Inv, WriteMetaBlock, SlotOffset, Laid, PagesSettled;
    InvOutline(s, hash);
  }

  lemma {:induction false} HistoryOnward(s: State, events: seq<Event>, hash: Hash, c: Commit)
    requires Good(s, hash) && Sane(hash) && History(s, events, hash) && Onward(s, c)
    ensures Onward(Later(s, events, hash), c)
    decreases |events|
  {
    hide Good, Sane, Possible, Follow, Onward;
    if events != [] {
      FollowGood(s, events[0], hash);
      FollowOnward(s, events[0], hash, c);
      HistoryOnward(Follow(s, events[0], hash), events[1..], hash, c);
    }
  }

  /** Snapshot stability: whatever steps, crashes and reopenings follow a commit, its pages lie
      below its file size and keep their place, size and data; all pages stay sector-aligned,
      disjoint from each other and from the header; and every page outside the commit, allocated
      before or after a reopening, starts at or above the committed file size. */
  lemma {:induction false} SnapshotStable(s: State, events: seq<Event>, hash: Hash)
    requires Good(s, hash) && Sane(hash) && History(s, events, hash) && s.last.Some?
    ensures var c, s' := s.last.value, Later(s, events, hash);
            && Laid(c.pages, |s.header|, c.mb.fileSize) && Laid(s'.pages, |s'.header|, s'.offset)
            && Extends(s'.pages, c.pages) && c.mb.fileSize <= s'.offset
            && forall off :: off in s'.pages && off !in c.pages ==> off >= c.mb.fileSize
  {
    hide Inv, Sane, History, Later, Laid;
    var c, s' := s.last.value, Later(s, events, hash);
    InvOutline(s, hash);
    WithinSelf(c);
    HistoryOnward(s, events, hash, c);
    HistoryGood(s, events, hash);
    InvOutline(s', hash);
  }

  /** Committed for good: every crash after any such history leaves all bytes of the commit. */
  lemma {:induction false} CommittedForGood(s: State, events: seq<Event>, img: Image, hash: Hash)
    requires Good(s, hash) && Sane(hash) && History(s, events, hash) && s.last.Some?
    requires CrashImage(Later(s, events, hash).disk, img)
    ensures Holds(img, s.last.value.pages)
  {
    hide Inv, Sane, History, Later, Laid, CrashImage, PagesSettled;
    var c, s' := s.last.value, Later(s, events, hash);
    InvOutline(s, hash);
    WithinSelf(c);
    HistoryOnward(s, events, hash, c);
    HistoryGood(s, events, hash);
    InvOutline(s', hash);
    PagesInImage(s'.disk, img, s'.last.value.pages);
  }

  // ---------------------------------------------------------------------------
  // Rewriting committed data
  // ---------------------------------------------------------------------------

  lemma {:induction false} AllKept(img: Image, ws: seq<Write>)
    ensures PutSome(img, ws, seq(|ws|, _ => true)) == PutAll(img, ws)
    decreases |ws|
  {
    var keep := seq(|ws|, _ => true);
    if ws != [] {
      assert keep[1..] == seq(|ws[1..]|, _ => true);
      AllKept(Put(img, ws[0]), ws[1..]);
    }
  }

  /** Any buffer that does not begin with the committed data, padded to the page, overwrites the
      commit in some crash image. */
  lemma {:induction false} RewriteLoses(s: State, off: nat, data: Bytes, hash: Hash) returns (img: Image)
    requires Good(s, hash) && s.phase.Idle? && s.last.Some? && off in s.last.value.pages
    requires !(s.last.value.pages[off].data <= Padded(data, s.last.value.pages[off].size))
    ensures CrashImage(Pwrite(s.disk, off, Padded(data, s.last.value.pages[off].size)), img)
    ensures !Holds(img, s.last.value.pages)
  {
    hide Inv, Pwrite, PutAll, PutSome, Padded, PagesSettled;
    InvOutline(s, hash);
    var page := s.last.value.pages[off];
    var padded := Padded(data, page.size);
    var disk := Pwrite(s.disk, off, padded);
    img := PutAll(disk.durable, disk.pending);
    AllKept(disk.durable, disk.pending);
    var i :| 0 <= i < |page.data| && page.data[i] != padded[i];
    PwriteCache(s.disk, off, padded, off + i);
  }

  /** The commit survives a write to one of the pages: every crash image still holds it. */
  ghost predicate Survives(s: State, off: nat, data: Bytes)
    requires off in s.pages
  {
    s.last.Some? ==>
      forall img :: CrashImage(Pwrite(s.disk, off, Padded(data, s.pages[off].size)), img) ==> Holds(img, s.last.value.pages)
  }

  lemma {:induction false} EnabledSurvives(s: State, off: nat, data: Bytes, hash: Hash)
    requires Good(s, hash) && Sane(hash) && Enabled(s, WritePage(off, data))
    ensures Survives(s, off, data)
  {
    hide Inv, CrashImage, PagesSettled, Pwrite, Padded, Written, Enabled, Sane, Holds;
    WriteIs(s, off, data, hash);
    var t := Step(s, WritePage(off, data), hash);
    StepInv(s, WritePage(off, data), hash);
    InvOutline(t, hash);
    if s.last.Some? {
      forall img | CrashImage(t.disk, img) ensures Holds(img, s.last.value.pages) {
        CrashPages(t.disk, img, s.last.value.pages);
      }
    }
  }

  lemma {:induction false} WriteIs(s: State, off: nat, data: Bytes, hash: Hash)
    requires |s.slots| == 2 && Enabled(s, WritePage(off, data))
    ensures off in s.pages
    ensures var t := Step(s, WritePage(off, data), hash);
      t.disk == Pwrite(s.disk, off, Padded(data, s.pages[off].size)) && t.last == s.last
  {
  }

  /** A page may be rewritten without losing the last commit exactly when it is not part of it, or
      the buffer, padded to the page, begins with the data committed; and that is what the
      protocol asks of a write. */
  lemma {:induction false} RewriteKeepsIff(s: State, off: nat, data: Bytes, hash: Hash)
    requires Good(s, hash) && Sane(hash) && s.phase.Idle? && off in s.pages
    ensures Survives(s, off, data) <==> KeepsData(s.last, off, Padded(data, s.pages[off].size))
    ensures Enabled(s, WritePage(off, data)) <==> KeepsData(s.last, off, Padded(data, s.pages[off].size))
  {
    hide Inv, CrashImage, PagesSettled, Pwrite, Padded, Sane, Holds, Laid;
    InvOutline(s, hash);
    LastInSlots(s, hash);
    if KeepsData(s.last, off, Padded(data, s.pages[off].size)) {
      SlotKeeps(s.slots[0], s.last, off, Padded(data, s.pages[off].size));
      SlotKeeps(s.slots[1], s.last, off, Padded(data, s.pages[off].size));
      EnabledSurvives(s, off, data, hash);
    } else {
      var img := RewriteLoses(s, off, data, hash);
    }
  }

  lemma {:induction false} LastInSlots(s: State, hash: Hash)
    requires Inv(s, hash)
    ensures |s.slots| == 2 && (s.slots[0] == s.last || s.slots[1] == s.last)
  {
    hide SlotsSettled, HeaderSettled, GoodHeader, Cached, PagesSettled, Laid, CommitSettled;
  }

  lemma {:induction false} SlotKeeps(slot: Option<Commit>, last: Option<Commit>, off: nat, data: Bytes)
    requires SlotWithin(slot, last) && KeepsData(last, off, data)
    ensures KeepsData(slot, off, data)
  {
  }

  /** A concrete run to a state where a write loses the commit: one page is committed with a
      seven in it, and then written with an eight. */
  lemma {:induction false} EightForSeven(header: Bytes, hash: Hash)
    requires GoodHeader(header) && |header| + SECTOR < TWO_64 && Sane(hash)
    ensures var off, mb := |header|, MetaBlock(1, 1, |header|, SECTOR, |header| + SECTOR);
      var actions := [Alloc(1), WritePage(off, [7]), BeginCommit(mb), IssueMetaBlock, EndCommit];
      Runs(Init(header), actions, hash) &&
      var s := After(Init(header), actions, hash);
      Good(s, hash) && s.phase.Idle? && off in s.pages && s.last == Some(Commit(mb, map[off := Page(SECTOR, [7])]))
      && !Survives(s, off, [8])
  {
    hide *;
    var off, mb := |header|, MetaBlock(1, 1, |header|, SECTOR, |header| + SECTOR);
    var front, commit := [Alloc(1), WritePage(off, [7])], [BeginCommit(mb), IssueMetaBlock, EndCommit];
    TwoSteps(header, hash);
    var t := After(Init(header), front, hash);
    FitsWidths(|header|);
    Published(t, mb, hash);
    RunsConcat(Init(header), front, commit, hash);
    assert front + commit == [Alloc(1), WritePage(off, [7]), BeginCommit(mb), IssueMetaBlock, EndCommit];
    var s := After(Init(header), front + commit, hash);
    InitGood(header, hash);
    RunGood(Init(header), front + commit, hash);
    EightDiffers(s.last, off);
    RewriteKeepsIff(s, off, [8], hash);
  }

  lemma {:induction false} FitsWidths(n: nat)
    requires n + SECTOR < TWO_64
    ensures InRange(MetaBlock(1, 1, n, SECTOR, n + SECTOR))
  {
  }

  lemma {:induction false} EightDiffers(last: Option<Commit>, off: nat)
    requires last.Some? && off in last.value.pages && last.value.pages[off] == Page(SECTOR, [7])
    ensures !KeepsData(last, off, Padded([8], SECTOR))
  {
    FirstByte();
  }

  /** Three steps publish a metablock over the pages as they are. */
  lemma {:induction false} Published(s: State, mb: MetaBlock, hash: Hash)
    requires s.phase.Idle? && s.slots == [None, None] && InRange(mb) && mb.fileSize == s.offset
    ensures var actions := [BeginCommit(mb), IssueMetaBlock, EndCommit];
      Runs(s, actions, hash) &&
      var t := After(s, actions, hash);
      t.phase.Idle? && t.pages == s.pages && t.last == Some(Commit(mb, s.pages))
  {
    hide Pwrite, Fsync, WriteMetaBlock, Runs, After;
    ThreeSteps(s, mb, hash);
  }

  lemma {:induction false} FirstByte()
    ensures Padded([7], SECTOR)[0] == 7 && Padded([8], SECTOR)[0] == 8
    ensures Written([7], Page(SECTOR, [])) == Page(SECTOR, [7])
  {
  }

  lemma {:induction false} TwoSteps(header: Bytes, hash: Hash)
    requires GoodHeader(header)
    ensures var actions := [Alloc(1), WritePage(|header|, [7])];
      Runs(Init(header), actions, hash) &&
      var t := After(Init(header), actions, hash);
      t.phase.Idle? && t.slots == [None, None] && t.last == None && t.offset == |header| + SECTOR
      && t.pages == map[|header| := Page(SECTOR, [7])] && t.header == header
  {
    hide Pwrite, GoodHeader, Padded, Written;
    var a := [Alloc(1), WritePage(|header|, [7])];
    assert a[1..] == [a[1]] && a[1..][1..] == [];
    FirstByte();
    assert PageSize(1) == SECTOR;
    var s1 := Step(Init(header), a[0], hash);
    var s2 := Step(s1, a[1], hash);
    assert Runs(s2, [], hash) && After(s2, [], hash) == s2;
    assert Runs(s1, [a[1]], hash) && After(s1, [a[1]], hash) == s2;
  }

  lemma {:induction false} RunsConcat(s: State, a: seq<Action>, b: seq<Action>, hash: Hash)
    requires Runs(s, a, hash) && Runs(After(s, a, hash), b, hash)
    ensures Runs(s, a + b, hash) && After(s, a + b, hash) == After(After(s, a, hash), b, hash)
    decreases |a|
  {
    hide Enabled, Step;
    if a == [] {
      assert a + b == b;
    } else {
      assert (a + b)[1..] == a[1..] + b;
      RunsConcat(Step(s, a[0], hash), a[1..], b, hash);
    }
  }

  lemma {:induction false} RunGood(s: State, actions: seq<Action>, hash: Hash)
    requires Good(s, hash) && Sane(hash) && Runs(s, actions, hash)
    ensures Good(After(s, actions, hash), hash)
    decreases |actions|
  {
    hide Inv, Nested, Step, Enabled, Sane;
    if actions != [] {
      StepInv(s, actions[0], hash);
      StepNested(s, actions[0], hash);
      RunGood(Step(s, actions[0], hash), actions[1..], hash);
    }
  }
}
