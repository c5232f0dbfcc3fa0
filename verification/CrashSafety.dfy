/** The v0.2.0 commit protocol: an append-only page allocator and a two-slot metablock commit
    with write barriers, over a disk that may lose any part of what was not yet synced. */
module CrashSafety {
  import opened Messages
  import opened Wire
  import opened MetaBlocks

  // ---------------------------------------------------------------------------
  // A disk with volatile writes
  // ---------------------------------------------------------------------------

  /** File content; bytes never written read as zero. */
  type Image = nat -> Byte

  datatype Write = Write(off: nat, data: Bytes)

  /** What has reached the medium for sure, and the sector-sized writes issued since the last
      barrier. */
  datatype Disk = Disk(durable: Image, pending: seq<Write>)

  function Put(img: Image, w: Write): Image {
    (i: nat) => if w.off <= i < w.off + |w.data| then w.data[i - w.off] else img(i)
  }

  function PutAll(img: Image, ws: seq<Write>): Image {
    if ws == [] then img else PutAll(Put(img, ws[0]), ws[1..])
  }

  /** The part of the pending writes that happened to survive. */
  function PutSome(img: Image, ws: seq<Write>, keep: seq<bool>): Image
    requires |ws| == |keep|
  {
    if ws == [] then img
    else PutSome(if keep[0] then Put(img, ws[0]) else img, ws[1..], keep[1..])
  }

  /** A write, cut at sector boundaries: each piece is atomic. */
  function Pieces(off: nat, data: Bytes): seq<Write>
    decreases |data|
  {
    if data == [] then []
    else
      var n := SECTOR - off % SECTOR;
      if |data| <= n then [Write(off, data)] else [Write(off, data[..n])] + Pieces(off + n, data[n..])
  }

  function Pwrite(disk: Disk, off: nat, data: Bytes): Disk {
    disk.(pending := disk.pending + Pieces(off, data))
  }

  function Fsync(disk: Disk): Disk {
    Disk(PutAll(disk.durable, disk.pending), [])
  }

  predicate Agrees(w: Write, i: nat, b: Byte) {
    w.off <= i < w.off + |w.data| ==> w.data[i - w.off] == b
  }

  /** Whatever part of the pending writes survives, byte `i` reads as `b`. */
  ghost predicate Pinned(disk: Disk, i: nat, b: Byte) {
    disk.durable(i) == b && forall k :: 0 <= k < |disk.pending| ==> Agrees(disk.pending[k], i, b)
  }

  lemma {:induction false} PinnedSurvives(img: Image, ws: seq<Write>, keep: seq<bool>, i: nat, b: Byte)
    requires |ws| == |keep| && img(i) == b && forall k :: 0 <= k < |ws| ==> Agrees(ws[k], i, b)
    ensures PutSome(img, ws, keep)(i) == b
    decreases |ws|
  {
    if ws != [] {
      assert Agrees(ws[0], i, b);
      PinnedSurvives(if keep[0] then Put(img, ws[0]) else img, ws[1..], keep[1..], i, b);
    }
  }

  lemma {:induction false} PutAllAt(img: Image, ws: seq<Write>, i: nat, b: Byte)
    requires img(i) == b && forall k :: 0 <= k < |ws| ==> Agrees(ws[k], i, b)
    ensures PutAll(img, ws)(i) == b
    decreases |ws|
  {
    if ws != [] {
      assert Agrees(ws[0], i, b);
      PutAllAt(Put(img, ws[0]), ws[1..], i, b);
    }
  }

  lemma {:induction false} PutAllConcat(img: Image, a: seq<Write>, b: seq<Write>)
    ensures PutAll(img, a + b) == PutAll(PutAll(img, a), b)
    decreases |a|
  {
    if a == [] {
      assert a + b == b;
    } else {
      assert (a + b)[0] == a[0] && (a + b)[1..] == a[1..] + b;
      PutAllConcat(Put(img, a[0]), a[1..], b);
    }
  }

  /** A byte of the whole write is what one of its pieces holds; other bytes are untouched. */
  lemma {:induction false} PiecesAgree(off: nat, data: Bytes, i: nat, b: Byte)
    requires Agrees(Write(off, data), i, b)
    ensures forall k :: 0 <= k < |Pieces(off, data)| ==> Agrees(Pieces(off, data)[k], i, b)
    decreases |data|
  {
    if data != [] {
      var n := SECTOR - off % SECTOR;
      if |data| > n {
        PiecesAgree(off + n, data[n..], i, b);
      }
    }
  }

  lemma {:induction false} PutPiecesAt(img: Image, off: nat, data: Bytes, i: nat)
    ensures PutAll(img, Pieces(off, data))(i) == Put(img, Write(off, data))(i)
    decreases |data|
  {
    var n, ps := SECTOR - off % SECTOR, Pieces(off, data);
    if data != [] {
      if |data| > n {
        assert ps[0] == Write(off, data[..n]) && ps[1..] == Pieces(off + n, data[n..]);
        assert PutAll(img, ps) == PutAll(Put(img, ps[0]), ps[1..]);
        PutPiecesAt(Put(img, ps[0]), off + n, data[n..], i);
        PutSplit(img, off, data, n, i);
      } else {
        assert ps[1..] == [];
        assert PutAll(img, ps) == PutAll(Put(img, ps[0]), []);
      }
    }
  }

  lemma {:induction false} PutSplit(img: Image, off: nat, data: Bytes, n: nat, i: nat)
    requires n <= |data|
    ensures Put(Put(img, Write(off, data[..n])), Write(off + n, data[n..]))(i) == Put(img, Write(off, data))(i)
  {
  }

  /** A write is cut into pieces that follow each other, each inside one sector of 512 bytes, and
      only where a sector ends. */
  lemma {:induction false} PiecesAreSectors(off: nat, data: Bytes, k: nat)
    requires k < |Pieces(off, data)|
    ensures var p := Pieces(off, data)[k];
            && p.data != [] && p.off / 512 == (p.off + |p.data| - 1) / 512
            && (k == 0 ==> p.off == off)
            && (k > 0 ==> var q := Pieces(off, data)[k - 1]; p.off % 512 == 0 && p.off == q.off + |q.data|)
            && (k == |Pieces(off, data)| - 1 ==> p.off + |p.data| == off + |data|)
    decreases k
  {
    var n := SECTOR - off % SECTOR;
    if |data| > n {
      assert Pieces(off, data) == [Write(off, data[..n])] + Pieces(off + n, data[n..]);
      assert data[n..] != [] && Pieces(off + n, data[n..]) != [];
      if k > 0 {
        PiecesAreSectors(off + n, data[n..], k - 1);
      }
    }
  }

  predicate Covers(w: Write, i: nat) {
    w.off <= i < w.off + |w.data|
  }

  predicate LastKept(ws: seq<Write>, keep: seq<bool>, k: nat, i: nat)
    requires |ws| == |keep|
  {
    k < |ws| && keep[k] && Covers(ws[k], i) && forall m :: k < m < |ws| && keep[m] ==> !Covers(ws[m], i)
  }

  predicate Untouched(ws: seq<Write>, keep: seq<bool>, i: nat)
    requires |ws| == |keep|
  {
    forall m :: 0 <= m < |ws| && keep[m] ==> !Covers(ws[m], i)
  }

  /** Every byte is either untouched by what survives or has a last surviving write. */
  lemma {:induction false} LastKeptOrUntouched(ws: seq<Write>, keep: seq<bool>, i: nat) returns (k: nat)
    requires |ws| == |keep|
    ensures Untouched(ws, keep, i) || LastKept(ws, keep, k, i)
    decreases |ws|
  {
    k := 0;
    if ws != [] {
      var last := |ws| - 1;
      if keep[last] && Covers(ws[last], i) {
        k := last;
      } else {
        k := LastKeptOrUntouched(ws[..last], keep[..last], i);
        assert forall m :: 0 <= m < last ==> ws[..last][m] == ws[m] && keep[..last][m] == keep[m];
      }
    }
  }

  /** A byte of the file holds what the last surviving write to it left there. */
  lemma {:induction false} SurvivorByte(img: Image, ws: seq<Write>, keep: seq<bool>, k: nat, i: nat)
    requires |ws| == |keep|
    ensures LastKept(ws, keep, k, i) ==> PutSome(img, ws, keep)(i) == ws[k].data[i - ws[k].off]
    ensures Untouched(ws, keep, i) ==> PutSome(img, ws, keep)(i) == img(i)
    decreases |ws|
  {
    if ws != [] {
      var img', ws', keep' := if keep[0] then Put(img, ws[0]) else img, ws[1..], keep[1..];
      assert forall m :: 0 <= m < |ws'| ==> ws'[m] == ws[m + 1] && keep'[m] == keep[m + 1];
      SurvivorByte(img', ws', keep', if k == 0 then 0 else k - 1, i);
      if LastKept(ws, keep, k, i) {
        if k == 0 {
          assert Untouched(ws', keep', i);
        } else {
          assert LastKept(ws', keep', k - 1, i);
        }
      }
      if Untouched(ws, keep, i) {
        assert keep[0] ==> !Covers(ws[0], i);
        assert Untouched(ws', keep', i);
      }
    }
  }

  /** A crash may keep any of the writes since the last sync and lose any others: every choice
      gives a file that the disk may hold. */
  lemma {:induction false} AnySurvive(disk: Disk, keep: seq<bool>) returns (img: Image)
    requires |keep| == |disk.pending|
    ensures CrashImage(disk, img)
    ensures forall i: nat, k: nat :: LastKept(disk.pending, keep, k, i) ==> img(i) == disk.pending[k].data[i - disk.pending[k].off]
    ensures forall i: nat :: Untouched(disk.pending, keep, i) ==> img(i) == disk.durable(i)
  {
    img := PutSome(disk.durable, disk.pending, keep);
    forall i: nat, k: nat
      ensures LastKept(disk.pending, keep, k, i) ==> img(i) == disk.pending[k].data[i - disk.pending[k].off]
      ensures Untouched(disk.pending, keep, i) ==> img(i) == disk.durable(i)
    {
      SurvivorByte(disk.durable, disk.pending, keep, k, i);
    }
    assert forall i: nat :: img(i) == PutSome(disk.durable, disk.pending, keep)(i);
  }

  // ---------------------------------------------------------------------------
  // Pages
  // ---------------------------------------------------------------------------

  function PadToNextSector(n: nat): nat {
    (n + SECTOR - 1) / SECTOR * SECTOR
  }

  lemma {:induction false} PadFacts(n: nat)
    ensures n <= PadToNextSector(n) < n + SECTOR && PadToNextSector(n) % SECTOR == 0
  {
  }

  /** A page: its size and the data last written to it. */
  datatype Page = Page(size: nat, data: Bytes)

  type Pages = map<nat, Page>

  /** Page sizes are 32 bits wide. */
  function PageSize(size: nat): (r: nat)
    ensures r < TWO_32
  {
    PadToNextSector(size % TWO_32) % TWO_32
  }

  /** The page holds what was asked for exactly when the padded size still fits 32 bits, and is
      then less than a sector larger; beyond that a page has no bytes at all. */
  lemma {:induction false} PageHoldsRequest(size: nat)
    ensures PageSize(size) >= size <==> size <= TWO_32 - 512
    ensures size <= TWO_32 - 512 ==> PageSize(size) < size + 512
    ensures TWO_32 - 512 < size < TWO_32 ==> PageSize(size) == 0
    ensures PageSize(size) % 512 == 0 && (size >= TWO_32 ==> PageSize(size) == PageSize(size % TWO_32))
  {
    hide PadToNextSector;
    var n := size % TWO_32;
    PadFacts(n);
    var p := PadToNextSector(n);
    assert p <= TWO_32;
    assert p == TWO_32 || p % TWO_32 == p;
    if size < TWO_32 {
      assert n == size;
      assert size > TWO_32 - SECTOR ==> p == TWO_32;
    }
  }

  /** Pages are sector-aligned, lie between the header and the end of the file, and do not
      overlap. */
  ghost predicate Laid(pages: Pages, header: nat, end: nat) {
    && (forall off :: off in pages ==>
          off % SECTOR == 0 && pages[off].size > 0 && pages[off].size % SECTOR == 0 && header <= off && off + pages[off].size <= end &&
          |pages[off].data| <= pages[off].size)
    && (forall a, b :: a in pages && b in pages && a < b ==> a + pages[a].size <= b)
  }

  /** Every byte of used page data reads back from the image. */
  ghost predicate Holds(img: Image, pages: Pages) {
    forall off, i :: off in pages && 0 <= i < |pages[off].data| ==> img(off + i) == pages[off].data[i]
  }

  /** The same pages, perhaps with more data appended to them, perhaps with new pages. */
  ghost predicate Extends(later: Pages, earlier: Pages) {
    forall off :: off in earlier ==> off in later && later[off].size == earlier[off].size && earlier[off].data <= later[off].data
  }

  // ---------------------------------------------------------------------------
  // The protocol
  // ---------------------------------------------------------------------------

  /** A committed transaction: its metablock and the pages as they were when it was issued. */
  datatype Commit = Commit(mb: MetaBlock, pages: Pages)

  /** Where a commit stands: not begun, data synced, metablock issued. */
  datatype Phase = Idle | Synced(tx: Commit) | Issued(tx: Commit)

  /** The file, the allocator position, the pages handed out, and, for the specification, the
      commits in the two slots and the last one completed. */
  datatype State = State(
    disk: Disk,
    header: Bytes,
    offset: nat,
    pages: Pages,
    phase: Phase,
    slots: seq<Option<Commit>>,
    last: Option<Commit>)

  datatype Action =
    | Alloc(size: nat)
    | WritePage(off: nat, data: Bytes)
    | BeginCommit(mb: MetaBlock)
    | IssueMetaBlock
    | EndCommit

  /** The header as written when the file is created: magic, version and two empty slots. */
  ghost predicate GoodHeader(header: Bytes) {
    && |header| % SECTOR == 0 && |header| >= SECTOR
    && header[..4] == MAGIC && header[4] == 2
    && forall i :: META_BLOCK_POSITION <= i < META_BLOCK_POSITION + 2 * META_BLOCK_SIZE ==> header[i] == 0
  }

  ghost function Init(header: Bytes): State {
    State(Pwrite(Disk((i: nat) => 0, []), 0, header), header, |header|, map[], Idle, [None, None], None)
  }

  function Padded(data: Bytes, size: nat): (r: Bytes)
    ensures |r| == size
  {
    if |data| >= size then data[..size] else data + Zeros(size - |data|)
  }

  /** A page after a write: what the buffer holds, and, where it is shorter than the data already
      there, the padding that replaces the rest. */
  function Written(data: Bytes, page: Page): (r: Page)
    ensures r.size == page.size && |r.data| <= page.size && r.data <= Padded(data, page.size)
    ensures |r.data| >= |page.data| || |r.data| == page.size
    ensures page.data == [] && |data| <= page.size ==> r.data == data
  {
    var n := if |data| > |page.data| then |data| else |page.data|;
    Page(page.size, Padded(data, page.size)[..if n > page.size then page.size else n])
  }

  /** What each step needs. A page that belongs to a commit in one of the slots is only
      rewritten with bytes that begin with the data committed, and the id of a transaction
      exceeds the one in the slot it does not overwrite. */
  ghost predicate Enabled(s: State, a: Action)
    requires |s.slots| == 2
  {
    match a
    case Alloc(size) => s.phase.Idle?
    case WritePage(off, data) =>
      s.phase.Idle? && off in s.pages && forall k :: 0 <= k < 2 ==> KeepsData(s.slots[k], off, Padded(data, s.pages[off].size))
    case BeginCommit(mb) => s.phase.Idle? && InRange(mb) && mb.fileSize == s.offset && Newer(mb.txid, s.slots)
    case IssueMetaBlock => s.phase.Synced?
    case EndCommit => s.phase.Issued?
  }

  /** The data committed to this page, if any, is a prefix of the bytes written to it. */
  predicate KeepsData(c: Option<Commit>, off: nat, data: Bytes) {
    c.Some? && off in c.value.pages ==> c.value.pages[off].data <= data
  }

  predicate Newer(txid: nat, slots: seq<Option<Commit>>)
    requires |slots| == 2
  {
    var other := slots[1 - txid % 2];
    other.Some? ==> other.value.mb.txid < txid
  }

  ghost function Step(s: State, a: Action, hash: Hash): State
    requires |s.slots| == 2 && Enabled(s, a)
  {
    match a
    case Alloc(size) =>
      if PageSize(size) == 0 then s else
      s.(offset := s.offset + PageSize(size), pages := s.pages[s.offset := Page(PageSize(size), [])])
    case WritePage(off, data) =>
      var size := s.pages[off].size;
      s.(disk := Pwrite(s.disk, off, Padded(data, size)), pages := s.pages[off := Written(data, s.pages[off])])
    case BeginCommit(mb) =>
      s.(disk := Fsync(s.disk), phase := Synced(Commit(mb, s.pages)))
    case IssueMetaBlock =>
      s.(disk := Pwrite(s.disk, SlotOffset(s.phase.tx.mb.txid), WriteMetaBlock(s.phase.tx.mb, hash)), phase := Issued(s.phase.tx))
    case EndCommit =>
      s.(disk := Fsync(s.disk), phase := Idle, slots := s.slots[s.phase.tx.mb.txid % 2 := Some(s.phase.tx)], last := Some(s.phase.tx))
  }

  // ---------------------------------------------------------------------------
  // Recovery
  // ---------------------------------------------------------------------------

  function ImageBytes(img: Image, off: nat, n: nat): (r: Bytes)
    ensures |r| == n && forall i :: 0 <= i < n ==> r[i] == img(off + i)
  {
    seq(n, i requires 0 <= i < n => img(off + i))
  }

  /** Open a file: check magic and version, then choose between the valid metablocks. */
  function Recover(img: Image, hash: Hash): Option<MetaBlock> {
    if ImageBytes(img, 0, 4) != MAGIC || img(4) != 2 then None
    else Choose(ReadMetaBlock(ImageBytes(img, SlotOffset(0), META_BLOCK_SIZE), hash),
                ReadMetaBlock(ImageBytes(img, SlotOffset(1), META_BLOCK_SIZE), hash))
  }

  /** An image the disk may hold after a crash. */
  ghost predicate CrashImage(disk: Disk, img: Image) {
    exists keep :: |keep| == |disk.pending| && (forall i: nat :: img(i) == PutSome(disk.durable, disk.pending, keep)(i))
  }

  // ---------------------------------------------------------------------------
  // The invariant
  // ---------------------------------------------------------------------------

  function SlotBytes(c: Option<Commit>, hash: Hash): Bytes {
    if c.None? then Zeros(META_BLOCK_SIZE) else WriteMetaBlock(c.value.mb, hash)
  }

  /** The bytes of a slot are settled: no pending write can change them. */
  ghost predicate SlotSettled(disk: Disk, k: nat, c: Option<Commit>, hash: Hash) {
    var bs := SlotBytes(c, hash);
    |bs| == META_BLOCK_SIZE && forall i :: 0 <= i < META_BLOCK_SIZE ==> Pinned(disk, SlotOffset(k) + i, bs[i])
  }

  ghost predicate SlotsSettled(disk: Disk, slots: seq<Option<Commit>>, hash: Hash) {
    |slots| == 2 && SlotSettled(disk, 0, slots[0], hash) && SlotSettled(disk, 1, slots[1], hash)
  }

  ghost predicate PagesSettled(disk: Disk, pages: Pages) {
    forall off, i :: off in pages && 0 <= i < |pages[off].data| ==> Pinned(disk, off + i, pages[off].data[i])
  }

  /** Bytes of the header outside the two slots; they are written once. */
  predicate Fixed(i: nat) { i < META_BLOCK_POSITION || i >= META_BLOCK_POSITION + 2 * META_BLOCK_SIZE }

  predicate InSlots(off: nat, n: nat) { META_BLOCK_POSITION <= off && off + n <= META_BLOCK_POSITION + 2 * META_BLOCK_SIZE }

  ghost predicate HeaderSettled(disk: Disk, header: Bytes) {
    forall i :: 0 <= i < |header| && Fixed(i) ==> Pinned(disk, i, header[i])
  }

  /** The pages of a commit are durable, and still part of the current pages. */
  ghost predicate CommitSettled(disk: Disk, pages: Pages, offset: nat, header: nat, c: Commit) {
    && InRange(c.mb) && Laid(c.pages, header, c.mb.fileSize) && c.mb.fileSize <= offset
    && Extends(pages, c.pages) && PagesSettled(disk, c.pages)
  }

  /** With everything written so far, the header and the page data read back. */
  ghost predicate Cached(disk: Disk, header: Bytes, pages: Pages) {
    && Holds(PutAll(disk.durable, disk.pending), pages)
    && forall i :: 0 <= i < |header| && Fixed(i) ==> PutAll(disk.durable, disk.pending)(i) == header[i]
  }

  ghost predicate SlotFits(s: State, k: nat)
    requires k < |s.slots|
  {
    s.slots[k].Some? ==>
      s.slots[k].value.mb.txid % 2 == k && CommitSettled(s.disk, s.pages, s.offset, |s.header|, s.slots[k].value)
  }

  ghost predicate Inv(s: State, hash: Hash) {
    && |s.slots| == 2 && GoodHeader(s.header)
    && |s.header| <= s.offset && s.offset % SECTOR == 0 && Laid(s.pages, |s.header|, s.offset)
    && Cached(s.disk, s.header, s.pages)
    && (s.last.Some? || !s.phase.Idle? ==> HeaderSettled(s.disk, s.header))
    && SlotFits(s, 0) && SlotFits(s, 1)
    && LastIsNewest(s.last, s.slots)
    && match s.phase {
      case Idle => SlotsSettled(s.disk, s.slots, hash)
      case Synced(tx) => SlotsSettled(s.disk, s.slots, hash) && s.disk.pending == [] && Ready(s, tx)
      case Issued(tx) =>
        && SlotsSettled(s.disk.(pending := []), s.slots, hash) && Ready(s, tx)
        && s.disk.pending == [Write(SlotOffset(tx.mb.txid), WriteMetaBlock(tx.mb, hash))]
    }
  }

  ghost predicate Ready(s: State, tx: Commit)
    requires |s.slots| == 2
  {
    CommitSettled(s.disk, s.pages, s.offset, |s.header|, tx) && Newer(tx.mb.txid, s.slots)
  }

  /** The last completed commit is the one that opening the file would choose. */
  ghost predicate LastIsNewest(last: Option<Commit>, slots: seq<Option<Commit>>)
    requires |slots| == 2
  {
    match last
    case None => slots[0].None? && slots[1].None?
    case Some(c) => slots[c.mb.txid % 2] == Some(c) && Newer(c.mb.txid, slots)
  }

  // ---------------------------------------------------------------------------
  // Writes and barriers on settled bytes
  // ---------------------------------------------------------------------------

  lemma {:induction false} PwritePinned(disk: Disk, off: nat, data: Bytes, i: nat, b: Byte)
    requires Pinned(disk, i, b) && Agrees(Write(off, data), i, b)
    ensures Pinned(Pwrite(disk, off, data), i, b)
  {
    PiecesAgree(off, data, i, b);
  }

  lemma {:induction false} FsyncPinned(disk: Disk, i: nat, b: Byte)
    requires Pinned(disk, i, b)
    ensures Pinned(Fsync(disk), i, b)
  {
    PutAllAt(disk.durable, disk.pending, i, b);
  }

  lemma {:induction false} PwriteCache(disk: Disk, off: nat, data: Bytes, i: nat)
    ensures var disk' := Pwrite(disk, off, data);
            PutAll(disk'.durable, disk'.pending)(i) == Put(PutAll(disk.durable, disk.pending), Write(off, data))(i)
  {
    PutAllConcat(disk.durable, disk.pending, Pieces(off, data));
    PutPiecesAt(PutAll(disk.durable, disk.pending), off, data, i);
  }

  lemma {:induction false} OnePiece(off: nat, data: Bytes)
    requires data != [] && off % SECTOR + |data| <= SECTOR
    ensures Pieces(off, data) == [Write(off, data)]
  {
  }

  /** A write outside the slots keeps a settled slot settled. */
  lemma {:induction false} PwriteKeepsSlot(disk: Disk, off: nat, data: Bytes, k: nat, c: Option<Commit>, hash: Hash)
    requires SlotSettled(disk, k, c, hash) && off >= SECTOR
    ensures SlotSettled(Pwrite(disk, off, data), k, c, hash)
  {
    var bs := SlotBytes(c, hash);
    forall i | 0 <= i < META_BLOCK_SIZE ensures Pinned(Pwrite(disk, off, data), SlotOffset(k) + i, bs[i]) {
      PwritePinned(disk, off, data, SlotOffset(k) + i, bs[i]);
    }
  }

  lemma {:induction false} FsyncKeepsSlot(disk: Disk, k: nat, c: Option<Commit>, hash: Hash)
    requires SlotSettled(disk, k, c, hash)
    ensures SlotSettled(Fsync(disk), k, c, hash)
  {
    hide Pinned, Fsync, WriteMetaBlock;
    var bs := SlotBytes(c, hash);
    forall i | 0 <= i < META_BLOCK_SIZE ensures Pinned(Fsync(disk), SlotOffset(k) + i, bs[i]) {
      FsyncPinned(disk, SlotOffset(k) + i, bs[i]);
    }
  }

  lemma {:induction false} FsyncKeepsSlots(disk: Disk, slots: seq<Option<Commit>>, hash: Hash)
    requires SlotsSettled(disk, slots, hash)
    ensures SlotsSettled(Fsync(disk), slots, hash)
  {
    hide SlotSettled, Fsync;
    FsyncKeepsSlot(disk, 0, slots[0], hash);
    FsyncKeepsSlot(disk, 1, slots[1], hash);
  }

  lemma {:induction false} PwriteKeepsHeader(disk: Disk, header: Bytes, off: nat, data: Bytes)
    requires HeaderSettled(disk, header) && (off >= |header| || InSlots(off, |data|))
    ensures HeaderSettled(Pwrite(disk, off, data), header)
  {
    forall i | 0 <= i < |header| && Fixed(i) ensures Pinned(Pwrite(disk, off, data), i, header[i]) {
      PwritePinned(disk, off, data, i, header[i]);
    }
  }

  lemma {:induction false} FsyncKeepsHeader(disk: Disk, header: Bytes)
    requires HeaderSettled(disk, header)
    ensures HeaderSettled(Fsync(disk), header)
  {
    forall i | 0 <= i < |header| && Fixed(i) ensures Pinned(Fsync(disk), i, header[i]) {
      FsyncPinned(disk, i, header[i]);
    }
  }

  /** Syncing settles everything that was written. */
  lemma {:induction false} FsyncSettles(disk: Disk, header: Bytes, pages: Pages)
    requires Cached(disk, header, pages)
    ensures PagesSettled(Fsync(disk), pages) && HeaderSettled(Fsync(disk), header) && Cached(Fsync(disk), header, pages)
  {
    assert PutAll(Fsync(disk).durable, []) == PutAll(disk.durable, disk.pending);
  }

  lemma {:induction false} FsyncKeepsCommit(disk: Disk, pages: Pages, offset: nat, header: nat, c: Commit)
    requires CommitSettled(disk, pages, offset, header, c)
    ensures CommitSettled(Fsync(disk), pages, offset, header, c)
  {
    forall off, i | off in c.pages && 0 <= i < |c.pages[off].data| ensures Pinned(Fsync(disk), off + i, c.pages[off].data[i]) {
      FsyncPinned(disk, off + i, c.pages[off].data[i]);
    }
  }

  /** A page rewritten with bytes that begin with its committed data agrees with every committed byte. */
  lemma {:induction false} PageWriteAgrees(pages: Pages, header: nat, end: nat, committed: Pages, off: nat, data: Bytes, o: nat, i: nat)
    requires Laid(pages, header, end) && off in pages && Extends(pages, committed)
    requires off in committed ==> committed[off].data <= Padded(data, pages[off].size)
    requires o in committed && i < |committed[o].data|
    ensures Agrees(Write(off, Padded(data, pages[off].size)), o + i, committed[o].data[i])
  {
    if o == off {
      assert committed[off].data[i] == Padded(data, pages[off].size)[i];
    } else if o < off {
      assert o + pages[o].size <= off;
    } else {
      assert off + pages[off].size <= o;
    }
  }

  lemma {:induction false} WrittenExtends(pages: Pages, committed: Pages, off: nat, data: Bytes)
    requires Extends(pages, committed) && off in pages
    requires off in committed ==> committed[off].data <= Padded(data, pages[off].size)
    ensures Extends(pages[off := Written(data, pages[off])], committed)
  {
  }

  /** Writing such bytes to one page keeps every commit settled. */
  lemma {:induction false} WritePageKeepsCommit(disk: Disk, pages: Pages, offset: nat, header: nat, c: Commit, off: nat, data: Bytes)
    requires CommitSettled(disk, pages, offset, header, c) && Laid(pages, header, offset)
    requires off in pages && KeepsData(Some(c), off, Padded(data, pages[off].size))
    ensures var size := pages[off].size;
            CommitSettled(Pwrite(disk, off, Padded(data, size)), pages[off := Written(data, pages[off])], offset, header, c)
  {
    hide Padded, Written, Pwrite, Pinned, Agrees;
    var size := pages[off].size;
    var pages' := pages[off := Written(data, pages[off])];
    WrittenExtends(pages, c.pages, off, data);
    forall o, i | o in c.pages && 0 <= i < |c.pages[o].data|
      ensures Pinned(Pwrite(disk, off, Padded(data, size)), o + i, c.pages[o].data[i])
    {
      PageWriteAgrees(pages, header, offset, c.pages, off, data, o, i);
      PwritePinned(disk, off, Padded(data, size), o + i, c.pages[o].data[i]);
    }
  }

  lemma {:induction false} WritePageCached(disk: Disk, header: Bytes, pages: Pages, offset: nat, off: nat, data: Bytes)
    requires Cached(disk, header, pages) && Laid(pages, |header|, offset) && |header| >= SECTOR
    requires off in pages
    ensures var size := pages[off].size;
            Cached(Pwrite(disk, off, Padded(data, size)), header, pages[off := Written(data, pages[off])])
  {
    var size := pages[off].size;
    var disk', pages' := Pwrite(disk, off, Padded(data, size)), pages[off := Written(data, pages[off])];
    forall o, i | o in pages' && 0 <= i < |pages'[o].data|
      ensures PutAll(disk'.durable, disk'.pending)(o + i) == pages'[o].data[i]
    {
      PwriteCache(disk, off, Padded(data, size), o + i);
      if o < off {
        assert o + pages[o].size <= off;
      } else if o > off {
        assert off + pages[off].size <= o;
      }
    }
    forall i | 0 <= i < |header| && Fixed(i) ensures PutAll(disk'.durable, disk'.pending)(i) == header[i] {
      PwriteCache(disk, off, Padded(data, size), i);
    }
  }

  /** A write to a slot touches no page. */
  lemma {:induction false} SlotWriteKeepsCommit(disk: Disk, pages: Pages, offset: nat, header: nat, c: Commit, off: nat, bs: Bytes)
    requires CommitSettled(disk, pages, offset, header, c) && header >= SECTOR && off + |bs| <= SECTOR
    ensures CommitSettled(Pwrite(disk, off, bs), pages, offset, header, c)
  {
    forall o, i | o in c.pages && 0 <= i < |c.pages[o].data| ensures Pinned(Pwrite(disk, off, bs), o + i, c.pages[o].data[i]) {
      PwritePinned(disk, off, bs, o + i, c.pages[o].data[i]);
    }
  }

  lemma {:induction false} SlotWriteCached(disk: Disk, header: Bytes, pages: Pages, end: nat, off: nat, bs: Bytes)
    requires Cached(disk, header, pages) && Laid(pages, |header|, end) && |header| >= SECTOR && InSlots(off, |bs|)
    ensures Cached(Pwrite(disk, off, bs), header, pages)
  {
    var disk' := Pwrite(disk, off, bs);
    forall o, i | o in pages && 0 <= i < |pages[o].data| ensures PutAll(disk'.durable, disk'.pending)(o + i) == pages[o].data[i] {
      PwriteCache(disk, off, bs, o + i);
    }
    forall i | 0 <= i < |header| && Fixed(i) ensures PutAll(disk'.durable, disk'.pending)(i) == header[i] {
      PwriteCache(disk, off, bs, i);
    }
  }

  /** Once the metablock is synced its slot holds it; the other slot is as before. */
  lemma {:induction false} SlotWritten(durable: Image, slots: seq<Option<Commit>>, tx: Commit, hash: Hash)
    requires |WriteMetaBlock(tx.mb, hash)| == META_BLOCK_SIZE && SlotsSettled(Disk(durable, []), slots, hash)
    ensures var w := Write(SlotOffset(tx.mb.txid), WriteMetaBlock(tx.mb, hash));
            SlotsSettled(Fsync(Disk(durable, [w])), slots[tx.mb.txid % 2 := Some(tx)], hash)
  {
    hide SlotSettled, PutAll, WriteMetaBlock, SlotBytes;
    var t := tx.mb.txid % 2;
    var bs := WriteMetaBlock(tx.mb, hash);
    PutOne(durable, Write(SlotOffset(t), bs));
    SameSlot(tx.mb.txid);
    SlotHere(durable, t, tx, hash);
    SlotElsewhere(durable, t, bs, slots[1 - t], hash);
  }

  lemma {:induction false} SameSlot(txid: nat)
    ensures SlotOffset(txid) == SlotOffset(txid % 2)
  {
  }

  lemma {:induction false} PutOne(img: Image, w: Write)
    ensures PutAll(img, [w]) == Put(img, w)
  {
    assert [w][1..] == [];
    assert PutAll(Put(img, w), []) == Put(img, w);
  }

  lemma {:induction false} SlotHere(durable: Image, t: nat, tx: Commit, hash: Hash)
    requires |WriteMetaBlock(tx.mb, hash)| == META_BLOCK_SIZE
    ensures SlotSettled(Disk(Put(durable, Write(SlotOffset(t), WriteMetaBlock(tx.mb, hash))), []), t, Some(tx), hash)
  {
    hide WriteMetaBlock, SlotOffset;
  }

  lemma {:induction false} SlotElsewhere(durable: Image, t: nat, bs: Bytes, other: Option<Commit>, hash: Hash)
    requires t < 2 && |bs| == META_BLOCK_SIZE && SlotSettled(Disk(durable, []), 1 - t, other, hash)
    ensures SlotSettled(Disk(Put(durable, Write(SlotOffset(t), bs)), []), 1 - t, other, hash)
  {
    hide WriteMetaBlock, SlotBytes;
    SlotsApart();
    var bs' := SlotBytes(other, hash);
    forall i | 0 <= i < META_BLOCK_SIZE ensures Put(durable, Write(SlotOffset(t), bs))(SlotOffset(1 - t) + i) == bs'[i] {
      assert Pinned(Disk(durable, []), SlotOffset(1 - t) + i, bs'[i]);
    }
  }

  lemma {:induction false} SlotsApart()
    ensures SlotOffset(0) == 14 && SlotOffset(1) == 70
  {
  }

  // ---------------------------------------------------------------------------
  // Steps keep the invariant
  // ---------------------------------------------------------------------------

  lemma {:induction false} InitInv(header: Bytes, hash: Hash)
    requires GoodHeader(header) && Sane(hash)
    ensures Inv(Init(header), hash)
  {
    var s, zero := Init(header), Disk((i: nat) => 0, []);
    forall k | 0 <= k < 2 ensures SlotSettled(s.disk, k, None, hash) {
      var bs := SlotBytes(None, hash);
      forall i | 0 <= i < META_BLOCK_SIZE ensures Pinned(s.disk, SlotOffset(k) + i, bs[i]) {
        PwritePinned(zero, 0, header, SlotOffset(k) + i, 0);
      }
    }
    forall i | 0 <= i < |header| && Fixed(i) ensures PutAll(s.disk.durable, s.disk.pending)(i) == header[i] {
      PwriteCache(zero, 0, header, i);
    }
  }

  lemma {:induction false} AllocKeeps(s: State, size: nat)
    requires Laid(s.pages, |s.header|, s.offset) && s.offset % SECTOR == 0 && |s.header| <= s.offset && PageSize(size) > 0
    requires Cached(s.disk, s.header, s.pages)
    ensures var offset', pages' := s.offset + PageSize(size), s.pages[s.offset := Page(PageSize(size), [])];
            && offset' % SECTOR == 0 && Laid(pages', |s.header|, offset') && Cached(s.disk, s.header, pages')
            && forall c :: CommitSettled(s.disk, s.pages, s.offset, |s.header|, c) ==>
                 CommitSettled(s.disk, pages', offset', |s.header|, c)
  {
    PageHoldsRequest(size);
    assert s.offset !in s.pages;
  }

  lemma {:induction false} StepInv(s: State, a: Action, hash: Hash)
    requires Inv(s, hash) && Enabled(s, a) && Sane(hash)
    ensures Inv(Step(s, a, hash), hash)
  {
    hide SlotsSettled, SlotSettled, CommitSettled, Cached, Laid, HeaderSettled, PagesSettled, Pwrite, Fsync, WriteMetaBlock,
         Padded, Written, PageSize, PutAll, Pieces, Sane, InRange;
    match a
    case Alloc(size) =>
      if PageSize(size) > 0 {
        AllocKeeps(s, size);
      }
    case WritePage(off, data) =>
      WritePageInv(s, off, data, hash);
    case BeginCommit(mb) =>
      BeginInv(s, mb, hash);
    case IssueMetaBlock =>
      IssueInv(s, hash);
    case EndCommit =>
      EndInv(s, hash);
  }

  lemma {:induction false} LaidAt(pages: Pages, header: nat, end: nat, off: nat, data: Bytes)
    requires Laid(pages, header, end) && off in pages
    ensures header <= off && Laid(pages[off := Written(data, pages[off])], header, end)
  {
  }

  lemma {:induction false} WritePageInv(s: State, off: nat, data: Bytes, hash: Hash)
    requires Inv(s, hash) && Enabled(s, WritePage(off, data))
    ensures Inv(Step(s, WritePage(off, data), hash), hash)
  {
    hide SlotSettled, CommitSettled, Cached, Laid, HeaderSettled, Pwrite, Padded, Written;
    var padded := Padded(data, s.pages[off].size);
    LaidAt(s.pages, |s.header|, s.offset, off, data);
    PwriteKeepsSlot(s.disk, off, padded, 0, s.slots[0], hash);
    PwriteKeepsSlot(s.disk, off, padded, 1, s.slots[1], hash);
    if s.last.Some? {
      PwriteKeepsHeader(s.disk, s.header, off, padded);
    }
    WritePageCached(s.disk, s.header, s.pages, s.offset, off, data);
    if s.slots[0].Some? {
      WritePageKeepsCommit(s.disk, s.pages, s.offset, |s.header|, s.slots[0].value, off, data);
    }
    if s.slots[1].Some? {
      WritePageKeepsCommit(s.disk, s.pages, s.offset, |s.header|, s.slots[1].value, off, data);
    }
  }

  lemma {:induction false} BeginInv(s: State, mb: MetaBlock, hash: Hash)
    requires Inv(s, hash) && Enabled(s, BeginCommit(mb))
    ensures Inv(Step(s, BeginCommit(mb), hash), hash)
  {
    hide SlotsSettled, SlotSettled, Cached, Laid, HeaderSettled, PagesSettled, PutAll;
    FsyncKeepsSlots(s.disk, s.slots, hash);
    FsyncSettles(s.disk, s.header, s.pages);
    if s.slots[0].Some? {
      FsyncKeepsCommit(s.disk, s.pages, s.offset, |s.header|, s.slots[0].value);
    }
    if s.slots[1].Some? {
      FsyncKeepsCommit(s.disk, s.pages, s.offset, |s.header|, s.slots[1].value);
    }
  }

  lemma {:induction false} IssueInv(s: State, hash: Hash)
    requires Inv(s, hash) && Enabled(s, IssueMetaBlock) && Sane(hash)
    ensures Inv(Step(s, IssueMetaBlock, hash), hash)
  {
    hide SlotsSettled, SlotSettled, CommitSettled, Cached, Laid, HeaderSettled, PagesSettled, WriteMetaBlock, PutAll, Sane;
    var tx := s.phase.tx;
    var off, bs := SlotOffset(tx.mb.txid), WriteMetaBlock(tx.mb, hash);
    BlockSized(s, tx, hash);
    OnePiece(off, bs);
    assert Pwrite(s.disk, off, bs) == Disk(s.disk.durable, [Write(off, bs)]);
    SlotWriteCached(s.disk, s.header, s.pages, s.offset, off, bs);
    PwriteKeepsHeader(s.disk, s.header, off, bs);
    SlotWriteKeepsCommit(s.disk, s.pages, s.offset, |s.header|, tx, off, bs);
    if s.slots[0].Some? {
      SlotWriteKeepsCommit(s.disk, s.pages, s.offset, |s.header|, s.slots[0].value, off, bs);
    }
    if s.slots[1].Some? {
      SlotWriteKeepsCommit(s.disk, s.pages, s.offset, |s.header|, s.slots[1].value, off, bs);
    }
  }

  lemma {:induction false} BlockSized(s: State, tx: Commit, hash: Hash)
    requires CommitSettled(s.disk, s.pages, s.offset, |s.header|, tx) && Sane(hash)
    ensures InRange(tx.mb) && |WriteMetaBlock(tx.mb, hash)| == META_BLOCK_SIZE
    ensures SlotOffset(tx.mb.txid) % SECTOR + META_BLOCK_SIZE <= SECTOR && InSlots(SlotOffset(tx.mb.txid), META_BLOCK_SIZE)
    ensures SlotOffset(tx.mb.txid) + META_BLOCK_SIZE <= SECTOR
  {
    hide WriteMetaBlock, ReadMetaBlock, Sane, Laid, Extends, PagesSettled;
    MetaBlockRoundTrip(tx.mb, hash);
    SameSlot(tx.mb.txid);
    SlotsApart();
  }

  lemma {:induction false} EndInv(s: State, hash: Hash)
    requires Inv(s, hash) && Enabled(s, EndCommit) && Sane(hash)
    ensures Inv(Step(s, EndCommit, hash), hash)
  {
    hide SlotsSettled, SlotSettled, CommitSettled, Cached, Laid, HeaderSettled, PagesSettled, WriteMetaBlock, PutAll, Sane, Fsync;
    var tx := s.phase.tx;
    BlockSized(s, tx, hash);
    SlotWritten(s.disk.durable, s.slots, tx, hash);
    FsyncSettles(s.disk, s.header, s.pages);
    FsyncKeepsCommit(s.disk, s.pages, s.offset, |s.header|, tx);
    if s.slots[0].Some? {
      FsyncKeepsCommit(s.disk, s.pages, s.offset, |s.header|, s.slots[0].value);
    }
    if s.slots[1].Some? {
      FsyncKeepsCommit(s.disk, s.pages, s.offset, |s.header|, s.slots[1].value);
    }
  }
}
