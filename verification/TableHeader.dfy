/** The v0.2.0 file header: `v0_2_0::writeHeader` and `v0_2_0::readHeader`, and opening a file,
    columns included, after a crash. */
module TableHeader {
  import opened Messages
  import opened Wire
  import opened MetaBlocks
  import opened CrashSafety
  import opened Recovery
  import opened Restart

  const RESERVED: nat := 128
  const COLUMNS_POSITION: nat := META_BLOCK_POSITION + 2 * META_BLOCK_SIZE + RESERVED

  datatype ColumnHeader = ColumnHeader(logical: nat, storage: nat, id: nat, name: Bytes, rmax: nat, dmax: nat)

  predicate ColumnInRange(c: ColumnHeader) {
    c.logical < 256 && c.storage < 256 && c.id < TWO_64 && |c.name| < TWO_64 && c.rmax < TWO_64 && c.dmax < TWO_64
  }

  predicate AllInRange(cols: seq<ColumnHeader>) {
    |cols| < TWO_64 && forall i :: 0 <= i < |cols| ==> ColumnInRange(cols[i])
  }

  function ColumnBytes(c: ColumnHeader): Bytes {
    VarUInt(c.logical) + (VarUInt(c.storage) + (VarUInt(c.id)
      + (VarUInt(|c.name|) + (c.name + (VarUInt(c.rmax) + VarUInt(c.dmax))))))
  }

  function ColumnsBytes(cols: seq<ColumnHeader>): Bytes {
    if cols == [] then [] else ColumnBytes(cols[0]) + ColumnsBytes(cols[1..])
  }

  function Prelude(): (r: Bytes)
    ensures |r| == META_BLOCK_POSITION
  {
    MAGIC + UIntBytes(2, 2) + UIntBytes(0, 8)
  }

  function Unpadded(cols: seq<ColumnHeader>): Bytes {
    Prelude() + Zeros(2 * META_BLOCK_SIZE) + Zeros(RESERVED) + VarUInt(|cols|) + ColumnsBytes(cols)
  }

  /** The header, padded to whole sectors. */
  function Header(cols: seq<ColumnHeader>): Bytes {
    var n := |Unpadded(cols)|;
    PadFacts(n);
    Unpadded(cols) + Zeros(PadToNextSector(n) - n)
  }

  /** The writer's loop over the columns. */
  method WriteHeader(cols: seq<ColumnHeader>) returns (buf: Bytes)
    ensures buf == Header(cols)
  {
    hide ColumnBytes, Zeros, UIntBytes, VarUInt;
    buf := MAGIC + UIntBytes(2, 2) + UIntBytes(0, 8);
    buf := buf + Zeros(2 * META_BLOCK_SIZE) + Zeros(RESERVED);
    buf := AppendVarUInt(buf, |cols|);
    ghost var front := buf;
    assert cols[0..] == cols;
    for i := 0 to |cols|
      invariant buf + ColumnsBytes(cols[i..]) == front + ColumnsBytes(cols)
    {
      assert cols[i..][1..] == cols[i + 1..];
      assert buf + (ColumnBytes(cols[i]) + ColumnsBytes(cols[i + 1..])) == buf + ColumnBytes(cols[i]) + ColumnsBytes(cols[i + 1..]);
      buf := AppendColumn(buf, cols[i]);
    }
    assert cols[|cols|..] == [] && buf + [] == buf;
    PadFacts(|buf|);
    buf := buf + Zeros(PadToNextSector(|buf|) - |buf|);
  }

  method AppendColumn(buf: Bytes, c: ColumnHeader) returns (out: Bytes)
    ensures out == buf + ColumnBytes(c)
  {
    out := AppendVarUInt(buf, c.logical);
    out := AppendVarUInt(out, c.storage);
    out := AppendVarUInt(out, c.id);
    out := AppendVarUInt(out, |c.name|);
    out := out + c.name;
    out := AppendVarUInt(out, c.rmax);
    out := AppendVarUInt(out, c.dmax);
  }

  function ReadColumn(bs: Bytes): (r: Read<ColumnHeader>) {
    match ReadVarUInt(bs)
    case Overrun => Overrun
    case Got(logical, b1) =>
    match ReadVarUInt(b1)
    case Overrun => Overrun
    case Got(storage, b2) =>
    match ReadVarUInt(b2)
    case Overrun => Overrun
    case Got(id, b3) =>
    match ReadVarUInt(b3)
    case Overrun => Overrun
    case Got(n, b4) =>
    match ReadBytes(b4, n)
    case Overrun => Overrun
    case Got(name, b5) =>
    match ReadVarUInt(b5)
    case Overrun => Overrun
    case Got(rmax, b6) =>
    match ReadVarUInt(b6)
    case Overrun => Overrun
    case Got(dmax, rest) =>
      Got(ColumnHeader(logical % 256, storage % 256, id, name, rmax, dmax), rest)
  }

  function ReadSome(bs: Bytes, n: nat): Option<seq<ColumnHeader>>
    decreases n
  {
    if n == 0 then Some([])
    else
      match ReadColumn(bs)
      case Overrun => None
      case Got(c, rest) =>
        var more := ReadSome(rest, n - 1);
        if more.None? then None else Some([c] + more.value)
  }

  /** The columns of a file, from its bytes; what the reader does behind the metablocks. */
  function ReadColumns(file: Bytes): Option<seq<ColumnHeader>> {
    if |file| < COLUMNS_POSITION then None
    else
      match ReadVarUInt(file[COLUMNS_POSITION..])
      case Overrun => None
      case Got(n, rest) => ReadSome(rest, n)
  }

  lemma {:induction false} VarUIntThen(n: nat, tail: Bytes, rest: Bytes)
    requires n < TWO_64
    ensures ReadVarUInt(VarUInt(n) + tail + rest) == Got(n, tail + rest)
  {
    assert VarUInt(n) + tail + rest == VarUInt(n) + (tail + rest);
    VarUIntRoundTrip(n, tail + rest);
  }

  /** A column is read from its bytes, its two types cut to one byte each. */
  lemma {:induction false} ColumnRead(c: ColumnHeader, rest: Bytes)
    requires c.logical < TWO_64 && c.storage < TWO_64 && c.id < TWO_64 && |c.name| < TWO_64 && c.rmax < TWO_64 && c.dmax < TWO_64
    ensures ReadColumn(ColumnBytes(c) + rest) == Got(c.(logical := c.logical % 0x100, storage := c.storage % 0x100), rest)
  {
    hide ReadVarUInt, VarUInt, ReadBytes;
    var t6 := VarUInt(c.dmax);
    var t5 := VarUInt(c.rmax) + t6;
    var t4 := c.name + t5;
    var t3 := VarUInt(|c.name|) + t4;
    var t2 := VarUInt(c.id) + t3;
    var t1 := VarUInt(c.storage) + t2;
    VarUIntThen(c.logical, t1, rest);
    VarUIntThen(c.storage, t2, rest);
    VarUIntThen(c.id, t3, rest);
    VarUIntThen(|c.name|, t4, rest);
    ReadBytesOf(c.name, t5 + rest);
    assert t4 + rest == c.name + (t5 + rest);
    VarUIntThen(c.rmax, t6, rest);
    VarUIntRoundTrip(c.dmax, rest);
  }

  lemma {:induction false} ColumnReadBack(c: ColumnHeader, rest: Bytes)
    requires ColumnInRange(c)
    ensures ReadColumn(ColumnBytes(c) + rest) == Got(c, rest)
  {
    hide ReadColumn, ColumnBytes;
    ColumnRead(c, rest);
  }

  lemma {:induction false} ColumnsReadBack(cols: seq<ColumnHeader>, rest: Bytes)
    requires forall i :: 0 <= i < |cols| ==> ColumnInRange(cols[i])
    ensures ReadSome(ColumnsBytes(cols) + rest, |cols|) == Some(cols)
    decreases |cols|
  {
    hide ReadColumn, ColumnBytes, ColumnInRange;
    if cols != [] {
      ColumnReadBack(cols[0], ColumnsBytes(cols[1..]) + rest);
      assert ColumnsBytes(cols) + rest == ColumnBytes(cols[0]) + (ColumnsBytes(cols[1..]) + rest);
      ColumnsReadBack(cols[1..], rest);
      assert [cols[0]] + cols[1..] == cols;
    }
  }

  /** The header a file is created with fits the commit protocol: whole sectors, magic bytes and
      version in place, both slots empty. */
  lemma {:induction false} HeaderIsGood(cols: seq<ColumnHeader>)
    ensures GoodHeader(Header(cols))
  {
    hide ColumnsBytes, VarUInt;
    PadFacts(|Unpadded(cols)|);
    var h := Header(cols);
    assert h[..4] == MAGIC && h[4] == UIntBytes(2, 2)[0];
    forall i | META_BLOCK_POSITION <= i < META_BLOCK_POSITION + 2 * META_BLOCK_SIZE ensures h[i] == 0 {
      assert h[i] == Zeros(2 * META_BLOCK_SIZE)[i - META_BLOCK_POSITION];
    }
  }

  /** Whatever the file holds in its slots and behind the header, the columns read back. */
  lemma {:induction false} HeaderReadBack(cols: seq<ColumnHeader>, file: Bytes)
    requires AllInRange(cols) && |file| >= |Header(cols)|
    requires forall i :: COLUMNS_POSITION <= i < |Header(cols)| ==> file[i] == Header(cols)[i]
    ensures ReadColumns(file) == Some(cols)
  {
    hide ColumnsBytes, VarUInt, Zeros, ReadSome, ReadVarUInt, Header, Unpadded;
    var n := |Unpadded(cols)|;
    PadFacts(n);
    var pad := Zeros(PadToNextSector(n) - n);
    var h := Header(cols);
    ColumnsPart(cols);
    TailOf(file, h, COLUMNS_POSITION, VarUInt(|cols|) + ColumnsBytes(cols), pad);
    VarUIntThen(|cols|, ColumnsBytes(cols), pad + file[|h|..]);
    ColumnsReadBack(cols, pad + file[|h|..]);
  }

  lemma {:induction false} ColumnsPart(cols: seq<ColumnHeader>)
    ensures var n := |Unpadded(cols)|;
            n <= PadToNextSector(n) && |Header(cols)| >= COLUMNS_POSITION
            && Header(cols)[COLUMNS_POSITION..] == VarUInt(|cols|) + ColumnsBytes(cols) + Zeros(PadToNextSector(n) - n)
  {
    hide ColumnsBytes, VarUInt;
    var n := |Unpadded(cols)|;
    PadFacts(n);
    var front := Prelude() + Zeros(2 * META_BLOCK_SIZE) + Zeros(RESERVED);
    assert Header(cols) == front + (VarUInt(|cols|) + ColumnsBytes(cols) + Zeros(PadToNextSector(n) - n));
  }

  lemma {:induction false} TailOf(file: Bytes, h: Bytes, p: nat, body: Bytes, pad: Bytes)
    requires p <= |h| <= |file| && h[p..] == body + pad && forall i :: p <= i < |h| ==> file[i] == h[i]
    ensures file[p..] == body + (pad + file[|h|..])
  {
    assert file[p..|h|] == h[p..];
    assert file[p..] == file[p..|h|] + file[|h|..];
  }

  // ---------------------------------------------------------------------------
  // The grammar of the header
  // ---------------------------------------------------------------------------

  /** What the grammar says of every column: logical type, storage type, id, the name behind its
      length, and the level maxima. */
  function ColumnInfos(cols: seq<ColumnHeader>): Bytes {
    if cols == [] then []
    else
      var c := cols[0];
      VarUInt(c.logical) + VarUInt(c.storage) + VarUInt(c.id) + VarUInt(|c.name|) + c.name + VarUInt(c.rmax) + VarUInt(c.dmax)
      + ColumnInfos(cols[1..])
  }

  lemma {:induction false} InfosAre(cols: seq<ColumnHeader>)
    ensures ColumnsBytes(cols) == ColumnInfos(cols)
    decreases |cols|
  {
    hide VarUInt;
    if cols != [] {
      InfosAre(cols[1..]);
      var c := cols[0];
      var head := VarUInt(c.logical) + VarUInt(c.storage) + VarUInt(c.id) + VarUInt(|c.name|) + c.name + VarUInt(c.rmax) + VarUInt(c.dmax);
      assert ColumnBytes(c) == head;
    }
  }

  lemma {:induction false} PreludeIs()
    ensures Prelude() == [0x23, 0x17, 0x23, 0x17, 2, 0] + Zeros(8)
  {
    assert UIntBytes(2, 2) == [2, 0] by {
      assert UIntBytes(2, 2) == [2] + UIntBytes(0, 1) && UIntBytes(0, 1) == [0] + UIntBytes(0, 0);
    }
    ZeroBytes(8);
  }

  /** The header of a file, byte for byte: magic bytes, version, flags, two empty metablocks,
      reserved bytes, the columns, and zeros up to the next multiple of 512. */
  lemma {:induction false} HeaderIs(cols: seq<ColumnHeader>) returns (pad: nat)
    ensures Header(cols) ==
      [0x23, 0x17, 0x23, 0x17, 2, 0] + Zeros(8) + Zeros(112) + Zeros(128) + VarUInt(|cols|) + ColumnInfos(cols) + Zeros(pad)
    ensures pad < 512 && |Header(cols)| % 512 == 0
  {
    hide VarUInt, UIntBytes, ColumnsBytes, ColumnInfos, Zeros, Prelude;
    PreludeIs();
    InfosAre(cols);
    var n := |Unpadded(cols)|;
    PadFacts(n);
    pad := PadToNextSector(n) - n;
  }

  lemma {:induction false} HeaderSurvives(s: State, img: Image, hash: Hash, i: nat)
    requires Inv(s, hash) && CrashImage(s.disk, img) && (s.last.Some? || !s.phase.Idle?)
    requires i < |s.header| && Fixed(i)
    ensures img(i) == s.header[i]
  {
    CrashByte(s.disk, img, i, s.header[i]);
  }

  lemma {:induction false} HeaderKept(s: State, events: seq<Event>, hash: Hash)
    requires History(s, events, hash)
    ensures Later(s, events, hash).header == s.header
    decreases |events|
  {
    if events != [] {
      HeaderKept(Follow(s, events[0], hash), events[1..], hash);
    }
  }

  /** After any history of steps, crashes and reopenings: whenever opening the crashed file finds
      a metablock, it also finds the columns the file was created with. */
  lemma {:induction false} OpensWithColumns(cols: seq<ColumnHeader>, events: seq<Event>, img: Image, hash: Hash, size: nat)
    requires AllInRange(cols) && Sane(hash) && History(Init(Header(cols)), events, hash)
    requires CrashImage(Later(Init(Header(cols)), events, hash).disk, img)
    requires Recover(img, hash).Some? && size >= |Header(cols)|
    ensures ReadColumns(ImageBytes(img, 0, size)) == Some(cols)
  {
    hide Inv, Nested, History, Later, CrashImage, Recover, Header, Sane, ReadColumns, AllInRange;
    var header := Header(cols);
    HeaderIsGood(cols);
    EveryHistoryCrashSafe(header, events, img, hash);
    InitGood(header, hash);
    HistoryGood(Init(header), events, hash);
    HeaderKept(Init(header), events, hash);
    var s := Later(Init(header), events, hash);
    forall i | COLUMNS_POSITION <= i < |header| ensures ImageBytes(img, 0, size)[i] == header[i] {
      HeaderSurvives(s, img, hash, i);
    }
    HeaderReadBack(cols, ImageBytes(img, 0, size));
  }
}
