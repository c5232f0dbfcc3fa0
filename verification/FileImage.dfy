/** `CSTableWriter::commitV1` and `v0_1_0::readHeader`: a whole table as one file, header first,
    then the column bodies back to back. */
module FileImage {
  import opened Messages
  import opened Schemas
  import opened ColumnData
  import opened Wire
  import opened ColumnFile

  const MAGIC_UINT32: nat := 0x17231723
  const VERSION: nat := 1
  const FIXED_HEADER: nat := 26
  const CONFIG_OVERHEAD: nat := 32

  /** A column ready to be written: name, encoding, content, and the slack bytes of its buffer. */
  datatype TableColumn = TableColumn(name: Bytes, encoding: Encoding, content: Content, pad: Bytes)

  /** A column as the header describes it. */
  datatype FileConfig = FileConfig(storage: nat, name: Bytes, rmax: nat, dmax: nat, bodyOffset: nat, bodySize: nat)

  function StorageCode(e: Encoding): nat {
    match e
    case BooleanBitpacked => 1
    case UInt64Leb128 => 13
    case FloatIeee754 => 14
    case StringPlain => 100
  }

  function CodedEncoding(code: nat): Option<Encoding> {
    if code == 1 then Some(BooleanBitpacked)
    else if code == 13 then Some(UInt64Leb128)
    else if code == 14 then Some(FloatIeee754)
    else if code == 100 then Some(StringPlain)
    else None
  }

  ghost predicate Writable(col: TableColumn, codec: LevelCodec) {
    && Sound(col.content, col.encoding) && |col.pad| == Slack(col.encoding)
    && |col.name| < TWO_32 && col.content.rmax < TWO_32 && col.content.dmax < TWO_32 && |col.content.rlevels| < TWO_64
    && BodySize(col.content, col.encoding, codec) < TWO_64
  }

  ghost predicate AllWritable(cols: seq<TableColumn>, codec: LevelCodec) {
    forall i :: 0 <= i < |cols| ==> Writable(cols[i], codec)
  }

  // ---------------------------------------------------------------------------
  // The image
  // ---------------------------------------------------------------------------

  function Body(col: TableColumn, codec: LevelCodec): Bytes {
    BodyBytes(col.content, col.encoding, codec, col.pad)
  }

  function Bodies(cols: seq<TableColumn>, codec: LevelCodec): Bytes {
    if cols == [] then [] else Body(cols[0], codec) + Bodies(cols[1..], codec)
  }

  /** Header configurations, the bodies laid out from `offset` on. */
  function Layout(cols: seq<TableColumn>, offset: nat, codec: LevelCodec): (r: seq<FileConfig>)
    ensures |r| == |cols|
  {
    if cols == [] then []
    else
      var size := |Body(cols[0], codec)|;
      [FileConfig(StorageCode(cols[0].encoding), cols[0].name, cols[0].content.rmax, cols[0].content.dmax, offset, size)]
      + Layout(cols[1..], offset + size, codec)
  }

  function ConfigBytes(c: FileConfig): (r: Bytes)
    ensures |r| == CONFIG_OVERHEAD + |c.name|
  {
    UIntBytes(c.storage, 4) + UIntBytes(|c.name|, 4) + c.name + UIntBytes(c.rmax, 4) + UIntBytes(c.dmax, 4)
    + UIntBytes(c.bodyOffset, 8) + UIntBytes(c.bodySize, 8)
  }

  function ConfigsBytes(cs: seq<FileConfig>): Bytes {
    if cs == [] then [] else ConfigBytes(cs[0]) + ConfigsBytes(cs[1..])
  }

  function HeaderSize(cols: seq<TableColumn>): nat {
    if cols == [] then FIXED_HEADER else CONFIG_OVERHEAD + |cols[0].name| + HeaderSize(cols[1..])
  }

  function FixedHeader(numRows: nat, n: nat): (r: Bytes)
    ensures |r| == FIXED_HEADER
  {
    UIntBytes(MAGIC_UINT32, 4) + UIntBytes(VERSION, 2) + UIntBytes(0, 8) + UIntBytes(numRows, 8) + UIntBytes(n, 4)
  }

  function Header(cols: seq<TableColumn>, numRows: nat, codec: LevelCodec): Bytes {
    FixedHeader(numRows, |cols|) + ConfigsBytes(Layout(cols, HeaderSize(cols), codec))
  }

  function Image(cols: seq<TableColumn>, numRows: nat, codec: LevelCodec): Bytes {
    Header(cols, numRows, codec) + Bodies(cols, codec)
  }

  // ---------------------------------------------------------------------------
  // Reading
  // ---------------------------------------------------------------------------

  function ReadConfig(bs: Bytes): Read<FileConfig> {
    match ReadUInt(bs, 4)
    case Overrun => Overrun
    case Got(storage, bs1) =>
      match ReadUInt(bs1, 4)
      case Overrun => Overrun
      case Got(len, bs2) =>
        match ReadBytes(bs2, len)
        case Overrun => Overrun
        case Got(name, bs3) =>
          match ReadBytes(bs3, 24)
          case Overrun => Overrun
          case Got(t, bs4) =>
            Got(FileConfig(storage, name, UIntOf(t[..4]), UIntOf(t[4..8]), UIntOf(t[8..16]), UIntOf(t[16..24])), bs4)
  }

  function ReadConfigs(bs: Bytes, n: nat): Read<seq<FileConfig>>
    decreases n
  {
    if n == 0 then Got([], bs)
    else
      match ReadConfig(bs)
      case Overrun => Overrun
      case Got(c, rest) =>
        match ReadConfigs(rest, n - 1)
        case Overrun => Overrun
        case Got(cs, rest') => Got([c] + cs, rest')
  }

  /** Byte strings in dictionary order. */
  predicate Before(a: Bytes, b: Bytes) {
    b != [] && (a == [] || a[0] < b[0] || (a[0] == b[0] && Before(a[1..], b[1..])))
  }

  function InsertByName(c: FileConfig, cs: seq<FileConfig>): seq<FileConfig> {
    if cs == [] || !Before(cs[0].name, c.name) then [c] + cs else [cs[0]] + InsertByName(c, cs[1..])
  }

  function SortByName(cs: seq<FileConfig>): seq<FileConfig> {
    if cs == [] then [] else InsertByName(cs[0], SortByName(cs[1..]))
  }

  /** The number of rows and the columns by name. */
  function ReadHeader(bs: Bytes): Option<(nat, seq<FileConfig>)> {
    if |bs| < FIXED_HEADER || bs[..4] != UIntBytes(MAGIC_UINT32, 4) || bs[4] != VERSION then None
    else
      match ReadConfigs(bs[FIXED_HEADER..], UIntOf(bs[22..26]))
      case Overrun => None
      case Got(cs, _) => Some((UIntOf(bs[14..22]), SortByName(cs)))
  }

  /** Open the reader of one column. */
  function OpenColumn(file: Bytes, c: FileConfig, codec: LevelCodec): Option<Content> {
    if c.bodyOffset + c.bodySize > |file| then None
    else
      match CodedEncoding(c.storage)
      case None => None
      case Some(e) => ReadBody(file[c.bodyOffset..c.bodyOffset + c.bodySize], e, c.rmax, c.dmax, codec)
  }

  // ---------------------------------------------------------------------------
  // Round trip
  // ---------------------------------------------------------------------------

  lemma {:induction false} ConfigReadBack(c: FileConfig, rest: Bytes)
    requires c.storage < TWO_32 && |c.name| < TWO_32 && c.rmax < TWO_32 && c.dmax < TWO_32 && c.bodyOffset < TWO_64 && c.bodySize < TWO_64
    ensures ReadConfig(ConfigBytes(c) + rest) == Got(c, rest)
  {
    hide UIntBytes, UIntOf, ReadUInt, ReadBytes, Pow256;
    Pow256Values();
    var t := UIntBytes(c.rmax, 4) + UIntBytes(c.dmax, 4) + UIntBytes(c.bodyOffset, 8) + UIntBytes(c.bodySize, 8);
    var bs3 := t + rest;
    var bs2 := c.name + bs3;
    var bs1 := UIntBytes(|c.name|, 4) + bs2;
    assert ConfigBytes(c) + rest == UIntBytes(c.storage, 4) + bs1;
    ReadUIntOf(c.storage, 4, bs1);
    ReadUIntOf(|c.name|, 4, bs2);
    ReadBytesOf(c.name, bs3);
    ReadBytesOf(t, rest);
    assert t[..4] == UIntBytes(c.rmax, 4) && t[4..8] == UIntBytes(c.dmax, 4);
    assert t[8..16] == UIntBytes(c.bodyOffset, 8) && t[16..24] == UIntBytes(c.bodySize, 8);
    UIntRoundTrip(c.rmax, 4);
    UIntRoundTrip(c.dmax, 4);
    UIntRoundTrip(c.bodyOffset, 8);
    UIntRoundTrip(c.bodySize, 8);
  }

  ghost predicate ConfigInRange(c: FileConfig) {
    c.storage < TWO_32 && |c.name| < TWO_32 && c.rmax < TWO_32 && c.dmax < TWO_32 && c.bodyOffset < TWO_64 && c.bodySize < TWO_64
  }

  lemma {:induction false} ConfigsReadBack(cs: seq<FileConfig>, rest: Bytes)
    requires forall i :: 0 <= i < |cs| ==> ConfigInRange(cs[i])
    ensures ReadConfigs(ConfigsBytes(cs) + rest, |cs|) == Got(cs, rest)
    decreases |cs|
  {
    hide ConfigBytes, ReadConfig;
    if cs == [] {
      assert ConfigsBytes(cs) + rest == rest;
    } else {
      var tail := ConfigsBytes(cs[1..]) + rest;
      assert ConfigsBytes(cs) + rest == ConfigBytes(cs[0]) + tail;
      ConfigReadBack(cs[0], tail);
      ConfigsReadBack(cs[1..], rest);
      assert [cs[0]] + cs[1..] == cs;
    }
  }

  lemma {:induction false} ConfigsSize(cols: seq<TableColumn>, offset: nat, codec: LevelCodec)
    ensures |ConfigsBytes(Layout(cols, offset, codec))| + FIXED_HEADER == HeaderSize(cols)
  {
    hide Body, ConfigBytes;
    if cols != [] {
      var size := |Body(cols[0], codec)|;
      assert Layout(cols, offset, codec)[1..] == Layout(cols[1..], offset + size, codec);
      ConfigsSize(cols[1..], offset + size, codec);
    }
  }

  /** Where the i-th body lies: bodies follow each other without gap or overlap. */
  lemma {:induction false} BodyPlace(cols: seq<TableColumn>, offset: nat, codec: LevelCodec, i: nat)
    requires i < |cols|
    ensures var c := Layout(cols, offset, codec)[i];
            && c.bodySize == |Body(cols[i], codec)| && offset <= c.bodyOffset
            && c.bodyOffset - offset + c.bodySize <= |Bodies(cols, codec)|
            && Bodies(cols, codec)[c.bodyOffset - offset..c.bodyOffset - offset + c.bodySize] == Body(cols[i], codec)
            && c == FileConfig(StorageCode(cols[i].encoding), cols[i].name, cols[i].content.rmax, cols[i].content.dmax, c.bodyOffset, c.bodySize)
            && (i == 0 ==> c.bodyOffset == offset)
            && (i + 1 < |cols| ==> Layout(cols, offset, codec)[i + 1].bodyOffset == c.bodyOffset + c.bodySize)
            && (i + 1 == |cols| ==> c.bodyOffset - offset + c.bodySize == |Bodies(cols, codec)|)
    decreases i
  {
    hide Body;
    var size := |Body(cols[0], codec)|;
    var rest := Bodies(cols[1..], codec);
    if i == 0 {
      if |cols| > 1 {
        BodyPlaceNext(cols[1..], offset + size, codec);
      } else {
        assert cols[1..] == [] && rest == [];
      }
    } else {
      BodyPlace(cols[1..], offset + size, codec, i - 1);
      var c := Layout(cols[1..], offset + size, codec)[i - 1];
      var at := c.bodyOffset - (offset + size);
      SliceAfter(Body(cols[0], codec), rest, at, c.bodySize);
    }
  }

  lemma {:induction false} BodyPlaceNext(cols: seq<TableColumn>, offset: nat, codec: LevelCodec)
    requires cols != []
    ensures Layout(cols, offset, codec)[0].bodyOffset == offset
  {
  }

  lemma {:induction false} ImageSlices(cols: seq<TableColumn>, numRows: nat, codec: LevelCodec)
    ensures var file := Image(cols, numRows, codec);
            && |Header(cols, numRows, codec)| == HeaderSize(cols) && |file| == HeaderSize(cols) + |Bodies(cols, codec)|
            && file[..4] == UIntBytes(MAGIC_UINT32, 4) && file[4] == VERSION
            && file[14..22] == UIntBytes(numRows, 8) && file[22..26] == UIntBytes(|cols|, 4)
            && file[FIXED_HEADER..] == ConfigsBytes(Layout(cols, HeaderSize(cols), codec)) + Bodies(cols, codec)
  {
    ConfigsSize(cols, HeaderSize(cols), codec);
    VersionByte();
    hide UIntBytes, Layout, ConfigsBytes, Bodies, HeaderSize;
    var file := Image(cols, numRows, codec);
    var configs := ConfigsBytes(Layout(cols, HeaderSize(cols), codec));
    assert file == FixedHeader(numRows, |cols|) + (configs + Bodies(cols, codec));
    var fixed := FixedHeader(numRows, |cols|);
    assert fixed[..4] == UIntBytes(MAGIC_UINT32, 4) && fixed[4..6] == UIntBytes(VERSION, 2);
    assert fixed[14..22] == UIntBytes(numRows, 8) && fixed[22..26] == UIntBytes(|cols|, 4);
    assert file[..26] == fixed;
    assert file[4] == fixed[4..6][0];
    assert file[..4] == fixed[..4] && file[14..22] == fixed[14..22] && file[22..26] == fixed[22..26];
  }

  lemma {:induction false} VersionByte()
    ensures UIntBytes(VERSION, 2)[0] == VERSION
  {
  }

  /** Opening a written file returns the row count and the column configurations sorted by
      name; every column opens at its place and returns exactly what its writer received. */
  lemma {:induction false} FileRoundTrip(cols: seq<TableColumn>, numRows: nat, codec: LevelCodec)
    requires Faithful(codec) && AllWritable(cols, codec) && numRows < TWO_64 && |cols| < TWO_32
    requires |Image(cols, numRows, codec)| < TWO_64
    ensures var file, configs := Image(cols, numRows, codec), Layout(cols, HeaderSize(cols), codec);
            && ReadHeader(file) == Some((numRows, SortByName(configs)))
            && forall i :: 0 <= i < |cols| ==> OpenColumn(file, configs[i], codec) == Some(cols[i].content)
  {
    var file, configs := Image(cols, numRows, codec), Layout(cols, HeaderSize(cols), codec);
    ImageSlices(cols, numRows, codec);
    HeaderReadBack(cols, numRows, codec);
    forall i | 0 <= i < |cols| ensures OpenColumn(file, configs[i], codec) == Some(cols[i].content) {
      ColumnReadBack(cols, numRows, codec, i);
    }
  }

  lemma {:induction false} HeaderReadBack(cols: seq<TableColumn>, numRows: nat, codec: LevelCodec)
    requires AllWritable(cols, codec) && numRows < TWO_64 && |cols| < TWO_32 && |Image(cols, numRows, codec)| < TWO_64
    ensures ReadHeader(Image(cols, numRows, codec)) == Some((numRows, SortByName(Layout(cols, HeaderSize(cols), codec))))
  {
    hide UIntBytes, UIntOf, Pow256, Sound, SortByName;
    var file, configs := Image(cols, numRows, codec), Layout(cols, HeaderSize(cols), codec);
    Pow256Values();
    ImageSlices(cols, numRows, codec);
    UIntRoundTrip(numRows, 8);
    UIntRoundTrip(|cols|, 4);
    forall i | 0 <= i < |configs| ensures ConfigInRange(configs[i]) {
      BodyPlace(cols, HeaderSize(cols), codec, i);
      assert Writable(cols[i], codec);
    }
    ConfigsReadBack(configs, Bodies(cols, codec));
  }

  lemma {:induction false} ColumnReadBack(cols: seq<TableColumn>, numRows: nat, codec: LevelCodec, i: nat)
    requires Faithful(codec) && AllWritable(cols, codec) && i < |cols|
    ensures OpenColumn(Image(cols, numRows, codec), Layout(cols, HeaderSize(cols), codec)[i], codec) == Some(cols[i].content)
  {
    hide *;
    var c := Layout(cols, HeaderSize(cols), codec)[i];
    BodySlice(cols, numRows, codec, i);
    BodyPlace(cols, HeaderSize(cols), codec, i);
    WritableAt(cols, codec, i);
    BodyOpens(cols[i], codec);
    OpensBody(Image(cols, numRows, codec), c, cols[i].encoding, codec);
  }

  /** The header says where the body of a column lies in the file. */
  lemma {:induction false} BodySlice(cols: seq<TableColumn>, numRows: nat, codec: LevelCodec, i: nat)
    requires i < |cols|
    ensures var c, file := Layout(cols, HeaderSize(cols), codec)[i], Image(cols, numRows, codec);
            c.bodyOffset + c.bodySize <= |file| && file[c.bodyOffset..c.bodyOffset + c.bodySize] == Body(cols[i], codec)
  {
    hide *;
    var header, bodies, h := Header(cols, numRows, codec), Bodies(cols, codec), HeaderSize(cols);
    var c := Layout(cols, h, codec)[i];
    ImageSlices(cols, numRows, codec);
    ImageIs(cols, numRows, codec);
    BodyPlace(cols, h, codec, i);
    SliceAt(header, bodies, c.bodyOffset, c.bodySize);
  }

  lemma {:induction false} SliceAt(a: Bytes, b: Bytes, off: nat, n: nat)
    requires |a| <= off && off - |a| + n <= |b|
    ensures (a + b)[off..off + n] == b[off - |a|..off - |a| + n]
  {
    SliceAfter(a, b, off - |a|, n);
  }

  lemma {:induction false} ImageIs(cols: seq<TableColumn>, numRows: nat, codec: LevelCodec)
    ensures Image(cols, numRows, codec) == Header(cols, numRows, codec) + Bodies(cols, codec)
  {
  }

  lemma {:induction false} WritableAt(cols: seq<TableColumn>, codec: LevelCodec, i: nat)
    requires AllWritable(cols, codec) && i < |cols|
    ensures Writable(cols[i], codec)
  {
  }

  lemma {:induction false} SliceAfter(a: Bytes, b: Bytes, at: nat, n: nat)
    requires at + n <= |b|
    ensures (a + b)[|a| + at..|a| + at + n] == b[at..at + n]
  {
  }

  lemma {:induction false} OpensBody(file: Bytes, c: FileConfig, e: Encoding, codec: LevelCodec)
    requires c.bodyOffset + c.bodySize <= |file| && CodedEncoding(c.storage) == Some(e)
    ensures OpenColumn(file, c, codec) == ReadBody(file[c.bodyOffset..c.bodyOffset + c.bodySize], e, c.rmax, c.dmax, codec)
  {
    hide ReadBody;
  }

  lemma {:induction false} BodyOpens(col: TableColumn, codec: LevelCodec)
    requires Faithful(codec) && Writable(col, codec)
    ensures CodedEncoding(StorageCode(col.encoding)) == Some(col.encoding)
    ensures ReadBody(Body(col, codec), col.encoding, col.content.rmax, col.content.dmax, codec) == Some(col.content)
  {
    hide BodyBytes, ReadBody, Faithful;
    BodyRoundTrip(col.content, col.encoding, codec, col.pad);
  }

  // ---------------------------------------------------------------------------
  // What the reader accepts
  // ---------------------------------------------------------------------------

  ghost predicate AllConfigsInRange(cs: seq<FileConfig>) {
    forall i :: 0 <= i < |cs| ==> ConfigInRange(cs[i])
  }

  /** A text begins with the header of a file: magic bytes, version, any flags, the number of rows,
      the number of columns, and their configurations. */
  ghost predicate IsHeader(bs: Bytes, numRows: nat, cs: seq<FileConfig>) {
    && |bs| >= 26 && bs[..5] == [0x23, 0x17, 0x23, 0x17, 1]
    && numRows < TWO_64 && bs[14..22] == UIntBytes(numRows, 8)
    && |cs| < TWO_32 && bs[22..26] == UIntBytes(|cs|, 4)
    && AllConfigsInRange(cs) && ConfigsBytes(cs) <= bs[26..]
  }

  lemma {:induction false} HeaderStart(bs: Bytes)
    requires |bs| >= 26
    ensures bs[..4] == UIntBytes(MAGIC_UINT32, 4) && bs[4] == VERSION <==> bs[..5] == [0x23, 0x17, 0x23, 0x17, 1]
  {
    MagicBytes();
    assert bs[..5] == bs[..4] + [bs[4]];
  }

  lemma {:induction false} MagicBytes()
    ensures UIntBytes(MAGIC_UINT32, 4) == [0x23, 0x17, 0x23, 0x17] && UIntBytes(VERSION, 2) == [1, 0]
  {
    hide UIntBytes;
    FirstUIntByte(0x17231723, 3);
    FirstUIntByte(0x172317, 2);
    FirstUIntByte(0x1723, 1);
    FirstUIntByte(0x17, 0);
    FirstUIntByte(1, 1);
    FirstUIntByte(0, 0);
  }

  lemma {:induction false} FirstUIntByte(n: nat, width: nat)
    ensures UIntBytes(n, width + 1) == [n % 256] + UIntBytes(n / 256, width)
    ensures width == 0 ==> UIntBytes(n, 1) == [n % 256]
  {
  }

  lemma {:induction false} ConfigAccepted(bs: Bytes)
    requires ReadConfig(bs).Got?
    ensures var c := ReadConfig(bs).value; ConfigInRange(c) && bs == ConfigBytes(c) + ReadConfig(bs).rest
  {
    hide UIntBytes, UIntOf, ReadUInt, Pow256;
    Pow256Values();
    UIntAccepted(bs, 4);
    var b1 := ReadUInt(bs, 4);
    UIntAccepted(b1.rest, 4);
    var b2 := ReadUInt(b1.rest, 4);
    var b3 := ReadBytes(b2.rest, b2.value);
    var b4 := ReadBytes(b3.rest, 24);
    var t, c := b4.value, ReadConfig(bs).value;
    UIntBelow(t[..4]);
    UIntBelow(t[4..8]);
    UIntBelow(t[8..16]);
    UIntBelow(t[16..24]);
    BytesOfUInt(t[..4]);
    BytesOfUInt(t[4..8]);
    BytesOfUInt(t[8..16]);
    BytesOfUInt(t[16..24]);
    FourParts(t, t[..4], t[4..8], t[8..16], t[16..24]);
    assert b3.rest == t + b4.rest && b2.rest == c.name + b3.rest;
    var a, b := UIntBytes(c.storage, 4), UIntBytes(|c.name|, 4);
    assert bs == a + (b + (c.name + (t + b4.rest)));
  }

  lemma {:induction false} FourParts(t: Bytes, a: Bytes, b: Bytes, c: Bytes, d: Bytes)
    requires |t| == 24 && a == t[..4] && b == t[4..8] && c == t[8..16] && d == t[16..24]
    ensures t == a + b + c + d
  {
  }

  lemma {:induction false} ConfigsAccepted(bs: Bytes, n: nat)
    requires ReadConfigs(bs, n).Got?
    ensures var cs := ReadConfigs(bs, n).value;
            |cs| == n && AllConfigsInRange(cs) && bs == ConfigsBytes(cs) + ReadConfigs(bs, n).rest
    decreases n
  {
    hide ReadConfig, ConfigBytes, ConfigInRange;
    if n > 0 {
      ConfigAccepted(bs);
      var c, rest := ReadConfig(bs).value, ReadConfig(bs).rest;
      ConfigsAccepted(rest, n - 1);
      var cs := ReadConfigs(rest, n - 1).value;
      assert ([c] + cs)[1..] == cs;
    }
  }

  /** Exactly the texts that begin with a header are accepted, and the row count and the columns
      returned are those of the header. */
  lemma {:induction false} AcceptsHeaders(bs: Bytes, numRows: nat, cs: seq<FileConfig>)
    requires IsHeader(bs, numRows, cs)
    ensures ReadHeader(bs) == Some((numRows, SortByName(cs)))
  {
    hide UIntBytes, UIntOf, Pow256, SortByName, ReadConfigs, ConfigsBytes;
    Pow256Values();
    HeaderStart(bs);
    UIntRoundTrip(numRows, 8);
    UIntRoundTrip(|cs|, 4);
    var rest := bs[26..][|ConfigsBytes(cs)|..];
    assert bs[26..] == ConfigsBytes(cs) + rest;
    ConfigsReadBack(cs, rest);
  }

  lemma {:induction false} AcceptsOnlyHeaders(bs: Bytes) returns (numRows: nat, cs: seq<FileConfig>)
    requires ReadHeader(bs).Some?
    ensures IsHeader(bs, numRows, cs)
  {
    hide UIntBytes, UIntOf, Pow256, SortByName, ReadConfigs, ConfigsBytes;
    Pow256Values();
    HeaderStart(bs);
    UIntBelow(bs[14..22]);
    BytesOfUInt(bs[14..22]);
    UIntBelow(bs[22..26]);
    BytesOfUInt(bs[22..26]);
    numRows := UIntOf(bs[14..22]);
    cs := ReadConfigs(bs[26..], UIntOf(bs[22..26])).value;
    ConfigsAccepted(bs[26..], UIntOf(bs[22..26]));
  }

  // ---------------------------------------------------------------------------
  // Sorting
  // ---------------------------------------------------------------------------

  ghost predicate SortedByName(cs: seq<FileConfig>) {
    forall i, j :: 0 <= i < j < |cs| ==> !Before(cs[j].name, cs[i].name)
  }

  lemma {:induction false} BeforeAsymmetric(a: Bytes, b: Bytes)
    requires Before(a, b)
    ensures !Before(b, a)
    decreases |a|
  {
    if a != [] && a[0] == b[0] {
      BeforeAsymmetric(a[1..], b[1..]);
    }
  }

  /** One name precedes another if it is a proper prefix, or has the smaller byte where they first
      differ. */
  lemma {:induction false} BeforeIs(a: Bytes, b: Bytes)
    ensures Before(a, b) <==>
            (a <= b && a != b) || exists k :: 0 <= k < |a| && k < |b| && a[..k] == b[..k] && a[k] < b[k]
    decreases |a|
  {
    if a != [] && b != [] {
      var a', b' := a[1..], b[1..];
      BeforeIs(a', b');
      if a[0] == b[0] {
        assert a == [a[0]] + a' && b == [b[0]] + b';
        assert a <= b <==> a' <= b';
        forall k | 0 <= k < |a'| && k < |b'| ensures (a'[..k] == b'[..k] <==> a[..k + 1] == b[..k + 1]) && a'[k] == a[k + 1] && b'[k] == b[k + 1] {
          assert a[..k + 1] == [a[0]] + a'[..k] && b[..k + 1] == [b[0]] + b'[..k];
          assert a[..k + 1][1..] == a'[..k] && b[..k + 1][1..] == b'[..k];
        }
        if k :| 0 <= k < |a'| && k < |b'| && a'[..k] == b'[..k] && a'[k] < b'[k] {
          assert a[..k + 1] == b[..k + 1] && a[k + 1] < b[k + 1];
        }
        if k :| 0 <= k < |a| && k < |b| && a[..k] == b[..k] && a[k] < b[k] {
          assert k > 0;
          assert a'[..k - 1] == b'[..k - 1] && a'[k - 1] < b'[k - 1];
        }
      } else {
        FirstDiffers(a, b);
      }
    }
  }

  lemma {:induction false} FirstDiffers(a: Bytes, b: Bytes)
    requires a != [] && b != [] && a[0] != b[0]
    ensures !(a <= b)
    ensures (exists k :: 0 <= k < |a| && k < |b| && a[..k] == b[..k] && a[k] < b[k]) <==> a[0] < b[0]
  {
    assert a[..0] == b[..0];
    if k :| 0 <= k < |a| && k < |b| && a[..k] == b[..k] && a[k] < b[k] {
      assert k > 0 ==> a[..k][0] == b[..k][0];
    }
  }

  lemma {:induction false} InsertSorted(c: FileConfig, cs: seq<FileConfig>)
    requires SortedByName(cs)
    ensures SortedByName(InsertByName(c, cs)) && multiset(InsertByName(c, cs)) == multiset([c]) + multiset(cs)
    decreases |cs|
  {
    hide Before;
    if cs == [] {
    } else if !Before(cs[0].name, c.name) {
      ConsSorted(c, cs);
    } else {
      assert cs == [cs[0]] + cs[1..];
      InsertSorted(c, cs[1..]);
      BeforeAsymmetric(cs[0].name, c.name);
      InsertAfterFirst(cs[0], c, cs[1..], InsertByName(c, cs[1..]));
    }
  }

  lemma {:induction false} ConsSorted(c: FileConfig, cs: seq<FileConfig>)
    requires SortedByName(cs) && cs != [] && !Before(cs[0].name, c.name)
    ensures SortedByName([c] + cs)
  {
    hide Before;
    var r := [c] + cs;
    forall j | 0 < j < |cs| ensures !Before(cs[j].name, c.name) {
      if Before(cs[j].name, c.name) {
        BeforeTrans(cs[0].name, cs[j].name, c.name);
      }
    }
  }

  lemma {:induction false} InsertAfterFirst(first: FileConfig, c: FileConfig, cs: seq<FileConfig>, rest: seq<FileConfig>)
    requires SortedByName([first] + cs) && SortedByName(rest) && multiset(rest) == multiset([c]) + multiset(cs)
    requires !Before(c.name, first.name)
    ensures SortedByName([first] + rest)
  {
    hide Before;
    forall j | 0 <= j < |rest| ensures !Before(rest[j].name, first.name) {
      assert rest[j] in multiset(rest);
      if rest[j] != c {
        assert rest[j] in multiset(cs);
        var k :| 0 <= k < |cs| && cs[k] == rest[j];
        var all := [first] + cs;
        assert all[0] == first && all[k + 1] == cs[k];
        assert !Before(all[k + 1].name, all[0].name);
      }
    }
  }

  /** If `b` does not precede `a` and `b` precedes `c`, then `a` precedes `c`. */
  lemma {:induction false} BeforeTrans(a: Bytes, b: Bytes, c: Bytes)
    requires !Before(b, a) && Before(b, c)
    ensures Before(a, c)
    decreases |b|
  {
    if a != [] && b != [] && a[0] == b[0] && b[0] == c[0] {
      BeforeTrans(a[1..], b[1..], c[1..]);
    }
  }

  /** The columns come back as a permutation of the written ones, in name order. */
  lemma {:induction false} SortPermutes(cs: seq<FileConfig>)
    ensures SortedByName(SortByName(cs)) && multiset(SortByName(cs)) == multiset(cs)
    decreases |cs|
  {
    if cs != [] {
      SortPermutes(cs[1..]);
      InsertSorted(cs[0], SortByName(cs[1..]));
      assert cs == [cs[0]] + cs[1..];
    }
  }

  // ---------------------------------------------------------------------------
  // Writing
  // ---------------------------------------------------------------------------

  lemma {:induction false} LayoutSnoc(cols: seq<TableColumn>, i: nat, offset: nat, codec: LevelCodec)
    requires i < |cols|
    ensures var c := cols[i];
            Layout(cols[..i + 1], offset, codec)
            == Layout(cols[..i], offset, codec)
               + [FileConfig(StorageCode(c.encoding), c.name, c.content.rmax, c.content.dmax, offset + |Bodies(cols[..i], codec)|, |Body(c, codec)|)]
    ensures Bodies(cols[..i + 1], codec) == Bodies(cols[..i], codec) + Body(cols[i], codec)
    decreases i
  {
    hide Body;
    if i == 0 {
      assert cols[..1] == [cols[0]] && cols[..0] == [] && [cols[0]][1..] == [];
      assert Bodies([cols[0]], codec) == Body(cols[0], codec) + [];
    } else {
      assert cols[..i + 1][1..] == cols[1..][..i] && cols[..i][1..] == cols[1..][..i - 1];
      LayoutSnoc(cols[1..], i - 1, offset + |Body(cols[0], codec)|, codec);
      var first, mid := Body(cols[0], codec), Bodies(cols[1..][..i - 1], codec);
      assert first + (mid + Body(cols[i], codec)) == (first + mid) + Body(cols[i], codec);
    }
  }

  lemma {:induction false} ConfigsSnoc(cs: seq<FileConfig>, c: FileConfig)
    ensures ConfigsBytes(cs + [c]) == ConfigsBytes(cs) + ConfigBytes(c)
    decreases |cs|
  {
    hide ConfigBytes;
    if cs == [] {
      assert cs + [c] == [c] && [c][1..] == [];
      assert ConfigsBytes([c]) == ConfigBytes(c) + [];
    } else {
      assert (cs + [c])[0] == cs[0] && (cs + [c])[1..] == cs[1..] + [c];
      ConfigsSnoc(cs[1..], c);
      assert ConfigBytes(cs[0]) + (ConfigsBytes(cs[1..]) + ConfigBytes(c)) == (ConfigBytes(cs[0]) + ConfigsBytes(cs[1..])) + ConfigBytes(c);
    }
  }

  lemma {:induction false} HeaderSizeSnoc(cols: seq<TableColumn>, i: nat)
    requires i < |cols|
    ensures HeaderSize(cols[..i + 1]) == HeaderSize(cols[..i]) + CONFIG_OVERHEAD + |cols[i].name|
    decreases i
  {
    if i == 0 {
      assert cols[..1] == [cols[0]] && cols[..0] == [] && [cols[0]][1..] == [];
      assert HeaderSize([]) == FIXED_HEADER;
      assert HeaderSize([cols[0]]) == CONFIG_OVERHEAD + |cols[0].name| + HeaderSize([]);
    } else {
      assert cols[..i + 1][1..] == cols[1..][..i] && cols[..i][1..] == cols[1..][..i - 1];
      HeaderSizeSnoc(cols[1..], i - 1);
    }
  }

  lemma {:induction false} BodyIsSized(col: TableColumn, codec: LevelCodec)
    requires |col.pad| == Slack(col.encoding)
    ensures |Body(col, codec)| == BodySize(col.content, col.encoding, codec)
  {
    hide DataBytes, UIntBytes;
  }

  /** Write the whole table: the first body starts where the header was computed to end, and
      every later one where the file has grown to. */
  method CommitV1(cols: seq<TableColumn>, numRows: nat, codec: LevelCodec) returns (file: Bytes)
    requires forall i :: 0 <= i < |cols| ==> |cols[i].pad| == Slack(cols[i].encoding)
    ensures file == Image(cols, numRows, codec)
  {
    hide Layout, Bodies, Body, HeaderSize, ConfigBytes, ConfigsBytes, UIntBytes, BodySize, Slack;
    var header := FixedHeader(numRows, |cols|);
    var offset := |header|;
    StartLayout(codec);
    assert cols[..0] == [];
    for i := 0 to |cols|
      invariant offset == HeaderSize(cols[..i])
    {
      HeaderSizeSnoc(cols, i);
      offset := offset + CONFIG_OVERHEAD + |cols[i].name|;
    }
    assert cols[..|cols|] == cols;
    ghost var h := HeaderSize(cols);

    var bodies: seq<(nat, nat)> := [];
    for i := 0 to |cols|
      invariant offset == h + |Bodies(cols[..i], codec)| && |bodies| == i
      invariant header == FixedHeader(numRows, |cols|) + ConfigsBytes(Layout(cols[..i], h, codec))
      invariant forall k :: 0 <= k < i ==> bodies[k] == (h + |Bodies(cols[..k], codec)|, |Body(cols[k], codec)|)
    {
      var c := cols[i];
      BodyIsSized(c, codec);
      LayoutSnoc(cols, i, h, codec);
      var size := BodySize(c.content, c.encoding, codec);
      var config := FileConfig(StorageCode(c.encoding), c.name, c.content.rmax, c.content.dmax, offset, size);
      ConfigsSnoc(Layout(cols[..i], h, codec), config);
      assert FixedHeader(numRows, |cols|) + (ConfigsBytes(Layout(cols[..i], h, codec)) + ConfigBytes(config))
          == (FixedHeader(numRows, |cols|) + ConfigsBytes(Layout(cols[..i], h, codec))) + ConfigBytes(config);
      bodies := bodies + [(offset, size)];
      offset := offset + size;
      header := header + ConfigBytes(config);
    }

    ConfigsSize(cols, h, codec);
    file := header;
    for i := 0 to |cols|
      invariant file == header + Bodies(cols[..i], codec)
    {
      var buf := Body(cols[i], codec);
      assert |file| == bodies[i].0 && |buf| == bodies[i].1;
      LayoutSnoc(cols, i, h, codec);
      assert header + (Bodies(cols[..i], codec) + buf) == (header + Bodies(cols[..i], codec)) + buf;
      file := WriteAt(file, bodies[i].0, buf);
    }
  }

  lemma {:induction false} StartLayout(codec: LevelCodec)
    ensures HeaderSize([]) == FIXED_HEADER && Bodies([], codec) == []
    ensures forall h :: Layout([], h, codec) == []
    ensures ConfigsBytes([]) == []
  {
  }

  /** Writing at a position inside or right after the file. */
  function WriteAt(file: Bytes, off: nat, data: Bytes): Bytes
    requires off <= |file|
  {
    if off + |data| <= |file| then file[..off] + data + file[off + |data|..] else file[..off] + data
  }
}
