/** The bytes of a v0.1.0 file, straight from the records: the grammar of the format with the
    values of every leaf in it, and that a stored table is exactly this text. */
module StoredBytes {
  import opened Messages
  import opened Schemas
  import opened ColumnData
  import opened Wire
  import opened ColumnFile
  import opened FileImage
  import opened Striping
  import opened LeafPaths
  import opened RecordShredder
  import opened RecordMaterializer
  import opened RoundTrip
  import opened LeafValues
  import opened StoredTable

  // ---------------------------------------------------------------------------
  // The values of the leaves
  // ---------------------------------------------------------------------------

  /** The values of a leaf, record after record. */
  function RowsValues(rows: seq<Message>, path: seq<Step>): seq<Value> {
    if rows == [] then []
    else RowsValues(rows[..|rows| - 1], path) + ValuesAt(rows[|rows| - 1], Ids(path))
  }

  ghost predicate AllTyped(vs: seq<Value>, ty: FieldType) {
    forall i :: 0 <= i < |vs| ==> Typed(vs[i], ty)
  }

  // ---------------------------------------------------------------------------
  // The grammar
  // ---------------------------------------------------------------------------

  /** Integers and times as variable-length integers, doubles as eight bytes, strings behind
      their length in four bytes. Booleans are bit packed and have no bytes of their own. */
  function ValueBytes(v: Value): Bytes {
    match v
    case UInt32Value(n) => VarUInt(n)
    case UInt64Value(n) => VarUInt(n)
    case DateTimeValue(micros) => VarUInt(micros)
    case DoubleValue(bits) => UIntBytes(bits, 8)
    case StringValue(s) => UIntBytes(|s|, 4) + s
    case BoolValue(_) => []
  }

  function ValuesBytes(vs: seq<Value>): Bytes {
    if vs == [] then [] else ValueBytes(vs[0]) + ValuesBytes(vs[1..])
  }

  function Bits(vs: seq<Value>): (r: seq<nat>)
    ensures |r| == |vs|
  {
    seq(|vs|, i requires 0 <= i < |vs| => if vs[i] == BoolValue(true) then 1 else 0)
  }

  function DataSection(vs: seq<Value>, ty: FieldType, codec: LevelCodec): Bytes {
    if ty.BoolType? then codec.enc(1, Bits(vs)) else ValuesBytes(vs)
  }

  function RepLevels(es: seq<Entry>): (r: seq<nat>)
    ensures |r| == |es| && forall i :: 0 <= i < |r| ==> r[i] == es[i].r
  {
    seq(|es|, i requires 0 <= i < |es| => es[i].r)
  }

  function DefLevels(es: seq<Entry>): (r: seq<nat>)
    ensures |r| == |es| && forall i :: 0 <= i < |r| ==> r[i] == es[i].d
  {
    seq(|es|, i requires 0 <= i < |es| => es[i].d)
  }

  /** The body of a leaf's column: the number of entries, the sizes of the sections, and the
      sections. A column of doubles is announced and padded with eight bytes more. */
  function LeafBody(l: Leaf, rows: seq<Message>, codec: LevelCodec): Bytes {
    var es := RowsStripe(rows, l.path);
    var rl, dl := codec.enc(RepLevel(l.path), RepLevels(es)), codec.enc(DefLevel(l.path), DefLevels(es));
    var data := DataSection(RowsValues(rows, l.path), l.ty, codec);
    var pad := if l.ty.DoubleType? then 8 else 0;
    UIntBytes(|es|, 8) + UIntBytes(|rl|, 8) + UIntBytes(|dl|, 8) + UIntBytes(|data| + pad, 8) + rl + dl + data + Zeros(pad)
  }

  function LeafBodies(leaves: seq<Leaf>, rows: seq<Message>, codec: LevelCodec): Bytes {
    if leaves == [] then [] else LeafBody(leaves[0], rows, codec) + LeafBodies(leaves[1..], rows, codec)
  }

  /** The number of an encoding in the format. */
  function EncodingNumber(ty: FieldType): nat {
    match ty
    case BoolType => 1
    case DoubleType => 14
    case StringType => 100
    case _ => 13
  }

  predicate ByteNames(leaves: seq<Leaf>) {
    forall i :: 0 <= i < |leaves| ==> ByteName(leaves[i].name)
  }

  /** What the header says of every column, the bodies following each other from `offset` on. */
  function LeafConfigs(leaves: seq<Leaf>, offset: nat, rows: seq<Message>, codec: LevelCodec): Bytes
    requires ByteNames(leaves)
  {
    if leaves == [] then []
    else
      var l, size := leaves[0], |LeafBody(leaves[0], rows, codec)|;
      assert ByteName(leaves[0].name);
      UIntBytes(EncodingNumber(l.ty), 4) + UIntBytes(|l.name|, 4) + NameBytes(l.name)
      + UIntBytes(RepLevel(l.path), 4) + UIntBytes(DefLevel(l.path), 4) + UIntBytes(offset, 8) + UIntBytes(size, 8)
      + LeafConfigs(leaves[1..], offset + size, rows, codec)
  }

  function NamesSize(leaves: seq<Leaf>): nat {
    if leaves == [] then 0 else 32 + |leaves[0].name| + NamesSize(leaves[1..])
  }

  /** The file of a list of records: magic bytes, version, flags, number of rows, number of
      columns, the column headers and the bodies. */
  function TableFile(leaves: seq<Leaf>, rows: seq<Message>, codec: LevelCodec): Bytes
    requires ByteNames(leaves)
  {
    [0x23, 0x17, 0x23, 0x17] + [1, 0] + Zeros(8) + UIntBytes(|rows|, 8) + UIntBytes(|leaves|, 4)
    + LeafConfigs(leaves, 26 + NamesSize(leaves), rows, codec) + LeafBodies(leaves, rows, codec)
  }

  // ---------------------------------------------------------------------------
  // The data of a stripe are the values of its leaf
  // ---------------------------------------------------------------------------

  function Data(vs: seq<Value>): (r: seq<Datum>)
    ensures |r| == |vs| && forall i :: 0 <= i < |r| ==> r[i] == ToDatum(vs[i])
  {
    seq(|vs|, i requires 0 <= i < |vs| => ToDatum(vs[i]))
  }

  lemma {:induction false} DataConcat(a: seq<Value>, b: seq<Value>)
    ensures Data(a + b) == Data(a) + Data(b)
  {
  }

  lemma {:induction false} OneData(e: Entry)
    ensures DataOf([e]) == if e.datum.Some? then [e.datum.value] else []
  {
    assert [e][1..] == [];
  }

  lemma {:induction false} StripeData(r: nat, base: nat, d: nat, o: Message, path: seq<Step>)
    requires path != []
    ensures DataOf(Stripe(r, base, d, o, path)) == Data(ValuesAt(o, Ids(path)))
    decreases |path|, 1, 0
  {
    hide Stripe, StripeAll, DataOf;
    var occ := Occurrences(Kids(o), path[0].id);
    StripeCases(r, base, d, o, path);
    assert Ids(path)[1..] == Ids(path[1..]);
    if occ == [] {
      OneData(Entry(r, d, None));
    } else {
      StripeAllData(r, base + Bit(path[0].repeated), d + Bit(path[0].repeated || path[0].optional), occ, path);
    }
  }

  lemma {:induction false} StripeAllData(r: nat, base: nat, d: nat, occ: seq<Message>, path: seq<Step>)
    requires path != [] && occ != []
    ensures DataOf(StripeAll(r, base, d, occ, path)) == Data(AllValuesAt(occ, Ids(path[1..])))
    decreases |path|, 0, |occ|
  {
    hide Stripe, StripeAll, DataOf, ValuesAt, Data;
    var first, rest := StripeOne(r, base, d, occ[0], path), StripeAll(base, base, d, occ[1..], path);
    var values, more := ValuesAt(occ[0], Ids(path[1..])), AllValuesAt(occ[1..], Ids(path[1..]));
    StripeSplit(r, base, d, occ, path);
    StripeOneData(r, base, d, occ[0], path);
    if |occ| > 1 {
      StripeAllData(base, base, d, occ[1..], path);
      DataOfConcat(first, rest);
      DataConcat(values, more);
    } else {
      assert values + [] == values;
    }
  }

  lemma {:induction false} StripeOneData(r: nat, base: nat, d: nat, x: Message, path: seq<Step>)
    requires path != []
    ensures DataOf(StripeOne(r, base, d, x, path)) == Data(ValuesAt(x, Ids(path[1..])))
    decreases |path|, 0, 0
  {
    if |path| > 1 {
      StripeData(r, base, d, x, path[1..]);
    } else {
      assert path[1..] == [];
      OneData(StripeOne(r, base, d, x, path)[0]);
    }
  }

  /** The data of a column are the values of its leaf, record after record. */
  lemma {:induction false} RowsData(rows: seq<Message>, path: seq<Step>)
    requires path != []
    ensures DataOf(RowsStripe(rows, path)) == Data(RowsValues(rows, path))
    decreases |rows|
  {
    hide Stripe, ValuesAt;
    if rows != [] {
      var front, last := rows[..|rows| - 1], rows[|rows| - 1];
      RowsData(front, path);
      StripeData(0, 0, 0, last, path);
      DataOfConcat(RowsStripe(front, path), Stripe(0, 0, 0, last, path));
      DataConcat(RowsValues(front, path), ValuesAt(last, Ids(path)));
    }
  }

  lemma {:induction false} ValuesTyped(o: Message, path: seq<Step>, ty: FieldType)
    requires path != [] && PathConforms(o, path, ty)
    ensures AllTyped(ValuesAt(o, Ids(path)), ty)
    decreases |path|, 1, 0
  {
    ConformingOccurrences(o, path, ty);
    assert Ids(path)[1..] == Ids(path[1..]);
    AllValuesTyped(Occurrences(Kids(o), path[0].id), path, ty);
  }

  lemma {:induction false} AllValuesTyped(occ: seq<Message>, path: seq<Step>, ty: FieldType)
    requires path != [] && AllConformBelow(occ, path, ty)
    ensures AllTyped(AllValuesAt(occ, Ids(path[1..])), ty)
    decreases |path|, 0, |occ|
  {
    if occ != [] {
      AllConformSplit(occ, path, ty);
      if |path| > 1 {
        ValuesTyped(occ[0], path[1..], ty);
      } else {
        assert path[1..] == [];
      }
      AllValuesTyped(occ[1..], path, ty);
    }
  }

  lemma {:induction false} RowsTyped(schema: seq<Field>, rows: seq<Message>, l: Leaf)
    requires WellFormed(schema) && l in Leaves("", schema)
    requires forall k :: 0 <= k < |rows| ==> Conforms(rows[k], schema)
    ensures AllTyped(RowsValues(rows, l.path), l.ty)
    decreases |rows|
  {
    hide Conforms, WellFormed, ValuesAt, PathConforms;
    if rows != [] {
      var last := rows[|rows| - 1];
      RowsTyped(schema, rows[..|rows| - 1], l);
      ConformsAlongPath(last, "", schema, l);
      ValuesTyped(last, l.path, l.ty);
    }
  }

  // ---------------------------------------------------------------------------
  // The bytes of a column
  // ---------------------------------------------------------------------------

  lemma {:induction false} PlainIs(vs: seq<Value>, ty: FieldType)
    requires AllTyped(vs, ty) && !ty.ObjectType? && !ty.BoolType?
    ensures PlainBytes(Data(vs), EncodingOf(ty)) == ValuesBytes(vs)
    decreases |vs|
  {
    if vs != [] {
      hide VarUInt, UIntBytes;
      assert Typed(vs[0], ty);
      assert Data(vs)[1..] == Data(vs[1..]);
      PlainIs(vs[1..], ty);
    }
  }

  /** The data section of a column holds the literal bytes of its values. */
  lemma {:induction false} SectionIs(vs: seq<Value>, ty: FieldType, codec: LevelCodec)
    requires AllTyped(vs, ty) && !ty.ObjectType?
    ensures DataBytes(Data(vs), EncodingOf(ty), codec) == DataSection(vs, ty, codec)
  {
    if ty.BoolType? {
      forall i | 0 <= i < |vs| ensures Numbers(Data(vs))[i] == Bits(vs)[i] {
        assert Typed(vs[i], ty);
      }
      assert Numbers(Data(vs)) == Bits(vs);
    } else {
      PlainIs(vs, ty);
    }
  }

  lemma {:induction false} BodyIs(schema: seq<Field>, rows: seq<Message>, l: Leaf, codec: LevelCodec)
    requires WellFormed(schema) && l in Leaves("", schema) && !l.ty.ObjectType?
    requires forall k :: 0 <= k < |rows| ==> Conforms(rows[k], schema)
    ensures var c := AppendAll(Empty(RepLevel(l.path), DefLevel(l.path)), RowsStripe(rows, l.path));
            BodyBytes(c, EncodingOf(l.ty), codec, Zeros(Slack(EncodingOf(l.ty)))) == LeafBody(l, rows, codec)
  {
    hide Conforms, WellFormed, Leaves, RowsStripe, RowsValues, RepLevel, DefLevel, AppendAll, DataOf, Data, DataBytes, DataSection, UIntBytes;
    var es := RowsStripe(rows, l.path);
    var c := AppendAll(Empty(RepLevel(l.path), DefLevel(l.path)), es);
    AppendAllFields(Empty(RepLevel(l.path), DefLevel(l.path)), es);
    assert c.rlevels == RepLevels(es) && c.dlevels == DefLevels(es);
    RowsData(rows, l.path);
    assert c.data == [] + DataOf(es) == Data(RowsValues(rows, l.path));
    RowsTyped(schema, rows, l);
    SectionIs(RowsValues(rows, l.path), l.ty, codec);
  }

  // ---------------------------------------------------------------------------
  // The bytes of the file
  // ---------------------------------------------------------------------------

  /** A column of the file stands for a leaf: its name, its encoding, its levels and its body. */
  ghost predicate StandsFor(col: TableColumn, l: Leaf, rows: seq<Message>, codec: LevelCodec) {
    && ByteName(l.name) && col.name == NameBytes(l.name)
    && !l.ty.ObjectType? && col.encoding == EncodingOf(l.ty)
    && col.content.rmax == RepLevel(l.path) && col.content.dmax == DefLevel(l.path)
    && Body(col, codec) == LeafBody(l, rows, codec)
  }

  ghost predicate AllStandFor(cols: seq<TableColumn>, leaves: seq<Leaf>, rows: seq<Message>, codec: LevelCodec) {
    |cols| == |leaves| && forall i :: 0 <= i < |cols| ==> StandsFor(cols[i], leaves[i], rows, codec)
  }

  lemma {:induction false} NamesAre(cols: seq<TableColumn>, leaves: seq<Leaf>, rows: seq<Message>, codec: LevelCodec)
    requires AllStandFor(cols, leaves, rows, codec)
    ensures ByteNames(leaves) && HeaderSize(cols) == 26 + NamesSize(leaves)
    decreases |cols|
  {
    hide Body, LeafBody, EncodingOf;
    if cols != [] {
      assert StandsFor(cols[0], leaves[0], rows, codec);
      NamesAre(cols[1..], leaves[1..], rows, codec);
    }
  }

  lemma {:induction false} PartsAre(cols: seq<TableColumn>, leaves: seq<Leaf>, offset: nat, rows: seq<Message>, codec: LevelCodec)
    requires AllStandFor(cols, leaves, rows, codec) && ByteNames(leaves)
    ensures ConfigsBytes(Layout(cols, offset, codec)) == LeafConfigs(leaves, offset, rows, codec)
    ensures Bodies(cols, codec) == LeafBodies(leaves, rows, codec)
    decreases |cols|
  {
    hide Body, LeafBody, UIntBytes, RepLevel, DefLevel, ByteName;
    if cols != [] {
      assert StandsFor(cols[0], leaves[0], rows, codec);
      var size := |Body(cols[0], codec)|;
      PartsAre(cols[1..], leaves[1..], offset + size, rows, codec);
      assert Layout(cols, offset, codec)[1..] == Layout(cols[1..], offset + size, codec);
    }
  }

  lemma {:induction false} FrontIs(numRows: nat, n: nat)
    ensures FixedHeader(numRows, n) == [0x23, 0x17, 0x23, 0x17] + [1, 0] + Zeros(8) + UIntBytes(numRows, 8) + UIntBytes(n, 4)
  {
    MagicBytes();
    ZeroBytes(8);
  }

  lemma {:induction false} ImageIsFile(cols: seq<TableColumn>, leaves: seq<Leaf>, rows: seq<Message>, codec: LevelCodec)
    requires AllStandFor(cols, leaves, rows, codec)
    ensures ByteNames(leaves) && Image(cols, |rows|, codec) == TableFile(leaves, rows, codec)
  {
    hide Layout, ConfigsBytes, Bodies, HeaderSize, FixedHeader, LeafConfigs, LeafBodies, NamesSize, StandsFor, UIntBytes;
    NamesAre(cols, leaves, rows, codec);
    PartsAre(cols, leaves, HeaderSize(cols), rows, codec);
    FrontIs(|rows|, |cols|);
  }

  /** The leaf that each flat column stands for. */
  lemma {:induction false} ColumnLeaves(columns: seq<Column>, schema: seq<Field>, n: nat) returns (leaves: seq<Leaf>)
    requires AllMatch(columns, schema) && n <= |FlatColumns(columns)|
    ensures |leaves| == n
    ensures forall i :: 0 <= i < n ==> leaves[i] in Leaves("", schema) && Configures(FlatColumns(columns)[i], leaves[i], 0, 0)
                                       && FlatColumns(columns)[i].name in AllFlatNames("", columns)
    decreases n
  {
    leaves := [];
    if n > 0 {
      var front := ColumnLeaves(columns, schema, n - 1);
      var l := AllFlatColumnsLeaf("", 0, 0, columns, schema, FlatColumns(columns)[n - 1]);
      leaves := front + [l];
    }
  }

  lemma {:induction false} ColumnStands(schema: seq<Field>, columns: seq<Column>, cols: Columns, rows: seq<Message>, codec: LevelCodec, i: nat, l: Leaf)
    requires SchemasMatch(schema, columns) && AllConform(rows, schema) && Stores(cols, schema, columns, rows)
    requires i < |FlatColumns(columns)| && l in Leaves("", schema) && Configures(FlatColumns(columns)[i], l, 0, 0)
    requires forall k :: 0 <= k < |FlatColumns(columns)| ==>
               ByteName(FlatColumns(columns)[k].name) && FlatColumns(columns)[k].name in cols
    ensures StandsFor(FileColumns(FlatColumns(columns), cols)[i], l, rows, codec)
  {
    hide AllMatch, WellFormed, DistinctNames, DistinctColumns, Conforms, RowsStripe, AppendAll, Leaves, RepLevel, DefLevel,
         AllFlatNames, ByteName, BodyBytes, LeafBody, ListAllFlatColumns;
    BodyIs(schema, rows, l, codec);
    AppendAllFields(Empty(RepLevel(l.path), DefLevel(l.path)), RowsStripe(rows, l.path));
  }

  /** With the derived table schema the leaves are those of the message schema, in their order. */
  lemma {:induction false} DerivedOrder(schema: seq<Field>, leaves: seq<Leaf>)
    requires WellFormed(schema) && DistinctNames(Leaves("", schema)) && |leaves| == |FlatColumns(FromProtobuf(schema))|
    requires forall i :: 0 <= i < |leaves| ==>
               leaves[i] in Leaves("", schema) && Configures(FlatColumns(FromProtobuf(schema))[i], leaves[i], 0, 0)
    ensures leaves == Leaves("", schema)
  {
    hide Leaves, WellFormed, DistinctNames, ListAllFlatColumns, FromProtobuf;
    DerivedColumns("", 0, 0, schema);
    forall i | 0 <= i < |leaves| ensures leaves[i] == Leaves("", schema)[i] {
      assert Leaves("", schema)[i] in Leaves("", schema);
      SameNameSameLeaf(schema, leaves[i], Leaves("", schema)[i]);
    }
  }

  /** A stored file is, byte for byte, the text that the grammar gives for its records: the values
      of every stored leaf in document order, under the levels of their entries. */
  lemma {:induction false} FileOfRecords(file: Bytes, schema: seq<Field>, columns: seq<Column>, cols: Columns, rows: seq<Message>, codec: LevelCodec)
    returns (leaves: seq<Leaf>)
    requires SchemasMatch(schema, columns) && AllConform(rows, schema) && IsFileOf(file, schema, columns, cols, rows, codec)
    ensures |leaves| == |FlatColumns(columns)| && ByteNames(leaves)
    ensures forall i :: 0 <= i < |leaves| ==> leaves[i] in Leaves("", schema) && Configures(FlatColumns(columns)[i], leaves[i], 0, 0)
    ensures columns == FromProtobuf(schema) ==> leaves == Leaves("", schema)
    ensures file == TableFile(leaves, rows, codec)
  {
    hide AllMatch, WellFormed, DistinctNames, DistinctColumns, Conforms, Configures, Leaves, Stores, Image, TableFile, FileColumns,
         AllWritable, StandsFor, FlatColumns;
    leaves := ColumnLeaves(columns, schema, |FlatColumns(columns)|);
    forall i | 0 <= i < |leaves| ensures StandsFor(FileColumns(FlatColumns(columns), cols)[i], leaves[i], rows, codec) {
      ColumnStands(schema, columns, cols, rows, codec, i, leaves[i]);
    }
    ImageIsFile(FileColumns(FlatColumns(columns), cols), leaves, rows, codec);
    if columns == FromProtobuf(schema) {
      SchemaFacts(schema, columns);
      DerivedOrder(schema, leaves);
    }
  }

  lemma {:induction false} SchemaFacts(schema: seq<Field>, columns: seq<Column>)
    requires SchemasMatch(schema, columns)
    ensures WellFormed(schema) && DistinctNames(Leaves("", schema))
  {
  }
}
