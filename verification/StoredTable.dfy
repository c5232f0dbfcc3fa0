/** From records to the bytes of a v0.1.0 file and back: shredding, writing the file, opening
    it and materializing the records. */
module StoredTable {
  import opened Messages
  import opened Schemas
  import opened ColumnData
  import opened Wire
  import opened ColumnFile
  import opened FileImage
  import opened Striping
  import opened Projection
  import opened LeafPaths
  import opened RecordShredder
  import opened RecordMaterializer
  import opened RoundTrip

  // ---------------------------------------------------------------------------
  // Shredded columns can be stored
  // ---------------------------------------------------------------------------

  function EncodingOf(ty: FieldType): Encoding
    requires !ty.ObjectType?
  {
    match ty
    case BoolType => BooleanBitpacked
    case StringType => StringPlain
    case DoubleType => FloatIeee754
    case _ => UInt64Leb128
  }

  ghost predicate DataFit(es: seq<Entry>, e: Encoding) {
    forall i :: 0 <= i < |es| && es[i].datum.Some? ==> Storable(es[i].datum.value, e)
  }

  lemma {:induction false} TypedIsStorable(v: Value, ty: FieldType)
    requires !ty.ObjectType? && Typed(v, ty)
    ensures Storable(ToDatum(v), EncodingOf(ty))
  {
  }

  lemma {:induction false} StripeFits(r: nat, base: nat, d: nat, o: Message, path: seq<Step>, ty: FieldType)
    requires path != [] && PathConforms(o, path, ty) && !ty.ObjectType?
    ensures DataFit(Stripe(r, base, d, o, path), EncodingOf(ty))
    decreases |path|, 1, 0
  {
    hide *;
    ConformingOccurrences(o, path, ty);
    StripeCases(r, base, d, o, path);
    var occ := Occurrences(Kids(o), path[0].id);
    if occ == [] {
      NullFits(r, d, EncodingOf(ty));
    } else {
      StripeAllFits(r, base + Bit(path[0].repeated), d + Bit(path[0].repeated || path[0].optional), occ, path, ty);
    }
  }

  lemma {:induction false} NullFits(r: nat, d: nat, e: Encoding)
    ensures DataFit([Entry(r, d, None)], e)
  {
  }

  lemma {:induction false} StripeAllFits(r: nat, base: nat, d: nat, occ: seq<Message>, path: seq<Step>, ty: FieldType)
    requires path != [] && occ != [] && AllConformBelow(occ, path, ty) && !ty.ObjectType?
    ensures DataFit(StripeAll(r, base, d, occ, path), EncodingOf(ty))
    decreases |path|, 0, |occ|
  {
    hide *;
    StripeSplit(r, base, d, occ, path);
    AllConformSplit(occ, path, ty);
    if |path| > 1 {
      BelowIsPath(occ[0], path, ty);
      StripeFits(r, base, d, occ[0], path[1..], ty);
      StripeOneIsStripe(r, base, d, occ[0], path);
    } else {
      LeafFits(r, base, d, occ[0], path, ty);
    }
    if |occ| > 1 {
      StripeAllFits(base, base, d, occ[1..], path, ty);
      FitsConcat(StripeOne(r, base, d, occ[0], path), StripeAll(base, base, d, occ[1..], path), EncodingOf(ty));
    }
  }

  lemma {:induction false} BelowIsPath(x: Message, path: seq<Step>, ty: FieldType)
    requires |path| > 1 && ConformsBelow(x, path, ty)
    ensures PathConforms(x, path[1..], ty)
  {
  }

  lemma {:induction false} StripeOneIsStripe(r: nat, base: nat, d: nat, x: Message, path: seq<Step>)
    requires |path| > 1
    ensures StripeOne(r, base, d, x, path) == Stripe(r, base, d, x, path[1..])
  {
  }

  lemma {:induction false} LeafFits(r: nat, base: nat, d: nat, x: Message, path: seq<Step>, ty: FieldType)
    requires |path| == 1 && ConformsBelow(x, path, ty) && !ty.ObjectType?
    ensures DataFit(StripeOne(r, base, d, x, path), EncodingOf(ty))
  {
    TypedIsStorable(x.value, ty);
  }

  lemma {:induction false} FitsConcat(a: seq<Entry>, b: seq<Entry>, e: Encoding)
    requires DataFit(a, e) && DataFit(b, e)
    ensures DataFit(a + b, e)
  {
  }

  lemma {:induction false} RowsFit(schema: seq<Field>, rows: seq<Message>, l: Leaf)
    requires WellFormed(schema) && l in Leaves("", schema) && !l.ty.ObjectType?
    requires forall k :: 0 <= k < |rows| ==> Conforms(rows[k], schema)
    ensures DataFit(RowsStripe(rows, l.path), EncodingOf(l.ty))
    ensures forall i :: 0 <= i < |RowsStripe(rows, l.path)| ==>
              RowsStripe(rows, l.path)[i].r <= RepLevel(l.path) && RowsStripe(rows, l.path)[i].d <= DefLevel(l.path)
    decreases |rows|
  {
    if rows != [] {
      var last := rows[|rows| - 1];
      RowsFit(schema, rows[..|rows| - 1], l);
      ConformsAlongPath(last, "", schema, l);
      RecordLevels(schema, last, l);
      StripeFits(0, 0, 0, last, l.path, l.ty);
      FitsConcat(RowsStripe(rows[..|rows| - 1], l.path), Stripe(0, 0, 0, last, l.path), EncodingOf(l.ty));
    }
  }

  lemma {:induction false} DataOfFits(es: seq<Entry>, dlevels: seq<nat>, dmax: nat, e: Encoding)
    requires DataFit(es, e) && Disciplined(es, dmax) && |dlevels| == |es|
    requires forall i :: 0 <= i < |es| ==> dlevels[i] == es[i].d
    ensures |DataOf(es)| == CountFull(dlevels, dmax) && AllStorable(DataOf(es), e)
    decreases |es|
  {
    hide Storable;
    if es != [] {
      DataOfFits(es[1..], dlevels[1..], dmax, e);
    }
  }

  /** A shredded column meets everything its writer relies on. */
  lemma {:induction false} ShreddedIsSound(schema: seq<Field>, rows: seq<Message>, l: Leaf)
    requires WellFormed(schema) && l in Leaves("", schema) && !l.ty.ObjectType?
    requires forall k :: 0 <= k < |rows| ==> Conforms(rows[k], schema)
    ensures Sound(AppendAll(Empty(RepLevel(l.path), DefLevel(l.path)), RowsStripe(rows, l.path)), EncodingOf(l.ty))
  {
    hide Conforms, WellFormed, Leaves, RowsStripe, RepLevel, DefLevel, AppendAll, DataOf, CountFull, AllStorable, DataFit, EncodingOf;
    var es := RowsStripe(rows, l.path);
    var c := AppendAll(Empty(RepLevel(l.path), DefLevel(l.path)), es);
    ColumnBuilt(schema, rows, l);
    RowsDisciplined(schema, rows, l);
    RowsFit(schema, rows, l);
    DataOfFits(es, c.dlevels, DefLevel(l.path), EncodingOf(l.ty));
    AppendAllFields(Empty(RepLevel(l.path), DefLevel(l.path)), es);
  }

  // ---------------------------------------------------------------------------
  // Column names as bytes
  // ---------------------------------------------------------------------------

  predicate ByteName(s: string) {
    forall i :: 0 <= i < |s| ==> s[i] as int < 256
  }

  function NameBytes(s: string): (r: Bytes)
    requires ByteName(s)
    ensures |r| == |s| && forall i :: 0 <= i < |s| ==> r[i] == s[i] as int
  {
    seq(|s|, i requires 0 <= i < |s| => s[i] as int)
  }

  function NameString(bs: Bytes): (r: string)
    ensures |r| == |bs| && forall i :: 0 <= i < |bs| ==> r[i] == bs[i] as char
  {
    seq(|bs|, i requires 0 <= i < |bs| => bs[i] as char)
  }

  lemma {:induction false} NameRoundTrip(s: string)
    requires ByteName(s)
    ensures NameString(NameBytes(s)) == s
  {
  }

  // ---------------------------------------------------------------------------
  // Storing and loading a table
  // ---------------------------------------------------------------------------

  /** The columns of a table in file order. */
  function FileColumns(configs: seq<ColumnConfig>, cols: Columns): (r: seq<TableColumn>)
    requires forall i :: 0 <= i < |configs| ==> ByteName(configs[i].name) && configs[i].name in cols
    ensures |r| == |configs|
    ensures forall i :: 0 <= i < |r| ==>
              r[i] == TableColumn(NameBytes(configs[i].name), configs[i].encoding, cols[configs[i].name], Zeros(Slack(configs[i].encoding)))
  {
    seq(|configs|, i requires 0 <= i < |configs| =>
      TableColumn(NameBytes(configs[i].name), configs[i].encoding, cols[configs[i].name], Zeros(Slack(configs[i].encoding))))
  }

  /** Open every column that the header of a file lists. */
  method LoadTable(file: Bytes, codec: LevelCodec, ghost configs: seq<ColumnConfig>, ghost cols: Columns, ghost numRows: nat)
    returns (reader: Columns, n: nat)
    requires forall i :: 0 <= i < |configs| ==> ByteName(configs[i].name) && configs[i].name in cols
    requires cols.Keys == set i | 0 <= i < |configs| :: configs[i].name
    requires Faithful(codec) && AllWritable(FileColumns(configs, cols), codec) && numRows < TWO_64 && |configs| < TWO_32
    requires |file| < TWO_64 && file == Image(FileColumns(configs, cols), numRows, codec)
    ensures reader == cols && n == numRows
  {
    hide *;
    TableOpens(file, codec, configs, cols, numRows);
    var header := ReadHeader(file).value;
    n := header.0;
    reader := map[];
    for k := 0 to |header.1|
      invariant forall n :: n in reader ==> n in cols && reader[n] == cols[n]
      invariant forall j :: 0 <= j < k ==> NameString(header.1[j].name) in reader
    {
      var c := header.1[k];
      var content := OpenColumn(file, c, codec);
      reader := reader[NameString(c.name) := content.value];
    }
  }

  /** Every listed column opens with the stored content, and every stored column is listed. */
  lemma {:induction false} TableOpens(file: Bytes, codec: LevelCodec, configs: seq<ColumnConfig>, cols: Columns, numRows: nat)
    requires forall i :: 0 <= i < |configs| ==> ByteName(configs[i].name) && configs[i].name in cols
    requires cols.Keys == set i | 0 <= i < |configs| :: configs[i].name
    requires Faithful(codec) && AllWritable(FileColumns(configs, cols), codec) && numRows < TWO_64 && |configs| < TWO_32
    requires |file| < TWO_64 && file == Image(FileColumns(configs, cols), numRows, codec)
    ensures ReadHeader(file).Some? && ReadHeader(file).value.0 == numRows
    ensures forall k :: 0 <= k < |ReadHeader(file).value.1| ==>
              var c := ReadHeader(file).value.1[k];
              NameString(c.name) in cols && OpenColumn(file, c, codec) == Some(cols[NameString(c.name)])
    ensures forall n :: n in cols ==> exists k :: 0 <= k < |ReadHeader(file).value.1| && NameString(ReadHeader(file).value.1[k].name) == n
  {
    hide Image, AllWritable, Faithful, ReadHeader, OpenColumn, Layout, SortByName, SortedByName, FileColumns, HeaderSize;
    var tcs := FileColumns(configs, cols);
    var layout := Layout(tcs, HeaderSize(tcs), codec);
    FileRoundTrip(tcs, numRows, codec);
    SortPermutes(layout);
    var listed := ReadHeader(file).value.1;
    forall k | 0 <= k < |listed|
      ensures NameString(listed[k].name) in cols && OpenColumn(file, listed[k], codec) == Some(cols[NameString(listed[k].name)])
    {
      assert listed[k] in multiset(listed) && listed[k] in multiset(layout);
      var i :| 0 <= i < |layout| && layout[i] == listed[k];
      LoadedColumn(configs, cols, codec, i);
    }
    forall n | n in cols ensures exists k :: 0 <= k < |listed| && NameString(listed[k].name) == n {
      var i :| 0 <= i < |configs| && configs[i].name == n;
      LoadedColumn(configs, cols, codec, i);
      assert layout[i] in multiset(layout) && layout[i] in multiset(listed);
    }
  }

  lemma {:induction false} LoadedColumn(configs: seq<ColumnConfig>, cols: Columns, codec: LevelCodec, i: nat)
    requires forall i :: 0 <= i < |configs| ==> ByteName(configs[i].name) && configs[i].name in cols
    requires i < |configs|
    ensures var tcs := FileColumns(configs, cols);
            && NameString(Layout(tcs, HeaderSize(tcs), codec)[i].name) == configs[i].name
            && tcs[i].content == cols[configs[i].name]
  {
    var tcs := FileColumns(configs, cols);
    BodyPlace(tcs, HeaderSize(tcs), codec, i);
    NameRoundTrip(configs[i].name);
  }

  /** The names and sizes that the file format's integer widths allow. */
  ghost predicate FitsFormat(schema: seq<Field>, columns: seq<Column>, rows: seq<Message>, codec: LevelCodec) {
    && |rows| < TWO_64
    && var configs := FlatColumns(columns);
    && |configs| < TWO_32
    && (forall i :: 0 <= i < |configs| ==>
          ByteName(configs[i].name) && |configs[i].name| < TWO_32 && configs[i].rlevelMax < TWO_32 && configs[i].dlevelMax < TWO_32)
    && (forall l :: l in Leaves("", schema) && !l.ty.ObjectType? ==>
          var c := AppendAll(Empty(RepLevel(l.path), DefLevel(l.path)), RowsStripe(rows, l.path));
          |c.rlevels| < TWO_64 && BodySize(c, EncodingOf(l.ty), codec) < TWO_64)
  }

  lemma {:induction false} ReadyToStore(schema: seq<Field>, columns: seq<Column>, rows: seq<Message>, cols: Columns, codec: LevelCodec)
    requires SchemasMatch(schema, columns) && AllConform(rows, schema) && FitsFormat(schema, columns, rows, codec)
    requires Stores(cols, schema, columns, rows)
    ensures var configs := FlatColumns(columns);
            && (forall i :: 0 <= i < |configs| ==> ByteName(configs[i].name) && configs[i].name in cols)
            && cols.Keys == (set i | 0 <= i < |configs| :: configs[i].name)
            && AllWritable(FileColumns(configs, cols), codec)
  {
    var configs := FlatColumns(columns);
    forall i | 0 <= i < |configs| ensures configs[i].name in cols {
      var l := AllFlatColumnsLeaf("", 0, 0, columns, schema, configs[i]);
    }
    forall n | n in cols ensures exists i :: 0 <= i < |configs| && configs[i].name == n {
      var cfg := AllFlatNamesConfigured("", 0, 0, columns, n);
    }
    forall i | 0 <= i < |configs| ensures Writable(FileColumns(configs, cols)[i], codec) {
      ColumnReady(schema, columns, rows, cols, codec, i);
    }
  }

  lemma {:induction false} ColumnReady(schema: seq<Field>, columns: seq<Column>, rows: seq<Message>, cols: Columns, codec: LevelCodec, i: nat)
    requires SchemasMatch(schema, columns) && AllConform(rows, schema) && FitsFormat(schema, columns, rows, codec)
    requires Stores(cols, schema, columns, rows)
    requires i < |FlatColumns(columns)| && forall k :: 0 <= k < |FlatColumns(columns)| ==>
               ByteName(FlatColumns(columns)[k].name) && FlatColumns(columns)[k].name in cols
    ensures Writable(FileColumns(FlatColumns(columns), cols)[i], codec)
  {
    hide AllMatch, WellFormed, DistinctNames, DistinctColumns, Conforms, RowsStripe, AppendAll, Leaves, Sound, BodySize,
         RepLevel, DefLevel, AllFlatNames, ByteName;
    var cfg := FlatColumns(columns)[i];
    var l := AllFlatColumnsLeaf("", 0, 0, columns, schema, cfg);
    assert EncodingOf(l.ty) == cfg.encoding;
    ShreddedIsSound(schema, rows, l);
    AppendAllFields(Empty(RepLevel(l.path), DefLevel(l.path)), RowsStripe(rows, l.path));
  }

  /** The bytes are the file of these columns, which hold these records. */
  ghost predicate IsFileOf(file: Bytes, schema: seq<Field>, columns: seq<Column>, cols: Columns, rows: seq<Message>, codec: LevelCodec) {
    var configs := FlatColumns(columns);
    && |rows| < TWO_64 && |configs| < TWO_32
    && (forall i :: 0 <= i < |configs| ==> ByteName(configs[i].name) && configs[i].name in cols)
    && cols.Keys == (set i | 0 <= i < |configs| :: configs[i].name)
    && AllWritable(FileColumns(configs, cols), codec)
    && Stores(cols, schema, columns, rows)
    && file == Image(FileColumns(configs, cols), |rows|, codec)
  }

  /** Shred records and write the table as one file. */
  method Store(schema: seq<Field>, columns: seq<Column>, rows: seq<Message>, codec: LevelCodec) returns (file: Bytes)
    requires SchemasMatch(schema, columns) && AllConform(rows, schema)
    requires Faithful(codec) && FitsFormat(schema, columns, rows, codec)
    ensures exists cols :: IsFileOf(file, schema, columns, cols, rows, codec)
  {
    hide Conforms, WellFormed, DistinctNames, Faithful, FitsFormat, AllWritable, Image, RowsStripe, FileColumns, Stores;
    var configs := FlatColumns(columns);
    var writer := ShredRecords(schema, columns, rows);
    ReadyToStore(schema, columns, rows, writer.columns, codec);
    NumRowsFit(schema, columns, rows, codec);
    file := CommitV1(FileColumns(configs, writer.columns), writer.numRows, codec);
    assert IsFileOf(file, schema, columns, writer.columns, rows, codec);
  }

  /** Read the records of a file back from its bytes alone. */
  method Load(schema: seq<Field>, file: Bytes, codec: LevelCodec, ghost columns: seq<Column>, ghost cols: Columns, ghost rows: seq<Message>) returns (out: seq<Message>)
    requires SchemasMatch(schema, columns) && AllConform(rows, schema)
    requires Faithful(codec) && IsFileOf(file, schema, columns, cols, rows, codec) && Covers(columns, schema) && |file| < TWO_64
    ensures |out| == |rows| && forall k :: 0 <= k < |rows| ==> Equivalent(out[k], rows[k])
  {
    hide Equivalent, Conforms, WellFormed, DistinctNames, Faithful, AllWritable, Image, RowsStripe, FileColumns, Stores;
    var reader, n := LoadTable(file, codec, FlatColumns(columns), cols, |rows|);
    out := MaterializeAll(schema, reader, n, columns, rows);
  }

  /** Records survive the trip through a file: shredded, written as one image, opened again and
      materialized, each comes back whole up to interleaving of different ids. */
  method StoreAndLoad(schema: seq<Field>, columns: seq<Column>, rows: seq<Message>, codec: LevelCodec) returns (file: Bytes, out: seq<Message>)
    requires SchemasMatch(schema, columns) && AllConform(rows, schema)
    requires Faithful(codec) && FitsFormat(schema, columns, rows, codec) && Covers(columns, schema)
    ensures exists cols :: IsFileOf(file, schema, columns, cols, rows, codec)
    ensures |file| < TWO_64 ==> |out| == |rows| && forall k :: 0 <= k < |rows| ==> Equivalent(out[k], rows[k])
  {
    hide Equivalent, Conforms, WellFormed, DistinctNames, Faithful, FitsFormat, IsFileOf;
    file := Store(schema, columns, rows, codec);
    ghost var cols :| IsFileOf(file, schema, columns, cols, rows, codec);
    out := [];
    if |file| < TWO_64 {
      out := Load(schema, file, codec, columns, cols, rows);
    }
  }

  lemma {:induction false} NumRowsFit(schema: seq<Field>, columns: seq<Column>, rows: seq<Message>, codec: LevelCodec)
    requires FitsFormat(schema, columns, rows, codec)
    ensures |rows| < TWO_64 && |FlatColumns(columns)| < TWO_32
  {
  }
}
