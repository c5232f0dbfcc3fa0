/** Shredding records into a table and materializing them again. */
module RoundTrip {
  import opened Messages
  import opened Schemas
  import opened ColumnData
  import opened Striping
  import opened Projection
  import opened LeafPaths
  import opened RecordShredder
  import opened RecordMaterializer

  /** A table holds a list of records when every stored leaf column is the column of that leaf
      over the records. */
  ghost predicate Stores(cols: Columns, schema: seq<Field>, columns: seq<Column>, rows: seq<Message>) {
    && cols.Keys == AllFlatNames("", columns)
    && forall l :: l in Leaves("", schema) && l.name in cols ==>
         cols[l.name] == AppendAll(Empty(RepLevel(l.path), DefLevel(l.path)), RowsStripe(rows, l.path))
  }

  ghost predicate SchemasMatch(schema: seq<Field>, columns: seq<Column>) {
    && WellFormed(schema) && DistinctNames(Leaves("", schema)) && AllMatch(columns, schema) && DistinctColumns(columns)
  }

  ghost predicate AllConform(rows: seq<Message>, schema: seq<Field>) {
    forall k :: 0 <= k < |rows| ==> Conforms(rows[k], schema) && rows[k].id == 0
  }

  /** The leaves that a choice of column names selects from a stored table. */
  ghost function ChosenPaths(schema: seq<Field>, stored: set<string>, chosen: set<string>): set<seq<nat>> {
    set l | l in Leaves("", schema) && l.name in stored && (chosen == {} || l.name in chosen) :: Ids(l.path)
  }

  // ---------------------------------------------------------------------------
  // Writing
  // ---------------------------------------------------------------------------

  /** A newly created writer holds no records, and its level maxima are those of the leaves. */
  lemma {:induction false} EmptyTable(schema: seq<Field>, columns: seq<Column>)
    requires SchemasMatch(schema, columns)
    ensures Stores(OpenColumns(FlatColumns(columns)), schema, columns, [])
  {
    var configs := FlatColumns(columns);
    var cols := OpenColumns(configs);
    forall n ensures n in cols <==> n in AllFlatNames("", columns) {
      if n in cols {
        var i :| 0 <= i < |configs| && configs[i].name == n;
        var l := AllFlatColumnsLeaf("", 0, 0, columns, schema, configs[i]);
      }
      if n in AllFlatNames("", columns) {
        var cfg := AllFlatNamesConfigured("", 0, 0, columns, n);
        var i :| 0 <= i < |configs| && configs[i] == cfg;
      }
    }
    forall l | l in Leaves("", schema) && l.name in cols
      ensures cols[l.name] == AppendAll(Empty(RepLevel(l.path), DefLevel(l.path)), RowsStripe([], l.path))
    {
      var i :| 0 <= i < |configs| && configs[i].name == l.name && cols[l.name] == Empty(configs[i].rlevelMax, configs[i].dlevelMax);
      var l' := AllFlatColumnsLeaf("", 0, 0, columns, schema, configs[i]);
      SameNameSameLeaf(schema, l, l');
    }
  }

  lemma {:induction false} SameNameSameLeaf(schema: seq<Field>, a: Leaf, b: Leaf)
    requires DistinctNames(Leaves("", schema)) && a in Leaves("", schema) && b in Leaves("", schema) && a.name == b.name
    ensures a == b
  {
    var leaves := Leaves("", schema);
    var i :| 0 <= i < |leaves| && leaves[i] == a;
    var j :| 0 <= j < |leaves| && leaves[j] == b;
    if i < j {
      assert leaves[i].name != leaves[j].name;
    } else if j < i {
      assert leaves[j].name != leaves[i].name;
    }
  }

  /** Shred a list of records into a new table. */
  method ShredRecords(schema: seq<Field>, columns: seq<Column>, rows: seq<Message>) returns (writer: CSTableWriter)
    requires SchemasMatch(schema, columns) && AllConform(rows, schema)
    ensures fresh(writer) && writer.numRows == |rows|
    ensures Stores(writer.columns, schema, columns, rows)
  {
    hide SchemasMatch, Conforms, Stores, RowsStripe;
    writer := new CSTableWriter(FlatColumns(columns));
    EmptyTable(schema, columns);
    assert rows[..0] == [];
    for i := 0 to |rows|
      invariant writer.numRows == i && Stores(writer.columns, schema, columns, rows[..i])
    {
      ghost var before := writer.columns;
      ReadyToAdd(before, schema, columns, rows[..i]);
      AddRecordFromProtobuf(rows[i], schema, columns, writer);
      assert rows[..i + 1] == rows[..i] + [rows[i]];
      StoresOneMore(before, writer.columns, schema, columns, rows[..i], rows[i]);
    }
    assert rows[..|rows|] == rows;
  }

  lemma {:induction false} ReadyToAdd(cols: Columns, schema: seq<Field>, columns: seq<Column>, rows: seq<Message>)
    requires SchemasMatch(schema, columns) && Stores(cols, schema, columns, rows)
    ensures WellFormed(schema) && AllMatch(columns, schema) && DistinctColumns(columns)
    ensures DistinctNames(Leaves("", schema)) && Open(AllFlatNames("", columns), cols)
  {
  }

  lemma {:induction false} StoresOneMore(cols: Columns, cols': Columns, schema: seq<Field>, columns: seq<Column>, rows: seq<Message>, row: Message)
    requires Stores(cols, schema, columns, rows) && cols'.Keys == cols.Keys
    requires forall l :: l in Leaves("", schema) && l.name in AllFlatNames("", columns) ==>
               cols'[l.name] == AppendAll(cols[l.name], Stripe(0, 0, 0, row, l.path))
    ensures Stores(cols', schema, columns, rows + [row])
  {
    forall l | l in Leaves("", schema) && l.name in cols'
      ensures cols'[l.name] == AppendAll(Empty(RepLevel(l.path), DefLevel(l.path)), RowsStripe(rows + [row], l.path))
    {
      var more := rows + [row];
      assert more[..|more| - 1] == rows && more[|more| - 1] == row;
      AppendAllConcat(Empty(RepLevel(l.path), DefLevel(l.path)), RowsStripe(rows, l.path), Stripe(0, 0, 0, row, l.path));
    }
  }

  // ---------------------------------------------------------------------------
  // Reading
  // ---------------------------------------------------------------------------

  /** The record numbers that a list of calls returns, when it starts at record `pos`. */
  function Returned(calls: seq<Call>, pos: nat): seq<nat> {
    if calls == [] then []
    else if calls[0].Next? then [pos] + Returned(calls[1..], pos + 1)
    else Returned(calls[1..], pos + 1)
  }

  lemma {:induction false} ReturnedSnoc(calls: seq<Call>, i: nat, pos: nat)
    requires i < |calls|
    ensures Returned(calls[..i + 1], pos) == Returned(calls[..i], pos) + (if calls[i].Next? then [pos + i] else [])
    decreases i
  {
    if i == 0 {
      assert calls[..1] == [calls[0]] && calls[..0] == [] && [calls[0]][1..] == [];
    } else {
      assert calls[..i + 1][1..] == calls[1..][..i];
      assert calls[..i][1..] == calls[1..][..i - 1];
      ReturnedSnoc(calls[1..], i - 1, pos + 1);
      var mid, last := Returned(calls[1..][..i - 1], pos + 1), if calls[i].Next? then [pos + i] else [];
      assert [pos] + (mid + last) == ([pos] + mid) + last;
    }
  }

  /** Any interleaving of reads and skips: the k-th record returned is the record that the
      position of its call names, projected onto the chosen leaves. */
  method Replay(m: Materializer, calls: seq<Call>) returns (out: seq<Message>)
    requires m.Valid() && m.pos + |calls| <= |m.rows|
    modifies m, m.columns.Values
    ensures m.Valid() && m.pos == old(m.pos) + |calls| && m.columns == old(m.columns)
    ensures |out| == |Returned(calls, old(m.pos))|
    ensures forall k :: 0 <= k < |out| ==>
              Returned(calls, old(m.pos))[k] < |m.rows| &&
              Equivalent(out[k], Project(m.rows[Returned(calls, old(m.pos))[k]], m.PathsFor(m.columns.Keys)))
  {
    hide Equivalent, Project, Materializer.Valid, Materializer.PathsFor;
    ghost var start, cols := m.pos, m.columns;
    out := [];
    assert calls[..0] == [];
    for i := 0 to |calls|
      invariant m.Valid() && m.pos == start + i && m.columns == cols
      invariant |out| == |Returned(calls[..i], start)|
      invariant forall k :: 0 <= k < |out| ==>
                  Returned(calls[..i], start)[k] < |m.rows| &&
                  Equivalent(out[k], Project(m.rows[Returned(calls[..i], start)[k]], m.PathsFor(m.columns.Keys)))
    {
      ReturnedSnoc(calls, i, start);
      if calls[i].Next? {
        var record := m.NextRecord();
        out := out + [record];
      } else {
        m.SkipRecord();
      }
    }
    assert calls[..|calls|] == calls;
  }

  // ---------------------------------------------------------------------------
  // The round trip
  // ---------------------------------------------------------------------------

  function AllNext(n: nat): (r: seq<Call>)
    ensures |r| == n && forall i :: 0 <= i < n ==> r[i] == Next
  {
    seq(n, _ => Next)
  }

  lemma {:induction false} ReturnedAll(calls: seq<Call>, pos: nat)
    requires forall i :: 0 <= i < |calls| ==> calls[i] == Next
    ensures |Returned(calls, pos)| == |calls| && forall i :: 0 <= i < |calls| ==> Returned(calls, pos)[i] == pos + i
    decreases |calls|
  {
    if calls != [] {
      ReturnedAll(calls[1..], pos + 1);
    }
  }

  /** Read `n` records from stored columns. The columns alone say what comes out: the records
      behind them, in order, projected onto the chosen stored leaves. */
  method Materialize(schema: seq<Field>, reader: Columns, n: nat, chosen: set<string>, ghost columns: seq<Column>, ghost rows: seq<Message>)
    returns (out: seq<Message>)
    requires SchemasMatch(schema, columns) && AllConform(rows, schema) && Stores(reader, schema, columns, rows) && n == |rows|
    ensures |out| == n
    ensures forall k :: 0 <= k < n ==> Equivalent(out[k], Project(rows[k], ChosenPaths(schema, reader.Keys, chosen)))
  {
    hide Equivalent, Project, Conforms, Materializer.Valid, RowsStripe;
    var m := new Materializer(schema, reader, chosen, rows);
    SamePaths(m, schema, reader.Keys, chosen);
    ReturnedAll(AllNext(n), 0);
    out := Replay(m, AllNext(n));
  }

  /** With a table schema that drops no field and no choice of columns, every leaf is read back,
      so the records come back whole up to interleaving of different ids. */
  method MaterializeAll(schema: seq<Field>, reader: Columns, n: nat, ghost columns: seq<Column>, ghost rows: seq<Message>) returns (out: seq<Message>)
    requires SchemasMatch(schema, columns) && Covers(columns, schema) && AllConform(rows, schema)
    requires Stores(reader, schema, columns, rows) && n == |rows|
    ensures |out| == n && forall k :: 0 <= k < n ==> Equivalent(out[k], rows[k])
  {
    hide Equivalent, Project, Conforms, WellFormed, Covers;
    out := Materialize(schema, reader, n, {}, columns, rows);
    forall k | 0 <= k < n ensures Equivalent(out[k], rows[k]) {
      WholeRecord(schema, columns, rows[k]);
      EquivalentTransitive(out[k], Project(rows[k], ChosenPaths(schema, reader.Keys, {})), rows[k]);
    }
  }

  /** Shred, then read every record back from the columns written. */
  method ShredAndMaterialize(schema: seq<Field>, columns: seq<Column>, chosen: set<string>, rows: seq<Message>)
    returns (writer: CSTableWriter, out: seq<Message>)
    requires SchemasMatch(schema, columns) && AllConform(rows, schema)
    ensures fresh(writer) && Stores(writer.columns, schema, columns, rows) && writer.numRows == |rows|
    ensures |out| == |rows|
    ensures forall k :: 0 <= k < |rows| ==>
              Equivalent(out[k], Project(rows[k], ChosenPaths(schema, AllFlatNames("", columns), chosen)))
  {
    hide Equivalent, Project, Conforms, RowsStripe;
    writer := ShredRecords(schema, columns, rows);
    out := Materialize(schema, writer.columns, writer.numRows, chosen, columns, rows);
  }

  lemma {:induction false} SamePaths(m: Materializer, schema: seq<Field>, stored: set<string>, chosen: set<string>)
    requires m.Valid() && m.schema == schema && DistinctNames(Leaves("", schema))
    requires m.columns.Keys == set l | l in Leaves("", schema) && l.name in stored && (chosen == {} || l.name in chosen) :: l.name
    ensures m.PathsFor(m.columns.Keys) == ChosenPaths(schema, stored, chosen)
  {
    forall p ensures p in m.PathsFor(m.columns.Keys) <==> p in ChosenPaths(schema, stored, chosen) {
      if p in m.PathsFor(m.columns.Keys) {
        var n :| n in m.columns.Keys && n in m.leaves && Ids(m.leaves[n].path) == p;
        assert m.leaves[n] in Leaves("", schema);
      }
      if p in ChosenPaths(schema, stored, chosen) {
        var l :| l in Leaves("", schema) && l.name in stored && (chosen == {} || l.name in chosen) && Ids(l.path) == p;
        assert l.name in m.columns.Keys;
        SameNameSameLeaf(schema, l, m.leaves[l.name]);
      }
    }
  }

  /** The same with all columns of a table schema that drops no field. */
  method RoundTripAll(schema: seq<Field>, columns: seq<Column>, rows: seq<Message>) returns (writer: CSTableWriter, out: seq<Message>)
    requires SchemasMatch(schema, columns) && Covers(columns, schema) && AllConform(rows, schema)
    ensures fresh(writer) && Stores(writer.columns, schema, columns, rows) && writer.numRows == |rows|
    ensures |out| == |rows| && forall k :: 0 <= k < |rows| ==> Equivalent(out[k], rows[k])
  {
    hide Equivalent, Project, Conforms, WellFormed, Stores, Covers;
    writer := ShredRecords(schema, columns, rows);
    out := MaterializeAll(schema, writer.columns, writer.numRows, columns, rows);
  }

  /** The table schema derived from a message schema is one of these. */
  lemma {:induction false} DerivedComplete(schema: seq<Field>)
    requires WellFormed(schema) && DistinctNames(Leaves("", schema))
    ensures SchemasMatch(schema, FromProtobuf(schema)) && Covers(FromProtobuf(schema), schema)
  {
    hide Covers, WellFormed, DistinctColumns, AllMatch;
    FromProtobufMatches(schema);
    FromProtobufDistinct(schema);
  }

  lemma {:induction false} FromProtobufDistinct(fields: seq<Field>)
    requires WellFormed(fields)
    ensures DistinctColumns(FromProtobuf(fields))
    decreases fields
  {
    var columns := FromProtobuf(fields);
    forall i | 0 <= i < |columns| ensures columns[i] == ColumnOf(fields[i]) {
      FromProtobufAt(fields, i);
    }
    forall i | 0 <= i < |columns| && columns[i].ctype.SubRecord? ensures DistinctColumns(columns[i].ctype.columns) {
      FromProtobufDistinct(fields[i].ty.fields);
    }
  }

  /** A table schema that drops no field stores every leaf. */
  lemma {:induction false} CoversStoresAll(prefix: string, columns: seq<Column>, fields: seq<Field>)
    requires Covers(columns, fields)
    ensures AllFlatNames(prefix, columns) >= Names(Leaves(prefix, fields))
    decreases fields
  {
    forall l | l in Leaves(prefix, fields) ensures l.name in AllFlatNames(prefix, columns) {
      var k := LeafField(prefix, fields, l);
      var f := fields[k];
      var i :| 0 <= i < |columns| && columns[i].name == f.name
        && (if f.ty.ObjectType? then columns[i].ctype.SubRecord? && Covers(columns[i].ctype.columns, f.ty.fields)
            else !columns[i].ctype.SubRecord?);
      AllFlatNamesAt(prefix, columns, i);
      if f.ty.ObjectType? {
        var inner := Leaves(prefix + f.name + ".", f.ty.fields);
        CoversStoresAll(prefix + f.name + ".", columns[i].ctype.columns, f.ty.fields);
        var j :| 0 <= j < |FieldLeaves(prefix, f)| && FieldLeaves(prefix, f)[j] == l;
        assert inner[j] in inner;
      }
    }
  }

  lemma {:induction false} WholeRecord(schema: seq<Field>, columns: seq<Column>, row: Message)
    requires WellFormed(schema) && Conforms(row, schema) && Covers(columns, schema)
    ensures Equivalent(Project(row, ChosenPaths(schema, AllFlatNames("", columns), {})), row)
  {
    var paths := ChosenPaths(schema, AllFlatNames("", columns), {});
    CoversStoresAll("", columns, schema);
    PathsAreLeafPaths("", schema);
    forall p ensures p in paths <==> IsLeafPath(schema, p) {
      if p in Paths(Leaves("", schema)) {
        var l :| l in Leaves("", schema) && Ids(l.path) == p;
        assert l.name in Names(Leaves("", schema));
      }
    }
    ProjectAllLeaves(row, schema, paths);
  }
}
