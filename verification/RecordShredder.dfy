/** `RecordShredder` writing into `CSTableWriter`: the recursion that appends to the column
    writers, proved to append to every flat column exactly that column's stripe. */
module RecordShredder {
  import opened Messages
  import opened Schemas
  import opened ColumnData
  import opened Striping

  // ---------------------------------------------------------------------------
  // The effect of a list of writes on the columns of a table
  // ---------------------------------------------------------------------------

  type Columns = map<string, Content>

  function Apply(cols: Columns, ws: seq<Write>): (r: Columns)
    ensures r.Keys == cols.Keys
    decreases |ws|
  {
    if ws == [] then cols
    else if ws[0].column !in cols then Apply(cols, ws[1..])
    else Apply(cols[ws[0].column := Append(cols[ws[0].column], ws[0].entry)], ws[1..])
  }

  lemma {:induction false} ApplyConcat(cols: Columns, a: seq<Write>, b: seq<Write>)
    ensures Apply(cols, a + b) == Apply(Apply(cols, a), b)
    decreases |a|
  {
    if a == [] {
      assert a + b == b;
    } else {
      assert (a + b)[0] == a[0] && (a + b)[1..] == a[1..] + b;
      if a[0].column in cols {
        ApplyConcat(cols[a[0].column := Append(cols[a[0].column], a[0].entry)], a[1..], b);
      } else {
        ApplyConcat(cols, a[1..], b);
      }
    }
  }

  /** Each column receives the entries addressed to it, in order. */
  lemma {:induction false} ApplyAt(cols: Columns, ws: seq<Write>, n: string)
    requires n in cols
    ensures Apply(cols, ws)[n] == AppendAll(cols[n], EntriesFor(ws, n))
    decreases |ws|
  {
    if ws != [] {
      if ws[0].column in cols {
        ApplyAt(cols[ws[0].column := Append(cols[ws[0].column], ws[0].entry)], ws[1..], n);
        if ws[0].column == n {
          assert EntriesFor(ws, n)[1..] == EntriesFor(ws[1..], n);
        }
      } else {
        ApplyAt(cols, ws[1..], n);
      }
    }
  }

  // ---------------------------------------------------------------------------
  // The table writer
  // ---------------------------------------------------------------------------

  class CSTableWriter {
    var columns: Columns
    var numRows: nat

    /** One empty column writer per flat column; a name that occurs twice keeps the first. */
    constructor (configs: seq<ColumnConfig>)
      ensures numRows == 0 && columns == OpenColumns(configs)
    {
      numRows := 0;
      columns := OpenColumns(configs);
    }

    method WriteNull(column: string, r: nat, d: nat)
      requires column in columns
      modifies this`columns
      ensures columns == Apply(old(columns), [Write(column, Entry(r, d, None))])
    {
      var w := Write(column, Entry(r, d, None));
      assert [w][1..] == [];
      columns := columns[column := ColumnData.WriteNull(columns[column], r, d)];
    }

    method WriteValue(column: string, r: nat, d: nat, v: Value)
      requires column in columns
      modifies this`columns
      ensures columns == Apply(old(columns), [Write(column, Entry(r, d, Some(ToDatum(v))))])
    {
      var w := Write(column, Entry(r, d, Some(ToDatum(v))));
      assert [w][1..] == [];
      columns := columns[column := AddDatum(columns[column], r, d, ToDatum(v))];
    }

    method AddRow()
      modifies this`numRows
      ensures numRows == old(numRows) + 1
    {
      numRows := numRows + 1;
    }
  }

  function OpenColumns(configs: seq<ColumnConfig>): (r: Columns)
    ensures forall n :: n in r <==> exists i :: 0 <= i < |configs| && configs[i].name == n
    ensures forall n :: n in r ==>
              exists i :: 0 <= i < |configs| && configs[i].name == n && r[n] == Empty(configs[i].rlevelMax, configs[i].dlevelMax)
  {
    if configs == [] then map[]
    else
      var rest := OpenColumns(configs[1..]);
      var c := configs[0];
      assert forall i :: 0 <= i < |configs[1..]| ==> configs[1..][i] == configs[i + 1];
      rest[c.name := Empty(c.rlevelMax, c.dlevelMax)]
  }

  // ---------------------------------------------------------------------------
  // Shredding
  // ---------------------------------------------------------------------------

  ghost predicate Open(names: set<string>, cols: Columns) {
    names <= cols.Keys
  }

  method WriteProtoNull(r: nat, d: nat, prefix: string, field: Column, writer: CSTableWriter)
    requires Open(FlatNames(prefix, field), writer.columns)
    modifies writer`columns
    ensures writer.columns == Apply(old(writer.columns), ShredNull(r, d, prefix + field.name, field))
    decreases field
  {
    var column := prefix + field.name;
    match field.ctype
    case SubRecord(columns) =>
      ghost var before := writer.columns;
      for i := 0 to |columns|
        invariant writer.columns == Apply(before, ShredNulls(r, d, column, columns[..i]))
      {
        AllFlatNamesAt(column + ".", columns, i);
        ShredNullsSnoc(r, d, column, columns, i);
        ApplyConcat(before, ShredNulls(r, d, column, columns[..i]), ShredNull(r, d, column + "." + columns[i].name, columns[i]));
        WriteProtoNull(r, d, column + ".", columns[i], writer);
      }
      assert columns[..|columns|] == columns;
    case _ =>
      writer.WriteNull(column, r, d);
  }

  /** Shred one field of an object: the first occurrence inherits the repetition level, each
      later one repeats at the field's own level; an absent field writes nulls below it. */
  method AddProtoRecordField(r: nat, rmax: nat, d: nat, msg: Message, schema: seq<Field>, prefix: string, field: Column, writer: CSTableWriter)
    requires Conforms(msg, schema) && WellFormed(schema) && AllMatch([field], schema)
    requires Open(FlatNames(prefix, field), writer.columns)
    modifies writer`columns
    ensures writer.columns == Apply(old(writer.columns), ShredField(r, rmax, d, msg, schema, prefix, field))
    decreases field, 2
  {
    hide Apply, WellFormed;
    assert Matches([field][0], FindName(schema, field.name).value);
    var f := FindName(schema, field.name).value;
    OccurrencesConform(msg, schema, f);
    var rmax', d' := rmax, d;
    if field.repeated {
      rmax' := rmax' + 1;
    }
    if field.optional || field.repeated {
      d' := d' + 1;
    }
    var n := AddOccurrences(r, rmax', d', msg.children, f, prefix, field, writer, Occurrences(msg.children, f.id));
    if n == 0 {
      ApplyNoOccurrence(old(writer.columns), r, rmax', d', f, prefix, field);
      WriteProtoNull(r, d, prefix, field, writer);
    }
  }

  /** The loop over the children of an object, for one field. */
  method AddOccurrences(r: nat, rmax: nat, d: nat, children: seq<Message>, f: Field, prefix: string, field: Column, writer: CSTableWriter, ghost all: seq<Message>) returns (n: nat)
    requires Matches(field, f) && WellFormed([f])
    requires all == Occurrences(children, f.id) && forall i :: 0 <= i < |all| ==> ChildConforms(all[i], f)
    requires Open(FlatNames(prefix, field), writer.columns)
    modifies writer`columns
    ensures n == |all|
    ensures writer.columns == Apply(old(writer.columns), ShredOccurrences(r, rmax, d, all, f, prefix, field))
    decreases field, 1
  {
    hide ShredOccurrences, ShredOccurrence, Apply, ChildConforms, Matches, WellFormed, FlatNames, Occurrences;
    ghost var before := writer.columns;
    n := 0;
    var nextR := r;
    assert children[..0] == [] && all[..0] == [];
    ApplyNoOccurrence(before, r, rmax, d, f, prefix, field);
    for i := 0 to |children|
      invariant n <= |all| && Occurrences(children[..i], f.id) == all[..n]
      invariant nextR == if n == 0 then r else rmax
      invariant writer.columns == Apply(before, ShredOccurrences(r, rmax, d, all[..n], f, prefix, field))
    {
      OccurrencesSnoc(children, i, f.id);
      if children[i].id == f.id {
        assert children[i] == all[n];
        ApplyNextOccurrence(before, r, rmax, d, all, n, f, prefix, field);
        n := n + 1;
        AddOccurrence(nextR, rmax, d, children[i], f, prefix, field, writer);
        nextR := rmax;
      }
    }
    assert children[..|children|] == children;
    assert all[..n] == all;
  }

  method AddOccurrence(r: nat, rmax: nat, d: nat, o: Message, f: Field, prefix: string, field: Column, writer: CSTableWriter)
    requires Matches(field, f) && WellFormed([f]) && ChildConforms(o, f)
    requires Open(FlatNames(prefix, field), writer.columns)
    modifies writer`columns
    ensures writer.columns == Apply(old(writer.columns), ShredOccurrence(r, rmax, d, o, f, prefix, field))
    decreases field, 0
  {
    match field.ctype
    case SubRecord(columns) =>
      assert WellFormed([f][0].ty.fields);
      AddColumns(r, rmax, d, o, f.ty.fields, prefix + field.name + ".", columns, writer);
    case _ =>
      writer.WriteValue(prefix + field.name, r, d, o.value);
  }

  method AddColumns(r: nat, rmax: nat, d: nat, o: Message, schema: seq<Field>, prefix: string, columns: seq<Column>, writer: CSTableWriter)
    requires Conforms(o, schema) && WellFormed(schema) && AllMatch(columns, schema)
    requires Open(AllFlatNames(prefix, columns), writer.columns)
    modifies writer`columns
    ensures writer.columns == Apply(old(writer.columns), ShredColumns(r, rmax, d, o, schema, prefix, columns))
    decreases columns, 3
  {
    ghost var before := writer.columns;
    for i := 0 to |columns|
      invariant writer.columns.Keys == before.Keys
      invariant writer.columns == Apply(before, ShredColumns(r, rmax, d, o, schema, prefix, columns[..i]))
    {
      AllFlatNamesAt(prefix, columns, i);
      ShredColumnsSnoc(r, rmax, d, o, schema, prefix, columns, i);
      assert columns[i] == [columns[i]][0];
      ApplyConcat(before, ShredColumns(r, rmax, d, o, schema, prefix, columns[..i]), ShredField(r, rmax, d, o, schema, prefix, columns[i]));
      AddProtoRecordField(r, rmax, d, o, schema, prefix, columns[i], writer);
    }
    assert columns[..|columns|] == columns;
  }

  /** Shred one record: every flat column grows by its stripe of the record. */
  method AddRecordFromProtobuf(msg: Message, schema: seq<Field>, columns: seq<Column>, writer: CSTableWriter)
    requires Conforms(msg, schema) && WellFormed(schema) && AllMatch(columns, schema) && DistinctColumns(columns)
    requires DistinctNames(Leaves("", schema)) && Open(AllFlatNames("", columns), writer.columns)
    modifies writer
    ensures writer.numRows == old(writer.numRows) + 1
    ensures writer.columns.Keys == old(writer.columns).Keys
    ensures forall l :: l in Leaves("", schema) && l.name in AllFlatNames("", columns) ==>
              writer.columns[l.name] == AppendAll(old(writer.columns)[l.name], Stripe(0, 0, 0, msg, l.path))
  {
    AddColumns(0, 0, 0, msg, schema, "", columns, writer);
    forall l | l in Leaves("", schema) && l.name in AllFlatNames("", columns)
      ensures writer.columns[l.name] == AppendAll(old(writer.columns)[l.name], Stripe(0, 0, 0, msg, l.path))
    {
      ShredColumnsColumn(0, 0, 0, msg, schema, "", columns, l);
      ApplyAt(old(writer.columns), ShredColumns(0, 0, 0, msg, schema, "", columns), l.name);
    }
    writer.AddRow();
  }

  // ---------------------------------------------------------------------------
  // Loop steps
  // ---------------------------------------------------------------------------

  lemma {:induction false} AllFlatNamesAt(prefix: string, columns: seq<Column>, i: nat)
    requires i < |columns|
    ensures FlatNames(prefix, columns[i]) <= AllFlatNames(prefix, columns)
  {
    if i > 0 {
      AllFlatNamesAt(prefix, columns[1..], i - 1);
    }
  }

  lemma {:induction false} OccurrencesSnoc(ms: seq<Message>, i: nat, id: nat)
    requires i < |ms|
    ensures Occurrences(ms[..i + 1], id) == if ms[i].id == id then Occurrences(ms[..i], id) + [ms[i]] else Occurrences(ms[..i], id)
    ensures Occurrences(ms[..i + 1], id) <= Occurrences(ms, id)
  {
    assert ms[..i + 1] == ms[..i] + [ms[i]];
    OccurrencesConcat(ms[..i], [ms[i]], id);
    assert ms == ms[..i + 1] + ms[i + 1..];
    OccurrencesConcat(ms[..i + 1], ms[i + 1..], id);
  }

  lemma {:induction false} ShredNullsSnoc(r: nat, d: nat, column: string, columns: seq<Column>, i: nat)
    requires i < |columns|
    ensures ShredNulls(r, d, column, columns[..i + 1])
            == ShredNulls(r, d, column, columns[..i]) + ShredNull(r, d, column + "." + columns[i].name, columns[i])
  {
    var here := ShredNull(r, d, column + "." + columns[i].name, columns[i]);
    if i == 0 {
      assert columns[..1] == [columns[0]] && columns[..0] == [];
      assert [columns[0]][1..] == [];
      assert ShredNulls(r, d, column, [columns[0]]) == here + [];
    } else {
      var first := ShredNull(r, d, column + "." + columns[0].name, columns[0]);
      assert columns[..i + 1][1..] == columns[1..][..i];
      assert columns[..i][1..] == columns[1..][..i - 1];
      ShredNullsSnoc(r, d, column, columns[1..], i - 1);
      var mid := ShredNulls(r, d, column, columns[1..][..i - 1]);
      assert first + (mid + here) == (first + mid) + here;
    }
  }

  lemma {:induction false} ShredOccurrencesSnoc(r: nat, rmax: nat, d: nat, occ: seq<Message>, n: nat, f: Field, prefix: string, field: Column)
    requires Matches(field, f) && WellFormed([f]) && (forall i :: 0 <= i < |occ| ==> ChildConforms(occ[i], f)) && n < |occ|
    ensures ShredOccurrences(r, rmax, d, occ[..n + 1], f, prefix, field)
            == ShredOccurrences(r, rmax, d, occ[..n], f, prefix, field)
               + ShredOccurrence(if n == 0 then r else rmax, rmax, d, occ[n], f, prefix, field)
    decreases n
  {
    var here := ShredOccurrence(if n == 0 then r else rmax, rmax, d, occ[n], f, prefix, field);
    if n == 0 {
      assert occ[..1] == [occ[0]] && occ[..0] == [];
      assert [occ[0]][1..] == [];
      assert ShredOccurrences(rmax, rmax, d, [], f, prefix, field) == [];
      assert ShredOccurrences(r, rmax, d, [occ[0]], f, prefix, field) == here + [];
    } else {
      var first := ShredOccurrence(r, rmax, d, occ[0], f, prefix, field);
      assert occ[..n + 1][1..] == occ[1..][..n];
      assert occ[..n][1..] == occ[1..][..n - 1];
      ShredOccurrencesSnoc(rmax, rmax, d, occ[1..], n - 1, f, prefix, field);
      var mid := ShredOccurrences(rmax, rmax, d, occ[1..][..n - 1], f, prefix, field);
      assert first + (mid + here) == (first + mid) + here;
    }
  }

  lemma {:induction false} ApplyNoOccurrence(cols: Columns, r: nat, rmax: nat, d: nat, f: Field, prefix: string, field: Column)
    requires Matches(field, f) && WellFormed([f])
    ensures Apply(cols, ShredOccurrences(r, rmax, d, [], f, prefix, field)) == cols && Occurrences([], f.id) == []
  {
  }

  lemma {:induction false} ApplyNextOccurrence(cols: Columns, r: nat, rmax: nat, d: nat, occ: seq<Message>, n: nat, f: Field, prefix: string, field: Column)
    requires Matches(field, f) && WellFormed([f]) && (forall i :: 0 <= i < |occ| ==> ChildConforms(occ[i], f)) && n < |occ|
    ensures Apply(cols, ShredOccurrences(r, rmax, d, occ[..n + 1], f, prefix, field))
            == Apply(Apply(cols, ShredOccurrences(r, rmax, d, occ[..n], f, prefix, field)),
                     ShredOccurrence(if n == 0 then r else rmax, rmax, d, occ[n], f, prefix, field))
  {
    ShredOccurrencesSnoc(r, rmax, d, occ, n, f, prefix, field);
    ApplyConcat(cols, ShredOccurrences(r, rmax, d, occ[..n], f, prefix, field),
                ShredOccurrence(if n == 0 then r else rmax, rmax, d, occ[n], f, prefix, field));
  }

  lemma {:induction false} ShredColumnsSnoc(r: nat, rmax: nat, d: nat, o: Message, schema: seq<Field>, prefix: string, columns: seq<Column>, i: nat)
    requires Conforms(o, schema) && WellFormed(schema) && AllMatch(columns, schema) && i < |columns|
    ensures AllMatch([columns[i]], schema)
    ensures ShredColumns(r, rmax, d, o, schema, prefix, columns[..i + 1])
            == ShredColumns(r, rmax, d, o, schema, prefix, columns[..i]) + ShredField(r, rmax, d, o, schema, prefix, columns[i])
    decreases i
  {
    var here := ShredField(r, rmax, d, o, schema, prefix, columns[i]);
    if i == 0 {
      assert columns[..1] == [columns[0]] && columns[..0] == [];
      assert [columns[0]][1..] == [];
      assert ShredColumns(r, rmax, d, o, schema, prefix, []) == [];
      assert ShredColumns(r, rmax, d, o, schema, prefix, [columns[0]]) == here + [];
    } else {
      var first := ShredField(r, rmax, d, o, schema, prefix, columns[0]);
      assert columns[..i + 1][1..] == columns[1..][..i];
      assert columns[..i][1..] == columns[1..][..i - 1];
      ShredColumnsSnoc(r, rmax, d, o, schema, prefix, columns[1..], i - 1);
      var mid := ShredColumns(r, rmax, d, o, schema, prefix, columns[1..][..i - 1]);
      assert first + (mid + here) == (first + mid) + here;
    }
  }
}
