/** The columns of a table determine its records: no two lists of different records shred into
    the same columns. */
module Lossless {
  import opened Messages
  import opened Schemas
  import opened ColumnData
  import opened Striping
  import opened Assembly
  import opened Projection
  import opened LeafPaths
  import opened RecordShredder
  import opened RecordMaterializer
  import opened RoundTrip

  ghost predicate StartsOnce(es: seq<Entry>) { es != [] && forall i :: 0 <= i < |es| ==> (es[i].r == 0 <==> i == 0) }

  /** The last record of a column starts at its last entry with repetition level zero. */
  lemma {:induction false} SameCut(a: seq<Entry>, b: seq<Entry>, es: seq<Entry>, fs: seq<Entry>)
    requires a + es == b + fs && StartsOnce(es) && StartsOnce(fs)
    ensures a == b && es == fs
  {
    var all := a + es;
    assert all[|a|] == es[0] && all[|b|] == fs[0];
    assert forall i :: |a| < i < |all| ==> all[i] == es[i - |a|];
    assert forall i :: |b| < i < |all| ==> all[i] == fs[i - |b|];
    assert |a| == |b|;
    assert all[..|a|] == a && (b + fs)[..|b|] == b;
    assert all[|a|..] == es && (b + fs)[|b|..] == fs;
  }

  lemma {:induction false} SameStripes(schema: seq<Field>, rows: seq<Message>, others: seq<Message>, l: Leaf, k: nat)
    requires WellFormed(schema) && l in Leaves("", schema) && AllConform(rows, schema) && AllConform(others, schema)
    requires |rows| == |others| && RowsStripe(rows, l.path) == RowsStripe(others, l.path) && k < |rows|
    ensures Stripe(0, 0, 0, rows[k], l.path) == Stripe(0, 0, 0, others[k], l.path)
    decreases |rows|
  {
    hide Stripe, WellFormed, Conforms, Leaves;
    var n := |rows| - 1;
    RecordLevels(schema, rows[n], l);
    RecordLevels(schema, others[n], l);
    SameCut(RowsStripe(rows[..n], l.path), RowsStripe(others[..n], l.path),
            Stripe(0, 0, 0, rows[n], l.path), Stripe(0, 0, 0, others[n], l.path));
    if k < n {
      SameStripes(schema, rows[..n], others[..n], l, k);
    }
  }

  function PathsUpTo(leaves: seq<Leaf>, n: nat): set<seq<nat>>
    requires n <= |leaves|
  {
    set i | 0 <= i < n :: Ids(leaves[i].path)
  }

  /** Merging the leaves one after another builds the same record from both. */
  lemma {:induction false} MergedAlike(schema: seq<Field>, row: Message, other: Message, n: nat) returns (record: Message)
    requires WellFormed(schema) && Conforms(row, schema) && Conforms(other, schema) && row.id == 0 && other.id == 0
    requires n <= |Leaves("", schema)|
    requires forall l :: l in Leaves("", schema) ==> Stripe(0, 0, 0, row, l.path) == Stripe(0, 0, 0, other, l.path)
    ensures Equivalent(record, Project(row, PathsUpTo(Leaves("", schema), n)))
    ensures Equivalent(record, Project(other, PathsUpTo(Leaves("", schema), n)))
  {
    hide Stripe, WellFormed, Conforms, Leaves, Project, Equivalent, Merge, Run;
    var leaves := Leaves("", schema);
    if n == 0 {
      record := Object(0, []);
      assert PathsUpTo(leaves, 0) == {};
      NothingProjected(row, schema);
      NothingProjected(other, schema);
    } else {
      var l := leaves[n - 1];
      var before := MergedAlike(schema, row, other, n - 1);
      var paths, p := PathsUpTo(leaves, n - 1), Ids(l.path);
      assert PathsUpTo(leaves, n) == paths + {p};
      if p in paths {
        assert paths + {p} == paths;
        record := before;
      } else {
        forall q | q in paths + {p} ensures IsLeafPath(schema, q) {
          var i :| 0 <= i < n && q == Ids(leaves[i].path);
          LeafIsPath("", schema, leaves[i]);
        }
        LeafPathsPrefixFree(schema, paths + {p});
        LeafMerged(schema, before, row, l, paths);
        LeafMerged(schema, before, other, l, paths);
        record := Run(before, Zeros(RepLevel(l.path)), Stripe(0, 0, 0, row, l.path), PlanOf(l.path, 0, l.ty), 0);
      }
    }
  }

  lemma {:induction false} NothingProjected(row: Message, schema: seq<Field>)
    requires Conforms(row, schema) && row.id == 0
    ensures Equivalent(Object(0, []), Project(row, {}))
  {
    ProjectNothing(row.children);
    EquivalentReflexive(Object(0, []));
  }

  lemma {:induction false} LeafMerged(schema: seq<Field>, before: Message, row: Message, l: Leaf, paths: set<seq<nat>>)
    requires WellFormed(schema) && Conforms(row, schema) && l in Leaves("", schema)
    requires Ids(l.path) !in paths && PrefixFree(paths + {Ids(l.path)}) && Equivalent(before, Project(row, paths))
    ensures Equivalent(Run(before, Zeros(RepLevel(l.path)), Stripe(0, 0, 0, row, l.path), PlanOf(l.path, 0, l.ty), 0),
                       Project(row, paths + {Ids(l.path)}))
  {
    hide Stripe, WellFormed, Conforms, Leaves, Project, Equivalent, Merge, Run;
    ConformsAlongPath(row, "", schema, l);
    ConformingReaches(row, l.path, l.ty);
    MergeProjects(before, row, paths, Ids(l.path));
    RunStripe(before, 0, 0, 0, row, l.path, l.ty);
  }

  lemma {:induction false} SameRecord(schema: seq<Field>, row: Message, other: Message)
    requires WellFormed(schema) && Conforms(row, schema) && Conforms(other, schema) && row.id == 0 && other.id == 0
    requires forall l :: l in Leaves("", schema) ==> Stripe(0, 0, 0, row, l.path) == Stripe(0, 0, 0, other, l.path)
    ensures Equivalent(row, other)
  {
    hide Stripe, WellFormed, Conforms, Leaves, Project, Equivalent;
    var leaves := Leaves("", schema);
    var record := MergedAlike(schema, row, other, |leaves|);
    var paths := PathsUpTo(leaves, |leaves|);
    assert paths == Paths(leaves);
    PathsAreLeafPaths("", schema);
    ProjectAllLeaves(row, schema, paths);
    ProjectAllLeaves(other, schema, paths);
    EquivalentSymmetric(record, Project(row, paths));
    EquivalentSymmetric(Project(row, paths), row);
    EquivalentTransitive(row, Project(row, paths), record);
    EquivalentTransitive(row, record, Project(other, paths));
    EquivalentTransitive(row, Project(other, paths), other);
  }

  lemma {:induction false} SameColumn(schema: seq<Field>, columns: seq<Column>, cols: Columns, rows: seq<Message>, others: seq<Message>, l: Leaf)
    requires SchemasMatch(schema, columns) && Covers(columns, schema) && AllConform(rows, schema) && AllConform(others, schema)
    requires Stores(cols, schema, columns, rows) && Stores(cols, schema, columns, others) && l in Leaves("", schema)
    ensures RowsStripe(rows, l.path) == RowsStripe(others, l.path)
  {
    hide Stripe, WellFormed, Conforms, Leaves, RowsStripe, AppendAll, Covers, AllFlatNames, DistinctNames;
    CoversStoresAll("", columns, schema);
    assert l.name in Names(Leaves("", schema));
    RowsDisciplined(schema, rows, l);
    RowsDisciplined(schema, others, l);
    ReadBack(RepLevel(l.path), DefLevel(l.path), RowsStripe(rows, l.path));
    ReadBack(RepLevel(l.path), DefLevel(l.path), RowsStripe(others, l.path));
  }

  /** A schema with a field has a leaf, whose column counts the records. */
  lemma {:induction false} SameNumber(schema: seq<Field>, columns: seq<Column>, cols: Columns, rows: seq<Message>, others: seq<Message>)
    requires SchemasMatch(schema, columns) && Covers(columns, schema) && AllConform(rows, schema) && AllConform(others, schema)
    requires Stores(cols, schema, columns, rows) && Stores(cols, schema, columns, others) && schema != []
    ensures |rows| == |others|
  {
    hide WellFormed, Conforms, Leaves, RowsStripe, Covers, Stores;
    var p := SomeLeafPath(schema);
    var l := PathIsLeaf("", schema, p);
    SameColumn(schema, columns, cols, rows, others, l);
    OneZeroPerRow(schema, rows, l);
    OneZeroPerRow(schema, others, l);
  }

  /** Lists of conforming records with the same columns are the same records, up to the
      interleaving of different ids. Only for a schema without fields must the number be given. */
  lemma {:induction false} ColumnsDetermineRecords(schema: seq<Field>, columns: seq<Column>, cols: Columns, rows: seq<Message>, others: seq<Message>)
    requires SchemasMatch(schema, columns) && Covers(columns, schema) && AllConform(rows, schema) && AllConform(others, schema)
    requires Stores(cols, schema, columns, rows) && Stores(cols, schema, columns, others)
    requires schema == [] ==> |rows| == |others|
    ensures |rows| == |others| && forall k :: 0 <= k < |rows| ==> Equivalent(rows[k], others[k])
  {
    hide Stripe, WellFormed, Conforms, Leaves, Equivalent, RowsStripe, Covers, Stores;
    if schema != [] {
      SameNumber(schema, columns, cols, rows, others);
    }
    forall k | 0 <= k < |rows| ensures Equivalent(rows[k], others[k]) {
      forall l | l in Leaves("", schema) ensures Stripe(0, 0, 0, rows[k], l.path) == Stripe(0, 0, 0, others[k], l.path) {
        SameColumn(schema, columns, cols, rows, others, l);
        SameStripes(schema, rows, others, l, k);
      }
      SameRecord(schema, rows[k], others[k]);
    }
  }
}
