/** The leaf paths of a schema: they are prefix free, they address objects of every conforming
    message, and the two independent computations of levels and ancestors agree on them. */
module LeafPaths {
  import opened Messages
  import opened Schemas
  import opened Striping
  import opened Assembly
  import opened Projection

  /** The id paths that end at a leaf of the schema. */
  predicate IsLeafPath(fields: seq<Field>, p: seq<nat>)
    decreases |p|
  {
    p != [] &&
    var f := FindId(fields, p[0]);
    f.Some? &&
    match f.value.ty
    case ObjectType(sub) => |p| > 1 && IsLeafPath(sub, p[1..])
    case _ => |p| == 1
  }

  ghost function Paths(leaves: seq<Leaf>): set<seq<nat>> {
    set l | l in leaves :: Ids(l.path)
  }

  lemma {:induction false} LeafIsPath(prefix: string, fields: seq<Field>, l: Leaf)
    requires WellFormed(fields) && l in Leaves(prefix, fields)
    ensures IsLeafPath(fields, Ids(l.path))
    decreases |l.path|
  {
    var k := LeafField(prefix, fields, l);
    var f := fields[k];
    FindIdUnique(fields, k);
    if f.ty.ObjectType? {
      var inner := Leaves(prefix + f.name + ".", f.ty.fields);
      var m :| 0 <= m < |inner| && l == inner[m].(path := [StepOf(f)] + inner[m].path);
      assert inner[m] in inner;
      assert l.path[1..] == inner[m].path;
      LeafIsPath(prefix + f.name + ".", f.ty.fields, inner[m]);
      assert Ids(l.path)[1..] == Ids(inner[m].path);
    }
  }

  lemma {:induction false} PathIsLeaf(prefix: string, fields: seq<Field>, p: seq<nat>) returns (l: Leaf)
    requires IsLeafPath(fields, p)
    ensures l in Leaves(prefix, fields) && Ids(l.path) == p
    decreases |p|
  {
    hide Leaves, FieldLeaves, Ids;
    var f := FindId(fields, p[0]).value;
    var k :| 0 <= k < |fields| && fields[k] == f;
    FieldLeavesIncluded(prefix, fields, k);
    if f.ty.ObjectType? {
      var inner := PathIsLeaf(prefix + f.name + ".", f.ty.fields, p[1..]);
      l := OuterLeaf(prefix, f, inner);
      assert [p[0]] + p[1..] == p;
    } else {
      l := OwnLeaf(prefix, f);
      assert [p[0]] == p;
    }
  }

  lemma {:induction false} OuterLeaf(prefix: string, f: Field, inner: Leaf) returns (l: Leaf)
    requires f.ty.ObjectType? && inner in Leaves(prefix + f.name + ".", f.ty.fields)
    ensures l in FieldLeaves(prefix, f) && Ids(l.path) == [f.id] + Ids(inner.path)
  {
    hide Leaves;
    var all := Leaves(prefix + f.name + ".", f.ty.fields);
    var m :| 0 <= m < |all| && all[m] == inner;
    l := FieldLeaves(prefix, f)[m];
    assert l in FieldLeaves(prefix, f);
  }

  lemma {:induction false} OwnLeaf(prefix: string, f: Field) returns (l: Leaf)
    requires !f.ty.ObjectType?
    ensures l in FieldLeaves(prefix, f) && Ids(l.path) == [f.id]
  {
    l := FieldLeaves(prefix, f)[0];
    assert l in FieldLeaves(prefix, f);
  }

  /** The chosen leaves of a well-formed schema, as id paths. */
  lemma {:induction false} PathsAreLeafPaths(prefix: string, fields: seq<Field>)
    requires WellFormed(fields)
    ensures forall p :: p in Paths(Leaves(prefix, fields)) <==> IsLeafPath(fields, p)
  {
    forall p ensures p in Paths(Leaves(prefix, fields)) <==> IsLeafPath(fields, p) {
      if p in Paths(Leaves(prefix, fields)) {
        var l :| l in Leaves(prefix, fields) && Ids(l.path) == p;
        LeafIsPath(prefix, fields, l);
      }
      if IsLeafPath(fields, p) {
        var l := PathIsLeaf(prefix, fields, p);
      }
    }
  }

  lemma {:induction false} LeafPathPrefix(fields: seq<Field>, p: seq<nat>, q: seq<nat>)
    requires IsLeafPath(fields, p) && IsLeafPath(fields, q) && p <= q
    ensures p == q
    decreases |p|
  {
    var f := FindId(fields, p[0]).value;
    if f.ty.ObjectType? {
      assert p[1..] <= q[1..];
      LeafPathPrefix(f.ty.fields, p[1..], q[1..]);
      assert p == [p[0]] + p[1..] && q == [q[0]] + q[1..];
    }
  }

  lemma {:induction false} LeafPathsPrefixFree(fields: seq<Field>, paths: set<seq<nat>>)
    requires forall p :: p in paths ==> IsLeafPath(fields, p)
    ensures PrefixFree(paths)
  {
    forall p, q | p in paths && q in paths && p <= q ensures p == q {
      LeafPathPrefix(fields, p, q);
    }
  }

  /** Two leaves with the same id path are the same leaf. */
  lemma {:induction false} LeafByPath(prefix: string, fields: seq<Field>, a: Leaf, b: Leaf)
    requires WellFormed(fields) && a in Leaves(prefix, fields) && b in Leaves(prefix, fields) && Ids(a.path) == Ids(b.path)
    ensures a == b
    decreases |a.path|
  {
    var i := LeafField(prefix, fields, a);
    var j := LeafField(prefix, fields, b);
    assert Ids(a.path)[0] == fields[i].id && Ids(b.path)[0] == fields[j].id;
    assert i == j;
    var f := fields[i];
    if f.ty.ObjectType? {
      var inner := Leaves(prefix + f.name + ".", f.ty.fields);
      var m :| 0 <= m < |inner| && a == inner[m].(path := [StepOf(f)] + inner[m].path);
      var n :| 0 <= n < |inner| && b == inner[n].(path := [StepOf(f)] + inner[n].path);
      assert inner[m] in inner && inner[n] in inner;
      assert a.path[1..] == inner[m].path && b.path[1..] == inner[n].path;
      assert Ids(inner[m].path) == Ids(a.path)[1..];
      assert Ids(inner[n].path) == Ids(b.path)[1..];
      LeafByPath(prefix + f.name + ".", f.ty.fields, inner[m], inner[n]);
    }
  }

  // ---------------------------------------------------------------------------
  // Conforming messages along leaf paths
  // ---------------------------------------------------------------------------

  lemma {:induction false} ConformingReaches(o: Message, path: seq<Step>, ty: FieldType)
    requires path != [] && PathConforms(o, path, ty)
    ensures Reaches(o, Ids(path))
    decreases |path|
  {
    if |path| > 1 {
      var occ := Occurrences(o.children, path[0].id);
      assert Ids(path)[1..] == Ids(path[1..]);
      forall i | 0 <= i < |occ| ensures Reaches(occ[i], Ids(path)[1..]) {
        ConformingReaches(occ[i], path[1..], ty);
      }
    }
  }

  /** A record equivalent to a projection can be descended along any other leaf path. */
  lemma {:induction false} ProjectionFits(record: Message, o: Message, fields: seq<Field>, paths: set<seq<nat>>, path: seq<Step>, d: nat, ty: FieldType)
    requires path != [] && PathConforms(o, path, ty) && IsLeafPath(fields, Ids(path))
    requires forall p :: p in paths ==> IsLeafPath(fields, p)
    requires Equivalent(record, Project(o, paths))
    ensures Fits(record, ParentsOf(path, d))
    decreases |path|
  {
    if |path| > 1 {
      var id, d' := path[0].id, d + Bit(path[0].repeated || path[0].optional);
      var occ, roc := Occurrences(o.children, id), Occurrences(record.children, id);
      var f := FindId(fields, id).value;
      assert Ids(path)[1..] == Ids(path[1..]);
      assert [id] !in paths;
      ProjectOccurrences(o.children, paths, id);
      EquivalentAt(record, Project(o, paths), id);
      assert ParentsOf(path, d)[1..] == ParentsOf(path[1..], d');
      forall i | 0 <= i < |roc| ensures Fits(roc[i], ParentsOf(path[1..], d')) {
        forall p | p in Tails(paths, id) ensures IsLeafPath(f.ty.fields, p) {
          assert IsLeafPath(fields, [id] + p);
          assert ([id] + p)[1..] == p;
        }
        ProjectionFits(roc[i], occ[i], f.ty.fields, Tails(paths, id), path[1..], d', ty);
      }
    }
  }

  lemma {:induction false} SomeLeafPath(fields: seq<Field>) returns (p: seq<nat>)
    requires WellFormed(fields) && fields != []
    ensures IsLeafPath(fields, p)
    decreases fields
  {
    var f := fields[0];
    FindIdUnique(fields, 0);
    if f.ty.ObjectType? {
      var q := SomeLeafPath(f.ty.fields);
      p := [f.id] + q;
      assert p[1..] == q;
    } else {
      p := [f.id];
    }
  }

  /** Projecting a conforming message onto all the leaves of its schema loses nothing. */
  lemma {:induction false} ProjectAllLeaves(o: Message, fields: seq<Field>, paths: set<seq<nat>>)
    requires WellFormed(fields) && Conforms(o, fields)
    requires forall p :: p in paths <==> IsLeafPath(fields, p)
    ensures Equivalent(Project(o, paths), o)
    decreases o
  {
    var projected := Project(o, paths);
    forall id: nat
      ensures Count(projected.children, id) == Count(o.children, id)
      ensures forall i :: 0 <= i < Count(projected.children, id) && i < Count(o.children, id) ==>
                Equivalent(Occurrences(projected.children, id)[i], Occurrences(o.children, id)[i])
    {
      ProjectOccurrences(o.children, paths, id);
      var occ := Occurrences(o.children, id);
      if occ != [] {
        assert occ[0] in o.children;
        var f := FindId(fields, id).value;
        OccurrencesConform(o, fields, f);
        if f.ty.ObjectType? {
          ProjectObjects(o, fields, f, paths);
        } else {
          assert IsLeafPath(fields, [id]);
          forall i | 0 <= i < |occ| ensures Equivalent(occ[i], occ[i]) {
            EquivalentReflexive(occ[i]);
          }
        }
      }
    }
  }

  lemma {:induction false} ProjectObjects(o: Message, fields: seq<Field>, f: Field, paths: set<seq<nat>>)
    requires WellFormed(fields) && Conforms(o, fields) && f.ty.ObjectType? && FindId(fields, f.id) == Some(f)
    requires forall p :: p in paths <==> IsLeafPath(fields, p)
    ensures [f.id] !in paths && Tails(paths, f.id) != {}
    ensures var occ := Occurrences(o.children, f.id);
            forall i :: 0 <= i < |occ| ==> Equivalent(Project(occ[i], Tails(paths, f.id)), occ[i])
    decreases o, 0
  {
    var id, tails, occ := f.id, Tails(paths, f.id), Occurrences(o.children, f.id);
    var k :| 0 <= k < |fields| && fields[k] == f;
    forall p ensures p in tails <==> IsLeafPath(f.ty.fields, p) {
      assert [id] + p in paths <==> IsLeafPath(fields, [id] + p);
      assert ([id] + p)[1..] == p;
    }
    var q := SomeLeafPath(f.ty.fields);
    assert q in tails;
    OccurrencesConform(o, fields, f);
    forall i | 0 <= i < |occ| ensures Equivalent(Project(occ[i], tails), occ[i]) {
      assert occ[i] in o.children;
      assert ChildConforms(occ[i], f);
      ProjectAllLeaves(occ[i], f.ty.fields, tails);
    }
  }

  // ---------------------------------------------------------------------------
  // Levels and ancestors, computed twice
  // ---------------------------------------------------------------------------

  datatype NamedPlan = NamedPlan(name: string, plan: Plan)

  /** The columns the materializer sets up for one field, ancestors and levels accumulated on
      the way down. */
  function CreateColumns(prefix: string, dmax: nat, parents: seq<Parent>, field: Field): seq<NamedPlan>
    decreases field, 1
  {
    var colname := prefix + field.name;
    var d := dmax + Bit(field.repeated || field.optional);
    match field.ty
    case ObjectType(fields) => CreateAllColumns(colname + ".", d, parents + [Parent(field.id, field.repeated, d)], fields)
    case _ => [NamedPlan(colname, Plan(parents, field.id, field.ty))]
  }

  function CreateAllColumns(prefix: string, dmax: nat, parents: seq<Parent>, fields: seq<Field>): seq<NamedPlan>
    decreases fields, 0
  {
    if fields == [] then []
    else CreateColumns(prefix, dmax, parents, fields[0]) + CreateAllColumns(prefix, dmax, parents, fields[1..])
  }

  function PlanAt(parents: seq<Parent>, dmax: nat, l: Leaf): NamedPlan
    requires l.path != []
  {
    NamedPlan(l.name, Plan(parents + ParentsOf(l.path, dmax), l.path[|l.path| - 1].id, l.ty))
  }

  lemma {:induction false} ParentsStep(path: seq<Step>, dmax: nat)
    requires |path| > 1
    ensures var d := dmax + Bit(path[0].repeated || path[0].optional);
      ParentsOf(path, dmax) == [Parent(path[0].id, path[0].repeated, d)] + ParentsOf(path[1..], d)
  {
  }

  lemma {:induction false} PlanBelow(parents: seq<Parent>, dmax: nat, field: Field, l: Leaf)
    requires l.path != []
    ensures var d := dmax + Bit(field.repeated || field.optional);
            PlanAt(parents + [Parent(field.id, field.repeated, d)], d, l)
            == PlanAt(parents, dmax, l.(path := [StepOf(field)] + l.path))
  {
    hide ParentsOf;
    var d := dmax + Bit(field.repeated || field.optional);
    var here, path := Parent(field.id, field.repeated, d), [StepOf(field)] + l.path;
    assert path[1..] == l.path;
    ParentsStep(path, dmax);
    assert parents + [here] + ParentsOf(l.path, d) == parents + ([here] + ParentsOf(l.path, d));
  }

  /** The materializer creates one column per leaf, in order, with that leaf's plan. */
  lemma {:induction false} CreatedColumns(prefix: string, dmax: nat, parents: seq<Parent>, field: Field)
    ensures var plans, leaves := CreateColumns(prefix, dmax, parents, field), FieldLeaves(prefix, field);
            |plans| == |leaves| && forall i :: 0 <= i < |plans| ==> plans[i] == PlanAt(parents, dmax, leaves[i])
    decreases field, 1
  {
    var plans, leaves := CreateColumns(prefix, dmax, parents, field), FieldLeaves(prefix, field);
    match field.ty
    case ObjectType(fields) =>
      var d := dmax + Bit(field.repeated || field.optional);
      var here := Parent(field.id, field.repeated, d);
      CreatedAllColumns(prefix + field.name + ".", d, parents + [here], fields);
      var inner := Leaves(prefix + field.name + ".", fields);
      forall i | 0 <= i < |plans| ensures plans[i] == PlanAt(parents, dmax, leaves[i]) {
        PlanBelow(parents, dmax, field, inner[i]);
      }
    case _ =>
      assert parents + [] == parents;
  }

  lemma {:induction false} CreatedAllColumns(prefix: string, dmax: nat, parents: seq<Parent>, fields: seq<Field>)
    ensures var plans, leaves := CreateAllColumns(prefix, dmax, parents, fields), Leaves(prefix, fields);
            |plans| == |leaves| && forall i :: 0 <= i < |plans| ==> plans[i] == PlanAt(parents, dmax, leaves[i])
    decreases fields, 0
  {
    if fields != [] {
      CreatedColumns(prefix, dmax, parents, fields[0]);
      CreatedAllColumns(prefix, dmax, parents, fields[1..]);
    }
  }

  /** The logical type and the encoding of the column that stores a scalar type. */
  predicate StoredAs(ty: FieldType, logicalType: ColumnType, encoding: Encoding) {
    match ty
    case ObjectType(_) => false
    case BoolType => logicalType == BooleanColumn && encoding == BooleanBitpacked
    case UInt32Type => logicalType == UnsignedIntColumn && encoding == UInt64Leb128
    case UInt64Type => logicalType == UnsignedIntColumn && encoding == UInt64Leb128
    case StringType => logicalType == StringColumn && encoding == StringPlain
    case DoubleType => logicalType == FloatColumn && encoding == FloatIeee754
    case DateTimeType => logicalType == DateTimeColumn && encoding == UInt64Leb128
  }

  /** The configuration of a flat column carries the types and the level maxima of the leaf it
      stands for. */
  ghost predicate Configures(cfg: ColumnConfig, l: Leaf, rmax: nat, dmax: nat) {
    && cfg.name == l.name && StoredAs(l.ty, cfg.logicalType, cfg.encoding)
    && cfg.rlevelMax == rmax + RepLevel(l.path) && cfg.dlevelMax == dmax + DefLevel(l.path)
  }

  lemma {:induction false} FlatColumnLeaf(prefix: string, rmax: nat, dmax: nat, field: Column, f: Field, cfg: ColumnConfig) returns (l: Leaf)
    requires Matches(field, f) && cfg in ListFlatColumns(prefix, rmax, dmax, field)
    ensures l in FieldLeaves(prefix, f) && Configures(cfg, l, rmax, dmax) && cfg.name in FlatNames(prefix, field)
    decreases field, 1
  {
    var leaves := FieldLeaves(prefix, f);
    if field.ctype.SubRecord? {
      var r, d := rmax + Bit(field.repeated), dmax + Bit(field.repeated || field.optional);
      var inner := Leaves(prefix + f.name + ".", f.ty.fields);
      var l' := AllFlatColumnsLeaf(prefix + f.name + ".", r, d, field.ctype.columns, f.ty.fields, cfg);
      var k :| 0 <= k < |inner| && inner[k] == l';
      l := leaves[k];
      assert l.path[1..] == l'.path;
    } else {
      l := leaves[0];
      ScalarColumn(prefix, rmax, dmax, field, f);
    }
    assert l in leaves;
  }

  lemma {:induction false} ScalarColumn(prefix: string, rmax: nat, dmax: nat, field: Column, f: Field)
    requires Matches(field, f) && !field.ctype.SubRecord?
    ensures |ListFlatColumns(prefix, rmax, dmax, field)| == 1 && |FieldLeaves(prefix, f)| == 1
    ensures Configures(ListFlatColumns(prefix, rmax, dmax, field)[0], FieldLeaves(prefix, f)[0], rmax, dmax)
    ensures ListFlatColumns(prefix, rmax, dmax, field)[0].name in FlatNames(prefix, field)
  {
    var l := FieldLeaves(prefix, f)[0];
    assert l.path[1..] == [];
    assert RepLevel(l.path) == Bit(f.repeated) + RepLevel([]);
    assert DefLevel(l.path) == Bit(f.repeated || f.optional) + DefLevel([]);
  }

  lemma {:induction false} AllFlatColumnsLeaf(prefix: string, rmax: nat, dmax: nat, columns: seq<Column>, schema: seq<Field>, cfg: ColumnConfig) returns (l: Leaf)
    requires AllMatch(columns, schema) && cfg in ListAllFlatColumns(prefix, rmax, dmax, columns)
    ensures l in Leaves(prefix, schema) && Configures(cfg, l, rmax, dmax) && cfg.name in AllFlatNames(prefix, columns)
    decreases columns, 0
  {
    if cfg in ListFlatColumns(prefix, rmax, dmax, columns[0]) {
      var f := FindName(schema, columns[0].name).value;
      var k :| 0 <= k < |schema| && schema[k] == f;
      l := FlatColumnLeaf(prefix, rmax, dmax, columns[0], f, cfg);
      FieldLeavesIncluded(prefix, schema, k);
    } else {
      l := AllFlatColumnsLeaf(prefix, rmax, dmax, columns[1..], schema, cfg);
    }
  }

  /** The flat columns of a list of columns are those of its parts, in order. */
  lemma {:induction false} FlatColumnsConcat(prefix: string, rmax: nat, dmax: nat, a: seq<Column>, b: seq<Column>)
    ensures ListAllFlatColumns(prefix, rmax, dmax, a + b)
         == ListAllFlatColumns(prefix, rmax, dmax, a) + ListAllFlatColumns(prefix, rmax, dmax, b)
    decreases |a|
  {
    hide ListFlatColumns;
    if a == [] {
      assert a + b == b;
    } else {
      assert (a + b)[0] == a[0] && (a + b)[1..] == a[1..] + b;
      FlatColumnsConcat(prefix, rmax, dmax, a[1..], b);
      var x, y, z := ListFlatColumns(prefix, rmax, dmax, a[0]), ListAllFlatColumns(prefix, rmax, dmax, a[1..]), ListAllFlatColumns(prefix, rmax, dmax, b);
      assert x + (y + z) == x + y + z;
    }
  }

  /** One flat column for every leaf, in the order of the leaves. */
  ghost predicate ConfiguresAll(cfgs: seq<ColumnConfig>, leaves: seq<Leaf>, rmax: nat, dmax: nat) {
    |cfgs| == |leaves| && forall i :: 0 <= i < |cfgs| ==> Configures(cfgs[i], leaves[i], rmax, dmax)
  }

  lemma {:induction false} OuterConfigures(cfg: ColumnConfig, inner: Leaf, f: Field, rmax: nat, dmax: nat)
    requires Configures(cfg, inner, rmax + Bit(f.repeated), dmax + Bit(f.repeated || f.optional))
    ensures Configures(cfg, inner.(path := [StepOf(f)] + inner.path), rmax, dmax)
  {
    var path := [StepOf(f)] + inner.path;
    assert path[1..] == inner.path;
  }

  lemma {:induction false} DerivedColumn(prefix: string, rmax: nat, dmax: nat, f: Field)
    ensures ConfiguresAll(ListFlatColumns(prefix, rmax, dmax, ColumnOf(f)), FieldLeaves(prefix, f), rmax, dmax)
    decreases f, 1
  {
    hide Configures, ListAllFlatColumns, Leaves, FlatNames;
    if f.ty.ObjectType? {
      var r, d := rmax + Bit(f.repeated), dmax + Bit(f.repeated || f.optional);
      DerivedColumns(prefix + f.name + ".", r, d, f.ty.fields);
      var inner, cfgs := Leaves(prefix + f.name + ".", f.ty.fields), ListFlatColumns(prefix, rmax, dmax, ColumnOf(f));
      forall i | 0 <= i < |cfgs| ensures Configures(cfgs[i], FieldLeaves(prefix, f)[i], rmax, dmax) {
        OuterConfigures(cfgs[i], inner[i], f, rmax, dmax);
      }
    } else {
      ScalarColumn(prefix, rmax, dmax, ColumnOf(f), f);
    }
  }

  lemma {:induction false} ConfiguresConcat(a: seq<ColumnConfig>, b: seq<ColumnConfig>, x: seq<Leaf>, y: seq<Leaf>, rmax: nat, dmax: nat)
    requires ConfiguresAll(a, x, rmax, dmax) && ConfiguresAll(b, y, rmax, dmax)
    ensures ConfiguresAll(a + b, x + y, rmax, dmax)
  {
    hide Configures;
  }

  lemma {:induction false} DerivedParts(prefix: string, rmax: nat, dmax: nat, fields: seq<Field>)
    requires fields != []
    ensures Leaves(prefix, fields) == FieldLeaves(prefix, fields[0]) + Leaves(prefix, fields[1..])
    ensures ListAllFlatColumns(prefix, rmax, dmax, FromProtobuf(fields))
         == ListFlatColumns(prefix, rmax, dmax, ColumnOf(fields[0])) + ListAllFlatColumns(prefix, rmax, dmax, FromProtobuf(fields[1..]))
  {
    hide ListFlatColumns, FieldLeaves, ColumnOf;
    assert FromProtobuf(fields)[1..] == FromProtobuf(fields[1..]);
  }

  /** The flat columns of the derived table schema are the leaves of the message schema, in their
      order. */
  lemma {:induction false} DerivedColumns(prefix: string, rmax: nat, dmax: nat, fields: seq<Field>)
    ensures ConfiguresAll(ListAllFlatColumns(prefix, rmax, dmax, FromProtobuf(fields)), Leaves(prefix, fields), rmax, dmax)
    decreases fields, 0
  {
    if fields != [] {
      hide *;
      DerivedColumn(prefix, rmax, dmax, fields[0]);
      DerivedColumns(prefix, rmax, dmax, fields[1..]);
      DerivedParts(prefix, rmax, dmax, fields);
      ConfiguresConcat(ListFlatColumns(prefix, rmax, dmax, ColumnOf(fields[0])),
                       ListAllFlatColumns(prefix, rmax, dmax, FromProtobuf(fields[1..])),
                       FieldLeaves(prefix, fields[0]), Leaves(prefix, fields[1..]), rmax, dmax);
    }
  }

  /** Every flat name has a configuration. */
  lemma {:induction false} FlatNameConfigured(prefix: string, rmax: nat, dmax: nat, field: Column, n: string) returns (cfg: ColumnConfig)
    requires n in FlatNames(prefix, field)
    ensures cfg in ListFlatColumns(prefix, rmax, dmax, field) && cfg.name == n
    decreases field, 1
  {
    if field.ctype.SubRecord? {
      cfg := AllFlatNamesConfigured(prefix + field.name + ".", rmax + Bit(field.repeated),
                                    dmax + Bit(field.repeated || field.optional), field.ctype.columns, n);
    } else {
      cfg := ListFlatColumns(prefix, rmax, dmax, field)[0];
    }
  }

  lemma {:induction false} AllFlatNamesConfigured(prefix: string, rmax: nat, dmax: nat, columns: seq<Column>, n: string) returns (cfg: ColumnConfig)
    requires n in AllFlatNames(prefix, columns)
    ensures cfg in ListAllFlatColumns(prefix, rmax, dmax, columns) && cfg.name == n
    decreases columns, 0
  {
    if n in FlatNames(prefix, columns[0]) {
      cfg := FlatNameConfigured(prefix, rmax, dmax, columns[0], n);
    } else {
      cfg := AllFlatNamesConfigured(prefix, rmax, dmax, columns[1..], n);
    }
  }
}
