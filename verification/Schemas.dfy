/** Message schemas (`stx::msg::MessageSchema`), table schemas (`cstable::TableSchema`), the
    flattening of a table schema into leaf columns, and conformance of messages. */
module Schemas {
  import opened Messages

  datatype FieldType =
    | ObjectType(fields: seq<Field>)
    | BoolType
    | UInt32Type
    | UInt64Type
    | StringType
    | DoubleType
    | DateTimeType

  datatype Field = Field(id: nat, name: string, ty: FieldType, repeated: bool, optional: bool)

  datatype Encoding = BooleanBitpacked | UInt64Leb128 | FloatIeee754 | StringPlain

  datatype ColumnType =
    | SubRecord(columns: seq<Column>)
    | BooleanColumn
    | UnsignedIntColumn
    | StringColumn
    | FloatColumn
    | DateTimeColumn

  datatype Column = Column(name: string, ctype: ColumnType, repeated: bool, optional: bool)

  /** One flat (leaf) column with its level maxima. */
  datatype ColumnConfig =
    ColumnConfig(name: string, encoding: Encoding, logicalType: ColumnType, rlevelMax: nat, dlevelMax: nat)

  function LogicalType(ty: FieldType): ColumnType
    requires !ty.ObjectType?
  {
    match ty
    case BoolType => BooleanColumn
    case UInt32Type => UnsignedIntColumn
    case UInt64Type => UnsignedIntColumn
    case StringType => StringColumn
    case DoubleType => FloatColumn
    case DateTimeType => DateTimeColumn
  }

  function StorageType(ctype: ColumnType): Encoding
    requires !ctype.SubRecord?
  {
    match ctype
    case BooleanColumn => BooleanBitpacked
    case UnsignedIntColumn => UInt64Leb128
    case StringColumn => StringPlain
    case FloatColumn => FloatIeee754
    case DateTimeColumn => UInt64Leb128
  }

  /** The table schema derived from a message schema. */
  function FromProtobuf(fields: seq<Field>): (columns: seq<Column>)
    ensures |columns| == |fields|
  {
    if fields == [] then []
    else [ColumnOf(fields[0])] + FromProtobuf(fields[1..])
  }

  function ColumnOf(f: Field): Column {
    Column(f.name,
           if f.ty.ObjectType? then SubRecord(FromProtobuf(f.ty.fields)) else LogicalType(f.ty),
           f.repeated, f.optional)
  }

  function Bit(b: bool): nat {
    if b then 1 else 0
  }

  // ---------------------------------------------------------------------------
  // Flattening
  // ---------------------------------------------------------------------------

  function ListFlatColumns(prefix: string, rmax: nat, dmax: nat, field: Column): seq<ColumnConfig>
    decreases field, 1
  {
    var colname := prefix + field.name;
    var r := rmax + Bit(field.repeated);
    var d := dmax + Bit(field.repeated || field.optional);
    match field.ctype
    case SubRecord(columns) => ListAllFlatColumns(colname + ".", r, d, columns)
    case _ => [ColumnConfig(colname, StorageType(field.ctype), field.ctype, r, d)]
  }

  function ListAllFlatColumns(prefix: string, rmax: nat, dmax: nat, columns: seq<Column>): seq<ColumnConfig>
    decreases columns, 0
  {
    if columns == [] then []
    else ListFlatColumns(prefix, rmax, dmax, columns[0]) + ListAllFlatColumns(prefix, rmax, dmax, columns[1..])
  }

  function FlatColumns(columns: seq<Column>): seq<ColumnConfig> {
    ListAllFlatColumns("", 0, 0, columns)
  }

  // ---------------------------------------------------------------------------
  // Leaves of a message schema and the paths that reach them
  // ---------------------------------------------------------------------------

  datatype Step = Step(id: nat, repeated: bool, optional: bool)

  datatype Leaf = Leaf(name: string, path: seq<Step>, ty: FieldType)

  function StepOf(f: Field): Step {
    Step(f.id, f.repeated, f.optional)
  }

  function Prepend(step: Step, leaves: seq<Leaf>): (r: seq<Leaf>)
    ensures |r| == |leaves|
    ensures forall i :: 0 <= i < |r| ==> r[i] == leaves[i].(path := [step] + leaves[i].path)
  {
    seq(|leaves|, i requires 0 <= i < |leaves| => leaves[i].(path := [step] + leaves[i].path))
  }

  function FieldLeaves(prefix: string, f: Field): (r: seq<Leaf>)
    ensures forall i :: 0 <= i < |r| ==> r[i].path != [] && r[i].path[0] == StepOf(f) && !r[i].ty.ObjectType?
    decreases f, 1
  {
    match f.ty
    case ObjectType(fields) => Prepend(StepOf(f), Leaves(prefix + f.name + ".", fields))
    case _ => [Leaf(prefix + f.name, [StepOf(f)], f.ty)]
  }

  function Leaves(prefix: string, fields: seq<Field>): (r: seq<Leaf>)
    ensures forall i :: 0 <= i < |r| ==> r[i].path != [] && !r[i].ty.ObjectType?
    decreases fields, 0
  {
    if fields == [] then []
    else FieldLeaves(prefix, fields[0]) + Leaves(prefix, fields[1..])
  }

  function Ids(path: seq<Step>): (ids: seq<nat>)
    ensures |ids| == |path|
    ensures forall i :: 0 <= i < |ids| ==> ids[i] == path[i].id
  {
    seq(|path|, i requires 0 <= i < |path| => path[i].id)
  }

  /** The number of repeated fields on a path: the largest repetition level of its column. */
  function RepLevel(path: seq<Step>): nat {
    if path == [] then 0 else Bit(path[0].repeated) + RepLevel(path[1..])
  }

  /** The number of repeated or optional fields on a path: the largest definition level. */
  function DefLevel(path: seq<Step>): nat {
    if path == [] then 0 else Bit(path[0].repeated || path[0].optional) + DefLevel(path[1..])
  }

  function FindName(fields: seq<Field>, name: string): (r: Option<Field>)
    ensures r.Some? ==> r.value in fields && r.value.name == name
  {
    if fields == [] then None
    else if fields[0].name == name then Some(fields[0])
    else FindName(fields[1..], name)
  }

  function FindId(fields: seq<Field>, id: nat): (r: Option<Field>)
    ensures r.Some? ==> r.value in fields && r.value.id == id
  {
    if fields == [] then None
    else if fields[0].id == id then Some(fields[0])
    else FindId(fields[1..], id)
  }

  /** Sibling ids and names are distinct and every object type has a field, at every depth. */
  ghost predicate WellFormed(fields: seq<Field>) {
    && (forall i, j :: 0 <= i < j < |fields| ==> fields[i].id != fields[j].id)
    && (forall i, j :: 0 <= i < j < |fields| ==> fields[i].name != fields[j].name)
    && (forall i :: 0 <= i < |fields| && fields[i].ty.ObjectType? ==>
          fields[i].ty.fields != [] && WellFormed(fields[i].ty.fields))
  }

  ghost predicate DistinctNames(leaves: seq<Leaf>) {
    forall i, j :: 0 <= i < j < |leaves| ==> leaves[i].name != leaves[j].name
  }

  // ---------------------------------------------------------------------------
  // Table schemas against message schemas
  // ---------------------------------------------------------------------------

  /** A column is the image of a field, its subcolumns possibly reordered or dropped
      (copying a table schema walks a hash map, so the order is arbitrary). */
  ghost predicate Matches(c: Column, f: Field)
    decreases c, 1
  {
    && c.name == f.name && c.repeated == f.repeated && c.optional == f.optional
    && match f.ty {
      case ObjectType(fields) => c.ctype.SubRecord? && AllMatch(c.ctype.columns, fields)
      case BoolType => c.ctype.BooleanColumn?
      case UInt32Type => c.ctype.UnsignedIntColumn?
      case UInt64Type => c.ctype.UnsignedIntColumn?
      case StringType => c.ctype.StringColumn?
      case DoubleType => c.ctype.FloatColumn?
      case DateTimeType => c.ctype.DateTimeColumn?
    }
  }

  ghost predicate AllMatch(columns: seq<Column>, fields: seq<Field>)
    decreases columns, 0
  {
    forall i :: 0 <= i < |columns| ==>
      FindName(fields, columns[i].name).Some? && Matches(columns[i], FindName(fields, columns[i].name).value)
  }

  /** No field is dropped, at any depth; the order may still differ. */
  ghost predicate Covers(columns: seq<Column>, fields: seq<Field>)
    decreases fields
  {
    forall j :: 0 <= j < |fields| ==>
      exists i :: 0 <= i < |columns| && columns[i].name == fields[j].name
        && (if fields[j].ty.ObjectType? then columns[i].ctype.SubRecord? && Covers(columns[i].ctype.columns, fields[j].ty.fields)
            else !columns[i].ctype.SubRecord?)
  }

  // ---------------------------------------------------------------------------
  // Conformance of messages
  // ---------------------------------------------------------------------------

  predicate Typed(v: Value, ty: FieldType) {
    match ty
    case ObjectType(_) => false
    case BoolType => v.BoolValue?
    case UInt32Type => v.UInt32Value? && v.u32 < TWO_32
    case UInt64Type => v.UInt64Value? && v.u64 < TWO_64
    case StringType => v.StringValue? && |v.s| < TWO_32
    case DoubleType => v.DoubleValue? && v.bits < TWO_64
    case DateTimeType => v.DateTimeValue? && v.micros < TWO_64
  }

  predicate CountAllowed(n: nat, repeated: bool, optional: bool) {
    (!repeated ==> n <= 1) && (!repeated && !optional ==> n == 1)
  }

  /** Every child belongs to a field of the schema and has its type; fields that are not
      repeated occur at most once and required fields are present. */
  ghost predicate Conforms(o: Message, fields: seq<Field>)
    decreases o, 1
  {
    && o.Object?
    && (forall i :: 0 <= i < |o.children| ==>
          FindId(fields, o.children[i].id).Some? &&
          ChildConforms(o.children[i], FindId(fields, o.children[i].id).value))
    && (forall i :: 0 <= i < |fields| ==>
          CountAllowed(|Occurrences(o.children, fields[i].id)|, fields[i].repeated, fields[i].optional))
  }

  ghost predicate ChildConforms(c: Message, f: Field)
    decreases c, 2
  {
    match f.ty
    case ObjectType(fields) => Conforms(c, fields)
    case _ => c.Scalar? && Typed(c.value, f.ty)
  }

  /** Conformance seen along one leaf path only. */
  ghost predicate PathConforms(o: Message, path: seq<Step>, ty: FieldType)
    decreases |path|
  {
    path != [] ==>
      && o.Object?
      && var occ := Occurrences(o.children, path[0].id);
      && CountAllowed(|occ|, path[0].repeated, path[0].optional)
      && (forall i :: 0 <= i < |occ| ==>
            if |path| == 1 then occ[i].Scalar? && Typed(occ[i].value, ty)
            else PathConforms(occ[i], path[1..], ty))
  }

  // ---------------------------------------------------------------------------
  // Lemmas
  // ---------------------------------------------------------------------------

  lemma {:induction false} FindIdUnique(fields: seq<Field>, k: nat)
    requires k < |fields|
    requires forall i, j :: 0 <= i < j < |fields| ==> fields[i].id != fields[j].id
    ensures FindId(fields, fields[k].id) == Some(fields[k])
  {
    if k > 0 {
      FindIdUnique(fields[1..], k - 1);
    }
  }

  lemma {:induction false} FindNameUnique(fields: seq<Field>, k: nat)
    requires k < |fields|
    requires forall i, j :: 0 <= i < j < |fields| ==> fields[i].name != fields[j].name
    ensures FindName(fields, fields[k].name) == Some(fields[k])
  {
    if k > 0 {
      FindNameUnique(fields[1..], k - 1);
    }
  }

  /** Every leaf of a field list is a leaf of one of its fields. */
  lemma {:induction false} LeafField(prefix: string, fields: seq<Field>, l: Leaf) returns (k: nat)
    requires l in Leaves(prefix, fields)
    ensures k < |fields| && l in FieldLeaves(prefix, fields[k])
  {
    if l in FieldLeaves(prefix, fields[0]) {
      k := 0;
    } else {
      var k' := LeafField(prefix, fields[1..], l);
      k := k' + 1;
    }
  }

  lemma {:induction false} FieldLeavesIncluded(prefix: string, fields: seq<Field>, k: nat)
    requires k < |fields|
    ensures forall l :: l in FieldLeaves(prefix, fields[k]) ==> l in Leaves(prefix, fields)
  {
    if k > 0 {
      FieldLeavesIncluded(prefix, fields[1..], k - 1);
    }
  }

  /** A conforming message conforms along every leaf path of its schema. */
  lemma {:induction false} ConformsAlongPath(o: Message, prefix: string, fields: seq<Field>, l: Leaf)
    requires WellFormed(fields) && Conforms(o, fields) && l in Leaves(prefix, fields)
    ensures PathConforms(o, l.path, l.ty)
    decreases |l.path|
  {
    var k := LeafField(prefix, fields, l);
    var f := fields[k];
    FindIdUnique(fields, k);
    var occ := Occurrences(o.children, f.id);
    forall i | 0 <= i < |occ|
      ensures if |l.path| == 1 then occ[i].Scalar? && Typed(occ[i].value, l.ty)
              else PathConforms(occ[i], l.path[1..], l.ty)
    {
      assert occ[i] in o.children;
      var j :| 0 <= j < |o.children| && o.children[j] == occ[i];
      assert ChildConforms(occ[i], f);
      if f.ty.ObjectType? {
        var inner := Leaves(prefix + f.name + ".", f.ty.fields);
        var m :| 0 <= m < |inner| && l == inner[m].(path := [StepOf(f)] + inner[m].path);
        assert inner[m] in inner;
        assert l.path[1..] == inner[m].path;
        ConformsAlongPath(occ[i], prefix + f.name + ".", f.ty.fields, inner[m]);
      }
    }
  }

  /** Field by field: name, repetition and optionality as in the message schema, and the type
      that stores the field's. */
  lemma {:induction false} FromProtobufAt(fields: seq<Field>, i: nat)
    requires i < |fields|
    ensures var f, c := fields[i], FromProtobuf(fields)[i];
            c.name == f.name && c.repeated == f.repeated && c.optional == f.optional &&
            match f.ty
            case ObjectType(sub) => c.ctype == SubRecord(FromProtobuf(sub))
            case BoolType => c.ctype == BooleanColumn
            case UInt32Type => c.ctype == UnsignedIntColumn
            case UInt64Type => c.ctype == UnsignedIntColumn
            case StringType => c.ctype == StringColumn
            case DoubleType => c.ctype == FloatColumn
            case DateTimeType => c.ctype == DateTimeColumn
  {
    if i > 0 {
      FromProtobufAt(fields[1..], i - 1);
    }
  }

  /** The derived table schema has a column for every field and no other, at every depth. */
  lemma {:induction false} FromProtobufMatches(fields: seq<Field>)
    requires WellFormed(fields)
    ensures AllMatch(FromProtobuf(fields), fields) && |FromProtobuf(fields)| == |fields|
    ensures Covers(FromProtobuf(fields), fields)
    decreases fields
  {
    var columns := FromProtobuf(fields);
    forall i | 0 <= i < |columns|
      ensures FindName(fields, columns[i].name).Some? && Matches(columns[i], FindName(fields, columns[i].name).value)
    {
      FromProtobufAt(fields, i);
      FindNameUnique(fields, i);
      if fields[i].ty.ObjectType? {
        FromProtobufMatches(fields[i].ty.fields);
      }
    }
    forall j | 0 <= j < |fields|
      ensures columns[j].name == fields[j].name
        && (if fields[j].ty.ObjectType? then columns[j].ctype.SubRecord? && Covers(columns[j].ctype.columns, fields[j].ty.fields)
            else !columns[j].ctype.SubRecord?)
    {
      FromProtobufAt(fields, j);
      if fields[j].ty.ObjectType? {
        FromProtobufMatches(fields[j].ty.fields);
      }
    }
  }
}
