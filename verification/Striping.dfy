/** Record shredding: the writes that `RecordShredder` issues for one record, and the column
    that each leaf of the schema receives. */
module Striping {
  import opened Messages
  import opened Schemas
  import opened ColumnData

  /** One write to a named column. */
  datatype Write = Write(column: string, entry: Entry)

  // ---------------------------------------------------------------------------
  // The writes, in program order
  // ---------------------------------------------------------------------------

  function ShredNull(r: nat, d: nat, column: string, field: Column): seq<Write>
    decreases field, 1
  {
    match field.ctype
    case SubRecord(columns) => ShredNulls(r, d, column, columns)
    case _ => [Write(column, Entry(r, d, None))]
  }

  function ShredNulls(r: nat, d: nat, column: string, columns: seq<Column>): seq<Write>
    decreases columns, 0
  {
    if columns == [] then []
    else ShredNull(r, d, column + "." + columns[0].name, columns[0]) + ShredNulls(r, d, column, columns[1..])
  }

  /** The writes for one field of a conforming object. */
  function ShredField(r: nat, rmax: nat, d: nat, o: Message, schema: seq<Field>, prefix: string, field: Column): seq<Write>
    requires Conforms(o, schema) && WellFormed(schema) && AllMatch([field], schema)
    decreases field, 4, 0
  {
    assert Matches([field][0], FindName(schema, field.name).value);
    var f := FindName(schema, field.name).value;
    OccurrencesConform(o, schema, f);
    ShredFound(r, rmax, d, Occurrences(o.children, f.id), f, prefix, field)
  }

  function ShredFound(r: nat, rmax: nat, d: nat, occ: seq<Message>, f: Field, prefix: string, field: Column): seq<Write>
    requires Matches(field, f) && WellFormed([f]) && (forall i :: 0 <= i < |occ| ==> ChildConforms(occ[i], f))
    decreases field, 3, 0
  {
    if occ == [] then ShredNull(r, d, prefix + field.name, field)
    else ShredOccurrences(r, rmax + Bit(field.repeated), d + Bit(field.optional || field.repeated), occ, f, prefix, field)
  }

  /** The first occurrence keeps the repetition level of the parent, later ones get `rmax`. */
  function ShredOccurrences(r: nat, rmax: nat, d: nat, occ: seq<Message>, f: Field, prefix: string, field: Column): seq<Write>
    requires Matches(field, f) && WellFormed([f]) && (forall i :: 0 <= i < |occ| ==> ChildConforms(occ[i], f))
    decreases field, 2, |occ|
  {
    if occ == [] then []
    else ShredOccurrence(r, rmax, d, occ[0], f, prefix, field)
         + ShredOccurrences(rmax, rmax, d, occ[1..], f, prefix, field)
  }

  function ShredOccurrence(r: nat, rmax: nat, d: nat, x: Message, f: Field, prefix: string, field: Column): seq<Write>
    requires Matches(field, f) && WellFormed([f]) && ChildConforms(x, f)
    decreases field, 1, 0
  {
    match field.ctype
    case SubRecord(columns) =>
      assert WellFormed([f][0].ty.fields);
      ShredColumns(r, rmax, d, x, f.ty.fields, prefix + field.name + ".", columns)
    case _ => [Write(prefix + field.name, Entry(r, d, Some(ToDatum(x.value))))]
  }

  function ShredColumns(r: nat, rmax: nat, d: nat, o: Message, schema: seq<Field>, prefix: string, columns: seq<Column>): seq<Write>
    requires Conforms(o, schema) && WellFormed(schema) && AllMatch(columns, schema)
    decreases columns, 0, 0
  {
    if columns == [] then []
    else
      assert columns[0] == [columns[0]][0];
      ShredField(r, rmax, d, o, schema, prefix, columns[0])
      + ShredColumns(r, rmax, d, o, schema, prefix, columns[1..])
  }

  lemma OccurrencesConform(o: Message, schema: seq<Field>, f: Field)
    requires Conforms(o, schema) && WellFormed(schema) && f in schema
    ensures WellFormed([f])
    ensures var occ := Occurrences(o.children, f.id);
            && CountAllowed(|occ|, f.repeated, f.optional)
            && forall i :: 0 <= i < |occ| ==> ChildConforms(occ[i], f)
  {
    var k :| 0 <= k < |schema| && schema[k] == f;
    FindIdUnique(schema, k);
    var occ := Occurrences(o.children, f.id);
    forall i | 0 <= i < |occ| ensures ChildConforms(occ[i], f) {
      assert occ[i] in o.children;
    }
  }

  // ---------------------------------------------------------------------------
  // The column of one leaf
  // ---------------------------------------------------------------------------

  /** The entries of the column at `path`, for an object met at repetition level `r`, with
      `base` repeated fields and definition level `d` above it. */
  function Stripe(r: nat, base: nat, d: nat, o: Message, path: seq<Step>): seq<Entry>
    decreases |path|, 1, 0
  {
    if path == [] then []
    else
      var occ := Occurrences(Kids(o), path[0].id);
      if occ == [] then [Entry(r, d, None)]
      else StripeAll(r, base + Bit(path[0].repeated), d + Bit(path[0].repeated || path[0].optional), occ, path)
  }

  /** The occurrences of the first field of the path: the first one keeps the repetition level
      of the parent, later ones repeat at `base`. */
  function StripeAll(r: nat, base: nat, d: nat, occ: seq<Message>, path: seq<Step>): seq<Entry>
    requires path != []
    decreases |path|, 0, |occ|
  {
    if occ == [] then []
    else
      var first := if |path| > 1 then Stripe(r, base, d, occ[0], path[1..])
                   else [Entry(r, d, if occ[0].Scalar? then Some(ToDatum(occ[0].value)) else None)];
      first + StripeAll(base, base, d, occ[1..], path)
  }

  function StripeFound(r: nat, base: nat, d: nat, occ: seq<Message>, path: seq<Step>): seq<Entry>
    requires path != []
  {
    if occ == [] then [Entry(r, d, None)]
    else StripeAll(r, base + Bit(path[0].repeated), d + Bit(path[0].repeated || path[0].optional), occ, path)
  }

  function StripeOne(r: nat, base: nat, d: nat, x: Message, path: seq<Step>): seq<Entry>
    requires path != []
  {
    if |path| > 1 then Stripe(r, base, d, x, path[1..])
    else [Entry(r, d, if x.Scalar? then Some(ToDatum(x.value)) else None)]
  }

  ghost predicate ConformsBelow(x: Message, path: seq<Step>, ty: FieldType)
    requires path != []
  {
    if |path| == 1 then x.Scalar? && Typed(x.value, ty) else PathConforms(x, path[1..], ty)
  }

  ghost predicate AllConformBelow(occ: seq<Message>, path: seq<Step>, ty: FieldType)
    requires path != []
  {
    forall i :: 0 <= i < |occ| ==> ConformsBelow(occ[i], path, ty)
  }

  // ---------------------------------------------------------------------------
  // Level discipline
  // ---------------------------------------------------------------------------

  /** The first entry is at `r`, later ones strictly above `base`; definition levels lie between
      `d` and the maximum, which is reached exactly where there is a datum. */
  ghost predicate Levelled(es: seq<Entry>, r: nat, base: nat, rmax: nat, d: nat, dmax: nat, ty: FieldType) {
    && es != []
    && es[0].r == r
    && (forall i :: 1 <= i < |es| ==> base < es[i].r <= rmax)
    && (forall i :: 0 <= i < |es| ==> d <= es[i].d <= dmax && (es[i].datum.Some? <==> es[i].d == dmax))
    && (forall i :: 0 <= i < |es| && es[i].datum.Some? ==> (es[i].datum.value.StringDatum? <==> ty.StringType?))
  }

  lemma {:induction false} StripeLevels(r: nat, base: nat, d: nat, o: Message, path: seq<Step>, ty: FieldType)
    requires path != [] && PathConforms(o, path, ty)
    ensures Levelled(Stripe(r, base, d, o, path), r, base, base + RepLevel(path), d, d + DefLevel(path), ty)
    decreases |path|, 2, 0
  {
    hide *;
    var occ := Occurrences(Kids(o), path[0].id);
    LevelStep(path);
    ConformingOccurrences(o, path, ty);
    StripeCases(r, base, d, o, path);
    if occ == [] {
      LevelledNull(r, base, d, path, ty);
    } else {
      var base', d' := base + Bit(path[0].repeated), d + Bit(path[0].repeated || path[0].optional);
      StripeAllLevels(r, base', d', occ, path, ty);
      assert base' - Bit(path[0].repeated) == base;
      assert base' + RepLevel(path[1..]) == base + RepLevel(path);
      assert d' + DefLevel(path[1..]) == d + DefLevel(path);
      LevelledWeaken(Stripe(r, base, d, o, path), r, base, base, base + RepLevel(path), d', d + DefLevel(path), d, ty);
    }
  }

  lemma {:induction false} StripeAllLevels(r: nat, base: nat, d: nat, occ: seq<Message>, path: seq<Step>, ty: FieldType)
    requires path != [] && occ != [] && AllConformBelow(occ, path, ty)
    requires |occ| == 1 || path[0].repeated
    requires Bit(path[0].repeated) <= base && (path[0].repeated ==> Bit(path[0].repeated) == 1)
    ensures Levelled(StripeAll(r, base, d, occ, path), r, base - Bit(path[0].repeated), base + RepLevel(path[1..]),
                     d, d + DefLevel(path[1..]), ty)
    decreases |path|, 1, |occ|
  {
    hide *;
    var first, rest := StripeOne(r, base, d, occ[0], path), StripeAll(base, base, d, occ[1..], path);
    var rmax, dmax, low := base + RepLevel(path[1..]), d + DefLevel(path[1..]), base - Bit(path[0].repeated);
    StripeSplit(r, base, d, occ, path);
    AllConformSplit(occ, path, ty);
    StripeOneLevels(r, base, d, occ[0], path, ty);
    if |occ| > 1 {
      StripeAllLevels(base, base, d, occ[1..], path, ty);
      LevelledConcat(first, rest, r, base, low, base, rmax, d, dmax, ty);
    } else {
      LevelledWeaken(first, r, base, low, rmax, d, dmax, d, ty);
    }
  }

  lemma {:induction false} LevelStep(path: seq<Step>)
    requires path != []
    ensures RepLevel(path) == Bit(path[0].repeated) + RepLevel(path[1..])
    ensures DefLevel(path) == Bit(path[0].repeated || path[0].optional) + DefLevel(path[1..])
    ensures path[0].repeated ==> Bit(path[0].repeated) == 1
  {
  }

  lemma {:induction false} ConformingOccurrences(o: Message, path: seq<Step>, ty: FieldType)
    requires path != [] && PathConforms(o, path, ty)
    ensures var occ := Occurrences(Kids(o), path[0].id);
            && AllConformBelow(occ, path, ty)
            && (occ != [] ==> |occ| == 1 || path[0].repeated)
            && (occ == [] ==> path[0].repeated || path[0].optional)
  {
  }

  lemma {:induction false} StripeCases(r: nat, base: nat, d: nat, o: Message, path: seq<Step>)
    requires path != []
    ensures Stripe(r, base, d, o, path)
            == var occ := Occurrences(Kids(o), path[0].id);
               if occ == [] then [Entry(r, d, None)]
               else StripeAll(r, base + Bit(path[0].repeated), d + Bit(path[0].repeated || path[0].optional), occ, path)
  {
  }

  lemma {:induction false} StripeSplit(r: nat, base: nat, d: nat, occ: seq<Message>, path: seq<Step>)
    requires path != [] && occ != []
    ensures StripeAll(r, base, d, occ, path) == StripeOne(r, base, d, occ[0], path) + StripeAll(base, base, d, occ[1..], path)
    ensures |occ| == 1 ==> StripeAll(r, base, d, occ, path) == StripeOne(r, base, d, occ[0], path)
  {
    if |occ| == 1 {
      assert StripeAll(base, base, d, occ[1..], path) == [];
      var first := StripeOne(r, base, d, occ[0], path);
      assert first + [] == first;
    }
  }

  lemma {:induction false} AllConformSplit(occ: seq<Message>, path: seq<Step>, ty: FieldType)
    requires path != [] && occ != [] && AllConformBelow(occ, path, ty)
    ensures ConformsBelow(occ[0], path, ty) && AllConformBelow(occ[1..], path, ty)
  {
  }

  lemma {:induction false} LevelledNull(r: nat, base: nat, d: nat, path: seq<Step>, ty: FieldType)
    requires path != [] && (path[0].repeated || path[0].optional)
    ensures Levelled([Entry(r, d, None)], r, base, base + RepLevel(path), d, d + DefLevel(path), ty)
  {
  }

  lemma {:induction false} StripeOneLevels(r: nat, base: nat, d: nat, x: Message, path: seq<Step>, ty: FieldType)
    requires path != [] && ConformsBelow(x, path, ty)
    ensures Levelled(StripeOne(r, base, d, x, path), r, base, base + RepLevel(path[1..]), d, d + DefLevel(path[1..]), ty)
    decreases |path|, 0, 0
  {
    if |path| > 1 {
      StripeLevels(r, base, d, x, path[1..], ty);
    }
  }

  lemma {:induction false} LevelledWeaken(a: seq<Entry>, r: nat, base: nat, low: nat, rmax: nat, d: nat, dmax: nat, dlow: nat, ty: FieldType)
    requires Levelled(a, r, base, rmax, d, dmax, ty) && low <= base && dlow <= d
    ensures Levelled(a, r, low, rmax, dlow, dmax, ty)
  {
  }

  lemma {:induction false} LevelledConcat(a: seq<Entry>, b: seq<Entry>, r: nat, base: nat, low: nat, r': nat, rmax: nat, d: nat, dmax: nat, ty: FieldType)
    requires Levelled(a, r, base, rmax, d, dmax, ty) && Levelled(b, r', low, rmax, d, dmax, ty) && low <= base && low < r' <= rmax
    ensures Levelled(a + b, r, low, rmax, d, dmax, ty)
  {
    forall i | 0 <= i < |a + b| ensures (a + b)[i] == if i < |a| then a[i] else b[i - |a|] {
    }
  }

  /** The repetition level handed in only reaches the first entry. */
  lemma {:induction false} StripeFirst(r: nat, r': nat, base: nat, d: nat, o: Message, path: seq<Step>)
    requires path != []
    ensures SameButFirst(Stripe(r, base, d, o, path), Stripe(r', base, d, o, path), r')
    decreases |path|, 1
  {
    var occ := Occurrences(Kids(o), path[0].id);
    if occ != [] {
      StripeOneFirst(r, r', base + Bit(path[0].repeated), d + Bit(path[0].repeated || path[0].optional), occ[0], path);
    }
  }

  lemma {:induction false} StripeOneFirst(r: nat, r': nat, base: nat, d: nat, x: Message, path: seq<Step>)
    requires path != []
    ensures SameButFirst(StripeOne(r, base, d, x, path), StripeOne(r', base, d, x, path), r')
    decreases |path|, 0
  {
    if |path| > 1 {
      StripeFirst(r, r', base, d, x, path[1..]);
    }
  }

  ghost predicate SameButFirst(a: seq<Entry>, b: seq<Entry>, r: nat) {
    |a| == |b| > 0 && b[0] == a[0].(r := r) && forall i :: 1 <= i < |a| ==> a[i] == b[i]
  }

  // ---------------------------------------------------------------------------
  // Shredding, column by column
  // ---------------------------------------------------------------------------

  function EntriesFor(ws: seq<Write>, column: string): seq<Entry> {
    if ws == [] then []
    else if ws[0].column == column then [ws[0].entry] + EntriesFor(ws[1..], column)
    else EntriesFor(ws[1..], column)
  }

  lemma {:induction false} EntriesForConcat(a: seq<Write>, b: seq<Write>, column: string)
    ensures EntriesFor(a + b, column) == EntriesFor(a, column) + EntriesFor(b, column)
  {
    if a == [] {
      assert a + b == b;
    } else {
      assert (a + b)[0] == a[0] && (a + b)[1..] == a[1..] + b;
      EntriesForConcat(a[1..], b, column);
      var e, rest, last := a[0].entry, EntriesFor(a[1..], column), EntriesFor(b, column);
      assert [e] + (rest + last) == ([e] + rest) + last;
    }
  }

  /** The names of the flat columns below a table column. */
  function FlatNames(prefix: string, field: Column): set<string>
    decreases field, 1
  {
    match field.ctype
    case SubRecord(columns) => AllFlatNames(prefix + field.name + ".", columns)
    case _ => {prefix + field.name}
  }

  function AllFlatNames(prefix: string, columns: seq<Column>): set<string>
    decreases columns, 0
  {
    if columns == [] then {} else FlatNames(prefix, columns[0]) + AllFlatNames(prefix, columns[1..])
  }

  /** No two sibling columns share a name, at any depth. */
  ghost predicate DistinctColumns(columns: seq<Column>) {
    && (forall i, j :: 0 <= i < j < |columns| ==> columns[i].name != columns[j].name)
    && (forall i :: 0 <= i < |columns| && columns[i].ctype.SubRecord? ==> DistinctColumns(columns[i].ctype.columns))
  }

  ghost function Names(leaves: seq<Leaf>): set<string> {
    set l | l in leaves :: l.name
  }

  /** The flat names below a column are leaf names of the field it stands for. */
  lemma {:induction false} FlatNamesAreLeaves(prefix: string, field: Column, f: Field)
    requires Matches(field, f)
    ensures FlatNames(prefix, field) <= Names(FieldLeaves(prefix, f))
    decreases field, 1
  {
    if field.ctype.SubRecord? {
      var inner := Leaves(prefix + f.name + ".", f.ty.fields);
      AllFlatNamesAreLeaves(prefix + f.name + ".", field.ctype.columns, f.ty.fields);
      forall n | n in FlatNames(prefix, field) ensures n in Names(FieldLeaves(prefix, f)) {
        assert n in AllFlatNames(prefix + f.name + ".", field.ctype.columns);
        assert n in Names(inner);
        var l :| l in inner && l.name == n;
        var k :| 0 <= k < |inner| && inner[k] == l;
        assert FieldLeaves(prefix, f)[k] in FieldLeaves(prefix, f);
      }
    } else {
      assert FieldLeaves(prefix, f)[0] in FieldLeaves(prefix, f);
    }
  }

  lemma {:induction false} AllFlatNamesAreLeaves(prefix: string, columns: seq<Column>, schema: seq<Field>)
    requires AllMatch(columns, schema)
    ensures forall n :: n in AllFlatNames(prefix, columns) ==>
              n in Names(Leaves(prefix, schema)) &&
              exists i :: 0 <= i < |columns| && n in Names(FieldLeaves(prefix, FindName(schema, columns[i].name).value))
    decreases columns, 0
  {
    if columns != [] {
      var f := FindName(schema, columns[0].name).value;
      var k :| 0 <= k < |schema| && schema[k] == f;
      FlatNamesAreLeaves(prefix, columns[0], f);
      FieldLeavesIncluded(prefix, schema, k);
      AllFlatNamesAreLeaves(prefix, columns[1..], schema);
    }
  }

  lemma {:induction false} ShredNullNames(r: nat, d: nat, prefix: string, field: Column)
    ensures forall w :: w in ShredNull(r, d, prefix + field.name, field) ==> w.column in FlatNames(prefix, field)
    decreases field, 1
  {
    if field.ctype.SubRecord? {
      ShredNullsNames(r, d, prefix + field.name, field.ctype.columns);
    }
  }

  lemma {:induction false} ShredNullsNames(r: nat, d: nat, column: string, columns: seq<Column>)
    ensures forall w :: w in ShredNulls(r, d, column, columns) ==> w.column in AllFlatNames(column + ".", columns)
    decreases columns, 0
  {
    if columns != [] {
      ShredNullNames(r, d, column + ".", columns[0]);
      ShredNullsNames(r, d, column, columns[1..]);
    }
  }

  lemma {:induction false} ShredFieldNames(r: nat, rmax: nat, d: nat, o: Message, schema: seq<Field>, prefix: string, field: Column)
    requires Conforms(o, schema) && WellFormed(schema) && AllMatch([field], schema)
    ensures forall w :: w in ShredField(r, rmax, d, o, schema, prefix, field) ==> w.column in FlatNames(prefix, field)
    decreases field, 3, 0
  {
    assert Matches([field][0], FindName(schema, field.name).value);
    var f := FindName(schema, field.name).value;
    var occ := Occurrences(o.children, f.id);
    OccurrencesConform(o, schema, f);
    if occ == [] {
      ShredNullNames(r, d, prefix, field);
    } else {
      ShredOccurrencesNames(r, rmax + Bit(field.repeated), d + Bit(field.optional || field.repeated), occ, f, prefix, field);
    }
  }

  lemma {:induction false} ShredOccurrencesNames(r: nat, rmax: nat, d: nat, occ: seq<Message>, f: Field, prefix: string, field: Column)
    requires Matches(field, f) && WellFormed([f]) && (forall i :: 0 <= i < |occ| ==> ChildConforms(occ[i], f))
    ensures forall w :: w in ShredOccurrences(r, rmax, d, occ, f, prefix, field) ==> w.column in FlatNames(prefix, field)
    decreases field, 2, |occ|
  {
    if occ != [] {
      if field.ctype.SubRecord? {
        assert WellFormed([f][0].ty.fields);
        ShredColumnsNames(r, rmax, d, occ[0], f.ty.fields, prefix + field.name + ".", field.ctype.columns);
      }
      ShredOccurrencesNames(rmax, rmax, d, occ[1..], f, prefix, field);
    }
  }

  lemma {:induction false} ShredColumnsNames(r: nat, rmax: nat, d: nat, o: Message, schema: seq<Field>, prefix: string, columns: seq<Column>)
    requires Conforms(o, schema) && WellFormed(schema) && AllMatch(columns, schema)
    ensures forall w :: w in ShredColumns(r, rmax, d, o, schema, prefix, columns) ==> w.column in AllFlatNames(prefix, columns)
    decreases columns, 0, 0
  {
    if columns != [] {
      assert columns[0] == [columns[0]][0];
      ShredFieldNames(r, rmax, d, o, schema, prefix, columns[0]);
      ShredColumnsNames(r, rmax, d, o, schema, prefix, columns[1..]);
    }
  }

  lemma {:induction false} NoEntries(ws: seq<Write>, column: string)
    requires forall w :: w in ws ==> w.column != column
    ensures EntriesFor(ws, column) == []
  {
    if ws != [] {
      NoEntries(ws[1..], column);
    }
  }

  /** Leaves of different fields have different names. */
  lemma {:induction false} LeafNamesApart(prefix: string, schema: seq<Field>, i: nat, j: nat)
    requires i < j < |schema| && DistinctNames(Leaves(prefix, schema))
    ensures Names(FieldLeaves(prefix, schema[i])) !! Names(FieldLeaves(prefix, schema[j]))
    decreases |schema|
  {
    var all := Leaves(prefix, schema);
    var first, rest := FieldLeaves(prefix, schema[0]), Leaves(prefix, schema[1..]);
    assert forall k :: 0 <= k < |rest| ==> rest[k] == all[|first| + k];
    if i == 0 {
      FieldLeavesIncluded(prefix, schema[1..], j - 1);
      forall n | n in Names(first) ensures n !in Names(rest) {
        var a :| 0 <= a < |first| && first[a].name == n;
        assert all[a] == first[a];
      }
    } else {
      LeafNamesApart(prefix, schema[1..], i - 1, j - 1);
    }
  }

  lemma {:induction false} FieldLeavesDistinct(prefix: string, schema: seq<Field>, k: nat)
    requires k < |schema| && DistinctNames(Leaves(prefix, schema))
    ensures DistinctNames(FieldLeaves(prefix, schema[k]))
    ensures schema[k].ty.ObjectType? ==> DistinctNames(Leaves(prefix + schema[k].name + ".", schema[k].ty.fields))
  {
    var all := Leaves(prefix, schema);
    var first, rest := FieldLeaves(prefix, schema[0]), Leaves(prefix, schema[1..]);
    assert forall i :: 0 <= i < |rest| ==> rest[i] == all[|first| + i];
    assert forall i :: 0 <= i < |first| ==> first[i] == all[i];
    if k > 0 {
      FieldLeavesDistinct(prefix, schema[1..], k - 1);
    } else if schema[0].ty.ObjectType? {
      var inner := Leaves(prefix + schema[0].name + ".", schema[0].ty.fields);
      assert forall i :: 0 <= i < |inner| ==> inner[i].name == first[i].name;
    }
  }

  /** A missing field writes one null to each flat column below it. */
  lemma {:induction false} NullColumn(r: nat, d: nat, prefix: string, field: Column, f: Field, n: string)
    requires Matches(field, f) && DistinctColumns([field]) && DistinctNames(FieldLeaves(prefix, f)) && WellFormed([f])
    ensures EntriesFor(ShredNull(r, d, prefix + field.name, field), n)
            == if n in FlatNames(prefix, field) then [Entry(r, d, None)] else []
    decreases field, 1
  {
    if field.ctype.SubRecord? {
      var inner := Leaves(prefix + f.name + ".", f.ty.fields);
      assert forall i :: 0 <= i < |inner| ==> inner[i].name == FieldLeaves(prefix, f)[i].name;
      assert WellFormed([f][0].ty.fields) && DistinctColumns([field][0].ctype.columns);
      NullColumns(r, d, prefix + field.name, field.ctype.columns, f.ty.fields, n);
    }
  }

  lemma {:induction false} NullColumns(r: nat, d: nat, column: string, columns: seq<Column>, schema: seq<Field>, n: string)
    requires AllMatch(columns, schema) && DistinctColumns(columns) && WellFormed(schema) && DistinctNames(Leaves(column + ".", schema))
    ensures EntriesFor(ShredNulls(r, d, column, columns), n)
            == if n in AllFlatNames(column + ".", columns) then [Entry(r, d, None)] else []
    decreases columns, 0
  {
    if columns != [] {
      var c, rest := columns[0], columns[1..];
      var f := FindName(schema, c.name).value;
      var k :| 0 <= k < |schema| && schema[k] == f;
      FieldLeavesDistinct(column + ".", schema, k);
      assert DistinctColumns([c]);
      assert WellFormed([f]);
      NullColumn(r, d, column + ".", c, f, n);
      NullColumns(r, d, column, rest, schema, n);
      EntriesForConcat(ShredNull(r, d, column + "." + c.name, c), ShredNulls(r, d, column, rest), n);
      FlatNamesDisjoint(column + ".", columns, schema);
    }
  }

  /** The flat names of a column are not flat names of its later siblings. */
  lemma {:induction false} FlatNamesDisjoint(prefix: string, columns: seq<Column>, schema: seq<Field>)
    requires columns != [] && AllMatch(columns, schema) && DistinctColumns(columns) && DistinctNames(Leaves(prefix, schema))
    ensures FlatNames(prefix, columns[0]) !! AllFlatNames(prefix, columns[1..])
  {
    var rest := columns[1..];
    var f := FindName(schema, columns[0].name).value;
    FlatNamesAreLeaves(prefix, columns[0], f);
    AllFlatNamesAreLeaves(prefix, rest, schema);
    forall n | n in FlatNames(prefix, columns[0]) ensures n !in AllFlatNames(prefix, rest) {
      if n in AllFlatNames(prefix, rest) {
        var i :| 0 <= i < |rest| && n in Names(FieldLeaves(prefix, FindName(schema, rest[i].name).value));
        assert rest[i] == columns[i + 1];
        var g := FindName(schema, rest[i].name).value;
        var a :| 0 <= a < |schema| && schema[a] == f;
        var b :| 0 <= b < |schema| && schema[b] == g;
        if a < b {
          LeafNamesApart(prefix, schema, a, b);
        } else {
          LeafNamesApart(prefix, schema, b, a);
        }
      }
    }
  }

  /** Shredding one field appends to each flat column below it exactly that column's stripe. */
  lemma {:induction false} ShredFieldColumn(r: nat, rmax: nat, d: nat, o: Message, schema: seq<Field>, prefix: string, field: Column, f: Field, l: Leaf)
    requires Conforms(o, schema) && WellFormed(schema) && AllMatch([field], schema) && DistinctColumns([field])
    requires FindName(schema, field.name) == Some(f) && Matches(field, f)
    requires DistinctNames(Leaves(prefix, schema)) && l in FieldLeaves(prefix, f)
    ensures PathConforms(o, l.path, l.ty)
    ensures EntriesFor(ShredField(r, rmax, d, o, schema, prefix, field), l.name)
            == if l.name in FlatNames(prefix, field) then Stripe(r, rmax, d, o, l.path) else []
    decreases field, 4, 0
  {
    assert PathConforms(o, l.path, l.ty) && DistinctNames(FieldLeaves(prefix, f)) by {
      var k :| 0 <= k < |schema| && schema[k] == f;
      FieldLeavesIncluded(prefix, schema, k);
      FieldLeavesDistinct(prefix, schema, k);
      ConformsAlongPath(o, prefix, schema, l);
    }
    OccurrencesConform(o, schema, f);
    ShredFoundColumn(r, rmax, d, Occurrences(o.children, f.id), f, prefix, field, l);
  }

  lemma {:induction false} ShredFoundColumn(r: nat, rmax: nat, d: nat, occ: seq<Message>, f: Field, prefix: string, field: Column, l: Leaf)
    requires Matches(field, f) && WellFormed([f]) && (forall i :: 0 <= i < |occ| ==> ChildConforms(occ[i], f))
    requires DistinctColumns([field]) && DistinctNames(FieldLeaves(prefix, f)) && l in FieldLeaves(prefix, f)
    requires AllConformBelow(occ, l.path, l.ty)
    ensures EntriesFor(ShredFound(r, rmax, d, occ, f, prefix, field), l.name)
            == if l.name in FlatNames(prefix, field) then StripeFound(r, rmax, d, occ, l.path) else []
    decreases field, 3, 0
  {
    hide FlatNames, ShredNull, ShredOccurrences, StripeAll, EntriesFor, WellFormed, DistinctColumns, DistinctNames, AllConformBelow, ChildConforms;
    if occ == [] {
      NullColumn(r, d, prefix, field, f, l.name);
    } else {
      ShredOccurrencesColumn(r, rmax + Bit(field.repeated), d + Bit(field.optional || field.repeated), occ, f, prefix, field, l);
    }
  }

  lemma {:induction false} ShredOccurrencesColumn(r: nat, rmax: nat, d: nat, occ: seq<Message>, f: Field, prefix: string, field: Column, l: Leaf)
    requires Matches(field, f) && WellFormed([f]) && (forall i :: 0 <= i < |occ| ==> ChildConforms(occ[i], f))
    requires DistinctColumns([field]) && DistinctNames(FieldLeaves(prefix, f)) && l in FieldLeaves(prefix, f)
    requires AllConformBelow(occ, l.path, l.ty)
    ensures EntriesFor(ShredOccurrences(r, rmax, d, occ, f, prefix, field), l.name)
            == if l.name in FlatNames(prefix, field) then StripeAll(r, rmax, d, occ, l.path) else []
    decreases field, 2, |occ|
  {
    if occ != [] {
      ShredOccurrenceColumn(r, rmax, d, occ[0], f, prefix, field, l);
      ShredOccurrencesColumn(rmax, rmax, d, occ[1..], f, prefix, field, l);
      EntriesForConcat(ShredOccurrence(r, rmax, d, occ[0], f, prefix, field),
                       ShredOccurrences(rmax, rmax, d, occ[1..], f, prefix, field), l.name);
    }
  }

  lemma {:induction false} ShredOccurrenceColumn(r: nat, rmax: nat, d: nat, x: Message, f: Field, prefix: string, field: Column, l: Leaf)
    requires Matches(field, f) && WellFormed([f]) && ChildConforms(x, f)
    requires DistinctColumns([field]) && DistinctNames(FieldLeaves(prefix, f)) && l in FieldLeaves(prefix, f)
    requires ConformsBelow(x, l.path, l.ty)
    ensures EntriesFor(ShredOccurrence(r, rmax, d, x, f, prefix, field), l.name)
            == if l.name in FlatNames(prefix, field) then StripeOne(r, rmax, d, x, l.path) else []
    decreases field, 1, 0
  {
    hide ShredColumns, Conforms, PathConforms, AllMatch;
    if field.ctype.SubRecord? {
      var prefix' := prefix + field.name + ".";
      var inner := Leaves(prefix', f.ty.fields);
      assert forall i :: 0 <= i < |inner| ==> inner[i].name == FieldLeaves(prefix, f)[i].name;
      assert WellFormed([f][0].ty.fields) && DistinctColumns([field][0].ctype.columns);
      var m :| 0 <= m < |inner| && l == inner[m].(path := [StepOf(f)] + inner[m].path);
      assert inner[m] in inner;
      assert l.path[1..] == inner[m].path;
      ShredColumnsColumn(r, rmax, d, x, f.ty.fields, prefix', field.ctype.columns, inner[m]);
    }
  }

  /** Shredding a list of columns appends to each flat column exactly its stripe. */
  lemma {:induction false} ShredColumnsColumn(r: nat, rmax: nat, d: nat, o: Message, schema: seq<Field>, prefix: string, columns: seq<Column>, l: Leaf)
    requires Conforms(o, schema) && WellFormed(schema) && AllMatch(columns, schema) && DistinctColumns(columns)
    requires DistinctNames(Leaves(prefix, schema)) && l in Leaves(prefix, schema)
    ensures PathConforms(o, l.path, l.ty)
    ensures EntriesFor(ShredColumns(r, rmax, d, o, schema, prefix, columns), l.name)
            == if l.name in AllFlatNames(prefix, columns) then Stripe(r, rmax, d, o, l.path) else []
    decreases columns, 0, 0
  {
    ConformsAlongPath(o, prefix, schema, l);
    if columns != [] {
      var c, rest := columns[0], columns[1..];
      assert c == [c][0];
      var f := FindName(schema, c.name).value;
      var here := ShredField(r, rmax, d, o, schema, prefix, c);
      ShredColumnsColumn(r, rmax, d, o, schema, prefix, rest, l);
      EntriesForConcat(here, ShredColumns(r, rmax, d, o, schema, prefix, rest), l.name);
      FlatNamesDisjoint(prefix, columns, schema);
      if l in FieldLeaves(prefix, f) {
        ShredFieldColumn(r, rmax, d, o, schema, prefix, c, f, l);
      } else {
        OtherFieldApart(prefix, schema, f, l);
        FlatNamesAreLeaves(prefix, c, f);
        ShredFieldNames(r, rmax, d, o, schema, prefix, c);
        NoEntries(here, l.name);
      }
    }
  }

  lemma {:induction false} OtherFieldApart(prefix: string, schema: seq<Field>, f: Field, l: Leaf)
    requires f in schema && l in Leaves(prefix, schema) && l !in FieldLeaves(prefix, f) && DistinctNames(Leaves(prefix, schema))
    ensures l.name !in Names(FieldLeaves(prefix, f))
  {
    var a :| 0 <= a < |schema| && schema[a] == f;
    var b := LeafField(prefix, schema, l);
    if a < b {
      LeafNamesApart(prefix, schema, a, b);
    } else {
      LeafNamesApart(prefix, schema, b, a);
    }
  }
}
