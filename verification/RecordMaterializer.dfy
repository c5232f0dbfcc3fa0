/** `RecordMaterializer`: column cursors with a one-entry prefetch, the loop that loads one
    column of one record, and the assembly of records from columns in any order. */
module RecordMaterializer {
  import opened Messages
  import opened Schemas
  import opened ColumnData
  import opened Striping
  import opened Assembly
  import opened Projection
  import opened LeafPaths

  // ---------------------------------------------------------------------------
  // Inserting into the record
  // ---------------------------------------------------------------------------

  function Repeats(parents: seq<Parent>): nat {
    if parents == [] then 0 else Bit(parents[0].repeated) + Repeats(parents[1..])
  }

  /** Find the `target`-th child with an id, counting past the others. */
  method FindChild(children: seq<Message>, id: nat, target: nat) returns (found: bool, k: nat, count: nat)
    ensures found <==> target < Count(children, id)
    ensures found ==> k < |children| && k == Position(children, id, target)
    ensures !found ==> count == Count(children, id)
  {
    count := 0;
    for i := 0 to |children|
      invariant count == Count(children[..i], id) && count <= target
    {
      assert children[..i + 1] == children[..i] + [children[i]];
      OccurrencesConcat(children[..i], [children[i]], id);
      if children[i].id == id {
        if count == target {
          assert children == children[..i + 1] + children[i + 1..];
          OccurrencesConcat(children[..i + 1], children[i + 1..], id);
          PositionUnique(children, id, target, i);
          return true, i, count;
        }
        count := count + 1;
      }
    }
    assert children[..|children|] == children;
    return false, 0, count;
  }

  /** Append empty objects until the next one is the `target`-th. */
  method FillGap(children: seq<Message>, id: nat, count: nat, target: nat) returns (out: seq<Message>)
    requires count <= target
    ensures out == children + Gap(id, target - count)
  {
    out := children;
    for i := count to target
      invariant out == children + Gap(id, i - count)
    {
      assert Gap(id, i + 1 - count) == Gap(id, i - count) + [Object(id, [])];
      out := out + [Object(id, [])];
    }
  }

  method InsertValue(plan: Plan, idx: seq<nat>, record: Message, v: Datum) returns (out: Message)
    requires Fits(record, plan.parents) && Repeats(plan.parents) <= |idx| && Compatible(v, plan.ty)
    ensures forall r: nat, d: nat :: out == Insert(record, plan, idx, Entry(r, d, Some(v)))
    decreases |plan.parents|
  {
    if plan.parents == [] {
      return record.(children := record.children + [Scalar(plan.fieldId, FromDatum(v, plan.ty))]);
    }
    var p := plan.parents[0];
    var target, below := if p.repeated then idx[0] else 0, if p.repeated then idx[1..] else idx;
    FitsNth(record, plan.parents, target);
    var found, k, count := FindChild(record.children, p.id, target);
    if found {
      var child := InsertValue(Rest(plan), below, record.children[k], v);
      out := record.(children := record.children[k := child]);
    } else {
      var children := FillGap(record.children, p.id, count, target);
      var child := InsertValue(Rest(plan), below, Object(p.id, []), v);
      out := record.(children := children + [child]);
    }
  }

  method InsertNull(plan: Plan, idx: seq<nat>, record: Message, d: nat) returns (out: Message)
    requires Fits(record, plan.parents) && Repeats(plan.parents) <= |idx|
    ensures forall r: nat :: out == Insert(record, plan, idx, Entry(r, d, None))
    decreases |plan.parents|
  {
    if plan.parents == [] || plan.parents[0].dlevel > d {
      return record;
    }
    var p := plan.parents[0];
    var target, below := if p.repeated then idx[0] else 0, if p.repeated then idx[1..] else idx;
    FitsNth(record, plan.parents, target);
    var found, k, count := FindChild(record.children, p.id, target);
    if found {
      var child := InsertNull(Rest(plan), below, record.children[k], d);
      out := record.(children := record.children[k := child]);
    } else {
      var children := FillGap(record.children, p.id, count, target);
      var child := InsertNull(Rest(plan), below, Object(p.id, []), d);
      out := record.(children := children + [child]);
    }
  }

  // ---------------------------------------------------------------------------
  // Column cursors
  // ---------------------------------------------------------------------------

  /** The datum of an entry, if it has one, is the next of the column's data. */
  lemma {:induction false} NextDatum(es: seq<Entry>, k: nat)
    requires k < |es|
    ensures var n := |DataOf(es[..k])|;
      |DataOf(es[..k + 1])| == (if es[k].datum.Some? then n + 1 else n) <= |DataOf(es)|
      && (es[k].datum.Some? ==> DataOf(es)[n] == es[k].datum.value)
  {
    assert es == es[..k + 1] + es[k + 1..] && es[..k + 1] == es[..k] + [es[k]];
    DataOfConcat(es[..k + 1], es[k + 1..]);
    DataOfConcat(es[..k], [es[k]]);
  }

  class ColumnState {
    const content: Content
    const plan: Plan
    ghost const entries: seq<Entry>
    var valsRead: nat
    var dataRead: nat
    var r: nat
    var d: nat
    var pending: bool
    var defined: bool
    var value: Option<Datum>

    ghost predicate Valid()
      reads this
    {
      && |content.rlevels| == |content.dlevels| == |entries|
      && (forall k :: 0 <= k < |entries| ==> content.rlevels[k] == entries[k].r && content.dlevels[k] == entries[k].d)
      && Disciplined(entries, content.dmax) && content.data == DataOf(entries)
      && valsRead <= |entries| && dataRead == |DataOf(entries[..valsRead])|
      && (pending ==> valsRead > 0 && Entry(r, d, value) == entries[valsRead - 1] && defined == value.Some?)
    }

    /** Index of the next entry that has not been consumed: the prefetched one counts. */
    ghost function Head(): (k: int)
      reads this
    {
      if pending then valsRead - 1 else valsRead
    }

    constructor (content: Content, plan: Plan, ghost entries: seq<Entry>)
      requires |content.rlevels| == |content.dlevels| == |entries|
      requires forall k :: 0 <= k < |entries| ==> content.rlevels[k] == entries[k].r && content.dlevels[k] == entries[k].d
      requires Disciplined(entries, content.dmax) && content.data == DataOf(entries)
      ensures Valid() && Head() == 0
      ensures this.content == content && this.plan == plan && this.entries == entries
    {
      this.content, this.plan, this.entries := content, plan, entries;
      valsRead, dataRead, r, d := 0, 0, 0, 0;
      pending, defined, value := false, false, None;
    }

    predicate EofReached()
      reads this
    {
      valsRead >= |content.rlevels|
    }

    method FetchIfNotPending()
      requires Valid() && Head() < |entries|
      modifies this
      ensures Valid() && pending && Head() == old(Head())
      ensures Entry(r, d, value) == entries[Head()] && defined == value.Some?
    {
      if pending {
        return;
      }
      hide DataOf;
      NextDatum(entries, valsRead);
      r, d := content.rlevels[valsRead], content.dlevels[valsRead];
      valsRead := valsRead + 1;
      if d == content.dmax {
        value := Some(content.data[dataRead]);
        dataRead := dataRead + 1;
      } else {
        value := None;
      }
      defined := value.Some?;
      pending := true;
    }

    method Consume()
      requires Valid() && pending
      modifies this`pending
      ensures Valid() && !pending && Head() == old(Head()) + 1
    {
      pending := false;
    }

    /** Load this column's part of one record. */
    method LoadColumn(record: Message, ghost row: Message, ghost path: seq<Step>, ghost ty: FieldType) returns (out: Message)
      requires Valid() && AtRow(row, path, ty) && Fits(record, plan.parents)
      modifies this
      ensures Valid() && Head() == old(Head()) + |Stripe(0, 0, 0, row, path)|
      ensures out == Merge(record, row, Ids(path))
    {
      hide Stripe, PathConforms, Run, Track, Bump, Insert, Merge, Fits, RepLevel, PlanOf, Repeats, Disciplined, DataOf;
      ghost var es, start, zeros := Stripe(0, 0, 0, row, path), Head(), Zeros(content.rmax);
      LoadFacts(record, row, path, ty);
      var indexes: seq<nat> := Zeros(content.rmax);
      out := record;
      ghost var k := 0;
      assert es[..0] == [];
      while true
        invariant Valid() && Head() == start + k && 0 <= k < |es|
        invariant k > 0 ==> pending && r == es[k].r
        invariant |indexes| == content.rmax && indexes == Track(zeros, es[..k], 0)
        invariant out == Run(record, zeros, es[..k], plan, 0) && Fits(out, plan.parents)
        decreases |es| - k
      {
        FetchIfNotPending();
        assert Entry(r, d, value) == es[k];
        indexes := Advance(indexes, r);
        InsertFits(out, plan, indexes, es[k]);
        RunSnoc(record, zeros, es, k, plan);
        if defined {
          out := InsertValue(plan, indexes, out, value.value);
        } else {
          out := InsertNull(plan, indexes, out, d);
        }
        Consume();
        k := k + 1;
        if EofReached() {
          break;
        }
        FetchIfNotPending();
        if r == 0 {
          assert k == |es|;
          assert es[..k] == es;
          return;
        }
      }
      assert es[..k] == es;
    }

    /** Move past this column's part of one record. */
    method SkipColumn(ghost row: Message, ghost path: seq<Step>, ghost ty: FieldType)
      requires Valid() && AtRow(row, path, ty)
      modifies this
      ensures Valid() && Head() == old(Head()) + |Stripe(0, 0, 0, row, path)|
    {
      ghost var es, start := Stripe(0, 0, 0, row, path), Head();
      StripeLevels(0, 0, 0, row, path, ty);
      ghost var k := 0;
      while true
        invariant Valid() && Head() == start + k && 0 <= k < |es|
        decreases |es| - k
      {
        FetchIfNotPending();
        Consume();
        k := k + 1;
        if EofReached() {
          break;
        }
        FetchIfNotPending();
        if r == 0 {
          return;
        }
      }
    }

    /** The cursor stands at the first entry of `row`, and the next record starts after it. */
    ghost predicate AtRow(row: Message, path: seq<Step>, ty: FieldType)
      reads this
    {
      && path != [] && PathConforms(row, path, ty) && !ty.ObjectType?
      && plan == PlanOf(path, 0, ty) && content.rmax == RepLevel(path)
      && var es := Stripe(0, 0, 0, row, path);
      && 0 <= Head() && Head() + |es| <= |entries| && entries[Head()..Head() + |es|] == es
      && (Head() + |es| < |entries| ==> entries[Head() + |es|].r == 0)
    }
  }

  /** Advance the index vector in place: bump the level's index and clear the deeper ones. */
  method Advance(indexes: seq<nat>, r: nat) returns (out: seq<nat>)
    requires r <= |indexes|
    ensures out == Bump(indexes, r, 0)
  {
    out := indexes;
    if r > 0 {
      out := out[r - 1 := out[r - 1] + 1];
      for x := r to |out|
        invariant |out| == |indexes|
        invariant forall i :: 0 <= i < |out| ==>
                    out[i] == if i < r - 1 then indexes[i] else if i == r - 1 then indexes[i] + 1
                              else if i < x then 0 else indexes[i]
      {
        out := out[x := 0];
      }
    }
  }

  /** What loading relies on: the shape of the stripe and what running it amounts to. */
  lemma {:induction false} LoadFacts(record: Message, row: Message, path: seq<Step>, ty: FieldType)
    requires path != [] && PathConforms(row, path, ty) && !ty.ObjectType?
    ensures var es, plan, zeros := Stripe(0, 0, 0, row, path), PlanOf(path, 0, ty), Zeros(RepLevel(path));
            && es != [] && es[0].r == 0 && plan.ty == ty
            && (forall i :: 1 <= i < |es| ==> es[i].r > 0)
            && (forall i :: 0 <= i < |es| ==> es[i].r <= RepLevel(path) && (es[i].datum.Some? ==> Compatible(es[i].datum.value, ty)))
            && Repeats(plan.parents) <= RepLevel(path)
            && Track(zeros, [], 0) == zeros && Run(record, zeros, [], plan, 0) == record
            && Run(record, zeros, es, plan, 0) == Merge(record, row, Ids(path))
  {
    StripeLevels(0, 0, 0, row, path, ty);
    RepeatsWithin(path, 0);
    RunStripe(record, 0, 0, 0, row, path, ty);
  }

  lemma {:induction false} RepeatsWithin(path: seq<Step>, d: nat)
    requires path != []
    ensures Repeats(ParentsOf(path, d)) <= RepLevel(path)
    decreases |path|
  {
    if |path| > 1 {
      RepeatsWithin(path[1..], d + Bit(path[0].repeated || path[0].optional));
    }
  }

  lemma {:induction false} RunSnoc(node: Message, idx: seq<nat>, es: seq<Entry>, k: nat, plan: Plan)
    requires k < |es|
    ensures Track(idx, es[..k + 1], 0) == Bump(Track(idx, es[..k], 0), es[k].r, 0)
    ensures Run(node, idx, es[..k + 1], plan, 0)
            == Insert(Run(node, idx, es[..k], plan, 0), plan, Bump(Track(idx, es[..k], 0), es[k].r, 0), es[k])
  {
    assert es[..k + 1] == es[..k] + [es[k]];
    RunConcat(node, idx, es[..k], [es[k]], plan, 0);
    assert [es[k]][1..] == [];
  }

  // ---------------------------------------------------------------------------
  // Columns of many records
  // ---------------------------------------------------------------------------

  /** The column of one leaf over a list of records. */
  function RowsStripe(rows: seq<Message>, path: seq<Step>): seq<Entry> {
    if rows == [] then []
    else RowsStripe(rows[..|rows| - 1], path) + Stripe(0, 0, 0, rows[|rows| - 1], path)
  }

  lemma {:induction false} RowsStripePrefix(rows: seq<Message>, path: seq<Step>, k: nat)
    requires k <= |rows|
    ensures RowsStripe(rows[..k], path) <= RowsStripe(rows, path)
    decreases |rows|
  {
    if k == |rows| {
      assert rows[..k] == rows;
    } else {
      var front := rows[..|rows| - 1];
      assert front[..k] == rows[..k];
      RowsStripePrefix(front, path, k);
    }
  }

  /** Record `k` occupies the entries after those of the first `k` records, and the entry after
      it, if any, starts the next record. */
  lemma {:induction false} RowsStripeAt(rows: seq<Message>, path: seq<Step>, k: nat)
    requires k < |rows| && path != []
    ensures var all, start, es := RowsStripe(rows, path), |RowsStripe(rows[..k], path)|, Stripe(0, 0, 0, rows[k], path);
            && |RowsStripe(rows[..k + 1], path)| == start + |es| <= |all|
            && all[start..start + |es|] == es
            && (start + |es| < |all| ==> all[start + |es|].r == 0)
  {
    hide Stripe;
    var all, start, es := RowsStripe(rows, path), |RowsStripe(rows[..k], path)|, Stripe(0, 0, 0, rows[k], path);
    assert rows[..k + 1][..k] == rows[..k];
    assert RowsStripe(rows[..k + 1], path) == RowsStripe(rows[..k], path) + es;
    RowsStripePrefix(rows, path, k + 1);
    if k + 1 < |rows| {
      assert rows[..k + 2][..k + 1] == rows[..k + 1];
      assert RowsStripe(rows[..k + 2], path) == RowsStripe(rows[..k + 1], path) + Stripe(0, 0, 0, rows[k + 1], path);
      RowsStripePrefix(rows, path, k + 2);
      StripeFirst(0, 0, 0, 0, rows[k + 1], path);
      StripeStartsAt(0, 0, 0, rows[k + 1], path);
    } else {
      assert rows[..k + 1] == rows;
    }
  }

  lemma {:induction false} StripeStartsAt(r: nat, base: nat, d: nat, o: Message, path: seq<Step>)
    requires path != []
    ensures Stripe(r, base, d, o, path) != [] && Stripe(r, base, d, o, path)[0].r == r
    decreases |path|
  {
    hide Stripe, StripeAll;
    var occ := Occurrences(Kids(o), path[0].id);
    StripeCases(r, base, d, o, path);
    if occ != [] {
      var base', d' := base + Bit(path[0].repeated), d + Bit(path[0].repeated || path[0].optional);
      StripeSplit(r, base', d', occ, path);
      if |path| > 1 {
        StripeStartsAt(r, base', d', occ[0], path[1..]);
      }
    }
  }

  // ---------------------------------------------------------------------------
  // The materializer
  // ---------------------------------------------------------------------------

  datatype Call = Next | Skip

  class Materializer {
    var columns: map<string, ColumnState>
    ghost const schema: seq<Field>
    ghost const rows: seq<Message>
    ghost const leaves: map<string, Leaf>
    ghost var pos: nat

    /** Every column stands at the same record `pos`, whether or not its next entry has been
        prefetched. */
    ghost predicate Valid()
      reads this, columns.Values
    {
      && pos <= |rows| && Sound() && Distinct()
      && forall n :: n in columns ==> columns[n].Valid() && Placed(columns[n], leaves[n], pos)
    }

    /** The records conform, and every column belongs to a leaf of the schema. */
    ghost predicate Sound()
      reads this`columns
    {
      && WellFormed(schema) && DistinctNames(Leaves("", schema))
      && (forall k :: 0 <= k < |rows| ==> Conforms(rows[k], schema) && rows[k].id == 0)
      && columns.Keys == leaves.Keys
      && (forall n :: n in leaves ==> leaves[n] in Leaves("", schema) && leaves[n].name == n)
    }

    ghost predicate Distinct()
      reads this`columns
    {
      forall n, m :: n in columns && m in columns && n != m ==> columns[n] != columns[m]
    }

    ghost predicate Placed(c: ColumnState, l: Leaf, k: nat)
      requires k <= |rows|
      reads c
    {
      && l.path != [] && c.plan == PlanOf(l.path, 0, l.ty) && c.content.rmax == RepLevel(l.path)
      && c.entries == RowsStripe(rows, l.path) && c.Head() == |RowsStripe(rows[..k], l.path)|
    }

    /** The leaves being materialized, as id paths. */
    ghost function PathsFor(names: set<string>): set<seq<nat>> {
      set n | n in names && n in leaves :: Ids(leaves[n].path)
    }

    /** One cursor for every leaf that the table stores and the caller asked for (an empty
        choice asks for all). */
    constructor (schema: seq<Field>, reader: map<string, Content>, chosen: set<string>, ghost rows: seq<Message>)
      requires WellFormed(schema) && DistinctNames(Leaves("", schema))
      requires forall k :: 0 <= k < |rows| ==> Conforms(rows[k], schema) && rows[k].id == 0
      requires forall l :: l in Leaves("", schema) && l.name in reader ==>
                 reader[l.name] == AppendAll(Empty(RepLevel(l.path), DefLevel(l.path)), RowsStripe(rows, l.path))
      ensures Valid() && pos == 0 && this.rows == rows && this.schema == schema && fresh(columns.Values)
      ensures columns.Keys == set l | l in Leaves("", schema) && l.name in reader && (chosen == {} || l.name in chosen) :: l.name
    {
      hide WellFormed, DistinctNames, Conforms, Leaves, RowsStripe, PlanOf, RepLevel, DefLevel, AppendAll, ColumnState.Valid;
      var cols, ls := OpenCursors(schema, reader, chosen, rows);
      this.columns, this.leaves, this.schema, this.rows := cols, ls, schema, rows;
      this.pos := 0;
      new;
      assert rows[..0] == [];
      RowsStripeNone();
    }

    /** Read the next record: whatever order the columns come in, the result is the record
        projected onto the materialized leaves, up to interleaving of different ids. */
    method NextRecord() returns (record: Message)
      requires Valid() && pos < |rows|
      modifies this`pos, columns.Values
      ensures Valid() && pos == old(pos) + 1 && columns == old(columns)
      ensures Equivalent(record, Project(rows[old(pos)], PathsFor(columns.Keys)))
    {
      hide Sound, Distinct, Placed, ColumnState.Valid, Equivalent, Project, PathsFor;
      SameKeys();
      record := LoadAll(pos);
      pos := pos + 1;
    }

    /** Skip the next record in every column. */
    method SkipRecord()
      requires Valid() && pos < |rows|
      modifies this`pos, columns.Values
      ensures Valid() && pos == old(pos) + 1 && columns == old(columns)
    {
      hide Sound, Distinct, Placed, ColumnState.Valid;
      SameKeys();
      SkipAll(pos);
      pos := pos + 1;
    }

    lemma {:induction false} SameKeys()
      requires Sound()
      ensures columns.Keys == leaves.Keys
    {
    }

    ghost predicate AllPlaced(k: nat, ahead: set<string>)
      requires k < |rows| && columns.Keys <= leaves.Keys
      reads this`columns, columns.Values
    {
      forall n :: n in columns ==> columns[n].Valid() && Placed(columns[n], leaves[n], if n in ahead then k + 1 else k)
    }

    method LoadAll(ghost k: nat) returns (record: Message)
      requires Sound() && Distinct() && k < |rows| && AllPlaced(k, {})
      modifies columns.Values
      ensures AllPlaced(k, columns.Keys)
      ensures Equivalent(record, Project(rows[k], PathsFor(columns.Keys)))
    {
      hide Sound, Placed, Equivalent, Project, PathsFor, Merge, ColumnState.Valid;
      ghost var row := rows[k];
      record := Object(0, []);
      StartRecord(row);
      var todo := columns.Keys;
      ghost var done := {};
      while todo != {}
        invariant todo !! done && todo + done == columns.Keys && record.Object?
        invariant AllPlaced(k, done)
        invariant Equivalent(record, Project(row, PathsFor(done)))
        decreases todo
      {
        var name :| name in todo;
        NextColumn(record, row, name, done);
        record := LoadNext(name, record, k);
        todo := todo - {name};
        done := done + {name};
      }
      assert done == columns.Keys;
    }

    method SkipAll(ghost k: nat)
      requires Sound() && Distinct() && k < |rows| && AllPlaced(k, {})
      modifies columns.Values
      ensures AllPlaced(k, columns.Keys)
    {
      hide Sound, Placed, ColumnState.Valid;
      SameKeys();
      var todo := columns.Keys;
      ghost var done := {};
      while todo != {}
        invariant todo !! done && todo + done == columns.Keys
        invariant AllPlaced(k, done)
        decreases todo
      {
        var name :| name in todo;
        SkipNext(name, k);
        todo := todo - {name};
        done := done + {name};
      }
      assert done == columns.Keys;
    }

    method LoadNext(name: string, record: Message, ghost k: nat) returns (out: Message)
      requires Sound() && name in columns && k < |rows|
      requires columns[name].Valid() && Placed(columns[name], leaves[name], k) && Fits(record, ParentsOf(leaves[name].path, 0))
      modifies columns[name]
      ensures columns[name].Valid() && Placed(columns[name], leaves[name], k + 1)
      ensures out == Merge(record, rows[k], Ids(leaves[name].path)) && (record.Object? ==> out.Object?)
    {
      hide RowsStripe, Stripe, PathConforms, Fits, Conforms, WellFormed, Leaves, DistinctNames, RepLevel, ColumnState.Valid, ColumnState.AtRow, ParentsOf;
      PlacedAtRow(columns[name], leaves[name], k);
      out := columns[name].LoadColumn(record, rows[k], leaves[name].path, leaves[name].ty);
    }

    method SkipNext(name: string, ghost k: nat)
      requires Sound() && name in columns && k < |rows|
      requires columns[name].Valid() && Placed(columns[name], leaves[name], k)
      modifies columns[name]
      ensures columns[name].Valid() && Placed(columns[name], leaves[name], k + 1)
    {
      hide RowsStripe, Stripe, PathConforms, Conforms, WellFormed, Leaves, DistinctNames, RepLevel, ColumnState.Valid, ColumnState.AtRow;
      PlacedAtRow(columns[name], leaves[name], k);
      columns[name].SkipColumn(rows[k], leaves[name].path, leaves[name].ty);
    }

    lemma {:induction false} PlacedAtRow(c: ColumnState, l: Leaf, k: nat)
      requires Sound() && k < |rows| && l in Leaves("", schema) && Placed(c, l, k)
      ensures c.AtRow(rows[k], l.path, l.ty)
      ensures |RowsStripe(rows[..k + 1], l.path)| == |RowsStripe(rows[..k], l.path)| + |Stripe(0, 0, 0, rows[k], l.path)|
    {
      hide RowsStripe, Stripe, PathConforms, Conforms, WellFormed, DistinctNames, Leaves, PlanOf, RepLevel;
      LeafTyped(schema, l);
      ConformsAlongPath(rows[k], "", schema, l);
      RowsStripeAt(rows, l.path, k);
    }

    lemma {:induction false} StartRecord(row: Message)
      requires Sound() && row in rows
      ensures Equivalent(Object(0, []), Project(row, PathsFor({})))
      ensures columns.Keys == leaves.Keys
    {
      var k :| 0 <= k < |rows| && rows[k] == row;
      assert PathsFor({}) == {};
      assert Conforms(row, schema);
      ProjectNothing(row.children);
      EquivalentReflexive(Object(0, []));
    }

    /** One more column may be loaded, and loading it adds its leaf to the projection. */
    lemma {:induction false} NextColumn(record: Message, row: Message, name: string, done: set<string>)
      requires Sound() && row in rows && name in columns && name !in done && done <= columns.Keys
      requires record.Object? && Equivalent(record, Project(row, PathsFor(done)))
      ensures name in leaves && Fits(record, ParentsOf(leaves[name].path, 0))
      ensures Equivalent(Merge(record, row, Ids(leaves[name].path)), Project(row, PathsFor(done + {name})))
    {
      hide Conforms, WellFormed, Leaves, Project, Equivalent, Merge, Fits, PathConforms, PrefixFree, Reaches, Ids;
      var k :| 0 <= k < |rows| && rows[k] == row;
      assert Conforms(row, schema);
      var l, paths := leaves[name], PathsFor(done);
      var p := Ids(l.path);
      ConformsAlongPath(row, "", schema, l);
      LeafIsPath("", schema, l);
      forall q | q in paths ensures IsLeafPath(schema, q) && q != p {
        var n :| n in done && n in leaves && Ids(leaves[n].path) == q;
        LeafIsPath("", schema, leaves[n]);
        if q == p {
          LeafByPath("", schema, l, leaves[n]);
        }
      }
      LeafPathsPrefixFree(schema, paths + {p});
      ConformingReaches(row, l.path, l.ty);
      ProjectionFits(record, row, schema, paths, l.path, 0, l.ty);
      MergeProjects(record, row, paths, p);
      assert PathsFor(done + {name}) == paths + {p};
    }
  }

  /** A cursor at the first entry of the column of one leaf. */
  method OpenCursor(schema: seq<Field>, content: Content, plan: Plan, ghost rows: seq<Message>, ghost l: Leaf) returns (c: ColumnState)
    requires WellFormed(schema) && l in Leaves("", schema) && forall k :: 0 <= k < |rows| ==> Conforms(rows[k], schema)
    requires content == AppendAll(Empty(RepLevel(l.path), DefLevel(l.path)), RowsStripe(rows, l.path))
    requires l.path != [] && plan == PlanOf(l.path, 0, l.ty)
    ensures fresh(c) && c.Valid() && Fresh(c, l, rows)
  {
    hide WellFormed, Conforms, Leaves, RowsStripe, PlanOf, RepLevel, DefLevel, AppendAll, Disciplined, DataOf, ColumnState.Valid;
    ColumnBuilt(schema, rows, l);
    c := new ColumnState(content, plan, RowsStripe(rows, l.path));
  }

  method OpenCursors(schema: seq<Field>, reader: map<string, Content>, chosen: set<string>, ghost rows: seq<Message>)
    returns (cols: map<string, ColumnState>, ghost ls: map<string, Leaf>)
    requires WellFormed(schema) && forall k :: 0 <= k < |rows| ==> Conforms(rows[k], schema)
    requires forall l :: l in Leaves("", schema) && l.name in reader ==>
               reader[l.name] == AppendAll(Empty(RepLevel(l.path), DefLevel(l.path)), RowsStripe(rows, l.path))
    ensures cols.Keys == ls.Keys && fresh(cols.Values)
    ensures cols.Keys == set l | l in Leaves("", schema) && l.name in reader && (chosen == {} || l.name in chosen) :: l.name
    ensures forall n :: n in ls ==> ls[n] in Leaves("", schema) && ls[n].name == n
    ensures forall n, m :: n in cols && m in cols && n != m ==> cols[n] != cols[m]
    ensures forall n :: n in cols ==> cols[n].Valid() && Fresh(cols[n], ls[n], rows)
  {
    hide WellFormed, Conforms, Leaves, CreateAllColumns, RowsStripe, PlanOf, RepLevel, DefLevel, AppendAll, Disciplined, DataOf, ColumnState.Valid;
    var plans := CreateAllColumns("", 0, [], schema);
    ghost var all := Leaves("", schema);
    LeavesPlanned(schema);
    cols, ls := map[], map[];
    for i := 0 to |plans|
      invariant cols.Keys == ls.Keys && forall n :: n in cols ==> fresh(cols[n])
      invariant forall k :: 0 <= k < i && all[k].name in reader && (chosen == {} || all[k].name in chosen) ==> all[k].name in ls
      invariant forall n :: n in ls ==> ls[n] in all && ls[n].name == n && n in reader && (chosen == {} || n in chosen)
      invariant forall n, m :: n in cols && m in cols && n != m ==> cols[n] != cols[m]
      invariant forall n :: n in cols ==> cols[n].Valid() && Fresh(cols[n], ls[n], rows)
    {
      var name := plans[i].name;
      ghost var l := all[i];
      assert l in all && name == l.name;
      if name in reader && (chosen == {} || name in chosen) {
        var c := OpenCursor(schema, reader[name], plans[i].plan, rows, l);
        cols := cols[name := c];
        ls := ls[name := l];
      }
    }
  }

  ghost predicate Fresh(c: ColumnState, l: Leaf, rows: seq<Message>)
    reads c
  {
    && l.path != [] && c.plan == PlanOf(l.path, 0, l.ty) && c.content.rmax == RepLevel(l.path)
    && c.entries == RowsStripe(rows, l.path) && c.Head() == 0
  }

  lemma {:induction false} LeafTyped(schema: seq<Field>, l: Leaf)
    requires l in Leaves("", schema)
    ensures l.path != [] && !l.ty.ObjectType?
  {
  }

  lemma {:induction false} LeavesPlanned(schema: seq<Field>)
    ensures var plans, all := CreateAllColumns("", 0, [], schema), Leaves("", schema);
            |plans| == |all| && forall i :: 0 <= i < |all| ==>
              all[i].path != [] && plans[i] == NamedPlan(all[i].name, PlanOf(all[i].path, 0, all[i].ty))
  {
    CreatedAllColumns("", 0, [], schema);
    var all := Leaves("", schema);
    forall i | 0 <= i < |all| ensures PlanAt([], 0, all[i]) == NamedPlan(all[i].name, PlanOf(all[i].path, 0, all[i].ty)) {
      assert [] + ParentsOf(all[i].path, 0) == ParentsOf(all[i].path, 0);
    }
  }

  lemma {:induction false} RowsStripeNone()
    ensures forall path :: RowsStripe([], path) == []
  {
  }

  lemma {:induction false} ColumnBuilt(schema: seq<Field>, rows: seq<Message>, l: Leaf)
    requires WellFormed(schema) && l in Leaves("", schema) && forall k :: 0 <= k < |rows| ==> Conforms(rows[k], schema)
    ensures var c, es := AppendAll(Empty(RepLevel(l.path), DefLevel(l.path)), RowsStripe(rows, l.path)), RowsStripe(rows, l.path);
            && |c.rlevels| == |c.dlevels| == |es| && c.rmax == RepLevel(l.path)
            && (forall k :: 0 <= k < |es| ==> c.rlevels[k] == es[k].r && c.dlevels[k] == es[k].d)
            && Disciplined(es, c.dmax) && c.data == DataOf(es)
  {
    AppendAllFields(Empty(RepLevel(l.path), DefLevel(l.path)), RowsStripe(rows, l.path));
    RowsDisciplined(schema, rows, l);
  }

  lemma {:induction false} RowsDisciplined(schema: seq<Field>, rows: seq<Message>, l: Leaf)
    requires WellFormed(schema) && l in Leaves("", schema) && forall k :: 0 <= k < |rows| ==> Conforms(rows[k], schema)
    ensures Disciplined(RowsStripe(rows, l.path), DefLevel(l.path))
    decreases |rows|
  {
    if rows != [] {
      RowsDisciplined(schema, rows[..|rows| - 1], l);
      RecordLevels(schema, rows[|rows| - 1], l);
      DisciplinedConcat(RowsStripe(rows[..|rows| - 1], l.path), Stripe(0, 0, 0, rows[|rows| - 1], l.path), DefLevel(l.path));
    }
  }

  /** Level discipline of one record in one column: exactly the first entry is at repetition
      level zero, no level exceeds the column's maximum, and a datum is present exactly at the
      largest definition level. */
  lemma {:induction false} RecordLevels(schema: seq<Field>, row: Message, l: Leaf)
    requires WellFormed(schema) && l in Leaves("", schema) && Conforms(row, schema)
    ensures var es := Stripe(0, 0, 0, row, l.path);
            && es != [] && (forall i :: 0 <= i < |es| ==> (es[i].r == 0 <==> i == 0))
            && (forall i :: 0 <= i < |es| ==> es[i].r <= RepLevel(l.path) && es[i].d <= DefLevel(l.path))
            && Disciplined(es, DefLevel(l.path))
  {
    ConformsAlongPath(row, "", schema, l);
    StripeLevels(0, 0, 0, row, l.path, l.ty);
  }

  function CountZero(es: seq<Entry>): nat {
    if es == [] then 0 else CountZero(es[..|es| - 1]) + (if es[|es| - 1].r == 0 then 1 else 0)
  }

  /** Every record contributes exactly one entry at repetition level zero to every column, so
      their number is the number of rows. */
  lemma {:induction false} OneZeroPerRow(schema: seq<Field>, rows: seq<Message>, l: Leaf)
    requires WellFormed(schema) && l in Leaves("", schema) && forall k :: 0 <= k < |rows| ==> Conforms(rows[k], schema)
    ensures CountZero(RowsStripe(rows, l.path)) == |rows|
    decreases |rows|
  {
    if rows != [] {
      var front, es := RowsStripe(rows[..|rows| - 1], l.path), Stripe(0, 0, 0, rows[|rows| - 1], l.path);
      OneZeroPerRow(schema, rows[..|rows| - 1], l);
      RecordLevels(schema, rows[|rows| - 1], l);
      CountZeroAfter(front, es, |es|);
      assert es[..|es|] == es;
    }
  }

  lemma {:induction false} CountZeroAfter(front: seq<Entry>, es: seq<Entry>, k: nat)
    requires 0 < k <= |es| && forall i :: 0 <= i < |es| ==> (es[i].r == 0 <==> i == 0)
    ensures CountZero(front + es[..k]) == CountZero(front) + 1
    decreases k
  {
    var all := front + es[..k];
    assert all[|all| - 1] == es[k - 1];
    if k == 1 {
      assert all[..|all| - 1] == front;
    } else {
      assert all[..|all| - 1] == front + es[..k - 1];
      CountZeroAfter(front, es, k - 1);
    }
  }

  lemma {:induction false} DisciplinedConcat(a: seq<Entry>, b: seq<Entry>, dmax: nat)
    requires Disciplined(a, dmax) && Disciplined(b, dmax)
    ensures Disciplined(a + b, dmax)
  {
  }
}
