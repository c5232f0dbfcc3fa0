/** The values at the end of a path, in document order: what survives a projection, what two
    equivalent records share, and so what reading a table returns, leaf by leaf. */
module LeafValues {
  import opened Messages
  import opened Schemas
  import opened Assembly
  import opened Projection
  import opened LeafPaths
  import opened RoundTrip

  /** The scalars that a path of field ids reaches. */
  function ValuesAt(o: Message, ids: seq<nat>): seq<Value>
    decreases |ids|, 0, 0
  {
    if ids == [] then (if o.Scalar? then [o.value] else [])
    else AllValuesAt(Occurrences(Kids(o), ids[0]), ids[1..])
  }

  function AllValuesAt(os: seq<Message>, ids: seq<nat>): seq<Value>
    decreases |ids|, 1, |os|
  {
    if os == [] then [] else ValuesAt(os[0], ids) + AllValuesAt(os[1..], ids)
  }

  // ---------------------------------------------------------------------------
  // Equivalent records
  // ---------------------------------------------------------------------------

  lemma {:induction false} SameValues(a: seq<Message>, b: seq<Message>, ids: seq<nat>)
    requires |a| == |b| && forall i :: 0 <= i < |a| ==> ValuesAt(a[i], ids) == ValuesAt(b[i], ids)
    ensures AllValuesAt(a, ids) == AllValuesAt(b, ids)
    decreases |a|
  {
    hide ValuesAt;
    if a != [] {
      assert ValuesAt(a[0], ids) == ValuesAt(b[0], ids);
      assert forall i :: 0 <= i < |a[1..]| ==> a[1..][i] == a[i + 1] && b[1..][i] == b[i + 1];
      SameValues(a[1..], b[1..], ids);
    }
  }

  /** Equivalent records have the same values at every path. */
  lemma {:induction false} EquivalentValues(a: Message, b: Message, ids: seq<nat>)
    requires Equivalent(a, b)
    ensures ValuesAt(a, ids) == ValuesAt(b, ids)
    decreases |ids|
  {
    if ids != [] && a.Object? {
      var id := ids[0];
      var x, y := Occurrences(a.children, id), Occurrences(b.children, id);
      assert Count(a.children, id) == Count(b.children, id);
      forall i | 0 <= i < |x| ensures ValuesAt(x[i], ids[1..]) == ValuesAt(y[i], ids[1..]) {
        EquivalentValues(x[i], y[i], ids[1..]);
      }
      SameValues(x, y, ids[1..]);
    }
  }

  /** The same shape: as many children everywhere, with the same ids in the same order. */
  ghost predicate SameShape(a: Message, b: Message)
    decreases a
  {
    a.Object? ==>
      && b.Object? && |a.children| == |b.children|
      && forall i :: 0 <= i < |a.children| ==> a.children[i].id == b.children[i].id && SameShape(a.children[i], b.children[i])
  }

  lemma {:induction false} OccurrenceOf(ms: seq<Message>, i: nat)
    requires i < |ms|
    ensures var n := Count(ms[..i], ms[i].id); n < Count(ms, ms[i].id) && Occurrences(ms, ms[i].id)[n] == ms[i]
    decreases i
  {
    if i > 0 {
      OccurrenceOf(ms[1..], i - 1);
      assert ms[..i][1..] == ms[1..][..i - 1];
    }
  }

  lemma {:induction false} SameCount(a: seq<Message>, b: seq<Message>, id: nat)
    requires |a| == |b| && forall i :: 0 <= i < |a| ==> a[i].id == b[i].id
    ensures Count(a, id) == Count(b, id)
    decreases |a|
  {
    if a != [] {
      SameCount(a[1..], b[1..], id);
    }
  }

  /** Equivalence ignores the interleaving of ids and nothing else: equivalent records of the same
      shape are equal. */
  lemma {:induction false} EquivalentIs(a: Message, b: Message)
    requires Equivalent(a, b) && SameShape(a, b)
    ensures a == b
    decreases a
  {
    if a.Object? {
      forall i | 0 <= i < |a.children| ensures a.children[i] == b.children[i] {
        var id := a.children[i].id;
        var n := Count(a.children[..i], id);
        OccurrenceOf(a.children, i);
        OccurrenceOf(b.children, i);
        SameCount(a.children[..i], b.children[..i], id);
        assert Equivalent(Occurrences(a.children, id)[n], Occurrences(b.children, id)[n]);
        EquivalentIs(a.children[i], b.children[i]);
      }
      assert a.children == b.children;
    }
  }

  // ---------------------------------------------------------------------------
  // Projections
  // ---------------------------------------------------------------------------

  lemma {:induction false} ProjectChildren(o: Message, paths: set<seq<nat>>, id: nat)
    ensures Occurrences(Kids(Project(o, paths)), id)
         == var occ := Occurrences(Kids(o), id);
            if [id] in paths then occ
            else if Tails(paths, id) == {} then []
            else ProjectEach(occ, Tails(paths, id))
  {
    if o.Object? {
      ProjectOccurrences(o.children, paths, id);
    } else if [id] !in paths && Tails(paths, id) != {} {
      assert ProjectEach([], Tails(paths, id)) == [];
    }
  }

  /** A projection keeps all values of a chosen path. */
  lemma {:induction false} ProjectKeeps(o: Message, paths: set<seq<nat>>, ids: seq<nat>)
    requires ids != [] && ids in paths
    ensures ValuesAt(Project(o, paths), ids) == ValuesAt(o, ids)
    decreases |ids|
  {
    var id, rest, occ := ids[0], ids[1..], Occurrences(Kids(o), ids[0]);
    ProjectChildren(o, paths, id);
    if [id] !in paths {
      assert ids == [id] + rest && (rest == [] ==> ids == [id]);
      assert rest in Tails(paths, id);
      var each := ProjectEach(occ, Tails(paths, id));
      forall i | 0 <= i < |occ| ensures ValuesAt(each[i], rest) == ValuesAt(occ[i], rest) {
        ProjectKeeps(occ[i], Tails(paths, id), rest);
      }
      SameValues(each, occ, rest);
    }
  }

  ghost predicate Apart(paths: set<seq<nat>>, ids: seq<nat>) {
    forall p :: p in paths ==> !(p <= ids) && !(ids <= p)
  }

  lemma {:induction false} NoValues(os: seq<Message>, ids: seq<nat>)
    requires forall i :: 0 <= i < |os| ==> ValuesAt(os[i], ids) == []
    ensures AllValuesAt(os, ids) == []
    decreases |os|
  {
    hide ValuesAt;
    if os != [] {
      assert ValuesAt(os[0], ids) == [];
      assert forall i :: 0 <= i < |os[1..]| ==> os[1..][i] == os[i + 1];
      NoValues(os[1..], ids);
    }
  }

  /** A projection has no values at a path that no chosen path meets. */
  lemma {:induction false} ProjectDrops(o: Message, paths: set<seq<nat>>, ids: seq<nat>)
    requires ids != [] && Apart(paths, ids)
    ensures ValuesAt(Project(o, paths), ids) == []
    decreases |ids|
  {
    var id, rest, occ := ids[0], ids[1..], Occurrences(Kids(o), ids[0]);
    ProjectChildren(o, paths, id);
    assert ids == [id] + rest && [id] <= ids;
    if Tails(paths, id) != {} {
      forall p | p in Tails(paths, id) ensures !(p <= rest) && !(rest <= p) {
        TailsApart(paths, id, p, rest);
      }
      var q :| q in Tails(paths, id);
      assert rest != [] by {
        assert !(rest <= q);
      }
      var each := ProjectEach(occ, Tails(paths, id));
      forall i | 0 <= i < |each| ensures ValuesAt(each[i], rest) == [] {
        ProjectDrops(occ[i], Tails(paths, id), rest);
      }
      NoValues(each, rest);
    }
  }

  lemma {:induction false} TailsApart(paths: set<seq<nat>>, id: nat, p: seq<nat>, rest: seq<nat>)
    requires Apart(paths, [id] + rest) && p in Tails(paths, id)
    ensures !(p <= rest) && !(rest <= p)
  {
    assert [id] + p in paths;
    assert p <= rest ==> [id] + p <= [id] + rest;
    assert rest <= p ==> [id] + rest <= [id] + p;
  }

  // ---------------------------------------------------------------------------
  // What reading a table returns
  // ---------------------------------------------------------------------------

  /** A record read back with a choice of columns: at every stored leaf that was chosen it has the
      values of the record stored, in document order, and at every other leaf none. */
  lemma {:induction false} ReadValues(schema: seq<Field>, stored: set<string>, chosen: set<string>, row: Message, out: Message, l: Leaf)
    requires WellFormed(schema) && DistinctNames(Leaves("", schema)) && l in Leaves("", schema)
    requires Equivalent(out, Project(row, ChosenPaths(schema, stored, chosen)))
    ensures ValuesAt(out, Ids(l.path))
         == if l.name in stored && (chosen == {} || l.name in chosen) then ValuesAt(row, Ids(l.path)) else []
  {
    hide Equivalent, Project, ValuesAt, WellFormed;
    var paths, ids := ChosenPaths(schema, stored, chosen), Ids(l.path);
    EquivalentValues(out, Project(row, paths), ids);
    if l.name in stored && (chosen == {} || l.name in chosen) {
      ProjectKeeps(row, paths, ids);
    } else {
      forall p | p in paths ensures !(p <= ids) && !(ids <= p) {
        var m :| m in Leaves("", schema) && m.name in stored && (chosen == {} || m.name in chosen) && Ids(m.path) == p;
        LeavesApart(schema, l, m);
      }
      ProjectDrops(row, paths, ids);
    }
  }

  lemma {:induction false} LeavesApart(schema: seq<Field>, l: Leaf, m: Leaf)
    requires WellFormed(schema) && l in Leaves("", schema) && m in Leaves("", schema) && l != m
    ensures !(Ids(m.path) <= Ids(l.path)) && !(Ids(l.path) <= Ids(m.path))
  {
    hide WellFormed, Leaves;
    LeafIsPath("", schema, l);
    LeafIsPath("", schema, m);
    if Ids(m.path) <= Ids(l.path) {
      LeafPathPrefix(schema, Ids(m.path), Ids(l.path));
      LeafByPath("", schema, l, m);
    }
    if Ids(l.path) <= Ids(m.path) {
      LeafPathPrefix(schema, Ids(l.path), Ids(m.path));
      LeafByPath("", schema, l, m);
    }
  }
}
