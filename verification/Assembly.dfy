/** Record assembly: what inserting the entries of one column into a partially built record
    does, entry by entry (`Insert`, `Run`) and as a whole (`Merge`). */
module Assembly {
  import opened Messages
  import opened Schemas
  import opened ColumnData
  import opened Striping

  /** An ancestor of a leaf, as `createColumns` records it. */
  datatype Parent = Parent(id: nat, repeated: bool, dlevel: nat)

  /** How to place the entries of one column: the ancestors, the field id and the field type. */
  datatype Plan = Plan(parents: seq<Parent>, fieldId: nat, ty: FieldType)

  // ---------------------------------------------------------------------------
  // Addressing the n-th child with a given id
  // ---------------------------------------------------------------------------

  function Count(ms: seq<Message>, id: nat): nat {
    |Occurrences(ms, id)|
  }

  /** Position of the n-th child with the id. */
  function Position(ms: seq<Message>, id: nat, n: nat): (k: nat)
    requires n < Count(ms, id)
    ensures k < |ms| && ms[k] == Occurrences(ms, id)[n]
  {
    if ms[0].id != id then Position(ms[1..], id, n) + 1
    else if n == 0 then 0
    else Position(ms[1..], id, n - 1) + 1
  }

  lemma {:induction false} PositionCounts(ms: seq<Message>, id: nat, n: nat)
    requires n < Count(ms, id)
    ensures Count(ms[..Position(ms, id, n)], id) == n
  {
    var k := Position(ms, id, n);
    if k > 0 {
      assert ms[..k][1..] == ms[1..][..k - 1];
      PositionCounts(ms[1..], id, if ms[0].id == id then n - 1 else n);
    }
  }

  /** The n-th child with the id, or a new empty object. */
  function Nth(ms: seq<Message>, id: nat, n: nat): Message {
    if n < Count(ms, id) then ms[Position(ms, id, n)] else Object(id, [])
  }

  function Gap(id: nat, n: nat): (r: seq<Message>)
    ensures |r| == n && forall i :: 0 <= i < n ==> r[i] == Object(id, [])
  {
    seq(n, _ => Object(id, []))
  }

  /** Replace the n-th child with the id; if there are fewer, append empty objects up to it. */
  function PutNth(ms: seq<Message>, id: nat, n: nat, x: Message): seq<Message> {
    if n < Count(ms, id) then ms[Position(ms, id, n) := x]
    else ms + Gap(id, n - Count(ms, id)) + [x]
  }

  lemma {:induction false} ReplaceOccurrences(ms: seq<Message>, id: nat, n: nat, x: Message, other: nat)
    requires n < Count(ms, id) && x.id == id
    ensures Occurrences(ms[Position(ms, id, n) := x], other)
            == if other != id then Occurrences(ms, other) else Occurrences(ms, id)[n := x]
  {
    hide Occurrences, Position;
    var k := Position(ms, id, n);
    var ms' := ms[k := x];
    FirstOccurrence(ms, id);
    FirstOccurrence(ms, other);
    FirstOccurrence(ms', other);
    FirstPosition(ms, id, n);
    if k == 0 {
      assert ms'[1..] == ms[1..];
    } else {
      assert ms'[0] == ms[0] && ms'[1..] == ms[1..][k - 1 := x];
      ReplaceOccurrences(ms[1..], id, if ms[0].id == id then n - 1 else n, x, other);
    }
  }

  lemma {:induction false} FirstOccurrence(ms: seq<Message>, id: nat)
    requires ms != []
    ensures Occurrences(ms, id) == (if ms[0].id == id then [ms[0]] else []) + Occurrences(ms[1..], id)
  {
  }

  lemma {:induction false} FirstPosition(ms: seq<Message>, id: nat, n: nat)
    requires n < Count(ms, id)
    ensures ms != []
    ensures Position(ms, id, n) == 0 ==> ms[0].id == id && n == 0
    ensures Position(ms, id, n) > 0 ==>
      var m := if ms[0].id == id then n - 1 else n;
      0 <= m < Count(ms[1..], id) && Position(ms, id, n) == Position(ms[1..], id, m) + 1
  {
  }

  lemma {:induction false} PutNthOccurrences(ms: seq<Message>, id: nat, n: nat, x: Message, other: nat)
    requires x.id == id
    ensures Occurrences(PutNth(ms, id, n, x), other)
            == if other != id then Occurrences(ms, other)
               else if n < Count(ms, id) then Occurrences(ms, id)[n := x]
               else Occurrences(ms, id) + (Gap(id, n - Count(ms, id)) + [x])
  {
    if n < Count(ms, id) {
      ReplaceOccurrences(ms, id, n, x, other);
    } else {
      var tail := Gap(id, n - Count(ms, id)) + [x];
      assert PutNth(ms, id, n, x) == ms + tail;
      OccurrencesConcat(ms, tail, other);
      OccurrencesOfOneId(tail, id, other);
    }
  }

  lemma {:induction false} PositionAfterPut(ms: seq<Message>, id: nat, n: nat, x: Message)
    requires x.id == id && n <= Count(ms, id)
    ensures var ms' := PutNth(ms, id, n, x);
            n < Count(ms', id) &&
            Position(ms', id, n) == if n < Count(ms, id) then Position(ms, id, n) else |ms|
  {
    PutNthOccurrences(ms, id, n, x, id);
    var ms' := PutNth(ms, id, n, x);
    if n == Count(ms, id) {
      assert ms' == ms + [x];
    }
    var k := if n < Count(ms, id) then Position(ms, id, n) else |ms|;
    assert ms'[..k] == ms[..k];
    if n < Count(ms, id) {
      PositionCounts(ms, id, n);
    } else {
      assert ms[..k] == ms;
    }
    PositionUnique(ms', id, n, k);
  }

  lemma {:induction false} PositionUnique(ms: seq<Message>, id: nat, n: nat, k: nat)
    requires n < Count(ms, id) && k < |ms| && ms[k].id == id && Count(ms[..k], id) == n
    ensures Position(ms, id, n) == k
  {
    if k > 0 {
      assert ms[..k][0] == ms[0] && ms[..k][1..] == ms[1..][..k - 1];
      PositionUnique(ms[1..], id, if ms[0].id == id then n - 1 else n, k - 1);
    }
  }

  /** Putting twice at the same place keeps the second value. */
  lemma {:induction false} PutPut(ms: seq<Message>, id: nat, n: nat, x: Message, y: Message)
    requires x.id == id && y.id == id && n <= Count(ms, id)
    ensures var ms' := PutNth(ms, id, n, x);
            Nth(ms', id, n) == x && PutNth(ms', id, n, y) == PutNth(ms, id, n, y)
            && Count(ms', id) >= Count(ms, id) && n < Count(ms', id)
  {
    var ms' := PutNth(ms, id, n, x);
    PositionAfterPut(ms, id, n, x);
    PutNthOccurrences(ms, id, n, x, id);
    if n < Count(ms, id) {
      var k := Position(ms, id, n);
      assert ms'[k := y] == ms[k := y];
    } else {
      assert ms' == ms + [x];
      assert PutNth(ms, id, n, y) == ms + [y];
      assert ms'[|ms| := y] == ms + [y];
    }
  }

  lemma {:induction false} PutPutRecord(node: Message, node': Message, id: nat, n: nat, x: Message, y: Message)
    requires x.id == id && y.id == id && node.Object? && n <= Count(node.children, id)
    requires node' == node.(children := PutNth(node.children, id, n, x))
    ensures Nth(node'.children, id, n) == x
    ensures node'.(children := PutNth(node'.children, id, n, y)) == node.(children := PutNth(node.children, id, n, y))
  {
    PutPut(node.children, id, n, x, y);
  }

  // ---------------------------------------------------------------------------
  // Inserting one entry
  // ---------------------------------------------------------------------------

  function Target(p: Parent, idx: seq<nat>): nat {
    if p.repeated && idx != [] then idx[0] else 0
  }

  function Below(p: Parent, idx: seq<nat>): seq<nat> {
    if p.repeated && idx != [] then idx[1..] else idx
  }

  predicate Compatible(v: Datum, ty: FieldType) {
    !ty.ObjectType? && (v.StringDatum? <==> ty.StringType?)
  }

  /** Place one entry: descend through the ancestors, picking the indexed child of the repeated
      ones and creating what is missing; a null stops where its definition level stops. */
  function Insert(node: Message, plan: Plan, idx: seq<nat>, e: Entry): (r: Message)
    ensures r.id == node.id && (r.Object? <==> node.Object?)
    decreases |plan.parents|
  {
    if node.Scalar? then node
    else if plan.parents == [] then
      if e.datum.Some? && Compatible(e.datum.value, plan.ty) then
        node.(children := node.children + [Scalar(plan.fieldId, FromDatum(e.datum.value, plan.ty))])
      else node
    else if e.datum.None? && plan.parents[0].dlevel > e.d then node
    else
      var p := plan.parents[0];
      var n := Target(p, idx);
      var child := Insert(Nth(node.children, p.id, n), Rest(plan), Below(p, idx), e);
      node.(children := PutNth(node.children, p.id, n, child))
  }

  function Rest(plan: Plan): Plan
    requires plan.parents != []
  {
    plan.(parents := plan.parents[1..])
  }

  // ---------------------------------------------------------------------------
  // Inserting a run of entries
  // ---------------------------------------------------------------------------

  /** The index vector after meeting repetition level `r`: the level's index advances, deeper
      ones restart. Levels up to `base` belong to enclosing objects. */
  function Bump(idx: seq<nat>, r: nat, base: nat): (idx': seq<nat>)
    ensures |idx'| == |idx|
  {
    if r <= base then idx
    else seq(|idx|, i requires 0 <= i < |idx| =>
                if i < r - base - 1 then idx[i] else if i == r - base - 1 then idx[i] + 1 else 0)
  }

  /** The index vector after a run of entries. */
  function Track(idx: seq<nat>, es: seq<Entry>, base: nat): (r: seq<nat>)
    ensures |r| == |idx|
    decreases |es|
  {
    if es == [] then idx else Track(Bump(idx, es[0].r, base), es[1..], base)
  }

  /** The record after a run of entries. */
  function Run(node: Message, idx: seq<nat>, es: seq<Entry>, plan: Plan, base: nat): (r: Message)
    ensures r.id == node.id && (r.Object? <==> node.Object?)
    decreases |es|
  {
    if es == [] then node
    else
      var idx' := Bump(idx, es[0].r, base);
      Run(Insert(node, plan, idx', es[0]), idx', es[1..], plan, base)
  }

  lemma {:induction false} RunConcat(node: Message, idx: seq<nat>, a: seq<Entry>, b: seq<Entry>, plan: Plan, base: nat)
    ensures Run(node, idx, a + b, plan, base) == Run(Run(node, idx, a, plan, base), Track(idx, a, base), b, plan, base)
    ensures Track(idx, a + b, base) == Track(Track(idx, a, base), b, base)
    decreases |a|
  {
    if a == [] {
      assert a + b == b;
    } else {
      assert (a + b)[1..] == a[1..] + b;
      var idx' := Bump(idx, a[0].r, base);
      RunConcat(Insert(node, plan, idx', a[0]), idx', a[1..], b, plan, base);
    }
  }

  /** Every child is still at its place, perhaps grown; new children stand behind. */
  ghost predicate Grown(a: Message, b: Message)
    decreases a
  {
    if a.Scalar? then a == b
    else
      && b.Object? && a.id == b.id && |a.children| <= |b.children|
      && forall i :: 0 <= i < |a.children| ==> Grown(a.children[i], b.children[i])
  }

  lemma {:induction false} GrownSelf(a: Message)
    ensures Grown(a, a)
    decreases a
  {
    if a.Object? {
      forall i | 0 <= i < |a.children| ensures Grown(a.children[i], a.children[i]) {
        GrownSelf(a.children[i]);
      }
    }
  }

  lemma {:induction false} GrownTrans(a: Message, b: Message, c: Message)
    requires Grown(a, b) && Grown(b, c)
    ensures Grown(a, c)
    decreases a
  {
    if a.Object? {
      forall i | 0 <= i < |a.children| ensures Grown(a.children[i], c.children[i]) {
        GrownTrans(a.children[i], b.children[i], c.children[i]);
      }
    }
  }

  lemma {:induction false} PutNthGrows(node: Message, id: nat, n: nat, x: Message)
    requires node.Object? && (n < Count(node.children, id) ==> Grown(Nth(node.children, id, n), x))
    ensures Grown(node, node.(children := PutNth(node.children, id, n, x)))
  {
    hide Grown, Count;
    var ms, ms' := node.children, PutNth(node.children, id, n, x);
    forall i | 0 <= i < |ms| ensures |ms| <= |ms'| && Grown(ms[i], ms'[i]) {
      GrownSelf(ms[i]);
    }
    ChildrenGrown(node, ms');
  }

  lemma {:induction false} ChildrenGrown(node: Message, ms: seq<Message>)
    requires node.Object? && |node.children| <= |ms| && forall i :: 0 <= i < |node.children| ==> Grown(node.children[i], ms[i])
    ensures Grown(node, node.(children := ms))
  {
  }

  /** Inserting an entry moves and removes no child, at any depth: what is new stands behind. */
  lemma {:induction false} InsertGrows(node: Message, plan: Plan, idx: seq<nat>, e: Entry)
    ensures Grown(node, Insert(node, plan, idx, e))
    decreases |plan.parents|
  {
    hide Grown, PutNth, Nth;
    GrownSelf(node);
    if node.Object? && plan.parents == [] {
      if e.datum.Some? && Compatible(e.datum.value, plan.ty) {
        var ms := node.children + [Scalar(plan.fieldId, FromDatum(e.datum.value, plan.ty))];
        forall i | 0 <= i < |node.children| ensures Grown(node.children[i], ms[i]) {
          GrownSelf(node.children[i]);
        }
        ChildrenGrown(node, ms);
      }
    } else if node.Object? && !(e.datum.None? && plan.parents[0].dlevel > e.d) {
      var p := plan.parents[0];
      var n := Target(p, idx);
      InsertGrows(Nth(node.children, p.id, n), Rest(plan), Below(p, idx), e);
      PutNthGrows(node, p.id, n, Insert(Nth(node.children, p.id, n), Rest(plan), Below(p, idx), e));
    }
  }

  lemma {:induction false} RunGrows(node: Message, idx: seq<nat>, es: seq<Entry>, plan: Plan, base: nat)
    ensures Grown(node, Run(node, idx, es, plan, base))
    decreases |es|
  {
    hide Grown, Insert;
    if es == [] {
      GrownSelf(node);
    } else {
      var idx' := Bump(idx, es[0].r, base);
      var node' := Insert(node, plan, idx', es[0]);
      InsertGrows(node, plan, idx', es[0]);
      RunGrows(node', idx', es[1..], plan, base);
      GrownTrans(node, node', Run(node, idx, es, plan, base));
    }
  }

  /** Every entry reaches the first ancestor, and none moves on to its next object. */
  ghost predicate Inside(es: seq<Entry>, p: Parent, base: nat) {
    && (forall i :: 0 <= i < |es| ==> es[i].d >= p.dlevel)
    && (p.repeated ==> forall i :: 0 <= i < |es| ==> es[i].r != base + 1)
  }

  lemma {:induction false} BumpInside(p: Parent, idx: seq<nat>, r: nat, base: nat)
    requires p.repeated ==> r != base + 1 && idx != []
    ensures Below(p, Bump(idx, r, base)) == Bump(Below(p, idx), r, base + Bit(p.repeated))
    ensures Target(p, Bump(idx, r, base)) == Target(p, idx)
  {
  }

  /** A run whose entries all reach the first ancestor is a run inside one of its objects. */
  lemma {:induction false} RunInside(node: Message, idx: seq<nat>, es: seq<Entry>, plan: Plan, base: nat)
    requires node.Object? && plan.parents != [] && es != [] && Inside(es, plan.parents[0], base)
    requires plan.parents[0].repeated ==> idx != []
    requires Target(plan.parents[0], idx) <= Count(node.children, plan.parents[0].id)
    ensures var p := plan.parents[0];
            var n := Target(p, idx);
            Run(node, idx, es, plan, base) == node.(children := PutNth(node.children, p.id, n,
              Run(Nth(node.children, p.id, n), Below(p, idx), es, Rest(plan), base + Bit(p.repeated))))
    decreases |es|
  {
    hide *;
    var p, e := plan.parents[0], es[0];
    var n, idx', base' := Target(p, idx), Bump(idx, e.r, base), base + Bit(p.repeated);
    InsideSplit(es, p, base);
    InsertInside(node, idx, e, plan, base);
    var child := Insert(Nth(node.children, p.id, n), Rest(plan), Below(p, idx'), e);
    var node' := node.(children := PutNth(node.children, p.id, n, child));
    RunCons(node, idx, es, plan, base);
    RunCons(Nth(node.children, p.id, n), Below(p, idx), es, Rest(plan), base');
    if es[1..] == [] {
      RunNil(node', idx', plan, base);
      RunNil(child, Below(p, idx'), Rest(plan), base');
    } else {
      PutPut(node.children, p.id, n, child, child);
      RunInside(node', idx', es[1..], plan, base);
      PutPutRecord(node, node', p.id, n, child, Run(child, Below(p, idx'), es[1..], Rest(plan), base'));
    }
  }

  lemma {:induction false} InsideSplit(es: seq<Entry>, p: Parent, base: nat)
    requires es != [] && Inside(es, p, base)
    ensures Inside([es[0]], p, base) && Inside(es[1..], p, base)
  {
  }

  lemma {:induction false} RunCons(node: Message, idx: seq<nat>, es: seq<Entry>, plan: Plan, base: nat)
    requires es != []
    ensures Run(node, idx, es, plan, base)
            == Run(Insert(node, plan, Bump(idx, es[0].r, base), es[0]), Bump(idx, es[0].r, base), es[1..], plan, base)
  {
  }

  lemma {:induction false} RunNil(node: Message, idx: seq<nat>, plan: Plan, base: nat)
    ensures Run(node, idx, [], plan, base) == node
  {
  }

  lemma {:induction false} InsertInside(node: Message, idx: seq<nat>, e: Entry, plan: Plan, base: nat)
    requires node.Object? && plan.parents != [] && Inside([e], plan.parents[0], base)
    requires plan.parents[0].repeated ==> idx != []
    ensures Insert(Nth(node.children, plan.parents[0].id, Target(plan.parents[0], idx)), Rest(plan), Below(plan.parents[0], Bump(idx, e.r, base)), e).id
            == plan.parents[0].id
    ensures var p, idx' := plan.parents[0], Bump(idx, e.r, base);
            var n := Target(p, idx);
            && Below(p, idx') == Bump(Below(p, idx), e.r, base + Bit(p.repeated))
            && Target(p, idx') == n
            && Insert(node, plan, idx', e)
               == node.(children := PutNth(node.children, p.id, n, Insert(Nth(node.children, p.id, n), Rest(plan), Below(p, idx'), e)))
  {
    assert [e][0] == e;
    BumpInside(plan.parents[0], idx, e.r, base);
  }

  /** Only the index vector remembers the repetition level of an entry. */
  lemma {:induction false} InsertIgnoresLevel(node: Message, plan: Plan, idx: seq<nat>, e: Entry, r': nat)
    ensures Insert(node, plan, idx, e) == Insert(node, plan, idx, e.(r := r'))
    decreases |plan.parents|
  {
    if node.Object? && plan.parents != [] {
      var p := plan.parents[0];
      InsertIgnoresLevel(Nth(node.children, p.id, Target(p, idx)), Rest(plan), Below(p, idx), e, r');
    }
  }

  lemma {:induction false} RunFirst(node: Message, idx: seq<nat>, a: seq<Entry>, b: seq<Entry>, plan: Plan, base: nat)
    requires SameButFirst(a, b, 0)
    ensures Run(node, idx, a, plan, base) == Run(node, Bump(idx, a[0].r, base), b, plan, base)
  {
    assert a[1..] == b[1..];
    InsertIgnoresLevel(node, plan, Bump(idx, a[0].r, base), a[0], 0);
  }

  /** Deeper repetition levels leave the first index alone. */
  lemma {:induction false} TrackKeepsFirst(idx: seq<nat>, es: seq<Entry>, base: nat)
    requires idx != [] && forall i :: 0 <= i < |es| ==> es[i].r > base + 1
    ensures Track(idx, es, base)[0] == idx[0]
    decreases |es|
  {
    if es != [] {
      TrackKeepsFirst(Bump(idx, es[0].r, base), es[1..], base);
    }
  }

  // ---------------------------------------------------------------------------
  // Inserting the whole stripe of an object
  // ---------------------------------------------------------------------------

  function ParentsOf(path: seq<Step>, d: nat): (r: seq<Parent>)
    ensures |r| == if path == [] then 0 else |path| - 1
  {
    if |path| <= 1 then []
    else
      var d' := d + Bit(path[0].repeated || path[0].optional);
      [Parent(path[0].id, path[0].repeated, d')] + ParentsOf(path[1..], d')
  }

  function PlanOf(path: seq<Step>, d: nat, ty: FieldType): Plan
    requires path != []
  {
    Plan(ParentsOf(path, d), path[|path| - 1].id, ty)
  }

  /** The record after loading the column at `ids` of the message `o`: at every ancestor the
      j-th object of the message goes to the j-th object of the record, and the leaves of each
      object are appended to it in order. */
  function Merge(node: Message, o: Message, ids: seq<nat>): (r: Message)
    ensures r.id == node.id && (r.Object? <==> node.Object?)
    decreases |ids|, 1, 0
  {
    if node.Scalar? || ids == [] then node
    else if |ids| == 1 then node.(children := node.children + Occurrences(Kids(o), ids[0]))
    else node.(children := MergeFrom(node.children, Occurrences(Kids(o), ids[0]), 0, ids))
  }

  function MergeFrom(ms: seq<Message>, occ: seq<Message>, j: nat, ids: seq<nat>): seq<Message>
    requires |ids| > 1 && j <= |occ|
    decreases |ids|, 0, |occ| - j
  {
    if j == |occ| then ms
    else MergeFrom(PutNth(ms, ids[0], j, Merge(Nth(ms, ids[0], j), occ[j], ids[1..])), occ, j + 1, ids)
  }

  /** Running the stripe of `o` from a fresh index vector merges `o` into the record. */
  lemma {:induction false} RunStripe(node: Message, r: nat, base: nat, d: nat, o: Message, path: seq<Step>, ty: FieldType)
    requires path != [] && PathConforms(o, path, ty) && r <= base
    ensures Run(node, Zeros(RepLevel(path)), Stripe(r, base, d, o, path), PlanOf(path, d, ty), base) == Merge(node, o, Ids(path))
    decreases |path|, 3, 0
  {
    hide *;
    if node.Scalar? {
      RunOnScalar(node, Zeros(RepLevel(path)), Stripe(r, base, d, o, path), PlanOf(path, d, ty), base);
      MergeOnScalar(node, o, Ids(path));
    } else if Occurrences(Kids(o), path[0].id) == [] {
      RunMissing(node, r, base, d, o, path, ty);
    } else if |path| == 1 {
      RunLeaf(node, r, base, d, o, path, ty);
    } else if path[0].repeated {
      RunRepeatedAll(node, r, base, d, o, path, ty);
    } else {
      RunSingle(node, r, base, d, o, path, ty);
    }
  }

  lemma {:induction false} RunLeaf(node: Message, r: nat, base: nat, d: nat, o: Message, path: seq<Step>, ty: FieldType)
    requires node.Object? && |path| == 1 && PathConforms(o, path, ty) && r <= base && Occurrences(Kids(o), path[0].id) != []
    ensures Run(node, Zeros(RepLevel(path)), Stripe(r, base, d, o, path), PlanOf(path, d, ty), base) == Merge(node, o, Ids(path))
  {
    var occ := Occurrences(o.children, path[0].id);
    assert AllConformBelow(occ, path, ty);
    RunLeaves(node, Zeros(RepLevel(path)), r, base + Bit(path[0].repeated), d + Bit(path[0].repeated || path[0].optional), occ, path, ty, base);
  }

  lemma {:induction false} RunRepeatedAll(node: Message, r: nat, base: nat, d: nat, o: Message, path: seq<Step>, ty: FieldType)
    requires node.Object? && |path| > 1 && path[0].repeated && PathConforms(o, path, ty) && r <= base
    requires Occurrences(Kids(o), path[0].id) != []
    ensures Run(node, Zeros(RepLevel(path)), Stripe(r, base, d, o, path), PlanOf(path, d, ty), base) == Merge(node, o, Ids(path))
    decreases |path|, 2, 0
  {
    var occ, zeros := Occurrences(o.children, path[0].id), Zeros(RepLevel(path));
    assert AllConformBelow(occ, path, ty);
    assert Stripe(r, base, d, o, path) == StripeAll(r, base + 1, d + 1, occ, path);
    assert Bump(zeros, r, base) == [0] + Zeros(RepLevel(path[1..]));
    assert occ[0..] == occ;
    hide Run, Stripe, StripeAll, MergeFrom, Insert, PathConforms;
    RunRepeated(node, zeros, 0, r, base, d, occ, path, ty);
  }

  lemma {:induction false} MergeOnScalar(node: Message, o: Message, ids: seq<nat>)
    requires node.Scalar?
    ensures Merge(node, o, ids) == node
  {
  }

  lemma {:induction false} RunOnScalar(node: Message, idx: seq<nat>, es: seq<Entry>, plan: Plan, base: nat)
    requires node.Scalar?
    ensures Run(node, idx, es, plan, base) == node
    decreases |es|
  {
    if es != [] {
      RunOnScalar(node, Bump(idx, es[0].r, base), es[1..], plan, base);
    }
  }

  lemma {:induction false} RunMissing(node: Message, r: nat, base: nat, d: nat, o: Message, path: seq<Step>, ty: FieldType)
    requires node.Object? && path != [] && PathConforms(o, path, ty) && r <= base && Occurrences(Kids(o), path[0].id) == []
    ensures Run(node, Zeros(RepLevel(path)), Stripe(r, base, d, o, path), PlanOf(path, d, ty), base) == Merge(node, o, Ids(path))
  {
    var es := Stripe(r, base, d, o, path);
    assert es == [Entry(r, d, None)];
    assert es[1..] == [];
    assert node.children + [] == node.children;
  }

  lemma {:induction false} RunLeaves(node: Message, idx: seq<nat>, r: nat, rmax: nat, d: nat, occ: seq<Message>, path: seq<Step>, ty: FieldType, base: nat)
    requires |path| == 1 && node.Object? && AllConformBelow(occ, path, ty)
    requires forall i :: 0 <= i < |occ| ==> occ[i].id == path[0].id
    ensures Run(node, idx, StripeAll(r, rmax, d, occ, path), Plan([], path[0].id, ty), base)
            == node.(children := node.children + occ)
    decreases |occ|
  {
    if occ == [] {
      assert node.children + occ == node.children;
    } else {
      assert ConformsBelow(occ[0], path, ty);
      DatumRoundTrip(occ[0].value, ty);
      var es, es' := StripeAll(r, rmax, d, occ, path), StripeAll(rmax, rmax, d, occ[1..], path);
      assert es == [Entry(r, d, Some(ToDatum(occ[0].value)))] + es';
      assert es[1..] == es';
      RunLeaves(node.(children := node.children + [occ[0]]), Bump(idx, r, base), rmax, rmax, d, occ[1..], path, ty, base);
      assert node.children + [occ[0]] + occ[1..] == node.children + occ;
    }
  }

  lemma {:induction false} RunSingle(node: Message, r: nat, base: nat, d: nat, o: Message, path: seq<Step>, ty: FieldType)
    requires node.Object? && |path| > 1 && !path[0].repeated && PathConforms(o, path, ty) && r <= base
    requires Occurrences(Kids(o), path[0].id) != []
    ensures Run(node, Zeros(RepLevel(path)), Stripe(r, base, d, o, path), PlanOf(path, d, ty), base) == Merge(node, o, Ids(path))
    decreases |path|, 1, 0
  {
    hide Stripe, StripeAll, Merge, MergeFrom, Run, PutNth, Nth, PathConforms;
    StripeOfSingle(r, base, d, o, path, ty);
    RunStripeInside(node, Zeros(RepLevel(path)), r, base, d, Occurrences(o.children, path[0].id)[0], path, ty);
    MergeOfSingle(node, o, Ids(path));
  }

  /** A field that does not repeat has one occurrence, and its stripe is the column's. */
  lemma {:induction false} StripeOfSingle(r: nat, base: nat, d: nat, o: Message, path: seq<Step>, ty: FieldType)
    requires |path| > 1 && !path[0].repeated && PathConforms(o, path, ty) && r <= base
    requires Occurrences(Kids(o), path[0].id) != []
    ensures o.Object? && |Occurrences(o.children, path[0].id)| == 1
    ensures PathConforms(Occurrences(o.children, path[0].id)[0], path[1..], ty)
    ensures Stripe(r, base, d, o, path) ==
      Stripe(r, base, d + Bit(path[0].optional), Occurrences(o.children, path[0].id)[0], path[1..])
  {
    var occ, d' := Occurrences(o.children, path[0].id), d + Bit(path[0].optional);
    var es := Stripe(r, base, d', occ[0], path[1..]);
    assert occ[1..] == [] && StripeAll(base, base, d', [], path) == [];
    assert StripeAll(r, base, d', occ, path) == es + [];
  }

  lemma {:induction false} MergeOfSingle(node: Message, o: Message, ids: seq<nat>)
    requires |ids| > 1 && node.Object? && o.Object? && |Occurrences(o.children, ids[0])| == 1
    ensures Merge(node, o, ids)
            == node.(children := PutNth(node.children, ids[0], 0,
                 Merge(Nth(node.children, ids[0], 0), Occurrences(o.children, ids[0])[0], ids[1..])))
  {
    var occ := Occurrences(o.children, ids[0]);
    var ms := PutNth(node.children, ids[0], 0, Merge(Nth(node.children, ids[0], 0), occ[0], ids[1..]));
    assert MergeFrom(node.children, occ, 0, ids) == MergeFrom(ms, occ, 1, ids);
  }

  /** Running the stripe of one child object changes the addressed object of the record only. */
  lemma {:induction false} RunStripeInside(node: Message, idx: seq<nat>, r: nat, base: nat, d: nat, x: Message, path: seq<Step>, ty: FieldType)
    requires node.Object? && |path| > 1 && PathConforms(x, path[1..], ty) && r <= base && |idx| == RepLevel(path)
    requires Below(ParentsOf(path, d)[0], idx) == Zeros(RepLevel(path[1..]))
    requires Target(ParentsOf(path, d)[0], idx) <= Count(node.children, path[0].id)
    ensures var es := Stripe(r, base + Bit(path[0].repeated), d + Bit(path[0].repeated || path[0].optional), x, path[1..]);
            var id, n := path[0].id, Target(ParentsOf(path, d)[0], idx);
            Run(node, idx, es, PlanOf(path, d, ty), base)
            == node.(children := PutNth(node.children, id, n, Merge(Nth(node.children, id, n), x, Ids(path)[1..])))
    decreases |path|, 0, 0
  {
    hide Stripe, StripeAll, Merge, MergeFrom, Run, PutNth, Nth, PathConforms;
    var plan, base', d' := PlanOf(path, d, ty), base + Bit(path[0].repeated), d + Bit(path[0].repeated || path[0].optional);
    StripeLevels(r, base', d', x, path[1..], ty);
    RunInside(node, idx, Stripe(r, base', d', x, path[1..]), plan, base);
    assert Rest(plan) == PlanOf(path[1..], d', ty);
    RunStripe(Nth(node.children, path[0].id, Target(plan.parents[0], idx)), r, base', d', x, path[1..], ty);
    assert Ids(path)[1..] == Ids(path[1..]);
  }

  lemma {:induction false} BumpNext(idx: seq<nat>, base: nat)
    requires idx != []
    ensures Bump(idx, base + 1, base) == [idx[0] + 1] + Zeros(|idx| - 1)
  {
  }

  /** The occurrences of a repeated object land in consecutive objects of the record. */
  lemma {:induction false} RunRepeated(node: Message, idx: seq<nat>, j: nat, r: nat, base: nat, d: nat, occ: seq<Message>, path: seq<Step>, ty: FieldType)
    requires node.Object? && |path| > 1 && path[0].repeated && j < |occ| && AllConformBelow(occ, path, ty)
    requires j <= Count(node.children, path[0].id)
    requires |idx| == RepLevel(path) && r <= base + 1 && Bump(idx, r, base) == [j] + Zeros(RepLevel(path[1..]))
    ensures Run(node, idx, StripeAll(r, base + 1, d + 1, occ[j..], path), PlanOf(path, d, ty), base)
            == node.(children := MergeFrom(node.children, occ, j, Ids(path)))
    decreases |path|, 1, |occ| - j
  {
    var plan, id, tail := PlanOf(path, d, ty), path[0].id, occ[j..];
    assert tail[0] == occ[j] && tail[1..] == occ[j + 1..];
    assert ConformsBelow(occ[j], path, ty);
    var first, rest := Stripe(r, base + 1, d + 1, occ[j], path[1..]), StripeAll(base + 1, base + 1, d + 1, occ[j + 1..], path);
    assert StripeAll(r, base + 1, d + 1, tail, path) == first + rest;
    RunOccurrence(node, idx, j, r, base, d, occ[j], path, ty);
    var child := Merge(Nth(node.children, id, j), occ[j], Ids(path)[1..]);
    var node', idx' := node.(children := PutNth(node.children, id, j, child)), Track(idx, first, base);
    RunConcat(node, idx, first, rest, plan, base);
    if j + 1 < |occ| {
      PutPut(node.children, id, j, child, child);
      BumpNext(idx', base);
      RunRepeated(node', idx', j + 1, base + 1, base, d, occ, path, ty);
    }
  }

  /** An occurrence can be run as if it were the first one, from its own place. */
  lemma {:induction false} RunOccurrence(node: Message, idx: seq<nat>, j: nat, r: nat, base: nat, d: nat, x: Message, path: seq<Step>, ty: FieldType)
    requires node.Object? && |path| > 1 && path[0].repeated && PathConforms(x, path[1..], ty)
    requires j <= Count(node.children, path[0].id)
    requires |idx| == RepLevel(path) && r <= base + 1 && Bump(idx, r, base) == [j] + Zeros(RepLevel(path[1..]))
    ensures var es := Stripe(r, base + 1, d + 1, x, path[1..]);
            && Run(node, idx, es, PlanOf(path, d, ty), base)
               == node.(children := PutNth(node.children, path[0].id, j, Merge(Nth(node.children, path[0].id, j), x, Ids(path)[1..])))
            && Track(idx, es, base)[0] == j
    decreases |path|, 1, 0
  {
    hide Run, Stripe, StripeAll, Merge, MergeFrom, PathConforms, PutNth, Nth;
    var zeros := Zeros(RepLevel(path[1..]));
    var es, es0 := Stripe(r, base + 1, d + 1, x, path[1..]), Stripe(0, base + 1, d + 1, x, path[1..]);
    StripeFirst(r, 0, base + 1, d + 1, x, path[1..]);
    RunFirst(node, idx, es, es0, PlanOf(path, d, ty), base);
    assert ([j] + zeros)[1..] == zeros;
    RunStripeInside(node, [j] + zeros, 0, base, d, x, path, ty);
    StripeLevels(r, base + 1, d + 1, x, path[1..], ty);
    TrackKeepsFirst([j] + zeros, es[1..], base);
  }

  // ---------------------------------------------------------------------------
  // Type safety of the descent
  // ---------------------------------------------------------------------------

  /** Every node that a plan with these ancestors descends through is an object. */
  ghost predicate Fits(node: Message, parents: seq<Parent>)
    decreases |parents|
  {
    && node.Object?
    && (parents != [] ==>
          var occ := Occurrences(node.children, parents[0].id);
          forall i :: 0 <= i < |occ| ==> Fits(occ[i], parents[1..]))
  }

  lemma {:induction false} FitsNth(node: Message, parents: seq<Parent>, n: nat)
    requires parents != [] && Fits(node, parents)
    ensures Fits(Nth(node.children, parents[0].id, n), parents[1..])
  {
  }

  lemma {:induction false} PutFits(node: Message, parents: seq<Parent>, n: nat, x: Message)
    requires parents != [] && Fits(node, parents) && Fits(x, parents[1..]) && x.id == parents[0].id
    ensures Fits(node.(children := PutNth(node.children, parents[0].id, n, x)), parents)
  {
    hide PutNth, Position, Occurrences;
    PutNthOccurrences(node.children, parents[0].id, n, x, parents[0].id);
  }

  lemma {:induction false} InsertFits(node: Message, plan: Plan, idx: seq<nat>, e: Entry)
    requires Fits(node, plan.parents)
    ensures Fits(Insert(node, plan, idx, e), plan.parents)
    decreases |plan.parents|
  {
    if plan.parents != [] && !(e.datum.None? && plan.parents[0].dlevel > e.d) {
      var p := plan.parents[0];
      var n := Target(p, idx);
      FitsNth(node, plan.parents, n);
      InsertFits(Nth(node.children, p.id, n), Rest(plan), Below(p, idx), e);
      PutFits(node, plan.parents, n, Insert(Nth(node.children, p.id, n), Rest(plan), Below(p, idx), e));
    }
  }
}
