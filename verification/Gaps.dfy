/** The gap-filling loops of the materializer never run on shredded columns: whenever an entry is
    inserted, the indexes name a child that exists or the one right after the last. */
module Gaps {
  import opened Messages
  import opened Schemas
  import opened ColumnData
  import opened Striping
  import opened Assembly

  /** Inserting the entry appends no empty object on its way down. */
  ghost predicate Gapless(node: Message, plan: Plan, idx: seq<nat>, e: Entry)
    decreases |plan.parents|
  {
    node.Scalar? || plan.parents == [] || (e.datum.None? && plan.parents[0].dlevel > e.d)
    || var p := plan.parents[0];
       var n := Target(p, idx);
       n <= Count(node.children, p.id) && Gapless(Nth(node.children, p.id, n), Rest(plan), Below(p, idx), e)
  }

  /** So it is for every entry of a run. */
  ghost predicate GaplessRun(node: Message, idx: seq<nat>, es: seq<Entry>, plan: Plan, base: nat)
    decreases |es|
  {
    es == []
    || var idx' := Bump(idx, es[0].r, base);
       Gapless(node, plan, idx', es[0]) && GaplessRun(Insert(node, plan, idx', es[0]), idx', es[1..], plan, base)
  }

  lemma {:induction false} GaplessConcat(node: Message, idx: seq<nat>, a: seq<Entry>, b: seq<Entry>, plan: Plan, base: nat)
    ensures GaplessRun(node, idx, a + b, plan, base) <==>
      GaplessRun(node, idx, a, plan, base) && GaplessRun(Run(node, idx, a, plan, base), Track(idx, a, base), b, plan, base)
    decreases |a|
  {
    hide Gapless, Insert, Bump;
    if a == [] {
      assert a + b == b;
    } else {
      assert (a + b)[1..] == a[1..] + b;
      var idx' := Bump(idx, a[0].r, base);
      GaplessConcat(Insert(node, plan, idx', a[0]), idx', a[1..], b, plan, base);
    }
  }

  lemma {:induction false} GaplessIgnoresLevel(node: Message, plan: Plan, idx: seq<nat>, e: Entry, r': nat)
    ensures Gapless(node, plan, idx, e) <==> Gapless(node, plan, idx, e.(r := r'))
    decreases |plan.parents|
  {
    if node.Object? && plan.parents != [] {
      var p := plan.parents[0];
      GaplessIgnoresLevel(Nth(node.children, p.id, Target(p, idx)), Rest(plan), Below(p, idx), e, r');
    }
  }

  lemma {:induction false} GaplessFirst(node: Message, idx: seq<nat>, a: seq<Entry>, b: seq<Entry>, plan: Plan, base: nat)
    requires SameButFirst(a, b, 0)
    ensures GaplessRun(node, idx, a, plan, base) <==> GaplessRun(node, Bump(idx, a[0].r, base), b, plan, base)
  {
    hide Gapless, Insert;
    assert a[1..] == b[1..];
    InsertIgnoresLevel(node, plan, Bump(idx, a[0].r, base), a[0], 0);
    GaplessIgnoresLevel(node, plan, Bump(idx, a[0].r, base), a[0], 0);
  }

  lemma {:induction false} GaplessCons(node: Message, idx: seq<nat>, es: seq<Entry>, plan: Plan, base: nat)
    requires es != []
    ensures var idx' := Bump(idx, es[0].r, base);
      GaplessRun(node, idx, es, plan, base) <==>
        Gapless(node, plan, idx', es[0]) && GaplessRun(Insert(node, plan, idx', es[0]), idx', es[1..], plan, base)
  {
  }

  lemma {:induction false} GaplessNil(node: Message, idx: seq<nat>, plan: Plan, base: nat)
    ensures GaplessRun(node, idx, [], plan, base)
  {
  }

  lemma {:induction false} GaplessStep(node: Message, idx: seq<nat>, e: Entry, plan: Plan, base: nat)
    requires node.Object? && plan.parents != [] && Inside([e], plan.parents[0], base)
    requires plan.parents[0].repeated ==> idx != []
    requires Target(plan.parents[0], idx) <= Count(node.children, plan.parents[0].id)
    requires var p := plan.parents[0];
      Gapless(Nth(node.children, p.id, Target(p, idx)), Rest(plan), Bump(Below(p, idx), e.r, base + Bit(p.repeated)), e)
    ensures Gapless(node, plan, Bump(idx, e.r, base), e)
  {
    hide Bump, Target, Below;
    assert [e][0] == e;
    BumpInside(plan.parents[0], idx, e.r, base);
  }

  /** A run inside one object of the first ancestor is gapless when it is inside that object. */
  lemma {:induction false} GaplessInside(node: Message, idx: seq<nat>, es: seq<Entry>, plan: Plan, base: nat)
    requires node.Object? && plan.parents != [] && es != [] && Inside(es, plan.parents[0], base)
    requires plan.parents[0].repeated ==> idx != []
    requires Target(plan.parents[0], idx) <= Count(node.children, plan.parents[0].id)
    requires var p := plan.parents[0];
      GaplessRun(Nth(node.children, p.id, Target(p, idx)), Below(p, idx), es, Rest(plan), base + Bit(p.repeated))
    ensures GaplessRun(node, idx, es, plan, base)
    decreases |es|
  {
    hide *;
    var p, e := plan.parents[0], es[0];
    var n, idx', base' := Target(p, idx), Bump(idx, e.r, base), base + Bit(p.repeated);
    InsideSplit(es, p, base);
    InsertInside(node, idx, e, plan, base);
    GaplessCons(Nth(node.children, p.id, n), Below(p, idx), es, Rest(plan), base');
    GaplessStep(node, idx, e, plan, base);
    GaplessCons(node, idx, es, plan, base);
    var child := Insert(Nth(node.children, p.id, n), Rest(plan), Below(p, idx'), e);
    var node' := node.(children := PutNth(node.children, p.id, n, child));
    if es[1..] == [] {
      GaplessNil(node', idx', plan, base);
    } else {
      PutPut(node.children, p.id, n, child, child);
      GaplessInside(node', idx', es[1..], plan, base);
    }
  }

  lemma {:induction false} GaplessFlat(node: Message, idx: seq<nat>, es: seq<Entry>, plan: Plan, base: nat)
    requires plan.parents == [] || node.Scalar?
    ensures GaplessRun(node, idx, es, plan, base)
    decreases |es|
  {
    if es != [] {
      var idx' := Bump(idx, es[0].r, base);
      GaplessFlat(Insert(node, plan, idx', es[0]), idx', es[1..], plan, base);
    }
  }

  /** Inserting the stripe of any message, into any record, fills no gap. */
  lemma {:induction false} GaplessStripe(node: Message, r: nat, base: nat, d: nat, o: Message, path: seq<Step>, ty: FieldType)
    requires path != [] && PathConforms(o, path, ty) && r <= base
    ensures GaplessRun(node, Zeros(RepLevel(path)), Stripe(r, base, d, o, path), PlanOf(path, d, ty), base)
    decreases |path|, 3, 0
  {
    hide *;
    if node.Scalar? {
      GaplessFlat(node, Zeros(RepLevel(path)), Stripe(r, base, d, o, path), PlanOf(path, d, ty), base);
    } else if |path| == 1 {
      NoParents(path, d, ty);
      GaplessFlat(node, Zeros(RepLevel(path)), Stripe(r, base, d, o, path), PlanOf(path, d, ty), base);
    } else if Occurrences(Kids(o), path[0].id) == [] {
      GaplessMissing(node, r, base, d, o, path, ty);
    } else if path[0].repeated {
      GaplessRepeatedAll(node, r, base, d, o, path, ty);
    } else {
      GaplessSingle(node, r, base, d, o, path, ty);
    }
  }

  lemma {:induction false} NoParents(path: seq<Step>, d: nat, ty: FieldType)
    requires |path| == 1
    ensures PlanOf(path, d, ty).parents == []
  {
  }

  lemma {:induction false} GaplessMissing(node: Message, r: nat, base: nat, d: nat, o: Message, path: seq<Step>, ty: FieldType)
    requires node.Object? && |path| > 1 && PathConforms(o, path, ty) && r <= base && Occurrences(Kids(o), path[0].id) == []
    ensures GaplessRun(node, Zeros(RepLevel(path)), Stripe(r, base, d, o, path), PlanOf(path, d, ty), base)
  {
    var es := Stripe(r, base, d, o, path);
    assert es == [Entry(r, d, None)];
    assert es[1..] == [];
  }

  lemma {:induction false} GaplessStripeInside(node: Message, idx: seq<nat>, r: nat, base: nat, d: nat, x: Message, path: seq<Step>, ty: FieldType)
    requires node.Object? && |path| > 1 && PathConforms(x, path[1..], ty) && r <= base && |idx| == RepLevel(path)
    requires Below(ParentsOf(path, d)[0], idx) == Zeros(RepLevel(path[1..]))
    requires Target(ParentsOf(path, d)[0], idx) <= Count(node.children, path[0].id)
    ensures var es := Stripe(r, base + Bit(path[0].repeated), d + Bit(path[0].repeated || path[0].optional), x, path[1..]);
            GaplessRun(node, idx, es, PlanOf(path, d, ty), base)
    decreases |path|, 0, 0
  {
    hide Stripe, StripeAll, GaplessRun, PutNth, Nth, PathConforms;
    var plan, base', d' := PlanOf(path, d, ty), base + Bit(path[0].repeated), d + Bit(path[0].repeated || path[0].optional);
    StripeLevels(r, base', d', x, path[1..], ty);
    assert Rest(plan) == PlanOf(path[1..], d', ty);
    GaplessStripe(Nth(node.children, path[0].id, Target(plan.parents[0], idx)), r, base', d', x, path[1..], ty);
    GaplessInside(node, idx, Stripe(r, base', d', x, path[1..]), plan, base);
  }

  lemma {:induction false} GaplessSingle(node: Message, r: nat, base: nat, d: nat, o: Message, path: seq<Step>, ty: FieldType)
    requires node.Object? && |path| > 1 && !path[0].repeated && PathConforms(o, path, ty) && r <= base
    requires Occurrences(Kids(o), path[0].id) != []
    ensures GaplessRun(node, Zeros(RepLevel(path)), Stripe(r, base, d, o, path), PlanOf(path, d, ty), base)
    decreases |path|, 1, 0
  {
    hide Stripe, StripeAll, GaplessRun, PutNth, Nth, PathConforms;
    StripeOfSingle(r, base, d, o, path, ty);
    GaplessStripeInside(node, Zeros(RepLevel(path)), r, base, d, Occurrences(o.children, path[0].id)[0], path, ty);
  }

  lemma {:induction false} GaplessRepeatedAll(node: Message, r: nat, base: nat, d: nat, o: Message, path: seq<Step>, ty: FieldType)
    requires node.Object? && |path| > 1 && path[0].repeated && PathConforms(o, path, ty) && r <= base
    requires Occurrences(Kids(o), path[0].id) != []
    ensures GaplessRun(node, Zeros(RepLevel(path)), Stripe(r, base, d, o, path), PlanOf(path, d, ty), base)
    decreases |path|, 2, 0
  {
    var occ, zeros := Occurrences(o.children, path[0].id), Zeros(RepLevel(path));
    assert AllConformBelow(occ, path, ty);
    assert Stripe(r, base, d, o, path) == StripeAll(r, base + 1, d + 1, occ, path);
    assert Bump(zeros, r, base) == [0] + Zeros(RepLevel(path[1..]));
    assert occ[0..] == occ;
    hide GaplessRun, Stripe, StripeAll, Insert, PathConforms;
    GaplessRepeated(node, zeros, 0, r, base, d, occ, path, ty);
  }

  lemma {:induction false} GaplessRepeated(node: Message, idx: seq<nat>, j: nat, r: nat, base: nat, d: nat, occ: seq<Message>, path: seq<Step>, ty: FieldType)
    requires node.Object? && |path| > 1 && path[0].repeated && j < |occ| && AllConformBelow(occ, path, ty)
    requires j <= Count(node.children, path[0].id)
    requires |idx| == RepLevel(path) && r <= base + 1 && Bump(idx, r, base) == [j] + Zeros(RepLevel(path[1..]))
    ensures GaplessRun(node, idx, StripeAll(r, base + 1, d + 1, occ[j..], path), PlanOf(path, d, ty), base)
    decreases |path|, 1, |occ| - j
  {
    hide GaplessRun, Run, Stripe, Insert, PathConforms, PutNth, Merge, MergeFrom;
    var plan, id, tail := PlanOf(path, d, ty), path[0].id, occ[j..];
    assert tail[0] == occ[j] && tail[1..] == occ[j + 1..];
    assert ConformsBelow(occ[j], path, ty);
    var first, rest := Stripe(r, base + 1, d + 1, occ[j], path[1..]), StripeAll(base + 1, base + 1, d + 1, occ[j + 1..], path);
    assert StripeAll(r, base + 1, d + 1, tail, path) == first + rest;
    GaplessOccurrence(node, idx, j, r, base, d, occ[j], path, ty);
    RunOccurrence(node, idx, j, r, base, d, occ[j], path, ty);
    var child := Merge(Nth(node.children, id, j), occ[j], Ids(path)[1..]);
    var node', idx' := node.(children := PutNth(node.children, id, j, child)), Track(idx, first, base);
    GaplessConcat(node, idx, first, rest, plan, base);
    if j + 1 < |occ| {
      PutPut(node.children, id, j, child, child);
      BumpNext(idx', base);
      GaplessRepeated(node', idx', j + 1, base + 1, base, d, occ, path, ty);
    } else {
      NothingLeft(base + 1, d + 1, occ[j + 1..], path);
      GaplessNil(node', idx', plan, base);
    }
  }

  lemma {:induction false} NothingLeft(rmax: nat, d: nat, occ: seq<Message>, path: seq<Step>)
    requires occ == [] && path != []
    ensures StripeAll(rmax, rmax, d, occ, path) == []
  {
  }

  lemma {:induction false} GaplessOccurrence(node: Message, idx: seq<nat>, j: nat, r: nat, base: nat, d: nat, x: Message, path: seq<Step>, ty: FieldType)
    requires node.Object? && |path| > 1 && path[0].repeated && PathConforms(x, path[1..], ty)
    requires j <= Count(node.children, path[0].id)
    requires |idx| == RepLevel(path) && r <= base + 1 && Bump(idx, r, base) == [j] + Zeros(RepLevel(path[1..]))
    ensures GaplessRun(node, idx, Stripe(r, base + 1, d + 1, x, path[1..]), PlanOf(path, d, ty), base)
    decreases |path|, 1, 0
  {
    hide GaplessRun, Stripe, StripeAll, PathConforms, PutNth, Nth;
    var zeros := Zeros(RepLevel(path[1..]));
    var es, es0 := Stripe(r, base + 1, d + 1, x, path[1..]), Stripe(0, base + 1, d + 1, x, path[1..]);
    StripeFirst(r, 0, base + 1, d + 1, x, path[1..]);
    StripeLevels(r, base + 1, d + 1, x, path[1..], ty);
    GaplessFirst(node, idx, es, es0, PlanOf(path, d, ty), base);
    assert ([j] + zeros)[1..] == zeros;
    GaplessStripeInside(node, [j] + zeros, 0, base, d, x, path, ty);
  }

  /** At every entry of a record's column, as the materializer meets it, the indexes are the
      position of an existing child or of the next one, at every level of the path. */
  lemma {:induction false} IndexesArePositions(record: Message, row: Message, path: seq<Step>, ty: FieldType, k: nat)
    requires path != [] && PathConforms(row, path, ty) && k < |Stripe(0, 0, 0, row, path)|
    ensures var es, plan, zeros := Stripe(0, 0, 0, row, path), PlanOf(path, 0, ty), Zeros(RepLevel(path));
            Gapless(Run(record, zeros, es[..k], plan, 0), plan, Bump(Track(zeros, es[..k], 0), es[k].r, 0), es[k])
  {
    hide Stripe, PathConforms, PlanOf, Run, Track, Gapless, Bump, Insert;
    var es, plan, zeros := Stripe(0, 0, 0, row, path), PlanOf(path, 0, ty), Zeros(RepLevel(path));
    GaplessStripe(record, 0, 0, 0, row, path, ty);
    assert es == es[..k] + es[k..];
    GaplessConcat(record, zeros, es[..k], es[k..], plan, 0);
    assert es[k..][0] == es[k];
  }
}
