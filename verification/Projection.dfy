/** Messages up to the interleaving of different field ids, and their projection onto a chosen
    set of leaf paths. */
module Projection {
  import opened Messages
  import opened Assembly

  /** Same message up to the order among children of different field ids: for every id the
      children with that id are the same, in the same order. */
  ghost predicate Equivalent(a: Message, b: Message)
    decreases a
  {
    if a.Scalar? then a == b
    else
      && b.Object? && a.id == b.id
      && (forall id: nat :: Count(a.children, id) == Count(b.children, id))
      && (forall id: nat, i :: 0 <= i < Count(a.children, id) && i < Count(b.children, id) ==>
            Equivalent(Occurrences(a.children, id)[i], Occurrences(b.children, id)[i]))
  }

  /** The paths of a set that start with an id, without it. */
  ghost function Tails(paths: set<seq<nat>>, id: nat): (r: set<seq<nat>>)
    ensures forall p :: p in r <==> p != [] && [id] + p in paths
  {
    var r := set p | p in paths && |p| > 1 && p[0] == id :: p[1..];
    assert forall p :: p in paths && |p| > 1 && p[0] == id ==> p == [id] + p[1..];
    assert forall p :: p != [] && [id] + p in paths ==> ([id] + p)[1..] == p;
    r
  }

  /** The message restricted to the chosen leaves. An object is kept as soon as one chosen leaf
      lies below its field, even if that leaf is absent in it. */
  ghost function Project(o: Message, paths: set<seq<nat>>): (r: Message)
    ensures r.id == o.id && (r.Object? <==> o.Object?)
    decreases o, 1
  {
    match o
    case Scalar(_, _) => o
    case Object(id, children) => Object(id, ProjectAll(children, paths))
  }

  ghost function ProjectAll(ms: seq<Message>, paths: set<seq<nat>>): seq<Message>
    decreases ms, 0
  {
    if ms == [] then []
    else
      var rest := ProjectAll(ms[1..], paths);
      if [ms[0].id] in paths then [ms[0]] + rest
      else if Tails(paths, ms[0].id) == {} then rest
      else [Project(ms[0], Tails(paths, ms[0].id))] + rest
  }

  /** No chosen path continues another one. */
  ghost predicate PrefixFree(paths: set<seq<nat>>) {
    [] !in paths && forall p, q :: p in paths && q in paths && p <= q ==> p == q
  }

  // ---------------------------------------------------------------------------
  // Equivalence
  // ---------------------------------------------------------------------------

  lemma {:induction false} EquivalentReflexive(a: Message)
    ensures Equivalent(a, a)
    decreases a
  {
    if a.Object? {
      forall id: nat, i | 0 <= i < Count(a.children, id)
        ensures Equivalent(Occurrences(a.children, id)[i], Occurrences(a.children, id)[i])
      {
        assert Occurrences(a.children, id)[i] in a.children;
        EquivalentReflexive(Occurrences(a.children, id)[i]);
      }
    }
  }

  lemma {:induction false} EquivalentSymmetric(a: Message, b: Message)
    requires Equivalent(a, b)
    ensures Equivalent(b, a)
    decreases a
  {
    if a.Object? {
      forall id: nat, i | 0 <= i < Count(b.children, id) && i < Count(a.children, id)
        ensures Equivalent(Occurrences(b.children, id)[i], Occurrences(a.children, id)[i])
      {
        assert Occurrences(a.children, id)[i] in a.children;
        EquivalentSymmetric(Occurrences(a.children, id)[i], Occurrences(b.children, id)[i]);
      }
    }
  }

  lemma {:induction false} EquivalentTransitive(a: Message, b: Message, c: Message)
    requires Equivalent(a, b) && Equivalent(b, c)
    ensures Equivalent(a, c)
    decreases a
  {
    if a.Object? {
      forall id: nat, i | 0 <= i < Count(a.children, id) && i < Count(c.children, id)
        ensures Equivalent(Occurrences(a.children, id)[i], Occurrences(c.children, id)[i])
      {
        assert Occurrences(a.children, id)[i] in a.children;
        EquivalentTransitive(Occurrences(a.children, id)[i], Occurrences(b.children, id)[i], Occurrences(c.children, id)[i]);
      }
    }
  }

  // ---------------------------------------------------------------------------
  // Children of a projection and of a merged record
  // ---------------------------------------------------------------------------

  ghost function ProjectEach(ms: seq<Message>, paths: set<seq<nat>>): (r: seq<Message>)
    ensures |r| == |ms| && forall i :: 0 <= i < |r| ==> r[i] == Project(ms[i], paths)
  {
    seq(|ms|, i requires 0 <= i < |ms| => Project(ms[i], paths))
  }

  lemma {:induction false} ProjectOccurrences(ms: seq<Message>, paths: set<seq<nat>>, id: nat)
    ensures Occurrences(ProjectAll(ms, paths), id)
            == if [id] in paths then Occurrences(ms, id)
               else if Tails(paths, id) == {} then []
               else ProjectEach(Occurrences(ms, id), Tails(paths, id))
  {
    if ms != [] {
      ProjectOccurrences(ms[1..], paths, id);
      var rest := ProjectAll(ms[1..], paths);
      var m := ms[0];
      if [m.id] in paths {
        assert ([m] + rest)[1..] == rest;
      } else if Tails(paths, m.id) != {} {
        var p := Project(m, Tails(paths, m.id));
        assert ([p] + rest)[1..] == rest;
      }
    }
  }

  /** Merging a column touches only the children with the first id of its path. */
  lemma {:induction false} MergeFromElsewhere(ms: seq<Message>, occ: seq<Message>, j: nat, ids: seq<nat>, id: nat)
    requires |ids| > 1 && j <= |occ| && id != ids[0]
    ensures Occurrences(MergeFrom(ms, occ, j, ids), id) == Occurrences(ms, id)
    decreases |occ| - j
  {
    if j < |occ| {
      var x := Merge(Nth(ms, ids[0], j), occ[j], ids[1..]);
      PutNthOccurrences(ms, ids[0], j, x, id);
      MergeFromElsewhere(PutNth(ms, ids[0], j, x), occ, j + 1, ids, id);
    }
  }

  /** The i-th object of the message is merged into the i-th object of the record. */
  lemma {:induction false} MergeFromHere(ms: seq<Message>, occ: seq<Message>, j: nat, ids: seq<nat>, i: nat)
    requires |ids| > 1 && j <= |occ| && (j < |occ| ==> j <= Count(ms, ids[0])) && (i < Count(ms, ids[0]) || j <= i < |occ|)
    ensures var after := Occurrences(MergeFrom(ms, occ, j, ids), ids[0]);
            && |after| == (if j < |occ| && Count(ms, ids[0]) < |occ| then |occ| else Count(ms, ids[0]))
            && after[i] == if j <= i < |occ| then Merge(Nth(ms, ids[0], i), occ[i], ids[1..]) else Occurrences(ms, ids[0])[i]
    decreases |occ| - j
  {
    hide Merge, MergeFrom, PutNth, Nth, Occurrences;
    if j < |occ| {
      var id := ids[0];
      var x := Merge(Nth(ms, id, j), occ[j], ids[1..]);
      var ms' := PutNth(ms, id, j, x);
      MergeFromNext(ms, occ, j, ids);
      NthIs(ms, id, j);
      NthIs(ms, id, i);
      NthIs(ms', id, i);
      PutNthOccurrences(ms, id, j, x, id);
      assert Gap(id, 0) == [];
      MergeFromHere(ms', occ, j + 1, ids, i);
    } else {
      MergeFromEnd(ms, occ, ids);
    }
  }

  lemma {:induction false} MergeFromNext(ms: seq<Message>, occ: seq<Message>, j: nat, ids: seq<nat>)
    requires |ids| > 1 && j < |occ|
    ensures MergeFrom(ms, occ, j, ids)
         == MergeFrom(PutNth(ms, ids[0], j, Merge(Nth(ms, ids[0], j), occ[j], ids[1..])), occ, j + 1, ids)
  {
  }

  lemma {:induction false} MergeFromEnd(ms: seq<Message>, occ: seq<Message>, ids: seq<nat>)
    requires |ids| > 1
    ensures MergeFrom(ms, occ, |occ|, ids) == ms
  {
  }

  lemma {:induction false} NthIs(ms: seq<Message>, id: nat, n: nat)
    ensures Nth(ms, id, n) == if n < Count(ms, id) then Occurrences(ms, id)[n] else Object(id, [])
    ensures Nth(ms, id, n).id == id
  {
  }

  // ---------------------------------------------------------------------------
  // Loading one more column
  // ---------------------------------------------------------------------------

  /** Every step of the path but the last leads through objects of the message. */
  ghost predicate Reaches(o: Message, ids: seq<nat>)
    decreases |ids|
  {
    && o.Object?
    && (|ids| > 1 ==> forall i :: 0 <= i < Count(o.children, ids[0]) ==> Reaches(Occurrences(o.children, ids[0])[i], ids[1..]))
  }

  lemma {:induction false} TailsAdd(paths: set<seq<nat>>, p: seq<nat>, id: nat)
    requires p != []
    ensures Tails(paths + {p}, id) == if |p| > 1 && p[0] == id then Tails(paths, id) + {p[1..]} else Tails(paths, id)
  {
    forall q | q in Tails(paths + {p}, id)
      ensures q in (if |p| > 1 && p[0] == id then Tails(paths, id) + {p[1..]} else Tails(paths, id))
    {
      assert [id] + q in paths + {p};
      if [id] + q == p {
        assert p[1..] == q;
      }
    }
    if |p| > 1 && p[0] == id {
      assert [id] + p[1..] == p;
    }
  }

  lemma {:induction false} TailsPrefixFree(paths: set<seq<nat>>, id: nat)
    requires PrefixFree(paths)
    ensures PrefixFree(Tails(paths, id))
    ensures [id] in paths ==> Tails(paths, id) == {}
  {
    forall p, q | p in Tails(paths, id) && q in Tails(paths, id) && p <= q ensures p == q {
      assert [id] + p <= [id] + q;
    }
    forall p | p in Tails(paths, id) ensures [id] !in paths {
      assert [id] <= [id] + p;
    }
  }

  lemma {:induction false} ProjectNothing(ms: seq<Message>)
    ensures ProjectAll(ms, {}) == []
  {
    if ms != [] {
      ProjectNothing(ms[1..]);
      assert Tails({}, ms[0].id) == {};
    }
  }

  /** Loading a column turns the projection onto the loaded leaves into the projection onto one
      leaf more, whatever the order in which columns are loaded. */
  lemma {:induction false} MergeProjects(record: Message, o: Message, paths: set<seq<nat>>, p: seq<nat>)
    requires Reaches(o, p) && p !in paths && PrefixFree(paths + {p})
    requires Equivalent(record, Project(o, paths))
    ensures Equivalent(Merge(record, o, p), Project(o, paths + {p}))
    decreases |p|
  {
    var merged, target := Merge(record, o, p), Project(o, paths + {p});
    forall id: nat
      ensures Count(merged.children, id) == Count(target.children, id)
      ensures forall i :: 0 <= i < Count(merged.children, id) && i < Count(target.children, id) ==>
                Equivalent(Occurrences(merged.children, id)[i], Occurrences(target.children, id)[i])
    {
      if id != p[0] {
        MergeProjectsElsewhere(record, o, paths, p, id);
      } else if |p| == 1 {
        MergeProjectsLeaf(record, o, paths, p);
      } else {
        MergeProjectsInside(record, o, paths, p);
      }
    }
  }

  lemma {:induction false} MergeProjectsElsewhere(record: Message, o: Message, paths: set<seq<nat>>, p: seq<nat>, id: nat)
    requires p != [] && o.Object? && record.Object? && id != p[0]
    requires Equivalent(record, Project(o, paths))
    ensures var merged, target := Merge(record, o, p), Project(o, paths + {p});
            && Count(merged.children, id) == Count(target.children, id)
            && forall i :: 0 <= i < Count(merged.children, id) ==>
                 Equivalent(Occurrences(merged.children, id)[i], Occurrences(target.children, id)[i])
  {
    hide Merge, Project, Equivalent, Occurrences;
    MergeElsewhere(record, o, p, id);
    ProjectElsewhere(o, paths, p, id);
    EquivalentAt(record, Project(o, paths), id);
  }

  lemma {:induction false} MergeElsewhere(record: Message, o: Message, p: seq<nat>, id: nat)
    requires p != [] && record.Object? && id != p[0]
    ensures Occurrences(Merge(record, o, p).children, id) == Occurrences(record.children, id)
  {
    var occ := Occurrences(Kids(o), p[0]);
    if |p| == 1 {
      OccurrencesConcat(record.children, occ, id);
      OccurrencesOfOneId(occ, p[0], id);
    } else {
      MergeFromElsewhere(record.children, occ, 0, p, id);
    }
  }

  lemma {:induction false} ProjectElsewhere(o: Message, paths: set<seq<nat>>, p: seq<nat>, id: nat)
    requires p != [] && o.Object? && id != p[0]
    ensures Occurrences(Project(o, paths + {p}).children, id) == Occurrences(Project(o, paths).children, id)
  {
    ProjectOccurrences(o.children, paths, id);
    ProjectOccurrences(o.children, paths + {p}, id);
    TailsAdd(paths, p, id);
    assert p != [id];
  }

  lemma {:induction false} EquivalentAt(a: Message, b: Message, id: nat)
    requires a.Object? && Equivalent(a, b)
    ensures b.Object? && Count(a.children, id) == Count(b.children, id)
    ensures forall i :: 0 <= i < Count(a.children, id) ==>
              Equivalent(Occurrences(a.children, id)[i], Occurrences(b.children, id)[i])
  {
  }

  lemma {:induction false} MergeProjectsLeaf(record: Message, o: Message, paths: set<seq<nat>>, p: seq<nat>)
    requires |p| == 1 && Reaches(o, p) && p !in paths && PrefixFree(paths + {p})
    requires Equivalent(record, Project(o, paths))
    ensures var merged, target := Merge(record, o, p), Project(o, paths + {p});
            && Occurrences(merged.children, p[0]) == Occurrences(target.children, p[0])
            && forall i :: 0 <= i < Count(merged.children, p[0]) ==>
                 Equivalent(Occurrences(merged.children, p[0])[i], Occurrences(target.children, p[0])[i])
  {
    var id, occ := p[0], Occurrences(o.children, p[0]);
    assert p == [id];
    ProjectOccurrences(o.children, paths, id);
    ProjectOccurrences(o.children, paths + {p}, id);
    TailsPrefixFree(paths + {p}, id);
    TailsAdd(paths, p, id);
    OccurrencesConcat(record.children, occ, id);
    OccurrencesOfOneId(occ, id, id);
    assert Count(record.children, id) == 0;
    assert Occurrences(Merge(record, o, p).children, id) == occ;
    forall i | 0 <= i < |occ| ensures Equivalent(occ[i], occ[i]) {
      EquivalentReflexive(occ[i]);
    }
  }

  lemma {:induction false} MergeProjectsInside(record: Message, o: Message, paths: set<seq<nat>>, p: seq<nat>)
    requires |p| > 1 && Reaches(o, p) && p !in paths && PrefixFree(paths + {p})
    requires Equivalent(record, Project(o, paths))
    ensures var merged, target := Merge(record, o, p), Project(o, paths + {p});
            && Count(merged.children, p[0]) == Count(target.children, p[0])
            && forall i :: 0 <= i < Count(merged.children, p[0]) ==>
                 Equivalent(Occurrences(merged.children, p[0])[i], Occurrences(target.children, p[0])[i])
    decreases |p|, 1
  {
    var id, occ := p[0], Occurrences(o.children, p[0]);
    CountInside(record, o, paths, p);
    assert Count(Merge(record, o, p).children, id) == |occ| by {
      if occ != [] {
        MergeFromHere(record.children, occ, 0, p, 0);
      }
    }
    hide Merge, Project, Equivalent, Reaches, Tails;
    forall i | 0 <= i < |occ|
      ensures Equivalent(Occurrences(Merge(record, o, p).children, id)[i], Occurrences(Project(o, paths + {p}).children, id)[i])
    {
      MergeProjectsAt(record, o, paths, p, i);
    }
  }

  lemma {:induction false} MergeProjectsAt(record: Message, o: Message, paths: set<seq<nat>>, p: seq<nat>, i: nat)
    requires |p| > 1 && Reaches(o, p) && p !in paths && PrefixFree(paths + {p}) && i < Count(o.children, p[0])
    requires Equivalent(record, Project(o, paths))
    ensures var merged, target := Merge(record, o, p), Project(o, paths + {p});
            && Count(merged.children, p[0]) == Count(target.children, p[0]) == Count(o.children, p[0])
            && Equivalent(Occurrences(merged.children, p[0])[i], Occurrences(target.children, p[0])[i])
    decreases |p|, 0
  {
    hide *;
    InsideFacts(record, o, paths, p, i);
    BeforeInside(record, o, paths, p, i);
    MergeProjects(Nth(record.children, p[0], i), Occurrences(o.children, p[0])[i], Tails(paths, p[0]), p[1..]);
  }

  lemma {:induction false} InsideFacts(record: Message, o: Message, paths: set<seq<nat>>, p: seq<nat>, i: nat)
    requires |p| > 1 && Reaches(o, p) && p !in paths && PrefixFree(paths + {p}) && i < Count(o.children, p[0])
    requires Equivalent(record, Project(o, paths))
    ensures o.Object? && record.Object? && i < |Occurrences(o.children, p[0])| && [p[0]] !in paths
    ensures var merged, target := Merge(record, o, p), Project(o, paths + {p});
            var x := Occurrences(o.children, p[0])[i];
            && merged.Object? && target.Object?
            && Count(merged.children, p[0]) == Count(target.children, p[0]) == Count(o.children, p[0])
            && |Occurrences(merged.children, p[0])| == |Occurrences(target.children, p[0])| == |Occurrences(o.children, p[0])|
            && Occurrences(merged.children, p[0])[i] == Merge(Nth(record.children, p[0], i), x, p[1..])
            && Occurrences(target.children, p[0])[i] == Project(x, Tails(paths, p[0]) + {p[1..]})
            && Reaches(x, p[1..]) && p[1..] !in Tails(paths, p[0]) && PrefixFree(Tails(paths, p[0]) + {p[1..]})
  {
    hide PutNth, MergeFrom, Tails, PrefixFree, ProjectAll;
    CountInside(record, o, paths, p);
    MergeFromHere(record.children, Occurrences(o.children, p[0]), 0, p, i);
    assert [p[0]] + p[1..] == p;
  }

  lemma {:induction false} CountInside(record: Message, o: Message, paths: set<seq<nat>>, p: seq<nat>)
    requires |p| > 1 && Reaches(o, p) && p !in paths && PrefixFree(paths + {p})
    requires Equivalent(record, Project(o, paths))
    ensures var id := p[0];
            && [id] !in paths && PrefixFree(Tails(paths, id) + {p[1..]})
            && Count(record.children, id) == (if Tails(paths, id) == {} then 0 else Count(o.children, id))
            && Occurrences(Project(o, paths + {p}).children, id)
               == ProjectEach(Occurrences(o.children, id), Tails(paths, id) + {p[1..]})
  {
    var id := p[0];
    TailsPrefixFree(paths + {p}, id);
    TailsAdd(paths, p, id);
    assert p[1..] in Tails(paths + {p}, id);
    assert [id] !in paths + {p};
    ProjectOccurrences(o.children, paths, id);
    ProjectOccurrences(o.children, paths + {p}, id);
  }

  lemma {:induction false} BeforeInside(record: Message, o: Message, paths: set<seq<nat>>, p: seq<nat>, i: nat)
    requires |p| > 1 && Reaches(o, p) && [p[0]] !in paths && i < Count(o.children, p[0])
    requires Equivalent(record, Project(o, paths))
    ensures Equivalent(Nth(record.children, p[0], i), Project(Occurrences(o.children, p[0])[i], Tails(paths, p[0])))
  {
    var id, x := p[0], Occurrences(o.children, p[0])[i];
    ProjectOccurrences(o.children, paths, id);
    if Tails(paths, id) == {} {
      assert Count(record.children, id) == 0;
      ProjectNothing(x.children);
      EquivalentReflexive(Object(id, []));
    } else {
      assert Nth(record.children, id, i) == Occurrences(record.children, id)[i];
    }
  }
}
