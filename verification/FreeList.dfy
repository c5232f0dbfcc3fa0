/** The first-fit page freelist of libstx (`stx::io::PageManager`). */
module FreeList {
  import opened Messages

  datatype Page = Page(offset: nat, size: nat)

  /** `live` are the pages handed out and not returned. */
  datatype State = State(endPos: nat, free: seq<Page>, live: seq<Page>)

  datatype Action = Alloc(minSize: nat) | Free(i: nat)

  /** The request rounded up to whole blocks, in 64-bit arithmetic. */
  function Aligned(minSize: nat, blockSize: nat): nat
    requires blockSize > 0
  {
    var blocks := (minSize + blockSize - 1) % TWO_64 / blockSize;
    Times(blocks, blockSize)
  }

  function Times(k: nat, m: nat): nat { k * m }

  ghost predicate Multiple(n: nat, m: nat) { exists k: nat :: Times(k, m) == n }

  /** The first free page that is large enough; the length when there is none. */
  function FirstFit(free: seq<Page>, size: nat): (i: nat)
    ensures i <= |free|
    ensures i < |free| ==> free[i].size >= size
    ensures forall j :: 0 <= j < i ==> free[j].size < size
  {
    if free == [] || free[0].size >= size then 0 else 1 + FirstFit(free[1..], size)
  }

  function Without(ps: seq<Page>, i: nat): seq<Page>
    requires i < |ps|
  {
    ps[..i] + ps[i + 1..]
  }

  /** `allocPage` and `freePage`; only a live page is freed, with the size it was handed out with. */
  function Next(s: State, blockSize: nat, a: Action): State
    requires blockSize > 0
  {
    match a
    case Alloc(minSize) =>
      var size := Aligned(minSize, blockSize);
      var i := FirstFit(s.free, size);
      if i < |s.free| then State(s.endPos, Without(s.free, i), s.live + [s.free[i]])
      else State(s.endPos + size, s.free, s.live + [Page(s.endPos, size)])
    case Free(i) =>
      if i >= |s.live| then s else State(s.endPos, s.free + [s.live[i]], Without(s.live, i))
  }

  function Run(s: State, blockSize: nat, actions: seq<Action>): State
    requires blockSize > 0
  {
    if actions == [] then s else Next(Run(s, blockSize, actions[..|actions| - 1]), blockSize, actions[|actions| - 1])
  }

  class Manager {
    const blockSize: nat
    var endPos: nat
    var freelist: seq<Page>
    ghost var live: seq<Page>

    ghost function Now(): State
      reads this
    {
      State(endPos, freelist, live)
    }

    constructor (blockSize: nat, endPos: nat)
      requires blockSize > 0
      ensures this.blockSize == blockSize && Now() == State(endPos, [], [])
    {
      this.blockSize, this.endPos, freelist, live := blockSize, endPos, [], [];
    }

    method AllocPage(minSize: nat) returns (page: Page)
      requires blockSize > 0
      modifies this
      ensures Now() == Next(old(Now()), blockSize, Alloc(minSize))
      ensures live == old(live) + [page] && page.size >= Aligned(minSize, blockSize)
      ensures (forall i :: 0 <= i < |old(freelist)| ==> old(freelist)[i].size < Aligned(minSize, blockSize)) ==>
        page == Page(old(endPos), Aligned(minSize, blockSize)) && endPos == old(endPos) + page.size && freelist == old(freelist)
      ensures forall k :: (0 <= k < |old(freelist)| && old(freelist)[k].size >= Aligned(minSize, blockSize)
                           && forall i :: 0 <= i < k ==> old(freelist)[i].size < Aligned(minSize, blockSize)) ==>
        page == old(freelist)[k] && endPos == old(endPos) && freelist == old(freelist)[..k] + old(freelist)[k + 1..]
    {
      var blocks := (minSize + blockSize - 1) % TWO_64 / blockSize;
      var size := Times(blocks, blockSize);
      var free := FindFreePage(size);
      match free {
        case Some(p) => page := p;
        case None =>
          page := Page(endPos, size);
          endPos := endPos + page.size;
      }
      live := live + [page];
    }

    method FreePage(page: Page, ghost i: nat)
      requires i < |live| && live[i] == page && blockSize > 0
      modifies this
      ensures Now() == Next(old(Now()), blockSize, Free(i))
      ensures freelist == old(freelist) + [page] && live == old(live)[..i] + old(live)[i + 1..] && endPos == old(endPos)
    {
      freelist := freelist + [page];
      live := Without(live, i);
    }

    method FindFreePage(size: nat) returns (page: Option<Page>)
      modifies this`freelist
      ensures var i := FirstFit(old(freelist), size);
        if i < |old(freelist)| then page == Some(old(freelist)[i]) && freelist == Without(old(freelist), i)
        else page == None && freelist == old(freelist)
    {
      var i := 0;
      while i < |freelist|
        invariant 0 <= i <= |freelist| && freelist == old(freelist)
        invariant FirstFit(freelist, size) == i + FirstFit(freelist[i..], size)
      {
        if freelist[i].size >= size {
          page := Some(freelist[i]);
          freelist := freelist[..i] + freelist[i + 1..];
          return;
        }
        assert freelist[i..][1..] == freelist[i + 1..];
        i := i + 1;
      }
      page := None;
    }
  }

  // ---------------------------------------------------------------------------
  // The pages tile the space
  // ---------------------------------------------------------------------------

  predicate Holds(p: Page, pos: nat) { p.offset <= pos < p.offset + p.size }

  /** How many of the pages hold a byte. */
  function Hits(ps: seq<Page>, pos: nat): nat {
    if ps == [] then 0 else Hits(ps[..|ps| - 1], pos) + if Holds(ps[|ps| - 1], pos) then 1 else 0
  }

  /** Every byte between `start` and the end position belongs to exactly one page, live or free,
      and no byte outside does. */
  ghost predicate Tiles(s: State, start: nat) {
    start <= s.endPos
    && forall pos: nat :: Hits(s.live, pos) + Hits(s.free, pos) == if start <= pos < s.endPos then 1 else 0
  }

  ghost predicate BlockAligned(ps: seq<Page>, blockSize: nat) {
    forall i :: 0 <= i < |ps| ==> Multiple(ps[i].offset, blockSize) && Multiple(ps[i].size, blockSize)
  }

  lemma {:induction false} HitsSnoc(ps: seq<Page>, p: Page, pos: nat)
    ensures Hits(ps + [p], pos) == Hits(ps, pos) + if Holds(p, pos) then 1 else 0
  {
    assert (ps + [p])[..|ps|] == ps;
  }

  lemma {:induction false} HitsWithout(ps: seq<Page>, i: nat, pos: nat)
    requires i < |ps|
    ensures Hits(ps, pos) == Hits(Without(ps, i), pos) + if Holds(ps[i], pos) then 1 else 0
    decreases |ps|
  {
    var front, last := ps[..|ps| - 1], ps[|ps| - 1];
    if i == |front| {
      assert Without(ps, i) == front;
    } else {
      HitsWithout(front, i, pos);
      assert Without(ps, i) == Without(front, i) + [last];
      HitsSnoc(Without(front, i), last, pos);
    }
  }

  lemma {:induction false} NextTiles(s: State, start: nat, blockSize: nat, a: Action)
    requires blockSize > 0 && Tiles(s, start)
    ensures Tiles(Next(s, blockSize, a), start)
  {
    hide Hits, FirstFit, Aligned, Without;
    var t := Next(s, blockSize, a);
    forall pos: nat ensures Hits(t.live, pos) + Hits(t.free, pos) == if start <= pos < t.endPos then 1 else 0 {
      match a
      case Alloc(minSize) =>
        var i := FirstFit(s.free, Aligned(minSize, blockSize));
        HitsSnoc(s.live, t.live[|s.live|], pos);
        if i < |s.free| {
          HitsWithout(s.free, i, pos);
        }
      case Free(i) =>
        if i < |s.live| {
          HitsSnoc(s.free, s.live[i], pos);
          HitsWithout(s.live, i, pos);
        }
    }
  }

  lemma {:induction false} SumMultiple(a: nat, b: nat, m: nat)
    requires Multiple(a, m) && Multiple(b, m)
    ensures Multiple(a + b, m)
  {
    var i: nat :| Times(i, m) == a;
    var j: nat :| Times(j, m) == b;
    assert Times(i + j, m) == a + b;
  }

  lemma {:induction false} NextAligned(s: State, blockSize: nat, a: Action)
    requires blockSize > 0
    requires Multiple(s.endPos, blockSize) && BlockAligned(s.live, blockSize) && BlockAligned(s.free, blockSize)
    ensures var t := Next(s, blockSize, a);
      Multiple(t.endPos, blockSize) && BlockAligned(t.live, blockSize) && BlockAligned(t.free, blockSize)
  {
    hide Multiple, Times;
    if a.Alloc? {
      AlignedMultiple(a.minSize, blockSize);
      SumMultiple(s.endPos, Aligned(a.minSize, blockSize), blockSize);
    }
  }

  lemma {:induction false} AlignedMultiple(minSize: nat, blockSize: nat)
    requires blockSize > 0
    ensures Multiple(Aligned(minSize, blockSize), blockSize)
  {
  }

  /** Over every run of allocations and releases of live pages from an aligned start. */
  lemma {:induction false} EveryRun(start: nat, blockSize: nat, actions: seq<Action>)
    requires blockSize > 0 && Multiple(start, blockSize)
    ensures var s := Run(State(start, [], []), blockSize, actions);
      Tiles(s, start) && Multiple(s.endPos, blockSize)
      && BlockAligned(s.live, blockSize) && BlockAligned(s.free, blockSize)
    decreases |actions|
  {
    hide Tiles, Next, BlockAligned;
    if actions == [] {
      NothingTiles(start, blockSize);
    } else {
      EveryRun(start, blockSize, actions[..|actions| - 1]);
      var s := Run(State(start, [], []), blockSize, actions[..|actions| - 1]);
      NextTiles(s, start, blockSize, actions[|actions| - 1]);
      NextAligned(s, blockSize, actions[|actions| - 1]);
    }
  }

  lemma {:induction false} NothingTiles(start: nat, blockSize: nat)
    requires blockSize > 0
    ensures Tiles(State(start, [], []), start) && BlockAligned([], blockSize)
  {
  }

  lemma {:induction false} HitsTwice(ps: seq<Page>, i: nat, j: nat, pos: nat)
    requires i < j < |ps| && Holds(ps[i], pos) && Holds(ps[j], pos)
    ensures Hits(ps, pos) >= 2
  {
    HitsWithout(ps, j, pos);
    HitsWithout(Without(ps, j), i, pos);
  }

  lemma {:induction false} HitsConcat(a: seq<Page>, b: seq<Page>, pos: nat)
    ensures Hits(a + b, pos) == Hits(a, pos) + Hits(b, pos)
    decreases |b|
  {
    if b == [] {
      assert a + b == a;
    } else {
      HitsConcat(a, b[..|b| - 1], pos);
      assert a + b == a + b[..|b| - 1] + [b[|b| - 1]];
      HitsSnoc(a + b[..|b| - 1], b[|b| - 1], pos);
    }
  }

  /** So any two pages, live or free, are disjoint and lie between the start and the end. */
  lemma {:induction false} PagesDisjoint(s: State, start: nat, i: nat, j: nat)
    requires Tiles(s, start) && i < j < |s.live + s.free|
    ensures var p, q := (s.live + s.free)[i], (s.live + s.free)[j];
      (p.size == 0 || q.size == 0 || p.offset + p.size <= q.offset || q.offset + q.size <= p.offset)
      && (p.size > 0 ==> start <= p.offset && p.offset + p.size <= s.endPos)
  {
    hide Hits;
    var all := s.live + s.free;
    var p, q := all[i], all[j];
    forall pos: nat ensures Hits(all, pos) == if start <= pos < s.endPos then 1 else 0 {
      HitsConcat(s.live, s.free, pos);
    }
    if p.size > 0 {
      HitsWithout(all, i, p.offset);
      HitsWithout(all, i, p.offset + p.size - 1);
      if q.size > 0 {
        var pos := if p.offset < q.offset then q.offset else p.offset;
        if Holds(p, pos) && Holds(q, pos) {
          HitsTwice(all, i, j, pos);
          assert false;
        }
      }
    }
  }

  /** A request is rounded up to the next multiple of the block size if the sum does not wrap;
      if it does, the page has no bytes, so the size covers the request exactly when the sum does
      not wrap. */
  lemma {:induction false} AlignedCovers(minSize: nat, blockSize: nat)
    requires blockSize > 0 && minSize < TWO_64 && blockSize < TWO_64
    ensures Aligned(minSize, blockSize) >= minSize <==> minSize + blockSize - 1 < TWO_64
    ensures minSize + blockSize - 1 < TWO_64 ==> minSize <= Aligned(minSize, blockSize) < minSize + blockSize
    ensures minSize + blockSize - 1 >= TWO_64 ==> Aligned(minSize, blockSize) == 0
    ensures Multiple(Aligned(minSize, blockSize), blockSize)
  {
    var sum := (minSize + blockSize - 1) % TWO_64;
    var blocks := sum / blockSize;
    Rounded(sum, blockSize);
    assert Times(blocks, blockSize) == Aligned(minSize, blockSize);
    if minSize + blockSize - 1 >= TWO_64 {
      assert sum == minSize + blockSize - 1 - TWO_64 < blockSize;
      assert blocks == 0;
    }
  }

  lemma {:induction false} Rounded(n: nat, m: nat)
    requires m > 0
    ensures Times(n / m, m) <= n < Times(n / m, m) + m
  {
    assert n == n / m * m + n % m;
  }
}
