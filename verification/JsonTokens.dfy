/** The token vector `parseJSON` builds, whose begin tokens carry the number of tokens up to
    their matching end, and the lookups that jump over it by those sizes. */
module JsonTokens {
  import opened Messages
  import opened JsonText

  /** `JSONToken`; its size is 1 unless it opens a bracket. */
  datatype Token = Token(lex: Lexeme, size: nat)

  datatype Parse = Failed | Parse(toks: seq<Token>, stack: seq<nat>)

  predicate InRange(p: Parse) {
    p.Parse? ==> forall i :: 0 <= i < |p.stack| ==> p.stack[i] < |p.toks|
  }

  /** One token of the stream; a size is a 32-bit field. */
  function Step(p: Parse, l: Lexeme): (q: Parse)
    requires InRange(p)
    ensures InRange(q)
  {
    if p.Failed? then Failed else
    var toks := p.toks + [Token(l, 1)];
    match l
    case Open(_) => Parse(toks, p.stack + [|p.toks|])
    case Close(_) =>
      if p.stack == [] then Failed else
      var top := p.stack[|p.stack| - 1];
      Parse(toks[top := toks[top].(size := (|toks| - top) % TWO_32)], p.stack[..|p.stack| - 1])
    case _ => Parse(toks, p.stack)
  }

  function Run(p: Parse, ls: seq<Lexeme>): (q: Parse)
    requires InRange(p)
    decreases |ls|
  {
    if ls == [] then p else Run(Step(p, ls[0]), ls[1..])
  }

  const Start: Parse := Parse([], [])

  /** The token vector of a token stream; None when the brackets do not balance. */
  function Sizes(ls: seq<Lexeme>): Option<seq<Token>> {
    var p := Run(Start, ls);
    if p.Failed? || p.stack != [] then None else Some(p.toks)
  }

  lemma {:induction false} RunFailed(ls: seq<Lexeme>)
    ensures Run(Failed, ls) == Failed
    decreases |ls|
  {
    if ls != [] {
      RunFailed(ls[1..]);
    }
  }

  /** `parseJSON`; None when the source raises. */
  method ParseJSON(input: string) returns (r: Option<seq<Token>>)
    ensures r == match JsonText.Tokens(" " + input) case None => None case Some(ls) => Sizes(ls)
  {
    hide NextToken, Step;
    var json := new Tokenizer(input);
    var obj: seq<Token>, stack: seq<nat> := [], [];
    ghost var all := Tokens(" " + input);
    while true
      invariant fresh(json) && json.Valid() && InRange(Parse(obj, stack))
      invariant all.None? <==> Tokens(json.Rest()).None?
      invariant all.Some? ==> Run(Start, all.value) == Run(Parse(obj, stack), Tokens(json.Rest()).value)
      decreases |json.Rest()|
    {
      ghost var p := Parse(obj, stack);
      var token, raised := json.ReadNextToken();
      if raised {
        return None;
      }
      if token.None? {
        break;
      }
      var l := token.value;
      ghost var more := Tokens(json.Rest());
      assert all.Some? ==> ([l] + more.value)[1..] == more.value;
      obj, stack, raised := Append(obj, stack, l);
      if raised {
        if all.Some? {
          RunFailed(more.value);
        }
        return None;
      }
    }
    r := if stack != [] then None else Some(obj);
  }

  method Append(obj: seq<Token>, stack: seq<nat>, l: Lexeme) returns (obj': seq<Token>, stack': seq<nat>, raised: bool)
    requires InRange(Parse(obj, stack))
    ensures Step(Parse(obj, stack), l) == if raised then Failed else Parse(obj', stack')
  {
    obj', stack', raised := obj + [Token(l, 1)], stack, false;
    match l {
      case Open(_) =>
        stack' := stack' + [|obj'| - 1];
      case Close(_) =>
        if stack' == [] {
          raised := true;
        } else {
          var top := stack'[|stack'| - 1];
          obj' := obj'[top := obj'[top].(size := (|obj'| - top) % TWO_32)];
          stack' := stack'[..|stack'| - 1];
        }
      case _ =>
    }
  }

  // ---------------------------------------------------------------------------
  // Bracket trees
  // ---------------------------------------------------------------------------

  /** A bracket pair need not match in kind: `parseJSON` accepts "[}". */
  datatype Node = Leaf(l: Lexeme) | Branch(obj: bool, kids: seq<Node>, endObj: bool)

  predicate Proper(n: Node) {
    match n
    case Leaf(l) => !l.Open? && !l.Close?
    case Branch(_, kids, _) => AllProper(kids)
  }

  predicate AllProper(ns: seq<Node>) { ns == [] || (Proper(ns[0]) && AllProper(ns[1..])) }

  function Flat(n: Node): seq<Lexeme> {
    match n
    case Leaf(l) => [l]
    case Branch(obj, kids, endObj) => [Open(obj)] + FlatAll(kids) + [Close(endObj)]
  }

  function FlatAll(ns: seq<Node>): seq<Lexeme> {
    if ns == [] then [] else Flat(ns[0]) + FlatAll(ns[1..])
  }

  /** The tokens of a tree, every begin token spanning exactly to its own end. */
  function Sized(n: Node): (r: seq<Token>)
    ensures r != []
  {
    match n
    case Leaf(l) => [Token(l, 1)]
    case Branch(obj, kids, endObj) =>
      [Token(Open(obj), |SizedAll(kids)| + 2)] + SizedAll(kids) + [Token(Close(endObj), 1)]
  }

  function SizedAll(ns: seq<Node>): seq<Token> {
    if ns == [] then [] else Sized(ns[0]) + SizedAll(ns[1..])
  }

  lemma {:induction false} SameLength(n: Node)
    ensures |Flat(n)| == |Sized(n)| == Sized(n)[0].size
    decreases n, 1
  {
    if n.Branch? {
      SameLengths(n.kids);
    }
  }

  lemma {:induction false} SameLengths(ns: seq<Node>)
    ensures |FlatAll(ns)| == |SizedAll(ns)|
    decreases ns, 0
  {
    if ns != [] {
      SameLength(ns[0]);
      SameLengths(ns[1..]);
    }
  }

  lemma {:induction false} RunConcat(p: Parse, a: seq<Lexeme>, b: seq<Lexeme>)
    requires InRange(p)
    ensures InRange(Run(p, a)) && Run(p, a + b) == Run(Run(p, a), b)
    decreases |a|
  {
    hide Step;
    if a == [] {
      assert a + b == b;
    } else {
      assert (a + b)[1..] == a[1..] + b;
      RunConcat(Step(p, a[0]), a[1..], b);
    }
  }

  lemma {:induction false} RunOne(p: Parse, l: Lexeme)
    requires InRange(p)
    ensures Run(p, [l]) == Step(p, l)
  {
    assert [l][1..] == [];
  }

  lemma {:induction false} RunNode(p: Parse, n: Node)
    requires p.Parse? && InRange(p) && Proper(n) && |Flat(n)| < TWO_32
    ensures Run(p, Flat(n)) == Parse(p.toks + Sized(n), p.stack)
    decreases n, 1
  {
    hide Run, Step;
    match n
    case Leaf(l) =>
      RunOne(p, l);
      StepLeaf(p, l);
    case Branch(obj, kids, endObj) =>
      var p1 := Step(p, Open(obj));
      StepOpen(p, obj);
      RunNodes(p1, kids);
      var p2 := Parse(p1.toks + SizedAll(kids), p1.stack);
      RunOne(p, Open(obj));
      RunConcat(p, [Open(obj)], FlatAll(kids));
      RunConcat(p, [Open(obj)] + FlatAll(kids), [Close(endObj)]);
      RunOne(p2, Close(endObj));
      SameLengths(kids);
      StepClose(p, obj, SizedAll(kids), endObj);
  }

  lemma {:induction false} StepLeaf(p: Parse, l: Lexeme)
    requires p.Parse? && InRange(p) && !l.Open? && !l.Close?
    ensures Step(p, l) == Parse(p.toks + [Token(l, 1)], p.stack)
  {
  }

  lemma {:induction false} StepOpen(p: Parse, obj: bool)
    requires p.Parse? && InRange(p)
    ensures Step(p, Open(obj)) == Parse(p.toks + [Token(Open(obj), 1)], p.stack + [|p.toks|])
  {
  }

  lemma {:induction false} StepClose(p: Parse, obj: bool, inner: seq<Token>, endObj: bool)
    requires p.Parse? && InRange(p) && |inner| + 2 < TWO_32
    ensures var q := Parse(p.toks + [Token(Open(obj), 1)] + inner, p.stack + [|p.toks|]);
      InRange(q) && Step(q, Close(endObj)) ==
        Parse(p.toks + ([Token(Open(obj), |inner| + 2)] + inner + [Token(Close(endObj), 1)]), p.stack)
  {
    var q := Parse(p.toks + [Token(Open(obj), 1)] + inner, p.stack + [|p.toks|]);
    var toks := q.toks + [Token(Close(endObj), 1)];
    var top := |p.toks|;
    assert toks[top] == Token(Open(obj), 1);
    assert |toks| - top == |inner| + 2;
    assert toks[top := Token(Open(obj), |inner| + 2)]
        == p.toks + ([Token(Open(obj), |inner| + 2)] + inner + [Token(Close(endObj), 1)]);
    assert q.stack[..|q.stack| - 1] == p.stack;
  }

  lemma {:induction false} RunNodes(p: Parse, ns: seq<Node>)
    requires p.Parse? && InRange(p) && AllProper(ns) && |FlatAll(ns)| < TWO_32
    ensures Run(p, FlatAll(ns)) == Parse(p.toks + SizedAll(ns), p.stack)
    decreases ns, 0
  {
    hide Step, Sized, Flat, Proper;
    if ns == [] {
      assert p.toks + [] == p.toks;
    } else {
      RunNode(p, ns[0]);
      RunConcat(p, Flat(ns[0]), FlatAll(ns[1..]));
      var q := Parse(p.toks + Sized(ns[0]), p.stack);
      RunNodes(q, ns[1..]);
      assert p.toks + Sized(ns[0]) + SizedAll(ns[1..]) == p.toks + (Sized(ns[0]) + SizedAll(ns[1..]));
    }
  }

  /** The longest sequence of whole trees a token stream begins with, and what follows: nothing,
      a close bracket, or an open bracket that is never closed. */
  function Take(ls: seq<Lexeme>): (r: (seq<Node>, seq<Lexeme>))
    ensures |r.1| <= |ls|
    decreases |ls|
  {
    if ls == [] || ls[0].Close? then ([], ls)
    else if ls[0].Open? then
      var inner := Take(ls[1..]);
      if inner.1 == [] || !inner.1[0].Close? then ([], ls) else
      var after := Take(inner.1[1..]);
      ([Branch(ls[0].obj, inner.0, inner.1[0].obj)] + after.0, after.1)
    else
      var after := Take(ls[1..]);
      ([Leaf(ls[0])] + after.0, after.1)
  }

  /** What `Take` leaves: it cannot take anything from it. */
  predicate Stuck(ls: seq<Lexeme>) { Take(ls) == ([], ls) && (ls != [] ==> ls[0].Open? || ls[0].Close?) }

  predicate Splits(ls: seq<Lexeme>, ns: seq<Node>, rest: seq<Lexeme>) {
    AllProper(ns) && FlatAll(ns) + rest == ls && Stuck(rest)
  }

  lemma {:induction false} SplitMore(ls: seq<Lexeme>, n: Node, ns: seq<Node>, after: seq<Lexeme>, rest: seq<Lexeme>)
    requires Proper(n) && ls == Flat(n) + after && Splits(after, ns, rest)
    ensures Splits(ls, [n] + ns, rest)
  {
    hide Proper, Flat, Stuck;
    assert ([n] + ns)[1..] == ns;
    assert Flat(n) + (FlatAll(ns) + rest) == Flat(n) + FlatAll(ns) + rest;
  }

  lemma {:induction false} FlatBranch(obj: bool, ns: seq<Node>, endObj: bool, ls: seq<Lexeme>, rest: seq<Lexeme>)
    requires ls != [] && ls[0] == Open(obj) && rest != [] && rest[0] == Close(endObj)
    requires ls[1..] == FlatAll(ns) + rest
    ensures ls == Flat(Branch(obj, ns, endObj)) + rest[1..]
  {
    hide FlatAll;
    assert ls == [ls[0]] + ls[1..] && rest == [rest[0]] + rest[1..];
  }

  lemma {:induction false} TakeSplits(ls: seq<Lexeme>)
    ensures Splits(ls, Take(ls).0, Take(ls).1)
    decreases |ls|
  {
    hide Flat, Splits;
    if ls == [] || ls[0].Close? {
      SplitNone(ls);
    } else if ls[0].Open? {
      var inner := Take(ls[1..]);
      if inner.1 == [] || !inner.1[0].Close? {
        SplitNone(ls);
      } else {
        var after := Take(inner.1[1..]);
        TakeSplits(ls[1..]);
        TakeSplits(inner.1[1..]);
        SplitsMeans(ls[1..], inner.0, inner.1);
        FlatBranch(ls[0].obj, inner.0, inner.1[0].obj, ls, inner.1);
        SplitMore(ls, Branch(ls[0].obj, inner.0, inner.1[0].obj), after.0, inner.1[1..], after.1);
      }
    } else {
      var after := Take(ls[1..]);
      TakeSplits(ls[1..]);
      FlatLeaf(ls);
      SplitMore(ls, Leaf(ls[0]), after.0, ls[1..], after.1);
    }
  }

  lemma {:induction false} FlatLeaf(ls: seq<Lexeme>)
    requires ls != []
    ensures ls == Flat(Leaf(ls[0])) + ls[1..]
  {
  }

  lemma {:induction false} SplitsMeans(ls: seq<Lexeme>, ns: seq<Node>, rest: seq<Lexeme>)
    requires Splits(ls, ns, rest)
    ensures AllProper(ns) && ls == FlatAll(ns) + rest && Stuck(rest)
  {
  }

  lemma {:induction false} SplitNone(ls: seq<Lexeme>)
    requires Take(ls) == ([], ls) && (ls != [] ==> ls[0].Open? || ls[0].Close?)
    ensures Splits(ls, [], ls)
  {
    assert [] + ls == ls;
  }

  lemma {:induction false} RunTaken(p: Parse, ls: seq<Lexeme>)
    requires p.Parse? && InRange(p) && |ls| < TWO_32
    ensures var r := Take(ls); var q := Parse(p.toks + SizedAll(r.0), p.stack);
      InRange(q) && Run(p, ls) == Run(q, r.1) && Splits(ls, r.0, r.1)
  {
    hide Run, Take, Stuck;
    var r := Take(ls);
    TakeSplits(ls);
    RunNodes(p, r.0);
    RunConcat(p, FlatAll(r.0), r.1);
  }

  /** An open bracket that is never closed leaves the stack deeper than it was. */
  lemma {:induction false} Unclosed(p: Parse, ls: seq<Lexeme>)
    requires p.Parse? && InRange(p) && |ls| < TWO_32
    requires Stuck(ls) && ls != [] && ls[0].Open?
    ensures var q := Run(p, ls); q.Failed? || |q.stack| > |p.stack|
    decreases |ls|
  {
    hide SizedAll;
    var inner := Take(ls[1..]);
    var p1 := Step(p, ls[0]);
    assert ls[0] == Open(ls[0].obj);
    StepOpen(p, ls[0].obj);
    RunTaken(p1, ls[1..]);
    if inner.1 != [] {
      Unclosed(Parse(p1.toks + SizedAll(inner.0), p1.stack), inner.1);
    }
  }

  lemma {:induction false} CloseEmpty(p: Parse, ls: seq<Lexeme>)
    requires p.Parse? && p.stack == [] && ls != [] && ls[0].Close?
    ensures InRange(p) && Run(p, ls) == Failed
  {
    RunFailed(ls[1..]);
  }

  ghost predicate IsForest(ls: seq<Lexeme>, ns: seq<Node>) { AllProper(ns) && FlatAll(ns) == ls }

  /** A token stream is accepted exactly when it is a sequence of bracket trees, and then every
      begin token's size spans exactly to its matching end. */
  lemma {:induction false} AcceptsForests(ls: seq<Lexeme>, toks: seq<Token>)
    requires |ls| < TWO_32
    ensures Sizes(ls) == Some(toks) <==> exists ns :: IsForest(ls, ns) && SizedAll(ns) == toks
  {
    hide Run, Take, AllProper, FlatAll, SizedAll;
    if Sizes(ls) == Some(toks) {
      var r := Take(ls);
      RunTaken(Start, ls);
      var p := Parse(Start.toks + SizedAll(r.0), []);
      assert Start.toks + SizedAll(r.0) == SizedAll(r.0);
      if r.1 != [] {
        StuckHead(r.1);
        if r.1[0].Close? {
          CloseEmpty(p, r.1);
        } else {
          Unclosed(p, r.1);
        }
        assert false;
      }
      RunNone(p);
      assert IsForest(ls, r.0);
    }
    forall ns | IsForest(ls, ns) ensures Sizes(ls) == Some(SizedAll(ns)) {
      RunNodes(Start, ns);
      assert Start.toks + SizedAll(ns) == SizedAll(ns);
    }
  }

  lemma {:induction false} StuckHead(ls: seq<Lexeme>)
    requires Stuck(ls) && ls != []
    ensures ls[0].Open? || ls[0].Close?
  {
  }

  lemma {:induction false} RunNone(p: Parse)
    requires InRange(p)
    ensures Run(p, []) == p
  {
  }

  // ---------------------------------------------------------------------------
  // Lookups
  // ---------------------------------------------------------------------------

  datatype Result<T> = Ok(value: T) | Raised

  /** Where the tokens of the i-th child begin, counted from the first child. */
  function Offset(kids: seq<Node>, i: nat): nat
    requires i <= |kids|
  {
    |SizedAll(kids[..i])|
  }

  /** The tokens of `n` stand at a position of the vector. */
  ghost predicate Stands(toks: seq<Token>, at: nat, n: Node) {
    at + |Sized(n)| <= |toks| && toks[at..at + |Sized(n)|] == Sized(n)
  }

  lemma {:induction false} SizedConcat(a: seq<Node>, b: seq<Node>)
    ensures SizedAll(a + b) == SizedAll(a) + SizedAll(b)
    decreases |a|
  {
    hide Sized;
    if a == [] {
      assert a + b == b;
    } else {
      assert (a + b)[1..] == a[1..] + b;
      SizedConcat(a[1..], b);
    }
  }

  lemma {:induction false} Subrange(toks: seq<Token>, at: nat, t: seq<Token>, o: nat, k: nat)
    requires at + |t| <= |toks| && toks[at..at + |t|] == t && o + k <= |t|
    ensures toks[at + o..at + o + k] == t[o..o + k]
    ensures o < |t| ==> toks[at + o] == t[o]
  {
    var a, b := toks[at + o..at + o + k], t[o..o + k];
    forall i | 0 <= i < k ensures a[i] == b[i] {
      assert b[i] == t[o + i] == toks[at..at + |t|][o + i] == toks[at + (o + i)];
    }
  }

  lemma {:induction false} KidsOffset(kids: seq<Node>, i: nat)
    requires i < |kids|
    ensures Offset(kids, i + 1) == Offset(kids, i) + |Sized(kids[i])| <= |SizedAll(kids)|
    ensures SizedAll(kids)[Offset(kids, i)..Offset(kids, i + 1)] == Sized(kids[i])
  {
    hide Sized;
    SizedConcat(kids[..i], kids[i..]);
    assert kids[..i] + kids[i..] == kids;
    SizedConcat(kids[..i], [kids[i]]);
    assert kids[..i] + [kids[i]] == kids[..i + 1] && [kids[i]][1..] == [];
    assert kids[i..][1..] == kids[i + 1..];
  }

  lemma {:induction false} KidsEnd(kids: seq<Node>)
    ensures Offset(kids, |kids|) == |SizedAll(kids)|
  {
    assert kids[..|kids|] == kids;
  }

  /** The children of a node stand one after another behind its begin token, and then its end. */
  lemma {:induction false} KidStands(toks: seq<Token>, at: nat, n: Node, i: nat)
    requires n.Branch? && i <= |n.kids| && Stands(toks, at, n)
    ensures var pos := at + 1 + Offset(n.kids, i);
      toks[at] == Token(Open(n.obj), |Sized(n)|) && pos < at + |Sized(n)|
      && (if i < |n.kids| then
            Stands(toks, pos, n.kids[i]) && toks[pos].size == |Sized(n.kids[i])|
            && Offset(n.kids, i + 1) == Offset(n.kids, i) + |Sized(n.kids[i])|
          else pos == at + |Sized(n)| - 1 && toks[pos] == Token(Close(n.endObj), 1))
  {
    hide SizedAll, Offset;
    var kids, t, o := n.kids, Sized(n), Offset(n.kids, i);
    assert t == [Token(Open(n.obj), |SizedAll(kids)| + 2)] + SizedAll(kids) + [Token(Close(n.endObj), 1)];
    Subrange(toks, at, t, 0, 0);
    if i < |kids| {
      var k := |Sized(kids[i])|;
      KidsOffset(kids, i);
      Subrange(toks, at, t, 1 + o, k);
      assert t[1 + o..1 + o + k] == SizedAll(kids)[o..o + k];
      SameLength(kids[i]);
      assert t[1 + o..1 + o + k][0] == t[1 + o];
    } else {
      KidsEnd(kids);
      Subrange(toks, at, t, 1 + o, 0);
    }
  }

  /** An object has a value for every key, and keys are not brackets. */
  predicate Paired(kids: seq<Node>) {
    |kids| % 2 == 0 && forall i :: 0 <= i < |kids| && i % 2 == 0 ==> kids[i].Leaf?
  }

  /** The first key position, from `i` on, that holds the key; the length when there is none. */
  function KeyFrom(kids: seq<Node>, key: string, i: nat): (r: nat)
    requires i <= |kids| && i % 2 == 0 && |kids| % 2 == 0
    ensures i <= r <= |kids| && r % 2 == 0
    ensures r < |kids| ==> kids[r] == Leaf(Str(key))
    ensures forall j :: i <= j < r && j % 2 == 0 ==> kids[j] != Leaf(Str(key))
    decreases |kids| - i
  {
    if i == |kids| || kids[i] == Leaf(Str(key)) then i else KeyFrom(kids, key, i + 2)
  }

  /** Where the walk of a lookup ends: behind a matching key, at the end of the object or of the
      vector, or at a size read past the end. */
  datatype Walk = Match(at: nat) | NoMatch | PastEnd

  /** The walk of `objectLookup`: compare, step over one token, then over as many as its size. */
  function WalkFrom(toks: seq<Token>, cur: nat, oend: nat, end: nat, key: string): Walk
    requires end <= |toks|
    decreases end - cur
  {
    if cur >= end then NoMatch
    else if toks[cur].lex == Str(key) then Match(cur + 1)
    else if cur + 1 == oend then NoMatch
    else if cur + 1 >= end then PastEnd
    else WalkFrom(toks, cur + 1 + toks[cur + 1].size, oend, end, key)
  }

  /** `objectLookup` on any token vector. On an object found in the vector that pairs its keys
      with values: the value behind the first key of the object itself, never a nested key and
      never a value; `end` when there is none. */
  method ObjectLookup(toks: seq<Token>, begin: nat, end: nat, key: string, ghost n: Node) returns (r: Result<nat>)
    requires begin <= end <= |toks|
    requires begin < end && toks[begin].lex == Open(true) && begin + toks[begin].size <= end ==>
      WalkFrom(toks, begin + 1, begin + toks[begin].size, end, key) != PastEnd
    ensures
      if begin == end then r == Ok(end)
      else if toks[begin].lex != Open(true) then r == Raised
      else if begin + toks[begin].size > end then r == Ok(end)
      else r == match WalkFrom(toks, begin + 1, begin + toks[begin].size, end, key)
        case Match(at) => Ok(at)
        case _ => Ok(end)
    ensures begin < end && IsPaired(toks, begin, n) && begin + |Sized(n)| <= end ==>
      var i := KeyFrom(n.kids, key, 0);
      r == Ok(if i < |n.kids| then begin + 1 + Offset(n.kids, i + 1) else end)
      && (i < |n.kids| ==> Stands(toks, r.value, n.kids[i + 1]))
  {
    hide Sized, Offset, Stands;
    if begin == end {
      return Ok(end);
    }
    if IsPaired(toks, begin, n) && begin + |Sized(n)| <= end {
      PairedWalk(toks, begin, end, key, n);
    }
    if toks[begin].lex != Open(true) {
      return Raised;
    }
    var oend := begin + toks[begin].size;
    if oend > end {
      return Ok(end);
    }
    var cur := begin + 1;
    while cur < end
      invariant WalkFrom(toks, begin + 1, oend, end, key) == WalkFrom(toks, cur, oend, end, key)
      decreases end - cur
    {
      match toks[cur].lex {
        case Str(data) =>
          if data == key {
            return Ok(cur + 1);
          }
        case _ =>
      }
      cur := cur + 1;
      if cur == oend {
        break;
      }
      cur := cur + toks[cur].size;
    }
    r := Ok(end);
  }

  /** The vector holds an object that pairs its keys with values. */
  ghost predicate IsPaired(toks: seq<Token>, begin: nat, n: Node) {
    n.Branch? && n.obj && Paired(n.kids) && Stands(toks, begin, n)
  }

  lemma {:induction false} PairedStep(toks: seq<Token>, begin: nat, end: nat, key: string, n: Node, i: nat)
    requires IsPaired(toks, begin, n) && begin + |Sized(n)| <= end <= |toks| && i <= |n.kids| && i % 2 == 0
    ensures var oend := begin + |Sized(n)|;
      var j := KeyFrom(n.kids, key, i);
      WalkFrom(toks, begin + 1 + Offset(n.kids, i), oend, end, key) ==
        if j < |n.kids| then Match(begin + 1 + Offset(n.kids, j + 1)) else NoMatch
    decreases |n.kids| - i
  {
    hide Sized, Offset, Stands;
    KidStands(toks, begin, n, i);
    if i < |n.kids| {
      var cur := begin + 1 + Offset(n.kids, i);
      LeafStands(toks, cur, n.kids[i]);
      KidStands(toks, begin, n, i + 1);
      if n.kids[i] != Leaf(Str(key)) {
        KidStands(toks, begin, n, i + 2);
        PairedStep(toks, begin, end, key, n, i + 2);
      }
    }
  }

  /** On such an object the walk stays inside it and finds the first matching key. */
  lemma {:induction false} PairedWalk(toks: seq<Token>, begin: nat, end: nat, key: string, n: Node)
    requires IsPaired(toks, begin, n) && begin + |Sized(n)| <= end <= |toks|
    ensures begin < |toks| && toks[begin] == Token(Open(true), |Sized(n)|)
    ensures var i := KeyFrom(n.kids, key, 0);
      WalkFrom(toks, begin + 1, begin + |Sized(n)|, end, key) ==
        if i < |n.kids| then Match(begin + 1 + Offset(n.kids, i + 1)) else NoMatch
    ensures var i := KeyFrom(n.kids, key, 0);
      i < |n.kids| ==>
        begin + 1 + Offset(n.kids, i + 1) < begin + |Sized(n)|
        && Stands(toks, begin + 1 + Offset(n.kids, i + 1), n.kids[i + 1])
  {
    hide Sized, Offset, Stands;
    FirstOffset(n.kids);
    KidStands(toks, begin, n, 0);
    PairedStep(toks, begin, end, key, n, 0);
    var i := KeyFrom(n.kids, key, 0);
    if i < |n.kids| {
      KidStands(toks, begin, n, i + 1);
    }
  }

  /** An object with a key and no value, inside an array: the walk leaves it and finds a string
      of the array. `parseJSON` accepts the array. */
  lemma {:induction false} WalkLeavesObject()
    ensures var toks := [Token(Open(false), 7), Token(Open(true), 3), Token(Str("a"), 1), Token(Close(true), 1),
                         Token(Str("k"), 1), Token(Num("1"), 1), Token(Close(false), 1)];
      Sizes([Open(false), Open(true), Str("a"), Close(true), Str("k"), Num("1"), Close(false)]) == Some(toks)
      && toks[1].size == 3 && WalkFrom(toks, 2, 1 + 3, 7, "k") == Match(5)
  {
    hide Flat, Sized, Proper, WalkFrom, Sizes, Run, AllProper;
    var toks := [Token(Open(false), 7), Token(Open(true), 3), Token(Str("a"), 1), Token(Close(true), 1),
                 Token(Str("k"), 1), Token(Num("1"), 1), Token(Close(false), 1)];
    var outer := Branch(false, [Branch(true, [Leaf(Str("a"))], true), Leaf(Str("k")), Leaf(Num("1"))], false);
    OddTree();
    TreeSizes(outer);
    WalkOut(toks);
  }

  /** The tokens of one tree are accepted with its sizes. */
  lemma {:induction false} TreeSizes(n: Node)
    requires Proper(n) && |Flat(n)| < TWO_32
    ensures Sizes(Flat(n)) == Some(Sized(n))
  {
    hide Run, Flat, Sized, Proper;
    RunNode(Start, n);
    assert Start.toks + Sized(n) == Sized(n);
  }

  lemma {:induction false} WalkOut(toks: seq<Token>)
    requires |toks| == 7 && toks[2].lex == Str("a") && toks[3] == Token(Close(true), 1) && toks[4].lex == Str("k")
    ensures WalkFrom(toks, 2, 4, 7, "k") == Match(5)
  {
    hide WalkFrom;
    var two, four := 2, 4;
    WalkStep(toks, two, 4, 7, "k");
    WalkStep(toks, four, 4, 7, "k");
  }

  lemma {:induction false} WalkStep(toks: seq<Token>, cur: nat, oend: nat, end: nat, key: string)
    requires cur + 1 < end <= |toks|
    ensures WalkFrom(toks, cur, oend, end, key) ==
      if toks[cur].lex == Str(key) then Match(cur + 1)
      else if cur + 1 == oend then NoMatch
      else WalkFrom(toks, cur + 1 + toks[cur + 1].size, oend, end, key)
  {
  }

  lemma {:induction false} OddTree()
    ensures var outer := Branch(false, [Branch(true, [Leaf(Str("a"))], true), Leaf(Str("k")), Leaf(Num("1"))], false);
      Proper(outer)
      && Flat(outer) == [Open(false), Open(true), Str("a"), Close(true), Str("k"), Num("1"), Close(false)]
      && Sized(outer) == [Token(Open(false), 7), Token(Open(true), 3), Token(Str("a"), 1), Token(Close(true), 1),
                          Token(Str("k"), 1), Token(Num("1"), 1), Token(Close(false), 1)]
  {
    hide *;
    var a, k, one := Leaf(Str("a")), Leaf(Str("k")), Leaf(Num("1"));
    var inner := Branch(true, [a], true);
    assert [a] + [] == [a] && [one] + [] == [one] && [k] + [one] == [k, one] && [inner] + [k, one] == [inner, k, one];
    LeafTree(Str("a"));
    LeafTree(Str("k"));
    LeafTree(Num("1"));
    NoTrees();
    SizedNone();
    ConsTree(a, []);
    BranchTree(true, [a], true);
    ConsTree(one, []);
    ConsTree(k, [one]);
    ConsTree(inner, [k, one]);
    BranchTree(false, [inner, k, one], false);
  }

  lemma {:induction false} LeafTree(l: Lexeme)
    requires !l.Open? && !l.Close?
    ensures Proper(Leaf(l)) && Flat(Leaf(l)) == [l] && Sized(Leaf(l)) == [Token(l, 1)]
  {
  }

  lemma {:induction false} SizedNone()
    ensures SizedAll([]) == []
  {
  }

  lemma {:induction false} BranchTree(obj: bool, kids: seq<Node>, endObj: bool)
    requires AllProper(kids)
    ensures Proper(Branch(obj, kids, endObj)) && Flat(Branch(obj, kids, endObj)) == [Open(obj)] + FlatAll(kids) + [Close(endObj)]
    ensures Sized(Branch(obj, kids, endObj))
         == [Token(Open(obj), |SizedAll(kids)| + 2)] + SizedAll(kids) + [Token(Close(endObj), 1)]
  {
  }

  lemma {:induction false} ConsTree(n: Node, ns: seq<Node>)
    ensures FlatAll([n] + ns) == Flat(n) + FlatAll(ns) && SizedAll([n] + ns) == Sized(n) + SizedAll(ns)
    ensures AllProper([n] + ns) <==> Proper(n) && AllProper(ns)
  {
    hide Flat, Proper, Sized;
    assert ([n] + ns)[1..] == ns;
  }

  lemma {:induction false} FirstOffset(kids: seq<Node>)
    ensures Offset(kids, 0) == 0
  {
    assert kids[..0] == [];
  }

  lemma {:induction false} LeafStands(toks: seq<Token>, at: nat, n: Node)
    requires n.Leaf? && Stands(toks, at, n)
    ensures |Sized(n)| == 1 && toks[at].lex == n.l
  {
    assert toks[at..at + 1][0] == toks[at];
  }

  /** `arrayLength` counts the children, however deep each is. */
  method ArrayLength(toks: seq<Token>, begin: nat, end: nat, ghost n: Node) returns (r: Result<nat>)
    requires begin <= end <= |toks|
    requires begin < end && toks[begin].lex == Open(false) ==> n.Branch? && Stands(toks, begin, n)
    ensures
      if begin == end then r == Ok(0)
      else if toks[begin].lex != Open(false) || begin + |Sized(n)| - 1 > end then r == Raised
      else r == Ok(|n.kids|)
  {
    hide Sized, Offset, Stands;
    if begin == end {
      return Ok(0);
    }
    if toks[begin].lex != Open(false) {
      return Raised;
    }
    KidStands(toks, begin, n, 0);
    var aend := begin + toks[begin].size - 1;
    if aend > end {
      return Raised;
    }
    var length, cur := 0, begin + 1;
    FirstOffset(n.kids);
    while cur < aend
      invariant length <= |n.kids| && cur == begin + 1 + Offset(n.kids, length) <= aend
      decreases aend - cur
    {
      KidStands(toks, begin, n, length);
      KidStands(toks, begin, n, length + 1);
      cur := cur + toks[cur].size;
      length := length + 1;
    }
    KidStands(toks, begin, n, length);
    if length < |n.kids| {
      KidStands(toks, begin, n, length + 1);
    }
    r := Ok(length);
  }

  /** `arrayLookup` finds the tokens of the child with the given index. */
  method ArrayLookup(toks: seq<Token>, begin: nat, end: nat, index: nat, ghost n: Node) returns (r: Result<nat>)
    requires begin <= end <= |toks|
    requires begin < end && toks[begin].lex == Open(false) ==> n.Branch? && Stands(toks, begin, n)
    ensures
      if begin == end then r == Ok(end)
      else if toks[begin].lex != Open(false) || begin + |Sized(n)| - 1 > end || index >= |n.kids| then r == Raised
      else r == Ok(begin + 1 + Offset(n.kids, index)) && Stands(toks, r.value, n.kids[index])
  {
    hide Sized, Offset, Stands;
    if begin == end {
      return Ok(end);
    }
    if toks[begin].lex != Open(false) {
      return Raised;
    }
    KidStands(toks, begin, n, 0);
    var aend := begin + toks[begin].size - 1;
    if aend > end || begin == aend {
      KidStands(toks, begin, n, |n.kids|);
      return Raised;
    }
    var idx, cur := 0, begin + 1;
    FirstOffset(n.kids);
    while cur < aend
      invariant idx <= |n.kids| && idx <= index && cur == begin + 1 + Offset(n.kids, idx) <= aend
      decreases aend - cur
    {
      KidStands(toks, begin, n, idx);
      if idx == index {
        return Ok(cur);
      }
      KidStands(toks, begin, n, idx + 1);
      idx := idx + 1;
      cur := cur + toks[cur].size;
    }
    KidStands(toks, begin, n, idx);
    if idx < |n.kids| {
      KidStands(toks, begin, n, idx + 1);
    }
    r := Raised;
  }

  // ---------------------------------------------------------------------------
  // Documents
  // ---------------------------------------------------------------------------

  /** The bracket tree of a JSON value. */
  function NodeOf(j: Json): Node {
    match j
    case JArray(items) => Branch(false, ItemNodes(items), false)
    case JObject(members) => Branch(true, MemberNodes(members), true)
    case JString(s) => Leaf(Str(s))
    case JNumber(s) => Leaf(Num(s))
    case JTrue => Leaf(True)
    case JFalse => Leaf(False)
    case JNull => Leaf(Null)
  }

  function ItemNodes(items: seq<Json>): (r: seq<Node>)
    ensures |r| == |items|
  {
    if items == [] then [] else [NodeOf(items[0])] + ItemNodes(items[1..])
  }

  function MemberNodes(members: seq<Member>): (r: seq<Node>)
    ensures |r| == 2 * |members|
  {
    if members == [] then [] else
    [Leaf(Str(members[0].key)), NodeOf(members[0].value)] + MemberNodes(members[1..])
  }

  lemma {:induction false} ValueTree(j: Json)
    ensures Proper(NodeOf(j)) && Flat(NodeOf(j)) == Lexemes(j)
    decreases j, 1
  {
    match j
    case JArray(items) => ItemTrees(items);
    case JObject(members) => MemberTrees(members);
    case _ =>
  }

  lemma {:induction false} ItemTrees(items: seq<Json>)
    ensures AllProper(ItemNodes(items)) && FlatAll(ItemNodes(items)) == ItemLexemes(items)
    decreases items, 0
  {
    hide Flat, Lexemes, Proper, NodeOf;
    if items != [] {
      ValueTree(items[0]);
      ItemTrees(items[1..]);
      assert ItemNodes(items)[1..] == ItemNodes(items[1..]);
    }
  }

  lemma {:induction false} MemberTrees(members: seq<Member>)
    ensures AllProper(MemberNodes(members)) && FlatAll(MemberNodes(members)) == MemberLexemes(members)
    decreases members, 0
  {
    hide Lexemes, NodeOf, Flat, FlatAll, Proper, AllProper, MemberNodes, MemberLexemes;
    MemberFirst(members);
    if members == [] {
      NoTrees();
    } else {
      var key, value, rest := Leaf(Str(members[0].key)), NodeOf(members[0].value), MemberNodes(members[1..]);
      ValueTree(members[0].value);
      MemberTrees(members[1..]);
      KeyTree(members[0].key);
      ConsTree(value, rest);
      ConsTree(key, [value] + rest);
      assert Flat(key) + (Flat(value) + FlatAll(rest)) == Flat(key) + Flat(value) + FlatAll(rest);
    }
  }

  lemma {:induction false} MemberFirst(members: seq<Member>)
    ensures if members == [] then MemberNodes(members) == [] && MemberLexemes(members) == [] else
      MemberNodes(members) == [Leaf(Str(members[0].key))] + ([NodeOf(members[0].value)] + MemberNodes(members[1..]))
      && MemberLexemes(members) == [Str(members[0].key)] + Lexemes(members[0].value) + MemberLexemes(members[1..])
  {
    hide NodeOf, Lexemes;
  }

  lemma {:induction false} NoTrees()
    ensures AllProper([]) && FlatAll([]) == []
  {
  }

  lemma {:induction false} KeyTree(key: string)
    ensures Proper(Leaf(Str(key))) && Flat(Leaf(Str(key))) == [Str(key)]
  {
  }

  lemma {:induction false} MembersAt(members: seq<Member>, m: nat)
    requires m < |members|
    ensures MemberNodes(members)[2 * m] == Leaf(Str(members[m].key))
    ensures MemberNodes(members)[2 * m + 1] == NodeOf(members[m].value)
    decreases m
  {
    hide NodeOf;
    if m > 0 {
      MembersAt(members[1..], m - 1);
    }
  }

  /** A printed value parses to its sized tree, numbers read back as strings. */
  lemma {:induction false} PrintedParses(j: Json)
    requires |Lexemes(j)| < TWO_32
    ensures var text := PutAll(Printed([], ""), Lexemes(j)).out;
      JsonText.Tokens(" " + text) == Some(Lexemes(ReadBack(j)))
      && Sizes(Lexemes(ReadBack(j))) == Some(Sized(NodeOf(ReadBack(j))))
  {
    hide Sizes, Sized, Lexemes, PutAll, ReadBack;
    PrintedIsReadBack(j);
    ValueTokensBack(j);
    ValueSized(ReadBack(j));
  }

  /** The tokens of a value are accepted, each sized by the value it begins. */
  lemma {:induction false} ValueSized(j: Json)
    requires |Lexemes(j)| < TWO_32
    ensures Sizes(Lexemes(j)) == Some(Sized(NodeOf(j)))
  {
    hide Run, Sized, Flat, Lexemes, Proper;
    var n := NodeOf(j);
    ValueTree(j);
    RunNode(Start, n);
    assert Start.toks + Sized(n) == Sized(n);
  }

  /** In a document, `objectLookup`'s answer is the value of the first member with that key. */
  lemma {:induction false} FirstMember(members: seq<Member>, key: string, m: nat)
    requires m <= |members| && (m < |members| ==> members[m].key == key)
    requires forall k :: 0 <= k < m ==> members[k].key != key
    ensures Paired(MemberNodes(members)) && KeyFrom(MemberNodes(members), key, 0) == 2 * m
    ensures m < |members| ==> MemberNodes(members)[2 * m + 1] == NodeOf(members[m].value)
  {
    hide NodeOf, MemberNodes;
    var kids := MemberNodes(members);
    forall i | 0 <= i < |kids| && i % 2 == 0 ensures kids[i] == Leaf(Str(members[i / 2].key)) {
      MembersAt(members, i / 2);
    }
    if m < |members| {
      MembersAt(members, m);
    }
    assert KeyFrom(kids, key, 0) >= 2 * m;
  }
}
