/** URL query strings (`URI::buildQueryString`, `URI::parseQueryString`) and the `$0`/`$1`
    substitution they are built with. A `char` below 256 stands for one byte. */
module UrlQuery {
  import opened Messages

  type ByteChar = c: char | c as int < 256 witness 'a'
  type Text = seq<ByteChar>

  datatype Param = Param(key: Text, value: Text)

  // ---------------------------------------------------------------------------
  // Percent encoding
  // ---------------------------------------------------------------------------

  predicate Unreserved(c: char) {
    'A' <= c <= 'Z' || 'a' <= c <= 'z' || '0' <= c <= '9' || c == '-' || c == '_' || c == '.' || c == '~'
  }

  function HexDigit(n: nat): ByteChar
    requires n < 16
  {
    "0123456789ABCDEF"[n]
  }

  predicate IsHex(c: char) { '0' <= c <= '9' || 'a' <= c <= 'f' || 'A' <= c <= 'F' }

  function HexValue(c: char): (n: nat)
    requires IsHex(c)
    ensures n < 16
  {
    if c <= '9' then c as nat - '0' as nat
    else if c <= 'F' then c as nat - 'A' as nat + 10
    else c as nat - 'a' as nat + 10
  }

  function EncodeChar(c: ByteChar): Text {
    if Unreserved(c) then [c] else ['%', HexDigit(c as nat / 16), HexDigit(c as nat % 16)]
  }

  function Encode(s: Text): Text {
    if s == [] then [] else EncodeChar(s[0]) + Encode(s[1..])
  }

  /** `urlDecode`: a `%` before two bytes that are not hexadecimal stands for itself, one with
      fewer than two bytes behind it raises. */
  function Decode(s: Text): Option<Text>
    decreases |s|
  {
    if s == [] then Some([])
    else if s[0] == '%' then
      if |s| < 3 then None
      else if IsHex(s[1]) && IsHex(s[2]) then Prepend((16 * HexValue(s[1]) + HexValue(s[2])) as char, Decode(s[3..]))
      else Prepend('%', Decode(s[1..]))
    else Prepend(if s[0] == '+' then ' ' else s[0], Decode(s[1..]))
  }

  function Prepend(c: ByteChar, t: Option<Text>): Option<Text> {
    if t.None? then None else Some([c] + t.value)
  }

  lemma {:induction false} EncodeSnoc(s: Text, c: ByteChar)
    ensures Encode(s + [c]) == Encode(s) + EncodeChar(c)
    decreases |s|
  {
    hide EncodeChar;
    if s == [] {
      assert [] + [c] == [c] && [c][1..] == [];
      assert EncodeChar(c) + [] == EncodeChar(c) == [] + EncodeChar(c);
    } else {
      EncodeSnoc(s[1..], c);
      assert (s + [c])[1..] == s[1..] + [c];
      assert EncodeChar(s[0]) + (Encode(s[1..]) + EncodeChar(c)) == EncodeChar(s[0]) + Encode(s[1..]) + EncodeChar(c);
    }
  }

  method UrlEncode(str: Text) returns (encoded: Text)
    ensures encoded == Encode(str)
  {
    hide HexDigit;
    encoded := [];
    for i := 0 to |str|
      invariant encoded == Encode(str[..i])
    {
      EncodeSnoc(str[..i], str[i]);
      assert str[..i + 1] == str[..i] + [str[i]];
      encoded := AppendEncoded(encoded, str[i]);
    }
    assert str[..|str|] == str;
  }

  method AppendEncoded(encoded: Text, c: ByteChar) returns (r: Text)
    ensures r == encoded + EncodeChar(c)
  {
    if Unreserved(c) {
      r := encoded + [c];
    } else {
      assert c as nat / 16 % 16 == c as nat / 16;
      r := encoded + ['%'];
      r := r + [HexDigit(c as nat / 16 % 16)];
      r := r + [HexDigit(c as nat % 16)];
    }
  }

  function Joined(a: Text, b: Option<Text>): Option<Text> { if b.None? then None else Some(a + b.value) }

  /** None where the source raises. */
  method UrlDecode(str: Text) returns (r: Option<Text>)
    ensures r == Decode(str)
  {
    hide HexValue, IsHex;
    var decoded: Text, begin := [], 0;
    assert str[0..] == str;
    assert Decode(str).Some? ==> [] + Decode(str).value == Decode(str).value;
    while begin != |str|
      invariant 0 <= begin <= |str| && Decode(str) == Joined(decoded, Decode(str[begin..]))
      decreases |str| - begin
    {
      ghost var rest, was := str[begin..], decoded;
      match str[begin] {
        case '%' =>
          begin := begin + 1;
          if begin + 2 > |str| {
            return None;
          }
          assert rest[1..] == str[begin..] && rest[3..] == str[begin + 2..];
          if !IsHex(str[begin]) || !IsHex(str[begin + 1]) {
            decoded := decoded + ['%'];
          } else {
            decoded := decoded + [(16 * HexValue(str[begin]) + HexValue(str[begin + 1])) as char];
            begin := begin + 2;
          }
        case '+' =>
          decoded := decoded + [' '];
          begin := begin + 1;
        case c =>
          decoded := decoded + [c];
          begin := begin + 1;
      }
      JoinedPrepend(was, decoded[|was|], Decode(str[begin..]));
      assert decoded == was + [decoded[|was|]];
      assert rest[|rest| - |str[begin..]|..] == str[begin..];
    }
    assert str[begin..] == [] && decoded + [] == decoded;
    r := Some(decoded);
  }

  lemma {:induction false} JoinedPrepend(a: Text, c: ByteChar, b: Option<Text>)
    ensures Joined(a, Prepend(c, b)) == Joined(a + [c], b)
  {
    if b.Some? {
      assert a + ([c] + b.value) == a + [c] + b.value;
    }
  }

  lemma {:induction false} HexBack(n: nat)
    requires n < 16
    ensures IsHex(HexDigit(n)) && HexValue(HexDigit(n)) == n
  {
  }

  lemma {:induction false} DecodeEncoded(s: Text)
    ensures Decode(Encode(s)) == Some(s)
    decreases |s|
  {
    hide HexValue, HexDigit, IsHex;
    if s != [] {
      DecodeEncoded(s[1..]);
      var c := s[0];
      var t, rest := Encode(s), Encode(s[1..]);
      if Unreserved(c) {
        assert t[0] == c && t[1..] == rest;
      } else {
        HexBack(c as nat / 16);
        HexBack(c as nat % 16);
        assert t[0] == '%' && t[1] == HexDigit(c as nat / 16) && t[2] == HexDigit(c as nat % 16) && t[3..] == rest;
      }
      assert [c] + s[1..] == s;
    }
  }

  /** An encoded text is made of unreserved characters and `%`. */
  predicate Encoded(s: Text) { forall i :: 0 <= i < |s| ==> Unreserved(s[i]) || s[i] == '%' }

  lemma {:induction false} EncodeIsEncoded(s: Text)
    ensures Encoded(Encode(s)) && (Encode(s) == [] <==> s == [])
    decreases |s|
  {
    hide EncodeChar;
    if s != [] {
      EncodeIsEncoded(s[1..]);
      CharIsEncoded(s[0]);
      var a, b := EncodeChar(s[0]), Encode(s[1..]);
      forall i | 0 <= i < |a + b| ensures Unreserved((a + b)[i]) || (a + b)[i] == '%' {
        assert (a + b)[i] == if i < |a| then a[i] else b[i - |a|];
      }
    }
  }

  lemma {:induction false} CharIsEncoded(c: ByteChar)
    ensures Encoded(EncodeChar(c)) && EncodeChar(c) != []
  {
  }

  // ---------------------------------------------------------------------------
  // format
  // ---------------------------------------------------------------------------

  /** The first position of the pattern, or the length when it does not occur. */
  function FindText(s: Text, pattern: Text): (i: nat)
    ensures i <= |s|
  {
    if s == [] || pattern <= s then 0 else 1 + FindText(s[1..], pattern)
  }

  function Replaced(s: Text, pattern: Text, replacement: Text): Text
    requires pattern != []
    decreases |s|
  {
    var i := FindText(s, pattern);
    if i == |s| then s else
    FoundAt(s, pattern);
    s[..i] + replacement + Replaced(s[i + |pattern|..], pattern, replacement)
  }

  lemma {:induction false} FoundAt(s: Text, pattern: Text)
    ensures var i := FindText(s, pattern); i < |s| ==> pattern <= s[i..]
    decreases |s|
  {
    if s != [] && !(pattern <= s) {
      FoundAt(s[1..], pattern);
      assert s[1..][FindText(s[1..], pattern)..] == s[FindText(s, pattern)..];
    }
  }

  lemma {:induction false} ReplaceOne(s: Text, cur: nat, pattern: Text, replacement: Text)
    requires pattern != [] && cur <= |s| && FindText(s[cur..], pattern) < |s[cur..]|
    ensures var at := cur + FindText(s[cur..], pattern);
      at + |pattern| <= |s|
      && s[..cur] + Replaced(s[cur..], pattern, replacement)
         == s[..at] + replacement + Replaced(s[at + |pattern|..], pattern, replacement)
  {
    hide *;
    var t, i := s[cur..], FindText(s[cur..], pattern);
    FoundAt(t, pattern);
    ReplacedStep(t, pattern, replacement);
    var rest := Replaced(t[i + |pattern|..], pattern, replacement);
    Slices(s, cur, i);
    Slices(s, cur, i + |pattern|);
    assert s[..cur] + (t[..i] + replacement + rest) == s[..cur] + t[..i] + replacement + rest;
  }

  lemma {:induction false} Slices(s: Text, cur: nat, i: nat)
    requires cur + i <= |s|
    ensures s[cur..][i..] == s[cur + i..] && s[..cur] + s[cur..][..i] == s[..cur + i]
  {
  }

  /** `whole` is what comes before `cur`, followed by the replacement of what comes after. */
  predicate Resumes(whole: Text, s: Text, cur: nat, pattern: Text, replacement: Text) {
    pattern != [] && cur <= |s| && whole == s[..cur] + Replaced(s[cur..], pattern, replacement)
  }

  lemma {:induction false} ResumesNext(whole: Text, s: Text, cur: nat, pattern: Text, replacement: Text)
    requires Resumes(whole, s, cur, pattern, replacement) && FindText(s[cur..], pattern) < |s[cur..]|
    ensures var at := cur + FindText(s[cur..], pattern);
      at + |pattern| <= |s|
      && var front := s[..at] + replacement;
      Resumes(whole, front + s[at + |pattern|..], |front|, pattern, replacement)
  {
    hide FindText, Replaced;
    ReplaceOne(s, cur, pattern, replacement);
    var at := cur + FindText(s[cur..], pattern);
    Cut(s[..at] + replacement, s[at + |pattern|..]);
  }

  lemma {:induction false} ResumesLast(whole: Text, s: Text, cur: nat, pattern: Text, replacement: Text)
    requires Resumes(whole, s, cur, pattern, replacement) && FindText(s[cur..], pattern) == |s[cur..]|
    ensures whole == s
  {
    ReplacedStep(s[cur..], pattern, replacement);
    assert s[..cur] + s[cur..] == s;
  }

  lemma {:induction false} ResumesFirst(s: Text, pattern: Text, replacement: Text)
    requires pattern != []
    ensures Resumes(Replaced(s, pattern, replacement), s, 0, pattern, replacement)
  {
    hide Replaced;
    Cut([], s);
    Cut([], Replaced(s, pattern, replacement));
  }

  /** `replaceAll`: replaced text is not searched again. */
  method ReplaceAll(str: Text, pattern: Text, replacement: Text) returns (r: Text)
    requires pattern != []
    ensures r == Replaced(str, pattern, replacement)
  {
    hide FindText, Replaced, Resumes;
    r := str;
    ghost var whole := Replaced(str, pattern, replacement);
    ReplacedStep(str, pattern, replacement);
    if |r| == 0 {
      return;
    }
    var cur: nat := 0;
    ResumesFirst(str, pattern, replacement);
    while cur + FindText(r[cur..], pattern) < |r|
      invariant cur <= |r| && Resumes(whole, r, cur, pattern, replacement)
      decreases |r| - cur
    {
      ResumesNext(whole, r, cur, pattern, replacement);
      cur := cur + FindText(r[cur..], pattern);
      var front, rest := r[..cur] + replacement, r[cur + |pattern|..];
      r := front + rest;
      cur := |front|;
    }
    ResumesLast(whole, r, cur, pattern, replacement);
  }

  lemma {:induction false} Cut(a: Text, b: Text)
    ensures (a + b)[..|a|] == a && (a + b)[|a|..] == b && (a == [] ==> a + b == b)
  {
  }

  lemma {:induction false} ReplacedStep(s: Text, pattern: Text, replacement: Text)
    requires pattern != []
    ensures var i := FindText(s, pattern);
      Replaced(s, pattern, replacement) ==
        if i == |s| || i + |pattern| > |s| then s
        else s[..i] + replacement + Replaced(s[i + |pattern|..], pattern, replacement)
  {
    FoundAt(s, pattern);
  }

  /** `format("$0=$1", a, b)`. */
  method FormatPair(a: Text, b: Text) returns (r: Text)
    ensures r == Replaced(Replaced("$0=$1", "$0", a), "$1", b)
  {
    r := ReplaceAll("$0=$1", "$0", a);
    r := ReplaceAll(r, "$1", b);
  }

  lemma {:induction false} FindBehind(front: Text, s: Text, pattern: Text)
    requires pattern != [] && pattern[0] !in front
    ensures FindText(front + s, pattern) == |front| + FindText(s, pattern)
    decreases |front|
  {
    if front == [] {
      assert front + s == s;
    } else {
      assert (front + s)[0] != pattern[0] && (front + s)[1..] == front[1..] + s;
      FindBehind(front[1..], s, pattern);
    }
  }

  /** The substitution is safe when the first argument holds no `$`. */
  lemma {:induction false} Formatted(a: Text, b: Text)
    requires '$' !in a
    ensures Replaced(Replaced("$0=$1", "$0", a), "$1", b) == a + "=" + b
  {
    hide FindText, Replaced;
    var s, t: Text := "$0=$1", "$1";
    FindNone();
    ReplacedStep(s, "$0", a);
    ReplacedStep("=$1", "$0", a);
    assert s[2..] == "=$1" && s[..0] == [];
    var r := a + "=" + t;
    assert [] + a + "=$1" == r;
    FindBehind(a + "=", t, "$1");
    ReplacedStep(r, "$1", b);
    assert r[..|a| + 1] == a + "=" && r[|a| + 3..] == [];
    ReplacedStep([], "$1", b);
    assert a + "=" + b + [] == a + "=" + b;
  }

  lemma {:induction false} FindNone()
    ensures FindText("$0=$1", "$0") == 0 && FindText("=$1", "$0") == 3 && FindText("$1", "$1") == 0 && FindText([], "$1") == 0
  {
    var s: Text := "=$1";
    assert s[1..] == "$1" && s[1..][1..] == "1" && s[1..][1..][1..] == [];
    var t: Text := "$1";
    assert t[1] != '0' && t[1..] == "1" && t[1..][1..] == [];
    assert FindText("$1", "$0") == 2;
  }

  // ---------------------------------------------------------------------------
  // Query strings
  // ---------------------------------------------------------------------------

  /** The first `=` or `&`. */
  function Mark(s: Text): (i: nat)
    ensures i <= |s|
  {
    if s == [] || s[0] == '=' || s[0] == '&' then 0 else 1 + Mark(s[1..])
  }

  /** `parseQueryString`; None where decoding raises. It stops at the first piece that has no
      key or no `=`. */
  function ParseQuery(q: Text): Option<seq<Param>>
    decreases |q|
  {
    var i := Mark(q);
    if i == 0 || i == |q| || q[i] != '=' then Some([]) else
    var rest := q[i + 1..];
    var j := Mark(rest);
    var key, value := Decode(q[..i]), Decode(rest[..j]);
    if key.None? || value.None? then None else
    var more := ParseQuery(if j < |rest| then rest[j + 1..] else []);
    if more.None? then None else Some([Param(key.value, value.value)] + more.value)
  }

  predicate IsMark(c: char) { c == '=' || c == '&' }

  predicate MarkFree(s: Text) { forall i :: 0 <= i < |s| ==> !IsMark(s[i]) }

  /** What follows a piece: nothing, or the mark that ends it. */
  predicate Tail(s: Text) { s == [] || IsMark(s[0]) }

  function AddPair(key: Text, value: Text, more: Option<seq<Param>>): Option<seq<Param>> {
    if Decode(key).None? || Decode(value).None? then None
    else Onto([Param(Decode(key).value, Decode(value).value)], more)
  }

  function Onto(ps: seq<Param>, more: Option<seq<Param>>): Option<seq<Param>> {
    if more.None? then None else Some(ps + more.value)
  }

  lemma {:induction false} MarkBehind(e: Text, s: Text)
    requires MarkFree(e) && Tail(s)
    ensures Mark(e + s) == |e|
    decreases |e|
  {
    if e == [] {
      assert e + s == s;
    } else {
      assert (e + s)[1..] == e[1..] + s;
      MarkBehind(e[1..], s);
    }
  }

  lemma {:induction false} ParsePair(key: Text, value: Text, tail: Text)
    requires key != [] && MarkFree(key) && MarkFree(value) && Tail(tail)
    ensures ParseQuery(key + ['='] + (value + tail)) ==
      AddPair(key, value, ParseQuery(if tail == [] then [] else tail[1..]))
  {
    hide Mark, Decode, MarkFree;
    var q, rest := key + ['='] + (value + tail), value + tail;
    assert q == key + (['='] + rest);
    MarkBehind(key, ['='] + rest);
    MarkBehind(value, tail);
    assert q[|key| + 1..] == rest && q[..|key|] == key && rest[..|value|] == value;
    assert tail != [] ==> rest[|value| + 1..] == tail[1..];
  }

  lemma {:induction false} ParseStops(key: Text, s: Text)
    requires MarkFree(key) && Tail(s) && (key == [] || s == [] || s[0] != '=')
    ensures ParseQuery(key + s) == Some([])
  {
    MarkBehind(key, s);
  }

  method FindMark(q: Text, from: nat) returns (cur: nat)
    requires from <= |q|
    ensures from <= cur <= |q| && MarkFree(q[from..cur]) && Tail(q[cur..])
  {
    cur := from;
    while cur < |q| && q[cur] != '=' && q[cur] != '&'
      invariant from <= cur <= |q| && forall i :: from <= i < cur ==> !IsMark(q[i])
    {
      cur := cur + 1;
    }
  }

  method ParseQueryString(query: Text) returns (params: Option<seq<Param>>)
    ensures params == ParseQuery(query)
  {
    hide Decode, ParseQuery, MarkFree, Tail;
    var ps: seq<Param>, begin, end := [], 0, |query|;
    assert query[0..] == query;
    OntoNothing(ParseQuery(query));
    while begin < end
      invariant begin <= end && end == |query|
      invariant ParseQuery(query) == Onto(ps, ParseQuery(query[begin..]))
      decreases end - begin
    {
      ghost var q, was := query[begin..], ps;
      var cur := FindMark(query, begin);
      var key := query[begin..cur];
      if cur > begin && cur < end && query[cur] == '=' {
        var val := cur + 1;
        cur := FindMark(query, val);
        var text := query[val..cur];
        ghost var tail := query[cur..];
        ParsePair(key, text, tail);
        assert q == key + ['='] + (text + tail);
        var k := UrlDecode(key);
        var v := Some([]);
        if cur > val {
          v := UrlDecode(text);
        } else {
          DecodeNothing(text);
        }
        if k.None? || v.None? {
          return None;
        }
        ps := ps + [Param(k.value, v.value)];
        begin := if cur < end then cur + 1 else end;
        assert query[begin..] == if tail == [] then [] else tail[1..];
        OntoOnto(was, Param(k.value, v.value), ParseQuery(query[begin..]));
      } else {
        ParseStops(key, query[cur..]);
        assert q == key + query[cur..] && ps + [] == ps;
        return Some(ps);
      }
    }
    ParseNothing();
    assert query[begin..] == [] && ps + [] == ps;
    params := Some(ps);
  }

  lemma {:induction false} ParseNothing()
    ensures ParseQuery([]) == Some([])
  {
  }

  lemma {:induction false} OntoNothing(more: Option<seq<Param>>)
    ensures Onto([], more) == more
  {
    if more.Some? {
      assert [] + more.value == more.value;
    }
  }

  lemma {:induction false} DecodeNothing(s: Text)
    requires s == []
    ensures Decode(s) == Some([])
  {
  }

  lemma {:induction false} OntoOnto(ps: seq<Param>, p: Param, more: Option<seq<Param>>)
    ensures Onto(ps, Onto([p], more)) == Onto(ps + [p], more)
  {
    if more.Some? {
      assert ps + ([p] + more.value) == ps + [p] + more.value;
    }
  }

  function Pair(p: Param): Text { Encode(p.key) + "=" + Encode(p.value) }

  function Build(ps: seq<Param>): Text {
    if ps == [] then [] else Pair(ps[0]) + if |ps| == 1 then [] else "&" + Build(ps[1..])
  }

  lemma {:induction false} BuildSnoc(ps: seq<Param>, p: Param)
    ensures Build(ps + [p]) == Build(ps) + (if ps == [] then [] else "&") + Pair(p)
    decreases |ps|
  {
    hide Pair;
    if ps == [] {
      assert ps + [p] == [p];
      assert Pair(p) + [] == [] + [] + Pair(p);
    } else {
      assert (ps + [p])[0] == ps[0] && (ps + [p])[1..] == ps[1..] + [p];
      BuildSnoc(ps[1..], p);
      if |ps| == 1 {
        assert Pair(ps[0]) + ("&" + Build([p])) == Pair(ps[0]) + [] + "&" + Pair(p);
      } else {
        assert Pair(ps[0]) + ("&" + (Build(ps[1..]) + "&" + Pair(p)))
            == Pair(ps[0]) + ("&" + Build(ps[1..])) + "&" + Pair(p);
      }
    }
  }

  method BuildQueryString(params: seq<Param>) returns (out: Text)
    ensures out == Build(params)
  {
    hide Encode, Encoded, Build, Replaced;
    out := [];
    BuildNothing();
    for i := 0 to |params|
      invariant out == Build(params[..i])
    {
      if i > 0 {
        out := out + "&";
      }
      var key := UrlEncode(params[i].key);
      var value := UrlEncode(params[i].value);
      var pair := FormatPair(key, value);
      NoDollar(params[i].key);
      Formatted(key, value);
      BuildSnoc(params[..i], params[i]);
      assert params[..i + 1] == params[..i] + [params[i]];
      out := out + pair;
    }
    assert params[..|params|] == params;
  }

  lemma {:induction false} BuildNothing()
    ensures Build([]) == []
  {
  }

  lemma {:induction false} NoDollar(s: Text)
    ensures '$' !in Encode(s)
  {
    EncodeIsEncoded(s);
  }

  /** The parameters before the first empty key. */
  function Keyed(ps: seq<Param>): seq<Param> {
    if ps == [] || ps[0].key == [] then [] else [ps[0]] + Keyed(ps[1..])
  }

  /** A built query string parses to the parameters before the first empty key, for all bytes in
      keys and values. */
  lemma {:induction false} BuiltIsParsed(ps: seq<Param>)
    ensures ParseQuery(Build(ps)) == Some(Keyed(ps))
    decreases |ps|
  {
    hide Encode, Decode, ParseQuery, MarkFree, Build;
    if ps == [] {
      ParseNothing();
      BuildNothing();
    } else {
      var k, v, tail := Encode(ps[0].key), Encode(ps[0].value), BuildTail(ps);
      BuildPieces(ps);
      EncodedMarkFree(ps[0].key);
      EncodedMarkFree(ps[0].value);
      DecodeEncoded(ps[0].key);
      DecodeEncoded(ps[0].value);
      if k == [] {
        assert [] + (['='] + (v + tail)) == [] + ['='] + (v + tail);
        ParseStops([], ['='] + (v + tail));
      } else {
        ParsePair(k, v, tail);
        BuiltIsParsed(ps[1..]);
      }
    }
  }

  function BuildTail(ps: seq<Param>): Text { if |ps| <= 1 then [] else "&" + Build(ps[1..]) }

  lemma {:induction false} BuildPieces(ps: seq<Param>)
    requires ps != []
    ensures Build(ps) == Encode(ps[0].key) + ['='] + (Encode(ps[0].value) + BuildTail(ps))
    ensures Tail(BuildTail(ps)) && (if BuildTail(ps) == [] then [] else BuildTail(ps)[1..]) == Build(ps[1..])
  {
    hide Encode;
  }

  lemma {:induction false} EncodedMarkFree(s: Text)
    ensures MarkFree(Encode(s)) && (Encode(s) == [] <==> s == [])
  {
    EncodeIsEncoded(s);
  }

  lemma {:induction false} KeyedAll(ps: seq<Param>)
    ensures |Keyed(ps)| <= |ps|
    ensures Keyed(ps) == ps <==> forall i :: 0 <= i < |ps| ==> ps[i].key != []
    decreases |ps|
  {
    if ps != [] {
      KeyedAll(ps[1..]);
      if ps[0].key != [] {
        assert Keyed(ps)[1..] == Keyed(ps[1..]);
        assert forall i :: 0 < i < |ps| ==> ps[i] == ps[1..][i - 1];
      }
    }
  }

  /** The parameter list comes back exactly when no key is empty. */
  lemma {:induction false} QueryRoundTripIff(ps: seq<Param>)
    ensures ParseQuery(Build(ps)) == Some(ps) <==> forall i :: 0 <= i < |ps| ==> ps[i].key != []
  {
    hide Build, ParseQuery;
    BuiltIsParsed(ps);
    KeyedAll(ps);
  }
}
