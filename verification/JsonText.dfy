/** JSON text: the stack-driven printer (`JSONOutputStream`) and the tokenizer
    (`JSONInputStream`). A `char` stands for one byte. */
module JsonText {
  import opened Messages

  /** `kTokenType` with its data; `obj` tells braces from brackets. */
  datatype Lexeme = Open(obj: bool) | Close(obj: bool) | Str(data: string) | Num(data: string) | True | False | Null

  datatype Json =
    | JString(s: string)
    | JNumber(s: string)
    | JTrue
    | JFalse
    | JNull
    | JArray(items: seq<Json>)
    | JObject(members: seq<Member>)

  datatype Member = Member(key: string, value: Json)

  /** The token vector of a value. */
  function Lexemes(j: Json): seq<Lexeme> {
    match j
    case JString(s) => [Str(s)]
    case JNumber(s) => [Num(s)]
    case JTrue => [True]
    case JFalse => [False]
    case JNull => [Null]
    case JArray(items) => [Open(false)] + ItemLexemes(items) + [Close(false)]
    case JObject(members) => [Open(true)] + MemberLexemes(members) + [Close(true)]
  }

  function ItemLexemes(items: seq<Json>): seq<Lexeme> {
    if items == [] then [] else Lexemes(items[0]) + ItemLexemes(items[1..])
  }

  function MemberLexemes(members: seq<Member>): seq<Lexeme> {
    if members == [] then [] else [Str(members[0].key)] + Lexemes(members[0].value) + MemberLexemes(members[1..])
  }

  // ---------------------------------------------------------------------------
  // Escapes
  // ---------------------------------------------------------------------------

  function HexDigit(n: nat): char
    requires n < 16
  {
    "0123456789abcdef"[n]
  }

  const Backspace := '\U{0008}'
  const FormFeed := '\U{000C}'

  function EscapeChar(c: char): string {
    if c == Backspace then "\\b"
    else if c == '\t' then "\\t"
    else if c == '\n' then "\\n"
    else if c == FormFeed then "\\f"
    else if c == '\r' then "\\r"
    else if c < ' ' then "\\u00" + [HexDigit(c as nat / 16), HexDigit(c as nat % 16)]
    else if c == '"' then "\\\""
    else if c == '\\' then "\\\\"
    else [c]
  }

  function Escape(s: string): string {
    if s == "" then "" else EscapeChar(s[0]) + Escape(s[1..])
  }

  lemma {:induction false} EscapeSnoc(s: string, c: char)
    ensures Escape(s + [c]) == Escape(s) + EscapeChar(c)
    decreases |s|
  {
    if s == "" {
      assert "" + [c] == [c];
      assert EscapeChar(c) + "" == EscapeChar(c);
    } else {
      EscapeSnoc(s[1..], c);
      assert (s + [c])[1..] == s[1..] + [c];
      assert EscapeChar(s[0]) + (Escape(s[1..]) + EscapeChar(c)) == EscapeChar(s[0]) + Escape(s[1..]) + EscapeChar(c);
    }
  }

  method EscapeString(s: string) returns (escaped: string)
    ensures escaped == Escape(s)
  {
    escaped := "";
    var i := 0;
    while i < |s|
      invariant 0 <= i <= |s| && escaped == Escape(s[..i])
    {
      EscapeSnoc(s[..i], s[i]);
      assert s[..i + 1] == s[..i] + [s[i]];
      escaped := escaped + EscapeChar(s[i]);
      i := i + 1;
    }
    assert s[..i] == s;
  }

  function Quoted(s: string): string { "\"" + Escape(s) + "\"" }

  // ---------------------------------------------------------------------------
  // The printer
  // ---------------------------------------------------------------------------

  /** The text of a value, by structure. */
  function Render(j: Json): string {
    match j
    case JString(s) => Quoted(s)
    case JNumber(s) => Quoted(s)
    case JTrue => "true"
    case JFalse => "false"
    case JNull => "null"
    case JArray(items) => "[" + RenderItems(items, true) + "]"
    case JObject(members) => "{" + RenderMembers(members, true) + "}"
  }

  function RenderItems(items: seq<Json>, first: bool): string {
    if items == [] then "" else
    (if first then "" else ",") + Render(items[0]) + RenderItems(items[1..], false)
  }

  function RenderMembers(members: seq<Member>, first: bool): string {
    if members == [] then "" else
    (if first then "" else ",") + Quoted(members[0].key) + ":" + Render(members[0].value)
    + RenderMembers(members[1..], false)
  }

  /** An entry of `stack_`: which bracket is open, and how many values were written in it. */
  datatype Frame = Frame(obj: bool, count: nat)

  datatype Printed = Printed(stack: seq<Frame>, out: string)

  function Bumped(stack: seq<Frame>): seq<Frame> {
    if stack == [] then [] else
    var top := stack[|stack| - 1];
    stack[..|stack| - 1] + [top.(count := top.count + 1)]
  }

  function Separator(stack: seq<Frame>): string {
    if stack == [] || stack[|stack| - 1].count == 0 then ""
    else if stack[|stack| - 1].obj && stack[|stack| - 1].count % 2 == 1 then ":"
    else ","
  }

  function Word(l: Lexeme): string {
    match l
    case Open(obj) => if obj then "{" else "["
    case Close(obj) => if obj then "}" else "]"
    case Str(s) => Quoted(s)
    case Num(s) => Quoted(s)
    case True => "true"
    case False => "false"
    case Null => "null"
  }

  function Put(p: Printed, l: Lexeme): Printed {
    match l
    case Close(_) =>
      Printed(Bumped(if p.stack == [] then [] else p.stack[..|p.stack| - 1]), p.out + Word(l))
    case Open(obj) =>
      Printed(p.stack + [Frame(obj, 0)], p.out + Separator(p.stack) + Word(l))
    case _ =>
      Printed(Bumped(p.stack), p.out + Separator(p.stack) + Word(l))
  }

  function PutAll(p: Printed, ls: seq<Lexeme>): Printed
    decreases |ls|
  {
    if ls == [] then p else PutAll(Put(p, ls[0]), ls[1..])
  }

  class Printer {
    var stack: seq<Frame>
    var output: string

    ghost function Now(): Printed
      reads this
    {
      Printed(stack, output)
    }

    constructor ()
      ensures Now() == Printed([], "")
    {
      stack, output := [], "";
    }

    method Count()
      modifies this`stack
      ensures stack == Bumped(old(stack))
    {
      if stack != [] {
        var top := stack[|stack| - 1];
        stack := stack[..|stack| - 1] + [top.(count := top.count + 1)];
      }
    }

    method AddString(s: string)
      modifies this`output
      ensures output == old(output) + Quoted(s)
    {
      var escaped := EscapeString(s);
      output := output + "\"";
      output := output + escaped;
      output := output + "\"";
    }

    method AddSeparator()
      modifies this`output
      ensures output == old(output) + Separator(stack)
    {
      if stack != [] && stack[|stack| - 1].count > 0 {
        if !stack[|stack| - 1].obj || stack[|stack| - 1].count % 2 == 0 {
          output := output + ",";
        } else {
          output := output + ":";
        }
      }
    }

    method EmplaceBack(l: Lexeme)
      modifies this
      ensures Now() == Put(old(Now()), l)
    {
      hide Bumped, Separator, Quoted, PutAll;
      if l.Close? {
        output := output + if l.obj then "}" else "]";
        if stack != [] {
          stack := stack[..|stack| - 1];
        }
        Count();
        return;
      }
      AddSeparator();
      match l {
        case Open(obj) =>
          output := output + if obj then "{" else "[";
          stack := stack + [Frame(obj, 0)];
        case Str(s) =>
          AddString(s);
          Count();
        case Num(s) =>
          AddString(s);
          Count();
        case True =>
          output := output + "true";
          Count();
        case False =>
          output := output + "false";
          Count();
        case Null =>
          output := output + "null";
          Count();
      }
    }

    method Write(ls: seq<Lexeme>)
      modifies this
      ensures Now() == PutAll(old(Now()), ls)
    {
      hide Put;
      var i := 0;
      while i < |ls|
        invariant 0 <= i <= |ls|
        invariant PutAll(Now(), ls[i..]) == PutAll(old(Now()), ls)
      {
        assert ls[i..][1..] == ls[i + 1..];
        EmplaceBack(ls[i]);
        i := i + 1;
      }
    }
  }

  lemma {:induction false} PutConcat(p: Printed, a: seq<Lexeme>, b: seq<Lexeme>)
    ensures PutAll(p, a + b) == PutAll(PutAll(p, a), b)
    decreases |a|
  {
    hide Put;
    if a == [] {
      assert a + b == b;
    } else {
      assert (a + b)[1..] == a[1..] + b;
      PutConcat(Put(p, a[0]), a[1..], b);
    }
  }

  /** A value written where `p` stands: its separator, its text, one more value counted. */
  function Written(p: Printed, text: string): Printed {
    Printed(Bumped(p.stack), p.out + Separator(p.stack) + text)
  }

  lemma {:induction false} PutOne(p: Printed, l: Lexeme)
    ensures PutAll(p, [l]) == Put(p, l)
  {
    assert [l][1..] == [];
  }

  lemma {:induction false} PutBracketed(p: Printed, obj: bool, inner: seq<Lexeme>, text: string, n: nat)
    requires var begun := Put(p, Open(obj));
      PutAll(begun, inner) == Printed(p.stack + [Frame(obj, n)], begun.out + text)
    ensures PutAll(p, [Open(obj)] + inner + [Close(obj)]) == Written(p, Word(Open(obj)) + text + Word(Close(obj)))
  {
    hide PutAll, Bumped, Separator;
    PutConcat(p, [Open(obj)] + inner, [Close(obj)]);
    PutConcat(p, [Open(obj)], inner);
    PutOne(p, Open(obj));
    PutOne(PutAll(Put(p, Open(obj)), inner), Close(obj));
    assert (p.stack + [Frame(obj, n)])[..|p.stack|] == p.stack;
    assert p.out + Separator(p.stack) + Word(Open(obj)) + text + Word(Close(obj))
        == p.out + Separator(p.stack) + (Word(Open(obj)) + text + Word(Close(obj)));
  }

  /** The printer driven by its stack writes exactly the rendering by structure, wherever it stands. */
  lemma {:induction false} PrintsValue(p: Printed, j: Json)
    ensures PutAll(p, Lexemes(j)) == Written(p, Render(j))
    decreases j, 1
  {
    hide PutAll, Bumped, Separator, Quoted;
    match j
    case JArray(items) =>
      var begun := Put(p, Open(false));
      PrintsItems(begun, p.stack, items, 0);
      PutBracketed(p, false, ItemLexemes(items), RenderItems(items, true), |items|);
    case JObject(members) =>
      var begun := Put(p, Open(true));
      PrintsMembers(begun, p.stack, members, 0);
      PutBracketed(p, true, MemberLexemes(members), RenderMembers(members, true), 2 * |members|);
    case _ => PutOne(p, Lexemes(j)[0]);
  }

  lemma {:induction false} PrintsItems(p: Printed, below: seq<Frame>, items: seq<Json>, n: nat)
    requires p.stack == below + [Frame(false, n)]
    ensures PutAll(p, ItemLexemes(items)) ==
      Printed(below + [Frame(false, n + |items|)], p.out + RenderItems(items, n == 0))
    decreases items, 0
  {
    hide PutAll, Render, Lexemes;
    if items == [] {
      PutNone(p);
      assert p.out + "" == p.out;
    } else {
      PrintsValue(p, items[0]);
      PutConcat(p, Lexemes(items[0]), ItemLexemes(items[1..]));
      var q := Written(p, Render(items[0]));
      assert q.stack == below + [Frame(false, n + 1)];
      PrintsItems(q, below, items[1..], n + 1);
      assert p.out + Separator(p.stack) + Render(items[0]) + RenderItems(items[1..], false)
          == p.out + (Separator(p.stack) + Render(items[0]) + RenderItems(items[1..], false));
    }
  }

  lemma {:induction false} PutNone(p: Printed)
    ensures PutAll(p, []) == p
  {
  }

  lemma {:induction false} PrintsMembers(p: Printed, below: seq<Frame>, members: seq<Member>, n: nat)
    requires p.stack == below + [Frame(true, 2 * n)]
    ensures PutAll(p, MemberLexemes(members)) ==
      Printed(below + [Frame(true, 2 * n + 2 * |members|)], p.out + RenderMembers(members, n == 0))
    decreases members, 0
  {
    hide PutAll, Render, Lexemes, Quoted, Put, Written;
    if members == [] {
      PutNone(p);
      assert p.out + "" == p.out;
    } else {
      var key, value := members[0].key, members[0].value;
      var sep := if n == 0 then "" else ",";
      var q := Put(p, Str(key));
      PutOne(p, Str(key));
      PrintsValue(q, value);
      var r := Written(q, Render(value));
      MemberWritten(p, below, key, Render(value), n);
      PrintsMembers(r, below, members[1..], n + 1);
      PutConcat(p, [Str(key)] + Lexemes(value), MemberLexemes(members[1..]));
      PutConcat(p, [Str(key)], Lexemes(value));
      var tail := RenderMembers(members[1..], false);
      assert p.out + sep + Quoted(key) + ":" + Render(value) + tail
          == p.out + (sep + Quoted(key) + ":" + Render(value) + tail);
    }
  }

  lemma {:induction false} MemberWritten(p: Printed, below: seq<Frame>, key: string, text: string, n: nat)
    requires p.stack == below + [Frame(true, 2 * n)]
    ensures Written(Put(p, Str(key)), text) ==
      Printed(below + [Frame(true, 2 * (n + 1))], p.out + (if n == 0 then "" else ",") + Quoted(key) + ":" + text)
  {
    hide Quoted;
    var q := Put(p, Str(key));
    assert q.stack == below + [Frame(true, 2 * n + 1)];
    assert q.stack[..|q.stack| - 1] == below;
  }

  // ---------------------------------------------------------------------------
  // The tokenizer
  // ---------------------------------------------------------------------------

  datatype Lexed = NoToken | Malformed | Lexed(l: Lexeme, rest: string)

  function Drop(t: string, n: nat): string { if |t| < n then "" else t[n..] }

  predicate InNumber(c: char) { c == '-' || c == '+' || c == '.' || '0' <= c <= '9' || c == 'e' || c == 'E' }

  /** A number ends at the first byte that is neither part of a number nor a space. */
  function NumberAt(t: string, sofar: string): (r: (string, string))
    ensures |r.1| <= |t| && (t != "" && InNumber(t[0]) ==> |r.1| < |t|)
    decreases |t|
  {
    if t != "" && InNumber(t[0]) then NumberAt(t[1..], sofar + [t[0]])
    else if t != "" && t[0] == ' ' then NumberAt(t[1..], sofar)
    else (sofar, t)
  }

  function Unescape(c: char): Option<string> {
    match c
    case '"' => Some("\"")
    case '\\' => Some("\\")
    case '/' => Some("/")
    case 'b' => Some([Backspace])
    case 'f' => Some([FormFeed])
    case 'n' => Some("\n")
    case 'r' => Some("\r")
    case 't' => Some("\t")
    case 'u' => Some("")
    case _ => None
  }

  /** The string whose opening quote has been passed; `\u` and its four digits are dropped. */
  function StringAt(t: string, sofar: string): (r: Option<(string, string)>)
    ensures r.Some? ==> |r.value.1| < |t|
    decreases |t|
  {
    if t == "" || t[0] == '\0' then None
    else if t[0] == '"' then Some((sofar, t[1..]))
    else if t[0] != '\\' then StringAt(t[1..], sofar + [t[0]])
    else if |t| == 1 || Unescape(t[1]).None? then None
    else StringAt(Drop(t, if t[1] == 'u' then 6 else 2), sofar + Unescape(t[1]).value)
  }

  function Keyword(t: string, word: string, l: Lexeme): Lexed {
    if word <= t then Lexed(l, t[|word|..]) else Malformed
  }

  /** `readNextToken` on the bytes from the cursor on. */
  function NextToken(t: string): (r: Lexed)
    ensures r.Lexed? ==> |r.rest| < |t|
    decreases |t|
  {
    if t == "" || t[0] == '\0' then NoToken
    else if t[0] == '{' then Lexed(Open(true), t[1..])
    else if t[0] == '}' then Lexed(Close(true), t[1..])
    else if t[0] == '[' then Lexed(Open(false), t[1..])
    else if t[0] == ']' then Lexed(Close(false), t[1..])
    else if t[0] in {':', ',', ' ', '\n', '\r'} then NextToken(t[1..])
    else if t[0] == '-' || '0' <= t[0] <= '9' then
      var r := NumberAt(t, ""); Lexed(Num(r.0), r.1)
    else if t[0] == '"' then
      var r := StringAt(t[1..], "");
      if r.None? then Malformed else Lexed(Str(r.value.0), r.value.1)
    else if t[0] == 't' then Keyword(t, "true", True)
    else if t[0] == 'f' then Keyword(t, "false", False)
    else if t[0] == 'n' then Keyword(t, "null", Null)
    else Malformed
  }

  /** All tokens of a text. */
  function Tokens(t: string): Option<seq<Lexeme>>
    decreases |t|
  {
    match NextToken(t)
    case NoToken => Some([])
    case Malformed => None
    case Lexed(l, rest) =>
      var more := Tokens(rest);
      if more.None? then None else Some([l] + more.value)
  }

  class Tokenizer {
    const input: string
    var pos: nat
    var cur: char
    ghost var eof: bool

    ghost predicate Valid()
      reads this
    {
      pos <= |input| && (eof ==> pos == |input| && cur == '\0')
    }

    /** The bytes from the cursor on. */
    ghost function Rest(): string
      requires Valid()
      reads this
    {
      if eof then "" else [cur] + input[pos..]
    }

    constructor (input: string)
      ensures Valid() && Rest() == " " + input && this.input == input
    {
      this.input, pos, cur, eof := input, 0, ' ', false;
      new;
      assert input[0..] == input;
    }

    method AdvanceCursor()
      requires Valid()
      modifies this
      ensures Valid() && Rest() == Drop(old(Rest()), 1)
    {
      if pos < |input| {
        cur, pos := input[pos], pos + 1;
      } else {
        cur, eof := '\0', true;
      }
    }

    method ReadNumber() returns (data: string)
      requires Valid()
      modifies this
      ensures Valid() && (data, Rest()) == NumberAt(old(Rest()), "")
    {
      data := "";
      while InNumber(cur) || cur == ' '
        invariant Valid()
        invariant NumberAt(Rest(), data) == NumberAt(old(Rest()), "")
        decreases |Rest()|
      {
        if cur != ' ' {
          data := data + [cur];
        }
        AdvanceCursor();
      }
    }

    method SkipDigits()
      requires Valid()
      modifies this
      ensures Valid() && Rest() == Drop(old(Rest()), 4)
    {
      AdvanceCursor();
      AdvanceCursor();
      AdvanceCursor();
      AdvanceCursor();
    }

    /** None when the source raises. */
    method ReadString() returns (data: Option<string>)
      requires Valid()
      modifies this
      ensures Valid()
      ensures match StringAt(Drop(old(Rest()), 1), "")
        case None => data == None
        case Some(r) => data == Some(r.0) && Rest() == r.1
    {
      var dst := "";
      while true
        invariant Valid()
        invariant StringAt(Drop(Rest(), 1), dst) == StringAt(Drop(old(Rest()), 1), "")
        decreases |Rest()|
      {
        AdvanceCursor();
        match cur {
          case '\\' =>
            AdvanceCursor();
            var c := Unescape(cur);
            if c.None? {
              return None;
            }
            dst := dst + c.value;
            if cur == 'u' {
              SkipDigits();
            }
          case '"' =>
            AdvanceCursor();
            return Some(dst);
          case '\0' =>
            return None;
          case _ =>
            dst := dst + [cur];
        }
      }
    }

    /** `expectString`: false when the source raises. */
    method ExpectString(word: string) returns (ok: bool)
      requires Valid() && !eof && word != ""
      modifies this
      ensures Valid() && ok == (word <= old(Rest()))
      ensures ok ==> Rest() == old(Rest())[|word|..]
    {
      var n := |word| - 1;
      if n > |input| - pos {
        n := |input| - pos;
      }
      var str := [cur] + input[pos..pos + n];
      assert str == Rest()[..n + 1];
      pos := pos + n;
      ok := str == word;
      if ok {
        AdvanceCursor();
      }
    }

    /** `token` is None at the end of the tokens or, when `raised`, where the source raises. */
    method ReadNextToken() returns (token: Option<Lexeme>, raised: bool)
      requires Valid()
      modifies this
      ensures Valid()
      ensures match NextToken(old(Rest()))
        case NoToken => token == None && !raised
        case Malformed => token == None && raised
        case Lexed(l, rest) => token == Some(l) && !raised && Rest() == rest
    {
      hide NumberAt, StringAt;
      raised := false;
      while cur in {':', ',', ' ', '\n', '\r'}
        invariant Valid() && NextToken(Rest()) == NextToken(old(Rest()))
        decreases |Rest()|
      {
        AdvanceCursor();
      }
      if cur in {'{', '}', '[', ']'} {
        token := Some(if cur == '{' then Open(true) else if cur == '}' then Close(true)
                      else if cur == '[' then Open(false) else Close(false));
        AdvanceCursor();
      } else if cur == '-' || '0' <= cur <= '9' {
        var data := ReadNumber();
        token := Some(Num(data));
      } else if cur == '"' {
        var data := ReadString();
        raised := data.None?;
        token := if raised then None else Some(Str(data.value));
      } else if cur == 't' || cur == 'f' || cur == 'n' {
        var word := if cur == 't' then "true" else if cur == 'f' then "false" else "null";
        var l := if cur == 't' then True else if cur == 'f' then False else Null;
        var ok := ExpectString(word);
        raised := !ok;
        token := if ok then Some(l) else None;
      } else {
        raised := cur != '\0';
        token := None;
      }
    }
  }

  // ---------------------------------------------------------------------------
  // Reading back what was printed
  // ---------------------------------------------------------------------------

  /** Control characters without a short escape are printed as `\u00XX`. */
  predicate Dropped(c: char) { c < ' ' && c !in {Backspace, '\t', '\n', FormFeed, '\r'} }

  function Kept(s: string): string {
    if s == "" then "" else if Dropped(s[0]) then Kept(s[1..]) else [s[0]] + Kept(s[1..])
  }

  /** What comes back: numbers as strings, and strings without the dropped characters. */
  function ReadBack(j: Json): Json {
    match j
    case JString(s) => JString(Kept(s))
    case JNumber(s) => JString(Kept(s))
    case JArray(items) => JArray(ReadBackItems(items))
    case JObject(members) => JObject(ReadBackMembers(members))
    case _ => j
  }

  function ReadBackItems(items: seq<Json>): (r: seq<Json>) {
    if items == [] then [] else [ReadBack(items[0])] + ReadBackItems(items[1..])
  }

  function ReadBackMembers(members: seq<Member>): (r: seq<Member>) {
    if members == [] then [] else
    [Member(Kept(members[0].key), ReadBack(members[0].value))] + ReadBackMembers(members[1..])
  }

  function Before(ls: seq<Lexeme>, more: Option<seq<Lexeme>>): Option<seq<Lexeme>> {
    if more.None? then None else Some(ls + more.value)
  }

  lemma {:induction false} CharRead(c: char, rest: string, sofar: string)
    ensures StringAt(EscapeChar(c) + rest, sofar) ==
      StringAt(rest, if Dropped(c) then sofar else sofar + [c])
  {
    var t := EscapeChar(c) + rest;
    if |EscapeChar(c)| == 6 {
      assert Drop(t, 6) == rest;
      assert sofar + "" == sofar;
    } else if |EscapeChar(c)| == 2 {
      assert Drop(t, 2) == rest;
    } else {
      assert t[1..] == rest;
    }
  }

  lemma {:induction false} StringRead(s: string, rest: string, sofar: string)
    ensures StringAt(Escape(s) + ("\"" + rest), sofar) == Some((sofar + Kept(s), rest))
    decreases |s|
  {
    hide EscapeChar, Dropped;
    if s == "" {
      assert "" + ("\"" + rest) == "\"" + rest && ("\"" + rest)[1..] == rest;
      assert sofar + "" == sofar;
    } else {
      var tail := Escape(s[1..]) + ("\"" + rest);
      assert Escape(s) + ("\"" + rest) == EscapeChar(s[0]) + tail;
      CharRead(s[0], tail, sofar);
      var next := if Dropped(s[0]) then sofar else sofar + [s[0]];
      StringRead(s[1..], rest, next);
      assert next + Kept(s[1..]) == sofar + Kept(s);
    }
  }

  lemma {:induction false} QuotedRead(s: string, rest: string)
    ensures Tokens(Quoted(s) + rest) == Before([Str(Kept(s))], Tokens(rest))
  {
    hide Escape, Kept, StringAt;
    var t := Quoted(s) + rest;
    StringRead(s, rest, "");
    assert t[1..] == Escape(s) + ("\"" + rest);
    assert "" + Kept(s) == Kept(s);
    assert NextToken(t) == Lexed(Str(Kept(s)), rest);
  }

  lemma {:induction false} MarkRead(c: char, rest: string)
    requires c in {'{', '}', '[', ']', ',', ':', ' '}
    ensures Tokens([c] + rest) ==
      if c in {',', ':', ' '} then Tokens(rest)
      else Before([if c in {'{', '['} then Open(c == '{') else Close(c == '}')], Tokens(rest))
  {
    assert ([c] + rest)[1..] == rest;
  }

  lemma {:induction false} WordRead(l: Lexeme, rest: string)
    requires l == True || l == False || l == Null
    ensures Tokens(Word(l) + rest) == Before([l], Tokens(rest))
  {
    var t := Word(l) + rest;
    assert Word(l) <= t && t[|Word(l)|..] == rest;
    assert NextToken(t) == Lexed(l, rest);
  }

  lemma {:induction false} BeforeBefore(a: seq<Lexeme>, b: seq<Lexeme>, more: Option<seq<Lexeme>>)
    ensures Before(a, Before(b, more)) == Before(a + b, more)
  {
    if more.Some? {
      assert a + (b + more.value) == a + b + more.value;
    }
  }

  lemma {:induction false} BracketsRead(obj: bool, text: string, inner: seq<Lexeme>, rest: string)
    requires Tokens(text + (Word(Close(obj)) + rest)) == Before(inner, Tokens(Word(Close(obj)) + rest))
    ensures Tokens(Word(Open(obj)) + text + Word(Close(obj)) + rest) ==
      Before([Open(obj)] + inner + [Close(obj)], Tokens(rest))
  {
    hide Tokens, Before;
    var open, close := Word(Open(obj)), Word(Close(obj));
    assert open + text + close + rest == [open[0]] + (text + (close + rest));
    MarkRead(open[0], text + (close + rest));
    assert close + rest == [close[0]] + rest;
    MarkRead(close[0], rest);
    BeforeBefore(inner, [Close(obj)], Tokens(rest));
    BeforeBefore([Open(obj)], inner + [Close(obj)], Tokens(rest));
    assert [Open(obj)] + (inner + [Close(obj)]) == [Open(obj)] + inner + [Close(obj)];
  }

  /** Tokenizing a rendering gives the tokens of the value read back, whatever follows. */
  lemma {:induction false} ValueRead(j: Json, rest: string)
    ensures Tokens(Render(j) + rest) == Before(Lexemes(ReadBack(j)), Tokens(rest))
    decreases j, 1
  {
    hide Tokens, Quoted, Kept, Before;
    match j
    case JString(s) => QuotedRead(s, rest);
    case JNumber(s) => QuotedRead(s, rest);
    case JTrue => WordRead(True, rest);
    case JFalse => WordRead(False, rest);
    case JNull => WordRead(Null, rest);
    case JArray(items) =>
      ItemsRead(items, true, Word(Close(false)) + rest);
      BracketsRead(false, RenderItems(items, true), ItemLexemes(ReadBackItems(items)), rest);
    case JObject(members) =>
      MembersRead(members, true, Word(Close(true)) + rest);
      BracketsRead(true, RenderMembers(members, true), MemberLexemes(ReadBackMembers(members)), rest);
  }

  lemma {:induction false} NoneBefore(more: Option<seq<Lexeme>>)
    ensures Before([], more) == more
  {
    if more.Some? {
      assert [] + more.value == more.value;
    }
  }

  lemma {:induction false} CommaRead(first: bool, t: string)
    ensures Tokens((if first then "" else ",") + t) == Tokens(t)
  {
    hide Tokens;
    if first {
      assert "" + t == t;
    } else {
      MarkRead(',', t);
    }
  }

  lemma {:induction false} ItemsRead(items: seq<Json>, first: bool, rest: string)
    ensures Tokens(RenderItems(items, first) + rest) == Before(ItemLexemes(ReadBackItems(items)), Tokens(rest))
    decreases items, 0
  {
    hide Tokens, Before, Render, Lexemes, ReadBack;
    if items == [] {
      assert "" + rest == rest;
      NoneBefore(Tokens(rest));
    } else {
      var tail := RenderItems(items[1..], false) + rest;
      assert RenderItems(items, first) + rest == (if first then "" else ",") + (Render(items[0]) + tail);
      CommaRead(first, Render(items[0]) + tail);
      ValueRead(items[0], tail);
      ItemsRead(items[1..], false, rest);
      assert ReadBackItems(items)[1..] == ReadBackItems(items[1..]);
      BeforeBefore(Lexemes(ReadBack(items[0])), ItemLexemes(ReadBackItems(items[1..])), Tokens(rest));
    }
  }

  lemma {:induction false} MembersRead(members: seq<Member>, first: bool, rest: string)
    ensures Tokens(RenderMembers(members, first) + rest) == Before(MemberLexemes(ReadBackMembers(members)), Tokens(rest))
    decreases members, 0
  {
    hide Tokens, Before, Render, Lexemes, ReadBack, Quoted, Kept;
    if members == [] {
      assert "" + rest == rest;
      NoneBefore(Tokens(rest));
    } else {
      var key, value := members[0].key, members[0].value;
      var tail := RenderMembers(members[1..], false) + rest;
      var text := [':'] + (Render(value) + tail);
      assert RenderMembers(members, first) + rest == (if first then "" else ",") + (Quoted(key) + text);
      CommaRead(first, Quoted(key) + text);
      QuotedRead(key, text);
      MarkRead(':', Render(value) + tail);
      ValueRead(value, tail);
      MembersRead(members[1..], false, rest);
      var back, more := Lexemes(ReadBack(value)), MemberLexemes(ReadBackMembers(members[1..]));
      assert ReadBackMembers(members)[1..] == ReadBackMembers(members[1..]);
      BeforeBefore(back, more, Tokens(rest));
      BeforeBefore([Str(Kept(key))], back + more, Tokens(rest));
      assert [Str(Kept(key))] + (back + more) == [Str(Kept(key))] + back + more;
    }
  }

  /** Printing a value's tokens and tokenizing the text. */
  lemma {:induction false} PrintedIsReadBack(j: Json)
    ensures Tokens(" " + PutAll(Printed([], ""), Lexemes(j)).out) == Some(Lexemes(ReadBack(j)))
  {
    hide PutAll, Lexemes, ReadBack;
    PrintsValue(Printed([], ""), j);
    var text := Render(j);
    assert "" + "" + text == text && " " + text == [' '] + text && text + "" == text;
    MarkRead(' ', text);
    ValueRead(j, "");
    assert Tokens("") == Some([]);
    assert Lexemes(ReadBack(j)) + [] == Lexemes(ReadBack(j));
  }

  lemma {:induction false} KeptAll(s: string)
    ensures Kept(s) == s <==> forall i :: 0 <= i < |s| ==> !Dropped(s[i])
    ensures |Kept(s)| <= |s|
    decreases |s|
  {
    hide Dropped;
    if s != "" {
      KeptAll(s[1..]);
      assert forall i :: 0 < i < |s| ==> s[i] == s[1..][i - 1];
      if !Dropped(s[0]) {
        assert Kept(s)[1..] == Kept(s[1..]);
      }
    }
  }

  predicate Clean(l: Lexeme) { l.Str? || l.Num? ==> forall i :: 0 <= i < |l.data| ==> !Dropped(l.data[i]) }

  function AsString(l: Lexeme): Lexeme { if l.Num? then Str(l.data) else l }

  function TokenBack(l: Lexeme): Lexeme { if l.Str? || l.Num? then Str(Kept(l.data)) else l }

  function TokensBack(ls: seq<Lexeme>): seq<Lexeme> { seq(|ls|, i requires 0 <= i < |ls| => TokenBack(ls[i])) }

  lemma {:induction false} TokensBackConcat(a: seq<Lexeme>, b: seq<Lexeme>)
    ensures TokensBack(a + b) == TokensBack(a) + TokensBack(b)
  {
  }

  lemma {:induction false} ValueTokensBack(j: Json)
    ensures Lexemes(ReadBack(j)) == TokensBack(Lexemes(j))
    decreases j, 1
  {
    hide Kept, TokensBack;
    match j
    case JArray(items) =>
      ItemTokensBack(items);
      TokensBackConcat([Open(false)], ItemLexemes(items));
      TokensBackConcat([Open(false)] + ItemLexemes(items), [Close(false)]);
      OneBack(Open(false));
      OneBack(Close(false));
    case JObject(members) =>
      MemberTokensBack(members);
      TokensBackConcat([Open(true)], MemberLexemes(members));
      TokensBackConcat([Open(true)] + MemberLexemes(members), [Close(true)]);
      OneBack(Open(true));
      OneBack(Close(true));
    case _ => OneBack(Lexemes(j)[0]);
  }

  lemma {:induction false} OneBack(l: Lexeme)
    ensures TokensBack([l]) == [TokenBack(l)]
  {
  }

  lemma {:induction false} ItemTokensBack(items: seq<Json>)
    ensures ItemLexemes(ReadBackItems(items)) == TokensBack(ItemLexemes(items))
    decreases items, 0
  {
    hide ReadBack, Lexemes;
    if items != [] {
      ValueTokensBack(items[0]);
      ItemTokensBack(items[1..]);
      assert ReadBackItems(items)[1..] == ReadBackItems(items[1..]);
      TokensBackConcat(Lexemes(items[0]), ItemLexemes(items[1..]));
    }
  }

  lemma {:induction false} MemberTokensBack(members: seq<Member>)
    ensures MemberLexemes(ReadBackMembers(members)) == TokensBack(MemberLexemes(members))
    decreases members, 0
  {
    hide ReadBack, Lexemes, Kept;
    if members != [] {
      var key, value := members[0].key, members[0].value;
      ValueTokensBack(value);
      MemberTokensBack(members[1..]);
      assert ReadBackMembers(members)[1..] == ReadBackMembers(members[1..]);
      TokensBackConcat([Str(key)] + Lexemes(value), MemberLexemes(members[1..]));
      TokensBackConcat([Str(key)], Lexemes(value));
      OneBack(Str(key));
    }
  }

  lemma {:induction false} TokenBackIff(l: Lexeme)
    ensures TokenBack(l) == AsString(l) <==> Clean(l)
  {
    if l.Str? || l.Num? {
      KeptAll(l.data);
    }
  }

  /** The tokens of every value come back, numbers as strings, exactly when no string or number
      holds a control character that is printed as `\u00XX`. */
  lemma {:induction false} TokensComeBackIff(j: Json)
    ensures var ls := Lexemes(j);
      Tokens(" " + PutAll(Printed([], ""), ls).out) == Some(seq(|ls|, i requires 0 <= i < |ls| => AsString(ls[i])))
      <==> forall i :: 0 <= i < |ls| ==> Clean(ls[i])
  {
    hide Tokens, PutAll, Lexemes, ReadBack, TokenBack, AsString, Clean;
    var ls := Lexemes(j);
    PrintedIsReadBack(j);
    ValueTokensBack(j);
    var back, wanted := TokensBack(ls), seq(|ls|, i requires 0 <= i < |ls| => AsString(ls[i]));
    forall i | 0 <= i < |ls| ensures back[i] == wanted[i] <==> Clean(ls[i]) {
      TokenBackIff(ls[i]);
    }
    if back != wanted {
      var i :| 0 <= i < |ls| && back[i] != wanted[i];
    }
  }
}
