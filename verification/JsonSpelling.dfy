/** JSON text in any spelling: every choice of escapes, bare numbers and white space that the
    tokenizer accepts, and what the printer's escapes mean (sections 2 to 7 of RFC 8259). */
module JsonSpelling {
  import opened Messages
  import opened JsonText
  import JsonTokens

  // ---------------------------------------------------------------------------
  // Spellings
  // ---------------------------------------------------------------------------

  /** A piece of a string: a byte that stands for itself, a backslash and a letter, or a `\u` with
      what follows it. */
  datatype Part = Raw(c: char) | Escaped(c: char) | Code(hex: string)

  datatype Spelled = Mark(l: Lexeme) | Quote(parts: seq<Part>) | Number(word: string)

  /** A token with the separators in front of it. */
  datatype Spaced = Spaced(gap: string, token: Spelled)

  predicate NumberByte(c: char) {
    c in {'-', '+', '.', '0', '1', '2', '3', '4', '5', '6', '7', '8', '9', 'e', 'E'}
  }

  predicate NumberFirst(c: char) {
    c in {'-', '0', '1', '2', '3', '4', '5', '6', '7', '8', '9'}
  }

  predicate Separates(c: char) {
    c in {':', ',', ' ', '\n', '\r'}
  }

  predicate EscapeLetter(c: char) {
    c in {'"', '\\', '/', 'b', 'f', 'n', 'r', 't'}
  }

  predicate ValidPart(p: Part) {
    match p
    case Raw(c) => c != '"' && c != '\\' && c != '\0'
    case Escaped(c) => EscapeLetter(c)
    case Code(hex) => |hex| == 4
  }

  predicate ValidParts(ps: seq<Part>) {
    forall i :: 0 <= i < |ps| ==> ValidPart(ps[i])
  }

  predicate NumberBytes(w: string) {
    forall i :: 0 <= i < |w| ==> NumberByte(w[i])
  }

  predicate NumberWord(w: string) {
    w != "" && NumberFirst(w[0]) && NumberBytes(w)
  }

  predicate ValidToken(t: Spelled) {
    match t
    case Mark(l) => !l.Str? && !l.Num?
    case Quote(parts) => ValidParts(parts)
    case Number(w) => NumberWord(w)
  }

  predicate Gap(g: string) {
    forall i :: 0 <= i < |g| ==> Separates(g[i])
  }

  predicate Spaces(g: string) {
    forall i :: 0 <= i < |g| ==> g[i] == ' '
  }

  /** Only a number that follows a number needs more than spaces in front of it. */
  predicate ValidText(ts: seq<Spaced>) {
    && (forall i :: 0 <= i < |ts| ==> Gap(ts[i].gap) && ValidToken(ts[i].token))
    && (forall i :: 0 < i < |ts| && ts[i - 1].token.Number? && ts[i].token.Number? ==> !Spaces(ts[i].gap))
  }

  function PartText(p: Part): string {
    match p
    case Raw(c) => [c]
    case Escaped(c) => ['\\', c]
    case Code(hex) => ['\\', 'u'] + hex
  }

  function PartsText(ps: seq<Part>): string {
    if ps == [] then "" else PartText(ps[0]) + PartsText(ps[1..])
  }

  function Spell(t: Spelled): string {
    match t
    case Mark(l) =>
      (match l
       case Open(obj) => if obj then "{" else "["
       case Close(obj) => if obj then "}" else "]"
       case True => "true"
       case False => "false"
       case _ => "null")
    case Quote(parts) => "\"" + PartsText(parts) + "\""
    case Number(w) => w
  }

  function TextOf(ts: seq<Spaced>, last: string): string {
    if ts == [] then last else ts[0].gap + Spell(ts[0].token) + TextOf(ts[1..], last)
  }

  // ---------------------------------------------------------------------------
  // Meanings
  // ---------------------------------------------------------------------------

  /** The byte that a letter behind a backslash stands for. */
  function EscapeMeaning(c: char): char {
    if c == 'b' then 8 as char
    else if c == 't' then 9 as char
    else if c == 'n' then 10 as char
    else if c == 'f' then 12 as char
    else if c == 'r' then 13 as char
    else c
  }

  /** What the tokenizer takes from a piece: of a `\u`, nothing. */
  function PartMeaning(p: Part): string {
    match p
    case Raw(c) => [c]
    case Escaped(c) => [EscapeMeaning(c)]
    case Code(_) => ""
  }

  function PartsMeaning(ps: seq<Part>): string {
    if ps == [] then "" else PartMeaning(ps[0]) + PartsMeaning(ps[1..])
  }

  function Meaning(t: Spelled): Lexeme {
    match t
    case Mark(l) => l
    case Quote(parts) => Str(PartsMeaning(parts))
    case Number(w) => Num(w)
  }

  function Meanings(ts: seq<Spaced>): (r: seq<Lexeme>)
    ensures |r| == |ts| && forall i :: 0 <= i < |r| ==> r[i] == Meaning(ts[i].token)
  {
    seq(|ts|, i requires 0 <= i < |ts| => Meaning(ts[i].token))
  }

  // ---------------------------------------------------------------------------
  // Numbers
  // ---------------------------------------------------------------------------

  /** The bytes of a number, the spaces inside and behind it left out. */
  function Despaced(t: string): string {
    if t == "" then "" else if t[0] == ' ' then Despaced(t[1..]) else [t[0]] + Despaced(t[1..])
  }

  lemma {:induction false} InNumberIs(c: char)
    ensures InNumber(c) <==> NumberByte(c)
  {
  }

  /** The rest of a text goes on behind a number: it neither begins with a byte of a number nor
      with a space. */
  predicate EndsNumber(rest: string) {
    rest == "" || (!NumberByte(rest[0]) && rest[0] != ' ')
  }

  lemma {:induction false} NumberRead(t: string, rest: string, sofar: string)
    requires forall i :: 0 <= i < |t| ==> NumberByte(t[i]) || t[i] == ' '
    requires EndsNumber(rest)
    ensures NumberAt(t + rest, sofar) == (sofar + Despaced(t), rest)
    decreases |t|
  {
    if t == "" {
      assert t + rest == rest && sofar + "" == sofar;
      if rest != "" {
        InNumberIs(rest[0]);
      }
    } else {
      InNumberIs(t[0]);
      assert (t + rest)[1..] == t[1..] + rest;
      if t[0] == ' ' {
        NumberRead(t[1..], rest, sofar);
      } else {
        NumberRead(t[1..], rest, sofar + [t[0]]);
        assert sofar + [t[0]] + Despaced(t[1..]) == sofar + ([t[0]] + Despaced(t[1..]));
      }
    }
  }

  lemma {:induction false} NumberStart(c: char)
    ensures NumberFirst(c) <==> c == '-' || '0' <= c <= '9'
  {
  }

  /** A number is read byte by byte to its end, spaces inside and behind it left out. */
  lemma {:induction false} NumberToken(t: string, rest: string)
    requires t != "" && NumberFirst(t[0]) && EndsNumber(rest)
    requires forall i :: 0 <= i < |t| ==> NumberByte(t[i]) || t[i] == ' '
    ensures NextToken(t + rest) == Lexed(Num(Despaced(t)), rest)
  {
    hide NumberAt, Despaced;
    NumberRead(t, rest, "");
    NumberStart(t[0]);
    assert "" + Despaced(t) == Despaced(t);
    assert (t + rest)[0] == t[0];
  }

  lemma {:induction false} SpacelessWord(w: string, g: string)
    requires NumberBytes(w) && Spaces(g)
    ensures Despaced(w + g) == w
    decreases |w| + |g|
  {
    var t := w + g;
    if w != "" {
      InNumberIs(w[0]);
      assert t[1..] == w[1..] + g;
      SpacelessWord(w[1..], g);
    } else if g != "" {
      assert t == g && t[1..] == "" + g[1..];
      SpacelessWord("", g[1..]);
    }
  }

  /** The number of leading spaces. */
  function Leading(g: string): (k: nat)
    ensures k <= |g| && Spaces(g[..k]) && (k < |g| ==> g[k] != ' ')
  {
    if g == "" || g[0] != ' ' then 0
    else
      var k := Leading(g[1..]);
      assert forall i :: 0 < i < 1 + k ==> g[i] == g[1..][..k][i - 1];
      1 + k
  }

  lemma {:induction false} WordRead(w: string, rest: string)
    requires NumberWord(w) && EndsNumber(rest[Leading(rest)..])
    ensures Tokens(w + rest) == Before([Num(w)], Tokens(rest))
  {
    hide Tokens, NextToken, Before;
    var k := Leading(rest);
    var t := w + rest[..k];
    assert w + rest == t + rest[k..];
    SpacelessWord(w, rest[..k]);
    NumberToken(t, rest[k..]);
    OneToken(w + rest, Num(w), rest[k..]);
    assert rest == rest[..k] + rest[k..];
    GapRead(rest[..k], rest[k..]);
  }

  lemma {:induction false} OneToken(t: string, l: Lexeme, rest: string)
    requires NextToken(t) == Lexed(l, rest)
    ensures Tokens(t) == Before([l], Tokens(rest))
  {
    hide NextToken;
  }

  lemma {:induction false} GapRead(g: string, rest: string)
    requires Gap(g) || Spaces(g)
    ensures Tokens(g + rest) == Tokens(rest)
    decreases |g|
  {
    hide Tokens;
    if g == "" {
      assert g + rest == rest;
    } else {
      assert g + rest == [g[0]] + (g[1..] + rest);
      assert Separates(g[0]);
      Skipped(g[0], g[1..] + rest);
      GapRead(g[1..], rest);
    }
  }

  lemma {:induction false} Skipped(c: char, rest: string)
    requires Separates(c)
    ensures Tokens([c] + rest) == Tokens(rest)
  {
    assert ([c] + rest)[1..] == rest;
  }

  // ---------------------------------------------------------------------------
  // Strings
  // ---------------------------------------------------------------------------

  lemma {:induction false} PartRead(p: Part, rest: string, sofar: string)
    requires ValidPart(p)
    ensures StringAt(PartText(p) + rest, sofar) == StringAt(rest, sofar + PartMeaning(p))
  {
    var t := PartText(p) + rest;
    match p
    case Raw(c) => assert t[1..] == rest;
    case Escaped(c) =>
      assert Drop(t, 2) == rest;
      assert t[0] == '\\' && t[1] == c;
      EscapeIs(c);
    case Code(hex) =>
      assert Drop(t, 6) == rest;
      assert t[0] == '\\' && t[1] == 'u';
  }

  lemma {:induction false} EscapeIs(c: char)
    ensures Unescape(c) == if EscapeLetter(c) then Some([EscapeMeaning(c)]) else if c == 'u' then Some("") else None
  {
  }

  lemma {:induction false} PartsRead(ps: seq<Part>, rest: string, sofar: string)
    requires ValidParts(ps)
    ensures StringAt(PartsText(ps) + rest, sofar) == StringAt(rest, sofar + PartsMeaning(ps))
    decreases |ps|
  {
    hide StringAt, PartText, PartMeaning, ValidPart;
    if ps == [] {
      assert "" + rest == rest && sofar + "" == sofar;
    } else {
      var tail := PartsText(ps[1..]) + rest;
      assert PartsText(ps) + rest == PartText(ps[0]) + tail;
      PartRead(ps[0], tail, sofar);
      PartsRead(ps[1..], rest, sofar + PartMeaning(ps[0]));
      assert sofar + PartMeaning(ps[0]) + PartsMeaning(ps[1..]) == sofar + PartsMeaning(ps);
    }
  }

  lemma {:induction false} QuoteRead(ps: seq<Part>, rest: string)
    requires ValidParts(ps)
    ensures NextToken("\"" + PartsText(ps) + "\"" + rest) == Lexed(Str(PartsMeaning(ps)), rest)
  {
    hide PartsText, PartsMeaning;
    var t := "\"" + PartsText(ps) + "\"" + rest;
    assert t[1..] == PartsText(ps) + ("\"" + rest);
    PartsRead(ps, "\"" + rest, "");
    assert ("\"" + rest)[1..] == rest && "" + PartsMeaning(ps) == PartsMeaning(ps);
  }

  // ---------------------------------------------------------------------------
  // Whole texts
  // ---------------------------------------------------------------------------

  lemma {:induction false} MarkToken(l: Lexeme, rest: string)
    requires !l.Str? && !l.Num?
    ensures NextToken(Spell(Mark(l)) + rest) == Lexed(l, rest)
  {
    var t, word := Spell(Mark(l)) + rest, Spell(Mark(l));
    assert t[0] == word[0] && t[..|word|] == word && t[|word|..] == rest;
    assert word <= t;
  }

  lemma {:induction false} BehindGap(gap: string, tail: string)
    requires Gap(gap) && (Spaces(gap) ==> EndsNumber(tail))
    ensures EndsNumber((gap + tail)[Leading(gap + tail)..])
  {
    var rest := gap + tail;
    var k := Leading(rest);
    forall i | 0 <= i < k ensures rest[i] == ' ' {
      assert rest[..k][i] == rest[i];
    }
    if k < |gap| {
      assert rest[k] == gap[k] && Separates(gap[k]);
    } else {
      assert forall i :: 0 <= i < |gap| ==> gap[i] == rest[i];
      assert |gap| < |rest| ==> rest[|gap|] == tail[0];
    }
  }

  /** What follows a number: spaces and then the end, or something that ends it. */
  lemma {:induction false} BehindNumber(ts: seq<Spaced>, last: string)
    requires ValidText(ts) && Gap(last) && (ts != [] && ts[0].token.Number? ==> !Spaces(ts[0].gap))
    ensures var rest := TextOf(ts, last); EndsNumber(rest[Leading(rest)..])
  {
    hide Gap, Spaces, Leading, ValidToken, Spell;
    if ts == [] {
      assert last + "" == last;
      BehindGap(last, "");
    } else {
      var tail := Spell(ts[0].token) + TextOf(ts[1..], last);
      assert TextOf(ts, last) == ts[0].gap + tail;
      if !ts[0].token.Number? {
        WordStart(ts[0].token);
      }
      BehindGap(ts[0].gap, tail);
    }
  }

  lemma {:induction false} WordStart(t: Spelled)
    requires ValidToken(t) && !t.Number?
    ensures Spell(t) != "" && !NumberByte(Spell(t)[0]) && Spell(t)[0] != ' '
  {
  }

  lemma {:induction false} TokenRead(t: Spelled, rest: string)
    requires ValidToken(t) && (t.Number? ==> EndsNumber(rest[Leading(rest)..]))
    ensures Tokens(Spell(t) + rest) == Before([Meaning(t)], Tokens(rest))
  {
    hide Tokens, NextToken, Before, ValidParts, NumberWord, PartsText, PartsMeaning, Leading, EndsNumber;
    match t
    case Mark(l) =>
      MarkToken(l, rest);
      OneToken(Spell(t) + rest, l, rest);
    case Quote(parts) =>
      QuoteRead(parts, rest);
      OneToken(Spell(t) + rest, Str(PartsMeaning(parts)), rest);
    case Number(w) => WordRead(w, rest);
  }

  /** Any text of tokens, in any spelling and with any separators, gives the tokens it spells:
      strings with their escapes undone, numbers as written. */
  lemma {:induction false} TextRead(ts: seq<Spaced>, last: string)
    requires ValidText(ts) && Gap(last)
    ensures Tokens(TextOf(ts, last)) == Some(Meanings(ts))
    decreases |ts|
  {
    hide Tokens, ValidToken, Spell, Meaning;
    if ts == [] {
      assert last == last + "";
      GapRead(last, "");
      NoTokens();
    } else {
      var t, rest := ts[0], TextOf(ts[1..], last);
      TextRead(ts[1..], last);
      if t.token.Number? {
        BehindNumber(ts[1..], last);
      }
      assert TextOf(ts, last) == t.gap + (Spell(t.token) + rest);
      GapRead(t.gap, Spell(t.token) + rest);
      TokenRead(t.token, rest);
      assert [Meaning(t.token)] + Meanings(ts[1..]) == Meanings(ts);
    }
  }

  lemma {:induction false} NoTokens()
    ensures Tokens("") == Some([])
  {
  }

  /** Hence any text that spells the tokens of a value parses to the sized tree of that value. */
  lemma {:induction false} TextParses(ts: seq<Spaced>, last: string, j: Json)
    requires ValidText(ts) && Gap(last) && Meanings(ts) == Lexemes(j) && |Lexemes(j)| < TWO_32
    ensures Tokens(" " + TextOf(ts, last)) == Some(Lexemes(j))
    ensures JsonTokens.Sizes(Lexemes(j)) == Some(JsonTokens.Sized(JsonTokens.NodeOf(j)))
  {
    hide Tokens, Lexemes, ValidText, TextOf;
    TextRead(ts, last);
    assert Spaces(" ");
    GapRead(" ", TextOf(ts, last));
    JsonTokens.ValueSized(j);
  }

  // ---------------------------------------------------------------------------
  // Texts that are rejected
  // ---------------------------------------------------------------------------

  predicate TokenFirst(c: char) {
    NumberFirst(c) || Separates(c) || c in {'{', '}', '[', ']', '"', 't', 'f', 'n'}
  }

  /** A byte that starts no token raises; so do a string without its closing quote, an unknown
      escape and a word that only begins like a keyword. */
  lemma {:induction false} Rejected(c: char, ps: seq<Part>, rest: string, word: string)
    requires ValidParts(ps)
    ensures !TokenFirst(c) && c != '\0' ==> NextToken([c] + rest) == Malformed
    ensures NextToken("\"" + PartsText(ps)) == Malformed
    ensures !EscapeLetter(c) && c != 'u' ==> NextToken("\"" + PartsText(ps) + ['\\', c] + rest) == Malformed
    ensures word in {"true", "false", "null"} && rest != "" && rest[0] == word[0] && !(word <= rest) ==> NextToken(rest) == Malformed
  {
    hide PartsText, PartsMeaning, NumberAt;
    var open := "\"" + PartsText(ps);
    assert open[1..] == PartsText(ps) + "";
    PartsRead(ps, "", "");
    if !EscapeLetter(c) && c != 'u' {
      var t := open + ['\\', c] + rest;
      var tail := ['\\', c] + rest;
      assert t[1..] == PartsText(ps) + tail;
      PartsRead(ps, tail, "");
      assert tail[0] == '\\' && tail[1] == c;
      EscapeIs(c);
    }
    assert ([c] + rest)[0] == c;
  }

  // ---------------------------------------------------------------------------
  // What the printer's escapes mean
  // ---------------------------------------------------------------------------

  /** The value of a hexadecimal digit in either case. */
  function HexValue(c: char): nat {
    if '0' <= c <= '9' then c as nat - 48
    else if 'a' <= c <= 'f' then c as nat - 87
    else if 'A' <= c <= 'F' then c as nat - 55
    else 0
  }

  /** The byte that four hexadecimal digits name. */
  function CodeMeaning(hex: string): nat
    requires |hex| == 4
  {
    4096 * HexValue(hex[0]) + 256 * HexValue(hex[1]) + 16 * HexValue(hex[2]) + HexValue(hex[3])
  }

  /** A piece of a string stands for a byte by the standard, a `\u` included. */
  predicate StandsFor(p: Part, c: char) {
    && ValidPart(p)
    && match p
       case Raw(d) => d == c && c as nat >= 32
       case Escaped(d) => EscapeMeaning(d) == c
       case Code(hex) => CodeMeaning(hex) == c as nat
  }

  lemma {:induction false} CharMeaning(c: char) returns (p: Part)
    ensures EscapeChar(c) == PartText(p) && StandsFor(p, c)
    ensures p.Code? <==> Dropped(c)
  {
    var t := EscapeChar(c);
    if |t| == 1 {
      p := Raw(c);
    } else if |t| == 2 {
      p := Escaped(t[1]);
    } else {
      p := Code(t[2..]);
      HexPair(c as nat);
      assert t == ['\\', 'u'] + t[2..];
    }
  }

  lemma {:induction false} HexPair(n: nat)
    requires n < 256
    ensures 16 * HexValue(HexDigit(n / 16)) + HexValue(HexDigit(n % 16)) == n
  {
    HexIs(n / 16);
    HexIs(n % 16);
  }

  lemma {:induction false} HexIs(n: nat)
    requires n < 16
    ensures HexValue(HexDigit(n)) == n
  {
  }

  /** The text that the printer writes for a string means that string by the standard, byte for
      byte, control characters included. */
  lemma {:induction false} EscapeMeans(s: string) returns (ps: seq<Part>)
    ensures |ps| == |s| && Escape(s) == PartsText(ps) && ValidParts(ps)
    ensures forall i :: 0 <= i < |s| ==> StandsFor(ps[i], s[i]) && (ps[i].Code? <==> Dropped(s[i]))
    decreases |s|
  {
    hide EscapeChar, PartText, StandsFor, ValidPart, Dropped;
    ps := [];
    if s != "" {
      var p := CharMeaning(s[0]);
      ValidOf(p, s[0]);
      var more := EscapeMeans(s[1..]);
      ps := [p] + more;
      assert ps[1..] == more;
      forall i | 0 <= i < |s| ensures StandsFor(ps[i], s[i]) && (ps[i].Code? <==> Dropped(s[i])) {
        if i > 0 {
          assert s[i] == s[1..][i - 1];
        }
      }
    }
  }

  lemma {:induction false} ValidOf(p: Part, c: char)
    requires StandsFor(p, c)
    ensures ValidPart(p)
  {
  }

  lemma {:induction false} TwoItems(a: Json, b: Json)
    ensures RenderItems([a, b], true) == Render(a) + "," + Render(b)
  {
    hide Render;
    var items := [a, b];
    assert items[1..] == [b] && items[1..][1..] == [];
    assert RenderItems(items[1..], false) == "," + Render(b) + "";
    assert RenderItems(items, true) == "" + Render(a) + RenderItems(items[1..], false);
  }

  lemma {:induction false} TwoMembers(k: string, v: Json, k': string, v': Json)
    ensures RenderMembers([Member(k, v), Member(k', v')], true)
         == (Quoted(k) + ":" + Render(v)) + "," + (Quoted(k') + ":" + Render(v'))
  {
    hide Quoted, Render;
    var members := [Member(k, v), Member(k', v')];
    assert members[1..] == [Member(k', v')] && members[1..][1..] == [];
    LastMember(members[1..]);
    assert RenderMembers(members, true) == "" + Quoted(k) + ":" + Render(v) + RenderMembers(members[1..], false);
  }

  lemma {:induction false} LastMember(members: seq<Member>)
    requires |members| == 1
    ensures RenderMembers(members, false) == "," + (Quoted(members[0].key) + ":" + Render(members[0].value))
  {
    hide Quoted, Render;
    assert members[1..] == [];
  }

  lemma {:induction false} PrintedText(j: Json)
    ensures PutAll(Printed([], ""), Lexemes(j)).out == Render(j)
  {
    hide PutAll, Lexemes, Render;
    PrintsValue(Printed([], ""), j);
    assert "" + "" + Render(j) == Render(j);
  }

  /** A printed document: members in order, commas between values and colons behind keys. */
  lemma {:induction false} PrintedPairs(k: string, v: Json, k': string, v': Json)
    ensures PutAll(Printed([], ""), Lexemes(JObject([Member(k, v), Member(k', v')]))).out
         == "{" + ((Quoted(k) + ":" + Render(v)) + "," + (Quoted(k') + ":" + Render(v'))) + "}"
    ensures PutAll(Printed([], ""), Lexemes(JArray([v, v']))).out == "[" + (Render(v) + "," + Render(v')) + "]"
  {
    hide PutAll, Lexemes, Quoted, RenderItems, RenderMembers;
    TwoItems(v, v');
    TwoMembers(k, v, k', v');
    PrintedText(JObject([Member(k, v), Member(k', v')]));
    PrintedText(JArray([v, v']));
  }
}
