/** HTTP messages as text: what `HTTPParser` makes of a well-formed request or response. */
module HttpMessages {
  import opened Messages
  import opened Chunks
  import opened HttpParser
  import opened HttpText

  datatype Field = Field(key: string, val: string)

  predicate Lineable(s: string) { '\n' !in s && (s != "" ==> s[|s| - 1] != '\r') }

  predicate Plain(f: Field) {
    ':' !in f.key && '\n' !in f.key && Lineable(f.val) && (f.val != "" ==> f.val[0] != ' ')
  }

  predicate AllPlain(fs: seq<Field>) { forall i :: 0 <= i < |fs| ==> Plain(fs[i]) }

  function HeaderText(f: Field): string { f.key + ": " + f.val + "\r\n" }

  function HeadersText(fs: seq<Field>): string {
    if fs == [] then "" else HeadersText(fs[..|fs| - 1]) + HeaderText(fs[|fs| - 1])
  }

  function RequestLine(name: string, uri: string, version: string): string {
    name + [' '] + (uri + [' '] + (version + "\r\n"))
  }

  function StatusLine(version: string, code: string, name: string): string {
    version + [' '] + (code + [' '] + (name + "\r\n"))
  }

  function MessageText(line: string, fs: seq<Field>, body: string): string {
    line + HeadersText(fs) + ("\r\n" + body)
  }

  predicate IsMethod(name: string) {
    name == "CONNECT" || name == "DELETE" || name == "GET" || name == "HEAD"
    || name == "OPTIONS" || name == "POST" || name == "PUT" || name == "TRACE"
  }

  predicate IsLength(f: Field) { SameWord(f.key, "Content-Length") }

  predicate IsClose(f: Field) { SameWord(f.key, "Connection") && SameWord(f.val, "Close") }

  lemma {:induction false} MethodIs(name: string)
    ensures name in Methods <==> IsMethod(name)
  {
  }

  lemma {:induction false} HeaderNames(f: Field)
    ensures |f.key| == |"Content-Length"| && StrNCaseEq(f.key, "Content-Length") <==> IsLength(f)
    ensures |f.key| == |"Connection"| && StrNCaseEq(f.key, "Connection") && |f.val| == |"Close"| && StrNCaseEq(f.val, "Close")
       <==> IsClose(f)
  {
    hide StrNCaseEq;
    if |f.key| == |"Content-Length"| {
      SameLength(f.key, "Content-Length");
    }
    if |f.key| == |"Connection"| {
      SameLength(f.key, "Connection");
    }
    if |f.val| == |"Close"| {
      SameLength(f.val, "Close");
    }
  }

  /** The body size the headers announce: the last `Content-Length` counts, unless a response
      says later that the connection closes; nothing counts when no body is expected. */
  function Announced(mode: Mode, expectBody: bool, start: nat, fs: seq<Field>): Option<nat> {
    if fs == [] || !expectBody then Some(start) else
    var before, f := Announced(mode, expectBody, start, fs[..|fs| - 1]), fs[|fs| - 1];
    if before.None? then None else
    var n := if IsLength(f) then Stoul(f.val) else before;
    if n.Some? && mode == Response && IsClose(f) then Some(0xFFFF_FFFF_FFFF_FFFF) else n
  }

  function OnHeaders(fs: seq<Field>): seq<Event> {
    if fs == [] then [] else OnHeaders(fs[..|fs| - 1]) + [OnHeader(fs[|fs| - 1].key, fs[|fs| - 1].val)]
  }

  // ---------------------------------------------------------------------------
  // Tokens and lines
  // ---------------------------------------------------------------------------

  lemma {:induction false} RunToken(s: State, word: string)
    requires s.Running? && InHead(s.phase) && Delimiter(s.phase) !in word
    ensures Run(s, word + [Delimiter(s.phase)]) == Token(s.(buf := s.buf + word))
    decreases |word|
  {
    hide Token;
    var text := word + [Delimiter(s.phase)];
    if word == "" {
      assert text == [Delimiter(s.phase)] && text[1..] == "" && s.buf + word == s.buf;
    } else {
      assert text[1..] == word[1..] + [Delimiter(s.phase)];
      assert s.buf + word == s.buf + [word[0]] + word[1..];
      RunToken(Step(s, word[0]), word[1..]);
    }
  }

  lemma {:induction false} RunLine(s: State, line: string)
    requires s.Running? && InHead(s.phase) && Delimiter(s.phase) == '\n' && s.buf == "" && Lineable(line)
    ensures Run(s, line + "\r\n") == Token(s.(buf := line + "\r"))
    ensures StripTrailing(line + "\r") == line
  {
    hide Run, Token;
    assert line + "\r\n" == line + "\r" + ['\n'] && "" + (line + "\r") == line + "\r";
    RunToken(s, line + "\r");
    assert (line + "\r")[..|line|] == line;
  }

  lemma {:induction false} FindFirst(key: string, rest: string)
    requires ':' !in key
    ensures Find(key + ":" + rest, ':') == |key|
    decreases |key|
  {
    var line := key + ":" + rest;
    var i := Find(line, ':');
    assert line[..|key|] == key && line[|key|] == ':';
    assert i >= |key|;
    assert line[|key|] !in line[..i];
  }

  /** A header line, with any number of spaces before the value and of carriage returns at the
      end: what is left for `processHeader`. */
  lemma {:induction false} LineStripped(f: Field, i: nat, j: nat)
    requires Plain(f)
    ensures var line := f.key + ":" + (Repeat(' ', i) + f.val);
            && '\n' !in line && StripTrailing(line + Repeat('\r', j)) == line && line != ""
            && Find(line, ':') == |f.key| && line[..|f.key|] == f.key && SkipSpaces(line[|f.key| + 1..]) == f.val
  {
    hide StripTrailing, SkipSpaces;
    var val := Repeat(' ', i) + f.val;
    var line := f.key + ":" + val;
    assert '\n' !in val;
    assert line[|line| - 1] != '\r' by {
      if val != "" {
        assert line[|line| - 1] == val[|val| - 1];
      }
    }
    StripsReturns(line, j);
    FindFirst(f.key, val);
    assert line[..|f.key|] == f.key && line[|f.key| + 1..] == val;
    SkipsSpaces(f.val, i);
  }

  lemma {:induction false} SpelledLine(s: State, f: Field, i: nat, j: nat)
    requires s.Running? && s.phase == Header && s.buf == "" && Plain(f)
    ensures Run(s, f.key + ":" + (Repeat(' ', i) + f.val) + Repeat('\r', j) + ['\n'])
         == match Expect(s, f.key, f.val)
            case None => Raised(InvalidContentLength, s.out)
            case Some(n) => Next(s.(expected := n), Header, OnHeader(f.key, f.val))
  {
    hide Run, Plain, StripTrailing, SkipSpaces, StrNCaseEq, Stoul, Find;
    var line := f.key + ":" + (Repeat(' ', i) + f.val);
    var word := line + Repeat('\r', j);
    LineStripped(f, i, j);
    assert '\n' !in word;
    RunToken(s, word);
    assert "" + word == word;
    assert HeaderLine(s.(buf := word), line) == Token(s.(buf := word));
  }

  lemma {:induction false} HeaderRun(s: State, f: Field)
    requires s.Running? && s.phase == Header && s.buf == "" && Plain(f)
    requires Announced(s.mode, s.expectBody, s.expected, [f]).Some?
    ensures Run(s, HeaderText(f)) ==
      s.(expected := Announced(s.mode, s.expectBody, s.expected, [f]).value, out := Emitted(s, OnHeader(f.key, f.val)))
  {
    hide Run, StrNCaseEq, Stoul, SameWord, Plain, Announced;
    HeaderNames(f);
    SpelledLine(s, f, 1, 1);
    UsualSpelling(f);
    OneAnnounced(s.mode, s.expectBody, s.expected, f);
    assert Expect(s, f.key, f.val) == Announced(s.mode, s.expectBody, s.expected, [f]);
  }

  lemma {:induction false} UsualSpelling(f: Field)
    ensures HeaderText(f) == f.key + ":" + (Repeat(' ', 1) + f.val) + Repeat('\r', 1) + ['\n']
  {
    assert Repeat(' ', 1) == " " && Repeat('\r', 1) == "\r";
  }

  lemma {:induction false} OneAnnounced(mode: Mode, expectBody: bool, start: nat, f: Field)
    ensures Announced(mode, expectBody, start, [f]) ==
      if !expectBody then Some(start) else
      var n := if IsLength(f) then Stoul(f.val) else Some(start);
      if n.Some? && mode == Response && IsClose(f) then Some(0xFFFF_FFFF_FFFF_FFFF) else n
  {
    assert [f][..0] == [];
  }

  lemma {:induction false} AnnouncedSnoc(mode: Mode, expectBody: bool, start: nat, fs: seq<Field>)
    requires fs != [] && Announced(mode, expectBody, start, fs).Some?
    ensures var before := Announced(mode, expectBody, start, fs[..|fs| - 1]);
      before.Some? && Announced(mode, expectBody, before.value, [fs[|fs| - 1]]) == Announced(mode, expectBody, start, fs)
  {
    hide StrNCaseEq, Stoul;
    var before := Announced(mode, expectBody, start, fs[..|fs| - 1]);
    if before.Some? {
      OneAnnounced(mode, expectBody, before.value, fs[|fs| - 1]);
    }
  }

  lemma {:induction false} HeadersRun(s: State, fs: seq<Field>)
    requires s.Running? && s.phase == Header && s.buf == "" && AllPlain(fs)
    requires Announced(s.mode, s.expectBody, s.expected, fs).Some?
    ensures Run(s, HeadersText(fs)) ==
      s.(expected := Announced(s.mode, s.expectBody, s.expected, fs).value,
         out := s.out.(events := s.out.events + OnHeaders(fs)))
    decreases |fs|
  {
    hide Run, Plain, Announced, HeaderText;
    if fs == [] {
      NoBytes(s);
      NoneAnnounced(s.mode, s.expectBody, s.expected);
      assert s.out.events + [] == s.out.events;
    } else {
      var front, f := fs[..|fs| - 1], fs[|fs| - 1];
      AnnouncedSnoc(s.mode, s.expectBody, s.expected, fs);
      HeadersRun(s, front);
      RunConcat(s, HeadersText(front), HeaderText(f));
      HeaderRun(Run(s, HeadersText(front)), f);
      assert s.out.events + OnHeaders(front) + [OnHeader(f.key, f.val)] == s.out.events + OnHeaders(fs);
    }
  }

  lemma {:induction false} NoneAnnounced(mode: Mode, expectBody: bool, start: nat)
    ensures Announced(mode, expectBody, start, []) == Some(start)
  {
  }

  // ---------------------------------------------------------------------------
  // The body
  // ---------------------------------------------------------------------------

  /** The body is at most as long as announced; a response that announces none may still have one. */
  predicate Fits(mode: Mode, n: nat, body: string) { |body| <= n || (n == 0 && mode == Response) }

  /** Where the parse of a whole message ends. */
  function Finished(mode: Mode, expectBody: bool, events: seq<Event>, n: nat, body: string): State {
    Running(mode, if n == 0 || |body| == n then Done else Body, "", |body|, n, expectBody, Output(events, body))
  }

  lemma {:induction false} RunDone(s: State, text: string)
    requires s.Running? && s.phase == Done && s.mode == Response
    ensures Run(s, text) == ReadBody(s, text)
    decreases |text|
  {
    if text == "" {
      assert s.out.body + text == s.out.body;
    } else {
      RunDone(Step(s, text[0]), text[1..]);
      assert s.out.body + text == s.out.body + [text[0]] + text[1..];
    }
  }

  lemma {:induction false} BodyRun(s: State, body: string)
    requires s.Running? && s.phase == Header && s.buf == "" && s.read == 0 && s.out.body == ""
    requires Fits(s.mode, s.expected, body)
    ensures Run(s, "\r\n" + body) == Finished(s.mode, s.expectBody, s.out.events + [OnHeadersComplete], s.expected, body)
  {
    hide Run;
    RunLine(s, "");
    assert "" + "\r\n" == "\r\n" && "" + "\r" == "\r" && "" + body == body;
    RunConcat(s, "\r\n", body);
    var t := Run(s, "\r\n");
    if body == "" {
      NoBytes(t);
    } else if s.expected == 0 {
      RunDone(t, body);
    } else {
      RunBody(t, body);
    }
  }

  lemma {:induction false} MessageRun(s: State, line: string, fs: seq<Field>, body: string)
    requires var t := Run(s, line);
      t.Running? && t.phase == Header && t.buf == "" && t.read == 0 && t.out.body == "" && AllPlain(fs)
      && var n := Announced(t.mode, t.expectBody, t.expected, fs);
      n.Some? && Fits(t.mode, n.value, body)
    ensures var t := Run(s, line);
      Run(s, MessageText(line, fs, body)) ==
        Finished(t.mode, t.expectBody, t.out.events + OnHeaders(fs) + [OnHeadersComplete],
                 Announced(t.mode, t.expectBody, t.expected, fs).value, body)
  {
    hide Run, Announced, Plain, OnHeaders, HeadersText, Finished, Fits;
    var t := Run(s, line);
    RunConcat(s, line, HeadersText(fs));
    HeadersRun(t, fs);
    RunConcat(s, line + HeadersText(fs), "\r\n" + body);
    BodyRun(Run(t, HeadersText(fs)), body);
  }

  // ---------------------------------------------------------------------------
  // Requests and responses
  // ---------------------------------------------------------------------------

  lemma {:induction false} MethodsSpaceless(name: string)
    requires name in Methods
    ensures ' ' !in name
  {
  }

  lemma {:induction false} RequestLineRun(expectBody: bool, name: string, uri: string, version: string)
    requires IsMethod(name) && ' ' !in uri && Lineable(version)
    ensures Run(Start(Request, expectBody), RequestLine(name, uri, version)) ==
      Running(Request, Header, "", 0, 0, expectBody, Output([OnMethod(name), OnURI(uri), OnVersion(version)], ""))
  {
    hide Run, StripTrailing, Methods;
    var s := Start(Request, expectBody);
    MethodIs(name);
    MethodsSpaceless(name);
    RunToken(s, name);
    assert "" + name == name && "" + uri == uri;
    var s1 := Run(s, name + [' ']);
    RunToken(s1, uri);
    var s2 := Run(s1, uri + [' ']);
    RunLine(s2, version);
    RunConcat(s, name + [' '], uri + [' '] + (version + "\r\n"));
    RunConcat(s1, uri + [' '], version + "\r\n");
    assert [OnMethod(name)] + [OnURI(uri)] + [OnVersion(version)] == [OnMethod(name), OnURI(uri), OnVersion(version)];
  }

  /** A body until the connection closes is what HTTP/1.0 means without a header. */
  function StatusExpected(version: string): nat { if Oldest(version) then 0xFFFF_FFFF_FFFF_FFFF else 0 }

  /** HTTP/1.0, or, as the code compares them, a prefix of it or a text that goes on with a NUL. */
  predicate Oldest(version: string) {
    if |version| <= 8 then SameWord(version, "HTTP/1.0"[..|version|]) else SameWord(version[..8], "HTTP/1.0") && version[8] == '\0'
  }

  lemma {:induction false} OldestIs(version: string)
    ensures StrNCaseEq(version, "HTTP/1.0") <==> Oldest(version)
  {
    hide StrNCaseEq;
    StrNCaseEqIs(version, "HTTP/1.0");
  }

  lemma {:induction false} StatusLineRun(expectBody: bool, version: string, code: string, name: string)
    requires ' ' !in version && ' ' !in code && Stoi(code).Some? && Lineable(name)
    ensures Run(Start(Response, expectBody), StatusLine(version, code, name)) ==
      Running(Response, Header, "", 0, StatusExpected(version), expectBody,
        Output([OnVersion(version), OnStatusCode(Stoi(code).value), OnStatusName(name)], ""))
  {
    hide Run, StripTrailing, Stoi, StrNCaseEq, Oldest;
    OldestIs(version);
    var s := Start(Response, expectBody);
    RunToken(s, version);
    assert "" + version == version && "" + code == code;
    var s1 := Run(s, version + [' ']);
    RunToken(s1, code);
    var s2 := Run(s1, code + [' ']);
    RunLine(s2, name);
    RunConcat(s, version + [' '], code + [' '] + (name + "\r\n"));
    RunConcat(s1, code + [' '], name + "\r\n");
    assert [OnVersion(version)] + [OnStatusCode(Stoi(code).value)] + [OnStatusName(name)]
        == [OnVersion(version), OnStatusCode(Stoi(code).value), OnStatusName(name)];
  }

  predicate ValidRequest(expectBody: bool, name: string, uri: string, version: string, fs: seq<Field>, body: string) {
    IsMethod(name) && ' ' !in uri && Lineable(version) && AllPlain(fs)
    && var n := Announced(Request, expectBody, 0, fs); n.Some? && |body| <= n.value
  }

  function RequestEvents(name: string, uri: string, version: string, fs: seq<Field>): seq<Event> {
    [OnMethod(name), OnURI(uri), OnVersion(version)] + OnHeaders(fs) + [OnHeadersComplete]
  }

  /** A well-formed request is parsed into its own parts; it is done when its body is complete. */
  lemma {:induction false} RequestParsed(
    expectBody: bool, name: string, uri: string, version: string, fs: seq<Field>, body: string)
    requires ValidRequest(expectBody, name, uri, version, fs, body)
    ensures Run(Start(Request, expectBody), MessageText(RequestLine(name, uri, version), fs, body)) ==
      Finished(Request, expectBody, RequestEvents(name, uri, version, fs), Announced(Request, expectBody, 0, fs).value, body)
  {
    hide Run, Announced, AllPlain, Methods, OnHeaders, RequestLine, MessageText, Finished;
    RequestLineRun(expectBody, name, uri, version);
    MessageRun(Start(Request, expectBody), RequestLine(name, uri, version), fs, body);
  }

  predicate ValidResponse(expectBody: bool, version: string, code: string, name: string, fs: seq<Field>, body: string) {
    ' ' !in version && ' ' !in code && Stoi(code).Some? && Lineable(name) && AllPlain(fs)
    && var n := Announced(Response, expectBody, StatusExpected(version), fs); n.Some? && Fits(Response, n.value, body)
  }

  function ResponseEvents(version: string, code: int, name: string, fs: seq<Field>): seq<Event> {
    [OnVersion(version), OnStatusCode(code), OnStatusName(name)] + OnHeaders(fs) + [OnHeadersComplete]
  }

  /** A well-formed response is parsed into its own parts; it is done when its body is complete,
      and stays in the body when that ends with the connection. */
  lemma {:induction false} ResponseParsed(
    expectBody: bool, version: string, code: string, name: string, fs: seq<Field>, body: string)
    requires ValidResponse(expectBody, version, code, name, fs, body)
    ensures Run(Start(Response, expectBody), MessageText(StatusLine(version, code, name), fs, body)) ==
      Finished(Response, expectBody, ResponseEvents(version, Stoi(code).value, name, fs),
               Announced(Response, expectBody, StatusExpected(version), fs).value, body)
  {
    hide Run, Announced, AllPlain, OnHeaders, StatusLine, MessageText, Finished, Stoi, StatusExpected;
    StatusLineRun(expectBody, version, code, name);
    MessageRun(Start(Response, expectBody), StatusLine(version, code, name), fs, body);
  }

  lemma {:induction false} OnHeadersAt(fs: seq<Field>, i: nat)
    requires i < |fs|
    ensures |OnHeaders(fs)| == |fs| && OnHeaders(fs)[i] == OnHeader(fs[i].key, fs[i].val)
    decreases |fs|
  {
    var front := fs[..|fs| - 1];
    if front != [] {
      OnHeadersAt(front, if i < |front| then i else 0);
    }
  }

  // ---------------------------------------------------------------------------
  // Messages of a given length
  // ---------------------------------------------------------------------------

  /** The headers announce a body of `n` bytes: one of them says so in decimal, it is the first
      that speaks of a length and the last that speaks of a length or of closing. */
  predicate Announces(mode: Mode, fs: seq<Field>, k: nat, n: nat) {
    && k < |fs| && IsLength(fs[k]) && fs[k].val == Decimal(n) && n < 0x1_0000_0000_0000_0000
    && (forall j :: 0 <= j < |fs| && j != k ==> !IsLength(fs[j]))
    && (forall j :: k < j < |fs| && mode == Response ==> !IsClose(fs[j]))
  }

  lemma {:induction false} SomeAnnounced(mode: Mode, start: nat, fs: seq<Field>)
    requires forall j :: 0 <= j < |fs| ==> !IsLength(fs[j])
    ensures Announced(mode, true, start, fs)
         == Some(if mode == Response && (exists j :: 0 <= j < |fs| && IsClose(fs[j])) then 0xFFFF_FFFF_FFFF_FFFF else start)
    decreases |fs|
  {
    hide SameWord, IsLength, IsClose;
    if fs != [] {
      var front := fs[..|fs| - 1];
      SomeAnnounced(mode, start, front);
      assert (exists j :: 0 <= j < |fs| && IsClose(fs[j])) <==> (exists j :: 0 <= j < |front| && IsClose(front[j])) || IsClose(fs[|fs| - 1]);
    }
  }

  lemma {:induction false} LengthAnnounced(mode: Mode, start: nat, fs: seq<Field>, k: nat, n: nat)
    requires Announces(mode, fs, k, n)
    ensures Announced(mode, true, start, fs) == Some(n)
    decreases |fs|
  {
    hide Stoul, Decimal;
    var front, f := fs[..|fs| - 1], fs[|fs| - 1];
    if k == |fs| - 1 {
      SomeAnnounced(mode, start, front);
      DecimalRead(n);
      assert !IsClose(f);
    } else {
      LengthAnnounced(mode, start, front, k, n);
    }
  }

  /** A request that announces `n` bytes in decimal: its parts are reported, and it is done
      exactly when `n` bytes of body have come. */
  lemma {:induction false} RequestOfLength(
    name: string, uri: string, version: string, fs: seq<Field>, k: nat, n: nat, body: string)
    requires IsMethod(name) && ' ' !in uri && Lineable(version) && AllPlain(fs) && Announces(Request, fs, k, n) && |body| <= n
    ensures Run(Start(Request, true), MessageText(RequestLine(name, uri, version), fs, body)) ==
      Running(Request, if |body| == n then Done else Body, "", |body|, n, true,
              Output([OnMethod(name), OnURI(uri), OnVersion(version)] + OnHeaders(fs) + [OnHeadersComplete], body))
  {
    hide Run, Announced, AllPlain, OnHeaders, RequestLine, MessageText, Announces, IsMethod;
    LengthAnnounced(Request, 0, fs, k, n);
    RequestParsed(true, name, uri, version, fs, body);
  }

  /** A byte behind a complete request raises. */
  lemma {:induction false} ByteBehindRequest(
    name: string, uri: string, version: string, fs: seq<Field>, k: nat, body: string, c: char)
    requires IsMethod(name) && ' ' !in uri && Lineable(version) && AllPlain(fs) && Announces(Request, fs, k, |body|)
    ensures Run(Start(Request, true), MessageText(RequestLine(name, uri, version), fs, body) + [c])
         == Raised(TrailingBytes, Output([OnMethod(name), OnURI(uri), OnVersion(version)] + OnHeaders(fs) + [OnHeadersComplete], body))
  {
    hide AllPlain, OnHeaders, RequestLine, MessageText, Announces, IsMethod;
    var text := MessageText(RequestLine(name, uri, version), fs, body);
    RequestOfLength(name, uri, version, fs, k, |body|, body);
    RunConcat(Start(Request, true), text, [c]);
    OneByte(Run(Start(Request, true), text), c);
  }

  lemma {:induction false} OneByte(s: State, c: char)
    ensures Run(s, [c]) == Step(s, c)
  {
    assert [c][1..] == "";
  }

  lemma {:induction false} DecimalSpaceless(n: nat)
    ensures ' ' !in Decimal(n)
    decreases n
  {
    DigitCharIs(n % 10);
    if n >= 10 {
      DecimalSpaceless(n / 10);
    }
  }

  /** A response with a decimal status code that announces `n` bytes in decimal. */
  lemma {:induction false} ResponseOfLength(
    version: string, code: nat, name: string, fs: seq<Field>, k: nat, n: nat, body: string)
    requires ' ' !in version && code < 0x8000_0000 && Lineable(name) && AllPlain(fs) && Announces(Response, fs, k, n) && |body| <= n
    ensures Run(Start(Response, true), MessageText(StatusLine(version, Decimal(code), name), fs, body)) ==
      Running(Response, if |body| == n then Done else Body, "", |body|, n, true,
              Output([OnVersion(version), OnStatusCode(code), OnStatusName(name)] + OnHeaders(fs) + [OnHeadersComplete], body))
  {
    hide Run, Announced, AllPlain, OnHeaders, StatusLine, MessageText, Announces, Decimal, Stoi, Stoul, StatusExpected;
    LengthAnnounced(Response, StatusExpected(version), fs, k, n);
    DecimalRead(code);
    DecimalSpaceless(code);
    ResponseParsed(true, version, Decimal(code), name, fs, body);
  }

  // ---------------------------------------------------------------------------
  // Heads that are rejected, and lines in other spellings
  // ---------------------------------------------------------------------------

  /** Any other method raises, a malformed status code raises, and nothing else has happened. */
  lemma {:induction false} FirstLineRejected(expectBody: bool, word: string, code: string)
    requires ' ' !in word && ' ' !in code
    ensures !IsMethod(word) ==> Run(Start(Request, expectBody), word + [' ']) == Raised(InvalidMethod, Output([], ""))
    ensures Stoi(code).None? ==>
      Run(Start(Response, expectBody), word + [' '] + (code + [' '])) == Raised(InvalidStatusCode, Output([OnVersion(word)], ""))
  {
    hide Run, StrNCaseEq, Stoi, IsMethod, Methods;
    var s := Start(Request, expectBody);
    MethodIs(word);
    RunToken(s, word);
    assert "" + word == word && "" + code == code;
    var t := Start(Response, expectBody);
    RunToken(t, word);
    RunToken(Run(t, word + [' ']), code);
    RunConcat(t, word + [' '], code + [' ']);
  }

  /** A line without a colon raises, and so does a length that is not a number. */
  lemma {:induction false} HeaderRejected(s: State, line: string, f: Field)
    requires s.Running? && s.phase == Header && s.buf == "" && Lineable(line) && line != "" && ':' !in line
    requires Plain(f) && IsLength(f) && Stoul(f.val).None? && s.expectBody
    ensures Run(s, line + "\r\n") == Raised(InvalidHeader, s.out)
    ensures Run(s, HeaderText(f)) == Raised(InvalidContentLength, s.out)
  {
    hide Run, StrNCaseEq, Stoul, StripTrailing, SameWord;
    RunLine(s, line);
    var text := f.key + ":" + (" " + f.val);
    assert HeaderText(f) == text + "\r\n";
    RunLine(s, text);
    FindFirst(f.key, " " + f.val);
    assert text[|f.key| + 1..] == " " + f.val && text[..|f.key|] == f.key;
    assert (" " + f.val)[1..] == f.val && SkipSpaces(f.val) == f.val;
    HeaderNames(f);
    NoColon(line);
  }

  lemma {:induction false} NoColon(line: string)
    requires ':' !in line
    ensures Find(line, ':') == |line|
  {
  }

  /** A header line in any spelling, with any number of spaces before the value and of carriage
      returns at the end, is read like the usual one. */
  lemma {:induction false} HeaderSpelling(s: State, f: Field, i: nat, j: nat)
    requires s.Running? && s.phase == Header && s.buf == "" && Plain(f)
    ensures Run(s, f.key + ":" + (Repeat(' ', i) + f.val) + Repeat('\r', j) + ['\n']) == Run(s, HeaderText(f))
  {
    hide Run, Expect, Plain;
    SpelledLine(s, f, i, j);
    SpelledLine(s, f, 1, 1);
    UsualSpelling(f);
  }

  /** A method cut off by the end of the chunk raises exactly when it has more than 16 bytes. */
  lemma {:induction false} LongMethodIff(expectBody: bool, word: string)
    requires ' ' !in word
    ensures Feed(Start(Request, expectBody), [word])
         == if |word| > 16 then Raised(TooLarge, Output([], "")) else Start(Request, expectBody).(buf := word)
  {
    hide ChunkRun;
    var s := Start(Request, expectBody);
    assert word + "" == word && "" + word == word;
    ChunkToken(s, word, "");
    NoBytes(s.(buf := word));
    OneChunk(s, word);
  }

  // ---------------------------------------------------------------------------
  // Through chunks
  // ---------------------------------------------------------------------------

  lemma {:induction false} OverrunShows(s: State, text: string)
    requires Overruns(s, text)
    ensures var t := Run(s, text); t.Running? ==> t.read > t.expected > 0
  {
    hide Run;
    var k :| 0 < k < |text| && Full(Run(s, text[..k]));
    RunConcat(s, text[..k], text[k..]);
    assert text[..k] + text[k..] == text;
    PastDone(Run(s, text[..k]), text[k..]);
  }

  /** A message whose body fits ends the same through any chunks, as long as no boundary falls
      inside an over-long token. */
  lemma {:induction false} SameInChunks(mode: Mode, expectBody: bool, chunks: seq<string>)
    requires var t := Run(Start(mode, expectBody), Joined(chunks));
      t.Running? && (t.read <= t.expected || t.expected == 0)
    requires !CutInLongToken(Start(mode, expectBody), chunks)
    ensures Feed(Start(mode, expectBody), chunks) == Run(Start(mode, expectBody), Joined(chunks))
  {
    hide Run, Feed, CutInLongToken;
    if Overruns(Start(mode, expectBody), Joined(chunks)) {
      OverrunShows(Start(mode, expectBody), Joined(chunks));
      assert false;
    }
    ChunksAreBytes(Start(mode, expectBody), chunks);
  }

  lemma {:induction false} RequestInChunks(
    expectBody: bool, name: string, uri: string, version: string, fs: seq<Field>, body: string, chunks: seq<string>)
    requires ValidRequest(expectBody, name, uri, version, fs, body)
    requires Joined(chunks) == MessageText(RequestLine(name, uri, version), fs, body)
    requires !CutInLongToken(Start(Request, expectBody), chunks)
    ensures Feed(Start(Request, expectBody), chunks) ==
      Finished(Request, expectBody, RequestEvents(name, uri, version, fs), Announced(Request, expectBody, 0, fs).value, body)
  {
    hide Run, Feed, CutInLongToken, Announced, RequestEvents, MessageText, AllPlain;
    RequestParsed(expectBody, name, uri, version, fs, body);
    SameInChunks(Request, expectBody, chunks);
  }

  lemma {:induction false} ResponseInChunks(
    expectBody: bool, version: string, code: string, name: string, fs: seq<Field>, body: string, chunks: seq<string>)
    requires ValidResponse(expectBody, version, code, name, fs, body)
    requires Joined(chunks) == MessageText(StatusLine(version, code, name), fs, body)
    requires !CutInLongToken(Start(Response, expectBody), chunks)
    ensures Feed(Start(Response, expectBody), chunks) ==
      Finished(Response, expectBody, ResponseEvents(version, Stoi(code).value, name, fs),
               Announced(Response, expectBody, StatusExpected(version), fs).value, body)
  {
    hide Run, Feed, CutInLongToken, Announced, ResponseEvents, MessageText, AllPlain, Stoi;
    ResponseParsed(expectBody, version, code, name, fs, body);
    SameInChunks(Response, expectBody, chunks);
  }

  // ---------------------------------------------------------------------------
  // When the chunks make no difference, in terms of the message
  // ---------------------------------------------------------------------------

  /** The state behind the head of a message: nothing read, and done if no body is announced. */
  predicate BehindHead(h: State) {
    h.Running? && !InHead(h.phase) && h.read == 0 && (h.expected == 0 <==> h.phase == Done)
  }

  /** Where, behind the head, a body is complete. */
  lemma {:induction false} FullAt(h: State, body: string, j: nat)
    requires BehindHead(h) && j <= |body|
    ensures Full(Run(h, body[..j])) <==> 0 < h.expected == j
  {
    hide Run;
    if h.expected == 0 {
      NeverFull(h, body[..j]);
    } else if j <= h.expected {
      RunBody(h, body[..j]);
    } else {
      RunBody(h, body[..h.expected]);
      RunConcat(h, body[..h.expected], body[h.expected..j]);
      assert body[..h.expected] + body[h.expected..j] == body[..j];
      PastDone(Run(h, body[..h.expected]), body[h.expected..j]);
    }
  }

  lemma {:induction false} NotFullInHead(s: State, head: string, k: nat)
    requires BehindHead(Run(s, head)) && k <= |head|
    ensures !Full(Run(s, head[..k]))
  {
    hide Run;
    if Full(Run(s, head[..k])) {
      RunConcat(s, head[..k], head[k..]);
      assert head[..k] + head[k..] == head;
      PastDone(Run(s, head[..k]), head[k..]);
      assert false;
    }
  }

  lemma {:induction false} OverrunsIff(s: State, head: string, body: string)
    requires BehindHead(Run(s, head)) && head != ""
    ensures Overruns(s, head + body) <==> 0 < Run(s, head).expected < |body|
  {
    hide Run, Full, InHead;
    var h, text := Run(s, head), head + body;
    forall k | 0 <= k <= |text| ensures Full(Run(s, text[..k])) <==> 0 < h.expected == k - |head| {
      if k <= |head| {
        assert text[..k] == head[..k];
        NotFullInHead(s, head, k);
      } else {
        assert text[..k] == head + body[..k - |head|];
        RunConcat(s, head, body[..k - |head|]);
        FullAt(h, body, k - |head|);
      }
    }
    if 0 < h.expected < |body| {
      var k := |head| + h.expected;
      assert Full(Run(s, text[..k]));
    }
  }

  lemma {:induction false} WithinConcat(s: State, a: string, b: string)
    ensures WithinLimits(s, a + b) <==> WithinLimits(s, a) && WithinLimits(Run(s, a), b)
  {
    hide Run, Oversize;
    var t := a + b;
    forall k | 0 <= k <= |a| ensures t[..k] == a[..k] {}
    forall j | 0 <= j <= |b| ensures Run(s, t[..|a| + j]) == Run(Run(s, a), b[..j]) {
      assert t[..|a| + j] == a + b[..j];
      RunConcat(s, a, b[..j]);
    }
    if WithinLimits(s, t) {
      forall j | 0 <= j <= |b| ensures !Oversize(Run(Run(s, a), b[..j])) {
        assert !Oversize(Run(s, t[..|a| + j]));
      }
      forall k | 0 <= k <= |a| ensures !Oversize(Run(s, a[..k])) {
        assert !Oversize(Run(s, t[..k]));
      }
    } else {
      var k :| 0 <= k <= |t| && Oversize(Run(s, t[..k]));
      if k > |a| {
        assert t[..k] == t[..|a| + (k - |a|)];
        assert Oversize(Run(Run(s, a), b[..k - |a|]));
      } else {
        assert Oversize(Run(s, a[..k]));
      }
    }
  }

  lemma {:induction false} RunWord(s: State, word: string)
    requires s.Running? && InHead(s.phase) && Delimiter(s.phase) !in word
    ensures Run(s, word) == s.(buf := s.buf + word)
    decreases |word|
  {
    if word == "" {
      assert s.buf + word == s.buf;
    } else {
      assert s.buf + word == s.buf + [word[0]] + word[1..];
      RunWord(Step(s, word[0]), word[1..]);
    }
  }

  /** A token is within its limit exactly when it is no longer than that. */
  lemma {:induction false} WithinToken(s: State, word: string)
    requires s.Running? && InHead(s.phase) && s.buf == "" && Delimiter(s.phase) !in word
    requires !Oversize(Run(s, word + [Delimiter(s.phase)]))
    ensures WithinLimits(s, word + [Delimiter(s.phase)]) <==> |word| <= Limit(s.phase)
  {
    hide Run;
    var text := word + [Delimiter(s.phase)];
    forall k | 0 <= k <= |word| ensures Oversize(Run(s, text[..k])) <==> k > Limit(s.phase) {
      assert text[..k] == word[..k];
      RunWord(s, word[..k]);
      assert "" + word[..k] == word[..k];
    }
    assert text[..|text|] == text;
    if |word| > Limit(s.phase) {
      assert Oversize(Run(s, text[..|word|]));
    }
  }

  lemma {:induction false} WithinLine(s: State, line: string)
    requires s.Running? && InHead(s.phase) && Delimiter(s.phase) == '\n' && s.buf == "" && Lineable(line)
    requires !Oversize(Run(s, line + "\r\n"))
    ensures WithinLimits(s, line + "\r\n") <==> |line| + 1 <= Limit(s.phase)
  {
    hide Run;
    assert line + "\r\n" == line + "\r" + ['\n'];
    WithinToken(s, line + "\r");
  }

  lemma {:induction false} WithinBody(s: State, body: string)
    requires s.Running? ==> !InHead(s.phase)
    ensures WithinLimits(s, body)
  {
    forall k | 0 <= k <= |body| ensures !Oversize(Run(s, body[..k])) {
      StaysBehind(s, body[..k]);
    }
  }

  lemma {:induction false} StaysBehind(s: State, text: string)
    requires s.Running? ==> !InHead(s.phase)
    ensures !Oversize(Run(s, text))
    decreases |text|
  {
    if text != "" {
      StaysBehind(Step(s, text[0]), text[1..]);
    }
  }

  /** Every header line fits, its carriage return included. */
  predicate SmallHeaders(fs: seq<Field>) {
    forall i :: 0 <= i < |fs| ==> |fs[i].key| + 2 + |fs[i].val| + 1 <= 65535
  }

  lemma {:induction false} WithinHeaders(s: State, fs: seq<Field>)
    requires s.Running? && s.phase == Header && s.buf == "" && AllPlain(fs)
    requires Announced(s.mode, s.expectBody, s.expected, fs).Some?
    ensures WithinLimits(s, HeadersText(fs)) <==> SmallHeaders(fs)
    decreases |fs|
  {
    hide Run, Announced, Plain, HeaderText, WithinLimits;
    if fs == [] {
      NothingWithin(s);
    } else {
      var front, f := fs[..|fs| - 1], fs[|fs| - 1];
      AnnouncedSnoc(s.mode, s.expectBody, s.expected, fs);
      WithinHeaders(s, front);
      HeadersRun(s, front);
      WithinConcat(s, HeadersText(front), HeaderText(f));
      WithinHeader(Run(s, HeadersText(front)), f);
      assert SmallHeaders(fs) <==> SmallHeaders(front) && |f.key| + 2 + |f.val| + 1 <= 65535;
    }
  }

  lemma {:induction false} NothingWithin(s: State)
    requires s.Running? && s.buf == ""
    ensures WithinLimits(s, "")
  {
    hide Run;
    NoBytes(s);
  }

  lemma {:induction false} WithinHeader(s: State, f: Field)
    requires s.Running? && s.phase == Header && s.buf == "" && Plain(f)
    requires Announced(s.mode, s.expectBody, s.expected, [f]).Some?
    ensures WithinLimits(s, HeaderText(f)) <==> |f.key| + 2 + |f.val| + 1 <= 65535
  {
    hide Run, Announced;
    HeaderRun(s, f);
    var line := f.key + ": " + f.val;
    WithinLine(s, line);
  }

  /** The head behind its first line, empty line included. */
  lemma {:induction false} WithinMessage(s: State, line: string, fs: seq<Field>, body: string)
    requires var t := Run(s, line);
      t.Running? && t.phase == Header && t.buf == "" && t.read == 0 && t.out.body == "" && AllPlain(fs)
      && Announced(t.mode, t.expectBody, t.expected, fs).Some?
    ensures WithinLimits(s, MessageText(line, fs, body)) <==> WithinLimits(s, line) && SmallHeaders(fs)
    ensures BehindHead(Run(s, line + HeadersText(fs) + "\r\n"))
    ensures var t := Run(s, line);
      Run(s, line + HeadersText(fs) + "\r\n").expected == Announced(t.mode, t.expectBody, t.expected, fs).value
  {
    hide Run, Announced, Plain, HeadersText, WithinLimits, OnHeaders, SmallHeaders;
    var t := Run(s, line);
    HeadersRun(t, fs);
    WithinHeaders(t, fs);
    var u := Run(t, HeadersText(fs));
    BodyRun(u, "");
    assert "\r\n" + "" == "\r\n" && "" + "\r\n" == "\r\n";
    WithinLine(u, "");
    RunConcat(s, line, HeadersText(fs));
    RunConcat(s, line + HeadersText(fs), "\r\n");
    WithinConcat(s, line, HeadersText(fs));
    WithinConcat(s, line + HeadersText(fs), "\r\n");
    var head := line + HeadersText(fs) + "\r\n";
    WithinConcat(s, head, body);
    WithinBody(Run(s, head), body);
    assert head + body == MessageText(line, fs, body);
  }

  lemma {:induction false} WithinRequestLine(expectBody: bool, name: string, uri: string, version: string)
    requires IsMethod(name) && ' ' !in uri && Lineable(version)
    ensures WithinLimits(Start(Request, expectBody), RequestLine(name, uri, version))
       <==> |uri| <= 8192 && |version| + 1 <= 16
  {
    hide Run, Methods, WithinLimits, StripTrailing;
    var s := Start(Request, expectBody);
    MethodIs(name);
    MethodsSpaceless(name);
    MethodsShort(name);
    RunToken(s, name);
    assert "" + name == name && "" + uri == uri;
    var s1 := Run(s, name + [' ']);
    RunToken(s1, uri);
    var s2 := Run(s1, uri + [' ']);
    RunLine(s2, version);
    WithinToken(s, name);
    WithinToken(s1, uri);
    WithinLine(s2, version);
    WithinConcat(s, name + [' '], uri + [' '] + (version + "\r\n"));
    WithinConcat(s1, uri + [' '], version + "\r\n");
  }

  lemma {:induction false} MethodsShort(name: string)
    requires IsMethod(name)
    ensures |name| <= 16
  {
  }

  lemma {:induction false} WithinStatusLine(expectBody: bool, version: string, code: string, name: string)
    requires ' ' !in version && ' ' !in code && Stoi(code).Some? && Lineable(name)
    ensures WithinLimits(Start(Response, expectBody), StatusLine(version, code, name))
       <==> |version| <= 16 && |code| <= 8192 && |name| + 1 <= 16
  {
    hide Run, WithinLimits, StripTrailing, Stoi, StrNCaseEq;
    var s := Start(Response, expectBody);
    RunToken(s, version);
    assert "" + version == version && "" + code == code;
    var s1 := Run(s, version + [' ']);
    RunToken(s1, code);
    var s2 := Run(s1, code + [' ']);
    RunLine(s2, name);
    WithinToken(s, version);
    WithinToken(s1, code);
    WithinLine(s2, name);
    WithinConcat(s, version + [' '], code + [' '] + (name + "\r\n"));
    WithinConcat(s1, code + [' '], name + "\r\n");
  }

  predicate PlainRequest(expectBody: bool, name: string, uri: string, version: string, fs: seq<Field>) {
    IsMethod(name) && ' ' !in uri && Lineable(version) && AllPlain(fs) && Announced(Request, expectBody, 0, fs).Some?
  }

  /** The sizes of a request's parts, the carriage return of a line included. */
  predicate SmallRequest(uri: string, version: string, fs: seq<Field>) {
    |uri| <= 8192 && |version| + 1 <= 16 && SmallHeaders(fs)
  }

  /** A request overruns exactly when its body is longer than a length announced. */
  lemma {:induction false} RequestOverrunsIff(
    expectBody: bool, name: string, uri: string, version: string, fs: seq<Field>, body: string)
    requires PlainRequest(expectBody, name, uri, version, fs)
    ensures Overruns(Start(Request, expectBody), MessageText(RequestLine(name, uri, version), fs, body))
       <==> 0 < Announced(Request, expectBody, 0, fs).value < |body|
  {
    hide Run, Announced, AllPlain, Methods, HeadersText, Overruns, RequestLine, BehindHead;
    var s, line := Start(Request, expectBody), RequestLine(name, uri, version);
    RequestLineRun(expectBody, name, uri, version);
    WithinMessage(s, line, fs, body);
    OverrunsIff(s, line + HeadersText(fs) + "\r\n", body);
    assert line + HeadersText(fs) + "\r\n" + body == MessageText(line, fs, body);
  }

  /** For a request, in terms of its parts: every way of cutting it into chunks gives what the
      bytes give, exactly when its parts are within the limits and its body is not longer than a
      length announced. */
  lemma {:induction false} RequestChunkingIff(
    expectBody: bool, name: string, uri: string, version: string, fs: seq<Field>, body: string)
    requires PlainRequest(expectBody, name, uri, version, fs)
    ensures var s, text := Start(Request, expectBody), MessageText(RequestLine(name, uri, version), fs, body);
      (forall chunks | Joined(chunks) == text :: Feed(s, chunks) == Run(s, text))
      <==> SmallRequest(uri, version, fs) && !(0 < Announced(Request, expectBody, 0, fs).value < |body|)
  {
    hide Run, Feed, Joined, Announced, AllPlain, Methods, MessageText, WithinLimits, Overruns, RequestLine, SmallHeaders, BehindHead;
    var s, line := Start(Request, expectBody), RequestLine(name, uri, version);
    RequestLineRun(expectBody, name, uri, version);
    WithinRequestLine(expectBody, name, uri, version);
    WithinMessage(s, line, fs, body);
    RequestOverrunsIff(expectBody, name, uri, version, fs, body);
    ChunkingIrrelevantIff(Request, expectBody, MessageText(line, fs, body));
  }

  predicate PlainResponse(expectBody: bool, version: string, code: string, name: string, fs: seq<Field>) {
    ' ' !in version && ' ' !in code && Stoi(code).Some? && Lineable(name) && AllPlain(fs)
    && Announced(Response, expectBody, StatusExpected(version), fs).Some?
  }

  predicate SmallResponse(version: string, code: string, name: string, fs: seq<Field>) {
    |version| <= 16 && |code| <= 8192 && |name| + 1 <= 16 && SmallHeaders(fs)
  }

  lemma {:induction false} ResponseOverrunsIff(
    expectBody: bool, version: string, code: string, name: string, fs: seq<Field>, body: string)
    requires PlainResponse(expectBody, version, code, name, fs)
    ensures Overruns(Start(Response, expectBody), MessageText(StatusLine(version, code, name), fs, body))
       <==> 0 < Announced(Response, expectBody, StatusExpected(version), fs).value < |body|
  {
    hide Run, Announced, AllPlain, HeadersText, Overruns, StatusLine, BehindHead, StatusExpected, Stoi;
    var s, line := Start(Response, expectBody), StatusLine(version, code, name);
    StatusLineRun(expectBody, version, code, name);
    WithinMessage(s, line, fs, body);
    OverrunsIff(s, line + HeadersText(fs) + "\r\n", body);
    assert line + HeadersText(fs) + "\r\n" + body == MessageText(line, fs, body);
  }

  lemma {:induction false} ResponseChunkingIff(
    expectBody: bool, version: string, code: string, name: string, fs: seq<Field>, body: string)
    requires PlainResponse(expectBody, version, code, name, fs)
    ensures var s, text := Start(Response, expectBody), MessageText(StatusLine(version, code, name), fs, body);
      (forall chunks | Joined(chunks) == text :: Feed(s, chunks) == Run(s, text))
      <==> SmallResponse(version, code, name, fs)
           && !(0 < Announced(Response, expectBody, StatusExpected(version), fs).value < |body|)
  {
    hide Run, Feed, Joined, Announced, AllPlain, MessageText, WithinLimits, Overruns, StatusLine, SmallHeaders, BehindHead, StatusExpected, Stoi;
    var s, line := Start(Response, expectBody), StatusLine(version, code, name);
    StatusLineRun(expectBody, version, code, name);
    WithinStatusLine(expectBody, version, code, name);
    WithinMessage(s, line, fs, body);
    ResponseOverrunsIff(expectBody, version, code, name, fs, body);
    ChunkingIrrelevantIff(Response, expectBody, MessageText(line, fs, body));
  }

  // ---------------------------------------------------------------------------
  // Inputs that fail
  // ---------------------------------------------------------------------------

  /** Two bytes of body where one is announced: the chunks make a difference. */
  lemma {:induction false} OneByteTooMany()
    ensures var s := Start(Request, true);
      var text := MessageText(RequestLine("GET", "/", "HTTP/1.1"), [Field("Content-Length", "1")], "ab");
      Overruns(s, text) && exists chunks :: Joined(chunks) == text && Feed(s, chunks) != Run(s, text)
  {
    hide Run, Feed, Joined, MessageText, Overruns, RequestLine, StrNCaseEq, Stoul, IsLength, IsClose, Announced, Plain;
    var f := Field("Content-Length", "1");
    LengthOne();
    OneAnnounced(Request, true, 0, f);
    RequestOverrunsIff(true, "GET", "/", "HTTP/1.1", [f], "ab");
    RequestChunkingIff(true, "GET", "/", "HTTP/1.1", [f], "ab");
  }

  lemma {:induction false} LengthOne()
    ensures IsLength(Field("Content-Length", "1")) && Stoul("1") == Some(1) && Plain(Field("Content-Length", "1"))
  {
    hide Stoul;
    DecimalRead(1);
    assert Decimal(1) == "1";
  }

  /** A boundary behind seventeen bytes of a version: the parser raises, which it does not when
      the chunk holds the delimiter too. */
  lemma {:induction false} LongVersionCut()
    ensures var s, word := Start(Response, true), "HTTP/1.1-extended";
      Feed(s, [word, " "]).Raised? && Feed(s, [word, " "]).failure == TooLarge && CutInLongToken(s, [word, " "])
      && Feed(s, [word + " "]) == Run(s, word + " ") && Run(s, word + " ").Running?
  {
    hide Run, ChunkRun, Feed, StrNCaseEq;
    var s, word := Start(Response, true), "HTTP/1.1-extended";
    var text := word + " ";
    assert text[..17] == word && text[17..] == " " && "" + word == word && text == word + [' '];
    RunWord(s, word);
    CutRaises(s, text, 17);
    RunToken(s, word);
    OneChunk(s, text);
    if Overruns(s, text) {
      OverrunShows(s, text);
      assert false;
    }
    ChunkIsBytes(s, text);
    CutAt(s, word, " ");
  }

  lemma {:induction false} CutAt(s: State, a: string, b: string)
    requires Oversize(Run(s, a))
    ensures CutInLongToken(s, [a, b])
  {
    assert [a, b][..1] == [a] && [a][..0] == [] && Joined([]) == "" && "" + a == a;
    assert Joined([a, b][..1]) == a;
  }
}
