/** The incremental HTTP/1.x parser (`HTTPParser`), with every callback registered.
    A `char` stands for one byte. */
module HttpParser {
  import opened Messages
  import opened Chunks

  datatype Mode = Request | Response

  datatype Phase =
    | ReqMethod | ReqURI | ReqVersion
    | ResVersion | ResStatusCode | ResStatusName
    | Header | Body | Done

  datatype Event =
    | OnMethod(name: string)
    | OnURI(uri: string)
    | OnVersion(version: string)
    | OnStatusCode(code: int)
    | OnStatusName(name: string)
    | OnHeader(key: string, val: string)
    | OnHeadersComplete

  datatype Failure = TooLarge | InvalidMethod | InvalidStatusCode | InvalidHeader | InvalidContentLength | TrailingBytes

  /** What the callbacks have received: the events, and the body chunks concatenated. Body
      chunks only ever follow `OnHeadersComplete`, which is the last event. */
  datatype Output = Output(events: seq<Event>, body: string)

  datatype State =
    | Running(mode: Mode, phase: Phase, buf: string, read: nat, expected: nat, expectBody: bool, out: Output)
    | Raised(failure: Failure, out: Output)

  const kMaxMethodSize := 16
  const kMaxURISize := 8192
  const kMaxVersionSize := 16
  const kMaxHeaderSize := 65535

  /** `(size_t) -1`: the body ends with the connection. */
  const Unbounded: nat := 0xFFFF_FFFF_FFFF_FFFF

  const Methods: set<string> := {"CONNECT", "DELETE", "GET", "HEAD", "OPTIONS", "POST", "PUT", "TRACE"}

  // ---------------------------------------------------------------------------
  // Text
  // ---------------------------------------------------------------------------

  function Lower(c: char): char { if 'A' <= c <= 'Z' then c - 'A' + 'a' else c }

  /** `strncasecmp(a, b, n) == 0` for the literal `b`, which ends with a NUL. */
  function StrNCaseEq(a: string, b: string): bool {
    if a == "" then true else
    var y := if b == "" then '\0' else b[0];
    Lower(a[0]) == Lower(y) && (a[0] == '\0' || StrNCaseEq(a[1..], b[1..]))
  }

  function StripTrailing(s: string): string {
    if s != "" && s[|s| - 1] == '\r' then StripTrailing(s[..|s| - 1]) else s
  }

  function SkipSpaces(s: string): string {
    if s != "" && s[0] == ' ' then SkipSpaces(s[1..]) else s
  }

  /** The position of the first `c`, or the length when there is none. */
  function Find(s: string, c: char): (i: nat)
    ensures i <= |s| && (i < |s| ==> s[i] == c) && c !in s[..i]
  {
    if s == "" || s[0] == c then 0 else
    assert s[..1 + Find(s[1..], c)] == [s[0]] + s[1..][..Find(s[1..], c)];
    1 + Find(s[1..], c)
  }

  predicate IsSpace(c: char) { c == ' ' || '\t' <= c <= '\r' }

  function DigitsValue(s: string, sofar: nat): nat
    decreases |s|
  {
    if s != "" && '0' <= s[0] <= '9' then DigitsValue(s[1..], 10 * sofar + (s[0] as nat - '0' as nat)) else sofar
  }

  /** Decimal text as `strtol` reads it: leading space, a sign, digits, anything after. */
  function Integer(s: string): Option<int> {
    if s == "" then None
    else if IsSpace(s[0]) then Integer(s[1..])
    else
      var t := if s[0] == '+' || s[0] == '-' then s[1..] else s;
      if t == "" || !('0' <= t[0] <= '9') then None
      else Some((if s[0] == '-' then -1 else 1) * DigitsValue(t, 0))
  }

  function Stoi(s: string): Option<int> {
    match Integer(s)
    case None => None
    case Some(n) => if -0x8000_0000 <= n < 0x8000_0000 then Some(n) else None
  }

  /** `stoul` accepts a minus sign and negates modulo 2^64. */
  function Stoul(s: string): Option<nat> {
    match Integer(s)
    case None => None
    case Some(n) => if -1 - Unbounded < n <= Unbounded then Some(n % (Unbounded + 1)) else None
  }

  // ---------------------------------------------------------------------------
  // The reference: one byte at a time, no size limits
  // ---------------------------------------------------------------------------

  predicate InHead(p: Phase) { p != Body && p != Done }

  function Delimiter(p: Phase): char {
    if p == ReqVersion || p == ResStatusName || p == Header then '\n' else ' '
  }

  function Emitted(s: State, e: Event): Output { Output(s.out.events + [e], s.out.body) }

  function Next(s: State, phase: Phase, e: Event): State
    requires s.Running?
  {
    s.(phase := phase, buf := "", out := Emitted(s, e))
  }

  /** The expected body size once a header has been seen; None when its number is malformed. */
  function Expect(s: State, key: string, val: string): Option<nat>
    requires s.Running?
  {
    var length :=
      if s.expectBody && |key| == |"Content-Length"| && StrNCaseEq(key, "Content-Length") then Stoul(val)
      else Some(s.expected);
    if length.Some? && s.mode == Response && s.expectBody
       && |key| == |"Connection"| && StrNCaseEq(key, "Connection")
       && |val| == |"Close"| && StrNCaseEq(val, "Close")
    then Some(Unbounded) else length
  }

  function HeaderLine(s: State, line: string): State
    requires s.Running?
  {
    if line == "" then
      Next(s, if s.expected == 0 then Done else Body, OnHeadersComplete)
    else
      var i := Find(line, ':');
      if i == |line| then Raised(InvalidHeader, s.out) else
      var key, val := line[..i], SkipSpaces(line[i + 1..]);
      match Expect(s, key, val)
      case None => Raised(InvalidContentLength, s.out)
      case Some(n) => Next(s.(expected := n), Header, OnHeader(key, val))
  }

  /** The token in the buffer is complete. */
  function Token(s: State): State
    requires s.Running?
  {
    match s.phase
    case ReqMethod =>
      if s.buf in Methods then Next(s, ReqURI, OnMethod(s.buf)) else Raised(InvalidMethod, s.out)
    case ReqURI => Next(s, ReqVersion, OnURI(s.buf))
    case ReqVersion => Next(s, Header, OnVersion(StripTrailing(s.buf)))
    case ResVersion =>
      Next(s.(expected := if StrNCaseEq(s.buf, "HTTP/1.0") then Unbounded else s.expected), ResStatusCode, OnVersion(s.buf))
    case ResStatusCode =>
      (match Stoi(s.buf)
       case None => Raised(InvalidStatusCode, s.out)
       case Some(n) => Next(s, ResStatusName, OnStatusCode(n)))
    case ResStatusName => Next(s, Header, OnStatusName(StripTrailing(s.buf)))
    case Header => HeaderLine(s, StripTrailing(s.buf))
    case Body => s
    case Done => s
  }

  /** `readBody` on one chunk. */
  function ReadBody(s: State, data: string): State
    requires s.Running?
  {
    s.(phase := if s.read + |data| == s.expected then Done else s.phase,
       read := s.read + |data|,
       out := s.out.(body := s.out.body + data))
  }

  function Step(s: State, c: char): State {
    if s.Raised? then s
    else if InHead(s.phase) then if c == Delimiter(s.phase) then Token(s) else s.(buf := s.buf + [c])
    else if s.phase == Done && s.mode == Request then Raised(TrailingBytes, s.out)
    else ReadBody(s, [c])
  }

  function Run(s: State, text: string): State
    decreases |text|
  {
    if text == "" then s else Run(Step(s, text[0]), text[1..])
  }

  function Start(mode: Mode, expectBody: bool): State {
    Running(mode, if mode == Request then ReqMethod else ResVersion, "", 0, 0, expectBody, Output([], ""))
  }

  lemma {:induction false} RunConcat(s: State, a: string, b: string)
    ensures Run(s, a + b) == Run(Run(s, a), b)
    decreases |a|
  {
    hide Step;
    if a == "" {
      assert a + b == b;
    } else {
      assert (a + b)[1..] == a[1..] + b;
      RunConcat(Step(s, a[0]), a[1..], b);
    }
  }

  lemma {:induction false} RunRaised(s: State, text: string)
    requires s.Raised?
    ensures Run(s, text) == s && ChunkRun(s, text) == s
    decreases |text|
  {
    if text != "" {
      RunRaised(s, text[1..]);
    }
  }

  // ---------------------------------------------------------------------------
  // What one call of `parse` does
  // ---------------------------------------------------------------------------

  /** Like `Run`, except that the body takes the rest of the chunk at once. */
  function ChunkRun(s: State, chunk: string): State
    decreases |chunk|
  {
    if chunk == "" then s
    else if s.Running? && s.phase == Body then ReadBody(s, chunk)
    else ChunkRun(Step(s, chunk[0]), chunk[1..])
  }

  function Limit(p: Phase): nat {
    if p == ReqMethod then kMaxMethodSize
    else if p == ReqURI || p == ResStatusCode then kMaxURISize
    else if p == Header then kMaxHeaderSize
    else kMaxVersionSize
  }

  predicate Oversize(s: State) { s.Running? && InHead(s.phase) && |s.buf| > Limit(s.phase) }

  /** The limits are looked at only where the chunk ends inside a token. */
  function Limited(s: State): State { if Oversize(s) then Raised(TooLarge, s.out) else s }

  function ParseChunk(s: State, chunk: string): State { Limited(ChunkRun(s, chunk)) }

  lemma {:induction false} ChunkToken(s: State, word: string, rest: string)
    requires s.Running? && InHead(s.phase) && Delimiter(s.phase) !in word
    ensures ChunkRun(s, word + rest) == ChunkRun(s.(buf := s.buf + word), rest)
    decreases |word|
  {
    if word == "" {
      assert word + rest == rest && s.buf + word == s.buf;
    } else {
      assert (word + rest)[1..] == word[1..] + rest;
      assert s.buf + word == s.buf + [word[0]] + word[1..];
      ChunkToken(Step(s, word[0]), word[1..], rest);
    }
  }

  lemma {:induction false} ChunkDone(s: State, chunk: string)
    requires s.Running? && s.phase == Done && s.mode == Response
    ensures ChunkRun(s, chunk) == ReadBody(s, chunk)
    decreases |chunk|
  {
    if chunk == "" {
      assert s.out.body + chunk == s.out.body;
    } else {
      ChunkDone(Step(s, chunk[0]), chunk[1..]);
      assert s.out.body + chunk == s.out.body + [chunk[0]] + chunk[1..];
    }
  }

  lemma {:induction false} TokenFound(s: State, data: string, begin: nat, cur: nat)
    requires s.Running? && InHead(s.phase) && begin <= cur < |data|
    requires Delimiter(s.phase) !in data[begin..cur] && data[cur] == Delimiter(s.phase)
    ensures ChunkRun(Token(s.(buf := s.buf + data[begin..cur])), data[cur + 1..]) == ChunkRun(s, data[begin..])
  {
    hide Token;
    assert data[begin..] == data[begin..cur] + data[cur..];
    ChunkToken(s, data[begin..cur], data[cur..]);
    assert data[cur..][1..] == data[cur + 1..];
  }

  lemma {:induction false} TokenMissing(s: State, data: string, begin: nat)
    requires s.Running? && InHead(s.phase) && begin <= |data|
    requires Delimiter(s.phase) !in data[begin..]
    ensures ChunkRun(s, data[begin..]) == s.(buf := s.buf + data[begin..])
    ensures ChunkRun(s.(buf := s.buf + data[begin..]), data[|data|..]) == ChunkRun(s, data[begin..])
  {
    NoBytes(s.(buf := s.buf + data[begin..]));
    ChunkToken(s, data[begin..], "");
    assert data[|data|..] == "";
    assert data[begin..] + "" == data[begin..];
  }

  lemma {:induction false} TrailingByte(s: State, chunk: string)
    requires s.Running? && s.phase == Done && s.mode == Request && chunk != ""
    ensures ChunkRun(s, chunk) == Raised(TrailingBytes, s.out) == ChunkRun(Raised(TrailingBytes, s.out), chunk)
  {
    RunRaised(Step(s, chunk[0]), chunk[1..]);
  }

  lemma {:induction false} NoBytes(s: State)
    ensures ChunkRun(s, "") == s == Run(s, "")
  {
  }

  // ---------------------------------------------------------------------------
  // The parser
  // ---------------------------------------------------------------------------

  class Parser {
    const mode: Mode
    var phase: Phase
    var buf: string
    var read: nat
    var expected: nat
    var expectBody: bool
    var out: Output
    var raised: Option<Failure>

    ghost function State(): State
      reads this
    {
      if raised.Some? then Raised(raised.value, out)
      else Running(mode, phase, buf, read, expected, expectBody, out)
    }

    constructor (mode: Mode)
      ensures State() == Start(mode, true)
    {
      this.mode := mode;
      phase := if mode == Request then ReqMethod else ResVersion;
      buf, read, expected, expectBody, out, raised := "", 0, 0, true, Output([], ""), None;
    }

    method IgnoreBody()
      modifies this`expectBody
      ensures !expectBody
    {
      expectBody := false;
    }

    /** `readUntil` moves bytes to the buffer up to the delimiter or the end of the chunk. */
    method ReadUntil(data: string, begin: nat, search: char) returns (cur: nat, found: bool)
      requires begin <= |data|
      modifies this`buf
      ensures begin <= cur <= |data| && buf == old(buf) + data[begin..cur]
      ensures search !in data[begin..cur]
      ensures found == (cur < |data|) && (found ==> data[cur] == search)
    {
      cur := begin;
      while cur < |data| && data[cur] != search
        invariant begin <= cur <= |data| && search !in data[begin..cur]
      {
        cur := cur + 1;
      }
      buf := buf + data[begin..cur];
      found := cur < |data|;
    }

    /** `*begin` after one of the `parse*` states has run on `data[begin..]`. */
    twostate predicate Parsed(data: string, begin: nat, next: nat)
      reads this
    {
      begin < next <= |data|
      && (if raised == Some(TooLarge)
          then next == |data| && State() == ParseChunk(old(State()), data[begin..])
          else ChunkRun(State(), data[next..]) == ChunkRun(old(State()), data[begin..]))
      && (next == |data| ==> !Oversize(State()))
    }

    method ParseMethod(data: string, begin: nat) returns (next: nat)
      requires raised.None? && phase == ReqMethod && begin < |data|
      modifies this
      ensures Parsed(data, begin, next)
    {
      hide ChunkRun;
      ghost var s := State();
      var cur, found := ReadUntil(data, begin, ' ');
      next := cur;
      if found {
        TokenFound(s, data, begin, cur);
        phase := ReqURI;
        if buf in Methods {
          out := out.(events := out.events + [OnMethod(buf)]);
          buf := "";
        } else {
          raised := Some(InvalidMethod);
        }
        next := next + 1;
        return;
      }
      assert data[begin..cur] == data[begin..];
      TokenMissing(s, data, begin);
      if |buf| > kMaxMethodSize {
        raised := Some(TooLarge);
      }
    }

    method ParseURI(data: string, begin: nat) returns (next: nat)
      requires raised.None? && phase == ReqURI && begin < |data|
      modifies this
      ensures Parsed(data, begin, next)
    {
      hide ChunkRun;
      ghost var s := State();
      var cur, found := ReadUntil(data, begin, ' ');
      next := cur;
      if found {
        TokenFound(s, data, begin, cur);
        out := out.(events := out.events + [OnURI(buf)]);
        buf := "";
        phase := ReqVersion;
        next := next + 1;
        return;
      }
      assert data[begin..cur] == data[begin..];
      TokenMissing(s, data, begin);
      if |buf| > kMaxURISize {
        raised := Some(TooLarge);
      }
    }

    method ParseRequestVersion(data: string, begin: nat) returns (next: nat)
      requires raised.None? && phase == ReqVersion && begin < |data|
      modifies this
      ensures Parsed(data, begin, next)
    {
      hide ChunkRun;
      ghost var s := State();
      var cur, found := ReadUntil(data, begin, '\n');
      next := cur;
      if found {
        TokenFound(s, data, begin, cur);
        StripTrailingBytes();
        out := out.(events := out.events + [OnVersion(buf)]);
        buf := "";
        phase := Header;
        next := next + 1;
        return;
      }
      assert data[begin..cur] == data[begin..];
      TokenMissing(s, data, begin);
      if |buf| > kMaxVersionSize {
        raised := Some(TooLarge);
      }
    }

    method ParseResponseVersion(data: string, begin: nat) returns (next: nat)
      requires raised.None? && phase == ResVersion && begin < |data|
      modifies this
      ensures Parsed(data, begin, next)
    {
      hide ChunkRun;
      ghost var s := State();
      var cur, found := ReadUntil(data, begin, ' ');
      next := cur;
      if found {
        TokenFound(s, data, begin, cur);
        if StrNCaseEq(buf, "HTTP/1.0") {
          expected := Unbounded;
        }
        out := out.(events := out.events + [OnVersion(buf)]);
        buf := "";
        phase := ResStatusCode;
        next := next + 1;
        return;
      }
      assert data[begin..cur] == data[begin..];
      TokenMissing(s, data, begin);
      if |buf| > kMaxVersionSize {
        raised := Some(TooLarge);
      }
    }

    method ParseResponseStatusCode(data: string, begin: nat) returns (next: nat)
      requires raised.None? && phase == ResStatusCode && begin < |data|
      modifies this
      ensures Parsed(data, begin, next)
    {
      hide ChunkRun;
      ghost var s := State();
      var cur, found := ReadUntil(data, begin, ' ');
      next := cur;
      if found {
        TokenFound(s, data, begin, cur);
        var code := Stoi(buf);
        if code.None? {
          raised := Some(InvalidStatusCode);
        } else {
          out := out.(events := out.events + [OnStatusCode(code.value)]);
          buf := "";
          phase := ResStatusName;
        }
        next := next + 1;
        return;
      }
      assert data[begin..cur] == data[begin..];
      TokenMissing(s, data, begin);
      if |buf| > kMaxURISize {
        raised := Some(TooLarge);
      }
    }

    method ParseResponseStatusName(data: string, begin: nat) returns (next: nat)
      requires raised.None? && phase == ResStatusName && begin < |data|
      modifies this
      ensures Parsed(data, begin, next)
    {
      hide ChunkRun;
      ghost var s := State();
      var cur, found := ReadUntil(data, begin, '\n');
      next := cur;
      if found {
        TokenFound(s, data, begin, cur);
        StripTrailingBytes();
        out := out.(events := out.events + [OnStatusName(buf)]);
        buf := "";
        phase := Header;
        next := next + 1;
        return;
      }
      assert data[begin..cur] == data[begin..];
      TokenMissing(s, data, begin);
      if |buf| > kMaxVersionSize {
        raised := Some(TooLarge);
      }
    }

    method ParseHeader(data: string, begin: nat) returns (next: nat)
      requires raised.None? && phase == Header && begin < |data|
      modifies this
      ensures Parsed(data, begin, next)
    {
      hide ChunkRun;
      ghost var s := State();
      var cur, found := ReadUntil(data, begin, '\n');
      next := cur;
      if found {
        TokenFound(s, data, begin, cur);
        StripTrailingBytes();
        EndHeaderLine();
        next := next + 1;
        return;
      }
      assert data[begin..cur] == data[begin..];
      TokenMissing(s, data, begin);
      if |buf| > kMaxHeaderSize {
        raised := Some(TooLarge);
      }
    }

    method EndHeaderLine()
      requires raised.None? && phase == Header
      modifies this
      ensures State() == HeaderLine(old(State()), old(buf))
    {
      if |buf| > 0 {
        var i := Find(buf, ':');
        if i == |buf| {
          raised := Some(InvalidHeader);
          return;
        }
        var j := i + 1;
        while j < |buf| && buf[j] == ' '
          invariant i < j <= |buf| && SkipSpaces(buf[j..]) == SkipSpaces(buf[i + 1..])
        {
          j := j + 1;
        }
        ProcessHeader(buf[..i], buf[j..]);
        if raised.None? {
          buf := "";
          phase := Header;
        }
      } else {
        phase := if expected == 0 then Done else Body;
        out := out.(events := out.events + [OnHeadersComplete]);
      }
    }

    method ProcessHeader(key: string, val: string)
      requires raised.None?
      modifies this`expected, this`out, this`raised
      ensures match Expect(old(State()), key, val)
        case None => raised == Some(InvalidContentLength) && out == old(out)
        case Some(n) => raised.None? && expected == n && out == Emitted(old(State()), OnHeader(key, val))
    {
      if expectBody && |key| == |"Content-Length"| && StrNCaseEq(key, "Content-Length") {
        var n := Stoul(val);
        if n.None? {
          raised := Some(InvalidContentLength);
          return;
        }
        expected := n.value;
      }
      if mode == Response && expectBody
        && |key| == |"Connection"| && StrNCaseEq(key, "Connection")
        && |val| == |"Close"| && StrNCaseEq(val, "Close")
      {
        expected := Unbounded;
      }
      out := out.(events := out.events + [OnHeader(key, val)]);
    }

    method StripTrailingBytes()
      modifies this`buf
      ensures buf == StripTrailing(old(buf))
    {
      var cur := |buf|;
      assert buf[..cur] == buf;
      while cur > 0 && buf[cur - 1] == '\r'
        invariant 0 <= cur <= |buf| && StripTrailing(buf[..cur]) == StripTrailing(buf)
      {
        cur := cur - 1;
        assert buf[..cur + 1][..cur] == buf[..cur];
      }
      buf := buf[..cur];
    }

    method TakeBody(data: string, begin: nat) returns (next: nat)
      requires raised.None? && begin < |data|
      requires phase == Body || (phase == Done && mode == Response)
      modifies this
      ensures Parsed(data, begin, next)
    {
      ghost var s := State();
      if phase == Done {
        ChunkDone(s, data[begin..]);
      }
      read := read + |data[begin..]|;
      if read == expected {
        phase := Done;
      }
      out := out.(body := out.body + data[begin..]);
      next := |data|;
      assert State() == ReadBody(s, data[begin..]);
    }

    method Parse(data: string)
      requires raised.None? && !Oversize(State())
      modifies this
      ensures State() == ParseChunk(old(State()), data)
      ensures !Oversize(State())
    {
      hide ChunkRun;
      ghost var s := State();
      var begin := 0;
      assert data[0..] == data;
      while begin < |data| && raised.None?
        invariant begin <= |data|
        invariant raised != Some(TooLarge) ==> ChunkRun(State(), data[begin..]) == ChunkRun(s, data)
        invariant raised == Some(TooLarge) ==> State() == ParseChunk(s, data)
        invariant begin == |data| || raised.Some? ==> !Oversize(State())
        decreases |data| - begin, if raised.None? then 1 else 0
      {
        match phase {
          case ReqMethod => begin := ParseMethod(data, begin);
          case ReqURI => begin := ParseURI(data, begin);
          case ReqVersion => begin := ParseRequestVersion(data, begin);
          case ResVersion => begin := ParseResponseVersion(data, begin);
          case ResStatusCode => begin := ParseResponseStatusCode(data, begin);
          case ResStatusName => begin := ParseResponseStatusName(data, begin);
          case Header => begin := ParseHeader(data, begin);
          case Done =>
            if mode == Request {
              TrailingByte(State(), data[begin..]);
              raised := Some(TrailingBytes);
            } else {
              begin := TakeBody(data, begin);
            }
          case Body => begin := TakeBody(data, begin);
        }
      }
      if raised.None? {
        NoBytes(State());
        assert data[begin..] == "";
      } else if raised != Some(TooLarge) {
        RunRaised(State(), data[begin..]);
      }
    }
  }

  // ---------------------------------------------------------------------------
  // Chunks
  // ---------------------------------------------------------------------------

  /** The parser fed chunk by chunk; an exception ends the parse. */
  function Feed(s: State, chunks: seq<string>): State {
    if chunks == [] then s else
    var t := Feed(s, chunks[..|chunks| - 1]);
    if t.Raised? then t else ParseChunk(t, chunks[|chunks| - 1])
  }

  method ParseChunks(mode: Mode, ignoreBody: bool, chunks: seq<string>) returns (s: State)
    ensures s == Feed(Start(mode, !ignoreBody), chunks)
  {
    hide ParseChunk;
    var parser := new Parser(mode);
    if ignoreBody {
      parser.IgnoreBody();
    }
    ghost var start := parser.State();
    var i := 0;
    while i < |chunks| && parser.raised.None?
      invariant 0 <= i <= |chunks| && fresh(parser)
      invariant parser.State() == Feed(start, chunks[..i]) && !Oversize(parser.State())
    {
      assert chunks[..i + 1][..i] == chunks[..i];
      parser.Parse(chunks[i]);
      i := i + 1;
    }
    if parser.raised.None? {
      assert chunks[..i] == chunks;
      s := Running(parser.mode, parser.phase, parser.buf, parser.read, parser.expected, parser.expectBody, parser.out);
    } else {
      FeedRaised(start, chunks, i);
      s := Raised(parser.raised.value, parser.out);
    }
  }

  lemma {:induction false} FeedRaised(s: State, chunks: seq<string>, i: nat)
    requires i <= |chunks| && Feed(s, chunks[..i]).Raised?
    ensures Feed(s, chunks) == Feed(s, chunks[..i])
    decreases |chunks|
  {
    if i == |chunks| {
      assert chunks[..i] == chunks;
    } else {
      assert chunks[..|chunks| - 1][..i] == chunks[..i];
      FeedRaised(s, chunks[..|chunks| - 1], i);
    }
  }

  /** The body is complete and the header announced one. */
  predicate Full(s: State) { s.Running? && s.phase == Done && s.read == s.expected > 0 }

  /** Bytes follow a body that already has the announced length. */
  ghost predicate Overruns(s: State, text: string) {
    exists k :: 0 < k < |text| && Full(Run(s, text[..k]))
  }

  /** What holds of every state the byte automaton reaches. */
  predicate Sane(s: State) {
    s.Running? ==>
      (InHead(s.phase) ==> s.read == 0)
      && (s.phase == Body ==> s.read < s.expected)
      && (s.phase == Done ==> s.read >= s.expected)
  }

  lemma {:induction false} SaneStep(s: State, c: char)
    requires Sane(s)
    ensures Sane(Step(s, c))
  {
  }

  lemma {:induction false} SaneRun(s: State, text: string)
    requires Sane(s)
    ensures Sane(Run(s, text))
    decreases |text|
  {
    hide Step, Sane;
    if text != "" {
      SaneStep(s, text[0]);
      SaneRun(Step(s, text[0]), text[1..]);
    }
  }

  lemma {:induction false} RunBody(s: State, text: string)
    requires s.Running? && s.phase == Body && s.read + |text| <= s.expected && s.read < s.expected
    ensures Run(s, text) == ReadBody(s, text)
    decreases |text|
  {
    if text == "" {
      assert s.out.body + text == s.out.body;
    } else {
      var t := Step(s, text[0]);
      assert s.out.body + text == s.out.body + [text[0]] + text[1..];
      if |text| == 1 {
        assert text[1..] == "" && text == [text[0]];
      } else {
        RunBody(t, text[1..]);
      }
    }
  }

  lemma {:induction false} OverrunsLater(s: State, text: string)
    requires text != ""
    requires Overruns(Step(s, text[0]), text[1..])
    ensures Overruns(s, text)
  {
    hide Step, Full;
    var t := Step(s, text[0]);
    var k :| 0 < k < |text[1..]| && Full(Run(t, text[1..][..k]));
    assert text[..k + 1][0] == text[0] && text[..k + 1][1..] == text[1..][..k];
  }

  /** One chunk agrees with the byte automaton unless the body is overrun inside it. */
  lemma {:induction false} ChunkIsBytes(s: State, text: string)
    requires Sane(s) && !Overruns(s, text)
    ensures ChunkRun(s, text) == Run(s, text)
    decreases |text|
  {
    hide Step, Full, Sane, InHead;
    if text == "" {
    } else if s.Running? && s.phase == Body {
      BodyFits(s, text);
    } else {
      SaneStep(s, text[0]);
      if Overruns(Step(s, text[0]), text[1..]) {
        OverrunsLater(s, text);
      }
      ChunkIsBytes(Step(s, text[0]), text[1..]);
    }
  }

  lemma {:induction false} BodyFits(s: State, text: string)
    requires Sane(s) && s.Running? && s.phase == Body && !Overruns(s, text)
    ensures ReadBody(s, text) == Run(s, text)
  {
    hide Run, Step;
    var k := s.expected - s.read;
    if k < |text| {
      RunBody(s, text[..k]);
      assert false;
    }
    RunBody(s, text);
  }

  lemma {:induction false} DoneStays(s: State, text: string)
    requires s.Running? ==> s.phase == Done
    ensures var t := Run(s, text); t.Running? ==> t.phase == Done
    decreases |text|
  {
    if text != "" {
      DoneStays(Step(s, text[0]), text[1..]);
    }
  }

  lemma {:induction false} EnterDone(s: State, c: char)
    requires s.Running? && InHead(s.phase)
    ensures var t := Step(s, c); t.Running? && t.phase == Done ==> t.expected == 0
  {
  }

  lemma {:induction false} NeverFull(s: State, text: string)
    requires s.Running? ==> s.phase == Done && s.expected == 0
    ensures !Full(Run(s, text))
    decreases |text|
  {
    if text != "" {
      NeverFull(Step(s, text[0]), text[1..]);
    }
  }

  lemma {:induction false} OverrunInBody(s: State, text: string, k: nat)
    requires Sane(s) && s.Running? && s.phase == Body
    requires k < |text| && Full(Run(s, text[..k]))
    ensures ChunkRun(s, text).Running? && ChunkRun(s, text).phase == Body
  {
    if s.read + k < s.expected {
      RunBody(s, text[..k]);
      assert false;
    }
  }

  /** Inside one chunk an overrun goes unnoticed: the chunk parser stays in the body. */
  lemma {:induction false} OverrunUnnoticed(s: State, text: string)
    requires Sane(s) && Overruns(s, text) && s.Running? && s.phase != Done
    ensures var t := ChunkRun(s, text); t.Running? && t.phase == Body
    ensures var t := Run(s, text); t.Running? ==> t.phase == Done
    decreases |text|
  {
    hide Step, ReadBody, Sane, Full;
    var k :| 0 < k < |text| && Full(Run(s, text[..k]));
    assert text == text[..k] + text[k..];
    RunConcat(s, text[..k], text[k..]);
    FullIsDone(Run(s, text[..k]));
    DoneStays(Run(s, text[..k]), text[k..]);
    if s.phase == Body {
      OverrunInBody(s, text, k);
    } else {
      var t := Step(s, text[0]);
      SaneStep(s, text[0]);
      assert text[..k][0] == text[0] && text[..k][1..] == text[1..][..k - 1];
      EnterDone(s, text[0]);
      if t.Raised? || t.phase == Done {
        NeverFull(t, text[1..][..k - 1]);
        assert false;
      }
      if k == 1 {
        FullIsDone(t);
        assert false;
      }
      OverrunUnnoticed(t, text[1..]);
    }
  }

  lemma {:induction false} FullIsDone(s: State)
    requires Full(s)
    ensures s.Running? && s.phase == Done
  {
  }

  /** A chunk boundary falls inside a token that is already over its limit. */
  ghost predicate CutInLongToken(s: State, chunks: seq<string>) {
    exists i :: 0 <= i <= |chunks| && Oversize(Run(s, Joined(chunks[..i])))
  }

  lemma {:induction false} OverrunsShift(s: State, a: string, b: string)
    ensures Overruns(s, a) ==> Overruns(s, a + b)
    ensures Overruns(Run(s, a), b) ==> Overruns(s, a + b)
  {
    hide Run, Full;
    if Overruns(s, a) {
      var k :| 0 < k < |a| && Full(Run(s, a[..k]));
      assert (a + b)[..k] == a[..k];
    }
    if Overruns(Run(s, a), b) {
      var k :| 0 < k < |b| && Full(Run(Run(s, a), b[..k]));
      RunConcat(s, a, b[..k]);
      assert (a + b)[..|a| + k] == a + b[..k];
    }
  }

  lemma {:induction false} CutShift(s: State, chunks: seq<string>)
    requires chunks != []
    ensures CutInLongToken(s, chunks)
       <==> CutInLongToken(s, chunks[..|chunks| - 1]) || Oversize(Run(s, Joined(chunks)))
  {
    hide Run, Oversize, Joined;
    var front := chunks[..|chunks| - 1];
    forall i | 0 <= i <= |front| ensures front[..i] == chunks[..i] {}
    assert chunks[..|chunks|] == chunks;
  }

  /** The parser has raised at such a boundary, with what was emitted before it. */
  ghost predicate RaisedAtCut(s: State, chunks: seq<string>) {
    exists i :: 0 <= i <= |chunks| && Oversize(Run(s, Joined(chunks[..i])))
      && Feed(s, chunks) == Raised(TooLarge, Run(s, Joined(chunks[..i])).out)
  }

  /** For every way of cutting the text into chunks: the parser ends where the byte automaton
      does, or raises exactly when a boundary falls inside an over-long token. */
  lemma {:induction false} ChunksAreBytes(s: State, chunks: seq<string>)
    requires Sane(s) && s.Running? && !Oversize(s) && !Overruns(s, Joined(chunks))
    ensures if CutInLongToken(s, chunks) then RaisedAtCut(s, chunks) else Feed(s, chunks) == Run(s, Joined(chunks))
    decreases |chunks|
  {
    hide Sane, Run, Overruns, CutInLongToken, RaisedAtCut, Oversize, ChunkRun;
    if chunks == [] {
      NoBytes(s);
      NoCut(s);
    } else {
      var front, c := chunks[..|chunks| - 1], chunks[|chunks| - 1];
      OverrunsShift(s, Joined(front), c);
      ChunksAreBytes(s, front);
      CutShift(s, chunks);
      RunConcat(s, Joined(front), c);
      var t := Run(s, Joined(front));
      SaneRun(s, Joined(front));
      ChunkIsBytes(t, c);
      if t.Raised? {
        RunRaised(t, c);
        RaisedFits(t);
      }
      if CutInLongToken(s, front) {
        RaisedEarlier(s, chunks);
      } else if CutInLongToken(s, chunks) {
        RaisedNow(s, chunks);
      }
    }
  }

  lemma {:induction false} RaisedEarlier(s: State, chunks: seq<string>)
    requires chunks != [] && RaisedAtCut(s, chunks[..|chunks| - 1])
    ensures RaisedAtCut(s, chunks)
  {
    hide Run, Joined, Oversize, ParseChunk;
    var front := chunks[..|chunks| - 1];
    var i :| 0 <= i <= |front| && Oversize(Run(s, Joined(front[..i])))
      && Feed(s, front) == Raised(TooLarge, Run(s, Joined(front[..i])).out);
    assert front[..i] == chunks[..i];
  }

  lemma {:induction false} RaisedNow(s: State, chunks: seq<string>)
    requires Oversize(Run(s, Joined(chunks))) && Feed(s, chunks) == Limited(Run(s, Joined(chunks)))
    ensures RaisedAtCut(s, chunks)
  {
    hide Run, Joined, Feed;
    assert chunks[..|chunks|] == chunks;
  }

  lemma {:induction false} NoCut(s: State)
    requires !Oversize(s)
    ensures !CutInLongToken(s, [])
  {
  }

  lemma {:induction false} RaisedFits(s: State)
    requires s.Raised?
    ensures !Oversize(s)
  {
  }

  /** No token of the text, finished or not, is longer than its limit. */
  ghost predicate WithinLimits(s: State, text: string) {
    forall k :: 0 <= k <= |text| ==> !Oversize(Run(s, text[..k]))
  }

  lemma {:induction false} JoinedPrefix(chunks: seq<string>, i: nat)
    requires i <= |chunks|
    ensures Joined(chunks[..i]) <= Joined(chunks)
    decreases |chunks|
  {
    if i == |chunks| {
      assert chunks[..i] == chunks;
    } else {
      JoinedPrefix(chunks[..|chunks| - 1], i);
      assert chunks[..|chunks| - 1][..i] == chunks[..i];
    }
  }

  lemma {:induction false} WithinNeverCut(s: State, chunks: seq<string>)
    requires WithinLimits(s, Joined(chunks))
    ensures !CutInLongToken(s, chunks)
  {
    hide Run, Oversize, Joined;
    forall i | 0 <= i <= |chunks| ensures !Oversize(Run(s, Joined(chunks[..i]))) {
      JoinedPrefix(chunks, i);
      assert Joined(chunks)[..|Joined(chunks[..i])|] == Joined(chunks[..i]);
    }
  }

  lemma {:induction false} NeverTooLarge(s: State, text: string)
    requires s.Raised? ==> s.failure != TooLarge
    ensures var t := Run(s, text); t.Raised? ==> t.failure != TooLarge
    decreases |text|
  {
    if text != "" {
      NeverTooLarge(Step(s, text[0]), text[1..]);
    }
  }

  /** Cutting the text inside an over-long token makes the parser raise. */
  lemma {:induction false} CutRaises(s: State, text: string, k: nat)
    requires Sane(s) && s.Running? && k <= |text| && Oversize(Run(s, text[..k]))
    ensures Feed(s, [text[..k], text[k..]]) == Raised(TooLarge, Run(s, text[..k]).out)
  {
    hide Run, ChunkRun, Sane, Overruns;
    var a, chunks := text[..k], [text[..k], text[k..]];
    if Overruns(s, a) {
      if s.phase == Done {
        DoneStays(s, a);
      } else {
        OverrunUnnoticed(s, a);
      }
      assert false;
    }
    ChunkIsBytes(s, a);
    assert chunks[..1] == [a] && [a][..0] == [];
    assert Feed(s, []) == s;
    assert Feed(s, [a]) == ParseChunk(s, a);
  }

  lemma {:induction false} OneChunk(s: State, text: string)
    requires s.Running?
    ensures Joined([text]) == text && Feed(s, [text]) == ParseChunk(s, text)
  {
    hide ParseChunk;
    assert [text][..0] == [] && Joined([]) == "" && "" + text == text;
  }

  lemma {:induction false} TwoChunks(text: string, k: nat)
    requires k <= |text|
    ensures Joined([text[..k], text[k..]]) == text
  {
    var chunks := [text[..k], text[k..]];
    assert chunks[..1] == [text[..k]] && chunks[..1][..0] == [];
    assert Joined([]) == "" && "" + text[..k] == text[..k];
    assert Joined(chunks[..1]) == text[..k];
    assert text[..k] + text[k..] == text;
  }

  /** Every way of cutting the input into chunks ends where the bytes end exactly when no token is
      longer than its limit and the body does not run past its announced length. */
  lemma {:induction false} ChunkingIrrelevantIff(mode: Mode, expectBody: bool, text: string)
    ensures (forall chunks | Joined(chunks) == text ::
               Feed(Start(mode, expectBody), chunks) == Run(Start(mode, expectBody), text))
       <==> WithinLimits(Start(mode, expectBody), text) && !Overruns(Start(mode, expectBody), text)
  {
    hide Run, ChunkRun, Overruns, Feed, Joined;
    var s := Start(mode, expectBody);
    if !WithinLimits(s, text) {
      var k :| 0 <= k <= |text| && Oversize(Run(s, text[..k]));
      TwoChunks(text, k);
      CutRaises(s, text, k);
      NeverTooLarge(s, text);
    } else if Overruns(s, text) {
      OverrunUnnoticed(s, text);
      OneChunk(s, text);
    } else {
      forall chunks | Joined(chunks) == text ensures Feed(s, chunks) == Run(s, text) {
        WithinNeverCut(s, chunks);
        ChunksAreBytes(s, chunks);
      }
    }
  }

  lemma {:induction false} PastDone(s: State, text: string)
    requires s.Running? && s.phase == Done
    ensures var t := Run(s, text); t.Running? ==> t.read == s.read + |text| && t.expected == s.expected
    decreases |text|
  {
    if text != "" {
      if Step(s, text[0]).Raised? {
        RunRaised(Step(s, text[0]), text[1..]);
      } else {
        PastDone(Step(s, text[0]), text[1..]);
      }
    }
  }

  /** A token over its limit is completed by its delimiter. */
  ghost predicate LongTokenEnds(s: State, text: string) {
    exists k :: 0 <= k < |text| && Oversize(Run(s, text[..k])) && text[k] == Delimiter(Run(s, text[..k]).phase)
  }

  /** A token over its limit that is never completed swallows the rest of the text. */
  lemma {:induction false} OversizeStays(s: State, text: string, k: nat, j: nat)
    requires k <= j <= |text| && Oversize(Run(s, text[..k])) && !LongTokenEnds(s, text)
    ensures Oversize(Run(s, text[..j])) && Run(s, text[..j]).out == Run(s, text[..k]).out
    decreases j
  {
    hide Run;
    if k < j {
      OversizeStays(s, text, k, j - 1);
      RunSnoc(s, text, j);
    }
  }

  lemma {:induction false} RunSnoc(s: State, text: string, j: nat)
    requires 0 < j <= |text|
    ensures Run(s, text[..j]) == Step(Run(s, text[..j - 1]), text[j - 1])
  {
    hide Step;
    var c := text[j - 1..j];
    assert text[..j] == text[..j - 1] + c && c[0] == text[j - 1] && c[1..] == "";
    RunConcat(s, text[..j - 1], c);
    assert Run(Run(s, text[..j - 1]), c) == Run(Step(Run(s, text[..j - 1]), c[0]), "");
  }

  lemma {:induction false} NotFullBeforeHead(s: State, text: string, j: nat)
    requires j <= |text| && Run(s, text).Running? && InHead(Run(s, text).phase)
    ensures !Full(Run(s, text[..j]))
  {
    hide Run, InHead;
    if Full(Run(s, text[..j])) {
      RunConcat(s, text[..j], text[j..]);
      assert text[..j] + text[j..] == text;
      DoneStays(Run(s, text[..j]), text[j..]);
      DoneIsNotHead();
    }
  }

  lemma {:induction false} DoneIsNotHead()
    ensures !InHead(Done)
  {
  }

  lemma {:induction false} TokenEmits(s: State)
    requires s.Running? && InHead(s.phase)
    ensures var t := Token(s);
      if t.Raised? then t.failure != TooLarge else t.buf == "" && |t.out.events| == |s.out.events| + 1
  {
  }

  lemma {:induction false} EventsGrow(s: State, chunk: string)
    ensures |ChunkRun(s, chunk).out.events| >= |s.out.events|
    decreases |chunk|
  {
    hide Token;
    if chunk != "" && !(s.Running? && s.phase == Body) {
      if s.Running? && InHead(s.phase) {
        TokenGrows(s);
      }
      EventsGrow(Step(s, chunk[0]), chunk[1..]);
    }
  }

  lemma {:induction false} TokenGrows(s: State)
    requires s.Running?
    ensures |Token(s).out.events| >= |s.out.events|
  {
  }

  lemma {:induction false} TwoFed(s: State, text: string, k: nat)
    requires s.Running? && k <= |text|
    ensures var t := ParseChunk(s, text[..k]);
      Feed(s, [text[..k], text[k..]]) == if t.Raised? then t else ParseChunk(t, text[k..])
  {
    hide ParseChunk;
    var chunks := [text[..k], text[k..]];
    assert chunks[..1] == [text[..k]] && [text[..k]][..0] == [];
    assert Feed(s, []) == s;
    assert Feed(s, [text[..k]]) == ParseChunk(s, text[..k]);
  }

  /** Whether a boundary falls before or behind the delimiter of an over-long token shows. */
  lemma {:induction false} LongTokenShows(s: State, text: string, k: nat)
    requires Sane(s) && s.Running? && k < |text|
    requires Oversize(Run(s, text[..k])) && text[k] == Delimiter(Run(s, text[..k]).phase)
    ensures Feed(s, [text[..k], text[k..]]) != Feed(s, [text[..k + 1], text[k + 1..]])
  {
    hide Run, ChunkRun, Sane, Token, Full;
    var a, u := text[..k + 1], Run(s, text[..k]);
    CutRaises(s, text, k);
    RunSnoc(s, text, k + 1);
    TokenEmits(u);
    forall j | 0 <= j < |a| ensures !Full(Run(s, a[..j])) {
      NotFullBeforeHead(s, text[..k], j);
      assert text[..k][..j] == a[..j];
    }
    ChunkIsBytes(s, a);
    TwoFed(s, text, k + 1);
    if Token(u).Running? {
      EventsGrow(Token(u), text[k + 1..]);
    }
  }

  lemma {:induction false} ChunkDoneStays(s: State, chunk: string)
    requires s.Running? ==> s.phase == Done
    ensures var t := ChunkRun(s, chunk); t.Running? ==> t.phase == Done
    decreases |chunk|
  {
    if chunk != "" {
      ChunkDoneStays(Step(s, chunk[0]), chunk[1..]);
    }
  }

  /** Whether a boundary falls right behind an overrun body shows. */
  lemma {:induction false} OverrunShown(s: State, text: string, k: nat)
    requires Sane(s) && s.Running? && s.phase != Done && 0 < k < |text| && Full(Run(s, text[..k]))
    ensures Feed(s, [text]) != Feed(s, [text[..k], text[k..]])
  {
    hide Run, ChunkRun, Sane;
    var a, t := text[..k], Run(s, text[..k]);
    forall j | 0 < j < k ensures !Full(Run(s, a[..j])) {
      if Full(Run(s, a[..j])) {
        RunConcat(s, a[..j], a[j..]);
        assert a[..j] + a[j..] == a;
        PastDone(Run(s, a[..j]), a[j..]);
      }
    }
    ChunkIsBytes(s, a);
    TwoFed(s, text, k);
    ChunkDoneStays(t, text[k..]);
    OverrunUnnoticed(s, text);
    OneChunk(s, text);
  }

  lemma {:induction false} CutsAgree(s: State, text: string, chunks: seq<string>)
    requires Sane(s) && s.Running? && !Oversize(s) && Joined(chunks) == text
    requires !LongTokenEnds(s, text) && !Overruns(s, text)
    ensures Feed(s, chunks) == Limited(Run(s, text))
  {
    hide Run, Feed, Joined, Overruns, Sane, Oversize;
    ChunksAreBytes(s, chunks);
    assert text[..|text|] == text && chunks[..|chunks|] == chunks;
    if CutInLongToken(s, chunks) {
      var i :| 0 <= i <= |chunks| && Oversize(Run(s, Joined(chunks[..i])))
        && Feed(s, chunks) == Raised(TooLarge, Run(s, Joined(chunks[..i])).out);
      JoinedPrefix(chunks, i);
      var k := |Joined(chunks[..i])|;
      assert text[..k] == Joined(chunks[..i]);
      OversizeStays(s, text, k, |text|);
    }
  }

  /** How the input is cut into chunks makes no difference, to the state, the events and the
      exception, exactly when no token over its limit is completed and the body does not run past
      its announced length. */
  lemma {:induction false} CutIrrelevantIff(mode: Mode, expectBody: bool, text: string)
    ensures var s := Start(mode, expectBody);
      (forall chunks, others | Joined(chunks) == text && Joined(others) == text :: Feed(s, chunks) == Feed(s, others))
      <==> !LongTokenEnds(s, text) && !Overruns(s, text)
  {
    hide Run, Feed, Joined, Full;
    var s := Start(mode, expectBody);
    if LongTokenEnds(s, text) {
      var k :| 0 <= k < |text| && Oversize(Run(s, text[..k])) && text[k] == Delimiter(Run(s, text[..k]).phase);
      LongTokenShows(s, text, k);
      TwoChunks(text, k);
      TwoChunks(text, k + 1);
    } else if Overruns(s, text) {
      var k :| 0 < k < |text| && Full(Run(s, text[..k]));
      OverrunShown(s, text, k);
      OneChunk(s, text);
      TwoChunks(text, k);
    } else {
      forall chunks, others | Joined(chunks) == text && Joined(others) == text ensures Feed(s, chunks) == Feed(s, others) {
        CutsAgree(s, text, chunks);
        CutsAgree(s, text, others);
      }
    }
  }
}
