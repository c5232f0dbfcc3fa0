/** Server-sent events: the incremental parser (`HTTPSSEParser`) and the sender
    (`HTTPSSEStream::sendEvent`). A `char` stands for one byte. */
module EventStream {
  import opened Messages
  import opened Chunks

  datatype Event = Event(data: string, name: Option<string>)

  const Blank: Event := Event("", None)

  predicate IsBreak(c: char) { c == '\r' || c == '\n' }

  predicate BreakFree(s: string) { forall i :: 0 <= i < |s| ==> !IsBreak(s[i]) }

  /** The events that can be carried: non-empty data, and no line break in data or name. */
  predicate Sendable(e: Event) {
    e.data != "" && BreakFree(e.data) && (e.name.Some? ==> BreakFree(e.name.value))
  }

  // ---------------------------------------------------------------------------
  // The reference: a line automaton that sees one byte at a time
  // ---------------------------------------------------------------------------

  /** The unfinished line, the fields collected since the last blank line, and whether the
      last byte was a CR whose line end has already been taken. */
  datatype Reader = Reader(line: string, fields: Event, cr: bool)

  const Start: Reader := Reader("", Blank, false)

  function TakeLine(e: Event, line: string): Event {
    if "data: " <= line then e.(data := line[6..])
    else if "event: " <= line then e.(name := Some(line[7..]))
    else e
  }

  predicate EndsLine(s: Reader, c: char) { IsBreak(c) && !(c == '\n' && s.cr) }

  function Step(s: Reader, c: char): Reader {
    if !IsBreak(c) then Reader(s.line + [c], s.fields, false)
    else if !EndsLine(s, c) then s.(cr := false)
    else Reader("", if s.line == "" then Blank else TakeLine(s.fields, s.line), c == '\r')
  }

  function Dispatch(e: Event): seq<Event> { if e.data == "" then [] else [e] }

  /** A blank line dispatches the fields collected so far. */
  function Emit(s: Reader, c: char): seq<Event> {
    if EndsLine(s, c) && s.line == "" then Dispatch(s.fields) else []
  }

  function After(s: Reader, text: string): Reader {
    if text == "" then s else Step(After(s, text[..|text| - 1]), text[|text| - 1])
  }

  function EventsFrom(s: Reader, text: string): seq<Event> {
    if text == "" then [] else
    EventsFrom(s, text[..|text| - 1]) + Emit(After(s, text[..|text| - 1]), text[|text| - 1])
  }

  function Events(text: string): seq<Event> { EventsFrom(Start, text) }

  lemma {:induction false} Snoc(s: Reader, text: string, c: char)
    ensures After(s, text + [c]) == Step(After(s, text), c)
    ensures EventsFrom(s, text + [c]) == EventsFrom(s, text) + Emit(After(s, text), c)
  {
    assert (text + [c])[..|text|] == text;
  }

  lemma {:induction false} Nothing(s: Reader)
    ensures After(s, "") == s && EventsFrom(s, "") == []
  {
  }

  lemma {:induction false} Concat(s: Reader, a: string, b: string)
    ensures After(s, a + b) == After(After(s, a), b)
    ensures EventsFrom(s, a + b) == EventsFrom(s, a) + EventsFrom(After(s, a), b)
    decreases |b|
  {
    hide *;
    if b == "" {
      Nothing(After(s, a));
      assert a + b == a;
    } else {
      var b', c := b[..|b| - 1], b[|b| - 1];
      Concat(s, a, b');
      Snoc(s, a + b', c);
      Snoc(After(s, a), b', c);
      assert b == b' + [c] && a + b == a + b' + [c];
      assert EventsFrom(s, a) + EventsFrom(After(s, a), b') + Emit(After(After(s, a), b'), c)
          == EventsFrom(s, a) + (EventsFrom(After(s, a), b') + Emit(After(After(s, a), b'), c));
    }
  }

  /** Two readers that behave the same from here on: when nothing is collected, a pending CR
      makes no difference, since the extra blank line dispatches nothing. */
  predicate Alike(s: Reader, t: Reader) {
    s.line == t.line && s.fields == t.fields && (s.cr == t.cr || (s.line == "" && s.fields == Blank))
  }

  lemma {:induction false} AlikeRuns(s: Reader, t: Reader, text: string)
    requires Alike(s, t)
    ensures Alike(After(s, text), After(t, text))
    ensures EventsFrom(s, text) == EventsFrom(t, text)
    decreases |text|
  {
    if text != "" {
      AlikeRuns(s, t, text[..|text| - 1]);
    }
  }

  // ---------------------------------------------------------------------------
  // The parser
  // ---------------------------------------------------------------------------

  /** The fields of a block of lines, blank lines ignored. */
  function Collect(text: string): Reader {
    if text == "" then Start else
    var s, c := Collect(text[..|text| - 1]), text[|text| - 1];
    if EndsLine(s, c) && s.line == "" then s.(cr := c == '\r') else Step(s, c)
  }

  lemma {:induction false} CollectSnoc(text: string, c: char)
    ensures Collect(text + [c]) ==
      var s := Collect(text); if EndsLine(s, c) && s.line == "" then s.(cr := c == '\r') else Step(s, c)
  {
    assert (text + [c])[..|text|] == text;
  }

  lemma {:induction false} CollectByte(text: string, c: char)
    ensures var s, t := Collect(text), Collect(text + [c]);
      if !IsBreak(c) then t == Reader(s.line + [c], s.fields, false)
      else if c == '\n' && s.cr then t == s.(cr := false)
      else t == Reader("", if s.line == "" then s.fields else TakeLine(s.fields, s.line), c == '\r')
  {
    hide Collect;
    CollectSnoc(text, c);
  }

  /** What the scan knows of the text since the block began: below two consecutive line ends
      nothing has been dispatched and the fields are the block's; at two the block is whole. */
  ghost predicate Scanned(text: string, breaks: nat) {
    var s, k := After(Start, text), Collect(text);
    if breaks < 2 then
      Events(text) == [] && s == k
      && (breaks == 0 && text != "" ==> s.line != "")
      && (breaks == 1 ==> s.line == "" && text != "")
    else
      breaks == 2 && text != "" && Block(text)
  }

  /** A block the parser cuts out: reading it alone ends between events and dispatches its fields. */
  ghost predicate Block(text: string) {
    After(Start, text).line == "" && After(Start, text).fields == Blank && Collect(text).line == ""
    && Events(text) == Dispatch(Collect(text).fields)
  }

  lemma {:induction false} ScanByte(text: string, breaks: nat, c: char)
    requires Scanned(text, breaks) && breaks < 2
    requires c == '\n' ==> !After(Start, text).cr
    ensures Scanned(text + [c], if IsBreak(c) then breaks + 1 else 0)
    ensures After(Start, text + [c]).cr == (c == '\r')
  {
    hide After, EventsFrom, Collect;
    Snoc(Start, text, c);
    CollectSnoc(text, c);
    NothingRead();
  }

  lemma {:induction false} NothingRead()
    ensures After(Start, "") == Start && Collect("") == Start && Events("") == []
  {
  }

  lemma {:induction false} ScanLineFeed(text: string, breaks: nat)
    requires Scanned(text, breaks) && breaks > 0
    requires After(Start, text).cr
    ensures Scanned(text + ['\n'], breaks)
    ensures !After(Start, text + ['\n']).cr
  {
    hide After, EventsFrom, Collect;
    Snoc(Start, text, '\n');
    CollectSnoc(text, '\n');
  }

  /** The block scan of `parse`: looks for two consecutive line ends. */
  method FindBlock(buf: string, begin: nat) returns (cur: nat, found: bool)
    requires begin <= |buf|
    ensures begin <= cur <= |buf|
    ensures found ==> begin < cur && Block(buf[begin..cur])
    ensures !found ==> Events(buf[begin..]) == []
  {
    hide After, EventsFrom, Collect, Block;
    var end := |buf|;
    var breaks := 0;
    cur := begin;
    NothingRead();
    assert buf[begin..begin] == "";
    while breaks < 2 && cur < end
      invariant begin <= cur <= end && breaks <= 2
      invariant Scanned(buf[begin..cur], breaks)
      invariant cur < end && buf[cur] == '\n' ==> !After(Start, buf[begin..cur]).cr || breaks == 2
      decreases end - cur
    {
      ghost var text, c := buf[begin..cur], buf[cur];
      assert buf[begin..cur + 1] == text + [c];
      ScanByte(text, breaks, c);
      match buf[cur] {
        case '\n' =>
          breaks := breaks + 1;
        case '\r' =>
          breaks := breaks + 1;
          if cur + 1 < end && buf[cur + 1] == '\n' {
            ScanLineFeed(text + [c], breaks);
            assert buf[begin..cur + 2] == text + [c] + ['\n'];
            cur := cur + 1;
          }
        case _ =>
          breaks := 0;
      }
      cur := cur + 1;
    }
    found := breaks == 2;
    assert !found ==> buf[begin..cur] == buf[begin..];
  }

  /** `parseEvent`: the fields of one block. */
  method ParseEvent(block: string) returns (e: Event)
    ensures e == Collect(block).fields
  {
    hide Collect, TakeLine;
    NothingRead();
    var size := |block|;
    e := Blank;
    var begin, cur := 0, 0;
    assert block[..0] == "";
    while cur < size
      invariant 0 <= begin <= cur <= size
      invariant Collect(block[..cur]).line == block[begin..cur] && Collect(block[..cur]).fields == e
      invariant cur < size && block[cur] == '\n' ==> !Collect(block[..cur]).cr
    {
      CollectByte(block[..cur], block[cur]);
      assert block[..cur + 1] == block[..cur] + [block[cur]];
      if IsBreak(block[cur]) {
        if cur > begin {
          e := TakeField(e, block[begin..cur]);
        }
        if cur + 1 < size && block[cur] == '\r' && block[cur + 1] == '\n' {
          CollectByte(block[..cur + 1], '\n');
          assert block[..cur + 2] == block[..cur + 1] + ['\n'];
          cur := cur + 1;
        }
        begin := cur + 1;
      } else {
        assert block[begin..cur + 1] == block[begin..cur] + [block[cur]];
      }
      cur := cur + 1;
    }
    assert block[..cur] == block;
  }

  method TakeField(e: Event, line: string) returns (e': Event)
    ensures e' == TakeLine(e, line)
  {
    e' := e;
    if "data: " <= line {
      e' := e'.(data := line[|"data: "|..]);
    } else if "event: " <= line {
      e' := e'.(name := Some(line[|"event: "|..]));
    }
  }

  lemma {:induction false} CutRest(text: string, begin: nat)
    requires begin <= |text| && Alike(After(Start, text[..begin]), Start)
    ensures Events(text) == Events(text[..begin]) + Events(text[begin..])
    ensures Alike(After(Start, text), After(Start, text[begin..]))
  {
    hide After, EventsFrom;
    Concat(Start, text[..begin], text[begin..]);
    AlikeRuns(After(Start, text[..begin]), Start, text[begin..]);
    assert text[..begin] + text[begin..] == text;
  }

  lemma {:induction false} CutBlock(text: string, begin: nat, cur: nat)
    requires begin <= cur <= |text| && Alike(After(Start, text[..begin]), Start)
    requires Block(text[begin..cur])
    ensures Events(text[..cur]) == Events(text[..begin]) + Dispatch(Collect(text[begin..cur]).fields)
    ensures Alike(After(Start, text[..cur]), Start)
  {
    hide After, EventsFrom, Collect;
    assert text[..cur][..begin] == text[..begin] && text[..cur][begin..] == text[begin..cur];
    CutRest(text[..cur], begin);
  }

  lemma {:induction false} Fed(received: string, was: string, data: string)
    requires Alike(After(Start, received), After(Start, was)) && Events(was) == []
    ensures Events(received + data) == Events(received) + Events(was + data)
    ensures Alike(After(Start, received + data), After(Start, was + data))
  {
    hide After, EventsFrom;
    Concat(Start, received, data);
    Concat(Start, was, data);
    AlikeRuns(After(Start, received), After(Start, was), data);
  }

  lemma {:induction false} AlikeChain(s: Reader, t: Reader, u: Reader)
    requires Alike(s, t) && Alike(t, u)
    ensures Alike(s, u)
  {
  }

  /** The parser; `emitted` is what `on_event_` has received, `received` what `parse` was given. */
  class SSEParser {
    var buf: string
    var emitted: seq<Event>
    ghost var received: string

    ghost predicate Valid()
      reads this
    {
      emitted == Events(received) && Events(buf) == [] && Alike(After(Start, received), After(Start, buf))
    }

    constructor ()
      ensures Valid() && received == ""
    {
      buf, emitted, received := "", [], "";
    }

    method Parse(data: string)
      requires Valid()
      modifies this
      ensures Valid() && received == old(received) + data
      ensures emitted == Events(old(received) + data)
    {
      hide After, EventsFrom, Events, Collect, Block, Alike;
      Fed(received, buf, data);
      NothingRead();
      buf := buf + data;
      received := received + data;
      ghost var text, sent := buf, emitted;
      var begin, end := 0, |buf|;
      assert text[..0] == "";
      SameAlike();
      while begin < end
        invariant 0 <= begin <= end == |text|
        invariant emitted == sent + Events(text[..begin])
        invariant Alike(After(Start, text[..begin]), Start)
        invariant buf == text && received == old(received) + data
      {
        var cur, found := FindBlock(buf, begin);
        if !found {
          break;
        }
        var e := ParseEvent(buf[begin..cur]);
        if e.data != "" {
          emitted := emitted + [e];
        }
        CutBlock(text, begin, cur);
        begin := cur;
      }
      CutRest(text, begin);
      assert text[|text|..] == "";
      AlikeChain(After(Start, received), After(Start, text), After(Start, text[begin..]));
      buf := buf[begin..];
    }
  }

  lemma {:induction false} SameAlike()
    ensures Alike(Start, Start)
  {
  }

  /** However the stream is cut into chunks, the parser emits the events of the whole text. */
  method ParseChunks(chunks: seq<string>) returns (events: seq<Event>)
    ensures events == Events(Joined(chunks))
  {
    var parser := new SSEParser();
    var i := 0;
    while i < |chunks|
      invariant 0 <= i <= |chunks| && fresh(parser) && parser.Valid()
      invariant parser.received == Joined(chunks[..i])
    {
      assert chunks[..i + 1][..i] == chunks[..i];
      parser.Parse(chunks[i]);
      i := i + 1;
    }
    assert chunks[..i] == chunks;
    events := parser.emitted;
  }

  // ---------------------------------------------------------------------------
  // The sender
  // ---------------------------------------------------------------------------

  function Format(e: Event): string {
    (if e.name.Some? then "event: " + e.name.value + "\n" else "") + "data: " + e.data + "\n\n"
  }

  /** `sendEvent`: the chunk written to the response. */
  method SendEvent(e: Event) returns (buf: string)
    ensures buf == Format(e)
  {
    buf := "";
    if e.name.Some? {
      buf := buf + "event: ";
      buf := buf + e.name.value;
      buf := buf + "\n";
    }
    buf := buf + "data: ";
    buf := buf + e.data;
    buf := buf + "\n\n";
  }

  function FormatAll(es: seq<Event>): string {
    if es == [] then "" else FormatAll(es[..|es| - 1]) + Format(es[|es| - 1])
  }

  lemma {:induction false} Plain(s: Reader, text: string)
    requires BreakFree(text) && text != ""
    ensures After(s, text) == Reader(s.line + text, s.fields, false)
    ensures EventsFrom(s, text) == []
    decreases |text|
  {
    var text', c := text[..|text| - 1], text[|text| - 1];
    if text' != "" {
      Plain(s, text');
      assert text == text' + [c];
      assert s.line + text' + [c] == s.line + text;
    } else {
      assert text == [c];
    }
  }

  lemma {:induction false} LineRead(s: Reader, line: string)
    requires BreakFree(line) && line != "" && s.line == ""
    ensures After(s, line + ['\n']) == Reader("", TakeLine(s.fields, line), false)
    ensures EventsFrom(s, line + ['\n']) == []
  {
    hide After, EventsFrom, TakeLine;
    Plain(s, line);
    Snoc(s, line, '\n');
    assert s.line + line == line;
  }

  function NameLine(e: Event): string { if e.name.Some? then "event: " + e.name.value else "" }

  lemma {:induction false} NameRead(e: Event)
    requires Sendable(e) && e.name.Some?
    ensures After(Start, NameLine(e) + ['\n']) == Reader("", Event("", e.name), false)
    ensures EventsFrom(Start, NameLine(e) + ['\n']) == []
  {
    hide After, EventsFrom;
    var line := NameLine(e);
    LineRead(Start, line);
    assert line[..7] == "event: " && line[7..] == e.name.value;
    assert line[0] == 'e' && !("data: " <= line);
  }

  lemma {:induction false} DataRead(s: Reader, e: Event)
    requires Sendable(e) && s == Reader("", Event("", e.name), false)
    ensures After(s, "data: " + e.data + ['\n'] + ['\n']) == Start
    ensures EventsFrom(s, "data: " + e.data + ['\n'] + ['\n']) == [e]
  {
    hide After, EventsFrom;
    var line := "data: " + e.data;
    LineRead(s, line);
    assert line[..6] == "data: " && line[6..] == e.data;
    Snoc(s, line + ['\n'], '\n');
  }

  lemma {:induction false} EventRead(e: Event)
    requires Sendable(e)
    ensures After(Start, Format(e)) == Start
    ensures EventsFrom(Start, Format(e)) == [e]
  {
    hide After, EventsFrom;
    var tail := "data: " + e.data + ['\n'] + ['\n'];
    if e.name.Some? {
      NameRead(e);
      DataRead(After(Start, NameLine(e) + ['\n']), e);
      Concat(Start, NameLine(e) + ['\n'], tail);
      assert Format(e) == NameLine(e) + ['\n'] + tail;
    } else {
      DataRead(Start, e);
      assert Format(e) == tail;
    }
  }

  lemma {:induction false} SentIsReceived(es: seq<Event>)
    requires forall i :: 0 <= i < |es| ==> Sendable(es[i])
    ensures After(Start, FormatAll(es)) == Start
    ensures Events(FormatAll(es)) == es
    decreases |es|
  {
    hide After, EventsFrom, Format, Sendable;
    if es == [] {
      NothingRead();
    } else {
      var es', e := es[..|es| - 1], es[|es| - 1];
      SentIsReceived(es');
      Concat(Start, FormatAll(es'), Format(e));
      EventRead(e);
      assert es == es' + [e];
    }
  }

  ghost predicate CleanReader(s: Reader) {
    BreakFree(s.line) && BreakFree(s.fields.data) && (s.fields.name.Some? ==> BreakFree(s.fields.name.value))
  }

  lemma {:induction false} CleanStep(s: Reader, c: char)
    requires CleanReader(s)
    ensures CleanReader(Step(s, c))
    ensures forall i :: 0 <= i < |Emit(s, c)| ==> Sendable(Emit(s, c)[i])
  {
  }

  lemma {:induction false} EmittedSendable(text: string)
    ensures CleanReader(After(Start, text))
    ensures forall i :: 0 <= i < |Events(text)| ==> Sendable(Events(text)[i])
    decreases |text|
  {
    hide Step, Emit, CleanReader, Sendable;
    if text == "" {
      CleanStart();
    } else {
      var text', c := text[..|text| - 1], text[|text| - 1];
      EmittedSendable(text');
      CleanStep(After(Start, text'), c);
      assert Events(text) == Events(text') + Emit(After(Start, text'), c);
    }
  }

  lemma {:induction false} CleanStart()
    ensures CleanReader(Start)
  {
  }

  /** A sequence of events sent is recovered exactly, through any chunking, precisely when
      every event is sendable. */
  lemma {:induction false} RecoveredIffSendable(es: seq<Event>)
    ensures Events(FormatAll(es)) == es <==> (forall i :: 0 <= i < |es| ==> Sendable(es[i]))
  {
    hide Events, FormatAll, Sendable;
    if forall i :: 0 <= i < |es| ==> Sendable(es[i]) {
      SentIsReceived(es);
    } else {
      EmittedSendable(FormatAll(es));
    }
  }
}
