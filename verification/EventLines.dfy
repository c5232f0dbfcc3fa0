/** An event stream as lines in any of the three line endings, and the events that its blocks of
    lines carry, field by field. */
module EventLines {
  import opened Messages
  import opened EventStream

  datatype LineEnd = LF | CR | CRLF

  datatype Line = Line(text: string, end: LineEnd)

  function EndText(e: LineEnd): string {
    match e
    case LF => "\n"
    case CR => "\r"
    case CRLF => "\r\n"
  }

  function StreamText(lines: seq<Line>): string {
    if lines == [] then ""
    else StreamText(lines[..|lines| - 1]) + lines[|lines| - 1].text + EndText(lines[|lines| - 1].end)
  }

  /** No line holds a break, and an empty line that ends with a line feed does not follow a line
      that ends with a carriage return: those two bytes are one line end. */
  predicate ValidLines(lines: seq<Line>) {
    && (forall i :: 0 <= i < |lines| ==> BreakFree(lines[i].text))
    && (forall i :: 0 < i < |lines| && lines[i - 1].end == CR ==> lines[i] != Line("", LF))
  }

  // ---------------------------------------------------------------------------
  // The events of the lines
  // ---------------------------------------------------------------------------

  /** The lines since the last empty one. */
  function OpenBlock(lines: seq<Line>): seq<Line> {
    if lines == [] || lines[|lines| - 1].text == "" then []
    else OpenBlock(lines[..|lines| - 1]) + [lines[|lines| - 1]]
  }

  /** What stands behind the prefix in the last line that has it. */
  function LastWith(block: seq<Line>, prefix: string): Option<string> {
    if block == [] then None
    else
      var last := block[|block| - 1].text;
      if |last| >= |prefix| && last[..|prefix|] == prefix then Some(last[|prefix|..])
      else LastWith(block[..|block| - 1], prefix)
  }

  /** A block carries an event if its last data line is not empty; all other lines but the last
      event line are without effect. */
  function BlockEvents(block: seq<Line>): seq<Event> {
    var data := LastWith(block, "data: ");
    if data.None? || data.value == "" then [] else [Event(data.value, LastWith(block, "event: "))]
  }

  function LineEvents(lines: seq<Line>): seq<Event> {
    if lines == [] then []
    else
      var front := lines[..|lines| - 1];
      LineEvents(front) + if lines[|lines| - 1].text == "" then BlockEvents(OpenBlock(front)) else []
  }

  // ---------------------------------------------------------------------------
  // Reading them
  // ---------------------------------------------------------------------------

  function FieldsOf(block: seq<Line>): Event {
    var data := LastWith(block, "data: ");
    Event(if data.Some? then data.value else "", LastWith(block, "event: "))
  }

  /** A line of a block changes the field that it names, and any other line changes nothing. */
  lemma {:induction false} FieldsSnoc(block: seq<Line>, l: Line)
    ensures FieldsOf(block + [l]) == TakeLine(FieldsOf(block), l.text)
  {
    var b := block + [l];
    assert b[..|b| - 1] == block && b[|b| - 1] == l;
    if "data: " <= l.text {
      assert l.text[..6] == "data: ";
      assert l.text[0] == 'd' && "event: "[0] == 'e';
      assert |l.text| >= 7 ==> l.text[..7] != "event: " by {
        assert |l.text| >= 7 ==> l.text[..7][0] == 'd';
      }
    } else {
      assert |l.text| >= 6 ==> l.text[..6] != "data: ";
      assert "event: " <= l.text <==> |l.text| >= 7 && l.text[..7] == "event: ";
    }
  }

  lemma {:induction false} OneLine(s: Reader, l: Line)
    requires s.line == "" && BreakFree(l.text) && (l == Line("", LF) ==> !s.cr)
    ensures After(s, l.text + EndText(l.end))
         == Reader("", if l.text == "" then Blank else TakeLine(s.fields, l.text), l.end == CR)
    ensures EventsFrom(s, l.text + EndText(l.end)) == if l.text == "" then Dispatch(s.fields) else []
  {
    hide After, EventsFrom, TakeLine;
    var e := EndText(l.end);
    Nothing(s);
    if l.text != "" {
      Plain(s, l.text);
      assert s.line + l.text == l.text;
    }
    Concat(s, l.text, e);
    assert l.text == "" ==> l.text + e == e;
    var t := After(s, l.text);
    Nothing(t);
    Snoc(t, "", e[0]);
    assert "" + [e[0]] == [e[0]];
    if l.end == CRLF {
      Snoc(t, "\r", '\n');
      assert "\r" + ['\n'] == e;
    } else {
      assert e == [e[0]];
    }
  }

  lemma {:induction false} StreamParts(front: seq<Line>, l: Line)
    ensures var lines := front + [l];
            && StreamText(lines) == StreamText(front) + (l.text + EndText(l.end))
            && OpenBlock(lines) == (if l.text == "" then [] else OpenBlock(front) + [l])
            && LineEvents(lines) == LineEvents(front) + if l.text == "" then BlockEvents(OpenBlock(front)) else []
  {
    var lines := front + [l];
    assert lines[..|lines| - 1] == front && lines[|lines| - 1] == l;
    assert StreamText(front) + l.text + EndText(l.end) == StreamText(front) + (l.text + EndText(l.end));
  }

  lemma {:induction false} NoFields()
    ensures FieldsOf([]) == Blank && OpenBlock([]) == [] && LineEvents([]) == [] && StreamText([]) == ""
  {
  }

  lemma {:induction false} Dispatched(block: seq<Line>)
    ensures Dispatch(FieldsOf(block)) == BlockEvents(block)
  {
  }

  lemma {:induction false} StreamRead(lines: seq<Line>)
    requires ValidLines(lines)
    ensures After(Start, StreamText(lines))
         == Reader("", FieldsOf(OpenBlock(lines)), lines != [] && lines[|lines| - 1].end == CR)
    ensures Events(StreamText(lines)) == LineEvents(lines)
    decreases |lines|
  {
    hide After, EventsFrom, TakeLine, FieldsOf, OpenBlock, LineEvents, StreamText, BlockEvents, Dispatch;
    NoFields();
    if lines == [] {
      NothingRead();
    } else {
      var front, l := lines[..|lines| - 1], lines[|lines| - 1];
      assert lines == front + [l];
      StreamRead(front);
      StreamParts(front, l);
      var s := After(Start, StreamText(front));
      OneLine(s, l);
      Concat(Start, StreamText(front), l.text + EndText(l.end));
      FieldsSnoc(OpenBlock(front), l);
      Dispatched(OpenBlock(front));
    }
  }

  /** The events of any stream of lines: each block that an empty line ends gives the value of its
      last data line, if that is not empty, with the value of its last event line as the name.
      The line endings make no difference, nor do lines of other kinds, nor an unfinished line. */
  lemma {:induction false} StreamEvents(lines: seq<Line>, partial: string)
    requires ValidLines(lines) && BreakFree(partial)
    ensures Events(StreamText(lines) + partial) == LineEvents(lines)
  {
    hide After, EventsFrom, StreamText, LineEvents;
    StreamRead(lines);
    var s := After(Start, StreamText(lines));
    Concat(Start, StreamText(lines), partial);
    Nothing(s);
    if partial != "" {
      Plain(s, partial);
    }
  }
}
