/** The write side of an HTTP response (`HTTPResponseStream`): client threads append body
    chunks while the connection's write callbacks drain the buffer.

    Every region the mutex protects is one step. The call into the connection that follows an
    unlock is a step of its own, so any other thread may run in between. */
module ResponseStream {
  import opened Messages
  import opened Wire

  const kMaxWriteBufferSize: nat := 4 * 1024 * 1024

  /** A call into the connection. */
  datatype Call = Headers | Body(data: Bytes) | Finish

  /** `handing` is the call a thread makes after it has unlocked; `outstanding` says that the
      connection has taken a write whose completion callback has not run; `log` holds the calls
      the connection has received. */
  datatype State = State(
    callbackRunning: bool,
    headersWritten: bool,
    responseFinished: bool,
    buf: Bytes,
    handing: Option<Call>,
    outstanding: bool,
    log: seq<Call>)

  datatype Action = Start | Chunk(data: Bytes) | FinishResponse | HandOver | Completed

  const Initial: State := State(false, false, false, [], None, false, [])

  /** `onStateChanged`, up to the point where it unlocks. */
  function StateChanged(s: State): State {
    if s.callbackRunning || !s.headersWritten then s
    else if s.buf != [] then
      var n := if |s.buf| > kMaxWriteBufferSize then kMaxWriteBufferSize else |s.buf|;
      s.(buf := s.buf[n..], callbackRunning := true, handing := Some(Body(s.buf[..n])))
    else if s.responseFinished then s.(log := s.log + [Finish])
    else s
  }

  /** One step; a step that cannot be taken changes nothing. A second `startResponse` raises. */
  function Next(s: State, a: Action): State {
    match a
    case Start =>
      if s.headersWritten then s
      else s.(headersWritten := true, callbackRunning := true, handing := Some(Headers))
    case Chunk(data) => StateChanged(s.(buf := s.buf + data))
    case FinishResponse => if s.responseFinished then s else StateChanged(s.(responseFinished := true))
    case HandOver =>
      if s.handing.None? then s
      else s.(handing := None, outstanding := true, log := s.log + [s.handing.value])
    case Completed =>
      if !s.outstanding then s else StateChanged(s.(outstanding := false, callbackRunning := false))
  }

  function Run(s: State, actions: seq<Action>): State {
    if actions == [] then s else Next(Run(s, actions[..|actions| - 1]), actions[|actions| - 1])
  }

  // ---------------------------------------------------------------------------
  // The stream
  // ---------------------------------------------------------------------------

  class Stream {
    var callbackRunning: bool
    var headersWritten: bool
    var responseFinished: bool
    var buf: Bytes
    var handing: Option<Call>
    var outstanding: bool
    var log: seq<Call>

    ghost function Now(): State
      reads this
    {
      State(callbackRunning, headersWritten, responseFinished, buf, handing, outstanding, log)
    }

    constructor ()
      ensures Now() == Initial
    {
      callbackRunning, headersWritten, responseFinished := false, false, false;
      buf, handing, outstanding, log := [], None, false, [];
    }

    method StartResponse() returns (raised: bool)
      modifies this
      ensures Now() == Next(old(Now()), Start)
      ensures raised == old(headersWritten)
    {
      raised := headersWritten;
      if !raised {
        headersWritten := true;
        callbackRunning := true;
        handing := Some(Headers);
      }
    }

    method WriteBodyChunk(data: Bytes)
      modifies this
      ensures Now() == Next(old(Now()), Chunk(data))
    {
      buf := buf + data;
      OnStateChanged();
    }

    method EndResponse()
      modifies this
      ensures Now() == Next(old(Now()), FinishResponse)
    {
      if responseFinished {
        return;
      }
      responseFinished := true;
      OnStateChanged();
    }

    method OnCallbackCompleted()
      requires outstanding
      modifies this
      ensures Now() == Next(old(Now()), Completed)
    {
      outstanding := false;
      callbackRunning := false;
      OnStateChanged();
    }

    /** The call into the connection made after unlocking. */
    method CallConnection()
      requires handing.Some?
      modifies this
      ensures Now() == Next(old(Now()), HandOver)
    {
      log := log + [handing.value];
      handing := None;
      outstanding := true;
    }

    method OnStateChanged()
      modifies this
      ensures Now() == StateChanged(old(Now()))
    {
      if callbackRunning || !headersWritten {
        return;
      }
      if |buf| > 0 {
        var writeBuf := buf;
        buf := [];
        if |writeBuf| > kMaxWriteBufferSize {
          buf := buf + writeBuf[kMaxWriteBufferSize..];
          writeBuf := writeBuf[..kMaxWriteBufferSize];
        }
        assert old(buf) == writeBuf + buf;
        callbackRunning := true;
        handing := Some(Body(writeBuf));
        return;
      }
      if responseFinished {
        log := log + [Finish];
      }
    }
  }

  // ---------------------------------------------------------------------------
  // What every run keeps
  // ---------------------------------------------------------------------------

  function Appended(actions: seq<Action>): Bytes {
    if actions == [] then [] else
    var a := actions[|actions| - 1];
    Appended(actions[..|actions| - 1]) + if a.Chunk? then a.data else []
  }

  function BodyOf(log: seq<Call>): Bytes {
    if log == [] then [] else
    var c := log[|log| - 1];
    BodyOf(log[..|log| - 1]) + if c.Body? then c.data else []
  }

  /** The calls the connection has received or is about to receive. */
  function Issued(s: State): seq<Call> {
    s.log + if s.handing.Some? then [s.handing.value] else []
  }

  /** Headers first and once; every body write within the limit. */
  predicate InOrder(calls: seq<Call>) {
    forall i :: 0 <= i < |calls| ==>
      (calls[i] == Headers <==> i == 0)
      && (calls[i].Body? ==> 0 < |calls[i].data| <= 4194304)
  }

  ghost predicate Ordered(s: State, appended: Bytes) {
    // at most one write is with the connection or on its way there
    (s.callbackRunning <==> s.handing.Some? || s.outstanding)
    && !(s.handing.Some? && s.outstanding)
    && (s.handing.Some? ==> s.handing.value != Finish)
    && (s.outstanding ==> s.log != [])
    // the calls are in order, and what they carry followed by the buffer is all that was appended
    && InOrder(Issued(s))
    && (s.headersWritten <==> Issued(s) != [])
    && BodyOf(Issued(s)) + s.buf == appended
    && (Finish in s.log ==> s.responseFinished)
  }

  /** When no callback is to come, everything has been flushed and a finish has been passed on. */
  ghost predicate Flushed(s: State) {
    s.headersWritten && !s.callbackRunning ==> s.buf == [] && (s.responseFinished ==> Finish in s.log)
  }

  ghost predicate Inv(s: State, appended: Bytes) { Ordered(s, appended) && Flushed(s) }

  lemma {:induction false} BodyOfSnoc(log: seq<Call>, c: Call)
    ensures BodyOf(log + [c]) == BodyOf(log) + if c.Body? then c.data else []
  {
    assert (log + [c])[..|log|] == log;
  }

  /** The call carries what left the buffer. */
  predicate Taken(before: Bytes, c: Call, after: Bytes) {
    match c
    case Headers => false
    case Body(data) => 0 < |data| <= 4194304 && data + after == before
    case Finish => after == before
  }

  lemma {:induction false} Issue(s: State, t: State, c: Call, appended: Bytes)
    requires Ordered(s, appended) && Issued(s) != [] && Issued(t) == Issued(s) + [c]
    requires Taken(s.buf, c, t.buf)
    ensures InOrder(Issued(t)) && BodyOf(Issued(t)) + t.buf == appended
  {
    hide BodyOf, Issued;
    BodyOfSnoc(Issued(s), c);
  }

  lemma {:induction false} StateChangedInv(s: State, appended: Bytes)
    requires Ordered(s, appended)
    ensures Inv(StateChanged(s), appended)
  {
    hide BodyOf, InOrder;
    var t := StateChanged(s);
    if !s.callbackRunning && s.headersWritten {
      if s.buf != [] {
        Issue(s, t, t.handing.value, appended);
      } else if s.responseFinished {
        Issue(s, t, Finish, appended);
      }
    }
  }

  lemma {:induction false} NextInv(s: State, appended: Bytes, a: Action)
    requires Inv(s, appended)
    ensures Inv(Next(s, a), appended + if a.Chunk? then a.data else [])
  {
    hide StateChanged, InOrder, BodyOf;
    match a
    case Start => StartInv(s, appended);
    case Chunk(data) =>
      assert Issued(s.(buf := s.buf + data)) == Issued(s);
      StateChangedInv(s.(buf := s.buf + data), appended + data);
    case FinishResponse =>
      assert Issued(s.(responseFinished := true)) == Issued(s);
      StateChangedInv(s.(responseFinished := true), appended);
    case HandOver =>
      assert Issued(Next(s, a)) == Issued(s);
    case Completed =>
      if s.outstanding {
        var t := s.(outstanding := false, callbackRunning := false);
        assert Issued(t) == Issued(s);
        StateChangedInv(t, appended);
      }
  }

  lemma {:induction false} StartInv(s: State, appended: Bytes)
    requires Inv(s, appended)
    ensures Inv(Next(s, Start), appended)
  {
    if !s.headersWritten {
      assert Issued(Next(s, Start)) == [] + [Headers];
      BodyOfSnoc([], Headers);
    }
  }

  /** For every interleaving of client calls, connection calls and callbacks: one write at a
      time, the bytes issued are a prefix of the bytes appended, and nothing is left behind. */
  lemma {:induction false} EveryRun(actions: seq<Action>)
    ensures Inv(Run(Initial, actions), Appended(actions))
    decreases |actions|
  {
    hide Inv, Next;
    if actions == [] {
      InitialInv();
    } else {
      EveryRun(actions[..|actions| - 1]);
      NextInv(Run(Initial, actions[..|actions| - 1]), Appended(actions[..|actions| - 1]), actions[|actions| - 1]);
    }
  }

  lemma {:induction false} InitialInv()
    ensures Inv(Initial, [])
  {
  }

  // ---------------------------------------------------------------------------
  // The connection's finishResponse
  // ---------------------------------------------------------------------------

  /** A finish is the last call issued; so it is issued at most once. */
  ghost predicate FinishLast(s: State) {
    forall i :: 0 <= i < |Issued(s)| - 1 ==> Issued(s)[i] != Finish
  }

  /** A chunk is written after the finish has gone to the connection. */
  ghost predicate LateChunk(actions: seq<Action>) {
    exists i :: 0 <= i < |actions| && actions[i].Chunk? && Finish in Run(Initial, actions[..i]).log
  }

  lemma {:induction false} LateChunkSnoc(actions: seq<Action>)
    requires actions != []
    ensures LateChunk(actions) <==>
      var front := actions[..|actions| - 1];
      LateChunk(front) || (actions[|actions| - 1].Chunk? && Finish in Run(Initial, front).log)
  {
    hide Run;
    var front := actions[..|actions| - 1];
    forall i | 0 <= i <= |front| ensures front[..i] == actions[..i] {}
    assert actions[..|front|] == front;
  }

  lemma {:induction false} IssuedGrows(s: State, a: Action)
    requires s.handing.Some? ==> s.callbackRunning && !s.outstanding
    requires s.handing.Some? ==> s.headersWritten
    ensures Issued(s) <= Issued(Next(s, a))
  {
  }

  /** Once the finish is the last call issued, only a chunk makes the stream issue anything more. */
  lemma {:induction false} AfterFinish(s: State, appended: Bytes, a: Action)
    requires Inv(s, appended) && Finish in s.log && FinishLast(s) && !s.callbackRunning
    ensures if a.Chunk? then |Issued(Next(s, a))| > |Issued(s)| else Next(s, a) == s
  {
  }

  lemma {:induction false} BeforeFinish(s: State, appended: Bytes, a: Action)
    requires Inv(s, appended) && Finish !in s.log
    ensures FinishLast(Next(s, a)) && (Finish in Next(s, a).log ==> !Next(s, a).callbackRunning)
  {
    hide BodyOf;
  }

  /** The finish is issued at most once and nothing follows it exactly when no chunk is written
      after it: every other interleaving is safe. */
  lemma {:induction false} FinishLastIff(actions: seq<Action>)
    ensures FinishLast(Run(Initial, actions)) <==> !LateChunk(actions)
    ensures var s := Run(Initial, actions); Finish in s.log && FinishLast(s) ==> !s.callbackRunning
    decreases |actions|
  {
    hide Next, Inv, FinishLast, LateChunk;
    if actions == [] {
      NothingLate();
    } else {
      var front, a := actions[..|actions| - 1], actions[|actions| - 1];
      var s := Run(Initial, front);
      FinishLastIff(front);
      EveryRun(front);
      LateChunkSnoc(actions);
      FinishStep(s, Appended(front), a);
    }
  }

  lemma {:induction false} NothingLate()
    ensures FinishLast(Initial) && !LateChunk([])
  {
  }

  lemma {:induction false} FinishStep(s: State, appended: Bytes, a: Action)
    requires Inv(s, appended)
    requires Finish in s.log && FinishLast(s) ==> !s.callbackRunning
    ensures FinishLast(Next(s, a)) <==> FinishLast(s) && !(a.Chunk? && Finish in s.log)
    ensures Finish in Next(s, a).log && FinishLast(Next(s, a)) ==> !Next(s, a).callbackRunning
  {
    hide Next, BodyOf;
    var t := Next(s, a);
    IssuedGrows(s, a);
    if Finish !in s.log {
      BeforeFinish(s, appended, a);
    } else if !FinishLast(s) {
      var i :| 0 <= i < |Issued(s)| - 1 && Issued(s)[i] == Finish;
      assert Issued(t)[i] == Finish;
    } else {
      AfterFinish(s, appended, a);
      if a.Chunk? {
        var i :| 0 <= i < |s.log| && s.log[i] == Finish;
        assert Issued(s)[i] == Finish && Issued(t)[i] == Finish;
      }
    }
  }

  // ---------------------------------------------------------------------------
  // Draining
  // ---------------------------------------------------------------------------

  /** The connection takes the pending write and calls back, `n` times. */
  function Rounds(n: nat): seq<Action> {
    if n == 0 then [] else Rounds(n - 1) + [HandOver] + [Completed]
  }

  /** How many writes `n` buffered bytes take: all full but the last. */
  function Writes(n: nat): nat {
    if n <= kMaxWriteBufferSize then (if n == 0 then 0 else 1) else 1 + Writes(n - kMaxWriteBufferSize)
  }

  lemma {:induction false} WritesAre(n: nat)
    ensures Writes(n) == (n + 4194303) / 4194304
  {
    if n > 4194304 {
      WritesAre(n - 4194304);
    }
  }

  /** The writes still to come, counting the one under way. */
  function Remaining(s: State): nat { (if s.callbackRunning then 1 else 0) + Writes(|s.buf|) }

  lemma {:induction false} Round(s: State, appended: Bytes)
    requires Inv(s, appended) && s.headersWritten
    ensures var t := Next(Next(s, HandOver), Completed);
      Inv(t, appended) && t.headersWritten && t.responseFinished == s.responseFinished
      && Remaining(t) == if Remaining(s) == 0 then 0 else Remaining(s) - 1
  {
    hide InOrder, BodyOf;
    NextInv(s, appended, HandOver);
    NextInv(Next(s, HandOver), appended, Completed);
    assert appended + [] == appended;
  }

  lemma {:induction false} RunRounds(s: State, n: nat, appended: Bytes)
    requires Inv(s, appended) && s.headersWritten
    ensures var t := Run(s, Rounds(n));
      Inv(t, appended) && t.headersWritten && t.responseFinished == s.responseFinished
      && Remaining(t) == if Remaining(s) <= n then 0 else Remaining(s) - n
  {
    hide Inv, Remaining, Next;
    if n > 0 {
      RunRounds(s, n - 1, appended);
      var actions := Rounds(n - 1);
      assert (actions + [HandOver])[..|actions|] == actions;
      assert (actions + [HandOver] + [Completed])[..|actions| + 1] == actions + [HandOver];
      Round(Run(s, actions), appended);
    }
  }

  /** From every reachable state with the response started, the connection's callbacks alone
      flush everything in as many writes as the bytes need. */
  lemma {:induction false} Drains(actions: seq<Action>)
    requires Run(Initial, actions).headersWritten
    ensures var s := Run(Initial, actions); var t := Run(s, Rounds(Remaining(s)));
      BodyOf(t.log) == Appended(actions) && t.buf == [] && !t.callbackRunning
      && (s.responseFinished ==> Finish in t.log)
  {
    hide Run, BodyOf, Appended, InOrder;
    EveryRun(actions);
    var s := Run(Initial, actions);
    RunRounds(s, Remaining(s), Appended(actions));
    var t := Run(s, Rounds(Remaining(s)));
    assert Issued(t) == t.log;
  }

  // ---------------------------------------------------------------------------
  // What the client can tell beforehand
  // ---------------------------------------------------------------------------

  predicate IsClient(a: Action) { a.Start? || a.Chunk? || a.FinishResponse? }

  /** The client's calls in an interleaving, in order. */
  function Client(actions: seq<Action>): seq<Action> {
    if actions == [] then [] else
    var a := actions[|actions| - 1];
    Client(actions[..|actions| - 1]) + if IsClient(a) then [a] else []
  }

  /** The client writes a chunk after it has both started and finished the response. */
  ghost predicate WritesLate(calls: seq<Action>) {
    exists j :: 0 <= j < |calls| && calls[j].Chunk? && Start in calls[..j] && FinishResponse in calls[..j]
  }

  lemma {:induction false} ClientConcat(a: seq<Action>, b: seq<Action>)
    ensures Client(a + b) == Client(a) + Client(b)
    decreases |b|
  {
    if b == [] {
      assert a + b == a;
    } else {
      var front, last := b[..|b| - 1], b[|b| - 1];
      ClientConcat(a, front);
      assert (a + b)[..|a + b| - 1] == a + front;
      assert Client(a) + (Client(front) + if IsClient(last) then [last] else [])
          == Client(a) + Client(front) + if IsClient(last) then [last] else [];
    }
  }

  lemma {:induction false} ClientHas(actions: seq<Action>, a: Action)
    requires IsClient(a)
    ensures a in actions <==> a in Client(actions)
    decreases |actions|
  {
    if actions != [] {
      ClientHas(actions[..|actions| - 1], a);
    }
  }

  lemma {:induction false} ClientOnly(calls: seq<Action>)
    requires forall i :: 0 <= i < |calls| ==> IsClient(calls[i])
    ensures Client(calls) == calls
    decreases |calls|
  {
    if calls != [] {
      ClientOnly(calls[..|calls| - 1]);
    }
  }

  lemma {:induction false} RoundsSilent(n: nat)
    ensures Client(Rounds(n)) == []
  {
    hide Client;
    ClientNone();
    if n > 0 {
      RoundsSilent(n - 1);
      ClientConcat(Rounds(n - 1), [HandOver]);
      ClientConcat(Rounds(n - 1) + [HandOver], [Completed]);
    }
  }

  lemma {:induction false} ClientNone()
    ensures Client([]) == [] && Client([HandOver]) == [] && Client([Completed]) == []
  {
    assert [HandOver][..0] == [] && [Completed][..0] == [];
  }

  lemma {:induction false} Flags(actions: seq<Action>)
    ensures Run(Initial, actions).headersWritten <==> Start in actions
    ensures Run(Initial, actions).responseFinished <==> FinishResponse in actions
    decreases |actions|
  {
    if actions != [] {
      Flags(actions[..|actions| - 1]);
    }
  }

  lemma {:induction false} RunConcat(s: State, a: seq<Action>, b: seq<Action>)
    ensures Run(s, a + b) == Run(Run(s, a), b)
    decreases |b|
  {
    hide Next;
    if b == [] {
      assert a + b == a;
    } else {
      RunConcat(s, a, b[..|b| - 1]);
      assert (a + b)[..|a + b| - 1] == a + b[..|b| - 1];
    }
  }

  lemma {:induction false} SafeClient(actions: seq<Action>)
    requires !WritesLate(Client(actions))
    ensures FinishLast(Run(Initial, actions))
  {
    hide Run, FinishLast, Client, InOrder, BodyOf, Appended;
    FinishLastIff(actions);
    if LateChunk(actions) {
      var i :| 0 <= i < |actions| && actions[i].Chunk? && Finish in Run(Initial, actions[..i]).log;
      var before, chunk, after := actions[..i], [actions[i]], actions[i + 1..];
      EveryRun(before);
      Flags(before);
      ClientHas(before, Start);
      ClientHas(before, FinishResponse);
      ClientConcat(before + chunk, after);
      ClientConcat(before, chunk);
      ClientOnly(chunk);
      assert actions == before + chunk + after;
      assert Client(actions) == Client(before) + chunk + Client(after);
      Late(Client(before), actions[i], Client(after));
    }
  }

  lemma {:induction false} Late(before: seq<Action>, chunk: Action, after: seq<Action>)
    requires Start in before && FinishResponse in before && chunk.Chunk?
    ensures WritesLate(before + [chunk] + after)
  {
    var calls, j := before + [chunk] + after, |before|;
    assert calls[j] == chunk && calls[..j] == before;
  }

  lemma {:induction false} UnsafeClient(calls: seq<Action>) returns (actions: seq<Action>)
    requires (forall i :: 0 <= i < |calls| ==> IsClient(calls[i])) && WritesLate(calls)
    ensures Client(actions) == calls && !FinishLast(Run(Initial, actions))
  {
    hide Run, FinishLast, Client, Remaining, BodyOf, Appended;
    var j :| 0 <= j < |calls| && calls[j].Chunk? && Start in calls[..j] && FinishResponse in calls[..j];
    var before := calls[..j];
    Flags(before);
    Drains(before);
    var rounds := Rounds(Remaining(Run(Initial, before)));
    RunConcat(Initial, before, rounds);
    actions := before + rounds + calls[j..];
    RoundsSilent(Remaining(Run(Initial, before)));
    ClientConcat(before + rounds, calls[j..]);
    ClientConcat(before, rounds);
    ClientOnly(before);
    ClientOnly(calls[j..]);
    assert before + [] == before && before + calls[j..] == calls;
    var i := |before + rounds|;
    assert actions[..i] == before + rounds && actions[i] == calls[j];
    FinishLastIff(actions);
  }

  /** In the client's terms: every interleaving of its calls with the connection issues the finish
      at most once and last, exactly when it writes no chunk after starting and finishing. */
  lemma {:induction false} EveryInterleavingIff(calls: seq<Action>)
    requires forall i :: 0 <= i < |calls| ==> IsClient(calls[i])
    ensures (forall actions | Client(actions) == calls :: FinishLast(Run(Initial, actions))) <==> !WritesLate(calls)
  {
    hide Run, FinishLast, Client, WritesLate;
    if WritesLate(calls) {
      var actions := UnsafeClient(calls);
    } else {
      forall actions | Client(actions) == calls ensures FinishLast(Run(Initial, actions)) {
        SafeClient(actions);
      }
    }
  }

  /** A concrete run that fails: an empty chunk after everything has been finished and flushed
      makes the stream pass the finish on a second time. */
  lemma {:induction false} SecondFinish()
    ensures var actions := [Start, HandOver, Completed, FinishResponse, Chunk([])];
      Run(Initial, actions).log == [Headers, Finish, Finish]
      && LateChunk(actions) && !FinishLast(Run(Initial, actions))
  {
    var a := [Start, HandOver, Completed, FinishResponse, Chunk([])];
    RunTo(a, 1);
    RunTo(a, 2);
    RunTo(a, 3);
    RunTo(a, 4);
    RunTo(a, 5);
    assert a[..0] == [] && a[..5] == a;
    assert Run(Initial, a[..4]) == State(false, true, true, [], None, false, [Headers, Finish]);
    FinishLastIff(a);
  }

  lemma {:induction false} RunTo(actions: seq<Action>, i: nat)
    requires 0 < i <= |actions|
    ensures Run(Initial, actions[..i]) == Next(Run(Initial, actions[..i - 1]), actions[i - 1])
  {
    assert actions[..i][..i - 1] == actions[..i - 1];
  }
}
