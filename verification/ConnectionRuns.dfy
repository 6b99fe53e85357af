/** Whole lives of a connection: what holds after every step, and what follows from it. */
module ConnectionRuns {
  import opened Basics
  import opened Messages
  import opened Sockets
  import opened Framing
  import opened ConnectionModel
  import opened ConnectionProofs

  // ---------------------------------------------------------- handing on a frame

  /** Everything handling a frame keeps: entries other than the answered one stay. */
  ghost predicate Handled(c: Conn, d: Conn, m: Received) {
    && d.script == c.script && d.frames == c.frames && d.line == c.line && d.began == c.began
    && d.hello == c.hello && (!d.halted ==> d.reading == c.reading)
    && c.log <= d.log && c.written <= d.written && c.attempts <= d.attempts && c.finished <= d.finished
    && Rank(c.state) <= Rank(d.state)
    && (forall s | s in c.replies && !Answers(m, s) :: s in d.replies && d.replies[s] == c.replies[s])
  }

  /** A frame has come in that nobody has looked at yet. */
  ghost predicate Arrived(c: Conn, authLine: bytes, m: Received) {
    && Sound(c) && Inv(c, authLine, None) && !c.halted && Open(c.state)
    && c.frames != [] && c.frames[|c.frames| - 1] == m && m.pos <= |m.data|
    && History(c.results, c.log, c.frames[..|c.frames| - 1], c.finished)
  }

  /**
   * Completing a reply, with whatever its handlers send: the reply object had
   * no result before ("for second time" is never reached), the answered entry
   * still leads to it afterwards, so erasing it removes nothing else.
   */
  lemma CompletionKeeps(c: Conn, authLine: bytes, m: Received, s: u32)
    requires Arrived(c, authLine, m) && Answers(m, s) && s in c.replies
    ensures c.replies[s] < |c.results| && c.results[c.replies[s]].None?
    ensures var d := SetMessage(c, c.replies[s], m);
      Inv(d, authLine, Some(c.replies[s])) && s in d.replies && d.replies[s] == c.replies[s]
      && c.replies[s] < |d.log| && d.log[c.replies[s]].serial == s
      && (forall t | t in c.replies :: t in d.replies && d.replies[t] == c.replies[t])
      && d.finished == c.finished + [Completion(c.replies[s], |c.frames| - 1)]
      && Handled(c, d, m)
  {
    hide Table, History, Serials, Output, Login, Greeting, Unfinished, React, HandleName, Answers;
    var id := c.replies[s];
    TableBusy(c.replies, c.results, c.log, s, m);
    HistoryComplete(c.results, c.log, c.frames, c.finished, id);
    var busy := c.(results := c.results[id := Some(m)], finished := c.finished + [Completion(id, |c.frames| - 1)]);
    GreetingGrows(c.state, c.hello, c.log, c.frames, c.finished, c.serviceName, [], [Completion(id, |c.frames| - 1)]);
    assert c.frames + [] == c.frames;
    assert Inv(busy, authLine, Some(id));
    AnswersIsReply(m, s);
    TableBounds(c.replies, c.results, c.log, None);
    FinishedKeeps(busy, id, authLine);
    assert SetMessage(c, id, m) == EmitFinished(busy, id);
  }

  lemma AnswersIsReply(m: Received, s: u32)
    requires Answers(m, s)
    ensures IsReply(m) && m.header.replySerial == Some(s)
  {
  }

  lemma TableBounds(replies: map<u32, nat>, results: seq<Option<Received>>, log: seq<Sent>, busy: Option<nat>)
    requires Table(replies, results, log, busy)
    ensures forall s | s in replies :: replies[s] < |log| && log[replies[s]].serial == s
    ensures |log| == |results|
  {
  }

  lemma FinishedKeeps(c: Conn, id: nat, authLine: bytes)
    requires Sound(c) && Inv(c, authLine, Some(id)) && !c.halted && Open(c.state)
    requires id < |c.results| && c.frames != [] && c.results[id] == Some(c.frames[|c.frames| - 1])
    requires c.finished != [] && c.finished[|c.finished| - 1] == Completion(id, |c.frames| - 1)
    requires IsReply(c.frames[|c.frames| - 1])
    ensures var d := EmitFinished(c, id);
      Inv(d, authLine, Some(id)) && Rank(c.state) <= Rank(d.state) && Kept(c, d)
  {
    hide Inv, Sound, HandleName, React;
    if c.hello != Some(id) {
      ReactKeeps(c, authLine, Some(id));
    } else if c.state == GettingName {
      HandleNameKeeps(c, id, authLine);
    }
  }

  /** One incoming message: a reply to an outstanding request completes and erases it, anything else changes nothing. */
  lemma HandleKeeps(c: Conn, authLine: bytes, m: Received)
    requires Arrived(c, authLine, m)
    ensures (forall s | s in c.replies :: !Answers(m, s)) ==> HandleBusMsg(c, m) == c
    ensures forall s | s in c.replies && Answers(m, s) ::
      var d := HandleBusMsg(c, m);
      d.finished == c.finished + [Completion(c.replies[s], |c.frames| - 1)] && (d.halted || s !in d.replies)
    ensures var d := HandleBusMsg(c, m);
      (d.halted ==> exists busy :: Inv(d, authLine, busy)) && (!d.halted ==> Inv(d, authLine, None)) && Handled(c, d, m)
  {
    hide Inv, History, Unfinished, SetMessage, Handled;
    if IsReply(m) && m.header.replySerial.Some? && m.header.replySerial.value in c.replies {
      var s := m.header.replySerial.value;
      CompletionKeeps(c, authLine, m, s);
      var d := SetMessage(c, c.replies[s], m);
      if d.halted {
      } else {
        EraseKeeps(d, authLine, c.replies[s], s);
        HandledErase(c, d, m, s);
      }
    } else {
      HandledNothing(c, m);
    }
  }

  lemma EraseKeeps(d: Conn, authLine: bytes, id: nat, s: u32)
    requires Inv(d, authLine, Some(id)) && id < |d.log| && d.log[id].serial == s
    ensures Inv(d.(replies := d.replies - {s}), authLine, None)
  {
    hide Table, History, Serials, Output, Login, Greeting;
    TableErase(d.replies, d.results, d.log, id);
  }

  lemma HandledErase(c: Conn, d: Conn, m: Received, s: u32)
    requires Handled(c, d, m) && Answers(m, s)
    ensures Handled(c, d.(replies := d.replies - {s}), m)
  {
  }

  lemma HandledNothing(c: Conn, m: Received)
    ensures Handled(c, c, m)
  {
  }

  // -------------------------------------------------------------- input consumed

  function Datas(frames: seq<Received>): bytes {
    if frames == [] then [] else Datas(frames[..|frames| - 1]) + frames[|frames| - 1].data
  }

  /**
   * Conservation of input: the bytes the socket delivers are, in order, the
   * authentication line, the frames handed on, the unfinished frame and what
   * is still to come; the frames are those of the undivided stream after
   * the line.
   */
  ghost predicate Input(c: Conn, all: bytes) {
    && c.line <= all
    && c.frames <= Frames(all[|c.line|..])
    && (c.state != Error && !c.halted ==> all == c.line + (Datas(c.frames) + (c.reading.data + Pending(c.script))))
    && (c.state != Error && !c.halted ==>
          Frames(all[|c.line|..]) == c.frames + Frames(c.reading.data + Pending(c.script))
          && Leftover(all[|c.line|..]) == Leftover(c.reading.data + Pending(c.script)))
  }

  /** Until the handshake is over nothing but the handshake has happened. */
  ghost predicate Waiting(c: Conn, authLine: bytes) {
    && (!Open(c.state) && c.state != Error ==> c.frames == [] && c.reading == FRESH && !c.began)
    && (!c.began ==> c.frames == [])
    && (c.state == Connecting ==> c.written == [])
    && (c.state == Auth ==> c.written == [NUL, authLine])
  }

  /** What holds between any two steps of a connection fed with the bytes `all`. */
  ghost predicate Steady(c: Conn, authLine: bytes, all: bytes) {
    && Sound(c)
    && (exists busy :: Inv(c, authLine, busy)) && (!c.halted ==> Inv(c, authLine, None))
    && Input(c, all) && Waiting(c, authLine)
  }

  lemma FrameSplits(s: bytes)
    ensures NextFrame(s).Frame? ==> s == NextFrame(s).message.data + NextFrame(s).rest
  {
    hide LibraryParse, GetFixed, FrameSize;
  }

  lemma DatasAppend(frames: seq<Received>, m: Received)
    ensures Datas(frames + [m]) == Datas(frames) + m.data
  {
    assert (frames + [m])[..|frames|] == frames;
  }

  lemma FrameOpens(s: bytes)
    ensures NextFrame(s).Frame? ==>
      Frames(s) == [NextFrame(s).message] + Frames(NextFrame(s).rest) && Leftover(s) == Leftover(NextFrame(s).rest)
  {
    hide NextFrame;
  }

  /** A finished frame moves from the stream to the frames. */
  lemma InputFrame(c: Conn, all: bytes, m: Received, script: Script)
    requires Input(c, all) && c.state != Error && !c.halted
    requires NextFrame(c.reading.data + Pending(c.script)) == Frame(m, Pending(script))
    ensures Input(c.(script := script, reading := FRESH, frames := c.frames + [m]), all)
  {
    hide NextFrame, Pending, Frames, Leftover, Datas;
    var rest := c.reading.data + Pending(c.script);
    FrameSplits(rest);
    FrameOpens(rest);
    DatasAppend(c.frames, m);
    assert c.frames + ([m] + Frames(Pending(script))) == (c.frames + [m]) + Frames(Pending(script));
    assert [] + Pending(script) == Pending(script);
    assert Datas(c.frames) + (m.data + Pending(script)) == (Datas(c.frames) + m.data) + Pending(script);
  }

  /** Reading more of an unfinished frame only moves bytes from the script to the buffer. */
  lemma InputMore(c: Conn, all: bytes, reading: Reading, script: Script)
    requires Input(c, all)
    requires reading.data + Pending(script) == c.reading.data + Pending(c.script)
    ensures Input(c.(script := script, reading := reading), all)
  {
    hide Pending, Frames, Leftover, Datas;
  }

  lemma InputStays(c: Conn, d: Conn, all: bytes)
    requires Input(c, all) && d.script == c.script && d.frames == c.frames && d.line == c.line
    requires c.state != Error && !c.halted && (!d.halted ==> d.reading == c.reading)
    ensures Input(d, all)
  {
    hide Pending, Frames, Leftover, Datas;
  }

  // -------------------------------------------------------------------- readData

  lemma ReadMessagesKeeps(c: Conn, authLine: bytes, all: bytes)
    requires Steady(c, authLine, all) && !c.halted && Open(c.state)
    ensures var d := ReadData(c); Steady(d, authLine, all) && Rank(c.state) <= Rank(d.state)
  {
    hide Inv, Input, InProgress, NextFrame, Pending, Work, HandleBusMsg, ReadFd, UpdateState, Unbroken;
    ReadFdTells(c.reading, c.script);
    FreshIsUnfinished();
    var (res, reading, script) := ReadFd(c.reading, c.script);
    match res
    case Success =>
      DeliverKeeps(c, authLine, all, Received(reading.fixed, reading.header, reading.data, reading.pos), script);
    case Failure =>
      RefusedKeeps(c, authLine, all, reading, script);
    case WouldBlock =>
      InputMore(c, all, reading, script);
      InvFrame(c, c.(script := script, reading := reading), authLine);
    case Crash =>
      InputDead(c, Halt(c.(script := script)), all);
      InvFrame(c, Halt(c.(script := script)), authLine);
  }

  /** The invariant does not look at the environment or the frame being read. */
  lemma InvFrame(c: Conn, d: Conn, authLine: bytes)
    requires Inv(c, authLine, None)
    requires d == c.(script := d.script, reading := d.reading, plan := d.plan, halted := d.halted)
    ensures Inv(d, authLine, None)
  {
    hide Table, History, Serials, Output, Login, Greeting;
  }

  lemma DeliverKeeps(c: Conn, authLine: bytes, all: bytes, m: Received, script: Script)
    requires Steady(c, authLine, all) && !c.halted && Open(c.state) && m.pos <= |m.data|
    requires NextFrame(c.reading.data + Pending(c.script)) == Frame(m, Pending(script))
    ensures var c1 := c.(script := script, reading := FRESH, frames := c.frames + [m]);
      Sound(c1) && Steady(HandleBusMsg(c1, m), authLine, all) && Rank(c.state) <= Rank(HandleBusMsg(c1, m).state)
  {
    hide Inv, Input, Unfinished, HandleBusMsg, NextFrame, Pending;
    FreshIsUnfinished();
    OpenBegan(c, authLine, None);
    var c1 := c.(script := script, reading := FRESH, frames := c.frames + [m]);
    InputFrame(c, all, m, script);
    FrameArrives(c, authLine, m, c1);
    HandleKeeps(c1, authLine, m);
    HandledOpens(c1, HandleBusMsg(c1, m), m);
    InputStays(c1, HandleBusMsg(c1, m), all);
  }

  lemma FrameArrives(c: Conn, authLine: bytes, m: Received, c1: Conn)
    requires Sound(c) && Inv(c, authLine, None) && !c.halted && Open(c.state) && m.pos <= |m.data|
    requires Unfinished(FRESH) && c1 == c.(script := c1.script, reading := FRESH, frames := c.frames + [m])
    ensures Arrived(c1, authLine, m)
  {
    hide Table, History, Serials, Output, Login, Greeting, Unfinished;
    HistoryFrame(c.results, c.log, c.frames, c.finished, m);
    GreetingGrows(c.state, c.hello, c.log, c.frames, c.finished, c.serviceName, [m], []);
    assert c.finished + [] == c.finished && c1.frames[..|c.frames|] == c.frames;
  }

  lemma RefusedKeeps(c: Conn, authLine: bytes, all: bytes, reading: Reading, script: Script)
    requires Steady(c, authLine, all) && !c.halted && Open(c.state)
    ensures var c1 := c.(script := script, reading := reading);
      Sound(c1.(state := Error)) && Steady(UpdateState(c1, Error), authLine, all)
      && UpdateState(c1, Error).state == Error
  {
    hide Inv, Input, Unfinished, UpdateState;
    var c1 := c.(script := script, reading := reading);
    UpdateIdle(c1, Error);
    var d := Turn(c1.(state := Error));
    InputDead(c, d, all);
    InvState(c, Error, authLine, None);
    InvFrame(c.(state := Error), d, authLine);
  }

  lemma HandledOpens(c: Conn, d: Conn, m: Received)
    requires Handled(c, d, m) && Open(c.state)
    ensures Rank(c.state) <= Rank(d.state) && (Open(d.state) || d.state == Error)
    ensures d.script == c.script && d.frames == c.frames && d.line == c.line && (!d.halted ==> d.reading == c.reading)
  {
  }

  lemma InputDead(c: Conn, d: Conn, all: bytes)
    requires Input(c, all) && d.frames == c.frames && d.line == c.line && (d.halted || d.state == Error)
    ensures Input(d, all)
  {
    hide Frames, Leftover, Datas, Pending;
  }

  // ------------------------------------------------------------------- handshake

  lemma InputByte(c: Conn, all: bytes, b: byte, rest: Script)
    requires Input(c, all) && c.state == Auth && !c.halted && c.frames == [] && c.reading == FRESH
    requires Pending(c.script) == [b] + Pending(rest)
    ensures Input(c.(script := rest, line := c.line + [b]), all)
  {
    hide Pending, Frames, Leftover;
    var line := c.line + [b];
    var buffered := c.reading.data + Pending(rest);
    assert buffered == Pending(rest) && c.reading.data + Pending(c.script) == Pending(c.script);
    assert Datas(c.frames) == [] && [] + buffered == buffered;
    assert all == c.line + Pending(c.script) == line + Pending(rest);
    assert all[|line|..] == Pending(rest) && line <= all;
    assert [] + Frames(Pending(rest)) == Frames(Pending(rest));
  }

  lemma LineGrows(state: State, line: bytes, authData: bytes, b: byte)
    requires Login(state, line, authData, false) && state == Auth && b != NEWLINE
    ensures Login(state, line + [b], if b != RETURN then authData + [b] else authData, false)
  {
    assert (line + [b])[..|line|] == line;
  }

  /** A connection that has just read the end of the authentication line. */
  ghost predicate LineRead(c: Conn, authLine: bytes, all: bytes) {
    && Sound(c) && c.state == Auth && !c.halted && !c.began && c.frames == [] && c.reading == FRESH
    && c.written == [NUL, authLine] && c.log == []
    && Table(c.replies, c.results, c.log, None) && History(c.results, c.log, c.frames, c.finished)
    && Serials(c.log, c.attempts, c.nextSerial)
    && Greeting(Auth, c.hello, c.log, c.frames, c.finished, c.serviceName)
    && c.line != [] && c.line[|c.line| - 1] == NEWLINE && NEWLINE !in c.line[..|c.line| - 1]
    && c.authData == NoReturns(c.line[..|c.line| - 1])
    && Input(c, all)
  }

  lemma AuthFails(c: Conn, acks: seq<bool>, authLine: bytes, all: bytes)
    requires LineRead(c, authLine, all)
    ensures var c1 := c.(acks := acks);
      Sound(c1.(state := Error)) && Steady(UpdateState(c1, Error), authLine, all)
      && UpdateState(c1, Error).state == Error
  {
    hide Table, History, Serials, Input, Unfinished, UpdateState, Named;
    var c1 := c.(acks := acks);
    UpdateIdle(c1, Error);
    var d := Turn(c1.(state := Error));
    InputDead(c, d, all);
    assert Inv(d, authLine, None);
  }

  lemma DoGetNameKeeps(c: Conn, authLine: bytes, all: bytes)
    requires Sound(c) && c.state == Auth && !c.halted && Inv(c.(state := GettingName), authLine, None)
    requires Input(c, all)
    ensures Steady(DoGetName(c), authLine, all) && Rank(Auth) < Rank(DoGetName(c).state)
  {
    hide Table, History, Serials, Output, Login, Named, Input, Unfinished, UpdateState, Send, SendAll;
    SoundState(c);
    OpenBegan(c.(state := GettingName), authLine, None);
    UpdateKeeps(c, GettingName, authLine, None);
    var u := UpdateState(c, GettingName);
    SendKeeps(u, HELLO, authLine, None);
    var (c1, reply) := Send(u, HELLO);
    InputStays(c, c1, all);
    if reply.None? {
      UpdateIdle(c1, Error);
      if !c1.halted {
        InvState(c1, Error, authLine, None);
        InputDead(c1, Turn(c1.(state := Error)), all);
        assert Inv(Turn(c1.(state := Error)), authLine, None);
      }
    } else {
      InputStays(c, c1.(hello := reply), all);
      assert Inv(c1.(hello := reply), authLine, None);
    }
  }

  /** BEGIN is out: the connection may enter its next state. */
  lemma BeginsKeep(c: Conn, d: Conn, authLine: bytes, all: bytes)
    requires LineRead(c, authLine, all) && OK <= c.authData
    requires d == c.(acks := d.acks, written := c.written + [BEGIN], began := true)
    ensures Inv(d.(state := GettingName), authLine, None)
  {
    hide Table, History, Serials, Input, Unfinished, Named, NoReturns, BEGIN, OK;
    assert [NUL, authLine] + [BEGIN] == [NUL, authLine, BEGIN] + Wires([]);
  }

  lemma AuthenticatedKeeps(c: Conn, authLine: bytes, all: bytes)
    requires LineRead(c, authLine, all)
    ensures Steady(Authenticated(c), authLine, all) && Rank(Auth) < Rank(Authenticated(c).state)
  {
    hide Table, History, Serials, Input, Unfinished, UpdateState, DoGetName, Named, Steady;
    var (c1, ok) := Write(c, BEGIN);
    if OK <= c.authData && ok {
      hide Login, Output, Greeting, Front, LineDone, NoReturns, Wires;
      var began := c1.(began := true);
      BeginsKeep(c, began, authLine, all);
      InputStays(c, began, all);
      DoGetNameKeeps(began, authLine, all);
    } else if OK <= c.authData {
      AuthFails(c, c1.acks, authLine, all);
    } else {
      AuthFails(c, c.acks, authLine, all);
      assert c.(acks := c.acks) == c;
    }
  }

  /** One byte of the authentication line, kept or dropped. */
  function AuthByte(c: Conn, b: byte, rest: Script): Conn {
    var c1 := c.(script := rest, line := c.line + [b]);
    if b != NEWLINE && b != RETURN then c1.(authData := c1.authData + [b]) else c1
  }

  lemma AuthByteKeeps(c: Conn, b: byte, rest: Script, authLine: bytes, all: bytes)
    requires Steady(c, authLine, all) && !c.halted && c.state == Auth
    requires Pending(c.script) == [b] + Pending(rest)
    ensures b != NEWLINE ==> Steady(AuthByte(c, b, rest), authLine, all)
    ensures b == NEWLINE ==> LineRead(AuthByte(c, b, rest), authLine, all)
  {
    hide Table, History, Serials, Input, Unfinished, Named, Pending;
    var d := AuthByte(c, b, rest);
    InputByte(c, all, b, rest);
    InputStays(c.(script := rest, line := c.line + [b]), d, all);
    if b != NEWLINE {
      LineGrows(c.state, c.line, c.authData, b);
      assert Inv(d, authLine, None);
    } else {
      assert d.line[..|c.line|] == c.line;
    }
  }

  lemma AuthIdles(c: Conn, rest: Script, authLine: bytes, all: bytes)
    requires Steady(c, authLine, all) && !c.halted && c.state == Auth && Pending(rest) == Pending(c.script)
    ensures Steady(c.(script := rest), authLine, all)
  {
    hide Inv, Input, Unfinished;
    InputMore(c, all, c.reading, rest);
    InvFrame(c, c.(script := rest), authLine);
  }

  lemma AuthBreaks(c: Conn, authLine: bytes, all: bytes)
    requires Steady(c, authLine, all) && !c.halted && c.state == Auth
    ensures Steady(UpdateState(c, Error), authLine, all) && UpdateState(c, Error).state == Error
  {
    hide Inv, Input, Unfinished, UpdateState;
    UpdateIdle(c, Error);
    var d := Turn(c.(state := Error));
    InputDead(c, d, all);
    InvState(c, Error, authLine, None);
    InvFrame(c.(state := Error), d, authLine);
  }

  lemma {:induction false} DoAuthKeeps(c: Conn, authLine: bytes, all: bytes)
    requires Steady(c, authLine, all) && !c.halted && c.state == Auth
    ensures Steady(DoAuth(c), authLine, all) && Rank(Auth) <= Rank(DoAuth(c).state)
    decreases Work(c.script)
  {
    hide Inv, Input, Waiting, Unfinished, UpdateState, Authenticated, LineRead, ReadOnce, Work, Unbroken;
    ReadOnceTakes(c.script, 1);
    var (r, rest) := ReadOnce(c.script, 1);
    match r
    case WouldBlock => AuthIdles(c, rest, authLine, all);
    case Fault =>
      AuthIdles(c, rest, authLine, all);
      AuthBreaks(c.(script := rest), authLine, all);
    case Bytes(b) =>
      assert b == [b[0]];
      AuthByteKeeps(c, b[0], rest, authLine, all);
      if b[0] != NEWLINE {
        DoAuthKeeps(AuthByte(c, b[0], rest), authLine, all);
      } else {
        AuthenticatedKeeps(AuthByte(c, b[0], rest), authLine, all);
      }
  }

  // ----------------------------------------------------------------------- steps

  lemma NewKeeps(script: Script, acks: seq<bool>, plan: seq<seq<Outgoing>>, authLine: bytes)
    ensures var c := NewConn(script, acks, plan); Inv(c, authLine, None) && Input(c, Pending(script)) && Sound(c)
  {
    hide Pending, NextFrame, Frames, Leftover;
    NewIsSound(script, acks, plan);
    var all, c := Pending(script), NewConn(script, acks, plan);
    assert c.reading.data + Pending(c.script) == all && all[|c.line|..] == all;
    assert c.line + (Datas(c.frames) + all) == all && c.frames + Frames(all) == Frames(all);
  }

  lemma StartKeeps(script: Script, acks: seq<bool>, plan: seq<seq<Outgoing>>, reachable: bool, authLine: bytes)
    ensures var c := NewConn(script, acks, plan);
      Sound(c) && Steady(Start(c, reachable, authLine), authLine, Pending(script))
  {
    hide Table, History, Serials, Greeting, Input, Unfinished, UpdateState, Pending, Login;
    var c, all := NewConn(script, acks, plan), Pending(script);
    NewKeeps(script, acks, plan, authLine);
    var (c1, ok1) := Write(c, NUL);
    StartFails(c, authLine, all);
    InputStays(c, c1, all);
    assert Inv(c1, authLine, None);
    StartFails(c1, authLine, all);
    UpdateIdle(c1, Auth);
    if reachable && ok1 {
      LoginStarts();
      GreetingStarts();
      var u := Turn(c1.(state := Auth));
      var (c2, ok2) := Write(u, authLine);
      InputStays(c, c2, all);
      assert [NUL] + [authLine] == [NUL, authLine];
      assert Inv(c2, authLine, None);
      assert c2.state == Auth;
      if !ok2 { StartFails(c2, authLine, all); }
    }
  }

  lemma LoginStarts()
    ensures Login(Auth, [], [], false)
  {
  }

  lemma GreetingStarts()
    ensures Greeting(Auth, None, [], [], [], [])
  {
  }

  lemma StartFails(c: Conn, authLine: bytes, all: bytes)
    requires Sound(c) && !Open(c.state) && !c.halted && c.state != Error
    requires Input(c, all) && Inv(c, authLine, None)
    requires c.written <= [NUL, authLine] && !c.began && c.frames == []
    ensures Steady(UpdateState(c, Error), authLine, all)
  {
    hide Table, History, Serials, Input, Unfinished, UpdateState, Named;
    UpdateIdle(c, Error);
    var d := Turn(c.(state := Error));
    InputDead(c, d, all);
    assert Inv(d, authLine, None);
  }

  lemma ActKeeps(c: Conn, a: Action, authLine: bytes, all: bytes)
    requires Steady(c, authLine, all)
    ensures Steady(Act(c, a), authLine, all) && Rank(c.state) <= Rank(Act(c, a).state)
  {
    hide Inv, Input, Unfinished, Send, DoAuth, HandleBusMsg, ReadFd;
    match a
    case UserSend(m) =>
      if !c.halted && Open(c.state) {
        SendKeeps(c, m, authLine, None);
        InputStays(c, Send(c, m).0, all);
      } else {
        SendRefused(c, m);
      }
    case Readable =>
      if !c.halted {
        if c.state == Auth {
          DoAuthKeeps(c, authLine, all);
        } else if Open(c.state) {
          ReadMessagesKeeps(c, authLine, all);
        }
      }
  }

  lemma {:induction false} RunKeeps(c: Conn, actions: seq<Action>, authLine: bytes, all: bytes)
    requires Steady(c, authLine, all)
    ensures Steady(Run(c, actions), authLine, all) && Rank(c.state) <= Rank(Run(c, actions).state)
    decreases actions
  {
    hide Inv, Input, Unfinished, Act, Waiting;
    if actions != [] {
      ActKeeps(c, actions[0], authLine, all);
      RunKeeps(Act(c, actions[0]), actions[1..], authLine, all);
    }
  }

  /** Every connection is steady after any life: whatever is read, sent, answered or refused. */
  lemma LifeKeeps(script: Script, acks: seq<bool>, plan: seq<seq<Outgoing>>, reachable: bool,
                  authLine: bytes, actions: seq<Action>)
    ensures Steady(Life(script, acks, plan, reachable, authLine, actions), authLine, Pending(script))
  {
    hide Steady, Run, Start, Sound;
    NewIsSound(script, acks, plan);
    StartKeeps(script, acks, plan, reachable, authLine);
    RunKeeps(Start(NewConn(script, acks, plan), reachable, authLine), actions, authLine, Pending(script));
  }
}
