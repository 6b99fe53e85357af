/**
 * Chunk independence of the whole connection: what it has become once all
 * input is read depends on the bytes, not on how the socket cut them.
 */
module Settling {
  import opened Basics
  import opened ByteOrder
  import opened Values
  import opened Messages
  import opened Sockets
  import opened Framing
  import opened ConnectionModel
  import opened ConnectionProofs
  import opened ConnectionRuns

  /** A connection without its input: neither what is still to come nor what is buffered. */
  function Core(c: Conn): Conn {
    c.(script := [], reading := FRESH)
  }

  /** All bytes the connection has not taken yet, buffered or still to come. */
  function Available(c: Conn): bytes {
    c.reading.data + Pending(c.script)
  }

  /** What the connection becomes on reading `s` undivided; `breaks`: behind `s` the socket breaks. */
  function Absorb(c: Conn, s: bytes, breaks: bool): (r: Conn)
    requires Sound(c) && c.reading == FRESH
    decreases |s|
  {
    if c.halted then c
    else if c.state == Auth then
      if s == [] then InputEnds(c, breaks)
      else
        var next := AuthByte(c, s[0], c.script);
        if s[0] != NEWLINE then Absorb(next, s[1..], breaks)
        else
          QuietAuthenticated(next);
          Absorb(Authenticated(next), s[1..], breaks)
    else if !Open(c.state) then c
    else
      match NextFrame(s)
      case NeedMore => InputEnds(c, breaks)
      case Bad => UpdateState(c, Error)
      case Lost => Halt(c)
      case Frame(m, rest) =>
        FrameCursor(s);
        var taken := c.(frames := c.frames + [m]);
        QuietHandle(taken, m);
        Absorb(HandleBusMsg(taken, m), rest, breaks)
  }

  /** No complete frame or line is left: the connection waits for more, or fails with the socket. */
  function InputEnds(c: Conn, breaks: bool): Conn
    requires Sound(c)
  {
    if breaks then UpdateState(c, Error) else c
  }

  predicate Breaks(c: Conn) { !Unbroken(c.script) }

  lemma FrameCursor(s: bytes)
    ensures NextFrame(s).Frame? ==> NextFrame(s).message.pos <= |NextFrame(s).message.data|
  {
    hide GetFixed, FrameSize, LibraryParse;
  }

  // ---------------------------------------------- nothing but reading looks at the input

  /** Input is left alone; a halt drops the buffer. */
  predicate Quiet(c: Conn, d: Conn) {
    d.script == c.script && (d.reading == c.reading || d.reading == FRESH)
  }

  lemma CoreIsSound(c: Conn)
    requires Sound(c) || (exists s :: Sound(c.(state := s)))
    ensures Sound(Core(c))
  {
    FreshIsUnfinished();
    hide InProgress, NextFrame;
  }

  lemma CoreSend(c: Conn, m: Outgoing)
    requires Sound(c) && Sound(Core(c))
    ensures Send(Core(c), m) == (Core(Send(c, m).0), Send(c, m).1) && Quiet(c, Send(c, m).0)
  {
    hide Wire, Sound, FirstFree;
  }

  lemma {:induction false} CoreSendAll(c: Conn, ms: seq<Outgoing>)
    requires Sound(c) && Sound(Core(c))
    ensures SendAll(Core(c), ms) == Core(SendAll(c, ms)) && Quiet(c, SendAll(c, ms))
    decreases ms
  {
    hide Send, Sound;
    if ms != [] {
      CoreSend(c, ms[0]);
      CoreSendAll(Send(c, ms[0]).0, ms[1..]);
    }
  }

  lemma CoreReact(c: Conn)
    requires Sound(c) && Sound(Core(c))
    ensures React(Core(c)) == Core(React(c)) && Quiet(c, React(c))
  {
    hide SendAll, Unfinished;
    if !c.halted && c.plan != [] {
      CoreSendAll(c.(plan := c.plan[1..]), c.plan[0]);
    }
  }

  lemma CoreUpdate(c: Conn, s: State)
    requires if c.halted || c.state == s then Sound(c) else Sound(c.(state := s))
    ensures Sound(Core(c)) && Sound(Core(c).(state := s))
    ensures UpdateState(Core(c), s) == Core(UpdateState(c, s)) && Quiet(c, UpdateState(c, s))
  {
    hide React, InProgress, NextFrame;
    FreshIsUnfinished();
    if !c.halted && c.state != s {
      CoreReact(c.(state := s));
    }
  }

  lemma CoreHandleName(c: Conn, id: nat, m: Received)
    requires Sound(c) && Sound(Core(c)) && c.state == GettingName && id < |c.results| && c.results[id] == Some(m)
    ensures HandleName(Core(c), id, m) == Core(HandleName(c, id, m)) && Quiet(c, HandleName(c, id, m))
  {
    hide UpdateState, GetString, Unfinished;
    StringCursor(m.data, m.pos, LITTLE);
    if m.fixed.kind == ERROR {
      CoreUpdate(c, Error);
    } else {
      match GetString(m.data, m.pos, LITTLE)
      case Got(name, p) => CoreUpdate(AdvanceResult(c.(serviceName := name), id, p), Connected);
      case Miss(p) => CoreUpdate(AdvanceResult(c, id, p), Error);
      case Overrun =>
    }
  }

  lemma CoreFinished(c: Conn, id: nat)
    requires Sound(c) && Sound(Core(c)) && id < |c.results| && c.results[id].Some?
    ensures EmitFinished(Core(c), id) == Core(EmitFinished(c, id)) && Quiet(c, EmitFinished(c, id))
  {
    hide React, HandleName, Sound;
    if c.hello != Some(id) {
      CoreReact(c);
    } else if c.state == GettingName {
      CoreHandleName(c, id, c.results[id].value);
    }
  }

  lemma CoreHandle(c: Conn, m: Received)
    requires Sound(c) && Sound(Core(c)) && c.frames != [] && m.pos <= |m.data|
    ensures HandleBusMsg(Core(c), m) == Core(HandleBusMsg(c, m)) && Quiet(c, HandleBusMsg(c, m))
  {
    hide EmitFinished, Unfinished;
    if IsReply(m) && m.header.replySerial.Some? && m.header.replySerial.value in c.replies {
      var id := c.replies[m.header.replySerial.value];
      if c.results[id].None? {
        CoreFinished(c.(results := c.results[id := Some(m)],
                        finished := c.finished + [Completion(id, |c.frames| - 1)]), id);
      }
    }
  }

  lemma CoreDoGetName(c: Conn)
    requires Sound(c) && Sound(Core(c)) && c.state == Auth
    ensures DoGetName(Core(c)) == Core(DoGetName(c)) && Quiet(c, DoGetName(c))
  {
    hide Sound, UpdateState, Send;
    assert Sound(c.(state := GettingName)) by { SoundState(c); }
    CoreUpdate(c, GettingName);
    var u := UpdateState(c, GettingName);
    assert Sound(Core(u)) by { CoreIsSound(u); }
    CoreSend(u, HELLO);
    var c1 := Send(u, HELLO).0;
    CoreUpdateError(c1);
  }

  lemma CoreUpdateError(c: Conn)
    requires Sound(c)
    ensures c.halted || c.state == Error || Sound(c.(state := Error))
    ensures Sound(Core(c)) && Sound(Core(c).(state := Error))
    ensures UpdateState(Core(c), Error) == Core(UpdateState(c, Error)) && Quiet(c, UpdateState(c, Error))
  {
    hide UpdateState, Unfinished;
    CoreUpdate(c, Error);
  }

  lemma CoreAuthenticated(c: Conn)
    requires Sound(c) && Sound(Core(c)) && c.state == Auth
    ensures Authenticated(Core(c)) == Core(Authenticated(c)) && Quiet(c, Authenticated(c))
  {
    hide UpdateState, DoGetName, Unfinished;
    var (c1, ok) := Write(c, BEGIN);
    if OK <= c.authData && ok {
      CoreDoGetName(c1.(began := true));
    } else {
      CoreUpdateError(c);
      CoreUpdateError(c1);
    }
  }

  lemma QuietAuthenticated(c: Conn)
    requires Sound(c) && c.state == Auth && c.reading == FRESH
    ensures Authenticated(c).reading == FRESH
  {
    hide Authenticated, Sound;
    CoreIsSound(c);
    CoreAuthenticated(c);
  }

  lemma QuietHandle(c: Conn, m: Received)
    requires Sound(c) && c.frames != [] && m.pos <= |m.data| && c.reading == FRESH
    ensures HandleBusMsg(c, m).reading == FRESH
  {
    hide HandleBusMsg, Sound;
    CoreIsSound(c);
    CoreHandle(c, m);
  }

  // --------------------------------------------------------------- step after step

  predicate Stopped(c: Conn) {
    c.halted || (c.state != Auth && !Open(c.state))
  }

  /** What reading relies on: nothing is buffered before the first frame. */
  predicate Reads(c: Conn) {
    Sound(c) && (c.state == Auth ==> c.reading == FRESH)
  }

  /** Reading has moved input into the connection, and changed nothing about what it will become. */
  predicate Absorbs(c: Conn, d: Conn)
    requires Sound(Core(c)) && Sound(Core(d))
  {
    Absorb(Core(c), Available(c), Breaks(c)) == Absorb(Core(d), Available(d), Breaks(d))
  }

  lemma AuthByteCore(c: Conn, rest: Script, b: byte, breaks: bool)
    requires Sound(c) && !c.halted && c.state == Auth && c.reading == FRESH && Pending(c.script) == [b] + Pending(rest)
    ensures var next := AuthByte(c, b, rest);
      Sound(Core(c)) && Sound(next) && Sound(Core(next))
      && Absorb(Core(c), Available(c), breaks) ==
         if b != NEWLINE then Absorb(Core(next), Available(next), breaks)
         else Absorb(Core(Authenticated(next)), Pending(rest), breaks)
  {
    hide Authenticated, Unfinished, Pending;
    FreshIsUnfinished();
    var next := AuthByte(c, b, rest);
    assert Available(c) == [b] + Pending(rest) && Available(next) == Pending(rest);
    assert AuthByte(Core(c), b, []) == Core(next);
    assert ([b] + Pending(rest))[1..] == Pending(rest);
    CoreAuthenticated(next);
  }

  lemma {:induction false} DoAuthAbsorbs(c: Conn)
    requires Reads(c) && !c.halted && c.state == Auth
    ensures var d := DoAuth(c);
      Reads(d) && Sound(Core(c)) && Sound(Core(d)) && Absorbs(c, d)
      && (Work(d.script) < Work(c.script) || d.script == [] || Stopped(d)) && (Breaks(c) <==> Breaks(d))
    decreases Work(c.script)
  {
    hide Unfinished, ReadOnce, Pending, Unbroken, Work, Absorb, Authenticated, Sound;
    CoreIsSound(c);
    ReadOnceTakes(c.script, 1);
    var (r, rest) := ReadOnce(c.script, 1);
    match r
    case WouldBlock =>
      assert Core(c.(script := rest)) == Core(c);
      SoundScript(c, rest);
    case Bytes(b) =>
      assert b == [b[0]];
      AuthByteCore(c, rest, b[0], Breaks(c));
      var next := AuthByte(c, b[0], rest);
      if b[0] != NEWLINE {
        DoAuthAbsorbs(next);
      } else {
        var d := Authenticated(next);
        CoreAuthenticated(next);
        CoreIsSound(d);
        assert d.reading == FRESH && d.script == rest;
        assert Available(d) == Pending(rest);
      }
    case Fault => AuthBreak(c.(script := rest));
  }

  /** The socket breaks inside the line. */
  lemma AuthBreak(c: Conn)
    requires Sound(c) && !c.halted && c.state == Auth && c.reading == FRESH && Pending(c.script) == [] && Breaks(c)
    ensures var d := UpdateState(c, Error);
      Sound(c.(state := Error)) && Sound(d) && d.state == Error && Breaks(d)
      && Sound(Core(c)) && Sound(Core(d)) && Absorbs(c, d)
  {
    hide Unfinished, UpdateState, Pending, Unbroken;
    CoreUpdateError(c);
    UpdateIdle(c, Error);
    CoreIsSound(UpdateState(c, Error));
    assert Available(c) == [];
  }

  lemma SoundScript(c: Conn, script: Script)
    requires Sound(c)
    ensures Sound(c.(script := script))
  {
    hide Unfinished;
  }

  /** A frame has come in. */
  lemma DeliverAbsorbs(c: Conn, m: Received, script: Script)
    requires Sound(c) && !c.halted && Open(c.state) && m.pos <= |m.data|
    requires NextFrame(Available(c)) == Frame(m, Pending(script)) && (Breaks(c) <==> !Unbroken(script))
    ensures var c1 := c.(script := script, reading := FRESH, frames := c.frames + [m]);
      Sound(c1) && Reads(HandleBusMsg(c1, m)) && Breaks(HandleBusMsg(c1, m)) == Breaks(c)
      && Sound(Core(c)) && Sound(Core(HandleBusMsg(c1, m))) && Absorbs(c, HandleBusMsg(c1, m))
      && HandleBusMsg(c1, m).script == script
  {
    hide InProgress, NextFrame, Pending, HandleBusMsg, UpdateState, Unbroken;
    CoreIsSound(c);
    FreshIsUnfinished();
    var c1 := c.(script := script, reading := FRESH, frames := c.frames + [m]);
    CoreHandle(c1, m);
    CoreIsSound(HandleBusMsg(c1, m));
    assert Core(c).(frames := c.frames + [m]) == Core(c1);
    assert FRESH.data + Pending(script) == Pending(script);
  }

  /** A frame was refused, or the socket broke inside one. */
  lemma FailAbsorbs(c: Conn, reading: Reading, script: Script)
    requires Sound(c) && !c.halted && Open(c.state) && (Breaks(c) <==> !Unbroken(script))
    requires NextFrame(Available(c)).Bad? || (NextFrame(Available(c)).NeedMore? && Breaks(c))
    ensures var c1 := c.(script := script, reading := reading);
      Sound(c1.(state := Error)) && Reads(UpdateState(c1, Error)) && Breaks(UpdateState(c1, Error)) == Breaks(c)
      && Sound(Core(c)) && Sound(Core(UpdateState(c1, Error))) && Absorbs(c, UpdateState(c1, Error))
      && UpdateState(c1, Error).state == Error
  {
    hide InProgress, NextFrame, Pending, UpdateState, Unbroken;
    CoreIsSound(c);
    var c1 := c.(script := script, reading := reading);
    CoreUpdate(c1, Error);
    assert Core(c1) == Core(c);
    UpdateIdle(c1, Error);
  }

  lemma ReadAbsorbs(c: Conn)
    requires Reads(c) && !c.halted && Open(c.state)
    ensures var d := ReadData(c);
      Reads(d) && Sound(Core(c)) && Sound(Core(d)) && Absorbs(c, d)
      && (Work(d.script) < Work(c.script) || d.script == [] || Stopped(d)) && (Breaks(c) <==> Breaks(d))
  {
    hide InProgress, NextFrame, Pending, Work, HandleBusMsg, ReadFd, UpdateState, Unbroken;
    CoreIsSound(c);
    ReadFdTells(c.reading, c.script);
    FreshIsUnfinished();
    var (res, reading, script) := ReadFd(c.reading, c.script);
    match res
    case Success => DeliverAbsorbs(c, Received(reading.fixed, reading.header, reading.data, reading.pos), script);
    case Failure => FailAbsorbs(c, reading, script);
    case WouldBlock =>
    case Crash =>
  }

  /** `n` calls of readData. */
  function Settle(c: Conn, n: nat): (r: Conn)
    requires Sound(c)
    ensures Sound(r)
    decreases n
  {
    if n == 0 then c else Settle(ReadData(c), n - 1)
  }

  lemma {:induction false} SettleStopped(c: Conn, n: nat)
    requires Sound(c) && Stopped(c)
    ensures Settle(c, n) == c
    decreases n
  {
    hide Sound;
    if n > 0 { SettleStopped(c, n - 1); }
  }

  lemma {:induction false} SettleAbsorbs(c: Conn, n: nat)
    requires Reads(c)
    ensures var d := Settle(c, n);
      Reads(d) && Sound(Core(c)) && Sound(Core(d)) && Absorbs(c, d)
      && (n > Work(c.script) ==> Stopped(d) || d.script == [])
      && (c.script == [] ==> Stopped(d) || d.script == [])
    decreases n
  {
    hide Sound, Unbroken, Absorb, DoAuth, HandleBusMsg, ReadFd, UpdateState;
    CoreIsSound(c);
    if n > 0 {
      if Stopped(c) {
        SettleStopped(c, n);
      } else {
        if c.state == Auth { DoAuthAbsorbs(c); } else { ReadAbsorbs(c); }
        SettleAbsorbs(ReadData(c), n - 1);
        if Stopped(ReadData(c)) { SettleStopped(ReadData(c), n - 1); }
      }
    }
  }

  /** Nothing more comes of a connection that has read its input to the end. */
  lemma NothingToAbsorb(c: Conn)
    requires Reads(c) && (Stopped(c) || c.script == [])
    ensures Sound(Core(c)) && Absorb(Core(c), Available(c), Breaks(c)) == Core(c)
  {
    hide NextFrame, InProgress;
    CoreIsSound(c);
    assert c.script == [] ==> Available(c) == c.reading.data;
  }

  /**
   * Chunk independence: two connections that differ only in how their input
   * is cut, and how much of it is already buffered, are the same once both
   * have read it: same state, name, replies, results, serials and output,
   * whatever their handlers sent on the way, and whether the socket breaks
   * behind the input of both or of neither.
   */
  lemma SettlesByBytes(c: Conn, d: Conn, n: nat, k: nat)
    requires Reads(c) && Reads(d) && Core(c) == Core(d) && Available(c) == Available(d)
    requires Unbroken(c.script) <==> Unbroken(d.script)
    requires n > Work(c.script) && k > Work(d.script)
    ensures Core(Settle(c, n)) == Core(Settle(d, k))
  {
    hide Unbroken, Absorb, Settle, Work, Stopped, Available, Core, Sound;
    SettleAbsorbs(c, n);
    SettleAbsorbs(d, k);
    NothingToAbsorb(Settle(c, n));
    NothingToAbsorb(Settle(d, k));
  }

  lemma CoreWrite(c: Conn, data: bytes)
    requires Sound(c)
    ensures Write(Core(c), data) == (Core(Write(c, data).0), Write(c, data).1)
    ensures Sound(Write(c, data).0) && Quiet(c, Write(c, data).0) && Write(c, data).0.state == c.state
    ensures c.state != Error ==> Sound(Write(c, data).0.(state := Auth))
  {
    hide Unfinished;
  }

  lemma CoreStart(c: Conn, reachable: bool, authLine: bytes)
    requires Sound(c) && Sound(Core(c)) && c.state == Connecting
    ensures Start(Core(c), reachable, authLine) == Core(Start(c, reachable, authLine))
    ensures Quiet(c, Start(c, reachable, authLine))
  {
    hide UpdateState, Sound, Write;
    CoreUpdateError(c);
    CoreWrite(c, NUL);
    var c1 := Write(c, NUL).0;
    CoreUpdateError(c1);
    CoreUpdate(c1, Auth);
    var u := UpdateState(c1, Auth);
    CoreWrite(u, authLine);
    CoreUpdateError(Write(u, authLine).0);
  }

  /**
   * Two connections made alike and fed with the same bytes, in whatever
   * pieces, end up the same once they have read them, on sockets that break
   * behind these bytes as on sockets that do not.
   */
  lemma LivesSettleAlike(script1: Script, script2: Script, acks: seq<bool>,
                         plan: seq<seq<Outgoing>>, reachable: bool, authLine: bytes, n: nat, k: nat)
    requires Pending(script1) == Pending(script2) && (Unbroken(script1) <==> Unbroken(script2))
    requires n > Work(script1) && k > Work(script2)
    ensures var c, d := NewConn(script1, acks, plan), NewConn(script2, acks, plan);
      Sound(c) && Sound(d)
      && Core(Settle(Start(c, reachable, authLine), n)) == Core(Settle(Start(d, reachable, authLine), k))
  {
    hide Settle, Work, Pending, Unbroken, Sound, Start;
    var c, d := NewConn(script1, acks, plan), NewConn(script2, acks, plan);
    NewIsSound(script1, acks, plan);
    NewIsSound(script2, acks, plan);
    CoreIsSound(c);
    CoreIsSound(d);
    CoreStart(c, reachable, authLine);
    CoreStart(d, reachable, authLine);
    SettlesByBytes(Start(c, reachable, authLine), Start(d, reachable, authLine), n, k);
  }
}
