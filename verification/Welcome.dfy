/**
 * When a connection comes up: what the bus has to send for the state to
 * reach Connected, and which writes have to succeed for that, whatever the
 * handlers send meanwhile.
 */
module Welcome {
  import opened Basics
  import opened ByteOrder
  import opened Values
  import opened Messages
  import opened Interop
  import opened Sockets
  import opened Framing
  import opened Delivery
  import opened ConnectionModel
  import opened ConnectionProofs
  import opened ConnectionRuns
  import opened ConnectionTheorems
  import opened Settling

  /** The messages a plan has handlers send, all in all. */
  function Total(plan: seq<seq<Outgoing>>): nat {
    if plan == [] then 0 else |plan[0]| + Total(plan[1..])
  }

  /** There are serials for all that is planned and `more`. */
  predicate Able(c: Conn, more: nat) {
    !c.halted && |c.replies| + Total(c.plan) + more < TWO_32
  }

  /** Whether the write after `i` others succeeds. */
  predicate Taken(acks: seq<bool>, i: nat) {
    i < |acks| ==> acks[i]
  }

  /** The outcomes left after `k` writes. */
  function After(acks: seq<bool>, k: nat): seq<bool> {
    if k <= |acks| then acks[k..] else []
  }

  lemma AfterAfter(acks: seq<bool>, j: nat, k: nat)
    ensures After(After(acks, j), k) == After(acks, j + k)
    ensures Taken(After(acks, j), k) == Taken(acks, j + k)
  {
  }

  /** Messages were sent on the way from `c` to `d`, nothing else has changed. */
  ghost predicate Sending(c: Conn, d: Conn) {
    && d.state == c.state && d.hello == c.hello && d.reading == c.reading && d.script == c.script
    && d.serviceName == c.serviceName && d.line == c.line && d.authData == c.authData
    && c.results <= d.results
    && (forall s | s in c.replies :: s in d.replies && d.replies[s] == c.replies[s])
    && (forall s | s in d.replies && s !in c.replies :: d.replies[s] >= |c.results|)
  }

  lemma WriteTakes(c: Conn, data: bytes)
    ensures var (d, ok) := Write(c, data);
      ok == Taken(c.acks, 0) && d == c.(acks := After(c.acks, 1), written := d.written)
  {
  }

  lemma SendingTwice(a: Conn, b: Conn, c: Conn)
    requires Sending(a, b) && Sending(b, c)
    ensures Sending(a, c)
  {
  }

  lemma SendSends(c: Conn, m: Outgoing, more: nat)
    requires Sound(c) && Able(c, more + 1)
    ensures var d := Send(c, m).0; Able(d, more) && Sending(c, d)
    ensures Open(c.state) ==>
              var (d, id) := Send(c, m);
              d.nextSerial == Succ(FirstFree(c.replies.Keys, c.nextSerial, 0)) && d.acks == After(c.acks, 1)
              && if Taken(c.acks, 0) then
                   id == Some(|c.results|) && d.results == c.results + [None]
                   && d.replies == c.replies[FirstFree(c.replies.Keys, c.nextSerial, 0) := |c.results|]
                 else id == None && d.results == c.results && d.replies == c.replies
  {
    hide Sound, Send, Wire, FirstFree, Total;
    if Open(c.state) {
      SendTakes(c, m);
      SendAcks(c, m);
    } else {
      SendRefused(c, m);
    }
  }

  /** One write decides. */
  lemma SendAcks(c: Conn, m: Outgoing)
    requires Sound(c) && !c.halted && Open(c.state) && |c.replies| < TWO_32
    ensures Send(c, m).0.acks == After(c.acks, 1) && (Send(c, m).1.Some? <==> Taken(c.acks, 0))
  {
    hide Sound, Wire, FirstFree;
  }

  /** Serials 1, 2, 3, ... while nothing has been erased. */
  predicate Counting(c: Conn) {
    c.nextSerial >= 1 && forall s | s in c.replies :: s < c.nextSerial
  }

  lemma {:induction false} SendAllSends(c: Conn, ms: seq<Outgoing>, more: nat)
    requires Sound(c) && Able(c, |ms| + more)
    ensures var d := SendAll(c, ms); Able(d, more) && Sending(c, d)
    ensures Open(c.state) && Counting(c) && c.nextSerial + |ms| < TWO_32 ==>
              Counting(SendAll(c, ms)) && SendAll(c, ms).nextSerial == c.nextSerial + |ms|
              && SendAll(c, ms).acks == After(c.acks, |ms|)
    decreases ms
  {
    hide Sound, Send, Able, Sending;
    if ms == [] {
      SendingNothing(c);
    } else {
      assert Able(c, |ms[1..]| + more + 1);
      var d := Send(c, ms[0]).0;
      SendSends(c, ms[0], |ms[1..]| + more);
      AfterAfter(c.acks, 1, |ms[1..]|);
      if Open(c.state) && Counting(c) && c.nextSerial + |ms| < TWO_32 { SendCounts(c, ms[0], |ms[1..]| + more); }
      SendAllSends(d, ms[1..], more);
      SendingTwice(c, d, SendAll(d, ms[1..]));
    }
  }

  lemma SendingNothing(c: Conn)
    ensures Sending(c, c)
  {
  }

  lemma SendCounts(c: Conn, m: Outgoing, more: nat)
    requires Sound(c) && Able(c, more + 1) && Open(c.state) && Counting(c) && c.nextSerial + 1 < TWO_32
    ensures var d := Send(c, m).0;
      Counting(d) && d.nextSerial == c.nextSerial + 1 && Open(d.state) && d.acks == After(c.acks, 1)
  {
    hide Sound, Send, Total;
    SendSends(c, m, more);
    FirstIsNext(c.replies.Keys, c.nextSerial);
  }

  /** Handlers run once: they send what the plan says, if anything may be sent. */
  lemma ReactSends(c: Conn, more: nat)
    requires Sound(c) && Able(c, more)
    ensures var d := React(c); Able(d, more) && Sending(c, d)
    ensures !Open(c.state) ==> React(c) == Turn(c)
  {
    hide Unfinished, SendAll, Sending;
    SendingNothing(c);
    if c.plan != [] {
      var turn := c.(plan := c.plan[1..]);
      SendAllSends(turn, c.plan[0], more);
      SendingTurn(c, turn, React(c));
      if !Open(c.state) { SendAllIdle(turn, c.plan[0]); }
    }
  }

  lemma SendingTurn(c: Conn, turn: Conn, d: Conn)
    requires turn == c.(plan := turn.plan) && Sending(turn, d)
    ensures Sending(c, d)
  {
  }

  lemma UpdateSends(c: Conn, s: State, more: nat)
    requires Able(c, more) && c.state != s && Sound(c.(state := s))
    ensures var d := UpdateState(c, s); Able(d, more) && Sending(c.(state := s), d)
  {
    hide Sound, React, Total, Sending;
    ReactSends(c.(state := s), more);
  }

  // ------------------------------------------------------------------- handshake

  /** How many messages the handlers send before Hello: those of the second turn, at GettingName. */
  function Before(plan: seq<seq<Outgoing>>): nat {
    if plan == [] then 0 else |plan[0]|
  }

  /** The serial Hello gets: the first turn, at Auth, can send nothing. */
  function HelloSerial(plan: seq<seq<Outgoing>>): nat {
    1 + if plan == [] then 0 else Before(plan[1..])
  }

  /** The line is being read: nothing has been sent, and all but the carriage returns is kept. */
  predicate Listening(c: Conn) {
    Sound(c) && Able(c, 1) && c.state == Auth && c.reading == FRESH && c.authData == NoReturns(c.line)
    && c.replies == map[] && c.results == [] && c.nextSerial == 1 && c.hello == None
  }

  /** Hello is out under serial `h`, and that entry is the only one that leads to its reply. */
  ghost predicate Asked(c: Conn, h: nat) {
    Sound(c) && Able(c, 0) && c.state == GettingName && c.reading == FRESH
    && c.hello.Some? && c.results[c.hello.value].None?
    && h < TWO_32 && h in c.replies && c.replies[h] == c.hello.value
    && forall s | s in c.replies && s != h :: c.replies[s] != c.hello.value
  }

  /** The name is there, and nothing leads to the reply to Hello any more. */
  ghost predicate Settled(c: Conn, name: bytes) {
    Sound(c) && Able(c, 0) && c.state == Connected && c.reading == FRESH && c.serviceName == name
    && c.hello.Some? && forall s | s in c.replies :: c.replies[s] != c.hello.value
  }

  /** Connected and alive, under `name`. */
  predicate Up(c: Conn, name: bytes) {
    c.state == Connected && !c.halted && c.serviceName == name
  }

  /** Construction gets as far as the line exactly when the bus can be reached and both writes succeed. */
  lemma StartListens(script: Script, acks: seq<bool>, plan: seq<seq<Outgoing>>, reachable: bool, authLine: bytes)
    requires Able(NewConn(script, acks, plan), 1)
    ensures var c := NewConn(script, acks, plan);
      Sound(c) && Sound(Start(c, reachable, authLine))
      && Start(c, reachable, authLine).script == script && Start(c, reachable, authLine).reading == FRESH
      && if reachable && Taken(acks, 0) && Taken(acks, 1) then
           Start(c, reachable, authLine).state == Auth
           && Listening(Core(Start(c, reachable, authLine))) && Core(Start(c, reachable, authLine)).line == []
           && Core(Start(c, reachable, authLine)).plan == (if plan == [] then [] else plan[1..])
           && Core(Start(c, reachable, authLine)).acks == After(acks, 2)
         else Start(c, reachable, authLine).state == Error
  {
    hide Unfinished, UpdateState, Write;
    NewIsSound(script, acks, plan);
    var c := NewConn(script, acks, plan);
    UpdateIdle(c, Error);
    WriteTakes(c, NUL);
    var c1 := Write(c, NUL).0;
    UpdateIdle(c1, Error);
    UpdateIdle(c1, Auth);
    var c2 := UpdateState(c1, Auth);
    WriteTakes(c2, authLine);
    AfterAfter(acks, 1, 0);
    AfterAfter(acks, 1, 1);
    UpdateIdle(Write(c2, authLine).0, Error);
    CoreIsSound(Start(c, reachable, authLine));
  }

  /** The connection after the line at the front of `s`, its newline included. */
  function AfterLine(c: Conn, s: bytes): (r: Conn)
    requires Listening(c) && LineEnd(s) < |s|
    ensures Sound(r) && r.state == Auth && r.reading == FRESH
  {
    hide Unfinished;
    c.(line := c.line + s[..LineEnd(s) + 1], authData := NoReturns(c.line + s[..LineEnd(s)]))
  }

  /** What becomes of it once the line is judged and the rest of `s` is read. */
  function Judged(c: Conn, s: bytes, breaks: bool): Conn
    requires Listening(c) && LineEnd(s) < |s|
  {
    QuietAuthenticated(AfterLine(c, s));
    Absorb(Authenticated(AfterLine(c, s)), s[LineEnd(s) + 1..], breaks)
  }

  lemma NextListens(c: Conn, b: byte)
    requires Listening(c) && b != NEWLINE
    ensures Listening(AuthByte(c, b, c.script))
  {
    hide Sound, Total, NoReturns;
    SoundKept(c, AuthByte(c, b, c.script));
    ByteIsKept(c.line, b);
  }

  lemma ByteIsKept(line: bytes, b: byte)
    ensures NoReturns(line + [b]) == NoReturns(line) + if b == RETURN then [] else [b]
  {
    assert (line + [b])[..|line|] == line;
  }

  lemma AfterLineSteps(c: Conn, s: bytes)
    requires Listening(c) && s != [] && s[0] != NEWLINE && LineEnd(s) < |s|
    ensures var next := AuthByte(c, s[0], c.script);
      Listening(next) && LineEnd(s) == LineEnd(s[1..]) + 1 && AfterLine(next, s[1..]) == AfterLine(c, s)
      && s[1..][LineEnd(s)..] == s[LineEnd(s) + 1..]
  {
    hide Listening, NoReturns, Sound, Able, LineEnd;
    NextListens(c, s[0]);
    LineEndSteps(s);
    FrontMoves(c.line, s, LineEnd(s));
    FrontMoves(c.line, s, LineEnd(s) + 1);
  }

  lemma LineEndSteps(s: bytes)
    requires s != [] && s[0] != NEWLINE
    ensures LineEnd(s) == LineEnd(s[1..]) + 1
  {
  }

  lemma FrontMoves(line: bytes, s: bytes, n: nat)
    requires 0 < n <= |s|
    ensures line + [s[0]] + s[1..][..n - 1] == line + s[..n]
    ensures s[1..][n - 1..] == s[n..]
  {
  }

  lemma AfterLineEnds(c: Conn, s: bytes)
    requires Listening(c) && s != [] && s[0] == NEWLINE
    ensures AuthByte(c, s[0], c.script) == AfterLine(c, s)
  {
    assert s[..1] == [s[0]] && c.line + s[..0] == c.line;
  }

  /** One byte of the line. */
  lemma AbsorbByte(c: Conn, s: bytes, breaks: bool)
    requires Listening(c) && s != []
    ensures var next := AuthByte(c, s[0], c.script);
      Sound(next) && next.reading == FRESH
      && (s[0] != NEWLINE ==> Absorb(c, s, breaks) == Absorb(next, s[1..], breaks))
      && (s[0] == NEWLINE ==> Absorb(c, s, breaks) == Judged(c, s, breaks))
  {
    hide Unfinished, Authenticated, AfterLine, Total, NoReturns;
    if s[0] == NEWLINE { AfterLineEnds(c, s); }
  }

  lemma {:induction false} AbsorbLine(c: Conn, s: bytes, breaks: bool)
    requires Listening(c)
    ensures if LineEnd(s) == |s| then Absorb(c, s, breaks).state == (if breaks then Error else Auth)
            else Absorb(c, s, breaks) == Judged(c, s, breaks)
    decreases |s|
  {
    hide Unfinished, Authenticated, AfterLine, Total, NoReturns, AuthByte, UpdateState;
    if s == [] {
      UpdateIdle(c, Error);
    } else {
      hide Absorb, Listening;
      AbsorbByte(c, s, breaks);
      if s[0] != NEWLINE {
        NextListens(c, s[0]);
        AbsorbLine(AuthByte(c, s[0], c.script), s[1..], breaks);
        if LineEnd(s) < |s| { AfterLineSteps(c, s); }
      }
    }
  }

  /**
   * A line that begins with OK, carriage returns aside, is followed by Hello
   * if BEGIN and Hello itself can be written; otherwise there is an Error.
   */
  lemma LineJudged(c: Conn, s: bytes)
    requires Listening(c) && LineEnd(s) < |s|
    ensures var d := Authenticated(AfterLine(c, s));
      if OK <= NoReturns(c.line + s[..LineEnd(s)]) && Taken(c.acks, 0) && Taken(c.acks, 1 + Before(c.plan)) then
        Asked(d, 1 + Before(c.plan))
      else d.state == Error && d.reading == FRESH
  {
    hide Sound, Authenticated, NoReturns, OK, LineEnd, Total, Asked, Taken, Before;
    Accepted(AfterLine(c, s));
  }

  lemma Accepted(c: Conn)
    requires Sound(c) && Able(c, 1) && c.state == Auth && c.reading == FRESH
    requires c.replies == map[] && c.results == [] && c.nextSerial == 1 && c.hello == None
    ensures var d := Authenticated(c);
      if OK <= c.authData && Taken(c.acks, 0) && Taken(c.acks, 1 + Before(c.plan)) then Asked(d, 1 + Before(c.plan))
      else d.state == Error && d.reading == FRESH
  {
    hide Unfinished, UpdateState, OK, Total, DoGetName, Asked, Before, After, Write;
    WriteTakes(c, BEGIN);
    var d := Write(c, BEGIN).0;
    AfterAfter(c.acks, 1, Before(c.plan));
    if !(OK <= c.authData) {
      UpdateIdle(c, Error);
    } else if !Taken(c.acks, 0) {
      UpdateIdle(d, Error);
    } else {
      HelloGoesOut(d.(began := true));
    }
  }

  lemma HelloGoesOut(c: Conn)
    requires Sound(c) && Able(c, 1) && c.state == Auth && c.reading == FRESH
    requires c.replies == map[] && c.results == [] && c.nextSerial == 1 && c.hello == None
    ensures if Taken(c.acks, Before(c.plan)) then Asked(DoGetName(c), 1 + Before(c.plan))
            else DoGetName(c).state == Error && DoGetName(c).reading == FRESH
  {
    hide Sound, UpdateState, Send, HELLO, Total;
    assert Sound(c.(state := GettingName)) by { SoundState(c); }
    UpdateSends(c, GettingName, 1);
    var u := UpdateState(c, GettingName);
    GreetersCount(c);
    AfterAfter(c.acks, Before(c.plan), 0);
    assert u.nextSerial !in u.replies;
    SendSends(u, HELLO, 0);
    FirstIsNext(u.replies.Keys, u.nextSerial);
    HelloIsAlone(u);
    var v := Send(u, HELLO).0;
    SoundState(v);
    UpdateIdle(v, Error);
  }

  /** The handlers at GettingName take the first serials. */
  lemma GreetersCount(c: Conn)
    requires Sound(c) && Sound(c.(state := GettingName)) && Able(c, 1) && c.state == Auth
    requires c.replies == map[] && c.nextSerial == 1
    ensures var u := UpdateState(c, GettingName);
      Counting(u) && u.nextSerial == 1 + Before(c.plan) && u.acks == After(c.acks, Before(c.plan))
  {
    hide Unfinished, SendAll, Sending;
    if c.plan != [] {
      SendAllSends(c.(state := GettingName, plan := c.plan[1..]), c.plan[0], 1);
    }
  }

  lemma HelloIsAlone(u: Conn)
    requires Sound(u)
    ensures forall s | s in u.replies :: u.replies[s] < |u.results|
  {
    hide Unfinished;
  }

  // ----------------------------------------------------------------------- frames

  /** The first of the frames that answers serial `s`. */
  function FirstAnswer(frames: seq<Received>, s: u32): Option<Received> {
    if frames == [] then None
    else if Answers(frames[0], s) then Some(frames[0])
    else FirstAnswer(frames[1..], s)
  }

  /** The string at the start of a frame's body. */
  function NameOf(m: Received): bytes
    requires m.pos <= |m.data|
  {
    match GetString(m.data, m.pos, LITTLE)
    case Got(name, _) => name
    case _ => []
  }

  /** The name was taken and handlers ran. */
  ghost predicate Connects(c: Conn, d: Conn, name: bytes) {
    && d.state == Connected && d.hello == c.hello && d.reading == c.reading && d.serviceName == name
    && forall t | t in d.replies :: (t in c.replies && d.replies[t] == c.replies[t]) || d.replies[t] >= |c.results|
  }

  lemma NameHandled(c: Conn, id: nat, m: Received)
    requires Sound(c) && Able(c, 0) && c.state == GettingName && id < |c.results| && c.results[id] == Some(m)
    requires IsReply(m) && m.pos <= |m.data|
    ensures var d := HandleName(c, id, m);
      if NameIn(m, NameOf(m)) then Able(d, 0) && Connects(c, d, NameOf(m))
      else d.halted || d.state == Error
  {
    hide Unfinished, UpdateState, GetString, Total;
    StringCursor(m.data, m.pos, LITTLE);
    if m.fixed.kind == ERROR {
      UpdateIdle(c, Error);
    } else {
      match GetString(m.data, m.pos, LITTLE)
      case Got(name, p) => NameTaken(c, id, name, p);
      case Miss(p) => UpdateIdle(AdvanceResult(c, id, p), Error);
      case Overrun =>
    }
  }

  lemma NameTaken(c: Conn, id: nat, name: bytes, p: nat)
    requires Sound(c) && Able(c, 0) && c.state == GettingName && id < |c.results|
    requires c.results[id].Some? && p <= |c.results[id].value.data|
    ensures var a := AdvanceResult(c.(serviceName := name), id, p);
      Sound(a.(state := Connected))
      && Able(UpdateState(a, Connected), 0) && Connects(c, UpdateState(a, Connected), name)
  {
    hide Unfinished, UpdateState, Total;
    UpdateSends(AdvanceResult(c.(serviceName := name), id, p), Connected, 0);
  }

  /** A frame was handled that has nothing to do with Hello: at most entry `s` went, only new ones came. */
  ghost predicate Elsewhere(c: Conn, d: Conn, s: nat) {
    && d.state == c.state && d.hello == c.hello && d.reading == c.reading && d.serviceName == c.serviceName
    && |c.results| <= |d.results|
    && (forall i | 0 <= i < |c.results| && c.hello == Some(i) :: d.results[i] == c.results[i])
    && (forall t | t in c.replies && t != s :: t in d.replies && d.replies[t] == c.replies[t])
    && (forall t | t in d.replies :: (t in c.replies && d.replies[t] == c.replies[t]) || d.replies[t] >= |c.results|)
  }

  lemma EraseFits(c: Conn, s: u32)
    requires Able(c, 0)
    ensures Able(c.(replies := c.replies - {s}), 0)
  {
    hide Total;
    assert (c.replies - {s}).Keys == c.replies.Keys - {s};
    assert |c.replies.Keys - {s}| <= |c.replies.Keys|;
  }

  lemma OtherHandled(c: Conn, m: Received, s: u32)
    requires Sound(c) && Able(c, 0) && c.frames != [] && m.pos <= |m.data|
    requires Answers(m, s) && s in c.replies && c.hello.Some? && c.replies[s] != c.hello.value
    ensures var d := HandleBusMsg(c, m); Able(d, 0) && Elsewhere(c, d, s)
  {
    hide Unfinished, React, Total, Sending, Elsewhere;
    var id := c.replies[s];
    if c.results[id].None? {
      var c1 := c.(results := c.results[id := Some(m)], finished := c.finished + [Completion(id, |c.frames| - 1)]);
      ReactSends(c1, 0);
      EraseFits(React(c1), s);
      ElsewhereSends(c, c1, React(c1), s);
    } else {
      EraseFits(c, s);
      SendingNothing(c);
      ElsewhereSends(c, c, c, s);
    }
  }

  lemma ElsewhereSends(c: Conn, c1: Conn, d: Conn, s: u32)
    requires c1 == c.(results := c1.results, finished := c1.finished) && |c1.results| == |c.results|
    requires forall i | 0 <= i < |c.results| && c.hello == Some(i) :: c1.results[i] == c.results[i]
    requires Sending(c1, d)
    ensures Elsewhere(c, d.(replies := d.replies - {s}), s)
  {
  }

  /** While Hello is awaited: what a frame does. */
  lemma AskedHandles(c: Conn, m: Received, h: u32)
    requires Asked(c, h) && c.frames != [] && m.pos <= |m.data|
    ensures var d := HandleBusMsg(c, m);
      if !Answers(m, h) then Asked(d, h)
      else if NameIn(m, NameOf(m)) then Settled(d, NameOf(m))
      else d.halted || d.state == Error
  {
    hide Unfinished, HandleName, NameOf, Total, NameIn;
    if Answers(m, h) {
      HelloHandled(c, m, h);
    } else if IsReply(m) && m.header.replySerial.Some? && m.header.replySerial.value in c.replies {
      hide HandleBusMsg;
      OtherHandled(c, m, m.header.replySerial.value);
    }
  }

  lemma HelloHandled(c: Conn, m: Received, h: u32)
    requires Asked(c, h) && c.frames != [] && m.pos <= |m.data| && Answers(m, h)
    ensures var d := HandleBusMsg(c, m);
      if NameIn(m, NameOf(m)) then Settled(d, NameOf(m)) else d.halted || d.state == Error
  {
    hide Unfinished, HandleName, NameOf, Total, NameIn;
    var id := c.hello.value;
    var c1 := c.(results := c.results[id := Some(m)], finished := c.finished + [Completion(id, |c.frames| - 1)]);
    assert Able(c1, 0) by { SameRoom(c, c1); }
    NameHandled(c1, id, m);
    if NameIn(m, NameOf(m)) {
      EraseFits(HandleName(c1, id, m), h);
    }
  }

  lemma SameRoom(c: Conn, d: Conn)
    requires Able(c, 0) && d.halted == c.halted && d.replies == c.replies && d.plan == c.plan
    ensures Able(d, 0)
  {
  }

  lemma SettledHandles(c: Conn, m: Received, name: bytes)
    requires Settled(c, name) && c.frames != [] && m.pos <= |m.data|
    ensures Settled(HandleBusMsg(c, m), name)
  {
    hide Unfinished, Total;
    if IsReply(m) && m.header.replySerial.Some? && m.header.replySerial.value in c.replies {
      hide HandleBusMsg;
      OtherHandled(c, m, m.header.replySerial.value);
    }
  }

  /** Once connected, only a frame that is refused or overruns, or the socket, takes the connection down. */
  lemma {:induction false} AbsorbSettled(c: Conn, s: bytes, breaks: bool, name: bytes)
    requires Settled(c, name)
    ensures var d := Absorb(c, s, breaks);
      if NextFrame(Leftover(s)).NeedMore? && !breaks then Up(d, name) else d.halted || d.state == Error
    decreases |s|
  {
    hide Unfinished, NextFrame, HandleBusMsg, UpdateState, Total;
    match NextFrame(s)
    case NeedMore => UpdateIdle(c, Error);
    case Bad => UpdateIdle(c, Error);
    case Lost =>
    case Frame(m, rest) =>
      FrameCursor(s);
      var taken := c.(frames := c.frames + [m]);
      SettledHandles(taken, m, name);
      AbsorbSettled(HandleBusMsg(taken, m), rest, breaks, name);
  }

  /** While Hello is awaited: what a stream of frames makes of the connection. */
  lemma {:induction false} AbsorbAsked(c: Conn, h: u32, s: bytes, breaks: bool, name: bytes)
    requires Asked(c, h)
    ensures Up(Absorb(c, s, breaks), name) <==>
            !breaks && FirstAnswer(Frames(s), h).Some? && NameIn(FirstAnswer(Frames(s), h).value, name)
            && NextFrame(Leftover(s)).NeedMore?
    decreases |s|
  {
    hide Unfinished, NextFrame, HandleBusMsg, UpdateState, NameIn, Answers, Total;
    match NextFrame(s)
    case NeedMore => UpdateIdle(c, Error);
    case Bad => UpdateIdle(c, Error);
    case Lost =>
    case Frame(m, rest) =>
      FrameCursor(s);
      FrameOpens(s);
      var taken := c.(frames := c.frames + [m]);
      AskedHandles(taken, m, h);
      if !Answers(m, h) {
        assert ([m] + Frames(rest))[1..] == Frames(rest);
        AbsorbAsked(HandleBusMsg(taken, m), h, rest, breaks, name);
      } else if NameIn(m, NameOf(m)) {
        AbsorbSettled(HandleBusMsg(taken, m), rest, breaks, NameOf(m));
        assert NameIn(m, name) <==> name == NameOf(m) by { OneName(m, name); }
      } else {
        assert !NameIn(m, name) by { OneName(m, name); }
      }
  }

  lemma OneName(m: Received, name: bytes)
    requires m.pos <= |m.data|
    ensures NameIn(m, name) ==> name == NameOf(m)
  {
    hide GetString;
  }

  // ------------------------------------------------------------------- the theorem

  /** The writes that must succeed: NUL, the authentication line, BEGIN, and Hello after what handlers send. */
  predicate HandshakeWrites(acks: seq<bool>, plan: seq<seq<Outgoing>>) {
    Taken(acks, 0) && Taken(acks, 1) && Taken(acks, 2) && Taken(acks, 2 + HelloSerial(plan))
  }

  lemma HelloSerialFits(plan: seq<seq<Outgoing>>)
    requires Total(plan) < TWO_32 - 1
    ensures HelloSerial(plan) < TWO_32
  {
  }

  /**
   * Whatever the handlers send, whichever writes fail and however the input
   * is cut: once everything is read, the connection is up under `name` if and
   * only if the bus could be reached, the four writes of the handshake
   * succeeded, the socket does not break, the input has a first line that
   * begins with OK (carriage returns aside), the first frame behind it that
   * answers Hello is a return whose body begins with the string `name`, and
   * the stream of frames ends in a frame not yet complete, not in a refused
   * one.
   */
  lemma ComesUp(script: Script, acks: seq<bool>, plan: seq<seq<Outgoing>>, reachable: bool, authLine: bytes,
                name: bytes, n: nat)
    requires Total(plan) < TWO_32 - 1 && n > Work(script)
    ensures Sound(NewConn(script, acks, plan)) && HelloSerial(plan) < TWO_32
    ensures var c, all := Settle(Start(NewConn(script, acks, plan), reachable, authLine), n), Pending(script);
      var line := LineEnd(all);
      Up(c, name) <==>
      reachable && HandshakeWrites(acks, plan) && Unbroken(script) && line < |all| && OK <= NoReturns(all[..line])
      && FirstAnswer(Frames(all[line + 1..]), HelloSerial(plan)).Some?
      && NameIn(FirstAnswer(Frames(all[line + 1..]), HelloSerial(plan)).value, name)
      && NextFrame(Leftover(all[line + 1..])).NeedMore?
  {
    hide Settle, Unbroken, Work, Absorb, Pending, NextFrame, Frames, Leftover, NoReturns, LineEnd, Start, OK, NameIn,
         Sound, Authenticated, AfterLine, Total, Taken, After, Before, Core, Listening, Up, FirstAnswer;
    HelloSerialFits(plan);
    StartListens(script, acks, plan, reachable, authLine);
    var s := Start(NewConn(script, acks, plan), reachable, authLine);
    if reachable && Taken(acks, 0) && Taken(acks, 1) {
      assert Available(s) == Pending(script);
      SettleAbsorbs(s, n);
      NothingToAbsorb(Settle(s, n));
      AfterAfter(acks, 2, 0);
      AfterAfter(acks, 2, HelloSerial(plan));
      NothingBefore();
      AbsorbUp(Core(s), Pending(script), Breaks(s), name);
      CoreUp(Settle(s, n), name);
    } else {
      SettleStopped(s, n);
      assert !Up(s, name) by { ErrorIsNotUp(s, name); }
    }
  }

  lemma CoreUp(c: Conn, name: bytes)
    ensures Up(Core(c), name) <==> Up(c, name)
  {
  }

  lemma ErrorIsNotUp(c: Conn, name: bytes)
    requires c.state == Error
    ensures !Up(c, name)
  {
  }

  /** The same for a connection that is about to read the line, on undivided input. */
  lemma AbsorbUp(c: Conn, all: bytes, breaks: bool, name: bytes)
    requires Listening(c) && c.line == [] && 1 + Before(c.plan) < TWO_32
    ensures var line, h := LineEnd(all), 1 + Before(c.plan);
      Up(Absorb(c, all, breaks), name) <==>
      Taken(c.acks, 0) && Taken(c.acks, h) && !breaks && line < |all| && OK <= NoReturns(all[..line])
      && FirstAnswer(Frames(all[line + 1..]), h).Some?
      && NameIn(FirstAnswer(Frames(all[line + 1..]), h).value, name)
      && NextFrame(Leftover(all[line + 1..])).NeedMore?
  {
    hide Absorb, NextFrame, Frames, Leftover, NoReturns, LineEnd, OK, NameIn, Unfinished, Authenticated, AfterLine,
         Total, Taken, Before, FirstAnswer;
    AbsorbLine(c, all, breaks);
    if LineEnd(all) < |all| {
      LineJudged(c, all);
      assert [] + all[..LineEnd(all)] == all[..LineEnd(all)];
      var d := Authenticated(AfterLine(c, all));
      if d.state == Error {
        AbsorbFailed(d, all[LineEnd(all) + 1..], breaks);
      } else {
        AbsorbAsked(d, 1 + Before(c.plan), all[LineEnd(all) + 1..], breaks, name);
      }
    }
  }

  lemma NothingBefore()
    ensures Before([]) == 0
  {
  }

  lemma AbsorbFailed(c: Conn, s: bytes, breaks: bool)
    requires Sound(c) && c.reading == FRESH && c.state == Error
    ensures Absorb(c, s, breaks) == c
  {
  }

  // ----------------------------------------------------------- in terms of messages

  /** The first message sent that answers serial `s`. */
  function FirstReply(ps: seq<Packet>, s: u32): Option<Message> {
    if ps == [] then None
    else
      var m := ps[0].message;
      if (m.kind == METHOD_RETURN || m.kind == ERROR) && m.header.replySerial == Some(s) then Some(m)
      else FirstReply(ps[1..], s)
  }

  /** A return whose body begins with the string `name`. */
  predicate Names(m: Message, name: bytes) {
    m.kind == METHOD_RETURN && GetString(m.body, 0, LITTLE).Got? && GetString(m.body, 0, LITTLE).value == name
  }

  /** A string is the same string in the frame and in its body alone. */
  lemma StringInBody(data: bytes, pos: nat)
    requires pos <= |data| && pos % 8 == 0
    ensures GetString(data, pos, LITTLE).Got? <==> GetString(data[pos..], 0, LITTLE).Got?
    ensures GetString(data, pos, LITTLE).Got? ==>
              GetString(data, pos, LITTLE).value == GetString(data[pos..], 0, LITTLE).value
  {
    hide FromWire, GetTerminated, Pad;
    NoPadding(pos);
    NoPadding(0);
    var body := data[pos..];
    if |body| >= 4 {
      assert body[0..4] == data[pos..pos + 4];
      var len := FromWire(data[pos..pos + 4], LITTLE);
      TextInBody(data, pos, len, (len + 1) % TWO_32);
    }
  }

  lemma NoPadding(pos: nat)
    requires pos % 8 == 0
    ensures Pad(pos, 4) == 0
  {
    PadShift(0, pos / 8, 4);
  }

  lemma TextInBody(data: bytes, pos: nat, len: nat, need: nat)
    requires pos + 4 <= |data|
    ensures var whole, part := GetTerminated(data, pos + 4, len, need), GetTerminated(data[pos..], 4, len, need);
      (whole.Got? <==> part.Got?) && (whole.Got? ==> whole.value == part.value)
  {
    if pos + 4 + len <= |data| {
      assert data[pos..][4..4 + len] == data[pos + 4..pos + 4 + len];
    }
  }

  lemma NamesInFrame(f: Received, name: bytes)
    requires f.pos <= |f.data| && f.pos % 8 == 0
    ensures NameIn(f, name) <==> Names(RecordOf(f), name)
  {
    hide GetString;
    StringInBody(f.data, f.pos);
  }

  /** The first answer among the frames is the first answer among the messages. */
  lemma {:induction false} SameFirst(frames: seq<Received>, ps: seq<Packet>, s: u32)
    requires |frames| == |ps|
    requires forall i | 0 <= i < |ps| ::
      frames[i].pos <= |frames[i].data| && RecordOf(frames[i]) == ps[i].message && frames[i].pos % 8 == 0
    ensures match FirstAnswer(frames, s)
      case None => FirstReply(ps, s).None?
      case Some(f) => f.pos <= |f.data| && f.pos % 8 == 0 && FirstReply(ps, s) == Some(RecordOf(f))
    decreases ps
  {
    if ps != [] {
      assert RecordOf(frames[0]) == ps[0].message;
      forall i | 0 <= i < |ps[1..]|
        ensures RecordOf(frames[1..][i]) == ps[1..][i].message
      {
        assert frames[1..][i] == frames[i + 1] && ps[1..][i] == ps[i + 1];
      }
      SameFirst(frames[1..], ps[1..], s);
    }
  }

  /**
   * From the bus to the connection: whatever little-endian messages either
   * codec sends behind the line, and however the network cuts them, the
   * connection comes up under `name`, and stays up, if and only if the socket
   * does not break, the line begins with OK and the first message that
   * answers Hello is a return whose body begins with the string `name`.
   */
  lemma MessagesBringItUp(script: Script, acks: seq<bool>, plan: seq<seq<Outgoing>>, reachable: bool,
                          authLine: bytes, line: bytes, ps: seq<Packet>, name: bytes, n: nat)
    requires Total(plan) < TWO_32 - 1 && n > Work(script)
    requires NEWLINE !in line && LittlePackets(ps) && Pending(script) == line + [NEWLINE] + Stream(ps)
    ensures Sound(NewConn(script, acks, plan)) && HelloSerial(plan) < TWO_32
    ensures Up(Settle(Start(NewConn(script, acks, plan), reachable, authLine), n), name) <==>
            reachable && HandshakeWrites(acks, plan) && Unbroken(script) && OK <= NoReturns(line)
            && FirstReply(ps, HelloSerial(plan)).Some? && Names(FirstReply(ps, HelloSerial(plan)).value, name)
  {
    hide Settle, Unbroken, Work, Pending, NextFrame, Frames, Leftover, NoReturns, LineEnd, Start, OK, NameIn, Names,
         LittlePackets, Stream, RecordOf, HelloSerial, Total, HandshakeWrites, Up;
    var all := Pending(script);
    ComesUp(script, acks, plan, reachable, authLine, name, n);
    LineEndIs(line, Stream(ps));
    assert all[..|line|] == line && all[|line| + 1..] == Stream(ps);
    StreamFrames(ps);
    ShortNeedsMore([]);
    SameFirst(Frames(Stream(ps)), ps, HelloSerial(plan));
    if FirstAnswer(Frames(Stream(ps)), HelloSerial(plan)).Some? {
      NamesInFrame(FirstAnswer(Frames(Stream(ps)), HelloSerial(plan)).value, name);
    }
  }

  lemma {:induction false} OkIsKept(line: bytes)
    requires OK <= line
    ensures OK <= NoReturns(line)
    decreases |line|
  {
    if |line| > |OK| {
      OkIsKept(line[..|line| - 1]);
    } else {
      assert line == [79, 75] && line[..1] == [79] && line[..0] == [];
      assert NoReturns([79]) == NoReturns([79][..0]) + [79];
      assert NoReturns(line[..1]) == [79];
    }
  }

  /** What the bus does in practice: an OK line and a return to Hello with the name bring the connection up. */
  lemma BusGivesName(script: Script, acks: seq<bool>, plan: seq<seq<Outgoing>>, authLine: bytes,
                     line: bytes, p: Packet, name: bytes, n: nat)
    requires Total(plan) < TWO_32 - 1 && HandshakeWrites(acks, plan) && Unbroken(script) && n > Work(script)
    requires NEWLINE !in line && OK <= line && LittlePackets([p])
    requires Pending(script) == line + [NEWLINE] + Serialize(p.message, p.writer)
    requires p.message.kind == METHOD_RETURN && p.message.header.replySerial == Some(HelloSerial(plan))
    requires |name| < TWO_32 && PutString(name, 0, LITTLE) <= p.message.body
    ensures Sound(NewConn(script, acks, plan)) && HelloSerial(plan) < TWO_32
    ensures Up(Settle(Start(NewConn(script, acks, plan), true, authLine), n), name)
  {
    hide Settle, Unbroken, Work, Pending, NoReturns, Start, OK, LittlePackets, HelloSerial, Total, HandshakeWrites, Up,
         Serialize, PutString, GetString;
    OkIsKept(line);
    StringRoundTrip(p.message.body, 0, name, LITTLE);
    assert Stream([p]) == Serialize(p.message, p.writer);
    MessagesBringItUp(script, acks, plan, true, authLine, line, [p], name, n);
  }
}
