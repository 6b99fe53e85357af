/**
 * When the user's handlers run and what they send: once for each state
 * entered and once for each reply finished, apart from the reply to Hello,
 * whose Finished runs the connection's own handler.  Their messages go out in
 * the order in which they send them.
 */
module Handlers {
  import opened Basics
  import opened ByteOrder
  import opened Values
  import opened Messages
  import opened Sockets
  import opened Framing
  import opened ConnectionModel
  import opened ConnectionProofs
  import opened ConnectionRuns
  import opened Welcome

  // ----------------------------------------------------------------- what handlers send

  /** The messages of a log. */
  function MessagesIn(log: seq<ConnectionModel.Sent>): seq<Outgoing> {
    seq(|log|, i requires 0 <= i < |log| => log[i].message)
  }

  /** Those of `ms` whose write succeeds. */
  function Through(ms: seq<Outgoing>, acks: seq<bool>): seq<Outgoing> {
    if ms == [] then []
    else (if Taken(acks, 0) then [ms[0]] else []) + Through(ms[1..], After(acks, 1))
  }

  lemma {:induction false} AllThrough(ms: seq<Outgoing>, acks: seq<bool>)
    requires forall i | 0 <= i < |acks| :: acks[i]
    ensures Through(ms, acks) == ms
    decreases ms
  {
    if ms != [] {
      AllThrough(ms[1..], After(acks, 1));
    }
  }

  lemma OneLogged(log: seq<ConnectionModel.Sent>, s: ConnectionModel.Sent)
    ensures MessagesIn(log + [s]) == MessagesIn(log) + [s.message]
  {
  }

  /** Sends in a row: every one is tried, in order, and those whose write succeeds are in the log. */
  lemma {:induction false} SendAllLogs(c: Conn, ms: seq<Outgoing>)
    requires Sound(c) && !c.halted && Open(c.state) && |c.replies| + |ms| <= TWO_32
    ensures var d := SendAll(c, ms);
      !d.halted && d.state == c.state && d.acks == After(c.acks, |ms|) && d.attempts == c.attempts + |ms|
      && |d.replies| <= |c.replies| + |ms|
      && MessagesIn(d.log) == MessagesIn(c.log) + Through(ms, c.acks)
    decreases ms
  {
    hide Sound, Send, Taken, After, MessagesIn;
    if ms == [] {
      AfterAfter(c.acks, 0, 0);
      NothingAfter(c.acks);
      assert MessagesIn(c.log) + [] == MessagesIn(c.log);
    } else {
      var d := Send(c, ms[0]).0;
      SendLogs(c, ms[0]);
      SendAllLogs(d, ms[1..]);
      AfterAfter(c.acks, 1, |ms[1..]|);
      assert MessagesIn(c.log) + (if Taken(c.acks, 0) then [ms[0]] else []) + Through(ms[1..], After(c.acks, 1))
          == MessagesIn(c.log) + Through(ms, c.acks);
    }
  }

  lemma NothingAfter(acks: seq<bool>)
    ensures After(acks, 0) == acks
  {
  }

  lemma SendLogs(c: Conn, m: Outgoing)
    requires Sound(c) && !c.halted && Open(c.state) && |c.replies| < TWO_32
    ensures var d := Send(c, m).0;
      !d.halted && d.state == c.state && d.acks == After(c.acks, 1) && d.attempts == c.attempts + 1
      && |d.replies| <= |c.replies| + 1
      && MessagesIn(d.log) == MessagesIn(c.log) + if Taken(c.acks, 0) then [m] else []
  {
    hide Sound, Send, FirstFree, Wire, Taken, After, MessagesIn;
    SendTakes(c, m);
    SendAcks(c, m);
    var (d, id) := Send(c, m);
    if id.Some? {
      var serial := FirstFree(c.replies.Keys, c.nextSerial, 0);
      OneLogged(c.log, ConnectionModel.Sent(serial, m));
      assert d.replies.Keys == c.replies.Keys + {serial};
    } else {
      assert MessagesIn(c.log) + [] == MessagesIn(c.log);
    }
  }

  // ------------------------------------------------------------------- whose turn it is

  /** What is left of a plan after `k` turns. */
  function Rest(plan: seq<seq<Outgoing>>, k: nat): seq<seq<Outgoing>> {
    if k <= |plan| then plan[k..] else []
  }

  lemma RestRest(plan: seq<seq<Outgoing>>, j: nat, k: nat)
    ensures Rest(Rest(plan, j), k) == Rest(plan, j + k)
  {
  }

  /** What the handlers send whose turn is next. */
  function NextTurn(plan: seq<seq<Outgoing>>): seq<Outgoing> {
    if plan == [] then [] else plan[0]
  }

  lemma {:induction false} SendAllPlan(c: Conn, ms: seq<Outgoing>)
    requires Sound(c)
    ensures SendAll(c, ms).plan == c.plan
    decreases ms
  {
    hide Sound, Send;
    if ms != [] {
      SendPlan(c, ms[0]);
      SendAllPlan(Send(c, ms[0]).0, ms[1..]);
    }
  }

  lemma SendPlan(c: Conn, m: Outgoing)
    requires Sound(c)
    ensures Send(c, m).0.plan == c.plan
  {
    hide Sound, Send, FirstFree, Wire;
    if c.halted || !Open(c.state) || |c.replies| >= TWO_32 { SendRefused(c, m); } else { SendTakes(c, m); }
  }

  /** One turn of the handlers. */
  lemma ReactTakesTurn(c: Conn)
    requires Sound(c) && !c.halted
    ensures React(c).plan == Rest(c.plan, 1)
    ensures Open(c.state) && |c.replies| + |NextTurn(c.plan)| <= TWO_32 ==>
              var d := React(c);
              !d.halted && d.state == c.state && d.acks == After(c.acks, |NextTurn(c.plan)|)
              && |d.replies| <= |c.replies| + |NextTurn(c.plan)|
              && MessagesIn(d.log) == MessagesIn(c.log) + Through(NextTurn(c.plan), c.acks)
  {
    hide Unfinished, SendAll, MessagesIn;
    if c.plan != [] {
      var turn := c.(plan := c.plan[1..]);
      SendAllPlan(turn, c.plan[0]);
      if Open(c.state) && |c.replies| + |c.plan[0]| <= TWO_32 { SendAllLogs(turn, c.plan[0]); }
    } else {
      assert MessagesIn(c.log) + [] == MessagesIn(c.log);
      NothingAfter(c.acks);
    }
  }

  lemma UpdateTakesTurn(c: Conn, s: State)
    requires !c.halted && c.state != s && Sound(c.(state := s))
    ensures var d := UpdateState(c, s);
      d.plan == Rest(c.plan, 1)
    ensures var d := UpdateState(c, s);
      Open(s) && |c.replies| + |NextTurn(c.plan)| <= TWO_32 ==>
        !d.halted && d.state == s && d.acks == After(c.acks, |NextTurn(c.plan)|)
        && |d.replies| <= |c.replies| + |NextTurn(c.plan)|
        && MessagesIn(d.log) == MessagesIn(c.log) + Through(NextTurn(c.plan), c.acks)
  {
    hide Sound, React, MessagesIn;
    ReactTakesTurn(c.(state := s));
  }

  /** What sends leave alone. */
  ghost predicate Leaves(c: Conn, d: Conn) {
    d.state == c.state && d.finished == c.finished && d.frames == c.frames && d.began == c.began && d.hello == c.hello
    && c.written <= d.written && c.results <= d.results
  }

  lemma SendLeaves(c: Conn, m: Outgoing)
    requires Sound(c)
    ensures Leaves(c, Send(c, m).0)
  {
    hide Sound, Send, FirstFree, Wire;
    if c.halted || !Open(c.state) || |c.replies| >= TWO_32 { SendRefused(c, m); } else { SendTakes(c, m); }
  }

  lemma {:induction false} SendAllLeaves(c: Conn, ms: seq<Outgoing>)
    requires Sound(c)
    ensures Leaves(c, SendAll(c, ms))
    decreases ms
  {
    hide Sound, Send;
    if ms != [] {
      SendLeaves(c, ms[0]);
      SendAllLeaves(Send(c, ms[0]).0, ms[1..]);
    }
  }

  lemma ReactLeaves(c: Conn)
    requires Sound(c)
    ensures Leaves(c, React(c))
  {
    hide Unfinished, SendAll;
    if !c.halted && c.plan != [] { SendAllLeaves(c.(plan := c.plan[1..]), c.plan[0]); }
  }

  lemma UpdateLeaves(c: Conn, s: State)
    requires !c.halted && c.state != s && Sound(c.(state := s))
    ensures Leaves(c.(state := s), UpdateState(c, s))
  {
    hide Sound, React;
    ReactLeaves(c.(state := s));
  }

  /** GettingName: its handlers send first, then Hello is sent. */
  lemma HelloComesAfter(c: Conn)
    requires Sound(c) && !c.halted && c.state == Auth && |c.replies| + |NextTurn(c.plan)| < TWO_32
    ensures MessagesIn(DoGetName(c).log)
         == MessagesIn(c.log) + Through(NextTurn(c.plan), c.acks)
            + if Taken(c.acks, |NextTurn(c.plan)|) then [HELLO] else []
  {
    hide Sound, UpdateState, Send, HELLO, MessagesIn, After, Taken;
    assert Sound(c.(state := GettingName)) by { SoundState(c); }
    UpdateTakesTurn(c, GettingName);
    var u := UpdateState(c, GettingName);
    SendLogs(u, HELLO);
    AfterAfter(c.acks, |NextTurn(c.plan)|, 0);
    var v := Send(u, HELLO).0;
    SoundState(v);
    UpdateIdle(v, Error);
  }

  // ------------------------------------------------------------------------ completions

  /**
   * A frame that completes a reply other than Hello's: the handlers of that
   * reply have their turn - the next list of the plan is used up - and, with
   * serials enough, every message of that list is tried, in that order, and
   * logged if its write succeeds.  The reply holds the frame as it came in,
   * with its cursor on the body.
   */
  lemma FinishedRuns(c: Conn, authLine: bytes, m: Received, s: u32)
    requires Arrived(c, authLine, m) && Answers(m, s) && s in c.replies && c.hello != Some(c.replies[s])
    ensures c.replies[s] < |c.results|
    ensures var d := HandleBusMsg(c, m);
      d.plan == Rest(c.plan, 1) && d.state == c.state
      && |c.results| <= |d.results| && d.results[c.replies[s]] == Some(m)
      && d.results[..|c.results|] == c.results[c.replies[s] := Some(m)]
    ensures var d := HandleBusMsg(c, m);
      |c.replies| + |NextTurn(c.plan)| <= TWO_32 ==>
        !d.halted && d.state == c.state && d.acks == After(c.acks, |NextTurn(c.plan)|)
        && MessagesIn(d.log) == MessagesIn(c.log) + Through(NextTurn(c.plan), c.acks)
  {
    hide Inv, History, Unfinished, React, MessagesIn;
    var id := c.replies[s];
    assert c.results[id].None? by { CompletionKeeps(c, authLine, m, s); }
    var busy := c.(results := c.results[id := Some(m)], finished := c.finished + [Completion(id, |c.frames| - 1)]);
    ReactTakesTurn(busy);
    ReactLeaves(busy);
  }

  /** The string at the start of a return. */
  predicate Welcomes(f: Received) {
    f.fixed.kind == METHOD_RETURN && f.pos <= |f.data| && GetString(f.data, f.pos, LITTLE).Got?
  }

  /**
   * The frame that answers Hello runs no handler of the user for the reply;
   * one of them has its turn for the state that is entered, Connected or
   * Error.  The reply holds the frame with its cursor behind the name.  Only
   * a name that overruns the buffer ends the program before.
   */
  lemma HelloRuns(c: Conn, authLine: bytes, m: Received, s: u32)
    requires Arrived(c, authLine, m) && Answers(m, s) && s in c.replies && c.hello == Some(c.replies[s])
    ensures c.state == GettingName
    ensures c.replies[s] < |c.results|
    ensures var d := HandleBusMsg(c, m);
      if Welcomes(m) then
        d.state == Connected && d.plan == Rest(c.plan, 1)
        && |c.results| <= |d.results|
        && d.results[c.replies[s]] == Some(m.(pos := GetString(m.data, m.pos, LITTLE).pos))
        && (|c.replies| + |NextTurn(c.plan)| <= TWO_32 ==>
              !d.halted && MessagesIn(d.log) == MessagesIn(c.log) + Through(NextTurn(c.plan), c.acks))
      else if m.fixed.kind == METHOD_RETURN && GetString(m.data, m.pos, LITTLE).Overrun? then
        d.halted && d.state == c.state && d.plan == c.plan
      else d.state == Error && !d.halted && d.plan == Rest(c.plan, 1)
  {
    hide Table, History, Serials, Output, Login, Unfinished, HandleName, MessagesIn, NameIn;
    var id := c.replies[s];
    CompletionKeeps(c, authLine, m, s);
    NotYetNamed(c, authLine, m, s);
    AnswersIsReply(m, s);
    NameTurn(c.(results := c.results[id := Some(m)], finished := c.finished + [Completion(id, |c.frames| - 1)]), id, m);
  }

  /** While the entry of Hello is there, the connection has no name. */
  lemma NotYetNamed(c: Conn, authLine: bytes, m: Received, s: u32)
    requires Arrived(c, authLine, m) && s in c.replies && c.hello == Some(c.replies[s])
    ensures c.state == GettingName
    ensures forall k | 0 <= k < |c.finished| :: c.finished[k].reply != c.replies[s]
  {
    hide Serials, Output, Login, Unfinished, NameIn, Answers, SameMessage;
    assert c.results[c.replies[s]].None?;
  }

  lemma NameTurn(c: Conn, id: nat, m: Received)
    requires Sound(c) && !c.halted && c.state == GettingName && id < |c.results| && c.results[id] == Some(m)
    requires IsReply(m) && m.pos <= |m.data|
    ensures var d := HandleName(c, id, m);
      if Welcomes(m) then
        d.state == Connected && d.plan == Rest(c.plan, 1)
        && |c.results| <= |d.results| && d.results[id] == Some(m.(pos := GetString(m.data, m.pos, LITTLE).pos))
        && (|c.replies| + |NextTurn(c.plan)| <= TWO_32 ==>
              !d.halted && MessagesIn(d.log) == MessagesIn(c.log) + Through(NextTurn(c.plan), c.acks))
      else if m.fixed.kind == METHOD_RETURN && GetString(m.data, m.pos, LITTLE).Overrun? then
        d.halted && d.state == c.state && d.plan == c.plan
      else d.state == Error && !d.halted && d.plan == Rest(c.plan, 1)
  {
    hide Unfinished, UpdateState, GetString, MessagesIn;
    StringCursor(m.data, m.pos, LITTLE);
    if m.fixed.kind == ERROR {
      UpdateIdle(c, Error);
    } else {
      match GetString(m.data, m.pos, LITTLE)
      case Got(name, p) =>
        var a := AdvanceResult(c.(serviceName := name), id, p);
        UpdateTakesTurn(a, Connected);
        UpdateLeaves(a, Connected);
      case Miss(p) => UpdateIdle(AdvanceResult(c, id, p), Error);
      case Overrun =>
    }
  }

  // ------------------------------------------------------------------------- whole lives

  /** Completions of replies other than Hello's. */
  function Others(finished: seq<Completion>, hello: Option<nat>): nat {
    if finished == [] then 0
    else Others(finished[..|finished| - 1], hello) + if hello == Some(finished[|finished| - 1].reply) then 0 else 1
  }

  /** Hello was answered by a return with a name. */
  ghost predicate HelloNamed(c: Conn) {
    exists k | 0 <= k < |c.finished| :: NamedBy(c, k)
  }

  predicate NamedBy(c: Conn, k: nat)
    requires k < |c.finished|
  {
    c.hello == Some(c.finished[k].reply) && c.finished[k].frame < |c.frames| && Welcomes(c.frames[c.finished[k].frame])
  }

  /**
   * The states a connection has entered, told by what each leaves behind:
   * Auth the NUL, GettingName BEGIN, Connected the name, Error itself.
   */
  ghost function Entered(c: Conn): nat {
    (if c.written != [] then 1 else 0) + (if c.began then 1 else 0) + (if HelloNamed(c) then 1 else 0)
    + if c.state == Error then 1 else 0
  }

  /** The plan has been used up from the front, one list for each turn. */
  ghost predicate OnTurn(c: Conn, given: seq<seq<Outgoing>>) {
    c.plan == Rest(given, Entered(c) + Others(c.finished, c.hello))
  }

  lemma OneMoreTurn(c: Conn, d: Conn, given: seq<seq<Outgoing>>)
    requires OnTurn(c, given) && d.plan == Rest(c.plan, 1)
    requires Entered(d) + Others(d.finished, d.hello) == Entered(c) + Others(c.finished, c.hello) + 1
    ensures OnTurn(d, given)
  {
    hide Entered, Rest;
    RestRest(given, Entered(c) + Others(c.finished, c.hello), 1);
  }

  /** What is not counted may change. */
  lemma SameTurn(c: Conn, d: Conn, given: seq<seq<Outgoing>>)
    requires OnTurn(c, given) && d.plan == c.plan && d.finished == c.finished && d.hello == c.hello
    requires (d.written == [] <==> c.written == []) && d.began == c.began
    requires d.frames == c.frames && (d.state == Error <==> c.state == Error)
    ensures OnTurn(d, given)
  {
    SameNames(c, d);
  }

  lemma SameNames(c: Conn, d: Conn)
    requires d.finished == c.finished && d.hello == c.hello && d.frames == c.frames
    ensures HelloNamed(d) <==> HelloNamed(c)
  {
    if HelloNamed(c) {
      var k :| 0 <= k < |c.finished| && NamedBy(c, k);
      assert NamedBy(d, k);
    }
    if HelloNamed(d) {
      var k :| 0 <= k < |d.finished| && NamedBy(d, k);
      assert NamedBy(c, k);
    }
  }

  /** A frame that nobody has looked at yet names nobody. */
  lemma FrameNamesNobody(c: Conn, d: Conn, m: Received)
    requires History(c.results, c.log, c.frames, c.finished)
    requires d.finished == c.finished && d.hello == c.hello && d.frames == c.frames + [m]
    ensures HelloNamed(d) <==> HelloNamed(c)
  {
    hide Answers, SameMessage, Welcomes;
    if HelloNamed(c) {
      var k :| 0 <= k < |c.finished| && NamedBy(c, k);
      assert NamedBy(d, k);
    }
    if HelloNamed(d) {
      var k :| 0 <= k < |d.finished| && NamedBy(d, k);
      assert NamedBy(c, k);
    }
  }

  /** One completion more. */
  lemma CompletionNames(c: Conn, d: Conn, id: nat)
    requires c.frames != [] && d.hello == c.hello && d.frames == c.frames
    requires d.finished == c.finished + [Completion(id, |c.frames| - 1)]
    ensures HelloNamed(d) <==> HelloNamed(c) || (c.hello == Some(id) && Welcomes(c.frames[|c.frames| - 1]))
    ensures Others(d.finished, d.hello) == Others(c.finished, c.hello) + if c.hello == Some(id) then 0 else 1
  {
    hide Welcomes;
    assert d.finished[..|c.finished|] == c.finished;
    if HelloNamed(c) {
      var k :| 0 <= k < |c.finished| && NamedBy(c, k);
      assert NamedBy(d, k);
    }
    if HelloNamed(d) {
      var k :| 0 <= k < |d.finished| && NamedBy(d, k);
      if k < |c.finished| { assert NamedBy(c, k); }
    }
    if c.hello == Some(id) && Welcomes(c.frames[|c.frames| - 1]) {
      assert NamedBy(d, |c.finished|);
    }
  }

  lemma SendOnTurn(c: Conn, m: Outgoing, given: seq<seq<Outgoing>>)
    requires Sound(c) && OnTurn(c, given) && (Open(c.state) ==> c.written != [])
    ensures OnTurn(Send(c, m).0, given)
  {
    hide Sound, Send, FirstFree, Wire, OnTurn;
    if c.halted || !Open(c.state) || |c.replies| >= TWO_32 { SendRefused(c, m); } else { SendTakes(c, m); }
    SameTurn(c, Send(c, m).0, given);
  }

  /** A frame is handled. */
  lemma HandleOnTurn(c: Conn, authLine: bytes, m: Received, given: seq<seq<Outgoing>>)
    requires Arrived(c, authLine, m) && OnTurn(c, given) && c.written != []
    ensures OnTurn(HandleBusMsg(c, m), given)
  {
    hide Inv, History, Unfinished, HandleBusMsg, Rest, MessagesIn, Welcomes, HelloNamed, Others;
    HandleKeeps(c, authLine, m);
    var d := HandleBusMsg(c, m);
    if s :| s in c.replies && Answers(m, s) {
      CompletionNames(c, d, c.replies[s]);
      if c.hello != Some(c.replies[s]) {
        FinishedRuns(c, authLine, m, s);
        OneMoreTurn(c, d, given);
      } else {
        HelloRuns(c, authLine, m, s);
        NotNamedYet(c, authLine, m, s);
        if d.state == Error || d.state == Connected { OneMoreTurn(c, d, given); }
      }
    }
  }

  lemma NotNamedYet(c: Conn, authLine: bytes, m: Received, s: u32)
    requires Arrived(c, authLine, m) && s in c.replies && c.hello == Some(c.replies[s])
    ensures !HelloNamed(c)
  {
    hide Inv, History, Unfinished, Welcomes;
    NotYetNamed(c, authLine, m, s);
  }

  // ------------------------------------------------------------------------ every step

  lemma ReadOnTurn(c: Conn, authLine: bytes, all: bytes, given: seq<seq<Outgoing>>)
    requires Steady(c, authLine, all) && !c.halted && Open(c.state) && OnTurn(c, given)
    ensures OnTurn(ReadData(c), given)
  {
    hide Inv, Input, InProgress, NextFrame, Pending, Work, HandleBusMsg, ReadFd, UpdateState, Unbroken, OnTurn;
    OpenWrites(c, authLine);
    ReadFdTells(c.reading, c.script);
    FreshIsUnfinished();
    var (res, reading, script) := ReadFd(c.reading, c.script);
    match res
    case Success =>
      var m := Received(reading.fixed, reading.header, reading.data, reading.pos);
      var c1 := c.(script := script, reading := FRESH, frames := c.frames + [m]);
      FrameArrives(c, authLine, m, c1);
      FrameOnTurn(c, c1, authLine, m, given);
      HandleOnTurn(c1, authLine, m, given);
    case Failure =>
      ErrorOnTurn(c, c.(script := script, reading := reading), given);
    case WouldBlock =>
      SameTurn(c, c.(script := script, reading := reading), given);
    case Crash =>
      SameTurn(c, Halt(c.(script := script)), given);
  }

  lemma OpenWrites(c: Conn, authLine: bytes)
    requires Inv(c, authLine, None) && Open(c.state)
    ensures c.written != [] && c.began
  {
    hide Table, History, Serials, Greeting;
  }

  lemma FrameOnTurn(c: Conn, d: Conn, authLine: bytes, m: Received, given: seq<seq<Outgoing>>)
    requires Inv(c, authLine, None) && OnTurn(c, given)
    requires d == c.(script := d.script, reading := d.reading, frames := c.frames + [m])
    ensures OnTurn(d, given)
  {
    hide Table, Serials, Output, Login, Greeting, HelloNamed, Rest;
    FrameNamesNobody(c, d, m);
  }

  /** A turn is taken for Error. */
  lemma ErrorOnTurn(c: Conn, d: Conn, given: seq<seq<Outgoing>>)
    requires OnTurn(c, given) && c.state != Error && !c.halted
    requires d == c.(script := d.script, reading := d.reading, acks := d.acks) && Sound(d.(state := Error))
    ensures OnTurn(UpdateState(d, Error), given)
  {
    hide Unfinished, UpdateState, OnTurn, Rest;
    UpdateIdle(d, Error);
    var e := Turn(d.(state := Error));
    assert e.plan == Rest(c.plan, 1) by { TurnIsRest(d.(state := Error)); }
    SameNames(c, e);
    OneMoreTurn(c, e, given);
  }

  lemma TurnIsRest(c: Conn)
    requires !c.halted
    ensures Turn(c).plan == Rest(c.plan, 1)
  {
  }

  /** A connection at the line: nothing but the NUL has been left behind. */
  ghost predicate AtLine(c: Conn, given: seq<seq<Outgoing>>) {
    Sound(c) && c.state == Auth && !c.halted && !c.began && c.frames == [] && c.finished == [] && c.written != []
    && OnTurn(c, given)
  }

  lemma AtLineStays(c: Conn, d: Conn, given: seq<seq<Outgoing>>)
    requires AtLine(c, given)
    requires d == c.(script := d.script, line := d.line, authData := d.authData)
    ensures AtLine(d, given)
  {
    hide Unfinished, OnTurn;
    SameTurn(c, d, given);
  }

  lemma {:induction false} DoAuthOnTurn(c: Conn, given: seq<seq<Outgoing>>)
    requires AtLine(c, given)
    ensures OnTurn(DoAuth(c), given)
    decreases Work(c.script)
  {
    hide Unfinished, UpdateState, Authenticated, ReadOnce, Work, Unbroken, OnTurn, Sound, Pending;
    ReadOnceTakes(c.script, 1);
    var (r, rest) := ReadOnce(c.script, 1);
    match r
    case WouldBlock =>
      AtLineStays(c, c.(script := rest), given);
    case Fault =>
      SoundState(c);
      assert Sound(c.(script := rest).(state := Error)) by { SoundScriptState(c, rest); }
      ErrorOnTurn(c, c.(script := rest), given);
    case Bytes(b) =>
      assert b == [b[0]];
      var next := AuthByte(c, b[0], rest);
      AtLineStays(c, next, given);
      if b[0] != NEWLINE { DoAuthOnTurn(next, given); } else { AuthenticatedOnTurn(next, given); }
  }

  lemma SoundScriptState(c: Conn, script: Script)
    requires Sound(c) && c.state == Auth
    ensures Sound(c.(script := script).(state := Error))
  {
    hide Unfinished;
  }

  lemma AuthenticatedOnTurn(c: Conn, given: seq<seq<Outgoing>>)
    requires AtLine(c, given)
    ensures OnTurn(Authenticated(c), given)
  {
    hide Unfinished, UpdateState, OnTurn, OK, DoGetName;
    var (c1, ok) := Write(c, BEGIN);
    if OK <= c.authData && ok {
      GetNameOnTurn(c, c1.(began := true), given);
    } else if OK <= c.authData {
      ErrorOnTurn(c, c1, given);
    } else {
      ErrorOnTurn(c, c, given);
    }
  }

  /** BEGIN is out: a turn for GettingName, and perhaps one for Error. */
  lemma GetNameOnTurn(c: Conn, d: Conn, given: seq<seq<Outgoing>>)
    requires AtLine(c, given) && Sound(d)
    requires d == c.(acks := d.acks, written := c.written + [BEGIN], began := true)
    ensures OnTurn(DoGetName(d), given)
  {
    hide Sound, UpdateState, OnTurn, Rest, Send, HELLO, BEGIN;
    assert Sound(d.(state := GettingName)) by { SoundState(d); }
    UpdateTakesTurn(d, GettingName);
    UpdateLeaves(d, GettingName);
    var u := UpdateState(d, GettingName);
    NobodyNamed(c);
    NobodyNamed(u);
    OneMoreTurn(c, u, given);
    var (v, id) := Send(u, HELLO);
    SendOnTurn(u, HELLO, given);
    SendLeaves(u, HELLO);
    if id.None? {
      if v.halted {
        HaltedStays(v, Error);
      } else {
        SoundState(v);
        ErrorOnTurn(v, v, given);
      }
    } else {
      HelloOnTurn(v, id, given);
    }
  }

  lemma HaltedStays(c: Conn, s: State)
    requires Sound(c) && c.halted
    ensures UpdateState(c, s) == c
  {
    hide Sound;
  }

  lemma NobodyNamed(c: Conn)
    requires c.finished == []
    ensures !HelloNamed(c) && Others(c.finished, c.hello) == 0
  {
  }

  lemma HelloOnTurn(c: Conn, id: Option<nat>, given: seq<seq<Outgoing>>)
    requires OnTurn(c, given) && c.finished == []
    ensures OnTurn(c.(hello := id), given)
  {
    NobodyNamed(c);
    NobodyNamed(c.(hello := id));
  }

  lemma StartOnTurn(script: Script, acks: seq<bool>, given: seq<seq<Outgoing>>, reachable: bool, authLine: bytes)
    ensures Sound(NewConn(script, acks, given))
    ensures OnTurn(Start(NewConn(script, acks, given), reachable, authLine), given)
  {
    hide Unfinished, UpdateState, Write, OnTurn;
    NewIsSound(script, acks, given);
    var c := NewConn(script, acks, given);
    assert OnTurn(c, given) by { NewOnTurn(script, acks, given); }
    ErrorOnTurn(c, c, given);
    WriteTakes(c, NUL);
    WriteAdds(c, NUL);
    var (c1, ok1) := Write(c, NUL);
    if reachable && !ok1 {
      ErrorOnTurn(c, c1, given);
    } else if reachable {
      UpdateIdle(c1, Auth);
      var u := UpdateState(c1, Auth);
      AuthOnTurn(c, c1, given);
      WriteTakes(u, authLine);
      WriteAdds(u, authLine);
      var (c2, ok2) := Write(u, authLine);
      SameTurn(u, c2, given);
      if !ok2 { ErrorOnTurn(c2, c2, given); }
    }
  }

  lemma NewOnTurn(script: Script, acks: seq<bool>, given: seq<seq<Outgoing>>)
    ensures OnTurn(NewConn(script, acks, given), given)
  {
    NobodyNamed(NewConn(script, acks, given));
  }

  lemma WriteAdds(c: Conn, data: bytes)
    ensures var (d, ok) := Write(c, data); d.written == if ok then c.written + [data] else c.written
  {
  }

  /** The NUL is out: a turn for Auth. */
  lemma AuthOnTurn(c: Conn, d: Conn, given: seq<seq<Outgoing>>)
    requires OnTurn(c, given) && !c.halted && c.state == Connecting && c.written == [] && c.finished == [] && !c.began
    requires d == c.(acks := d.acks, written := [NUL])
    ensures OnTurn(Turn(d.(state := Auth)), given)
  {
    hide Rest;
    var e := Turn(d.(state := Auth));
    TurnIsRest(d.(state := Auth));
    NobodyNamed(c);
    NobodyNamed(e);
    OneMoreTurn(c, e, given);
  }

  lemma ActOnTurn(c: Conn, a: Action, authLine: bytes, all: bytes, given: seq<seq<Outgoing>>)
    requires Steady(c, authLine, all) && OnTurn(c, given)
    ensures OnTurn(Act(c, a), given)
  {
    hide Inv, Input, Unfinished, Send, DoAuth, OnTurn, ReadFd, HandleBusMsg;
    match a
    case UserSend(m) =>
      if !c.halted && Open(c.state) { OpenWrites(c, authLine); }
      if c.halted { SendRefused(c, m); } else { SendOnTurn(c, m, given); }
    case Readable =>
      if !c.halted {
        if c.state == Auth {
          LineIsFirst(c, authLine, all);
          DoAuthOnTurn(c, given);
        } else if Open(c.state) {
          ReadOnTurn(c, authLine, all, given);
        }
      }
  }

  lemma LineIsFirst(c: Conn, authLine: bytes, all: bytes)
    requires Steady(c, authLine, all) && !c.halted && c.state == Auth
    ensures !c.began && c.frames == [] && c.finished == [] && c.written != []
  {
    hide Table, History, Serials, Output, Login, Greeting, Input, Unfinished;
    CompletionsHaveFrames(c);
  }

  lemma CompletionsHaveFrames(c: Conn)
    requires History(c.results, c.log, c.frames, c.finished)
    ensures |c.finished| > 0 ==> c.finished[0].frame < |c.frames|
  {
    hide Answers, SameMessage;
  }

  lemma {:induction false} RunOnTurn(c: Conn, actions: seq<Action>, authLine: bytes, all: bytes,
                                     given: seq<seq<Outgoing>>)
    requires Steady(c, authLine, all) && OnTurn(c, given)
    ensures OnTurn(Run(c, actions), given)
    decreases actions
  {
    hide Inv, Input, Waiting, Unfinished, Act, OnTurn;
    if actions != [] {
      ActKeeps(c, actions[0], authLine, all);
      ActOnTurn(c, actions[0], authLine, all, given);
      RunOnTurn(Act(c, actions[0]), actions[1..], authLine, all, given);
    }
  }

  /**
   * In every life: of the lists the handlers were given, one is used up for
   * each state entered and one for each reply finished other than Hello's,
   * in this order, as long as there are any.
   */
  lemma TurnsOfLife(script: Script, acks: seq<bool>, given: seq<seq<Outgoing>>, reachable: bool, authLine: bytes,
                    actions: seq<Action>)
    ensures var c := Life(script, acks, given, reachable, authLine, actions);
      var turns := Entered(c) + Others(c.finished, c.hello);
      c.plan == if turns <= |given| then given[turns..] else []
  {
    hide Steady, Run, Start, Sound, Entered, Others;
    NewIsSound(script, acks, given);
    StartKeeps(script, acks, given, reachable, authLine);
    StartOnTurn(script, acks, given, reachable, authLine);
    RunOnTurn(Start(NewConn(script, acks, given), reachable, authLine), actions, authLine, Pending(script), given);
  }
}
