/** What every step of the connection keeps, whatever the user, the socket and the bus do. */
module ConnectionProofs {
  import opened Basics
  import opened ByteOrder
  import opened Values
  import opened Messages
  import opened Framing
  import opened ConnectionModel

  // ----------------------------------------------------------------- invariants

  /**
   * The reply table: every entry leads to the reply object that was created
   * for its serial; a reply object has an entry exactly while it has no
   * result.  `busy` is the reply being completed: it has its result and,
   * until its handlers have run, still its entry.
   */
  ghost predicate Table(replies: map<u32, nat>, results: seq<Option<Received>>, log: seq<Sent>, busy: Option<nat>) {
    && |log| == |results|
    && (busy.Some? ==> busy.value < |results| && results[busy.value].Some?)
    && (forall s | s in replies ::
          replies[s] < |log| && log[replies[s]].serial == s
          && (results[replies[s]].None? || busy == Some(replies[s])))
    && (forall i | 0 <= i < |results| ::
          results[i].None? || busy == Some(i) ==> log[i].serial in replies && replies[log[i].serial] == i)
  }

  /** The same message, apart from how far its body has been read. */
  predicate SameMessage(a: Received, b: Received) { a == b.(pos := a.pos) }

  /** Frame `f` answers serial `s`. */
  predicate Answers(f: Received, s: u32) {
    IsReply(f) && f.header.replySerial == Some(s)
  }

  /** Completions: each reply object at most once, with the frame that answers it, in the order of the frames. */
  ghost predicate History(results: seq<Option<Received>>, log: seq<Sent>, frames: seq<Received>,
                          finished: seq<Completion>) {
    && |log| == |results|
    && (forall k | 0 <= k < |finished| ::
          finished[k].reply < |results| && finished[k].frame < |frames|
          && results[finished[k].reply].Some?
          && SameMessage(results[finished[k].reply].value, frames[finished[k].frame])
          && Answers(frames[finished[k].frame], log[finished[k].reply].serial))
    && (forall j, k | 0 <= j < k < |finished| ::
          finished[j].reply != finished[k].reply && finished[j].frame < finished[k].frame)
    && (forall i | 0 <= i < |results| :: results[i].Some? ==> exists k | 0 <= k < |finished| :: finished[k].reply == i)
  }

  /** Before the serial counter wraps: serials are handed out as 1, 2, 3, ... and written in that order. */
  ghost predicate Serials(log: seq<Sent>, attempts: nat, nextSerial: u32) {
    attempts < TWO_32 ==>
      && nextSerial == (attempts + 1) % TWO_32
      && (forall i | 0 <= i < |log| :: 1 <= log[i].serial <= attempts)
      && (forall i, j | 0 <= i < j < |log| :: log[i].serial < log[j].serial)
  }

  function Wires(log: seq<Sent>): seq<bytes> {
    seq(|log|, i requires 0 <= i < |log| => Wire(log[i]))
  }

  /** What has gone out: the handshake, then whole messages. */
  ghost predicate Output(written: seq<bytes>, log: seq<Sent>, began: bool, authLine: bytes) {
    if began then written == [NUL, authLine, BEGIN] + Wires(log)
    else log == [] && written <= [NUL, authLine]
  }

  function NoReturns(s: bytes): bytes {
    if s == [] then []
    else NoReturns(s[..|s| - 1]) + (if s[|s| - 1] == RETURN then [] else [s[|s| - 1]])
  }

  /** The line has been read to its end. */
  predicate LineDone(line: bytes) {
    line != [] && line[|line| - 1] == NEWLINE
  }

  /** What has come of the line, without its newline. */
  function Front(line: bytes): bytes {
    if LineDone(line) then line[..|line| - 1] else line
  }

  /** The authentication line as received, and what was kept of it, in every state. */
  ghost predicate Login(state: State, line: bytes, authData: bytes, began: bool) {
    && NEWLINE !in Front(line) && authData == NoReturns(Front(line))
    && if began then LineDone(line) && OK <= authData
       else !Open(state) && (state != Error ==> !LineDone(line))
  }

  /** The frame that completed reply `id` is not an error and its first string is `name`. */
  ghost predicate Named(id: nat, frames: seq<Received>, finished: seq<Completion>, name: bytes) {
    exists k | 0 <= k < |finished| ::
      finished[k].reply == id && finished[k].frame < |frames| && NameIn(frames[finished[k].frame], name)
  }

  predicate NameIn(f: Received, name: bytes) {
    f.fixed.kind == METHOD_RETURN && f.pos <= |f.data|
    && GetString(f.data, f.pos, LITTLE).Got? && GetString(f.data, f.pos, LITTLE).value == name
  }

  /** Hello: its reply object, and what it took to be connected. */
  ghost predicate Greeting(state: State, hello: Option<nat>, log: seq<Sent>, frames: seq<Received>,
                           finished: seq<Completion>, name: bytes) {
    && (hello.Some? ==> hello.value < |log| && log[hello.value].message == HELLO)
    && (state == Connected ==> hello.Some? && Named(hello.value, frames, finished, name))
  }

  ghost predicate Inv(c: Conn, authLine: bytes, busy: Option<nat>) {
    && Table(c.replies, c.results, c.log, busy)
    && History(c.results, c.log, c.frames, c.finished)
    && Serials(c.log, c.attempts, c.nextSerial)
    && Output(c.written, c.log, c.began, authLine)
    && Login(c.state, c.line, c.authData, c.began)
    && Greeting(c.state, c.hello, c.log, c.frames, c.finished, c.serviceName)
  }

  /** All that user handlers can change: more is sent, nothing that was there is touched. */
  ghost predicate Later(c: Conn, d: Conn) {
    && d.state == c.state && d.authData == c.authData && d.serviceName == c.serviceName && d.hello == c.hello
    && d.script == c.script && d.frames == c.frames && d.finished == c.finished && d.line == c.line
    && d.began == c.began && (!d.halted ==> d.reading == c.reading && !c.halted)
    && c.log <= d.log && c.results <= d.results && c.written <= d.written && c.attempts <= d.attempts
    && (forall s | s in c.replies :: s in d.replies && d.replies[s] == c.replies[s])
  }

  // ----------------------------------------------------------------------- send

  lemma TableSend(replies: map<u32, nat>, results: seq<Option<Received>>, log: seq<Sent>, busy: Option<nat>, sent: Sent)
    requires Table(replies, results, log, busy) && sent.serial !in replies
    ensures Table(replies[sent.serial := |results|], results + [None], log + [sent], busy)
  {
  }

  lemma HistorySend(results: seq<Option<Received>>, log: seq<Sent>, frames: seq<Received>,
                    finished: seq<Completion>, sent: Sent)
    requires History(results, log, frames, finished)
    ensures History(results + [None], log + [sent], frames, finished)
  {
    hide SameMessage, Answers;
  }

  lemma OutputSend(written: seq<bytes>, log: seq<Sent>, authLine: bytes, sent: Sent)
    requires Output(written, log, true, authLine)
    ensures Output(written + [Wire(sent)], log + [sent], true, authLine)
  {
    hide Wire;
    assert Wires(log + [sent]) == Wires(log) + [Wire(sent)];
  }

  lemma GreetingSend(state: State, hello: Option<nat>, log: seq<Sent>, frames: seq<Received>,
                     finished: seq<Completion>, name: bytes, sent: Sent)
    requires Greeting(state, hello, log, frames, finished, name)
    ensures Greeting(state, hello, log + [sent], frames, finished, name)
  {
    hide Named;
  }

  /** The serials already in the table are below the next one, so the search stops at once. */
  lemma NextIsFree(c: Conn, authLine: bytes, busy: Option<nat>)
    requires Inv(c, authLine, busy) && c.attempts < TWO_32 - 1
    ensures c.nextSerial == c.attempts + 1 && c.nextSerial !in c.replies
  {
    hide History, Output, Login, Greeting;
  }

  lemma FirstIsNext(taken: set<u32>, n: u32)
    requires |taken| < TWO_32 && n !in taken
    ensures FirstFree(taken, n, 0) == n
  {
    assert Step(n, 0) == n;
  }

  lemma SerialsSend(log: seq<Sent>, attempts: nat, nextSerial: u32, sent: Sent)
    requires Serials(log, attempts, nextSerial)
    requires attempts < TWO_32 - 1 ==> sent.serial == attempts + 1
    ensures Serials(log, attempts + 1, Succ(sent.serial))
    ensures Serials(log + [sent], attempts + 1, Succ(sent.serial))
  {
  }

  /** A send that is let through: the serial is used up, and if the write succeeds the request waits under it. */
  lemma SendTakes(c: Conn, m: Outgoing)
    requires Sound(c) && !c.halted && Open(c.state) && |c.replies| < TWO_32
    ensures var (d, id) := Send(c, m);
      var sent := Sent(FirstFree(c.replies.Keys, c.nextSerial, 0), m);
      var tried := c.(nextSerial := Succ(sent.serial), attempts := c.attempts + 1, acks := d.acks);
      if id.None? then d == tried
      else
        id.value == |c.results|
        && d == tried.(replies := c.replies[sent.serial := id.value], results := c.results + [None],
                       log := c.log + [sent], written := c.written + [Wire(sent)])
  {
    hide Sound, Wire, FirstFree;
  }

  lemma SendRefused(c: Conn, m: Outgoing)
    requires Sound(c) && (c.halted || !Open(c.state) || |c.replies| >= TWO_32)
    ensures Send(c, m) == (if c.halted || !Open(c.state) then c else Halt(c), None)
  {
    hide Sound;
  }

  lemma SendKeeps(c: Conn, m: Outgoing, authLine: bytes, busy: Option<nat>)
    requires Sound(c) && Inv(c, authLine, busy)
    ensures var d := Send(c, m).0; Inv(d, authLine, busy) && Later(c, d)
    ensures var (d, id) := Send(c, m);
      id.Some? ==> id.value < |d.log| && d.log[id.value].message == m && !d.halted && Open(d.state)
  {
    hide Table, History, Serials, Output, Greeting, Wire, Sound, Send, FirstFree;
    if !c.halted && Open(c.state) && |c.replies| < TWO_32 {
      assert c.began;
      var serial := FirstFree(c.replies.Keys, c.nextSerial, 0);
      var sent := Sent(serial, m);
      assert serial !in c.replies.Keys;
      SendTakes(c, m);
      if c.attempts < TWO_32 - 1 {
        NextIsFree(c, authLine, busy);
        FirstIsNext(c.replies.Keys, c.nextSerial);
      }
      SerialsSend(c.log, c.attempts, c.nextSerial, sent);
      TableSend(c.replies, c.results, c.log, busy, sent);
      HistorySend(c.results, c.log, c.frames, c.finished, sent);
      OutputSend(c.written, c.log, authLine, sent);
      GreetingSend(c.state, c.hello, c.log, c.frames, c.finished, c.serviceName, sent);
      assert |c.log| == |c.results| by { TableSizes(c.replies, c.results, c.log, busy); }
    } else {
      SendRefused(c, m);
    }
  }

  lemma TableSizes(replies: map<u32, nat>, results: seq<Option<Received>>, log: seq<Sent>, busy: Option<nat>)
    requires Table(replies, results, log, busy)
    ensures |log| == |results|
  {
  }

  lemma LaterTrans(a: Conn, b: Conn, c: Conn)
    requires Later(a, b) && Later(b, c)
    ensures Later(a, c)
  {
  }

  lemma {:induction false} SendAllKeeps(c: Conn, ms: seq<Outgoing>, authLine: bytes, busy: Option<nat>)
    requires Sound(c) && Inv(c, authLine, busy)
    ensures var d := SendAll(c, ms); Inv(d, authLine, busy) && Later(c, d)
    decreases ms
  {
    hide Inv, Sound, Send, Later;
    if ms == [] {
      LaterRefl(c);
    } else {
      var d := Send(c, ms[0]).0;
      SendKeeps(c, ms[0], authLine, busy);
      SendAllKeeps(d, ms[1..], authLine, busy);
      LaterTrans(c, d, SendAll(d, ms[1..]));
    }
  }

  lemma LaterRefl(c: Conn)
    ensures Later(c, c)
  {
  }

  lemma ReactKeeps(c: Conn, authLine: bytes, busy: Option<nat>)
    requires Sound(c) && Inv(c, authLine, busy)
    ensures var d := React(c); Inv(d, authLine, busy) && Later(c, d)
  {
    hide Table, History, Serials, Output, Login, Greeting, SendAll, Unfinished;
    if !c.halted && c.plan != [] {
      SendAllKeeps(c.(plan := c.plan[1..]), c.plan[0], authLine, busy);
    }
  }

  // -------------------------------------------------------------- state changes

  function Rank(s: State): nat {
    match s
    case Connecting => 0
    case Auth => 1
    case GettingName => 2
    case Connected => 3
    case Error => 4
  }

  /** Handlers that run while nothing may be sent only use up their turn. */
  lemma {:induction false} SendAllIdle(c: Conn, ms: seq<Outgoing>)
    requires Sound(c) && !Open(c.state)
    ensures SendAll(c, ms) == c
    decreases ms
  {
    hide Sound;
    if ms != [] { SendAllIdle(c, ms[1..]); }
  }

  function Turn(c: Conn): Conn {
    if c.halted || c.plan == [] then c else c.(plan := c.plan[1..])
  }

  lemma UpdateIdle(c: Conn, s: State)
    requires (if c.halted || c.state == s then Sound(c) else Sound(c.(state := s))) && !Open(s)
    ensures UpdateState(c, s) == if c.halted || c.state == s then c else Turn(c.(state := s))
  {
    hide SendAll, Unfinished;
    if !c.halted && c.state != s && c.plan != [] {
      SendAllIdle(c.(state := s, plan := c.plan[1..]), c.plan[0]);
    }
  }

  lemma UpdateKeeps(c: Conn, s: State, authLine: bytes, busy: Option<nat>)
    requires Sound(c.(state := s)) && !c.halted && c.state != s
    requires Inv(c.(state := s), authLine, busy)
    ensures var d := UpdateState(c, s); Inv(d, authLine, busy) && Later(c.(state := s), d)
  {
    hide Inv, Sound, React, Later;
    ReactKeeps(c.(state := s), authLine, busy);
  }

  // ------------------------------------------------------------------ completion

  lemma TableBusy(replies: map<u32, nat>, results: seq<Option<Received>>, log: seq<Sent>, s: u32, m: Received)
    requires Table(replies, results, log, None) && s in replies
    ensures results[replies[s]].None? && log[replies[s]].serial == s
    ensures Table(replies, results[replies[s] := Some(m)], log, Some(replies[s]))
  {
  }

  lemma TableAdvance(replies: map<u32, nat>, results: seq<Option<Received>>, log: seq<Sent>, id: nat, m: Received)
    requires Table(replies, results, log, Some(id))
    ensures Table(replies, results[id := Some(m)], log, Some(id))
  {
  }

  lemma TableErase(replies: map<u32, nat>, results: seq<Option<Received>>, log: seq<Sent>, id: nat)
    requires Table(replies, results, log, Some(id))
    ensures Table(replies - {log[id].serial}, results, log, None)
  {
  }

  lemma HistoryComplete(results: seq<Option<Received>>, log: seq<Sent>, frames: seq<Received>,
                        finished: seq<Completion>, id: nat)
    requires frames != [] && History(results, log, frames[..|frames| - 1], finished)
    requires id < |results| && results[id].None? && Answers(frames[|frames| - 1], log[id].serial)
    ensures History(results[id := Some(frames[|frames| - 1])], log, frames,
                    finished + [Completion(id, |frames| - 1)])
  {
    hide Answers, SameMessage;
    var last := Completion(id, |frames| - 1);
    var results', finished' := results[id := Some(frames[|frames| - 1])], finished + [last];
    assert SameMessage(frames[|frames| - 1], frames[|frames| - 1]) by { SameRefl(frames[|frames| - 1]); }
    forall i | 0 <= i < |results'| && results'[i].Some?
      ensures exists k | 0 <= k < |finished'| :: finished'[k].reply == i
    {
      if i == id {
        assert finished'[|finished|].reply == i;
      } else {
        var k :| 0 <= k < |finished| && finished[k].reply == i;
        assert finished'[k].reply == i;
      }
    }
  }

  lemma SameRefl(m: Received)
    ensures SameMessage(m, m)
  {
  }

  lemma HistoryFrame(results: seq<Option<Received>>, log: seq<Sent>, frames: seq<Received>,
                     finished: seq<Completion>, m: Received)
    requires History(results, log, frames, finished)
    ensures History(results, log, frames + [m], finished)
  {
    hide Answers, SameMessage;
  }

  lemma HistoryAdvance(results: seq<Option<Received>>, log: seq<Sent>, frames: seq<Received>,
                       finished: seq<Completion>, id: nat, p: nat)
    requires History(results, log, frames, finished) && id < |results| && results[id].Some?
    ensures History(results[id := Some(results[id].value.(pos := p))], log, frames, finished)
  {
    hide Answers;
  }

  lemma GreetingGrows(state: State, hello: Option<nat>, log: seq<Sent>, frames: seq<Received>,
                      finished: seq<Completion>, name: bytes, more: seq<Received>, done: seq<Completion>)
    requires Greeting(state, hello, log, frames, finished, name)
    ensures Greeting(state, hello, log, frames + more, finished + done, name)
  {
    hide NameIn;
    if state == Connected {
      var k :| 0 <= k < |finished| && finished[k].reply == hello.value && finished[k].frame < |frames|
        && NameIn(frames[finished[k].frame], name);
      assert (finished + done)[k] == finished[k] && (frames + more)[finished[k].frame] == frames[finished[k].frame];
    }
  }

  /** The invariant in another state: Connected takes the name, an open state a finished handshake. */
  lemma InvState(c: Conn, s: State, authLine: bytes, busy: Option<nat>)
    requires Inv(c, authLine, busy)
    requires s == Error || (c.began && s == GettingName)
      || (c.began && s == Connected && c.hello.Some? && Named(c.hello.value, c.frames, c.finished, c.serviceName))
    ensures Inv(c.(state := s), authLine, busy)
  {
    hide Table, History, Serials, Output, Named;
  }

  lemma AdvanceKeeps(c: Conn, id: nat, p: nat, authLine: bytes)
    requires Sound(c) && Inv(c, authLine, Some(id)) && id < |c.results| && c.results[id].Some?
    requires p <= |c.results[id].value.data|
    ensures Inv(AdvanceResult(c, id, p), authLine, Some(id))
  {
    hide Table, History, Serials, Output, Login, Greeting;
    TableAdvance(c.replies, c.results, c.log, id, c.results[id].value.(pos := p));
    HistoryAdvance(c.results, c.log, c.frames, c.finished, id, p);
  }

  lemma InvName(c: Conn, name: bytes, authLine: bytes, busy: Option<nat>)
    requires Inv(c, authLine, busy) && c.state != Connected
    ensures Inv(c.(serviceName := name), authLine, busy)
  {
    hide Table, History, Serials, Output, Login, Named;
  }

  /** The connection's own handler for the reply to Hello. */
  lemma HandleNameKeeps(c: Conn, id: nat, authLine: bytes)
    requires Sound(c) && Inv(c, authLine, Some(id)) && c.state == GettingName && c.hello == Some(id)
    requires id < |c.results| && c.frames != [] && c.results[id] == Some(c.frames[|c.frames| - 1])
    requires c.finished != [] && c.finished[|c.finished| - 1] == Completion(id, |c.frames| - 1)
    requires IsReply(c.frames[|c.frames| - 1]) && !c.halted
    ensures var d := HandleName(c, id, c.results[id].value);
      Inv(d, authLine, Some(id)) && Rank(c.state) <= Rank(d.state) && Kept(c, d)
  {
    hide Inv, UpdateState, GetString, Unfinished, Named, Sound, NameIn;
    var m := c.results[id].value;
    SoundState(c);
    assert c.began by { OpenBegan(c, authLine, Some(id)); }
    StringCursor(m.data, m.pos, LITTLE);
    if m.fixed.kind == ERROR {
      InvState(c, Error, authLine, Some(id));
      UpdateKeeps(c, Error, authLine, Some(id));
    } else {
      match GetString(m.data, m.pos, LITTLE)
      case Got(name, p) =>
        var named := c.(serviceName := name);
        InvName(c, name, authLine, Some(id));
        SoundState(named);
        AdvanceKeeps(named, id, p, authLine);
        var d := AdvanceResult(named, id, p);
        SoundState(d);
        LastIsNamed(c, id, name, p);
        InvState(d, Connected, authLine, Some(id));
        UpdateKeeps(d, Connected, authLine, Some(id));
      case Miss(p) =>
        AdvanceKeeps(c, id, p, authLine);
        var d := AdvanceResult(c, id, p);
        SoundState(d);
        InvState(d, Error, authLine, Some(id));
        UpdateKeeps(d, Error, authLine, Some(id));
      case Overrun =>
        InvHalt(c, authLine, Some(id));
    }
  }

  lemma LastIsNamed(c: Conn, id: nat, name: bytes, p: nat)
    requires Sound(c) && id < |c.results| && c.frames != [] && c.results[id] == Some(c.frames[|c.frames| - 1])
    requires c.finished != [] && c.finished[|c.finished| - 1] == Completion(id, |c.frames| - 1)
    requires IsReply(c.frames[|c.frames| - 1]) && c.results[id].value.fixed.kind != ERROR
    requires c.results[id].value.pos <= |c.results[id].value.data|
    requires GetString(c.results[id].value.data, c.results[id].value.pos, LITTLE) == Got(name, p)
    ensures Named(id, c.frames, c.finished, name)
  {
    hide GetString;
    assert NameIn(c.frames[c.finished[|c.finished| - 1].frame], name);
  }

  lemma SoundState(c: Conn)
    requires Sound(c) && c.state != Error
    ensures forall s :: Sound(c.(state := s))
    ensures forall name :: Sound(c.(serviceName := name))
    ensures forall i | 0 <= i < |c.results| ::
      c.results[i].Some? ==> c.results[i].value.pos <= |c.results[i].value.data|
  {
    hide Unfinished;
  }

  lemma OpenBegan(c: Conn, authLine: bytes, busy: Option<nat>)
    requires Inv(c, authLine, busy) && Open(c.state)
    ensures c.began
  {
  }

  lemma InvHalt(c: Conn, authLine: bytes, busy: Option<nat>)
    requires Inv(c, authLine, busy)
    ensures Inv(Halt(c), authLine, busy)
  {
    hide Table, History, Serials, Output, Login, Greeting;
  }

  /** What a completion leaves alone besides the reply it completes. */
  ghost predicate Kept(c: Conn, d: Conn) {
    && d.script == c.script && d.frames == c.frames && d.line == c.line && d.began == c.began
    && d.hello == c.hello && d.finished == c.finished && (!d.halted ==> d.reading == c.reading)
    && c.log <= d.log && c.written <= d.written && c.attempts <= d.attempts
    && (forall s | s in c.replies :: s in d.replies && d.replies[s] == c.replies[s])
  }
}
