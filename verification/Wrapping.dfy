/**
 * Where the serial counter comes round: lives in which a message gets serial
 * 0, in which the search for a free serial has no end, and in which the
 * serial of an answered request is used again.
 */
module Wrapping {
  import opened Basics
  import opened ByteOrder
  import opened Values
  import opened Fields
  import opened Messages
  import opened Interop
  import opened Sockets
  import opened Framing
  import opened Delivery
  import opened ConnectionModel
  import opened ConnectionProofs
  import opened ConnectionTheorems
  import opened Settling
  import opened Welcome

  // ------------------------------------------------------------------ sends in a row

  function Sends(m: Outgoing, k: nat): seq<Action> {
    seq(k, _ => UserSend(m))
  }

  /** Writes succeed, and the table holds `n` - `first` serials, from `first` up to, but without, the next one, `n`. */
  predicate Row(c: Conn, first: nat, n: nat) {
    Sound(c) && !c.halted && Open(c.state) && (forall i | 0 <= i < |c.acks| :: c.acks[i])
    && 1 <= first <= n <= TWO_32 && c.nextSerial == n % TWO_32
    && |c.replies| == n - first && (forall s | s in c.replies :: first <= s < n)
  }

  lemma SendGetsThrough(c: Conn, m: Outgoing)
    requires Sound(c) && !c.halted && Open(c.state) && (forall i | 0 <= i < |c.acks| :: c.acks[i])
    requires |c.replies| < TWO_32
    ensures var d, serial := Send(c, m).0, FirstFree(c.replies.Keys, c.nextSerial, 0);
      Sound(d) && !d.halted && d.state == c.state && (forall i | 0 <= i < |d.acks| :: d.acks[i])
      && d.nextSerial == Succ(serial) && d.replies == c.replies[serial := |c.results|] && |d.replies| == |c.replies| + 1
      && d.log == c.log + [Sent(serial, m)] && d.finished == c.finished
  {
    hide Sound, Send, Wire, FirstFree;
    var serial := FirstFree(c.replies.Keys, c.nextSerial, 0);
    SendTakes(c, m);
    SendAcks(c, m);
    assert c.replies[serial := |c.results|].Keys == c.replies.Keys + {serial};
  }

  lemma RowGrows(c: Conn, m: Outgoing, first: nat, n: nat)
    requires Row(c, first, n) && n < TWO_32
    ensures var d := Send(c, m).0; Row(d, first, n + 1) && d.log == c.log + [Sent(n, m)] && d.finished == c.finished
  {
    hide Sound, Send, FirstFree;
    assert n !in c.replies;
    FirstIsNext(c.replies.Keys, n);
    SendGetsThrough(c, m);
  }

  lemma {:induction false} RowOfSends(c: Conn, m: Outgoing, first: nat, n: nat, k: nat)
    requires Row(c, first, n) && n + k <= TWO_32
    ensures var d := Run(c, Sends(m, k)); Row(d, first, n + k) && c.log <= d.log && d.finished == c.finished
    decreases k
  {
    hide Sound, Send;
    if k == 0 {
      assert Sends(m, 0) == [];
    } else {
      RowGrows(c, m, first, n);
      assert Sends(m, k)[1..] == Sends(m, k - 1);
      RowOfSends(Send(c, m).0, m, first, n + 1, k - 1);
    }
  }

  // ------------------------------------------------------------- how the lives begin

  function Readables(n: nat): seq<Action> {
    seq(n, _ => Readable)
  }

  lemma {:induction false} SettleIsRun(c: Conn, n: nat)
    requires Sound(c)
    ensures Settle(c, n) == Run(c, Readables(n))
    decreases n
  {
    hide Sound, ReadData;
    if n == 0 {
      assert Readables(0) == [];
    } else {
      assert Readables(n)[1..] == Readables(n - 1);
      SettleIsRun(ReadData(c), n - 1);
    }
  }

  /** No handler sends anything, and nothing has been sent or answered. */
  predicate Untouched(c: Conn) {
    c.plan == [] && c.acks == [] && c.log == [] && c.finished == []
  }

  /** Only Hello was sent, under serial 1. */
  predicate HelloOut(c: Conn) {
    Row(c, 1, 2) && c.plan == [] && c.state == GettingName && c.reading == FRESH && c.hello == Some(0)
    && c.replies == map[1 := 0] && c.results == [None] && c.log == [Sent(1, HELLO)] && c.finished == []
  }

  /** Hello was answered, and nothing else was sent. */
  predicate HelloDone(c: Conn) {
    Row(c, 2, 2) && c.reading == FRESH && c.log == [Sent(1, HELLO)] && |c.finished| == 1 && c.finished[0].reply == 0
  }

  lemma StartUntouched(script: Script, authLine: bytes)
    ensures Able(NewConn(script, [], []), 1) && Sound(NewConn(script, [], []))
    ensures Untouched(Core(Start(NewConn(script, [], []), true, authLine)))
  {
    hide Unfinished;
    NewIsSound(script, [], []);
  }

  lemma HelloFollows(c: Conn, s: bytes)
    requires Listening(c) && Untouched(c) && LineEnd(s) < |s| && OK <= NoReturns(c.line + s[..LineEnd(s)])
    ensures HelloOut(Authenticated(AfterLine(c, s)))
  {
    hide Unfinished, NoReturns, Wire, OK, LineEnd, HELLO, FirstFree;
    hide DoGetName;
    var a := AfterLine(c, s);
    HelloSent(Write(a, BEGIN).0.(began := true));
  }

  lemma HelloSent(c: Conn)
    requires Sound(c) && !c.halted && c.state == Auth && c.reading == FRESH && c.plan == [] && c.acks == []
    requires c.replies == map[] && c.results == [] && c.nextSerial == 1 && c.log == [] && c.finished == []
    ensures HelloOut(DoGetName(c))
  {
    hide Unfinished, Wire, HELLO, FirstFree;
    var u := c.(state := GettingName);
    assert Sound(u) by { SoundState(c); }
    assert UpdateState(c, GettingName) == u;
    FirstIsNext(u.replies.Keys, 1);
    SendGetsThrough(u, HELLO);
  }

  /** The name is taken; no handler runs. */
  lemma NameKept(c: Conn, f: Received, name: bytes)
    requires Sound(c) && !c.halted && c.plan == [] && c.state == GettingName && c.results == [Some(f)]
    requires f.pos <= |f.data| && NameIn(f, name)
    ensures var d := HandleName(c, 0, f);
      d == c.(state := Connected, serviceName := d.serviceName, results := d.results)
  {
    hide Unfinished, GetString;
    StringCursor(f.data, f.pos, LITTLE);
  }

  lemma HelloAnswered(c: Conn, f: Received, name: bytes)
    requires HelloOut(c) && c.frames != [] && f.pos <= |f.data| && Answers(f, 1) && NameIn(f, name)
    ensures HelloDone(HandleBusMsg(c, f))
  {
    hide Unfinished, HandleName, HELLO, NameIn;
    var c1 := c.(results := [Some(f)], finished := [Completion(0, |c.frames| - 1)]);
    assert c.results[0 := Some(f)] == [Some(f)] && c.finished + c1.finished == c1.finished;
    NameKept(c1, f, name);
    assert map[1 := 0] - {1} == map[];
  }

  // --------------------------------------------------------------------- serial zero

  /** A connection that has sent Hello alone goes on sending: the message after serial 2^32 - 1 gets 0. */
  lemma ZeroAfterSends(c: Conn, m: Outgoing)
    requires Row(c, 1, 2)
    ensures var d := Run(c, Sends(m, TWO_32 - 1));
      d.log != [] && d.log[|d.log| - 1].serial == 0 && !d.halted
      && Run(c, Sends(m, TWO_32)).halted
  {
    hide Sound, Send, FirstFree, HELLO;
    RowOfSends(c, m, 1, 2, TWO_32 - 2);
    var full := Run(c, Sends(m, TWO_32 - 2));
    OneMore(c, m, TWO_32 - 2);
    OneMore(c, m, TWO_32 - 1);
    FirstIsNext(full.replies.Keys, 0);
    SendGetsThrough(full, m);
    NoneFree(Send(full, m).0, m);
  }

  lemma OneMore(c: Conn, m: Outgoing, k: nat)
    requires Sound(c)
    ensures Run(c, Sends(m, k + 1)) == Send(Run(c, Sends(m, k)), m).0
  {
    hide Sound, Send;
    assert Sends(m, k + 1) == Sends(m, k) + [UserSend(m)];
    RunAppend(c, Sends(m, k), [UserSend(m)]);
    var d := Run(c, Sends(m, k));
    assert Run(d, [UserSend(m)]) == Act(d, UserSend(m)) by {
      assert [UserSend(m)][1..] == [];
    }
  }

  /** With every serial taken the search has no end. */
  lemma NoneFree(c: Conn, m: Outgoing)
    requires Sound(c) && !c.halted && Open(c.state) && |c.replies| >= TWO_32
    ensures Send(c, m).0.halted
  {
    hide Sound;
  }

  /** What reading a line that begins with OK, and what follows it, makes of a new connection. */
  lemma LineLeads(script: Script, authLine: bytes, line: bytes, rest: bytes, n: nat) returns (d: Conn)
    requires NEWLINE !in line && OK <= NoReturns(line) && Unbroken(script) && n > Work(script)
    requires Pending(script) == line + [NEWLINE] + rest
    ensures HelloOut(d) && Sound(NewConn(script, [], []))
    ensures Core(Settle(Start(NewConn(script, [], []), true, authLine), n)) == Absorb(d, rest, false)
  {
    hide Settle, Unbroken, Work, Absorb, Pending, NextFrame, NoReturns, LineEnd, Start, OK, Unfinished, Authenticated,
         AfterLine, Total, HelloOut, Able;
    var all := Pending(script);
    StartUntouched(script, authLine);
    StartListens(script, [], [], true, authLine);
    var c := Start(NewConn(script, [], []), true, authLine);
    assert Available(c) == all;
    SettleAbsorbs(c, n);
    NothingToAbsorb(Settle(c, n));
    LineEndIs(line, rest);
    assert all[..|line|] == line && all[|line| + 1..] == rest && [] + all[..|line|] == line;
    AbsorbLine(Core(c), all, false);
    HelloFollows(Core(c), all);
    d := Authenticated(AfterLine(Core(c), all));
  }

  lemma LifeIsSettled(script: Script, authLine: bytes, n: nat, more: seq<Action>)
    ensures Sound(NewConn(script, [], []))
    ensures Life(script, [], [], true, authLine, Readables(n) + more)
         == Run(Settle(Start(NewConn(script, [], []), true, authLine), n), more)
  {
    hide Run, Settle, Start, Sound;
    NewIsSound(script, [], []);
    SettleIsRun(Start(NewConn(script, [], []), true, authLine), n);
    RunAppend(Start(NewConn(script, [], []), true, authLine), Readables(n), more);
  }

  /** What sends do does not depend on the input. */
  lemma CoreRow(c: Conn, first: nat, n: nat)
    requires Sound(c) && Row(Core(c), first, n)
    ensures Row(c, first, n)
  {
    hide Sound;
  }

  /**
   * Lives in which the counter comes round, one for each line that is
   * accepted and each message: once the line is read and Hello is out,
   * 2^32 - 1 further sends are enough for a message with serial 0; and with
   * none of them answered, the next send searches for a free serial forever.
   */
  lemma ZeroLife(script: Script, authLine: bytes, line: bytes, m: Outgoing, n: nat)
    requires NEWLINE !in line && OK <= NoReturns(line) && Unbroken(script) && n > Work(script)
    requires Pending(script) == line + [NEWLINE]
    ensures var c := Life(script, [], [], true, authLine, Readables(n) + Sends(m, TWO_32 - 1));
      c.log != [] && c.log[|c.log| - 1].serial == 0 && !c.halted
    ensures Life(script, [], [], true, authLine, Readables(n) + Sends(m, TWO_32)).halted
  {
    hide Settle, Unbroken, Work, Pending, NoReturns, Start, OK, Life, Run, Row, Sound, HELLO;
    assert Pending(script) == line + [NEWLINE] + [];
    var d := LineLeads(script, authLine, line, [], n);
    ShortNeedsMore([]);
    var c := Settle(Start(NewConn(script, [], []), true, authLine), n);
    LifeIsSettled(script, authLine, n, Sends(m, TWO_32 - 1));
    LifeIsSettled(script, authLine, n, Sends(m, TWO_32));
    assert Row(Core(c), 1, 2) by { HelloRow(d); }
    CoreRow(c, 1, 2);
    ZeroAfterSends(c, m);
  }

  lemma HelloRow(d: Conn)
    requires HelloOut(d)
    ensures Row(d, 1, 2) && d.state == GettingName && d.reading == FRESH
  {
    hide Sound;
  }

  // ------------------------------------------------------------ a serial used again

  /** The last message got serial 1, which is in the table although a request that had it was answered. */
  ghost predicate BackToOne(c: Conn) {
    !c.halted && c.log != [] && c.log[|c.log| - 1].serial == 1
    && 1 in c.replies && 1 in AnsweredSerials(c) && !Partitioned(c)
  }

  /** A connection whose one request was answered goes on sending, and comes back to the serial of that request. */
  lemma ReuseAfterSends(c: Conn, m: Outgoing)
    requires Row(c, 2, 2) && c.log == [Sent(1, HELLO)] && |c.finished| == 1 && c.finished[0].reply == 0
    ensures BackToOne(Run(c, Sends(m, TWO_32)))
  {
    hide Sound, Send, FirstFree, HELLO, Run;
    RowOfSends(c, m, 2, 2, TWO_32 - 2);
    var full := Run(c, Sends(m, TWO_32 - 2));
    OneMore(c, m, TWO_32 - 2);
    OneMore(c, m, TWO_32 - 1);
    FirstIsNext(full.replies.Keys, 0);
    SendGetsThrough(full, m);
    var round := Send(full, m).0;
    assert 1 !in round.replies;
    FirstIsNext(round.replies.Keys, 1);
    SendGetsThrough(round, m);
    var d := Send(round, m).0;
    assert d.finished[0].reply == 0 && d.log[0] == c.log[0];
  }

  /** The frame that answers Hello comes in, and no other. */
  lemma AbsorbAnswer(c: Conn, s: bytes, f: Received, name: bytes)
    requires HelloOut(c) && NextFrame(s) == Frame(f, []) && f.pos <= |f.data| && Answers(f, 1) && NameIn(f, name)
    ensures HelloDone(Absorb(c, s, false))
  {
    hide NextFrame, HandleBusMsg, NameIn, Answers, HELLO, Unfinished;
    var taken := c.(frames := c.frames + [f]);
    FrameCursor(s);
    HelloAnswered(taken, f, name);
    ShortNeedsMore([]);
  }

  /** A little-endian return to Hello, the first message of the connection, that carries a name. */
  predicate Greets(p: Packet) {
    LittlePackets([p]) && p.message.kind == METHOD_RETURN && p.message.header.replySerial == Some(1)
    && GetString(p.message.body, 0, LITTLE).Got?
  }

  lemma GreetingFrame(p: Packet) returns (f: Received, name: bytes)
    requires Greets(p)
    ensures NextFrame(Serialize(p.message, p.writer)) == Frame(f, [])
    ensures f.pos <= |f.data| && Answers(f, 1) && NameIn(f, name)
  {
    hide Serialize, NextFrame, Sendable, HeaderArray, GetString, NameIn, RecordOf;
    assert [p][0] == p;
    var s := Serialize(p.message, p.writer);
    FirstFrame(p.message, p.writer, []);
    assert s + [] == s;
    f, name := NextFrame(s).message, GetString(p.message.body, 0, LITTLE).value;
    NamesInFrame(f, name);
    AnswerInFrame(f, p.message);
  }

  /**
   * Lives in which an answered serial comes back, one for each accepted line,
   * each reply to Hello from either codec and each message: after 2^32 sends
   * serial 1 is in the table again, although Hello, which had it, is answered.
   */
  lemma ReuseLife(script: Script, authLine: bytes, line: bytes, p: Packet, m: Outgoing, n: nat)
    requires NEWLINE !in line && OK <= NoReturns(line) && Greets(p) && Unbroken(script) && n > Work(script)
    requires Pending(script) == line + [NEWLINE] + Serialize(p.message, p.writer)
    ensures BackToOne(Life(script, [], [], true, authLine, Readables(n) + Sends(m, TWO_32)))
  {
    hide Settle, Unbroken, Work, Pending, NoReturns, Start, OK, Life, Run, Row, Sound, HELLO, Serialize, Absorb, Greets,
         NextFrame, BackToOne, NameIn, Answers;
    var s := Serialize(p.message, p.writer);
    var d := LineLeads(script, authLine, line, s, n);
    var f, name := GreetingFrame(p);
    AbsorbAnswer(d, s, f, name);
    var c := Settle(Start(NewConn(script, [], []), true, authLine), n);
    CoreRow(c, 2, 2);
    LifeIsSettled(script, authLine, n, Sends(m, TWO_32));
    ReuseAfterSends(c, m);
  }

  lemma AnswerInFrame(f: Received, m: Message)
    requires f.pos <= |f.data| && RecordOf(f) == m && m.kind == METHOD_RETURN && m.header.replySerial == Some(1)
    ensures Answers(f, 1)
  {
  }

  // ------------------------------------------------------------------ two such inputs

  const OK_LINE: bytes := [79, 75, 10]

  lemma OkLine(script: Script)
    ensures OK_LINE == [79, 75] + [NEWLINE] && NEWLINE !in [79, 75] && OK <= NoReturns([79, 75])
    ensures Pending([Data(OK_LINE)] + script) == OK_LINE + Pending(script)
  {
    assert OK == [79, 75];
    OkIsKept([79, 75]);
    assert ([Data(OK_LINE)] + script)[1..] == script;
  }

  /** An OK line in one piece, and 2^32 - 1 sends of any message. */
  lemma ZeroExample(m: Outgoing)
    ensures var c := Life([Data(OK_LINE)], [], [], true, [], Readables(5) + Sends(m, TWO_32 - 1));
      c.log != [] && c.log[|c.log| - 1].serial == 0
    ensures Life([Data(OK_LINE)], [], [], true, [], Readables(5) + Sends(m, TWO_32)).halted
  {
    hide Life, NoReturns, OK;
    OkLine([]);
    assert [Data(OK_LINE)] + [] == [Data(OK_LINE)];
    ZeroLife([Data(OK_LINE)], [], [79, 75], m, 5);
  }

  /** The reply of the bus to Hello, naming the connection with the empty string. */
  const HELLO_REPLY :=
    Message(LITTLE, METHOD_RETURN, 0, 1, NO_FIELDS.(replySerial := Some(1)), PutString([], 0, LITTLE))

  lemma ReplyGreets()
    ensures Greets(Packet(HELLO_REPLY, Library))
  {
    hide PutString, GetString;
    var m := HELLO_REPLY;
    assert HeaderFields(m.header, Library) == [NumField(REPLY_SERIAL, 1)];
    assert |HeaderArray(m.header, Library, LITTLE)| == 8 by { ReplyArray(); }
    StringRoundTrip(m.body, 0, [], LITTLE);
  }

  lemma ReplyArray()
    ensures |PutFields([NumField(REPLY_SERIAL, 1)], 0, LITTLE)| == 8
  {
    var f := NumField(REPLY_SERIAL, 1);
    StructSizeIs(f, 0, LITTLE);
    assert [f][1..] == [];
  }

  /** The OK line, the reply to Hello, and 2^32 sends of any message. */
  lemma ReuseExample(m: Outgoing)
    ensures var reply := Serialize(HELLO_REPLY, Library);
      var script := [Data(OK_LINE), Data(reply)];
      |reply| > 0 && BackToOne(Life(script, [], [], true, [], Readables(Work(script) + 1) + Sends(m, TWO_32)))
  {
    hide Life, NoReturns, OK, Serialize, BackToOne, HELLO_REPLY, Greets;
    ReplyGreets();
    NotEmpty(HELLO_REPLY, Library);
    var reply := Serialize(HELLO_REPLY, Library);
    var script := [Data(OK_LINE), Data(reply)];
    OkLine([Data(reply)]);
    assert [Data(OK_LINE)] + [Data(reply)] == script;
    assert [Data(reply)][1..] == [];
    ReuseLife(script, [], [79, 75], Packet(HELLO_REPLY, Library), m, Work(script) + 1);
  }
}
