/** ConnectionPrivate and PendingReplyPrivate as objects that change in place. */
module ClientConnection {
  import opened Basics
  import opened ByteOrder
  import opened Values
  import opened Messages
  import opened Sockets
  import opened Framing
  import opened LibraryCodec
  import opened ConnectionModel
  import ConnectionRuns

  class PendingReply {
    var result: Option<Received>
    ghost const id: nat

    constructor (ghost id: nat)
      ensures result == None && this.id == id
    {
      result := None;
      this.id := id;
    }

    /** The first message is kept and Finished is to be emitted; any other is refused. */
    method SetMessage(m: Received) returns (emit: bool)
      modifies this
      ensures emit == old(result).None?
      ensures result == if emit then Some(m) else old(result)
    {
      if result.Some? {
        return false;
      }
      result := Some(m);
      emit := true;
    }
  }

  ghost predicate Numbered(created: seq<PendingReply>) {
    forall i | 0 <= i < |created| :: created[i].id == i
  }

  ghost predicate Known(created: seq<PendingReply>, r: PendingReply) {
    r.id < |created| && created[r.id] == r
  }

  ghost function TableOf(replies: map<u32, PendingReply>): map<u32, nat> {
    map s | s in replies :: replies[s].id
  }

  ghost function ResultsOf(created: seq<PendingReply>): seq<Option<Received>>
    reads created
  {
    seq(|created|, i requires 0 <= i < |created| reads created => created[i].result)
  }

  class Connection {
    var state: State
    var authData: bytes
    var serviceName: bytes
    var nextSerial: u32
    var replies: map<u32, PendingReply>
    var readMsg: MessageObject
    const sock: Socket
    /** The reply whose Finished runs the connection's own handler. */
    var hello: PendingReply?
    /** What the user's handlers will send, one list for each event. */
    var plan: seq<seq<Outgoing>>
    /** Set where the program's own behaviour ends. */
    var halted: bool

    ghost var created: seq<PendingReply>
    ghost var log: seq<Sent>
    ghost var attempts: nat
    ghost var frames: seq<Received>
    ghost var finished: seq<Completion>
    ghost var line: bytes
    ghost var began: bool

    ghost function Objects(): set<object>
      reads this`readMsg, this`created
    {
      {this, sock, readMsg, readMsg.reader} + set r | r in created
    }

    /** The object graph: every reply object is where its number says. */
    ghost predicate Linked()
      reads Objects()
    {
      && Numbered(created)
      && (forall s | s in replies :: Known(created, replies[s]))
      && (hello != null ==> Known(created, hello))
      && (!halted && state != Error ==> readMsg.Valid())
    }

    ghost predicate Valid()
      reads Objects()
    {
      Linked() && Sound(Model())
    }

    ghost function Model(): Conn
      reads Objects()
    {
      Conn(state, authData, serviceName, nextSerial, TableOf(replies), ResultsOf(created),
           if hello == null then None else Some(hello.id),
           if halted then FRESH else readMsg.State(),
           sock.script, sock.acks, plan, sock.written, halted, log, attempts, frames, finished, line, began)
    }

    constructor New(sock: Socket, plan: seq<seq<Outgoing>>)
      requires sock.written == []
      ensures Valid() && this.sock == sock && fresh(Objects() - {sock})
      ensures Model() == NewConn(sock.script, sock.acks, plan)
    {
      state, authData, serviceName, nextSerial := Connecting, [], [], 1;
      replies, hello, halted := map[], null, false;
      this.sock, this.plan := sock, plan;
      readMsg := new MessageObject();
      created, log, attempts, frames, finished, line, began := [], [], 0, [], [], [], false;
      new;
      NewIsSound(sock.script, sock.acks, plan);
    }

    /** The fields decisions are taken on, as the model sees them. */
    lemma Look()
      ensures Model().state == state && Model().halted == halted && Model().plan == plan
      ensures Model().authData == authData && Model().script == sock.script
      ensures Model().frames == frames && Model().serviceName == serviceName
    {
    }

    lemma LookTable()
      ensures |Model().replies| == |replies| && Model().replies.Keys == replies.Keys
    {
      SameKeys(replies);
    }

    /** Where a table entry leads. */
    lemma LookEntry(serial: u32)
      requires Linked() && serial in replies
      ensures Known(created, replies[serial]) && replies[serial] in created
      ensures serial in Model().replies && Model().replies[serial] == replies[serial].id < |Model().results|
    {
    }

    // ------------------------------------------------------------------ sending

    /** The search of send(), in place on nextSerial. */
    method FindSerial()
      requires |replies| < TWO_32
      modifies `nextSerial
      ensures |replies.Keys| < TWO_32 && nextSerial == FirstFree(replies.Keys, old(nextSerial), 0)
    {
      ghost var taken, start := replies.Keys, nextSerial;
      SameKeys(replies);
      ghost var tried: nat := 0;
      StepNone(start);
      while nextSerial in replies
        invariant tried < TWO_32 && nextSerial == Step(start, tried)
        invariant forall j | 0 <= j < tried :: Step(start, j) in taken
        invariant FirstFree(taken, start, 0) == FirstFree(taken, start, tried)
        decreases TWO_32 - tried
      {
        assert tried + 1 < TWO_32 by { RunIsCounted(taken, start, tried + 1); }
        StepNext(start, tried);
        nextSerial := Succ(nextSerial);
        tried := tried + 1;
      }
    }

    /** The serial found is used up. */
    method TakeSerial() returns (serial: u32)
      requires Linked() && |replies| < TWO_32
      modifies this`nextSerial, this`attempts
      ensures Linked() && |old(Model()).replies.Keys| < TWO_32
      ensures serial == FirstFree(old(Model()).replies.Keys, old(Model()).nextSerial, 0)
      ensures Model() == old(Model()).(nextSerial := Succ(serial), attempts := old(Model()).attempts + 1)
    {
      hide Numbered, Known, ResultsOf, TableOf, FirstFree;
      SameKeys(replies);
      FindSerial();
      serial := nextSerial;
      nextSerial := Succ(nextSerial);
      attempts := attempts + 1;
    }

    method Put(data: bytes) returns (ok: bool)
      requires Linked()
      modifies sock`acks, sock`written
      ensures Linked() && (Model(), ok) == Write(old(Model()), data)
    {
      hide Numbered, Known, ResultsOf, TableOf;
      ok := sock.Write(data);
    }

    /** Serialisation of a message under its serial, on a message object of its own. */
    method Encode(m: Outgoing, serial: u32) returns (data: bytes)
      requires Linked()
      ensures Linked() && Model() == old(Model()) && data == Wire(Sent(serial, m))
    {
      hide LibrarySerialize, Numbered, Known, TableOf;
      var message := new MessageObject();
      message.fixedHeader := m.fixed.(serial := serial);
      message.dynamicHeader := m.header;
      message.writer.data := m.body;
      data := message.Serialize();
    }

    /** A new reply object enters the table. */
    method Register(m: Outgoing, serial: u32) returns (reply: PendingReply)
      requires Linked()
      modifies this`replies, this`created, this`log
      ensures Linked() && Known(created, reply) && fresh(Objects() - old(Objects()))
      ensures var c := old(Model());
        reply.id == |c.results|
        && Model() == c.(replies := c.replies[serial := |c.results|], results := c.results + [None],
                         log := c.log + [Sent(serial, m)])
    {
      hide MessageObject.Valid, Numbered, Known, TableOf, ResultsOf;
      ghost var results := ResultsOf(created);
      reply := new PendingReply(|created|);
      KnownAppend(created, reply, replies, hello);
      replies := replies[serial := reply];
      created := created + [reply];
      log := log + [Sent(serial, m)];
      TableExtended(old(replies), serial, reply);
      ResultsExtended(old(created), reply);
    }

    method HaltNow()
      requires Linked()
      modifies this`halted
      ensures Linked() && Model() == Halt(old(Model()))
    {
      halted := true;
    }

    method Send(m: Outgoing) returns (reply: PendingReply?)
      requires Valid()
      modifies this`nextSerial, this`replies, this`halted, this`created, this`log, this`attempts,
               sock`acks, sock`written
      ensures Valid() && fresh(Objects() - old(Objects()))
      ensures var (c, id) := ConnectionModel.Send(old(Model()), m);
        Model() == c && (if reply == null then id.None? else Known(created, reply) && id == Some(reply.id))
    {
      hide Wire, Sound, FirstFree, Linked, Model, Known;
      ghost var spec := ConnectionModel.Send(Model(), m);
      Look();
      LookTable();
      if halted || (state != GettingName && state != Connected) {
        return null;
      }
      if |replies| >= TWO_32 {
        HaltNow();
        return null;
      }
      var serial := TakeSerial();
      var data := Encode(m, serial);
      var ok := Put(data);
      if !ok {
        return null;
      }
      reply := Register(m, serial);
    }

    // ------------------------------------------------------------------- events

    /** The user's handlers: each event makes them send the next list of the plan. */
    method React()
      requires Valid()
      modifies this`plan, this`nextSerial, this`replies, this`halted, this`created, this`log, this`attempts,
               sock`acks, sock`written
      ensures Valid() && fresh(Objects() - old(Objects())) && Model() == ConnectionModel.React(old(Model()))
    {
      hide Sound, Linked, Model, SendAll;
      ghost var c := Model();
      Look();
      if halted || plan == [] {
        return;
      }
      var messages := NextReaction();
      SoundKept(c, Model());
      SendEach(messages);
    }

    method NextReaction() returns (messages: seq<Outgoing>)
      requires Linked() && plan != []
      modifies `plan
      ensures Linked() && messages == old(plan)[0] && Model() == old(Model()).(plan := old(plan)[1..])
    {
      hide Numbered, Known, TableOf, ResultsOf;
      messages := plan[0];
      plan := plan[1..];
    }

    method SendEach(messages: seq<Outgoing>)
      requires Valid()
      modifies this`nextSerial, this`replies, this`halted, this`created, this`log, this`attempts,
               sock`acks, sock`written
      ensures Valid() && fresh(Objects() - old(Objects())) && Model() == SendAll(old(Model()), messages)
    {
      hide Sound, ConnectionModel.Send, Linked, Model;
      var i := 0;
      while i < |messages|
        invariant i <= |messages| && Linked() && Sound(Model()) && fresh(Objects() - old(Objects()))
        invariant SendAll(old(Model()), messages) == SendAll(Model(), messages[i..])
      {
        var _ := Send(messages[i]);
        assert messages[i..][1..] == messages[i + 1..];
        i := i + 1;
      }
    }

    method UpdateState(s: State)
      requires Linked() && (state == Error ==> s == Error)
      requires if halted || state == s then Sound(Model()) else Sound(Model().(state := s))
      modifies this`state, this`plan, this`nextSerial, this`replies, this`halted, this`created, this`log,
               this`attempts, sock`acks, sock`written
      ensures Valid() && fresh(Objects() - old(Objects()))
      ensures Model() == ConnectionModel.UpdateState(old(Model()), s)
      ensures state == if old(halted) then old(state) else s
    {
      hide Sound, Numbered, Known, TableOf, ResultsOf;
      if halted || state == s {
        return;
      }
      state := s;
      React();
    }


    // ---------------------------------------------------------------- handshake

    /** startConnect, once the kernel has given a connected socket or refused one. */
    method Start(reachable: bool, authLine: bytes)
      requires Valid() && state == Connecting
      modifies this, sock`acks, sock`written
      ensures Valid() && fresh(Objects() - old(Objects()))
      ensures Model() == ConnectionModel.Start(old(Model()), reachable, authLine)
    {
      hide Sound, Linked, Model, ConnectionModel.UpdateState;
      Look();
      SoundKept(Model(), Model().(state := Error));
      if !reachable {
        UpdateState(Error);
        return;
      }
      ghost var c := Model();
      var ok := Put(NUL);
      Look();
      SoundKept(c, Model());
      SoundKept(c, Model().(state := Error));
      SoundKept(c, Model().(state := Auth));
      if !ok {
        UpdateState(Error);
        return;
      }
      UpdateState(Auth);
      FinishStart(authLine);
    }

    method FinishStart(authLine: bytes)
      requires Valid() && state != Error
      modifies this`state, this`plan, this`nextSerial, this`replies, this`halted, this`created, this`log,
               this`attempts, sock`acks, sock`written
      ensures Valid() && fresh(Objects() - old(Objects()))
      ensures var (c, ok) := Write(old(Model()), authLine);
        (if ok || c.halted then Sound(c) else Sound(c.(state := Error)))
        && Model() == if ok then c else ConnectionModel.UpdateState(c, Error)
    {
      hide Sound, Linked, Model, ConnectionModel.UpdateState;
      ghost var c := Model();
      Look();
      var ok := Put(authLine);
      Look();
      SoundKept(c, Model());
      SoundKept(c, Model().(state := Error));
      if !ok {
        UpdateState(Error);
      }
    }

    /** doAuth: one byte at a time, calling itself until the line or the input ends. */
    method DoAuth()
      requires Valid() && state == Auth
      modifies this, sock
      ensures Valid() && fresh(Objects() - old(Objects())) && readMsg == old(readMsg)
      ensures Model() == ConnectionModel.DoAuth(old(Model()))
      decreases Work(sock.script)
    {
      hide Sound, Linked, Model, ConnectionModel.UpdateState, ConnectionModel.Authenticated, ReadOnce, Work;
      ghost var c := Model();
      Look();
      ReadOnceTakes(sock.script, 1);
      var n := ReadByte();
      Look();
      SoundKept(c, Model());
      SoundKept(c, Model().(state := Error));
      match n
      case WouldBlock =>
      case Fault => UpdateState(Error);
      case Bytes(b) =>
        TakeByte(b[0]);
        Look();
        SoundKept(c, Model());
        if b[0] != NEWLINE {
          DoAuth();
        } else {
          Authenticated();
        }
    }

    method ReadByte() returns (r: ReadResult)
      requires Linked()
      modifies sock`script
      ensures Linked() && (r, sock.script) == ReadOnce(old(sock.script), 1)
      ensures Model() == old(Model()).(script := sock.script)
    {
      hide Numbered, Known, TableOf, ResultsOf, ReadOnce;
      r := sock.Read(1);
    }

    /** A byte of the line: kept unless it is a carriage return or the newline. */
    method TakeByte(b: byte)
      requires Linked()
      modifies `authData, `line
      ensures Linked()
      ensures var c := old(Model()).(line := old(Model()).line + [b]);
        Model() == if b != NEWLINE && b != RETURN then c.(authData := c.authData + [b]) else c
    {
      hide Numbered, Known, TableOf, ResultsOf;
      line := line + [b];
      if b != NEWLINE {
        if b != RETURN {
          authData := authData + [b];
        }
      }
    }

    method Authenticated()
      requires Valid() && state == Auth
      modifies this`began, this`state, this`plan, this`nextSerial, this`replies, this`halted, this`created,
               this`log, this`attempts, this`hello, sock`acks, sock`written
      ensures Valid() && fresh(Objects() - old(Objects()))
      ensures Model() == ConnectionModel.Authenticated(old(Model()))
    {
      hide Sound, Linked, Model, ConnectionModel.UpdateState, ConnectionModel.DoGetName;
      ghost var c := Model();
      Look();
      SoundKept(c, c.(state := Error));
      if !(OK <= authData) {
        UpdateState(Error);
        return;
      }
      var ok := Put(BEGIN);
      Look();
      SoundKept(c, Model().(state := Error));
      SoundKept(c, Model());
      if !ok {
        UpdateState(Error);
        return;
      }
      ghost var c1 := Model();
      Begin();
      SoundKept(c1, Model());
      DoGetName();
    }

    ghost method Begin()
      requires Linked()
      modifies `began
      ensures Linked() && Model() == old(Model()).(began := true)
    {
      began := true;
    }

    /** The state changes, and handlers run, before Hello is sent. */
    method DoGetName()
      requires Valid() && state == Auth
      modifies this`state, this`plan, this`nextSerial, this`replies, this`halted, this`created,
               this`log, this`attempts, this`hello, sock`acks, sock`written
      ensures Valid() && fresh(Objects() - old(Objects()))
      ensures Model() == ConnectionModel.DoGetName(old(Model()))
    {
      hide Sound, Linked, Model, ConnectionModel.UpdateState, ConnectionModel.Send, Known, HELLO;
      ghost var c := Model();
      Look();
      ghost var spec := ConnectionModel.DoGetName(c);
      SoundKept(c, c.(state := GettingName));
      UpdateState(GettingName);
      var pending := Send(HELLO);
      Look();
      if pending == null {
        ghost var d := Model();
        SoundKept(d, d.(state := Error));
        UpdateState(Error);
        return;
      }
      Await(pending);
    }

    /** The connection's own handler is connected to the reply. */
    method Await(reply: PendingReply)
      requires Linked() && Known(created, reply)
      modifies `hello
      ensures Linked() && Model() == old(Model()).(hello := Some(reply.id))
    {
      hide Numbered, TableOf, ResultsOf;
      hello := reply;
    }

    // ----------------------------------------------------------------- messages

    /** readData: one step of the handshake or one attempt at a message. */
    method ReadData()
      requires Valid()
      modifies Objects()
      ensures Valid() && fresh(Objects() - old(Objects()))
      ensures Model() == ConnectionModel.ReadData(old(Model()))
    {
      hide Sound, Linked, Model, ConnectionModel.DoAuth, ConnectionModel.UpdateState,
           ConnectionModel.HandleBusMsg, Framing.ReadFd, Tells, Unfinished, FRESH;
      ghost var c := Model();
      ghost var spec := ConnectionModel.ReadData(c);
      Look();
      if halted {
        return;
      }
      if state == Auth {
        DoAuth();
        return;
      }
      if state != GettingName && state != Connected {
        return;
      }
      var res := TryRead();
      match res
      case Success =>
        var m := TakeMessage();
        ReadFdCursor(c.reading, c.script);
        SoundReading(c, Model());
        Look();
        HandleBusMsg(m);
      case Failure =>
        SoundReading(c, Model().(state := Error));
        Look();
        UpdateState(Error);
      case WouldBlock =>
      case Crash =>
    }

    /** readFd on the message being read. */
    method TryRead() returns (res: ReadRes)
      requires Linked() && Sound(Model()) && !halted && Open(state)
      modifies this`halted, readMsg, readMsg.reader, sock`script
      ensures Linked() && Objects() == old(Objects()) && Unfinished(old(Model()).reading)
      ensures var (r, reading, script) := Framing.ReadFd(old(Model()).reading, old(Model()).script);
        var c := old(Model()).(script := script);
        res == r && halted == (res == Crash)
        && Model() == if res == Crash then Halt(c) else c.(reading := reading)
    {
      hide Numbered, Known, TableOf, ResultsOf, Framing.ReadFd, InProgress, NextFrame;
      res := readMsg.ReadFd(sock);
      if res == Crash {
        halted := true;
      }
    }

    /** A complete message is handed on and replaced by a new one. */
    method TakeMessage() returns (m: Received)
      requires Linked() && !halted && Open(state)
      modifies this`readMsg, this`frames
      ensures Linked() && fresh(Objects() - old(Objects()))
      ensures var r := old(Model()).reading; m == Received(r.fixed, r.header, r.data, r.pos)
      ensures Model() == old(Model()).(reading := FRESH, frames := old(Model()).frames + [m])
    {
      hide Numbered, Known, TableOf, ResultsOf;
      m := Received(readMsg.fixedHeader, readMsg.dynamicHeader, readMsg.reader.data, readMsg.reader.pos);
      frames := frames + [m];
      readMsg := new MessageObject();
    }

    /** One thing that happens to a connection: its socket is readable, or the user sends. */
    method Take(a: Action)
      requires Valid()
      modifies Objects()
      ensures Valid() && fresh(Objects() - old(Objects())) && Model() == Act(old(Model()), a)
    {
      hide Sound, Linked, Model, ConnectionModel.ReadData, ConnectionModel.Send;
      match a
      case Readable => ReadData();
      case UserSend(m) => var _ := Send(m);
    }

    method Erase(serial: u32)
      requires Valid()
      modifies `replies
      ensures Valid() && Model() == old(Model()).(replies := old(Model()).replies - {serial})
    {
      hide Numbered, Known, ResultsOf, Unfinished;
      replies := replies - {serial};
      assert TableOf(replies) == TableOf(old(replies)) - {serial};
    }

    /** setMessage on the reply found in the table, and its Finished event. */
    method Complete(serial: u32, m: Received)
      requires Valid() && frames != [] && m.pos <= |m.data| && serial in replies
      modifies this, created, sock`acks, sock`written
      ensures Valid() && fresh(Objects() - old(Objects())) && serial in old(Model()).replies
      ensures Model() == ConnectionModel.SetMessage(old(Model()), old(Model()).replies[serial], m)
    {
      hide Sound, Linked, Model, ConnectionModel.EmitFinished;
      ghost var c := Model();
      Look();
      var reply := replies[serial];
      LookEntry(serial);
      var emit := Store(reply, m);
      if emit {
        SoundResult(c, reply.id, m, Model());
        EmitFinished(reply, m);
      }
    }

    /** The reply object keeps the message; the history notes the completion. */
    method Store(reply: PendingReply, m: Received) returns (emit: bool)
      requires Linked() && Known(created, reply) && frames != []
      modifies reply, `finished
      ensures Linked() && reply.id < |old(Model()).results| && emit == old(Model()).results[reply.id].None?
      ensures emit ==> reply.result == Some(m)
      ensures var c := old(Model());
        Model() == if emit then c.(results := c.results[reply.id := Some(m)],
                                   finished := c.finished + [Completion(reply.id, |c.frames| - 1)]) else c
    {
      hide TableOf;
      emit := reply.SetMessage(m);
      if emit {
        finished := finished + [Completion(reply.id, |frames| - 1)];
        assert ResultsOf(created) == old(ResultsOf(created))[reply.id := Some(m)];
      } else {
        assert ResultsOf(created) == old(ResultsOf(created));
      }
    }

    method EmitFinished(reply: PendingReply, m: Received)
      requires Valid() && Known(created, reply) && reply.result == Some(m)
      modifies this, reply, sock`acks, sock`written
      ensures Valid() && fresh(Objects() - old(Objects()))
      ensures reply.id < |old(Model()).results| && old(Model()).results[reply.id].Some?
      ensures Model() == ConnectionModel.EmitFinished(old(Model()), reply.id)
    {
      hide Sound, Linked, Model, ConnectionModel.React, ConnectionModel.HandleName;
      ghost var c := Model();
      LookReply(reply);
      if hello != reply {
        React();
        return;
      }
      if state != GettingName {
        return;
      }
      HandleName(reply, m);
    }

    /** What the model sees of a known reply. */
    lemma LookReply(reply: PendingReply)
      requires Linked() && Known(created, reply)
      ensures reply.id < |Model().results| && Model().results[reply.id] == reply.result
      ensures Model().hello == Some(reply.id) <==> hello == reply
      ensures Model().state == state && Model().halted == halted
    {
    }

    /** handleGetNameRespone: the body's first string is the name. */
    method HandleName(reply: PendingReply, m: Received)
      requires Valid() && Known(created, reply) && reply.result == Some(m) && state == GettingName
      modifies this, reply, sock`acks, sock`written
      ensures Valid() && fresh(Objects() - old(Objects()))
      ensures reply.id < |old(Model()).results| && old(Model()).results[reply.id] == Some(m)
      ensures Model() == ConnectionModel.HandleName(old(Model()), reply.id, m)
    {
      hide Sound, Linked, Model, ConnectionModel.UpdateState, GetString, AdvanceResult, Known;
      ghost var c := Model();
      LookReply(reply);
      Look();
      ghost var spec := ConnectionModel.HandleName(c, reply.id, m);
      SoundKept(c, c.(state := Error));
      CursorInBody(c, reply.id, m);
      if m.fixed.kind == ERROR {
        UpdateState(Error);
        return;
      }
      StringCursor(m.data, m.pos, LITTLE);
      var name := ReadName(m);
      match name
      case Got(v, p) =>
        SoundKept(c, c.(serviceName := v));
        Advance(reply, m, p, v);
        Named(c.(serviceName := v), reply.id, p);
        UpdateState(Connected);
      case Miss(p) =>
        Advance(reply, m, p, serviceName);
        Named(c, reply.id, p);
        UpdateState(Error);
      case Overrun =>
        HaltNow();
    }

    method ReadName(m: Received) returns (r: Read<bytes>)
      requires Linked() && m.pos <= |m.data|
      ensures Linked() && Model() == old(Model()) && r == GetString(m.data, m.pos, LITTLE)
    {
      hide Numbered, Known, TableOf, GetString;
      var reader := new Reader.Over(m.data, m.pos);
      r := reader.ReadString();
    }

    /** The stored message's reader has moved, and a name may have been read. */
    method Advance(reply: PendingReply, m: Received, p: nat, name: bytes)
      requires Linked() && Known(created, reply) && reply.result == Some(m)
      requires Sound(Model()) && p <= |m.data|
      modifies reply, `serviceName
      ensures Linked() && state == old(state) && halted == old(halted)
      ensures reply.id < |old(Model()).results| && old(Model()).results[reply.id] == Some(m)
      ensures var c := old(Model()).(serviceName := name);
        Model() == c.(results := c.results[reply.id := Some(m.(pos := p))])
    {
      hide TableOf, Unfinished;
      serviceName := name;
      reply.result := Some(m.(pos := p));
      assert ResultsOf(created) == old(ResultsOf(created))[reply.id := Some(m.(pos := p))];
    }

    /** A reply to an outstanding request completes it; its entry is erased after the handlers have run. */
    method HandleBusMsg(m: Received)
      requires Valid() && frames != [] && m.pos <= |m.data|
      modifies this, created, sock`acks, sock`written
      ensures Valid() && fresh(Objects() - old(Objects()))
      ensures Model() == ConnectionModel.HandleBusMsg(old(Model()), m)
    {
      hide Sound, Linked, Model, ConnectionModel.SetMessage;
      ghost var c := Model();
      Look();
      LookTable();
      if m.fixed.kind != METHOD_RETURN && m.fixed.kind != ERROR {
        return;
      }
      if m.header.replySerial.None? || m.header.replySerial.value !in replies {
        return;
      }
      var serial := m.header.replySerial.value;
      Complete(serial, m);
      if halted {
        Look();
        return;
      }
      Look();
      Erase(serial);
    }
  }

  /** The whole life of a connection object: what it ends up as is what the model says, and steady. */
  method Live(sock: Socket, plan: seq<seq<Outgoing>>, reachable: bool, authLine: bytes, actions: seq<Action>)
    returns (c: Connection)
    requires sock.written == []
    modifies sock
    ensures c.Valid() && c.sock == sock
    ensures c.Model() == Life(old(sock.script), old(sock.acks), plan, reachable, authLine, actions)
    ensures ConnectionRuns.Steady(c.Model(), authLine, Pending(old(sock.script)))
  {
    hide Sound, Connection.Linked, Connection.Model, ConnectionRuns.Steady, Act, ConnectionModel.Start;
    NewIsSound(sock.script, sock.acks, plan);
    c := new Connection.New(sock, plan);
    c.Look();
    c.Start(reachable, authLine);
    ghost var started := c.Model();
    var i := 0;
    while i < |actions|
      invariant i <= |actions| && c.Valid() && c.sock == sock && fresh(c.Objects() - {sock})
      invariant Sound(started) && Run(started, actions) == Run(c.Model(), actions[i..])
    {
      assert actions[i..][1..] == actions[i + 1..];
      c.Take(actions[i]);
      i := i + 1;
    }
    ConnectionRuns.LifeKeeps(old(sock.script), old(sock.acks), plan, reachable, authLine, actions);
  }

  lemma KnownAppend(created: seq<PendingReply>, r: PendingReply, replies: map<u32, PendingReply>, hello: PendingReply?)
    requires Numbered(created) && r.id == |created|
    ensures Numbered(created + [r]) && Known(created + [r], r)
    ensures forall s | s in replies :: Known(created, replies[s]) ==> Known(created + [r], replies[s])
    ensures hello != null && Known(created, hello) ==> Known(created + [r], hello)
  {
  }

  lemma TableExtended(replies: map<u32, PendingReply>, serial: u32, r: PendingReply)
    ensures TableOf(replies[serial := r]) == TableOf(replies)[serial := r.id]
  {
  }

  lemma ResultsExtended(created: seq<PendingReply>, r: PendingReply)
    requires r.result.None?
    ensures ResultsOf(created + [r]) == ResultsOf(created) + [None]
    ensures |ResultsOf(created)| == |created|
  {
  }

  lemma ReadFdCursor(r: Reading, script: Script)
    requires Unfinished(r)
    ensures var (res, r', _) := Framing.ReadFd(r, script); res.Success? ==> r'.pos <= |r'.data|
  {
    hide InProgress, NextFrame, Framing.ReadFd;
    ReadFdTells(r, script);
  }

  lemma SoundReading(c: Conn, d: Conn)
    requires Sound(c) && d.replies == c.replies && d.results == c.results && d.hello == c.hello
    requires d.reading == FRESH || d.state == Error
    ensures Sound(d)
  {
    hide InProgress, NextFrame;
    FreshIsUnfinished();
  }

  lemma SoundResult(c: Conn, id: nat, m: Received, d: Conn)
    requires Sound(c) && id < |c.results| && m.pos <= |m.data|
    requires d == c.(results := c.results[id := Some(m)], finished := d.finished)
    ensures Sound(d)
  {
    hide Unfinished;
  }

  lemma CursorInBody(c: Conn, id: nat, m: Received)
    requires Sound(c) && id < |c.results| && c.results[id] == Some(m)
    ensures m.pos <= |m.data|
  {
    hide Unfinished;
  }

  /** Both outcomes of reading the name leave a sound connection, in the state that follows as well. */
  lemma Named(c: Conn, id: nat, p: nat)
    requires Sound(c) && c.state == GettingName && id < |c.results|
    requires c.results[id].Some? && p <= |c.results[id].value.data|
    ensures var d := c.(results := c.results[id := Some(c.results[id].value.(pos := p))]);
      d == AdvanceResult(c, id, p) && forall s :: Sound(d.(state := s))
  {
    hide Unfinished;
  }

  lemma StepNone(n: u32)
    ensures Step(n, 0) == n
  {
  }

  lemma StepNext(n: u32, k: nat)
    requires k + 1 < TWO_32
    ensures Succ(Step(n, k)) == Step(n, k + 1)
  {
    WrapOnce(n + k);
    WrapOnce(n + k + 1);
  }

  lemma SameKeys(replies: map<u32, PendingReply>)
    ensures TableOf(replies).Keys == replies.Keys && |TableOf(replies)| == |replies| == |replies.Keys|
  {
    assert TableOf(replies).Keys == replies.Keys;
  }
}
