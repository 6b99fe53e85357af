/**
 * The client connection as a function on values: what each method of
 * ConnectionPrivate and PendingReplyPrivate does to the whole state.
 *
 * User code runs only where the source emits an event.  What it does there
 * is a plan: the next list of messages its handlers send.  Reads follow the
 * socket's script, writes its acknowledgements; every theorem holds for all
 * plans, scripts and acknowledgements.
 */
module ConnectionModel {
  import opened Basics
  import opened ByteOrder
  import opened Values
  import opened Fields
  import opened Messages
  import opened Sockets
  import opened Framing

  datatype State = Connecting | Auth | GettingName | Connected | Error

  /** A message handed to send(). */
  datatype Outgoing = Outgoing(fixed: Fixed, header: Header, body: bytes)

  /** A message that was written, with the serial it got. */
  datatype Sent = Sent(serial: u32, message: Outgoing)

  /** A reply object (by number) that got its message, and which received frame that was. */
  datatype Completion = Completion(reply: nat, frame: nat)

  /** Fields of the connection and of its environment; the last group is history the program does not keep. */
  datatype Conn = Conn(
    state: State, authData: bytes, serviceName: bytes, nextSerial: u32,
    replies: map<u32, nat>, results: seq<Option<Received>>, hello: Option<nat>, reading: Reading,
    script: Script, acks: seq<bool>, plan: seq<seq<Outgoing>>, written: seq<bytes>, halted: bool,
    log: seq<Sent>, attempts: nat, frames: seq<Received>, finished: seq<Completion>, line: bytes, began: bool)

  function Ascii(s: string): bytes {
    seq(|s|, i requires 0 <= i < |s| => s[i] as int % 256)
  }

  const NUL: bytes := [0]
  const BEGIN: bytes := Ascii("BEGIN\r\n")
  const OK: bytes := Ascii("OK")
  const NEWLINE: byte := 10
  const RETURN: byte := 13

  const HELLO := Outgoing(NEW_FIXED, NO_FIELDS.(
      destination := Some(Ascii("org.freedesktop.DBus")), path := Some(Ascii("/org/freedesktop/DBus")),
      interface := Some(Ascii("org.freedesktop.DBus")), member := Some(Ascii("Hello"))), [])

  /** The bytes send() writes for a message. */
  function Wire(s: Sent): bytes {
    LibrarySerialize(s.message.fixed.(serial := s.serial), s.message.header, s.message.body)
  }

  function NewConn(script: Script, acks: seq<bool>, plan: seq<seq<Outgoing>>): Conn {
    Conn(Connecting, [], [], 1, map[], [], None, FRESH, script, acks, plan, [], false, [], 0, [], [], [], false)
  }

  /** References inside the state lead somewhere; what a reader holds is between two reads. */
  predicate Sound(c: Conn) {
    && (forall s | s in c.replies :: c.replies[s] < |c.results|)
    && (c.hello.Some? ==> c.hello.value < |c.results|)
    && (forall i | 0 <= i < |c.results| :: c.results[i].Some? ==> c.results[i].value.pos <= |c.results[i].value.data|)
    && (c.state != Error ==> Unfinished(c.reading))
  }

  lemma SoundKept(c: Conn, d: Conn)
    requires Sound(c) && d.replies == c.replies && d.results == c.results && d.hello == c.hello
    requires d.reading == c.reading && (d.state != Error ==> c.state != Error)
    ensures Sound(d)
  {
    hide Unfinished;
  }

  /** The program stops here for good: undefined behaviour, or a search without end. */
  function Halt(c: Conn): Conn {
    c.(halted := true, reading := FRESH)
  }

  predicate Open(s: State) { s == GettingName || s == Connected }

  // ---------------------------------------------------------------- serials

  function Succ(n: u32): u32 { (n + 1) % TWO_32 }

  /** The serial `k` steps after `n`. */
  function Step(n: u32, k: nat): u32 { (n + k) % TWO_32 }

  /** Serials that follow each other for less than one turn are all different, so they all count. */
  lemma {:induction false} RunIsCounted(taken: set<u32>, n: u32, k: nat)
    requires k <= TWO_32
    requires forall j | 0 <= j < k :: Step(n, j) in taken
    ensures k <= |taken|
    decreases k
  {
    if k > 0 {
      var rest := taken - {Step(n, k - 1)};
      forall j | 0 <= j < k - 1 ensures Step(n, j) in rest {
        StepsDiffer(n, j, k - 1);
      }
      RunIsCounted(rest, n, k - 1);
    }
  }

  lemma StepsDiffer(n: u32, j: nat, k: nat)
    requires j < k < TWO_32
    ensures Step(n, j) != Step(n, k)
  {
    WrapOnce(n + j);
    WrapOnce(n + k);
  }

  lemma WrapOnce(v: nat)
    requires v < 2 * TWO_32
    ensures v % TWO_32 == if v < TWO_32 then v else v - TWO_32
  {
  }

  /** The search of send(): from `n` on, cyclically, the first serial not taken. */
  function FirstFree(taken: set<u32>, n: u32, tried: nat): (s: u32)
    requires |taken| < TWO_32 && tried < TWO_32
    requires forall j | 0 <= j < tried :: Step(n, j) in taken
    ensures s !in taken
    ensures exists k | tried <= k < TWO_32 :: s == Step(n, k) && forall j | 0 <= j < k :: Step(n, j) in taken
    decreases TWO_32 - tried
  {
    if Step(n, tried) !in taken then Step(n, tried)
    else
      assert tried + 1 < TWO_32 by { RunIsCounted(taken, n, tried + 1); }
      FirstFree(taken, n, tried + 1)
  }

  // ------------------------------------------------------------ writing, sending

  function Write(c: Conn, data: bytes): (Conn, bool) {
    var ok := c.acks == [] || c.acks[0];
    (c.(acks := if c.acks == [] then [] else c.acks[1..],
        written := if ok then c.written + [data] else c.written), ok)
  }

  /** send(): the serial is used up even when the write fails; with every serial taken the search never ends. */
  function Send(c: Conn, m: Outgoing): (r: (Conn, Option<nat>))
    requires Sound(c)
    ensures Sound(r.0) && (r.1.Some? ==> r.1.value < |r.0.results|)
  {
    if c.halted || !Open(c.state) then (c, None)
    else if |c.replies| >= TWO_32 then (Halt(c), None)
    else
      var serial := FirstFree(c.replies.Keys, c.nextSerial, 0);
      var sent := Sent(serial, m);
      var (w, ok) := Write(c.(nextSerial := Succ(serial), attempts := c.attempts + 1), Wire(sent));
      if !ok then (w, None)
      else
        (w.(replies := c.replies[serial := |c.results|], results := c.results + [None], log := c.log + [sent]),
         Some(|c.results|))
  }

  function SendAll(c: Conn, ms: seq<Outgoing>): (r: Conn)
    requires Sound(c)
    ensures Sound(r)
    decreases ms
  {
    if ms == [] then c else SendAll(Send(c, ms[0]).0, ms[1..])
  }

  /** The user's handlers run once: they send the next list of the plan. */
  function React(c: Conn): (r: Conn)
    requires Sound(c)
    ensures Sound(r)
  {
    if c.halted || c.plan == [] then c else SendAll(c.(plan := c.plan[1..]), c.plan[0])
  }

  /** A refused frame may leave its reader in any state; it is not read again after Error. */
  function UpdateState(c: Conn, s: State): (r: Conn)
    requires if c.halted || c.state == s then Sound(c) else Sound(c.(state := s))
    ensures Sound(r)
  {
    if c.halted || c.state == s then c else React(c.(state := s))
  }

  // ------------------------------------------------------------------ handshake

  /** startConnect; `reachable`: the kernel gave a connected socket. */
  function Start(c: Conn, reachable: bool, authLine: bytes): (r: Conn)
    requires Sound(c) && c.state == Connecting
    ensures Sound(r)
  {
    if !reachable then UpdateState(c, Error)
    else
      var (c1, ok1) := Write(c, NUL);
      if !ok1 then UpdateState(c1, Error)
      else
        var (c2, ok2) := Write(UpdateState(c1, Auth), authLine);
        if !ok2 then UpdateState(c2, Error) else c2
  }

  /** doAuth: byte by byte to the end of the line or of what has arrived. */
  function DoAuth(c: Conn): (r: Conn)
    requires Sound(c) && c.state == Auth
    ensures Sound(r)
    decreases Work(c.script)
  {
    ReadOnceTakes(c.script, 1);
    var (r, rest) := ReadOnce(c.script, 1);
    match r
    case WouldBlock => c.(script := rest)
    case Fault => UpdateState(c.(script := rest), Error)
    case Bytes(b) =>
      var c1 := c.(script := rest, line := c.line + [b[0]]);
      if b[0] != NEWLINE then
        DoAuth(if b[0] != RETURN then c1.(authData := c1.authData + [b[0]]) else c1)
      else Authenticated(c1)
  }

  function Authenticated(c: Conn): (r: Conn)
    requires Sound(c) && c.state == Auth
    ensures Sound(r)
  {
    if !(OK <= c.authData) then UpdateState(c, Error)
    else
      var (c1, ok) := Write(c, BEGIN);
      if !ok then UpdateState(c1, Error) else DoGetName(c1.(began := true))
  }

  /** The state changes, and its handlers run, before Hello is sent. */
  function DoGetName(c: Conn): (r: Conn)
    requires Sound(c) && c.state == Auth
    ensures Sound(r)
  {
    var (c1, reply) := Send(UpdateState(c, GettingName), HELLO);
    if reply.None? then UpdateState(c1, Error) else c1.(hello := reply)
  }

  // ------------------------------------------------------------------- messages

  function ReadData(c: Conn): (r: Conn)
    requires Sound(c)
    ensures Sound(r)
  {
    if c.halted then c
    else if c.state == Auth then DoAuth(c)
    else if !Open(c.state) then c
    else
      ReadFdTells(c.reading, c.script);
      FreshIsUnfinished();
      var (res, reading, script) := ReadFd(c.reading, c.script);
      match res
      case Success =>
        var m := Received(reading.fixed, reading.header, reading.data, reading.pos);
        HandleBusMsg(c.(script := script, reading := FRESH, frames := c.frames + [m]), m)
      case Failure => UpdateState(c.(script := script, reading := reading), Error)
      case WouldBlock => c.(script := script, reading := reading)
      case Crash => Halt(c.(script := script))
  }

  predicate IsReply(m: Received) { m.fixed.kind == METHOD_RETURN || m.fixed.kind == ERROR }

  function HandleBusMsg(c: Conn, m: Received): (r: Conn)
    requires Sound(c) && c.frames != [] && m.pos <= |m.data|
    ensures Sound(r)
  {
    if !IsReply(m) || m.header.replySerial.None? || m.header.replySerial.value !in c.replies then c
    else
      var serial := m.header.replySerial.value;
      var c1 := SetMessage(c, c.replies[serial], m);
      if c1.halted then c1 else c1.(replies := c1.replies - {serial})
  }

  /** setMessage: a reply object takes one message and then emits Finished. */
  function SetMessage(c: Conn, id: nat, m: Received): (r: Conn)
    requires Sound(c) && c.frames != [] && id < |c.results| && m.pos <= |m.data|
    ensures Sound(r)
  {
    if c.results[id].Some? then c
    else
      EmitFinished(c.(results := c.results[id := Some(m)],
                  finished := c.finished + [Completion(id, |c.frames| - 1)]), id)
  }

  /**
   * Finished on the reply to Hello runs the connection's own handler, on any
   * other reply the user's.  The reply has its message by then, so the
   * handler never finds it missing.
   */
  function EmitFinished(c: Conn, id: nat): (r: Conn)
    requires Sound(c) && id < |c.results| && c.results[id].Some?
    ensures Sound(r)
  {
    if c.hello != Some(id) then React(c)
    else if c.state != GettingName then c
    else HandleName(c, id, c.results[id].value)
  }

  /** The reader of a stored message moves as its body is read. */
  function AdvanceResult(c: Conn, id: nat, p: nat): (r: Conn)
    requires Sound(c) && id < |c.results| && c.results[id].Some? && p <= |c.results[id].value.data|
    ensures Sound(r)
  {
    c.(results := c.results[id := Some(c.results[id].value.(pos := p))])
  }

  /** handleGetNameRespone. */
  function HandleName(c: Conn, id: nat, m: Received): (r: Conn)
    requires Sound(c) && c.state == GettingName && id < |c.results| && c.results[id] == Some(m)
    ensures Sound(r)
  {
    if m.fixed.kind == ERROR then UpdateState(c, Error)
    else
      StringCursor(m.data, m.pos, LITTLE);
      match GetString(m.data, m.pos, LITTLE)
      case Got(name, p) => UpdateState(AdvanceResult(c.(serviceName := name), id, p), Connected)
      case Miss(p) => UpdateState(AdvanceResult(c, id, p), Error)
      case Overrun => Halt(c)
  }

  // ----------------------------------------------------------------------- runs

  datatype Action = Readable | UserSend(message: Outgoing)

  function Act(c: Conn, a: Action): (r: Conn)
    requires Sound(c)
    ensures Sound(r)
  {
    match a
    case Readable => ReadData(c)
    case UserSend(m) => Send(c, m).0
  }

  function Run(c: Conn, actions: seq<Action>): (r: Conn)
    requires Sound(c)
    ensures Sound(r)
    decreases actions
  {
    if actions == [] then c else Run(Act(c, actions[0]), actions[1..])
  }

  lemma NewIsSound(script: Script, acks: seq<bool>, plan: seq<seq<Outgoing>>)
    ensures Sound(NewConn(script, acks, plan))
  {
    FreshIsUnfinished();
  }

  /** A whole life of a connection: construction, then any actions. */
  function Life(script: Script, acks: seq<bool>, plan: seq<seq<Outgoing>>, reachable: bool, authLine: bytes,
                actions: seq<Action>): (r: Conn)
    ensures Sound(r)
  {
    NewIsSound(script, acks, plan);
    Run(Start(NewConn(script, acks, plan), reachable, authLine), actions)
  }
}
