/** What the invariants say to a user of the connection. */
module ConnectionTheorems {
  import opened Basics
  import opened ByteOrder
  import opened Fields
  import opened Messages
  import opened Sockets
  import opened Framing
  import opened ConnectionModel
  import opened ConnectionProofs
  import opened ConnectionRuns

  // ----------------------------------------------------------- requests and replies

  /** Request `i` is waiting: its reply object is empty and in the table under its serial. */
  ghost predicate Outstanding(c: Conn, i: nat) {
    i < |c.log| && i < |c.results| && c.results[i].None?
    && c.log[i].serial in c.replies && c.replies[c.log[i].serial] == i
  }

  /** Request `i` was answered by a frame that names its serial, and nothing in the table leads to it. */
  ghost predicate Answered(c: Conn, i: nat) {
    i < |c.log| && i < |c.results| && c.results[i].Some?
    && (exists k | 0 <= k < |c.finished| ::
          c.finished[k].reply == i && c.finished[k].frame < |c.frames|
          && SameMessage(c.results[i].value, c.frames[c.finished[k].frame])
          && Answers(c.frames[c.finished[k].frame], c.log[i].serial))
    && (forall s | s in c.replies :: c.replies[s] != i)
  }

  /** Requests and replies: each request waits or was answered, by an injective table of empty replies, once each. */
  ghost predicate Correlated(c: Conn) {
    && |c.log| == |c.results|
    && (forall i | 0 <= i < |c.log| :: Outstanding(c, i) != Answered(c, i))
    && (forall s, t | s in c.replies && t in c.replies && s != t :: c.replies[s] != c.replies[t])
    && (forall s | s in c.replies :: c.replies[s] < |c.results| && c.results[c.replies[s]].None?)
    && (forall j, k | 0 <= j < k < |c.finished| :: c.finished[j].reply != c.finished[k].reply)
  }

  /**
   * Reply correlation, in every life: each request that was written is either
   * waiting or answered, the table leads to different reply objects for
   * different serials, all of them empty, and no reply finished twice.
   */
  lemma ReplyCorrelation(c: Conn, authLine: bytes, all: bytes)
    requires Steady(c, authLine, all) && !c.halted
    ensures Correlated(c)
  {
    hide Input, Unfinished, Serials, Output, Login, Greeting, SameMessage, Answers;
    forall i | 0 <= i < |c.log|
      ensures Outstanding(c, i) != Answered(c, i)
    {
      if c.results[i].Some? {
        var k :| 0 <= k < |c.finished| && c.finished[k].reply == i;
        assert c.finished[k].frame < |c.frames|;
      }
    }
  }

  ghost function SentSerials(c: Conn): set<u32> {
    set i | 0 <= i < |c.log| :: c.log[i].serial
  }

  ghost function AnsweredSerials(c: Conn): set<u32> {
    set k | 0 <= k < |c.finished| && c.finished[k].reply < |c.log| :: c.log[c.finished[k].reply].serial
  }

  /** The serials sent are those in the table and those answered, and none is both. */
  ghost predicate Partitioned(c: Conn) {
    SentSerials(c) == c.replies.Keys + AnsweredSerials(c) && c.replies.Keys !! AnsweredSerials(c)
  }

  /** A serial that was sent is in the table or was answered. */
  lemma SentIsKnown(c: Conn, i: nat)
    requires Table(c.replies, c.results, c.log, None) && History(c.results, c.log, c.frames, c.finished)
    requires i < |c.log|
    ensures c.log[i].serial in c.replies || c.log[i].serial in AnsweredSerials(c)
  {
    hide SameMessage, Answers;
    if c.results[i].Some? {
      var k :| 0 <= k < |c.finished| && c.finished[k].reply == i;
      assert c.log[c.finished[k].reply].serial in AnsweredSerials(c);
    }
  }

  /** Before the wrap a serial in the table was not answered. */
  lemma EntryIsUnanswered(c: Conn, s: u32)
    requires Table(c.replies, c.results, c.log, None) && History(c.results, c.log, c.frames, c.finished)
    requires Serials(c.log, c.attempts, c.nextSerial) && c.attempts < TWO_32 && s in c.replies
    ensures s !in AnsweredSerials(c)
  {
    hide SameMessage, Answers, Serials;
    var i := c.replies[s];
    assert c.log[i].serial == s;
    forall k | 0 <= k < |c.finished|
      ensures c.log[c.finished[k].reply].serial != s
    {
      SerialsDiffer(c.log, c.attempts, c.nextSerial, i, c.finished[k].reply);
    }
  }

  /** In every life, wrapped or not: the serials sent are those in the table and those answered. */
  lemma SerialsCovered(c: Conn, authLine: bytes, all: bytes)
    requires Steady(c, authLine, all) && !c.halted
    ensures SentSerials(c) == c.replies.Keys + AnsweredSerials(c)
  {
    hide Input, Unfinished, Table, History, Serials, Output, Login, Greeting;
    forall i | 0 <= i < |c.log|
      ensures c.log[i].serial in c.replies || c.log[i].serial in AnsweredSerials(c)
    {
      SentIsKnown(c, i);
    }
    forall s | s in c.replies
      ensures s in SentSerials(c)
    {
      EntryIsSent(c, s);
    }
  }

  lemma EntryIsSent(c: Conn, s: u32)
    requires Table(c.replies, c.results, c.log, None) && s in c.replies
    ensures s in SentSerials(c)
  {
    assert c.log[c.replies[s]].serial == s;
  }

  /** Before the counter wraps: no serial is both in the table and answered. */
  lemma SerialsPartition(c: Conn, authLine: bytes, all: bytes)
    requires Steady(c, authLine, all) && !c.halted && c.attempts < TWO_32
    ensures Partitioned(c)
  {
    hide Input, Unfinished, Table, History, Serials, Output, Login, Greeting, SentSerials, AnsweredSerials;
    SerialsCovered(c, authLine, all);
    forall s | s in c.replies
      ensures s !in AnsweredSerials(c)
    {
      EntryIsUnanswered(c, s);
    }
  }

  /**
   * After it has wrapped, what a send does to that: the partition is kept
   * exactly when the serial it takes, the first free one, has not been
   * answered before.
   */
  lemma SendKeepsPartition(c: Conn, m: Outgoing, authLine: bytes, all: bytes)
    requires Steady(c, authLine, all) && !c.halted && |c.replies| < TWO_32
    ensures var (d, id) := Send(c, m);
      id.Some? ==>
        (Partitioned(d) <==> Partitioned(c) && FirstFree(c.replies.Keys, c.nextSerial, 0) !in AnsweredSerials(c))
  {
    hide Inv, Input, Waiting, Sound, SentSerials, AnsweredSerials, Send, FirstFree;
    var (d, id) := Send(c, m);
    if c.halted || !Open(c.state) { SendRefused(c, m); } else { SendTakes(c, m); }
    if id.Some? {
      SerialsCovered(c, authLine, all);
      ActKeeps(c, UserSend(m), authLine, all);
      SerialsCovered(d, authLine, all);
      SameAnswered(c, d, authLine, all);
    }
  }

  lemma SameAnswered(c: Conn, d: Conn, authLine: bytes, all: bytes)
    requires Steady(c, authLine, all) && c.log <= d.log && d.finished == c.finished
    ensures AnsweredSerials(d) == AnsweredSerials(c)
  {
    hide Table, Serials, Output, Login, Greeting, Input, Waiting, Unfinished, SameMessage, Answers;
    var busy :| Inv(c, authLine, busy);
    assert forall k | 0 <= k < |c.finished| :: c.finished[k].reply < |c.log|;
  }

  lemma SerialsDiffer(log: seq<Sent>, attempts: nat, nextSerial: u32, i: nat, j: nat)
    requires Serials(log, attempts, nextSerial) && attempts < TWO_32
    requires i < |log| && j < |log| && i != j
    ensures log[i].serial != log[j].serial
  {
    if i < j {
      assert log[i].serial < log[j].serial;
    } else {
      assert log[j].serial < log[i].serial;
    }
  }

  /**
   * The next frame changes nothing exactly when it answers no entry of the
   * table: it is no reply, or a reply nobody waits for; while no answered
   * serial is in use again, as before the counter wraps, a second answer to a
   * finished request is among these.
   */
  lemma StrayReplyIgnored(c: Conn, authLine: bytes, all: bytes, m: Received, script: Script)
    requires Steady(c, authLine, all) && !c.halted && Open(c.state) && m.pos <= |m.data|
    ensures var c1 := c.(script := script, reading := FRESH, frames := c.frames + [m]);
      Sound(c1)
      && (HandleBusMsg(c1, m) == c1 <==> forall s | s in c.replies :: !Answers(m, s))
      && (Partitioned(c) || c.attempts < TWO_32 ==>
            forall s | s in AnsweredSerials(c) && Answers(m, s) :: HandleBusMsg(c1, m) == c1)
  {
    hide Inv, Input, Waiting, Sound, HandleBusMsg, Handled, Arrived, AnsweredSerials;
    FreshIsUnfinished();
    var c1 := c.(script := script, reading := FRESH, frames := c.frames + [m]);
    FrameArrives(c, authLine, m, c1);
    ArrivedIsSound(c1, authLine, m);
    HandleKeeps(c1, authLine, m);
    if c.attempts < TWO_32 { SerialsPartition(c, authLine, all); }
  }

  /**
   * Re-entrance: whatever the handlers of a finished reply send, the erase
   * that follows takes away the answered entry only.
   */
  lemma EraseIsExact(c: Conn, authLine: bytes, m: Received, s: u32)
    requires Arrived(c, authLine, m) && Answers(m, s) && s in c.replies
    ensures var d, e := SetMessage(c, c.replies[s], m), HandleBusMsg(c, m);
      c.results[c.replies[s]].None?
      && s in d.replies && d.replies[s] == c.replies[s]
      && (d.halted ==> e == d)
      && (!d.halted ==>
            (e == d.(replies := d.replies - {s}) && s !in e.replies
             && (forall t | t in c.replies && t != s :: t in e.replies && e.replies[t] == c.replies[t])
             && e.finished == c.finished + [Completion(c.replies[s], |c.frames| - 1)]))
  {
    hide Arrived, Inv, SetMessage, Handled;
    assert Sound(c) && c.frames != [] && m.pos <= |m.data| by { ArrivedIsSound(c, authLine, m); }
    CompletionKeeps(c, authLine, m, s);
  }

  lemma ArrivedIsSound(c: Conn, authLine: bytes, m: Received)
    requires Arrived(c, authLine, m)
    ensures Sound(c) && c.frames != [] && m.pos <= |m.data|
  {
    hide Inv, Sound, History;
  }

  // ------------------------------------------------------------------------ serials

  /**
   * Every send that gets a serial gets the first free one, counting up from
   * the next serial modulo 2^32, and overwrites no entry; before the counter
   * wraps that is the number of the attempt, and the search never moves.
   */
  lemma SendTakesFirstFree(c: Conn, m: Outgoing, authLine: bytes, all: bytes)
    requires Steady(c, authLine, all) && !c.halted && Open(c.state) && |c.replies| < TWO_32
    ensures var (d, id) := Send(c, m);
      d.attempts == c.attempts + 1
      && (c.attempts < TWO_32 - 1 ==> d.nextSerial == (c.attempts + 2) % TWO_32)
      && (id.Some? ==>
            d.log == c.log + [Sent(d.log[|c.log|].serial, m)] && d.log[|c.log|].serial !in c.replies
            && d.replies == c.replies[d.log[|c.log|].serial := id.value] && id.value == |c.results|
            && (exists k | 0 <= k < TWO_32 ::
                  d.log[|c.log|].serial == Step(c.nextSerial, k)
                  && forall j | 0 <= j < k :: Step(c.nextSerial, j) in c.replies)
            && (c.attempts < TWO_32 - 1 ==> d.log[|c.log|].serial == c.attempts + 1))
  {
    hide Wire, Inv, Input, Sound, Send, FirstFree;
    SendTakes(c, m);
    assert FirstFree(c.replies.Keys, c.nextSerial, 0) !in c.replies.Keys;
    if c.attempts < TWO_32 - 1 {
      NextIsFree(c, authLine, None);
      FirstIsNext(c.replies.Keys, c.nextSerial);
    }
  }

  /** A search from `n` up that ends after `k` steps: when it ends at 0. */
  lemma EndsAtZero(taken: set<u32>, n: u32, k: nat)
    requires 0 < n && k < TWO_32
    requires Step(n, k) !in taken && forall j | 0 <= j < k :: Step(n, j) in taken
    ensures Step(n, k) == 0 <==> 0 !in taken && forall s: u32 | n <= s :: s in taken
  {
    if Step(n, k) == 0 {
      forall s: u32 | n <= s
        ensures s in taken
      {
        assert Step(n, s - n) == s;
      }
    } else if 0 !in taken {
      assert Step(n, TWO_32 - n) == 0;
      assert Step(n, k) == n + k;
    }
  }

  /** Serial 0 is the first free one exactly when it is free and all from the start up to 2^32 - 1 are taken. */
  lemma FirstFreeIsZero(taken: set<u32>, n: u32)
    requires |taken| < TWO_32
    ensures FirstFree(taken, n, 0) == 0 <==> 0 !in taken && (n == 0 || forall s: u32 | n <= s :: s in taken)
  {
    if n == 0 {
      if 0 !in taken { FirstIsNext(taken, 0); }
    } else {
      hide FirstFree;
      var r := FirstFree(taken, n, 0);
      assert r !in taken;
      var k :| 0 <= k < TWO_32 && r == Step(n, k) && forall j | 0 <= j < k :: Step(n, j) in taken;
      EndsAtZero(taken, n, k);
    }
  }

  /**
   * When a message gets serial 0: on every connection that may send, exactly
   * when 0 is free and the counter has come round to it, or finds every serial
   * from where it stands up to 2^32 - 1 taken.
   */
  lemma ZeroSerial(c: Conn, m: Outgoing)
    requires Sound(c) && !c.halted && Open(c.state) && |c.replies| < TWO_32
    ensures var (d, id) := Send(c, m);
      var zero := 0 !in c.replies && (c.nextSerial == 0 || forall s: u32 | c.nextSerial <= s :: s in c.replies);
      (d.nextSerial == 1 <==> zero)
      && (id.Some? ==> |d.log| == |c.log| + 1 && (d.log[|c.log|].serial == 0 <==> zero))
  {
    hide Sound, Wire, FirstFree;
    FirstFreeIsZero(c.replies.Keys, c.nextSerial);
  }

  /** The first time: the send after 2^32 - 1 attempts gets serial 0, and the order starts over. */
  lemma WrapGivesZero(c: Conn, m: Outgoing, authLine: bytes, all: bytes)
    requires Steady(c, authLine, all) && !c.halted && Open(c.state) && |c.replies| < TWO_32
    requires c.attempts == TWO_32 - 1
    ensures var (d, id) := Send(c, m); id.Some? ==> d.log[|c.log|].serial == 0
  {
    hide Wire, Input, Sound, History, Output, Login, Greeting;
    FirstIsNext(c.replies.Keys, c.nextSerial);
  }

  function AllSerials(n: nat): (all: set<int>)
    ensures |all| == n
    ensures forall x :: x in all <==> 0 <= x < n
  {
    if n == 0 then {} else AllSerials(n - 1) + {n - 1}
  }

  lemma {:induction false} SubsetSize<T>(a: set<T>, b: set<T>)
    requires a <= b
    ensures |a| <= |b|
    decreases |a|
  {
    if |a| != 0 {
      var x :| x in a;
      SubsetSize(a - {x}, b - {x});
    }
  }

  lemma NotAllTaken(taken: set<u32>, free: u32)
    requires free !in taken
    ensures |taken| < TWO_32
  {
    hide AllSerials;
    var others := AllSerials(TWO_32) - {free};
    assert forall s | s in taken :: s in others;
    SubsetSize(taken, others);
  }

  /** From any start, the search of send() ends exactly when some serial is not taken. */
  lemma SearchEndsUnlessFull(taken: set<u32>, n: u32)
    ensures |taken| < TWO_32 <==> exists k | 0 <= k < TWO_32 :: Step(n, k) !in taken
  {
    if k :| 0 <= k < TWO_32 && Step(n, k) !in taken {
      NotAllTaken(taken, Step(n, k));
    } else {
      RunIsCounted(taken, n, TWO_32);
    }
  }

  // ------------------------------------------------------------- what goes out, comes in

  predicate Increasing(log: seq<Sent>) {
    forall i, j | 0 <= i < j < |log| :: 0 < log[i].serial < log[j].serial
  }

  /**
   * Output, in every life: nothing, the NUL, the authentication line, BEGIN,
   * in this order, and after BEGIN whole serialised messages, each with the
   * serial it was given; before the counter wraps these serials increase.
   */
  lemma OutputShape(c: Conn, authLine: bytes, all: bytes)
    requires Steady(c, authLine, all)
    ensures c.written <= [NUL, authLine, BEGIN] + Wires(c.log)
    ensures |c.written| >= 3 || c.log != [] ==> c.written == [NUL, authLine, BEGIN] + Wires(c.log)
    ensures c.attempts < TWO_32 ==> Increasing(c.log)
  {
    hide Table, History, Login, Greeting, Input, Unfinished, Wires, Waiting;
    var busy :| Inv(c, authLine, busy);
  }

  /** `bs` begins with the fixed header of `m`, its serial being `serial`, in the byte order of `m`. */
  predicate Carries(bs: bytes, serial: u32, m: Outgoing) {
    |bs| >= 16
    && bs[0] == m.fixed.endian && bs[1] == m.fixed.kind && bs[2] == m.fixed.flags && bs[3] == m.fixed.version
    && bs[8..12] == ToWire(serial, 4, m.fixed.endian)
  }

  /** After the handshake, one write for each message of the log, each under its own serial. */
  predicate WrittenOut(c: Conn) {
    |c.written| == 3 + |c.log|
    && forall i | 0 <= i < |c.log| :: Carries(c.written[3 + i], c.log[i].serial, c.log[i].message)
  }

  lemma WireCarries(s: Sent)
    ensures Carries(Wire(s), s.serial, s.message)
  {
    hide PutFixed, ToWire, HeaderArray;
    var fields, body := HeaderArray(s.message.header, Library, LITTLE), s.message.body;
    var f := s.message.fixed.(serial := s.serial, bodyLen := |body| % TWO_32, fieldsLen := |fields| % TWO_32);
    assert Wire(s) == Assemble(f, fields, body);
    assert At(Wire(s), 0, Wire(s));
    AssembledParts(Wire(s), f, fields, body);
    FixedParts(Wire(s), f);
  }

  /** In every life: what is on the wire for a request carries the serial under which its reply is awaited. */
  lemma WrittenCarries(c: Conn, authLine: bytes, all: bytes)
    requires Steady(c, authLine, all) && c.began
    ensures WrittenOut(c)
  {
    hide Table, History, Serials, Login, Greeting, Input, Unfinished, Waiting, Wire, Carries, BEGIN;
    var busy :| Inv(c, authLine, busy);
    forall i | 0 <= i < |c.log|
      ensures Carries(c.written[3 + i], c.log[i].serial, c.log[i].message)
    {
      WireCarries(c.log[i]);
      assert c.written[3 + i] == Wires(c.log)[i] == Wire(c.log[i]);
    }
  }

  /** A message the library itself could read back: of version 1, not big-endian, and no length is cut. */
  predicate Readable(m: Outgoing) {
    m.fixed.version == 1 && m.fixed.endian != BIG
    && LibraryFits(m.header, HeaderArray(m.header, Library, LITTLE), m.body)
  }

  lemma WireReads(s: Sent, rest: bytes)
    requires Readable(s.message)
    ensures var n := NextFrame(Wire(s) + rest);
      n.Frame? && n.rest == rest && n.message.pos <= |n.message.data|
      && RecordOf(n.message) == Message(s.message.fixed.endian, s.message.fixed.kind, s.message.fixed.flags,
                                        s.serial, s.message.header, s.message.body)
  {
    hide PutFixed, GetFixed, HeaderArray, LibraryParse, FrameSize, ShortSignature;
    var fields, body := HeaderArray(s.message.header, Library, LITTLE), s.message.body;
    var f := s.message.fixed.(serial := s.serial, bodyLen := |body| % TWO_32, fieldsLen := |fields| % TWO_32);
    var data := Wire(s);
    assert data == Assemble(f, fields, body);
    LibraryReads(f, s.message.header, body, Library);
    assert At(data, 0, data);
    AssembledParts(data, f, fields, body);
    FixedRoundTrip(data, f);
    SameFixed(data, rest);
    assert FrameSize(f.(valid := true)) == FrameSize(f) by { SizeIgnoresValid(f); }
    assert (data + rest)[..|data|] == data && (data + rest)[|data|..] == rest;
    assert data[|data| - |body|..] == body;
  }

  lemma SizeIgnoresValid(f: Fixed)
    ensures FrameSize(f.(valid := true)) == FrameSize(f)
  {
  }

  /** Who frames the output as the library does finds in each write that message, under that serial, alone. */
  lemma WrittenReads(c: Conn, i: nat, rest: bytes, authLine: bytes, all: bytes)
    requires Steady(c, authLine, all) && c.began && i < |c.log| && Readable(c.log[i].message)
    ensures |c.written| == 3 + |c.log|
    ensures var n, m := NextFrame(c.written[3 + i] + rest), c.log[i].message;
      n.Frame? && n.rest == rest && n.message.pos <= |n.message.data|
      && RecordOf(n.message)
         == Message(m.fixed.endian, m.fixed.kind, m.fixed.flags, c.log[i].serial, m.header, m.body)
  {
    hide Table, History, Serials, Login, Greeting, Input, Unfinished, Waiting, Wire, Readable, NextFrame, BEGIN,
         RecordOf;
    var busy :| Inv(c, authLine, busy);
    WireReads(c.log[i], rest);
    assert c.written[3 + i] == Wires(c.log)[i] == Wire(c.log[i]);
  }

  /** OK was received, BEGIN went out, and a frame that is no error answered Hello with the name now held. */
  ghost predicate Greeted(c: Conn, authLine: bytes) {
    && OK <= c.authData && [NUL, authLine, BEGIN] <= c.written
    && c.hello.Some? && c.hello.value < |c.log| && c.log[c.hello.value].message == HELLO
    && exists k | 0 <= k < |c.finished| ::
         c.finished[k].reply == c.hello.value && c.finished[k].frame < |c.frames|
         && NameIn(c.frames[c.finished[k].frame], c.serviceName)
         && Answers(c.frames[c.finished[k].frame], c.log[c.hello.value].serial)
  }

  /** Connected: the server said OK, BEGIN went out, and Hello was answered, without error, by the name now held. */
  lemma ConnectedMeans(c: Conn, authLine: bytes, all: bytes)
    requires Steady(c, authLine, all) && c.state == Connected
    ensures Greeted(c, authLine)
  {
    hide Table, Serials, Input, Unfinished, Wires, Waiting, NameIn, Answers, SameMessage;
    var busy :| Inv(c, authLine, busy);
  }

  /** Whatever happens, the state never goes back, and Error is for good. */
  lemma StateOnlyMovesForward(c: Conn, actions: seq<Action>, authLine: bytes, all: bytes)
    requires Steady(c, authLine, all)
    ensures Rank(c.state) <= Rank(Run(c, actions).state)
    ensures c.state == Error ==> Run(c, actions).state == Error
  {
    hide Steady, Run;
    RunKeeps(c, actions, authLine, all);
  }

  /** Position of the first newline, or the end. */
  function LineEnd(s: bytes): (n: nat)
    ensures n <= |s|
  {
    if s == [] || s[0] == NEWLINE then 0 else 1 + LineEnd(s[1..])
  }

  lemma {:induction false} LineEndIs(line: bytes, rest: bytes)
    requires NEWLINE !in line
    ensures LineEnd(line + [NEWLINE] + rest) == |line|
    decreases line
  {
    var s := line + [NEWLINE] + rest;
    if line != [] {
      assert s[0] == line[0];
      assert s[1..] == line[1..] + [NEWLINE] + rest;
      LineEndIs(line[1..], rest);
    }
  }

  /**
   * What is kept is the line without its newline and its carriage returns;
   * the line is the input up to the first newline, or as much of that as has
   * been read; the frames are those of the stream that starts behind it.
   */
  ghost predicate HandedOver(c: Conn, all: bytes) {
    var n := LineEnd(all);
    && c.authData == NoReturns(Front(c.line))
    && (if LineDone(c.line) then n < |all| && c.line == all[..n + 1] && c.frames <= Frames(all[n + 1..])
        else c.line <= all[..n] && c.frames == [])
    && (c.began ==> LineDone(c.line))
  }

  lemma {:induction false} LineEndOpen(line: bytes, rest: bytes)
    requires NEWLINE !in line
    ensures |line| <= LineEnd(line + rest)
    decreases line
  {
    if line != [] {
      assert (line + rest)[1..] == line[1..] + rest;
      LineEndOpen(line[1..], rest);
    }
  }

  /**
   * Authentication handover, independent of how the input was cut, whether
   * the line is accepted, refused, still being read or broken off, and
   * whether BEGIN could be written.
   */
  lemma AuthHandover(c: Conn, authLine: bytes, all: bytes)
    requires Steady(c, authLine, all)
    ensures HandedOver(c, all)
  {
    hide Table, History, Serials, Output, Greeting, Unfinished, Frames, Leftover, NoReturns;
    var busy :| Inv(c, authLine, busy);
    var line, rest := Front(c.line), all[|c.line|..];
    assert all == c.line + rest;
    if LineDone(c.line) {
      assert c.line == line + [NEWLINE];
      LineEndIs(line, rest);
      assert all[..|line|] == line && all[..|line| + 1] == c.line;
    } else {
      LineEndOpen(line, rest);
    }
  }

  /** No input byte is lost or read twice on a connection that has not failed. */
  lemma InputConserved(c: Conn, authLine: bytes, all: bytes)
    requires Steady(c, authLine, all) && c.state != Error && !c.halted
    ensures all == c.line + (Datas(c.frames) + (c.reading.data + Pending(c.script)))
    ensures Unfinished(c.reading)
  {
    hide Inv, Frames, Leftover, Pending, Datas, Unfinished;
  }

  lemma {:induction false} RunAppend(c: Conn, actions: seq<Action>, more: seq<Action>)
    requires Sound(c)
    ensures Run(c, actions + more) == Run(Run(c, actions), more)
    decreases actions
  {
    hide Act, Sound;
    if actions == [] {
      assert actions + more == more;
    } else {
      assert (actions + more)[1..] == actions[1..] + more;
      RunAppend(Act(c, actions[0]), actions[1..], more);
    }
  }

  /** A life that goes on: its state has only moved forward. */
  lemma LifeGoesOn(script: Script, acks: seq<bool>, plan: seq<seq<Outgoing>>, reachable: bool,
                   authLine: bytes, actions: seq<Action>, more: seq<Action>)
    ensures var c, d := Life(script, acks, plan, reachable, authLine, actions),
                        Life(script, acks, plan, reachable, authLine, actions + more);
      d == Run(c, more) && Rank(c.state) <= Rank(d.state) && (c.state == Error ==> d.state == Error)
  {
    hide Steady, Run, Start, Sound;
    NewIsSound(script, acks, plan);
    RunAppend(Start(NewConn(script, acks, plan), reachable, authLine), actions, more);
    LifeKeeps(script, acks, plan, reachable, authLine, actions);
    StateOnlyMovesForward(Life(script, acks, plan, reachable, authLine, actions), more, authLine, Pending(script));
  }

  /**
   * In one place, for every life and however it goes on: output, correlation,
   * serials, the handover from line to frames, conservation of input, what
   * Connected means, and that the state only moves forward.
   */
  lemma EveryLife(script: Script, acks: seq<bool>, plan: seq<seq<Outgoing>>, reachable: bool,
                  authLine: bytes, actions: seq<Action>, more: seq<Action>)
    ensures var c, all := Life(script, acks, plan, reachable, authLine, actions), Pending(script);
      && c.written <= [NUL, authLine, BEGIN] + Wires(c.log)
      && (|c.written| >= 3 || c.log != [] ==> c.written == [NUL, authLine, BEGIN] + Wires(c.log))
      && (c.began ==> WrittenOut(c)) && (c.attempts < TWO_32 ==> Increasing(c.log))
      && (!c.halted ==> Correlated(c) && SentSerials(c) == c.replies.Keys + AnsweredSerials(c))
      && (!c.halted && c.attempts < TWO_32 ==> Partitioned(c))
      && HandedOver(c, all)
      && (c.state == Connected ==> Greeted(c, authLine))
      && (c.state != Error && !c.halted ==>
            Unfinished(c.reading) && all == c.line + (Datas(c.frames) + (c.reading.data + Pending(c.script))))
      && Rank(c.state) <= Rank(Life(script, acks, plan, reachable, authLine, actions + more).state)
  {
    hide Steady, Life, Wires, WrittenOut, Outstanding, Answered, Frames, LineEnd, HELLO, Increasing, Run, SentSerials,
         AnsweredSerials, NameIn, Answers, NoReturns, Datas, Pending, Unfinished;
    var c, all := Life(script, acks, plan, reachable, authLine, actions), Pending(script);
    LifeKeeps(script, acks, plan, reachable, authLine, actions);
    OutputShape(c, authLine, all);
    if c.began { WrittenCarries(c, authLine, all); }
    if !c.halted {
      ReplyCorrelation(c, authLine, all);
      SerialsCovered(c, authLine, all);
    }
    if !c.halted && c.attempts < TWO_32 { SerialsPartition(c, authLine, all); }
    if !c.halted && c.state != Error { InputConserved(c, authLine, all); }
    AuthHandover(c, authLine, all);
    if c.state == Connected { ConnectedMeans(c, authLine, all); }
    LifeGoesOn(script, acks, plan, reachable, authLine, actions, more);
  }
}
