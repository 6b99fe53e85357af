/**
 * Framing: the resumable readFd of the library, which may stop at any byte,
 * against the frames of the undivided byte stream.
 */
module Framing {
  import opened Basics
  import opened ByteOrder
  import opened Fields
  import opened Messages
  import opened Sockets

  datatype ReadRes = Success | Failure | WouldBlock | Crash

  /** The parts of a message object that readFd works on. */
  datatype Reading = Reading(fixed: Fixed, header: Header, done: bool, data: bytes, pos: nat)

  const FRESH := Reading(NEW_FIXED, NO_FIELDS, false, [], 0)

  /** A message object between two calls of readFd that ask for more bytes. */
  predicate InProgress(r: Reading) {
    r.header == NO_FIELDS && !r.done
    && if r.fixed.valid then r.pos == 16 && |r.data| >= 16 && r.fixed == GetFixed(r.data)
       else r.fixed == NEW_FIXED && r.pos == 0 && |r.data| < 16
  }

  /** Bytes the library takes for a frame: never less than the fixed header it has read already. */
  function FrameLength(f: Fixed): nat {
    if FrameSize(f) < 16 then 16 else FrameSize(f)
  }

  // ------------------------------------------------------------------- readFd

  /** unsureHasData: nothing is read when the buffer holds enough. */
  function TopUp(data: bytes, script: Script, n: nat): Filled {
    if |data| >= n then Filled(true, data, script)
    else
      var f := Fill(script, n - |data|);
      f.(data := data + f.data)
  }

  function Reset(r: Reading): Reading { r.(data := [], pos := 0) }

  /** One call of readFd. */
  function ReadFd(r: Reading, script: Script): (ReadRes, Reading, Script)
    requires InProgress(r)
  {
    var a := TopUp(r.data, script, 16);
    if !a.ok then (Failure, Reset(r), a.rest)
    else if |a.data| < 16 then (ReadRes.WouldBlock, r.(data := a.data), a.rest)
    else
      var fixed := if r.fixed.valid then r.fixed else GetFixed(a.data);
      if !fixed.valid then (Failure, Reset(r).(fixed := fixed), a.rest)
      else ReadRest(r.(fixed := fixed, data := a.data, pos := 16), a.rest)
  }

  /** The rest of the call, once the fixed header is there. */
  function ReadRest(r: Reading, script: Script): (ReadRes, Reading, Script)
    requires InProgress(r) && r.fixed.valid
  {
    var b := TopUp(r.data, script, FrameSize(r.fixed));
    if !b.ok then (Failure, Reset(r), b.rest)
    else if |b.data| < FrameSize(r.fixed) then (ReadRes.WouldBlock, r.(data := b.data), b.rest)
    else
      match LibraryParse(b.data)
      case Undefined => (Crash, r.(data := b.data), b.rest)
      case Failed => (Failure, FailedHeader(r.(data := b.data)), b.rest)
      case Done(m) => (Success, Reading(m.fixed, m.header, true, m.data, m.pos), b.rest)
  }

  /** A refused header array leaves behind the fields stored before it was refused. */
  function FailedHeader(r: Reading): Reading
    requires |r.data| >= 16
  {
    var loop := GetFields(r.data, 16, HeaderEnd(r.fixed), LITTLE, Library);
    Reset(r).(header := StoreAll(NO_FIELDS, loop.fields))
  }

  // --------------------------------------------------------- undivided streams

  /** What a byte stream starts with, seen whole. */
  datatype Next = NeedMore | Frame(message: Received, rest: bytes) | Bad | Lost

  function NextFrame(s: bytes): (n: Next)
    ensures n.Frame? ==> |n.rest| < |s|
  {
    if |s| < 16 then NeedMore
    else
      var fixed := GetFixed(s);
      if !fixed.valid then Bad
      else if |s| < FrameLength(fixed) then NeedMore
      else
        match LibraryParse(s[..FrameLength(fixed)])
        case Failed => Bad
        case Undefined => Lost
        case Done(m) => Frame(m, s[FrameLength(fixed)..])
  }

  /** A stream is lost exactly when a whole frame is there whose last field read is overlong. */
  lemma LostExactly(s: bytes)
    ensures NextFrame(s).Lost? <==>
            |s| >= 16 && GetFixed(s).valid && |s| >= FrameLength(GetFixed(s))
            && var data := s[..FrameLength(GetFixed(s))];
               match LastField(data, 16, HeaderEnd(GetFixed(s)), LITTLE, Library)
               case Some(p) => OverlongText(data, p, LITTLE)
               case None => false
  {
    hide GetFields, GetFixed, StoreAll, LastField, OverlongText;
    if |s| >= 16 && |s| >= FrameLength(GetFixed(s)) {
      var data := s[..FrameLength(GetFixed(s))];
      assert s == data + s[FrameLength(GetFixed(s))..];
      SameFixed(data, s[FrameLength(GetFixed(s))..]);
      LoopOverruns(data, 16, HeaderEnd(GetFixed(s)), LITTLE, Library);
    }
  }

  function Frames(s: bytes): seq<Received>
    decreases |s|
  {
    match NextFrame(s)
    case Frame(m, rest) => [m] + Frames(rest)
    case _ => []
  }

  /** What is left once every complete frame is taken. */
  function Leftover(s: bytes): bytes
    decreases |s|
  {
    match NextFrame(s)
    case Frame(m, rest) => Leftover(rest)
    case _ => s
  }

  // ------------------------------------------------------------ one call, exactly

  lemma TopUpTakes(data: bytes, script: Script, n: nat)
    ensures var f := TopUp(data, script, n);
      (f.ok ==> f.data + Pending(f.rest) == data + Pending(script))
      && data <= f.data
      && (|data| <= n ==> |f.data| <= n)
      && (|data| >= n ==> f == Filled(true, data, script))
      && (!f.ok ==> f.data == data + Pending(script) && |f.data| < n && !Unbroken(script))
      && (f.ok && |f.data| < n ==> Work(f.rest) < Work(script) || f.rest == script == [])
      && (|data| < |f.data| ==> Work(f.rest) < Work(script))
      && Work(f.rest) <= Work(script)
      && (Unbroken(script) ==> f.ok) && (Unbroken(script) <==> Unbroken(f.rest))
  {
    hide Fill, Pending, Work, Unbroken;
    if |data| < n {
      FillTakes(script, n - |data|);
      var f := Fill(script, n - |data|);
      if f.ok {
        assert data + (f.data + Pending(f.rest)) == (data + f.data) + Pending(f.rest);
      }
    }
  }

  lemma SameFixed(data: bytes, more: bytes)
    requires |data| >= 16
    ensures GetFixed(data + more) == GetFixed(data)
  {
    hide FromWire;
    var all := data + more;
    assert all[4..8] == data[4..8] && all[8..12] == data[8..12] && all[12..16] == data[12..16];
  }

  predicate TellsSuccess(r: Reading, script: Script, r': Reading, script': Script) {
    r'.pos <= |r'.data|
    && NextFrame(r.data + Pending(script))
       == Frame(Received(r'.fixed, r'.header, r'.data, r'.pos), Pending(script'))
  }

  /** What one call of readFd tells about the whole of the bytes: those it holds and those still to come. */
  predicate Tells(r: Reading, script: Script, res: ReadRes, r': Reading, script': Script) {
    var all := r.data + Pending(script);
    && (Unbroken(script) <==> Unbroken(script'))
    && match res
       case Success => TellsSuccess(r, script, r', script') && Work(script') < Work(script)
       case WouldBlock =>
         InProgress(r') && r.data <= r'.data && NextFrame(r'.data).NeedMore?
         && r'.data + Pending(script') == all
         && (Work(script') < Work(script) || script' == [])
       case Failure => NextFrame(all).Bad? || (NextFrame(all).NeedMore? && !Unbroken(script))
       case Crash => NextFrame(all).Lost?
  }

  /** Between two calls the buffer holds an unfinished frame and no byte beyond it. */
  predicate Unfinished(r: Reading) {
    InProgress(r) && NextFrame(r.data).NeedMore?
  }

  /** ReadRest from a buffer that holds no byte beyond its frame. */
  lemma RestTells(r: Reading, script: Script)
    requires InProgress(r) && r.fixed.valid && |r.data| <= FrameLength(r.fixed)
    ensures var (res, r', script') := ReadRest(r, script);
      Work(script') <= Work(script) && (Unbroken(script) <==> Unbroken(script'))
      && ((res.Success? && |r.data| == FrameLength(r.fixed)) || Tells(r, script, res, r', script'))
      && (res.Success? ==> TellsSuccess(r, script, r', script'))
  {
    hide LibraryParse, GetFixed, Work, Unbroken, Pending, FailedHeader, TopUp, FrameSize;
    var all := r.data + Pending(script);
    var b := TopUp(r.data, script, FrameSize(r.fixed));
    TopUpTakes(r.data, script, FrameSize(r.fixed));
    SameFixed(r.data, Pending(script));
    SameFixed(r.data, b.data[|r.data|..]);
    assert b.data == r.data + b.data[|r.data|..];
    if b.ok && |b.data| >= FrameSize(r.fixed) {
      assert |b.data| == FrameLength(r.fixed);
      assert all[..|b.data|] == b.data && all[|b.data|..] == Pending(b.rest);
    }
  }

  /** One call of readFd, from wherever the last one stopped, for every script. */
  lemma ReadFdTells(r: Reading, script: Script)
    requires Unfinished(r)
    ensures var (res, r', script') := ReadFd(r, script); Tells(r, script, res, r', script')
  {
    hide LibraryParse, GetFixed, Work, Unbroken, Pending, FailedHeader, TopUp, FrameSize, ReadRest;
    var a := TopUp(r.data, script, 16);
    TopUpTakes(r.data, script, 16);
    if a.ok && |a.data| >= 16 {
      var fixed := GetFixed(a.data);
      SameFixed(a.data, Pending(a.rest));
      if fixed.valid {
        RestTells(r.(fixed := fixed, data := a.data, pos := 16), a.rest);
      }
    }
  }

  /**
   * What a failed call leaves of the message object: an empty buffer, the
   * fixed header if that had come, and of the header array the fields before
   * the one that was refused.
   */
  lemma FailureLeaves(r: Reading, script: Script)
    requires Unfinished(r) && ReadFd(r, script).0.Failure?
    ensures var left, all := ReadFd(r, script).1, r.data + Pending(script);
      left.data == [] && left.pos == 0 && !left.done
      && left.fixed == (if |all| >= 16 then GetFixed(all) else NEW_FIXED)
      && left.header == if |all| >= 16 && GetFixed(all).valid && |all| >= FrameLength(GetFixed(all)) then
                          StoreAll(NO_FIELDS, GetFields(all[..FrameLength(GetFixed(all))], 16,
                                                        HeaderEnd(GetFixed(all)), LITTLE, Library).fields)
                        else NO_FIELDS
  {
    hide LibraryParse, GetFixed, Work, Unbroken, Pending, TopUp, FrameSize, GetFields, StoreAll, HeaderEnd;
    var all := r.data + Pending(script);
    var a := TopUp(r.data, script, 16);
    TopUpTakes(r.data, script, 16);
    if a.ok && |a.data| >= 16 {
      var fixed := GetFixed(a.data);
      SameFixed(a.data, Pending(a.rest));
      if fixed.valid {
        var b := TopUp(a.data, a.rest, FrameSize(fixed));
        TopUpTakes(a.data, a.rest, FrameSize(fixed));
        if b.ok && |b.data| >= FrameSize(fixed) {
          SameFixed(a.data, b.data[|a.data|..]);
          assert b.data == a.data + b.data[|a.data|..];
          assert all[..|b.data|] == b.data;
        }
      }
    }
  }

  // ---------------------------------------------------------------- many calls

  /** The messages `calls` calls deliver, the object and script they leave, and what stopped them. */
  datatype Trace = Trace(messages: seq<Received>, last: Reading, script: Script, stop: Option<ReadRes>)

  /** readData over and over: a finished message is handed on and replaced by a fresh one. */
  function Drive(r: Reading, script: Script, calls: nat): Trace
    requires Unfinished(r)
    decreases calls
  {
    if calls == 0 then Trace([], r, script, None)
    else
      var (res, r', script') := ReadFd(r, script);
      ReadFdTells(r, script);
      match res
      case Success =>
        FreshIsUnfinished();
        var t := Drive(FRESH, script', calls - 1);
        t.(messages := [Received(r'.fixed, r'.header, r'.data, r'.pos)] + t.messages)
      case WouldBlock => Drive(r', script', calls - 1)
      case _ => Trace([], r', script', Some(res))
  }

  lemma FreshIsUnfinished()
    ensures Unfinished(FRESH)
  {
  }

  /**
   * Safety, for every script and every number of calls: what is delivered is
   * the front of the frames of the undivided stream; while nothing has
   * stopped the calls, the buffer holds an unfinished frame, no byte of the
   * next one, and buffer and script together are exactly the rest.
   */
  lemma {:induction false} DriveFollowsStream(r: Reading, script: Script, calls: nat)
    requires Unfinished(r)
    ensures var t := Drive(r, script, calls);
      var all := r.data + Pending(script);
      if t.stop.Some? then Frames(all) == t.messages
      else
        Unfinished(t.last)
        && Frames(all) == t.messages + Frames(t.last.data + Pending(t.script))
        && Leftover(all) == Leftover(t.last.data + Pending(t.script))
    decreases calls
  {
    hide NextFrame, ReadFd, Pending, InProgress, Unbroken, Work;
    var all := r.data + Pending(script);
    if calls > 0 {
      var (res, r', script') := ReadFd(r, script);
      ReadFdTells(r, script);
      if res.Success? {
        FreshIsUnfinished();
        DriveFollowsStream(FRESH, script', calls - 1);
        assert FRESH.data + Pending(script') == Pending(script');
      } else if res.WouldBlock? {
        DriveFollowsStream(r', script', calls - 1);
      }
    }
  }

  /** A script that no longer yields anything was read to its end. */
  lemma {:induction false} DriveExhausts(r: Reading, script: Script, calls: nat)
    requires Unfinished(r) && calls > Work(script)
    ensures var t := Drive(r, script, calls); t.stop.None? ==> t.script == []
    decreases calls
  {
    hide NextFrame, ReadFd, InProgress, Unbroken, Work;
    var (res, r', script') := ReadFd(r, script);
    ReadFdTells(r, script);
    if res.Success? {
      FreshIsUnfinished();
      DriveExhausts(FRESH, script', calls - 1);
    } else if res.WouldBlock? {
      if Work(script') < Work(script) {
        DriveExhausts(r', script', calls - 1);
      } else {
        DriveIdle(r', calls - 1);
      }
    }
  }

  lemma {:induction false} DriveIdle(r: Reading, calls: nat)
    requires Unfinished(r)
    ensures Drive(r, [], calls) == Trace([], r, [], None)
    decreases calls
  {
    hide GetFixed, LibraryParse;
    if calls > 0 {
      ReadFdTells(r, []);
      IdleRead(r);
      DriveIdle(r, calls - 1);
    }
  }

  lemma IdleRead(r: Reading)
    requires Unfinished(r)
    ensures ReadFd(r, []) == (ReadRes.WouldBlock, r, [])
  {
    hide GetFixed, LibraryParse, FrameSize;
    assert r.data + [] == r.data;
  }

  /** The calls stop only for what the stream or the connection gives them. */
  lemma {:induction false} StoppedBy(r: Reading, script: Script, calls: nat)
    requires Unfinished(r)
    ensures var t := Drive(r, script, calls);
      (Unbroken(script) <==> Unbroken(t.script))
      && (t.stop.Some? ==> t.stop == StopAt(NextFrame(Leftover(r.data + Pending(script))), Unbroken(script)))
    decreases calls
  {
    hide NextFrame, ReadFd, Pending, InProgress, Unbroken, Work;
    if calls > 0 {
      var (res, r', script') := ReadFd(r, script);
      ReadFdTells(r, script);
      if res.Success? {
        FreshIsUnfinished();
        StoppedBy(FRESH, script', calls - 1);
        assert FRESH.data + Pending(script') == Pending(script');
      } else if res.WouldBlock? {
        StoppedBy(r', script', calls - 1);
      }
    }
  }

  /** What ends the calls once the complete frames are taken: nothing, a refusal or a fault, or an overrun. */
  function StopAt(n: Next, unbroken: bool): Option<ReadRes> {
    match n
    case NeedMore => if unbroken then None else Some(Failure)
    case Bad => Some(Failure)
    case Lost => Some(Crash)
    case Frame(_, _) => None
  }

  lemma NothingBreaks()
    ensures Unbroken([])
  {
  }

  /** Nothing complete is left over. */
  lemma {:induction false} LeftoverIsNoFrame(s: bytes)
    ensures !NextFrame(Leftover(s)).Frame?
    decreases |s|
  {
    hide NextFrame;
    match NextFrame(s)
    case Frame(_, rest) => LeftoverIsNoFrame(rest);
    case _ =>
  }

  /**
   * Chunk independence: however a stream is cut into partial reads and
   * would-blocks, and whether or not the connection breaks behind it, enough
   * calls deliver exactly its frames, in order.  What stops them is fixed by
   * the bytes and by whether the connection breaks; if nothing does, they
   * hold exactly the bytes after the last complete frame.
   */
  lemma ChunkIndependence(script: Script, calls: nat)
    requires calls > Work(script)
    ensures Unfinished(FRESH)
    ensures var t := Drive(FRESH, script, calls);
      t.messages == Frames(Pending(script))
      && t.stop == StopAt(NextFrame(Leftover(Pending(script))), Unbroken(script))
      && (t.stop.None? ==> t.script == [] && t.last.data == Leftover(Pending(script)))
  {
    hide NextFrame, ReadFd, InProgress, Unbroken, Work, Drive;
    FreshIsUnfinished();
    var t := Drive(FRESH, script, calls);
    DriveFollowsStream(FRESH, script, calls);
    DriveExhausts(FRESH, script, calls);
    StoppedBy(FRESH, script, calls);
    LeftoverIsNoFrame(Pending(script));
    assert FRESH.data + Pending(script) == Pending(script);
    if t.stop.None? {
      NothingBreaks();
      assert t.last.data + Pending([]) == t.last.data;
    }
  }
}
