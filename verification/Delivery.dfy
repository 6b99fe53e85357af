/** End to end: what reaches the user of the resumable reader, over whole streams. */
module Delivery {
  import opened Basics
  import opened ByteOrder
  import opened Fields
  import opened Messages
  import opened Interop
  import opened Sockets
  import opened Framing
  import opened Blocking

  // ------------------------------------------------- against the blocking reader

  /** The stream starts with a fixed header both readers take the same way. */
  predicate LittleStart(s: bytes) {
    |s| >= 16 && s[0] == LITTLE && s[3] == 1 && ArrayWord(s, LITTLE) < TWO_32 - 16
  }

  /** The messages blocking reads return one after the other, and the bytes after the last. */
  datatype Session = Session(messages: seq<Message>, rest: bytes)

  function BlockingRun(s: bytes): Session
    decreases |s|
  {
    if !LittleStart(s) then Session([], s)
    else
      match BlockingRead(s)
      case Reads(m, rest) =>
        var run := BlockingRun(rest);
        run.(messages := [m] + run.messages)
      case _ => Session([], s)
  }

  /** The two readers do the same with what `s` starts with. */
  predicate Alike(s: bytes) {
    |s| < 16 || (s[0] == LITTLE && ReadsAlike(s))
  }

  /** What ends the calls of the resumable reader where the blocking one does `b`. */
  function StopLike(b: Blocking, unbroken: bool): Option<ReadRes> {
    match b
    case Waits => if unbroken then None else Some(Failure)
    case Throws => Some(Failure)
    case Undone => Some(Crash)
    case Reads(_, _) => None
  }

  lemma {:induction false} FramesFollowBlocking(s: bytes)
    ensures var run, frames := BlockingRun(s), Frames(s);
      |run.messages| <= |frames|
      && (forall i | 0 <= i < |run.messages| ::
            frames[i].pos <= |frames[i].data| && RecordOf(frames[i]) == run.messages[i])
      && (Alike(run.rest) && !BlockingRead(run.rest).Reads? ==>
            |frames| == |run.messages| && Leftover(s) == run.rest
            && Agrees(NextFrame(run.rest), BlockingRead(run.rest)))
      && (|run.rest| >= 16 && run.rest[0] == LITTLE && OverrunFrame(run.rest) ==> |frames| > |run.messages|)
    decreases |s|
  {
    hide BlockingRead, NextFrame, RecordOf, ReadsAlike, OverrunFrame;
    if |s| >= 16 && s[0] == LITTLE {
      FramingRefinesBlocking(s);
      if LittleStart(s) {
        LittleIsAlike(s);
        match BlockingRead(s)
        case Reads(m, rest) => FramesFollowBlocking(rest);
        case _ =>
      }
    } else if |s| < 16 {
      ShortNeedsMore(s);
    }
  }

  /** What the blocking reader returns from such a start, the resumable one delivers. */
  lemma LittleIsAlike(s: bytes)
    requires LittleStart(s)
    ensures BlockingRead(s).Reads? ==> ReadsAlike(s)
  {
    hide BlockingRead, NextFrame, OverrunFrame;
    FramingRefinesBlocking(s);
  }

  lemma ShortNeedsMore(s: bytes)
    requires |s| < 16
    ensures NextFrame(s).NeedMore? && BlockingRead(s).Waits?
  {
  }

  /**
   * Refinement: for every stream, every way of cutting it, and whether or not
   * the connection breaks behind it, the resumable reader delivers the
   * messages the blocking reader returns, in that order.  Where the blocking
   * reader then waits, throws or runs past its buffer, and the two read
   * alike, it has delivered no other message: it holds the bytes of the
   * unfinished frame, or has failed, or has run past its buffer too.  Where
   * they part over a field that overruns, it has delivered at least one more.
   */
  lemma ResumableRefinesBlocking(script: Script, calls: nat)
    requires calls > Work(script)
    ensures Unfinished(FRESH)
    ensures var run, t := BlockingRun(Pending(script)), Drive(FRESH, script, calls);
      |run.messages| <= |t.messages|
      && (forall i | 0 <= i < |run.messages| ::
            t.messages[i].pos <= |t.messages[i].data| && RecordOf(t.messages[i]) == run.messages[i])
      && (Alike(run.rest) && !BlockingRead(run.rest).Reads? ==>
            |t.messages| == |run.messages| && t.stop == StopLike(BlockingRead(run.rest), Unbroken(script))
            && (t.stop.None? ==> t.last.data == run.rest))
      && (|run.rest| >= 16 && run.rest[0] == LITTLE && OverrunFrame(run.rest) ==> |t.messages| > |run.messages|)
  {
    hide BlockingRun, BlockingRead, Frames, Drive, Alike, Work, Leftover, RecordOf, OverrunFrame, Unbroken;
    ChunkIndependence(script, calls);
    FramesFollowBlocking(Pending(script));
  }

  // ----------------------------------------------------------- from sender to user

  predicate LittlePackets(ps: seq<Packet>) {
    AllSendable(ps)
    && forall i | 0 <= i < |ps| ::
         ps[i].message.endian == LITTLE && |HeaderArray(ps[i].message.header, ps[i].writer, LITTLE)| < TWO_32 - 16
  }

  lemma FirstFrame(m: Message, writer: Codec, rest: bytes)
    requires Sendable(m, writer) && m.endian == LITTLE
    requires |HeaderArray(m.header, writer, LITTLE)| < TWO_32 - 16
    ensures var n := NextFrame(Serialize(m, writer) + rest);
      n.Frame? && n.rest == rest && n.message.pos <= |n.message.data| && RecordOf(n.message) == m
      && n.message.pos % 8 == 0
  {
    hide Serialize, LibraryParse, GetFixed, Sendable, FrameSize, HeaderArray;
    var data := Serialize(m, writer);
    EachReadsTheOther(m, writer, rest);
    SameFixed(data, rest);
    assert (data + rest)[..|data|] == data && (data + rest)[|data|..] == rest;
    ParseKeepsFixed(data);
    ParsedIsVersionOne(data);
  }

  /** The two length words of a message that was sent, as the blocking reader finds them. */
  lemma SentWords(m: Message, writer: Codec, rest: bytes)
    requires Sendable(m, writer)
    ensures var bs, fields := Serialize(m, writer), HeaderArray(m.header, writer, m.endian);
      |bs| == 16 + |fields| + Pad(|fields|, 8) + |m.body| && (bs + rest)[0] == m.endian && |fields| < TWO_32
      && FromWire((bs + rest)[4..8], m.endian) == |m.body| && FromWire((bs + rest)[12..16], m.endian) == |fields|
  {
    hide HeaderArray, ToWire, FromWire, PutFixed, ShortSignature, Pad;
    var e := m.endian;
    var fields := HeaderArray(m.header, writer, e);
    var f := FixedOf(m).(bodyLen := |m.body| % TWO_32, fieldsLen := |fields| % TWO_32);
    var bs := Serialize(m, writer);
    assert bs == Assemble(f, fields, m.body);
    assert At(bs + rest, 0, bs);
    AssembledParts(bs + rest, f, fields, m.body);
    FixedParts(bs + rest, f);
    WireRoundTrip(f.bodyLen, 4, e);
    WireRoundTrip(f.fieldsLen, 4, e);
  }

  /** How many bytes the blocking reader takes for a message that was sent: as many as were sent. */
  lemma SentLength(m: Message, writer: Codec, rest: bytes)
    requires Sendable(m, writer)
    ensures var bs := Serialize(m, writer);
      |bs| >= 16 && (bs + rest)[0] == m.endian && BlockingLength(bs + rest, m.endian) == |bs|
  {
    hide Serialize, HeaderArray, FromWire, Pad, Sendable;
    SentWords(m, writer, rest);
    var n := |HeaderArray(m.header, writer, m.endian)|;
    WrapKeepsPad(n);
    PadAfterHeader(n);
  }

  /**
   * The blocking reader returns every message that either codec sends, in
   * either byte order, and leaves what follows.
   */
  lemma BlockingReadsBack(m: Message, writer: Codec, rest: bytes)
    requires Sendable(m, writer)
    ensures BlockingRead(Serialize(m, writer) + rest) == Reads(m, rest)
  {
    hide Serialize, ExampleParse, BlockingLength, SizesFit;
    var bs := Serialize(m, writer);
    SentLength(m, writer, rest);
    ExampleReads(m, writer, []);
    assert bs + [] == bs && (bs + rest)[..|bs|] == bs && (bs + rest)[|bs|..] == rest;
  }

  lemma ParsedIsVersionOne(data: bytes)
    requires |data| >= 16 && LibraryParse(data).Done?
    ensures GetFixed(data).valid
  {
    hide GetFields, GetFixed, StoreAll;
  }

  lemma {:induction false} StreamFrames(ps: seq<Packet>)
    requires LittlePackets(ps)
    ensures var frames := Frames(Stream(ps));
      |frames| == |ps| && Leftover(Stream(ps)) == []
      && forall i | 0 <= i < |ps| ::
           frames[i].pos <= |frames[i].data| && RecordOf(frames[i]) == ps[i].message && frames[i].pos % 8 == 0
    decreases ps
  {
    hide Serialize, NextFrame, Sendable, HeaderArray, RecordOf;
    if ps == [] {
      ShortNeedsMore([]);
    } else {
      FirstFrame(ps[0].message, ps[0].writer, Stream(ps[1..]));
      StreamFrames(ps[1..]);
      forall i | 0 < i < |ps| ensures ps[i] == ps[1..][i - 1] {}
    }
  }

  /**
   * Whatever little-endian messages are sent, by either codec, and however
   * the network cuts them, exactly these messages arrive, in order; unless
   * the connection breaks behind them, the reader is left as if new.
   */
  lemma EndToEnd(ps: seq<Packet>, script: Script, calls: nat)
    requires LittlePackets(ps) && Pending(script) == Stream(ps) && calls > Work(script)
    ensures Unfinished(FRESH)
    ensures var t := Drive(FRESH, script, calls);
      |t.messages| == |ps|
      && (forall i | 0 <= i < |ps| ::
            t.messages[i].pos <= |t.messages[i].data| && RecordOf(t.messages[i]) == ps[i].message)
      && (if Unbroken(script) then t.stop.None? && t.last == FRESH else t.stop == Some(Failure))
  {
    hide Drive, Stream, Frames, Work, LittlePackets, RecordOf, GetFixed, Unbroken;
    ChunkIndependence(script, calls);
    DriveFollowsStream(FRESH, script, calls);
    StreamFrames(ps);
    ShortNeedsMore([]);
  }
}
