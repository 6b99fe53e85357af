/**
 * The simple frame reader of the example client, which blocks until a whole
 * message is there, as the specification of the resumable one.
 */
module Blocking {
  import opened Basics
  import opened ByteOrder
  import opened Values
  import opened Fields
  import opened Messages
  import opened Framing

  /** What a blocking read does on a stream; `Waits`: the stream ends inside the message. */
  datatype Blocking = Waits | Reads(message: Message, rest: bytes) | Throws | Undone

  /** Length of the header array according to a fixed header in byte order `e`. */
  function ArrayWord(s: bytes, e: byte): u32
    requires |s| >= 16
  {
    FromWire(s[12..16], e)
  }

  /** Bytes read_message reads: its padding comes from a 32-bit sum, its reads from the full lengths. */
  function BlockingLength(s: bytes, e: byte): nat
    requires |s| >= 16
  {
    var fieldsLen := ArrayWord(s, e);
    16 + fieldsLen + Pad((16 + fieldsLen) % TWO_32, 8) + FromWire(s[4..8], e)
  }

  /** read_message on the undivided stream. */
  function BlockingRead(s: bytes): (b: Blocking)
    ensures b.Reads? ==> |b.rest| < |s|
  {
    if |s| < 16 then Waits
    else if s[0] != LITTLE && s[0] != BIG then Throws
    else if |s| < BlockingLength(s, s[0]) then Waits
    else
      match ExampleParse(s[..BlockingLength(s, s[0])])
      case Failed => Throws
      case Undefined => Undone
      case Done(m) => Reads(m, s[BlockingLength(s, s[0])..])
  }

  /** Both readers wait, refuse, run past the buffer, or return the same message and leave the same rest. */
  predicate Agrees(n: Next, b: Blocking) {
    match n
    case NeedMore => b.Waits?
    case Bad => b.Throws?
    case Lost => b.Undone?
    case Frame(r, rest) => r.pos <= |r.data| && b == Reads(RecordOf(r), rest)
  }

  /** The last field of a frame reaches past the padded end of the header array, into the body. */
  predicate HeaderOverruns(frame: bytes)
    requires |frame| >= 16
  {
    var end := 16 + ArrayWord(frame, LITTLE);
    var loop := GetFields(frame, 16, end, LITTLE, Library);
    loop.status.Finished? && RoundUp(loop.pos) > RoundUp(end)
  }

  /** A whole little-endian frame is there, of version 1; its header sum does not wrap and its last field overruns. */
  predicate OverrunFrame(s: bytes)
    requires |s| >= 16
  {
    s[3] == 1 && ArrayWord(s, LITTLE) < TWO_32 - 16
    && |s| >= BlockingLength(s, LITTLE) && HeaderOverruns(s[..BlockingLength(s, LITTLE)])
  }

  /**
   * Where the two readers do the same on a stream that starts with a
   * little-endian header: of another version only once the whole frame is
   * there, with a wrapping header sum only while not even the shorter frame
   * of the library is there, and otherwise unless the last field overruns.
   */
  predicate ReadsAlike(s: bytes)
    requires |s| >= 16
  {
    if s[3] != 1 then |s| >= BlockingLength(s, LITTLE)
    else if ArrayWord(s, LITTLE) >= TWO_32 - 16 then |s| < FrameLength(GetFixed(s))
    else !OverrunFrame(s)
  }

  // --------------------------------------------------------- the same field loop

  lemma RoundUpMonotone(a: nat, b: nat)
    requires a <= b
    ensures RoundUp(a) <= RoundUp(b)
  {
  }

  /** Where alignment always fits, the lenient and the strict loop do the same. */
  lemma {:induction false} LoopsAgree(data: bytes, pos: nat, end: nat, e: byte)
    requires pos <= |data| && RoundUp(end) <= |data|
    ensures GetFields(data, pos, end, e, Library) == GetFields(data, pos, end, e, Example)
    decreases |data| - pos
  {
    hide GetField;
    if pos < end {
      RoundUpMonotone(pos, end);
      var p := pos + Pad(pos, 8);
      if p < end {
        GetFieldAdvances(data, p, e);
        match GetField(data, p, e)
        case Got(_, q) => LoopsAgree(data, q, end, e);
        case _ =>
      }
    }
  }

  /** A loop that finishes has reached its end. */
  lemma {:induction false} FinishedAtEnd(data: bytes, pos: nat, end: nat, e: byte, codec: Codec)
    requires pos <= |data|
    ensures var loop := GetFields(data, pos, end, e, codec); loop.status.Finished? ==> loop.pos >= end
    decreases |data| - pos
  {
    hide GetField;
    if pos < end {
      var p := AlignIfFits(pos, |data|);
      if p < end {
        GetFieldAdvances(data, p, e);
        match GetField(data, p, e)
        case Got(_, q) => FinishedAtEnd(data, q, end, e, codec);
        case _ =>
      }
    }
  }

  // ------------------------------------------------------------ one whole frame

  lemma WrapKeepsPad(n: u32)
    ensures n < TWO_32 - 16 ==> (16 + n) % TWO_32 == 16 + n
    ensures Pad((16 + n) % TWO_32, 8) == Pad(16 + n, 8)
  {
    if n >= TWO_32 - 16 {
      assert 16 + n == 8 * (TWO_32 / 8) + (16 + n) % TWO_32;
      PadShift((16 + n) % TWO_32, TWO_32 / 8, 8);
    }
  }

  /** Both readers take the same number of bytes for a little-endian frame exactly when the header sum does not wrap. */
  lemma SameFrameLength(s: bytes)
    requires |s| >= 16 && s[3] == 1
    ensures BlockingLength(s, LITTLE) == FrameLength(GetFixed(s)) <==> ArrayWord(s, LITTLE) < TWO_32 - 16
  {
    hide FromWire;
    WrapKeepsPad(ArrayWord(s, LITTLE));
  }

  function LibraryNext(data: bytes): Next
    requires |data| >= 16
  {
    match LibraryParse(data)
    case Failed => Bad
    case Undefined => Lost
    case Done(m) => Frame(m, [])
  }

  function ExampleRead(data: bytes): Blocking {
    match ExampleParse(data)
    case Failed => Throws
    case Undefined => Undone
    case Done(m) => Reads(m, [])
  }

  /** On a complete frame both parsers agree, unless the last field overruns: then one accepts and the other refuses. */
  lemma SameVerdict(data: bytes)
    requires |data| >= 16 && data[0] == LITTLE && data[3] == 1
    requires ArrayWord(data, LITTLE) < TWO_32 - 16 && |data| == FrameSize(GetFixed(data))
    ensures if HeaderOverruns(data) then LibraryNext(data).Frame? && ExampleRead(data).Throws?
            else Agrees(LibraryNext(data), ExampleRead(data))
  {
    hide FromWire, GetFields, StoreAll;
    var f := GetFixed(data);
    var end := 16 + f.fieldsLen;
    WrapKeepsPad(f.fieldsLen);
    LoopsAgree(data, 16, end, LITTLE);
    FinishedAtEnd(data, 16, end, LITTLE, Library);
    var loop := GetFields(data, 16, end, LITTLE, Library);
    if loop.status.Finished? {
      RoundUpMonotone(end, loop.pos);
      var start := loop.pos + Pad(loop.pos, 8);
      assert start >= end + Pad(end, 8);
      if start + f.bodyLen <= |data| {
        assert data[start..start + f.bodyLen] == data[start..];
      }
    }
  }

  /** The wrapped sum leaves the loop nothing to read: the library takes the frame at once. */
  lemma WrappedFrame(s: bytes)
    requires |s| >= 16 && s[3] == 1 && ArrayWord(s, LITTLE) >= TWO_32 - 16
    ensures BlockingLength(s, LITTLE) > FrameLength(GetFixed(s))
    ensures |s| >= FrameLength(GetFixed(s)) ==>
              NextFrame(s).Frame? && NextFrame(s).rest == s[FrameLength(GetFixed(s))..]
  {
    hide FromWire, StoreAll;
    WrapKeepsPad(ArrayWord(s, LITTLE));
    var f := GetFixed(s);
    if |s| >= FrameLength(f) {
      var data := s[..FrameLength(f)];
      SameFixed(data, s[FrameLength(f)..]);
      assert s == data + s[FrameLength(f)..];
      assert GetFields(data, 16, HeaderEnd(f), LITTLE, Library) == Loop(Finished, [], 16);
    }
  }

  /**
   * The library's framing against the blocking reader, on every stream that
   * starts with a little-endian fixed header: when both wait, refuse, or read
   * the same message and leave the same rest.  They differ in three cases
   * only.  Another version is refused by the library before the frame is
   * there; a header length whose 32-bit sum wraps gives the library a shorter
   * frame; and a last field that reaches past its array is accepted by the
   * library, with its cursor past the start of the body, and refused by the
   * blocking reader.
   */
  lemma FramingRefinesBlocking(s: bytes)
    requires |s| >= 16 && s[0] == LITTLE
    ensures Agrees(NextFrame(s), BlockingRead(s)) <==> ReadsAlike(s)
    ensures OverrunFrame(s) ==> NextFrame(s).Frame? && BlockingRead(s).Throws?
    ensures s[3] != 1 ==> NextFrame(s).Bad? && !BlockingRead(s).Reads?
  {
    hide FromWire, GetFields, StoreAll, ExampleParse, LibraryParse, HeaderOverruns, RecordOf;
    var n := BlockingLength(s, LITTLE);
    if s[3] != 1 {
      if |s| >= n { WrongVersionThrows(s[..n]); }
    } else if ArrayWord(s, LITTLE) >= TWO_32 - 16 {
      WrappedFrame(s);
    } else {
      SameFrameLength(s);
      if |s| >= n {
        var data := s[..n];
        SameFixed(data, s[n..]);
        assert s == data + s[n..];
        assert data[12..16] == s[12..16];
        WrapKeepsPad(ArrayWord(s, LITTLE));
        SameVerdict(data);
      }
    }
  }

  lemma WrongVersionThrows(data: bytes)
    requires |data| >= 16 && data[3] != 1
    ensures ExampleParse(data).Failed?
  {
  }

  /** A fixed header whose 32-bit sum wraps: the library takes it for a whole frame, the blocking reader waits. */
  lemma WrappedHeaderExample()
    ensures var s := PutFixed(Fixed(LITTLE, METHOD_RETURN, 0, 1, 0, 1, TWO_32 - 16, false));
      NextFrame(s).Frame? && BlockingRead(s).Waits?
  {
    hide PutFixed, GetFixed, FromWire, ToWire, StoreAll;
    var f := Fixed(LITTLE, METHOD_RETURN, 0, 1, 0, 1, TWO_32 - 16, false);
    var s := PutFixed(f);
    assert At(s, 0, s) && s[..16] == s;
    FixedRoundTrip(s, f);
    FixedParts(s, f);
    WireRoundTrip(f.fieldsLen, 4, LITTLE);
    assert FrameSize(f) == 0;
    FieldsEnd(s, 16, LITTLE, Library);
    assert GetFields(s, 16, 0, LITTLE, Library) == Loop(Finished, [], 16);
  }

  /** A complete frame of 32 bytes: an array of 8 bytes, an 8-byte body, and a path whose text goes on into the body. */
  const OVERRUN: bytes :=
    [108, 2, 0, 1, 8, 0, 0, 0, 1, 0, 0, 0, 8, 0, 0, 0, 1, 1, 115, 0, 3, 0, 0, 0, 65, 66, 67, 0, 0, 0, 0, 0]

  /** The bytes of that frame that the readers look at. */
  predicate Overlong(s: bytes) {
    |s| == 32 && s[0] == LITTLE && s[3] == 1
    && s[4] == 8 && s[5] == s[6] == s[7] == 0 && s[12] == 8 && s[13] == s[14] == s[15] == 0
    && s[16] == PATH && s[17] == 1 && s[18] == STR && s[19] == 0
    && s[20] == 3 && s[21] == s[22] == s[23] == 0 && s[24] == 65 && s[25] == 66 && s[26] == 67 && s[27] == 0
  }

  lemma SmallWord(s: bytes, p: nat)
    requires p + 4 <= |s| && s[p + 1] == s[p + 2] == s[p + 3] == 0
    ensures FromWire(s[p..p + 4], LITTLE) == s[p]
  {
  }

  lemma OverlongText(s: bytes)
    requires Overlong(s)
    ensures GetString(s, 20, LITTLE) == Got([65, 66, 67], 28)
  {
    hide FromWire;
    SmallWord(s, 20);
    assert s[24..27] == [65, 66, 67];
  }

  lemma OverlongLoop(s: bytes)
    requires Overlong(s)
    ensures GetFields(s, 16, 24, LITTLE, Library) == Loop(Finished, [TextField(PATH, STR, [65, 66, 67])], 28)
  {
    hide GetString;
    OverlongText(s);
    assert s[18..19] == [STR];
    assert GetField(s, 16, LITTLE) == Got(TextField(PATH, STR, [65, 66, 67]), 28);
    assert GetFields(s, 28, 24, LITTLE, Library) == Loop(Finished, [], 28);
  }

  lemma OverlongFixed(s: bytes)
    requires Overlong(s)
    ensures GetFixed(s).valid && GetFixed(s).bodyLen == 8 && ArrayWord(s, LITTLE) == GetFixed(s).fieldsLen == 8
    ensures BlockingLength(s, LITTLE) == FrameLength(GetFixed(s)) == 32
  {
    hide FromWire;
    SmallWord(s, 4);
    SmallWord(s, 12);
  }

  lemma OverlongDiffers(s: bytes)
    requires Overlong(s)
    ensures NextFrame(s).Frame? && NextFrame(s).message.fixed.bodyLen == 8 && NextFrame(s).message.pos == 32
    ensures NextFrame(s).message.header == NO_FIELDS.(path := Some([65, 66, 67])) && BlockingRead(s).Throws?
  {
    hide GetFixed, GetFields, BlockingRead, ArrayWord, BlockingLength, FrameLength, StoreAll;
    OverlongFixed(s);
    OverlongLoop(s);
    StoreText(NO_FIELDS, PATH, STR, Some([65, 66, 67]));
    assert s[..32] == s;
    FramingRefinesBlocking(s);
  }

  lemma OverrunIsOverlong()
    ensures Overlong(OVERRUN)
  {
  }

  /** The library reads that frame with its cursor past the 8 bytes of the body; the blocking reader throws. */
  lemma OverrunExample()
    ensures var n := NextFrame(OVERRUN);
      n.Frame? && n.message.fixed.bodyLen == 8 && n.message.pos == 32
      && n.message.header == NO_FIELDS.(path := Some([65, 66, 67]))
    ensures BlockingRead(OVERRUN).Throws?
  {
    hide NextFrame, BlockingRead, OVERRUN, Overlong;
    OverrunIsOverlong();
    OverlongDiffers(OVERRUN);
  }

  /** A complete frame of 24 bytes whose one field is a path with a length word of 2^32 - 1. */
  const LOST: bytes :=
    [108, 2, 0, 1, 0, 0, 0, 0, 1, 0, 0, 0, 8, 0, 0, 0, 1, 1, 115, 0, 255, 255, 255, 255]

  /** The bytes of that frame that the readers look at. */
  predicate PastTheEnd(s: bytes) {
    |s| == 24 && s[0] == LITTLE && s[3] == 1
    && s[4] == s[5] == s[6] == s[7] == 0 && s[12] == 8 && s[13] == s[14] == s[15] == 0
    && s[16] == PATH && s[17] == 1 && s[18] == STR && s[19] == 0
    && s[20] == s[21] == s[22] == s[23] == 255
  }

  lemma PastTheEndText(s: bytes)
    requires PastTheEnd(s)
    ensures GetField(s, 16, LITTLE) == Overrun
  {
    assert s[18..19] == [STR];
    assert FromWire(s[20..24], LITTLE) == TWO_32 - 1;
  }

  lemma PastTheEndFixed(s: bytes)
    requires PastTheEnd(s)
    ensures GetFixed(s).valid && ArrayWord(s, LITTLE) == GetFixed(s).fieldsLen == 8
    ensures BlockingLength(s, LITTLE) == FrameLength(GetFixed(s)) == 24
  {
    hide FromWire;
    SmallWord(s, 4);
    SmallWord(s, 12);
  }

  lemma PastTheEndIsLost(s: bytes)
    requires PastTheEnd(s)
    ensures NextFrame(s).Lost? && BlockingRead(s).Undone?
  {
    hide GetFixed, GetField, BlockingRead, ArrayWord, BlockingLength, FrameLength, StoreAll;
    PastTheEndFixed(s);
    PastTheEndText(s);
    assert s[..24] == s;
    assert GetFields(s, 16, 24, LITTLE, Library).status.Crashed?;
    FramingRefinesBlocking(s);
  }

  lemma LostIsPastTheEnd()
    ensures PastTheEnd(LOST)
  {
  }

  /** Both readers run past the end of that frame. */
  lemma LostExample()
    ensures NextFrame(LOST).Lost? && BlockingRead(LOST).Undone?
  {
    hide NextFrame, BlockingRead, LOST, PastTheEnd;
    LostIsPastTheEnd();
    PastTheEndIsLost(LOST);
  }

  /** Sixteen bytes of another version: refused by the library, waited on by the blocking reader. */
  lemma VersionExample()
    ensures var s := PutFixed(Fixed(LITTLE, METHOD_RETURN, 0, 2, 8, 1, 0, false));
      NextFrame(s).Bad? && BlockingRead(s).Waits?
  {
    hide PutFixed, GetFixed, FromWire, ToWire;
    var f := Fixed(LITTLE, METHOD_RETURN, 0, 2, 8, 1, 0, false);
    var s := PutFixed(f);
    assert At(s, 0, s);
    FixedParts(s, f);
    WireRoundTrip(f.bodyLen, 4, LITTLE);
    WireRoundTrip(f.fieldsLen, 4, LITTLE);
    OtherVersion(s);
  }

  lemma OtherVersion(s: bytes)
    requires |s| >= 16 && s[3] != 1
    ensures !GetFixed(s).valid
  {
  }
}
