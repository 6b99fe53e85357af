/**
 * Whole messages: the 16-byte fixed header, the header array, padding to 8
 * and the body, as both codecs build them and take them apart.
 */
module Messages {
  import opened Basics
  import opened ByteOrder
  import opened Values
  import opened Fields

  /** What a message says, whichever codec handles it. */
  datatype Message = Message(endian: byte, kind: byte, flags: byte, serial: u32, header: Header, body: bytes)

  const METHOD_CALL: byte := 1
  const METHOD_RETURN: byte := 2
  const ERROR: byte := 3

  /** The library's FixedHeader. */
  datatype Fixed = Fixed(endian: byte, kind: byte, flags: byte, version: byte,
                         bodyLen: u32, serial: u32, fieldsLen: u32, valid: bool)

  const NEW_FIXED := Fixed(LITTLE, METHOD_CALL, 0, 1, 0, 0, 0, false)

  datatype Outcome<+T> = Done(value: T) | Failed | Undefined

  /** A message the library has finished reading: its buffer and the cursor on the body. */
  datatype Received = Received(fixed: Fixed, header: Header, data: bytes, pos: nat)

  // ---------------------------------------------------------------- writing

  function PutWords(a: u32, b: u32, c: u32, e: byte): (bs: bytes)
    ensures |bs| == 12
  {
    ToWire(a, 4, e) + (ToWire(b, 4, e) + ToWire(c, 4, e))
  }

  function PutFixed(f: Fixed): (bs: bytes)
    ensures |bs| == 16
  {
    [f.endian, f.kind, f.flags, f.version] + PutWords(f.bodyLen, f.serial, f.fieldsLen, f.endian)
  }

  /** The header array of a message, written into a buffer of its own. */
  function HeaderArray(h: Header, codec: Codec, e: byte): bytes {
    HeaderTyped(h, codec);
    PutFields(HeaderFields(h, codec), 0, e)
  }

  function Assemble(f: Fixed, fields: bytes, body: bytes): bytes {
    PutFixed(f) + (fields + (Zeros(Pad(|fields|, 8)) + body))
  }

  /** MessagePrivate::serialize: the header array is always little-endian. */
  function LibrarySerialize(f: Fixed, h: Header, body: bytes): bytes {
    var fields := HeaderArray(h, Library, LITTLE);
    Assemble(f.(bodyLen := |body| % TWO_32, fieldsLen := |fields| % TWO_32), fields, body)
  }

  function FixedOf(m: Message): Fixed {
    Fixed(m.endian, m.kind, m.flags, 1, 0, m.serial, 0, false)
  }

  /** Message::serialize of the example: one byte order throughout. */
  function ExampleSerialize(m: Message): bytes {
    var fields := HeaderArray(m.header, Example, m.endian);
    Assemble(FixedOf(m).(bodyLen := |m.body| % TWO_32, fieldsLen := |fields| % TWO_32), fields, m.body)
  }

  /** The bytes either codec produces for a message. */
  function Serialize(m: Message, codec: Codec): bytes {
    if codec.Library? then LibrarySerialize(FixedOf(m), m.header, m.body) else ExampleSerialize(m)
  }

  /** What serialising a message yields: the example throws on a signature that is too long. */
  function Produced(m: Message, codec: Codec): Option<bytes> {
    if codec.Example? && !ShortSignature(m.header) then None else Some(Serialize(m, codec))
  }

  // ---------------------------------------------------------------- reading

  function GetFixed(data: bytes): Fixed
    requires |data| >= 16
  {
    var f := NEW_FIXED.(endian := data[0], kind := data[1], flags := data[2], version := data[3]);
    if f.version != 1 then f
    else f.(bodyLen := FromWire(data[4..8], LITTLE), serial := FromWire(data[8..12], LITTLE),
            fieldsLen := FromWire(data[12..16], LITTLE), valid := true)
  }

  /** Where the header array ends: a 32-bit sum. */
  function HeaderEnd(f: Fixed): nat {
    (16 + f.fieldsLen) % TWO_32
  }

  function FrameSize(f: Fixed): nat {
    HeaderEnd(f) + Pad(HeaderEnd(f), 8) + f.bodyLen
  }

  /** The library's align, whose refusal is ignored after the header array. */
  function AlignIfFits(pos: nat, size: nat): nat {
    if pos + Pad(pos, 8) <= size then pos + Pad(pos, 8) else pos
  }

  /** What the library makes of a complete frame. */
  function LibraryParse(data: bytes): (r: Outcome<Received>)
    requires |data| >= 16
    ensures r.Done? ==> r.value.data == data && 16 <= r.value.pos <= |data|
  {
    var f := GetFixed(data);
    if !f.valid then Failed
    else
      var loop := GetFields(data, 16, HeaderEnd(f), LITTLE, Library);
      match loop.status
      case Refused => Failed
      case Crashed => Undefined
      case Finished =>
        Done(Received(f, StoreAll(NO_FIELDS, loop.fields), data, AlignIfFits(loop.pos, |data|)))
  }

  function RecordOf(r: Received): Message
    requires r.pos <= |r.data|
  {
    Message(r.fixed.endian, r.fixed.kind, r.fixed.flags, r.fixed.serial, r.header, r.data[r.pos..])
  }

  /** Message::parse of the example. */
  function ExampleParse(data: bytes): Outcome<Message> {
    if |data| < 16 then Failed
    else
      var e := data[0];
      if e != LITTLE && e != BIG then Failed
      else if data[3] != 1 then Failed
      else
        var bodyLen, serial := FromWire(data[4..8], e), FromWire(data[8..12], e);
        var end := 16 + FromWire(data[12..16], e);
        if end > |data| then Failed
        else
          var loop := GetFields(data, 16, end, e, Example);
          match loop.status
          case Refused => Failed
          case Crashed => Undefined
          case Finished =>
            var start := loop.pos + Pad(loop.pos, 8);
            if start + bodyLen > |data| then Failed
            else Done(Message(e, data[1], data[2], serial, StoreAll(NO_FIELDS, loop.fields),
                              data[start..start + bodyLen]))
  }

  // ------------------------------------------------------------- round trips

  lemma FixedParts(data: bytes, f: Fixed)
    requires At(data, 0, PutFixed(f))
    ensures data[0] == f.endian && data[1] == f.kind && data[2] == f.flags && data[3] == f.version
    ensures data[4..8] == ToWire(f.bodyLen, 4, f.endian)
    ensures data[8..12] == ToWire(f.serial, 4, f.endian)
    ensures data[12..16] == ToWire(f.fieldsLen, 4, f.endian)
  {
    hide ToWire;
    var e := f.endian;
    AtSplit(data, 0, [f.endian, f.kind, f.flags, f.version], PutWords(f.bodyLen, f.serial, f.fieldsLen, e));
    AtSplit(data, 4, ToWire(f.bodyLen, 4, e), ToWire(f.serial, 4, e) + ToWire(f.fieldsLen, 4, e));
    AtSplit(data, 8, ToWire(f.serial, 4, e), ToWire(f.fieldsLen, 4, e));
    assert data[0..4] == [f.endian, f.kind, f.flags, f.version];
    assert data[0] == data[0..4][0] && data[1] == data[0..4][1];
    assert data[2] == data[0..4][2] && data[3] == data[0..4][3];
  }

  /** Where the pieces of an assembled message lie, whatever follows it. */
  lemma AssembledParts(data: bytes, f: Fixed, fields: bytes, body: bytes)
    requires At(data, 0, Assemble(f, fields, body))
    ensures At(data, 0, PutFixed(f)) && At(data, 16, fields)
    ensures var start := 16 + |fields| + Pad(|fields|, 8);
      |Assemble(f, fields, body)| == start + |body| && At(data, start, body)
  {
    hide PutFixed;
    var pad := Zeros(Pad(|fields|, 8));
    AtSplit(data, 0, PutFixed(f), fields + (pad + body));
    AtSplit(data, 16, fields, pad + body);
    AtSplit(data, 16 + |fields|, pad, body);
  }

  /** Either loop reads the header array of either codec back, when both use byte order `e`. */
  lemma ArrayReadBack(data: bytes, h: Header, writer: Codec, reader: Codec, e: byte)
    requires ShortSignature(h) && |HeaderArray(h, writer, e)| < TWO_32
    requires At(data, 16, HeaderArray(h, writer, e))
    ensures var end := 16 + |HeaderArray(h, writer, e)|;
      GetFields(data, 16, end, e, reader) == Loop(Finished, HeaderFields(h, writer), end)
  {
    hide HeaderFields, PutFields, GetFields;
    HeaderTyped(h, writer);
    HeaderFits(h, writer, 0, e);
    PutFieldsShift(HeaderFields(h, writer), 0, 2, e);
    FieldsRoundTrip(data, 16, HeaderFields(h, writer), e, reader);
  }

  lemma PadAfterHeader(n: nat)
    ensures Pad(16 + n, 8) == Pad(n, 8)
  {
    PadShift(n, 2, 8);
  }

  /** The bytes of `codec` hold one byte order throughout. */
  predicate OneByteOrder(m: Message, codec: Codec) {
    m.endian == LITTLE || (m.endian == BIG && codec.Example?)
  }

  predicate SizesFit(m: Message, codec: Codec) {
    ShortSignature(m.header)
    && |HeaderArray(m.header, codec, if codec.Library? then LITTLE else m.endian)| < TWO_32
  }

  /**
   * The example's parser recovers a message from the bytes of either codec,
   * whatever follows them, exactly when the body length fits its word.
   */
  lemma ExampleReads(m: Message, writer: Codec, extra: bytes)
    requires OneByteOrder(m, writer) && SizesFit(m, writer)
    ensures ExampleParse(Serialize(m, writer) + extra) == Done(m) <==> |m.body| < TWO_32
  {
    hide HeaderArray, GetFields, ToWire, FromWire, PutFixed, StoreAll, HeaderFields, ShortSignature;
    var e := m.endian;
    var fields := HeaderArray(m.header, writer, e);
    var f := FixedOf(m).(bodyLen := |m.body| % TWO_32, fieldsLen := |fields| % TWO_32);
    var bs := Serialize(m, writer);
    assert bs == Assemble(f, fields, m.body);
    var data := bs + extra;
    assert At(data, 0, bs);
    AssembledParts(data, f, fields, m.body);
    FixedParts(data, f);
    WireRoundTrip(f.bodyLen, 4, e);
    WireRoundTrip(f.serial, 4, e);
    WireRoundTrip(f.fieldsLen, 4, e);
    ArrayReadBack(data, m.header, writer, Example, e);
    StoreRestores(m.header, writer);
    PadAfterHeader(|fields|);
  }

  lemma ReadAsLittle(w: u32, e: byte)
    ensures FromWire(ToWire(w, 4, e), LITTLE) == if e == BIG then Bswap32(w) else w
  {
    HostRoundTrip(if e == BIG then Bswap32(w) else w, 4);
  }

  /** The fixed header of the library after serialisation. */
  function SentHeader(f: Fixed, h: Header, body: bytes): Fixed {
    f.(bodyLen := |body| % TWO_32, fieldsLen := |HeaderArray(h, Library, LITTLE)| % TWO_32)
  }

  /** A word that reads the same in both byte orders. */
  predicate Palindrome(w: u32) { Bswap32(w) == w }

  /** The reader of the library never leaves little-endian: which fixed headers survive that. */
  predicate ReadsLittle(f: Fixed) {
    f.endian == BIG ==> Palindrome(f.bodyLen) && Palindrome(f.serial) && Palindrome(f.fieldsLen)
  }

  lemma FixedRoundTrip(data: bytes, f: Fixed)
    requires At(data, 0, PutFixed(f))
    ensures GetFixed(data) == f.(valid := true) <==> f.version == 1 && ReadsLittle(f)
  {
    hide ToWire, FromWire, PutFixed, Bswap32;
    FixedParts(data, f);
    ReadAsLittle(f.bodyLen, f.endian);
    ReadAsLittle(f.serial, f.endian);
    ReadAsLittle(f.fieldsLen, f.endian);
  }

  /** `whole` is the complete frame of what the library sent, and it reads back as what was sent. */
  predicate ReadsBack(f: Fixed, h: Header, body: bytes, whole: bytes)
    requires |whole| >= 16 && |body| <= |whole|
  {
    LibraryParse(whole) == Done(Received(f.(valid := true), h, whole, |whole| - |body|))
    && FrameSize(f) == |whole|
  }

  /** What fits the header of the library: no length is cut and no 32-bit sum wraps. */
  predicate LibraryFits(h: Header, fields: bytes, body: bytes) {
    ShortSignature(h) && |fields| < TWO_32 - 16 && |body| < TWO_32
  }

  lemma FrameSizeExact(f: Fixed, fields: bytes, body: bytes)
    requires f.bodyLen == |body| % TWO_32 && f.fieldsLen == |fields| % TWO_32
    ensures FrameSize(f) == |Assemble(f, fields, body)| <==> |fields| < TWO_32 - 16 && |body| < TWO_32
    ensures |fields| < TWO_32 - 16 ==> HeaderEnd(f) == 16 + |fields|
  {
    hide PutFixed;
    var n, k := |fields|, |fields| / TWO_32;
    var v := 16 + n - k * TWO_32;
    assert n % TWO_32 == n - k * TWO_32;
    var turns := if v < TWO_32 then k else k + 1;
    assert HeaderEnd(f) == 16 + n - turns * TWO_32;
    PadAfterHeader(n);
    PadShift(HeaderEnd(f), turns * (TWO_32 / 8), 8);
  }

  /** Signatures the field loop reads are never longer than their length byte allows. */
  lemma {:induction false} ReadSignaturesShort(data: bytes, pos: nat, end: nat, e: byte, codec: Codec)
    requires pos <= |data|
    ensures forall i | 0 <= i < |GetFields(data, pos, end, e, codec).fields| ::
      var f := GetFields(data, pos, end, e, codec).fields[i]; f.SigField? ==> |f.sig| <= 255
    decreases |data| - pos
  {
    hide FromWire, GetString;
    var p := AlignIfFits(pos, |data|);
    if pos < end && p < end {
      GetFieldAdvances(data, p, e);
      match GetField(data, p, e)
      case Got(f, q) => ReadSignaturesShort(data, q, end, e, codec);
      case _ =>
    }
  }

  lemma {:induction false} StoredSignatureShort(g: Header, fs: seq<Field>)
    requires ShortSignature(g)
    requires forall i | 0 <= i < |fs| :: fs[i].SigField? ==> |fs[i].sig| <= 255
    ensures ShortSignature(StoreAll(g, fs))
    decreases fs
  {
    if fs != [] {
      StoredSignatureShort(Store(g, fs[0]), fs[1..]);
    }
  }

  lemma ParsedSignatureShort(data: bytes)
    requires |data| >= 16
    ensures LibraryParse(data).Done? ==> ShortSignature(LibraryParse(data).value.header)
  {
    hide GetFields, GetFixed, StoreAll, ShortSignature;
    assert ShortSignature(NO_FIELDS) by { NoSignature(); }
    ReadSignaturesShort(data, 16, HeaderEnd(GetFixed(data)), LITTLE, Library);
    StoredSignatureShort(NO_FIELDS, GetFields(data, 16, HeaderEnd(GetFixed(data)), LITTLE, Library).fields);
  }

  lemma NoSignature()
    ensures ShortSignature(NO_FIELDS)
  {
  }

  /** The library reads a frame whose fixed header it reads correctly. */
  lemma LibraryReads(f: Fixed, h: Header, body: bytes, writer: Codec)
    requires LibraryFits(h, HeaderArray(h, writer, LITTLE), body)
    requires f.bodyLen == |body| && f.fieldsLen == |HeaderArray(h, writer, LITTLE)|
    requires f.version == 1 && ReadsLittle(f)
    ensures ReadsBack(f, h, body, Assemble(f, HeaderArray(h, writer, LITTLE), body))
  {
    hide HeaderArray, GetFields, GetFixed, PutFixed, StoreAll, ReadsLittle;
    var fields := HeaderArray(h, writer, LITTLE);
    var data := Assemble(f, fields, body);
    assert At(data, 0, data);
    AssembledParts(data, f, fields, body);
    FixedRoundTrip(data, f);
    FrameSizeExact(f, fields, body);
    ArrayReadBack(data, h, writer, Library, LITTLE);
    StoreRestores(h, writer);
    PadAfterHeader(|fields|);
  }

  /**
   * Library round trip, for every fixed header, header record and body: what
   * serialize() sends reads back exactly - every field, the whole frame, the
   * cursor on the body - if and only if the version is 1, the byte order is
   * not big-endian (or the three words look the same in both orders), and
   * no length is cut or wraps.
   */
  lemma LibraryRoundTrip(f: Fixed, h: Header, body: bytes)
    ensures ReadsBack(SentHeader(f, h, body), h, body, LibrarySerialize(f, h, body)) <==>
            f.version == 1 && ReadsLittle(SentHeader(f, h, body))
            && LibraryFits(h, HeaderArray(h, Library, LITTLE), body)
  {
    hide HeaderArray, GetFields, GetFixed, PutFixed, StoreAll, ReadsLittle, ShortSignature;
    var fields := HeaderArray(h, Library, LITTLE);
    var f', data := SentHeader(f, h, body), LibrarySerialize(f, h, body);
    assert At(data, 0, data);
    AssembledParts(data, f', fields, body);
    FixedRoundTrip(data, f');
    FrameSizeExact(f', fields, body);
    ParsedSignatureShort(data);
    if f.version == 1 && ReadsLittle(f') && LibraryFits(h, fields, body) {
      LibraryReads(f', h, body, Library);
    }
  }

  /** A big-endian message the library cannot read back: an empty method call with serial 1. */
  lemma BigEndianIsLost()
    ensures var m := Message(BIG, METHOD_CALL, 0, 1, NO_FIELDS, []);
      var f := SentHeader(FixedOf(m), m.header, m.body);
      !ReadsBack(f, m.header, m.body, LibrarySerialize(FixedOf(m), m.header, m.body))
  {
    hide HeaderArray, GetFields, GetFixed, PutFixed, StoreAll, FrameSize, LibraryParse, Bswap32, LibraryFits,
         ReadsBack, LibrarySerialize;
    var m := Message(BIG, METHOD_CALL, 0, 1, NO_FIELDS, []);
    LibraryRoundTrip(FixedOf(m), m.header, m.body);
    assert Bswap32(1) == 0x100_0000 by { SwapOfOne(); }
  }

  lemma SwapOfOne()
    ensures Bswap32(1) == 0x100_0000
  {
  }
}
