/**
 * The dynamic part of a message header: nine optional fields, each an
 * 8-aligned struct of a code byte, a one-character signature and a value.
 */
module Fields {
  import opened Basics
  import opened ByteOrder
  import opened Values

  const PATH: byte := 1
  const INTERFACE: byte := 2
  const MEMBER: byte := 3
  const ERROR_NAME: byte := 4
  const REPLY_SERIAL: byte := 5
  const DESTINATION: byte := 6
  const SENDER: byte := 7
  const SIGNATURE: byte := 8
  const UNIX_FDS: byte := 9

  // Signature characters.
  const STR: byte := 115
  const OBJ: byte := 111
  const SIG: byte := 103
  const U32: byte := 117

  datatype Header = Header(
    path: Option<bytes>, interface: Option<bytes>, member: Option<bytes>, errorName: Option<bytes>,
    replySerial: Option<u32>, destination: Option<bytes>, sender: Option<bytes>,
    signature: Option<bytes>, unixFds: Option<u32>)

  const NO_FIELDS := Header(None, None, None, None, None, None, None, None, None)

  /** One struct of the header array.  `Unread`: a signature the parsers know nothing of; its value is not skipped. */
  datatype Field =
    | TextField(code: byte, kind: byte, text: bytes)
    | SigField(code: byte, sig: bytes)
    | NumField(code: byte, num: u32)
    | Unread(code: byte, kinds: bytes)

  // ---------------------------------------------------------------- writing

  predicate Writable(f: Field) {
    match f
    case TextField(_, kind, _) => kind == STR || kind == OBJ
    case Unread(_, _) => false
    case _ => true
  }

  predicate FieldFits(f: Field) {
    Writable(f) && (f.TextField? ==> |f.text| < TWO_32) && (f.SigField? ==> |f.sig| <= 255)
  }

  predicate AllWritable(fs: seq<Field>) {
    forall i | 0 <= i < |fs| :: Writable(fs[i])
  }

  predicate AllFit(fs: seq<Field>)
    ensures AllFit(fs) ==> AllWritable(fs)
  {
    forall i | 0 <= i < |fs| :: FieldFits(fs[i])
  }

  function FieldKind(f: Field): byte
    requires Writable(f)
  {
    match f
    case TextField(_, kind, _) => kind
    case SigField(_, _) => SIG
    case NumField(_, _) => U32
  }

  /** The value of a field, `off` being the offset it is written at: always 4 modulo 8. */
  function PutFieldValue(f: Field, off: nat, e: byte): bytes
    requires Writable(f)
  {
    match f
    case TextField(_, _, text) => PutString(text, off, e)
    case SigField(_, sig) => PutSignature(sig)
    case NumField(_, num) => PutWord(num, 4, off, e)
  }

  /** A field struct without the padding in front of it. */
  function PutStruct(f: Field, off: nat, e: byte): bytes
    requires Writable(f)
  {
    [f.code] + (PutSignature([FieldKind(f)]) + PutFieldValue(f, off + 4, e))
  }

  function PutField(f: Field, off: nat, e: byte): bytes
    requires Writable(f)
  {
    Zeros(Pad(off, 8)) + PutStruct(f, off + Pad(off, 8), e)
  }

  function PutFields(fs: seq<Field>, off: nat, e: byte): bytes
    requires AllWritable(fs)
  {
    if fs == [] then []
    else
      var first := PutField(fs[0], off, e);
      first + PutFields(fs[1..], off + |first|, e)
  }

  /** A field after the bytes already written, piece by piece. */
  lemma FieldPieces(before: bytes, f: Field, e: byte)
    requires Writable(f)
    ensures var off := |before|;
      before + PutField(f, off, e) == before + Zeros(Pad(off, 8)) + [f.code] + PutSignature([FieldKind(f)])
                                      + PutFieldValue(f, off + Pad(off, 8) + 4, e)
  {
    hide PutSignature, PutFieldValue, Zeros, Pad;
  }

  lemma Regrouped(a: seq<Field>, b: seq<Field>, c: seq<Field>)
    ensures a + (b + c) == a + b + c
  {
  }

  lemma NothingPut(off: nat, e: byte)
    ensures PutFields([], off, e) == []
  {
  }

  lemma {:induction false} PutFieldsAppend(fs: seq<Field>, gs: seq<Field>, off: nat, e: byte)
    requires AllWritable(fs) && AllWritable(gs)
    ensures PutFields(fs + gs, off, e) == PutFields(fs, off, e) + PutFields(gs, off + |PutFields(fs, off, e)|, e)
    decreases fs
  {
    hide PutField;
    if fs == [] {
      assert fs + gs == gs;
    } else {
      var first := PutField(fs[0], off, e);
      assert (fs + gs)[1..] == fs[1..] + gs;
      PutFieldsAppend(fs[1..], gs, off + |first|, e);
    }
  }

  lemma PutFieldShift(f: Field, off: nat, blocks: nat, e: byte)
    requires Writable(f)
    ensures PutField(f, 8 * blocks + off, e) == PutField(f, off, e)
  {
    hide ToWire;
    PadShift(off, blocks, 8);
    PadShift(off + Pad(off, 8) + 4, blocks, 4);
  }

  /** A header array may be written at offset 0 and moved to any multiple of 8. */
  lemma {:induction false} PutFieldsShift(fs: seq<Field>, off: nat, blocks: nat, e: byte)
    requires AllWritable(fs)
    ensures PutFields(fs, 8 * blocks + off, e) == PutFields(fs, off, e)
    decreases fs
  {
    hide PutField;
    if fs != [] {
      PutFieldShift(fs[0], off, blocks, e);
      PutFieldsShift(fs[1..], off + |PutField(fs[0], off, e)|, blocks, e);
    }
  }

  // ---------------------------------------------------------------- reading

  /** A field struct from its code byte on. */
  function GetField(data: bytes, pos: nat, e: byte): Read<Field>
    requires pos <= |data|
  {
    match GetByte(data, pos)
    case Miss(p) => Miss(p)
    case Overrun => Overrun
    case Got(code, p1) =>
      match GetSignature(data, p1)
      case Miss(p) => Miss(p)
      case Overrun => Overrun
      case Got(kinds, p2) => GetFieldValue(data, p2, e, code, kinds)
  }

  function GetFieldValue(data: bytes, pos: nat, e: byte, code: byte, kinds: bytes): Read<Field>
    requires pos <= |data|
  {
    if kinds == [STR] || kinds == [OBJ] then
      MapRead(GetString(data, pos, e), s => TextField(code, kinds[0], s))
    else if kinds == [SIG] then
      MapRead(GetSignature(data, pos), s => SigField(code, s))
    else if kinds == [U32] then
      MapRead(GetWord(data, pos, 4, e), w requires 0 <= w < TWO_32 => NumField(code, w))
    else
      Got(Unread(code, kinds), pos)
  }

  /** The library ignores an alignment that does not fit; the example reports it. */
  datatype Codec = Library | Example

  datatype Status = Finished | Refused | Crashed

  /** How the field loop ended, the fields it stored on the way and where the cursor stopped. */
  datatype Loop = Loop(status: Status, fields: seq<Field>, pos: nat)

  /** The loop over the header array in `data`, from `pos` up to `end`. */
  function GetFields(data: bytes, pos: nat, end: nat, e: byte, codec: Codec): (r: Loop)
    requires pos <= |data|
    ensures pos <= r.pos <= |data|
    decreases |data| - pos
  {
    if pos >= end then Loop(Finished, [], pos)
    else
      var fits := pos + Pad(pos, 8) <= |data|;
      if !fits && codec.Example? then Loop(Refused, [], pos)
      else
        var p := if fits then pos + Pad(pos, 8) else pos;
        if p >= end then Loop(Finished, [], p)
        else
          GetFieldAdvances(data, p, e);
          match GetField(data, p, e)
          case Miss(q) => Loop(Refused, [], q)
          case Overrun => Loop(Crashed, [], p)
          case Got(f, q) => After([f], GetFields(data, q, end, e, codec))
  }

  function After(fs: seq<Field>, rest: Loop): Loop {
    rest.(fields := fs + rest.fields)
  }

  /** Every field read consumes at least its code byte and stays inside the buffer. */
  lemma GetFieldAdvances(data: bytes, pos: nat, e: byte)
    requires pos <= |data|
    ensures GetField(data, pos, e).Overrun? || InBounds(GetField(data, pos, e), pos, |data|)
  {
    hide FromWire;
  }

  /** Some word of the buffer is 2^32 - 1. */
  ghost predicate HasMaxWord(data: bytes, e: byte) {
    exists q: nat | q + 4 <= |data| :: WordAt(data, q, e) == TWO_32 - 1
  }

  function WordAt(data: bytes, q: nat, e: byte): u32
    requires q + 4 <= |data|
  {
    FromWire(data[q..q + 4], e)
  }

  lemma FieldCrash(data: bytes, pos: nat, e: byte)
    requires pos <= |data| && GetField(data, pos, e).Overrun?
    ensures HasMaxWord(data, e)
  {
    hide FromWire;
    var code := GetByte(data, pos);
    var kinds := GetSignature(data, code.pos);
    var p := kinds.pos + Pad(kinds.pos, 4);
    assert WordAt(data, p, e) == TWO_32 - 1;
  }

  /**
   * On arbitrary bytes: the loop over the header ends, on every path, with
   * its cursor inside the buffer (its contract), and it runs past the buffer
   * only if that holds a word 2^32 - 1.
   */
  lemma {:induction false} LoopStaysInside(data: bytes, pos: nat, end: nat, e: byte, codec: Codec)
    requires pos <= |data| && !HasMaxWord(data, e)
    ensures var loop := GetFields(data, pos, end, e, codec);
      !loop.status.Crashed? && pos <= loop.pos <= |data| && |loop.fields| <= loop.pos - pos
    decreases |data| - pos
  {
    hide GetField, HasMaxWord;
    if pos < end {
      var p := if pos + Pad(pos, 8) <= |data| then pos + Pad(pos, 8) else pos;
      if p < end {
        GetFieldAdvances(data, p, e);
        match GetField(data, p, e)
        case Got(_, q) => LoopStaysInside(data, q, end, e, codec);
        case Overrun => FieldCrash(data, p, e);
        case Miss(_) =>
      }
    }
  }

  /** The field struct at `pos` holds a text of length 2^32 - 1, and the buffer does not. */
  predicate OverlongText(data: bytes, pos: nat, e: byte)
    requires pos <= |data|
  {
    match GetByte(data, pos)
    case Miss(_) | Overrun => false
    case Got(_, p1) =>
      match GetSignature(data, p1)
      case Miss(_) | Overrun => false
      case Got(kinds, p2) =>
        (kinds == [STR] || kinds == [OBJ])
        && match GetWord(data, p2, 4, e)
           case Miss(_) | Overrun => false
           case Got(len, p) => len == TWO_32 - 1 && p + len >= |data|
  }

  /** Reading a field runs past the buffer exactly at such a text. */
  lemma FieldOverruns(data: bytes, pos: nat, e: byte)
    requires pos <= |data|
    ensures GetField(data, pos, e).Overrun? <==> OverlongText(data, pos, e)
  {
    hide GetString, FromWire, Pad;
    if GetByte(data, pos).Got? && GetSignature(data, pos + 1).Got? {
      StringInBounds(data, GetSignature(data, pos + 1).pos, e);
      StringCursor(data, GetSignature(data, pos + 1).pos, e);
    }
  }

  /** Where the last field lies that the loop begins to read. */
  function LastField(data: bytes, pos: nat, end: nat, e: byte, codec: Codec): (r: Option<nat>)
    requires pos <= |data|
    ensures r.Some? ==> r.value <= |data|
    decreases |data| - pos
  {
    if pos >= end || (codec.Example? && pos + Pad(pos, 8) > |data|) then None
    else
      var p := if pos + Pad(pos, 8) <= |data| then pos + Pad(pos, 8) else pos;
      if p >= end then None
      else
        GetFieldAdvances(data, p, e);
        match GetField(data, p, e)
        case Miss(_) | Overrun => Some(p)
        case Got(_, q) =>
          var later := LastField(data, q, end, e, codec);
          if later.Some? then later else Some(p)
  }

  /** On arbitrary bytes: the loop runs past the buffer exactly when the last field it begins to read is overlong. */
  lemma {:induction false} LoopOverruns(data: bytes, pos: nat, end: nat, e: byte, codec: Codec)
    requires pos <= |data|
    ensures GetFields(data, pos, end, e, codec).status.Crashed? <==>
            match LastField(data, pos, end, e, codec)
            case Some(p) => OverlongText(data, p, e)
            case None => false
    decreases |data| - pos
  {
    hide GetField, OverlongText;
    if pos < end {
      var p := if pos + Pad(pos, 8) <= |data| then pos + Pad(pos, 8) else pos;
      if p < end {
        GetFieldAdvances(data, p, e);
        FieldOverruns(data, p, e);
        match GetField(data, p, e)
        case Got(_, q) => LoopOverruns(data, q, end, e, codec);
        case _ =>
      }
    }
  }

  lemma FieldValueRoundTrip(data: bytes, pos: nat, f: Field, e: byte)
    requires FieldFits(f)
    requires At(data, pos, PutFieldValue(f, pos, e))
    ensures GetFieldValue(data, pos, e, f.code, [FieldKind(f)]) == Got(f, pos + |PutFieldValue(f, pos, e)|)
  {
    hide PutWord, PutString, PutSignature, GetWord, GetString, GetSignature;
    match f
    case TextField(_, _, text) => StringRoundTrip(data, pos, text, e);
    case SigField(_, sig) => SignatureRoundTrip(data, pos, sig);
    case NumField(_, num) => WordRoundTrip(data, pos, num, 4, e);
  }

  lemma FieldRoundTrip(data: bytes, pos: nat, f: Field, e: byte)
    requires FieldFits(f)
    requires At(data, pos, PutStruct(f, pos, e))
    ensures GetField(data, pos, e) == Got(f, pos + |PutStruct(f, pos, e)|)
  {
    hide PutFieldValue, GetFieldValue, PutSignature, GetSignature;
    var kinds, value := PutSignature([FieldKind(f)]), PutFieldValue(f, pos + 4, e);
    AtSplit(data, pos, [f.code], kinds + value);
    AtSplit(data, pos + 1, kinds, value);
    assert data[pos] == data[pos..pos + 1][0];
    SignatureRoundTrip(data, pos + 1, [FieldKind(f)]);
    FieldValueRoundTrip(data, pos + 4, f, e);
  }

  /** One turn of either loop over a written field. */
  lemma FieldStep(data: bytes, pos: nat, end: nat, f: Field, e: byte, codec: Codec)
    requires FieldFits(f)
    requires At(data, pos, PutField(f, pos, e))
    requires pos + |PutField(f, pos, e)| <= end
    ensures GetFields(data, pos, end, e, codec)
         == After([f], GetFields(data, pos + |PutField(f, pos, e)|, end, e, codec))
  {
    hide PutStruct, GetField;
    var pad := Pad(pos, 8);
    AtSplit(data, pos, Zeros(pad), PutStruct(f, pos + pad, e));
    StructNotEmpty(f, pos + pad, e);
    FieldRoundTrip(data, pos + pad, f, e);
  }

  lemma FieldsEnd(data: bytes, end: nat, e: byte, codec: Codec)
    requires end <= |data|
    ensures GetFields(data, end, end, e, codec) == Loop(Finished, [], end)
  {
  }

  /** Both field loops read back exactly the fields written, and stop at the end of the array. */
  lemma {:induction false} FieldsRoundTrip(data: bytes, pos: nat, fs: seq<Field>, e: byte, codec: Codec)
    requires AllFit(fs)
    requires At(data, pos, PutFields(fs, pos, e))
    ensures var end := pos + |PutFields(fs, pos, e)|;
      GetFields(data, pos, end, e, codec) == Loop(Finished, fs, end)
    decreases fs
  {
    hide PutField, FieldFits, GetFields;
    if fs == [] {
      FieldsEnd(data, pos, e, codec);
    } else {
      var first := PutField(fs[0], pos, e);
      AtSplit(data, pos, first, PutFields(fs[1..], pos + |first|, e));
      FieldStep(data, pos, pos + |PutFields(fs, pos, e)|, fs[0], e, codec);
      FieldsRoundTrip(data, pos + |first|, fs[1..], e, codec);
      assert [fs[0]] + fs[1..] == fs;
    }
  }

  lemma StructNotEmpty(f: Field, off: nat, e: byte)
    requires Writable(f)
    ensures |PutStruct(f, off, e)| > 0
  {
    hide PutFieldValue;
  }

  // ------------------------------------------------- fields and the header record

  /** Storing a parsed field: the value must have the type its code calls for. */
  function Store(h: Header, f: Field): Header {
    match f
    case TextField(code, _, v) =>
      if code == PATH then h.(path := Some(v))
      else if code == INTERFACE then h.(interface := Some(v))
      else if code == MEMBER then h.(member := Some(v))
      else if code == ERROR_NAME then h.(errorName := Some(v))
      else if code == DESTINATION then h.(destination := Some(v))
      else if code == SENDER then h.(sender := Some(v))
      else h
    case SigField(code, v) => if code == SIGNATURE then h.(signature := Some(v)) else h
    case NumField(code, v) =>
      if code == REPLY_SERIAL then h.(replySerial := Some(v))
      else if code == UNIX_FDS then h.(unixFds := Some(v))
      else h
    case Unread(_, _) => h
  }

  function StoreAll(h: Header, fs: seq<Field>): Header
    decreases fs
  {
    if fs == [] then h else StoreAll(Store(h, fs[0]), fs[1..])
  }

  lemma {:induction false} StoreAllAppend(h: Header, fs: seq<Field>, gs: seq<Field>)
    ensures StoreAll(h, fs + gs) == StoreAll(StoreAll(h, fs), gs)
    decreases fs
  {
    if fs == [] {
      assert fs + gs == gs;
    } else {
      assert (fs + gs)[1..] == fs[1..] + gs;
      StoreAllAppend(Store(h, fs[0]), fs[1..], gs);
    }
  }

  /** Fields a writer can be given; a signature field carries the signature of the header. */
  predicate Typed(fs: seq<Field>, sig: Option<bytes>) {
    forall i | 0 <= i < |fs| :: Writable(fs[i]) && (fs[i].SigField? ==> sig == Some(fs[i].sig))
  }

  lemma TypedAppend(fs: seq<Field>, gs: seq<Field>, sig: Option<bytes>)
    requires Typed(fs, sig) && Typed(gs, sig)
    ensures Typed(fs + gs, sig)
  {
  }

  function Text(code: byte, kind: byte, v: Option<bytes>): (fs: seq<Field>)
    ensures |fs| <= 1 && (|fs| == 1 ==> fs[0].TextField?)
    ensures kind == STR || kind == OBJ ==> AllWritable(fs)
  {
    if v.Some? then [TextField(code, kind, v.value)] else []
  }

  function Num(code: byte, v: Option<u32>): (fs: seq<Field>)
    ensures |fs| <= 1 && (|fs| == 1 ==> fs[0].NumField?) && AllWritable(fs)
  {
    if v.Some? then [NumField(code, v.value)] else []
  }

  function Sig(v: Option<bytes>): (fs: seq<Field>)
    ensures |fs| <= 1 && (|fs| == 1 ==> fs[0].SigField?) && AllWritable(fs)
  {
    if v.Some? then [SigField(SIGNATURE, v.value)] else []
  }

  /** The four fields both writers put first. */
  function Leading(h: Header): (fs: seq<Field>)
    ensures Typed(fs, h.signature)
  {
    Text(PATH, OBJ, h.path) + Text(INTERFACE, STR, h.interface)
    + Text(MEMBER, STR, h.member) + Text(ERROR_NAME, STR, h.errorName)
  }

  function Peers(h: Header): (fs: seq<Field>)
    ensures Typed(fs, h.signature)
  {
    Text(DESTINATION, STR, h.destination) + Text(SENDER, STR, h.sender)
  }

  /** Order of the library: reply serial and file descriptors after the sender, signature last. */
  function LibraryFields(h: Header): seq<Field> {
    Leading(h) + Peers(h) + Num(REPLY_SERIAL, h.replySerial) + Num(UNIX_FDS, h.unixFds) + Sig(h.signature)
  }

  /** Order of the example: reply serial before the destination, file descriptors last. */
  function ExampleFields(h: Header): seq<Field> {
    Leading(h) + Num(REPLY_SERIAL, h.replySerial) + Peers(h) + Sig(h.signature) + Num(UNIX_FDS, h.unixFds)
  }

  function HeaderFields(h: Header, codec: Codec): seq<Field> {
    if codec.Library? then LibraryFields(h) else ExampleFields(h)
  }

  /** What both parsers promise each other: the stored fields rebuild the record, whatever the writing order. */
  lemma StoreRestores(h: Header, codec: Codec)
    ensures StoreAll(NO_FIELDS, HeaderFields(h, codec)) == h
  {
    hide StoreAll, Leading, Peers, Num, Sig;
    StoreLeading(h);
    var g := StoreAll(NO_FIELDS, Leading(h));
    var serial, fds := Num(REPLY_SERIAL, h.replySerial), Num(UNIX_FDS, h.unixFds);
    if codec.Library? {
      StoreAllAppend(NO_FIELDS, Leading(h), Peers(h));
      StorePeers(g, h);
      var g1 := g.(destination := h.destination, sender := h.sender);
      StoreAllAppend(NO_FIELDS, Leading(h) + Peers(h), serial);
      StoreNum(g1, REPLY_SERIAL, h.replySerial);
      var g2 := g1.(replySerial := h.replySerial);
      StoreAllAppend(NO_FIELDS, Leading(h) + Peers(h) + serial, fds);
      StoreNum(g2, UNIX_FDS, h.unixFds);
      StoreAllAppend(NO_FIELDS, Leading(h) + Peers(h) + serial + fds, Sig(h.signature));
      StoreSig(g2.(unixFds := h.unixFds), h.signature);
    } else {
      StoreAllAppend(NO_FIELDS, Leading(h), serial);
      StoreNum(g, REPLY_SERIAL, h.replySerial);
      var g1 := g.(replySerial := h.replySerial);
      StoreAllAppend(NO_FIELDS, Leading(h) + serial, Peers(h));
      StorePeers(g1, h);
      var g2 := g1.(destination := h.destination, sender := h.sender);
      StoreAllAppend(NO_FIELDS, Leading(h) + serial + Peers(h), Sig(h.signature));
      StoreSig(g2, h.signature);
      StoreAllAppend(NO_FIELDS, Leading(h) + serial + Peers(h) + Sig(h.signature), fds);
      StoreNum(g2.(signature := h.signature), UNIX_FDS, h.unixFds);
    }
  }

  lemma StoreText(g: Header, code: byte, kind: byte, v: Option<bytes>)
    ensures StoreAll(g, Text(code, kind, v)) == if v.Some? then Store(g, TextField(code, kind, v.value)) else g
  {
  }

  lemma StoreLeading(h: Header)
    ensures StoreAll(NO_FIELDS, Leading(h))
         == NO_FIELDS.(path := h.path, interface := h.interface, member := h.member, errorName := h.errorName)
  {
    hide StoreAll, Text;
    var path, interface := Text(PATH, OBJ, h.path), Text(INTERFACE, STR, h.interface);
    var member := Text(MEMBER, STR, h.member);
    StoreText(NO_FIELDS, PATH, OBJ, h.path);
    var g1 := NO_FIELDS.(path := h.path);
    StoreAllAppend(NO_FIELDS, path, interface);
    StoreText(g1, INTERFACE, STR, h.interface);
    var g2 := g1.(interface := h.interface);
    StoreAllAppend(NO_FIELDS, path + interface, member);
    StoreText(g2, MEMBER, STR, h.member);
    StoreAllAppend(NO_FIELDS, path + interface + member, Text(ERROR_NAME, STR, h.errorName));
    StoreText(g2.(member := h.member), ERROR_NAME, STR, h.errorName);
  }

  lemma StorePeers(g: Header, h: Header)
    requires g.destination.None? && g.sender.None?
    ensures StoreAll(g, Peers(h)) == g.(destination := h.destination, sender := h.sender)
  {
    hide StoreAll, Text;
    StoreText(g, DESTINATION, STR, h.destination);
    StoreAllAppend(g, Text(DESTINATION, STR, h.destination), Text(SENDER, STR, h.sender));
    StoreText(g.(destination := h.destination), SENDER, STR, h.sender);
  }

  lemma StoreNum(g: Header, code: byte, v: Option<u32>)
    requires (code == REPLY_SERIAL && g.replySerial.None?) || (code == UNIX_FDS && g.unixFds.None?)
    ensures StoreAll(g, Num(code, v)) == if code == REPLY_SERIAL then g.(replySerial := v) else g.(unixFds := v)
  {
  }

  lemma StoreSig(g: Header, v: Option<bytes>)
    requires g.signature.None?
    ensures StoreAll(g, Sig(v)) == g.(signature := v)
  {
  }

  // ------------------------------------------- steps of an accumulating loop

  lemma AfterNothing(rest: Loop)
    ensures After([], rest) == rest
  {
  }

  lemma AfterLast(seen: seq<Field>, last: Loop)
    requires last.fields == []
    ensures After(seen, last) == Loop(last.status, seen, last.pos)
  {
  }

  lemma StoreNothing()
    ensures StoreAll(NO_FIELDS, []) == NO_FIELDS
  {
  }

  lemma StoreLast(seen: seq<Field>, f: Field)
    ensures StoreAll(NO_FIELDS, seen + [f]) == Store(StoreAll(NO_FIELDS, seen), f)
  {
    StoreAllAppend(NO_FIELDS, seen, [f]);
  }

  lemma AfterTwice(a: seq<Field>, b: seq<Field>, rest: Loop)
    ensures After(a, After(b, rest)) == After(a + b, rest)
  {
    assert a + (b + rest.fields) == (a + b) + rest.fields;
  }

  // ------------------------------------------------------------------- lengths

  /** Size of a field struct at an 8-aligned offset. */
  function StructSize(f: Field): nat {
    match f
    case TextField(_, _, text) => 9 + |text|
    case SigField(_, sig) => 6 + |sig|
    case NumField(_, _) => 8
    case Unread(_, _) => 0
  }

  function RoundUp(n: nat): nat { n + Pad(n, 8) }

  function TotalSize(fs: seq<Field>): nat {
    if fs == [] then 0 else RoundUp(StructSize(fs[0])) + TotalSize(fs[1..])
  }

  lemma {:induction false} TotalSizeAppend(fs: seq<Field>, gs: seq<Field>)
    ensures TotalSize(fs + gs) == TotalSize(fs) + TotalSize(gs)
    decreases fs
  {
    hide RoundUp, StructSize;
    if fs == [] {
      assert fs + gs == gs;
    } else {
      assert (fs + gs)[1..] == fs[1..] + gs;
      TotalSizeAppend(fs[1..], gs);
    }
  }

  lemma StructSizeIs(f: Field, off: nat, e: byte)
    requires Writable(f) && off % 8 == 0
    ensures |PutStruct(f, off, e)| == StructSize(f)
  {
    hide ToWire;
    assert Pad(off + 4, 4) == 0;
  }

  lemma RoundUpSum(a: nat, b: nat)
    requires a % 8 == 0
    ensures RoundUp(a + b) == a + RoundUp(b)
  {
    PadShift(b, a / 8, 8);
  }

  /** Padded to 8, an array of fields has the same length in every order and in both byte orders. */
  lemma {:induction false} ArraySize(fs: seq<Field>, off: nat, e: byte)
    requires AllWritable(fs)
    ensures RoundUp(off + |PutFields(fs, off, e)|) == RoundUp(off) + TotalSize(fs)
    decreases fs
  {
    hide RoundUp, StructSize, PutStruct, Writable;
    if fs != [] {
      var up := off + Pad(off, 8);
      var first := PutField(fs[0], off, e);
      StructSizeIs(fs[0], up, e);
      ArraySize(fs[1..], off + |first|, e);
      assert off + |first| == up + StructSize(fs[0]);
      RoundUpSum(up, StructSize(fs[0]));
      assert up == RoundUp(off) by { RoundUpIs(off); }
    }
  }

  lemma RoundUpIs(n: nat)
    ensures RoundUp(n) == n + Pad(n, 8)
  {
  }

  lemma OrderKeepsSize(h: Header)
    ensures TotalSize(LibraryFields(h)) == TotalSize(ExampleFields(h))
  {
    hide TotalSize, Leading, Peers, Num, Sig;
    var serial, fds := Num(REPLY_SERIAL, h.replySerial), Num(UNIX_FDS, h.unixFds);
    TotalSizeAppend(Leading(h), Peers(h));
    TotalSizeAppend(Leading(h) + Peers(h), serial);
    TotalSizeAppend(Leading(h) + Peers(h) + serial, fds);
    TotalSizeAppend(Leading(h) + Peers(h) + serial + fds, Sig(h.signature));
    TotalSizeAppend(Leading(h), serial);
    TotalSizeAppend(Leading(h) + serial, Peers(h));
    TotalSizeAppend(Leading(h) + serial + Peers(h), Sig(h.signature));
    TotalSizeAppend(Leading(h) + serial + Peers(h) + Sig(h.signature), fds);
  }

  // ------------------------------------------------------------ what must fit

  predicate ShortSignature(h: Header) {
    h.signature.Some? ==> |h.signature.value| <= 255
  }

  lemma HeaderTyped(h: Header, codec: Codec)
    ensures Typed(HeaderFields(h, codec), h.signature)
    ensures AllWritable(HeaderFields(h, codec))
  {
    hide Leading, Peers;
    var serial, fds, sig := Num(REPLY_SERIAL, h.replySerial), Num(UNIX_FDS, h.unixFds), Sig(h.signature);
    if codec.Library? {
      TypedAppend(Leading(h), Peers(h), h.signature);
      TypedAppend(Leading(h) + Peers(h), serial, h.signature);
      TypedAppend(Leading(h) + Peers(h) + serial, fds, h.signature);
      TypedAppend(Leading(h) + Peers(h) + serial + fds, sig, h.signature);
    } else {
      TypedAppend(Leading(h), serial, h.signature);
      TypedAppend(Leading(h) + serial, Peers(h), h.signature);
      TypedAppend(Leading(h) + serial + Peers(h), sig, h.signature);
      TypedAppend(Leading(h) + serial + Peers(h) + sig, fds, h.signature);
    }
  }

  /** In an array of less than 2^32 bytes every string is short enough for its length word. */
  lemma {:induction false} ArrayBoundsTexts(fs: seq<Field>, off: nat, e: byte)
    requires AllWritable(fs)
    requires |PutFields(fs, off, e)| < TWO_32
    requires forall i | 0 <= i < |fs| :: fs[i].SigField? ==> |fs[i].sig| <= 255
    ensures AllFit(fs)
    decreases fs
  {
    hide PutStruct;
    if fs != [] {
      var first := PutField(fs[0], off, e);
      StructSizeIs(fs[0], off + Pad(off, 8), e);
      ArrayBoundsTexts(fs[1..], off + |first|, e);
      forall i | 0 <= i < |fs| ensures FieldFits(fs[i]) {
        if i > 0 { assert fs[i] == fs[1..][i - 1]; }
      }
    }
  }

  lemma HeaderFits(h: Header, codec: Codec, off: nat, e: byte)
    requires AllWritable(HeaderFields(h, codec))
    requires |PutFields(HeaderFields(h, codec), off, e)| < TWO_32 && ShortSignature(h)
    ensures AllFit(HeaderFields(h, codec))
  {
    hide PutFields, HeaderFields;
    HeaderTyped(h, codec);
    ArrayBoundsTexts(HeaderFields(h, codec), off, e);
  }
}
