/**
 * The protocol in plain numbers: what words, values, header fields and whole
 * messages look like on the wire, byte by byte, with no name of a constant
 * between the model and the numbers of the D-Bus specification.
 */
module Literals {
  import opened Basics
  import opened ByteOrder
  import opened Values
  import opened Fields
  import opened Messages
  import opened Interop
  import opened Framing
  import opened Delivery
  import opened ConnectionModel
  import opened ConnectionProofs
  import opened ConnectionRuns
  import opened Settling
  import opened Sockets
  import opened Welcome
  import opened StrangeFields

  // ---------------------------------------------------------------- words and values

  /** The number whose digits in base 256 are `bs`, least significant first. */
  function Number(bs: bytes): nat {
    if bs == [] then 0 else bs[0] + 256 * Number(bs[1..])
  }

  lemma NumberOfFour(b0: byte, b1: byte, b2: byte, b3: byte)
    ensures Number([b0, b1, b2, b3]) == Value32(b0, b1, b2, b3)
  {
    assert [b0, b1, b2, b3][1..] == [b1, b2, b3] && [b1, b2, b3][1..] == [b2, b3] && [b2, b3][1..] == [b3];
    assert Number([b3]) == b3 by { assert [b3][1..] == []; }
    assert Number([b2, b3]) == b2 + 256 * b3;
    assert Number([b1, b2, b3]) == b1 + 256 * (b2 + 256 * b3);
  }

  lemma NumberOfTwo(b0: byte, b1: byte)
    ensures Number([b0, b1]) == b0 + 256 * b1
  {
    assert [b0, b1][1..] == [b1];
    assert Number([b1]) == b1 by { assert [b1][1..] == []; }
  }

  lemma NumberAppend(a: bytes, b: bytes)
    requires |a| == 4
    ensures Number(a + b) == Number(a) + 0x1_0000_0000 * Number(b)
  {
    var s := a + b;
    assert s[1..][1..][1..][1..] == b;
    assert Number(s) == s[0] + 256 * (s[1] + 256 * (s[2] + 256 * (s[3] + 256 * Number(b)))) by {
      assert Number(s[1..][1..][1..]) == s[3] + 256 * Number(b);
      assert Number(s[1..][1..]) == s[2] + 256 * Number(s[1..][1..][1..]);
      assert Number(s[1..]) == s[1] + 256 * Number(s[1..][1..]);
    }
    NumberOfFour(a[0], a[1], a[2], a[3]);
    assert a == [a[0], a[1], a[2], a[3]];
  }

  /** A word on the wire: its digits, least significant first after 'l', most significant first after 'B'. */
  lemma WordDigits(v: nat, n: int)
    requires IsWidth(n) && v < Limit(n)
    ensures |ToWire(v, n, 108)| == n && Number(ToWire(v, n, 108)) == v
    ensures ToWire(v, n, 66) == Reversed(ToWire(v, n, 108))
  {
    BigIsReversedLittle(v, n);
    if n == 2 {
      NumberOfTwo(v % 256, v / 256);
    } else if n == 4 {
      QuadDigits(v);
    } else {
      QuadDigits(v % TWO_32);
      QuadDigits(v / TWO_32);
      NumberAppend(Host32(v % TWO_32), Host32(v / TWO_32));
    }
  }

  lemma QuadDigits(v: u32)
    ensures Number(Host32(v)) == v
  {
    var b0, b1, b2, b3 := OfBytes32(v);
    Bytes32(b0, b1, b2, b3);
    NumberOfFour(b0, b1, b2, b3);
  }

  lemma SmallWordBytes(v: byte)
    ensures ToWire(v, 4, 108) == [v, 0, 0, 0]
  {
  }

  /** Every word, whatever its type, begins at the next multiple of its width, after zeros. */
  lemma WordBytes(v: nat, n: int, off: nat, e: byte)
    requires IsWidth(n) && v < Limit(n)
    ensures var bs := Put(Word(n, v), off, e);
      |bs| >= n && bs[|bs| - n..] == ToWire(v, n, e) && (off + |bs|) % n == 0 && |bs| < 2 * n
      && forall i | 0 <= i < |bs| - n :: bs[i] == 0
  {
    hide ToWire;
  }

  /** Signed words are two's complement, booleans a 32-bit one or zero. */
  lemma IntBytes(i: int, n: int, off: nat, e: byte)
    requires IsWidth(n) && -Limit(n) / 2 <= i < Limit(n) / 2
    ensures Put(Int(n, i), off, e) == Put(Word(n, if i < 0 then i + Limit(n) else i), off, e)
    ensures Put(Bool(i < 0), off, e) == Put(Word(4, if i < 0 then 1 else 0), off, e)
  {
    hide ToWire;
  }

  /** Texts: a 32-bit length word or a length byte, the text, a NUL. */
  lemma LengthFirst(s: bytes, off: nat, e: byte)
    requires |s| < 256
    ensures Put(String(s), off, e) == Put(Word(4, |s|), off, e) + s + [0]
    ensures Put(Signature(s), off, e) == [|s|] + s + [0]
    ensures forall b: byte :: Put(Byte(b), off, e) == [b]
  {
    hide ToWire;
  }

  /** Every other word than 0 reads as true. */
  lemma BoolMeans(data: bytes, e: byte)
    requires |data| == 4
    ensures Get(TBool, data, 0, e) == Got(Bool(FromWire(data, e) != 0), 4)
  {
    hide FromWire;
    assert data[0..4] == data;
  }

  // ------------------------------------------------------------------- header fields

  /** A text field at a multiple of 8: code, signature, length word, text, NUL. */
  lemma TextBytes(code: byte, kind: byte, text: bytes, off: nat)
    requires off % 8 == 0 && |text| < 256 && (kind == 115 || kind == 111)
    ensures PutStruct(TextField(code, kind, text), off, 108) == [code, 1, kind, 0, |text|, 0, 0, 0] + text + [0]
  {
    hide ToWire;
    SmallWordBytes(|text|);
    assert Pad(off + 4, 4) == 0;
    assert PutSignature([kind]) == [1, kind, 0];
  }

  lemma NumBytes(code: byte, num: byte, off: nat)
    requires off % 8 == 0
    ensures PutStruct(NumField(code, num), off, 108) == [code, 1, 117, 0, num, 0, 0, 0]
  {
    hide ToWire;
    SmallWordBytes(num);
    assert Pad(off + 4, 4) == 0;
    assert PutSignature([U32]) == [1, 117, 0];
  }

  lemma SigBytes(code: byte, sig: bytes, off: nat)
    requires |sig| < 256
    ensures PutStruct(SigField(code, sig), off, 108) == [code, 1, 103, 0, |sig|] + sig + [0]
  {
    assert PutSignature([SIG]) == [1, 103, 0];
  }

  /** One field more: its padding and its struct. */
  lemma OneField(f: Field, rest: seq<Field>, off: nat)
    requires Writable(f) && AllWritable(rest)
    ensures AllWritable([f] + rest)
    ensures var up := off + Pad(off, 8);
      PutFields([f] + rest, off, 108)
      == Zeros(Pad(off, 8)) + PutStruct(f, up, 108) + PutFields(rest, up + |PutStruct(f, up, 108)|, 108)
  {
    hide PutStruct;
    assert ([f] + rest)[1..] == rest;
  }

  /** A record with all nine fields, each different from the others. */
  const NINE := Header(Some([47]), Some([105]), Some([109]), Some([101]), Some(7), Some([100]), Some([114]),
                       Some([117]), Some(3))

  // The fields of that record, byte by byte.
  const PATH_FIELD: bytes := [1, 1, 111, 0, 1, 0, 0, 0, 47, 0]
  const INTERFACE_FIELD: bytes := [2, 1, 115, 0, 1, 0, 0, 0, 105, 0]
  const MEMBER_FIELD: bytes := [3, 1, 115, 0, 1, 0, 0, 0, 109, 0]
  const ERROR_FIELD: bytes := [4, 1, 115, 0, 1, 0, 0, 0, 101, 0]
  const REPLY_FIELD: bytes := [5, 1, 117, 0, 7, 0, 0, 0]
  const DESTINATION_FIELD: bytes := [6, 1, 115, 0, 1, 0, 0, 0, 100, 0]
  const SENDER_FIELD: bytes := [7, 1, 115, 0, 1, 0, 0, 0, 114, 0]
  const SIGNATURE_FIELD: bytes := [8, 1, 103, 0, 1, 117, 0]
  const FDS_FIELD: bytes := [9, 1, 117, 0, 3, 0, 0, 0]
  const SIX: bytes := [0, 0, 0, 0, 0, 0]

  /** Fields that begin `gap` bytes before a multiple of 8 are the same after as many zeros. */
  lemma GapFirst(rest: seq<Field>, gap: nat)
    requires AllWritable(rest) && rest != [] && gap < 8
    ensures PutFields(rest, 16 - gap, 108) == Zeros(gap) + PutFields(rest, 0, 108)
  {
    hide PutStruct, PutFields, Pad, AllWritable;
    assert [rest[0]] + rest[1..] == rest;
    FrontWritable(rest);
    OneField(rest[0], rest[1..], 16 - gap);
    OneField(rest[0], rest[1..], 16);
    GapPads(gap);
    PutFieldsShift(rest, 0, 2, 108);
  }

  lemma FrontWritable(fs: seq<Field>)
    requires AllWritable(fs) && fs != []
    ensures Writable(fs[0]) && AllWritable(fs[1..])
  {
  }

  lemma GapPads(gap: nat)
    requires gap < 8
    ensures Pad(16 - gap, 8) == gap && Pad(16, 8) == 0 && Zeros(0) == []
  {
  }

  /** A one-letter text: ten bytes, and six before the next field. */
  lemma TextFirst(code: byte, kind: byte, c: byte, rest: seq<Field>)
    requires (kind == 115 || kind == 111) && AllWritable(rest) && rest != []
    ensures AllWritable([TextField(code, kind, [c])] + rest)
    ensures PutFields([TextField(code, kind, [c])] + rest, 0, 108)
         == [code, 1, kind, 0, 1, 0, 0, 0, c, 0] + [0, 0, 0, 0, 0, 0] + PutFields(rest, 0, 108)
  {
    hide PutStruct, PutFields;
    OneField(TextField(code, kind, [c]), rest, 0);
    TextBytes(code, kind, [c], 0);
    GapFirst(rest, 6);
    assert Zeros(6) == [0, 0, 0, 0, 0, 0] && Zeros(0) == [];
    assert [code, 1, kind, 0, 1, 0, 0, 0] + [c] + [0] == [code, 1, kind, 0, 1, 0, 0, 0, c, 0];
  }

  lemma NumFirst(code: byte, num: byte, rest: seq<Field>)
    requires AllWritable(rest)
    ensures AllWritable([NumField(code, num)] + rest)
    ensures PutFields([NumField(code, num)] + rest, 0, 108) == [code, 1, 117, 0, num, 0, 0, 0] + PutFields(rest, 0, 108)
  {
    hide PutStruct, PutFields;
    OneField(NumField(code, num), rest, 0);
    NumBytes(code, num, 0);
    PutFieldsShift(rest, 0, 1, 108);
    assert Zeros(0) == [];
  }

  lemma SigFirst(code: byte, c: byte, rest: seq<Field>)
    requires AllWritable(rest)
    ensures AllWritable([SigField(code, [c])] + rest)
    ensures PutFields([SigField(code, [c])] + rest, 0, 108)
         == [code, 1, 103, 0, 1, c, 0] + if rest == [] then [] else [0] + PutFields(rest, 0, 108)
  {
    hide PutStruct, PutFields;
    OneField(SigField(code, [c]), rest, 0);
    SigBytes(code, [c], 0);
    assert Zeros(0) == [] && [code, 1, 103, 0, 1] + [c] + [0] == [code, 1, 103, 0, 1, c, 0];
    if rest == [] {
      NothingPut(7, 108);
    } else {
      SevenFirst(rest);
    }
  }

  lemma SevenFirst(rest: seq<Field>)
    requires AllWritable(rest) && rest != []
    ensures PutFields(rest, 7, 108) == [0] + PutFields(rest, 0, 108)
  {
    hide PutFields;
    PutFieldsShift(rest, 7, 1, 108);
    GapFirst(rest, 1);
    assert Zeros(1) == [0];
  }

  /** Which fields those are, in the order of each codec. */
  lemma NineFields()
    ensures HeaderFields(NINE, Library)
         == [TextField(1, 111, [47])] + ([TextField(2, 115, [105])] + ([TextField(3, 115, [109])]
            + ([TextField(4, 115, [101])] + ([TextField(6, 115, [100])] + ([TextField(7, 115, [114])]
            + ([NumField(5, 7)] + ([NumField(9, 3)] + [SigField(8, [117])])))))))
    ensures HeaderFields(NINE, Example)
         == [TextField(1, 111, [47])] + ([TextField(2, 115, [105])] + ([TextField(3, 115, [109])]
            + ([TextField(4, 115, [101])] + ([NumField(5, 7)] + ([TextField(6, 115, [100])]
            + ([TextField(7, 115, [114])] + ([SigField(8, [117])] + [NumField(9, 3)])))))))
  {
  }

  /** The four fields both codecs put first. */
  lemma FourFirst(rest: seq<Field>)
    requires AllWritable(rest) && rest != []
    ensures var fs := [TextField(1, 111, [47])] + ([TextField(2, 115, [105])] + ([TextField(3, 115, [109])]
                      + ([TextField(4, 115, [101])] + rest)));
      AllWritable(fs)
      && PutFields(fs, 0, 108) == PATH_FIELD + SIX + (INTERFACE_FIELD + SIX + (MEMBER_FIELD + SIX
                                  + (ERROR_FIELD + SIX + PutFields(rest, 0, 108))))
  {
    hide PutFields, AllWritable;
    TextFirst(4, 115, 101, rest);
    TextFirst(3, 115, 109, [TextField(4, 115, [101])] + rest);
    TextFirst(2, 115, 105, [TextField(3, 115, [109])] + ([TextField(4, 115, [101])] + rest));
    TextFirst(1, 111, 47,
              [TextField(2, 115, [105])] + ([TextField(3, 115, [109])] + ([TextField(4, 115, [101])] + rest)));
  }

  /** The nine fields as the library writes them. */
  lemma NineByLibrary()
    ensures HeaderArray(NINE, Library, 108)
         == PATH_FIELD + SIX + (INTERFACE_FIELD + SIX + (MEMBER_FIELD + SIX + (ERROR_FIELD + SIX
            + (DESTINATION_FIELD + SIX + (SENDER_FIELD + SIX + (REPLY_FIELD + (FDS_FIELD + SIGNATURE_FIELD)))))))
  {
    hide PutFields, HeaderFields, AllWritable, NINE;
    NineFields();
    HeaderTyped(NINE, Library);
    var sig := [SigField(8, [117])];
    var fds := [NumField(9, 3)] + sig;
    var reply := [NumField(5, 7)] + fds;
    var sender := [TextField(7, 115, [114])] + reply;
    assert AllWritable([]) by { NoneWritable(); }
    SigFirst(8, 117, []);
    assert [SigField(8, [117])] + [] == sig;
    NumFirst(9, 3, sig);
    NumFirst(5, 7, fds);
    TextFirst(7, 115, 114, reply);
    TextFirst(6, 115, 100, sender);
    FourFirst([TextField(6, 115, [100])] + sender);
  }

  lemma NoneWritable()
    ensures AllWritable([])
  {
  }

  /** And as the example does. */
  lemma NineByExample()
    ensures HeaderArray(NINE, Example, 108)
         == PATH_FIELD + SIX + (INTERFACE_FIELD + SIX + (MEMBER_FIELD + SIX + (ERROR_FIELD + SIX
            + (REPLY_FIELD + (DESTINATION_FIELD + SIX + (SENDER_FIELD + SIX
            + (SIGNATURE_FIELD + ([0] + FDS_FIELD))))))))
  {
    hide PutFields, HeaderFields, AllWritable, NINE;
    NineFields();
    HeaderTyped(NINE, Example);
    var fds := [NumField(9, 3)];
    var sig := [SigField(8, [117])] + fds;
    var sender := [TextField(7, 115, [114])] + sig;
    var destination := [TextField(6, 115, [100])] + sender;
    assert AllWritable([]) by { NoneWritable(); }
    NothingPut(0, 108);
    NumFirst(9, 3, []);
    assert [NumField(9, 3)] + [] == fds && FDS_FIELD + [] == FDS_FIELD;
    SigFirst(8, 117, fds);
    TextFirst(7, 115, 114, sig);
    TextFirst(6, 115, 100, sender);
    NumFirst(5, 7, destination);
    FourFirst([NumField(5, 7)] + destination);
  }

  // ---------------------------------------------------------- what a list of fields says

  /** The text of the last text field with this code. */
  function LastText(fs: seq<Field>, code: byte): Option<bytes> {
    if fs == [] then None
    else
      match fs[|fs| - 1]
      case TextField(c, _, text) => if c == code then Some(text) else LastText(fs[..|fs| - 1], code)
      case _ => LastText(fs[..|fs| - 1], code)
  }

  function LastNum(fs: seq<Field>, code: byte): Option<u32> {
    if fs == [] then None
    else
      match fs[|fs| - 1]
      case NumField(c, num) => if c == code then Some(num) else LastNum(fs[..|fs| - 1], code)
      case _ => LastNum(fs[..|fs| - 1], code)
  }

  function LastSig(fs: seq<Field>, code: byte): Option<bytes> {
    if fs == [] then None
    else
      match fs[|fs| - 1]
      case SigField(c, sig) => if c == code then Some(sig) else LastSig(fs[..|fs| - 1], code)
      case _ => LastSig(fs[..|fs| - 1], code)
  }

  /**
   * Whatever fields come in, in whatever order and number: of each code the
   * last one of the type that goes with it counts, a field of another type or
   * code counts for nothing, and s and o are the same.
   */
  lemma {:induction false} FieldsSay(fs: seq<Field>)
    ensures StoreAll(NO_FIELDS, fs)
         == Header(LastText(fs, 1), LastText(fs, 2), LastText(fs, 3), LastText(fs, 4), LastNum(fs, 5),
                   LastText(fs, 6), LastText(fs, 7), LastSig(fs, 8), LastNum(fs, 9))
    decreases fs
  {
    if fs != [] {
      var front, last := fs[..|fs| - 1], fs[|fs| - 1];
      hide StoreAll;
      FieldsSay(front);
      StoreLast(front, last);
      assert front + [last] == fs;
    } else {
      StoreNothing();
    }
  }

  // ---------------------------------------------------------------------- whole messages

  /** The fixed header, with small numbers in its three words. */
  lemma FixedBytes(kind: byte, flags: byte, bodyLen: byte, serial: byte, fieldsLen: byte, valid: bool)
    ensures PutFixed(Fixed(108, kind, flags, 1, bodyLen, serial, fieldsLen, valid))
         == [108, kind, flags, 1, bodyLen, 0, 0, 0, serial, 0, 0, 0, fieldsLen, 0, 0, 0]
  {
    hide ToWire;
    SmallWordBytes(bodyLen);
    SmallWordBytes(serial);
    SmallWordBytes(fieldsLen);
  }

  /** A return (or, with kind 3, an error) to serial 1 whose body is the text ":1.5". */
  function Answer(kind: byte): Message {
    Message(108, kind, 1, 9, NO_FIELDS.(replySerial := Some(1), signature := Some([115])), NAME_BODY)
  }

  const NAME: bytes := [58, 49, 46, 53]
  const NAME_BODY: bytes := [4, 0, 0, 0, 58, 49, 46, 53, 0]

  /** That message on the wire. */
  function AnswerBytes(kind: byte): bytes {
    [108, kind, 1, 1, 9, 0, 0, 0, 9, 0, 0, 0, 15, 0, 0, 0]
    + ([5, 1, 117, 0, 1, 0, 0, 0] + [8, 1, 103, 0, 1, 115, 0] + ([0] + NAME_BODY))
  }

  lemma AnswerArray(kind: byte)
    ensures HeaderArray(Answer(kind).header, Library, 108) == [5, 1, 117, 0, 1, 0, 0, 0] + [8, 1, 103, 0, 1, 115, 0]
  {
    hide PutFields, AllWritable;
    HeaderTyped(Answer(kind).header, Library);
    assert AllWritable([]) by { NoneWritable(); }
    assert HeaderFields(Answer(kind).header, Library) == [NumField(5, 1)] + [SigField(8, [115])];
    SigFirst(8, 115, []);
    assert [SigField(8, [115])] + [] == [SigField(8, [115])];
    NumFirst(5, 1, [SigField(8, [115])]);
  }

  /** Both directions: the message is written as these bytes, and both parsers read these bytes as the message. */
  lemma AnswerIsRead(kind: byte, rest: bytes)
    ensures Serialize(Answer(kind), Library) == AnswerBytes(kind)
    ensures Sendable(Answer(kind), Library) && |HeaderArray(Answer(kind).header, Library, LITTLE)| == 15
    ensures ExampleParse(AnswerBytes(kind) + rest) == Done(Answer(kind))
    ensures var n := NextFrame(AnswerBytes(kind) + rest);
      n.Frame? && n.rest == rest && n.message.pos <= |n.message.data| && RecordOf(n.message) == Answer(kind)
  {
    hide HeaderArray, PutFixed, NextFrame, ExampleParse, RecordOf;
    AnswerArray(kind);
    FixedBytes(kind, 1, 9, 9, 15, false);
    assert Zeros(1) == [0];
    EachReadsTheOther(Answer(kind), Library, rest);
    FirstFrame(Answer(kind), Library, rest);
  }

  /** A frame whose one field has a code and a signature nobody here knows: an "i" with the value 5. */
  const STRANGE: bytes :=
    [108, 2, 0, 1, 0, 0, 0, 0, 1, 0, 0, 0, 8, 0, 0, 0] + [10, 1, 105, 0, 5, 0, 0, 0]

  /** It is read, by both parsers, as a message without fields. */
  lemma StrangeIsRead(rest: bytes)
    ensures var n := NextFrame(STRANGE + rest);
      n.Frame? && n.rest == rest && n.message.pos == 24 && n.message.header == NO_FIELDS
    ensures ExampleParse(STRANGE) == Done(Message(108, 2, 0, 1, NO_FIELDS, []))
  {
    hide PutFixed, NextFrame, ExampleParse;
    var m := Message(108, 2, 0, 1, NO_FIELDS, []);
    var items := [Strange(10, [105], [5, 0, 0, 0])];
    StrangeItem();
    FixedBytes(2, 0, 0, 1, 8, false);
    assert Zeros(0) == [];
    assert STRANGE == WithItems(m, items);
    NoKnownFields();
    StrangeFieldsPassed(m, items, Library);
    StrangeFrame(m, items, Library, rest);
    var f := NextFrame(STRANGE + rest).message;
    StrangeEnds(rest);
  }

  lemma StrangeItem()
    ensures Harmless(Strange(10, [105], [5, 0, 0, 0])) && AllHarmless([Strange(10, [105], [5, 0, 0, 0])])
    ensures PutItems([Strange(10, [105], [5, 0, 0, 0])], 0, 108) == [10, 1, 105, 0, 5, 0, 0, 0]
  {
    assert [Strange(10, [105], [5, 0, 0, 0])][1..] == [];
    assert Zeros(0) == [];
  }

  lemma NoKnownFields()
    ensures KnownOf([Strange(10, [105], [5, 0, 0, 0])]) == HeaderFields(NO_FIELDS, Library) == []
  {
    assert [Strange(10, [105], [5, 0, 0, 0])][1..] == [];
  }

  lemma StrangeEnds(rest: bytes)
    requires NextFrame(STRANGE + rest).Frame? && NextFrame(STRANGE + rest).rest == rest
    requires NextFrame(STRANGE + rest).message.pos <= |NextFrame(STRANGE + rest).message.data|
    requires RecordOf(NextFrame(STRANGE + rest).message).body == []
    ensures NextFrame(STRANGE + rest).message.pos == 24
  {
    hide NextFrame;
    FrameSplits(STRANGE + rest);
  }

  /** Texts of the handshake. */
  lemma HandshakeBytes()
    ensures NUL == [0] && OK == [79, 75] && BEGIN == [66, 69, 71, 73, 78, 13, 10] && NEWLINE == 10 && RETURN == 13
    ensures LITTLE == 108 && BIG == 66
  {
  }

  /** Which received messages answer serial `s`: kinds 2 and 3 that name it. */
  lemma AnswersMeans(f: Received, s: u32)
    ensures Answers(f, s) <==> (f.fixed.kind == 2 || f.fixed.kind == 3) && f.header.replySerial == Some(s)
    ensures forall name :: NameIn(f, name) ==> f.fixed.kind == 2
  {
    hide GetString;
  }

  // ------------------------------------------------------------------------------- Hello

  const BUS_NAME: bytes :=
    [111, 114, 103, 46, 102, 114, 101, 101, 100, 101, 115, 107, 116, 111, 112, 46, 68, 66, 117, 115]

  const BUS_PATH: bytes :=
    [47, 111, 114, 103, 47, 102, 114, 101, 101, 100, 101, 115, 107, 116, 111, 112, 47, 68, 66, 117, 115]

  const HELLO_NAME: bytes := [72, 101, 108, 108, 111]

  lemma HelloTexts()
    ensures Ascii("org.freedesktop.DBus") == BUS_NAME && |BUS_NAME| == 20
    ensures Ascii("/org/freedesktop/DBus") == BUS_PATH && |BUS_PATH| == 21
    ensures Ascii("Hello") == HELLO_NAME && |HELLO_NAME| == 5
  {
  }

  /** Fields after `n` bytes are the same after the padding. */
  lemma PadFirst(rest: seq<Field>, n: nat)
    requires AllWritable(rest) && rest != []
    ensures PutFields(rest, n, 108) == Zeros(Pad(n, 8)) + PutFields(rest, 0, 108)
  {
    hide PutFields, AllWritable;
    var gap := Pad(n, 8);
    var blocks := (n + gap) / 8;
    GapFirst(rest, gap);
    if blocks >= 2 {
      PutFieldsShift(rest, 16 - gap, blocks - 2, 108);
    } else {
      PutFieldsShift(rest, n, 2 - blocks, 108);
    }
  }

  /** A text field in front of others. */
  lemma LongTextFirst(code: byte, kind: byte, text: bytes, rest: seq<Field>)
    requires (kind == 115 || kind == 111) && AllWritable(rest) && |text| < 256
    ensures AllWritable([TextField(code, kind, text)] + rest)
    ensures PutFields([TextField(code, kind, text)] + rest, 0, 108)
         == [code, 1, kind, 0, |text|, 0, 0, 0] + text + [0]
            + if rest == [] then [] else Zeros(Pad(9 + |text|, 8)) + PutFields(rest, 0, 108)
  {
    hide PutStruct, PutFields, AllWritable;
    OneField(TextField(code, kind, text), rest, 0);
    TextBytes(code, kind, text, 0);
    assert Zeros(0) == [];
    var head := [code, 1, kind, 0, |text|, 0, 0, 0] + text + [0];
    assert |head| == 9 + |text| && head + [] == head;
    if rest == [] {
      NothingPut(9 + |text|, 108);
    } else {
      PadFirst(rest, 9 + |text|);
    }
  }

  /** The four fields of Hello. */
  function HelloArray(): bytes {
    [1, 1, 111, 0, 21, 0, 0, 0] + BUS_PATH + [0] + ([0, 0]
    + ([2, 1, 115, 0, 20, 0, 0, 0] + BUS_NAME + [0] + ([0, 0, 0]
    + ([3, 1, 115, 0, 5, 0, 0, 0] + HELLO_NAME + [0] + ([0, 0]
    + ([6, 1, 115, 0, 20, 0, 0, 0] + BUS_NAME + [0]))))))
  }

  lemma HelloFields()
    ensures HeaderFields(HELLO.header, Library)
         == [TextField(1, 111, BUS_PATH)] + ([TextField(2, 115, BUS_NAME)] + ([TextField(3, 115, HELLO_NAME)]
            + ([TextField(6, 115, BUS_NAME)] + [])))
    ensures HELLO.body == [] && HELLO.fixed == Fixed(108, 1, 0, 1, 0, 0, 0, false)
  {
    hide Ascii, BUS_NAME, BUS_PATH, HELLO_NAME;
    HelloTexts();
  }

  lemma HelloArrayBytes()
    ensures HeaderArray(HELLO.header, Library, 108) == HelloArray() && |HelloArray()| == 109
  {
    hide PutFields, AllWritable, HeaderFields, Ascii, BUS_NAME, BUS_PATH, HELLO_NAME, HELLO;
    HelloTexts();
    HelloFields();
    HeaderTyped(HELLO.header, Library);
    NoneWritable();
    var destination := [TextField(6, 115, BUS_NAME)] + [];
    var member := [TextField(3, 115, HELLO_NAME)] + destination;
    LongTextFirst(6, 115, BUS_NAME, []);
    LongTextFirst(3, 115, HELLO_NAME, destination);
    LongTextFirst(2, 115, BUS_NAME, member);
    LongTextFirst(1, 111, BUS_PATH, [TextField(2, 115, BUS_NAME)] + member);
    HelloPads();
  }

  lemma HelloPads()
    ensures Zeros(Pad(9 + 20, 8)) == [0, 0, 0] && Zeros(Pad(9 + 5, 8)) == [0, 0] && Zeros(Pad(9 + 21, 8)) == [0, 0]
  {
    assert Zeros(2) == [0, 0] && Zeros(3) == [0, 0, 0];
  }

  /** Hello on the wire, 128 bytes, under serial 1. */
  lemma HelloBytes()
    ensures Wire(ConnectionModel.Sent(1, HELLO))
         == [108, 1, 0, 1, 0, 0, 0, 0, 1, 0, 0, 0, 109, 0, 0, 0] + (HelloArray() + [0, 0, 0])
  {
    hide PutFixed, HELLO, HeaderArray, HelloArray, Zeros;
    HelloFields();
    HelloArrayBytes();
    FixedBytes(1, 0, 0, 1, 109, false);
    assert Zeros(Pad(109, 8)) == [0, 0, 0] by { ThreeZeros(); }
    assert [0, 0, 0] + [] == [0, 0, 0];
  }

  lemma ThreeZeros()
    ensures Zeros(Pad(109, 8)) == [0, 0, 0]
  {
  }

  // ---------------------------------------------------------------- from bytes to a name

  lemma AnswerNotEmpty(kind: byte)
    ensures |AnswerBytes(kind)| > 0
  {
  }

  /** "OK", a carriage return, a newline, and the answer above, in two pieces. */
  function Greeting(kind: byte): Script {
    [Data([79, 75, 13, 10]), Data(AnswerBytes(kind))]
  }

  lemma LineOfGreeting(kind: byte)
    ensures Unbroken(Greeting(kind))
    ensures Pending(Greeting(kind)) == [79, 75, 13] + [NEWLINE] + AnswerBytes(kind)
  {
    hide AnswerBytes;
    AnswerNotEmpty(kind);
    var bs := AnswerBytes(kind);
    assert [Data(bs)][1..] == [];
    assert Pending([Data(bs)]) == bs + [] == bs;
    assert Greeting(kind)[1..] == [Data(bs)];
    assert [79, 75, 13] + [NEWLINE] == [79, 75, 13, 10];
  }

  lemma OkLineIsKept()
    ensures NEWLINE !in [79, 75, 13] && NoReturns([79, 75, 13]) == [79, 75] && OK == [79, 75]
  {
    HandshakeBytes();
    assert NoReturns([]) == [];
    ByteIsKept([], 79);
    ByteIsKept([79], 75);
    ByteIsKept([79, 75], 13);
    assert [] + [79] == [79] && [79] + [75] == [79, 75] && [79, 75] + [13] == [79, 75, 13];
    assert [79, 75] + [] == [79, 75];
  }

  /** A return to Hello brings the connection up under the name it carries, an error does not. */
  lemma GreetingIsUnderstood(kind: byte, n: nat)
    requires kind == 2 || kind == 3
    requires n > Work(Greeting(kind))
    ensures Sound(NewConn(Greeting(kind), [], []))
    ensures Up(Settle(Start(NewConn(Greeting(kind), [], []), true, []), n), NAME) <==> kind == 2
  {
    hide Settle, Work, Pending, NoReturns, Start, OK, Up, AnswerBytes, Serialize, Unbroken, GetString, LittlePackets,
         Greeting, Stream, FirstReply, Names;
    var ps := [Packet(Answer(kind), Library)];
    LineOfGreeting(kind);
    OkLineIsKept();
    AnswerPackets(kind);
    MessagesBringItUp(Greeting(kind), [], [], true, [], [79, 75, 13], ps, NAME, n);
  }

  lemma AnswerPackets(kind: byte)
    requires kind == 2 || kind == 3
    ensures var ps := [Packet(Answer(kind), Library)];
      LittlePackets(ps) && Stream(ps) == AnswerBytes(kind) && FirstReply(ps, 1) == Some(Answer(kind))
    ensures Names(Answer(kind), NAME) <==> kind == 2
  {
    hide AnswerBytes, Serialize, GetString, Sendable, HeaderArray;
    var ps := [Packet(Answer(kind), Library)];
    AnswerIsRead(kind, []);
    assert ps[1..] == [] && AnswerBytes(kind) + [] == AnswerBytes(kind);
    NameIsThere();
  }

  lemma NameIsThere()
    ensures GetString(NAME_BODY, 0, LITTLE) == Got(NAME, 9)
  {
    hide ToWire, GetString;
    SmallWordBytes(4);
    assert Zeros(0) == [];
    assert PutString(NAME, 0, LITTLE) == NAME_BODY;
    assert At(NAME_BODY, 0, NAME_BODY);
    StringRoundTrip(NAME_BODY, 0, NAME, LITTLE);
  }
}
