/**
 * The codec of the example client: a reader that throws, a writer that
 * patches array lengths in place, and the message built on them.
 */
module ExampleCodec {
  import opened Basics
  import opened ByteOrder
  import opened Values
  import opened Fields
  import opened Messages

  // ------------------------------------------------------ back-patched lengths

  /** memcpy of a word over the buffer. */
  function Patch(buf: bytes, pos: nat, word: bytes): (r: bytes)
    requires pos + |word| <= |buf|
    ensures |r| == |buf|
  {
    buf[..pos] + word + buf[pos + |word|..]
  }

  /** The buffer while the elements are written: a placeholder where the length goes. */
  function Opened(buf: bytes, a: int, e: byte): bytes
    requires IsWidth(a)
  {
    var word := PutWord(0, 4, |buf|, e);
    buf + word + Zeros(Pad(|buf| + |word|, a))
  }

  /** write_array around elements that a callback appended. */
  function Patched(buf: bytes, elements: bytes, a: int, e: byte): bytes
    requires IsWidth(a)
  {
    Patch(Opened(buf, a, e) + elements, |buf|, ToWire(|elements| % TWO_32, 4, e))
  }

  /** The same array when its length is known up front. */
  function Counted(buf: bytes, elements: bytes, a: int, e: byte): bytes
    requires IsWidth(a)
  {
    var word := PutWord(|elements| % TWO_32, 4, |buf|, e);
    buf + word + Zeros(Pad(|buf| + |word|, a)) + elements
  }

  lemma ZeroWord(e: byte)
    ensures ToWire(0, 4, e) == Zeros(4)
  {
  }

  lemma WordIsZero(w: u32, e: byte)
    requires ToWire(w, 4, e) == Zeros(4)
    ensures w == 0
  {
    WireRoundTrip(w, 4, e);
    WireRoundTrip(0, 4, e);
    ZeroWord(e);
  }

  /** A four-byte word moved by one to three bytes is the same only if it is zero. */
  lemma ShiftedWord(p: nat, w: bytes)
    requires 0 < p < 4 && |w| == 4
    ensures Zeros(p) + w == w + Zeros(p) <==> w == Zeros(4)
  {
    var s, t := Zeros(p) + w, w + Zeros(p);
    if w == Zeros(4) {
      assert s == t;
    }
    if s == t {
      assert w[0] == t[0] == s[0] == 0;
      assert w[1] == t[1] == s[1] == if p == 1 then w[0] else 0;
      assert w[2] == t[2] == s[2] == if p == 3 then 0 else w[2 - p];
      assert w[3] == t[3] == s[3] == w[3 - p];
      assert w == Zeros(4);
    }
  }

  /**
   * Back-patching: whatever the callback appends, the result is the array
   * written with its length known up front, exactly when the length word
   * starts 4-aligned (or there is nothing to patch).
   */
  lemma BackPatch(buf: bytes, elements: bytes, a: int, e: byte)
    requires IsWidth(a)
    ensures Patched(buf, elements, a, e) == Counted(buf, elements, a, e)
        <==> |buf| % 4 == 0 || |elements| % TWO_32 == 0
  {
    hide ToWire, Patched, Counted;
    var p, w := Pad(|buf|, 4), ToWire(|elements| % TWO_32, 4, e);
    Layout(buf, elements, a, e);
    SameMiddle(buf, w + Zeros(p), Zeros(p) + w, Zeros(Pad(|buf| + p + 4, a)) + elements);
    if p > 0 {
      ShiftedWord(p, w);
      ZeroWord(e);
      if w == Zeros(4) { WordIsZero(|elements| % TWO_32, e); }
    } else {
      assert w + Zeros(p) == w == Zeros(p) + w;
    }
  }

  /** The two arrays differ only in where the padding of the length word lies. */
  lemma Layout(buf: bytes, elements: bytes, a: int, e: byte)
    requires IsWidth(a)
    ensures var p, w := Pad(|buf|, 4), ToWire(|elements| % TWO_32, 4, e);
      var tail := Zeros(Pad(|buf| + p + 4, a)) + elements;
      Patched(buf, elements, a, e) == buf + (w + Zeros(p)) + tail
      && Counted(buf, elements, a, e) == buf + (Zeros(p) + w) + tail
  {
    hide ToWire;
    var p, w := Pad(|buf|, 4), ToWire(|elements| % TWO_32, 4, e);
    var tail := Zeros(Pad(|buf| + p + 4, a)) + elements;
    ZeroWord(e);
    assert Opened(buf, a, e) + elements == buf + (Zeros(p) + Zeros(4)) + tail;
    assert Zeros(p) + Zeros(4) == Zeros(4) + Zeros(p);
    PatchMiddle(buf, Zeros(4), Zeros(p) + tail, w);
    assert Opened(buf, a, e) + elements == buf + Zeros(4) + (Zeros(p) + tail);
    assert buf + w + (Zeros(p) + tail) == buf + (w + Zeros(p)) + tail;
  }

  lemma PatchMiddle(a: bytes, b: bytes, c: bytes, w: bytes)
    requires |b| == |w|
    ensures Patch(a + b + c, |a|, w) == a + w + c
  {
  }

  /** The smallest misaligned array that comes out wrong. */
  lemma MisalignedPatch()
    ensures Patched([0], [7], 8, LITTLE) != Counted([0], [7], 8, LITTLE)
  {
    BackPatch([0], [7], 8, LITTLE);
  }

  lemma SameMiddle(a: bytes, b: bytes, c: bytes, d: bytes)
    requires |b| == |c|
    ensures a + b + d == a + c + d <==> b == c
  {
    assert (a + b + d)[|a|..|a| + |b|] == b && (a + c + d)[|a|..|a| + |c|] == c;
  }

  // --------------------------------------------------------------------- Reader

  class Reader {
    const data: bytes
    const endian: byte
    var pos: nat

    predicate Valid()
      reads this
    {
      pos <= |data|
    }

    constructor (data: bytes, endian: byte)
      ensures Valid() && this.data == data && this.endian == endian && pos == 0
    {
      this.data, this.endian, pos := data, endian, 0;
    }

    /** Throws after moving the cursor past the end. */
    method Align(a: int) returns (ok: bool)
      requires Valid() && IsWidth(a)
      modifies this
      ensures ok == (old(pos) + Pad(old(pos), a) <= |data|)
      ensures ok ==> Valid() && pos == old(pos) + Pad(old(pos), a)
    {
      var rem := pos % a;
      if rem != 0 {
        pos := pos + (a - rem);
      }
      ok := pos <= |data|;
    }

    method ReadU8() returns (r: Read<byte>)
      requires Valid()
      modifies this
      ensures r == GetByte(data, old(pos)) && !r.Overrun?
      ensures r.Got? ==> Valid() && pos == r.pos
    {
      if pos + 1 > |data| {
        return Miss(pos);
      }
      pos := pos + 1;
      r := Got(data[pos - 1], pos);
    }

    method ReadU32() returns (r: Read<nat>)
      requires Valid()
      modifies this
      ensures SameOutcome(r, GetWord(data, old(pos), 4, endian)) && !r.Overrun?
      ensures r.Got? ==> Valid() && pos == r.pos
    {
      hide FromWire;
      var aligned := Align(4);
      if !aligned || pos + 4 > |data| {
        return Miss(pos);
      }
      pos := pos + 4;
      r := Got(FromWire(data[pos - 4..pos], endian), pos);
    }

    /** Throwing is `Miss`: the cursor of a reader that threw is never used again. */
    method ReadString() returns (r: Read<bytes>)
      requires Valid()
      modifies this
      ensures SameOutcome(r, GetString(data, old(pos), endian))
      ensures r.Got? ==> Valid() && pos == r.pos
    {
      hide GetWord;
      var len := ReadU32();
      if len.Miss? || pos + (len.value + 1) % TWO_32 > |data| {
        return Miss(pos);
      }
      r := Terminated(len.value);
    }

    method ReadSignature() returns (r: Read<bytes>)
      requires Valid()
      modifies this
      ensures SameOutcome(r, GetSignature(data, old(pos)))
      ensures r.Got? ==> Valid() && pos == r.pos
    {
      var len := ReadU8();
      if len.Miss? || pos + len.value + 1 > |data| {
        return Miss(pos);
      }
      r := Terminated(len.value);
    }

    method Terminated(len: nat) returns (r: Read<bytes>)
      requires Valid()
      modifies this
      ensures r == GetTerminated(data, old(pos), len, 0)
      ensures r.Got? ==> Valid() && pos == r.pos
    {
      var start := pos;
      pos := pos + len;
      if pos >= |data| {
        return Overrun;
      }
      if data[pos] != 0 {
        return Miss(pos);
      }
      pos := pos + 1;
      r := Got(data[start..start + len], pos);
    }

    /** Code, signature and the value parse_header_field reads for it. */
    method ReadField() returns (r: Read<Field>)
      requires Valid()
      modifies this
      ensures SameOutcome(r, GetField(data, old(pos), endian))
      ensures r.Got? ==> Valid() && pos == r.pos
    {
      hide GetWord, GetString, GetSignature, GetByte;
      var code := ReadU8();
      if code.Miss? {
        return Miss(pos);
      }
      var kinds := ReadSignature();
      if !kinds.Got? {
        return if kinds.Miss? then Miss(pos) else Overrun;
      }
      if kinds.value == [STR] || kinds.value == [OBJ] {
        var text := ReadString();
        r := MapRead(text, s => TextField(code.value, kinds.value[0], s));
      } else if kinds.value == [SIG] {
        var sig := ReadSignature();
        r := MapRead(sig, s => SigField(code.value, s));
      } else if kinds.value == [U32] {
        var num := ReadU32();
        r := MapRead(num, w requires 0 <= w < TWO_32 => NumField(code.value, w));
      } else {
        r := Got(Unread(code.value, kinds.value), pos);
      }
    }

    /** The while loop of parse. */
    method ReadFields(end: nat) returns (status: Status, h: Header)
      requires Valid()
      modifies this
      ensures var loop := GetFields(data, old(pos), end, endian, Example);
        status == loop.status
        && (status.Finished? ==> Valid() && pos == loop.pos && h == StoreAll(NO_FIELDS, loop.fields))
    {
      hide GetField, StoreAll, Store, After;
      StoreNothing();
      h := NO_FIELDS;
      ghost var seen: seq<Field> := [];
      ghost var whole := GetFields(data, pos, end, endian, Example);
      AfterNothing(whole);
      while pos < end
        invariant Valid() && h == StoreAll(NO_FIELDS, seen)
        invariant whole == After(seen, GetFields(data, pos, end, endian, Example))
        decreases |data| - pos
      {
        ghost var before := GetFields(data, pos, end, endian, Example);
        var aligned := Align(8);
        if !aligned {
          AfterLast(seen, before);
          return Refused, h;
        }
        if pos >= end {
          assert before == Loop(Finished, [], pos);
          AfterLast(seen, before);
          return Finished, h;
        }
        GetFieldAdvances(data, pos, endian);
        var field := ReadField();
        match field
        case Miss(_) =>
          AfterLast(seen, before);
          return Refused, h;
        case Overrun =>
          AfterLast(seen, before);
          return Crashed, h;
        case Got(f, _) =>
          StoreLast(seen, f);
          h := Store(h, f);
          AfterTwice(seen, [f], GetFields(data, pos, end, endian, Example));
          seen := seen + [f];
      }
      AfterLast(seen, GetFields(data, pos, end, endian, Example));
      status := Finished;
    }
  }

  predicate SameOutcome<T(==)>(r: Read<T>, spec: Read<T>) {
    (r.Got? && r == spec) || (r.Miss? && spec.Miss?) || (r.Overrun? && spec.Overrun?)
  }

  // --------------------------------------------------------------------- Writer

  class Writer {
    var buf: bytes
    const endian: byte

    constructor (endian: byte)
      ensures buf == [] && this.endian == endian
    {
      buf, this.endian := [], endian;
    }

    method Align(a: int)
      requires IsWidth(a)
      modifies this
      ensures buf == old(buf) + Zeros(Pad(|old(buf)|, a))
    {
      ghost var n := |buf|;
      while |buf| % a != 0
        invariant n <= |buf| <= n + Pad(n, a)
        invariant buf == old(buf) + Zeros(|buf| - n)
        decreases n + Pad(n, a) - |buf|
      {
        BelowPad(n, |buf|, a);
        buf := buf + [0];
      }
      BelowPad(n, |buf|, a);
    }

    method WriteU8(v: byte)
      modifies this
      ensures buf == old(buf) + [v]
    {
      buf := buf + [v];
    }

    method WriteU32(v: u32)
      modifies this
      ensures buf == old(buf) + PutWord(v, 4, |old(buf)|, endian)
    {
      hide HostBytes, Bswap;
      Align(4);
      var value := if endian == BIG then Bswap(v, 4) else v;
      buf := buf + HostBytes(value, 4);
    }

    method WriteString(s: bytes)
      modifies this
      ensures buf == old(buf) + PutString(s, |old(buf)|, endian)
    {
      hide ToWire;
      WriteU32(|s| % TWO_32);
      buf := buf + s;
      buf := buf + [0];
    }

    /** Throws on a signature the length byte cannot count. */
    method WriteSignature(s: bytes) returns (ok: bool)
      modifies this
      ensures ok == (|s| <= 255)
      ensures buf == if ok then old(buf) + PutSignature(s) else old(buf)
    {
      if |s| > 255 {
        return false;
      }
      WriteU8(|s|);
      buf := buf + s;
      buf := buf + [0];
      ok := true;
    }

    method WriteField(f: Field) returns (ok: bool)
      requires Writable(f)
      modifies this
      ensures ok == (f.SigField? ==> |f.sig| <= 255)
      ensures ok ==> buf == old(buf) + PutField(f, |old(buf)|, endian)
    {
      hide PutWord, PutString, PutSignature, PutField, Pad, Zeros;
      FieldPieces(buf, f, endian);
      Align(8);
      WriteU8(f.code);
      var _ := WriteSignature([FieldKind(f)]);
      ok := true;
      match f
      case TextField(_, _, text) => WriteString(text);
      case SigField(_, sig) => ok := WriteSignature(sig);
      case NumField(_, num) => WriteU32(num);
    }

    ghost predicate Holds(base: bytes, fs: seq<Field>)
      reads this
    {
      AllWritable(fs) && buf == base + PutFields(fs, |base|, endian)
    }

    /** `ok` is false when the field's signature made the writer throw. */
    method WriteOptional(fs: seq<Field>, ghost base: bytes, ghost before: seq<Field>) returns (ok: bool)
      requires |fs| <= 1 && AllWritable(fs) && Holds(base, before)
      modifies this
      ensures ok == (|fs| == 1 && fs[0].SigField? ==> |fs[0].sig| <= 255)
      ensures ok ==> Holds(base, before + fs)
    {
      hide PutField;
      ok := true;
      if |fs| == 1 {
        PutFieldsAppend(before, fs, |base|, endian);
        assert fs == [fs[0]];
        assert PutFields(fs, |buf|, endian) == PutField(fs[0], |buf|, endian) + [];
        ok := WriteField(fs[0]);
      } else {
        assert before + fs == before;
      }
    }

    /** The callback of serialize: every field the header has. */
    method WriteHeader(h: Header) returns (ok: bool)
      modifies this
      ensures ok <==> ShortSignature(h)
      ensures ok ==> AllWritable(ExampleFields(h))
      ensures ok ==> buf == old(buf) + PutFields(ExampleFields(h), |old(buf)|, endian)
    {
      hide PutFields, Text, Num, ExampleFields;
      ghost var base := buf;
      NothingPut(|base|, endian);
      var _ := WriteOptional(Text(PATH, OBJ, h.path), base, []);
      ghost var done := [] + Text(PATH, OBJ, h.path);
      var _ := WriteOptional(Text(INTERFACE, STR, h.interface), base, done);
      done := done + Text(INTERFACE, STR, h.interface);
      var _ := WriteOptional(Text(MEMBER, STR, h.member), base, done);
      done := done + Text(MEMBER, STR, h.member);
      var _ := WriteOptional(Text(ERROR_NAME, STR, h.errorName), base, done);
      done := done + Text(ERROR_NAME, STR, h.errorName);
      var _ := WriteOptional(Num(REPLY_SERIAL, h.replySerial), base, done);
      done := done + Num(REPLY_SERIAL, h.replySerial);
      var _ := WriteOptional(Text(DESTINATION, STR, h.destination), base, done);
      done := done + Text(DESTINATION, STR, h.destination);
      var _ := WriteOptional(Text(SENDER, STR, h.sender), base, done);
      done := done + Text(SENDER, STR, h.sender);
      ok := WriteOptional(Sig(h.signature), base, done);
      if !ok {
        return;
      }
      done := done + Sig(h.signature);
      var _ := WriteOptional(Num(UNIX_FDS, h.unixFds), base, done);
      ExampleOrder(h);
    }

    /** write_array around the header fields: placeholder, elements, then the length patched in. */
    method WriteArray(a: int, h: Header) returns (ok: bool)
      requires IsWidth(a)
      modifies this
      ensures ok <==> ShortSignature(h)
      ensures ok ==> AllWritable(ExampleFields(h))
      ensures ok ==>
        buf == Patched(old(buf), PutFields(ExampleFields(h), |Opened(old(buf), a, endian)|, endian), a, endian)
    {
      hide PutFields, HostBytes, Bswap, ExampleFields, ShortSignature;
      var lenPos := |buf|;
      WriteU32(0);
      Align(a);
      var dataStart := |buf|;
      ok := WriteHeader(h);
      if !ok {
        return;
      }
      var len := (|buf| - dataStart) % TWO_32;
      if endian == BIG {
        len := Bswap(len, 4);
      }
      buf := Patch(buf, lenPos, HostBytes(len, 4));
    }
  }

  lemma ExampleOrder(h: Header)
    ensures ExampleFields(h) ==
      [] + Text(PATH, OBJ, h.path) + Text(INTERFACE, STR, h.interface) + Text(MEMBER, STR, h.member)
      + Text(ERROR_NAME, STR, h.errorName) + Num(REPLY_SERIAL, h.replySerial)
      + Text(DESTINATION, STR, h.destination) + Text(SENDER, STR, h.sender)
      + Sig(h.signature) + Num(UNIX_FDS, h.unixFds)
  {
    hide Text, Num, Sig;
    assert [] + Text(PATH, OBJ, h.path) == Text(PATH, OBJ, h.path);
    Regrouped(Leading(h) + Num(REPLY_SERIAL, h.replySerial),
              Text(DESTINATION, STR, h.destination), Text(SENDER, STR, h.sender));
  }

  lemma BelowPad(n: nat, m: nat, a: int)
    requires IsWidth(a) && n <= m <= n + Pad(n, a)
    ensures m % a == 0 <==> m == n + Pad(n, a)
  {
  }

  // -------------------------------------------------------------------- Message

  /** Patched at offset 12, the header array is the one written in a buffer of its own. */
  lemma ArrayAt12(front: bytes, h: Header, e: byte)
    requires |front| == 12 && AllWritable(ExampleFields(h))
    ensures var fields := HeaderArray(h, Example, e);
      Patched(front, PutFields(ExampleFields(h), |Opened(front, 8, e)|, e), 8, e)
      == front + ToWire(|fields| % TWO_32, 4, e) + fields
  {
    hide PutFields, ExampleFields, ToWire, Patched;
    var fields := HeaderArray(h, Example, e);
    PutFieldsShift(ExampleFields(h), 0, 2, e);
    assert |Opened(front, 8, e)| == 16;
    BackPatch(front, fields, 8, e);
    assert PutWord(|fields| % TWO_32, 4, 12, e) == ToWire(|fields| % TWO_32, 4, e);
    assert Zeros(Pad(16, 8)) == [];
  }

  /** `None`: the writer threw on a signature that is too long. */
  method Serialize(m: Message) returns (data: Option<bytes>)
    ensures data.Some? <==> ShortSignature(m.header)
    ensures data.Some? ==> data.value == ExampleSerialize(m)
    ensures data == Produced(m, Example)
  {
    hide PutFields, ToWire, ExampleFields, HeaderArray, Patched, ShortSignature;
    var w := new Writer(m.endian);
    w.WriteU8(m.endian);
    w.WriteU8(m.kind);
    w.WriteU8(m.flags);
    w.WriteU8(1);
    w.WriteU32(|m.body| % TWO_32);
    w.WriteU32(m.serial);
    ghost var front := w.buf;
    var ok := w.WriteArray(8, m.header);
    if !ok {
      return None;
    }
    ArrayAt12(front, m.header, m.endian);
    ghost var fields := HeaderArray(m.header, Example, m.endian);
    ghost var f := FixedOf(m).(bodyLen := |m.body| % TWO_32, fieldsLen := |fields| % TWO_32);
    assert front + ToWire(f.fieldsLen, 4, m.endian) == PutFixed(f);
    w.Align(8);
    PadAfterHeader(|fields|);
    w.buf := w.buf + m.body;
    assert w.buf == PutFixed(f) + (fields + (Zeros(Pad(|fields|, 8)) + m.body));
    data := Some(w.buf);
  }

  lemma WordsAt(data: bytes, e: byte)
    requires |data| >= 16
    ensures GetWord(data, 4, 4, e) == Got(FromWire(data[4..8], e), 8)
    ensures GetWord(data, 8, 4, e) == Got(FromWire(data[8..12], e), 12)
    ensures GetWord(data, 12, 4, e) == Got(FromWire(data[12..16], e), 16)
    ensures Pad(16, 8) == 0
  {
    hide FromWire;
  }

  method Parse(data: bytes) returns (r: Outcome<Message>)
    ensures r == ExampleParse(data)
  {
    hide FromWire, GetFields, StoreAll, GetWord;
    if |data| < 16 {
      return Failed;
    }
    WordsAt(data, data[0]);
    var endian, kind, flags := data[0], data[1], data[2];
    if endian != LITTLE && endian != BIG {
      return Failed;
    }
    if data[3] != 1 {
      return Failed;
    }
    var reader := new Reader(data, endian);
    reader.pos := 4;
    var bodyLen := reader.ReadU32();
    var serial := reader.ReadU32();
    // read_array_bounds(8)
    var len := reader.ReadU32();
    var aligned := reader.Align(8);
    var end := reader.pos + len.value;
    if end > |data| {
      return Failed;
    }
    var status, header := reader.ReadFields(end);
    if status == Refused {
      return Failed;
    } else if status == Crashed {
      return Undefined;
    }
    aligned := reader.Align(8);
    if !aligned || reader.pos + bodyLen.value > |data| {
      return Failed;
    }
    r := Done(Message(endian, kind, flags, serial.value, header, data[reader.pos..reader.pos + bodyLen.value]));
  }
}
