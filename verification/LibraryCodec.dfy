/** The library's Reader, Writer and message object, which work in place. */
module LibraryCodec {
  import opened Basics
  import opened ByteOrder
  import opened Values
  import opened Fields
  import opened Messages
  import opened Sockets
  import opened Framing

  class Reader {
    var data: bytes
    var pos: nat
    var endian: byte

    predicate Valid()
      reads this
    {
      pos <= |data|
    }

    constructor ()
      ensures Valid() && data == [] && pos == 0 && endian == LITTLE
    {
      data, pos, endian := [], 0, LITTLE;
    }

    constructor Over(data: bytes, pos: nat)
      requires pos <= |data|
      ensures Valid() && this.data == data && this.pos == pos && endian == LITTLE
    {
      this.data, this.pos, endian := data, pos, LITTLE;
    }

    /** Assignment of a new Reader. */
    method Reset()
      modifies this
      ensures Valid() && data == [] && pos == 0 && endian == LITTLE
    {
      data, pos, endian := [], 0, LITTLE;
    }

    predicate Check(n: nat)
      reads this
    {
      pos + n <= |data|
    }

    method Seek(newPos: nat) returns (ok: bool)
      requires Valid()
      modifies this`pos
      ensures Valid() && ok == (newPos <= |data|)
      ensures pos == if ok then newPos else old(pos)
    {
      if newPos > |data| {
        return false;
      }
      pos := newPos;
      return true;
    }

    method Align(a: int) returns (ok: bool)
      requires Valid() && IsWidth(a)
      modifies this`pos
      ensures Valid() && ok == (old(pos) + Pad(old(pos), a) <= |data|)
      ensures pos == if ok then old(pos) + Pad(old(pos), a) else old(pos)
    {
      var rem := pos % a;
      if rem == 0 {
        return true;
      }
      ok := Seek(pos + a - rem);
    }

    method ReadByte() returns (r: Read<byte>)
      requires Valid()
      modifies this`pos
      ensures Valid() && r == GetByte(data, old(pos)) && !r.Overrun? && pos == r.pos
    {
      if !Check(1) {
        return Miss(pos);
      }
      pos := pos + 1;
      r := Got(data[pos - 1], pos);
    }

    /** readUInt16, readUInt32 and readUInt64. */
    method ReadWord(n: int) returns (r: Read<nat>)
      requires Valid() && IsWidth(n)
      modifies this`pos
      ensures Valid() && r == GetWord(data, old(pos), n, endian) && !r.Overrun? && pos == r.pos
    {
      hide FromWire;
      var aligned := Align(n);
      if !aligned || !Check(n) {
        return Miss(pos);
      }
      pos := pos + n;
      r := Got(FromWire(data[pos - n..pos], endian), pos);
    }

    /** readInt16, readInt32 and readInt64. */
    method ReadInt(n: int) returns (r: Read<int>)
      requires Valid() && IsWidth(n)
      modifies this`pos
      ensures !r.Overrun? && Valid() && pos == r.pos
      ensures MapRead(r, i => Int(n, i)) == Get(TInt(n), data, old(pos), endian)
    {
      hide GetWord;
      var w := ReadWord(n);
      r := if w.Got? then Got(ToSigned(w.value, n), pos) else Miss(pos);
    }

    method ReadBool() returns (r: Read<bool>)
      requires Valid()
      modifies this`pos
      ensures !r.Overrun? && Valid() && pos == r.pos
      ensures MapRead(r, b => Bool(b)) == Get(TBool, data, old(pos), endian)
    {
      hide GetWord;
      var w := ReadWord(4);
      r := if w.Got? then Got(w.value != 0, pos) else Miss(pos);
    }

    method ReadString() returns (r: Read<bytes>)
      requires Valid()
      modifies this`pos
      ensures r == GetString(data, old(pos), endian)
      ensures !r.Overrun? ==> Valid() && pos == r.pos
    {
      hide GetWord;
      var len := ReadWord(4);
      if len.Miss? || !Check((len.value + 1) % TWO_32) {
        return Miss(pos);
      }
      r := Terminated(len.value);
    }

    method ReadSignature() returns (r: Read<bytes>)
      requires Valid()
      modifies this`pos
      ensures r == GetSignature(data, old(pos))
      ensures !r.Overrun? && Valid() && pos == r.pos
    {
      var len := ReadByte();
      if len.Miss? {
        return Miss(pos);
      }
      var length: int := len.value;
      if !Check(length + 1) {
        return Miss(pos);
      }
      r := Terminated(length);
    }

    /** The common end of readString and readSignature. */
    method Terminated(len: nat) returns (r: Read<bytes>)
      requires Valid()
      modifies this`pos
      ensures r == GetTerminated(data, old(pos), len, 0)
      ensures !r.Overrun? ==> Valid() && pos == r.pos
    {
      var start := pos;
      pos := pos + len;
      if pos >= |data| {
        return Overrun;
      }
      if data[pos] != 0 {
        return Miss(pos);
      }
      pos := pos + 1;
      r := Got(data[start..start + len], pos);
    }

    /** One turn of the loop in DynamicHeader after alignment. */
    method ReadField() returns (r: Read<Field>)
      requires Valid()
      modifies this`pos
      ensures r == GetField(data, old(pos), endian)
      ensures !r.Overrun? ==> Valid() && pos == r.pos
    {
      hide GetWord, GetString, GetSignature, GetByte;
      var code := ReadByte();
      if code.Miss? {
        return Miss(pos);
      }
      var kinds := ReadSignature();
      if kinds.Miss? {
        return Miss(pos);
      }
      if kinds.value == [STR] || kinds.value == [OBJ] {
        var text := ReadString();
        r := MapRead(text, s => TextField(code.value, kinds.value[0], s));
      } else if kinds.value == [SIG] {
        var sig := ReadSignature();
        r := MapRead(sig, s => SigField(code.value, s));
      } else if kinds.value == [U32] {
        var num := ReadWord(4);
        r := MapRead(num, w requires 0 <= w < TWO_32 => NumField(code.value, w));
      } else {
        r := Got(Unread(code.value, kinds.value), pos);
      }
    }
  }

  class Writer {
    var data: bytes
    var endian: byte

    constructor ()
      ensures data == [] && endian == LITTLE
    {
      data, endian := [], LITTLE;
    }

    method Align(a: int)
      requires IsWidth(a)
      modifies this`data
      ensures data == old(data) + Zeros(Pad(|old(data)|, a))
    {
      var rem := |data| % a;
      if rem != 0 {
        data := data + Zeros(a - rem);
      }
    }

    method WriteByte(v: byte)
      modifies this`data
      ensures data == old(data) + [v]
    {
      data := data + [v];
    }

    /** writeUInt16, writeUInt32 and writeUInt64. */
    method WriteWord(v: nat, n: int)
      requires IsWidth(n) && v < Limit(n)
      modifies this`data
      ensures data == old(data) + PutWord(v, n, |old(data)|, endian)
    {
      hide HostBytes, Bswap;
      Align(n);
      var value := if endian == BIG then Bswap(v, n) else v;
      data := data + HostBytes(value, n);
    }

    /** writeInt16, writeInt32 and writeInt64. */
    method WriteInt(i: int, n: int)
      requires Representable(Int(n, i))
      modifies this`data
      ensures data == old(data) + Put(Int(n, i), |old(data)|, endian)
    {
      hide ToWire;
      WriteWord(ToUnsigned(i, n), n);
    }

    method WriteBool(b: bool)
      modifies this`data
      ensures data == old(data) + Put(Bool(b), |old(data)|, endian)
    {
      hide ToWire;
      WriteWord(if b then 1 else 0, 4);
    }

    method WriteString(s: bytes)
      modifies this`data
      ensures data == old(data) + PutString(s, |old(data)|, endian)
    {
      hide ToWire;
      WriteWord(|s| % TWO_32, 4);
      data := data + s;
      data := data + [0];
    }

    method WriteSignature(s: bytes)
      modifies this`data
      ensures data == old(data) + PutSignature(s)
    {
      WriteByte(|s| % 256);
      data := data + s;
      data := data + [0];
    }

    method WriteField(f: Field)
      requires Writable(f)
      modifies this`data
      ensures data == old(data) + PutField(f, |old(data)|, endian)
    {
      hide PutWord, PutString, PutSignature, PutField, Pad, Zeros;
      FieldPieces(data, f, endian);
      Align(8);
      WriteByte(f.code);
      WriteSignature([FieldKind(f)]);
      match f
      case TextField(_, _, text) => WriteString(text);
      case SigField(_, sig) => WriteSignature(sig);
      case NumField(_, num) => WriteWord(num, 4);
    }

    ghost predicate Holds(fs: seq<Field>)
      reads this
    {
      AllWritable(fs) && data == PutFields(fs, 0, endian)
    }

    /** A field the header may or may not have, after the fields already written. */
    method WriteOptional(fs: seq<Field>, ghost before: seq<Field>)
      requires |fs| <= 1 && AllWritable(fs) && Holds(before)
      modifies this`data
      ensures Holds(before + fs)
    {
      hide PutField;
      if |fs| == 1 {
        PutFieldsAppend(before, fs, 0, endian);
        assert fs == [fs[0]];
        assert PutFields(fs, |data|, endian) == PutField(fs[0], |data|, endian) + [];
        WriteField(fs[0]);
      } else {
        assert before + fs == before;
      }
    }
  }

  /** MessagePrivate: header fields, the reader of an incoming and the writer of an outgoing message. */
  class MessageObject {
    var fixedHeader: Fixed
    var dynamicHeader: Header
    var dynamicValid: bool
    const reader: Reader
    const writer: Writer

    ghost predicate Valid()
      reads this, reader
    {
      reader.Valid() && reader.endian == LITTLE
    }

    ghost function State(): Reading
      reads this, reader
    {
      Reading(fixedHeader, dynamicHeader, dynamicValid, reader.data, reader.pos)
    }

    constructor ()
      ensures Valid() && State() == FRESH && writer.data == []
      ensures fresh(reader) && fresh(writer)
    {
      fixedHeader, dynamicHeader, dynamicValid := NEW_FIXED, NO_FIELDS, false;
      reader := new Reader();
      writer := new Writer();
    }

    // -------------------------------------------------------------- serialize

    method SerializeDynamic(w: Writer)
      requires w.data == [] && w.endian == LITTLE
      modifies w`data
      ensures w.data == HeaderArray(dynamicHeader, Library, LITTLE)
    {
      hide PutFields;
      var h := dynamicHeader;
      NothingPut(0, LITTLE);
      w.WriteOptional(Text(PATH, OBJ, h.path), []);
      w.WriteOptional(Text(INTERFACE, STR, h.interface), [] + Text(PATH, OBJ, h.path));
      ghost var done := [] + Text(PATH, OBJ, h.path) + Text(INTERFACE, STR, h.interface);
      w.WriteOptional(Text(MEMBER, STR, h.member), done);
      done := done + Text(MEMBER, STR, h.member);
      w.WriteOptional(Text(ERROR_NAME, STR, h.errorName), done);
      done := done + Text(ERROR_NAME, STR, h.errorName);
      w.WriteOptional(Text(DESTINATION, STR, h.destination), done);
      done := done + Text(DESTINATION, STR, h.destination);
      w.WriteOptional(Text(SENDER, STR, h.sender), done);
      done := done + Text(SENDER, STR, h.sender);
      w.WriteOptional(Num(REPLY_SERIAL, h.replySerial), done);
      done := done + Num(REPLY_SERIAL, h.replySerial);
      w.WriteOptional(Num(UNIX_FDS, h.unixFds), done);
      done := done + Num(UNIX_FDS, h.unixFds);
      w.WriteOptional(Sig(h.signature), done);
      LibraryOrder(h);
    }

    method SerializeFixed(w: Writer)
      requires w.data == []
      modifies w
      ensures w.data == PutFixed(fixedHeader)
    {
      hide ToWire;
      var f := fixedHeader;
      w.endian := f.endian;
      w.WriteByte(f.endian);
      w.WriteByte(f.kind);
      w.WriteByte(f.flags);
      w.WriteByte(f.version);
      w.WriteWord(f.bodyLen, 4);
      w.WriteWord(f.serial, 4);
      w.WriteWord(f.fieldsLen, 4);
    }

    /** Two buffers, glued with padding, and the body after them. */
    method Serialize() returns (data: bytes)
      modifies `fixedHeader
      ensures data == LibrarySerialize(old(fixedHeader), dynamicHeader, writer.data)
      ensures fixedHeader == SentHeader(old(fixedHeader), dynamicHeader, writer.data)
    {
      hide HeaderArray, PutFixed;
      var dynamicWriter := new Writer();
      var fixedWriter := new Writer();
      SerializeDynamic(dynamicWriter);
      fixedHeader := fixedHeader.(bodyLen := |writer.data| % TWO_32, fieldsLen := |dynamicWriter.data| % TWO_32);
      SerializeFixed(fixedWriter);
      data := fixedWriter.data;
      data := data + dynamicWriter.data;
      var padding := (8 - |dynamicWriter.data| % 8) % 8;
      if padding != 0 {
        data := data + Zeros(padding);
      }
      data := data + writer.data;
    }

    // ----------------------------------------------------------------- readFd

    /** The constructor FixedHeader(reader) on a reader that has not moved yet. */
    method ReadFixed()
      requires Valid() && reader.pos == 0 && |reader.data| >= 16
      modifies `fixedHeader, reader`pos
      ensures Valid() && fixedHeader == GetFixed(reader.data)
      ensures fixedHeader.valid ==> reader.pos == 16
    {
      hide FromWire;
      var endian := reader.ReadByte();
      var kind := reader.ReadByte();
      var flags := reader.ReadByte();
      var version := reader.ReadByte();
      fixedHeader := NEW_FIXED.(endian := endian.value, kind := kind.value,
                                flags := flags.value, version := version.value);
      if fixedHeader.version != 1 {
        return;
      }
      var bodyLen := reader.ReadWord(4);
      var serial := reader.ReadWord(4);
      var fieldsLen := reader.ReadWord(4);
      fixedHeader := fixedHeader.(bodyLen := bodyLen.value, serial := serial.value,
                                  fieldsLen := fieldsLen.value, valid := true);
    }

    /** The constructor DynamicHeader(reader, end). */
    method ReadDynamic(end: nat) returns (status: Status)
      requires Valid()
      modifies `dynamicHeader, `dynamicValid, reader`pos
      ensures var loop := GetFields(reader.data, old(reader.pos), end, LITTLE, Library);
        status == loop.status && dynamicValid == status.Finished?
        && dynamicHeader == StoreAll(NO_FIELDS, loop.fields)
        && (status != Crashed ==> Valid() && reader.pos == loop.pos)
    {
      hide GetField, StoreAll, Store, After;
      StoreNothing();
      dynamicHeader, dynamicValid := NO_FIELDS, false;
      ghost var seen: seq<Field> := [];
      ghost var whole := GetFields(reader.data, reader.pos, end, LITTLE, Library);
      AfterNothing(whole);
      while reader.pos < end
        invariant Valid() && !dynamicValid && dynamicHeader == StoreAll(NO_FIELDS, seen)
        invariant whole == After(seen, GetFields(reader.data, reader.pos, end, LITTLE, Library))
        decreases |reader.data| - reader.pos
      {
        ghost var before := GetFields(reader.data, reader.pos, end, LITTLE, Library);
        var aligned := reader.Align(8);
        if reader.pos >= end {
          assert before == Loop(Finished, [], reader.pos);
          AfterLast(seen, before);
          dynamicValid := true;
          return Finished;
        }
        GetFieldAdvances(reader.data, reader.pos, LITTLE);
        var field := reader.ReadField();
        match field
        case Miss(_) =>
          assert before == Loop(Refused, [], reader.pos);
          AfterLast(seen, before);
          return Refused;
        case Overrun =>
          AfterLast(seen, before);
          return Crashed;
        case Got(f, _) =>
          StoreLast(seen, f);
          dynamicHeader := Store(dynamicHeader, f);
          AfterTwice(seen, [f], GetFields(reader.data, reader.pos, end, LITTLE, Library));
          seen := seen + [f];
      }
      AfterLast(seen, GetFields(reader.data, reader.pos, end, LITTLE, Library));
      dynamicValid := true;
      status := Finished;
    }

    /** unsureHasData: reads only what is missing; what a faulty read got is lost. */
    method EnsureHasData(sock: Socket, n: nat) returns (res: ReadRes)
      modifies reader`data, sock`script
      ensures var f := TopUp(old(reader.data), old(sock.script), n);
        sock.script == f.rest
        && (if f.ok then reader.data == f.data && res == (if |f.data| < n then ReadRes.WouldBlock else Success)
            else reader.data == old(reader.data) && res == Failure)
    {
      if |reader.data| >= n {
        return Success;
      }
      var more := sock.ReadExact(n - |reader.data|);
      if more.None? {
        return Failure;
      }
      reader.data := reader.data + more.value;
      res := if |reader.data| < n then ReadRes.WouldBlock else Success;
    }

    /** One call of readFd; after a crash nothing is promised about the object. */
    method ReadFd(sock: Socket) returns (res: ReadRes)
      requires Valid() && InProgress(State())
      modifies this, reader, sock`script
      ensures var (res', state, script) := Framing.ReadFd(old(State()), old(sock.script));
        res == res' && sock.script == script && (res != Crash ==> Valid() && State() == state)
    {
      hide GetFixed, Fill, FrameSize;
      var hasHeader := EnsureHasData(sock, 16);
      if hasHeader != Success {
        if hasHeader == Failure { reader.Reset(); }
        return hasHeader;
      }
      if !fixedHeader.valid {
        ReadFixed();
        if !fixedHeader.valid {
          reader.Reset();
          return Failure;
        }
      }
      res := ReadBody(sock);
    }

    /** The second half of readFd, from a valid fixed header on. */
    method ReadBody(sock: Socket) returns (res: ReadRes)
      requires Valid() && InProgress(State()) && fixedHeader.valid
      modifies this, reader, sock`script
      ensures var (res', state, script) := ReadRest(old(State()), old(sock.script));
        res == res' && sock.script == script && (res != Crash ==> Valid() && State() == state)
    {
      hide GetFixed, Fill, GetFields, StoreAll;
      var headerTotal := (16 + fixedHeader.fieldsLen) % TWO_32;
      var padding := (8 - headerTotal % 8) % 8;
      var totalSize := headerTotal + padding + fixedHeader.bodyLen;
      var before := reader.data;
      var hasBody := EnsureHasData(sock, totalSize);
      if hasBody != Success {
        if hasBody == Failure { reader.Reset(); }
        return hasBody;
      }
      SameFixed(before, reader.data[|before|..]);
      assert reader.data == before + reader.data[|before|..];
      var status := ReadDynamic(headerTotal);
      if status == Crashed {
        return Crash;
      }
      var aligned := reader.Align(8);
      if !dynamicValid {
        reader.Reset();
        return Failure;
      }
      res := Success;
    }
  }

  lemma LibraryOrder(h: Header)
    ensures LibraryFields(h) ==
      [] + Text(PATH, OBJ, h.path) + Text(INTERFACE, STR, h.interface) + Text(MEMBER, STR, h.member)
      + Text(ERROR_NAME, STR, h.errorName) + Text(DESTINATION, STR, h.destination) + Text(SENDER, STR, h.sender)
      + Num(REPLY_SERIAL, h.replySerial) + Num(UNIX_FDS, h.unixFds) + Sig(h.signature)
  {
    hide Text, Num, Sig;
    assert [] + Text(PATH, OBJ, h.path) == Text(PATH, OBJ, h.path);
    Regrouped(Leading(h), Text(DESTINATION, STR, h.destination), Text(SENDER, STR, h.sender));
  }
}
