/**
 * Basic values on the wire: what the two `Writer`s append for a value and
 * what the two `Reader`s make of the bytes at a cursor.  Both readers take
 * the same steps on success; they differ only in how a miss is reported.
 */
module Values {
  import opened Basics
  import opened ByteOrder

  /**
   * Outcome of one read.  `Got`: the value and the cursor after it.  `Miss`:
   * the read is refused and the cursor is left at `pos`.  `Overrun`: the
   * source would access memory past the end of its buffer.
   */
  datatype Read<+T> = Got(value: T, pos: nat) | Miss(pos: nat) | Overrun

  // ---------------------------------------------------------------- writing

  function PutWord(v: nat, n: int, off: nat, e: byte): (bs: bytes)
    requires IsWidth(n) && v < Limit(n)
    ensures |bs| == Pad(off, n) + n
  {
    Zeros(Pad(off, n)) + ToWire(v, n, e)
  }

  /** The length word keeps 32 bits of the length. */
  function PutString(s: bytes, off: nat, e: byte): (bs: bytes)
    ensures |bs| == Pad(off, 4) + 4 + |s| + 1
  {
    PutWord(|s| % TWO_32, 4, off, e) + (s + [0])
  }

  /** The length byte keeps 8 bits of the length. */
  function PutSignature(s: bytes): (bs: bytes)
    ensures |bs| == |s| + 2
  {
    [|s| % 256] + (s + [0])
  }

  // ---------------------------------------------------------------- reading

  function GetByte(data: bytes, pos: nat): Read<byte> {
    if pos + 1 > |data| then Miss(pos) else Got(data[pos], pos + 1)
  }

  function GetWord(data: bytes, pos: nat, n: int, e: byte): (r: Read<nat>)
    requires IsWidth(n)
    requires pos <= |data|
    ensures r.Got? ==> r.value < Limit(n)
  {
    var p := pos + Pad(pos, n);
    if p > |data| then Miss(pos)
    else if p + n > |data| then Miss(p)
    else Got(FromWire(data[p..p + n], e), p + n)
  }

  /** `len` bytes and a NUL, once the reader has checked that `need` bytes remain. */
  function GetTerminated(data: bytes, pos: nat, len: nat, need: nat): Read<bytes> {
    if pos + need > |data| then Miss(pos)
    else if pos + len >= |data| then Overrun
    else if data[pos + len] != 0 then Miss(pos + len)
    else Got(data[pos..pos + len], pos + len + 1)
  }

  /** The check adds one to a 32-bit length in 32 bits. */
  function GetString(data: bytes, pos: nat, e: byte): Read<bytes>
    requires pos <= |data|
  {
    match GetWord(data, pos, 4, e)
    case Got(len, p) => GetTerminated(data, p, len, (len + 1) % TWO_32)
    case Miss(p) => Miss(p)
    case Overrun => Overrun
  }

  function GetSignature(data: bytes, pos: nat): Read<bytes> {
    match GetByte(data, pos)
    case Got(len, p) => GetTerminated(data, p, len, len + 1)
    case Miss(p) => Miss(p)
    case Overrun => Overrun
  }

  // ------------------------------------------------- a cursor stays in bounds

  predicate InBounds<T>(r: Read<T>, from: nat, size: nat) {
    match r
    case Got(_, p) => from < p <= size
    case Miss(p) => from <= p <= size
    case Overrun => false
  }

  /**
   * A string read leaves the cursor inside the buffer exactly when the length
   * word is not 2^32 - 1 or the buffer really holds that many bytes and a NUL.
   */
  lemma StringInBounds(data: bytes, pos: nat, e: byte)
    requires pos <= |data|
    ensures InBounds(GetString(data, pos, e), pos, |data|) <==>
            (match GetWord(data, pos, 4, e)
             case Got(len, p) => len == TWO_32 - 1 ==> p + len < |data|
             case _ => true)
  {
    hide FromWire, Pad;
  }

  lemma StringCursor(data: bytes, pos: nat, e: byte)
    requires pos <= |data|
    ensures !GetString(data, pos, e).Overrun? ==> InBounds(GetString(data, pos, e), pos, |data|)
  {
    hide FromWire, Pad;
  }

  /** The smallest buffer on which the 32-bit sum lets a string read through that it should refuse. */
  lemma StringOverrunExample()
    ensures GetString([255, 255, 255, 255], 0, LITTLE) == Overrun
  {
    var data: bytes := [255, 255, 255, 255];
    assert data[0..4] == data;
    assert FromWire(data, LITTLE) == TWO_32 - 1;
  }

  // ------------------------------------------------------------- round trips

  lemma WordRoundTrip(data: bytes, pos: nat, v: nat, n: int, e: byte)
    requires IsWidth(n) && v < Limit(n)
    requires At(data, pos, PutWord(v, n, pos, e))
    ensures GetWord(data, pos, n, e) == Got(v, pos + Pad(pos, n) + n)
  {
    AtSplit(data, pos, Zeros(Pad(pos, n)), ToWire(v, n, e));
    WireRoundTrip(v, n, e);
  }

  lemma TerminatedRoundTrip(data: bytes, pos: nat, s: bytes, need: nat)
    requires At(data, pos, s + [0]) && need <= |s| + 1
    ensures GetTerminated(data, pos, |s|, need) == Got(s, pos + |s| + 1)
  {
    AtSplit(data, pos, s, [0]);
    assert data[pos + |s|] == data[pos + |s|..pos + |s| + 1][0] == 0;
  }

  /** A written string reads back exactly when its length fits the length word. */
  lemma StringRoundTrip(data: bytes, pos: nat, s: bytes, e: byte)
    requires At(data, pos, PutString(s, pos, e))
    ensures GetString(data, pos, e) == Got(s, pos + |PutString(s, pos, e)|) <==> |s| < TWO_32
  {
    hide PutWord, GetWord;
    AtSplit(data, pos, PutWord(|s| % TWO_32, 4, pos, e), s + [0]);
    WordRoundTrip(data, pos, |s| % TWO_32, 4, e);
    if |s| < TWO_32 {
      TerminatedRoundTrip(data, pos + Pad(pos, 4) + 4, s, (|s| + 1) % TWO_32);
    }
  }

  /** A written signature reads back exactly when its length fits the length byte. */
  lemma SignatureRoundTrip(data: bytes, pos: nat, s: bytes)
    requires At(data, pos, PutSignature(s))
    ensures GetSignature(data, pos) == Got(s, pos + |PutSignature(s)|) <==> |s| <= 255
  {
    AtSplit(data, pos, [|s| % 256], s + [0]);
    assert data[pos] == data[pos..pos + 1][0] == |s| % 256;
    if |s| <= 255 {
      TerminatedRoundTrip(data, pos + 1, s, |s| + 1);
    }
  }

  // ------------------------------------------------------ lists of typed values

  /** The D-Bus types y; q, u, t; n, i, x; b; s and o; g. */
  datatype Type = TByte | TWord(width: int) | TInt(width: int) | TBool | TString | TSignature

  datatype Value =
    | Byte(y: byte)
    | Word(width: int, w: nat)
    | Int(width: int, i: int)
    | Bool(b: bool)
    | String(s: bytes)
    | Signature(g: bytes)

  predicate ValidType(t: Type) {
    (t.TWord? ==> IsWidth(t.width)) && (t.TInt? ==> IsWidth(t.width))
  }

  /** Values the C++ types can hold. */
  predicate Representable(v: Value) {
    match v
    case Word(n, w) => IsWidth(n) && w < Limit(n)
    case Int(n, i) => IsWidth(n) && -Limit(n) / 2 <= i < Limit(n) / 2
    case _ => true
  }

  function TypeOf(v: Value): (t: Type)
    requires Representable(v)
    ensures ValidType(t)
  {
    match v
    case Byte(_) => TByte
    case Word(n, _) => TWord(n)
    case Int(n, _) => TInt(n)
    case Bool(_) => TBool
    case String(_) => TString
    case Signature(_) => TSignature
  }

  /** Values whose length fits the length field in front of them. */
  predicate Fits(v: Value) {
    (v.String? ==> |v.s| < TWO_32) && (v.Signature? ==> |v.g| <= 255)
  }

  /** static_cast between signed and unsigned words of one width. */
  function ToUnsigned(i: int, n: int): (w: nat)
    requires IsWidth(n) && -Limit(n) / 2 <= i < Limit(n) / 2
    ensures w < Limit(n)
  {
    if i < 0 then i + Limit(n) else i
  }

  function ToSigned(w: nat, n: int): int
    requires IsWidth(n) && w < Limit(n)
  {
    if w >= Limit(n) / 2 then w - Limit(n) else w
  }

  function Put(v: Value, off: nat, e: byte): bytes
    requires Representable(v)
  {
    match v
    case Byte(y) => [y]
    case Word(n, w) => PutWord(w, n, off, e)
    case Int(n, i) => PutWord(ToUnsigned(i, n), n, off, e)
    case Bool(b) => PutWord(if b then 1 else 0, 4, off, e)
    case String(s) => PutString(s, off, e)
    case Signature(g) => PutSignature(g)
  }

  function MapRead<T, U>(r: Read<T>, f: T --> U): Read<U>
    requires r.Got? ==> f.requires(r.value)
  {
    match r
    case Got(v, p) => Got(f(v), p)
    case Miss(p) => Miss(p)
    case Overrun => Overrun
  }

  function Get(t: Type, data: bytes, pos: nat, e: byte): Read<Value>
    requires ValidType(t)
    requires pos <= |data|
  {
    match t
    case TByte => MapRead(GetByte(data, pos), y => Byte(y))
    case TWord(n) => MapRead(GetWord(data, pos, n, e), w => Word(n, w))
    case TInt(n) => MapRead(GetWord(data, pos, n, e), w requires 0 <= w < Limit(n) => Int(n, ToSigned(w, n)))
    case TBool => MapRead(GetWord(data, pos, 4, e), w => Bool(w != 0))
    case TString => MapRead(GetString(data, pos, e), s => String(s))
    case TSignature => MapRead(GetSignature(data, pos), g => Signature(g))
  }

  function PutAll(vs: seq<Value>, off: nat, e: byte): bytes
    requires forall i | 0 <= i < |vs| :: Representable(vs[i])
  {
    if vs == [] then []
    else
      var first := Put(vs[0], off, e);
      first + PutAll(vs[1..], off + |first|, e)
  }

  function TypesOf(vs: seq<Value>): (ts: seq<Type>)
    requires forall i | 0 <= i < |vs| :: Representable(vs[i])
    ensures forall i | 0 <= i < |ts| :: ValidType(ts[i])
  {
    seq(|vs|, i requires 0 <= i < |vs| => TypeOf(vs[i]))
  }

  function GetAll(ts: seq<Type>, data: bytes, pos: nat, e: byte): Read<seq<Value>>
    requires forall i | 0 <= i < |ts| :: ValidType(ts[i])
    requires pos <= |data|
  {
    if ts == [] then Got([], pos)
    else
      match Get(ts[0], data, pos, e)
      case Got(v, p) =>
        if p > |data| then Overrun
        else MapRead(GetAll(ts[1..], data, p, e), vs => [v] + vs)
      case Miss(p) => Miss(p)
      case Overrun => Overrun
  }

  lemma ValueRoundTrip(data: bytes, pos: nat, v: Value, e: byte)
    requires Representable(v) && Fits(v)
    requires At(data, pos, Put(v, pos, e))
    ensures Get(TypeOf(v), data, pos, e) == Got(v, pos + |Put(v, pos, e)|)
  {
    hide PutWord, GetWord, PutString, GetString, PutSignature, GetSignature;
    match v
    case Byte(y) => assert data[pos] == data[pos..pos + 1][0];
    case Word(n, w) => WordRoundTrip(data, pos, w, n, e);
    case Int(n, i) => WordRoundTrip(data, pos, ToUnsigned(i, n), n, e);
    case Bool(b) => WordRoundTrip(data, pos, if b then 1 else 0, 4, e);
    case String(s) => StringRoundTrip(data, pos, s, e);
    case Signature(g) => SignatureRoundTrip(data, pos, g);
  }

  lemma PutShift(v: Value, off: nat, blocks: nat, e: byte)
    requires Representable(v)
    ensures Put(v, 8 * blocks + off, e) == Put(v, off, e)
  {
    PadShift(off, blocks, 2);
    PadShift(off, blocks, 4);
    PadShift(off, blocks, 8);
  }

  lemma {:induction false} PutAllShift(vs: seq<Value>, off: nat, blocks: nat, e: byte)
    requires forall i | 0 <= i < |vs| :: Representable(vs[i])
    ensures PutAll(vs, 8 * blocks + off, e) == PutAll(vs, off, e)
  {
    hide Put, Representable;
    if vs != [] {
      var next := off + |Put(vs[0], off, e)|;
      PutShift(vs[0], off, blocks, e);
      PutAllShift(vs[1..], next, blocks, e);
      assert 8 * blocks + off + |Put(vs[0], off, e)| == 8 * blocks + next;
    }
  }

  lemma {:induction false} ValuesReadBack(data: bytes, pos: nat, vs: seq<Value>, e: byte)
    requires forall i | 0 <= i < |vs| :: Representable(vs[i]) && Fits(vs[i])
    requires At(data, pos, PutAll(vs, pos, e))
    ensures GetAll(TypesOf(vs), data, pos, e) == Got(vs, pos + |PutAll(vs, pos, e)|)
    decreases vs
  {
    hide Put, Get, Representable, Fits;
    if vs != [] {
      var first := Put(vs[0], pos, e);
      AtSplit(data, pos, first, PutAll(vs[1..], pos + |first|, e));
      ValueRoundTrip(data, pos, vs[0], e);
      ValuesReadBack(data, pos + |first|, vs[1..], e);
      assert TypesOf(vs)[1..] == TypesOf(vs[1..]);
      assert [vs[0]] + vs[1..] == vs;
    }
  }

  /**
   * A list of values written into a buffer of its own reads back, in either
   * byte order, wherever that buffer is placed at a multiple of eight.
   */
  lemma ValuesRoundTrip(before: bytes, vs: seq<Value>, after: bytes, e: byte)
    requires forall i | 0 <= i < |vs| :: Representable(vs[i]) && Fits(vs[i])
    requires |before| % 8 == 0
    ensures GetAll(TypesOf(vs), before + PutAll(vs, 0, e) + after, |before|, e)
         == Got(vs, |before| + |PutAll(vs, 0, e)|)
  {
    PutAllShift(vs, 0, |before| / 8, e);
    AtMiddle(before, PutAll(vs, 0, e), after);
    ValuesReadBack(before + PutAll(vs, 0, e) + after, |before|, vs, e);
  }
}
