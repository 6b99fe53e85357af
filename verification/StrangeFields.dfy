/**
 * Header arrays with fields the parsers do not know.  The value of such a
 * field is not skipped; the next field is found because each is aligned to 8,
 * so a value that ends before the next boundary does no harm.
 */
module StrangeFields {
  import opened Basics
  import opened ByteOrder
  import opened Values
  import opened Fields
  import opened Messages
  import opened Framing
  import opened Delivery
  import opened Refusals

  /** An element of a header array as some other program may write it. */
  datatype Item = Known(field: Field) | Strange(code: byte, letters: bytes, value: bytes)

  /** A signature none of the parsers knows, with a value that ends before the next multiple of 8. */
  predicate Harmless(it: Item) {
    match it
    case Known(f) => FieldFits(f)
    case Strange(_, letters, value) =>
      |letters| <= 255 && letters !in {[115], [111], [103], [117]} && 3 + |letters| + |value| <= RoundUp(3 + |letters|)
  }

  predicate AllHarmless(items: seq<Item>)
    ensures AllHarmless(items) ==> forall i | 0 <= i < |items| :: Harmless(items[i])
  {
    forall i | 0 <= i < |items| :: Harmless(items[i])
  }

  function PutItem(it: Item, off: nat, e: byte): bytes
    requires Harmless(it)
  {
    match it
    case Known(f) => PutField(f, off, e)
    case Strange(code, letters, value) => Zeros(Pad(off, 8)) + ([code] + (PutSignature(letters) + value))
  }

  function PutItems(items: seq<Item>, off: nat, e: byte): bytes
    requires AllHarmless(items)
  {
    if items == [] then []
    else
      var first := PutItem(items[0], off, e);
      first + PutItems(items[1..], off + |first|, e)
  }

  /** The fields the parsers know, in their order. */
  function KnownOf(items: seq<Item>): seq<Field> {
    if items == [] then []
    else (if items[0].Known? then [items[0].field] else []) + KnownOf(items[1..])
  }

  /** What the loop makes of an element. */
  function AsRead(it: Item): Field {
    match it
    case Known(f) => f
    case Strange(code, letters, _) => Unread(code, letters)
  }

  function AllRead(items: seq<Item>): seq<Field> {
    seq(|items|, i requires 0 <= i < |items| => AsRead(items[i]))
  }

  /** Whatever is not known leaves no trace in the record. */
  lemma {:induction false} StrangeLeavesNoTrace(h: Header, items: seq<Item>)
    ensures StoreAll(h, AllRead(items)) == StoreAll(h, KnownOf(items))
    decreases items
  {
    if items != [] {
      assert AllRead(items)[1..] == AllRead(items[1..]);
      match items[0]
      case Known(f) =>
        assert KnownOf(items)[1..] == KnownOf(items[1..]);
        StrangeLeavesNoTrace(Store(h, f), items[1..]);
      case Strange(_, _, _) =>
        assert KnownOf(items) == KnownOf(items[1..]);
        StrangeLeavesNoTrace(h, items[1..]);
    }
  }

  /** The struct of an item, without the padding in front of it. */
  function PutBare(it: Item, off: nat, e: byte): (bs: bytes)
    requires Harmless(it)
    ensures |bs| > 0
  {
    match it
    case Known(f) => StructNotEmpty(f, off, e); PutStruct(f, off, e)
    case Strange(code, letters, value) => [code] + (PutSignature(letters) + value)
  }

  /** Where the cursor stops after an item: at its end, or before the value of a strange one. */
  function CursorAfter(it: Item, pos: nat, e: byte): nat
    requires Harmless(it)
  {
    match it
    case Known(f) => pos + |PutStruct(f, pos, e)|
    case Strange(_, letters, _) => pos + 3 + |letters|
  }

  /** A strange field, read: the cursor stops before its value, at or before the end of its struct. */
  lemma StrangeRead(data: bytes, pos: nat, it: Item, e: byte)
    requires it.Strange? && Harmless(it) && pos % 8 == 0
    requires At(data, pos, [it.code] + (PutSignature(it.letters) + it.value))
    ensures GetField(data, pos, e) == Got(AsRead(it), pos + 3 + |it.letters|)
    ensures pos + 3 + |it.letters| + |it.value| <= RoundUp(pos + 3 + |it.letters|)
  {
    hide GetField, PutSignature, NoSignatureAt, RoundUp;
    AtSplit(data, pos, [it.code], PutSignature(it.letters) + it.value);
    AtSplit(data, pos + 1, PutSignature(it.letters), it.value);
    StrangeBytes(data, pos + 1, it.letters);
    assert data[pos] == data[pos..pos + 1][0];
    UnknownField(data, pos, e);
    RoundUpSum(pos, 3 + |it.letters|);
  }

  lemma StrangeBytes(data: bytes, pos: nat, letters: bytes)
    requires |letters| <= 255 && At(data, pos, PutSignature(letters))
    ensures !NoSignatureAt(data, pos) && data[pos] == |letters| && data[pos + 1..pos + 1 + |letters|] == letters
  {
    AtSplit(data, pos, [|letters| % 256], letters + [0]);
    AtSplit(data, pos + 1, letters, [0]);
    assert data[pos] == data[pos..pos + 1][0];
    assert data[pos + 1 + |letters|] == data[pos + 1 + |letters|..pos + 2 + |letters|][0];
  }

  lemma RoundUpBetween(a: nat, b: nat)
    requires a <= b <= RoundUp(a)
    ensures RoundUp(a) == RoundUp(b)
  {
  }

  lemma ItemRead(data: bytes, pos: nat, it: Item, e: byte)
    requires Harmless(it) && pos % 8 == 0 && At(data, pos, PutBare(it, pos, e))
    ensures var next := CursorAfter(it, pos, e);
      GetField(data, pos, e) == Got(AsRead(it), next)
      && next <= pos + |PutBare(it, pos, e)| && RoundUp(next) == RoundUp(pos + |PutBare(it, pos, e)|)
  {
    hide GetField, RoundUp, PutStruct;
    match it
    case Known(f) => FieldRoundTrip(data, pos, f, e);
    case Strange(code, letters, value) =>
      StrangeRead(data, pos, it, e);
      RoundUpBetween(pos + 3 + |letters|, pos + 3 + |letters| + |value|);
  }

  lemma SameBoundary(pos: nat, off: nat)
    requires RoundUp(pos) == RoundUp(off)
    ensures pos + Pad(pos, 8) == off + Pad(off, 8)
  {
  }

  /** One turn of either loop, from wherever the field before left the cursor. */
  lemma ItemStep(data: bytes, pos: nat, off: nat, end: nat, it: Item, e: byte, codec: Codec)
    requires Harmless(it) && pos <= off && RoundUp(pos) == RoundUp(off)
    requires At(data, off, PutItem(it, off, e)) && off + |PutItem(it, off, e)| <= end
    ensures CursorAfter(it, off + Pad(off, 8), e) <= off + |PutItem(it, off, e)|
    ensures GetFields(data, pos, end, e, codec)
         == After([AsRead(it)], GetFields(data, CursorAfter(it, off + Pad(off, 8), e), end, e, codec))
    ensures RoundUp(CursorAfter(it, off + Pad(off, 8), e)) == RoundUp(off + |PutItem(it, off, e)|)
  {
    hide GetField, PutBare, CursorAfter, Harmless, AsRead, PutItem, RoundUp;
    var up := off + Pad(off, 8);
    SameBoundary(pos, off);
    ItemIsBare(it, off, e);
    AtSplit(data, off, Zeros(Pad(off, 8)), PutBare(it, up, e));
    ItemRead(data, up, it, e);
  }

  lemma NoItems(data: bytes, pos: nat, end: nat, e: byte, codec: Codec)
    requires pos <= end && RoundUp(pos) == RoundUp(end) && RoundUp(end) <= |data|
    ensures var loop := GetFields(data, pos, end, e, codec);
      loop.status.Finished? && loop.fields == [] && RoundUp(loop.pos) == RoundUp(end)
  {
  }

  /** Both loops read an array with strange fields to its end. */
  lemma {:induction false} ItemsRead(data: bytes, pos: nat, off: nat, items: seq<Item>, e: byte, codec: Codec)
    requires AllHarmless(items) && pos <= off && RoundUp(pos) == RoundUp(off)
    requires At(data, off, PutItems(items, off, e)) && RoundUp(off + |PutItems(items, off, e)|) <= |data|
    ensures var loop := GetFields(data, pos, off + |PutItems(items, off, e)|, e, codec);
      loop.status.Finished? && loop.fields == AllRead(items)
      && RoundUp(loop.pos) == RoundUp(off + |PutItems(items, off, e)|)
    decreases items
  {
    hide GetFields, PutItem, CursorAfter, Harmless, AsRead, RoundUp;
    var end := off + |PutItems(items, off, e)|;
    if items == [] {
      NoItems(data, pos, end, e, codec);
    } else {
      var first := PutItem(items[0], off, e);
      AtSplit(data, off, first, PutItems(items[1..], off + |first|, e));
      ItemStep(data, pos, off, end, items[0], e, codec);
      ItemsRead(data, CursorAfter(items[0], off + Pad(off, 8), e), off + |first|, items[1..], e, codec);
      assert AllRead(items) == [AsRead(items[0])] + AllRead(items[1..]);
    }
  }

  lemma ItemIsBare(it: Item, off: nat, e: byte)
    requires Harmless(it)
    ensures PutItem(it, off, e) == Zeros(Pad(off, 8)) + PutBare(it, off + Pad(off, 8), e)
  {
  }

  // ------------------------------------------------------------------------ whole messages

  lemma {:induction false} ItemsShift(items: seq<Item>, off: nat, blocks: nat, e: byte)
    requires AllHarmless(items)
    ensures PutItems(items, 8 * blocks + off, e) == PutItems(items, off, e)
    decreases items
  {
    hide PutItem, Harmless;
    if items != [] {
      var next := off + |PutItem(items[0], off, e)|;
      ItemShift(items[0], off, blocks, e);
      ItemsShift(items[1..], next, blocks, e);
      assert 8 * blocks + off + |PutItem(items[0], off, e)| == 8 * blocks + next;
    }
  }

  lemma ItemShift(it: Item, off: nat, blocks: nat, e: byte)
    requires Harmless(it)
    ensures PutItem(it, 8 * blocks + off, e) == PutItem(it, off, e)
  {
    PadShift(off, blocks, 8);
    if it.Known? { PutFieldShift(it.field, off, blocks, e); }
  }

  /** A little-endian message whose header array holds `items`. */
  function WithItems(m: Message, items: seq<Item>): bytes
    requires AllHarmless(items)
  {
    var fields := PutItems(items, 0, LITTLE);
    Assemble(FixedOf(m).(bodyLen := |m.body| % TWO_32, fieldsLen := |fields| % TWO_32), fields, m.body)
  }

  /** The loop over such an array reaches the padding before the body and restores the record. */
  lemma ArrayWithItems(data: bytes, h: Header, items: seq<Item>, order: Codec, codec: Codec)
    requires AllHarmless(items) && KnownOf(items) == HeaderFields(h, order)
    requires At(data, 16, PutItems(items, 0, LITTLE)) && RoundUp(16 + |PutItems(items, 0, LITTLE)|) <= |data|
    ensures var end := 16 + |PutItems(items, 0, LITTLE)|;
      var loop := GetFields(data, 16, end, LITTLE, codec);
      loop.status.Finished? && StoreAll(NO_FIELDS, loop.fields) == h && RoundUp(loop.pos) == RoundUp(end)
  {
    hide GetFields, StoreAll, HeaderFields, PutItems, RoundUp;
    ItemsShift(items, 0, 2, LITTLE);
    ItemsRead(data, 16, 16, items, LITTLE, codec);
    StrangeLeavesNoTrace(NO_FIELDS, items);
    StoreRestores(h, order);
  }

  /** Where the pieces of such a message lie. */
  lemma ItemsLie(m: Message, items: seq<Item>)
    requires m.endian == LITTLE && AllHarmless(items)
    ensures var data, fields := WithItems(m, items), PutItems(items, 0, LITTLE);
      var start := 16 + |fields| + Pad(|fields|, 8);
      |data| == start + |m.body| && At(data, 16, fields) && At(data, start, m.body)
      && data[0] == LITTLE && data[1] == m.kind && data[2] == m.flags && data[3] == 1
      && FromWire(data[4..8], LITTLE) == |m.body| % TWO_32 && FromWire(data[8..12], LITTLE) == m.serial
      && FromWire(data[12..16], LITTLE) == |fields| % TWO_32 && RoundUp(16 + |fields|) == start
      && data[start..] == m.body
  {
    hide PutItems, PutFixed, ToWire, FromWire, AllHarmless;
    var fields := PutItems(items, 0, LITTLE);
    var f := FixedOf(m).(bodyLen := |m.body| % TWO_32, fieldsLen := |fields| % TWO_32);
    var data := WithItems(m, items);
    assert At(data, 0, data);
    AssembledParts(data, f, fields, m.body);
    FixedParts(data, f);
    WireRoundTrip(f.bodyLen, 4, LITTLE);
    WireRoundTrip(f.serial, 4, LITTLE);
    WireRoundTrip(f.fieldsLen, 4, LITTLE);
    PadAfterHeader(|fields|);
  }

  /** `data` is a little-endian frame of `m` whose header array has `n` bytes and reads as the record of `m`. */
  predicate FrameOf(data: bytes, m: Message, n: nat, codec: Codec) {
    && n < TWO_32 - 16 && |data| >= 16 && |data| == RoundUp(16 + n) + |m.body| && |m.body| < TWO_32
    && data[0] == m.endian == LITTLE && data[1] == m.kind && data[2] == m.flags && data[3] == 1
    && FromWire(data[4..8], LITTLE) == |m.body| && FromWire(data[8..12], LITTLE) == m.serial
    && FromWire(data[12..16], LITTLE) == n && data[RoundUp(16 + n)..] == m.body
    && var loop := GetFields(data, 16, 16 + n, LITTLE, codec);
       loop.status.Finished? && StoreAll(NO_FIELDS, loop.fields) == m.header && RoundUp(loop.pos) == RoundUp(16 + n)
  }

  lemma ExampleFrames(data: bytes, m: Message, n: nat)
    requires FrameOf(data, m, n, Example)
    ensures ExampleParse(data) == Done(m)
  {
    hide GetFields, StoreAll, FromWire;
    assert data[RoundUp(16 + n)..RoundUp(16 + n) + |m.body|] == m.body;
  }

  lemma LibraryFrames(data: bytes, m: Message, n: nat)
    requires FrameOf(data, m, n, Library)
    ensures |data| >= 16 && LibraryParse(data).Done? && LibraryParse(data).value.pos <= |data|
      && RecordOf(LibraryParse(data).value) == m && FrameSize(GetFixed(data)) == |data|
  {
    hide GetFields, StoreAll, FromWire;
  }

  /**
   * Fields of later protocol versions, interleaved with the known ones in
   * either writing order, do not disturb either parser, as long as their
   * values end before the next multiple of 8: the same message is read.
   */
  lemma StrangeFieldsPassed(m: Message, items: seq<Item>, order: Codec)
    requires m.endian == LITTLE && |m.body| < TWO_32
    requires AllHarmless(items) && KnownOf(items) == HeaderFields(m.header, order)
    requires |PutItems(items, 0, LITTLE)| < TWO_32 - 16
    ensures ExampleParse(WithItems(m, items)) == Done(m)
    ensures var data := WithItems(m, items);
      |data| >= 16 && LibraryParse(data).Done? && LibraryParse(data).value.pos <= |data|
      && RecordOf(LibraryParse(data).value) == m && FrameSize(GetFixed(data)) == |data|
  {
    hide PutItems, GetFields, StoreAll, HeaderFields, FromWire, AllHarmless, KnownOf, WithItems, RoundUp,
         LibraryParse, ExampleParse, GetFixed;
    ItemsLie(m, items);
    var data := WithItems(m, items);
    ArrayWithItems(data, m.header, items, order, Library);
    ArrayWithItems(data, m.header, items, order, Example);
    LibraryFrames(data, m, |PutItems(items, 0, LITTLE)|);
    ExampleFrames(data, m, |PutItems(items, 0, LITTLE)|);
  }

  /** So it is for the resumable reader: the message comes out of the stream, and the next one starts behind it. */
  lemma StrangeFrame(m: Message, items: seq<Item>, order: Codec, rest: bytes)
    requires m.endian == LITTLE && |m.body| < TWO_32
    requires AllHarmless(items) && KnownOf(items) == HeaderFields(m.header, order)
    requires |PutItems(items, 0, LITTLE)| < TWO_32 - 16
    ensures var n := NextFrame(WithItems(m, items) + rest);
      n.Frame? && n.rest == rest && n.message.pos <= |n.message.data| && RecordOf(n.message) == m
  {
    hide WithItems, PutItems, HeaderFields, AllHarmless, KnownOf, LibraryParse, ExampleParse, GetFixed, FrameSize;
    var data := WithItems(m, items);
    StrangeFieldsPassed(m, items, order);
    SameFixed(data, rest);
    assert (data + rest)[..|data|] == data && (data + rest)[|data|..] == rest;
    ParsedIsVersionOne(data);
  }
}
