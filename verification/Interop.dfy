/** How the two codecs relate: each reads what the other writes. */
module Interop {
  import opened Basics
  import opened ByteOrder
  import opened Fields
  import opened Messages

  /** A message `writer` can put on the wire without cutting a length. */
  predicate Sendable(m: Message, writer: Codec) {
    OneByteOrder(m, writer) && SizesFit(m, writer) && |m.body| < TWO_32
  }

  /**
   * Both codecs lay out every message in the same number of bytes, in either
   * byte order.  The library always produces them; the example does unless
   * the signature has more than 255 bytes: then it throws.
   */
  lemma SameLength(m: Message)
    ensures |Serialize(m, Library)| == |Serialize(m, Example)|
    ensures Produced(m, Library).Some?
    ensures Produced(m, Example).None? <==> m.header.signature.Some? && |m.header.signature.value| > 255
    ensures Produced(m, Example).Some? ==> |Produced(m, Example).value| == |Produced(m, Library).value|
  {
    hide PutFields, HeaderFields, PutFixed;
    ArrayLength(m.header, Library, LITTLE);
    ArrayLength(m.header, Example, m.endian);
    SizeByOrder(m.header);
  }

  lemma SizeByOrder(h: Header)
    ensures TotalSize(HeaderFields(h, Library)) == TotalSize(HeaderFields(h, Example))
  {
    hide LibraryFields, ExampleFields, TotalSize;
    OrderKeepsSize(h);
  }

  lemma ArrayLength(h: Header, codec: Codec, e: byte)
    ensures RoundUp(|HeaderArray(h, codec, e)|) == TotalSize(HeaderFields(h, codec))
  {
    hide PutFields, HeaderFields, TotalSize;
    HeaderTyped(h, codec);
    ArraySize(HeaderFields(h, codec), 0, e);
  }

  /** A little-endian message written by either codec is the same message to both parsers. */
  lemma EachReadsTheOther(m: Message, writer: Codec, extra: bytes)
    requires Sendable(m, writer) && m.endian == LITTLE
    requires |HeaderArray(m.header, writer, LITTLE)| < TWO_32 - 16
    ensures ExampleParse(Serialize(m, writer) + extra) == Done(m)
    ensures var data := Serialize(m, writer);
      |data| >= 16 && LibraryParse(data).Done? && RecordOf(LibraryParse(data).value) == m
      && LibraryParse(data).value.pos % 8 == 0
      && FrameSize(GetFixed(data)) == |data|
  {
    hide HeaderArray, PutFixed, GetFixed, LibraryParse, ExampleParse, ShortSignature;
    ExampleReads(m, writer, extra);
    var fields := HeaderArray(m.header, writer, LITTLE);
    var f := FixedOf(m).(bodyLen := |m.body| % TWO_32, fieldsLen := |fields| % TWO_32);
    var data := Assemble(f, fields, m.body);
    assert data == Serialize(m, writer);
    LibraryReads(f, m.header, m.body, writer);
    ParseKeepsFixed(data);
    assert data[|data| - |m.body|..] == m.body by { AssembledParts(data, f, fields, m.body); }
  }

  lemma ParseKeepsFixed(data: bytes)
    requires |data| >= 16
    ensures LibraryParse(data).Done? ==> LibraryParse(data).value.fixed == GetFixed(data)
  {
    hide GetFields, GetFixed, StoreAll;
  }

  // ------------------------------------------------------------ identical bytes

  /** Headers whose fields both codecs happen to write in the same order. */
  predicate SameOrder(h: Header) {
    (h.replySerial.None? || (h.destination.None? && h.sender.None?))
    && (h.unixFds.None? || h.signature.None?)
  }

  /** Two swapped pairs of runs make the same list only if one run of each pair is empty. */
  lemma SwappedPairs(p: seq<Field>, r: seq<Field>, u: seq<Field>, s: seq<Field>)
    requires forall i | 0 <= i < |p| :: p[i].TextField?
    requires forall i | 0 <= i < |r| :: r[i].NumField?
    requires forall i | 0 <= i < |u| :: u[i].NumField?
    requires forall i | 0 <= i < |s| :: s[i].SigField?
    ensures (p + r) + (u + s) == (r + p) + (s + u) <==> (p == [] || r == []) && (u == [] || s == [])
  {
    var left, right := (p + r) + (u + s), (r + p) + (s + u);
    if p != [] && r != [] {
      assert left[0] == p[0] && right[0] == r[0];
    } else {
      assert p + r == r + p;
      if u != [] && s != [] {
        assert left[|p + r|] == u[0] && right[|p + r|] == s[0];
      } else {
        assert u + s == s + u;
      }
    }
  }

  lemma SameFieldOrder(h: Header)
    ensures LibraryFields(h) == ExampleFields(h) <==> SameOrder(h)
  {
    hide Leading, Peers, Num, Sig;
    var front, peers := Leading(h), Peers(h);
    var serial, fds, sig := Num(REPLY_SERIAL, h.replySerial), Num(UNIX_FDS, h.unixFds), Sig(h.signature);
    RunsOf(h);
    SwappedPairs(peers, serial, fds, sig);
    FrontCancels(front, (peers + serial) + (fds + sig), (serial + peers) + (sig + fds));
    Regroup(front, peers, serial, fds, sig);
    Regroup(front, serial, peers, sig, fds);
  }

  /** What each optional run of the header holds, and when it is empty. */
  lemma RunsOf(h: Header)
    ensures forall i | 0 <= i < |Peers(h)| :: Peers(h)[i].TextField?
    ensures forall v: Option<u32>, code: byte, i | 0 <= i < |Num(code, v)| :: Num(code, v)[i].NumField?
    ensures forall i | 0 <= i < |Sig(h.signature)| :: Sig(h.signature)[i].SigField?
    ensures Peers(h) == [] <==> h.destination.None? && h.sender.None?
    ensures forall v: Option<u32>, code: byte :: Num(code, v) == [] <==> v.None?
    ensures Sig(h.signature) == [] <==> h.signature.None?
  {
  }

  lemma Regroup(front: seq<Field>, a: seq<Field>, b: seq<Field>, c: seq<Field>, d: seq<Field>)
    ensures front + a + b + c + d == front + ((a + b) + (c + d))
  {
  }

  lemma FrontCancels(front: seq<Field>, a: seq<Field>, b: seq<Field>)
    ensures front + a == front + b <==> a == b
  {
    assert (front + a)[|front|..] == a && (front + b)[|front|..] == b;
  }

  /** The two codecs write the same bytes exactly for the headers they order alike. */
  lemma SameBytes(m: Message)
    requires m.endian == LITTLE && Sendable(m, Library) && Sendable(m, Example)
    ensures Serialize(m, Library) == Serialize(m, Example) <==> SameOrder(m.header)
  {
    hide PutFields, LibraryFields, ExampleFields, PutFixed, GetFields, ToWire, FromWire;
    SameFieldOrder(m.header);
    if Serialize(m, Library) == Serialize(m, Example) {
      var data := Serialize(m, Library);
      var lib, ex := HeaderArray(m.header, Library, LITTLE), HeaderArray(m.header, Example, LITTLE);
      assert At(data, 0, data);
      var f := FixedOf(m).(bodyLen := |m.body|);
      AssembledParts(data, f.(fieldsLen := |lib|), lib, m.body);
      AssembledParts(data, f.(fieldsLen := |ex|), ex, m.body);
      FixedParts(data, f.(fieldsLen := |lib|));
      FixedParts(data, f.(fieldsLen := |ex|));
      WireRoundTrip(|lib|, 4, LITTLE);
      WireRoundTrip(|ex|, 4, LITTLE);
      ArrayReadBack(data, m.header, Library, Library, LITTLE);
      ArrayReadBack(data, m.header, Example, Library, LITTLE);
    }
  }

  // -------------------------------------------------------- streams of messages

  datatype Packet = Packet(message: Message, writer: Codec)

  predicate AllSendable(ps: seq<Packet>) {
    forall i | 0 <= i < |ps| :: Sendable(ps[i].message, ps[i].writer)
  }

  function Stream(ps: seq<Packet>): bytes {
    if ps == [] then [] else Serialize(ps[0].message, ps[0].writer) + Stream(ps[1..])
  }

  function MessagesOf(ps: seq<Packet>): seq<Message> {
    seq(|ps|, i requires 0 <= i < |ps| => ps[i].message)
  }

  lemma LengthByMessage(p: Packet, q: Packet)
    requires p.message == q.message
    ensures |Serialize(p.message, p.writer)| == |Serialize(q.message, q.writer)|
  {
    hide Serialize;
    SameLength(p.message);
    assert p.writer == Library || p.writer == Example;
    assert q.writer == Library || q.writer == Example;
  }

  lemma NotEmpty(m: Message, writer: Codec)
    ensures |Serialize(m, writer)| >= 16
  {
    hide HeaderArray, PutFixed;
  }

  /**
   * The encoding delimits itself: a byte stream splits into serialised
   * messages in one way only, even when its messages come from both codecs
   * and in both byte orders.
   */
  lemma {:induction false} UniqueSplit(ps: seq<Packet>, qs: seq<Packet>)
    requires AllSendable(ps) && AllSendable(qs)
    requires Stream(ps) == Stream(qs)
    ensures MessagesOf(ps) == MessagesOf(qs)
    decreases ps
  {
    hide Serialize, ExampleParse, Sendable;
    if ps == [] || qs == [] {
      if ps != [] { NotEmpty(ps[0].message, ps[0].writer); }
      if qs != [] { NotEmpty(qs[0].message, qs[0].writer); }
    } else {
      var p, q := ps[0], qs[0];
      ParsesFirst(ps);
      ParsesFirst(qs);
      LengthByMessage(p, q);
      var n := |Serialize(p.message, p.writer)|;
      assert Stream(ps)[n..] == Stream(ps[1..]) && Stream(qs)[n..] == Stream(qs[1..]);
      UniqueSplit(ps[1..], qs[1..]);
      assert MessagesOf(ps) == [p.message] + MessagesOf(ps[1..]);
      assert MessagesOf(qs) == [q.message] + MessagesOf(qs[1..]);
    }
  }

  lemma ParsesFirst(ps: seq<Packet>)
    requires AllSendable(ps) && ps != []
    ensures ExampleParse(Stream(ps)) == Done(ps[0].message)
  {
    hide Serialize, ExampleParse;
    ExampleReads(ps[0].message, ps[0].writer, Stream(ps[1..]));
  }
}
