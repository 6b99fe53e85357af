/**
 * What the parsers refuse, told from the bytes, and what they pass over: a
 * field whose signature they do not know is neither refused nor skipped.
 */
module Refusals {
  import opened Basics
  import opened ByteOrder
  import opened Values
  import opened Fields
  import opened Messages
  import opened Blocking

  // ------------------------------------------------------------------------ one field

  /** No signature at `p`: its length byte, text and NUL are not all there, or the NUL is another byte. */
  predicate NoSignatureAt(data: bytes, p: nat) {
    p >= |data| || p + 1 + data[p] >= |data| || data[p + 1 + data[p]] != 0
  }

  /** No 32-bit word at `p`, once aligned. */
  predicate NoWordAt(data: bytes, p: nat) {
    p + Pad(p, 4) + 4 > |data|
  }

  /** Length word of the text at `p`. */
  function TextLength(data: bytes, p: nat, e: byte): u32
    requires !NoWordAt(data, p)
  {
    WordAt(data, p + Pad(p, 4), e)
  }

  /**
   * No text at `p`: no length word, no NUL behind the text where the buffer
   * holds it, or a text that is too long for the buffer; only of length
   * 2^32 - 1 is it then not refused.
   */
  predicate NoTextAt(data: bytes, p: nat, e: byte) {
    NoWordAt(data, p)
    || var end := p + Pad(p, 4) + 4 + TextLength(data, p, e);
       if end < |data| then data[end] != 0 else TextLength(data, p, e) != TWO_32 - 1
  }

  /** Where the value of a field begins whose code byte is at `pos`, and the letters of its signature. */
  function ValueAt(data: bytes, pos: nat): nat
    requires !NoSignatureAt(data, pos + 1)
  {
    pos + 3 + data[pos + 1]
  }

  function Letters(data: bytes, pos: nat): bytes
    requires !NoSignatureAt(data, pos + 1)
  {
    data[pos + 2..pos + 2 + data[pos + 1]]
  }

  /** The field struct at `pos` cannot be read. */
  predicate Unreadable(data: bytes, pos: nat, e: byte) {
    NoSignatureAt(data, pos + 1)
    || var letters, p := Letters(data, pos), ValueAt(data, pos);
       if letters == [115] || letters == [111] then NoTextAt(data, p, e)
       else if letters == [103] then NoSignatureAt(data, p)
       else letters == [117] && NoWordAt(data, p)
  }

  lemma SignatureRefused(data: bytes, p: nat)
    ensures if NoSignatureAt(data, p) then GetSignature(data, p).Miss?
            else GetSignature(data, p) == Got(data[p + 1..p + 1 + data[p]], p + 2 + data[p])
  {
  }

  lemma TextRefused(data: bytes, p: nat, e: byte)
    requires p <= |data|
    ensures GetString(data, p, e).Miss? <==> NoTextAt(data, p, e)
  {
    hide FromWire, Pad;
  }

  lemma WordRefused(data: bytes, p: nat, e: byte)
    requires p <= |data|
    ensures GetWord(data, p, 4, e).Miss? <==> NoWordAt(data, p)
  {
    hide FromWire, Pad;
  }

  /**
   * Where a refused read leaves the cursor: of a word, at its boundary if that
   * is in the buffer; of a text, there, behind the length word, or at the byte
   * that should be NUL; of a signature, before or behind its length byte, or
   * at the byte that should be NUL.
   */
  lemma CursorLeft(data: bytes, p: nat, n: int, e: byte)
    requires p <= |data| && IsWidth(n)
    ensures GetWord(data, p, n, e).Miss? ==>
              GetWord(data, p, n, e).pos == if p + Pad(p, n) <= |data| then p + Pad(p, n) else p
    ensures GetString(data, p, e).Miss? ==>
              GetString(data, p, e).pos ==
              if p + Pad(p, 4) > |data| then p
              else if NoWordAt(data, p) then p + Pad(p, 4)
              else if p + Pad(p, 4) + 4 + TextLength(data, p, e) < |data| then
                p + Pad(p, 4) + 4 + TextLength(data, p, e)
              else p + Pad(p, 4) + 4
    ensures GetSignature(data, p).Miss? ==>
              GetSignature(data, p).pos ==
              if p == |data| then p
              else if p + 1 + data[p] < |data| then p + 1 + data[p]
              else p + 1
  {
    hide FromWire, Pad;
  }

  lemma ValueInside(data: bytes, pos: nat)
    requires !NoSignatureAt(data, pos + 1)
    ensures pos < |data| && ValueAt(data, pos) <= |data|
  {
  }

  lemma NothingThere(data: bytes, p: nat)
    requires p >= |data|
    ensures NoSignatureAt(data, p)
  {
  }

  /** On arbitrary bytes: exactly when reading a field is refused. */
  lemma FieldRefused(data: bytes, pos: nat, e: byte)
    requires pos <= |data|
    ensures GetField(data, pos, e).Miss? <==> Unreadable(data, pos, e)
  {
    hide GetString, GetWord, GetSignature, NoSignatureAt, NoTextAt, NoWordAt, FromWire;
    SignatureRefused(data, pos + 1);
    if pos < |data| && !NoSignatureAt(data, pos + 1) {
      var p := GetSignature(data, pos + 1).pos;
      ValueInside(data, pos);
      TextRefused(data, p, e);
      WordRefused(data, p, e);
      SignatureRefused(data, p);
    } else if pos >= |data| {
      NothingThere(data, pos + 1);
    }
  }

  /**
   * A field with a readable code and signature other than s, o, g and u is
   * never refused, and leaves the cursor right behind its signature.
   */
  lemma UnknownField(data: bytes, pos: nat, e: byte)
    requires pos <= |data| && !NoSignatureAt(data, pos + 1)
    requires Letters(data, pos) !in {[115], [111], [103], [117]}
    ensures pos < |data|
    ensures GetField(data, pos, e) == Got(Unread(data[pos], Letters(data, pos)), ValueAt(data, pos))
  {
    hide GetString, GetWord, FromWire;
    SignatureRefused(data, pos + 1);
    ValueInside(data, pos);
  }

  // ------------------------------------------------------------------- the header array

  /**
   * On arbitrary bytes: the loop refuses the array exactly when the last field
   * it begins to read cannot be read.  The strict loop does so where the
   * padded array lies inside the buffer.
   */
  lemma {:induction false} LoopRefuses(data: bytes, pos: nat, end: nat, e: byte, codec: Codec)
    requires pos <= |data| && (codec.Library? || RoundUp(end) <= |data|)
    ensures GetFields(data, pos, end, e, codec).status.Refused? <==>
            match LastField(data, pos, end, e, codec)
            case Some(p) => Unreadable(data, p, e)
            case None => false
    decreases |data| - pos
  {
    hide GetField, Unreadable;
    if pos < end {
      RoundUpBelow(pos, end);
      var p := if pos + Pad(pos, 8) <= |data| then pos + Pad(pos, 8) else pos;
      if p < end {
        GetFieldAdvances(data, p, e);
        FieldRefused(data, p, e);
        match GetField(data, p, e)
        case Got(_, q) => LoopRefuses(data, q, end, e, codec);
        case _ =>
      }
    }
  }

  lemma RoundUpBelow(a: nat, b: nat)
    requires a <= b
    ensures a + Pad(a, 8) <= RoundUp(b)
  {
  }

  // --------------------------------------------------------------------- whole messages

  /** What the library refuses of a complete frame: another version, or a header array it cannot read. */
  lemma LibraryRefuses(data: bytes)
    requires |data| >= 16
    ensures LibraryParse(data).Failed? <==>
            data[3] != 1
            || match LastField(data, 16, HeaderEnd(GetFixed(data)), LITTLE, Library)
               case Some(p) => Unreadable(data, p, LITTLE)
               case None => false
  {
    hide GetFields, StoreAll, LastField, Unreadable, FromWire;
    LoopRefuses(data, 16, HeaderEnd(GetFixed(data)), LITTLE, Library);
  }

  /**
   * What the example refuses: a buffer without a fixed header, another byte
   * order or version, an array or body the buffer does not hold, or an array
   * it cannot read.  The padding of the array is inside the buffer.
   */
  lemma ExampleRefuses(data: bytes)
    requires |data| >= 16 && RoundUp(16 + FromWire(data[12..16], data[0])) <= |data|
    ensures var end, e := 16 + FromWire(data[12..16], data[0]), data[0];
      ExampleParse(data).Failed? <==>
      (data[0] != 108 && data[0] != 66) || data[3] != 1
      || var loop := GetFields(data, 16, end, e, Example);
         (match LastField(data, 16, end, e, Example)
          case Some(p) => Unreadable(data, p, e)
          case None => false)
         || (loop.status.Finished? && RoundUp(loop.pos) + FromWire(data[4..8], e) > |data|)
  {
    hide GetFields, StoreAll, LastField, Unreadable, FromWire;
    LoopRefuses(data, 16, 16 + FromWire(data[12..16], data[0]), data[0], Example);
  }

  /** A buffer that does not hold the header array is refused; one that does not hold its padding is not read either. */
  lemma ExampleNeedsArray(data: bytes)
    ensures |data| < 16 || 16 + FromWire(data[12..16], data[0]) > |data| ==> ExampleParse(data).Failed?
    ensures |data| >= 16 && RoundUp(16 + FromWire(data[12..16], data[0])) > |data| ==> !ExampleParse(data).Done?
  {
    hide GetFields, StoreAll, FromWire;
    if |data| >= 16 {
      var end := 16 + FromWire(data[12..16], data[0]);
      FinishedAtEnd(data, 16, end, data[0], Example);
      var loop := GetFields(data, 16, end, data[0], Example);
      if loop.status.Finished? { RoundUpMonotone(end, loop.pos); }
    }
  }
}
