/** The example client's reading loop, on a socket whose reads block. */
module BlockingClient {
  import opened Basics
  import opened ByteOrder
  import opened Messages
  import opened Sockets
  import opened Blocking
  import ExampleCodec

  /** read_exact on a socket that blocks: `Waiting` stands for a read that never returns. */
  datatype Exact = Complete(data: bytes) | Waiting | Thrown

  method ReadExact(sock: Socket, n: nat) returns (r: Exact)
    modifies sock`script
    ensures match r
      case Complete(d) => |d| == n && old(Pending(sock.script)) == d + Pending(sock.script)
      case Waiting => |old(Pending(sock.script))| < n && Unbroken(old(sock.script))
      case Thrown => |old(Pending(sock.script))| < n && !Unbroken(old(sock.script))
    ensures r.Complete? ==> (Unbroken(old(sock.script)) <==> Unbroken(sock.script))
  {
    hide ReadOnce, Pending, Work, Unbroken;
    var got: bytes := [];
    while |got| < n
      invariant |got| <= n
      invariant old(Pending(sock.script)) == got + Pending(sock.script)
      invariant Unbroken(old(sock.script)) <==> Unbroken(sock.script)
      decreases Work(sock.script)
    {
      ReadOnceTakes(sock.script, n - |got|);
      ghost var before := got;
      var part := sock.Read(n - |got|);
      match part
      case Bytes(b) =>
        got := got + b;
        assert before + (b + Pending(sock.script)) == got + Pending(sock.script);
      case WouldBlock =>
        if sock.script == [] {
          NothingPending();
          return Waiting;
        }
      case Fault => return Thrown;
    }
    r := Complete(got);
  }

  lemma NothingPending()
    ensures Pending([]) == [] && Unbroken([])
  {
  }

  /** A read that did not complete ends the call: by never returning, or by throwing. */
  function Ended(r: Exact): Option<Outcome<Message>>
    requires !r.Complete?
  {
    if r.Waiting? then None else Some(Failed)
  }

  /**
   * read_message: header, fields, padding and body read one after the other,
   * then parsed.  `None`: it never returns.  A connection that fails or ends
   * inside the message makes it throw where it would otherwise wait.
   */
  method ReadMessage(sock: Socket) returns (r: Option<Outcome<Message>>)
    modifies sock`script
    ensures match BlockingRead(old(Pending(sock.script)))
      case Waits => r == if Unbroken(old(sock.script)) then None else Some(Failed)
      case Throws => r == Some(Failed)
      case Undone => r == Some(Undefined)
      case Reads(m, rest) => r == Some(Done(m)) && Pending(sock.script) == rest
  {
    hide FromWire, Pending, Unbroken, ExampleParse, BlockingRead, BlockingLength;
    ghost var all := Pending(sock.script);
    HeaderDecides(all);
    var header := ReadExact(sock, 16);
    if !header.Complete? {
      return Ended(header);
    }
    var h := header.data;
    assert all[0] == h[0] && all[4..8] == h[4..8] && all[12..16] == h[12..16];
    var endian := h[0];
    if endian != LITTLE && endian != BIG {
      return Some(Failed);
    }
    var bodyLen, fieldsLen := FromWire(h[4..8], endian), FromWire(h[12..16], endian);
    LengthOf(all, bodyLen, fieldsLen);
    ShortWaits(all);
    var fields := ReadExact(sock, fieldsLen);
    if !fields.Complete? {
      return Ended(fields);
    }
    var headerTotal := (16 + fieldsLen) % TWO_32;
    var padding := (8 - headerTotal % 8) % 8;
    var pad := ReadExact(sock, padding);
    if !pad.Complete? {
      return Ended(pad);
    }
    var body := ReadExact(sock, bodyLen);
    if !body.Complete? {
      return Ended(body);
    }
    var full := h + fields.data + pad.data + body.data;
    assert all == full + Pending(sock.script);
    WholeReads(all, full, Pending(sock.script));
    var m := ExampleCodec.Parse(full);
    r := Some(m);
  }

  lemma LengthOf(s: bytes, bodyLen: nat, fieldsLen: nat)
    requires |s| >= 16 && bodyLen == FromWire(s[4..8], s[0]) && fieldsLen == FromWire(s[12..16], s[0])
    ensures BlockingLength(s, s[0])
         == 16 + fieldsLen + (8 - (16 + fieldsLen) % TWO_32 % 8) % 8 + bodyLen
  {
    hide FromWire;
  }

  lemma ShortWaits(s: bytes)
    requires |s| >= 16 && (s[0] == LITTLE || s[0] == BIG)
    ensures |s| < BlockingLength(s, s[0]) ==> BlockingRead(s).Waits?
  {
    hide BlockingLength, ExampleParse;
  }

  lemma WholeReads(s: bytes, full: bytes, rest: bytes)
    requires |s| >= 16 && (s[0] == LITTLE || s[0] == BIG)
    requires s == full + rest && |full| == BlockingLength(s, s[0])
    ensures BlockingRead(s) == match ExampleParse(full)
      case Failed => Throws
      case Undefined => Undone
      case Done(m) => Reads(m, rest)
  {
    hide BlockingLength, ExampleParse;
    assert s[..|full|] == full && s[|full|..] == rest;
  }

  lemma HeaderDecides(s: bytes)
    ensures |s| < 16 ==> BlockingRead(s).Waits?
    ensures |s| >= 16 && s[0] != LITTLE && s[0] != BIG ==> BlockingRead(s).Throws?
  {
  }
}
