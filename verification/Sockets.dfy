/**
 * The non-blocking socket as the code sees it: a script of what successive
 * reads meet, and all-or-nothing writes.
 */
module Sockets {
  import opened Basics

  type Chunk = c: bytes | |c| > 0 witness [0]

  /** `Data`: bytes that have arrived together.  `Again`: a read finds nothing yet.  `Broken`: error or end of file. */
  datatype Event = Data(chunk: Chunk) | Again | Broken

  type Script = seq<Event>

  /** One read of at most `n` bytes. */
  datatype ReadResult = Bytes(b: Chunk) | WouldBlock | Fault

  function ReadOnce(script: Script, n: nat): (ReadResult, Script)
    requires n > 0
  {
    if script == [] then (WouldBlock, script)
    else
      match script[0]
      case Again => (WouldBlock, script[1..])
      case Broken => (Fault, script)
      case Data(c) =>
        if |c| <= n then (Bytes(c), script[1..])
        else (Bytes(c[..n]), [Data(c[n..])] + script[1..])
  }

  /** All bytes still to come before the connection breaks, however they are cut. */
  function Pending(script: Script): bytes {
    if script == [] then []
    else
      match script[0]
      case Data(c) => c + Pending(script[1..])
      case Again => Pending(script[1..])
      case Broken => []
  }

  predicate Unbroken(script: Script) {
    forall i | 0 <= i < |script| :: !script[i].Broken?
  }

  /** Bounds the reads a script can still answer other than with would-block on an empty script. */
  function Work(script: Script): nat {
    |script| + |Pending(script)|
  }

  /** A break in the script stays there, however much is read. */
  lemma ReadOnceKeepsBreak(script: Script, n: nat)
    requires n > 0
    ensures Unbroken(ReadOnce(script, n).1) ==> Unbroken(script)
  {
    var rest := ReadOnce(script, n).1;
    if Unbroken(rest) && script != [] {
      forall i | 0 <= i < |script| ensures !script[i].Broken? {
        if i > 0 {
          assert script[1..][i - 1] == script[i];
          if script[0].Data? && |script[0].chunk| > n { assert rest[i] == script[i]; }
          else if !script[0].Broken? { assert rest[i - 1] == script[i]; }
        }
      }
    }
  }

  lemma ReadOnceTakes(script: Script, n: nat)
    requires n > 0
    ensures var (r, rest) := ReadOnce(script, n);
      match r
      case Bytes(b) => |b| <= n && Pending(script) == b + Pending(rest) && Work(rest) < Work(script)
      case WouldBlock => Pending(script) == Pending(rest) && (Work(rest) < Work(script) || rest == script == [])
      case Fault => Pending(script) == [] && !Unbroken(script) && rest == script
    ensures Unbroken(script) <==> Unbroken(ReadOnce(script, n).1)
  {
    ReadOnceKeepsBreak(script, n);
    if script != [] && script[0].Data? && |script[0].chunk| > n {
      CutChunk(script[0].chunk, n, script[1..]);
    }
  }

  lemma CutChunk(c: Chunk, n: nat, tail: Script)
    requires 0 < n < |c|
    ensures Pending([Data(c[n..])] + tail) == c[n..] + Pending(tail)
    ensures c + Pending(tail) == c[..n] + (c[n..] + Pending(tail))
  {
    assert ([Data(c[n..])] + tail)[1..] == tail;
  }

  datatype Filled = Filled(ok: bool, data: bytes, rest: Script)

  /** readExact: reads until `n` bytes are in, or would-block (what came is kept), or a fault (it is lost). */
  function Fill(script: Script, n: nat): (f: Filled)
    ensures |f.data| <= n
    decreases n
  {
    if n == 0 then Filled(true, [], script)
    else
      var (r, rest) := ReadOnce(script, n);
      match r
      case WouldBlock => Filled(true, [], rest)
      case Fault => Filled(false, [], rest)
      case Bytes(b) =>
        var f := Fill(rest, n - |b|);
        f.(data := b + f.data)
  }

  /** What a fill takes is the front of what was pending; it comes short only when the script made it. */
  lemma {:induction false} FillTakes(script: Script, n: nat)
    ensures var f := Fill(script, n);
      (f.ok ==> Pending(script) == f.data + Pending(f.rest))
      && (!f.ok ==> f.data == Pending(script) && |f.data| < n && !Unbroken(script))
      && (f.ok && |f.data| < n ==> Work(f.rest) < Work(script) || f.rest == script == [])
      && Work(f.rest) <= Work(script)
      && (f.data != [] ==> Work(f.rest) < Work(script))
      && (Unbroken(script) ==> f.ok) && (Unbroken(script) <==> Unbroken(f.rest))
    decreases n
  {
    hide Work, ReadOnce, Unbroken;
    if n > 0 {
      var (r, rest) := ReadOnce(script, n);
      ReadOnceTakes(script, n);
      if r.Bytes? {
        FillTakes(rest, n - |r.b|);
      }
    }
  }

  /** The bytes that reads yield before one would block or fails. */
  function Burst(script: Script): bytes {
    if script == [] || !script[0].Data? then [] else script[0].chunk + Burst(script[1..])
  }

  /** Whether the burst ends with a fault. */
  predicate BurstBreaks(script: Script) {
    script != [] && (script[0].Broken? || (script[0].Data? && BurstBreaks(script[1..])))
  }

  /** What is left once a read has found nothing behind the burst. */
  function AfterBurst(script: Script): Script {
    if script == [] then []
    else
      match script[0]
      case Data(_) => AfterBurst(script[1..])
      case Again => script[1..]
      case Broken => script
  }

  /**
   * A fill goes on reading until it has enough or a read finds nothing: it
   * takes all the bytes that are there, up to `n`, and fails exactly when a
   * fault comes before it has enough.
   */
  lemma {:induction false} FillIsBurst(script: Script, n: nat)
    ensures var f, b := Fill(script, n), Burst(script);
      (f.ok <==> |b| >= n || !BurstBreaks(script))
      && f.data == (if |b| <= n then b else b[..n])
      && (f.ok && |b| < n ==> f.rest == AfterBurst(script))
    decreases n
  {
    if n > 0 && script != [] && script[0].Data? {
      var c := script[0].chunk;
      if |c| <= n {
        FillIsBurst(script[1..], n - |c|);
      } else {
        CutBurst(c, n, script[1..]);
      }
    }
  }

  lemma CutBurst(c: Chunk, n: nat, tail: Script)
    requires 0 < n < |c|
    ensures (c + Burst(tail))[..n] == c[..n]
    ensures Fill([Data(c[n..])] + tail, 0) == Filled(true, [], [Data(c[n..])] + tail)
    ensures c[..n] + [] == c[..n]
  {
  }

  /** A socket with its input script, the bytes of each successful write and the outcomes of coming writes. */
  class Socket {
    var script: Script
    var acks: seq<bool>
    var written: seq<bytes>

    constructor (script: Script, acks: seq<bool>)
      ensures this.script == script && this.acks == acks && written == []
    {
      this.script, this.acks, written := script, acks, [];
    }

    method Read(n: nat) returns (r: ReadResult)
      requires n > 0
      modifies this`script
      ensures (r, script) == ReadOnce(old(script), n)
    {
      var (result, rest) := ReadOnce(script, n);
      script := rest;
      r := result;
    }

    /** All or nothing: a write that fails leaves no bytes behind. */
    method Write(data: bytes) returns (ok: bool)
      modifies this`acks, this`written
      ensures ok == (old(acks) == [] || old(acks)[0])
      ensures acks == if old(acks) == [] then [] else old(acks)[1..]
      ensures written == if ok then old(written) + [data] else old(written)
    {
      ok := acks == [] || acks[0];
      acks := if acks == [] then [] else acks[1..];
      if ok {
        written := written + [data];
      }
    }

    /** readExact of the library. */
    method ReadExact(n: nat) returns (data: Option<bytes>)
      modifies this`script
      ensures var f := Fill(old(script), n);
        data == (if f.ok then Some(f.data) else None) && script == f.rest
    {
      var got: bytes := [];
      while |got| < n
        invariant |got| <= n
        invariant var f := Fill(script, n - |got|);
          Fill(old(script), n) == f.(data := got + f.data)
      {
        hide ReadOnce;
        var before := got;
        assert got + [] == got;
        var r := Read(n - |got|);
        match r
        case WouldBlock => return Some(got);
        case Fault => return None;
        case Bytes(b) =>
          got := got + b;
          assert forall tail: bytes :: before + (b + tail) == got + tail;
      }
      assert got + [] == got;
      data := Some(got);
    }
  }
}
