/** The gRPC-style connection (hypernet/core/network/transport/grpc.go): frames [length 4][bytes]. */
module Grpc {
  import opened Bytes
  import opened Framing
  import opened Pipes

  const MAX_FRAME := 0x10_0000

  /** What one Write sends; an empty one sends nothing, and the length field keeps the low 32 bits of the length. */
  function GrpcWire(p: Data): Data {
    if p == [] then [] else PutU32(|p|) + p
  }

  function GrpcParse(w: Data): Parse {
    if |w| < 4 then Short else
    var n := U32(w[..4]);
    if n > MAX_FRAME || |w| < 4 + n then Short else Frame(w[4..4 + n], w[4 + n..])
  }

  lemma GrpcParseIncremental()
    ensures Incremental(GrpcParse) && GrpcParse([]) == Short
  {
    forall w, x | GrpcParse(w).Frame?
      ensures GrpcParse(w + x) == Frame(GrpcParse(w).payload, GrpcParse(w).rest + x)
    {
      var n := U32(w[..4]);
      assert (w + x)[..4] == w[..4] && (w + x)[4..4 + n] == w[4..4 + n];
      assert (w + x)[4 + n..] == w[4 + n..] + x;
    }
  }

  lemma GrpcParseFrame(p: Data)
    requires |p| <= MAX_FRAME
    ensures GrpcParse(PutU32(|p|) + p) == Frame(p, [])
  {
    var w := PutU32(|p|) + p;
    assert w[..4] == PutU32(|p|) && w[4..] == p && w[4..4 + |p|] == p;
  }

  lemma {:induction false} FramesCost(w: Data)
    ensures |Payload(GrpcParse, w)| + 4 * |Frames(GrpcParse, w)| <= |w|
    decreases |w|
  {
    FirstFrame(GrpcParse, w);
    if GrpcParse(w).Frame? {
      FramesCost(GrpcParse(w).rest);
    }
  }

  /** What the other end can read of one write. */
  ghost predicate Readable(p: Data) {
    Payload(GrpcParse, GrpcWire(p)) == p && Tail(GrpcParse, GrpcWire(p)) == []
  }

  /** A write can be read back if and only if it has at most 2^20 bytes: Write itself does not check. */
  lemma ReadableExactly(p: Data)
    ensures Readable(p) <==> |p| <= MAX_FRAME
  {
    var w := GrpcWire(p);
    GrpcParseIncremental();
    FirstFrame(GrpcParse, w);
    if p == [] {
    } else if |p| <= MAX_FRAME {
      GrpcParseFrame(p);
      FirstFrame(GrpcParse, []);
    } else {
      assert w[..4] == PutU32(|p|);
      if GrpcParse(w).Frame? {
        var rest := GrpcParse(w).rest;
        FramesCost(rest);
        FirstFrame(GrpcParse, rest);
        assert |GrpcParse(w).payload| == |p| % 0x1_0000_0000 && |rest| > 0;
      }
    }
  }

  // ---------------------------------------------------------------- reading

  datatype Outcome = Bytes | Failed | TooLarge

  /** Read: frames of length zero are skipped, a length above 2^20 is an error that uses up only the length field. */
  function GrpcRead(r: Reader, cap: nat): (Reader, Data, Outcome)
    decreases |r.wire|
  {
    if r.buf != [] then
      var n := Min(cap, |r.buf|);
      (r.(buf := r.buf[n..]), r.buf[..n], Bytes)
    else if |r.wire| < 4 then
      (Reader([], []), [], Failed)
    else
      var n, body := U32(r.wire[..4]), r.wire[4..];
      if n == 0 then GrpcRead(Reader([], body), cap)
      else if n > MAX_FRAME then (Reader([], body), [], TooLarge)
      else if |body| < n then (Reader(body + Zeros(n - |body|), []), [], Failed)
      else
        var m := Min(cap, n);
        (Reader(body[m..n], body[n..]), body[..m], Bytes)
  }

  /** On a wire of whole frames Read is the ideal reader that skips empty frames. */
  lemma {:induction false} GrpcReadIsPullSkip(r: Reader, cap: nat)
    requires Whole(GrpcParse, r)
    ensures var (st, out, e) := GrpcRead(r, cap);
            PullSkip(GrpcParse, r, cap) == Result(st, out, e == Bytes) && e != TooLarge
    decreases |r.wire|
  {
    if r.buf == [] && r.wire != [] {
      assert GrpcParse(r.wire).Frame?;
      var n, body := U32(r.wire[..4]), r.wire[4..];
      assert r.wire[4..4 + n] == body[..n] && r.wire[4 + n..] == body[n..];
      if n == 0 {
        assert body[0..] == body;
        GrpcReadIsPullSkip(Reader([], body), cap);
      }
    }
  }

  /** A length above 2^20 is an error that leaves the bytes behind it, a frame cut off one that leaves none. */
  lemma GrpcReadErrors(n: nat, x: Data, cap: nat)
    requires 0 < n < 0x1_0000_0000
    ensures n > 0x10_0000 ==> GrpcRead(Reader([], PutU32(n) + x), cap) == (Reader([], x), [], TooLarge)
    ensures n <= 0x10_0000 && |x| < n ==>
              var (st, out, e) := GrpcRead(Reader([], PutU32(n) + x), cap);
              e == Failed && out == [] && st.wire == []
  {
    var w := PutU32(n) + x;
    assert w[..4] == PutU32(n) && w[4..] == x;
    hide PutU32;
  }

  /** Reading a frame is filling the buffer with it and then reading the buffer. */
  lemma GrpcReadFrame(w: Data, cap: nat)
    requires |w| >= 4 && 0 < U32(w[..4]) <= MAX_FRAME && |w| >= 4 + U32(w[..4])
    ensures var n, body := U32(w[..4]), w[4..];
            GrpcRead(Reader([], w), cap) == GrpcRead(Reader(body[..n], body[n..]), cap)
  {
    var n, body := U32(w[..4]), w[4..];
    var m := Min(cap, n);
    assert body[..n][m..] == body[m..n] && body[..n][..m] == body[..m];
    assert body[..n] != [];
  }

  // ---------------------------------------------------------------- whole runs

  /** A write of one end, a bare zero length as a keep-alive, or a read of the other end. */
  datatype Step = Write(p: Data) | ZeroFrame | Read(cap: nat)
  datatype Link = Link(reader: Reader, sent: Data, got: Data)

  function LinkStep(l: Link, s: Step): Link {
    match s
    case Write(p) => l.(reader := Reader(l.reader.buf, l.reader.wire + GrpcWire(p)), sent := l.sent + p)
    case ZeroFrame => l.(reader := Reader(l.reader.buf, l.reader.wire + PutU32(0)))
    case Read(cap) => var (st, out, _) := GrpcRead(l.reader, cap); Link(st, l.sent, l.got + out)
  }

  function LinkRun(steps: seq<Step>): Link {
    if steps == [] then Link(Reader([], []), [], [])
    else LinkStep(LinkRun(steps[..|steps| - 1]), steps[|steps| - 1])
  }

  ghost predicate Sound(l: Link) {
    Whole(GrpcParse, l.reader) && l.got + Owed(GrpcParse, l.reader) == l.sent
  }

  lemma AppendFrame(r: Reader, p: Data)
    requires Whole(GrpcParse, r) && |p| <= MAX_FRAME
    ensures var r' := Reader(r.buf, r.wire + (PutU32(|p|) + p));
            Whole(GrpcParse, r') && Owed(GrpcParse, r') == Owed(GrpcParse, r) + p
  {
    GrpcParseIncremental();
    GrpcParseFrame(p);
    hide GrpcParse, Payload, PutU32;
    WriteFrame(GrpcParse, r.wire, PutU32(|p|) + p, p);
    Regroup(r.buf, Payload(GrpcParse, r.wire), p);
  }

  /** Sound is kept; a read with room returns bytes unless all of them have been read, and only then fails. */
  lemma SoundStep(l: Link, s: Step)
    requires Sound(l) && (s.Write? ==> |s.p| <= MAX_FRAME)
    ensures Sound(LinkStep(l, s))
    ensures s.Read? ==>
              var (_, out, e) := GrpcRead(l.reader, s.cap);
              (e == Bytes <==> l.got != l.sent) && (e == Bytes && s.cap > 0 ==> out != [])
  {
    match s
    case Write(p) =>
      AppendFrame(l.reader, p);
      hide GrpcParse, Owed, Whole, PutU32;
      if p == [] {
        assert l.reader.wire + [] == l.reader.wire && l.sent + [] == l.sent;
      } else {
        Regroup(l.got, Owed(GrpcParse, l.reader), p);
      }
    case ZeroFrame =>
      AppendFrame(l.reader, []);
      hide GrpcParse, Owed, Whole, PutU32;
      assert PutU32(0) + [] == PutU32(0) && Owed(GrpcParse, l.reader) + [] == Owed(GrpcParse, l.reader);
    case Read(cap) =>
      GrpcParseIncremental();
      GrpcReadIsPullSkip(l.reader, cap);
      PullSkipSound(GrpcParse, l.reader, cap);
      hide GrpcParse, PullSkip, GrpcRead, Owed, Whole;
      var r := PullSkip(GrpcParse, l.reader, cap);
      Regroup(l.got, r.out, Owed(GrpcParse, r.st));
  }

  /** Every run of writes of at most 2^20 bytes, zero frames and reads delivers exactly the written bytes in order. */
  lemma {:induction false} RunSound(steps: seq<Step>)
    requires forall i | 0 <= i < |steps| :: steps[i].Write? ==> |steps[i].p| <= MAX_FRAME
    ensures Sound(LinkRun(steps))
  {
    if steps == [] {
      GrpcParseIncremental();
    } else {
      RunSound(steps[..|steps| - 1]);
      SoundStep(LinkRun(steps[..|steps| - 1]), steps[|steps| - 1]);
    }
  }

  // ---------------------------------------------------------------- the connection object

  class StreamConn {
    const rd: Pipe
    const wr: Pipe
    var buf: Data

    ghost function State(): Reader
      reads this, rd
    {
      Reader(buf, rd.data)
    }

    constructor (rd: Pipe, wr: Pipe)
      ensures this.rd == rd && this.wr == wr && buf == []
    {
      this.rd, this.wr, buf := rd, wr, [];
    }

    method Write(p: Data) returns (n: nat)
      modifies wr
      ensures n == |p| && wr.data == old(wr.data) + GrpcWire(p)
      ensures wr.data == old(wr.data) + (if p == [] then [] else PutU32(|p|) + p)
    {
      if |p| == 0 {
        return 0;
      }
      hide PutU32;
      Regroup(wr.data, PutU32(|p|), p);
      wr.Write(PutU32(|p|));
      wr.Write(p);
      n := |p|;
    }

    /** The loop ends on every finite wire: each turn takes a length field off it. */
    method Read(cap: nat) returns (out: Data, e: Outcome)
      modifies this, rd
      ensures (State(), out, e) == GrpcRead(old(State()), cap)
    {
      ghost var all := GrpcRead(State(), cap);
      while |buf| == 0
        invariant all == GrpcRead(State(), cap)
        decreases |rd.data|, if |buf| == 0 then 1 else 0
      {
        ghost var w := rd.data;
        var lenBuf, full := rd.ReadFull(4);
        if !full {
          return [], Failed;
        }
        var sz := U32(lenBuf);
        if sz == 0 {
          continue;
        }
        if sz > MAX_FRAME {
          return [], TooLarge;
        }
        var body;
        body, full := rd.ReadFull(sz);
        buf := body + Zeros(sz - |body|);
        if !full {
          return [], Failed;
        }
        assert buf == body == w[4..][..sz] && rd.data == w[4..][sz..];
        GrpcReadFrame(w, cap);
      }
      var n := Min(cap, |buf|);
      out, e := buf[..n], Bytes;
      buf := buf[n..];
    }
  }
}
