/**
 * The client reads the server's "OK\n" through a temporary bufio.Reader and then hands the raw stream back
 * (pkg/client/proxy.go:354-376). Bytes the temporary reader has buffered beyond the line are lost with it.
 */
module Handover {
  import opened Bytes
  import opened Framing
  import opened Padding
  import opened Pipes
  import opened Shadowsocks

  const BUFIO_SIZE := 4096
  const MAX_EMPTY_READS := 100
  const NEWLINE: Byte := 10
  /** "OK\n" */
  const OK_LINE: Data := [79, 75, NEWLINE]

  /** The outermost byte-carrying layer of the client's stack. */
  datatype Top = OverAead(a: Aead, ss: SsState) | OverPadding(pad: PadState)

  function TopRead(t: Top, cap: nat, chunk: nat): (r: ReadResult<Top>)
    ensures |r.out| <= cap
  {
    match t
    case OverAead(a, ss) => var r := SsRead(a, ss, cap); Result(OverAead(a, r.st), r.out, r.ok)
    case OverPadding(pad) => var r := PadRead(pad, cap, chunk); Result(OverPadding(r.st), r.out, r.ok)
  }

  /** Position of the first newline, or the length. */
  function LineEnd(b: Data): (i: nat)
    ensures i <= |b| && NEWLINE !in b[..i] && (i < |b| ==> b[i] == NEWLINE)
    ensures i == |b| ==> NEWLINE !in b
  {
    if b == [] then 0 else if b[0] == NEWLINE then 0 else
    var j := LineEnd(b[1..]);
    assert b[..j + 1] == [b[0]] + b[1..][..j];
    j + 1
  }

  /** The line read, what stays behind in the temporary buffer, and the stream below; `ok` is false at its end. */
  datatype Line = Waiting | Line(text: Data, left: Data, below: Top, ok: bool)

  /**
   * bufio.Reader.ReadString('\n'): `done` holds full buffers already collected, `b` the current buffer, `empties`
   * the empty reads in a row. There is one entry of `chunks` for each read that returns, saying how much a raw
   * read would like to hand over; behind the last one the reader is still waiting.
   */
  function ReadLine(t: Top, done: Data, b: Data, empties: nat, chunks: seq<nat>): Line
    requires |b| <= BUFIO_SIZE
    decreases |chunks|, |b|
  {
    var i := LineEnd(b);
    if i < |b| then
      Line(done + b[..i + 1], b[i + 1..], t, true)
    else if |b| == BUFIO_SIZE then
      ReadLine(t, done + b, [], 0, chunks)
    else if chunks == [] then
      Waiting
    else
      var r := TopRead(t, BUFIO_SIZE - |b|, chunks[0]);
      if !r.ok then Line(done + b, [], r.st, false)
      else if r.out == [] && empties + 1 == MAX_EMPTY_READS then Line(done + b, [], r.st, false)
      else ReadLine(r.st, done, b + r.out, if r.out == [] then empties + 1 else 0, chunks[1..])
  }

  // ---------------------------------------------------------------- what the stack below still owes

  ghost predicate Framed(t: Top) {
    t.OverPadding? ==> t.pad.framed
  }

  ghost predicate TopWhole(t: Top) {
    match t
    case OverAead(a, ss) => SsWhole(a, ss)
    case OverPadding(pad) => PadWhole(pad)
  }

  ghost function TopBuf(t: Top): Data {
    match t
    case OverAead(_, ss) => ss.buf
    case OverPadding(pad) => pad.buf
  }

  ghost function TopFrames(t: Top): seq<Data> {
    match t
    case OverAead(a, ss) => SsFrames(a, ss)
    case OverPadding(pad) => Frames(PadParse, pad.wire)
  }

  ghost function TopOwed(t: Top): Data {
    match t
    case OverAead(a, ss) => SsPending(a, ss)
    case OverPadding(pad) => PadPending(pad)
  }

  /** A read of a framed layer whose buffer is empty returns one whole frame and nothing of the next. */
  lemma FirstReadIsOneFrame(t: Top, cap: nat, chunk: nat)
    requires Framed(t) && TopWhole(t) && TopBuf(t) == []
    requires TopFrames(t) != [] && |TopFrames(t)[0]| <= cap
    ensures var r := TopRead(t, cap, chunk);
            && r.ok && r.out == TopFrames(t)[0]
            && TopOwed(r.st) == Concat(TopFrames(t)[1..])
  {
    match t
    case OverAead(a, ss) =>
      SsParseIncremental(a);
      SsReadIsPull(a, ss, cap);
      PullFirst(SsParser(a), Upper(ss), cap);
      hide SsRead, Pull, PadPending, SsParse;
    case OverPadding(pad) =>
      PadParseIncremental();
      WholeMeansFrame(PadParse, Ideal(pad));
      PadReadIsPull(pad, cap, chunk);
      PullFirst(PadParse, Ideal(pad), cap);
      hide PadRead, Pull, PadParse;
  }

  lemma PullFirst(f: Parser, r: Reader, cap: nat)
    requires Incremental(f) && r.buf == [] && Frames(f, r.wire) != [] && |Frames(f, r.wire)[0]| <= cap
    ensures var a := Pull(f, r, cap);
            && a.ok && a.out == Frames(f, r.wire)[0]
            && Owed(f, a.st) == Concat(Frames(f, r.wire)[1..])
  {
    FirstFrame(f, r.wire);
    assert f(r.wire).Frame?;
    var rest := f(r.wire).rest;
    assert Frames(f, r.wire)[1..] == Frames(f, rest);
    assert Pull(f, r, cap).st == Reader([], rest);
  }

  lemma OkLineEnds(b: Data)
    requires OK_LINE <= b
    ensures LineEnd(b) == 2 && LineEnd([]) == 0
  {
    assert b[0] == OK_LINE[0] && b[1] == OK_LINE[1] && b[2] == OK_LINE[2];
    assert b[1..][0] == b[1] && b[1..][1..][0] == b[2];
  }

  /** If the first read delivers the line, only that read is made, and what it brought beyond the line is kept back. */
  lemma ReadLineOnce(t: Top, chunks: seq<nat>)
    requires chunks != [] && OK_LINE <= TopRead(t, BUFIO_SIZE, chunks[0]).out && TopRead(t, BUFIO_SIZE, chunks[0]).ok
    ensures var r := TopRead(t, BUFIO_SIZE, chunks[0]);
            ReadLine(t, [], [], 0, chunks) == Line(OK_LINE, r.out[3..], r.st, true)
  {
    var r := TopRead(t, BUFIO_SIZE, chunks[0]);
    OkLineEnds(r.out);
    hide TopRead, LineEnd;
    assert [] + r.out == r.out && [] + r.out[..3] == OK_LINE;
    assert ReadLine(t, [], [], 0, chunks) == ReadLine(r.st, [], r.out, 0, chunks[1..]);
  }

  /**
   * Over a framed layer the temporary reader takes exactly the frame that carries "OK\n": it keeps nothing back, and
   * the stream handed back still owes every byte of the frames behind it.
   */
  lemma OkHandover(t: Top, chunks: seq<nat>)
    requires Framed(t) && TopWhole(t) && TopBuf(t) == [] && chunks != []
    requires TopFrames(t) != [] && TopFrames(t)[0] == OK_LINE
    ensures var l := ReadLine(t, [], [], 0, chunks);
            l.Line? && l.ok && l.text == OK_LINE && l.left == [] && TopOwed(l.below) == Concat(TopFrames(t)[1..])
  {
    FirstReadIsOneFrame(t, BUFIO_SIZE, chunks[0]);
    hide TopRead, TopWhole, TopBuf, TopFrames, TopOwed, ReadLine;
    ReadLineOnce(t, chunks);
  }

  // ---------------------------------------------------------------- over a raw stream

  /** The raw stream as a layer that frames nothing. */
  function Raw(wire: Data): Top {
    OverPadding(PadState(false, [], wire))
  }

  lemma RawTopRead(wire: Data, cap: nat, chunk: nat)
    ensures var n := RawChunk(cap, |wire|, chunk);
            TopRead(Raw(wire), cap, chunk) == Result(Raw(wire[n..]), wire[..n], wire != [])
  {
  }

  /** The first newline is where it is, whatever follows. */
  lemma LineEndPrefix(all: Data, h: nat)
    requires h <= |all|
    ensures if LineEnd(all[..h]) < h then LineEnd(all) == LineEnd(all[..h]) else LineEnd(all) >= h
  {
    var i, j := LineEnd(all[..h]), LineEnd(all);
    hide LineEnd;
    forall k | 0 <= k < j
      ensures all[k] != NEWLINE
    {
      assert all[k] == all[..j][k];
    }
    forall k | 0 <= k < i
      ensures all[k] != NEWLINE
    {
      assert all[k] == all[..h][..i][k];
    }
    assert i < h ==> all[i] == all[..h][i] == NEWLINE;
  }

  /** Buffer and raw stream after one more raw read. */
  function Refill(b: Data, wire: Data, chunk: nat): (r: (Data, Data))
    requires |b| <= BUFIO_SIZE
    ensures r.0 + r.1 == b + wire && |r.0| <= BUFIO_SIZE
    ensures |b| < BUFIO_SIZE && wire != [] ==> |r.1| < |wire|
  {
    var m := RawChunk(BUFIO_SIZE - |b|, |wire|, chunk);
    assert wire[..m] + wire[m..] == wire;
    (b + wire[..m], wire[m..])
  }

  /** One turn of the loop that reads from the raw stream. */
  lemma ReadLineMore(done: Data, b: Data, wire: Data, empties: nat, chunks: seq<nat>)
    requires |b| < BUFIO_SIZE && LineEnd(b) == |b| && chunks != [] && wire != []
    ensures var (b', wire') := Refill(b, wire, chunks[0]);
            ReadLine(Raw(wire), done, b, empties, chunks) == ReadLine(Raw(wire'), done, b', 0, chunks[1..])
  {
    RawTopRead(wire, BUFIO_SIZE - |b|, chunks[0]);
    hide TopRead, LineEnd, Raw;
  }

  /** The other ways in which the loop goes on or ends. */
  lemma ReadLineDone(done: Data, b: Data, t: Top, empties: nat, chunks: seq<nat>)
    requires |b| <= BUFIO_SIZE
    ensures var i, r := LineEnd(b), ReadLine(t, done, b, empties, chunks);
            && (i < |b| ==> r == Line(done + b[..i + 1], b[i + 1..], t, true))
            && (i == |b| == BUFIO_SIZE ==> r == ReadLine(t, done + b, [], 0, chunks))
            && (i == |b| < BUFIO_SIZE && chunks == [] ==> r == Waiting)
  {
    hide TopRead, LineEnd;
  }

  lemma ReadLineEnded(done: Data, b: Data, empties: nat, chunks: seq<nat>)
    requires |b| < BUFIO_SIZE && LineEnd(b) == |b| && chunks != []
    ensures ReadLine(Raw([]), done, b, empties, chunks) == Line(done + b, [], Raw([]), false)
  {
    RawTopRead([], BUFIO_SIZE - |b|, chunks[0]);
    hide TopRead, LineEnd, Raw;
  }

  /** How many bytes a buffer that holds `have` of them has when raw reads have brought the first `need`. */
  function Taken(need: nat, have: nat, avail: nat, chunks: seq<nat>): (n: nat)
    requires have <= BUFIO_SIZE
    ensures have <= n <= have + avail
    decreases |chunks|
  {
    if have >= need || chunks == [] then have else
    var n := RawChunk(BUFIO_SIZE - have, avail, chunks[0]);
    Taken(need, have + n, avail - n, chunks[1..])
  }

  /** The line of `e + 1` bytes, when raw reads have brought the first `n`: those beyond the line stay in the buffer. */
  function LineAt(all: Data, e: nat, n: nat): Line
    requires e < |all| && n <= |all|
  {
    if n <= e then Waiting else Line(all[..e + 1], all[e + 1..n], Raw(all[n..]), true)
  }

  /** Reading a line that fits the buffer from a raw stream, of which the first bytes `b` are in the buffer. */
  lemma {:induction false} RawLine(all: Data, b: Data, wire: Data, empties: nat, chunks: seq<nat>)
    requires b + wire == all && |b| <= BUFIO_SIZE && LineEnd(all) < |all| && LineEnd(all) < BUFIO_SIZE
    ensures ReadLine(Raw(wire), [], b, empties, chunks)
         == LineAt(all, LineEnd(all), Taken(LineEnd(all) + 1, |b|, |wire|, chunks))
    decreases |chunks|
  {
    hide *;
    BufferEnd(all, b, wire);
    if |b| > LineEnd(all) || chunks == [] {
      RawLineEnds(all, b, wire, empties, chunks);
    } else {
      var (b', wire') := Refill(b, wire, chunks[0]);
      ReadLineMore([], b, wire, empties, chunks);
      TakenMore(LineEnd(all) + 1, b, wire, chunks);
      RawLine(all, b', wire', 0, chunks[1..]);
    }
  }

  lemma BufferEnd(all: Data, b: Data, wire: Data)
    requires b + wire == all
    ensures if LineEnd(b) < |b| then LineEnd(all) == LineEnd(b) else LineEnd(all) >= |b|
  {
    LineEndPrefix(all, |b|);
    assert all[..|b|] == b;
  }

  lemma TakenMore(need: nat, b: Data, wire: Data, chunks: seq<nat>)
    requires |b| < need && |b| < BUFIO_SIZE && chunks != []
    ensures var (b', wire') := Refill(b, wire, chunks[0]);
            Taken(need, |b|, |wire|, chunks) == Taken(need, |b'|, |wire'|, chunks[1..])
  {
  }

  lemma RawLineEnds(all: Data, b: Data, wire: Data, empties: nat, chunks: seq<nat>)
    requires b + wire == all && |b| <= BUFIO_SIZE && LineEnd(all) < |all| && LineEnd(all) < BUFIO_SIZE
    requires |b| > LineEnd(all) || chunks == []
    ensures ReadLine(Raw(wire), [], b, empties, chunks)
         == LineAt(all, LineEnd(all), Taken(LineEnd(all) + 1, |b|, |wire|, chunks))
  {
    hide LineEnd, Raw, ReadLine, Taken, LineAt, TopRead;
    BufferEnd(all, b, wire);
    ReadLineDone([], b, Raw(wire), empties, chunks);
    TakenAll(LineEnd(all) + 1, |b|, |wire|, chunks);
    LineAtEnd(all, b, wire, LineEnd(all));
  }

  lemma TakenAll(need: nat, have: nat, avail: nat, chunks: seq<nat>)
    requires have <= BUFIO_SIZE && (have >= need || chunks == [])
    ensures Taken(need, have, avail, chunks) == have
  {
  }

  lemma LineAtEnd(all: Data, b: Data, wire: Data, e: nat)
    requires b + wire == all && e < |all|
    ensures LineAt(all, e, |b|) == if |b| <= e then Waiting else Line([] + b[..e + 1], b[e + 1..], Raw(wire), true)
  {
    if |b| > e {
      CutAt(all, b, wire, e);
    }
  }

  lemma CutAt(all: Data, b: Data, wire: Data, e: nat)
    requires b + wire == all && e < |b|
    ensures [] + b[..e + 1] == all[..e + 1] && b[e + 1..] == all[e + 1..|b|] && all[|b|..] == wire
  {
  }

  /** What any line read from a raw stream is, however long: all bytes are accounted for. */
  ghost predicate LineOf(l: Line, all: Data) {
    && l.Line? && l.below.OverPadding? && l.below == Raw(l.below.pad.wire)
    && l.text + (l.left + l.below.pad.wire) == all
    && (l.ok ==> l.text != [] && l.text[|l.text| - 1] == NEWLINE && NEWLINE !in l.text[..|l.text| - 1])
    && (!l.ok ==> NEWLINE !in l.text && l.left == [] && l.below.pad.wire == [])
  }

  lemma {:induction false} RawLineAny(done: Data, b: Data, wire: Data, empties: nat, chunks: seq<nat>)
    requires |b| <= BUFIO_SIZE && NEWLINE !in done
    ensures var l := ReadLine(Raw(wire), done, b, empties, chunks);
            (l.Waiting? || LineOf(l, done + (b + wire))) && (|chunks| > |wire| ==> l.Line?)
    decreases |chunks|, |b|
  {
    hide ReadLine, LineEnd, LineOf, Raw, Refill, TopRead;
    var i := LineEnd(b);
    ReadLineDone(done, b, Raw(wire), empties, chunks);
    if i < |b| {
      LineFound(done, b, wire, i);
    } else if |b| == BUFIO_SIZE {
      RawLineAny(done + b, [], wire, 0, chunks);
      WholeBuffer(done, b, wire);
    } else if chunks != [] && wire == [] {
      ReadLineEnded(done, b, empties, chunks);
      LineMissing(done, b);
    } else if chunks != [] {
      var (b', wire') := Refill(b, wire, chunks[0]);
      ReadLineMore(done, b, wire, empties, chunks);
      RawLineAny(done, b', wire', 0, chunks[1..]);
    }
  }

  lemma WholeBuffer(done: Data, b: Data, wire: Data)
    ensures (done + b) + ([] + wire) == done + (b + wire)
  {
  }

  lemma LineFound(done: Data, b: Data, wire: Data, i: nat)
    requires NEWLINE !in done && i < |b| && b[i] == NEWLINE && NEWLINE !in b[..i]
    ensures LineOf(Line(done + b[..i + 1], b[i + 1..], Raw(wire), true), done + (b + wire))
  {
    var text := done + b[..i + 1];
    assert text[..|text| - 1] == done + b[..i];
    assert text + (b[i + 1..] + wire) == done + (b + wire);
  }

  lemma LineMissing(done: Data, b: Data)
    requires NEWLINE !in done && NEWLINE !in b
    ensures LineOf(Line(done + b, [], Raw([]), false), done + (b + []))
  {
    assert done + b + ([] + []) == done + (b + []);
  }

  lemma RawOwed(wire: Data)
    ensures TopOwed(Raw(wire)) == wire
  {
  }

  /**
   * Without a framing layer, exactly what the raw reads bring beyond the line is lost to the caller, whatever their
   * sizes: nothing if and only if the read that completes the line ends with it.
   */
  lemma RawHandover(later: Data, chunks: seq<nat>)
    ensures var l := ReadLine(Raw(OK_LINE + later), [], [], 0, chunks);
            var n := Taken(|OK_LINE|, 0, |OK_LINE + later|, chunks);
            && (l.Waiting? <==> n < |OK_LINE|)
            && (l.Line? ==>
                  && l.ok && l.text == OK_LINE && l.left == later[..n - 3] && TopOwed(l.below) == later[n - 3..]
                  && (TopOwed(l.below) == later <==> n == |OK_LINE|))
  {
    var wire := OK_LINE + later;
    OkLineEnds(wire);
    assert [] + wire == wire;
    RawLine(wire, [], wire, 0, chunks);
    var n := Taken(3, 0, |wire|, chunks);
    hide ReadLine, SsPending, Owed, LineEnd, Taken, TopOwed;
    if n >= 3 {
      RawOwed(wire[n..]);
      assert wire[..3] == OK_LINE && wire[3..n] == later[..n - 3] && wire[n..] == later[n - 3..];
    }
  }

  // ---------------------------------------------------------------- what was read ahead

  /** prefixConn: what was read ahead, from `off` on, in front of the raw stream. */
  class PrefixConn {
    const prefix: Data
    const rest: Pipe
    var off: nat

    ghost predicate Valid()
      reads this
    {
      off <= |prefix|
    }

    ghost function Unread(): Data
      requires Valid()
      reads this, rest
    {
      prefix[off..] + rest.data
    }

    constructor (prefix: Data, rest: Pipe)
      ensures Valid() && this.prefix == prefix && this.rest == rest && Unread() == prefix + rest.data
    {
      this.prefix, this.rest, off := prefix, rest, 0;
    }

    /** Whatever the buffer sizes, the prefix and then the stream, without loss. */
    method Read(cap: nat) returns (out: Data, ok: bool)
      requires Valid()
      modifies this, rest
      ensures Valid() && |out| <= cap && out + Unread() == old(Unread())
      ensures ok <==> old(Unread()) != []
      ensures ok && cap > 0 ==> out != []
    {
      if off < |prefix| {
        var n := Min(cap, |prefix| - off);
        out, ok := prefix[off..off + n], true;
        off := off + n;
        return;
      }
      out, ok := rest.Read(cap);
    }
  }

  // ---------------------------------------------------------------- from the server's writes

  /** Frames of a run that only sends: one for each accepted, non-empty write. */
  ghost function Accepted(steps: seq<Step>): seq<Data> {
    if steps == [] then [] else
    var p := steps[|steps| - 1];
    Accepted(steps[..|steps| - 1]) + (if p.Send? && 0 < |p.p| <= MAX_PLAIN then [p.p] else [])
  }

  lemma {:induction false} SendsAreFrames(a: Aead, lo: int, hi: int, steps: seq<Step>)
    requires Lawful(a) && lo <= MAX_FRAME
    requires forall i | 0 <= i < |steps| :: steps[i].Send? && Legal(lo, hi, steps[i])
    ensures var t := TunnelRun(a, hi > 0, steps);
            SsFrames(a, t.link) == Accepted(steps) && t.link.buf == [] && SsWhole(a, t.link)
  {
    TunnelConserves(a, lo, hi, steps);
    if steps == [] {
      NoFrames(a, hi > 0);
    } else {
      var n := |steps| - 1;
      hide *;
      SendsAreFrames(a, lo, hi, steps[..n]);
      SendsFrame(a, lo, hi, steps, n);
    }
  }

  lemma NoFrames(a: Aead, framed: bool)
    ensures var t := TunnelRun(a, framed, []);
            SsFrames(a, t.link) == [] && t.link.buf == []
  {
  }

  lemma SendsFrame(a: Aead, lo: int, hi: int, steps: seq<Step>, n: nat)
    requires Lawful(a) && lo <= MAX_FRAME && |steps| == n + 1 && steps[n].Send? && Legal(lo, hi, steps[n])
    requires var t := TunnelRun(a, hi > 0, steps[..n]);
             SsFrames(a, t.link) == Accepted(steps[..n]) && t.link.buf == [] && SsWhole(a, t.link)
    ensures var t := TunnelRun(a, hi > 0, steps);
            SsFrames(a, t.link) == Accepted(steps) && t.link.buf == []
  {
    var t, s := TunnelRun(a, hi > 0, steps[..n]), steps[n];
    SsWriteSound(a, t.link, s.p, s.nonce, s.pad1, s.pad2);
    hide SsWhole, SsPending, SsFrames, SsWire, SealFrame, PadLen, Lawful;
    assert TunnelRun(a, hi > 0, steps) == TunnelStep(a, t, s);
  }

  /**
   * Whatever the server writes after "OK\n", in whatever write sizes, nonces and paddings: a client that reads the
   * line through a temporary buffered reader over ssAEAD loses no target byte.
   */
  lemma NoTargetByteLost(a: Aead, lo: int, hi: int, ok: Step, later: seq<Step>, chunks: seq<nat>)
    requires Lawful(a) && lo <= MAX_FRAME && chunks != []
    requires ok.Send? && ok.p == OK_LINE && Legal(lo, hi, ok)
    requires forall i | 0 <= i < |later| :: later[i].Send? && Legal(lo, hi, later[i])
    ensures var l := ReadLine(OverAead(a, TunnelRun(a, hi > 0, [ok] + later).link), [], [], 0, chunks);
            l.Line? && l.ok && l.text == OK_LINE && l.left == [] && TopOwed(l.below) == Concat(Accepted(later))
  {
    SendsAreFrames(a, lo, hi, [ok] + later);
    AcceptedCons(ok, later);
    OkHandover(OverAead(a, TunnelRun(a, hi > 0, [ok] + later).link), chunks);
  }

  lemma {:induction false} AcceptedCons(s: Step, later: seq<Step>)
    requires s.Send? && 0 < |s.p| <= MAX_PLAIN
    ensures Accepted([s] + later) == [s.p] + Accepted(later)
  {
    var all := [s] + later;
    if later == [] {
      assert all[..0] == [];
    } else {
      var n := |later| - 1;
      AcceptedCons(s, later[..n]);
      assert all[..|all| - 1] == [s] + later[..n];
      assert all[|all| - 1] == later[n];
    }
  }

  /** One write of a PaddingConn, with the padding it draws. */
  datatype PadSend = PadSend(p: Data, pad: Data)

  /** What a framed PaddingConn has put on the wire after some writes. */
  function PadSent(sends: seq<PadSend>): PadState {
    if sends == [] then PadState(true, [], []) else
    var st, s := PadSent(sends[..|sends| - 1]), sends[|sends| - 1];
    st.(wire := st.wire + PadWire(true, s.p, s.pad))
  }

  function Payloads(sends: seq<PadSend>): (ps: seq<Data>)
    ensures |ps| == |sends| && forall i | 0 <= i < |sends| :: ps[i] == sends[i].p
  {
    seq(|sends|, i requires 0 <= i < |sends| => sends[i].p)
  }

  /** A write that fits a frame, with any padding that a connection with these bounds may draw. */
  ghost predicate PadLegal(lo: int, hi: int, s: PadSend) {
    |s.p| <= MAX_FRAME && PadLen(lo, hi, |s.pad|)
  }

  lemma {:induction false} PadSendsAreFrames(lo: int, hi: int, sends: seq<PadSend>)
    requires 0 < hi && lo <= MAX_FRAME && forall i | 0 <= i < |sends| :: PadLegal(lo, hi, sends[i])
    ensures var st := PadSent(sends);
            PadWhole(st) && st.framed && st.buf == [] && Frames(PadParse, st.wire) == Payloads(sends)
  {
    hide PadWhole, PadWire, PadPending, PadLen, Frames, PadParse;
    if sends == [] {
      NothingSent();
    } else {
      var n := |sends| - 1;
      PadSendsAreFrames(lo, hi, sends[..n]);
      PadLegalFits(lo, hi, sends[n]);
      PadWriteSound(PadSent(sends[..n]), sends[n].p, sends[n].pad);
      assert Payloads(sends) == Payloads(sends[..n]) + [sends[n].p];
    }
  }

  lemma PadLegalFits(lo: int, hi: int, s: PadSend)
    requires lo <= MAX_FRAME && PadLegal(lo, hi, s)
    ensures |s.pad| <= MAX_FRAME
  {
  }

  lemma NothingSent()
    ensures PadWhole(PadState(true, [], [])) && Frames(PadParse, []) == []
  {
    FirstFrame(PadParse, []);
  }

  /**
   * The same with PaddingConn as the outermost layer, for writes of up to 65535 bytes and any padding it may draw: a
   * client that reads the line through a temporary buffered reader loses no target byte.
   */
  lemma NoTargetByteLostPadded(lo: int, hi: int, ok: PadSend, later: seq<PadSend>, chunks: seq<nat>)
    requires 0 < hi && lo <= MAX_FRAME && chunks != [] && ok.p == OK_LINE && PadLegal(lo, hi, ok)
    requires forall i | 0 <= i < |later| :: PadLegal(lo, hi, later[i])
    ensures var l := ReadLine(OverPadding(PadSent([ok] + later)), [], [], 0, chunks);
            && l.Line? && l.ok && l.text == OK_LINE && l.left == []
            && TopOwed(l.below) == Concat(Payloads(later))
  {
    hide *;
    LineThenSends(lo, hi, ok, later);
    PaddedTop(PadSent([ok] + later));
    OkHandover(OverPadding(PadSent([ok] + later)), chunks);
  }

  lemma LineThenSends(lo: int, hi: int, ok: PadSend, later: seq<PadSend>)
    requires 0 < hi && lo <= MAX_FRAME && PadLegal(lo, hi, ok)
    requires forall i | 0 <= i < |later| :: PadLegal(lo, hi, later[i])
    ensures var st, fs := PadSent([ok] + later), Frames(PadParse, PadSent([ok] + later).wire);
            && PadWhole(st) && st.framed && st.buf == []
            && fs != [] && fs[0] == ok.p && fs[1..] == Payloads(later)
  {
    hide PadSent, PadLegal, Frames, PadParse, PadWhole;
    PadSendsAreFrames(lo, hi, [ok] + later);
    assert Payloads([ok] + later) == [ok.p] + Payloads(later);
  }

  lemma PaddedTop(st: PadState)
    requires PadWhole(st) && st.framed
    ensures var t := OverPadding(st);
            Framed(t) && TopWhole(t) && TopBuf(t) == st.buf && TopFrames(t) == Frames(PadParse, st.wire)
  {
    hide PadWhole, Frames;
  }
}
