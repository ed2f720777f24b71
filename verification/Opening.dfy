/**
 * The server's first look at a proxy stream (hypernet/services/proxy/server/proxy.go:273-305): it reads the first
 * byte, or the first line, through a buffered reader that it then drops, and goes on reading from the raw stream.
 */
module Opening {
  import opened Bytes
  import opened Padding
  import opened Handover
  import Obfs
  import Text

  /** "OBFS ", "TCP ", "UDP ", "DIRECT " */
  const OBFS: Data := [79, 66, 70, 83, 32]
  const TCP: Data := [84, 67, 80, 32]
  const UDP: Data := [85, 68, 80, 32]
  const DIRECT: Data := [68, 73, 82, 69, 67, 84, 32]

  /** The bytes a control line can start with. */
  predicate TextByte(b: Byte) {
    b == OBFS[0] || b == TCP[0] || b == UDP[0] || b == DIRECT[0]
  }

  /** What the first bytes are taken for: an OBFS line, a request, or neither, to be replayed by a prefixConn. */
  datatype Kind = ObfsLine | RequestLine | Replay

  function KindOf(line: Data): Kind {
    if OBFS <= line then ObfsLine
    else if TCP <= line || UDP <= line || DIRECT <= line then RequestLine
    else Replay
  }

  /** Still pending, a stream that ended, or: the bytes taken, those lost with the buffer, and those not read yet. */
  datatype Look = Pending | Ended | Seen(kind: Kind, line: Data, lost: Data, below: Data)

  function RawWire(t: Top): Data {
    if t.OverPadding? then t.pad.wire else t.ss.low.wire
  }

  /** The look at a stream that holds `wire`; there is one entry of `chunks` for each raw read that returns. */
  function LookAt(wire: Data, chunks: seq<nat>): Look {
    if chunks == [] then Pending
    else if wire == [] then Ended
    else
      var n := RawChunk(BUFIO_SIZE, |wire|, chunks[0]);
      if !TextByte(wire[0]) then Seen(Replay, wire[..1], wire[1..n], wire[n..])
      else
        match ReadLine(Raw(wire[n..]), [], wire[1..n], 0, chunks[1..])
        case Waiting => Pending
        case Line(rest, left, below, _) =>
          Seen(KindOf(wire[..1] + rest), wire[..1] + rest, left, RawWire(below))
  }

  /** What the layers above read: the replayed bytes and then the raw stream. */
  function Stream(l: Look): Data {
    match l
    case Seen(kind, line, _, below) => if kind == Replay then line + below else below
    case _ => []
  }

  /** Every byte is taken, lost or still to be read, in this order; with enough raw reads the look comes to an end. */
  lemma LookConserves(wire: Data, chunks: seq<nat>)
    ensures var l := LookAt(wire, chunks);
            && (l.Seen? ==> l.line != [] && l.line + (l.lost + l.below) == wire)
            && (wire != [] && |chunks| > |wire| ==> l.Seen?)
  {
    if chunks != [] && wire != [] {
      var n := RawChunk(BUFIO_SIZE, |wire|, chunks[0]);
      assert wire[1..n] + wire[n..] == wire[1..] && wire[..1] + wire[1..] == wire;
      if TextByte(wire[0]) {
        RawLineAny([], wire[1..n], wire[n..], 0, chunks[1..]);
        var l := ReadLine(Raw(wire[n..]), [], wire[1..n], 0, chunks[1..]);
        hide ReadLine, RawChunk;
        assert [] + wire[1..] == wire[1..];
        if l.Line? {
          Regroup(wire[..1], l.text, l.left + RawWire(l.below));
        }
      }
    }
  }

  /** The layers above read what was sent if and only if the bytes taken are replayed and none are lost. */
  lemma LookExactly(wire: Data, chunks: seq<nat>)
    ensures var l := LookAt(wire, chunks);
            l.Seen? ==> (Stream(l) == wire <==> l.kind == Replay && l.lost == [])
                        && (Stream(l) != wire ==> |Stream(l)| < |wire|)
  {
    LookConserves(wire, chunks);
    var l := LookAt(wire, chunks);
    hide LookAt;
    if l.Seen? && l.lost == [] {
      assert l.line + ([] + l.below) == l.line + l.below;
    }
  }

  /** The first bytes by which a line is taken for an OBFS line or a request. */
  lemma KindExactly(line: Data)
    ensures KindOf(line) == ObfsLine <==> [79, 66, 70, 83, 32] <= line
    ensures KindOf(line) == RequestLine <==>
            [84, 67, 80, 32] <= line || [85, 68, 80, 32] <= line || [68, 73, 82, 69, 67, 84, 32] <= line
    ensures forall b: Byte :: TextByte(b) <==> b == 79 || b == 84 || b == 85 || b == 68
  {
    assert OBFS <= line ==> line[0] == OBFS[0];
    assert TCP <= line ==> line[0] == TCP[0];
    assert UDP <= line ==> line[0] == UDP[0];
    assert DIRECT <= line ==> line[0] == DIRECT[0];
  }

  /** For bytes that no control line starts with: if and only if the first raw read brought a single byte. */
  lemma ByteLookExactly(wire: Data, chunks: seq<nat>)
    requires wire != [] && wire[0] !in {79, 84, 85, 68} && chunks != []
    ensures var l := LookAt(wire, chunks);
            l.Seen? && (Stream(l) == wire <==> RawChunk(BUFIO_SIZE, |wire|, chunks[0]) == 1)
  {
    assert !TextByte(wire[0]);
    LookExactly(wire, chunks);
  }

  /** How many bytes the raw reads have brought when the first `e` are there; at least one is read at once. */
  function Brought(e: nat, avail: nat, chunks: seq<nat>): (n: nat)
    requires 0 < e && 0 < avail && chunks != []
    ensures n <= avail
  {
    var first := RawChunk(BUFIO_SIZE, avail, chunks[0]);
    1 + Taken(e - 1, first - 1, avail - first, chunks[1..])
  }

  /** For a first line of `e` bytes that fits the buffer: what the raw reads brought beyond it is lost. */
  lemma LineLookExactly(wire: Data, chunks: seq<nat>, e: nat)
    requires wire != [] && TextByte(wire[0]) && chunks != []
    requires 1 < e <= |wire| && e <= BUFIO_SIZE && LineEnd(wire[1..]) == e - 2
    ensures var n := Brought(e, |wire|, chunks);
            LookAt(wire, chunks) == if n < e then Pending else Seen(KindOf(wire[..e]), wire[..e], wire[e..n], wire[n..])
  {
    LineTaken(wire, chunks);
    LineBrought(wire, chunks, e);
    hide LineEnd, ReadLine, KindOf, LookAt, Brought;
    var n := Brought(e, |wire|, chunks);
    if n >= e {
      Rebase(wire, e, n);
    }
  }

  lemma LineBrought(wire: Data, chunks: seq<nat>, e: nat)
    requires wire != [] && chunks != []
    requires 1 < e <= |wire| && e <= BUFIO_SIZE && LineEnd(wire[1..]) == e - 2
    ensures var first, n := RawChunk(BUFIO_SIZE, |wire|, chunks[0]), Brought(e, |wire|, chunks);
            0 < n && ReadLine(Raw(wire[first..]), [], wire[1..first], 0, chunks[1..]) == LineAt(wire[1..], e - 2, n - 1)
  {
    var first := RawChunk(BUFIO_SIZE, |wire|, chunks[0]);
    var all, b, rest := wire[1..], wire[1..first], wire[first..];
    assert b + rest == all;
    assert Brought(e, |wire|, chunks) - 1 == Taken(e - 1, |b|, |rest|, chunks[1..]);
    hide *;
    RawLine(all, b, rest, 0, chunks[1..]);
  }

  lemma LineTaken(wire: Data, chunks: seq<nat>)
    requires wire != [] && TextByte(wire[0]) && chunks != []
    ensures var first := RawChunk(BUFIO_SIZE, |wire|, chunks[0]);
            var l := ReadLine(Raw(wire[first..]), [], wire[1..first], 0, chunks[1..]);
            LookAt(wire, chunks) == if l.Waiting? then Pending else
                                    Seen(KindOf(wire[..1] + l.text), wire[..1] + l.text, l.left, RawWire(l.below))
  {
    hide ReadLine, KindOf;
  }

  lemma Rebase(wire: Data, e: nat, n: nat)
    requires 1 <= e <= n <= |wire|
    ensures wire[..1] + wire[1..][..e - 1] == wire[..e] && wire[1..][..e - 1] == wire[1..e]
    ensures wire[1..][e - 1..n - 1] == wire[e..n] && wire[1..][n - 1..] == wire[n..]
  {
  }

  // ---------------------------------------------------------------- a client that asks for OBFS

  /** UTF-8, the text encoding of control lines. */
  datatype Utf8 = Utf8(encode: string -> Data, decode: Data -> string)

  /** Invertible, character by character, and ASCII characters are single bytes that stand for nothing else. */
  ghost predicate Lawful(u: Utf8) {
    && (forall s: string :: u.decode(u.encode(s)) == s)
    && (forall s: string, t: string :: u.encode(s + t) == u.encode(s) + u.encode(t))
    && (forall s: string :: NEWLINE in u.encode(s) <==> '\n' in s)
    && u.encode("\n") == [NEWLINE] && u.encode(Obfs.OBFS_PREFIX) == OBFS
  }

  /** A line of which the newline is the last byte. */
  ghost predicate OneLine(wire: Data) {
    wire != [] && wire[|wire| - 1] == NEWLINE && NEWLINE !in wire[..|wire| - 1]
  }

  /** A stream that holds one line: it is read whole, and nothing else is touched. */
  lemma OneLineRead(wire: Data, b: Data, rest: Data, chunks: seq<nat>)
    requires OneLine(wire) && b + rest == wire && |b| <= BUFIO_SIZE
    ensures var l := ReadLine(Raw(rest), [], b, 0, chunks);
            (l.Waiting? || l == Line(wire, [], Raw([]), true)) && (|chunks| > |rest| ==> l.Line?)
  {
    RawLineAny([], b, rest, 0, chunks);
    assert [] + (b + rest) == wire;
    var l := ReadLine(Raw(rest), [], b, 0, chunks);
    hide ReadLine;
    if l.Line? {
      OneLineSplit(wire, l.text, l.left + l.below.pad.wire, l.ok);
    }
  }

  lemma OneLineSplit(wire: Data, text: Data, more: Data, ok: bool)
    requires OneLine(wire) && text + more == wire
    requires ok ==> text != [] && text[|text| - 1] == NEWLINE
    requires !ok ==> NEWLINE !in text && more == []
    ensures ok && text == wire && more == []
  {
    forall k | 0 <= k < |wire| - 1
      ensures wire[k] != NEWLINE
    {
      assert wire[k] == wire[..|wire| - 1][k];
    }
    assert forall k | 0 <= k < |text| :: text[k] == wire[k];
    assert more == [] ==> text == wire;
  }

  lemma BodyHasNoNewline(a: string, b: string, c: string, e: string)
    requires Text.IsWord(a) && Text.IsWord(b) && Text.IsWord(c) && Text.IsWord(e)
    ensures '\n' !in Obfs.OBFS_PREFIX + Obfs.Body(a, b, c, e)
  {
    assert Text.IsSpace('\n');
  }

  /** A printed OBFS line on the wire is one line that starts with the prefix, and reads back as itself. */
  lemma ObfsLineShape(u: Utf8, d: Obfs.Durations, p: Obfs.ObfsParams)
    requires Lawful(u) && Obfs.Lawful(d) && p.delayMin <= Text.MAX_INT && p.delayMax <= Text.MAX_INT
    ensures var wire := u.encode(Obfs.FormatObfsLine(d, p));
            OneLine(wire) && OBFS <= wire && u.decode(wire) == Obfs.FormatObfsLine(d, p)
  {
    var a, b := Text.Itoa(p.paddingMin), Text.Itoa(p.paddingMax);
    var c, e := Obfs.DurText(d, p.delayMin), Obfs.DurText(d, p.delayMax);
    Obfs.DurTextParses(d, p.delayMin);
    Obfs.DurTextParses(d, p.delayMax);
    Obfs.FormatBody(d, p);
    BodyHasNoNewline(a, b, c, e);
    hide Text.Itoa, Text.IsWord, Obfs.DurText, Obfs.FormatObfsLine, Obfs.Body, Obfs.Lawful;
    var body := Obfs.Body(a, b, c, e);
    var line := Obfs.OBFS_PREFIX + body;
    assert u.encode(line + "\n") == u.encode(line) + [NEWLINE];
    assert u.encode(line) == OBFS + u.encode(body);
    assert (u.encode(line) + [NEWLINE])[..|u.encode(line)|] == u.encode(line);
  }

  lemma ObfsKind(wire: Data)
    requires OBFS <= wire
    ensures TextByte(wire[0]) && KindOf(wire) == ObfsLine
  {
    assert wire[0] == OBFS[0];
  }

  lemma OneLineTail(wire: Data)
    requires OneLine(wire) && |wire| > 1
    ensures OneLine(wire[1..])
  {
    assert wire[1..][..|wire| - 2] == wire[..|wire| - 1][1..];
  }

  /** An asking client sends its line and waits: however it arrives, the look takes that line and loses nothing. */
  lemma AskedLook(wire: Data, chunks: seq<nat>)
    requires OneLine(wire) && OBFS <= wire
    ensures var l := LookAt(wire, chunks);
            (l.Pending? || l == Seen(ObfsLine, wire, [], [])) && (|chunks| > |wire| ==> l.Seen?)
  {
    ObfsKind(wire);
    if chunks != [] {
      LineTaken(wire, chunks);
      var n := RawChunk(BUFIO_SIZE, |wire|, chunks[0]);
      var b, rest := wire[1..n], wire[n..];
      OneLineTail(wire);
      hide ReadLine, LookAt, RawChunk, KindOf, OneLine;
      assert b + rest == wire[1..];
      OneLineRead(wire[1..], b, rest, chunks[1..]);
      assert wire[..1] + wire[1..] == wire;
    }
  }
}
