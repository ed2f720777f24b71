/**
 * ssAEAD (pkg/protoadapters/shadowsocks/cipher.go) over PaddingConn: the stack both ends build after agreeing on
 * OBFS. A frame is [nonce 12][length 2][ciphertext and tag]; the cipher itself is an abstract Seal/Open pair.
 */
module Shadowsocks {
  import opened Bytes
  import opened Framing
  import opened Padding
  import opened Pipes

  const NONCE_SIZE := 12
  const TAG_SIZE := 16
  const HEADER_SIZE := NONCE_SIZE + 2
  /** The longest plaintext whose sealed length fits the length field. */
  const MAX_PLAIN := MAX_FRAME - TAG_SIZE

  /** Sections 2.1 and 2.2 of RFC 5116, for one key and no associated data. */
  datatype Aead = Aead(seal: (Data, Data) -> Data, open: (Data, Data) -> Option<Data>)

  ghost predicate Lawful(a: Aead) {
    forall nonce, p :: |nonce| == NONCE_SIZE ==>
      |a.seal(nonce, p)| == |p| + TAG_SIZE && a.open(nonce, a.seal(nonce, p)) == Some(p)
  }

  // ---------------------------------------------------------------- writing

  datatype Sealed = Refused | Nothing | Two(header: Data, body: Data)

  /** The two lower-layer writes of one Write: none for an empty one, and an error when the ciphertext is too long. */
  function SealFrame(a: Aead, nonce: Data, p: Data): Sealed {
    var c := a.seal(nonce, p);
    if p == [] then Nothing
    else if |c| > MAX_FRAME then Refused
    else Two(nonce + PutU16(|c|), c)
  }

  /** What one Write adds to the raw wire below the padding layer. */
  function SsWire(a: Aead, framed: bool, p: Data, nonce: Data, pad1: Data, pad2: Data): Data {
    match SealFrame(a, nonce, p)
    case Two(h, c) => PadWire(framed, h, pad1) + PadWire(framed, c, pad2)
    case _ => []
  }

  // ---------------------------------------------------------------- reading

  datatype SsState = SsState(buf: Data, low: PadState)

  /** Fetching the next frame through the padding layer; None is any of the error returns. */
  function SsFetch(a: Aead, low: PadState): (PadState, Option<Data>) {
    var h := PadReadFull(low, HEADER_SIZE);
    if !h.ok then (h.st, None) else
    var n := U16(h.out[NONCE_SIZE..]);
    if n == 0 then (h.st, None) else
    var c := PadReadFull(h.st, n);
    (c.st, if c.ok then a.open(h.out[..NONCE_SIZE], c.out) else None)
  }

  /** ssAEAD.Read with a buffer of `cap` bytes. */
  function SsRead(a: Aead, st: SsState, cap: nat): (r: ReadResult<SsState>)
    ensures |r.out| <= cap
  {
    if st.buf != [] then
      var n := Min(cap, |st.buf|);
      Result(st.(buf := st.buf[n..]), st.buf[..n], true)
    else
      var (low, plain) := SsFetch(a, st.low);
      match plain
      case None => Result(st.(low := low), [], false)
      case Some(p) =>
        var m := Min(cap, |p|);
        Result(SsState(p[m..], low), p[..m], true)
  }

  /** One complete, authentic frame of the byte stream below. */
  function SsParse(a: Aead, w: Data): Parse {
    if |w| < HEADER_SIZE then Short else
    var n := U16(w[NONCE_SIZE..HEADER_SIZE]);
    if n == 0 || |w| < HEADER_SIZE + n then Short else
    match a.open(w[..NONCE_SIZE], w[HEADER_SIZE..HEADER_SIZE + n])
    case None => Short
    case Some(p) => Frame(p, w[HEADER_SIZE + n..])
  }

  function SsParser(a: Aead): Parser {
    w => SsParse(a, w)
  }

  /** The ideal reader: its wire is whatever the padding layer still owes. */
  ghost function Upper(st: SsState): Reader {
    Reader(st.buf, PadPending(st.low))
  }

  ghost function SsPending(a: Aead, st: SsState): Data {
    Owed(SsParser(a), Upper(st))
  }

  ghost function SsFrames(a: Aead, st: SsState): seq<Data> {
    Frames(SsParser(a), PadPending(st.low))
  }

  /** Both layers end with complete frames. */
  ghost predicate SsWhole(a: Aead, st: SsState) {
    PadWhole(st.low) && Whole(SsParser(a), Upper(st))
  }

  lemma SsParseIncremental(a: Aead)
    ensures Incremental(SsParser(a))
  {
    forall w, x | SsParse(a, w).Frame?
      ensures SsParse(a, w + x) == Frame(SsParse(a, w).payload, SsParse(a, w).rest + x)
    {
      var n := U16(w[NONCE_SIZE..HEADER_SIZE]);
      assert (w + x)[NONCE_SIZE..HEADER_SIZE] == w[NONCE_SIZE..HEADER_SIZE];
      assert (w + x)[..NONCE_SIZE] == w[..NONCE_SIZE];
      assert (w + x)[HEADER_SIZE..HEADER_SIZE + n] == w[HEADER_SIZE..HEADER_SIZE + n];
    }
  }

  /** Sealing then parsing is the identity. */
  lemma SealParse(a: Aead, nonce: Data, p: Data)
    requires Lawful(a) && |nonce| == NONCE_SIZE && 0 < |p| <= MAX_PLAIN
    ensures var f := SealFrame(a, nonce, p);
            f.Two? && |f.header| == HEADER_SIZE == 14 && |f.body| <= MAX_FRAME
            && f.header == nonce + PutU16(|p| + 16) && f.body == a.seal(nonce, p)
            && SsParse(a, f.header + f.body) == Frame(p, [])
  {
    var f := SealFrame(a, nonce, p);
    var w := f.header + f.body;
    assert w[NONCE_SIZE..HEADER_SIZE] == PutU16(|f.body|);
    assert w[..NONCE_SIZE] == nonce && w[HEADER_SIZE..] == f.body;
    assert w[HEADER_SIZE..HEADER_SIZE + |f.body|] == f.body;
  }

  /** A write is refused exactly when it has more than 65519 bytes. */
  lemma RefusedExactly(a: Aead, nonce: Data, p: Data)
    requires Lawful(a) && |nonce| == NONCE_SIZE
    ensures SealFrame(a, nonce, p).Refused? <==> |p| > 65519
    ensures SealFrame(a, nonce, p).Nothing? <==> p == []
  {
    assert |a.seal(nonce, p)| == |p| + TAG_SIZE;
  }

  /** A fetch takes one frame off the bytes the padding layer owes, however those are split into padding frames. */
  lemma SsFetchSound(a: Aead, low: PadState)
    requires PadWhole(low)
    ensures var (low', plain) := SsFetch(a, low);
            && PadWhole(low') && low'.framed == low.framed
            && (match SsParse(a, PadPending(low))
                case Short => plain == None
                case Frame(p, rest) => plain == Some(p) && PadPending(low') == rest)
            && (PadPending(low) == [] ==> PadPending(low') == [])
  {
    PadReadFullSound(low, HEADER_SIZE);
    var h := PadReadFull(low, HEADER_SIZE);
    var n := if h.ok then U16(h.out[NONCE_SIZE..]) else 0;
    PadReadFullSound(h.st, n);
    hide PadWhole, PadPending, PadReadFull;
    if h.ok && n > 0 {
      var c := PadReadFull(h.st, n);
      SplitFrame(a, PadPending(low), h.out, PadPending(h.st), c.out, PadPending(c.st), c.ok);
    } else if h.ok {
      assert PadPending(low)[NONCE_SIZE..HEADER_SIZE] == h.out[NONCE_SIZE..];
    }
  }

  /** A byte stream read in two pieces parses as the frame those pieces make. */
  lemma SplitFrame(a: Aead, w: Data, h: Data, w1: Data, c: Data, w2: Data, ok: bool)
    requires |h| == HEADER_SIZE && w == h + w1 && w1 == c + w2
    requires var n := U16(h[NONCE_SIZE..]); n > 0 && (ok <==> |w1| >= n) && (ok ==> |c| == n)
    ensures SsParse(a, w) ==
            if !ok then Short else
            match a.open(h[..NONCE_SIZE], c)
            case None => Short
            case Some(p) => Frame(p, w2)
  {
    assert w[NONCE_SIZE..HEADER_SIZE] == h[NONCE_SIZE..] && w[..NONCE_SIZE] == h[..NONCE_SIZE];
    if ok {
      assert w[HEADER_SIZE..HEADER_SIZE + |c|] == c && w[HEADER_SIZE + |c|..] == w2;
    }
  }

  /** On whole wires the code is the ideal reader on the bytes the padding layer delivers. */
  lemma SsReadIsPull(a: Aead, st: SsState, cap: nat)
    requires SsWhole(a, st)
    ensures var r, i := SsRead(a, st, cap), Pull(SsParser(a), Upper(st), cap);
            && PadWhole(r.st.low) && r.st.low.framed == st.low.framed
            && Upper(r.st) == i.st && r.out == i.out && r.ok == i.ok
  {
    SsFetchSound(a, st.low);
    WholeMeansFrame(SsParser(a), Upper(st));
    SsParseEmpty(a);
    hide PadPending, PadWhole, SsFetch, SsParse, Tail;
    assert SsParser(a)(PadPending(st.low)) == SsParse(a, PadPending(st.low));
  }

  lemma SsParseEmpty(a: Aead)
    ensures SsParse(a, []) == Short
  {
  }

  // ---------------------------------------------------------------- one read, one write

  /** A read through both layers never loses, repeats or invents a byte, and fails exactly when none is left. */
  lemma SsReadSound(a: Aead, st: SsState, cap: nat)
    requires SsWhole(a, st)
    ensures var r := SsRead(a, st, cap);
            && SsWhole(a, r.st) && r.st.low.framed == st.low.framed && |r.out| <= cap
            && r.out + SsPending(a, r.st) == SsPending(a, st)
            && (r.ok ==> |r.out| == cap || r.st.buf == [])
            && (!r.ok ==> SsPending(a, st) == [] && r.st.buf == [])
  {
    SsParseIncremental(a);
    SsReadIsPull(a, st, cap);
    PullSound(SsParser(a), Upper(st), cap);
    OwedNothing(SsParser(a));
    hide SsRead, Pull, PadWhole, PadPending, Payload, Tail;
  }

  lemma OwedNothing(f: Parser)
    requires Incremental(f)
    ensures Owed(f, Reader([], [])) == []
  {
  }

  /** A write through both layers appends exactly the written bytes, in two padding frames, or nothing at all. */
  lemma SsWriteSound(a: Aead, st: SsState, p: Data, nonce: Data, pad1: Data, pad2: Data)
    requires Lawful(a) && SsWhole(a, st)
    requires |nonce| == NONCE_SIZE && |pad1| <= MAX_FRAME && |pad2| <= MAX_FRAME
    ensures var wire := SsWire(a, st.low.framed, p, nonce, pad1, pad2);
            var st' := st.(low := st.low.(wire := st.low.wire + wire));
            && SsWhole(a, st')
            && SsPending(a, st') == SsPending(a, st) + (if |p| <= MAX_PLAIN then p else [])
            && SsFrames(a, st') == SsFrames(a, st) + (if 0 < |p| <= MAX_PLAIN then [p] else [])
            && (p == [] || |p| > MAX_PLAIN ==> wire == [])
  {
    RefusedExactly(a, nonce, p);
    if 0 < |p| <= MAX_PLAIN {
      SealParse(a, nonce, p);
      var f, fr := SealFrame(a, nonce, p), st.low.framed;
      var low1 := st.low.(wire := st.low.wire + PadWire(fr, f.header, pad1));
      PadWriteSound(st.low, f.header, pad1);
      PadWriteSound(low1, f.body, pad2);
      SsParseIncremental(a);
      SsParseEmpty(a);
      hide PadWhole, PadPending, PadWire, SealFrame, SsParse, Tail, Payload;
      Regroup(st.low.wire, PadWire(fr, f.header, pad1), PadWire(fr, f.body, pad2));
      Regroup(PadPending(st.low), f.header, f.body);
      WriteFrame(SsParser(a), PadPending(st.low), f.header + f.body, p);
      Regroup(st.buf, Payload(SsParser(a), PadPending(st.low)), p);
    } else {
      var wire := SsWire(a, st.low.framed, p, nonce, pad1, pad2);
      assert st.low.wire + wire == st.low.wire;
      hide PadWhole, PadPending, Tail, Payload;
    }
  }

  // ---------------------------------------------------------------- whole runs

  datatype Step = Send(p: Data, nonce: Data, pad1: Data, pad2: Data) | Recv(cap: nat)

  /** One direction of the tunnel, with everything accepted so far and everything read so far. */
  datatype Tunnel = Tunnel(link: SsState, sent: Data, got: Data)

  function TunnelStep(a: Aead, t: Tunnel, s: Step): Tunnel {
    match s
    case Send(p, nonce, pad1, pad2) =>
      var low := t.link.low;
      var wire := low.wire + SsWire(a, low.framed, p, nonce, pad1, pad2);
      var accepted := if SealFrame(a, nonce, p).Refused? then [] else p;
      Tunnel(t.link.(low := low.(wire := wire)), t.sent + accepted, t.got)
    case Recv(cap) =>
      var r := SsRead(a, t.link, cap);
      Tunnel(r.st, t.sent, t.got + r.out)
  }

  function TunnelRun(a: Aead, framed: bool, steps: seq<Step>): Tunnel {
    if steps == [] then Tunnel(SsState([], PadState(framed, [], [])), [], [])
    else TunnelStep(a, TunnelRun(a, framed, steps[..|steps| - 1]), steps[|steps| - 1])
  }

  /** Any nonce, and any padding that a connection with these bounds may draw. */
  ghost predicate Legal(paddingMin: int, paddingMax: int, s: Step) {
    s.Send? ==> |s.nonce| == NONCE_SIZE
                && PadLen(paddingMin, paddingMax, |s.pad1|) && PadLen(paddingMin, paddingMax, |s.pad2|)
  }

  /** What every run keeps. */
  ghost predicate Sound(a: Aead, t: Tunnel) {
    && SsWhole(a, t.link)
    && t.got + SsPending(a, t.link) == t.sent
    && NonEmpty(SsParser(a), Upper(t.link))
  }

  lemma SoundStep(a: Aead, paddingMin: int, paddingMax: int, t: Tunnel, s: Step)
    requires Lawful(a) && Legal(paddingMin, paddingMax, s) && paddingMin <= MAX_FRAME
    requires Sound(a, t)
    ensures Sound(a, TunnelStep(a, t, s)) && TunnelStep(a, t, s).link.low.framed == t.link.low.framed
    ensures s.Recv? && s.cap > 0 && t.got != t.sent ==> |TunnelStep(a, t, s).got| > |t.got|
  {
    SsParseIncremental(a);
    match s
    case Send(p, nonce, pad1, pad2) =>
      RefusedExactly(a, nonce, p);
      SsWriteSound(a, t.link, p, nonce, pad1, pad2);
      hide PadPending, SsWhole, SsPending, SsWire, SealFrame;
      Regroup(t.got, SsPending(a, t.link), TunnelStep(a, t, s).sent[|t.sent|..]);
    case Recv(cap) =>
      SsReadSound(a, t.link, cap);
      SsReadIsPull(a, t.link, cap);
      PullProgress(SsParser(a), Upper(t.link), cap);
      hide PadPending, SsWhole, SsPending, SsRead, Pull, PadWhole, NonEmpty;
      Regroup(t.got, SsRead(a, t.link, cap).out, SsPending(a, SsRead(a, t.link, cap).st));
  }

  /**
   * In every run of writes and reads, whatever the sizes, nonces and paddings: bytes read, then bytes buffered, then
   * bytes still on the wire are the bytes of the accepted writes, and a read with room makes progress until nothing
   * is missing.
   */
  lemma {:induction false} TunnelConserves(a: Aead, paddingMin: int, paddingMax: int, steps: seq<Step>)
    requires Lawful(a) && paddingMin <= MAX_FRAME
    requires forall i | 0 <= i < |steps| :: Legal(paddingMin, paddingMax, steps[i])
    ensures Sound(a, TunnelRun(a, paddingMax > 0, steps))
    ensures TunnelRun(a, paddingMax > 0, steps).link.low.framed == (paddingMax > 0)
  {
    if steps == [] {
      EmptyTunnel(a, paddingMax > 0);
    } else {
      var n := |steps| - 1;
      TunnelConserves(a, paddingMin, paddingMax, steps[..n]);
      SoundStep(a, paddingMin, paddingMax, TunnelRun(a, paddingMax > 0, steps[..n]), steps[n]);
    }
  }

  lemma EmptyTunnel(a: Aead, framed: bool)
    ensures Sound(a, TunnelRun(a, framed, []))
  {
  }

  // ---------------------------------------------------------------- the session object

  class SsAead {
    const conn: PaddingConn
    const aead: Aead
    var readBuf: Data
    var readOff: nat

    ghost predicate Valid()
      reads this, conn
    {
      readOff <= |readBuf| && conn.Valid()
    }

    ghost function State(): SsState
      requires Valid()
      reads this, conn, conn.rd
    {
      SsState(readBuf[readOff..], conn.State())
    }

    constructor (conn: PaddingConn, aead: Aead)
      requires conn.Valid()
      ensures Valid() && this.conn == conn && this.aead == aead && State().buf == []
    {
      this.conn, this.aead := conn, aead;
      readBuf, readOff := [], 0;
    }

    static method RandomNonce() returns (nonce: Data)
      ensures |nonce| == NONCE_SIZE
    {
      var buf := new Byte[NONCE_SIZE];
      for i := 0 to NONCE_SIZE {
        var r: int := *;
        buf[i] := if 0 <= r < 256 then r else 0;
      }
      nonce := buf[..];
    }

    /** `ok` is false for io.ErrShortWrite. */
    method Write(p: Data) returns (n: nat, ok: bool, nonce: Data, ghost pad1: Data, ghost pad2: Data)
      requires Valid()
      modifies conn.wr
      ensures Valid() && |nonce| == NONCE_SIZE && ok == !SealFrame(aead, nonce, p).Refused?
      ensures n == (if ok then |p| else 0)
      ensures Legal(conn.paddingMin, conn.paddingMax, Send(p, nonce, pad1, pad2))
      ensures conn.wr.data == old(conn.wr.data) + SsWire(aead, conn.paddingMax > 0, p, nonce, pad1, pad2)
    {
      var k1 := conn.NextPaddingLen();
      nonce, pad1, pad2 := Zeros(NONCE_SIZE), Zeros(k1), Zeros(k1);
      if |p| == 0 {
        return 0, true, nonce, pad1, pad2;
      }
      nonce := RandomNonce();
      var ciphertext := aead.seal(nonce, p);
      if |ciphertext| > MAX_FRAME {
        return 0, false, nonce, pad1, pad2;
      }
      var header := nonce + PutU16(|ciphertext|);
      ghost var w, framed := conn.wr.data, conn.paddingMax > 0;
      assert SealFrame(aead, nonce, p) == Two(header, ciphertext);
      hide PadWire, PadLen, PutU16, U16, SealFrame;
      var _, q1 := conn.Write(header);
      var _, q2 := conn.Write(ciphertext);
      pad1, pad2 := q1, q2;
      Regroup(w, PadWire(framed, header, pad1), PadWire(framed, ciphertext, pad2));
      n, ok := |p|, true;
    }

    method Read(cap: nat) returns (out: Data, ok: bool)
      requires Valid()
      modifies this, conn, conn.rd
      ensures Valid() && Result(State(), out, ok) == SsRead(aead, old(State()), cap)
    {
      hide PadReadFull;
      out, ok := [], false;
      if readOff < |readBuf| {
        var n := Min(cap, |readBuf| - readOff);
        out, ok := readBuf[readOff..readOff + n], true;
        assert readBuf[readOff + n..] == readBuf[readOff..][n..];
        readOff := readOff + n;
        if readOff >= |readBuf| {
          readBuf, readOff := [], 0;
        }
        return;
      }
      var header, full := conn.ReadFull(HEADER_SIZE);
      if !full {
        return;
      }
      var payloadLen := U16(header[NONCE_SIZE..]);
      if payloadLen == 0 {
        return;
      }
      var ciphertext;
      ciphertext, full := conn.ReadFull(payloadLen);
      if !full {
        return;
      }
      var plaintext := aead.open(header[..NONCE_SIZE], ciphertext);
      if plaintext == None {
        return;
      }
      readBuf, readOff := plaintext.value, 0;
      var n := Min(cap, |readBuf|);
      out, ok := readBuf[..n], true;
      readOff := n;
      assert readBuf[readOff..] == plaintext.value[n..];
      if readOff >= |readBuf| {
        readBuf, readOff := [], 0;
      }
      assert readBuf[readOff..] == plaintext.value[n..];
    }
  }
}
