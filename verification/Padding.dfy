/**
 * PaddingConn (hypernet/core/network/obfuscate/padding.go): every write becomes one frame
 * [len][payload][padLen][pad], and reads re-chunk the payloads through a carry-over buffer.
 */
module Padding {
  import opened Bytes
  import opened Framing
  import opened Pipes

  const MAX_PADDING_BYTES := 512
  const MAX_FRAME := 0xffff

  /** The reading half of a connection: mode, unread part of `readBuf`, and the incoming wire. */
  datatype PadState = PadState(framed: bool, buf: Data, wire: Data)

  // ---------------------------------------------------------------- writing

  /** The lengths that nextPaddingLen may draw. */
  ghost predicate PadLen(paddingMin: int, paddingMax: int, k: nat) {
    var lo := if paddingMin < 0 then 0 else paddingMin;
    var hi := Min(paddingMax, MAX_PADDING_BYTES);
    if paddingMax <= 0 then k == 0 else if lo >= hi then k == lo else lo <= k <= hi
  }

  /** What one Write puts on the wire: nothing is framed in pass-through mode or above 65535 bytes. */
  function PadWire(framed: bool, p: Data, pad: Data): Data {
    if !framed || |p| > MAX_FRAME then p else PutU16(|p|) + p + PutU16(|pad|) + pad
  }

  // ---------------------------------------------------------------- reading

  /** One complete frame, padding included. */
  function PadParse(w: Data): Parse {
    if |w| < 4 then Short else
    var n := U16(w[..2]);
    if |w| < 4 + n then Short else
    var k := U16(w[2 + n..4 + n]);
    if |w| < 4 + n + k then Short else Frame(w[2..2 + n], w[4 + n + k..])
  }

  /** How many bytes a raw read hands over when it would like to hand over `chunk`. */
  function RawChunk(cap: nat, avail: nat, chunk: nat): (n: nat)
    ensures n <= cap && n <= avail && (cap > 0 && avail > 0 ==> n > 0)
  {
    var most := Min(cap, avail);
    if chunk > most || chunk == 0 then most else chunk
  }

  /**
   * PaddingConn.Read with a buffer of `cap` bytes. A wire that ends inside a frame is an error, except that
   * missing padding is not noticed; a failed read of the payload leaves its partly filled buffer behind.
   */
  function PadRead(st: PadState, cap: nat, chunk: nat): (r: ReadResult<PadState>)
    ensures |r.out| <= cap
  {
    if !st.framed then
      var n := RawChunk(cap, |st.wire|, chunk);
      Result(st.(wire := st.wire[n..]), st.wire[..n], st.wire != [])
    else if st.buf != [] then
      var n := Min(cap, |st.buf|);
      Result(st.(buf := st.buf[n..]), st.buf[..n], true)
    else if |st.wire| < 2 then
      Result(st.(wire := []), [], false)
    else
      var n, body := U16(st.wire[..2]), st.wire[2..];
      if |body| < n then
        Result(st.(buf := body + Zeros(n - |body|), wire := []), [], false)
      else if |body| < n + 2 then
        Result(st.(buf := body[..n], wire := []), [], false)
      else
        var m := Min(cap, n);
        var rest := Drop(body[n + 2..], U16(body[n..n + 2]));
        Result(st.(buf := body[m..n], wire := rest), body[..m], true)
  }

  /** io.ReadFull over PaddingConn: reads until `k` bytes are there. */
  function PadReadFull(st: PadState, k: nat): (r: ReadResult<PadState>)
    ensures r.ok ==> |r.out| == k
    decreases |st.wire|, |st.buf|
  {
    if !st.framed then
      var n := Min(k, |st.wire|);
      Result(st.(wire := st.wire[n..]), st.wire[..n], n == k)
    else if k == 0 then
      Result(st, [], true)
    else
      var r := PadRead(st, k, 0);
      if r.ok then Prepend(r.out, PadReadFull(r.st, k - |r.out|)) else r
  }

  /** The lengths that may be drawn: none without padding, at most 512 unless the minimum is as much or more. */
  lemma PadLenExactly(paddingMin: int, paddingMax: int, k: nat)
    ensures PadLen(paddingMin, paddingMax, k) <==>
            if paddingMax <= 0 then k == 0
            else if paddingMin >= paddingMax || paddingMin >= 512 then k == if paddingMin < 0 then 0 else paddingMin
            else paddingMin <= k <= paddingMax && k <= 512
  {
  }

  /** The length and the bytes, then the length of the padding and the padding. */
  lemma PadWireLayout(p: Data, pad: Data)
    ensures PadWire(false, p, pad) == p
    ensures PadWire(true, p, pad) == if |p| > 65535 then p else PutU16(|p|) + p + PutU16(|pad|) + pad
  {
  }

  /** A frame whose payload and padding length are there is read, with as much of the padding as is there. */
  lemma PadReadShortPadding(p: Data, k: nat, tail: Data, cap: nat, chunk: nat)
    requires |p| <= 65535 && k <= 65535
    ensures var n: nat, m: nat := Min(cap, |p|), Min(k, |tail|);
            PadRead(PadState(true, [], PutU16(|p|) + p + PutU16(k) + tail), cap, chunk)
            == Result(PadState(true, p[n..], tail[m..]), p[..n], true)
  {
    FramedChunk(PadState(true, [], PutU16(|p|) + p + PutU16(k) + tail), cap, chunk);
    PadReadParts(PutU16(|p|), p, PutU16(k), tail, cap);
    assert Drop(tail, k) == tail[Min(k, |tail|)..];
    hide *;
  }

  lemma HeadLayout(a: Data, p: Data, b: Data, tail: Data)
    requires |a| == |b| == 2
    ensures var w := a + p + b + tail;
            && w[..2] == a && w[2..] == p + (b + tail)
            && w[2..][..|p|] == p && w[2..][|p|..] == b + tail && (b + tail)[..2] == b && (b + tail)[2..] == tail
  {
  }

  lemma PadReadParts(a: Data, p: Data, b: Data, tail: Data, cap: nat)
    requires |a| == |b| == 2 && U16(a) == |p|
    ensures var n: nat := Min(cap, |p|);
            PadRead(PadState(true, [], a + p + b + tail), cap, 0)
            == Result(PadState(true, p[n..], Drop(tail, U16(b))), p[..n], true)
  {
    var w := a + p + b + tail;
    HeadLayout(a, p, b, tail);
    assert |w| >= 4 && |w[2..]| >= |p| + 2;
    PadReadCases(w, cap);
    hide PadRead, U16, Drop, Min;
  }

  lemma FramedChunk(st: PadState, cap: nat, chunk: nat)
    requires st.framed
    ensures PadRead(st, cap, chunk) == PadRead(st, cap, 0)
  {
  }

  /** A wire that ends before that is an error. */
  lemma PadReadCutShort(p: Data, k: nat, n: nat, cap: nat, chunk: nat)
    requires |p| <= 65535 && n < |p| + 4
    ensures var r := PadRead(PadState(true, [], (PutU16(|p|) + p + PutU16(k))[..n]), cap, chunk);
            !r.ok && r.out == [] && r.st.wire == []
  {
    var head := PutU16(|p|) + p + PutU16(k);
    if n >= 2 {
      assert head[..n][..2] == PutU16(|p|);
    }
  }

  /** A pass-through read is whatever the raw read hands over. */
  lemma PadReadRaw(w: Data, cap: nat, out: Data)
    requires out <= w && |out| <= cap && (cap > 0 && w != [] ==> out != [])
    ensures PadRead(PadState(false, [], w), cap, |out|) == Result(PadState(false, [], w[|out|..]), out, w != [])
  {
  }

  /** A read that is served from the buffer. */
  lemma PadReadBuffered(st: PadState, cap: nat)
    requires st.framed && st.buf != []
    ensures var n := Min(cap, |st.buf|);
            PadRead(st, cap, 0) == Result(st.(buf := st.buf[n..]), st.buf[..n], true)
  {
  }

  /** A read that fetches a frame, by what the wire holds. */
  lemma PadReadCases(w: Data, cap: nat)
    ensures var r := PadRead(PadState(true, [], w), cap, 0);
            if |w| < 2 then r == Result(PadState(true, [], []), [], false) else
            var n, body := U16(w[..2]), w[2..];
            if |body| < n then r == Result(PadState(true, body + Zeros(n - |body|), []), [], false) else
            var after, m := body[n..], Min(cap, n);
            if |after| < 2 then r == Result(PadState(true, body[..n], []), [], false)
            else r == Result(PadState(true, body[..n][m..], Drop(after[2..], U16(after[..2]))), body[..n][..m], true)
  {
    if |w| >= 2 && |w[2..]| >= U16(w[..2]) + 2 {
      var n, body := U16(w[..2]), w[2..];
      assert body[n..][..2] == body[n..n + 2] && body[n..][2..] == body[n + 2..];
      assert body[..n][Min(cap, n)..] == body[Min(cap, n)..n];
      assert body[..n][..Min(cap, n)] == body[..Min(cap, n)];
    }
  }

  /** The size chosen by a raw read only matters in pass-through mode; every successful read uses something up. */
  lemma PadReadShape(st: PadState, cap: nat, chunk: nat)
    requires cap > 0 && (st.framed || st.buf == [])
    ensures var r := PadRead(st, cap, chunk);
            && r.st.framed == st.framed && |r.out| <= cap
            && (st.framed ==> r == PadRead(st, cap, 0))
            && (!st.framed ==> r.out + r.st.wire == st.wire && r.st.buf == [] && (r.ok <==> st.wire != []))
            && (r.ok ==> |r.st.wire| < |st.wire| || (r.st.wire == st.wire && |r.st.buf| < |st.buf|))
            && (!r.ok ==> r.out == [])
  {
  }

  /** One turn of the ReadFull loop with `out` already read, whatever size the raw read chooses. */
  lemma PadReadFullTurn(out: Data, st: PadState, k: nat, chunk: nat)
    requires k > 0 && (st.framed || st.buf == [])
    ensures var r, all := PadRead(st, k, chunk), Prepend(out, PadReadFull(st, k));
            && r.st.framed == st.framed
            && (r.ok ==> all == Prepend(out + r.out, PadReadFull(r.st, k - |r.out|)))
            && (r.ok ==> |r.st.wire| < |st.wire| || (r.st.wire == st.wire && |r.st.buf| < |st.buf|))
            && (!r.ok ==> all == Result(r.st, out, false) && r.out == [])
  {
    hide PadRead;
    PadReadShape(st, k, chunk);
    var r := PadRead(st, k, chunk);
    if r.ok {
      var rest := PadReadFull(r.st, k - |r.out|);
      Regroup(out, r.out, rest.out);
      if !st.framed {
        assert PadReadFull(st, k).out == r.out + rest.out;
        assert PadReadFull(st, k).st.wire == rest.st.wire;
      }
    }
  }

  lemma PadReadFullNothing(st: PadState)
    ensures PadReadFull(st, 0) == Result(st, [], true)
  {
  }

  // ---------------------------------------------------------------- what a reader is owed

  /** The ideal reader behind a framed connection. */
  function Ideal(st: PadState): Reader {
    Reader(st.buf, st.wire)
  }

  function Embed(r: ReadResult<Reader>): ReadResult<PadState> {
    Result(PadState(true, r.st.buf, r.st.wire), r.out, r.ok)
  }

  /** Bytes that can still be read: the carry-over buffer, then the payloads of the frames on the wire. */
  ghost function PadPending(st: PadState): Data {
    if st.framed then Owed(PadParse, Ideal(st)) else st.wire
  }

  /** The wire ends with a complete frame. */
  ghost predicate PadWhole(st: PadState) {
    if st.framed then Whole(PadParse, Ideal(st)) else st.buf == []
  }

  lemma PadParseIncremental()
    ensures Incremental(PadParse)
  {
    forall w, x | PadParse(w).Frame?
      ensures PadParse(w + x) == Frame(PadParse(w).payload, PadParse(w).rest + x)
    {
      var n := U16(w[..2]);
      assert (w + x)[..2] == w[..2] && (w + x)[2 + n..4 + n] == w[2 + n..4 + n];
      assert (w + x)[2..2 + n] == w[2..2 + n];
    }
  }

  /** Parsing what Write sends: padding beyond what its length field says stays on the wire. */
  lemma PadParseFrame(p: Data, pad: Data)
    requires |p| <= MAX_FRAME
    ensures PadParse(PadWire(true, p, pad)) == Frame(p, pad[|pad| % 0x1_0000..])
  {
    var w := PadWire(true, p, pad);
    assert w[..2] == PutU16(|p|) && w[2..2 + |p|] == p;
    assert w[2 + |p|..4 + |p|] == PutU16(|pad|);
    assert w[4 + |p|..] == pad;
  }

  /** On a wire of whole frames the code is the ideal reader. */
  lemma PadReadIsPull(st: PadState, cap: nat, chunk: nat)
    requires st.framed && (st.wire == [] || PadParse(st.wire).Frame?)
    ensures PadRead(st, cap, chunk) == Embed(Pull(PadParse, Ideal(st), cap))
  {
    var w := st.wire;
    if st.buf == [] && w != [] {
      var n, body := U16(w[..2]), w[2..];
      assert body[n..n + 2] == w[2 + n..4 + n] && body[..n] == w[2..2 + n];
    }
  }

  lemma WholeMeansFrame(f: Parser, r: Reader)
    requires Whole(f, r)
    ensures r.wire == [] || f(r.wire).Frame?
  {
  }

  lemma {:induction false} PadReadFullIsPullFull(st: PadState, k: nat)
    requires st.framed && PadWhole(st) && Incremental(PadParse)
    ensures PadReadFull(st, k) == Embed(PullFull(PadParse, Ideal(st), k))
    decreases |st.wire|, |st.buf|
  {
    hide PadRead, PadParse, Pull, Whole, Owed, Incremental;
    if k > 0 {
      WholeMeansFrame(PadParse, Ideal(st));
      PadReadIsPull(st, k, 0);
      PullSound(PadParse, Ideal(st), k);
      PullShrinks(PadParse, Ideal(st), k);
      var r := PadRead(st, k, 0);
      if r.ok {
        PadReadFullIsPullFull(r.st, k - |r.out|);
      }
    }
  }

  /** A read never loses, repeats or invents a byte; it fails exactly when nothing is left. */
  lemma PadReadSound(st: PadState, cap: nat, chunk: nat)
    requires PadWhole(st)
    ensures var r := PadRead(st, cap, chunk);
            && PadWhole(r.st) && r.st.framed == st.framed
            && r.out + PadPending(r.st) == PadPending(st)
            && (r.ok <==> st.buf != [] || st.wire != [])
            && (st.framed && r.ok ==> |r.out| == cap || r.st.buf == [])
            && (!r.ok ==> r.st == st)
  {
    if st.framed {
      PadParseIncremental();
      WholeMeansFrame(PadParse, Ideal(st));
      PadReadIsPull(st, cap, chunk);
      PullSound(PadParse, Ideal(st), cap);
    }
  }

  /** ReadFull delivers the next `k` bytes owed, across any number of frames; if there are fewer, it fails. */
  lemma PadReadFullSound(st: PadState, k: nat)
    requires PadWhole(st)
    ensures var r := PadReadFull(st, k);
            && PadWhole(r.st) && r.st.framed == st.framed
            && (r.ok <==> |PadPending(st)| >= k)
            && r.out + PadPending(r.st) == PadPending(st)
            && (!r.ok ==> r.st.buf == [] && r.st.wire == [])
  {
    if st.framed {
      PadParseIncremental();
      PadReadFullIsPullFull(st, k);
      PullFullSound(PadParse, Ideal(st), k);
    }
  }

  /** Writing to a whole wire appends exactly the written bytes to what the reader is owed. */
  lemma PadWriteSound(st: PadState, p: Data, pad: Data)
    requires PadWhole(st)
    requires st.framed ==> |p| <= MAX_FRAME && |pad| <= MAX_FRAME
    ensures var st' := st.(wire := st.wire + PadWire(st.framed, p, pad));
            && PadWhole(st') && PadPending(st') == PadPending(st) + p
            && (st.framed ==> Frames(PadParse, st'.wire) == Frames(PadParse, st.wire) + [p])
  {
    if st.framed {
      PadParseIncremental();
      PadParseFrame(p, pad);
      WriteFrame(PadParse, st.wire, PadWire(true, p, pad), p);
    }
  }

  // ---------------------------------------------------------------- exactly which writes survive

  lemma {:induction false} FramesCost(w: Data)
    ensures |Payload(PadParse, w)| + 4 * |Frames(PadParse, w)| <= |w|
    decreases |w|
  {
    FirstFrame(PadParse, w);
    if PadParse(w).Frame? {
      FramesCost(PadParse(w).rest);
    }
  }

  /** A reader of the frame written for `p` with padding `pad` gets `p`, with nothing left over. */
  ghost predicate Readable(p: Data, pad: Data) {
    Payload(PadParse, PadWire(true, p, pad)) == p && Tail(PadParse, PadWire(true, p, pad)) == []
  }

  /**
   * On a framed connection built by NewPaddingConn, a write is readable for every padding that may be drawn
   * if and only if it has at most 65535 bytes and the minimum padding does too: above these bounds the length
   * field does not hold the length.
   */
  lemma PaddingExact(p: Data, paddingMin: int, paddingMax: int)
    requires 0 < paddingMax && paddingMin <= paddingMax
    ensures (forall pad: Data | PadLen(paddingMin, paddingMax, |pad|) :: Readable(p, pad))
            <==> |p| <= MAX_FRAME && paddingMin <= MAX_FRAME
  {
    if |p| <= MAX_FRAME && paddingMin <= MAX_FRAME {
      forall pad: Data | PadLen(paddingMin, paddingMax, |pad|)
        ensures Readable(p, pad)
      {
        FittingPadding(p, pad);
      }
    } else {
      var pad: Data := seq(if paddingMin < 0 then 0 else paddingMin, _ => 1);
      assert PadLen(paddingMin, paddingMax, |pad|);
      if |p| > MAX_FRAME {
        UnframedWrite(p, pad);
      } else {
        OverlongPadding(p, pad);
      }
    }
  }

  lemma FittingPadding(p: Data, pad: Data)
    requires |p| <= MAX_FRAME && |pad| <= MAX_FRAME
    ensures Readable(p, pad)
  {
    PadParseFrame(p, pad);
    hide PadParse, PadWire;
    FirstFrame(PadParse, PadWire(true, p, pad));
    NoFrames();
  }

  lemma NoFrames()
    ensures Payload(PadParse, []) == [] && Tail(PadParse, []) == []
  {
  }

  lemma UnframedWrite(p: Data, pad: Data)
    requires |p| > MAX_FRAME
    ensures !Readable(p, pad)
  {
    hide PadParse;
    FramesCost(p);
    assert |Frames(PadParse, p)| == 0 ==> Payload(PadParse, p) == [];
  }

  /** Padding longer than the length field can say is read back as frames of its own. */
  lemma OverlongPadding(p: Data, pad: Data)
    requires |p| <= MAX_FRAME < |pad| && forall i | 0 <= i < |pad| :: pad[i] == 1
    ensures |Payload(PadParse, PadWire(true, p, pad))| > |p|
  {
    var w, rest := PadWire(true, p, pad), pad[|pad| % 0x1_0000..];
    PadParseFrame(p, pad);
    OnesParse(rest);
    hide PadParse, PadWire;
    FirstFrame(PadParse, w);
    FirstFrame(PadParse, rest);
  }

  lemma OnesParse(w: Data)
    requires |w| > MAX_FRAME && forall i | 0 <= i < |w| :: w[i] == 1
    ensures PadParse(w).Frame? && |PadParse(w).payload| == 257 && |PadParse(w).rest| < |w|
  {
    assert w[..2] == [1, 1];
    assert U16(w[..2]) == 257;
    assert w[259..261] == [1, 1];
  }

  // ---------------------------------------------------------------- the connection

  class PaddingConn {
    const rd: Pipe
    const wr: Pipe
    const paddingMin: int
    const paddingMax: int
    var readBuf: Data
    var readOff: nat

    ghost predicate Valid()
      reads this
    {
      rd != wr && readOff <= |readBuf| && paddingMin <= paddingMax && (paddingMax <= 0 ==> readBuf == [])
    }

    ghost function State(): PadState
      requires Valid()
      reads this, rd
    {
      PadState(paddingMax > 0, readBuf[readOff..], rd.data)
    }

    constructor (rd: Pipe, wr: Pipe, lo: int, hi: int)
      requires rd != wr
      ensures Valid() && this.rd == rd && this.wr == wr && readBuf == []
      ensures paddingMax == (if hi <= 0 then 0 else hi)
      ensures paddingMin == (if hi <= 0 then 0 else Min(lo, hi))
    {
      var paddingMin, paddingMax := lo, hi;
      if paddingMax <= 0 {
        paddingMax := 0;
        paddingMin := 0;
      }
      if paddingMin > paddingMax {
        paddingMin := paddingMax;
      }
      this.rd, this.wr := rd, wr;
      this.paddingMin, this.paddingMax := paddingMin, paddingMax;
      readBuf, readOff := [], 0;
    }

    method NextPaddingLen() returns (k: nat)
      ensures PadLen(paddingMin, paddingMax, k)
      ensures k <= 512 || k == paddingMin
    {
      if paddingMax <= 0 {
        return 0;
      }
      var lo, hi := paddingMin, paddingMax;
      if lo < 0 {
        lo := 0;
      }
      if hi > MAX_PADDING_BYTES {
        hi := MAX_PADDING_BYTES;
      }
      if lo >= hi {
        return lo;
      }
      var draw: int := *;
      k := lo + if 0 <= draw <= hi - lo then draw else 0;
    }

    method Write(p: Data) returns (n: nat, ghost pad: Data)
      requires Valid()
      modifies wr
      ensures n == |p| && PadLen(paddingMin, paddingMax, |pad|)
      ensures wr.data == old(wr.data) + PadWire(paddingMax > 0, p, pad)
    {
      var padLen := NextPaddingLen();
      pad := Zeros(padLen);
      if paddingMax <= 0 || |p| > MAX_FRAME {
        wr.Write(p);
        return |p|, pad;
      }
      var head := PutU16(|p|) + p + PutU16(padLen);
      var buf := new Byte[|head| + padLen](i => if 0 <= i < |head| then head[i] else 0);
      for i := 0 to padLen
        invariant buf[..|head|] == head && wr.data == old(wr.data)
      {
        var noise: int := *;
        buf[|head| + i] := if 0 <= noise < 256 then noise else 0;
      }
      wr.Write(buf[..]);
      pad := buf[|head|..];
      assert buf[..] == head + pad == PadWire(true, p, pad);
      n := |p|;
    }

    method Read(cap: nat) returns (out: Data, ok: bool, ghost chunk: nat)
      requires Valid()
      modifies this, rd
      ensures Valid() && Result(State(), out, ok) == PadRead(old(State()), cap, chunk)
    {
      hide PadRead;
      chunk, out, ok := 0, [], false;
      if paddingMax <= 0 {
        ghost var w := rd.data;
        out, ok := rd.Read(cap);
        chunk := |out|;
        PadReadRaw(w, cap, out);
        return;
      }
      if readOff < |readBuf| {
        PadReadBuffered(State(), cap);
        var n := Min(cap, |readBuf| - readOff);
        out, ok := readBuf[readOff..readOff + n], true;
        assert readBuf[readOff + n..] == readBuf[readOff..][n..];
        readOff := readOff + n;
        if readOff >= |readBuf| {
          readBuf, readOff := [], 0;
        }
        return;
      }
      out, ok := ReadFrame(cap);
    }

    /** The part of Read that fetches the next frame. */
    method ReadFrame(cap: nat) returns (out: Data, ok: bool)
      requires Valid() && paddingMax > 0 && readOff == |readBuf|
      modifies this, rd
      ensures Valid() && Result(State(), out, ok) == PadRead(old(State()), cap, 0)
    {
      out, ok := [], false;
      ghost var w := rd.data;
      PadReadCases(w, cap);
      hide PadRead, U16;
      var lenBuf, full := rd.ReadFull(2);
      if !full {
        return;
      }
      var payloadLen := U16(lenBuf);
      if payloadLen == 0 {
        ok := SkipPadding();
        return;
      }
      readOff := 0;
      var payload;
      payload, full := rd.ReadFull(payloadLen);
      readBuf := payload + Zeros(payloadLen - |payload|);
      if !full {
        return;
      }
      assert readBuf == payload == w[2..][..payloadLen] && rd.data == w[2..][payloadLen..];
      full := SkipPadding();
      if !full {
        return;
      }
      var n := Min(cap, payloadLen);
      out, ok := readBuf[..n], true;
      readBuf := readBuf[n..];
    }

    /** The padding length and the padding; only a missing length is an error. */
    method SkipPadding() returns (ok: bool)
      requires Valid()
      modifies rd
      ensures ok <==> |old(rd.data)| >= 2
      ensures rd.data == if ok then Drop(old(rd.data)[2..], U16(old(rd.data)[..2])) else []
    {
      var padLenBuf;
      padLenBuf, ok := rd.ReadFull(2);
      if ok {
        var padLen := U16(padLenBuf);
        if padLen > 0 {
          var _, _ := rd.ReadFull(padLen);
        }
      }
    }

    method ReadFull(k: nat) returns (out: Data, ok: bool)
      requires Valid()
      modifies this, rd
      ensures Valid() && Result(State(), out, ok) == PadReadFull(old(State()), k)
      ensures ok ==> |out| == k
    {
      hide PadRead;
      hide PadReadFull;
      out, ok := [], true;
      ghost var st, all := State(), PadReadFull(State(), k);
      while |out| < k && ok
        invariant Valid() && |out| <= k && st == State()
        invariant all == if ok then Prepend(out, PadReadFull(st, k - |out|)) else Result(st, out, false)
        decreases ok, |rd.data|, |readBuf| - readOff
      {
        var part;
        ghost var chunk;
        part, ok, chunk := Read(k - |out|);
        PadReadFullTurn(out, st, k - |out|, chunk);
        out, st := out + part, State();
      }
      PadReadFullNothing(st);
    }
  }
}
