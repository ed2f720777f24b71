/**
 * The UDP tunnel: datagrams as [length 2][bytes] on a stream, the client's udpTunnel (pkg/client/proxy.go:736-782) at
 * one end and the server's two forwarding loops (hypernet/services/proxy/server/proxy.go:585-628) at the other.
 */
module UdpTunnel {
  import opened Bytes
  import opened Framing
  import opened Pipes

  const MAX_DATAGRAM := 0xFFFF

  function Cut(p: Data): Data {
    p[..Min(|p|, MAX_DATAGRAM)]
  }

  /** udpTunnel.Write: an empty datagram is not sent, a long one is cut. */
  function ClientWire(p: Data): Data {
    if p == [] then [] else PutU16(|Cut(p)|) + Cut(p)
  }

  /** The server's way back does not cut: its length field keeps the low 16 bits. */
  function ServerWire(d: Data): Data {
    if d == [] then [] else PutU16(|d|) + d
  }

  function UdpParse(w: Data): Parse {
    if |w| < 2 then Short else
    var n := U16(w[..2]);
    if |w| < 2 + n then Short else Frame(w[2..2 + n], w[2 + n..])
  }

  lemma UdpParseIncremental()
    ensures Incremental(UdpParse) && UdpParse([]) == Short
  {
    forall w, x | UdpParse(w).Frame?
      ensures UdpParse(w + x) == Frame(UdpParse(w).payload, UdpParse(w).rest + x)
    {
      var n := U16(w[..2]);
      assert (w + x)[..2] == w[..2] && (w + x)[2..2 + n] == w[2..2 + n];
      assert (w + x)[2 + n..] == w[2 + n..] + x;
    }
  }

  lemma UdpParseFrame(d: Data)
    requires |d| <= MAX_DATAGRAM
    ensures UdpParse(PutU16(|d|) + d) == Frame(d, [])
  {
    var w := PutU16(|d|) + d;
    assert w[..2] == PutU16(|d|) && w[2..] == d && w[2..2 + |d|] == d;
  }

  /** A datagram on the way back arrives as itself if and only if its length fits the length field. */
  lemma ServerWireExactly(d: Data)
    requires d != []
    ensures Frames(UdpParse, ServerWire(d)) == [d] <==> |d| <= MAX_DATAGRAM
  {
    var w := ServerWire(d);
    FirstFrame(UdpParse, w);
    FirstFrame(UdpParse, []);
    assert w[..2] == PutU16(|d|);
    if |d| <= MAX_DATAGRAM {
      UdpParseFrame(d);
    } else {
      assert UdpParse(w).Frame? ==> |UdpParse(w).payload| <= MAX_DATAGRAM;
    }
  }

  // ---------------------------------------------------------------- client to target

  /** The datagrams a list of frames stands for: empty ones are dropped. */
  function Datagrams(frames: seq<Data>): seq<Data> {
    if frames == [] then []
    else if frames[0] == [] then Datagrams(frames[1..])
    else [frames[0]] + Datagrams(frames[1..])
  }

  lemma {:induction false} DatagramsAppend(xs: seq<Data>, ys: seq<Data>)
    ensures Datagrams(xs + ys) == Datagrams(xs) + Datagrams(ys)
  {
    if xs == [] {
      assert xs + ys == ys;
    } else {
      DatagramsAppend(xs[1..], ys);
      assert (xs + ys)[1..] == xs[1..] + ys;
      Regroup([xs[0]], Datagrams(xs[1..]), Datagrams(ys));
    }
  }

  /** A client write, or one turn of the server's loop. */
  datatype UpStep = Write(p: Data) | Forward
  datatype Up = Up(wire: Data, sent: seq<Data>, forwarded: seq<Data>)

  function UpStepOf(u: Up, s: UpStep): Up {
    match s
    case Write(p) => u.(wire := u.wire + ClientWire(p), sent := u.sent + (if p == [] then [] else [Cut(p)]))
    case Forward =>
      match UdpParse(u.wire)
      case Short => u
      case Frame(d, rest) => u.(wire := rest, forwarded := u.forwarded + (if d == [] then [] else [d]))
  }

  function UpRun(steps: seq<UpStep>): Up {
    if steps == [] then Up([], [], [])
    else UpStepOf(UpRun(steps[..|steps| - 1]), steps[|steps| - 1])
  }

  ghost predicate UpSound(u: Up) {
    Tail(UdpParse, u.wire) == [] && u.forwarded + Datagrams(Frames(UdpParse, u.wire)) == u.sent
  }

  /** A frame behind a wire of whole frames. */
  lemma AppendFrame(w: Data, d: Data)
    requires Tail(UdpParse, w) == [] && |d| <= MAX_DATAGRAM
    ensures var w' := w + (PutU16(|d|) + d);
            Tail(UdpParse, w') == [] && Frames(UdpParse, w') == Frames(UdpParse, w) + [d]
  {
    UdpParseIncremental();
    UdpParseFrame(d);
    hide UdpParse, PutU16;
    WriteFrame(UdpParse, w, PutU16(|d|) + d, d);
  }

  lemma UpSoundStep(u: Up, s: UpStep)
    requires UpSound(u)
    ensures UpSound(UpStepOf(u, s))
  {
    hide Frames, Tail;
    if s.Forward? {
      UpForward(u);
    } else if s.p == [] {
      assert u.wire + [] == u.wire && u.sent + [] == u.sent;
    } else {
      hide UdpParse, PutU16;
      AppendFrame(u.wire, Cut(s.p));
      DatagramsAppend(Frames(UdpParse, u.wire), [Cut(s.p)]);
      Regroup(u.forwarded, Datagrams(Frames(UdpParse, u.wire)), [Cut(s.p)]);
    }
  }

  lemma UpForward(u: Up)
    requires UpSound(u)
    ensures UpSound(UpStepOf(u, Forward))
  {
    UdpParseIncremental();
    FirstFrame(UdpParse, u.wire);
    hide UdpParse, Frames, Tail;
    if UdpParse(u.wire).Frame? {
      var d, rest := UdpParse(u.wire).payload, Frames(UdpParse, UdpParse(u.wire).rest);
      DatagramsAppend([d], rest);
      Regroup(u.forwarded, Datagrams([d]), Datagrams(rest));
    }
  }

  /**
   * In every run the server has forwarded, in order and with their boundaries, the client's non-empty writes, each
   * cut to 65535 bytes; those not forwarded yet are whole on the wire.
   */
  lemma {:induction false} UpRunSound(steps: seq<UpStep>)
    ensures UpSound(UpRun(steps))
  {
    if steps != [] {
      UpRunSound(steps[..|steps| - 1]);
      UpSoundStep(UpRun(steps[..|steps| - 1]), steps[|steps| - 1]);
    }
  }

  /** What the run calls sent: the non-empty writes, each with its first 65535 bytes. */
  function Writes(steps: seq<UpStep>): seq<Data> {
    if steps == [] then [] else
    var s := steps[|steps| - 1];
    Writes(steps[..|steps| - 1])
    + (if s.Forward? || s.p == [] then [] else [if |s.p| <= 65535 then s.p else s.p[..65535]])
  }

  lemma {:induction false} SentAreWrites(steps: seq<UpStep>)
    ensures UpRun(steps).sent == Writes(steps)
  {
    if steps != [] {
      SentAreWrites(steps[..|steps| - 1]);
      hide UdpParse, ClientWire;
      var s := steps[|steps| - 1];
      if s.Write? && |s.p| <= 65535 {
        assert Cut(s.p) == s.p;
      }
    }
  }

  // ---------------------------------------------------------------- target to client

  datatype Status = Whole | CutShort | Empty | Failed

  /** udpTunnel.Read with a buffer of `cap` bytes. */
  function UdpRead(w: Data, cap: nat): (Data, Data, Status) {
    match UdpParse(w)
    case Short => ([], [], Failed)
    case Frame(d, rest) =>
      if d == [] then (rest, [], Empty)
      else (rest, d[..Min(cap, |d|)], if cap < |d| then CutShort else Whole)
  }

  datatype DownStep = Arrive(d: Data) | Read(cap: nat)
  /** `got` has, for each successful read, the buffer size, the bytes and whether they were cut short. */
  datatype Down = Down(wire: Data, sent: seq<Data>, got: seq<(nat, Data, bool)>)

  function DownStepOf(n: Down, s: DownStep): Down {
    match s
    case Arrive(d) => n.(wire := n.wire + ServerWire(d), sent := n.sent + (if d == [] then [] else [d]))
    case Read(cap) =>
      var (rest, out, status) := UdpRead(n.wire, cap);
      if status == Failed then n else n.(wire := rest, got := n.got + [(cap, out, status == CutShort)])
  }

  function DownRun(steps: seq<DownStep>): Down {
    if steps == [] then Down([], [], [])
    else DownStepOf(DownRun(steps[..|steps| - 1]), steps[|steps| - 1])
  }

  /** What a read with a buffer of `cap` bytes makes of datagram `d`. */
  ghost predicate ReadOf(g: (nat, Data, bool), d: Data) {
    g.1 == d[..Min(g.0, |d|)] && (g.2 <==> g.0 < |d|)
  }

  ghost predicate DownSound(n: Down) {
    && Tail(UdpParse, n.wire) == []
    && |n.got| <= |n.sent| && Frames(UdpParse, n.wire) == n.sent[|n.got|..]
    && (forall i | 0 <= i < |n.sent| :: n.sent[i] != [])
    && (forall i | 0 <= i < |n.got| :: ReadOf(n.got[i], n.sent[i]))
  }

  lemma DownSoundStep(n: Down, s: DownStep)
    requires DownSound(n) && (s.Arrive? ==> |s.d| <= MAX_DATAGRAM)
    ensures DownSound(DownStepOf(n, s))
  {
    hide Frames, Tail;
    if s.Read? {
      DownRead(n, s.cap);
    } else if s.d == [] {
      assert n.wire + [] == n.wire && n.sent + [] == n.sent;
    } else {
      hide UdpParse, PutU16;
      AppendFrame(n.wire, s.d);
      assert (n.sent + [s.d])[|n.got|..] == n.sent[|n.got|..] + [s.d];
    }
  }

  lemma DownRead(n: Down, cap: nat)
    requires DownSound(n)
    ensures DownSound(DownStepOf(n, Read(cap)))
  {
    UdpParseIncremental();
    FirstFrame(UdpParse, n.wire);
    hide UdpParse, Frames, Tail;
    if UdpParse(n.wire).Frame? {
      var d, rest := UdpParse(n.wire).payload, UdpParse(n.wire).rest;
      assert n.sent[|n.got|] == n.sent[|n.got|..][0] == d;
      assert Frames(UdpParse, rest) == n.sent[|n.got|..][1..] == n.sent[|n.got| + 1..];
    }
  }

  /**
   * In every run read number k gives the first bytes of datagram number k, as many as fit, and says whether some did
   * not: what a short buffer drops is the rest of that datagram only, and the next read is aligned again.
   */
  lemma {:induction false} DownRunSound(steps: seq<DownStep>)
    requires forall i | 0 <= i < |steps| :: steps[i].Arrive? ==> |steps[i].d| <= MAX_DATAGRAM
    ensures DownSound(DownRun(steps))
  {
    if steps != [] {
      DownRunSound(steps[..|steps| - 1]);
      DownSoundStep(DownRun(steps[..|steps| - 1]), steps[|steps| - 1]);
    }
  }

  /** What the run calls sent: the non-empty datagrams that arrived. */
  function Arrivals(steps: seq<DownStep>): seq<Data> {
    if steps == [] then [] else
    var s := steps[|steps| - 1];
    Arrivals(steps[..|steps| - 1]) + (if s.Read? || s.d == [] then [] else [s.d])
  }

  lemma {:induction false} SentArrived(steps: seq<DownStep>)
    ensures DownRun(steps).sent == Arrivals(steps)
  {
    if steps != [] {
      SentArrived(steps[..|steps| - 1]);
      hide UdpRead, ServerWire;
    }
  }

  /** The four outcomes of a read, by what the wire starts with. */
  lemma UdpReadExactly(d: Data, x: Data, n: nat, cap: nat)
    requires |d| <= 65535 && n < 2 + |d|
    ensures UdpRead(PutU16(|d|) + d + x, cap)
         == if d == [] then (x, [], Empty)
            else if |d| <= cap then (x, d, Whole) else (x, d[..cap], CutShort)
    ensures UdpRead((PutU16(|d|) + d)[..n], cap) == ([], [], Failed)
  {
    var w, c := PutU16(|d|) + d + x, (PutU16(|d|) + d)[..n];
    assert w[..2] == PutU16(|d|) && w[2..2 + |d|] == d && w[2 + |d|..] == x;
    assert d[..|d|] == d;
    if n >= 2 {
      assert c[..2] == PutU16(|d|);
    }
    hide PutU16, U16;
  }

  // ---------------------------------------------------------------- the code

  class Tunnel {
    const rd: Pipe
    const wr: Pipe

    constructor (rd: Pipe, wr: Pipe)
      ensures this.rd == rd && this.wr == wr
    {
      this.rd, this.wr := rd, wr;
    }

    method Write(data: Data) returns (n: nat)
      modifies wr
      ensures n == |Cut(data)| && wr.data == old(wr.data) + ClientWire(data)
      ensures var p := if |data| <= 65535 then data else data[..65535];
              n == |p| && wr.data == old(wr.data) + (if p == [] then [] else PutU16(|p|) + p)
    {
      var p := data;
      if |p| == 0 {
        return 0;
      }
      if |p| > MAX_DATAGRAM {
        p := p[..MAX_DATAGRAM];
      }
      assert p == Cut(data);
      hide PutU16, Cut;
      Regroup(wr.data, PutU16(|p|), p);
      wr.Write(PutU16(|p|));
      wr.Write(p);
      n := |p|;
    }

    method Read(cap: nat) returns (out: Data, status: Status)
      modifies rd
      ensures (rd.data, out, status) == UdpRead(old(rd.data), cap)
    {
      hide UdpParse;
      var buf, full := ReadDatagram(rd);
      if !full {
        return [], Failed;
      }
      if |buf| == 0 {
        return [], Empty;
      }
      if cap < |buf| {
        return buf[..cap], CutShort;
      }
      assert buf[..|buf|] == buf;
      out, status := buf, Whole;
    }
  }

  /** The length and then the bytes, as both ends read them; a stream that ends inside is used up. */
  method ReadDatagram(reader: Pipe) returns (buf: Data, ok: bool)
    modifies reader
    ensures match UdpParse(old(reader.data))
            case Short => !ok && reader.data == []
            case Frame(d, rest) => ok && buf == d && reader.data == rest && |rest| < |old(reader.data)|
  {
    ghost var w := reader.data;
    var lenBuf;
    lenBuf, ok := reader.ReadFull(2);
    if !ok {
      return [], false;
    }
    var n := U16(lenBuf);
    if n <= 0 {
      assert w[2..2] == [];
      return [], true;
    }
    buf, ok := reader.ReadFull(n);
    assert ok ==> buf == w[2..2 + n] && reader.data == w[2 + n..];
  }

  /** The server's UDP socket: what it has sent to the target. */
  class Socket {
    var sent: seq<Data>

    constructor ()
      ensures sent == []
    {
      sent := [];
    }

    method Send(d: Data, fails: bool) returns (ok: bool)
      modifies this
      ensures ok == !fails && sent == old(sent) + if ok then [d] else []
    {
      ok := !fails;
      if ok {
        sent := sent + [d];
      }
    }
  }

  lemma NextOne(all: seq<Data>, n: nat, d: Data, rest: seq<Data>)
    requires n <= |all| && all[n..] == [d] + rest
    ensures n < |all| && all[n] == d && all[n + 1..] == rest && all[..n + 1] == all[..n] + [d]
  {
    assert all[n] == all[n..][0] && all[n + 1..] == all[n..][1..];
  }

  /**
   * The loop from stream to target: it ends with the stream, or with the first send that fails. `fails` says which
   * sends do; `n` is how many went through.
   */
  method ForwardUp(reader: Pipe, conn: Socket, fails: nat -> bool) returns (n: nat, failed: bool)
    modifies reader, conn
    ensures var all := Datagrams(Frames(UdpParse, old(reader.data)));
            && n <= |all| && conn.sent == old(conn.sent) + all[..n]
            && (forall i | 0 <= i < n :: !fails(i))
            && (failed <==> n < |all|) && (failed ==> fails(n))
  {
    ghost var all := Datagrams(Frames(UdpParse, reader.data));
    n := 0;
    while true
      invariant n <= |all| && conn.sent == old(conn.sent) + all[..n]
      invariant all[n..] == Datagrams(Frames(UdpParse, reader.data))
      invariant forall i | 0 <= i < n :: !fails(i)
      decreases |reader.data|
    {
      ghost var w := reader.data;
      FirstFrame(UdpParse, w);
      hide UdpParse;
      var buf, full := ReadDatagram(reader);
      if !full {
        assert all[n..] == [];
        return n, false;
      }
      assert Frames(UdpParse, w)[1..] == Frames(UdpParse, reader.data);
      if |buf| <= 0 {
        continue;
      }
      hide Datagrams;
      NextOne(all, n, buf, Datagrams(Frames(UdpParse, reader.data)));
      var ok := conn.Send(buf, fails(n));
      if !ok {
        return n, true;
      }
      n := n + 1;
    }
  }

  /** The stream bytes for a list of datagrams. */
  function DownWire(ds: seq<Data>): Data {
    if ds == [] then [] else DownWire(ds[..|ds| - 1]) + ServerWire(ds[|ds| - 1])
  }

  /** The client gets, as they are, the non-empty datagrams, if none has more than 65535 bytes. */
  lemma {:induction false} DownWireFrames(ds: seq<Data>)
    requires forall i | 0 <= i < |ds| :: |ds[i]| <= 65535
    ensures Tail(UdpParse, DownWire(ds)) == [] && Frames(UdpParse, DownWire(ds)) == Datagrams(ds)
  {
    if ds == [] {
      FirstFrame(UdpParse, []);
    } else {
      var n := |ds| - 1;
      DownWireFrames(ds[..n]);
      assert ds == ds[..n] + [ds[n]];
      DatagramsAppend(ds[..n], [ds[n]]);
      assert Datagrams([ds[n]]) == if ds[n] == [] then [] else [ds[n]];
      hide UdpParse, PutU16, Frames, Tail;
      if ds[n] == [] {
        assert DownWire(ds[..n]) + [] == DownWire(ds[..n]);
      } else {
        AppendFrame(DownWire(ds[..n]), ds[n]);
      }
    }
  }

  /** The loop from target to stream over the datagrams that arrive. */
  method ForwardDown(arriving: seq<Data>, stream: Pipe)
    modifies stream
    ensures stream.data == old(stream.data) + DownWire(arriving)
    ensures (forall i | 0 <= i < |arriving| :: |arriving[i]| <= 65535) ==>
              Frames(UdpParse, stream.data[|old(stream.data)|..]) == Datagrams(arriving)
  {
    for k := 0 to |arriving|
      invariant stream.data == old(stream.data) + DownWire(arriving[..k])
    {
      var d := arriving[k];
      assert arriving[..k + 1][..k] == arriving[..k];
      Regroup(old(stream.data), DownWire(arriving[..k]), ServerWire(d));
      hide PutU16;
      if |d| <= 0 {
        continue;
      }
      Regroup(stream.data, PutU16(|d|), d);
      stream.Write(PutU16(|d|));
      stream.Write(d);
    }
    assert arriving[..|arriving|] == arriving;
    if forall i | 0 <= i < |arriving| :: |arriving[i]| <= 65535 {
      DownWireFrames(arriving);
      assert stream.data[|old(stream.data)|..] == DownWire(arriving);
    }
  }
}
