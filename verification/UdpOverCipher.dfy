/**
 * Datagrams through the cipher: udpTunnel.Write (pkg/client/proxy.go:741-757) makes two writes to ssAEAD, the length
 * and the bytes, and ssAEAD refuses a write of more than 65519 bytes after the length has gone out.
 */
module UdpOverCipher {
  import opened Bytes
  import opened Framing
  import opened Padding
  import Udp = UdpTunnel
  import SS = Shadowsocks

  /** What one write to ssAEAD draws at random. */
  datatype Draw = Draw(nonce: Data, pad1: Data, pad2: Data)

  /** A datagram that the client writes, or one read at the server's end of the cipher. */
  datatype Step = Datagram(p: Data, len: Draw, body: Draw) | Recv(cap: nat)

  function Send(p: Data, d: Draw): SS.Step {
    SS.Send(p, d.nonce, d.pad1, d.pad2)
  }

  /** The steps of the tunnel below; after a refused body the client goes on with its next datagram. */
  function Below(s: Step): seq<SS.Step> {
    match s
    case Recv(cap) => [SS.Recv(cap)]
    case Datagram(p, len, body) =>
      if p == [] then [] else [Send(PutU16(|Udp.Cut(p)|), len), Send(Udp.Cut(p), body)]
  }

  function AllBelow(steps: seq<Step>): seq<SS.Step> {
    if steps == [] then [] else AllBelow(steps[..|steps| - 1]) + Below(steps[|steps| - 1])
  }

  /** The datagrams that the client wrote. */
  function Written(steps: seq<Step>): seq<Data> {
    if steps == [] then [] else
    var s := steps[|steps| - 1];
    Written(steps[..|steps| - 1]) + (if s.Datagram? && s.p != [] then [s.p] else [])
  }

  /** The bytes that the cipher accepts of one step. */
  function Accepted(s: Step): Data {
    if s.Recv? || s.p == [] then []
    else PutU16(|Udp.Cut(s.p)|) + (if |s.p| <= SS.MAX_PLAIN then s.p else [])
  }

  function AllAccepted(steps: seq<Step>): Data {
    if steps == [] then [] else AllAccepted(steps[..|steps| - 1]) + Accepted(steps[|steps| - 1])
  }

  ghost predicate LegalDraw(lo: int, hi: int, d: Draw) {
    |d.nonce| == SS.NONCE_SIZE && PadLen(lo, hi, |d.pad1|) && PadLen(lo, hi, |d.pad2|)
  }

  ghost predicate Legal(lo: int, hi: int, s: Step) {
    s.Datagram? ==> LegalDraw(lo, hi, s.len) && LegalDraw(lo, hi, s.body)
  }

  ghost predicate AllLegal(lo: int, hi: int, steps: seq<Step>) {
    forall i | 0 <= i < |steps| :: Legal(lo, hi, steps[i])
  }

  lemma LegalMore(lo: int, hi: int, steps: seq<Step>)
    requires AllLegal(lo, hi, steps) && steps != []
    ensures var s := steps[|steps| - 1];
            && AllLegal(lo, hi, steps[..|steps| - 1]) && Legal(lo, hi, s)
            && (s.Datagram? ==> |s.len.nonce| == |s.body.nonce| == SS.NONCE_SIZE)
  {
  }

  predicate Fits(s: Step) {
    s.Datagram? ==> |s.p| <= SS.MAX_PLAIN
  }

  predicate AllFit(steps: seq<Step>) {
    forall i | 0 <= i < |steps| :: Fits(steps[i])
  }

  // ---------------------------------------------------------------- what goes through the cipher

  lemma RunAppend(a: SS.Aead, framed: bool, steps: seq<SS.Step>, s: SS.Step)
    ensures SS.TunnelRun(a, framed, steps + [s]) == SS.TunnelStep(a, SS.TunnelRun(a, framed, steps), s)
  {
    assert (steps + [s])[..|steps|] == steps;
  }

  lemma SendStep(a: SS.Aead, t: SS.Tunnel, p: Data, d: Draw)
    requires SS.Lawful(a) && |d.nonce| == SS.NONCE_SIZE
    ensures SS.TunnelStep(a, t, Send(p, d)).sent == t.sent + (if |p| <= SS.MAX_PLAIN then p else [])
  {
    SS.RefusedExactly(a, d.nonce, p);
  }

  lemma {:induction false} SentBelow(a: SS.Aead, lo: int, hi: int, framed: bool, steps: seq<Step>)
    requires SS.Lawful(a) && AllLegal(lo, hi, steps)
    ensures SS.TunnelRun(a, framed, AllBelow(steps)).sent == AllAccepted(steps)
  {
    if steps != [] {
      var n := |steps| - 1;
      LegalMore(lo, hi, steps);
      hide SS.TunnelRun, SS.Lawful, Below, Accepted, Legal, AllLegal;
      SentBelow(a, lo, hi, framed, steps[..n]);
      StepBelow(a, framed, AllBelow(steps[..n]), steps[n]);
    }
  }

  lemma {:induction false} AllBelowLegal(lo: int, hi: int, steps: seq<Step>)
    requires AllLegal(lo, hi, steps)
    ensures forall i | 0 <= i < |AllBelow(steps)| :: SS.Legal(lo, hi, AllBelow(steps)[i])
  {
    if steps != [] {
      LegalMore(lo, hi, steps);
      hide Below, Legal, SS.Legal, AllLegal;
      AllBelowLegal(lo, hi, steps[..|steps| - 1]);
      BelowLegal(lo, hi, steps[|steps| - 1]);
    }
  }

  lemma BelowLegal(lo: int, hi: int, s: Step)
    requires Legal(lo, hi, s)
    ensures forall i | 0 <= i < |Below(s)| :: SS.Legal(lo, hi, Below(s)[i])
  {
    hide PadLen, Udp.Cut;
  }

  /** Two writes, of which the second may be refused. */
  lemma TwoSends(a: SS.Aead, framed: bool, before: seq<SS.Step>, h: Data, len: Draw, p: Data, body: Draw)
    requires SS.Lawful(a) && |len.nonce| == |body.nonce| == SS.NONCE_SIZE && |h| <= SS.MAX_PLAIN
    ensures SS.TunnelRun(a, framed, before + [Send(h, len), Send(p, body)]).sent
         == SS.TunnelRun(a, framed, before).sent + (h + (if |p| <= SS.MAX_PLAIN then p else []))
  {
    hide SS.Lawful, SS.TunnelRun, SS.TunnelStep;
    var t := SS.TunnelRun(a, framed, before);
    var one, two := Send(h, len), Send(p, body);
    RunAppend(a, framed, before, one);
    RunAppend(a, framed, before + [one], two);
    assert before + [one, two] == (before + [one]) + [two];
    SendStep(a, t, h, len);
    SendStep(a, SS.TunnelRun(a, framed, before + [one]), p, body);
    Regroup(t.sent, h, if |p| <= SS.MAX_PLAIN then p else []);
  }

  lemma RecvStep(a: SS.Aead, framed: bool, before: seq<SS.Step>, cap: nat)
    ensures SS.TunnelRun(a, framed, before + [SS.Recv(cap)]).sent == SS.TunnelRun(a, framed, before).sent
  {
    RunAppend(a, framed, before, SS.Recv(cap));
    hide SS.TunnelRun;
  }

  lemma StepBelow(a: SS.Aead, framed: bool, before: seq<SS.Step>, s: Step)
    requires SS.Lawful(a) && (s.Datagram? ==> |s.len.nonce| == |s.body.nonce| == SS.NONCE_SIZE)
    ensures SS.TunnelRun(a, framed, before + Below(s)).sent == SS.TunnelRun(a, framed, before).sent + Accepted(s)
  {
    hide SS.Lawful, SS.TunnelRun;
    var t := SS.TunnelRun(a, framed, before);
    assert t.sent + [] == t.sent && before + [] == before;
    if s.Recv? {
      RecvStep(a, framed, before, s.cap);
    } else if s.p != [] {
      CutFits(s.p);
      TwoSends(a, framed, before, PutU16(|Udp.Cut(s.p)|), s.len, Udp.Cut(s.p), s.body);
    }
  }

  lemma CutFits(p: Data)
    ensures |Udp.Cut(p)| <= SS.MAX_PLAIN <==> |p| <= SS.MAX_PLAIN
    ensures |p| <= SS.MAX_PLAIN ==> Udp.Cut(p) == p
  {
  }

  // ---------------------------------------------------------------- what the server makes of it

  lemma {:induction false} FittingFrames(steps: seq<Step>)
    requires AllFit(steps)
    ensures Tail(Udp.UdpParse, AllAccepted(steps)) == []
    ensures Udp.Datagrams(Frames(Udp.UdpParse, AllAccepted(steps))) == Written(steps)
  {
    hide Udp.UdpParse, PutU16, Frames, Tail;
    if steps == [] {
      EmptyWire();
    } else {
      var n := |steps| - 1;
      var w, s := AllAccepted(steps[..n]), steps[n];
      FittingFrames(steps[..n]);
      if s.Datagram? && s.p != [] {
        CutFits(s.p);
        Udp.AppendFrame(w, s.p);
        Udp.DatagramsAppend(Frames(Udp.UdpParse, w), [s.p]);
      } else {
        assert w + [] == w;
      }
    }
  }

  lemma EmptyWire()
    ensures Frames(Udp.UdpParse, []) == [] && Tail(Udp.UdpParse, []) == []
  {
    FirstFrame(Udp.UdpParse, []);
  }

  /** The bytes that datagrams take on a stream. */
  function Cost(ds: seq<Data>): nat {
    if ds == [] then 0 else Cost(ds[..|ds| - 1]) + 2 + |ds[|ds| - 1]|
  }

  lemma {:induction false} CostCons(d: Data, ds: seq<Data>)
    ensures Cost([d] + ds) == 2 + |d| + Cost(ds)
  {
    var all := [d] + ds;
    if ds == [] {
      assert all[..0] == [];
    } else {
      CostCons(d, ds[..|ds| - 1]);
      assert all[..|all| - 1] == [d] + ds[..|ds| - 1];
    }
  }

  lemma {:induction false} FramesCost(w: Data)
    ensures Cost(Udp.Datagrams(Frames(Udp.UdpParse, w))) <= |w|
    decreases |w|
  {
    FirstFrame(Udp.UdpParse, w);
    if Udp.UdpParse(w).Frame? {
      var d, rest := Udp.UdpParse(w).payload, Udp.UdpParse(w).rest;
      assert |w| == 2 + |d| + |rest|;
      FramesCost(rest);
      CostCons(d, Udp.Datagrams(Frames(Udp.UdpParse, rest)));
      hide Udp.UdpParse;
      assert ([d] + Frames(Udp.UdpParse, rest))[1..] == Frames(Udp.UdpParse, rest);
    }
  }

  lemma AllFitStep(steps: seq<Step>)
    requires steps != []
    ensures AllFit(steps) <==> AllFit(steps[..|steps| - 1]) && Fits(steps[|steps| - 1])
  {
    var n := |steps| - 1;
    if AllFit(steps[..n]) && Fits(steps[n]) {
      assert forall i | 0 <= i < n :: steps[..n][i] == steps[i];
    }
  }

  /** A step adds to the cost of the datagrams what it adds to the stream, and more if the body is refused. */
  lemma StepCost(ds: seq<Data>, s: Step)
    ensures var ds' := ds + (if s.Datagram? && s.p != [] then [s.p] else []);
            && Cost(ds) + |Accepted(s)| <= Cost(ds')
            && (Cost(ds) + |Accepted(s)| == Cost(ds') <==> Fits(s))
  {
    if s.Datagram? && s.p != [] {
      assert (ds + [s.p])[..|ds|] == ds;
    } else {
      assert ds + [] == ds;
    }
  }

  lemma {:induction false} WrittenCost(steps: seq<Step>)
    ensures |AllAccepted(steps)| <= Cost(Written(steps))
    ensures |AllAccepted(steps)| == Cost(Written(steps)) <==> AllFit(steps)
  {
    if steps != [] {
      hide AllFit, Fits, Accepted, Cost;
      WrittenCost(steps[..|steps| - 1]);
      AllFitStep(steps);
      StepCost(Written(steps[..|steps| - 1]), steps[|steps| - 1]);
    }
  }

  /**
   * In every run of datagrams and reads through the cipher, with any sizes, nonces and paddings: no byte the cipher
   * accepted is lost, and the datagrams the server makes of them are those the client wrote, in order and with their
   * boundaries, if and only if none has more than 65519 bytes. What it has read so far is then a prefix of them.
   */
  lemma DatagramsExactly(a: SS.Aead, lo: int, hi: int, steps: seq<Step>)
    requires SS.Lawful(a) && lo <= MAX_FRAME && AllLegal(lo, hi, steps)
    ensures var t := SS.TunnelRun(a, hi > 0, AllBelow(steps));
            var stream := t.got + SS.SsPending(a, t.link);
            && SS.Sound(a, t)
            && (Udp.Datagrams(Frames(Udp.UdpParse, stream)) == Written(steps) <==> AllFit(steps))
            && (AllFit(steps) ==> Udp.Datagrams(Frames(Udp.UdpParse, t.got)) <= Written(steps))
  {
    var t := SS.TunnelRun(a, hi > 0, AllBelow(steps));
    SentBelow(a, lo, hi, hi > 0, steps);
    AllBelowLegal(lo, hi, steps);
    SS.TunnelConserves(a, lo, hi, AllBelow(steps));
    var stream := t.got + SS.SsPending(a, t.link);
    hide SS.TunnelRun, SS.Legal, Legal, SS.Lawful, SS.SsWhole, NonEmpty, SS.SsPending, Frames, Udp.UdpParse, AllFit;
    assert stream == AllAccepted(steps);
    WrittenCost(steps);
    FramesCost(stream);
    if AllFit(steps) {
      FittingFrames(steps);
      PrefixDatagrams(t.got, SS.SsPending(a, t.link));
    }
  }

  lemma PrefixDatagrams(w: Data, x: Data)
    ensures Udp.Datagrams(Frames(Udp.UdpParse, w)) <= Udp.Datagrams(Frames(Udp.UdpParse, w + x))
  {
    Udp.UdpParseIncremental();
    hide Udp.UdpParse;
    FramesAppend(Udp.UdpParse, w, x);
    Udp.DatagramsAppend(Frames(Udp.UdpParse, w), Frames(Udp.UdpParse, Tail(Udp.UdpParse, w) + x));
  }

  // ---------------------------------------------------------------- the way back

  /** The server's loop has ended: the body of a datagram was refused. */
  predicate Stopped(steps: seq<Step>) {
    exists i :: 0 <= i < |steps| && !Fits(steps[i])
  }

  /** One step on the way back, where nothing is cut; a stopped loop writes no more. */
  function BackBelow(stopped: bool, s: Step): seq<SS.Step> {
    match s
    case Recv(cap) => [SS.Recv(cap)]
    case Datagram(p, len, body) =>
      if stopped || p == [] then [] else [Send(PutU16(|p|), len), Send(p, body)]
  }

  function AllBack(steps: seq<Step>): seq<SS.Step> {
    if steps == [] then [] else
    var before := steps[..|steps| - 1];
    AllBack(before) + BackBelow(Stopped(before), steps[|steps| - 1])
  }

  function BackAccepted(stopped: bool, s: Step): Data {
    if s.Recv? || stopped || s.p == [] then [] else PutU16(|s.p|) + (if |s.p| <= SS.MAX_PLAIN then s.p else [])
  }

  function AllBackAccepted(steps: seq<Step>): Data {
    if steps == [] then [] else
    var before := steps[..|steps| - 1];
    AllBackAccepted(before) + BackAccepted(Stopped(before), steps[|steps| - 1])
  }

  /** The non-empty datagrams before the first one that the cipher refuses. */
  function BeforeRefused(steps: seq<Step>): seq<Data> {
    if steps == [] then [] else
    var before, s := steps[..|steps| - 1], steps[|steps| - 1];
    BeforeRefused(before) + (if s.Datagram? && s.p != [] && !Stopped(before) && Fits(s) then [s.p] else [])
  }

  lemma StoppedMore(steps: seq<Step>)
    requires steps != []
    ensures Stopped(steps) <==> Stopped(steps[..|steps| - 1]) || !Fits(steps[|steps| - 1])
  {
    var before := steps[..|steps| - 1];
    hide Fits;
    if Stopped(before) {
      var i :| 0 <= i < |before| && !Fits(before[i]);
      assert !Fits(steps[i]);
    }
    if Stopped(steps) {
      var i :| 0 <= i < |steps| && !Fits(steps[i]);
      assert i < |before| ==> before[i] == steps[i];
    }
  }

  lemma {:induction false} SentBack(a: SS.Aead, lo: int, hi: int, framed: bool, steps: seq<Step>)
    requires SS.Lawful(a) && AllLegal(lo, hi, steps)
    ensures SS.TunnelRun(a, framed, AllBack(steps)).sent == AllBackAccepted(steps)
    ensures forall i | 0 <= i < |AllBack(steps)| :: SS.Legal(lo, hi, AllBack(steps)[i])
  {
    if steps != [] {
      var n := |steps| - 1;
      LegalMore(lo, hi, steps);
      BackLegal(lo, hi, Stopped(steps[..n]), steps[n]);
      hide SS.TunnelRun, SS.Lawful, BackBelow, BackAccepted, Legal, SS.Legal, Stopped, AllLegal;
      SentBack(a, lo, hi, framed, steps[..n]);
      StepBack(a, framed, AllBack(steps[..n]), Stopped(steps[..n]), steps[n]);
    }
  }

  lemma BackLegal(lo: int, hi: int, stopped: bool, s: Step)
    requires Legal(lo, hi, s)
    ensures forall i | 0 <= i < |BackBelow(stopped, s)| :: SS.Legal(lo, hi, BackBelow(stopped, s)[i])
  {
    hide PadLen;
  }

  lemma StepBack(a: SS.Aead, framed: bool, before: seq<SS.Step>, stopped: bool, s: Step)
    requires SS.Lawful(a) && (s.Datagram? ==> |s.len.nonce| == |s.body.nonce| == SS.NONCE_SIZE)
    ensures SS.TunnelRun(a, framed, before + BackBelow(stopped, s)).sent
         == SS.TunnelRun(a, framed, before).sent + BackAccepted(stopped, s)
  {
    hide SS.Lawful, SS.TunnelRun;
    var t := SS.TunnelRun(a, framed, before);
    assert t.sent + [] == t.sent && before + [] == before;
    if s.Recv? {
      RecvStep(a, framed, before, s.cap);
    } else if !stopped && s.p != [] {
      TwoSends(a, framed, before, PutU16(|s.p|), s.len, s.p, s.body);
    }
  }

  /** A length without its body makes no datagram. */
  lemma LoneLength(w: Data, n: nat)
    requires Tail(Udp.UdpParse, w) == []
    ensures Udp.Datagrams(Frames(Udp.UdpParse, w + PutU16(n))) == Udp.Datagrams(Frames(Udp.UdpParse, w))
  {
    var h := PutU16(n);
    Udp.UdpParseIncremental();
    FramesAppend(Udp.UdpParse, w, h);
    assert Tail(Udp.UdpParse, w) + h == h;
    FirstFrame(Udp.UdpParse, h);
    FirstFrame(Udp.UdpParse, []);
    var fs := Frames(Udp.UdpParse, h);
    assert Udp.UdpParse(h).Frame? ==> Udp.UdpParse(h) == Frame([], []);
    assert fs == [] || fs == [[]];
    Udp.DatagramsAppend(Frames(Udp.UdpParse, w), fs);
  }

  lemma {:induction false} BackFrames(steps: seq<Step>)
    ensures Udp.Datagrams(Frames(Udp.UdpParse, AllBackAccepted(steps))) == BeforeRefused(steps)
    ensures !Stopped(steps) ==> Tail(Udp.UdpParse, AllBackAccepted(steps)) == []
  {
    hide Udp.UdpParse, PutU16, Frames, Tail, Stopped;
    if steps == [] {
      EmptyWire();
    } else {
      var n := |steps| - 1;
      var w, s := AllBackAccepted(steps[..n]), steps[n];
      BackFrames(steps[..n]);
      StoppedMore(steps);
      assert w + [] == w;
      if s.Datagram? && s.p != [] && !Stopped(steps[..n]) {
        if Fits(s) {
          Udp.AppendFrame(w, s.p);
          Udp.DatagramsAppend(Frames(Udp.UdpParse, w), [s.p]);
        } else {
          LoneLength(w, |s.p|);
          assert PutU16(|s.p|) + [] == PutU16(|s.p|);
        }
      }
    }
  }

  lemma {:induction false} AllArrive(steps: seq<Step>)
    ensures BeforeRefused(steps) == Written(steps) || |BeforeRefused(steps)| < |Written(steps)|
    ensures BeforeRefused(steps) == Written(steps) <==> !Stopped(steps)
    ensures |BeforeRefused(steps)| <= |Written(steps)|
  {
    if steps != [] {
      AllArrive(steps[..|steps| - 1]);
      StoppedMore(steps);
    }
  }

  /**
   * In every run of datagrams from the target and reads of the client: no byte the cipher accepted is lost, and the
   * client gets, in order and with their boundaries, exactly the datagrams before the first one of more than 65519
   * bytes, hence all of them if and only if there is none. What it has read so far is a prefix.
   */
  lemma DatagramsBackExactly(a: SS.Aead, lo: int, hi: int, steps: seq<Step>)
    requires SS.Lawful(a) && lo <= MAX_FRAME && AllLegal(lo, hi, steps)
    ensures var t := SS.TunnelRun(a, hi > 0, AllBack(steps));
            && SS.Sound(a, t)
            && Udp.Datagrams(Frames(Udp.UdpParse, t.got + SS.SsPending(a, t.link))) == BeforeRefused(steps)
            && Udp.Datagrams(Frames(Udp.UdpParse, t.got)) <= BeforeRefused(steps)
            && (BeforeRefused(steps) == Written(steps) <==> AllFit(steps))
  {
    var t := SS.TunnelRun(a, hi > 0, AllBack(steps));
    SentBack(a, lo, hi, hi > 0, steps);
    SS.TunnelConserves(a, lo, hi, AllBack(steps));
    hide SS.TunnelRun, SS.Legal, Legal, SS.Lawful, SS.SsWhole, NonEmpty, SS.SsPending, Frames, Udp.UdpParse, Fits;
    BackFrames(steps);
    AllArrive(steps);
    PrefixDatagrams(t.got, SS.SsPending(a, t.link));
  }
}
