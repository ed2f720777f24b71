/**
 * From the first bytes of a proxy stream to the tunnel: what the server's opening look and the OBFS negotiation leave
 * the two ends with, and when the tunnel between them carries every byte.
 */
module EndToEnd {
  import opened Bytes
  import Framing
  import Handover
  import Obfs
  import Opening
  import Padding
  import SS = Shadowsocks
  import Text

  /** The bounds of the padding layer of a stack, (0, 0) without one. */
  function PaddingBounds(layers: seq<Obfs.Layer>): (int, int) {
    if layers == [] then (0, 0)
    else if layers[0].Padding? then (layers[0].lo, layers[0].hi)
    else PaddingBounds(layers[1..])
  }

  lemma {:induction false} BoundsAppend(xs: seq<Obfs.Layer>, ys: seq<Obfs.Layer>)
    requires forall i | 0 <= i < |xs| :: !xs[i].Padding?
    ensures PaddingBounds(xs + ys) == PaddingBounds(ys)
  {
    if xs == [] {
      assert xs + ys == ys;
    } else {
      BoundsAppend(xs[1..], ys);
      assert (xs + ys)[1..] == xs[1..] + ys;
    }
  }

  /** The bounds of the delay layer of a stack, (0, 0) without one. */
  function DelayBounds(layers: seq<Obfs.Layer>): (int, int) {
    if layers == [] then (0, 0)
    else if layers[0].Delay? then (layers[0].lo, layers[0].hi)
    else DelayBounds(layers[1..])
  }

  lemma {:induction false} DelaysAppend(xs: seq<Obfs.Layer>, ys: seq<Obfs.Layer>)
    requires forall i | 0 <= i < |xs| :: !xs[i].Delay?
    ensures DelayBounds(xs + ys) == DelayBounds(ys)
  {
    if xs == [] {
      assert xs + ys == ys;
    } else {
      DelaysAppend(xs[1..], ys);
      assert (xs + ys)[1..] == xs[1..] + ys;
    }
  }

  /** A delay layer is there if and only if a positive maximum is asked for, on whichever side of the cipher. */
  lemma DelaysOfLayers(p: Obfs.ObfsParams, cipher: bool)
    ensures var want := if p.delayMax > 0 then (p.delayMin, p.delayMax) else (0, 0);
            && DelayBounds(Obfs.ObfsLayers(p) + Obfs.CipherLayers(cipher)) == want
            && DelayBounds(Obfs.CipherLayers(cipher) + Obfs.ObfsLayers(p)) == want
  {
    var ss, all := Obfs.CipherLayers(cipher), Obfs.ObfsLayers(p);
    var pad: seq<Obfs.Layer> := if p.paddingMax > 0 then [Obfs.Padding(p.paddingMin, p.paddingMax)] else [];
    var delay: seq<Obfs.Layer> := if p.delayMax > 0 then [Obfs.Delay(p.delayMin, p.delayMax)] else [];
    assert all == pad + delay;
    DelaysAppend(ss, all);
    DelaysAppend(pad, delay);
    DelaysAppend(pad, delay + ss);
    DelaysAppend(ss, []);
    assert ss + [] == ss;
    assert all + ss == pad + (delay + ss);
    if p.delayMax > 0 {
      assert (delay + ss)[0] == delay[0];
    } else {
      assert delay + ss == ss;
    }
  }

  /** The delays of both ends: the agreed ones when the reply is accepted, else each side's own. */
  lemma DelaysOfDial(d: Obfs.Durations, server: Obfs.ObfsParams, client: Obfs.ObfsParams, cipher: bool)
    requires Obfs.Lawful(d) && Obfs.WellFormed(client) && Obfs.Fits64(server)
    ensures var (s, c) := Obfs.Dial(d, server, client, cipher);
            var a, asks := Obfs.AgreeObfs(server, client), client.paddingMax > 0 || client.delayMax > 0;
            var agreed := if a.delayMax > 0 then (a.delayMin, a.delayMax) else (0, 0);
            && (asks ==> DelayBounds(s) == agreed)
            && (asks && Obfs.MinimaFit(server, client) ==> DelayBounds(c) == agreed)
            && (!asks ==>
                  && DelayBounds(s) == (if server.delayMax > 0 then (server.delayMin, server.delayMax) else (0, 0))
                  && DelayBounds(c) == (0, 0))
            && (asks && !Obfs.MinimaFit(server, client) ==>
                  DelayBounds(c) == if client.delayMax > 0 then (client.delayMin, client.delayMax) else (0, 0))
  {
    var a := Obfs.AgreeObfs(server, client);
    Obfs.DialStacks(d, server, client, cipher);
    DelaysOfLayers(a, cipher);
    DelaysOfLayers(server, cipher);
    DelaysOfLayers(client, cipher);
    DelaysAppend(Obfs.CipherLayers(cipher), []);
    hide Obfs.Dial, Obfs.AgreeObfs, Obfs.ObfsLayers, Obfs.Lawful, Obfs.MinimaFit, Obfs.Fits64, Obfs.WellFormed;
    assert Obfs.CipherLayers(cipher) + [] == Obfs.CipherLayers(cipher);
  }

  lemma BoundsOfLayers(p: Obfs.ObfsParams, cipher: bool)
    ensures var want := if p.paddingMax > 0 then (p.paddingMin, p.paddingMax) else (0, 0);
            && PaddingBounds(Obfs.ObfsLayers(p) + Obfs.CipherLayers(cipher)) == want
            && PaddingBounds(Obfs.CipherLayers(cipher) + Obfs.ObfsLayers(p)) == want
            && PaddingBounds(Obfs.CipherLayers(cipher)) == (0, 0)
  {
    var ss, all := Obfs.CipherLayers(cipher), Obfs.ObfsLayers(p);
    BoundsAppend(ss, all);
    BoundsAppend(ss, []);
    assert ss + [] == ss;
    if p.paddingMax > 0 {
      assert (all + ss)[0] == all[0];
    } else {
      BoundsAppend(all, ss);
      BoundsAppend(all, []);
      assert all + [] == all;
    }
  }

  /** The server's stack after the look, and the bytes it reads from; a request line skips the cipher. */
  function ServerOpens(u: Opening.Utf8, d: Obfs.Durations, server: Obfs.ObfsParams, l: Opening.Look, cipher: bool):
    (seq<Obfs.Layer>, Data)
    requires l.Seen?
  {
    match l.kind
    case ObfsLine => (Obfs.ServerStack(d, server, Some(u.decode(l.line)), cipher), Opening.Stream(l))
    case RequestLine => (Obfs.ObfsLayers(server), Opening.Stream(l))
    case Replay => (Obfs.ServerStack(d, server, None, cipher), Opening.Stream(l))
  }

  /**
   * A stream that starts with a request line is read without the cipher, through the server's own padding and delays if
   * it has them, from behind that line.
   */
  lemma RequestOpens(u: Opening.Utf8, d: Obfs.Durations, server: Obfs.ObfsParams, l: Opening.Look, cipher: bool)
    requires l.Seen? && l.kind == Opening.RequestLine
    ensures var (s, stream) := ServerOpens(u, d, server, l, cipher);
            && stream == l.below
            && Obfs.ByteKinds(s) == (if server.paddingMax > 0 then [false] else [])
            && PaddingBounds(s) == (if server.paddingMax > 0 then (server.paddingMin, server.paddingMax) else (0, 0))
            && DelayBounds(s) == (if server.delayMax > 0 then (server.delayMin, server.delayMax) else (0, 0))
  {
    var all := Obfs.ObfsLayers(server);
    Obfs.KindsOfLayers(server, false);
    BoundsOfLayers(server, false);
    DelaysOfLayers(server, false);
    assert all + Obfs.CipherLayers(false) == all;
  }

  // ---------------------------------------------------------------- a client that asks for OBFS

  /** The padding both ends use: the agreed bounds if both want padding, else none. */
  function SharedBounds(server: Obfs.ObfsParams, client: Obfs.ObfsParams): (int, int) {
    var a := Obfs.AgreeObfs(server, client);
    if a.paddingMax > 0 then (a.paddingMin, a.paddingMax) else (0, 0)
  }

  /** The kinds of a padding layer, if there is one, below the cipher: the stack that SS.TunnelRun models. */
  function BelowCipher(padded: bool): seq<bool> {
    (if padded then [false] else []) + [true]
  }

  /** Fitting parameters give both ends the padding layer below the cipher, with the same bounds. */
  lemma AskingStacks(d: Obfs.Durations, server: Obfs.ObfsParams, client: Obfs.ObfsParams)
    requires Obfs.Lawful(d) && Obfs.WellFormed(client) && Obfs.Fits64(server)
    requires Obfs.Asks(client) && (Obfs.MinimaFit(server, client) || client.paddingMax == 0)
    ensures var (s, c) := Obfs.Dial(d, server, client, true);
            var bounds := SharedBounds(server, client);
            && Obfs.ByteKinds(s) == Obfs.ByteKinds(c) == BelowCipher(bounds.1 > 0)
            && PaddingBounds(s) == PaddingBounds(c) == bounds
  {
    var agreed := Obfs.AgreeObfs(server, client);
    Obfs.DialStacks(d, server, client, true);
    Obfs.AgreeWithinBoth(server, client);
    Obfs.KindsOfLayers(agreed, true);
    Obfs.KindsOfLayers(client, true);
    BoundsOfLayers(agreed, true);
    BoundsOfLayers(client, true);
    hide Obfs.Dial, Obfs.ByteKinds, Obfs.AgreeObfs, Obfs.ObfsLayers, Obfs.CipherLayers, PaddingBounds, Obfs.Lawful;
    hide Obfs.MinimaFit, Obfs.Fits64, Obfs.Kept, Obfs.WellFormed;
    assert [true] + [] == [true] && [] + [true] == [true];
  }

  /**
   * However the asking line arrives, the server reads it whole, loses nothing, and builds the stack of the dial; it
   * waits only for raw reads.
   */
  lemma LineArrives(u: Opening.Utf8, d: Obfs.Durations, server: Obfs.ObfsParams, client: Obfs.ObfsParams,
                    chunks: seq<nat>)
    requires Opening.Lawful(u) && Obfs.Lawful(d) && Obfs.WellFormed(client) && Obfs.Asks(client)
    ensures var line := u.encode(Obfs.FormatObfsLine(d, client));
            var l := Opening.LookAt(line, chunks);
            && (l.Pending? || OpensAs(u, d, server, l, Obfs.Dial(d, server, client, true).0))
            && (|chunks| > |line| ==> !l.Pending?)
  {
    Opening.ObfsLineShape(u, d, client);
    AskedServer(d, server, client);
    hide *;
    var line := u.encode(Obfs.FormatObfsLine(d, client));
    Opening.AskedLook(line, chunks);
    OpensWithObfs(u, d, server, line);
  }

  /** The look has ended with this stack above a stream of which nothing has been lost or left behind. */
  ghost predicate OpensAs(u: Opening.Utf8, d: Obfs.Durations, server: Obfs.ObfsParams, l: Opening.Look,
                          stack: seq<Obfs.Layer>)
  {
    l.Seen? && l.lost == [] && ServerOpens(u, d, server, l, true) == (stack, [])
  }

  /** However a reply arrives, the client reads it whole and loses nothing; it waits only for raw reads. */
  lemma ReplyArrives(u: Opening.Utf8, d: Obfs.Durations, p: Obfs.ObfsParams, replies: seq<nat>)
    requires Opening.Lawful(u) && Obfs.Lawful(d) && p.delayMin <= Text.MAX_INT && p.delayMax <= Text.MAX_INT
    ensures var reply := u.encode(Obfs.FormatObfsLine(d, p));
            var r := Handover.ReadLine(Handover.Raw(reply), [], [], 0, replies);
            && (r.Waiting? || r == Handover.Line(reply, [], Handover.Raw([]), true))
            && (|replies| > |reply| ==> !r.Waiting?)
  {
    Opening.ObfsLineShape(u, d, p);
    hide *;
    var reply := u.encode(Obfs.FormatObfsLine(d, p));
    assert [] + reply == reply;
    Opening.OneLineRead(reply, [], reply, replies);
  }

  lemma AgreedDelays(server: Obfs.ObfsParams, client: Obfs.ObfsParams)
    requires Obfs.WellFormed(client) && Obfs.Fits64(server)
    ensures var a := Obfs.AgreeObfs(server, client); a.delayMin <= Text.MAX_INT && a.delayMax <= Text.MAX_INT
  {
  }

  lemma AskedServer(d: Obfs.Durations, server: Obfs.ObfsParams, client: Obfs.ObfsParams)
    requires Obfs.Asks(client)
    ensures Obfs.Dial(d, server, client, true).0
         == Obfs.ServerStack(d, server, Some(Obfs.FormatObfsLine(d, client)), true)
  {
    hide Obfs.ServerStack, Obfs.FormatObfsLine;
  }

  lemma OpensWithObfs(u: Opening.Utf8, d: Obfs.Durations, server: Obfs.ObfsParams, line: Data)
    ensures OpensAs(u, d, server, Opening.Seen(Opening.ObfsLine, line, [], []),
                    Obfs.ServerStack(d, server, Some(u.decode(line)), true))
  {
    hide Obfs.ServerStack;
  }

  /**
   * A dial with the cipher by a client that asks for OBFS, with parameters that fit: the server's opening look takes
   * exactly the client's line and the client exactly the reply, both ends build the padding layer below the cipher
   * with the same bounds, and in either direction every run of writes and reads, with paddings drawn from these
   * bounds, conserves the bytes.
   */
  lemma AskingEndsCarryBytes(u: Opening.Utf8, d: Obfs.Durations, server: Obfs.ObfsParams, client: Obfs.ObfsParams,
                             chunks: seq<nat>, replies: seq<nat>, a: SS.Aead, steps: seq<SS.Step>)
    requires Opening.Lawful(u) && Obfs.Lawful(d) && Obfs.WellFormed(client) && Obfs.Fits64(server) && SS.Lawful(a)
    requires Obfs.Asks(client) && (Obfs.MinimaFit(server, client) || client.paddingMax == 0)
    requires var (lo, hi) := SharedBounds(server, client);
             lo <= Padding.MAX_FRAME && forall i | 0 <= i < |steps| :: SS.Legal(lo, hi, steps[i])
    ensures var (s, c) := Obfs.Dial(d, server, client, true);
            var bounds := SharedBounds(server, client);
            var line := u.encode(Obfs.FormatObfsLine(d, client));
            var reply := u.encode(Obfs.FormatObfsLine(d, Obfs.AgreeObfs(server, client)));
            var l := Opening.LookAt(line, chunks);
            var r := Handover.ReadLine(Handover.Raw(reply), [], [], 0, replies);
            && (l.Pending? || OpensAs(u, d, server, l, s)) && (|chunks| > |line| ==> !l.Pending?)
            && (r.Waiting? || r == Handover.Line(reply, [], Handover.Raw([]), true))
            && (|replies| > |reply| ==> !r.Waiting?)
            && Obfs.ByteKinds(s) == Obfs.ByteKinds(c) == BelowCipher(bounds.1 > 0)
            && PaddingBounds(s) == PaddingBounds(c) == bounds
            && SS.Sound(a, SS.TunnelRun(a, bounds.1 > 0, steps))
  {
    var (lo, hi) := SharedBounds(server, client);
    AskingStacks(d, server, client);
    LineArrives(u, d, server, client, chunks);
    AgreedDelays(server, client);
    ReplyArrives(u, d, Obfs.AgreeObfs(server, client), replies);
    SS.TunnelConserves(a, lo, hi, steps);
    hide *;
  }

  // ---------------------------------------------------------------- a client that does not ask

  /** What opens has the length that sealing gives it. */
  ghost predicate SealedLength(a: SS.Aead) {
    forall nonce, c :: a.open(nonce, c).Some? ==> |c| == |a.open(nonce, c).value| + SS.TAG_SIZE
  }

  const FRAME_COST := SS.HEADER_SIZE + SS.TAG_SIZE

  lemma {:induction false} CipherCost(a: SS.Aead, w: Data)
    requires SealedLength(a)
    ensures |Framing.Payload(SS.SsParser(a), w)| + FRAME_COST * |Framing.Frames(SS.SsParser(a), w)| <= |w|
    ensures Framing.Frames(SS.SsParser(a), w) == [] ==> Framing.Payload(SS.SsParser(a), w) == []
    decreases |w|
  {
    var f := SS.SsParser(a);
    Framing.FirstFrame(f, w);
    if f(w).Frame? {
      CipherCost(a, f(w).rest);
      assert |w| == |f(w).rest| + |f(w).payload| + FRAME_COST;
      hide Framing.Payload, Framing.Frames, SS.SsParse;
    }
  }

  /** The state of a server whose cipher reads `stream` from a raw stream. */
  function Reading(stream: Data): SS.SsState {
    SS.SsState([], Padding.PadState(false, [], stream))
  }

  lemma OneFrame(a: SS.Aead, first: SS.Step)
    requires SS.Lawful(a) && SS.Legal(0, 0, first) && first.Send? && 0 < |first.p| <= SS.MAX_PLAIN
    ensures var t := SS.TunnelRun(a, false, [first]);
            && t.link == Reading(t.link.low.wire) && SS.SsPending(a, t.link) == first.p
            && |t.link.low.wire| == |first.p| + FRAME_COST && t.link.low.wire[0] == first.nonce[0]
  {
    var t := SS.TunnelRun(a, false, [first]);
    SS.TunnelConserves(a, 0, 0, [first]);
    SS.RefusedExactly(a, first.nonce, first.p);
    assert [first][..0] == [];
    assert t == SS.TunnelStep(a, SS.TunnelRun(a, false, []), first);
    assert |a.seal(first.nonce, first.p)| == |first.p| + SS.TAG_SIZE;
    hide SS.SsPending, SS.SsWhole, Framing.NonEmpty, SS.Lawful;
    assert [] + first.p == first.p && [] + SS.SsPending(a, t.link) == SS.SsPending(a, t.link);
  }

  /** A stream shorter than the frame of `p` cannot hold it. */
  lemma TooShort(a: SS.Aead, stream: Data, p: Data)
    requires SealedLength(a) && |stream| < |p| + FRAME_COST && p != []
    ensures SS.SsPending(a, Reading(stream)) != p
  {
    CipherCost(a, stream);
    var f := SS.SsParser(a);
    var n := |Framing.Frames(f, stream)|;
    assert SS.SsPending(a, Reading(stream)) == [] + Framing.Payload(f, stream) == Framing.Payload(f, stream);
    assert n >= 1 ==> FRAME_COST * n >= FRAME_COST;
  }

  lemma SilentStacks(d: Obfs.Durations, server: Obfs.ObfsParams, client: Obfs.ObfsParams)
    requires Obfs.Lawful(d) && Obfs.WellFormed(client) && Obfs.Fits64(server)
    requires !Obfs.Asks(client) && server.paddingMax <= 0
    ensures var (s, c) := Obfs.Dial(d, server, client, true);
            Obfs.ByteKinds(s) == Obfs.ByteKinds(c) == BelowCipher(false)
  {
    Obfs.DialStacks(d, server, client, true);
    Obfs.KindsOfLayers(server, true);
    Obfs.CipherKinds(true);
    hide Obfs.Dial, Obfs.ByteKinds, Obfs.ObfsLayers, Obfs.CipherLayers, Obfs.Lawful;
    assert [true] + [] == [true] && [] + [true] == [true];
  }

  lemma SilentLook(chunks: seq<nat>, a: SS.Aead, link: SS.SsState, first: SS.Step)
    requires SealedLength(a) && first.Send? && first.p != [] && first.nonce != []
    requires link == Reading(link.low.wire) && SS.SsPending(a, link) == first.p
    requires |link.low.wire| == |first.p| + FRAME_COST && link.low.wire[0] == first.nonce[0]
    ensures var l := Opening.LookAt(link.low.wire, chunks);
            var whole := l.Seen? && l.kind == Opening.Replay && l.lost == [];
            && (l.Seen? ==> (SS.SsPending(a, Reading(Opening.Stream(l))) == first.p <==> whole))
            && (whole ==> Reading(Opening.Stream(l)) == link)
            && (!Opening.TextByte(first.nonce[0]) && chunks != [] ==>
                  (whole <==> Padding.RawChunk(Handover.BUFIO_SIZE, |link.low.wire|, chunks[0]) == 1))
  {
    var wire := link.low.wire;
    var l := Opening.LookAt(wire, chunks);
    Opening.LookExactly(wire, chunks);
    if !Opening.TextByte(first.nonce[0]) && chunks != [] {
      Opening.ByteLookExactly(wire, chunks);
    }
    hide Opening.LookAt, Opening.Stream, SS.SsPending, SealedLength, Padding.RawChunk, Opening.TextByte;
    if l.Seen? && Opening.Stream(l) != wire {
      TooShort(a, Opening.Stream(l), first.p);
    }
  }

  /**
   * A client that does not ask writes its request through the cipher at once, so the server's opening look falls on a
   * cipher frame. The server's cipher can still read the request if and only if the bytes looked at are replayed and
   * none are lost, which, for a nonce that does not start like a control line, means that the first raw read brought a
   * single byte. In that case, with a server that has no padding of its own, the whole run conserves the bytes.
   */
  lemma SilentEndsExactly(d: Obfs.Durations, server: Obfs.ObfsParams, client: Obfs.ObfsParams, chunks: seq<nat>,
                          a: SS.Aead, first: SS.Step, later: seq<SS.Step>)
    requires Obfs.Lawful(d) && Obfs.WellFormed(client) && Obfs.Fits64(server) && SS.Lawful(a) && SealedLength(a)
    requires !Obfs.Asks(client) && server.paddingMax <= 0
    requires first.Send? && 0 < |first.p| <= SS.MAX_PLAIN && SS.Legal(0, 0, first)
    requires forall i | 0 <= i < |later| :: SS.Legal(0, 0, later[i])
    ensures var (s, c) := Obfs.Dial(d, server, client, true);
            Obfs.ByteKinds(s) == Obfs.ByteKinds(c) == BelowCipher(false)
    ensures var link := SS.TunnelRun(a, false, [first]).link;
            var l := Opening.LookAt(link.low.wire, chunks);
            var whole := l.Seen? && l.kind == Opening.Replay && l.lost == [];
            && (l.Seen? ==> (SS.SsPending(a, Reading(Opening.Stream(l))) == first.p <==> whole))
            && (whole ==> Reading(Opening.Stream(l)) == link)
            && (!Opening.TextByte(first.nonce[0]) && chunks != [] ==>
                  (whole <==> Padding.RawChunk(Handover.BUFIO_SIZE, |link.low.wire|, chunks[0]) == 1))
    ensures SS.Sound(a, SS.TunnelRun(a, false, [first] + later))
  {
    SilentStacks(d, server, client);
    OneFrame(a, first);
    SS.TunnelConserves(a, 0, 0, [first] + later);
    assert first.nonce != [];
    SilentLook(chunks, a, SS.TunnelRun(a, false, [first]).link, first);
    hide *;
  }
}
