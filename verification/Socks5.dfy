/**
 * The inbound SOCKS5 handler (hypernet/services/proxy/inbound/socks5.go): greeting, CONNECT request and reply as in
 * sections 3 to 6 of RFC 1928, read into one reused buffer.
 */
module Socks5 {
  import opened Bytes
  import opened Pipes

  const VERSION: Byte := 5
  const CONNECT: Byte := 1
  const ATYP_IPV4: Byte := 1
  const ATYP_DOMAIN: Byte := 3
  const ATYP_IPV6: Byte := 4
  const SUCCESS: Byte := 0
  const FAILURE: Byte := 1
  const BUFFER_SIZE := 257

  /** A destination as the handler passes it to the dialer; formatting an address as text is left to the library. */
  datatype Host = IPv4(addr: Data) | IPv6(addr: Data) | Domain(name: Data)

  /** What the outside decides: the dial, and whether the two writes go through. */
  datatype World = World(dials: (Host, nat) -> bool, methodWritten: bool, replyWritten: bool)

  /** What the handler does before tunnelling: its writes, its dial, the bytes it leaves, and whether it tunnels. */
  datatype Outcome = Outcome(writes: seq<Data>, dialed: Option<(Host, nat)>, rest: Data, tunnels: bool)

  const NO_AUTH: Data := [VERSION, 0]

  function Reply(rep: Byte): (r: Data)
    ensures r == [5, rep, 0, 1, 0, 0, 0, 0, 0, 0]
  {
    [VERSION, rep, 0, ATYP_IPV4, 0, 0, 0, 0, 0, 0]
  }

  // ---------------------------------------------------------------- what is read

  datatype Parsed<T> = Ended | Refused(left: Data) | Parsed(value: T, rest: Data)

  /** The first `k` bytes. */
  function Take(w: Data, k: nat): Parsed<Data> {
    if |w| < k then Ended else Parsed(w[..k], w[k..])
  }

  function ParseHost(atyp: Byte, w: Data): Parsed<Host> {
    if atyp == ATYP_IPV4 then
      match Take(w, 4)
      case Parsed(a, rest) => Parsed(IPv4(a), rest)
      case _ => Ended
    else if atyp == ATYP_IPV6 then
      match Take(w, 16)
      case Parsed(a, rest) => Parsed(IPv6(a), rest)
      case _ => Ended
    else if atyp == ATYP_DOMAIN then
      if w == [] then Ended
      else if w[0] == 0 then Refused(w[1..])
      else
        match Take(w[1..], w[0])
        case Parsed(a, rest) => Parsed(Domain(a), rest)
        case _ => Ended
    else
      Refused(w)
  }

  function ParseTarget(w: Data): Parsed<(Host, nat)> {
    if |w| < 4 then Ended
    else if w[0] != VERSION || w[1] != CONNECT then Refused(w[4..])
    else
      match ParseHost(w[3], w[4..])
      case Ended => Ended
      case Refused(left) => Refused(left)
      case Parsed(h, rest) => if |rest| < 2 then Ended else Parsed((h, U16(rest[..2])), rest[2..])
  }

  /** The greeting: the list of methods is read and ignored. */
  function ParseGreeting(w: Data): Parsed<Data> {
    if |w| < 2 then Ended
    else if w[0] != VERSION then Refused(w[2..])
    else Take(w[2..], w[1])
  }

  function Handle(w: Data, world: World): Outcome {
    match ParseGreeting(w)
    case Ended => Outcome([], None, [], false)
    case Refused(left) => Outcome([], None, left, false)
    case Parsed(_, w1) =>
      if !world.methodWritten then Outcome([NO_AUTH], None, w1, false) else
      match ParseTarget(w1)
      case Ended => Outcome([NO_AUTH], None, [], false)
      case Refused(left) => Outcome([NO_AUTH, Reply(FAILURE)], None, left, false)
      case Parsed((h, port), rest) =>
        if world.dials(h, port) then Outcome([NO_AUTH, Reply(SUCCESS)], Some((h, port)), rest, world.replyWritten)
        else Outcome([NO_AUTH, Reply(FAILURE)], Some((h, port)), rest, false)
  }

  // ---------------------------------------------------------------- what a client sends

  predicate WellFormed(h: Host) {
    match h
    case IPv4(a) => |a| == 4
    case IPv6(a) => |a| == 16
    case Domain(n) => 1 <= |n| <= 255
  }

  function EncodeGreeting(methods: Data): Data
    requires |methods| <= 255
  {
    [VERSION, |methods|] + methods
  }

  function EncodeHost(h: Host): Data
    requires WellFormed(h)
  {
    match h
    case IPv4(a) => [ATYP_IPV4] + a
    case IPv6(a) => [ATYP_IPV6] + a
    case Domain(n) => [ATYP_DOMAIN, |n|] + n
  }

  function EncodeRequest(h: Host, port: nat, reserved: Byte): Data
    requires WellFormed(h) && port < 0x1_0000
  {
    [VERSION, CONNECT, reserved] + EncodeHost(h) + PutU16(port)
  }

  /** The encodings of RFC 1928, byte by byte. */
  lemma EncodingExactly(h: Host, port: nat, reserved: Byte, methods: Data)
    requires WellFormed(h) && port < 0x1_0000 && |methods| <= 255
    ensures EncodeGreeting(methods) == [5, |methods|] + methods
    ensures EncodeRequest(h, port, reserved) == [5, 1, reserved] + EncodeHost(h) + PutU16(port)
    ensures EncodeHost(h) == match h
                             case IPv4(a) => [1] + a
                             case IPv6(a) => [4] + a
                             case Domain(n) => [3, |n|] + n
  {
    hide PutU16;
  }

  lemma HostRoundTrip(h: Host, x: Data)
    requires WellFormed(h)
    ensures var e := EncodeHost(h);
            e != [] && ParseHost(e[0], e[1..] + x) == Parsed(h, x)
  {
    var e := EncodeHost(h);
    var w := e[1..] + x;
    match h
    case IPv4(a) => assert w[..4] == a && w[4..] == x;
    case IPv6(a) => assert w[..16] == a && w[16..] == x;
    case Domain(n) =>
      assert w[0] == |n| && w[1..][..|n|] == n && w[1..][|n|..] == x;
  }

  lemma TargetRoundTrip(h: Host, port: nat, reserved: Byte, x: Data)
    requires WellFormed(h) && port < 0x1_0000
    ensures ParseTarget(EncodeRequest(h, port, reserved) + x) == Parsed((h, port), x)
  {
    var e, p := EncodeHost(h), PutU16(port);
    HostRoundTrip(h, p + x);
    hide ParseHost, EncodeHost, PutU16, U16, WellFormed;
    RequestLayout(e, p, reserved, x);
    assert (p + x)[..2] == p && (p + x)[2..] == x;
  }

  lemma RequestLayout(e: Data, p: Data, reserved: Byte, x: Data)
    requires e != []
    ensures var w := [VERSION, CONNECT, reserved] + e + p + x;
            |w| >= 4 && w[0] == VERSION && w[1] == CONNECT && w[3] == e[0] && w[4..] == e[1..] + (p + x)
  {
  }

  /**
   * For every greeting and CONNECT request a client may encode, and every byte string behind them, the handler dials
   * exactly the encoded host and port, consumes exactly those bytes, and replies success if and only if the dial
   * succeeded.
   */
  lemma DialsWhatWasEncoded(methods: Data, h: Host, port: nat, reserved: Byte, x: Data, world: World)
    requires |methods| <= 255 && WellFormed(h) && port < 0x1_0000 && world.methodWritten
    ensures var o := Handle(EncodeGreeting(methods) + EncodeRequest(h, port, reserved) + x, world);
            && o.dialed == Some((h, port)) && o.rest == x
            && o.writes == [NO_AUTH, Reply(if world.dials(h, port) then SUCCESS else FAILURE)]
            && (o.tunnels <==> world.dials(h, port) && world.replyWritten)
  {
    var r := EncodeRequest(h, port, reserved) + x;
    var w := EncodeGreeting(methods) + EncodeRequest(h, port, reserved) + x;
    TargetRoundTrip(h, port, reserved, x);
    GreetingRoundTrip(methods, r);
    hide ParseTarget, EncodeRequest, ParseGreeting, EncodeGreeting, Reply;
    Regroup(EncodeGreeting(methods), EncodeRequest(h, port, reserved), x);
  }

  lemma GreetingRoundTrip(methods: Data, x: Data)
    requires |methods| <= 255
    ensures ParseGreeting(EncodeGreeting(methods) + x) == Parsed(methods, x)
  {
    var w := EncodeGreeting(methods) + x;
    assert w[0] == VERSION && w[1] == |methods| && w[2..] == methods + x;
    assert (methods + x)[..|methods|] == methods && (methods + x)[|methods|..] == x;
  }

  /** And nothing else makes it dial: whatever it dials, the bytes it consumed are an encoding of that. */
  lemma DialedWasEncoded(w: Data, world: World) returns (methods: Data, reserved: Byte)
    requires Handle(w, world).dialed.Some?
    ensures var (h, port) := Handle(w, world).dialed.value;
            && |methods| <= 255 && WellFormed(h) && port < 0x1_0000
            && w == EncodeGreeting(methods) + EncodeRequest(h, port, reserved) + Handle(w, world).rest
  {
    var w1 := ParseGreeting(w).rest;
    methods, reserved := ParseGreeting(w).value, w1[2];
    var (h, port) := Handle(w, world).dialed.value;
    GreetingDecodes(w);
    TargetDecodes(w1);
    hide ParseTarget, EncodeRequest, ParseGreeting, EncodeGreeting;
    Regroup(EncodeGreeting(methods), EncodeRequest(h, port, reserved), Handle(w, world).rest);
  }

  lemma GreetingDecodes(w: Data)
    requires ParseGreeting(w).Parsed?
    ensures var Parsed(methods, rest) := ParseGreeting(w);
            |methods| <= 255 && w == EncodeGreeting(methods) + rest
  {
  }

  lemma TargetDecodes(w: Data)
    requires ParseTarget(w).Parsed?
    ensures var Parsed((h, port), rest) := ParseTarget(w);
            |w| >= 4 && WellFormed(h) && port < 0x1_0000 && w == EncodeRequest(h, port, w[2]) + rest
  {
    var Parsed((h, port), rest) := ParseTarget(w);
    HostDecodes(w[3], w[4..]);
    var tail := ParseHost(w[3], w[4..]).rest;
    var head: Data := [VERSION, CONNECT, w[2]];
    PortDecodes(tail[..2]);
    hide ParseHost, EncodeHost, PutU16, U16;
    assert w == head + ([w[3]] + w[4..]);
    assert tail == PutU16(port) + rest;
    Regroup(EncodeHost(h), PutU16(port), rest);
    Regroup(head, EncodeHost(h) + PutU16(port), rest);
    Regroup(head, EncodeHost(h), PutU16(port));
  }

  lemma PortDecodes(b: Data)
    requires |b| == 2
    ensures PutU16(U16(b)) == b
  {
  }

  lemma HostDecodes(atyp: Byte, w: Data)
    requires ParseHost(atyp, w).Parsed?
    ensures var Parsed(h, rest) := ParseHost(atyp, w);
            WellFormed(h) && [atyp] + w == EncodeHost(h) + rest
  {
  }

  /** On every run at most one reply, of ten bytes, follows the method choice; success is reported only of a dial. */
  lemma AtMostOneReply(w: Data, world: World)
    ensures var o := Handle(w, world);
            && |o.writes| <= 2 && (|o.writes| >= 1 ==> o.writes[0] == NO_AUTH)
            && (|o.writes| == 2 ==> o.writes[1] == Reply(SUCCESS) || o.writes[1] == Reply(FAILURE))
            && (|o.writes| == 2 && o.writes[1] == Reply(SUCCESS) ==>
                  o.dialed.Some? && world.dials(o.dialed.value.0, o.dialed.value.1))
            && (o.tunnels ==> |o.writes| == 2 && o.writes[1] == Reply(SUCCESS))
            && (o.dialed.Some? ==> |o.writes| == 2)
  {
    assert Reply(FAILURE)[1] != Reply(SUCCESS)[1];
  }

  const REFUSED: Data := [5, 1, 0, 1, 0, 0, 0, 0, 0, 0]

  /** The request line up to the address type can be refused: another version, another command, another address type. */
  predicate BadRequest(w: Data) {
    |w| >= 4 && (w[0] != 5 || w[1] != 1 || (w[3] != 1 && w[3] != 3 && w[3] != 4))
  }

  /** A domain of length zero. */
  predicate EmptyDomain(w: Data) {
    |w| >= 5 && w[0] == 5 && w[1] == 1 && w[3] == 3 && w[4] == 0
  }

  /**
   * After a greeting, a request of another version, command or address type, or with an empty domain, is refused with a
   * failure reply and no dial; what was not read stays. One that is cut off gets no reply and no dial.
   */
  lemma RefusesExactly(methods: Data, w: Data, world: World)
    requires |methods| <= 255 && world.methodWritten
    ensures var o := Handle(EncodeGreeting(methods) + w, world);
            && (BadRequest(w) ==> o == Outcome([[5, 0], REFUSED], None, w[4..], false))
            && (EmptyDomain(w) ==> o == Outcome([[5, 0], REFUSED], None, w[5..], false))
            && (o.dialed == None && !BadRequest(w) && !EmptyDomain(w) ==> o == Outcome([[5, 0]], None, [], false))
            && (o.dialed.Some? ==> o.writes == [[5, 0], if world.dials(o.dialed.value.0, o.dialed.value.1)
                                                        then [5, 0, 0, 1, 0, 0, 0, 0, 0, 0] else REFUSED])
  {
    GreetingRoundTrip(methods, w);
    RefusesTarget(w);
    hide ParseTarget, ParseGreeting, EncodeGreeting, BadRequest, EmptyDomain;
  }

  lemma RefusesTarget(w: Data)
    ensures BadRequest(w) ==> ParseTarget(w) == Refused(w[4..])
    ensures EmptyDomain(w) ==> ParseTarget(w) == Refused(w[5..])
    ensures !BadRequest(w) && !EmptyDomain(w) ==> !ParseTarget(w).Refused?
  {
    if |w| >= 5 {
      assert w[4..][1..] == w[5..];
    }
  }

  /** A greeting of another version, or one that is cut off, is not answered at all. */
  lemma GreetsExactly(w: Data, world: World)
    ensures Handle(w, world).writes == [] <==> |w| < 2 || w[0] != 5 || |w[2..]| < w[1]
    ensures |w| >= 2 && w[0] != 5 ==> Handle(w, world) == Outcome([], None, w[2..], false)
    ensures Handle(w, world).writes != [] && !world.methodWritten ==>
              Handle(w, world) == Outcome([[5, 0]], None, w[2..][w[1]..], false)
  {
    hide ParseTarget;
  }

  // ---------------------------------------------------------------- the code

  /** io.ReadFull(conn, buf[:k]): the slice has to be in range. */
  method ReadInto(conn: Pipe, buf: array<Byte>, k: nat) returns (ok: bool)
    requires k <= buf.Length
    modifies conn, buf
    ensures match Take(old(conn.data), k)
            case Parsed(v, rest) => ok && buf[..k] == v && conn.data == rest
            case _ => !ok && conn.data == []
  {
    var got;
    got, ok := conn.ReadFull(k);
    var n := Min(|got|, k);
    for i := 0 to n
      invariant buf[..i] == got[..i] && conn.data == (if ok then old(conn.data)[k..] else [])
    {
      buf[i] := got[i];
    }
    assert got[..|got|] == got;
  }

  class Handler {
    const world: World
    const conn: Pipe
    var writes: seq<Data>
    var dialed: Option<(Host, nat)>

    constructor (world: World, conn: Pipe)
      ensures this.world == world && this.conn == conn && writes == [] && dialed == None
    {
      this.world, this.conn, writes, dialed := world, conn, [], None;
    }

    /** `handle` up to the tunnel; every slice of the buffer is in range. */
    method Run() returns (tunnels: bool)
      requires writes == [] && dialed == None
      modifies this, conn
      ensures Outcome(writes, dialed, conn.data, tunnels) == Handle(old(conn.data), world)
    {
      hide ParseHost, ParseTarget;
      var buf := new Byte[BUFFER_SIZE];
      var ok := ReadInto(conn, buf, 2);
      if !ok {
        return false;
      }
      assert buf[..2][0] == buf[0] && buf[..2][1] == buf[1];
      if buf[0] != VERSION {
        return false;
      }
      var nmethods := buf[1];
      if nmethods <= 0 || nmethods > 255 {
        ok := ReadInto(conn, buf, nmethods);
        if !ok {
          return false;
        }
      }
      ok := ReadInto(conn, buf, nmethods);
      if !ok {
        return false;
      }
      writes := writes + [NO_AUTH];
      if !world.methodWritten {
        return false;
      }
      var target := ReadTarget(buf);
      match target
      case Ended => return false;
      case Refused(_) =>
        writes := writes + [Reply(FAILURE)];
        return false;
      case Parsed((host, port), _) =>
        dialed := Some((host, port));
        if !world.dials(host, port) {
          writes := writes + [Reply(FAILURE)];
          return false;
        }
        writes := writes + [Reply(SUCCESS)];
        tunnels := world.replyWritten;
    }

    /** The request, up to the point where the handler refuses it or dials. */
    method ReadTarget(buf: array<Byte>) returns (t: Parsed<(Host, nat)>)
      requires buf.Length == BUFFER_SIZE
      modifies conn, buf
      ensures t == ParseTarget(old(conn.data))
      ensures conn.data == match t case Ended => [] case Refused(left) => left case Parsed(_, rest) => rest
    {
      ghost var w := conn.data;
      var ok := ReadInto(conn, buf, 4);
      if !ok {
        return Ended;
      }
      assert forall i | 0 <= i < 4 :: buf[..4][i] == buf[i] == w[i];
      if buf[0] != VERSION || buf[1] != CONNECT {
        return Refused(conn.data);
      }
      var host := ReadHost(buf[3], buf);
      hide ParseHost;
      match host
      case Ended => return Ended;
      case Refused(_) => return Refused(conn.data);
      case Parsed(h, _) =>
        ok := ReadInto(conn, buf, 2);
        if !ok {
          return Ended;
        }
        t := Parsed((h, U16(buf[..2])), conn.data);
    }

    method ReadHost(atyp: Byte, buf: array<Byte>) returns (h: Parsed<Host>)
      requires buf.Length == BUFFER_SIZE
      modifies conn, buf
      ensures h == ParseHost(atyp, old(conn.data))
      ensures conn.data == match h case Ended => [] case Refused(left) => left case Parsed(_, rest) => rest
    {
      var ok;
      if atyp == ATYP_IPV4 {
        ok := ReadInto(conn, buf, 4);
        h := if ok then Parsed(IPv4(buf[..4]), conn.data) else Ended;
      } else if atyp == ATYP_IPV6 {
        ok := ReadInto(conn, buf, 16);
        h := if ok then Parsed(IPv6(buf[..16]), conn.data) else Ended;
      } else if atyp == ATYP_DOMAIN {
        ghost var w := conn.data;
        ok := ReadInto(conn, buf, 1);
        if !ok {
          return Ended;
        }
        assert buf[..1][0] == buf[0] == w[0];
        var domainLen := buf[0];
        if domainLen <= 0 || domainLen > 255 {
          return Refused(conn.data);
        }
        ok := ReadInto(conn, buf, domainLen);
        h := if ok then Parsed(Domain(buf[..domainLen]), conn.data) else Ended;
      } else {
        h := Refused(conn.data);
      }
    }
  }
}
