/**
 * OBFS negotiation (hypernet/services/proxy/server/obfs_negotiate.go), the request line
 * (hypernet/services/proxy/server/proxy.go:152-187), and the stacks both ends build from them.
 */
module Obfs {
  import opened Bytes
  import opened Text

  const OBFS_PREFIX := "OBFS "

  /** Durations are in nanoseconds. */
  datatype ObfsParams = ObfsParams(paddingMin: int, paddingMax: int, delayMin: int, delayMax: int)

  /** What ParseObfsLine accepts, and what the fields of the Go struct can hold. */
  predicate WellFormed(p: ObfsParams) {
    0 <= p.paddingMin <= p.paddingMax <= MAX_INT && 0 <= p.delayMin <= p.delayMax <= MAX_INT
  }

  /** time.Duration.String and time.ParseDuration. */
  datatype Durations = Durations(show: int -> string, parse: string -> Option<int>)

  /** Printing and parsing are inverse on positive durations, and the text has no white space. */
  ghost predicate Lawful(d: Durations) {
    && d.parse("0") == Some(0)
    && forall n :: 0 < n <= MAX_INT ==> IsWord(d.show(n)) && d.parse(d.show(n)) == Some(n)
  }

  // ---------------------------------------------------------------- the line

  function DurText(d: Durations, n: int): string {
    if n > 0 then d.show(n) else "0"
  }

  function FormatObfsLine(d: Durations, p: ObfsParams): string {
    OBFS_PREFIX + Itoa(p.paddingMin) + " " + Itoa(p.paddingMax) + " " + DurText(d, p.delayMin) + " "
    + DurText(d, p.delayMax) + "\n"
  }

  function ParseObfsLine(d: Durations, text: string): (p: Option<ObfsParams>)
    ensures p.Some? ==> 0 <= p.value.paddingMin <= p.value.paddingMax && 0 <= p.value.delayMin <= p.value.delayMax
  {
    var line := TrimSpace(text);
    if !(OBFS_PREFIX <= line) then None else
    var parts := Fields(TrimSpace(line[|OBFS_PREFIX|..]));
    if |parts| != 4 then None else
    var pmin, pmax := Atoi(parts[0]), Atoi(parts[1]);
    if pmin == None || pmax == None then None else
    if pmin.value < 0 || pmax.value < 0 || pmin.value > pmax.value then None else
    var dmin := d.parse(parts[2]);
    if dmin == None || dmin.value < 0 then None else
    var dmax := d.parse(parts[3]);
    if dmax == None || dmax.value < 0 || dmax.value < dmin.value then None else
    Some(ObfsParams(pmin.value, pmax.value, dmin.value, dmax.value))
  }

  /** The line without prefix and newline. */
  function Body(a: string, b: string, c: string, e: string): string {
    a + " " + (b + " " + (c + " " + e))
  }

  /** Four words separated by single spaces. */
  lemma FourFields(a: string, b: string, c: string, e: string)
    requires IsWord(a) && IsWord(b) && IsWord(c) && IsWord(e)
    ensures Fields(Body(a, b, c, e)) == [a, b, c, e]
  {
    FieldsOne(e);
    FieldsSpaced(c, e);
    FieldsSpaced(b, c + " " + e);
    FieldsSpaced(a, b + " " + (c + " " + e));
    hide Fields, IsWord;
  }

  lemma FormatBody(d: Durations, p: ObfsParams)
    ensures FormatObfsLine(d, p)
         == OBFS_PREFIX
            + Body(Itoa(p.paddingMin), Itoa(p.paddingMax), DurText(d, p.delayMin), DurText(d, p.delayMax)) + "\n"
  {
    hide Itoa, DurText;
  }

  /** The parameters that a line shows: a negative delay is printed as 0. */
  function Shown(p: ObfsParams): ObfsParams {
    p.(delayMin := if p.delayMin > 0 then p.delayMin else 0, delayMax := if p.delayMax > 0 then p.delayMax else 0)
  }

  /** What the parser makes of a printed line, for all parameters: those shown, if they are well-formed. */
  lemma ParsePrinted(d: Durations, p: ObfsParams)
    requires Lawful(d) && Fits64(p)
    ensures ParseObfsLine(d, FormatObfsLine(d, p)) == if WellFormed(Shown(p)) then Some(Shown(p)) else None
  {
    hide Fields, TrimSpace, Atoi, Itoa, Lawful, IsSpace, IsWord, DurText, Body, FormatObfsLine;
    var a, b := Itoa(p.paddingMin), Itoa(p.paddingMax);
    var c, e := DurText(d, p.delayMin), DurText(d, p.delayMax);
    DurTextParses(d, p.delayMin);
    DurTextParses(d, p.delayMax);
    var body := Body(a, b, c, e);
    AtoiItoa(p.paddingMin);
    AtoiItoa(p.paddingMax);
    FormatBody(d, p);
    LineBody(a, b, c, e);
    FourFields(a, b, c, e);
    FieldsTrim(body);
    assert OBFS_PREFIX <= OBFS_PREFIX + body && (OBFS_PREFIX + body)[|OBFS_PREFIX|..] == body;
  }

  lemma DurTextParses(d: Durations, n: int)
    requires Lawful(d) && n <= MAX_INT
    ensures IsWord(DurText(d, n)) && d.parse(DurText(d, n)) == Some(if n > 0 then n else 0)
  {
  }

  lemma LineBody(a: string, b: string, c: string, e: string)
    requires IsWord(e)
    ensures TrimSpace(OBFS_PREFIX + Body(a, b, c, e) + "\n") == OBFS_PREFIX + Body(a, b, c, e)
  {
    var s := OBFS_PREFIX + Body(a, b, c, e);
    assert s[0] == 'O';
    assert s[|s| - 1] == e[|e| - 1];
    TrimLine(s);
  }

  /** What is accepted: after the prefix exactly four fields, two integers and two durations, each pair in order. */
  lemma ParseObfsExactly(d: Durations, text: string, p: ObfsParams)
    ensures var f := Fields(text);
            ParseObfsLine(d, text) == Some(p) <==>
            && "OBFS " <= TrimSpace(text) && |f| == 5
            && Atoi(f[1]) == Some(p.paddingMin) && Atoi(f[2]) == Some(p.paddingMax) && 0 <= p.paddingMin <= p.paddingMax
            && d.parse(f[3]) == Some(p.delayMin) && d.parse(f[4]) == Some(p.delayMax) && 0 <= p.delayMin <= p.delayMax
  {
    var line := TrimSpace(text);
    FieldsTrim(text);
    hide Fields, TrimSpace, Atoi;
    if OBFS_PREFIX <= line {
      var rest := line[|OBFS_PREFIX|..];
      FieldsTrim(rest);
      ObfsIsWord();
      FieldsSpaced("OBFS", rest);
      assert line == "OBFS" + " " + rest;
    }
  }

  lemma ObfsIsWord()
    ensures IsWord("OBFS")
  {
  }

  // ---------------------------------------------------------------- agreement

  /** The bounds of one kind of obfuscation, clamped to the server's limits. */
  function Clamp(lo: int, hi: int, serverLo: int, serverHi: int): (int, int) {
    if serverHi <= 0 then (0, 0) else
    var hi' := if hi > serverHi then serverHi else hi;
    var lo' := if lo > hi' then hi' else lo;
    (if lo' < serverLo then serverLo else lo', hi')
  }

  /** AgreeObfs: the server's own limits are an ObfsParams too, of any values. */
  function AgreeObfs(server: ObfsParams, client: ObfsParams): ObfsParams {
    var (pmin, pmax) := Clamp(client.paddingMin, client.paddingMax, server.paddingMin, server.paddingMax);
    var (dmin, dmax) := Clamp(client.delayMin, client.delayMax, server.delayMin, server.delayMax);
    ObfsParams(pmin, pmax, dmin, dmax)
  }

  /** Each enabled server minimum is at most the smaller of the two maxima. */
  predicate MinimaFit(server: ObfsParams, client: ObfsParams) {
    && (server.paddingMax > 0 ==> server.paddingMin <= Min(client.paddingMax, server.paddingMax))
    && (server.delayMax > 0 ==> server.delayMin <= Min(client.delayMax, server.delayMax))
  }

  predicate Fits64(p: ObfsParams) {
    Int64(p.paddingMin) && Int64(p.paddingMax) && Int64(p.delayMin) && Int64(p.delayMax)
  }

  /** How agreed bounds relate to the client's and the server's. */
  predicate Kept(lo: int, hi: int, serverLo: int, serverHi: int, agreedLo: int, agreedHi: int) {
    && (hi <= serverHi ==> agreedHi == hi) && (hi > serverHi ==> agreedHi == serverHi)
    && (serverLo <= lo <= serverHi ==> agreedLo == lo) && agreedLo >= serverLo
    && (serverLo <= agreedHi ==> agreedLo <= agreedHi)
    && (agreedLo > lo ==> agreedLo == serverLo) && (agreedLo < lo ==> agreedLo == agreedHi || agreedLo == serverLo)
  }

  /** Agreeing twice changes nothing, for all inputs. */
  lemma AgreeIdempotent(server: ObfsParams, client: ObfsParams)
    ensures AgreeObfs(server, AgreeObfs(server, client)) == AgreeObfs(server, client)
  {
  }

  /**
   * The agreed maxima never exceed either side's, what the server has switched off stays off, and the client's own
   * bounds are kept wherever the server's limits allow them.
   */
  lemma AgreeWithinBoth(server: ObfsParams, client: ObfsParams)
    requires WellFormed(client)
    ensures var a := AgreeObfs(server, client);
            && a.paddingMax <= client.paddingMax && a.delayMax <= client.delayMax
            && (server.paddingMax > 0 ==> a.paddingMax <= server.paddingMax)
            && (server.delayMax > 0 ==> a.delayMax <= server.delayMax)
            && (server.paddingMax <= 0 ==> a.paddingMin == a.paddingMax == 0)
            && (server.delayMax <= 0 ==> a.delayMin == a.delayMax == 0)
            && (a.paddingMax > 0 <==> client.paddingMax > 0 && server.paddingMax > 0)
            && (a.delayMax > 0 <==> client.delayMax > 0 && server.delayMax > 0)
            && (server.paddingMax > 0 ==> Kept(client.paddingMin, client.paddingMax, server.paddingMin,
                                               server.paddingMax, a.paddingMin, a.paddingMax))
            && (server.delayMax > 0 ==> Kept(client.delayMin, client.delayMax, server.delayMin, server.delayMax,
                                             a.delayMin, a.delayMax))
  {
  }

  /**
   * For every well-formed request, the client accepts the server's reply, and reads exactly the agreed values from
   * it, if and only if each enabled server minimum is at most the smaller of the client and server maxima.
   */
  lemma ReplyAcceptedExactly(d: Durations, server: ObfsParams, client: ObfsParams)
    requires Lawful(d) && WellFormed(client) && Fits64(server)
    ensures var reply := ParseObfsLine(d, FormatObfsLine(d, AgreeObfs(server, client)));
            && (MinimaFit(server, client) ==> reply == Some(AgreeObfs(server, client)))
            && (!MinimaFit(server, client) ==> reply == None)
  {
    ParsePrinted(d, AgreeObfs(server, client));
    hide ParseObfsLine, FormatObfsLine, Lawful;
    var a := AgreeObfs(server, client);
    assert Shown(a) == a && (WellFormed(a) <==> MinimaFit(server, client));
  }

  // ---------------------------------------------------------------- the two stacks

  /** A wrapper around the raw stream, innermost first in a stack. */
  datatype Layer = Padding(lo: int, hi: int) | Delay(lo: int, hi: int) | Cipher

  function ObfsLayers(p: ObfsParams): seq<Layer> {
    (if p.paddingMax > 0 then [Padding(p.paddingMin, p.paddingMax)] else [])
    + (if p.delayMax > 0 then [Delay(p.delayMin, p.delayMax)] else [])
  }

  function CipherLayers(cipher: bool): seq<Layer> {
    if cipher then [Cipher] else []
  }

  /** The client sends an OBFS line only if it wants padding or delays. */
  predicate Asks(client: ObfsParams) {
    client.paddingMax > 0 || client.delayMax > 0
  }

  /** handleProxyStream: agreed layers go below the cipher, the server's own go above it. */
  function ServerStack(d: Durations, server: ObfsParams, line: Option<string>, cipher: bool): seq<Layer> {
    var request := if line == None then None else ParseObfsLine(d, line.value);
    match request
    case Some(c) => ObfsLayers(AgreeObfs(server, c)) + CipherLayers(cipher)
    case None => CipherLayers(cipher) + ObfsLayers(server)
  }

  /** DialTCP: the same on the client's side, from the reply it got. */
  function ClientStack(d: Durations, client: ObfsParams, reply: Option<string>, cipher: bool): seq<Layer> {
    var agreed := if reply == None then None else ParseObfsLine(d, reply.value);
    match agreed
    case Some(a) => ObfsLayers(a) + CipherLayers(cipher)
    case None => CipherLayers(cipher) + (if Asks(client) then ObfsLayers(client) else [])
  }

  /** What matters to the bytes: the kinds of layers, delays left out. */
  function ByteKinds(layers: seq<Layer>): seq<bool> {
    if layers == [] then []
    else (if layers[0].Delay? then [] else [layers[0].Cipher?]) + ByteKinds(layers[1..])
  }

  /** The two stacks of one dial, the server's first. */
  function Dial(d: Durations, server: ObfsParams, client: ObfsParams, cipher: bool): (seq<Layer>, seq<Layer>) {
    if Asks(client) then
      var line := FormatObfsLine(d, client);
      (ServerStack(d, server, Some(line), cipher),
       ClientStack(d, client, Some(FormatObfsLine(d, AgreeObfs(server, client))), cipher))
    else
      (ServerStack(d, server, None, cipher), ClientStack(d, client, None, cipher))
  }

  lemma KindsOfLayers(p: ObfsParams, cipher: bool)
    ensures ByteKinds(ObfsLayers(p)) == if p.paddingMax > 0 then [false] else []
    ensures ByteKinds(ObfsLayers(p) + CipherLayers(cipher))
         == (if p.paddingMax > 0 then [false] else []) + (if cipher then [true] else [])
    ensures ByteKinds(CipherLayers(cipher) + ObfsLayers(p))
         == (if cipher then [true] else []) + (if p.paddingMax > 0 then [false] else [])
  {
    var pad: seq<Layer> := if p.paddingMax > 0 then [Padding(p.paddingMin, p.paddingMax)] else [];
    var delay: seq<Layer> := if p.delayMax > 0 then [Delay(p.delayMin, p.delayMax)] else [];
    KindsAppend(pad, delay);
    KindsAppend(ObfsLayers(p), CipherLayers(cipher));
    KindsAppend(CipherLayers(cipher), ObfsLayers(p));
    assert ByteKinds(pad) == if p.paddingMax > 0 then [false] else [];
    assert ByteKinds(delay) == [];
    assert ByteKinds(CipherLayers(cipher)) == if cipher then [true] else [];
  }

  lemma {:induction false} KindsAppend(xs: seq<Layer>, ys: seq<Layer>)
    ensures ByteKinds(xs + ys) == ByteKinds(xs) + ByteKinds(ys)
  {
    if xs == [] {
      assert xs + ys == ys;
    } else {
      KindsAppend(xs[1..], ys);
      assert (xs + ys)[1..] == xs[1..] + ys;
      Regroup(if xs[0].Delay? then [] else [xs[0].Cipher?], ByteKinds(xs[1..]), ByteKinds(ys));
    }
  }

  /** The two stacks in terms of the parameters alone. */
  lemma DialStacks(d: Durations, server: ObfsParams, client: ObfsParams, cipher: bool)
    requires Lawful(d) && WellFormed(client) && Fits64(server)
    ensures var a, ss := AgreeObfs(server, client), CipherLayers(cipher);
            Dial(d, server, client, cipher) ==
            if !Asks(client) then (ss + ObfsLayers(server), ss)
            else if MinimaFit(server, client) then (ObfsLayers(a) + ss, ObfsLayers(a) + ss)
            else (ObfsLayers(a) + ss, ss + ObfsLayers(client))
  {
    hide ParseObfsLine, FormatObfsLine, Lawful, AgreeObfs, ObfsLayers, CipherLayers, MinimaFit;
    ParsePrinted(d, client);
    ReplyAcceptedExactly(d, server, client);
    assert CipherLayers(cipher) + [] == CipherLayers(cipher);
  }

  /**
   * Exactly when the byte-carrying layers of the two ends match, given that they agree on the cipher. A client that
   * asks needs fitting minima, unless the mismatch cannot show: it wants no padding, or padding is the only layer.
   * A client that does not ask needs a server without padding of its own.
   */
  lemma StacksMatchExactly(d: Durations, server: ObfsParams, client: ObfsParams, cipher: bool)
    requires Lawful(d) && WellFormed(client) && Fits64(server)
    ensures var (s, c) := Dial(d, server, client, cipher);
            ByteKinds(s) == ByteKinds(c) <==>
            if Asks(client)
            then MinimaFit(server, client) || client.paddingMax == 0 || (server.paddingMax > 0 && !cipher)
            else server.paddingMax <= 0
  {
    var a := AgreeObfs(server, client);
    DialStacks(d, server, client, cipher);
    AgreeWithinBoth(server, client);
    KindsOfLayers(server, cipher);
    KindsOfLayers(client, cipher);
    KindsOfLayers(a, cipher);
    CipherKinds(cipher);
    hide Dial, Lawful, AgreeObfs, ObfsLayers, ByteKinds, CipherLayers, MinimaFit;
    KindsTable(a.paddingMax > 0, client.paddingMax > 0, cipher);
    KindsTable(false, server.paddingMax > 0, cipher);
  }

  /** A padding layer below the cipher on one side and above it on the other. */
  lemma KindsTable(below: bool, above: bool, cipher: bool)
    ensures var ss: seq<bool> := if cipher then [true] else [];
            (if below then [false] else []) + ss == ss + (if above then [false] else [])
            <==> below == above && !(below && cipher)
  {
    var ss: seq<bool> := if cipher then [true] else [];
    var x, y := (if below then [false] else []) + ss, ss + (if above then [false] else []);
    if below == above {
      assert below && cipher ==> x[0] != y[0];
    } else {
      assert |x| != |y|;
    }
  }

  lemma CipherKinds(cipher: bool)
    ensures ByteKinds(CipherLayers(cipher)) == if cipher then [true] else []
  {
  }

  // ---------------------------------------------------------------- the request line

  datatype Request = Request(proto: string, host: string, port: int)

  function FormatRequest(r: Request): string {
    r.proto + " " + (r.host + " " + Itoa(r.port)) + "\n"
  }

  predicate KnownProto(p: string) {
    p == "TCP" || p == "UDP" || p == "DIRECT"
  }

  function ParseRequest(text: string): (r: Option<Request>)
    ensures r.Some? ==> KnownProto(r.value.proto) && IsWord(r.value.host) && 1 <= r.value.port <= 65535
  {
    var line := TrimSpace(text);
    if line == "" then None else
    var fields := Fields(line);
    if |fields| != 3 then None else
    var proto := ToUpper(fields[0]);
    if !KnownProto(proto) then None else
    var port := Atoi(fields[2]);
    if port == None || port.value <= 0 || port.value > 65535 then None else
    Some(Request(proto, fields[1], port.value))
  }

  /** What is accepted as a request: three fields, a known protocol in any case, any host, and a port. */
  lemma ParseRequestExactly(text: string, r: Request)
    ensures var f := Fields(text);
            ParseRequest(text) == Some(r) <==>
            && |f| == 3 && ToUpper(f[0]) == r.proto && r.proto in {"TCP", "UDP", "DIRECT"}
            && f[1] == r.host && Atoi(f[2]) == Some(r.port) && 1 <= r.port <= 65535
  {
    FieldsTrim(text);
    assert Fields("") == [];
    hide Fields, TrimSpace, Atoi, ToUpper;
  }

  /**
   * The line the client writes for a known protocol is read back as the same request if and only if the host is
   * non-empty without white space and the port is between 1 and 65535.
   */
  lemma RequestRoundTrip(r: Request)
    requires KnownProto(r.proto)
    ensures ParseRequest(FormatRequest(r)) == Some(r) <==> IsWord(r.host) && 1 <= r.port <= 65535
  {
    hide Fields, TrimSpace, IsSpace, IsWord, Atoi, Itoa, ToUpper, KnownProto;
    if IsWord(r.host) && 1 <= r.port <= 65535 {
      var port := Itoa(r.port);
      var line := r.proto + " " + (r.host + " " + port);
      ProtoIsUpper(r.proto);
      RequestTrims(r.proto, r.host, port);
      FieldsOne(port);
      FieldsSpaced(r.host, port);
      FieldsSpaced(r.proto, r.host + " " + port);
      AtoiItoa(r.port);
      assert Fields(line) == [r.proto, r.host, port];
    }
  }

  lemma ProtoIsUpper(p: string)
    requires KnownProto(p)
    ensures IsWord(p) && ToUpper(p) == p
  {
  }

  lemma RequestTrims(proto: string, host: string, port: string)
    requires IsWord(proto) && IsWord(port)
    ensures TrimSpace(proto + " " + (host + " " + port) + "\n") == proto + " " + (host + " " + port)
  {
    var line := proto + " " + (host + " " + port);
    assert line[0] == proto[0] && line[|line| - 1] == port[|port| - 1];
    TrimLine(line);
  }
}
