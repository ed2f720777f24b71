/**
 * Protocol choice: the manager's preference order (hypernet/services/proxy/protomanager/manager.go), the negotiation
 * messages (protonegotiate/negotiate.go) and the server's memory of each peer (server/proxy.go:133-150).
 */
module Protocols {
  import opened Bytes
  import opened Text

  // ---------------------------------------------------------------- the preference order

  /** The priority map keeps the last position of a name listed twice. */
  function LastIndex(order: seq<string>, n: string): (i: nat)
    requires n in order
    ensures i < |order| && order[i] == n && n !in order[i + 1..]
  {
    var last := |order| - 1;
    if order[last] == n then last else
    assert n in order[..last];
    var i := LastIndex(order[..last], n);
    assert order[i + 1..] == order[..last][i + 1..] + [order[last]];
    i
  }

  /** The comparison that SupportedNames sorts by; without any order it is the one of sort.Strings. */
  predicate Before(order: seq<string>, a: string, b: string) {
    if a in order && b in order then LastIndex(order, a) < LastIndex(order, b)
    else if a in order then true
    else if b in order then false
    else Less(a, b)
  }

  /**
   * Of two registered names `a` stands before `b`: listed before unlisted, listed ones by their last positions,
   * unlisted ones by string order.
   */
  predicate Precedes(order: seq<string>, a: string, b: string) {
    && (b in order ==> a in order)
    && (a in order && b in order ==> LastIndex(order, a) < LastIndex(order, b))
    && (a !in order && b !in order ==> Less(a, b))
  }

  lemma BeforePrecedes(order: seq<string>, a: string, b: string)
    ensures Before(order, a, b) <==> Precedes(order, a, b)
  {
  }

  lemma BeforeTotal(order: seq<string>, a: string, b: string)
    ensures Before(order, a, b) || a == b || Before(order, b, a)
    ensures !(Before(order, a, b) && Before(order, b, a)) && !Before(order, a, a)
  {
    LessTrichotomy(a, b);
    LessTrichotomy(a, a);
  }

  lemma BeforeTransitive(order: seq<string>, a: string, b: string, c: string)
    requires Before(order, a, b) && Before(order, b, c)
    ensures Before(order, a, c)
  {
    if a !in order && b !in order && c !in order {
      LessTransitive(a, b, c);
    }
  }

  ghost predicate Sorted(order: seq<string>, names: seq<string>) {
    forall i, j | 0 <= i < j < |names| :: Before(order, names[i], names[j])
  }

  /** `names` lists every name of `s` once, in order of preference. */
  ghost predicate Lists(order: seq<string>, s: set<string>, names: seq<string>) {
    Sorted(order, names) && forall n :: n in names <==> n in s
  }

  lemma SortedPrecedes(order: seq<string>, names: seq<string>)
    requires Sorted(order, names)
    ensures forall i, j | 0 <= i < j < |names| :: Precedes(order, names[i], names[j])
  {
    forall i, j | 0 <= i < j < |names|
      ensures Precedes(order, names[i], names[j])
    {
      BeforePrecedes(order, names[i], names[j]);
    }
  }

  /** There is only one such list: the result cannot depend on the order in which the map is walked or sorted. */
  lemma {:induction false} ListsIsUnique(order: seq<string>, s: set<string>, xs: seq<string>, ys: seq<string>)
    requires Lists(order, s, xs) && Lists(order, s, ys)
    ensures xs == ys
    decreases |xs|
  {
    if xs == [] || ys == [] {
      SetOfNone(order, s, xs);
      SetOfNone(order, s, ys);
    } else {
      assert xs[0] in ys && ys[0] in xs;
      BeforeTotal(order, xs[0], ys[0]);
      assert xs[0] == ys[0];
      TailLists(order, s, xs);
      TailLists(order, s, ys);
      ListsIsUnique(order, s - {xs[0]}, xs[1..], ys[1..]);
      assert xs == [xs[0]] + xs[1..] && ys == [ys[0]] + ys[1..];
    }
  }

  lemma SetOfNone(order: seq<string>, s: set<string>, xs: seq<string>)
    requires Lists(order, s, xs)
    ensures xs == [] <==> s == {}
  {
    if xs != [] {
      assert xs[0] in s;
    }
  }

  lemma TailLists(order: seq<string>, s: set<string>, xs: seq<string>)
    requires Lists(order, s, xs) && xs != []
    ensures Lists(order, s - {xs[0]}, xs[1..])
  {
    forall i | 0 < i < |xs|
      ensures xs[i] != xs[0]
    {
      BeforeTotal(order, xs[0], xs[0]);
      assert Before(order, xs[0], xs[i]);
    }
    forall n
      ensures n in xs[1..] <==> n in s - {xs[0]}
    {
      assert n in xs <==> n == xs[0] || n in xs[1..];
    }
  }

  // ---------------------------------------------------------------- the manager

  class Manager {
    var protocols: set<string>
    var preferred: seq<string>
    var registrationOrder: seq<string>
    var defaultTransport: string
    var supportedTransports: seq<string>

    ghost predicate Valid()
      reads this
    {
      "" !in protocols && forall n :: n in registrationOrder <==> n in protocols
    }

    ghost function Order(): (o: seq<string>)
      reads this
      ensures o == preferred || (preferred == [] && o == registrationOrder)
    {
      if |preferred| > 0 then preferred else registrationOrder
    }

    constructor (preferred: seq<string>)
      ensures Valid() && protocols == {} && this.preferred == preferred && registrationOrder == []
      ensures defaultTransport == "" && supportedTransports == []
    {
      protocols, this.preferred, registrationOrder := {}, preferred, [];
      defaultTransport, supportedTransports := "", [];
    }

    /** An adapter without a name is ignored; a second one with the same name replaces the first in its place. */
    method Register(name: string)
      requires Valid()
      modifies this`protocols, this`registrationOrder
      ensures Valid()
      ensures protocols == old(protocols) + (if name == "" then {} else {name})
      ensures registrationOrder == old(registrationOrder)
                + (if name == "" || name in old(protocols) then [] else [name])
    {
      if name == "" {
        return;
      }
      if name !in protocols {
        registrationOrder := registrationOrder + [name];
      }
      protocols := protocols + {name};
    }

    method SupportedNames() returns (names: seq<string>)
      ensures Lists(Order(), protocols, names)
      ensures forall n :: n in names <==> n in protocols
      ensures forall i, j | 0 <= i < j < |names| :: Precedes(Order(), names[i], names[j])
    {
      names := [];
      if |protocols| == 0 {
        return;
      }
      var walked: seq<string> := [];
      var rest := protocols;
      while rest != {}
        invariant rest <= protocols && (forall n :: n in walked <==> n in protocols - rest)
        invariant forall i, j | 0 <= i < j < |walked| :: walked[i] != walked[j]
        decreases |rest|
      {
        var n :| n in rest;
        assert n !in walked;
        walked, rest := walked + [n], rest - {n};
      }
      var order := if |preferred| > 0 then preferred else registrationOrder;
      for i := 0 to |walked|
        invariant Sorted(order, names) && forall n :: n in names <==> n in walked[..i]
      {
        assert walked[..i + 1] == walked[..i] + [walked[i]];
        names := Insert(order, names, walked[i]);
      }
      assert walked[..|walked|] == walked;
      SortedPrecedes(order, names);
    }

    function SupportedTransports(): seq<string>
      reads this
    {
      if |supportedTransports| > 0 then supportedTransports else ["tcp"]
    }

    /** What ClientNegotiate sends: the names by preference, and the default transport before the others. */
    method MakeOffer() returns (o: Offer)
      ensures Lists(Order(), protocols, o.protocols)
      ensures o.transports == (if defaultTransport != "" then [defaultTransport] else []) + SupportedTransports()
    {
      var names := SupportedNames();
      var transports := SupportedTransports();
      if defaultTransport != "" {
        transports := [defaultTransport] + transports;
      }
      o := Offer(names, transports);
    }

    /** HandleStream: the reply, and the name to be remembered once the reply is sent. */
    method HandleStream(o: Offer) returns (reply: Response, remembered: Option<string>)
      ensures Lists(Order(), protocols, reply.protocols)
      ensures (reply, remembered) == HandleOffer(reply.protocols, SupportedTransports(), o)
    {
      hide Lists, FirstCommon, FirstTransport;
      var names := SupportedNames();
      var chosen := ChooseCommon(o.protocols, names);
      if chosen == None {
        return Response(names, "", ""), None;
      }
      var transport := ChooseCommonTransport(o.transports, SupportedTransports());
      return Response(names, chosen.value, transport), chosen;
    }
  }

  /**
   * A whole negotiation between two managers: both ends hold the same name, the one of the common names that the
   * client prefers, and a transport both have or none; it fails exactly when nothing is common.
   */
  method Negotiate(client: Manager, server: Manager) returns (got: Option<(string, string)>, remembered: Option<string>)
    requires client.Valid()
    ensures got == None <==> client.protocols !! server.protocols
    ensures remembered == if got.Some? then Some(got.value.0) else None
    ensures got.Some? ==>
              && got.value.0 in client.protocols && got.value.0 in server.protocols
              && (forall n | n in client.protocols && n in server.protocols && n != got.value.0 ::
                    Precedes(client.Order(), got.value.0, n))
              && FirstShared(OfferedTransports(client), server.SupportedTransports(), got.value.1)
  {
    var o := client.MakeOffer();
    var reply;
    assert o.transports == OfferedTransports(client);
    reply, remembered := server.HandleStream(o);
    got := ReadResponse(reply);
    NegotiationExactly(client.Order(), client.protocols, o.protocols, server.Order(), server.protocols, reply.protocols,
                       o.transports, server.SupportedTransports());
    if got.Some? {
      forall n | n in client.protocols && n in server.protocols && n != got.value.0
        ensures Precedes(client.Order(), got.value.0, n)
      {
        BeforePrecedes(client.Order(), got.value.0, n);
      }
    }
    hide Lists, Before, HandleOffer, ReadResponse;
  }

  /** The transports that a client offers: its default one first, if it has one. */
  function OfferedTransports(client: Manager): seq<string>
    reads client
  {
    (if client.defaultTransport != "" then [client.defaultTransport] else []) + client.SupportedTransports()
  }

  /** One step of sorting by insertion. */
  method Insert(order: seq<string>, names: seq<string>, n: string) returns (r: seq<string>)
    requires Sorted(order, names) && n !in names
    ensures Sorted(order, r) && forall m :: m in r <==> m in names || m == n
  {
    var k := |names|;
    while k > 0 && Before(order, n, names[k - 1])
      invariant 0 <= k <= |names|
      invariant forall j | k <= j < |names| :: Before(order, n, names[j])
    {
      k := k - 1;
    }
    r := names[..k] + [n] + names[k..];
    forall j | 0 <= j < k
      ensures Before(order, names[j], n)
    {
      BeforeTotal(order, names[k - 1], n);
      assert names[k - 1] in names;
      if j < k - 1 {
        BeforeTransitive(order, names[j], names[k - 1], n);
      }
    }
    forall m
      ensures m in r <==> m in names || m == n
    {
      assert names == names[..k] + names[k..];
    }
  }

  // ---------------------------------------------------------------- choosing

  /** The first local name that the other side has. */
  function FirstCommon(local: seq<string>, remote: seq<string>): (c: Option<string>)
    ensures c == None <==> forall n :: n in local ==> n !in remote
    ensures c.Some? ==> c.value in local && c.value in remote
  {
    if local == [] then None
    else if local[0] in remote then Some(local[0])
    else
      assert forall n :: n in local <==> n == local[0] || n in local[1..];
      FirstCommon(local[1..], remote)
  }

  method ChooseCommon(local: seq<string>, remote: seq<string>) returns (c: Option<string>)
    ensures c == FirstCommon(local, remote)
  {
    if |local| == 0 || |remote| == 0 {
      return None;
    }
    var remoteSet: set<string> := {};
    for i := 0 to |remote|
      invariant forall n :: n in remoteSet <==> n in remote[..i]
    {
      assert remote[..i + 1] == remote[..i] + [remote[i]];
      remoteSet := remoteSet + {remote[i]};
    }
    assert remote[..|remote|] == remote;
    for i := 0 to |local|
      invariant FirstCommon(local, remote) == FirstCommon(local[i..], remote)
    {
      assert local[i..][1..] == local[i + 1..];
      if local[i] in remoteSet {
        return Some(local[i]);
      }
    }
    return None;
  }

  /** The transport: empty names in the client's list are passed over. */
  function FirstTransport(client: seq<string>, server: seq<string>): string {
    if client == [] then ""
    else if client[0] != "" && client[0] in server then client[0]
    else FirstTransport(client[1..], server)
  }

  method ChooseCommonTransport(client: seq<string>, server: seq<string>) returns (t: string)
    ensures t == FirstTransport(client, server)
  {
    for i := 0 to |client|
      invariant FirstTransport(client, server) == FirstTransport(client[i..], server)
    {
      assert client[i..][1..] == client[i + 1..];
      if client[i] == "" {
        continue;
      }
      if client[i] in server {
        return client[i];
      }
    }
    return "";
  }

  // ---------------------------------------------------------------- one negotiation

  datatype Offer = Offer(protocols: seq<string>, transports: seq<string>)
  datatype Response = Response(protocols: seq<string>, chosen: string, transport: string)

  /** HandleStream: the reply, and the name it returns to be remembered. */
  function HandleOffer(names: seq<string>, transports: seq<string>, o: Offer): (Response, Option<string>) {
    match FirstCommon(o.protocols, names)
    case None => (Response(names, "", ""), None)
    case Some(n) => (Response(names, n, FirstTransport(o.transports, transports)), Some(n))
  }

  /** ClientNegotiate on the reply. */
  function ReadResponse(r: Response): Option<(string, string)> {
    if r.chosen == "" then None else Some((r.chosen, r.transport))
  }

  /**
   * Between two managers: the client gets the name the server remembers, it is registered with both, and no other
   * common name comes before it in the client's preference; negotiation fails exactly when nothing is common.
   */
  lemma NegotiationExactly(order: seq<string>, mine: set<string>, client: seq<string>,
                           serverOrder: seq<string>, theirs: set<string>, server: seq<string>,
                           myTransports: seq<string>, transports: seq<string>)
    requires Lists(order, mine, client) && Lists(serverOrder, theirs, server) && "" !in mine
    ensures var (reply, remembered) := HandleOffer(server, transports, Offer(client, myTransports));
            var got := ReadResponse(reply);
            && (got == None <==> mine !! theirs) && (remembered == None <==> mine !! theirs)
            && (got.Some? ==>
                  && remembered == Some(got.value.0) && got.value.0 in mine && got.value.0 in theirs
                  && forall n | n in mine && n in theirs && n != got.value.0 :: Before(order, got.value.0, n))
            && (got.Some? ==> FirstShared(myTransports, transports, got.value.1))
  {
    var c := FirstCommon(client, server);
    if c.Some? {
      FirstCommonIsFirst(order, client, server);
      var k := TransportIsFirst(myTransports, transports);
      assert FirstShared(myTransports, transports, FirstTransport(myTransports, transports));
      forall n | n in mine && n in theirs && n != c.value
        ensures Before(order, c.value, n)
      {
        assert n in client && n in server;
      }
      assert c.value in mine && c.value in theirs;
    } else {
      assert forall n :: n in mine ==> n !in theirs by {
        forall n | n in mine
          ensures n !in theirs
        {
          assert n in client;
        }
      }
    }
  }

  lemma {:induction false} FirstCommonIsFirst(order: seq<string>, client: seq<string>, server: seq<string>)
    requires Sorted(order, client) && FirstCommon(client, server).Some?
    ensures forall n | n in client && n in server && n != FirstCommon(client, server).value ::
              Before(order, FirstCommon(client, server).value, n)
  {
    if client[0] !in server {
      FirstCommonIsFirst(order, client[1..], server);
      assert forall n | n in client && n in server :: n in client[1..];
    }
  }

  /** A transport the two ends can share. */
  predicate Shared(t: string, server: seq<string>) {
    t != "" && t in server
  }

  /** `t` is the first of the client's transports that both can use, the empty name if there is none. */
  ghost predicate FirstShared(client: seq<string>, server: seq<string>, t: string) {
    if t == "" then forall j | 0 <= j < |client| :: client[j] == "" || client[j] !in server
    else exists k: nat :: k < |client| && client[k] == t && t in server
                          && forall j | 0 <= j < k :: client[j] == "" || client[j] !in server
  }

  /** The chosen transport is the first of the client's that can be shared; without one it is the empty name. */
  lemma {:induction false} TransportIsFirst(client: seq<string>, server: seq<string>) returns (k: nat)
    ensures k <= |client| && forall j | 0 <= j < k :: !Shared(client[j], server)
    ensures k < |client| ==> Shared(client[k], server) && FirstTransport(client, server) == client[k]
    ensures k == |client| ==> FirstTransport(client, server) == ""
  {
    if client == [] || Shared(client[0], server) {
      k := 0;
    } else {
      k := TransportIsFirst(client[1..], server);
      assert forall j | 0 < j < k + 1 :: client[j] == client[1..][j - 1];
      k := k + 1;
    }
  }

  // ---------------------------------------------------------------- negotiation and memory over whole runs

  /** What the server makes of an offer: the name it answers with, empty when nothing is common. */
  function Choice(server: seq<string>, offer: seq<string>): string {
    HandleOffer(server, [], Offer(offer, [])).0.chosen
  }

  /**
   * How far one negotiation has got. Once answered, the handler still has to remember the name (`due`), whatever the
   * client does next, and the client may still read the reply (`unread`); a reply that is lost is never read.
   */
  datatype Stage = Open | Dropped | Answered(chosen: string, due: bool, unread: bool)
  datatype Talk = Talk(offer: seq<string>, stage: Stage)

  /**
   * All negotiations of one client, its chosenProto and the server's memory of it. The last two are history: whose
   * reply the client read last, and whose name the server remembered last.
   */
  datatype Peer = Peer(talks: seq<Talk>, client: string, memory: string, heard: Option<nat>, noted: Option<nat>)

  const STRANGER := Peer([], "", "", None, None)

  /**
   * Begin: the client opens another negotiation. Handle: the server answers it, if its reply can be encoded.
   * Remember: that handler stores the name. Receive: the client reads that reply. Reset: the client forgets its
   * choice. Negotiations of one client overlap in any way.
   */
  datatype Step =
    | Begin(id: string, names: seq<string>)
    | Handle(id: string, k: nat, encoded: bool)
    | Remember(id: string, k: nat)
    | Receive(id: string, k: nat)
    | Reset(id: string)

  type Peers = map<string, Peer>

  function PeerOf(peers: Peers, id: string): Peer {
    if id in peers then peers[id] else STRANGER
  }

  function SetStage(p: Peer, k: nat, stage: Stage): Peer
    requires k < |p.talks|
  {
    p.(talks := p.talks[k := p.talks[k].(stage := stage)])
  }

  predicate Due(p: Peer, k: nat) {
    k < |p.talks| && p.talks[k].stage.Answered? && p.talks[k].stage.due
  }

  predicate Unread(p: Peer, k: nat) {
    k < |p.talks| && p.talks[k].stage.Answered? && p.talks[k].stage.unread
  }

  function PeerStep(server: seq<string>, p: Peer, s: Step): Peer {
    match s
    case Begin(_, names) => p.(talks := p.talks + [Talk(names, Open)])
    case Handle(_, k, encoded) =>
      if k >= |p.talks| || p.talks[k].stage != Open then p
      else if !encoded then SetStage(p, k, Dropped)
      else
        var chosen := Choice(server, p.talks[k].offer);
        SetStage(p, k, Answered(chosen, chosen != "", chosen != ""))
    case Remember(_, k) =>
      if !Due(p, k) then p
      else SetStage(p, k, p.talks[k].stage.(due := false)).(memory := p.talks[k].stage.chosen, noted := Some(k))
    case Receive(_, k) =>
      if !Unread(p, k) then p
      else SetStage(p, k, p.talks[k].stage.(unread := false)).(client := p.talks[k].stage.chosen, heard := Some(k))
    case Reset(_) => p.(client := "", heard := None)
  }

  function Next(server: seq<string>, peers: Peers, s: Step): Peers {
    peers[s.id := PeerStep(server, PeerOf(peers, s.id), s)]
  }

  function Run(server: seq<string>, steps: seq<Step>): Peers {
    if steps == [] then map[] else Next(server, Run(server, steps[..|steps| - 1]), steps[|steps| - 1])
  }

  /** The name that negotiation `k` settles on. */
  function NameOf(server: seq<string>, p: Peer, k: Option<nat>): string {
    if k.Some? && k.value < |p.talks| then Choice(server, p.talks[k.value].offer) else ""
  }

  /** Where every peer stands after every run. */
  ghost predicate Consistent(server: seq<string>, p: Peer) {
    && (forall k | 0 <= k < |p.talks| && p.talks[k].stage.Answered? ::
          && p.talks[k].stage.chosen == Choice(server, p.talks[k].offer)
          && (p.talks[k].stage.chosen == "" ==> !p.talks[k].stage.due && !p.talks[k].stage.unread))
    && p.client == NameOf(server, p, p.heard) && (p.heard.Some? ==> p.client != "")
    && p.memory == NameOf(server, p, p.noted) && (p.noted.Some? ==> p.memory != "")
  }

  lemma ConsistentStep(server: seq<string>, p: Peer, s: Step)
    requires Consistent(server, p)
    ensures Consistent(server, PeerStep(server, p, s))
  {
    hide Choice;
  }

  lemma {:induction false} RunConsistent(server: seq<string>, steps: seq<Step>, id: string)
    ensures Consistent(server, PeerOf(Run(server, steps), id))
  {
    if steps != [] {
      var peers, s := Run(server, steps[..|steps| - 1]), steps[|steps| - 1];
      RunConsistent(server, steps[..|steps| - 1], id);
      hide Consistent, PeerStep;
      if id == s.id {
        ConsistentStep(server, PeerOf(peers, id), s);
      }
    }
  }

  lemma ChoiceIsFirstCommon(server: seq<string>, offer: seq<string>)
    ensures Choice(server, offer) != "" ==> FirstCommon(offer, server) == Some(Choice(server, offer))
  {
  }

  /**
   * In every run, with any number of peers and overlapping negotiations: client choice and server memory are the same
   * name if and only if the reply read last and the name remembered last are of negotiations that settle on the same
   * name. If they are of the same negotiation, that is the first name of its offer that the server supports.
   */
  lemma ChoiceIsShared(server: seq<string>, steps: seq<Step>, id: string)
    ensures var p := PeerOf(Run(server, steps), id);
            && (p.client == p.memory <==> NameOf(server, p, p.heard) == NameOf(server, p, p.noted))
            && (p.heard == p.noted ==> p.client == p.memory)
            && (p.heard == p.noted && p.heard.Some? ==>
                  p.heard.value < |p.talks| && FirstCommon(p.talks[p.heard.value].offer, server) == Some(p.client))
  {
    RunConsistent(server, steps, id);
    var p := PeerOf(Run(server, steps), id);
    hide Run, Choice;
    if p.heard.Some? && p.heard.value < |p.talks| {
      ChoiceIsFirstCommon(server, p.talks[p.heard.value].offer);
    }
  }

  /** Neither a new answer for `id`, nor a reply read by it, nor a reset: handlers may still remember. */
  predicate Settling(s: Step, id: string) {
    s.id != id || s.Begin? || s.Remember?
  }

  /** No handler still has to remember a name other than the client's. */
  predicate NothingElseDue(p: Peer) {
    forall k | 0 <= k < |p.talks| :: Due(p, k) ==> p.talks[k].stage.chosen == p.client
  }

  lemma SettledStep(server: seq<string>, p: Peer, s: Step)
    requires (s.Begin? || s.Remember?) && p.client == p.memory && NothingElseDue(p)
    ensures var q := PeerStep(server, p, s); q.client == q.memory && NothingElseDue(q)
  {
    var q := PeerStep(server, p, s);
    forall k | 0 <= k < |q.talks| && Due(q, k)
      ensures Due(p, k) && q.talks[k] == p.talks[k]
    {
    }
  }

  lemma {:induction false} SettledRun(server: seq<string>, steps: seq<Step>, rest: seq<Step>, id: string)
    requires forall i | 0 <= i < |rest| :: Settling(rest[i], id)
    requires var p := PeerOf(Run(server, steps), id); p.client == p.memory && NothingElseDue(p)
    ensures var p := PeerOf(Run(server, steps + rest), id); p.client == p.memory && NothingElseDue(p)
    decreases |rest|
  {
    if rest == [] {
      assert steps + rest == steps;
    } else {
      var n := |rest| - 1;
      SettledRun(server, steps, rest[..n], id);
      RunOneMore(server, steps + rest[..n], rest[n]);
      assert steps + rest == (steps + rest[..n]) + [rest[n]];
      hide Run, PeerStep, NothingElseDue;
      if rest[n].id == id {
        SettledStep(server, PeerOf(Run(server, steps + rest[..n]), id), rest[n]);
      }
    }
  }

  lemma RunOneMore(server: seq<string>, steps: seq<Step>, s: Step)
    ensures Run(server, steps + [s]) == Next(server, Run(server, steps), s)
  {
    assert (steps + [s])[..|steps|] == steps;
  }

  /**
   * The two ends agree, and go on agreeing whichever handlers still remember and in whatever order, until the next
   * answer, reply or reset, if and only if they agree now and no handler still has to remember another name.
   */
  lemma AgreementLastsExactly(server: seq<string>, steps: seq<Step>, id: string)
    ensures (forall rest: seq<Step> | (forall i | 0 <= i < |rest| :: Settling(rest[i], id)) ::
               PeerOf(Run(server, steps + rest), id).client == PeerOf(Run(server, steps + rest), id).memory)
            <==> (var p := PeerOf(Run(server, steps), id); p.client == p.memory && NothingElseDue(p))
  {
    var p := PeerOf(Run(server, steps), id);
    hide Run, Choice;
    if p.client == p.memory && NothingElseDue(p) {
      forall rest: seq<Step> | forall i | 0 <= i < |rest| :: Settling(rest[i], id)
        ensures PeerOf(Run(server, steps + rest), id).client == PeerOf(Run(server, steps + rest), id).memory
      {
        SettledRun(server, steps, rest, id);
      }
    } else if p.client != p.memory {
      var none: seq<Step> := [];
      assert steps + none == steps;
      assert PeerOf(Run(server, steps + none), id) == p;
    } else {
      var k :| 0 <= k < |p.talks| && Due(p, k) && p.talks[k].stage.chosen != p.client;
      RunOneMore(server, steps, Remember(id, k));
      var one := [Remember(id, k)];
      assert Settling(one[0], id);
      assert PeerOf(Run(server, steps + one), id).memory == p.talks[k].stage.chosen;
    }
  }

  /**
   * Two negotiations for any two names, both answered and read, whose handlers remember in the other order: all is
   * done, the client holds the second name and the server the first.
   */
  lemma LateRemember(server: seq<string>, id: string, x: string, y: string)
    requires x in server && y in server && x != "" && y != ""
    ensures var steps := [Begin(id, [x]), Handle(id, 0, true), Receive(id, 0)]
                         + [Begin(id, [y]), Handle(id, 1, true), Receive(id, 1)]
                         + [Remember(id, 1), Remember(id, 0)];
            var p := PeerOf(Run(server, steps), id);
            p.client == y && p.memory == x && forall k :: !Due(p, k)
  {
    ChoiceOfOne(server, x);
    ChoiceOfOne(server, y);
    hide Choice, Run, PeerStep;
    var first := [Begin(id, [x]), Handle(id, 0, true), Receive(id, 0)];
    var second := [Begin(id, [y]), Handle(id, 1, true), Receive(id, 1)];
    var p0, p1, p2 := PeerOf(Run(server, []), id), PeerOf(Run(server, first), id),
                      PeerOf(Run(server, first + second), id);
    StrangerAtFirst(server, id);
    NextThree(server, [], Begin(id, [x]), Handle(id, 0, true), Receive(id, 0));
    assert [] + first == first;
    ReadAtOnce(server, p0, id, x);
    NextThree(server, first, Begin(id, [y]), Handle(id, 1, true), Receive(id, 1));
    ReadAtOnce(server, p1, id, y);
    NextTwo(server, first + second, Remember(id, 1), Remember(id, 0));
    RememberBoth(server, p2, id);
  }

  lemma StrangerAtFirst(server: seq<string>, id: string)
    ensures PeerOf(Run(server, []), id) == STRANGER
  {
  }

  /** A negotiation for one name, answered and read at once. */
  lemma ReadAtOnce(server: seq<string>, p: Peer, id: string, name: string)
    requires Choice(server, [name]) == name != ""
    ensures var k := |p.talks|;
            PeerStep(server, PeerStep(server, PeerStep(server, p, Begin(id, [name])), Handle(id, k, true)),
                     Receive(id, k))
            == p.(talks := p.talks + [Talk([name], Answered(name, true, false))], client := name, heard := Some(k))
  {
    hide Choice;
  }

  lemma RememberBoth(server: seq<string>, p: Peer, id: string)
    requires |p.talks| == 2 && Due(p, 0) && Due(p, 1)
    ensures var q := PeerStep(server, PeerStep(server, p, Remember(id, 1)), Remember(id, 0));
            q.client == p.client && q.memory == p.talks[0].stage.chosen && forall k :: !Due(q, k)
  {
  }

  lemma ChoiceOfOne(server: seq<string>, name: string)
    requires name in server
    ensures Choice(server, [name]) == name
  {
  }

  lemma NextTwo(server: seq<string>, steps: seq<Step>, s: Step, t: Step)
    requires s.id == t.id
    ensures PeerOf(Run(server, steps + [s, t]), s.id)
         == PeerStep(server, PeerStep(server, PeerOf(Run(server, steps), s.id), s), t)
  {
    RunOneMore(server, steps, s);
    RunOneMore(server, steps + [s], t);
    assert steps + [s, t] == steps + [s] + [t];
    hide Run, PeerStep;
  }

  lemma NextThree(server: seq<string>, steps: seq<Step>, s: Step, t: Step, u: Step)
    requires s.id == t.id == u.id
    ensures PeerOf(Run(server, steps + [s, t, u]), s.id)
         == PeerStep(server, PeerStep(server, PeerStep(server, PeerOf(Run(server, steps), s.id), s), t), u)
  {
    NextTwo(server, steps, s, t);
    RunOneMore(server, steps + [s, t], u);
    assert steps + [s, t, u] == steps + [s, t] + [u];
    hide Run, PeerStep;
  }

  /** A negotiation whose reply could not be sent is never read and never remembered, whatever follows. */
  lemma {:induction false} DroppedStaysDropped(server: seq<string>, p: Peer, rest: seq<Step>, k: nat)
    requires k < |p.talks| && p.talks[k].stage == Dropped && p.heard != Some(k) && p.noted != Some(k)
    ensures var q := AfterAll(server, p, rest);
            k < |q.talks| && q.talks[k].stage == Dropped && q.heard != Some(k) && q.noted != Some(k)
  {
    if rest != [] {
      DroppedStaysDropped(server, p, rest[..|rest| - 1], k);
      hide Choice;
    }
  }

  function AfterAll(server: seq<string>, p: Peer, steps: seq<Step>): Peer {
    if steps == [] then p else PeerStep(server, AfterAll(server, p, steps[..|steps| - 1]), steps[|steps| - 1])
  }

  lemma HandleWithoutReply(server: seq<string>, p: Peer, id: string, k: nat)
    requires k < |p.talks| && p.talks[k].stage == Open
    ensures var q := PeerStep(server, p, Handle(id, k, false));
            q.talks[k].stage == Dropped && q.client == p.client && q.memory == p.memory
  {
  }

  /** After a reset the client holds no name until it reads a reply, and the server's memory is not touched by it. */
  lemma {:induction false} ResetForgets(server: seq<string>, p: Peer, id: string, rest: seq<Step>)
    requires forall i | 0 <= i < |rest| :: !rest[i].Receive?
    ensures AfterAll(server, PeerStep(server, p, Reset(id)), rest).client == ""
    ensures PeerStep(server, p, Reset(id)).memory == p.memory
  {
    if rest != [] {
      ResetForgets(server, p, id, rest[..|rest| - 1]);
      hide Choice;
    }
  }

  /** A step about one peer leaves the others alone. */
  lemma PeersAreIndependent(server: seq<string>, peers: Peers, s: Step, id: string)
    requires id != s.id
    ensures PeerOf(Next(server, peers, s), id) == PeerOf(peers, id)
  {
  }

  /**
   * The server answers before it remembers, so a client that acts on the reply at once can meet the old memory:
   * after a reply was read the two agree if and only if that name was in memory already, or once it is remembered.
   */
  lemma ReplyOvertakesMemory(server: seq<string>, p: Peer, id: string, k: nat)
    requires k < |p.talks| && p.talks[k].stage == Open && Choice(server, p.talks[k].offer) != ""
    ensures var name := Choice(server, p.talks[k].offer);
            var early := PeerStep(server, PeerStep(server, p, Handle(id, k, true)), Receive(id, k));
            var late := PeerStep(server, early, Remember(id, k));
            && early.client == name && (early.client == early.memory <==> name == p.memory)
            && late.client == late.memory == name && late.heard == late.noted == Some(k)
  {
    hide Choice;
  }

  /** The server's memory: the empty name deletes the entry. */
  class Memory {
    var lastChosen: map<string, string>

    /** The name remembered for a peer, or the empty one. */
    function Name(id: string): string
      reads this
    {
      if id in lastChosen then lastChosen[id] else ""
    }

    constructor ()
      ensures lastChosen == map[]
    {
      lastChosen := map[];
    }

    method RememberChosenProtocol(id: string, name: string)
      modifies this
      ensures Name(id) == name && forall k | k != id :: Name(k) == old(Name(k))
    {
      if name == "" {
        lastChosen := lastChosen - {id};
        return;
      }
      lastChosen := lastChosen[id := name];
    }

    method LastChosenProtocol(id: string) returns (name: string)
      ensures name == Name(id)
    {
      name := if id in lastChosen then lastChosen[id] else "";
    }
  }

  lemma MemoryStep(server: seq<string>, p: Peer, s: Step)
    ensures PeerStep(server, p, s).memory
         == if s.Remember? && Due(p, s.k) then p.talks[s.k].stage.chosen else p.memory
  {
    hide Choice;
  }

  /** The handlers of any run keep, in the one map of the server, the memory of every peer. */
  method Serve(server: seq<string>, steps: seq<Step>) returns (m: Memory)
    ensures forall id :: m.Name(id) == PeerOf(Run(server, steps), id).memory
  {
    m := new Memory();
    var peers: Peers := map[];
    assert steps[..0] == [];
    for i := 0 to |steps|
      invariant peers == Run(server, steps[..i])
      invariant fresh(m) && forall id :: m.Name(id) == PeerOf(peers, id).memory
    {
      var s := steps[i];
      var p := PeerOf(peers, s.id);
      assert steps[..i + 1] == steps[..i] + [s];
      RunOneMore(server, steps[..i], s);
      MemoryStep(server, p, s);
      hide Run, PeerStep;
      if s.Remember? && Due(p, s.k) {
        m.RememberChosenProtocol(s.id, p.talks[s.k].stage.chosen);
      }
      peers := Next(server, peers, s);
    }
    assert steps[..|steps|] == steps;
  }
}
