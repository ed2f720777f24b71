/**
 * ProxyClient's dialing (pkg/client/proxy.go:176-394, 497-578): one dial, the fallback loop over rotated preferences,
 * and the automatic policy on top. What the network does in each dial is an arbitrary input.
 */
module Dialing {
  import opened Bytes
  import opened Text
  import opened Protocols

  // ---------------------------------------------------------------- the outside world

  datatype Response = ReadError | Line(text: string)

  /** What happens to one dial; `negotiated` is None when the negotiation fails, which is not an error of the dial. */
  datatype World = World(connects: bool, negotiated: Option<string>, opens: bool, obfsWritten: bool, obfsReplied: bool,
                         handshakes: bool, requestWritten: bool, response: Response, latency: int)

  /** One dial that was made: the preference order and adapters it offered, and whether it gave a stream. */
  datatype Attempt = Attempt(order: seq<string>, adapters: set<string>, ok: bool)

  /** How many of the attempts failed. */
  function Failures(ds: seq<Attempt>): nat {
    if ds == [] then 0 else Failures(ds[..|ds| - 1]) + if ds[|ds| - 1].ok then 0 else 1
  }

  lemma {:induction false} FailuresAppend(xs: seq<Attempt>, ys: seq<Attempt>)
    ensures Failures(xs + ys) == Failures(xs) + Failures(ys)
  {
    if ys == [] {
      assert xs + ys == xs;
    } else {
      FailuresAppend(xs, ys[..|ys| - 1]);
      assert (xs + ys)[..|xs + ys| - 1] == xs + ys[..|ys| - 1];
    }
  }

  // ---------------------------------------------------------------- rotated preferences

  /** The adapters that DialTCPWithFallback registers anew; unlike NewProxyClient it leaves out vmess. */
  function FallbackAdapters(): set<string> {
    {"vless", "trojan", "shadowsocks", "hysteria2", "plain"}
  }

  const DEFAULT_PREFERRED := ["vless", "vmess", "trojan", "shadowsocks", "hysteria2", "plain"]

  function Rotate(xs: seq<string>, k: nat): seq<string>
    requires k <= |xs|
  {
    xs[k..] + xs[..k]
  }

  function Restrict(xs: seq<string>, s: set<string>): seq<string> {
    if xs == [] then []
    else (if xs[0] in s then [xs[0]] else []) + Restrict(xs[1..], s)
  }

  ghost predicate Distinct(xs: seq<string>) {
    forall i, j | 0 <= i < j < |xs| :: xs[i] != xs[j]
  }

  /** Ascending positions of `order` at which the names of `xs` sit. */
  lemma {:induction false} RestrictSorted(order: seq<string>, k: nat, s: set<string>)
    requires Distinct(order) && k <= |order|
    ensures Sorted(order, Restrict(order[k..], s))
    ensures forall n :: n in Restrict(order[k..], s) <==> n in order[k..] && n in s
    decreases |order| - k
  {
    if k < |order| {
      RestrictSorted(order, k + 1, s);
      var xs, rest := Restrict(order[k..], s), Restrict(order[k + 1..], s);
      assert order[k..][1..] == order[k + 1..];
      assert order[k..] == [order[k]] + order[k + 1..];
      assert xs == (if order[k] in s then [order[k]] else []) + rest;
      forall n | n in rest
        ensures Before(order, order[k], n)
      {
        assert n in order[k + 1..];
        var j :| k < j < |order| && order[j] == n;
        PositionOf(order, k);
        PositionOf(order, j);
      }
      hide Before;
      if order[k] in s {
        forall i, j | 0 <= i < j < |xs|
          ensures Before(order, xs[i], xs[j])
        {
          assert xs[j] == rest[j - 1];
          if i > 0 {
            assert xs[i] == rest[i - 1];
          }
        }
      }
    }
  }

  lemma PositionOf(order: seq<string>, i: nat)
    requires Distinct(order) && i < |order|
    ensures order[i] in order && LastIndex(order, order[i]) == i
  {
    var l := LastIndex(order, order[i]);
    assert order[l] == order[i];
  }

  /**
   * A manager whose preference is the k-th rotation of the preferred names and whose adapters are among them offers
   * exactly that rotation restricted to the adapters: it is the only list that SupportedNames can return.
   */
  lemma RotationOffer(preferred: seq<string>, k: nat, adapters: set<string>, names: seq<string>)
    requires Distinct(preferred) && k <= |preferred| && (forall n | n in adapters :: n in preferred)
    requires Lists(Rotate(preferred, k), adapters, names)
    ensures names == Restrict(Rotate(preferred, k), adapters)
    ensures preferred != [] ==> names == Circle(preferred, k, adapters, |preferred|)
  {
    var order := Rotate(preferred, k);
    assert preferred == preferred[..k] + preferred[k..];
    RotateDistinct(preferred, k);
    RestrictSorted(order, 0, adapters);
    assert order[0..] == order;
    hide Before, LastIndex, Restrict;
    assert Lists(order, adapters, Restrict(order, adapters)) by {
      forall n
        ensures n in Restrict(order, adapters) <==> n in adapters
      {
        assert n in adapters ==> n in preferred && n in order;
      }
    }
    ListsIsUnique(order, adapters, names, Restrict(order, adapters));
    if preferred != [] {
      RestrictIsCircle(preferred, k, adapters, |preferred|);
      assert order[..|preferred|] == order;
    }
  }

  /** Place `i` of a rotation by `k` holds what is `k` places further on, in a circle. */
  lemma RotateAt(xs: seq<string>, k: nat, i: nat)
    requires k <= |xs| && i < |xs|
    ensures |Rotate(xs, k)| == |xs| && Rotate(xs, k)[i] == xs[(i + k) % |xs|]
  {
    Around(i + k, |xs|);
  }

  lemma Around(a: nat, n: nat)
    requires a < 2 * n
    ensures a % n == if a < n then a else a - n
  {
  }

  /** `names` are those of `xs`, walked in a circle from place `k` on, that are in `s`; the first `n` places so far. */
  function Circle(xs: seq<string>, k: nat, s: set<string>, n: nat): seq<string>
    requires xs != []
  {
    if n == 0 then [] else
    var x := xs[(n - 1 + k) % |xs|];
    Circle(xs, k, s, n - 1) + if x in s then [x] else []
  }

  lemma {:induction false} RestrictAppend(xs: seq<string>, ys: seq<string>, s: set<string>)
    ensures Restrict(xs + ys, s) == Restrict(xs, s) + Restrict(ys, s)
  {
    if xs == [] {
      assert xs + ys == ys;
    } else {
      RestrictAppend(xs[1..], ys, s);
      assert (xs + ys)[1..] == xs[1..] + ys;
      Regroup(if xs[0] in s then [xs[0]] else [], Restrict(xs[1..], s), Restrict(ys, s));
    }
  }

  lemma {:induction false} RestrictIsCircle(xs: seq<string>, k: nat, s: set<string>, n: nat)
    requires xs != [] && k <= |xs| && n <= |xs|
    ensures |Rotate(xs, k)| == |xs| && Restrict(Rotate(xs, k)[..n], s) == Circle(xs, k, s, n)
  {
    if n > 0 {
      RestrictIsCircle(xs, k, s, n - 1);
      RotateAt(xs, k, n - 1);
      var r := Rotate(xs, k);
      hide Rotate;
      assert r[..n] == r[..n - 1] + [r[n - 1]];
      RestrictAppend(r[..n - 1], [r[n - 1]], s);
      assert [r[n - 1]][1..] == [];
    }
  }

  lemma RotateDistinct(xs: seq<string>, k: nat)
    requires Distinct(xs) && k <= |xs|
    ensures Distinct(Rotate(xs, k))
  {
    var ys := Rotate(xs, k);
    forall i, j | 0 <= i < j < |ys|
      ensures ys[i] != ys[j]
    {
      var a := if i < |xs| - k then i + k else i - (|xs| - k);
      var b := if j < |xs| - k then j + k else j - (|xs| - k);
      assert ys[i] == xs[a] && ys[j] == xs[b] && a != b;
    }
  }

  /** What NewProxyClient sets up meets the conditions of RotationOffer. */
  lemma DefaultsRotate()
    ensures Distinct(DEFAULT_PREFERRED) && forall n | n in FallbackAdapters() :: n in DEFAULT_PREFERRED
  {
    var p := DEFAULT_PREFERRED;
    assert p[0] == "vless" && p[2] == "trojan" && p[3] == "shadowsocks" && p[4] == "hysteria2" && p[5] == "plain";
  }

  // ---------------------------------------------------------------- the client

  predicate NeedsHandshake(proto: string, token: string) {
    ((proto == "vless" || proto == "vmess" || proto == "shadowsocks") && token != "") || proto == "hysteria2"
  }

  /** What a client is built with. */
  datatype Conf = Conf(asksObfs: bool, token: string, preferred: seq<string>)

  /** What a call can change: the manager's preference and adapters, the protocol in force, statistics and policy. */
  datatype State = State(order: seq<string>, adapters: set<string>, proto: string, errors: nat, latency: int,
                         threshold: int, maxErrors: int)

  /** The behaviour of the network in the dials of one call. */
  type Worlds = nat -> World

  /** The protocol in force in a dial: the one just negotiated, or else the one of before. */
  function ProtoIn(proto: string, w: World): string {
    if w.negotiated.Some? then w.negotiated.value else proto
  }

  /** What has to go well for a dial to return a stream. */
  predicate Succeeds(c: Conf, proto: string, w: World) {
    && w.connects && w.opens
    && (c.asksObfs ==> w.obfsWritten && w.obfsReplied)
    && (NeedsHandshake(ProtoIn(proto, w), c.token) ==> w.handshakes)
    && w.requestWritten && w.response.Line? && !("ERR " <= w.response.text)
  }

  /** The state after one dial: an error more, or the latency of the stream returned. */
  function Dialed(c: Conf, st: State, w: World): State {
    var after := st.(proto := if w.connects then ProtoIn(st.proto, w) else st.proto);
    if Succeeds(c, st.proto, w) then after.(latency := w.latency) else after.(errors := st.errors + 1)
  }

  // ---------------------------------------------------------------- what a call does

  /** The dials that a call made, whether it returned a stream, and the state it left. */
  datatype Outcome = Outcome(st: State, made: seq<Attempt>, got: bool)

  /** The protocol in force before dial `k` of a fallback: all but the first forget it. */
  function ProtoBefore(st: State, k: nat): string {
    if k == 0 then st.proto else ""
  }

  /** Dial `k` of a fallback: what it offers, and whether it meets what it needs. */
  function DialAt(c: Conf, st: State, worlds: Worlds, k: nat): Attempt
    requires k == 0 || k <= |c.preferred|
  {
    Attempt(if k == 0 then st.order else Rotate(c.preferred, k),
            if k == 0 then st.adapters else FallbackAdapters(),
            Succeeds(c, ProtoBefore(st, k), worlds(k)))
  }

  function Dials(c: Conf, st: State, worlds: Worlds, n: nat): (ds: seq<Attempt>)
    requires n <= 1 || n <= |c.preferred|
    ensures |ds| == n && forall k | 0 <= k < n :: ds[k] == DialAt(c, st, worlds, k)
  {
    seq(n, k requires 0 <= k < n => DialAt(c, st, worlds, k))
  }

  /** The latency of the last of `n` dials that succeeded. */
  function LastLatency(c: Conf, st: State, worlds: Worlds, n: nat): int
    requires n <= 1 || n <= |c.preferred|
  {
    if n == 0 then st.latency
    else if DialAt(c, st, worlds, n - 1).ok then worlds(n - 1).latency
    else LastLatency(c, st, worlds, n - 1)
  }

  /** The state after `n` dials: one error more for each that failed. */
  function StateAfter(c: Conf, st: State, worlds: Worlds, n: nat): State
    requires n <= 1 || n <= |c.preferred|
  {
    if n == 0 then st else
    var last, proto, w := DialAt(c, st, worlds, n - 1), ProtoBefore(st, n - 1), worlds(n - 1);
    State(last.order, last.adapters, if w.connects then ProtoIn(proto, w) else proto,
          st.errors + Failures(Dials(c, st, worlds, n)), LastLatency(c, st, worlds, n), st.threshold, st.maxErrors)
  }

  /** The outcome of `n` dials. */
  function AfterDials(c: Conf, st: State, worlds: Worlds, n: nat, got: bool): Outcome
    requires n <= 1 || n <= |c.preferred|
  {
    Outcome(StateAfter(c, st, worlds, n), Dials(c, st, worlds, n), got)
  }

  /** Dial `k` of a fallback gives a stream that is fast enough. */
  predicate Good(c: Conf, st: State, worlds: Worlds, threshold: int, k: nat) {
    Succeeds(c, ProtoBefore(st, k), worlds(k)) && (threshold <= 0 || worlds(k).latency <= threshold)
  }

  ghost predicate OneDial(c: Conf, st: State, worlds: Worlds, o: Outcome) {
    o == AfterDials(c, st, worlds, 1, Succeeds(c, st.proto, worlds(0)))
  }

  /** The fallback dials until the first dial that is good, or once for each preferred name. */
  ghost predicate FallsBack(c: Conf, st: State, worlds: Worlds, threshold: int, o: Outcome) {
    if c.preferred == [] then OneDial(c, st, worlds, o) else
    var n := |o.made|;
    && 1 <= n <= |c.preferred| && o == AfterDials(c, st, worlds, n, Good(c, st, worlds, threshold, n - 1))
    && (forall k | 0 <= k < n - 1 :: !Good(c, st, worlds, threshold, k))
    && (!o.got ==> n == |c.preferred|)
  }

  function Later(worlds: Worlds): Worlds {
    (k: nat) => worlds(k + 1)
  }

  /** The automatic policy: one dial if that is good enough, and else, or after too many errors, the fallback. */
  ghost predicate Decides(c: Conf, st: State, worlds: Worlds, o: Outcome) {
    if st.threshold <= 0 && st.maxErrors <= 0 then OneDial(c, st, worlds, o)
    else if st.maxErrors > 0 && st.errors >= st.maxErrors then FallsBack(c, st, worlds, st.threshold, o)
    else if Good(c, st, worlds, st.threshold, 0) then OneDial(c, st, worlds, o)
    else
      && o.made != [] && o.made[0] == DialAt(c, st, worlds, 0)
      && FallsBack(c, StateAfter(c, st, worlds, 1), Later(worlds), st.threshold, o.(made := o.made[1..]))
  }

  datatype Call = Plain | Fallback(threshold: int) | Auto | Policy(latency: int, errors: int)

  ghost predicate Carries(c: Conf, st: State, call: Call, worlds: Worlds, o: Outcome) {
    match call
    case Plain => OneDial(c, st, worlds, o)
    case Fallback(threshold) => FallsBack(c, st, worlds, threshold, o)
    case Auto => Decides(c, st, worlds, o)
    case Policy(latency, errors) =>
      o == Outcome(st.(threshold := latency, maxErrors := if errors < 0 then 0 else errors), [], false)
  }

  // ---------------------------------------------------------------- what follows from it

  lemma OneDialIsDialed(c: Conf, st: State, worlds: Worlds)
    ensures StateAfter(c, st, worlds, 1) == Dialed(c, st, worlds(0))
    ensures StateAfter(c, st, worlds, 0) == st && Dials(c, st, worlds, 0) == []
    ensures Dials(c, st, worlds, 1) == [DialAt(c, st, worlds, 0)]
  {
    var d := DialAt(c, st, worlds, 0);
    OneFailure(d);
    assert Dials(c, st, worlds, 1) == [d];
    assert LastLatency(c, st, worlds, 0) == st.latency;
  }

  /** The state in which dial `k` of a fallback starts: all but the first rotate the preference. */
  function BeforeDial(c: Conf, st: State, worlds: Worlds, k: nat): State
    requires k == 0 || k < |c.preferred|
  {
    if k == 0 then st
    else StateAfter(c, st, worlds, k).(order := Rotate(c.preferred, k), adapters := FallbackAdapters(), proto := "")
  }

  /** One dial more. */
  lemma DialMore(c: Conf, st: State, worlds: Worlds, k: nat)
    requires k == 0 || k < |c.preferred|
    ensures StateAfter(c, st, worlds, k + 1) == Dialed(c, BeforeDial(c, st, worlds, k), worlds(k))
    ensures Dials(c, st, worlds, k + 1) == Dials(c, st, worlds, k) + [DialAt(c, st, worlds, k)]
  {
    hide FallbackAdapters, Rotate, Succeeds;
    var d := DialAt(c, st, worlds, k);
    OneDialIsDialed(c, st, worlds);
    FailuresAppend(Dials(c, st, worlds, k), [d]);
    OneFailure(d);
    assert Dials(c, st, worlds, k + 1) == Dials(c, st, worlds, k) + [d];
  }

  /** What one dial of a fallback offers and gives. */
  lemma DialMeans(c: Conf, st: State, worlds: Worlds, threshold: int, k: nat)
    requires k == 0 || k < |c.preferred|
    ensures var b, after := BeforeDial(c, st, worlds, k), Dialed(c, BeforeDial(c, st, worlds, k), worlds(k));
            && DialAt(c, st, worlds, k) == Attempt(b.order, b.adapters, Succeeds(c, b.proto, worlds(k)))
            && after.order == b.order && after.adapters == b.adapters
            && (Good(c, st, worlds, threshold, k)
                <==> Succeeds(c, b.proto, worlds(k)) && (threshold <= 0 || after.latency <= threshold))
  {
    hide FallbackAdapters, Rotate, Succeeds, StateAfter;
  }

  /** The network decides the outcome: how many dials are made, what they offer and give, and the state after them. */
  lemma OutcomeIsDetermined(c: Conf, st: State, call: Call, worlds: Worlds, o: Outcome, p: Outcome)
    requires Carries(c, st, call, worlds, o) && Carries(c, st, call, worlds, p)
    ensures o == p
  {
    hide Good, AfterDials, StateAfter, DialAt, Later, OneDial, FallsBack;
    match call
    case Fallback(threshold) => FallbackIsDetermined(c, st, worlds, threshold, o, p);
    case Auto =>
      var st1, o1, p1 := StateAfter(c, st, worlds, 1), o.made, p.made;
      if Direct(c, st, worlds) {
        OneDialIsDetermined(c, st, worlds, o, p);
      } else if st.maxErrors > 0 && st.errors >= st.maxErrors {
        FallbackIsDetermined(c, st, worlds, st.threshold, o, p);
      } else {
        FallbackIsDetermined(c, st1, Later(worlds), st.threshold, o.(made := o1[1..]), p.(made := p1[1..]));
        assert o1 == [o1[0]] + o1[1..] && p1 == [p1[0]] + p1[1..];
      }
    case Plain => OneDialIsDetermined(c, st, worlds, o, p);
    case Policy(_, _) =>
  }

  /** The automatic policy makes do with one dial. */
  predicate Direct(c: Conf, st: State, worlds: Worlds) {
    (st.threshold <= 0 && st.maxErrors <= 0)
    || (!(st.maxErrors > 0 && st.errors >= st.maxErrors) && Good(c, st, worlds, st.threshold, 0))
  }

  lemma OneDialIsDetermined(c: Conf, st: State, worlds: Worlds, o: Outcome, p: Outcome)
    requires OneDial(c, st, worlds, o) && OneDial(c, st, worlds, p)
    ensures o == p
  {
  }

  lemma FallbackIsDetermined(c: Conf, st: State, worlds: Worlds, threshold: int, o: Outcome, p: Outcome)
    requires FallsBack(c, st, worlds, threshold, o) && FallsBack(c, st, worlds, threshold, p)
    ensures o == p
  {
    hide StateAfter, DialAt, Good;
  }

  /** What a dial needs, failure by failure: without any of these it returns a stream. */
  lemma FailsExactly(c: Conf, proto: string, w: World)
    ensures var p := if w.negotiated.Some? then w.negotiated.value else proto;
            !Succeeds(c, proto, w) <==>
            || !w.connects || !w.opens || (c.asksObfs && !(w.obfsWritten && w.obfsReplied))
            || (p in {"vless", "vmess", "shadowsocks"} && c.token != "" && !w.handshakes)
            || (p == "hysteria2" && !w.handshakes)
            || !w.requestWritten || w.response.ReadError? || (w.response.Line? && "ERR " <= w.response.text)
  {
  }

  /** The places of the attempts that failed. */
  function FailedPlaces(ds: seq<Attempt>): set<nat> {
    set k: nat | k < |ds| && !ds[k].ok
  }

  lemma FailedPlacesMore(ds: seq<Attempt>, d: Attempt)
    ensures FailedPlaces(ds + [d]) == FailedPlaces(ds) + (if d.ok then {} else {|ds|})
  {
    var all := ds + [d];
    forall k: nat
      ensures k in FailedPlaces(all) <==> k in FailedPlaces(ds) || (k == |ds| && !d.ok)
    {
      if k < |ds| {
        assert all[k] == ds[k];
      }
    }
  }

  lemma {:induction false} FailuresAreCounted(ds: seq<Attempt>)
    ensures Failures(ds) == |FailedPlaces(ds)|
  {
    if ds == [] {
      assert FailedPlaces(ds) == {};
    } else {
      var n := |ds| - 1;
      FailuresAreCounted(ds[..n]);
      FailedPlacesMore(ds[..n], ds[n]);
      assert ds == ds[..n] + [ds[n]] && n !in FailedPlaces(ds[..n]);
      hide FailedPlaces;
    }
  }

  /**
   * The dials of a fallback: the first with the client's own preference, adapters and protocol, dial `k` with no
   * protocol, the adapters registered anew, and the preferred names in a circle from number `k` on.
   */
  lemma FallbackDials(c: Conf, st: State, worlds: Worlds, threshold: int, o: Outcome, k: nat)
    requires FallsBack(c, st, worlds, threshold, o) && k < |o.made|
    ensures k == 0 ==> o.made[k] == Attempt(st.order, st.adapters, Succeeds(c, st.proto, worlds(0)))
    ensures k > 0 ==>
              && o.made[k].ok == Succeeds(c, "", worlds(k))
              && o.made[k].adapters == {"vless", "trojan", "shadowsocks", "hysteria2", "plain"}
              && |o.made[k].order| == |c.preferred|
              && forall i | 0 <= i < |c.preferred| :: o.made[k].order[i] == c.preferred[(i + k) % |c.preferred|]
  {
    hide Succeeds, StateAfter, Good, Rotate;
    if k > 0 {
      assert o.made[k] == DialAt(c, st, worlds, k);
      forall i | 0 <= i < |c.preferred|
        ensures |Rotate(c.preferred, k)| == |c.preferred|
        ensures Rotate(c.preferred, k)[i] == c.preferred[(i + k) % |c.preferred|]
      {
        RotateAt(c.preferred, k, i);
      }
      RotateAt(c.preferred, k, 0);
    }
  }

  /** Dial `k` of a fallback succeeds within the threshold. */
  predicate Quick(c: Conf, proto: string, w: World, threshold: int) {
    Succeeds(c, proto, w) && (threshold <= 0 || w.latency <= threshold)
  }

  /**
   * The automatic policy, in terms of its settings: without one a single dial; from the limit of errors on, the
   * fallback at once; else one dial, which is enough if it succeeds within the threshold, and the fallback after it.
   */
  lemma AutoExactly(c: Conf, st: State, worlds: Worlds, o: Outcome)
    requires Decides(c, st, worlds, o)
    ensures st.threshold <= 0 && st.maxErrors <= 0 ==> |o.made| == 1 && o.got == Succeeds(c, st.proto, worlds(0))
    ensures 0 < st.maxErrors <= st.errors ==> FallsBack(c, st, worlds, st.threshold, o)
    ensures (st.threshold > 0 || st.maxErrors > 0) && !(0 < st.maxErrors <= st.errors) ==>
              if Quick(c, st.proto, worlds(0), st.threshold) then o.got && |o.made| == 1
              else o.made != []
                   && FallsBack(c, Dialed(c, st, worlds(0)), Later(worlds), st.threshold, o.(made := o.made[1..]))
    ensures o.made != [] && o.made[0] == Attempt(st.order, st.adapters, Succeeds(c, st.proto, worlds(0)))
    ensures forall k: nat :: Later(worlds)(k) == worlds(k + 1)
  {
    OneDialIsDialed(c, st, worlds);
    hide Succeeds, StateAfter, Dialed;
    if 0 < st.maxErrors <= st.errors {
      FallbackDials(c, st, worlds, st.threshold, o, 0);
    }
  }

  lemma {:induction false} NoneSucceeded(c: Conf, st: State, worlds: Worlds, n: nat)
    requires (n <= 1 || n <= |c.preferred|) && forall k | 0 <= k < n :: !DialAt(c, st, worlds, k).ok
    ensures LastLatency(c, st, worlds, n) == st.latency
  {
    if n > 0 {
      NoneSucceeded(c, st, worlds, n - 1);
    }
  }

  /** After the last dial of a call: its order and adapters, and its latency if it succeeded. */
  lemma StateOfLast(c: Conf, st: State, worlds: Worlds, threshold: int, o: Outcome)
    requires FallsBack(c, st, worlds, threshold, o)
    ensures var n := |o.made| - 1;
            && n >= 0 && o.st.order == o.made[n].order && o.st.adapters == o.made[n].adapters
            && o.st.threshold == st.threshold && o.st.maxErrors == st.maxErrors
            && (o.made[n].ok ==> o.st.latency == worlds(n).latency)
            && ((forall k | 0 <= k <= n :: !o.made[k].ok) ==> o.st.latency == st.latency)
            && o.st.proto == (var proto := if n == 0 then st.proto else "";
                              if !worlds(n).connects then proto
                              else if worlds(n).negotiated.Some? then worlds(n).negotiated.value else proto)
  {
    hide Succeeds, FallbackAdapters, Rotate, Failures, Good;
    if forall k | 0 <= k < |o.made| :: !o.made[k].ok {
      forall k | 0 <= k < |o.made|
        ensures !DialAt(c, st, worlds, k).ok
      {
        assert o.made[k] == DialAt(c, st, worlds, k);
      }
      NoneSucceeded(c, st, worlds, |o.made|);
    }
  }

  /**
   * The fallback returns a stream if and only if one of the dials for its preferred names is good, then after the
   * first of these; the stream meets the threshold.
   */
  lemma FallbackFindsFirst(c: Conf, st: State, worlds: Worlds, threshold: int, o: Outcome)
    requires FallsBack(c, st, worlds, threshold, o) && c.preferred != []
    ensures o.got <==> exists k: nat ::
              k < |c.preferred| && Quick(c, if k == 0 then st.proto else "", worlds(k), threshold)
    ensures o.got ==>
              var n := |o.made| - 1;
              && (forall k: nat | k < n :: !Quick(c, if k == 0 then st.proto else "", worlds(k), threshold))
              && Quick(c, if n == 0 then st.proto else "", worlds(n), threshold)
    ensures !o.got ==> |o.made| == |c.preferred|
    ensures o.got && threshold > 0 ==> o.st.latency <= threshold
    ensures forall k | 0 <= k < |o.made| :: o.made[k] == DialAt(c, st, worlds, k)
  {
    var n := |o.made|;
    hide Succeeds, FallbackAdapters, Rotate, Failures;
    forall k: nat
      ensures Good(c, st, worlds, threshold, k) <==>
              Quick(c, if k == 0 then st.proto else "", worlds(k), threshold)
    {
    }
    hide Good, Quick;
    if !o.got {
      forall k | 0 <= k < |c.preferred|
        ensures !Good(c, st, worlds, threshold, k)
      {
        assert k < n - 1 || k == n - 1;
      }
    }
  }

  /** The error counter rises by exactly the dials of the call that failed. */
  lemma ErrorsCounted(c: Conf, st: State, call: Call, worlds: Worlds, o: Outcome)
    requires Carries(c, st, call, worlds, o)
    ensures o.st.errors == st.errors + Failures(o.made)
  {
    hide Failures, Good, DialAt, LastLatency, Later;
    OneFailure(Attempt([], {}, true));
    OneDialIsDialed(c, st, worlds);
    if call.Auto? && !Direct(c, st, worlds) && !(st.maxErrors > 0 && st.errors >= st.maxErrors) {
      FailuresAppend([o.made[0]], o.made[1..]);
      assert o.made == [o.made[0]] + o.made[1..];
    }
  }

  class ProxyClient {
    const asksObfs: bool
    const token: string
    const preferred: seq<string>
    var order: seq<string>
    var adapters: set<string>
    var chosenProto: string
    var errorCount: nat
    var lastDialLatency: int
    var latencyThreshold: int
    var maxErrors: int
    /** Streams opened and not closed by the client; those returned belong to its callers. */
    var open: set<nat>
    var nextStream: nat

    function C(): Conf {
      Conf(asksObfs, token, preferred)
    }

    function Now(): State
      reads this
    {
      State(order, adapters, chosenProto, errorCount, lastDialLatency, latencyThreshold, maxErrors)
    }

    ghost predicate Valid()
      reads this
    {
      forall s | s in open :: s < nextStream
    }

    constructor (preferred: seq<string>, adapters: set<string>, asksObfs: bool, token: string)
      ensures Valid() && open == {} && C() == Conf(asksObfs, token, preferred)
      ensures Now() == State(preferred, adapters, "", 0, 0, 0, 0)
    {
      this.asksObfs, this.token, this.preferred := asksObfs, token, preferred;
      order, this.adapters, chosenProto, errorCount := preferred, adapters, "", 0;
      lastDialLatency, latencyThreshold, maxErrors := 0, 0, 0;
      open, nextStream := {}, 0;
    }

    method SetQualityPolicy(latency: int, errors: int)
      modifies this`latencyThreshold, this`maxErrors
      ensures latencyThreshold == latency && maxErrors == (if errors < 0 then 0 else errors)
    {
      latencyThreshold := latency;
      maxErrors := if errors < 0 then 0 else errors;
    }

    method Close(s: nat)
      requires Valid()
      modifies this`open
      ensures Valid() && open == old(open) - {s}
    {
      open := open - {s};
    }

    /** Counting a failure, with the stream closed if there is one. */
    method Fail(s: Option<nat>)
      requires Valid()
      modifies this`open, this`errorCount
      ensures Valid() && errorCount == old(errorCount) + 1
      ensures open == if s.Some? then old(open) - {s.value} else old(open)
    {
      if s.Some? {
        Close(s.value);
      }
      errorCount := errorCount + 1;
    }

    /** Only the stream that is returned is opened for good. */
    twostate predicate Opens(new r: Option<nat>)
      reads this
    {
      && old(nextStream) <= nextStream
      && (r.Some? ==> old(nextStream) <= r.value && open == old(open) + {r.value})
      && (r == None ==> open == old(open))
    }

    /** A stream is returned exactly when all goes well; a dial that fails leaves nothing open. */
    method DialTCP(w: World) returns (r: Option<nat>)
      requires Valid()
      modifies this`chosenProto, this`errorCount, this`lastDialLatency, this`open, this`nextStream
      ensures Valid() && Opens(r)
      ensures r.Some? <==> Succeeds(C(), old(chosenProto), w)
      ensures Now() == Dialed(C(), old(Now()), w)
    {
      r := None;
      if !w.connects {
        Fail(None);
        return;
      }
      if w.negotiated.Some? {
        chosenProto := w.negotiated.value;
      }
      if !w.opens {
        Fail(None);
        return;
      }
      var s := nextStream;
      nextStream, open := nextStream + 1, open + {s};
      if asksObfs {
        if !w.obfsWritten || !w.obfsReplied {
          Fail(Some(s));
          return;
        }
      }
      if NeedsHandshake(chosenProto, token) && !w.handshakes {
        Fail(Some(s));
        return;
      }
      if !w.requestWritten {
        Fail(Some(s));
        return;
      }
      if w.response == ReadError {
        Fail(Some(s));
        return;
      }
      if "ERR " <= w.response.text {
        Fail(Some(s));
        return;
      }
      lastDialLatency := w.latency;
      r := Some(s);
    }

    /** `made` records the dials: what each offered, and whether it gave a stream. */
    method DialTCPWithFallback(worlds: Worlds, threshold: int) returns (r: Option<nat>, made: seq<Attempt>)
      requires Valid()
      modifies this`order, this`adapters, this`chosenProto, this`errorCount, this`lastDialLatency, this`open,
               this`nextStream
      ensures Valid() && Opens(r)
      ensures FallsBack(C(), old(Now()), worlds, threshold, Outcome(Now(), made, r.Some?))
    {
      ghost var st := Now();
      r := None;
      OneDialIsDialed(C(), st, worlds);
      hide Succeeds, FallbackAdapters, Rotate, Failures, StateAfter, Dials, DialAt, Dialed, Good;
      DialMeans(C(), st, worlds, threshold, 0);
      if |preferred| == 0 {
        r := DialTCP(worlds(0));
        made := [Attempt(order, adapters, r.Some?)];
        return;
      }
      made := [];
      for attempt := 0 to |preferred|
        invariant Valid() && Opens(None) && made == Dials(C(), st, worlds, attempt)
        invariant Now() == StateAfter(C(), st, worlds, attempt)
        invariant forall k | 0 <= k < attempt :: !Good(C(), st, worlds, threshold, k)
      {
        if attempt > 0 {
          order, adapters, chosenProto := Rotate(preferred, attempt), FallbackAdapters(), "";
        }
        assert Now() == BeforeDial(C(), st, worlds, attempt);
        DialMore(C(), st, worlds, attempt);
        DialMeans(C(), st, worlds, threshold, attempt);
        var stream := DialTCP(worlds(attempt));
        made := made + [Attempt(order, adapters, stream.Some?)];
        if stream == None {
          continue;
        }
        if threshold <= 0 || lastDialLatency <= threshold {
          return stream, made;
        }
        Close(stream.value);
      }
    }

    method DialTCPWithAutoQuality(worlds: Worlds) returns (r: Option<nat>, made: seq<Attempt>)
      requires Valid()
      modifies this`order, this`adapters, this`chosenProto, this`errorCount, this`lastDialLatency, this`open,
               this`nextStream
      ensures Valid() && Opens(r)
      ensures Decides(C(), old(Now()), worlds, Outcome(Now(), made, r.Some?))
    {
      hide Succeeds, FallbackAdapters, Rotate, Failures, StateAfter, FallsBack;
      ghost var st := Now();
      OneDialIsDialed(C(), st, worlds);
      var latThr, maxErr := latencyThreshold, maxErrors;
      if latThr <= 0 && maxErr <= 0 {
        r := DialTCP(worlds(0));
        made := [Attempt(order, adapters, r.Some?)];
        return;
      }
      if maxErr > 0 && errorCount >= maxErr {
        r, made := DialTCPWithFallback(worlds, latThr);
        return;
      }
      var stream := DialTCP(worlds(0));
      made := [Attempt(order, adapters, stream.Some?)];
      if stream.Some? {
        if latThr > 0 && lastDialLatency > latThr {
          Close(stream.value);
        } else {
          return stream, made;
        }
      }
      var more;
      r, more := DialTCPWithFallback(Later(worlds), latThr);
      made := made + more;
      assert made[1..] == more;
    }
  }

  /** Any of the calls. */
  method Make(p: ProxyClient, call: Call, worlds: Worlds) returns (r: Option<nat>, made: seq<Attempt>)
    requires p.Valid()
    modifies p
    ensures p.Valid() && p.Opens(r)
    ensures Carries(p.C(), old(p.Now()), call, worlds, Outcome(p.Now(), made, r.Some?))
  {
    hide FallsBack, Decides, OneDial;
    r, made := None, [];
    ghost var before := p.Now();
    match call {
      case Plain =>
        r := p.DialTCP(worlds(0));
        made := [Attempt(p.order, p.adapters, r.Some?)];
        IsOneDial(p.C(), before, worlds, p.Now(), made, r.Some?);
      case Fallback(threshold) => r, made := p.DialTCPWithFallback(worlds, threshold);
      case Auto => r, made := p.DialTCPWithAutoQuality(worlds);
      case Policy(latency, errors) => p.SetQualityPolicy(latency, errors);
    }
  }

  lemma FallbackSet()
    ensures FallbackAdapters() == {"vless", "trojan", "shadowsocks", "hysteria2", "plain"}
  {
  }

  /** What the managers of the fallback's dials offer: dial k the k-th rotation, restricted to the adapters it has. */
  lemma FallbackOffers(c: Conf, st: State, worlds: Worlds, threshold: int, o: Outcome, k: nat, names: seq<string>)
    requires 0 < k < |o.made| && Lists(o.made[k].order, o.made[k].adapters, names)
    ensures FallsBack(c, st, worlds, threshold, o)
            && Distinct(c.preferred) && (forall n | n in FallbackAdapters() :: n in c.preferred) ==>
              k < |c.preferred|
              && names == Circle(c.preferred, k, {"vless", "trojan", "shadowsocks", "hysteria2", "plain"},
                                 |c.preferred|)
  {
    hide Lists, Restrict, FallbackAdapters, Distinct, Rotate, Succeeds, StateAfter, Good;
    if FallsBack(c, st, worlds, threshold, o)
       && Distinct(c.preferred) && (forall n | n in FallbackAdapters() :: n in c.preferred)
    {
      assert o.made[k] == DialAt(c, st, worlds, k);
      RotationOffer(c.preferred, k, FallbackAdapters(), names);
      RestrictIsCircle(c.preferred, k, FallbackAdapters(), |c.preferred|);
      assert Rotate(c.preferred, k)[..|c.preferred|] == Rotate(c.preferred, k);
      FallbackSet();
    }
  }

  lemma OneFailure(a: Attempt)
    ensures Failures([a]) == (if a.ok then 0 else 1) && Failures([]) == 0
  {
  }

  // ---------------------------------------------------------------- whole runs

  /** Each call starts from the state that the one before left. */
  ghost predicate Runs(c: Conf, st: State, calls: seq<Call>, worlds: nat -> Worlds, os: seq<Outcome>) {
    && |os| == |calls|
    && (os != [] ==>
          var n := |os| - 1;
          Runs(c, st, calls[..n], worlds, os[..n]) && Carries(c, StateAt(st, os, n), calls[n], worlds(n), os[n]))
  }

  /** The state before call `i`. */
  function StateAt(st: State, os: seq<Outcome>, i: nat): State
    requires i <= |os|
  {
    if i == 0 then st else os[i - 1].st
  }

  /** How many of all the dials failed. */
  function AllFailures(os: seq<Outcome>): nat {
    if os == [] then 0 else AllFailures(os[..|os| - 1]) + Failures(os[|os| - 1].made)
  }

  /** Over a run of calls the error counter is the number of dials that failed, and the network decides everything. */
  lemma {:induction false} RunCounts(c: Conf, st: State, calls: seq<Call>, worlds: nat -> Worlds, os: seq<Outcome>)
    requires Runs(c, st, calls, worlds, os)
    ensures os != [] ==> os[|os| - 1].st.errors == st.errors + AllFailures(os)
    decreases |os|
  {
    if os != [] {
      var n := |os| - 1;
      hide Carries, Failures;
      RunCounts(c, st, calls[..n], worlds, os[..n]);
      ErrorsCounted(c, StateAt(st, os, n), calls[n], worlds(n), os[n]);
    }
  }

  lemma {:induction false} RunIsDetermined(c: Conf, st: State, calls: seq<Call>, worlds: nat -> Worlds,
                                           os: seq<Outcome>, ps: seq<Outcome>)
    requires Runs(c, st, calls, worlds, os) && Runs(c, st, calls, worlds, ps)
    ensures os == ps
    decreases |os|
  {
    if os != [] {
      var n := |os| - 1;
      RunIsDetermined(c, st, calls[..n], worlds, os[..n], ps[..n]);
      hide Carries;
      assert n > 0 ==> os[n - 1] == os[..n][n - 1] && ps[n - 1] == ps[..n][n - 1];
      OutcomeIsDetermined(c, StateAt(st, os, n), calls[n], worlds(n), os[n], ps[n]);
      assert os == os[..n] + [os[n]] && ps == ps[..n] + [ps[n]];
    }
  }

  /** The streams of the calls that returned one. */
  function Returned(rs: seq<Option<nat>>): set<nat> {
    set i | 0 <= i < |rs| && rs[i].Some? :: rs[i].value
  }

  /**
   * A client's life: any calls in any order, with any behaviour of the network. Each call does what Carries says, the
   * streams returned are different, and they are the only ones left open.
   */
  method Life(c: Conf, adapters: set<string>, calls: seq<Call>, worlds: nat -> Worlds)
    returns (os: seq<Outcome>, rs: seq<Option<nat>>, open: set<nat>, errors: nat)
    ensures Runs(c, State(c.preferred, adapters, "", 0, 0, 0, 0), calls, worlds, os)
    ensures |rs| == |calls| && forall i | 0 <= i < |rs| :: rs[i].Some? <==> os[i].got
    ensures forall i, j | 0 <= i < j < |rs| && rs[i].Some? && rs[j].Some? :: rs[i] != rs[j]
    ensures open == Returned(rs) && errors == AllFailures(os)
  {
    hide Carries, Failures, Returned;
    var p := new ProxyClient(c.preferred, adapters, c.asksObfs, c.token);
    ghost var st := p.Now();
    os, rs := [], [];
    NothingRun(c, st, worlds);
    for i := 0 to |calls|
      invariant fresh(p) && p.Valid() && p.C() == c && |os| == |rs| == i
      invariant p.Now() == StateAt(st, os, i)
      invariant Runs(c, st, calls[..i], worlds, os) && forall k | 0 <= k < i :: rs[k].Some? <==> os[k].got
      invariant forall k | 0 <= k < i && rs[k].Some? :: rs[k].value < p.nextStream
      invariant forall k, l | 0 <= k < l < i && rs[k].Some? && rs[l].Some? :: rs[k] != rs[l]
      invariant p.open == Returned(rs)
    {
      var r, made := Make(p, calls[i], worlds(i));
      ghost var os0 := os;
      ReturnedMore(rs, r);
      os, rs := os + [Outcome(p.Now(), made, r.Some?)], rs + [r];
      assert calls[..i + 1][..i] == calls[..i] && os[..i] == os0;
    }
    assert calls[..|calls|] == calls;
    RunCounts(c, st, calls, worlds, os);
    open, errors := p.open, p.errorCount;
  }

  lemma NothingRun(c: Conf, st: State, worlds: nat -> Worlds)
    ensures Runs(c, st, [], worlds, []) && Returned([]) == {}
  {
  }

  lemma ReturnedMore(rs: seq<Option<nat>>, r: Option<nat>)
    ensures Returned(rs + [r]) == Returned(rs) + (if r.Some? then {r.value} else {})
  {
    var all := rs + [r];
    forall x
      ensures x in Returned(all) <==> x in Returned(rs) || r == Some(x)
    {
      if x in Returned(rs) {
        var i :| 0 <= i < |rs| && rs[i].Some? && rs[i].value == x;
        assert all[i] == rs[i];
      }
      assert all[|rs|] == r;
    }
  }

  /** A single dial as the outcome of a call. */
  lemma IsOneDial(c: Conf, st: State, worlds: Worlds, after: State, made: seq<Attempt>, ok: bool)
    requires after == Dialed(c, st, worlds(0)) && ok == Succeeds(c, st.proto, worlds(0))
    requires made == [Attempt(st.order, st.adapters, ok)]
    ensures OneDial(c, st, worlds, Outcome(after, made, ok))
  {
    OneDialIsDialed(c, st, worlds);
  }
}
