/**
 * Resolving a name: picking the freshest of the values a search returns (hypernet/services/dns/namesystem.go:144-174,
 * dht_validator.go:28-49), and the resolver's cache (namesystem.go:128-137, 187-195).
 */
module Resolving {
  import opened Bytes
  import opened Text
  import opened Names

  /** json.Unmarshal of a DHT value; the decoder rejects the empty value. */
  type Decoder = Data -> Option<Record>

  // ---------------------------------------------------------------- the freshest record

  /** Index of the freshest of a list of candidates, None standing for those passed over. */
  function Best(xs: seq<Option<Record>>): (b: Option<nat>)
    ensures b.Some? ==> b.value < |xs| && xs[b.value].Some?
  {
    if xs == [] then None else
    var n := |xs| - 1;
    var b := Best(xs[..n]);
    if xs[n] == None then b
    else if b == None || xs[n].value.timestamp > xs[b.value].value.timestamp then Some(n)
    else b
  }

  /** The greatest timestamp, and the earliest of those that have it. */
  ghost predicate Freshest(xs: seq<Option<Record>>, i: nat) {
    && i < |xs| && xs[i].Some?
    && (forall j | 0 <= j < |xs| && xs[j].Some? :: xs[j].value.timestamp <= xs[i].value.timestamp)
    && (forall j | 0 <= j < i && xs[j].Some? :: xs[j].value.timestamp < xs[i].value.timestamp)
  }

  lemma {:induction false} BestIsFreshest(xs: seq<Option<Record>>)
    ensures Best(xs) == None <==> forall j | 0 <= j < |xs| :: xs[j] == None
    ensures Best(xs).Some? ==> Freshest(xs, Best(xs).value)
  {
    if xs != [] {
      BestIsFreshest(xs[..|xs| - 1]);
    }
  }

  lemma FreshestIsUnique(xs: seq<Option<Record>>, i: nat, j: nat)
    requires Freshest(xs, i) && Freshest(xs, j)
    ensures i == j
  {
  }

  function Picked(xs: seq<Option<Record>>): Option<Record> {
    if Best(xs) == None then None else xs[Best(xs).value]
  }

  // ---------------------------------------------------------------- the two loops

  function DecodeAll(decode: Decoder, values: seq<Data>): (xs: seq<Option<Record>>)
    ensures |xs| == |values| && forall i | 0 <= i < |xs| :: xs[i] == decode(values[i])
  {
    seq(|values|, i requires 0 <= i < |values| => decode(values[i]))
  }

  /** Select of the DHT validator: None stands for an error. */
  method Select(decode: Decoder, values: seq<Data>) returns (best: Option<nat>)
    ensures best == Best(DecodeAll(decode, values))
  {
    best := None;
    if |values| == 0 {
      return;
    }
    ghost var xs := DecodeAll(decode, values);
    var bestTs := 0;
    for i := 0 to |values|
      invariant best == Best(xs[..i])
      invariant best.Some? ==> bestTs == xs[best.value].value.timestamp
    {
      assert xs[..i + 1][..i] == xs[..i];
      var rec := decode(values[i]);
      if rec == None {
        continue;
      }
      if best == None || rec.value.timestamp > bestTs {
        best, bestTs := Some(i), rec.value.timestamp;
      }
    }
    assert xs[..|values|] == xs;
  }

  /** A value as the search delivers it: its bytes, and whether its owner's key was found and verifies it. */
  datatype Value = Value(data: Data, verified: bool)

  predicate Usable(decode: Decoder, v: Value, now: Instant) {
    v.data != [] && decode(v.data).Some? && !Expired(decode(v.data).value, now) && v.verified
  }

  function Candidates(decode: Decoder, values: seq<Value>, now: Instant): (xs: seq<Option<Record>>)
    ensures |xs| == |values|
    ensures forall i | 0 <= i < |xs| :: xs[i] == if Usable(decode, values[i], now) then decode(values[i].data) else None
  {
    seq(|values|, i requires 0 <= i < |values| =>
          if Usable(decode, values[i], now) then decode(values[i].data) else None)
  }

  /** The collecting loop of Resolve. */
  method Collect(decode: Decoder, values: seq<Value>, now: Instant) returns (best: Option<Record>)
    ensures best == Picked(Candidates(decode, values, now))
  {
    best := None;
    ghost var xs := Candidates(decode, values, now);
    for i := 0 to |values|
      invariant best == Picked(xs[..i])
    {
      assert xs[..i + 1][..i] == xs[..i];
      var v := values[i];
      if |v.data| == 0 {
        continue;
      }
      var rec := decode(v.data);
      if rec == None {
        continue;
      }
      if Expired(rec.value, now) {
        continue;
      }
      if !v.verified {
        continue;
      }
      if best == None || rec.value.timestamp > best.value.timestamp {
        best := rec;
      }
    }
    assert xs[..|values|] == xs;
  }

  /** The sublist of values that can be decoded, are not expired and verify. */
  function UsableData(decode: Decoder, values: seq<Value>, now: Instant): seq<Data> {
    if values == [] then [] else
    var v, rest := values[|values| - 1], UsableData(decode, values[..|values| - 1], now);
    if Usable(decode, v, now) then rest + [v.data] else rest
  }

  /** Resolve picks the record that Select picks from the usable values, and fails exactly when there are none. */
  lemma {:induction false} ResolveMatchesSelect(decode: Decoder, values: seq<Value>, now: Instant)
    ensures var sub := UsableData(decode, values, now);
            && Picked(Candidates(decode, values, now)) == Picked(DecodeAll(decode, sub))
            && (Picked(Candidates(decode, values, now)) == None <==> sub == [])
            && (forall i | 0 <= i < |sub| :: decode(sub[i]).Some?)
  {
    var sub := UsableData(decode, values, now);
    var xs, ys := Candidates(decode, values, now), DecodeAll(decode, sub);
    if values != [] {
      var n := |values| - 1;
      ResolveMatchesSelect(decode, values[..n], now);
      assert xs[..n] == Candidates(decode, values[..n], now);
      var sub0 := UsableData(decode, values[..n], now);
      if Usable(decode, values[n], now) {
        assert ys[..|sub0|] == DecodeAll(decode, sub0);
      }
    }
  }

  // ---------------------------------------------------------------- the cache

  const MINUTE := 60 * SECOND
  /** The longest lifetime, in seconds, that the duration type holds. */
  const MAX_TTL := MAX_INT / SECOND

  /** int64 wrap-around. */
  function Wrap64(n: int): int {
    (n + 0x8000_0000_0000_0000) % 0x1_0000_0000_0000_0000 - 0x8000_0000_0000_0000
  }

  /** How long an answer is cached, counted from the moment it is stored. */
  function CacheTTL(ttl: int): int {
    var d := Wrap64(ttl * SECOND);
    if d > MINUTE then d - MINUTE else d
  }

  lemma CacheTTLOf(ttl: int)
    requires 0 < ttl <= MAX_TTL
    ensures CacheTTL(ttl) == ttl * SECOND - (if ttl > 60 then MINUTE else 0)
  {
  }

  /** A lifetime beyond what the duration type holds, up to twice that, wraps around: the entry has expired at once. */
  lemma OverlongTTL(ttl: int)
    requires MAX_TTL < ttl <= 2 * MAX_TTL
    ensures CacheTTL(ttl) == ttl * 1_000_000_000 - 0x1_0000_0000_0000_0000 < 0
  {
  }

  datatype CacheEntry = CacheEntry(addrs: seq<string>, expiry: int)
  type Cache = map<string, CacheEntry>

  /** The texts that are multiaddrs. */
  type AddrCheck = string -> bool

  function ValidAddrs(valid: AddrCheck, addrs: seq<string>): seq<string> {
    if addrs == [] then [] else
    var rest, a := ValidAddrs(valid, addrs[..|addrs| - 1]), addrs[|addrs| - 1];
    if valid(a) then rest + [a] else rest
  }

  /**
   * One call of Resolve: when it looks into the cache, whether the search starts, what it delivers, and the times at
   * which collecting begins and the answer is stored.
   */
  datatype Query = Query(name: string, bypass: bool, asked: Instant, searched: bool, values: seq<Value>,
                         began: Instant, stored: Instant)

  datatype Answer = Failed | Cached(addrs: seq<string>) | Fresh(addrs: seq<string>, record: Record)

  function ResolveOnce(decode: Decoder, valid: AddrCheck, cache: Cache, q: Query): (Cache, Answer) {
    match NormalizeName(q.name)
    case None => (cache, Failed)
    case Some(key) =>
      if !q.bypass && key in cache && q.asked < cache[key].expiry then (cache, Cached(cache[key].addrs))
      else if !q.searched then (cache, Failed)
      else
        match Picked(Candidates(decode, q.values, q.began))
        case None => (cache, Failed)
        case Some(r) =>
          var addrs := ValidAddrs(valid, r.addrs);
          if addrs == [] then (cache, Failed)
          else (cache[key := CacheEntry(addrs, q.stored + CacheTTL(r.ttl))], Fresh(addrs, r))
  }

  /** A fresh answer: for which key, from which record, collected and stored when. */
  datatype Fact = Fact(key: string, addrs: seq<string>, record: Record, began: Instant, stored: Instant)

  /** A resolver with the history of its fresh answers. */
  datatype Resolver = Resolver(cache: Cache, facts: seq<Fact>)

  function Ask(decode: Decoder, valid: AddrCheck, r: Resolver, q: Query): Resolver {
    var (cache, answer) := ResolveOnce(decode, valid, r.cache, q);
    if answer.Fresh? && NormalizeName(q.name).Some?
    then Resolver(cache, r.facts + [Fact(NormalizeName(q.name).value, answer.addrs, answer.record, q.began, q.stored)])
    else Resolver(cache, r.facts)
  }

  function AskAll(decode: Decoder, valid: AddrCheck, qs: seq<Query>): Resolver {
    if qs == [] then Resolver(map[], [])
    else Ask(decode, valid, AskAll(decode, valid, qs[..|qs| - 1]), qs[|qs| - 1])
  }

  /** Collecting takes time, and no lifetime overflows the duration type. */
  ghost predicate Ordinary(decode: Decoder, q: Query) {
    q.began <= q.stored
    && forall i | 0 <= i < |q.values| ::
         decode(q.values[i].data).Some? ==> decode(q.values[i].data).value.ttl <= MAX_TTL
  }

  /** `h` is the latest fresh answer for `key`. */
  ghost predicate Latest(facts: seq<Fact>, key: string, h: nat) {
    h < |facts| && facts[h].key == key && forall j | h < j < |facts| :: facts[j].key != key
  }

  ghost predicate Sensible(f: Fact) {
    f.began <= f.stored && !Expired(f.record, f.began) && 0 < f.record.ttl <= MAX_TTL
  }

  /** The cache entry of `key` is what fresh answer `h`, the latest one, left. */
  ghost predicate StoredBy(r: Resolver, key: string, h: nat) {
    && Latest(r.facts, key, h) && key in r.cache
    && r.cache[key] == CacheEntry(r.facts[h].addrs, r.facts[h].stored + CacheTTL(r.facts[h].record.ttl))
  }

  /** Every cache entry is the latest fresh answer for its key. */
  ghost predicate Traced(r: Resolver) {
    && (forall k | k in r.cache :: exists h :: StoredBy(r, k, h))
    && (forall h | 0 <= h < |r.facts| :: Sensible(r.facts[h]))
  }

  lemma TracedStep(decode: Decoder, valid: AddrCheck, r: Resolver, q: Query)
    requires Traced(r) && Ordinary(decode, q)
    ensures Traced(Ask(decode, valid, r, q))
  {
    var r' := Ask(decode, valid, r, q);
    hide Expired, CacheTTL, Best, NormalizeName;
    if r'.facts != r.facts {
      var n, key := |r.facts|, r'.facts[|r.facts|].key;
      PickedIsUsable(decode, q.values, q.began);
      hide Picked, Candidates;
      assert Sensible(r'.facts[n]);
      forall k | k in r'.cache
        ensures exists h :: StoredBy(r', k, h)
      {
        if k == key {
          assert StoredBy(r', k, n);
        } else {
          var h :| StoredBy(r, k, h);
          assert StoredBy(r', k, h);
        }
      }
    } else {
      assert r' == r;
    }
  }

  lemma PickedIsUsable(decode: Decoder, values: seq<Value>, now: Instant)
    ensures var p := Picked(Candidates(decode, values, now));
            p.Some? ==> !Expired(p.value, now) && 0 < p.value.ttl
                        && exists i :: 0 <= i < |values| && decode(values[i].data) == p
  {
  }

  lemma {:induction false} AllTraced(decode: Decoder, valid: AddrCheck, qs: seq<Query>)
    requires forall i | 0 <= i < |qs| :: Ordinary(decode, qs[i])
    ensures Traced(AskAll(decode, valid, qs))
  {
    if qs != [] {
      AllTraced(decode, valid, qs[..|qs| - 1]);
      TracedStep(decode, valid, AskAll(decode, valid, qs[..|qs| - 1]), qs[|qs| - 1]);
    }
  }

  /** The last nanosecond, in terms of the record's own fields, at which an answer may still come from the cache. */
  function CacheBound(f: Fact): int {
    (f.record.timestamp + 2 * f.record.ttl + 1) * SECOND + (f.stored - f.began)
    - (if f.record.ttl > 60 then MINUTE else 0)
  }

  lemma BoundHolds(f: Fact, t: Instant)
    requires Sensible(f) && t < f.stored + CacheTTL(f.record.ttl)
    ensures t < CacheBound(f)
  {
    CacheTTLOf(f.record.ttl);
    hide CacheTTL;
    assert f.began < (Unix(f.began) + 1) * SECOND;
  }

  /**
   * After any run of resolves, an answer served from the cache is the latest fresh answer for that name, and is
   * served before (timestamp + 2 * TTL + 1) seconds plus the time collecting took, less a minute for long lifetimes.
   */
  lemma CachedAnswerIsRecent(decode: Decoder, valid: AddrCheck, qs: seq<Query>, q: Query) returns (h: nat)
    requires forall i | 0 <= i < |qs| :: Ordinary(decode, qs[i])
    ensures var r := AskAll(decode, valid, qs);
            var answer := ResolveOnce(decode, valid, r.cache, q).1;
            answer.Cached? ==>
              && !q.bypass && NormalizeName(q.name).Some? && Latest(r.facts, NormalizeName(q.name).value, h)
              && answer.addrs == r.facts[h].addrs && q.asked < CacheBound(r.facts[h])
  {
    var r := AskAll(decode, valid, qs);
    AllTraced(decode, valid, qs);
    hide AskAll, CacheTTL;
    h := 0;
    if ResolveOnce(decode, valid, r.cache, q).1.Cached? {
      var key := NormalizeName(q.name).value;
      h :| StoredBy(r, key, h);
      BoundHolds(r.facts[h], q.asked);
    }
  }

  /** How much earlier than its record's lifetime an entry leaves the cache, in seconds. */
  function Margin(ttl: int): nat {
    if ttl > 60 then 60 else 0
  }

  /** The latest fresh answer was stored less than its lifetime before `t`, less a minute for lifetimes above one. */
  ghost predicate RecentEnough(facts: seq<Fact>, key: string, t: Instant) {
    exists h: nat :: Latest(facts, key, h)
      && t < facts[h].stored + (facts[h].record.ttl - (if facts[h].record.ttl > 60 then 60 else 0)) * 1_000_000_000
  }

  ghost predicate Entered(r: Resolver) {
    forall h | 0 <= h < |r.facts| :: r.facts[h].key in r.cache
  }

  /**
   * After any run of resolves, a query is answered from the cache if and only if it does not bypass it and the latest
   * fresh answer for that name was stored less than the record's lifetime ago, less a minute for lifetimes above one.
   */
  lemma CacheHitExactly(decode: Decoder, valid: AddrCheck, qs: seq<Query>, q: Query)
    requires (forall i | 0 <= i < |qs| :: Ordinary(decode, qs[i])) && NormalizeName(q.name).Some?
    ensures var r, key := AskAll(decode, valid, qs), NormalizeName(q.name).value;
            ResolveOnce(decode, valid, r.cache, q).1.Cached? <==>
            !q.bypass && RecentEnough(r.facts, key, q.asked)
  {
    var r, key := AskAll(decode, valid, qs), NormalizeName(q.name).value;
    AllTraced(decode, valid, qs);
    AllEntered(decode, valid, qs);
    HitIsEntry(decode, valid, r.cache, q);
    hide *;
    EntryOfLatest(r, key, q.asked);
  }

  lemma HitIsEntry(decode: Decoder, valid: AddrCheck, cache: Cache, q: Query)
    requires NormalizeName(q.name).Some?
    ensures var key := NormalizeName(q.name).value;
            ResolveOnce(decode, valid, cache, q).1.Cached? <==>
            !q.bypass && key in cache && q.asked < cache[key].expiry
  {
    hide NormalizeName, CacheTTL, ValidAddrs, Picked, Candidates;
  }

  lemma EntryOfLatest(r: Resolver, key: string, t: Instant)
    requires Traced(r) && Entered(r)
    ensures key in r.cache && t < r.cache[key].expiry <==>
            RecentEnough(r.facts, key, t)
  {
    hide CacheTTL, Expired;
    if key in r.cache {
      var h: nat :| StoredBy(r, key, h);
      assert Sensible(r.facts[h]);
      CacheTTLOf(r.facts[h].record.ttl);
      assert forall k | Latest(r.facts, key, k) :: k == h;
    }
  }

  /** Every fresh answer has entered its name in the cache. */
  lemma {:induction false} AllEntered(decode: Decoder, valid: AddrCheck, qs: seq<Query>)
    ensures Entered(AskAll(decode, valid, qs))
  {
    if qs != [] {
      AllEntered(decode, valid, qs[..|qs| - 1]);
      EnteredStep(decode, valid, AskAll(decode, valid, qs[..|qs| - 1]), qs[|qs| - 1]);
      hide Ask;
    }
  }

  lemma EnteredStep(decode: Decoder, valid: AddrCheck, r: Resolver, q: Query)
    requires Entered(r)
    ensures Entered(Ask(decode, valid, r, q))
  {
    hide CacheTTL, Picked, Candidates, NormalizeName, ValidAddrs;
  }

  /**
   * An answer can be served after its record has expired if and only if it was stored, in seconds rounded up, more
   * than the margin and one second after the record's timestamp.
   */
  lemma StaleExactly(f: Fact)
    requires Sensible(f) && f.record.timestamp <= MAX_INT
    ensures (exists t: Instant :: f.stored <= t < f.stored + CacheTTL(f.record.ttl) && Expired(f.record, t))
            <==> CeilSeconds(f.stored) > f.record.timestamp + Margin(f.record.ttl) + 1
  {
    CacheTTLOf(f.record.ttl);
    hide CacheTTL;
    var secs: nat := f.record.ttl - Margin(f.record.ttl);
    var last: Instant := f.stored + secs * SECOND - 1;
    LastSecond(f.stored, secs);
    assert f.stored <= last < f.stored + CacheTTL(f.record.ttl);
    assert f.record.timestamp + f.record.ttl <= MAX_INT;
    assert Expired(f.record, last) <==> CeilSeconds(f.stored) > f.record.timestamp + Margin(f.record.ttl) + 1;
    hide Unix, CeilSeconds, Expired;
    forall t: Instant | f.stored <= t < f.stored + CacheTTL(f.record.ttl) && Expired(f.record, t)
      ensures Expired(f.record, last)
    {
      ExpiredStays(f.record, t, last);
    }
  }

  lemma ExpiredStays(r: Record, t: Instant, u: Instant)
    requires t <= u && Expired(r, t)
    ensures Expired(r, u)
  {
    UnixMonotone(t, u);
  }

  lemma LastSecond(t: Instant, secs: nat)
    requires secs > 0
    ensures Unix(t + secs * SECOND - 1) == CeilSeconds(t) - 1 + secs
  {
  }

  /** A record that lives ten seconds, resolved in its last one, is still served nine seconds after it has expired. */
  lemma ServedAfterExpiry(decode: Decoder, valid: AddrCheck)
    requires decode([1]) == Some(Record("a", "n", ["x"], 10, 0)) && valid("x")
    ensures var r := Record("a", "n", ["x"], 10, 0);
            var first := Query("a", false, 0, true, [Value([1], true)], 10 * SECOND, 10 * SECOND);
            var second := Query("a", false, 19 * SECOND, false, [], 0, 0);
            var cache := ResolveOnce(decode, valid, map[], first).0;
            Expired(r, second.asked) && ResolveOnce(decode, valid, cache, second).1 == Cached(["x"])
  {
  }

  /** Value `i` decodes to a record that is not expired at `now` and that its owner's key verifies. */
  predicate Genuine(decode: Decoder, values: seq<Value>, now: Instant, i: nat) {
    && i < |values| && values[i].data != [] && values[i].verified
    && match decode(values[i].data)
       case None => false
       case Some(r) => r.ttl > 0 && Unix(now) <= Sum64(r.timestamp, r.ttl)
  }

  /** The genuine value with the greatest timestamp, and the first of those. */
  ghost predicate Chosen(decode: Decoder, values: seq<Value>, now: Instant, i: nat) {
    && Genuine(decode, values, now, i)
    && forall j | 0 <= j < |values| && Genuine(decode, values, now, j) ::
         var mine, other := decode(values[i].data).value.timestamp, decode(values[j].data).value.timestamp;
         other <= mine && (j < i ==> other < mine)
  }

  /**
   * Whatever a search delivers, the record picked is the freshest of those that are not expired and carry their owner's
   * signature, the first of them on a tie; there is none if and only if there is no such record.
   */
  lemma PickedIsGenuine(decode: Decoder, values: seq<Value>, now: Instant)
    ensures var p := Picked(Candidates(decode, values, now));
            && (p == None <==> forall i | 0 <= i < |values| :: !Genuine(decode, values, now, i))
            && (p.Some? ==> exists i: nat :: Chosen(decode, values, now, i) && p == decode(values[i].data))
  {
    var xs := Candidates(decode, values, now);
    forall i | 0 <= i < |values|
      ensures xs[i] == if Genuine(decode, values, now, i) then decode(values[i].data) else None
    {
    }
    hide Candidates, Genuine;
    BestIsFreshest(xs);
    if Best(xs).Some? {
      assert Chosen(decode, values, now, Best(xs).value);
    }
  }

  /** The query is answered by the cache. */
  predicate Hit(cache: Cache, q: Query) {
    !q.bypass && NormalizeName(q.name).Some? && NormalizeName(q.name).value in cache
    && q.asked < cache[NormalizeName(q.name).value].expiry
  }

  /**
   * Of a query that the cache does not answer: the answer is the record so chosen, with those of its addresses that
   * can be used, in their order; it fails if and only if the name is invalid, the search does not start, there is no
   * such record, or none of its addresses can be used.
   */
  lemma FreshAnswerExactly(decode: Decoder, valid: AddrCheck, cache: Cache, q: Query)
    requires !Hit(cache, q)
    ensures var a := ResolveOnce(decode, valid, cache, q).1;
            && (a.Fresh? || a.Failed?)
            && (a.Fresh? ==>
                  && a.addrs == ValidAddrs(valid, a.record.addrs) != []
                  && exists i: nat :: Chosen(decode, q.values, q.began, i)
                       && decode(q.values[i].data) == Some(a.record))
            && (a.Failed? <==>
                  || NormalizeName(q.name) == None || !q.searched
                  || (forall i | 0 <= i < |q.values| :: !Genuine(decode, q.values, q.began, i))
                  || exists i: nat :: Chosen(decode, q.values, q.began, i)
                       && ValidAddrs(valid, decode(q.values[i].data).value.addrs) == [])
  {
    PickedIsGenuine(decode, q.values, q.began);
    FreshIsPicked(decode, valid, cache, q);
    var p := Picked(Candidates(decode, q.values, q.began));
    if p.Some? {
      var i: nat :| Chosen(decode, q.values, q.began, i) && p == decode(q.values[i].data);
      assert i < |q.values| && Genuine(decode, q.values, q.began, i);
      forall k: nat | Chosen(decode, q.values, q.began, k)
        ensures k == i
      {
        ChosenIsUnique(decode, q.values, q.began, i, k);
      }
    } else {
      assert forall k: nat :: !Chosen(decode, q.values, q.began, k);
    }
    hide *;
  }

  lemma ChosenIsUnique(decode: Decoder, values: seq<Value>, now: Instant, i: nat, k: nat)
    requires Chosen(decode, values, now, i) && Chosen(decode, values, now, k)
    ensures i == k
  {
    assert i < |values| && k < |values| && Genuine(decode, values, now, i) && Genuine(decode, values, now, k);
  }

  lemma FreshIsPicked(decode: Decoder, valid: AddrCheck, cache: Cache, q: Query)
    requires !Hit(cache, q)
    ensures var a, p := ResolveOnce(decode, valid, cache, q).1, Picked(Candidates(decode, q.values, q.began));
            if NormalizeName(q.name) == None || !q.searched || p == None || ValidAddrs(valid, p.value.addrs) == []
            then a == Failed else a == Fresh(ValidAddrs(valid, p.value.addrs), p.value)
  {
    hide NormalizeName, CacheTTL, ValidAddrs, Picked, Candidates;
  }

  /** The addresses that can be used are kept one by one. */
  lemma {:induction false} ValidAddrsAppend(valid: AddrCheck, xs: seq<string>, ys: seq<string>)
    ensures ValidAddrs(valid, xs + ys) == ValidAddrs(valid, xs) + ValidAddrs(valid, ys)
  {
    if ys == [] {
      assert xs + ys == xs;
    } else {
      var n := |ys| - 1;
      ValidAddrsAppend(valid, xs, ys[..n]);
      assert (xs + ys)[..|xs + ys| - 1] == xs + ys[..n];
      Regroup(ValidAddrs(valid, xs), ValidAddrs(valid, ys[..n]), [ys[n]]);
    }
  }

  lemma ValidAddrsOne(valid: AddrCheck, a: string)
    ensures ValidAddrs(valid, [a]) == if valid(a) then [a] else []
  {
    assert [a][..0] == [];
  }

  // ---------------------------------------------------------------- the name of the record

  /** A value that can answer a query: it is usable and has an address. */
  predicate CanAnswer(decode: Decoder, valid: AddrCheck, v: Value, now: Instant) {
    Usable(decode, v, now) && ValidAddrs(valid, decode(v.data).value.addrs) != []
  }

  lemma OnlyCandidate(decode: Decoder, v: Value, now: Instant)
    requires Usable(decode, v, now)
    ensures Picked(Candidates(decode, [v], now)) == decode(v.data)
  {
    var xs := Candidates(decode, [v], now);
    assert xs[..0] == [] && Best([]) == None && Best(xs) == Some(0);
  }

  /** The name in a record is not compared with the name asked for: the answer to `q` over the values `vs`. */
  predicate AnswersTrue(decode: Decoder, valid: AddrCheck, q: Query, vs: seq<Value>) {
    var a := ResolveOnce(decode, valid, map[], q.(values := vs)).1;
    a.Fresh? ==> Some(a.record.name) == NormalizeName(q.name)
  }

  /**
   * Whichever of the stored values a search delivers, the answer is a record of the name asked for, if and only if
   * every stored value that can answer is one.
   */
  lemma NamesMatchExactly(decode: Decoder, valid: AddrCheck, q: Query, stock: set<Value>)
    requires q.searched && NormalizeName(q.name).Some?
    ensures (forall vs: seq<Value> | (forall v | v in vs :: v in stock) :: AnswersTrue(decode, valid, q, vs))
            <==> forall v | v in stock && CanAnswer(decode, valid, v, q.began) ::
                   Some(decode(v.data).value.name) == NormalizeName(q.name)
  {
    hide NormalizeName, CacheTTL, Expired, ValidAddrs, Picked, Candidates;
    forall v | v in stock && CanAnswer(decode, valid, v, q.began) && AnswersTrue(decode, valid, q, [v])
      ensures Some(decode(v.data).value.name) == NormalizeName(q.name)
    {
      OnlyCandidate(decode, v, q.began);
    }
    forall vs: seq<Value> |
      && (forall v | v in vs :: v in stock)
      && (forall v | v in stock && CanAnswer(decode, valid, v, q.began) ::
            Some(decode(v.data).value.name) == NormalizeName(q.name))
      ensures AnswersTrue(decode, valid, q, vs)
    {
      PickedCanAnswer(decode, vs, q.began);
      var a := ResolveOnce(decode, valid, map[], q.(values := vs)).1;
      if a.Fresh? {
        var i :| 0 <= i < |vs| && Usable(decode, vs[i], q.began) && decode(vs[i].data) == Some(a.record);
        assert vs[i] in vs && CanAnswer(decode, valid, vs[i], q.began);
      }
    }
  }

  lemma PickedCanAnswer(decode: Decoder, values: seq<Value>, now: Instant)
    ensures var p := Picked(Candidates(decode, values, now));
            p.Some? ==> exists i :: 0 <= i < |values| && Usable(decode, values[i], now) && decode(values[i].data) == p
  {
    hide Expired;
  }

  /** A record signed for the name "b" and stored under "a" answers for "a". */
  lemma AnswersForAnother(decode: Decoder, valid: AddrCheck)
    requires decode([1]) == Some(Record("b", "n", ["x"], 10, 0)) && valid("x")
    ensures var r := Record("b", "n", ["x"], 10, 0);
            var q := Query("a", false, 0, true, [Value([1], true)], 0, 0);
            ResolveOnce(decode, valid, map[], q).1 == Fresh(["x"], r)
  {
    var q := Query("a", false, 0, true, [Value([1], true)], 0, 0);
    OnlyCandidate(decode, Value([1], true), 0);
    assert NormalizeName("a") == Some("a") by {
      TrimLine("a");
      assert ToLower("a") == "a";
    }
    assert ["x"][..0] == [] && ValidAddrs(valid, ["x"]) == ["x"];
  }

  class CachingResolver {
    var cache: Cache

    constructor ()
      ensures cache == map[]
    {
      cache := map[];
    }

    method Resolve(decode: Decoder, valid: AddrCheck, q: Query) returns (answer: Answer)
      modifies this
      ensures (cache, answer) == ResolveOnce(decode, valid, old(cache), q)
    {
      hide NormalizeName, Picked, Candidates, CacheTTL;
      var norm := NormalizeName(q.name);
      if norm == None {
        return Failed;
      }
      var key := norm.value;
      if !q.bypass {
        if key in cache && q.asked < cache[key].expiry {
          return Cached(cache[key].addrs);
        }
      }
      if !q.searched {
        return Failed;
      }
      var best := Collect(decode, q.values, q.began);
      if best == None {
        return Failed;
      }
      var addrs: seq<string> := [];
      var all := best.value.addrs;
      for i := 0 to |all|
        invariant addrs == ValidAddrs(valid, all[..i]) && cache == old(cache)
      {
        assert all[..i + 1][..i] == all[..i];
        if valid(all[i]) {
          addrs := addrs + [all[i]];
        }
      }
      assert all[..|all|] == all;
      if |addrs| == 0 {
        return Failed;
      }
      cache := cache[key := CacheEntry(addrs, q.stored + CacheTTL(best.value.ttl))];
      answer := Fresh(addrs, best.value);
    }
  }
}
