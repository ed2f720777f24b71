/**
 * The name registry (hypernet/services/dns/namesystem.go, record.go) over one shared store, and the refresh schedule
 * that keeps a name alive (pkg/config/config.go:198-202). Each operation is one atomic step of one shared clock.
 */
module Names {
  import opened Bytes
  import opened Text

  /** Nanoseconds since the epoch. */
  type Instant = nat
  const SECOND := 1_000_000_000
  const DEFAULT_TTL := 86400

  /** Up to here, the sum of a time and a lifetime fits int64. */
  const LATEST := MAX_INT - MAX_INT / SECOND

  function Unix(t: Instant): nat {
    t / SECOND
  }

  /** `ttl` and `timestamp` are in seconds. The signature is in module Resolving. */
  datatype Record = Record(name: string, owner: string, addrs: seq<string>, ttl: int, timestamp: int)

  /** An int64 sum of which the second term is positive. */
  function Sum64(a: int, b: int): int {
    if a + b > MAX_INT then a + b - 0x1_0000_0000_0000_0000 else a + b
  }

  predicate Expired(r: Record, now: Instant) {
    r.ttl <= 0 || Unix(now) > Sum64(r.timestamp, r.ttl)
  }

  // ---------------------------------------------------------------- names

  predicate NameChar(c: char) {
    'a' <= c <= 'z' || '0' <= c <= '9' || c == '-'
  }

  /** NormalizeName; the pattern is the one of record.go:19. */
  function NormalizeName(name: string): (r: Option<string>)
    ensures r.Some? ==> r.value == ToLower(TrimSpace(name))
    ensures var s := ToLower(TrimSpace(name));
            r.Some? <==> s != [] && s[0] != '-' && s[|s| - 1] != '-'
                         && forall i | 0 <= i < |s| :: 'a' <= s[i] <= 'z' || '0' <= s[i] <= '9' || s[i] == '-'
  {
    var s := ToLower(TrimSpace(name));
    if s != [] && (forall i | 0 <= i < |s| :: NameChar(s[i])) && s[0] != '-' && s[|s| - 1] != '-' then Some(s) else None
  }

  /** A normalized name is its own normal form, so a name has one key however it is spelled. */
  lemma NormalizeIdempotent(name: string)
    requires NormalizeName(name).Some?
    ensures NormalizeName(NormalizeName(name).value) == NormalizeName(name)
  {
    var s := NormalizeName(name).value;
    assert NameChar(s[0]) && NameChar(s[|s| - 1]);
    TrimLine(s);
    assert ToLower(s) == s by {
      assert forall i | 0 <= i < |s| :: NameChar(s[i]) && Lower(s[i]) == s[i];
    }
  }

  // ---------------------------------------------------------------- the shared store

  /** What a node attempts. `found` and `stored` say whether the DHT lookup and the DHT put go through. */
  datatype Step =
    | Register(node: string, name: string, addrs: seq<string>, ttl: int, found: bool, stored: bool)
    | Refresh(node: string, name: string, addrs: seq<string>, found: bool, stored: bool)
    | Unregister(node: string, name: string, found: bool, stored: bool)

  type Store = map<string, Record>

  /** The record a step would put under its normalized name, or None for an error before the put. */
  function Attempt(store: Store, now: Instant, s: Step): Option<Record> {
    var key := NormalizeName(s.name);
    if key == None then None else
    var seen := if s.found && key.value in store then Some(store[key.value]) else None;
    match s
    case Register(node, _, addrs, ttl, _, _) =>
      if ttl <= 0 || addrs == [] then None
      else if seen.Some? && !Expired(seen.value, now) && seen.value.owner != node then None
      else Some(Record(key.value, node, addrs, ttl / SECOND, Unix(now)))
    case Refresh(node, _, addrs, _, _) =>
      if seen == None || seen.value.owner != node || addrs == [] then None
      else
        var ttl := if seen.value.ttl <= 0 then DEFAULT_TTL else seen.value.ttl;
        Some(seen.value.(addrs := addrs, timestamp := Unix(now), ttl := ttl))
    case Unregister(node, _, _, _) =>
      if seen.Some? && seen.value.owner != node then None
      else Some(Record(key.value, node, [], 0, Unix(now)))
  }

  function StepAt(store: Store, now: Instant, s: Step): Store {
    match Attempt(store, now, s)
    case Some(r) => if s.stored then store[NormalizeName(s.name).value := r] else store
    case None => store
  }

  ghost predicate Live(store: Store, key: string, now: Instant) {
    key in store && !Expired(store[key], now)
  }

  /**
   * A step goes through, as far as the record is concerned, unless: the name is invalid; a registration or a refresh
   * has no addresses; a registration has no lifetime, or its lookup finds a live record of another node; a refresh does
   * not find a record of its own node; an unregistration finds one of another.
   */
  lemma AttemptExactly(store: Store, now: Instant, s: Step)
    ensures NormalizeName(s.name) == None ==> Attempt(store, now, s) == None
    ensures NormalizeName(s.name).Some? ==>
              var key := NormalizeName(s.name).value;
              var other := s.found && key in store && store[key].owner != s.node;
              Attempt(store, now, s).Some? <==>
              match s
              case Register(_, _, addrs, ttl, _, _) => ttl > 0 && addrs != [] && !(other && Live(store, key, now))
              case Refresh(_, _, addrs, _, _) => addrs != [] && s.found && key in store && !other
              case Unregister(_, _, _, _) => !other
  {
    hide NormalizeName;
  }

  /** Would this step, taken by a node that does not own the live record, put a record if its lookup failed? */
  predicate Blind(s: Step) {
    !s.found && s.stored && (s.Unregister? || (s.Register? && s.ttl > 0 && s.addrs != []))
  }

  /**
   * A step by another node changes a live record exactly when its lookup failed and it puts all the same: Register
   * and Unregister take a failed lookup for a free name. With a lookup that succeeds it never does.
   */
  lemma NonOwnerStep(store: Store, now: Instant, s: Step, key: string)
    requires Live(store, key, now) && NormalizeName(s.name) == Some(key) && store[key].owner != s.node
    ensures key in StepAt(store, now, s)
    ensures StepAt(store, now, s)[key] != store[key] <==> Blind(s)
    ensures s.found ==> StepAt(store, now, s) == store
  {
  }

  /** A step touches no key but its own, and no key ever goes away. */
  lemma OtherKeys(store: Store, now: Instant, s: Step)
    ensures forall k | k in store && NormalizeName(s.name) != Some(k) :: k in StepAt(store, now, s)
              && StepAt(store, now, s)[k] == store[k]
    ensures forall k | k in store :: k in StepAt(store, now, s)
  {
  }

  // ---------------------------------------------------------------- ownership over whole runs

  datatype Event = At(time: Instant, step: Step)

  function Run(events: seq<Event>): Store {
    if events == [] then map[] else
    var e := events[|events| - 1];
    StepAt(Run(events[..|events| - 1]), e.time, e.step)
  }

  /** Step `k` puts a record of `key`. */
  ghost predicate Puts(events: seq<Event>, key: string, k: nat) {
    && k < |events| && events[k].step.stored && NormalizeName(events[k].step.name) == Some(key)
    && Attempt(Run(events[..k]), events[k].time, events[k].step).Some?
  }

  /** The lifetime that a step gives to the record it puts, by the one of the record before. */
  function Lifetime(s: Step, before: int): int {
    match s
    case Register(_, _, _, ttl, _, _) => ttl / SECOND
    case Refresh(_, _, _, _, _) => if before <= 0 then 86400 else before
    case Unregister(_, _, _, _) => 0
  }

  /** `r` is what step `s`, taken at `now`, wrote about `key` over a record of lifetime `before`. */
  predicate WrittenBy(r: Record, key: string, s: Step, now: Instant, before: int) {
    && r.name == key && r.owner == s.node && r.addrs == (if s.Unregister? then [] else s.addrs)
    && r.timestamp == Unix(now) && r.ttl == Lifetime(s, before)
  }

  lemma PutIsWritten(store: Store, now: Instant, s: Step, key: string)
    requires NormalizeName(s.name) == Some(key) && s.stored && Attempt(store, now, s).Some?
    requires key in store ==> store[key].name == key
    ensures var store' := StepAt(store, now, s);
            key in store' && WrittenBy(store'[key], key, s, now, if key in store then store[key].ttl else 0)
  {
    hide NormalizeName;
  }

  lemma NoPut(store: Store, now: Instant, s: Step, key: string)
    requires NormalizeName(s.name) != Some(key) || !s.stored || Attempt(store, now, s) == None
    ensures key in StepAt(store, now, s) <==> key in store
    ensures key in store ==> StepAt(store, now, s)[key] == store[key]
  {
    hide NormalizeName;
  }

  /** Step `k` is the last one to put a record of `key`. */
  ghost predicate LastPut(events: seq<Event>, key: string, k: nat) {
    Puts(events, key, k) && forall j: nat | k < j < |events| :: !Puts(events, key, j)
  }

  /** The record that the run leaves is what step `k` wrote. */
  ghost predicate LeftBy(events: seq<Event>, key: string, k: nat)
    requires k < |events|
  {
    var before, after := Run(events[..k]), Run(events);
    key in after
    && WrittenBy(after[key], key, events[k].step, events[k].time, if key in before then before[key].ttl else 0)
  }

  /**
   * After every run, the record of a name is the one that the last step to put it wrote: the name, that node as owner,
   * its addresses, none for an unregistration, its time and its lifetime.
   */
  lemma {:induction false} RecordOfLastPut(events: seq<Event>, key: string) returns (k: nat)
    requires key in Run(events)
    ensures LastPut(events, key, k) && LeftBy(events, key, k)
    decreases |events|
  {
    var n := |events| - 1;
    PutsHere(events, key, n);
    RunOneMore(events, n);
    assert events[..n + 1] == events;
    if !Puts(events, key, n) {
      NoPut(Run(events[..n]), events[n].time, events[n].step, key);
      hide *;
      k := RecordOfLastPut(events[..n], key);
      PutBefore(events, key, k);
    } else {
      hide *;
      if key in Run(events[..n]) {
        var prior := RecordOfLastPut(events[..n], key);
        WrittenName(events[..n], key, prior);
      }
      PutNow(events, key);
      k := n;
    }
  }

  lemma PutNow(events: seq<Event>, key: string)
    requires events != [] && Puts(events, key, |events| - 1)
    requires var before := Run(events[..|events| - 1]); key in before ==> before[key].name == key
    ensures LastPut(events, key, |events| - 1) && LeftBy(events, key, |events| - 1)
  {
    var n := |events| - 1;
    RunOneMore(events, n);
    assert events[..n + 1] == events;
    PutsHere(events, key, n);
    hide Attempt, NormalizeName, StepAt, Run, WrittenBy;
    PutIsWritten(Run(events[..n]), events[n].time, events[n].step, key);
  }

  lemma PutBefore(events: seq<Event>, key: string, k: nat)
    requires k < |events| - 1 && !Puts(events, key, |events| - 1)
    requires LastPut(events[..|events| - 1], key, k) && LeftBy(events[..|events| - 1], key, k)
    ensures LastPut(events, key, k) && LeftBy(events, key, k)
  {
    hide Puts, LeftBy;
    PutsBefore(events, |events| - 1, key);
    LeftAlone(events, key, k);
  }

  lemma LeftAlone(events: seq<Event>, key: string, k: nat)
    requires k < |events| - 1 && !Puts(events, key, |events| - 1) && LeftBy(events[..|events| - 1], key, k)
    ensures LeftBy(events, key, k)
  {
    SameRecord(events, key);
    SamePrefix(events, |events| - 1, k);
    hide Run, WrittenBy, Puts;
  }

  lemma SamePrefix(events: seq<Event>, n: nat, k: nat)
    requires k < n <= |events|
    ensures events[..n][..k] == events[..k] && events[..n][k] == events[k]
  {
  }

  /** A step that puts nothing under `key` leaves its record. */
  lemma SameRecord(events: seq<Event>, key: string)
    requires events != [] && !Puts(events, key, |events| - 1)
    ensures var before, after := Run(events[..|events| - 1]), Run(events);
            (key in after <==> key in before) && (key in before ==> after[key] == before[key])
  {
    var n := |events| - 1;
    PutsHere(events, key, n);
    NoPut(Run(events[..n]), events[n].time, events[n].step, key);
    RunOneMore(events, n);
    assert events[..n + 1] == events;
    hide *;
  }

  lemma WrittenName(events: seq<Event>, key: string, k: nat)
    requires k < |events| && LeftBy(events, key, k)
    ensures Run(events)[key].name == key
  {
    hide Run;
  }

  lemma PutsHere(events: seq<Event>, key: string, n: nat)
    requires n < |events|
    ensures var e := events[n];
            Puts(events, key, n) <==>
            e.step.stored && NormalizeName(e.step.name) == Some(key)
            && Attempt(Run(events[..n]), e.time, e.step).Some?
  {
  }

  lemma PutsBefore(events: seq<Event>, n: nat, key: string)
    requires n <= |events|
    ensures forall j: nat | j < n :: Puts(events[..n], key, j) <==> Puts(events, key, j)
  {
    hide Run, Attempt, NormalizeName;
    forall j: nat | j < n
      ensures Puts(events[..n], key, j) <==> Puts(events, key, j)
    {
      assert events[..n][..j] == events[..j];
    }
  }

  /** The step puts a record of `key` without having seen the one that is there. */
  predicate BlindOn(s: Step, key: string) {
    Blind(s) && NormalizeName(s.name) == Some(key)
  }

  /**
   * In every run, if a name has one owner after `i` steps and another after `j`, then some step in between found the
   * record expired, an unregistered record (lifetime 0) counting as expired, or put one although its lookup had
   * failed: a live record changes hands in no other way.
   */
  lemma {:induction false} OwnerChangesOnlyWhenExpired(events: seq<Event>, key: string, i: nat, j: nat) returns (k: nat)
    requires i <= j <= |events|
    requires key in Run(events[..i]) && key in Run(events[..j])
    requires Run(events[..i])[key].owner != Run(events[..j])[key].owner
    ensures i <= k < j && key in Run(events[..k])
    ensures Expired(Run(events[..k])[key], events[k].time) || BlindOn(events[k].step, key)
    ensures Run(events[..k])[key].owner == Run(events[..i])[key].owner
    decreases j - i
  {
    hide Run, StepAt, Expired, BlindOn;
    var s, e := Run(events[..i]), events[i];
    RunOneMore(events, i);
    if Expired(s[key], e.time) || BlindOn(e.step, key) {
      k := i;
    } else {
      LiveKeepsOwner(s, e.time, e.step, key);
      k := OwnerChangesOnlyWhenExpired(events, key, i + 1, j);
    }
  }

  lemma RunOneMore(events: seq<Event>, i: nat)
    requires i < |events|
    ensures Run(events[..i + 1]) == StepAt(Run(events[..i]), events[i].time, events[i].step)
  {
    assert events[..i + 1][..i] == events[..i];
  }

  /** A step leaves the owner of a live record alone, unless it puts without having seen the record. */
  lemma LiveKeepsOwner(store: Store, now: Instant, s: Step, key: string)
    requires Live(store, key, now) && !BlindOn(s, key)
    ensures key in StepAt(store, now, s) && StepAt(store, now, s)[key].owner == store[key].owner
  {
    OtherKeys(store, now, s);
    if NormalizeName(s.name) == Some(key) {
    }
  }

  // ---------------------------------------------------------------- after an unregistration

  /** A step that gives life to a dead record of `key` with this owner: a registration, or the owner's refresh. */
  predicate Revives(s: Step, key: string, owner: string) {
    && NormalizeName(s.name) == Some(key) && s.stored
    && match s {
         case Register(_, _, addrs, ttl, _, _) => ttl >= SECOND && addrs != []
         case Refresh(node, _, addrs, found, _) => found && node == owner && addrs != []
         case Unregister(_, _, _, _) => false
       }
  }

  /** A record with lifetime 0, as an unregistration leaves it. */
  ghost predicate Dead(store: Store, key: string) {
    key in store && store[key].ttl <= 0
  }

  /** A step at which the clock and the lifetime still fit int64. */
  ghost predicate InRange(e: Event) {
    Unix(e.time) <= LATEST && (e.step.Register? ==> e.step.ttl <= MAX_INT)
  }

  lemma UnregisterKills(store: Store, now: Instant, s: Step, key: string)
    requires s.Unregister? && s.stored && NormalizeName(s.name) == Some(key) && Attempt(store, now, s).Some?
    ensures Dead(StepAt(store, now, s), key) && StepAt(store, now, s)[key].owner == s.node
  {
  }

  /** A dead record stays dead, at every instant, or is live at once: which of the two is what Revives says. */
  lemma DeadStep(store: Store, e: Event, key: string)
    requires Dead(store, key) && InRange(e)
    ensures var store' := StepAt(store, e.time, e.step);
            if Revives(e.step, key, store[key].owner) then Live(store', key, e.time) else Dead(store', key)
  {
    OtherKeys(store, e.time, e.step);
    if NormalizeName(e.step.name) == Some(key) && e.step.Register? {
      assert e.step.ttl / SECOND > 0 <==> e.step.ttl >= SECOND;
    }
  }

  /** Some step between `i` and `j` gave life to the record it found. */
  ghost predicate Revived(events: seq<Event>, key: string, i: nat, j: nat)
    requires j <= |events|
  {
    exists k :: i < k < j && key in Run(events[..k]) && Revives(events[k].step, key, Run(events[..k])[key].owner)
  }

  /** Step `i` of the run unregisters `key`, and goes through. */
  ghost predicate UnregisteredAt(events: seq<Event>, key: string, i: nat)
    requires i < |events|
  {
    var s := events[i].step;
    s.Unregister? && s.stored && NormalizeName(s.name) == Some(key)
    && Attempt(Run(events[..i]), events[i].time, s).Some?
  }

  lemma {:induction false} DeadUnlessRevived(events: seq<Event>, key: string, i: nat, j: nat)
    requires i < j <= |events| && forall k | 0 <= k < |events| :: InRange(events[k])
    requires UnregisteredAt(events, key, i) && !Revived(events, key, i, j)
    ensures Dead(Run(events[..j]), key)
    decreases j
  {
    var k := j - 1;
    RunOneMore(events, k);
    hide Run, StepAt, Revives, Attempt, NormalizeName;
    if k == i {
      UnregisterKills(Run(events[..k]), events[k].time, events[k].step, key);
    } else {
      RevivedStep(events, key, i, k);
      DeadUnlessRevived(events, key, i, k);
      DeadStep(Run(events[..k]), events[k], key);
    }
  }

  lemma {:induction false} FirstRevival(events: seq<Event>, key: string, i: nat, j: nat) returns (m: nat)
    requires i < j <= |events| && forall k | 0 <= k < |events| :: InRange(events[k])
    requires UnregisteredAt(events, key, i) && Revived(events, key, i, j)
    ensures i < m <= j && Live(Run(events[..m]), key, events[m - 1].time)
    decreases j
  {
    var k := j - 1;
    hide Run, StepAt, Revives, UnregisteredAt;
    assert k > i;
    RevivedStep(events, key, i, k);
    if Revived(events, key, i, k) {
      m := FirstRevival(events, key, i, k);
    } else {
      DeadUnlessRevived(events, key, i, k);
      DeadStep(Run(events[..k]), events[k], key);
      RunOneMore(events, k);
      m := j;
    }
  }

  /**
   * In every run, from an unregistration that goes through up to any later moment: the name was live right after some
   * step if and only if a registration went through or the owner of the dead record refreshed it; and if neither
   * happened it is dead at every instant, so that a registration by any node, with any outcome of its lookup, goes
   * through.
   */
  lemma UnregisterFrees(events: seq<Event>, key: string, i: nat, j: nat)
    requires i < j <= |events| && forall k | 0 <= k < |events| :: InRange(events[k])
    requires UnregisteredAt(events, key, i)
    ensures Revived(events, key, i, j) <==>
            exists m :: i < m <= j && Live(Run(events[..m]), key, events[m - 1].time)
    ensures !Revived(events, key, i, j) ==>
              var store := Run(events[..j]);
              && (forall t: Instant :: !Live(store, key, t))
              && forall t: Instant, s: Step | s.Register? && NormalizeName(s.name) == Some(key) ::
                   Attempt(store, t, s).Some? <==> s.ttl > 0 && s.addrs != []
  {
    hide Run, StepAt, Revives, UnregisteredAt, InRange, Attempt, NormalizeName, Live, Dead;
    if Revived(events, key, i, j) {
      var m := FirstRevival(events, key, i, j);
    } else {
      DeadUnlessRevived(events, key, i, j);
      DeadIsFree(Run(events[..j]), key);
      forall m | i < m <= j
        ensures !Live(Run(events[..m]), key, events[m - 1].time)
      {
        DeadUnlessRevived(events, key, i, m);
        DeadIsFree(Run(events[..m]), key);
      }
    }
  }

  lemma RevivedStep(events: seq<Event>, key: string, i: nat, k: nat)
    requires i < k < |events|
    ensures Revived(events, key, i, k + 1) <==>
            Revived(events, key, i, k)
            || (key in Run(events[..k]) && Revives(events[k].step, key, Run(events[..k])[key].owner))
  {
    hide Run, Revives;
  }

  lemma DeadIsFree(store: Store, key: string)
    requires Dead(store, key)
    ensures forall t: Instant :: !Live(store, key, t)
    ensures forall t: Instant, s: Step | s.Register? && NormalizeName(s.name) == Some(key) ::
              Attempt(store, t, s).Some? <==> s.ttl > 0 && s.addrs != []
  {
  }

  /** The owner's own refresh, which a node makes periodically, brings an unregistered name back for a day. */
  lemma RefreshRevives()
    ensures var events := [At(0, Register("n", "a", ["x"], SECOND, true, true)),
                           At(0, Unregister("n", "a", true, true)), At(0, Refresh("n", "a", ["x"], true, true))];
            !Live(Run(events[..2]), "a", 0) && Live(Run(events), "a", DEFAULT_TTL * SECOND)
  {
    var events := [At(0, Register("n", "a", ["x"], SECOND, true, true)), At(0, Unregister("n", "a", true, true)),
                   At(0, Refresh("n", "a", ["x"], true, true))];
    assert NormalizeName("a") == Some("a") by {
      TrimLine("a");
      assert ToLower("a") == "a";
    }
    RunOneMore(events, 0);
    RunOneMore(events, 1);
    RunOneMore(events, 2);
    assert events[..3] == events && events[..0] == [];
    hide Run, NormalizeName;
    assert Run(events[..1]) == map["a" := Record("a", "n", ["x"], 1, 0)];
    assert Run(events[..2]) == map["a" := Record("a", "n", [], 0, 0)];
    assert Run(events[..3]) == map["a" := Record("a", "n", ["x"], DEFAULT_TTL, 0)];
  }

  // ---------------------------------------------------------------- the refresh schedule

  /** Go's `/ 2`, which truncates. */
  function Half(n: int): int {
    if n < 0 then -(-n / 2) else n / 2
  }

  /** The refresh interval that config.Load settles on. */
  function ClampRefresh(ttl: int, refresh: int): int {
    if refresh <= 0 || refresh > ttl then Half(ttl) else refresh
  }

  /** For a positive lifetime the interval is at most the lifetime; it is positive but for a lifetime of 1 ns. */
  lemma ClampRefreshPositive(ttl: int, refresh: int)
    requires ttl > 0
    ensures ClampRefresh(ttl, refresh) <= ttl
    ensures ClampRefresh(ttl, refresh) > 0 <==> ttl > 1 || refresh == 1
    ensures if 0 < refresh <= ttl then ClampRefresh(ttl, refresh) == refresh
            else 2 * ClampRefresh(ttl, refresh) <= ttl <= 2 * ClampRefresh(ttl, refresh) + 1
  {
  }

  /** Whole seconds, rounded up. */
  function CeilSeconds(n: nat): nat {
    (n + SECOND - 1) / SECOND
  }

  /**
   * A record published at any time stays unexpired for a whole interval, at whatever instant the interval starts,
   * if and only if the interval, rounded up to seconds, is at most the lifetime, rounded down, and that is not zero.
   */
  lemma ScheduleExactly(r: Record, ttl: nat, interval: nat)
    requires 0 <= ttl <= MAX_INT
    ensures (forall p: Instant, t: Instant | p <= t <= p + interval && Unix(p) <= LATEST ::
               !Expired(r.(ttl := ttl / SECOND, timestamp := Unix(p)), t))
            <==> 0 < ttl / SECOND && CeilSeconds(interval) <= ttl / SECOND
  {
    var secs := ttl / SECOND;
    if 0 < secs && CeilSeconds(interval) <= secs {
      forall p: Instant, t: Instant | p <= t <= p + interval && Unix(p) <= LATEST
        ensures !Expired(r.(ttl := secs, timestamp := Unix(p)), t)
      {
        InTime(p, t, interval, secs);
      }
    } else if secs == 0 {
      assert Expired(r.(ttl := secs, timestamp := Unix(0)), 0);
    } else {
      var p: Instant := SECOND - 1;
      var t: Instant := p + interval;
      assert Unix(p) == 0 && Unix(t) == CeilSeconds(interval);
      assert Expired(r.(ttl := secs, timestamp := Unix(p)), t);
    }
  }

  lemma InTime(p: Instant, t: Instant, interval: nat, secs: nat)
    requires p <= t <= p + interval && CeilSeconds(interval) <= secs
    ensures Unix(t) <= Unix(p) + secs
  {
    var s := secs * SECOND;
    assert interval <= s;
    assert Unix(p + s) == Unix(p) + secs;
  }

  /** With a lifetime of whole seconds every loaded interval keeps to the schedule. */
  lemma LoadedIntervalFits(seconds: nat, refresh: int)
    requires 0 < seconds
    ensures var interval := ClampRefresh(seconds * SECOND, refresh);
            0 < interval && CeilSeconds(interval) <= seconds == seconds * SECOND / SECOND
  {
  }

  /** A publish of `key` by `node` that goes through, if the name is the node's. */
  predicate Publishes(s: Step, key: string, node: string) {
    && s.node == node && NormalizeName(s.name) == Some(key) && s.stored
    && match s {
         case Register(_, _, addrs, ttl, _, _) => ttl > 0 && addrs != []
         case Refresh(_, _, addrs, found, _) => found && addrs != []
         case Unregister(_, _, _, _) => false
       }
  }

  /** The time of the last publish of `key` by `node`. */
  function LastPublish(events: seq<Event>, key: string, node: string): Instant {
    if events == [] then 0 else
    var e := events[|events| - 1];
    if Publishes(e.step, key, node) then e.time else LastPublish(events[..|events| - 1], key, node)
  }

  function AddrsOf(s: Step): seq<string> {
    if s.Unregister? then [] else s.addrs
  }

  /** The addresses of the last publish of `key` by `node`. */
  function LastAddrs(events: seq<Event>, key: string, node: string): seq<string> {
    if events == [] then [] else
    var s := events[|events| - 1].step;
    if Publishes(s, key, node) then AddrsOf(s) else LastAddrs(events[..|events| - 1], key, node)
  }

  /**
   * How a node keeps a name: whatever attempts of its own fail, a publish goes through before one interval has passed
   * since the last, it does not unregister the name or register it with another lifetime, and no other node puts a
   * record of the name without having seen this one.
   */
  ghost predicate KeepsSchedule(events: seq<Event>, start: nat, key: string, node: string, seconds: nat,
                                interval: nat)
  {
    forall k {:trigger events[k]} | start < k < |events| ::
      && events[k - 1].time <= events[k].time <= LastPublish(events[..k], key, node) + interval
      && KeepsTo(events[k].step, key, node, seconds)
  }

  predicate KeepsTo(s: Step, key: string, node: string, seconds: nat) {
    if s.node != node then !BlindOn(s, key)
    else NormalizeName(s.name) == Some(key) ==> s.Refresh? || (s.Register? && s.ttl == seconds * SECOND)
  }

  /** What holds of the kept name after each step. */
  ghost predicate Kept(store: Store, key: string, node: string, seconds: nat, last: Instant, addrs: seq<string>) {
    key in store && store[key] == Record(key, node, addrs, seconds, Unix(last))
  }

  lemma KeptIsLive(store: Store, key: string, node: string, seconds: nat, last: Instant, addrs: seq<string>,
                   interval: nat, t: Instant)
    requires Kept(store, key, node, seconds, last, addrs) && 0 < seconds <= MAX_INT / SECOND && Unix(last) <= LATEST
    requires CeilSeconds(interval) <= seconds && last <= t <= last + interval
    ensures Live(store, key, t)
  {
    InTime(last, t, interval, seconds);
  }

  lemma KeptStep(store: Store, key: string, node: string, seconds: nat, last: Instant, addrs: seq<string>, e: Event)
    requires Kept(store, key, node, seconds, last, addrs) && 0 < seconds && Live(store, key, e.time)
    requires KeepsTo(e.step, key, node, seconds)
    ensures if Publishes(e.step, key, node)
            then Kept(StepAt(store, e.time, e.step), key, node, seconds, e.time, AddrsOf(e.step))
            else Kept(StepAt(store, e.time, e.step), key, node, seconds, last, addrs)
  {
    OtherKeys(store, e.time, e.step);
    if NormalizeName(e.step.name) == Some(key) && e.step.node != node {
      NonOwnerStep(store, e.time, e.step, key);
    }
  }

  lemma Registered(store: Store, e: Event, key: string, node: string, seconds: nat)
    requires e.step.Register? && Publishes(e.step, key, node) && e.step.ttl == seconds * SECOND
    requires Attempt(store, e.time, e.step).Some?
    ensures Kept(StepAt(store, e.time, e.step), key, node, seconds, e.time, AddrsOf(e.step))
  {
  }

  lemma UnixMonotone(t: Instant, u: Instant)
    requires t <= u
    ensures Unix(t) <= Unix(u)
  {
  }

  /** Step `start` registers the name for `seconds`, and goes through. */
  ghost predicate Starts(events: seq<Event>, start: nat, key: string, node: string, seconds: nat)
    requires start < |events|
  {
    var s := events[start].step;
    s.Register? && Publishes(s, key, node) && s.ttl == seconds * SECOND
    && Attempt(Run(events[..start]), events[start].time, s).Some?
  }

  lemma PublishMore(events: seq<Event>, m: nat, key: string, node: string)
    requires m < |events|
    ensures LastPublish(events[..m + 1], key, node)
         == if Publishes(events[m].step, key, node) then events[m].time else LastPublish(events[..m], key, node)
    ensures LastAddrs(events[..m + 1], key, node)
         == if Publishes(events[m].step, key, node) then AddrsOf(events[m].step) else LastAddrs(events[..m], key, node)
  {
    assert events[..m + 1][..m] == events[..m];
  }

  /** The name is kept after every step from the registration on. */
  lemma {:induction false} KeptRun(events: seq<Event>, start: nat, n: nat, key: string, node: string, seconds: nat,
                                   interval: nat)
    requires start < n <= |events|
    requires 0 < seconds <= MAX_INT / SECOND && CeilSeconds(interval) <= seconds
    requires forall k | 0 <= k < |events| :: Unix(events[k].time) <= LATEST
    requires Starts(events, start, key, node, seconds) && KeepsSchedule(events, start, key, node, seconds, interval)
    ensures var last, addrs := LastPublish(events[..n], key, node), LastAddrs(events[..n], key, node);
            Kept(Run(events[..n]), key, node, seconds, last, addrs) && last <= events[n - 1].time
    decreases n
  {
    var m := n - 1;
    RunOneMore(events, m);
    PublishMore(events, m, key, node);
    if m == start {
      Registered(Run(events[..m]), events[m], key, node, seconds);
    } else {
      var prior, e := LastPublish(events[..m], key, node), events[m];
      assert events[m - 1].time <= e.time <= prior + interval && KeepsTo(e.step, key, node, seconds);
      hide *;
      KeptRun(events, start, m, key, node, seconds, interval);
      KeptOneMore(Run(events[..m]), key, node, seconds, interval, prior, LastAddrs(events[..m], key, node), e);
    }
  }

  lemma KeptOneMore(store: Store, key: string, node: string, seconds: nat, interval: nat, prior: Instant,
                    addrs: seq<string>, e: Event)
    requires Kept(store, key, node, seconds, prior, addrs) && prior <= e.time <= prior + interval
    requires 0 < seconds <= MAX_INT / SECOND && CeilSeconds(interval) <= seconds && Unix(e.time) <= LATEST
    requires KeepsTo(e.step, key, node, seconds)
    ensures if Publishes(e.step, key, node)
            then Kept(StepAt(store, e.time, e.step), key, node, seconds, e.time, AddrsOf(e.step))
            else Kept(StepAt(store, e.time, e.step), key, node, seconds, prior, addrs)
  {
    UnixMonotone(prior, e.time);
    KeptIsLive(store, key, node, seconds, prior, addrs, interval, e.time);
    hide Unix, CeilSeconds, Expired, Attempt;
    KeptStep(store, key, node, seconds, prior, addrs, e);
  }

  /**
   * A node that registers a name and then publishes it on schedule keeps it, whatever of its own attempts fail and
   * whatever nodes that see the record attempt in between: the record is its own, with the addresses of its last
   * publish, and unexpired at every instant up to one interval after that.
   */
  lemma NameIsKept(events: seq<Event>, start: nat, n: nat, key: string, node: string, seconds: nat, interval: nat)
    requires start < n <= |events|
    requires 0 < seconds <= MAX_INT / SECOND && CeilSeconds(interval) <= seconds
    requires forall k | 0 <= k < |events| :: Unix(events[k].time) <= LATEST
    requires Starts(events, start, key, node, seconds) && KeepsSchedule(events, start, key, node, seconds, interval)
    ensures var store, last := Run(events[..n]), LastPublish(events[..n], key, node);
            && key in store
            && store[key] == Record(key, node, LastAddrs(events[..n], key, node), seconds, Unix(last))
            && last <= events[n - 1].time
            && forall t: Instant | last <= t <= last + interval :: Live(store, key, t)
  {
    var store, last := Run(events[..n]), LastPublish(events[..n], key, node);
    var addrs := LastAddrs(events[..n], key, node);
    hide Run, LastPublish, LastAddrs, Starts, KeepsSchedule, Live, CeilSeconds;
    KeptRun(events, start, n, key, node, seconds, interval);
    UnixMonotone(last, events[n - 1].time);
    forall t: Instant | last <= t <= last + interval
      ensures Live(store, key, t)
    {
      KeptIsLive(store, key, node, seconds, last, addrs, interval, t);
    }
  }

  // ---------------------------------------------------------------- the operations of one node

  /** The DHT as a register for each key. */
  class Dht {
    var store: Store

    constructor ()
      ensures store == map[]
    {
      store := map[];
    }

    /** GetValue; `found` is whether the lookup goes through. */
    method Get(key: string, found: bool) returns (r: Option<Record>)
      ensures r == if found && key in store then Some(store[key]) else None
    {
      r := if found && key in store then Some(store[key]) else None;
    }

    method Put(key: string, r: Record, stored: bool) returns (ok: bool)
      modifies this
      ensures ok == stored && store == if stored then old(store)[key := r] else old(store)
    {
      ok := stored;
      if stored {
        store := store[key := r];
      }
    }
  }

  class NameSystem {
    const dht: Dht
    const id: string

    constructor (dht: Dht, id: string)
      ensures this.dht == dht && this.id == id
    {
      this.dht, this.id := dht, id;
    }

    method Register(name: string, addrs: seq<string>, ttl: int, now: Instant, found: bool, stored: bool)
      returns (ok: bool)
      modifies dht
      ensures var s := Step.Register(id, name, addrs, ttl, found, stored);
              && dht.store == StepAt(old(dht.store), now, s)
              && (ok <==> Attempt(old(dht.store), now, s).Some? && stored)
    {
      var norm := NormalizeName(name);
      if norm == None || ttl <= 0 || |addrs| == 0 {
        return false;
      }
      var existing := dht.Get(norm.value, found);
      if existing.Some? && !Expired(existing.value, now) {
        if existing.value.owner != id {
          return false;
        }
      }
      ok := dht.Put(norm.value, Record(norm.value, id, addrs, ttl / SECOND, Unix(now)), stored);
    }

    method Unregister(name: string, now: Instant, found: bool, stored: bool) returns (ok: bool)
      modifies dht
      ensures var s := Step.Unregister(id, name, found, stored);
              && dht.store == StepAt(old(dht.store), now, s)
              && (ok <==> Attempt(old(dht.store), now, s).Some? && stored)
    {
      var norm := NormalizeName(name);
      if norm == None {
        return false;
      }
      var existing := dht.Get(norm.value, found);
      if existing.Some? && existing.value.owner != id {
        return false;
      }
      ok := dht.Put(norm.value, Record(norm.value, id, [], 0, Unix(now)), stored);
    }

    method Refresh(name: string, addrs: seq<string>, now: Instant, found: bool, stored: bool) returns (ok: bool)
      modifies dht
      ensures var s := Step.Refresh(id, name, addrs, found, stored);
              && dht.store == StepAt(old(dht.store), now, s)
              && (ok <==> Attempt(old(dht.store), now, s).Some? && stored)
    {
      var norm := NormalizeName(name);
      if norm == None {
        return false;
      }
      var data := dht.Get(norm.value, found);
      if data == None || data.value.owner != id || |addrs| == 0 {
        return false;
      }
      var rec := data.value;
      rec := rec.(addrs := addrs, timestamp := Unix(now));
      if rec.ttl <= 0 {
        rec := rec.(ttl := DEFAULT_TTL);
      }
      ok := dht.Put(norm.value, rec, stored);
    }
  }
}
