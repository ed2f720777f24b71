/**
 * SmartClient (hypernet/services/proxy/smartclient/smartclient.go): providers from a cache or the DHT, tried in an
 * order derived from statistics, with one refetch. The network's answers are arbitrary inputs.
 */
module SmartClient {
  import opened Bytes

  const MINUTE := 60_000_000_000
  const MILLISECOND := 1_000_000
  const DEFAULT_TTL := 5 * MINUTE
  /** sort.SliceStable sorts blocks of this size by insertion, and then merges them. */
  const BLOCK_SIZE := 20

  /** A peer; `buildable` is whether buildMultiaddr makes an address of it. */
  datatype Provider = Provider(id: string, buildable: bool)

  // ---------------------------------------------------------------- ordering

  /** Start of the strictly descending run of scores that ends at `i`. */
  function RunStart(s: seq<real>, i: nat): (a: nat)
    requires i < |s|
    ensures a <= i && (0 < a ==> s[a] >= s[a - 1])
  {
    if i > 0 && s[i] < s[i - 1] then RunStart(s, i - 1) else i
  }

  /** End of the strictly descending run of scores that starts at or before `i`. */
  function RunEnd(s: seq<real>, i: nat): (b: nat)
    requires i < |s|
    ensures i <= b < |s| && (b + 1 < |s| ==> s[b + 1] >= s[b])
    decreases |s| - i
  {
    if i + 1 < |s| && s[i + 1] < s[i] then RunEnd(s, i + 1) else i
  }

  /** The first `n` providers as they stand after `n` rounds: round `i` puts provider `i` at the start of its run. */
  function Arranged<T>(s: seq<real>, xs: seq<T>, n: nat): (r: seq<T>)
    requires |s| == |xs| && n <= |xs|
    ensures |r| == n
  {
    if n == 0 then [] else
    InsertAt(Arranged(s, xs, n - 1), RunStart(s, n - 1), xs[n - 1])
  }

  function InsertAt<T>(r: seq<T>, a: nat, x: T): seq<T>
    requires a <= |r|
  {
    r[..a] + [x] + r[a..]
  }

  lemma InsertAtIndex<T>(r: seq<T>, a: nat, x: T, k: nat)
    requires a <= |r| && k <= |r|
    ensures |InsertAt(r, a, x)| == |r| + 1
    ensures InsertAt(r, a, x)[k] == if k < a then r[k] else if k == a then x else r[k - 1]
  {
  }

  lemma InsertAtMultiset<T>(r: seq<T>, a: nat, x: T)
    requires a <= |r|
    ensures multiset(InsertAt(r, a, x)) == multiset(r) + multiset{x}
  {
    assert r == r[..a] + r[a..];
  }

  lemma OneMoreMultiset<T>(xs: seq<T>, n: nat)
    requires 0 < n <= |xs|
    ensures multiset(xs[..n]) == multiset(xs[..n - 1]) + multiset{xs[n - 1]}
  {
    assert xs[..n] == xs[..n - 1] + [xs[n - 1]];
  }

  /** Nobody is lost and nobody appears twice. */
  lemma {:induction false} ArrangedPermutes<T>(s: seq<real>, xs: seq<T>, n: nat)
    requires |s| == |xs| && n <= |xs|
    ensures multiset(Arranged(s, xs, n)) == multiset(xs[..n])
  {
    if n > 0 {
      hide InsertAt, RunStart;
      ArrangedPermutes(s, xs, n - 1);
      InsertAtMultiset(Arranged(s, xs, n - 1), RunStart(s, n - 1), xs[n - 1]);
      OneMoreMultiset(xs, n);
    }
  }

  /** Moving one provider to the start of its run by neighbour swaps. */
  method Sift<T>(out: array<T>, s: seq<real>, i: nat)
    requires |s| == out.Length && i < out.Length
    modifies out
    ensures out[..i + 1] == InsertAt(old(out[..i]), RunStart(s, i), old(out[i]))
    ensures out[i + 1..] == old(out[i + 1..])
  {
    var j := i;
    while j > 0 && s[j] < s[j - 1]
      invariant 0 <= j <= i && RunStart(s, j) == RunStart(s, i)
      invariant forall k | 0 <= k < j :: out[k] == old(out[k])
      invariant out[j] == old(out[i]) && forall k | j < k <= i :: out[k] == old(out[k - 1])
      invariant forall k | i < k < out.Length :: out[k] == old(out[k])
    {
      out[j], out[j - 1] := out[j - 1], out[j];
      j := j - 1;
    }
    assert j == RunStart(s, i);
  }

  /**
   * One block of insertion sort. The comparison looks up the scores by position, and positions keep their scores while
   * providers move.
   */
  method InsertionSort<T>(out: array<T>, s: seq<real>)
    requires |s| == out.Length <= BLOCK_SIZE
    modifies out
    ensures out[..] == Arranged(s, old(out[..]), out.Length)
  {
    ghost var xs := out[..];
    for i := 0 to out.Length
      invariant out[..i] == Arranged(s, xs, i) && out[i..] == xs[i..]
    {
      assert out[i] == out[i..][0] == xs[i];
      assert out[i + 1..] == out[i..][1..] == xs[i + 1..];
      hide InsertAt, RunStart;
      Sift(out, s, i);
    }
    assert out[..out.Length] == out[..];
  }

  /** The sort of a list of more than one block moves elements only by swapping them; which ones is left open. */
  method SomeSwaps<T>(out: array<T>)
    modifies out
    ensures multiset(out[..]) == multiset(old(out[..]))
  {
    var swaps: int := *;
    while swaps > 0
      invariant multiset(out[..]) == multiset(old(out[..]))
    {
      swaps := swaps - 1;
      var i: int, j: int := *, *;
      if 0 <= i < out.Length && 0 <= j < out.Length {
        out[i], out[j] := out[j], out[i];
      }
    }
  }

  /** sort.SliceStable with a comparison of positions. */
  method SliceStable<T>(out: array<T>, s: seq<real>)
    requires |s| == out.Length
    modifies out
    ensures multiset(out[..]) == multiset(old(out[..]))
    ensures out.Length <= BLOCK_SIZE ==> out[..] == Arranged(s, old(out[..]), out.Length)
  {
    if out.Length <= BLOCK_SIZE {
      ghost var xs := out[..];
      ArrangedPermutes(s, xs, |xs|);
      assert xs[..|xs|] == xs;
      InsertionSort(out, s);
    } else {
      SomeSwaps(out);
    }
  }

  // ---------------------------------------------------------------- exactly what the ordering does

  /** `i` and `j` are in the same strictly descending run. */
  predicate SameRun(s: seq<real>, i: nat, j: nat)
    requires i <= j < |s|
  {
    RunStart(s, j) <= i
  }

  /** All of a run agrees on its ends. */
  lemma {:induction false} RunEnds(s: seq<real>, i: nat, j: nat)
    requires i <= j < |s| && SameRun(s, i, j)
    ensures RunStart(s, i) == RunStart(s, j) && RunEnd(s, i) == RunEnd(s, j)
    ensures i < j ==> s[i] > s[j]
    decreases j - i
  {
    if i < j {
      RunEnds(s, i, j - 1);
      assert RunEnd(s, j - 1) == RunEnd(s, j);
    }
  }

  lemma {:induction false} EndInRun(s: seq<real>, i: nat)
    requires i < |s|
    ensures SameRun(s, i, RunEnd(s, i))
    decreases |s| - i
  {
    if i + 1 < |s| && s[i + 1] < s[i] {
      EndInRun(s, i + 1);
      RunEnds(s, i + 1, RunEnd(s, i + 1));
    }
  }

  lemma {:induction false} StartInRun(s: seq<real>, i: nat)
    requires i < |s|
    ensures SameRun(s, RunStart(s, i), i)
  {
  }

  /** The place of provider `i` once its run is reversed. */
  function Mirror(s: seq<real>, i: nat): (m: nat)
    requires i < |s|
    ensures RunStart(s, i) <= m <= RunEnd(s, i)
  {
    RunStart(s, i) + RunEnd(s, i) - i
  }

  lemma MirrorInRun(s: seq<real>, i: nat)
    requires i < |s|
    ensures RunStart(s, Mirror(s, i)) == RunStart(s, i) && RunEnd(s, Mirror(s, i)) == RunEnd(s, i)
    ensures Mirror(s, Mirror(s, i)) == i
  {
    var a, b, m := RunStart(s, i), RunEnd(s, i), Mirror(s, i);
    EndInRun(s, i);
    RunEnds(s, i, b);
    RunEnds(s, m, b);
  }

  /** A run ends before the next one starts. */
  lemma RunsDoNotOverlap(s: seq<real>, i: nat, j: nat)
    requires i < j < |s| && !SameRun(s, i, j)
    ensures RunEnd(s, i) < RunStart(s, j)
  {
    EndInRun(s, i);
    if RunEnd(s, i) >= RunStart(s, j) {
      RunEnds(s, i, RunEnd(s, i));
      RunEnds(s, if j <= RunEnd(s, i) then j else i, RunEnd(s, i));
      StartInRun(s, j);
      RunEnds(s, RunStart(s, j), j);
      RunEnds(s, RunStart(s, j), RunEnd(s, i));
    }
  }

  /** The ordering of a block reverses every strictly descending run of scores in place, and does nothing else. */
  lemma {:induction false} ArrangedAt<T>(s: seq<real>, xs: seq<T>, n: nat, k: nat)
    requires |s| == |xs| <= BLOCK_SIZE && k < n <= |xs|
    ensures 0 <= RunStart(s, k) + Min(RunEnd(s, k), n - 1) - k < |xs|
    ensures Arranged(s, xs, n)[k] == xs[RunStart(s, k) + Min(RunEnd(s, k), n - 1) - k]
    decreases n
  {
    hide RunStart, RunEnd, InsertAt;
    var a, r := RunStart(s, n - 1), Arranged(s, xs, n - 1);
    InsertAtIndex(r, a, xs[n - 1], k);
    if k < a {
      RunsDoNotOverlap(s, k, n - 1);
      ArrangedAt(s, xs, n - 1, k);
    } else {
      RunEnds(s, k, n - 1);
      if k > a {
        ArrangedAt(s, xs, n - 1, k - 1);
        RunEnds(s, k - 1, n - 1);
      }
    }
  }

  lemma OutputAt<T>(s: seq<real>, xs: seq<T>, k: nat)
    requires |s| == |xs| <= BLOCK_SIZE && k < |xs|
    ensures Arranged(s, xs, |xs|)[k] == xs[Mirror(s, k)]
  {
    hide RunStart, RunEnd, Arranged;
    ArrangedAt(s, xs, |xs|, k);
  }

  /** The scores, in the order in which their providers come out, are ascending. */
  ghost predicate MirrorSorted(s: seq<real>) {
    forall k, l | 0 <= k < l < |s| :: s[Mirror(s, k)] <= s[Mirror(s, l)]
  }

  /** Whenever a provider has a lower score than one before it, everything between them is strictly descending. */
  ghost predicate InversionsInRuns(s: seq<real>) {
    forall i, j | 0 <= i < j < |s| && s[i] > s[j] :: SameRun(s, i, j)
  }

  lemma MirrorSortedExactly(s: seq<real>)
    ensures MirrorSorted(s) <==> InversionsInRuns(s)
  {
    hide RunStart, RunEnd, Mirror, SameRun;
    if InversionsInRuns(s) {
      forall k, l | 0 <= k < l < |s|
        ensures s[Mirror(s, k)] <= s[Mirror(s, l)]
      {
        PairInOrder(s, k, l);
      }
    }
    if MirrorSorted(s) {
      forall i, j | 0 <= i < j < |s| && s[i] > s[j]
        ensures SameRun(s, i, j)
      {
        if !SameRun(s, i, j) {
          MirrorAcross(s, i, j);
          MirrorInRun(s, i);
          MirrorInRun(s, j);
        }
      }
    }
  }

  lemma PairInOrder(s: seq<real>, k: nat, l: nat)
    requires k < l < |s| && InversionsInRuns(s)
    ensures s[Mirror(s, k)] <= s[Mirror(s, l)]
  {
    hide RunStart, RunEnd;
    MirrorInRun(s, k);
    MirrorInRun(s, l);
    if SameRun(s, k, l) {
      RunEnds(s, k, l);
      InRun(s, Mirror(s, l), Mirror(s, k));
    } else {
      MirrorAcross(s, k, l);
    }
  }

  lemma InRun(s: seq<real>, i: nat, j: nat)
    requires i < j < |s| && RunStart(s, i) == RunStart(s, j)
    ensures s[i] > s[j]
  {
    hide RunEnd;
    RunEnds(s, i, j);
  }

  /** Positions that are in different runs keep their order. */
  lemma MirrorAcross(s: seq<real>, i: nat, j: nat)
    requires i < j < |s| && !SameRun(s, i, j)
    ensures Mirror(s, i) < Mirror(s, j) && !SameRun(s, Mirror(s, i), Mirror(s, j))
  {
    MirrorInRun(s, i);
    MirrorInRun(s, j);
    RunsDoNotOverlap(s, i, j);
  }

  // ---------------------------------------------------------------- statistics

  /** Times and latencies in nanoseconds. */
  datatype Stats = Stats(lastSuccess: int, lastLatency: int, failures: nat, lastFailure: int)
  type StatsMap = map<string, Stats>

  /** The score of a provider; lower is better. Floating point is taken as exact. */
  function Score(stats: StatsMap, id: string, now: int): (r: real)
    ensures r >= 100.0
    ensures id !in stats ==> r == 100.0
  {
    if id !in stats then 100.0 else
    var st := stats[id];
    var latency := if st.lastLatency > 0 then (st.lastLatency / MILLISECOND) as real else 0.0;
    var penalty := st.failures as real * 50.0;
    100.0 + latency + (if now - st.lastFailure < 30 * MINUTE then penalty * 2.0 else penalty)
  }

  /**
   * A failure costs 50, twice that within thirty minutes of the last one, and a millisecond of latency costs 1; a known
   * peer without either scores 100 like an unknown one.
   */
  lemma ScoreExactly(st: Stats, id: string, now: int)
    ensures var recent := now - st.lastFailure < 1_800_000_000_000;
            && Score(map[id := st.(failures := st.failures + 1)], id, now)
               == Score(map[id := st], id, now) + (if recent then 100.0 else 50.0)
            && (st.lastLatency >= 0 ==> Score(map[id := st.(lastLatency := st.lastLatency + 1_000_000)], id, now)
                                        == Score(map[id := st], id, now) + 1.0)
            && Score(map[id := st.(lastLatency := 0, failures := 0)], id, now) == 100.0
  {
    assert (st.failures + 1) as real * 50.0 == st.failures as real * 50.0 + 50.0;
  }

  /** Of two records of a peer, the one with more failures, a later last failure and more latency never scores lower. */
  lemma ScoreGrows(a: Stats, b: Stats, id: string, now: int)
    requires a.lastLatency <= b.lastLatency && a.failures <= b.failures && a.lastFailure <= b.lastFailure
    ensures Score(map[id := a], id, now) <= Score(map[id := b], id, now)
    ensures a.failures < b.failures ==> Score(map[id := a], id, now) < Score(map[id := b], id, now)
  {
    assert a.failures as real * 50.0 <= b.failures as real * 50.0;
  }

  function Scores(stats: StatsMap, list: seq<Provider>, now: int): (s: seq<real>)
    ensures |s| == |list| && forall i | 0 <= i < |list| :: s[i] == Score(stats, list[i].id, now)
  {
    seq(|list|, i requires 0 <= i < |list| => Score(stats, list[i].id, now))
  }

  /** A list of providers by ascending score. */
  ghost predicate ByScore(stats: StatsMap, list: seq<Provider>, now: int) {
    forall k, l | 0 <= k < l < |list| :: Score(stats, list[k].id, now) <= Score(stats, list[l].id, now)
  }

  /**
   * The list that orderProviders returns is ordered by score if and only if the scores of the input have no inversion
   * across descending runs.
   */
  lemma OrderedExactly(stats: StatsMap, list: seq<Provider>, now: int)
    requires |list| <= BLOCK_SIZE
    ensures var s := Scores(stats, list, now);
            ByScore(stats, Arranged(s, list, |list|), now) <==> InversionsInRuns(s)
  {
    var s := Scores(stats, list, now);
    var out := Arranged(s, list, |list|);
    hide RunStart, RunEnd, Mirror, Arranged, Score, InversionsInRuns;
    MirrorSortedExactly(s);
    forall k | 0 <= k < |list|
      ensures Score(stats, out[k].id, now) == s[Mirror(s, k)]
    {
      OutputAt(s, list, k);
    }
    SameOrder(stats, out, now, s);
  }

  lemma SameOrder(stats: StatsMap, out: seq<Provider>, now: int, s: seq<real>)
    requires |out| == |s| && forall k | 0 <= k < |s| :: Score(stats, out[k].id, now) == s[Mirror(s, k)]
    ensures ByScore(stats, out, now) <==> MirrorSorted(s)
  {
    hide Mirror, Score;
    if ByScore(stats, out, now) {
      forall k, l | 0 <= k < l < |s|
        ensures s[Mirror(s, k)] <= s[Mirror(s, l)]
      {
        assert Score(stats, out[k].id, now) <= Score(stats, out[l].id, now);
      }
    }
  }

  /** The best of three providers, listed last, comes out second. */
  lemma NotOrderedExample()
    ensures var stats := map["a" := Stats(0, MILLISECOND, 0, 0), "b" := Stats(0, 2 * MILLISECOND, 0, 0)];
            var list := [Provider("a", true), Provider("b", true), Provider("c", true)];
            !ByScore(stats, Arranged(Scores(stats, list, 0), list, 3), 0)
  {
    var stats := map["a" := Stats(0, MILLISECOND, 0, 0), "b" := Stats(0, 2 * MILLISECOND, 0, 0)];
    var list := [Provider("a", true), Provider("b", true), Provider("c", true)];
    var s := Scores(stats, list, 0);
    assert "c" !in stats;
    assert s[0] == 101.0 && s[1] == 102.0 && s[2] == 100.0;
    assert RunStart(s, 1) == 1 && RunStart(s, 2) == 1;
    assert s[0] > s[2] && !SameRun(s, 0, 2);
    OrderedExactly(stats, list, 0);
  }

  function FailuresOf(stats: StatsMap, id: string): nat {
    if id in stats then stats[id].failures else 0
  }

  // ---------------------------------------------------------------- one call

  /** What the discovery answers: each lookup a list or an error, and the connected peers with addresses. */
  datatype Lookup = Lookup(region: Option<seq<Provider>>, plain: Option<seq<Provider>>, connected: seq<Provider>)

  /** What becomes of one provider that is tried: its client may fail to build, its dial may fail. */
  datatype Trial = Trial(clientOk: bool, dialOk: bool, latency: int)

  /** Whether the attempt at `p` counts as a failure of the peer: not when no address can be built. */
  predicate CountsAsFailure(p: Provider, t: Trial) {
    p.buildable && !(t.clientOk && t.dialOk)
  }

  predicate Succeeds(p: Provider, t: Trial) {
    p.buildable && t.clientOk && t.dialOk
  }

  datatype Tried = Tried(provider: Provider, trial: Trial)

  /** How many of the attempts count as failures of peer `id`. */
  function FailedAttempts(ts: seq<Tried>, id: string): nat {
    if ts == [] then 0 else
    var t := ts[|ts| - 1];
    FailedAttempts(ts[..|ts| - 1], id) + if t.provider.id == id && CountsAsFailure(t.provider, t.trial) then 1 else 0
  }

  lemma {:induction false} FailedAttemptsAppend(xs: seq<Tried>, ys: seq<Tried>, id: string)
    ensures FailedAttempts(xs + ys, id) == FailedAttempts(xs, id) + FailedAttempts(ys, id)
  {
    if ys == [] {
      assert xs + ys == xs;
    } else {
      FailedAttemptsAppend(xs, ys[..|ys| - 1], id);
      assert (xs + ys)[..|xs + ys| - 1] == xs + ys[..|ys| - 1];
    }
  }

  /** The statistics count exactly the failed attempts of each peer. */
  ghost predicate Counted(before: StatsMap, after: StatsMap, ts: seq<Tried>) {
    forall id :: FailuresOf(after, id) == FailuresOf(before, id) + FailedAttempts(ts, id)
  }

  /** What is known of the order of a list: up to one block it is the arrangement by the scores. */
  ghost predicate InOrder(stats: StatsMap, list: seq<Provider>, now: int, out: seq<Provider>) {
    |list| <= BLOCK_SIZE ==> out == Arranged(Scores(stats, list, now), list, |list|)
  }

  datatype CacheEntry = CacheEntry(providers: seq<Provider>, fetchedAt: int)

  datatype CallResult = BadProtocol | NoProviders | FetchFailed | Connected | AllFailed

  /** What a call did: its result, the number of fetches, the lists it went through and the attempts at each. */
  datatype Report = Report(result: CallResult, fetches: nat, lists: seq<seq<Provider>>,
                           first: seq<Tried>, second: seq<Tried>)

  /** Trying the first `n` providers of a list. */
  function Attempts(list: seq<Provider>, trials: nat -> Trial, n: nat): (ts: seq<Tried>)
    requires n <= |list|
    ensures |ts| == n && forall k | 0 <= k < n :: ts[k] == Tried(list[k], trials(k))
  {
    seq(n, k requires 0 <= k < n => Tried(list[k], trials(k)))
  }

  /** A list is tried in its order, up to the first success or the end. */
  ghost predicate TriedThrough(list: seq<Provider>, trials: nat -> Trial, ts: seq<Tried>, ok: bool) {
    && |ts| <= |list| && ts == Attempts(list, trials, |ts|)
    && (forall k | 0 <= k < |ts| - 1 :: !Succeeds(list[k], trials(k)))
    && (ok <==> ts != [] && Succeeds(list[|ts| - 1], trials(|ts| - 1)))
    && (!ok ==> |ts| == |list|)
  }

  /** What an attempt leaves in the statistics: nothing when no address can be built. */
  function Noted(stats: StatsMap, t: Tried, now: int): StatsMap {
    if !t.provider.buildable then stats
    else if Succeeds(t.provider, t.trial) then AfterSuccess(stats, t.provider.id, t.trial.latency, now)
    else AfterFailure(stats, t.provider.id, now)
  }

  function StatsOf(stats: StatsMap, id: string): Stats {
    if id in stats then stats[id] else Stats(0, 0, 0, 0)
  }

  function AfterSuccess(stats: StatsMap, id: string, latency: int, now: int): StatsMap {
    stats[id := StatsOf(stats, id).(lastSuccess := now, lastLatency := latency)]
  }

  function AfterFailure(stats: StatsMap, id: string, now: int): StatsMap {
    stats[id := StatsOf(stats, id).(failures := StatsOf(stats, id).failures + 1, lastFailure := now)]
  }

  function NotedAll(stats: StatsMap, ts: seq<Tried>, now: int): StatsMap {
    if ts == [] then stats else Noted(NotedAll(stats, ts[..|ts| - 1], now), ts[|ts| - 1], now)
  }

  lemma {:induction false} NotedAppend(stats: StatsMap, xs: seq<Tried>, ys: seq<Tried>, now: int)
    ensures NotedAll(stats, xs + ys, now) == NotedAll(NotedAll(stats, xs, now), ys, now)
  {
    if ys == [] {
      assert xs + ys == xs;
    } else {
      NotedAppend(stats, xs, ys[..|ys| - 1], now);
      assert (xs + ys)[..|xs + ys| - 1] == xs + ys[..|ys| - 1];
    }
  }

  lemma {:induction false} NotedCounts(stats: StatsMap, ts: seq<Tried>, now: int)
    ensures Counted(stats, NotedAll(stats, ts, now), ts)
  {
    if ts != [] {
      NotedCounts(stats, ts[..|ts| - 1], now);
    }
  }

  /** What the last attempts at a peer leave, by the last of each kind among `ts`. */
  lemma {:induction false} NotedLast(stats: StatsMap, ts: seq<Tried>, now: int, id: string)
    ensures var before, after := StatsOf(stats, id), StatsOf(NotedAll(stats, ts, now), id);
            && after.lastFailure == (if FailedAttempts(ts, id) > 0 then now else before.lastFailure)
            && (after.lastSuccess, after.lastLatency)
               == match LatencyOf(ts, id)
                  case None => (before.lastSuccess, before.lastLatency)
                  case Some(l) => (now, l)
  {
    if ts != [] {
      NotedLast(stats, ts[..|ts| - 1], now, id);
    }
  }

  /** The latency of the last success of a peer. */
  function LatencyOf(ts: seq<Tried>, id: string): Option<int> {
    if ts == [] then None else
    var t := ts[|ts| - 1];
    if t.provider.id == id && t.provider.buildable && t.trial.clientOk && t.trial.dialOk then Some(t.trial.latency)
    else LatencyOf(ts[..|ts| - 1], id)
  }

  /** The places of the failed attempts at a peer: an address could be built, and no connection came about. */
  function FailedPlaces(ts: seq<Tried>, id: string): set<nat> {
    set k: nat | k < |ts| && ts[k].provider.id == id && ts[k].provider.buildable
                 && !(ts[k].trial.clientOk && ts[k].trial.dialOk)
  }

  lemma FailedPlacesMore(ts: seq<Tried>, t: Tried, id: string)
    ensures FailedPlaces(ts + [t], id)
         == FailedPlaces(ts, id)
            + (if t.provider.id == id && t.provider.buildable && !(t.trial.clientOk && t.trial.dialOk) then {|ts|}
               else {})
  {
    var all := ts + [t];
    forall k: nat
      ensures k in FailedPlaces(all, id) <==>
              k in FailedPlaces(ts, id)
              || (k == |ts| && t.provider.id == id && t.provider.buildable && !(t.trial.clientOk && t.trial.dialOk))
    {
      if k < |ts| {
        assert all[k] == ts[k];
      }
    }
  }

  lemma {:induction false} FailedAttemptsCounted(ts: seq<Tried>, id: string)
    ensures FailedAttempts(ts, id) == |FailedPlaces(ts, id)|
  {
    if ts == [] {
      assert FailedPlaces(ts, id) == {};
    } else {
      var n := |ts| - 1;
      FailedAttemptsCounted(ts[..n], id);
      FailedPlacesMore(ts[..n], ts[n], id);
      assert ts == ts[..n] + [ts[n]] && n !in FailedPlaces(ts[..n], id);
      hide FailedPlaces;
    }
  }

  /** The cached list, or none when there is no entry or it is older than `ttl`. */
  function CachedList(cache: map<string, CacheEntry>, proto: string, now: int, ttl: int): seq<Provider> {
    if proto in cache && now - cache[proto].fetchedAt <= ttl then cache[proto].providers else []
  }

  /** A list is served from the cache only while its entry is no older than the lifetime, and then as it was stored. */
  lemma CachedListExactly(cache: map<string, CacheEntry>, proto: string, now: int, ttl: int)
    ensures var ps := CachedList(cache, proto, now, ttl);
            && (ps != [] ==> proto in cache && ps == cache[proto].providers && now <= cache[proto].fetchedAt + ttl)
            && (proto in cache && now <= cache[proto].fetchedAt + ttl ==> ps == cache[proto].providers)
  {
  }

  class Client {
    const maxAge: int
    const region: string
    var providerCache: map<string, CacheEntry>
    var peerStats: StatsMap

    constructor (maxAge: int, region: string)
      ensures this.maxAge == maxAge && this.region == region && providerCache == map[] && peerStats == map[]
    {
      this.maxAge, this.region, providerCache, peerStats := maxAge, region, map[], map[];
    }

    /** The lifetime of a cache entry. */
    function Ttl(): (t: int)
      ensures t == maxAge > 0 || (maxAge <= 0 && t == 300_000_000_000)
    {
      if maxAge <= 0 then DEFAULT_TTL else maxAge
    }

    method GetCached(proto: string, now: int) returns (ps: seq<Provider>)
      ensures ps == CachedList(providerCache, proto, now, Ttl())
    {
      if proto !in providerCache || |providerCache[proto].providers| == 0 {
        return [];
      }
      if now - providerCache[proto].fetchedAt > Ttl() {
        return [];
      }
      ps := providerCache[proto].providers;
    }

    /** None is an error. Only a list that is not empty replaces the cache entry. */
    method FetchProviders(proto: string, l: Lookup, now: int) returns (ps: Option<seq<Provider>>)
      modifies this`providerCache
      ensures ps == Fetched(region, l)
      ensures providerCache == CacheAfterFetch(old(providerCache), proto, ps, now)
    {
      var providers: seq<Provider> := [];
      if region != "" {
        if l.region == None {
          return None;
        }
        providers := l.region.value;
      }
      if |providers| == 0 {
        if l.plain == None {
          return None;
        }
        providers := l.plain.value;
      }
      if |providers| == 0 {
        providers := l.connected;
      }
      if |providers| > 0 {
        providerCache := providerCache[proto := CacheEntry(providers, now)];
      }
      ps := Some(providers);
    }

    method RecordSuccess(id: string, latency: int, now: int)
      modifies this`peerStats
      ensures peerStats == AfterSuccess(old(peerStats), id, latency, now)
      ensures Counted(old(peerStats), peerStats, [])
      ensures id in peerStats && peerStats[id].lastSuccess == now && peerStats[id].lastLatency == latency
      ensures peerStats[id].lastFailure == if id in old(peerStats) then old(peerStats)[id].lastFailure else 0
      ensures peerStats.Keys == old(peerStats).Keys + {id}
      ensures forall k | k in old(peerStats) && k != id :: peerStats[k] == old(peerStats)[k]
    {
      var st := if id in peerStats then peerStats[id] else Stats(0, 0, 0, 0);
      peerStats := peerStats[id := st.(lastSuccess := now, lastLatency := latency)];
    }

    method RecordFailure(id: string, now: int)
      modifies this`peerStats
      ensures peerStats == AfterFailure(old(peerStats), id, now)
      ensures forall k :: FailuresOf(peerStats, k) == FailuresOf(old(peerStats), k) + if k == id then 1 else 0
      ensures peerStats.Keys == old(peerStats).Keys + {id} && peerStats[id].lastFailure == now
      ensures id in old(peerStats) ==> peerStats[id].lastSuccess == old(peerStats)[id].lastSuccess
                                       && peerStats[id].lastLatency == old(peerStats)[id].lastLatency
      ensures forall k | k in old(peerStats) && k != id :: peerStats[k] == old(peerStats)[k]
    {
      var st := if id in peerStats then peerStats[id] else Stats(0, 0, 0, 0);
      peerStats := peerStats[id := st.(failures := st.failures + 1, lastFailure := now)];
    }

    /** The providers one after the other until one connects. */
    method TryProviders(list: seq<Provider>, trials: nat -> Trial, now: int) returns (ok: bool, tried: seq<Tried>)
      modifies this`peerStats
      ensures TriedThrough(list, trials, tried, ok)
      ensures peerStats == NotedAll(old(peerStats), tried, now)
    {
      ok, tried := false, [];
      for i := 0 to |list|
        invariant tried == Attempts(list, trials, i) && !ok
        invariant forall k | 0 <= k < i :: !Succeeds(list[k], trials(k))
        invariant peerStats == NotedAll(old(peerStats), tried, now)
      {
        var info, t := list[i], trials(i);
        ghost var before, stats := tried, peerStats;
        tried := tried + [Tried(info, t)];
        assert tried[..i] == before;
        if !info.buildable {
          continue;
        }
        if !t.clientOk || !t.dialOk {
          RecordFailure(info.id, now);
          assert peerStats == Noted(stats, Tried(info, t), now);
          continue;
        }
        RecordSuccess(info.id, t.latency, now);
        assert peerStats == Noted(stats, Tried(info, t), now);
        return true, tried;
      }
    }

    /** The order in which a list is tried: a permutation of it, and for one block the arrangement by its scores. */
    method OrderProviders(list: seq<Provider>, now: int) returns (out: seq<Provider>)
      ensures multiset(out) == multiset(list)
      ensures InOrder(peerStats, list, now, out)
    {
      hide Score, Arranged;
      var scores := Scores(peerStats, list, now);
      var a := new Provider[|list|](i requires 0 <= i < |list| => list[i]);
      assert a[..] == list;
      SliceStable(a, scores);
      out := a[..];
    }

    function Now(): State
      reads this
    {
      State(providerCache, peerStats)
    }

    method DialTCPViaProtocol(q: Call) returns (r: Report)
      modifies this
      ensures Carries(region, Ttl(), old(Now()), q, r, Now())
    {
      hide TriedThrough, Fetched, InOrder, CachedList, NotedAll, Attempts, Ttl;
      var proto, l, now := q.proto, q.lookup, q.at;
      NotedNothing(peerStats, now);
      var none: seq<Tried> := [];
      assert none + none == none;
      if proto == "" {
        return Report(BadProtocol, 0, [], [], []);
      }
      var fetches := 0;
      var providers := GetCached(proto, now);
      var fromCache := |providers| > 0;
      if |providers| == 0 {
        fetches := 1;
        var f := FetchProviders(proto, l, now);
        if f == None {
          return Report(FetchFailed, fetches, [], [], []);
        }
        providers := f.value;
      }
      if |providers| == 0 {
        return Report(NoProviders, fetches, [], [], []);
      }
      ghost var start := providers;
      providers := OrderProviders(providers, now);
      var ok, tried := TryProviders(providers, q.first, now);
      assert tried + [] == tried;
      if ok {
        return Report(Connected, fetches, [providers], tried, []);
      }
      if !fromCache {
        return Report(AllFailed, fetches, [providers], tried, []);
      }
      var renewed := FetchProviders(proto, l, now);
      if renewed == None || |renewed.value| == 0 {
        return Report(AllFailed, 1, [providers], tried, []);
      }
      var more;
      ok, more := TryProviders(renewed.value, q.second, now);
      NotedAppend(old(peerStats), tried, more, now);
      r := Report(if ok then Connected else AllFailed, 1, [providers, renewed.value], tried, more);
    }
  }

  /** A call of DialTCPViaProtocol, with what it meets. */
  datatype Call = Call(proto: string, lookup: Lookup, first: nat -> Trial, second: nat -> Trial, at: int)

  /** What a call can change. */
  datatype State = State(cache: map<string, CacheEntry>, stats: StatsMap)

  /** The list that is tried first: the cached one, or else the fetched one. */
  function StartList(region: string, ttl: int, st: State, q: Call): seq<Provider> {
    var cached := CachedList(st.cache, q.proto, q.at, ttl);
    if cached != [] then cached else FoundList(region, q)
  }

  function FoundList(region: string, q: Call): seq<Provider> {
    var f := Fetched(region, q.lookup);
    if f.Some? then f.value else []
  }

  /** Nothing to try, and why. */
  ghost predicate GivesUp(region: string, ttl: int, st: State, q: Call, r: Report) {
    var cached := CachedList(st.cache, q.proto, q.at, ttl);
    if q.proto == "" then r == Report(BadProtocol, 0, [], [], [])
    else
      cached == [] && r == Report(if Fetched(region, q.lookup) == None then FetchFailed else NoProviders, 1, [], [], [])
  }

  /**
   * A list that has something to try is ordered and tried; if it was the cached one and all of it failed, a newly
   * fetched list, unless it is empty, is tried as it comes.
   */
  ghost predicate Searches(region: string, ttl: int, st: State, q: Call, r: Report) {
    var start, cached := StartList(region, ttl, st, q), CachedList(st.cache, q.proto, q.at, ttl) != [];
    && r.lists != [] && multiset(r.lists[0]) == multiset(start) && InOrder(st.stats, start, q.at, r.lists[0])
    && var ok := r.result == Connected && |r.lists| == 1;
       var again := !ok && cached && FoundList(region, q) != [];
       && TriedThrough(r.lists[0], q.first, r.first, ok)
       && r.fetches == (if ok && cached then 0 else 1)
       && (r.result == Connected || r.result == AllFailed)
       && (if again then r.lists == [r.lists[0], FoundList(region, q)]
                         && TriedThrough(r.lists[1], q.second, r.second, r.result == Connected)
           else |r.lists| == 1 && r.second == [])
  }

  /** The outcome of a call, and the cache and statistics after it. */
  ghost predicate Carries(region: string, ttl: int, st: State, q: Call, r: Report, after: State) {
    && (if q.proto == "" || StartList(region, ttl, st, q) == [] then GivesUp(region, ttl, st, q, r)
        else Searches(region, ttl, st, q, r))
    && after == State(if r.fetches == 0 then st.cache
                      else CacheAfterFetch(st.cache, q.proto, Fetched(region, q.lookup), q.at),
                      NotedAll(st.stats, r.first + r.second, q.at))
  }

  /** Some provider of the list would succeed. */
  predicate HasSuccess(list: seq<Provider>, trials: nat -> Trial) {
    exists k | 0 <= k < |list| :: list[k].buildable && trials(k).clientOk && trials(k).dialOk
  }

  lemma NoSuccess(trials: nat -> Trial)
    ensures !HasSuccess([], trials)
  {
  }

  lemma TriedFinds(list: seq<Provider>, trials: nat -> Trial, ts: seq<Tried>, ok: bool)
    requires TriedThrough(list, trials, ts, ok)
    ensures ok <==> HasSuccess(list, trials)
  {
    if !ok {
      forall k | 0 <= k < |list|
        ensures !Succeeds(list[k], trials(k))
      {
        assert k < |ts| - 1 || k == |ts| - 1;
      }
    }
  }

  lemma TriedIsDetermined(list: seq<Provider>, trials: nat -> Trial, ts: seq<Tried>, ok: bool,
                          us: seq<Tried>, ok': bool)
    requires TriedThrough(list, trials, ts, ok) && TriedThrough(list, trials, us, ok')
    ensures ts == us && ok == ok'
  {
    hide Succeeds;
  }

  /** What a fetch returns: the providers of the region, else those of the plain lookup, else the connected peers. */
  lemma FetchedExactly(region: string, l: Lookup)
    ensures Fetched(region, l) == None <==>
            || (region != "" && l.region == None)
            || ((region == "" || l.region == Some([])) && l.plain == None)
    ensures Fetched(region, l).Some? ==>
              var ps := Fetched(region, l).value;
              if region != "" && l.region.value != [] then ps == l.region.value
              else if l.plain.value != [] then ps == l.plain.value
              else ps == l.connected
  {
  }

  /** Why a call gives up, and how often it asks the discovery. */
  lemma GivesUpExactly(region: string, ttl: int, st: State, q: Call, r: Report, after: State)
    requires Carries(region, ttl, st, q, r, after)
    ensures var cached, f := CachedList(st.cache, q.proto, q.at, ttl), Fetched(region, q.lookup);
            && (r.result == BadProtocol <==> q.proto == "")
            && (r.result == FetchFailed <==> q.proto != "" && cached == [] && f == None)
            && (r.result == NoProviders <==> q.proto != "" && cached == [] && f == Some([]))
            && r.fetches == (if q.proto == "" || (cached != [] && r.result == Connected && |r.lists| == 1) then 0
                             else 1)
            && (|r.lists| == 2 <==>
                  q.proto != "" && cached != [] && r.lists != [] && !HasSuccess(r.lists[0], q.first)
                  && f.Some? && f.value != [])
            && (|r.lists| == 2 ==> r.lists[1] == f.value)
  {
    hide TriedThrough, InOrder, Fetched, CachedList, NotedAll;
    if r.lists != [] {
      TriedFinds(r.lists[0], q.first, r.first, r.result == Connected && |r.lists| == 1);
    }
  }

  /**
   * A call connects if and only if some provider of the list it starts with succeeds, or that list was the cached one
   * and some provider of a newly fetched list does.
   */
  lemma ConnectsExactly(region: string, ttl: int, st: State, q: Call, r: Report, after: State)
    requires Carries(region, ttl, st, q, r, after)
    ensures r.lists == [] <==> q.proto == "" || StartList(region, ttl, st, q) == []
    ensures r.result == Connected <==>
            r.lists != [] && (HasSuccess(r.lists[0], q.first)
                              || (CachedList(st.cache, q.proto, q.at, ttl) != []
                                  && HasSuccess(FoundList(region, q), q.second)))
    ensures r.lists != [] ==> multiset(r.lists[0]) == multiset(StartList(region, ttl, st, q))
  {
    hide TriedThrough, HasSuccess, InOrder, Fetched, CachedList, NotedAll;
    NoSuccess(q.second);
    if r.lists != [] {
      TriedFinds(r.lists[0], q.first, r.first, r.result == Connected && |r.lists| == 1);
      if |r.lists| == 2 {
        TriedFinds(r.lists[1], q.second, r.second, r.result == Connected);
      }
    }
  }

  /** The discovery, the network and the order of the first list decide everything else. */
  lemma CallIsDetermined(region: string, ttl: int, st: State, q: Call, r: Report, after: State,
                         r': Report, after': State)
    requires Carries(region, ttl, st, q, r, after) && Carries(region, ttl, st, q, r', after')
    requires |StartList(region, ttl, st, q)| <= BLOCK_SIZE || r.lists == [] || r'.lists == []
             || r.lists[0] == r'.lists[0]
    ensures r == r' && after == after'
  {
    hide TriedThrough, HasSuccess, Fetched, CachedList, NotedAll, Arranged;
    if q.proto != "" && StartList(region, ttl, st, q) != [] {
      TriedIsDetermined(r.lists[0], q.first, r.first, r.result == Connected && |r.lists| == 1,
                        r'.first, r'.result == Connected && |r'.lists| == 1);
      if |r.lists| == 2 {
        TriedIsDetermined(r.lists[1], q.second, r.second, r.result == Connected, r'.second, r'.result == Connected);
      }
    }
  }

  /** Only a fetched list that is not empty replaces the cache entry. */
  function CacheAfterFetch(cache: map<string, CacheEntry>, proto: string, f: Option<seq<Provider>>, now: int):
    map<string, CacheEntry>
  {
    if f.Some? && f.value != [] then cache[proto := CacheEntry(f.value, now)] else cache
  }

  /** What a fetch returns for given answers of the discovery. */
  function Fetched(region: string, l: Lookup): Option<seq<Provider>> {
    if region != "" && l.region == None then None else
    var inRegion := if region != "" then l.region.value else [];
    if inRegion != [] then Some(inRegion)
    else if l.plain == None then None
    else if l.plain.value != [] then l.plain
    else Some(l.connected)
  }

  // ---------------------------------------------------------------- whole runs

  datatype Fetch = Fetch(proto: string, list: Option<seq<Provider>>, at: int)

  /** The cache that a history of fetches leaves. */
  function CacheOf(fs: seq<Fetch>): map<string, CacheEntry> {
    if fs == [] then map[] else
    var f := fs[|fs| - 1];
    CacheAfterFetch(CacheOf(fs[..|fs| - 1]), f.proto, f.list, f.at)
  }

  /** Fetch `h` is the last one for `proto` that found providers. */
  ghost predicate LatestFetch(fs: seq<Fetch>, proto: string, h: nat) {
    && h < |fs| && Finds(fs[h], proto)
    && forall j | h < j < |fs| :: !Finds(fs[j], proto)
  }

  predicate Finds(f: Fetch, proto: string) {
    f.proto == proto && f.list.Some? && f.list.value != []
  }

  /** A cache entry is the last fetch for its protocol that found providers, with the time of that fetch. */
  lemma {:induction false} CacheIsLatest(fs: seq<Fetch>, proto: string) returns (h: nat)
    requires proto in CacheOf(fs)
    ensures LatestFetch(fs, proto, h) && CacheOf(fs)[proto] == CacheEntry(fs[h].list.value, fs[h].at)
  {
    var n := |fs| - 1;
    if Finds(fs[n], proto) {
      h := n;
    } else {
      h := CacheIsLatest(fs[..n], proto);
      assert forall j | h < j < n :: fs[..n][j] == fs[j];
    }
  }

  /** Each call starts from the state that the one before left. */
  ghost predicate Runs(region: string, ttl: int, calls: seq<Call>, rs: seq<Report>, sts: seq<State>) {
    && |rs| == |sts| == |calls|
    && (calls != [] ==>
          var n := |calls| - 1;
          && Runs(region, ttl, calls[..n], rs[..n], sts[..n])
          && Carries(region, ttl, StateAt(sts, n), calls[n], rs[n], sts[n]))
  }

  /** The state before call `i`. */
  function StateAt(sts: seq<State>, i: nat): State
    requires i <= |sts|
  {
    if i == 0 then State(map[], map[]) else sts[i - 1]
  }

  /** The fetches that the reports tell of. */
  function FetchesOf(region: string, calls: seq<Call>, rs: seq<Report>): seq<Fetch>
    requires |rs| == |calls|
  {
    if calls == [] then [] else
    var n := |calls| - 1;
    var q := calls[n];
    FetchesOf(region, calls[..n], rs[..n])
    + (if rs[n].fetches == 0 then [] else [Fetch(q.proto, Fetched(region, q.lookup), q.at)])
  }

  function AllTried(rs: seq<Report>): seq<Tried> {
    if rs == [] then [] else AllTried(rs[..|rs| - 1]) + (rs[|rs| - 1].first + rs[|rs| - 1].second)
  }

  /**
   * Over any run of calls: at most one fetch each, a cache that holds exactly what the fetches left, and statistics
   * that count exactly the failed attempts of each peer.
   */
  lemma {:induction false} RunAccounts(region: string, ttl: int, calls: seq<Call>, rs: seq<Report>, sts: seq<State>)
    requires Runs(region, ttl, calls, rs, sts)
    ensures var fs, st := FetchesOf(region, calls, rs), StateAt(sts, |sts|);
            && |fs| <= |calls| && st.cache == CacheOf(fs)
            && Counted(map[], st.stats, AllTried(rs))
    decreases |calls|
  {
    hide Carries, Counted, CacheAfterFetch, Fetched, NotedAll;
    if calls == [] {
      NotedCounts(map[], [], 0);
      NotedNothing(map[], 0);
    } else {
      var n := |calls| - 1;
      var q, r, st := calls[n], rs[n], StateAt(sts, n);
      RunAccounts(region, ttl, calls[..n], rs[..n], sts[..n]);
      assert StateAt(sts[..n], n) == st;
      AfterCall(region, ttl, st, q, r, sts[n]);
      NotedCounts(st.stats, r.first + r.second, q.at);
      CountedAppend(map[], st.stats, sts[n].stats, AllTried(rs[..n]), r.first + r.second);
      var fs := FetchesOf(region, calls[..n], rs[..n]);
      if r.fetches != 0 {
        assert (fs + [Fetch(q.proto, Fetched(region, q.lookup), q.at)])[..|fs|] == fs;
      } else {
        assert fs + [] == fs;
      }
    }
  }

  lemma NotedNothing(stats: StatsMap, now: int)
    ensures NotedAll(stats, [], now) == stats
  {
  }

  lemma AfterCall(region: string, ttl: int, st: State, q: Call, r: Report, after: State)
    requires Carries(region, ttl, st, q, r, after)
    ensures after.stats == NotedAll(st.stats, r.first + r.second, q.at)
    ensures after.cache == if r.fetches == 0 then st.cache
                           else CacheAfterFetch(st.cache, q.proto, Fetched(region, q.lookup), q.at)
  {
  }

  lemma CountedAppend(a: StatsMap, b: StatsMap, c: StatsMap, xs: seq<Tried>, ys: seq<Tried>)
    requires Counted(a, b, xs) && Counted(b, c, ys)
    ensures Counted(a, c, xs + ys)
  {
    forall id
      ensures FailuresOf(c, id) == FailuresOf(a, id) + FailedAttempts(xs + ys, id)
    {
      FailedAttemptsAppend(xs, ys, id);
    }
  }

  /** Any run of calls, with one report for each: every call does what Carries says. */
  method Life(maxAge: int, region: string, calls: seq<Call>) returns (rs: seq<Report>, sts: seq<State>)
    ensures Runs(region, if maxAge <= 0 then DEFAULT_TTL else maxAge, calls, rs, sts)
  {
    hide Carries;
    var c := new Client(maxAge, region);
    rs, sts := [], [];
    for i := 0 to |calls|
      invariant fresh(c) && c.region == region && c.maxAge == maxAge
      invariant |rs| == |sts| == i && c.Now() == StateAt(sts, i)
      invariant Runs(region, c.Ttl(), calls[..i], rs, sts)
    {
      var r := c.DialTCPViaProtocol(calls[i]);
      ghost var rs0, sts0 := rs, sts;
      rs, sts := rs + [r], sts + [State(c.providerCache, c.peerStats)];
      assert calls[..i + 1][..i] == calls[..i] && rs[..i] == rs0 && sts[..i] == sts0;
    }
    assert calls[..|calls|] == calls;
  }
}
