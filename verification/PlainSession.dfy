/**
 * obfsSession (pkg/protoadapters/plain/plain.go): frames [userLen][padLen][user bytes][padding]; frames without user
 * bytes are cover traffic that the reader skips.
 */
module PlainSession {
  import opened Bytes
  import opened Framing
  import opened Pipes

  const MAX_USER := 0xFFFF
  const HEADER := 4
  const MILLISECOND := 1_000_000

  // ---------------------------------------------------------------- settings

  datatype RawValue = Flag(on: bool) | Number(n: int) | Other

  /** Durations in nanoseconds. */
  datatype Settings = Settings(enabled: bool, maxPadding: int, maxJitter: int, dummyMin: int, dummyMax: int)

  const DISABLED := Settings(false, 0, 0, 0, 0)

  function PositiveOr(raw: map<string, RawValue>, key: string, default: int): (n: int)
    ensures key in raw && raw[key].Number? && raw[key].n > 0 ==> n == raw[key].n
    ensures !(key in raw && raw[key].Number? && raw[key].n > 0) ==> n == default
  {
    if key in raw && raw[key].Number? && raw[key].n > 0 then raw[key].n else default
  }

  /** parseObfsSettings; an absent configuration is an empty map. */
  function ParseSettings(raw: map<string, RawValue>): (s: Settings)
    ensures s.enabled <==> raw == map[] || "obfs_enabled" !in raw || raw["obfs_enabled"] != Flag(false)
    ensures s.enabled ==> s.maxPadding > 0 && s.maxJitter > 0
    ensures s.enabled ==> s.maxPadding == PositiveOr(raw, "obfs_padding_max_bytes", 64)
    ensures s.enabled ==> s.maxJitter == PositiveOr(raw, "obfs_jitter_max_ms", 10) * MILLISECOND
    ensures s.enabled && s.dummyMax != 0 ==> s.dummyMax == PositiveOr(raw, "obfs_dummy_max_ms", 1500) * MILLISECOND
    ensures 0 <= s.dummyMin <= s.dummyMax
    ensures !s.enabled ==> s == Settings(false, 0, 0, 0, 0)
    ensures s.enabled && s.dummyMax != 0 ==>
              var lo, hi := PositiveOr(raw, "obfs_dummy_min_ms", 0), PositiveOr(raw, "obfs_dummy_max_ms", 0);
              s.dummyMin == if hi == 0 then 500_000_000 else if 0 < lo <= hi then lo * 1_000_000 else hi * 1_000_000 / 2
    ensures s.enabled ==> (s.dummyMax == 0 <==>
              raw != map[] && "obfs_dummy_max_ms" in raw && raw["obfs_dummy_max_ms"].Number?
              && raw["obfs_dummy_max_ms"].n <= 0)
  {
    var defaults := Settings(true, 64, 10 * MILLISECOND, 500 * MILLISECOND, 1500 * MILLISECOND);
    if raw == map[] then defaults
    else if "obfs_enabled" in raw && raw["obfs_enabled"] == Flag(false) then DISABLED
    else
      var s := defaults.(maxPadding := PositiveOr(raw, "obfs_padding_max_bytes", 64),
                         maxJitter := PositiveOr(raw, "obfs_jitter_max_ms", 10) * MILLISECOND);
      var minDummy := PositiveOr(raw, "obfs_dummy_min_ms", 0) * MILLISECOND;
      var maxDummy := PositiveOr(raw, "obfs_dummy_max_ms", 0) * MILLISECOND;
      var off := "obfs_dummy_max_ms" in raw && raw["obfs_dummy_max_ms"].Number? && raw["obfs_dummy_max_ms"].n <= 0;
      if off then s.(dummyMin := 0, dummyMax := 0)
      else if maxDummy > 0 then
        s.(dummyMin := if minDummy <= 0 || minDummy > maxDummy then maxDummy / 2 else minDummy, dummyMax := maxDummy)
      else s
  }

  // ---------------------------------------------------------------- frames

  /** The bytes of a user write that are accepted. */
  function Accepted(p: Data): Data {
    p[..Min(|p|, MAX_USER)]
  }

  /** The frame of one user write; a dummy frame has an empty `p`. */
  function ObfsFrame(p: Data, pad: Data): Data {
    PutU16(|Accepted(p)|) + PutU16(|pad|) + Accepted(p) + pad
  }

  function ObfsParse(w: Data): Parse {
    if |w| < HEADER then Short else
    var n, k := U16(w[..2]), U16(w[2..4]);
    if |w| < HEADER + n + k then Short else Frame(w[HEADER..HEADER + n], w[HEADER + n + k..])
  }

  ghost predicate UserPad(maxPadding: int, k: nat) {
    if maxPadding > 0 then k <= Min(maxPadding, MAX_USER) else k == 0
  }

  ghost predicate DummyPad(maxPadding: int, k: nat) {
    if maxPadding > 0 then 1 <= k <= Min(maxPadding, MAX_USER) else k == 1
  }

  lemma ObfsParseIncremental()
    ensures Incremental(ObfsParse) && ObfsParse([]) == Short
  {
    forall w, x | ObfsParse(w).Frame?
      ensures ObfsParse(w + x) == Frame(ObfsParse(w).payload, ObfsParse(w).rest + x)
    {
      var n := U16(w[..2]);
      assert (w + x)[..2] == w[..2] && (w + x)[2..4] == w[2..4];
      assert (w + x)[HEADER..HEADER + n] == w[HEADER..HEADER + n];
    }
  }

  lemma ObfsParseFrame(p: Data, pad: Data)
    requires |pad| <= MAX_USER
    ensures ObfsParse(ObfsFrame(p, pad)) == Frame(Accepted(p), [])
  {
    var w, n := ObfsFrame(p, pad), |Accepted(p)|;
    assert w[..2] == PutU16(n) && w[2..4] == PutU16(|pad|);
    assert w[HEADER..HEADER + n] == Accepted(p);
  }

  // ---------------------------------------------------------------- whole runs

  datatype Step = Write(p: Data, pad: Data) | Dummy(pad: Data) | Read(cap: nat) | CloseWriter | CloseReader

  /** One direction between two sessions: what was accepted, what was read, and whether each end is closed. */
  datatype Link = Link(reader: Reader, writerClosed: bool, readerClosed: bool, sent: Data, got: Data)

  function LinkStep(l: Link, s: Step): Link {
    match s
    case Write(p, pad) =>
      if l.writerClosed then l else
      l.(reader := Reader(l.reader.buf, l.reader.wire + ObfsFrame(p, pad)), sent := l.sent + Accepted(p))
    case Dummy(pad) =>
      if l.writerClosed then l else
      l.(reader := Reader(l.reader.buf, l.reader.wire + ObfsFrame([], pad)))
    case Read(cap) =>
      if l.readerClosed then l else
      var r := PullSkip(ObfsParse, l.reader, cap);
      l.(reader := r.st, got := l.got + r.out)
    case CloseWriter => l.(writerClosed := true)
    case CloseReader => l.(readerClosed := true)
  }

  function LinkRun(steps: seq<Step>): Link {
    if steps == [] then Link(Reader([], []), false, false, [], [])
    else LinkStep(LinkRun(steps[..|steps| - 1]), steps[|steps| - 1])
  }

  ghost predicate Legal(maxPadding: int, s: Step) {
    && (s.Write? ==> UserPad(maxPadding, |s.pad|))
    && (s.Dummy? ==> DummyPad(maxPadding, |s.pad|))
  }

  ghost predicate Sound(l: Link) {
    Whole(ObfsParse, l.reader) && l.got + Owed(ObfsParse, l.reader) == l.sent
  }

  /** Appending one frame to a link owes the reader exactly the accepted bytes, none for a dummy. */
  lemma AppendFrame(r: Reader, p: Data, pad: Data)
    requires Whole(ObfsParse, r) && |pad| <= MAX_USER
    ensures var r' := Reader(r.buf, r.wire + ObfsFrame(p, pad));
            && Whole(ObfsParse, r') && Owed(ObfsParse, r') == Owed(ObfsParse, r) + Accepted(p)
            && Accepted(p) == p[..Min(|p|, 65535)]
            && ObfsFrame(p, pad) == PutU16(|Accepted(p)|) + PutU16(|pad|) + Accepted(p) + pad
  {
    ObfsParseIncremental();
    ObfsParseFrame(p, pad);
    hide ObfsParse, ObfsFrame, Payload;
    WriteFrame(ObfsParse, r.wire, ObfsFrame(p, pad), Accepted(p));
    Regroup(r.buf, Payload(ObfsParse, r.wire), Accepted(p));
  }

  lemma SoundStep(maxPadding: int, l: Link, s: Step)
    requires Sound(l) && Legal(maxPadding, s)
    ensures Sound(LinkStep(l, s))
    ensures s.Read? && s.cap > 0 && !l.readerClosed && l.got != l.sent ==> |LinkStep(l, s).got| > |l.got|
  {
    ObfsParseIncremental();
    match s
    case Write(p, pad) =>
      AppendFrame(l.reader, p, pad);
      hide ObfsParse, ObfsFrame, Owed, Whole;
      Regroup(l.got, Owed(ObfsParse, l.reader), Accepted(p));
    case Dummy(pad) =>
      AppendFrame(l.reader, [], pad);
      hide ObfsParse, ObfsFrame, Owed, Whole;
    case Read(cap) =>
      PullSkipSound(ObfsParse, l.reader, cap);
      hide ObfsParse, PullSkip, Owed, Whole;
      var r := PullSkip(ObfsParse, l.reader, cap);
      Regroup(l.got, r.out, Owed(ObfsParse, r.st));
    case CloseWriter =>
    case CloseReader =>
  }

  /** A closed writer puts nothing on the wire, and a closed reader takes nothing off it; both stay closed. */
  lemma ClosedIsSilent(l: Link, s: Step)
    ensures LinkStep(l, CloseWriter).writerClosed && LinkStep(l, CloseReader).readerClosed
    ensures l.writerClosed ==>
              && LinkStep(l, s).sent == l.sent && LinkStep(l, s).writerClosed
              && (s.Write? || s.Dummy? ==> LinkStep(l, s) == l)
    ensures l.readerClosed ==>
              LinkStep(l, s).got == l.got && LinkStep(l, s).readerClosed && (s.Read? ==> LinkStep(l, s) == l)
    ensures !l.writerClosed && s.Write? ==>
              LinkStep(l, s).sent == l.sent + s.p[..Min(|s.p|, 65535)]
              && LinkStep(l, s).reader.wire == l.reader.wire + ObfsFrame(s.p, s.pad)
  {
  }

  /**
   * In every interleaving of writes, dummy frames, reads and closes: bytes read, then bytes pending, then user bytes
   * on the wire are the accepted bytes in order.
   */
  lemma {:induction false} RunSound(maxPadding: int, steps: seq<Step>)
    requires forall i | 0 <= i < |steps| :: Legal(maxPadding, steps[i])
    ensures Sound(LinkRun(steps))
  {
    if steps == [] {
      ObfsParseIncremental();
    } else {
      RunSound(maxPadding, steps[..|steps| - 1]);
      SoundStep(maxPadding, LinkRun(steps[..|steps| - 1]), steps[|steps| - 1]);
    }
  }

  /**
   * A run whose wire is then cut short anywhere: further reads deliver, after what was read before, a prefix of the
   * accepted bytes, and report an error only once every complete frame has been delivered. The error does come: any
   * reads with room, one more than there are bytes left, end with it.
   */
  lemma TruncatedRun(maxPadding: int, steps: seq<Step>, cut: nat, caps: seq<nat>)
    requires forall i | 0 <= i < |steps| :: Legal(maxPadding, steps[i])
    requires cut <= |LinkRun(steps).reader.wire|
    ensures var l := LinkRun(steps);
            var r := Reader(l.reader.buf, l.reader.wire[..cut]);
            var (more, failed) := ReadOn(ObfsParse, r, caps);
            && l.got + more <= l.sent && (failed ==> more == Owed(ObfsParse, r))
            && ((forall i | 0 <= i < |caps| :: caps[i] > 0) && |caps| > |Owed(ObfsParse, r)| ==> failed)
  {
    var l := LinkRun(steps);
    var r := Reader(l.reader.buf, l.reader.wire[..cut]);
    RunSound(maxPadding, steps);
    ObfsParseIncremental();
    TruncationIsPrefix(ObfsParse, l.reader.wire, cut);
    ReadOnSound(ObfsParse, r, caps);
    hide ObfsParse, LinkRun, ReadOn, Payload;
    var more := ReadOn(ObfsParse, r, caps).0;
    PrefixTail(more, Owed(ObfsParse, r), Owed(ObfsParse, l.reader));
    assert l.sent[..|l.got + more|] == l.got + more;
  }

  lemma PrefixTail(a: Data, b: Data, c: Data)
    requires a <= b <= c
    ensures a <= c
  {
  }

  // ---------------------------------------------------------------- the session object

  class ObfsSession {
    const rd: Pipe
    const wr: Pipe
    const settings: Settings
    var closed: bool
    var pending: Data
    /** How often the connection below has been closed. */
    var baseCloses: nat

    ghost predicate Valid()
      reads this
    {
      baseCloses == if closed then 1 else 0
    }

    ghost function State(): Reader
      reads this, rd
    {
      Reader(pending, rd.data)
    }

    constructor (rd: Pipe, wr: Pipe, s: Settings)
      ensures this.rd == rd && this.wr == wr && settings == s && !closed && pending == [] && Valid()
    {
      this.rd, this.wr, settings, closed, pending, baseCloses := rd, wr, s, false, [], 0;
    }

    /** However often it is called, the connection below is closed once. */
    method Close()
      requires Valid()
      modifies this
      ensures Valid() && closed && pending == old(pending)
    {
      if closed {
        return;
      }
      closed := true;
      baseCloses := baseCloses + 1;
    }

    static method Noise(k: nat) returns (pad: Data)
      ensures |pad| == k
    {
      var buf := new Byte[k];
      for i := 0 to k {
        var r: int := *;
        buf[i] := if 0 <= r < 256 then r else 0;
      }
      pad := buf[..];
    }

    /** `ok` is false for io.ErrClosedPipe. */
    method Write(data: Data) returns (n: nat, ok: bool, pad: Data)
      modifies wr
      ensures ok == !closed && UserPad(settings.maxPadding, |pad|)
      ensures n == (if ok then |Accepted(data)| else 0)
      ensures wr.data == old(wr.data) + (if ok then ObfsFrame(data, pad) else [])
    {
      if closed {
        pad := Noise(0);
        return 0, false, pad;
      }
      var p, userLen := data, |data|;
      if userLen > MAX_USER {
        userLen := MAX_USER;
        p := p[..userLen];
      }
      var padLen := 0;
      if settings.maxPadding > 0 {
        padLen := *;
        if padLen < 0 || padLen > settings.maxPadding {
          padLen := 0;
        }
        if padLen > MAX_USER {
          padLen := MAX_USER;
        }
      }
      pad := Noise(padLen);
      assert p[..userLen] == Accepted(data);
      var frame := PutU16(userLen) + PutU16(padLen) + p[..userLen] + pad;
      wr.Write(frame);
      n, ok := userLen, true;
    }

    /** One turn of runDummy; a closed session sends nothing more. */
    method Dummy() returns (running: bool, pad: Data)
      modifies wr
      ensures running == !closed
      ensures running ==> DummyPad(settings.maxPadding, |pad|)
      ensures wr.data == old(wr.data) + (if running then ObfsFrame([], pad) else [])
    {
      if closed {
        return false, [];
      }
      var padLen := 1;
      if settings.maxPadding > 0 {
        var draw: int := *;
        padLen := 1 + if 0 <= draw < settings.maxPadding then draw else 0;
        if padLen > MAX_USER {
          padLen := MAX_USER;
        }
      }
      pad := Noise(padLen);
      assert Accepted([]) == [];
      wr.Write(PutU16(0) + PutU16(padLen) + pad);
      assert PutU16(0) + PutU16(padLen) + pad == ObfsFrame([], pad);
      running := true;
    }

    /** Skips frames until one with user bytes; the remaining wire shrinks with every turn. */
    method Read(cap: nat) returns (out: Data, ok: bool)
      modifies this`pending, rd
      ensures closed ==> !ok && out == [] && State() == old(State())
      ensures !closed ==> Result(State(), out, ok) == PullSkip(ObfsParse, old(State()), cap)
    {
      if closed {
        return [], false;
      }
      if |pending| > 0 {
        var n := Min(cap, |pending|);
        out, ok := pending[..n], true;
        pending := pending[n..];
        return;
      }
      hide ObfsParse;
      ghost var all := PullSkip(ObfsParse, State(), cap);
      while true
        invariant pending == [] && !closed && all == PullSkip(ObfsParse, State(), cap)
        decreases |rd.data|
      {
        var user, full := ReadFrame();
        if !full {
          return [], false;
        }
        if user == [] {
          continue;
        }
        if |user| <= cap {
          assert user[..|user|] == user && user[|user|..] == pending;
          return user, true;
        }
        out, ok := user[..cap], true;
        pending := pending + user[cap..];
        assert pending == user[cap..];
        return;
      }
    }

    /** The user part of the next frame; a wire that ends inside the frame is used up. */
    method ReadFrame() returns (user: Data, ok: bool)
      modifies rd
      ensures match ObfsParse(old(rd.data))
              case Short => !ok && rd.data == []
              case Frame(p, rest) => ok && user == p && rd.data == rest && |rest| < |old(rd.data)|
    {
      ghost var w := rd.data;
      var header;
      header, ok := rd.ReadFull(HEADER);
      if !ok {
        return [], false;
      }
      var userLen, padLen := U16(header[..2]), U16(header[2..4]);
      assert header[..2] == w[..2] && header[2..4] == w[2..4];
      var total := userLen + padLen;
      if total == 0 {
        assert w[HEADER..HEADER] == [];
        return [], true;
      }
      var buf;
      buf, ok := rd.ReadFull(total);
      if !ok {
        return [], false;
      }
      assert buf[..userLen] == w[HEADER..HEADER + userLen] && rd.data == w[HEADER + total..];
      user := buf[..userLen];
    }
  }
}
