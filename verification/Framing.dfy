/**
 * What every length-prefixed layer shares: a parser that cuts one frame off the front of a
 * wire, the frames a wire holds, and the incomplete tail behind them.
 */
module Framing {
  import opened Bytes

  datatype Parse = Short | Frame(payload: Data, rest: Data)
  type Parser = Data -> Parse

  /** A complete frame is strictly shorter than the wire it came from, and bytes arriving later do not change it. */
  ghost predicate Incremental(f: Parser) {
    && (forall w :: f(w).Frame? ==> |f(w).rest| < |w|)
    && (forall w, x :: f(w).Frame? ==> f(w + x) == Frame(f(w).payload, f(w).rest + x))
  }

  ghost function Frames(f: Parser, w: Data): seq<Data>
    decreases |w|
  {
    match f(w)
    case Short => []
    case Frame(p, r) => if |r| < |w| then [p] + Frames(f, r) else []
  }

  /** The bytes after the last complete frame. */
  ghost function Tail(f: Parser, w: Data): Data
    decreases |w|
  {
    match f(w)
    case Short => w
    case Frame(_, r) => if |r| < |w| then Tail(f, r) else w
  }

  /** The user bytes a reader gets from `w`. */
  ghost function Payload(f: Parser, w: Data): Data {
    Concat(Frames(f, w))
  }

  /** Appending to a wire only adds to what its tail becomes: the frames already complete stay. */
  lemma {:induction false} FramesAppend(f: Parser, w: Data, x: Data)
    requires Incremental(f)
    ensures Frames(f, w + x) == Frames(f, w) + Frames(f, Tail(f, w) + x)
    ensures Tail(f, w + x) == Tail(f, Tail(f, w) + x)
    decreases |w|
  {
    match f(w)
    case Short =>
    case Frame(p, r) =>
      FramesAppend(f, r, x);
      assert f(w + x) == Frame(p, r + x);
  }

  /** A whole frame `fr` written behind a wire without tail adds exactly its payload. */
  lemma WriteFrame(f: Parser, w: Data, fr: Data, p: Data)
    requires Incremental(f) && Tail(f, w) == [] && f([]).Short?
    requires f(fr) == Frame(p, [])
    ensures Frames(f, w + fr) == Frames(f, w) + [p]
    ensures Payload(f, w + fr) == Payload(f, w) + p
    ensures Tail(f, w + fr) == []
  {
    FramesAppend(f, w, fr);
    assert Tail(f, w) + fr == fr;
    assert Frames(f, fr) == [p] + Frames(f, []);
    ConcatAppend(Frames(f, w), [p]);
    assert Concat([p]) == p;
  }

  /** However a wire is cut short, what can be read from it is a prefix of what was sent. */
  lemma TruncationIsPrefix(f: Parser, w: Data, cut: nat)
    requires Incremental(f) && cut <= |w|
    ensures Frames(f, w[..cut]) <= Frames(f, w)
    ensures Payload(f, w[..cut]) <= Payload(f, w)
  {
    assert w == w[..cut] + w[cut..];
    FramesAppend(f, w[..cut], w[cut..]);
    ConcatAppend(Frames(f, w[..cut]), Frames(f, Tail(f, w[..cut]) + w[cut..]));
  }

  /** Taking the first frame off a wire. */
  lemma FirstFrame(f: Parser, w: Data)
    requires f(w).Frame? ==> |f(w).rest| < |w|
    ensures f(w).Frame? ==>
              && Frames(f, w) == [f(w).payload] + Frames(f, f(w).rest)
              && Payload(f, w) == f(w).payload + Payload(f, f(w).rest)
              && Tail(f, w) == Tail(f, f(w).rest)
    ensures f(w).Short? ==> Frames(f, w) == [] && Payload(f, w) == [] && Tail(f, w) == w
  {
  }

  // ---------------------------------------------------------------- an ideal reader

  /** A carry-over buffer in front of a wire. */
  datatype Reader = Reader(buf: Data, wire: Data)
  datatype ReadResult<+S> = Result(st: S, out: Data, ok: bool)

  /** What the reader is still owed. */
  ghost function Owed(f: Parser, r: Reader): Data {
    r.buf + Payload(f, r.wire)
  }

  /** The wire ends with a complete frame. */
  ghost predicate Whole(f: Parser, r: Reader) {
    Tail(f, r.wire) == []
  }

  /** One read of at most `cap` bytes: from the buffer, or else from the next frame. */
  function Pull(f: Parser, r: Reader, cap: nat): ReadResult<Reader> {
    if r.buf != [] then
      var n := Min(cap, |r.buf|);
      Result(r.(buf := r.buf[n..]), r.buf[..n], true)
    else
      match f(r.wire)
      case Short => Result(Reader([], []), [], false)
      case Frame(p, rest) =>
        var n := Min(cap, |p|);
        Result(Reader(p[n..], rest), p[..n], true)
  }

  /** The same, but frames without user bytes are skipped. */
  function PullSkip(f: Parser, r: Reader, cap: nat): ReadResult<Reader>
    decreases |r.wire|
  {
    var p := f(r.wire);
    if r.buf == [] && p.Frame? && p.payload == [] && |p.rest| < |r.wire| then
      PullSkip(f, Reader([], p.rest), cap)
    else
      Pull(f, r, cap)
  }

  /** io.ReadFull over Pull. */
  function PullFull(f: Parser, r: Reader, k: nat): ReadResult<Reader>
    decreases |r.wire|, |r.buf|
  {
    if k == 0 then Result(r, [], true) else
    var a := Pull(f, r, k);
    if !a.ok || (r.buf == [] && |a.st.wire| >= |r.wire|) then
      a.(ok := false)
    else
      Prepend(a.out, PullFull(f, a.st, k - |a.out|))
  }

  function Prepend<S>(out: Data, r: ReadResult<S>): ReadResult<S> {
    r.(out := out + r.out)
  }

  /**
   * A read never loses, repeats or invents a byte, fails exactly when no frame is left, and is short only where a frame
   * ends.
   */
  lemma PullSound(f: Parser, r: Reader, cap: nat)
    requires Incremental(f) && Whole(f, r)
    ensures var a := Pull(f, r, cap);
            && Whole(f, a.st) && |a.out| <= cap
            && a.out + Owed(f, a.st) == Owed(f, r)
            && (a.ok ==> |a.out| == cap || a.st.buf == [])
            && (a.ok <==> r != Reader([], []))
            && (!a.ok ==> a.st == r)
  {
    var a := Pull(f, r, cap);
    FirstFrame(f, r.wire);
    Regroup(a.out, a.st.buf, Payload(f, a.st.wire));
    if r.buf != [] {
      assert a.out + a.st.buf == r.buf;
    } else if f(r.wire).Frame? {
      assert a.out + a.st.buf == f(r.wire).payload;
    }
  }

  /**
   * Skipping empty frames, a read with room returns user bytes unless no complete frame holds any. Unlike PullSound
   * this is said of every wire, cut off anywhere.
   */
  lemma {:induction false} PullSkipSound(f: Parser, r: Reader, cap: nat)
    requires Incremental(f)
    ensures var a := PullSkip(f, r, cap);
            && (Whole(f, r) ==> Whole(f, a.st)) && |a.out| <= cap
            && a.out + Owed(f, a.st) == Owed(f, r)
            && (a.ok <==> Owed(f, r) != [])
            && (a.ok && cap > 0 ==> a.out != [])
            && (a.ok ==> |a.out| == cap || a.st.buf == [])
            && (!a.ok ==> a.st == Reader([], []) && a.out == [])
    decreases |r.wire|
  {
    FirstFrame(f, r.wire);
    var p, a := f(r.wire), Pull(f, r, cap);
    if r.buf != [] {
      assert a.out + a.st.buf == r.buf;
      Regroup(a.out, a.st.buf, Payload(f, a.st.wire));
    } else if p.Frame? && p.payload == [] {
      PullSkipSound(f, Reader([], p.rest), cap);
    } else if p.Frame? {
      assert a.out + a.st.buf == p.payload;
      Regroup(a.out, a.st.buf, Payload(f, a.st.wire));
    }
  }

  /** Reading again and again until the first error: the bytes got, and whether an error was met. */
  function ReadOn(f: Parser, r: Reader, caps: seq<nat>): (Data, bool)
    decreases |caps|
  {
    if caps == [] then ([], false) else
    var a := PullSkip(f, r, caps[0]);
    if !a.ok then ([], true) else
    var (more, failed) := ReadOn(f, a.st, caps[1..]);
    (a.out + more, failed)
  }

  /**
   * Successive reads deliver the owed bytes in order; an error comes only when all of them were delivered, and with
   * one read with room more than there are bytes it does come.
   */
  lemma {:induction false} ReadOnSound(f: Parser, r: Reader, caps: seq<nat>)
    requires Incremental(f)
    ensures var (got, failed) := ReadOn(f, r, caps);
            && got <= Owed(f, r) && (failed ==> got == Owed(f, r))
            && ((forall i | 0 <= i < |caps| :: caps[i] > 0) && |caps| > |Owed(f, r)| ==> failed)
    decreases |caps|
  {
    if caps != [] {
      var a := PullSkip(f, r, caps[0]);
      PullSkipSound(f, r, caps[0]);
      hide PullSkip, Owed;
      if a.ok {
        ReadOnSound(f, a.st, caps[1..]);
        var got := ReadOn(f, a.st, caps[1..]).0;
        assert Owed(f, a.st) == got + Owed(f, a.st)[|got|..];
        Regroup(a.out, got, Owed(f, a.st)[|got|..]);
      }
    }
  }

  lemma PullShrinks(f: Parser, r: Reader, cap: nat)
    requires Incremental(f) && cap > 0
    ensures var a := Pull(f, r, cap);
            a.ok ==> |a.st.wire| < |r.wire| || (r.buf != [] && a.st.wire == r.wire && |a.st.buf| < |r.buf|)
  {
  }

  /** ReadFull delivers the next `k` bytes owed, across any number of frames, or fails if there are fewer. */
  lemma {:induction false} PullFullSound(f: Parser, r: Reader, k: nat)
    requires Incremental(f) && Whole(f, r)
    ensures var a := PullFull(f, r, k);
            && Whole(f, a.st)
            && a.out + Owed(f, a.st) == Owed(f, r)
            && (a.ok <==> |Owed(f, r)| >= k)
            && (a.ok ==> |a.out| == k)
            && (!a.ok ==> a.st == Reader([], []))
    decreases |r.wire|, |r.buf|
  {
    if k > 0 {
      var a := Pull(f, r, k);
      PullSound(f, r, k);
      PullShrinks(f, r, k);
      hide Pull, Payload, Tail;
      if a.ok {
        var b := PullFull(f, a.st, k - |a.out|);
        PullFullSound(f, a.st, k - |a.out|);
        Regroup(a.out, b.out, Owed(f, b.st));
      }
    }
  }

  /** Every frame on the wire carries user bytes. */
  ghost predicate NonEmpty(f: Parser, r: Reader) {
    forall i | 0 <= i < |Frames(f, r.wire)| :: Frames(f, r.wire)[i] != []
  }

  /** Without empty frames, every successful read with room returns bytes. */
  lemma PullProgress(f: Parser, r: Reader, cap: nat)
    requires Incremental(f) && NonEmpty(f, r)
    ensures var a := Pull(f, r, cap);
            NonEmpty(f, a.st) && (a.ok && cap > 0 ==> a.out != [])
  {
    FirstFrame(f, r.wire);
    if r.buf == [] && f(r.wire).Frame? {
      var fs, gs := Frames(f, r.wire), Frames(f, f(r.wire).rest);
      assert f(r.wire).payload == fs[0];
      forall i | 0 <= i < |gs|
        ensures gs[i] != []
      {
        assert gs[i] == fs[i + 1];
      }
    }
  }
}
