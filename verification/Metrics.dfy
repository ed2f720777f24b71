/**
 * The metrics store (hypernet/services/proxy/metrics/store.go): producers put operations on a bounded queue and one
 * writer applies them to the database in batches, each batch in one transaction.
 */
module Metrics {
  import opened Bytes

  const QUEUE_SIZE := 1024
  const BATCH_SIZE := 128

  // ---------------------------------------------------------------- the database

  /** A row of `sessions`; the columns that only EndSession and UpdateSession write start as NULL. */
  datatype Row = Row(info: string, start: int, end: Option<int>, up: Option<int>, down: Option<int>,
                     success: Option<bool>, error: Option<string>)

  datatype Entry = Quality(id: string, at: int, rtt: int, jitter: int, loss: real)
                 | Event(id: string, at: int, kind: string, details: string)

  datatype Db = Db(sessions: map<string, Row>, log: seq<Entry>)

  const EMPTY_DB := Db(map[], [])

  /** `info` stands for the descriptive text columns of SessionStart; Mark is the no-op that FlushNow sends. */
  datatype Op =
    | Start(id: string, info: string, at: int)
    | End(id: string, at: int, up: int, down: int, success: bool, error: string)
    | Update(id: string, up: int, down: int)
    | Record(entry: Entry)
    | Mark(ticket: nat)

  function Coalesce(x: Option<int>): int {
    if x.Some? then x.value else 0
  }

  /** One `apply`: INSERT .. ON CONFLICT DO NOTHING, or an UPDATE that does nothing to a missing row. */
  function Apply(db: Db, o: Op): Db {
    match o
    case Start(id, info, at) =>
      if id in db.sessions then db
      else db.(sessions := db.sessions[id := Row(info, at, None, None, None, None, None)])
    case End(id, at, up, down, success, error) =>
      if id !in db.sessions then db else
      var r := db.sessions[id];
      var r' := r.(end := Some(at), up := Some(up), down := Some(down), success := Some(success), error := Some(error));
      db.(sessions := db.sessions[id := r'])
    case Update(id, up, down) =>
      if id !in db.sessions then db else
      var r := db.sessions[id];
      db.(sessions := db.sessions[id := r.(up := Some(Coalesce(r.up) + up), down := Some(Coalesce(r.down) + down))])
    case Record(e) => db.(log := db.log + [e])
    case Mark(_) => db
  }

  function ApplyAll(db: Db, ops: seq<Op>): Db {
    if ops == [] then db else Apply(ApplyAll(db, ops[..|ops| - 1]), ops[|ops| - 1])
  }

  lemma {:induction false} ApplyAppend(db: Db, xs: seq<Op>, ys: seq<Op>)
    ensures ApplyAll(db, xs + ys) == ApplyAll(ApplyAll(db, xs), ys)
  {
    if ys == [] {
      assert xs + ys == xs;
    } else {
      ApplyAppend(db, xs, ys[..|ys| - 1]);
      assert (xs + ys)[..|xs + ys| - 1] == xs + ys[..|ys| - 1];
    }
  }

  // ---------------------------------------------------------------- each session on its own

  function Touches(o: Op, id: string): bool {
    match o
    case Start(i, _, _) => i == id
    case End(i, _, _, _, _, _) => i == id
    case Update(i, _, _) => i == id
    case Record(e) => e.id == id
    case Mark(_) => false
  }

  function Only(ops: seq<Op>, id: string): seq<Op> {
    if ops == [] then [] else
    var rest := Only(ops[..|ops| - 1], id);
    if Touches(ops[|ops| - 1], id) then rest + [ops[|ops| - 1]] else rest
  }

  function LogOf(log: seq<Entry>, id: string): seq<Entry> {
    if log == [] then [] else
    var rest := LogOf(log[..|log| - 1], id);
    if log[|log| - 1].id == id then rest + [log[|log| - 1]] else rest
  }

  /** All that the database says about one session. */
  function View(db: Db, id: string): (v: (Option<Row>, seq<Entry>))
    ensures v.0.Some? <==> id in db.sessions
    ensures v.0.Some? ==> v.0.value == db.sessions[id]
    ensures v.1 == LogOf(db.log, id)
  {
    (if id in db.sessions then Some(db.sessions[id]) else None, LogOf(db.log, id))
  }

  lemma ApplyView(db: Db, db': Db, o: Op, id: string)
    requires View(db, id) == View(db', id)
    ensures Touches(o, id) ==> View(Apply(db, o), id) == View(Apply(db', o), id)
    ensures !Touches(o, id) ==> View(Apply(db, o), id) == View(db, id)
  {
    hide LogOf;
    if o.Record? {
      LogOfMore(db.log, o.entry, id);
      LogOfMore(db'.log, o.entry, id);
    }
  }

  lemma LogOfMore(log: seq<Entry>, e: Entry, id: string)
    ensures LogOf(log + [e], id) == if e.id == id then LogOf(log, id) + [e] else LogOf(log, id)
  {
    assert (log + [e])[..|log|] == log;
  }

  /** The operations about a session: none of another one, and no mark. */
  lemma {:induction false} OnlyItsOwn(ops: seq<Op>, id: string)
    ensures forall o | o in Only(ops, id) ::
              match o
              case Record(e) => e.id == id
              case Mark(_) => false
              case _ => o.id == id
  {
    if ops != [] {
      OnlyItsOwn(ops[..|ops| - 1], id);
    }
  }

  /** The rows of a session depend only on the operations about that session. */
  lemma {:induction false} SessionsAreIndependent(db: Db, ops: seq<Op>, id: string)
    ensures View(ApplyAll(db, ops), id) == View(ApplyAll(db, Only(ops, id)), id)
  {
    if ops != [] {
      var n := |ops| - 1;
      SessionsAreIndependent(db, ops[..n], id);
      var only := Only(ops[..n], id);
      ApplyView(ApplyAll(db, ops[..n]), ApplyAll(db, only), ops[n], id);
      hide View, Touches;
      assert (only + [ops[n]])[..|only|] == only;
    }
  }

  // ---------------------------------------------------------------- what a session's row means

  /** A row exists exactly when the session was started. */
  lemma {:induction false} RowExistsExactly(ops: seq<Op>, id: string)
    ensures id in ApplyAll(EMPTY_DB, ops).sessions <==> exists i :: 0 <= i < |ops| && ops[i].Start? && ops[i].id == id
  {
    if ops != [] {
      RowExistsExactly(ops[..|ops| - 1], id);
    }
  }

  /** The samples and events among the operations. */
  function Recorded(ops: seq<Op>): seq<Entry> {
    if ops == [] then [] else
    Recorded(ops[..|ops| - 1]) + match ops[|ops| - 1] case Record(e) => [e] case _ => []
  }

  /** Every quality sample and event is stored, in the order of the operations, and nothing else is. */
  lemma {:induction false} LogIsRecorded(db: Db, ops: seq<Op>)
    ensures ApplyAll(db, ops).log == db.log + Recorded(ops)
  {
    if ops == [] {
      assert db.log + [] == db.log;
    } else {
      var n := |ops| - 1;
      LogIsRecorded(db, ops[..n]);
      assert ApplyAll(db, ops) == Apply(ApplyAll(db, ops[..n]), ops[n]);
      if ops[n].Record? {
        Regroup(db.log, Recorded(ops[..n]), [ops[n].entry]);
      } else {
        assert Recorded(ops[..n]) + [] == Recorded(ops[..n]);
      }
    }
  }

  /** The first start of a session decides its description; later starts and all other operations leave it. */
  lemma {:induction false} FirstStartWins(db: Db, o: Op, ops: seq<Op>)
    requires o.Start? && o.id !in db.sessions
    ensures var s := ApplyAll(Apply(db, o), ops).sessions;
            o.id in s && s[o.id].info == o.info && s[o.id].start == o.at
  {
    if ops != [] {
      FirstStartWins(db, o, ops[..|ops| - 1]);
    }
  }

  function SumUp(us: seq<Op>): int
    requires forall i | 0 <= i < |us| :: us[i].Update?
  {
    if us == [] then 0 else SumUp(us[..|us| - 1]) + us[|us| - 1].up
  }

  function SumDown(us: seq<Op>): int
    requires forall i | 0 <= i < |us| :: us[i].Update?
  {
    if us == [] then 0 else SumDown(us[..|us| - 1]) + us[|us| - 1].down
  }

  /** Updates of a started session add up in both directions and change nothing else of its row. */
  lemma {:induction false} UpdatesAddUp(db: Db, us: seq<Op>, id: string)
    requires id in db.sessions && us != [] && forall i | 0 <= i < |us| :: us[i].Update? && us[i].id == id
    ensures var r := db.sessions[id];
            ApplyAll(db, us).sessions == db.sessions[id := r.(up := Some(Coalesce(r.up) + SumUp(us)),
                                                             down := Some(Coalesce(r.down) + SumDown(us)))]
  {
    var n := |us| - 1;
    assert ApplyAll(db, us) == Apply(ApplyAll(db, us[..n]), us[n]);
    if n == 0 {
      assert us[..0] == [];
    } else {
      UpdatesAddUp(db, us[..n], id);
    }
  }

  /** What the updates of one session, among any operations, add in the two directions. */
  function Added(ops: seq<Op>, id: string): (int, int) {
    if ops == [] then (0, 0) else
    var (up, down), o := Added(ops[..|ops| - 1], id), ops[|ops| - 1];
    if o.Update? && o.id == id then (up + o.up, down + o.down) else (up, down)
  }

  predicate HasUpdate(ops: seq<Op>, id: string) {
    exists i :: 0 <= i < |ops| && ops[i].Update? && ops[i].id == id
  }

  /**
   * A started session that has not ended, whatever operations follow its start: no end, outcome or error, and totals
   * only once there is an update, which are then what its updates added.
   */
  lemma {:induction false} RunningSession(db: Db, o: Op, later: seq<Op>)
    requires o.Start? && o.id !in db.sessions
    requires forall i | 0 <= i < |later| :: !(later[i].End? && later[i].id == o.id)
    ensures var s, (up, down) := ApplyAll(Apply(db, o), later).sessions, Added(later, o.id);
            && o.id in s
            && s[o.id] == if HasUpdate(later, o.id) then Row(o.info, o.at, None, Some(up), Some(down), None, None)
                          else Row(o.info, o.at, None, None, None, None, None)
  {
    if later != [] {
      var n := |later| - 1;
      RunningSession(db, o, later[..n]);
      if !HasUpdate(later[..n], o.id) {
        NoUpdatesAddNothing(later[..n], o.id);
      }
      UpdateMore(later, o.id);
      hide HasUpdate;
    }
  }

  lemma UpdateMore(ops: seq<Op>, id: string)
    requires ops != []
    ensures var n := |ops| - 1;
            HasUpdate(ops, id) <==> HasUpdate(ops[..n], id) || (ops[n].Update? && ops[n].id == id)
  {
    var n := |ops| - 1;
    if HasUpdate(ops[..n], id) {
      var i :| 0 <= i < n && ops[..n][i].Update? && ops[..n][i].id == id;
      assert ops[i].Update?;
    }
  }

  lemma {:induction false} NoUpdatesAddNothing(ops: seq<Op>, id: string)
    requires !HasUpdate(ops, id)
    ensures Added(ops, id) == (0, 0)
  {
    if ops != [] {
      NoUpdatesAddNothing(ops[..|ops| - 1], id);
    }
  }

  /**
   * After the last end of a started session, whatever operations follow in whatever order: its outcome is that of the
   * end, its totals are those of the end and what later updates of it added, and its description is the one of before.
   */
  lemma {:induction false} LastEndDecides(db: Db, o: Op, later: seq<Op>)
    requires o.End? && o.id in db.sessions
    requires forall i | 0 <= i < |later| :: !(later[i].End? && later[i].id == o.id)
    ensures var s, (up, down) := ApplyAll(Apply(db, o), later).sessions, Added(later, o.id);
            && o.id in s
            && s[o.id] == Row(db.sessions[o.id].info, db.sessions[o.id].start, Some(o.at), Some(o.up + up),
                              Some(o.down + down), Some(o.success), Some(o.error))
  {
    if later != [] {
      LastEndDecides(db, o, later[..|later| - 1]);
    }
  }

  // ---------------------------------------------------------------- the writer as a state machine

  /** Where the writer is: at the head of its loop, in `flush` before or inside the transaction, or returned. */
  datatype Pc = Idle | Flushing(last: bool) | InTx(done: nat, tx: Db, last: bool) | Stopped

  /** A batch that left the writer, and what became of its transaction. */
  datatype Batch = Batch(ops: seq<Op>, begun: bool, committed: bool)

  /** The last three components are history: what was accepted, what became of it, and the tickets already closed. */
  datatype State = State(db: Db, batch: seq<Op>, queue: seq<Op>, closed: bool, pc: Pc,
                         accepted: seq<Op>, gone: seq<Batch>, tickets: set<nat>)

  datatype Step = Send(o: Op) | Close | Receive | Tick | Begin(ok: bool) | Exec | Commit(ok: bool)

  const INIT := State(EMPTY_DB, [], [], false, Idle, [], [], {})

  function AfterFlush(last: bool): Pc {
    if last then Stopped else Idle
  }

  /** A step that cannot be taken leaves the state alone. A full queue drops the operation. */
  function Next(s: State, t: Step): State {
    match t
    case Send(o) =>
      if s.closed || |s.queue| >= QUEUE_SIZE then s
      else s.(queue := s.queue + [o], accepted := s.accepted + [o])
    case Close => s.(closed := true)
    case Receive =>
      if s.pc != Idle then s
      else if s.queue == [] then (if s.closed then s.(pc := Flushing(true)) else s)
      else
        var batch := s.batch + [s.queue[0]];
        s.(batch := batch, queue := s.queue[1..], pc := if |batch| >= BATCH_SIZE then Flushing(false) else Idle)
    case Tick => if s.pc == Idle then s.(pc := Flushing(false)) else s
    case Begin(ok) =>
      if !s.pc.Flushing? then s
      else if s.batch == [] then s.(pc := AfterFlush(s.pc.last))
      else if ok then s.(pc := InTx(0, s.db, s.pc.last))
      else s.(batch := [], pc := AfterFlush(s.pc.last), gone := s.gone + [Batch(s.batch, false, false)])
    case Exec =>
      if !s.pc.InTx? || s.pc.done >= |s.batch| then s else
      var o := s.batch[s.pc.done];
      s.(pc := s.pc.(done := s.pc.done + 1, tx := Apply(s.pc.tx, o)),
         tickets := if o.Mark? then s.tickets + {o.ticket} else s.tickets)
    case Commit(ok) =>
      if !s.pc.InTx? || s.pc.done < |s.batch| then s
      else s.(db := if ok then s.pc.tx else s.db, batch := [], pc := AfterFlush(s.pc.last),
              gone := s.gone + [Batch(s.batch, true, ok)])
  }

  function Run(steps: seq<Step>): State {
    if steps == [] then INIT else Next(Run(steps[..|steps| - 1]), steps[|steps| - 1])
  }

  function AllOps(bs: seq<Batch>): seq<Op> {
    if bs == [] then [] else AllOps(bs[..|bs| - 1]) + bs[|bs| - 1].ops
  }

  /** The operations whose transactions were begun and committed. */
  function CommittedOps(bs: seq<Batch>): seq<Op> {
    if bs == [] then [] else
    var b := bs[|bs| - 1];
    CommittedOps(bs[..|bs| - 1]) + (if b.committed then b.ops else [])
  }

  ghost predicate NothingLost(s: State) {
    forall i | 0 <= i < |s.gone| :: s.gone[i].committed
  }

  /** What every reachable state satisfies. */
  ghost predicate Inv(s: State) {
    && AllOps(s.gone) + s.batch + s.queue == s.accepted
    && s.db == ApplyAll(EMPTY_DB, CommittedOps(s.gone))
    && |s.queue| <= QUEUE_SIZE
    && |s.batch| <= BATCH_SIZE && (s.pc == Idle ==> |s.batch| < BATCH_SIZE)
    && (s.pc.InTx? ==> s.batch != [] && s.pc.done <= |s.batch| && s.pc.tx == ApplyAll(s.db, s.batch[..s.pc.done]))
    && (s.pc.Flushing? || s.pc.InTx? ==> s.pc.last ==> s.closed && s.queue == [])
    && (s.pc == Stopped ==> s.closed && s.queue == [] && s.batch == [])
  }

  lemma GoneBatch(bs: seq<Batch>, b: Batch)
    ensures AllOps(bs + [b]) == AllOps(bs) + b.ops
    ensures CommittedOps(bs + [b]) == CommittedOps(bs) + (if b.committed then b.ops else [])
  {
    assert (bs + [b])[..|bs|] == bs;
  }

  lemma InvStep(s: State, t: Step)
    requires Inv(s)
    ensures Inv(Next(s, t))
  {
    hide Apply, ApplyAll, AllOps, CommittedOps;
    match t
    case Send(o) =>
      Regroup(AllOps(s.gone) + s.batch, s.queue, [o]);
    case Close =>
    case Receive =>
      if s.pc == Idle && s.queue != [] {
        assert s.queue == [s.queue[0]] + s.queue[1..];
        Regroup(s.batch, [s.queue[0]], s.queue[1..]);
        Regroup(AllOps(s.gone), s.batch, s.queue);
        Regroup(AllOps(s.gone), s.batch + [s.queue[0]], s.queue[1..]);
      }
    case Tick =>
    case Begin(ok) =>
      GoneBatch(s.gone, Batch(s.batch, false, false));
      ApplyNothing(s.db);
      assert s.batch[..0] == [] && (AllOps(s.gone) + s.batch) + [] == AllOps(s.gone) + s.batch;
      assert CommittedOps(s.gone) + [] == CommittedOps(s.gone);
    case Exec =>
      if s.pc.InTx? && s.pc.done < |s.batch| {
        ApplyOne(s.db, s.batch, s.pc.done);
      }
    case Commit(ok) =>
      GoneBatch(s.gone, Batch(s.batch, true, ok));
      ApplyAppend(EMPTY_DB, CommittedOps(s.gone), s.batch);
      assert s.batch[..|s.batch|] == s.batch && (AllOps(s.gone) + s.batch) + [] == AllOps(s.gone) + s.batch;
      assert CommittedOps(s.gone) + [] == CommittedOps(s.gone);
  }

  lemma ApplyNothing(db: Db)
    ensures ApplyAll(db, []) == db
  {
  }

  lemma ApplyOne(db: Db, ops: seq<Op>, k: nat)
    requires k < |ops|
    ensures ApplyAll(db, ops[..k + 1]) == Apply(ApplyAll(db, ops[..k]), ops[k])
  {
    assert ops[..k + 1][..k] == ops[..k];
  }

  lemma {:induction false} RunInv(steps: seq<Step>)
    ensures Inv(Run(steps))
  {
    if steps != [] {
      RunInv(steps[..|steps| - 1]);
      InvStep(Run(steps[..|steps| - 1]), steps[|steps| - 1]);
    }
  }

  lemma {:induction false} NothingLostOps(bs: seq<Batch>)
    requires forall i | 0 <= i < |bs| :: bs[i].committed
    ensures CommittedOps(bs) == AllOps(bs)
  {
    if bs != [] {
      NothingLostOps(bs[..|bs| - 1]);
    }
  }

  /**
   * In every reachable state, whatever the timing of receives and flushes: the database, with the pending batch and
   * then the queue applied to it, is what applying the committed operations, the batch and the queue one by one gives;
   * as long as every transaction began and committed these are exactly the accepted operations in their order.
   */
  lemma BatchingRefinesDirect(steps: seq<Step>)
    ensures var s := Run(steps);
            && ApplyAll(ApplyAll(s.db, s.batch), s.queue)
               == ApplyAll(EMPTY_DB, CommittedOps(s.gone) + s.batch + s.queue)
            && (NothingLost(s) ==> ApplyAll(ApplyAll(s.db, s.batch), s.queue) == ApplyAll(EMPTY_DB, s.accepted))
            && |s.queue| <= QUEUE_SIZE && (s.pc == Idle ==> |s.batch| < BATCH_SIZE)
  {
    var s := Run(steps);
    RunInv(steps);
    ApplyAppend(EMPTY_DB, CommittedOps(s.gone), s.batch);
    ApplyAppend(EMPTY_DB, CommittedOps(s.gone) + s.batch, s.queue);
    hide Run, ApplyAll;
    if NothingLost(s) {
      NothingLostOps(s.gone);
    }
  }

  /** Once the writer has returned after Close, nothing accepted is unapplied, unless a transaction failed. */
  lemma CloseAppliesEverything(steps: seq<Step>)
    requires Run(steps).pc == Stopped
    ensures var s := Run(steps);
            && AllOps(s.gone) == s.accepted
            && s.db == ApplyAll(EMPTY_DB, CommittedOps(s.gone))
            && (NothingLost(s) ==> s.db == ApplyAll(EMPTY_DB, s.accepted))
  {
    RunInv(steps);
    var s := Run(steps);
    assert AllOps(s.gone) + [] + [] == AllOps(s.gone);
    hide Run, ApplyAll;
    if NothingLost(s) {
      NothingLostOps(s.gone);
    }
  }

  // ---------------------------------------------------------------- progress and loss

  /** Further steps from any state. */
  function From(s: State, ts: seq<Step>): State
    decreases |ts|
  {
    if ts == [] then s else From(Next(s, ts[0]), ts[1..])
  }

  lemma {:induction false} FromAppend(s: State, ts: seq<Step>, us: seq<Step>)
    ensures From(s, ts + us) == From(From(s, ts), us)
    decreases |ts|
  {
    if ts == [] {
      assert ts + us == us;
    } else {
      FromAppend(Next(s, ts[0]), ts[1..], us);
      assert (ts + us)[1..] == ts[1..] + us;
      hide Next;
    }
  }

  lemma {:induction false} RunFrom(steps: seq<Step>, more: seq<Step>)
    ensures Run(steps + more) == From(Run(steps), more)
    decreases |more|
  {
    if more == [] {
      assert steps + more == steps;
    } else {
      RunMore(steps, more[0]);
      hide Next, Run;
      RunFrom(steps + [more[0]], more[1..]);
      assert steps + more == (steps + [more[0]]) + more[1..];
    }
  }

  /** `e` comes after `s`: nothing was sent or closed, and every transaction since then was committed. */
  ghost predicate Later(s: State, e: State) {
    && e.accepted == s.accepted && e.closed == s.closed
    && |s.gone| <= |e.gone| && e.gone[..|s.gone|] == s.gone
    && forall i | |s.gone| <= i < |e.gone| :: e.gone[i].committed
  }

  lemma LaterTransitive(s: State, m: State, e: State)
    requires Later(s, m) && Later(m, e)
    ensures Later(s, e)
  {
    assert forall i | |s.gone| <= i < |m.gone| :: e.gone[i] == e.gone[..|m.gone|][i];
    assert e.gone[..|s.gone|] == e.gone[..|m.gone|][..|s.gone|];
  }

  /** One step, and then the steps of `ts`. */
  lemma FromStep(s: State, t: Step, ts: seq<Step>)
    requires Later(s, Next(s, t)) && Later(Next(s, t), From(Next(s, t), ts))
    ensures From(s, [t] + ts) == From(Next(s, t), ts) && Later(s, From(s, [t] + ts))
  {
    assert ([t] + ts)[1..] == ts;
    LaterTransitive(s, Next(s, t), From(Next(s, t), ts));
  }

  lemma LaterSame(s: State)
    ensures Later(s, s) && From(s, []) == s
  {
  }

  /** A transaction can run to its end. */
  lemma {:induction false} CanCommit(s: State) returns (ts: seq<Step>)
    requires Inv(s) && s.pc.InTx?
    ensures var e := From(s, ts);
            Later(s, e) && e.pc == AfterFlush(s.pc.last) && e.batch == [] && e.queue == s.queue
            && e.db == ApplyAll(s.db, s.batch)
    decreases |s.batch| - s.pc.done
  {
    if s.pc.done < |s.batch| {
      InvStep(s, Exec);
      ts := CanCommit(Next(s, Exec));
      hide Inv, ApplyAll, Apply, From;
      FromStep(s, Exec, ts);
      ts := [Exec] + ts;
    } else {
      assert s.batch[..|s.batch|] == s.batch;
      hide Inv, ApplyAll, Apply;
      LaterSame(Next(s, Commit(true)));
      FromStep(s, Commit(true), []);
      ts := [Commit(true)] + [];
    }
  }

  lemma {:induction false} CanFlush(s: State) returns (ts: seq<Step>)
    requires Inv(s) && s.pc.Flushing?
    ensures var e := From(s, ts);
            Later(s, e) && e.pc == AfterFlush(s.pc.last) && e.batch == [] && e.queue == s.queue
            && e.db == ApplyAll(s.db, s.batch)
  {
    var m := Next(s, Begin(true));
    InvStep(s, Begin(true));
    ApplyNothing(s.db);
    if s.batch == [] {
      ts := [];
    } else {
      ts := CanCommit(m);
    }
    hide Inv, ApplyAll, From;
    LaterSame(m);
    FromStep(s, Begin(true), ts);
    ts := [Begin(true)] + ts;
  }

  lemma {:induction false} FromInv(s: State, ts: seq<Step>)
    requires Inv(s)
    ensures Inv(From(s, ts))
    decreases |ts|
  {
    if ts != [] {
      InvStep(s, ts[0]);
      hide Inv, Next;
      FromInv(Next(s, ts[0]), ts[1..]);
    }
  }

  function Rank(pc: Pc): nat {
    match pc
    case Stopped => 0
    case Idle => 2
    case Flushing(last) => if last then 1 else 3
    case InTx(_, _, last) => if last then 1 else 3
  }

  lemma {:induction false} CanFinish(s: State) returns (ts: seq<Step>)
    requires Inv(s) && s.closed
    ensures Later(s, From(s, ts)) && From(s, ts).pc == Stopped
    decreases |s.queue|, Rank(s.pc)
  {
    if s.pc == Stopped {
      LaterSame(s);
      ts := [];
    } else if s.pc == Idle {
      InvStep(s, Receive);
      hide Inv, From, ApplyAll;
      ts := CanFinish(Next(s, Receive));
      FromStep(s, Receive, ts);
      ts := [Receive] + ts;
    } else {
      if s.pc.InTx? {
        ts := CanCommit(s);
      } else {
        ts := CanFlush(s);
      }
      FromInv(s, ts);
      hide Inv, From, ApplyAll, Next;
      var more := CanFinish(From(s, ts));
      FromAppend(s, ts, more);
      LaterTransitive(s, From(s, ts), From(From(s, ts), more));
      ts := ts + more;
    }
  }

  /**
   * From every reachable state of a closed store the writer can empty the queue and return, with every operation that
   * was accepted and not yet lost in a committed transaction.
   */
  lemma WriterCanFinish(steps: seq<Step>) returns (more: seq<Step>)
    requires Run(steps).closed
    ensures var s, e := Run(steps), Run(steps + more);
            e.pc == Stopped && Later(s, e) && AllOps(e.gone) == s.accepted
  {
    RunInv(steps);
    more := CanFinish(Run(steps));
    RunFrom(steps, more);
    hide Run, Inv, From;
    CloseAppliesEverything(steps + more);
  }

  /** A batch whose transaction does not begin or commit is gone, without any effect on the database. */
  lemma FailedBatch(s: State, t: Step)
    requires (t == Begin(false) && s.pc.Flushing? && s.batch != [])
             || (t == Commit(false) && s.pc.InTx? && s.pc.done == |s.batch|)
    ensures var e := Next(s, t);
            e.db == s.db && e.batch == [] && CommittedOps(e.gone) == CommittedOps(s.gone)
            && AllOps(e.gone) == AllOps(s.gone) + s.batch
  {
    GoneBatch(s.gone, Batch(s.batch, t.Commit?, false));
    assert CommittedOps(s.gone) + [] == CommittedOps(s.gone);
    hide AllOps, CommittedOps;
  }

  // ---------------------------------------------------------------- FlushNow

  /** The operations whose `apply` has run, in any transaction that was begun. */
  function RanOps(s: State): seq<Op> {
    BegunOps(s.gone) + (if s.pc.InTx? && s.pc.done <= |s.batch| then s.batch[..s.pc.done] else [])
  }

  function BegunOps(bs: seq<Batch>): seq<Op> {
    if bs == [] then [] else
    var b := bs[|bs| - 1];
    BegunOps(bs[..|bs| - 1]) + (if b.begun then b.ops else [])
  }

  lemma {:induction false} FlushNowExactly(steps: seq<Step>, k: nat)
    ensures k in Run(steps).tickets <==> Mark(k) in RanOps(Run(steps))
  {
    if steps != [] {
      var s, t := Run(steps[..|steps| - 1]), steps[|steps| - 1];
      RunInv(steps[..|steps| - 1]);
      FlushNowExactly(steps[..|steps| - 1], k);
      TicketStep(s, t, k);
    }
  }

  lemma TicketStep(s: State, t: Step, k: nat)
    requires s.pc.InTx? ==> s.pc.done <= |s.batch|
    requires k in s.tickets <==> Mark(k) in RanOps(s)
    ensures k in Next(s, t).tickets <==> Mark(k) in RanOps(Next(s, t))
  {
    hide Apply, BegunOps;
    var s' := Next(s, t);
    match t
    case Exec =>
      if s' != s {
        assert s.batch[..s.pc.done + 1] == s.batch[..s.pc.done] + [s.batch[s.pc.done]];
      }
    case Begin(_) =>
      BegunBatch(s.gone, Batch(s.batch, false, false));
      assert BegunOps(s.gone) + [] == BegunOps(s.gone);
    case Commit(ok) =>
      BegunBatch(s.gone, Batch(s.batch, true, ok));
      assert s.batch[..|s.batch|] == s.batch;
    case _ =>
      assert s'.gone == s.gone && s'.tickets == s.tickets;
  }

  lemma BegunBatch(bs: seq<Batch>, b: Batch)
    ensures BegunOps(bs + [b]) == BegunOps(bs) + (if b.begun then b.ops else [])
  {
    assert (bs + [b])[..|bs|] == bs;
  }

  /**
   * FlushNow returns when its ticket is closed, and that happens inside the transaction: at that moment nothing of
   * the batch it sits in, whatever was accepted before it, is in the database yet.
   */
  lemma FlushNowBeforeCommit(steps: seq<Step>, k: nat)
    requires var s := Run(steps); s.pc.InTx? && s.pc.done < |s.batch| && s.batch[s.pc.done] == Mark(k)
    ensures var s, s' := Run(steps), Run(steps + [Exec]);
            k in s'.tickets && s'.db == s.db == ApplyAll(EMPTY_DB, CommittedOps(s.gone))
            && s'.accepted == AllOps(s.gone) + s.batch + s.queue
  {
    assert (steps + [Exec])[..|steps|] == steps;
    RunInv(steps);
    hide ApplyAll, AllOps, CommittedOps, Apply;
  }

  /** A concrete case: a session was started before FlushNow, FlushNow returns, and the database is still empty. */
  lemma FlushNowReturnsEarly()
    ensures var s := Run([Send(Start("a", "", 0)), Send(Mark(0)), Receive, Receive, Tick, Begin(true), Exec, Exec]);
            0 in s.tickets && Start("a", "", 0) in s.accepted && s.db == EMPTY_DB
  {
    var o, m := Start("a", "", 0), Mark(0);
    var before := [Send(o), Send(m), Receive, Receive];
    BatchOfTwo(o, m);
    var s4 := Run(before);
    hide Apply;
    RunMore(before, Tick);
    RunMore(before + [Tick], Begin(true));
    RunMore(before + [Tick] + [Begin(true)], Exec);
    RunMore(before + [Tick] + [Begin(true)] + [Exec], Exec);
    hide Run;
    var s6 := Next(Next(s4, Tick), Begin(true));
    assert s6 == s4.(pc := InTx(0, EMPTY_DB, false));
    assert before + [Tick] + [Begin(true)] + [Exec] + [Exec]
        == [Send(o), Send(m), Receive, Receive, Tick, Begin(true), Exec, Exec];
  }

  lemma GoneStep(s: State, t: Step)
    requires s.pc.InTx? ==> s.batch != []
    ensures Next(s, t).gone == s.gone || exists b: Batch :: b.ops != [] && Next(s, t).gone == s.gone + [b]
  {
    hide Apply;
  }

  /** A batch that left the writer was not empty. */
  lemma {:induction false} GoneNotEmpty(steps: seq<Step>)
    ensures forall i | 0 <= i < |Run(steps).gone| :: Run(steps).gone[i].ops != []
  {
    if steps != [] {
      RunInv(steps[..|steps| - 1]);
      GoneNotEmpty(steps[..|steps| - 1]);
      GoneStep(Run(steps[..|steps| - 1]), steps[|steps| - 1]);
      hide Next;
    }
  }

  /** Of non-empty batches, as many operations are committed as there are if and only if all batches are. */
  lemma {:induction false} CommittedCount(bs: seq<Batch>)
    requires forall i | 0 <= i < |bs| :: bs[i].ops != []
    ensures |CommittedOps(bs)| <= |AllOps(bs)|
    ensures |CommittedOps(bs)| == |AllOps(bs)| <==> forall i | 0 <= i < |bs| :: bs[i].committed
  {
    if bs != [] {
      CommittedCount(bs[..|bs| - 1]);
    }
  }

  /**
   * When an operation of FlushNow is about to run, everything accepted before it is in a committed transaction if and
   * only if it is the first operation of its batch and no earlier transaction failed.
   */
  lemma BeforeMark(steps: seq<Step>, k: nat)
    requires var s := Run(steps); s.pc.InTx? && s.pc.done < |s.batch| && s.batch[s.pc.done] == Mark(k)
    ensures var s := Run(steps);
            var before := AllOps(s.gone) + s.batch[..s.pc.done];
            && |before| < |s.accepted| && before == s.accepted[..|before|] && s.accepted[|before|] == Mark(k)
            && (CommittedOps(s.gone) == before <==> s.pc.done == 0 && NothingLost(s))
  {
    var s := Run(steps);
    RunInv(steps);
    GoneNotEmpty(steps);
    CommittedCount(s.gone);
    hide Run, AllOps, CommittedOps, ApplyAll, Apply;
    var d := s.pc.done;
    assert s.batch == s.batch[..d] + s.batch[d..];
    Regroup(AllOps(s.gone), s.batch[..d], s.batch[d..]);
    Regroup(AllOps(s.gone) + s.batch[..d], s.batch[d..], s.queue);
    if d == 0 && NothingLost(s) {
      NothingLostOps(s.gone);
      assert AllOps(s.gone) + s.batch[..0] == AllOps(s.gone);
    }
  }

  // ---------------------------------------------------------------- whole calls of FlushNow

  predicate Full(s: State) {
    |s.queue| >= QUEUE_SIZE
  }

  /** Step `i` is FlushNow with ticket `k`, on a store that is not closed; each call has a ticket of its own. */
  ghost predicate Calls(steps: seq<Step>, i: nat, k: nat) {
    && i < |steps| && steps[i] == Send(Mark(k)) && !Run(steps[..i]).closed
    && forall j | 0 <= j < |steps| && j != i :: steps[j] != Send(Mark(k))
  }

  /** FlushNow has returned: at once, because the queue was full, or because its ticket is closed. */
  ghost predicate Returned(steps: seq<Step>, i: nat, k: nat)
    requires i < |steps|
  {
    Full(Run(steps[..i])) || k in Run(steps).tickets
  }

  /** A send is accepted unless the store is closed or 1024 operations are queued; nothing else is. */
  lemma AcceptedStep(s: State, t: Step)
    ensures Next(s, t).accepted == s.accepted + (if t.Send? && !s.closed && |s.queue| < 1024 then [t.o] else [])
    ensures Full(s) <==> |s.queue| >= 1024
    ensures Next(s, t).closed <==> s.closed || t == Close
  {
  }

  lemma {:induction false} NotYetAccepted(steps: seq<Step>, k: nat)
    requires forall j | 0 <= j < |steps| :: steps[j] != Send(Mark(k))
    ensures Mark(k) !in Run(steps).accepted
  {
    if steps != [] {
      var n := |steps| - 1;
      NotYetAccepted(steps[..n], k);
      AcceptedStep(Run(steps[..n]), steps[n]);
      hide Next;
    }
  }

  /** A call that finds room puts its operation behind everything accepted before it, and nowhere else. */
  lemma {:induction false} MarkPosition(steps: seq<Step>, i: nat, k: nat)
    requires Calls(steps, i, k)
    ensures var before, all := Run(steps[..i]).accepted, Run(steps).accepted;
            && |before| <= |all| && before == all[..|before|]
            && (!Full(Run(steps[..i])) ==> |before| < |all| && all[|before|] == Mark(k))
            && forall p | 0 <= p < |all| && all[p] == Mark(k) :: p == |before| && !Full(Run(steps[..i]))
    decreases |steps|
  {
    var n := |steps| - 1;
    var s := Run(steps[..n]);
    AcceptedStep(s, steps[n]);
    if n == i {
      NotYetAccepted(steps[..n], k);
    } else {
      assert steps[..n][..i] == steps[..i];
      MarkPosition(steps[..n], i, k);
    }
    hide Next;
  }

  /** It returns if and only if it found the queue full or its operation has run in a transaction that was begun. */
  lemma FlushNowReturnsExactly(steps: seq<Step>, i: nat, k: nat)
    requires Calls(steps, i, k)
    ensures Returned(steps, i, k) <==> Full(Run(steps[..i])) || Mark(k) in RanOps(Run(steps))
    ensures Full(Run(steps[..i])) ==> k !in Run(steps).tickets && Mark(k) !in Run(steps).accepted
  {
    FlushNowExactly(steps, k);
    MarkPosition(steps, i, k);
    RunInv(steps);
    hide Run, RanOps;
    if Mark(k) in RanOps(Run(steps)) {
      RanWasAccepted(Run(steps), k);
    }
  }

  lemma {:induction false} BegunInAll(bs: seq<Batch>, o: Op)
    requires o in BegunOps(bs)
    ensures o in AllOps(bs)
  {
    var n := |bs| - 1;
    if o in BegunOps(bs[..n]) {
      BegunInAll(bs[..n], o);
    }
  }

  lemma RanWasAccepted(s: State, k: nat)
    requires Inv(s) && Mark(k) in RanOps(s)
    ensures Mark(k) in s.accepted
  {
    hide ApplyAll, CommittedOps, AllOps, BegunOps;
    if Mark(k) in BegunOps(s.gone) {
      BegunInAll(s.gone, Mark(k));
    } else {
      assert Mark(k) in s.batch;
    }
  }

  /** The step with which the call returns: its own if the queue is full, else the one that closes its ticket. */
  ghost predicate ReturnsAt(steps: seq<Step>, i: nat, k: nat, j: nat) {
    && i <= j < |steps|
    && if Full(Run(steps[..i])) then j == i else k !in Run(steps[..j]).tickets && k in Run(steps[..j + 1]).tickets
  }

  lemma TicketCloses(s: State, t: Step, k: nat)
    requires k !in s.tickets && k in Next(s, t).tickets
    ensures t == Exec && s.pc.InTx? && s.pc.done < |s.batch| && s.batch[s.pc.done] == Mark(k)
  {
  }

  lemma KeepsGone(s: State, t: Step)
    requires t.Exec? || t.Send?
    ensures Next(s, t).gone == s.gone
  {
  }

  lemma RunStep(steps: seq<Step>, j: nat)
    requires j < |steps|
    ensures Run(steps[..j + 1]) == Next(Run(steps[..j]), steps[j])
  {
    assert steps[..j + 1][..j] == steps[..j];
  }

  /** What is queued is in no transaction. */
  lemma FullIsNotKept(steps: seq<Step>)
    requires Full(Run(steps))
    ensures CommittedOps(Run(steps).gone) != Run(steps).accepted
  {
    RunInv(steps);
    GoneNotEmpty(steps);
    CommittedCount(Run(steps).gone);
  }

  /**
   * Every call of FlushNow: at the moment it returns, what is committed is all that was accepted before the call, if
   * and only if the queue had room, its operation is the first of its batch, and no earlier transaction failed.
   */
  lemma FlushNowKeepsPromiseExactly(steps: seq<Step>, i: nat, k: nat, j: nat)
    requires Calls(steps, i, k) && ReturnsAt(steps, i, k, j)
    ensures var s := Run(steps[..j]);
            CommittedOps(Run(steps[..j + 1]).gone) == Run(steps[..i]).accepted
            <==> !Full(Run(steps[..i])) && s.pc.InTx? && s.pc.done == 0 && NothingLost(s)
  {
    var s := Run(steps[..j]);
    RunStep(steps, j);
    if Full(Run(steps[..i])) {
      FullIsNotKept(steps[..i]);
      KeepsGone(s, steps[j]);
    } else {
      TicketCloses(s, steps[j], k);
      KeepsGone(s, steps[j]);
      BeforeMark(steps[..j], k);
      assert i < j && steps[..j][..i] == steps[..i];
      MarkPosition(steps[..j], i, k);
      hide Run, Next, AllOps, CommittedOps;
    }
  }

  lemma {:induction false} SendMany(o: Op, n: nat)
    requires n <= QUEUE_SIZE
    ensures var os := seq(n, _ => o);
            Run(seq(n, _ => Send(o))) == State(EMPTY_DB, [], os, false, Idle, os, [], {})
  {
    var steps, os := seq(n, _ => Send(o)), seq(n, _ => o);
    if n == 0 {
      assert steps == [] && os == [];
    } else {
      SendMany(o, n - 1);
      assert steps == seq(n - 1, _ => Send(o)) + [Send(o)] && os == seq(n - 1, _ => o) + [o];
      RunMore(seq(n - 1, _ => Send(o)), Send(o));
    }
  }

  /** A concrete case: behind 1024 queued operations FlushNow returns at once, and none of them is applied. */
  lemma FlushNowOnFullQueue(k: nat)
    ensures var o := Start("a", "", 0);
            var steps := seq(1024, _ => Send(o)) + [Send(Mark(k))];
            && Calls(steps, 1024, k) && Returned(steps, 1024, k)
            && Run(steps).accepted == seq(1024, _ => o) && Run(steps).db == EMPTY_DB
  {
    var o := Start("a", "", 0);
    var many := seq(QUEUE_SIZE, _ => Send(o));
    SendMany(o, QUEUE_SIZE);
    RunMore(many, Send(Mark(k)));
    assert (many + [Send(Mark(k))])[..QUEUE_SIZE] == many;
    hide Run;
  }

  lemma RunMore(steps: seq<Step>, t: Step)
    ensures Run(steps + [t]) == Next(Run(steps), t)
  {
    assert (steps + [t])[..|steps|] == steps;
  }

  lemma BatchOfTwo(o: Op, m: Op)
    ensures Run([Send(o), Send(m), Receive, Receive]) == State(EMPTY_DB, [o, m], [], false, Idle, [o, m], [], {})
  {
    RunFour(Send(o), Send(m), Receive, Receive);
    hide Run;
    TwoSent(o, m);
    var s2 := Next(Next(INIT, Send(o)), Send(m));
    assert Next(s2, Receive) == State(EMPTY_DB, [o], [m], false, Idle, [o, m], [], {});
  }

  lemma TwoSent(o: Op, m: Op)
    ensures Next(Next(INIT, Send(o)), Send(m)) == State(EMPTY_DB, [], [o, m], false, Idle, [o, m], [], {})
  {
  }

  lemma RunFour(a: Step, b: Step, c: Step, d: Step)
    ensures Run([a, b, c, d]) == Next(Next(Next(Next(INIT, a), b), c), d)
  {
    assert Run([]) == INIT;
    hide Run, Next;
    RunMore([], a);
    RunMore([a], b);
    RunMore([a, b], c);
    RunMore([a, b, c], d);
    assert [] + [a] == [a] && [a] + [b] == [a, b] && [a, b] + [c] == [a, b, c] && [a, b, c] + [d] == [a, b, c, d];
  }

  // ---------------------------------------------------------------- the code

  /** What the writer meets while the channel is open. */
  datatype Arrival = Got(o: Op) | Ticked

  function OpsOf(script: seq<Arrival>): seq<Op> {
    if script == [] then [] else
    var a := script[|script| - 1];
    OpsOf(script[..|script| - 1]) + (if a.Got? then [a.o] else [])
  }

  /** The operations since the last batch: a batch ends with its 128th operation, or with a tick. */
  function Waiting(script: seq<Arrival>): (ops: seq<Op>)
    ensures |ops| < BATCH_SIZE
  {
    if script == [] || script[|script| - 1].Ticked? then [] else
    var ops := Waiting(script[..|script| - 1]) + [script[|script| - 1].o];
    if |ops| >= BATCH_SIZE then [] else ops
  }

  /** The batches that have ended; a tick without operations makes none. */
  function Ended(script: seq<Arrival>): seq<seq<Op>> {
    if script == [] then [] else
    var before, ops := Ended(script[..|script| - 1]), Waiting(script[..|script| - 1]);
    match script[|script| - 1]
    case Got(o) => if |ops| + 1 >= BATCH_SIZE then before + [ops + [o]] else before
    case Ticked => if ops != [] then before + [ops] else before
  }

  lemma ArrivesMore(script: seq<Arrival>, k: nat)
    requires k < |script|
    ensures var ops, before := Waiting(script[..k]), Ended(script[..k]);
            match script[k]
            case Got(o) =>
              if |ops| + 1 >= BATCH_SIZE
              then Waiting(script[..k + 1]) == [] && Ended(script[..k + 1]) == before + [ops + [o]]
              else Waiting(script[..k + 1]) == ops + [o] && Ended(script[..k + 1]) == before
            case Ticked =>
              Waiting(script[..k + 1]) == []
              && Ended(script[..k + 1]) == if ops == [] then before else before + [ops]
  {
    assert script[..k + 1][..k] == script[..k] && script[..k + 1][k] == script[k];
  }

  function BatchOps(bs: seq<Batch>): (os: seq<seq<Op>>)
    ensures |os| == |bs| && forall i | 0 <= i < |bs| :: os[i] == bs[i].ops
  {
    seq(|bs|, i requires 0 <= i < |bs| => bs[i].ops)
  }

  /** How many of the arrivals are operations. */
  function Arrived(script: seq<Arrival>): nat {
    if script == [] then 0 else Arrived(script[..|script| - 1]) + if script[|script| - 1].Got? then 1 else 0
  }

  /** The operations are those that arrived, each in its place. */
  lemma {:induction false} OpsArrive(script: seq<Arrival>, k: nat)
    requires k < |script| && script[k].Got?
    ensures Arrived(script[..k]) < |OpsOf(script)| == Arrived(script)
    ensures OpsOf(script)[Arrived(script[..k])] == script[k].o
  {
    var n := |script| - 1;
    OpsCounted(script);
    OpsCounted(script[..n]);
    if k < n {
      assert script[..n][..k] == script[..k];
      OpsArrive(script[..n], k);
    }
  }

  lemma {:induction false} OpsCounted(script: seq<Arrival>)
    ensures |OpsOf(script)| == Arrived(script)
  {
    if script != [] {
      OpsCounted(script[..|script| - 1]);
    }
  }

  /**
   * Without ticks a batch is flushed at its 128th operation and not before; a tick flushes whatever is waiting, and
   * nothing if nothing is.
   */
  lemma {:induction false} BatchesEnd(script: seq<Arrival>)
    ensures Waiting(script + [Ticked]) == []
    ensures Ended(script + [Ticked]) == Ended(script) + (if Waiting(script) == [] then [] else [Waiting(script)])
    ensures (forall i | 0 <= i < |script| :: script[i].Got?) ==>
              |Waiting(script)| == |script| % 128 && |Ended(script)| == |script| / 128
              && forall i | 0 <= i < |Ended(script)| :: |Ended(script)[i]| == 128
  {
    assert (script + [Ticked])[..|script|] == script;
    if script != [] {
      BatchesEnd(script[..|script| - 1]);
    }
  }

  /** Nothing that arrived is left out of the batches or put in twice. */
  lemma {:induction false} BatchesAreArrivals(script: seq<Arrival>, bs: seq<Batch>)
    requires BatchOps(bs) == Ended(script)
    ensures AllOps(bs) + Waiting(script) == OpsOf(script)
    decreases |script|
  {
    if script != [] {
      var n := |script| - 1;
      var ended := Ended(script) != Ended(script[..n]);
      var bs0 := if ended then bs[..|bs| - 1] else bs;
      assert BatchOps(bs0) == Ended(script[..n]);
      BatchesAreArrivals(script[..n], bs0);
      hide Ended;
      var a := script[n];
      if a.Got? {
        Regroup(AllOps(bs0), Waiting(script[..n]), [a.o]);
      } else {
        assert OpsOf(script[..n]) + [] == OpsOf(script[..n]) && Waiting(script) == [];
      }
      if ended {
        assert AllOps(bs) == AllOps(bs0) + bs[|bs| - 1].ops;
      }
    }
  }

  class Store {
    var db: Db
    var ops: seq<Op>

    constructor ()
      ensures db == EMPTY_DB && ops == []
    {
      db, ops := EMPTY_DB, [];
    }

    /** The `select` of every enqueue method: never blocks, drops when the queue is full. */
    method Enqueue(o: Op) returns (accepted: bool)
      modifies this`ops
      ensures accepted <==> |old(ops)| < QUEUE_SIZE
      ensures ops == old(ops) + if accepted then [o] else []
    {
      accepted := |ops| < QUEUE_SIZE;
      if accepted {
        ops := ops + [o];
      }
    }

    method UpdateSession(id: string, up: int, down: int)
      modifies this`ops
      ensures ops == old(ops) + if (up == 0 && down == 0) || |old(ops)| >= QUEUE_SIZE then []
                                else [Update(id, up, down)]
    {
      if up == 0 && down == 0 {
        return;
      }
      var _ := Enqueue(Update(id, up, down));
    }

    method AddQualitySample(id: string, at: int, rtt: int, jitter: int, loss: real)
      modifies this`ops
      ensures ops == old(ops) + if id == "" || |old(ops)| >= QUEUE_SIZE then []
                                else [Record(Quality(id, at, rtt, jitter, loss))]
    {
      if id == "" {
        return;
      }
      var _ := Enqueue(Record(Quality(id, at, rtt, jitter, loss)));
    }

    method AddEvent(id: string, kind: string, at: int, details: string)
      modifies this`ops
      ensures ops == old(ops) + if id == "" || kind == "" || |old(ops)| >= QUEUE_SIZE then []
                                else [Record(Event(id, at, kind, details))]
    {
      if id == "" || kind == "" {
        return;
      }
      var _ := Enqueue(Record(Event(id, at, kind, details)));
    }

    /** FlushNow up to the point where it waits for its ticket; on a full queue it returns at once. */
    method FlushNow(ticket: nat) returns (waits: bool)
      modifies this`ops
      ensures waits <==> |old(ops)| < QUEUE_SIZE
      ensures ops == old(ops) + if waits then [Mark(ticket)] else []
    {
      waits := Enqueue(Mark(ticket));
    }

    /** One transaction over the batch. Beginning or committing may fail unless `reliable`; the batch is gone anyway. */
    method Flush(batch: seq<Op>, reliable: bool) returns (b: Option<Batch>)
      modifies this`db
      ensures b == None <==> batch == []
      ensures b.Some? ==> b.value.ops == batch && (b.value.committed ==> b.value.begun)
                          && (reliable ==> b.value.committed)
      ensures db == if b.Some? && b.value.committed then ApplyAll(old(db), batch) else old(db)
    {
      if |batch| == 0 {
        return None;
      }
      var fails: bool := *;
      if fails && !reliable {
        return Some(Batch(batch, false, false));
      }
      var tx := db;
      for i := 0 to |batch|
        invariant tx == ApplyAll(db, batch[..i]) && db == old(db)
      {
        ApplyOne(db, batch, i);
        tx := Apply(tx, batch[i]);
      }
      assert batch[..|batch|] == batch;
      fails := *;
      if reliable || !fails {
        db := tx;
        return Some(Batch(batch, true, true));
      }
      return Some(Batch(batch, true, false));
    }

    /**
     * writerLoop against everything that arrives until the channel is closed and drained: which batches it flushes,
     * each with its own transaction, and the database after those that were committed.
     */
    method WriterLoop(script: seq<Arrival>, reliable: bool) returns (gone: seq<Batch>)
      modifies this`db
      ensures BatchOps(gone) == Ended(script) + (if Waiting(script) == [] then [] else [Waiting(script)])
      ensures AllOps(gone) == OpsOf(script) && forall i | 0 <= i < |gone| :: 0 < |gone[i].ops| <= BATCH_SIZE
      ensures db == ApplyAll(old(db), CommittedOps(gone))
      ensures reliable ==> db == ApplyAll(old(db), OpsOf(script))
      ensures reliable ==> db.log == old(db).log + Recorded(OpsOf(script))
    {
      var batch: seq<Op> := [];
      gone := [];
      NothingFlushed(db, reliable);
      for k := 0 to |script|
        invariant batch == Waiting(script[..k])
        invariant Flushed(old(db), gone, Ended(script[..k]), db, reliable)
      {
        ArrivesMore(script, k);
        hide Flushed, ApplyAll, Waiting, Ended;
        ghost var before := db;
        match script[k] {
          case Got(o) =>
            batch := batch + [o];
            if |batch| >= BATCH_SIZE {
              var b := Flush(batch, reliable);
              FlushedMore(old(db), gone, Ended(script[..k]), before, b.value, db, reliable);
              gone, batch := gone + [b.value], [];
            }
          case Ticked =>
            var b := Flush(batch, reliable);
            if b.Some? {
              FlushedMore(old(db), gone, Ended(script[..k]), before, b.value, db, reliable);
              gone := gone + [b.value];
            }
            batch := [];
        }
      }
      assert script[..|script|] == script;
      hide ApplyAll, Flushed, Ended, Waiting, OpsOf, AllOps, CommittedOps;
      FlushedArrivals(old(db), script, gone, db, reliable);
      ghost var before := db;
      var last := Flush(batch, reliable);
      if last.Some? {
        FlushedMore(old(db), gone, Ended(script), before, last.value, db, reliable);
        GoneBatch(gone, last.value);
        gone := gone + [last.value];
      } else {
        assert AllOps(gone) + [] == AllOps(gone) && Ended(script) + [] == Ended(script);
      }
      FlushedMeans(old(db), gone, Ended(script) + (if batch == [] then [] else [batch]), db, reliable);
      LogIsRecorded(old(db), OpsOf(script));
    }
  }

  /** Batches `os` have been flushed, each within the size, and the database is what those committed made of it. */
  ghost predicate Flushed(db: Db, gone: seq<Batch>, os: seq<seq<Op>>, after: Db, reliable: bool) {
    && BatchOps(gone) == os && after == ApplyAll(db, CommittedOps(gone))
    && forall i | 0 <= i < |gone| :: 0 < |gone[i].ops| <= BATCH_SIZE && (reliable ==> gone[i].committed)
  }

  lemma NothingFlushed(db: Db, reliable: bool)
    ensures Flushed(db, [], [], db, reliable)
  {
    ApplyNothing(db);
  }

  lemma FlushedMore(db: Db, gone: seq<Batch>, os: seq<seq<Op>>, middle: Db, b: Batch, after: Db, reliable: bool)
    requires Flushed(db, gone, os, middle, reliable) && 0 < |b.ops| <= BATCH_SIZE && (reliable ==> b.committed)
    requires after == if b.committed then ApplyAll(middle, b.ops) else middle
    ensures Flushed(db, gone + [b], os + [b.ops], after, reliable)
  {
    hide CommittedOps, ApplyAll, AllOps;
    GoneBatch(gone, b);
    ApplyAppend(db, CommittedOps(gone), b.ops);
    if !b.committed {
      assert CommittedOps(gone) + [] == CommittedOps(gone);
    }
  }

  lemma FlushedArrivals(db: Db, script: seq<Arrival>, gone: seq<Batch>, after: Db, reliable: bool)
    requires Flushed(db, gone, Ended(script), after, reliable)
    ensures AllOps(gone) + Waiting(script) == OpsOf(script)
  {
    BatchesAreArrivals(script, gone);
  }

  lemma FlushedMeans(db: Db, gone: seq<Batch>, os: seq<seq<Op>>, after: Db, reliable: bool)
    requires Flushed(db, gone, os, after, reliable)
    ensures BatchOps(gone) == os && after == ApplyAll(db, CommittedOps(gone))
    ensures forall i | 0 <= i < |gone| :: 0 < |gone[i].ops| <= BATCH_SIZE
    ensures reliable ==> after == ApplyAll(db, AllOps(gone))
  {
    hide ApplyAll, AllOps, CommittedOps;
    if reliable {
      NothingLostOps(gone);
    }
  }
}
