/** Whole runs of the writer: any stream, any threshold, any point of failure. */
module WriterRuns {
  import opened Batches
  import opened Basics
  import opened Lexer
  import opened Statements
  import opened SqlText
  import opened RowItems
  import opened Database
  import opened WriterSpec
  import opened Gathering
  import opened FlushMeaning
  import opened FlushEffect
  import Timestamps

  // ---------------------------------------------------------------- runs

  datatype Call = CallWrite(e: Entity) | CallClose

  function Perform(cfg: Config, sch: Schema, env: Env, m: Machine, call: Call): (Machine, bool)
    requires env.Valid()
  {
    match call
    case CallWrite(e) => Write(cfg, sch, env, m, e)
    case CallClose => Close(cfg, sch, env, m)
  }

  function PerformAll(cfg: Config, sch: Schema, env: Env, m: Machine, calls: seq<Call>): Machine
    requires env.Valid()
    decreases |calls|
  {
    if calls == [] then m else PerformAll(cfg, sch, env, Perform(cfg, sch, env, m, calls[0]).0, calls[1..])
  }

  function WriteAll(cfg: Config, sch: Schema, env: Env, m: Machine, ops: seq<Op>): Machine
    requires env.Valid()
    decreases |ops|
  {
    if ops == [] then m else WriteAll(cfg, sch, env, WriteOp(cfg, sch, env, m, ops[0]).0, ops[1..])
  }

  function Writes(es: seq<Entity>): seq<Call> { seq(|es|, i requires 0 <= i < |es| => CallWrite(es[i])) }

  /** Entities that do not map leave no trace. */
  lemma {:induction false} WritesAreOps(cfg: Config, sch: Schema, env: Env, m: Machine, es: seq<Entity>)
    requires env.Valid()
    ensures PerformAll(cfg, sch, env, m, Writes(es)) == WriteAll(cfg, sch, env, m, Accepted(cfg, es))
    decreases |es|
  {
    hide WriteOp;
    if es != [] {
      var m' := Perform(cfg, sch, env, m, CallWrite(es[0])).0;
      assert Writes(es)[1..] == Writes(es[1..]);
      WritesAreOps(cfg, sch, env, m', es[1..]);
      match Accept(cfg, es[0]) {
        case None =>
        case Some(op) =>
          assert ([op] + Accepted(cfg, es[1..]))[1..] == Accepted(cfg, es[1..]);
      }
    }
  }

  // ---------------------------------------------------------------- the buffers over a run

  /** After a write that reports success the size is below the threshold, whatever happened before. */
  lemma {:induction false} SizeBelowThreshold(cfg: Config, sch: Schema, env: Env, m: Machine, e: Entity)
    requires env.Valid()
    ensures var (m', ok) := Write(cfg, sch, env, m, e);
            ok ==> Size(m'.batch) < Max(cfg.flushThreshold, 1) && |Ids(m'.batch)| <= Size(m'.batch)
  {
    var m' := Write(cfg, sch, env, m, e).0;
    IdsExact(m'.batch);
    assert Size([]) == 0;
  }

  // ---------------------------------------------------------------- failure is sticky

  /** In an ended transaction a flush with something to do fails and changes nothing. */
  lemma {:induction false} EndedFlush(cfg: Config, sch: Schema, env: Env, batch: seq<Op>, c: Conn)
    requires env.Valid() && c.done
    ensures Flush(cfg, sch, env, batch, c) == (c, batch == [])
  {
    IdsExact(batch);
  }

  /** When a call on an ended transaction still reports success: only a write that stays below the threshold. */
  lemma {:induction false} EndedCall(cfg: Config, sch: Schema, env: Env, m: Machine, call: Call)
    requires env.Valid() && m.conn.done
    ensures var (m', ok) := Perform(cfg, sch, env, m, call);
            && m'.conn == m.conn
            && (ok <==> call.CallWrite? && Accept(cfg, call.e).Some? &&
                        Size(m.batch + [Accept(cfg, call.e).value]) < cfg.flushThreshold)
  {
    hide Flush;
    match call
    case CallClose => EndedFlush(cfg, sch, env, m.batch, m.conn);
    case CallWrite(e) =>
      match Accept(cfg, e)
      case None =>
      case Some(op) => EndedFlush(cfg, sch, env, m.batch + [op], m.conn);
  }

  /** Once the transaction has ended no sequence of calls changes the table, or anything else of the connection. */
  lemma {:induction false} EndedForGood(cfg: Config, sch: Schema, env: Env, m: Machine, calls: seq<Call>)
    requires env.Valid() && m.conn.done
    ensures PerformAll(cfg, sch, env, m, calls).conn == m.conn
    decreases |calls|
  {
    if calls != [] {
      EndedCall(cfg, sch, env, m, calls[0]);
      EndedForGood(cfg, sch, env, Perform(cfg, sch, env, m, calls[0]).0, calls[1..]);
    }
  }

  /** With a batch at the threshold in an ended transaction every later call reports an error. */
  lemma {:induction false} StickyFrom(cfg: Config, sch: Schema, env: Env, m: Machine, calls: seq<Call>, call: Call)
    requires env.Valid() && m.conn.done && Size(m.batch) >= cfg.flushThreshold && m.batch != []
    ensures var m' := PerformAll(cfg, sch, env, m, calls);
            !Perform(cfg, sch, env, m', call).1 && m'.conn == m.conn
    decreases |calls|
  {
    hide Write;
    hide Close;
    if calls == [] {
      EndedStep(cfg, sch, env, m, call);
    } else {
      EndedStep(cfg, sch, env, m, calls[0]);
      StickyFrom(cfg, sch, env, Perform(cfg, sch, env, m, calls[0]).0, calls[1..], call);
    }
  }

  /** A write whose flush failed, for whatever reason: every later Write and Close fails, and the table stays as it is. */
  lemma {:induction false} FailedWriteIsSticky(cfg: Config, sch: Schema, env: Env, m: Machine, e: Entity, calls: seq<Call>, call: Call)
    requires env.Valid() && Accept(cfg, e).Some? && !Write(cfg, sch, env, m, e).1
    ensures var failed := Write(cfg, sch, env, m, e).0;
            var m' := PerformAll(cfg, sch, env, failed, calls);
            !Perform(cfg, sch, env, m', call).1 && Perform(cfg, sch, env, m', call).0.conn == m'.conn == failed.conn
  {
    var op := Accept(cfg, e).value;
    assert Write(cfg, sch, env, m, e) == WriteOp(cfg, sch, env, m, op);
    assert m.batch + [op] != [];
    hide *;
    HowItEnds(cfg, sch, env, m, op);
    var failed := WriteOp(cfg, sch, env, m, op).0;
    StickyFrom(cfg, sch, env, failed, calls, call);
    DoneStays(cfg, sch, env, PerformAll(cfg, sch, env, failed, calls), call);
  }

  lemma DoneStays(cfg: Config, sch: Schema, env: Env, m: Machine, call: Call)
    requires env.Valid() && m.conn.done
    ensures Perform(cfg, sch, env, m, call).0.conn == m.conn
  {
    EndedCall(cfg, sch, env, m, call);
    hide Perform;
  }

  lemma EndedStep(cfg: Config, sch: Schema, env: Env, m: Machine, call: Call)
    requires env.Valid() && m.conn.done && Size(m.batch) >= cfg.flushThreshold && m.batch != []
    ensures var (m', ok) := Perform(cfg, sch, env, m, call);
            !ok && m'.conn == m.conn && m'.batch != [] && Size(m'.batch) >= cfg.flushThreshold
  {
    EndedCall(cfg, sch, env, m, call);
    hide Flush;
    match call
    case CallClose => EndedFlush(cfg, sch, env, m.batch, m.conn);
    case CallWrite(e) =>
      match Accept(cfg, e)
      case None =>
      case Some(op) =>
        Grow(m.batch, op);
        EndedFlush(cfg, sch, env, m.batch + [op], m.conn);
  }

  /** A flush that fails has ended the transaction, whatever the text and the tables. */
  lemma FailedFlushEnds(cfg: Config, sch: Schema, env: Env, batch: seq<Op>, c: Conn)
    requires env.Valid() && !Flush(cfg, sch, env, batch, c).1
    ensures Flush(cfg, sch, env, batch, c).0.done
  {
    FlushCases(cfg, sch, env, batch, c);
    hide Flush;
    hide Exec;
    hide Size;
    hide Winners;
    hide Ids;
    hide BlockText;
  }

  /** A write that fails ends the transaction and keeps its batch, which has reached the threshold; Close always ends it. */
  lemma {:induction false} HowItEnds(cfg: Config, sch: Schema, env: Env, m: Machine, op: Op)
    requires env.Valid()
    ensures var (m', ok) := WriteOp(cfg, sch, env, m, op);
            !ok ==> m'.conn.done && m'.batch == m.batch + [op] != [] && Size(m'.batch) >= cfg.flushThreshold
    ensures Close(cfg, sch, env, m).0.conn.done
  {
    if !Flush(cfg, sch, env, m.batch + [op], m.conn).1 { FailedFlushEnds(cfg, sch, env, m.batch + [op], m.conn); }
    if !Flush(cfg, sch, env, m.batch, m.conn).1 { FailedFlushEnds(cfg, sch, env, m.batch, m.conn); }
    hide Flush;
    hide Size;
  }

  /** A write of clean text that succeeds leaves nothing pending in the transaction. */
  lemma {:induction false} CleanWriteStaysIdle(cfg: Config, sch: Schema, env: Env, m: Machine, op: Op)
    requires env.Valid() && Fits(cfg, sch) && IdsUnconverted(cfg) && CleanBatch(cfg, m.batch + [op]) && Idle(sch, m.conn)
    ensures var (m', ok) := WriteOp(cfg, sch, env, m, op); ok ==> Idle(sch, m'.conn)
  {
    FlushMeans(cfg, sch, env, m.batch + [op], m.conn);
    hide Flush;
    hide CleanOp;
    hide Fits;
    hide View;
    hide ApplyBatch;
    hide Size;
    hide OldOrNew;
    hide Idle;
  }

  /** A flush whose first statement fails ends the transaction and changes nothing. */
  lemma FirstStatementFails(cfg: Config, sch: Schema, env: Env, batch: seq<Op>, c: Conn)
    requires env.Valid() && batch != [] && !c.done && env.fails(c.tick)
    ensures var (c', ok) := Flush(cfg, sch, env, batch, c); !ok && c'.done && c'.committed == c.committed
  {
    FlushCases(cfg, sch, env, batch, c);
    IdsExact(batch);
    hide Flush;
    hide Ids;
    hide Winners;
    hide Size;
    hide ParseBlock;
    hide BlockText;
    hide FlushInserts;
  }

  /**
   * Below the threshold a failed Close may be followed by a Write that reports success although
   * neither write is ever stored, whatever is called after.
   */
  lemma {:induction false} SilentWriteAfterClose(cfg: Config, sch: Schema, env: Env, c: Conn, e1: Entity, e2: Entity, later: seq<Call>)
    requires env.Valid() && !c.done && env.fails(c.tick) && cfg.flushThreshold > 2
    requires Accept(cfg, e1).Some? && Accept(cfg, e2).Some?
    ensures var (m1, ok1) := Write(cfg, sch, env, Machine([], c), e1);
            var (m2, ok2) := Close(cfg, sch, env, m1);
            var (m3, ok3) := Write(cfg, sch, env, m2, e2);
            ok1 && !ok2 && ok3 && PerformAll(cfg, sch, env, m3, later).conn.committed == c.committed
  {
    var a, b := Accept(cfg, e1).value, Accept(cfg, e2).value;
    assert [] + [a] == [a] && [a] + [b] == [a, b];
    Grow([], a);
    Grow([a], b);
    assert Size([]) == 0;
    FirstStatementFails(cfg, sch, env, [a], c);
    hide Flush;
    hide Accept;
    hide Size;
    var m2 := Close(cfg, sch, env, Machine([a], c)).0;
    EndedCall(cfg, sch, env, m2, CallWrite(e2));
    EndedForGood(cfg, sch, env, Write(cfg, sch, env, m2, e2).0, later);
  }

  /** Close after its flush. */
  lemma CloseCases(cfg: Config, sch: Schema, env: Env, m: Machine)
    requires env.Valid()
    ensures var f, (m', ok) := Flush(cfg, sch, env, m.batch, m.conn), Close(cfg, sch, env, m);
            && (!f.1 ==> !ok && m'.conn == f.0)
            && (f.1 && Idle(sch, f.0) ==> (ok <==> !env.fails(f.0.tick)) && m'.conn.committed == f.0.committed)
  {
    hide Flush;
  }

  lemma {:induction false} FlushedParts(cfg: Config, sch: Schema, env: Env, batch: seq<Op>, c: Conn, c': Conn, ok: bool)
    requires Flushed(cfg, sch, env, batch, c, c', ok)
    ensures (ok <==> CalmFor(env, c.tick, FlushTicks(batch))) && (ok ==> c'.tick == c.tick + FlushTicks(batch) && Idle(sch, c'))
    ensures var before, after := View(cfg, c.committed), View(cfg, c'.committed);
            if ok then after == ApplyBatch(before, batch, RowOf(cfg)) else after == before || after == Delete(before, Ids(batch))
  {
    ViewOfDelete(cfg, c.committed, Ids(batch));
    hide View;
    hide Delete;
    hide CalmFor;
    hide OldOrNew;
    hide FlushTicks;
    hide ApplyBatch;
    hide Idle;
  }

  /** When Close reports success, and what is committed then and when it does not. */
  lemma {:induction false} CloseSucceedsIff(cfg: Config, sch: Schema, env: Env, m: Machine)
    requires env.Valid() && Fits(cfg, sch) && IdsUnconverted(cfg) && CleanBatch(cfg, m.batch) && Idle(sch, m.conn)
    ensures var (m', ok) := Close(cfg, sch, env, m);
            var before, after := View(cfg, m.conn.committed), View(cfg, m'.conn.committed);
            var applied := ApplyBatch(before, m.batch, RowOf(cfg));
            && (ok <==> CalmFor(env, m.conn.tick, FlushTicks(m.batch) + 1))
            && (ok ==> after == applied)
            && (!ok ==> after == before || after == Delete(before, Ids(m.batch)) || after == applied)
  {
    hide *;
    var f := Flush(cfg, sch, env, m.batch, m.conn);
    FlushMeans(cfg, sch, env, m.batch, m.conn);
    FlushedParts(cfg, sch, env, m.batch, m.conn, f.0, f.1);
    CloseCases(cfg, sch, env, m);
    CalmSplit(env, m.conn.tick, FlushTicks(m.batch), 1);
    CalmOnce(env, m.conn.tick + FlushTicks(m.batch));
  }

  // ---------------------------------------------------------------- prefix of batches

  lemma {:induction false} ApplyAllCons<R>(t: map<string, R>, batch: seq<Op>, batches: seq<seq<Op>>, row: Op -> R)
    ensures ApplyAll(t, [batch] + batches, row) == ApplyAll(ApplyBatch(t, batch, row), batches, row)
    decreases |batches|
  {
    if batches == [] {
      assert [batch] + batches == [batch] && Init([batch]) == [];
    } else {
      assert Init([batch] + batches) == [batch] + Init(batches);
      ApplyAllCons(t, batch, Init(batches), row);
    }
  }

  /** The table is the effect of the first k batches, and possibly of the delete half of the next one. */
  ghost predicate IsPrefix(cfg: Config, start: Table, batches: seq<seq<Op>>, k: nat, half: bool, t: Table)
    requires k <= |batches| && (half ==> k < |batches|)
  {
    var whole := ApplyAll(View(cfg, start), batches[..k], RowOf(cfg));
    View(cfg, t) == if half then Delete(whole, Ids(batches[k])) else whole
  }

  lemma PrefixCons(cfg: Config, start: Table, mid: Table, batch: seq<Op>, batches: seq<seq<Op>>, k: nat, half: bool, t: Table)
    requires k <= |batches| && (half ==> k < |batches|)
    requires View(cfg, mid) == ApplyBatch(View(cfg, start), batch, RowOf(cfg)) && IsPrefix(cfg, mid, batches, k, half, t)
    ensures IsPrefix(cfg, start, [batch] + batches, k + 1, half, t)
  {
    hide View;
    hide ApplyBatch;
    hide Delete;
    assert ([batch] + batches)[..k + 1] == [batch] + batches[..k];
    ApplyAllCons(View(cfg, start), batch, batches[..k], RowOf(cfg));
  }

  /** Run the writes, then close if asked, then make any further calls. */
  function Finish(cfg: Config, sch: Schema, env: Env, m: Machine, ops: seq<Op>, close: bool, later: seq<Call>): Machine
    requires env.Valid()
  {
    var m' := WriteAll(cfg, sch, env, m, ops);
    if close then PerformAll(cfg, sch, env, Close(cfg, sch, env, m').0, later) else m'
  }

  /** Flushing one batch of the run, or failing to. */
  lemma FlushIsPrefix(cfg: Config, sch: Schema, env: Env, batch: seq<Op>, batches: seq<seq<Op>>, c: Conn) returns (half: bool)
    requires env.Valid() && Fits(cfg, sch) && IdsUnconverted(cfg) && CleanBatch(cfg, batch) && Idle(sch, c)
    ensures var (c', ok) := Flush(cfg, sch, env, batch, c);
            if ok then Idle(sch, c') && View(cfg, c'.committed) == ApplyBatch(View(cfg, c.committed), batch, RowOf(cfg))
            else c'.done && IsPrefix(cfg, c.committed, [batch] + batches, 0, half, c'.committed)
  {
    FlushMeans(cfg, sch, env, batch, c);
    var (c', ok) := Flush(cfg, sch, env, batch, c);
    half := c'.committed != c.committed;
    assert ([batch] + batches)[..0] == [];
    ViewOfDelete(cfg, c.committed, Ids(batch));
  }

  /**
   * Whatever statements fail, and whatever is called after Close, the committed table is the
   * effect of a prefix of whole batches, possibly followed by only the delete half of the next.
   */
  lemma {:induction false} FailurePrefix(cfg: Config, sch: Schema, env: Env, m: Machine, ops: seq<Op>, close: bool, later: seq<Call>)
    returns (k: nat, half: bool)
    requires env.Valid() && Fits(cfg, sch) && IdsUnconverted(cfg) && CleanBatch(cfg, m.batch + ops) && Idle(sch, m.conn)
    ensures var batches := Cut(cfg.flushThreshold, m.batch, ops);
            && k <= |batches| && (half ==> k < |batches|)
            && IsPrefix(cfg, m.conn.committed, batches, k, half, Finish(cfg, sch, env, m, ops, close, later).conn.committed)
    decreases |ops|
  {
    hide Flush;
    hide CleanOp;
    hide Fits;
    hide Size;
    hide IsPrefix;
    hide Finish;
    if ops == [] {
      assert m.batch + ops == m.batch;
      hide *;
      k, half := ClosePrefix(cfg, sch, env, m, close, later);
    } else {
      var batch, rest, m' := m.batch + [ops[0]], ops[1..], WriteOp(cfg, sch, env, m, ops[0]).0;
      assert m.batch + ops == batch + rest;
      CleanSplit(cfg, batch, rest);
      FinishStep(cfg, sch, env, m, ops, close, later);
      if Size(batch) >= cfg.flushThreshold {
        var more := Cut(cfg.flushThreshold, [], rest);
        assert Cut(cfg.flushThreshold, m.batch, ops) == [batch] + more;
        assert [] + rest == rest;
        assert Flush(cfg, sch, env, batch, m.conn).1 ==> m' == Machine([], Flush(cfg, sch, env, batch, m.conn).0);
        assert !Flush(cfg, sch, env, batch, m.conn).1 ==> m'.conn == Flush(cfg, sch, env, batch, m.conn).0;
        hide *;
        half := FlushIsPrefix(cfg, sch, env, batch, more, m.conn);
        if Flush(cfg, sch, env, batch, m.conn).1 {
          k, half := FailurePrefix(cfg, sch, env, m', rest, close, later);
          PrefixCons(cfg, m.conn.committed, m'.conn.committed, batch, more, k, half, Finish(cfg, sch, env, m', rest, close, later).conn.committed);
          k := k + 1;
        } else {
          k := 0;
          FinishEnded(cfg, sch, env, m', rest, close, later);
        }
      } else {
        assert Cut(cfg.flushThreshold, m.batch, ops) == Cut(cfg.flushThreshold, batch, rest);
        assert m' == Machine(batch, m.conn);
        hide *;
        k, half := FailurePrefix(cfg, sch, env, m', rest, close, later);
      }
    }
  }

  lemma CleanSplit(cfg: Config, a: seq<Op>, b: seq<Op>)
    requires CleanBatch(cfg, a + b)
    ensures CleanBatch(cfg, a) && CleanBatch(cfg, b)
  {
    hide CleanOp;
    assert forall i :: 0 <= i < |a| ==> (a + b)[i] == a[i];
    assert forall i :: 0 <= i < |b| ==> (a + b)[|a| + i] == b[i];
  }

  lemma FinishStep(cfg: Config, sch: Schema, env: Env, m: Machine, ops: seq<Op>, close: bool, later: seq<Call>)
    requires env.Valid() && ops != []
    ensures Finish(cfg, sch, env, m, ops, close, later) ==
            Finish(cfg, sch, env, WriteOp(cfg, sch, env, m, ops[0]).0, ops[1..], close, later)
  {
    hide WriteOp;
    hide Close;
    hide PerformAll;
  }

  lemma {:induction false} FinishEnded(cfg: Config, sch: Schema, env: Env, m: Machine, ops: seq<Op>, close: bool, later: seq<Call>)
    requires env.Valid() && m.conn.done
    ensures Finish(cfg, sch, env, m, ops, close, later).conn == m.conn
    decreases |ops|
  {
    hide Flush;
    if ops != [] {
      EndedFlush(cfg, sch, env, m.batch + [ops[0]], m.conn);
      FinishEnded(cfg, sch, env, WriteOp(cfg, sch, env, m, ops[0]).0, ops[1..], close, later);
    } else if close {
      EndedCall(cfg, sch, env, m, CallClose);
      EndedForGood(cfg, sch, env, Close(cfg, sch, env, m).0, later);
    }
  }

  lemma ClosePrefix(cfg: Config, sch: Schema, env: Env, m: Machine, close: bool, later: seq<Call>) returns (k: nat, half: bool)
    requires env.Valid() && Fits(cfg, sch) && IdsUnconverted(cfg) && CleanBatch(cfg, m.batch) && Idle(sch, m.conn)
    ensures var batches := Cut(cfg.flushThreshold, m.batch, []);
            && k <= |batches| && (half ==> k < |batches|)
            && IsPrefix(cfg, m.conn.committed, batches, k, half, Finish(cfg, sch, env, m, [], close, later).conn.committed)
  {
    hide Flush;
    hide CleanOp;
    hide Fits;
    var batches := Cut(cfg.flushThreshold, m.batch, []);
    k, half := 0, false;
    assert batches[..0] == [];
    if close {
      var c := Close(cfg, sch, env, m).0;
      half := FlushIsPrefix(cfg, sch, env, m.batch, [], m.conn);
      assert c.conn.done;
      EndedForGood(cfg, sch, env, c, later);
      var f := Flush(cfg, sch, env, m.batch, m.conn);
      if m.batch == [] {
        half := false;
        EmptyFlush(cfg, sch, env, m.conn);
      } else if f.1 {
        k, half := 1, false;
        assert batches[..1] == [m.batch] + [];
        assert c.conn.committed == f.0.committed;
        ApplyAllCons(View(cfg, m.conn.committed), m.batch, [], RowOf(cfg));
      } else {
        assert batches == [m.batch] + [];
        assert c.conn == f.0;
      }
    }
  }

  lemma EmptyFlush(cfg: Config, sch: Schema, env: Env, c: Conn)
    requires env.Valid()
    ensures Flush(cfg, sch, env, [], c) == (c, true)
  {
  }

  // ---------------------------------------------------------------- runs without failures

  ghost predicate Calm(env: Env, tick: nat) { forall n: nat :: tick <= n ==> !env.fails(n) }

  /** Without failures a run of writes and a Close applies every batch, whatever the order of the map. */
  lemma {:induction false} CalmRun(cfg: Config, sch: Schema, env: Env, m: Machine, ops: seq<Op>)
    requires env.Valid() && Fits(cfg, sch) && IdsUnconverted(cfg) && CleanBatch(cfg, m.batch + ops) && Idle(sch, m.conn)
    requires Calm(env, m.conn.tick)
    ensures var (m', ok) := Close(cfg, sch, env, WriteAll(cfg, sch, env, m, ops));
            ok && View(cfg, m'.conn.committed) ==
                  ApplyAll(View(cfg, m.conn.committed), Cut(cfg.flushThreshold, m.batch, ops), RowOf(cfg))
    decreases |ops|
  {
    hide Flush;
    hide CleanOp;
    hide Fits;
    hide Size;
    hide View;
    hide ApplyBatch;
    hide ApplyAll;
    if ops == [] {
      assert m.batch + ops == m.batch;
      CalmClose(cfg, sch, env, m);
    } else {
      var batch, rest, m' := m.batch + [ops[0]], ops[1..], WriteOp(cfg, sch, env, m, ops[0]).0;
      assert m.batch + ops == batch + rest;
      CleanSplit(cfg, batch, rest);
      assert WriteAll(cfg, sch, env, m, ops) == WriteAll(cfg, sch, env, m', rest);
      if Size(batch) >= cfg.flushThreshold {
        assert [] + rest == rest;
        assert Cut(cfg.flushThreshold, m.batch, ops) == [batch] + Cut(cfg.flushThreshold, [], rest);
        CalmFlush(cfg, sch, env, batch, m.conn);
        assert m' == Machine([], Flush(cfg, sch, env, batch, m.conn).0);
        hide *;
        CalmRun(cfg, sch, env, m', rest);
        ApplyAllCons(View(cfg, m.conn.committed), batch, Cut(cfg.flushThreshold, [], rest), RowOf(cfg));
      } else {
        assert Cut(cfg.flushThreshold, m.batch, ops) == Cut(cfg.flushThreshold, batch, rest);
        assert m' == Machine(batch, m.conn);
        hide *;
        CalmRun(cfg, sch, env, m', rest);
      }
    }
  }

  lemma CalmFlush(cfg: Config, sch: Schema, env: Env, batch: seq<Op>, c: Conn)
    requires env.Valid() && Fits(cfg, sch) && IdsUnconverted(cfg) && CleanBatch(cfg, batch) && Idle(sch, c) && Calm(env, c.tick)
    ensures var (c', ok) := Flush(cfg, sch, env, batch, c);
            ok && Idle(sch, c') && Calm(env, c'.tick) && View(cfg, c'.committed) == ApplyBatch(View(cfg, c.committed), batch, RowOf(cfg))
  {
    FlushMeans(cfg, sch, env, batch, c);
    hide Flush;
    hide Idle;
    hide View;
    hide ApplyBatch;
    hide Fits;
    hide CleanBatch;
  }

  lemma CalmClose(cfg: Config, sch: Schema, env: Env, m: Machine)
    requires env.Valid() && Fits(cfg, sch) && IdsUnconverted(cfg) && CleanBatch(cfg, m.batch) && Idle(sch, m.conn) && Calm(env, m.conn.tick)
    ensures var (m', ok) := Close(cfg, sch, env, m);
            ok && View(cfg, m'.conn.committed) == ApplyAll(View(cfg, m.conn.committed), Cut(cfg.flushThreshold, m.batch, []), RowOf(cfg))
  {
    CalmFlush(cfg, sch, env, m.batch, m.conn);
    hide Flush;
    hide View;
    hide ApplyBatch;
    hide Fits;
    hide CleanBatch;
    if m.batch == [] {
      EmptyFlush(cfg, sch, env, m.conn);
    } else {
      ApplyAllCons(View(cfg, m.conn.committed), m.batch, [], RowOf(cfg));
      assert [m.batch] + [] == [m.batch];
    }
  }

  /** The batches in which a failure-free run over these entities flushes. */
  function Batched(cfg: Config, es: seq<Entity>): seq<seq<Op>> { Cut(cfg.flushThreshold, [], Accepted(cfg, es)) }

  /** A run of writes and a Close that nothing makes fail. */
  function RunAndClose(cfg: Config, sch: Schema, env: Env, start: Conn, es: seq<Entity>): (Machine, bool)
    requires env.Valid()
  {
    Close(cfg, sch, env, PerformAll(cfg, sch, env, Machine([], start), Writes(es)))
  }

  lemma {:induction false} RunAppliesBatches(cfg: Config, sch: Schema, env: Env, start: Conn, es: seq<Entity>)
    requires env.Valid() && Fits(cfg, sch) && IdsUnconverted(cfg) && CleanBatch(cfg, Accepted(cfg, es)) && Idle(sch, start)
    requires Calm(env, start.tick)
    ensures var (m, ok) := RunAndClose(cfg, sch, env, start, es);
            ok && View(cfg, m.conn.committed) == ApplyAll(View(cfg, start.committed), Batched(cfg, es), RowOf(cfg))
    ensures Flatten(Batched(cfg, es)) == Accepted(cfg, es)
  {
    assert RunAndClose(cfg, sch, env, start, es) == Close(cfg, sch, env, PerformAll(cfg, sch, env, Machine([], start), Writes(es)));
    assert Batched(cfg, es) == Cut(cfg.flushThreshold, [], Accepted(cfg, es));
    hide *;
    var ops := Accepted(cfg, es);
    assert [] + ops == ops;
    WritesAreOps(cfg, sch, env, Machine([], start), es);
    CalmRun(cfg, sch, env, Machine([], start), ops);
    CutFlattens(cfg.flushThreshold, [], ops);
  }

  /**
   * Exactly when the fast form leaves what the simple form leaves: for every id, in the last batch
   * that touches it, the newest non-deleted write leaves what the last write asks for.
   */
  lemma {:induction false} BatchedEqualsUpsert(cfg: Config, sch: Schema, env: Env, start: Conn, es: seq<Entity>)
    requires env.Valid() && Fits(cfg, sch) && IdsUnconverted(cfg) && CleanBatch(cfg, Accepted(cfg, es)) && Idle(sch, start)
    requires Calm(env, start.tick)
    ensures var (m, ok) := RunAndClose(cfg, sch, env, start, es);
            ok &&
            (View(cfg, m.conn.committed) == UpsertAll(View(cfg, start.committed), Accepted(cfg, es), RowOf(cfg)) <==>
             forall id :: id in Ids(Accepted(cfg, es)) ==> LastWinsFor(LastBatch(Batched(cfg, es), id), RowOf(cfg), id))
  {
    hide *;
    RunAppliesBatches(cfg, sch, env, start, es);
    BatchesEqualSimple(View(cfg, start.committed), Batched(cfg, es), RowOf(cfg));
  }

  /** When recorded times do not decrease within a batch: exactly when no id ends with a delete that its last batch loses. */
  lemma {:induction false} OrderedRunEqualsUpsert(cfg: Config, sch: Schema, env: Env, start: Conn, es: seq<Entity>)
    requires env.Valid() && Fits(cfg, sch) && IdsUnconverted(cfg) && CleanBatch(cfg, Accepted(cfg, es)) && Idle(sch, start)
    requires Calm(env, start.tick) && forall b :: b in Batched(cfg, es) ==> Ordered(b)
    ensures var (m, ok) := RunAndClose(cfg, sch, env, start, es);
            ok &&
            (View(cfg, m.conn.committed) == UpsertAll(View(cfg, start.committed), Accepted(cfg, es), RowOf(cfg)) <==>
             forall id :: id in Ids(Accepted(cfg, es)) ==> !LosesDelete(LastBatch(Batched(cfg, es), id), id))
  {
    hide *;
    RunAppliesBatches(cfg, sch, env, start, es);
    OrderedBatchesEqualSimple(View(cfg, start.committed), Batched(cfg, es), RowOf(cfg));
  }

  /** On an ordered stream without late deletes the two forms agree for every threshold. */
  lemma {:induction false} EveryThresholdEqualsUpsert(cfg: Config, sch: Schema, env: Env, start: Conn, es: seq<Entity>)
    requires env.Valid() && Fits(cfg, sch) && IdsUnconverted(cfg) && CleanBatch(cfg, Accepted(cfg, es)) && Idle(sch, start)
    requires Calm(env, start.tick)
    requires Ordered(Accepted(cfg, es)) && NoDeleteAfterInsert(Accepted(cfg, es))
    ensures var (m, ok) := RunAndClose(cfg, sch, env, start, es);
            ok && View(cfg, m.conn.committed) == UpsertAll(View(cfg, start.committed), Accepted(cfg, es), RowOf(cfg))
  {
    assert Batched(cfg, es) == Cut(cfg.flushThreshold, [], Accepted(cfg, es));
    hide *;
    RunAppliesBatches(cfg, sch, env, start, es);
    ThresholdIrrelevant(View(cfg, start.committed), cfg.flushThreshold, Accepted(cfg, es), RowOf(cfg));
  }

  // ---------------------------------------------------------------- what a run stores, entity by entity

  /** The row of an id after entities that touch it: that of its newest version, by value, or none when there is none. */
  ghost predicate Stores(cfg: Config, es: seq<Entity>, t: Table, id: string) {
    && (id in t <==> Lives(cfg, es, id))
    && (id in t ==> exists i :: 0 <= i < |es| && NewestVersion(cfg, es, i, id) && RowIs(cfg, es[i], t[id]))
  }

  /** The row holds the cells of the entity, by value. */
  ghost predicate RowIs(cfg: Config, e: Entity, row: Row) { e.cells.Some? && Represented(cfg.mappings, e.cells.value, row) }

  lemma RowRepresents(cfg: Config, op: Op, e: Entity)
    requires CleanOp(cfg, op) && ComesFrom(op, e)
    ensures RowIs(cfg, e, RowOf(cfg)(op))
  {
    ContentHolds(cfg, op, Timestamps.ZERO);
    NoEmptyColumn(cfg, op);
    assert WithoutStamp(cfg, Content(cfg, op)) == Content(cfg, op);
    hide Content;
    hide CleanOp;
    hide WithoutStamp;
    hide Holds;
    ContentRepresents(cfg, op);
    hide Represented;
  }

  lemma NoEmptyColumn(cfg: Config, op: Op)
    requires CleanOp(cfg, op)
    ensures cfg.sinceColumn == "" ==> Lower(cfg.sinceColumn) !in Content(cfg, op)
  {
    ContentHolds(cfg, op, Timestamps.ZERO);
    hide Content;
    if cfg.sinceColumn == "" {
      assert Lower(cfg.sinceColumn) == "";
      assert forall i :: 0 <= i < |op.cells| ==> Lower(op.cells[i].0) != "";
    }
  }

  lemma {:induction false} ApplyAt(cfg: Config, t: Table, batch: seq<Op>, id: string)
    ensures var after := ApplyBatch(t, batch, RowOf(cfg));
            if id in Ids(batch) then (id in after <==> id in Winners(batch)) && (id in after ==> after[id] == RowOf(cfg)(Winners(batch)[id]))
            else SameAt(t, after, id)
  {
    hide RowOf;
    BatchAt(t, batch, RowOf(cfg), id);
    hide ApplyBatch;
    hide UpsertAll;
    hide Ids;
    hide Winners;
  }

  lemma GatheredAt(cfg: Config, es: seq<Entity>, batch: seq<Op>, id: string) returns (i: nat)
    requires Gathers(cfg, es, batch)
    ensures (id in Ids(batch) <==> Touches(cfg, es, id)) && (id in Winners(batch) <==> Lives(cfg, es, id))
    ensures id in Winners(batch) ==> i < |es| && NewestVersion(cfg, es, i, id) && ComesFrom(Winners(batch)[id], es[i])
  {
    assert GathersAt(cfg, es, batch, id);
    hide Touches;
    hide Lives;
    hide NewestVersion;
    hide Ids;
    hide Winners;
    i := 0;
    if id in Winners(batch) {
      i :| 0 <= i < |es| && NewestVersion(cfg, es, i, id) && ComesFrom(Winners(batch)[id], es[i]);
    }
  }

  lemma MakeStores(cfg: Config, es: seq<Entity>, t: Table, id: string, i: nat)
    requires id in t <==> Lives(cfg, es, id)
    requires id in t ==> i < |es| && NewestVersion(cfg, es, i, id) && RowIs(cfg, es[i], t[id])
    ensures Stores(cfg, es, t, id)
  {
    hide Lives;
    hide NewestVersion;
    hide RowIs;
  }

  /** One batch, seen at one id. */
  lemma BatchStores(cfg: Config, es: seq<Entity>, batch: seq<Op>, t: Table, id: string)
    requires Gathers(cfg, es, batch) && CleanBatch(cfg, batch)
    ensures var after := ApplyBatch(t, batch, RowOf(cfg));
            if Touches(cfg, es, id) then Stores(cfg, es, after, id) else SameAt(t, after, id)
  {
    hide *;
    var i := GatheredAt(cfg, es, batch, id);
    ApplyAt(cfg, t, batch, id);
    WinnersAreClean(cfg, batch);
    if id in Winners(batch) { RowRepresents(cfg, Winners(batch)[id], es[i]); }
    if Touches(cfg, es, id) { MakeStores(cfg, es, ApplyBatch(t, batch, RowOf(cfg)), id, i); }
  }

  /** Part k is the last that touches the id and decides its row; an id that no part touches stays. */
  ghost predicate Decides(cfg: Config, parts: seq<seq<Entity>>, k: nat, before: Table, after: Table, id: string) {
    (k < |parts| && Touches(cfg, parts[k], id) && Stores(cfg, parts[k], after, id) &&
     forall p :: k < p < |parts| ==> !Touches(cfg, parts[p], id)) ||
    (SameAt(before, after, id) && forall p :: 0 <= p < |parts| ==> !Touches(cfg, parts[p], id))
  }

  /** One more part that does not touch the id changes nothing about it. */
  lemma StillDecides(cfg: Config, parts: seq<seq<Entity>>, k: nat, before: Table, mid: Table, after: Table, id: string)
    requires parts != [] && Decides(cfg, Init(parts), k, before, mid, id) && !Touches(cfg, Last(parts), id) && SameAt(mid, after, id)
    ensures Decides(cfg, parts, k, before, after, id)
  {
    hide Touches;
    hide NewestVersion;
    hide Lives;
    hide RowIs;
    assert forall p :: 0 <= p < |parts| - 1 ==> Init(parts)[p] == parts[p];
    assert forall p :: 0 <= p < |parts| ==> p < |parts| - 1 || parts[p] == Last(parts);
  }

  lemma LastDecides(cfg: Config, parts: seq<seq<Entity>>, before: Table, after: Table, id: string)
    requires parts != [] && Touches(cfg, Last(parts), id) && Stores(cfg, Last(parts), after, id)
    ensures Decides(cfg, parts, |parts| - 1, before, after, id)
  {
    hide Touches;
    hide Stores;
  }

  lemma {:induction false} BatchesStore(cfg: Config, parts: seq<seq<Entity>>, batches: seq<seq<Op>>, t: Table, id: string) returns (k: nat)
    requires |parts| == |batches| && forall p :: 0 <= p < |parts| ==> Gathers(cfg, parts[p], batches[p]) && CleanBatch(cfg, batches[p])
    ensures Decides(cfg, parts, k, t, ApplyAll(t, batches, RowOf(cfg)), id)
    decreases |parts|
  {
    hide Gathers;
    hide CleanBatch;
    hide Touches;
    hide Stores;
    hide ApplyBatch;
    hide RowOf;
    k := 0;
    if parts != [] {
      hide Decides;
      var n := |parts| - 1;
      var mid := ApplyAll(t, Init(batches), RowOf(cfg));
      k := BatchesStore(cfg, Init(parts), Init(batches), t, id);
      BatchStores(cfg, Last(parts), Last(batches), mid, id);
      if Touches(cfg, Last(parts), id) {
        k := n;
        LastDecides(cfg, parts, t, ApplyAll(t, batches, RowOf(cfg)), id);
      } else {
        StillDecides(cfg, parts, k, t, mid, ApplyAll(t, batches, RowOf(cfg)), id);
      }
    }
  }

  /** Batches of a clean stream are clean. */
  lemma {:induction false} PartsAreClean(cfg: Config, batches: seq<seq<Op>>)
    requires CleanBatch(cfg, Flatten(batches))
    ensures forall k :: 0 <= k < |batches| ==> CleanBatch(cfg, batches[k])
  {
    hide CleanBatch;
    if batches != [] {
      CleanSplit(cfg, Flatten(Init(batches)), Last(batches));
      PartsAreClean(cfg, Init(batches));
      assert forall k :: 0 <= k < |batches| - 1 ==> Init(batches)[k] == batches[k];
    }
  }

  /**
   * What a run of writes and a Close that nothing makes fail stores, stated on the entities. The stream
   * falls into consecutive parts. The last part that touches an id decides it: the table holds the cells,
   * by value, of the newest version that is not deleted in that part, and no row when there is none.
   * An id that no entity holds stays.
   */
  lemma StreamStores(cfg: Config, sch: Schema, env: Env, start: Conn, es: seq<Entity>, id: string)
    returns (parts: seq<seq<Entity>>, k: nat)
    requires env.Valid() && Fits(cfg, sch) && IdsUnconverted(cfg) && CleanBatch(cfg, Accepted(cfg, es)) && Idle(sch, start)
    requires Calm(env, start.tick)
    ensures var (m, ok) := RunAndClose(cfg, sch, env, start, es);
            && ok && Flatten(parts) == es && |parts| == |Batched(cfg, es)| + 1
            && Decides(cfg, parts, k, View(cfg, start.committed), View(cfg, m.conn.committed), id)
  {
    assert Batched(cfg, es) == Cut(cfg.flushThreshold, [], Accepted(cfg, es));
    hide *;
    RunAppliesBatches(cfg, sch, env, start, es);
    NothingGathered(cfg);
    var batches := Batched(cfg, es);
    parts := CutGathers(cfg, [], [], es);
    assert [] + es == es;
    PartsAreClean(cfg, batches);
    RestIsRefused(cfg, parts, |batches|, id);
    k := BatchesStore(cfg, Init(parts), batches, View(cfg, start.committed), id);
    var after := ApplyAll(View(cfg, start.committed), batches, RowOf(cfg));
    SameAsItself(after, id);
    StillDecides(cfg, parts, k, View(cfg, start.committed), after, after, id);
  }

  lemma SameAsItself(t: Table, id: string)
    ensures SameAt(t, t, id)
  {
  }

  lemma RestIsRefused(cfg: Config, parts: seq<seq<Entity>>, n: nat, id: string)
    requires |parts| == n + 1 && Refused(cfg, parts[n])
    ensures |Init(parts)| == n && !Touches(cfg, Last(parts), id) && forall p :: 0 <= p < n ==> Init(parts)[p] == parts[p]
  {
    hide Touches;
  }

  // ---------------------------------------------------------------- which ids work

  /** The literal of an id is the same in DELETE and INSERT, and is the id itself. */
  predicate SameLiteral(cfg: Config, id: string) {
    LitFor(cfg.mappings, VStr(id), "id") == LitFor(cfg.mappings, VStr(id), cfg.idColumn) == LText(id)
  }

  lemma NotATime()
    ensures Timestamps.Convert("x", true).None? && Timestamps.Convert("x", false).None?
  {
  }

  /** It holds for every id exactly when no time mapping touches the id under either name. */
  lemma {:induction false} LiteralsAgree(cfg: Config)
    ensures (forall id :: SameLiteral(cfg, id)) <==> IdsUnconverted(cfg)
  {
    NotATime();
    if forall id :: SameLiteral(cfg, id) {
      assert SameLiteral(cfg, "x");
    }
  }

  /** The literal under which INSERT stores an id, and the one under which DELETE looks for it. */
  function StoredAs(cfg: Config, id: string): Lit { LitFor(cfg.mappings, VStr(id), cfg.idColumn) }

  function LookedForAs(cfg: Config, id: string): Lit { LitFor(cfg.mappings, VStr(id), "id") }

  /**
   * A write of an id whose literals are not both the id itself. An existing row is never rewritten:
   * the flush fails on the key that was not deleted or on a NULL key, or it stores the row under
   * another key. Unless INSERT uses the id itself, that holds for new rows as well.
   */
  lemma {:induction false} ConvertedIdFails(cfg: Config, sch: Schema, env: Env, op: Op, c: Conn)
    requires env.Valid() && Fits(cfg, sch) && CleanOp(cfg, op) && !op.deleted && !SameLiteral(cfg, op.id) && Idle(sch, c)
    ensures var (c', ok) := Flush(cfg, sch, env, [op], c);
            var stored := StoredAs(cfg, op.id);
            && (stored == LNull ==> !ok)
            && (stored == LText(op.id) && op.id in c.committed ==> !ok)
            && (stored != LText(op.id) || op.id in c.committed ==>
                  !(ok && View(cfg, c'.committed) == ApplyBatch(View(cfg, c.committed), [op], RowOf(cfg))))
  {
    BatchOfOne(op);
    FlushCases(cfg, sch, env, [op], c);
    assert StoredAs(cfg, op.id) == LText(op.id) ==> LookedForAs(cfg, op.id) != LText(op.id);
    hide *;
    var d := FlushDeletes(cfg, sch, env, [op], c);
    if d.1 {
      DeleteOfOne(cfg, sch, env, op, c);
      InsertOfOne(cfg, sch, env, op, d.0);
      var f := FlushInserts(cfg, sch, env, [op], d.0);
      if f.1 && StoredAs(cfg, op.id) != LText(op.id) {
        StoredElsewhere(cfg, sch, op, c.committed, f.0);
      }
    }
  }

  lemma BatchOfOne(op: Op)
    requires !op.deleted
    ensures Ids([op]) == [op.id] && Winners([op]) == map[op.id := op] != map[] && Size([op]) != 0
  {
    assert [] + [op] == [op] && [] + [op.id] == [op.id];
    Grow([], op);
    assert op.id in map[op.id := op];
  }

  /** An id of plain text has a readable literal, which is text or NULL. */
  lemma IdLiteral(cfg: Config, id: string, col: string)
    requires IsPlain(id)
    ensures var l := LitFor(cfg.mappings, VStr(id), col); WfLit(l) && (l == LNull || l.LText?)
  {
    if Timestamps.Convert(id, true).Some? { PlainConversion(id, true); }
    if Timestamps.Convert(id, false).Some? { PlainConversion(id, false); }
    hide Timestamps.Convert;
    hide IsPlain;
  }

  lemma DeleteOfOne(cfg: Config, sch: Schema, env: Env, op: Op, c: Conn)
    requires Fits(cfg, sch) && CleanOp(cfg, op) && Idle(sch, c) && Ids([op]) == [op.id]
    ensures var d := FlushDeletes(cfg, sch, env, [op], c);
            d.1 ==> Idle(sch, d.0) && (op.id in c.committed && LookedForAs(cfg, op.id) != LText(op.id) ==> op.id in d.0.committed)
  {
    var stmt := DeleteStmt(cfg, [op.id]);
    assert FlushDeletes(cfg, sch, env, [op], c) == Attempt(sch, env, c, BlockText([stmt]));
    assert IsPlain(op.id) && Keyed(sch, c.committed);
    IdLiteral(cfg, op.id, "id");
    assert Readable(stmt);
    hide Attempt;
    hide BlockText;
    hide Readable;
    hide CleanOp;
    hide Lower;
    AttemptBlock(sch, env, c, [stmt]);
    assert [stmt][1..] == [];
    if op.id in c.committed && LookedForAs(cfg, op.id) != LText(op.id) {
      DeleteMisses(cfg, sch, c.committed, op.id, env.time(c.tick + 1));
    }
    hide ExecStmt;
  }

  lemma DeleteMisses(cfg: Config, sch: Schema, t: Table, id: string, now: Timestamps.Time)
    requires Fits(cfg, sch) && Keyed(sch, t) && id in t && LookedForAs(cfg, id) != LText(id)
    ensures var r := ExecStmt(sch, t, DeleteStmt(cfg, [id]), now); r.Some? ==> id in r.value
  {
    hide LitFor;
    hide Lower;
    assert IdLits(cfg, [id]) == [LookedForAs(cfg, id)];
  }

  lemma InsertOfOne(cfg: Config, sch: Schema, env: Env, op: Op, c: Conn)
    requires env.Valid() && Fits(cfg, sch) && CleanOp(cfg, op) && Idle(sch, c) && Winners([op]) == map[op.id := op]
    ensures var (f, stored) := (FlushInserts(cfg, sch, env, [op], c), StoredAs(cfg, op.id));
            && (stored == LNull || (stored == LText(op.id) && op.id in c.committed) ==> !f.1)
            && (f.1 ==> Idle(sch, f.0))
  {
    var w := Winners([op]);
    var order := env.order(w.Keys, c.tick);
    assert IsListing(order, w.Keys);
    ListingFacts(order, w);
    assert op.id in order && order[0] in order;
    var stmts := InsertStmts(cfg, w, order);
    assert stmts[0] == InsertStmt(cfg, op.cells);
    assert FlushInserts(cfg, sch, env, [op], c) == Attempt(sch, env, c, BlockText(stmts));
    InsertsAreReadable(cfg, sch, w, order);
    hide *;
    AttemptBlock(sch, env, c, stmts);
    if StoredAs(cfg, op.id) == LNull || (StoredAs(cfg, op.id) == LText(op.id) && op.id in c.committed) {
      StampedRow(cfg, sch, op, env.time(c.tick + 1));
      KeyAsStored(cfg, sch, op);
      NoFreeKey(cfg, sch, c.committed, op, env.time(c.tick + 1));
      FirstInsertFails(sch, env, c.committed, stmts, c.tick + 1);
    }
  }

  lemma {:induction false} FirstInsertFails(sch: Schema, env: Env, t: Table, stmts: seq<Stmt>, tick: nat)
    requires stmts != [] && ExecStmt(sch, t, stmts[0], env.time(tick)).None?
    ensures !RunStmts(sch, env, t, stmts, tick).ok
  {
    hide ExecStmt;
  }

  /** The key cell of a write's row is what its stored literal says. */
  lemma KeyAsStored(cfg: Config, sch: Schema, op: Op)
    requires Fits(cfg, sch) && CleanOp(cfg, op)
    ensures CellIn(Content(cfg, op), sch.key) == (match StoredAs(cfg, op.id) case LText(k) => Text(k) case _ => Null)
  {
    ContentHolds(cfg, op, Timestamps.ZERO);
    assert IsPlain(op.id) && (cfg.idColumn, VStr(op.id)) in op.cells;
    IdLiteral(cfg, op.id, cfg.idColumn);
    hide CleanOp;
    hide Content;
    hide Lower;
    hide IsWord;
    hide LitFor;
    var i :| 0 <= i < |op.cells| && op.cells[i] == (cfg.idColumn, VStr(op.id));
    assert LitFor(cfg.mappings, op.cells[i].1, op.cells[i].0) == StoredAs(cfg, op.id);
  }

  lemma KeyIsNoStamp(cfg: Config, sch: Schema, row: Row)
    requires Fits(cfg, sch)
    ensures CellIn(WithoutStamp(cfg, row), sch.key) == CellIn(row, sch.key)
  {
    assert |Lower(cfg.idColumn)| == |cfg.idColumn| && |Lower(cfg.sinceColumn)| == |cfg.sinceColumn|;
    hide Lower;
  }

  lemma AskedRow(cfg: Config, before: Table, op: Op)
    requires Winners([op]) == map[op.id := op]
    ensures var a := ApplyBatch(View(cfg, before), [op], RowOf(cfg)); op.id in a && a[op.id] == WithoutStamp(cfg, Content(cfg, op))
  {
    hide Content;
    hide WithoutStamp;
    hide Ids;
    hide Winners;
  }

  /** A table whose rows carry their own keys does not hold the row that the batch asks for. */
  lemma StoredElsewhere(cfg: Config, sch: Schema, op: Op, before: Table, c: Conn)
    requires Fits(cfg, sch) && CleanOp(cfg, op) && Winners([op]) == map[op.id := op] && StoredAs(cfg, op.id) != LText(op.id) && Idle(sch, c)
    ensures View(cfg, c.committed) != ApplyBatch(View(cfg, before), [op], RowOf(cfg))
  {
    assert Keyed(sch, c.committed);
    KeyAsStored(cfg, sch, op);
    AskedRow(cfg, before, op);
    KeyIsNoStamp(cfg, sch, Content(cfg, op));
    hide Content;
    hide CleanOp;
    hide StoredAs;
    hide ApplyBatch;
    hide RowOf;
    hide WithoutStamp;
    hide Fits;
    hide CellIn;
    if op.id in c.committed {
      KeyIsNoStamp(cfg, sch, c.committed[op.id]);
      assert View(cfg, c.committed)[op.id] == WithoutStamp(cfg, c.committed[op.id]);
    }
  }

  /** A row without a key, or with a key that is taken, is not inserted. */
  lemma {:induction false} NoFreeKey(cfg: Config, sch: Schema, t: Table, op: Op, now: Timestamps.Time)
    requires var s := InsertStmt(cfg, op.cells); MakeRow(s.cols, s.vals, now) == Some(Stamped(cfg, Content(cfg, op), now))
    requires var key := CellIn(Content(cfg, op), sch.key); key == Null || (key.Text? && key.s in t)
    requires Fits(cfg, sch)
    ensures ExecStmt(sch, t, InsertStmt(cfg, op.cells), now).None?
  {
    hide MakeRow;
    hide Content;
    hide Lower;
    hide IsWord;
  }
}
